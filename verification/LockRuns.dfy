/** Any number of the shop's requests that cannot bring each other to a standstill.

    Each is taken whole: with the rows its papers refer to, which are locked for it as it commits, and
    with the shelves in the order it locks them. Without exchanges everybody locks in one order. An
    exchange locks its shelves before its order and its sale's number, and goes with whoever does not
    lock those before shelves. A transfer of stock locks shelves of two branches; but only the one that
    holds the transfers' number holds any, so each may go by an order of its own that everybody else,
    within one branch, goes by as well. A count locks its branch before its shelves, and goes with
    whoever moves no stock of that branch. A refund, and an event that changes nothing, come to a payment
    after its order, and go with whoever does not lock that payment before it. */
module LockRuns {
  import opened Wrappers
  import opened RowLocks
  import opened LockOrder
  import opened Recipes
  import opened Shop
  import opened CashBook
  import opened StockRoom
  import opened Orders
  import opened Fulfilment
  import opened Webhooks
  import opened SupplierReturns
  import opened Exchanges
  import opened ShopRuns
  import opened LockPairs
  import opened PairKeys
  import opened PairRuns
  import opened WholeRequests
  import Counts = StockCounts
  import Stock = StockLedger

  // ---- The order of a run -----------------------------------------------------------------------

  /** A run's exchanges -- the orders they take goods back from and those they make -- and the branch
      that receives the transfer under way; the branches being counted, and the payments that are referred
      to after their orders. */
  datatype Plan = Plan(
    swaps: bool, originals: set<nat>, sold: set<nat>, into: Option<nat>, counting: set<nat>, referred: set<nat>)

  /** The order rows are locked in, in such a run. */
  function PlanRank(plan: Plan, branchOf: nat -> nat, k: Key): Rank {
    match k
    case ExchangeAt(_) => Rank(0, 0)
    case NumberOf(sequence) =>
      if sequence.AccountTransfers? then Rank(16, 0)
      else if sequence.SupplierReturns? then Rank(4, 0)
      else if sequence.Returns? then Rank(9, 0)
      else if sequence.CounterOrders? && plan.swaps then Rank(11, 0)
      else Rank(0, 0)
    case OrderClaim(_) => Rank(1, 0)
    case StockTransferClaim(_) => Rank(1, 0)
    case ExpenseClaim(_) => Rank(1, 0)
    case EventClaim(_, _) => Rank(1, 0)
    case ExpenseAt(_) => Rank(2, 0)
    case CountAt(_) => Rank(2, 0)
    case PaymentAt(id) => if id in plan.referred then Rank(18, 0) else Rank(2, 0)
    case SupplierOrderAt(_) => Rank(2, 0)
    case OrderAt(id) => if id in plan.originals then Rank(8, 0) else if id in plan.sold then Rank(12, 0) else Rank(3, 0)
    case ReturnedItemAt(id) => Rank(3, id)
    case ShelfAt(id) =>
      if branchOf(id) in plan.counting then Rank(21, id)
      else Rank(if plan.into == Some(branchOf(id)) then 6 else 5, id)
    case StockClaim(_) => Rank(7, 0)
    case SupplierReturnClaim(_) => Rank(7, 0)
    case ReturnAt(_) => Rank(10, 0)
    case CouponAt(_) => Rank(13, 0)
    case AccountAt(id) => Rank(14, id)
    case MoveClaim(_) => Rank(15, 0)
    case AccountTransferClaim(_) => Rank(17, 0)
    case BranchAt(id) => Rank(if id in plan.counting then 20 else if plan.into == Some(id) then 23 else 22, id)
  }

  function RankIn(plan: Plan, branchOf: nat -> nat): Key -> Rank {
    (k: Key) => PlanRank(plan, branchOf, k)
  }

  // ---- What must hold of each request ---------------------------------------------------------

  predicate OneBranch(ids: seq<nat>, branchOf: nat -> nat) {
    forall i, j :: 0 <= i < j < |ids| ==> branchOf(ids[i]) == branchOf(ids[j])
  }

  /** Each id, where it is not one of those before it, is above them. */
  predicate AscendAnew(ids: seq<nat>) {
    forall i, j :: 0 <= i < j < |ids| ==> ids[j] in ids[..j] || ids[i] < ids[j]
  }

  /** The accounts of an exchange: its drawer, then those the rest of its sale is paid into. */
  function ExchangeAccounts(x: Exchange): seq<nat> {
    [x.drawer] + seq(|Counted(x.sale.tenders)|,
        i requires 0 <= i < |Counted(x.sale.tenders)| => Counted(x.sale.tenders)[i].account)
  }

  /** The shelves of an exchange, and of a transfer, where none has to be made. */
  function Exchanging(x: Exchange): seq<nat> {
    Stock.Ids(InvolvedLines(x))
  }

  function Shipping(t: Shipment): seq<nat> {
    Stock.Ids(Leaving(StockRoom.Packed(t.crates))) + Targets(StockRoom.Packed(t.crates))
  }

  function Into(t: Shipment, branchOf: nat -> nat): Option<nat> {
    var targets := Targets(StockRoom.Packed(t.crates));
    if targets == [] then None else Some(branchOf(targets[0]))
  }

  predicate ShelfBefore(into: Option<nat>, branchOf: nat -> nat, a: nat, b: nat) {
    if into == Some(branchOf(a)) then into == Some(branchOf(b)) && a < b else into == Some(branchOf(b)) || a < b
  }

  /** A transfer locks its shelves upwards, or each branch's upwards, the receiving one's last. */
  predicate SendsInOrder(t: Shipment, branchOf: nat -> nat) {
    var ids, into := Shipping(t), Into(t, branchOf);
    forall i, j :: 0 <= i < j < |ids| ==> ids[j] in ids[..j] || ShelfBefore(into, branchOf, ids[i], ids[j])
  }

  /** No shelf of these is in a branch being counted. */
  predicate Uncounted(ids: seq<nat>, plan: Plan, branchOf: nat -> nat) {
    forall id :: id in ids ==> branchOf(id) !in plan.counting
  }

  /** One branch's stock, that is not being counted. */
  predicate Moves(ids: seq<nat>, plan: Plan, branchOf: nat -> nat) {
    OneBranch(ids, branchOf) && Uncounted(ids, plan, branchOf)
  }

  /** Exchanges run with anything but counter sales and changes that move the stock of the orders they
      take goods back from; a count with whatever moves no stock of its branch; an event that acts on a
      payment with whatever does not refer to that payment after its order; tenders are given upwards. */
  predicate Fits(q: ShopRequest, plan: Plan, branchOf: nat -> nat) {
    match q
    case Cash(_) => true
    case Goods(AWriteOff(w)) => Moves([w.shelf], plan, branchOf)
    case Goods(ACorrection(a)) => Moves([a.shelf], plan, branchOf)
    case Goods(AShipment(t)) => SendsInOrder(t, branchOf) && Uncounted(Shipping(t), plan, branchOf)
    case Buy(p) =>
      && Moves(Stock.Ids(p.lines), plan, branchOf) && AscendAnew(PaidInto(p))
      && (plan.swaps ==> !p.counter) && p.order !in plan.originals && p.order !in plan.sold
    case Progress(a) =>
      MovesStock(a.to) ==>
          Moves(Stock.Ids(a.lines), plan, branchOf) && a.order !in plan.originals && a.order !in plan.sold
    case Hear(e) => Acts(e) ==> e.found.value.payment !in plan.referred
    case SendBack(_) => true
    case Swap(x) => Moves(Exchanging(x), plan, branchOf) && AscendAnew(ExchangeAccounts(x))
    case CountIn(a) => forall id :: id in Stock.Ids(Counts.Shelves(a.lines)) ==> branchOf(id) == a.branch
  }

  /** Its papers are of one branch; a transfer's, of the one it sends from and the one it sends to; a
      count's, of the one it counts. */
  predicate PapersFit(q: ShopRequest, papers: Papers, branchOf: nat -> nat) {
    match q
    case Goods(AShipment(t)) =>
      |papers.branches| <= 1 ||
      (|papers.branches| == 2 && papers.branches[0] != papers.branches[1] &&
       Into(t, branchOf) == Some(papers.branches[1]))
    case CountIn(a) => forall id :: id in papers.branches ==> id == a.branch
    case _ => |papers.branches| <= 1
  }

  function Swaps(asked: seq<ShopRequest>): (workers: set<nat>)
    ensures forall i :: i in workers <==> 0 <= i < |asked| && asked[i].Swap?
  {
    set i: nat | i < |asked| && asked[i].Swap?
  }

  /** The payments referred to after their orders: those refunds are made against, and those of events that
      change nothing. */
  function Refers(asked: seq<ShopRequest>, papers: seq<Papers>): set<nat>
    requires |papers| == |asked|
  {
    (set i: nat | i < |asked| && asked[i].Swap? && papers[i].payment.Some? :: papers[i].payment.value) +
    (set i: nat | i < |asked| && asked[i].Hear? && asked[i].heard.found.Some? && !Acts(asked[i].heard) ::
        asked[i].heard.found.value.payment)
  }

  function PlanOf(asked: seq<ShopRequest>, papers: seq<Papers>, into: Option<nat>): Plan
    requires |papers| == |asked|
  {
    Plan(
      Swaps(asked) != {},
      set i | i in Swaps(asked) :: asked[i].exchange.original,
      set i | i in Swaps(asked) :: asked[i].exchange.sale.order,
      into,
      set i: nat | i < |asked| && asked[i].CountIn? :: asked[i].applying.branch,
      Refers(asked, papers))
  }

  /** They fit together on these rows: no exchange takes goods back from an order another is making, and
      the shelves they name are all there. */
  predicate FitTogether(asked: seq<ShopRequest>, papers: seq<Papers>, branchOf: nat -> nat, db: Database)
    requires |papers| == |asked|
  {
    var plan := PlanOf(asked, papers, None);
    plan.originals !! plan.sold &&
    forall i :: 0 <= i < |asked| ==>
      Fits(asked[i], plan, branchOf) && PapersFit(asked[i], papers[i], branchOf) && AllThere(asked[i], db)
  }

  // ---- Requests whose keys keep their order -----------------------------------------------------

  /** Keys that come later here than they would without exchanges. */
  predicate Late(plan: Plan, k: Key) {
    || (k.OrderAt? && (k.order in plan.originals || k.order in plan.sold))
    || (k == NumberOf(CounterOrders) && plan.swaps)
    || k == NumberOf(Returns) || k.ReturnAt?
  }

  /** A row of before the end: no payment or branch referred to, and no shelf of a branch being counted. */
  predicate Early(plan: Plan, branchOf: nat -> nat, k: Key) {
    && !k.BranchAt? && (k.PaymentAt? ==> k.payment !in plan.referred)
    && (k.ShelfAt? ==> branchOf(k.shelf) !in plan.counting)
  }

  predicate KeepOrder(plan: Plan, branchOf: nat -> nat, a: Key, b: Key) {
    && Early(plan, branchOf, a) && Early(plan, branchOf, b)
    && (Late(plan, a) ==> RankOf(b).table >= 6 || !Below(RankOf(a), RankOf(b)))
    && (a.ShelfAt? && b.ShelfAt? ==> branchOf(a.shelf) == branchOf(b.shelf))
  }

  lemma KeptBelow(plan: Plan, branchOf: nat -> nat, a: Key, b: Key)
    requires KeepOrder(plan, branchOf, a, b) && Below(RankOf(a), RankOf(b))
    ensures Below(PlanRank(plan, branchOf, a), PlanRank(plan, branchOf, b))
  {
  }

  ghost predicate KeysKeepOrder(keys: seq<Key>, plan: Plan, branchOf: nat -> nat) {
    forall a, b :: a in keys && b in keys ==> KeepOrder(plan, branchOf, a, b)
  }

  lemma StaysOrdered(c: ShopRecipe, plan: Plan, branchOf: nat -> nat)
    requires Ordered(ToRequest(c), RankOf) && KeysKeepOrder(InOrder(c), plan, branchOf)
    ensures Ordered(ToRequest(c), RankIn(plan, branchOf))
  {
    hide Touches, InOrder, LockCount, PlanRank, RankOf, KeepOrder;
    var r, rank := ToRequest(c), RankIn(plan, branchOf);
    forall i, j | 0 <= i < j < |r.touches| && r.touches[i].locks && r.touches[j].locks
      ensures Took(r, j, r.touches[j].key) || Below(rank(r.touches[i].key), rank(r.touches[j].key))
    {
      NextLock(c, i);
      NextLock(c, j);
      if !Took(r, j, r.touches[j].key) {
        KeptBelow(plan, branchOf, r.touches[i].key, r.touches[j].key);
      }
    }
  }

  /** Keys of which none is late, and whose shelves are all in one branch. */
  ghost predicate Steady(keys: seq<Key>, plan: Plan, branchOf: nat -> nat) {
    && (forall k :: k in keys ==> !Late(plan, k) && Early(plan, branchOf, k))
    && (forall a, b :: a in keys && b in keys && a.ShelfAt? && b.ShelfAt? ==> branchOf(a.shelf) == branchOf(b.shelf))
  }

  lemma SteadyStays(c: ShopRecipe, plan: Plan, branchOf: nat -> nat)
    requires Ordered(ToRequest(c), RankOf) && Steady(InOrder(c), plan, branchOf)
    ensures Ordered(ToRequest(c), RankIn(plan, branchOf))
  {
    hide ToRequest, InOrder, Ordered, Late, RankOf, Early;
    StaysOrdered(c, plan, branchOf);
  }

  lemma OneBranchKeys(ids: seq<nat>, branchOf: nat -> nat, a: Key, b: Key)
    requires OneBranch(ids, branchOf) && a in ShelfKeys(ids) && b in ShelfKeys(ids)
    ensures a.ShelfAt? && b.ShelfAt? && branchOf(a.shelf) == branchOf(b.shelf)
  {
    var i, j :| 0 <= i < |ids| && 0 <= j < |ids| && a == ShelfAt(ids[i]) && b == ShelfAt(ids[j]);
    assert i < j ==> branchOf(ids[i]) == branchOf(ids[j]);
    assert j < i ==> branchOf(ids[j]) == branchOf(ids[i]);
  }

  // ---- Joining keys in order ------------------------------------------------------------------

  /** Every key is in a table before, or from, this one. */
  predicate Under(keys: seq<Key>, rank: Key -> Rank, table: nat) {
    forall i :: 0 <= i < |keys| ==> rank(keys[i]).table < table
  }

  predicate Over(keys: seq<Key>, rank: Key -> Rank, table: nat) {
    forall i :: 0 <= i < |keys| ==> rank(keys[i]).table >= table
  }

  lemma Join(a: seq<Key>, b: seq<Key>, rank: Key -> Rank, table: nat)
    requires Ascends(a, rank) && Ascends(b, rank) && Under(a, rank, table) && Over(b, rank, table)
    ensures Ascends(a + b, rank)
  {
    forall i, j | 0 <= i < |a| && 0 <= j < |b| ensures Below(rank(a[i]), rank(b[j])) {
    }
    AscendsJoin(a, b, rank);
  }

  lemma AccountsAscend(ids: seq<nat>, rank: Key -> Rank, table: nat)
    requires AscendAnew(ids) && forall id: nat :: rank(AccountAt(id)) == Rank(table, id)
    ensures Ascends(AccountKeys(ids), rank) && Over(AccountKeys(ids), rank, table)
  {
    var keys := AccountKeys(ids);
    forall i, j | 0 <= i < j < |keys| ensures keys[j] in keys[..j] || Below(rank(keys[i]), rank(keys[j])) {
      if ids[j] in ids[..j] {
        var m :| 0 <= m < j && ids[m] == ids[j];
        assert keys[..j][m] == keys[j];
      }
    }
  }

  lemma ShelvesAscend(ids: seq<nat>)
    requires Stock.Ascending(ids)
    ensures Ascends(ShelfKeys(ids), RankOf) && Under(ShelfKeys(ids), RankOf, 6) && Over(ShelfKeys(ids), RankOf, 4)
  {
  }

  // ---- An order, a change of status -------------------------------------------------------------

  lemma PaymentsAscend(p: Purchase)
    requires AscendAnew(PaidInto(p))
    ensures Ascends(CouponKeys(p.coupon) + AccountKeys(PaidInto(p)), RankOf)
    ensures Over(CouponKeys(p.coupon) + AccountKeys(PaidInto(p)), RankOf, 6)
  {
    hide PaidInto, AccountKeys;
    AccountsAscend(PaidInto(p), RankOf, 7);
    Join(CouponKeys(p.coupon), AccountKeys(PaidInto(p)), RankOf, 7);
  }

  lemma OpeningAscends(p: Purchase)
    ensures Ascends(Opening(p), RankOf) && Under(Opening(p), RankOf, 4)
  {
  }

  lemma PurchaseKeysAre(p: Purchase, policy: Stock.Policy)
    ensures InOrder(PurchaseRecipe(p, policy)) == Opening(p) + ShelfKeys(Stock.Ids(p.lines)) + PaymentKeys(p)
  {
    hide Tenders, TenderKeys, CouponKeys, Stock.Ids;
  }

  lemma PurchaseOrdered(p: Purchase, policy: Stock.Policy)
    requires AscendAnew(PaidInto(p))
    ensures Ordered(ToRequest(PurchaseRecipe(p, policy)), RankOf)
  {
    hide PurchaseRecipe, InOrder, Ordered, ToRequest, CouponKeys, ShelfKeys, AccountKeys, PaidInto, AscendAnew,
         Opening, Ascends, Under, Over, RankOf, PaymentKeys;
    var ids, last := Stock.Ids(p.lines), CouponKeys(p.coupon) + AccountKeys(PaidInto(p));
    PurchaseKeysAre(p, policy);
    PaymentsAre(p);
    Stock.IdsAscend(p.lines);
    ShelvesAscend(ids);
    PaymentsAscend(p);
    OpeningAscends(p);
    Join(ShelfKeys(ids), last, RankOf, 6);
    OverJoin(ShelfKeys(ids), last, RankOf);
    Join(Opening(p), ShelfKeys(ids) + last, RankOf, 4);
    assert Opening(p) + ShelfKeys(ids) + last == Opening(p) + (ShelfKeys(ids) + last);
    RecipeIsOrdered(PurchaseRecipe(p, policy), RankOf);
  }

  lemma OverJoin(a: seq<Key>, b: seq<Key>, rank: Key -> Rank)
    requires Over(a, rank, 4) && Over(b, rank, 6)
    ensures Over(a + b, rank, 4)
  {
  }

  lemma PaymentsAre(p: Purchase)
    ensures PaymentKeys(p) == CouponKeys(p.coupon) + AccountKeys(PaidInto(p))
  {
    hide Tenders;
    assert TenderKeys(Tenders(p)) == AccountKeys(PaidInto(p));
  }

  lemma AdvanceInOrder(a: Advance, policy: Stock.Policy)
    ensures InOrder(AdvanceRecipe(a, policy)) ==
        [OrderAt(a.order)] + (ShelfKeys(Stock.Ids(StockLines(a))) + CouponGivenBack(a))
  {
    hide StockLines, CouponGivenBack, Stock.Ids;
  }

  lemma AdvanceOrdered(a: Advance, policy: Stock.Policy)
    ensures Ordered(ToRequest(AdvanceRecipe(a, policy)), RankOf)
  {
    hide AdvanceRecipe, InOrder, Ordered, ToRequest, ShelfKeys, Stock.Ids, StockLines;
    Stock.IdsAscend(StockLines(a));
    ShelvesAscend(Stock.Ids(StockLines(a)));
    AdvanceInOrder(a, policy);
    Join(ShelfKeys(Stock.Ids(StockLines(a))), CouponGivenBack(a), RankOf, 6);
    Join([OrderAt(a.order)], ShelfKeys(Stock.Ids(StockLines(a))) + CouponGivenBack(a), RankOf, 4);
    RecipeIsOrdered(AdvanceRecipe(a, policy), RankOf);
  }

  // ---- Each request in the plan's order -----------------------------------------------------------

  lemma InCashKeys(c: CashRequest, k: Key)
    requires k in InOrder(CashRecipe(c))
    ensures k.AccountAt? || k.ExpenseAt? || IsClaim(k) || k == NumberOf(AccountTransfers) || k == NumberOf(Expenses)
  {
  }

  /** In the plan's order, and with nothing of the end's. */
  ghost predicate FitsIn(c: ShopRecipe, plan: Plan, branchOf: nat -> nat) {
    Ordered(ToRequest(c), RankIn(plan, branchOf)) && forall k :: k in InOrder(c) ==> Early(plan, branchOf, k)
  }

  lemma CashFits(c: CashRequest, policy: Stock.Policy, plan: Plan, branchOf: nat -> nat)
    ensures FitsIn(CashRecipe(c), plan, branchOf)
  {
    hide Ordered, ToRequest, CashRecipe, InOrder;
    CashProper(c, policy);
    forall k | k in InOrder(CashRecipe(c)) ensures !Late(plan, k) && Early(plan, branchOf, k) && !k.ShelfAt? {
      InCashKeys(c, k);
    }
    SteadyStays(CashRecipe(c), plan, branchOf);
  }

  lemma WriteOffFits(w: WriteOff, policy: Stock.Policy, plan: Plan, branchOf: nat -> nat)
    requires Moves([w.shelf], plan, branchOf)
    ensures FitsIn(WriteOffRecipe(w, policy), plan, branchOf)
  {
    hide Ordered, ToRequest;
    WriteOffWellMade(w, policy);
    assert w.shelf in [w.shelf];
    SteadyStays(WriteOffRecipe(w, policy), plan, branchOf);
  }

  lemma CorrectionFits(a: Correction, plan: Plan, branchOf: nat -> nat)
    requires Moves([a.shelf], plan, branchOf)
    ensures FitsIn(CorrectionRecipe(a), plan, branchOf)
  {
    hide Ordered, ToRequest;
    CorrectionWellMade(a);
    assert a.shelf in [a.shelf];
    SteadyStays(CorrectionRecipe(a), plan, branchOf);
  }

  lemma InEventKeys(e: Event, k: Key)
    requires k in InOrder(EventRecipe(e))
    ensures k.EventClaim? || k.PaymentAt? || k.OrderAt? || k.AccountAt?
    ensures k.PaymentAt? ==> Acts(e) && k.payment == e.found.value.payment
  {
  }

  lemma EventFits(e: Event, plan: Plan, branchOf: nat -> nat)
    requires Fits(Hear(e), plan, branchOf)
    ensures FitsIn(EventRecipe(e), plan, branchOf)
  {
    hide Ordered, ToRequest, EventRecipe, InOrder;
    EventOrdered(e);
    var keys := InOrder(EventRecipe(e));
    forall a, b | a in keys && b in keys ensures KeepOrder(plan, branchOf, a, b) {
      InEventKeys(e, a);
      InEventKeys(e, b);
    }
    StaysOrdered(EventRecipe(e), plan, branchOf);
  }

  lemma InSendingKeys(s: Sending, k: Key)
    requires k in InOrder(SendingRecipe(s))
    ensures k.SupplierOrderAt? || k.ReturnedItemAt? || k.SupplierReturnClaim? || k == NumberOf(SupplierReturns)
  {
    hide ItemIds;
  }

  lemma SendingFits(s: Sending, plan: Plan, branchOf: nat -> nat)
    ensures FitsIn(SendingRecipe(s), plan, branchOf)
  {
    hide Ordered, ToRequest, InOrder, SendingRecipe;
    SendingOrdered(s);
    forall k | k in InOrder(SendingRecipe(s)) ensures !Late(plan, k) && Early(plan, branchOf, k) && !k.ShelfAt? {
      InSendingKeys(s, k);
    }
    SteadyStays(SendingRecipe(s), plan, branchOf);
  }

  /** A sheet, its branch, and its shelves: all in tables of the branch's own. */
  lemma CountFits(a: Counts.Applying, plan: Plan, branchOf: nat -> nat)
    requires Fits(CountIn(a), plan, branchOf) && a.branch in plan.counting
    ensures Ordered(ToRequest(Counts.CountRecipe(a)), RankIn(plan, branchOf))
    ensures InOrder(Counts.CountRecipe(a)) == Counts.SheetKeys(a) + ShelfKeys(Stock.Ids(Counts.Shelves(a.lines)))
  {
    hide Ordered, ToRequest, Stock.Ids, Counts.Shelves;
    var ids, rank := Stock.Ids(Counts.Shelves(a.lines)), RankIn(plan, branchOf);
    Stock.IdsAscend(Counts.Shelves(a.lines));
    assert InOrder(Counts.CountRecipe(a)) == Counts.SheetKeys(a) + ShelfKeys(ids);
    forall i | 0 <= i < |ids| ensures rank(ShelfKeys(ids)[i]) == Rank(21, ids[i]) {
    }
    Join(Counts.SheetKeys(a), ShelfKeys(ids), rank, 21);
    RecipeIsOrdered(Counts.CountRecipe(a), rank);
  }

  lemma SteadyShelves(pre: seq<Key>, ids: seq<nat>, post: seq<Key>, plan: Plan, branchOf: nat -> nat)
    requires Moves(ids, plan, branchOf)
    requires forall k :: k in pre || k in post ==> !Late(plan, k) && Early(plan, branchOf, k) && !k.ShelfAt?
    ensures Steady(pre + ShelfKeys(ids) + post, plan, branchOf)
  {
    hide ShelfKeys;
    var keys := pre + ShelfKeys(ids) + post;
    forall k | k in keys ensures !Late(plan, k) && Early(plan, branchOf, k) {
      InShelfKeys(ids, k);
    }
    forall a, b | a in keys && b in keys && a.ShelfAt? && b.ShelfAt? ensures branchOf(a.shelf) == branchOf(b.shelf) {
      OneBranchKeys(ids, branchOf, a, b);
    }
  }

  lemma PurchaseFits(p: Purchase, policy: Stock.Policy, plan: Plan, branchOf: nat -> nat)
    requires Fits(Buy(p), plan, branchOf)
    ensures FitsIn(PurchaseRecipe(p, policy), plan, branchOf)
  {
    hide Ordered, ToRequest, PurchaseRecipe, InOrder, Stock.Ids, ShelfKeys, PaymentKeys, PaidInto, Opening;
    PurchaseOrdered(p, policy);
    PurchaseKeysAre(p, policy);
    OpeningIs(p);
    PaymentIs(p, |PaymentKeys(p)|);
    assert PaymentKeys(p)[..|PaymentKeys(p)|] == PaymentKeys(p);
    SteadyShelves(Opening(p), Stock.Ids(p.lines), PaymentKeys(p), plan, branchOf);
    SteadyStays(PurchaseRecipe(p, policy), plan, branchOf);
  }

  lemma AdvanceFits(a: Advance, policy: Stock.Policy, plan: Plan, branchOf: nat -> nat)
    requires Fits(Progress(a), plan, branchOf)
    ensures FitsIn(AdvanceRecipe(a, policy), plan, branchOf)
  {
    hide Ordered, ToRequest, Stock.Ids, AdvanceRecipe, InOrder;
    AdvanceOrdered(a, policy);
    AdvanceInOrder(a, policy);
    if MovesStock(a.to) {
      SteadyShelves([OrderAt(a.order)], Stock.Ids(a.lines), CouponGivenBack(a), plan, branchOf);
      assert [OrderAt(a.order)] + ShelfKeys(Stock.Ids(a.lines)) + CouponGivenBack(a) ==
          [OrderAt(a.order)] + (ShelfKeys(Stock.Ids(a.lines)) + CouponGivenBack(a));
      SteadyStays(AdvanceRecipe(a, policy), plan, branchOf);
    } else {
      assert InOrder(AdvanceRecipe(a, policy)) == [OrderAt(a.order)] by {
        NoKeys();
        NoIds();
      }
      StaysOrdered(AdvanceRecipe(a, policy), plan, branchOf);
    }
  }

  lemma NoIds()
    ensures Stock.Ids([]) == []
  {
  }

  // ---- An exchange ----------------------------------------------------------------------------------

  lemma InvolvedAscend(x: Exchange, plan: Plan, branchOf: nat -> nat)
    requires Moves(Exchanging(x), plan, branchOf)
    ensures Ascends(ShelfKeys(Exchanging(x)), RankIn(plan, branchOf))
    ensures Under(ShelfKeys(Exchanging(x)), RankIn(plan, branchOf), 8)
    ensures Over(ShelfKeys(Exchanging(x)), RankIn(plan, branchOf), 5)
  {
    hide InvolvedLines;
    Stock.IdsAscend(InvolvedLines(x));
  }

  /** From its original order to its sale's. */
  lemma NumbersAscend(x: Exchange, plan: Plan, branchOf: nat -> nat)
    requires plan.swaps && x.original in plan.originals && x.sale.order in plan.sold && plan.originals !! plan.sold
    ensures var keys, rank := ReturnKeysOf(x) + [OrderAt(x.sale.order)], RankIn(plan, branchOf);
      Ascends(keys, rank) && Under(keys, rank, 13) && Over(keys, rank, 8)
  {
    var keys, rank := ReturnKeysOf(x) + [OrderAt(x.sale.order)], RankIn(plan, branchOf);
    forall i | 0 <= i < 5 ensures rank(keys[i]) == Rank(8 + i, 0) {
    }
  }

  lemma TillsAre(x: Exchange)
    ensures AccountKeys(ExchangeAccounts(x)) == [AccountAt(x.drawer)] + TenderKeys(Counted(x.sale.tenders))
    ensures ExchangeKeys(x) == [ExchangeAt(x.token)] + (ShelfKeys(Exchanging(x)) +
              ((ReturnKeysOf(x) + [OrderAt(x.sale.order)]) +
                  (CouponKeys(x.sale.coupon) + AccountKeys(ExchangeAccounts(x)))))
  {
    hide Counted, Exchanging, CouponKeys, ShelfKeys, InvolvedLines, Stock.Ids;
    assert AccountKeys(ExchangeAccounts(x)) == [AccountAt(x.drawer)] + TenderKeys(Counted(x.sale.tenders));
    assert Exchanging(x) == Stock.Ids(InvolvedLines(x)) by {
      ExchangingIs(x);
    }
  }

  lemma ExchangingIs(x: Exchange)
    ensures Exchanging(x) == Stock.Ids(InvolvedLines(x))
  {
  }

  lemma TillsAscend(x: Exchange, plan: Plan, branchOf: nat -> nat)
    requires AscendAnew(ExchangeAccounts(x))
    ensures var keys, rank := CouponKeys(x.sale.coupon) + AccountKeys(ExchangeAccounts(x)), RankIn(plan, branchOf);
      Ascends(keys, rank) && Over(keys, rank, 13)
  {
    hide ExchangeAccounts, AccountKeys;
    AccountsAscend(ExchangeAccounts(x), RankIn(plan, branchOf), 14);
    Join(CouponKeys(x.sale.coupon), AccountKeys(ExchangeAccounts(x)), RankIn(plan, branchOf), 14);
  }

  lemma ExchangeOrdered(x: Exchange, policy: Stock.Policy, plan: Plan, branchOf: nat -> nat)
    requires Fits(Swap(x), plan, branchOf)
    requires plan.swaps && x.original in plan.originals && x.sale.order in plan.sold && plan.originals !! plan.sold
    ensures Ordered(ToRequest(ExchangeRecipe(x, policy)), RankIn(plan, branchOf))
  {
    hide Ordered, ToRequest, ExchangeKeys, Exchanging, ReturnKeysOf, CouponKeys, AccountKeys, ExchangeAccounts,
         ShelfKeys, Ascends, Under, Over;
    var rank := RankIn(plan, branchOf);
    var numbers, tills :=
        ReturnKeysOf(x) + [OrderAt(x.sale.order)], CouponKeys(x.sale.coupon) + AccountKeys(ExchangeAccounts(x));
    TillsAre(x);
    InvolvedAscend(x, plan, branchOf);
    NumbersAscend(x, plan, branchOf);
    TillsAscend(x, plan, branchOf);
    Join(numbers, tills, rank, 13);
    OverBoth(numbers, tills, rank, 8, 13);
    Join(ShelfKeys(Exchanging(x)), numbers + tills, rank, 8);
    OverBoth(ShelfKeys(Exchanging(x)), numbers + tills, rank, 5, 8);
    KeyAlone(x, plan, branchOf);
    Join([ExchangeAt(x.token)], ShelfKeys(Exchanging(x)) + (numbers + tills), rank, 5);
    ExchangeInOrder(x, policy);
    RecipeIsOrdered(ExchangeRecipe(x, policy), rank);
  }

  lemma OverBoth(a: seq<Key>, b: seq<Key>, rank: Key -> Rank, low: nat, high: nat)
    requires Over(a, rank, low) && Over(b, rank, high) && low <= high
    ensures Over(a + b, rank, low)
  {
  }

  lemma KeyAlone(x: Exchange, plan: Plan, branchOf: nat -> nat)
    ensures Ascends([ExchangeAt(x.token)], RankIn(plan, branchOf))
    ensures Under([ExchangeAt(x.token)], RankIn(plan, branchOf), 5)
  {
  }

  lemma ExchangeInOrder(x: Exchange, policy: Stock.Policy)
    ensures InOrder(ExchangeRecipe(x, policy)) == ExchangeKeys(x)
  {
    hide ExchangeKeys;
  }

  lemma ExchangeFits(x: Exchange, policy: Stock.Policy, plan: Plan, branchOf: nat -> nat)
    requires Fits(Swap(x), plan, branchOf)
    requires plan.swaps && x.original in plan.originals && x.sale.order in plan.sold && plan.originals !! plan.sold
    ensures FitsIn(ExchangeRecipe(x, policy), plan, branchOf)
  {
    hide Ordered, ToRequest, ExchangeKeys, Exchanging, CouponKeys, AccountKeys, ExchangeAccounts, ShelfKeys,
         ExchangeRecipe, InOrder;
    ExchangeOrdered(x, policy, plan, branchOf);
    ExchangeInOrder(x, policy);
    TillsAre(x);
    forall k | k in ExchangeKeys(x) ensures Early(plan, branchOf, k) {
      InShelfKeys(Exchanging(x), k);
      if k in CouponKeys(x.sale.coupon) || k in AccountKeys(ExchangeAccounts(x)) {
        AreTills(x, k);
      }
    }
  }

  lemma AreTills(x: Exchange, k: Key)
    requires k in CouponKeys(x.sale.coupon) || k in AccountKeys(ExchangeAccounts(x))
    ensures k.CouponAt? || k.AccountAt?
  {
    hide ExchangeAccounts;
  }

  // ---- A transfer of stock ----------------------------------------------------------------------------

  lemma SentAscend(t: Shipment, plan: Plan, branchOf: nat -> nat)
    requires SendsInOrder(t, branchOf) && Uncounted(Shipping(t), plan, branchOf) && plan.into == Into(t, branchOf)
    ensures Ascends(ShelfKeys(Shipping(t)), RankIn(plan, branchOf))
    ensures Over(ShelfKeys(Shipping(t)), RankIn(plan, branchOf), 5)
  {
    hide Shipping, Into;
    var ids, keys, rank := Shipping(t), ShelfKeys(Shipping(t)), RankIn(plan, branchOf);
    forall i | 0 <= i < |ids| ensures branchOf(ids[i]) !in plan.counting {
    }
    forall i, j | 0 <= i < j < |keys| ensures keys[j] in keys[..j] || Below(rank(keys[i]), rank(keys[j])) {
      if ids[j] in ids[..j] {
        var m :| 0 <= m < j && ids[m] == ids[j];
        assert keys[..j][m] == keys[j];
      }
    }
  }

  lemma ShipmentKeysAre(t: Shipment, policy: Stock.Policy)
    ensures InOrder(ShipmentRecipe(t, policy)) == ShipmentOpening(t) + ShelfKeys(Shipping(t))
  {
    hide ShelfKeys, Leaving, Targets, StockRoom.Packed, Stock.Ids;
  }

  lemma ShipmentFits(t: Shipment, policy: Stock.Policy, plan: Plan, branchOf: nat -> nat)
    requires SendsInOrder(t, branchOf) && Uncounted(Shipping(t), plan, branchOf) && plan.into == Into(t, branchOf)
    ensures FitsIn(ShipmentRecipe(t, policy), plan, branchOf)
  {
    hide Ordered, ToRequest, ShipmentRecipe, InOrder, Shipping, ShelfKeys;
    ShipmentKeysAre(t, policy);
    SentAscend(t, plan, branchOf);
    Join(ShipmentOpening(t), ShelfKeys(Shipping(t)), RankIn(plan, branchOf), 5);
    RecipeIsOrdered(ShipmentRecipe(t, policy), RankIn(plan, branchOf));
    forall k | k in InOrder(ShipmentRecipe(t, policy)) ensures Early(plan, branchOf, k) {
      InShelfKeys(Shipping(t), k);
    }
  }

  // ---- What it refers to ------------------------------------------------------------------------------

  lemma EarlyIsUnder(plan: Plan, branchOf: nat -> nat, k: Key)
    requires Early(plan, branchOf, k)
    ensures PlanRank(plan, branchOf, k).table < 18
  {
  }

  /** Payments and branches come after everything else. */
  lemma EndsInOrder(c: ShopRecipe, refs: seq<Key>, plan: Plan, branchOf: nat -> nat)
    requires FitsIn(c, plan, branchOf) && Ascends(refs, RankIn(plan, branchOf))
    requires forall k :: k in refs ==> PlanRank(plan, branchOf, k).table >= 18
    ensures Ordered(ToRequest(Referring(c, refs)), RankIn(plan, branchOf))
  {
    hide Ordered, ToRequest, InOrder, Early, PlanRank, Referring;
    forall k, r | k in InOrder(c) && r in refs ensures Below(RankIn(plan, branchOf)(k), RankIn(plan, branchOf)(r)) {
      EarlyIsUnder(plan, branchOf, k);
    }
    RefersInOrder(c, refs, RankIn(plan, branchOf));
  }

  lemma BranchesAscend(ids: seq<nat>, plan: Plan, branchOf: nat -> nat)
    requires |ids| <= 1 ||
        (|ids| == 2 && ids[0] != ids[1] && plan.into == Some(ids[1]) && ids[1] !in plan.counting)
    ensures Ascends(BranchKeys(ids), RankIn(plan, branchOf))
    ensures forall k :: k in BranchKeys(ids) ==> PlanRank(plan, branchOf, k).table >= 20
  {
    forall k | k in BranchKeys(ids) ensures PlanRank(plan, branchOf, k).table >= 20 {
      InBranchKeys(ids, k);
    }
  }

  lemma IntoUncounted(t: Shipment, plan: Plan, branchOf: nat -> nat, to: nat)
    requires Uncounted(Shipping(t), plan, branchOf) && Into(t, branchOf) == Some(to)
    ensures to !in plan.counting
  {
    hide Leaving, Targets, StockRoom.Packed;
    assert Targets(StockRoom.Packed(t.crates))[0] in Shipping(t);
  }

  /** An event acts on a payment, and refers to its order; or it refers to its order and then its payment. */
  lemma EventEnds(e: Event, papers: Papers, plan: Plan, branchOf: nat -> nat)
    requires Fits(Hear(e), plan, branchOf) && |papers.branches| <= 1
    requires e.found.Some? && !Acts(e) ==> e.found.value.payment in plan.referred
    ensures Ordered(ToRequest(Referring(EventRecipe(e), References(Hear(e), papers))), RankIn(plan, branchOf))
  {
    hide Ordered, ToRequest, EventRecipe, InOrder, Referring, BranchKeys, Early;
    var own, branches, rank := EventRefers(e), BranchKeys(papers.branches), RankIn(plan, branchOf);
    EventFits(e, plan, branchOf);
    BranchesAscend(papers.branches, plan, branchOf);
    Join(own, branches, rank, 20);
    forall r, k | r in own + branches && k in InOrder(EventRecipe(e))
      ensures r in InOrder(EventRecipe(e)) || Below(rank(k), rank(r))
    {
      EarlyIsUnder(plan, branchOf, k);
      InEventKeys(e, k);
      if r in own {
        OrderOfEvent(e, k);
      }
    }
    RefersInOrder(EventRecipe(e), own + branches, rank);
  }

  /** Its order is among what it locks, or it locks nothing above its order. */
  lemma OrderOfEvent(e: Event, k: Key)
    requires k in InOrder(EventRecipe(e)) && e.found.Some?
    ensures OrderAt(e.found.value.order) in InOrder(EventRecipe(e)) || k.EventClaim? || (k.PaymentAt? && Acts(e))
  {
    if Acts(e) && e.kind.Capture? {
      assert EventKeys(e)[1] == OrderAt(e.found.value.order);
    }
  }

  lemma ExchangeRefers(x: Exchange, papers: Papers, plan: Plan, branchOf: nat -> nat)
    requires |papers.branches| <= 1 && (papers.payment.Some? ==> papers.payment.value in plan.referred)
    ensures var refs := References(Swap(x), papers);
      Ascends(refs, RankIn(plan, branchOf)) && forall k :: k in refs ==> PlanRank(plan, branchOf, k).table >= 18
  {
    hide BranchKeys;
    var payment := if papers.payment.Some? then [PaymentAt(papers.payment.value)] else [];
    BranchesAscend(papers.branches, plan, branchOf);
    Join(payment, BranchKeys(papers.branches), RankIn(plan, branchOf), 20);
  }

  lemma CountRefers(a: Counts.Applying, papers: Papers, plan: Plan, branchOf: nat -> nat)
    requires Fits(CountIn(a), plan, branchOf) && a.branch in plan.counting
    requires forall id :: id in papers.branches ==> id == a.branch
    ensures Ordered(ToRequest(Referring(Counts.CountRecipe(a), BranchKeys(papers.branches))), RankIn(plan, branchOf))
  {
    hide Ordered, ToRequest, Stock.Ids, Counts.Shelves, InOrder, Counts.CountRecipe, ShelfKeys, Referring;
    var refs := BranchKeys(papers.branches);
    CountFits(a, plan, branchOf);
    forall k | k in refs ensures k == BranchAt(a.branch) && k in InOrder(Counts.CountRecipe(a)) {
      InBranchKeys(papers.branches, k);
    }
    OneAscends(refs, BranchAt(a.branch), RankIn(plan, branchOf));
    RefersInOrder(Counts.CountRecipe(a), refs, RankIn(plan, branchOf));
  }

  lemma OneAscends(keys: seq<Key>, one: Key, rank: Key -> Rank)
    requires forall k :: k in keys ==> k == one
    ensures Ascends(keys, rank)
  {
    forall i, j | 0 <= i < j < |keys| ensures keys[j] in keys[..j] || Below(rank(keys[i]), rank(keys[j])) {
      assert keys[i] in keys && keys[j] in keys && keys[..j][i] == one;
    }
  }

  // ---- Whole runs ---------------------------------------------------------------------------------------

  /** The branch that receives the transfer this worker is, if it is one. */
  function Receiving(asked: seq<ShopRequest>, branchOf: nat -> nat, holder: Option<nat>): Option<nat> {
    if holder.Some? && holder.value < |asked| && asked[holder.value].Goods? && asked[holder.value].goods.AShipment? then
      Into(asked[holder.value].goods.shipment, branchOf)
    else None
  }

  function RanksFor(asked: seq<ShopRequest>, papers: seq<Papers>, branchOf: nat -> nat): Option<nat> -> Key -> Rank
    requires |papers| == |asked|
  {
    (holder: Option<nat>) => RankIn(PlanOf(asked, papers, Receiving(asked, branchOf, holder)), branchOf)
  }

  lemma FitsWhateverComesIn(
      q: ShopRequest, asked: seq<ShopRequest>, papers: seq<Papers>, branchOf: nat -> nat, into: Option<nat>)
    requires |papers| == |asked| && Fits(q, PlanOf(asked, papers, None), branchOf)
    ensures Fits(q, PlanOf(asked, papers, into), branchOf)
  {
  }

  /** What the plan has of the request. */
  lemma PlanHas(asked: seq<ShopRequest>, papers: seq<Papers>, p: nat, into: Option<nat>)
    requires |papers| == |asked| && p < |asked|
    ensures var plan := PlanOf(asked, papers, into);
      && plan.into == into
      && (asked[p].Swap? ==>
            plan.swaps && asked[p].exchange.original in plan.originals && asked[p].exchange.sale.order in plan.sold)
      && (asked[p].Swap? && papers[p].payment.Some? ==> papers[p].payment.value in plan.referred)
      && (asked[p].Hear? && asked[p].heard.found.Some? && !Acts(asked[p].heard) ==>
            asked[p].heard.found.value.payment in plan.referred)
      && (asked[p].CountIn? ==> asked[p].applying.branch in plan.counting)
  {
    if asked[p].Swap? {
      assert p in Swaps(asked);
    }
  }

  /** A request that locks its shelves lowest id first, and then what it refers to. */
  lemma RequestFits(q: ShopRequest, papers: Papers, policy: Stock.Policy, branchOf: nat -> nat, plan: Plan)
    requires Fits(q, plan, branchOf) && PapersFit(q, papers, branchOf) && plan.originals !! plan.sold
    requires q.Goods? && q.goods.AShipment? ==> plan.into == Into(q.goods.shipment, branchOf)
    requires q.Swap? ==> plan.swaps && q.exchange.original in plan.originals && q.exchange.sale.order in plan.sold
    requires q.Swap? && papers.payment.Some? ==> papers.payment.value in plan.referred
    requires q.Hear? && q.heard.found.Some? && !Acts(q.heard) ==> q.heard.found.value.payment in plan.referred
    requires q.CountIn? ==> q.applying.branch in plan.counting
    ensures Ordered(ToRequest(Referring(ShopRuns.RecipeOf(q, policy), References(q, papers))), RankIn(plan, branchOf))
  {
    hide Ordered, ToRequest, PlanRank, Referring, FitsIn, BranchKeys, CashRecipe, PurchaseRecipe, AdvanceRecipe,
         EventRecipe, SendingRecipe, ExchangeRecipe, Counts.CountRecipe, ShipmentRecipe, WriteOffRecipe,
         CorrectionRecipe, Into, Moves, SendsInOrder, Uncounted;
    var branches := papers.branches;
    match q
    case Cash(c) => CashFits(c, policy, plan, branchOf); BranchEnds(CashRecipe(c), branches, plan, branchOf);
    case Goods(AWriteOff(w)) =>
      WriteOffFits(w, policy, plan, branchOf);
      BranchEnds(WriteOffRecipe(w, policy), branches, plan, branchOf);
    case Goods(ACorrection(a)) =>
      CorrectionFits(a, plan, branchOf);
      BranchEnds(CorrectionRecipe(a), branches, plan, branchOf);
    case Goods(AShipment(t)) =>
      ShipmentFits(t, policy, plan, branchOf);
      if |branches| > 1 {
        IntoUncounted(t, plan, branchOf, branches[1]);
      }
      BranchEnds(ShipmentRecipe(t, policy), branches, plan, branchOf);
    case Buy(p) =>
      PurchaseFits(p, policy, plan, branchOf);
      BranchEnds(PurchaseRecipe(p, policy), branches, plan, branchOf);
    case Progress(a) =>
      AdvanceFits(a, policy, plan, branchOf);
      BranchEnds(AdvanceRecipe(a, policy), branches, plan, branchOf);
    case Hear(e) => EventEnds(e, papers, plan, branchOf);
    case SendBack(s) => SendingFits(s, plan, branchOf); BranchEnds(SendingRecipe(s), branches, plan, branchOf);
    case Swap(x) =>
      ExchangeFits(x, policy, plan, branchOf);
      ExchangeRefers(x, papers, plan, branchOf);
      EndsInOrder(ExchangeRecipe(x, policy), References(q, papers), plan, branchOf);
    case CountIn(a) => CountRefers(a, papers, plan, branchOf);
  }

  lemma BranchEnds(c: ShopRecipe, branches: seq<nat>, plan: Plan, branchOf: nat -> nat)
    requires FitsIn(c, plan, branchOf)
    requires |branches| <= 1 ||
        (|branches| == 2 && branches[0] != branches[1] && plan.into == Some(branches[1]) &&
         branches[1] !in plan.counting)
    ensures Ordered(ToRequest(Referring(c, BranchKeys(branches))), RankIn(plan, branchOf))
  {
    hide FitsIn, Ordered, ToRequest, Referring, BranchKeys, PlanRank;
    BranchesAscend(branches, plan, branchOf);
    EndsInOrder(c, BranchKeys(branches), plan, branchOf);
  }

  /** Taken whole, where all its shelves are there, it locks the same. */
  lemma WholeOrdered(q: ShopRequest, papers: Papers, policy: Stock.Policy, db: Database, rank: Key -> Rank)
    requires AllThere(q, db)
    requires Ordered(ToRequest(Referring(ShopRuns.RecipeOf(q, policy), References(q, papers))), rank)
    ensures Ordered(ToRequest(Whole(q, papers, policy, db)), rank)
  {
    hide On, ShopRuns.RecipeOf, References, Touches, LockAlike, Referring;
    OnLocksAlike(q, policy, db);
    AlikeTouches(On(q, policy, db), ShopRuns.RecipeOf(q, policy), References(q, papers));
  }

  lemma WholeGuarded(q: ShopRequest, papers: Papers, policy: Stock.Policy, db: Database)
    requires q.Goods? && q.goods.AShipment?
    ensures GuardedBy(ToRequest(Whole(q, papers, policy, db)), NumberOf(StockTransfers))
  {
    hide ToRequest, ShipmentOn, ShipmentShelves, ShelfKeys, InOrder, References, Referring;
    var c := ShipmentOn(q.goods.shipment, policy, db);
    ShipmentInOrder(q.goods.shipment, policy, db);
    ReferringInOrder(c, References(q, papers));
    FirstGuards(Whole(q, papers, policy, db));
  }

  /** Whoever holds the transfers' number, everybody else keeps to the order of the one who does. */
  lemma EachInTurn(asked: seq<ShopRequest>, papers: seq<Papers>, policy: Stock.Policy, branchOf: nat -> nat,
      db: Database, holder: Option<nat>, p: nat)
    requires |papers| == |asked| && FitTogether(asked, papers, branchOf, db) && p < |asked|
    ensures var r := ToRequest(Whole(asked[p], papers[p], policy, db));
      Ordered(r, RanksFor(asked, papers, branchOf)(holder)) ||
      (holder != Some(p) && GuardedBy(r, NumberOf(StockTransfers)))
  {
    hide Ordered, GuardedBy, ToRequest, Whole, ShopRuns.RecipeOf, References, PlanRank, Into, Fits, RankIn, PapersFit,
         AllThere;
    if asked[p].Goods? && asked[p].goods.AShipment? && holder != Some(p) {
      WholeGuarded(asked[p], papers[p], policy, db);
    } else {
      var plan := PlanOf(asked, papers, Receiving(asked, branchOf, holder));
      FitsWhateverComesIn(asked[p], asked, papers, branchOf, plan.into);
      PlanHas(asked, papers, p, plan.into);
      RequestFits(asked[p], papers[p], policy, branchOf, plan);
      WholeOrdered(asked[p], papers[p], policy, db, RankIn(plan, branchOf));
    }
  }

  lemma AllInTurn(asked: seq<ShopRequest>, papers: seq<Papers>, policy: Stock.Policy, branchOf: nat -> nat,
      db: Database)
    requires |papers| == |asked| && FitTogether(asked, papers, branchOf, db)
    ensures InTurn(ToRequests(Wholes(asked, papers, policy, db)), NumberOf(StockTransfers),
        RanksFor(asked, papers, branchOf))
  {
    hide Ordered, GuardedBy, ToRequest, Whole, RanksFor, FitTogether;
    var reqs, ranks := ToRequests(Wholes(asked, papers, policy, db)), RanksFor(asked, papers, branchOf);
    forall holder: Option<nat>, p | 0 <= p < |reqs|
      ensures Ordered(reqs[p], ranks(holder)) || (holder != Some(p) && GuardedBy(reqs[p], NumberOf(StockTransfers)))
    {
      EachInTurn(asked, papers, policy, branchOf, db, holder, p);
    }
  }

  /** Any number of them, taken whole, in any interleaving: never a deadlock, and every run comes to an end
      with everybody answered. */
  lemma FittingRequestsFinish(asked: seq<ShopRequest>, papers: seq<Papers>, policy: Stock.Policy,
      branchOf: nat -> nat, db: Database, schedule: seq<nat>)
    requires |papers| == |asked| && FitTogether(asked, papers, branchOf, db)
    requires var reqs := ToRequests(Wholes(asked, papers, policy, db)); Schedulable(reqs, Start(reqs, db), schedule)
    ensures var reqs := ToRequests(Wholes(asked, papers, policy, db));
      && !CanDeadlock(reqs, db)
      && |schedule| <= Left(reqs, Start(reqs, db), |reqs|)
      && ((forall p: nat :: !Enabled(reqs, Outcome(reqs, db, schedule), p)) ==> AllDone(Outcome(reqs, db, schedule)))
  {
    hide Whole, ToRequest, InTurn, FitTogether, CanDeadlock;
    var reqs := ToRequests(Wholes(asked, papers, policy, db));
    AllInTurn(asked, papers, policy, branchOf, db);
    InTurnNeverDeadlocks(reqs, NumberOf(StockTransfers), RanksFor(asked, papers, branchOf), db);
    RunsFinish(reqs, db, schedule);
  }

  /** So does one of many articles whose lines name the receiving branch's shelves upwards. */
  lemma UpwardSendsInOrder(t: Shipment, branchOf: nat -> nat, from: nat, to: nat)
    requires from != to && AscendAnew(Targets(StockRoom.Packed(t.crates)))
    requires forall id :: id in Stock.Ids(Leaving(StockRoom.Packed(t.crates))) ==> branchOf(id) == from
    requires forall id :: id in Targets(StockRoom.Packed(t.crates)) ==> branchOf(id) == to
    ensures SendsInOrder(t, branchOf)
  {
    var sources := Stock.Ids(Leaving(StockRoom.Packed(t.crates)));
    Stock.IdsAscend(Leaving(StockRoom.Packed(t.crates)));
    var targets, ids, into := Targets(StockRoom.Packed(t.crates)), Shipping(t), Into(t, branchOf);
    forall i, j | 0 <= i < j < |ids| ensures ids[j] in ids[..j] || ShelfBefore(into, branchOf, ids[i], ids[j]) {
      assert ids[i] in ids && ids[j] in ids;
      if i >= |sources| {
        assert targets[..j - |sources|] == ids[..j][|sources|..];
      }
    }
  }
}
