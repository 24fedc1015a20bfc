/** The shop's requests taken whole: with their shelves locked in the order they are on the rows there
    are, and with the rows their papers refer to, which are locked for them as they commit. */
module WholeRequests {
  import opened Wrappers
  import opened RowLocks
  import opened LockOrder
  import opened LockPairs
  import opened Recipes
  import opened Shop
  import opened Tallies
  import opened CashBook
  import opened StockRoom
  import opened Orders
  import opened Fulfilment
  import opened Webhooks
  import opened SupplierReturns
  import opened Exchanges
  import opened ShopRuns
  import opened PairKeys
  import opened PairRuns
  import Counts = StockCounts
  import Stock = StockLedger

  /** What a request's papers refer to that is not the request's own to say: the payment an exchange's
      refund is made against, and the branches whose ledgers and documents it writes. */
  datatype Papers = Papers(payment: Option<nat>, branches: seq<nat>)

  /** An event's own row names its order and, after it, its payment. */
  function EventRefers(e: Event): seq<Key> {
    if e.found.None? then []
    else [OrderAt(e.found.value.order)] + if Acts(e) then [] else [PaymentAt(e.found.value.payment)]
  }

  /** The rows referred to, in the order they are locked as the request commits. */
  function References(q: ShopRequest, papers: Papers): seq<Key> {
    match q
    case Hear(e) => EventRefers(e) + BranchKeys(papers.branches)
    case Swap(_) =>
      (if papers.payment.Some? then [PaymentAt(papers.payment.value)] else []) + BranchKeys(papers.branches)
    case _ => BranchKeys(papers.branches)
  }

  /** The request with its shelves locked as they are on these rows. */
  function On(q: ShopRequest, policy: Stock.Policy, db: Database): ShopRecipe {
    match q
    case Goods(g) => if g.AShipment? then ShipmentOn(g.shipment, policy, db) else ShopRuns.RecipeOf(q, policy)
    case Buy(p) => PurchaseOn(p, policy, db)
    case Progress(a) => AdvanceOn(a, policy, db)
    case Swap(x) => ExchangeOn(x, policy, db)
    case CountIn(a) => Counts.CountOn(a, db)
    case _ => ShopRuns.RecipeOf(q, policy)
  }

  function Whole(q: ShopRequest, papers: Papers, policy: Stock.Policy, db: Database): ShopRecipe {
    Referring(On(q, policy, db), References(q, papers))
  }

  function Wholes(asked: seq<ShopRequest>, papers: seq<Papers>, policy: Stock.Policy, db: Database):
      (recipes: seq<ShopRecipe>)
    requires |papers| == |asked|
    ensures |recipes| == |asked|
  {
    seq(|asked|, i requires 0 <= i < |asked| => Whole(asked[i], papers[i], policy, db))
  }

  lemma NoClaimReferred(q: ShopRequest, papers: Papers, k: Key)
    requires k in References(q, papers)
    ensures !IsClaim(k) && (k.OrderAt? || k.PaymentAt? || k.BranchAt?)
  {
    InBranchKeys(papers.branches, k);
  }

  lemma MovementChecksHold(m: Movement)
    ensures ChecksHold(MovementRecipe(m))
  {
    hide Objection, Moving;
    var k := AccountAt(m.account);
    forall some: Values, more | Grows(some, more) && some.Keys == (set k | k in MovementRecipe(m).before)
      ensures Get(some, k) == Get(more, k)
    {
      assert k in some;
    }
  }

  lemma TransferChecksHold(t: Transfer)
    ensures ChecksHold(TransferRecipe(t))
  {
    hide Objection;
    var c := TransferRecipe(t);
    forall some: Values, more | Grows(some, more) && some.Keys == (set k | k in c.before)
      ensures Get(some, AccountAt(t.source)) == Get(more, AccountAt(t.source))
      ensures Get(some, AccountAt(t.target)) == Get(more, AccountAt(t.target))
    {
      assert AccountAt(t.source) in some && AccountAt(t.target) in some;
    }
  }

  lemma ExpenseChecksHold(e: Spending)
    ensures ChecksHold(SpendingRecipe(e))
  {
    hide Objection;
  }

  lemma VoidChecksHold(v: Voiding)
    ensures ChecksHold(VoidRecipe(v))
  {
    hide Objection;
  }

  lemma CashChecksHold(c: CashRequest, policy: Stock.Policy)
    ensures ChecksHold(CashRecipe(c)) && WellMade(CashRecipe(c), IsClaim)
  {
    CashProper(c, policy);
    hide ChecksHold, WellMade;
    match c
    case AMovement(m) => MovementChecksHold(m);
    case ATransfer(t) => TransferChecksHold(t);
    case ASpending(e) => ExpenseChecksHold(e);
    case AVoid(v) => VoidChecksHold(v);
  }

  lemma GoodsChecksHold(g: StockRequest, policy: Stock.Policy)
    ensures ChecksHold(StockRecipe(g, policy)) && WellMade(StockRecipe(g, policy), IsClaim)
  {
    match g
    case AWriteOff(w) => WriteOffWellMade(w, policy);
    case ACorrection(a) => CorrectionWellMade(a);
    case AShipment(t) => ShipmentWellMade(t, policy); ShipmentIsFirm(t, policy);
  }

  lemma EventChecksHold(e: Event)
    ensures ChecksHold(EventRecipe(e)) && WellMade(EventRecipe(e), IsClaim)
  {
    hide EventObjection;
    EventWellMade(e);
    forall some, more | Grows(some, more) && EventObjection(e, some).Some?
      ensures EventObjection(e, more) == EventObjection(e, some)
    {
      EventFirm(e, some, more);
    }
  }

  lemma OnIsMade(q: ShopRequest, policy: Stock.Policy, db: Database)
    ensures WellMade(On(q, policy, db), IsClaim) && ChecksHold(On(q, policy, db))
    ensures forall d :: Effect(On(q, policy, db), d) == Effect(ShopRuns.RecipeOf(q, policy), d)
  {
    hide WellMade, ChecksHold, Effect, CashRecipe, ShipmentOn, PurchaseOn, AdvanceOn, ExchangeOn, Counts.CountOn,
         EventRecipe, SendingRecipe;
    match q
    case Cash(c) => CashChecksHold(c, policy);
    case Goods(g) =>
      GoodsChecksHold(g, policy);
      if g.AShipment? {
        ShipmentOnIsMade(g.shipment, policy, db);
      }
    case Buy(p) => PurchaseOnIsMade(p, policy, db);
    case Progress(a) => AdvanceOnIsMade(a, policy, db);
    case Hear(e) => EventChecksHold(e);
    case SendBack(s) => SendingMade(s);
    case Swap(x) => ExchangeOnIsMade(x, policy, db);
    case CountIn(a) => CountOnIsMade(a, db);
  }

  lemma SendingMade(s: Sending)
    ensures ChecksHold(SendingRecipe(s)) && WellMade(SendingRecipe(s), IsClaim)
  {
    SendingAsksFirst(s);
    SendingWellMade(s);
  }

  /** Taken whole, a request does what its recipe says, and keeps what it keeps. */
  lemma WholeDoesTheSame(q: ShopRequest, papers: Papers, policy: Stock.Policy, db: Database)
    ensures WellMade(Whole(q, papers, policy, db), IsClaim)
    ensures forall d :: Effect(Whole(q, papers, policy, db), d) == Effect(ShopRuns.RecipeOf(q, policy), d)
  {
    hide WellMade, ChecksHold, Effect, On, References;
    var c, refs := On(q, policy, db), References(q, papers);
    OnIsMade(q, policy, db);
    forall k | k in c.after + refs ensures !IsClaim(k) {
      if k in refs {
        NoClaimReferred(q, papers, k);
      } else {
        NoClaimsIn(c, k);
      }
    }
    LockingDoesTheSame(c, c.after + refs, IsClaim);
  }

  lemma NoClaimsIn(c: ShopRecipe, k: Key)
    requires WellMade(c, IsClaim) && k in c.after
    ensures !IsClaim(k)
  {
    assert k in Keys(c);
  }

  lemma WholeSure(q: ShopRequest, papers: Papers, policy: Stock.Policy, db: Database)
    requires Acceptable(q, policy)
    ensures Sure(policy, Whole(q, papers, policy, db))
  {
    hide WellMade, Effect, Whole, ShopRuns.RecipeOf, ShopOk, Tally;
    RequestSure(q, policy);
    WholeDoesTheSame(q, papers, policy, db);
  }

  /** What holds of every committed state holds of runs of requests taken whole. */
  lemma WholeRunsAreSound(
      asked: seq<ShopRequest>, papers: seq<Papers>, policy: Stock.Policy, db: Database, schedule: seq<nat>)
    requires |papers| == |asked| && forall i :: 0 <= i < |asked| ==> Acceptable(asked[i], policy)
    requires ShopOk(policy, db) && Tally(db)
    requires var reqs := ToRequests(Wholes(asked, papers, policy, db)); Schedulable(reqs, Start(reqs, db), schedule)
    ensures var after := Outcome(ToRequests(Wholes(asked, papers, policy, db)), db, schedule).db;
      ShopOk(policy, after) && Tally(after)
  {
    hide Whole, ShopOk, Tally;
    forall i | 0 <= i < |asked| ensures Sure(policy, Wholes(asked, papers, policy, db)[i]) {
      WholeSure(asked[i], papers[i], policy, db);
    }
    AlwaysTallies(policy, Wholes(asked, papers, policy, db), db, schedule);
  }

  // ---- With every shelf there -------------------------------------------------------------------

  /** The lines whose shelves it locks together. */
  function ShelfLines(q: ShopRequest): seq<Stock.Line> {
    match q
    case Goods(g) => if g.AShipment? then Leaving(StockRoom.Packed(g.shipment.crates)) else []
    case Buy(p) => p.lines
    case Progress(a) => StockLines(a)
    case Swap(x) => InvolvedLines(x)
    case CountIn(a) => Counts.Shelves(a.lines)
    case _ => []
  }

  /** None of them has to be made. */
  predicate AllThere(q: ShopRequest, db: Database) {
    forall id :: id in Stock.Ids(ShelfLines(q)) ==> ShelfAt(id) in db
  }

  /** They lock the same rows in the same order. */
  predicate LockAlike(c: ShopRecipe, d: ShopRecipe) {
    && c.claim == d.claim && c.first == d.first && c.fault == d.fault && c.before == d.before && c.again == d.again
    && c.between == d.between && c.after == d.after
  }

  lemma AlikeTouches(c: ShopRecipe, d: ShopRecipe, refs: seq<Key>)
    requires LockAlike(c, d)
    ensures Touches(Referring(c, refs)) == Touches(Referring(d, refs))
    ensures InOrder(Referring(c, refs)) == InOrder(d) + refs
  {
    var a, b := Referring(c, refs), Referring(d, refs);
    assert Count(a) == Count(b);
    forall i: nat | i < Count(a) ensures TouchOf(a, i) == TouchOf(b, i) {
    }
  }

  lemma ShelvingThere(pre: seq<Key>, lines: seq<Stock.Line>, post: seq<Key>, db: Database)
    requires forall id :: id in Stock.Ids(lines) ==> ShelfAt(id) in db
    ensures Shelving(pre, lines, post, db) == pre + ShelfKeys(Stock.Ids(lines)) + post
  {
    hide ShelfOrder, Stock.Ids;
    NoneMissing(lines, db);
  }

  /** Then they are locked lowest id first. */
  lemma OnLocksAlike(q: ShopRequest, policy: Stock.Policy, db: Database)
    requires AllThere(q, db)
    ensures LockAlike(On(q, policy, db), ShopRuns.RecipeOf(q, policy))
  {
    hide ShelfKeys, Shelving, Stock.Ids, StockRoom.Packed, Leaving, Targets, Tenders, TenderKeys, CouponKeys,
         InvolvedLines, KeysAfterShelves, Counts.Shelves, CashRecipe, EventRecipe, SendingRecipe, CouponGivenBack,
         WriteOffRecipe, CorrectionRecipe;
    match q
    case Cash(_) =>
    case Goods(g) =>
      if g.AShipment? {
        var crates := StockRoom.Packed(g.shipment.crates);
        ShelvingThere([], Leaving(crates), ShelfKeys(Targets(crates)), db);
        KeysJoin(Stock.Ids(Leaving(crates)), Targets(crates));
      }
    case Buy(p) => ShelvingThere([OrderAt(p.order)], p.lines, CouponKeys(p.coupon) + TenderKeys(Tenders(p)), db);
    case Progress(a) => ShelvingThere([OrderAt(a.order)], StockLines(a), CouponGivenBack(a), db);
    case Hear(_) =>
    case SendBack(_) =>
    case Swap(x) => ShelvingThere([ExchangeAt(x.token)], InvolvedLines(x), KeysAfterShelves(x), db);
    case CountIn(a) => ShelvingThere(Counts.SheetKeys(a), Counts.Shelves(a.lines), [], db);
  }

  lemma KeysJoin(a: seq<nat>, b: seq<nat>)
    ensures ShelfKeys(a + b) == [] + ShelfKeys(a) + ShelfKeys(b)
  {
  }

  // ---- Two events of one payment ------------------------------------------------------------------

  /** One that would be made asks for all it locks, and then for what it refers to. */
  lemma WholeTries(q: ShopRequest, papers: Papers, policy: Stock.Policy, db: Database)
    requires WouldGo(On(q, policy, db), db)
    ensures Tries(ToRequest(Whole(q, papers, policy, db)), db) == InOrder(On(q, policy, db)) + References(q, papers)
  {
    hide On, References, InOrder, WouldGo, ToRequest, Tries, WellMade, ChecksHold, Referring;
    var c, refs := On(q, policy, db), References(q, papers);
    OnIsMade(q, policy, db);
    WholeDoesTheSame(q, papers, policy, db);
    ReferringGoes(c, refs, db);
    TriesAll(Whole(q, papers, policy, db), IsClaim, db);
    ReferringInOrder(c, refs);
  }

  lemma ReferringGoes(c: ShopRecipe, refs: seq<Key>, db: Database)
    ensures WouldGo(Referring(c, refs), db) <==> WouldGo(c, db)
  {
    GoesAlike(c, c.after + refs, db);
  }

  /** The rows of an event, in the order it comes to them: a payment it acts on before that payment's order,
      and one it only refers to after it. */
  function EventPath(e: Event): seq<Key> {
    [EventClaim(e.provider, e.event)] + EventKeys(e) + EventRefers(e)
  }

  lemma EventPathIs(e: Event, papers: Papers)
    ensures InOrder(EventRecipe(e)) + References(Hear(e), papers) == EventPath(e) + BranchKeys(papers.branches)
    ensures forall k :: k in EventPath(e) ==> !k.BranchAt?
  {
    hide BranchKeys, EventRefers;
    assert InOrder(EventRecipe(e)) == [EventClaim(e.provider, e.event)] + EventKeys(e);
    forall k | k in EventPath(e) ensures !k.BranchAt? {
      if k in EventKeys(e) || k in EventRefers(e) {
        NoBranchReferred(e, k);
      }
    }
  }

  lemma NoBranchReferred(e: Event, k: Key)
    requires k in EventKeys(e) || k in EventRefers(e)
    ensures !k.BranchAt?
  {
  }

  /** The rows an event comes to first, and then a row of its own again or an account. */
  function EventStart(e: Event): seq<Key>
    requires e.found.Some?
  {
    var payment, order := PaymentAt(e.found.value.payment), OrderAt(e.found.value.order);
    [EventClaim(e.provider, e.event)] + if Acts(e) then [payment, order] else [order, payment]
  }

  lemma EventStarts(e: Event) returns (rest: seq<Key>)
    requires e.found.Some?
    ensures EventPath(e) == EventStart(e) + rest && (!Acts(e) ==> rest == [])
    ensures forall k :: k in rest ==> k.AccountAt? || k == OrderAt(e.found.value.order)
  {
    rest := EventPath(e)[3..];
    forall k | k in rest ensures k.AccountAt? || k == OrderAt(e.found.value.order) {
      var i :| 3 <= i < |EventPath(e)| && EventPath(e)[i] == k;
    }
  }

  lemma OneThen(k: Key, rest: seq<Key>, other: seq<Key>)
    ensures FirstShared([k] + rest, other) == if k in other then Some(k) else FirstShared(rest, other)
  {
    assert ([k] + rest)[1..] == rest;
  }

  /** The first row of three, or of what follows them if none of the three. */
  lemma FirstOfThree(a: Key, b: Key, c: Key, rest: seq<Key>, other: seq<Key>)
    ensures FirstShared([a, b, c] + rest, other) ==
        if a in other then Some(a) else if b in other then Some(b) else if c in other then Some(c)
        else FirstShared(rest, other)
  {
    hide FirstShared;
    assert [a, b, c] + rest == [a] + ([b] + ([c] + rest));
    OneThen(a, [b] + ([c] + rest), other);
    OneThen(b, [c] + rest, other);
    OneThen(c, rest, other);
  }

  lemma InEventStart(e: Event, k: Key)
    requires e.found.Some?
    ensures k in EventStart(e) <==>
        k == EventClaim(e.provider, e.event) || k == PaymentAt(e.found.value.payment) ||
            k == OrderAt(e.found.value.order)
  {
  }

  /** What two events have in common is where they start. */
  lemma StartDecides(e: Event, f: Event)
    requires e.found.Some? && f.found.Some? && (Acts(e) <==> !Acts(f))
    ensures FirstShared(EventPath(e), EventPath(f)) == FirstShared(EventStart(e), EventStart(f))
  {
    hide EventPath, EventStart, FirstShared;
    var rest := EventStarts(e);
    var rest' := EventStarts(f);
    forall k ensures (k in EventStart(e) ==> !k.AccountAt?) && (k in EventStart(f) ==> !k.AccountAt?) {
      InEventStart(e, k);
      InEventStart(f, k);
    }
    InEventStart(e, OrderAt(e.found.value.order));
    InEventStart(f, OrderAt(f.found.value.order));
    FirstOfParts(EventStart(e), rest, EventPath(f));
    FirstAgrees(EventStart(e), EventPath(f), EventStart(f));
    SharedIfAny(EventStart(e), EventStart(f));
    if FirstShared(EventStart(e), EventStart(f)).None? {
      NoneShared(rest, EventPath(f));
    }
  }

  lemma StartsCross(e: Event, f: Event)
    requires Acts(e) && !Acts(f) && f.found.Some?
    ensures FirstShared(EventStart(e), EventStart(f)) != FirstShared(EventStart(f), EventStart(e)) <==>
      && (e.provider, e.event) != (f.provider, f.event)
      && e.found.value.payment == f.found.value.payment && e.found.value.order == f.found.value.order
  {
    hide FirstShared;
    var none: seq<Key> := [];
    var a, b := EventStart(e), EventStart(f);
    assert a == [a[0], a[1], a[2]] + none && b == [b[0], b[1], b[2]] + none;
    FirstOfThree(a[0], a[1], a[2], none, b);
    FirstOfThree(b[0], b[1], b[2], none, a);
    NoneShared(none, a);
    NoneShared(none, b);
  }

  lemma PathsCross(e: Event, f: Event)
    requires Acts(e) && !Acts(f) && f.found.Some?
    ensures FirstShared(EventPath(e), EventPath(f)) != FirstShared(EventPath(f), EventPath(e)) <==>
      && (e.provider, e.event) != (f.provider, f.event)
      && e.found.value.payment == f.found.value.payment && e.found.value.order == f.found.value.order
  {
    hide EventPath, EventStart, FirstShared;
    StartDecides(e, f);
    StartDecides(f, e);
    StartsCross(e, f);
  }

  lemma BranchesAre(ids: seq<nat>)
    ensures forall k :: k in BranchKeys(ids) ==> k.BranchAt?
  {
  }

  /** One event that acts on its payment and one that changes nothing, each heard for the first time and its
      papers of one branch, can deadlock exactly when they are of one payment and its order: the one locks
      the payment and then the order, and the other's row refers to the order and then the payment. */
  lemma TwoEventsDeadlockExactlyWhen(
      e: Event, its: Papers, f: Event, others: Papers, policy: Stock.Policy, db: Database)
    requires Acts(e) && !Acts(f) && f.found.Some? && WouldGo(EventRecipe(e), db) && WouldGo(EventRecipe(f), db)
    requires |its.branches| <= 1 && |others.branches| <= 1
    ensures CanDeadlock([ToRequest(Whole(Hear(e), its, policy, db)), ToRequest(Whole(Hear(f), others, policy, db))],
              db) <==>
      && (e.provider, e.event) != (f.provider, f.event)
      && e.found.value.payment == f.found.value.payment && e.found.value.order == f.found.value.order
  {
    hide ToRequest, Whole, EventPath, FirstShared, CanDeadlock, EventRecipe, WouldGo, Tries, InOrder, BranchKeys,
         References;
    WholeTries(Hear(e), its, policy, db);
    WholeTries(Hear(f), others, policy, db);
    EventPathIs(e, its);
    EventPathIs(f, others);
    PairDeadlocksExactlyWhen(ToRequest(Whole(Hear(e), its, policy, db)), ToRequest(Whole(Hear(f), others, policy, db)),
        db);
    BranchesAreMany(its.branches);
    BranchesAreMany(others.branches);
    BranchesAre(its.branches);
    BranchesAre(others.branches);
    BranchesLast(EventPath(e), BranchKeys(its.branches), EventPath(f), BranchKeys(others.branches));
    PathsCross(e, f);
  }
}
