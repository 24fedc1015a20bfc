/** An order in figures: when it is placed, and what it leaves of every shelf, coupon and account. */
module OrderLaws {
  import opened Wrappers
  import opened RowLocks
  import opened Recipes
  import opened Shop
  import opened Tallies
  import opened CashBook
  import opened StockRoom
  import opened Orders
  import opened StockLaws
  import OrderRuns
  import StockRuns
  import Stock = StockLedger
  import Money = MoneyLedger
  import Coupons = CouponBook

  // ---- The goods ----------------------------------------------------------------------

  /** What a shelf has for an order: what nobody holds, and at the counter, where the shop lets it, what orders
      online hold as well; but never what is not on hand. */
  predicate HasFor(policy: Stock.Policy, counter: bool, shelf: Stock.Shelf, asked: nat) {
    || policy.oversell
    || (if counter then asked <= shelf.onHand && (policy.counterSellsReserved || asked <= shelf.onHand - shelf.reserved)
        else asked <= shelf.onHand - shelf.reserved)
  }

  /** Every shelf has what all the lines together ask of it. */
  predicate GoodsAreThere(policy: Stock.Policy, counter: bool, lines: seq<Stock.Line>, db: Database) {
    forall i :: 0 <= i < |lines| && lines[i].quantity > 0 ==>
      HasFor(policy, counter, ShelfNow(db, lines[i].shelf), Stock.Asked(lines, lines[i].shelf))
  }

  /** The line that touches a shelf. */
  lemma {:induction false} TouchedBy(lines: seq<Stock.Line>, id: nat) returns (i: nat)
    requires id in Stock.Touched(lines)
    ensures i < |lines| && lines[i].shelf == id && lines[i].quantity > 0
  {
    if lines[0].quantity > 0 && lines[0].shelf == id {
      i := 0;
    } else {
      i := TouchedBy(lines[1..], id);
      i := i + 1;
    }
  }

  lemma {:induction false} TouchesOf(lines: seq<Stock.Line>, i: nat)
    requires i < |lines| && lines[i].quantity > 0
    ensures lines[i].shelf in Stock.Touched(lines)
  {
    if i > 0 {
      TouchesOf(lines[1..], i - 1);
    }
  }

  predicate ShelvesAsTheyAre(lines: seq<Stock.Line>, values: Values, db: Database) {
    forall id :: id in Stock.Touched(lines) ==> ShelfOf(values, id) == ShelfNow(db, id)
  }

  lemma GoodsExactlyWhen(policy: Stock.Policy, counter: bool, lines: seq<Stock.Line>, values: Values, db: Database)
    requires ShelvesAsTheyAre(lines, values, db)
    ensures StockObjection(policy, counter, lines, values) ==
            if GoodsAreThere(policy, counter, lines, db) then None else Some(InsufficientStock)
  {
    hide Stock.Ids, Stock.Touched, Stock.Asked, ShelfOf, ShelfNow;
    var ids, rows := Stock.Ids(lines), ShelvesOf(values, Stock.Touched(lines));
    Stock.IdsAscend(lines);
    if StockObjection(policy, counter, lines, values).None? {
      forall i | 0 <= i < |lines| && lines[i].quantity > 0
        ensures HasFor(policy, counter, ShelfNow(db, lines[i].shelf), Stock.Asked(lines, lines[i].shelf))
      {
        TouchesOf(lines, i);
        var j :| 0 <= j < |ids| && ids[j] == lines[i].shelf;
      }
    } else if GoodsAreThere(policy, counter, lines, db) {
      forall j | 0 <= j < |ids| ensures HasFor(policy, counter, rows[ids[j]], Stock.Asked(lines, ids[j])) {
        var i := TouchedBy(lines, ids[j]);
      }
      assert false;
    }
  }

  // ---- The coupon ---------------------------------------------------------------------

  /** What a coupon says to one use more: a limit reached, whole or the customer's own, refuses it. */
  function CouponSays(coupon: Option<Coupons.Coupon>, customer: Option<nat>): Option<Refusal> {
    match coupon
    case None => Some(NoSuchCoupon)
    case Some(c) =>
      if c.usageLimit.Some? && c.usedCount >= c.usageLimit.value then Some(CouponExhausted)
      else if c.perCustomer.Some? && c.perCustomer.value >= 1 && customer.Some? &&
              Coupons.LiveFor(c.redemptions, customer.value) >= c.perCustomer.value then Some(CouponUsed)
      else None
  }

  /** The coupon with one use more. */
  function UsedBy(c: Coupons.Coupon, order: nat, customer: Option<nat>): Coupons.Coupon {
    c.(usedCount := c.usedCount + 1, redemptions := c.redemptions + [Coupons.Redemption(order, customer, false)])
  }

  lemma CouponExactlyWhen(c: Coupons.Coupon, order: nat, customer: Option<nat>)
    requires !Coupons.Names(c.redemptions, order)
    ensures Coupons.Redeem(c, order, customer) ==
            match CouponSays(Some(c), customer)
            case None => Coupons.Counted(UsedBy(c, order, customer))
            case Some(why) => if why.CouponExhausted? then Coupons.Exhausted else Coupons.UsedByCustomer
  {
    hide Coupons.Names, Coupons.LiveFor, Coupons.LiveElsewhere;
    if customer.Some? {
      Coupons.NoneElsewhere(c.redemptions, customer.value, order);
    }
  }

  // ---- The money ----------------------------------------------------------------------

  /** What is tendered to an account. */
  function Tendered(tenders: seq<Tender>, account: nat): nat {
    if tenders == [] then 0
    else Tendered(tenders[1..], account) + if tenders[0].account == account then tenders[0].amount else 0
  }

  function InAll(tenders: seq<Tender>): nat {
    if tenders == [] then 0 else InAll(tenders[1..]) + tenders[0].amount
  }

  /** One posting for each tender of something to the account, from the balance it had. */
  function Receipts(tenders: seq<Tender>, account: nat, balance: int, order: nat): seq<Money.Posting> {
    if tenders == [] then []
    else if tenders[0].account != account || tenders[0].amount == 0 then Receipts(tenders[1..], account, balance, order)
    else
      var left := balance + tenders[0].amount;
      [Money.Posting(Money.SalePayment, tenders[0].amount, left, Money.OfSale(order))] +
      Receipts(tenders[1..], account, left, order)
  }

  /** The account with the tenders in it. */
  function PaidTo(a: Money.Account, tenders: seq<Tender>, account: nat, order: nat): Money.Account {
    a.(balance := a.balance + Tendered(tenders, account),
       postings := a.postings + Receipts(tenders, account, a.balance, order))
  }

  /** Some tender of something goes to an account that is not there or closed. */
  predicate SomeClosed(tenders: seq<Tender>, db: Database) {
    exists i :: 0 <= i < |tenders| && tenders[i].amount > 0 &&
                var account := AccountIn(Read(db, AccountAt(tenders[i].account)));
                account.None? || !account.value.active
  }

  lemma {:induction false} CountedPays(tenders: seq<Tender>, account: nat, balance: int, order: nat)
    ensures Tendered(Counted(tenders), account) == Tendered(tenders, account)
    ensures InAll(Counted(tenders)) == InAll(tenders) == TenderSum(Counted(tenders))
    ensures Receipts(Counted(tenders), account, balance, order) == Receipts(tenders, account, balance, order)
  {
    if tenders != [] {
      var rest := Counted(tenders[1..]);
      if tenders[0].amount > 0 {
        assert Counted(tenders)[0] == tenders[0] && Counted(tenders)[1..] == rest;
        CountedPays(tenders[1..], account, balance, order);
        CountedPays(tenders[1..], account, balance + tenders[0].amount, order);
      } else {
        assert Counted(tenders) == rest;
        CountedPays(tenders[1..], account, balance, order);
      }
    }
  }

  lemma {:induction false} CountedHas(tenders: seq<Tender>, tender: Tender)
    ensures tender in Counted(tenders) <==> tender in tenders && tender.amount > 0
  {
    if tenders != [] {
      CountedHas(tenders[1..], tender);
    }
  }

  lemma PostedPays(a: Money.Account, tenders: seq<Tender>, account: nat, order: nat)
    requires tenders != [] && tenders[0].amount > 0
    ensures PaidTo(a, tenders, account, order) ==
            PaidTo(if tenders[0].account == account
                   then Money.Post(a, Money.SalePayment, tenders[0].amount, Money.OfSale(order)) else a,
                   tenders[1..], account, order)
  {
  }

  lemma {:induction false} BankedAs(accounts: map<nat, Money.Account>, tenders: seq<Tender>, order: nat, id: nat)
    requires id in accounts && forall i :: 0 <= i < |tenders| ==> tenders[i].amount > 0
    ensures Banked(accounts, tenders, order)[id] == PaidTo(accounts[id], tenders, id, order)
  {
    hide Money.Post, PaidTo;
    if tenders == [] {
      NothingPaid(accounts[id], id, order);
    } else {
      assert forall i :: 0 <= i < |tenders[1..]| ==> tenders[1..][i] == tenders[i + 1];
      var first := tenders[0].account;
      PostedPays(accounts[id], tenders, id, order);
      if first !in accounts {
        BankedAs(accounts, tenders[1..], order, id);
      } else {
        BankedAs(accounts[first :=
            Money.Post(accounts[first], Money.SalePayment, tenders[0].amount, Money.OfSale(order))],
                 tenders[1..], order, id);
      }
    }
  }

  lemma NothingPaid(a: Money.Account, account: nat, order: nat)
    ensures PaidTo(a, [], account, order) == a
  {
  }

  predicate AccountsAsTheyAre(tenders: seq<Tender>, values: Values, db: Database) {
    forall i :: 0 <= i < |tenders| ==>
      AccountAt(tenders[i].account) in values &&
      AccountOf(values, tenders[i].account) == AccountIn(Read(db, AccountAt(tenders[i].account)))
  }

  lemma {:induction false} TendersExactlyWhen(tenders: seq<Tender>, values: Values, db: Database)
    requires AccountsAsTheyAre(tenders, values, db) && forall i :: 0 <= i < |tenders| ==> tenders[i].amount > 0
    ensures var why := TenderObjection(tenders, values);
      && why in {None, Some(NoSuchAccount), Some(AccountClosed)}
      && (why.Some? <==> SomeClosed(tenders, db))
  {
    if tenders != [] {
      assert forall i :: 0 <= i < |tenders[1..]| ==> tenders[1..][i] == tenders[i + 1];
      TendersExactlyWhen(tenders[1..], values, db);
    }
  }

  // ---- What stops an order --------------------------------------------------------------

  lemma PurchaseIsRead(p: Purchase, policy: Stock.Policy, db: Database)
    ensures var values := Snapshot(Keys(PurchaseRecipe(p, policy)), db);
      && OrderAt(p.order) in values && values[OrderAt(p.order)] == Read(db, OrderAt(p.order))
      && HasShelves(values, Stock.Ids(p.lines)) && ShelvesAsTheyAre(p.lines, values, db)
      && (p.coupon.Some? ==>
            CouponAt(p.coupon.value) in values && CouponOf(values, p.coupon.value) == CouponNow(db, p.coupon.value))
      && HasAccounts(values, Tenders(p)) && AccountsAsTheyAre(Tenders(p), values, db)
      && LastNumber(Get(values, NumberKey(p.counter))) == LastNumber(Read(db, NumberKey(p.counter)))
  {
    hide Tenders, Stock.Ids, Snapshot, PurchaseObjection, PurchaseWrites, LastNumber, Stock.Touched;
    var c, ids, tenders := PurchaseRecipe(p, policy), Stock.Ids(p.lines), Tenders(p);
    var all := [OrderAt(p.order)] + ShelfKeys(ids) + CouponKeys(p.coupon) + TenderKeys(tenders);
    assert forall k :: k in all ==> k in Keys(c);
    assert all[0] == OrderAt(p.order) && Keys(c)[0] == NumberKey(p.counter);
    SnapshotHas(Keys(c), db, OrderAt(p.order));
    SnapshotHas(Keys(c), db, NumberKey(p.counter));
    forall id | id in ids
      ensures ShelfAt(id) in Snapshot(Keys(c), db) && ShelfOf(Snapshot(Keys(c), db), id) == ShelfNow(db, id)
    {
      ShelfKeyIn(ids, id);
      SnapshotHas(Keys(c), db, ShelfAt(id));
    }
    Stock.IdsAscend(p.lines);
    if p.coupon.Some? {
      assert CouponKeys(p.coupon)[0] in all;
      SnapshotHas(Keys(c), db, CouponAt(p.coupon.value));
    }
    forall i | 0 <= i < |tenders|
      ensures AccountAt(tenders[i].account) in Snapshot(Keys(c), db)
      ensures AccountOf(Snapshot(Keys(c), db), tenders[i].account) == AccountIn(Read(db, AccountAt(tenders[i].account)))
    {
      assert TenderKeys(tenders)[i] in all;
      SnapshotHas(Keys(c), db, AccountAt(tenders[i].account));
    }
  }

  /** What stops an order with lines, if anything does: the first of these that is wrong. */
  predicate StopsOrder(why: Option<Refusal>, p: Purchase, policy: Stock.Policy, db: Database) {
    if OrderAt(p.order) in db then why == Some(DuplicateId)
    else if !GoodsAreThere(policy, p.counter, p.lines, db) then why == Some(InsufficientStock)
    else if p.coupon.Some? && CouponSays(CouponNow(db, p.coupon.value), p.customer).Some? then
      why == CouponSays(CouponNow(db, p.coupon.value), p.customer)
    else if p.counter && SomeClosed(p.tenders, db) then why in {Some(NoSuchAccount), Some(AccountClosed)}
    else if p.counter && InAll(p.tenders) < p.total then why == Some(Underpaid)
    else why == None
  }

  lemma NotYetUsed(db: Database, coupon: nat, order: nat)
    requires CouponsTally(db) && OrderAt(order) !in db && CouponNow(db, coupon).Some?
    ensures !Coupons.Names(CouponNow(db, coupon).value.redemptions, order)
  {
    hide Coupons.LiveOf, Coupons.Names;
    assert UseTallies(RedemptionsIn(Read(db, CouponAt(coupon))), order, Read(db, OrderAt(order)), coupon);
  }

  lemma CouponStops(coupon: nat, order: nat, customer: Option<nat>, values: Values, db: Database)
    requires CouponsTally(db) && OrderAt(order) !in db && CouponOf(values, coupon) == CouponNow(db, coupon)
    ensures CouponObjection(coupon, order, customer, values) == CouponSays(CouponNow(db, coupon), customer)
  {
    hide Coupons.Redeem, Coupons.Names, Coupons.LiveFor, CouponsTally, CouponNow;
    if CouponNow(db, coupon).Some? {
      NotYetUsed(db, coupon, order);
      CouponExactlyWhen(CouponNow(db, coupon).value, order, customer);
    }
  }

  lemma TendersStop(p: Purchase, values: Values, db: Database)
    requires AccountsAsTheyAre(Tenders(p), values, db)
    ensures var why := TenderObjection(Tenders(p), values);
      && why in {None, Some(NoSuchAccount), Some(AccountClosed)}
      && (why.Some? <==> p.counter && SomeClosed(p.tenders, db))
      && TenderSum(Tenders(p)) == if p.counter then InAll(p.tenders) else 0
  {
    hide TenderObjection;
    var tenders := Tenders(p);
    forall i | 0 <= i < |tenders| ensures tenders[i].amount > 0 && tenders[i] in p.tenders {
      CountedHas(p.tenders, tenders[i]);
    }
    TendersExactlyWhen(tenders, values, db);
    if p.counter {
      CountedPays(p.tenders, 0, 0, 0);
      if SomeClosed(p.tenders, db) {
        var i :| 0 <= i < |p.tenders| && p.tenders[i].amount > 0 &&
          (AccountIn(Read(db, AccountAt(p.tenders[i].account))).None? ||
           !AccountIn(Read(db, AccountAt(p.tenders[i].account))).value.active);
        CountedHas(p.tenders, p.tenders[i]);
        var j :| 0 <= j < |tenders| && tenders[j] == p.tenders[i];
      }
    }
  }

  lemma OrderIsStopped(p: Purchase, policy: Stock.Policy, db: Database)
    requires CouponsTally(db)
    ensures StopsOrder(PurchaseObjection(p, policy, Snapshot(Keys(PurchaseRecipe(p, policy)), db)), p, policy, db)
  {
    hide Snapshot, PurchaseRecipe, Tenders, Stock.Ids, StockObjection, TenderObjection, CouponObjection, CouponSays,
         GoodsAreThere, SomeClosed, HasShelves, HasAccounts, AccountsAsTheyAre, ShelvesAsTheyAre, CouponsTally,
         CouponNow, TenderSum, InAll, Keys, LastNumber;
    var values := Snapshot(Keys(PurchaseRecipe(p, policy)), db);
    PurchaseIsRead(p, policy, db);
    GoodsExactlyWhen(policy, p.counter, p.lines, values, db);
    TendersStop(p, values, db);
    if p.coupon.Some? && OrderAt(p.order) !in db {
      CouponStops(p.coupon.value, p.order, p.customer, values, db);
    }
  }

  // ---- What an order leaves -------------------------------------------------------------

  /** The order's row. Goods bought at the counter are delivered and paid for as it is placed; an order online waits,
      confirmed already if its cash is to be collected. */
  ghost predicate PlacedAs(o: Order, p: Purchase, number: nat) {
    && o.number == number && o.counter == p.counter && o.committed == p.counter
    && o.status == (if p.counter then Delivered else if p.cashOnDelivery then Confirmed else Pending)
    && o.lines == p.lines && o.coupon == p.coupon
    && |o.returned| == |p.lines| && (forall i :: 0 <= i < |p.lines| ==> o.returned[i] == 0)
    && (forall tender :: tender in o.tenders <==> p.counter && tender in p.tenders && tender.amount > 0)
    && o.paid == InAll(o.tenders) == (if p.counter then InAll(p.tenders) else 0) && o.refunded == 0
  }

  /** A job is queued for each of its shelves left at or below its reorder point, and a notice for an order online. */
  ghost predicate Queued(o: Order, p: Purchase, after: Database) {
    && (Notice in o.jobs <==> !p.counter)
    && forall id: nat :: LowStock(id) in o.jobs <==>
         Stock.Asked(p.lines, id) > 0 && ShelfNow(after, id).Available() <= ShelfNow(after, id).reorderPoint
  }

  /** Placed, nothing stopping it. */
  ghost predicate Placeable(p: Purchase, policy: Stock.Policy, db: Database) {
    && p.lines != [] && CouponsTally(db) && (p.token.Some? ==> OrderClaim(p.token.value) !in db)
    && StopsOrder(None, p, policy, db)
  }

  lemma OrderGoes(p: Purchase, policy: Stock.Policy, db: Database)
    requires Placeable(p, policy, db)
    ensures var c := PurchaseRecipe(p, policy);
      && c.fault.None? && c.check(Snapshot(Keys(c), db)).None? && (c.claim.Some? ==> c.claim.value !in db)
      && PurchaseObjection(p, policy, Snapshot(Keys(c), db)).None?
  {
    hide Snapshot, Tenders, Stock.Ids, GoodsAreThere, SomeClosed, PurchaseObjection, CouponsTally, CouponSays, InAll,
         Keys;
    OrderIsStopped(p, policy, db);
  }

  /** Every row as an order that goes leaves it. */
  lemma OrderRow(p: Purchase, policy: Stock.Policy, db: Database, k: Key)
    requires Placeable(p, policy, db) && !IsClaim(k)
    ensures var values := Snapshot(Keys(PurchaseRecipe(p, policy)), db);
      Read(Effect(PurchaseRecipe(p, policy), db).0, k) ==
        if k == OrderAt(p.order) then Some(AnOrder(OrderMade(p, values)))
        else if k == NumberKey(p.counter) then Some(Counter(OrderMade(p, values).number))
        else if k.ShelfAt? && k.shelf in Stock.Touched(p.lines) then Some(AShelf(ShelvesAfter(p, values)[k.shelf]))
        else if k.AccountAt? && k.account in AccountsAfter(p, values) then
          Some(AnAccount(AccountsAfter(p, values)[k.account]))
        else if k.CouponAt? && k in CouponRows(p, values) then Some(CouponRows(p, values)[k])
        else Read(db, k)
  {
    hide PurchaseRecipe, Effect, Snapshot, Placeable, OrderMade, ShelvesAfter, AccountsAfter, CouponRows,
         PurchaseObjection, Keys, WellMade, Stock.Touched;
    var c := PurchaseRecipe(p, policy);
    var values := Snapshot(Keys(c), db);
    OrderGoes(p, policy, db);
    PurchaseWellMade(p, policy);
    ReadAfter(c, db, k);
    PurchaseAfter(p, policy, values, k);
  }

  lemma OrderShelfRow(p: Purchase, policy: Stock.Policy, db: Database, id: nat)
    requires Placeable(p, policy, db)
    ensures var after, asked: int := Effect(PurchaseRecipe(p, policy), db).0, Stock.Asked(p.lines, id);
      Became(ShelfNow(db, id), ShelfNow(after, id), if p.counter then -asked else 0, if p.counter then 0 else asked,
             Told(p.lines, id, if p.counter then Stock.Sale else Stock.Reservation, !p.counter,
                  Stock.ForOrder(p.order)))
  {
    hide PurchaseRecipe, Effect, Snapshot, Placeable, OrderMade, AccountsAfter, CouponRows, Keys, Stock.Touched,
         Stock.Asked, Stock.Moved, Told, Marks, ShelfOf;
    var values := Snapshot(Keys(PurchaseRecipe(p, policy)), db);
    OrderRow(p, policy, db, ShelfAt(id));
    PurchaseIsRead(p, policy, db);
    Stock.TouchedIsAsked(p.lines, id);
    if id in Stock.Touched(p.lines) {
      var rows := ShelvesOf(values, Stock.Touched(p.lines));
      Stock.MovedTotals(rows, p.lines, StockKind(p.counter), !p.counter, Stock.ForOrder(p.order), id);
      MovedMarks(rows, p.lines, StockKind(p.counter), !p.counter, Stock.ForOrder(p.order), id);
    } else {
      ToldNothing(p.lines, id, StockKind(p.counter), !p.counter, Stock.ForOrder(p.order));
      ShelfStays(ShelfNow(db, id));
    }
  }

  lemma {:induction false} ToldNothing(lines: seq<Stock.Line>, id: nat, kind: Stock.Movement, inward: bool,
      reference: Stock.Reference)
    requires id !in Stock.Touched(lines)
    ensures Told(lines, id, kind, inward, reference) == []
  {
    if lines != [] {
      ToldNothing(lines[1..], id, kind, inward, reference);
    }
  }

  lemma {:induction false} NotPaid(a: Money.Account, tenders: seq<Tender>, account: nat, order: nat)
    requires account !in Payees(tenders)
    ensures PaidTo(a, tenders, account, order) == a
  {
    if tenders != [] {
      NotPaid(a, tenders[1..], account, order);
    }
  }

  lemma CountedPaysTo(a: Money.Account, tenders: seq<Tender>, account: nat, order: nat)
    ensures PaidTo(a, Counted(tenders), account, order) == PaidTo(a, tenders, account, order)
  {
    CountedPays(tenders, account, a.balance, order);
  }

  /** What its tenders leave of an account. */
  function AccountLeft(p: Purchase, account: nat, before: Option<Money.Account>): Option<Money.Account> {
    if before.Some? && p.counter then Some(PaidTo(before.value, p.tenders, account, p.order)) else before
  }

  lemma PositiveTenders(p: Purchase)
    ensures forall i :: 0 <= i < |Tenders(p)| ==> Tenders(p)[i].amount > 0
  {
    forall i | 0 <= i < |Tenders(p)| ensures Tenders(p)[i].amount > 0 {
      CountedHas(p.tenders, Tenders(p)[i]);
    }
  }

  lemma AccountsAfterAs(p: Purchase, values: Values, account: nat)
    ensures account in AccountsAfter(p, values) <==> account in Payees(Tenders(p)) && AccountOf(values, account).Some?
    ensures account in AccountsAfter(p, values) ==>
              AccountsAfter(p, values)[account] ==
              PaidTo(AccountOf(values, account).value, Tenders(p), account, p.order)
  {
    hide Banked, Payees, PaidTo, Tenders;
    var accounts := AccountsOf(values, Payees(Tenders(p)));
    PositiveTenders(p);
    if account in accounts {
      BankedAs(accounts, Tenders(p), p.order, account);
    }
  }

  lemma OrderAccountRow(p: Purchase, policy: Stock.Policy, db: Database, account: nat)
    requires Placeable(p, policy, db)
    ensures AccountIn(Read(Effect(PurchaseRecipe(p, policy), db).0, AccountAt(account))) ==
            AccountLeft(p, account, AccountIn(Read(db, AccountAt(account))))
  {
    hide PurchaseRecipe, Effect, Snapshot, Placeable, OrderMade, AccountsAfter, CouponRows, Keys, PaidTo, Counted,
         Payees, ShelvesAfter;
    var values := Snapshot(Keys(PurchaseRecipe(p, policy)), db);
    OrderRow(p, policy, db, AccountAt(account));
    AccountsAfterAs(p, values, account);
    var before := AccountIn(Read(db, AccountAt(account)));
    if account in Payees(Tenders(p)) {
      PayeeReads(p, policy, db, account);
    } else if before.Some? {
      NotPaid(before.value, Tenders(p), account, p.order);
    }
    if before.Some? && p.counter {
      CountedPaysTo(before.value, p.tenders, account, p.order);
    }
    if !p.counter {
      NoPayees(p);
    }
  }

  lemma NoPayees(p: Purchase)
    requires !p.counter
    ensures Payees(Tenders(p)) == {}
  {
  }

  lemma PayeeReads(p: Purchase, policy: Stock.Policy, db: Database, account: nat)
    requires account in Payees(Tenders(p))
    ensures AccountOf(Snapshot(Keys(PurchaseRecipe(p, policy)), db), account) == AccountIn(Read(db, AccountAt(account)))
  {
    hide Tenders, Stock.Ids, PurchaseObjection, PurchaseWrites, Snapshot;
    TenderKeyIn(Tenders(p), account);
    SnapshotHas(Keys(PurchaseRecipe(p, policy)), db, AccountAt(account));
  }

  lemma OrderCouponRow(p: Purchase, policy: Stock.Policy, db: Database, coupon: nat)
    requires Placeable(p, policy, db)
    ensures CouponNow(Effect(PurchaseRecipe(p, policy), db).0, coupon) ==
            if p.coupon == Some(coupon) && CouponNow(db, coupon).Some? then
              Some(UsedBy(CouponNow(db, coupon).value, p.order, p.customer))
            else CouponNow(db, coupon)
  {
    hide PurchaseRecipe, Effect, Snapshot, OrderMade, AccountsAfter, ShelvesAfter, Keys, Coupons.Redeem,
         Coupons.Names, CouponsTally, GoodsAreThere, SomeClosed;
    var values := Snapshot(Keys(PurchaseRecipe(p, policy)), db);
    OrderRow(p, policy, db, CouponAt(coupon));
    PurchaseIsRead(p, policy, db);
    if p.coupon == Some(coupon) && CouponNow(db, coupon).Some? {
      NotYetUsed(db, coupon, p.order);
      CouponExactlyWhen(CouponNow(db, coupon).value, p.order, p.customer);
    }
  }

  lemma {:induction false} AlertsAlone(rows: map<nat, Stock.Shelf>, lines: seq<Stock.Line>, kind: Stock.Movement,
      inward: bool, reference: Stock.Reference)
    requires Stock.Covers(rows, lines)
    ensures Notice !in Alerts(rows, lines, kind, inward, reference)
  {
    if lines != [] {
      if lines[0].quantity == 0 {
        AlertsAlone(rows, lines[1..], kind, inward, reference);
      } else {
        var id := lines[0].shelf;
        var shelf := Stock.Write(rows[id], kind, Stock.Signed(inward, lines[0].quantity), reference);
        AlertsAlone(rows[id := shelf], lines[1..], kind, inward, reference);
      }
    }
  }

  lemma {:induction false} AlertIsTouched(rows: map<nat, Stock.Shelf>, lines: seq<Stock.Line>, kind: Stock.Movement,
      inward: bool, reference: Stock.Reference, id: nat)
    requires Stock.Covers(rows, lines) && id !in Stock.Touched(lines)
    ensures LowStock(id) !in Alerts(rows, lines, kind, inward, reference)
  {
    if lines != [] {
      if lines[0].quantity == 0 {
        AlertIsTouched(rows, lines[1..], kind, inward, reference, id);
      } else {
        var first := lines[0].shelf;
        var shelf := Stock.Write(rows[first], kind, Stock.Signed(inward, lines[0].quantity), reference);
        AlertIsTouched(rows[first := shelf], lines[1..], kind, inward, reference, id);
      }
    }
  }

  lemma OrderJobs(p: Purchase, values: Values, id: nat)
    ensures Notice in JobsOf(p, values) <==> !p.counter
    ensures LowStock(id) in JobsOf(p, values) <==>
            id in Stock.Touched(p.lines) &&
            ShelvesAfter(p, values)[id].Available() <= ShelvesAfter(p, values)[id].reorderPoint
  {
    hide Stock.Touched, Stock.Moved, Alerts, ShelfOf;
    var rows, reference := ShelvesOf(values, Stock.Touched(p.lines)), Stock.ForOrder(p.order);
    AlertsAlone(rows, p.lines, StockKind(p.counter), !p.counter, reference);
    if id in Stock.Touched(p.lines) {
      OrderRuns.AlertsAreTheLowShelves(rows, p.lines, p.counter, reference, id);
    } else {
      AlertIsTouched(rows, p.lines, StockKind(p.counter), !p.counter, reference, id);
    }
  }

  lemma MadeAsPlaced(p: Purchase, number: nat, jobs: seq<Job>)
    ensures PlacedAs(OrderWith(p, number, jobs), p, number)
    ensures OrderWith(p, number, jobs).jobs == jobs && OrderWith(p, number, jobs).number == number
  {
    hide Counted;
    CountedPays(p.tenders, 0, 0, 0);
    forall tender ensures tender in Tenders(p) <==> p.counter && tender in p.tenders && tender.amount > 0 {
      CountedHas(p.tenders, tender);
    }
  }

  lemma OrderOwnRow(p: Purchase, policy: Stock.Policy, db: Database)
    requires Placeable(p, policy, db)
    ensures var after, number := Effect(PurchaseRecipe(p, policy), db).0,
                                 LastNumber(Read(db, NumberOf(if p.counter then CounterOrders else WebOrders))) + 1;
      && Read(after, NumberOf(if p.counter then CounterOrders else WebOrders)) == Some(Counter(number))
      && OrderIn(Read(after, OrderAt(p.order))).Some?
      && PlacedAs(OrderIn(Read(after, OrderAt(p.order))).value, p, number)
      && Queued(OrderIn(Read(after, OrderAt(p.order))).value, p, after)
  {
    hide PurchaseRecipe, Effect, Snapshot, Placeable, AccountsAfter, CouponRows, Keys, Stock.Touched, Stock.Asked,
         ShelvesAfter, OrderWith, JobsOf, LastNumber, PlacedAs;
    var after, values := Effect(PurchaseRecipe(p, policy), db).0, Snapshot(Keys(PurchaseRecipe(p, policy)), db);
    PurchaseIsRead(p, policy, db);
    OrderRow(p, policy, db, OrderAt(p.order));
    OrderRow(p, policy, db, NumberKey(p.counter));
    MadeAsPlaced(p, LastNumber(Get(values, NumberKey(p.counter))) + 1, JobsOf(p, values));
    forall id: nat
      ensures LowStock(id) in JobsOf(p, values) <==>
              Stock.Asked(p.lines, id) > 0 && ShelfNow(after, id).Available() <= ShelfNow(after, id).reorderPoint
    {
      OrderJobs(p, values, id);
      Stock.TouchedIsAsked(p.lines, id);
      if id in Stock.Touched(p.lines) {
        OrderRow(p, policy, db, ShelfAt(id));
      }
    }
    OrderJobs(p, values, 0);
  }

  /** The rows an order may change. */
  predicate OrdersRow(p: Purchase, k: Key) {
    || k == OrderAt(p.order) || k == NumberOf(if p.counter then CounterOrders else WebOrders)
    || (k.OrderClaim? && p.token == Some(k.token)) || k.ShelfAt? || k.AccountAt? || k.CouponAt?
  }

  lemma OrderLeavesRow(p: Purchase, policy: Stock.Policy, db: Database, k: Key)
    requires Placeable(p, policy, db) && !OrdersRow(p, k)
    ensures Read(Effect(PurchaseRecipe(p, policy), db).0, k) == Read(db, k)
  {
    hide PurchaseRecipe, Effect, Placeable, Keys, WellMade, PurchaseObjection, OrderMade, PurchaseWrites;
    PurchaseWellMade(p, policy);
    PurchaseClaims(p, policy);
    OrderGoes(p, policy, db);
    if IsClaim(k) {
      PurchaseLocksNoClaim(p, policy, k);
      LeavesRow(PurchaseRecipe(p, policy), db, k);
    } else {
      OrderRow(p, policy, db, k);
    }
  }

  lemma PurchaseClaims(p: Purchase, policy: Stock.Policy)
    ensures PurchaseRecipe(p, policy).claim == if p.token.Some? then Some(OrderClaim(p.token.value)) else None
  {
  }

  lemma PurchaseLocksNoClaim(p: Purchase, policy: Stock.Policy, k: Key)
    requires IsClaim(k)
    ensures k !in Keys(PurchaseRecipe(p, policy))
  {
    hide PurchaseRecipe;
    if k in Keys(PurchaseRecipe(p, policy)) {
      PurchaseKeys(p, policy, k);
    }
  }

  lemma OrderAnswered(p: Purchase, policy: Stock.Policy, db: Database)
    requires Placeable(p, policy, db)
    ensures var (after, answer) := Effect(PurchaseRecipe(p, policy), db);
      && answer == Made(Placed(p.order))
      && (p.token.Some? ==> Read(after, OrderClaim(p.token.value)) == Some(Claimed(Placed(p.order))))
  {
    hide PurchaseObjection, PurchaseWrites, Placeable, Snapshot, Keys;
    OrderGoes(p, policy, db);
    StockRuns.PurchaseShape(p, policy);
    EffectGoes(PurchaseRecipe(p, policy), db);
  }

  lemma OrderRefused(p: Purchase, policy: Stock.Policy, db: Database)
    requires CouponsTally(db) && (p.token.Some? ==> OrderClaim(p.token.value) !in db)
    ensures var (after, answer) := Effect(PurchaseRecipe(p, policy), db);
      if p.lines == [] then after == db && answer == Refused(NoLines)
      else if !StopsOrder(None, p, policy, db) then
        after == db && answer.Refused? && StopsOrder(Some(answer.why), p, policy, db)
      else true
  {
    hide Snapshot, Tenders, Stock.Ids, GoodsAreThere, SomeClosed, PurchaseObjection, CouponsTally, StopsOrder,
         Keys;
    OrderIsStopped(p, policy, db);
  }

  /** An order is placed if and only if it has lines, is not there already, every shelf has for it all its lines
      together ask, its coupon has a use left for its customer, and at the counter each tender of something goes to
      an open account and they come to the total. Placed, each shelf holds or has sold exactly what was asked of it,
      line by line; each account has exactly what was tendered to it, the coupon one use more, and the order says
      so; refused, nothing is changed, and the refusal is the first thing wrong. */
  lemma PurchaseAnswers(p: Purchase, policy: Stock.Policy, db: Database)
    requires CouponsTally(db) && (p.token.Some? ==> OrderClaim(p.token.value) !in db)
    ensures var (after, answer) := Effect(PurchaseRecipe(p, policy), db);
      if p.lines == [] then after == db && answer == Refused(NoLines)
      else if !StopsOrder(None, p, policy, db) then
        after == db && answer.Refused? && StopsOrder(Some(answer.why), p, policy, db)
      else
        var sequence := NumberOf(if p.counter then CounterOrders else WebOrders);
        var number := LastNumber(Read(db, sequence)) + 1;
        && answer == Made(Placed(p.order))
        && (p.token.Some? ==> Read(after, OrderClaim(p.token.value)) == Some(Claimed(Placed(p.order))))
        && Read(after, sequence) == Some(Counter(number))
        && OrderIn(Read(after, OrderAt(p.order))).Some?
        && PlacedAs(OrderIn(Read(after, OrderAt(p.order))).value, p, number)
        && Queued(OrderIn(Read(after, OrderAt(p.order))).value, p, after)
        && (forall id: nat ::
              var asked: int := Stock.Asked(p.lines, id);
              Became(ShelfNow(db, id), ShelfNow(after, id), if p.counter then -asked else 0,
                     if p.counter then 0 else asked,
                     Told(p.lines, id, if p.counter then Stock.Sale else Stock.Reservation, !p.counter,
                          Stock.ForOrder(p.order))))
        && (forall account: nat ::
              AccountIn(Read(after, AccountAt(account))) ==
              AccountLeft(p, account, AccountIn(Read(db, AccountAt(account)))))
        && (forall coupon: nat ::
              CouponNow(after, coupon) ==
              if p.coupon == Some(coupon) && CouponNow(db, coupon).Some? then
                Some(UsedBy(CouponNow(db, coupon).value, p.order, p.customer))
              else CouponNow(db, coupon))
        && forall k: Key | !OrdersRow(p, k) :: Read(after, k) == Read(db, k)
  {
    hide Effect, PurchaseRecipe, StopsOrder, PlacedAs, Queued, Became, Told, AccountLeft, CouponNow, OrdersRow,
         LastNumber, CouponsTally, Stock.Asked, ShelfNow;
    OrderRefused(p, policy, db);
    if p.lines != [] && StopsOrder(None, p, policy, db) {
      OrderAnswered(p, policy, db);
      OrderOwnRow(p, policy, db);
      forall id: nat
        ensures var after, asked: int := Effect(PurchaseRecipe(p, policy), db).0, Stock.Asked(p.lines, id);
          Became(ShelfNow(db, id), ShelfNow(after, id), if p.counter then -asked else 0,
                 if p.counter then 0 else asked,
                 Told(p.lines, id, if p.counter then Stock.Sale else Stock.Reservation, !p.counter,
                      Stock.ForOrder(p.order)))
      {
        OrderShelfRow(p, policy, db, id);
      }
      forall account: nat
        ensures AccountIn(Read(Effect(PurchaseRecipe(p, policy), db).0, AccountAt(account))) ==
                AccountLeft(p, account, AccountIn(Read(db, AccountAt(account))))
      {
        OrderAccountRow(p, policy, db, account);
      }
      forall coupon: nat
        ensures CouponNow(Effect(PurchaseRecipe(p, policy), db).0, coupon) ==
                if p.coupon == Some(coupon) && CouponNow(db, coupon).Some? then
                  Some(UsedBy(CouponNow(db, coupon).value, p.order, p.customer))
                else CouponNow(db, coupon)
      {
        OrderCouponRow(p, policy, db, coupon);
      }
      forall k: Key | !OrdersRow(p, k) ensures Read(Effect(PurchaseRecipe(p, policy), db).0, k) == Read(db, k) {
        OrderLeavesRow(p, policy, db, k);
      }
    }
  }
}
