/** Who gets the last use of a coupon: checkouts at once, online and at the counter, for what is left of its limits. */
module CouponRuns {
  import opened Wrappers
  import opened RowLocks
  import opened LockOrder
  import opened Recipes
  import opened Runs
  import opened Shop
  import opened Tallies
  import opened CashBook
  import opened StockRoom
  import opened Orders
  import opened StockLaws
  import opened OrderLaws
  import Shelves = StockRuns
  import Stock = StockLedger
  import Money = MoneyLedger
  import Coupons = CouponBook

  // ---- What is left of a coupon -----------------------------------------------------------

  /** A limit of its own for each customer: one of zero is none. */
  predicate PerCustomer(c: Coupons.Coupon) {
    c.perCustomer.Some? && c.perCustomer.value >= 1
  }

  /** Some limit tells how many uses the customer has left. */
  predicate Limited(c: Coupons.Coupon, customer: Option<nat>) {
    c.usageLimit.Some? || (PerCustomer(c) && customer.Some?)
  }

  /** What is left of the whole limit, or of the customer's own, whichever is less. */
  function UsesLeft(c: Coupons.Coupon, customer: Option<nat>): int
    requires Limited(c, customer)
  {
    if !(PerCustomer(c) && customer.Some?) then c.usageLimit.value - c.usedCount
    else
      var own := c.perCustomer.value - Coupons.LiveFor(c.redemptions, customer.value);
      if c.usageLimit.Some? && c.usageLimit.value - c.usedCount < own then c.usageLimit.value - c.usedCount else own
  }

  lemma OneUseLess(c: Coupons.Coupon, order: nat, who: Option<nat>, customer: Option<nat>)
    requires Limited(c, customer) && (PerCustomer(c) ==> who == customer)
    ensures Limited(UsedBy(c, order, who), customer)
    ensures UsesLeft(UsedBy(c, order, who), customer) == UsesLeft(c, customer) - 1
  {
    var after := UsedBy(c, order, who);
    assert after.redemptions[..|c.redemptions|] == c.redemptions;
  }

  lemma RefusedExactlyWhen(c: Coupons.Coupon, who: Option<nat>, customer: Option<nat>)
    requires Limited(c, customer) && (PerCustomer(c) ==> who == customer)
    ensures CouponSays(Some(c), who).None? <==> UsesLeft(c, customer) >= 1
  {
  }

  lemma NeverOverused(c: Coupons.Coupon, customer: Option<nat>)
    requires Coupons.CouponOk(c) && Limited(c, customer)
    ensures UsesLeft(c, customer) >= 0
  {
  }

  // ---- Nothing else against an order --------------------------------------------------------

  /** What those of the first `n` orders that are not placed yet ask of a shelf in all. */
  function StillAsked(asked: seq<Purchase>, db: Database, id: nat, n: nat): nat
    requires n <= |asked|
  {
    if n == 0 then 0
    else
      StillAsked(asked, db, id, n - 1) +
      if OrderAt(asked[n - 1].order) in db then 0 else Stock.Asked(asked[n - 1].lines, id)
  }

  /** There is enough for all of them, whoever comes first. */
  ghost predicate EnoughForAll(asked: seq<Purchase>, policy: Stock.Policy, db: Database) {
    policy.oversell || forall id: nat :: StillAsked(asked, db, id, |asked|) <= ShelfNow(db, id).Available()
  }

  /** The order has lines, its row and its key are its own, and at the counter it is paid for into open accounts. */
  predicate Ordering(p: Purchase, coupon: nat, db: Database) {
    && p.lines != [] && p.coupon == Some(coupon)
    && OrderAt(p.order) !in db && (p.token.Some? ==> OrderClaim(p.token.value) !in db)
    && (p.counter ==> !SomeClosed(p.tenders, db) && InAll(p.tenders) >= p.total)
  }

  /** The coupon is there, with a limit, and where it has one for each customer the order is by this one. */
  predicate Spendable(p: Purchase, coupon: nat, customer: Option<nat>, db: Database) {
    var c := CouponNow(db, coupon);
    c.Some? && Limited(c.value, customer) && (PerCustomer(c.value) ==> p.customer == customer)
  }

  ghost predicate Waits(asked: seq<Purchase>, i: nat, coupon: nat, customer: Option<nat>, policy: Stock.Policy,
      db: Database)
  {
    && i < |asked| && ShopOk(policy, db) && Tally(db) && EnoughForAll(asked, policy, db)
    && Ordering(asked[i], coupon, db) && Spendable(asked[i], coupon, customer, db)
  }

  lemma {:induction false} PartOfAll(asked: seq<Purchase>, db: Database, id: nat, n: nat, i: nat)
    requires i < n <= |asked| && OrderAt(asked[i].order) !in db
    ensures Stock.Asked(asked[i].lines, id) <= StillAsked(asked, db, id, n)
  {
    if i < n - 1 {
      PartOfAll(asked, db, id, n - 1, i);
    }
  }

  lemma ReservedIsSome(policy: Stock.Policy, db: Database, id: nat)
    requires ShopOk(policy, db)
    ensures ShelfNow(db, id).reserved >= 0
  {
    hide Stock.Agrees, Stock.HoldsNamed, Stock.HoldsFitted, ShopOk;
    Shelves.ShelfIsOk(policy, db, id);
  }

  /** The shelves have what it asks. */
  lemma GoodsAreLeft(asked: seq<Purchase>, i: nat, policy: Stock.Policy, db: Database)
    requires i < |asked| && OrderAt(asked[i].order) !in db && ShopOk(policy, db) && EnoughForAll(asked, policy, db)
    ensures GoodsAreThere(policy, asked[i].counter, asked[i].lines, db)
  {
    hide ShopOk, StillAsked, Stock.Asked, ShelfNow;
    var p := asked[i];
    forall j | 0 <= j < |p.lines| && p.lines[j].quantity > 0
      ensures HasFor(policy, p.counter, ShelfNow(db, p.lines[j].shelf), Stock.Asked(p.lines, p.lines[j].shelf))
    {
      PartOfAll(asked, db, p.lines[j].shelf, |asked|, i);
      ReservedIsSome(policy, db, p.lines[j].shelf);
    }
  }

  function Uses(coupon: nat, customer: Option<nat>): Database -> int {
    (db: Database) =>
      var c := CouponNow(db, coupon);
      if c.Some? && Limited(c.value, customer) then UsesLeft(c.value, customer) else 0
  }

  /** Alone, it is served if there is a use left, and takes it. */
  lemma TakesOneUse(asked: seq<Purchase>, i: nat, coupon: nat, customer: Option<nat>, policy: Stock.Policy,
      db: Database)
    requires Waits(asked, i, coupon, customer, policy, db)
    ensures var (after, answer), uses := Effect(PurchaseRecipe(asked[i], policy), db), Uses(coupon, customer);
      if uses(db) >= 1 then answer.Made? && uses(after) == uses(db) - 1 && Placeable(asked[i], policy, db)
      else answer.Refused? && after == db
  {
    hide PurchaseRecipe, Effect, ShopOk, EnoughForAll, GoodsAreThere, UsesLeft, Limited, CouponSays, SomeClosed, InAll,
         UsedBy, CouponNow, PerCustomer;
    var p := asked[i];
    var c := CouponNow(db, coupon).value;
    GoodsAreLeft(asked, i, policy, db);
    RefusedExactlyWhen(c, p.customer, customer);
    OrderRefused(p, policy, db);
    if Uses(coupon, customer)(db) >= 1 {
      OrderAnswered(p, policy, db);
      OrderCouponRow(p, policy, db, coupon);
      OneUseLess(c, p.order, p.customer, customer);
    }
  }

  // ---- And leaves the others as free as they were -------------------------------------------

  /** No two of them are the same order or share a key. */
  predicate Apart(asked: seq<Purchase>) {
    forall i, j :: 0 <= i < |asked| && 0 <= j < |asked| && i != j ==>
      asked[i].order != asked[j].order && (asked[i].token.Some? ==> asked[i].token != asked[j].token)
  }

  lemma LeavesItsRows(p: Purchase, o: Purchase, policy: Stock.Policy, db: Database)
    requires Placeable(p, policy, db) && p.order != o.order && (o.token.Some? ==> p.token != o.token)
    ensures var after := Effect(PurchaseRecipe(p, policy), db).0;
      && (OrderAt(o.order) in after <==> OrderAt(o.order) in db)
      && (o.token.Some? ==> (OrderClaim(o.token.value) in after <==> OrderClaim(o.token.value) in db))
      && OrderAt(p.order) in after
  {
    hide PurchaseRecipe, Effect, Placeable, PlacedAs, Queued;
    var after := Effect(PurchaseRecipe(p, policy), db).0;
    OrderLeavesRow(p, policy, db, OrderAt(o.order));
    assert Read(after, OrderAt(o.order)) == Read(db, OrderAt(o.order));
    if o.token.Some? {
      OrderLeavesRow(p, policy, db, OrderClaim(o.token.value));
      assert Read(after, OrderClaim(o.token.value)) == Read(db, OrderClaim(o.token.value));
    }
    OrderOwnRow(p, policy, db);
  }

  lemma {:induction false} OneAskedLess(asked: seq<Purchase>, before: Database, after: Database, id: nat, n: nat,
      p: nat)
    requires n <= |asked| && p < |asked|
    requires OrderAt(asked[p].order) !in before && OrderAt(asked[p].order) in after
    requires forall j :: 0 <= j < |asked| && j != p ==>
               (OrderAt(asked[j].order) in after <==> OrderAt(asked[j].order) in before)
    ensures StillAsked(asked, after, id, n) ==
            StillAsked(asked, before, id, n) - if p < n then Stock.Asked(asked[p].lines, id) else 0
  {
    if n > 0 {
      OneAskedLess(asked, before, after, id, n - 1, p);
    }
  }

  lemma TakesAvailable(p: Purchase, policy: Stock.Policy, db: Database, id: nat)
    requires Placeable(p, policy, db)
    ensures ShelfNow(Effect(PurchaseRecipe(p, policy), db).0, id).Available() ==
            ShelfNow(db, id).Available() - Stock.Asked(p.lines, id)
  {
    hide PurchaseRecipe, Effect, Placeable, Stock.Asked, Marks, Told, Became, ShelfNow;
    var asked: int := Stock.Asked(p.lines, id);
    OrderShelfRow(p, policy, db, id);
    BecameAvailable(ShelfNow(db, id), ShelfNow(Effect(PurchaseRecipe(p, policy), db).0, id),
                    if p.counter then -asked else 0, if p.counter then 0 else asked,
                    Told(p.lines, id, if p.counter then Stock.Sale else Stock.Reservation, !p.counter,
                         Stock.ForOrder(p.order)));
  }

  lemma BecameAvailable(before: Stock.Shelf, after: Stock.Shelf, goods: int, held: int, told: seq<Mark>)
    requires Became(before, after, goods, held, told)
    ensures after.Available() == before.Available() + goods - held
  {
  }

  lemma StillEnough(asked: seq<Purchase>, p: nat, policy: Stock.Policy, db: Database)
    requires p < |asked| && Apart(asked) && Placeable(asked[p], policy, db) && OrderAt(asked[p].order) !in db
    requires EnoughForAll(asked, policy, db)
    ensures EnoughForAll(asked, policy, Effect(PurchaseRecipe(asked[p], policy), db).0)
  {
    hide PurchaseRecipe, Effect, Placeable, Stock.Asked, StillAsked, PlacedAs, Queued;
    var after := Effect(PurchaseRecipe(asked[p], policy), db).0;
    OrderOwnRow(asked[p], policy, db);
    forall j | 0 <= j < |asked| && j != p ensures OrderAt(asked[j].order) in after <==> OrderAt(asked[j].order) in db {
      LeavesItsRows(asked[p], asked[j], policy, db);
    }
    forall id: nat
      ensures policy.oversell || StillAsked(asked, after, id, |asked|) <= ShelfNow(after, id).Available()
    {
      OneAskedLess(asked, db, after, id, |asked|, p);
      TakesAvailable(asked[p], policy, db, id);
    }
  }

  lemma StillOpen(p: Purchase, tenders: seq<Tender>, policy: Stock.Policy, db: Database)
    requires Placeable(p, policy, db) && !SomeClosed(tenders, db)
    ensures !SomeClosed(tenders, Effect(PurchaseRecipe(p, policy), db).0)
  {
    hide PurchaseRecipe, Effect, Placeable, Tendered, Receipts;
    forall i | 0 <= i < |tenders| && tenders[i].amount > 0
      ensures var account := AccountIn(Read(Effect(PurchaseRecipe(p, policy), db).0, AccountAt(tenders[i].account)));
        account.Some? && account.value.active
    {
      OrderAccountRow(p, policy, db, tenders[i].account);
      assert AccountIn(Read(db, AccountAt(tenders[i].account))).Some?;
    }
  }

  lemma StillWaits(asked: seq<Purchase>, p: nat, o: nat, coupon: nat, customer: Option<nat>, policy: Stock.Policy,
      db: Database)
    requires Apart(asked) && p != o
    requires Waits(asked, p, coupon, customer, policy, db) && Waits(asked, o, coupon, customer, policy, db)
    ensures Waits(asked, o, coupon, customer, policy, Effect(PurchaseRecipe(asked[p], policy), db).0)
  {
    hide PurchaseRecipe, Effect, ShopOk, Tally, EnoughForAll, SomeClosed, InAll, CouponNow, UsesLeft, Limited,
         PerCustomer, UsedBy, Placeable, Uses;
    TakesOneUse(asked, p, coupon, customer, policy, db);
    if Uses(coupon, customer)(db) >= 1 {
      PurchaseSure(asked[p], policy);
      StillEnough(asked, p, policy, db);
      LeavesItsRows(asked[p], asked[o], policy, db);
      if asked[o].counter {
        StillOpen(asked[p], asked[o].tenders, policy, db);
      }
      OrderCouponRow(asked[p], policy, db, coupon);
      OneUseLess(CouponNow(db, coupon).value, asked[p].order, asked[p].customer, customer);
      LimitsStay(CouponNow(db, coupon).value, asked[p].order, asked[p].customer);
    }
  }

  lemma LimitsStay(c: Coupons.Coupon, order: nat, who: Option<nat>)
    ensures PerCustomer(UsedBy(c, order, who)) <==> PerCustomer(c)
  {
  }

  // ---- Exactly as many as there are uses left -------------------------------------------------

  ghost function Waiting(asked: seq<Purchase>, coupon: nat, customer: Option<nat>, policy: Stock.Policy):
      (nat, Database) -> bool {
    (i: nat, db: Database) => Waits(asked, i, coupon, customer, policy, db)
  }

  lemma OneUseInTurn(asked: seq<Purchase>, p: nat, o: nat, coupon: nat, customer: Option<nat>, policy: Stock.Policy,
      db: Database)
    requires Apart(asked) && p < |asked| && o < |asked| && Waits(asked, p, coupon, customer, policy, db)
    ensures var reqs := ToRequests(Shelves.PurchaseRecipes(asked, policy));
      && Takes(reqs[p], db, 1, Uses(coupon, customer), Shelves.IsMade())
      && (Waits(asked, o, coupon, customer, policy, db) && o != p ==>
            Waits(asked, o, coupon, customer, policy, Serial(reqs[p], db).0))
  {
    hide PurchaseRecipe, Effect, Serial, WellMade, Waits, Uses, Placeable, Apart;
    PurchaseWellMade(asked[p], policy);
    RecipeSerial(PurchaseRecipe(asked[p], policy), IsClaim, db);
    TakesOneUse(asked, p, coupon, customer, policy, db);
    if Waits(asked, o, coupon, customer, policy, db) && o != p {
      StillWaits(asked, p, o, coupon, customer, policy, db);
    }
  }

  /** Any number of orders at once with one coupon, online and at the counter, with nothing but the coupon to stop
      them: exactly as many are placed as its limit, and each one's own, leaves uses for, and those uses are gone. */
  lemma CouponSharesOut(asked: seq<Purchase>, coupon: nat, customer: Option<nat>, policy: Stock.Policy, db: Database,
      schedule: seq<nat>)
    requires Apart(asked) && ShopOk(policy, db) && Tally(db) && EnoughForAll(asked, policy, db)
    requires CouponNow(db, coupon).Some? && Limited(CouponNow(db, coupon).value, customer)
    requires forall i :: 0 <= i < |asked| ==>
               Ordering(asked[i], coupon, db) && Spendable(asked[i], coupon, customer, db)
    requires var reqs := ToRequests(Shelves.PurchaseRecipes(asked, policy));
      Schedulable(reqs, Start(reqs, db), schedule) && AllDone(Outcome(reqs, db, schedule))
    ensures var s := Outcome(ToRequests(Shelves.PurchaseRecipes(asked, policy)), db, schedule);
      var left := UsesLeft(CouponNow(db, coupon).value, customer);
      var served := if |asked| <= left then |asked| else left;
      && |Served(s, Shelves.IsMade())| == served
      && Uses(coupon, customer)(s.db) == left - served
  {
    hide PurchaseRecipe, Outcome, Served, Serial, Takes, Apart, ShopOk, Tally, EnoughForAll, Ordering, Spendable,
         UsesLeft, Limited, WellMade;
    var recipes, reqs := Shelves.PurchaseRecipes(asked, policy), ToRequests(Shelves.PurchaseRecipes(asked, policy));
    forall i | 0 <= i < |recipes| ensures WellMade(recipes[i], IsClaim) {
      PurchaseWellMade(asked[i], policy);
    }
    RecipesAreSound(recipes, IsClaim);
    var ready := Waiting(asked, coupon, customer, policy);
    forall p, d | 0 <= p < |reqs| && ready(p, d)
      ensures Takes(reqs[p], d, 1, Uses(coupon, customer), Shelves.IsMade())
    {
      OneUseInTurn(asked, p, p, coupon, customer, policy, d);
    }
    forall p: nat, o: nat, d | p < |reqs| && o < |reqs| ensures LeftReady(reqs, ready, p, o, d) {
      if p != o && ready(o, d) && ready(p, d) {
        OneUseInTurn(asked, p, o, coupon, customer, policy, d);
      }
    }
    UsesAreSome(coupon, customer, policy, db);
    Allocation(reqs, IsClaim, db, schedule, 1, Uses(coupon, customer), Shelves.IsMade(), ready);
  }

  lemma UsesAreSome(coupon: nat, customer: Option<nat>, policy: Stock.Policy, db: Database)
    requires ShopOk(policy, db) && CouponNow(db, coupon).Some? && Limited(CouponNow(db, coupon).value, customer)
    ensures Uses(coupon, customer)(db) == UsesLeft(CouponNow(db, coupon).value, customer) >= 0
  {
    hide Coupons.CouponOk, UsesLeft, Limited;
    assert RowOk(policy, CouponAt(coupon), db[CouponAt(coupon)]);
    NeverOverused(CouponNow(db, coupon).value, customer);
  }
}
