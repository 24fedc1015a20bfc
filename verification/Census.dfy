/** What the tallies come to in figures, in every committed state: a shelf has reserved what its
    waiting orders ask for in all, and a coupon has counted as many uses as orders live on it. */
module Census {
  import opened Wrappers
  import opened RowLocks
  import opened Recipes
  import opened Shop
  import opened Tallies
  import opened ShopRuns
  import Stock = StockLedger
  import Coupons = CouponBook

  /** No order has an id of `n` or more. */
  predicate OrdersBelow(db: Database, n: nat) {
    forall k | k in db && k.OrderAt? :: k.order < n
  }

  // ---- Shelves ------------------------------------------------------------------------

  function HeldInAll(ledger: seq<Stock.Entry>, n: nat): int {
    if n == 0 then 0 else HeldInAll(ledger, n - 1) + HeldBy(ledger, n - 1)
  }

  /** What the orders still waiting to be packed ask of the shelf. */
  function AwaitedInAll(db: Database, shelf: nat, n: nat): nat {
    if n == 0 then 0 else AwaitedInAll(db, shelf, n - 1) + Hold(Read(db, OrderAt(n - 1)), shelf)
  }

  /** Every hold on the ledger is for an order below `n`. */
  predicate HoldsBelow(ledger: seq<Stock.Entry>, n: nat) {
    forall i :: 0 <= i < |ledger| && Stock.Reserving(ledger[i].kind) ==>
      ledger[i].reference.ForOrder? && ledger[i].reference.order < n
  }

  lemma {:induction false} HeldOneMore(ledger: seq<Stock.Entry>, n: nat)
    requires ledger != []
    ensures var last := ledger[|ledger| - 1];
      HeldInAll(ledger, n) == HeldInAll(ledger[..|ledger| - 1], n) +
        if Stock.Reserving(last.kind) && last.reference.ForOrder? && last.reference.order < n then last.quantity else 0
  {
    if n > 0 {
      HeldOneMore(ledger, n - 1);
    }
  }

  lemma {:induction false} NothingHeld(n: nat)
    ensures HeldInAll([], n) == 0
  {
    if n > 0 {
      NothingHeld(n - 1);
    }
  }

  lemma {:induction false} ReservedIsHeld(ledger: seq<Stock.Entry>, n: nat)
    requires HoldsBelow(ledger, n)
    ensures Stock.ReservedOf(ledger) == HeldInAll(ledger, n)
  {
    if ledger == [] {
      NothingHeld(n);
    } else {
      var rest := ledger[..|ledger| - 1];
      assert HoldsBelow(rest, n) by {
        assert forall i :: 0 <= i < |rest| ==> rest[i] == ledger[i];
      }
      ReservedIsHeld(rest, n);
      HeldOneMore(ledger, n);
    }
  }

  lemma {:induction false} HeldIsAwaited(db: Database, shelf: nat, n: nat)
    requires HoldsTally(db)
    ensures HeldInAll(ShelfIn(Read(db, ShelfAt(shelf))).ledger, n) == AwaitedInAll(db, shelf, n)
  {
    if n > 0 {
      HeldIsAwaited(db, shelf, n - 1);
      assert HoldTallies(ShelfIn(Read(db, ShelfAt(shelf))).ledger, n - 1, Read(db, OrderAt(n - 1)), shelf);
    }
  }

  /** Reserved is what the waiting orders ask for, no more and no less. */
  lemma ReservedIsAwaited(policy: Stock.Policy, db: Database, shelf: nat, n: nat)
    requires ShopOk(policy, db) && Tally(db) && OrdersBelow(db, n)
    ensures ShelfIn(Read(db, ShelfAt(shelf))).reserved == AwaitedInAll(db, shelf, n)
  {
    var row := ShelfIn(Read(db, ShelfAt(shelf)));
    assert Stock.ShelfOk(policy, row) by {
      assert Stock.ShelfOk(policy, NEW_SHELF);
    }
    forall i | 0 <= i < |row.ledger| && Stock.Reserving(row.ledger[i].kind)
      ensures row.ledger[i].reference.ForOrder? && row.ledger[i].reference.order < n
    {
      var order := row.ledger[i].reference.order;
      assert HoldTallies(row.ledger, order, Read(db, OrderAt(order)), shelf);
      assert Mentions(row.ledger, order);
      assert OrderAt(order) in db;
    }
    ReservedIsHeld(row.ledger, n);
    HeldIsAwaited(db, shelf, n);
  }

  // ---- Coupons ------------------------------------------------------------------------

  function UsesInAll(redemptions: seq<Coupons.Redemption>, n: nat): nat {
    if n == 0 then 0 else UsesInAll(redemptions, n - 1) + Coupons.LiveOf(redemptions, n - 1)
  }

  /** The orders below `n` that are live on the coupon. */
  function LiveOrders(db: Database, coupon: nat, n: nat): nat {
    if n == 0 then 0 else LiveOrders(db, coupon, n - 1) + Use(Read(db, OrderAt(n - 1)), coupon)
  }

  lemma {:induction false} UseOneMore(redemptions: seq<Coupons.Redemption>, n: nat)
    requires redemptions != []
    ensures var last := redemptions[|redemptions| - 1];
      UsesInAll(redemptions, n) == UsesInAll(redemptions[..|redemptions| - 1], n) +
        if last.order < n && !last.released then 1 else 0
  {
    if n > 0 {
      UseOneMore(redemptions, n - 1);
    }
  }

  lemma {:induction false} NothingUsed(n: nat)
    ensures UsesInAll([], n) == 0
  {
    if n > 0 {
      NothingUsed(n - 1);
    }
  }

  lemma {:induction false} LiveIsUsed(redemptions: seq<Coupons.Redemption>, n: nat)
    requires forall i :: 0 <= i < |redemptions| ==> redemptions[i].order < n
    ensures Coupons.Live(redemptions) == UsesInAll(redemptions, n)
  {
    if redemptions == [] {
      NothingUsed(n);
    } else {
      LiveIsUsed(redemptions[..|redemptions| - 1], n);
      UseOneMore(redemptions, n);
    }
  }

  lemma {:induction false} UsedIsLive(db: Database, coupon: nat, n: nat)
    requires CouponsTally(db)
    ensures UsesInAll(RedemptionsIn(Read(db, CouponAt(coupon))), n) == LiveOrders(db, coupon, n)
  {
    if n > 0 {
      UsedIsLive(db, coupon, n - 1);
      assert UseTallies(RedemptionsIn(Read(db, CouponAt(coupon))), n - 1, Read(db, OrderAt(n - 1)), coupon);
    }
  }

  /** A coupon's count is the orders live on it, and within its limit. */
  lemma CountedIsLive(policy: Stock.Policy, db: Database, coupon: nat, n: nat)
    requires ShopOk(policy, db) && Tally(db) && OrdersBelow(db, n) && CouponAt(coupon) in db
    ensures var row := db[CouponAt(coupon)];
      && row.ACoupon?
      && row.coupon.usedCount == LiveOrders(db, coupon, n)
      && (row.coupon.usageLimit.Some? ==> LiveOrders(db, coupon, n) <= row.coupon.usageLimit.value)
  {
    assert RowOk(policy, CouponAt(coupon), db[CouponAt(coupon)]);
    var redemptions := RedemptionsIn(Read(db, CouponAt(coupon)));
    forall i | 0 <= i < |redemptions| ensures redemptions[i].order < n {
      var order := redemptions[i].order;
      assert UseTallies(redemptions, order, Read(db, OrderAt(order)), coupon);
      assert Coupons.Names(redemptions, order);
      assert OrderAt(order) in db;
    }
    LiveIsUsed(redemptions, n);
    UsedIsLive(db, coupon, n);
  }

  // ---- In every committed state -------------------------------------------------------

  /** However any requests of the shop's interleave, what is reserved is what is awaited, and what is
      counted is what is live. */
  lemma EveryCommittedStateAddsUp(
      asked: seq<ShopRequest>, policy: Stock.Policy, db: Database, schedule: seq<nat>, shelf: nat, coupon: nat, n: nat)
    requires forall i :: 0 <= i < |asked| ==> Acceptable(asked[i], policy)
    requires ShopOk(policy, db) && Tally(db)
    requires var reqs := ToRequests(RecipesOf(asked, policy)); Schedulable(reqs, Start(reqs, db), schedule)
    requires OrdersBelow(Outcome(ToRequests(RecipesOf(asked, policy)), db, schedule).db, n)
    ensures var after := Outcome(ToRequests(RecipesOf(asked, policy)), db, schedule).db;
      && ShelfIn(Read(after, ShelfAt(shelf))).reserved == AwaitedInAll(after, shelf, n)
      && (CouponAt(coupon) in after ==>
            after[CouponAt(coupon)].ACoupon? &&
                after[CouponAt(coupon)].coupon.usedCount == LiveOrders(after, coupon, n))
  {
    hide ShopOk, Tally, ToRequests, OrdersBelow;
    EveryCommittedStateIsSound(asked, policy, db, schedule);
    var after := Outcome(ToRequests(RecipesOf(asked, policy)), db, schedule).db;
    ReservedIsAwaited(policy, after, shelf, n);
    if CouponAt(coupon) in after {
      CountedIsLive(policy, after, coupon, n);
    }
  }
}
