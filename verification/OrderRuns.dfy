/** What orders keep over whole runs: holds covered by stock, alerts for exactly the low shelves,
    a double click answered once. */
module OrderRuns {
  import opened Wrappers
  import opened RowLocks
  import opened LockOrder
  import opened Recipes
  import opened Runs
  import opened Shop
  import opened Tallies
  import opened CashBook
  import opened StockRoom
  import opened Orders
  import opened Fulfilment
  import opened ShopRuns
  import opened StockRuns
  import Stock = StockLedger

  // ---- Every hold covered -------------------------------------------------------------

  /** What is reserved is there. */
  predicate Covered(shelf: Stock.Shelf) {
    shelf.reserved <= shelf.onHand
  }

  predicate AllCovered(db: Database, shelf: nat) {
    Covered(ShelfNow(db, shelf))
  }

  lemma ShelvesAfterTake(p: Purchase, values: Values, shelf: nat)
    requires shelf in Stock.Touched(p.lines)
    ensures ShelvesAfter(p, values)[shelf].Available() ==
        ShelfOf(values, shelf).Available() - Stock.Asked(p.lines, shelf)
  {
    hide Stock.Touched, Stock.Asked, Stock.Moved, ShelfOf;
    Stock.TakenFromAvailable(ShelvesOf(values, Stock.Touched(p.lines)), p.lines, p.counter, Stock.ForOrder(p.order),
        shelf);
  }

  lemma ShelfAfterPurchase(p: Purchase, policy: Stock.Policy, values: Values, shelf: nat)
    ensures ShelfIn(After(PurchaseRecipe(p, policy), values, ShelfAt(shelf))) ==
            if shelf in Stock.Touched(p.lines) then ShelvesAfter(p, values)[shelf] else ShelfOf(values, shelf)
  {
    hide PurchaseRecipe, Stock.Touched, ShelvesAfter, AccountsAfter, CouponRows, OrderMade, After;
    PurchaseAfter(p, policy, values, ShelfAt(shelf));
  }

  /** An order takes from what is available what it asks, whether it holds the goods or has them. */
  lemma PurchaseTakesAvailable(p: Purchase, policy: Stock.Policy, values: Values, shelf: nat)
    ensures ShelfIn(After(PurchaseRecipe(p, policy), values, ShelfAt(shelf))).Available() ==
            ShelfOf(values, shelf).Available() - Stock.Asked(p.lines, shelf)
  {
    hide PurchaseRecipe, Stock.Touched, Stock.Asked, ShelvesAfter, After, ShelfIn, ShelfOf;
    ShelfAfterPurchase(p, policy, values, shelf);
    Stock.TouchedIsAsked(p.lines, shelf);
    if shelf in Stock.Touched(p.lines) {
      ShelvesAfterTake(p, values, shelf);
    }
  }

  /** An order leaves a shelf's holds covered exactly when it asks no more than is available. */
  lemma PurchaseCoversExactlyWhen(p: Purchase, policy: Stock.Policy, values: Values, shelf: nat)
    ensures Covered(ShelfIn(After(PurchaseRecipe(p, policy), values, ShelfAt(shelf)))) <==>
            Stock.Asked(p.lines, shelf) <= ShelfOf(values, shelf).Available()
  {
    hide PurchaseRecipe, Stock.Asked;
    PurchaseTakesAvailable(p, policy, values, shelf);
  }

  /** An order that minds the holds asks no more than is available. */
  lemma OrderAsksAvailable(p: Purchase, policy: Stock.Policy, values: Values, shelf: nat)
    requires !policy.oversell && MindsHolds(policy, p.counter)
    requires StockObjection(policy, p.counter, p.lines, values).None? && Covered(ShelfOf(values, shelf))
    ensures Stock.Asked(p.lines, shelf) <= ShelfOf(values, shelf).Available()
  {
    hide Stock.Ids, Stock.Touched, Stock.Asked, ShelfOf;
    Stock.IdsAscend(p.lines);
    Stock.TouchedIsAsked(p.lines, shelf);
    if shelf in Stock.Touched(p.lines) {
      var ids, rows := Stock.Ids(p.lines), ShelvesOf(values, Stock.Touched(p.lines));
      var i :| 0 <= i < |ids| && ids[i] == shelf;
      assert Stock.Asked(p.lines, ids[i]) <= rows[ids[i]].Available();
    }
  }

  lemma PurchaseKeepsCover(p: Purchase, policy: Stock.Policy, db: Database, shelf: nat)
    requires ShopOk(policy, db) && !policy.oversell && MindsHolds(policy, p.counter)
    requires AllCovered(db, shelf)
    ensures AllCovered(Effect(PurchaseRecipe(p, policy), db).0, shelf)
  {
    hide PurchaseRecipe, PurchaseWrites, StockObjection, Stock.Asked, CouponObjection, TenderObjection, HasShelves,
         HasAccounts, Tenders;
    var c := PurchaseRecipe(p, policy);
    var values := Snapshot(Keys(c), db);
    PurchaseShape(p, policy);
    PurchaseWellMade(p, policy);
    if c.fault.None? && c.check(values).None? && (c.claim.Some? ==> c.claim.value !in db) {
      ReadAfter(c, db, ShelfAt(shelf));
      PurchaseRead(p, policy, values);
      if ShelfAt(shelf) in values {
        OrderAsksAvailable(p, policy, values, shelf);
        PurchaseCoversExactlyWhen(p, policy, values, shelf);
      }
    }
  }

  lemma AdvanceKeepsCover(a: Advance, policy: Stock.Policy, db: Database, shelf: nat)
    requires ShopOk(policy, db) && Tally(db) && AllCovered(db, shelf)
    ensures AllCovered(Effect(AdvanceRecipe(a, policy), db).0, shelf)
  {
    hide AdvanceRecipe, AdvanceWrites, AdvanceEnds, HeldBy, SoldFor, Mentions, Stock.Asked, ValuesTally, HasRead,
         Tally;
    var c := AdvanceRecipe(a, policy);
    var values := Snapshot(Keys(c), db);
    AdvanceShape(a, policy);
    AdvanceWellMade(a, policy);
    if c.check(values).None? {
      ReadAfter(c, db, ShelfAt(shelf));
      SnapshotIsRead(c, db);
      SnapshotTallies(Keys(c), db);
      if ShelfAt(shelf) in values {
        AdvanceRead(a, policy, values);
        AdvanceShelf(a, policy, values, shelf);
      }
    }
  }

  lemma SnapshotIsRead(c: ShopRecipe, db: Database)
    ensures HasRead(c, Snapshot(Keys(c), db))
  {
  }

  lemma AdvanceShape(a: Advance, policy: Stock.Policy)
    ensures var c := AdvanceRecipe(a, policy);
      c.claim.None? && c.fault.None? && forall values :: c.check(values) == AdvanceEnds(a, policy, values)
  {
    hide AdvanceEnds;
  }

  predicate OrdersOnly(asked: seq<ShopRequest>) {
    forall i :: 0 <= i < |asked| ==> asked[i].Buy? || asked[i].Progress?
  }

  ghost predicate CoveredThroughout(policy: Stock.Policy, db: Database) {
    ShopOk(policy, db) && Tally(db) && forall shelf: nat :: AllCovered(db, shelf)
  }

  lemma OrderKeepsCover(q: ShopRequest, policy: Stock.Policy, db: Database)
    requires (q.Buy? || q.Progress?) && !policy.oversell
    requires q.Buy? ==> MindsHolds(policy, q.purchase.counter)
    requires CoveredThroughout(policy, db)
    ensures CoveredThroughout(policy, Serial(ToRequest(ShopRuns.RecipeOf(q, policy)), db).0)
  {
    hide PurchaseRecipe, AdvanceRecipe, Effect, Serial, ShopOk, Tally, AllCovered;
    RequestSure(q, policy);
    RecipeSerial(ShopRuns.RecipeOf(q, policy), IsClaim, db);
    forall shelf: nat ensures AllCovered(Effect(ShopRuns.RecipeOf(q, policy), db).0, shelf) {
      if q.Buy? {
        PurchaseKeepsCover(q.purchase, policy, db, shelf);
      } else {
        AdvanceKeepsCover(q.advance, policy, db, shelf);
      }
    }
  }

  /** No oversell: with online orders -- and counter sales, where the counter is kept off held
      stock -- being placed, packed and cancelled in any interleaving, every committed state has
      every hold covered. */
  lemma HoldsStayCovered(asked: seq<ShopRequest>, policy: Stock.Policy, db: Database, schedule: seq<nat>)
    requires OrdersOnly(asked) && !policy.oversell
    requires forall i :: 0 <= i < |asked| && asked[i].Buy? ==> MindsHolds(policy, asked[i].purchase.counter)
    requires CoveredThroughout(policy, db)
    requires var reqs := ToRequests(RecipesOf(asked, policy)); Schedulable(reqs, Start(reqs, db), schedule)
    ensures CoveredThroughout(policy, Outcome(ToRequests(RecipesOf(asked, policy)), db, schedule).db)
  {
    hide ShopRuns.RecipeOf, Serial, CoveredThroughout;
    var reqs := ToRequests(RecipesOf(asked, policy));
    RequestsSound(asked, policy);
    forall p, d: Database | 0 <= p < |reqs| && CoveredThroughout(policy, d)
      ensures CoveredThroughout(policy, Serial(reqs[p], d).0)
    {
      OrderKeepsCover(asked[p], policy, d);
    }
    AlwaysKept(reqs, IsClaim, db, schedule, d => CoveredThroughout(policy, d));
  }

  // ---- Alerts -------------------------------------------------------------------------

  predicate IsLow(shelf: Stock.Shelf) {
    shelf.Available() <= shelf.reorderPoint
  }

  /** Goods held or sold only ever make a shelf lower, so a job is queued for a shelf of the order
      exactly when the order leaves it at or below its reorder point. */
  lemma {:induction false} AlertsAreTheLowShelves(
      rows: map<nat, Stock.Shelf>, lines: seq<Stock.Line>, counter: bool, reference: Stock.Reference, id: nat)
    requires Stock.Covers(rows, lines) && id in rows
    ensures LowStock(id) in Alerts(rows, lines, StockKind(counter), !counter, reference) <==>
            id in Stock.Touched(lines) && IsLow(Stock.Moved(rows, lines, StockKind(counter), !counter, reference)[id])
    decreases |lines|, 1
  {
    if lines != [] {
      if lines[0].quantity == 0 {
        AlertsAreTheLowShelves(rows, lines[1..], counter, reference, id);
      } else {
        FirstAlert(rows, lines, counter, reference, id);
      }
    }
  }

  lemma {:induction false} FirstAlert(
      rows: map<nat, Stock.Shelf>, lines: seq<Stock.Line>, counter: bool, reference: Stock.Reference, id: nat)
    requires Stock.Covers(rows, lines) && id in rows && lines != [] && lines[0].quantity > 0
    ensures LowStock(id) in Alerts(rows, lines, StockKind(counter), !counter, reference) <==>
            id in Stock.Touched(lines) && IsLow(Stock.Moved(rows, lines, StockKind(counter), !counter, reference)[id])
    decreases |lines|, 0
  {
    var first := lines[0].shelf;
    var next := rows[first :=
        Stock.Write(rows[first], StockKind(counter), Stock.Signed(!counter, lines[0].quantity), reference)];
    AlertsAreTheLowShelves(next, lines[1..], counter, reference, id);
    if id == first {
      Stock.MovedTotals(next, lines[1..], StockKind(counter), !counter, reference, id);
      Stock.TouchedIsAsked(lines[1..], id);
      if id !in Stock.Touched(lines[1..]) {
        Stock.MovedLeaves(next, lines[1..], StockKind(counter), !counter, reference, id);
      }
    }
  }
}
