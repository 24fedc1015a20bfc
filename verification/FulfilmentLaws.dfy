/** A change of status in figures: which are made, and what each leaves of the order, its shelves and its coupon. */
module FulfilmentLaws {
  import opened Wrappers
  import opened RowLocks
  import opened Recipes
  import opened Shop
  import opened Tallies
  import opened CashBook
  import opened StockRoom
  import opened Orders
  import opened Fulfilment
  import opened StockLaws
  import opened OrderLaws
  import Stock = StockLedger
  import Coupons = CouponBook

  /** The steps an order may take. */
  const STEPS: set<(Status, Status)> := {
    (Pending, Confirmed), (Confirmed, Processing), (Processing, Packed),
    (Pending, Cancelled), (Confirmed, Cancelled), (Processing, Cancelled),
    (Status.Packed, Shipped), (Status.Packed, Delivered), (Shipped, Delivered),
    (Shipped, ReturnRequested), (Delivered, ReturnRequested), (ReturnRequested, Delivered),
    (ReturnRequested, Returned), (Returned, Refunded)
  }

  lemma StepsAreNext(from: Status, to: Status)
    ensures (from, to) in STEPS <==> to in Next(from)
  {
  }

  /** What is there to pack: every shelf has on hand all that the lines ask of it. */
  predicate CanPack(policy: Stock.Policy, lines: seq<Stock.Line>, db: Database) {
    || policy.oversell
    || forall i :: 0 <= i < |lines| && lines[i].quantity > 0 ==>
         Stock.Asked(lines, lines[i].shelf) <= ShelfNow(db, lines[i].shelf).onHand
  }

  // ---- Line by line -------------------------------------------------------------------

  /** A shelf's entries for an order packed: each line's hold given up and its goods sold. */
  function Sells(lines: seq<Stock.Line>, id: nat, order: nat): seq<Mark> {
    if lines == [] then []
    else
      var q: int := lines[0].quantity;
      (if q > 0 && lines[0].shelf == id then
         [Mark(Stock.ReservationRelease, -q, Stock.ForOrder(order)), Mark(Stock.Sale, -q, Stock.ForOrder(order))]
       else []) +
      Sells(lines[1..], id, order)
  }

  lemma ReleasedOneMarks(shelf: Stock.Shelf, quantity: nat, order: nat)
    requires shelf.reserved >= quantity > 0
    ensures var after, q: int := ReleasedOne(shelf, quantity, order), quantity;
      && after.reorderPoint == shelf.reorderPoint && after.onHand == shelf.onHand
      && after.reserved == shelf.reserved - q
      && Marks(after.ledger) == Marks(shelf.ledger) + [Mark(Stock.ReservationRelease, -q, Stock.ForOrder(order))]
  {
    hide Marks;
    WriteMarks(shelf, Stock.ReservationRelease, -(quantity as int), Stock.ForOrder(order));
  }

  lemma ConsumedOneMarks(policy: Stock.Policy, shelf: Stock.Shelf, quantity: nat, order: nat)
    requires shelf.reserved >= quantity > 0 && ConsumedOne(policy, shelf, quantity, order).Some?
    ensures var after, q: int := ConsumedOne(policy, shelf, quantity, order).value, quantity;
      && after.reorderPoint == shelf.reorderPoint && after.reserved == shelf.reserved - q
      && Marks(after.ledger) == Marks(shelf.ledger) +
           [Mark(Stock.ReservationRelease, -q, Stock.ForOrder(order)), Mark(Stock.Sale, -q, Stock.ForOrder(order))]
  {
    hide Marks, ReleasedOne;
    ReleasedOneMarks(shelf, quantity, order);
    WriteMarks(ReleasedOne(shelf, quantity, order), Stock.Sale, -(quantity as int), Stock.ForOrder(order));
  }

  lemma {:induction false} ReleasedMarks(rows: map<nat, Stock.Shelf>, lines: seq<Stock.Line>, order: nat, id: nat)
    requires Stock.Covers(rows, lines) && id in rows && rows[id].reserved >= Stock.Asked(lines, id)
    ensures var after := Released(rows, lines, order)[id];
      && after.reorderPoint == rows[id].reorderPoint
      && Marks(after.ledger) ==
           Marks(rows[id].ledger) + Told(lines, id, Stock.ReservationRelease, false, Stock.ForOrder(order))
  {
    hide Marks, ReleasedOne, Told;
    if lines == [] {
      NothingTold(id, Stock.ReservationRelease, false, Stock.ForOrder(order));
    } else {
      ToldNext(lines, id, Stock.ReservationRelease, false, Stock.ForOrder(order));
      var first := lines[0];
      if first.quantity == 0 {
        ReleasedMarks(rows, lines[1..], order, id);
      } else {
        if first.shelf == id {
          ReleasedOneMarks(rows[id], first.quantity, order);
        }
        ReleasedMarks(rows[first.shelf := ReleasedOne(rows[first.shelf], first.quantity, order)], lines[1..], order,
                      id);
      }
    }
  }

  lemma SellsNext(lines: seq<Stock.Line>, id: nat, order: nat)
    requires lines != []
    ensures var q: int := lines[0].quantity;
      Sells(lines, id, order) ==
      (if q > 0 && lines[0].shelf == id then
         [Mark(Stock.ReservationRelease, -q, Stock.ForOrder(order)), Mark(Stock.Sale, -q, Stock.ForOrder(order))]
       else []) +
      Sells(lines[1..], id, order)
  {
  }

  lemma NothingSells(id: nat, order: nat)
    ensures Sells([], id, order) == []
  {
  }

  lemma {:induction false} ConsumedMarks(policy: Stock.Policy, rows: map<nat, Stock.Shelf>, lines: seq<Stock.Line>,
      order: nat, id: nat)
    requires Stock.Covers(rows, lines) && id in rows && rows[id].reserved >= Stock.Asked(lines, id)
    requires Consumed(policy, rows, lines, order).Some?
    ensures var after := Consumed(policy, rows, lines, order).value[id];
      && after.reorderPoint == rows[id].reorderPoint
      && Marks(after.ledger) == Marks(rows[id].ledger) + Sells(lines, id, order)
  {
    hide Marks, ConsumedOne, Sells;
    if lines == [] {
      NothingSells(id, order);
    } else {
      SellsNext(lines, id, order);
      var first := lines[0];
      if first.quantity == 0 {
        ConsumedMarks(policy, rows, lines[1..], order, id);
      } else {
        if first.shelf == id {
          ConsumedOneMarks(policy, rows[id], first.quantity, order);
        }
        ConsumedMarks(policy,
                      rows[first.shelf := ConsumedOne(policy, rows[first.shelf], first.quantity, order).value],
                      lines[1..], order, id);
      }
    }
  }

  /** Packing stops exactly where some shelf has not on hand what all the lines ask of it. */
  lemma {:induction false} ConsumedExactlyWhen(policy: Stock.Policy, rows: map<nat, Stock.Shelf>,
      lines: seq<Stock.Line>, order: nat)
    requires Stock.Covers(rows, lines) && (policy.oversell || forall id :: id in rows ==> rows[id].onHand >= 0)
    ensures Consumed(policy, rows, lines, order).Some? <==>
            policy.oversell || forall id :: id in rows ==> Stock.Asked(lines, id) <= rows[id].onHand
    decreases |lines|, 1
  {
    if lines != [] {
      var first := lines[0];
      if first.quantity == 0 {
        assert forall id :: Stock.Asked(lines, id) == Stock.Asked(lines[1..], id);
        ConsumedExactlyWhen(policy, rows, lines[1..], order);
      } else {
        ConsumedFirst(policy, rows, lines, order);
      }
    }
  }

  lemma ConsumedOneExactlyWhen(policy: Stock.Policy, shelf: Stock.Shelf, quantity: nat, order: nat)
    requires quantity > 0
    ensures ConsumedOne(policy, shelf, quantity, order).Some? <==> policy.oversell || quantity <= shelf.onHand
    ensures ConsumedOne(policy, shelf, quantity, order).Some? ==>
            ConsumedOne(policy, shelf, quantity, order).value.onHand == shelf.onHand - quantity
  {
  }

  lemma {:induction false} ConsumedFirst(policy: Stock.Policy, rows: map<nat, Stock.Shelf>, lines: seq<Stock.Line>,
      order: nat)
    requires Stock.Covers(rows, lines) && (policy.oversell || forall id :: id in rows ==> rows[id].onHand >= 0)
    requires lines != [] && lines[0].quantity > 0
    ensures Consumed(policy, rows, lines, order).Some? <==>
            policy.oversell || forall id :: id in rows ==> Stock.Asked(lines, id) <= rows[id].onHand
    decreases |lines|, 0
  {
    hide ConsumedOne;
    var first, q := lines[0].shelf, lines[0].quantity;
    ConsumedOneExactlyWhen(policy, rows[first], q, order);
    assert Stock.Asked(lines, first) == Stock.Asked(lines[1..], first) + q;
    if ConsumedOne(policy, rows[first], q, order).Some? {
      var next := rows[first := ConsumedOne(policy, rows[first], q, order).value];
      ConsumedExactlyWhen(policy, next, lines[1..], order);
      assert forall id :: id in rows ==>
        (Stock.Asked(lines, id) <= rows[id].onHand <==> Stock.Asked(lines[1..], id) <= next[id].onHand);
    }
  }

  // ---- What stops a move ----------------------------------------------------------------

  lemma AdvanceIsRead(a: Advance, policy: Stock.Policy, db: Database)
    ensures var values := Snapshot(Keys(AdvanceRecipe(a, policy)), db);
      && OrderAt(a.order) in values && values[OrderAt(a.order)] == Read(db, OrderAt(a.order))
      && (MovesStock(a.to) ==> HasShelves(values, Stock.Ids(a.lines)) && ShelvesAsTheyAre(a.lines, values, db))
      && (a.to.Cancelled? && a.coupon.Some? ==> CouponOf(values, a.coupon.value) == CouponNow(db, a.coupon.value))
  {
    hide Stock.Ids, Snapshot, AdvanceEnds, AdvanceWrites, Stock.Touched;
    var c, ids := AdvanceRecipe(a, policy), Stock.Ids(a.lines);
    assert Keys(c)[0] == OrderAt(a.order);
    SnapshotHas(Keys(c), db, OrderAt(a.order));
    if MovesStock(a.to) {
      forall id | id in ids
        ensures ShelfAt(id) in Snapshot(Keys(c), db) && ShelfOf(Snapshot(Keys(c), db), id) == ShelfNow(db, id)
      {
        ShelfKeyIn(ids, id);
        SnapshotHas(Keys(c), db, ShelfAt(id));
      }
      Stock.IdsAscend(a.lines);
    }
    if a.to.Cancelled? && a.coupon.Some? {
      assert CouponKeys(a.coupon)[0] in Keys(c);
      SnapshotHas(Keys(c), db, CouponAt(a.coupon.value));
    }
  }

  /** The order as it stands, if the move names it truly. */
  function OrderMeant(a: Advance, db: Database): Option<Order> {
    var o := OrderIn(Read(db, OrderAt(a.order)));
    if o.Some? && o.value.lines == a.lines && o.value.coupon == a.coupon then o else None
  }

  /** How a move ends that writes nothing. */
  function StopsMove(a: Advance, policy: Stock.Policy, db: Database): Option<Answer> {
    match OrderMeant(a, db)
    case None => Some(Refused(NoSuchOrder))
    case Some(o) =>
      if o.status == a.to then Some(Unchanged)
      else if (o.status, a.to) !in STEPS then Some(Refused(WrongStatus))
      else if a.to.Cancelled? && o.committed then Some(Refused(StockHasLeft))
      else if a.to.Packed? && !o.committed && !CanPack(policy, a.lines, db) then Some(Refused(InsufficientStock))
      else None
  }

  lemma PackedFromProcessing(from: Status)
    ensures (from, Status.Packed) in STEPS ==> from == Processing
    ensures (from, Cancelled) in STEPS ==> from in {Pending, Confirmed, Processing}
  {
  }

  lemma PackingExactlyWhen(a: Advance, policy: Stock.Policy, db: Database)
    requires ShopOk(policy, db) && Tally(db) && a.to.Packed? && OrderMeant(a, db).Some?
    requires !OrderMeant(a, db).value.committed && OrderMeant(a, db).value.status == Processing
    ensures Packing(a, policy, Snapshot(Keys(AdvanceRecipe(a, policy)), db)).Some? <==> CanPack(policy, a.lines, db)
  {
    hide HeldBy, SoldFor, Mentions, Consumed, Unsold, Stock.ShelfOk, Stock.Asked, Stock.Touched, Snapshot, Keys, Tally,
         ShopOk, AdvanceRecipe, Stock.Ids, ValuesOk, ValuesTally, HasShelves, CanPack;
    var values := Snapshot(Keys(AdvanceRecipe(a, policy)), db);
    var rows := ShelvesOf(values, Stock.Touched(a.lines));
    AdvanceIsRead(a, policy, db);
    ReadsSoundRows(policy, AdvanceRecipe(a, policy), db);
    SnapshotTallies(Keys(AdvanceRecipe(a, policy)), db);
    OrderIsOk(a, policy, db);
    forall id | id in Stock.Touched(a.lines)
      ensures !SoldFor(ShelfOf(values, id).ledger, a.order) && (policy.oversell || rows[id].onHand >= 0)
    {
      ShelfRead(a.lines, values, id);
      ShelfOfOk(policy, values, id);
      WaitingIsHeld(policy, values, a.order, id);
      NotBelowNothing(policy, rows[id]);
    }
    UnsoldIsTouched(values, a.lines, a.order);
    forall id ensures Stock.Asked(Unsold(values, a.lines, a.order), id) == Stock.Asked(a.lines, id) {
      NoneSold(values, a.lines, a.order, id);
    }
    ConsumedExactlyWhen(policy, rows, Unsold(values, a.lines, a.order), a.order);
    CanPackById(policy, a.lines, values, db);
  }

  lemma OrderIsOk(a: Advance, policy: Stock.Policy, db: Database)
    requires ShopOk(policy, db) && OrderMeant(a, db).Some?
    ensures OrderOk(OrderMeant(a, db).value)
  {
    assert RowOk(policy, OrderAt(a.order), db[OrderAt(a.order)]);
  }

  lemma NotBelowNothing(policy: Stock.Policy, shelf: Stock.Shelf)
    requires Stock.ShelfOk(policy, shelf)
    ensures policy.oversell || shelf.onHand >= 0
  {
    hide Stock.Sound;
  }

  lemma CanPackById(policy: Stock.Policy, lines: seq<Stock.Line>, values: Values, db: Database)
    requires ShelvesAsTheyAre(lines, values, db)
    ensures CanPack(policy, lines, db) <==>
            policy.oversell || forall id :: id in Stock.Touched(lines) ==>
              Stock.Asked(lines, id) <= ShelvesOf(values, Stock.Touched(lines))[id].onHand
  {
    hide Stock.Touched, Stock.Asked, ShelfOf, ShelfNow;
    var rows := ShelvesOf(values, Stock.Touched(lines));
    if CanPack(policy, lines, db) {
      forall id | id in Stock.Touched(lines) && !policy.oversell ensures Stock.Asked(lines, id) <= rows[id].onHand {
        var i := TouchedBy(lines, id);
      }
    } else {
      var i :| 0 <= i < |lines| && lines[i].quantity > 0 &&
        Stock.Asked(lines, lines[i].shelf) > ShelfNow(db, lines[i].shelf).onHand;
      TouchesOf(lines, i);
      assert rows[lines[i].shelf] == ShelfNow(db, lines[i].shelf);
    }
  }

  lemma MoveIsStopped(a: Advance, policy: Stock.Policy, db: Database)
    requires ShopOk(policy, db) && Tally(db)
    ensures AdvanceEnds(a, policy, Snapshot(Keys(AdvanceRecipe(a, policy)), db)) == StopsMove(a, policy, db)
  {
    hide Snapshot, AdvanceRecipe, Packing, Stock.Ids, HasShelves, ShelvesAsTheyAre, Tally, ShopOk, CanPack, Keys, Next,
         CouponNow;
    AdvanceIsRead(a, policy, db);
    var o := OrderMeant(a, db);
    if o.Some? {
      StepsAreNext(o.value.status, a.to);
      PackedFromProcessing(o.value.status);
      if a.to.Packed? && !o.value.committed && (o.value.status, a.to) in STEPS {
        PackingExactlyWhen(a, policy, db);
      }
    }
  }

  // ---- What a move leaves ---------------------------------------------------------------

  lemma {:induction false} SellsUnsold(values: Values, lines: seq<Stock.Line>, id: nat, order: nat)
    requires forall s :: s in Stock.Touched(lines) ==> !SoldFor(ShelfOf(values, s).ledger, order)
    ensures Sells(Unsold(values, lines, order), id, order) == Sells(lines, id, order)
  {
    hide SoldFor;
    if lines != [] {
      SellsUnsold(values, lines[1..], id, order);
      var rest := Unsold(values, lines[1..], order);
      assert ([lines[0]] + rest)[1..] == rest;
    }
  }

  /** Goes, as it is read. */
  ghost predicate Moveable(a: Advance, policy: Stock.Policy, db: Database) {
    ShopOk(policy, db) && Tally(db) && StopsMove(a, policy, db).None?
  }

  lemma MoveGoes(a: Advance, policy: Stock.Policy, db: Database)
    requires Moveable(a, policy, db)
    ensures var c, values := AdvanceRecipe(a, policy), Snapshot(Keys(AdvanceRecipe(a, policy)), db);
      && CanAdvance(a, policy, values) && OrderMeant(a, db).Some?
      && OrderIn(Get(values, OrderAt(a.order))) == OrderIn(Read(db, OrderAt(a.order))) == OrderMeant(a, db)
      && c.fault.None? && c.claim.None? && c.check(values).None?
  {
    hide Snapshot, AdvanceEnds, ShopOk, Tally, Keys, ValuesTally, ValuesOk, HasRead;
    MoveIsStopped(a, policy, db);
    AdvanceIsRead(a, policy, db);
    ReadsSoundRows(policy, AdvanceRecipe(a, policy), db);
    SnapshotTallies(Keys(AdvanceRecipe(a, policy)), db);
  }

  /** Every row as a move that goes leaves it. */
  lemma MoveRow(a: Advance, policy: Stock.Policy, db: Database, k: Key)
    requires Moveable(a, policy, db) && !IsClaim(k)
    ensures OrderMeant(a, db).Some?
    ensures var values, o := Snapshot(Keys(AdvanceRecipe(a, policy)), db), OrderMeant(a, db).value;
      && AdvanceShelves(a, policy, o, values).Keys <= Affected(a)
      && Read(Effect(AdvanceRecipe(a, policy), db).0, k) ==
        if k == OrderAt(a.order) then Some(AnOrder(o.(status := a.to, committed := o.committed || a.to.Packed?)))
        else if k.ShelfAt? && k.shelf in AdvanceShelves(a, policy, o, values) then
          Some(AShelf(AdvanceShelves(a, policy, o, values)[k.shelf]))
        else if k.CouponAt? && k in AdvanceCoupons(a, values) then Some(AdvanceCoupons(a, values)[k])
        else Read(db, k)
  {
    hide AdvanceRecipe, Effect, Snapshot, Moveable, CanAdvance, AdvanceShelves, AdvanceCoupons, Keys, WellMade, After,
         Affected, OrderMeant;
    var c := AdvanceRecipe(a, policy);
    MoveGoes(a, policy, db);
    AdvanceWellMade(a, policy);
    ReadAfter(c, db, k);
    AdvanceAfter(a, policy, Snapshot(Keys(c), db), k);
  }

  /** It packs: the goods leave now. */
  predicate PacksNow(a: Advance, o: Order) {
    a.to.Packed? && !o.committed
  }

  /** A shelf as a move leaves it: packed, what was held for the order is sold; cancelled, it is given back. */
  predicate ShelfMoved(a: Advance, o: Order, before: Stock.Shelf, after: Stock.Shelf, id: nat) {
    var asked: int := Stock.Asked(a.lines, id);
    Became(before, after, if PacksNow(a, o) then -asked else 0, if PacksNow(a, o) || a.to.Cancelled? then -asked else 0,
           if PacksNow(a, o) then Sells(a.lines, id, a.order)
           else if a.to.Cancelled? then Told(a.lines, id, Stock.ReservationRelease, false, Stock.ForOrder(a.order))
           else [])
  }

  lemma PackedMarks(a: Advance, policy: Stock.Policy, values: Values, id: nat)
    requires CanAdvance(a, policy, values) && a.to.Packed? && id in Stock.Touched(a.lines)
    requires OrderIn(Get(values, OrderAt(a.order))).Some? && !OrderIn(Get(values, OrderAt(a.order))).value.committed
    ensures Packing(a, policy, values).Some?
    ensures var after := Packing(a, policy, values).value[id];
      && after.reorderPoint == ShelfOf(values, id).reorderPoint
      && Marks(after.ledger) == Marks(ShelfOf(values, id).ledger) + Sells(a.lines, id, a.order)
  {
    hide HeldBy, SoldFor, Mentions, Consumed, Unsold, Stock.ShelfOk, Stock.Asked, Holds, Stock.Touched, Sells, Marks;
    AdvanceRead(a, policy, values);
    WaitingHolds(a, policy, values);
    forall s | s in Stock.Touched(a.lines)
      ensures ShelfOf(values, s).reserved >= Stock.Asked(a.lines, s) && !SoldFor(ShelfOf(values, s).ledger, a.order)
    {
      ShelfRead(a.lines, values, s);
      WaitingIsHeld(policy, values, a.order, s);
    }
    UnsoldIsTouched(values, a.lines, a.order);
    NoneSold(values, a.lines, a.order, id);
    SellsUnsold(values, a.lines, id, a.order);
    ConsumedMarks(policy, ShelvesOf(values, Stock.Touched(a.lines)), Unsold(values, a.lines, a.order), a.order, id);
  }

  lemma CancelledMarks(a: Advance, policy: Stock.Policy, values: Values, id: nat)
    requires CanAdvance(a, policy, values) && a.to.Cancelled? && id in Stock.Touched(a.lines)
    requires OrderIn(Get(values, OrderAt(a.order))).Some?
    ensures var after := Released(ShelvesOf(values, Stock.Touched(a.lines)), a.lines, a.order)[id];
      && after.reorderPoint == ShelfOf(values, id).reorderPoint
      && Marks(after.ledger) == Marks(ShelfOf(values, id).ledger) +
           Told(a.lines, id, Stock.ReservationRelease, false, Stock.ForOrder(a.order))
  {
    hide HeldBy, SoldFor, Mentions, Released, Stock.ShelfOk, Stock.Asked, Holds, Stock.Touched, Told, Marks;
    AdvanceRead(a, policy, values);
    WaitingHolds(a, policy, values);
    ShelfRead(a.lines, values, id);
    WaitingIsHeld(policy, values, a.order, id);
    ReleasedMarks(ShelvesOf(values, Stock.Touched(a.lines)), a.lines, a.order, id);
  }

  lemma AdvanceReadsShelf(a: Advance, policy: Stock.Policy, db: Database, id: nat)
    requires MovesStock(a.to) && id in Stock.Touched(a.lines)
    ensures ShelfOf(Snapshot(Keys(AdvanceRecipe(a, policy)), db), id) == ShelfNow(db, id)
  {
    hide Stock.Touched, AdvanceRecipe, ShelfOf, ShelfNow, HasShelves;
    AdvanceIsRead(a, policy, db);
  }

  lemma PackedAs(a: Advance, policy: Stock.Policy, values: Values, id: nat)
    requires CanAdvance(a, policy, values) && a.to.Packed? && id in Stock.Touched(a.lines)
    requires OrderIn(Get(values, OrderAt(a.order))).Some? && !OrderIn(Get(values, OrderAt(a.order))).value.committed
    ensures Packing(a, policy, values).Some?
    ensures ShelfMoved(a, OrderIn(Get(values, OrderAt(a.order))).value, ShelfOf(values, id),
                       Packing(a, policy, values).value[id], id)
  {
    hide HeldBy, SoldFor, Mentions, Packing, Stock.Asked, Stock.Touched, Sells, Marks, CanAdvance;
    PackedShelf(a, policy, values, id);
    PackedMarks(a, policy, values, id);
  }

  lemma CancelledAs(a: Advance, policy: Stock.Policy, values: Values, id: nat)
    requires CanAdvance(a, policy, values) && a.to.Cancelled? && id in Stock.Touched(a.lines)
    requires OrderIn(Get(values, OrderAt(a.order))).Some?
    ensures ShelfMoved(a, OrderIn(Get(values, OrderAt(a.order))).value, ShelfOf(values, id),
                       Released(ShelvesOf(values, Stock.Touched(a.lines)), a.lines, a.order)[id], id)
  {
    hide HeldBy, SoldFor, Mentions, Released, Stock.Asked, Stock.Touched, Told, Marks, CanAdvance;
    CancelledShelf(a, policy, values, id);
    CancelledMarks(a, policy, values, id);
  }

  lemma MoveShelfRow(a: Advance, policy: Stock.Policy, db: Database, id: nat)
    requires Moveable(a, policy, db)
    ensures OrderMeant(a, db).Some?
    ensures ShelfMoved(a, OrderMeant(a, db).value, ShelfNow(db, id),
                       ShelfNow(Effect(AdvanceRecipe(a, policy), db).0, id), id)
  {
    hide AdvanceRecipe, Effect, Snapshot, Moveable, CanAdvance, Keys, OrderMeant, Stock.Asked, Stock.Touched, Told,
         Sells, Marks, Packing, Released, ShelfOf, ShelfMoved;
    var values := Snapshot(Keys(AdvanceRecipe(a, policy)), db);
    MoveGoes(a, policy, db);
    var o := OrderMeant(a, db).value;
    MoveRow(a, policy, db, ShelfAt(id));
    if id in Stock.Touched(a.lines) && PacksNow(a, o) {
      AdvanceReadsShelf(a, policy, db, id);
      PackedAs(a, policy, values, id);
    } else if id in Stock.Touched(a.lines) && a.to.Cancelled? {
      AdvanceReadsShelf(a, policy, db, id);
      CancelledAs(a, policy, values, id);
    } else {
      ShelfNotMoved(a, o, ShelfNow(db, id), id);
    }
  }

  lemma ShelfNotMoved(a: Advance, o: Order, shelf: Stock.Shelf, id: nat)
    requires id !in Stock.Touched(a.lines) || !(PacksNow(a, o) || a.to.Cancelled?)
    ensures ShelfMoved(a, o, shelf, shelf, id)
  {
    hide Stock.Asked, Stock.Touched, Told, Sells, Marks;
    Stock.TouchedIsAsked(a.lines, id);
    if id !in Stock.Touched(a.lines) {
      NothingMovedHere(a, id);
    }
    ShelfStays(shelf);
  }

  lemma NothingMovedHere(a: Advance, id: nat)
    requires id !in Stock.Touched(a.lines)
    ensures Sells(a.lines, id, a.order) == Told(a.lines, id, Stock.ReservationRelease, false, Stock.ForOrder(a.order))
            == []
  {
    ToldNothing(a.lines, id, Stock.ReservationRelease, false, Stock.ForOrder(a.order));
    SellsNothing(a.lines, id, a.order);
  }

  lemma {:induction false} SellsNothing(lines: seq<Stock.Line>, id: nat, order: nat)
    requires id !in Stock.Touched(lines)
    ensures Sells(lines, id, order) == []
  {
    if lines != [] {
      SellsNothing(lines[1..], id, order);
    }
  }

  /** The coupon with the order's one use given back. */
  predicate GivenBack(before: Coupons.Coupon, after: Coupons.Coupon, order: nat) {
    && after.usageLimit == before.usageLimit && after.perCustomer == before.perCustomer
    && after.usedCount == before.usedCount - 1
    && |after.redemptions| == |before.redemptions|
    && forall i :: 0 <= i < |before.redemptions| ==>
         var r := before.redemptions[i];
         after.redemptions[i] == if r.order == order then r.(released := true) else r
  }

  lemma {:induction false} WithoutEach(redemptions: seq<Coupons.Redemption>, order: nat, i: nat)
    requires i < |redemptions|
    ensures Coupons.Without(redemptions, order)[i] ==
            if redemptions[i].order == order then redemptions[i].(released := true) else redemptions[i]
  {
    if i < |redemptions| - 1 {
      WithoutEach(redemptions[..|redemptions| - 1], order, i);
    }
  }

  lemma ReleasedIsBack(c: Coupons.Coupon, order: nat)
    requires Coupons.CouponOk(c) && Coupons.LiveOf(c.redemptions, order) == 1
    ensures GivenBack(c, Coupons.Release(c, order), order)
  {
    hide Coupons.CouponOk, Coupons.LiveOf, Coupons.Without;
    Coupons.ReleaseKeepsOk(c, order);
    var after := Coupons.Release(c, order);
    forall i | 0 <= i < |c.redemptions|
      ensures after.redemptions[i] ==
              if c.redemptions[i].order == order then c.redemptions[i].(released := true) else c.redemptions[i]
    {
      WithoutEach(c.redemptions, order, i);
    }
  }

  lemma MoveUse(a: Advance, policy: Stock.Policy, db: Database, coupon: nat)
    requires Moveable(a, policy, db) && a.to.Cancelled? && a.coupon == Some(coupon) && CouponNow(db, coupon).Some?
    ensures Coupons.CouponOk(CouponNow(db, coupon).value)
    ensures Coupons.LiveOf(CouponNow(db, coupon).value.redemptions, a.order) == 1
  {
    hide Coupons.LiveOf, Coupons.Names, Coupons.CouponOk;
    assert RowOk(policy, CouponAt(coupon), db[CouponAt(coupon)]);
    assert UseTallies(RedemptionsIn(Read(db, CouponAt(coupon))), a.order, Read(db, OrderAt(a.order)), coupon);
    PackedFromProcessing(OrderMeant(a, db).value.status);
  }

  lemma MoveCouponRow(a: Advance, policy: Stock.Policy, db: Database, coupon: nat)
    requires Moveable(a, policy, db)
    ensures var before, after := CouponNow(db, coupon), CouponNow(Effect(AdvanceRecipe(a, policy), db).0, coupon);
      if a.to.Cancelled? && a.coupon == Some(coupon) && before.Some? then
        after.Some? && GivenBack(before.value, after.value, a.order)
      else after == before
  {
    hide AdvanceRecipe, Effect, Snapshot, Moveable, Keys, OrderMeant, AdvanceShelves, Coupons.Release, GivenBack,
         Coupons.CouponOk, Coupons.LiveOf, HasShelves, ShelvesAsTheyAre;
    MoveRow(a, policy, db, CouponAt(coupon));
    AdvanceIsRead(a, policy, db);
    if a.to.Cancelled? && a.coupon == Some(coupon) && CouponNow(db, coupon).Some? {
      MoveUse(a, policy, db, coupon);
      ReleasedIsBack(CouponNow(db, coupon).value, a.order);
    }
  }

  /** The rows a move may change. */
  predicate MovesRow(a: Advance, k: Key) {
    k == OrderAt(a.order) || (MovesStock(a.to) && k.ShelfAt?) || (a.to.Cancelled? && k.CouponAt?)
  }

  lemma MoveLeavesRow(a: Advance, policy: Stock.Policy, db: Database, k: Key)
    requires Moveable(a, policy, db) && !MovesRow(a, k)
    ensures Read(Effect(AdvanceRecipe(a, policy), db).0, k) == Read(db, k)
  {
    hide AdvanceRecipe, Effect, Snapshot, Moveable, Keys, OrderMeant, AdvanceShelves, Coupons.Release, WellMade,
         CanAdvance;
    AdvanceWellMade(a, policy);
    if IsClaim(k) {
      MoveGoes(a, policy, db);
      AdvanceLocksNoClaim(a, policy, k);
      LeavesRow(AdvanceRecipe(a, policy), db, k);
    } else {
      MoveRow(a, policy, db, k);
    }
  }

  lemma AdvanceLocksNoClaim(a: Advance, policy: Stock.Policy, k: Key)
    requires IsClaim(k)
    ensures k !in Keys(AdvanceRecipe(a, policy))
  {
    hide Stock.Ids, AdvanceEnds, AdvanceWrites;
  }

  lemma MoveAnswered(a: Advance, policy: Stock.Policy, db: Database)
    requires ShopOk(policy, db) && Tally(db)
    ensures var (after, answer), stops := Effect(AdvanceRecipe(a, policy), db), StopsMove(a, policy, db);
      if stops.Some? then after == db && answer == stops.value else answer == Made(Moved(a.order, a.to))
  {
    hide Snapshot, AdvanceEnds, AdvanceShelves, AdvanceCoupons, ShelfRows, CanPack, Keys, Tally, ShopOk;
    var c := AdvanceRecipe(a, policy);
    MoveIsStopped(a, policy, db);
    AdvanceIsRead(a, policy, db);
    if StopsMove(a, policy, db).Some? {
      EffectStops(c, db);
    } else {
      EffectGoes(c, db);
    }
  }

  /** A move of a tallying shop's order is made if and only if it is one of the steps, and packing finds on every
      shelf what the order asks of it; an order already there is left as it is. Made, the order has the status and,
      packed, its goods have gone: each hold sold, once; cancelled, each hold and its coupon's one use are given
      back; and nothing else is touched. */
  lemma MoveAnswers(a: Advance, policy: Stock.Policy, db: Database)
    requires ShopOk(policy, db) && Tally(db)
    ensures var (after, answer), o := Effect(AdvanceRecipe(a, policy), db), OrderMeant(a, db);
      if o.None? then after == db && answer == Refused(NoSuchOrder)
      else if o.value.status == a.to then after == db && answer == Unchanged
      else if (o.value.status, a.to) !in STEPS then after == db && answer == Refused(WrongStatus)
      else if a.to.Cancelled? && o.value.committed then after == db && answer == Refused(StockHasLeft)
      else if PacksNow(a, o.value) && !CanPack(policy, a.lines, db) then
        after == db && answer == Refused(InsufficientStock)
      else
        && answer == Made(Moved(a.order, a.to))
        && Read(after, OrderAt(a.order)) ==
             Some(AnOrder(o.value.(status := a.to, committed := o.value.committed || a.to.Packed?)))
        && (forall id: nat :: ShelfMoved(a, o.value, ShelfNow(db, id), ShelfNow(after, id), id))
        && (forall coupon: nat ::
              if a.to.Cancelled? && a.coupon == Some(coupon) && CouponNow(db, coupon).Some? then
                CouponNow(after, coupon).Some? &&
                GivenBack(CouponNow(db, coupon).value, CouponNow(after, coupon).value, a.order)
              else CouponNow(after, coupon) == CouponNow(db, coupon))
        && forall k: Key | !MovesRow(a, k) :: Read(after, k) == Read(db, k)
  {
    hide Effect, AdvanceRecipe, ShelfMoved, CouponNow, GivenBack, CanPack, MovesRow, Tally, ShopOk, ShelfNow;
    MoveAnswered(a, policy, db);
    if StopsMove(a, policy, db).None? {
      MoveRow(a, policy, db, OrderAt(a.order));
      forall id: nat
        ensures ShelfMoved(a, OrderMeant(a, db).value, ShelfNow(db, id),
                           ShelfNow(Effect(AdvanceRecipe(a, policy), db).0, id), id)
      {
        MoveShelfRow(a, policy, db, id);
      }
      forall coupon: nat
        ensures var after := Effect(AdvanceRecipe(a, policy), db).0;
          if a.to.Cancelled? && a.coupon == Some(coupon) && CouponNow(db, coupon).Some? then
            CouponNow(after, coupon).Some? &&
            GivenBack(CouponNow(db, coupon).value, CouponNow(after, coupon).value, a.order)
          else CouponNow(after, coupon) == CouponNow(db, coupon)
      {
        MoveCouponRow(a, policy, db, coupon);
      }
      forall k: Key | !MovesRow(a, k) ensures Read(Effect(AdvanceRecipe(a, policy), db).0, k) == Read(db, k) {
        MoveLeavesRow(a, policy, db, k);
      }
    }
  }
}
