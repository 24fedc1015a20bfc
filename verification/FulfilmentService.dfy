/** An order moved on, statement by statement: its holds sold as it is packed, or given back with its
    coupon's use as it is cancelled. */
module FulfilmentService {
  import opened Wrappers
  import opened RowLocks
  import opened Recipes
  import opened Shop
  import opened Tallies
  import opened CashBook
  import opened StockRoom
  import opened Orders
  import opened Fulfilment
  import opened Backend
  import opened StockService
  import opened OrderService
  import Stock = StockLedger
  import Coupons = CouponBook

  /** The lines whose shelf has sold this order nothing yet. */
  function Awaited(shelves: map<nat, Stock.Shelf>, lines: seq<Stock.Line>, order: nat): seq<Stock.Line>
    requires Stock.Touched(lines) <= shelves.Keys
  {
    if lines == [] then []
    else if lines[0].quantity == 0 then Awaited(shelves, lines[1..], order)
    else
      (if SoldFor(shelves[lines[0].shelf].ledger, order) then [] else [lines[0]]) + Awaited(shelves, lines[1..], order)
  }

  lemma {:induction false} AwaitedIsUnsold(values: Values, shelves: map<nat, Stock.Shelf>, lines: seq<Stock.Line>,
      order: nat)
    requires Stock.Touched(lines) <= shelves.Keys && forall id :: id in shelves ==> shelves[id] == ShelfOf(values, id)
    ensures Awaited(shelves, lines, order) == Unsold(values, lines, order)
  {
    if lines != [] {
      AwaitedIsUnsold(values, shelves, lines[1..], order);
    }
  }

  lemma {:induction false} AwaitedIsTouched(shelves: map<nat, Stock.Shelf>, lines: seq<Stock.Line>, order: nat)
    requires Stock.Touched(lines) <= shelves.Keys
    ensures Stock.Touched(Awaited(shelves, lines, order)) <= Stock.Touched(lines)
  {
    if lines != [] {
      AwaitedIsTouched(shelves, lines[1..], order);
      var rest := Awaited(shelves, lines[1..], order);
      assert ([lines[0]] + rest)[1..] == rest;
      assert [] + rest == rest;
    }
  }

  lemma ReleasedFirst(rows: map<nat, Stock.Shelf>, lines: seq<Stock.Line>, order: nat)
    requires Stock.Covers(rows, lines) && lines != []
    ensures Stock.Covers(rows, lines[1..])
    ensures if lines[0].quantity == 0 then Released(rows, lines, order) == Released(rows, lines[1..], order)
            else
              lines[0].shelf in rows &&
              Released(rows, lines, order) ==
                Released(rows[lines[0].shelf := ReleasedOne(rows[lines[0].shelf], lines[0].quantity, order)],
                    lines[1..], order)
  {
  }

  lemma ConsumedFirst(policy: Stock.Policy, rows: map<nat, Stock.Shelf>, lines: seq<Stock.Line>, order: nat)
    requires Stock.Covers(rows, lines) && lines != []
    ensures Stock.Covers(rows, lines[1..])
    ensures if lines[0].quantity == 0 then
        Consumed(policy, rows, lines, order) == Consumed(policy, rows, lines[1..], order)
            else
              lines[0].shelf in rows &&
              var shelf := ConsumedOne(policy, rows[lines[0].shelf], lines[0].quantity, order);
              Consumed(policy, rows, lines, order) ==
                if shelf.None? then None else Consumed(policy, rows[lines[0].shelf := shelf.value], lines[1..], order)
  {
  }

  lemma NoneLeft(policy: Stock.Policy, rows: map<nat, Stock.Shelf>, order: nat)
    ensures Released(rows, [], order) == rows && Consumed(policy, rows, [], order) == Some(rows)
  {
  }

  lemma RowOfShelf(start: Database, shelves: map<nat, Stock.Shelf>, id: nat)
    requires id in shelves
    ensures Read(start + ShelfRows(shelves), ShelfAt(id)) == Some(AShelf(shelves[id]))
  {
  }

  class HoldService {
    const db: Store
    const stock: StockService

    constructor (db: Store, stock: StockService)
      ensures this.db == db && this.stock == stock
    {
      this.db, this.stock := db, stock;
    }

    /** No more of the hold given back than the shelf still has: nothing written if it has none. */
    method ReleaseOne(id: nat, shelf: Stock.Shelf, quantity: nat, order: nat) returns (after: Stock.Shelf)
      requires Read(db.rows, ShelfAt(id)) == Some(AShelf(shelf))
      modifies db`rows
      ensures after == ReleasedOne(shelf, quantity, order)
      ensures db.rows == old(db.rows)[ShelfAt(id) := AShelf(after)]
    {
      hide Stock.Write;
      var released := if quantity < shelf.reserved then quantity else shelf.reserved;
      after := shelf;
      if released != 0 {
        after := db.WriteLedger(id, shelf, Stock.ReservationRelease, -released, Stock.ForOrder(order));
      }
    }

    /** The hold released, then the goods sold. */
    method ConsumeOne(id: nat, shelf: Stock.Shelf, quantity: nat, order: nat) returns (after: Option<Stock.Shelf>)
      requires stock.db == db && Read(db.rows, ShelfAt(id)) == Some(AShelf(shelf))
      modifies db`rows
      ensures after == ConsumedOne(stock.policy, shelf, quantity, order)
      ensures after.Some? ==> db.rows == old(db.rows)[ShelfAt(id) := AShelf(after.value)]
    {
      hide Stock.Write, ReleasedOne, CannotReduce;
      var released := ReleaseOne(id, shelf, quantity, order);
      var why := stock.CheckCanReduce(released, quantity);
      if why.Some? { return None; }
      var sold := db.WriteLedger(id, released, Stock.Sale, -(quantity as int), Stock.ForOrder(order));
      WrittenAgain(old(db.rows), ShelfAt(id), AShelf(released), AShelf(sold));
      after := Some(sold);
    }

    method ReleaseLines(held: map<nat, Stock.Shelf>, lines: seq<Stock.Line>, order: nat, ghost start: Database)
      returns (shelves: map<nat, Stock.Shelf>)
      requires stock.db == db && Stock.Covers(held, lines) && db.rows == start + ShelfRows(held)
      modifies db`rows
      ensures shelves == Released(held, lines, order)
      ensures db.rows == start + ShelfRows(shelves)
    {
      hide Released, ReleasedOne, Stock.Touched, ShelfRows;
      shelves := held;
      for i := 0 to |lines|
        invariant Stock.Covers(shelves, lines[i..])
        invariant Released(shelves, lines[i..], order) == Released(held, lines, order)
        invariant db.rows == start + ShelfRows(shelves)
      {
        assert lines[i..][0] == lines[i] && lines[i..][1..] == lines[i + 1..];
        ReleasedFirst(shelves, lines[i..], order);
        if lines[i].quantity != 0 {
          RowOfShelf(start, shelves, lines[i].shelf);
          var shelf := ReleaseOne(lines[i].shelf, shelves[lines[i].shelf], lines[i].quantity, order);
          RowsAgain(start, shelves, lines[i].shelf, shelf);
          shelves := shelves[lines[i].shelf := shelf];
        }
      }
      NoneLeft(stock.policy, shelves, order);
    }

    method ConsumeLines(held: map<nat, Stock.Shelf>, lines: seq<Stock.Line>, order: nat, ghost start: Database)
      returns (after: Option<map<nat, Stock.Shelf>>)
      requires stock.db == db && Stock.Covers(held, lines) && db.rows == start + ShelfRows(held)
      modifies db`rows
      ensures after == Consumed(stock.policy, held, lines, order)
      ensures after.Some? ==> db.rows == start + ShelfRows(after.value)
    {
      hide Consumed, ConsumedOne, Stock.Touched, ShelfRows;
      var shelves: map<nat, Stock.Shelf> := held;
      for i := 0 to |lines|
        invariant Stock.Covers(shelves, lines[i..])
        invariant Consumed(stock.policy, shelves, lines[i..], order) == Consumed(stock.policy, held, lines, order)
        invariant db.rows == start + ShelfRows(shelves)
      {
        assert lines[i..][0] == lines[i] && lines[i..][1..] == lines[i + 1..];
        ConsumedFirst(stock.policy, shelves, lines[i..], order);
        if lines[i].quantity != 0 {
          RowOfShelf(start, shelves, lines[i].shelf);
          var shelf := ConsumeOne(lines[i].shelf, shelves[lines[i].shelf], lines[i].quantity, order);
          if shelf.None? { return None; }
          RowsAgain(start, shelves, lines[i].shelf, shelf.value);
          shelves := shelves[lines[i].shelf := shelf.value];
        }
      }
      NoneLeft(stock.policy, shelves, order);
      after := Some(shelves);
    }

    /** A packing tried again sells nothing twice. */
    method FindAwaited(shelves: map<nat, Stock.Shelf>, lines: seq<Stock.Line>, order: nat)
      returns (pending: seq<Stock.Line>)
      requires Stock.Touched(lines) <= shelves.Keys
      ensures pending == Awaited(shelves, lines, order)
    {
      pending := [];
      for i := 0 to |lines|
        invariant Stock.Touched(lines[i..]) <= shelves.Keys
        invariant pending + Awaited(shelves, lines[i..], order) == Awaited(shelves, lines, order)
      {
        assert lines[i..][1..] == lines[i + 1..];
        if lines[i].quantity > 0 && !SoldFor(shelves[lines[i].shelf].ledger, order) {
          pending := pending + [lines[i]];
        }
      }
    }
  }

  // ---- What the move comes to on a database -----------------------------------------------

  lemma AdvanceReads(a: Advance, policy: Stock.Policy, db: Database)
    ensures var values := Snapshot(Keys(AdvanceRecipe(a, policy)), db);
      && OrderAt(a.order) in values && values[OrderAt(a.order)] == Read(db, OrderAt(a.order))
      && (MovesStock(a.to) ==> HasShelves(values, Stock.Ids(a.lines)))
      && (MovesStock(a.to) ==> forall id :: id in Stock.Touched(a.lines) ==> ShelfOf(values, id) == ShelfNow(db, id))
      && (a.to.Cancelled? && a.coupon.Some? ==> CouponOf(values, a.coupon.value) == CouponNow(db, a.coupon.value))
  {
    hide Stock.Ids, Stock.Touched, Snapshot;
    var c := AdvanceRecipe(a, policy);
    var values := Snapshot(Keys(c), db);
    Stock.IdsAscend(a.lines);
    assert c.after[0] == OrderAt(a.order);
    SnapshotHas(Keys(c), db, OrderAt(a.order));
    if MovesStock(a.to) {
      forall id | id in Stock.Ids(a.lines) ensures ShelfAt(id) in values && ShelfOf(values, id) == ShelfNow(db, id) {
        ShelfKeyIn(Stock.Ids(a.lines), id);
        assert ShelfAt(id) in Keys(c);
        SnapshotHas(Keys(c), db, ShelfAt(id));
      }
    }
    if a.to.Cancelled? && a.coupon.Some? {
      assert CouponKeys(a.coupon)[0] == CouponAt(a.coupon.value);
      assert CouponAt(a.coupon.value) in Keys(c);
      SnapshotHas(Keys(c), db, CouponAt(a.coupon.value));
    }
  }

  /** Packed, as the shelves are. */
  function PackedShelves(a: Advance, policy: Stock.Policy, db: Database): (after: Option<map<nat, Stock.Shelf>>)
    ensures after.Some? ==> after.value.Keys == Stock.Touched(a.lines)
  {
    var shelves := HeldShelves(db, Stock.Touched(a.lines));
    AwaitedIsTouched(shelves, a.lines, a.order);
    Consumed(policy, shelves, Awaited(shelves, a.lines, a.order), a.order)
  }

  lemma PackedAsRead(a: Advance, policy: Stock.Policy, db: Database)
    requires MovesStock(a.to)
    ensures var values := Snapshot(Keys(AdvanceRecipe(a, policy)), db);
      && ShelvesOf(values, Stock.Touched(a.lines)) == HeldShelves(db, Stock.Touched(a.lines))
      && Packing(a, policy, values) == PackedShelves(a, policy, db)
  {
    hide Stock.Ids, Stock.Touched, Snapshot, Keys, AdvanceRecipe, Consumed, ShelfOf, ShelfNow;
    var values := Snapshot(Keys(AdvanceRecipe(a, policy)), db);
    AdvanceReads(a, policy, db);
    AwaitedIsUnsold(values, HeldShelves(db, Stock.Touched(a.lines)), a.lines, a.order);
    assert ShelvesOf(values, Stock.Touched(a.lines)) == HeldShelves(db, Stock.Touched(a.lines));
  }

  function AdvanceStops(a: Advance, policy: Stock.Policy, db: Database): Option<Answer> {
    var row := OrderIn(Read(db, OrderAt(a.order)));
    if row.None? || row.value.lines != a.lines || row.value.coupon != a.coupon then Some(Refused(NoSuchOrder))
    else if row.value.status == a.to then Some(Unchanged)
    else if a.to !in Next(row.value.status) then Some(Refused(WrongStatus))
    else if a.to.Cancelled? && row.value.committed then Some(Refused(StockHasLeft))
    else if a.to.Packed? && !row.value.committed && PackedShelves(a, policy, db).None? then
        Some(Refused(InsufficientStock))
    else None
  }

  lemma AdvanceStopsAsRead(a: Advance, policy: Stock.Policy, db: Database)
    ensures Ends(AdvanceRecipe(a, policy), db) == AdvanceStops(a, policy, db)
  {
    hide Snapshot, Keys, Packing, PackedShelves, Stock.Ids, Stock.Touched;
    AdvanceReads(a, policy, db);
    if MovesStock(a.to) {
      PackedAsRead(a, policy, db);
    }
  }

  function AdvanceShelfRows(a: Advance, policy: Stock.Policy, o: Order, db: Database): map<nat, Stock.Shelf> {
    if a.to.Packed? && !o.committed then
      var packed := PackedShelves(a, policy, db);
      if packed.Some? then packed.value else map[]
    else if a.to.Cancelled? then Released(HeldShelves(db, Stock.Touched(a.lines)), a.lines, a.order)
    else map[]
  }

  function ReleasedCoupon(a: Advance, db: Database): Database {
    if !a.to.Cancelled? || a.coupon.None? || CouponNow(db, a.coupon.value).None? then map[]
    else map[CouponAt(a.coupon.value) := ACoupon(Coupons.Release(CouponNow(db, a.coupon.value).value, a.order))]
  }

  function AdvanceRows(a: Advance, policy: Stock.Policy, o: Order, db: Database): Database {
    (db + ShelfRows(AdvanceShelfRows(a, policy, o, db)) + ReleasedCoupon(a, db))
      [OrderAt(a.order) := AnOrder(o.(status := a.to, committed := o.committed || a.to.Packed?))]
  }

  lemma AdvanceWrote(a: Advance, policy: Stock.Policy, db: Database)
    requires OrderIn(Read(db, OrderAt(a.order))).Some?
    ensures var c, o := AdvanceRecipe(a, policy), OrderIn(Read(db, OrderAt(a.order))).value;
      c.write(Snapshot(Keys(c), db)) ==
        ((ShelfRows(AdvanceShelfRows(a, policy, o, db)) + ReleasedCoupon(a, db))
           [OrderAt(a.order) := AnOrder(o.(status := a.to, committed := o.committed || a.to.Packed?))],
         Made(Moved(a.order, a.to)))
  {
    hide Snapshot, Keys, Packing, PackedShelves, Stock.Ids, Stock.Touched, ShelfRows, Released, Coupons.Release;
    AdvanceReads(a, policy, db);
    if MovesStock(a.to) {
      PackedAsRead(a, policy, db);
    }
  }

  lemma WrittenLast(db: Database, shelves: Database, coupons: Database, k: Key, row: Row)
    ensures (db + shelves + coupons)[k := row] == db + (shelves + coupons)[k := row]
  {
  }

  lemma AdvanceLeaves(a: Advance, policy: Stock.Policy, db: Database)
    requires OrderIn(Read(db, OrderAt(a.order))).Some?
    ensures Leaves(AdvanceRecipe(a, policy), db) ==
            (AdvanceRows(a, policy, OrderIn(Read(db, OrderAt(a.order))).value, db), Made(Moved(a.order, a.to)))
  {
    hide Snapshot, Keys, ShelfRows, AdvanceShelfRows, ReleasedCoupon, AdvanceWrites;
    var o := OrderIn(Read(db, OrderAt(a.order))).value;
    AdvanceWrote(a, policy, db);
    WrittenLast(db, ShelfRows(AdvanceShelfRows(a, policy, o, db)), ReleasedCoupon(a, db), OrderAt(a.order),
                AnOrder(o.(status := a.to, committed := o.committed || a.to.Packed?)));
  }

  lemma CouponApart(a: Advance, db: Database, shelves: map<nat, Stock.Shelf>)
    requires a.coupon.Some?
    ensures CouponNow(db + ShelfRows(shelves), a.coupon.value) == CouponNow(db, a.coupon.value)
  {
  }

  lemma NoShelves(db: Database)
    ensures db + ShelfRows(map[]) == db && db + map[] == db
  {
  }

  lemma CouponReturned(a: Advance, db: Database, before: Database, after: Database)
    requires a.to.Cancelled?
    requires after ==
      if a.coupon.None? || CouponNow(db, a.coupon.value).None? then before
      else before[CouponAt(a.coupon.value) := ACoupon(Coupons.Release(CouponNow(db, a.coupon.value).value, a.order))]
    ensures after == before + ReleasedCoupon(a, db)
  {
    hide Coupons.Release, CouponNow;
  }

  class LifecycleService {
    const db: Store
    const holds: HoldService
    const coupons: CouponsService

    constructor (db: Store, holds: HoldService, coupons: CouponsService)
      ensures this.db == db && this.holds == holds && this.coupons == coupons
    {
      this.db, this.holds, this.coupons := db, holds, coupons;
    }

    predicate OneStore() {
      holds.db == db && holds.stock.db == db && coupons.db == db
    }

    /** Its shelves locked, and its holds become sales: false if a shelf has not the goods. */
    method Pack(a: Advance) returns (packed: bool)
      requires OneStore() && db.locked != []
      modifies db`rows, db`locked
      ensures db.locked == NotedAll(old(db.locked), ShelfKeys(ShelfOrder(a.lines, old(db.rows))))
      ensures packed <==> PackedShelves(a, holds.stock.policy, old(db.rows)).Some?
      ensures packed ==> db.rows == old(db.rows) + ShelfRows(PackedShelves(a, holds.stock.policy, old(db.rows)).value)
    {
      hide Consumed, Awaited, Stock.Touched, ShelfOrder, ShelfRows, NotedAll;
      var shelves := holds.stock.Lock(a.lines);
      AwaitedIsTouched(shelves, a.lines, a.order);
      var awaited := holds.FindAwaited(shelves, a.lines, a.order);
      var after := holds.ConsumeLines(shelves, awaited, a.order, old(db.rows));
      packed := after.Some?;
    }

    /** Its holds given back, then its coupon's use. */
    method Cancel(a: Advance)
      requires OneStore() && a.to.Cancelled? && db.locked != []
      modifies db`rows, db`locked
      ensures db.locked ==
        WithKey(NotedAll(old(db.locked), ShelfKeys(ShelfOrder(a.lines, old(db.rows)))), CouponAsked(a))
      ensures db.rows == old(db.rows) +
        ShelfRows(Released(HeldShelves(old(db.rows), Stock.Touched(a.lines)), a.lines, a.order)) +
            ReleasedCoupon(a, old(db.rows))
    {
      hide Released, Stock.Touched, ShelfOrder, ShelfRows, HeldShelves, Coupons.Release, CouponNow, ReleasedCoupon,
           NotedAll, Noted;
      var shelves := holds.stock.Lock(a.lines);
      shelves := holds.ReleaseLines(shelves, a.lines, a.order, old(db.rows));
      if a.coupon.Some? {
        CouponApart(a, old(db.rows), shelves);
        coupons.Release(a.coupon.value, a.order);
      }
      CouponReturned(a, old(db.rows), old(db.rows) + ShelfRows(shelves), db.rows);
    }

    method Move(a: Advance) returns (answer: Answer)
      requires OneStore() && db.locked == []
      modifies db
      ensures db.Ran(AdvanceOn(a, holds.stock.policy, db.next), old(db.rows), answer)
      ensures !GoodsLeft(OrderIn(Read(db.next, OrderAt(a.order)))) ==>
          db.LockedAll(AdvanceOn(a, holds.stock.policy, db.next))
    {
      hide AdvanceRecipe, AdvanceOn, ShelfOrder, Ends, Leaves, ShelfRows, PackedShelves, Released, HeldShelves,
           Stock.Touched, ReleasedCoupon, Next, InOrder, InStep, Store.Ran, NotedAll, WithKey, ShelfKeys;
      ghost var policy, first := holds.stock.policy, db.rows;
      ghost var c := AdvanceOn(a, policy, db.next);
      AdvanceStopsAsRead(a, policy, db.next);
      AdvanceOnEnds(a, policy, db.next);
      AdvanceSteps(a, policy, db.next);
      var row := db.Lock(OrderAt(a.order));
      var order := OrderIn(row);
      if order.None? {
        db.Stops(c, first, Refused(NoSuchOrder));
        return Refused(NoSuchOrder);
      }
      var o := order.value;
      AdvanceLeaves(a, policy, db.next);
      var why := CheckMove(a, o);
      if why.Some? {
        db.Stops(c, first, why.value);
        return why.value;
      }
      NoShelves(db.next);
      NoCoupon(a, db.next);
      if a.to.Packed? && !o.committed {
        var packed := Pack(a);
        if !packed {
          db.Rollback();
          db.Stops(c, first, Refused(InsufficientStock));
          return Refused(InsufficientStock);
        }
        NothingMore(db.rows);
      } else if a.to.Cancelled? {
        Cancel(a);
      }
      var committed := o.committed || a.to.Packed?;
      db.rows := db.rows[OrderAt(a.order) := AnOrder(o.(status := a.to, committed := committed))];
      answer := Made(Moved(a.order, a.to));
      db.Finishes(c, first, answer);
    }

    /** What is in the move's way before any shelf is locked. */
    method CheckMove(a: Advance, o: Order) returns (why: Option<Answer>)
      ensures why ==
        if o.lines != a.lines || o.coupon != a.coupon then Some(Refused(NoSuchOrder))
        else if o.status == a.to then Some(Unchanged)
        else if a.to !in Next(o.status) then Some(Refused(WrongStatus))
        else if a.to.Cancelled? && o.committed then Some(Refused(StockHasLeft))
        else None
    {
      hide Next;
      if o.lines != a.lines || o.coupon != a.coupon { return Some(Refused(NoSuchOrder)); }
      if o.status == a.to { return Some(Unchanged); }
      if a.to !in Next(o.status) { return Some(Refused(WrongStatus)); }
      if a.to.Cancelled? && o.committed { return Some(Refused(StockHasLeft)); }
      why := None;
    }
  }

  // ---- The rows a move locks, in turn ---------------------------------------------------

  /** Its goods have left. */
  predicate GoodsLeft(order: Option<Order>) {
    order.Some? && order.value.committed
  }

  function CouponAsked(a: Advance): Option<Key> {
    if a.coupon.Some? then Some(CouponAt(a.coupon.value)) else None
  }

  lemma AdvanceOnEnds(a: Advance, policy: Stock.Policy, db: Database)
    ensures Ends(AdvanceOn(a, policy, db), db) == Ends(AdvanceRecipe(a, policy), db)
    ensures Leaves(AdvanceOn(a, policy, db), db) == Leaves(AdvanceRecipe(a, policy), db)
  {
    hide Ends, Leaves, AdvanceRecipe, Shelving;
    forall k | k in AdvanceRecipe(a, policy).after ensures k in AdvanceOn(a, policy, db).after {
      AdvanceOnHas(a, policy, db, k);
    }
    LockingIsSame(AdvanceRecipe(a, policy), AdvanceOn(a, policy, db).after, db);
  }

  lemma AdvanceInTurn(a: Advance, policy: Stock.Policy, db: Database)
    ensures var c, order, shelves := AdvanceOn(a, policy, db), [OrderAt(a.order)], ShelfKeys(ShelfOrder(a.lines, db));
      InOrder(c) ==
        if !MovesStock(a.to) then order
        else if a.to.Cancelled? then order + shelves + KeySeq(CouponAsked(a)) else order + shelves
  {
    hide ShelfKeys;
    assert ShelfOrder([], db) == [] && ShelfKeys([]) == [] by {
      NoShelfKeys();
      NoneMade([], db);
    }
    hide ShelfOrder;
  }

  lemma AdvanceSteps(a: Advance, policy: Stock.Policy, db: Database)
    ensures var c, order, shelves := AdvanceOn(a, policy, db), [OrderAt(a.order)], ShelfKeys(ShelfOrder(a.lines, db));
      && InStep(order, c)
      && (!MovesStock(a.to) ==> order == NotedAll([], InOrder(c)))
      && (MovesStock(a.to) ==> InStep(NotedAll(order, shelves), c))
      && (a.to.Packed? ==> NotedAll(order, shelves) == NotedAll([], InOrder(c)))
      && (a.to.Cancelled? ==>
            InStep(WithKey(NotedAll(order, shelves), CouponAsked(a)), c) &&
            WithKey(NotedAll(order, shelves), CouponAsked(a)) == NotedAll([], InOrder(c)))
  {
    hide ShelfOrder, ShelfKeys, InStep, NotedAll, InOrder, AdvanceOn;
    var c, order, shelves := AdvanceOn(a, policy, db), [OrderAt(a.order)], ShelfKeys(ShelfOrder(a.lines, db));
    AdvanceInTurn(a, policy, db);
    NotedFirst(OrderAt(a.order));
    NotedJoin([], order, shelves);
    if a.to.Cancelled? {
      NotedKey(order + shelves, CouponAsked(a));
      StepsTaken(c, order, shelves + KeySeq(CouponAsked(a)));
      StepsTaken(c, order + shelves, KeySeq(CouponAsked(a)));
      StepsTaken(c, InOrder(c), []);
    } else if a.to.Packed? {
      StepsTaken(c, order, shelves);
      StepsTaken(c, order + shelves, []);
    } else {
      StepsTaken(c, order, []);
    }
  }

  lemma NoCoupon(a: Advance, db: Database)
    ensures !a.to.Cancelled? ==> ReleasedCoupon(a, db) == map[]
  {
  }

  lemma NothingMore(db: Database)
    ensures db + map[] == db
  {
  }
}
