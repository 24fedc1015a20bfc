/** A count sheet applied, statement by statement: every line looked at under the locks, then every
    line adjusted. */
module CountService {
  import opened Wrappers
  import opened RowLocks
  import opened Recipes
  import opened Shop
  import opened CashBook
  import opened StockRoom
  import opened StockCounts
  import opened Backend
  import opened StockService
  import Stock = StockLedger

  lemma CountReads(a: Applying, db: Database)
    ensures var values := Snapshot(Keys(CountRecipe(a)), db);
      && CountAt(a.count) in values && values[CountAt(a.count)] == Read(db, CountAt(a.count))
      && BranchAt(a.branch) in values
      && HasShelves(values, Stock.Ids(Shelves(a.lines)))
      && (forall id :: id in Stock.Touched(Shelves(a.lines)) ==> ShelfOf(values, id) == ShelfNow(db, id))
  {
    hide Stock.Ids, Stock.Touched, Shelves, Snapshot;
    var c := CountRecipe(a);
    var values := Snapshot(Keys(c), db);
    Stock.IdsAscend(Shelves(a.lines));
    assert c.after[0] == CountAt(a.count) && c.after[1] == BranchAt(a.branch);
    SnapshotHas(Keys(c), db, CountAt(a.count));
    SnapshotHas(Keys(c), db, BranchAt(a.branch));
    forall id | id in Stock.Ids(Shelves(a.lines))
      ensures ShelfAt(id) in values && ShelfOf(values, id) == ShelfNow(db, id)
    {
      ShelfKeyIn(Stock.Ids(Shelves(a.lines)), id);
      assert ShelfAt(id) in Keys(c);
      SnapshotHas(Keys(c), db, ShelfAt(id));
    }
  }

  /** Some line counts up what was never received, as the shelves are. */
  predicate RisesUnreceived(lines: seq<CountLine>, db: Database) {
    exists i :: 0 <= i < |lines| && lines[i].counted > ShelfNow(db, lines[i].shelf).onHand &&
                !EverReceived(ShelfNow(db, lines[i].shelf).ledger)
  }

  lemma UnreceivedAsRead(a: Applying, db: Database)
    ensures Unreceived(a.lines, Snapshot(Keys(CountRecipe(a)), db)) <==> RisesUnreceived(a.lines, db)
  {
    hide Snapshot, Keys, CountRecipe, EverReceived, ShelfOf, ShelfNow;
    CountReads(a, db);
    forall i | 0 <= i < |a.lines|
      ensures ShelfOf(Snapshot(Keys(CountRecipe(a)), db), a.lines[i].shelf) == ShelfNow(db, a.lines[i].shelf)
    {
      LineIsTouched(a.lines, i);
    }
  }

  function CountStops(a: Applying, db: Database): Option<Refusal> {
    match SheetIn(Read(db, CountAt(a.count)))
    case None => Some(NoSuchCount)
    case Some(sheet) =>
      if sheet.lines != a.lines then Some(NoSuchCount)
      else if !sheet.open then Some(CountClosed)
      else if a.lines == [] then Some(NothingCounted)
      else if RisesUnreceived(a.lines, db) then Some(NeverReceived)
      else None
  }

  lemma CountEnds(a: Applying, db: Database)
    ensures Ends(CountRecipe(a), db) == Refuse(CountStops(a, db))
  {
    hide Snapshot, Keys, Unreceived, RisesUnreceived, Shelves, HasShelves;
    CountReads(a, db);
    UnreceivedAsRead(a, db);
  }

  function CountRows(a: Applying, sheet: Sheet, db: Database): Database {
    (db + ShelfRows(Counted(HeldShelves(db, Stock.Touched(Shelves(a.lines))), a.lines)))
      [CountAt(a.count) := ASheet(sheet.(open := false))]
  }

  lemma CountLeaves(a: Applying, db: Database)
    requires SheetIn(Read(db, CountAt(a.count))).Some?
    ensures Leaves(CountRecipe(a), db) ==
            (CountRows(a, SheetIn(Read(db, CountAt(a.count))).value, db), Made(CountApplied(a.count)))
  {
    hide Snapshot, Keys, Shelves, Counted, ShelfRows, Stock.Touched, ShelfOf, ShelfNow;
    CountReads(a, db);
    var touched, values := Stock.Touched(Shelves(a.lines)), Snapshot(Keys(CountRecipe(a)), db);
    assert ShelvesOf(values, touched) == HeldShelves(db, touched);
    var sheet := SheetIn(Read(db, CountAt(a.count))).value;
    WrittenTo(db, ShelfRows(Counted(HeldShelves(db, touched), a.lines)), CountAt(a.count),
        ASheet(sheet.(open := false)));
  }

  lemma WrittenTo(db: Database, rows: Database, k: Key, row: Row)
    ensures (db + rows)[k := row] == db + rows[k := row]
  {
  }

  lemma CountedFirst(rows: map<nat, Stock.Shelf>, lines: seq<CountLine>)
    requires Stock.Touched(Shelves(lines)) <= rows.Keys && lines != []
    requires lines[0].shelf in rows && Stock.Touched(Shelves(lines[1..])) <= rows.Keys
    ensures Counted(rows, lines) ==
            Counted(rows[lines[0].shelf := Corrected(rows[lines[0].shelf], lines[0].counted)], lines[1..])
  {
  }

  lemma NoneCounted(rows: map<nat, Stock.Shelf>, lines: seq<CountLine>)
    requires lines == []
    ensures Stock.Touched(Shelves(lines)) == {} && Counted(rows, lines) == rows
  {
  }

  class StockCountService {
    const db: Store
    const stock: StockService

    constructor (db: Store, stock: StockService)
      ensures this.db == db && this.stock == stock
    {
      this.db, this.stock := db, stock;
    }

    /** The lines that rise, looked at together. */
    method AllReceived(lines: seq<CountLine>, shelves: map<nat, Stock.Shelf>) returns (ok: bool)
      requires forall i :: 0 <= i < |lines| ==> lines[i].shelf in shelves
      ensures ok <==> forall i :: 0 <= i < |lines| ==>
                        lines[i].counted <= shelves[lines[i].shelf].onHand ||
                            EverReceived(shelves[lines[i].shelf].ledger)
    {
      for i := 0 to |lines|
        invariant forall j :: 0 <= j < i ==>
                    lines[j].counted <= shelves[lines[j].shelf].onHand || EverReceived(shelves[lines[j].shelf].ledger)
      {
        var shelf := shelves[lines[i].shelf];
        if lines[i].counted > shelf.onHand && !EverReceived(shelf.ledger) { return false; }
      }
      ok := true;
    }

    /** One figure made the shelf's: nothing written where it already is. */
    method AdjustOne(id: nat, shelf: Stock.Shelf, counted: int) returns (after: Stock.Shelf)
      requires Read(db.rows, ShelfAt(id)) == Some(AShelf(shelf))
      modifies db`rows
      ensures after == Corrected(shelf, counted)
      ensures db.rows == old(db.rows)[ShelfAt(id) := AShelf(after)]
    {
      hide Stock.Write;
      var delta := counted - shelf.onHand;
      after := shelf;
      if delta != 0 {
        after := db.WriteLedger(id, shelf, Stock.Adjustment, delta, Stock.Manual);
      }
    }

    method AdjustLines(held: map<nat, Stock.Shelf>, lines: seq<CountLine>, ghost start: Database)
      returns (shelves: map<nat, Stock.Shelf>)
      requires Stock.Touched(Shelves(lines)) <= held.Keys && db.rows == start + ShelfRows(held)
      modifies db`rows
      ensures shelves == Counted(held, lines)
      ensures db.rows == start + ShelfRows(shelves)
    {
      hide ShelfRows, Corrected, Stock.Touched, Shelves, Counted;
      shelves := held;
      for i := 0 to |lines|
        invariant Stock.Touched(Shelves(lines[i..])) <= shelves.Keys
        invariant Counted(shelves, lines[i..]) == Counted(held, lines)
        invariant db.rows == start + ShelfRows(shelves)
      {
        assert lines[i..][0] == lines[i] && lines[i..][1..] == lines[i + 1..];
        FirstShelf(lines[i..]);
        CountedFirst(shelves, lines[i..]);
        var id := lines[i].shelf;
        ShelfIsThere(start, shelves, id);
        var shelf := AdjustOne(id, shelves[id], lines[i].counted);
        RowsAgain(start, shelves, id, shelf);
        shelves := shelves[id := shelf];
      }
      NoneCounted(shelves, lines[|lines|..]);
    }

    /** The SELECT that locks the sheet locks its branch's row with it. */
    method Apply(a: Applying) returns (answer: Answer)
      requires stock.db == db && db.locked == []
      modifies db
      ensures db.Ran(CountOn(a, db.next), old(db.rows), answer) && db.LockedAll(CountOn(a, db.next))
    {
      hide CountRecipe, CountOn, Ends, Leaves, Shelves, Stock.Touched, ShelfOrder, ShelfRows, ShelfNow,
           RisesUnreceived, Counted, InOrder, InStep, Store.Ran, NotedAll, ShelfKeys;
      ghost var c, first := CountOn(a, db.next), db.rows;
      CountEnds(a, db.next);
      CountOnEnds(a, db.next);
      CountSteps(a, db.next);
      var locked := db.Lock(CountAt(a.count));
      var row := SheetIn(locked);
      if row.None? || row.value.lines != a.lines {
        db.Stops(c, first, Refused(NoSuchCount));
        return Refused(NoSuchCount);
      }
      var branch := db.Lock(BranchAt(a.branch));
      CountLeaves(a, db.next);
      if !row.value.open || a.lines == [] {
        answer := Refused(if !row.value.open then CountClosed else NothingCounted);
        db.Stops(c, first, answer);
        return;
      }
      var shelves := stock.Lock(Shelves(a.lines));
      ReceivedAsHeld(a.lines, db.next);
      var received := AllReceived(a.lines, shelves);
      if !received {
        db.Rollback();
        db.Stops(c, first, Refused(NeverReceived));
        return Refused(NeverReceived);
      }
      shelves := AdjustLines(shelves, a.lines, db.next);
      db.rows := db.rows[CountAt(a.count) := ASheet(row.value.(open := false))];
      answer := Made(CountApplied(a.count));
      db.Finishes(c, first, answer);
    }
  }

  lemma CountOnEnds(a: Applying, db: Database)
    ensures Ends(CountOn(a, db), db) == Ends(CountRecipe(a), db)
    ensures Leaves(CountOn(a, db), db) == Leaves(CountRecipe(a), db)
  {
    hide Ends, Leaves, CountRecipe, Shelving;
    forall k | k in CountRecipe(a).after ensures k in CountOn(a, db).after {
      CountOnHas(a, db, k);
    }
    LockingIsSame(CountRecipe(a), CountOn(a, db).after, db);
  }

  lemma CountInTurn(a: Applying, db: Database)
    ensures InOrder(CountOn(a, db)) == SheetKeys(a) + ShelfKeys(ShelfOrder(Shelves(a.lines), db))
  {
    hide ShelfOrder, Shelves, ShelfKeys;
  }

  lemma CountSteps(a: Applying, db: Database)
    ensures var c, sheet := CountOn(a, db), [CountAt(a.count)];
      var both := Noted(sheet, BranchAt(a.branch));
      var all := NotedAll(both, ShelfKeys(ShelfOrder(Shelves(a.lines), db)));
      InStep(sheet, c) && InStep(both, c) && InStep(all, c) && all == NotedAll([], InOrder(c))
  {
    hide InStep, NotedAll, Noted, ShelfOrder, Shelves, ShelfKeys, CountOn, InOrder;
    var c, sheet, shelves := CountOn(a, db), [CountAt(a.count)], ShelfKeys(ShelfOrder(Shelves(a.lines), db));
    CountInTurn(a, db);
    NotedFirst(CountAt(a.count));
    NotedNext([], sheet, BranchAt(a.branch));
    NotedJoin([], SheetKeys(a), shelves);
    assert SheetKeys(a) == sheet + [BranchAt(a.branch)];
    assert InOrder(c) == sheet + ([BranchAt(a.branch)] + shelves);
    StepsTaken(c, sheet, [BranchAt(a.branch)] + shelves);
    StepsTaken(c, SheetKeys(a), shelves);
    StepsTaken(c, SheetKeys(a) + shelves, []);
  }

  lemma ShelfIsThere(start: Database, shelves: map<nat, Stock.Shelf>, id: nat)
    requires id in shelves
    ensures Read(start + ShelfRows(shelves), ShelfAt(id)) == Some(AShelf(shelves[id]))
  {
  }

  lemma ReceivedAsHeld(lines: seq<CountLine>, db: Database)
    ensures var shelves := HeldShelves(db, Stock.Touched(Shelves(lines)));
      && (forall i :: 0 <= i < |lines| ==> lines[i].shelf in shelves)
      && (RisesUnreceived(lines, db) <==>
            !forall i :: 0 <= i < |lines| ==>
              lines[i].counted <= shelves[lines[i].shelf].onHand || EverReceived(shelves[lines[i].shelf].ledger))
  {
    hide EverReceived, ShelfNow, Shelves;
    forall i | 0 <= i < |lines| ensures lines[i].shelf in Stock.Touched(Shelves(lines)) {
      LineIsTouched(lines, i);
    }
  }
}
