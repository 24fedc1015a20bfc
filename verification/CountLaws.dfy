/** A count sheet in figures: when it is applied, and what it leaves on every shelf. */
module CountLaws {
  import opened Wrappers
  import opened RowLocks
  import opened Recipes
  import opened Shop
  import opened Tallies
  import opened CashBook
  import opened StockRoom
  import opened StockCounts
  import opened StockLaws
  import Stock = StockLedger

  /** Some line counts up an article no purchase or transfer ever brought to its shelf. */
  predicate CountsUpUnbrought(lines: seq<CountLine>, db: Database) {
    exists i :: 0 <= i < |lines| && lines[i].counted > ShelfNow(db, lines[i].shelf).onHand &&
                Unbrought(ShelfNow(db, lines[i].shelf).ledger)
  }

  predicate Unbrought(ledger: seq<Stock.Entry>) {
    forall i :: 0 <= i < |ledger| ==> ledger[i].kind !in {Stock.Purchase, Stock.TransferIn}
  }

  function Correcting(shelf: Stock.Shelf, counted: nat): seq<Mark> {
    if counted == shelf.onHand then [] else [Mark(Stock.Adjustment, counted - shelf.onHand, Stock.Manual)]
  }

  lemma CorrectedBecomes(shelf: Stock.Shelf, counted: nat)
    ensures Became(shelf, Corrected(shelf, counted), counted - shelf.onHand, 0, Correcting(shelf, counted))
  {
    hide Marks, Stock.Write;
    if counted == shelf.onHand {
      ShelfStays(shelf);
    } else {
      WriteMarks(shelf, Stock.Adjustment, counted - shelf.onHand, Stock.Manual);
      Stock.WriteShifts(shelf, Stock.Adjustment, counted - shelf.onHand, Stock.Manual);
    }
  }

  lemma CountReads(a: Applying, db: Database)
    ensures var values := Snapshot(Keys(CountRecipe(a)), db);
      && HasRead(CountRecipe(a), values)
      && CountAt(a.count) in values && values[CountAt(a.count)] == Read(db, CountAt(a.count))
      && BranchAt(a.branch) in values
      && HasShelves(values, Stock.Ids(StockCounts.Shelves(a.lines)))
      && forall i :: 0 <= i < |a.lines| ==> ShelfOf(values, a.lines[i].shelf) == ShelfNow(db, a.lines[i].shelf)
  {
    hide StockCounts.Shelves, CountObjection, CountWrites;
    var c, ids := CountRecipe(a), Stock.Ids(StockCounts.Shelves(a.lines));
    assert Keys(c)[0] == CountAt(a.count) && Keys(c)[1] == BranchAt(a.branch);
    forall i | 0 <= i < |ids| ensures ShelfAt(ids[i]) in Keys(c) {
      ShelfKeyIn(ids, ids[i]);
    }
    Stock.IdsAscend(StockCounts.Shelves(a.lines));
    forall i | 0 <= i < |a.lines| ensures ShelfAt(a.lines[i].shelf) in Keys(c) {
      LineIsTouched(a.lines, i);
    }
  }

  /** What stops a sheet. */
  function SheetStops(a: Applying, db: Database): Option<Refusal> {
    var sheet := SheetIn(Read(db, CountAt(a.count)));
    if sheet.None? || sheet.value.lines != a.lines then Some(NoSuchCount)
    else if !sheet.value.open then Some(CountClosed)
    else if a.lines == [] then Some(NothingCounted)
    else if CountsUpUnbrought(a.lines, db) then Some(NeverReceived)
    else None
  }

  lemma SheetStopsIt(a: Applying, db: Database)
    ensures CountObjection(a, Snapshot(Keys(CountRecipe(a)), db)) == SheetStops(a, db)
  {
    hide HasShelves, EverReceived, Unbrought, ShelfOf, ShelfNow, Snapshot, CountRecipe, Stock.Ids, StockCounts.Shelves;
    CountReads(a, db);
    var values := Snapshot(Keys(CountRecipe(a)), db);
    forall i | 0 <= i < |a.lines|
      ensures EverReceived(ShelfOf(values, a.lines[i].shelf).ledger) <==>
              !Unbrought(ShelfNow(db, a.lines[i].shelf).ledger)
    {
      Brought(ShelfNow(db, a.lines[i].shelf).ledger);
      NotBrought(ShelfNow(db, a.lines[i].shelf).ledger);
    }
    assert Unreceived(a.lines, values) <==> CountsUpUnbrought(a.lines, db);
  }

  lemma NotBrought(ledger: seq<Stock.Entry>)
    ensures Unbrought(ledger) <==>
      !(exists i :: 0 <= i < |ledger| && ledger[i].kind in {Stock.Purchase, Stock.TransferIn})
  {
  }

  lemma CountShape(a: Applying)
    ensures var c := CountRecipe(a);
      && c.fault.None? && c.claim.None? && Keys(c) == c.after
      && forall values ::
           c.check(values) == Refuse(CountObjection(a, values)) && c.write(values) == CountWrites(a, values)
  {
    hide CountObjection, CountWrites, StockCounts.Shelves;
  }

  /** A sheet is applied if and only if it is there as named, open, not empty, and counts no article up that never
      came. Applied, each line's shelf has on hand what was counted, and says so by one adjustment of the
      difference; the sheet is closed and nothing else is touched. */
  lemma CountAnswers(a: Applying, policy: Stock.Policy, db: Database)
    requires ShopOk(policy, db)
    ensures var (after, answer) := Effect(CountRecipe(a), db);
      var sheet := SheetIn(Read(db, CountAt(a.count)));
      if sheet.None? || sheet.value.lines != a.lines then after == db && answer == Refused(NoSuchCount)
      else if !sheet.value.open then after == db && answer == Refused(CountClosed)
      else if a.lines == [] then after == db && answer == Refused(NothingCounted)
      else if CountsUpUnbrought(a.lines, db) then after == db && answer == Refused(NeverReceived)
      else
        && answer == Made(CountApplied(a.count))
        && Read(after, CountAt(a.count)) == Some(ASheet(Sheet(false, a.lines)))
        && (forall i :: 0 <= i < |a.lines| ==> LineCounted(a, db, after, i))
        && forall k: Key | k != CountAt(a.count) && !(k.ShelfAt? && !Unnamed(a.lines, k.shelf)) ::
             Read(after, k) == Read(db, k)
  {
    hide Effect, Snapshot, CountObjection, CountWrites, CountRecipe, Unnamed, CountsUpUnbrought, LineCounted;
    var c := CountRecipe(a);
    SheetStopsIt(a, db);
    CountShape(a);
    if SheetStops(a, db).Some? {
      EffectStops(c, db);
    } else {
      CountWellMade(a);
      forall i | 0 <= i < |a.lines| ensures LineCounted(a, db, Effect(c, db).0, i) {
        CountsLine(a, policy, db, i);
      }
      forall k: Key | k != CountAt(a.count) && !(k.ShelfAt? && !Unnamed(a.lines, k.shelf))
        ensures Read(Effect(c, db).0, k) == Read(db, k)
      {
        CountLeaves(a, db, k);
      }
      SheetCloses(a, db);
    }
  }

  ghost predicate LineCounted(a: Applying, db: Database, after: Database, i: nat)
    requires i < |a.lines|
  {
    var shelf, counted := ShelfNow(db, a.lines[i].shelf), a.lines[i].counted;
    Became(shelf, ShelfNow(after, a.lines[i].shelf), counted - shelf.onHand, 0, Correcting(shelf, counted))
  }

  lemma CountedShelf(a: Applying, policy: Stock.Policy, values: Values, i: nat)
    requires Applies(a, policy, values) && i < |a.lines|
    ensures ShelfIn(After(CountRecipe(a), values, ShelfAt(a.lines[i].shelf))) ==
            Corrected(ShelfOf(values, a.lines[i].shelf), a.lines[i].counted)
  {
    hide Applies, CountRecipe, StockCounts.Counted, StockCounts.Shelves, Stock.Touched, CountObjection, Corrected;
    CountRead(a, policy, values);
    CountAfter(a, values, ShelfAt(a.lines[i].shelf));
    LineIsTouched(a.lines, i);
    EachIsCorrected(ShelvesOf(values, Stock.Touched(StockCounts.Shelves(a.lines))), a.lines, i);
  }

  lemma SheetApplies(a: Applying, policy: Stock.Policy, db: Database)
    requires ShopOk(policy, db) && SheetStops(a, db).None?
    ensures Applies(a, policy, Snapshot(Keys(CountRecipe(a)), db))
    ensures CountRecipe(a).check(Snapshot(Keys(CountRecipe(a)), db)).None?
  {
    hide Snapshot, CountObjection, CountRecipe, SheetStops, ValuesOk, ShopOk;
    SheetStopsIt(a, db);
    CountShape(a);
    ReadsSoundRows(policy, CountRecipe(a), db);
  }

  lemma CountsRow(a: Applying, policy: Stock.Policy, db: Database, i: nat)
    requires ShopOk(policy, db) && SheetStops(a, db).None? && i < |a.lines|
    ensures ShelfNow(Effect(CountRecipe(a), db).0, a.lines[i].shelf) ==
            Corrected(ShelfNow(db, a.lines[i].shelf), a.lines[i].counted)
  {
    hide Effect, Snapshot, CountRecipe, SheetStops, Corrected, Applies, After, ShopOk, WellMade, Keys;
    var c, shelf := CountRecipe(a), a.lines[i].shelf;
    SheetApplies(a, policy, db);
    CountShape(a);
    CountWellMade(a);
    LineIsRead(a, i);
    RowAfter(c, db, ShelfAt(shelf));
    CountedShelf(a, policy, Snapshot(Keys(c), db), i);
  }

  lemma CountsLine(a: Applying, policy: Stock.Policy, db: Database, i: nat)
    requires ShopOk(policy, db) && SheetStops(a, db).None? && i < |a.lines|
    ensures LineCounted(a, db, Effect(CountRecipe(a), db).0, i)
  {
    hide Effect, CountRecipe, SheetStops, Became, Corrected, Correcting, ShopOk;
    CountsRow(a, policy, db, i);
    CorrectedBecomes(ShelfNow(db, a.lines[i].shelf), a.lines[i].counted);
  }

  lemma LineIsRead(a: Applying, i: nat)
    requires i < |a.lines|
    ensures ShelfAt(a.lines[i].shelf) in Keys(CountRecipe(a))
  {
    hide StockCounts.Shelves;
    var ids := Stock.Ids(StockCounts.Shelves(a.lines));
    Stock.IdsAscend(StockCounts.Shelves(a.lines));
    LineIsTouched(a.lines, i);
    ShelfKeyIn(ids, a.lines[i].shelf);
  }

  lemma SheetCloses(a: Applying, db: Database)
    requires SheetStops(a, db).None?
    ensures Effect(CountRecipe(a), db).1 == Made(CountApplied(a.count))
    ensures Read(Effect(CountRecipe(a), db).0, CountAt(a.count)) == Some(ASheet(Sheet(false, a.lines)))
  {
    hide Effect, Snapshot, CountObjection, CountRecipe, StockCounts.Counted, StockCounts.Shelves, Stock.Touched,
         CountsUpUnbrought;
    var c, values := CountRecipe(a), Snapshot(Keys(CountRecipe(a)), db);
    SheetStopsIt(a, db);
    CountShape(a);
    CountWellMade(a);
    CountReads(a, db);
    ReadAfter(c, db, CountAt(a.count));
    CountAfter(a, values, CountAt(a.count));
    EffectGoes(c, db);
  }

  /** Nothing else is touched. */
  lemma CountLeaves(a: Applying, db: Database, k: Key)
    requires SheetStops(a, db).None? && k != CountAt(a.count) && !(k.ShelfAt? && !Unnamed(a.lines, k.shelf))
    ensures Read(Effect(CountRecipe(a), db).0, k) == Read(db, k)
  {
    hide Effect, Snapshot, CountObjection, CountRecipe, CountWrites, StockCounts.Shelves, Stock.Touched,
         CountsUpUnbrought;
    var c, values := CountRecipe(a), Snapshot(Keys(CountRecipe(a)), db);
    SheetStopsIt(a, db);
    CountShape(a);
    EffectGoes(c, db);
    if k in CountWrites(a, values).0 {
      CountKinds(a, values, k);
      var i := LineOf(a.lines, k.shelf);
    }
  }
}
