/** A count sheet applied: every counted figure made the shelf's, all or none, and once. */
module StockCounts {
  import opened Wrappers
  import opened RowLocks
  import opened LockOrder
  import opened Recipes
  import opened Runs
  import opened Shop
  import opened Tallies
  import opened CashBook
  import opened StockRoom
  import opened Orders
  import Stock = StockLedger

  /** The lines, and the branch, are the sheet's own. */
  datatype Applying = Applying(count: nat, branch: nat, lines: seq<CountLine>)

  /** A line's shelf, whatever is counted on it. */
  function Shelves(lines: seq<CountLine>): seq<Stock.Line> {
    seq(|lines|, i requires 0 <= i < |lines| => Stock.Line(lines[i].shelf, 1))
  }

  function SheetIn(row: Option<Row>): Option<Sheet> {
    if row.Some? && row.value.ASheet? then Some(row.value.sheet) else None
  }

  /** Some line counts up an article its branch has never received. */
  predicate Unreceived(lines: seq<CountLine>, values: Values) {
    exists i :: 0 <= i < |lines| && lines[i].counted > ShelfOf(values, lines[i].shelf).onHand &&
                !EverReceived(ShelfOf(values, lines[i].shelf).ledger)
  }

  function CountObjection(a: Applying, values: Values): Option<Refusal> {
    if CountAt(a.count) !in values then None
    else
      match SheetIn(values[CountAt(a.count)])
      case None => Some(NoSuchCount)
      case Some(sheet) =>
        if sheet.lines != a.lines then Some(NoSuchCount)
        else if BranchAt(a.branch) !in values then None
        else if !sheet.open then Some(CountClosed)
        else if a.lines == [] then Some(NothingCounted)
        else if !HasShelves(values, Stock.Ids(Shelves(a.lines))) then None
        else if Unreceived(a.lines, values) then Some(NeverReceived)
        else None
  }

  function Counted(rows: map<nat, Stock.Shelf>, lines: seq<CountLine>): (after: map<nat, Stock.Shelf>)
    requires Stock.Touched(Shelves(lines)) <= rows.Keys
    ensures after.Keys == rows.Keys
    decreases |lines|
  {
    if lines == [] then rows
    else
      FirstShelf(lines);
      var id := lines[0].shelf;
      Counted(rows[id := Corrected(rows[id], lines[0].counted)], lines[1..])
  }

  lemma FirstShelf(lines: seq<CountLine>)
    requires lines != []
    ensures Stock.Touched(Shelves(lines)) == {lines[0].shelf} + Stock.Touched(Shelves(lines[1..]))
  {
    assert Shelves(lines)[1..] == Shelves(lines[1..]);
  }

  function CountWrites(a: Applying, values: Values): (Database, Answer) {
    match SheetIn(Get(values, CountAt(a.count)))
    case None => (map[], Unchanged)
    case Some(sheet) =>
      (ShelfRows(Counted(ShelvesOf(values, Stock.Touched(Shelves(a.lines))), a.lines))
         [CountAt(a.count) := ASheet(sheet.(open := false))],
       Made(CountApplied(a.count)))
  }

  /** The rows it locks before its shelves: the sheet, and with it its branch. */
  function SheetKeys(a: Applying): seq<Key> {
    [CountAt(a.count), BranchAt(a.branch)]
  }

  /** The sheet's row first, with its branch's, then its shelves, lowest id first; every line checked
      before any is written. */
  function CountRecipe(a: Applying): ShopRecipe {
    Recipe(
      None, false, None,
      [], false, [],
      SheetKeys(a) + ShelfKeys(Stock.Ids(Shelves(a.lines))),
      (values: Values) => Refuse(CountObjection(a, values)),
      (values: Values) => CountWrites(a, values),
      Retold, Recorded)
  }

  /** The sheet as it is applied to these rows: shelves that are not there are made first. */
  function CountOn(a: Applying, db: Database): ShopRecipe {
    Locking(CountRecipe(a), Shelving(SheetKeys(a), Shelves(a.lines), [], db))
  }

  lemma CountOnHas(a: Applying, db: Database, k: Key)
    ensures k in CountOn(a, db).after <==> k in CountRecipe(a).after
  {
    hide ShelfKeys, Stock.Ids, Shelves, Shelving;
    ShelvingHas(SheetKeys(a), Shelves(a.lines), [], db, k);
  }

  // ---- It is well made ----------------------------------------------------------------

  lemma {:induction false} LineIsTouched(lines: seq<CountLine>, i: nat)
    requires i < |lines|
    ensures lines[i].shelf in Stock.Touched(Shelves(lines))
  {
    FirstShelf(lines);
    if i > 0 {
      LineIsTouched(lines[1..], i - 1);
    }
  }

  lemma CountFirm(a: Applying, some: Values, more: Values)
    requires Grows(some, more) && CountObjection(a, some).Some?
    ensures CountObjection(a, more) == CountObjection(a, some)
  {
    hide EverReceived, Stock.Ids, Stock.Touched;
    if HasShelves(some, Stock.Ids(Shelves(a.lines))) {
      forall i | 0 <= i < |a.lines| ensures ShelfOf(some, a.lines[i].shelf) == ShelfOf(more, a.lines[i].shelf) {
        LineIsTouched(a.lines, i);
        ShelfRead(Shelves(a.lines), some, a.lines[i].shelf);
      }
    }
  }

  /** Each row as the sheet leaves it. */
  lemma CountAfter(a: Applying, values: Values, k: Key)
    requires SheetIn(Get(values, CountAt(a.count))).Some?
    ensures After(CountRecipe(a), values, k) ==
        if k == CountAt(a.count) then Some(ASheet(SheetIn(Get(values, k)).value.(open := false)))
        else if k.ShelfAt? && k.shelf in Stock.Touched(Shelves(a.lines)) then
          Some(AShelf(Counted(ShelvesOf(values, Stock.Touched(Shelves(a.lines))), a.lines)[k.shelf]))
        else Get(values, k)
  {
    hide ShelfRows, Counted;
  }

  lemma CountLocks(a: Applying, values: Values, k: Key)
    requires k in CountWrites(a, values).0
    ensures k in Keys(CountRecipe(a))
  {
    hide ShelfRows, Counted, Shelves;
    assert CountRecipe(a).after[0] == CountAt(a.count);
    if k != CountAt(a.count) {
      Stock.IdsAscend(Shelves(a.lines));
      ShelfKeyIn(Stock.Ids(Shelves(a.lines)), k.shelf);
    }
  }

  lemma CountWellMade(a: Applying)
    ensures WellMade(CountRecipe(a), IsClaim)
  {
    hide CountWrites, CountObjection, Shelves;
    var c := CountRecipe(a);
    forall values, k | k in c.write(values).0 ensures k in Keys(c) {
      CountLocks(a, values, k);
    }
    forall some, more | Grows(some, more) && c.check(some).Some? ensures c.check(more) == c.check(some) {
      CountFirm(a, some, more);
    }
    FirmSettles(c);
  }

  // ---- What is counted is what is there -------------------------------------------------

  /** The sheet says nothing of this shelf. */
  predicate Unnamed(lines: seq<CountLine>, id: nat) {
    forall i :: 0 <= i < |lines| ==> lines[i].shelf != id
  }

  lemma {:induction false} UnnamedStays(rows: map<nat, Stock.Shelf>, lines: seq<CountLine>, id: nat)
    requires Stock.Touched(Shelves(lines)) <= rows.Keys && id in rows && Unnamed(lines, id)
    ensures Counted(rows, lines)[id] == rows[id]
    decreases |lines|
  {
    hide Corrected;
    if lines != [] {
      FirstShelf(lines);
      assert forall i :: 0 <= i < |lines[1..]| ==> lines[1..][i] == lines[i + 1];
      UnnamedStays(rows[lines[0].shelf := Corrected(rows[lines[0].shelf], lines[0].counted)], lines[1..], id);
    }
  }

  /** Each article on one line, each shelf is corrected to its own. */
  lemma {:induction false} EachIsCorrected(rows: map<nat, Stock.Shelf>, lines: seq<CountLine>, i: nat)
    requires Stock.Touched(Shelves(lines)) <= rows.Keys && SheetOk(Sheet(true, lines)) && i < |lines|
    ensures lines[i].shelf in rows
    ensures Counted(rows, lines)[lines[i].shelf] == Corrected(rows[lines[i].shelf], lines[i].counted)
    decreases |lines|
  {
    hide Corrected;
    FirstShelf(lines);
    LineIsTouched(lines, i);
    var rest := lines[1..];
    assert forall j :: 0 <= j < |rest| ==> rest[j] == lines[j + 1];
    var next := rows[lines[0].shelf := Corrected(rows[lines[0].shelf], lines[0].counted)];
    if i == 0 {
      UnnamedStays(next, rest, lines[0].shelf);
    } else {
      EachIsCorrected(next, rest, i - 1);
    }
  }

  /** With its rows read and nothing to object to. */
  ghost predicate Applies(a: Applying, policy: Stock.Policy, values: Values) {
    ValuesOk(policy, values) && HasRead(CountRecipe(a), values) && CountObjection(a, values).None?
  }

  lemma CountRead(a: Applying, policy: Stock.Policy, values: Values)
    requires Applies(a, policy, values)
    ensures var sheet := SheetIn(Get(values, CountAt(a.count)));
      sheet.Some? && sheet.value.lines == a.lines && sheet.value.open && SheetOk(sheet.value)
  {
    hide HasShelves, Unreceived, Shelves;
    assert CountRecipe(a).after[0] == CountAt(a.count);
    assert CountAt(a.count) in Keys(CountRecipe(a));
  }

  /** Applied, every line's shelf has on hand what was counted, and keeps its holds; no other row
      but the sheet's own is touched. */
  lemma WhatIsCountedIsOnHand(a: Applying, policy: Stock.Policy, values: Values, i: nat)
    requires Applies(a, policy, values) && i < |a.lines|
    ensures var before := ShelfOf(values, a.lines[i].shelf);
      var after := ShelfIn(After(CountRecipe(a), values, ShelfAt(a.lines[i].shelf)));
      after.onHand == a.lines[i].counted && after.reserved == before.reserved
  {
    hide Applies, CountRecipe, Counted, Shelves, Stock.Touched, CountObjection;
    CountRead(a, policy, values);
    CountAfter(a, values, ShelfAt(a.lines[i].shelf));
    LineIsTouched(a.lines, i);
    EachIsCorrected(ShelvesOf(values, Stock.Touched(Shelves(a.lines))), a.lines, i);
  }

  // ---- Sound, and tallying ------------------------------------------------------------

  lemma CorrectedMoves(policy: Stock.Policy, shelf: Stock.Shelf, counted: nat)
    ensures OnlyGoodsMoved(policy, shelf, Corrected(shelf, counted), counted - shelf.onHand)
    ensures Stock.ShelfOk(policy, shelf) ==> Stock.ShelfOk(policy, Corrected(shelf, counted))
  {
    hide OnlyGoodsMoved, Stock.Agrees, Stock.HoldsFitted, Stock.HoldsNamed;
    NothingMoved(policy, shelf);
    GoodsWritten(policy, shelf, Stock.Adjustment, counted - shelf.onHand, Stock.Manual);
    if Stock.ShelfOk(policy, shelf) {
      Stock.WriteKeepsOk(policy, shelf, Stock.Adjustment, counted - shelf.onHand, Stock.Manual);
    }
  }

  /** The line that names a shelf touched. */
  lemma {:induction false} LineOf(lines: seq<CountLine>, id: nat) returns (i: nat)
    requires id in Stock.Touched(Shelves(lines))
    ensures i < |lines| && lines[i].shelf == id
    decreases |lines|
  {
    FirstShelf(lines);
    i := 0;
    if lines[0].shelf != id {
      i := LineOf(lines[1..], id);
      i := i + 1;
    }
  }

  /** A shelf of the sheet, before and after. */
  lemma CountMoves(a: Applying, policy: Stock.Policy, values: Values, id: nat) returns (delta: int)
    requires Applies(a, policy, values) && id in Stock.Touched(Shelves(a.lines))
    ensures var after := Counted(ShelvesOf(values, Stock.Touched(Shelves(a.lines))), a.lines)[id];
      OnlyGoodsMoved(policy, ShelfOf(values, id), after, delta) && Stock.ShelfOk(policy, after)
  {
    hide OnlyGoodsMoved, Stock.ShelfOk, Corrected, Counted, Shelves, Applies, Stock.Touched;
    var i := LineOf(a.lines, id);
    delta := a.lines[i].counted - ShelfOf(values, id).onHand;
    CountRead(a, policy, values);
    AppliesOk(a, policy, values);
    EachIsCorrected(ShelvesOf(values, Stock.Touched(Shelves(a.lines))), a.lines, i);
    ShelfOfOk(policy, values, id);
    CorrectedMoves(policy, ShelfOf(values, id), a.lines[i].counted);
  }

  lemma AppliesOk(a: Applying, policy: Stock.Policy, values: Values)
    requires Applies(a, policy, values)
    ensures ValuesOk(policy, values)
  {
  }

  lemma CountRowOk(a: Applying, policy: Stock.Policy, values: Values, k: Key)
    requires Applies(a, policy, values) && k in CountWrites(a, values).0
    ensures RowOk(policy, k, CountWrites(a, values).0[k])
  {
    hide Counted, Applies, CountObjection, Shelves, Stock.ShelfOk, Stock.Touched;
    CountRead(a, policy, values);
    if k != CountAt(a.count) {
      CountKinds(a, values, k);
      var delta := CountMoves(a, policy, values, k.shelf);
    }
  }

  lemma CountWritesOk(a: Applying, policy: Stock.Policy, values: Values)
    ensures WritesOk(policy, CountRecipe(a), values)
  {
    hide CountWrites, CountObjection, RowOk, ValuesOk, HasRead;
    if Applies(a, policy, values) {
      forall k | k in CountWrites(a, values).0 ensures RowOk(policy, k, CountWrites(a, values).0[k]) {
        CountRowOk(a, policy, values, k);
      }
    }
  }

  lemma CountTallies(a: Applying, policy: Stock.Policy, values: Values)
    ensures TallyKept(policy, CountRecipe(a), values)
  {
    if Applies(a, policy, values) {
      CountKeeps(a, policy, values);
    }
  }

  /** Which rows it writes. */
  lemma CountKinds(a: Applying, values: Values, k: Key)
    requires k in CountWrites(a, values).0
    ensures k == CountAt(a.count) || (k.ShelfAt? && k.shelf in Stock.Touched(Shelves(a.lines)))
  {
    hide ShelfRows, Counted, Shelves;
  }

  lemma CountShelf(a: Applying, policy: Stock.Policy, values: Values, id: nat)
    requires Applies(a, policy, values) && id in Stock.Touched(Shelves(a.lines))
    ensures exists delta ::
        OnlyGoodsMoved(policy, ShelfOf(values, id), ShelfIn(After(CountRecipe(a), values, ShelfAt(id))), delta)
  {
    hide Counted, Applies, OnlyGoodsMoved, After, CountRecipe, Shelves, Stock.Touched;
    CountRead(a, policy, values);
    CountAfter(a, values, ShelfAt(id));
    var delta := CountMoves(a, policy, values, id);
    assert OnlyGoodsMoved(policy, ShelfOf(values, id), ShelfIn(After(CountRecipe(a), values, ShelfAt(id))), delta);
  }

  lemma CountKeeps(a: Applying, policy: Stock.Policy, values: Values)
    requires Applies(a, policy, values)
    ensures TallyKept(policy, CountRecipe(a), values)
  {
    hide CountWrites, CountObjection, Shelves, Applies, OnlyGoodsMoved, TallyKept, After, ShelfOf;
    var c := CountRecipe(a);
    forall k | k in c.write(values).0 ensures k.CountAt? || (k.ShelfAt? && k.shelf in Stock.Touched(Shelves(a.lines))) {
      CountKinds(a, values, k);
    }
    forall id: nat | ShelfAt(id) in c.write(values).0
      ensures exists delta :: OnlyGoodsMoved(policy, ShelfOf(values, id), ShelfIn(After(c, values, ShelfAt(id))), delta)
    {
      CountShelf(a, policy, values, id);
    }
    GoodsAloneAreKept(policy, c, values);
  }

  lemma CountSure(a: Applying, policy: Stock.Policy)
    ensures Sure(policy, CountRecipe(a))
  {
    var c := CountRecipe(a);
    CountWellMade(a);
    forall values ensures WritesOk(policy, c, values) && TallyKept(policy, c, values) {
      CountWritesOk(a, policy, values);
      CountTallies(a, policy, values);
    }
    ProperWhen(policy, c);
    SureWhen(policy, c);
  }

  // ---- Once ---------------------------------------------------------------------------

  /** The sheet has been applied. */
  predicate IsApplied(db: Database, count: nat) {
    var sheet := SheetIn(Read(db, CountAt(count)));
    sheet.Some? && !sheet.value.open
  }

  lemma AppliedIsClosed(a: Applying, db: Database)
    requires IsApplied(db, a.count) && SheetIn(Read(db, CountAt(a.count))).value.lines == a.lines
    ensures Effect(CountRecipe(a), db) == (db, Refused(CountClosed))
  {
    hide Unreceived, HasShelves, Shelves;
    var c := CountRecipe(a);
    assert c.after[0] == CountAt(a.count);
    SnapshotHas(Keys(c), db, CountAt(a.count));
  }

  lemma AppliedNow(a: Applying, db: Database)
    requires Effect(CountRecipe(a), db).1.Made?
    ensures var after := Effect(CountRecipe(a), db).0;
      IsApplied(after, a.count) && SheetIn(Read(after, CountAt(a.count))).value.lines == a.lines
  {
    hide Unreceived, HasShelves, Shelves, Counted, ShelfRows;
    var c := CountRecipe(a);
    assert c.after[0] == CountAt(a.count);
    SnapshotHas(Keys(c), db, CountAt(a.count));
  }

  lemma {:induction false} AppliedAgain(a: Applying, n: nat, db: Database)
    requires Effect(CountRecipe(a), db).1.Made?
    ensures Again(ToRequest(CountRecipe(a)), n, db) == if n == 0 then db else Effect(CountRecipe(a), db).0
    ensures n > 0 ==>
        Serial(ToRequest(CountRecipe(a)), Effect(CountRecipe(a), db).0) ==
        (Effect(CountRecipe(a), db).0, Refused(CountClosed))
  {
    hide Serial, ToRequest, CountRecipe, Effect, WellMade;
    CountWellMade(a);
    AppliedNow(a, db);
    RecipeSerial(CountRecipe(a), IsClaim, db);
    RecipeSerial(CountRecipe(a), IsClaim, Effect(CountRecipe(a), db).0);
    AppliedIsClosed(a, Effect(CountRecipe(a), db).0);
    if n > 0 {
      AppliedAgain(a, n - 1, db);
    }
  }

  /** Any number of people applying one sheet at once: it is applied once, by the first to finish,
      and the others are told that it has been. */
  lemma AppliedOnce(a: Applying, n: nat, db: Database, schedule: seq<nat>)
    requires n > 0 && Effect(CountRecipe(a), db).1.Made?
    requires var reqs := seq(n, _ => ToRequest(CountRecipe(a)));
      Schedulable(reqs, Start(reqs, db), schedule) && AllDone(Outcome(reqs, db, schedule))
    ensures var s, once := Outcome(seq(n, _ => ToRequest(CountRecipe(a))), db, schedule), Effect(CountRecipe(a), db);
      && s.db == once.0
      && |s.finished| == n
      && (forall i :: 0 <= i < n ==> s.finished[i] < |s.workers|)
      && forall i :: 0 <= i < n ==>
           s.workers[s.finished[i]].answer == Some(if i == 0 then once.1 else Refused(CountClosed))
  {
    hide CountRecipe, Effect;
    var r := ToRequest(CountRecipe(a));
    CountWellMade(a);
    RecipeIsSound(CountRecipe(a), IsClaim);
    CopiesInARow(r, n, IsClaim, db, schedule);
    AppliedAgain(a, n, db);
    forall i | 0 <= i < n
      ensures Serial(r, Again(r, i, db)).1 == if i == 0 then Effect(CountRecipe(a), db).1 else Refused(CountClosed)
    {
      AppliedAgain(a, i, db);
      RecipeSerial(CountRecipe(a), IsClaim, db);
    }
  }
}
