/** The stock service, statement by statement: the only code that moves stock. */
module StockService {
  import opened Wrappers
  import opened RowLocks
  import opened Recipes
  import opened Shop
  import opened CashBook
  import opened StockRoom
  import opened Orders
  import opened Backend
  import Stock = StockLedger

  /** The rows already say what these shelves are. */
  ghost predicate Mirrors(db: Database, shelves: map<nat, Stock.Shelf>) {
    forall id :: id in shelves ==> Read(db, ShelfAt(id)) == Some(AShelf(shelves[id]))
  }

  lemma MirrorsAdd(db: Database, shelves: map<nat, Stock.Shelf>)
    requires Mirrors(db, shelves)
    ensures db + ShelfRows(shelves) == db
  {
    forall k | k in ShelfRows(shelves) ensures Read(db, k) == Some(ShelfRows(shelves)[k]) {
      assert k == ShelfAt(k.shelf);
    }
  }

  /** One shelf among them written again. */
  lemma RowsAgain(db: Database, shelves: map<nat, Stock.Shelf>, id: nat, shelf: Stock.Shelf)
    ensures (db + ShelfRows(shelves))[ShelfAt(id) := AShelf(shelf)] == db + ShelfRows(shelves[id := shelf])
  {
    hide ShelfRows, Read;
    var left, right := (db + ShelfRows(shelves))[ShelfAt(id) := AShelf(shelf)], db + ShelfRows(shelves[id := shelf]);
    forall k ensures Read(left, k) == Read(right, k) {
      RowAgain(db, shelves, id, shelf, k);
    }
    SameRows(left, right);
  }

  lemma RowAgain(db: Database, shelves: map<nat, Stock.Shelf>, id: nat, shelf: Stock.Shelf, k: Key)
    ensures Read((db + ShelfRows(shelves))[ShelfAt(id) := AShelf(shelf)], k) ==
        Read(db + ShelfRows(shelves[id := shelf]), k)
  {
  }

  ghost function Named(ids: seq<nat>): set<nat> {
    set id | id in ids
  }

  function HeldShelves(db: Database, ids: set<nat>): (shelves: map<nat, Stock.Shelf>)
    ensures shelves.Keys == ids
  {
    map id | id in ids :: ShelfNow(db, id)
  }

  lemma NoneHeld(db: Database)
    ensures HeldShelves(db, {}) == map[] && db + ShelfRows(map[]) == db
  {
  }

  /** One more locked: what was locked before it has not changed it. */
  lemma HeldNext(db: Database, ids: set<nat>, id: nat)
    ensures var shelves := HeldShelves(db, ids);
      && ShelfNow(db + ShelfRows(shelves), id) == ShelfNow(db, id)
      && shelves[id := ShelfNow(db, id)] == HeldShelves(db, ids + {id})
      && (db + ShelfRows(shelves))[ShelfAt(id) := AShelf(ShelfNow(db, id))] ==
          db + ShelfRows(HeldShelves(db, ids + {id}))
  {
    hide ShelfNow, ShelfRows;
    HeldStill(db, ids, id);
    RowsAgain(db, HeldShelves(db, ids), id, ShelfNow(db, id));
  }

  lemma HeldStill(db: Database, ids: set<nat>, id: nat)
    ensures ShelfNow(db + ShelfRows(HeldShelves(db, ids)), id) == ShelfNow(db, id)
  {
  }

  // ---- A write-off --------------------------------------------------------------------

  function WriteOffKey(w: WriteOff): Option<Key> {
    if w.token.Some? then Some(StockClaim(w.token.value)) else None
  }

  lemma WriteOffReads(w: WriteOff, policy: Stock.Policy, db: Database)
    ensures ShelfOf(Snapshot(Keys(WriteOffRecipe(w, policy)), db), w.shelf) == ShelfNow(db, w.shelf)
  {
    SnapshotHas(Keys(WriteOffRecipe(w, policy)), db, ShelfAt(w.shelf));
  }

  lemma WriteOffEnds(w: WriteOff, policy: Stock.Policy, db: Database)
    ensures Ends(WriteOffRecipe(w, policy), db) ==
        if !IsLoss(w.kind) then Some(Refused(NotAllowed))
        else if Found(WriteOffKey(w), db).Some? then Found(WriteOffKey(w), db)
        else if WriteOffFault(w).Some? then Refuse(WriteOffFault(w))
        else Refuse(CannotReduce(policy, ShelfNow(db, w.shelf), w.quantity))
  {
    WriteOffReads(w, policy, db);
    hide Keys, Snapshot, ShelfOf, CannotReduce;
  }

  function WriteOffRows(w: WriteOff, db: Database): Database {
    var shelf := ShelfNow(db, w.shelf);
    Claiming(db[ShelfAt(w.shelf) := AShelf(Stock.Write(shelf, w.kind, -w.quantity, Stock.Manual))],
             WriteOffKey(w), WrittenOff(w.shelf, |shelf.ledger|))
  }

  lemma WriteOffLeaves(w: WriteOff, policy: Stock.Policy, db: Database)
    requires IsLoss(w.kind)
    ensures Leaves(WriteOffRecipe(w, policy), db) ==
            (WriteOffRows(w, db), Made(WrittenOff(w.shelf, |ShelfNow(db, w.shelf).ledger|)))
  {
    WriteOffReads(w, policy, db);
    hide Keys, Snapshot, ShelfOf, Stock.Write;
    assert Leaves(WriteOffRecipe(w, policy), db).0 == WriteOffRows(w, db);
  }

  // ---- A correction -------------------------------------------------------------------

  lemma CorrectionReads(a: Correction, db: Database)
    ensures var values := Snapshot(Keys(CorrectionRecipe(a)), db);
      ShelfAt(a.shelf) in values && ShelfOf(values, a.shelf) == ShelfNow(db, a.shelf)
  {
    SnapshotHas(Keys(CorrectionRecipe(a)), db, ShelfAt(a.shelf));
  }

  lemma CorrectionEnds(a: Correction, db: Database)
    ensures Ends(CorrectionRecipe(a), db) ==
        if CorrectionFault(a).Some? then Refuse(CorrectionFault(a))
        else if a.counted > ShelfNow(db, a.shelf).onHand && !EverReceived(ShelfNow(db, a.shelf).ledger)
          then Some(Refused(NeverReceived))
        else None
  {
    CorrectionReads(a, db);
    hide Keys, Snapshot, ShelfOf, EverReceived;
  }

  lemma CorrectionLeaves(a: Correction, db: Database)
    ensures var shelf := ShelfNow(db, a.shelf);
      Leaves(CorrectionRecipe(a), db) ==
        if shelf.onHand == a.counted then (db[ShelfAt(a.shelf) := AShelf(shelf)], Unchanged)
        else
          (db[ShelfAt(a.shelf) := AShelf(Stock.Write(shelf, Stock.Adjustment, a.counted - shelf.onHand, Stock.Manual))],
           Made(Adjusted(a.shelf)))
  {
    CorrectionReads(a, db);
    hide Keys, Snapshot, ShelfOf, Stock.Write;
    var shelf := ShelfNow(db, a.shelf);
    var after := if shelf.onHand == a.counted then shelf
                 else Stock.Write(shelf, Stock.Adjustment, a.counted - shelf.onHand, Stock.Manual);
    assert Leaves(CorrectionRecipe(a), db).0 == db[ShelfAt(a.shelf) := AShelf(after)];
  }

  // ---- A transfer between branches ----------------------------------------------------

  function ShipmentKey(t: Shipment): Option<Key> {
    if t.token.Some? then Some(StockTransferClaim(t.token.value)) else None
  }

  lemma ShipmentReads(t: Shipment, policy: Stock.Policy, db: Database)
    ensures var values, crates := Snapshot(Keys(ShipmentRecipe(t, policy)), db), StockRoom.Packed(t.crates);
      && HasShelves(values, Stock.Ids(Leaving(crates)))
      && ShelvesOf(values, Involved(crates)) == HeldShelves(db, Involved(crates))
      && (forall i :: 0 <= i < |crates| ==> ShelfOf(values, crates[i].source) == ShelfNow(db, crates[i].source))
      && Get(values, NumberOf(StockTransfers)) == Read(db, NumberOf(StockTransfers))
  {
    var c, crates := ShipmentRecipe(t, policy), StockRoom.Packed(t.crates);
    var values := Snapshot(Keys(c), db);
    assert HasRead(c, values);
    ShelvesRead(t, policy, values);
    forall id | id in Involved(crates) ensures ShelfOf(values, id) == ShelfNow(db, id) {
      InvolvedIsLocked(t, policy, id);
      SnapshotHas(Keys(c), db, ShelfAt(id));
    }
    forall i | 0 <= i < |crates| ensures crates[i].source in Involved(crates) {
      LineInvolves(crates, i);
    }
    assert c.before[0] == NumberOf(StockTransfers);
    SnapshotHas(Keys(c), db, NumberOf(StockTransfers));
  }

  /** Some line asks more than its shelf has. */
  predicate Short(policy: Stock.Policy, crates: seq<Crate>, db: Database) {
    exists i :: 0 <= i < |crates| && CannotReduce(policy, ShelfNow(db, crates[i].source), crates[i].quantity).Some?
  }

  lemma ShipmentEnds(t: Shipment, policy: Stock.Policy, db: Database)
    ensures Ends(ShipmentRecipe(t, policy), db) ==
        if Found(ShipmentKey(t), db).Some? then Found(ShipmentKey(t), db)
        else if ShipmentFault(t).Some? then Refuse(ShipmentFault(t))
        else if Short(policy, StockRoom.Packed(t.crates), db) then Some(Refused(InsufficientStock))
        else None
  {
    ShipmentReads(t, policy, db);
    hide Keys, Snapshot, ShelfOf, CannotReduce, StockRoom.Packed, Involved, HasShelves, Leaving;
  }

  function ShipmentNumber(db: Database): nat {
    LastNumber(Read(db, NumberOf(StockTransfers))) + 1
  }

  function ShipmentRows(t: Shipment, db: Database): Database {
    var crates := StockRoom.Packed(t.crates);
    Claiming(db[NumberOf(StockTransfers) := Counter(ShipmentNumber(db))], ShipmentKey(t),
        StockSent(ShipmentNumber(db))) +
    ShelfRows(StockRoom.Shipped(HeldShelves(db, Involved(crates)), crates, Stock.ForTransfer(ShipmentNumber(db))))
  }

  /** Rows written apart from the number and the key may be written after them. */
  lemma RowsApart(db: Database, rows: Database, number: Key, last: Row, claim: Option<Key>, document: Document)
    requires number !in rows && (claim.Some? ==> claim.value !in rows)
    ensures Claiming(db[number := last], claim, document) + rows == db + Claiming(rows[number := last], claim, document)
  {
  }

  lemma ShipmentWrote(t: Shipment, policy: Stock.Policy, db: Database)
    ensures var c, crates := ShipmentRecipe(t, policy), StockRoom.Packed(t.crates);
      c.write(Snapshot(Keys(c), db)) ==
        (ShelfRows(StockRoom.Shipped(HeldShelves(db, Involved(crates)), crates, Stock.ForTransfer(ShipmentNumber(db))))
           [NumberOf(StockTransfers) := Counter(ShipmentNumber(db))],
         Made(StockSent(ShipmentNumber(db))))
  {
    ShipmentReads(t, policy, db);
    hide Keys, Snapshot, ShelfOf, ShelvesOf, HeldShelves, StockRoom.Packed, Involved, StockRoom.Shipped, ShelfRows;
  }

  lemma ShipmentLeaves(t: Shipment, policy: Stock.Policy, db: Database)
    ensures Leaves(ShipmentRecipe(t, policy), db) == (ShipmentRows(t, db), Made(StockSent(ShipmentNumber(db))))
  {
    hide Snapshot, HeldShelves, StockRoom.Packed, Involved, StockRoom.Shipped, ShipmentObjection, ShelfRows,
         ShelvesOf, Keys;
    ShipmentWrote(t, policy, db);
    var crates := StockRoom.Packed(t.crates);
    RowsApart(db, ShelfRows(StockRoom.Shipped(HeldShelves(db, Involved(crates)), crates,
        Stock.ForTransfer(ShipmentNumber(db)))),
              NumberOf(StockTransfers), Counter(ShipmentNumber(db)), ShipmentKey(t), StockSent(ShipmentNumber(db)));
  }

  /** The rows hold these shelves, whatever was locked of them, and differ from `start` in no others. */
  ghost predicate Tracks(db: Database, start: Database, shelves: map<nat, Stock.Shelf>) {
    && (forall id :: id in shelves ==> ShelfNow(db, id) == shelves[id])
    && db + ShelfRows(shelves) == start + ShelfRows(shelves)
  }

  predicate AllWritten(db: Database, ids: set<nat>) {
    forall id :: id in ids ==> ShelfAt(id) in db && db[ShelfAt(id)].AShelf?
  }

  lemma TracksStart(start: Database, ids: set<nat>)
    ensures Tracks(start, start, HeldShelves(start, ids))
  {
  }

  lemma TracksWrite(db: Database, start: Database, shelves: map<nat, Stock.Shelf>, id: nat, shelf: Stock.Shelf)
    requires Tracks(db, start, shelves) && id in shelves
    ensures Tracks(db[ShelfAt(id) := AShelf(shelf)], start, shelves[id := shelf])
  {
    ReadShelf(db, id, shelf);
    TracksRest(db, start, shelves, id, shelf);
  }

  lemma ReadShelf(db: Database, id: nat, shelf: Stock.Shelf)
    ensures ShelfNow(db[ShelfAt(id) := AShelf(shelf)], id) == shelf
    ensures forall other: nat :: other != id ==>
        ShelfNow(db[ShelfAt(id) := AShelf(shelf)], other) == ShelfNow(db, other)
  {
    forall other: nat | other != id
      ensures ShelfNow(db[ShelfAt(id) := AShelf(shelf)], other) == ShelfNow(db, other)
    {
      assert ShelfAt(other) != ShelfAt(id);
    }
  }

  lemma TracksRest(db: Database, start: Database, shelves: map<nat, Stock.Shelf>, id: nat, shelf: Stock.Shelf)
    requires db + ShelfRows(shelves) == start + ShelfRows(shelves) && id in shelves
    ensures var after := ShelfRows(shelves[id := shelf]); db[ShelfAt(id) := AShelf(shelf)] + after == start + after
  {
    var before, after := ShelfRows(shelves), ShelfRows(shelves[id := shelf]);
    forall k | k !in after
      ensures Read(db[ShelfAt(id) := AShelf(shelf)], k) == Read(start, k)
    {
      assert k !in before;
      assert Read(db + before, k) == Read(start + before, k);
    }
    SameRows(db[ShelfAt(id) := AShelf(shelf)] + after, start + after);
  }

  lemma TracksReads(db: Database, start: Database, shelves: map<nat, Stock.Shelf>, id: nat)
    requires Tracks(db, start, shelves) && id in shelves
    ensures ShelfNow(db, id) == shelves[id]
  {
  }

  /** Every shelf written, the rows are the start's with the shelves. */
  lemma TracksAll(db: Database, start: Database, shelves: map<nat, Stock.Shelf>)
    requires Tracks(db, start, shelves)
    requires AllWritten(db, shelves.Keys)
    ensures db == start + ShelfRows(shelves)
  {
    assert Mirrors(db, shelves);
    MirrorsAdd(db, shelves);
  }

  /** Locking some of the shelves first comes to the same. */
  lemma LockedAhead(db: Database, some: set<nat>, ids: set<nat>, after: map<nat, Stock.Shelf>)
    requires some <= ids && after.Keys == ids
    ensures HeldShelves(db + ShelfRows(HeldShelves(db, some)), ids) == HeldShelves(db, ids)
    ensures db + ShelfRows(HeldShelves(db, some)) + ShelfRows(after) == db + ShelfRows(after)
  {
    hide ShelfRows;
    forall id ensures ShelfNow(db + ShelfRows(HeldShelves(db, some)), id) == ShelfNow(db, id) {
      LockedStays(db, some, id);
    }
    Overwritten(db, ShelfRows(HeldShelves(db, some)), ShelfRows(after));
  }

  lemma LockedStays(db: Database, some: set<nat>, id: nat)
    ensures ShelfNow(db + ShelfRows(HeldShelves(db, some)), id) == ShelfNow(db, id)
  {
  }

  lemma Overwritten(db: Database, first: Database, second: Database)
    requires first.Keys <= second.Keys
    ensures db + first + second == db + second
  {
  }

  lemma {:induction false} SourcesInvolved(crates: seq<Crate>)
    ensures Named(Stock.Ids(Leaving(crates))) <= Involved(crates)
  {
    Stock.IdsAscend(Leaving(crates));
    if crates != [] {
      SourcesInvolved(crates[1..]);
      Stock.IdsAscend(Leaving(crates[1..]));
      assert Leaving(crates)[1..] == Leaving(crates[1..]);
    }
  }

  /** The number and the key touch no shelf. */
  lemma Numbered(t: Shipment, db: Database)
    ensures var numbered :=
        Claiming(db[NumberOf(StockTransfers) := Counter(ShipmentNumber(db))], ShipmentKey(t),
        StockSent(ShipmentNumber(db)));
      && (forall id :: ShelfNow(numbered, id) == ShelfNow(db, id))
      && forall ids :: HeldShelves(numbered, ids) == HeldShelves(db, ids)
  {
  }

  lemma SourcesLocked(t: Shipment, crates: seq<Crate>)
    requires crates == StockRoom.Packed(t.crates)
    ensures forall i :: 0 <= i < |crates| ==> crates[i].source in Named(Stock.Ids(Leaving(crates)))
  {
    PackedIsPositive(t.crates);
    forall i | 0 <= i < |crates| ensures crates[i].source in Named(Stock.Ids(Leaving(crates))) {
      SourceIsLocked(crates, i);
    }
  }

  /** One shelf can give what it is asked for. */
  predicate TakesOne(policy: Stock.Policy, counter: bool, shelf: Stock.Shelf, quantity: nat) {
    policy.oversell ||
    if counter then quantity <= shelf.onHand && (policy.counterSellsReserved || quantity <= shelf.Available())
    else quantity <= shelf.Available()
  }

  /** Every shelf can. */
  predicate Takes(policy: Stock.Policy, counter: bool, shelves: map<nat, Stock.Shelf>, lines: seq<Stock.Line>)
    requires Stock.Touched(lines) <= shelves.Keys
  {
    forall id :: id in Stock.Touched(lines) ==> TakesOne(policy, counter, shelves[id], Stock.Asked(lines, id))
  }

  lemma TakesIsNoObjection(policy: Stock.Policy, counter: bool, lines: seq<Stock.Line>, values: Values)
    ensures StockObjection(policy, counter, lines, values) ==
            if Takes(policy, counter, ShelvesOf(values, Stock.Touched(lines)), lines) then None
                else Some(InsufficientStock)
  {
    hide Stock.Ids, Stock.Touched, Stock.Asked, ShelfOf;
    Stock.IdsAscend(lines);
    var ids, rows := Stock.Ids(lines), ShelvesOf(values, Stock.Touched(lines));
    if StockObjection(policy, counter, lines, values).None? {
      forall id | id in Stock.Touched(lines) ensures TakesOne(policy, counter, rows[id], Stock.Asked(lines, id)) {
        var i :| 0 <= i < |ids| && ids[i] == id;
      }
    }
  }

  lemma AlertsFirst(rows: map<nat, Stock.Shelf>, lines: seq<Stock.Line>, kind: Stock.Movement, inward: bool,
      reference: Stock.Reference)
    requires Stock.Covers(rows, lines) && lines != []
    ensures var first := lines[0];
      if first.quantity == 0 then
        Stock.Covers(rows, lines[1..]) &&
            Alerts(rows, lines, kind, inward, reference) == Alerts(rows, lines[1..], kind, inward, reference)
      else
        first.shelf in rows &&
        var shelf := Stock.Write(rows[first.shelf], kind, Stock.Signed(inward, first.quantity), reference);
        Stock.Covers(rows[first.shelf := shelf], lines[1..]) &&
        Alerts(rows, lines, kind, inward, reference) ==
          (if shelf.Available() <= shelf.reorderPoint then [LowStock(first.shelf)] else []) +
          Alerts(rows[first.shelf := shelf], lines[1..], kind, inward, reference)
  {
  }

  lemma NoLinesLeft(rows: map<nat, Stock.Shelf>, kind: Stock.Movement, inward: bool, reference: Stock.Reference)
    ensures Stock.Moved(rows, [], kind, inward, reference) == rows && Alerts(rows, [], kind, inward, reference) == []
  {
  }

  // ---- The rows locked, in turn -----------------------------------------------------------

  lemma ShelfNoted(locked: seq<Key>, ids: seq<nat>, id: nat)
    ensures NotedAll(locked, ShelfKeys(ids + [id])) == Noted(NotedAll(locked, ShelfKeys(ids)), ShelfAt(id))
    ensures Noted(NotedAll(locked, ShelfKeys(ids)), ShelfAt(id)) != []
  {
    assert ShelfKeys(ids + [id]) == ShelfKeys(ids) + [ShelfAt(id)];
    NotedNext(locked, ShelfKeys(ids), ShelfAt(id));
  }

  lemma NoShelfKeys()
    ensures ShelfKeys([]) == []
  {
  }

  lemma NoneMade(lines: seq<Stock.Line>, db: Database)
    ensures lines[..0] == [] && Missing(lines[..0], db) == [] && Named([]) == {}
  {
  }

  lemma MissingNext(lines: seq<Stock.Line>, i: nat, db: Database)
    requires i < |lines|
    ensures var made, line := Missing(lines[..i], db), lines[i];
      Missing(lines[..i + 1], db) ==
      if line.quantity > 0 && ShelfAt(line.shelf) !in db && line.shelf !in made then made + [line.shelf] else made
  {
    assert lines[..i + 1][..i] == lines[..i];
  }

  lemma NotMadeYet(start: Database, made: seq<nat>, id: nat)
    ensures ShelfAt(id) in start + ShelfRows(HeldShelves(start, Named(made))) <==> ShelfAt(id) in start || id in made
  {
  }

  lemma NoneNamed()
    ensures Named([]) == {}
  {
  }

  lemma NamedNext(ids: seq<nat>, id: nat)
    ensures Named(ids + [id]) == Named(ids) + {id}
  {
  }

  lemma IdsAreTouched(lines: seq<Stock.Line>)
    ensures Named(Stock.Ids(lines)) == Stock.Touched(lines)
  {
    Stock.IdsAscend(lines);
  }

  lemma MissingIsNamed(lines: seq<Stock.Line>, db: Database)
    ensures Named(Missing(lines, db)) <= Stock.Touched(lines)
  {
    forall id | id in Missing(lines, db) ensures id in Stock.Touched(lines) {
      MissingHas(lines, db, id);
    }
  }

  /** Made first, a shelf is not locked again. */
  lemma {:induction false} PresentNoted(locked: seq<Key>, ids: seq<nat>, db: Database)
    requires forall id :: id in ids && ShelfAt(id) !in db ==> ShelfAt(id) in locked
    ensures NotedAll(locked, ShelfKeys(ids)) == NotedAll(locked, ShelfKeys(Present(ids, db)))
    decreases |ids|
  {
    hide Noted, NotedAll;
    if ids != [] {
      var first := [ShelfAt(ids[0])];
      assert ShelfKeys(ids) == first + ShelfKeys(ids[1..]);
      NotedJoin(locked, first, ShelfKeys(ids[1..]));
      forall k ensures k in NotedAll(locked, first) <==> k in locked || k in first {
        NotedHas(locked, first, k);
      }
      PresentNoted(NotedAll(locked, first), ids[1..], db);
      if ShelfAt(ids[0]) in db {
        assert ShelfKeys(Present(ids, db)) == first + ShelfKeys(Present(ids[1..], db));
        NotedJoin(locked, first, ShelfKeys(Present(ids[1..], db)));
      } else {
        NotedAgain(locked, first);
        assert Present(ids, db) == Present(ids[1..], db);
      }
    }
  }

  lemma LockedInTurn(locked: seq<Key>, lines: seq<Stock.Line>, db: Database)
    ensures NotedAll(NotedAll(locked, ShelfKeys(Missing(lines, db))), ShelfKeys(Stock.Ids(lines))) ==
        NotedAll(locked, ShelfKeys(ShelfOrder(lines, db)))
  {
    hide NotedAll, Missing, Present, Stock.Ids;
    var made, held := Missing(lines, db), Present(Stock.Ids(lines), db);
    Stock.IdsAscend(lines);
    forall id | id in Stock.Ids(lines) && ShelfAt(id) !in db
      ensures ShelfAt(id) in NotedAll(locked, ShelfKeys(made))
    {
      MissingHas(lines, db, id);
      ShelfKeyIn(made, id);
      NotedHas(locked, ShelfKeys(made), ShelfAt(id));
    }
    PresentNoted(NotedAll(locked, ShelfKeys(made)), Stock.Ids(lines), db);
    NotedJoin(locked, ShelfKeys(made), ShelfKeys(held));
    assert ShelfKeys(made + held) == ShelfKeys(made) + ShelfKeys(held);
  }

  lemma WriteOffSteps(w: WriteOff, policy: Stock.Policy)
    ensures IsLoss(w.kind) ==> InStep([ShelfAt(w.shelf)], WriteOffRecipe(w, policy))
    ensures IsLoss(w.kind) ==>
        NotedAll([], InOrder(WriteOffRecipe(w, policy))) == WithKey([ShelfAt(w.shelf)], WriteOffKey(w))
    ensures IsLoss(w.kind) ==> InStep(WithKey([ShelfAt(w.shelf)], WriteOffKey(w)), WriteOffRecipe(w, policy))
  {
    var c, k := WriteOffRecipe(w, policy), ShelfAt(w.shelf);
    if IsLoss(w.kind) {
      NotedFirst(k);
      NotedKey([k], WriteOffKey(w));
      assert InOrder(c) == [k] + KeySeq(WriteOffKey(w));
      StepsTaken(c, [k], KeySeq(WriteOffKey(w)));
      StepsTaken(c, InOrder(c), []);
    }
  }

  lemma CorrectionSteps(a: Correction)
    ensures InStep([ShelfAt(a.shelf)], CorrectionRecipe(a))
    ensures NotedAll([], InOrder(CorrectionRecipe(a))) == [ShelfAt(a.shelf)]
  {
    var c := CorrectionRecipe(a);
    NotedFirst(ShelfAt(a.shelf));
    assert InOrder(c) == [ShelfAt(a.shelf)];
    StepsTaken(c, [ShelfAt(a.shelf)], []);
  }

  /** What a transfer has locked once it is numbered, once its sources are locked, and at last. */
  function ShipmentOpened(t: Shipment): seq<Key> {
    WithKey([NumberOf(StockTransfers)], ShipmentKey(t))
  }

  function SourcesNoted(t: Shipment, db: Database): seq<Key> {
    NotedAll(ShipmentOpened(t), ShelfKeys(ShelfOrder(Leaving(StockRoom.Packed(t.crates)), db)))
  }

  function AllNoted(t: Shipment, db: Database): seq<Key> {
    NotedAll(SourcesNoted(t, db), ShelfKeys(Targets(StockRoom.Packed(t.crates))))
  }

  lemma ShipmentInTurn(t: Shipment, policy: Stock.Policy, db: Database)
    ensures InOrder(ShipmentOn(t, policy, db)) ==
            ([NumberOf(StockTransfers)] + KeySeq(ShipmentKey(t))) +
                ShelfKeys(ShelfOrder(Leaving(StockRoom.Packed(t.crates)), db)) +
            ShelfKeys(Targets(StockRoom.Packed(t.crates)))
  {
    hide Leaving, Targets, StockRoom.Packed, ShelfOrder, ShelfKeys;
  }

  lemma ShipmentSteps(t: Shipment, policy: Stock.Policy, db: Database)
    ensures var c := ShipmentOn(t, policy, db);
      && InStep(ShipmentOpened(t), c) && InStep(SourcesNoted(t, db), c) && InStep(AllNoted(t, db), c)
      && AllNoted(t, db) == NotedAll([], InOrder(c))
  {
    hide InStep, Leaving, Targets, StockRoom.Packed, ShelfOrder, ShelfKeys, ShipmentOn, InOrder;
    var c, first := ShipmentOn(t, policy, db), [NumberOf(StockTransfers)] + KeySeq(ShipmentKey(t));
    var sources, targets :=
        ShelfKeys(ShelfOrder(Leaving(StockRoom.Packed(t.crates)), db)), ShelfKeys(Targets(StockRoom.Packed(t.crates)));
    ShipmentInTurn(t, policy, db);
    NotedFirst(NumberOf(StockTransfers));
    NotedKey([NumberOf(StockTransfers)], ShipmentKey(t));
    NotedJoin([], first, sources);
    NotedJoin([], first + sources, targets);
    assert first + sources + targets == first + (sources + targets);
    StepsTaken(c, first, sources + targets);
    StepsTaken(c, first + sources, targets);
    assert first + sources + targets + [] == first + sources + targets;
    StepsTaken(c, first + sources + targets, []);
  }

  lemma ShipmentOnEnds(t: Shipment, policy: Stock.Policy, on: Database, db: Database)
    ensures Ends(ShipmentOn(t, policy, on), db) == Ends(ShipmentRecipe(t, policy), db)
    ensures Leaves(ShipmentOn(t, policy, on), db) == Leaves(ShipmentRecipe(t, policy), db)
  {
    hide Ends, Leaves, ShipmentRecipe, Shelving;
    forall k | k in ShipmentRecipe(t, policy).after ensures k in ShipmentOn(t, policy, on).after {
      ShipmentOnHas(t, policy, on, k);
    }
    LockingIsSame(ShipmentRecipe(t, policy), ShipmentOn(t, policy, on).after, db);
  }

  lemma NumberedShelves(t: Shipment, lines: seq<Stock.Line>, db: Database)
    ensures ShelfOrder(lines,
        Claiming(db[NumberOf(StockTransfers) := Counter(ShipmentNumber(db))], ShipmentKey(t),
        StockSent(ShipmentNumber(db)))) == ShelfOrder(lines, db)
  {
    ShelfOrderAgrees(lines, Claiming(db[NumberOf(StockTransfers) := Counter(ShipmentNumber(db))], ShipmentKey(t),
        StockSent(ShipmentNumber(db))), db);
  }

  lemma ClaimAfterNumber(t: Shipment, db: Database)
    ensures Found(ShipmentKey(t), db[NumberOf(StockTransfers) := Counter(ShipmentNumber(db))]) ==
        Found(ShipmentKey(t), db)
  {
  }

  lemma ShortWhen(policy: Stock.Policy, crates: seq<Crate>, db: Database, sources: map<nat, Stock.Shelf>)
    requires forall i :: 0 <= i < |crates| ==>
        crates[i].source in sources && sources[crates[i].source] == ShelfNow(db, crates[i].source)
    ensures Short(policy, crates, db) <==>
            exists i :: 0 <= i < |crates| && CannotReduce(policy, sources[crates[i].source], crates[i].quantity).Some?
  {
  }

  lemma SourcesInLocked(t: Shipment, crates: seq<Crate>, db: Database)
    requires crates == StockRoom.Packed(t.crates)
    ensures SourcesHeld(SourcesNoted(t, db), crates)
  {
    hide ShelfOrder;
    PackedIsPositive(t.crates);
    var ids := ShelfOrder(Leaving(crates), db);
    forall i | 0 <= i < |crates| ensures ShelfAt(crates[i].source) in SourcesNoted(t, db) {
      SourceIsLocked(crates, i);
      ShelfOrderHas(Leaving(crates), db, crates[i].source);
      ShelfKeyIn(ids, crates[i].source);
      NotedHas(ShipmentOpened(t), ShelfKeys(ids), ShelfAt(crates[i].source));
    }
  }

  /** The shelf of each line to send from is locked. */
  predicate SourcesHeld(locked: seq<Key>, crates: seq<Crate>) {
    forall i :: 0 <= i < |crates| ==> ShelfAt(crates[i].source) in locked
  }

  lemma SourcesStayHeld(locked: seq<Key>, crates: seq<Crate>, k: Key)
    requires SourcesHeld(locked, crates)
    ensures SourcesHeld(Noted(locked, k), crates)
  {
  }

  lemma SourceHeld(locked: seq<Key>, crates: seq<Crate>, i: nat)
    requires SourcesHeld(locked, crates) && i < |crates|
    ensures ShelfAt(crates[i].source) in locked
  {
  }

  lemma CarriedKeys(shelves: map<nat, Stock.Shelf>, crate: Crate, reference: Stock.Reference)
    requires crate.source in shelves && crate.target in shelves
    ensures Carried(shelves, crate, reference).Keys == shelves.Keys
  {
  }

  lemma NoneWritten(db: Database)
    ensures AllWritten(db, {})
  {
  }

  lemma TargetsNext(crates: seq<Crate>, i: nat)
    requires i < |crates|
    ensures i < |Targets(crates)| && Targets(crates)[..i + 1] == Targets(crates)[..i] + [crates[i].target]
  {
  }

  lemma TargetsAll(crates: seq<Crate>)
    ensures |Targets(crates)| == |crates| && Targets(crates)[..0] == []
    ensures Targets(crates)[..|crates|] == Targets(crates)
  {
  }

  // ---- The service --------------------------------------------------------------------

  class StockService {
    const db: Store
    const policy: Stock.Policy

    constructor (db: Store, policy: Stock.Policy)
      ensures this.db == db && this.policy == policy
    {
      this.db, this.policy := db, policy;
    }

    /** The shelf's row, made empty if the branch never held the article, then locked. */
    method LockOne(id: nat) returns (shelf: Stock.Shelf)
      modifies db`rows, db`locked
      ensures shelf == ShelfNow(old(db.Sees()), id)
      ensures db.rows == old(db.Sees())[ShelfAt(id) := AShelf(shelf)] && db.locked == Noted(old(db.locked), ShelfAt(id))
    {
      var row := db.Lock(ShelfAt(id));
      if row.None? || !row.value.AShelf? {
        db.rows := db.rows[ShelfAt(id) := AShelf(NEW_SHELF)];
      }
      shelf := ShelfNow(db.rows, id);
    }

    /** Several of them, one after another. */
    method LockIds(ids: seq<nat>) returns (shelves: map<nat, Stock.Shelf>)
      requires db.locked != []
      modifies db`rows, db`locked
      ensures shelves == HeldShelves(old(db.rows), Named(ids))
      ensures db.rows == old(db.rows) + ShelfRows(shelves)
      ensures db.locked == NotedAll(old(db.locked), ShelfKeys(ids)) && db.locked != []
    {
      hide HeldShelves, ShelfNow, ShelfRows, Noted, NotedAll, ShelfKeys, Named;
      shelves := map[];
      NoneHeld(db.rows);
      NoneNamed();
      NoShelfKeys();
      NoneNoted(db.locked);
      for i := 0 to |ids|
        invariant shelves == HeldShelves(old(db.rows), Named(ids[..i]))
        invariant db.rows == old(db.rows) + ShelfRows(shelves)
        invariant db.locked == NotedAll(old(db.locked), ShelfKeys(ids[..i])) && db.locked != []
      {
        var shelf := LockOne(ids[i]);
        HeldNext(old(db.rows), Named(ids[..i]), ids[i]);
        ShelfNoted(old(db.locked), ids[..i], ids[i]);
        NamedNext(ids[..i], ids[i]);
        assert ids[..i + 1] == ids[..i] + [ids[i]];
        shelves := shelves[ids[i] := shelf];
      }
      assert ids[..|ids|] == ids;
    }

    /** The rows of those the branch never held made, in the order of the lines. */
    method Make(lines: seq<Stock.Line>)
      requires db.locked != []
      modifies db`rows, db`locked
      ensures db.rows == old(db.rows) + ShelfRows(HeldShelves(old(db.rows), Named(Missing(lines, old(db.rows)))))
      ensures db.locked == NotedAll(old(db.locked), ShelfKeys(Missing(lines, old(db.rows)))) && db.locked != []
    {
      hide HeldShelves, ShelfRows, Noted, NotedAll, ShelfKeys, ShelfNow, Missing;
      ghost var start := db.rows;
      NoneHeld(db.rows);
      NoShelfKeys();
      NoneNoted(db.locked);
      NoneMade(lines, start);
      for i := 0 to |lines|
        invariant db.rows == start + ShelfRows(HeldShelves(start, Named(Missing(lines[..i], start))))
        invariant db.locked == NotedAll(old(db.locked), ShelfKeys(Missing(lines[..i], start))) && db.locked != []
      {
        ghost var made := Missing(lines[..i], start);
        MissingNext(lines, i, start);
        NotMadeYet(start, made, lines[i].shelf);
        if lines[i].quantity > 0 && ShelfAt(lines[i].shelf) !in db.rows {
          var shelf := LockOne(lines[i].shelf);
          HeldNext(start, Named(made), lines[i].shelf);
          ShelfNoted(old(db.locked), made, lines[i].shelf);
          NamedNext(made, lines[i].shelf);
        }
      }
      assert lines[..|lines|] == lines;
    }

    /** The lines' shelves, those there are no rows of made first; then all locked, lowest id first. */
    method Lock(lines: seq<Stock.Line>) returns (shelves: map<nat, Stock.Shelf>)
      requires db.locked != []
      modifies db`rows, db`locked
      ensures shelves == HeldShelves(old(db.rows), Stock.Touched(lines))
      ensures db.rows == old(db.rows) + ShelfRows(shelves)
      ensures db.locked == NotedAll(old(db.locked), ShelfKeys(ShelfOrder(lines, old(db.rows)))) && db.locked != []
    {
      hide HeldShelves, ShelfRows, Noted, NotedAll, ShelfKeys, ShelfNow, Missing, Stock.Ids, Stock.Touched;
      ghost var start, made := db.rows, Missing(lines, db.rows);
      Make(lines);
      shelves := LockIds(Stock.Ids(lines));
      IdsAreTouched(lines);
      MissingIsNamed(lines, start);
      LockedAhead(start, Named(made), Stock.Touched(lines), HeldShelves(start, Stock.Touched(lines)));
      LockedInTurn(old(db.locked), lines, start);
    }

    /** Stock may not go below zero, oversell aside. */
    method CheckCanReduce(shelf: Stock.Shelf, quantity: int) returns (why: Option<Refusal>)
      ensures why == CannotReduce(policy, shelf, quantity)
    {
      if quantity <= 0 { return None; }
      if shelf.onHand - quantity < 0 && !policy.oversell { return Some(InsufficientStock); }
      why := None;
    }

    /** What is wrong with a write-off before its shelf is locked. */
    method CheckWriteOff(w: WriteOff) returns (why: Option<Refusal>)
      requires IsLoss(w.kind)
      ensures why == WriteOffFault(w)
    {
      if !w.reason { return Some(ReasonRequired); }
      if w.quantity <= 0 { return Some(BadAmount); }
      why := None;
    }

    method WriteOff(w: WriteOff) returns (answer: Answer)
      requires db.locked == []
      modifies db
      ensures db.Ran(WriteOffRecipe(w, policy), old(db.rows), answer) && db.LockedAll(WriteOffRecipe(w, policy))
    {
      hide WriteOffRecipe, WriteOffFault, Ends, Leaves, CannotReduce, Stock.Write, InOrder, InStep, Store.Ran,
           NotedAll;
      ghost var c, first := WriteOffRecipe(w, policy), db.rows;
      WriteOffEnds(w, policy, first);
      WriteOffEnds(w, policy, db.next);
      WriteOffSteps(w, policy);
      if !w.kind.Damage? && !w.kind.Loss? {
        db.StopsAtOnce(c, first, Refused(NotAllowed));
        return Refused(NotAllowed);
      }
      var made := db.MadeBy(WriteOffKey(w));
      if made.Some? {
        db.StopsAtOnce(c, first, made.value);
        return made.value;
      }
      var why := CheckWriteOff(w);
      if why.Some? {
        db.StopsAtOnce(c, first, Refused(why.value));
        return Refused(why.value);
      }
      var shelf := LockOne(w.shelf);
      made := db.MadeBy(WriteOffKey(w));
      if made.Some? {
        db.Rollback();
        db.Stops(c, first, made.value);
        return made.value;
      }
      why := CheckCanReduce(shelf, w.quantity);
      if why.Some? {
        db.Rollback();
        db.Stops(c, first, Refused(why.value));
        return Refused(why.value);
      }
      WriteOffLeaves(w, policy, db.next);
      var after := db.WriteLedger(w.shelf, shelf, w.kind, -w.quantity, Stock.Manual);
      WrittenAgain(db.next, ShelfAt(w.shelf), AShelf(shelf), AShelf(after));
      answer := Made(WrittenOff(w.shelf, |shelf.ledger|));
      db.Insert(WriteOffKey(w), WrittenOff(w.shelf, |shelf.ledger|));
      db.Finishes(c, first, answer);
    }

    method Adjust(a: Correction) returns (answer: Answer)
      requires db.locked == []
      modifies db
      ensures db.Ran(CorrectionRecipe(a), old(db.rows), answer) && db.LockedAll(CorrectionRecipe(a))
    {
      hide CorrectionRecipe, Ends, Leaves, EverReceived, Stock.Write, InOrder, InStep, Store.Ran, NotedAll;
      ghost var c, first := CorrectionRecipe(a), db.rows;
      CorrectionEnds(a, first);
      CorrectionEnds(a, db.next);
      CorrectionLeaves(a, db.next);
      CorrectionSteps(a);
      if !a.reason || a.counted < 0 {
        answer := Refused(if !a.reason then ReasonRequired else BadAmount);
        db.StopsAtOnce(c, first, answer);
        return;
      }
      var shelf := LockOne(a.shelf);
      var delta := a.counted - shelf.onHand;
      if delta == 0 {
        db.Finishes(c, first, Unchanged);
        return Unchanged;
      }
      if delta > 0 && !EverReceived(shelf.ledger) {
        db.Rollback();
        db.Stops(c, first, Refused(NeverReceived));
        return Refused(NeverReceived);
      }
      var after := db.WriteLedger(a.shelf, shelf, Stock.Adjustment, delta, Stock.Manual);
      WrittenAgain(db.next, ShelfAt(a.shelf), AShelf(shelf), AShelf(after));
      answer := Made(Adjusted(a.shelf));
      db.Finishes(c, first, answer);
    }

    /** Lines of nothing are passed over. */
    method Pack(crates: seq<Crate>) returns (packed: seq<Crate>)
      ensures packed == StockRoom.Packed(crates)
    {
      packed := [];
      for i := 0 to |crates|
        invariant packed + StockRoom.Packed(crates[i..]) == StockRoom.Packed(crates)
      {
        if crates[i].quantity > 0 {
          packed := packed + [crates[i]];
        }
      }
    }

    /** One shelf locked, and written. */
    method MoveOne(id: nat, kind: Stock.Movement, delta: int, reference: Stock.Reference) returns (after: Stock.Shelf)
      requires db.locked != []
      modifies db`rows, db`locked
      ensures after == Stock.Write(ShelfNow(old(db.rows), id), kind, delta, reference)
      ensures db.rows == old(db.rows)[ShelfAt(id) := AShelf(after)]
      ensures db.locked == Noted(old(db.locked), ShelfAt(id))
    {
      hide Stock.Write, Noted;
      var shelf := LockOne(id);
      after := db.WriteLedger(id, shelf, kind, delta, reference);
      WrittenAgain(old(db.rows), ShelfAt(id), AShelf(shelf), AShelf(after));
    }

    /** One line, out of the one shelf and into the other, locked as it is received. */
    method CarryOne(crate: Crate, reference: Stock.Reference, ghost start: Database, ghost shelves: map<nat,
        Stock.Shelf>)
      requires Tracks(db.rows, start, shelves) && crate.source in shelves && crate.target in shelves
      requires ShelfAt(crate.source) in db.locked
      modifies db`rows, db`locked
      ensures Tracks(db.rows, start, Carried(shelves, crate, reference))
      ensures forall ids :: AllWritten(old(db.rows), ids) ==> AllWritten(db.rows, ids + {crate.source, crate.target})
      ensures db.locked == Noted(old(db.locked), ShelfAt(crate.target))
    {
      hide ShelfNow, ShelfRows, Stock.Write, Tracks;
      var q: int := crate.quantity;
      TracksReads(db.rows, start, shelves, crate.source);
      var out := MoveOne(crate.source, Stock.TransferOut, -q, reference);
      TracksWrite(old(db.rows), start, shelves, crate.source, out);
      ghost var sent := db.rows;
      TracksReads(sent, start, shelves[crate.source := out], crate.target);
      var into := MoveOne(crate.target, Stock.TransferIn, q, reference);
      TracksWrite(sent, start, shelves[crate.source := out], crate.target, into);
    }

    /** Each line checked on its own against the shelves as they were locked. */
    method CheckLines(crates: seq<Crate>, sources: map<nat, Stock.Shelf>) returns (why: Option<Refusal>)
      requires forall i :: 0 <= i < |crates| ==> crates[i].source in sources
      ensures why == if exists i ::
          0 <= i < |crates| && CannotReduce(policy, sources[crates[i].source], crates[i].quantity).Some?
                     then Some(InsufficientStock) else None
    {
      for i := 0 to |crates|
        invariant forall j :: 0 <= j < i ==> CannotReduce(policy, sources[crates[j].source], crates[j].quantity).None?
      {
        why := CheckCanReduce(sources[crates[i].source], crates[i].quantity);
        if why.Some? { return; }
      }
      why := None;
    }

    /** Each line out of its one shelf and into the other, locked as it is received. */
    method Carry(crates: seq<Crate>, reference: Stock.Reference)
      requires SourcesHeld(db.locked, crates)
      modifies db`rows, db`locked
      ensures db.rows == old(db.rows) +
          ShelfRows(StockRoom.Shipped(HeldShelves(old(db.rows), Involved(crates)), crates, reference))
      ensures db.locked == NotedAll(old(db.locked), ShelfKeys(Targets(crates)))
    {
      hide ShelfNow, ShelfRows, HeldShelves, Stock.Write, Tracks, NotedAll, Noted, ShelfKeys, Carried, SourcesHeld,
           AllWritten, Targets;
      ghost var start, written: set<nat> := db.rows, {};
      ghost var shelves := HeldShelves(start, Involved(crates));
      TracksStart(start, Involved(crates));
      NoShelfKeys();
      NoneNoted(db.locked);
      TargetsAll(crates);
      NoneWritten(db.rows);
      for i := 0 to |crates|
        invariant shelves.Keys == Involved(crates) == written + Involved(crates[i..])
        invariant StockRoom.Shipped(shelves, crates[i..], reference) ==
                  StockRoom.Shipped(HeldShelves(start, Involved(crates)), crates, reference)
        invariant Tracks(db.rows, start, shelves) && AllWritten(db.rows, written)
        invariant SourcesHeld(db.locked, crates)
        invariant db.locked == NotedAll(old(db.locked), ShelfKeys(Targets(crates)[..i]))
      {
        assert crates[i..][0] == crates[i] && crates[i..][1..] == crates[i + 1..];
        SourceHeld(db.locked, crates, i);
        SourcesStayHeld(db.locked, crates, ShelfAt(crates[i].target));
        CarryOne(crates[i], reference, start, shelves);
        ShelfNoted(old(db.locked), Targets(crates)[..i], crates[i].target);
        TargetsNext(crates, i);
        CarriedKeys(shelves, crates[i], reference);
        shelves := Carried(shelves, crates[i], reference);
        written := written + {crates[i].source, crates[i].target};
      }
      TracksAll(db.rows, start, shelves);
    }

    /** Numbered and its key claimed before any stock moves; every line checked against the shelf as
        it was locked before any is carried. */
    method Transfer(t: Shipment) returns (answer: Answer)
      requires db.locked == []
      modifies db
      ensures db.Ran(ShipmentOn(t, policy, db.next), old(db.rows), answer)
      ensures db.LockedAll(ShipmentOn(t, policy, db.next))
    {
      hide ShipmentRecipe, ShipmentOn, ShelfOrder, Stock.Touched, Ends, Leaves, CannotReduce, StockRoom.Packed,
           StockRoom.Shipped, Involved, Leaving, ShelfRows, Tracks, InOrder, InStep, Store.Ran, NotedAll, Noted,
           WithKey, Found, Claiming, ShelfKeys, Targets, Short;
      ghost var c, first := ShipmentOn(t, policy, db.next), db.rows;
      ShipmentEnds(t, policy, first);
      ShipmentEnds(t, policy, db.next);
      ShipmentOnEnds(t, policy, db.next, first);
      ShipmentOnEnds(t, policy, db.next, db.next);
      ShipmentSteps(t, policy, db.next);
      var made := db.MadeBy(ShipmentKey(t));
      if made.Some? {
        db.StopsAtOnce(c, first, made.value);
        return made.value;
      }
      var crates := Pack(t.crates);
      if t.sameBranch || crates == [] {
        answer := Refused(if t.sameBranch then SameBranch else NoLines);
        db.StopsAtOnce(c, first, answer);
        return;
      }
      var number := db.NextNumber(StockTransfers);
      ClaimAfterNumber(t, db.next);
      made := db.Claim(ShipmentKey(t), StockSent(number));
      if made.Some? {
        db.Rollback();
        db.Stops(c, first, made.value);
        return made.value;
      }
      ghost var numbered := db.rows;
      Numbered(t, db.next);
      NumberedShelves(t, Leaving(crates), db.next);
      var sources := Lock(Leaving(crates));
      IdsAreTouched(Leaving(crates));
      SourcesInvolved(crates);
      SourcesLocked(t, crates);
      SourcesInLocked(t, crates, db.next);
      var why := CheckLines(crates, sources);
      ShortWhen(policy, crates, db.next, sources);
      if why.Some? {
        db.Rollback();
        db.Stops(c, first, Refused(why.value));
        return Refused(why.value);
      }
      ShipmentLeaves(t, policy, db.next);
      LockedAhead(numbered, Named(Stock.Ids(Leaving(crates))), Involved(crates),
                  StockRoom.Shipped(HeldShelves(numbered, Involved(crates)), crates, Stock.ForTransfer(number)));
      Carry(crates, Stock.ForTransfer(number));
      answer := Made(StockSent(number));
      db.Finishes(c, first, answer);
    }

    /** What each shelf is asked for in all, and the shelves in the order first asked. */
    method Asks(lines: seq<Stock.Line>) returns (asked: map<nat, nat>, order: seq<nat>)
      ensures asked.Keys == Named(order) == Stock.Touched(lines)
      ensures forall id :: id in asked ==> asked[id] == Stock.Asked(lines, id)
    {
      asked, order := map[], [];
      for i := 0 to |lines|
        invariant asked.Keys == Named(order)
        invariant asked.Keys + Stock.Touched(lines[i..]) == Stock.Touched(lines)
        invariant forall id ::
            (if id in asked then asked[id] else 0) + Stock.Asked(lines[i..], id) == Stock.Asked(lines, id)
      {
        assert lines[i..][1..] == lines[i + 1..];
        var line := lines[i];
        if line.quantity > 0 {
          if line.shelf !in asked {
            order := order + [line.shelf];
          }
          asked := asked[line.shelf := line.quantity + if line.shelf in asked then asked[line.shelf] else 0];
        }
      }
    }

    /** Every shelf asked against what it has, before any line is written: held stock is not for
        another online order, nor, unless the shop lets it, for the counter. */
    method CheckAsked(counter: bool, lines: seq<Stock.Line>, shelves: map<nat, Stock.Shelf>)
      returns (why: Option<Refusal>)
      requires Stock.Touched(lines) <= shelves.Keys
      ensures why == if Takes(policy, counter, shelves, lines) then None else Some(InsufficientStock)
    {
      hide Stock.Touched, Stock.Asked;
      var asked, order := Asks(lines);
      for i := 0 to |order|
        invariant forall j :: 0 <= j < i ==> TakesOne(policy, counter, shelves[order[j]], asked[order[j]])
      {
        assert order[i] in Named(order);
        Stock.TouchedIsAsked(lines, order[i]);
        var shelf, quantity := shelves[order[i]], asked[order[i]];
        if counter {
          why := CheckCanReduce(shelf, quantity);
          if why.None? && quantity > shelf.onHand - shelf.reserved && !policy.oversell && !policy.counterSellsReserved {
            why := Some(InsufficientStock);
          }
        } else {
          why := if shelf.onHand - shelf.reserved < quantity && !policy.oversell then Some(InsufficientStock) else None;
        }
        assert why.Some? <==> !TakesOne(policy, counter, shelf, quantity);
        if why.Some? { return; }
      }
      forall id | id in Stock.Touched(lines) ensures TakesOne(policy, counter, shelves[id], Stock.Asked(lines, id)) {
        assert id in Named(order);
      }
      why := None;
    }

    /** The first of the lines written; a job if it leaves its shelf running low. */
    method WriteFirst(
        held: map<nat, Stock.Shelf>, lines: seq<Stock.Line>, kind: Stock.Movement, inward: bool,
            reference: Stock.Reference,
        ghost start: Database) returns (shelves: map<nat, Stock.Shelf>, jobs: seq<Job>)
      requires Stock.Covers(held, lines) && db.rows == start + ShelfRows(held) && lines != []
      modifies db`rows
      ensures Stock.Covers(shelves, lines[1..])
      ensures Stock.Moved(shelves, lines[1..], kind, inward, reference) ==
          Stock.Moved(held, lines, kind, inward, reference)
      ensures jobs + Alerts(shelves, lines[1..], kind, inward, reference) ==
          Alerts(held, lines, kind, inward, reference)
      ensures db.rows == start + ShelfRows(shelves)
    {
      hide ShelfRows, Stock.Write, Stock.Moved, Stock.Covers, Stock.Asked, Alerts;
      Stock.MovedFirst(held, lines, kind, inward, reference);
      AlertsFirst(held, lines, kind, inward, reference);
      shelves, jobs := held, [];
      var line := lines[0];
      if line.quantity > 0 {
        var delta := if inward then line.quantity as int else -(line.quantity as int);
        var shelf := db.WriteLedger(line.shelf, held[line.shelf], kind, delta, reference);
        RowsAgain(start, held, line.shelf, shelf);
        shelves := held[line.shelf := shelf];
        if shelf.Available() <= shelf.reorderPoint {
          jobs := [LowStock(line.shelf)];
        }
      }
    }

    /** Each line written, lines of nothing passed over. */
    method WriteLines(
        held: map<nat, Stock.Shelf>, lines: seq<Stock.Line>, kind: Stock.Movement, inward: bool,
            reference: Stock.Reference,
        ghost start: Database) returns (shelves: map<nat, Stock.Shelf>, jobs: seq<Job>)
      requires Stock.Covers(held, lines) && db.rows == start + ShelfRows(held)
      modifies db`rows
      ensures shelves == Stock.Moved(held, lines, kind, inward, reference)
      ensures jobs == Alerts(held, lines, kind, inward, reference)
      ensures db.rows == start + ShelfRows(shelves)
    {
      hide ShelfRows, Stock.Moved, Stock.Touched, Alerts;
      shelves, jobs := held, [];
      for i := 0 to |lines|
        invariant Stock.Covers(shelves, lines[i..])
        invariant Stock.Moved(shelves, lines[i..], kind, inward, reference) ==
            Stock.Moved(held, lines, kind, inward, reference)
        invariant jobs + Alerts(shelves, lines[i..], kind, inward, reference) ==
            Alerts(held, lines, kind, inward, reference)
        invariant db.rows == start + ShelfRows(shelves)
      {
        assert lines[i..][1..] == lines[i + 1..];
        var low;
        shelves, low := WriteFirst(shelves, lines[i..], kind, inward, reference, start);
        jobs := jobs + low;
      }
      NoLinesLeft(shelves, kind, inward, reference);
    }
  }
}
