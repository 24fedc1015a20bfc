/** The stock room's requests in figures: what each is answered in every case, and what it leaves on every
    shelf, entry by entry. */
module StockLaws {
  import opened Wrappers
  import opened RowLocks
  import opened Recipes
  import opened Shop
  import opened Tallies
  import opened CashBook
  import opened StockRoom
  import Stock = StockLedger

  // ---- What a ledger tells, its snapshots aside ------------------------------------------

  datatype Mark = Mark(kind: Stock.Movement, quantity: int, reference: Stock.Reference)

  function Marks(ledger: seq<Stock.Entry>): (marks: seq<Mark>)
    ensures |marks| == |ledger|
  {
    seq(|ledger|, i requires 0 <= i < |ledger| => Mark(ledger[i].kind, ledger[i].quantity, ledger[i].reference))
  }

  lemma WriteMarks(shelf: Stock.Shelf, kind: Stock.Movement, delta: int, reference: Stock.Reference)
    ensures Marks(Stock.Write(shelf, kind, delta, reference).ledger) ==
            Marks(shelf.ledger) + [Mark(kind, delta, reference)]
  {
  }

  /** One entry for each line of something on the shelf, in the order of the lines. */
  function Told(lines: seq<Stock.Line>, id: nat, kind: Stock.Movement, inward: bool,
      reference: Stock.Reference): seq<Mark> {
    if lines == [] then []
    else
      var q: int := lines[0].quantity;
      (if q > 0 && lines[0].shelf == id then [Mark(kind, if inward then q else -q, reference)] else []) +
      Told(lines[1..], id, kind, inward, reference)
  }

  lemma ToldNext(lines: seq<Stock.Line>, id: nat, kind: Stock.Movement, inward: bool, reference: Stock.Reference)
    requires lines != []
    ensures var q: int := lines[0].quantity;
      Told(lines, id, kind, inward, reference) ==
      (if q > 0 && lines[0].shelf == id then [Mark(kind, if inward then q else -q, reference)] else []) +
      Told(lines[1..], id, kind, inward, reference)
  {
  }

  lemma NothingTold(id: nat, kind: Stock.Movement, inward: bool, reference: Stock.Reference)
    ensures Told([], id, kind, inward, reference) == []
  {
  }

  lemma {:induction false} MovedMarks(
      rows: map<nat, Stock.Shelf>, lines: seq<Stock.Line>, kind: Stock.Movement, inward: bool,
      reference: Stock.Reference, id: nat)
    requires Stock.Covers(rows, lines) && id in rows
    ensures Marks(Stock.Moved(rows, lines, kind, inward, reference)[id].ledger) ==
            Marks(rows[id].ledger) + Told(lines, id, kind, inward, reference)
  {
    hide Marks, Told, Stock.Asked;
    if lines == [] {
      NothingTold(id, kind, inward, reference);
    } else {
      var first := lines[0];
      ToldNext(lines, id, kind, inward, reference);
      if first.quantity == 0 {
        MovedMarks(rows, lines[1..], kind, inward, reference, id);
      } else {
        var delta := Stock.Signed(inward, first.quantity);
        MovedMarks(rows[first.shelf := Stock.Write(rows[first.shelf], kind, delta, reference)], lines[1..], kind,
                   inward, reference, id);
        WriteMarks(rows[first.shelf], kind, delta, reference);
      }
    }
  }

  /** One shelf as a request leaves it: so many more on hand, so many more held, and the entries that say so. */
  predicate Became(before: Stock.Shelf, after: Stock.Shelf, goods: int, held: int, told: seq<Mark>) {
    && after.onHand == before.onHand + goods
    && after.reserved == before.reserved + held
    && after.reorderPoint == before.reorderPoint
    && Marks(after.ledger) == Marks(before.ledger) + told
  }

  // ---- A write-off --------------------------------------------------------------------

  function StockKey(token: Option<Token>): Option<Key> {
    if token.Some? then Some(StockClaim(token.value)) else None
  }

  /** Damage and loss alone are written off, with a reason, and of no more than is on hand: the held included. */
  lemma WriteOffAnswers(w: WriteOff, policy: Stock.Policy, db: Database)
    requires w.token.Some? ==> StockClaim(w.token.value) !in db
    ensures var (after, answer), shelf := Effect(WriteOffRecipe(w, policy), db), ShelfIn(Read(db, ShelfAt(w.shelf)));
      if !w.kind.Damage? && !w.kind.Loss? then after == db && answer == Refused(NotAllowed)
      else if !w.reason then after == db && answer == Refused(ReasonRequired)
      else if w.quantity <= 0 then after == db && answer == Refused(BadAmount)
      else if !policy.oversell && shelf.onHand < w.quantity then after == db && answer == Refused(InsufficientStock)
      else
        var left := shelf.onHand - w.quantity;
        var entry := Stock.Entry(w.kind, -w.quantity, left, shelf.reserved, Stock.Manual);
        var made := WrittenOff(w.shelf, |shelf.ledger|);
        && answer == Made(made)
        && after == UnderKey(
             db[ShelfAt(w.shelf) := AShelf(shelf.(onHand := left, ledger := shelf.ledger + [entry]))],
             StockKey(w.token), made)
  {
    var c := WriteOffRecipe(w, policy);
    assert Keys(c) == [ShelfAt(w.shelf)];
    SnapshotHas(Keys(c), db, ShelfAt(w.shelf));
  }

  // ---- A correction -------------------------------------------------------------------

  /** The shelf is left with what was counted, and a shelf of an article no purchase or transfer ever brought is
      not counted up. */
  lemma CorrectionAnswers(a: Correction, db: Database)
    ensures var (after, answer), shelf := Effect(CorrectionRecipe(a), db), ShelfIn(Read(db, ShelfAt(a.shelf)));
      if !a.reason then after == db && answer == Refused(ReasonRequired)
      else if a.counted < 0 then after == db && answer == Refused(BadAmount)
      else if a.counted > shelf.onHand &&
              !(exists i :: 0 <= i < |shelf.ledger| && shelf.ledger[i].kind in {Stock.Purchase, Stock.TransferIn}) then
        after == db && answer == Refused(NeverReceived)
      else if a.counted == shelf.onHand then
        after == db[ShelfAt(a.shelf) := AShelf(shelf)] && answer == Unchanged
      else
        var entry := Stock.Entry(Stock.Adjustment, a.counted - shelf.onHand, a.counted, shelf.reserved, Stock.Manual);
        && answer == Made(Adjusted(a.shelf))
        && after == db[ShelfAt(a.shelf) := AShelf(shelf.(onHand := a.counted, ledger := shelf.ledger + [entry]))]
  {
    hide EverReceived, Snapshot, CorrectionWrites;
    var c := CorrectionRecipe(a);
    assert Keys(c) == [ShelfAt(a.shelf)];
    SnapshotHas(Keys(c), db, ShelfAt(a.shelf));
    Brought(ShelfIn(Read(db, ShelfAt(a.shelf))).ledger);
    if CorrectionFault(a).None? && c.check(Snapshot(Keys(c), db)).None? {
      CorrectionLeaves(a, Snapshot(Keys(c), db), db);
    }
  }

  lemma CorrectionLeaves(a: Correction, values: Values, db: Database)
    requires ShelfOf(values, a.shelf) == ShelfIn(Read(db, ShelfAt(a.shelf)))
    ensures var (writes, answer), shelf := CorrectionWrites(a, values), ShelfOf(values, a.shelf);
      if a.counted == shelf.onHand then
        db + writes == db[ShelfAt(a.shelf) := AShelf(shelf)] && answer == Unchanged
      else
        var entry := Stock.Entry(Stock.Adjustment, a.counted - shelf.onHand, a.counted, shelf.reserved, Stock.Manual);
        && answer == Made(Adjusted(a.shelf))
        && db + writes == db[ShelfAt(a.shelf) := AShelf(shelf.(onHand := a.counted, ledger := shelf.ledger + [entry]))]
  {
  }

  lemma Brought(ledger: seq<Stock.Entry>)
    ensures EverReceived(ledger) <==>
      exists i :: 0 <= i < |ledger| && ledger[i].kind in {Stock.Purchase, Stock.TransferIn}
  {
  }

  // ---- A transfer between branches ----------------------------------------------------

  function Sent(crates: seq<Crate>, id: nat): nat {
    if crates == [] then 0 else Sent(crates[1..], id) + if crates[0].source == id then crates[0].quantity else 0
  }

  function Got(crates: seq<Crate>, id: nat): nat {
    if crates == [] then 0 else Got(crates[1..], id) + if crates[0].target == id then crates[0].quantity else 0
  }

  /** A shelf's entries for a transfer, line after line: out of it, then into it. */
  function Legs(crates: seq<Crate>, id: nat, number: nat): seq<Mark> {
    if crates == [] then []
    else
      var q: int := crates[0].quantity;
      (if q > 0 && crates[0].source == id then [Mark(Stock.TransferOut, -q, Stock.ForTransfer(number))] else []) +
      (if q > 0 && crates[0].target == id then [Mark(Stock.TransferIn, q, Stock.ForTransfer(number))] else []) +
      Legs(crates[1..], id, number)
  }

  /** The first line and the rest. */
  lemma LinesNext(crates: seq<Crate>, id: nat)
    requires crates != []
    ensures Stock.Asked(Leaving(crates), id) ==
            Stock.Asked(Leaving(crates[1..]), id) + if crates[0].source == id then crates[0].quantity else 0
    ensures Stock.Asked(Arriving(crates), id) ==
            Stock.Asked(Arriving(crates[1..]), id) + if crates[0].target == id then crates[0].quantity else 0
  {
    assert Leaving(crates)[1..] == Leaving(crates[1..]) && Arriving(crates)[1..] == Arriving(crates[1..]);
  }

  lemma PackedNext(crates: seq<Crate>)
    requires crates != []
    ensures var rest, packed := StockRoom.Packed(crates[1..]), StockRoom.Packed(crates);
      if crates[0].quantity > 0 then packed != [] && packed[0] == crates[0] && packed[1..] == rest else packed == rest
  {
  }

  lemma {:induction false} PackedSums(crates: seq<Crate>, id: nat, number: nat)
    ensures Stock.Asked(Leaving(StockRoom.Packed(crates)), id) == Sent(crates, id)
    ensures Stock.Asked(Arriving(StockRoom.Packed(crates)), id) == Got(crates, id)
    ensures Legs(StockRoom.Packed(crates), id, number) == Legs(crates, id, number)
  {
    hide Leaving, Arriving, Stock.Asked, StockRoom.Packed;
    if crates == [] {
      NothingPacked(id);
    } else {
      PackedSums(crates[1..], id, number);
      PackedNext(crates);
      if crates[0].quantity > 0 {
        LinesNext(StockRoom.Packed(crates), id);
      }
    }
  }

  lemma NothingPacked(id: nat)
    ensures StockRoom.Packed([]) == [] && Stock.Asked(Leaving([]), id) == Stock.Asked(Arriving([]), id) == 0
  {
  }

  lemma {:induction false} PackedHas(crates: seq<Crate>, crate: Crate)
    ensures crate in StockRoom.Packed(crates) <==> crate in crates && crate.quantity > 0
  {
    if crates != [] {
      PackedHas(crates[1..], crate);
    }
  }

  lemma CarriedMarks(rows: map<nat, Stock.Shelf>, crate: Crate, number: nat, id: nat)
    requires crate.source in rows && crate.target in rows && id in rows && crate.quantity > 0
    ensures Marks(Carried(rows, crate, Stock.ForTransfer(number))[id].ledger) ==
            Marks(rows[id].ledger) + Legs([crate], id, number)
    ensures Carried(rows, crate, Stock.ForTransfer(number)).Keys == rows.Keys
    ensures Carried(rows, crate, Stock.ForTransfer(number))[id].reorderPoint == rows[id].reorderPoint
  {
    hide Marks;
    var q: int := crate.quantity;
    var out := rows[crate.source :=
                      Stock.Write(rows[crate.source], Stock.TransferOut, -q, Stock.ForTransfer(number))];
    WriteMarks(rows[crate.source], Stock.TransferOut, -q, Stock.ForTransfer(number));
    WriteMarks(out[crate.target], Stock.TransferIn, q, Stock.ForTransfer(number));
    assert [crate][1..] == [];
  }

  lemma {:induction false} ShippedMarks(rows: map<nat, Stock.Shelf>, crates: seq<Crate>, number: nat, id: nat)
    requires Involved(crates) <= rows.Keys && id in rows
    requires forall i :: 0 <= i < |crates| ==> crates[i].quantity > 0
    ensures Marks(StockRoom.Shipped(rows, crates, Stock.ForTransfer(number))[id].ledger) ==
            Marks(rows[id].ledger) + Legs(crates, id, number)
    ensures StockRoom.Shipped(rows, crates, Stock.ForTransfer(number))[id].reorderPoint == rows[id].reorderPoint
  {
    hide Marks, Legs, Carried;
    if crates == [] {
      NoLegs(id, number);
    }
    if crates != [] {
      var next := Carried(rows, crates[0], Stock.ForTransfer(number));
      assert forall i :: 0 <= i < |crates[1..]| ==> crates[1..][i] == crates[i + 1];
      CarriedMarks(rows, crates[0], number, id);
      ShippedMarks(next, crates[1..], number, id);
      FirstLegs(crates, id, number);
    }
  }

  lemma NoLegs(id: nat, number: nat)
    ensures Legs([], id, number) == []
  {
  }

  lemma FirstLegs(crates: seq<Crate>, id: nat, number: nat)
    requires crates != []
    ensures Legs(crates, id, number) == Legs([crates[0]], id, number) + Legs(crates[1..], id, number)
  {
    assert [crates[0]][1..] == [];
  }

  lemma {:induction false} Uninvolved(crates: seq<Crate>, id: nat, number: nat)
    requires id !in Involved(crates)
    ensures Sent(crates, id) == Got(crates, id) == 0 && Legs(crates, id, number) == []
  {
    if crates != [] {
      Uninvolved(crates[1..], id, number);
    }
  }

  function ShipmentKey(token: Option<Token>): Option<Key> {
    if token.Some? then Some(StockTransferClaim(token.value)) else None
  }

  /** Some line asks its shelf for more than it has on hand. */
  predicate SomeShort(crates: seq<Crate>, db: Database) {
    exists i :: 0 <= i < |crates| && crates[i].quantity > 0 &&
                ShelfNow(db, crates[i].source).onHand < crates[i].quantity
  }

  /** Every shelf of an unlocked row reads as it is. */
  lemma SourcesRead(t: Shipment, policy: Stock.Policy, db: Database, id: nat)
    requires id in Involved(StockRoom.Packed(t.crates))
    ensures ShelfOf(Snapshot(Keys(ShipmentRecipe(t, policy)), db), id) == ShelfNow(db, id)
  {
    hide ShipmentRecipe, StockRoom.Packed, Involved;
    InvolvedIsLocked(t, policy, id);
    SnapshotHas(Keys(ShipmentRecipe(t, policy)), db, ShelfAt(id));
  }

  lemma ShortIsRefused(t: Shipment, policy: Stock.Policy, db: Database)
    ensures ShipmentObjection(policy, StockRoom.Packed(t.crates), Snapshot(Keys(ShipmentRecipe(t, policy)), db)).Some?
            <==> !policy.oversell && SomeShort(t.crates, db)
  {
    hide ShipmentRecipe, StockRoom.Packed, Involved, Snapshot, Leaving, HasShelves, ShelfOf, ShelfNow;
    var crates, values := StockRoom.Packed(t.crates), Snapshot(Keys(ShipmentRecipe(t, policy)), db);
    AllRead(t, policy, db);
    forall i | 0 <= i < |crates|
      ensures ShelfOf(values, crates[i].source) == ShelfNow(db, crates[i].source)
      ensures crates[i] in t.crates && crates[i].quantity > 0
    {
      LineInvolves(crates, i);
      SourcesRead(t, policy, db, crates[i].source);
      PackedHas(t.crates, crates[i]);
    }
    if !policy.oversell && SomeShort(t.crates, db) {
      var i :| 0 <= i < |t.crates| && t.crates[i].quantity > 0 &&
        ShelfNow(db, t.crates[i].source).onHand < t.crates[i].quantity;
      PackedHas(t.crates, t.crates[i]);
      var j :| 0 <= j < |crates| && crates[j] == t.crates[i];
      assert CannotReduce(policy, ShelfOf(values, crates[j].source), crates[j].quantity).Some?;
    }
  }

  lemma AllRead(t: Shipment, policy: Stock.Policy, db: Database)
    ensures HasShelves(Snapshot(Keys(ShipmentRecipe(t, policy)), db), Stock.Ids(Leaving(StockRoom.Packed(t.crates))))
  {
    hide ShipmentRecipe, StockRoom.Packed, Leaving, HasShelves;
    ShelvesRead(t, policy, Snapshot(Keys(ShipmentRecipe(t, policy)), db));
  }

  lemma NoneIsPacked(crates: seq<Crate>)
    ensures StockRoom.Packed(crates) == [] <==> forall i :: 0 <= i < |crates| ==> crates[i].quantity == 0
  {
    forall i | 0 <= i < |crates| ensures crates[i] in StockRoom.Packed(crates) <==> crates[i].quantity > 0 {
      PackedHas(crates, crates[i]);
    }
    if StockRoom.Packed(crates) != [] {
      PackedHas(crates, StockRoom.Packed(crates)[0]);
    }
  }

  /** Nothing stops it. */
  predicate Sendable(t: Shipment, policy: Stock.Policy, db: Database) {
    !t.sameBranch && StockRoom.Packed(t.crates) != [] && (policy.oversell || !SomeShort(t.crates, db))
  }

  lemma ShipmentStops(t: Shipment, policy: Stock.Policy, db: Database)
    requires t.token.Some? ==> StockTransferClaim(t.token.value) !in db
    requires !Sendable(t, policy, db)
    ensures Effect(ShipmentRecipe(t, policy), db) ==
            (db, Refused(if t.sameBranch then SameBranch else if StockRoom.Packed(t.crates) == [] then NoLines
                         else InsufficientStock))
  {
    hide ShipmentWrites, ShipmentObjection, StockRoom.Packed, Snapshot, SomeShort, Keys, Leaving, Targets;
    ShortIsRefused(t, policy, db);
    ShortIs(t, policy, Snapshot(Keys(ShipmentRecipe(t, policy)), db));
  }

  lemma ShortIs(t: Shipment, policy: Stock.Policy, values: Values)
    ensures ShipmentObjection(policy, StockRoom.Packed(t.crates), values) in {None, Some(InsufficientStock)}
  {
    hide StockRoom.Packed, HasShelves;
  }

  lemma ShipmentGoes(t: Shipment, policy: Stock.Policy, db: Database)
    requires t.token.Some? ==> StockTransferClaim(t.token.value) !in db
    requires Sendable(t, policy, db)
    ensures var c := ShipmentRecipe(t, policy);
      var (writes, answer) := ShipmentWrites(t, Snapshot(Keys(c), db));
      && Effect(c, db).1 == answer
      && Effect(c, db).0 == if t.token.Some? then (db + writes)[StockTransferClaim(t.token.value) := Recorded(answer)]
         else db + writes
  {
    hide ShipmentWrites, ShipmentObjection, StockRoom.Packed, Snapshot, SomeShort, Keys, Leaving, Targets, Effect;
    ShortIsRefused(t, policy, db);
    EffectGoes(ShipmentRecipe(t, policy), db);
  }

  lemma ShipmentNumber(t: Shipment, policy: Stock.Policy, db: Database)
    ensures var values := Snapshot(Keys(ShipmentRecipe(t, policy)), db);
      var (writes, answer), number := ShipmentWrites(t, values), LastNumber(Read(db, NumberOf(StockTransfers))) + 1;
      && answer == Made(StockSent(number))
      && Read(writes, NumberOf(StockTransfers)) == Some(Counter(number))
      && LastNumber(Get(values, NumberOf(StockTransfers))) + 1 == number
  {
    hide ShelfRows, StockRoom.Shipped, StockRoom.Packed, Involved, ShelvesOf, ShelfKeys, Leaving, Targets;
    var c := ShipmentRecipe(t, policy);
    assert Keys(c)[0] == NumberOf(StockTransfers);
    SnapshotHas(Keys(c), db, NumberOf(StockTransfers));
  }

  /** A shelf of the transfer as its lines leave it. */
  lemma InvolvedBecomes(t: Shipment, policy: Stock.Policy, db: Database, id: nat)
    requires id in Involved(StockRoom.Packed(t.crates))
    ensures var number := LastNumber(Read(db, NumberOf(StockTransfers))) + 1;
      Became(ShelfNow(db, id), ShippedRow(t, Snapshot(Keys(ShipmentRecipe(t, policy)), db), id),
             Got(t.crates, id) - Sent(t.crates, id), 0, Legs(t.crates, id, number))
  {
    hide StockRoom.Packed, Involved, StockRoom.Shipped, Legs, Marks, Leaving, Arriving, Snapshot, Keys, HeldBy,
         SoldFor, Mentions, ShipmentWrites, Stock.Sound;
    var values, crates := Snapshot(Keys(ShipmentRecipe(t, policy)), db), StockRoom.Packed(t.crates);
    var number := LastNumber(Read(db, NumberOf(StockTransfers))) + 1;
    ShipmentNumber(t, policy, db);
    SourcesRead(t, policy, db, id);
    ShipmentMoves(t, policy, values, id);
    PackedSums(t.crates, id, number);
    PackedIsPositive(t.crates);
    ShippedMarks(ShelvesOf(values, Involved(crates)), crates, number, id);
  }

  lemma ShelfStays(shelf: Stock.Shelf)
    ensures Became(shelf, shelf, 0, 0, [])
  {
  }

  lemma ShipmentShelf(t: Shipment, policy: Stock.Policy, db: Database, id: nat)
    requires t.token.Some? ==> StockTransferClaim(t.token.value) !in db
    requires Sendable(t, policy, db)
    ensures var after, number := Effect(ShipmentRecipe(t, policy), db).0,
                                 LastNumber(Read(db, NumberOf(StockTransfers))) + 1;
      Became(ShelfNow(db, id), ShelfNow(after, id), Got(t.crates, id) - Sent(t.crates, id), 0,
             Legs(t.crates, id, number))
  {
    hide ShipmentWrites, StockRoom.Packed, Effect, Snapshot, Became, Legs, ShippedRow, Involved, Sendable, Keys,
         ShipmentRecipe;
    var crates, values := StockRoom.Packed(t.crates), Snapshot(Keys(ShipmentRecipe(t, policy)), db);
    var number := LastNumber(Read(db, NumberOf(StockTransfers))) + 1;
    ShipmentGoes(t, policy, db);
    ShipmentWritten(t, values);
    if id in Involved(crates) {
      InvolvedBecomes(t, policy, db, id);
      assert Read(ShipmentWrites(t, values).0, ShelfAt(id)) == Some(AShelf(ShippedRow(t, values, id)));
    } else {
      Uninvolved(crates, id, number);
      PackedSums(t.crates, id, number);
      UninvolvedSums(crates, id);
      ShelfStays(ShelfNow(db, id));
    }
  }

  lemma {:induction false} UninvolvedSums(crates: seq<Crate>, id: nat)
    requires id !in Involved(crates)
    ensures Stock.Asked(Leaving(crates), id) == Stock.Asked(Arriving(crates), id) == 0
  {
    if crates == [] {
      NothingPacked(id);
    } else {
      LinesNext(crates, id);
      UninvolvedSums(crates[1..], id);
    }
  }

  /** Its number, its key, and the rows it leaves alone. */
  lemma ShipmentBeside(t: Shipment, policy: Stock.Policy, db: Database)
    requires t.token.Some? ==> StockTransferClaim(t.token.value) !in db
    requires Sendable(t, policy, db)
    ensures var (after, answer) := Effect(ShipmentRecipe(t, policy), db);
      var number := LastNumber(Read(db, NumberOf(StockTransfers))) + 1;
      && answer == Made(StockSent(number))
      && Read(after, NumberOf(StockTransfers)) == Some(Counter(number))
      && (t.token.Some? ==> Read(after, StockTransferClaim(t.token.value)) == Some(Claimed(StockSent(number))))
      && forall k: Key | !k.ShelfAt? && k != NumberOf(StockTransfers) && Some(k) != ShipmentKey(t.token) ::
           Read(after, k) == Read(db, k)
  {
    hide ShipmentWrites, StockRoom.Packed, Effect, Snapshot, Sendable, ShipmentRecipe, Keys, Involved;
    ShipmentGoes(t, policy, db);
    ShipmentNumber(t, policy, db);
    ShipmentWritten(t, Snapshot(Keys(ShipmentRecipe(t, policy)), db));
  }

  /** Each line is asked of its shelf as it is; together they leave every shelf with what came less what went. */
  lemma ShipmentAnswers(t: Shipment, policy: Stock.Policy, db: Database)
    requires t.token.Some? ==> StockTransferClaim(t.token.value) !in db
    ensures var (after, answer) := Effect(ShipmentRecipe(t, policy), db);
      if t.sameBranch then after == db && answer == Refused(SameBranch)
      else if forall i :: 0 <= i < |t.crates| ==> t.crates[i].quantity == 0 then
        after == db && answer == Refused(NoLines)
      else if !policy.oversell && SomeShort(t.crates, db) then after == db && answer == Refused(InsufficientStock)
      else
        var number := LastNumber(Read(db, NumberOf(StockTransfers))) + 1;
        && answer == Made(StockSent(number))
        && Read(after, NumberOf(StockTransfers)) == Some(Counter(number))
        && (t.token.Some? ==> Read(after, StockTransferClaim(t.token.value)) == Some(Claimed(StockSent(number))))
        && (forall id: nat ::
              Became(ShelfNow(db, id), ShelfNow(after, id), Got(t.crates, id) - Sent(t.crates, id), 0,
                     Legs(t.crates, id, number)))
        && forall k: Key | !k.ShelfAt? && k != NumberOf(StockTransfers) && Some(k) != ShipmentKey(t.token) ::
             Read(after, k) == Read(db, k)
  {
    hide StockRoom.Packed, Effect, Became, Legs, SomeShort, ShipmentRecipe, ShelfNow, Got, Sent, LastNumber;
    NoneIsPacked(t.crates);
    if !Sendable(t, policy, db) {
      ShipmentStops(t, policy, db);
    } else {
      ShipmentBeside(t, policy, db);
      forall id: nat
        ensures Became(ShelfNow(db, id), ShelfNow(Effect(ShipmentRecipe(t, policy), db).0, id),
                       Got(t.crates, id) - Sent(t.crates, id), 0,
                       Legs(t.crates, id, LastNumber(Read(db, NumberOf(StockTransfers))) + 1))
      {
        ShipmentShelf(t, policy, db, id);
      }
    }
  }
}
