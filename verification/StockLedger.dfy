/** One shelf: what is on hand and what is reserved, cached over an append-only ledger. */
module StockLedger {
  datatype Movement =
    | Purchase | Sale | Return | Damage | Loss | Adjustment
    | TransferIn | TransferOut | Reservation | ReservationRelease | PurchaseReturn

  predicate Reserving(kind: Movement) {
    kind.Reservation? || kind.ReservationRelease?
  }

  /** What a movement was made for. */
  datatype Reference = Manual | ForOrder(order: nat) | ForTransfer(transfer: nat) | ForReturn(returned: nat)

  datatype Entry = Entry(kind: Movement, quantity: int, onHandAfter: int, reservedAfter: int, reference: Reference)

  datatype Shelf = Shelf(onHand: int, reserved: int, reorderPoint: int, ledger: seq<Entry>) {
    function Available(): int { onHand - reserved }
  }

  /** Whether stock may go below zero, and whether the counter may sell what online orders hold. */
  datatype Policy = Policy(oversell: bool, counterSellsReserved: bool)

  /** The cached figures moved and the matching entry appended. */
  function Write(shelf: Shelf, kind: Movement, delta: int, reference: Reference): Shelf {
    var onHand := shelf.onHand + if Reserving(kind) then 0 else delta;
    var reserved := shelf.reserved + if Reserving(kind) then delta else 0;
    shelf.(onHand := onHand, reserved := reserved,
           ledger := shelf.ledger + [Entry(kind, delta, onHand, reserved, reference)])
  }

  // ---- The ledger read on its own -----------------------------------------------------

  function OnHandOf(ledger: seq<Entry>): int {
    if ledger == [] then 0
    else OnHandOf(ledger[..|ledger| - 1]) +
         if Reserving(ledger[|ledger| - 1].kind) then 0 else ledger[|ledger| - 1].quantity
  }

  function ReservedOf(ledger: seq<Entry>): int {
    if ledger == [] then 0
    else ReservedOf(ledger[..|ledger| - 1]) +
         if Reserving(ledger[|ledger| - 1].kind) then ledger[|ledger| - 1].quantity else 0
  }

  /** The `i`-th entry's snapshot is what the entries up to it add up to. */
  ghost predicate SnapshotHolds(ledger: seq<Entry>, i: nat)
    requires i < |ledger|
  {
    ledger[i].onHandAfter == OnHandOf(ledger[..i + 1]) && ledger[i].reservedAfter == ReservedOf(ledger[..i + 1])
  }

  ghost predicate Agrees(shelf: Shelf) {
    && shelf.onHand == OnHandOf(shelf.ledger)
    && shelf.reserved == ReservedOf(shelf.ledger)
    && forall i :: 0 <= i < |shelf.ledger| ==> SnapshotHolds(shelf.ledger, i)
  }

  /** No hold was ever written for more than the shelf then had. */
  predicate HoldsFitted(ledger: seq<Entry>) {
    forall i :: 0 <= i < |ledger| && ledger[i].kind.Reservation? ==> ledger[i].reservedAfter <= ledger[i].onHandAfter
  }

  /** Only orders hold stock. */
  predicate HoldsNamed(ledger: seq<Entry>) {
    forall i :: 0 <= i < |ledger| && Reserving(ledger[i].kind) ==> ledger[i].reference.ForOrder?
  }

  ghost predicate Sound(policy: Policy, shelf: Shelf) {
    && Agrees(shelf) && HoldsNamed(shelf.ledger) && shelf.reserved >= 0
    && (policy.oversell || HoldsFitted(shelf.ledger))
  }

  /** What is true of every shelf in every committed state. */
  ghost predicate ShelfOk(policy: Policy, shelf: Shelf) {
    Sound(policy, shelf) && (policy.oversell || shelf.onHand >= 0)
  }

  lemma OneEntryMore(ledger: seq<Entry>, e: Entry)
    ensures OnHandOf(ledger + [e]) == OnHandOf(ledger) + if Reserving(e.kind) then 0 else e.quantity
    ensures ReservedOf(ledger + [e]) == ReservedOf(ledger) + if Reserving(e.kind) then e.quantity else 0
  {
    assert (ledger + [e])[..|ledger|] == ledger;
  }

  lemma WriteKeepsAgreement(shelf: Shelf, kind: Movement, delta: int, reference: Reference)
    requires Agrees(shelf)
    ensures Agrees(Write(shelf, kind, delta, reference))
  {
    hide OnHandOf, ReservedOf, Reserving;
    var after := Write(shelf, kind, delta, reference);
    OneEntryMore(shelf.ledger, after.ledger[|shelf.ledger|]);
    forall i | 0 <= i < |after.ledger| ensures SnapshotHolds(after.ledger, i) {
      if i < |shelf.ledger| {
        assert SnapshotHolds(shelf.ledger, i);
        assert after.ledger[..i + 1] == shelf.ledger[..i + 1];
      } else {
        assert after.ledger[..i + 1] == after.ledger;
      }
    }
  }

  lemma WriteKeepsOk(policy: Policy, shelf: Shelf, kind: Movement, delta: int, reference: Reference)
    requires ShelfOk(policy, shelf) && (Reserving(kind) ==> reference.ForOrder?)
    requires var after := Write(shelf, kind, delta, reference);
      && after.reserved >= 0
      && (!policy.oversell ==> after.onHand >= 0 && (kind.Reservation? ==> after.reserved <= after.onHand))
    ensures ShelfOk(policy, Write(shelf, kind, delta, reference))
  {
    WriteKeepsAgreement(shelf, kind, delta, reference);
  }

  /** Goods in or out leave the holds as they were. */
  lemma WriteKeepsSound(policy: Policy, shelf: Shelf, kind: Movement, delta: int, reference: Reference)
    requires Sound(policy, shelf) && !Reserving(kind)
    ensures Sound(policy, Write(shelf, kind, delta, reference))
  {
    WriteKeepsAgreement(shelf, kind, delta, reference);
  }

  // ---- Several lines at once ----------------------------------------------------------

  datatype Line = Line(shelf: nat, quantity: nat)

  /** What a set of lines asks of one shelf in all: a SKU on two lines is one question. */
  function Asked(lines: seq<Line>, id: nat): nat {
    if lines == [] then 0
    else Asked(lines[1..], id) + if lines[0].shelf == id then lines[0].quantity else 0
  }

  function Inserted(ids: seq<nat>, id: nat): seq<nat> {
    if ids == [] then [id]
    else if id < ids[0] then [id] + ids
    else if id == ids[0] then ids
    else [ids[0]] + Inserted(ids[1..], id)
  }

  /** The shelves the lines touch, lowest id first, each once. */
  function Ids(lines: seq<Line>): seq<nat> {
    if lines == [] then []
    else if lines[0].quantity == 0 then Ids(lines[1..])
    else Inserted(Ids(lines[1..]), lines[0].shelf)
  }

  /** The same shelves, as a set. */
  function Touched(lines: seq<Line>): set<nat> {
    if lines == [] then {}
    else if lines[0].quantity == 0 then Touched(lines[1..])
    else {lines[0].shelf} + Touched(lines[1..])
  }

  predicate Ascending(ids: seq<nat>) {
    forall i, j :: 0 <= i < j < |ids| ==> ids[i] < ids[j]
  }

  lemma {:induction false} InsertedHas(ids: seq<nat>, id: nat, x: nat)
    ensures x in Inserted(ids, id) <==> x in ids || x == id
  {
    if ids != [] {
      assert x in ids <==> x == ids[0] || x in ids[1..];
      if id > ids[0] {
        InsertedHas(ids[1..], id, x);
      }
    }
  }

  lemma {:induction false} InsertedAscends(ids: seq<nat>, id: nat)
    requires Ascending(ids)
    ensures Ascending(Inserted(ids, id))
  {
    if ids != [] && id > ids[0] {
      var rest := Inserted(ids[1..], id);
      InsertedAscends(ids[1..], id);
      forall j | 0 <= j < |rest| ensures ids[0] < rest[j] {
        InsertedHas(ids[1..], id, rest[j]);
      }
    }
  }

  lemma {:induction false} IdsAscend(lines: seq<Line>)
    ensures Ascending(Ids(lines))
    ensures forall id :: id in Ids(lines) <==> id in Touched(lines)
  {
    if lines != [] {
      IdsAscend(lines[1..]);
      if lines[0].quantity > 0 {
        InsertedAscends(Ids(lines[1..]), lines[0].shelf);
        forall id ensures id in Ids(lines) <==> id in Ids(lines[1..]) || id == lines[0].shelf {
          InsertedHas(Ids(lines[1..]), lines[0].shelf, id);
        }
      }
    }
  }

  lemma {:induction false} TouchedIsAsked(lines: seq<Line>, id: nat)
    ensures id in Touched(lines) <==> Asked(lines, id) > 0
  {
    if lines != [] {
      TouchedIsAsked(lines[1..], id);
    }
  }

  predicate Covers(rows: map<nat, Shelf>, lines: seq<Line>) {
    Touched(lines) <= rows.Keys
  }

  function Signed(inward: bool, quantity: nat): int {
    if inward then quantity as int else -(quantity as int)
  }

  /** Every line of the movement written in turn, lines of nothing left out. */
  function Moved(rows: map<nat, Shelf>, lines: seq<Line>, kind: Movement, inward: bool,
      reference: Reference): (after: map<nat, Shelf>)
    requires Covers(rows, lines)
    ensures after.Keys == rows.Keys
  {
    if lines == [] then rows
    else
      var first := lines[0];
      var next := if first.quantity == 0 then rows
                  else rows[first.shelf := Write(rows[first.shelf], kind, Signed(inward, first.quantity), reference)];
      Moved(next, lines[1..], kind, inward, reference)
  }

  /** The first line written, then the others. */
  lemma MovedFirst(rows: map<nat, Shelf>, lines: seq<Line>, kind: Movement, inward: bool, reference: Reference)
    requires Covers(rows, lines) && lines != []
    ensures Asked(lines, lines[0].shelf) == Asked(lines[1..], lines[0].shelf) + lines[0].quantity
    ensures forall id :: id != lines[0].shelf ==> Asked(lines, id) == Asked(lines[1..], id)
    ensures var first := lines[0];
      if first.quantity == 0 then
        Covers(rows, lines[1..]) &&
            Moved(rows, lines, kind, inward, reference) == Moved(rows, lines[1..], kind, inward, reference)
      else
        first.shelf in rows &&
        var next := rows[first.shelf := Write(rows[first.shelf], kind, Signed(inward, first.quantity), reference)];
        Covers(next, lines[1..]) &&
            Moved(rows, lines, kind, inward, reference) == Moved(next, lines[1..], kind, inward, reference)
  {
  }

  /** A shelf's figures after a movement of `delta`. */
  predicate Shifted(kind: Movement, before: Shelf, after: Shelf, delta: int) {
    && after.onHand == before.onHand + (if Reserving(kind) then 0 else delta)
    && after.reserved == before.reserved + (if Reserving(kind) then delta else 0)
    && after.reorderPoint == before.reorderPoint
  }

  lemma WriteShifts(shelf: Shelf, kind: Movement, delta: int, reference: Reference)
    ensures Shifted(kind, shelf, Write(shelf, kind, delta, reference), delta)
  {
  }

  /** A movement of many lines comes to each shelf as one movement of what it was asked for. */
  lemma {:induction false} MovedTotals(
      rows: map<nat, Shelf>, lines: seq<Line>, kind: Movement, inward: bool, reference: Reference, id: nat)
    requires Covers(rows, lines) && id in rows
    ensures Shifted(kind, rows[id], Moved(rows, lines, kind, inward, reference)[id], Signed(inward, Asked(lines, id)))
  {
    if lines != [] {
      MovedFirst(rows, lines, kind, inward, reference);
      var first := lines[0];
      if first.shelf in rows {
        WriteShifts(rows[first.shelf], kind, Signed(inward, first.quantity), reference);
      }
      hide Moved, Asked, Touched, Write;
      if first.quantity == 0 {
        MovedTotals(rows, lines[1..], kind, inward, reference, id);
      } else {
        var next := rows[first.shelf := Write(rows[first.shelf], kind, Signed(inward, first.quantity), reference)];
        MovedTotals(next, lines[1..], kind, inward, reference, id);
      }
    }
  }

  /** Goods held and goods sold alike come off what is available. */
  lemma TakenFromAvailable(rows: map<nat, Shelf>, lines: seq<Line>, counter: bool, reference: Reference, id: nat)
    requires Covers(rows, lines) && id in rows
    ensures Moved(rows, lines, if counter then Sale else Reservation, !counter, reference)[id].Available() ==
            rows[id].Available() - Asked(lines, id)
  {
    hide Moved, Touched, Asked;
    MovedTotals(rows, lines, if counter then Sale else Reservation, !counter, reference, id);
  }

  /** Shelves it was not asked of stay as they were. */
  lemma {:induction false} MovedLeaves(
      rows: map<nat, Shelf>, lines: seq<Line>, kind: Movement, inward: bool, reference: Reference, id: nat)
    requires Covers(rows, lines) && id in rows && id !in Touched(lines)
    ensures Moved(rows, lines, kind, inward, reference)[id] == rows[id]
  {
    if lines != [] {
      var first := lines[0];
      if first.quantity == 0 {
        MovedLeaves(rows, lines[1..], kind, inward, reference, id);
      } else {
        MovedLeaves(rows[first.shelf := Write(rows[first.shelf], kind, Signed(inward, first.quantity), reference)],
                    lines[1..], kind, inward, reference, id);
      }
    }
  }

  /** The checks made on the locked rows, before any line is written. */
  predicate CanReserve(policy: Policy, rows: map<nat, Shelf>, ids: seq<nat>, lines: seq<Line>)
    requires forall id :: id in ids ==> id in rows
  {
    policy.oversell || forall i :: 0 <= i < |ids| ==> Asked(lines, ids[i]) <= rows[ids[i]].Available()
  }

  predicate CanSell(policy: Policy, rows: map<nat, Shelf>, ids: seq<nat>, lines: seq<Line>)
    requires forall id :: id in ids ==> id in rows
  {
    policy.oversell ||
    forall i :: 0 <= i < |ids| ==>
      Asked(lines, ids[i]) <= rows[ids[i]].onHand &&
      (policy.counterSellsReserved || Asked(lines, ids[i]) <= rows[ids[i]].Available())
  }

  ghost predicate AllOk(policy: Policy, rows: map<nat, Shelf>) {
    forall id :: id in rows ==> ShelfOk(policy, rows[id])
  }

  /** Lines of a reservation that fits keep every shelf in order, line by line. */
  lemma {:induction false} ReservingKeepsOk(policy: Policy, rows: map<nat, Shelf>, lines: seq<Line>,
      reference: Reference)
    requires Covers(rows, lines) && AllOk(policy, rows) && reference.ForOrder?
    requires !policy.oversell ==> forall id :: id in rows && Asked(lines, id) > 0 ==>
        Asked(lines, id) <= rows[id].Available()
    ensures AllOk(policy, Moved(rows, lines, Reservation, true, reference))
  {
    if lines != [] {
      var first := lines[0];
      if first.quantity == 0 {
        assert forall id :: Asked(lines, id) == Asked(lines[1..], id);
        ReservingKeepsOk(policy, rows, lines[1..], reference);
      } else {
        assert Asked(lines, first.shelf) >= first.quantity;
        WriteKeepsOk(policy, rows[first.shelf], Reservation, first.quantity, reference);
        var next := rows[first.shelf := Write(rows[first.shelf], Reservation, first.quantity, reference)];
        forall id | id in next && Asked(lines[1..], id) > 0 && !policy.oversell
          ensures Asked(lines[1..], id) <= next[id].Available()
        {
          assert Asked(lines, id) >= Asked(lines[1..], id);
        }
        ReservingKeepsOk(policy, next, lines[1..], reference);
      }
    }
  }

  /** So do lines that take from the shelf no more than it has, and lines that put goods back. */
  lemma {:induction false} MovingKeepsOk(
      policy: Policy, rows: map<nat, Shelf>, lines: seq<Line>, kind: Movement, inward: bool, reference: Reference)
    requires Covers(rows, lines) && AllOk(policy, rows) && !Reserving(kind)
    requires !inward && !policy.oversell ==>
               forall id :: id in rows && Asked(lines, id) > 0 ==> Asked(lines, id) <= rows[id].onHand
    ensures AllOk(policy, Moved(rows, lines, kind, inward, reference))
  {
    if lines != [] {
      var first := lines[0];
      if first.quantity == 0 {
        assert forall id :: Asked(lines, id) == Asked(lines[1..], id);
        MovingKeepsOk(policy, rows, lines[1..], kind, inward, reference);
      } else {
        assert Asked(lines, first.shelf) >= first.quantity;
        WriteKeepsOk(policy, rows[first.shelf], kind, Signed(inward, first.quantity), reference);
        var next := rows[first.shelf := Write(rows[first.shelf], kind, Signed(inward, first.quantity), reference)];
        forall id | id in next && Asked(lines[1..], id) > 0 && !policy.oversell && !inward
          ensures Asked(lines[1..], id) <= next[id].onHand
        {
          assert Asked(lines, id) >= Asked(lines[1..], id);
        }
        MovingKeepsOk(policy, next, lines[1..], kind, inward, reference);
      }
    }
  }
}
