/** Rows of a list moved up and down by their positions. A locking SELECT is sorted before it waits,
    so a move that queued acts on the order from before the wait and the positions from after it. */
module Moves {
  import opened Wrappers

  type Positions = map<nat, int>

  /** Sorted by position, then by the row itself. */
  predicate Precedes(positions: Positions, a: nat, b: nat)
    requires a in positions && b in positions
  {
    positions[a] < positions[b] || (positions[a] == positions[b] && a < b)
  }

  predicate Names(positions: Positions, rows: seq<nat>) {
    forall i :: 0 <= i < |rows| ==> rows[i] in positions
  }

  predicate NoRepeats(rows: seq<nat>) {
    forall i, j :: 0 <= i < j < |rows| ==> rows[i] != rows[j]
  }

  /** The rows, all of them, as a SELECT would sort them now. */
  ghost predicate IsOrder(rows: seq<nat>, positions: Positions) {
    && Names(positions, rows) && NoRepeats(rows)
    && (forall row :: row in positions ==> row in rows)
    && forall i, j :: 0 <= i < j < |rows| ==> Precedes(positions, rows[i], rows[j])
  }

  function Swapped(rows: seq<nat>, i: nat, j: nat): seq<nat>
    requires i < |rows| && j < |rows|
  {
    rows[i := rows[j]][j := rows[i]]
  }

  /** The first `n` of the rows numbered from nothing. */
  function Numbered(positions: Positions, rows: seq<nat>, n: nat): Positions
    requires n <= |rows|
  {
    if n == 0 then positions else Numbered(positions, rows, n - 1)[rows[n - 1] := n - 1]
  }

  lemma {:induction false} NumberedAt(positions: Positions, rows: seq<nat>, n: nat, i: nat)
    requires i < n <= |rows| && NoRepeats(rows)
    ensures rows[i] in Numbered(positions, rows, n) && Numbered(positions, rows, n)[rows[i]] == i
  {
    if i < n - 1 {
      NumberedAt(positions, rows, n - 1, i);
    }
  }

  lemma {:induction false} NumberedElsewhere(positions: Positions, rows: seq<nat>, n: nat, row: nat)
    requires n <= |rows| && row !in rows[..n]
    ensures row in Numbered(positions, rows, n) <==> row in positions
    ensures row in positions ==> Numbered(positions, rows, n)[row] == positions[row]
  {
    if n > 0 {
      assert rows[..n] == rows[..n - 1] + [rows[n - 1]];
      NumberedElsewhere(positions, rows, n - 1, row);
    }
  }

  // ---- The moves themselves -----------------------------------------------------------

  datatype Outcome = Done | AtTheEnd | NotThere

  /** The place one up or down, if there is one. */
  function TargetOf(index: nat, down: bool, length: nat): Option<nat> {
    if down then (if index + 1 < length then Some(index + 1) else None)
    else if index > 0 then Some(index - 1) else None
  }

  function PlaceOf(rows: seq<nat>, id: nat): Option<nat> {
    if rows == [] then None
    else if rows[0] == id then Some(0)
    else
      match PlaceOf(rows[1..], id)
      case None => None
      case Some(i) => Some(i + 1)
  }

  lemma {:induction false} PlaceIsThere(rows: seq<nat>, id: nat)
    ensures PlaceOf(rows, id).None? <==> id !in rows
    ensures PlaceOf(rows, id).Some? ==> PlaceOf(rows, id).value < |rows| && rows[PlaceOf(rows, id).value] == id
  {
    if rows != [] {
      PlaceIsThere(rows[1..], id);
      assert id in rows <==> id == rows[0] || id in rows[1..];
    }
  }

  lemma {:induction false} PlaceIsFirst(rows: seq<nat>, i: nat)
    requires NoRepeats(rows) && i < |rows|
    ensures PlaceOf(rows, rows[i]) == Some(i)
  {
    if i > 0 {
      PlaceIsFirst(rows[1..], i - 1);
    }
  }

  function OutcomeOf(rows: seq<nat>, id: nat, down: bool): Outcome {
    match PlaceOf(rows, id)
    case None => NotThere
    case Some(i) => if TargetOf(i, down, |rows|).None? then AtTheEnd else Done
  }

  /** What a renumbering move leaves: the rows as it sorted them, the one moved past its neighbour. */
  function Renumbered(positions: Positions, rows: seq<nat>, id: nat, down: bool): Positions {
    PlaceIsThere(rows, id);
    match PlaceOf(rows, id)
    case None => positions
    case Some(i) =>
      match TargetOf(i, down, |rows|)
      case None => positions
      case Some(j) => Numbered(positions, Swapped(rows, i, j), |rows|)
  }

  /** What a swapping move leaves: `own` is the moved row's position as it was before the lock. */
  function Exchanged(positions: Positions, rows: seq<nat>, id: nat, own: int, down: bool): Positions
    requires Names(positions, rows)
  {
    PlaceIsThere(rows, id);
    match PlaceOf(rows, id)
    case None => positions
    case Some(i) =>
      match TargetOf(i, down, |rows|)
      case None => positions
      case Some(j) =>
        if positions[rows[j]] == own then Numbered(positions, Swapped(rows, i, j), |rows|)
        else positions[id := positions[rows[j]]][rows[j] := own]
  }

  /** A list whose rows carry positions. */
  class OrderedRun {
    var positions: Positions

    constructor (initial: Positions)
      ensures positions == initial
    {
      positions := initial;
    }

    /** Where the row stands among the rows sorted before the wait. */
    method Find(rows: seq<nat>, id: nat) returns (index: int)
      ensures index == match PlaceOf(rows, id) case None => -1 case Some(i) => i
    {
      index := 0;
      PlaceIsThere(rows, id);
      while index < |rows| && rows[index] != id
        invariant 0 <= index <= |rows|
        invariant PlaceOf(rows, id) ==
            match PlaceOf(rows[index..], id) case None => None case Some(i) => Some(index + i)
      {
        index := index + 1;
      }
      if index == |rows| {
        index := -1;
      }
    }

    /** The rows numbered from nothing, in turn. */
    method Number(rows: seq<nat>)
      modifies this
      ensures positions == Numbered(old(positions), rows, |rows|)
    {
      var offset := 0;
      while offset < |rows|
        invariant 0 <= offset <= |rows|
        invariant positions == Numbered(old(positions), rows, offset)
      {
        positions := positions[rows[offset] := offset];
        offset := offset + 1;
      }
    }

    /** The whole run locked in the order it was sorted, and renumbered. */
    method Renumber(rows: seq<nat>, id: nat, down: bool) returns (outcome: Outcome)
      modifies this
      ensures positions == Renumbered(old(positions), rows, id, down)
      ensures outcome == OutcomeOf(rows, id, down)
    {
      PlaceIsThere(rows, id);
      var index := Find(rows, id);
      if index == -1 {
        return NotThere;
      }
      var target := if down then index + 1 else index - 1;
      if target < 0 || target >= |rows| {
        return AtTheEnd;
      }
      var ordered := rows;
      ordered := ordered[index := rows[target]];
      ordered := ordered[target := rows[index]];
      Number(ordered);
      outcome := Done;
    }

    /** Positions exchanged with the neighbour; where the two are equal, the run renumbered. */
    method Exchange(rows: seq<nat>, id: nat, own: int, down: bool) returns (outcome: Outcome)
      requires Names(positions, rows)
      modifies this
      ensures positions == Exchanged(old(positions), rows, id, own, down)
      ensures outcome == OutcomeOf(rows, id, down)
    {
      PlaceIsThere(rows, id);
      var index := Find(rows, id);
      if index == -1 {
        return NotThere;
      }
      var target := if down then index + 1 else index - 1;
      if target < 0 || target >= |rows| {
        return AtTheEnd;
      }
      var neighbour := rows[target];
      var moved := positions[neighbour];
      if moved == own {
        Number(Swapped(rows, index, target));
      } else {
        positions := positions[id := moved];
        positions := positions[neighbour := own];
      }
      outcome := Done;
    }
  }

  // ---- Renumbering --------------------------------------------------------------------

  /** Whatever was committed while it waited, a renumbering move leaves the order it sorted before
      the wait, with one swap, on positions 0 to n - 1: the rows it did not see, as they are. */
  lemma RenumberForgetsTheWait(positions: Positions, rows: seq<nat>, i: nat, down: bool)
    requires NoRepeats(rows) && i < |rows| && TargetOf(i, down, |rows|).Some?
    ensures var after, ordered :=
        Renumbered(positions, rows, rows[i], down), Swapped(rows, i, TargetOf(i, down, |rows|).value);
      && (forall k :: 0 <= k < |ordered| ==> ordered[k] in after && after[ordered[k]] == k)
      && (forall row :: row !in rows ==>
          (row in after <==> row in positions) && (row in positions ==> after[row] == positions[row]))
  {
    var j := TargetOf(i, down, |rows|).value;
    var ordered := Swapped(rows, i, j);
    PlaceIsFirst(rows, i);
    forall k | 0 <= k < |ordered|
      ensures ordered[k] in Numbered(positions, ordered, |rows|) &&
      Numbered(positions, ordered, |rows|)[ordered[k]] == k {
      NumberedAt(positions, ordered, |rows|, k);
    }
    forall row | row !in rows
      ensures row in Numbered(positions, ordered, |rows|) <==> row in positions
      ensures row in positions ==> Numbered(positions, ordered, |rows|)[row] == positions[row]
    {
      assert row !in ordered[..|rows|];
      NumberedElsewhere(positions, ordered, |rows|, row);
    }
  }

  /** `k` of the same move, all queued behind one lock and so all sorted alike. */
  function Queued(positions: Positions, rows: seq<nat>, id: nat, down: bool, k: nat): Positions {
    if k == 0 then positions else Renumbered(Queued(positions, rows, id, down, k - 1), rows, id, down)
  }

  lemma RenumberTwice(positions: Positions, rows: seq<nat>, id: nat, down: bool)
    requires NoRepeats(rows) && Names(positions, rows)
    ensures Renumbered(Renumbered(positions, rows, id, down), rows, id, down) == Renumbered(positions, rows, id, down)
  {
    PlaceIsThere(rows, id);
    if PlaceOf(rows, id).Some? && TargetOf(PlaceOf(rows, id).value, down, |rows|).Some? {
      var i := PlaceOf(rows, id).value;
      var once := Renumbered(positions, rows, id, down);
      var twice, ordered := Renumbered(once, rows, id, down), Swapped(rows, i, TargetOf(i, down, |rows|).value);
      RenumberForgetsTheWait(positions, rows, i, down);
      RenumberForgetsTheWait(once, rows, i, down);
      forall row ensures (row in once <==> row in twice) && (row in once ==> once[row] == twice[row]) {
        if row in rows {
          SwappedHas(rows, i, TargetOf(i, down, |rows|).value, row);
          var k :| 0 <= k < |ordered| && ordered[k] == row;
        }
      }
    }
  }

  lemma SwappedHas(rows: seq<nat>, i: nat, j: nat, row: nat)
    requires i < |rows| && j < |rows| && row in rows
    ensures row in Swapped(rows, i, j)
  {
    var k :| 0 <= k < |rows| && rows[k] == row;
    var there := if k == i then j else if k == j then i else k;
    assert Swapped(rows, i, j)[there] == row;
  }

  /** So any number of them move the row one place, not one place each. */
  lemma {:induction false} QueuedMovesAreOne(positions: Positions, rows: seq<nat>, id: nat, down: bool, k: nat)
    requires NoRepeats(rows) && Names(positions, rows) && k > 0
    ensures Queued(positions, rows, id, down, k) == Renumbered(positions, rows, id, down)
  {
    if k > 1 {
      QueuedMovesAreOne(positions, rows, id, down, k - 1);
      RenumberTwice(positions, rows, id, down);
    }
  }

  /** The rows of a list have only one order. */
  lemma {:induction false} OneOrder(a: seq<nat>, b: seq<nat>, positions: Positions)
    requires Names(positions, a) && Names(positions, b)
    requires forall i, j :: 0 <= i < j < |a| ==> Precedes(positions, a[i], a[j])
    requires forall i, j :: 0 <= i < j < |b| ==> Precedes(positions, b[i], b[j])
    requires forall row :: row in a <==> row in b
    ensures a == b
  {
    assert |a| > 0 ==> a[0] in b;
    assert |b| > 0 ==> b[0] in a;
    if a != [] && b != [] {
      var i :| 0 <= i < |a| && a[i] == b[0];
      var j :| 0 <= j < |b| && b[j] == a[0];
      assert a[0] == b[0];
      forall row ensures row in a[1..] <==> row in b[1..] {
        RestWithoutFirst(a, positions, row);
        RestWithoutFirst(b, positions, row);
      }
      OneOrder(a[1..], b[1..], positions);
    }
  }

  lemma RestWithoutFirst(rows: seq<nat>, positions: Positions, row: nat)
    requires rows != [] && Names(positions, rows)
    requires forall i, j :: 0 <= i < j < |rows| ==> Precedes(positions, rows[i], rows[j])
    ensures row in rows[1..] <==> row in rows && row != rows[0]
  {
    assert rows == [rows[0]] + rows[1..];
    forall i | 0 <= i < |rows[1..]| ensures rows[1..][i] != rows[0] {
      assert Precedes(positions, rows[0], rows[i + 1]);
    }
  }

  /** After a move nothing disturbed, the list stands as it sorted it, with the one swap. */
  lemma RenumberedOrder(positions: Positions, rows: seq<nat>, i: nat, down: bool)
    requires IsOrder(rows, positions) && i < |rows| && TargetOf(i, down, |rows|).Some?
    ensures IsOrder(Swapped(rows, i, TargetOf(i, down, |rows|).value), Renumbered(positions, rows, rows[i], down))
  {
    var j, after := TargetOf(i, down, |rows|).value, Renumbered(positions, rows, rows[i], down);
    RenumberForgetsTheWait(positions, rows, i, down);
    forall row | row in after ensures row in Swapped(rows, i, j) {
      SwappedHas(rows, i, j, row);
    }
  }

  /** A move down and then a move up, each on the order it finds, put the list back as it was
      sorted. */
  lemma DownThenUp(positions: Positions, rows: seq<nat>, again: seq<nat>, i: nat)
    requires IsOrder(rows, positions) && i + 1 < |rows|
    requires IsOrder(again, Renumbered(positions, rows, rows[i], true))
    ensures IsOrder(rows, Renumbered(Renumbered(positions, rows, rows[i], true), again, rows[i], false))
  {
    var once := Renumbered(positions, rows, rows[i], true);
    RenumberedOrder(positions, rows, i, true);
    OneOrder(again, Swapped(rows, i, i + 1), once);
    RenumberedOrder(once, again, i + 1, false);
    assert Swapped(again, i + 1, i) == rows;
  }

  // ---- Swapping -----------------------------------------------------------------------

  function PositionsOf(positions: Positions, rows: seq<nat>): seq<int>
    requires Names(positions, rows)
  {
    seq(|rows|, i requires 0 <= i < |rows| => positions[rows[i]])
  }

  /** The row's position gone, `own` in its place: the neighbour's only changes hands. */
  lemma PositionsAfter(positions: Positions, rows: seq<nat>, i: nat, j: nat, own: int)
    requires NoRepeats(rows) && Names(positions, rows) && i < |rows| && j < |rows| && i != j
    ensures var after := positions[rows[i] := positions[rows[j]]][rows[j] := own];
      && Names(after, rows)
      && multiset(PositionsOf(after, rows)) ==
          multiset(PositionsOf(positions, rows)) - multiset{positions[rows[i]]} + multiset{own}
  {
    var before, after := PositionsOf(positions, rows), positions[rows[i] := positions[rows[j]]][rows[j] := own];
    assert PositionsOf(after, rows) == before[i := before[j]][j := own];
  }

  lemma OneForAnother(all: multiset<int>, gone: int, come: int)
    requires gone in all
    ensures all - multiset{gone} + multiset{come} == all <==> come == gone
  {
    if come != gone {
      assert (all - multiset{gone} + multiset{come})[come] == all[come] + 1;
    }
  }

  /** The places of a list of `n` rows. */
  function Places(n: nat): seq<int> {
    seq(n, k => k)
  }

  /** Renumbered, the rows stand on all the places, whatever positions there were. */
  lemma RenumberedPlaces(positions: Positions, rows: seq<nat>, i: nat, j: nat)
    requires NoRepeats(rows) && Names(positions, rows) && i < |rows| && j < |rows| && i != j
    ensures var after := Numbered(positions, Swapped(rows, i, j), |rows|);
      Names(after, rows) && multiset(PositionsOf(after, rows)) == multiset(Places(|rows|))
  {
    var ordered, after := Swapped(rows, i, j), Numbered(positions, Swapped(rows, i, j), |rows|);
    forall k | 0 <= k < |rows| ensures ordered[k] in after && after[ordered[k]] == k {
      NumberedAt(positions, ordered, |rows|, k);
    }
    assert rows[i] == ordered[j] && rows[j] == ordered[i];
    assert forall k :: 0 <= k < |rows| && k != i && k != j ==> rows[k] == ordered[k];
    assert PositionsOf(after, rows) == Places(|rows|)[i := j][j := i];
  }

  /** A swap keeps the positions there are, taken together, exactly when: the moved row's own
      position, read before the lock, is still its position; or, where that one is the neighbour's
      by now and the whole run is renumbered, the positions were the places 0 to n - 1 already. */
  lemma SwapKeepsPositionsExactlyWhen(positions: Positions, rows: seq<nat>, i: nat, own: int, down: bool)
    requires NoRepeats(rows) && Names(positions, rows) && i < |rows| && TargetOf(i, down, |rows|).Some?
    ensures var after, j := Exchanged(positions, rows, rows[i], own, down), TargetOf(i, down, |rows|).value;
      && Names(after, rows)
      && (multiset(PositionsOf(after, rows)) == multiset(PositionsOf(positions, rows)) <==>
            if own == positions[rows[j]] then multiset(PositionsOf(positions, rows)) == multiset(Places(|rows|))
            else own == positions[rows[i]])
  {
    var j := TargetOf(i, down, |rows|).value;
    PlaceIsFirst(rows, i);
    RenumberedPlaces(positions, rows, i, j);
    PositionsAfter(positions, rows, i, j, own);
    assert PositionsOf(positions, rows)[i] == positions[rows[i]];
    OneForAnother(multiset(PositionsOf(positions, rows)), positions[rows[i]], own);
  }

  /** From distinct positions: a fresh own position always keeps them, and a stale one only where it
      is the neighbour's and the positions were the places. */
  lemma StaleSwapKeepsExactlyWhen(positions: Positions, rows: seq<nat>, i: nat, own: int, down: bool)
    requires NoRepeats(rows) && Names(positions, rows) && i < |rows| && TargetOf(i, down, |rows|).Some?
    requires positions[rows[i]] != positions[rows[TargetOf(i, down, |rows|).value]]
    ensures var after, j := Exchanged(positions, rows, rows[i], own, down), TargetOf(i, down, |rows|).value;
      && Names(after, rows)
      && (multiset(PositionsOf(after, rows)) == multiset(PositionsOf(positions, rows)) <==>
            own == positions[rows[i]] ||
            (own == positions[rows[j]] && multiset(PositionsOf(positions, rows)) == multiset(Places(|rows|))))
  {
    SwapKeepsPositionsExactlyWhen(positions, rows, i, own, down);
  }

  /** The rows stand on the places, in their order. */
  predicate InPlace(positions: Positions, rows: seq<nat>) {
    Names(positions, rows) && forall k :: 0 <= k < |rows| ==> positions[rows[k]] == k
  }

  /** The same swap queued again behind the first: it finds its neighbour where it was itself,
      renumbers the run, and changes nothing. */
  lemma QueuedSwapsAreOne(positions: Positions, rows: seq<nat>, i: nat, down: bool)
    requires NoRepeats(rows) && InPlace(positions, rows) && i < |rows| && TargetOf(i, down, |rows|).Some?
    ensures var once := Exchanged(positions, rows, rows[i], i, down);
      && once == positions[rows[i] := TargetOf(i, down, |rows|).value][rows[TargetOf(i, down, |rows|).value] := i]
      && Names(once, rows) && Exchanged(once, rows, rows[i], i, down) == once
  {
    var j, ordered := TargetOf(i, down, |rows|).value, Swapped(rows, i, TargetOf(i, down, |rows|).value);
    PlaceIsFirst(rows, i);
    var once := positions[rows[i] := j][rows[j] := i];
    var twice := Numbered(once, ordered, |rows|);
    forall row ensures (row in once <==> row in twice) && (row in once ==> once[row] == twice[row]) {
      if row in rows {
        SwappedHas(rows, i, j, row);
        var k :| 0 <= k < |rows| && ordered[k] == row;
        NumberedAt(once, ordered, |rows|, k);
        assert rows[i] == ordered[j] && rows[j] == ordered[i] && (k != i && k != j ==> rows[k] == row);
      } else {
        assert row !in ordered[..|rows|];
        NumberedElsewhere(once, ordered, |rows|, row);
      }
    }
  }

  /** The stale swap that keeps every position, at its smallest: of a, b, c at 0 to 2, b goes down
      having read 1, behind another move that put it at 2 and c at 1. */
  lemma AStaleSwapMayKeepThem()
    ensures var now := map[0 := 0, 1 := 2, 2 := 1];
      now[1] != 1 && Exchanged(now, [0, 1, 2], 1, 1, true) == now
  {
    var before: Positions := map[0 := 0, 1 := 1, 2 := 2];
    QueuedSwapsAreOne(before, [0, 1, 2], 1, true);
    assert before[1 := 2][2 := 1] == map[0 := 0, 1 := 2, 2 := 1];
  }

  /** Undisturbed, between two distinct positions, it is the same one place as a renumbering move. */
  lemma ExchangedOrder(positions: Positions, rows: seq<nat>, i: nat, down: bool)
    requires IsOrder(rows, positions) && i < |rows| && TargetOf(i, down, |rows|).Some?
    requires forall k, m :: 0 <= k < m < |rows| ==> positions[rows[k]] != positions[rows[m]]
    ensures IsOrder(Swapped(rows, i, TargetOf(i, down, |rows|).value),
        Exchanged(positions, rows, rows[i], positions[rows[i]], down))
  {
    var j := TargetOf(i, down, |rows|).value;
    PlaceIsFirst(rows, i);
    SwappedOrder(positions, rows, i, j);
  }

  lemma SwappedOrder(positions: Positions, rows: seq<nat>, i: nat, j: nat)
    requires IsOrder(rows, positions) && i < |rows| && j < |rows| && i != j
    requires forall k, m :: 0 <= k < m < |rows| ==> positions[rows[k]] != positions[rows[m]]
    ensures IsOrder(Swapped(rows, i, j), positions[rows[i] := positions[rows[j]]][rows[j] := positions[rows[i]]])
  {
    var after, ordered := positions[rows[i] := positions[rows[j]]][rows[j] := positions[rows[i]]], Swapped(rows, i, j);
    forall row | row in after ensures row in ordered {
      SwappedHas(rows, i, j, row);
    }
    forall k | 0 <= k < |rows| ensures ordered[k] in after && after[ordered[k]] == positions[rows[k]] {
    }
    forall k, m | 0 <= k < m < |ordered| ensures Precedes(after, ordered[k], ordered[m]) && ordered[k] != ordered[m] {
      assert Precedes(positions, rows[k], rows[m]);
    }
  }

  /** The stale swap at its smallest: of a, b, c, d at 0 to 3, c goes down having read 2, while
      another move takes it to 1 and b to 2. It leaves two rows at 2. */
  lemma StaleSwapLeavesTwoAlike()
    ensures var after := Exchanged(map[0 := 0, 1 := 2, 2 := 1, 3 := 3], [0, 1, 2, 3], 2, 2, true);
      after == map[0 := 0, 1 := 2, 2 := 3, 3 := 2]
  {
    PlaceIsFirst([0, 1, 2, 3], 2);
    assert [0, 1, 2, 3][2] == 2;
  }
}
