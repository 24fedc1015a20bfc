/** The stock room's requests: a write-off, a correction to a counted figure, a transfer between
    branches; and how any request reads and writes several shelves. */
module StockRoom {
  import opened Wrappers
  import opened RowLocks
  import opened LockOrder
  import opened Recipes
  import opened Runs
  import opened Shop
  import opened Tallies
  import opened CashBook
  import Stock = StockLedger

  // ---- Shelves among the rows ---------------------------------------------------------

  function ShelfKeys(ids: seq<nat>): seq<Key> {
    seq(|ids|, i requires 0 <= i < |ids| => ShelfAt(ids[i]))
  }

  function ShelfOf(values: Values, id: nat): Stock.Shelf {
    ShelfIn(Get(values, ShelfAt(id)))
  }

  function ShelvesOf(values: Values, ids: set<nat>): map<nat, Stock.Shelf> {
    map id | id in ids :: ShelfOf(values, id)
  }

  function ShelfRows(shelves: map<nat, Stock.Shelf>): (rows: Database)
    ensures forall k :: k in rows <==> k.ShelfAt? && k.shelf in shelves
    ensures forall id :: id in shelves ==> rows[ShelfAt(id)] == AShelf(shelves[id])
  {
    map id | id in shelves :: ShelfAt(id) := AShelf(shelves[id])
  }

  // ---- The order shelves are locked in ----------------------------------------------------

  /** The shelves the lines ask for that there are no rows of, in the order of the lines: each is made,
      and its row held, before any row there is is locked. */
  function Missing(lines: seq<Stock.Line>, db: Database): seq<nat> {
    if lines == [] then []
    else
      var before, last := Missing(lines[..|lines| - 1], db), lines[|lines| - 1];
      if last.quantity > 0 && ShelfAt(last.shelf) !in db && last.shelf !in before then before + [last.shelf] else before
  }

  function Present(ids: seq<nat>, db: Database): seq<nat> {
    if ids == [] then []
    else (if ShelfAt(ids[0]) in db then [ids[0]] else []) + Present(ids[1..], db)
  }

  /** The lines' shelves as they are locked: those to be made, and then those there are, lowest id first. */
  function ShelfOrder(lines: seq<Stock.Line>, db: Database): seq<nat> {
    Missing(lines, db) + Present(Stock.Ids(lines), db)
  }

  lemma {:induction false} TouchedInTwo(a: seq<Stock.Line>, b: seq<Stock.Line>, id: nat)
    ensures id in Stock.Touched(a + b) <==> id in Stock.Touched(a) || id in Stock.Touched(b)
  {
    if a == [] {
      assert a + b == b;
    } else {
      assert (a + b)[1..] == a[1..] + b;
      TouchedInTwo(a[1..], b, id);
    }
  }

  lemma {:induction false} MissingHas(lines: seq<Stock.Line>, db: Database, id: nat)
    ensures id in Missing(lines, db) <==> id in Stock.Touched(lines) && ShelfAt(id) !in db
    ensures Distinct(Missing(lines, db))
  {
    if lines != [] {
      var before, last := lines[..|lines| - 1], lines[|lines| - 1];
      assert lines == before + [last] && [last][1..] == [];
      TouchedInTwo(before, [last], id);
      MissingHas(before, db, id);
    }
  }

  lemma {:induction false} PresentHas(ids: seq<nat>, db: Database, id: nat)
    ensures id in Present(ids, db) <==> id in ids && ShelfAt(id) in db
  {
    if ids != [] {
      PresentHas(ids[1..], db, id);
    }
  }

  lemma LaterIsAbove(ids: seq<nat>, id: nat)
    requires Stock.Ascending(ids) && ids != [] && id in ids[1..]
    ensures ids[0] < id
  {
    var i :| 0 <= i < |ids[1..]| && ids[1..][i] == id;
    assert ids[i + 1] == id;
  }

  lemma RestAscends(ids: seq<nat>)
    requires Stock.Ascending(ids) && ids != []
    ensures Stock.Ascending(ids[1..])
  {
  }

  lemma FirstBelow(id: nat, ids: seq<nat>)
    requires Stock.Ascending(ids) && forall x :: x in ids ==> id < x
    ensures Stock.Ascending([id] + ids)
  {
    forall i, j | 0 <= i < j < |[id] + ids| ensures ([id] + ids)[i] < ([id] + ids)[j] {
      assert ([id] + ids)[j] in ids;
    }
  }

  lemma {:induction false} PresentAscends(ids: seq<nat>, db: Database)
    requires Stock.Ascending(ids)
    ensures Stock.Ascending(Present(ids, db))
  {
    hide Stock.Ascending;
    if ids == [] {
      assert Stock.Ascending([]) by {
        NoneAscends();
      }
    } else {
      var rest := Present(ids[1..], db);
      RestAscends(ids);
      PresentAscends(ids[1..], db);
      forall id | id in rest ensures ids[0] < id {
        PresentHas(ids[1..], db, id);
        LaterIsAbove(ids, id);
      }
      FirstBelow(ids[0], rest);
      assert [] + rest == rest;
    }
  }

  lemma NoneAscends()
    ensures Stock.Ascending([])
  {
  }

  /** The same shelves, each once. */
  lemma ShelfOrderHas(lines: seq<Stock.Line>, db: Database, id: nat)
    ensures id in ShelfOrder(lines, db) <==> id in Stock.Ids(lines)
  {
    Stock.IdsAscend(lines);
    MissingHas(lines, db, id);
    PresentHas(Stock.Ids(lines), db, id);
  }

  lemma ShelfOrderOnce(lines: seq<Stock.Line>, db: Database)
    ensures Distinct(ShelfOrder(lines, db))
  {
    var made, held := Missing(lines, db), Present(Stock.Ids(lines), db);
    Stock.IdsAscend(lines);
    MissingHas(lines, db, 0);
    PresentAscends(Stock.Ids(lines), db);
    forall i, j | 0 <= i < |made| && 0 <= j < |held| ensures made[i] != held[j] {
      MissingHas(lines, db, made[i]);
      PresentHas(Stock.Ids(lines), db, held[j]);
    }
  }

  lemma {:induction false} AllPresent(ids: seq<nat>, db: Database)
    requires forall id :: id in ids ==> ShelfAt(id) in db
    ensures Present(ids, db) == ids
  {
    if ids != [] {
      assert ids[0] in ids;
      AllPresent(ids[1..], db);
    }
  }

  lemma {:induction false} NoneToMake(lines: seq<Stock.Line>, db: Database)
    requires forall id :: id in Stock.Touched(lines) ==> ShelfAt(id) in db
    ensures Missing(lines, db) == []
  {
    if lines != [] {
      var before, last := lines[..|lines| - 1], lines[|lines| - 1];
      assert lines == before + [last] && [last][1..] == [];
      forall id ensures id in Stock.Touched(lines) <==> id in Stock.Touched(before) || id in Stock.Touched([last]) {
        TouchedInTwo(before, [last], id);
      }
      NoneToMake(before, db);
    }
  }

  /** With every row there, lowest id first. */
  lemma NoneMissing(lines: seq<Stock.Line>, db: Database)
    requires forall id :: id in Stock.Ids(lines) ==> ShelfAt(id) in db
    ensures Missing(lines, db) == [] && ShelfOrder(lines, db) == Stock.Ids(lines)
  {
    Stock.IdsAscend(lines);
    NoneToMake(lines, db);
    AllPresent(Stock.Ids(lines), db);
  }

  lemma {:induction false} MissingAgrees(lines: seq<Stock.Line>, a: Database, b: Database)
    requires forall id: nat :: ShelfAt(id) in a <==> ShelfAt(id) in b
    ensures Missing(lines, a) == Missing(lines, b)
  {
    if lines != [] {
      MissingAgrees(lines[..|lines| - 1], a, b);
    }
  }

  lemma {:induction false} PresentAgrees(ids: seq<nat>, a: Database, b: Database)
    requires forall id: nat :: ShelfAt(id) in a <==> ShelfAt(id) in b
    ensures Present(ids, a) == Present(ids, b)
  {
    if ids != [] {
      PresentAgrees(ids[1..], a, b);
    }
  }

  /** Which shelves there are decides their order. */
  lemma ShelfOrderAgrees(lines: seq<Stock.Line>, a: Database, b: Database)
    requires forall id: nat :: ShelfAt(id) in a <==> ShelfAt(id) in b
    ensures ShelfOrder(lines, a) == ShelfOrder(lines, b)
  {
    MissingAgrees(lines, a, b);
    PresentAgrees(Stock.Ids(lines), a, b);
  }

  /** Keys with shelves among them, the shelves as they are locked. */
  function Shelving(pre: seq<Key>, lines: seq<Stock.Line>, post: seq<Key>, db: Database): seq<Key> {
    pre + ShelfKeys(ShelfOrder(lines, db)) + post
  }

  lemma InShelfKeys(ids: seq<nat>, k: Key)
    ensures k in ShelfKeys(ids) <==> k.ShelfAt? && k.shelf in ids
  {
    if k.ShelfAt? && k.shelf in ids {
      ShelfKeyIn(ids, k.shelf);
    }
  }

  /** They are the same keys. */
  lemma ShelvingHas(pre: seq<Key>, lines: seq<Stock.Line>, post: seq<Key>, db: Database, k: Key)
    ensures k in Shelving(pre, lines, post, db) <==> k in pre + ShelfKeys(Stock.Ids(lines)) + post
  {
    hide ShelfOrder, ShelfKeys, Stock.Ids;
    InShelfKeys(ShelfOrder(lines, db), k);
    InShelfKeys(Stock.Ids(lines), k);
    if k.ShelfAt? {
      ShelfOrderHas(lines, db, k.shelf);
    }
  }

  lemma ShelfKeyIn(ids: seq<nat>, id: nat)
    requires id in ids
    ensures ShelfAt(id) in ShelfKeys(ids)
  {
    var i :| 0 <= i < |ids| && ids[i] == id;
    assert ShelfKeys(ids)[i] == ShelfAt(id);
  }

  /** All of these shelves have been locked and read. */
  predicate HasShelves(values: Values, ids: seq<nat>) {
    forall i :: 0 <= i < |ids| ==> ShelfAt(ids[i]) in values
  }

  lemma ShelfOfOk(policy: Stock.Policy, values: Values, id: nat)
    requires ValuesOk(policy, values)
    ensures Stock.ShelfOk(policy, ShelfOf(values, id))
  {
    assert Stock.ShelfOk(policy, NEW_SHELF);
  }

  // ---- A write-off --------------------------------------------------------------------

  datatype WriteOff = WriteOff(shelf: nat, kind: Stock.Movement, quantity: int, reason: bool, token: Option<Token>)

  predicate IsLoss(kind: Stock.Movement) {
    kind.Damage? || kind.Loss?
  }

  function WriteOffFault(w: WriteOff): Option<Refusal> {
    if !IsLoss(w.kind) then Some(NotAllowed)
    else if !w.reason then Some(ReasonRequired)
    else if w.quantity <= 0 then Some(BadAmount)
    else None
  }

  /** Stock may not go below zero, oversell aside; what is reserved is not asked about. */
  function CannotReduce(policy: Stock.Policy, shelf: Stock.Shelf, quantity: int): Option<Refusal> {
    if quantity > 0 && shelf.onHand < quantity && !policy.oversell then Some(InsufficientStock) else None
  }

  function WriteOffWrites(w: WriteOff, values: Values): (Database, Answer) {
    var shelf := ShelfOf(values, w.shelf);
    (map[ShelfAt(w.shelf) := AShelf(Stock.Write(shelf, w.kind, -w.quantity, Stock.Manual))],
     Made(WrittenOff(w.shelf, |shelf.ledger|)))
  }

  /** The shelf locked, the key looked up again under its lock, then claimed by the entry itself. */
  function WriteOffRecipe(w: WriteOff, policy: Stock.Policy): ShopRecipe {
    Recipe(
      if w.token.Some? && IsLoss(w.kind) then Some(StockClaim(w.token.value)) else None, true,
      Refuse(WriteOffFault(w)),
      [ShelfAt(w.shelf)], true, [], [],
      (values: Values) => Refuse(CannotReduce(policy, ShelfOf(values, w.shelf), w.quantity)),
      (values: Values) => WriteOffWrites(w, values),
      Retold, Recorded)
  }

  lemma WriteOffWellMade(w: WriteOff, policy: Stock.Policy)
    ensures WellMade(WriteOffRecipe(w, policy), IsClaim)
    ensures Ordered(ToRequest(WriteOffRecipe(w, policy)), RankOf)
  {
    var c := WriteOffRecipe(w, policy);
    assert Keys(c) == c.before;
    AskingFirstSettles(c);
    RecipeIsOrdered(c, RankOf);
  }

  lemma WriteOffWritesOk(w: WriteOff, policy: Stock.Policy, values: Values)
    ensures WritesOk(policy, WriteOffRecipe(w, policy), values)
  {
    var shelf := ShelfOf(values, w.shelf);
    if ValuesOk(policy, values) && WriteOffFault(w).None? && CannotReduce(policy, shelf, w.quantity).None? {
      ShelfOfOk(policy, values, w.shelf);
      Stock.WriteKeepsOk(policy, shelf, w.kind, -w.quantity, Stock.Manual);
    }
  }

  // ---- A correction -------------------------------------------------------------------

  datatype Correction = Correction(shelf: nat, counted: int, reason: bool)

  predicate EverReceived(ledger: seq<Stock.Entry>) {
    exists i :: 0 <= i < |ledger| && (ledger[i].kind.Purchase? || ledger[i].kind.TransferIn?)
  }

  function CorrectionFault(a: Correction): Option<Refusal> {
    if !a.reason then Some(ReasonRequired) else if a.counted < 0 then Some(BadAmount) else None
  }

  /** Upwards only where the branch has received the article, at a cost. */
  function CorrectionObjection(a: Correction, values: Values): Option<Refusal> {
    var shelf := ShelfOf(values, a.shelf);
    if ShelfAt(a.shelf) in values && a.counted > shelf.onHand && !EverReceived(shelf.ledger) then Some(NeverReceived)
    else None
  }

  /** What is counted is what is there: nothing is written where it was. */
  function Corrected(shelf: Stock.Shelf, counted: int): Stock.Shelf {
    if shelf.onHand == counted then shelf
    else Stock.Write(shelf, Stock.Adjustment, counted - shelf.onHand, Stock.Manual)
  }

  function CorrectionWrites(a: Correction, values: Values): (Database, Answer) {
    var shelf := ShelfOf(values, a.shelf);
    (map[ShelfAt(a.shelf) := AShelf(Corrected(shelf, a.counted))],
     if shelf.onHand == a.counted then Unchanged else Made(Adjusted(a.shelf)))
  }

  function CorrectionRecipe(a: Correction): ShopRecipe {
    Recipe(
      None, false,
      Refuse(CorrectionFault(a)),
      [], false, [], [ShelfAt(a.shelf)],
      (values: Values) => Refuse(CorrectionObjection(a, values)),
      (values: Values) => CorrectionWrites(a, values),
      Retold, Recorded)
  }

  lemma CorrectionWellMade(a: Correction)
    ensures WellMade(CorrectionRecipe(a), IsClaim)
    ensures Ordered(ToRequest(CorrectionRecipe(a)), RankOf)
  {
    FirmSettles(CorrectionRecipe(a));
    RecipeIsOrdered(CorrectionRecipe(a), RankOf);
  }

  lemma CorrectionWritesOk(a: Correction, policy: Stock.Policy, values: Values)
    ensures WritesOk(policy, CorrectionRecipe(a), values)
  {
    hide Stock.Agrees, Stock.HoldsFitted, Stock.HoldsNamed, EverReceived;
    var shelf := ShelfOf(values, a.shelf);
    if ValuesOk(policy, values) && CorrectionFault(a).None? {
      ShelfOfOk(policy, values, a.shelf);
      Stock.WriteKeepsOk(policy, shelf, Stock.Adjustment, a.counted - shelf.onHand, Stock.Manual);
    }
  }

  // ---- A transfer between branches ----------------------------------------------------

  /** The article's shelf where it leaves and where it arrives. */
  datatype Crate = Crate(source: nat, target: nat, quantity: nat)

  datatype Shipment = Shipment(sameBranch: bool, crates: seq<Crate>, token: Option<Token>)

  function Packed(crates: seq<Crate>): seq<Crate> {
    if crates == [] then []
    else (if crates[0].quantity > 0 then [crates[0]] else []) + Packed(crates[1..])
  }

  /** What leaves, line by line. */
  function Leaving(crates: seq<Crate>): seq<Stock.Line> {
    seq(|crates|, i requires 0 <= i < |crates| => Stock.Line(crates[i].source, crates[i].quantity))
  }

  function Arriving(crates: seq<Crate>): seq<Stock.Line> {
    seq(|crates|, i requires 0 <= i < |crates| => Stock.Line(crates[i].target, crates[i].quantity))
  }

  function Targets(crates: seq<Crate>): seq<nat> {
    seq(|crates|, i requires 0 <= i < |crates| => crates[i].target)
  }

  function ShipmentFault(t: Shipment): Option<Refusal> {
    if t.sameBranch then Some(SameBranch) else if Packed(t.crates) == [] then Some(NoLines) else None
  }

  /** Each line is checked against the shelf as it was locked: a shelf named twice, twice. */
  function ShipmentObjection(policy: Stock.Policy, crates: seq<Crate>, values: Values): Option<Refusal> {
    if HasShelves(values, Stock.Ids(Leaving(crates))) &&
       exists i :: 0 <= i < |crates| &&
           CannotReduce(policy, ShelfOf(values, crates[i].source), crates[i].quantity).Some?
    then Some(InsufficientStock)
    else None
  }

  function Involved(crates: seq<Crate>): set<nat> {
    if crates == [] then {} else {crates[0].source, crates[0].target} + Involved(crates[1..])
  }

  /** One line: out of the one shelf, into the other. */
  function Carried(rows: map<nat, Stock.Shelf>, crate: Crate, reference: Stock.Reference): map<nat, Stock.Shelf>
    requires crate.source in rows && crate.target in rows
  {
    var q: int := crate.quantity;
    var out := rows[crate.source := Stock.Write(rows[crate.source], Stock.TransferOut, -q, reference)];
    out[crate.target := Stock.Write(out[crate.target], Stock.TransferIn, q, reference)]
  }

  function Shipped(rows: map<nat, Stock.Shelf>, crates: seq<Crate>, reference: Stock.Reference): (after: map<nat,
      Stock.Shelf>)
    requires Involved(crates) <= rows.Keys
    ensures after.Keys == rows.Keys
  {
    if crates == [] then rows
    else Shipped(Carried(rows, crates[0], reference), crates[1..], reference)
  }

  function ShipmentWrites(t: Shipment, values: Values): (Database, Answer) {
    var crates, number := Packed(t.crates), LastNumber(Get(values, NumberOf(StockTransfers))) + 1;
    (ShelfRows(Shipped(ShelvesOf(values, Involved(crates)), crates, Stock.ForTransfer(number)))
       [NumberOf(StockTransfers) := Counter(number)],
     Made(StockSent(number)))
  }

  /** Numbered and its key claimed before any stock moves; then the source shelves, lowest id
      first, and each target as its line is received. */
  function ShipmentRecipe(t: Shipment, policy: Stock.Policy): ShopRecipe {
    var crates := Packed(t.crates);
    Recipe(
      if t.token.Some? then Some(StockTransferClaim(t.token.value)) else None, true,
      Refuse(ShipmentFault(t)),
      [NumberOf(StockTransfers)], false, [],
      ShelfKeys(Stock.Ids(Leaving(crates)) + Targets(crates)),
      (values: Values) => Refuse(ShipmentObjection(policy, crates, values)),
      (values: Values) => ShipmentWrites(t, values),
      Retold, Recorded)
  }

  /** The transfer as it is made of these rows: the shelves it sends from that are not there are made first. */
  function ShipmentOn(t: Shipment, policy: Stock.Policy, db: Database): ShopRecipe {
    var crates := Packed(t.crates);
    Locking(ShipmentRecipe(t, policy), Shelving([], Leaving(crates), ShelfKeys(Targets(crates)), db))
  }

  lemma ShipmentOnHas(t: Shipment, policy: Stock.Policy, db: Database, k: Key)
    ensures k in ShipmentOn(t, policy, db).after <==> k in ShipmentRecipe(t, policy).after
  {
    hide ShelfKeys, Stock.Ids, Leaving, Targets, Shelving;
    var crates := Packed(t.crates);
    var sources, targets := Stock.Ids(Leaving(crates)), Targets(crates);
    ShelvingHas([], Leaving(crates), ShelfKeys(targets), db, k);
    InShelfKeys(sources, k);
    InShelfKeys(targets, k);
    InShelfKeys(sources + targets, k);
  }

  lemma {:induction false} PackedIsPositive(crates: seq<Crate>)
    ensures forall i :: 0 <= i < |Packed(crates)| ==> Packed(crates)[i].quantity > 0
  {
    if crates != [] {
      PackedIsPositive(crates[1..]);
    }
  }

  lemma {:induction false} AskedOf(lines: seq<Stock.Line>, i: nat)
    requires i < |lines|
    ensures Stock.Asked(lines, lines[i].shelf) >= lines[i].quantity
  {
    if i > 0 {
      AskedOf(lines[1..], i - 1);
    }
  }

  lemma SourceIsLocked(crates: seq<Crate>, i: nat)
    requires i < |crates| && crates[i].quantity > 0
    ensures crates[i].source in Stock.Ids(Leaving(crates))
  {
    Stock.IdsAscend(Leaving(crates));
    AskedOf(Leaving(crates), i);
    Stock.TouchedIsAsked(Leaving(crates), crates[i].source);
  }

  /** Which line involves the shelf. */
  lemma {:induction false} InvolvedIn(crates: seq<Crate>, id: nat) returns (i: nat)
    requires id in Involved(crates)
    ensures i < |crates| && (crates[i].source == id || crates[i].target == id)
  {
    i := 0;
    if crates[0].source != id && crates[0].target != id {
      i := InvolvedIn(crates[1..], id);
      i := i + 1;
    }
  }

  lemma InvolvedIsLocked(t: Shipment, policy: Stock.Policy, id: nat)
    requires id in Involved(Packed(t.crates))
    ensures ShelfAt(id) in Keys(ShipmentRecipe(t, policy))
  {
    var crates := Packed(t.crates);
    PackedIsPositive(t.crates);
    var i := InvolvedIn(crates, id);
    SourceIsLocked(crates, i);
    assert Targets(crates)[i] == crates[i].target;
    ShelfKeyIn(Stock.Ids(Leaving(crates)) + Targets(crates), id);
  }

  lemma ShipmentWellMade(t: Shipment, policy: Stock.Policy)
    ensures WellMade(ShipmentRecipe(t, policy), IsClaim)
  {
    var c := ShipmentRecipe(t, policy);
    forall id | id in Involved(Packed(t.crates)) ensures ShelfAt(id) in Keys(c) {
      InvolvedIsLocked(t, policy, id);
    }
    ShipmentSettles(t, policy);
  }

  lemma ShipmentFirm(t: Shipment, policy: Stock.Policy, some: Values, more: Values)
    requires Grows(some, more)
    ensures var check := ShipmentRecipe(t, policy).check; check(some).Some? ==> check(more) == check(some)
  {
    var crates := Packed(t.crates);
    if ShipmentObjection(policy, crates, some).Some? {
      var i :| 0 <= i < |crates| && CannotReduce(policy, ShelfOf(some, crates[i].source), crates[i].quantity).Some?;
      SourceIsLocked(crates, i);
      assert ShelfOf(more, crates[i].source) == ShelfOf(some, crates[i].source);
    }
  }

  lemma ShipmentSettles(t: Shipment, policy: Stock.Policy)
    ensures ChecksSettle(ShipmentRecipe(t, policy))
  {
    var c := ShipmentRecipe(t, policy);
    forall some, more | Grows(some, more) && c.check(some).Some? ensures c.check(more) == c.check(some) {
      ShipmentFirm(t, policy, some, more);
    }
    if c.after != [] {
      FirmSettles(c);
    }
  }

  /** What a shipment comes to, shelf by shelf. */
  lemma {:induction false} ShippedTotals(
      policy: Stock.Policy, rows: map<nat, Stock.Shelf>, crates: seq<Crate>, reference: Stock.Reference, id: nat)
    requires Involved(crates) <= rows.Keys && id in rows && !reference.ForOrder?
    ensures OnlyGoodsMoved(policy, rows[id], Shipped(rows, crates, reference)[id],
              Stock.Asked(Arriving(crates), id) - Stock.Asked(Leaving(crates), id))
  {
    if crates != [] {
      var next := Carried(rows, crates[0], reference);
      ShippedTotals(policy, next, crates[1..], reference, id);
      assert Leaving(crates)[1..] == Leaving(crates[1..]) && Arriving(crates)[1..] == Arriving(crates[1..]);
      CarriedOne(policy, rows, crates[0], reference, id);
    }
  }

  /** A row after goods came or went: its figure moved, its holds as they were. */
  ghost predicate OnlyGoodsMoved(policy: Stock.Policy, before: Stock.Shelf, after: Stock.Shelf, delta: int) {
    && after.onHand == before.onHand + delta
    && after.reserved == before.reserved
    && (Stock.Sound(policy, before) ==> Stock.Sound(policy, after))
    && forall order ::
         && HeldBy(after.ledger, order) == HeldBy(before.ledger, order)
         && (SoldFor(after.ledger, order) ==> SoldFor(before.ledger, order))
         && (Mentions(after.ledger, order) ==> Mentions(before.ledger, order))
  }

  lemma GoodsWritten(policy: Stock.Policy, shelf: Stock.Shelf, kind: Stock.Movement, delta: int,
      reference: Stock.Reference)
    requires !Stock.Reserving(kind) && !kind.Sale? && !reference.ForOrder?
    ensures OnlyGoodsMoved(policy, shelf, Stock.Write(shelf, kind, delta, reference), delta)
  {
    if Stock.Sound(policy, shelf) {
      Stock.WriteKeepsSound(policy, shelf, kind, delta, reference);
    }
    forall order
      ensures HeldBy(Stock.Write(shelf, kind, delta, reference).ledger, order) == HeldBy(shelf.ledger, order)
      ensures SoldFor(Stock.Write(shelf, kind, delta, reference).ledger, order) ==> SoldFor(shelf.ledger, order)
      ensures Mentions(Stock.Write(shelf, kind, delta, reference).ledger, order) ==> Mentions(shelf.ledger, order)
    {
      WriteHolds(shelf, kind, delta, reference, order);
    }
  }

  lemma CarriedOne(policy: Stock.Policy, rows: map<nat, Stock.Shelf>, crate: Crate, reference: Stock.Reference, id: nat)
    requires crate.source in rows && crate.target in rows && id in rows && !reference.ForOrder?
    ensures OnlyGoodsMoved(policy, rows[id], Carried(rows, crate, reference)[id],
              (if crate.target == id then crate.quantity else 0) - if crate.source == id then crate.quantity else 0)
  {
    var q: int := crate.quantity;
    var out := rows[crate.source := Stock.Write(rows[crate.source], Stock.TransferOut, -q, reference)];
    GoodsWritten(policy, rows[crate.source], Stock.TransferOut, -q, reference);
    GoodsWritten(policy, out[crate.target], Stock.TransferIn, q, reference);
  }

  // ---- When a shipment oversells ------------------------------------------------------

  lemma {:induction false} NotAsked(crates: seq<Crate>, id: nat)
    requires forall i :: 0 <= i < |crates| ==> crates[i].source != id
    ensures Stock.Asked(Leaving(crates), id) == 0
  {
    if crates != [] {
      assert forall i :: 0 <= i < |crates[1..]| ==> crates[1..][i] == crates[i + 1];
      NotAsked(crates[1..], id);
      assert Leaving(crates)[1..] == Leaving(crates[1..]);
    }
  }

  /** The most that one line sends from the shelf: what the checks see to. */
  function Largest(crates: seq<Crate>, id: nat): nat {
    if crates == [] then 0
    else
      var rest := Largest(crates[1..], id);
      if crates[0].source == id && crates[0].quantity > rest then crates[0].quantity else rest
  }

  lemma {:induction false} LargestIsOne(crates: seq<Crate>, id: nat)
    ensures Largest(crates, id) == 0 || exists i ::
        0 <= i < |crates| && crates[i].source == id && crates[i].quantity == Largest(crates, id)
    ensures forall i :: 0 <= i < |crates| && crates[i].source == id ==> crates[i].quantity <= Largest(crates, id)
  {
    if crates != [] {
      assert forall i :: 0 <= i < |crates[1..]| ==> crates[1..][i] == crates[i + 1];
      LargestIsOne(crates[1..], id);
    }
  }

  /** Units the shelf loses by the shipment. */
  function Net(crates: seq<Crate>, id: nat): int {
    Stock.Asked(Leaving(crates), id) - Stock.Asked(Arriving(crates), id)
  }

  /** No shelf loses more than its largest line. */
  predicate Covered(crates: seq<Crate>) {
    forall i :: 0 <= i < |crates| ==> Net(crates, crates[i].source) <= Largest(crates, crates[i].source)
  }

  /** Whatever stock there is, it leaves the shop sound: see ShipmentKeepsExactlyWhen. */
  predicate NeverOversells(t: Shipment, policy: Stock.Policy) {
    policy.oversell || t.sameBranch || Covered(Packed(t.crates))
  }

  /** The rows a shipment writes. */
  function ShippedRow(t: Shipment, values: Values, id: nat): Stock.Shelf
    requires id in Involved(Packed(t.crates))
  {
    Shipped(ShelvesOf(values, Involved(Packed(t.crates))), Packed(t.crates),
            Stock.ForTransfer(LastNumber(Get(values, NumberOf(StockTransfers))) + 1))[id]
  }

  /** What a shipment does to each shelf involved. */
  lemma ShipmentMoves(t: Shipment, policy: Stock.Policy, values: Values, id: nat)
    requires id in Involved(Packed(t.crates))
    ensures OnlyGoodsMoved(policy, ShelfOf(values, id), ShippedRow(t, values, id),
              Stock.Asked(Arriving(Packed(t.crates)), id) - Stock.Asked(Leaving(Packed(t.crates)), id))
  {
    hide HeldBy, Packed, Involved, Shipped, Arriving, Leaving;
    var crates := Packed(t.crates);
    ShippedTotals(policy, ShelvesOf(values, Involved(crates)), crates,
                  Stock.ForTransfer(LastNumber(Get(values, NumberOf(StockTransfers))) + 1), id);
  }

  /** A shipment whose checks have passed leaves a shelf it only sends from sound exactly when
      the shelf held all its lines together: passing one by one is not enough. */
  lemma ShipmentOversellsExactlyWhen(t: Shipment, policy: Stock.Policy, values: Values, id: nat)
    requires ValuesOk(policy, values)
    requires id in Involved(Packed(t.crates)) && id !in Targets(Packed(t.crates))
    ensures Stock.ShelfOk(policy, ShippedRow(t, values, id)) <==>
            policy.oversell || Stock.Asked(Leaving(Packed(t.crates)), id) <= ShelfOf(values, id).onHand
  {
    var crates := Packed(t.crates);
    ShelfOfOk(policy, values, id);
    ShipmentMoves(t, policy, values, id);
    NotArriving(crates, id);
  }

  lemma {:induction false} NotArriving(crates: seq<Crate>, id: nat)
    requires id !in Targets(crates)
    ensures Stock.Asked(Arriving(crates), id) == 0
  {
    if crates != [] {
      assert Targets(crates)[0] == crates[0].target;
      assert Targets(crates[1..]) == Targets(crates)[1..] && Arriving(crates)[1..] == Arriving(crates[1..]);
      NotArriving(crates[1..], id);
    }
  }

  /** What a shipment writes: its number, and each shelf involved. */
  lemma ShipmentWritten(t: Shipment, values: Values)
    ensures var (writes, answer), ids := ShipmentWrites(t, values), Involved(Packed(t.crates));
      && answer.Made?
      && (forall k :: k in writes <==> k == NumberOf(StockTransfers) || (k.ShelfAt? && k.shelf in ids))
      && (exists n :: Read(writes, NumberOf(StockTransfers)) == Some(Counter(n)))
      && forall id :: id in ids ==> Read(writes, ShelfAt(id)) == Some(AShelf(ShippedRow(t, values, id)))
  {
    hide ShelfRows, Shipped, Packed, Involved, ShelvesOf, LastNumber;
    var n, writes := LastNumber(Get(values, NumberOf(StockTransfers))) + 1, ShipmentWrites(t, values).0;
    assert Read(writes, NumberOf(StockTransfers)) == Some(Counter(n));
    forall id | id in Involved(Packed(t.crates))
      ensures Read(writes, ShelfAt(id)) == Some(AShelf(ShippedRow(t, values, id)))
    {
      ShippedKeys(t, values);
    }
    ShippedKeys(t, values);
  }

  lemma ShippedKeys(t: Shipment, values: Values)
    ensures ShelvesOf(values, Involved(Packed(t.crates))).Keys == Involved(Packed(t.crates))
  {
  }

  lemma ShipmentWritesOk(t: Shipment, policy: Stock.Policy, values: Values)
    requires NeverOversells(t, policy)
    ensures WritesOk(policy, ShipmentRecipe(t, policy), values)
  {
    var c, crates := ShipmentRecipe(t, policy), Packed(t.crates);
    ShipmentWritten(t, values);
    hide ShipmentWrites, ShippedRow, ShipmentObjection, Involved, Packed;
    if ValuesOk(policy, values) && HasRead(c, values) && c.fault.None? && c.check(values).None? {
      forall id | id in Involved(crates) ensures Stock.ShelfOk(policy, ShippedRow(t, values, id)) {
        ShipmentRowOk(t, policy, values, id);
      }
    }
  }

  lemma ShipmentRowOk(t: Shipment, policy: Stock.Policy, values: Values, id: nat)
    requires (policy.oversell || Covered(Packed(t.crates))) && id in Involved(Packed(t.crates))
    requires ValuesOk(policy, values) && HasRead(ShipmentRecipe(t, policy), values)
    requires ShipmentObjection(policy, Packed(t.crates), values).None?
    ensures Stock.ShelfOk(policy, ShippedRow(t, values, id))
  {
    hide Packed, Stock.Asked, Largest, Involved, ShippedRow, HeldBy, SoldFor, Mentions;
    var crates := Packed(t.crates);
    ShelfOfOk(policy, values, id);
    ShipmentMoves(t, policy, values, id);
    LargestIsOne(crates, id);
    if i :| 0 <= i < |crates| && crates[i].source == id {
      ShelvesRead(t, policy, values);
      forall j | 0 <= j < |crates| && crates[j].source == id
        ensures policy.oversell || crates[j].quantity <= ShelfOf(values, id).onHand
      {
        PackedIsPositive(t.crates);
        assert CannotReduce(policy, ShelfOf(values, crates[j].source), crates[j].quantity).None?;
      }
    } else {
      NotAsked(crates, id);
    }
  }

  lemma ShelvesRead(t: Shipment, policy: Stock.Policy, values: Values)
    requires HasRead(ShipmentRecipe(t, policy), values)
    ensures HasShelves(values, Stock.Ids(Leaving(Packed(t.crates))))
  {
    var ids := Stock.Ids(Leaving(Packed(t.crates)));
    forall i | 0 <= i < |ids| ensures ShelfAt(ids[i]) in values {
      ShelfKeyIn(ids + Targets(Packed(t.crates)), ids[i]);
    }
  }

  // ---- Exactly which shipments oversell some shop -----------------------------------------

  /** As many on hand as the largest line asks for, received and never moved. */
  function JustEnough(crates: seq<Crate>, id: nat): Stock.Shelf {
    Stock.Write(NEW_SHELF, Stock.Purchase, Largest(crates, id), Stock.Manual)
  }

  function BareShop(crates: seq<Crate>): Database {
    map id | id in Involved(crates) :: ShelfAt(id) := AShelf(JustEnough(crates, id))
  }

  lemma BareShopIsOk(crates: seq<Crate>, policy: Stock.Policy)
    ensures ShopOk(policy, BareShop(crates))
  {
    hide Stock.ShelfOk, Stock.Write, Largest, Involved;
    forall id | id in Involved(crates) ensures Stock.ShelfOk(policy, JustEnough(crates, id)) {
      JustEnoughIsOk(crates, policy, id);
    }
  }

  lemma JustEnoughIsOk(crates: seq<Crate>, policy: Stock.Policy, id: nat)
    ensures Stock.ShelfOk(policy, JustEnough(crates, id)) && JustEnough(crates, id).onHand == Largest(crates, id)
  {
    Stock.WriteKeepsOk(policy, NEW_SHELF, Stock.Purchase, Largest(crates, id), Stock.Manual);
  }

  lemma BareShelf(t: Shipment, policy: Stock.Policy, id: nat)
    requires id in Involved(Packed(t.crates))
    ensures ShelfOf(Snapshot(Keys(ShipmentRecipe(t, policy)), BareShop(Packed(t.crates))), id) ==
        JustEnough(Packed(t.crates), id)
  {
    hide Keys, ShipmentRecipe, Packed, Involved, JustEnough;
    InvolvedIsLocked(t, policy, id);
    SnapshotHas(Keys(ShipmentRecipe(t, policy)), BareShop(Packed(t.crates)), ShelfAt(id));
  }

  lemma {:induction false} LineInvolves(crates: seq<Crate>, i: nat)
    requires i < |crates|
    ensures crates[i].source in Involved(crates) && crates[i].target in Involved(crates)
  {
    if i > 0 {
      LineInvolves(crates[1..], i - 1);
    }
  }

  lemma BareShopGoes(t: Shipment, policy: Stock.Policy)
    ensures ShipmentObjection(policy, Packed(t.crates),
        Snapshot(Keys(ShipmentRecipe(t, policy)), BareShop(Packed(t.crates)))).None?
  {
    hide Packed, Keys, ShipmentRecipe, JustEnough, Snapshot, BareShop, Involved, Largest, ShelfOf, HasShelves,
         Leaving;
    var crates := Packed(t.crates);
    var values := Snapshot(Keys(ShipmentRecipe(t, policy)), BareShop(crates));
    forall i | 0 <= i < |crates|
      ensures CannotReduce(policy, ShelfOf(values, crates[i].source), crates[i].quantity).None?
    {
      LineInvolves(crates, i);
      BareShelf(t, policy, crates[i].source);
      JustEnoughIsOk(crates, policy, crates[i].source);
      LargestIsOne(crates, crates[i].source);
    }
  }

  /** A shelf that loses more than its largest line, holding no more than that. */
  lemma UncoveredOversells(t: Shipment, policy: Stock.Policy, i: nat)
    requires !policy.oversell && !t.sameBranch && i < |Packed(t.crates)|
    requires Net(Packed(t.crates), Packed(t.crates)[i].source) > Largest(Packed(t.crates), Packed(t.crates)[i].source)
    ensures !ShopOk(policy, Effect(ShipmentRecipe(t, policy), BareShop(Packed(t.crates))).0)
  {
    hide Keys, Packed, Snapshot, BareShop, Involved, Largest, JustEnough, ShipmentWrites, ShippedRow,
         ShipmentObjection, Stock.Asked, HeldBy, SoldFor, Mentions;
    var crates, db := Packed(t.crates), BareShop(Packed(t.crates));
    var values, id := Snapshot(Keys(ShipmentRecipe(t, policy)), db), crates[i].source;
    LineInvolves(crates, i);
    BareShopGoes(t, policy);
    BareShelf(t, policy, id);
    JustEnoughIsOk(crates, policy, id);
    ShipmentMoves(t, policy, values, id);
    ShipmentWritten(t, values);
    NoClaims(t, crates);
    var after := Effect(ShipmentRecipe(t, policy), db).0;
    assert after[ShelfAt(id)] == AShelf(ShippedRow(t, values, id));
    assert !RowOk(policy, ShelfAt(id), after[ShelfAt(id)]);
  }

  lemma NoClaims(t: Shipment, crates: seq<Crate>)
    ensures forall k :: k in BareShop(crates) ==> k.ShelfAt?
  {
  }

  /** A transfer leaves every sound shop sound exactly when the shop may oversell, or it is refused
      for its branch, or no shelf loses more by it than its largest line. */
  lemma ShipmentKeepsExactlyWhen(t: Shipment, policy: Stock.Policy)
    ensures KeepsShopOk(policy, ShipmentRecipe(t, policy)) <==> NeverOversells(t, policy)
  {
    hide ShipmentRecipe, Packed, Net, Largest, ShopOk, Effect, WritesOk;
    if NeverOversells(t, policy) {
      ShipmentWellMade(t, policy);
      forall values ensures WritesOk(policy, ShipmentRecipe(t, policy), values) {
        ShipmentWritesOk(t, policy, values);
      }
      ProperWhen(policy, ShipmentRecipe(t, policy));
    } else {
      var crates := Packed(t.crates);
      var i :| 0 <= i < |crates| && Net(crates, crates[i].source) > Largest(crates, crates[i].source);
      BareShopIsOk(crates, policy);
      UncoveredOversells(t, policy, i);
    }
  }

  // ---- Tallies ------------------------------------------------------------------------

  lemma GoodsAloneAreKept(policy: Stock.Policy, c: ShopRecipe, values: Values)
    requires forall k :: k in c.write(values).0 ==> k.NumberOf? || k.ShelfAt? || k.CountAt?
    requires forall id: nat | ShelfAt(id) in c.write(values).0 ::
               exists delta :: OnlyGoodsMoved(policy, ShelfOf(values, id), ShelfIn(After(c, values, ShelfAt(id))),
                   delta)
    ensures TallyKept(policy, c, values)
  {
  }

  lemma WriteOffTallies(w: WriteOff, policy: Stock.Policy, values: Values)
    requires WriteOffFault(w).None?
    ensures TallyKept(policy, WriteOffRecipe(w, policy), values)
  {
    hide OnlyGoodsMoved, Stock.Write;
    var c := WriteOffRecipe(w, policy);
    GoodsWritten(policy, ShelfOf(values, w.shelf), w.kind, -w.quantity, Stock.Manual);
    assert OnlyGoodsMoved(policy, ShelfOf(values, w.shelf), ShelfIn(After(c, values, ShelfAt(w.shelf))), -w.quantity);
    GoodsAloneAreKept(policy, c, values);
  }

  lemma CorrectionMoves(a: Correction, policy: Stock.Policy, values: Values)
    ensures OnlyGoodsMoved(policy, ShelfOf(values, a.shelf),
        ShelfIn(After(CorrectionRecipe(a), values, ShelfAt(a.shelf))),
                           a.counted - ShelfOf(values, a.shelf).onHand)
  {
    hide OnlyGoodsMoved, Stock.Write;
    var shelf := ShelfOf(values, a.shelf);
    GoodsWritten(policy, shelf, Stock.Adjustment, a.counted - shelf.onHand, Stock.Manual);
    NothingMoved(policy, shelf);
  }

  lemma NothingMoved(policy: Stock.Policy, shelf: Stock.Shelf)
    ensures OnlyGoodsMoved(policy, shelf, shelf, 0)
  {
  }

  lemma CorrectionTallies(a: Correction, policy: Stock.Policy, values: Values)
    ensures TallyKept(policy, CorrectionRecipe(a), values)
  {
    hide OnlyGoodsMoved, Stock.Write;
    CorrectionMoves(a, policy, values);
    GoodsAloneAreKept(policy, CorrectionRecipe(a), values);
  }

  lemma ShipmentTallies(t: Shipment, policy: Stock.Policy, values: Values)
    ensures TallyKept(policy, ShipmentRecipe(t, policy), values)
  {
    ShipmentWritten(t, values);
    hide ShipmentWrites, ShippedRow, HeldBy, SoldFor, Mentions, Involved, Packed, OnlyGoodsMoved;
    var c, crates := ShipmentRecipe(t, policy), Packed(t.crates);
    forall id: nat | ShelfAt(id) in c.write(values).0
      ensures exists delta :: OnlyGoodsMoved(policy, ShelfOf(values, id), ShelfIn(After(c, values, ShelfAt(id))), delta)
    {
      ShipmentMoves(t, policy, values, id);
      assert OnlyGoodsMoved(policy, ShelfOf(values, id), ShelfIn(After(c, values, ShelfAt(id))),
                            Stock.Asked(Arriving(crates), id) - Stock.Asked(Leaving(crates), id));
    }
    GoodsAloneAreKept(policy, c, values);
  }

  // ---- Any of them --------------------------------------------------------------------

  datatype StockRequest =
    | AWriteOff(writeOff: WriteOff)
    | ACorrection(correction: Correction)
    | AShipment(shipment: Shipment)

  function StockRecipe(q: StockRequest, policy: Stock.Policy): ShopRecipe {
    match q
    case AWriteOff(w) => WriteOffRecipe(w, policy)
    case ACorrection(a) => CorrectionRecipe(a)
    case AShipment(t) => ShipmentRecipe(t, policy)
  }

  lemma StockSure(q: StockRequest, policy: Stock.Policy)
    requires q.AShipment? ==> NeverOversells(q.shipment, policy)
    ensures Sure(policy, StockRecipe(q, policy))
  {
    match q
    case AWriteOff(w) =>
      WriteOffWellMade(w, policy);
      forall values ensures WritesOk(policy, StockRecipe(q, policy), values) &&
          TallyKept(policy, StockRecipe(q, policy), values) {
        WriteOffWritesOk(w, policy, values);
        if WriteOffFault(w).None? {
          WriteOffTallies(w, policy, values);
        }
      }
      ProperWhen(policy, StockRecipe(q, policy));
      SureWhen(policy, StockRecipe(q, policy));
    case ACorrection(a) =>
      CorrectionWellMade(a);
      forall values ensures WritesOk(policy, StockRecipe(q, policy), values) &&
          TallyKept(policy, StockRecipe(q, policy), values) {
        CorrectionWritesOk(a, policy, values);
        CorrectionTallies(a, policy, values);
      }
      ProperWhen(policy, StockRecipe(q, policy));
      SureWhen(policy, StockRecipe(q, policy));
    case AShipment(t) =>
      ShipmentWellMade(t, policy);
      forall values ensures WritesOk(policy, StockRecipe(q, policy), values) &&
          TallyKept(policy, StockRecipe(q, policy), values) {
        ShipmentWritesOk(t, policy, values);
        ShipmentTallies(t, policy, values);
      }
      ProperWhen(policy, StockRecipe(q, policy));
      SureWhen(policy, StockRecipe(q, policy));
  }
}
