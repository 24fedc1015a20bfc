/** An order moved from one status to the next: packed, its holds become sales; cancelled, they
    are given back, and its coupon's use with them. */
module Fulfilment {
  import opened Wrappers
  import opened RowLocks
  import opened LockOrder
  import opened Recipes
  import opened Runs
  import opened Shop
  import opened Tallies
  import opened CashBook
  import opened StockRoom
  import opened Orders
  import Stock = StockLedger
  import Money = MoneyLedger
  import Coupons = CouponBook

  function Next(from: Status): set<Status> {
    match from
    case Pending => {Confirmed, Cancelled}
    case Confirmed => {Processing, Cancelled}
    case Processing => {Packed, Cancelled}
    case Packed => {Shipped, Delivered}
    case Shipped => {Delivered, ReturnRequested}
    case Delivered => {ReturnRequested}
    case ReturnRequested => {Returned, Delivered}
    case Returned => {Refunded}
    case Refunded => {}
    case Cancelled => {}
  }

  // ---- Giving back and selling what was held ------------------------------------------

  /** Never more than the shelf still holds. */
  function Freed(shelf: Stock.Shelf, quantity: nat): int {
    if quantity < shelf.reserved then quantity else shelf.reserved
  }

  function ReleasedOne(shelf: Stock.Shelf, quantity: nat, order: nat): Stock.Shelf {
    if Freed(shelf, quantity) == 0 then shelf
    else Stock.Write(shelf, Stock.ReservationRelease, -Freed(shelf, quantity), Stock.ForOrder(order))
  }

  /** The hold released, then the goods sold: none if the shelf does not hold as many. */
  function ConsumedOne(policy: Stock.Policy, shelf: Stock.Shelf, quantity: nat, order: nat): Option<Stock.Shelf> {
    var released := ReleasedOne(shelf, quantity, order);
    if CannotReduce(policy, released, quantity).Some? then None
    else Some(Stock.Write(released, Stock.Sale, -(quantity as int), Stock.ForOrder(order)))
  }

  function Released(rows: map<nat, Stock.Shelf>, lines: seq<Stock.Line>, order: nat): (after: map<nat, Stock.Shelf>)
    requires Stock.Covers(rows, lines)
    ensures after.Keys == rows.Keys
  {
    if lines == [] then rows
    else if lines[0].quantity == 0 then Released(rows, lines[1..], order)
    else
      var id := lines[0].shelf;
      Released(rows[id := ReleasedOne(rows[id], lines[0].quantity, order)], lines[1..], order)
  }

  function Consumed(policy: Stock.Policy, rows: map<nat, Stock.Shelf>, lines: seq<Stock.Line>,
      order: nat): (after: Option<map<nat, Stock.Shelf>>)
    requires Stock.Covers(rows, lines)
    ensures after.Some? ==> after.value.Keys == rows.Keys
  {
    if lines == [] then Some(rows)
    else if lines[0].quantity == 0 then Consumed(policy, rows, lines[1..], order)
    else
      var id := lines[0].shelf;
      match ConsumedOne(policy, rows[id], lines[0].quantity, order)
      case None => None
      case Some(shelf) => Consumed(policy, rows[id := shelf], lines[1..], order)
  }

  /** Lines whose shelf has sold this order nothing yet: a packing tried again sells nothing twice. */
  function Unsold(values: Values, lines: seq<Stock.Line>, order: nat): seq<Stock.Line> {
    if lines == [] then []
    else if lines[0].quantity == 0 then Unsold(values, lines[1..], order)
    else
      (if SoldFor(ShelfOf(values, lines[0].shelf).ledger, order) then [] else [lines[0]]) +
      Unsold(values, lines[1..], order)
  }

  lemma {:induction false} UnsoldIsTouched(values: Values, lines: seq<Stock.Line>, order: nat)
    ensures Stock.Touched(Unsold(values, lines, order)) <= Stock.Touched(lines)
  {
    if lines != [] {
      UnsoldIsTouched(values, lines[1..], order);
      var rest := Unsold(values, lines[1..], order);
      assert ([lines[0]] + rest)[1..] == rest;
      assert [] + rest == rest;
    }
  }

  // ---- The move -----------------------------------------------------------------------

  /** The lines and the coupon are the order's own, which never change once it is placed. */
  datatype Advance = Advance(order: nat, to: Status, lines: seq<Stock.Line>, coupon: Option<nat>)

  predicate MovesStock(to: Status) {
    to.Packed? || to.Cancelled?
  }

  function Affected(a: Advance): set<nat> {
    if MovesStock(a.to) then Stock.Touched(a.lines) else {}
  }

  function Packing(a: Advance, policy: Stock.Policy, values: Values): (after: Option<map<nat, Stock.Shelf>>)
    ensures after.Some? ==> after.value.Keys == Stock.Touched(a.lines)
  {
    UnsoldIsTouched(values, a.lines, a.order);
    Consumed(policy, ShelvesOf(values, Stock.Touched(a.lines)), Unsold(values, a.lines, a.order), a.order)
  }

  /** How the move ends before it writes: nothing to do, or refused. */
  function AdvanceEnds(a: Advance, policy: Stock.Policy, values: Values): Option<Answer> {
    if OrderAt(a.order) !in values then None
    else
      match OrderIn(values[OrderAt(a.order)])
      case None => Some(Refused(NoSuchOrder))
      case Some(o) =>
        if o.lines != a.lines || o.coupon != a.coupon then Some(Refused(NoSuchOrder))
        else if o.status == a.to then Some(Unchanged)
        else if a.to !in Next(o.status) then Some(Refused(WrongStatus))
        else if a.to.Cancelled? && o.committed then Some(Refused(StockHasLeft))
        else if a.to.Packed? && !o.committed && HasShelves(values, Stock.Ids(a.lines)) &&
            Packing(a, policy, values).None? then
          Some(Refused(InsufficientStock))
        else None
  }

  function AdvanceShelves(a: Advance, policy: Stock.Policy, o: Order, values: Values): map<nat, Stock.Shelf> {
    if a.to.Packed? && !o.committed then
      var packed := Packing(a, policy, values);
      if packed.Some? then packed.value else map[]
    else if a.to.Cancelled? then Released(ShelvesOf(values, Stock.Touched(a.lines)), a.lines, a.order)
    else map[]
  }

  function AdvanceCoupons(a: Advance, values: Values): Database {
    if !a.to.Cancelled? || a.coupon.None? || CouponOf(values, a.coupon.value).None? then map[]
    else map[CouponAt(a.coupon.value) := ACoupon(Coupons.Release(CouponOf(values, a.coupon.value).value, a.order))]
  }

  function AdvanceWrites(a: Advance, policy: Stock.Policy, values: Values): (Database, Answer) {
    match OrderIn(Get(values, OrderAt(a.order)))
    case None => (map[], Unchanged)
    case Some(o) =>
      ((ShelfRows(AdvanceShelves(a, policy, o, values)) + AdvanceCoupons(a, values))
         [OrderAt(a.order) := AnOrder(o.(status := a.to, committed := o.committed || a.to.Packed?))],
       Made(Moved(a.order, a.to)))
  }

  /** The lines whose stock it moves. */
  function StockLines(a: Advance): seq<Stock.Line> {
    if MovesStock(a.to) then a.lines else []
  }

  function CouponGivenBack(a: Advance): seq<Key> {
    if a.to.Cancelled? then CouponKeys(a.coupon) else []
  }

  /** The order's row first; then its shelves, lowest id first, and its coupon. */
  function AdvanceRecipe(a: Advance, policy: Stock.Policy): ShopRecipe {
    Recipe(
      None, false, None,
      [], false, [],
      [OrderAt(a.order)] + ShelfKeys(Stock.Ids(StockLines(a))) + CouponGivenBack(a),
      (values: Values) => AdvanceEnds(a, policy, values),
      (values: Values) => AdvanceWrites(a, policy, values),
      Retold, Recorded)
  }

  /** The change of status as it is made of these rows: shelves that are not there are made first. */
  function AdvanceOn(a: Advance, policy: Stock.Policy, db: Database): ShopRecipe {
    Locking(AdvanceRecipe(a, policy), Shelving([OrderAt(a.order)], StockLines(a), CouponGivenBack(a), db))
  }

  lemma AdvanceOnHas(a: Advance, policy: Stock.Policy, db: Database, k: Key)
    ensures k in AdvanceOn(a, policy, db).after <==> k in AdvanceRecipe(a, policy).after
  {
    hide Stock.Ids, CouponKeys, Shelving;
    ShelvingHas([OrderAt(a.order)], StockLines(a), CouponGivenBack(a), db, k);
  }

  // ---- It is well made ----------------------------------------------------------------

  lemma {:induction false} SameUnsold(lines: seq<Stock.Line>, some: Values, more: Values, order: nat)
    requires forall id :: id in Stock.Touched(lines) ==> ShelfOf(some, id) == ShelfOf(more, id)
    ensures Unsold(some, lines, order) == Unsold(more, lines, order)
  {
    if lines != [] {
      SameUnsold(lines[1..], some, more, order);
    }
  }

  lemma AdvanceFirm(a: Advance, policy: Stock.Policy, some: Values, more: Values)
    requires Grows(some, more) && AdvanceEnds(a, policy, some).Some?
    ensures AdvanceEnds(a, policy, more) == AdvanceEnds(a, policy, some)
  {
    hide Unsold, Consumed;
    if HasShelves(some, Stock.Ids(a.lines)) {
      forall id | id in Stock.Touched(a.lines) ensures ShelfOf(some, id) == ShelfOf(more, id) {
        ShelfRead(a.lines, some, id);
      }
      SameUnsold(a.lines, some, more, a.order);
      assert ShelvesOf(some, Stock.Touched(a.lines)) == ShelvesOf(more, Stock.Touched(a.lines));
    }
  }

  /** Each row as the move leaves it. */
  lemma AdvanceAfter(a: Advance, policy: Stock.Policy, values: Values, k: Key)
    requires OrderIn(Get(values, OrderAt(a.order))).Some?
    ensures var o := OrderIn(Get(values, OrderAt(a.order))).value;
      && AdvanceShelves(a, policy, o, values).Keys <= Affected(a)
      && After(AdvanceRecipe(a, policy), values, k) ==
        if k == OrderAt(a.order) then Some(AnOrder(o.(status := a.to, committed := o.committed || a.to.Packed?)))
        else if k.ShelfAt? && k.shelf in AdvanceShelves(a, policy, o, values) then
          Some(AShelf(AdvanceShelves(a, policy, o, values)[k.shelf]))
        else if k.CouponAt? && k in AdvanceCoupons(a, values) then Some(AdvanceCoupons(a, values)[k])
        else Get(values, k)
  {
    hide ShelfRows, Unsold, Consumed;
  }

  lemma AdvanceLocks(a: Advance, policy: Stock.Policy, values: Values, k: Key)
    requires k in AdvanceWrites(a, policy, values).0
    ensures k in Keys(AdvanceRecipe(a, policy))
  {
    hide ShelfRows, Unsold, Consumed, Packing;
    if k.ShelfAt? {
      AdvanceAfter(a, policy, values, k);
      Stock.IdsAscend(a.lines);
      ShelfKeyIn(Stock.Ids(a.lines), k.shelf);
    }
  }

  lemma AdvanceWellMade(a: Advance, policy: Stock.Policy)
    ensures WellMade(AdvanceRecipe(a, policy), IsClaim)
  {
    var c := AdvanceRecipe(a, policy);
    forall values, k | k in c.write(values).0 ensures k in Keys(c) {
      AdvanceLocks(a, policy, values, k);
    }
    forall some, more | Grows(some, more) && c.check(some).Some? ensures c.check(more) == c.check(some) {
      AdvanceFirm(a, policy, some, more);
    }
    FirmSettles(c);
  }

  // ---- What was held is what is given back or sold ------------------------------------

  function Others(ledger: seq<Stock.Entry>, order: nat): (rest: seq<Stock.Entry>)
    ensures |rest| <= |ledger|
    ensures Stock.HoldsNamed(ledger) ==> Stock.HoldsNamed(rest)
  {
    if ledger == [] then []
    else
      var last := ledger[|ledger| - 1];
      var rest := Others(ledger[..|ledger| - 1], order);
      if last.reference == Stock.ForOrder(order) then rest else rest + [last]
  }

  lemma {:induction false} WithoutOrder(ledger: seq<Stock.Entry>, order: nat, o: nat)
    ensures Stock.ReservedOf(ledger) == HeldBy(ledger, order) + Stock.ReservedOf(Others(ledger, order))
    ensures HeldBy(Others(ledger, order), o) == if o == order then 0 else HeldBy(ledger, o)
  {
    if ledger != [] {
      var n := |ledger| - 1;
      WithoutOrder(ledger[..n], order, o);
      var rest := Others(ledger[..n], order);
      assert (rest + [ledger[n]])[..|rest|] == rest;
    }
  }

  lemma {:induction false} HoldsAddUp(ledger: seq<Stock.Entry>)
    requires Stock.HoldsNamed(ledger) && forall o :: HeldBy(ledger, o) >= 0
    ensures Stock.ReservedOf(ledger) >= 0
    decreases |ledger|
  {
    if ledger != [] {
      var n := |ledger| - 1;
      if Stock.Reserving(ledger[n].kind) {
        var order := ledger[n].reference.order;
        forall o ensures HeldBy(Others(ledger, order), o) >= 0 {
          WithoutOrder(ledger, order, o);
        }
        WithoutOrder(ledger, order, order);
        HoldsAddUp(Others(ledger, order));
      } else {
        forall o ensures HeldBy(ledger[..n], o) >= 0 {
          assert HeldBy(ledger, o) == HeldBy(ledger[..n], o);
        }
        HoldsAddUp(ledger[..n]);
      }
    }
  }

  /** No order holds more than the whole shelf's reserve. */
  lemma ReserveCovers(policy: Stock.Policy, shelf: Stock.Shelf, order: nat)
    requires Stock.ShelfOk(policy, shelf) && forall o :: HeldBy(shelf.ledger, o) >= 0
    ensures shelf.reserved >= HeldBy(shelf.ledger, order)
  {
    forall o ensures HeldBy(Others(shelf.ledger, order), o) >= 0 {
      WithoutOrder(shelf.ledger, order, o);
    }
    WithoutOrder(shelf.ledger, order, order);
    HoldsAddUp(Others(shelf.ledger, order));
  }

  lemma ReleasedOneOk(policy: Stock.Policy, shelf: Stock.Shelf, quantity: nat, order: nat)
    requires Stock.ShelfOk(policy, shelf)
    ensures var after := ReleasedOne(shelf, quantity, order);
      && Stock.ShelfOk(policy, after)
      && after.onHand == shelf.onHand && after.reserved == shelf.reserved - Freed(shelf, quantity)
      && forall o :: HeldBy(after.ledger, o) ==
          HeldBy(shelf.ledger, o) - (if o == order then Freed(shelf, quantity) else 0) &&
                     (SoldFor(after.ledger, o) ==> SoldFor(shelf.ledger, o)) &&
                     (Mentions(after.ledger, o) ==> Mentions(shelf.ledger, o) || o == order)
  {
    hide HeldBy, SoldFor, Mentions;
    if Freed(shelf, quantity) != 0 {
      Stock.WriteKeepsOk(policy, shelf, Stock.ReservationRelease, -Freed(shelf, quantity), Stock.ForOrder(order));
      forall o ensures HeldBy(ReleasedOne(shelf, quantity, order).ledger, o) ==
                         HeldBy(shelf.ledger, o) - if o == order then Freed(shelf, quantity) else 0
               ensures SoldFor(ReleasedOne(shelf, quantity, order).ledger, o) ==> SoldFor(shelf.ledger, o)
               ensures Mentions(ReleasedOne(shelf, quantity, order).ledger, o) ==>
                   Mentions(shelf.ledger, o) || o == order
      {
        WriteHolds(shelf, Stock.ReservationRelease, -Freed(shelf, quantity), Stock.ForOrder(order), o);
      }
    }
  }

  lemma ConsumedOneOk(policy: Stock.Policy, shelf: Stock.Shelf, quantity: nat, order: nat)
    requires Stock.ShelfOk(policy, shelf) && ConsumedOne(policy, shelf, quantity, order).Some?
    ensures var after := ConsumedOne(policy, shelf, quantity, order).value;
      && Stock.ShelfOk(policy, after)
      && after.onHand == shelf.onHand - quantity && after.reserved == shelf.reserved - Freed(shelf, quantity)
      && forall o :: HeldBy(after.ledger, o) ==
          HeldBy(shelf.ledger, o) - (if o == order then Freed(shelf, quantity) else 0) &&
                     (SoldFor(after.ledger, o) ==> SoldFor(shelf.ledger, o) || o == order) &&
                     (Mentions(after.ledger, o) ==> Mentions(shelf.ledger, o) || o == order)
  {
    hide HeldBy, SoldFor, Mentions, ReleasedOne;
    ReleasedOneOk(policy, shelf, quantity, order);
    var released := ReleasedOne(shelf, quantity, order);
    Stock.WriteKeepsOk(policy, released, Stock.Sale, -(quantity as int), Stock.ForOrder(order));
    forall o ensures HeldBy(ConsumedOne(policy, shelf, quantity, order).value.ledger, o) == HeldBy(released.ledger, o)
             ensures SoldFor(ConsumedOne(policy, shelf, quantity, order).value.ledger, o) ==>
                 SoldFor(released.ledger, o) || o == order
             ensures Mentions(ConsumedOne(policy, shelf, quantity, order).value.ledger, o) ==>
                 Mentions(released.ledger, o) || o == order
    {
      WriteHolds(released, Stock.Sale, -(quantity as int), Stock.ForOrder(order), o);
    }
  }

  // ---- Line by line -------------------------------------------------------------------

  /** How one shelf stands to another from which `taken` of an order's holds are gone. */
  ghost predicate GaveUp(before: Stock.Shelf, after: Stock.Shelf, order: nat, taken: int, sold: bool) {
    && after.reserved == before.reserved - taken
    && after.onHand == before.onHand - (if sold then taken else 0)
    && forall o :: HeldBy(after.ledger, o) == HeldBy(before.ledger, o) - (if o == order then taken else 0) &&
                   (SoldFor(after.ledger, o) ==> SoldFor(before.ledger, o) || (sold && o == order)) &&
                   (Mentions(after.ledger, o) ==> Mentions(before.ledger, o) || o == order)
  }

  lemma {:induction false} ReleasedOk(policy: Stock.Policy, rows: map<nat, Stock.Shelf>, lines: seq<Stock.Line>,
      order: nat)
    requires Stock.Covers(rows, lines) && Stock.AllOk(policy, rows)
    ensures Stock.AllOk(policy, Released(rows, lines, order))
  {
    hide Stock.ShelfOk, ReleasedOne;
    if lines != [] {
      if lines[0].quantity == 0 {
        ReleasedOk(policy, rows, lines[1..], order);
      } else {
        ReleasedOneOk(policy, rows[lines[0].shelf], lines[0].quantity, order);
        ReleasedOk(policy, rows[lines[0].shelf := ReleasedOne(rows[lines[0].shelf], lines[0].quantity, order)],
            lines[1..], order);
      }
    }
  }

  lemma {:induction false} ConsumedOk(policy: Stock.Policy, rows: map<nat, Stock.Shelf>, lines: seq<Stock.Line>,
      order: nat)
    requires Stock.Covers(rows, lines) && Stock.AllOk(policy, rows) && Consumed(policy, rows, lines, order).Some?
    ensures Stock.AllOk(policy, Consumed(policy, rows, lines, order).value)
  {
    hide Stock.ShelfOk, ConsumedOne;
    if lines != [] {
      if lines[0].quantity == 0 {
        ConsumedOk(policy, rows, lines[1..], order);
      } else {
        var id := lines[0].shelf;
        ConsumedOneOk(policy, rows[id], lines[0].quantity, order);
        ConsumedOk(policy, rows[id := ConsumedOne(policy, rows[id], lines[0].quantity, order).value], lines[1..],
            order);
      }
    }
  }

  /** An order whose shelves hold all it asked for gives all of it back. */
  lemma {:induction false} ReleasedAll(
      policy: Stock.Policy, rows: map<nat, Stock.Shelf>, lines: seq<Stock.Line>, order: nat, id: nat)
    requires Stock.Covers(rows, lines) && Stock.AllOk(policy, rows) && id in rows
    requires rows[id].reserved >= Stock.Asked(lines, id)
    ensures GaveUp(rows[id], Released(rows, lines, order)[id], order, Stock.Asked(lines, id), false)
  {
    hide Stock.ShelfOk, ReleasedOne, HeldBy, SoldFor, Mentions;
    if lines != [] {
      if lines[0].quantity == 0 {
        ReleasedAll(policy, rows, lines[1..], order, id);
      } else {
        ReleasedOneOk(policy, rows[lines[0].shelf], lines[0].quantity, order);
        ReleasedAll(policy, rows[lines[0].shelf := ReleasedOne(rows[lines[0].shelf], lines[0].quantity, order)],
            lines[1..], order, id);
      }
    }
  }

  lemma {:induction false} ConsumedAll(
      policy: Stock.Policy, rows: map<nat, Stock.Shelf>, lines: seq<Stock.Line>, order: nat, id: nat)
    requires Stock.Covers(rows, lines) && Stock.AllOk(policy, rows) && id in rows
    requires Consumed(policy, rows, lines, order).Some?
    requires rows[id].reserved >= Stock.Asked(lines, id)
    ensures GaveUp(rows[id], Consumed(policy, rows, lines, order).value[id], order, Stock.Asked(lines, id), true)
  {
    hide Stock.ShelfOk, ConsumedOne, HeldBy, SoldFor, Mentions;
    if lines != [] {
      if lines[0].quantity == 0 {
        ConsumedAll(policy, rows, lines[1..], order, id);
      } else {
        var first := lines[0].shelf;
        ConsumedOneOk(policy, rows[first], lines[0].quantity, order);
        ConsumedAll(policy, rows[first := ConsumedOne(policy, rows[first], lines[0].quantity, order).value],
            lines[1..], order, id);
      }
    }
  }

  // ---- It keeps the shop sound, and its documents tallying ----------------------------

  /** The rows read, sound and tallying, with nothing to end the move. */
  ghost predicate CanAdvance(a: Advance, policy: Stock.Policy, values: Values) {
    && ValuesOk(policy, values) && ValuesTally(values) && HasRead(AdvanceRecipe(a, policy), values)
    && AdvanceEnds(a, policy, values).None?
  }

  lemma AdvanceRead(a: Advance, policy: Stock.Policy, values: Values)
    requires HasRead(AdvanceRecipe(a, policy), values) && AdvanceEnds(a, policy, values).None?
    ensures OrderAt(a.order) in values && OrderIn(values[OrderAt(a.order)]).Some?
    ensures var o := OrderIn(values[OrderAt(a.order)]).value;
      && o.lines == a.lines && o.coupon == a.coupon && a.to in Next(o.status)
      && (a.to.Cancelled? ==> !o.committed)
      && (MovesStock(a.to) ==> HasShelves(values, Stock.Ids(a.lines)))
      && (a.to.Packed? && !o.committed ==> Packing(a, policy, values).Some?)
    ensures a.to.Cancelled? && a.coupon.Some? ==> CouponAt(a.coupon.value) in values
  {
    hide Packing;
    var c, ids := AdvanceRecipe(a, policy), Stock.Ids(a.lines);
    assert Keys(c)[0] == OrderAt(a.order);
    if MovesStock(a.to) {
      forall i | 0 <= i < |ids| ensures ShelfAt(ids[i]) in values {
        assert ShelfKeys(ids)[i] in ShelfKeys(ids);
        assert ShelfAt(ids[i]) in Keys(c);
      }
    }
    if a.to.Cancelled? && a.coupon.Some? {
      assert CouponKeys(a.coupon)[0] in Keys(c);
    }
  }

  lemma AdvanceShelvesOk(a: Advance, policy: Stock.Policy, o: Order, values: Values)
    requires ValuesOk(policy, values)
    ensures Stock.AllOk(policy, AdvanceShelves(a, policy, o, values))
  {
    hide Stock.ShelfOk, Unsold, Consumed, Released, Stock.Touched;
    var rows := ShelvesOf(values, Stock.Touched(a.lines));
    forall id | id in rows ensures Stock.ShelfOk(policy, rows[id]) {
      ShelfOfOk(policy, values, id);
    }
    if a.to.Packed? && !o.committed && Packing(a, policy, values).Some? {
      UnsoldIsTouched(values, a.lines, a.order);
      ConsumedOk(policy, rows, Unsold(values, a.lines, a.order), a.order);
    } else if a.to.Cancelled? {
      ReleasedOk(policy, rows, a.lines, a.order);
    }
  }

  lemma AdvanceCouponOk(a: Advance, policy: Stock.Policy, values: Values, k: Key)
    requires ValuesOk(policy, values) && k in AdvanceCoupons(a, values)
    ensures RowOk(policy, k, AdvanceCoupons(a, values)[k])
  {
    hide Coupons.CouponOk, Coupons.Release;
    Coupons.ReleaseKeepsOk(CouponOf(values, a.coupon.value).value, a.order);
  }

  lemma AdvancedOrderOk(o: Order, to: Status)
    requires OrderOk(o) && to in Next(o.status)
    ensures OrderOk(o.(status := to, committed := o.committed || to.Packed?))
  {
  }

  lemma WrittenAfter(a: Advance, policy: Stock.Policy, values: Values, k: Key)
    requires k in AdvanceWrites(a, policy, values).0
    ensures After(AdvanceRecipe(a, policy), values, k) == Some(AdvanceWrites(a, policy, values).0[k])
  {
    hide AdvanceWrites;
  }

  lemma AdvanceRowOk(a: Advance, policy: Stock.Policy, values: Values, k: Key)
    requires ValuesOk(policy, values) && HasRead(AdvanceRecipe(a, policy), values)
    requires AdvanceEnds(a, policy, values).None?
    requires k in AdvanceWrites(a, policy, values).0
    ensures RowOk(policy, k, AdvanceWrites(a, policy, values).0[k])
  {
    hide AdvanceShelves, AdvanceCoupons, Stock.ShelfOk, Coupons.CouponOk, OrderOk, Next, AdvanceRecipe, AdvanceEnds,
         AdvanceWrites, After, HasRead, HasShelves, Packing;
    AdvanceRead(a, policy, values);
    AdvanceAfter(a, policy, values, k);
    var o := OrderIn(values[OrderAt(a.order)]).value;
    WrittenAfter(a, policy, values, k);
    if k == OrderAt(a.order) {
      assert RowOk(policy, k, values[k].value);
      AdvancedOrderOk(o, a.to);
    } else if k.ShelfAt? && k.shelf in AdvanceShelves(a, policy, o, values) {
      AdvanceShelvesOk(a, policy, o, values);
    } else if k in AdvanceCoupons(a, values) {
      AdvanceCouponOk(a, policy, values, k);
    } else {
      hide RowOk;
    }
  }

  lemma AdvanceWritesOk(a: Advance, policy: Stock.Policy, values: Values)
    ensures WritesOk(policy, AdvanceRecipe(a, policy), values)
  {
    hide AdvanceWrites, RowOk;
    var c := AdvanceRecipe(a, policy);
    if ValuesOk(policy, values) && HasRead(c, values) && AdvanceEnds(a, policy, values).None? {
      forall k | k in c.write(values).0 ensures RowOk(policy, k, c.write(values).0[k]) {
        AdvanceRowOk(a, policy, values, k);
      }
    }
  }

  lemma {:induction false} NoneSold(values: Values, lines: seq<Stock.Line>, order: nat, id: nat)
    requires forall s :: s in Stock.Touched(lines) ==> !SoldFor(ShelfOf(values, s).ledger, order)
    ensures Stock.Asked(Unsold(values, lines, order), id) == Stock.Asked(lines, id)
  {
    hide SoldFor;
    if lines != [] {
      NoneSold(values, lines[1..], order, id);
      var rest := Unsold(values, lines[1..], order);
      assert ([lines[0]] + rest)[1..] == rest;
    }
  }

  /** What the move takes from a shelf's holds. */
  function Taken(a: Advance, o: Order, shelf: nat): nat {
    if (a.to.Packed? && !o.committed) || a.to.Cancelled? then Stock.Asked(a.lines, shelf) else 0
  }

  /** A shelf an order waits at holds all it waits for, and has sold it nothing. */
  lemma WaitingIsHeld(policy: Stock.Policy, values: Values, order: nat, shelf: nat)
    requires ValuesOk(policy, values) && ValuesTally(values)
    requires OrderAt(order) in values && ShelfAt(shelf) in values
    requires OrderIn(values[OrderAt(order)]).Some? && Holds(OrderIn(values[OrderAt(order)]).value)
    ensures ShelfOf(values, shelf).reserved >= Stock.Asked(OrderIn(values[OrderAt(order)]).value.lines, shelf)
    ensures !SoldFor(ShelfOf(values, shelf).ledger, order)
  {
    hide HeldBy, SoldFor, Mentions, Stock.ShelfOk;
    forall o ensures HeldBy(ShelfOf(values, shelf).ledger, o) >= 0 {
      assert HoldRead(values, shelf, o);
    }
    assert HoldRead(values, shelf, order);
    ShelfOfOk(policy, values, shelf);
    ReserveCovers(policy, ShelfOf(values, shelf), order);
  }

  lemma WaitingHolds(a: Advance, policy: Stock.Policy, values: Values)
    requires CanAdvance(a, policy, values)
    requires OrderIn(Get(values, OrderAt(a.order))).Some?
    requires var o := OrderIn(Get(values, OrderAt(a.order))).value; (a.to.Packed? && !o.committed) || a.to.Cancelled?
    ensures var o := OrderIn(Get(values, OrderAt(a.order))).value; Holds(o) && o.lines == a.lines
  {
    AdvanceRead(a, policy, values);
  }

  lemma PackedShelf(a: Advance, policy: Stock.Policy, values: Values, shelf: nat)
    requires CanAdvance(a, policy, values) && a.to.Packed? && shelf in Stock.Touched(a.lines)
    requires OrderIn(Get(values, OrderAt(a.order))).Some? && !OrderIn(Get(values, OrderAt(a.order))).value.committed
    ensures Packing(a, policy, values).Some?
    ensures GaveUp(ShelfOf(values, shelf), Packing(a, policy, values).value[shelf], a.order,
        Stock.Asked(a.lines, shelf), true)
  {
    hide HeldBy, SoldFor, Mentions, GaveUp, Consumed, Unsold, Stock.ShelfOk, Stock.Asked, Holds, Stock.Touched;
    AdvanceRead(a, policy, values);
    WaitingHolds(a, policy, values);
    var rows := ShelvesOf(values, Stock.Touched(a.lines));
    forall id | id in Stock.Touched(a.lines)
      ensures Stock.ShelfOk(policy, rows[id]) && rows[id].reserved >= Stock.Asked(a.lines, id)
      ensures !SoldFor(ShelfOf(values, id).ledger, a.order)
    {
      ShelfRead(a.lines, values, id);
      ShelfOfOk(policy, values, id);
      WaitingIsHeld(policy, values, a.order, id);
    }
    UnsoldIsTouched(values, a.lines, a.order);
    NoneSold(values, a.lines, a.order, shelf);
    ConsumedAll(policy, rows, Unsold(values, a.lines, a.order), a.order, shelf);
  }

  lemma CancelledShelf(a: Advance, policy: Stock.Policy, values: Values, shelf: nat)
    requires CanAdvance(a, policy, values) && a.to.Cancelled? && shelf in Stock.Touched(a.lines)
    requires OrderIn(Get(values, OrderAt(a.order))).Some?
    ensures GaveUp(ShelfOf(values, shelf), Released(ShelvesOf(values, Stock.Touched(a.lines)), a.lines, a.order)[shelf],
                   a.order, Stock.Asked(a.lines, shelf), false)
  {
    hide HeldBy, SoldFor, Mentions, GaveUp, Released, Stock.ShelfOk, Stock.Asked, Holds, Stock.Touched;
    AdvanceRead(a, policy, values);
    WaitingHolds(a, policy, values);
    var rows := ShelvesOf(values, Stock.Touched(a.lines));
    forall id | id in Stock.Touched(a.lines) ensures Stock.ShelfOk(policy, rows[id]) {
      ShelfOfOk(policy, values, id);
    }
    ShelfRead(a.lines, values, shelf);
    WaitingIsHeld(policy, values, a.order, shelf);
    ReleasedAll(policy, rows, a.lines, a.order, shelf);
  }

  /** What the move does to any shelf. */
  lemma AdvanceShelf(a: Advance, policy: Stock.Policy, values: Values, shelf: nat)
    requires CanAdvance(a, policy, values)
    requires OrderIn(Get(values, OrderAt(a.order))).Some?
    ensures GaveUp(ShelfOf(values, shelf), ShelfIn(After(AdvanceRecipe(a, policy), values, ShelfAt(shelf))), a.order,
                   Taken(a, OrderIn(Get(values, OrderAt(a.order))).value, shelf), a.to.Packed?)
  {
    var o := OrderIn(Get(values, OrderAt(a.order))).value;
    AdvanceAfter(a, policy, values, ShelfAt(shelf));
    Stock.TouchedIsAsked(a.lines, shelf);
    AdvanceRead(a, policy, values);
    hide HeldBy, SoldFor, Mentions, Released, Packing, Stock.Asked, Stock.Touched, AdvanceRecipe, AdvanceEnds;
    if shelf in Stock.Touched(a.lines) && a.to.Packed? && !o.committed {
      PackedShelf(a, policy, values, shelf);
    } else if shelf in Stock.Touched(a.lines) && a.to.Cancelled? {
      CancelledShelf(a, policy, values, shelf);
    }
  }

  lemma AdvanceHold(a: Advance, policy: Stock.Policy, values: Values, shelf: nat, order: nat)
    requires CanAdvance(a, policy, values)
    ensures HoldKept(AdvanceRecipe(a, policy), values, shelf, order)
  {
    hide HeldBy, SoldFor, Mentions, Stock.Asked, AdvanceRecipe, AdvanceShelves, AdvanceCoupons, AdvanceEnds, ValuesOk,
         ValuesTally;
    AdvanceRead(a, policy, values);
    AdvanceShelf(a, policy, values, shelf);
    AdvanceAfter(a, policy, values, OrderAt(order));
    OrderRead(a, policy, values);
  }

  lemma OrderRead(a: Advance, policy: Stock.Policy, values: Values)
    requires ValuesOk(policy, values) && OrderAt(a.order) in values && OrderIn(values[OrderAt(a.order)]).Some?
    ensures OrderOk(OrderIn(values[OrderAt(a.order)]).value)
  {
  }

  lemma {:induction false} ReleasedUses(redemptions: seq<Coupons.Redemption>, order: nat, o: nat)
    ensures Coupons.LiveOf(Coupons.Without(redemptions, order), o) == if o == order then 0
        else Coupons.LiveOf(redemptions, o)
    ensures Coupons.Names(Coupons.Without(redemptions, order), o) ==> Coupons.Names(redemptions, o)
  {
    if redemptions != [] {
      var n := |redemptions| - 1;
      ReleasedUses(redemptions[..n], order, o);
      assert Coupons.Without(redemptions, order)[..n] == Coupons.Without(redemptions[..n], order);
    }
  }

  /** What the move does to a coupon's uses. */
  lemma AdvanceCoupon(a: Advance, policy: Stock.Policy, values: Values, coupon: nat, order: nat)
    requires OrderIn(Get(values, OrderAt(a.order))).Some?
    ensures var before := RedemptionsIn(Get(values, CouponAt(coupon)));
      var after := RedemptionsIn(After(AdvanceRecipe(a, policy), values, CouponAt(coupon)));
      && Coupons.LiveOf(after, order) ==
         (if order == a.order && a.to.Cancelled? && a.coupon == Some(coupon) then 0 else Coupons.LiveOf(before, order))
      && (Coupons.Names(after, order) ==> Coupons.Names(before, order))
  {
    hide Coupons.LiveOf, Coupons.Names, Coupons.Without, AdvanceRecipe, AdvanceShelves;
    AdvanceAfter(a, policy, values, CouponAt(coupon));
    var c := CouponOf(values, coupon);
    if c.Some? {
      ReleasedUses(c.value.redemptions, a.order, order);
    } else {
      NoUses(order);
    }
  }

  lemma NoUses(order: nat)
    ensures Coupons.LiveOf([], order) == 0
  {
  }

  lemma AdvanceUse(a: Advance, policy: Stock.Policy, values: Values, coupon: nat, order: nat)
    requires CanAdvance(a, policy, values)
    ensures UseKept(AdvanceRecipe(a, policy), values, coupon, order)
  {
    hide Coupons.LiveOf, Coupons.Names, AdvanceRecipe, AdvanceShelves, AdvanceCoupons, AdvanceEnds, HoldRead;
    AdvanceRead(a, policy, values);
    AdvanceCoupon(a, policy, values, coupon, order);
    AdvanceAfter(a, policy, values, OrderAt(order));
    if a.to.Cancelled? && a.coupon == Some(coupon) {
      assert UseRead(values, coupon, a.order);
    }
  }

  lemma AdvanceMoney(a: Advance, policy: Stock.Policy, values: Values, account: nat, cause: Money.Cause,
      measure: Measure)
    requires Documented(cause) && OrderIn(Get(values, OrderAt(a.order))).Some?
    ensures MoneyKept(AdvanceRecipe(a, policy), values, account, cause, measure)
  {
    hide Booked, TenderedTo, AdvanceRecipe, AdvanceShelves, AdvanceCoupons;
    AdvanceAfter(a, policy, values, AccountAt(account));
    AdvanceAfter(a, policy, values, DocumentOf(cause));
  }

  lemma AdvanceTallies(a: Advance, policy: Stock.Policy, values: Values)
    ensures TallyKept(policy, AdvanceRecipe(a, policy), values)
  {
    var c := AdvanceRecipe(a, policy);
    if CanAdvance(a, policy, values) {
      AdvanceRead(a, policy, values);
      forall account: nat, cause: Money.Cause, measure: Measure | Documented(cause)
        ensures MoneyKept(c, values, account, cause, measure)
      {
        AdvanceMoney(a, policy, values, account, cause, measure);
      }
      forall shelf: nat, order: nat ensures HoldKept(c, values, shelf, order) {
        AdvanceHold(a, policy, values, shelf, order);
      }
      forall coupon: nat, order: nat ensures UseKept(c, values, coupon, order) {
        AdvanceUse(a, policy, values, coupon, order);
      }
    }
  }

  lemma AdvanceSparesCredits(a: Advance, policy: Stock.Policy)
    ensures SparesCredits(AdvanceRecipe(a, policy))
  {
    hide Stock.Ids;
  }

  lemma AdvanceSure(a: Advance, policy: Stock.Policy)
    ensures Sure(policy, AdvanceRecipe(a, policy))
  {
    hide AdvanceRecipe, WritesOk, TallyKept, SparesCredits, Proper, WellMade;
    var c := AdvanceRecipe(a, policy);
    AdvanceWellMade(a, policy);
    AdvanceSparesCredits(a, policy);
    forall values ensures WritesOk(policy, c, values) && TallyKept(policy, c, values) {
      AdvanceWritesOk(a, policy, values);
      AdvanceTallies(a, policy, values);
    }
    ProperWhen(policy, c);
    SureWhen(policy, c);
  }
}
