/** How far each of the shop's requests gets, alone: the rows it asks for, in turn, before it is refused
    or done, the shelves that are not there made first. */
module PairKeys {
  import opened Wrappers
  import opened RowLocks
  import opened LockOrder
  import opened Recipes
  import opened LockPairs
  import opened Shop
  import opened CashBook
  import opened StockRoom
  import opened Orders
  import opened Fulfilment
  import opened Exchanges
  import Counts = StockCounts
  import Stock = StockLedger

  // ---- Requests locked otherwise ----------------------------------------------------------

  /** Asked of rows of its own, it says what it said. */
  lemma CheckedAlike(c: ShopRecipe, after: seq<Key>, keys: seq<Key>, db: Database)
    requires forall k :: k in keys ==> k in Keys(c)
    ensures Locking(c, after).check(Snapshot(keys, db)) == c.check(Snapshot(keys, db))
  {
    assert Own(c, Snapshot(keys, db)) == Snapshot(keys, db);
  }

  lemma GoesAlike(c: ShopRecipe, after: seq<Key>, db: Database)
    requires forall k :: k in c.after ==> k in after
    ensures WouldGo(Locking(c, after), db) <==> WouldGo(c, db)
  {
    LockingReads(c, after, db);
  }

  lemma FirmAlike(c: ShopRecipe, after: seq<Key>)
    requires Firm(c.check) && !c.again && forall k :: k in c.after ==> k in after
    ensures Firm(Locking(c, after).check)
  {
    hide Firm;
    LockingHolds(c, after);
  }

  /** It is made as well, and does the same. */
  lemma MadeAlike(c: ShopRecipe, after: seq<Key>)
    requires WellMade(c, IsClaim) && ChecksHold(c) && forall k :: k in after <==> k in c.after
    ensures WellMade(Locking(c, after), IsClaim) && ChecksHold(Locking(c, after))
    ensures forall db :: Effect(Locking(c, after), db) == Effect(c, db)
  {
    hide ChecksHold;
    forall k | k in after ensures !IsClaim(k) {
      assert k in Keys(c);
    }
    LockingDoesTheSame(c, after, IsClaim);
  }

  lemma LengthIs(ids: seq<nat>)
    ensures |ShelfKeys(ids)| == |ids|
  {
  }

  lemma NoKeys()
    ensures ShelfKeys([]) == []
  {
  }

  // ---- An exchange ------------------------------------------------------------------------

  /** The shelves of an exchange, as they are locked. */
  function Involving(x: Exchange, db: Database): seq<nat> {
    ShelfOrder(InvolvedLines(x), db)
  }

  function ReturnKeysOf(x: Exchange): seq<Key> {
    [OrderAt(x.original), NumberOf(Returns), ReturnAt(x.returned), NumberOf(CounterOrders)]
  }

  function SaleKeysOf(x: Exchange): seq<Key> {
    [OrderAt(x.sale.order)] + CouponKeys(x.sale.coupon) + [AccountAt(x.drawer)] + TenderKeys(Counted(x.sale.tenders))
  }

  lemma ExchangeKeysAre(x: Exchange, db: Database)
    ensures ExchangeKeysOn(x, db) ==
        [ExchangeAt(x.token)] + ShelfKeys(Involving(x, db)) + ReturnKeysOf(x) + SaleKeysOf(x)
    ensures |ShelfKeys(Involving(x, db))| == |Involving(x, db)|
  {
    hide InvolvedLines, Counted, CouponKeys, TenderKeys, ShelfOrder;
  }

  lemma ExchangeKeysBegin(x: Exchange, db: Database)
    ensures |ExchangeKeysOn(x, db)| > |Involving(x, db)| + 5
    ensures ExchangeKeysOn(x, db)[..1] == [ExchangeAt(x.token)]
    ensures ExchangeKeysOn(x, db)[..|Involving(x, db)| + 1] == [ExchangeAt(x.token)] + ShelfKeys(Involving(x, db))
    ensures ExchangeKeysOn(x, db)[..|Involving(x, db)| + 2] ==
        [ExchangeAt(x.token)] + ShelfKeys(Involving(x, db)) + [OrderAt(x.original)]
    ensures ExchangeKeysOn(x, db)[..|Involving(x, db)| + 5] ==
        [ExchangeAt(x.token)] + ShelfKeys(Involving(x, db)) + ReturnKeysOf(x)
  {
    hide Involving, ExchangeKeysOn, ShelfKeys, CouponKeys, TenderKeys, Counted;
    ExchangeKeysAre(x, db);
  }

  /** It is not refused as a return: with its shelves, its order and the return's number locked, it
      asks for the number of its sale. */
  predicate ReachesItsSale(x: Exchange, policy: Stock.Policy, db: Database) {
    ExchangeKeysBegin(x, db);
    ExchangeEnds(x, policy, Snapshot(ExchangeKeysOn(x, db)[..|Involving(x, db)| + 4], db)).None?
  }

  lemma ExchangeIsFirm(x: Exchange, policy: Stock.Policy)
    ensures Firm(ExchangeRecipe(x, policy).check)
  {
    hide ExchangeEnds;
    forall some, more | Grows(some, more) && ExchangeEnds(x, policy, some).Some?
      ensures ExchangeEnds(x, policy, more) == ExchangeEnds(x, policy, some)
    {
      ExchangeFirm(x, policy, some, more);
    }
  }

  lemma ExchangeOnIs(x: Exchange, policy: Stock.Policy, db: Database)
    ensures var c := ExchangeOn(x, policy, db); Plain(c) && Firm(c.check) && c.after == ExchangeKeysOn(x, db)
  {
    hide Firm, ExchangeEnds, ExchangeKeysOn, ExchangeKeys;
    ExchangeIsFirm(x, policy);
    forall k | k in ExchangeKeys(x) ensures k in ExchangeKeysOn(x, db) {
      ExchangeOnHas(x, policy, db, k);
    }
    FirmAlike(ExchangeRecipe(x, policy), ExchangeKeysOn(x, db));
    ExchangeKeysBegin(x, db);
  }

  lemma ExchangeChecks(x: Exchange, policy: Stock.Policy, db: Database, n: nat)
    requires n <= |ExchangeKeysOn(x, db)|
    ensures ExchangeOn(x, policy, db).check(Snapshot(ExchangeKeysOn(x, db)[..n], db)) ==
        ExchangeEnds(x, policy, Snapshot(ExchangeKeysOn(x, db)[..n], db))
  {
    hide ExchangeEnds, ExchangeKeysOn, ExchangeKeys, Snapshot;
    var c, some := ExchangeRecipe(x, policy), ExchangeKeysOn(x, db)[..n];
    forall k | k in some ensures k in Keys(c) {
      ExchangeOnHas(x, policy, db, k);
    }
    CheckedAlike(c, ExchangeKeysOn(x, db), some, db);
  }

  /** An exchange of a key already used asks for that key alone; another, for its shelves and its
      original order; and for its sale's number, exactly where it is not refused before. */
  lemma ExchangeTries(x: Exchange, policy: Stock.Policy, db: Database) returns (n: nat)
    ensures n <= |ExchangeKeysOn(x, db)|
    ensures Tries(ToRequest(ExchangeOn(x, policy, db)), db) == ExchangeKeysOn(x, db)[..n]
    ensures if ExchangeAt(x.token) in db then n == 1 else n >= |Involving(x, db)| + 2
    ensures n >= |Involving(x, db)| + 5 <==> ReachesItsSale(x, policy, db)
  {
    hide ExchangeKeysOn, Involving, Snapshot, ExchangeEnds, Firm, Tries, ToRequest, ExchangeOn, Plain;
    ExchangeKeysBegin(x, db);
    ExchangeOnIs(x, policy, db);
    n := PlainTries(ExchangeOn(x, policy, db), db);
    StartsWhen(x, policy, db);
    ExchangeChecks(x, policy, db, 1);
    ExchangeChecks(x, policy, db, |Involving(x, db)| + 1);
    ExchangeChecks(x, policy, db, |Involving(x, db)| + 4);
  }

  lemma StartsWhen(x: Exchange, policy: Stock.Policy, db: Database)
    ensures |ExchangeKeysOn(x, db)| > |Involving(x, db)| + 5
    ensures ExchangeEnds(x, policy, Snapshot(ExchangeKeysOn(x, db)[..1], db)).None? <==> ExchangeAt(x.token) !in db
    ensures ExchangeEnds(x, policy, Snapshot(ExchangeKeysOn(x, db)[..|Involving(x, db)| + 1], db)).None? <==>
            ExchangeAt(x.token) !in db
  {
    hide ExchangeKeysOn, Involving, ShelfKeys;
    ExchangeKeysBegin(x, db);
    NoOrderThere(Involving(x, db), x.original);
  }

  lemma NoOrderThere(ids: seq<nat>, order: nat)
    ensures OrderAt(order) !in ShelfKeys(ids)
  {
  }

  /** What it is to be refused as a return. */
  lemma ReachesItsSaleExactlyWhen(x: Exchange, policy: Stock.Policy, db: Database)
    requires x.sale.order != x.original
    ensures var o := OrderIn(Read(db, OrderAt(x.original)));
      ReachesItsSale(x, policy, db) <==>
      && ExchangeAt(x.token) !in db && ReturnAt(x.returned) !in db
      && o.Some? && o.value.lines == x.lines && ReturnObjection(x, o.value).None?
      && CountedBack(x.lines, o.value.returned, x.back).Some?
  {
    hide ExchangeKeysOn, Involving, ShelfKeys, ReturnObjection, CountedBack, PayObjection, Stock.Ids;
    ExchangeKeysBegin(x, db);
    ExchangeKeysAre(x, db);
    var keys := [ExchangeAt(x.token)] + ShelfKeys(Involving(x, db)) +
        [OrderAt(x.original), NumberOf(Returns), ReturnAt(x.returned)];
    assert ExchangeKeysOn(x, db)[..|Involving(x, db)| + 4] == keys;
    var values := Snapshot(keys, db);
    forall id | id in Stock.Ids(InvolvedLines(x)) ensures ShelfAt(id) in values {
      InvolvingHas(x, db, id);
      ShelfKeyIn(Involving(x, db), id);
    }
    NoOrderThere(Involving(x, db), x.sale.order);
    assert OrderAt(x.original) in keys && ReturnAt(x.returned) in keys && OrderAt(x.sale.order) !in keys;
  }

  lemma InvolvingHas(x: Exchange, db: Database, id: nat)
    ensures id in Involving(x, db) <==> id in Stock.Ids(InvolvedLines(x))
  {
    ShelfOrderHas(InvolvedLines(x), db, id);
  }

  /** Which rows are an exchange's. */
  lemma InExchangeKeys(x: Exchange, db: Database, k: Key)
    requires k in ExchangeKeysOn(x, db)
    ensures k.OrderAt? ==> k.order == x.original || k.order == x.sale.order
    ensures k.ShelfAt? ==> k.shelf in Involving(x, db)
    ensures k.CouponAt? ==> x.sale.coupon == Some(k.coupon)
    ensures k.NumberOf? ==> k.sequence.Returns? || k.sequence.CounterOrders?
    ensures k.ExchangeAt? ==> k.token == x.token
    ensures k.ReturnAt? ==> k.returned == x.returned
    ensures !k.OrderClaim? && !k.CountAt? && !k.BranchAt?
  {
    hide InvolvedLines, Counted, ShelfOrder;
    InShelfKeys(Involving(x, db), k);
  }

  lemma ExchangeOnIsMade(x: Exchange, policy: Stock.Policy, db: Database)
    ensures WellMade(ExchangeOn(x, policy, db), IsClaim) && ChecksHold(ExchangeOn(x, policy, db))
    ensures forall d :: Effect(ExchangeOn(x, policy, db), d) == Effect(ExchangeRecipe(x, policy), d)
  {
    hide WellMade, ShelfOrder, ExchangeEnds, Firm, Effect;
    ExchangeWellMade(x, policy);
    ExchangeIsFirm(x, policy);
    forall k ensures k in ExchangeOn(x, policy, db).after <==> k in ExchangeRecipe(x, policy).after {
      ExchangeOnHas(x, policy, db, k);
    }
    MadeAlike(ExchangeRecipe(x, policy), ExchangeOn(x, policy, db).after);
  }

  // ---- A change of status -------------------------------------------------------------------

  /** The shelves of a change of status, as they are locked. */
  function StockOf(a: Advance, db: Database): seq<nat> {
    ShelfOrder(StockLines(a), db)
  }

  function AdvanceKeys(a: Advance, db: Database): seq<Key> {
    [OrderAt(a.order)] + ShelfKeys(StockOf(a, db)) + CouponGivenBack(a)
  }

  /** The order is there, and may come to this status. */
  predicate MayAdvance(a: Advance, policy: Stock.Policy, db: Database) {
    AdvanceEnds(a, policy, Snapshot([OrderAt(a.order)], db)).None?
  }

  lemma AdvanceIsFirm(a: Advance, policy: Stock.Policy)
    ensures Firm(AdvanceRecipe(a, policy).check)
  {
    hide AdvanceEnds;
    forall some, more | Grows(some, more) && AdvanceEnds(a, policy, some).Some?
      ensures AdvanceEnds(a, policy, more) == AdvanceEnds(a, policy, some)
    {
      AdvanceFirm(a, policy, some, more);
    }
  }

  lemma AdvanceOnIs(a: Advance, policy: Stock.Policy, db: Database)
    ensures var c := AdvanceOn(a, policy, db); Plain(c) && Firm(c.check) && c.after == AdvanceKeys(a, db)
  {
    hide Firm, AdvanceEnds, ShelfKeys, ShelfOrder, Stock.Ids, CouponKeys;
    var c, after := AdvanceRecipe(a, policy), AdvanceKeys(a, db);
    AdvanceIsFirm(a, policy);
    forall k | k in c.after ensures k in after {
      AdvanceOnHas(a, policy, db, k);
    }
    FirmAlike(c, after);
  }

  lemma AdvanceChecks(a: Advance, policy: Stock.Policy, db: Database, n: nat)
    requires n <= |AdvanceKeys(a, db)|
    ensures AdvanceOn(a, policy, db).check(Snapshot(AdvanceKeys(a, db)[..n], db)) ==
        AdvanceEnds(a, policy, Snapshot(AdvanceKeys(a, db)[..n], db))
  {
    hide AdvanceEnds, ShelfKeys, ShelfOrder, Stock.Ids, CouponKeys, Snapshot;
    var c, some := AdvanceRecipe(a, policy), AdvanceKeys(a, db)[..n];
    forall k | k in some ensures k in Keys(c) {
      assert k in AdvanceKeys(a, db);
      AdvanceOnHas(a, policy, db, k);
    }
    CheckedAlike(c, AdvanceKeys(a, db), some, db);
  }

  /** Nothing but the order's row is asked about until its last shelf is locked. */
  lemma ShelfMissing(a: Advance, policy: Stock.Policy, db: Database)
    requires StockOf(a, db) != []
    ensures |StockOf(a, db)| <= |AdvanceKeys(a, db)|
    ensures AdvanceEnds(a, policy, Snapshot(AdvanceKeys(a, db)[..|StockOf(a, db)|], db)) ==
            AdvanceEnds(a, policy, Snapshot([OrderAt(a.order)], db))
  {
    hide AdvanceEnds, ShelfOrder, CouponKeys;
    var ids, m := StockOf(a, db), |StockOf(a, db)|;
    var some := Snapshot(AdvanceKeys(a, db)[..m], db);
    ShelfOrderOnce(StockLines(a), db);
    assert AdvanceKeys(a, db)[..m] == [OrderAt(a.order)] + ShelfKeys(ids[..m - 1]);
    assert ShelfAt(ids[m - 1]) !in some;
    assert ShelfAt(ids[m - 1]) !in Snapshot([OrderAt(a.order)], db);
    NotAllRead(StockLines(a), db, ids[m - 1], some);
    NotAllRead(StockLines(a), db, ids[m - 1], Snapshot([OrderAt(a.order)], db));
    SameWithoutShelves(a, policy, some, Snapshot([OrderAt(a.order)], db));
  }

  lemma NotAllRead(lines: seq<Stock.Line>, db: Database, id: nat, values: Values)
    requires id in ShelfOrder(lines, db) && ShelfAt(id) !in values
    ensures !HasShelves(values, Stock.Ids(lines))
  {
    hide ShelfOrder, Stock.Ids;
    ShelfOrderHas(lines, db, id);
    var i :| 0 <= i < |Stock.Ids(lines)| && Stock.Ids(lines)[i] == id;
  }

  lemma SameWithoutShelves(a: Advance, policy: Stock.Policy, some: Values, other: Values)
    requires OrderAt(a.order) in some && OrderAt(a.order) in other && some[OrderAt(a.order)] == other[OrderAt(a.order)]
    requires !HasShelves(some, Stock.Ids(StockLines(a))) && !HasShelves(other, Stock.Ids(StockLines(a)))
    ensures AdvanceEnds(a, policy, some) == AdvanceEnds(a, policy, other)
  {
    hide Packing, HasShelves, Stock.Ids;
  }

  /** It asks for its order alone where that may not come to the status, and else for all its shelves. */
  lemma AdvanceTries(a: Advance, policy: Stock.Policy, db: Database) returns (n: nat)
    ensures n <= |AdvanceKeys(a, db)|
    ensures Tries(ToRequest(AdvanceOn(a, policy, db)), db) == AdvanceKeys(a, db)[..n]
    ensures if MayAdvance(a, policy, db) then n >= |StockOf(a, db)| + 1 else n == 1
  {
    hide Snapshot, AdvanceEnds, Firm, Tries, ToRequest, StockOf, CouponGivenBack, AdvanceOn, Plain;
    AdvanceOnIs(a, policy, db);
    n := PlainTries(AdvanceOn(a, policy, db), db);
    LengthIs(StockOf(a, db));
    assert AdvanceKeys(a, db)[..1] == [OrderAt(a.order)];
    AdvanceChecks(a, policy, db, 1);
    if StockOf(a, db) != [] {
      ShelfMissing(a, policy, db);
      AdvanceChecks(a, policy, db, |StockOf(a, db)|);
    }
  }

  lemma AdvanceOnIsMade(a: Advance, policy: Stock.Policy, db: Database)
    ensures WellMade(AdvanceOn(a, policy, db), IsClaim) && ChecksHold(AdvanceOn(a, policy, db))
    ensures forall d :: Effect(AdvanceOn(a, policy, db), d) == Effect(AdvanceRecipe(a, policy), d)
  {
    hide WellMade, ShelfOrder, AdvanceEnds, Firm, Effect;
    AdvanceWellMade(a, policy);
    AdvanceIsFirm(a, policy);
    forall k ensures k in AdvanceOn(a, policy, db).after <==> k in AdvanceRecipe(a, policy).after {
      AdvanceOnHas(a, policy, db, k);
    }
    MadeAlike(AdvanceRecipe(a, policy), AdvanceOn(a, policy, db).after);
  }

  // ---- An order -----------------------------------------------------------------------------

  /** The shelves of an order, as they are locked. */
  function Asking(p: Purchase, db: Database): seq<nat> {
    ShelfOrder(p.lines, db)
  }

  function OrderKey(p: Purchase): seq<Key> {
    if p.token.Some? then [OrderClaim(p.token.value)] else []
  }

  /** What an order locks before its shelves. */
  function Opening(p: Purchase): seq<Key> {
    [NumberKey(p.counter)] + OrderKey(p) + [OrderAt(p.order)]
  }

  function PaymentKeys(p: Purchase): seq<Key> {
    CouponKeys(p.coupon) + TenderKeys(Tenders(p))
  }

  function PurchaseKeysInOrder(p: Purchase, db: Database): seq<Key> {
    Opening(p) + ShelfKeys(Asking(p, db)) + PaymentKeys(p)
  }

  lemma PurchaseInOrder(p: Purchase, policy: Stock.Policy, db: Database)
    ensures InOrder(PurchaseOn(p, policy, db)) == PurchaseKeysInOrder(p, db)
  {
    hide Tenders, TenderKeys, ShelfKeys, CouponKeys, ShelfOrder;
  }

  /** It has lines, its key and its order are new: it comes to its shelves. */
  predicate ComesToItsShelves(p: Purchase, db: Database) {
    && p.lines != []
    && (p.token.Some? ==> OrderClaim(p.token.value) !in db)
    && OrderAt(p.order) !in db
  }

  lemma PurchaseIsFirm(p: Purchase, policy: Stock.Policy)
    ensures Firm(PurchaseRecipe(p, policy).check)
  {
    hide PurchaseObjection;
    forall some, more | Grows(some, more) && PurchaseObjection(p, policy, some).Some?
      ensures PurchaseObjection(p, policy, more) == PurchaseObjection(p, policy, some)
    {
      PurchaseFirm(p, policy, some, more);
    }
  }

  function AfterItsNumber(p: Purchase, db: Database): seq<Key> {
    [OrderAt(p.order)] + ShelfKeys(Asking(p, db)) + PaymentKeys(p)
  }

  lemma PurchaseShape(p: Purchase, policy: Stock.Policy, db: Database)
    ensures var c := PurchaseOn(p, policy, db);
      && Numbered(c) && c.before == [NumberKey(p.counter)] && c.after == AfterItsNumber(p, db)
      && c.claim == (if p.token.Some? then Some(OrderClaim(p.token.value)) else None)
      && (c.fault.Some? <==> p.lines == [])
      && |InOrder(c)| - |c.after| == |Opening(p)| - 1
    ensures |AfterItsNumber(p, db)| > |Asking(p, db)|
  {
    hide Tenders, ShelfOrder;
  }

  lemma PurchaseOnIsFirm(p: Purchase, policy: Stock.Policy, db: Database)
    ensures Firm(PurchaseOn(p, policy, db).check)
  {
    hide Firm, PurchaseObjection, ShelfKeys, ShelfOrder, Stock.Ids, Tenders, CouponKeys;
    var c := PurchaseRecipe(p, policy);
    PurchaseIsFirm(p, policy);
    forall k | k in c.after ensures k in PurchaseOn(p, policy, db).after {
      PurchaseOnHas(p, policy, db, k);
    }
    FirmAlike(c, PurchaseOn(p, policy, db).after);
  }

  lemma PurchaseChecks(p: Purchase, policy: Stock.Policy, db: Database, j: nat)
    requires j <= |AfterItsNumber(p, db)|
    ensures var keys := [NumberKey(p.counter)] + AfterItsNumber(p, db)[..j];
      PurchaseOn(p, policy, db).check(Snapshot(keys, db)) == Refuse(PurchaseObjection(p, policy, Snapshot(keys, db)))
  {
    hide PurchaseObjection, ShelfKeys, ShelfOrder, Stock.Ids, Tenders, TenderKeys, CouponKeys, Snapshot;
    var c, some := PurchaseRecipe(p, policy), [NumberKey(p.counter)] + AfterItsNumber(p, db)[..j];
    PurchaseShape(p, policy, db);
    forall k | k in some ensures k in Keys(c) {
      if k in AfterItsNumber(p, db) {
        PurchaseOnHas(p, policy, db, k);
      }
    }
    CheckedAlike(c, PurchaseOn(p, policy, db).after, some, db);
  }

  /** Asked of its own rows and of all its shelves but the last, it is refused only for its order. */
  lemma PurchaseAsked(p: Purchase, policy: Stock.Policy, db: Database, j: nat)
    requires 0 < j <= |AfterItsNumber(p, db)|
    requires j == 1 || (OrderAt(p.order) !in db && j <= |Asking(p, db)|)
    ensures OrderAt(p.order) in db ==>
              PurchaseObjection(p, policy, Snapshot([NumberKey(p.counter)] + AfterItsNumber(p, db)[..j], db)).Some?
    ensures OrderAt(p.order) !in db && j <= |Asking(p, db)| ==>
              PurchaseObjection(p, policy, Snapshot([NumberKey(p.counter)] + AfterItsNumber(p, db)[..j], db)).None?
  {
    hide Tenders, TenderKeys, CouponKeys, Stock.Ids, ShelfOrder, StockObjection, CouponObjection, TenderObjection;
    var ids := Asking(p, db);
    ShelfOrderOnce(p.lines, db);
    var some := Snapshot([NumberKey(p.counter)] + AfterItsNumber(p, db)[..j], db);
    assert some.Keys == (set k | k in [NumberKey(p.counter)] + AfterItsNumber(p, db)[..j]);
    assert AfterItsNumber(p, db)[..j][0] == OrderAt(p.order);
    if j <= |ids| {
      assert AfterItsNumber(p, db)[..j] == [OrderAt(p.order)] + ShelfKeys(ids[..j - 1]);
      assert ShelfAt(ids[j - 1]) !in some;
      NotAllRead(p.lines, db, ids[j - 1], some);
    }
  }

  lemma NumberedFirst(c: ShopRecipe)
    requires Numbered(c)
    ensures c.claim.Some? ==> c.first
  {
  }

  lemma NoClaimThere(p: Purchase, policy: Stock.Policy, db: Database)
    ensures p.token.Some? ==> OrderClaim(p.token.value) !in Keys(PurchaseOn(p, policy, db))
  {
    hide Tenders, ShelfOrder;
  }

  /** A new order asks for all its shelves; another, for no shelf, and none but its number if its key is used. */
  lemma PurchaseTries(p: Purchase, policy: Stock.Policy, db: Database) returns (n: nat)
    ensures n <= |PurchaseKeysInOrder(p, db)|
    ensures Tries(ToRequest(PurchaseOn(p, policy, db)), db) == PurchaseKeysInOrder(p, db)[..n]
    ensures if ComesToItsShelves(p, db) then n >= |Opening(p)| + |Asking(p, db)| else n <= |Opening(p)|
  {
    hide PurchaseOn, Asking, InOrder, AfterItsNumber, NumberKey, ToRequest, Tries, Snapshot, PurchaseObjection,
         Firm, Numbered, Opening, PurchaseKeysInOrder, Keys;
    var c := PurchaseOn(p, policy, db);
    PurchaseShape(p, policy, db);
    PurchaseInOrder(p, policy, db);
    if p.lines == [] || (p.token.Some? && OrderClaim(p.token.value) in db) {
      StopsAtOnce(c, db) by {
        NumberedFirst(c);
      }
      n := 0;
    } else {
      PurchaseOnIsFirm(p, policy, db);
      NoClaimThere(p, policy, db);
      NumberedMayStart(c, db);
      n := NumberedTries(c, db);
      var j := if OrderAt(p.order) in db then 1 else |Asking(p, db)|;
      if j < |c.after| {
        PurchaseChecks(p, policy, db, j);
        if j > 0 {
          PurchaseAsked(p, policy, db, j);
        }
      }
    }
  }

  lemma NumberedMayStart(c: ShopRecipe, db: Database)
    requires Numbered(c) && Firm(c.check) && c.fault.None?
    requires c.claim.Some? ==> c.claim.value !in db && c.claim.value !in Keys(c)
    ensures MayStart(c, db)
  {
  }

  /** Which rows are an order's. */
  lemma InPurchaseKeys(p: Purchase, db: Database, k: Key)
    requires k in PurchaseKeysInOrder(p, db)
    ensures k.NumberOf? ==> k == NumberKey(p.counter)
    ensures k.OrderAt? ==> k.order == p.order
    ensures k.OrderClaim? ==> p.token == Some(k.token)
    ensures k.ShelfAt? ==> k.shelf in Asking(p, db)
    ensures k.CouponAt? ==> p.coupon == Some(k.coupon)
    ensures k.AccountAt? ==> p.counter
    ensures !k.ExchangeAt? && !k.ReturnAt? && !k.StockTransferClaim? && !k.CountAt? && !k.BranchAt?
  {
    hide ShelfOrder, Counted;
    InShelfKeys(Asking(p, db), k);
  }

  lemma PurchaseOnIsMade(p: Purchase, policy: Stock.Policy, db: Database)
    ensures WellMade(PurchaseOn(p, policy, db), IsClaim) && ChecksHold(PurchaseOn(p, policy, db))
    ensures forall d :: Effect(PurchaseOn(p, policy, db), d) == Effect(PurchaseRecipe(p, policy), d)
  {
    hide WellMade, ShelfOrder, PurchaseObjection, Firm, Effect;
    PurchaseWellMade(p, policy);
    PurchaseIsFirm(p, policy);
    forall k ensures k in PurchaseOn(p, policy, db).after <==> k in PurchaseRecipe(p, policy).after {
      PurchaseOnHas(p, policy, db, k);
    }
    MadeAlike(PurchaseRecipe(p, policy), PurchaseOn(p, policy, db).after);
  }

  // ---- A transfer of stock ------------------------------------------------------------------

  /** The shelves it sends from, as they are locked. */
  function Sources(t: Shipment, db: Database): seq<nat> {
    ShelfOrder(Leaving(StockRoom.Packed(t.crates)), db)
  }

  /** The shelves of a transfer, those it sends from and then those it sends to. */
  function ShipmentShelves(t: Shipment, db: Database): seq<nat> {
    Sources(t, db) + Targets(StockRoom.Packed(t.crates))
  }

  function ShipmentOpening(t: Shipment): seq<Key> {
    [NumberOf(StockTransfers)] + if t.token.Some? then [StockTransferClaim(t.token.value)] else []
  }

  /** Nothing is wrong with it as it is asked, and its key is new. */
  predicate ComesToItsSources(t: Shipment, db: Database) {
    ShipmentFault(t).None? && (t.token.Some? ==> StockTransferClaim(t.token.value) !in db)
  }

  lemma ShipmentInOrder(t: Shipment, policy: Stock.Policy, db: Database)
    ensures InOrder(ShipmentOn(t, policy, db)) == ShipmentOpening(t) + ShelfKeys(ShipmentShelves(t, db))
  {
    hide Leaving, Targets, StockRoom.Packed, ShelfOrder;
    var sources, targets := Sources(t, db), Targets(StockRoom.Packed(t.crates));
    assert ShelfKeys(sources + targets) == ShelfKeys(sources) + ShelfKeys(targets);
  }

  lemma ShipmentIsFirm(t: Shipment, policy: Stock.Policy)
    ensures Firm(ShipmentRecipe(t, policy).check)
  {
    hide ShipmentObjection;
    forall some, more | Grows(some, more) && ShipmentRecipe(t, policy).check(some).Some?
      ensures ShipmentRecipe(t, policy).check(more) == ShipmentRecipe(t, policy).check(some)
    {
      ShipmentFirm(t, policy, some, more);
    }
  }

  lemma ShipmentOnIsFirm(t: Shipment, policy: Stock.Policy, db: Database)
    ensures Firm(ShipmentOn(t, policy, db).check)
  {
    hide Firm, ShipmentObjection, ShelfKeys, ShelfOrder, Stock.Ids, Leaving, Targets;
    var c := ShipmentRecipe(t, policy);
    ShipmentIsFirm(t, policy);
    forall k | k in c.after ensures k in ShipmentOn(t, policy, db).after {
      ShipmentOnHas(t, policy, db, k);
    }
    FirmAlike(c, ShipmentOn(t, policy, db).after);
  }

  lemma ShipmentShape(t: Shipment, policy: Stock.Policy, db: Database)
    ensures var c := ShipmentOn(t, policy, db);
      && Numbered(c) && c.before == [NumberOf(StockTransfers)] && c.after == ShelfKeys(ShipmentShelves(t, db))
      && c.claim == (if t.token.Some? then Some(StockTransferClaim(t.token.value)) else None)
      && (c.fault.None? <==> ShipmentFault(t).None?)
      && |InOrder(c)| - |c.after| == |ShipmentOpening(t)|
  {
    hide Leaving, Targets, StockRoom.Packed, ShelfOrder;
    var sources, targets := Sources(t, db), Targets(StockRoom.Packed(t.crates));
    assert ShelfKeys(sources + targets) == ShelfKeys(sources) + ShelfKeys(targets);
  }

  lemma ShipmentChecks(t: Shipment, policy: Stock.Policy, db: Database, j: nat)
    requires j <= |ShipmentShelves(t, db)|
    ensures var keys := [NumberOf(StockTransfers)] + ShelfKeys(ShipmentShelves(t, db))[..j];
      ShipmentOn(t, policy, db).check(Snapshot(keys, db)) ==
          Refuse(ShipmentObjection(policy, StockRoom.Packed(t.crates), Snapshot(keys, db)))
  {
    hide ShipmentObjection, ShelfKeys, ShipmentShelves, Stock.Ids, Leaving, Targets, Snapshot, ShelfOrder;
    var c, shelves := ShipmentRecipe(t, policy), ShelfKeys(ShipmentShelves(t, db));
    LengthIs(ShipmentShelves(t, db));
    var some := [NumberOf(StockTransfers)] + shelves[..j];
    ShipmentShape(t, policy, db);
    forall k | k in some ensures k in Keys(c) {
      if k in shelves[..j] {
        assert k in shelves;
        ShipmentOnHas(t, policy, db, k);
      }
    }
    CheckedAlike(c, ShipmentOn(t, policy, db).after, some, db);
  }

  /** What is refused of the whole transfer is refused once its sources are locked, and not before. */
  lemma SourcesSettle(t: Shipment, policy: Stock.Policy, db: Database)
    requires ShipmentObjection(policy, StockRoom.Packed(t.crates),
        Snapshot([NumberOf(StockTransfers)] + ShelfKeys(ShipmentShelves(t, db)), db)).Some?
    ensures ShipmentObjection(policy, StockRoom.Packed(t.crates),
        Snapshot([NumberOf(StockTransfers)] + ShelfKeys(Sources(t, db)), db)).Some?
    ensures 0 < |Sources(t, db)| < |ShipmentShelves(t, db)|
  {
    hide Leaving, StockRoom.Packed, Stock.Ids, ShelfKeys, CannotReduce, Sources, Targets;
    var crates := StockRoom.Packed(t.crates);
    var all, some := Snapshot([NumberOf(StockTransfers)] + ShelfKeys(ShipmentShelves(t, db)), db),
        Snapshot([NumberOf(StockTransfers)] + ShelfKeys(Sources(t, db)), db);
    var i :| 0 <= i < |crates| && CannotReduce(policy, ShelfOf(all, crates[i].source), crates[i].quantity).Some?;
    PackedIsPositive(t.crates);
    SourceIsLocked(crates, i);
    SourcesRead(t, db, crates[i].source);
    assert |Targets(crates)| == |crates| by {
      TargetsAre(crates);
    }
    forall id | id in Stock.Ids(Leaving(crates)) ensures ShelfAt(id) in some {
      SourcesRead(t, db, id);
    }
  }

  lemma TargetsAre(crates: seq<Crate>)
    ensures |Targets(crates)| == |crates|
  {
  }

  lemma SourcesRead(t: Shipment, db: Database, id: nat)
    requires id in Stock.Ids(Leaving(StockRoom.Packed(t.crates)))
    ensures var all, some := Snapshot([NumberOf(StockTransfers)] + ShelfKeys(ShipmentShelves(t, db)), db),
        Snapshot([NumberOf(StockTransfers)] + ShelfKeys(Sources(t, db)), db);
      id in Sources(t, db) && ShelfAt(id) in some && ShelfOf(some, id) == ShelfOf(all, id)
  {
    hide ShelfKeys, Targets, ShelfOrder, Leaving, StockRoom.Packed;
    ShelfOrderHas(Leaving(StockRoom.Packed(t.crates)), db, id);
    ShelfKeyIn(Sources(t, db), id);
    ShelfKeyIn(ShipmentShelves(t, db), id);
  }

  /** Before its last source is locked nothing is asked of them. */
  lemma SourceMissing(t: Shipment, policy: Stock.Policy, db: Database, j: nat)
    requires j < |Sources(t, db)|
    ensures ShipmentObjection(policy, StockRoom.Packed(t.crates),
        Snapshot([NumberOf(StockTransfers)] + ShelfKeys(Sources(t, db)[..j]), db)).None?
  {
    hide ShelfOrder, Leaving, StockRoom.Packed, Stock.Ids, CannotReduce;
    var ids := Sources(t, db);
    var some := Snapshot([NumberOf(StockTransfers)] + ShelfKeys(ids[..j]), db);
    ShelfOrderOnce(Leaving(StockRoom.Packed(t.crates)), db);
    assert ShelfAt(ids[|ids| - 1]) !in some;
    NotAllRead(Leaving(StockRoom.Packed(t.crates)), db, ids[|ids| - 1], some);
  }

  lemma FirstShelves(t: Shipment, db: Database, n: nat)
    requires n <= |Sources(t, db)|
    ensures n <= |ShelfKeys(ShipmentShelves(t, db))|
    ensures ShelfKeys(ShipmentShelves(t, db))[..n] == ShelfKeys(Sources(t, db)[..n])
  {
    hide Sources, Targets;
  }

  /** The shelves it asks for: all, those it sends from, or none. */
  ghost function ShipmentAsks(t: Shipment, policy: Stock.Policy, db: Database): seq<nat> {
    if !ComesToItsSources(t, db) then [] else if WouldGo(ShipmentOn(t, policy, db), db) then ShipmentShelves(t, db)
    else Sources(t, db)
  }

  lemma ShipmentClaimApart(t: Shipment, policy: Stock.Policy, db: Database)
    ensures t.token.Some? ==> StockTransferClaim(t.token.value) !in Keys(ShipmentOn(t, policy, db))
  {
    hide ShelfOrder, Leaving, StockRoom.Packed, Targets;
  }

  lemma ShipmentTries(t: Shipment, policy: Stock.Policy, db: Database) returns (pre: seq<Key>)
    ensures Tries(ToRequest(ShipmentOn(t, policy, db)), db) == pre + ShelfKeys(ShipmentAsks(t, policy, db))
    ensures pre == if ComesToItsSources(t, db) then ShipmentOpening(t) else []
  {
    hide ShipmentOn, InOrder, ToRequest, Tries, ShelfKeys, ShipmentShelves, Snapshot, Firm, Numbered, Keys,
         ShipmentFault, WellMade, ChecksHold;
    var c := ShipmentOn(t, policy, db);
    ShipmentShape(t, policy, db);
    ShipmentInOrder(t, policy, db);
    NoKeys();
    if ComesToItsSources(t, db) {
      pre := ShipmentOpening(t);
      ShipmentOnIsFirm(t, policy, db);
      ShipmentClaimApart(t, policy, db);
      NumberedMayStart(c, db);
      if WouldGo(c, db) {
        ShipmentOnIsMade(t, policy, db);
        TriesAll(c, IsClaim, db);
      } else {
        RefusedShipmentTries(t, policy, db);
      }
    } else {
      pre := [];
      StopsAtOnce(c, db) by {
        NumberedFirst(c);
      }
    }
  }

  lemma ShipmentOnIsMade(t: Shipment, policy: Stock.Policy, db: Database)
    ensures WellMade(ShipmentOn(t, policy, db), IsClaim) && ChecksHold(ShipmentOn(t, policy, db))
    ensures forall d :: Effect(ShipmentOn(t, policy, db), d) == Effect(ShipmentRecipe(t, policy), d)
  {
    hide WellMade, ShelfOrder, ShipmentObjection, Firm, Effect;
    ShipmentWellMade(t, policy);
    ShipmentIsFirm(t, policy);
    forall k ensures k in ShipmentOn(t, policy, db).after <==> k in ShipmentRecipe(t, policy).after {
      ShipmentOnHas(t, policy, db, k);
    }
    MadeAlike(ShipmentRecipe(t, policy), ShipmentOn(t, policy, db).after);
  }

  lemma RefusedShipmentTries(t: Shipment, policy: Stock.Policy, db: Database)
    requires var c := ShipmentOn(t, policy, db); Numbered(c) && MayStart(c, db) && !WouldGo(c, db)
    ensures Tries(ToRequest(ShipmentOn(t, policy, db)), db) == ShipmentOpening(t) + ShelfKeys(Sources(t, db))
  {
    hide ShipmentOn, InOrder, ToRequest, Tries, Snapshot, Firm, Sources, Targets, ShipmentObjection, ShelfKeys,
         StockRoom.Packed;
    var c, shelves, m := ShipmentOn(t, policy, db), ShelfKeys(ShipmentShelves(t, db)), |Sources(t, db)|;
    ShipmentShape(t, policy, db);
    ShipmentInOrder(t, policy, db);
    LengthIs(ShipmentShelves(t, db));
    var n := NumberedTries(c, db);
    assert shelves[..|shelves|] == shelves;
    ShipmentChecks(t, policy, db, |shelves|);
    AllKeys(c);
    SourcesSettle(t, policy, db);
    FirstShelves(t, db, m);
    assert Sources(t, db)[..m] == Sources(t, db);
    ShipmentChecks(t, policy, db, m);
    assert c.after[..m] == ShelfKeys(Sources(t, db));
    FirstShelves(t, db, m - 1);
    assert c.after[..m - 1] == ShelfKeys(Sources(t, db)[..m - 1]);
    ShipmentChecks(t, policy, db, m - 1);
    SourceMissing(t, policy, db, m - 1);
  }

  lemma AllKeys(c: ShopRecipe)
    requires Numbered(c)
    ensures Keys(c) == c.before + c.after
  {
  }

  // ---- A count ------------------------------------------------------------------------------

  /** The shelves of a sheet, as they are locked. */
  function Counting(a: Counts.Applying, db: Database): seq<nat> {
    ShelfOrder(Counts.Shelves(a.lines), db)
  }

  function CountKeys(a: Counts.Applying, db: Database): seq<Key> {
    Counts.SheetKeys(a) + ShelfKeys(Counting(a, db))
  }

  /** The sheet is there, open, and something is counted on it. */
  predicate OpensItsShelves(a: Counts.Applying, db: Database) {
    var sheet := Counts.SheetIn(Read(db, CountAt(a.count)));
    sheet.Some? && sheet.value.open && sheet.value.lines == a.lines && a.lines != []
  }

  lemma CountIsFirm(a: Counts.Applying)
    ensures Firm(Counts.CountRecipe(a).check)
  {
    hide Counts.CountObjection;
    forall some, more | Grows(some, more) && Counts.CountObjection(a, some).Some?
      ensures Counts.CountObjection(a, more) == Counts.CountObjection(a, some)
    {
      Counts.CountFirm(a, some, more);
    }
  }

  lemma CountOnIs(a: Counts.Applying, db: Database)
    ensures var c := Counts.CountOn(a, db); Plain(c) && Firm(c.check) && c.after == CountKeys(a, db)
  {
    hide Firm, Counts.CountObjection, ShelfOrder, ShelfKeys, Stock.Ids;
    var c := Counts.CountRecipe(a);
    CountIsFirm(a);
    forall k | k in c.after ensures k in Counts.CountOn(a, db).after {
      Counts.CountOnHas(a, db, k);
    }
    FirmAlike(c, Counts.CountOn(a, db).after);
    assert Counts.CountOn(a, db).after == CountKeys(a, db);
  }

  lemma CountChecks(a: Counts.Applying, db: Database, n: nat)
    requires n <= |CountKeys(a, db)|
    ensures Counts.CountOn(a, db).check(Snapshot(CountKeys(a, db)[..n], db)) ==
        Refuse(Counts.CountObjection(a, Snapshot(CountKeys(a, db)[..n], db)))
  {
    hide Firm, Counts.CountObjection, ShelfOrder, ShelfKeys, Stock.Ids, Snapshot;
    var c, some := Counts.CountRecipe(a), CountKeys(a, db)[..n];
    CountOnIs(a, db);
    forall k | k in some ensures k in Keys(c) {
      assert k in CountKeys(a, db);
      Counts.CountOnHas(a, db, k);
    }
    CheckedAlike(c, Counts.CountOn(a, db).after, some, db);
  }

  lemma CountOnIsMade(a: Counts.Applying, db: Database)
    ensures WellMade(Counts.CountOn(a, db), IsClaim) && ChecksHold(Counts.CountOn(a, db))
    ensures forall d :: Effect(Counts.CountOn(a, db), d) == Effect(Counts.CountRecipe(a), d)
  {
    hide WellMade, ShelfOrder, Counts.CountObjection, Firm, Effect;
    Counts.CountWellMade(a);
    CountIsFirm(a);
    forall k ensures k in Counts.CountOn(a, db).after <==> k in Counts.CountRecipe(a).after {
      Counts.CountOnHas(a, db, k);
    }
    MadeAlike(Counts.CountRecipe(a), Counts.CountOn(a, db).after);
  }

  /** Past the sheet's row and its branch's, it is refused unless it opens its shelves. */
  lemma CountAsked(a: Counts.Applying, db: Database, n: nat)
    requires n <= |CountKeys(a, db)| && 0 < n < |Counting(a, db)| + 2
    ensures n >= 2 && Counts.CountObjection(a, Snapshot(CountKeys(a, db)[..n], db)).None? ==> OpensItsShelves(a, db)
    ensures OpensItsShelves(a, db) ==> Counts.CountObjection(a, Snapshot(CountKeys(a, db)[..n], db)).None?
  {
    hide ShelfOrder, Stock.Ids, Counts.Shelves, Counts.Unreceived;
    var ids, some := Counting(a, db), Snapshot(CountKeys(a, db)[..n], db);
    ShelfOrderOnce(Counts.Shelves(a.lines), db);
    LengthIs(ids);
    assert CountKeys(a, db)[..n][0] == CountAt(a.count);
    SnapshotHas(CountKeys(a, db)[..n], db, CountAt(a.count));
    if n >= 2 {
      assert CountKeys(a, db)[..n] == Counts.SheetKeys(a) + ShelfKeys(ids[..n - 2]);
      assert CountKeys(a, db)[..n][1] == BranchAt(a.branch);
      assert ShelfAt(ids[|ids| - 1]) !in some;
      NotAllRead(Counts.Shelves(a.lines), db, ids[|ids| - 1], some);
    }
  }

  lemma SomethingCounted(a: Counts.Applying, db: Database)
    requires a.lines != []
    ensures Counting(a, db) != []
  {
    var lines := Counts.Shelves(a.lines);
    hide Stock.Ids, ShelfOrder;
    Stock.IdsAscend(lines);
    Counts.LineIsTouched(a.lines, 0);
    ShelfOrderHas(lines, db, a.lines[0].shelf);
  }

  /** An open sheet asks for all its shelves; another, for none. */
  lemma CountTries(a: Counts.Applying, db: Database) returns (n: nat)
    ensures n <= |CountKeys(a, db)| && Tries(ToRequest(Counts.CountOn(a, db)), db) == CountKeys(a, db)[..n]
    ensures if OpensItsShelves(a, db) then n == |CountKeys(a, db)| else n <= 2
  {
    hide Snapshot, Counts.CountObjection, Firm, Tries, ToRequest, Counting, Counts.CountOn, Plain, OpensItsShelves;
    CountOnIs(a, db);
    n := PlainTries(Counts.CountOn(a, db), db);
    LengthIs(Counting(a, db));
    if 0 < n < |CountKeys(a, db)| {
      CountChecks(a, db, n);
      CountAsked(a, db, n);
    }
    if a.lines != [] {
      SomethingCounted(a, db);
      CountChecks(a, db, 2);
      CountAsked(a, db, 2);
    } else {
      NothingCounted(a, db);
    }
  }

  lemma NothingCounted(a: Counts.Applying, db: Database)
    requires a.lines == []
    ensures Counting(a, db) == []
  {
    assert Counts.Shelves(a.lines) == [];
  }
}
