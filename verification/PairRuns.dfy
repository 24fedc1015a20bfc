/** Which two of the shop's requests can bring each other to a standstill, exactly. */
module PairRuns {
  import opened Wrappers
  import opened RowLocks
  import opened LockOrder
  import opened Recipes
  import opened LockPairs
  import opened Shop
  import opened CashBook
  import opened StockRoom
  import opened Orders
  import opened Fulfilment
  import opened Exchanges
  import opened PairKeys
  import Counts = StockCounts
  import Stock = StockLedger

  // ---- Keys of one kind -------------------------------------------------------------------

  /** Of those both have they begin with different ones. */
  predicate BeginApart(a: seq<nat>, b: seq<nat>) {
    FirstShared(a, b) != FirstShared(b, a)
  }

  predicate ShareAShelf(a: seq<nat>, b: seq<nat>) {
    exists id :: id in a && id in b
  }

  /** A shelf that is there is locked after those that are not, and lowest id first. */
  lemma ThereInOrder(lines: seq<Stock.Line>, db: Database, i: nat, j: nat)
    requires i < j < |ShelfOrder(lines, db)|
    requires ShelfAt(ShelfOrder(lines, db)[i]) in db && ShelfAt(ShelfOrder(lines, db)[j]) in db
    ensures ShelfOrder(lines, db)[i] < ShelfOrder(lines, db)[j]
  {
    hide Missing, Present, Stock.Ids;
    var made, there := Missing(lines, db), Present(Stock.Ids(lines), db);
    Stock.IdsAscend(lines);
    PresentAscends(Stock.Ids(lines), db);
    if i < |made| {
      MissingHas(lines, db, made[i]);
    }
  }

  /** They begin apart only where one of the shelves both lock has to be made. */
  lemma ApartNeedsAMissingShelf(a: seq<Stock.Line>, b: seq<Stock.Line>, db: Database)
    requires BeginApart(ShelfOrder(a, db), ShelfOrder(b, db))
    ensures exists id :: id in Stock.Ids(a) && id in Stock.Ids(b) && ShelfAt(id) !in db
  {
    hide ShelfOrder, Stock.Ids, FirstShared;
    var c, d := ShelfOrder(a, db), ShelfOrder(b, db);
    if forall id :: id in Stock.Ids(a) && id in Stock.Ids(b) ==> ShelfAt(id) in db {
      forall id | id in c && id in d ensures ShelfAt(id) in db {
        ShelfOrderHas(a, db, id);
        ShelfOrderHas(b, db, id);
      }
      forall i, j | 0 <= i < j < |c| && c[i] in d && c[j] in d ensures c[i] < c[j] {
        ThereInOrder(a, db, i, j);
      }
      forall i, j | 0 <= i < j < |d| && d[i] in c && d[j] in c ensures d[i] < d[j] {
        ThereInOrder(b, db, i, j);
      }
      RankedBeginAlike(c, d, (id: nat) => id as int);
    }
  }

  lemma {:induction false} ShelvesShared(a: seq<nat>, b: seq<nat>)
    ensures FirstShared(ShelfKeys(a), ShelfKeys(b)) ==
            match FirstShared(a, b) case Some(id) => Some(ShelfAt(id)) case None => None
  {
    if a != [] {
      assert ShelfKeys(a)[1..] == ShelfKeys(a[1..]);
      InShelfKeys(b, ShelfAt(a[0]));
      ShelvesShared(a[1..], b);
    }
  }

  lemma ShelvesSharedIfAny(a: seq<nat>, b: seq<nat>)
    ensures FirstShared(ShelfKeys(a), ShelfKeys(b)).Some? <==> ShareAShelf(a, b)
    ensures FirstShared(ShelfKeys(a), ShelfKeys(b)).Some? ==> FirstShared(ShelfKeys(a), ShelfKeys(b)).value.ShelfAt?
  {
    ShelvesShared(a, b);
    SharedIfAny(a, b);
  }

  function AccountKeys(ids: seq<nat>): seq<Key> {
    seq(|ids|, i requires 0 <= i < |ids| => AccountAt(ids[i]))
  }

  lemma InAccountKeys(ids: seq<nat>, id: nat)
    ensures AccountAt(id) in AccountKeys(ids) <==> id in ids
  {
    if id in ids {
      var i :| 0 <= i < |ids| && ids[i] == id;
      assert AccountKeys(ids)[i] == AccountAt(id);
    }
  }

  lemma {:induction false} AccountsShared(a: seq<nat>, b: seq<nat>)
    ensures FirstShared(AccountKeys(a), AccountKeys(b)) ==
            match FirstShared(a, b) case Some(id) => Some(AccountAt(id)) case None => None
  {
    if a != [] {
      assert AccountKeys(a)[1..] == AccountKeys(a[1..]);
      InAccountKeys(b, a[0]);
      AccountsShared(a[1..], b);
    }
  }

  lemma NoneShared(a: seq<Key>, b: seq<Key>)
    requires forall k :: k in a ==> k !in b
    ensures FirstShared(a, b) == None
  {
    assert forall m :: 0 <= m < |a| ==> a[m] !in b;
    var i := FirstSharedIs(a, b);
  }

  // ---- Shelves among the rows ----------------------------------------------------------------

  predicate Shelfless(keys: seq<Key>) {
    forall k :: k in keys ==> !k.ShelfAt?
  }

  /** Nothing before the shelves is both's. */
  predicate Apart(pre: seq<Key>, post: seq<Key>, pre': seq<Key>, post': seq<Key>) {
    && Shelfless(pre) && Shelfless(post) && Shelfless(pre') && Shelfless(post')
    && (forall k :: k in pre ==> k !in pre' && k !in post')
    && (forall k :: k in pre' ==> k !in post)
  }

  lemma ShelvesAlone(ids: seq<nat>)
    ensures forall k :: k in ShelfKeys(ids) ==> k.ShelfAt?
  {
  }

  /** The first row shared is a shelf; failing one, the first that comes after. */
  lemma ShelvesFirst(pre: seq<Key>, ids: seq<nat>, post: seq<Key>, pre': seq<Key>, ids': seq<nat>, post': seq<Key>)
    requires Apart(pre, post, pre', post')
    ensures FirstShared(pre + ShelfKeys(ids) + post, pre' + ShelfKeys(ids') + post') ==
            if FirstShared(ShelfKeys(ids), ShelfKeys(ids')).Some? then FirstShared(ShelfKeys(ids), ShelfKeys(ids'))
            else FirstShared(post, post')
  {
    hide FirstShared, ShelfKeys;
    var d' := pre' + ShelfKeys(ids') + post';
    ShelvesAlone(ids);
    ShelvesAlone(ids');
    FirstOfParts(pre + ShelfKeys(ids), post, d');
    FirstOfParts(pre, ShelfKeys(ids), d');
    NoneShared(pre, d');
    FirstAgrees(ShelfKeys(ids), d', ShelfKeys(ids'));
    FirstAgrees(post, d', post');
  }

  /** Two requests that share nothing before their shelves, and begin alike after them: their shelves decide. */
  lemma ShelvesDecide(pre: seq<Key>, ids: seq<nat>, post: seq<Key>, pre': seq<Key>, ids': seq<nat>, post': seq<Key>)
    requires Apart(pre, post, pre', post') && FirstShared(post, post') == FirstShared(post', post)
    ensures var d, d' := pre + ShelfKeys(ids) + post, pre' + ShelfKeys(ids') + post';
      FirstShared(d, d') != FirstShared(d', d) <==> BeginApart(ids, ids')
  {
    hide FirstShared, ShelfKeys;
    ShelvesFirst(pre, ids, post, pre', ids', post');
    ShelvesFirst(pre', ids', post', pre, ids, post);
    ShelvesShared(ids, ids');
    ShelvesShared(ids', ids);
    SharedIfAny(ids, ids');
    SharedIfAny(ids', ids);
  }

  /** What the one locks before its shelves the other locks after: they cross if they share a shelf. */
  lemma Crossing(pre: seq<Key>, ids: seq<nat>, post: seq<Key>, pre': seq<Key>, ids': seq<nat>, post': seq<Key>,
      one: Key)
    requires Shelfless(pre) && Shelfless(post) && Shelfless(pre') && Shelfless(post')
    requires forall k :: k in pre ==> k !in pre' && k !in post'
    requires FirstShared(pre', post) == Some(one) && FirstShared(post, pre' + post') == Some(one)
    ensures var d, d' := pre + ShelfKeys(ids) + post, pre' + ShelfKeys(ids') + post';
      FirstShared(d, d') != FirstShared(d', d) <==> ShareAShelf(ids, ids')
  {
    hide FirstShared, ShelfKeys, ShareAShelf;
    var d, d' := pre + ShelfKeys(ids) + post, pre' + ShelfKeys(ids') + post';
    ShelvesAlone(ids);
    ShelvesAlone(ids');
    SharedIfAny(pre', post);
    FirstOfParts(pre', ShelfKeys(ids') + post', d);
    assert d' == pre' + (ShelfKeys(ids') + post');
    FirstAgrees(pre', d, post);
    FirstOfParts(pre + ShelfKeys(ids), post, d');
    FirstOfParts(pre, ShelfKeys(ids), d');
    NoneShared(pre, d');
    FirstAgrees(ShelfKeys(ids), d', ShelfKeys(ids'));
    FirstAgrees(post, d', pre' + post');
    ShelvesSharedIfAny(ids, ids');
  }

  lemma SameFirst(a: seq<Key>, b: seq<Key>)
    requires a != [] && b != [] && a[0] == b[0]
    ensures FirstShared(a, b) == FirstShared(b, a)
  {
  }

  // ---- Branches referred to as a request commits -----------------------------------------------

  function BranchKeys(ids: seq<nat>): seq<Key> {
    seq(|ids|, i requires 0 <= i < |ids| => BranchAt(ids[i]))
  }

  lemma InBranchKeys(ids: seq<nat>, k: Key)
    ensures k in BranchKeys(ids) <==> k.BranchAt? && k.branch in ids
  {
    if k.BranchAt? && k.branch in ids {
      var i :| 0 <= i < |ids| && ids[i] == k.branch;
      assert BranchKeys(ids)[i] == k;
    }
  }

  predicate NoBranches(c: ShopRecipe) {
    forall k :: k in InOrder(c) ==> !k.BranchAt?
  }

  lemma TriesItsKeys(c: ShopRecipe, db: Database, k: Key)
    requires k in Tries(ToRequest(c), db)
    ensures k in InOrder(c)
  {
    LocksOfRecipe(c, Reach(ToRequest(c), db));
  }

  lemma BranchesLast(d: seq<Key>, r: seq<Key>, d': seq<Key>, r': seq<Key>)
    requires forall k :: (k in d || k in d' ==> !k.BranchAt?) && (k in r || k in r' ==> k.BranchAt?)
    requires |r| <= 1 || |r'| <= 1
    ensures FirstShared(d + r, d' + r') != FirstShared(d' + r', d + r) <==> FirstShared(d, d') != FirstShared(d', d)
  {
    hide FirstShared;
    FirstOfParts(d, r, d' + r');
    FirstOfParts(d', r', d + r);
    FirstAgrees(d, d' + r', d');
    FirstAgrees(d', d + r, d);
    FirstAgrees(r, d' + r', r');
    FirstAgrees(r', d + r, r);
    SharedIfAny(d, d');
    SharedIfAny(d', d);
    if r != [] && r' != [] {
      OneShared(r, r', if |r| == 1 then r[0] else r'[0]);
    } else {
      NoneShared(r, r');
      NoneShared(r', r);
    }
  }

  /** The branches whose rows two requests refer to as they commit add no deadlock, and take none away:
      neither asks for one of them before. */
  lemma ReferencesAddNone(c: ShopRecipe, r: seq<nat>, d: ShopRecipe, s: seq<nat>, db: Database)
    requires NoBranches(c) && NoBranches(d) && (|r| <= 1 || |s| <= 1)
    ensures CanDeadlock([ToRequest(Referring(c, BranchKeys(r))), ToRequest(Referring(d, BranchKeys(s)))], db) <==>
            CanDeadlock([ToRequest(c), ToRequest(d)], db)
  {
    hide FirstShared, Tries, ToRequest, CanDeadlock, BranchKeys, InOrder;
    var m := ReferringTries(c, BranchKeys(r), db);
    var n := ReferringTries(d, BranchKeys(s), db);
    PairDeadlocksExactlyWhen(ToRequest(c), ToRequest(d), db);
    PairDeadlocksExactlyWhen(ToRequest(Referring(c, BranchKeys(r))), ToRequest(Referring(d, BranchKeys(s))), db);
    BranchesAreMany(r);
    BranchesAreMany(s);
    forall k ensures
        (k in Tries(ToRequest(c), db) || k in Tries(ToRequest(d), db) ==> !k.BranchAt?) &&
        (k in BranchKeys(r)[..m] || k in BranchKeys(s)[..n] ==> k.BranchAt?)
    {
      if k in Tries(ToRequest(c), db) {
        TriesItsKeys(c, db, k);
      }
      if k in Tries(ToRequest(d), db) {
        TriesItsKeys(d, db, k);
      }
      InBranchKeys(r, k);
      InBranchKeys(s, k);
    }
    BranchesLast(Tries(ToRequest(c), db), BranchKeys(r)[..m], Tries(ToRequest(d), db), BranchKeys(s)[..n]);
  }

  lemma BranchesAreMany(ids: seq<nat>)
    ensures |BranchKeys(ids)| == |ids|
  {
  }

  // ---- An exchange, in parts --------------------------------------------------------------------

  lemma ExchangeInParts(x: Exchange, db: Database, n: nat)
    requires |Involving(x, db)| < n <= |ExchangeKeysOn(x, db)|
    ensures |ExchangeKeysOn(x, db)| == 1 + |Involving(x, db)| + |KeysAfterShelves(x)|
    ensures ExchangeKeysOn(x, db)[..n] ==
        [ExchangeAt(x.token)] + ShelfKeys(Involving(x, db)) + KeysAfterShelves(x)[..n - |Involving(x, db)| - 1]
  {
    hide ShelfOrder, KeysAfterShelves;
    LengthIs(Involving(x, db));
  }

  /** What comes after an exchange's shelves: its order and its return, its sale's number and order, and
      its money. */
  lemma AfterShelves(x: Exchange, n: nat)
    requires n <= |KeysAfterShelves(x)|
    ensures |KeysAfterShelves(x)| > 4 && Shelfless(KeysAfterShelves(x)[..n])
    ensures KeysAfterShelves(x)[..4] ==
        [OrderAt(x.original), NumberOf(Returns), ReturnAt(x.returned), NumberOf(CounterOrders)]
    ensures n <= 3 ==> forall k :: k in KeysAfterShelves(x)[..n] ==>
        k == OrderAt(x.original) || k == NumberOf(Returns) || k == ReturnAt(x.returned)
    ensures n > 3 ==> KeysAfterShelves(x)[..n] == KeysAfterShelves(x)[..4] + KeysAfterShelves(x)[4..n]
    ensures forall k :: k in KeysAfterShelves(x)[..n] ==>
        (k.OrderAt? ==> k.order == x.original || k.order == x.sale.order) && !k.OrderClaim? && !k.ExchangeAt? &&
        (k.CouponAt? ==> x.sale.coupon == Some(k.coupon)) &&
        (k.NumberOf? ==> k.sequence.Returns? || k.sequence.CounterOrders?)
  {
    hide Counted;
  }

  // ---- An exchange and a change of status -------------------------------------------------------

  lemma AdvanceInParts(a: Advance, db: Database, m: nat) returns (coupon: seq<Key>)
    requires |StockOf(a, db)| < m <= |AdvanceKeys(a, db)|
    ensures AdvanceKeys(a, db)[..m] == [OrderAt(a.order)] + ShelfKeys(StockOf(a, db)) + coupon
    ensures |coupon| <= 1 && forall k :: k in coupon ==> k.CouponAt?
  {
    hide ShelfOrder;
    LengthIs(StockOf(a, db));
    coupon := CouponGivenBack(a)[..m - |StockOf(a, db)| - 1];
  }

  /** Where the order is another, nothing before the shelves is both's. */
  lemma OtherOrder(x: Exchange, n: nat, a: Advance, m: nat, db: Database)
    requires |Involving(x, db)| < n <= |ExchangeKeysOn(x, db)| && |StockOf(a, db)| < m <= |AdvanceKeys(a, db)|
    requires a.order != x.original && a.order != x.sale.order
    ensures var e, d := ExchangeKeysOn(x, db)[..n], AdvanceKeys(a, db)[..m];
      FirstShared(e, d) != FirstShared(d, e) <==> BeginApart(Involving(x, db), StockOf(a, db))
  {
    hide ExchangeKeysOn, AdvanceKeys, FirstShared, Involving, StockOf, CouponGivenBack, ShelfKeys, KeysAfterShelves;
    ExchangeInParts(x, db, n);
    var coupon := AdvanceInParts(a, db, m);
    var after := KeysAfterShelves(x)[..n - |Involving(x, db)| - 1];
    AfterShelves(x, n - |Involving(x, db)| - 1);
    OneShared(after, coupon, if coupon == [] then OrderAt(0) else coupon[0]);
    ShelvesDecide([ExchangeAt(x.token)], Involving(x, db), after, [OrderAt(a.order)], StockOf(a, db), coupon);
  }

  /** Where the order is the exchange's own, the change of status begins with it, and the exchange
      with a shelf, if they share one. */
  lemma OwnOrder(x: Exchange, n: nat, a: Advance, m: nat, db: Database)
    requires |Involving(x, db)| + 1 < n <= |ExchangeKeysOn(x, db)| && |StockOf(a, db)| < m <= |AdvanceKeys(a, db)|
    requires a.order == x.original
    ensures var e, d := ExchangeKeysOn(x, db)[..n], AdvanceKeys(a, db)[..m];
      FirstShared(e, d) != FirstShared(d, e) <==> ShareAShelf(Involving(x, db), StockOf(a, db))
  {
    hide ExchangeKeysOn, AdvanceKeys, Involving, StockOf, CouponGivenBack, ShelfKeys, KeysAfterShelves, ShareAShelf;
    ExchangeInParts(x, db, n);
    var coupon := AdvanceInParts(a, db, m);
    var after := KeysAfterShelves(x)[..n - |Involving(x, db)| - 1];
    AfterShelves(x, n - |Involving(x, db)| - 1);
    assert after[0] == KeysAfterShelves(x)[..4][0] == OrderAt(a.order);
    Crossing([ExchangeAt(x.token)], Involving(x, db), after, [OrderAt(a.order)], StockOf(a, db), coupon,
             OrderAt(a.order));
  }

  /** An exchange and a change of status can deadlock exactly when the exchange's key is a new one, the
      order may come to that status, and -- the order being the one the goods come back from -- its goods
      are on a shelf the exchange involves, or -- it being another -- of the shelves both lock they begin
      with different ones; whatever then becomes of either. The exchange locks its shelves before its
      order; everybody else, an order before its shelves. */
  lemma ExchangeAndAdvanceDeadlockExactlyWhen(x: Exchange, a: Advance, policy: Stock.Policy, db: Database)
    requires OrderAt(x.sale.order) !in db
    ensures CanDeadlock([ToRequest(ExchangeOn(x, policy, db)), ToRequest(AdvanceOn(a, policy, db))], db) <==>
      && ExchangeAt(x.token) !in db && MayAdvance(a, policy, db)
      && if a.order == x.original then ShareAShelf(Involving(x, db), StockOf(a, db))
         else BeginApart(Involving(x, db), StockOf(a, db))
  {
    hide ExchangeKeysOn, AdvanceKeys, FirstShared, Involving, StockOf, ShareAShelf, Tries, ToRequest, CanDeadlock,
         MayAdvance, ReachesItsSale, ExchangeOn, AdvanceOn, BeginApart;
    var n := ExchangeTries(x, policy, db);
    var m := AdvanceTries(a, policy, db);
    var e, d := ExchangeKeysOn(x, db)[..n], AdvanceKeys(a, db)[..m];
    PairDeadlocksExactlyWhen(ToRequest(ExchangeOn(x, policy, db)), ToRequest(AdvanceOn(a, policy, db)), db);
    ExchangeKeysBegin(x, db);
    if ExchangeAt(x.token) in db {
      NotAnOrders(a, db, x.token);
      NoneShared(e, d);
      NoneShared(d, e);
    } else if !MayAdvance(a, policy, db) {
      OneKey(a, db);
      OneShared(e, d, OrderAt(a.order));
    } else if a.order == x.original {
      OwnOrder(x, n, a, m, db);
    } else {
      NotTheSales(x, a, policy, db);
      OtherOrder(x, n, a, m, db);
    }
  }

  lemma NotAnOrders(a: Advance, db: Database, token: Token)
    ensures ExchangeAt(token) !in AdvanceKeys(a, db)
  {
    hide ShelfOrder;
  }

  lemma OneKey(a: Advance, db: Database)
    ensures AdvanceKeys(a, db)[..1] == [OrderAt(a.order)]
  {
  }

  lemma NotTheSales(x: Exchange, a: Advance, policy: Stock.Policy, db: Database)
    requires OrderAt(x.sale.order) !in db && MayAdvance(a, policy, db)
    ensures a.order != x.sale.order
  {
    assert Snapshot([OrderAt(a.order)], db)[OrderAt(a.order)] == Read(db, OrderAt(a.order));
  }

  // ---- An exchange and an order -------------------------------------------------------------------

  lemma PurchaseInParts(p: Purchase, db: Database, m: nat)
    requires |Opening(p)| + |Asking(p, db)| <= m <= |PurchaseKeysInOrder(p, db)|
    ensures m - |Opening(p)| - |Asking(p, db)| <= |PaymentKeys(p)|
    ensures PurchaseKeysInOrder(p, db)[..m] == Opening(p) + ShelfKeys(Asking(p, db)) +
        PaymentKeys(p)[..m - |Opening(p)| - |Asking(p, db)|]
  {
    hide Opening, ShelfOrder, PaymentKeys;
    LengthIs(Asking(p, db));
  }

  lemma OpeningOnly(p: Purchase, db: Database, m: nat)
    requires m <= |Opening(p)|
    ensures m <= |PurchaseKeysInOrder(p, db)| && PurchaseKeysInOrder(p, db)[..m] == Opening(p)[..m]
  {
    hide Opening, ShelfOrder, PaymentKeys;
  }

  lemma OpeningIs(p: Purchase)
    ensures |Opening(p)| > 0 && Opening(p)[0] == NumberKey(p.counter) && Shelfless(Opening(p))
    ensures forall k :: k in Opening(p) <==>
        k == NumberKey(p.counter) || k == OrderAt(p.order) || (k.OrderClaim? && p.token == Some(k.token))
  {
  }

  lemma PaymentIs(p: Purchase, n: nat)
    requires n <= |PaymentKeys(p)|
    ensures Shelfless(PaymentKeys(p)[..n])
    ensures forall k :: k in PaymentKeys(p)[..n] ==>
        k.CouponAt? || k.AccountAt?
    ensures forall k :: k in PaymentKeys(p)[..n] ==>
        (k.CouponAt? ==> p.coupon == Some(k.coupon)) && (k.AccountAt? ==> p.counter)
  {
    hide Counted;
  }

  /** The first row of one of these that the other has, where they have one in common at most. */
  lemma EndsBeginAlike(a: seq<Key>, b: seq<Key>, coupon: Option<nat>)
    requires forall k :: k in a && k in b ==> k.CouponAt? && coupon == Some(k.coupon)
    ensures FirstShared(a, b) == FirstShared(b, a)
  {
    hide FirstShared;
    OneShared(a, b, CouponAt(if coupon.Some? then coupon.value else 0));
  }

  /** A counter sale, and an exchange that comes to its sale's number: the sale begins with the number,
      the exchange with a shelf. */
  lemma NumberFirst(x: Exchange, n: nat, p: Purchase, m: nat, db: Database)
    requires p.counter && p.order != x.original
    requires |Involving(x, db)| + 5 <= n <= |ExchangeKeysOn(x, db)|
    requires |Opening(p)| + |Asking(p, db)| <= m <= |PurchaseKeysInOrder(p, db)|
    ensures var e, d := ExchangeKeysOn(x, db)[..n], PurchaseKeysInOrder(p, db)[..m];
      FirstShared(e, d) != FirstShared(d, e) <==> ShareAShelf(Involving(x, db), Asking(p, db))
  {
    hide ExchangeKeysOn, PurchaseKeysInOrder, Involving, Asking, ShelfKeys, ShareAShelf, Opening, PaymentKeys,
         KeysAfterShelves;
    ExchangeInParts(x, db, n);
    PurchaseInParts(p, db, m);
    var after, paid := KeysAfterShelves(x)[..n - |Involving(x, db)| - 1],
        PaymentKeys(p)[..m - |Opening(p)| - |Asking(p, db)|];
    AfterShelves(x, n - |Involving(x, db)| - 1);
    OpeningIs(p);
    PaymentIs(p, m - |Opening(p)| - |Asking(p, db)|);
    var number, three := NumberOf(CounterOrders), [OrderAt(x.original), NumberOf(Returns), ReturnAt(x.returned)];
    var rest := [number] + KeysAfterShelves(x)[4..n - |Involving(x, db)| - 1];
    assert after == three + rest;
    NoneShared(three, Opening(p) + paid);
    FirstOfParts(three, rest, Opening(p) + paid);
    assert number in Opening(p) + paid && number in after && Opening(p)[0] == number;
    Crossing([ExchangeAt(x.token)], Involving(x, db), after, Opening(p), Asking(p, db), paid, number);
  }

  /** Otherwise only shelves, and a coupon after them, are both's. */
  lemma NoNumber(x: Exchange, n: nat, p: Purchase, m: nat, db: Database)
    requires p.order != x.original && p.order != x.sale.order
    requires |Involving(x, db)| < n <= |ExchangeKeysOn(x, db)| && (p.counter ==> n < |Involving(x, db)| + 5)
    requires |Opening(p)| + |Asking(p, db)| <= m <= |PurchaseKeysInOrder(p, db)|
    ensures var e, d := ExchangeKeysOn(x, db)[..n], PurchaseKeysInOrder(p, db)[..m];
      FirstShared(e, d) != FirstShared(d, e) <==> BeginApart(Involving(x, db), Asking(p, db))
  {
    hide ExchangeKeysOn, PurchaseKeysInOrder, Involving, Asking, ShelfKeys, Opening, PaymentKeys, FirstShared,
         KeysAfterShelves, BeginApart;
    ExchangeInParts(x, db, n);
    PurchaseInParts(p, db, m);
    var after, paid := KeysAfterShelves(x)[..n - |Involving(x, db)| - 1],
        PaymentKeys(p)[..m - |Opening(p)| - |Asking(p, db)|];
    AfterShelves(x, n - |Involving(x, db)| - 1);
    OpeningIs(p);
    PaymentIs(p, m - |Opening(p)| - |Asking(p, db)|);
    EndsBeginAlike(after, paid, p.coupon);
    ShelvesDecide([ExchangeAt(x.token)], Involving(x, db), after, Opening(p), Asking(p, db), paid);
  }

  /** The order comes to no shelf: its number is all that can be both's. */
  lemma NoShelf(x: Exchange, n: nat, p: Purchase, m: nat, db: Database)
    requires p.order != x.original && p.order != x.sale.order && n <= |ExchangeKeysOn(x, db)| && m <= |Opening(p)|
    ensures m <= |PurchaseKeysInOrder(p, db)|
    ensures var e, d := ExchangeKeysOn(x, db)[..n], PurchaseKeysInOrder(p, db)[..m];
      FirstShared(e, d) == FirstShared(d, e)
  {
    hide ExchangeKeysOn, PurchaseKeysInOrder, Involving, Asking, Opening;
    OpeningOnly(p, db, m);
    OpeningIs(p);
    var e, d := ExchangeKeysOn(x, db)[..n], PurchaseKeysInOrder(p, db)[..m];
    forall k | k in e && k in d ensures k == NumberKey(p.counter) {
      assert k in Opening(p);
      InExchangeKeys(x, db, k);
    }
    OneShared(e, d, NumberKey(p.counter));
  }

  /** An exchange and an order can deadlock exactly when the exchange's key is new, the order is a new one
      with lines, and -- where it is a counter sale, and the exchange is not refused as a return -- they
      have an article in common, or else -- of the shelves both lock they begin with different ones. The
      exchange locks its shelves before its sale's number, so as not to deadlock with a sale; a sale takes
      its number before its shelves. */
  lemma ExchangeAndSaleDeadlockExactlyWhen(x: Exchange, p: Purchase, policy: Stock.Policy, db: Database)
    requires p.order != x.original && p.order != x.sale.order
    ensures CanDeadlock([ToRequest(ExchangeOn(x, policy, db)), ToRequest(PurchaseOn(p, policy, db))], db) <==>
      && ExchangeAt(x.token) !in db && ComesToItsShelves(p, db)
      && if p.counter && ReachesItsSale(x, policy, db) then ShareAShelf(Involving(x, db), Asking(p, db))
         else BeginApart(Involving(x, db), Asking(p, db))
  {
    hide ExchangeKeysOn, PurchaseKeysInOrder, FirstShared, Involving, Asking, ShareAShelf, Tries, ToRequest,
         CanDeadlock, ReachesItsSale, ComesToItsShelves, Opening, ExchangeOn, PurchaseOn, BeginApart;
    var n := ExchangeTries(x, policy, db);
    var m := PurchaseTries(p, policy, db);
    PairDeadlocksExactlyWhen(ToRequest(ExchangeOn(x, policy, db)), ToRequest(PurchaseOn(p, policy, db)), db);
    if !ComesToItsShelves(p, db) {
      NoShelf(x, n, p, m, db);
    } else if ExchangeAt(x.token) in db {
      OnlyItsKey(x, p, db);
      NoneShared(ExchangeKeysOn(x, db)[..1], PurchaseKeysInOrder(p, db)[..m]);
      NoneShared(PurchaseKeysInOrder(p, db)[..m], ExchangeKeysOn(x, db)[..1]);
    } else if p.counter && ReachesItsSale(x, policy, db) {
      NumberFirst(x, n, p, m, db);
    } else {
      NoNumber(x, n, p, m, db);
    }
  }

  lemma OnlyItsKey(x: Exchange, p: Purchase, db: Database)
    ensures |ExchangeKeysOn(x, db)| > 0 && ExchangeKeysOn(x, db)[..1] == [ExchangeAt(x.token)]
    ensures ExchangeAt(x.token) !in PurchaseKeysInOrder(p, db)
  {
    hide ExchangeKeysOn, PurchaseKeysInOrder;
    ExchangeKeysBegin(x, db);
    if ExchangeAt(x.token) in PurchaseKeysInOrder(p, db) {
      InPurchaseKeys(p, db, ExchangeAt(x.token));
    }
  }

  // ---- Two orders ---------------------------------------------------------------------------------

  /** They are of one sequence, under one key or of one id. */
  predicate MeetBefore(p: Purchase, q: Purchase) {
    p.counter == q.counter || (p.token.Some? && p.token == q.token) || p.order == q.order
  }

  /** Where an order locks these of its rows. */
  function OpeningRank(k: Key): int {
    if k.NumberOf? then 0 else if k.OrderClaim? then 1 else 2
  }

  lemma OpeningRanked(p: Purchase, i: nat, j: nat)
    requires i < j < |Opening(p)|
    ensures OpeningRank(Opening(p)[i]) < OpeningRank(Opening(p)[j])
  {
  }

  /** Rows both lock before their shelves both lock in the same order. */
  lemma OpeningsBeginAlike(p: Purchase, q: Purchase, d: seq<Key>, e: seq<Key>)
    requires d <= Opening(p) && e <= Opening(q)
    ensures FirstShared(d, e) == FirstShared(e, d)
  {
    hide Opening, OpeningRank;
    forall i, j | 0 <= i < j < |d| ensures OpeningRank(d[i]) < OpeningRank(d[j]) {
      OpeningRanked(p, i, j);
    }
    forall i, j | 0 <= i < j < |e| ensures OpeningRank(e[i]) < OpeningRank(e[j]) {
      OpeningRanked(q, i, j);
    }
    RankedBeginAlike(d, e, OpeningRank);
  }

  /** What it has locked of the rows before its shelves, and the rest. */
  function OpeningOf(p: Purchase, d: seq<Key>): seq<Key> {
    if |d| < |Opening(p)| then d else d[..|Opening(p)|]
  }

  lemma OpeningSplits(p: Purchase, db: Database, d: seq<Key>) returns (rest: seq<Key>)
    requires d <= PurchaseKeysInOrder(p, db)
    ensures d == OpeningOf(p, d) + rest && OpeningOf(p, d) <= Opening(p) && (|d| <= |Opening(p)| ==> rest == [])
    ensures |d| >= |Opening(p)| ==> OpeningOf(p, d) == Opening(p)
    ensures forall k :: k in rest ==> k.ShelfAt? || k.CouponAt? || k.AccountAt?
  {
    hide Opening, Asking, PaymentKeys;
    var n := if |d| < |Opening(p)| then |d| else |Opening(p)|;
    rest := d[n..];
    OpeningOnly(p, db, n);
    PaymentIs(p, |PaymentKeys(p)|);
    assert PaymentKeys(p)[..|PaymentKeys(p)|] == PaymentKeys(p);
    ShelvesAlone(Asking(p, db));
    var after := ShelfKeys(Asking(p, db)) + PaymentKeys(p);
    assert PurchaseKeysInOrder(p, db) == Opening(p) + after;
    assert rest <= after;
    forall k | k in rest ensures k in after {
    }
  }

  /** Meeting before their shelves, or one of them coming to none, they begin alike. */
  lemma MeetersBeginAlike(p: Purchase, q: Purchase, db: Database, d: seq<Key>, e: seq<Key>)
    requires d <= PurchaseKeysInOrder(p, db) && e <= PurchaseKeysInOrder(q, db)
    requires |d| <= |Opening(p)| || |e| <= |Opening(q)| || MeetBefore(p, q)
    ensures FirstShared(d, e) == FirstShared(e, d)
  {
    hide PurchaseKeysInOrder, Opening, FirstShared, OpeningOf;
    var a, b := OpeningOf(p, d), OpeningOf(q, e);
    var c := OpeningSplits(p, db, d);
    var f := OpeningSplits(q, db, e);
    OpeningIs(p);
    OpeningIs(q);
    OpeningsBeginAlike(p, q, a, b);
    forall k ensures (k in a ==> k in Opening(p)) && (k in b ==> k in Opening(q)) {
    }
    FirstOfParts(a, c, e);
    FirstOfParts(b, f, d);
    FirstAgrees(a, e, b);
    FirstAgrees(b, d, a);
    SharedIfAny(a, b);
    if FirstShared(a, b).None? {
      NotMet(p, q, a, b);
      NoneShared(c, e);
      NoneShared(f, d);
    }
  }

  /** With all before their shelves locked and nothing of it shared, they do not meet. */
  lemma NotMet(p: Purchase, q: Purchase, a: seq<Key>, b: seq<Key>)
    requires forall k :: k in a ==> k !in b
    ensures a == Opening(p) && b == Opening(q) ==> !MeetBefore(p, q)
  {
    hide Opening;
    OpeningIs(p);
    OpeningIs(q);
    if a == Opening(p) && b == Opening(q) && p.token.Some? {
      assert OrderClaim(p.token.value) in a;
    }
  }

  /** Two orders can deadlock exactly when one is online and the other a counter sale, neither meets the
      other's key or id, both are new ones with lines, and of the shelves both lock they begin with
      different ones -- as they can only where one is made by them. */
  lemma TwoOrdersDeadlockExactlyWhen(p: Purchase, q: Purchase, policy: Stock.Policy, db: Database)
    ensures CanDeadlock([ToRequest(PurchaseOn(p, policy, db)), ToRequest(PurchaseOn(q, policy, db))], db) <==>
      && !MeetBefore(p, q) && ComesToItsShelves(p, db) && ComesToItsShelves(q, db)
      && BeginApart(Asking(p, db), Asking(q, db))
  {
    hide PurchaseKeysInOrder, FirstShared, Asking, Tries, ToRequest, CanDeadlock, ComesToItsShelves, Opening,
         PurchaseOn, BeginApart, PaymentKeys, MeetBefore;
    var m := PurchaseTries(p, policy, db);
    var n := PurchaseTries(q, policy, db);
    PairDeadlocksExactlyWhen(ToRequest(PurchaseOn(p, policy, db)), ToRequest(PurchaseOn(q, policy, db)), db);
    if MeetBefore(p, q) || !ComesToItsShelves(p, db) || !ComesToItsShelves(q, db) {
      MeetersBeginAlike(p, q, db, PurchaseKeysInOrder(p, db)[..m], PurchaseKeysInOrder(q, db)[..n]);
    } else {
      NeverMeeting(p, m, q, n, db);
    }
  }

  lemma NeverMeeting(p: Purchase, m: nat, q: Purchase, n: nat, db: Database)
    requires !MeetBefore(p, q)
    requires |Opening(p)| + |Asking(p, db)| <= m <= |PurchaseKeysInOrder(p, db)|
    requires |Opening(q)| + |Asking(q, db)| <= n <= |PurchaseKeysInOrder(q, db)|
    ensures var d, e := PurchaseKeysInOrder(p, db)[..m], PurchaseKeysInOrder(q, db)[..n];
      FirstShared(d, e) != FirstShared(e, d) <==> BeginApart(Asking(p, db), Asking(q, db))
  {
    hide PurchaseKeysInOrder, FirstShared, Asking, Opening, BeginApart, PaymentKeys;
    PurchaseInParts(p, db, m);
    PurchaseInParts(q, db, n);
    var paid, paid' :=
        PaymentKeys(p)[..m - |Opening(p)| - |Asking(p, db)|], PaymentKeys(q)[..n - |Opening(q)| - |Asking(q, db)|];
    OpeningIs(p);
    OpeningIs(q);
    PaymentIs(p, m - |Opening(p)| - |Asking(p, db)|);
    PaymentIs(q, n - |Opening(q)| - |Asking(q, db)|);
    EndsBeginAlike(paid, paid', p.coupon);
    EndsBeginAlike(paid', paid, p.coupon);
    ShelvesDecide(Opening(p), Asking(p, db), paid, Opening(q), Asking(q, db), paid');
  }

  // ---- Two exchanges --------------------------------------------------------------------------------

  /** After their shelves they begin with the order both take goods back from, or with the returns' number. */
  lemma ReturnsBeginAlike(x: Exchange, n: nat, y: Exchange, m: nat)
    requires 0 < n <= |KeysAfterShelves(x)| && 0 < m <= |KeysAfterShelves(y)|
    requires x.original != y.sale.order && y.original != x.sale.order
    ensures var e, d := KeysAfterShelves(x)[..n], KeysAfterShelves(y)[..m]; FirstShared(e, d) == FirstShared(d, e)
  {
    hide KeysAfterShelves, FirstShared;
    var e, d := KeysAfterShelves(x)[..n], KeysAfterShelves(y)[..m];
    AfterShelves(x, n);
    AfterShelves(y, m);
    assert e[0] == KeysAfterShelves(x)[..4][0] && d[0] == KeysAfterShelves(y)[..4][0];
    if x.original == y.original {
      SameFirst(e, d);
    } else if n == 1 || m == 1 {
      NoneShared(e, d);
      NoneShared(d, e);
    } else {
      assert e[1] == KeysAfterShelves(x)[..4][1] && d[1] == KeysAfterShelves(y)[..4][1];
      assert e == [e[0]] + e[1..] && d == [d[0]] + d[1..];
      FirstOfParts([e[0]], e[1..], d);
      FirstOfParts([d[0]], d[1..], e);
      NoneShared([e[0]], d);
      NoneShared([d[0]], e);
      HeadShared(e[1..], d);
      HeadShared(d[1..], e);
    }
  }

  lemma HeadShared(a: seq<Key>, b: seq<Key>)
    requires a != [] && a[0] in b
    ensures FirstShared(a, b) == Some(a[0])
  {
  }

  /** Two exchanges, of orders the other is not making, can deadlock exactly when their keys are new and
      different, and of the shelves both lock they begin with different ones. */
  lemma TwoExchangesDeadlockExactlyWhen(x: Exchange, y: Exchange, policy: Stock.Policy, db: Database)
    requires x.original != y.sale.order && y.original != x.sale.order
    ensures CanDeadlock([ToRequest(ExchangeOn(x, policy, db)), ToRequest(ExchangeOn(y, policy, db))], db) <==>
      && x.token != y.token && ExchangeAt(x.token) !in db && ExchangeAt(y.token) !in db
      && BeginApart(Involving(x, db), Involving(y, db))
  {
    hide ExchangeKeysOn, FirstShared, Involving, Tries, ToRequest, CanDeadlock, ReachesItsSale, ExchangeOn, BeginApart,
         KeysAfterShelves;
    var n := ExchangeTries(x, policy, db);
    var m := ExchangeTries(y, policy, db);
    var e, d := ExchangeKeysOn(x, db)[..n], ExchangeKeysOn(y, db)[..m];
    PairDeadlocksExactlyWhen(ToRequest(ExchangeOn(x, policy, db)), ToRequest(ExchangeOn(y, policy, db)), db);
    ExchangeKeysBegin(x, db);
    ExchangeKeysBegin(y, db);
    if x.token == y.token {
      assert e[0] == ExchangeKeysOn(x, db)[..1][0] && d[0] == ExchangeKeysOn(y, db)[..1][0];
      SameFirst(e, d);
    } else if ExchangeAt(x.token) in db || ExchangeAt(y.token) in db {
      KeyElsewhere(x, y, db);
      NoneShared(e, d);
      NoneShared(d, e);
    } else {
      BothExchange(x, n, y, m, db);
    }
  }

  lemma KeyElsewhere(x: Exchange, y: Exchange, db: Database)
    requires x.token != y.token
    ensures ExchangeAt(x.token) !in ExchangeKeysOn(y, db) && ExchangeAt(y.token) !in ExchangeKeysOn(x, db)
  {
    hide ExchangeKeysOn;
    if ExchangeAt(x.token) in ExchangeKeysOn(y, db) {
      InExchangeKeys(y, db, ExchangeAt(x.token));
    }
    if ExchangeAt(y.token) in ExchangeKeysOn(x, db) {
      InExchangeKeys(x, db, ExchangeAt(y.token));
    }
  }

  lemma BothExchange(x: Exchange, n: nat, y: Exchange, m: nat, db: Database)
    requires x.original != y.sale.order && y.original != x.sale.order && x.token != y.token
    requires |Involving(x, db)| + 1 < n <= |ExchangeKeysOn(x, db)|
    requires |Involving(y, db)| + 1 < m <= |ExchangeKeysOn(y, db)|
    ensures var e, d := ExchangeKeysOn(x, db)[..n], ExchangeKeysOn(y, db)[..m];
      FirstShared(e, d) != FirstShared(d, e) <==> BeginApart(Involving(x, db), Involving(y, db))
  {
    hide ExchangeKeysOn, FirstShared, Involving, BeginApart, KeysAfterShelves, ShelfKeys;
    ExchangeInParts(x, db, n);
    ExchangeInParts(y, db, m);
    AfterShelves(x, n - |Involving(x, db)| - 1);
    AfterShelves(y, m - |Involving(y, db)| - 1);
    ReturnsBeginAlike(x, n - |Involving(x, db)| - 1, y, m - |Involving(y, db)| - 1);
    ShelvesDecide([ExchangeAt(x.token)], Involving(x, db), KeysAfterShelves(x)[..n - |Involving(x, db)| - 1],
                  [ExchangeAt(y.token)], Involving(y, db), KeysAfterShelves(y)[..m - |Involving(y, db)| - 1]);
  }

  // ---- A transfer of stock and an order -------------------------------------------------------------

  lemma ShipmentOpeningIs(t: Shipment)
    ensures Shelfless(ShipmentOpening(t))
    ensures forall k :: k in ShipmentOpening(t) ==> k == NumberOf(StockTransfers) || k.StockTransferClaim?
  {
  }

  lemma NoTransfers(p: Purchase)
    ensures forall k :: k in Opening(p) || k in PaymentKeys(p) ==>
        k != NumberOf(StockTransfers) && !k.StockTransferClaim?
  {
    hide Counted;
  }

  /** A transfer of stock and an order can deadlock exactly when the order is a new one with lines, and of
      the shelves both lock they begin with different ones: the transfer asks for all it would move to and
      fro if it would be made, and if not for those it sends from. */
  lemma ShipmentAndSaleDeadlockExactlyWhen(t: Shipment, p: Purchase, policy: Stock.Policy, db: Database)
    ensures CanDeadlock([ToRequest(ShipmentOn(t, policy, db)), ToRequest(PurchaseOn(p, policy, db))], db) <==>
            ComesToItsShelves(p, db) && BeginApart(ShipmentAsks(t, policy, db), Asking(p, db))
  {
    hide PurchaseKeysInOrder, FirstShared, ShipmentAsks, Asking, ShelfKeys, Tries, ToRequest, CanDeadlock,
         ComesToItsShelves, Opening, ShipmentOn, PurchaseOn, ShipmentOpening, BeginApart, PaymentKeys;
    var pre := ShipmentTries(t, policy, db);
    var m := PurchaseTries(p, policy, db);
    var ids := ShipmentAsks(t, policy, db);
    PairDeadlocksExactlyWhen(ToRequest(ShipmentOn(t, policy, db)), ToRequest(PurchaseOn(p, policy, db)), db);
    ShipmentOpeningIs(t);
    OpeningIs(p);
    NoTransfers(p);
    if ComesToItsShelves(p, db) {
      PurchaseInParts(p, db, m);
      var paid := PaymentKeys(p)[..m - |Opening(p)| - |Asking(p, db)|];
      PaymentIs(p, m - |Opening(p)| - |Asking(p, db)|);
      NoneShared([], paid);
      NoneShared(paid, []);
      ShelvesDecide(pre, ids, [], Opening(p), Asking(p, db), paid);
      assert pre + ShelfKeys(ids) + [] == pre + ShelfKeys(ids);
    } else {
      OpeningOnly(p, db, m);
      ShelvesAlone(ids);
      forall k | k in PurchaseKeysInOrder(p, db)[..m] ensures k !in pre + ShelfKeys(ids) {
        assert k in Opening(p) && (k in pre ==> k in ShipmentOpening(t));
      }
      NoneShared(pre + ShelfKeys(ids), PurchaseKeysInOrder(p, db)[..m]);
      NoneShared(PurchaseKeysInOrder(p, db)[..m], pre + ShelfKeys(ids));
    }
  }

  // ---- A transfer of money and a sale ---------------------------------------------------------------

  /** The accounts a sale is paid into, in the order of its tenders. */
  function PaidInto(p: Purchase): seq<nat> {
    seq(|Tenders(p)|, i requires 0 <= i < |Tenders(p)| => Tenders(p)[i].account)
  }

  /** A transfer's accounts, lowest id first. */
  function BothIds(t: Transfer): seq<nat> {
    if t.source < t.target then [t.source, t.target] else [t.target, t.source]
  }

  /** It is between two accounts, of an amount, under a new key. */
  predicate ComesToItsAccounts(t: Transfer, db: Database) {
    TransferFault(t).None? && (t.token.Some? ==> AccountTransferClaim(t.token.value) !in db)
  }

  lemma TransferReaches(t: Transfer, db: Database)
    requires ComesToItsAccounts(t, db)
    ensures Reach(ToRequest(TransferRecipe(t)), db) > Looks(TransferRecipe(t)) + 1
  {
    hide TransferObjection;
    var c := TransferRecipe(t);
    var r := ToRequest(c);
    forall i | 1 <= i <= Looks(c) + 1 ensures GoesOn(r, i, db) {
      GateIsSilent(c, i, db);
    }
    ReachedExactlyWhen(r, Looks(c) + 1, db);
  }

  /** It asks for both its accounts, or for nothing. */
  lemma TransferTries(t: Transfer, db: Database) returns (rest: seq<Key>)
    ensures Tries(ToRequest(TransferRecipe(t)), db) ==
            (if ComesToItsAccounts(t, db) then AccountKeys(BothIds(t)) else []) + rest
    ensures forall k :: k in rest ==> k == NumberOf(AccountTransfers) || k.AccountTransferClaim?
  {
    hide TransferObjection, Tries, ToRequest, Reach;
    var c := TransferRecipe(t);
    if ComesToItsAccounts(t, db) {
      TransferReaches(t, db);
      rest := Begun(t, db);
    } else {
      StopsAtOnce(c, db);
      rest := [];
    }
  }

  lemma Begun(t: Transfer, db: Database) returns (rest: seq<Key>)
    requires TransferFault(t).None? && Reach(ToRequest(TransferRecipe(t)), db) > Looks(TransferRecipe(t)) + 1
    ensures Tries(ToRequest(TransferRecipe(t)), db) == AccountKeys(BothIds(t)) + rest
    ensures forall k :: k in rest ==> k == NumberOf(AccountTransfers) || k.AccountTransferClaim?
  {
    hide TransferObjection, Reach;
    var c := TransferRecipe(t);
    var n := Reach(ToRequest(c), db);
    LocksOfRecipe(c, n);
    rest := InOrder(c)[2..LockCount(c, n)];
    assert AccountKeys(BothIds(t)) == BothAccounts(t);
    assert InOrder(c)[..2] == BothAccounts(t);
  }

  /** What a sale locks before its accounts. */
  function BeforeItsAccounts(p: Purchase, db: Database): seq<Key> {
    Opening(p) + ShelfKeys(Asking(p, db)) + CouponKeys(p.coupon)
  }

  lemma AccountsLast(p: Purchase, db: Database)
    ensures PurchaseKeysInOrder(p, db) == BeforeItsAccounts(p, db) + AccountKeys(PaidInto(p))
    ensures forall k :: k in BeforeItsAccounts(p, db) ==>
        !k.AccountAt? && k != NumberOf(AccountTransfers) && !k.AccountTransferClaim?
    ensures forall k :: k in AccountKeys(PaidInto(p)) ==> k.AccountAt?
  {
    hide ShelfOrder, Tenders;
    assert TenderKeys(Tenders(p)) == AccountKeys(PaidInto(p));
  }

  lemma AccountsDecide(p: Purchase, db: Database, ids: seq<nat>, rest: seq<Key>)
    requires forall k :: k in rest ==> k == NumberOf(AccountTransfers) || k.AccountTransferClaim?
    ensures FirstShared(PurchaseKeysInOrder(p, db), AccountKeys(ids) + rest) ==
        FirstShared(AccountKeys(PaidInto(p)), AccountKeys(ids))
    ensures FirstShared(AccountKeys(ids) + rest, PurchaseKeysInOrder(p, db)) ==
        FirstShared(AccountKeys(ids), AccountKeys(PaidInto(p)))
  {
    hide PurchaseKeysInOrder, BeforeItsAccounts, PaidInto, FirstShared;
    AccountsLast(p, db);
    var before, paid, both, d :=
        BeforeItsAccounts(p, db), AccountKeys(PaidInto(p)), AccountKeys(ids), PurchaseKeysInOrder(p, db);
    FirstOfParts(before, paid, both + rest);
    NoneShared(before, both + rest);
    FirstAgrees(paid, both + rest, both);
    FirstOfParts(both, rest, d);
    NoneShared(rest, d);
    FirstAgrees(both, d, paid);
  }

  /** An order that would be placed and a transfer of money can deadlock exactly when the transfer is
      under a new key and nothing is wrong with it, and of the accounts they both lock the first the
      order is paid into is not the lowest. */
  lemma SaleAndTransferDeadlockExactlyWhen(p: Purchase, t: Transfer, policy: Stock.Policy, db: Database)
    requires WouldGo(PurchaseRecipe(p, policy), db)
    ensures CanDeadlock([ToRequest(PurchaseOn(p, policy, db)), ToRequest(TransferRecipe(t))], db) <==>
      ComesToItsAccounts(t, db) && BeginApart(PaidInto(p), BothIds(t))
  {
    hide PurchaseKeysInOrder, FirstShared, PaidInto, BothIds, AccountKeys, Tries, ToRequest, CanDeadlock, WouldGo,
         PurchaseOn, PurchaseRecipe, TransferRecipe, InOrder, WellMade, ChecksHold;
    PurchaseOnIsMade(p, policy, db);
    PurchaseOnGoes(p, policy, db);
    TriesAll(PurchaseOn(p, policy, db), IsClaim, db);
    PurchaseInOrder(p, policy, db);
    var rest := TransferTries(t, db);
    PairDeadlocksExactlyWhen(ToRequest(PurchaseOn(p, policy, db)), ToRequest(TransferRecipe(t)), db);
    var ids := if ComesToItsAccounts(t, db) then BothIds(t) else [];
    NoAccounts();
    AccountsDecide(p, db, ids, rest);
    AccountsShared(PaidInto(p), ids);
    AccountsShared(ids, PaidInto(p));
    NothingShared(PaidInto(p));
  }

  lemma PurchaseOnGoes(p: Purchase, policy: Stock.Policy, db: Database)
    ensures WouldGo(PurchaseOn(p, policy, db), db) <==> WouldGo(PurchaseRecipe(p, policy), db)
  {
    hide PurchaseRecipe, WouldGo, Shelving;
    forall k | k in PurchaseRecipe(p, policy).after ensures k in PurchaseOn(p, policy, db).after {
      PurchaseOnHas(p, policy, db, k);
    }
    GoesAlike(PurchaseRecipe(p, policy), PurchaseOn(p, policy, db).after, db);
  }

  lemma NoAccounts()
    ensures AccountKeys([]) == []
  {
  }

  lemma NothingShared(ids: seq<nat>)
    ensures FirstShared(ids, []) == FirstShared([], ids) == None
  {
    var i := FirstSharedIs(ids, []);
  }

  // ---- A count and whoever moves stock ----------------------------------------------------------------

  /** It locks no sheet and no branch of its own. */
  predicate NoSheets(c: ShopRecipe) {
    forall k :: k in InOrder(c) ==> !k.CountAt? && !k.BranchAt?
  }

  predicate ShelfOfBoth(a: Counts.Applying, c: ShopRecipe, db: Database) {
    exists id :: id in Counting(a, db) && ShelfAt(id) in InOrder(c)
  }

  lemma MoverTries(c: ShopRecipe, branches: seq<nat>, db: Database)
    requires WellMade(c, IsClaim) && ChecksHold(c) && WouldGo(c, db)
    ensures Tries(ToRequest(Referring(c, BranchKeys(branches))), db) == InOrder(c) + BranchKeys(branches)
  {
    hide InOrder, ChecksHold, WouldGo, Tries, ToRequest;
    var refs := BranchKeys(branches);
    forall k | k in c.after + refs ensures !IsClaim(k) {
      if k in c.after {
        assert k in Keys(c);
      } else {
        InBranchKeys(branches, k);
      }
    }
    LockingDoesTheSame(c, c.after + refs, IsClaim);
    GoesAlike(c, c.after + refs, db);
    TriesAll(Referring(c, refs), IsClaim, db);
    ReferringInOrder(c, refs);
  }

  lemma SheetKeysShared(a: Counts.Applying, d: seq<Key>)
    requires forall k :: k in d ==> !k.CountAt?
    ensures FirstShared(Counts.SheetKeys(a), d) == if BranchAt(a.branch) in d then Some(BranchAt(a.branch)) else None
  {
    hide FirstShared;
    assert Counts.SheetKeys(a) == [CountAt(a.count)] + [BranchAt(a.branch)];
    FirstOfParts([CountAt(a.count)], [BranchAt(a.branch)], d);
    NoneShared([CountAt(a.count)], d);
    OneShared([BranchAt(a.branch)], d, BranchAt(a.branch));
  }

  /** The count begins with the branch, if the other refers to it, and the other with a shelf. */
  lemma CountCrosses(a: Counts.Applying, d: seq<Key>, refs: seq<Key>, db: Database)
    requires forall k :: (k in d ==> !k.CountAt? && !k.BranchAt?) && (k in refs ==> k.BranchAt?)
    ensures var e, shelves, branch := CountKeys(a, db), ShelfKeys(Counting(a, db)), BranchAt(a.branch);
      && FirstShared(e, d + refs) == (if branch in refs then Some(branch) else FirstShared(shelves, d))
      && FirstShared(d + refs, e) ==
           if FirstShared(d, shelves).Some? then FirstShared(d, shelves)
           else if branch in refs then Some(branch) else None
  {
    hide FirstShared, Counting, ShelfKeys, Counts.SheetKeys;
    var e, shelves, branch := CountKeys(a, db), ShelfKeys(Counting(a, db)), BranchAt(a.branch);
    ShelvesAlone(Counting(a, db));
    SheetKeysAre(a);
    FirstOfParts(Counts.SheetKeys(a), shelves, d + refs);
    SheetKeysShared(a, d + refs);
    FirstAgrees(shelves, d + refs, d);
    FirstOfParts(d, refs, e);
    FirstAgrees(d, e, shelves);
    FirstAgrees(refs, e, [branch]);
    OneShared(refs, [branch], branch);
  }

  lemma SheetKeysAre(a: Counts.Applying)
    ensures forall k :: k in Counts.SheetKeys(a) <==> k == CountAt(a.count) || k == BranchAt(a.branch)
  {
  }

  /** A count and any request that would be made, and that refers to these branches as it commits, can
      deadlock exactly when the sheet opens its shelves and -- the sheet's branch being one of those --
      they have a shelf in common, or else -- of the shelves both lock they begin with different ones. The
      count locks its branch's row before its shelves; an entry in a shelf's ledger refers to the branch,
      whose row is locked for it as its request commits. */
  lemma CountAndMoverDeadlockExactlyWhen(
      a: Counts.Applying, c: ShopRecipe, branches: seq<nat>, db: Database)
    requires WellMade(c, IsClaim) && ChecksHold(c) && WouldGo(c, db) && NoSheets(c)
    ensures CanDeadlock([ToRequest(Counts.CountOn(a, db)), ToRequest(Referring(c, BranchKeys(branches)))], db) <==>
      && OpensItsShelves(a, db)
      && if a.branch in branches then ShelfOfBoth(a, c, db)
         else FirstShared(ShelfKeys(Counting(a, db)), InOrder(c)) != FirstShared(InOrder(c), ShelfKeys(Counting(a, db)))
  {
    hide FirstShared, Tries, ToRequest, CanDeadlock, InOrder, Counting, ShelfKeys, Counts.CountOn, WouldGo, WellMade,
         ChecksHold, OpensItsShelves, BranchKeys, ShelfOfBoth;
    var refs, d, shelves := BranchKeys(branches), InOrder(c), ShelfKeys(Counting(a, db));
    var n := CountTries(a, db);
    MoverTries(c, branches, db);
    PairDeadlocksExactlyWhen(ToRequest(Counts.CountOn(a, db)), ToRequest(Referring(c, refs)), db);
    forall k ensures k in refs <==> k.BranchAt? && k.branch in branches {
      InBranchKeys(branches, k);
    }
    if OpensItsShelves(a, db) {
      assert CountKeys(a, db)[..n] == CountKeys(a, db);
      CountCrosses(a, d, refs, db);
      SharedIfAny(d, shelves);
      SharedIfAny(shelves, d);
      SharesAShelf(a, c, db);
    } else {
      SheetAlone(a, db, n);
      forall k | k in CountKeys(a, db)[..n] && k in d + refs ensures k == BranchAt(a.branch) {
      }
      OneShared(CountKeys(a, db)[..n], d + refs, BranchAt(a.branch));
    }
  }

  lemma SharesAShelf(a: Counts.Applying, c: ShopRecipe, db: Database)
    ensures ShelfOfBoth(a, c, db) <==> exists k :: k in InOrder(c) && k in ShelfKeys(Counting(a, db))
  {
    hide InOrder, ShelfKeys, Counting;
    if ShelfOfBoth(a, c, db) {
      var id :| id in Counting(a, db) && ShelfAt(id) in InOrder(c);
      InShelfKeys(Counting(a, db), ShelfAt(id));
    }
    if k :| k in InOrder(c) && k in ShelfKeys(Counting(a, db)) {
      InShelfKeys(Counting(a, db), k);
    }
  }

  lemma SheetAlone(a: Counts.Applying, db: Database, n: nat)
    requires n <= 2 && n <= |CountKeys(a, db)|
    ensures forall k :: k in CountKeys(a, db)[..n] ==> k == CountAt(a.count) || k == BranchAt(a.branch)
  {
    hide Counting, ShelfKeys;
    assert CountKeys(a, db)[..n] == Counts.SheetKeys(a)[..n];
  }
}
