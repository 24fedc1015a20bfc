/** Checkout and the counter, statement by statement: one transaction that takes a number, the stock,
    the coupon's use and the money, and leaves nothing behind if any of them is refused. */
module OrderService {
  import opened Wrappers
  import opened RowLocks
  import opened Recipes
  import opened Shop
  import opened CashBook
  import opened StockRoom
  import opened Orders
  import opened Backend
  import opened CashService
  import opened StockService
  import Stock = StockLedger
  import Money = MoneyLedger
  import Coupons = CouponBook

  // ---- Coupons ------------------------------------------------------------------------

  function CouponVerdict(coupon: Option<Coupons.Coupon>, order: nat, customer: Option<nat>): Option<Refusal> {
    if coupon.None? then Some(NoSuchCoupon)
    else match Coupons.Redeem(coupon.value, order, customer)
      case Counted(_) => None
      case Exhausted => Some(CouponExhausted)
      case UsedByCustomer => Some(CouponUsed)
  }

  class CouponsService {
    const db: Store

    constructor (db: Store)
      ensures this.db == db
    {
      this.db := db;
    }

    /** The customer's uses on other orders, counted again under the coupon's lock. */
    method UsesElsewhere(redemptions: seq<Coupons.Redemption>, customer: nat, order: nat) returns (used: nat)
      ensures used == Coupons.LiveElsewhere(redemptions, customer, order)
    {
      used := 0;
      for i := 0 to |redemptions|
        invariant used == Coupons.LiveElsewhere(redemptions[..i], customer, order)
      {
        assert redemptions[..i + 1][..i] == redemptions[..i];
        if !redemptions[i].released && redemptions[i].customer == Some(customer) && redemptions[i].order != order {
          used := used + 1;
        }
      }
      assert redemptions[..|redemptions|] == redemptions;
    }

    /** The use counted under the coupon's row lock, both limits asked again. */
    method Redeem(id: nat, order: nat, customer: Option<nat>) returns (why: Option<Refusal>)
      requires db.locked != []
      modifies db`rows, db`locked
      ensures db.locked == Noted(old(db.locked), CouponAt(id))
      ensures why == CouponVerdict(CouponNow(old(db.rows), id), order, customer)
      ensures db.rows == if why.Some? then old(db.rows)
                         else old(db.rows)[CouponAt(id) :=
                             ACoupon(Coupons.Redeem(CouponNow(old(db.rows), id).value, order, customer).coupon)]
    {
      var locked := db.Lock(CouponAt(id));
      var row := CouponNow(db.rows, id);
      if row.None? { return Some(NoSuchCoupon); }
      var coupon := row.value;
      if coupon.usageLimit.Some? && coupon.usedCount >= coupon.usageLimit.value { return Some(CouponExhausted); }
      if coupon.perCustomer.Some? && coupon.perCustomer.value > 0 && customer.Some? {
        var used := UsesElsewhere(coupon.redemptions, customer.value, order);
        if used >= coupon.perCustomer.value { return Some(CouponUsed); }
      }
      var created := true;
      for i := 0 to |coupon.redemptions|
        invariant created <==> forall j :: 0 <= j < i ==> coupon.redemptions[j].order != order
      {
        if coupon.redemptions[i].order == order {
          created := false;
        }
      }
      if created {
        coupon := coupon.(usedCount := coupon.usedCount + 1,
                          redemptions := coupon.redemptions + [Coupons.Redemption(order, customer, false)]);
      }
      db.rows := db.rows[CouponAt(id) := ACoupon(coupon)];
      why := None;
    }

    /** The order's live uses given back, one by one, the count never taken below nothing. */
    method GiveBack(coupon: Coupons.Coupon, order: nat) returns (after: Coupons.Coupon)
      ensures after == Coupons.Release(coupon, order)
    {
      var before := coupon.redemptions;
      var used, redemptions := coupon.usedCount, [];
      for i := 0 to |before|
        invariant redemptions == Coupons.Without(before[..i], order)
        invariant used == Coupons.Less(coupon.usedCount, Coupons.LiveOf(before[..i], order))
      {
        Coupons.ReleaseNext(before, i, order);
        if before[i].order == order && !before[i].released {
          used := if used - 1 > 0 then used - 1 else 0;
          redemptions := redemptions + [before[i].(released := true)];
        } else {
          redemptions := redemptions + [before[i]];
        }
      }
      assert before[..|before|] == before;
      after := coupon.(usedCount := used, redemptions := redemptions);
    }

    method Release(id: nat, order: nat)
      requires db.locked != []
      modifies db`rows, db`locked
      ensures db.locked == Noted(old(db.locked), CouponAt(id))
      ensures db.rows == if CouponNow(old(db.rows), id).None? then old(db.rows)
                         else old(db.rows)[CouponAt(id) :=
                             ACoupon(Coupons.Release(CouponNow(old(db.rows), id).value, order))]
    {
      var locked := db.Lock(CouponAt(id));
      var row := CouponNow(db.rows, id);
      if row.None? { return; }
      var coupon := GiveBack(row.value, order);
      db.rows := db.rows[CouponAt(id) := ACoupon(coupon)];
    }
  }

  // ---- Money taken --------------------------------------------------------------------

  /** Those of the accounts that exist. */
  function HeldAccounts(db: Database, ids: set<nat>): map<nat, Money.Account> {
    map id | id in ids && AccountNow(db, id).Some? :: AccountNow(db, id).value
  }

  /** The first tender, in turn, whose account will not take it. */
  function TenderRefused(db: Database, tenders: seq<Tender>): Option<Refusal> {
    if tenders == [] then None
    else
      var why := Objection(AccountNow(db, tenders[0].account), tenders[0].amount);
      if why.Some? then why else TenderRefused(db, tenders[1..])
  }

  lemma {:induction false} TenderRefusedAsRead(tenders: seq<Tender>, values: Values, db: Database)
    requires forall i :: 0 <= i < |tenders| ==>
               AccountAt(tenders[i].account) in values &&
                   AccountOf(values, tenders[i].account) == AccountNow(db, tenders[i].account)
    ensures TenderObjection(tenders, values) == TenderRefused(db, tenders)
  {
    hide Objection;
    if tenders != [] {
      assert forall i :: 0 <= i < |tenders[1..]| ==> tenders[1..][i] == tenders[i + 1];
      TenderRefusedAsRead(tenders[1..], values, db);
    }
  }

  /** The accounts differ from those at the start in their postings alone. */
  ghost predicate Posting(db: Database, start: Database, accounts: map<nat, Money.Account>) {
    && db == start + AccountRows(accounts)
    && forall id :: id in accounts ==>
        AccountNow(start, id).Some? && AccountNow(start, id).value.active == accounts[id].active
  }

  lemma PostedAccount(start: Database, accounts: map<nat, Money.Account>, id: nat)
    ensures AccountNow(start + AccountRows(accounts), id) == if id in accounts then Some(accounts[id])
        else AccountNow(start, id)
  {
  }

  lemma PostingStarts(start: Database, ids: set<nat>)
    ensures Posting(start, start, HeldAccounts(start, ids))
  {
    var rows := AccountRows(HeldAccounts(start, ids));
    forall k | k in rows ensures Read(start, k) == Some(rows[k]) {
      assert k == AccountAt(k.account);
    }
    SameRows(start, start + rows);
  }

  lemma PostingGoesOn(db: Database, start: Database, accounts: map<nat, Money.Account>, id: nat, account: Money.Account)
    requires Posting(db, start, accounts) && id in accounts && account.active == accounts[id].active
    ensures Posting(db[AccountAt(id) := AnAccount(account)], start, accounts[id := account])
  {
    hide AccountRows, AccountNow;
    AccountRowsAgain(start, accounts, id, account);
  }

  lemma AccountRowsAgain(db: Database, accounts: map<nat, Money.Account>, id: nat, account: Money.Account)
    ensures (db + AccountRows(accounts))[AccountAt(id) := AnAccount(account)] ==
        db + AccountRows(accounts[id := account])
  {
    hide AccountRows, Read;
    var left, right := (db + AccountRows(accounts))[AccountAt(id) := AnAccount(account)],
        db + AccountRows(accounts[id := account]);
    forall k ensures Read(left, k) == Read(right, k) {
      AccountRowAgain(db, accounts, id, account, k);
    }
    SameRows(left, right);
  }

  lemma AccountRowAgain(db: Database, accounts: map<nat, Money.Account>, id: nat, account: Money.Account, k: Key)
    ensures Read((db + AccountRows(accounts))[AccountAt(id) := AnAccount(account)], k) ==
            Read(db + AccountRows(accounts[id := account]), k)
  {
  }

  /** An account that stays open takes whatever is tendered to it. */
  lemma StillTakes(db: Database, start: Database, accounts: map<nat, Money.Account>, id: nat, amount: nat)
    requires Posting(db, start, accounts)
    ensures Objection(AccountNow(db, id), amount) == Objection(AccountNow(start, id), amount)
  {
    PostedAccount(start, accounts, id);
  }

  class TillService {
    const db: Store
    const cash: CashBookService

    constructor (db: Store, cash: CashBookService)
      requires cash.db == db
      ensures this.db == db && this.cash == cash
    {
      this.db, this.cash := db, cash;
    }

    /** One tender posted to its account, if it will take it. */
    method TakeOne(tender: Tender, order: nat) returns (why: Option<Refusal>)
      requires cash.db == db && db.locked != []
      modifies db`rows, db`locked
      ensures db.locked == Noted(old(db.locked), AccountAt(tender.account))
      ensures why == Objection(AccountNow(old(db.rows), tender.account), tender.amount)
      ensures why.None? ==>
        && AccountNow(old(db.rows), tender.account).Some?
        && db.rows == old(db.rows)[AccountAt(tender.account) := AnAccount(
             Money.Post(AccountNow(old(db.rows), tender.account).value, Money.SalePayment, tender.amount,
                 Money.OfSale(order)))]
    {
      hide Objection, Money.Post, Noted;
      var account := db.LockAccount(tender.account);
      why := cash.Check(account, tender.amount);
      if why.Some? { return; }
      ObjectionNone(account, tender.amount);
      db.Apply(tender.account, account.value, Money.SalePayment, tender.amount, Money.OfSale(order));
    }

    /** Each tender posted to its account in turn, until one is refused. */
    method TakeTenders(tenders: seq<Tender>, order: nat, ghost ids: set<nat>) returns (why: Option<Refusal>)
      requires cash.db == db && Payees(tenders) <= ids && db.locked != []
      modifies db`rows, db`locked
      ensures PartNoted(old(db.locked), db.locked, TenderKeys(tenders)) && db.locked != []
      ensures why.None? ==> db.locked == NotedAll(old(db.locked), TenderKeys(tenders))
      ensures why == TenderRefused(old(db.rows), tenders)
      ensures why.None? ==>
          db.rows == old(db.rows) + AccountRows(Banked(HeldAccounts(old(db.rows), ids), tenders, order))
    {
      hide Objection, Money.Post, AccountRows, Posting, Noted, NotedAll, PartNoted, TenderKeys, AccountNow;
      ghost var start, before, held := db.rows, db.locked, HeldAccounts(db.rows, ids);
      ghost var accounts := held;
      PostingStarts(start, ids);
      NoTendersNoted(before, tenders);
      for i := 0 to |tenders|
        invariant accounts.Keys == held.Keys && Payees(tenders[i..]) <= ids
        invariant Posting(db.rows, start, accounts)
        invariant Banked(accounts, tenders[i..], order) == Banked(held, tenders, order)
        invariant TenderRefused(start, tenders[i..]) == TenderRefused(start, tenders)
        invariant db.locked == NotedAll(before, TenderKeys(tenders[..i])) && db.locked != []
        invariant PartNoted(before, db.locked, TenderKeys(tenders))
      {
        assert tenders[i..][0] == tenders[i] && tenders[i..][1..] == tenders[i + 1..];
        var tender := tenders[i];
        TenderNoted(before, tenders, i);
        StillTakes(db.rows, start, accounts, tender.account, tender.amount);
        ghost var unpaid := db.rows;
        why := TakeOne(tender, order);
        if why.Some? { return; }
        HeldAmong(start, ids, tender.account);
        AccountIsHeld(unpaid, start, accounts, tender.account, tender.amount);
        ghost var after := Money.Post(accounts[tender.account], Money.SalePayment, tender.amount, Money.OfSale(order));
        PostKeepsOpen(accounts[tender.account], Money.SalePayment, tender.amount, Money.OfSale(order));
        PostingGoesOn(unpaid, start, accounts, tender.account, after);
        accounts := accounts[tender.account := after];
      }
      PostingRows(db.rows, start, accounts);
      assert tenders[..|tenders|] == tenders;
      why := None;
    }
  }

  lemma HeldAmong(db: Database, ids: set<nat>, id: nat)
    requires id in ids
    ensures id in HeldAccounts(db, ids) <==> AccountNow(db, id).Some?
  {
  }

  lemma NoTendersNoted(locked: seq<Key>, tenders: seq<Tender>)
    ensures NotedAll(locked, TenderKeys(tenders[..0])) == locked && PartNoted(locked, locked, TenderKeys(tenders))
  {
    PartIs(locked, TenderKeys(tenders[..0]), TenderKeys(tenders));
  }

  lemma TenderNoted(locked: seq<Key>, tenders: seq<Tender>, i: nat)
    requires i < |tenders|
    ensures NotedAll(locked, TenderKeys(tenders[..i + 1])) ==
            Noted(NotedAll(locked, TenderKeys(tenders[..i])), AccountAt(tenders[i].account))
    ensures PartNoted(locked, NotedAll(locked, TenderKeys(tenders[..i + 1])), TenderKeys(tenders))
  {
    assert TenderKeys(tenders[..i + 1]) == TenderKeys(tenders[..i]) + [AccountAt(tenders[i].account)];
    NotedNext(locked, TenderKeys(tenders[..i]), AccountAt(tenders[i].account));
    PartIs(locked, TenderKeys(tenders[..i + 1]), TenderKeys(tenders));
  }

  lemma PostingRows(db: Database, start: Database, accounts: map<nat, Money.Account>)
    requires Posting(db, start, accounts)
    ensures db == start + AccountRows(accounts)
  {
  }

  lemma AccountIsHeld(db: Database, start: Database, accounts: map<nat, Money.Account>, id: nat, amount: nat)
    requires Posting(db, start, accounts) && Objection(AccountNow(db, id), amount).None?
    requires AccountNow(start, id).Some? ==> id in accounts
    ensures id in accounts && AccountNow(db, id) == Some(accounts[id])
  {
    PostedAccount(start, accounts, id);
  }

  lemma PostKeepsOpen(account: Money.Account, kind: Money.Kind, delta: int, cause: Money.Cause)
    ensures Money.Post(account, kind, delta, cause).active == account.active
  {
  }

  // ---- An order placed ----------------------------------------------------------------

  function PurchaseKey(p: Purchase): Option<Key> {
    if p.token.Some? then Some(OrderClaim(p.token.value)) else None
  }

  lemma PurchaseReads(p: Purchase, policy: Stock.Policy, db: Database)
    ensures var values := Snapshot(Keys(PurchaseRecipe(p, policy)), db);
      && OrderAt(p.order) in values && values[OrderAt(p.order)] == Read(db, OrderAt(p.order))
      && HasShelves(values, Stock.Ids(p.lines))
      && (forall id :: id in Stock.Touched(p.lines) ==> ShelfOf(values, id) == ShelfNow(db, id))
      && (p.coupon.Some? ==>
          CouponAt(p.coupon.value) in values && CouponOf(values, p.coupon.value) == CouponNow(db, p.coupon.value))
      && HasAccounts(values, Tenders(p))
      && (forall i :: 0 <= i < |Tenders(p)| ==>
          AccountOf(values, Tenders(p)[i].account) == AccountNow(db, Tenders(p)[i].account))
      && Get(values, NumberKey(p.counter)) == Read(db, NumberKey(p.counter))
  {
    hide Stock.Ids, Stock.Touched, Tenders, Snapshot;
    var c := PurchaseRecipe(p, policy);
    var values := Snapshot(Keys(c), db);
    Stock.IdsAscend(p.lines);
    assert c.before[0] == NumberKey(p.counter) && c.after[0] == OrderAt(p.order);
    SnapshotHas(Keys(c), db, NumberKey(p.counter));
    SnapshotHas(Keys(c), db, OrderAt(p.order));
    forall id | id in Stock.Ids(p.lines) ensures ShelfAt(id) in values && ShelfOf(values, id) == ShelfNow(db, id) {
      ShelfKeyIn(Stock.Ids(p.lines), id);
      assert ShelfAt(id) in Keys(c);
      SnapshotHas(Keys(c), db, ShelfAt(id));
    }
    if p.coupon.Some? {
      assert CouponKeys(p.coupon)[0] == CouponAt(p.coupon.value);
      assert CouponAt(p.coupon.value) in Keys(c);
      SnapshotHas(Keys(c), db, CouponAt(p.coupon.value));
    }
    forall i | 0 <= i < |Tenders(p)|
      ensures AccountAt(Tenders(p)[i].account) in values
      ensures AccountOf(values, Tenders(p)[i].account) == AccountNow(db, Tenders(p)[i].account)
    {
      assert TenderKeys(Tenders(p))[i] == AccountAt(Tenders(p)[i].account);
      assert AccountAt(Tenders(p)[i].account) in Keys(c);
      SnapshotHas(Keys(c), db, AccountAt(Tenders(p)[i].account));
    }
  }

  /** What stops it once its key is free, in the order it is asked. */
  function PurchaseStops(p: Purchase, policy: Stock.Policy, db: Database): Option<Refusal> {
    if OrderAt(p.order) in db then Some(DuplicateId)
    else if !Takes(policy, p.counter, HeldShelves(db, Stock.Touched(p.lines)), p.lines) then Some(InsufficientStock)
    else if p.coupon.Some? && CouponVerdict(CouponNow(db, p.coupon.value), p.order, p.customer).Some? then
      CouponVerdict(CouponNow(db, p.coupon.value), p.order, p.customer)
    else if TenderRefused(db, Tenders(p)).Some? then TenderRefused(db, Tenders(p))
    else if p.counter && TenderSum(Tenders(p)) < p.total then Some(Underpaid)
    else None
  }

  lemma SameShelvesRead(p: Purchase, policy: Stock.Policy, db: Database)
    ensures ShelvesOf(Snapshot(Keys(PurchaseRecipe(p, policy)), db), Stock.Touched(p.lines)) ==
        HeldShelves(db, Stock.Touched(p.lines))
  {
    hide Stock.Touched, ShelfOf, Snapshot, Keys, PurchaseRecipe;
    PurchaseReads(p, policy, db);
  }

  lemma PurchaseStopsAsRead(p: Purchase, policy: Stock.Policy, db: Database)
    ensures PurchaseObjection(p, policy, Snapshot(Keys(PurchaseRecipe(p, policy)), db)) == PurchaseStops(p, policy, db)
  {
    hide Stock.Ids, Stock.Touched, Tenders, Snapshot, Keys, PurchaseRecipe, StockObjection, TenderObjection,
         TenderRefused, Takes, ShelvesOf;
    var values := Snapshot(Keys(PurchaseRecipe(p, policy)), db);
    PurchaseReads(p, policy, db);
    SameShelvesRead(p, policy, db);
    TakesIsNoObjection(policy, p.counter, p.lines, values);
    TenderRefusedAsRead(Tenders(p), values, db);
  }

  lemma PurchaseEnds(p: Purchase, policy: Stock.Policy, db: Database)
    ensures Ends(PurchaseRecipe(p, policy), db) ==
        if Found(PurchaseKey(p), db).Some? then Found(PurchaseKey(p), db)
        else if p.lines == [] then Some(Refused(NoLines))
        else Refuse(PurchaseStops(p, policy, db))
  {
    hide Snapshot, Keys, PurchaseObjection, PurchaseStops;
    PurchaseStopsAsRead(p, policy, db);
  }

  // ---- What it leaves -----------------------------------------------------------------

  function PurchaseShelves(p: Purchase, db: Database): map<nat, Stock.Shelf> {
    Stock.Moved(HeldShelves(db, Stock.Touched(p.lines)), p.lines, StockKind(p.counter), !p.counter,
        Stock.ForOrder(p.order))
  }

  function PurchaseAccounts(p: Purchase, db: Database): map<nat, Money.Account> {
    Banked(HeldAccounts(db, Payees(Tenders(p))), Tenders(p), p.order)
  }

  function PurchaseCoupons(p: Purchase, db: Database): Database {
    if p.coupon.None? || CouponNow(db, p.coupon.value).None? then map[]
    else
      match Coupons.Redeem(CouponNow(db, p.coupon.value).value, p.order, p.customer)
      case Counted(c) => map[CouponAt(p.coupon.value) := ACoupon(c)]
      case _ => map[]
  }

  function PurchaseJobs(p: Purchase, db: Database): seq<Job> {
    Alerts(HeldShelves(db, Stock.Touched(p.lines)), p.lines, StockKind(p.counter), !p.counter,
        Stock.ForOrder(p.order)) +
    if p.counter then [] else [Notice]
  }

  function PurchaseNumber(p: Purchase, db: Database): nat {
    LastNumber(Read(db, NumberKey(p.counter))) + 1
  }

  function PurchaseRows(p: Purchase, db: Database): Database {
    (Claiming(db[NumberKey(p.counter) := Counter(PurchaseNumber(p, db))], PurchaseKey(p), Placed(p.order)) +
     ShelfRows(PurchaseShelves(p, db)) + PurchaseCoupons(p, db) + AccountRows(PurchaseAccounts(p, db)))
      [OrderAt(p.order) := AnOrder(OrderWith(p, PurchaseNumber(p, db), PurchaseJobs(p, db)))]
  }

  lemma SameAccountsRead(p: Purchase, policy: Stock.Policy, db: Database)
    ensures AccountsOf(Snapshot(Keys(PurchaseRecipe(p, policy)), db), Payees(Tenders(p))) ==
        HeldAccounts(db, Payees(Tenders(p)))
  {
    hide Snapshot, Keys, PurchaseRecipe, Tenders, AccountOf, AccountNow;
    var values := Snapshot(Keys(PurchaseRecipe(p, policy)), db);
    PurchaseReads(p, policy, db);
    forall id | id in Payees(Tenders(p)) ensures AccountOf(values, id) == AccountNow(db, id) {
      var i := PayeeAt(Tenders(p), id);
    }
  }

  lemma {:induction false} PayeeAt(tenders: seq<Tender>, id: nat) returns (i: nat)
    requires id in Payees(tenders)
    ensures i < |tenders| && tenders[i].account == id
  {
    i := 0;
    if tenders[0].account != id {
      i := PayeeAt(tenders[1..], id);
      i := i + 1;
    }
  }

  lemma PurchaseWrote(p: Purchase, policy: Stock.Policy, db: Database)
    ensures var c := PurchaseRecipe(p, policy);
      c.write(Snapshot(Keys(c), db)) ==
        ((ShelfRows(PurchaseShelves(p, db)) + AccountRows(PurchaseAccounts(p, db)) + PurchaseCoupons(p, db))
           [NumberKey(p.counter) := Counter(PurchaseNumber(p, db))]
           [OrderAt(p.order) := AnOrder(OrderWith(p, PurchaseNumber(p, db), PurchaseJobs(p, db)))],
         Made(Placed(p.order)))
  {
    hide Snapshot, Keys, Tenders, HeldAccounts, AccountsOf, HeldShelves, ShelvesOf, Stock.Moved, Banked, Alerts,
         ShelfRows, AccountRows;
    PurchaseReads(p, policy, db);
    SameShelvesRead(p, policy, db);
    SameAccountsRead(p, policy, db);
  }

  /** The rows in the order they are written, and all at once. */
  function InTurn(db: Database, number: Key, last: Row, claim: Option<Key>, document: Document,
                  shelves: Database, coupons: Database, accounts: Database, order: Key, placed: Row): Database {
    (Claiming(db[number := last], claim, document) + shelves + coupons + accounts)[order := placed]
  }

  function AtOnce(db: Database, number: Key, last: Row, claim: Option<Key>, document: Document,
                  shelves: Database, coupons: Database, accounts: Database, order: Key, placed: Row): Database {
    db + Claiming((shelves + accounts + coupons)[number := last][order := placed], claim, document)
  }

  lemma RowInTurn(
      db: Database, number: Key, last: Row, claim: Option<Key>, document: Document, shelves: Database,
          coupons: Database,
      accounts: Database, order: Key, placed: Row, k: Key)
    requires number.NumberOf? && order.OrderAt? && (claim.Some? ==> claim.value.OrderClaim?)
    requires (k in shelves ==> k.ShelfAt?) && (k in coupons ==> k.CouponAt?) && (k in accounts ==> k.AccountAt?)
    ensures Read(InTurn(db, number, last, claim, document, shelves, coupons, accounts, order, placed), k) ==
            Read(AtOnce(db, number, last, claim, document, shelves, coupons, accounts, order, placed), k)
  {
  }

  /** Rows of different kinds may be written in any order. */
  lemma RowsInTurn(
      db: Database, number: Key, last: Row, claim: Option<Key>, document: Document, shelves: Database,
          coupons: Database,
      accounts: Database, order: Key, placed: Row)
    requires number.NumberOf? && order.OrderAt? && (claim.Some? ==> claim.value.OrderClaim?)
    requires forall k ::
        (k in shelves ==> k.ShelfAt?) && (k in coupons ==> k.CouponAt?) && (k in accounts ==> k.AccountAt?)
    ensures InTurn(db, number, last, claim, document, shelves, coupons, accounts, order, placed) ==
            AtOnce(db, number, last, claim, document, shelves, coupons, accounts, order, placed)
  {
    hide InTurn, AtOnce;
    var left := InTurn(db, number, last, claim, document, shelves, coupons, accounts, order, placed);
    var right := AtOnce(db, number, last, claim, document, shelves, coupons, accounts, order, placed);
    forall k ensures Read(left, k) == Read(right, k) {
      RowInTurn(db, number, last, claim, document, shelves, coupons, accounts, order, placed, k);
    }
    SameRows(left, right);
  }

  lemma PurchaseLeaves(p: Purchase, policy: Stock.Policy, db: Database)
    ensures Leaves(PurchaseRecipe(p, policy), db) == (PurchaseRows(p, db), Made(Placed(p.order)))
  {
    hide Snapshot, Keys, ShelfRows, AccountRows, PurchaseShelves, PurchaseAccounts, PurchaseNumber, PurchaseJobs,
         OrderWith, PurchaseWrites;
    PurchaseWrote(p, policy, db);
    RowsInTurn(db, NumberKey(p.counter), Counter(PurchaseNumber(p, db)), PurchaseKey(p), Placed(p.order),
               ShelfRows(PurchaseShelves(p, db)), PurchaseCoupons(p, db), AccountRows(PurchaseAccounts(p, db)),
               OrderAt(p.order), AnOrder(OrderWith(p, PurchaseNumber(p, db), PurchaseJobs(p, db))));
  }

  // ---- The rows each step finds -------------------------------------------------------

  /** With its number and its key taken. */
  function Opened(p: Purchase, db: Database): Database {
    Claiming(db[NumberKey(p.counter) := Counter(PurchaseNumber(p, db))], PurchaseKey(p), Placed(p.order))
  }

  lemma OpenedHolds(p: Purchase, db: Database)
    ensures HeldShelves(Opened(p, db), Stock.Touched(p.lines)) == HeldShelves(db, Stock.Touched(p.lines))
    ensures OrderAt(p.order) in Opened(p, db) <==> OrderAt(p.order) in db
  {
    hide Stock.Touched;
  }

  lemma StockedHolds(p: Purchase, db: Database, shelves: map<nat, Stock.Shelf>)
    ensures p.coupon.Some? ==>
        CouponNow(Opened(p, db) + ShelfRows(shelves), p.coupon.value) == CouponNow(db, p.coupon.value)
  {
  }

  lemma RedeemedHolds(p: Purchase, db: Database, shelves: map<nat, Stock.Shelf>, id: nat)
    ensures AccountNow(Opened(p, db) + ShelfRows(shelves) + PurchaseCoupons(p, db), id) == AccountNow(db, id)
  {
  }

  lemma {:induction false} TenderRefusedAlike(a: Database, b: Database, tenders: seq<Tender>)
    requires forall id :: AccountNow(a, id) == AccountNow(b, id)
    ensures TenderRefused(a, tenders) == TenderRefused(b, tenders)
  {
    if tenders != [] {
      TenderRefusedAlike(a, b, tenders[1..]);
    }
  }

  lemma HeldAccountsAlike(a: Database, b: Database, ids: set<nat>)
    requires forall id :: AccountNow(a, id) == AccountNow(b, id)
    ensures HeldAccounts(a, ids) == HeldAccounts(b, ids)
  {
  }

  lemma TenderSumFirst(tender: Tender, rest: seq<Tender>)
    ensures TenderSum([tender] + rest) == tender.amount + TenderSum(rest)
  {
    assert ([tender] + rest)[1..] == rest;
  }

  lemma CountedFirst(tenders: seq<Tender>)
    requires tenders != []
    ensures Counted(tenders) == (if tenders[0].amount > 0 then [tenders[0]] else []) + Counted(tenders[1..])
    ensures TenderSum(Counted(tenders)) == tenders[0].amount + TenderSum(Counted(tenders[1..]))
  {
    hide TenderSum;
    TenderSumFirst(tenders[0], Counted(tenders[1..]));
    assert [] + Counted(tenders[1..]) == Counted(tenders[1..]);
  }

  lemma NoneCounted()
    ensures Counted([]) == [] && TenderSum([]) == 0
  {
  }

  class OrderService {
    const db: Store
    const stock: StockService
    const coupons: CouponsService
    const till: TillService

    constructor (db: Store, stock: StockService, coupons: CouponsService, till: TillService)
      ensures this.db == db && this.stock == stock && this.coupons == coupons && this.till == till
    {
      this.db, this.stock, this.coupons, this.till := db, stock, coupons, till;
    }

    /** Every service writes through the one transaction. */
    predicate OneStore() {
      stock.db == db && coupons.db == db && till.db == db && till.cash.db == db
    }

    method CountTenders(tenders: seq<Tender>) returns (counted: seq<Tender>, sum: nat)
      ensures counted == Counted(tenders) && sum == TenderSum(counted)
    {
      hide Counted, TenderSum;
      NoneCounted();
      counted, sum := [], 0;
      for i := 0 to |tenders|
        invariant counted + Counted(tenders[i..]) == Counted(tenders)
        invariant sum + TenderSum(Counted(tenders[i..])) == TenderSum(Counted(tenders))
      {
        assert tenders[i..][1..] == tenders[i + 1..];
        CountedFirst(tenders[i..]);
        if tenders[i].amount > 0 {
          counted, sum := counted + [tenders[i]], sum + tenders[i].amount;
        }
      }
    }

    /** The stock locked, asked of, and written. */
    method TakeStock(p: Purchase) returns (why: Option<Refusal>, jobs: seq<Job>)
      requires OneStore() && db.locked != []
      modifies db`rows, db`locked
      ensures db.locked == NotedAll(old(db.locked), ShelfKeys(ShelfOrder(p.lines, old(db.rows))))
      ensures var held := HeldShelves(old(db.rows), Stock.Touched(p.lines));
        if !Takes(stock.policy, p.counter, held, p.lines) then why == Some(InsufficientStock)
        else
          && why.None?
          && jobs == Alerts(held, p.lines, StockKind(p.counter), !p.counter, Stock.ForOrder(p.order))
          && db.rows == old(db.rows) +
               ShelfRows(Stock.Moved(held, p.lines, StockKind(p.counter), !p.counter, Stock.ForOrder(p.order)))
    {
      hide ShelfRows, HeldShelves, Stock.Moved, Stock.Touched, Takes, Alerts, NotedAll;
      jobs := [];
      var shelves := stock.Lock(p.lines);
      why := stock.CheckAsked(p.counter, p.lines, shelves);
      if why.None? {
        shelves, jobs := stock.WriteLines(shelves, p.lines, StockKind(p.counter), !p.counter,
            Stock.ForOrder(p.order), old(db.rows));
      }
    }

    /** The money taken, and the order written with the jobs it queues. */
    method TakeMoney(p: Purchase, number: nat, jobs: seq<Job>, ghost saved: Database) returns (why: Option<Refusal>)
      requires OneStore() && number == PurchaseNumber(p, saved)
      requires jobs == Alerts(HeldShelves(saved, Stock.Touched(p.lines)), p.lines, StockKind(p.counter), !p.counter,
          Stock.ForOrder(p.order))
      requires db.rows == Opened(p, saved) + ShelfRows(PurchaseShelves(p, saved)) + PurchaseCoupons(p, saved)
      requires db.locked != []
      modifies db`rows, db`locked
      ensures PartNoted(old(db.locked), db.locked, TenderKeys(Tenders(p))) && db.locked != []
      ensures why.None? ==> db.locked == NotedAll(old(db.locked), TenderKeys(Tenders(p)))
      ensures why == if TenderRefused(saved, Tenders(p)).Some? then TenderRefused(saved, Tenders(p))
                     else if p.counter && TenderSum(Tenders(p)) < p.total then Some(Underpaid)
                     else None
      ensures why.None? ==> db.rows == PurchaseRows(p, saved)
    {
      hide Opened, ShelfRows, AccountRows, PurchaseShelves, PurchaseCoupons, HeldAccounts, HeldShelves, Stock.Touched,
           Banked, TenderRefused, Alerts, OrderWith, Counted, TenderSum, Payees, PurchaseNumber, NotedAll, PartNoted,
           TenderKeys;
      var tenders, sum := [], 0;
      if p.counter {
        tenders, sum := CountTenders(p.tenders);
      }
      TendersAlike(p, saved, db.rows);
      why := till.TakeTenders(tenders, p.order, Payees(Tenders(p)));
      if why.Some? { return; }
      if p.counter && sum < p.total { return Some(Underpaid); }
      var all := if p.counter then jobs else jobs + [Notice];
      assert all == PurchaseJobs(p, saved);
      RowsWritten(p, saved);
      db.rows := db.rows[OrderAt(p.order) := AnOrder(OrderWith(p, number, all))];
    }

    /** Numbered, its key claimed and its row inserted; or what is in the way, nothing left of it. */
    method Open(p: Purchase) returns (made: Option<Answer>, number: nat)
      requires OneStore() && db.locked == []
      modifies db`rows, db`locked
      ensures made == if Found(PurchaseKey(p), db.next).Some? then Found(PurchaseKey(p), db.next)
                      else if OrderAt(p.order) in db.next then Some(Refused(DuplicateId)) else None
      ensures made.Some? ==> db.rows == db.next && (db.locked == KeyTaken(p) || db.locked == Started(p))
      ensures made.None? ==>
          db.rows == Opened(p, db.next) && number == PurchaseNumber(p, db.next) && db.locked == Started(p)
    {
      hide Noted, WithKey, Found, Claiming;
      number := db.NextNumber(if p.counter then CounterOrders else WebOrders);
      KeyAfterNumber(p, db.next);
      made := db.Claim(PurchaseKey(p), Placed(p.order));
      if made.Some? {
        db.Rollback();
        return;
      }
      OpenedHolds(p, db.next);
      var row := db.Lock(OrderAt(p.order));
      if row.Some? {
        db.Rollback();
        made := Some(Refused(DuplicateId));
      }
    }

    method UseCoupon(p: Purchase) returns (why: Option<Refusal>)
      requires OneStore() && db.locked != []
      modifies db`rows, db`locked
      ensures db.locked == WithKey(old(db.locked), CouponKey(p))
      ensures p.coupon.None? ==> why.None? && db.rows == old(db.rows)
      ensures p.coupon.Some? ==>
        var coupon := CouponNow(old(db.rows), p.coupon.value);
        && why == CouponVerdict(coupon, p.order, p.customer)
        && (why.None? ==>
              db.rows == old(db.rows)[CouponAt(p.coupon.value) :=
                  ACoupon(Coupons.Redeem(coupon.value, p.order, p.customer).coupon)])
    {
      hide Noted, CouponNow, CouponVerdict, Coupons.Redeem;
      why := None;
      if p.coupon.Some? {
        why := coupons.Redeem(p.coupon.value, p.order, p.customer);
      }
    }

    method Place(p: Purchase) returns (answer: Answer)
      requires OneStore() && db.locked == []
      modifies db
      ensures db.Ran(PurchaseOn(p, stock.policy, db.next), old(db.rows), answer)
      ensures db.LockedAll(PurchaseOn(p, stock.policy, db.next))
    {
      hide PurchaseRecipe, PurchaseOn, ShelfOrder, Ends, Leaves, ShelfRows, PurchaseRows, HeldShelves, Stock.Moved,
           Stock.Touched, Stock.Ids, CouponNow, Takes, TenderRefused, Alerts, Counted, TenderSum, CouponVerdict,
           Coupons.Redeem, PurchaseCoupons, InOrder, InStep, Store.Ran, NotedAll, Noted, WithKey, PartNoted, Found,
           ShelfKeys, TenderKeys, Tenders, Opened;
      ghost var c, first := PurchaseOn(p, stock.policy, db.next), db.rows;
      PurchaseEnds(p, stock.policy, first);
      PurchaseEnds(p, stock.policy, db.next);
      PurchaseOnEnds(p, stock.policy, db.next, first);
      PurchaseOnEnds(p, stock.policy, db.next, db.next);
      var made := db.MadeBy(PurchaseKey(p));
      if made.Some? {
        db.StopsAtOnce(c, first, made.value);
        return made.value;
      }
      if p.lines == [] {
        db.StopsAtOnce(c, first, Refused(NoLines));
        return Refused(NoLines);
      }
      PurchaseSteps(p, stock.policy, db.next);
      var number;
      made, number := Open(p);
      if made.Some? {
        db.Stops(c, first, made.value);
        return made.value;
      }
      OpenedHolds(p, db.next);
      OpenedShelves(p, db.next);
      var why, jobs := TakeStock(p);
      if why.Some? {
        db.Rollback();
        db.Stops(c, first, Refused(why.value));
        return Refused(why.value);
      }
      StockedHolds(p, db.next, PurchaseShelves(p, db.next));
      why := UseCoupon(p);
      if why.Some? {
        db.Rollback();
        db.Stops(c, first, Refused(why.value));
        return Refused(why.value);
      }
      RedeemedRows(p, db.next, db.rows);
      why := TakeMoney(p, number, jobs, db.next);
      TendersInStep(p, stock.policy, db.next, db.locked);
      if why.Some? {
        db.Rollback();
        db.Stops(c, first, Refused(why.value));
        return Refused(why.value);
      }
      PurchaseLeaves(p, stock.policy, db.next);
      answer := Made(Placed(p.order));
      db.Finishes(c, first, answer);
    }
  }

  // ---- The rows an order locks, in turn -------------------------------------------------

  function KeyTaken(p: Purchase): seq<Key> {
    WithKey([NumberKey(p.counter)], PurchaseKey(p))
  }

  function Started(p: Purchase): seq<Key> {
    Noted(KeyTaken(p), OrderAt(p.order))
  }

  function Shelved(p: Purchase, db: Database): seq<Key> {
    NotedAll(Started(p), ShelfKeys(ShelfOrder(p.lines, db)))
  }

  function Couponed(p: Purchase, db: Database): seq<Key> {
    WithKey(Shelved(p, db), CouponKey(p))
  }

  function CouponKey(p: Purchase): Option<Key> {
    if p.coupon.Some? then Some(CouponAt(p.coupon.value)) else None
  }

  function DoneBefore(p: Purchase, db: Database): seq<Key> {
    [NumberKey(p.counter)] + KeySeq(PurchaseKey(p)) + [OrderAt(p.order)] + ShelfKeys(ShelfOrder(p.lines, db)) +
        CouponKeys(p.coupon)
  }

  lemma PurchaseInTurn(p: Purchase, policy: Stock.Policy, db: Database)
    ensures InOrder(PurchaseOn(p, policy, db)) == DoneBefore(p, db) + TenderKeys(Tenders(p))
  {
    hide Tenders, TenderKeys, ShelfKeys, ShelfOrder;
  }

  lemma NotedCoupon(locked: seq<Key>, done: seq<Key>, coupon: Option<nat>)
    requires locked == NotedAll([], done)
    ensures NotedAll([], done + CouponKeys(coupon)) ==
        WithKey(locked, if coupon.Some? then Some(CouponAt(coupon.value)) else None)
  {
    NotedKey(done, if coupon.Some? then Some(CouponAt(coupon.value)) else None);
  }

  function DoneFirst(p: Purchase): seq<Key> {
    [NumberKey(p.counter)] + KeySeq(PurchaseKey(p))
  }

  lemma PurchaseNoted(p: Purchase, db: Database)
    ensures var shelves := ShelfKeys(ShelfOrder(p.lines, db));
      && KeyTaken(p) == NotedAll([], DoneFirst(p))
      && Started(p) == NotedAll([], DoneFirst(p) + [OrderAt(p.order)])
      && Shelved(p, db) == NotedAll([], DoneFirst(p) + [OrderAt(p.order)] + shelves)
      && Couponed(p, db) == NotedAll([], DoneFirst(p) + [OrderAt(p.order)] + shelves + CouponKeys(p.coupon))
  {
    hide ShelfOrder, ShelfKeys, CouponKeys, NumberKey, Noted, WithKey, NotedAll;
    var started := DoneFirst(p) + [OrderAt(p.order)];
    NotedFirst(NumberKey(p.counter));
    NotedKey([NumberKey(p.counter)], PurchaseKey(p));
    NotedNext([], DoneFirst(p), OrderAt(p.order));
    NotedJoin([], started, ShelfKeys(ShelfOrder(p.lines, db)));
    NotedCoupon(Shelved(p, db), started + ShelfKeys(ShelfOrder(p.lines, db)), p.coupon);
  }

  lemma PurchaseSteps(p: Purchase, policy: Stock.Policy, db: Database)
    ensures var c := PurchaseOn(p, policy, db);
      && InStep(KeyTaken(p), c) && InStep(Started(p), c) && InStep(Shelved(p, db), c) && InStep(Couponed(p, db), c)
      && Couponed(p, db) == NotedAll([], DoneBefore(p, db))
      && NotedAll([], InOrder(c)) == NotedAll(Couponed(p, db), TenderKeys(Tenders(p)))
  {
    hide InStep, Tenders, TenderKeys, ShelfOrder, ShelfKeys, PurchaseOn, InOrder, CouponKeys, NumberKey, Noted,
         WithKey, NotedAll, Shelved, Couponed, Started, KeyTaken;
    var c, shelves := PurchaseOn(p, policy, db), ShelfKeys(ShelfOrder(p.lines, db));
    var coupon, tenders, started := CouponKeys(p.coupon), TenderKeys(Tenders(p)), DoneFirst(p) + [OrderAt(p.order)];
    PurchaseInTurn(p, policy, db);
    PurchaseNoted(p, db);
    NotedJoin([], DoneBefore(p, db), tenders);
    StepsTaken(c, DoneFirst(p), [OrderAt(p.order)] + shelves + coupon + tenders);
    StepsTaken(c, started, shelves + coupon + tenders);
    StepsTaken(c, started + shelves, coupon + tenders);
    StepsTaken(c, DoneBefore(p, db), tenders);
  }

  lemma TendersInStep(p: Purchase, policy: Stock.Policy, db: Database, locked: seq<Key>)
    requires PartNoted(Couponed(p, db), locked, TenderKeys(Tenders(p)))
    ensures InStep(locked, PurchaseOn(p, policy, db))
  {
    hide PurchaseOn, InOrder, PartNoted, DoneBefore, TenderKeys, Tenders;
    PurchaseSteps(p, policy, db);
    PurchaseInTurn(p, policy, db);
    PartTaken(PurchaseOn(p, policy, db), DoneBefore(p, db), locked, TenderKeys(Tenders(p)));
  }

  lemma PurchaseOnEnds(p: Purchase, policy: Stock.Policy, on: Database, db: Database)
    ensures Ends(PurchaseOn(p, policy, on), db) == Ends(PurchaseRecipe(p, policy), db)
    ensures Leaves(PurchaseOn(p, policy, on), db) == Leaves(PurchaseRecipe(p, policy), db)
  {
    hide Ends, Leaves, PurchaseRecipe, Shelving;
    forall k | k in PurchaseRecipe(p, policy).after ensures k in PurchaseOn(p, policy, on).after {
      PurchaseOnHas(p, policy, on, k);
    }
    LockingIsSame(PurchaseRecipe(p, policy), PurchaseOn(p, policy, on).after, db);
  }

  lemma OpenedShelves(p: Purchase, db: Database)
    ensures ShelfOrder(p.lines, Opened(p, db)) == ShelfOrder(p.lines, db)
  {
    ShelfOrderAgrees(p.lines, Opened(p, db), db);
  }

  lemma KeyAfterNumber(p: Purchase, db: Database)
    ensures Found(PurchaseKey(p), db[NumberKey(p.counter) := Counter(PurchaseNumber(p, db))]) ==
        Found(PurchaseKey(p), db)
  {
  }

  lemma RowsWritten(p: Purchase, db: Database)
    ensures PurchaseRows(p, db) ==
      (Opened(p, db) + ShelfRows(PurchaseShelves(p, db)) + PurchaseCoupons(p, db) +
       AccountRows(Banked(HeldAccounts(db, Payees(Tenders(p))), Tenders(p), p.order)))
        [OrderAt(p.order) := AnOrder(OrderWith(p, PurchaseNumber(p, db), PurchaseJobs(p, db)))]
  {
  }

  lemma RedeemedRows(p: Purchase, db: Database, rows: Database)
    requires var stocked := Opened(p, db) + ShelfRows(PurchaseShelves(p, db));
      if p.coupon.None? then rows == stocked
      else
        && CouponVerdict(CouponNow(db, p.coupon.value), p.order, p.customer).None?
        && rows == stocked[CouponAt(p.coupon.value) :=
                             ACoupon(Coupons.Redeem(CouponNow(db, p.coupon.value).value, p.order, p.customer).coupon)]
    ensures rows == Opened(p, db) + ShelfRows(PurchaseShelves(p, db)) + PurchaseCoupons(p, db)
  {
    hide Opened, ShelfRows, PurchaseShelves, Coupons.Redeem, CouponNow;
    if p.coupon.Some? {
      var row := ACoupon(Coupons.Redeem(CouponNow(db, p.coupon.value).value, p.order, p.customer).coupon);
      assert PurchaseCoupons(p, db) == map[CouponAt(p.coupon.value) := row];
    }
  }

  lemma TendersAlike(p: Purchase, db: Database, rows: Database)
    requires rows == Opened(p, db) + ShelfRows(PurchaseShelves(p, db)) + PurchaseCoupons(p, db)
    ensures TenderRefused(rows, Tenders(p)) == TenderRefused(db, Tenders(p))
    ensures HeldAccounts(rows, Payees(Tenders(p))) == HeldAccounts(db, Payees(Tenders(p)))
  {
    hide PurchaseShelves, PurchaseCoupons, ShelfRows, AccountNow;
    forall id ensures AccountNow(rows, id) == AccountNow(db, id) {
      RedeemedHolds(p, db, PurchaseShelves(p, db), id);
    }
    TenderRefusedAlike(rows, db, Tenders(p));
    HeldAccountsAlike(rows, db, Payees(Tenders(p)));
  }
}
