/** An exchange, statement by statement: the goods back on the shelf, the new goods off it, the sale
    paid for with what came back, and that refunded from the drawer -- all of it, or nothing. */
module ExchangeService {
  import opened Wrappers
  import opened RowLocks
  import opened Recipes
  import opened Shop
  import opened CashBook
  import opened StockRoom
  import opened Orders
  import opened Exchanges
  import opened Backend
  import opened CashService
  import opened StockService
  import opened OrderService
  import Stock = StockLedger
  import Money = MoneyLedger
  import Coupons = CouponBook

  /** What the exchange's recipe is given to check and to write from. */
  function Reading(x: Exchange, policy: Stock.Policy, db: Database): Values {
    Snapshot(Keys(ExchangeRecipe(x, policy)), db)
  }

  lemma ReadsKey(x: Exchange, policy: Stock.Policy, db: Database, k: Key)
    requires k in ExchangeKeys(x)
    ensures k in Reading(x, policy, db) && Get(Reading(x, policy, db), k) == Read(db, k)
  {
    hide ExchangeKeys;
    assert Keys(ExchangeRecipe(x, policy)) == ExchangeKeys(x);
  }

  lemma ReadsRows(x: Exchange, policy: Stock.Policy, db: Database)
    ensures var values := Reading(x, policy, db);
      && (forall k :: k in {ExchangeAt(x.token), OrderAt(x.original), NumberOf(Returns), ReturnAt(x.returned),
                            NumberOf(CounterOrders), OrderAt(x.sale.order), AccountAt(x.drawer)} ==>
            k in values && values[k] == Read(db, k))
      && (x.sale.coupon.Some? ==>
            CouponAt(x.sale.coupon.value) in values &&
                CouponOf(values, x.sale.coupon.value) == CouponNow(db, x.sale.coupon.value))
  {
    hide Reading, InvolvedLines, Counted;
    var five := [OrderAt(x.original), NumberOf(Returns), ReturnAt(x.returned), NumberOf(CounterOrders),
        OrderAt(x.sale.order)];
    assert five[0] in five && five[1] in five && five[2] in five && five[3] in five && five[4] in five;
    assert [ExchangeAt(x.token)][0] in [ExchangeAt(x.token)] && [AccountAt(x.drawer)][0] in [AccountAt(x.drawer)];
    forall k | k in {ExchangeAt(x.token), OrderAt(x.original), NumberOf(Returns), ReturnAt(x.returned),
                     NumberOf(CounterOrders), OrderAt(x.sale.order), AccountAt(x.drawer)}
      ensures k in Reading(x, policy, db) && Reading(x, policy, db)[k] == Read(db, k)
    {
      ReadsKey(x, policy, db, k);
    }
    if x.sale.coupon.Some? {
      assert CouponKeys(x.sale.coupon)[0] in CouponKeys(x.sale.coupon);
      ReadsKey(x, policy, db, CouponAt(x.sale.coupon.value));
    }
  }

  lemma ReadsShelves(x: Exchange, policy: Stock.Policy, db: Database)
    ensures HasShelves(Reading(x, policy, db), Stock.Ids(InvolvedLines(x)))
    ensures Shelves(x, Reading(x, policy, db)) == HeldShelves(db, Stock.Touched(InvolvedLines(x)))
  {
    hide Reading, InvolvedLines, Counted, Stock.Ids, Stock.Touched;
    var ids := Stock.Ids(InvolvedLines(x));
    Stock.IdsAscend(InvolvedLines(x));
    forall id | id in ids
      ensures ShelfAt(id) in Reading(x, policy, db) && ShelfOf(Reading(x, policy, db), id) == ShelfNow(db, id)
    {
      ShelfKeyIn(ids, id);
      ReadsKey(x, policy, db, ShelfAt(id));
    }
  }

  lemma ReadsTenders(x: Exchange, policy: Stock.Policy, db: Database, worth: nat)
    ensures var values, tenders := Reading(x, policy, db), Tenders(SaleOf(x, worth));
      && HasAccounts(values, tenders)
      && (forall i :: 0 <= i < |tenders| ==>
          AccountOf(values, tenders[i].account) == AccountNow(db, tenders[i].account))
      && AccountsOf(values, Tills(x, worth)) == HeldAccounts(db, Tills(x, worth))
  {
    hide Reading, InvolvedLines, Counted, AccountOf, AccountNow;
    var values, tenders := Reading(x, policy, db), Tenders(SaleOf(x, worth));
    PayeesOfSale(x, worth);
    forall id | id in Tills(x, worth) ensures AccountAt(id) in values && AccountOf(values, id) == AccountNow(db, id) {
      ReadsAccount(x, policy, db, id);
    }
    forall i | 0 <= i < |tenders| ensures tenders[i].account in Payees(tenders) {
      Exchanges.PayeeAt(tenders, i);
    }
  }

  lemma ReadsAccount(x: Exchange, policy: Stock.Policy, db: Database, id: nat)
    requires id == x.drawer || id in Payees(Counted(x.sale.tenders))
    ensures AccountAt(id) in Reading(x, policy, db) && AccountOf(Reading(x, policy, db), id) == AccountNow(db, id)
  {
    hide Reading, InvolvedLines, Counted;
    if id == x.drawer {
      assert [AccountAt(x.drawer)][0] in [AccountAt(x.drawer)];
    } else {
      TenderKeyIn(Counted(x.sale.tenders), id);
    }
    ReadsKey(x, policy, db, AccountAt(id));
  }

  // ---- What stops it ------------------------------------------------------------------

  /** The goods going out, against the shelves with those coming back already on them. */
  lemma SellsAsRead(x: Exchange, policy: Stock.Policy, values: Values)
    ensures Stock.Touched(x.sale.lines) <= PutBack(x, values).Keys
    ensures SaleObjection(x, policy, values) ==
            if Takes(policy, true, PutBack(x, values), x.sale.lines) then None else Some(InsufficientStock)
  {
    hide Stock.Ids, Stock.Touched, Stock.Asked, PutBack;
    var ids, rows := Stock.Ids(x.sale.lines), PutBack(x, values);
    Stock.IdsAscend(x.sale.lines);
    SoldIsInvolved(x);
    if SaleObjection(x, policy, values).None? {
      forall id | id in Stock.Touched(x.sale.lines)
        ensures TakesOne(policy, true, rows[id], Stock.Asked(x.sale.lines, id))
      {
        var i :| 0 <= i < |ids| && ids[i] == id;
      }
    }
  }

  function SellStops(x: Exchange, policy: Stock.Policy, worth: nat, values: Values, db: Database): Option<Refusal> {
    var tenders := Tenders(SaleOf(x, worth));
    if SaleObjection(x, policy, values).Some? then SaleObjection(x, policy, values)
    else if x.sale.coupon.Some? &&
        CouponVerdict(CouponNow(db, x.sale.coupon.value), x.sale.order, x.sale.customer).Some? then
      CouponVerdict(CouponNow(db, x.sale.coupon.value), x.sale.order, x.sale.customer)
    else if TenderRefused(db, tenders).Some? then TenderRefused(db, tenders)
    else if TenderSum(tenders) < x.sale.total then Some(Underpaid)
    else if TenderSum(tenders) > x.sale.total then Some(Overpaid)
    else RefundObjection(x, worth, values)
  }

  lemma SellStopsAsRead(x: Exchange, policy: Stock.Policy, worth: nat, db: Database)
    ensures PayObjection(x, policy, worth, Reading(x, policy, db)) ==
        SellStops(x, policy, worth, Reading(x, policy, db), db)
  {
    hide Reading, InvolvedLines, Tenders, TenderSum, SaleObjection, RefundObjection, TenderObjection, TenderRefused,
         AccountOf, AccountNow;
    ReadsRows(x, policy, db);
    ReadsTenders(x, policy, db, worth);
    TenderRefusedAsRead(Tenders(SaleOf(x, worth)), Reading(x, policy, db), db);
  }

  function ExchangeStops(x: Exchange, policy: Stock.Policy, values: Values, db: Database): Option<Answer> {
    if ExchangeAt(x.token) in db then Some(Retold(db[ExchangeAt(x.token)]))
    else
      match OrderIn(Read(db, OrderAt(x.original)))
      case None => Some(Refused(NoSuchOrder))
      case Some(o) =>
        if o.lines != x.lines then Some(Refused(NoSuchOrder))
        else if ReturnObjection(x, o).Some? then Refuse(ReturnObjection(x, o))
        else if ReturnAt(x.returned) in db then Some(Refused(DuplicateId))
        else if CountedBack(o.lines, o.returned, x.back).None? then Some(Refused(NotReturnable))
        else if OrderAt(x.sale.order) in db then Some(Refused(DuplicateId))
        else Refuse(SellStops(x, policy, Worth(x, o), values, db))
  }

  lemma ExchangeStopsAsRead(x: Exchange, policy: Stock.Policy, db: Database)
    ensures Ends(ExchangeRecipe(x, policy), db) == ExchangeStops(x, policy, Reading(x, policy, db), db)
  {
    hide InvolvedLines, PayObjection, SellStops, CountedBack, ReturnObjection, Snapshot, Keys;
    ReadsRows(x, policy, db);
    ReadsShelves(x, policy, db);
    if o :| OrderIn(Read(db, OrderAt(x.original))) == Some(o) {
      SellStopsAsRead(x, policy, Worth(x, o), db);
    }
  }

  // ---- The goods ----------------------------------------------------------------------

  /** A row of another kind written beside the shelves. */
  lemma Beside(db: Database, shelves: map<nat, Stock.Shelf>, k: Key, row: Row)
    requires !k.ShelfAt?
    ensures (db + ShelfRows(shelves))[k := row] == db[k := row] + ShelfRows(shelves)
    ensures Read(db + ShelfRows(shelves), k) == Read(db, k)
  {
  }

  function BackJobs(x: Exchange, values: Values): seq<Job> {
    RestockedIsInvolved(x);
    Alerts(Shelves(x, values), Restocked(x.lines, Decided(x.back)), Stock.Return, true, Stock.ForReturn(x.returned))
  }

  function SaleJobs(x: Exchange, values: Values): seq<Job> {
    SoldIsInvolved(x);
    Alerts(PutBack(x, values), x.sale.lines, Stock.Sale, false, Stock.ForOrder(x.sale.order))
  }

  lemma GoingOut(x: Exchange, values: Values)
    ensures Stock.Covers(PutBack(x, values), x.sale.lines)
    ensures GoneOut(x, values) ==
        Stock.Moved(PutBack(x, values), x.sale.lines, Stock.Sale, false, Stock.ForOrder(x.sale.order))
    ensures SaleJobs(x, values) ==
        Alerts(PutBack(x, values), x.sale.lines, Stock.Sale, false, Stock.ForOrder(x.sale.order))
  {
    SoldIsInvolved(x);
  }

  lemma RestockedNext(lines: seq<Stock.Line>, back: seq<Back>)
    requires back != []
    ensures Restocked(lines, back) ==
            (if back[0].restock && back[0].line < |lines| then
                [Stock.Line(lines[back[0].line].shelf, back[0].quantity)] else []) +
            Restocked(lines, back[1..])
  {
  }

  lemma DecidedAt(back: seq<Back>, i: nat)
    requires i < |back|
    ensures Decided(back)[i] == back[i].(restock := Decision(back, back[i].line))
  {
  }

  class ReturnsService {
    const db: Store
    const stock: StockService

    constructor (db: Store, stock: StockService)
      ensures this.db == db && this.stock == stock
    {
      this.db, this.stock := db, stock;
    }

    /** Each line's units counted back, none past what was sold. */
    method CountBack(lines: seq<Stock.Line>, returned: seq<nat>, back: seq<Back>) returns (counted: Option<seq<nat>>)
      ensures counted == CountedBack(lines, returned, back)
    {
      var now: seq<nat> := returned;
      for i := 0 to |back|
        invariant |now| == |returned|
        invariant CountedBack(lines, now, back[i..]) == CountedBack(lines, returned, back)
      {
        assert back[i..][0] == back[i] && back[i..][1..] == back[i + 1..];
        var line := back[i].line;
        if line >= |lines| || line >= |now| { return None; }
        if now[line] + back[i].quantity > lines[line].quantity { return None; }
        now := now[line := now[line] + back[i].quantity];
      }
      counted := Some(now);
    }

    /** The decision kept for each line, the last one given for it; then the goods to go back. */
    method Restock(lines: seq<Stock.Line>, back: seq<Back>) returns (goods: seq<Stock.Line>)
      ensures goods == Restocked(lines, Decided(back))
    {
      hide Restocked, Decided;
      var decisions: map<nat, bool> := map[];
      for i := 0 to |back|
        invariant forall line :: line in decisions ==> decisions[line] == Decision(back[..i], line)
        invariant forall j :: 0 <= j < i ==> back[j].line in decisions
      {
        assert back[..i + 1][..i] == back[..i];
        decisions := decisions[back[i].line := back[i].restock];
      }
      assert back[..|back|] == back;
      goods := [];
      NoneRestocked(lines);
      ghost var decided := Decided(back);
      for i := 0 to |back|
        invariant goods + Restocked(lines, decided[i..]) == Restocked(lines, decided)
      {
        DecidedAt(back, i);
        assert decided[i..][0] == decided[i] && decided[i..][1..] == decided[i + 1..];
        RestockedNext(lines, decided[i..]);
        if decisions[back[i].line] && back[i].line < |lines| {
          goods := goods + [Stock.Line(lines[back[i].line].shelf, back[i].quantity)];
        }
      }
    }

    /** The goods counted back and put on their shelves. */
    method BringBack(x: Exchange, o: Order, held: map<nat, Stock.Shelf>, ghost values: Values, ghost saved: Database)
      returns (why: Option<Refusal>, counted: seq<nat>, shelves: map<nat, Stock.Shelf>, jobs: seq<Job>)
      requires stock.db == db && held == Shelves(x, values) && db.rows == saved + ShelfRows(held) && o.lines == x.lines
      requires db.locked != []
      modifies db`rows, db`locked
      ensures db.locked == ReturnNoted(old(db.locked), x)
      ensures why == if ReturnAt(x.returned) in saved then Some(DuplicateId)
                     else if CountedBack(o.lines, o.returned, x.back).None? then Some(NotReturnable) else None
      ensures why.None? ==>
        && counted == CountedBack(o.lines, o.returned, x.back).value
        && shelves == PutBack(x, values)
        && jobs == BackJobs(x, values)
        && db.rows == saved[NumberOf(Returns) := Counter(LastNumber(Read(saved, NumberOf(Returns))) + 1)] +
            ShelfRows(shelves)
    {
      hide ShelfRows, InvolvedLines, Stock.Touched, Stock.Moved, Alerts, CountedBack, Restocked, Noted;
      counted, shelves, jobs := [], held, [];
      Beside(saved, held, NumberOf(Returns), Counter(LastNumber(Read(saved, NumberOf(Returns))) + 1));
      var number := db.NextNumber(Returns);
      ghost var start := saved[NumberOf(Returns) := Counter(number)];
      Beside(start, held, ReturnAt(x.returned), Counter(0));
      var row := db.Lock(ReturnAt(x.returned));
      if row.Some? { return Some(DuplicateId), [], held, []; }
      var back := CountBack(o.lines, o.returned, x.back);
      if back.None? { return Some(NotReturnable), [], held, []; }
      counted := back.value;
      var goods := Restock(x.lines, x.back);
      RestockedIsInvolved(x);
      shelves, jobs := stock.WriteLines(held, goods, Stock.Return, true, Stock.ForReturn(x.returned), start);
      why := None;
    }

    method Sell(x: Exchange, held: map<nat, Stock.Shelf>, ghost values: Values, ghost start: Database)
      returns (why: Option<Refusal>, shelves: map<nat, Stock.Shelf>, jobs: seq<Job>)
      requires stock.db == db && held == PutBack(x, values) && db.rows == start + ShelfRows(held)
      modifies db`rows
      ensures why == SaleObjection(x, stock.policy, values)
      ensures why.None? ==>
          shelves == GoneOut(x, values) && jobs == SaleJobs(x, values) && db.rows == start + ShelfRows(shelves)
    {
      hide ShelfRows, InvolvedLines, Stock.Touched, Stock.Moved, Alerts, PutBack, SaleObjection, Takes, GoneOut,
           SaleJobs;
      shelves, jobs := held, [];
      SellsAsRead(x, stock.policy, values);
      GoingOut(x, values);
      why := stock.CheckAsked(true, x.sale.lines, held);
      if why.None? {
        shelves, jobs := stock.WriteLines(held, x.sale.lines, Stock.Sale, false, Stock.ForOrder(x.sale.order), start);
      }
    }

    /** The sale numbered, unless it is there already. */
    method OpenSale(x: Exchange, ghost held: map<nat, Stock.Shelf>, ghost start: Database)
      returns (taken: bool, number: nat)
      requires db.rows == start + ShelfRows(held) && db.locked != []
      modifies db`rows, db`locked
      ensures db.locked == SaleNoted(old(db.locked), x)
      ensures taken <==> OrderAt(x.sale.order) in start
      ensures number == LastNumber(Read(start, NumberOf(CounterOrders))) + 1
      ensures db.rows == start[NumberOf(CounterOrders) := Counter(number)] + ShelfRows(held)
    {
      hide ShelfRows, LastNumber, Noted;
      Beside(start, held, NumberOf(CounterOrders), Counter(LastNumber(Read(start, NumberOf(CounterOrders))) + 1));
      number := db.NextNumber(CounterOrders);
      Beside(start[NumberOf(CounterOrders) := Counter(number)], held, OrderAt(x.sale.order), Counter(0));
      var row := db.Lock(OrderAt(x.sale.order));
      taken := row.Some?;
    }

    /** The new goods off the shelves, those just put back among them. */
    method SendOut(x: Exchange, held: map<nat, Stock.Shelf>, ghost values: Values, ghost start: Database)
      returns (why: Option<Refusal>, shelves: map<nat, Stock.Shelf>, number: nat, jobs: seq<Job>)
      requires stock.db == db && held == PutBack(x, values) && db.rows == start + ShelfRows(held) && db.locked != []
      modifies db`rows, db`locked
      ensures db.locked == SaleNoted(old(db.locked), x)
      ensures why == if OrderAt(x.sale.order) in start then Some(DuplicateId)
          else SaleObjection(x, stock.policy, values)
      ensures number == LastNumber(Read(start, NumberOf(CounterOrders))) + 1
      ensures why.None? ==> shelves == GoneOut(x, values) && jobs == SaleJobs(x, values)
      ensures why.None? ==> db.rows == start[NumberOf(CounterOrders) := Counter(number)] + ShelfRows(shelves)
    {
      hide ShelfRows, InvolvedLines, PutBack, SaleObjection, GoneOut, SaleJobs, SaleNoted;
      var taken;
      taken, number := OpenSale(x, held, start);
      if taken { return Some(DuplicateId), held, number, []; }
      why, shelves, jobs := Sell(x, held, values, start[NumberOf(CounterOrders) := Counter(number)]);
    }
  }

  lemma NoneRestocked(lines: seq<Stock.Line>)
    ensures Restocked(lines, []) == []
  {
  }

  // ---- The money ----------------------------------------------------------------------

  /** The coupon's row as the sale leaves it is the same read either way. */
  lemma CouponsAsRead(x: Exchange, policy: Stock.Policy, worth: nat, db: Database, rows: Database, after: Database)
    requires x.sale.coupon.Some? ==> CouponNow(rows, x.sale.coupon.value) == CouponNow(db, x.sale.coupon.value)
    requires if x.sale.coupon.None? then after == rows
             else
               && CouponVerdict(CouponNow(rows, x.sale.coupon.value), x.sale.order, x.sale.customer).None?
               && after == rows[CouponAt(x.sale.coupon.value) :=
                    ACoupon(Coupons.Redeem(CouponNow(rows, x.sale.coupon.value).value, x.sale.order,
                        x.sale.customer).coupon)]
    ensures after == rows + CouponRows(SaleOf(x, worth), Reading(x, policy, db))
  {
    hide Reading, Coupons.Redeem, CouponNow;
    ReadsRows(x, policy, db);
    if x.sale.coupon.Some? {
      var row := ACoupon(Coupons.Redeem(CouponNow(db, x.sale.coupon.value).value, x.sale.order,
          x.sale.customer).coupon);
      assert CouponRows(SaleOf(x, worth), Reading(x, policy, db)) == map[CouponAt(x.sale.coupon.value) := row];
    }
  }

  lemma DrawerAfter(x: Exchange, policy: Stock.Policy, worth: nat, db: Database, rows: Database, now: Database)
    requires AccountNow(rows, x.drawer) == AccountNow(db, x.drawer)
    requires now == rows + AccountRows(PaidIn(x, worth, Reading(x, policy, db)))
    ensures var accounts := PaidIn(x, worth, Reading(x, policy, db));
      AccountIn(Read(now, AccountAt(x.drawer))) == if x.drawer in accounts then Some(accounts[x.drawer]) else None
  {
    hide Banked, Tenders, Reading, AccountRows, AccountNow;
    ReadsTenders(x, policy, db, worth);
    PostedAccount(rows, PaidIn(x, worth, Reading(x, policy, db)), x.drawer);
    LockedIsHeld(now, x.drawer);
  }

  lemma RefundPosted(x: Exchange, worth: nat, values: Values, rows: Database, now: Database)
    requires worth > 0 && x.drawer in PaidIn(x, worth, values) && now == rows + AccountRows(PaidIn(x, worth, values))
    ensures var drawer := PaidIn(x, worth, values)[x.drawer];
      now[AccountAt(x.drawer) :=
          AnAccount(Money.Post(drawer, Money.Refund, -(worth as int), Money.OfReturn(x.returned)))] ==
      rows + AccountRows(PaidOut(x, worth, values))
  {
    hide PaidIn, Money.Post;
    var drawer := PaidIn(x, worth, values)[x.drawer];
    AccountRowsAgain(rows, PaidIn(x, worth, values), x.drawer,
                     Money.Post(drawer, Money.Refund, -(worth as int), Money.OfReturn(x.returned)));
  }

  class ExchangesService {
    const db: Store
    const goods: ReturnsService
    const orders: OrderService

    constructor (db: Store, goods: ReturnsService, orders: OrderService)
      ensures this.db == db && this.goods == goods && this.orders == orders
    {
      this.db, this.goods, this.orders := db, goods, orders;
    }

    predicate OneStore() {
      goods.db == db && orders.db == db && goods.stock == orders.stock && orders.OneStore()
    }

    /** So much paid out of an account, if it is there to pay. */
    method PayOut(id: nat, amount: nat, cause: Money.Cause) returns (why: Option<Refusal>)
      requires OneStore() && db.locked != []
      modifies db`rows, db`locked
      ensures db.locked == Noted(old(db.locked), AccountAt(id))
      ensures why == Objection(AccountIn(Read(old(db.rows), AccountAt(id))), -(amount as int))
      ensures why.None? ==>
        && AccountIn(Read(old(db.rows), AccountAt(id))).Some?
        && db.rows == old(db.rows)[AccountAt(id) :=
             AnAccount(Money.Post(AccountIn(Read(old(db.rows), AccountAt(id))).value, Money.Refund, -(amount as int),
                 cause))]
    {
      hide Objection, Money.Post;
      var account := db.LockAccount(id);
      why := orders.till.cash.Check(account, -(amount as int));
      if why.Some? { return; }
      ObjectionNone(account, -(amount as int));
      db.Apply(id, account.value, Money.Refund, -(amount as int), cause);
    }

    /** What came back is refunded from the drawer, once the sale is paid for. */
    method Refund(x: Exchange, worth: nat, ghost saved: Database, ghost rows: Database) returns (why: Option<Refusal>)
      requires OneStore() && AccountNow(rows, x.drawer) == AccountNow(saved, x.drawer) && db.locked != []
      requires db.rows == rows + AccountRows(PaidIn(x, worth, Reading(x, orders.stock.policy, saved)))
      modifies db`rows, db`locked
      ensures db.locked == if worth == 0 then old(db.locked) else Noted(old(db.locked), AccountAt(x.drawer))
      ensures var values := Reading(x, orders.stock.policy, saved);
        && why == RefundObjection(x, worth, values)
        && (why.None? ==> db.rows == rows + AccountRows(PaidOut(x, worth, values)))
    {
      hide PaidIn, PaidOut, RefundObjection, AccountRows, Reading, AccountNow, Objection, Money.Post, OneStore;
      ghost var values := Reading(x, orders.stock.policy, saved);
      NothingToRefund(x, values);
      if worth == 0 { return None; }
      DrawerAfter(x, orders.stock.policy, worth, saved, rows, db.rows);
      RefundAsked(x, worth, values, AccountIn(Read(db.rows, AccountAt(x.drawer))));
      ghost var paid := db.rows;
      why := PayOut(x.drawer, worth, Money.OfReturn(x.returned));
      if why.None? {
        RefundPosted(x, worth, values, rows, paid);
      }
    }

    /** The coupon's use, the tenders -- what came back first among them -- and the refund. */
    method Pay(x: Exchange, worth: nat, ghost saved: Database, ghost rows: Database) returns (why: Option<Refusal>)
      requires OneStore() && db.rows == rows && db.locked != []
      requires x.sale.coupon.Some? ==> CouponNow(rows, x.sale.coupon.value) == CouponNow(saved, x.sale.coupon.value)
      requires forall id :: AccountNow(rows, id) == AccountNow(saved, id)
      requires SaleObjection(x, orders.stock.policy, Reading(x, orders.stock.policy, saved)).None?
      modifies db`rows, db`locked
      ensures MoneyNoted(old(db.locked), db.locked, x, worth) && db.locked != []
      ensures why == SellStops(x, orders.stock.policy, worth, Reading(x, orders.stock.policy, saved), saved)
      ensures why.None? ==>
        db.rows == rows + CouponRows(SaleOf(x, worth), Reading(x, orders.stock.policy, saved)) +
                   AccountRows(PaidOut(x, worth, Reading(x, orders.stock.policy, saved)))
    {
      hide PaidIn, PaidOut, AccountRows, Reading, AccountNow, HeldAccounts, CouponNow, TenderRefused, TenderSum,
           Tenders, Counted, CouponVerdict, CouponRows, SaleObjection, RefundObjection, Coupons.Redeem, Payees, Noted,
           NotedAll, PartNoted, WithKey, TenderKeys, MoneyKeys, MoneyNoted, CouponKey;
      ghost var values, before := Reading(x, orders.stock.policy, saved), db.locked;
      CouponTaken(before, x, worth);
      why := orders.UseCoupon(x.sale);
      if why.Some? { return; }
      CouponsAsRead(x, orders.stock.policy, worth, saved, rows, db.rows);
      ghost var redeemed := db.rows;
      AccountsUnmoved(x, worth, values, rows, saved);
      var tenders, sum := orders.CountTenders([Tender(x.drawer, Credit(x, worth))] + x.sale.tenders);
      SaleTenders(x, worth, tenders);
      TenderRefusedAlike(redeemed, saved, tenders);
      HeldAccountsAlike(redeemed, saved, Tills(x, worth));
      why := orders.till.TakeTenders(tenders, x.sale.order, Tills(x, worth));
      TendersTaken(before, db.locked, x, worth);
      if why.Some? { return; }
      PaidAsRead(x, orders.stock.policy, worth, saved, tenders);
      if sum < x.sale.total { return Some(Underpaid); }
      if sum > x.sale.total { return Some(Overpaid); }
      RefundTaken(before, x, worth);
      why := Refund(x, worth, saved, redeemed);
    }

    /** The goods one way, the goods the other, and the money. */
    method Swap(x: Exchange, o: Order, held: map<nat, Stock.Shelf>, worth: nat, ghost saved: Database)
      returns (why: Option<Refusal>, counted: seq<nat>, number: nat, jobs: seq<Job>)
      requires OneStore() && o.lines == x.lines && db.locked != []
      requires held == Shelves(x, Reading(x, orders.stock.policy, saved)) && db.rows == saved + ShelfRows(held)
      modifies db`rows, db`locked
      ensures SwapNoted(old(db.locked), db.locked, x, worth) && db.locked != []
      ensures why == if ReturnAt(x.returned) in saved then Some(DuplicateId)
                     else if CountedBack(o.lines, o.returned, x.back).None? then Some(NotReturnable)
                     else if OrderAt(x.sale.order) in saved then Some(DuplicateId)
                     else SellStops(x, orders.stock.policy, worth, Reading(x, orders.stock.policy, saved), saved)
      ensures why.None? ==>
        var values := Reading(x, orders.stock.policy, saved);
        && counted == CountedBack(o.lines, o.returned, x.back).value
        && number == LastNumber(Read(saved, NumberOf(CounterOrders))) + 1
        && jobs == BackJobs(x, values) + SaleJobs(x, values)
        && db.rows == Stocked(x, values, saved) + CouponRows(SaleOf(x, worth), values) +
            AccountRows(PaidOut(x, worth, values))
    {
      hide Reading, InvolvedLines, ShelfRows, AccountRows, CouponRows, GoneOut, PaidOut, PutBack, Shelves,
           CountedBack, SellStops, SaleObjection, BackJobs, SaleJobs, OneStore, AccountNow, CouponNow, Stocked,
           LastNumber, MoneyNoted, Noted;
      ghost var values := Reading(x, orders.stock.policy, saved);
      AllOneStore();
      var shelves, back;
      number, jobs := 0, [];
      why, counted, shelves, back := goods.BringBack(x, o, held, values, saved);
      if why.Some? { return; }
      why, shelves, number, jobs := goods.SendOut(x, shelves, values, WithReturn(saved));
      NumbersApart(x, saved);
      StoppedShort(x, orders.stock.policy, worth, values, saved);
      if why.Some? { return; }
      StockedIs(x, values, saved, number, shelves);
      HeldAside(x, values, saved);
      why := Pay(x, worth, saved, db.rows);
      jobs := back + jobs;
    }

    /** Every shelf it touches locked, and then the order the goods come back from. */
    method Find(x: Exchange) returns (held: map<nat, Stock.Shelf>, row: Option<Order>)
      requires OneStore() && db.locked == [ExchangeAt(x.token)] && db.rows == db.next
      modifies db`rows, db`locked
      ensures held == HeldShelves(db.next, Stock.Touched(InvolvedLines(x))) && db.rows == db.next + ShelfRows(held)
      ensures row == OrderIn(Read(db.next, OrderAt(x.original))) && db.locked != []
      ensures db.locked == GoodsFound(x, db.next)
    {
      hide HeldShelves, NotedAll, Noted, ShelfOrder, ShelfKeys, InvolvedLines, Stock.Touched, PassingDrawer;
      AllOneStore();
      ExchangeSteps(x, db.next);
      held := orders.stock.Lock(InvolvedLines(x));
      var found := db.Lock(OrderAt(x.original));
      row := OrderIn(found);
    }

    /** The goods and the money of a return nothing is against, and what becomes of its papers. */
    method Complete(x: Exchange, o: Order, held: map<nat, Stock.Shelf>) returns (answer: Answer)
      requires OneStore() && ExchangeAt(x.token) !in db.next
      requires OrderIn(Read(db.next, OrderAt(x.original))) == Some(o) && o.lines == x.lines
      requires ReturnObjection(x, o).None?
      requires held == HeldShelves(db.next, Stock.Touched(InvolvedLines(x))) && db.rows == db.next + ShelfRows(held)
      requires db.locked == GoodsFound(x, db.next) && db.locked != []
      modifies db`rows, db`locked
      ensures Does(ExchangeRecipe(x, orders.stock.policy), db.next, db.rows, answer)
      ensures PassingDrawer(db.locked, x, db.next)
    {
      hide ExchangeRecipe, Effect, Ends, Leaves, Reading, InvolvedLines, ShelfRows, AccountRows, CouponRows, PaidOut,
           Shelves, HeldShelves, ReturnObjection, CountedBack, SellStops, Worth, BackJobs, SaleJobs, Stocked,
           OneStore, NotedAll, Noted, PassingDrawer, SwapNoted, ShelfKeys, AsReturned, OrderWith, SaleOf, ShelfOrder,
           Stock.Touched, ShelfNow, WithReturn, GoodsFound;
      ghost var policy := orders.stock.policy;
      AllOneStore();
      DoesEither(ExchangeRecipe(x, policy), db.next);
      ExchangeStopsAsRead(x, policy, db.next);
      ReadsShelves(x, policy, db.next);
      var worth := Worth(x, o);
      var why, counted, number, jobs := Swap(x, o, held, worth, db.next);
      SwapInStep(x, worth, db.next, db.locked);
      if why.Some? {
        db.Rollback();
        return Refused(why.value);
      }
      ExchangeLeaves(x, policy, db.next, o);
      var made := Exchanged(x.sale.order, x.returned);
      db.rows := db.rows[OrderAt(x.original) := AnOrder(AsReturned(x, o, counted, worth))]
                        [ReturnAt(x.returned) := AReturn(Return(x.original, x.drawer, worth))]
                        [OrderAt(x.sale.order) := AnOrder(OrderWith(SaleOf(x, worth), number, jobs))]
                        [ExchangeAt(x.token) := Claimed(made)];
      answer := Made(made);
    }

    /** Any press of one exchange: the first makes it, the others are told what it made. */
    method Create(x: Exchange) returns (answer: Answer)
      requires OneStore() && db.locked == []
      modifies db
      ensures Does(ExchangeRecipe(x, orders.stock.policy), db.next, db.rows, answer)
      ensures PassingDrawer(db.locked, x, db.next)
    {
      hide ExchangeRecipe, Effect, Ends, Leaves, Reading, InvolvedLines, ShelfRows, AccountRows, CouponRows, PaidOut,
           Shelves, HeldShelves, ReturnObjection, CountedBack, SellStops, Worth, BackJobs, SaleJobs, Stocked,
           OneStore, NotedAll, Noted, PassingDrawer, SwapNoted, ShelfKeys, AsReturned, OrderWith, SaleOf, ShelfOrder,
           Stock.Touched, ShelfNow, WithReturn, GoodsFound;
      ghost var policy := orders.stock.policy;
      AllOneStore();
      DoesEither(ExchangeRecipe(x, policy), db.next);
      ExchangeStopsAsRead(x, policy, db.next);
      ExchangeSteps(x, db.next);
      var press := db.Lock(ExchangeAt(x.token));
      if press.Some? { return Retold(press.value); }
      var held, row := Find(x);
      if row.None? || row.value.lines != x.lines {
        db.Rollback();
        return Refused(NoSuchOrder);
      }
      var fault := ReturnObjection(x, row.value);
      if fault.Some? {
        db.Rollback();
        return Refused(fault.value);
      }
      answer := Complete(x, row.value, held);
    }

    lemma AllOneStore()
      requires OneStore()
      ensures goods.db == db && orders.db == db && goods.stock == orders.stock && orders.OneStore()
    {
    }
  }

  // ---- The rows an exchange locks, in turn ----------------------------------------------

  function ReturnNoted(locked: seq<Key>, x: Exchange): seq<Key> {
    Noted(Noted(locked, NumberOf(Returns)), ReturnAt(x.returned))
  }

  function SaleNoted(locked: seq<Key>, x: Exchange): seq<Key> {
    Noted(Noted(locked, NumberOf(CounterOrders)), OrderAt(x.sale.order))
  }

  function MoneyKeys(x: Exchange, worth: nat): seq<Key> {
    CouponKeys(x.sale.coupon) + TenderKeys(Tenders(SaleOf(x, worth)))
  }

  /** The coupon and the accounts paid into, in turn; and then the drawer, once the sale is paid. */
  ghost predicate MoneyNoted(before: seq<Key>, locked: seq<Key>, x: Exchange, worth: nat) {
    || PartNoted(before, locked, MoneyKeys(x, worth))
    || (worth > 0 && TenderSum(Tenders(SaleOf(x, worth))) == x.sale.total &&
        locked == Noted(NotedAll(before, MoneyKeys(x, worth)), AccountAt(x.drawer)))
  }

  ghost predicate SwapNoted(before: seq<Key>, locked: seq<Key>, x: Exchange, worth: nat) {
    || locked == ReturnNoted(before, x)
    || locked == SaleNoted(ReturnNoted(before, x), x)
    || MoneyNoted(SaleNoted(ReturnNoted(before, x), x), locked, x, worth)
  }

  /** What an exchange locks before its coupon. */
  function GoodsKeys(x: Exchange, db: Database): seq<Key> {
    [ExchangeAt(x.token)] + ShelfKeys(ShelfOrder(InvolvedLines(x), db)) +
    [OrderAt(x.original), NumberOf(Returns), ReturnAt(x.returned), NumberOf(CounterOrders), OrderAt(x.sale.order)]
  }

  /** The recipe's rows in its order, as far as it got; its drawer passed over, if there is nothing
      to pay into it. */
  ghost predicate PassingDrawer(locked: seq<Key>, x: Exchange, db: Database) {
    exists done: seq<Key> ::
      locked == NotedAll([], done) &&
      (done <= ExchangeKeysOn(x, db) ||
          done <= GoodsKeys(x, db) + CouponKeys(x.sale.coupon) + TenderKeys(Counted(x.sale.tenders)))
  }

  lemma DoneIs(x: Exchange, db: Database, done: seq<Key>)
    requires done <= ExchangeKeysOn(x, db) ||
        done <= GoodsKeys(x, db) + CouponKeys(x.sale.coupon) + TenderKeys(Counted(x.sale.tenders))
    ensures PassingDrawer(NotedAll([], done), x, db)
  {
  }

  lemma CouponTaken(before: seq<Key>, x: Exchange, worth: nat)
    ensures WithKey(before, CouponKey(x.sale)) == NotedAll(before, CouponKeys(x.sale.coupon))
    ensures MoneyNoted(before, WithKey(before, CouponKey(x.sale)), x, worth)
  {
    hide Noted, NotedAll, PartNoted;
    NoneNoted(before);
    if x.sale.coupon.Some? {
      NotedNext(before, [], CouponAt(x.sale.coupon.value));
      assert [] + CouponKeys(x.sale.coupon) == CouponKeys(x.sale.coupon);
    }
    PartIs(before, CouponKeys(x.sale.coupon), MoneyKeys(x, worth));
  }

  lemma TendersTaken(before: seq<Key>, locked: seq<Key>, x: Exchange, worth: nat)
    requires PartNoted(NotedAll(before, CouponKeys(x.sale.coupon)), locked, TenderKeys(Tenders(SaleOf(x, worth))))
    ensures MoneyNoted(before, locked, x, worth)
  {
    hide Noted, NotedAll, CouponKeys, TenderKeys, Tenders;
    var coupon, tenders := CouponKeys(x.sale.coupon), TenderKeys(Tenders(SaleOf(x, worth)));
    var part: seq<Key> :| part <= tenders && locked == NotedAll(NotedAll(before, coupon), part);
    NotedJoin(before, coupon, part);
    assert coupon + part <= coupon + tenders;
  }

  lemma RefundTaken(before: seq<Key>, x: Exchange, worth: nat)
    ensures NotedAll(NotedAll(before, CouponKeys(x.sale.coupon)), TenderKeys(Tenders(SaleOf(x, worth)))) ==
            NotedAll(before, MoneyKeys(x, worth))
    ensures worth > 0 && TenderSum(Tenders(SaleOf(x, worth))) == x.sale.total ==>
            MoneyNoted(before, Noted(NotedAll(before, MoneyKeys(x, worth)), AccountAt(x.drawer)), x, worth)
  {
    NotedJoin(before, CouponKeys(x.sale.coupon), TenderKeys(Tenders(SaleOf(x, worth))));
  }

  /** What it has locked once it has found the order the goods come back from. */
  function GoodsFound(x: Exchange, db: Database): seq<Key> {
    NotedAll([], [ExchangeAt(x.token)] + ShelfKeys(ShelfOrder(InvolvedLines(x), db)) + [OrderAt(x.original)])
  }

  lemma ExchangeSteps(x: Exchange, db: Database)
    ensures var first, shelves := [ExchangeAt(x.token)], ShelfKeys(ShelfOrder(InvolvedLines(x), db));
      && PassingDrawer(first, x, db) && PassingDrawer(GoodsFound(x, db), x, db)
      && Noted(NotedAll(first, shelves), OrderAt(x.original)) == GoodsFound(x, db)
  {
    hide Noted, NotedAll, PassingDrawer, ShelfKeys, ShelfOrder, InvolvedLines, CouponKeys, TenderKeys, Counted;
    var first, shelves := [ExchangeAt(x.token)], ShelfKeys(ShelfOrder(InvolvedLines(x), db));
    NotedFirst(ExchangeAt(x.token));
    NotedJoin([], first, shelves);
    NotedNext([], first + shelves, OrderAt(x.original));
    DoneIs(x, db, first);
    DoneIs(x, db, first + shelves + [OrderAt(x.original)]);
  }

  lemma SwapInStep(x: Exchange, worth: nat, db: Database, locked: seq<Key>)
    requires SwapNoted(GoodsFound(x, db), locked, x, worth)
    ensures PassingDrawer(locked, x, db)
  {
    hide Noted, NotedAll, PassingDrawer, ShelfKeys, ShelfOrder, InvolvedLines, CouponKeys, TenderKeys, Counted,
         MoneyNoted;
    var done := [ExchangeAt(x.token)] + ShelfKeys(ShelfOrder(InvolvedLines(x), db)) + [OrderAt(x.original)];
    var returned := done + [NumberOf(Returns)] + [ReturnAt(x.returned)];
    NotedNext([], done, NumberOf(Returns));
    NotedNext([], done + [NumberOf(Returns)], ReturnAt(x.returned));
    NotedNext([], returned, NumberOf(CounterOrders));
    NotedNext([], returned + [NumberOf(CounterOrders)], OrderAt(x.sale.order));
    assert returned + [NumberOf(CounterOrders)] + [OrderAt(x.sale.order)] == GoodsKeys(x, db);
    DoneIs(x, db, returned);
    DoneIs(x, db, GoodsKeys(x, db));
    if MoneyNoted(NotedAll([], GoodsKeys(x, db)), locked, x, worth) {
      MoneyInStep(x, worth, db, locked);
    }
  }

  lemma MoneyInStep(x: Exchange, worth: nat, db: Database, locked: seq<Key>)
    requires MoneyNoted(NotedAll([], GoodsKeys(x, db)), locked, x, worth)
    ensures PassingDrawer(locked, x, db)
  {
    hide Noted, NotedAll, PassingDrawer, CouponKeys, TenderKeys, Counted, GoodsKeys, Tenders, TenderSum;
    var goods, money := GoodsKeys(x, db), MoneyKeys(x, worth);
    MoneyIsLast(x, worth, db);
    NotedJoin([], goods, money);
    if part: seq<Key> :| part <= money && locked == NotedAll(NotedAll([], goods), part) {
      NotedJoin([], goods, part);
      assert goods + part <= goods + money;
      DoneIs(x, db, goods + part);
    } else if Credit(x, worth) > 0 {
      NotedHas([], goods + money, AccountAt(x.drawer));
      NotedInAlready(goods + money, AccountAt(x.drawer));
      DoneIs(x, db, goods + money);
    } else {
      NothingTendered(x, worth, db);
      NotedNext([], goods + money, AccountAt(x.drawer));
      DoneIs(x, db, goods + money + [AccountAt(x.drawer)]);
    }
  }

  lemma NotedInAlready(done: seq<Key>, k: Key)
    requires k in NotedAll([], done)
    ensures Noted(NotedAll([], done), k) == NotedAll([], done)
  {
  }

  /** The tenders of the sale: what came back first, if it is worth anything to it. */
  lemma TendersOf(x: Exchange, worth: nat)
    ensures TenderKeys(Tenders(SaleOf(x, worth))) ==
            (if Credit(x, worth) > 0 then [AccountAt(x.drawer)] else []) + TenderKeys(Counted(x.sale.tenders))
  {
    var credit := Tender(x.drawer, Credit(x, worth));
    assert ([credit] + x.sale.tenders)[1..] == x.sale.tenders;
    if credit.amount > 0 {
      assert TenderKeys([credit] + Counted(x.sale.tenders)) ==
          [AccountAt(x.drawer)] + TenderKeys(Counted(x.sale.tenders));
    } else {
      assert [] + Counted(x.sale.tenders) == Counted(x.sale.tenders);
    }
  }

  lemma ExchangeKeysEnd(x: Exchange, db: Database)
    ensures ExchangeKeysOn(x, db) ==
        GoodsKeys(x, db) + (CouponKeys(x.sale.coupon) + ([AccountAt(x.drawer)] + TenderKeys(Counted(x.sale.tenders))))
  {
    hide ShelfOrder, InvolvedLines, ShelfKeys, CouponKeys, TenderKeys, Counted;
  }

  lemma MoneyIsLast(x: Exchange, worth: nat, db: Database)
    ensures var whole := GoodsKeys(x, db) + MoneyKeys(x, worth);
      if Credit(x, worth) > 0 then whole == ExchangeKeysOn(x, db) && AccountAt(x.drawer) in whole
      else whole == GoodsKeys(x, db) + CouponKeys(x.sale.coupon) + TenderKeys(Counted(x.sale.tenders))
  {
    hide GoodsKeys, CouponKeys, TenderKeys, Counted, Tenders, Credit, ExchangeKeysOn;
    TendersOf(x, worth);
    ExchangeKeysEnd(x, db);
    var tenders := TenderKeys(Counted(x.sale.tenders));
    assert [] + tenders == tenders;
    assert AccountAt(x.drawer) in [AccountAt(x.drawer)] + tenders;
    assert GoodsKeys(x, db) + (CouponKeys(x.sale.coupon) + tenders) ==
        GoodsKeys(x, db) + CouponKeys(x.sale.coupon) + tenders;
  }

  lemma {:induction false} SomethingCounted(tenders: seq<Tender>)
    requires TenderSum(Counted(tenders)) == 0
    ensures Counted(tenders) == []
  {
    if tenders != [] {
      CountedFirst(tenders);
      SomethingCounted(tenders[1..]);
    }
  }

  /** Goods worth something, and a sale that comes to nothing: there is no tender to it. */
  lemma NothingTendered(x: Exchange, worth: nat, db: Database)
    requires worth > 0 && Credit(x, worth) == 0 && TenderSum(Tenders(SaleOf(x, worth))) == x.sale.total
    ensures GoodsKeys(x, db) + MoneyKeys(x, worth) + [AccountAt(x.drawer)] <= ExchangeKeysOn(x, db)
  {
    hide ShelfOrder, InvolvedLines, ShelfKeys, CouponKeys, TenderSum, Counted;
    SomethingCounted([Tender(x.drawer, Credit(x, worth))] + x.sale.tenders);
    assert MoneyKeys(x, worth) == CouponKeys(x.sale.coupon);
  }

  /** The original order as the goods coming back leave it. */
  function AsReturned(x: Exchange, o: Order, counted: seq<nat>, worth: nat): Order {
    var status := if o.status.Delivered? || o.status.Shipped? then ReturnRequested else o.status;
    o.(returned := counted, refunded := o.refunded + worth,
       status := if status.ReturnRequested? && AllReturned(o.lines, counted) then Shop.Refunded else status)
  }

  function WithReturn(db: Database): Database {
    db[NumberOf(Returns) := Counter(LastNumber(Read(db, NumberOf(Returns))) + 1)]
  }

  function WithNumbers(db: Database): Database {
    WithReturn(db)[NumberOf(CounterOrders) := Counter(LastNumber(Read(db, NumberOf(CounterOrders))) + 1)]
  }

  function Stocked(x: Exchange, values: Values, db: Database): Database {
    WithNumbers(db) + ShelfRows(GoneOut(x, values))
  }

  lemma StockedIs(x: Exchange, values: Values, db: Database, number: nat, shelves: map<nat, Stock.Shelf>)
    requires number == LastNumber(Read(db, NumberOf(CounterOrders))) + 1 && shelves == GoneOut(x, values)
    ensures WithReturn(db)[NumberOf(CounterOrders) := Counter(number)] + ShelfRows(shelves) == Stocked(x, values, db)
  {
    hide ShelfRows, GoneOut;
  }

  lemma NumbersApart(x: Exchange, db: Database)
    ensures Read(WithReturn(db), NumberOf(CounterOrders)) == Read(db, NumberOf(CounterOrders))
    ensures OrderAt(x.sale.order) in WithReturn(db) <==> OrderAt(x.sale.order) in db
  {
  }

  lemma HeldAside(x: Exchange, values: Values, db: Database)
    ensures x.sale.coupon.Some? ==>
        CouponNow(Stocked(x, values, db), x.sale.coupon.value) == CouponNow(db, x.sale.coupon.value)
    ensures forall id :: AccountNow(Stocked(x, values, db), id) == AccountNow(db, id)
  {
    hide GoneOut;
    forall id ensures AccountNow(Stocked(x, values, db), id) == AccountNow(db, id) {
      AccountAside(x, values, db, id);
    }
  }

  lemma AccountAside(x: Exchange, values: Values, db: Database, id: nat)
    ensures Read(Stocked(x, values, db), AccountAt(id)) == Read(db, AccountAt(id))
  {
    hide GoneOut;
  }

  lemma StoppedShort(x: Exchange, policy: Stock.Policy, worth: nat, values: Values, db: Database)
    ensures SaleObjection(x, policy, values).Some? ==>
        SellStops(x, policy, worth, values, db) == SaleObjection(x, policy, values)
  {
  }

  function ExchangeRows(x: Exchange, values: Values, o: Order, db: Database): Database {
    var worth := Worth(x, o);
    (Stocked(x, values, db) + CouponRows(SaleOf(x, worth), values) + AccountRows(PaidOut(x, worth, values)))
      [OrderAt(x.original) := AnOrder(ReturnedOrder(x, o))]
      [ReturnAt(x.returned) := AReturn(Return(x.original, x.drawer, worth))]
      [OrderAt(x.sale.order) := AnOrder(SaleMade(x, worth, values))]
      [ExchangeAt(x.token) := Claimed(Exchanged(x.sale.order, x.returned))]
  }

  /** The six rows besides: the original order, the return, the sale, the key and the two numbers. */
  datatype Papers = Papers(original: Order, worth: nat, sale: Order, returnNumber: nat, saleNumber: nat)

  function InTurn(x: Exchange, db: Database, shelves: Database, coupons: Database, accounts: Database,
      p: Papers): Database {
    (db[NumberOf(Returns) := Counter(p.returnNumber)][NumberOf(CounterOrders) := Counter(p.saleNumber)] + shelves +
        coupons + accounts)
      [OrderAt(x.original) := AnOrder(p.original)]
      [ReturnAt(x.returned) := AReturn(Return(x.original, x.drawer, p.worth))]
      [OrderAt(x.sale.order) := AnOrder(p.sale)]
      [ExchangeAt(x.token) := Claimed(Exchanged(x.sale.order, x.returned))]
  }

  function AtOnce(x: Exchange, shelves: Database, coupons: Database, accounts: Database, p: Papers): Database {
    (shelves + accounts + coupons)
      [OrderAt(x.original) := AnOrder(p.original)]
      [NumberOf(Returns) := Counter(p.returnNumber)]
      [ReturnAt(x.returned) := AReturn(Return(x.original, x.drawer, p.worth))]
      [NumberOf(CounterOrders) := Counter(p.saleNumber)]
      [OrderAt(x.sale.order) := AnOrder(p.sale)]
      [ExchangeAt(x.token) := Claimed(Exchanged(x.sale.order, x.returned))]
  }

  lemma PaperInTurn(x: Exchange, db: Database, shelves: Database, coupons: Database, accounts: Database, p: Papers,
      k: Key)
    requires (k in shelves ==> k.ShelfAt?) && (k in coupons ==> k.CouponAt?) && (k in accounts ==> k.AccountAt?)
    ensures Read(InTurn(x, db, shelves, coupons, accounts, p), k) ==
        Read(db + AtOnce(x, shelves, coupons, accounts, p), k)
  {
  }

  lemma PapersInTurn(x: Exchange, db: Database, shelves: Database, coupons: Database, accounts: Database, p: Papers)
    requires forall k ::
        (k in shelves ==> k.ShelfAt?) && (k in coupons ==> k.CouponAt?) && (k in accounts ==> k.AccountAt?)
    ensures InTurn(x, db, shelves, coupons, accounts, p) == db + AtOnce(x, shelves, coupons, accounts, p)
  {
    hide InTurn, AtOnce;
    forall k ensures Read(InTurn(x, db, shelves, coupons, accounts, p), k) ==
        Read(db + AtOnce(x, shelves, coupons, accounts, p), k) {
      PaperInTurn(x, db, shelves, coupons, accounts, p, k);
    }
    SameRows(InTurn(x, db, shelves, coupons, accounts, p), db + AtOnce(x, shelves, coupons, accounts, p));
  }

  function PapersOf(x: Exchange, values: Values, o: Order, db: Database): Papers {
    Papers(ReturnedOrder(x, o), Worth(x, o), SaleMade(x, Worth(x, o), values),
           LastNumber(Read(db, NumberOf(Returns))) + 1, LastNumber(Read(db, NumberOf(CounterOrders))) + 1)
  }

  lemma ExchangeWrote(x: Exchange, policy: Stock.Policy, db: Database, o: Order)
    requires OrderIn(Read(db, OrderAt(x.original))) == Some(o)
    ensures var values, worth := Reading(x, policy, db), Worth(x, o);
      ExchangeWrites(x, values) ==
        (AtOnce(x, ShelfRows(GoneOut(x, values)), CouponRows(SaleOf(x, worth), values),
            AccountRows(PaidOut(x, worth, values)),
                PapersOf(x, values, o, db)),
         Made(Exchanged(x.sale.order, x.returned)))
  {
    hide Reading, InvolvedLines, ShelfRows, AccountRows, CouponRows, GoneOut, PaidOut, JobsMade, ReturnedOrder, Worth;
    ReadsRows(x, policy, db);
  }

  lemma ExchangeLeavesRows(x: Exchange, policy: Stock.Policy, db: Database, o: Order)
    requires OrderIn(Read(db, OrderAt(x.original))) == Some(o)
    ensures Leaves(ExchangeRecipe(x, policy), db) ==
            (ExchangeRows(x, Reading(x, policy, db), o, db), Made(Exchanged(x.sale.order, x.returned)))
  {
    hide Snapshot, Keys, ShelfRows, AccountRows, CouponRows, GoneOut, PaidOut, ReturnedOrder, SaleMade, Worth,
         ExchangeWrites, ExchangeKeys;
    var values, worth := Reading(x, policy, db), Worth(x, o);
    ExchangeWrote(x, policy, db, o);
    var shelves, coupons, accounts :=
        ShelfRows(GoneOut(x, values)), CouponRows(SaleOf(x, worth), values), AccountRows(PaidOut(x, worth, values));
    CouponKinds(x, worth, values);
    PapersInTurn(x, db, shelves, coupons, accounts, PapersOf(x, values, o, db));
  }

  lemma CouponKinds(x: Exchange, worth: nat, values: Values)
    ensures forall k :: k in CouponRows(SaleOf(x, worth), values) ==> k.CouponAt?
  {
  }

  lemma ExchangeLeaves(x: Exchange, policy: Stock.Policy, db: Database, o: Order)
    requires OrderIn(Read(db, OrderAt(x.original))) == Some(o) && CountedBack(o.lines, o.returned, x.back).Some?
    ensures var values, worth := Reading(x, policy, db), Worth(x, o);
      && Leaves(ExchangeRecipe(x, policy), db) ==
           (ExchangeRows(x, values, o, db), Made(Exchanged(x.sale.order, x.returned)))
      && ReturnedOrder(x, o) == AsReturned(x, o, CountedBack(o.lines, o.returned, x.back).value, worth)
      && SaleMade(x, worth, values) ==
           OrderWith(SaleOf(x, worth), LastNumber(Read(db, NumberOf(CounterOrders))) + 1,
               BackJobs(x, values) + SaleJobs(x, values))
  {
    hide ExchangeRecipe, Leaves, ExchangeRows, Reading, CountedBack, Worth, Alerts;
    ReadsRows(x, policy, db);
    ExchangeLeavesRows(x, policy, db, o);
  }

  lemma SaleTenders(x: Exchange, worth: nat, tenders: seq<Tender>)
    requires tenders == Counted([Tender(x.drawer, Credit(x, worth))] + x.sale.tenders)
    ensures tenders == Tenders(SaleOf(x, worth)) && Payees(tenders) <= Tills(x, worth)
  {
  }

  lemma AccountsUnmoved(x: Exchange, worth: nat, values: Values, rows: Database, db: Database)
    requires forall id :: AccountNow(rows, id) == AccountNow(db, id)
    ensures forall id :: AccountNow(rows + CouponRows(SaleOf(x, worth), values), id) == AccountNow(db, id)
  {
    forall id ensures AccountNow(rows + CouponRows(SaleOf(x, worth), values), id) == AccountNow(rows, id) {
    }
  }

  lemma PaidAsRead(x: Exchange, policy: Stock.Policy, worth: nat, db: Database, tenders: seq<Tender>)
    requires tenders == Tenders(SaleOf(x, worth))
    ensures PaidIn(x, worth, Reading(x, policy, db)) == Banked(HeldAccounts(db, Tills(x, worth)), tenders, x.sale.order)
  {
    hide Reading, Tenders, Banked, HeldAccounts, AccountsOf;
    ReadsTenders(x, policy, db, worth);
  }

  lemma LockedIsHeld(db: Database, id: nat)
    ensures AccountNow(db, id) == AccountIn(Read(db, AccountAt(id)))
  {
  }

  lemma NothingToRefund(x: Exchange, values: Values)
    ensures RefundObjection(x, 0, values).None? && PaidOut(x, 0, values) == PaidIn(x, 0, values)
  {
  }

  lemma RefundAsked(x: Exchange, worth: nat, values: Values, account: Option<Money.Account>)
    requires worth > 0
    requires account == if x.drawer in PaidIn(x, worth, values) then Some(PaidIn(x, worth, values)[x.drawer]) else None
    ensures RefundObjection(x, worth, values) == Objection(account, -(worth as int))
  {
    hide PaidIn;
  }
}
