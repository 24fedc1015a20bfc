/** Orders: placed online or at the counter, and moved from one status to the next. */
module Orders {
  import opened Wrappers
  import opened RowLocks
  import opened LockOrder
  import opened Recipes
  import opened Runs
  import opened Shop
  import opened Tallies
  import opened CashBook
  import opened StockRoom
  import Stock = StockLedger
  import Money = MoneyLedger
  import Coupons = CouponBook

  // ---- Placing an order ---------------------------------------------------------------

  /** As priced. An online order only promises its payment; the counter takes its tenders now. */
  datatype Purchase = Purchase(
    order: nat,
    counter: bool,
    cashOnDelivery: bool,
    lines: seq<Stock.Line>,
    coupon: Option<nat>,
    customer: Option<nat>,
    total: nat,
    tenders: seq<Tender>,
    token: Option<Token>)

  /** Tenders of nothing are passed over. */
  function Counted(tenders: seq<Tender>): seq<Tender> {
    if tenders == [] then []
    else (if tenders[0].amount > 0 then [tenders[0]] else []) + Counted(tenders[1..])
  }

  function Tenders(p: Purchase): seq<Tender> {
    if p.counter then Counted(p.tenders) else []
  }

  function TenderSum(tenders: seq<Tender>): nat {
    if tenders == [] then 0 else tenders[0].amount + TenderSum(tenders[1..])
  }

  function TenderKeys(tenders: seq<Tender>): seq<Key> {
    seq(|tenders|, i requires 0 <= i < |tenders| => AccountAt(tenders[i].account))
  }

  function CouponKeys(coupon: Option<nat>): seq<Key> {
    if coupon.Some? then [CouponAt(coupon.value)] else []
  }

  function CouponOf(values: Values, id: nat): Option<Coupons.Coupon> {
    var row := Get(values, CouponAt(id));
    if row.Some? && row.value.ACoupon? then Some(row.value.coupon) else None
  }

  // ---- Its checks, in the order they are made -----------------------------------------

  function StockObjection(policy: Stock.Policy, counter: bool, lines: seq<Stock.Line>,
      values: Values): Option<Refusal> {
    var ids, rows := Stock.Ids(lines), ShelvesOf(values, Stock.Touched(lines));
    Stock.IdsAscend(lines);
    if if counter then Stock.CanSell(policy, rows, ids, lines) else Stock.CanReserve(policy, rows, ids, lines)
    then None
    else Some(InsufficientStock)
  }

  function CouponObjection(coupon: nat, order: nat, customer: Option<nat>, values: Values): Option<Refusal> {
    match CouponOf(values, coupon)
    case None => Some(NoSuchCoupon)
    case Some(c) =>
      match Coupons.Redeem(c, order, customer)
      case Counted(_) => None
      case Exhausted => Some(CouponExhausted)
      case UsedByCustomer => Some(CouponUsed)
  }

  /** The first account, in the order they are locked, that will not take its tender. */
  function TenderObjection(tenders: seq<Tender>, values: Values): Option<Refusal> {
    if tenders == [] || AccountAt(tenders[0].account) !in values then None
    else
      var objection := Objection(AccountOf(values, tenders[0].account), tenders[0].amount);
      if objection.Some? then objection else TenderObjection(tenders[1..], values)
  }

  predicate HasAccounts(values: Values, tenders: seq<Tender>) {
    forall i :: 0 <= i < |tenders| ==> AccountAt(tenders[i].account) in values
  }

  function PurchaseObjection(p: Purchase, policy: Stock.Policy, values: Values): Option<Refusal> {
    if OrderAt(p.order) !in values then None
    else if values[OrderAt(p.order)].Some? then Some(DuplicateId)
    else if !HasShelves(values, Stock.Ids(p.lines)) then None
    else if StockObjection(policy, p.counter, p.lines, values).Some? then
      StockObjection(policy, p.counter, p.lines, values)
    else if p.coupon.Some? && CouponAt(p.coupon.value) !in values then None
    else if p.coupon.Some? && CouponObjection(p.coupon.value, p.order, p.customer, values).Some? then
      CouponObjection(p.coupon.value, p.order, p.customer, values)
    else if TenderObjection(Tenders(p), values).Some? then TenderObjection(Tenders(p), values)
    else if !HasAccounts(values, Tenders(p)) then None
    else if p.counter && TenderSum(Tenders(p)) < p.total then Some(Underpaid)
    else None
  }

  // ---- What it writes -----------------------------------------------------------------

  function StockKind(counter: bool): Stock.Movement {
    if counter then Stock.Sale else Stock.Reservation
  }

  /** The shelves as the order's lines leave them. */
  function ShelvesAfter(p: Purchase, values: Values): (rows: map<nat, Stock.Shelf>)
    ensures rows.Keys == Stock.Touched(p.lines)
  {
    Stock.Moved(ShelvesOf(values, Stock.Touched(p.lines)), p.lines, StockKind(p.counter), !p.counter,
        Stock.ForOrder(p.order))
  }

  /** A job for each line that leaves its shelf at or below its reorder point. */
  function Alerts(
      rows: map<nat, Stock.Shelf>, lines: seq<Stock.Line>, kind: Stock.Movement, inward: bool,
          reference: Stock.Reference): seq<Job>
    requires Stock.Covers(rows, lines)
  {
    if lines == [] then []
    else if lines[0].quantity == 0 then Alerts(rows, lines[1..], kind, inward, reference)
    else
      var id := lines[0].shelf;
      var shelf := Stock.Write(rows[id], kind, Stock.Signed(inward, lines[0].quantity), reference);
      (if shelf.Available() <= shelf.reorderPoint then [LowStock(id)] else []) +
      Alerts(rows[id := shelf], lines[1..], kind, inward, reference)
  }

  function JobsOf(p: Purchase, values: Values): seq<Job> {
    Alerts(ShelvesOf(values, Stock.Touched(p.lines)), p.lines, StockKind(p.counter), !p.counter,
        Stock.ForOrder(p.order)) +
    if p.counter then [] else [Notice]
  }

  /** Each tender posted to its account in turn. */
  function Banked(accounts: map<nat, Money.Account>, tenders: seq<Tender>, order: nat): (after: map<nat, Money.Account>)
    ensures after.Keys == accounts.Keys
  {
    if tenders == [] then accounts
    else if tenders[0].account !in accounts then Banked(accounts, tenders[1..], order)
    else
      var id := tenders[0].account;
      Banked(accounts[id := Money.Post(accounts[id], Money.SalePayment, tenders[0].amount, Money.OfSale(order))],
             tenders[1..], order)
  }

  function Payees(tenders: seq<Tender>): set<nat> {
    if tenders == [] then {} else {tenders[0].account} + Payees(tenders[1..])
  }

  function AccountsOf(values: Values, ids: set<nat>): map<nat, Money.Account> {
    map id | id in ids && AccountOf(values, id).Some? :: AccountOf(values, id).value
  }

  function AccountRows(accounts: map<nat, Money.Account>): (rows: Database)
    ensures forall k :: k in rows <==> k.AccountAt? && k.account in accounts
    ensures forall id :: id in accounts ==> rows[AccountAt(id)] == AnAccount(accounts[id])
  {
    map id | id in accounts :: AccountAt(id) := AnAccount(accounts[id])
  }

  function AccountsAfter(p: Purchase, values: Values): map<nat, Money.Account> {
    Banked(AccountsOf(values, Payees(Tenders(p))), Tenders(p), p.order)
  }

  /** The coupon's row as the order leaves it, if the order has one. */
  function CouponRows(p: Purchase, values: Values): Database {
    if p.coupon.None? || CouponOf(values, p.coupon.value).None? then map[]
    else
      match Coupons.Redeem(CouponOf(values, p.coupon.value).value, p.order, p.customer)
      case Counted(c) => map[CouponAt(p.coupon.value) := ACoupon(c)]
      case _ => map[]
  }

  function NumberKey(counter: bool): Key {
    NumberOf(if counter then CounterOrders else WebOrders)
  }

  function OrderWith(p: Purchase, number: nat, jobs: seq<Job>): Order {
    Order(
      number, p.counter,
      if p.counter then Delivered else if p.cashOnDelivery then Confirmed else Pending, p.counter,
      p.lines, seq(|p.lines|, _ => 0), p.coupon, Tenders(p), TenderSum(Tenders(p)), 0, jobs)
  }

  function OrderMade(p: Purchase, values: Values): Order {
    OrderWith(p, LastNumber(Get(values, NumberKey(p.counter))) + 1, JobsOf(p, values))
  }

  function PurchaseWrites(p: Purchase, values: Values): (Database, Answer) {
    var order := OrderMade(p, values);
    ((ShelfRows(ShelvesAfter(p, values)) + AccountRows(AccountsAfter(p, values)) + CouponRows(p, values))
       [NumberKey(p.counter) := Counter(order.number)]
       [OrderAt(p.order) := AnOrder(order)],
     Made(Placed(p.order)))
  }

  /** Numbered, its key claimed, then the shelves lowest id first, the coupon, and the accounts in
      the order the tenders are given. */
  function PurchaseRecipe(p: Purchase, policy: Stock.Policy): ShopRecipe {
    Recipe(
      if p.token.Some? then Some(OrderClaim(p.token.value)) else None, true,
      if p.lines == [] then Some(Refused(NoLines)) else None,
      [NumberKey(p.counter)], false, [],
      [OrderAt(p.order)] + ShelfKeys(Stock.Ids(p.lines)) + CouponKeys(p.coupon) + TenderKeys(Tenders(p)),
      (values: Values) => Refuse(PurchaseObjection(p, policy, values)),
      (values: Values) => PurchaseWrites(p, values),
      Retold, Recorded)
  }

  /** The order as it is placed on these rows: shelves that are not there are made first. */
  function PurchaseOn(p: Purchase, policy: Stock.Policy, db: Database): ShopRecipe {
    Locking(PurchaseRecipe(p, policy),
            Shelving([OrderAt(p.order)], p.lines, CouponKeys(p.coupon) + TenderKeys(Tenders(p)), db))
  }

  lemma PurchaseOnHas(p: Purchase, policy: Stock.Policy, db: Database, k: Key)
    ensures k in PurchaseOn(p, policy, db).after <==> k in PurchaseRecipe(p, policy).after
  {
    hide ShelfKeys, Stock.Ids, Tenders, TenderKeys, CouponKeys, Shelving;
    ShelvingHas([OrderAt(p.order)], p.lines, CouponKeys(p.coupon) + TenderKeys(Tenders(p)), db, k);
  }

  // ---- It is well made ----------------------------------------------------------------

  lemma {:induction false} TenderFirm(tenders: seq<Tender>, some: Values, more: Values)
    requires Grows(some, more)
    ensures TenderObjection(tenders, some).Some? ==> TenderObjection(tenders, more) == TenderObjection(tenders, some)
  {
    if tenders != [] {
      TenderFirm(tenders[1..], some, more);
    }
  }

  lemma {:induction false} SameAccounts(tenders: seq<Tender>, some: Values, more: Values)
    requires Grows(some, more) && HasAccounts(some, tenders)
    ensures TenderObjection(tenders, more) == TenderObjection(tenders, some)
  {
    if tenders != [] {
      assert forall i :: 0 <= i < |tenders[1..]| ==> tenders[1..][i] == tenders[i + 1];
      SameAccounts(tenders[1..], some, more);
    }
  }

  lemma ShelfRead(lines: seq<Stock.Line>, values: Values, id: nat)
    requires HasShelves(values, Stock.Ids(lines)) && id in Stock.Touched(lines)
    ensures ShelfAt(id) in values
  {
    Stock.IdsAscend(lines);
    var i :| 0 <= i < |Stock.Ids(lines)| && Stock.Ids(lines)[i] == id;
  }

  lemma SameShelves(policy: Stock.Policy, counter: bool, lines: seq<Stock.Line>, some: Values, more: Values)
    requires Grows(some, more) && HasShelves(some, Stock.Ids(lines))
    ensures StockObjection(policy, counter, lines, some) == StockObjection(policy, counter, lines, more)
    ensures HasShelves(more, Stock.Ids(lines))
  {
    forall id | id in Stock.Touched(lines) ensures ShelfOf(some, id) == ShelfOf(more, id) {
      ShelfRead(lines, some, id);
    }
    assert ShelvesOf(some, Stock.Touched(lines)) == ShelvesOf(more, Stock.Touched(lines));
  }

  lemma PurchaseFirm(p: Purchase, policy: Stock.Policy, some: Values, more: Values)
    requires Grows(some, more) && PurchaseObjection(p, policy, some).Some?
    ensures PurchaseObjection(p, policy, more) == PurchaseObjection(p, policy, some)
  {
    if HasShelves(some, Stock.Ids(p.lines)) {
      SameShelves(policy, p.counter, p.lines, some, more);
    }
    TenderFirm(Tenders(p), some, more);
    if HasAccounts(some, Tenders(p)) {
      SameAccounts(Tenders(p), some, more);
    }
    assert p.coupon.Some? && CouponAt(p.coupon.value) in some ==>
      CouponOf(some, p.coupon.value) == CouponOf(more, p.coupon.value);
    hide StockObjection, TenderObjection, HasShelves;
  }

  lemma TenderKeyIn(tenders: seq<Tender>, id: nat)
    requires id in Payees(tenders)
    ensures AccountAt(id) in TenderKeys(tenders)
    decreases |tenders|
  {
    assert TenderKeys(tenders)[0] == AccountAt(tenders[0].account);
    if id != tenders[0].account {
      TenderKeyIn(tenders[1..], id);
      var i :| 0 <= i < |tenders[1..]| && TenderKeys(tenders[1..])[i] == AccountAt(id);
      assert TenderKeys(tenders)[i + 1] == AccountAt(id);
    }
  }

  /** Every row an order writes, it has locked. */
  lemma PurchaseLocks(p: Purchase, policy: Stock.Policy, values: Values, k: Key)
    requires k in PurchaseWrites(p, values).0
    ensures k in Keys(PurchaseRecipe(p, policy))
  {
    if k.ShelfAt? {
      Stock.IdsAscend(p.lines);
      ShelfKeyIn(Stock.Ids(p.lines), k.shelf);
    } else if k.AccountAt? {
      TenderKeyIn(Tenders(p), k.account);
    }
  }

  lemma PurchaseKeys(p: Purchase, policy: Stock.Policy, k: Key)
    requires k in Keys(PurchaseRecipe(p, policy))
    ensures !IsClaim(k)
  {
  }

  lemma PurchaseWellMade(p: Purchase, policy: Stock.Policy)
    ensures WellMade(PurchaseRecipe(p, policy), IsClaim)
  {
    var c := PurchaseRecipe(p, policy);
    forall k | k in Keys(c) ensures !IsClaim(k) {
      PurchaseKeys(p, policy, k);
    }
    forall values, k | k in c.write(values).0 ensures k in Keys(c) {
      PurchaseLocks(p, policy, values, k);
    }
    forall some, more | Grows(some, more) && c.check(some).Some? ensures c.check(more) == c.check(some) {
      PurchaseFirm(p, policy, some, more);
    }
    FirmSettles(c);
  }

  // ---- It keeps the shop sound --------------------------------------------------------

  /** Each row as the order leaves it. */
  lemma PurchaseAfter(p: Purchase, policy: Stock.Policy, values: Values, k: Key)
    ensures After(PurchaseRecipe(p, policy), values, k) ==
        if k == OrderAt(p.order) then Some(AnOrder(OrderMade(p, values)))
        else if k == NumberKey(p.counter) then Some(Counter(OrderMade(p, values).number))
        else if k.ShelfAt? && k.shelf in Stock.Touched(p.lines) then Some(AShelf(ShelvesAfter(p, values)[k.shelf]))
        else if k.AccountAt? && k.account in AccountsAfter(p, values) then
          Some(AnAccount(AccountsAfter(p, values)[k.account]))
        else if k.CouponAt? && k in CouponRows(p, values) then Some(CouponRows(p, values)[k])
        else Get(values, k)
  {
    hide ShelvesAfter, AccountsAfter, OrderMade, ShelfRows, AccountRows;
  }

  lemma PurchaseShelvesOk(p: Purchase, policy: Stock.Policy, values: Values)
    requires ValuesOk(policy, values) && StockObjection(policy, p.counter, p.lines, values).None?
    ensures Stock.AllOk(policy, ShelvesAfter(p, values))
  {
    var ids, rows := Stock.Ids(p.lines), ShelvesOf(values, Stock.Touched(p.lines));
    forall id | id in rows ensures Stock.ShelfOk(policy, rows[id]) {
      ShelfOfOk(policy, values, id);
    }
    Stock.IdsAscend(p.lines);
    forall id | id in rows && Stock.Asked(p.lines, id) > 0 && !policy.oversell
      ensures Stock.Asked(p.lines, id) <= if p.counter then rows[id].onHand else rows[id].Available()
    {
      assert id in ids;
      var i :| 0 <= i < |ids| && ids[i] == id;
    }
    hide StockObjection, Stock.ShelfOk, Stock.Touched, Stock.Asked;
    if p.counter {
      Stock.MovingKeepsOk(policy, rows, p.lines, Stock.Sale, false, Stock.ForOrder(p.order));
    } else {
      Stock.ReservingKeepsOk(policy, rows, p.lines, Stock.ForOrder(p.order));
    }
  }

  lemma {:induction false} BankedOk(accounts: map<nat, Money.Account>, tenders: seq<Tender>, order: nat)
    requires forall id :: id in accounts ==> Money.AccountOk(accounts[id])
    ensures forall id :: id in accounts ==> Money.AccountOk(Banked(accounts, tenders, order)[id])
  {
    if tenders != [] {
      var id := tenders[0].account;
      if id !in accounts {
        BankedOk(accounts, tenders[1..], order);
      } else {
        Money.PostKeepsOk(accounts[id], Money.SalePayment, tenders[0].amount, Money.OfSale(order));
        hide Money.AccountOk;
        BankedOk(accounts[id := Money.Post(accounts[id], Money.SalePayment, tenders[0].amount, Money.OfSale(order))],
                 tenders[1..], order);
      }
    }
  }

  lemma PurchaseAccountsOk(p: Purchase, policy: Stock.Policy, values: Values)
    requires ValuesOk(policy, values)
    ensures forall id :: id in AccountsAfter(p, values) ==> Money.AccountOk(AccountsAfter(p, values)[id])
  {
    hide Banked, Payees, Tenders;
    BankedOk(AccountsOf(values, Payees(Tenders(p))), Tenders(p), p.order);
  }

  lemma PurchaseCouponOk(p: Purchase, policy: Stock.Policy, values: Values, k: Key)
    requires ValuesOk(policy, values) && k in CouponRows(p, values)
    ensures RowOk(policy, k, CouponRows(p, values)[k])
  {
    hide Coupons.CouponOk, Coupons.Redeem;
    Coupons.RedeemKeepsOk(CouponOf(values, p.coupon.value).value, p.order, p.customer);
  }

  lemma PurchaseRowOk(p: Purchase, policy: Stock.Policy, values: Values, k: Key)
    requires ValuesOk(policy, values) && StockObjection(policy, p.counter, p.lines, values).None?
    requires k in PurchaseWrites(p, values).0
    ensures RowOk(policy, k, PurchaseWrites(p, values).0[k])
  {
    hide Stock.ShelfOk, Money.AccountOk, Coupons.CouponOk, PurchaseWrites, CouponRows, AccountsAfter, ShelvesAfter,
         StockObjection;
    PurchaseAfter(p, policy, values, k);
    PurchaseShelvesOk(p, policy, values);
    PurchaseAccountsOk(p, policy, values);
    WrittenKinds(p, values, k);
    if k in CouponRows(p, values) {
      PurchaseCouponOk(p, policy, values, k);
    }
  }

  lemma WrittenKinds(p: Purchase, values: Values, k: Key)
    ensures k in PurchaseWrites(p, values).0 <==>
              k == OrderAt(p.order) || k == NumberKey(p.counter) || (k.ShelfAt? && k.shelf in Stock.Touched(p.lines)) ||
              (k.AccountAt? && k.account in AccountsAfter(p, values)) || k in CouponRows(p, values)
    ensures k in CouponRows(p, values) ==> k.CouponAt?
  {
    hide ShelvesAfter, AccountsAfter, OrderMade, ShelfRows, AccountRows;
  }

  lemma PurchaseWritesOk(p: Purchase, policy: Stock.Policy, values: Values)
    ensures WritesOk(policy, PurchaseRecipe(p, policy), values)
  {
    var c := PurchaseRecipe(p, policy);
    if ValuesOk(policy, values) && HasRead(c, values) && c.check(values).None? {
      PurchaseRead(p, policy, values);
      forall k | k in c.write(values).0 ensures RowOk(policy, k, c.write(values).0[k]) {
        PurchaseRowOk(p, policy, values, k);
      }
    }
  }

  /** With all its rows read and nothing to object to, each check has passed. */
  lemma PurchaseRead(p: Purchase, policy: Stock.Policy, values: Values)
    requires HasRead(PurchaseRecipe(p, policy), values) && PurchaseObjection(p, policy, values).None?
    ensures OrderAt(p.order) in values && values[OrderAt(p.order)].None?
    ensures HasShelves(values, Stock.Ids(p.lines)) && StockObjection(policy, p.counter, p.lines, values).None?
    ensures p.coupon.Some? ==>
        CouponAt(p.coupon.value) in values && CouponObjection(p.coupon.value, p.order, p.customer, values).None?
    ensures HasAccounts(values, Tenders(p)) && TenderObjection(Tenders(p), values).None?
    ensures p.counter ==> TenderSum(Tenders(p)) >= p.total
  {
    var c := PurchaseRecipe(p, policy);
    var all := [OrderAt(p.order)] + ShelfKeys(Stock.Ids(p.lines)) + CouponKeys(p.coupon) + TenderKeys(Tenders(p));
    assert forall k :: k in all ==> k in Keys(c);
    assert all[0] == OrderAt(p.order);
    forall i | 0 <= i < |Stock.Ids(p.lines)| ensures ShelfAt(Stock.Ids(p.lines)[i]) in values {
      assert ShelfKeys(Stock.Ids(p.lines))[i] in all;
    }
    forall i | 0 <= i < |Tenders(p)| ensures AccountAt(Tenders(p)[i].account) in values {
      assert TenderKeys(Tenders(p))[i] in all;
    }
    if p.coupon.Some? {
      assert CouponKeys(p.coupon)[0] in all;
    }
  }

  // ---- Its documents and ledgers tally ------------------------------------------------

  lemma {:induction false} BankedBooks(accounts: map<nat, Money.Account>, tenders: seq<Tender>, order: nat, id: nat,
      cause: Money.Cause, measure: Measure)
    requires id in accounts
    ensures Booked(Some(AnAccount(Banked(accounts, tenders, order)[id])), cause, measure) ==
            Booked(Some(AnAccount(accounts[id])), cause, measure) + if cause == Money.OfSale(order) then
                TenderedTo(tenders, id, measure) else 0
  {
    hide Booked;
    if tenders != [] {
      var first := tenders[0].account;
      if first !in accounts {
        BankedBooks(accounts, tenders[1..], order, id, cause, measure);
      } else {
        PostedBooks(accounts[first], Money.SalePayment, tenders[0].amount, Money.OfSale(order), cause, measure);
        BankedBooks(accounts[first :=
            Money.Post(accounts[first], Money.SalePayment, tenders[0].amount, Money.OfSale(order))],
                    tenders[1..], order, id, cause, measure);
      }
    }
  }

  lemma {:induction false} NothingTendered(tenders: seq<Tender>, id: nat, measure: Measure)
    requires id !in Payees(tenders)
    ensures TenderedTo(tenders, id, measure) == 0
  {
    if tenders != [] {
      NothingTendered(tenders[1..], id, measure);
    }
  }

  lemma {:induction false} PayeeIsOpen(tenders: seq<Tender>, values: Values, id: nat)
    requires HasAccounts(values, tenders) && TenderObjection(tenders, values).None? && id in Payees(tenders)
    ensures AccountOf(values, id).Some?
  {
    assert HasAccounts(values, tenders[1..]) by {
      assert forall i :: 0 <= i < |tenders[1..]| ==> tenders[1..][i] == tenders[i + 1];
    }
    if id != tenders[0].account {
      PayeeIsOpen(tenders[1..], values, id);
    }
  }

  /** What an order adds to an account on its own behalf. */
  lemma PurchaseAccount(p: Purchase, policy: Stock.Policy, values: Values, account: nat, cause: Money.Cause,
      measure: Measure)
    requires HasAccounts(values, Tenders(p)) && TenderObjection(Tenders(p), values).None?
    ensures Booked(After(PurchaseRecipe(p, policy), values, AccountAt(account)), cause, measure) ==
            Booked(Get(values, AccountAt(account)), cause, measure) +
            if cause == Money.OfSale(p.order) then TenderedTo(Tenders(p), account, measure) else 0
  {
    hide PurchaseRecipe, Booked, Tenders, TenderObjection, HasAccounts, Banked, Payees, OrderMade, TenderedTo;
    PurchaseAfter(p, policy, values, AccountAt(account));
    if account in Payees(Tenders(p)) {
      PayeeIsOpen(Tenders(p), values, account);
      BankedBooks(AccountsOf(values, Payees(Tenders(p))), Tenders(p), p.order, account, cause, measure);
    } else {
      NothingTendered(Tenders(p), account, measure);
    }
  }

  lemma PurchaseDocument(p: Purchase, policy: Stock.Policy, values: Values, account: nat, cause: Money.Cause,
      measure: Measure)
    requires Documented(cause) && Get(values, OrderAt(p.order)).None?
    ensures Due(After(PurchaseRecipe(p, policy), values, DocumentOf(cause)), account, measure) ==
            Due(Get(values, DocumentOf(cause)), account, measure) +
            if cause == Money.OfSale(p.order) then TenderedTo(Tenders(p), account, measure) else 0
  {
    hide PurchaseRecipe, Tenders, TenderedTo, AccountsAfter, CouponRows, ShelvesAfter;
    PurchaseAfter(p, policy, values, DocumentOf(cause));
  }

  lemma PurchaseMoney(p: Purchase, policy: Stock.Policy, values: Values, account: nat, cause: Money.Cause,
      measure: Measure)
    requires Documented(cause) && Get(values, OrderAt(p.order)).None?
    requires HasAccounts(values, Tenders(p)) && TenderObjection(Tenders(p), values).None?
    ensures MoneyKept(PurchaseRecipe(p, policy), values, account, cause, measure)
  {
    hide PurchaseRecipe, Booked, Due, DocumentOf, After, TenderObjection, HasAccounts;
    PurchaseAccount(p, policy, values, account, cause, measure);
    PurchaseDocument(p, policy, values, account, cause, measure);
  }

  /** What an order adds to a shelf's holds. */
  lemma PurchaseShelf(p: Purchase, policy: Stock.Policy, values: Values, shelf: nat, order: nat)
    ensures HeldBy(ShelfIn(After(PurchaseRecipe(p, policy), values, ShelfAt(shelf))).ledger, order) ==
            HeldBy(ShelfIn(Get(values, ShelfAt(shelf))).ledger, order) +
            if order == p.order && !p.counter then Stock.Asked(p.lines, shelf) else 0
    ensures SoldFor(ShelfIn(After(PurchaseRecipe(p, policy), values, ShelfAt(shelf))).ledger, order) ==>
            SoldFor(ShelfIn(Get(values, ShelfAt(shelf))).ledger, order) || (order == p.order && p.counter)
    ensures Mentions(ShelfIn(After(PurchaseRecipe(p, policy), values, ShelfAt(shelf))).ledger, order) ==>
            Mentions(ShelfIn(Get(values, ShelfAt(shelf))).ledger, order) || order == p.order
  {
    hide PurchaseRecipe, HeldBy, SoldFor, Mentions, Stock.Touched, Stock.Asked, Stock.Moved, AccountsAfter,
         CouponRows, OrderMade;
    PurchaseAfter(p, policy, values, ShelfAt(shelf));
    Stock.TouchedIsAsked(p.lines, shelf);
    if shelf in Stock.Touched(p.lines) {
      MovedHolds(ShelvesOf(values, Stock.Touched(p.lines)), p.lines, StockKind(p.counter), !p.counter,
                 Stock.ForOrder(p.order), shelf, order);
    }
  }

  lemma PurchaseHold(p: Purchase, policy: Stock.Policy, values: Values, shelf: nat, order: nat)
    requires Get(values, OrderAt(p.order)).None?
    ensures HoldKept(PurchaseRecipe(p, policy), values, shelf, order)
  {
    hide PurchaseRecipe, HeldBy, SoldFor, Mentions, Stock.Asked, AccountsAfter, CouponRows, ShelvesAfter;
    PurchaseShelf(p, policy, values, shelf, order);
    PurchaseAfter(p, policy, values, OrderAt(order));
  }

  lemma RedeemedUse(c: Coupons.Coupon, order: nat, customer: Option<nat>, o: nat)
    requires Coupons.Redeem(c, order, customer).Counted? && !Coupons.Names(c.redemptions, order)
    ensures var after := Coupons.Redeem(c, order, customer).coupon.redemptions;
      && Coupons.LiveOf(after, o) == Coupons.LiveOf(c.redemptions, o) + (if o == order then 1 else 0)
      && (Coupons.Names(after, o) ==> Coupons.Names(c.redemptions, o) || o == order)
  {
    var after := Coupons.Redeem(c, order, customer).coupon.redemptions;
    assert after[..|c.redemptions|] == c.redemptions;
  }

  /** What an order adds to a coupon's uses. */
  lemma PurchaseCoupon(p: Purchase, policy: Stock.Policy, values: Values, coupon: nat, order: nat)
    requires p.coupon.Some? ==> CouponObjection(p.coupon.value, p.order, p.customer, values).None?
    requires p.coupon.Some? ==> !Coupons.Names(RedemptionsIn(Get(values, CouponAt(p.coupon.value))), p.order)
    ensures var before := RedemptionsIn(Get(values, CouponAt(coupon)));
      var after := RedemptionsIn(After(PurchaseRecipe(p, policy), values, CouponAt(coupon)));
      && Coupons.LiveOf(after, order) ==
          Coupons.LiveOf(before, order) + (if order == p.order && p.coupon == Some(coupon) then 1 else 0)
      && (Coupons.Names(after, order) ==> Coupons.Names(before, order) || order == p.order)
  {
    hide PurchaseRecipe, Coupons.LiveOf, Coupons.Names, Coupons.Redeem, AccountsAfter, ShelvesAfter, OrderMade;
    PurchaseAfter(p, policy, values, CouponAt(coupon));
    if p.coupon == Some(coupon) {
      RedeemedUse(CouponOf(values, coupon).value, p.order, p.customer, order);
    }
  }

  lemma PurchaseUse(p: Purchase, policy: Stock.Policy, values: Values, coupon: nat, order: nat)
    requires OrderAt(p.order) in values && values[OrderAt(p.order)].None? && ValuesTally(values)
    requires p.coupon.Some? ==>
        CouponAt(p.coupon.value) in values && CouponObjection(p.coupon.value, p.order, p.customer, values).None?
    ensures UseKept(PurchaseRecipe(p, policy), values, coupon, order)
  {
    hide PurchaseRecipe, Coupons.LiveOf, Coupons.Names, CouponObjection, AccountsAfter, CouponRows, ShelvesAfter;
    assert Get(values, OrderAt(p.order)).None?;
    if p.coupon.Some? {
      assert UseRead(values, p.coupon.value, p.order);
    }
    PurchaseCoupon(p, policy, values, coupon, order);
    PurchaseAfter(p, policy, values, OrderAt(order));
  }

  lemma PurchaseSparesCredits(p: Purchase, policy: Stock.Policy)
    ensures SparesCredits(PurchaseRecipe(p, policy))
  {
    hide Tenders, Stock.Ids;
  }

  lemma PurchaseSure(p: Purchase, policy: Stock.Policy)
    ensures Sure(policy, PurchaseRecipe(p, policy))
  {
    hide PurchaseRecipe, WritesOk, TallyKept, SparesCredits, WellMade;
    var c := PurchaseRecipe(p, policy);
    PurchaseWellMade(p, policy);
    forall values ensures WritesOk(policy, c, values) && TallyKept(policy, c, values) {
      PurchaseWritesOk(p, policy, values);
      PurchaseTallies(p, policy, values);
    }
    ProperWhen(policy, c);
    PurchaseSparesCredits(p, policy);
    SureWhen(policy, c);
  }

  lemma PurchaseTallies(p: Purchase, policy: Stock.Policy, values: Values)
    ensures TallyKept(policy, PurchaseRecipe(p, policy), values)
  {
    var c := PurchaseRecipe(p, policy);
    if HasRead(c, values) && ValuesTally(values) && c.check(values).None? {
      PurchaseRead(p, policy, values);
      assert Get(values, OrderAt(p.order)).None?;
      forall account: nat, cause: Money.Cause, measure: Measure | Documented(cause)
        ensures MoneyKept(c, values, account, cause, measure)
      {
        PurchaseMoney(p, policy, values, account, cause, measure);
      }
      forall shelf: nat, order: nat ensures HoldKept(c, values, shelf, order) {
        PurchaseHold(p, policy, values, shelf, order);
      }
      forall coupon: nat, order: nat ensures UseKept(c, values, coupon, order) {
        PurchaseUse(p, policy, values, coupon, order);
      }
    }
  }
}
