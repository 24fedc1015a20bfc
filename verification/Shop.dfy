/** The shop's database: every row a request locks, and every unique key one claims. */
module Shop {
  import opened Wrappers
  import opened RowLocks
  import opened LockOrder
  import opened Recipes
  import Stock = StockLedger
  import Money = MoneyLedger
  import Coupons = CouponBook

  type Token = string

  datatype Sequence =
    | WebOrders | CounterOrders | StockTransfers | AccountTransfers | Expenses | Returns | SupplierReturns

  datatype Key =
    | NumberOf(sequence: Sequence)
    | OrderClaim(token: Token)
    | StockTransferClaim(token: Token)
    | ExpenseClaim(token: Token)
    | EventClaim(provider: nat, event: nat)
    | ExchangeAt(token: Token)
    | ExpenseAt(expense: nat)
    | CountAt(count: nat)
    | PaymentAt(payment: nat)
    | SupplierOrderAt(order: nat)
    | ReturnedItemAt(item: nat)
    | OrderAt(order: nat)
    | ReturnAt(returned: nat)
    | ShelfAt(shelf: nat)
    | StockClaim(token: Token)
    | CouponAt(coupon: nat)
    | AccountAt(account: nat)
    | MoveClaim(token: Token)
    | AccountTransferClaim(token: Token)
    | SupplierReturnClaim(token: Token)
    | BranchAt(branch: nat)

  datatype EventResult = PaymentCaptured | PaymentFailed | AmountMismatch | Ignored

  /** What a request made, as its answer and the retry's name it. */
  datatype Document =
    | Posted(account: nat, entry: nat)
    | Transferred(number: nat)
    | Spent(expense: nat)
    | VoidedExpense(expense: nat)
    | WrittenOff(shelf: nat, entry: nat)
    | Adjusted(shelf: nat)
    | StockSent(number: nat)
    | Placed(order: nat)
    | Moved(order: nat, status: Status)
    | Exchanged(sale: nat, returned: nat)
    | Heard(result: EventResult)
    | SentBack(number: nat)
    | CountApplied(count: nat)

  datatype Expense = Expense(account: nat, amount: int, voided: bool)

  datatype Status =
    | Pending | Confirmed | Processing | Packed | Shipped | Delivered
    | ReturnRequested | Returned | Refunded | Cancelled

  datatype Job = LowStock(shelf: nat) | Notice

  datatype Tender = Tender(account: nat, amount: nat)

  /** `committed`: its goods have left the shelf. `jobs`: what it queued as it was placed. */
  datatype Order = Order(
    number: nat,
    counter: bool,
    status: Status,
    committed: bool,
    lines: seq<Stock.Line>,
    returned: seq<nat>,
    coupon: Option<nat>,
    tenders: seq<Tender>,
    paid: int,
    refunded: int,
    jobs: seq<Job>)

  datatype PaymentState = Waiting | Authorized | Captured | PartlyRefunded | FullyRefunded | Failed | Void

  datatype Payment = Payment(order: nat, amount: int, account: Option<nat>, state: PaymentState)

  /** Goods brought back to the counter and the money given for them. */
  datatype Return = Return(order: nat, drawer: nat, amount: nat)

  /** `fromShelf`: how many of those returned went back from the shelf. */
  datatype Purchased = Purchased(variant: nat, received: nat, fromShelf: nat, returned: nat, unitCost: nat)

  /** A returned item credited on line `at` of the supplier order it went back on. */
  datatype SupplierCredit = SupplierCredit(item: nat, at: nat, quantity: nat, amount: nat)

  /** `forShelf`: what was credited for goods from the shelf. */
  datatype SupplierOrder = SupplierOrder(
    branch: nat,
    open: bool,
    items: seq<Purchased>,
    forShelf: nat,
    credited: nat,
    credits: seq<SupplierCredit>)

  datatype CountLine = CountLine(shelf: nat, counted: nat)

  /** A count sheet's counted lines: open until it is applied. */
  datatype Sheet = Sheet(open: bool, lines: seq<CountLine>)

  /** One line of a customer's return, and the supplier order it was sent back on. */
  datatype ReturnedItem = ReturnedItem(
    branch: nat, variant: nat, quantity: nat, damaged: bool, received: bool, sentOn: Option<nat>)

  datatype Row =
    | Counter(last: nat)
    | Claimed(document: Document)
    | AShelf(shelf: Stock.Shelf)
    | AnAccount(account: Money.Account)
    | ACoupon(coupon: Coupons.Coupon)
    | AnExpense(expense: Expense)
    | AnOrder(order: Order)
    | APayment(payment: Payment)
    | AReturn(returned: Return)
    | ASupplierOrder(supplierOrder: SupplierOrder)
    | AReturnedItem(item: ReturnedItem)
    | ASheet(sheet: Sheet)
    | ABranch

  datatype Refusal =
    | InsufficientStock | InsufficientFunds | AccountClosed | NoSuchAccount | BadAmount | ReasonRequired
    | SameAccount | NotAllowed | NoSuchExpense | AlreadyVoid | DuplicateId | CouponExhausted | CouponUsed
    | NoSuchCoupon | NoLines | Underpaid | Overpaid | NoSuchOrder | WrongStatus | StockHasLeft | NeverReceived
    | SameBranch
    | NotReturnable | PaymentClosed | NoSuchPayment | NothingReceived | NoSuchItem | AlreadySent | WrongItem
    | NoSuchCount | CountClosed | NothingCounted

  datatype Answer = Made(document: Document) | Refused(why: Refusal) | Unchanged

  type Database = map<Key, Row>
  type Values = map<Key, Option<Row>>
  type ShopRecipe = Recipe<Key, Row, Answer>

  // ---- Reading rows -------------------------------------------------------------------

  function Get(values: Values, k: Key): Option<Row> {
    if k in values then values[k] else None
  }

  function LastNumber(row: Option<Row>): nat {
    if row.Some? && row.value.Counter? then row.value.last else 0
  }

  /** A shelf the branch never held is made empty as it is first locked. */
  const NEW_SHELF := Stock.Shelf(0, 0, 0, [])

  function ShelfIn(row: Option<Row>): Stock.Shelf {
    if row.Some? && row.value.AShelf? then row.value.shelf else NEW_SHELF
  }

  function AccountIn(row: Option<Row>): Option<Money.Account> {
    if row.Some? && row.value.AnAccount? then Some(row.value.account) else None
  }

  function ExpenseIn(row: Option<Row>): Option<Expense> {
    if row.Some? && row.value.AnExpense? then Some(row.value.expense) else None
  }

  function OrderIn(row: Option<Row>): Option<Order> {
    if row.Some? && row.value.AnOrder? then Some(row.value.order) else None
  }

  function PaymentIn(row: Option<Row>): Option<Payment> {
    if row.Some? && row.value.APayment? then Some(row.value.payment) else None
  }

  // ---- Rows as they stand ---------------------------------------------------------------

  function ShelfNow(db: Database, id: nat): Stock.Shelf {
    ShelfIn(Read(db, ShelfAt(id)))
  }

  function AccountNow(db: Database, id: nat): Option<Money.Account> {
    AccountIn(Read(db, AccountAt(id)))
  }

  function OrderNow(db: Database, id: nat): Option<Order> {
    OrderIn(Read(db, OrderAt(id)))
  }

  function CouponNow(db: Database, id: nat): Option<Coupons.Coupon> {
    var row := Read(db, CouponAt(id));
    if row.Some? && row.value.ACoupon? then Some(row.value.coupon) else None
  }

  /** How a retry is answered: with what the key's first use made. */
  function Retold(row: Row): Answer {
    if row.Claimed? then Made(row.document) else Unchanged
  }

  function Recorded(answer: Answer): Row {
    if answer.Made? then Claimed(answer.document) else Counter(0)
  }

  // ---- The whole database -------------------------------------------------------------

  /** Keys are claimed once; everything else may be written again. */
  predicate IsClaim(k: Key) {
    k.OrderClaim? || k.StockTransferClaim? || k.ExpenseClaim? || k.StockClaim? || k.MoveClaim? ||
    k.AccountTransferClaim? || k.EventClaim? || k.SupplierReturnClaim?
  }

  /** The order rows are locked in. */
  function RankOf(k: Key): Rank {
    match k
    case ExchangeAt(_) => Rank(0, 0)
    case NumberOf(sequence) =>
      if sequence.AccountTransfers? then Rank(9, 0) else if sequence.SupplierReturns? then Rank(4, 0) else Rank(0, 0)
    case OrderClaim(_) => Rank(1, 0)
    case StockTransferClaim(_) => Rank(1, 0)
    case ExpenseClaim(_) => Rank(1, 0)
    case EventClaim(_, _) => Rank(1, 0)
    case ExpenseAt(_) => Rank(2, 0)
    case CountAt(_) => Rank(2, 0)
    case PaymentAt(_) => Rank(2, 0)
    case SupplierOrderAt(_) => Rank(2, 0)
    case OrderAt(_) => Rank(3, 0)
    case ReturnAt(_) => Rank(3, 1)
    case ReturnedItemAt(id) => Rank(3, id)
    case ShelfAt(id) => Rank(4, id)
    case StockClaim(_) => Rank(5, 0)
    case SupplierReturnClaim(_) => Rank(5, 0)
    case CouponAt(_) => Rank(6, 0)
    case AccountAt(id) => Rank(7, id)
    case MoveClaim(_) => Rank(8, 0)
    case AccountTransferClaim(_) => Rank(10, 0)
    case BranchAt(id) => Rank(11, id)
  }

  ghost predicate RowOk(policy: Stock.Policy, k: Key, row: Row) {
    match k
    case NumberOf(_) => row.Counter?
    case ExchangeAt(_) => row.Claimed?
    case ExpenseAt(_) => row.AnExpense? && row.expense.amount > 0
    case CountAt(_) => row.ASheet? && SheetOk(row.sheet)
    case PaymentAt(_) => row.APayment? && row.payment.amount > 0
    case SupplierOrderAt(_) => row.ASupplierOrder? && SupplierOrderOk(row.supplierOrder)
    case ReturnedItemAt(_) => row.AReturnedItem?
    case OrderAt(_) => row.AnOrder? && OrderOk(row.order)
    case ReturnAt(_) => row.AReturn?
    case ShelfAt(_) => row.AShelf? && Stock.ShelfOk(policy, row.shelf)
    case CouponAt(_) => row.ACoupon? && Coupons.CouponOk(row.coupon)
    case AccountAt(_) => row.AnAccount? && Money.AccountOk(row.account)
    case BranchAt(_) => row.ABranch?
    case _ => row.Claimed?
  }

  /** An article has one line on a sheet. */
  predicate SheetOk(sheet: Sheet) {
    forall i, j :: 0 <= i < j < |sheet.lines| ==> sheet.lines[i].shelf != sheet.lines[j].shelf
  }

  /** Units credited on a line of the order. */
  function UnitsOn(credits: seq<SupplierCredit>, at: nat): nat {
    if credits == [] then 0
    else
      var last := credits[|credits| - 1];
      UnitsOn(credits[..|credits| - 1], at) + if last.at == at then last.quantity else 0
  }

  function Amount(credits: seq<SupplierCredit>): nat {
    if credits == [] then 0 else Amount(credits[..|credits| - 1]) + credits[|credits| - 1].amount
  }

  /** No more goes back to a supplier than came from it; what went back, and what was credited for it,
      is what the credits add up to, each at the cost of its line. */
  predicate SupplierOrderOk(o: SupplierOrder) {
    && o.credited == o.forShelf + Amount(o.credits)
    && (forall i :: 0 <= i < |o.items| ==>
          o.items[i].returned <= o.items[i].received &&
          o.items[i].returned == o.items[i].fromShelf + UnitsOn(o.credits, i))
    && forall i :: 0 <= i < |o.credits| ==>
         o.credits[i].at < |o.items| && o.credits[i].amount == o.items[o.credits[i].at].unitCost * o.credits[i].quantity
  }

  /** The counter's goods leave at once, and an order is packed or past it only with its goods gone; no
      more of a line comes back than was sold, and no more money than was paid. */
  predicate OrderOk(o: Order) {
    && (o.counter ==> o.committed)
    && (o.status in {Packed, Shipped, Delivered, ReturnRequested, Returned, Refunded} ==> o.committed)
    && o.refunded <= o.paid
    && |o.returned| == |o.lines|
    && forall i :: 0 <= i < |o.lines| ==> o.returned[i] <= o.lines[i].quantity
  }

  /** Every cached figure agrees with its ledger and every limit is kept. */
  ghost predicate ShopOk(policy: Stock.Policy, db: Database) {
    forall k :: k in db ==> RowOk(policy, k, db[k])
  }

  /** The recipe leaves a sound database sound. */
  ghost predicate KeepsShopOk(policy: Stock.Policy, c: ShopRecipe) {
    forall db | ShopOk(policy, db) :: ShopOk(policy, Effect(c, db).0)
  }

  /** What every request made here keeps to. */
  ghost predicate Proper(policy: Stock.Policy, c: ShopRecipe) {
    WellMade(c, IsClaim) && KeepsShopOk(policy, c)
  }

  ghost predicate ValuesOk(policy: Stock.Policy, values: Values) {
    forall k :: k in values && values[k].Some? ==> RowOk(policy, k, values[k].value)
  }

  ghost predicate HasRead(c: ShopRecipe, values: Values) {
    forall k :: k in Keys(c) ==> k in values
  }

  /** What it writes from sound rows, once its checks have passed, is sound row by row. */
  ghost predicate WritesOk(policy: Stock.Policy, c: ShopRecipe, values: Values) {
    ValuesOk(policy, values) && HasRead(c, values) && c.fault.None? && c.check(values).None? ==>
      (c.claim.Some? ==> c.record(c.write(values).1).Claimed?) &&
      forall k :: k in c.write(values).0 ==> RowOk(policy, k, c.write(values).0[k])
  }

  lemma ProperWhen(policy: Stock.Policy, c: ShopRecipe)
    requires WellMade(c, IsClaim)
    requires forall values :: WritesOk(policy, c, values)
    ensures Proper(policy, c)
  {
    hide WellMade, RowOk;
    forall db | ShopOk(policy, db) ensures ShopOk(policy, Effect(c, db).0) {
      EffectOk(policy, c, db);
    }
  }

  lemma EffectOk(policy: Stock.Policy, c: ShopRecipe, db: Database)
    requires WellMade(c, IsClaim) && ShopOk(policy, db) && WritesOk(policy, c, Snapshot(Keys(c), db))
    ensures ShopOk(policy, Effect(c, db).0)
  {
    hide ChecksSettle;
    assert c.claim.Some? ==> IsClaim(c.claim.value);
  }

  lemma SnapshotHas(keys: seq<Key>, db: Database, k: Key)
    requires k in keys
    ensures k in Snapshot(keys, db) && Get(Snapshot(keys, db), k) == Read(db, k)
  {
  }

  /** A key, if there is one, recorded with what was made under it. */
  function UnderKey(db: Database, key: Option<Key>, document: Document): Database {
    if key.Some? then db[key.value := Claimed(document)] else db
  }

  /** What a request does that nothing stops. */
  lemma EffectGoes(c: ShopRecipe, db: Database)
    requires c.fault.None? && (c.claim.Some? ==> c.claim.value !in db) && c.check(Snapshot(Keys(c), db)).None?
    ensures var (writes, answer) := c.write(Snapshot(Keys(c), db));
      && Effect(c, db).1 == answer
      && Effect(c, db).0 == if c.claim.Some? then (db + writes)[c.claim.value := c.record(answer)] else db + writes
  {
  }

  /** The rows a request reads of a sound shop. */
  lemma ReadsSoundRows(policy: Stock.Policy, c: ShopRecipe, db: Database)
    requires ShopOk(policy, db)
    ensures ValuesOk(policy, Snapshot(Keys(c), db)) && HasRead(c, Snapshot(Keys(c), db))
  {
    hide RowOk;
  }

  /** A request its checks refuse, with nothing wrong before them. */
  lemma EffectStops(c: ShopRecipe, db: Database)
    requires c.fault.None? && (c.claim.Some? ==> c.claim.value !in db) && c.check(Snapshot(Keys(c), db)).Some?
    ensures Effect(c, db) == (db, c.check(Snapshot(Keys(c), db)).value)
  {
  }

  /** A row a request does not lock stays as it is, and a key it does not claim stays free. */
  lemma LeavesRow(c: ShopRecipe, db: Database, k: Key)
    requires WellMade(c, IsClaim) && k !in Keys(c) && (IsClaim(k) ==> c.claim != Some(k))
    ensures Read(Effect(c, db).0, k) == Read(db, k)
  {
    if k in c.write(Snapshot(Keys(c), db)).0 {
      WritesItsKeys(c, IsClaim, Snapshot(Keys(c), db), k);
    }
  }

  /** Every committed state of every interleaving of any requests of the shop's is sound. */
  lemma AlwaysShopOk(policy: Stock.Policy, recipes: seq<ShopRecipe>, db: Database, schedule: seq<nat>)
    requires forall i :: 0 <= i < |recipes| ==> Proper(policy, recipes[i])
    requires ShopOk(policy, db)
    requires Schedulable(ToRequests(recipes), Start(ToRequests(recipes), db), schedule)
    ensures ShopOk(policy, Outcome(ToRequests(recipes), db, schedule).db)
  {
    var reqs := ToRequests(recipes);
    RecipesAreSound(recipes, IsClaim);
    forall p, d: Database | 0 <= p < |reqs| && ShopOk(policy, d) ensures ShopOk(policy, Serial(reqs[p], d).0) {
      assert Proper(policy, recipes[p]);
      RecipeSerial(recipes[p], IsClaim, d);
    }
    AlwaysKept(reqs, IsClaim, db, schedule, d => ShopOk(policy, d));
  }
}
