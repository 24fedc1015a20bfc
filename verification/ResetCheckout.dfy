/** A checkout put back: the tables copied once, and after any run a fixed list of deletes and updates
    that leaves them as they were copied. What a run wrote is told by id, never by time. */
module ResetCheckout {
  import opened Wrappers

  datatype Table =
    | Leads | Redemptions | Payments | OrderEvents | OrderItems | Ledger | Notices | Orders
    | Customers | Shelves | Coupons | Postings | Accounts | Sequences | Carts | CartItems

  datatype Cell = Empty | Ref(id: nat) | Word(s: string)

  type Row = map<string, Cell>
  type Rows = map<nat, Row>
  type Tables = map<Table, Rows>

  function At(db: Tables, t: Table): Rows {
    if t in db then db[t] else map[]
  }

  // ---- Foreign keys -------------------------------------------------------------------

  datatype Link = Link(from: Table, column: string, to: Table)

  const LINKS: set<Link> := {
    Link(Leads, "customer_id", Customers), Link(Leads, "recovered_order_id", Orders), Link(Leads, "cart_id", Carts),
    Link(Redemptions, "coupon_id", Coupons), Link(Redemptions, "customer_id", Customers),
        Link(Redemptions, "order_id", Orders),
    Link(Payments, "account_id", Accounts), Link(Payments, "order_id", Orders),
    Link(OrderEvents, "order_id", Orders), Link(OrderItems, "order_id", Orders),
    Link(Orders, "coupon_id", Coupons), Link(Orders, "customer_id", Customers),
    Link(Postings, "account_id", Accounts),
    Link(Carts, "coupon_id", Coupons), Link(Carts, "customer_id", Customers),
    Link(CartItems, "cart_id", Carts)}

  predicate Names(row: Row, column: string, ids: set<nat>) {
    column in row && row[column].Ref? && row[column].id in ids
  }

  /** The row's link, if it has one, is to a row that is there. */
  predicate Holds(row: Row, column: string, ids: set<nat>) {
    column in row && row[column].Ref? ==> row[column].id in ids
  }

  predicate LinkHolds(db: Tables, l: Link) {
    forall id | id in At(db, l.from) :: Holds(At(db, l.from)[id], l.column, At(db, l.to).Keys)
  }

  predicate Intact(db: Tables) {
    forall l | l in LINKS :: LinkHolds(db, l)
  }

  // ---- The statements -----------------------------------------------------------------

  datatype Statement =
    | DeleteNew(table: Table)                          // whatever is not in the copy
    | DeleteOfNewOrders(table: Table)                  // whatever belongs to an order that is not
    | Restore(table: Table, columns: set<string>)      // these columns, from the copy
    | ClearItems                                       // the lines of the fixture's carts and of new ones
    | RestoreFixtures(columns: set<string>)            // the fixture's carts alone
    | PutItemsBack                                     // the fixture's lines, as copied

  const LEAD_COLUMNS: set<string> := {
    "status", "name", "email", "cart_total", "item_count", "last_seen_at", "recovered_at", "recovered_order_id",
        "cart_id",
    "customer_id", "branch_id", "note", "updated_at"}
  const SHELF_COLUMNS: set<string> := {"on_hand", "reserved", "average_cost", "updated_at"}
  const COUPON_COLUMNS: set<string> := {"used_count", "updated_at"}
  const ACCOUNT_COLUMNS: set<string> := {"balance", "updated_at"}
  const SEQUENCE_COLUMNS: set<string> := {"last_value", "updated_at"}
  const CART_COLUMNS: set<string> := {
    "customer_id", "token", "branch_id", "coupon_id", "is_active", "last_activity_at", "updated_at"}

  const STATEMENTS := 21

  /** In this order: what points at a row goes before the row. */
  function Nth(m: nat): Statement
    requires m < STATEMENTS
  {
    if m == 0 then DeleteNew(Leads)
    else if m == 1 then Restore(Leads, LEAD_COLUMNS)
    else if m == 2 then DeleteOfNewOrders(Redemptions)
    else if m == 3 then DeleteOfNewOrders(Payments)
    else if m == 4 then DeleteOfNewOrders(OrderEvents)
    else if m == 5 then DeleteOfNewOrders(OrderItems)
    else if m == 6 then DeleteNew(Ledger)
    else if m == 7 then DeleteNew(Notices)
    else if m == 8 then DeleteNew(Orders)
    else if m == 9 then DeleteNew(Customers)
    else if m == 10 then DeleteNew(Shelves)
    else if m == 11 then Restore(Shelves, SHELF_COLUMNS)
    else if m == 12 then Restore(Coupons, COUPON_COLUMNS)
    else if m == 13 then DeleteNew(Postings)
    else if m == 14 then Restore(Accounts, ACCOUNT_COLUMNS)
    else if m == 15 then DeleteNew(Sequences)
    else if m == 16 then Restore(Sequences, SEQUENCE_COLUMNS)
    else if m == 17 then ClearItems
    else if m == 18 then DeleteNew(Carts)
    else if m == 19 then RestoreFixtures(CART_COLUMNS)
    else PutItemsBack
  }

  function TableOf(st: Statement): Table {
    match st
    case DeleteNew(t) => t
    case DeleteOfNewOrders(t) => t
    case Restore(t, _) => t
    case ClearItems => CartItems
    case RestoreFixtures(_) => Carts
    case PutItemsBack => CartItems
  }

  function Overwritten(row: Row, from: Row, columns: set<string>): Row {
    row + map c | c in from && c in columns :: from[c]
  }

  function Kept(rows: Rows, copy: Rows): Rows {
    map id | id in rows && id in copy :: rows[id]
  }

  function Fresh(copy: Tables, db: Tables, t: Table): set<nat> {
    At(db, t).Keys - At(copy, t).Keys
  }

  const PREFIX := "parity-cart-"

  predicate IsFixture(cart: Row) {
    "token" in cart && cart["token"].Word? && PREFIX <= cart["token"].s
  }

  function Fixtures(copy: Tables): set<nat> {
    set id | id in At(copy, Carts) && IsFixture(At(copy, Carts)[id])
  }

  function Mended(rows: Rows, copy: Rows, which: set<nat>, columns: set<string>): Rows {
    map id | id in rows :: if id in copy && id in which then Overwritten(rows[id], copy[id], columns) else rows[id]
  }

  function CopiedItems(copy: Tables): Rows {
    map id | id in At(copy, CartItems) && Names(At(copy, CartItems)[id], "cart_id", Fixtures(copy)) ::
        At(copy, CartItems)[id]
  }

  /** The statement's table as it leaves it. */
  function NewRows(st: Statement, copy: Tables, db: Tables): Rows {
    match st
    case DeleteNew(t) => Kept(At(db, t), At(copy, t))
    case DeleteOfNewOrders(t) =>
      map id | id in At(db, t) && !Names(At(db, t)[id], "order_id", Fresh(copy, db, Orders)) :: At(db, t)[id]
    case Restore(t, columns) => Mended(At(db, t), At(copy, t), At(copy, t).Keys, columns)
    case ClearItems =>
      map id | id in At(db, CartItems) &&
          !Names(At(db, CartItems)[id], "cart_id", Fixtures(copy) + Fresh(copy, db, Carts)) ::
        At(db, CartItems)[id]
    case RestoreFixtures(columns) => Mended(At(db, Carts), At(copy, Carts), Fixtures(copy), columns)
    case PutItemsBack => At(db, CartItems) + CopiedItems(copy)
  }

  function Done(st: Statement, copy: Tables, db: Tables): Tables {
    db[TableOf(st) := NewRows(st, copy, db)]
  }

  /** Committed on its own: no id inserted twice, and every link holds as it ends. */
  predicate Works(st: Statement, copy: Tables, db: Tables) {
    (st.PutItemsBack? ==> At(db, CartItems).Keys !! CopiedItems(copy).Keys) && Intact(Done(st, copy, db))
  }

  /** The tables after the first `k` statements. */
  function After(copy: Tables, db: Tables, k: nat): Tables
    requires k <= STATEMENTS
  {
    if k == 0 then db else Done(Nth(k - 1), copy, After(copy, db, k - 1))
  }

  ghost predicate Completes(copy: Tables, db: Tables) {
    forall k :: 0 <= k < STATEMENTS ==> Works(Nth(k), copy, After(copy, db, k))
  }

  // ---- As it is run -------------------------------------------------------------------

  class Harness {
    var db: Tables
    var copies: Option<Tables>

    method Execute(st: Statement, copy: Tables) returns (ok: bool)
      modifies this`db
      ensures ok <==> Works(st, copy, old(db))
      ensures db == if ok then Done(st, copy, old(db)) else old(db)
    {
      ok := Works(st, copy, db);
      if ok {
        db := db[TableOf(st) := NewRows(st, copy, db)];
      }
    }

    /** The tables copied the first time only; then every statement, until one fails. */
    method Reset() returns (ok: bool)
      modifies this
      ensures copies == Some(if old(copies).Some? then old(copies).value else old(db))
      ensures ok <==> Completes(copies.value, old(db))
      ensures ok ==> db == After(copies.value, old(db), STATEMENTS)
    {
      hide Nth, Works, Done;
      if copies.None? {
        copies := Some(db);
      }
      var copy := copies.value;
      for k := 0 to STATEMENTS
        invariant copies == Some(copy) && db == After(copy, old(db), k)
        invariant forall j :: 0 <= j < k ==> Works(Nth(j), copy, After(copy, old(db), j))
      {
        ok := Execute(Nth(k), copy);
        if !ok { return; }
      }
      ok := true;
    }
  }

  // ---- What a run may have done -------------------------------------------------------

  predicate SameBut(row: Row, from: Row, columns: set<string>) {
    row.Keys == from.Keys && forall c | c in from && c !in columns :: row[c] == from[c]
  }

  /** Rows inserted, and these columns changed. */
  predicate Changed(was: Rows, now: Rows, columns: set<string>) {
    was.Keys <= now.Keys && forall id | id in was :: SameBut(now[id], was[id], columns)
  }

  /** Rows inserted, no more. */
  predicate Added(was: Rows, now: Rows) {
    forall id | id in was :: id in now && now[id] == was[id]
  }

  /** What was inserted belongs to these orders. */
  predicate BelongsTo(was: Rows, now: Rows, orders: set<nat>) {
    forall id | id in now && id !in was :: Names(now[id], "order_id", orders)
  }

  predicate CartsChanged(was: Tables, now: Tables) {
    forall id | id in At(was, Carts) ::
      id in At(now, Carts) &&
      if id in Fixtures(was) then SameBut(At(now, Carts)[id], At(was, Carts)[id], CART_COLUMNS)
      else At(now, Carts)[id] == At(was, Carts)[id]
  }

  /** The lines of the fixture's carts and of new carts may be anything; the others are as they were. */
  predicate ItemsChanged(was: Tables, now: Tables) {
    var mine := Fixtures(was) + Fresh(was, now, Carts);
    && (forall id | id in At(now, CartItems) ::
          Names(At(now, CartItems)[id], "cart_id", mine) ||
          (id in At(was, CartItems) && At(now, CartItems)[id] == At(was, CartItems)[id] && id !in CopiedItems(was)))
    && (forall id | id in At(was, CartItems) && id !in CopiedItems(was) ::
          id in At(now, CartItems) && At(now, CartItems)[id] == At(was, CartItems)[id])
  }

  /** The tables of what hangs on an order. */
  predicate HangsOnOrders(t: Table) {
    t.Redemptions? || t.Payments? || t.OrderEvents? || t.OrderItems?
  }

  /** A run that only inserted rows into these tables and changed these columns. */
  predicate Adds(was: Tables, now: Tables) {
    && Changed(At(was, Leads), At(now, Leads), LEAD_COLUMNS)
    && Added(At(was, Redemptions), At(now, Redemptions)) && Added(At(was, Payments), At(now, Payments))
    && Added(At(was, OrderEvents), At(now, OrderEvents)) && Added(At(was, OrderItems), At(now, OrderItems))
    && Added(At(was, Ledger), At(now, Ledger)) && Added(At(was, Notices), At(now, Notices))
    && Added(At(was, Orders), At(now, Orders)) && Added(At(was, Customers), At(now, Customers))
    && Changed(At(was, Shelves), At(now, Shelves), SHELF_COLUMNS)
    && Changed(At(was, Coupons), At(now, Coupons), COUPON_COLUMNS) && At(now, Coupons).Keys == At(was, Coupons).Keys
    && Added(At(was, Postings), At(now, Postings))
    && Changed(At(was, Accounts), At(now, Accounts), ACCOUNT_COLUMNS) &&
        At(now, Accounts).Keys == At(was, Accounts).Keys
    && Changed(At(was, Sequences), At(now, Sequences), SEQUENCE_COLUMNS)
    && CartsChanged(was, now) && ItemsChanged(was, now)
  }

  /** And that hung what it inserted on orders of its own. */
  predicate Follows(was: Tables, now: Tables) {
    var orders := Fresh(was, now, Orders);
    && Adds(was, now)
    && BelongsTo(At(was, Redemptions), At(now, Redemptions), orders)
    && BelongsTo(At(was, Payments), At(now, Payments), orders)
    && BelongsTo(At(was, OrderEvents), At(now, OrderEvents), orders)
    && BelongsTo(At(was, OrderItems), At(now, OrderItems), orders)
  }

  /** No cart, old or new, is a customer's the run made. */
  predicate NoCartOfANewCustomer(was: Tables, now: Tables) {
    forall id | id in At(now, Carts) :: Holds(At(now, Carts)[id], "customer_id", At(was, Customers).Keys)
  }

  // ---- Which statements touch which table ---------------------------------------------

  /** The first statement to touch the table, and the first after the last. */
  function FirstAt(t: Table): nat {
    match t
    case Leads => 0 case Redemptions => 2 case Payments => 3 case OrderEvents => 4 case OrderItems => 5
    case Ledger => 6 case Notices => 7 case Orders => 8 case Customers => 9 case Shelves => 10
    case Coupons => 12 case Postings => 13 case Accounts => 14 case Sequences => 15
    case CartItems => 17 case Carts => 18
  }

  function CleanAt(t: Table): nat {
    match t
    case Leads => 2 case Shelves => 12 case Sequences => 17 case Carts => 20 case CartItems => 21
    case _ => FirstAt(t) + 1
  }

  lemma Touching(m: nat)
    requires m < STATEMENTS
    ensures forall t: Table :: TableOf(Nth(m)) == t ==> FirstAt(t) <= m < CleanAt(t)
    ensures TableOf(Nth(m)) == CartItems <==> m == 17 || m == 20
  {
  }

  lemma {:induction false} Before(copy: Tables, db: Tables, t: Table, k: nat)
    requires k <= FirstAt(t)
    ensures At(After(copy, db, k), t) == At(db, t)
  {
    hide Nth, NewRows, CleanAt;
    if k > 0 {
      Touching(k - 1);
      Before(copy, db, t, k - 1);
    }
  }

  lemma {:induction false} Since(copy: Tables, db: Tables, t: Table, k: nat)
    requires CleanAt(t) <= k <= STATEMENTS
    ensures At(After(copy, db, k), t) == At(After(copy, db, CleanAt(t)), t)
  {
    hide Nth, NewRows, FirstAt, CleanAt;
    if k > CleanAt(t) {
      Touching(k - 1);
      Since(copy, db, t, k - 1);
    }
  }

  lemma JustDone(copy: Tables, db: Tables, m: nat)
    requires m < STATEMENTS
    ensures At(After(copy, db, m + 1), TableOf(Nth(m))) == NewRows(Nth(m), copy, After(copy, db, m))
  {
  }
}
