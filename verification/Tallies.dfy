/** Documents and ledgers tally: what each ledger holds for a document is what the document, as it
    stands, says it should. Nothing a refused request began is left in any ledger, nothing an
    accepted one did is missing, and nothing is there twice. */
module Tallies {
  import opened Wrappers
  import opened RowLocks
  import opened Recipes
  import opened Shop
  import Stock = StockLedger
  import Money = MoneyLedger
  import Coupons = CouponBook

  // ---- What a ledger holds for a document ---------------------------------------------

  function PostingsIn(row: Option<Row>): seq<Money.Posting> {
    if row.Some? && row.value.AnAccount? then row.value.account.postings else []
  }

  /** Postings are told two ways: how many there are, and what they come to. */
  datatype Measure = Entries | Amounts

  function Weigh(measure: Measure, amount: int): int {
    if measure.Entries? then 1 else amount
  }

  /** What the account's postings say a document has moved. */
  function Booked(account: Option<Row>, cause: Money.Cause, measure: Measure): int {
    if measure.Entries? then Money.CountFor(PostingsIn(account), cause) else Money.SumFor(PostingsIn(account), cause)
  }

  lemma PostedBooks(account: Money.Account, kind: Money.Kind, delta: int, of: Money.Cause, cause: Money.Cause,
      measure: Measure)
    ensures Booked(Some(AnAccount(Money.Post(account, kind, delta, of))), cause, measure) ==
            Booked(Some(AnAccount(account)), cause, measure) + if cause == of then Weigh(measure, delta) else 0
  {
    hide Money.CountFor, Money.SumFor;
    Money.PostAdds(account, kind, delta, of, cause);
  }

  /** Units of the shelf reserved for an order: holds, less what was given back. */
  function HeldBy(ledger: seq<Stock.Entry>, order: nat): int {
    if ledger == [] then 0
    else
      var last := ledger[|ledger| - 1];
      HeldBy(ledger[..|ledger| - 1], order) +
      if Stock.Reserving(last.kind) && last.reference == Stock.ForOrder(order) then last.quantity else 0
  }

  lemma WriteHolds(shelf: Stock.Shelf, kind: Stock.Movement, delta: int, reference: Stock.Reference, order: nat)
    ensures HeldBy(Stock.Write(shelf, kind, delta, reference).ledger, order) ==
            HeldBy(shelf.ledger, order) + if Stock.Reserving(kind) && reference == Stock.ForOrder(order) then delta
                else 0
    ensures SoldFor(Stock.Write(shelf, kind, delta, reference).ledger, order) <==>
            SoldFor(shelf.ledger, order) || (kind.Sale? && reference == Stock.ForOrder(order))
    ensures Mentions(Stock.Write(shelf, kind, delta, reference).ledger, order) <==>
            Mentions(shelf.ledger, order) || reference == Stock.ForOrder(order)
  {
    var after := Stock.Write(shelf, kind, delta, reference).ledger;
    assert after[..|shelf.ledger|] == shelf.ledger;
    assert after[|shelf.ledger|] == Stock.Write(shelf, kind, delta, reference).ledger[|shelf.ledger|];
    forall i | 0 <= i < |shelf.ledger| ensures after[i] == shelf.ledger[i] {
    }
  }

  /** A movement of many lines holds, or gives back, what it was asked for. */
  lemma {:induction false} MovedHolds(
      rows: map<nat, Stock.Shelf>, lines: seq<Stock.Line>, kind: Stock.Movement, inward: bool,
          reference: Stock.Reference,
      id: nat, order: nat)
    requires Stock.Covers(rows, lines) && id in rows
    ensures HeldBy(Stock.Moved(rows, lines, kind, inward, reference)[id].ledger, order) ==
            HeldBy(rows[id].ledger, order) +
            if Stock.Reserving(kind) && reference == Stock.ForOrder(order) then
                Stock.Signed(inward, Stock.Asked(lines, id)) else 0
    ensures SoldFor(Stock.Moved(rows, lines, kind, inward, reference)[id].ledger, order) ==>
            SoldFor(rows[id].ledger, order) || (kind.Sale? && reference == Stock.ForOrder(order))
    ensures Mentions(Stock.Moved(rows, lines, kind, inward, reference)[id].ledger, order) ==>
            Mentions(rows[id].ledger, order) || reference == Stock.ForOrder(order)
  {
    hide HeldBy, SoldFor, Mentions;
    if lines != [] {
      var first := lines[0];
      if first.quantity == 0 {
        MovedHolds(rows, lines[1..], kind, inward, reference, id, order);
      } else {
        var delta := Stock.Signed(inward, first.quantity);
        var next := rows[first.shelf := Stock.Write(rows[first.shelf], kind, delta, reference)];
        MovedHolds(next, lines[1..], kind, inward, reference, id, order);
        if first.shelf == id {
          WriteHolds(rows[id], kind, delta, reference, order);
        }
      }
    }
  }

  function RedemptionsIn(row: Option<Row>): seq<Coupons.Redemption> {
    if row.Some? && row.value.ACoupon? then row.value.coupon.redemptions else []
  }

  function CreditsIn(row: Option<Row>): seq<SupplierCredit> {
    if row.Some? && row.value.ASupplierOrder? then row.value.supplierOrder.credits else []
  }

  /** What a supplier order has credited for a returned item: how many times, and how many units. */
  function CreditsFor(credits: seq<SupplierCredit>, item: nat, measure: Measure): int {
    if credits == [] then 0
    else
      var last := credits[|credits| - 1];
      CreditsFor(credits[..|credits| - 1], item, measure) + if last.item == item then Weigh(measure, last.quantity)
          else 0
  }

  // ---- What the document says it should -----------------------------------------------

  predicate Documented(cause: Money.Cause) {
    cause.OfExpense? || cause.OfPayment? || cause.OfSale? || cause.OfReturn?
  }

  function DocumentOf(cause: Money.Cause): Key
    requires Documented(cause)
  {
    match cause
    case OfExpense(e) => ExpenseAt(e)
    case OfPayment(p) => PaymentAt(p)
    case OfSale(o) => OrderAt(o)
    case OfReturn(r) => ReturnAt(r)
  }

  function TenderedTo(tenders: seq<Tender>, account: nat, measure: Measure): int {
    if tenders == [] then 0
    else
      TenderedTo(tenders[1..], account, measure) +
      if tenders[0].account == account then Weigh(measure, tenders[0].amount) else 0
  }

  /** The postings a document has in an account, and what they come to: one for an expense, and a
      second that undoes it once it is void; one for a payment once its money is taken; one for
      each tender of an order; one for a return. */
  function Due(document: Option<Row>, account: nat, measure: Measure): int {
    match document
    case Some(AnExpense(e)) =>
      if e.account != account then 0
      else if e.voided then Weigh(measure, -e.amount) + Weigh(measure, e.amount)
      else Weigh(measure, -e.amount)
    case Some(APayment(p)) => if p.account == Some(account) && MoneyTaken(p.state) then Weigh(measure, p.amount) else 0
    case Some(AnOrder(o)) => TenderedTo(o.tenders, account, measure)
    case Some(AReturn(r)) => if r.drawer == account && r.amount > 0 then Weigh(measure, -(r.amount as int)) else 0
    case _ => 0
  }

  /** The states a payment has once its money is the shop's. */
  predicate MoneyTaken(state: PaymentState) {
    state.Captured? || state.PartlyRefunded? || state.FullyRefunded?
  }

  /** An online order still waiting to be packed holds what it asks for. */
  predicate Holds(order: Order) {
    !order.counter && !order.committed && !order.status.Cancelled?
  }

  function Hold(order: Option<Row>, shelf: nat): nat {
    match order
    case Some(AnOrder(o)) => if Holds(o) then Stock.Asked(o.lines, shelf) else 0
    case _ => 0
  }

  predicate IsCommitted(order: Option<Row>) {
    order.Some? && order.value.AnOrder? && order.value.order.committed
  }

  /** The shelf has sold the order its goods. */
  predicate SoldFor(ledger: seq<Stock.Entry>, order: nat) {
    exists i :: 0 <= i < |ledger| && ledger[i].kind.Sale? && ledger[i].reference == Stock.ForOrder(order)
  }

  /** The shelf's ledger has an entry for the order. */
  predicate Mentions(ledger: seq<Stock.Entry>, order: nat) {
    exists i :: 0 <= i < |ledger| && ledger[i].reference == Stock.ForOrder(order)
  }

  function Use(order: Option<Row>, coupon: nat): nat {
    match order
    case Some(AnOrder(o)) => if o.coupon == Some(coupon) && !o.status.Cancelled? then 1 else 0
    case _ => 0
  }

  ghost predicate MoneyTallies(db: Database) {
    forall account: nat, cause: Money.Cause, measure: Measure | Documented(cause) ::
      Booked(Read(db, AccountAt(account)), cause, measure) == Due(Read(db, DocumentOf(cause)), account, measure)
  }

  /** A shelf holds for an order what the order still waits for, has sold it nothing before it is
      packed, and has no entry for an order that is not there. */
  predicate HoldTallies(ledger: seq<Stock.Entry>, order: nat, row: Option<Row>, shelf: nat) {
    && HeldBy(ledger, order) == Hold(row, shelf)
    && (SoldFor(ledger, order) ==> IsCommitted(row))
    && (Mentions(ledger, order) ==> row.Some?)
  }

  ghost predicate HoldsTally(db: Database) {
    forall shelf: nat, order: nat ::
      HoldTallies(ShelfIn(Read(db, ShelfAt(shelf))).ledger, order, Read(db, OrderAt(order)), shelf)
  }

  /** An order's use of a coupon is live just while the order is, and no use is of no order. */
  predicate UseTallies(redemptions: seq<Coupons.Redemption>, order: nat, row: Option<Row>, coupon: nat) {
    Coupons.LiveOf(redemptions, order) == Use(row, coupon) && (Coupons.Names(redemptions, order) ==> row.Some?)
  }

  ghost predicate CouponsTally(db: Database) {
    forall coupon: nat, order: nat ::
      UseTallies(RedemptionsIn(Read(db, CouponAt(coupon))), order, Read(db, OrderAt(order)), coupon)
  }

  /** One credit, of all its units, on the order it was sent on; none on any other. */
  function CreditDue(item: Option<Row>, order: nat, measure: Measure): int {
    match item
    case Some(AReturnedItem(i)) => if i.sentOn == Some(order) then Weigh(measure, i.quantity) else 0
    case _ => 0
  }

  ghost predicate CreditsTally(db: Database) {
    forall order: nat, item: nat, measure: Measure ::
      CreditsFor(CreditsIn(Read(db, SupplierOrderAt(order))), item, measure) ==
      CreditDue(Read(db, ReturnedItemAt(item)), order, measure)
  }

  ghost predicate Tally(db: Database) {
    MoneyTallies(db) && HoldsTally(db) && CouponsTally(db) && CreditsTally(db)
  }

  // ---- Kept by a request, told from what it reads and writes ----------------------------

  function After(c: ShopRecipe, values: Values, k: Key): Option<Row> {
    if k in c.write(values).0 then Some(c.write(values).0[k]) else Get(values, k)
  }

  ghost predicate MoneyKept(c: ShopRecipe, values: Values, account: nat, cause: Money.Cause, measure: Measure)
    requires Documented(cause)
  {
    Booked(After(c, values, AccountAt(account)), cause, measure) - Booked(Get(values, AccountAt(account)), cause,
        measure) ==
    Due(After(c, values, DocumentOf(cause)), account, measure) - Due(Get(values, DocumentOf(cause)), account, measure)
  }

  ghost predicate HoldKept(c: ShopRecipe, values: Values, shelf: nat, order: nat) {
    var before, after := ShelfIn(Get(values, ShelfAt(shelf))).ledger, ShelfIn(After(c, values, ShelfAt(shelf))).ledger;
    && HeldBy(after, order) - HeldBy(before, order) ==
       Hold(After(c, values, OrderAt(order)), shelf) - Hold(Get(values, OrderAt(order)), shelf)
    && (SoldFor(after, order) ==> SoldFor(before, order) || IsCommitted(After(c, values, OrderAt(order))))
    && (Mentions(after, order) ==> Mentions(before, order) || After(c, values, OrderAt(order)).Some?)
    && (IsCommitted(Get(values, OrderAt(order))) ==> IsCommitted(After(c, values, OrderAt(order))))
  }

  ghost predicate UseKept(c: ShopRecipe, values: Values, coupon: nat, order: nat) {
    var before, after :=
        RedemptionsIn(Get(values, CouponAt(coupon))), RedemptionsIn(After(c, values, CouponAt(coupon)));
    && Coupons.LiveOf(after, order) - Coupons.LiveOf(before, order) ==
       Use(After(c, values, OrderAt(order)), coupon) - Use(Get(values, OrderAt(order)), coupon)
    && (Coupons.Names(after, order) ==> Coupons.Names(before, order) || After(c, values, OrderAt(order)).Some?)
  }

  ghost predicate CreditKept(c: ShopRecipe, values: Values, order: nat, item: nat, measure: Measure) {
    CreditsFor(CreditsIn(After(c, values, SupplierOrderAt(order))), item, measure) -
    CreditsFor(CreditsIn(Get(values, SupplierOrderAt(order))), item, measure) ==
    CreditDue(After(c, values, ReturnedItemAt(item)), order, measure) - CreditDue(Get(values, ReturnedItemAt(item)),
        order, measure)
  }

  /** It has nothing to do with goods sent back to a supplier. */
  ghost predicate SparesCredits(c: ShopRecipe) {
    forall k :: k in Keys(c) ==> !k.SupplierOrderAt? && !k.ReturnedItemAt?
  }

  ghost predicate CreditsKept(policy: Stock.Policy, c: ShopRecipe, values: Values) {
    ValuesOk(policy, values) && HasRead(c, values) && c.fault.None? && c.check(values).None? ==>
      forall order: nat, item: nat, measure: Measure :: CreditKept(c, values, order, item, measure)
  }

  ghost predicate HoldRead(values: Values, shelf: nat, order: nat) {
    var ledger := ShelfIn(Get(values, ShelfAt(shelf))).ledger;
    HeldBy(ledger, order) >= 0 &&
    (OrderAt(order) in values ==> HoldTallies(ledger, order, values[OrderAt(order)], shelf))
  }

  ghost predicate UseRead(values: Values, coupon: nat, order: nat) {
    OrderAt(order) in values ==>
      UseTallies(RedemptionsIn(Get(values, CouponAt(coupon))), order, values[OrderAt(order)], coupon)
  }

  /** The rows read tally among themselves, as far as they go. */
  ghost predicate ValuesTally(values: Values) {
    && (forall shelf: nat, order: nat | ShelfAt(shelf) in values :: HoldRead(values, shelf, order))
    && (forall coupon: nat, order: nat | CouponAt(coupon) in values :: UseRead(values, coupon, order))
  }

  ghost predicate TallyKept(policy: Stock.Policy, c: ShopRecipe, values: Values) {
    ValuesOk(policy, values) && HasRead(c, values) && ValuesTally(values) && c.fault.None? && c.check(values).None? ==>
      && (forall account: nat, cause: Money.Cause, measure: Measure | Documented(cause) ::
          MoneyKept(c, values, account, cause, measure))
      && (forall shelf: nat, order: nat :: HoldKept(c, values, shelf, order))
      && (forall coupon: nat, order: nat :: UseKept(c, values, coupon, order))
  }

  /** A request that keeps the shop sound and its documents tallying. */
  ghost predicate Sure(policy: Stock.Policy, c: ShopRecipe) {
    Proper(policy, c) && forall db | ShopOk(policy, db) && Tally(db) :: Tally(Effect(c, db).0)
  }

  lemma SnapshotHold(keys: seq<Key>, db: Database, shelf: nat, order: nat)
    requires HoldsTally(db) && ShelfAt(shelf) in keys
    ensures HoldRead(Snapshot(keys, db), shelf, order)
  {
    assert Get(Snapshot(keys, db), ShelfAt(shelf)) == Read(db, ShelfAt(shelf));
    assert HoldTallies(ShelfIn(Read(db, ShelfAt(shelf))).ledger, order, Read(db, OrderAt(order)), shelf);
  }

  lemma SnapshotUse(keys: seq<Key>, db: Database, coupon: nat, order: nat)
    requires CouponsTally(db) && CouponAt(coupon) in keys
    ensures UseRead(Snapshot(keys, db), coupon, order)
  {
    assert Get(Snapshot(keys, db), CouponAt(coupon)) == Read(db, CouponAt(coupon));
    assert UseTallies(RedemptionsIn(Read(db, CouponAt(coupon))), order, Read(db, OrderAt(order)), coupon);
  }

  lemma SnapshotTallies(keys: seq<Key>, db: Database)
    requires Tally(db)
    ensures ValuesTally(Snapshot(keys, db))
  {
    var values := Snapshot(keys, db);
    forall shelf: nat, order: nat | ShelfAt(shelf) in values ensures HoldRead(values, shelf, order) {
      SnapshotHold(keys, db, shelf, order);
    }
    forall coupon: nat, order: nat | CouponAt(coupon) in values ensures UseRead(values, coupon, order) {
      SnapshotUse(keys, db, coupon, order);
    }
  }

  /** What is read after the request's writes. */
  lemma ReadAfter(c: ShopRecipe, db: Database, k: Key)
    requires WellMade(c, IsClaim) && !IsClaim(k)
    requires c.fault.None? && c.check(Snapshot(Keys(c), db)).None? && (c.claim.Some? ==> c.claim.value !in db)
    ensures var values := Snapshot(Keys(c), db);
      && Read(Effect(c, db).0, k) == (if k in values then After(c, values, k) else Read(db, k))
      && (k in values ==> Get(values, k) == Read(db, k))
      && (k !in values ==> After(c, values, k) == Get(values, k) == None)
  {
  }

  /** A row it locks is left as its writes have it. */
  lemma RowAfter(c: ShopRecipe, db: Database, k: Key)
    requires WellMade(c, IsClaim) && k in Keys(c)
    requires c.fault.None? && c.check(Snapshot(Keys(c), db)).None? && (c.claim.Some? ==> c.claim.value !in db)
    ensures Read(Effect(c, db).0, k) == After(c, Snapshot(Keys(c), db), k)
    ensures Get(Snapshot(Keys(c), db), k) == Read(db, k)
  {
    hide Effect;
    assert !IsClaim(k);
    ReadAfter(c, db, k);
    SnapshotHas(Keys(c), db, k);
  }

  lemma KeptMoney(policy: Stock.Policy, c: ShopRecipe, db: Database, account: nat, cause: Money.Cause, measure: Measure)
    requires WellMade(c, IsClaim) && Documented(cause) && MoneyTallies(db)
    requires c.fault.None? && c.check(Snapshot(Keys(c), db)).None? && (c.claim.Some? ==> c.claim.value !in db)
    requires MoneyKept(c, Snapshot(Keys(c), db), account, cause, measure)
    ensures var after := Effect(c, db).0;
      Booked(Read(after, AccountAt(account)), cause, measure) == Due(Read(after, DocumentOf(cause)), account, measure)
  {
    ReadAfter(c, db, AccountAt(account));
    ReadAfter(c, db, DocumentOf(cause));
  }

  lemma KeptHold(policy: Stock.Policy, c: ShopRecipe, db: Database, shelf: nat, order: nat)
    requires WellMade(c, IsClaim) && HoldsTally(db)
    requires c.fault.None? && c.check(Snapshot(Keys(c), db)).None? && (c.claim.Some? ==> c.claim.value !in db)
    requires HoldKept(c, Snapshot(Keys(c), db), shelf, order)
    ensures var after := Effect(c, db).0;
      HoldTallies(ShelfIn(Read(after, ShelfAt(shelf))).ledger, order, Read(after, OrderAt(order)), shelf)
  {
    hide HeldBy, SoldFor, Mentions, Hold, Effect;
    assert HoldTallies(ShelfIn(Read(db, ShelfAt(shelf))).ledger, order, Read(db, OrderAt(order)), shelf);
    ReadAfter(c, db, ShelfAt(shelf));
    ReadAfter(c, db, OrderAt(order));
  }

  lemma KeptUse(policy: Stock.Policy, c: ShopRecipe, db: Database, coupon: nat, order: nat)
    requires WellMade(c, IsClaim) && CouponsTally(db)
    requires c.fault.None? && c.check(Snapshot(Keys(c), db)).None? && (c.claim.Some? ==> c.claim.value !in db)
    requires UseKept(c, Snapshot(Keys(c), db), coupon, order)
    ensures var after := Effect(c, db).0;
      UseTallies(RedemptionsIn(Read(after, CouponAt(coupon))), order, Read(after, OrderAt(order)), coupon)
  {
    ReadAfter(c, db, CouponAt(coupon));
    ReadAfter(c, db, OrderAt(order));
    assert UseTallies(RedemptionsIn(Read(db, CouponAt(coupon))), order, Read(db, OrderAt(order)), coupon);
  }

  lemma SparedCredits(c: ShopRecipe, values: Values, order: nat, item: nat, measure: Measure)
    requires WellMade(c, IsClaim) && SparesCredits(c)
    ensures CreditKept(c, values, order, item, measure)
  {
    hide CreditsFor, CreditDue;
    if SupplierOrderAt(order) in c.write(values).0 {
      WritesItsKeys(c, IsClaim, values, SupplierOrderAt(order));
    }
    if ReturnedItemAt(item) in c.write(values).0 {
      WritesItsKeys(c, IsClaim, values, ReturnedItemAt(item));
    }
  }

  lemma KeptCredit(policy: Stock.Policy, c: ShopRecipe, db: Database, order: nat, item: nat, measure: Measure)
    requires WellMade(c, IsClaim) && CreditsTally(db)
    requires c.fault.None? && c.check(Snapshot(Keys(c), db)).None? && (c.claim.Some? ==> c.claim.value !in db)
    requires CreditKept(c, Snapshot(Keys(c), db), order, item, measure)
    ensures var after := Effect(c, db).0;
      CreditsFor(CreditsIn(Read(after, SupplierOrderAt(order))), item, measure) ==
      CreditDue(Read(after, ReturnedItemAt(item)), order, measure)
  {
    hide CreditsFor, CreditDue, Effect;
    ReadAfter(c, db, SupplierOrderAt(order));
    ReadAfter(c, db, ReturnedItemAt(item));
  }

  lemma EffectCredits(policy: Stock.Policy, c: ShopRecipe, db: Database)
    requires WellMade(c, IsClaim) && ShopOk(policy, db) && CreditsTally(db)
    requires SparesCredits(c) || CreditsKept(policy, c, Snapshot(Keys(c), db))
    ensures CreditsTally(Effect(c, db).0)
  {
    hide CreditsFor, CreditDue, CreditKept, WellMade, SparesCredits;
    var values := Snapshot(Keys(c), db);
    if c.fault.None? && (c.claim.Some? ==> c.claim.value !in db) && c.check(values).None? {
      var after := Effect(c, db).0;
      forall order: nat, item: nat, measure: Measure
        ensures CreditsFor(CreditsIn(Read(after, SupplierOrderAt(order))), item, measure) ==
                CreditDue(Read(after, ReturnedItemAt(item)), order, measure)
      {
        if SparesCredits(c) {
          SparedCredits(c, values, order, item, measure);
        }
        KeptCredit(policy, c, db, order, item, measure);
      }
    }
  }

  lemma EffectTallies(policy: Stock.Policy, c: ShopRecipe, db: Database)
    requires WellMade(c, IsClaim) && ShopOk(policy, db) && Tally(db)
    requires TallyKept(policy, c, Snapshot(Keys(c), db))
    requires SparesCredits(c) || CreditsKept(policy, c, Snapshot(Keys(c), db))
    ensures Tally(Effect(c, db).0)
  {
    hide CreditsTally, CreditsKept, SparesCredits;
    EffectCredits(policy, c, db);
    var values := Snapshot(Keys(c), db);
    if c.fault.None? && (c.claim.Some? ==> c.claim.value !in db) && c.check(values).None? {
      SnapshotTallies(Keys(c), db);
      var after := Effect(c, db).0;
      forall account: nat, cause: Money.Cause, measure: Measure | Documented(cause)
        ensures Booked(Read(after, AccountAt(account)), cause, measure) ==
            Due(Read(after, DocumentOf(cause)), account, measure)
      {
        KeptMoney(policy, c, db, account, cause, measure);
      }
      forall shelf: nat, order: nat
        ensures HoldTallies(ShelfIn(Read(after, ShelfAt(shelf))).ledger, order, Read(after, OrderAt(order)), shelf)
      {
        KeptHold(policy, c, db, shelf, order);
      }
      forall coupon: nat, order: nat
        ensures UseTallies(RedemptionsIn(Read(after, CouponAt(coupon))), order, Read(after, OrderAt(order)), coupon)
      {
        KeptUse(policy, c, db, coupon, order);
      }
    }
  }

  lemma SureWhen(policy: Stock.Policy, c: ShopRecipe)
    requires Proper(policy, c)
    requires forall values :: TallyKept(policy, c, values)
    requires SparesCredits(c) || forall values :: CreditsKept(policy, c, values)
    ensures Sure(policy, c)
  {
    forall db | ShopOk(policy, db) && Tally(db) ensures Tally(Effect(c, db).0) {
      EffectTallies(policy, c, db);
    }
  }

  /** Whatever requests of the shop's run, and however they interleave, in every committed state
      every cached figure agrees with its ledger, every limit is kept, and every ledger tallies
      with the documents. */
  lemma AlwaysTallies(policy: Stock.Policy, recipes: seq<ShopRecipe>, db: Database, schedule: seq<nat>)
    requires forall i :: 0 <= i < |recipes| ==> Sure(policy, recipes[i])
    requires ShopOk(policy, db) && Tally(db)
    requires Schedulable(ToRequests(recipes), Start(ToRequests(recipes), db), schedule)
    ensures ShopOk(policy, Outcome(ToRequests(recipes), db, schedule).db)
    ensures Tally(Outcome(ToRequests(recipes), db, schedule).db)
  {
    var reqs := ToRequests(recipes);
    RecipesAreSound(recipes, IsClaim);
    forall p, d: Database | 0 <= p < |reqs| && ShopOk(policy, d) && Tally(d)
      ensures ShopOk(policy, Serial(reqs[p], d).0) && Tally(Serial(reqs[p], d).0)
    {
      assert Sure(policy, recipes[p]);
      RecipeSerial(recipes[p], IsClaim, d);
    }
    AlwaysKept(reqs, IsClaim, db, schedule, d => ShopOk(policy, d) && Tally(d));
  }
}
