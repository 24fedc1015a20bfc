/** A payment provider's webhooks: each event stored once, and what it does to the payment. */
module Webhooks {
  import opened Wrappers
  import opened RowLocks
  import opened LockOrder
  import opened Recipes
  import opened Runs
  import opened Shop
  import opened Tallies
  import opened CashBook
  import Stock = StockLedger
  import Money = MoneyLedger

  datatype EventKind = Capture | Failure | Other

  /** A payment as it was looked up, unlocked, before the event's transaction began: one still
      waiting, if there was one. Its order, its amount and the account its money would land in do
      not change; whether it still waits may. */
  datatype Found = Found(payment: nat, order: nat, amount: int, account: Option<nat>)

  datatype Event = Event(provider: nat, event: nat, kind: EventKind, amount: Option<int>, found: Option<Found>)

  /** The event is the payment's to act on. */
  predicate Acts(e: Event) {
    e.found.Some? && match e.kind
      case Capture => e.amount.None? || e.amount.value == e.found.value.amount
      case Failure => true
      case Other => false
  }

  function ResultOf(e: Event): EventResult {
    if e.found.Some? && e.kind.Capture? then (if Acts(e) then PaymentCaptured else AmountMismatch)
    else if Acts(e) then PaymentFailed
    else Ignored
  }

  function EventKeys(e: Event): seq<Key> {
    if !Acts(e) then []
    else
      [PaymentAt(e.found.value.payment)] +
      if e.kind.Failure? then []
      else [OrderAt(e.found.value.order)] + if e.found.value.account.Some? then
          [AccountAt(e.found.value.account.value)] else []
  }

  predicate SamePayment(p: Payment, f: Found) {
    p.order == f.order && p.amount == f.amount && (p.account.Some? ==> p.account == f.account)
  }

  /** A capture finds the payment captured already, or still able to be; a failure must not find
      its money already taken. */
  function EventObjection(e: Event, values: Values): Option<Refusal> {
    if !Acts(e) || PaymentAt(e.found.value.payment) !in values then None
    else
      var f, payment := e.found.value, PaymentIn(values[PaymentAt(e.found.value.payment)]);
      if payment.None? || !SamePayment(payment.value, f) then Some(NoSuchPayment)
      else if e.kind.Failure? then (if MoneyTaken(payment.value.state) then Some(PaymentClosed) else None)
      else if MoneyTaken(payment.value.state) then None
      else if payment.value.state.Failed? || payment.value.state.Void? then Some(PaymentClosed)
      else if OrderAt(f.order) !in values then None
      else if OrderIn(values[OrderAt(f.order)]).None? then Some(NoSuchOrder)
      else if f.account.None? || AccountAt(f.account.value) !in values then None
      else if f.amount <= 0 then Some(BadAmount)
      else Objection(AccountOf(values, f.account.value), f.amount)
  }

  /** The capture itself: the payment, its order's total, and the posting. */
  function Captures(f: Found, values: Values): Database {
    var payment, order := PaymentIn(Get(values, PaymentAt(f.payment))), OrderIn(Get(values, OrderAt(f.order)));
    if payment.None? || MoneyTaken(payment.value.state) || order.None? then map[]
    else
      var written := map[PaymentAt(f.payment) := APayment(payment.value.(state := Captured, account := f.account)),
                         OrderAt(f.order) := AnOrder(order.value.(paid := order.value.paid + f.amount))];
      if f.account.None? || AccountOf(values, f.account.value).None? then written
      else
        written[AccountAt(f.account.value) :=
          AnAccount(Money.Post(AccountOf(values, f.account.value).value, Money.SalePayment, f.amount,
              Money.OfPayment(f.payment)))]
  }

  function Fails(f: Found, values: Values): Database {
    var payment := PaymentIn(Get(values, PaymentAt(f.payment)));
    if payment.None? then map[] else map[PaymentAt(f.payment) := APayment(payment.value.(state := Failed))]
  }

  function EventWrites(e: Event, values: Values): (Database, Answer) {
    (if !Acts(e) then map[] else if e.kind.Failure? then Fails(e.found.value, values)
        else Captures(e.found.value, values),
     Made(Heard(ResultOf(e))))
  }

  /** The event's row claimed first: a second copy waits here, and is told the first's result. */
  function EventRecipe(e: Event): ShopRecipe {
    Recipe(
      Some(EventClaim(e.provider, e.event)), false, None,
      [], false, [], EventKeys(e),
      (values: Values) => Refuse(EventObjection(e, values)),
      (values: Values) => EventWrites(e, values),
      Retold, Recorded)
  }

  lemma EventFirm(e: Event, some: Values, more: Values)
    requires Grows(some, more) && EventObjection(e, some).Some?
    ensures EventObjection(e, more) == EventObjection(e, some)
  {
  }

  lemma EventLocks(e: Event, values: Values, k: Key)
    requires k in EventWrites(e, values).0
    ensures k in EventKeys(e)
  {
    hide Money.Post;
    assert EventKeys(e)[0] == PaymentAt(e.found.value.payment);
    if e.kind.Capture? {
      assert EventKeys(e)[1] == OrderAt(e.found.value.order);
      if e.found.value.account.Some? {
        assert EventKeys(e)[2] == AccountAt(e.found.value.account.value);
      }
    }
  }

  lemma EventWellMade(e: Event)
    ensures WellMade(EventRecipe(e), IsClaim)
  {
    hide EventWrites, EventObjection;
    var c := EventRecipe(e);
    forall some, more | Grows(some, more) && c.check(some).Some? ensures c.check(more) == c.check(some) {
      EventFirm(e, some, more);
    }
    forall values, k | k in c.write(values).0 ensures k in Keys(c) {
      EventLocks(e, values, k);
    }
    if c.after != [] {
      FirmSettles(c);
    } else {
      NoObjection(e);
    }
  }

  lemma NoObjection(e: Event)
    ensures !Acts(e) ==> forall values :: EventObjection(e, values).None?
  {
  }

  lemma EventOrdered(e: Event)
    ensures Ordered(ToRequest(EventRecipe(e)), RankOf)
  {
    EventAscends(e);
    hide EventRecipe, Ascends, Ordered;
    RecipeIsOrdered(EventRecipe(e), RankOf);
  }

  lemma EventAscends(e: Event)
    ensures Ascends(InOrder(EventRecipe(e)), RankOf)
  {
    hide EventObjection, EventWrites;
    var keys := InOrder(EventRecipe(e));
    assert keys == [EventClaim(e.provider, e.event)] + EventKeys(e);
    forall i | 0 <= i < |keys| ensures RankOf(keys[i]).table == if i == 0 then 1 else if i == 1 then 2
        else if i == 2 then 3 else 7
    {
    }
  }

  lemma EventRetells(e: Event)
    ensures Retells(EventRecipe(e))
  {
  }

  // ---- Sound, and tallying ------------------------------------------------------------

  /** With its rows read and nothing to object to. */
  ghost predicate EventGoes(e: Event, policy: Stock.Policy, values: Values) {
    ValuesOk(policy, values) && HasRead(EventRecipe(e), values) && EventObjection(e, values).None?
  }

  lemma EventRead(e: Event, policy: Stock.Policy, values: Values)
    requires EventGoes(e, policy, values) && Acts(e)
    ensures var f := e.found.value;
      && PaymentIn(Get(values, PaymentAt(f.payment))).Some? &&
          SamePayment(PaymentIn(Get(values, PaymentAt(f.payment))).value, f)
      && (e.kind.Failure? ==> !MoneyTaken(PaymentIn(Get(values, PaymentAt(f.payment))).value.state))
      && (e.kind.Capture? && !MoneyTaken(PaymentIn(Get(values, PaymentAt(f.payment))).value.state) ==>
            OrderIn(Get(values, OrderAt(f.order))).Some? &&
            (f.account.Some? ==> f.amount > 0 && Objection(AccountOf(values, f.account.value), f.amount).None?))
  {
    var f := e.found.value;
    var keys := EventKeys(e);
    assert keys[0] == PaymentAt(f.payment) && keys[0] in Keys(EventRecipe(e));
    if e.kind.Capture? {
      assert keys[1] == OrderAt(f.order) && keys[1] in Keys(EventRecipe(e));
      if f.account.Some? {
        assert keys[2] == AccountAt(f.account.value) && keys[2] in Keys(EventRecipe(e));
      }
    }
  }

  /** The payment this event takes now, if it does. */
  predicate TakesNow(e: Event, values: Values) {
    Acts(e) && e.kind.Capture? && PaymentIn(Get(values, PaymentAt(e.found.value.payment))).Some? &&
    !MoneyTaken(PaymentIn(Get(values, PaymentAt(e.found.value.payment))).value.state)
  }

  lemma EventAfter(e: Event, policy: Stock.Policy, values: Values, k: Key)
    requires EventGoes(e, policy, values)
    ensures After(EventRecipe(e), values, k) ==
        if TakesNow(e, values) && k == PaymentAt(e.found.value.payment) then
          Some(APayment(PaymentIn(Get(values, k)).value.(state := Captured, account := e.found.value.account)))
        else if TakesNow(e, values) && k == OrderAt(e.found.value.order) && OrderIn(Get(values, k)).Some? then
          Some(AnOrder(OrderIn(Get(values, k)).value.(paid :=
              OrderIn(Get(values, k)).value.paid + e.found.value.amount)))
        else if TakesNow(e, values) && e.found.value.account.Some? && k == AccountAt(e.found.value.account.value) &&
                AccountOf(values, e.found.value.account.value).Some? then
          Some(AnAccount(Money.Post(AccountOf(values, e.found.value.account.value).value, Money.SalePayment,
                                    e.found.value.amount, Money.OfPayment(e.found.value.payment))))
        else if Acts(e) && e.kind.Failure? && k == PaymentAt(e.found.value.payment) then
          Some(APayment(PaymentIn(Get(values, k)).value.(state := Failed)))
        else Get(values, k)
  {
    hide Money.Post;
    if Acts(e) {
      EventRead(e, policy, values);
    }
  }

  lemma EventRowOk(e: Event, policy: Stock.Policy, values: Values, k: Key)
    requires EventGoes(e, policy, values) && k in EventWrites(e, values).0
    ensures RowOk(policy, k, EventWrites(e, values).0[k])
  {
    hide Money.AccountOk, Money.Post, Stock.ShelfOk;
    EventAfter(e, policy, values, k);
    EventRead(e, policy, values);
    if k.AccountAt? {
      PostedOk(policy, values, e.found.value.account.value, Money.SalePayment, e.found.value.amount,
          Money.OfPayment(e.found.value.payment));
    }
  }

  /** What the event adds to an account on a document's behalf. */
  function Gained(e: Event, values: Values, account: nat, cause: Money.Cause, measure: Measure): int {
    if TakesNow(e, values) && e.found.value.account == Some(account) && cause == Money.OfPayment(e.found.value.payment)
    then Weigh(measure, e.found.value.amount)
    else 0
  }

  lemma EventAccount(e: Event, policy: Stock.Policy, values: Values, account: nat, cause: Money.Cause, measure: Measure)
    requires EventGoes(e, policy, values)
    ensures Booked(After(EventRecipe(e), values, AccountAt(account)), cause, measure) ==
            Booked(Get(values, AccountAt(account)), cause, measure) + Gained(e, values, account, cause, measure)
  {
    hide Booked, EventRecipe, Money.Post;
    EventAfter(e, policy, values, AccountAt(account));
    if TakesNow(e, values) && e.found.value.account == Some(account) {
      EventRead(e, policy, values);
      PostedBooks(AccountOf(values, account).value, Money.SalePayment, e.found.value.amount,
          Money.OfPayment(e.found.value.payment), cause, measure);
    }
  }

  lemma EventDocument(e: Event, policy: Stock.Policy, values: Values, account: nat, cause: Money.Cause,
      measure: Measure)
    requires EventGoes(e, policy, values) && Documented(cause)
    ensures Due(After(EventRecipe(e), values, DocumentOf(cause)), account, measure) ==
            Due(Get(values, DocumentOf(cause)), account, measure) + Gained(e, values, account, cause, measure)
  {
    hide EventRecipe, TenderedTo;
    EventAfter(e, policy, values, DocumentOf(cause));
    if Acts(e) {
      EventRead(e, policy, values);
    }
  }

  lemma EventMoney(e: Event, policy: Stock.Policy, values: Values, account: nat, cause: Money.Cause, measure: Measure)
    requires EventGoes(e, policy, values) && Documented(cause)
    ensures MoneyKept(EventRecipe(e), values, account, cause, measure)
  {
    hide EventRecipe, Booked, Due, DocumentOf, After, EventGoes, TakesNow;
    EventAccount(e, policy, values, account, cause, measure);
    EventDocument(e, policy, values, account, cause, measure);
  }

  lemma EventSpares(e: Event, policy: Stock.Policy, values: Values, shelf: nat, order: nat, coupon: nat)
    requires EventGoes(e, policy, values)
    ensures HoldKept(EventRecipe(e), values, shelf, order) && UseKept(EventRecipe(e), values, coupon, order)
  {
    hide EventRecipe, HeldBy, SoldFor, Mentions, Stock.Asked, EventGoes;
    EventAfter(e, policy, values, ShelfAt(shelf));
    EventAfter(e, policy, values, CouponAt(coupon));
    EventAfter(e, policy, values, OrderAt(order));
  }

  lemma EventWritesOk(e: Event, policy: Stock.Policy, values: Values)
    ensures WritesOk(policy, EventRecipe(e), values)
  {
    var c := EventRecipe(e);
    if EventGoes(e, policy, values) {
      forall k | k in c.write(values).0 ensures RowOk(policy, k, c.write(values).0[k]) {
        EventRowOk(e, policy, values, k);
      }
    }
  }

  lemma EventTallies(e: Event, policy: Stock.Policy, values: Values)
    ensures TallyKept(policy, EventRecipe(e), values)
  {
    hide EventWrites, MoneyKept, HoldKept, UseKept;
    var c := EventRecipe(e);
    if EventGoes(e, policy, values) {
      forall account: nat, cause: Money.Cause, measure: Measure | Documented(cause)
        ensures MoneyKept(c, values, account, cause, measure)
      {
        EventMoney(e, policy, values, account, cause, measure);
      }
      forall shelf: nat, order: nat ensures HoldKept(c, values, shelf, order) {
        EventSpares(e, policy, values, shelf, order, 0);
      }
      forall coupon: nat, order: nat ensures UseKept(c, values, coupon, order) {
        EventSpares(e, policy, values, 0, order, coupon);
      }
    }
  }

  lemma EventSparesCredits(e: Event)
    ensures SparesCredits(EventRecipe(e))
  {
  }

  lemma EventSure(e: Event, policy: Stock.Policy)
    ensures Sure(policy, EventRecipe(e))
  {
    hide EventRecipe, WritesOk, TallyKept, SparesCredits, Proper, WellMade;
    var c := EventRecipe(e);
    EventWellMade(e);
    EventSparesCredits(e);
    forall values ensures WritesOk(policy, c, values) && TallyKept(policy, c, values) {
      EventWritesOk(e, policy, values);
      EventTallies(e, policy, values);
    }
    ProperWhen(policy, c);
    SureWhen(policy, c);
  }

  // ---- Whole runs: any events, in any number and any order ------------------------------

  function EventRecipes(events: seq<Event>): seq<ShopRecipe> {
    seq(|events|, i requires 0 <= i < |events| => EventRecipe(events[i]))
  }

  function StateOf(db: Database, payment: nat): Option<PaymentState> {
    var row := PaymentIn(Read(db, PaymentAt(payment)));
    if row.Some? then Some(row.value.state) else None
  }

  /** The event is a failure of the payment or a capture of its amount, unheard of, and tells of it as it is. */
  predicate Concerns(e: Event, db: Database, payment: nat) {
    && EventClaim(e.provider, e.event) !in db
    && e.found.Some? && e.found.value.payment == payment
    && (e.kind.Failure? || (e.kind.Capture? && (e.amount.Some? ==> e.amount.value == e.found.value.amount)))
    && PaymentIn(Read(db, PaymentAt(payment))).Some? &&
        SamePayment(PaymentIn(Read(db, PaymentAt(payment))).value, e.found.value)
  }

  /** Nothing else a capture asks for is missing: its order, and an account that takes the money. */
  predicate CanLand(f: Found, db: Database) {
    && OrderIn(Read(db, OrderAt(f.order))).Some?
    && (f.account.Some? ==> f.amount > 0 && Objection(AccountIn(Read(db, AccountAt(f.account.value))), f.amount).None?)
  }

  /** What one event makes of a payment: captured, exactly when it is a capture of a payment that may
      still be; failed, exactly when it is a failure of one whose money is not taken -- a void one
      among them; otherwise what it was. */
  lemma EventSettles(e: Event, policy: Stock.Policy, db: Database, payment: nat)
    requires ShopOk(policy, db)
    ensures var before, after := StateOf(db, payment), StateOf(Effect(EventRecipe(e), db).0, payment);
      after ==
        if !Concerns(e, db, payment) || MoneyTaken(before.value) then before
        else if e.kind.Failure? then Some(Failed)
        else if before.value.Failed? || before.value.Void? || !CanLand(e.found.value, db) then before
        else Some(Captured)
  {
    hide EventRecipe, Money.Post, Objection;
    var c := EventRecipe(e);
    EventShape(e);
    EventWellMade(e);
    var values := Snapshot(Keys(c), db);
    if Acts(e) {
      EventAsksOf(e, db);
    }
    if EventClaim(e.provider, e.event) !in db && EventObjection(e, values).None? {
      ReadAfter(c, db, PaymentAt(payment));
      EventAfter(e, policy, values, PaymentAt(payment));
      if Acts(e) {
        EventRead(e, policy, values);
      }
    }
  }

  /** The rows it asks of are read as they are. */
  lemma EventAsksOf(e: Event, db: Database)
    requires Acts(e)
    ensures var values, f := Snapshot(Keys(EventRecipe(e)), db), e.found.value;
      && PaymentAt(f.payment) in values && Get(values, PaymentAt(f.payment)) == Read(db, PaymentAt(f.payment))
      && (e.kind.Capture? ==> OrderAt(f.order) in values && Get(values, OrderAt(f.order)) == Read(db, OrderAt(f.order)))
      && (e.kind.Capture? && f.account.Some? ==>
            AccountAt(f.account.value) in values &&
            AccountOf(values, f.account.value) == AccountIn(Read(db, AccountAt(f.account.value))))
  {
    var c, f := EventRecipe(e), e.found.value;
    assert EventKeys(e)[0] == PaymentAt(f.payment) && EventKeys(e)[0] in Keys(c);
    SnapshotHas(Keys(c), db, PaymentAt(f.payment));
    if e.kind.Capture? {
      assert EventKeys(e)[1] == OrderAt(f.order) && EventKeys(e)[1] in Keys(c);
      SnapshotHas(Keys(c), db, OrderAt(f.order));
      if f.account.Some? {
        assert EventKeys(e)[2] == AccountAt(f.account.value) && EventKeys(e)[2] in Keys(c);
        SnapshotHas(Keys(c), db, AccountAt(f.account.value));
      }
    }
  }

  /** A void payment becomes a failed one exactly when a failure of it is heard for the first time. */
  lemma VoidFailsExactlyWhen(e: Event, policy: Stock.Policy, db: Database, payment: nat)
    requires ShopOk(policy, db) && StateOf(db, payment) == Some(Void)
    ensures StateOf(Effect(EventRecipe(e), db).0, payment) == Some(Failed) <==>
        Concerns(e, db, payment) && e.kind.Failure?
  {
    hide EventRecipe, Concerns, CanLand;
    EventSettles(e, policy, db, payment);
  }

  const VOIDED: Database := map[PaymentAt(1) := APayment(Payment(1, 5, None, Void))]
  const LATE := Event(0, 0, Failure, None, Some(Found(1, 1, 5, None)))

  /** Such a payment and such an event, on a database that is sound and tallies. */
  lemma AVoidPaymentFails(policy: Stock.Policy)
    ensures ShopOk(policy, VOIDED) && Tally(VOIDED)
    ensures StateOf(VOIDED, 1) == Some(Void) && StateOf(Effect(EventRecipe(LATE), VOIDED).0, 1) == Some(Failed)
  {
    hide EventRecipe;
    assert Concerns(LATE, VOIDED, 1);
    VoidedIsOk(policy);
    EventSettles(LATE, policy, VOIDED, 1);
  }

  lemma VoidedIsOk(policy: Stock.Policy)
    ensures ShopOk(policy, VOIDED) && Tally(VOIDED)
  {
  }

  lemma EventShape(e: Event)
    ensures var c := EventRecipe(e);
      && c.fault.None? && c.claim == Some(EventClaim(e.provider, e.event)) && !RefusedOutright(c)
      && (forall values :: c.check(values) == Refuse(EventObjection(e, values)))
      && forall row :: c.replay(row) == Retold(row)
  {
  }

  /** The outcome of a payment, once reached in any committed state, is never changed by any event. */
  lemma OutcomeStands(
      events: seq<Event>, policy: Stock.Policy, db: Database, early: seq<nat>, late: seq<nat>, payment: nat,
          outcome: PaymentState)
    requires ShopOk(policy, db) && (outcome.Captured? || outcome.Failed?)
    requires var reqs := ToRequests(EventRecipes(events)); Schedulable(reqs, Start(reqs, db), early + late)
    ensures var reqs := ToRequests(EventRecipes(events));
      && Schedulable(reqs, Start(reqs, db), early)
      && (StateOf(Outcome(reqs, db, early).db, payment) == Some(outcome) ==>
            StateOf(Outcome(reqs, db, early + late).db, payment) == Some(outcome))
  {
    var recipes, reqs := EventRecipes(events), ToRequests(EventRecipes(events));
    forall i | 0 <= i < |recipes| ensures Proper(policy, recipes[i]) {
      EventSure(events[i], policy);
    }
    RecipesAreSound(recipes, IsClaim);
    var holds := (d: Database) => ShopOk(policy, d) && StateOf(d, payment) == Some(outcome);
    forall p, d: Database | 0 <= p < |reqs| && holds(d) ensures holds(Serial(reqs[p], d).0) {
      RecipeSerial(recipes[p], IsClaim, d);
      EventSettles(events[p], policy, d, payment);
      assert Proper(policy, recipes[p]);
    }
    RunsInTwo(reqs, Start(reqs, db), early, late);
    AlwaysShopOk(policy, recipes, db, early);
    HoldsFromThenOn(reqs, IsClaim, db, early, late, holds);
  }

  lemma CopyToldResult(events: seq<Event>, db: Database, schedule: seq<nat>, p: nat, result: EventResult)
    requires var reqs := ToRequests(EventRecipes(events));
      && Schedulable(reqs, Start(reqs, db), schedule)
      && p < |events| && p < |Outcome(reqs, db, schedule).workers|
      && Outcome(reqs, db, schedule).workers[p].answer == Some(Made(Heard(result)))
    ensures Read(Outcome(ToRequests(EventRecipes(events)), db, schedule).db,
        EventClaim(events[p].provider, events[p].event)) ==
            Some(Claimed(Heard(result)))
  {
    hide EventRecipe, ToRequests, Outcome;
    var recipes := EventRecipes(events);
    forall i | 0 <= i < |recipes| ensures WellMade(recipes[i], IsClaim) {
      EventWellMade(events[i]);
    }
    EventShape(events[p]);
    EventRetells(events[p]);
    KeyedAnswersAgree(recipes, IsClaim, db, schedule, p);
  }

  /** Every copy of an event, whenever it looked the payment up, that is answered at all is
      answered with the one result stored for it; and every committed state is sound and
      tallies: a payment's money is posted to its account once if it is captured, else never. */
  lemma EveryCopyOneResult(events: seq<Event>, policy: Stock.Policy, db: Database, schedule: seq<nat>)
    requires ShopOk(policy, db) && Tally(db)
    requires var reqs := ToRequests(EventRecipes(events)); Schedulable(reqs, Start(reqs, db), schedule)
    ensures var s := Outcome(ToRequests(EventRecipes(events)), db, schedule);
      && ShopOk(policy, s.db) && Tally(s.db)
      && forall p, result | 0 <= p < |events| && p < |s.workers| && s.workers[p].answer == Some(Made(Heard(result))) ::
           Read(s.db, EventClaim(events[p].provider, events[p].event)) == Some(Claimed(Heard(result)))
  {
    hide EventRecipe, ToRequests, Outcome, ShopOk, Tally;
    var recipes := EventRecipes(events);
    forall i | 0 <= i < |recipes| ensures Sure(policy, recipes[i]) {
      EventSure(events[i], policy);
    }
    AlwaysTallies(policy, recipes, db, schedule);
    var s := Outcome(ToRequests(EventRecipes(events)), db, schedule);
    forall p, result | 0 <= p < |events| && p < |s.workers| && s.workers[p].answer == Some(Made(Heard(result)))
      ensures Read(s.db, EventClaim(events[p].provider, events[p].event)) == Some(Claimed(Heard(result)))
    {
      CopyToldResult(events, db, schedule, p, result);
    }
  }

  /** What the tally says of a payment: taken, its one posting is in its account; not, it has none. */
  lemma PostedOnceIfCaptured(db: Database, payment: nat, account: nat)
    requires Tally(db) && PaymentIn(Read(db, PaymentAt(payment))).Some?
    ensures var row, postings :=
        PaymentIn(Read(db, PaymentAt(payment))).value, PostingsIn(Read(db, AccountAt(account)));
      var here := MoneyTaken(row.state) && row.account == Some(account);
      && Money.CountFor(postings, Money.OfPayment(payment)) == (if here then 1 else 0)
      && Money.SumFor(postings, Money.OfPayment(payment)) == (if here then row.amount else 0)
  {
    var account, cause := Read(db, AccountAt(account)), Money.OfPayment(payment);
    assert Documented(cause) && Booked(account, cause, Entries) == Money.CountFor(PostingsIn(account), cause);
    assert Booked(account, cause, Amounts) == Money.SumFor(PostingsIn(account), cause);
  }
}
