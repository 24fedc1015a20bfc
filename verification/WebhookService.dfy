/** A provider's webhook, statement by statement: the event's row first, then what it does to the
    payment, then its result. */
module WebhookService {
  import opened Wrappers
  import opened RowLocks
  import opened Recipes
  import opened Shop
  import opened Tallies
  import opened CashBook
  import opened Webhooks
  import opened Backend
  import opened CashService
  import Money = MoneyLedger

  function HeldPayment(db: Database, id: nat): Option<Payment> {
    PaymentIn(Read(db, PaymentAt(id)))
  }

  function HeldOrder(db: Database, id: nat): Option<Order> {
    OrderIn(Read(db, OrderAt(id)))
  }

  /** What stops a capture of this payment. */
  function CaptureStops(f: Found, db: Database): Option<Refusal> {
    var payment := HeldPayment(db, f.payment);
    if payment.None? || !SamePayment(payment.value, f) then Some(NoSuchPayment)
    else if MoneyTaken(payment.value.state) then None
    else if payment.value.state.Failed? || payment.value.state.Void? then Some(PaymentClosed)
    else if HeldOrder(db, f.order).None? then Some(NoSuchOrder)
    else if f.account.None? then None
    else if f.amount <= 0 then Some(BadAmount)
    else Objection(AccountNow(db, f.account.value), f.amount)
  }

  function FailureStops(f: Found, db: Database): Option<Refusal> {
    var payment := HeldPayment(db, f.payment);
    if payment.None? || !SamePayment(payment.value, f) then Some(NoSuchPayment)
    else if MoneyTaken(payment.value.state) then Some(PaymentClosed)
    else None
  }

  function EventStops(e: Event, db: Database): Option<Refusal> {
    if !Acts(e) then None
    else if e.kind.Failure? then FailureStops(e.found.value, db)
    else CaptureStops(e.found.value, db)
  }

  function EventKey(e: Event): Key {
    EventClaim(e.provider, e.event)
  }

  lemma EventEnds(e: Event, db: Database)
    ensures Ends(EventRecipe(e), db) ==
            if EventKey(e) in db then Backend.Found(Some(EventKey(e)), db) else Refuse(EventStops(e, db))
  {
    hide Keys, Snapshot, Objection, AccountOf;
    if Acts(e) {
      EventAsksOf(e, db);
    }
  }

  /** The payment captured, its order's total raised, its money posted -- or nothing, if it was. */
  function CapturedRows(f: Found, db: Database): Database {
    var payment, order := HeldPayment(db, f.payment), HeldOrder(db, f.order);
    if payment.None? || MoneyTaken(payment.value.state) || order.None? then db
    else
      var written := db[PaymentAt(f.payment) := APayment(payment.value.(state := Captured, account := f.account))]
                       [OrderAt(f.order) := AnOrder(order.value.(paid := order.value.paid + f.amount))];
      if f.account.None? || AccountNow(db, f.account.value).None? then written
      else
        written[AccountAt(f.account.value) :=
          AnAccount(Money.Post(AccountNow(db, f.account.value).value, Money.SalePayment, f.amount,
              Money.OfPayment(f.payment)))]
  }

  function FailedRows(f: Found, db: Database): Database {
    var payment := HeldPayment(db, f.payment);
    if payment.None? then db else db[PaymentAt(f.payment) := APayment(payment.value.(state := Failed))]
  }

  function EventRows(e: Event, db: Database): Database {
    (if !Acts(e) then db else if e.kind.Failure? then FailedRows(e.found.value, db)
        else CapturedRows(e.found.value, db))
      [EventKey(e) := Claimed(Heard(ResultOf(e)))]
  }

  lemma CapturesAsRead(e: Event, db: Database)
    requires Acts(e) && e.kind.Capture?
    ensures db + Captures(e.found.value, Snapshot(Keys(EventRecipe(e)), db)) == CapturedRows(e.found.value, db)
  {
    hide Keys, Snapshot, AccountOf, Money.Post, EventRecipe;
    EventAsksOf(e, db);
  }

  lemma FailsAsRead(e: Event, db: Database)
    requires Acts(e) && e.kind.Failure?
    ensures db + Fails(e.found.value, Snapshot(Keys(EventRecipe(e)), db)) == FailedRows(e.found.value, db)
  {
    hide Keys, Snapshot, EventRecipe;
    EventAsksOf(e, db);
  }

  lemma EventLeavesRows(e: Event, db: Database)
    ensures Leaves(EventRecipe(e), db) == (EventRows(e, db), Made(Heard(ResultOf(e))))
  {
    hide Keys, Snapshot, Captures, Fails, CapturedRows, FailedRows;
    var c := EventRecipe(e);
    var writes := EventWrites(e, Snapshot(Keys(c), db)).0;
    if Acts(e) {
      if e.kind.Capture? { CapturesAsRead(e, db); } else { FailsAsRead(e, db); }
    } else {
      assert db + map[] == db;
    }
    assert db + writes[EventKey(e) := Claimed(Heard(ResultOf(e)))] ==
        (db + writes)[EventKey(e) := Claimed(Heard(ResultOf(e)))];
  }

  class PaymentsService {
    const db: Store
    const cash: CashBookService

    constructor (db: Store, cash: CashBookService)
      ensures this.db == db && this.cash == cash
    {
      this.db, this.cash := db, cash;
    }

    /** The payment's row locked, then its order's, then its account's: whoever held the lock first
        captured it, and every other capture changes nothing. */
    method Capture(f: Found) returns (why: Option<Refusal>)
      requires cash.db == db && db.locked != []
      modifies db`rows, db`locked
      ensures PartNoted(old(db.locked), db.locked, CaptureKeys(f)) && db.locked != []
      ensures why == CaptureStops(f, old(db.rows))
      ensures why.None? ==> db.rows == CapturedRows(f, old(db.rows))
    {
      hide Objection, Money.Post, PartNoted, NotedAll, Noted;
      CaptureNoted(db.locked, f);
      var row := db.Lock(PaymentAt(f.payment));
      var payment := PaymentIn(row);
      if payment.None? || !SamePayment(payment.value, f) { return Some(NoSuchPayment); }
      if MoneyTaken(payment.value.state) { return None; }
      if payment.value.state.Failed? || payment.value.state.Void? { return Some(PaymentClosed); }
      db.rows := db.rows[PaymentAt(f.payment) := APayment(payment.value.(state := Captured, account := f.account))];
      row := db.Lock(OrderAt(f.order));
      var order := OrderIn(row);
      if order.None? { return Some(NoSuchOrder); }
      db.rows := db.rows[OrderAt(f.order) := AnOrder(order.value.(paid := order.value.paid + f.amount))];
      if f.account.Some? {
        if f.amount <= 0 { return Some(BadAmount); }
        var account := db.LockAccount(f.account.value);
        why := cash.Check(account, f.amount);
        if why.Some? { return; }
        ObjectionNone(account, f.amount);
        db.Apply(f.account.value, account.value, Money.SalePayment, f.amount, Money.OfPayment(f.payment));
      }
      why := None;
    }

    method Fail(f: Found) returns (why: Option<Refusal>)
      requires db.locked != []
      modifies db`rows, db`locked
      ensures db.locked == Noted(old(db.locked), PaymentAt(f.payment))
      ensures why == FailureStops(f, old(db.rows))
      ensures why.None? ==> db.rows == FailedRows(f, old(db.rows))
    {
      hide Noted;
      var row := db.Lock(PaymentAt(f.payment));
      var payment := PaymentIn(row);
      if payment.None? || !SamePayment(payment.value, f) { return Some(NoSuchPayment); }
      if MoneyTaken(payment.value.state) { return Some(PaymentClosed); }
      db.rows := db.rows[PaymentAt(f.payment) := APayment(payment.value.(state := Failed))];
      why := None;
    }

    /** What the event comes to, its row there with no result yet. */
    method Settle(e: Event, ghost pending: Row, ghost start: Database)
      returns (result: EventResult, why: Option<Refusal>)
      requires cash.db == db && db.locked == [EventKey(e)] && db.rows == start[EventKey(e) := pending]
      modifies db`rows, db`locked
      ensures PartNoted([EventKey(e)], db.locked, EventKeys(e)) && db.locked != []
      ensures why == EventStops(e, start)
      ensures why.None? ==> db.rows[EventKey(e) := Claimed(Heard(result))] == EventRows(e, start)
    {
      hide CaptureStops, FailureStops, CapturedRows, FailedRows, PartNoted, NotedAll, Noted, CaptureKeys, EventKeys;
      WrittenAgain(start, EventKey(e), pending, Claimed(Heard(Ignored)));
      WrittenAgain(start, EventKey(e), pending, Claimed(Heard(AmountMismatch)));
      NothingNoted(db.locked, e);
      result, why := Ignored, None;
      if e.found.Some? && e.kind.Capture? {
        if e.amount.Some? && e.amount.value != e.found.value.amount {
          result := AmountMismatch;
        } else {
          EventCaptures(e);
          CaptureAhead(e, start, pending, Claimed(Heard(PaymentCaptured)));
          why := Capture(e.found.value);
          result := PaymentCaptured;
        }
      } else if e.found.Some? && e.kind.Failure? {
        EventFails(db.locked, e);
        FailureAhead(e, start, pending, Claimed(Heard(PaymentFailed)));
        why := Fail(e.found.value);
        result := PaymentFailed;
      }
    }

    /** The event's row inserted with no result yet; a copy that finds it is told its result. */
    method Handle(e: Event) returns (answer: Answer)
      requires cash.db == db && db.locked == []
      modifies db
      ensures db.Ran(EventRecipe(e), old(db.rows), answer)
    {
      hide EventRecipe, Ends, Leaves, EventStops, EventRows, InOrder, InStep, Store.Ran, NotedAll, PartNoted,
           EventKeys;
      ghost var c, first := EventRecipe(e), db.rows;
      EventEnds(e, db.next);
      EventLeavesRows(e, db.next);
      EventSteps(e);
      var made := db.Claim(Some(EventKey(e)), Heard(Ignored));
      if made.Some? {
        db.Stops(c, first, made.value);
        return made.value;
      }
      var result, why := Settle(e, Claimed(Heard(Ignored)), db.next);
      EventInStep(e, db.locked);
      if why.Some? {
        db.Rollback();
        db.Stops(c, first, Refused(why.value));
        return Refused(why.value);
      }
      ResultKept(e, result, db.rows, db.next);
      db.rows := db.rows[EventKey(e) := Claimed(Heard(result))];
      answer := Made(Heard(result));
      db.Finishes(c, first, answer);
    }
  }

  // ---- The rows an event locks, in turn -------------------------------------------------

  function CaptureKeys(f: Found): seq<Key> {
    [PaymentAt(f.payment)] + [OrderAt(f.order)] +
        KeySeq(if f.account.Some? then Some(AccountAt(f.account.value)) else None)
  }

  lemma CaptureNoted(locked: seq<Key>, f: Found)
    requires locked != []
    ensures var first := Noted(locked, PaymentAt(f.payment));
      var second := Noted(first, OrderAt(f.order));
      && PartNoted(locked, locked, CaptureKeys(f)) && PartNoted(locked, first, CaptureKeys(f)) &&
          PartNoted(locked, second, CaptureKeys(f))
      && (f.account.Some? ==> PartNoted(locked, Noted(second, AccountAt(f.account.value)), CaptureKeys(f)))
  {
    hide PartNoted, Noted, NotedAll;
    var payment, order := [PaymentAt(f.payment)], [OrderAt(f.order)];
    NoneNoted(locked);
    NotedNext(locked, [], PaymentAt(f.payment));
    NotedNext(locked, payment, OrderAt(f.order));
    assert [] + payment == payment;
    PartIs(locked, [], CaptureKeys(f));
    PartIs(locked, payment, CaptureKeys(f));
    PartIs(locked, payment + order, CaptureKeys(f));
    if f.account.Some? {
      NotedNext(locked, payment + order, AccountAt(f.account.value));
      PartIs(locked, CaptureKeys(f), CaptureKeys(f));
    }
  }

  lemma EventCaptures(e: Event)
    requires Acts(e) && e.kind.Capture?
    ensures EventKeys(e) == CaptureKeys(e.found.value)
  {
  }

  lemma EventFails(locked: seq<Key>, e: Event)
    requires Acts(e) && e.kind.Failure?
    ensures PartNoted(locked, Noted(locked, PaymentAt(e.found.value.payment)), EventKeys(e))
  {
    var keys := [PaymentAt(e.found.value.payment)];
    NoneNoted(locked);
    NotedNext(locked, [], PaymentAt(e.found.value.payment));
    assert [] + keys == keys == EventKeys(e);
    PartIs(locked, keys, keys);
  }

  lemma NothingNoted(locked: seq<Key>, e: Event)
    ensures PartNoted(locked, locked, EventKeys(e))
  {
    NoneNoted(locked);
    PartIs(locked, [], EventKeys(e));
  }

  lemma EventSteps(e: Event)
    ensures InStep([EventKey(e)], EventRecipe(e)) && NotedAll([], [EventKey(e)]) == [EventKey(e)]
    ensures [EventKey(e)] + EventKeys(e) == InOrder(EventRecipe(e))
  {
    hide EventKeys;
    NotedFirst(EventKey(e));
    StepsTaken(EventRecipe(e), [EventKey(e)], EventKeys(e));
  }

  lemma EventInStep(e: Event, locked: seq<Key>)
    requires PartNoted([EventKey(e)], locked, EventKeys(e))
    ensures InStep(locked, EventRecipe(e))
  {
    hide EventRecipe, EventKeys, PartNoted, InStep, InOrder;
    EventSteps(e);
    PartTaken(EventRecipe(e), [EventKey(e)], locked, EventKeys(e));
  }

  /** The result written is the event's. */
  lemma ResultKept(e: Event, result: EventResult, rows: Database, start: Database)
    requires rows[EventKey(e) := Claimed(Heard(result))] == EventRows(e, start)
    ensures result == ResultOf(e)
  {
    assert EventRows(e, start)[EventKey(e)] == Claimed(Heard(ResultOf(e)));
    assert rows[EventKey(e) := Claimed(Heard(result))][EventKey(e)] == Claimed(Heard(result));
  }

  /** The event's own row is none of those its capture asks for. */
  lemma CaptureAhead(e: Event, db: Database, pending: Row, result: Row)
    requires e.found.Some?
    ensures CaptureStops(e.found.value, db[EventKey(e) := pending]) == CaptureStops(e.found.value, db)
    ensures CapturedRows(e.found.value, db[EventKey(e) := pending])[EventKey(e) := result] ==
            CapturedRows(e.found.value, db)[EventKey(e) := result]
  {
    hide Objection, Money.Post;
  }

  lemma FailureAhead(e: Event, db: Database, pending: Row, result: Row)
    requires e.found.Some?
    ensures FailureStops(e.found.value, db[EventKey(e) := pending]) == FailureStops(e.found.value, db)
    ensures FailedRows(e.found.value, db[EventKey(e) := pending])[EventKey(e) := result] ==
            FailedRows(e.found.value, db)[EventKey(e) := result]
  {
  }
}
