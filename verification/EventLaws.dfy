/** A payment event in figures: its result in every case, told from its kind, its amount and the payment's own
    row, and every row it leaves. */
module EventLaws {
  import opened Wrappers
  import opened RowLocks
  import opened Recipes
  import opened Shop
  import opened Tallies
  import opened CashBook
  import opened Webhooks
  import Money = MoneyLedger
  import Stock = StockLedger

  /** What the event's look-up told of the payment is true of its row; only its state may have moved since. */
  predicate Tells(f: Found, db: Database) {
    var p := PaymentIn(Read(db, PaymentAt(f.payment)));
    p.Some? && p.value.order == f.order && p.value.amount == f.amount && p.value.account in {None, f.account}
  }

  /** Nothing but the event's own row, with its result. */
  function HeardOnly(e: Event, db: Database, result: EventResult): Database {
    db[EventClaim(e.provider, e.event) := Claimed(Heard(result))]
  }

  lemma EventIgnored(e: Event, db: Database)
    requires EventClaim(e.provider, e.event) !in db
    requires e.found.None? || e.kind.Other?
    ensures var (after, answer) := Effect(EventRecipe(e), db);
      after == HeardOnly(e, db, Ignored) && answer == Made(Heard(Ignored))
  {
  }

  /** A verified event for another amount is stored as that, and moves nothing. */
  lemma EventMismatched(e: Event, db: Database)
    requires EventClaim(e.provider, e.event) !in db
    requires e.found.Some? && Tells(e.found.value, db) && e.kind.Capture?
    requires e.amount.Some? && e.amount.value != PaymentIn(Read(db, PaymentAt(e.found.value.payment))).value.amount
    ensures var (after, answer) := Effect(EventRecipe(e), db);
      after == HeardOnly(e, db, AmountMismatch) && answer == Made(Heard(AmountMismatch))
  {
  }

  /** A failure fails any payment whose money is not taken, whatever amount it tells. */
  lemma EventFailed(e: Event, db: Database)
    requires EventClaim(e.provider, e.event) !in db
    requires e.found.Some? && Tells(e.found.value, db) && e.kind.Failure?
    ensures var (after, answer), f := Effect(EventRecipe(e), db), e.found.value;
      var p := PaymentIn(Read(db, PaymentAt(f.payment))).value;
      if p.state in {Captured, PartlyRefunded, FullyRefunded} then after == db && answer == Refused(PaymentClosed)
      else
        && answer == Made(Heard(PaymentFailed))
        && after == HeardOnly(e, db[PaymentAt(f.payment) := APayment(p.(state := Failed))], PaymentFailed)
  {
    var c := EventRecipe(e);
    assert Keys(c) == [PaymentAt(e.found.value.payment)];
    SnapshotHas(Keys(c), db, PaymentAt(e.found.value.payment));
  }

  /** A capture's money, looked up once for all its cases. */
  function LandsIn(e: Event, db: Database): Option<Money.Account>
    requires e.found.Some? && e.found.value.account.Some?
  {
    AccountIn(Read(db, AccountAt(e.found.value.account.value)))
  }

  /** What stops a capture of the payment's own amount. */
  function CaptureStops(e: Event, db: Database): Option<Refusal>
    requires e.found.Some? && Tells(e.found.value, db)
  {
    var f := e.found.value;
    var state := PaymentIn(Read(db, PaymentAt(f.payment))).value.state;
    if state in {Captured, PartlyRefunded, FullyRefunded} then None
    else if state in {Failed, Void} then Some(PaymentClosed)
    else if OrderIn(Read(db, OrderAt(f.order))).None? then Some(NoSuchOrder)
    else if f.account.None? then None
    else if LandsIn(e, db).None? then Some(NoSuchAccount)
    else if !LandsIn(e, db).value.active then Some(AccountClosed)
    else None
  }

  lemma CaptureIsStopped(e: Event, policy: Stock.Policy, db: Database)
    requires ShopOk(policy, db) && e.found.Some? && Tells(e.found.value, db) && e.kind.Capture?
    requires e.amount in {None, Some(PaymentIn(Read(db, PaymentAt(e.found.value.payment))).value.amount)}
    ensures EventObjection(e, Snapshot(Keys(EventRecipe(e)), db)) == CaptureStops(e, db)
  {
    hide Snapshot, EventRecipe;
    EventAsksOf(e, db);
    assert RowOk(policy, PaymentAt(e.found.value.payment), db[PaymentAt(e.found.value.payment)]);
  }

  lemma CaptureWrites(e: Event, db: Database)
    requires e.found.Some? && Tells(e.found.value, db) && e.kind.Capture? && CaptureStops(e, db).None?
    requires e.amount in {None, Some(PaymentIn(Read(db, PaymentAt(e.found.value.payment))).value.amount)}
    ensures var (writes, answer), f := EventWrites(e, Snapshot(Keys(EventRecipe(e)), db)), e.found.value;
      var p, o := PaymentIn(Read(db, PaymentAt(f.payment))).value, OrderIn(Read(db, OrderAt(f.order)));
      && answer == Made(Heard(PaymentCaptured))
      && db + writes == (
           if p.state in {Captured, PartlyRefunded, FullyRefunded} then db
           else
             var taken := db[PaymentAt(f.payment) := APayment(p.(state := Captured, account := f.account))]
                            [OrderAt(p.order) := AnOrder(o.value.(paid := o.value.paid + p.amount))];
             if f.account.None? then taken
             else
               var a := LandsIn(e, db).value;
               var posting :=
                 Money.Posting(Money.SalePayment, p.amount, a.balance + p.amount, Money.OfPayment(f.payment));
               taken[AccountAt(f.account.value) :=
                       AnAccount(a.(balance := a.balance + p.amount, postings := a.postings + [posting]))])
  {
    hide Snapshot, EventRecipe;
    EventAsksOf(e, db);
  }

  /** A capture of the payment's own amount takes a waiting payment's money once: the payment captured, its order
      paid by as much, and its account up by it with one posting, if the branch has an account for it. */
  lemma EventCaptured(e: Event, policy: Stock.Policy, db: Database)
    requires EventClaim(e.provider, e.event) !in db && ShopOk(policy, db)
    requires e.found.Some? && Tells(e.found.value, db) && e.kind.Capture?
    requires e.amount in {None, Some(PaymentIn(Read(db, PaymentAt(e.found.value.payment))).value.amount)}
    ensures var (after, answer), f := Effect(EventRecipe(e), db), e.found.value;
      var p, o := PaymentIn(Read(db, PaymentAt(f.payment))).value, OrderIn(Read(db, OrderAt(f.order)));
      if p.state in {Captured, PartlyRefunded, FullyRefunded} then
        after == HeardOnly(e, db, PaymentCaptured) && answer == Made(Heard(PaymentCaptured))
      else if p.state in {Failed, Void} then after == db && answer == Refused(PaymentClosed)
      else if o.None? then after == db && answer == Refused(NoSuchOrder)
      else
        var taken := db[PaymentAt(f.payment) := APayment(p.(state := Captured, account := f.account))]
                       [OrderAt(p.order) := AnOrder(o.value.(paid := o.value.paid + p.amount))];
        if f.account.None? then
          after == HeardOnly(e, taken, PaymentCaptured) && answer == Made(Heard(PaymentCaptured))
        else
          var account := AccountIn(Read(db, AccountAt(f.account.value)));
          if account.None? then after == db && answer == Refused(NoSuchAccount)
          else if !account.value.active then after == db && answer == Refused(AccountClosed)
          else
            var a := account.value;
            var posting :=
              Money.Posting(Money.SalePayment, p.amount, a.balance + p.amount, Money.OfPayment(f.payment));
            && answer == Made(Heard(PaymentCaptured))
            && after == HeardOnly(
                 e,
                 taken[AccountAt(f.account.value) :=
                         AnAccount(a.(balance := a.balance + p.amount, postings := a.postings + [posting]))],
                 PaymentCaptured)
  {
    hide EventObjection, EventWrites, Snapshot;
    var c := EventRecipe(e);
    CaptureIsStopped(e, policy, db);
    if CaptureStops(e, db).Some? {
      EffectStops(c, db);
    } else {
      CaptureWrites(e, db);
      EffectGoes(c, db);
    }
  }
}
