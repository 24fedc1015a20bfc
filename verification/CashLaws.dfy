/** The cash book's requests in figures: what each is answered in every case, and every row it leaves. */
module CashLaws {
  import opened Wrappers
  import opened RowLocks
  import opened Recipes
  import opened Shop
  import opened CashBook
  import Money = MoneyLedger
  import Stock = StockLedger

  function MoveKey(token: Option<Token>): Option<Key> {
    if token.Some? then Some(MoveClaim(token.value)) else None
  }

  /** A deposit raises the balance by its amount and a withdrawal lowers it, an adjustment moves it as signed,
      each with the one posting of its kind; money an account does not hold leaves it only overdrawn. */
  lemma MovementAnswers(m: Movement, db: Database)
    requires m.token.Some? ==> MoveClaim(m.token.value) !in db
    ensures var (after, answer) := Effect(MovementRecipe(m), db);
      var account, delta := AccountIn(Read(db, AccountAt(m.account))),
                            if m.kind.Withdrawal? then -m.amount else m.amount;
      if m.kind !in {Money.Deposit, Money.Withdrawal, Money.Adjustment} then
        after == db && answer == Refused(NotAllowed)
      else if (if m.kind.Adjustment? then m.amount == 0 else m.amount <= 0) then
        after == db && answer == Refused(BadAmount)
      else if !m.kind.Deposit? && !m.reason then after == db && answer == Refused(ReasonRequired)
      else if account.None? then after == db && answer == Refused(NoSuchAccount)
      else if !account.value.active then after == db && answer == Refused(AccountClosed)
      else
        var a := account.value;
        if delta < 0 && a.balance + delta < 0 && !a.overdraft then after == db && answer == Refused(InsufficientFunds)
        else
          var posting, made := Money.Posting(m.kind, delta, a.balance + delta, Money.ByHand),
                               Posted(m.account, |a.postings|);
          && answer == Made(made)
          && after == UnderKey(
               db[AccountAt(m.account) :=
                   AnAccount(a.(balance := a.balance + delta, postings := a.postings + [posting]))],
               MoveKey(m.token), made)
  {
    var c := MovementRecipe(m);
    assert Keys(c) == [AccountAt(m.account)];
    SnapshotHas(Keys(c), db, AccountAt(m.account));
  }

  predicate BothTake(t: Transfer, db: Database) {
    var source, target := AccountIn(Read(db, AccountAt(t.source))), AccountIn(Read(db, AccountAt(t.target)));
    && t.source != t.target && t.amount > 0
    && source.Some? && target.Some? && source.value.active && target.value.active
    && (source.value.balance >= t.amount || source.value.overdraft)
  }

  function TransferKey(token: Option<Token>): Option<Key> {
    if token.Some? then Some(AccountTransferClaim(token.value)) else None
  }

  lemma TransferGoes(t: Transfer, db: Database)
    requires BothTake(t, db) && (t.token.Some? ==> AccountTransferClaim(t.token.value) !in db)
    ensures var from := AccountIn(Read(db, AccountAt(t.source))).value;
      var to := AccountIn(Read(db, AccountAt(t.target))).value;
      var number := LastNumber(Read(db, NumberOf(AccountTransfers))) + 1;
      var out := Money.Posting(Money.TransferOut, -t.amount, from.balance - t.amount, Money.OfTransfer(number));
      var into := Money.Posting(Money.TransferIn, t.amount, to.balance + t.amount, Money.OfTransfer(number));
      && Effect(TransferRecipe(t), db).1 == Made(Transferred(number))
      && Effect(TransferRecipe(t), db).0 == UnderKey(
           db[AccountAt(t.source) :=
                AnAccount(from.(balance := from.balance - t.amount, postings := from.postings + [out]))]
             [AccountAt(t.target) :=
                AnAccount(to.(balance := to.balance + t.amount, postings := to.postings + [into]))]
             [NumberOf(AccountTransfers) := Counter(number)],
           TransferKey(t.token), Transferred(number))
  {
    hide Effect, Snapshot;
    var c := TransferRecipe(t);
    SnapshotHas(Keys(c), db, AccountAt(t.source));
    SnapshotHas(Keys(c), db, AccountAt(t.target));
    SnapshotHas(Keys(c), db, NumberOf(AccountTransfers));
    EffectGoes(c, db);
  }

  lemma TransferStops(t: Transfer, db: Database)
    requires !BothTake(t, db) && (t.token.Some? ==> AccountTransferClaim(t.token.value) !in db)
    ensures var source, target := AccountIn(Read(db, AccountAt(t.source))), AccountIn(Read(db, AccountAt(t.target)));
      Effect(TransferRecipe(t), db) == (
        db,
        Refused(
          if t.source == t.target then SameAccount
          else if t.amount <= 0 then BadAmount
          else if source.None? || target.None? then NoSuchAccount
          else if !source.value.active || !target.value.active then AccountClosed
          else InsufficientFunds))
  {
    hide TransferWrites;
    var c := TransferRecipe(t);
    SnapshotHas(Keys(c), db, AccountAt(t.source));
    SnapshotHas(Keys(c), db, AccountAt(t.target));
  }

  /** What leaves the one account is what the other gets, under the next number. */
  lemma TransferAnswers(t: Transfer, db: Database)
    requires t.token.Some? ==> AccountTransferClaim(t.token.value) !in db
    ensures var (after, answer) := Effect(TransferRecipe(t), db);
      var source, target := AccountIn(Read(db, AccountAt(t.source))), AccountIn(Read(db, AccountAt(t.target)));
      if t.source == t.target then after == db && answer == Refused(SameAccount)
      else if t.amount <= 0 then after == db && answer == Refused(BadAmount)
      else if source.None? || target.None? then after == db && answer == Refused(NoSuchAccount)
      else if !source.value.active || !target.value.active then after == db && answer == Refused(AccountClosed)
      else if source.value.balance < t.amount && !source.value.overdraft then
        after == db && answer == Refused(InsufficientFunds)
      else
        var from, to, number := source.value, target.value, LastNumber(Read(db, NumberOf(AccountTransfers))) + 1;
        var out := Money.Posting(Money.TransferOut, -t.amount, from.balance - t.amount, Money.OfTransfer(number));
        var into := Money.Posting(Money.TransferIn, t.amount, to.balance + t.amount, Money.OfTransfer(number));
        && answer == Made(Transferred(number))
        && after == UnderKey(
             db[AccountAt(t.source) :=
                  AnAccount(from.(balance := from.balance - t.amount, postings := from.postings + [out]))]
               [AccountAt(t.target) :=
                  AnAccount(to.(balance := to.balance + t.amount, postings := to.postings + [into]))]
               [NumberOf(AccountTransfers) := Counter(number)],
             TransferKey(t.token), Transferred(number))
  {
    hide TransferRecipe, Effect;
    if BothTake(t, db) {
      TransferGoes(t, db);
    } else {
      TransferStops(t, db);
    }
  }

  /** An expense takes its amount from its account as it is written, or is not written. */
  lemma SpendingAnswers(e: Spending, db: Database)
    requires e.token.Some? ==> ExpenseClaim(e.token.value) !in db
    ensures var (after, answer), account := Effect(SpendingRecipe(e), db), AccountIn(Read(db, AccountAt(e.account)));
      if e.amount <= 0 then after == db && answer == Refused(BadAmount)
      else if !e.allowed then after == db && answer == Refused(NotAllowed)
      else if ExpenseAt(e.expense) in db then after == db && answer == Refused(DuplicateId)
      else if account.None? then after == db && answer == Refused(NoSuchAccount)
      else if !account.value.active then after == db && answer == Refused(AccountClosed)
      else
        var a := account.value;
        if a.balance < e.amount && !a.overdraft then after == db && answer == Refused(InsufficientFunds)
        else
          var posting := Money.Posting(Money.Expense, -e.amount, a.balance - e.amount, Money.OfExpense(e.expense));
          && answer == Made(Spent(e.expense))
          && after == UnderKey(
               db[NumberOf(Expenses) := Counter(LastNumber(Read(db, NumberOf(Expenses))) + 1)]
                 [ExpenseAt(e.expense) := AnExpense(Expense(e.account, e.amount, false))]
                 [AccountAt(e.account) :=
                    AnAccount(a.(balance := a.balance - e.amount, postings := a.postings + [posting]))],
               if e.token.Some? then Some(ExpenseClaim(e.token.value)) else None, Spent(e.expense))
  {
    var c := SpendingRecipe(e);
    SnapshotHas(Keys(c), db, ExpenseAt(e.expense));
    SnapshotHas(Keys(c), db, AccountAt(e.account));
    SnapshotHas(Keys(c), db, NumberOf(Expenses));
  }

  /** A void puts exactly the expense's amount back, once. */
  lemma VoidAnswers(v: Voiding, policy: Stock.Policy, db: Database)
    requires ShopOk(policy, db)
    ensures var (after, answer) := Effect(VoidRecipe(v), db);
      var expense, account := ExpenseIn(Read(db, ExpenseAt(v.expense))), AccountIn(Read(db, AccountAt(v.account)));
      if !v.reason then after == db && answer == Refused(ReasonRequired)
      else if expense.None? || expense.value.account != v.account then after == db && answer == Refused(NoSuchExpense)
      else if expense.value.voided then after == db && answer == Refused(AlreadyVoid)
      else if account.None? then after == db && answer == Refused(NoSuchAccount)
      else if !account.value.active then after == db && answer == Refused(AccountClosed)
      else
        var a, back := account.value, expense.value.amount;
        var posting := Money.Posting(Money.Adjustment, back, a.balance + back, Money.OfExpense(v.expense));
        && answer == Made(VoidedExpense(v.expense))
        && after ==
             db[ExpenseAt(v.expense) := AnExpense(Expense(v.account, back, true))]
               [AccountAt(v.account) :=
                  AnAccount(a.(balance := a.balance + back, postings := a.postings + [posting]))]
  {
    var c := VoidRecipe(v);
    SnapshotHas(Keys(c), db, ExpenseAt(v.expense));
    SnapshotHas(Keys(c), db, AccountAt(v.account));
  }
}
