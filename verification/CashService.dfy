/** The cash book's services, statement by statement: each locks the rows its recipe says, in that
    order, looks its key up where the recipe does, and does what the recipe says. */
module CashService {
  import opened Wrappers
  import opened RowLocks
  import opened Recipes
  import opened Shop
  import opened CashBook
  import opened Backend
  import Money = MoneyLedger

  // ---- A movement ---------------------------------------------------------------------

  function MovementKey(m: Movement): Option<Key> {
    if m.token.Some? then Some(MoveClaim(m.token.value)) else None
  }

  lemma MovementReads(m: Movement, db: Database)
    ensures AccountOf(Snapshot(Keys(MovementRecipe(m)), db), m.account) == AccountNow(db, m.account)
  {
    SnapshotHas(Keys(MovementRecipe(m)), db, AccountAt(m.account));
  }

  lemma MovementEnds(m: Movement, db: Database)
    ensures Ends(MovementRecipe(m), db) ==
        if !PostedByHand(m.kind) then Some(Refused(NotAllowed))
        else if Found(MovementKey(m), db).Some? then Found(MovementKey(m), db)
        else if MovementFault(m).Some? then Refuse(MovementFault(m))
        else Refuse(Objection(AccountNow(db, m.account), Moving(m)))
  {
    MovementReads(m, db);
    hide Keys, Snapshot, AccountOf, Objection;
  }

  function MovementRows(m: Movement, db: Database): Database
    requires AccountNow(db, m.account).Some?
  {
    Claiming(
      db[AccountAt(m.account) :=
          AnAccount(Money.Post(AccountNow(db, m.account).value, m.kind, Moving(m), Money.ByHand))],
      MovementKey(m), Posted(m.account, |AccountNow(db, m.account).value.postings|))
  }

  lemma MovementLeaves(m: Movement, db: Database)
    requires AccountNow(db, m.account).Some? && PostedByHand(m.kind)
    ensures Leaves(MovementRecipe(m), db) ==
            (MovementRows(m, db), Made(Posted(m.account, |AccountNow(db, m.account).value.postings|)))
  {
    MovementReads(m, db);
    hide Keys, Snapshot, AccountOf, Money.Post;
    assert Leaves(MovementRecipe(m), db).0 == MovementRows(m, db);
  }

  // ---- A transfer ---------------------------------------------------------------------

  function TransferKey(t: Transfer): Option<Key> {
    if t.token.Some? then Some(AccountTransferClaim(t.token.value)) else None
  }

  lemma TransferReads(t: Transfer, db: Database)
    ensures var values := Snapshot(Keys(TransferRecipe(t)), db);
      && AccountOf(values, t.source) == AccountNow(db, t.source)
      && AccountOf(values, t.target) == AccountNow(db, t.target)
      && Get(values, NumberOf(AccountTransfers)) == Read(db, NumberOf(AccountTransfers))
  {
    var c := TransferRecipe(t);
    assert c.before == BothAccounts(t);
    SnapshotHas(Keys(c), db, AccountAt(t.source));
    SnapshotHas(Keys(c), db, AccountAt(t.target));
    SnapshotHas(Keys(c), db, NumberOf(AccountTransfers));
  }

  lemma TransferEnds(t: Transfer, db: Database)
    ensures var source, target := AccountNow(db, t.source), AccountNow(db, t.target);
      Ends(TransferRecipe(t), db) ==
        if Found(TransferKey(t), db).Some? then Found(TransferKey(t), db)
        else if TransferFault(t).Some? then Refuse(TransferFault(t))
        else if source.None? || target.None? then Some(Refused(NoSuchAccount))
        else if !source.value.active || !target.value.active then Some(Refused(AccountClosed))
        else Refuse(Objection(source, -t.amount))
  {
    TransferReads(t, db);
    hide Keys, Snapshot, AccountOf, Objection;
  }

  function TransferRows(t: Transfer, db: Database): Database
    requires AccountNow(db, t.source).Some? && AccountNow(db, t.target).Some?
  {
    var source, target := AccountNow(db, t.source).value, AccountNow(db, t.target).value;
    var number := LastNumber(Read(db, NumberOf(AccountTransfers))) + 1;
    Claiming(db[NumberOf(AccountTransfers) := Counter(number)], TransferKey(t), Transferred(number))
      [AccountAt(t.source) := AnAccount(Money.Post(source, Money.TransferOut, -t.amount, Money.OfTransfer(number)))]
      [AccountAt(t.target) := AnAccount(Money.Post(target, Money.TransferIn, t.amount, Money.OfTransfer(number)))]
  }

  lemma TransferLeaves(t: Transfer, db: Database)
    requires AccountNow(db, t.source).Some? && AccountNow(db, t.target).Some? && t.source != t.target
    ensures Leaves(TransferRecipe(t), db) ==
            (TransferRows(t, db), Made(Transferred(LastNumber(Read(db, NumberOf(AccountTransfers))) + 1)))
  {
    TransferReads(t, db);
    hide Keys, Snapshot, AccountOf, Money.Post;
    assert Leaves(TransferRecipe(t), db).0 == TransferRows(t, db);
  }

  // ---- An expense ---------------------------------------------------------------------

  function SpendingKey(e: Spending): Option<Key> {
    if e.token.Some? then Some(ExpenseClaim(e.token.value)) else None
  }

  lemma SpendingReads(e: Spending, db: Database)
    ensures var values := Snapshot(Keys(SpendingRecipe(e)), db);
      && ExpenseAt(e.expense) in values && values[ExpenseAt(e.expense)] == Read(db, ExpenseAt(e.expense))
      && AccountAt(e.account) in values && AccountOf(values, e.account) == AccountNow(db, e.account)
      && Get(values, NumberOf(Expenses)) == Read(db, NumberOf(Expenses))
  {
    var c := SpendingRecipe(e);
    SnapshotHas(Keys(c), db, ExpenseAt(e.expense));
    SnapshotHas(Keys(c), db, AccountAt(e.account));
    SnapshotHas(Keys(c), db, NumberOf(Expenses));
  }

  lemma SpendingEnds(e: Spending, db: Database)
    ensures Ends(SpendingRecipe(e), db) ==
        if Found(SpendingKey(e), db).Some? then Found(SpendingKey(e), db)
        else if SpendingFault(e).Some? then Refuse(SpendingFault(e))
        else if ExpenseAt(e.expense) in db then Some(Refused(DuplicateId))
        else Refuse(Objection(AccountNow(db, e.account), -e.amount))
  {
    SpendingReads(e, db);
    hide Keys, Snapshot, AccountOf, Objection;
  }

  function SpendingRows(e: Spending, db: Database): Database
    requires AccountNow(db, e.account).Some?
  {
    var number := LastNumber(Read(db, NumberOf(Expenses))) + 1;
    Claiming(db[NumberOf(Expenses) := Counter(number)], SpendingKey(e), Spent(e.expense))
      [ExpenseAt(e.expense) := AnExpense(Expense(e.account, e.amount, false))]
      [AccountAt(e.account) :=
         AnAccount(Money.Post(AccountNow(db, e.account).value, Money.Expense, -e.amount, Money.OfExpense(e.expense)))]
  }

  /** With its number and its key taken, and then its document there. */
  lemma SpendingOpened(e: Spending, db: Database, number: Row, document: Document, spent: Row)
    ensures var begun := Claiming(db[NumberOf(Expenses) := number], SpendingKey(e), document);
      && Found(SpendingKey(e), db[NumberOf(Expenses) := number]) == Found(SpendingKey(e), db)
      && Read(begun, ExpenseAt(e.expense)) == Read(db, ExpenseAt(e.expense))
      && AccountIn(Read(begun[ExpenseAt(e.expense) := spent], AccountAt(e.account))) == AccountNow(db, e.account)
  {
  }

  lemma SpendingLeaves(e: Spending, db: Database)
    requires AccountNow(db, e.account).Some?
    ensures Leaves(SpendingRecipe(e), db) == (SpendingRows(e, db), Made(Spent(e.expense)))
  {
    SpendingReads(e, db);
    hide Keys, Snapshot, AccountOf, Money.Post;
    assert Leaves(SpendingRecipe(e), db).0 == SpendingRows(e, db);
  }

  // ---- Its void -----------------------------------------------------------------------

  lemma VoidReads(v: Voiding, db: Database)
    ensures var values := Snapshot(Keys(VoidRecipe(v)), db);
      && ExpenseAt(v.expense) in values && Get(values, ExpenseAt(v.expense)) == Read(db, ExpenseAt(v.expense))
      && AccountAt(v.account) in values && AccountOf(values, v.account) == AccountNow(db, v.account)
  {
    var c := VoidRecipe(v);
    SnapshotHas(Keys(c), db, ExpenseAt(v.expense));
    SnapshotHas(Keys(c), db, AccountAt(v.account));
  }

  lemma VoidEnds(v: Voiding, db: Database)
    ensures var expense := ExpenseIn(Read(db, ExpenseAt(v.expense)));
      Ends(VoidRecipe(v), db) ==
        if !v.reason then Some(Refused(ReasonRequired))
        else if expense.None? || expense.value.account != v.account then Some(Refused(NoSuchExpense))
        else if expense.value.voided then Some(Refused(AlreadyVoid))
        else if expense.value.amount == 0 then Some(Refused(BadAmount))
        else Refuse(Objection(AccountNow(db, v.account), expense.value.amount))
  {
    VoidReads(v, db);
    hide Keys, Snapshot, AccountOf, Objection;
  }

  lemma VoidLeaves(v: Voiding, db: Database)
    requires ExpenseIn(Read(db, ExpenseAt(v.expense))).Some? && AccountNow(db, v.account).Some?
    ensures var expense, account := ExpenseIn(Read(db, ExpenseAt(v.expense))).value, AccountNow(db, v.account).value;
      Leaves(VoidRecipe(v), db) ==
        (db[AccountAt(v.account) :=
              AnAccount(Money.Post(account, Money.Adjustment, expense.amount, Money.OfExpense(v.expense)))]
           [ExpenseAt(v.expense) := AnExpense(expense.(voided := true))],
         Made(VoidedExpense(v.expense)))
  {
    VoidReads(v, db);
    hide Keys, Snapshot, AccountOf, Money.Post;
    var expense, account := ExpenseIn(Read(db, ExpenseAt(v.expense))).value, AccountNow(db, v.account).value;
    assert Leaves(VoidRecipe(v), db).0 ==
      db[AccountAt(v.account) :=
          AnAccount(Money.Post(account, Money.Adjustment, expense.amount, Money.OfExpense(v.expense)))]
        [ExpenseAt(v.expense) := AnExpense(expense.(voided := true))];
  }

  // ---- The service --------------------------------------------------------------------

  class CashBookService {
    const db: Store

    constructor (db: Store)
      ensures this.db == db
    {
      this.db := db;
    }

    /** Closed, or without the money to pay it out. */
    method Check(account: Option<Money.Account>, delta: int) returns (why: Option<Refusal>)
      ensures why == Objection(account, delta)
    {
      if account.None? { return Some(NoSuchAccount); }
      if !account.value.active { return Some(AccountClosed); }
      if delta < 0 && account.value.balance + delta < 0 && !account.value.overdraft { return Some(InsufficientFunds); }
      why := None;
    }

    /** What is wrong with a movement before its account is locked, and what it comes to. */
    method CheckMovement(m: Movement) returns (why: Option<Refusal>, delta: int)
      requires PostedByHand(m.kind)
      ensures why == MovementFault(m) && (why.None? ==> delta == Moving(m))
    {
      delta := m.amount;
      if m.kind.Adjustment? {
        if m.amount == 0 { return Some(BadAmount), delta; }
      } else {
        if m.amount <= 0 { return Some(BadAmount), delta; }
        delta := m.amount * Money.Sign(m.kind);
      }
      why := if NeedsReason(m.kind) && !m.reason then Some(ReasonRequired) else None;
    }

    method Move(m: Movement) returns (answer: Answer)
      requires db.locked == []
      modifies db
      ensures db.Ran(MovementRecipe(m), old(db.rows), answer) && db.LockedAll(MovementRecipe(m))
    {
      hide MovementRecipe, MovementFault, Ends, Leaves, Objection, Money.Post, InOrder, InStep, Store.Ran, NotedAll;
      ghost var c, first := MovementRecipe(m), db.rows;
      MovementEnds(m, first);
      MovementEnds(m, db.next);
      MovementSteps(m);
      if !PostedByHand(m.kind) {
        answer := Refused(NotAllowed);
        db.StopsAtOnce(c, first, answer);
        return;
      }
      var made := db.MadeBy(MovementKey(m));
      if made.Some? {
        db.StopsAtOnce(c, first, made.value);
        return made.value;
      }
      var why, delta := CheckMovement(m);
      if why.Some? {
        db.StopsAtOnce(c, first, Refused(why.value));
        return Refused(why.value);
      }
      var account := db.LockAccount(m.account);
      made := db.MadeBy(MovementKey(m));
      if made.Some? {
        db.Stops(c, first, made.value);
        return made.value;
      }
      why := Check(account, delta);
      if why.Some? {
        db.Stops(c, first, Refused(why.value));
        return Refused(why.value);
      }
      ObjectionNone(account, delta);
      MovementLeaves(m, db.next);
      db.Apply(m.account, account.value, m.kind, delta, Money.ByHand);
      answer := Made(Posted(m.account, |account.value.postings|));
      db.Insert(MovementKey(m), Posted(m.account, |account.value.postings|));
      db.Finishes(c, first, answer);
    }

    /** Both rows locked, lowest id first. */
    method LockBoth(t: Transfer) returns (source: Option<Money.Account>, target: Option<Money.Account>)
      requires db.locked == [] && t.source != t.target
      modifies db`rows, db`locked
      ensures db.rows == db.next && db.locked == LowFirst(t)
      ensures source == AccountNow(db.next, t.source) && target == AccountNow(db.next, t.target)
    {
      var low := db.LockAccount(if t.source < t.target then t.source else t.target);
      var high := db.LockAccount(if t.source < t.target then t.target else t.source);
      source := if t.source < t.target then low else high;
      target := if t.source < t.target then high else low;
    }

    /** Numbered and its key claimed before any money moves. */
    method Transfer(t: Transfer) returns (answer: Answer)
      requires db.locked == []
      modifies db
      ensures db.Ran(TransferRecipe(t), old(db.rows), answer) && db.LockedAll(TransferRecipe(t))
    {
      hide TransferRecipe, Ends, Leaves, Objection, Money.Post, InOrder, InStep, Store.Ran, NotedAll;
      ghost var c, first := TransferRecipe(t), db.rows;
      TransferEnds(t, first);
      TransferEnds(t, db.next);
      var made := db.MadeBy(TransferKey(t));
      if made.Some? {
        db.StopsAtOnce(c, first, made.value);
        return made.value;
      }
      if t.source == t.target || t.amount <= 0 {
        answer := Refused(if t.source == t.target then SameAccount else BadAmount);
        db.StopsAtOnce(c, first, answer);
        return;
      }
      TransferSteps(t);
      var source, target := LockBoth(t);
      made := db.MadeBy(TransferKey(t));
      if made.Some? {
        db.Stops(c, first, made.value);
        return made.value;
      }
      if source.None? || target.None? {
        db.Stops(c, first, Refused(NoSuchAccount));
        return Refused(NoSuchAccount);
      }
      if !source.value.active || !target.value.active {
        db.Stops(c, first, Refused(AccountClosed));
        return Refused(AccountClosed);
      }
      var why := Check(source, -t.amount);
      if why.Some? {
        db.Stops(c, first, Refused(why.value));
        return Refused(why.value);
      }
      TransferLeaves(t, db.next);
      var number := db.NextNumber(AccountTransfers);
      answer := Made(Transferred(number));
      db.Insert(TransferKey(t), Transferred(number));
      db.Apply(t.source, source.value, Money.TransferOut, -t.amount, Money.OfTransfer(number));
      db.Apply(t.target, target.value, Money.TransferIn, t.amount, Money.OfTransfer(number));
      db.Finishes(c, first, answer);
    }

    /** The document first, then its movement: the movement refused takes the document, its number
        and its key with it. */
    method Spend(e: Spending) returns (answer: Answer)
      requires db.locked == []
      modifies db
      ensures db.Ran(SpendingRecipe(e), old(db.rows), answer) && db.LockedAll(SpendingRecipe(e))
    {
      hide SpendingRecipe, Ends, Leaves, Objection, Money.Post, InOrder, InStep, Store.Ran, NotedAll, Claiming,
           AccountNow, AccountIn, SpendingKey, Found, Noted, WithKey;
      ghost var c, first := SpendingRecipe(e), db.rows;
      SpendingEnds(e, first);
      SpendingEnds(e, db.next);
      SpendingSteps(e);
      var made := db.MadeBy(SpendingKey(e));
      if made.Some? {
        db.StopsAtOnce(c, first, made.value);
        return made.value;
      }
      if e.amount <= 0 || !e.allowed {
        answer := Refused(if e.amount <= 0 then BadAmount else NotAllowed);
        db.StopsAtOnce(c, first, answer);
        return;
      }
      var number := db.NextNumber(Expenses);
      ghost var spent := AnExpense(Expense(e.account, e.amount, false));
      SpendingOpened(e, db.next, Counter(number), Spent(e.expense), spent);
      made := db.Claim(SpendingKey(e), Spent(e.expense));
      if made.Some? {
        db.Rollback();
        db.Stops(c, first, made.value);
        return made.value;
      }
      var row := db.Lock(ExpenseAt(e.expense));
      if row.Some? {
        db.Rollback();
        db.Stops(c, first, Refused(DuplicateId));
        return Refused(DuplicateId);
      }
      db.rows := db.rows[ExpenseAt(e.expense) := AnExpense(Expense(e.account, e.amount, false))];
      var account := db.LockAccount(e.account);
      var why := Check(account, -e.amount);
      if why.Some? {
        db.Rollback();
        db.Stops(c, first, Refused(why.value));
        return Refused(why.value);
      }
      ObjectionNone(account, -e.amount);
      SpendingLeaves(e, db.next);
      db.Apply(e.account, account.value, Money.Expense, -e.amount, Money.OfExpense(e.expense));
      answer := Made(Spent(e.expense));
      db.Finishes(c, first, answer);
    }

    /** The money put back first, then the document marked. */
    method VoidExpense(v: Voiding) returns (answer: Answer)
      requires db.locked == []
      modifies db
      ensures db.Ran(VoidRecipe(v), old(db.rows), answer) && db.LockedAll(VoidRecipe(v))
    {
      hide VoidRecipe, Ends, Leaves, Objection, Money.Post, InOrder, InStep, Store.Ran, NotedAll;
      ghost var c, first := VoidRecipe(v), db.rows;
      VoidEnds(v, first);
      VoidEnds(v, db.next);
      VoidSteps(v);
      if !v.reason {
        db.StopsAtOnce(c, first, Refused(ReasonRequired));
        return Refused(ReasonRequired);
      }
      var row := db.Lock(ExpenseAt(v.expense));
      var expense := ExpenseIn(row);
      if expense.None? || expense.value.account != v.account {
        db.Stops(c, first, Refused(NoSuchExpense));
        return Refused(NoSuchExpense);
      }
      if expense.value.voided || expense.value.amount == 0 {
        answer := Refused(if expense.value.voided then AlreadyVoid else BadAmount);
        db.Stops(c, first, answer);
        return;
      }
      var account := db.LockAccount(v.account);
      var why := Check(account, expense.value.amount);
      if why.Some? {
        db.Stops(c, first, Refused(why.value));
        return Refused(why.value);
      }
      ObjectionNone(account, expense.value.amount);
      VoidLeaves(v, db.next);
      db.Apply(v.account, account.value, Money.Adjustment, expense.value.amount, Money.OfExpense(v.expense));
      db.rows := db.rows[ExpenseAt(v.expense) := AnExpense(expense.value.(voided := true))];
      answer := Made(VoidedExpense(v.expense));
      db.Finishes(c, first, answer);
    }
  }

  // ---- The rows each locks, in turn -----------------------------------------------------

  lemma MovementSteps(m: Movement)
    ensures InStep([], MovementRecipe(m)) && InStep([AccountAt(m.account)], MovementRecipe(m))
    ensures PostedByHand(m.kind) ==>
              NotedAll([], InOrder(MovementRecipe(m))) == WithKey([AccountAt(m.account)], MovementKey(m))
    ensures PostedByHand(m.kind) ==> InStep(WithKey([AccountAt(m.account)], MovementKey(m)), MovementRecipe(m))
  {
    var c, k := MovementRecipe(m), AccountAt(m.account);
    NoSteps(c);
    NotedFirst(k);
    StepsTaken(c, [k], InOrder(c)[1..]);
    if PostedByHand(m.kind) {
      NotedKey([k], MovementKey(m));
      assert InOrder(c) == [k] + KeySeq(MovementKey(m));
      StepsTaken(c, InOrder(c), []);
    }
  }

  function LowFirst(t: Transfer): seq<Key> {
    [AccountAt(if t.source < t.target then t.source else t.target),
        AccountAt(if t.source < t.target then t.target else t.source)]
  }

  lemma TransferSteps(t: Transfer)
    requires t.source != t.target
    ensures InStep(LowFirst(t), TransferRecipe(t))
    ensures LowFirst(t) == Noted([LowFirst(t)[0]], LowFirst(t)[1])
    ensures var all := WithKey(Noted(LowFirst(t), NumberOf(AccountTransfers)), TransferKey(t));
      all == NotedAll([], InOrder(TransferRecipe(t))) && InStep(all, TransferRecipe(t))
  {
    var c, low, high := TransferRecipe(t), LowFirst(t)[0], LowFirst(t)[1];
    NotedFirst(low);
    NotedNext([], [low], high);
    NotedNext([], LowFirst(t), NumberOf(AccountTransfers));
    NotedKey(LowFirst(t) + [NumberOf(AccountTransfers)], TransferKey(t));
    assert [low] + [high] == LowFirst(t);
    assert InOrder(c) == LowFirst(t) + [NumberOf(AccountTransfers)] + KeySeq(TransferKey(t));
    StepsTaken(c, LowFirst(t), InOrder(c)[2..]);
    StepsTaken(c, InOrder(c), []);
  }

  lemma SpendingSteps(e: Spending)
    ensures InStep([], SpendingRecipe(e))
    ensures var first, c := WithKey([NumberOf(Expenses)], SpendingKey(e)), SpendingRecipe(e);
      var second := Noted(first, ExpenseAt(e.expense));
      var all := Noted(second, AccountAt(e.account));
      InStep(first, c) && InStep(second, c) && InStep(all, c) && all == NotedAll([], InOrder(c))
  {
    var c := SpendingRecipe(e);
    var first := [NumberOf(Expenses)] + KeySeq(SpendingKey(e));
    NoSteps(c);
    NotedFirst(NumberOf(Expenses));
    NotedKey([NumberOf(Expenses)], SpendingKey(e));
    NotedNext([], first, ExpenseAt(e.expense));
    NotedNext([], first + [ExpenseAt(e.expense)], AccountAt(e.account));
    assert InOrder(c) == first + [ExpenseAt(e.expense)] + [AccountAt(e.account)];
    StepsTaken(c, first, [ExpenseAt(e.expense)] + [AccountAt(e.account)]);
    StepsTaken(c, first + [ExpenseAt(e.expense)], [AccountAt(e.account)]);
    StepsTaken(c, InOrder(c), []);
  }

  lemma VoidSteps(v: Voiding)
    ensures InStep([], VoidRecipe(v)) && InStep([ExpenseAt(v.expense)], VoidRecipe(v))
    ensures var all := Noted([ExpenseAt(v.expense)], AccountAt(v.account));
      InStep(all, VoidRecipe(v)) && all == NotedAll([], InOrder(VoidRecipe(v)))
  {
    var c := VoidRecipe(v);
    NoSteps(c);
    NotedFirst(ExpenseAt(v.expense));
    NotedNext([], [ExpenseAt(v.expense)], AccountAt(v.account));
    assert InOrder(c) == [ExpenseAt(v.expense)] + [AccountAt(v.account)];
    StepsTaken(c, [ExpenseAt(v.expense)], [AccountAt(v.account)]);
    StepsTaken(c, InOrder(c), []);
  }

  lemma ObjectionNone(account: Option<Money.Account>, delta: int)
    requires Objection(account, delta).None?
    ensures account.Some? && account.value.active && Money.CanReduce(account.value, delta)
  {
  }
}
