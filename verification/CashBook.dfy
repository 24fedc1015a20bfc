/** The cash book's requests: a movement, a transfer, an expense and its void. */
module CashBook {
  import opened Wrappers
  import opened RowLocks
  import opened LockOrder
  import opened Recipes
  import opened Runs
  import opened Shop
  import opened Tallies
  import Money = MoneyLedger
  import Stock = StockLedger

  function Refuse(why: Option<Refusal>): Option<Answer> {
    if why.None? then None else Some(Refused(why.value))
  }

  /** What a locked account says to a posting. */
  function Objection(account: Option<Money.Account>, delta: int): Option<Refusal> {
    if account.None? then Some(NoSuchAccount)
    else if !account.value.active then Some(AccountClosed)
    else if !Money.CanReduce(account.value, delta) then Some(InsufficientFunds)
    else None
  }

  function AccountOf(values: Values, id: nat): Option<Money.Account> {
    AccountIn(Get(values, AccountAt(id)))
  }

  lemma PostedOk(policy: Stock.Policy, values: Values, id: nat, kind: Money.Kind, delta: int, cause: Money.Cause)
    requires ValuesOk(policy, values) && Objection(AccountOf(values, id), delta).None?
    ensures RowOk(policy, AccountAt(id), AnAccount(Money.Post(AccountOf(values, id).value, kind, delta, cause)))
  {
    Money.PostKeepsOk(AccountOf(values, id).value, kind, delta, cause);
  }

  // ---- A movement ---------------------------------------------------------------------

  datatype Movement = Movement(account: nat, kind: Money.Kind, amount: int, reason: bool, token: Option<Token>)

  /** What a person may post; the other kinds are posted by what they are for. */
  predicate PostedByHand(kind: Money.Kind) {
    kind.Deposit? || kind.Withdrawal? || kind.Adjustment?
  }

  predicate NeedsReason(kind: Money.Kind) {
    kind.Adjustment? || kind.Withdrawal?
  }

  /** What is wrong with a movement before any row is read. */
  function MovementFault(m: Movement): Option<Refusal> {
    if !PostedByHand(m.kind) then Some(NotAllowed)
    else if Money.Sign(m.kind) == 0 && m.amount == 0 then Some(BadAmount)
    else if Money.Sign(m.kind) != 0 && m.amount <= 0 then Some(BadAmount)
    else if NeedsReason(m.kind) && !m.reason then Some(ReasonRequired)
    else None
  }

  function Moving(m: Movement): int {
    Money.Delta(m.kind, m.amount)
  }

  function MovementWrites(m: Movement, values: Values): (Database, Answer) {
    var account := AccountOf(values, m.account);
    if account.None? then (map[], Unchanged)
    else
      (map[AccountAt(m.account) := AnAccount(Money.Post(account.value, m.kind, Moving(m), Money.ByHand))],
       Made(Posted(m.account, |account.value.postings|)))
  }

  /** The account locked and checked, the key looked up again under its lock, then claimed. */
  function MovementRecipe(m: Movement): ShopRecipe {
    Recipe(
      if m.token.Some? && PostedByHand(m.kind) then Some(MoveClaim(m.token.value)) else None, true,
      Refuse(MovementFault(m)),
      [AccountAt(m.account)], true, [], [],
      (values: Values) => Refuse(Objection(AccountOf(values, m.account), Moving(m))),
      (values: Values) => MovementWrites(m, values),
      Retold, Recorded)
  }

  lemma MovementWellMade(m: Movement)
    ensures WellMade(MovementRecipe(m), IsClaim)
    ensures Ordered(ToRequest(MovementRecipe(m)), RankOf)
  {
    var c := MovementRecipe(m);
    assert Keys(c) == c.before;
    AskingFirstSettles(c);
    RecipeIsOrdered(c, RankOf);
  }

  lemma MovementWritesOk(m: Movement, policy: Stock.Policy, values: Values)
    ensures WritesOk(policy, MovementRecipe(m), values)
  {
    if ValuesOk(policy, values) && Objection(AccountOf(values, m.account), Moving(m)).None? {
      PostedOk(policy, values, m.account, m.kind, Moving(m), Money.ByHand);
    }
  }

  // ---- A transfer between two accounts ------------------------------------------------

  datatype Transfer = Transfer(source: nat, target: nat, amount: int, token: Option<Token>)

  function TransferFault(t: Transfer): Option<Refusal> {
    if t.source == t.target then Some(SameAccount)
    else if t.amount <= 0 then Some(BadAmount)
    else None
  }

  /** The accounts, lowest id first, each once. */
  function BothAccounts(t: Transfer): seq<Key> {
    if t.source < t.target then [AccountAt(t.source), AccountAt(t.target)]
    else if t.target < t.source then [AccountAt(t.target), AccountAt(t.source)]
    else [AccountAt(t.source)]
  }

  function TransferObjection(t: Transfer, values: Values): Option<Refusal> {
    var source, target := AccountOf(values, t.source), AccountOf(values, t.target);
    if source.None? || target.None? then Some(NoSuchAccount)
    else if !source.value.active || !target.value.active then Some(AccountClosed)
    else Objection(source, -t.amount)
  }

  function TransferWrites(t: Transfer, values: Values): (Database, Answer) {
    var source, target := AccountOf(values, t.source), AccountOf(values, t.target);
    var number := LastNumber(Get(values, NumberOf(AccountTransfers))) + 1;
    if source.None? || target.None? then (map[], Unchanged)
    else
      (map[AccountAt(t.source) :=
             AnAccount(Money.Post(source.value, Money.TransferOut, -t.amount, Money.OfTransfer(number))),
           AccountAt(t.target) :=
             AnAccount(Money.Post(target.value, Money.TransferIn, t.amount, Money.OfTransfer(number))),
           NumberOf(AccountTransfers) := Counter(number)],
       Made(Transferred(number)))
  }

  /** Both rows locked and checked, the key looked up again, a number taken, the key claimed. */
  function TransferRecipe(t: Transfer): ShopRecipe {
    Recipe(
      if t.token.Some? then Some(AccountTransferClaim(t.token.value)) else None, true,
      Refuse(TransferFault(t)),
      BothAccounts(t), true, [NumberOf(AccountTransfers)], [],
      (values: Values) => Refuse(TransferObjection(t, values)),
      (values: Values) => TransferWrites(t, values),
      Retold, Recorded)
  }

  lemma TransferWellMade(t: Transfer)
    ensures WellMade(TransferRecipe(t), IsClaim)
  {
    var c := TransferRecipe(t);
    assert AccountAt(t.source) in c.before && AccountAt(t.target) in c.before;
    AskingFirstSettles(c);
  }

  lemma BothAscend(t: Transfer)
    ensures Ascends(BothAccounts(t), RankOf) && forall k :: k in BothAccounts(t) ==> RankOf(k).table == 7
  {
  }

  function NumberAndKey(t: Transfer): seq<Key> {
    [NumberOf(AccountTransfers)] + if t.token.Some? then [AccountTransferClaim(t.token.value)] else []
  }

  lemma NumberThenKey(t: Transfer)
    ensures Ascends(NumberAndKey(t), RankOf) && forall k :: k in NumberAndKey(t) ==> RankOf(k).table > 7
    ensures InOrder(TransferRecipe(t)) == BothAccounts(t) + NumberAndKey(t)
  {
    hide BothAccounts;
  }

  lemma TransferOrdered(t: Transfer)
    ensures Ordered(ToRequest(TransferRecipe(t)), RankOf)
  {
    hide TransferRecipe, InOrder, Ordered, ToRequest, BothAccounts, NumberAndKey, RankOf;
    BothAscend(t);
    NumberThenKey(t);
    AscendsJoin(BothAccounts(t), NumberAndKey(t), RankOf);
    RecipeIsOrdered(TransferRecipe(t), RankOf);
  }

  lemma TransferWritesOk(t: Transfer, policy: Stock.Policy, values: Values)
    ensures WritesOk(policy, TransferRecipe(t), values)
  {
    hide Money.AccountOk, Money.Post;
    var number := LastNumber(Get(values, NumberOf(AccountTransfers))) + 1;
    if ValuesOk(policy, values) && TransferFault(t).None? && TransferObjection(t, values).None? {
      PostedOk(policy, values, t.source, Money.TransferOut, -t.amount, Money.OfTransfer(number));
      PostedOk(policy, values, t.target, Money.TransferIn, t.amount, Money.OfTransfer(number));
    }
  }

  // ---- An expense and its void --------------------------------------------------------

  /** `allowed`: the category is in use and the account is the spending branch's, as read. */
  datatype Spending = Spending(expense: nat, account: nat, amount: int, allowed: bool, token: Option<Token>)

  function SpendingFault(e: Spending): Option<Refusal> {
    if e.amount <= 0 then Some(BadAmount) else if !e.allowed then Some(NotAllowed) else None
  }

  function SpendingObjection(e: Spending, values: Values): Option<Refusal> {
    if ExpenseAt(e.expense) !in values then None
    else if values[ExpenseAt(e.expense)].Some? then Some(DuplicateId)
    else if AccountAt(e.account) !in values then None
    else Objection(AccountOf(values, e.account), -e.amount)
  }

  function SpendingWrites(e: Spending, values: Values): (Database, Answer) {
    var account := AccountOf(values, e.account);
    if account.None? then (map[], Unchanged)
    else
      (map[NumberOf(Expenses) := Counter(LastNumber(Get(values, NumberOf(Expenses))) + 1),
           ExpenseAt(e.expense) := AnExpense(Expense(e.account, e.amount, false)),
           AccountAt(e.account) :=
             AnAccount(Money.Post(account.value, Money.Expense, -e.amount, Money.OfExpense(e.expense)))],
       Made(Spent(e.expense)))
  }

  /** Numbered, the key claimed and the document written before its movement is asked for; the
      movement refused takes the document with it. */
  function SpendingRecipe(e: Spending): ShopRecipe {
    Recipe(
      if e.token.Some? then Some(ExpenseClaim(e.token.value)) else None, true,
      Refuse(SpendingFault(e)),
      [NumberOf(Expenses)], false, [],
      [ExpenseAt(e.expense), AccountAt(e.account)],
      (values: Values) => Refuse(SpendingObjection(e, values)),
      (values: Values) => SpendingWrites(e, values),
      Retold, Recorded)
  }

  lemma SpendingWellMade(e: Spending)
    ensures WellMade(SpendingRecipe(e), IsClaim)
  {
    FirmSettles(SpendingRecipe(e));
  }

  lemma SpendingOrdered(e: Spending)
    ensures Ordered(ToRequest(SpendingRecipe(e)), RankOf)
  {
    var keys, spent, account := InOrder(SpendingRecipe(e)), ExpenseAt(e.expense), AccountAt(e.account);
    if e.token.Some? {
      assert keys == [NumberOf(Expenses), ExpenseClaim(e.token.value), spent, account];
    } else {
      assert keys == [NumberOf(Expenses), spent, account];
    }
    hide SpendingRecipe, InOrder, Ordered, ToRequest;
    RecipeIsOrdered(SpendingRecipe(e), RankOf);
  }

  lemma SpendingWritesOk(e: Spending, policy: Stock.Policy, values: Values)
    ensures WritesOk(policy, SpendingRecipe(e), values)
  {
    if ValuesOk(policy, values) && Objection(AccountOf(values, e.account), -e.amount).None? {
      PostedOk(policy, values, e.account, Money.Expense, -e.amount, Money.OfExpense(e.expense));
    }
  }

  /** The account is the expense's own, which never changes: a void for another is not its void. */
  datatype Voiding = Voiding(expense: nat, account: nat, reason: bool)

  function VoidObjection(v: Voiding, values: Values): Option<Refusal> {
    if ExpenseAt(v.expense) !in values then None
    else
      var expense := ExpenseIn(Get(values, ExpenseAt(v.expense)));
      if expense.None? || expense.value.account != v.account then Some(NoSuchExpense)
      else if expense.value.voided then Some(AlreadyVoid)
      else if AccountAt(v.account) !in values then None
      else if expense.value.amount == 0 then Some(BadAmount)
      else Objection(AccountOf(values, v.account), expense.value.amount)
  }

  function VoidWrites(v: Voiding, values: Values): (Database, Answer) {
    var expense, account := ExpenseIn(Get(values, ExpenseAt(v.expense))), AccountOf(values, v.account);
    if expense.None? || account.None? then (map[], Unchanged)
    else
      (map[ExpenseAt(v.expense) := AnExpense(expense.value.(voided := true)),
           AccountAt(v.account) :=
             AnAccount(Money.Post(account.value, Money.Adjustment, expense.value.amount, Money.OfExpense(v.expense)))],
       Made(VoidedExpense(v.expense)))
  }

  function VoidRecipe(v: Voiding): ShopRecipe {
    Recipe(
      None, false,
      if v.reason then None else Some(Refused(ReasonRequired)),
      [], false, [],
      [ExpenseAt(v.expense), AccountAt(v.account)],
      (values: Values) => Refuse(VoidObjection(v, values)),
      (values: Values) => VoidWrites(v, values),
      Retold, Recorded)
  }

  lemma VoidFirm(v: Voiding)
    ensures Firm(VoidRecipe(v).check)
  {
    forall some, more | Grows(some, more) && VoidObjection(v, some).Some?
      ensures VoidObjection(v, more) == VoidObjection(v, some)
    {
      assert Get(more, ExpenseAt(v.expense)) == Get(some, ExpenseAt(v.expense));
    }
  }

  lemma VoidWellMade(v: Voiding)
    ensures WellMade(VoidRecipe(v), IsClaim)
  {
    VoidFirm(v);
    FirmSettles(VoidRecipe(v));
  }

  lemma VoidOrdered(v: Voiding)
    ensures Ordered(ToRequest(VoidRecipe(v)), RankOf)
  {
    RecipeIsOrdered(VoidRecipe(v), RankOf);
  }

  lemma VoidWritesOk(v: Voiding, policy: Stock.Policy, values: Values)
    ensures WritesOk(policy, VoidRecipe(v), values)
  {
    var expense := ExpenseIn(Get(values, ExpenseAt(v.expense)));
    if ValuesOk(policy, values) && HasRead(VoidRecipe(v), values) && VoidObjection(v, values).None? {
      assert ExpenseAt(v.expense) in Keys(VoidRecipe(v)) && AccountAt(v.account) in Keys(VoidRecipe(v));
      PostedOk(policy, values, v.account, Money.Adjustment, expense.value.amount, Money.OfExpense(v.expense));
    }
  }

  // ---- Any of them --------------------------------------------------------------------

  datatype CashRequest =
    | AMovement(movement: Movement)
    | ATransfer(transfer: Transfer)
    | ASpending(spending: Spending)
    | AVoid(voiding: Voiding)

  function CashRecipe(q: CashRequest): ShopRecipe {
    match q
    case AMovement(m) => MovementRecipe(m)
    case ATransfer(t) => TransferRecipe(t)
    case ASpending(e) => SpendingRecipe(e)
    case AVoid(v) => VoidRecipe(v)
  }

  /** Accounts and documents aside, it writes nothing the tallies ask about. */
  lemma MoneyAloneIsKept(policy: Stock.Policy, c: ShopRecipe, values: Values)
    requires forall k :: k in c.write(values).0 ==> !k.ShelfAt? && !k.OrderAt? && !k.CouponAt?
    requires ValuesOk(policy, values) && HasRead(c, values) && c.fault.None? && c.check(values).None? ==>
               forall account: nat, cause: Money.Cause, measure: Measure | Documented(cause) ::
                   MoneyKept(c, values, account, cause, measure)
    ensures TallyKept(policy, c, values)
  {
  }

  lemma MovementMoney(m: Movement, values: Values, account: nat, cause: Money.Cause, measure: Measure)
    requires Documented(cause)
    ensures MoneyKept(MovementRecipe(m), values, account, cause, measure)
  {
    hide Booked, Due;
    var own := AccountOf(values, m.account);
    if own.Some? {
      PostedBooks(own.value, m.kind, Moving(m), Money.ByHand, cause, measure);
    }
  }

  lemma MovementTallies(m: Movement, policy: Stock.Policy, values: Values)
    ensures TallyKept(policy, MovementRecipe(m), values)
  {
    forall account: nat, cause: Money.Cause, measure: Measure | Documented(cause)
      ensures MoneyKept(MovementRecipe(m), values, account, cause, measure)
    {
      MovementMoney(m, values, account, cause, measure);
    }
    MoneyAloneIsKept(policy, MovementRecipe(m), values);
  }

  lemma TransferAfter(t: Transfer, values: Values, k: Key)
    requires t.source != t.target && AccountOf(values, t.source).Some? && AccountOf(values, t.target).Some?
    ensures var number := LastNumber(Get(values, NumberOf(AccountTransfers))) + 1;
      After(TransferRecipe(t), values, k) ==
        if k == AccountAt(t.source) then
          Some(AnAccount(Money.Post(AccountOf(values, t.source).value, Money.TransferOut, -t.amount,
              Money.OfTransfer(number))))
        else if k == AccountAt(t.target) then
          Some(AnAccount(Money.Post(AccountOf(values, t.target).value, Money.TransferIn, t.amount,
              Money.OfTransfer(number))))
        else if k == NumberOf(AccountTransfers) then Some(Counter(number))
        else Get(values, k)
  {
  }

  lemma TransferMoney(t: Transfer, values: Values, account: nat, cause: Money.Cause, measure: Measure)
    requires Documented(cause) && t.source != t.target
    ensures MoneyKept(TransferRecipe(t), values, account, cause, measure)
  {
    hide Booked, Due;
    var source, target := AccountOf(values, t.source), AccountOf(values, t.target);
    var number := LastNumber(Get(values, NumberOf(AccountTransfers))) + 1;
    if source.Some? && target.Some? {
      TransferAfter(t, values, AccountAt(account));
      TransferAfter(t, values, DocumentOf(cause));
      PostedBooks(source.value, Money.TransferOut, -t.amount, Money.OfTransfer(number), cause, measure);
      PostedBooks(target.value, Money.TransferIn, t.amount, Money.OfTransfer(number), cause, measure);
      hide TransferRecipe;
    }
  }

  lemma TransferTallies(t: Transfer, policy: Stock.Policy, values: Values)
    ensures TallyKept(policy, TransferRecipe(t), values)
  {
    if t.source != t.target {
      forall account: nat, cause: Money.Cause, measure: Measure | Documented(cause)
        ensures MoneyKept(TransferRecipe(t), values, account, cause, measure)
      {
        TransferMoney(t, values, account, cause, measure);
      }
    }
    MoneyAloneIsKept(policy, TransferRecipe(t), values);
  }

  lemma SpendingAfter(e: Spending, values: Values, k: Key)
    requires AccountOf(values, e.account).Some?
    ensures After(SpendingRecipe(e), values, k) ==
        if k == AccountAt(e.account) then
          Some(AnAccount(Money.Post(AccountOf(values, e.account).value, Money.Expense, -e.amount,
              Money.OfExpense(e.expense))))
        else if k == ExpenseAt(e.expense) then Some(AnExpense(Expense(e.account, e.amount, false)))
        else if k == NumberOf(Expenses) then Some(Counter(LastNumber(Get(values, NumberOf(Expenses))) + 1))
        else Get(values, k)
  {
  }

  lemma SpendingMoney(e: Spending, values: Values, account: nat, cause: Money.Cause, measure: Measure)
    requires Documented(cause) && AccountOf(values, e.account).Some? && Get(values, ExpenseAt(e.expense)).None?
    ensures MoneyKept(SpendingRecipe(e), values, account, cause, measure)
  {
    hide Booked;
    SpendingAfter(e, values, AccountAt(account));
    SpendingAfter(e, values, DocumentOf(cause));
    PostedBooks(AccountOf(values, e.account).value, Money.Expense, -e.amount, Money.OfExpense(e.expense), cause,
        measure);
    hide SpendingRecipe;
  }

  lemma SpendingTallies(e: Spending, policy: Stock.Policy, values: Values)
    ensures TallyKept(policy, SpendingRecipe(e), values)
  {
    var c := SpendingRecipe(e);
    if HasRead(c, values) && SpendingObjection(e, values).None? {
      assert ExpenseAt(e.expense) in Keys(c) && AccountAt(e.account) in Keys(c);
      forall account: nat, cause: Money.Cause, measure: Measure | Documented(cause)
        ensures MoneyKept(c, values, account, cause, measure)
      {
        SpendingMoney(e, values, account, cause, measure);
      }
    }
    MoneyAloneIsKept(policy, c, values);
  }

  lemma VoidAfter(v: Voiding, values: Values, k: Key)
    requires HasRead(VoidRecipe(v), values) && VoidObjection(v, values).None?
    ensures var expense, account := ExpenseIn(Get(values, ExpenseAt(v.expense))), AccountOf(values, v.account);
      && expense.Some? && account.Some? && expense.value.account == v.account && !expense.value.voided
      && After(VoidRecipe(v), values, k) ==
        if k == AccountAt(v.account) then
          Some(AnAccount(Money.Post(account.value, Money.Adjustment, expense.value.amount, Money.OfExpense(v.expense))))
        else if k == ExpenseAt(v.expense) then Some(AnExpense(expense.value.(voided := true)))
        else Get(values, k)
  {
    assert ExpenseAt(v.expense) in Keys(VoidRecipe(v)) && AccountAt(v.account) in Keys(VoidRecipe(v));
  }

  lemma VoidMoney(v: Voiding, values: Values, account: nat, cause: Money.Cause, measure: Measure)
    requires Documented(cause) && HasRead(VoidRecipe(v), values) && VoidObjection(v, values).None?
    ensures MoneyKept(VoidRecipe(v), values, account, cause, measure)
  {
    hide Booked;
    VoidAfter(v, values, AccountAt(account));
    VoidAfter(v, values, DocumentOf(cause));
    PostedBooks(AccountOf(values, v.account).value, Money.Adjustment,
                ExpenseIn(Get(values, ExpenseAt(v.expense))).value.amount, Money.OfExpense(v.expense), cause, measure);
    hide VoidRecipe, VoidObjection, HasRead;
  }

  lemma VoidTallies(v: Voiding, policy: Stock.Policy, values: Values)
    ensures TallyKept(policy, VoidRecipe(v), values)
  {
    var c := VoidRecipe(v);
    if HasRead(c, values) && VoidObjection(v, values).None? {
      forall account: nat, cause: Money.Cause, measure: Measure | Documented(cause)
        ensures MoneyKept(c, values, account, cause, measure)
      {
        VoidMoney(v, values, account, cause, measure);
      }
    }
    MoneyAloneIsKept(policy, c, values);
  }

  lemma CashSparesCredits(q: CashRequest)
    ensures SparesCredits(CashRecipe(q))
  {
  }

  lemma CashSure(q: CashRequest, policy: Stock.Policy)
    ensures Sure(policy, CashRecipe(q))
  {
    hide MovementRecipe, TransferRecipe, SpendingRecipe, VoidRecipe, TallyKept, SparesCredits, Proper, Ordered,
         ToRequest;
    CashProper(q, policy);
    CashSparesCredits(q);
    forall values ensures TallyKept(policy, CashRecipe(q), values) {
      match q
      case AMovement(m) => MovementTallies(m, policy, values);
      case ATransfer(t) => TransferTallies(t, policy, values);
      case ASpending(e) => SpendingTallies(e, policy, values);
      case AVoid(v) => VoidTallies(v, policy, values);
    }
    SureWhen(policy, CashRecipe(q));
  }

  lemma CashProper(q: CashRequest, policy: Stock.Policy)
    ensures Proper(policy, CashRecipe(q))
    ensures Ordered(ToRequest(CashRecipe(q)), RankOf)
  {
    match q
    case AMovement(m) =>
      MovementWellMade(m);
      forall values ensures WritesOk(policy, CashRecipe(q), values) { MovementWritesOk(m, policy, values); }
      ProperWhen(policy, CashRecipe(q));
    case ATransfer(t) =>
      TransferWellMade(t);
      TransferOrdered(t);
      forall values ensures WritesOk(policy, CashRecipe(q), values) { TransferWritesOk(t, policy, values); }
      ProperWhen(policy, CashRecipe(q));
    case ASpending(e) =>
      SpendingWellMade(e);
      SpendingOrdered(e);
      forall values ensures WritesOk(policy, CashRecipe(q), values) { SpendingWritesOk(e, policy, values); }
      ProperWhen(policy, CashRecipe(q));
    case AVoid(v) =>
      VoidWellMade(v);
      VoidOrdered(v);
      forall values ensures WritesOk(policy, CashRecipe(q), values) { VoidWritesOk(v, policy, values); }
      ProperWhen(policy, CashRecipe(q));
  }
}
