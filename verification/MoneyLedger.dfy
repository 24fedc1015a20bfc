/** One account: a balance, in paisa, cached over an append-only cash book. */
module MoneyLedger {
  datatype Kind =
    | Opening | SalePayment | Refund | SupplierPayment | Expense
    | TransferIn | TransferOut | Deposit | Withdrawal | Adjustment

  /** The document a posting was made for. */
  datatype Cause =
    | ByHand | OfTransfer(transfer: nat) | OfExpense(expense: nat)
    | OfPayment(payment: nat) | OfSale(order: nat) | OfReturn(returned: nat)

  datatype Posting = Posting(kind: Kind, amount: int, balanceAfter: int, cause: Cause)

  datatype Account = Account(balance: int, active: bool, overdraft: bool, postings: seq<Posting>)

  /** The sign put on the amount a caller gives; an adjustment carries its own. */
  function Sign(kind: Kind): int {
    match kind
    case Opening => 1
    case SalePayment => 1
    case Refund => -1
    case SupplierPayment => -1
    case Expense => -1
    case TransferIn => 1
    case TransferOut => -1
    case Deposit => 1
    case Withdrawal => -1
    case Adjustment => 0
  }

  function Delta(kind: Kind, amount: int): int {
    if Sign(kind) == 0 then amount else Sign(kind) * amount
  }

  /** An account cannot pay out money it does not hold, overdraft aside. */
  predicate CanReduce(account: Account, delta: int) {
    delta >= 0 || account.balance + delta >= 0 || account.overdraft
  }

  function Post(account: Account, kind: Kind, delta: int, cause: Cause): Account {
    var balance := account.balance + delta;
    account.(balance := balance, postings := account.postings + [Posting(kind, delta, balance, cause)])
  }

  function SumOf(postings: seq<Posting>): int {
    if postings == [] then 0 else SumOf(postings[..|postings| - 1]) + postings[|postings| - 1].amount
  }

  /** What one document has moved. */
  function SumFor(postings: seq<Posting>, cause: Cause): int {
    if postings == [] then 0
    else
      var last := postings[|postings| - 1];
      SumFor(postings[..|postings| - 1], cause) + if last.cause == cause then last.amount else 0
  }

  /** How many postings one document has. */
  function CountFor(postings: seq<Posting>, cause: Cause): nat {
    if postings == [] then 0
    else CountFor(postings[..|postings| - 1], cause) + if postings[|postings| - 1].cause == cause then 1 else 0
  }

  lemma PostAdds(account: Account, kind: Kind, delta: int, of: Cause, cause: Cause)
    ensures SumFor(Post(account, kind, delta, of).postings, cause) ==
            SumFor(account.postings, cause) + if cause == of then delta else 0
    ensures CountFor(Post(account, kind, delta, of).postings, cause) ==
            CountFor(account.postings, cause) + if cause == of then 1 else 0
  {
    assert Post(account, kind, delta, of).postings[..|account.postings|] == account.postings;
  }

  ghost predicate RunningSum(postings: seq<Posting>, i: nat)
    requires i < |postings|
  {
    postings[i].balanceAfter == SumOf(postings[..i + 1])
  }

  /** What is true of every account in every committed state: the balance is the sum of its
      postings, each posting's snapshot the sum up to it, and no debit ever left an account that
      may not go overdrawn below nothing. */
  ghost predicate AccountOk(account: Account) {
    && account.balance == SumOf(account.postings)
    && (forall i :: 0 <= i < |account.postings| ==> RunningSum(account.postings, i))
    && (!account.overdraft ==>
          forall i :: 0 <= i < |account.postings| && account.postings[i].amount < 0 ==>
            account.postings[i].balanceAfter >= 0)
  }

  lemma PostKeepsOk(account: Account, kind: Kind, delta: int, cause: Cause)
    requires AccountOk(account) && CanReduce(account, delta)
    ensures AccountOk(Post(account, kind, delta, cause))
  {
    var after := Post(account, kind, delta, cause);
    assert after.postings[..|account.postings|] == account.postings;
    forall i | 0 <= i < |after.postings| ensures RunningSum(after.postings, i) {
      if i < |account.postings| {
        assert RunningSum(account.postings, i);
        assert after.postings[..i + 1] == account.postings[..i + 1];
      } else {
        assert after.postings[..i + 1] == after.postings;
      }
    }
  }
}
