/** Numbers are taken under a lock and never twice: no two orders of a kind have the same, and what a transfer takes no
    ledger has. */
module Numbers {
  import opened Wrappers
  import opened RowLocks
  import opened LockOrder
  import opened Recipes
  import opened Runs
  import opened Shop
  import opened Tallies
  import opened CashBook
  import opened CashLaws
  import opened StockRoom
  import opened StockLaws
  import opened Orders
  import opened OrderLaws
  import opened Fulfilment
  import opened FulfilmentLaws
  import opened Webhooks
  import opened EventLaws
  import Suppliers = SupplierReturns
  import opened Exchanges
  import opened ExchangeLaws
  import opened ShopRuns
  import Counts = StockCounts
  import CountLaws
  import Stock = StockLedger
  import Money = MoneyLedger

  function Last(db: Database, sequence: Sequence): nat {
    LastNumber(Read(db, NumberOf(sequence)))
  }

  /** An order's number has been taken. */
  predicate NumberTaken(db: Database, o: Order) {
    o.number <= Last(db, if o.counter then CounterOrders else WebOrders)
  }

  /** No two orders of a kind have one number, and the next is nobody's. */
  ghost predicate OrdersNumbered(db: Database) {
    && (forall a: nat :: OrderNow(db, a).Some? ==> NumberTaken(db, OrderNow(db, a).value))
    && forall a: nat, b: nat | a != b && SameKind(OrderNow(db, a), OrderNow(db, b)) ::
         OrderNow(db, a).value.number != OrderNow(db, b).value.number
  }

  predicate SameKind(a: Option<Order>, b: Option<Order>) {
    a.Some? && b.Some? && a.value.counter == b.value.counter
  }

  predicate TransfersUpTo(marks: seq<Mark>, n: nat) {
    forall i :: 0 <= i < |marks| && marks[i].reference.ForTransfer? ==> marks[i].reference.transfer <= n
  }

  predicate PaidUpTo(postings: seq<Money.Posting>, n: nat) {
    forall i :: 0 <= i < |postings| && postings[i].cause.OfTransfer? ==> postings[i].cause.transfer <= n
  }

  /** No shelf has an entry for a transfer whose number is still to be taken. */
  ghost predicate StockNumbered(db: Database) {
    forall id: nat :: TransfersUpTo(Marks(ShelfNow(db, id).ledger), Last(db, StockTransfers))
  }

  /** Nor has an account a posting for one. */
  ghost predicate MoneyNumbered(db: Database) {
    forall id: nat :: AccountNow(db, id).Some? ==>
      PaidUpTo(AccountNow(db, id).value.postings, Last(db, AccountTransfers))
  }

  ghost predicate Numbered(db: Database) {
    OrdersNumbered(db) && StockNumbered(db) && MoneyNumbered(db)
  }

  // ---- Rows a request leaves alone --------------------------------------------------------

  lemma OrdersSpared(c: ShopRecipe, db: Database)
    requires WellMade(c, IsClaim) && OrdersNumbered(db)
    requires forall k :: k in Keys(c) ==> !k.OrderAt? && k != NumberOf(WebOrders) && k != NumberOf(CounterOrders)
    ensures OrdersNumbered(Effect(c, db).0)
  {
    hide Effect, WellMade;
    var after := Effect(c, db).0;
    LeavesRow(c, db, NumberOf(WebOrders));
    LeavesRow(c, db, NumberOf(CounterOrders));
    forall a: nat ensures OrderNow(after, a) == OrderNow(db, a) {
      LeavesRow(c, db, OrderAt(a));
    }
  }

  lemma StockSpared(c: ShopRecipe, db: Database)
    requires WellMade(c, IsClaim) && StockNumbered(db)
    requires forall k :: k in Keys(c) ==> !k.ShelfAt? && k != NumberOf(StockTransfers)
    ensures StockNumbered(Effect(c, db).0)
  {
    hide Effect, WellMade, Marks, TransfersUpTo;
    LeavesRow(c, db, NumberOf(StockTransfers));
    forall id: nat ensures ShelfNow(Effect(c, db).0, id) == ShelfNow(db, id) {
      LeavesRow(c, db, ShelfAt(id));
    }
  }

  lemma MoneySpared(c: ShopRecipe, db: Database)
    requires WellMade(c, IsClaim) && MoneyNumbered(db)
    requires forall k :: k in Keys(c) ==> !k.AccountAt? && k != NumberOf(AccountTransfers)
    ensures MoneyNumbered(Effect(c, db).0)
  {
    hide Effect, WellMade, PaidUpTo;
    LeavesRow(c, db, NumberOf(AccountTransfers));
    forall id: nat ensures AccountNow(Effect(c, db).0, id) == AccountNow(db, id) {
      LeavesRow(c, db, AccountAt(id));
    }
  }

  /** A key that is used already leaves everything as it is. */
  lemma RetryLeaves(c: ShopRecipe, db: Database)
    requires c.claim.Some? && c.claim.value in db
    ensures Effect(c, db).0 == db
  {
  }

  // ---- Entries and postings of other kinds --------------------------------------------------

  predicate NoTransfers(marks: seq<Mark>) {
    forall i :: 0 <= i < |marks| ==> !marks[i].reference.ForTransfer?
  }

  lemma MoreMarks(before: seq<Mark>, told: seq<Mark>, n: nat, m: nat)
    requires TransfersUpTo(before, n) && n <= m && TransfersUpTo(told, m)
    ensures TransfersUpTo(before + told, m)
  {
  }

  lemma OthersUpTo(marks: seq<Mark>, n: nat)
    requires NoTransfers(marks)
    ensures TransfersUpTo(marks, n)
  {
  }

  lemma {:induction false} ToldNoTransfers(lines: seq<Stock.Line>, id: nat, kind: Stock.Movement, inward: bool,
      reference: Stock.Reference)
    requires !reference.ForTransfer?
    ensures NoTransfers(Told(lines, id, kind, inward, reference))
  {
    if lines != [] {
      ToldNoTransfers(lines[1..], id, kind, inward, reference);
    }
  }

  lemma {:induction false} SellsNoTransfers(lines: seq<Stock.Line>, id: nat, order: nat)
    ensures NoTransfers(Sells(lines, id, order))
  {
    if lines != [] {
      SellsNoTransfers(lines[1..], id, order);
    }
  }

  lemma {:induction false} PutNoTransfers(x: Exchange, i: nat, id: nat)
    requires i <= |x.back|
    ensures NoTransfers(PutMarks(x, i, id))
    decreases |x.back| - i
  {
    if i < |x.back| {
      PutNoTransfers(x, i + 1, id);
    }
  }

  lemma {:induction false} LegsUpTo(crates: seq<Crate>, id: nat, number: nat)
    ensures TransfersUpTo(Legs(crates, id, number), number)
  {
    if crates != [] {
      LegsUpTo(crates[1..], id, number);
    }
  }

  predicate NotOfTransfers(postings: seq<Money.Posting>) {
    forall i :: 0 <= i < |postings| ==> !postings[i].cause.OfTransfer?
  }

  lemma {:induction false} ReceiptsAreSales(tenders: seq<Tender>, account: nat, balance: int, order: nat)
    ensures NotOfTransfers(Receipts(tenders, account, balance, order))
  {
    if tenders != [] {
      ReceiptsAreSales(tenders[1..], account, balance, order);
      ReceiptsAreSales(tenders[1..], account, balance + tenders[0].amount, order);
    }
  }

  lemma MorePostings(before: seq<Money.Posting>, more: seq<Money.Posting>, n: nat)
    requires PaidUpTo(before, n) && NotOfTransfers(more)
    ensures PaidUpTo(before + more, n)
  {
  }

  // ---- Stock --------------------------------------------------------------------------------

  lemma ShelfUpTo(db: Database, before: Stock.Shelf, after: Stock.Shelf, goods: int, held: int, told: seq<Mark>, m: nat)
    requires TransfersUpTo(Marks(before.ledger), Last(db, StockTransfers)) && Last(db, StockTransfers) <= m
    requires Became(before, after, goods, held, told) && TransfersUpTo(told, m)
    ensures TransfersUpTo(Marks(after.ledger), m)
  {
    hide TransfersUpTo, Marks;
    MoreMarks(Marks(before.ledger), told, Last(db, StockTransfers), m);
  }

  lemma WriteOffStock(w: WriteOff, policy: Stock.Policy, db: Database)
    requires StockNumbered(db)
    ensures StockNumbered(Effect(WriteOffRecipe(w, policy), db).0)
  {
    hide Effect, WriteOffRecipe, TransfersUpTo, Marks;
    if w.token.Some? && StockClaim(w.token.value) in db {
      WriteOffRetried(w, policy, db);
    } else {
      WriteOffAnswers(w, policy, db);
      var after, shelf := Effect(WriteOffRecipe(w, policy), db).0, ShelfNow(db, w.shelf);
      forall id: nat ensures TransfersUpTo(Marks(ShelfNow(after, id).ledger), Last(after, StockTransfers)) {
        if id == w.shelf {
          OneEntry(shelf, Stock.Entry(w.kind, -w.quantity, shelf.onHand - w.quantity, shelf.reserved, Stock.Manual),
                   Last(db, StockTransfers));
        }
        assert id != w.shelf ==> ShelfNow(after, id) == ShelfNow(db, id);
      }
    }
  }

  lemma WriteOffRetried(w: WriteOff, policy: Stock.Policy, db: Database)
    requires w.token.Some? && StockClaim(w.token.value) in db
    ensures Effect(WriteOffRecipe(w, policy), db).0 == db
  {
  }

  lemma OneEntry(shelf: Stock.Shelf, entry: Stock.Entry, n: nat)
    requires TransfersUpTo(Marks(shelf.ledger), n) && !entry.reference.ForTransfer?
    ensures TransfersUpTo(Marks(shelf.ledger + [entry]), n)
  {
    assert Marks(shelf.ledger + [entry]) == Marks(shelf.ledger) + [Mark(entry.kind, entry.quantity, entry.reference)];
  }

  lemma CorrectionStock(a: Correction, db: Database)
    requires StockNumbered(db)
    ensures StockNumbered(Effect(CorrectionRecipe(a), db).0)
  {
    hide Effect, CorrectionRecipe, TransfersUpTo, Marks;
    CorrectionAnswers(a, db);
    var after, shelf := Effect(CorrectionRecipe(a), db).0, ShelfNow(db, a.shelf);
    forall id: nat ensures TransfersUpTo(Marks(ShelfNow(after, id).ledger), Last(after, StockTransfers)) {
      if id == a.shelf {
        OneEntry(shelf,
                 Stock.Entry(Stock.Adjustment, a.counted - shelf.onHand, a.counted, shelf.reserved, Stock.Manual),
                 Last(db, StockTransfers));
      }
      assert id != a.shelf ==> ShelfNow(after, id) == ShelfNow(db, id);
    }
  }

  lemma ShipmentStock(t: Shipment, policy: Stock.Policy, db: Database)
    requires StockNumbered(db)
    ensures StockNumbered(Effect(ShipmentRecipe(t, policy), db).0)
  {
    hide Effect, ShipmentRecipe, TransfersUpTo, Marks, Became, Sendable, Sent, Got, Legs;
    if t.token.Some? && StockTransferClaim(t.token.value) in db {
      ShipmentRetried(t, policy, db);
    } else if Sendable(t, policy, db) {
      ShipmentBeside(t, policy, db);
      var after, number := Effect(ShipmentRecipe(t, policy), db).0, Last(db, StockTransfers) + 1;
      forall id: nat ensures TransfersUpTo(Marks(ShelfNow(after, id).ledger), Last(after, StockTransfers)) {
        ShipmentShelf(t, policy, db, id);
        LegsUpTo(t.crates, id, number);
        ShelfUpTo(db, ShelfNow(db, id), ShelfNow(after, id), Got(t.crates, id) - Sent(t.crates, id), 0,
                  Legs(t.crates, id, number), number);
      }
    } else {
      ShipmentStops(t, policy, db);
    }
  }

  lemma ShipmentRetried(t: Shipment, policy: Stock.Policy, db: Database)
    requires t.token.Some? && StockTransferClaim(t.token.value) in db
    ensures Effect(ShipmentRecipe(t, policy), db).0 == db
  {
    hide StockRoom.Packed, ShipmentWrites, ShipmentObjection;
    RetryLeaves(ShipmentRecipe(t, policy), db);
  }

  /** The number a transfer of stock takes is in no ledger before it. */
  lemma TransferIsNew(t: Shipment, policy: Stock.Policy, db: Database, id: nat, i: nat)
    requires StockNumbered(db) && (t.token.Some? ==> StockTransferClaim(t.token.value) !in db)
    requires Effect(ShipmentRecipe(t, policy), db).1.Made? && i < |ShelfNow(db, id).ledger|
    ensures var made := Effect(ShipmentRecipe(t, policy), db).1.document;
      made.StockSent? && ShelfNow(db, id).ledger[i].reference != Stock.ForTransfer(made.number)
  {
    hide Effect, ShipmentRecipe, Sendable, Became;
    if Sendable(t, policy, db) {
      ShipmentBeside(t, policy, db);
    } else {
      ShipmentStops(t, policy, db);
    }
    assert Marks(ShelfNow(db, id).ledger)[i].reference == ShelfNow(db, id).ledger[i].reference;
  }

  lemma CountStock(a: Counts.Applying, policy: Stock.Policy, db: Database)
    requires StockNumbered(db) && ShopOk(policy, db)
    ensures StockNumbered(Effect(Counts.CountRecipe(a), db).0)
  {
    hide Effect, Counts.CountRecipe, TransfersUpTo, Marks, Became, CountLaws.CountsUpUnbrought, ShopOk;
    CountLaws.CountAnswers(a, policy, db);
    var after := Effect(Counts.CountRecipe(a), db).0;
    if CountLaws.SheetStops(a, db).None? {
      assert Read(after, NumberOf(StockTransfers)) == Read(db, NumberOf(StockTransfers));
      assert Last(after, StockTransfers) == Last(db, StockTransfers);
      forall id: nat ensures TransfersUpTo(Marks(ShelfNow(after, id).ledger), Last(after, StockTransfers)) {
        if Counts.Unnamed(a.lines, id) {
          assert Read(after, ShelfAt(id)) == Read(db, ShelfAt(id));
          assert ShelfNow(after, id) == ShelfNow(db, id);
        } else {
          var i :| 0 <= i < |a.lines| && a.lines[i].shelf == id;
          assert CountLaws.LineCounted(a, db, after, i);
          var told := CountLaws.Correcting(ShelfNow(db, id), a.lines[i].counted);
          OthersUpTo(told, Last(db, StockTransfers));
          ShelfUpTo(db, ShelfNow(db, id), ShelfNow(after, id), a.lines[i].counted - ShelfNow(db, id).onHand, 0, told,
                    Last(db, StockTransfers));
          assert TransfersUpTo(Marks(ShelfNow(after, id).ledger), Last(db, StockTransfers));
        }
      }
    }
  }

  // ---- Money --------------------------------------------------------------------------------

  /** Every account as it was, but for postings that are not transfers'. */
  ghost predicate OtherPostings(db: Database, after: Database) {
    && Last(after, AccountTransfers) == Last(db, AccountTransfers)
    && forall id: nat :: AccountNow(after, id).Some? ==>
         AccountNow(db, id).Some? && OtherPosted(AccountNow(db, id).value, AccountNow(after, id).value)
  }

  predicate OtherPosted(before: Money.Account, after: Money.Account) {
    && |before.postings| <= |after.postings|
    && after.postings[..|before.postings|] == before.postings
    && NotOfTransfers(after.postings[|before.postings|..])
  }

  lemma OtherPostedUpTo(before: Money.Account, after: Money.Account, n: nat)
    requires OtherPosted(before, after) && PaidUpTo(before.postings, n)
    ensures PaidUpTo(after.postings, n)
  {
    var m := |before.postings|;
    assert after.postings == after.postings[..m] + after.postings[m..];
    MorePostings(before.postings, after.postings[m..], n);
  }

  lemma OthersAreNumbered(db: Database, after: Database)
    requires MoneyNumbered(db) && OtherPostings(db, after)
    ensures MoneyNumbered(after)
  {
    hide PaidUpTo, OtherPosted;
    forall id: nat | AccountNow(after, id).Some?
      ensures PaidUpTo(AccountNow(after, id).value.postings, Last(after, AccountTransfers))
    {
      OtherPostedUpTo(AccountNow(db, id).value, AccountNow(after, id).value, Last(db, AccountTransfers));
    }
  }

  lemma NothingPosted(a: Money.Account)
    ensures OtherPosted(a, a)
  {
  }

  lemma OnePosting(a: Money.Account, balance: int, posting: Money.Posting)
    requires !posting.cause.OfTransfer?
    ensures OtherPosted(a, a.(balance := balance, postings := a.postings + [posting]))
  {
  }

  /** One account with one posting more, and rows of other kinds. */
  lemma OneMorePosting(db: Database, after: Database, account: nat, balance: int, posting: Money.Posting)
    requires AccountNow(db, account).Some? && !posting.cause.OfTransfer?
    requires Last(after, AccountTransfers) == Last(db, AccountTransfers)
    requires var a := AccountNow(db, account).value;
      AccountNow(after, account) == Some(a.(balance := balance, postings := a.postings + [posting]))
    requires forall id: nat :: id != account ==> AccountNow(after, id) == AccountNow(db, id)
    ensures OtherPostings(db, after)
  {
    hide OtherPosted;
    OnePosting(AccountNow(db, account).value, balance, posting);
    forall id: nat | AccountNow(after, id).Some?
      ensures AccountNow(db, id).Some? && OtherPosted(AccountNow(db, id).value, AccountNow(after, id).value)
    {
      if id != account {
        NothingPosted(AccountNow(db, id).value);
      }
    }
  }

  lemma SamePostings(db: Database)
    ensures OtherPostings(db, db)
  {
    hide OtherPosted;
    forall id: nat | AccountNow(db, id).Some?
      ensures OtherPosted(AccountNow(db, id).value, AccountNow(db, id).value)
    {
      NothingPosted(AccountNow(db, id).value);
    }
  }

  lemma MovementMoney(m: Movement, db: Database)
    ensures OtherPostings(db, Effect(MovementRecipe(m), db).0)
  {
    hide Effect, MovementRecipe, OtherPostings;
    var after := Effect(MovementRecipe(m), db).0;
    SamePostings(db);
    if m.token.Some? && MoveClaim(m.token.value) in db {
      MovementRetried(m, db);
    } else {
      MovementAnswers(m, db);
      if after != db {
        var a := AccountNow(db, m.account).value;
        var delta := if m.kind.Withdrawal? then -m.amount else m.amount;
        OneMorePosting(db, after, m.account, a.balance + delta,
                       Money.Posting(m.kind, delta, a.balance + delta, Money.ByHand));
      }
    }
  }

  lemma MovementRetried(m: Movement, db: Database)
    requires m.token.Some? && MoveClaim(m.token.value) in db
    ensures Effect(MovementRecipe(m), db).0 == db
  {
  }

  lemma SpendingMoney(e: Spending, db: Database)
    ensures OtherPostings(db, Effect(SpendingRecipe(e), db).0)
  {
    hide Effect, SpendingRecipe, OtherPostings;
    var after := Effect(SpendingRecipe(e), db).0;
    SamePostings(db);
    if e.token.Some? && ExpenseClaim(e.token.value) in db {
      SpendingRetried(e, db);
    } else {
      SpendingAnswers(e, db);
      if after != db {
        var a := AccountNow(db, e.account).value;
        OneMorePosting(db, after, e.account, a.balance - e.amount,
                       Money.Posting(Money.Expense, -e.amount, a.balance - e.amount, Money.OfExpense(e.expense)));
      }
    }
  }

  lemma SpendingRetried(e: Spending, db: Database)
    requires e.token.Some? && ExpenseClaim(e.token.value) in db
    ensures Effect(SpendingRecipe(e), db).0 == db
  {
  }

  lemma VoidMoney(v: Voiding, policy: Stock.Policy, db: Database)
    requires ShopOk(policy, db)
    ensures OtherPostings(db, Effect(VoidRecipe(v), db).0)
  {
    hide Effect, VoidRecipe, OtherPostings, ShopOk;
    var after := Effect(VoidRecipe(v), db).0;
    SamePostings(db);
    VoidAnswers(v, policy, db);
    if after != db {
      var a, back := AccountNow(db, v.account).value, ExpenseIn(Read(db, ExpenseAt(v.expense))).value.amount;
      OneMorePosting(db, after, v.account, a.balance + back,
                     Money.Posting(Money.Adjustment, back, a.balance + back, Money.OfExpense(v.expense)));
    }
  }

  lemma TransferMoney(t: Transfer, db: Database)
    requires MoneyNumbered(db)
    ensures MoneyNumbered(Effect(TransferRecipe(t), db).0)
  {
    hide Effect, TransferRecipe, PaidUpTo;
    if t.token.Some? && AccountTransferClaim(t.token.value) in db {
      TransferRetried(t, db);
    } else if !BothTake(t, db) {
      TransferStops(t, db);
    } else {
      TransferGoes(t, db);
      var after, number := Effect(TransferRecipe(t), db).0, Last(db, AccountTransfers) + 1;
      forall id: nat | AccountNow(after, id).Some?
        ensures PaidUpTo(AccountNow(after, id).value.postings, Last(after, AccountTransfers))
      {
        assert AccountNow(db, id).Some? && PaidUpTo(AccountNow(db, id).value.postings, Last(db, AccountTransfers));
        TransferPosted(t, db, id);
      }
    }
  }

  lemma TransferPosted(t: Transfer, db: Database, id: nat)
    requires BothTake(t, db) && (t.token.Some? ==> AccountTransferClaim(t.token.value) !in db)
    requires AccountNow(db, id).Some? && PaidUpTo(AccountNow(db, id).value.postings, Last(db, AccountTransfers))
    ensures var after := Effect(TransferRecipe(t), db).0;
      && Last(after, AccountTransfers) == Last(db, AccountTransfers) + 1
      && AccountNow(after, id).Some?
      && PaidUpTo(AccountNow(after, id).value.postings, Last(db, AccountTransfers) + 1)
  {
    hide Effect, TransferRecipe;
    TransferGoes(t, db);
  }

  lemma TransferRetried(t: Transfer, db: Database)
    requires t.token.Some? && AccountTransferClaim(t.token.value) in db
    ensures Effect(TransferRecipe(t), db).0 == db
  {
  }

  /** The number a transfer of money takes is in no account before it. */
  lemma MoneyTransferIsNew(t: Transfer, db: Database, id: nat, i: nat)
    requires MoneyNumbered(db) && (t.token.Some? ==> AccountTransferClaim(t.token.value) !in db)
    requires Effect(TransferRecipe(t), db).1.Made?
    requires AccountNow(db, id).Some? && i < |AccountNow(db, id).value.postings|
    ensures var made := Effect(TransferRecipe(t), db).1.document;
      made.Transferred? && AccountNow(db, id).value.postings[i].cause != Money.OfTransfer(made.number)
  {
    hide Effect, TransferRecipe;
    if BothTake(t, db) {
      TransferGoes(t, db);
    } else {
      TransferStops(t, db);
    }
  }

  // ---- Orders -------------------------------------------------------------------------------

  /** The orders there were, each with its number still, and no number taken. */
  ghost predicate SameNumbers(db: Database, after: Database, but: Option<nat>) {
    && (forall a: nat :: but != Some(a) ==> OrderKept(OrderNow(db, a), OrderNow(after, a)))
    && (but.None? ==>
          Last(after, WebOrders) == Last(db, WebOrders) && Last(after, CounterOrders) == Last(db, CounterOrders))
  }

  predicate OrderKept(before: Option<Order>, after: Option<Order>) {
    && (before.Some? <==> after.Some?)
    && (before.Some? ==> after.value.number == before.value.number && after.value.counter == before.value.counter)
  }

  lemma KeptAreNumbered(db: Database, after: Database)
    requires OrdersNumbered(db) && SameNumbers(db, after, None)
    ensures OrdersNumbered(after)
  {
    forall a: nat, b: nat | a != b && SameKind(OrderNow(after, a), OrderNow(after, b))
      ensures OrderNow(after, a).value.number != OrderNow(after, b).value.number
    {
      assert OrderKept(OrderNow(db, a), OrderNow(after, a)) && OrderKept(OrderNow(db, b), OrderNow(after, b));
      assert SameKind(OrderNow(db, a), OrderNow(db, b));
    }
    forall a: nat | OrderNow(after, a).Some? ensures NumberTaken(after, OrderNow(after, a).value) {
      assert OrderKept(OrderNow(db, a), OrderNow(after, a));
      assert NumberTaken(db, OrderNow(db, a).value);
    }
  }

  /** One order more, with the next number of its kind. */
  lemma OneMoreOrder(db: Database, after: Database, order: nat)
    requires OrdersNumbered(db) && SameNumbers(db, after, Some(order))
    requires OrderNow(after, order).Some?
    requires var made := OrderNow(after, order).value;
      var own := if made.counter then CounterOrders else WebOrders;
      var other := if made.counter then WebOrders else CounterOrders;
      made.number == Last(db, own) + 1 == Last(after, own) && Last(after, other) == Last(db, other)
    ensures OrdersNumbered(after)
  {
    forall a: nat | OrderNow(after, a).Some? ensures NumberTaken(after, OrderNow(after, a).value) {
      if a != order {
        assert OrderKept(OrderNow(db, a), OrderNow(after, a));
        assert NumberTaken(db, OrderNow(db, a).value);
      }
    }
    forall a: nat, b: nat | a != b && SameKind(OrderNow(after, a), OrderNow(after, b))
      ensures OrderNow(after, a).value.number != OrderNow(after, b).value.number
    {
      if a != order {
        assert OrderKept(OrderNow(db, a), OrderNow(after, a)) && NumberTaken(db, OrderNow(db, a).value);
      }
      if b != order {
        assert OrderKept(OrderNow(db, b), OrderNow(after, b)) && NumberTaken(db, OrderNow(db, b).value);
      }
      if a != order && b != order {
        assert SameKind(OrderNow(db, a), OrderNow(db, b));
      }
    }
  }

  // ---- An order placed ------------------------------------------------------------------------

  lemma PlacedOrders(p: Purchase, policy: Stock.Policy, db: Database)
    requires Placeable(p, policy, db) && OrdersNumbered(db)
    ensures OrdersNumbered(Effect(PurchaseRecipe(p, policy), db).0)
  {
    hide PurchaseRecipe, Effect, Placeable, Queued, OrdersNumbered;
    var after := Effect(PurchaseRecipe(p, policy), db).0;
    OrderOwnRow(p, policy, db);
    OrderLeavesRow(p, policy, db, NumberOf(if p.counter then WebOrders else CounterOrders));
    forall a: nat | a != p.order ensures OrderKept(OrderNow(db, a), OrderNow(after, a)) {
      OrderLeavesRow(p, policy, db, OrderAt(a));
    }
    OneMoreOrder(db, after, p.order);
  }

  lemma PlacedStock(p: Purchase, policy: Stock.Policy, db: Database)
    requires Placeable(p, policy, db) && StockNumbered(db)
    ensures StockNumbered(Effect(PurchaseRecipe(p, policy), db).0)
  {
    hide PurchaseRecipe, Effect, Placeable, TransfersUpTo, Marks, Became, Stock.Asked, Told;
    var after := Effect(PurchaseRecipe(p, policy), db).0;
    OrderLeavesRow(p, policy, db, NumberOf(StockTransfers));
    forall id: nat ensures TransfersUpTo(Marks(ShelfNow(after, id).ledger), Last(after, StockTransfers)) {
      var asked: int, kind := Stock.Asked(p.lines, id), if p.counter then Stock.Sale else Stock.Reservation;
      OrderShelfRow(p, policy, db, id);
      ToldNoTransfers(p.lines, id, kind, !p.counter, Stock.ForOrder(p.order));
      OthersUpTo(Told(p.lines, id, kind, !p.counter, Stock.ForOrder(p.order)), Last(db, StockTransfers));
      ShelfUpTo(db, ShelfNow(db, id), ShelfNow(after, id), if p.counter then -asked else 0,
                if p.counter then 0 else asked, Told(p.lines, id, kind, !p.counter, Stock.ForOrder(p.order)),
                Last(db, StockTransfers));
    }
  }

  lemma PaidToIsOther(a: Money.Account, tenders: seq<Tender>, account: nat, order: nat)
    ensures OtherPosted(a, PaidTo(a, tenders, account, order))
  {
    ReceiptsAreSales(tenders, account, a.balance, order);
    var more := Receipts(tenders, account, a.balance, order);
    assert (a.postings + more)[|a.postings|..] == more;
  }

  lemma PlacedMoney(p: Purchase, policy: Stock.Policy, db: Database)
    requires Placeable(p, policy, db)
    ensures OtherPostings(db, Effect(PurchaseRecipe(p, policy), db).0)
  {
    hide PurchaseRecipe, Effect, Placeable, OtherPosted, PaidTo;
    var after := Effect(PurchaseRecipe(p, policy), db).0;
    OrderLeavesRow(p, policy, db, NumberOf(AccountTransfers));
    forall id: nat | AccountNow(after, id).Some?
      ensures AccountNow(db, id).Some? && OtherPosted(AccountNow(db, id).value, AccountNow(after, id).value)
    {
      OrderAccountRow(p, policy, db, id);
      PaidToIsOther(AccountNow(db, id).value, p.tenders, id, p.order);
      NothingPosted(AccountNow(db, id).value);
    }
  }

  lemma PurchaseNumbered(p: Purchase, policy: Stock.Policy, db: Database)
    requires CouponsTally(db) && Numbered(db)
    ensures Numbered(Effect(PurchaseRecipe(p, policy), db).0)
  {
    hide PurchaseRecipe, Effect, StopsOrder, CouponsTally, OrdersNumbered, StockNumbered, MoneyNumbered, OtherPostings;
    if p.token.Some? && OrderClaim(p.token.value) in db {
      PurchaseRetried(p, policy, db);
    } else if p.lines == [] || !StopsOrder(None, p, policy, db) {
      OrderRefused(p, policy, db);
    } else {
      PlacedOrders(p, policy, db);
      PlacedStock(p, policy, db);
      PlacedMoney(p, policy, db);
      OthersAreNumbered(db, Effect(PurchaseRecipe(p, policy), db).0);
    }
  }

  lemma PurchaseRetried(p: Purchase, policy: Stock.Policy, db: Database)
    requires p.token.Some? && OrderClaim(p.token.value) in db
    ensures Effect(PurchaseRecipe(p, policy), db).0 == db
  {
    hide PurchaseObjection, PurchaseWrites;
    RetryLeaves(PurchaseRecipe(p, policy), db);
  }

  // ---- A change of status ---------------------------------------------------------------------

  lemma MovedUpTo(a: Advance, o: Order, db: Database, before: Stock.Shelf, after: Stock.Shelf, id: nat)
    requires ShelfMoved(a, o, before, after, id) && TransfersUpTo(Marks(before.ledger), Last(db, StockTransfers))
    ensures TransfersUpTo(Marks(after.ledger), Last(db, StockTransfers))
  {
    hide TransfersUpTo, Marks, Became, Stock.Asked, Told, Sells, NoTransfers, Last;
    var asked: int, n := Stock.Asked(a.lines, id), Last(db, StockTransfers);
    var told := if PacksNow(a, o) then Sells(a.lines, id, a.order)
                else if a.to.Cancelled? then
                  Told(a.lines, id, Stock.ReservationRelease, false, Stock.ForOrder(a.order))
                else [];
    ToldNoTransfers(a.lines, id, Stock.ReservationRelease, false, Stock.ForOrder(a.order));
    SellsNoTransfers(a.lines, id, a.order);
    NoneAtAll();
    OthersUpTo(told, n);
    ShelfUpTo(db, before, after, if PacksNow(a, o) then -asked else 0,
              if PacksNow(a, o) || a.to.Cancelled? then -asked else 0, told, n);
  }

  lemma NoneAtAll()
    ensures NoTransfers([])
  {
  }

  lemma MovedStock(a: Advance, policy: Stock.Policy, db: Database)
    requires Moveable(a, policy, db) && StockNumbered(db)
    ensures StockNumbered(Effect(AdvanceRecipe(a, policy), db).0)
  {
    hide AdvanceRecipe, Effect, Moveable, TransfersUpTo, Marks, ShelfMoved, OrderMeant, ShelfNow;
    var after := Effect(AdvanceRecipe(a, policy), db).0;
    MoveLeavesRow(a, policy, db, NumberOf(StockTransfers));
    forall id: nat ensures TransfersUpTo(Marks(ShelfNow(after, id).ledger), Last(after, StockTransfers)) {
      MoveShelfRow(a, policy, db, id);
      MovedUpTo(a, OrderMeant(a, db).value, db, ShelfNow(db, id), ShelfNow(after, id), id);
    }
  }

  lemma MovedOrders(a: Advance, policy: Stock.Policy, db: Database)
    requires Moveable(a, policy, db)
    ensures SameNumbers(db, Effect(AdvanceRecipe(a, policy), db).0, None)
  {
    hide AdvanceRecipe, Effect, Moveable, AdvanceShelves, AdvanceCoupons, CanAdvance;
    var after := Effect(AdvanceRecipe(a, policy), db).0;
    MoveGoes(a, policy, db);
    MoveLeavesRow(a, policy, db, NumberOf(WebOrders));
    MoveLeavesRow(a, policy, db, NumberOf(CounterOrders));
    forall id: nat ensures OrderKept(OrderNow(db, id), OrderNow(after, id)) {
      MoveRow(a, policy, db, OrderAt(id));
    }
  }

  lemma AdvanceNumbered(a: Advance, policy: Stock.Policy, db: Database)
    requires ShopOk(policy, db) && Tally(db) && Numbered(db)
    ensures Numbered(Effect(AdvanceRecipe(a, policy), db).0)
  {
    hide AdvanceRecipe, Effect, StopsMove, OrdersNumbered, StockNumbered, MoneyNumbered, ShopOk, Tally, SameNumbers;
    MoveAnswered(a, policy, db);
    if StopsMove(a, policy, db).None? {
      MovedOrders(a, policy, db);
      KeptAreNumbered(db, Effect(AdvanceRecipe(a, policy), db).0);
      MovedStock(a, policy, db);
      AdvanceWellMade(a, policy);
      AdvanceLocksNoMoney(a, policy);
      MoneySpared(AdvanceRecipe(a, policy), db);
    }
  }

  lemma AdvanceLocksNoMoney(a: Advance, policy: Stock.Policy)
    ensures forall k :: k in Keys(AdvanceRecipe(a, policy)) ==> !k.AccountAt? && !k.NumberOf?
  {
    hide Stock.Ids, AdvanceEnds, AdvanceWrites;
  }

  // ---- An exchange ----------------------------------------------------------------------------

  lemma SwappedOrders(x: Exchange, policy: Stock.Policy, db: Database)
    requires Exchangeable(x, policy, db) && OrdersNumbered(db)
    ensures OrdersNumbered(Effect(ExchangeRecipe(x, policy), db).0)
  {
    hide ExchangeRecipe, Effect, Exchangeable, OrdersNumbered, SwapQueued, Paying, Least, Refundable;
    var after := Effect(ExchangeRecipe(x, policy), db).0;
    SwapSale(x, policy, db);
    SwapOriginal(x, policy, db);
    SwapLeavesRow(x, policy, db, NumberOf(WebOrders));
    forall a: nat | a != x.sale.order ensures OrderKept(OrderNow(db, a), OrderNow(after, a)) {
      if a != x.original {
        SwapLeavesRow(x, policy, db, OrderAt(a));
      }
    }
    OneMoreOrder(db, after, x.sale.order);
  }

  lemma SwappedStock(x: Exchange, policy: Stock.Policy, db: Database)
    requires Exchangeable(x, policy, db) && StockNumbered(db)
    ensures StockNumbered(Effect(ExchangeRecipe(x, policy), db).0)
  {
    hide ExchangeRecipe, Effect, Exchangeable, TransfersUpTo, Marks, Became, Stock.Asked, Told, PutMarks, PutOn;
    var after := Effect(ExchangeRecipe(x, policy), db).0;
    SwapLeavesRow(x, policy, db, NumberOf(StockTransfers));
    forall id: nat ensures TransfersUpTo(Marks(ShelfNow(after, id).ledger), Last(after, StockTransfers)) {
      var n, out := Last(db, StockTransfers), Told(x.sale.lines, id, Stock.Sale, false, Stock.ForOrder(x.sale.order));
      SwapShelf(x, policy, db, id);
      ToldNoTransfers(x.sale.lines, id, Stock.Sale, false, Stock.ForOrder(x.sale.order));
      PutNoTransfers(x, 0, id);
      OthersUpTo(out, n);
      OthersUpTo(PutMarks(x, 0, id), n);
      MoreMarks(PutMarks(x, 0, id), out, n, n);
      ShelfUpTo(db, ShelfNow(db, id), ShelfNow(after, id), PutOn(x, 0, id) - Stock.Asked(x.sale.lines, id), 0,
                PutMarks(x, 0, id) + out, n);
    }
  }

  lemma SwappedIsOther(x: Exchange, worth: nat, account: nat, a: Money.Account)
    ensures AccountSwapped(x, worth, account, Some(a)).Some?
    ensures OtherPosted(a, AccountSwapped(x, worth, account, Some(a)).value)
  {
    hide Paying;
    ReceiptsAreSales(Paying(x, worth), account, a.balance, x.sale.order);
    var more := Receipts(Paying(x, worth), account, a.balance, x.sale.order);
    var after := AccountSwapped(x, worth, account, Some(a)).value.postings;
    assert after[..|a.postings|] == a.postings;
    assert after[|a.postings|..] == more || exists refund ::
        after[|a.postings|..] == more + [refund] && refund.cause == Money.OfReturn(x.returned) by {
      if after != a.postings + more {
        assert after[|a.postings|..] == more + [after[|after| - 1]];
      } else {
        assert after[|a.postings|..] == more;
      }
    }
  }

  lemma SwappedMoney(x: Exchange, policy: Stock.Policy, db: Database)
    requires Exchangeable(x, policy, db)
    ensures OtherPostings(db, Effect(ExchangeRecipe(x, policy), db).0)
  {
    hide ExchangeRecipe, Effect, Exchangeable, OtherPosted, AccountSwapped, Least, Refundable;
    var after := Effect(ExchangeRecipe(x, policy), db).0;
    SwapLeavesRow(x, policy, db, NumberOf(AccountTransfers));
    SwapOriginal(x, policy, db);
    var worth := Least(x.share, Refundable(OriginalNow(x, db).value));
    forall id: nat | AccountNow(after, id).Some?
      ensures AccountNow(db, id).Some? && OtherPosted(AccountNow(db, id).value, AccountNow(after, id).value)
    {
      SwapAccount(x, policy, db, id);
      NoneSwapped(x, worth, id);
      SwappedIsOther(x, worth, id, AccountNow(db, id).value);
    }
  }

  lemma NoneSwapped(x: Exchange, worth: nat, account: nat)
    ensures AccountSwapped(x, worth, account, None).None?
  {
  }

  lemma ExchangeNumbered(x: Exchange, policy: Stock.Policy, db: Database)
    requires ShopOk(policy, db) && CouponsTally(db) && Numbered(db)
    ensures Numbered(Effect(ExchangeRecipe(x, policy), db).0)
  {
    hide ExchangeRecipe, Effect, StopsExchange, OrdersNumbered, StockNumbered, MoneyNumbered, ShopOk, CouponsTally,
         OtherPostings;
    SwapAnswered(x, policy, db);
    if ExchangeAt(x.token) !in db && StopsExchange(None, x, policy, db) {
      SwappedOrders(x, policy, db);
      SwappedStock(x, policy, db);
      SwappedMoney(x, policy, db);
      OthersAreNumbered(db, Effect(ExchangeRecipe(x, policy), db).0);
    }
  }

  // ---- A payment event ------------------------------------------------------------------------

  lemma EventKeepsRow(e: Event, policy: Stock.Policy, db: Database, k: Key)
    requires ShopOk(policy, db) && (k.OrderAt? || k.AccountAt? || k.NumberOf?)
    ensures var after := Effect(EventRecipe(e), db).0;
      && (k.NumberOf? ==> Read(after, k) == Read(db, k))
      && (k.OrderAt? ==> OrderKept(OrderIn(Read(db, k)), OrderIn(Read(after, k))))
      && (k.AccountAt? && AccountIn(Read(after, k)).Some? ==>
            AccountIn(Read(db, k)).Some? && OtherPosted(AccountIn(Read(db, k)).value, AccountIn(Read(after, k)).value))
  {
    hide EventRecipe, Effect, EventObjection, ShopOk, WellMade, OtherPosted, After;
    var c, values := EventRecipe(e), Snapshot(Keys(EventRecipe(e)), db);
    EventShape(e);
    EventWellMade(e);
    if k.AccountAt? && AccountIn(Read(db, k)).Some? {
      NothingPosted(AccountIn(Read(db, k)).value);
    }
    if EventClaim(e.provider, e.event) in db {
      RetryLeaves(c, db);
    } else if c.check(values).Some? {
      EffectStops(c, db);
    } else {
      ReadsSoundRows(policy, c, db);
      ReadAfter(c, db, k);
      EventAfterRow(e, policy, values, k);
    }
  }

  lemma EventAfterRow(e: Event, policy: Stock.Policy, values: Values, k: Key)
    requires EventGoes(e, policy, values) && (k.OrderAt? || k.AccountAt? || k.NumberOf?)
    ensures var before, after := Get(values, k), After(EventRecipe(e), values, k);
      && (k.NumberOf? ==> after == before)
      && (k.OrderAt? ==> OrderKept(OrderIn(before), OrderIn(after)))
      && (k.AccountAt? && AccountIn(after).Some? ==>
            AccountIn(before).Some? && OtherPosted(AccountIn(before).value, AccountIn(after).value))
  {
    hide EventRecipe, EventGoes, OtherPosted;
    EventAfter(e, policy, values, k);
    if k.AccountAt? && AccountIn(Get(values, k)).Some? {
      var a := AccountIn(Get(values, k)).value;
      NothingPosted(a);
      if e.found.Some? {
        var f := e.found.value;
        OnePosting(a, a.balance + f.amount,
                   Money.Posting(Money.SalePayment, f.amount, a.balance + f.amount, Money.OfPayment(f.payment)));
      }
    }
  }

  lemma EventNumbered(e: Event, policy: Stock.Policy, db: Database)
    requires ShopOk(policy, db) && Numbered(db)
    ensures Numbered(Effect(EventRecipe(e), db).0)
  {
    hide EventRecipe, Effect, OrdersNumbered, StockNumbered, MoneyNumbered, ShopOk, OtherPosted, WellMade;
    var after := Effect(EventRecipe(e), db).0;
    EventKeepsRow(e, policy, db, NumberOf(WebOrders));
    EventKeepsRow(e, policy, db, NumberOf(CounterOrders));
    EventKeepsRow(e, policy, db, NumberOf(AccountTransfers));
    forall a: nat ensures OrderKept(OrderNow(db, a), OrderNow(after, a)) {
      EventKeepsRow(e, policy, db, OrderAt(a));
    }
    KeptAreNumbered(db, after);
    forall id: nat | AccountNow(after, id).Some?
      ensures AccountNow(db, id).Some? && OtherPosted(AccountNow(db, id).value, AccountNow(after, id).value)
    {
      EventKeepsRow(e, policy, db, AccountAt(id));
    }
    OthersAreNumbered(db, after);
    EventWellMade(e);
    EventLocksNoStock(e);
    StockSpared(EventRecipe(e), db);
  }

  lemma EventLocksNoStock(e: Event)
    ensures forall k :: k in Keys(EventRecipe(e)) ==> !k.ShelfAt? && !k.NumberOf?
  {
    hide EventObjection, EventWrites;
  }

  // ---- The rest, and any of them ----------------------------------------------------------------

  lemma CashNumbered(q: CashRequest, policy: Stock.Policy, db: Database)
    requires ShopOk(policy, db) && Numbered(db)
    ensures Numbered(Effect(CashRecipe(q), db).0)
  {
    hide Effect, OrdersNumbered, StockNumbered, MoneyNumbered, ShopOk, WellMade, OtherPostings, Proper, MovementRecipe,
         TransferRecipe, SpendingRecipe, VoidRecipe;
    CashIsWellMade(q, policy);
    CashLocksMoney(q);
    OrdersSpared(CashRecipe(q), db);
    StockSpared(CashRecipe(q), db);
    match q
    case AMovement(m) =>
      MovementMoney(m, db);
      OthersAreNumbered(db, Effect(MovementRecipe(m), db).0);
    case ATransfer(t) =>
      TransferMoney(t, db);
    case ASpending(e) =>
      SpendingMoney(e, db);
      OthersAreNumbered(db, Effect(SpendingRecipe(e), db).0);
    case AVoid(v) =>
      VoidMoney(v, policy, db);
      OthersAreNumbered(db, Effect(VoidRecipe(v), db).0);
  }

  lemma CashIsWellMade(q: CashRequest, policy: Stock.Policy)
    ensures WellMade(CashRecipe(q), IsClaim)
  {
    hide WellMade, Ordered, CashRecipe;
    CashProper(q, policy);
  }

  lemma CashLocksMoney(q: CashRequest)
    ensures forall k :: k in Keys(CashRecipe(q)) ==>
              !k.OrderAt? && !k.ShelfAt? &&
              k !in {NumberOf(WebOrders), NumberOf(CounterOrders), NumberOf(StockTransfers)}
  {
  }

  lemma GoodsNumbered(q: StockRequest, policy: Stock.Policy, db: Database)
    requires Numbered(db)
    ensures Numbered(Effect(StockRecipe(q, policy), db).0)
  {
    hide Effect, OrdersNumbered, StockNumbered, MoneyNumbered, WellMade, WriteOffRecipe, CorrectionRecipe,
         ShipmentRecipe;
    GoodsLockNoMoney(q, policy);
    match q
    case AWriteOff(w) =>
      WriteOffWellMade(w, policy);
      OrdersSpared(StockRecipe(q, policy), db);
      MoneySpared(StockRecipe(q, policy), db);
      WriteOffStock(w, policy, db);
    case ACorrection(a) =>
      CorrectionWellMade(a);
      OrdersSpared(StockRecipe(q, policy), db);
      MoneySpared(StockRecipe(q, policy), db);
      CorrectionStock(a, db);
    case AShipment(t) =>
      ShipmentWellMade(t, policy);
      OrdersSpared(StockRecipe(q, policy), db);
      MoneySpared(StockRecipe(q, policy), db);
      ShipmentStock(t, policy, db);
  }

  lemma GoodsLockNoMoney(q: StockRequest, policy: Stock.Policy)
    ensures forall k :: k in Keys(StockRecipe(q, policy)) ==>
              !k.OrderAt? && !k.AccountAt? && (k.NumberOf? ==> k.sequence.StockTransfers?)
  {
    hide StockRoom.Packed, Leaving, Targets, Stock.Ids;
  }

  lemma SendingNumbered(s: Suppliers.Sending, db: Database)
    requires Numbered(db)
    ensures Numbered(Effect(Suppliers.SendingRecipe(s), db).0)
  {
    hide Effect, OrdersNumbered, StockNumbered, MoneyNumbered, WellMade, Suppliers.SendingRecipe;
    Suppliers.SendingWellMade(s);
    SendingLocks(s);
    OrdersSpared(Suppliers.SendingRecipe(s), db);
    StockSpared(Suppliers.SendingRecipe(s), db);
    MoneySpared(Suppliers.SendingRecipe(s), db);
  }

  lemma SendingLocks(s: Suppliers.Sending)
    ensures forall k :: k in Keys(Suppliers.SendingRecipe(s)) ==>
              !k.OrderAt? && !k.AccountAt? && !k.ShelfAt? && (k.NumberOf? ==> k.sequence.SupplierReturns?)
  {
    hide Suppliers.ItemIds, Suppliers.SendingWrites, Suppliers.SendingObjection;
  }

  lemma CountNumbered(a: Counts.Applying, policy: Stock.Policy, db: Database)
    requires ShopOk(policy, db) && Numbered(db)
    ensures Numbered(Effect(Counts.CountRecipe(a), db).0)
  {
    hide Effect, OrdersNumbered, StockNumbered, MoneyNumbered, WellMade, Counts.CountRecipe, ShopOk;
    Counts.CountWellMade(a);
    CountLocks(a);
    OrdersSpared(Counts.CountRecipe(a), db);
    MoneySpared(Counts.CountRecipe(a), db);
    CountStock(a, policy, db);
  }

  lemma CountLocks(a: Counts.Applying)
    ensures forall k :: k in Keys(Counts.CountRecipe(a)) ==> !k.OrderAt? && !k.AccountAt? && !k.NumberOf?
  {
    hide Counts.Shelves, Counts.CountWrites, Counts.CountObjection, Stock.Ids;
  }

  lemma RequestNumbered(q: ShopRequest, policy: Stock.Policy, db: Database)
    requires ShopOk(policy, db) && Tally(db) && Numbered(db)
    ensures Numbered(Effect(RecipeOf(q, policy), db).0)
  {
    hide Effect, Numbered, ShopOk, Tally;
    TallyHasCoupons(db);
    match q
    case Cash(c) => CashNumbered(c, policy, db);
    case Goods(g) => GoodsNumbered(g, policy, db);
    case Buy(p) => PurchaseNumbered(p, policy, db);
    case Progress(a) => AdvanceNumbered(a, policy, db);
    case Hear(e) => EventNumbered(e, policy, db);
    case SendBack(s) => SendingNumbered(s, db);
    case Swap(x) => ExchangeNumbered(x, policy, db);
    case CountIn(a) => CountNumbered(a, policy, db);
  }

  lemma TallyHasCoupons(db: Database)
    requires Tally(db)
    ensures CouponsTally(db)
  {
  }

  /** Whatever runs beside whatever: in every committed state no two orders of a kind have one number, no number still
      to be taken is on any, and no ledger has an entry for a transfer still to be made. */
  lemma NumbersAreTakenOnce(asked: seq<ShopRequest>, policy: Stock.Policy, db: Database, schedule: seq<nat>)
    requires forall i :: 0 <= i < |asked| ==> Acceptable(asked[i], policy)
    requires ShopOk(policy, db) && Tally(db) && Numbered(db)
    requires var reqs := ToRequests(RecipesOf(asked, policy)); Schedulable(reqs, Start(reqs, db), schedule)
    ensures Numbered(Outcome(ToRequests(RecipesOf(asked, policy)), db, schedule).db)
  {
    hide RecipeOf, Serial, ShopOk, Tally, Numbered, Effect, Acceptable;
    var recipes, reqs := RecipesOf(asked, policy), ToRequests(RecipesOf(asked, policy));
    RequestsSound(asked, policy);
    forall p, d: Database | 0 <= p < |reqs| && ShopOk(policy, d) && Tally(d) && Numbered(d)
      ensures ShopOk(policy, Serial(reqs[p], d).0) && Tally(Serial(reqs[p], d).0) && Numbered(Serial(reqs[p], d).0)
    {
      RequestSure(asked[p], policy);
      RecipeSerial(recipes[p], IsClaim, d);
      RequestNumbered(asked[p], policy, d);
    }
    AlwaysKept(reqs, IsClaim, db, schedule, d => ShopOk(policy, d) && Tally(d) && Numbered(d));
  }
}
