/** The cash book over whole runs: any number of requests at once, in any interleaving. */
module CashRuns {
  import opened Wrappers
  import opened RowLocks
  import opened LockOrder
  import opened Recipes
  import opened Runs
  import opened Shop
  import opened Tallies
  import opened CashBook
  import opened CashLaws
  import Ledger = MoneyLedger
  import Stock = StockLedger

  function CashRecipes(asked: seq<CashRequest>): seq<ShopRecipe> {
    seq(|asked|, i requires 0 <= i < |asked| => CashRecipe(asked[i]))
  }

  /** Any mix of movements, crossing transfers, expenses and voids: no deadlock, every run ends,
      and every committed state is sound and tallies. */
  lemma CashRunsAreSafe(asked: seq<CashRequest>, policy: Stock.Policy, db: Database, schedule: seq<nat>)
    requires ShopOk(policy, db) && Tally(db)
    requires var reqs := ToRequests(CashRecipes(asked)); Schedulable(reqs, Start(reqs, db), schedule)
    ensures var reqs := ToRequests(CashRecipes(asked));
      && ShopOk(policy, Outcome(reqs, db, schedule).db) && Tally(Outcome(reqs, db, schedule).db)
      && !CanDeadlock(reqs, db)
      && ((forall p: nat :: !Enabled(reqs, Outcome(reqs, db, schedule), p)) ==> AllDone(Outcome(reqs, db, schedule)))
  {
    var recipes, reqs := CashRecipes(asked), ToRequests(CashRecipes(asked));
    forall i | 0 <= i < |recipes| ensures Sure(policy, recipes[i]) && Ordered(reqs[i], RankOf) {
      CashSure(asked[i], policy);
      CashProper(asked[i], policy);
    }
    AlwaysTallies(policy, recipes, db, schedule);
    OrderedNeverDeadlocks(reqs, RankOf, db);
    RunsFinish(reqs, db, schedule);
  }

  // ---- One key, one movement ----------------------------------------------------------

  lemma MovementRetells(m: Movement)
    ensures Retells(MovementRecipe(m))
  {
  }

  /** Any number of simultaneous copies of one keyed movement that would go through on its own, of as much as the
      account holds even: one posting of its kind -- a deposit's amount in, a withdrawal's out, an adjustment's as
      signed -- every copy answered with it, and none refused for money the first took. */
  lemma OneKeyOneMovement(m: Movement, n: nat, db: Database, schedule: seq<nat>)
    requires n > 0 && m.token.Some? && MoveClaim(m.token.value) !in db
    requires Effect(MovementRecipe(m), db).1.Made?
    requires var reqs := seq(n, _ => ToRequest(MovementRecipe(m)));
      Schedulable(reqs, Start(reqs, db), schedule) && AllDone(Outcome(reqs, db, schedule))
    ensures AccountIn(Read(db, AccountAt(m.account))).Some?
    ensures var s := Outcome(seq(n, _ => ToRequest(MovementRecipe(m))), db, schedule);
      var a := AccountIn(Read(db, AccountAt(m.account))).value;
      var delta := if m.kind.Withdrawal? then -m.amount else m.amount;
      var posting := Ledger.Posting(m.kind, delta, a.balance + delta, Ledger.ByHand);
      var posted := Posted(m.account, |a.postings|);
      && s.db == db[AccountAt(m.account) :=
                      AnAccount(a.(balance := a.balance + delta, postings := a.postings + [posting]))]
                   [MoveClaim(m.token.value) := Claimed(posted)]
      && (m.kind.Deposit? || m.kind.Withdrawal? ==> m.amount > 0)
      && |s.workers| == n
      && forall p :: 0 <= p < n ==> s.workers[p].answer == Some(Made(posted))
  {
    hide Effect, Outcome, MovementRecipe;
    var c := MovementRecipe(m);
    MovementWellMade(m);
    MovementRetells(m);
    MovementIsKeyed(m, db);
    KeyedIsDoneOnce(c, db);
    OneKeyOneEffect(c, n, IsClaim, db, schedule);
    MovementAnswers(m, db);
  }

  lemma MovementIsKeyed(m: Movement, db: Database)
    requires m.token.Some? && Effect(MovementRecipe(m), db).1.Made? && MoveClaim(m.token.value) !in db
    ensures MovementRecipe(m).claim.Some?
  {
  }

  // ---- Voids --------------------------------------------------------------------------

  predicate CanVoid(v: Voiding, db: Database) {
    var expense := ExpenseIn(Read(db, ExpenseAt(v.expense)));
    && v.reason && expense.Some? && expense.value.account == v.account && !expense.value.voided
    && expense.value.amount > 0
    && Objection(AccountIn(Read(db, AccountAt(v.account))), expense.value.amount).None?
  }

  function Voided(v: Voiding, db: Database): Database
    requires CanVoid(v, db)
  {
    var expense := ExpenseIn(Read(db, ExpenseAt(v.expense))).value;
    var account := AccountIn(Read(db, AccountAt(v.account))).value;
    db[ExpenseAt(v.expense) := AnExpense(expense.(voided := true))]
      [AccountAt(v.account) :=
          AnAccount(Ledger.Post(account, Ledger.Adjustment, expense.amount, Ledger.OfExpense(v.expense)))]
  }

  lemma FirstVoid(v: Voiding, db: Database)
    requires CanVoid(v, db)
    ensures Serial(ToRequest(VoidRecipe(v)), db) == (Voided(v, db), Made(VoidedExpense(v.expense)))
  {
    var c := VoidRecipe(v);
    VoidWellMade(v);
    RecipeSerial(c, IsClaim, db);
    SnapshotHas(Keys(c), db, ExpenseAt(v.expense));
    SnapshotHas(Keys(c), db, AccountAt(v.account));
    assert db + c.write(Snapshot(Keys(c), db)).0 == Voided(v, db);
  }

  lemma NextVoid(v: Voiding, db: Database)
    requires CanVoid(v, db)
    ensures Serial(ToRequest(VoidRecipe(v)), Voided(v, db)) == (Voided(v, db), Refused(AlreadyVoid))
  {
    var c := VoidRecipe(v);
    VoidWellMade(v);
    RecipeSerial(c, IsClaim, Voided(v, db));
    SnapshotHas(Keys(c), Voided(v, db), ExpenseAt(v.expense));
  }

  lemma {:induction false} VoidedAgain(v: Voiding, n: nat, db: Database)
    requires CanVoid(v, db)
    ensures Again(ToRequest(VoidRecipe(v)), n, db) == if n == 0 then db else Voided(v, db)
  {
    hide Serial, ToRequest, VoidRecipe, CanVoid, Voided;
    if n > 0 {
      VoidedAgain(v, n - 1, db);
      FirstVoid(v, db);
      NextVoid(v, db);
    }
  }

  /** Any number of simultaneous voids of one expense: one reversal, of exactly its amount, by the
      first to finish; all the others are told it is already void. */
  lemma VoidedOnce(v: Voiding, n: nat, db: Database, schedule: seq<nat>)
    requires n > 0 && CanVoid(v, db)
    requires var reqs := seq(n, _ => ToRequest(VoidRecipe(v)));
      Schedulable(reqs, Start(reqs, db), schedule) && AllDone(Outcome(reqs, db, schedule))
    ensures var s := Outcome(seq(n, _ => ToRequest(VoidRecipe(v))), db, schedule);
      && s.db == Voided(v, db)
      && |s.finished| == n
      && (forall i :: 0 <= i < n ==> s.finished[i] < |s.workers|)
      && forall i :: 0 <= i < n ==>
           s.workers[s.finished[i]].answer ==
               Some(if i == 0 then Made(VoidedExpense(v.expense)) else Refused(AlreadyVoid))
  {
    var r := ToRequest(VoidRecipe(v));
    VoidWellMade(v);
    RecipeIsSound(VoidRecipe(v), IsClaim);
    CopiesInARow(r, n, IsClaim, db, schedule);
    VoidedAgain(v, n, db);
    forall i | 0 <= i < n
      ensures Serial(r, Again(r, i, db)).1 == if i == 0 then Made(VoidedExpense(v.expense)) else Refused(AlreadyVoid)
    {
      VoidedAgain(v, i, db);
      FirstVoid(v, db);
      NextVoid(v, db);
    }
  }

  // ---- Conservation -------------------------------------------------------------------

  function BalanceAt(db: Database, id: nat): int {
    var account := AccountIn(Read(db, AccountAt(id)));
    if account.Some? then account.value.balance else 0
  }

  /** The money in every account below `n`. */
  function Money(db: Database, n: nat): int {
    if n == 0 then 0 else Money(db, n - 1) + BalanceAt(db, n - 1)
  }

  /** Change two accounts and the whole changes by what they did. */
  lemma {:induction false} MoneyOfTwo(before: Database, after: Database, n: nat, a: nat, b: nat)
    requires a != b && forall id: nat :: id != a && id != b ==> BalanceAt(after, id) == BalanceAt(before, id)
    ensures Money(after, n) - Money(before, n) ==
            (if a < n then BalanceAt(after, a) - BalanceAt(before, a) else 0) +
            (if b < n then BalanceAt(after, b) - BalanceAt(before, b) else 0)
  {
    if n > 0 {
      MoneyOfTwo(before, after, n - 1, a, b);
    }
  }

  /** A transfer takes from one account what it gives the other. */
  lemma TransferMoves(t: Transfer, db: Database)
    ensures var after := Effect(TransferRecipe(t), db).0;
      && (forall id: nat :: id != t.source && id != t.target ==> BalanceAt(after, id) == BalanceAt(db, id))
      && BalanceAt(after, t.source) + BalanceAt(after, t.target) == BalanceAt(db, t.source) + BalanceAt(db, t.target)
      && (t.source == t.target ==> after == db)
  {
    hide Objection, Snapshot;
    var c := TransferRecipe(t);
    SnapshotHas(Keys(c), db, AccountAt(t.source));
    SnapshotHas(Keys(c), db, AccountAt(t.target));
  }

  function TransferRecipes(asked: seq<Transfer>): seq<ShopRecipe> {
    seq(|asked|, i requires 0 <= i < |asked| => TransferRecipe(asked[i]))
  }

  /** Any set of crossing transfers, in any interleaving, keeps the money there is. */
  lemma TransfersConserve(asked: seq<Transfer>, n: nat, db: Database, schedule: seq<nat>)
    requires forall i :: 0 <= i < |asked| ==> asked[i].source < n && asked[i].target < n
    requires var reqs := ToRequests(TransferRecipes(asked)); Schedulable(reqs, Start(reqs, db), schedule)
    ensures Money(Outcome(ToRequests(TransferRecipes(asked)), db, schedule).db, n) == Money(db, n)
  {
    var recipes, reqs := TransferRecipes(asked), ToRequests(TransferRecipes(asked));
    forall i | 0 <= i < |recipes| ensures WellMade(recipes[i], IsClaim) {
      TransferWellMade(asked[i]);
    }
    RecipesAreSound(recipes, IsClaim);
    forall p, d: Database | 0 <= p < |reqs| ensures Money(Serial(reqs[p], d).0, n) == Money(d, n) {
      RecipeSerial(recipes[p], IsClaim, d);
      TransferMoves(asked[p], d);
      if asked[p].source != asked[p].target {
        MoneyOfTwo(d, Effect(recipes[p], d).0, n, asked[p].source, asked[p].target);
      }
    }
    AlwaysKept(reqs, IsClaim, db, schedule, d => Money(d, n) == Money(db, n));
  }
}
