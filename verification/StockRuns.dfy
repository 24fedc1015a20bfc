/** Who gets the last of a shelf: stock over whole runs. */
module StockRuns {
  import opened Wrappers
  import opened RowLocks
  import opened LockOrder
  import opened Recipes
  import opened Runs
  import opened Shop
  import opened Tallies
  import opened CashBook
  import opened StockRoom
  import opened Orders
  import Stock = StockLedger
  import Money = MoneyLedger

  // ---- Orders for the same article ----------------------------------------------------

  /** An order for so many of one article, that only the shelf can refuse. */
  predicate OrderFor(p: Purchase, shelf: nat, quantity: nat) {
    p.lines == [Stock.Line(shelf, quantity)] && quantity > 0 && p.coupon.None? &&
    (p.counter ==> TenderSum(Tenders(p)) >= p.total)
  }

  /** Its key and its row are its own, and its accounts take money. */
  predicate CanStart(p: Purchase, db: Database) {
    && OrderAt(p.order) !in db
    && (p.token.Some? ==> OrderClaim(p.token.value) !in db)
    && forall i :: 0 <= i < |Tenders(p)| ==> TakesMoney(db, Tenders(p)[i].account)
  }

  predicate TakesMoney(db: Database, account: nat) {
    AccountIn(Read(db, AccountAt(account))).Some? && AccountIn(Read(db, AccountAt(account))).value.active
  }

  lemma {:induction false} NoneObjects(tenders: seq<Tender>, values: Values, db: Database)
    requires forall i :: 0 <= i < |tenders| ==>
        TakesMoney(db, tenders[i].account) &&
        AccountOf(values, tenders[i].account) == AccountIn(Read(db, AccountAt(tenders[i].account)))
    ensures TenderObjection(tenders, values).None?
  {
    if tenders != [] {
      assert forall i :: 0 <= i < |tenders[1..]| ==> tenders[1..][i] == tenders[i + 1];
      NoneObjects(tenders[1..], values, db);
    }
  }

  /** Held stock is not its to take: the counter's alone, and only where the shop lets it. */
  predicate MindsHolds(policy: Stock.Policy, counter: bool) {
    counter ==> !policy.counterSellsReserved
  }

  lemma OneLineIs(shelf: nat, quantity: nat)
    requires quantity > 0
    ensures var lines := [Stock.Line(shelf, quantity)];
      Stock.Touched(lines) == {shelf} && Stock.Asked(lines, shelf) == quantity && Stock.Ids(lines) == [shelf]
  {
    var lines := [Stock.Line(shelf, quantity)];
    assert lines[1..] == [] && Stock.Ids(lines[1..]) == [];
  }

  lemma OneLine(policy: Stock.Policy, counter: bool, shelf: nat, quantity: nat, values: Values)
    requires quantity > 0 && !policy.oversell && MindsHolds(policy, counter) && ShelfOf(values, shelf).reserved >= 0
    ensures StockObjection(policy, counter, [Stock.Line(shelf, quantity)], values) ==
            if quantity <= ShelfOf(values, shelf).Available() then None else Some(InsufficientStock)
  {
    hide Stock.Ids, Stock.Touched, Stock.Asked;
    OneLineIs(shelf, quantity);
    var lines := [Stock.Line(shelf, quantity)];
    var rows, ids := ShelvesOf(values, Stock.Touched(lines)), Stock.Ids(lines);
    assert ids[0] == shelf && rows[shelf] == ShelfOf(values, shelf);
    assert Stock.CanReserve(policy, rows, ids, lines) <==> quantity <= rows[ids[0]].Available();
    assert counter ==> (Stock.CanSell(policy, rows, ids, lines) <==> quantity <= rows[ids[0]].Available());
  }

  /** The rows such an order reads. */
  lemma OrderReads(p: Purchase, shelf: nat, quantity: nat, policy: Stock.Policy, db: Database)
    requires OrderFor(p, shelf, quantity) && CanStart(p, db)
    ensures var values := Snapshot(Keys(PurchaseRecipe(p, policy)), db);
      && OrderAt(p.order) in values && values[OrderAt(p.order)].None?
      && HasShelves(values, Stock.Ids(p.lines)) && ShelfOf(values, shelf) == ShelfNow(db, shelf)
      && HasAccounts(values, Tenders(p)) && TenderObjection(Tenders(p), values).None?
  {
    hide Tenders, TenderSum, TenderObjection;
    var c, values := PurchaseRecipe(p, policy), Snapshot(Keys(PurchaseRecipe(p, policy)), db);
    PurchaseHasRead(p, policy, values);
    PurchaseShelvesRead(p, policy, values);
    OneLineIs(shelf, quantity);
    ShelfRead(p.lines, values, shelf);
    forall i | 0 <= i < |Tenders(p)|
      ensures AccountAt(Tenders(p)[i].account) in values
      ensures AccountOf(values, Tenders(p)[i].account) == AccountIn(Read(db, AccountAt(Tenders(p)[i].account)))
    {
      assert TenderKeys(Tenders(p))[i] in Keys(c);
    }
    NoneObjects(Tenders(p), values, db);
  }

  /** What decides it: the units on its shelf that nobody holds. */
  lemma OrderDecided(p: Purchase, shelf: nat, quantity: nat, policy: Stock.Policy, db: Database)
    requires OrderFor(p, shelf, quantity) && CanStart(p, db) && ShopOk(policy, db)
    requires !policy.oversell && MindsHolds(policy, p.counter)
    ensures PurchaseObjection(p, policy, Snapshot(Keys(PurchaseRecipe(p, policy)), db)) ==
        if quantity <= ShelfNow(db, shelf).Available() then None else Some(InsufficientStock)
  {
    hide Tenders, TenderSum, TenderObjection, StockObjection, Snapshot, ShopOk, CanStart, HasAccounts, HasShelves,
         PurchaseRecipe;
    OrderReads(p, shelf, quantity, policy, db);
    ShelfIsOk(policy, db, shelf);
    OneLine(policy, p.counter, shelf, quantity, Snapshot(Keys(PurchaseRecipe(p, policy)), db));
  }

  lemma ShelfIsOk(policy: Stock.Policy, db: Database, shelf: nat)
    requires ShopOk(policy, db)
    ensures Stock.ShelfOk(policy, ShelfNow(db, shelf))
  {
    assert Stock.ShelfOk(policy, NEW_SHELF);
  }

  lemma PurchaseHasRead(p: Purchase, policy: Stock.Policy, values: Values)
    requires HasRead(PurchaseRecipe(p, policy), values)
    ensures OrderAt(p.order) in values
  {
    hide Tenders;
    var all := [OrderAt(p.order)] + ShelfKeys(Stock.Ids(p.lines)) + CouponKeys(p.coupon) + TenderKeys(Tenders(p));
    assert all[0] == OrderAt(p.order) && all[0] in Keys(PurchaseRecipe(p, policy));
  }

  lemma PurchaseShelvesRead(p: Purchase, policy: Stock.Policy, values: Values)
    requires HasRead(PurchaseRecipe(p, policy), values)
    ensures HasShelves(values, Stock.Ids(p.lines))
  {
    hide Tenders;
    forall i | 0 <= i < |Stock.Ids(p.lines)| ensures ShelfAt(Stock.Ids(p.lines)[i]) in values {
      assert ShelfKeys(Stock.Ids(p.lines))[i] in Keys(PurchaseRecipe(p, policy));
    }
  }

  /** Served or not, what becomes of the shelf. */
  lemma OrderTakes(p: Purchase, shelf: nat, quantity: nat, policy: Stock.Policy, db: Database)
    requires OrderFor(p, shelf, quantity) && CanStart(p, db) && ShopOk(policy, db)
    requires !policy.oversell && MindsHolds(policy, p.counter)
    ensures var (after, answer), left := Effect(PurchaseRecipe(p, policy), db), ShelfNow(db, shelf).Available();
      if left >= quantity then answer.Made? && ShelfNow(after, shelf).Available() == left - quantity
      else answer.Refused? && after == db
  {
    hide Effect, Snapshot, Keys, PurchaseRecipe, PurchaseObjection, PurchaseWrites, ShopOk, HasAccounts, HasShelves,
         TenderObjection, Tenders, TenderSum;
    var c, values := PurchaseRecipe(p, policy), Snapshot(Keys(PurchaseRecipe(p, policy)), db);
    OrderDecided(p, shelf, quantity, policy, db);
    PurchaseShape(p, policy);
    assert c.check(values) == Refuse(PurchaseObjection(p, policy, values)) &&
           c.write(values) == PurchaseWrites(p, values);
    if ShelfNow(db, shelf).Available() >= quantity {
      OrderShelf(p, shelf, quantity, policy, db);
      EffectGoes(c, db);
    } else {
      EffectStops(c, db);
    }
  }

  lemma PurchaseShape(p: Purchase, policy: Stock.Policy)
    ensures var c := PurchaseRecipe(p, policy);
      && c.claim == (if p.token.Some? then Some(OrderClaim(p.token.value)) else None)
      && c.fault == (if p.lines == [] then Some(Refused(NoLines)) else None)
      && forall values ::
           c.check(values) == Refuse(PurchaseObjection(p, policy, values)) &&
               c.write(values) == PurchaseWrites(p, values) &&
           PurchaseWrites(p, values).1 == Made(Placed(p.order))
  {
    hide ShelvesAfter, AccountsAfter, CouponRows, OrderMade;
  }

  lemma OrderShelfAfter(p: Purchase, shelf: nat, quantity: nat, policy: Stock.Policy, values: Values)
    requires OrderFor(p, shelf, quantity)
    ensures ShelfIn(After(PurchaseRecipe(p, policy), values, ShelfAt(shelf))).Available() ==
        ShelfOf(values, shelf).Available() - quantity
  {
    hide Stock.Moved, PurchaseRecipe, AccountsAfter, CouponRows, OrderMade, Stock.Touched, Stock.Asked, Tenders;
    OneLineIs(shelf, quantity);
    PurchaseAfter(p, policy, values, ShelfAt(shelf));
    Stock.MovedTotals(ShelvesOf(values, Stock.Touched(p.lines)), p.lines, StockKind(p.counter), !p.counter,
        Stock.ForOrder(p.order), shelf);
  }

  lemma OrderShelf(p: Purchase, shelf: nat, quantity: nat, policy: Stock.Policy, db: Database)
    requires OrderFor(p, shelf, quantity) && CanStart(p, db)
    requires PurchaseObjection(p, policy, Snapshot(Keys(PurchaseRecipe(p, policy)), db)).None?
    ensures ShelfNow(Effect(PurchaseRecipe(p, policy), db).0, shelf).Available() ==
        ShelfNow(db, shelf).Available() - quantity
  {
    hide Effect, Snapshot, Keys, Tenders, PurchaseRecipe, PurchaseObjection, After, HasAccounts, HasShelves,
         TenderObjection, PurchaseWrites;
    var c, values := PurchaseRecipe(p, policy), Snapshot(Keys(PurchaseRecipe(p, policy)), db);
    PurchaseShape(p, policy);
    PurchaseWellMade(p, policy);
    OneLineIs(shelf, quantity);
    OrderReads(p, shelf, quantity, policy, db);
    ShelfRead(p.lines, values, shelf);
    ReadAfter(c, db, ShelfAt(shelf));
    OrderShelfAfter(p, shelf, quantity, policy, values);
  }

  // ---- Exactly as many as there are ---------------------------------------------------

  function PurchaseRecipes(asked: seq<Purchase>, policy: Stock.Policy): (recipes: seq<ShopRecipe>)
    ensures |recipes| == |asked|
  {
    seq(|asked|, i requires 0 <= i < |asked| => PurchaseRecipe(asked[i], policy))
  }

  /** No two of the orders are the same order or share a key. */
  predicate Apart(asked: seq<Purchase>) {
    forall i, j :: 0 <= i < j < |asked| ==>
      asked[i].order != asked[j].order && (asked[i].token.Some? ==> asked[i].token != asked[j].token)
  }

  /** A row that is not there, and not an order's to make, stays so. */
  lemma NotItsRow(p: Purchase, policy: Stock.Policy, db: Database, k: Key)
    requires k !in db && (k.OrderAt? || k.OrderClaim?)
    requires k != OrderAt(p.order) && (p.token.Some? ==> k != OrderClaim(p.token.value))
    ensures k !in Effect(PurchaseRecipe(p, policy), db).0
  {
    hide PurchaseRecipe, PurchaseWrites, PurchaseObjection, CouponRows;
    PurchaseShape(p, policy);
    WrittenKinds(p, Snapshot(Keys(PurchaseRecipe(p, policy)), db), k);
  }

  /** One order leaves another as free to start as it was. */
  lemma LeavesOthers(p: Purchase, o: Purchase, policy: Stock.Policy, db: Database)
    requires CanStart(o, db) && p.order != o.order && (o.token.Some? ==> p.token != o.token)
    ensures CanStart(o, Effect(PurchaseRecipe(p, policy), db).0)
  {
    hide PurchaseRecipe, Effect, TakesMoney, Tenders;
    NotItsRow(p, policy, db, OrderAt(o.order));
    if o.token.Some? {
      NotItsRow(p, policy, db, OrderClaim(o.token.value));
    }
    var after := Effect(PurchaseRecipe(p, policy), db).0;
    forall i | 0 <= i < |Tenders(o)| ensures TakesMoney(after, Tenders(o)[i].account) {
      StillTakesMoney(p, policy, db, Tenders(o)[i].account);
    }
  }

  lemma {:induction false} BankedActive(accounts: map<nat, Money.Account>, tenders: seq<Tender>, order: nat, id: nat)
    requires id in accounts
    ensures Banked(accounts, tenders, order)[id].active == accounts[id].active
  {
    if tenders != [] {
      var first := tenders[0].account;
      if first !in accounts {
        BankedActive(accounts, tenders[1..], order, id);
      } else {
        BankedActive(accounts[first :=
            Money.Post(accounts[first], Money.SalePayment, tenders[0].amount, Money.OfSale(order))],
                     tenders[1..], order, id);
      }
    }
  }

  lemma StillTakesMoney(p: Purchase, policy: Stock.Policy, db: Database, account: nat)
    requires TakesMoney(db, account)
    ensures TakesMoney(Effect(PurchaseRecipe(p, policy), db).0, account)
  {
    hide PurchaseRecipe, ShelvesAfter, CouponRows, OrderMade, PurchaseObjection, Tenders, Banked, PurchaseWrites,
         Payees;
    var c, values := PurchaseRecipe(p, policy), Snapshot(Keys(PurchaseRecipe(p, policy)), db);
    PurchaseWellMade(p, policy);
    PurchaseShape(p, policy);
    if c.fault.None? && c.check(values).None? && (c.claim.Some? ==> c.claim.value !in db) {
      ReadAfter(c, db, AccountAt(account));
      PurchaseAfter(p, policy, values, AccountAt(account));
      if account in AccountsAfter(p, values) {
        BankedActive(AccountsOf(values, Payees(Tenders(p))), Tenders(p), p.order, account);
      }
    }
  }

  function UnitsOn(shelf: nat): Database -> int {
    (db: Database) => ShelfNow(db, shelf).Available()
  }

  function IsMade(): Answer -> bool {
    (a: Answer) => a.Made?
  }

  ghost function CanGo(asked: seq<Purchase>, policy: Stock.Policy): (nat, Database) -> bool {
    (p: nat, db: Database) => ShopOk(policy, db) && p < |asked| && CanStart(asked[p], db)
  }

  lemma OrderKeepsOk(p: Purchase, policy: Stock.Policy, db: Database)
    requires ShopOk(policy, db)
    ensures ShopOk(policy, Serial(ToRequest(PurchaseRecipe(p, policy)), db).0)
  {
    hide PurchaseRecipe, Effect, Serial, ShopOk;
    PurchaseSure(p, policy);
    RecipeSerial(PurchaseRecipe(p, policy), IsClaim, db);
  }

  lemma OrderInTurn(asked: seq<Purchase>, shelf: nat, quantity: nat, policy: Stock.Policy, p: nat, o: nat, db: Database)
    requires forall i :: 0 <= i < |asked| ==> OrderFor(asked[i], shelf, quantity)
    requires Apart(asked) && quantity > 0 && !policy.oversell
    requires forall i :: 0 <= i < |asked| ==> MindsHolds(policy, asked[i].counter)
    requires p < |asked| && o < |asked| && CanGo(asked, policy)(p, db)
    ensures var reqs := ToRequests(PurchaseRecipes(asked, policy));
      && Takes(reqs[p], db, quantity, UnitsOn(shelf), IsMade())
      && (CanGo(asked, policy)(o, db) && o != p ==> CanGo(asked, policy)(o, Serial(reqs[p], db).0))
  {
    hide PurchaseRecipe, OrderFor, CanStart, ShopOk, Effect, Serial, WellMade, ShelfNow;
    var c := PurchaseRecipe(asked[p], policy);
    PurchaseWellMade(asked[p], policy);
    RecipeSerial(c, IsClaim, db);
    OrderKeepsOk(asked[p], policy, db);
    OrderTakes(asked[p], shelf, quantity, policy, db);
    if CanGo(asked, policy)(o, db) && o != p {
      LeavesOthers(asked[p], asked[o], policy, db);
    }
  }

  /** Any number of orders, online or also at a counter kept off held stock, for so many each of one
      article: exactly as many are served as there are units for, and exactly the rest is left. */
  lemma OrdersShareOut(
      asked: seq<Purchase>, shelf: nat, quantity: nat, policy: Stock.Policy, db: Database, schedule: seq<nat>)
    requires forall i :: 0 <= i < |asked| ==> OrderFor(asked[i], shelf, quantity) && CanStart(asked[i], db)
    requires Apart(asked) && quantity > 0 && ShopOk(policy, db) && !policy.oversell
    requires forall i :: 0 <= i < |asked| ==> MindsHolds(policy, asked[i].counter)
    requires ShelfNow(db, shelf).Available() >= 0
    requires var reqs := ToRequests(PurchaseRecipes(asked, policy));
      Schedulable(reqs, Start(reqs, db), schedule) && AllDone(Outcome(reqs, db, schedule))
    ensures var s, left :=
        Outcome(ToRequests(PurchaseRecipes(asked, policy)), db, schedule), ShelfNow(db, shelf).Available();
      var served := if |asked| <= left / quantity then |asked| else left / quantity;
      && |Served(s, IsMade())| == served
      && ShelfNow(s.db, shelf).Available() == left - quantity * served
  {
    hide PurchaseRecipe, OrderFor, CanStart, ShopOk, Outcome, Served, Serial, Takes, Apart;
    var recipes, reqs := PurchaseRecipes(asked, policy), ToRequests(PurchaseRecipes(asked, policy));
    forall i | 0 <= i < |recipes| ensures WellMade(recipes[i], IsClaim) {
      PurchaseWellMade(asked[i], policy);
    }
    RecipesAreSound(recipes, IsClaim);
    forall p, d | 0 <= p < |reqs| && CanGo(asked, policy)(p, d)
      ensures Takes(reqs[p], d, quantity, UnitsOn(shelf), IsMade())
    {
      OrderInTurn(asked, shelf, quantity, policy, p, p, d);
    }
    forall p: nat, o: nat, d | p < |reqs| && o < |reqs| ensures LeftReady(reqs, CanGo(asked, policy), p, o, d) {
      if p != o && CanGo(asked, policy)(o, d) && CanGo(asked, policy)(p, d) {
        OrderInTurn(asked, shelf, quantity, policy, p, o, d);
      }
    }
    Allocation(reqs, IsClaim, db, schedule, quantity, UnitsOn(shelf), IsMade(), CanGo(asked, policy));
  }

  // ---- Write-offs of one shelf --------------------------------------------------------

  /** A write-off of so many, that only the shelf can refuse, under a key nobody has used. */
  predicate WriteOffFor(w: WriteOff, shelf: nat, quantity: nat) {
    w.shelf == shelf && w.quantity == quantity && WriteOffFault(w).None?
  }

  predicate KeyIsFree(w: WriteOff, db: Database) {
    w.token.Some? ==> StockClaim(w.token.value) !in db
  }

  function WriteOffRecipes(asked: seq<WriteOff>, policy: Stock.Policy): (recipes: seq<ShopRecipe>)
    ensures |recipes| == |asked|
  {
    seq(|asked|, i requires 0 <= i < |asked| => WriteOffRecipe(asked[i], policy))
  }

  lemma WriteOffTakes(w: WriteOff, shelf: nat, quantity: nat, policy: Stock.Policy, db: Database)
    requires WriteOffFor(w, shelf, quantity) && KeyIsFree(w, db) && !policy.oversell
    ensures var (after, answer), left := Effect(WriteOffRecipe(w, policy), db), ShelfNow(db, shelf).onHand;
      if left >= quantity then answer.Made? && ShelfNow(after, shelf).onHand == left - quantity
      else answer.Refused? && after == db
  {
    SnapshotHas(Keys(WriteOffRecipe(w, policy)), db, ShelfAt(shelf));
  }

  lemma WriteOffLeavesKeys(w: WriteOff, o: WriteOff, policy: Stock.Policy, db: Database)
    requires KeyIsFree(o, db) && (o.token.Some? ==> w.token != o.token)
    ensures KeyIsFree(o, Effect(WriteOffRecipe(w, policy), db).0)
  {
  }

  function OnHandOf(shelf: nat): Database -> int {
    (db: Database) => ShelfNow(db, shelf).onHand
  }

  function KeysFree(asked: seq<WriteOff>): (nat, Database) -> bool {
    (p: nat, db: Database) => p < |asked| && KeyIsFree(asked[p], db)
  }

  lemma WriteOffInTurn(asked: seq<WriteOff>, shelf: nat, quantity: nat, policy: Stock.Policy, p: nat, o: nat,
      db: Database)
    requires forall i :: 0 <= i < |asked| ==> WriteOffFor(asked[i], shelf, quantity)
    requires forall i, j :: 0 <= i < j < |asked| && asked[i].token.Some? ==> asked[i].token != asked[j].token
    requires !policy.oversell && p < |asked| && o < |asked| && KeysFree(asked)(p, db)
    ensures var reqs := ToRequests(WriteOffRecipes(asked, policy));
      && Takes(reqs[p], db, quantity, OnHandOf(shelf), IsMade())
      && (KeysFree(asked)(o, db) && o != p ==> KeysFree(asked)(o, Serial(reqs[p], db).0))
  {
    hide WriteOffRecipe, WriteOffFor, KeyIsFree, Effect, Serial;
    WriteOffWellMade(asked[p], policy);
    RecipeSerial(WriteOffRecipe(asked[p], policy), IsClaim, db);
    WriteOffTakes(asked[p], shelf, quantity, policy, db);
    if KeysFree(asked)(o, db) && o != p {
      WriteOffLeavesKeys(asked[p], asked[o], policy, db);
    }
  }

  /** The same of write-offs, which ask only what is on the shelf and not who holds it. */
  lemma WriteOffsShareOut(
      asked: seq<WriteOff>, shelf: nat, quantity: nat, policy: Stock.Policy, db: Database, schedule: seq<nat>)
    requires forall i :: 0 <= i < |asked| ==> WriteOffFor(asked[i], shelf, quantity) && KeyIsFree(asked[i], db)
    requires forall i, j :: 0 <= i < j < |asked| && asked[i].token.Some? ==> asked[i].token != asked[j].token
    requires quantity > 0 && !policy.oversell && ShelfNow(db, shelf).onHand >= 0
    requires var reqs := ToRequests(WriteOffRecipes(asked, policy));
      Schedulable(reqs, Start(reqs, db), schedule) && AllDone(Outcome(reqs, db, schedule))
    ensures var s, left :=
        Outcome(ToRequests(WriteOffRecipes(asked, policy)), db, schedule), ShelfNow(db, shelf).onHand;
      var served := if |asked| <= left / quantity then |asked| else left / quantity;
      && |Served(s, IsMade())| == served
      && ShelfNow(s.db, shelf).onHand == left - quantity * served
  {
    hide WriteOffRecipe, WriteOffFor, KeyIsFree, Outcome, Served, Serial, Takes;
    var recipes, reqs := WriteOffRecipes(asked, policy), ToRequests(WriteOffRecipes(asked, policy));
    forall i | 0 <= i < |recipes| ensures WellMade(recipes[i], IsClaim) {
      WriteOffWellMade(asked[i], policy);
    }
    RecipesAreSound(recipes, IsClaim);
    forall p, d | 0 <= p < |reqs| && KeysFree(asked)(p, d)
      ensures Takes(reqs[p], d, quantity, OnHandOf(shelf), IsMade())
    {
      WriteOffInTurn(asked, shelf, quantity, policy, p, p, d);
    }
    forall p: nat, o: nat, d | p < |reqs| && o < |reqs| ensures LeftReady(reqs, KeysFree(asked), p, o, d) {
      if p != o && KeysFree(asked)(o, d) && KeysFree(asked)(p, d) {
        WriteOffInTurn(asked, shelf, quantity, policy, p, o, d);
      }
    }
    Allocation(reqs, IsClaim, db, schedule, quantity, OnHandOf(shelf), IsMade(), KeysFree(asked));
  }

  // ---- Transfers lose nothing ---------------------------------------------------------

  /** The units on every shelf below `n`. */
  function Units(db: Database, n: nat): int {
    if n == 0 then 0 else Units(db, n - 1) + ShelfNow(db, n - 1).onHand
  }

  /** What lines ask of every shelf below `n`. */
  function AskedBelow(lines: seq<Stock.Line>, n: nat): nat {
    if n == 0 then 0 else AskedBelow(lines, n - 1) + Stock.Asked(lines, n - 1)
  }

  function Total(lines: seq<Stock.Line>): nat {
    if lines == [] then 0 else Total(lines[1..]) + lines[0].quantity
  }

  lemma {:induction false} AskedOneMore(lines: seq<Stock.Line>, n: nat)
    requires lines != []
    ensures AskedBelow(lines, n) == AskedBelow(lines[1..], n) + if lines[0].shelf < n then lines[0].quantity else 0
  {
    if n > 0 {
      AskedOneMore(lines, n - 1);
    }
  }

  lemma {:induction false} AskedInAll(lines: seq<Stock.Line>, n: nat)
    requires forall i :: 0 <= i < |lines| ==> lines[i].shelf < n
    ensures AskedBelow(lines, n) == Total(lines)
  {
    if lines == [] {
      NothingAsked(n);
    } else {
      assert forall i :: 0 <= i < |lines[1..]| ==> lines[1..][i] == lines[i + 1];
      AskedInAll(lines[1..], n);
      AskedOneMore(lines, n);
    }
  }

  lemma {:induction false} NothingAsked(n: nat)
    ensures AskedBelow([], n) == 0
  {
    if n > 0 {
      NothingAsked(n - 1);
    }
  }

  /** As much arrives as leaves. */
  lemma {:induction false} SameTotal(crates: seq<Crate>)
    ensures Total(Leaving(crates)) == Total(Arriving(crates))
  {
    if crates != [] {
      assert Leaving(crates)[1..] == Leaving(crates[1..]) && Arriving(crates)[1..] == Arriving(crates[1..]);
      SameTotal(crates[1..]);
    }
  }

  lemma {:induction false} UnitsMove(before: Database, after: Database, out: seq<Stock.Line>, back: seq<Stock.Line>,
      n: nat)
    requires forall id: nat ::
        ShelfNow(after, id).onHand == ShelfNow(before, id).onHand + Stock.Asked(back, id) - Stock.Asked(out, id)
    ensures Units(after, n) == Units(before, n) + AskedBelow(back, n) - AskedBelow(out, n)
  {
    if n > 0 {
      UnitsMove(before, after, out, back, n - 1);
    }
  }

  lemma ShipmentWent(t: Shipment, policy: Stock.Policy, db: Database)
    requires Effect(ShipmentRecipe(t, policy), db).0 != db
    ensures var c := ShipmentRecipe(t, policy);
      c.fault.None? && c.check(Snapshot(Keys(c), db)).None? && (c.claim.Some? ==> c.claim.value !in db)
  {
    hide ShipmentRecipe;
  }

  lemma ShipmentShelfAfter(t: Shipment, policy: Stock.Policy, values: Values, id: nat)
    ensures var crates := StockRoom.Packed(t.crates);
      ShelfIn(After(ShipmentRecipe(t, policy), values, ShelfAt(id))).onHand ==
      ShelfOf(values, id).onHand + Stock.Asked(Arriving(crates), id) - Stock.Asked(Leaving(crates), id)
  {
    hide ShipmentWrites, StockRoom.Packed, StockRoom.Involved, ShippedRow, Leaving, Arriving, ShipmentObjection;
    ShipmentWritten(t, values);
    if id in StockRoom.Involved(StockRoom.Packed(t.crates)) {
      ShipmentMoves(t, policy, values, id);
    } else {
      NotInvolved(StockRoom.Packed(t.crates), id);
    }
  }

  lemma ShipmentShelf(t: Shipment, policy: Stock.Policy, db: Database, id: nat)
    requires Effect(ShipmentRecipe(t, policy), db).0 != db
    ensures var crates := StockRoom.Packed(t.crates);
      ShelfNow(Effect(ShipmentRecipe(t, policy), db).0, id).onHand ==
      ShelfNow(db, id).onHand + Stock.Asked(Arriving(crates), id) - Stock.Asked(Leaving(crates), id)
  {
    hide ShipmentRecipe, StockRoom.Packed, Leaving, Arriving, Effect, After, Stock.Asked, StockRoom.Involved;
    var c := ShipmentRecipe(t, policy);
    var values := Snapshot(Keys(c), db);
    ShipmentWent(t, policy, db);
    ShipmentWellMade(t, policy);
    ReadAfter(c, db, ShelfAt(id));
    ShipmentShelfAfter(t, policy, values, id);
    if ShelfAt(id) !in values {
      if id in StockRoom.Involved(StockRoom.Packed(t.crates)) {
        InvolvedIsLocked(t, policy, id);
      } else {
        NotInvolved(StockRoom.Packed(t.crates), id);
      }
    }
  }

  lemma {:induction false} NotInvolved(crates: seq<Crate>, id: nat)
    requires id !in StockRoom.Involved(crates)
    ensures Stock.Asked(Arriving(crates), id) == Stock.Asked(Leaving(crates), id) == 0
  {
    if crates != [] {
      assert Leaving(crates)[1..] == Leaving(crates[1..]) && Arriving(crates)[1..] == Arriving(crates[1..]);
      NotInvolved(crates[1..], id);
    }
  }

  lemma {:induction false} PackedBelow(crates: seq<Crate>, n: nat)
    requires forall i :: 0 <= i < |crates| ==> crates[i].source < n && crates[i].target < n
    ensures forall i :: 0 <= i < |StockRoom.Packed(crates)| ==>
        StockRoom.Packed(crates)[i].source < n && StockRoom.Packed(crates)[i].target < n
  {
    if crates != [] {
      assert forall i :: 0 <= i < |crates[1..]| ==> crates[1..][i] == crates[i + 1];
      PackedBelow(crates[1..], n);
    }
  }

  lemma ShipmentKeepsUnits(t: Shipment, policy: Stock.Policy, db: Database, n: nat)
    requires forall i :: 0 <= i < |t.crates| ==> t.crates[i].source < n && t.crates[i].target < n
    ensures Units(Effect(ShipmentRecipe(t, policy), db).0, n) == Units(db, n)
  {
    hide ShipmentRecipe, Effect;
    var crates, after := StockRoom.Packed(t.crates), Effect(ShipmentRecipe(t, policy), db).0;
    if after != db {
      forall id: nat ensures ShelfNow(after, id).onHand ==
          ShelfNow(db, id).onHand + Stock.Asked(Arriving(crates), id) - Stock.Asked(Leaving(crates), id) {
        ShipmentShelf(t, policy, db, id);
      }
      UnitsMove(db, after, Leaving(crates), Arriving(crates), n);
      PackedBelow(t.crates, n);
      AskedInAll(Leaving(crates), n);
      AskedInAll(Arriving(crates), n);
      SameTotal(crates);
    }
  }

  function ShipmentRecipes(asked: seq<Shipment>, policy: Stock.Policy): (recipes: seq<ShopRecipe>)
    ensures |recipes| == |asked|
  {
    seq(|asked|, i requires 0 <= i < |asked| => ShipmentRecipe(asked[i], policy))
  }

  /** Any set of transfers between branches, oversold or not, in any interleaving: no unit is lost
      and none is made. */
  lemma ShipmentsConserve(asked: seq<Shipment>, policy: Stock.Policy, n: nat, db: Database, schedule: seq<nat>)
    requires forall j :: 0 <= j < |asked| ==>
               forall i :: 0 <= i < |asked[j].crates| ==> asked[j].crates[i].source < n && asked[j].crates[i].target < n
    requires var reqs := ToRequests(ShipmentRecipes(asked, policy)); Schedulable(reqs, Start(reqs, db), schedule)
    ensures Units(Outcome(ToRequests(ShipmentRecipes(asked, policy)), db, schedule).db, n) == Units(db, n)
  {
    hide ShipmentRecipe, Effect, Serial, Units;
    var recipes, reqs := ShipmentRecipes(asked, policy), ToRequests(ShipmentRecipes(asked, policy));
    forall i | 0 <= i < |recipes| ensures WellMade(recipes[i], IsClaim) {
      ShipmentWellMade(asked[i], policy);
    }
    RecipesAreSound(recipes, IsClaim);
    forall p, d: Database | 0 <= p < |reqs| ensures Units(Serial(reqs[p], d).0, n) == Units(d, n) {
      RecipeSerial(recipes[p], IsClaim, d);
      ShipmentKeepsUnits(asked[p], policy, d, n);
    }
    AlwaysKept(reqs, IsClaim, db, schedule, d => Units(d, n) == Units(db, n));
  }
}
