/** One key, pressed many times: each press is a request of its own, with ids of its own for what it
    would make, and what the first of them makes is made for all. */
module PressRuns {
  import opened Wrappers
  import opened RowLocks
  import opened LockOrder
  import opened Recipes
  import opened Runs
  import opened Shop
  import opened Tallies
  import opened CashBook
  import opened StockRoom
  import opened Orders
  import opened Exchanges
  import opened ShopRuns
  import opened Backend
  import opened CashService
  import opened StockService
  import opened OrderService
  import opened ExchangeService
  import Stock = StockLedger
  import Money = MoneyLedger
  import Coupons = CouponBook

  // ---- A coupon does not ask for an order it has not heard of -----------------------------

  lemma {:induction false} ElsewhereIsAll(redemptions: seq<Coupons.Redemption>, customer: nat, order: nat)
    requires !Coupons.Names(redemptions, order)
    ensures Coupons.LiveElsewhere(redemptions, customer, order) == Coupons.LiveFor(redemptions, customer)
  {
    if redemptions != [] {
      var before := redemptions[..|redemptions| - 1];
      assert forall i :: 0 <= i < |before| ==> before[i] == redemptions[i];
      ElsewhereIsAll(before, customer, order);
    }
  }

  lemma SameVerdict(db: Database, coupon: nat, a: nat, b: nat, customer: Option<nat>)
    requires Tally(db) && OrderAt(a) !in db && OrderAt(b) !in db
    ensures CouponVerdict(CouponNow(db, coupon), a, customer) == CouponVerdict(CouponNow(db, coupon), b, customer)
  {
    hide Tally, Coupons.LiveElsewhere, Coupons.LiveFor, Coupons.Names;
    AbsentLeavesNoTrace(db, a);
    AbsentLeavesNoTrace(db, b);
    var held := CouponNow(db, coupon);
    if held.Some? {
      assert held.value.redemptions == RedemptionsIn(Read(db, CouponAt(coupon)));
      if customer.Some? {
        ElsewhereIsAll(held.value.redemptions, customer.value, a);
        ElsewhereIsAll(held.value.redemptions, customer.value, b);
      }
    }
  }

  // ---- A checkout ---------------------------------------------------------------------------

  /** The same checkout under the same key, each press with a new order's id of its own. */
  predicate Clicks(presses: seq<Purchase>, db: Database) {
    && (forall i :: 0 <= i < |presses| ==>
          && presses[i].token.Some? && OrderAt(presses[i].order) !in db
          && presses[i] == presses[0].(order := presses[i].order))
    && forall i, j :: 0 <= i < j < |presses| ==> presses[i].order != presses[j].order
  }

  function PurchaseRecipes(presses: seq<Purchase>, policy: Stock.Policy): (recipes: seq<ShopRecipe>)
    ensures |recipes| == |presses|
  {
    seq(|presses|, i requires 0 <= i < |presses| => PurchaseRecipe(presses[i], policy))
  }

  lemma ClickStops(p: Purchase, policy: Stock.Policy, db: Database)
    ensures Stops(PurchaseRecipe(p, policy), db) ==
            if p.lines == [] then Some(Refused(NoLines)) else Refuse(PurchaseStops(p, policy, db))
  {
    hide PurchaseStops, Snapshot, Keys, PurchaseObjection;
    PurchaseStopsAsRead(p, policy, db);
  }

  lemma SameClickStops(p: Purchase, q: Purchase, policy: Stock.Policy, db: Database)
    requires Tally(db) && q == p.(order := q.order) && OrderAt(p.order) !in db && OrderAt(q.order) !in db
    ensures PurchaseStops(p, policy, db) == PurchaseStops(q, policy, db)
  {
    hide Tally, HeldShelves, CouponNow, TenderRefused, CouponVerdict, Stock.Touched, TenderSum;
    if p.coupon.Some? {
      SameVerdict(db, p.coupon.value, p.order, q.order, p.customer);
    }
  }

  lemma ClicksArePresses(presses: seq<Purchase>, policy: Stock.Policy, db: Database)
    requires Clicks(presses, db) && Tally(db)
    ensures Presses(PurchaseRecipes(presses, policy), IsClaim, db)
  {
    hide PurchaseRecipe, Tally, Stops, WellMade, Retells, PurchaseStops;
    var recipes := PurchaseRecipes(presses, policy);
    forall i | 0 <= i < |recipes| ensures WellMade(recipes[i], IsClaim) && Retells(recipes[i]) && recipes[i].first {
      PurchaseWellMade(presses[i], policy);
      PurchaseRetells(presses[i], policy);
      ClickIsKeyed(presses[i], policy);
    }
    forall i, j | 0 <= i < |recipes| && 0 <= j < |recipes|
      ensures recipes[i].claim.Some? && recipes[i].claim == recipes[j].claim
      ensures recipes[i].replay == recipes[j].replay && Stops(recipes[i], db) == Stops(recipes[j], db)
    {
      ClickIsKeyed(presses[i], policy);
      ClickIsKeyed(presses[j], policy);
      ClickStops(presses[i], policy, db);
      ClickStops(presses[j], policy, db);
      SameClickStops(presses[i], presses[j], policy, db);
    }
  }

  lemma PurchaseRetells(p: Purchase, policy: Stock.Policy)
    ensures Retells(PurchaseRecipe(p, policy))
  {
    hide PurchaseWrites;
    MadeAnswer(p);
  }

  lemma MadeAnswer(p: Purchase)
    ensures forall values :: PurchaseWrites(p, values).1 == Made(Placed(p.order))
  {
  }

  lemma ClickIsKeyed(p: Purchase, policy: Stock.Policy)
    ensures var c := PurchaseRecipe(p, policy);
      && c.claim == (if p.token.Some? then Some(OrderClaim(p.token.value)) else None)
      && c.first && c.replay == Retold
  {
  }

  lemma OrderStaysAway(p: Purchase, policy: Stock.Policy, db: Database, order: nat)
    requires order != p.order && OrderAt(order) !in db
    ensures OrderAt(order) !in Effect(PurchaseRecipe(p, policy), db).0
  {
    hide PurchaseRecipe, Effect, WellMade;
    PurchaseWellMade(p, policy);
    NotItsOrder(p, policy, order);
    LeavesRow(PurchaseRecipe(p, policy), db, OrderAt(order));
  }

  lemma NotItsOrder(p: Purchase, policy: Stock.Policy, order: nat)
    requires order != p.order
    ensures OrderAt(order) !in Keys(PurchaseRecipe(p, policy))
  {
    hide Stock.Ids, Tenders;
  }

  /** A checkout pressed any number of times at once, each press with an order id of its own: what the
      first to finish does is all that is done, every press is told of it, and of the ids only its own
      is ever an order's. Refused, it is refused to all and nothing is changed. */
  lemma DoubleClick(presses: seq<Purchase>, policy: Stock.Policy, db: Database, schedule: seq<nat>) returns (w: nat)
    requires presses != [] && Clicks(presses, db) && Tally(db)
    requires var reqs := ToRequests(PurchaseRecipes(presses, policy));
      Schedulable(reqs, Start(reqs, db), schedule) && AllDone(Outcome(reqs, db, schedule))
    ensures w < |presses|
    ensures var s := Outcome(ToRequests(PurchaseRecipes(presses, policy)), db, schedule);
      var once := Effect(PurchaseRecipe(presses[w], policy), db);
      && s.db == once.0 && |s.workers| == |presses|
      && (forall i :: 0 <= i < |presses| ==> s.workers[i].answer == Some(once.1))
      && (forall i :: 0 <= i < |presses| && i != w ==> OrderAt(presses[i].order) !in s.db)
      && (once.1.Refused? ==> s.db == db)
      && (OrderAt(presses[w].order) in s.db <==> once.1 == Made(Placed(presses[w].order)) && s.db != db)
  {
    hide PurchaseRecipe, Effect, Serial, ToRequest, Tally, WellMade, Presses, Outcome;
    var recipes := PurchaseRecipes(presses, policy);
    ClicksArePresses(presses, policy, db);
    PressesDoForAll(recipes, IsClaim, db);
    PressesAreSound(recipes, db);
    w := OneDoesForAll(ToRequests(recipes), IsClaim, db, schedule);
    PurchaseWellMade(presses[w], policy);
    RecipeSerial(recipes[w], IsClaim, db);
    ClickEnds(presses[w], policy, db);
    forall i | 0 <= i < |presses| && i != w
      ensures OrderAt(presses[i].order) !in Effect(PurchaseRecipe(presses[w], policy), db).0
    {
      OrderStaysAway(presses[w], policy, db, presses[i].order);
    }
  }

  lemma PressesAreSound(recipes: seq<ShopRecipe>, db: Database)
    requires Presses(recipes, IsClaim, db)
    ensures AllSound(ToRequests(recipes), IsClaim)
  {
    RecipesAreSound(recipes, IsClaim);
  }

  lemma ClickEnds(p: Purchase, policy: Stock.Policy, db: Database)
    requires OrderAt(p.order) !in db
    ensures var (after, answer) := Effect(PurchaseRecipe(p, policy), db);
      && (answer.Refused? ==> after == db)
      && (OrderAt(p.order) in after <==> answer == Made(Placed(p.order)) && after != db)
  {
    hide PurchaseObjection, ShelvesAfter, AccountsAfter, CouponRows, OrderMade, Snapshot, Keys, ShelfRows, AccountRows;
  }

  // ---- An exchange --------------------------------------------------------------------------

  /** The same exchange, with a sale and a return of its own. */
  predicate SameExchange(x: Exchange, y: Exchange) {
    y == x.(sale := x.sale.(order := y.sale.order), returned := y.returned)
  }

  predicate NewIds(x: Exchange, db: Database) {
    OrderAt(x.sale.order) !in db && ReturnAt(x.returned) !in db
  }

  predicate ExchangePresses(presses: seq<Exchange>, db: Database) {
    && (forall i :: 0 <= i < |presses| ==> SameExchange(presses[0], presses[i]) && NewIds(presses[i], db))
    && forall i, j :: 0 <= i < j < |presses| ==>
         presses[i].sale.order != presses[j].sale.order && presses[i].returned != presses[j].returned
  }

  /** The same figures, whatever they were posted or moved for. */
  predicate SameShelf(a: Stock.Shelf, b: Stock.Shelf) {
    a.onHand == b.onHand && a.reserved == b.reserved
  }

  predicate SameMoney(a: Money.Account, b: Money.Account) {
    a.balance == b.balance && a.active == b.active && a.overdraft == b.overdraft
  }

  lemma PutBackAlike(x: Exchange, y: Exchange, policy: Stock.Policy, db: Database, id: nat)
    requires SameExchange(x, y) && id in Stock.Touched(InvolvedLines(x))
    ensures InvolvedLines(y) == InvolvedLines(x)
    ensures SameShelf(PutBack(x, Reading(x, policy, db))[id], PutBack(y, Reading(y, policy, db))[id])
  {
    hide Reading, Stock.Touched, Stock.Asked, Stock.Moved, Restocked;
    ReadsShelves(x, policy, db);
    ReadsShelves(y, policy, db);
    RestockedIsInvolved(x);
    RestockedIsInvolved(y);
    var rows, goods := Shelves(x, Reading(x, policy, db)), Restocked(x.lines, Decided(x.back));
    Stock.MovedTotals(rows, goods, Stock.Return, true, Stock.ForReturn(x.returned), id);
    Stock.MovedTotals(rows, goods, Stock.Return, true, Stock.ForReturn(y.returned), id);
  }

  lemma SaleAlike(x: Exchange, y: Exchange, policy: Stock.Policy, db: Database)
    requires SameExchange(x, y)
    ensures SaleObjection(x, policy, Reading(x, policy, db)) == SaleObjection(y, policy, Reading(y, policy, db))
  {
    hide Reading, Stock.Touched, Stock.Asked, PutBack, SaleObjection, InvolvedLines;
    SellsAsRead(x, policy, Reading(x, policy, db));
    SellsAsRead(y, policy, Reading(y, policy, db));
    SoldIsInvolved(x);
    forall id | id in Stock.Touched(x.sale.lines)
      ensures SameShelf(PutBack(x, Reading(x, policy, db))[id], PutBack(y, Reading(y, policy, db))[id])
    {
      PutBackAlike(x, y, policy, db, id);
    }
  }

  lemma {:induction false} BankedAlike(
      a: map<nat, Money.Account>, b: map<nat, Money.Account>, tenders: seq<Tender>, first: nat, second: nat)
    requires a.Keys == b.Keys && forall id :: id in a ==> SameMoney(a[id], b[id])
    ensures forall id :: id in a ==> SameMoney(Banked(a, tenders, first)[id], Banked(b, tenders, second)[id])
  {
    if tenders != [] {
      var id := tenders[0].account;
      if id !in a {
        BankedAlike(a, b, tenders[1..], first, second);
      } else {
        BankedAlike(
          a[id := Money.Post(a[id], Money.SalePayment, tenders[0].amount, Money.OfSale(first))],
          b[id := Money.Post(b[id], Money.SalePayment, tenders[0].amount, Money.OfSale(second))],
          tenders[1..], first, second);
      }
    }
  }

  lemma RefundAlike(x: Exchange, y: Exchange, worth: nat, policy: Stock.Policy, db: Database)
    requires SameExchange(x, y)
    ensures Tenders(SaleOf(x, worth)) == Tenders(SaleOf(y, worth))
    ensures RefundObjection(x, worth, Reading(x, policy, db)) == RefundObjection(y, worth, Reading(y, policy, db))
  {
    hide Reading, Banked, PaidIn, Counted, HeldAccounts, Payees;
    var tenders := Tenders(SaleOf(x, worth));
    PaidAsRead(x, policy, worth, db, tenders);
    PaidAsRead(y, policy, worth, db, tenders);
    var held := HeldAccounts(db, Tills(x, worth));
    BankedAlike(held, held, tenders, x.sale.order, y.sale.order);
  }

  lemma SellStopsAlike(x: Exchange, y: Exchange, worth: nat, policy: Stock.Policy, db: Database)
    requires SameExchange(x, y) && NewIds(x, db) && NewIds(y, db) && Tally(db)
    ensures SellStops(x, policy, worth, Reading(x, policy, db), db) ==
        SellStops(y, policy, worth, Reading(y, policy, db), db)
  {
    hide Reading, SaleObjection, RefundObjection, Tenders, TenderSum, TenderRefused, CouponNow, CouponVerdict, Tally;
    SaleAlike(x, y, policy, db);
    RefundAlike(x, y, worth, policy, db);
    if x.sale.coupon.Some? {
      SameVerdict(db, x.sale.coupon.value, x.sale.order, y.sale.order, x.sale.customer);
    }
  }

  lemma ExchangeEndsAlike(x: Exchange, y: Exchange, policy: Stock.Policy, db: Database)
    requires SameExchange(x, y) && NewIds(x, db) && NewIds(y, db) && Tally(db)
    ensures Ends(ExchangeRecipe(x, policy), db) == Ends(ExchangeRecipe(y, policy), db)
  {
    hide Reading, SellStops, ExchangeRecipe, Ends, CountedBack, ReturnObjection, Tally;
    ExchangeStopsAsRead(x, policy, db);
    ExchangeStopsAsRead(y, policy, db);
    if o :| OrderIn(Read(db, OrderAt(x.original))) == Some(o) {
      SellStopsAlike(x, y, Worth(x, o), policy, db);
      WorthAlike(x, y, o);
    }
  }

  lemma WorthAlike(x: Exchange, y: Exchange, o: Order)
    requires SameExchange(x, y)
    ensures Worth(x, o) == Worth(y, o) && ReturnObjection(x, o) == ReturnObjection(y, o)
  {
  }

  /** What is left by an exchange that goes through, as far as another press of it asks. */
  lemma ExchangeLeft(x: Exchange, policy: Stock.Policy, db: Database)
    requires Ends(ExchangeRecipe(x, policy), db).None?
    ensures var (after, answer) := Effect(ExchangeRecipe(x, policy), db);
      && answer == Made(Exchanged(x.sale.order, x.returned))
      && ExchangeAt(x.token) in after && Retold(after[ExchangeAt(x.token)]) == answer
      && OrderAt(x.sale.order) in after && ReturnAt(x.returned) in after
  {
    hide ExchangeEnds, Snapshot, ExchangeKeys, GoneOut, PaidOut, CouponRows, SaleMade, ReturnedOrder, ShelfRows,
         AccountRows;
    var c := ExchangeRecipe(x, policy);
    var values := Snapshot(Keys(c), db);
    AllRead(c, db);
    ExchangeIsRecorded(x, policy, values);
    RowsAreRead(x, policy, values);
  }

  lemma AllRead(c: ShopRecipe, db: Database)
    ensures HasRead(c, Snapshot(Keys(c), db))
  {
  }

  lemma PressAfterPress(x: Exchange, y: Exchange, policy: Stock.Policy, db: Database)
    requires SameExchange(x, y) && NewIds(x, db) && NewIds(y, db) && Tally(db)
    ensures Effect(ExchangeRecipe(y, policy), Effect(ExchangeRecipe(x, policy), db).0) ==
        Effect(ExchangeRecipe(x, policy), db)
  {
    hide ExchangeRecipe, Effect, Ends, Tally, Leaves, SellStops, Reading;
    ExchangeEndsAlike(x, y, policy, db);
    DoesEither(ExchangeRecipe(x, policy), db);
    DoesEither(ExchangeRecipe(y, policy), db);
    if Ends(ExchangeRecipe(x, policy), db).None? {
      var after := Effect(ExchangeRecipe(x, policy), db).0;
      ExchangeLeft(x, policy, db);
      ExchangeStopsAsRead(y, policy, after);
      DoesEither(ExchangeRecipe(y, policy), after);
    }
  }

  function ExchangeRecipes(presses: seq<Exchange>, policy: Stock.Policy): (recipes: seq<ShopRecipe>)
    ensures |recipes| == |presses|
  {
    seq(|presses|, i requires 0 <= i < |presses| => ExchangeRecipe(presses[i], policy))
  }

  lemma ExchangesDoForAll(presses: seq<Exchange>, policy: Stock.Policy, db: Database)
    requires ExchangePresses(presses, db) && Tally(db)
    ensures AnyDoesForAll(ToRequests(ExchangeRecipes(presses, policy)), db)
    ensures AllSound(ToRequests(ExchangeRecipes(presses, policy)), IsClaim)
  {
    hide ExchangeRecipe, Serial, ToRequest, WellMade, Effect, Tally, NewIds;
    var recipes := ExchangeRecipes(presses, policy);
    forall i | 0 <= i < |recipes| ensures WellMade(recipes[i], IsClaim) {
      ExchangeWellMade(presses[i], policy);
    }
    RecipesAreSound(recipes, IsClaim);
    forall i, j | 0 <= i < |recipes| && 0 <= j < |recipes| && i != j
      ensures Serial(ToRequest(recipes[j]), Serial(ToRequest(recipes[i]), db).0) == Serial(ToRequest(recipes[i]), db)
    {
      RecipeSerial(recipes[i], IsClaim, db);
      RecipeSerial(recipes[j], IsClaim, Effect(recipes[i], db).0);
      PressAfterPress(presses[i], presses[j], policy, db);
    }
  }

  lemma IdsStayAway(x: Exchange, y: Exchange, policy: Stock.Policy, db: Database)
    requires NewIds(y, db) && x.sale.order != y.sale.order && x.returned != y.returned
    requires OrderAt(x.original) in db || Ends(ExchangeRecipe(x, policy), db).Some?
    ensures NewIds(y, Effect(ExchangeRecipe(x, policy), db).0)
  {
    hide ExchangeRecipe, Effect, WellMade, Ends;
    DoesEither(ExchangeRecipe(x, policy), db);
    if y.sale.order != x.original {
      ExchangeWellMade(x, policy);
      NotItsIds(x, y, policy);
      LeavesRow(ExchangeRecipe(x, policy), db, OrderAt(y.sale.order));
      LeavesRow(ExchangeRecipe(x, policy), db, ReturnAt(y.returned));
    }
  }

  lemma NotItsIds(x: Exchange, y: Exchange, policy: Stock.Policy)
    requires x.sale.order != y.sale.order && x.returned != y.returned && y.sale.order != x.original
    ensures OrderAt(y.sale.order) !in Keys(ExchangeRecipe(x, policy))
    ensures ReturnAt(y.returned) !in Keys(ExchangeRecipe(x, policy))
  {
    hide InvolvedLines, Counted, Stock.Ids, ExchangeEnds, ExchangeWrites, KeysAfterShelves, CouponKeys, TenderKeys;
    assert Keys(ExchangeRecipe(x, policy)) == ExchangeKeys(x);
    NotAfterShelves(x, y);
    InShelfKeys(Stock.Ids(InvolvedLines(x)), OrderAt(y.sale.order));
    InShelfKeys(Stock.Ids(InvolvedLines(x)), ReturnAt(y.returned));
  }

  lemma NotAfterShelves(x: Exchange, y: Exchange)
    requires x.sale.order != y.sale.order && x.returned != y.returned && y.sale.order != x.original
    ensures OrderAt(y.sale.order) !in KeysAfterShelves(x) && ReturnAt(y.returned) !in KeysAfterShelves(x)
  {
    hide Counted;
  }

  lemma NoOriginalNoExchange(x: Exchange, policy: Stock.Policy, db: Database)
    requires OrderAt(x.original) !in db
    ensures Ends(ExchangeRecipe(x, policy), db).Some?
  {
    hide SellStops, Reading;
    ExchangeStopsAsRead(x, policy, db);
  }

  /** An exchange pressed any number of times at once, each press with ids of its own for the sale and
      the return: what the first to finish does is all that is done, every press is told of that sale
      and that return, and of the ids only its own are ever used. Refused, it is refused to all. */
  lemma PressedTogether(presses: seq<Exchange>, policy: Stock.Policy, db: Database, schedule: seq<nat>) returns (w: nat)
    requires presses != [] && ExchangePresses(presses, db) && Tally(db)
    requires var reqs := ToRequests(ExchangeRecipes(presses, policy));
      Schedulable(reqs, Start(reqs, db), schedule) && AllDone(Outcome(reqs, db, schedule))
    ensures w < |presses|
    ensures var s := Outcome(ToRequests(ExchangeRecipes(presses, policy)), db, schedule);
      var once := Effect(ExchangeRecipe(presses[w], policy), db);
      && s.db == once.0 && |s.workers| == |presses|
      && (forall i :: 0 <= i < |presses| ==> s.workers[i].answer == Some(once.1))
      && (forall i :: 0 <= i < |presses| && i != w ==> NewIds(presses[i], s.db))
      && if Ends(ExchangeRecipe(presses[w], policy), db).Some? then s.db == db
         else
           && once.1 == Made(Exchanged(presses[w].sale.order, presses[w].returned))
           && OrderAt(presses[w].sale.order) in s.db && ReturnAt(presses[w].returned) in s.db
  {
    hide ExchangeRecipe, Serial, ToRequest, WellMade, Effect, Tally, NewIds, Outcome, Ends, Leaves;
    ExchangesDoForAll(presses, policy, db);
    w := OneDoesForAll(ToRequests(ExchangeRecipes(presses, policy)), IsClaim, db, schedule);
    var x := presses[w];
    ExchangeWellMade(x, policy);
    RecipeSerial(ExchangeRecipe(x, policy), IsClaim, db);
    DoesEither(ExchangeRecipe(x, policy), db);
    if Ends(ExchangeRecipe(x, policy), db).None? {
      ExchangeLeft(x, policy, db);
    }
    if OrderAt(x.original) !in db {
      NoOriginalNoExchange(x, policy, db);
    }
    forall i | 0 <= i < |presses| && i != w ensures NewIds(presses[i], Effect(ExchangeRecipe(x, policy), db).0) {
      IdsStayAway(x, presses[i], policy, db);
    }
  }
}
