/** The whole shop over whole runs: any number of requests of any kind, in any interleaving. */
module ShopRuns {
  import opened Wrappers
  import opened RowLocks
  import opened LockOrder
  import opened Recipes
  import opened Runs
  import opened Shop
  import opened Tallies
  import opened CashBook
  import opened StockRoom
  import opened Orders
  import opened Fulfilment
  import opened Webhooks
  import opened SupplierReturns
  import opened Exchanges
  import Counts = StockCounts
  import Stock = StockLedger
  import Ledger = MoneyLedger
  import Coupons = CouponBook

  datatype ShopRequest =
    | Cash(cash: CashRequest) | Goods(goods: StockRequest) | Buy(purchase: Purchase) | Progress(advance: Advance)
    | Hear(heard: Event) | SendBack(sending: Sending) | Swap(exchange: Exchange)
    | CountIn(applying: Counts.Applying)

  function RecipeOf(q: ShopRequest, policy: Stock.Policy): ShopRecipe {
    match q
    case Cash(c) => CashRecipe(c)
    case Goods(g) => StockRecipe(g, policy)
    case Buy(p) => PurchaseRecipe(p, policy)
    case Progress(a) => AdvanceRecipe(a, policy)
    case Hear(e) => EventRecipe(e)
    case SendBack(s) => SendingRecipe(s)
    case Swap(x) => ExchangeRecipe(x, policy)
    case CountIn(a) => Counts.CountRecipe(a)
  }

  function RecipesOf(asked: seq<ShopRequest>, policy: Stock.Policy): (recipes: seq<ShopRecipe>)
    ensures |recipes| == |asked|
  {
    seq(|asked|, i requires 0 <= i < |asked| => RecipeOf(asked[i], policy))
  }

  /** No transfer of stock that would oversell some sound shop: see ShipmentKeepsExactlyWhen. */
  predicate Acceptable(q: ShopRequest, policy: Stock.Policy) {
    q.Goods? && q.goods.AShipment? ==> NeverOversells(q.goods.shipment, policy)
  }

  lemma RequestSure(q: ShopRequest, policy: Stock.Policy)
    requires Acceptable(q, policy)
    ensures Sure(policy, RecipeOf(q, policy))
  {
    match q
    case Cash(c) => CashSure(c, policy);
    case Goods(g) => StockSure(g, policy);
    case Buy(p) => PurchaseSure(p, policy);
    case Progress(a) => AdvanceSure(a, policy);
    case Hear(e) => EventSure(e, policy);
    case SendBack(s) => SendingSure(s, policy);
    case Swap(x) => ExchangeSure(x, policy);
    case CountIn(a) => Counts.CountSure(a, policy);
  }

  /** The main theorem. Whatever runs beside whatever, in every committed state: stock and money
      agree with their ledgers entry by entry; nothing goes below nothing; every coupon is within
      its limits; no document is returned, credited or paid past what it was for; and every
      ledger holds, for every document, exactly what the document says. */
  lemma EveryCommittedStateIsSound(asked: seq<ShopRequest>, policy: Stock.Policy, db: Database, schedule: seq<nat>)
    requires forall i :: 0 <= i < |asked| ==> Acceptable(asked[i], policy)
    requires ShopOk(policy, db) && Tally(db)
    requires var reqs := ToRequests(RecipesOf(asked, policy)); Schedulable(reqs, Start(reqs, db), schedule)
    ensures var after := Outcome(ToRequests(RecipesOf(asked, policy)), db, schedule).db;
      ShopOk(policy, after) && Tally(after)
  {
    hide RecipeOf, ShopOk, Tally;
    forall i | 0 <= i < |asked| ensures Sure(policy, RecipesOf(asked, policy)[i]) {
      RequestSure(asked[i], policy);
    }
    AlwaysTallies(policy, RecipesOf(asked, policy), db, schedule);
  }

  // ---- What that says of an order that is not there ---------------------------------------

  /** No entry, no hold, no use of a coupon and no money is in any ledger for the order. */
  ghost predicate NoTrace(db: Database, order: nat) {
    && (forall shelf: nat :: !Mentions(ShelfIn(Read(db, ShelfAt(shelf))).ledger, order))
    && (forall coupon: nat :: !Coupons.Names(RedemptionsIn(Read(db, CouponAt(coupon))), order))
    && (forall account: nat :: Ledger.CountFor(PostingsIn(Read(db, AccountAt(account))), Ledger.OfSale(order)) == 0)
  }

  lemma AbsentLeavesNoTrace(db: Database, order: nat)
    requires Tally(db) && OrderAt(order) !in db
    ensures NoTrace(db, order)
  {
    hide HeldBy, Hold, Ledger.CountFor, Ledger.SumFor, Mentions, SoldFor, Coupons.LiveOf, Coupons.Names;
    forall shelf: nat ensures !Mentions(ShelfIn(Read(db, ShelfAt(shelf))).ledger, order) {
      assert HoldTallies(ShelfIn(Read(db, ShelfAt(shelf))).ledger, order, Read(db, OrderAt(order)), shelf);
    }
    forall coupon: nat ensures !Coupons.Names(RedemptionsIn(Read(db, CouponAt(coupon))), order) {
      assert UseTallies(RedemptionsIn(Read(db, CouponAt(coupon))), order, Read(db, OrderAt(order)), coupon);
    }
    forall account: nat ensures Ledger.CountFor(PostingsIn(Read(db, AccountAt(account))), Ledger.OfSale(order)) == 0 {
      assert Documented(Ledger.OfSale(order)) &&
        Booked(Read(db, AccountAt(account)), Ledger.OfSale(order), Entries) ==
            Due(Read(db, OrderAt(order)), account, Entries);
    }
  }

  /** The order a request would make. */
  function Makes(q: ShopRequest): Option<nat> {
    match q
    case Buy(p) => Some(p.order)
    case Swap(x) => Some(x.sale.order)
    case _ => None
  }

  /** A request leaves an order that is not there so, unless it is the one to make it. */
  lemma OnlyItsRequestMakesIt(q: ShopRequest, policy: Stock.Policy, values: Values, order: nat)
    requires OrderAt(order) in RecipeOf(q, policy).write(values).0
    ensures Makes(q) == Some(order) || OrderIn(Get(values, OrderAt(order))).Some?
  {
    match q
    case Cash(c) => CashMakesNone(c, values, order);
    case Goods(g) => GoodsMakeNone(g, policy, values, order);
    case Buy(p) => WrittenKinds(p, values, OrderAt(order));
    case Progress(a) =>
      hide ShelfRows, AdvanceShelves, AdvanceCoupons;
      AdvanceCouponsAre(a, values, OrderAt(order));
    case Hear(e) =>
    case SendBack(s) =>
    case Swap(x) => ExchangeWritten(x, values, OrderAt(order));
    case CountIn(a) => Counts.CountKinds(a, values, OrderAt(order));
  }

  lemma CashMakesNone(c: CashRequest, values: Values, order: nat)
    ensures OrderAt(order) !in CashRecipe(c).write(values).0
  {
  }

  lemma GoodsMakeNone(g: StockRequest, policy: Stock.Policy, values: Values, order: nat)
    ensures OrderAt(order) !in StockRecipe(g, policy).write(values).0
  {
    if g.AShipment? {
      ShipmentWritten(g.shipment, values);
    }
  }

  lemma AdvanceCouponsAre(a: Advance, values: Values, k: Key)
    ensures k in AdvanceCoupons(a, values) ==> k.CouponAt?
  {
  }

  /** A row that appears was written, and the answer is the writing's. */
  lemma NewRowIsWritten(c: ShopRecipe, db: Database, k: Key)
    requires WellMade(c, IsClaim) && !IsClaim(k) && k !in db && k in Effect(c, db).0
    ensures var values := Snapshot(Keys(c), db);
      k in c.write(values).0 && Effect(c, db).1 == c.write(values).1 && Get(values, k) == None
  {
  }

  lemma StaysAbsent(q: ShopRequest, policy: Stock.Policy, db: Database, order: nat)
    requires Acceptable(q, policy) && OrderAt(order) !in db
    requires Makes(q) != Some(order) || Serial(ToRequest(RecipeOf(q, policy)), db).1.Refused?
    ensures OrderAt(order) !in Serial(ToRequest(RecipeOf(q, policy)), db).0
  {
    hide RecipeOf, Serial, ToRequest, Effect, WellMade, Acceptable, IsClaim;
    var c := RecipeOf(q, policy);
    RequestSure(q, policy);
    RecipeSerial(c, IsClaim, db);
    OrdersAreNoClaims(order);
    if OrderAt(order) in Effect(c, db).0 {
      NewRowIsWritten(c, db, OrderAt(order));
      OnlyItsRequestMakesIt(q, policy, Snapshot(Keys(c), db), order);
      WritesAreMade(q, policy, Snapshot(Keys(c), db));
      assert false;
    }
  }

  lemma OrdersAreNoClaims(order: nat)
    ensures !IsClaim(OrderAt(order))
  {
  }

  /** A request that makes an order and is not refused by its checks says it is made. */
  lemma WritesAreMade(q: ShopRequest, policy: Stock.Policy, values: Values)
    ensures Makes(q).Some? ==> !RecipeOf(q, policy).write(values).1.Refused?
  {
  }

  /** A refused order leaves nothing: neither the order, with the jobs it queued, nor an entry on
      any shelf, a use of any coupon or a posting to any account, whatever ran beside it. */
  lemma RefusedLeavesNothing(
      asked: seq<ShopRequest>, policy: Stock.Policy, db: Database, schedule: seq<nat>, p: nat, order: nat)
    requires forall i :: 0 <= i < |asked| ==> Acceptable(asked[i], policy)
    requires ShopOk(policy, db) && Tally(db) && OrderAt(order) !in db
    requires forall q :: 0 <= q < |asked| && q != p ==> Makes(asked[q]) != Some(order)
    requires var reqs := ToRequests(RecipesOf(asked, policy));
      && Schedulable(reqs, Start(reqs, db), schedule)
      && var s := Outcome(reqs, db, schedule);
         p < |s.workers| && s.workers[p].answer.Some? ==> s.workers[p].answer.value.Refused?
    ensures var after := Outcome(ToRequests(RecipesOf(asked, policy)), db, schedule).db;
      OrderAt(order) !in after && NoTrace(after, order)
  {
    hide RecipeOf, ShopOk, Tally, NoTrace, Serial, Acceptable, Makes, Outcome;
    var reqs := ToRequests(RecipesOf(asked, policy));
    var refused, holds := (a: Answer) => a.Refused?, (d: Database) => OrderAt(order) !in d;
    forall q: nat, d | q < |reqs| ensures KeepsUnlessAnswered(reqs, p, refused, holds, q, d) {
      if holds(d) && (q == p ==> refused(Serial(reqs[q], d).1)) {
        StaysAbsent(asked[q], policy, d, order);
      }
    }
    RequestsSound(asked, policy);
    KeptByRefusal(reqs, IsClaim, db, schedule, p, refused, holds);
    EveryCommittedStateIsSound(asked, policy, db, schedule);
    AbsentLeavesNoTrace(Outcome(reqs, db, schedule).db, order);
  }

  lemma RequestsSound(asked: seq<ShopRequest>, policy: Stock.Policy)
    requires forall i :: 0 <= i < |asked| ==> Acceptable(asked[i], policy)
    ensures AllSound(ToRequests(RecipesOf(asked, policy)), IsClaim)
  {
    hide RecipeOf;
    forall i | 0 <= i < |asked| ensures WellMade(RecipesOf(asked, policy)[i], IsClaim) {
      RequestSure(asked[i], policy);
    }
    RecipesAreSound(RecipesOf(asked, policy), IsClaim);
  }
}
