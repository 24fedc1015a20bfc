/** Requests of the shop's that deadlock, and one that oversells, each on a small shop that is sound
    and tallies, in which stock may not go below nothing. */
module Witnesses {
  import opened Wrappers
  import opened RowLocks
  import opened LockOrder
  import opened Recipes
  import opened LockPairs
  import opened Shop
  import opened Tallies
  import opened CashBook
  import opened StockRoom
  import opened Orders
  import opened Fulfilment
  import opened Exchanges
  import opened PairKeys
  import opened PairRuns
  import opened ShopRuns
  import opened Webhooks
  import opened WholeRequests
  import Counts = StockCounts
  import opened Backend
  import opened CashService
  import opened StockService
  import opened OrderService
  import Stock = StockLedger
  import Money = MoneyLedger
  import Coupons = CouponBook

  const POLICY := Stock.Policy(false, false)
  const OPEN := Money.Account(0, true, false, [])

  /** Five on hand, received and never moved. */
  const STOCKED := Stock.Write(NEW_SHELF, Stock.Purchase, 5, Stock.Manual)

  const SHEET := Sheet(true, [CountLine(7, 4)])

  /** Two accounts and six shelves, nothing sold yet; and a sheet of one of them, still to be applied. */
  const SHOP: Database := map[
    BranchAt(1) := ABranch, CountAt(1) := ASheet(SHEET),
    AccountAt(1) := AnAccount(OPEN), AccountAt(2) := AnAccount(OPEN),
    ShelfAt(1) := AShelf(STOCKED), ShelfAt(2) := AShelf(STOCKED), ShelfAt(3) := AShelf(STOCKED),
    ShelfAt(4) := AShelf(STOCKED), ShelfAt(7) := AShelf(STOCKED), ShelfAt(8) := AShelf(STOCKED)]

  lemma OpenIsOk()
    ensures Money.AccountOk(OPEN)
  {
  }

  lemma StockedIsOk()
    ensures Stock.ShelfOk(POLICY, STOCKED)
  {
    Stock.WriteKeepsOk(POLICY, NEW_SHELF, Stock.Purchase, 5, Stock.Manual);
  }

  lemma ShopIsOk()
    ensures ShopOk(POLICY, SHOP)
  {
    hide Money.AccountOk, Stock.ShelfOk, STOCKED;
    OpenIsOk();
    StockedIsOk();
  }

  lemma NoOrdersOn(order: nat)
    ensures HeldBy(STOCKED.ledger, order) == HeldBy([], order) == 0 && !SoldFor(STOCKED.ledger, order)
    ensures !Mentions(STOCKED.ledger, order)
  {
    assert STOCKED.ledger[..0] == [];
  }

  lemma ShopRow(k: Key)
    ensures !k.AccountAt? && !k.ShelfAt? && !k.CountAt? && !k.BranchAt? ==> Read(SHOP, k) == None
    ensures k.ShelfAt? ==> Read(SHOP, k) == None || Read(SHOP, k) == Some(AShelf(STOCKED))
    ensures k.AccountAt? ==> Read(SHOP, k) == None || Read(SHOP, k) == Some(AnAccount(OPEN))
  {
    hide STOCKED, OPEN;
  }

  lemma ShopTallies()
    ensures Tally(SHOP)
  {
    hide STOCKED, SHOP, Booked, HeldBy, SoldFor, Mentions;
    forall account: nat, cause: Money.Cause, measure: Measure | Documented(cause)
      ensures Booked(Read(SHOP, AccountAt(account)), cause, measure) ==
          Due(Read(SHOP, DocumentOf(cause)), account, measure)
    {
      ShopRow(AccountAt(account));
      ShopRow(DocumentOf(cause));
      NothingBooked(cause, measure);
    }
    forall shelf: nat, order: nat
      ensures HoldTallies(ShelfIn(Read(SHOP, ShelfAt(shelf))).ledger, order, Read(SHOP, OrderAt(order)), shelf)
    {
      ShopRow(ShelfAt(shelf));
      ShopRow(OrderAt(order));
      NoOrdersOn(order);
      NothingHeld(order);
    }
    forall coupon: nat, order: nat
      ensures UseTallies(RedemptionsIn(Read(SHOP, CouponAt(coupon))), order, Read(SHOP, OrderAt(order)), coupon)
    {
      ShopRow(CouponAt(coupon));
      ShopRow(OrderAt(order));
    }
    forall order: nat, item: nat, measure: Measure
      ensures CreditsFor(CreditsIn(Read(SHOP, SupplierOrderAt(order))), item, measure) ==
              CreditDue(Read(SHOP, ReturnedItemAt(item)), order, measure)
    {
      ShopRow(SupplierOrderAt(order));
      ShopRow(ReturnedItemAt(item));
    }
  }

  lemma NothingBooked(cause: Money.Cause, measure: Measure)
    ensures Booked(None, cause, measure) == Booked(Some(AnAccount(OPEN)), cause, measure) == 0
  {
  }

  lemma NothingHeld(order: nat)
    ensures HeldBy(NEW_SHELF.ledger, order) == 0 && !SoldFor(NEW_SHELF.ledger, order)
    ensures !Mentions(NEW_SHELF.ledger, order)
  {
  }

  /** What a request made from a sound shop leaves is sound. */
  lemma StaysSound(c: ShopRecipe, db: Database)
    requires Sure(POLICY, c) && ShopOk(POLICY, db) && Tally(db)
    ensures ShopOk(POLICY, Effect(c, db).0) && Tally(Effect(c, db).0)
  {
  }

  // ---- A sale of one article, with nothing against it ---------------------------------------

  const ONE := [Stock.Line(7, 1)]

  lemma OneArticle()
    ensures Stock.Touched(ONE) == {7} && Stock.Ids(ONE) == [7] && Stock.Asked(ONE, 7) == 1
  {
    assert ONE[1..] == [];
  }

  /** What is asked of a request with no key, it would get. */
  lemma GoesWhen(c: ShopRecipe, db: Database)
    requires c.claim.None? && Ends(c, db).None?
    ensures WouldGo(c, db)
  {
  }

  lemma OneArticleGoes(p: Purchase)
    requires p.lines == ONE && p.coupon.None? && p.token.None?
    requires TenderRefused(SHOP, Tenders(p)).None? && (p.counter ==> TenderSum(Tenders(p)) >= p.total)
    ensures WouldGo(PurchaseRecipe(p, POLICY), SHOP)
  {
    hide Tenders, TenderSum, TenderRefused, HeldShelves, Stock.Asked, Stock.Touched, Snapshot, Keys, Takes, SHOP;
    ShopRow(OrderAt(p.order));
    ShelfTakes(p.counter);
    PurchaseEnds(p, POLICY, SHOP);
    GoesWhen(PurchaseRecipe(p, POLICY), SHOP);
  }

  lemma ShelfTakes(counter: bool)
    ensures Takes(POLICY, counter, HeldShelves(SHOP, Stock.Touched(ONE)), ONE)
  {
    OneArticle();
    assert ShelfNow(SHOP, 7) == STOCKED;
  }

  lemma Tendered(p: Purchase)
    requires p.counter && p.tenders == [Tender(1, 1)]
    ensures Tenders(p) == [Tender(1, 1)] && TenderSum(Tenders(p)) == 1 && TenderRefused(SHOP, Tenders(p)).None?
  {
    var one := Tender(1, 1);
    CountedFirst([one]);
    NoneCounted();
    assert [one][1..] == [];
    assert AccountNow(SHOP, 1) == Some(OPEN);
    assert TenderRefused(SHOP, [one]) == TenderRefused(SHOP, []);
  }

  lemma TenderedTwice(p: Purchase)
    requires p.counter && p.tenders == [Tender(2, 1), Tender(1, 1)]
    ensures Tenders(p) == p.tenders && TenderSum(Tenders(p)) == 2 && TenderRefused(SHOP, Tenders(p)).None?
  {
    var one, two := Tender(1, 1), Tender(2, 1);
    CountedFirst([two, one]);
    CountedFirst([one]);
    NoneCounted();
    assert [two, one][1..] == [one] && [one][1..] == [];
    assert AccountNow(SHOP, 1) == Some(OPEN) && AccountNow(SHOP, 2) == Some(OPEN);
    assert TenderRefused(SHOP, [one]) == TenderRefused(SHOP, []);
    assert TenderRefused(SHOP, [two, one]) == TenderRefused(SHOP, [one]);
  }

  /** The shop once the order is placed. */
  ghost function With(p: Purchase): Database {
    Effect(PurchaseRecipe(p, POLICY), SHOP).0
  }

  lemma WithIsSound(p: Purchase)
    ensures ShopOk(POLICY, With(p)) && Tally(With(p))
  {
    hide PurchaseRecipe, Sure, ShopOk, Tally, SHOP, Effect;
    ShopIsOk();
    ShopTallies();
    PurchaseSure(p, POLICY);
    StaysSound(PurchaseRecipe(p, POLICY), SHOP);
  }

  lemma OrderPlaced(p: Purchase)
    requires WouldGo(PurchaseRecipe(p, POLICY), SHOP) && p.token.None?
    ensures exists number: nat, jobs :: Read(With(p), OrderAt(p.order)) == Some(AnOrder(OrderWith(p, number, jobs)))
  {
    hide PurchaseObjection, SHOP, Snapshot, Keys, ShelvesAfter, AccountsAfter, CouponRows, Tenders, OrderWith, JobsOf;
    var values := Snapshot(Keys(PurchaseRecipe(p, POLICY)), SHOP);
    var number, jobs := LastNumber(Get(values, NumberKey(p.counter))) + 1, JobsOf(p, values);
    assert PurchaseWrites(p, values).0[OrderAt(p.order)] == AnOrder(OrderWith(p, number, jobs));
    assert Read(With(p), OrderAt(p.order)) == Some(AnOrder(OrderWith(p, number, jobs)));
  }

  /** Rows of no concern to the order are as they were. */
  lemma OrderSpares(p: Purchase, k: Key)
    requires p.token.None? && (k.OrderAt? ==> k.order != p.order) && !k.NumberOf? && !k.ShelfAt? && !k.CouponAt?
    requires !k.AccountAt?
    ensures Read(With(p), k) == Read(SHOP, k)
  {
    hide PurchaseRecipe, SHOP, Effect, Keys, WellMade;
    PurchaseWellMade(p, POLICY);
    NotItsKey(p, k);
    LeavesRow(PurchaseRecipe(p, POLICY), SHOP, k);
  }

  lemma NotItsKey(p: Purchase, k: Key)
    requires p.token.None? && (k.OrderAt? ==> k.order != p.order) && !k.NumberOf? && !k.ShelfAt? && !k.CouponAt?
    requires !k.AccountAt?
    ensures k !in Keys(PurchaseRecipe(p, POLICY)) && PurchaseRecipe(p, POLICY).claim.None?
  {
    hide Stock.Ids, Tenders;
  }

  // ---- A split sale and a transfer of money ---------------------------------------------------

  const SPLIT := Purchase(9, true, false, ONE, None, None, 2, [Tender(2, 1), Tender(1, 1)], None)
  const ACROSS := Transfer(1, 2, 1, None)

  /** A sale paid into account 2 then account 1, and a transfer from 1 to 2. */
  lemma ASplitSaleAndATransferDeadlock()
    ensures ShopOk(POLICY, SHOP) && Tally(SHOP)
    ensures CanDeadlock([ToRequest(PurchaseOn(SPLIT, POLICY, SHOP)), ToRequest(TransferRecipe(ACROSS))], SHOP)
  {
    hide SHOP, ShopOk, Tally, CanDeadlock, ToRequest, PurchaseRecipe, PurchaseOn, TransferRecipe, WouldGo, BeginApart;
    ShopIsOk();
    ShopTallies();
    TenderedTwice(SPLIT);
    OneArticleGoes(SPLIT);
    SaleAndTransferDeadlockExactlyWhen(SPLIT, ACROSS, POLICY, SHOP);
    assert PaidInto(SPLIT) == [2, 1] && BothIds(ACROSS) == [1, 2];
    FirstTwoDecide(PaidInto(SPLIT), BothIds(ACROSS));
  }

  lemma FirstTwoDecide(a: seq<nat>, b: seq<nat>)
    requires |a| >= 2 && |b| >= 2 && a[0] == b[1] && a[1] == b[0] && a[0] != a[1]
    ensures BeginApart(a, b)
  {
  }

  // ---- An exchange and a sale of the same article -----------------------------------------------

  const FIRST := Purchase(5, true, false, ONE, None, None, 1, [Tender(1, 1)], None)
  const NEW_SALE := Purchase(6, true, false, [Stock.Line(8, 1)], None, None, 1, [], None)
  const SWAP := Exchange("key", 5, ONE, [Back(0, 1, true)], 1, 3, 1, NEW_SALE)
  const SAME_ARTICLE := Purchase(10, true, false, ONE, None, None, 0, [], None)

  lemma FirstGoes()
    ensures WouldGo(PurchaseRecipe(FIRST, POLICY), SHOP)
  {
    hide SHOP, PurchaseRecipe, WouldGo;
    Tendered(FIRST);
    OneArticleGoes(FIRST);
  }

  /** The article that comes back, whatever rows there are. */
  lemma OneInvolved(x: Exchange, db: Database)
    requires x.lines == ONE && x.back == [Back(0, 1, true)]
    ensures 7 in Involving(x, db)
  {
    Stock.IdsAscend(InvolvedLines(x));
    assert InvolvedLines(x)[0] == Stock.Line(7, 1);
    InvolvingHas(x, db, 7);
  }

  lemma OneAsked(lines: seq<Stock.Line>, db: Database)
    requires lines == ONE
    ensures 7 in ShelfOrder(lines, db)
  {
    OneArticle();
    ShelfOrderHas(lines, db, 7);
  }

  /** The order the goods come back from, as it was placed. */
  lemma SwapReaches()
    ensures ReachesItsSale(SWAP, POLICY, With(FIRST))
  {
    hide With, PurchaseRecipe, SHOP, WouldGo;
    FirstGoes();
    OrderPlaced(FIRST);
    OrderSpares(FIRST, ExchangeAt("key"));
    OrderSpares(FIRST, ReturnAt(3));
    ShopRow(ReturnAt(3));
    NoExchange("key");
    var number: nat, jobs :| Read(With(FIRST), OrderAt(5)) == Some(AnOrder(OrderWith(FIRST, number, jobs)));
    AsPlaced(FIRST, number, jobs);
    CountsBack();
    ReachesItsSaleExactlyWhen(SWAP, POLICY, With(FIRST));
  }

  lemma NoExchange(token: Token)
    ensures Read(SHOP, ExchangeAt(token)) == None
  {
  }

  lemma AsPlaced(p: Purchase, number: nat, jobs: seq<Job>)
    requires p.lines == ONE
    ensures var o := OrderWith(p, number, jobs);
      o.lines == ONE && o.returned == [0] && o.committed == p.counter && o.coupon == p.coupon &&
          (p.counter ==> o.status.Delivered?)
  {
    hide Tenders, TenderSum;
  }

  lemma CountsBack()
    ensures CountedBack(ONE, [0], SWAP.back).Some?
  {
    assert SWAP.back[1..] == [];
  }

  /** The exchange holds the article's shelf and wants a number; the sale holds the number and wants
      the shelf. */
  lemma AnExchangeAndASaleDeadlock()
    ensures ShopOk(POLICY, With(FIRST)) && Tally(With(FIRST))
    ensures CanDeadlock([ToRequest(ExchangeOn(SWAP, POLICY, With(FIRST))),
        ToRequest(PurchaseOn(SAME_ARTICLE, POLICY, With(FIRST)))], With(FIRST))
  {
    hide With, SHOP, ShopOk, Tally, CanDeadlock, ToRequest, ExchangeOn, PurchaseOn, ReachesItsSale, Involving,
         ShelfOrder;
    WithIsSound(FIRST);
    SwapReaches();
    OneInvolved(SWAP, With(FIRST));
    OneAsked(SAME_ARTICLE.lines, With(FIRST));
    OrderSpares(FIRST, ExchangeAt("key"));
    NoExchange("key");
    OrderSpares(FIRST, OrderAt(10));
    ShopRow(OrderAt(10));
    ExchangeAndSaleDeadlockExactlyWhen(SWAP, SAME_ARTICLE, POLICY, With(FIRST));
  }

  // ---- An exchange and a cancellation -------------------------------------------------------------

  const WAITING := Purchase(5, false, false, ONE, None, None, 1, [], None)
  const CANCELLED := Advance(5, Cancelled, ONE, None)

  lemma WaitingGoes()
    ensures WouldGo(PurchaseRecipe(WAITING, POLICY), SHOP)
  {
    hide SHOP, PurchaseRecipe, WouldGo;
    assert TenderRefused(SHOP, []).None?;
    OneArticleGoes(WAITING);
  }

  lemma MayCancel()
    ensures MayAdvance(CANCELLED, POLICY, With(WAITING))
  {
    hide With, PurchaseRecipe, SHOP, WouldGo, Packing;
    WaitingGoes();
    OrderPlaced(WAITING);
    var number: nat, jobs :| Read(With(WAITING), OrderAt(5)) == Some(AnOrder(OrderWith(WAITING, number, jobs)));
    AsPlaced(WAITING, number, jobs);
    SnapshotHas([OrderAt(5)], With(WAITING), OrderAt(5));
  }

  /** An exchange is asked for of an order that is still waiting, and holds its article's shelf; the
      order is being cancelled, and is held: each wants the other's, though the exchange would have
      been refused. */
  lemma AnExchangeAndACancellationDeadlock()
    ensures ShopOk(POLICY, With(WAITING)) && Tally(With(WAITING))
    ensures CanDeadlock([ToRequest(ExchangeOn(SWAP, POLICY, With(WAITING))),
        ToRequest(AdvanceOn(CANCELLED, POLICY, With(WAITING)))], With(WAITING))
  {
    hide With, SHOP, ShopOk, Tally, CanDeadlock, ToRequest, ExchangeOn, AdvanceOn, MayAdvance, Involving, ShelfOrder;
    WithIsSound(WAITING);
    MayCancel();
    OneInvolved(SWAP, With(WAITING));
    OneAsked(StockLines(CANCELLED), With(WAITING));
    OrderSpares(WAITING, OrderAt(6));
    ShopRow(OrderAt(6));
    OrderSpares(WAITING, ExchangeAt("key"));
    NoExchange("key");
    ExchangeAndAdvanceDeadlockExactlyWhen(SWAP, CANCELLED, POLICY, With(WAITING));
  }

  // ---- A transfer of stock ------------------------------------------------------------------------

  /** Two articles sent from shelves 1 and 2, received on shelves 4 and 3. */
  const DOWNWARDS := Shipment(false, [Crate(1, 4, 1), Crate(2, 3, 1)], None)
  const BOTH := Purchase(9, false, false, [Stock.Line(3, 1), Stock.Line(4, 1)], None, None, 2, [], None)

  /** One article, on two lines of three. */
  const TWICE := Shipment(false, [Crate(1, 3, 3), Crate(1, 3, 3)], None)

  lemma TwoPacked(t: Shipment)
    requires |t.crates| == 2 && t.crates[0].quantity > 0 && t.crates[1].quantity > 0
    ensures StockRoom.Packed(t.crates) == t.crates
    ensures Leaving(t.crates) ==
        [Stock.Line(t.crates[0].source, t.crates[0].quantity), Stock.Line(t.crates[1].source, t.crates[1].quantity)]
    ensures Targets(t.crates) == [t.crates[0].target, t.crates[1].target]
  {
    assert t.crates[1..][1..] == [] && t.crates[1..] == [t.crates[1]];
    assert StockRoom.Packed(t.crates[1..]) == [t.crates[1]];
    assert [t.crates[0]] + [t.crates[1]] == t.crates;
  }

  lemma CratesGo(t: Shipment)
    requires t == DOWNWARDS || t == TWICE
    ensures WouldGo(ShipmentRecipe(t, POLICY), SHOP)
  {
    hide StockRoom.Packed, Snapshot, Keys, SHOP, Leaving, Targets;
    TwoPacked(t);
    ShipmentEnds(t, POLICY, SHOP);
    NotShort(t);
    GoesWhen(ShipmentRecipe(t, POLICY), SHOP);
  }

  lemma NotShort(t: Shipment)
    requires t == DOWNWARDS || t == TWICE
    ensures !Short(POLICY, t.crates, SHOP)
  {
    assert ShelfNow(SHOP, 1) == STOCKED && ShelfNow(SHOP, 2) == STOCKED;
  }

  lemma TwoLines(a: Stock.Line, b: Stock.Line)
    requires a.shelf < b.shelf && a.quantity > 0 && b.quantity > 0
    ensures Stock.Ids([a, b]) == [a.shelf, b.shelf]
  {
    assert [a, b][1..] == [b] && [b][1..] == [];
    assert Stock.Ids([b]) == Stock.Inserted([], b.shelf) == [b.shelf];
  }

  lemma HeldThere(lines: seq<Stock.Line>, ids: seq<nat>)
    requires Stock.Ids(lines) == ids && forall id :: id in ids ==> id in {1, 2, 3, 4, 7, 8}
    ensures ShelfOrder(lines, SHOP) == ids
  {
    hide ShelfOrder;
    NoneMissing(lines, SHOP);
  }

  lemma DownwardsAsks()
    ensures ShipmentAsks(DOWNWARDS, POLICY, SHOP) == [1, 2, 4, 3]
  {
    hide StockRoom.Packed, Leaving, Targets, Stock.Ids, ShelfOrder, SHOP, ShipmentRecipe, ShipmentOn, WouldGo;
    CratesGo(DOWNWARDS);
    TwoPacked(DOWNWARDS);
    TwoLines(Stock.Line(1, 1), Stock.Line(2, 1));
    HeldThere(Leaving(DOWNWARDS.crates), [1, 2]);
    ShipmentOnGoes(DOWNWARDS, POLICY, SHOP);
  }

  lemma ShipmentOnGoes(t: Shipment, policy: Stock.Policy, db: Database)
    ensures WouldGo(ShipmentOn(t, policy, db), db) <==> WouldGo(ShipmentRecipe(t, policy), db)
  {
    hide ShipmentRecipe, WouldGo, Shelving;
    forall k | k in ShipmentRecipe(t, policy).after ensures k in ShipmentOn(t, policy, db).after {
      ShipmentOnHas(t, policy, db, k);
    }
    GoesAlike(ShipmentRecipe(t, policy), ShipmentOn(t, policy, db).after, db);
  }

  /** The transfer holds shelf 4 and wants 3; the order holds 3 and wants 4. */
  lemma ATransferOfStockAndASaleDeadlock()
    ensures ShopOk(POLICY, SHOP) && Tally(SHOP)
    ensures CanDeadlock([ToRequest(ShipmentOn(DOWNWARDS, POLICY, SHOP)), ToRequest(PurchaseOn(BOTH, POLICY, SHOP))],
        SHOP)
  {
    hide SHOP, ShopOk, Tally, CanDeadlock, ToRequest, ShipmentOn, PurchaseOn, WouldGo, ShipmentAsks, ShelfOrder,
         Stock.Ids, BeginApart;
    ShopIsOk();
    ShopTallies();
    DownwardsAsks();
    TwoLines(Stock.Line(3, 1), Stock.Line(4, 1));
    HeldThere(BOTH.lines, [3, 4]);
    ShopRow(OrderAt(9));
    ShipmentAndSaleDeadlockExactlyWhen(DOWNWARDS, BOTH, POLICY, SHOP);
    FirstIsFour();
  }

  lemma FirstIsFour()
    ensures BeginApart([1, 2, 4, 3], [3, 4])
  {
    assert [1, 2, 4, 3][1..] == [2, 4, 3] && [2, 4, 3][1..] == [4, 3];
  }

  // ---- Articles the branch never held ---------------------------------------------------------------

  const ELEVENTH := Stock.Line(11, 1)
  const TWELFTH := Stock.Line(12, 1)
  const ONLINE := Purchase(9, false, false, [ELEVENTH, TWELFTH], None, None, 2, [], None)
  const COUNTER := Purchase(10, true, false, [TWELFTH, ELEVENTH], None, None, 2, [], None)

  /** Shelves made in the order of the lines. */
  lemma TwoToMake(a: Stock.Line, b: Stock.Line, db: Database)
    requires a.quantity > 0 && b.quantity > 0 && a.shelf != b.shelf
    requires ShelfAt(a.shelf) !in db && ShelfAt(b.shelf) !in db
    ensures ShelfOrder([a, b], db) == [a.shelf, b.shelf]
  {
    hide Stock.Ids;
    OneToMake([a], b, db);
    OneToMake([], a, db);
    assert [a, b] == [a] + [b] && [a] == [] + [a];
    AskedOfTwo(a, b);
    NonePresent(Stock.Ids([a, b]), db);
  }

  lemma AskedOfTwo(a: Stock.Line, b: Stock.Line)
    ensures forall id :: id in Stock.Ids([a, b]) ==> id == a.shelf || id == b.shelf
  {
    hide Stock.Ids;
    Stock.IdsAscend([a, b]);
    assert [a, b][1..] == [b] && [b][1..] == [];
    assert Stock.Touched([b]) <= {b.shelf} && Stock.Touched([a, b]) <= {a.shelf} + Stock.Touched([b]);
  }

  lemma OneToMake(lines: seq<Stock.Line>, last: Stock.Line, db: Database)
    ensures var before := Missing(lines, db);
      Missing(lines + [last], db) == if last.quantity > 0 && ShelfAt(last.shelf) !in db && last.shelf !in before
        then before + [last.shelf] else before
  {
    assert (lines + [last])[..|lines|] == lines;
  }

  lemma {:induction false} NonePresent(ids: seq<nat>, db: Database)
    requires forall id :: id in ids ==> ShelfAt(id) !in db
    ensures Present(ids, db) == []
  {
    if ids != [] {
      assert ids[0] in ids;
      NonePresent(ids[1..], db);
    }
  }

  /** An order online makes shelf 11's row and wants 12's; a counter sale makes 12's and wants 11's. */
  lemma TwoOrdersOfNewArticlesDeadlock()
    ensures ShopOk(POLICY, SHOP) && Tally(SHOP)
    ensures CanDeadlock([ToRequest(PurchaseOn(ONLINE, POLICY, SHOP)), ToRequest(PurchaseOn(COUNTER, POLICY, SHOP))],
        SHOP)
  {
    hide ShopOk, Tally, CanDeadlock, ToRequest, PurchaseOn, ShelfOrder, BeginApart;
    ShopIsOk();
    ShopTallies();
    TwoToMake(ELEVENTH, TWELFTH, SHOP);
    TwoToMake(TWELFTH, ELEVENTH, SHOP);
    TwoOrdersDeadlockExactlyWhen(ONLINE, COUNTER, POLICY, SHOP);
    FirstTwoDecide([11, 12], [12, 11]);
  }

  const UP := Exchange("up", 5, ONE, [Back(0, 1, true)], 1, 3, 1, NEW_SALE.(order := 20, lines := [ELEVENTH, TWELFTH]))
  const DOWN :=
    Exchange("down", 5, ONE, [Back(0, 1, true)], 1, 4, 1, NEW_SALE.(order := 21, lines := [TWELFTH, ELEVENTH]))

  /** Shelf 7's row is there; the others are made first. */
  lemma MadeFirst(x: Exchange, a: Stock.Line, b: Stock.Line, db: Database)
    requires x.lines == ONE && x.back == [Back(0, 1, true)] && x.sale.lines == [a, b]
    requires a.quantity == b.quantity == 1 && a.shelf != b.shelf && ShelfAt(7) in db
    requires ShelfAt(a.shelf) !in db && ShelfAt(b.shelf) !in db
    ensures |Involving(x, db)| >= 2 && Involving(x, db)[0] == a.shelf && Involving(x, db)[1] == b.shelf
  {
    hide Present, Stock.Ids;
    var one := Stock.Line(7, 1);
    ThreeInvolved(x, a, b);
    OneToMake([one, a], b, db);
    OneToMake([one], a, db);
    OneToMake([], one, db);
    assert [one, a, b] == [one, a] + [b] && [one, a] == [one] + [a] && [one] == [] + [one];
  }

  lemma ThreeInvolved(x: Exchange, a: Stock.Line, b: Stock.Line)
    requires x.lines == ONE && x.back == [Back(0, 1, true)] && x.sale.lines == [a, b] && a.quantity == b.quantity == 1
    ensures InvolvedLines(x) == [Stock.Line(7, 1), a, b]
  {
    assert x.back[1..] == [] && [a, b][1..] == [b] && [b][1..] == [];
    assert NameShelves([b]) == [b] && NameShelves([a, b]) == [a, b];
    assert NameReturned(x.lines, []) == [] && NameReturned(x.lines, x.back) == [Stock.Line(7, 1)];
  }

  /** Shelves the first sale does not touch. */
  lemma FirstSpares(id: nat)
    requires id == 11 || id == 12
    ensures ShelfAt(id) !in With(FIRST) && ShelfAt(7) in With(FIRST)
  {
    hide PurchaseRecipe, SHOP, Effect, Keys, WellMade;
    PurchaseWellMade(FIRST, POLICY);
    NotItsShelf(id);
    LeavesRow(PurchaseRecipe(FIRST, POLICY), SHOP, ShelfAt(id));
    SevenIsThere();
    StaysThere(PurchaseRecipe(FIRST, POLICY), SHOP, ShelfAt(7));
  }

  lemma SevenIsThere()
    ensures ShelfAt(7) in SHOP
  {
  }

  lemma NotItsShelf(id: nat)
    requires id == 11 || id == 12
    ensures ShelfAt(id) !in Keys(PurchaseRecipe(FIRST, POLICY)) && ShelfAt(id) !in SHOP
  {
    hide Stock.Ids, Tenders;
    OneArticle();
    InShelfKeys(Stock.Ids(ONE), ShelfAt(id));
  }

  lemma StaysThere(c: ShopRecipe, db: Database, k: Key)
    requires k in db
    ensures k in Effect(c, db).0
  {
  }

  /** Of two exchanges of one sale's goods for the same two articles one makes shelf 11's row and wants 12's,
      the other makes 12's and wants 11's. */
  lemma TwoExchangesOfNewArticlesDeadlock()
    ensures ShopOk(POLICY, With(FIRST)) && Tally(With(FIRST))
    ensures CanDeadlock([ToRequest(ExchangeOn(UP, POLICY, With(FIRST))),
        ToRequest(ExchangeOn(DOWN, POLICY, With(FIRST)))], With(FIRST))
  {
    hide With, SHOP, ShopOk, Tally, CanDeadlock, ToRequest, ExchangeOn, Involving, BeginApart;
    WithIsSound(FIRST);
    FirstSpares(11);
    FirstSpares(12);
    MadeFirst(UP, ELEVENTH, TWELFTH, With(FIRST));
    MadeFirst(DOWN, TWELFTH, ELEVENTH, With(FIRST));
    OrderSpares(FIRST, ExchangeAt("up"));
    OrderSpares(FIRST, ExchangeAt("down"));
    NoExchange("up");
    NoExchange("down");
    TwoExchangesDeadlockExactlyWhen(UP, DOWN, POLICY, With(FIRST));
    FirstTwoDecide(Involving(UP, With(FIRST)), Involving(DOWN, With(FIRST)));
  }

  // ---- A count and a write-off ----------------------------------------------------------------------

  const APPLIED := Counts.Applying(1, 1, [CountLine(7, 4)])
  const BROKEN := WriteOff(7, Stock.Damage, 1, true, None)

  lemma BrokenGoes()
    ensures WouldGo(WriteOffRecipe(BROKEN, POLICY), SHOP)
    ensures InOrder(WriteOffRecipe(BROKEN, POLICY)) == [ShelfAt(7)]
  {
    hide Snapshot, Keys, SHOP;
    WriteOffEnds(BROKEN, POLICY, SHOP);
    assert ShelfNow(SHOP, 7) == STOCKED by {
      ShelfSeven();
    }
    GoesWhen(WriteOffRecipe(BROKEN, POLICY), SHOP);
  }

  lemma ShelfSeven()
    ensures ShelfNow(SHOP, 7) == STOCKED
  {
  }

  lemma SheetOpens()
    ensures OpensItsShelves(APPLIED, SHOP) && 7 in Counting(APPLIED, SHOP)
  {
    hide ShelfOrder;
    assert Counts.Shelves(APPLIED.lines) == ONE;
    OneAsked(Counts.Shelves(APPLIED.lines), SHOP);
  }

  /** A count of one article holds its branch's row and wants the article's shelf; a write-off of the article
      holds the shelf, and wants the branch's row as it commits. */
  lemma ACountAndAWriteOffDeadlock()
    ensures ShopOk(POLICY, SHOP) && Tally(SHOP)
    ensures CanDeadlock([ToRequest(Counts.CountOn(APPLIED, SHOP)),
        ToRequest(Whole(Goods(AWriteOff(BROKEN)), Papers(None, [1]), POLICY, SHOP))], SHOP)
  {
    hide SHOP, ShopOk, Tally, CanDeadlock, ToRequest, WriteOffRecipe, WouldGo, OpensItsShelves, Counting, WellMade,
         ChecksHold, InOrder, Counts.CountOn, Referring;
    ShopIsOk();
    ShopTallies();
    SheetOpens();
    BrokenGoes();
    GoodsChecksHold(AWriteOff(BROKEN), POLICY);
    CountAndMoverDeadlockExactlyWhen(APPLIED, WriteOffRecipe(BROKEN, POLICY), [1], SHOP);
    assert ShelfOfBoth(APPLIED, WriteOffRecipe(BROKEN, POLICY), SHOP);
  }

  // ---- Two events of one payment --------------------------------------------------------------------

  const PLACED := Order(1, false, Pending, false, [], [], None, [], 0, 0, [])
  const AWAITED: Database :=
    map[PaymentAt(1) := APayment(Payment(5, 5, None, Waiting)), OrderAt(5) := AnOrder(PLACED)]
  const DECLINED := Event(0, 1, Failure, None, Some(Found(1, 5, 5, None)))
  const NOTIFIED := Event(0, 2, Other, None, Some(Found(1, 5, 5, None)))

  lemma AwaitedIsSound()
    ensures ShopOk(POLICY, AWAITED) && Tally(AWAITED)
  {
    hide HoldsTally;
    AwaitedHolds();
  }

  lemma AwaitedHolds()
    ensures HoldsTally(AWAITED)
  {
  }

  lemma EventsGo()
    ensures WouldGo(EventRecipe(DECLINED), AWAITED) && WouldGo(EventRecipe(NOTIFIED), AWAITED)
  {
    assert EventKeys(DECLINED) == [PaymentAt(1)];
    assert Snapshot(Keys(EventRecipe(DECLINED)), AWAITED)[PaymentAt(1)] == Read(AWAITED, PaymentAt(1));
  }

  /** A failure holds its payment, and refers to the order as it commits; another event of the payment, that
      changes nothing, refers to the order and then to the payment. */
  lemma TwoEventsOfOnePaymentDeadlock()
    ensures ShopOk(POLICY, AWAITED) && Tally(AWAITED)
    ensures CanDeadlock([ToRequest(Whole(Hear(DECLINED), Papers(None, [1]), POLICY, AWAITED)),
        ToRequest(Whole(Hear(NOTIFIED), Papers(None, []), POLICY, AWAITED))], AWAITED)
  {
    hide ShopOk, Tally, CanDeadlock, ToRequest, Whole, EventRecipe, WouldGo, AWAITED;
    AwaitedIsSound();
    EventsGo();
    TwoEventsDeadlockExactlyWhen(DECLINED, Papers(None, [1]), NOTIFIED, Papers(None, []), POLICY, AWAITED);
  }

  // ---- One article on two lines ---------------------------------------------------------------------

  /** All six leave the shelf. */
  lemma SixLeave(values: Values)
    requires ShelfOf(values, 1) == STOCKED
    ensures 1 in Involved(StockRoom.Packed(TWICE.crates)) && ShippedRow(TWICE, values, 1).onHand == -1
  {
    hide StockRoom.Packed, StockRoom.Shipped;
    TwoPacked(TWICE);
    var crates := TWICE.crates;
    assert crates[1..] == [Crate(1, 3, 3)] && crates[1..][1..] == [];
    assert Stock.Asked(Leaving(crates), 1) == 6 by {
      assert Leaving(crates)[1..] == [Stock.Line(1, 3)] && [Stock.Line(1, 3)][1..] == [];
    }
    NotArriving(crates, 1);
    ShipmentMoves(TWICE, POLICY, values, 1);
  }

  lemma ShelfIsRead(t: Shipment)
    requires t == TWICE
    ensures ShelfOf(Snapshot(Keys(ShipmentRecipe(t, POLICY)), SHOP), 1) == STOCKED
  {
    hide StockRoom.Packed, Keys, ShipmentRecipe;
    TwoPacked(t);
    assert 1 in Involved(t.crates);
    InvolvedIsLocked(t, POLICY, 1);
    SnapshotHas(Keys(ShipmentRecipe(t, POLICY)), SHOP, ShelfAt(1));
    assert Read(SHOP, ShelfAt(1)) == Some(AShelf(STOCKED));
  }

  lemma SentRow(t: Shipment)
    requires WouldGo(ShipmentRecipe(t, POLICY), SHOP) && t.token.None?
    requires 1 in Involved(StockRoom.Packed(t.crates))
    ensures Effect(ShipmentRecipe(t, POLICY), SHOP).1.Made?
    ensures Read(Effect(ShipmentRecipe(t, POLICY), SHOP).0, ShelfAt(1)) ==
            Some(AShelf(ShippedRow(t, Snapshot(Keys(ShipmentRecipe(t, POLICY)), SHOP), 1)))
  {
    hide ShipmentWrites, ShippedRow, Involved, StockRoom.Packed, Snapshot, Keys, SHOP, ShipmentObjection;
    ShipmentWritten(t, Snapshot(Keys(ShipmentRecipe(t, POLICY)), SHOP));
  }

  /** Five on hand, and two lines of three leave: each was checked alone, and the shelf, in a shop
      that does not oversell, has less than nothing. */
  lemma TwoCratesOversell()
    ensures ShopOk(POLICY, SHOP) && Tally(SHOP) && !POLICY.oversell
    ensures Effect(ShipmentRecipe(TWICE, POLICY), SHOP).1.Made?
    ensures ShelfIn(Read(Effect(ShipmentRecipe(TWICE, POLICY), SHOP).0, ShelfAt(1))).onHand == -1
    ensures !ShopOk(POLICY, Effect(ShipmentRecipe(TWICE, POLICY), SHOP).0)
  {
    hide SHOP, Tally, ShipmentRecipe, Effect, Snapshot, Keys, WouldGo, ShippedRow, Involved;
    ShopIsOk();
    ShopTallies();
    CratesGo(TWICE);
    ShelfIsRead(TWICE);
    SixLeave(Snapshot(Keys(ShipmentRecipe(TWICE, POLICY)), SHOP));
    SentRow(TWICE);
    var after := Effect(ShipmentRecipe(TWICE, POLICY), SHOP).0;
    assert ShelfAt(1) in after && !RowOk(POLICY, ShelfAt(1), after[ShelfAt(1)]);
  }
}
