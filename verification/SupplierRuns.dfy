/** One damaged item, one credit, over whole runs: whatever sends name it, on whatever supplier orders
    and able to go through or not, and whatever else the shop does meanwhile. */
module SupplierRuns {
  import opened Wrappers
  import opened RowLocks
  import opened Recipes
  import opened Runs
  import opened Shop
  import opened Tallies
  import opened CashBook
  import opened StockRoom
  import opened Orders
  import opened Fulfilment
  import opened Webhooks
  import opened SupplierReturns
  import opened Exchanges
  import opened ShopRuns
  import Counts = StockCounts
  import Stock = StockLedger

  // ---- Nothing else touches them --------------------------------------------------------

  /** A request that is no send locks no supplier order and no returned item, and claims no send's key. */
  lemma OthersSpare(q: ShopRequest, policy: Stock.Policy)
    requires !q.SendBack?
    ensures SparesCredits(ShopRuns.RecipeOf(q, policy))
    ensures forall token :: ShopRuns.RecipeOf(q, policy).claim != Some(SupplierReturnClaim(token))
  {
    hide Tenders, Stock.Ids, InvolvedLines;
    match q
    case Cash(c) => CashSpares(c);
    case Goods(g) => GoodsSpare(g, policy);
    case Buy(p) => PurchaseSparesCredits(p, policy);
    case Progress(a) => AdvanceSparesCredits(a, policy);
    case Hear(e) => EventSparesCredits(e);
    case Swap(x) => ExchangeSparesCredits(x, policy);
    case CountIn(a) => CountSpares(a);
  }

  lemma CashSpares(c: CashRequest)
    ensures SparesCredits(CashRecipe(c)) && forall token :: CashRecipe(c).claim != Some(SupplierReturnClaim(token))
  {
    hide SparesCredits;
    CashSparesCredits(c);
  }

  lemma GoodsSpare(g: StockRequest, policy: Stock.Policy)
    ensures SparesCredits(StockRecipe(g, policy)) && forall token ::
        StockRecipe(g, policy).claim != Some(SupplierReturnClaim(token))
  {
    hide Stock.Ids, StockRoom.Packed, Leaving, Targets;
  }

  lemma CountSpares(a: Counts.Applying)
    ensures SparesCredits(Counts.CountRecipe(a))
  {
    hide Stock.Ids, Counts.Shelves;
  }

  // ---- Sent stays sent ------------------------------------------------------------------

  lemma SendLeavesSent(s: Sending, db: Database, item: nat)
    requires IsSent(db, item)
    ensures IsSent(Effect(SendingRecipe(s), db).0, item)
  {
    hide SendLines, SendingWrites, ItemIds;
    var c, values := SendingRecipe(s), Snapshot(Keys(SendingRecipe(s)), db);
    if ReturnedItemAt(item) in Keys(c) {
      SnapshotHas(Keys(c), db, ReturnedItemAt(item));
      SendLeavesItem(s, db, item);
    } else {
      SendingWellMade(s);
      LeavesRow(c, db, ReturnedItemAt(item));
    }
  }

  /** A returned item is only ever marked by a send that names it, which then finds it unsent. */
  lemma SendLeavesItem(s: Sending, db: Database, item: nat)
    requires IsSent(db, item)
    ensures Read(Effect(SendingRecipe(s), db).0, ReturnedItemAt(item)) == Read(db, ReturnedItemAt(item))
  {
    hide SendLines, ItemRows, ItemIds;
    var c, values := SendingRecipe(s), Snapshot(Keys(SendingRecipe(s)), db);
    if Named(s.lines, item) {
      var i :| 0 <= i < |s.lines| && s.lines[i].item == item;
      ItemIsLocked(s.lines, i);
      SnapshotHas(Keys(c), db, ReturnedItemAt(item));
      if SupplierOrderOf(values, s.order).Some? {
        SentStops(SupplierOrderOf(values, s.order).value, s.lines, values, i);
      }
    } else if ReturnedItemAt(item) in ItemRows(s.lines, s.order, values) {
      ItemRowOf(s.lines, s.order, values, ReturnedItemAt(item));
    }
  }

  lemma SentStays(q: ShopRequest, policy: Stock.Policy, db: Database, item: nat)
    requires Acceptable(q, policy) && IsSent(db, item)
    ensures IsSent(Serial(ToRequest(ShopRuns.RecipeOf(q, policy)), db).0, item)
  {
    hide ShopRuns.RecipeOf, Serial, ToRequest, Effect, WellMade, Acceptable;
    var c := ShopRuns.RecipeOf(q, policy);
    RequestSure(q, policy);
    RecipeSerial(c, IsClaim, db);
    if q.SendBack? {
      RecipeOfSend(q, policy);
      SendLeavesSent(q.sending, db, item);
    } else {
      OthersSpare(q, policy);
      LeavesRow(c, db, ReturnedItemAt(item));
    }
  }

  lemma RecipeOfSend(q: ShopRequest, policy: Stock.Policy)
    requires q.SendBack?
    ensures ShopRuns.RecipeOf(q, policy) == SendingRecipe(q.sending)
  {
  }

  // ---- A send's own key -----------------------------------------------------------------

  predicate KeyFree(s: Sending, db: Database) {
    s.token.Some? ==> SupplierReturnClaim(s.token.value) !in db
  }

  /** Another request under another key. */
  predicate OtherKey(q: ShopRequest, s: Sending) {
    q.SendBack? && s.token.Some? ==> q.sending.token != s.token
  }

  lemma KeyStaysFree(q: ShopRequest, policy: Stock.Policy, s: Sending, db: Database)
    requires Acceptable(q, policy) && OtherKey(q, s) && KeyFree(s, db)
    ensures KeyFree(s, Serial(ToRequest(ShopRuns.RecipeOf(q, policy)), db).0)
  {
    hide ShopRuns.RecipeOf, Serial, ToRequest, Effect, Acceptable;
    var c := ShopRuns.RecipeOf(q, policy);
    RequestSure(q, policy);
    RecipeSerial(c, IsClaim, db);
    if s.token.Some? {
      if q.SendBack? {
        RecipeOfSend(q, policy);
      } else {
        OthersSpare(q, policy);
      }
      LeavesRow(c, db, SupplierReturnClaim(s.token.value));
    }
  }

  // ---- At most one ----------------------------------------------------------------------

  /** Worker `p` is a send of the item, under a key of its own. */
  predicate SendsAlone(asked: seq<ShopRequest>, p: nat, item: nat) {
    && p < |asked| && asked[p].SendBack? && SendsItem(asked[p].sending, item)
    && forall r :: 0 <= r < |asked| && r != p ==> OtherKey(asked[r], asked[p].sending)
  }

  ghost function Free(asked: seq<ShopRequest>): (nat, Database) -> bool {
    (x: nat, d: Database) => x < |asked| && asked[x].SendBack? && KeyFree(asked[x].sending, d)
  }

  lemma SendOnceOnly(asked: seq<ShopRequest>, policy: Stock.Policy, p: nat, item: nat)
    requires (forall i :: 0 <= i < |asked| ==> Acceptable(asked[i], policy)) && SendsAlone(asked, p, item)
    ensures OnceOnly(ToRequests(RecipesOf(asked, policy)), (a: Answer) => a.Made?, (d: Database) => IsSent(d, item),
        Free(asked), p)
  {
    hide ShopRuns.RecipeOf, Serial, ToRequest, Effect, Acceptable, SendingRecipe, IsSent, SendsItem, KeyFree,
         OtherKey;
    var reqs, s := ToRequests(RecipesOf(asked, policy)), asked[p].sending;
    RecipeOfSend(asked[p], policy);
    SendingWellMade(s);
    forall d | Free(asked)(p, d) && Serial(reqs[p], d).1.Made? ensures IsSent(Serial(reqs[p], d).0, item) {
      RecipeSerial(SendingRecipe(s), IsClaim, d);
      KeyIsFree(s, d);
      MadeIsSent(s, item, d);
    }
    forall d | Free(asked)(p, d) && IsSent(d, item) ensures !Serial(reqs[p], d).1.Made? {
      RecipeSerial(SendingRecipe(s), IsClaim, d);
      KeyIsFree(s, d);
      SentIsRefused(s, item, d);
    }
    forall r: nat, d | r < |reqs| && r != p && Free(asked)(p, d) ensures Free(asked)(p, Serial(reqs[r], d).0) {
      KeyStaysFree(asked[r], policy, s, d);
    }
  }

  lemma KeyIsFree(s: Sending, db: Database)
    requires KeyFree(s, db)
    ensures s.token.Some? ==> SupplierReturnClaim(s.token.value) !in db
  {
  }

  /** Of any two sends of one damaged item in any run of the shop's, not both are made: whether
      either could go through by itself is not asked, nor what runs beside them. */
  lemma CreditedAtMostOnce(
      asked: seq<ShopRequest>, policy: Stock.Policy, db: Database, schedule: seq<nat>, item: nat, p: nat, q: nat)
    requires forall i :: 0 <= i < |asked| ==> Acceptable(asked[i], policy)
    requires p != q && SendsAlone(asked, p, item) && SendsAlone(asked, q, item)
    requires KeyFree(asked[p].sending, db) && KeyFree(asked[q].sending, db)
    requires var reqs := ToRequests(RecipesOf(asked, policy)); Schedulable(reqs, Start(reqs, db), schedule)
    ensures var s := Outcome(ToRequests(RecipesOf(asked, policy)), db, schedule);
      p < |s.workers| && q < |s.workers| && s.workers[p].answer.Some? && s.workers[q].answer.Some? ==>
        !(s.workers[p].answer.value.Made? && s.workers[q].answer.value.Made?)
  {
    hide ShopRuns.RecipeOf, Serial, ToRequest, OnceOnly, Acceptable, IsSent, KeyFree, Outcome, SendsItem, OtherKey;
    var reqs := ToRequests(RecipesOf(asked, policy));
    var sent := (d: Database) => IsSent(d, item);
    RequestsSound(asked, policy);
    SendOnceOnly(asked, policy, p, item);
    SendOnceOnly(asked, policy, q, item);
    forall r, d: Database | 0 <= r < |reqs| && sent(d) ensures sent(Serial(reqs[r], d).0) {
      SentStays(asked[r], policy, d, item);
    }
    NotBoth(reqs, IsClaim, db, schedule, (a: Answer) => a.Made?, sent, Free(asked), p, q);
  }

  /** What the tally says of an item: sent, the order it was sent on has one credit for it, of all its
      units, and no other order has any; not sent, none has. */
  lemma OneCreditIfSent(db: Database, item: nat, order: nat)
    requires Tally(db) && ReturnedItemAt(item) in db && db[ReturnedItemAt(item)].AReturnedItem?
    ensures var row, credits := db[ReturnedItemAt(item)].item, CreditsIn(Read(db, SupplierOrderAt(order)));
      && CreditsFor(credits, item, Entries) == (if row.sentOn == Some(order) then 1 else 0)
      && CreditsFor(credits, item, Amounts) == (if row.sentOn == Some(order) then row.quantity else 0)
  {
    var credits, row := CreditsIn(Read(db, SupplierOrderAt(order))), Read(db, ReturnedItemAt(item));
    assert CreditsFor(credits, item, Entries) == CreditDue(row, order, Entries);
    assert CreditsFor(credits, item, Amounts) == CreditDue(row, order, Amounts);
  }
}
