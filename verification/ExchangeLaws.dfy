/** An exchange in figures: when it is made, what the goods brought back come to, and what it leaves of the
    original order, the new one, every shelf and every account. */
module ExchangeLaws {
  import opened Wrappers
  import opened RowLocks
  import opened Recipes
  import opened Shop
  import opened Tallies
  import opened CashBook
  import opened StockRoom
  import opened Orders
  import opened Exchanges
  import opened StockLaws
  import opened OrderLaws
  import OrderRuns
  import Till = ExchangeService
  import Stock = StockLedger
  import Money = MoneyLedger
  import Coupons = CouponBook

  // ---- The goods coming back ----------------------------------------------------------

  /** So many of one line come back, in all. */
  function Returning(back: seq<Back>, line: nat): nat {
    if back == [] then 0 else Returning(back[1..], line) + if back[0].line == line then back[0].quantity else 0
  }

  /** The figures kept, each up by what comes back of its line. */
  predicate CountsUp(before: seq<nat>, after: seq<nat>, back: seq<Back>) {
    |after| == |before| && forall line :: 0 <= line < |before| ==> after[line] == before[line] + Returning(back, line)
  }

  /** Every line named is the order's, and no line has more back in all than was sold of it. */
  predicate WithinSold(lines: seq<Stock.Line>, returned: seq<nat>, back: seq<Back>) {
    && (forall i :: 0 <= i < |back| ==> back[i].line < |lines|)
    && |returned| == |lines|
    && forall line :: 0 <= line < |lines| ==> returned[line] + Returning(back, line) <= lines[line].quantity
  }

  lemma WithinSoldNext(lines: seq<Stock.Line>, returned: seq<nat>, back: seq<Back>)
    requires back != [] && back[0].line < |lines| && |returned| == |lines|
    ensures var next := returned[back[0].line := returned[back[0].line] + back[0].quantity];
      && (WithinSold(lines, next, back[1..]) <==> WithinSold(lines, returned, back))
      && forall after :: CountsUp(next, after, back[1..]) <==> CountsUp(returned, after, back)
  {
    var next, rest := returned[back[0].line := returned[back[0].line] + back[0].quantity], back[1..];
    assert forall i :: 0 <= i < |rest| ==> rest[i] == back[i + 1];
    forall line | 0 <= line < |lines|
      ensures next[line] + Returning(rest, line) == returned[line] + Returning(back, line)
    {
    }
    if WithinSold(lines, next, rest) {
      forall i | 0 <= i < |back| ensures back[i].line < |lines| {
        assert i > 0 ==> back[i] == rest[i - 1];
      }
    }
  }

  lemma {:induction false} CountedExactlyWhen(lines: seq<Stock.Line>, returned: seq<nat>, back: seq<Back>)
    requires |returned| == |lines| && forall line :: 0 <= line < |lines| ==> returned[line] <= lines[line].quantity
    ensures var counted := CountedBack(lines, returned, back);
      && (counted.Some? <==> WithinSold(lines, returned, back))
      && (counted.Some? ==> CountsUp(returned, counted.value, back))
    decreases |back|
  {
    if back == [] {
    } else if back[0].line < |lines| {
      var line := back[0].line;
      WithinSoldNext(lines, returned, back);
      if returned[line] + back[0].quantity <= lines[line].quantity {
        CountedExactlyWhen(lines, returned[line := returned[line] + back[0].quantity], back[1..]);
      } else {
        assert Returning(back, line) >= back[0].quantity;
      }
    }
  }

  // ---- What of them goes back on the shelf -----------------------------------------------

  /** The last decision given for the line was to put its goods back. */
  predicate GoesBack(back: seq<Back>, line: nat) {
    exists i :: 0 <= i < |back| && back[i].line == line && back[i].restock &&
                forall j :: i < j < |back| ==> back[j].line != line
  }

  lemma {:induction false} LastStands(back: seq<Back>, line: nat)
    ensures Decision(back, line) <==> GoesBack(back, line)
  {
    if back != [] {
      var n := |back| - 1;
      var rest := back[..n];
      if back[n].line == line {
        if back[n].restock {
          assert back[n].line == line && back[n].restock;
        }
      } else {
        LastStands(rest, line);
        if GoesBack(rest, line) {
          var i :| 0 <= i < n && rest[i].line == line && rest[i].restock && forall j :: i < j < n ==>
              rest[j].line != line;
          assert back[i] == rest[i] && forall j :: i < j < |back| ==> back[j].line != line;
        }
        if GoesBack(back, line) {
          var i :| 0 <= i < |back| && back[i].line == line && back[i].restock && forall j :: i < j < |back| ==>
              back[j].line != line;
          assert rest[i] == back[i] && forall j :: i < j < n ==> rest[j].line != line;
        }
      }
    }
  }

  /** The shelf a unit of the `i`-th line of the return goes back on, if it does. */
  predicate BackOn(x: Exchange, i: nat, id: nat)
    requires i < |x.back|
  {
    var line := x.back[i].line;
    line < |x.lines| && x.lines[line].shelf == id && GoesBack(x.back, line)
  }

  /** Units put back on a shelf, by the lines of the return from the `i`-th. */
  function PutOn(x: Exchange, i: nat, id: nat): nat
    requires i <= |x.back|
    decreases |x.back| - i
  {
    if i == |x.back| then 0 else PutOn(x, i + 1, id) + if BackOn(x, i, id) then x.back[i].quantity else 0
  }

  function PutMarks(x: Exchange, i: nat, id: nat): seq<Mark>
    requires i <= |x.back|
    decreases |x.back| - i
  {
    if i == |x.back| then []
    else
      (if BackOn(x, i, id) && x.back[i].quantity > 0 then
         [Mark(Stock.Return, x.back[i].quantity, Stock.ForReturn(x.returned))] else []) +
      PutMarks(x, i + 1, id)
  }

  lemma {:induction false} RestockedAs(x: Exchange, i: nat, id: nat)
    requires i <= |x.back|
    ensures var goods := Restocked(x.lines, Decided(x.back)[i..]);
      && Stock.Asked(goods, id) == PutOn(x, i, id)
      && Told(goods, id, Stock.Return, true, Stock.ForReturn(x.returned)) == PutMarks(x, i, id)
    decreases |x.back| - i
  {
    if i < |x.back| {
      var decided := Decided(x.back);
      assert decided[i..][0] == decided[i] && decided[i..][1..] == decided[i + 1..];
      RestockedAs(x, i + 1, id);
      LastStands(x.back, x.back[i].line);
      var rest := Restocked(x.lines, decided[i + 1..]);
      if decided[i].restock && decided[i].line < |x.lines| {
        var line := Stock.Line(x.lines[decided[i].line].shelf, decided[i].quantity);
        assert ([line] + rest)[1..] == rest && ([line] + rest)[0] == line;
      } else {
        assert [] + rest == rest;
      }
    }
  }

  // ---- What they come to ----------------------------------------------------------------

  function Least(a: nat, b: nat): nat {
    if a < b then a else b
  }

  /** What may still be refunded of an order. */
  function Refundable(o: Order): nat {
    if o.paid > o.refunded then o.paid - o.refunded else 0
  }

  /** The sale's tenders: first as much of what came back as the sale comes to, out of the drawer. */
  function Paying(x: Exchange, worth: nat): seq<Tender> {
    [Tender(x.drawer, Least(worth, x.sale.total))] + x.sale.tenders
  }

  lemma PaysWith(x: Exchange, worth: nat)
    ensures SaleOf(x, worth) == x.sale.(counter := true, tenders := Paying(x, worth))
    ensures Tenders(SaleOf(x, worth)) == Counted(Paying(x, worth))
  {
  }

  lemma WorthIs(x: Exchange, o: Order)
    ensures Worth(x, o) == Least(x.share, Refundable(o))
  {
  }

  // ---- What stops it ----------------------------------------------------------------------

  /** Every shelf has for the new goods what they ask in all, those just put back on it among what it has. */
  predicate NewGoodsAreThere(x: Exchange, policy: Stock.Policy, db: Database) {
    forall i :: 0 <= i < |x.sale.lines| && x.sale.lines[i].quantity > 0 ==>
      var id := x.sale.lines[i].shelf;
      var shelf := ShelfNow(db, id);
      HasFor(policy, true, shelf.(onHand := shelf.onHand + PutOn(x, 0, id)), Stock.Asked(x.sale.lines, id))
  }

  /** The refund asked of the drawer with the sale's money in it. */
  function RefundStops(x: Exchange, worth: nat, db: Database): Option<Refusal> {
    var drawer := AccountIn(Read(db, AccountAt(x.drawer)));
    if worth == 0 then None
    else if drawer.None? then Some(NoSuchAccount)
    else if !drawer.value.active then Some(AccountClosed)
    else if drawer.value.balance + Tendered(Paying(x, worth), x.drawer) < worth && !drawer.value.overdraft then
      Some(InsufficientFunds)
    else None
  }

  /** What stops the sale and the refund: the first of these that is wrong. */
  predicate StopsPaying(why: Option<Refusal>, x: Exchange, worth: nat, policy: Stock.Policy, db: Database) {
    if !NewGoodsAreThere(x, policy, db) then why == Some(InsufficientStock)
    else if x.sale.coupon.Some? && CouponSays(CouponNow(db, x.sale.coupon.value), x.sale.customer).Some? then
      why == CouponSays(CouponNow(db, x.sale.coupon.value), x.sale.customer)
    else if SomeClosed(Paying(x, worth), db) then why in {Some(NoSuchAccount), Some(AccountClosed)}
    else if InAll(Paying(x, worth)) < x.sale.total then why == Some(Underpaid)
    else if InAll(Paying(x, worth)) > x.sale.total then why == Some(Overpaid)
    else why == RefundStops(x, worth, db)
  }

  /** What stops an exchange of a key that is free: the first of these that is wrong. Goods come back of an order that
      has left the shop, whose goods, so, were sold. */
  predicate StopsExchange(why: Option<Refusal>, x: Exchange, policy: Stock.Policy, db: Database) {
    match OrderIn(Read(db, OrderAt(x.original)))
    case None => why == Some(NoSuchOrder)
    case Some(o) =>
      if o.lines != x.lines then why == Some(NoSuchOrder)
      else if o.status !in {Shipped, Delivered, ReturnRequested, Returned} then why == Some(WrongStatus)
      else if x.back == [] then why == Some(NoLines)
      else if ReturnAt(x.returned) in db then why == Some(DuplicateId)
      else if !WithinSold(o.lines, o.returned, x.back) then why == Some(NotReturnable)
      else if OrderAt(x.sale.order) in db then why == Some(DuplicateId)
      else StopsPaying(why, x, Least(x.share, Refundable(o)), policy, db)
  }

  lemma PutBackIs(x: Exchange, policy: Stock.Policy, db: Database, id: nat)
    requires id in Stock.Touched(InvolvedLines(x))
    ensures var values := Till.Reading(x, policy, db);
      && PutBack(x, values)[id].onHand == ShelfNow(db, id).onHand + PutOn(x, 0, id)
      && PutBack(x, values)[id].reserved == ShelfNow(db, id).reserved
      && PutBack(x, values)[id].reorderPoint == ShelfNow(db, id).reorderPoint
      && Marks(PutBack(x, values)[id].ledger) == Marks(ShelfNow(db, id).ledger) + PutMarks(x, 0, id)
  {
    hide Till.Reading, Stock.Touched, Stock.Moved, Stock.Asked, InvolvedLines, Restocked, Decided, Marks, Told;
    var values := Till.Reading(x, policy, db);
    Till.ReadsShelves(x, policy, db);
    RestockedIsInvolved(x);
    RestockedAs(x, 0, id);
    assert Decided(x.back)[0..] == Decided(x.back);
    Stock.MovedTotals(Shelves(x, values), Restocked(x.lines, Decided(x.back)), Stock.Return, true,
                      Stock.ForReturn(x.returned), id);
    MovedMarks(Shelves(x, values), Restocked(x.lines, Decided(x.back)), Stock.Return, true,
               Stock.ForReturn(x.returned), id);
  }

  lemma SoldInvolved(x: Exchange, id: nat)
    requires id in Stock.Touched(x.sale.lines)
    ensures id in Stock.Touched(InvolvedLines(x))
  {
    SoldIsInvolved(x);
  }

  lemma NewGoodsExactlyWhen(x: Exchange, policy: Stock.Policy, db: Database)
    ensures SaleObjection(x, policy, Till.Reading(x, policy, db)) ==
            if NewGoodsAreThere(x, policy, db) then None else Some(InsufficientStock)
  {
    hide Till.Reading, Stock.Ids, Stock.Touched, Stock.Asked, InvolvedLines, PutBack, ShelfNow, Marks, PutMarks, PutOn;
    var values, ids, lines := Till.Reading(x, policy, db), Stock.Ids(x.sale.lines), x.sale.lines;
    var rows := PutBack(x, values);
    Stock.IdsAscend(lines);
    SoldIsInvolved(x);
    forall id | id in Stock.Touched(lines)
      ensures id in rows && rows[id].onHand == ShelfNow(db, id).onHand + PutOn(x, 0, id)
      ensures rows[id].reserved == ShelfNow(db, id).reserved
    {
      SoldInvolved(x, id);
      PutBackIs(x, policy, db, id);
    }
    if NewGoodsAreThere(x, policy, db) {
      forall j | 0 <= j < |ids| ensures HasFor(policy, true, rows[ids[j]], Stock.Asked(lines, ids[j])) {
        var i := TouchedBy(lines, ids[j]);
      }
    } else {
      var i :| 0 <= i < |lines| && lines[i].quantity > 0 &&
        var shelf := ShelfNow(db, lines[i].shelf);
        !HasFor(policy, true, shelf.(onHand := shelf.onHand + PutOn(x, 0, lines[i].shelf)),
                Stock.Asked(lines, lines[i].shelf));
      TouchesOf(lines, i);
      var j :| 0 <= j < |ids| && ids[j] == lines[i].shelf;
      assert !HasFor(policy, true, rows[ids[j]], Stock.Asked(lines, ids[j]));
    }
  }

  lemma AccountsRead(x: Exchange, policy: Stock.Policy, db: Database, worth: nat)
    ensures var values, tenders := Till.Reading(x, policy, db), Tenders(SaleOf(x, worth));
      && HasAccounts(values, tenders) && AccountAt(x.drawer) in values && AccountsAsTheyAre(tenders, values, db)
      && forall id :: id in Tills(x, worth) ==> AccountOf(values, id) == AccountIn(Read(db, AccountAt(id)))
  {
    hide Till.Reading, Tenders, Payees, AccountOf;
    Till.ReadsRows(x, policy, db);
    Till.ReadsTenders(x, policy, db, worth);
    forall id | id in Tills(x, worth)
      ensures AccountOf(Till.Reading(x, policy, db), id) == AccountIn(Read(db, AccountAt(id)))
    {
      PayeesOfSale(x, worth);
      Till.ReadsAccount(x, policy, db, id);
    }
  }

  /** An account with the sale's money in it. */
  lemma PaidInAs(x: Exchange, policy: Stock.Policy, worth: nat, db: Database, account: nat)
    ensures var accounts := PaidIn(x, worth, Till.Reading(x, policy, db));
      var before := AccountIn(Read(db, AccountAt(account)));
      && (account in accounts <==> account in Tills(x, worth) && before.Some?)
      && (account in accounts ==>
            accounts[account] == PaidTo(before.value, Paying(x, worth), account, x.sale.order))
  {
    hide Till.Reading, Banked, Payees, PaidTo, Counted, Paying, Tills, AccountOf;
    var values := Till.Reading(x, policy, db);
    var accounts, before := AccountsOf(values, Tills(x, worth)), AccountIn(Read(db, AccountAt(account)));
    AccountsRead(x, policy, db, worth);
    PaysWith(x, worth);
    PositiveTenders(SaleOf(x, worth));
    if account in accounts {
      BankedAs(accounts, Tenders(SaleOf(x, worth)), x.sale.order, account);
      CountedPaysTo(before.value, Paying(x, worth), account, x.sale.order);
    }
  }

  lemma RefundIsStopped(x: Exchange, policy: Stock.Policy, worth: nat, db: Database)
    ensures RefundObjection(x, worth, Till.Reading(x, policy, db)) == RefundStops(x, worth, db)
  {
    hide Till.Reading, PaidIn, Paying, Payees, Tendered, Receipts;
    PaidInAs(x, policy, worth, db, x.drawer);
  }

  lemma PayIsStopped(x: Exchange, policy: Stock.Policy, worth: nat, db: Database)
    requires CouponsTally(db) && OrderAt(x.sale.order) !in db
    ensures StopsPaying(PayObjection(x, policy, worth, Till.Reading(x, policy, db)), x, worth, policy, db)
  {
    hide Till.Reading, SaleObjection, RefundObjection, TenderObjection, CouponObjection, HasAccounts, TenderSum,
         Tenders, NewGoodsAreThere, CouponSays, CouponNow, SomeClosed, InAll, RefundStops, Paying, CouponsTally, Tills,
         AccountsAsTheyAre, AccountOf;
    var values := Till.Reading(x, policy, db);
    NewGoodsExactlyWhen(x, policy, db);
    AccountsRead(x, policy, db, worth);
    PaysWith(x, worth);
    TendersStop(SaleOf(x, worth), values, db);
    RefundIsStopped(x, policy, worth, db);
    CouponIsRead(x, policy, db);
    if x.sale.coupon.Some? {
      CouponStops(x.sale.coupon.value, x.sale.order, x.sale.customer, values, db);
    }
  }

  lemma CouponIsRead(x: Exchange, policy: Stock.Policy, db: Database)
    ensures x.sale.coupon.Some? ==>
              CouponAt(x.sale.coupon.value) in Till.Reading(x, policy, db) &&
              CouponOf(Till.Reading(x, policy, db), x.sale.coupon.value) == CouponNow(db, x.sale.coupon.value)
  {
    hide Till.Reading;
    Till.ReadsRows(x, policy, db);
  }

  lemma OriginalIsOk(x: Exchange, policy: Stock.Policy, db: Database)
    requires ShopOk(policy, db) && OrderIn(Read(db, OrderAt(x.original))).Some?
    ensures OrderOk(OrderIn(Read(db, OrderAt(x.original))).value)
  {
    assert RowOk(policy, OrderAt(x.original), db[OrderAt(x.original)]);
  }

  lemma LeftExactlyWhen(x: Exchange, o: Order)
    requires OrderOk(o)
    ensures ReturnObjection(x, o) ==
            if o.status !in {Shipped, Delivered, ReturnRequested, Returned} then Some(WrongStatus)
            else if x.back == [] then Some(NoLines) else None
  {
  }

  /** What ends an exchange whose key is free is what stops it. */
  lemma ExchangeIsStopped(x: Exchange, policy: Stock.Policy, db: Database)
    requires ShopOk(policy, db) && CouponsTally(db) && ExchangeAt(x.token) !in db
    ensures var ends := ExchangeEnds(x, policy, Till.Reading(x, policy, db));
      && (ends.Some? ==> ends.value.Refused?)
      && StopsExchange(if ends.Some? then Some(ends.value.why) else None, x, policy, db)
  {
    hide Till.Reading, PayObjection, StopsPaying, CountedBack, ReturnObjection, Worth, Refundable, ShopOk, CouponsTally,
         HasShelves, InvolvedLines, WithinSold;
    var values := Till.Reading(x, policy, db);
    Till.ReadsRows(x, policy, db);
    Till.ReadsShelves(x, policy, db);
    var original := OrderIn(Read(db, OrderAt(x.original)));
    if original.Some? && original.value.lines == x.lines {
      var o := original.value;
      OriginalIsOk(x, policy, db);
      LeftExactlyWhen(x, o);
      CountedExactlyWhen(o.lines, o.returned, x.back);
      WorthIs(x, o);
      if OrderAt(x.sale.order) !in db {
        PayIsStopped(x, policy, Worth(x, o), db);
      }
    }
  }

  // ---- What it leaves ---------------------------------------------------------------------

  /** The original order: what came back counted on its lines, the refund added, and the order on its way back --
      refunded, if all of it has come. */
  predicate BroughtBack(o: Order, after: Order, back: seq<Back>, worth: nat) {
    && after == o.(returned := after.returned, refunded := o.refunded + worth, status := after.status)
    && CountsUp(o.returned, after.returned, back)
    && after.status ==
         if o.status.Returned? then Returned
         else if forall line :: 0 <= line < |o.lines| && line < |after.returned| ==>
             after.returned[line] >= o.lines[line].quantity then Refunded
         else ReturnRequested
  }

  /** An account with the sale's money in it, and the drawer with the refund out of it. */
  function AccountSwapped(x: Exchange, worth: nat, account: nat, before: Option<Money.Account>): Option<Money.Account> {
    match before
    case None => None
    case Some(a) =>
      var paid := PaidTo(a, Paying(x, worth), account, x.sale.order);
      if account != x.drawer || worth == 0 then Some(paid)
      else
        var left := paid.balance - worth;
        var refund := Money.Posting(Money.Refund, -(worth as int), left, Money.OfReturn(x.returned));
        Some(paid.(balance := left, postings := paid.postings + [refund]))
  }

  /** A shelf: up by what was put back on it, down by what was sold from it, its holds as they were. */
  predicate ShelfSwapped(x: Exchange, before: Stock.Shelf, after: Stock.Shelf, id: nat) {
    Became(before, after, PutOn(x, 0, id) - Stock.Asked(x.sale.lines, id), 0,
           PutMarks(x, 0, id) + Told(x.sale.lines, id, Stock.Sale, false, Stock.ForOrder(x.sale.order)))
  }

  /** With its key free and nothing to stop it. */
  ghost predicate Exchangeable(x: Exchange, policy: Stock.Policy, db: Database) {
    && ShopOk(policy, db) && CouponsTally(db) && ExchangeAt(x.token) !in db && StopsExchange(None, x, policy, db)
  }

  function OriginalNow(x: Exchange, db: Database): Option<Order> {
    OrderIn(Read(db, OrderAt(x.original)))
  }

  lemma SwapGoes(x: Exchange, policy: Stock.Policy, db: Database)
    requires Exchangeable(x, policy, db)
    ensures var c, values := ExchangeRecipe(x, policy), Till.Reading(x, policy, db);
      && values == Snapshot(Keys(c), db)
      && Goes(x, policy, values) && OriginalNow(x, db).Some? && OriginalOf(x, values) == OriginalNow(x, db)
      && x.original != x.sale.order
      && c.fault.None? && c.claim.None? && c.check(values).None?
  {
    hide ExchangeEnds, ShopOk, CouponsTally, ExchangeWrites, ExchangeKeys, Keys, Snapshot, ValuesOk, HasRead, Worth,
         CountedBack, PayObjection, WithinSold, NewGoodsAreThere, SomeClosed, InAll, RefundStops, CouponSays, CouponNow,
         Paying, Least, Refundable;
    ExchangeIsStopped(x, policy, db);
    ReadsSoundRows(policy, ExchangeRecipe(x, policy), db);
    Till.ReadsRows(x, policy, db);
  }

  /** Every row as an exchange that goes leaves it. */
  lemma SwapRow(x: Exchange, policy: Stock.Policy, db: Database, k: Key)
    requires Exchangeable(x, policy, db) && !IsClaim(k)
    ensures OriginalNow(x, db).Some?
    ensures var values, o := Till.Reading(x, policy, db), OriginalNow(x, db).value;
      var worth := Least(x.share, Refundable(o));
      Read(Effect(ExchangeRecipe(x, policy), db).0, k) ==
        if k == OrderAt(x.original) then Some(AnOrder(ReturnedOrder(x, o)))
        else if k == OrderAt(x.sale.order) then Some(AnOrder(SaleMade(x, worth, values)))
        else if k == ReturnAt(x.returned) then Some(AReturn(Return(x.original, x.drawer, worth)))
        else if k.ShelfAt? && k.shelf in Stock.Touched(InvolvedLines(x)) then Some(AShelf(GoneOut(x, values)[k.shelf]))
        else if k.AccountAt? && k.account in PaidOut(x, worth, values) then
            Some(AnAccount(PaidOut(x, worth, values)[k.account]))
        else if k.CouponAt? && k in CouponRows(SaleOf(x, worth), values) then
            Some(CouponRows(SaleOf(x, worth), values)[k])
        else if k == ExchangeAt(x.token) then Some(Claimed(Exchanged(x.sale.order, x.returned)))
        else if k == NumberOf(Returns) then Some(Counter(LastNumber(Get(values, k)) + 1))
        else if k == NumberOf(CounterOrders) then Some(Counter(SaleMade(x, worth, values).number))
        else Read(db, k)
  {
    hide ExchangeRecipe, Effect, Snapshot, Exchangeable, Goes, GoneOut, PaidOut, SaleMade, ReturnedOrder, CouponRows,
         Keys, WellMade, Till.Reading, InvolvedLines, After, Worth, Least, Refundable, Stock.Touched;
    var c := ExchangeRecipe(x, policy);
    SwapGoes(x, policy, db);
    ExchangeWellMade(x, policy);
    ReadAfter(c, db, k);
    WorthIs(x, OriginalNow(x, db).value);
    ExchangeAfter(x, policy, Till.Reading(x, policy, db), k);
  }

  lemma ReturnedAs(x: Exchange, o: Order)
    requires OrderOk(o) && WithinSold(o.lines, o.returned, x.back)
    requires o.status in {Shipped, Delivered, ReturnRequested, Returned}
    ensures BroughtBack(o, ReturnedOrder(x, o), x.back, Least(x.share, Refundable(o)))
  {
    hide CountedBack, Returning, WithinSold, Worth, Least, Refundable;
    CountedExactlyWhen(o.lines, o.returned, x.back);
    WorthIs(x, o);
    var after := ReturnedOrder(x, o).returned;
    assert AllReturned(o.lines, after) <==>
      forall line :: 0 <= line < |o.lines| && line < |after| ==> after[line] >= o.lines[line].quantity;
  }

  lemma SwapOriginal(x: Exchange, policy: Stock.Policy, db: Database)
    requires Exchangeable(x, policy, db)
    ensures OriginalNow(x, db).Some?
    ensures var after := OriginalNow(x, Effect(ExchangeRecipe(x, policy), db).0);
      after.Some? && BroughtBack(OriginalNow(x, db).value, after.value, x.back,
                                 Least(x.share, Refundable(OriginalNow(x, db).value)))
  {
    hide ExchangeRecipe, Effect, Goes, GoneOut, PaidOut, SaleMade, CouponRows, ShopOk, CouponsTally, ReturnedOrder,
         Till.Reading, InvolvedLines, StopsPaying, WithinSold, Least, Refundable, BroughtBack, OrderOk;
    SwapRow(x, policy, db, OrderAt(x.original));
    OriginalIsOk(x, policy, db);
    ReturnedAs(x, OriginalNow(x, db).value);
  }

  lemma SwapShelf(x: Exchange, policy: Stock.Policy, db: Database, id: nat)
    requires Exchangeable(x, policy, db)
    ensures ShelfSwapped(x, ShelfNow(db, id), ShelfNow(Effect(ExchangeRecipe(x, policy), db).0, id), id)
  {
    hide ExchangeRecipe, Effect, Exchangeable, PaidOut, SaleMade, ReturnedOrder, CouponRows, Till.Reading,
         InvolvedLines, Stock.Touched, PutBack, Stock.Moved, Marks, PutMarks, PutOn, Stock.Asked, Told;
    SwapRow(x, policy, db, ShelfAt(id));
    var values, reference := Till.Reading(x, policy, db), Stock.ForOrder(x.sale.order);
    if id in Stock.Touched(InvolvedLines(x)) {
      PutBackIs(x, policy, db, id);
      SoldIsInvolved(x);
      Stock.MovedTotals(PutBack(x, values), x.sale.lines, Stock.Sale, false, reference, id);
      MovedMarks(PutBack(x, values), x.sale.lines, Stock.Sale, false, reference, id);
      assert Marks(ShelfNow(db, id).ledger) + PutMarks(x, 0, id) + Told(x.sale.lines, id, Stock.Sale, false, reference)
        == Marks(ShelfNow(db, id).ledger) +
           (PutMarks(x, 0, id) + Told(x.sale.lines, id, Stock.Sale, false, reference));
    } else {
      Untouched(x, id);
      ShelfStays(ShelfNow(db, id));
    }
  }

  lemma Untouched(x: Exchange, id: nat)
    requires id !in Stock.Touched(InvolvedLines(x))
    ensures PutOn(x, 0, id) == Stock.Asked(x.sale.lines, id) == 0
    ensures PutMarks(x, 0, id) == Told(x.sale.lines, id, Stock.Sale, false, Stock.ForOrder(x.sale.order)) == []
  {
    hide InvolvedLines, Stock.Touched, Stock.Asked, Told, PutMarks, PutOn, Restocked, Decided;
    var goods := Restocked(x.lines, Decided(x.back));
    RestockedIsInvolved(x);
    SoldIsInvolved(x);
    RestockedAs(x, 0, id);
    assert Decided(x.back)[0..] == Decided(x.back);
    Stock.TouchedIsAsked(goods, id);
    Stock.TouchedIsAsked(x.sale.lines, id);
    ToldNothing(goods, id, Stock.Return, true, Stock.ForReturn(x.returned));
    ToldNothing(x.sale.lines, id, Stock.Sale, false, Stock.ForOrder(x.sale.order));
  }

  lemma SwapAccount(x: Exchange, policy: Stock.Policy, db: Database, account: nat)
    requires Exchangeable(x, policy, db)
    ensures OriginalNow(x, db).Some?
    ensures AccountIn(Read(Effect(ExchangeRecipe(x, policy), db).0, AccountAt(account))) ==
            AccountSwapped(x, Least(x.share, Refundable(OriginalNow(x, db).value)), account,
                           AccountIn(Read(db, AccountAt(account))))
  {
    hide ExchangeRecipe, Effect, Exchangeable, SaleMade, ReturnedOrder, CouponRows, Till.Reading, GoneOut,
         InvolvedLines, PaidIn, Paying, PaidTo, Least, Refundable, Payees;
    SwapRow(x, policy, db, AccountAt(account));
    var worth := Least(x.share, Refundable(OriginalNow(x, db).value));
    PaidInAs(x, policy, worth, db, account);
    var before := AccountIn(Read(db, AccountAt(account)));
    if account !in Tills(x, worth) && before.Some? {
      NotPaidBySale(x, worth, account, before.value);
    }
  }

  lemma NotPaidBySale(x: Exchange, worth: nat, account: nat, a: Money.Account)
    requires account !in Tills(x, worth)
    ensures PaidTo(a, Paying(x, worth), account, x.sale.order) == a && account != x.drawer
  {
    hide PaidTo, Counted, Paying, Payees;
    PaysWith(x, worth);
    NotPaid(a, Counted(Paying(x, worth)), account, x.sale.order);
    CountedPaysTo(a, Paying(x, worth), account, x.sale.order);
  }

  lemma SwapCoupon(x: Exchange, policy: Stock.Policy, db: Database, coupon: nat)
    requires Exchangeable(x, policy, db)
    ensures CouponNow(Effect(ExchangeRecipe(x, policy), db).0, coupon) ==
            if x.sale.coupon == Some(coupon) && CouponNow(db, coupon).Some? then
              Some(UsedBy(CouponNow(db, coupon).value, x.sale.order, x.sale.customer))
            else CouponNow(db, coupon)
  {
    hide ExchangeRecipe, Effect, Exchangeable, SaleMade, ReturnedOrder, Till.Reading, GoneOut, InvolvedLines, PaidOut,
         Coupons.Redeem, Coupons.Names, Least, Refundable;
    SwapRow(x, policy, db, CouponAt(coupon));
    CouponIsRead(x, policy, db);
    if x.sale.coupon == Some(coupon) && CouponNow(db, coupon).Some? {
      SwapUses(x, policy, db, coupon);
      CouponExactlyWhen(CouponNow(db, coupon).value, x.sale.order, x.sale.customer);
    }
  }

  lemma SwapUses(x: Exchange, policy: Stock.Policy, db: Database, coupon: nat)
    requires Exchangeable(x, policy, db) && x.sale.coupon == Some(coupon) && CouponNow(db, coupon).Some?
    ensures !Coupons.Names(CouponNow(db, coupon).value.redemptions, x.sale.order)
    ensures CouponSays(CouponNow(db, coupon), x.sale.customer).None?
  {
    hide ShopOk, CouponsTally, NewGoodsAreThere, SomeClosed, InAll, RefundStops, CouponNow, WithinSold, CouponSays;
    NotYetUsed(db, coupon, x.sale.order);
  }

  /** No notice is queued for an exchange, and a job for every shelf it sells from and leaves low; for a shelf that gets
      nothing back, for no other. */
  ghost predicate SwapQueued(o: Order, x: Exchange, after: Database) {
    && Notice !in o.jobs
    && forall id: nat ::
         var low := Stock.Asked(x.sale.lines, id) > 0 &&
                    ShelfNow(after, id).Available() <= ShelfNow(after, id).reorderPoint;
         (low ==> LowStock(id) in o.jobs) && (PutMarks(x, 0, id) == [] ==> (LowStock(id) in o.jobs <==> low))
  }

  lemma SwapJobs(x: Exchange, values: Values, id: nat)
    ensures Notice !in JobsMade(x, values)
    ensures var low := id in Stock.Touched(x.sale.lines) && id in GoneOut(x, values) &&
                       GoneOut(x, values)[id].Available() <= GoneOut(x, values)[id].reorderPoint;
      && (low ==> LowStock(id) in JobsMade(x, values))
      && (PutMarks(x, 0, id) == [] ==> (LowStock(id) in JobsMade(x, values) <==> low))
  {
    hide InvolvedLines, Stock.Touched, Stock.Moved, Alerts, Told, PutMarks, PutOn, Restocked, Decided, PutBack, ShelfOf;
    var goods, reference := Restocked(x.lines, Decided(x.back)), Stock.ForReturn(x.returned);
    RestockedIsInvolved(x);
    SoldIsInvolved(x);
    AlertsAlone(Shelves(x, values), goods, Stock.Return, true, reference);
    AlertsAlone(PutBack(x, values), x.sale.lines, Stock.Sale, false, Stock.ForOrder(x.sale.order));
    if id in Stock.Touched(x.sale.lines) {
      SoldInvolved(x, id);
      OrderRuns.AlertsAreTheLowShelves(PutBack(x, values), x.sale.lines, true, Stock.ForOrder(x.sale.order), id);
    } else {
      AlertIsTouched(PutBack(x, values), x.sale.lines, Stock.Sale, false, Stock.ForOrder(x.sale.order), id);
    }
    if PutMarks(x, 0, id) == [] {
      RestockedAs(x, 0, id);
      assert Decided(x.back)[0..] == Decided(x.back);
      ToldSomething(goods, id, Stock.Return, true, reference);
      AlertIsTouched(Shelves(x, values), goods, Stock.Return, true, reference, id);
    }
  }

  lemma {:induction false} ToldSomething(lines: seq<Stock.Line>, id: nat, kind: Stock.Movement, inward: bool,
      reference: Stock.Reference)
    requires Told(lines, id, kind, inward, reference) == []
    ensures id !in Stock.Touched(lines)
  {
    if lines != [] {
      ToldSomething(lines[1..], id, kind, inward, reference);
    }
  }

  lemma SwapRungUp(x: Exchange, policy: Stock.Policy, db: Database)
    requires Exchangeable(x, policy, db)
    ensures OriginalNow(x, db).Some?
    ensures var after, worth := Effect(ExchangeRecipe(x, policy), db).0,
                                Least(x.share, Refundable(OriginalNow(x, db).value));
      var number := LastNumber(Read(db, NumberOf(CounterOrders))) + 1;
      var made := OrderIn(Read(after, OrderAt(x.sale.order)));
      && Read(after, NumberOf(CounterOrders)) == Some(Counter(number))
      && made.Some? && PlacedAs(made.value, x.sale.(counter := true, tenders := Paying(x, worth)), number)
      && made.value.jobs == JobsMade(x, Till.Reading(x, policy, db))
  {
    hide ExchangeRecipe, Effect, Exchangeable, ReturnedOrder, Till.Reading, GoneOut, InvolvedLines, PaidOut, JobsMade,
         Least, Refundable, OrderWith, LastNumber, PlacedAs, Paying, CouponRows, Goes, OriginalNow;
    SwapGoes(x, policy, db);
    var values, worth := Till.Reading(x, policy, db), Least(x.share, Refundable(OriginalNow(x, db).value));
    SwapRow(x, policy, db, OrderAt(x.sale.order));
    SwapRow(x, policy, db, NumberOf(CounterOrders));
    Till.ReadsRows(x, policy, db);
    PaysWith(x, worth);
    MadeAsPlaced(SaleOf(x, worth), LastNumber(Get(values, NumberOf(CounterOrders))) + 1, JobsMade(x, values));
  }

  lemma SoldRow(x: Exchange, policy: Stock.Policy, db: Database, id: nat)
    requires Exchangeable(x, policy, db) && id in Stock.Touched(x.sale.lines)
    ensures id in GoneOut(x, Till.Reading(x, policy, db))
    ensures ShelfNow(Effect(ExchangeRecipe(x, policy), db).0, id) == GoneOut(x, Till.Reading(x, policy, db))[id]
  {
    hide ExchangeRecipe, Effect, Exchangeable, ReturnedOrder, Till.Reading, GoneOut, InvolvedLines, PaidOut, SaleMade,
         CouponRows, Stock.Touched;
    SoldInvolved(x, id);
    SwapRow(x, policy, db, ShelfAt(id));
  }

  lemma SwapAlerts(x: Exchange, policy: Stock.Policy, db: Database, id: nat)
    requires Exchangeable(x, policy, db)
    ensures var after, jobs := Effect(ExchangeRecipe(x, policy), db).0, JobsMade(x, Till.Reading(x, policy, db));
      var low := Stock.Asked(x.sale.lines, id) > 0 &&
                 ShelfNow(after, id).Available() <= ShelfNow(after, id).reorderPoint;
      && Notice !in jobs
      && (low ==> LowStock(id) in jobs) && (PutMarks(x, 0, id) == [] ==> (LowStock(id) in jobs <==> low))
  {
    hide ExchangeRecipe, Effect, Exchangeable, Till.Reading, GoneOut, InvolvedLines, JobsMade, Stock.Touched,
         Stock.Asked, PutMarks, ShelfNow;
    SwapJobs(x, Till.Reading(x, policy, db), id);
    Stock.TouchedIsAsked(x.sale.lines, id);
    if id in Stock.Touched(x.sale.lines) {
      SoldRow(x, policy, db, id);
    }
  }

  lemma SwapSale(x: Exchange, policy: Stock.Policy, db: Database)
    requires Exchangeable(x, policy, db)
    ensures OriginalNow(x, db).Some?
    ensures var after, worth := Effect(ExchangeRecipe(x, policy), db).0,
                                Least(x.share, Refundable(OriginalNow(x, db).value));
      var number := LastNumber(Read(db, NumberOf(CounterOrders))) + 1;
      var made := OrderIn(Read(after, OrderAt(x.sale.order)));
      && Read(after, NumberOf(CounterOrders)) == Some(Counter(number))
      && made.Some? && PlacedAs(made.value, x.sale.(counter := true, tenders := Paying(x, worth)), number)
      && SwapQueued(made.value, x, after)
  {
    hide ExchangeRecipe, Effect, Exchangeable, Till.Reading, JobsMade, Least, Refundable, LastNumber, PlacedAs, Paying,
         Stock.Asked, PutMarks, OriginalNow, ShelfNow;
    SwapRungUp(x, policy, db);
    var after, jobs := Effect(ExchangeRecipe(x, policy), db).0, JobsMade(x, Till.Reading(x, policy, db));
    forall id: nat
      ensures var low := Stock.Asked(x.sale.lines, id) > 0 &&
                         ShelfNow(after, id).Available() <= ShelfNow(after, id).reorderPoint;
        && Notice !in jobs
        && (low ==> LowStock(id) in jobs) && (PutMarks(x, 0, id) == [] ==> (LowStock(id) in jobs <==> low))
    {
      SwapAlerts(x, policy, db, id);
    }
    SwapAlerts(x, policy, db, 0);
  }

  lemma SwapNumbers(x: Exchange, policy: Stock.Policy, db: Database)
    requires Exchangeable(x, policy, db)
    ensures OriginalNow(x, db).Some?
    ensures var after := Effect(ExchangeRecipe(x, policy), db).0;
      && Read(after, ReturnAt(x.returned)) ==
           Some(AReturn(Return(x.original, x.drawer, Least(x.share, Refundable(OriginalNow(x, db).value)))))
      && Read(after, NumberOf(Returns)) == Some(Counter(LastNumber(Read(db, NumberOf(Returns))) + 1))
      && Read(after, ExchangeAt(x.token)) == Some(Claimed(Exchanged(x.sale.order, x.returned)))
  {
    hide ExchangeRecipe, Effect, Exchangeable, ReturnedOrder, Till.Reading, GoneOut, InvolvedLines, PaidOut, SaleMade,
         Least, Refundable, LastNumber, CouponRows;
    SwapRow(x, policy, db, ReturnAt(x.returned));
    SwapRow(x, policy, db, NumberOf(Returns));
    SwapRow(x, policy, db, ExchangeAt(x.token));
    Till.ReadsRows(x, policy, db);
  }

  /** The rows an exchange may change. */
  predicate SwapsRow(x: Exchange, k: Key) {
    || k in {OrderAt(x.original), OrderAt(x.sale.order), ReturnAt(x.returned), ExchangeAt(x.token), NumberOf(Returns),
             NumberOf(CounterOrders)}
    || k.ShelfAt? || k.AccountAt? || (k.CouponAt? && x.sale.coupon == Some(k.coupon))
  }

  lemma SwapLeavesRow(x: Exchange, policy: Stock.Policy, db: Database, k: Key)
    requires Exchangeable(x, policy, db) && !SwapsRow(x, k)
    ensures Read(Effect(ExchangeRecipe(x, policy), db).0, k) == Read(db, k)
  {
    hide ExchangeRecipe, Effect, Exchangeable, ReturnedOrder, Till.Reading, GoneOut, InvolvedLines, PaidOut, SaleMade,
         Least, Refundable, LastNumber, WellMade, Keys, Goes;
    ExchangeWellMade(x, policy);
    if IsClaim(k) {
      SwapGoes(x, policy, db);
      SwapLocksNoClaim(x, policy, k);
      LeavesRow(ExchangeRecipe(x, policy), db, k);
    } else {
      SwapRow(x, policy, db, k);
    }
  }

  lemma SwapLocksNoClaim(x: Exchange, policy: Stock.Policy, k: Key)
    requires IsClaim(k)
    ensures k !in Keys(ExchangeRecipe(x, policy))
  {
    hide ExchangeKeys;
    assert Keys(ExchangeRecipe(x, policy)) == ExchangeKeys(x);
    if k in ExchangeKeys(x) {
      Exchanges.NoClaims(x, k);
    }
  }

  lemma SwapMade(x: Exchange, policy: Stock.Policy, db: Database)
    requires Exchangeable(x, policy, db)
    ensures Effect(ExchangeRecipe(x, policy), db).1 == Made(Exchanged(x.sale.order, x.returned))
  {
    hide ExchangeEnds, ExchangeWrites, Exchangeable, Keys, Snapshot, HasRead, ValuesOk, Effect;
    SwapGoes(x, policy, db);
    EffectGoes(ExchangeRecipe(x, policy), db);
    ExchangeIsRecorded(x, policy, Till.Reading(x, policy, db));
  }

  lemma SwapAnswered(x: Exchange, policy: Stock.Policy, db: Database)
    requires ShopOk(policy, db) && CouponsTally(db)
    ensures var (after, answer) := Effect(ExchangeRecipe(x, policy), db);
      if ExchangeAt(x.token) in db then
        after == db && db[ExchangeAt(x.token)].Claimed? && answer == Made(db[ExchangeAt(x.token)].document)
      else if StopsExchange(None, x, policy, db) then answer == Made(Exchanged(x.sale.order, x.returned))
      else after == db && answer.Refused? && StopsExchange(Some(answer.why), x, policy, db)
  {
    hide ExchangeEnds, ExchangeWrites, StopsExchange, CouponsTally, ShopOk, Keys, Snapshot, Effect;
    var c := ExchangeRecipe(x, policy);
    if ExchangeAt(x.token) in db {
      KeyAnswers(x, policy, db);
      EffectStops(c, db);
    } else if StopsExchange(None, x, policy, db) {
      SwapMade(x, policy, db);
    } else {
      ExchangeIsStopped(x, policy, db);
      EffectStops(c, db);
    }
  }

  lemma KeyAnswers(x: Exchange, policy: Stock.Policy, db: Database)
    requires ShopOk(policy, db) && ExchangeAt(x.token) in db
    ensures db[ExchangeAt(x.token)].Claimed?
    ensures ExchangeRecipe(x, policy).check(Snapshot(Keys(ExchangeRecipe(x, policy)), db)) ==
            Some(Made(db[ExchangeAt(x.token)].document))
  {
    hide ExchangeWrites, ExchangeKeys, PayObjection, CountedBack, InvolvedLines, Keys, Snapshot;
    Till.ReadsRows(x, policy, db);
    assert RowOk(policy, ExchangeAt(x.token), db[ExchangeAt(x.token)]);
    var values := Till.Reading(x, policy, db);
    assert ExchangeEnds(x, policy, values) == Some(Retold(values[ExchangeAt(x.token)].value));
  }

  /** An exchange is made, once for its key, if and only if the original order has left the shop and no line of it has
      more back in all than was sold; the new goods are there, those put back among them; the coupon has a use left;
      and the tenders, what came back first, come to exactly the total and leave the drawer the refund. What came back
      is worth what it was sold for and no more than may still be refunded. Made, the order has that much more
      refunded and the units counted back, each shelf is up by what was put back and down by what was sold, each
      account has what was tendered to it, and the drawer the refund less; refused, nothing is changed. */
  lemma ExchangeAnswers(x: Exchange, policy: Stock.Policy, db: Database)
    requires ShopOk(policy, db) && CouponsTally(db)
    ensures var (after, answer), original := Effect(ExchangeRecipe(x, policy), db), OriginalNow(x, db);
      if ExchangeAt(x.token) in db then
        after == db && db[ExchangeAt(x.token)].Claimed? && answer == Made(db[ExchangeAt(x.token)].document)
      else if !StopsExchange(None, x, policy, db) then
        after == db && answer.Refused? && StopsExchange(Some(answer.why), x, policy, db)
      else
        && original.Some? && answer == Made(Exchanged(x.sale.order, x.returned))
        && var worth := Least(x.share, Refundable(original.value));
        var number := LastNumber(Read(db, NumberOf(CounterOrders))) + 1;
        var made := OrderIn(Read(after, OrderAt(x.sale.order)));
        && Read(after, ExchangeAt(x.token)) == Some(Claimed(Exchanged(x.sale.order, x.returned)))
        && Read(after, ReturnAt(x.returned)) == Some(AReturn(Return(x.original, x.drawer, worth)))
        && Read(after, NumberOf(Returns)) == Some(Counter(LastNumber(Read(db, NumberOf(Returns))) + 1))
        && Read(after, NumberOf(CounterOrders)) == Some(Counter(number))
        && OriginalNow(x, after).Some? && BroughtBack(original.value, OriginalNow(x, after).value, x.back, worth)
        && made.Some? && PlacedAs(made.value, x.sale.(counter := true, tenders := Paying(x, worth)), number)
        && SwapQueued(made.value, x, after)
        && (forall id: nat :: ShelfSwapped(x, ShelfNow(db, id), ShelfNow(after, id), id))
        && (forall account: nat ::
              AccountIn(Read(after, AccountAt(account))) ==
              AccountSwapped(x, worth, account, AccountIn(Read(db, AccountAt(account)))))
        && (forall coupon: nat ::
              CouponNow(after, coupon) ==
              if x.sale.coupon == Some(coupon) && CouponNow(db, coupon).Some? then
                Some(UsedBy(CouponNow(db, coupon).value, x.sale.order, x.sale.customer))
              else CouponNow(db, coupon))
        && forall k: Key | !SwapsRow(x, k) :: Read(after, k) == Read(db, k)
  {
    hide Effect, ExchangeRecipe, StopsExchange, BroughtBack, PlacedAs, SwapQueued, ShelfSwapped, AccountSwapped,
         CouponNow, SwapsRow, Least, Refundable, LastNumber, ShelfNow, ShopOk, CouponsTally, Paying, OriginalNow;
    SwapAnswered(x, policy, db);
    if ExchangeAt(x.token) !in db && StopsExchange(None, x, policy, db) {
      SwapOriginal(x, policy, db);
      SwapSale(x, policy, db);
      SwapNumbers(x, policy, db);
      forall id: nat
        ensures ShelfSwapped(x, ShelfNow(db, id), ShelfNow(Effect(ExchangeRecipe(x, policy), db).0, id), id)
      {
        SwapShelf(x, policy, db, id);
      }
      forall account: nat
        ensures AccountIn(Read(Effect(ExchangeRecipe(x, policy), db).0, AccountAt(account))) ==
                AccountSwapped(x, Least(x.share, Refundable(OriginalNow(x, db).value)), account,
                               AccountIn(Read(db, AccountAt(account))))
      {
        SwapAccount(x, policy, db, account);
      }
      forall coupon: nat
        ensures CouponNow(Effect(ExchangeRecipe(x, policy), db).0, coupon) ==
                if x.sale.coupon == Some(coupon) && CouponNow(db, coupon).Some? then
                  Some(UsedBy(CouponNow(db, coupon).value, x.sale.order, x.sale.customer))
                else CouponNow(db, coupon)
      {
        SwapCoupon(x, policy, db, coupon);
      }
      forall k: Key | !SwapsRow(x, k) ensures Read(Effect(ExchangeRecipe(x, policy), db).0, k) == Read(db, k) {
        SwapLeavesRow(x, policy, db, k);
      }
    }
  }

  // ---- What that says of the drawer and the shelves -----------------------------------------

  lemma {:induction false} AllToOne(tenders: seq<Tender>, account: nat)
    requires forall i :: 0 <= i < |tenders| ==> tenders[i].account == account
    ensures Tendered(tenders, account) == InAll(tenders)
  {
    if tenders != [] {
      assert forall i :: 0 <= i < |tenders[1..]| ==> tenders[1..][i] == tenders[i + 1];
      AllToOne(tenders[1..], account);
    }
  }

  /** They come to the total. */
  lemma PaysExactly(x: Exchange, policy: Stock.Policy, db: Database)
    requires StopsExchange(None, x, policy, db)
    ensures OriginalNow(x, db).Some?
    ensures InAll(Paying(x, Least(x.share, Refundable(OriginalNow(x, db).value)))) == x.sale.total
  {
    hide InAll, Paying, NewGoodsAreThere, SomeClosed, RefundStops, CouponSays, CouponNow, WithinSold, Least, Refundable;
  }

  /** Paid in cash, an exchange that goes leaves the drawer with the sale's total more, less what came back: the lesser
      of what it was sold for and what was paid and not yet refunded. The return is recorded for exactly that, and
      the original order has as much more refunded, and never more than was paid. */
  lemma DrawerMovesByDifference(x: Exchange, policy: Stock.Policy, db: Database)
    requires ShopOk(policy, db) && CouponsTally(db) && ExchangeAt(x.token) !in db
    requires Effect(ExchangeRecipe(x, policy), db).1.Made?
    requires forall i :: 0 <= i < |x.sale.tenders| ==> x.sale.tenders[i].account == x.drawer
    ensures OriginalNow(x, db).Some?
    ensures var after, o := Effect(ExchangeRecipe(x, policy), db).0, OriginalNow(x, db).value;
      var left := if o.paid - o.refunded > 0 then o.paid - o.refunded else 0;
      var worth := if x.share < left then x.share else left;
      && Read(after, ReturnAt(x.returned)) == Some(AReturn(Return(x.original, x.drawer, worth)))
      && OriginalNow(x, after).Some?
      && OriginalNow(x, after).value.refunded == o.refunded + worth <= o.paid == OriginalNow(x, after).value.paid
      && var drawer := AccountIn(Read(db, AccountAt(x.drawer)));
         drawer.Some? ==>
           AccountIn(Read(after, AccountAt(x.drawer))).Some? &&
           AccountIn(Read(after, AccountAt(x.drawer))).value.balance == drawer.value.balance + x.sale.total - worth
  {
    hide Effect, ExchangeRecipe, StopsExchange, ShopOk, CouponsTally, InAll, Tendered, Receipts;
    SwapAnswered(x, policy, db);
    SwapOriginal(x, policy, db);
    SwapNumbers(x, policy, db);
    SwapAccount(x, policy, db, x.drawer);
    PaysExactly(x, policy, db);
    OriginalIsOk(x, policy, db);
    var o := OriginalNow(x, db).value;
    AllToOne(Paying(x, Least(x.share, Refundable(o))), x.drawer);
  }

  /** Each shelf is up by what was put back on it and down by what was sold from it, and holds what it held. */
  lemma ShelvesMoveByDifference(x: Exchange, policy: Stock.Policy, db: Database, id: nat)
    requires ShopOk(policy, db) && CouponsTally(db) && ExchangeAt(x.token) !in db
    requires Effect(ExchangeRecipe(x, policy), db).1.Made?
    ensures var before, after := ShelfNow(db, id), ShelfNow(Effect(ExchangeRecipe(x, policy), db).0, id);
      && after.onHand == before.onHand + PutOn(x, 0, id) - Stock.Asked(x.sale.lines, id)
      && after.reserved == before.reserved
  {
    hide Effect, ExchangeRecipe, StopsExchange, ShopOk, CouponsTally, PutOn, PutMarks, Stock.Asked, ShelfNow, Marks;
    SwapAnswered(x, policy, db);
    SwapShelf(x, policy, db, id);
  }
}
