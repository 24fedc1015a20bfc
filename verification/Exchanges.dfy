/** An exchange at the counter: goods come back and new goods go out in one transaction, and the
    cash drawer moves by the difference alone. */
module Exchanges {
  import opened Wrappers
  import opened RowLocks
  import opened LockOrder
  import opened Recipes
  import opened Runs
  import opened Shop
  import opened Tallies
  import opened CashBook
  import opened StockRoom
  import opened Orders
  import Stock = StockLedger
  import Money = MoneyLedger
  import Coupons = CouponBook

  /** So many of one of the original order's lines, put back on the shelf or not. */
  datatype Back = Back(line: nat, quantity: nat, restock: bool)

  /** `lines` are the original order's own; `share` is what the goods coming back were sold for. */
  datatype Exchange = Exchange(
    token: Token,
    original: nat,
    lines: seq<Stock.Line>,
    back: seq<Back>,
    share: nat,
    returned: nat,
    drawer: nat,
    sale: Purchase)

  // ---- The goods coming back ----------------------------------------------------------

  predicate HasLeft(status: Status) {
    status.Shipped? || status.Delivered? || status.ReturnRequested? || status.Returned?
  }

  function ReturnObjection(x: Exchange, o: Order): Option<Refusal> {
    if o.status.Cancelled? || o.status.Refunded? then Some(WrongStatus)
    else if !o.committed && !o.counter then Some(WrongStatus)
    else if !HasLeft(o.status) then Some(WrongStatus)
    else if x.back == [] then Some(NoLines)
    else None
  }

  /** Each line's count of units returned, with these; none if any comes to more than was sold. */
  function CountedBack(lines: seq<Stock.Line>, returned: seq<nat>, back: seq<Back>): (after: Option<seq<nat>>)
    ensures after.Some? ==> |after.value| == |returned|
    decreases |back|
  {
    if back == [] then Some(returned)
    else if back[0].line >= |lines| || back[0].line >= |returned| then None
    else if returned[back[0].line] + back[0].quantity > lines[back[0].line].quantity then None
    else CountedBack(lines, returned[back[0].line := returned[back[0].line] + back[0].quantity], back[1..])
  }

  /** What is to become of a line's goods: the last decision given for it stands for all of them. */
  function Decision(back: seq<Back>, line: nat): bool {
    if back == [] then false
    else
      var last := back[|back| - 1];
      if last.line == line then last.restock else Decision(back[..|back| - 1], line)
  }

  function Decided(back: seq<Back>): (decided: seq<Back>)
    ensures |decided| == |back|
  {
    seq(|back|, i requires 0 <= i < |back| => back[i].(restock := Decision(back, back[i].line)))
  }

  /** What goes back on the shelf, by shelf. */
  function Restocked(lines: seq<Stock.Line>, back: seq<Back>): seq<Stock.Line> {
    if back == [] then []
    else
      (if back[0].restock && back[0].line < |lines| then [Stock.Line(lines[back[0].line].shelf, back[0].quantity)]
          else []) +
      Restocked(lines, back[1..])
  }

  function AllReturned(lines: seq<Stock.Line>, returned: seq<nat>): bool {
    |lines| == |returned| && forall i :: 0 <= i < |lines| ==> returned[i] >= lines[i].quantity
  }

  /** What the goods are worth: what they were sold for, but no more than is still refundable. */
  function Worth(x: Exchange, o: Order): nat {
    if o.paid - o.refunded < x.share then (if o.paid < o.refunded then 0 else o.paid - o.refunded) else x.share
  }

  // ---- The sale, paid for first with what they are worth --------------------------------

  function Credit(x: Exchange, worth: nat): nat {
    if worth < x.sale.total then worth else x.sale.total
  }

  function SaleOf(x: Exchange, worth: nat): Purchase {
    x.sale.(counter := true, tenders := [Tender(x.drawer, Credit(x, worth))] + x.sale.tenders)
  }

  // ---- The rows, locked in this order -------------------------------------------------

  /** A line's shelf, whatever is asked of it. */
  function NameShelves(lines: seq<Stock.Line>): seq<Stock.Line> {
    if lines == [] then [] else [Stock.Line(lines[0].shelf, 1)] + NameShelves(lines[1..])
  }

  function NameReturned(lines: seq<Stock.Line>, back: seq<Back>): seq<Stock.Line> {
    if back == [] then []
    else
      (if back[0].line < |lines| then [Stock.Line(lines[back[0].line].shelf, 1)] else []) +
          NameReturned(lines, back[1..])
  }

  /** The shelves of everything coming back or going out, whatever becomes of it. */
  function InvolvedLines(x: Exchange): seq<Stock.Line> {
    NameReturned(x.lines, x.back) + NameShelves(x.sale.lines)
  }

  /** What an exchange locks after its shelves. */
  function KeysAfterShelves(x: Exchange): seq<Key> {
    [OrderAt(x.original), NumberOf(Returns), ReturnAt(x.returned), NumberOf(CounterOrders), OrderAt(x.sale.order)] +
    CouponKeys(x.sale.coupon) + [AccountAt(x.drawer)] + TenderKeys(Counted(x.sale.tenders))
  }

  function ExchangeKeys(x: Exchange): seq<Key> {
    [ExchangeAt(x.token)] + ShelfKeys(Stock.Ids(InvolvedLines(x))) + KeysAfterShelves(x)
  }

  function Shelves(x: Exchange, values: Values): map<nat, Stock.Shelf> {
    ShelvesOf(values, Stock.Touched(InvolvedLines(x)))
  }

  /** The shelves with the goods put back. */
  function PutBack(x: Exchange, values: Values): (rows: map<nat, Stock.Shelf>)
    ensures rows.Keys == Stock.Touched(InvolvedLines(x))
  {
    RestockedIsInvolved(x);
    Stock.Moved(Shelves(x, values), Restocked(x.lines, Decided(x.back)), Stock.Return, true,
        Stock.ForReturn(x.returned))
  }

  /** And with the new goods gone. */
  function GoneOut(x: Exchange, values: Values): (rows: map<nat, Stock.Shelf>)
    ensures rows.Keys == Stock.Touched(InvolvedLines(x))
  {
    SoldIsInvolved(x);
    Stock.Moved(PutBack(x, values), x.sale.lines, Stock.Sale, false, Stock.ForOrder(x.sale.order))
  }

  lemma {:induction false} TouchedInParts(a: seq<Stock.Line>, b: seq<Stock.Line>)
    ensures Stock.Touched(a + b) == Stock.Touched(a) + Stock.Touched(b)
  {
    if a == [] {
      assert a + b == b;
    } else {
      assert (a + b)[1..] == a[1..] + b;
      TouchedInParts(a[1..], b);
    }
  }

  lemma {:induction false} BackTouches(lines: seq<Stock.Line>, back: seq<Back>)
    ensures Stock.Touched(Restocked(lines, back)) <= Stock.Touched(NameReturned(lines, back))
  {
    if back != [] {
      BackTouches(lines, back[1..]);
      TouchedInParts(if back[0].line < |lines| then [Stock.Line(lines[back[0].line].shelf, 1)]
          else [], NameReturned(lines, back[1..]));
      TouchedInParts(
        if back[0].restock && back[0].line < |lines| then [Stock.Line(lines[back[0].line].shelf, back[0].quantity)]
            else [],
        Restocked(lines, back[1..]));
    }
  }

  lemma {:induction false} SameNames(lines: seq<Stock.Line>, a: seq<Back>, b: seq<Back>)
    requires |a| == |b| && forall i :: 0 <= i < |a| ==> a[i].line == b[i].line
    ensures NameReturned(lines, a) == NameReturned(lines, b)
  {
    if a != [] {
      SameNames(lines, a[1..], b[1..]);
    }
  }

  lemma {:induction false} SaleTouches(lines: seq<Stock.Line>)
    ensures Stock.Touched(lines) <= Stock.Touched(NameShelves(lines))
  {
    if lines != [] {
      SaleTouches(lines[1..]);
      TouchedInParts([Stock.Line(lines[0].shelf, 1)], NameShelves(lines[1..]));
    }
  }

  lemma RestockedIsInvolved(x: Exchange)
    ensures Stock.Touched(Restocked(x.lines, Decided(x.back))) <= Stock.Touched(InvolvedLines(x))
  {
    BackTouches(x.lines, Decided(x.back));
    SameNames(x.lines, Decided(x.back), x.back);
    TouchedInParts(NameReturned(x.lines, x.back), NameShelves(x.sale.lines));
  }

  lemma SoldIsInvolved(x: Exchange)
    ensures Stock.Touched(x.sale.lines) <= Stock.Touched(InvolvedLines(x))
  {
    SaleTouches(x.sale.lines);
    TouchedInParts(NameReturned(x.lines, x.back), NameShelves(x.sale.lines));
  }

  // ---- The money ----------------------------------------------------------------------

  function Tills(x: Exchange, worth: nat): set<nat> {
    {x.drawer} + Payees(Tenders(SaleOf(x, worth)))
  }

  /** The accounts once the sale is paid for. */
  function PaidIn(x: Exchange, worth: nat, values: Values): map<nat, Money.Account> {
    Banked(AccountsOf(values, Tills(x, worth)), Tenders(SaleOf(x, worth)), x.sale.order)
  }

  /** And once the goods that came back are refunded. */
  function PaidOut(x: Exchange, worth: nat, values: Values): map<nat, Money.Account> {
    var accounts := PaidIn(x, worth, values);
    if worth == 0 || x.drawer !in accounts then accounts
    else accounts[x.drawer := Money.Post(accounts[x.drawer], Money.Refund, -(worth as int), Money.OfReturn(x.returned))]
  }

  // ---- Its checks ---------------------------------------------------------------------

  function SaleObjection(x: Exchange, policy: Stock.Policy, values: Values): Option<Refusal> {
    var ids := Stock.Ids(x.sale.lines);
    Stock.IdsAscend(x.sale.lines);
    SoldIsInvolved(x);
    if Stock.CanSell(policy, PutBack(x, values), ids, x.sale.lines) then None else Some(InsufficientStock)
  }

  function RefundObjection(x: Exchange, worth: nat, values: Values): Option<Refusal> {
    var accounts := PaidIn(x, worth, values);
    if worth == 0 then None
    else if x.drawer !in accounts then Some(NoSuchAccount)
    else Objection(Some(accounts[x.drawer]), -(worth as int))
  }

  function ExchangeEnds(x: Exchange, policy: Stock.Policy, values: Values): Option<Answer> {
    if ExchangeAt(x.token) !in values then None
    else if values[ExchangeAt(x.token)].Some? then Some(Retold(values[ExchangeAt(x.token)].value))
    else if OrderAt(x.original) !in values || !HasShelves(values, Stock.Ids(InvolvedLines(x))) then None
    else
      match OrderIn(values[OrderAt(x.original)])
      case None => Some(Refused(NoSuchOrder))
      case Some(o) =>
        if o.lines != x.lines then Some(Refused(NoSuchOrder))
        else if ReturnObjection(x, o).Some? then Refuse(ReturnObjection(x, o))
        else if ReturnAt(x.returned) !in values then None
        else if values[ReturnAt(x.returned)].Some? then Some(Refused(DuplicateId))
        else if CountedBack(o.lines, o.returned, x.back).None? then Some(Refused(NotReturnable))
        else if OrderAt(x.sale.order) !in values then None
        else if values[OrderAt(x.sale.order)].Some? then Some(Refused(DuplicateId))
        else Refuse(PayObjection(x, policy, Worth(x, o), values))
  }

  function PayObjection(x: Exchange, policy: Stock.Policy, worth: nat, values: Values): Option<Refusal> {
    var p := SaleOf(x, worth);
    if SaleObjection(x, policy, values).Some? then SaleObjection(x, policy, values)
    else if p.coupon.Some? && CouponAt(p.coupon.value) !in values then None
    else if p.coupon.Some? && CouponObjection(p.coupon.value, p.order, p.customer, values).Some? then
      CouponObjection(p.coupon.value, p.order, p.customer, values)
    else if TenderObjection(Tenders(p), values).Some? then TenderObjection(Tenders(p), values)
    else if !HasAccounts(values, Tenders(p)) || AccountAt(x.drawer) !in values then None
    else if TenderSum(Tenders(p)) < p.total then Some(Underpaid)
    else if TenderSum(Tenders(p)) > p.total then Some(Overpaid)
    else RefundObjection(x, worth, values)
  }

  // ---- What it writes -----------------------------------------------------------------

  function JobsMade(x: Exchange, values: Values): seq<Job> {
    RestockedIsInvolved(x);
    SoldIsInvolved(x);
    Alerts(Shelves(x, values), Restocked(x.lines, Decided(x.back)), Stock.Return, true, Stock.ForReturn(x.returned)) +
    Alerts(PutBack(x, values), x.sale.lines, Stock.Sale, false, Stock.ForOrder(x.sale.order))
  }

  /** The original order once the goods are back and the money for them given. */
  function ReturnedOrder(x: Exchange, o: Order): Order {
    var counted := CountedBack(o.lines, o.returned, x.back);
    var returned := if counted.Some? then counted.value else o.returned;
    var status := if o.status.Delivered? || o.status.Shipped? then ReturnRequested else o.status;
    o.(returned := returned, refunded := o.refunded + Worth(x, o),
       status := if status.ReturnRequested? && AllReturned(o.lines, returned) then Refunded else status)
  }

  function SaleMade(x: Exchange, worth: nat, values: Values): Order {
    OrderWith(SaleOf(x, worth), LastNumber(Get(values, NumberOf(CounterOrders))) + 1, JobsMade(x, values))
  }

  function ExchangeWrites(x: Exchange, values: Values): (Database, Answer) {
    match OrderIn(Get(values, OrderAt(x.original)))
    case None => (map[], Unchanged)
    case Some(o) =>
      var worth, made := Worth(x, o), Exchanged(x.sale.order, x.returned);
      ((ShelfRows(GoneOut(x, values)) + AccountRows(PaidOut(x, worth, values)) + CouponRows(SaleOf(x, worth), values))
         [OrderAt(x.original) := AnOrder(ReturnedOrder(x, o))]
         [NumberOf(Returns) := Counter(LastNumber(Get(values, NumberOf(Returns))) + 1)]
         [ReturnAt(x.returned) := AReturn(Return(x.original, x.drawer, worth))]
         [NumberOf(CounterOrders) := Counter(SaleMade(x, worth, values).number)]
         [OrderAt(x.sale.order) := AnOrder(SaleMade(x, worth, values))]
         [ExchangeAt(x.token) := Claimed(made)],
       Made(made))
  }

  /** The key held first; a press that finds the exchange made is answered with it. */
  function ExchangeRecipe(x: Exchange, policy: Stock.Policy): ShopRecipe {
    Recipe(
      None, false, None,
      [], false, [], ExchangeKeys(x),
      (values: Values) => ExchangeEnds(x, policy, values),
      (values: Values) => ExchangeWrites(x, values),
      Retold, Recorded)
  }

  function ExchangeKeysOn(x: Exchange, db: Database): seq<Key> {
    Shelving([ExchangeAt(x.token)], InvolvedLines(x), KeysAfterShelves(x), db)
  }

  /** The exchange as it is made of these rows: shelves that are not there are made first. */
  function ExchangeOn(x: Exchange, policy: Stock.Policy, db: Database): ShopRecipe {
    Locking(ExchangeRecipe(x, policy), ExchangeKeysOn(x, db))
  }

  lemma ExchangeOnHas(x: Exchange, policy: Stock.Policy, db: Database, k: Key)
    ensures k in ExchangeOn(x, policy, db).after <==> k in ExchangeRecipe(x, policy).after
  {
    hide ShelfKeys, Stock.Ids, InvolvedLines, Counted, TenderKeys, CouponKeys, Shelving;
    ShelvingHas([ExchangeAt(x.token)], InvolvedLines(x), KeysAfterShelves(x), db, k);
  }

  // ---- It is well made ----------------------------------------------------------------

  lemma SameGoods(x: Exchange, policy: Stock.Policy, some: Values, more: Values)
    requires Grows(some, more) && HasShelves(some, Stock.Ids(InvolvedLines(x)))
    ensures HasShelves(more, Stock.Ids(InvolvedLines(x)))
    ensures SaleObjection(x, policy, some) == SaleObjection(x, policy, more)
  {
    forall id | id in Stock.Touched(InvolvedLines(x)) ensures ShelfOf(some, id) == ShelfOf(more, id) {
      ShelfRead(InvolvedLines(x), some, id);
    }
    assert Shelves(x, some) == Shelves(x, more);
  }

  lemma {:induction false} PayeeIsRead(tenders: seq<Tender>, values: Values, id: nat)
    requires HasAccounts(values, tenders) && id in Payees(tenders)
    ensures AccountAt(id) in values
  {
    if id != tenders[0].account {
      assert HasAccounts(values, tenders[1..]) by {
        assert forall i :: 0 <= i < |tenders[1..]| ==> tenders[1..][i] == tenders[i + 1];
      }
      PayeeIsRead(tenders[1..], values, id);
    }
  }

  lemma SameTills(x: Exchange, worth: nat, some: Values, more: Values)
    requires Grows(some, more) && HasAccounts(some, Tenders(SaleOf(x, worth))) && AccountAt(x.drawer) in some
    ensures PaidIn(x, worth, some) == PaidIn(x, worth, more)
  {
    hide Banked, Tenders;
    forall id | id in Tills(x, worth) ensures AccountOf(some, id) == AccountOf(more, id) {
      if id != x.drawer {
        PayeeIsRead(Tenders(SaleOf(x, worth)), some, id);
      }
    }
    assert AccountsOf(some, Tills(x, worth)) == AccountsOf(more, Tills(x, worth));
  }

  lemma PayFirm(x: Exchange, policy: Stock.Policy, worth: nat, some: Values, more: Values)
    requires Grows(some, more) && HasShelves(some, Stock.Ids(InvolvedLines(x)))
    requires PayObjection(x, policy, worth, some).Some?
    ensures PayObjection(x, policy, worth, more) == PayObjection(x, policy, worth, some)
  {
    hide SaleObjection, TenderObjection, PaidIn, Tenders, TenderSum, Coupons.Redeem;
    var p := SaleOf(x, worth);
    SameGoods(x, policy, some, more);
    TenderFirm(Tenders(p), some, more);
    if HasAccounts(some, Tenders(p)) {
      SameAccounts(Tenders(p), some, more);
      if AccountAt(x.drawer) in some {
        SameTills(x, worth, some, more);
      }
    }
    assert p.coupon.Some? && CouponAt(p.coupon.value) in some ==>
      CouponOf(some, p.coupon.value) == CouponOf(more, p.coupon.value);
  }

  lemma ExchangeFirm(x: Exchange, policy: Stock.Policy, some: Values, more: Values)
    requires Grows(some, more) && ExchangeEnds(x, policy, some).Some?
    ensures ExchangeEnds(x, policy, more) == ExchangeEnds(x, policy, some)
  {
    hide PayObjection, CountedBack;
    if HasShelves(some, Stock.Ids(InvolvedLines(x))) {
      SameGoods(x, policy, some, more);
      if OrderAt(x.original) in some && OrderIn(some[OrderAt(x.original)]).Some? {
        var worth := Worth(x, OrderIn(some[OrderAt(x.original)]).value);
        if PayObjection(x, policy, worth, some).Some? {
          PayFirm(x, policy, worth, some, more);
        }
      }
    }
  }

  /** Each row as the exchange leaves it. */
  lemma ExchangeAfter(x: Exchange, policy: Stock.Policy, values: Values, k: Key)
    requires OrderIn(Get(values, OrderAt(x.original))).Some? && x.original != x.sale.order
    ensures var o := OrderIn(Get(values, OrderAt(x.original))).value;
      var worth := Worth(x, o);
      After(ExchangeRecipe(x, policy), values, k) ==
        if k == OrderAt(x.original) then Some(AnOrder(ReturnedOrder(x, o)))
        else if k == OrderAt(x.sale.order) then Some(AnOrder(SaleMade(x, worth, values)))
        else if k == ReturnAt(x.returned) then Some(AReturn(Return(x.original, x.drawer, worth)))
        else if k.ShelfAt? && k.shelf in Stock.Touched(InvolvedLines(x)) then Some(AShelf(GoneOut(x, values)[k.shelf]))
        else if k.AccountAt? && k.account in PaidOut(x, worth, values) then
            Some(AnAccount(PaidOut(x, worth, values)[k.account]))
        else if k.CouponAt? && k in CouponRows(SaleOf(x, worth), values) then
            Some(CouponRows(SaleOf(x, worth), values)[k])
        else if k == ExchangeAt(x.token) then Some(Claimed(Exchanged(x.sale.order, x.returned)))
        else if k == NumberOf(Returns) then Some(Counter(LastNumber(Get(values, k)) + 1))
        else if k == NumberOf(CounterOrders) then Some(Counter(SaleMade(x, worth, values).number))
        else Get(values, k)
  {
    hide GoneOut, PaidOut, SaleMade, ReturnedOrder, Worth, ShelfRows, AccountRows, InvolvedLines;
  }

  lemma ExchangeWritten(x: Exchange, values: Values, k: Key)
    requires k in ExchangeWrites(x, values).0
    ensures OrderIn(Get(values, OrderAt(x.original))).Some?
    ensures var worth := Worth(x, OrderIn(Get(values, OrderAt(x.original))).value);
      || k in {OrderAt(x.original), OrderAt(x.sale.order), ReturnAt(x.returned), ExchangeAt(x.token),
          NumberOf(Returns), NumberOf(CounterOrders)}
      || (k.ShelfAt? && k.shelf in Stock.Touched(InvolvedLines(x)))
      || (k.AccountAt? && k.account in Tills(x, worth) && k.account in PaidOut(x, worth, values))
      || (k.CouponAt? && Some(k.coupon) == x.sale.coupon && k in CouponRows(SaleOf(x, worth), values))
  {
    hide GoneOut, SaleMade, ReturnedOrder, Worth, ShelfRows, AccountRows, InvolvedLines, Tills;
  }

  lemma {:induction false} PayeesOfSale(x: Exchange, worth: nat)
    ensures Tills(x, worth) == {x.drawer} + Payees(Counted(x.sale.tenders))
  {
    var first := Tender(x.drawer, Credit(x, worth));
    var all := SaleOf(x, worth).tenders;
    assert all[0] == first && all[1..] == x.sale.tenders;
    var rest := Counted(x.sale.tenders);
    if first.amount > 0 {
      assert Counted(all) == [first] + rest;
      assert ([first] + rest)[1..] == rest;
    } else {
      assert Counted(all) == rest;
    }
  }

  lemma ExchangeLocks(x: Exchange, policy: Stock.Policy, values: Values, k: Key)
    requires k in ExchangeWrites(x, values).0
    ensures k in ExchangeKeys(x)
  {
    ExchangeWritten(x, values, k);
    hide ExchangeWrites, InvolvedLines, Counted, PaidOut, CouponRows, Tills, Worth;
    var worth := Worth(x, OrderIn(Get(values, OrderAt(x.original))).value);
    var five := [OrderAt(x.original), NumberOf(Returns), ReturnAt(x.returned), NumberOf(CounterOrders),
        OrderAt(x.sale.order)];
    assert five[0] in five && five[1] in five && five[2] in five && five[3] in five && five[4] in five;
    if k.ShelfAt? {
      Stock.IdsAscend(InvolvedLines(x));
      ShelfKeyIn(Stock.Ids(InvolvedLines(x)), k.shelf);
    } else if k.AccountAt? {
      PayeesOfSale(x, worth);
      if k.account != x.drawer {
        TenderKeyIn(Counted(x.sale.tenders), k.account);
      }
    }
  }

  lemma ExchangeWellMade(x: Exchange, policy: Stock.Policy)
    ensures WellMade(ExchangeRecipe(x, policy), IsClaim)
  {
    hide ExchangeWrites, ExchangeEnds;
    var c := ExchangeRecipe(x, policy);
    assert Keys(c) == ExchangeKeys(x);
    forall k | k in ExchangeKeys(x) ensures !IsClaim(k) {
      NoClaims(x, k);
    }
    forall values, k | k in c.write(values).0 ensures k in Keys(c) {
      ExchangeLocks(x, policy, values, k);
    }
    forall some, more | Grows(some, more) && c.check(some).Some? ensures c.check(more) == c.check(some) {
      ExchangeFirm(x, policy, some, more);
    }
    FirmSettles(c);
  }

  lemma NoClaims(x: Exchange, k: Key)
    requires k in ExchangeKeys(x)
    ensures !IsClaim(k)
  {
    hide InvolvedLines, Stock.Ids, Counted;
    if k in ShelfKeys(Stock.Ids(InvolvedLines(x))) {
      InShelfKeys(Stock.Ids(InvolvedLines(x)), k);
    }
  }

  // ---- With its rows read and nothing to end it ------------------------------------------

  ghost predicate Goes(x: Exchange, policy: Stock.Policy, values: Values) {
    ValuesOk(policy, values) && HasRead(ExchangeRecipe(x, policy), values) && ExchangeEnds(x, policy, values).None?
  }

  lemma ExchangeRead(x: Exchange, policy: Stock.Policy, values: Values)
    requires Goes(x, policy, values)
    ensures ValuesOk(policy, values)
    ensures OrderAt(x.original) in values && OrderIn(values[OrderAt(x.original)]).Some? && x.original != x.sale.order
    ensures OrderAt(x.sale.order) in values && values[OrderAt(x.sale.order)].None?
    ensures ReturnAt(x.returned) in values && values[ReturnAt(x.returned)].None?
    ensures x.sale.coupon.Some? ==> CouponAt(x.sale.coupon.value) in values
    ensures HasShelves(values, Stock.Ids(InvolvedLines(x)))
    ensures var o := OrderIn(values[OrderAt(x.original)]).value;
      && o.lines == x.lines && ReturnObjection(x, o).None? && CountedBack(o.lines, o.returned, x.back).Some?
      && HasAccounts(values, Tenders(SaleOf(x, Worth(x, o)))) && AccountAt(x.drawer) in values
      && PayObjection(x, policy, Worth(x, o), values).None?
  {
    hide CountedBack, PayObjection, InvolvedLines, Tenders, Worth, ReturnObjection, HasRead, ExchangeRecipe,
         ExchangeKeys;
    RowsAreRead(x, policy, values);
    TendersAreRead(x, policy, values, Worth(x, OrderIn(values[OrderAt(x.original)]).value));
  }

  lemma RowsAreRead(x: Exchange, policy: Stock.Policy, values: Values)
    requires HasRead(ExchangeRecipe(x, policy), values)
    ensures ExchangeAt(x.token) in values && OrderAt(x.original) in values && ReturnAt(x.returned) in values
    ensures OrderAt(x.sale.order) in values && AccountAt(x.drawer) in values
    ensures x.sale.coupon.Some? ==> CouponAt(x.sale.coupon.value) in values
    ensures HasShelves(values, Stock.Ids(InvolvedLines(x)))
  {
    hide InvolvedLines, Counted;
    var all, ids := ExchangeKeys(x), Stock.Ids(InvolvedLines(x));
    assert Keys(ExchangeRecipe(x, policy)) == all;
    assert all[0] == ExchangeAt(x.token);
    var five := [OrderAt(x.original), NumberOf(Returns), ReturnAt(x.returned), NumberOf(CounterOrders),
        OrderAt(x.sale.order)];
    assert five[0] in all && five[2] in all && five[4] in all;
    forall i | 0 <= i < |ids| ensures ShelfAt(ids[i]) in values {
      assert ShelfKeys(ids)[i] in all;
    }
    if x.sale.coupon.Some? {
      assert CouponKeys(x.sale.coupon)[0] in all;
    }
    assert AccountAt(x.drawer) in all;
  }

  lemma TendersAreRead(x: Exchange, policy: Stock.Policy, values: Values, worth: nat)
    requires HasRead(ExchangeRecipe(x, policy), values)
    ensures HasAccounts(values, Tenders(SaleOf(x, worth)))
  {
    hide InvolvedLines;
    var tenders := Tenders(SaleOf(x, worth));
    assert Keys(ExchangeRecipe(x, policy)) == ExchangeKeys(x);
    forall i | 0 <= i < |tenders| ensures AccountAt(tenders[i].account) in values {
      PayeeAt(tenders, i);
      PayeesOfSale(x, worth);
      if tenders[i].account != x.drawer {
        TenderKeyIn(Counted(x.sale.tenders), tenders[i].account);
      }
      assert AccountAt(tenders[i].account) in ExchangeKeys(x);
    }
  }

  lemma {:induction false} PayeeAt(tenders: seq<Tender>, i: nat)
    requires i < |tenders|
    ensures tenders[i].account in Payees(tenders)
  {
    if i > 0 {
      PayeeAt(tenders[1..], i - 1);
    }
  }

  // ---- It keeps the shop sound --------------------------------------------------------

  lemma GoodsOk(x: Exchange, policy: Stock.Policy, values: Values)
    requires ValuesOk(policy, values) && SaleObjection(x, policy, values).None?
    ensures Stock.AllOk(policy, GoneOut(x, values))
  {
    var rows, ids := PutBack(x, values), Stock.Ids(x.sale.lines);
    Stock.IdsAscend(x.sale.lines);
    SoldIsInvolved(x);
    forall id | id in rows && Stock.Asked(x.sale.lines, id) > 0 && !policy.oversell
      ensures Stock.Asked(x.sale.lines, id) <= rows[id].onHand
    {
      Stock.TouchedIsAsked(x.sale.lines, id);
      assert id in ids;
      var i :| 0 <= i < |ids| && ids[i] == id;
    }
    hide PutBack, SaleObjection, Stock.ShelfOk, Stock.Asked, Stock.Touched;
    PutBackOk(x, policy, values);
    Stock.MovingKeepsOk(policy, rows, x.sale.lines, Stock.Sale, false, Stock.ForOrder(x.sale.order));
  }

  lemma PutBackOk(x: Exchange, policy: Stock.Policy, values: Values)
    requires ValuesOk(policy, values)
    ensures Stock.AllOk(policy, PutBack(x, values))
  {
    hide Stock.ShelfOk, Stock.Touched, InvolvedLines, Restocked;
    forall id | id in Shelves(x, values) ensures Stock.ShelfOk(policy, Shelves(x, values)[id]) {
      ShelfOfOk(policy, values, id);
    }
    RestockedIsInvolved(x);
    Stock.MovingKeepsOk(policy, Shelves(x, values), Restocked(x.lines, Decided(x.back)), Stock.Return, true,
        Stock.ForReturn(x.returned));
  }

  lemma TillsOk(x: Exchange, policy: Stock.Policy, worth: nat, values: Values)
    requires ValuesOk(policy, values) && RefundObjection(x, worth, values).None?
    ensures forall id :: id in PaidOut(x, worth, values) ==> Money.AccountOk(PaidOut(x, worth, values)[id])
  {
    hide Money.AccountOk, Banked, Tills, Tenders;
    PaidInOk(x, policy, worth, values);
    if worth > 0 {
      Money.PostKeepsOk(PaidIn(x, worth, values)[x.drawer], Money.Refund, -(worth as int), Money.OfReturn(x.returned));
    }
  }

  lemma PaidInOk(x: Exchange, policy: Stock.Policy, worth: nat, values: Values)
    requires ValuesOk(policy, values)
    ensures forall id :: id in PaidIn(x, worth, values) ==> Money.AccountOk(PaidIn(x, worth, values)[id])
  {
    hide Banked, Tills, Tenders;
    BankedOk(AccountsOf(values, Tills(x, worth)), Tenders(SaleOf(x, worth)), x.sale.order);
  }

  lemma {:induction false} CountedOk(lines: seq<Stock.Line>, returned: seq<nat>, back: seq<Back>)
    requires |returned| == |lines| && forall i :: 0 <= i < |lines| ==> returned[i] <= lines[i].quantity
    requires CountedBack(lines, returned, back).Some?
    ensures forall i :: 0 <= i < |lines| ==> CountedBack(lines, returned, back).value[i] <= lines[i].quantity
    decreases |back|
  {
    if back != [] {
      CountedOk(lines, returned[back[0].line := returned[back[0].line] + back[0].quantity], back[1..]);
    }
  }

  lemma OriginalOk(x: Exchange, policy: Stock.Policy, values: Values)
    requires Goes(x, policy, values)
    ensures OrderIn(Get(values, OrderAt(x.original))).Some?
    ensures OrderOk(ReturnedOrder(x, OrderIn(Get(values, OrderAt(x.original))).value))
  {
    hide CountedBack, PayObjection, ExchangeEnds, InvolvedLines, ReturnObjection;
    ExchangeRead(x, policy, values);
    OriginalHasLeft(x, policy, values);
    var o := OrderIn(Get(values, OrderAt(x.original))).value;
    assert RowOk(policy, OrderAt(x.original), values[OrderAt(x.original)].value);
    CountedOk(o.lines, o.returned, x.back);
  }

  lemma ExchangeRowOk(x: Exchange, policy: Stock.Policy, values: Values, k: Key)
    requires Goes(x, policy, values) && k in ExchangeWrites(x, values).0
    ensures RowOk(policy, k, ExchangeWrites(x, values).0[k])
  {
    hide Goes, GoneOut, PaidOut, CouponRows, ReturnedOrder, ExchangeWrites, Stock.ShelfOk, Money.AccountOk,
         Coupons.CouponOk, Worth, SaleObjection, CouponObjection, TenderObjection, RefundObjection, ReturnObjection,
         Tenders, InvolvedLines;
    ExchangeRead(x, policy, values);
    var worth := Worth(x, OrderIn(Get(values, OrderAt(x.original))).value);
    ExchangeAfter(x, policy, values, k);
    ExchangeWritten(x, values, k);
    GoodsAndTillsOk(x, policy, values, worth);
    OriginalOk(x, policy, values);
    if k.CouponAt? {
      ExchangeCouponOk(x, policy, values, worth, k);
    }
  }

  lemma GoodsAndTillsOk(x: Exchange, policy: Stock.Policy, values: Values, worth: nat)
    requires ValuesOk(policy, values) && PayObjection(x, policy, worth, values).None?
    requires HasAccounts(values, Tenders(SaleOf(x, worth))) && AccountAt(x.drawer) in values
    requires x.sale.coupon.Some? ==> CouponAt(x.sale.coupon.value) in values
    ensures Stock.AllOk(policy, GoneOut(x, values))
    ensures forall id :: id in PaidOut(x, worth, values) ==> Money.AccountOk(PaidOut(x, worth, values)[id])
  {
    hide GoneOut, PaidOut, Stock.ShelfOk, Money.AccountOk, SaleObjection, CouponObjection, TenderObjection,
         RefundObjection;
    GoodsOk(x, policy, values);
    TillsOk(x, policy, worth, values);
  }

  lemma ExchangeCouponOk(x: Exchange, policy: Stock.Policy, values: Values, worth: nat, k: Key)
    requires ValuesOk(policy, values) && k in CouponRows(SaleOf(x, worth), values)
    ensures RowOk(policy, k, CouponRows(SaleOf(x, worth), values)[k])
  {
    hide CouponRows;
    PurchaseCouponOk(SaleOf(x, worth), policy, values, k);
  }

  lemma ExchangeWritesOk(x: Exchange, policy: Stock.Policy, values: Values)
    ensures WritesOk(policy, ExchangeRecipe(x, policy), values)
  {
    hide ExchangeWrites, RowOk, ExchangeEnds;
    var c := ExchangeRecipe(x, policy);
    if Goes(x, policy, values) {
      forall k | k in c.write(values).0 ensures RowOk(policy, k, c.write(values).0[k]) {
        ExchangeRowOk(x, policy, values, k);
      }
    }
  }

  // ---- Its documents and ledgers tally ------------------------------------------------

  /** What the exchange adds to an account on a document's behalf: the sale's tenders, the refund. */
  function Moves(x: Exchange, worth: nat, account: nat, cause: Money.Cause, measure: Measure): int {
    (if cause == Money.OfSale(x.sale.order) then TenderedTo(Tenders(SaleOf(x, worth)), account, measure) else 0) +
    (if cause == Money.OfReturn(x.returned) && account == x.drawer && worth > 0 then Weigh(measure, -(worth as int))
        else 0)
  }

  lemma PaidInBooks(x: Exchange, worth: nat, values: Values, account: nat, cause: Money.Cause, measure: Measure)
    requires HasAccounts(values, Tenders(SaleOf(x, worth))) && TenderObjection(Tenders(SaleOf(x, worth)), values).None?
    ensures account in PaidIn(x, worth, values) <==> account in Tills(x, worth) && AccountOf(values, account).Some?
    ensures account in PaidIn(x, worth, values) ==>
              Booked(Some(AnAccount(PaidIn(x, worth, values)[account])), cause, measure) ==
              Booked(Get(values, AccountAt(account)), cause, measure) +
              if cause == Money.OfSale(x.sale.order) then TenderedTo(Tenders(SaleOf(x, worth)), account, measure) else 0
    ensures account !in PaidIn(x, worth, values) ==> TenderedTo(Tenders(SaleOf(x, worth)), account, measure) == 0
  {
    hide Booked, Tenders, TenderObjection, HasAccounts, Banked, Payees, TenderedTo;
    var tenders, accounts := Tenders(SaleOf(x, worth)), AccountsOf(values, Tills(x, worth));
    if account in accounts {
      BankedBooks(accounts, tenders, x.sale.order, account, cause, measure);
    } else {
      if account in Payees(tenders) {
        PayeeIsOpen(tenders, values, account);
      }
      NothingTendered(tenders, account, measure);
    }
  }

  lemma PaidOutBooks(x: Exchange, worth: nat, values: Values, account: nat, cause: Money.Cause, measure: Measure)
    requires HasAccounts(values, Tenders(SaleOf(x, worth))) && TenderObjection(Tenders(SaleOf(x, worth)), values).None?
    requires RefundObjection(x, worth, values).None?
    ensures PaidOut(x, worth, values).Keys == PaidIn(x, worth, values).Keys
    ensures account in PaidOut(x, worth, values) ==>
              Booked(Some(AnAccount(PaidOut(x, worth, values)[account])), cause, measure) ==
              Booked(Get(values, AccountAt(account)), cause, measure) + Moves(x, worth, account, cause, measure)
    ensures account !in PaidOut(x, worth, values) ==> Moves(x, worth, account, cause, measure) == 0
  {
    hide Booked, Tenders, TenderObjection, HasAccounts, PaidIn, TenderedTo, Tills;
    PaidInBooks(x, worth, values, account, cause, measure);
    if worth > 0 {
      PostedBooks(PaidIn(x, worth, values)[x.drawer], Money.Refund, -(worth as int), Money.OfReturn(x.returned),
          cause, measure);
    }
  }

  /** The rows read tally, as far as they go, and nothing ends the exchange. */
  ghost predicate GoesTallying(x: Exchange, policy: Stock.Policy, values: Values) {
    Goes(x, policy, values) && ValuesTally(values)
  }

  function OriginalOf(x: Exchange, values: Values): Option<Order> {
    OrderIn(Get(values, OrderAt(x.original)))
  }

  lemma ExchangeAccount(x: Exchange, policy: Stock.Policy, values: Values, account: nat, cause: Money.Cause,
      measure: Measure)
    requires Goes(x, policy, values)
    ensures OriginalOf(x, values).Some?
    ensures Booked(After(ExchangeRecipe(x, policy), values, AccountAt(account)), cause, measure) ==
            Booked(Get(values, AccountAt(account)), cause, measure) +
            Moves(x, Worth(x, OriginalOf(x, values).value), account, cause, measure)
  {
    hide ExchangeRecipe, Booked, Tenders, TenderObjection, HasAccounts, PaidOut, Moves, Worth, Goes, SaleObjection,
         RefundObjection, CouponObjection, InvolvedLines, ReturnObjection;
    ExchangeRead(x, policy, values);
    ExchangeAfter(x, policy, values, AccountAt(account));
    PaidOutBooks(x, Worth(x, OriginalOf(x, values).value), values, account, cause, measure);
  }

  lemma ExchangeDocument(x: Exchange, policy: Stock.Policy, values: Values, account: nat, cause: Money.Cause,
      measure: Measure)
    requires Goes(x, policy, values) && Documented(cause)
    ensures OriginalOf(x, values).Some?
    ensures Due(After(ExchangeRecipe(x, policy), values, DocumentOf(cause)), account, measure) ==
            Due(Get(values, DocumentOf(cause)), account, measure) +
            Moves(x, Worth(x, OriginalOf(x, values).value), account, cause, measure)
  {
    hide ExchangeRecipe, Tenders, TenderedTo, Worth, Goes, PayObjection, InvolvedLines, ReturnObjection, GoneOut,
         PaidOut, CouponRows, CountedBack;
    ExchangeRead(x, policy, values);
    ExchangeAfter(x, policy, values, DocumentOf(cause));
  }

  lemma ExchangeMoney(x: Exchange, policy: Stock.Policy, values: Values, account: nat, cause: Money.Cause,
      measure: Measure)
    requires Goes(x, policy, values) && Documented(cause)
    ensures MoneyKept(ExchangeRecipe(x, policy), values, account, cause, measure)
  {
    hide ExchangeRecipe, Booked, Due, DocumentOf, After, Moves, Goes, Worth;
    ExchangeAccount(x, policy, values, account, cause, measure);
    ExchangeDocument(x, policy, values, account, cause, measure);
  }

  /** Goods back and goods out leave every hold as it was. */
  lemma ExchangeShelf(x: Exchange, policy: Stock.Policy, values: Values, shelf: nat, order: nat)
    requires Goes(x, policy, values)
    ensures HeldBy(ShelfIn(After(ExchangeRecipe(x, policy), values, ShelfAt(shelf))).ledger, order) ==
            HeldBy(ShelfIn(Get(values, ShelfAt(shelf))).ledger, order)
    ensures SoldFor(ShelfIn(After(ExchangeRecipe(x, policy), values, ShelfAt(shelf))).ledger, order) ==>
            SoldFor(ShelfIn(Get(values, ShelfAt(shelf))).ledger, order) || order == x.sale.order
    ensures Mentions(ShelfIn(After(ExchangeRecipe(x, policy), values, ShelfAt(shelf))).ledger, order) ==>
            Mentions(ShelfIn(Get(values, ShelfAt(shelf))).ledger, order) || order == x.sale.order
  {
    hide ExchangeRecipe, HeldBy, SoldFor, Mentions, Stock.Touched, Stock.Moved, PaidOut, CouponRows, InvolvedLines,
         Goes, Restocked, PayObjection, Worth, ReturnObjection;
    ExchangeRead(x, policy, values);
    ExchangeAfter(x, policy, values, ShelfAt(shelf));
    if shelf in Stock.Touched(InvolvedLines(x)) {
      RestockedIsInvolved(x);
      SoldIsInvolved(x);
      MovedHolds(Shelves(x, values), Restocked(x.lines, Decided(x.back)), Stock.Return, true,
          Stock.ForReturn(x.returned), shelf, order);
      MovedHolds(PutBack(x, values), x.sale.lines, Stock.Sale, false, Stock.ForOrder(x.sale.order), shelf, order);
    }
  }

  lemma OriginalHasLeft(x: Exchange, policy: Stock.Policy, values: Values)
    requires Goes(x, policy, values)
    ensures OriginalOf(x, values).Some? && OriginalOf(x, values).value.committed
    ensures HasLeft(OriginalOf(x, values).value.status)
  {
    hide PayObjection, InvolvedLines, CountedBack, Worth, HasAccounts, Tenders;
    ExchangeRead(x, policy, values);
    assert RowOk(policy, OrderAt(x.original), values[OrderAt(x.original)].value);
  }

  lemma ExchangeHold(x: Exchange, policy: Stock.Policy, values: Values, shelf: nat, order: nat)
    requires Goes(x, policy, values)
    ensures HoldKept(ExchangeRecipe(x, policy), values, shelf, order)
  {
    hide ExchangeRecipe, HeldBy, SoldFor, Mentions, Stock.Asked, PaidOut, CouponRows, GoneOut, InvolvedLines, Goes,
         PayObjection, Worth, CountedBack, Tenders;
    ExchangeRead(x, policy, values);
    OriginalHasLeft(x, policy, values);
    ExchangeShelf(x, policy, values, shelf, order);
    ExchangeAfter(x, policy, values, OrderAt(order));
  }

  /** What the sale adds to a coupon's uses. */
  lemma ExchangeCoupon(x: Exchange, policy: Stock.Policy, values: Values, coupon: nat, order: nat)
    requires GoesTallying(x, policy, values)
    ensures var before := RedemptionsIn(Get(values, CouponAt(coupon)));
      var after := RedemptionsIn(After(ExchangeRecipe(x, policy), values, CouponAt(coupon)));
      && Coupons.LiveOf(after, order) ==
         Coupons.LiveOf(before, order) + (if order == x.sale.order && x.sale.coupon == Some(coupon) then 1 else 0)
      && (Coupons.Names(after, order) ==> Coupons.Names(before, order) || order == x.sale.order)
  {
    hide ExchangeRecipe, Coupons.LiveOf, Coupons.Names, Coupons.Redeem, GoneOut, PaidOut, Goes, Worth, InvolvedLines,
         SaleObjection, TenderObjection, RefundObjection, Tenders, HasAccounts, ReturnObjection, CountedBack;
    ExchangeRead(x, policy, values);
    ExchangeAfter(x, policy, values, CouponAt(coupon));
    if x.sale.coupon == Some(coupon) {
      assert UseRead(values, coupon, x.sale.order);
      RedeemedUse(CouponOf(values, coupon).value, x.sale.order, x.sale.customer, order);
    }
  }

  lemma ExchangeUse(x: Exchange, policy: Stock.Policy, values: Values, coupon: nat, order: nat)
    requires GoesTallying(x, policy, values)
    ensures UseKept(ExchangeRecipe(x, policy), values, coupon, order)
  {
    hide ExchangeRecipe, Coupons.LiveOf, Coupons.Names, GoneOut, PaidOut, CouponRows, Goes, Worth, InvolvedLines,
         PayObjection, CountedBack, Tenders;
    ExchangeRead(x, policy, values);
    OriginalHasLeft(x, policy, values);
    ExchangeCoupon(x, policy, values, coupon, order);
    ExchangeAfter(x, policy, values, OrderAt(order));
  }

  lemma ExchangeTallies(x: Exchange, policy: Stock.Policy, values: Values)
    ensures TallyKept(policy, ExchangeRecipe(x, policy), values)
  {
    hide ExchangeWrites, MoneyKept, HoldKept, UseKept, ExchangeEnds;
    var c := ExchangeRecipe(x, policy);
    if GoesTallying(x, policy, values) {
      forall account: nat, cause: Money.Cause, measure: Measure | Documented(cause)
        ensures MoneyKept(c, values, account, cause, measure)
      {
        ExchangeMoney(x, policy, values, account, cause, measure);
      }
      forall shelf: nat, order: nat ensures HoldKept(c, values, shelf, order) {
        ExchangeHold(x, policy, values, shelf, order);
      }
      forall coupon: nat, order: nat ensures UseKept(c, values, coupon, order) {
        ExchangeUse(x, policy, values, coupon, order);
      }
    }
  }

  lemma ExchangeSparesCredits(x: Exchange, policy: Stock.Policy)
    ensures SparesCredits(ExchangeRecipe(x, policy))
  {
    hide InvolvedLines, Counted, Stock.Ids;
    assert Keys(ExchangeRecipe(x, policy)) == ExchangeKeys(x);
    forall k | k in ExchangeKeys(x) ensures !k.SupplierOrderAt? && !k.ReturnedItemAt? {
    }
  }

  lemma ExchangeSure(x: Exchange, policy: Stock.Policy)
    ensures Sure(policy, ExchangeRecipe(x, policy))
  {
    hide ExchangeRecipe, WritesOk, TallyKept, SparesCredits, WellMade;
    var c := ExchangeRecipe(x, policy);
    ExchangeWellMade(x, policy);
    forall values ensures WritesOk(policy, c, values) && TallyKept(policy, c, values) {
      ExchangeWritesOk(x, policy, values);
      ExchangeTallies(x, policy, values);
    }
    ProperWhen(policy, c);
    ExchangeSparesCredits(x, policy);
    SureWhen(policy, c);
  }

  // ---- What is recorded under its key --------------------------------------------------

  lemma ExchangeIsRecorded(x: Exchange, policy: Stock.Policy, values: Values)
    requires HasRead(ExchangeRecipe(x, policy), values) && ExchangeEnds(x, policy, values).None?
    ensures var (writes, answer) := ExchangeWrites(x, values);
      answer == Made(Exchanged(x.sale.order, x.returned)) && ExchangeAt(x.token) in writes &&
      writes[ExchangeAt(x.token)] == Claimed(Exchanged(x.sale.order, x.returned))
  {
    hide PayObjection, GoneOut, PaidOut, CouponRows, SaleMade, ReturnedOrder, InvolvedLines, ShelfRows, AccountRows;
    RowsAreRead(x, policy, values);
  }
}
