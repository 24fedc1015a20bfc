/** Damaged goods customers brought back, sent on to the supplier they came from: each credited
    once, whichever supplier order it is sent on. */
module SupplierReturns {
  import opened Wrappers
  import opened RowLocks
  import opened LockOrder
  import opened Recipes
  import opened Runs
  import opened Shop
  import opened Tallies
  import opened CashBook
  import Stock = StockLedger

  /** A returned item, and the line of the supplier order it goes back on. */
  datatype SentLine = SentLine(item: nat, at: nat)

  datatype Sending = Sending(order: nat, lines: seq<SentLine>, token: Option<Token>)

  predicate NamedTwice(lines: seq<SentLine>) {
    exists i, j :: 0 <= i < j < |lines| && lines[i].item == lines[j].item
  }

  function SendingFault(s: Sending): Option<Refusal> {
    if s.lines == [] then Some(NoLines) else if NamedTwice(s.lines) then Some(WrongItem) else None
  }

  /** The items, lowest id first. */
  function ItemIds(lines: seq<SentLine>): seq<nat> {
    Stock.Ids(seq(|lines|, i requires 0 <= i < |lines| => Stock.Line(lines[i].item, 1)))
  }

  function ItemKeys(ids: seq<nat>): seq<Key> {
    seq(|ids|, i requires 0 <= i < |ids| => ReturnedItemAt(ids[i]))
  }

  function SupplierOrderOf(values: Values, id: nat): Option<SupplierOrder> {
    var row := Get(values, SupplierOrderAt(id));
    if row.Some? && row.value.ASupplierOrder? then Some(row.value.supplierOrder) else None
  }

  function ItemOf(values: Values, id: nat): Option<ReturnedItem> {
    var row := Get(values, ReturnedItemAt(id));
    if row.Some? && row.value.AReturnedItem? then Some(row.value.item) else None
  }

  /** One line's checks, in turn, against the order with the lines before it already taken. */
  function LineObjection(o: SupplierOrder, line: SentLine, item: Option<ReturnedItem>): Option<Refusal> {
    if item.None? then Some(NoSuchItem)
    else if !item.value.damaged then Some(WrongItem)
    else if !item.value.received then Some(WrongStatus)
    else if item.value.sentOn.Some? then Some(AlreadySent)
    else if item.value.branch != o.branch then Some(WrongItem)
    else if line.at >= |o.items| || o.items[line.at].variant != item.value.variant then Some(WrongItem)
    else if item.value.quantity > o.items[line.at].received - o.items[line.at].returned then Some(NotReturnable)
    else None
  }

  /** The line's units counted back, and their cost credited. */
  function Credited(o: SupplierOrder, line: SentLine, item: ReturnedItem): SupplierOrder
    requires line.at < |o.items|
  {
    var bought := o.items[line.at];
    o.(items := o.items[line.at := bought.(returned := bought.returned + item.quantity)],
       credited := o.credited + bought.unitCost * item.quantity,
       credits := o.credits + [SupplierCredit(line.item, line.at, item.quantity, bought.unitCost * item.quantity)])
  }

  datatype SendResult = Sent(order: SupplierOrder) | Stopped(why: Refusal)

  function SendLines(o: SupplierOrder, lines: seq<SentLine>, values: Values): SendResult
    decreases |lines|
  {
    if lines == [] then Sent(o)
    else
      match LineObjection(o, lines[0], ItemOf(values, lines[0].item))
      case Some(why) => Stopped(why)
      case None => SendLines(Credited(o, lines[0], ItemOf(values, lines[0].item).value), lines[1..], values)
  }

  function SendingObjection(s: Sending, values: Values): Option<Refusal> {
    match SupplierOrderOf(values, s.order)
    case None => Some(NoSuchOrder)
    case Some(o) =>
      if !o.open then Some(NothingReceived)
      else match SendLines(o, s.lines, values)
        case Sent(_) => None
        case Stopped(why) => Some(why)
  }

  /** The items marked as sent on this order. */
  function ItemRows(lines: seq<SentLine>, order: nat, values: Values): (rows: Database)
    ensures forall k :: k in rows ==> k.ReturnedItemAt? && rows[k].AReturnedItem?
  {
    if lines == [] then map[]
    else
      var rest := ItemRows(lines[1..], order, values);
      match ItemOf(values, lines[0].item)
      case None => rest
      case Some(item) => rest[ReturnedItemAt(lines[0].item) := AReturnedItem(item.(sentOn := Some(order)))]
  }

  function SendingWrites(s: Sending, values: Values): (Database, Answer) {
    var o, number := SupplierOrderOf(values, s.order), LastNumber(Get(values, NumberOf(SupplierReturns))) + 1;
    if o.None? || SendLines(o.value, s.lines, values).Stopped? then (map[], Unchanged)
    else
      (ItemRows(s.lines, s.order, values)
         [SupplierOrderAt(s.order) := ASupplierOrder(SendLines(o.value, s.lines, values).order)]
         [NumberOf(SupplierReturns) := Counter(number)],
       Made(SentBack(number)))
  }

  /** The supplier order locked, then the items, lowest id first; the key looked up under those
      locks, the lines checked, a number taken and the key claimed. */
  function SendingRecipe(s: Sending): ShopRecipe {
    Recipe(
      if s.token.Some? then Some(SupplierReturnClaim(s.token.value)) else None, false,
      Refuse(SendingFault(s)),
      [SupplierOrderAt(s.order)] + ItemKeys(ItemIds(s.lines)), true, [NumberOf(SupplierReturns)], [],
      (values: Values) => Refuse(SendingObjection(s, values)),
      (values: Values) => SendingWrites(s, values),
      Retold, Recorded)
  }

  // ---- It is well made ----------------------------------------------------------------

  lemma ItemIsLocked(lines: seq<SentLine>, i: nat)
    requires i < |lines|
    ensures ReturnedItemAt(lines[i].item) in ItemKeys(ItemIds(lines))
  {
    var asked := seq(|lines|, i requires 0 <= i < |lines| => Stock.Line(lines[i].item, 1));
    Stock.IdsAscend(asked);
    AskedFor(asked, i);
    Stock.TouchedIsAsked(asked, lines[i].item);
    var j :| 0 <= j < |ItemIds(lines)| && ItemIds(lines)[j] == lines[i].item;
    assert ItemKeys(ItemIds(lines))[j] == ReturnedItemAt(lines[i].item);
  }

  lemma {:induction false} AskedFor(lines: seq<Stock.Line>, i: nat)
    requires i < |lines| && lines[i].quantity > 0
    ensures Stock.Asked(lines, lines[i].shelf) > 0
  {
    if i > 0 {
      AskedFor(lines[1..], i - 1);
    }
  }

  lemma {:induction false} ItemRowOf(lines: seq<SentLine>, order: nat, values: Values, k: Key)
    requires k in ItemRows(lines, order, values)
    ensures exists i :: 0 <= i < |lines| && k == ReturnedItemAt(lines[i].item)
    ensures ItemOf(values, k.item).Some?
    ensures ItemRows(lines, order, values)[k] == AReturnedItem(ItemOf(values, k.item).value.(sentOn := Some(order)))
  {
    if k != ReturnedItemAt(lines[0].item) || ItemOf(values, lines[0].item).None? {
      ItemRowOf(lines[1..], order, values, k);
      var i :| 0 <= i < |lines[1..]| && k == ReturnedItemAt(lines[1..][i].item);
      assert lines[i + 1] == lines[1..][i];
    }
  }

  lemma {:induction false} SameLines(o: SupplierOrder, lines: seq<SentLine>, some: Values, more: Values)
    requires forall i :: 0 <= i < |lines| ==> ItemOf(some, lines[i].item) == ItemOf(more, lines[i].item)
    ensures SendLines(o, lines, some) == SendLines(o, lines, more)
    decreases |lines|
  {
    if lines != [] && LineObjection(o, lines[0], ItemOf(some, lines[0].item)).None? {
      assert forall i :: 0 <= i < |lines[1..]| ==> lines[1..][i] == lines[i + 1];
      SameLines(Credited(o, lines[0], ItemOf(some, lines[0].item).value), lines[1..], some, more);
    }
  }

  lemma SendingAsksFirst(s: Sending)
    ensures AsksFirst(SendingRecipe(s))
  {
    var c := SendingRecipe(s);
    forall some, more | Grows(some, more) && some.Keys == (set k | k in c.before)
      ensures c.check(more) == c.check(some)
    {
      assert c.before[0] == SupplierOrderAt(s.order) && SupplierOrderAt(s.order) in some;
      forall i | 0 <= i < |s.lines| ensures ItemOf(some, s.lines[i].item) == ItemOf(more, s.lines[i].item) {
        ItemIsLocked(s.lines, i);
        assert ReturnedItemAt(s.lines[i].item) in c.before;
      }
      var o := SupplierOrderOf(some, s.order);
      if o.Some? {
        SameLines(o.value, s.lines, some, more);
      }
    }
  }

  lemma SendingLocks(s: Sending, values: Values, k: Key)
    requires k in SendingWrites(s, values).0
    ensures k in Keys(SendingRecipe(s))
  {
    if k.ReturnedItemAt? {
      ItemRowOf(s.lines, s.order, values, k);
      var i :| 0 <= i < |s.lines| && k == ReturnedItemAt(s.lines[i].item);
      ItemIsLocked(s.lines, i);
    }
  }

  lemma SendingWellMade(s: Sending)
    ensures WellMade(SendingRecipe(s), IsClaim)
  {
    hide SendingWrites, SendingObjection, ItemIds;
    var c := SendingRecipe(s);
    SendingAsksFirst(s);
    AskingFirstSettles(c);
    forall values, k | k in c.write(values).0 ensures k in Keys(c) {
      SendingLocks(s, values, k);
    }
  }

  lemma SendingOrdered(s: Sending)
    ensures Ordered(ToRequest(SendingRecipe(s)), RankOf)
  {
    hide ItemIds;
    var c, ids := SendingRecipe(s), ItemIds(s.lines);
    ItemIdsAscend(s.lines);
    var keys := InOrder(c);
    assert keys == [SupplierOrderAt(s.order)] + ItemKeys(ids) + [NumberOf(SupplierReturns)] + if c.claim.Some? then
        [c.claim.value] else [];
    forall i, j | 0 <= i < j < |keys| ensures Below(RankOf(keys[i]), RankOf(keys[j])) {
      assert 0 < i <= |ids| ==> keys[i] == ReturnedItemAt(ids[i - 1]);
      assert 0 < j <= |ids| ==> keys[j] == ReturnedItemAt(ids[j - 1]);
    }
    RecipeIsOrdered(c, RankOf);
  }

  lemma ItemIdsAscend(lines: seq<SentLine>)
    ensures Stock.Ascending(ItemIds(lines))
  {
    Stock.IdsAscend(seq(|lines|, i requires 0 <= i < |lines| => Stock.Line(lines[i].item, 1)));
  }

  // ---- Never more back than came ------------------------------------------------------

  /** One more credit, one line's units more. */
  lemma CreditAdds(credits: seq<SupplierCredit>, one: SupplierCredit, at: nat)
    ensures UnitsOn(credits + [one], at) == UnitsOn(credits, at) + if one.at == at then one.quantity else 0
    ensures Amount(credits + [one]) == Amount(credits) + one.amount
  {
    assert (credits + [one])[..|credits|] == credits;
  }

  lemma CreditedOk(o: SupplierOrder, line: SentLine, item: ReturnedItem)
    requires SupplierOrderOk(o) && LineObjection(o, line, Some(item)).None?
    ensures SupplierOrderOk(Credited(o, line, item))
  {
    hide UnitsOn, Amount;
    var bought := o.items[line.at];
    var one := SupplierCredit(line.item, line.at, item.quantity, bought.unitCost * item.quantity);
    forall i | 0 <= i < |o.items|
      ensures UnitsOn(o.credits + [one], i) == UnitsOn(o.credits, i) + if line.at == i then item.quantity else 0
    {
      CreditAdds(o.credits, one, i);
    }
    CreditAdds(o.credits, one, line.at);
  }

  lemma {:induction false} SendLinesOk(o: SupplierOrder, lines: seq<SentLine>, values: Values)
    requires SupplierOrderOk(o) && SendLines(o, lines, values).Sent?
    ensures SupplierOrderOk(SendLines(o, lines, values).order)
    decreases |lines|
  {
    hide SupplierOrderOk;
    if lines != [] {
      CreditedOk(o, lines[0], ItemOf(values, lines[0].item).value);
      SendLinesOk(Credited(o, lines[0], ItemOf(values, lines[0].item).value), lines[1..], values);
    }
  }

  lemma SendingWritesOk(s: Sending, policy: Stock.Policy, values: Values)
    ensures WritesOk(policy, SendingRecipe(s), values)
  {
    hide SupplierOrderOk, SendLines, ItemRows;
    var o := SupplierOrderOf(values, s.order);
    if ValuesOk(policy, values) && SendingObjection(s, values).None? {
      SendLinesOk(o.value, s.lines, values);
    }
  }

  lemma SendingTallies(s: Sending, policy: Stock.Policy, values: Values)
    ensures TallyKept(policy, SendingRecipe(s), values)
  {
    hide SendLines, ItemRows, Booked, HeldBy, SoldFor, Mentions, Due, ValuesOk, HasRead, SendingObjection,
         Stock.Asked;
    var c := SendingRecipe(s);
    forall k ensures k in c.write(values).0 ==> k.ReturnedItemAt? || k.SupplierOrderAt? || k.NumberOf? {
    }
  }

  // ---- Each credit an item's ----------------------------------------------------------

  predicate Named(lines: seq<SentLine>, item: nat) {
    exists i :: 0 <= i < |lines| && lines[i].item == item
  }

  lemma NamedRest(lines: seq<SentLine>, item: nat)
    requires lines != [] && !NamedTwice(lines)
    ensures !NamedTwice(lines[1..])
    ensures Named(lines, item) <==> lines[0].item == item || Named(lines[1..], item)
    ensures lines[0].item == item ==> !Named(lines[1..], item)
  {
    var rest := lines[1..];
    assert forall i :: 0 <= i < |rest| ==> rest[i] == lines[i + 1];
    if Named(lines, item) {
      var i :| 0 <= i < |lines| && lines[i].item == item;
      assert i > 0 ==> rest[i - 1].item == item;
    }
  }

  /** The lines taken, each item they name has one credit more, of all its units. */
  lemma {:induction false} SendLinesCredit(o: SupplierOrder, lines: seq<SentLine>, values: Values, item: nat,
      measure: Measure)
    requires SendLines(o, lines, values).Sent? && !NamedTwice(lines)
    ensures Named(lines, item) ==> ItemOf(values, item).Some? && ItemOf(values, item).value.sentOn.None?
    ensures CreditsFor(SendLines(o, lines, values).order.credits, item, measure) ==
            CreditsFor(o.credits, item, measure) + if Named(lines, item) then
                Weigh(measure, ItemOf(values, item).value.quantity) else 0
    decreases |lines|
  {
    if lines != [] {
      var row := ItemOf(values, lines[0].item).value;
      var next := Credited(o, lines[0], row);
      assert next.credits[..|o.credits|] == o.credits;
      NamedRest(lines, item);
      SendLinesCredit(next, lines[1..], values, item, measure);
    }
  }

  /** Each row as a send leaves it. */
  lemma SendingAfter(s: Sending, values: Values, order: nat, item: nat)
    requires SupplierOrderOf(values, s.order).Some?
    requires SendLines(SupplierOrderOf(values, s.order).value, s.lines, values).Sent?
    ensures After(SendingRecipe(s), values, SupplierOrderAt(order)) ==
            if order == s.order then
                Some(ASupplierOrder(SendLines(SupplierOrderOf(values, s.order).value, s.lines, values).order))
            else Get(values, SupplierOrderAt(order))
    ensures After(SendingRecipe(s), values, ReturnedItemAt(item)) ==
            if Named(s.lines, item) && ItemOf(values, item).Some? then
              Some(AReturnedItem(ItemOf(values, item).value.(sentOn := Some(s.order))))
            else Get(values, ReturnedItemAt(item))
  {
    hide SendLines, ItemRows;
    var k := ReturnedItemAt(item);
    if k in ItemRows(s.lines, s.order, values) {
      ItemRowOf(s.lines, s.order, values, k);
    }
    if Named(s.lines, item) && ItemOf(values, item).Some? {
      var i :| 0 <= i < |s.lines| && s.lines[i].item == item;
      MarksItems(s.lines, s.order, values, i);
    }
  }

  lemma SendingCredits(s: Sending, policy: Stock.Policy, values: Values)
    ensures CreditsKept(policy, SendingRecipe(s), values)
  {
    hide SendLines, ItemRows, CreditsFor, Named, NamedTwice, ValuesOk, HasRead, SupplierOrderOf, ItemOf, After;
    var c, o := SendingRecipe(s), SupplierOrderOf(values, s.order);
    if c.fault.None? && c.check(values).None? {
      forall order: nat, item: nat, measure: Measure ensures CreditKept(c, values, order, item, measure) {
        SendLinesCredit(o.value, s.lines, values, item, measure);
        SendingAfter(s, values, order, item);
        CreditsOfRow(values, s.order);
        ItemOfRow(values, item);
      }
    }
  }

  lemma CreditsOfRow(values: Values, order: nat)
    requires SupplierOrderOf(values, order).Some?
    ensures CreditsIn(Get(values, SupplierOrderAt(order))) == SupplierOrderOf(values, order).value.credits
  {
  }

  lemma ItemOfRow(values: Values, item: nat)
    ensures ItemOf(values, item).Some? ==>
        Get(values, ReturnedItemAt(item)) == Some(AReturnedItem(ItemOf(values, item).value))
  {
  }

  lemma SendingSure(s: Sending, policy: Stock.Policy)
    ensures Sure(policy, SendingRecipe(s))
  {
    var c := SendingRecipe(s);
    SendingWellMade(s);
    forall values ensures WritesOk(policy, c, values) && TallyKept(policy, c, values) &&
        CreditsKept(policy, c, values) {
      SendingWritesOk(s, policy, values);
      SendingTallies(s, policy, values);
      SendingCredits(s, policy, values);
    }
    ProperWhen(policy, c);
    SureWhen(policy, c);
  }

  // ---- One item, one credit -----------------------------------------------------------

  predicate SendsItem(s: Sending, item: nat) {
    exists i :: 0 <= i < |s.lines| && s.lines[i].item == item
  }

  predicate IsSent(db: Database, item: nat) {
    ReturnedItemAt(item) in db && db[ReturnedItemAt(item)].AReturnedItem? && db[ReturnedItemAt(item)].item.sentOn.Some?
  }

  lemma {:induction false} SentStops(o: SupplierOrder, lines: seq<SentLine>, values: Values, i: nat)
    requires i < |lines| && ItemOf(values, lines[i].item).Some? && ItemOf(values, lines[i].item).value.sentOn.Some?
    ensures SendLines(o, lines, values).Stopped?
    decreases |lines|
  {
    if i > 0 && LineObjection(o, lines[0], ItemOf(values, lines[0].item)).None? {
      SentStops(Credited(o, lines[0], ItemOf(values, lines[0].item).value), lines[1..], values, i - 1);
    }
  }

  lemma {:induction false} MarksItems(lines: seq<SentLine>, order: nat, values: Values, i: nat)
    requires i < |lines| && ItemOf(values, lines[i].item).Some?
    ensures ReturnedItemAt(lines[i].item) in ItemRows(lines, order, values)
  {
    if i > 0 {
      MarksItems(lines[1..], order, values, i - 1);
    }
  }

  lemma {:induction false} SendsKnownItems(o: SupplierOrder, lines: seq<SentLine>, values: Values, i: nat)
    requires i < |lines| && SendLines(o, lines, values).Sent?
    ensures ItemOf(values, lines[i].item).Some?
    decreases |lines|
  {
    if i > 0 {
      SendsKnownItems(Credited(o, lines[0], ItemOf(values, lines[0].item).value), lines[1..], values, i - 1);
    }
  }

  /** A send of an item already sent, under a key of its own, is refused and changes nothing. */
  lemma SentIsRefused(s: Sending, item: nat, db: Database)
    requires SendsItem(s, item) && IsSent(db, item)
    requires s.token.Some? ==> SupplierReturnClaim(s.token.value) !in db
    ensures Effect(SendingRecipe(s), db).0 == db && Effect(SendingRecipe(s), db).1.Refused?
  {
    hide SendLines, SendingWrites;
    var c, values := SendingRecipe(s), Snapshot(Keys(SendingRecipe(s)), db);
    var i :| 0 <= i < |s.lines| && s.lines[i].item == item;
    ItemIsLocked(s.lines, i);
    SnapshotHas(Keys(c), db, ReturnedItemAt(item));
    if SupplierOrderOf(values, s.order).Some? {
      SentStops(SupplierOrderOf(values, s.order).value, s.lines, values, i);
    }
  }

  /** A send that is made leaves its items sent. */
  lemma MadeIsSent(s: Sending, item: nat, db: Database)
    requires SendsItem(s, item) && Effect(SendingRecipe(s), db).1.Made?
    requires s.token.Some? ==> SupplierReturnClaim(s.token.value) !in db
    ensures IsSent(Effect(SendingRecipe(s), db).0, item)
  {
    hide SendLines, ItemRows;
    var c, values := SendingRecipe(s), Snapshot(Keys(SendingRecipe(s)), db);
    var i :| 0 <= i < |s.lines| && s.lines[i].item == item;
    SendsKnownItems(SupplierOrderOf(values, s.order).value, s.lines, values, i);
    MarksItems(s.lines, s.order, values, i);
    ItemRowOf(s.lines, s.order, values, ReturnedItemAt(item));
  }

  function SendingRecipes(sendings: seq<Sending>): seq<ShopRecipe> {
    seq(|sendings|, i requires 0 <= i < |sendings| => SendingRecipe(sendings[i]))
  }

  /** Every send is of the item, under a key nobody has used and no other send uses. */
  ghost predicate SendsOf(item: nat, sendings: seq<Sending>, db: Database) {
    && (forall p :: 0 <= p < |sendings| ==> SendsItem(sendings[p], item))
    && (forall p :: 0 <= p < |sendings| && sendings[p].token.Some? ==>
        SupplierReturnClaim(sendings[p].token.value) !in db)
    && (forall p, q :: 0 <= p < q < |sendings| && sendings[p].token.Some? ==> sendings[p].token != sendings[q].token)
  }

  lemma WritesNoOtherKey(s: Sending, db: Database, token: Token)
    requires SupplierReturnClaim(token) !in db && s.token != Some(token)
    ensures SupplierReturnClaim(token) !in Effect(SendingRecipe(s), db).0
  {
    hide SendLines, ItemRows;
  }

  /** The first to finish sends it; those after change nothing. */
  lemma {:induction false} FirstSends(item: nat, sendings: seq<Sending>, db: Database, order: seq<nat>)
    requires SendsOf(item, sendings, db) && order != [] && Distinct(order)
    requires forall i :: 0 <= i < |order| ==> order[i] < |sendings|
    requires Effect(SendingRecipe(sendings[order[0]]), db).1.Made?
    ensures Replay(ToRequests(SendingRecipes(sendings)), order, db) == Effect(SendingRecipe(sendings[order[0]]), db).0
    ensures |order| > 1 ==>
              Serial(ToRequests(SendingRecipes(sendings))[order[|order| - 1]],
                  Replay(ToRequests(SendingRecipes(sendings)), order[..|order| - 1], db)).1.Refused?
  {
    hide Effect, SendingRecipe, SendsItem, IsSent, Serial, ToRequest, WellMade;
    var reqs, last, rest := ToRequests(SendingRecipes(sendings)), order[|order| - 1], order[..|order| - 1];
    SendingWellMade(sendings[last]);
    if |order| == 1 {
      assert rest == [];
      RecipeSerial(SendingRecipe(sendings[last]), IsClaim, db);
    } else {
      assert rest[0] == order[0];
      FirstSends(item, sendings, db, rest);
      var d := Replay(reqs, rest, db);
      MadeIsSent(sendings[order[0]], item, db);
      if sendings[last].token.Some? {
        WritesNoOtherKey(sendings[order[0]], db, sendings[last].token.value);
      }
      SentIsRefused(sendings[last], item, d);
      RecipeSerial(SendingRecipe(sendings[last]), IsClaim, d);
    }
  }

  /** Any number of sends of one damaged item, on whatever supplier orders, each able to go
      through on its own: one credit, by the first to finish; every other is refused. */
  lemma CreditedOnce(item: nat, sendings: seq<Sending>, db: Database, schedule: seq<nat>)
    requires SendsOf(item, sendings, db)
    requires forall p :: 0 <= p < |sendings| ==> Effect(SendingRecipe(sendings[p]), db).1.Made?
    requires var reqs := ToRequests(SendingRecipes(sendings)); Schedulable(reqs, Start(reqs, db), schedule)
    ensures var s := Outcome(ToRequests(SendingRecipes(sendings)), db, schedule);
      && |s.workers| == |sendings| && (forall i :: 0 <= i < |s.finished| ==> s.finished[i] < |sendings|)
      && (s.finished != [] ==> s.db == Effect(SendingRecipe(sendings[s.finished[0]]), db).0)
      && forall i :: 0 <= i < |s.finished| ==>
           s.workers[s.finished[i]].answer.Some? &&
           (if i == 0 then s.workers[s.finished[i]].answer.value.Made?
               else s.workers[s.finished[i]].answer.value.Refused?)
  {
    hide Effect, SendingRecipe, SendsItem, Outcome;
    var recipes, reqs := SendingRecipes(sendings), ToRequests(SendingRecipes(sendings));
    forall i | 0 <= i < |recipes| ensures WellMade(recipes[i], IsClaim) {
      SendingWellMade(sendings[i]);
    }
    RecipesAreSound(recipes, IsClaim);
    RunIsExplained(reqs, IsClaim, db, schedule);
    var s := Outcome(reqs, db, schedule);
    if s.finished != [] {
      FirstSends(item, sendings, db, s.finished);
    }
    forall i | 0 <= i < |s.finished|
      ensures s.workers[s.finished[i]].answer.Some? &&
        (if i == 0 then s.workers[s.finished[i]].answer.value.Made? else s.workers[s.finished[i]].answer.value.Refused?)
    {
      AnswerInTurn(item, sendings, db, s, i);
    }
  }

  lemma AnswerInTurn(item: nat, sendings: seq<Sending>, db: Database, s: System<Key, Row, Answer>, i: nat)
    requires SendsOf(item, sendings, db)
    requires forall p :: 0 <= p < |sendings| ==> Effect(SendingRecipe(sendings[p]), db).1.Made?
    requires Explained(ToRequests(SendingRecipes(sendings)), db, s) && i < |s.finished|
    ensures s.workers[s.finished[i]].answer.Some? &&
      (if i == 0 then s.workers[s.finished[i]].answer.value.Made? else s.workers[s.finished[i]].answer.value.Refused?)
  {
    hide Effect, SendingRecipe, SendsItem;
    var recipes, reqs, turn := SendingRecipes(sendings), ToRequests(SendingRecipes(sendings)), s.finished[..i + 1];
    assert AnsweredInTurn(reqs, db, s, i);
    assert turn[..i] == s.finished[..i] && turn[0] == s.finished[0];
    if i == 0 {
      SendingWellMade(sendings[s.finished[0]]);
      RecipeSerial(recipes[s.finished[0]], IsClaim, db);
    } else {
      FirstSends(item, sendings, db, turn);
    }
  }
}
