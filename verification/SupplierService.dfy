/** Damaged goods sent back, statement by statement: every line checked with what the lines before it
    take counted, then every line written. */
module SupplierService {
  import opened Wrappers
  import opened RowLocks
  import opened Recipes
  import opened Shop
  import opened CashBook
  import opened SupplierReturns
  import opened Backend
  import Stock = StockLedger

  function HeldSupplierOrder(db: Database, id: nat): Option<SupplierOrder> {
    var row := Read(db, SupplierOrderAt(id));
    if row.Some? && row.value.ASupplierOrder? then Some(row.value.supplierOrder) else None
  }

  function HeldItem(db: Database, id: nat): Option<ReturnedItem> {
    var row := Read(db, ReturnedItemAt(id));
    if row.Some? && row.value.AReturnedItem? then Some(row.value.item) else None
  }

  function SendingKey(s: Sending): Option<Key> {
    if s.token.Some? then Some(SupplierReturnClaim(s.token.value)) else None
  }

  lemma SendingReads(s: Sending, db: Database)
    ensures var values := Snapshot(Keys(SendingRecipe(s)), db);
      && SupplierOrderOf(values, s.order) == HeldSupplierOrder(db, s.order)
      && (forall i :: 0 <= i < |s.lines| ==> ItemOf(values, s.lines[i].item) == HeldItem(db, s.lines[i].item))
      && Get(values, NumberOf(SupplierReturns)) == Read(db, NumberOf(SupplierReturns))
  {
    hide ItemIds, Snapshot;
    var c := SendingRecipe(s);
    assert c.before[0] == SupplierOrderAt(s.order) && c.between[0] == NumberOf(SupplierReturns);
    SnapshotHas(Keys(c), db, SupplierOrderAt(s.order));
    SnapshotHas(Keys(c), db, NumberOf(SupplierReturns));
    forall i | 0 <= i < |s.lines|
      ensures ItemOf(Snapshot(Keys(c), db), s.lines[i].item) == HeldItem(db, s.lines[i].item)
    {
      ItemIsLocked(s.lines, i);
      assert ReturnedItemAt(s.lines[i].item) in Keys(c);
      SnapshotHas(Keys(c), db, ReturnedItemAt(s.lines[i].item));
    }
  }

  /** The lines taken in turn, each checked against the order with those before it credited. */
  function Sends(o: SupplierOrder, lines: seq<SentLine>, db: Database): SendResult
    decreases |lines|
  {
    if lines == [] then Sent(o)
    else
      match LineObjection(o, lines[0], HeldItem(db, lines[0].item))
      case Some(why) => Stopped(why)
      case None => Sends(Credited(o, lines[0], HeldItem(db, lines[0].item).value), lines[1..], db)
  }

  lemma {:induction false} SendsAsRead(o: SupplierOrder, lines: seq<SentLine>, values: Values, db: Database)
    requires forall i :: 0 <= i < |lines| ==> ItemOf(values, lines[i].item) == HeldItem(db, lines[i].item)
    ensures SendLines(o, lines, values) == Sends(o, lines, db)
    decreases |lines|
  {
    if lines != [] && LineObjection(o, lines[0], HeldItem(db, lines[0].item)).None? {
      assert forall i :: 0 <= i < |lines[1..]| ==> lines[1..][i] == lines[i + 1];
      SendsAsRead(Credited(o, lines[0], HeldItem(db, lines[0].item).value), lines[1..], values, db);
    }
  }

  function SendingStops(s: Sending, db: Database): Option<Refusal> {
    match HeldSupplierOrder(db, s.order)
    case None => Some(NoSuchOrder)
    case Some(o) =>
      if !o.open then Some(NothingReceived)
      else match Sends(o, s.lines, db)
        case Sent(_) => None
        case Stopped(why) => Some(why)
  }

  lemma SendingEnds(s: Sending, db: Database)
    ensures Ends(SendingRecipe(s), db) ==
        if SendingFault(s).Some? then Refuse(SendingFault(s))
        else if Found(SendingKey(s), db).Some? then Found(SendingKey(s), db)
        else Refuse(SendingStops(s, db))
  {
    hide Keys, Snapshot, SupplierOrderOf, ItemOf, HeldItem, HeldSupplierOrder, Sends, SendLines, SendingFault;
    SendingReads(s, db);
    var o := HeldSupplierOrder(db, s.order);
    if o.Some? {
      SendsAsRead(o.value, s.lines, Snapshot(Keys(SendingRecipe(s)), db), db);
    }
  }

  /** The items marked as sent on this order. */
  function MarkedRows(lines: seq<SentLine>, order: nat, db: Database): (rows: Database)
    ensures forall k :: k in rows ==> k.ReturnedItemAt?
  {
    if lines == [] then map[]
    else
      var rest := MarkedRows(lines[1..], order, db);
      match HeldItem(db, lines[0].item)
      case None => rest
      case Some(item) => rest[ReturnedItemAt(lines[0].item) := AReturnedItem(item.(sentOn := Some(order)))]
  }

  lemma {:induction false} MarkedAsRead(lines: seq<SentLine>, order: nat, values: Values, db: Database)
    requires forall i :: 0 <= i < |lines| ==> ItemOf(values, lines[i].item) == HeldItem(db, lines[i].item)
    ensures ItemRows(lines, order, values) == MarkedRows(lines, order, db)
  {
    if lines != [] {
      assert forall i :: 0 <= i < |lines[1..]| ==> lines[1..][i] == lines[i + 1];
      MarkedAsRead(lines[1..], order, values, db);
    }
  }

  function SendingNumber(db: Database): nat {
    LastNumber(Read(db, NumberOf(SupplierReturns))) + 1
  }

  function SendingRows(s: Sending, o: SupplierOrder, db: Database): Database {
    (Claiming(db[NumberOf(SupplierReturns) := Counter(SendingNumber(db))], SendingKey(s), SentBack(SendingNumber(db))) +
     MarkedRows(s.lines, s.order, db))
      [SupplierOrderAt(s.order) := ASupplierOrder(o)]
  }

  lemma SendingWrote(s: Sending, db: Database)
    requires HeldSupplierOrder(db, s.order).Some? && Sends(HeldSupplierOrder(db, s.order).value, s.lines, db).Sent?
    ensures var c := SendingRecipe(s);
      c.write(Snapshot(Keys(c), db)) ==
        (MarkedRows(s.lines, s.order, db)
           [SupplierOrderAt(s.order) := ASupplierOrder(Sends(HeldSupplierOrder(db, s.order).value, s.lines, db).order)]
           [NumberOf(SupplierReturns) := Counter(SendingNumber(db))],
         Made(SentBack(SendingNumber(db))))
  {
    hide Keys, Snapshot, SupplierOrderOf, ItemOf, HeldItem, HeldSupplierOrder, Sends, SendLines, ItemRows, MarkedRows;
    var values := Snapshot(Keys(SendingRecipe(s)), db);
    SendingReads(s, db);
    SendsAsRead(HeldSupplierOrder(db, s.order).value, s.lines, values, db);
    MarkedAsRead(s.lines, s.order, values, db);
  }

  lemma NumberedFirst(db: Database, marked: Database, number: Row, claim: Option<Key>, document: Document,
      order: nat, row: Row)
    requires forall k :: k in marked ==> k.ReturnedItemAt?
    requires claim.Some? ==> claim.value.SupplierReturnClaim?
    ensures (Claiming(db[NumberOf(SupplierReturns) := number], claim, document) + marked)[SupplierOrderAt(order) :=
        row] ==
            db + Claiming(marked[SupplierOrderAt(order) := row][NumberOf(SupplierReturns) := number], claim, document)
  {
  }

  lemma SendingLeaves(s: Sending, db: Database)
    requires HeldSupplierOrder(db, s.order).Some? && Sends(HeldSupplierOrder(db, s.order).value, s.lines, db).Sent?
    ensures Leaves(SendingRecipe(s), db) ==
            (SendingRows(s, Sends(HeldSupplierOrder(db, s.order).value, s.lines, db).order, db),
                Made(SentBack(SendingNumber(db))))
  {
    hide Keys, Snapshot, HeldSupplierOrder, Sends, MarkedRows, SendingWrites;
    SendingWrote(s, db);
    NumberedFirst(db, MarkedRows(s.lines, s.order, db), Counter(SendingNumber(db)), SendingKey(s),
        SentBack(SendingNumber(db)), s.order,
                  ASupplierOrder(Sends(HeldSupplierOrder(db, s.order).value, s.lines, db).order));
  }

  /** What the lines so far take of each of the order's, as a figure for each. */
  ghost predicate Taking(taking: map<nat, nat>, o: SupplierOrder, now: SupplierOrder) {
    && now.branch == o.branch && |now.items| == |o.items|
    && forall at :: 0 <= at < |o.items| ==>
         && now.items[at] == o.items[at].(returned := now.items[at].returned)
         && now.items[at].returned == o.items[at].returned + if at in taking then taking[at] else 0
  }

  class PurchaseOrdersService {
    const db: Store

    constructor (db: Store)
      ensures this.db == db
    {
      this.db := db;
    }

    method NamesTwice(lines: seq<SentLine>) returns (twice: bool)
      ensures twice == NamedTwice(lines)
    {
      var seen: set<nat> := {};
      for i := 0 to |lines|
        invariant seen == set j | 0 <= j < i :: lines[j].item
        invariant forall j, k :: 0 <= j < k < i ==> lines[j].item != lines[k].item
      {
        if lines[i].item in seen { return true; }
        seen := seen + {lines[i].item};
      }
      twice := false;
    }

    /** One line against what the lines before it have left. */
    method CheckLine(o: SupplierOrder, line: SentLine, taking: map<nat, nat>, ghost now: SupplierOrder)
      returns (why: Option<Refusal>)
      requires Taking(taking, o, now)
      ensures why == LineObjection(now, line, HeldItem(db.rows, line.item))
    {
      var row := HeldItem(db.rows, line.item);
      if row.None? { return Some(NoSuchItem); }
      var item := row.value;
      if !item.damaged { return Some(WrongItem); }
      if !item.received { return Some(WrongStatus); }
      if item.sentOn.Some? { return Some(AlreadySent); }
      if item.branch != o.branch { return Some(WrongItem); }
      if line.at >= |o.items| { return Some(WrongItem); }
      var bought := o.items[line.at];
      if bought.variant != item.variant { return Some(WrongItem); }
      var already := if line.at in taking then taking[line.at] else 0;
      if item.quantity > bought.received - bought.returned - already { return Some(NotReturnable); }
      why := None;
    }

    /** Every line checked before any is written. */
    method CheckLines(o: SupplierOrder, lines: seq<SentLine>) returns (why: Option<Refusal>)
      ensures why == match Sends(o, lines, db.rows)
        case Sent(_) => None
        case Stopped(because) => Some(because)
    {
      hide LineObjection, HeldItem;
      var taking: map<nat, nat> := map[];
      ghost var now := o;
      for i := 0 to |lines|
        invariant Taking(taking, o, now)
        invariant Sends(now, lines[i..], db.rows) == Sends(o, lines, db.rows)
      {
        assert lines[i..][0] == lines[i] && lines[i..][1..] == lines[i + 1..];
        why := CheckLine(o, lines[i], taking, now);
        if why.Some? { return; }
        NothingAgainst(now, lines[i], HeldItem(db.rows, lines[i].item));
        var item := HeldItem(db.rows, lines[i].item).value;
        now := Credited(now, lines[i], item);
        var already := if lines[i].at in taking then taking[lines[i].at] else 0;
        taking := taking[lines[i].at := already + item.quantity];
      }
      why := None;
    }

    /** Every line written, and its cost credited: the items as they were locked. */
    method WriteLines(o: SupplierOrder, lines: seq<SentLine>, order: nat, ghost start: Database)
      returns (now: SupplierOrder)
      requires Sends(o, lines, start).Sent? && !NamedTwice(lines)
      requires forall i :: 0 <= i < |lines| ==> HeldItem(db.rows, lines[i].item) == HeldItem(start, lines[i].item)
      modifies db`rows
      ensures now == Sends(o, lines, start).order
      ensures db.rows == old(db.rows) + MarkedRows(lines, order, start)
    {
      hide LineObjection, HeldItem, MarkedRows;
      now := o;
      NoneMarked(order, start);
      for i := 0 to |lines|
        invariant Sends(now, lines[i..], start) == Sends(o, lines, start)
        invariant forall j :: i <= j < |lines| ==> HeldItem(db.rows, lines[j].item) == HeldItem(start, lines[j].item)
        invariant db.rows + MarkedRows(lines[i..], order, start) == old(db.rows) + MarkedRows(lines, order, start)
      {
        assert lines[i..][0] == lines[i] && lines[i..][1..] == lines[i + 1..];
        NothingAgainst(now, lines[i], HeldItem(start, lines[i].item));
        var item := HeldItem(db.rows, lines[i].item).value;
        now := Credited(now, lines[i], item);
        MarkedNext(db.rows, lines[i..], order, start);
        MarkedApart(db.rows, lines, i, AReturnedItem(item.(sentOn := Some(order))));
        db.rows := db.rows[ReturnedItemAt(lines[i].item) := AReturnedItem(item.(sentOn := Some(order)))];
      }
      NoneMarkedOn(db.rows, order, start);
    }

    /** The returned items locked, lowest id first. */
    method LockItems(ids: seq<nat>)
      requires db.locked != []
      modifies db`rows, db`locked
      ensures db.rows == old(db.rows) && db.locked == NotedAll(old(db.locked), ItemKeys(ids)) && db.locked != []
    {
      hide Noted, NotedAll, ItemKeys;
      NoItemsNoted(db.locked);
      for i := 0 to |ids|
        invariant db.rows == old(db.rows) && db.locked == NotedAll(old(db.locked), ItemKeys(ids[..i]))
        invariant db.locked != []
      {
        ItemNoted(old(db.locked), ids, i);
        var row := db.Lock(ReturnedItemAt(ids[i]));
      }
      assert ids[..|ids|] == ids;
    }

    method SendDamaged(s: Sending) returns (answer: Answer)
      requires db.locked == []
      modifies db
      ensures db.Ran(SendingRecipe(s), old(db.rows), answer) && db.LockedAll(SendingRecipe(s))
    {
      hide SendingRecipe, Ends, Leaves, Sends, MarkedRows, HeldItem, InOrder, InStep, Store.Ran, NotedAll, WithKey,
           ItemKeys, ItemIds;
      ghost var c, first := SendingRecipe(s), db.rows;
      SendingEnds(s, first);
      SendingEnds(s, db.next);
      SendingSteps(s);
      var twice := NamesTwice(s.lines);
      if s.lines == [] || twice {
        answer := Refused(if s.lines == [] then NoLines else WrongItem);
        db.StopsAtOnce(c, first, answer);
        return;
      }
      var order := db.Lock(SupplierOrderAt(s.order));
      var made := db.MadeBy(SendingKey(s));
      if made.Some? {
        db.Stops(c, first, made.value);
        return made.value;
      }
      var row := HeldSupplierOrder(db.rows, s.order);
      if row.None? || !row.value.open {
        answer := Refused(if row.None? then NoSuchOrder else NothingReceived);
        db.Stops(c, first, answer);
        return;
      }
      LockItems(ItemIds(s.lines));
      var why := CheckLines(row.value, s.lines);
      if why.Some? {
        db.Stops(c, first, Refused(why.value));
        return Refused(why.value);
      }
      SendingLeaves(s, db.next);
      var number := db.NextNumber(SupplierReturns);
      db.Insert(SendingKey(s), SentBack(number));
      ItemsApart(s, db.next, db.rows, number);
      var now := WriteLines(row.value, s.lines, s.order, db.next);
      db.rows := db.rows[SupplierOrderAt(s.order) := ASupplierOrder(now)];
      answer := Made(SentBack(number));
      db.Finishes(c, first, answer);
    }
  }

  // ---- The rows a send locks, in turn -----------------------------------------------------

  lemma NoItemsNoted(locked: seq<Key>)
    ensures NotedAll(locked, ItemKeys([])) == locked
  {
    assert ItemKeys([]) == [];
  }

  lemma ItemNoted(locked: seq<Key>, ids: seq<nat>, i: nat)
    requires i < |ids|
    ensures NotedAll(locked, ItemKeys(ids[..i + 1])) ==
        Noted(NotedAll(locked, ItemKeys(ids[..i])), ReturnedItemAt(ids[i]))
    ensures ids[..0] == []
  {
    assert ItemKeys(ids[..i + 1]) == ItemKeys(ids[..i]) + [ReturnedItemAt(ids[i])];
    NotedNext(locked, ItemKeys(ids[..i]), ReturnedItemAt(ids[i]));
  }

  lemma SendingSteps(s: Sending)
    ensures var c, order := SendingRecipe(s), [SupplierOrderAt(s.order)];
      var items := NotedAll(order, ItemKeys(ItemIds(s.lines)));
      var all := WithKey(Noted(items, NumberOf(SupplierReturns)), SendingKey(s));
      InStep(order, c) && InStep(items, c) && InStep(all, c) && all == NotedAll([], InOrder(c))
  {
    hide InStep, NotedAll, Noted, ItemIds, ItemKeys;
    var c, order, items := SendingRecipe(s), [SupplierOrderAt(s.order)], ItemKeys(ItemIds(s.lines));
    NotedFirst(SupplierOrderAt(s.order));
    NotedJoin([], order, items);
    NotedNext([], order + items, NumberOf(SupplierReturns));
    NotedKey(order + items + [NumberOf(SupplierReturns)], SendingKey(s));
    assert InOrder(c) == order + items + [NumberOf(SupplierReturns)] + KeySeq(SendingKey(s));
    StepsTaken(c, order, items + [NumberOf(SupplierReturns)] + KeySeq(SendingKey(s)));
    StepsTaken(c, order + items, [NumberOf(SupplierReturns)] + KeySeq(SendingKey(s)));
    StepsTaken(c, InOrder(c), []);
  }

  lemma NothingAgainst(o: SupplierOrder, line: SentLine, item: Option<ReturnedItem>)
    requires LineObjection(o, line, item).None?
    ensures item.Some? && line.at < |o.items|
  {
  }

  lemma NoneMarked(order: nat, db: Database)
    ensures MarkedRows([], order, db) == map[]
  {
  }

  lemma NoneMarkedOn(rows: Database, order: nat, db: Database)
    ensures rows + MarkedRows([], order, db) == rows
  {
  }

  /** The first line marked now comes to the same, its item named once. */
  lemma MarkedNext(rows: Database, lines: seq<SentLine>, order: nat, db: Database)
    requires lines != [] && HeldItem(db, lines[0].item).Some?
    ensures var row := AReturnedItem(HeldItem(db, lines[0].item).value.(sentOn := Some(order)));
      rows[ReturnedItemAt(lines[0].item) := row] + MarkedRows(lines[1..], order, db) ==
          rows + MarkedRows(lines, order, db)
  {
    var k := ReturnedItemAt(lines[0].item);
    if k in MarkedRows(lines[1..], order, db) {
      MarkedRowOf(lines[1..], order, db, k);
    }
  }

  lemma {:induction false} MarkedRowOf(lines: seq<SentLine>, order: nat, db: Database, k: Key)
    requires k in MarkedRows(lines, order, db)
    ensures HeldItem(db, k.item).Some?
    ensures MarkedRows(lines, order, db)[k] == AReturnedItem(HeldItem(db, k.item).value.(sentOn := Some(order)))
  {
    if k != ReturnedItemAt(lines[0].item) || HeldItem(db, lines[0].item).None? {
      MarkedRowOf(lines[1..], order, db, k);
    }
  }

  lemma MarkedApart(rows: Database, lines: seq<SentLine>, i: nat, row: Row)
    requires i < |lines| && !NamedTwice(lines)
    ensures forall j :: i < j < |lines| ==>
              HeldItem(rows[ReturnedItemAt(lines[i].item) := row], lines[j].item) == HeldItem(rows, lines[j].item)
  {
  }

  lemma ItemsApart(s: Sending, db: Database, rows: Database, number: nat)
    requires rows == Claiming(db[NumberOf(SupplierReturns) := Counter(number)], SendingKey(s), SentBack(number))
    ensures forall i :: 0 <= i < |s.lines| ==> HeldItem(rows, s.lines[i].item) == HeldItem(db, s.lines[i].item)
  {
  }
}
