/** A send of damaged goods in figures: when it is made, and what it leaves of the order and of each item. */
module SupplierLaws {
  import opened Wrappers
  import opened RowLocks
  import opened Recipes
  import opened Shop
  import opened Tallies
  import opened CashBook
  import opened SupplierReturns
  import Stock = StockLedger

  function SupplierOrderNow(db: Database, order: nat): Option<SupplierOrder> {
    var row := Read(db, SupplierOrderAt(order));
    if row.Some? && row.value.ASupplierOrder? then Some(row.value.supplierOrder) else None
  }

  function ItemNow(db: Database, item: nat): Option<ReturnedItem> {
    var row := Read(db, ReturnedItemAt(item));
    if row.Some? && row.value.AReturnedItem? then Some(row.value.item) else None
  }

  function UnitsOf(db: Database, item: nat): nat {
    if ItemNow(db, item).Some? then ItemNow(db, item).value.quantity else 0
  }

  /** The units the lines put on one line of the supplier order, in all. */
  function UnitsBack(lines: seq<SentLine>, db: Database, at: nat): nat {
    if lines == [] then 0
    else UnitsBack(lines[1..], db, at) + if lines[0].at == at then UnitsOf(db, lines[0].item) else 0
  }

  /** The item came back damaged and was received, has not been sent on, is at the order's branch, and is of the
      article its line of the order bought. */
  predicate Goes(o: SupplierOrder, line: SentLine, db: Database) {
    var item := ItemNow(db, line.item);
    && item.Some? && item.value.damaged && item.value.received && item.value.sentOn.None?
    && item.value.branch == o.branch
    && line.at < |o.items| && o.items[line.at].variant == item.value.variant
  }

  predicate AllGo(o: SupplierOrder, lines: seq<SentLine>, db: Database) {
    forall i :: 0 <= i < |lines| ==> Goes(o, lines[i], db)
  }

  predicate AllFit(o: SupplierOrder, lines: seq<SentLine>, db: Database) {
    forall at :: 0 <= at < |o.items| ==> UnitsBack(lines, db, at) <= o.items[at].received - o.items[at].returned
  }

  /** No line has had more back than came. */
  predicate Within(o: SupplierOrder) {
    forall at :: 0 <= at < |o.items| ==> o.items[at].returned <= o.items[at].received
  }

  predicate ReadAsTheyAre(lines: seq<SentLine>, values: Values, db: Database) {
    forall i :: 0 <= i < |lines| ==> ItemOf(values, lines[i].item) == ItemNow(db, lines[i].item)
  }

  /** The first line passes on its own. */
  predicate FirstGoes(o: SupplierOrder, line: SentLine, db: Database) {
    Goes(o, line, db) && UnitsOf(db, line.item) <= o.items[line.at].received - o.items[line.at].returned
  }

  lemma FirstGoesExactlyWhen(o: SupplierOrder, line: SentLine, db: Database)
    ensures LineObjection(o, line, ItemNow(db, line.item)).None? <==> FirstGoes(o, line, db)
    ensures FirstGoes(o, line, db) ==> ItemNow(db, line.item).Some? && line.at < |o.items|
  {
  }

  /** With the first line credited, the rest ask what all the lines together asked. */
  lemma RestGoes(o: SupplierOrder, lines: seq<SentLine>, db: Database)
    requires lines != [] && FirstGoes(o, lines[0], db)
    ensures var next := Credited(o, lines[0], ItemNow(db, lines[0].item).value);
      && (Within(o) ==> Within(next))
      && (AllGo(next, lines[1..], db) <==> AllGo(o, lines, db))
      && (AllFit(next, lines[1..], db) <==> AllFit(o, lines, db))
  {
    var next, rest := Credited(o, lines[0], ItemNow(db, lines[0].item).value), lines[1..];
    forall i | 0 <= i < |lines| ensures Goes(next, lines[i], db) <==> Goes(o, lines[i], db) {
    }
    assert forall i :: 0 <= i < |rest| ==> rest[i] == lines[i + 1];
    assert AllGo(o, lines, db) <==> Goes(o, lines[0], db) && forall i :: 0 <= i < |rest| ==> Goes(o, rest[i], db) by {
      assert forall i :: 0 < i < |lines| ==> lines[i] == rest[i - 1];
    }
    forall at | 0 <= at < |o.items|
      ensures UnitsBack(rest, db, at) <= next.items[at].received - next.items[at].returned <==>
              UnitsBack(lines, db, at) <= o.items[at].received - o.items[at].returned
    {
    }
  }

  lemma FirstMustGo(o: SupplierOrder, lines: seq<SentLine>, db: Database)
    requires lines != [] && AllGo(o, lines, db) && AllFit(o, lines, db)
    ensures FirstGoes(o, lines[0], db)
  {
    assert Goes(o, lines[0], db);
    assert UnitsBack(lines, db, lines[0].at) <= o.items[lines[0].at].received - o.items[lines[0].at].returned;
  }

  lemma {:induction false} SendsExactlyWhen(o: SupplierOrder, lines: seq<SentLine>, values: Values, db: Database)
    requires ReadAsTheyAre(lines, values, db) && Within(o)
    ensures SendLines(o, lines, values).Sent? <==> AllGo(o, lines, db) && AllFit(o, lines, db)
    decreases |lines|
  {
    hide LineObjection, Goes, Credited, AllGo, AllFit, UnitsBack, Within, FirstGoes;
    if lines == [] {
      NothingSent(o, db);
    } else {
      assert ReadAsTheyAre(lines[1..], values, db) by {
        assert forall i :: 0 <= i < |lines[1..]| ==> lines[1..][i] == lines[i + 1];
      }
      FirstGoesExactlyWhen(o, lines[0], db);
      if FirstGoes(o, lines[0], db) {
        RestGoes(o, lines, db);
        SendsExactlyWhen(Credited(o, lines[0], ItemNow(db, lines[0].item).value), lines[1..], values, db);
      } else if AllGo(o, lines, db) && AllFit(o, lines, db) {
        FirstMustGo(o, lines, db);
      }
    }
  }

  lemma NothingSent(o: SupplierOrder, db: Database)
    requires Within(o)
    ensures AllGo(o, [], db) && AllFit(o, [], db)
  {
  }

  // ---- What it leaves -----------------------------------------------------------------

  function CreditFor(o: SupplierOrder, line: SentLine, db: Database): SupplierCredit {
    var cost := if line.at < |o.items| then o.items[line.at].unitCost else 0;
    SupplierCredit(line.item, line.at, UnitsOf(db, line.item), cost * UnitsOf(db, line.item))
  }

  /** What all the lines credit. */
  function CreditInAll(o: SupplierOrder, lines: seq<SentLine>, db: Database): nat {
    if lines == [] then 0 else CreditInAll(o, lines[1..], db) + CreditFor(o, lines[0], db).amount
  }

  /** The order with the lines' units counted back on their own lines, and one credit more for each, at its cost. */
  predicate SentAs(o: SupplierOrder, after: SupplierOrder, lines: seq<SentLine>, db: Database) {
    && after.branch == o.branch && after.open == o.open && after.forShelf == o.forShelf
    && |after.items| == |o.items|
    && (forall at :: 0 <= at < |o.items| ==>
          after.items[at] == o.items[at].(returned := o.items[at].returned + UnitsBack(lines, db, at)))
    && after.credited == o.credited + CreditInAll(o, lines, db)
    && |after.credits| == |o.credits| + |lines|
    && (forall i :: 0 <= i < |o.credits| ==> after.credits[i] == o.credits[i])
    && forall i :: 0 <= i < |lines| ==> after.credits[|o.credits| + i] == CreditFor(o, lines[i], db)
  }

  lemma {:induction false} CostsTheSame(o: SupplierOrder, next: SupplierOrder, lines: seq<SentLine>, db: Database)
    requires |next.items| == |o.items|
    requires forall at :: 0 <= at < |o.items| ==> next.items[at].unitCost == o.items[at].unitCost
    ensures CreditInAll(next, lines, db) == CreditInAll(o, lines, db)
  {
    if lines != [] {
      CostsTheSame(o, next, lines[1..], db);
    }
  }

  lemma FirstCredited(o: SupplierOrder, lines: seq<SentLine>, db: Database)
    requires lines != [] && FirstGoes(o, lines[0], db)
    ensures var next := Credited(o, lines[0], ItemNow(db, lines[0].item).value);
      && next.branch == o.branch && next.open == o.open && next.forShelf == o.forShelf
      && |next.items| == |o.items|
      && (forall at :: 0 <= at < |o.items| ==>
            next.items[at] == o.items[at].(returned := o.items[at].returned +
                if lines[0].at == at then UnitsOf(db, lines[0].item) else 0))
      && next.credited == o.credited + CreditFor(o, lines[0], db).amount
      && next.credits == o.credits + [CreditFor(o, lines[0], db)]
  {
  }

  lemma CreditsOnward(o: SupplierOrder, after: SupplierOrder, lines: seq<SentLine>, db: Database)
    requires lines != [] && FirstGoes(o, lines[0], db)
    requires SentAs(Credited(o, lines[0], ItemNow(db, lines[0].item).value), after, lines[1..], db)
    ensures SentAs(o, after, lines, db)
  {
    hide Credited, Goes;
    FirstGoesExactlyWhen(o, lines[0], db);
    var next, rest := Credited(o, lines[0], ItemNow(db, lines[0].item).value), lines[1..];
    FirstCredited(o, lines, db);
    CostsTheSame(o, next, rest, db);
    forall at | 0 <= at < |o.items|
      ensures after.items[at] == o.items[at].(returned := o.items[at].returned + UnitsBack(lines, db, at))
    {
    }
    forall i | 0 <= i < |lines| ensures after.credits[|o.credits| + i] == CreditFor(o, lines[i], db) {
      if i > 0 {
        assert rest[i - 1] == lines[i];
        assert after.credits[|next.credits| + (i - 1)] == CreditFor(next, rest[i - 1], db);
      } else {
        assert after.credits[|o.credits|] == next.credits[|o.credits|];
      }
    }
  }

  lemma {:induction false} SendsAs(o: SupplierOrder, lines: seq<SentLine>, values: Values, db: Database)
    requires ReadAsTheyAre(lines, values, db) && SendLines(o, lines, values).Sent?
    ensures SentAs(o, SendLines(o, lines, values).order, lines, db)
    decreases |lines|
  {
    hide LineObjection, Goes, Credited, FirstGoes, SentAs;
    if lines == [] {
      SentNothing(o, db);
    } else {
      assert ReadAsTheyAre(lines[1..], values, db) by {
        assert forall i :: 0 <= i < |lines[1..]| ==> lines[1..][i] == lines[i + 1];
      }
      FirstGoesExactlyWhen(o, lines[0], db);
      var next := Credited(o, lines[0], ItemNow(db, lines[0].item).value);
      SendsAs(next, lines[1..], values, db);
      CreditsOnward(o, SendLines(next, lines[1..], values).order, lines, db);
    }
  }

  lemma SentNothing(o: SupplierOrder, db: Database)
    ensures SentAs(o, o, [], db)
  {
  }

  // ---- The request --------------------------------------------------------------------

  lemma SendingReads(s: Sending, db: Database)
    ensures var values := Snapshot(Keys(SendingRecipe(s)), db);
      && SupplierOrderOf(values, s.order) == SupplierOrderNow(db, s.order)
      && ReadAsTheyAre(s.lines, values, db)
      && LastNumber(Get(values, NumberOf(SupplierReturns))) == LastNumber(Read(db, NumberOf(SupplierReturns)))
  {
    hide ItemIds, Snapshot, SendLines;
    var c := SendingRecipe(s);
    SnapshotHas(Keys(c), db, SupplierOrderAt(s.order));
    SnapshotHas(Keys(c), db, NumberOf(SupplierReturns));
    forall i | 0 <= i < |s.lines|
      ensures ItemOf(Snapshot(Keys(c), db), s.lines[i].item) == ItemNow(db, s.lines[i].item)
    {
      ItemIsLocked(s.lines, i);
      SnapshotHas(Keys(c), db, ReturnedItemAt(s.lines[i].item));
    }
  }

  /** The refusal names something that is wrong. */
  predicate IsWhy(why: Refusal, o: SupplierOrder, lines: seq<SentLine>, db: Database) {
    match why
    case NotReturnable => !AllFit(o, lines, db)
    case _ => exists i :: 0 <= i < |lines| && IsWhyOf(why, o, lines[i], ItemNow(db, lines[i].item))
  }

  predicate IsWhyOf(why: Refusal, o: SupplierOrder, line: SentLine, item: Option<ReturnedItem>) {
    match why
    case NoSuchItem => item.None?
    case WrongStatus => item.Some? && !item.value.received
    case AlreadySent => item.Some? && item.value.sentOn.Some?
    case WrongItem => item.Some? && IsWrong(o, line, item.value)
    case _ => false
  }

  /** Not damaged, of another branch, or not what its line of the order bought. */
  predicate IsWrong(o: SupplierOrder, line: SentLine, item: ReturnedItem) {
    || !item.damaged || item.branch != o.branch
    || line.at >= |o.items| || o.items[line.at].variant != item.variant
  }

  lemma FirstIsWhy(o: SupplierOrder, lines: seq<SentLine>, db: Database)
    requires lines != [] && LineObjection(o, lines[0], ItemNow(db, lines[0].item)).Some?
    ensures IsWhy(LineObjection(o, lines[0], ItemNow(db, lines[0].item)).value, o, lines, db)
  {
    if Goes(o, lines[0], db) {
      assert UnitsBack(lines, db, lines[0].at) > o.items[lines[0].at].received - o.items[lines[0].at].returned;
    } else {
      assert IsWhyOf(LineObjection(o, lines[0], ItemNow(db, lines[0].item)).value, o, lines[0],
                     ItemNow(db, lines[0].item));
    }
  }

  lemma LaterIsWhy(why: Refusal, o: SupplierOrder, lines: seq<SentLine>, db: Database)
    requires lines != [] && FirstGoes(o, lines[0], db)
    requires IsWhy(why, Credited(o, lines[0], ItemNow(db, lines[0].item).value), lines[1..], db)
    ensures IsWhy(why, o, lines, db)
  {
    hide UnitsBack, AllGo, AllFit, IsWhyOf, Credited, IsWhy, Goes;
    FirstGoesExactlyWhen(o, lines[0], db);
    var next := Credited(o, lines[0], ItemNow(db, lines[0].item).value);
    RestGoes(o, lines, db);
    if why == NotReturnable {
      FitIsWhy(next, lines[1..], db);
      FitIsWhy(o, lines, db);
    } else {
      WrongAllAlong(why, o, next, db, lines);
    }
  }

  lemma FitIsWhy(o: SupplierOrder, lines: seq<SentLine>, db: Database)
    ensures IsWhy(NotReturnable, o, lines, db) <==> !AllFit(o, lines, db)
  {
    hide AllFit;
  }

  lemma WrongAllAlong(why: Refusal, o: SupplierOrder, next: SupplierOrder, db: Database, lines: seq<SentLine>)
    requires lines != [] && FirstGoes(o, lines[0], db) && why != NotReturnable
    requires next == Credited(o, lines[0], ItemNow(db, lines[0].item).value) && IsWhy(why, next, lines[1..], db)
    ensures IsWhy(why, o, lines, db)
  {
    hide AllFit, Credited, UnitsBack, IsWhyOf;
    var rest := lines[1..];
    CreditedAlike(o, lines[0], ItemNow(db, lines[0].item).value, next);
    var i :| 0 <= i < |rest| && IsWhyOf(why, next, rest[i], ItemNow(db, rest[i].item));
    assert rest[i] == lines[i + 1];
    WrongStill(why, o, next, rest[i], ItemNow(db, rest[i].item));
    assert IsWhyOf(why, o, lines[i + 1], ItemNow(db, lines[i + 1].item));
  }

  lemma CreditedAlike(o: SupplierOrder, line: SentLine, item: ReturnedItem, next: SupplierOrder)
    requires line.at < |o.items| && next == Credited(o, line, item)
    ensures next.branch == o.branch && |next.items| == |o.items|
    ensures forall at :: 0 <= at < |o.items| ==> next.items[at].variant == o.items[at].variant
  {
  }

  lemma WrongStill(why: Refusal, o: SupplierOrder, next: SupplierOrder, line: SentLine, item: Option<ReturnedItem>)
    requires IsWhyOf(why, next, line, item) && next.branch == o.branch && |next.items| == |o.items|
    requires forall at :: 0 <= at < |o.items| ==> next.items[at].variant == o.items[at].variant
    ensures IsWhyOf(why, o, line, item)
  {
  }

  lemma {:induction false} StoppedIsWhy(o: SupplierOrder, lines: seq<SentLine>, values: Values, db: Database)
    requires ReadAsTheyAre(lines, values, db) && SendLines(o, lines, values).Stopped?
    ensures IsWhy(SendLines(o, lines, values).why, o, lines, db)
    decreases |lines|
  {
    hide LineObjection, Goes, Credited, FirstGoes, IsWhy;
    FirstGoesExactlyWhen(o, lines[0], db);
    if FirstGoes(o, lines[0], db) {
      var next := Credited(o, lines[0], ItemNow(db, lines[0].item).value);
      assert ReadAsTheyAre(lines[1..], values, db) by {
        assert forall i :: 0 <= i < |lines[1..]| ==> lines[1..][i] == lines[i + 1];
      }
      StoppedIsWhy(next, lines[1..], values, db);
      LaterIsWhy(SendLines(o, lines, values).why, o, lines, db);
    } else {
      FirstIsWhy(o, lines, db);
    }
  }

  function SendKey(token: Option<Token>): Option<Key> {
    if token.Some? then Some(SupplierReturnClaim(token.value)) else None
  }

  /** What is wrong with a send before its lines are looked at. */
  function BeforeLines(s: Sending, db: Database): (why: Option<Refusal>)
    ensures why.None? ==> SupplierOrderNow(db, s.order).Some?
  {
    if s.lines == [] then Some(NoLines)
    else if exists i, j :: 0 <= i < j < |s.lines| && s.lines[i].item == s.lines[j].item then Some(WrongItem)
    else if SupplierOrderNow(db, s.order).None? then Some(NoSuchOrder)
    else if !SupplierOrderNow(db, s.order).value.open then Some(NothingReceived)
    else None
  }

  lemma SendStops(s: Sending, policy: Stock.Policy, db: Database)
    requires ShopOk(policy, db)
    ensures var c := SendingRecipe(s);
      && (c.fault.Some? <==> BeforeLines(s, db) in {Some(NoLines), Some(WrongItem)})
      && (c.fault.Some? ==> c.fault == Refuse(BeforeLines(s, db)))
      && (c.fault.None? && BeforeLines(s, db).Some? ==>
            c.check(Snapshot(Keys(c), db)) == Refuse(BeforeLines(s, db)))
      && (BeforeLines(s, db).None? ==>
            var o := SupplierOrderNow(db, s.order).value;
            var check := c.check(Snapshot(Keys(c), db));
            && (check.None? <==> AllGo(o, s.lines, db) && AllFit(o, s.lines, db))
            && (check.Some? ==> check.value.Refused? && IsWhy(check.value.why, o, s.lines, db)))
  {
    hide Snapshot, SendLines, AllGo, AllFit, IsWhy, ItemIds, SendingWrites;
    SendingReads(s, db);
    var values := Snapshot(Keys(SendingRecipe(s)), db);
    if BeforeLines(s, db).None? {
      var o := SupplierOrderNow(db, s.order).value;
      OrderIsWithin(s, policy, db);
      SendsExactlyWhen(o, s.lines, values, db);
      if SendLines(o, s.lines, values).Stopped? {
        StoppedIsWhy(o, s.lines, values, db);
      }
    }
  }

  lemma OrderIsWithin(s: Sending, policy: Stock.Policy, db: Database)
    requires ShopOk(policy, db) && SupplierOrderNow(db, s.order).Some?
    ensures Within(SupplierOrderNow(db, s.order).value)
  {
    hide UnitsOn, Amount;
    assert RowOk(policy, SupplierOrderAt(s.order), db[SupplierOrderAt(s.order)]);
  }

  /** The item is as it was but for the order it was sent on. */
  predicate ItemSent(s: Sending, db: Database, after: Database, item: nat) {
    ItemNow(db, item).Some? && ItemNow(after, item) == Some(ItemNow(db, item).value.(sentOn := Some(s.order)))
  }

  /** The rows a send may change. */
  predicate Its(s: Sending, k: Key) {
    || k == SupplierOrderAt(s.order) || k == NumberOf(SupplierReturns) || Some(k) == SendKey(s.token)
    || (k.ReturnedItemAt? && Named(s.lines, k.item))
  }

  /** Its key is free and nothing is wrong with it. */
  ghost predicate Sends(s: Sending, policy: Stock.Policy, db: Database) {
    && ShopOk(policy, db) && (s.token.Some? ==> SupplierReturnClaim(s.token.value) !in db)
    && BeforeLines(s, db).None?
    && AllGo(SupplierOrderNow(db, s.order).value, s.lines, db)
    && AllFit(SupplierOrderNow(db, s.order).value, s.lines, db)
  }

  lemma SendGoes(s: Sending, policy: Stock.Policy, db: Database)
    requires Sends(s, policy, db)
    ensures var c := SendingRecipe(s);
      var values := Snapshot(Keys(c), db);
      && SupplierOrderOf(values, s.order).Some?
      && SendLines(SupplierOrderOf(values, s.order).value, s.lines, values).Sent?
      && c.fault.None? && c.check(values).None?
      && Effect(c, db).1 == SendingWrites(s, values).1
      && Effect(c, db).0 ==
         if s.token.Some? then
           (db + SendingWrites(s, values).0)[SupplierReturnClaim(s.token.value) :=
               Recorded(SendingWrites(s, values).1)]
         else db + SendingWrites(s, values).0
  {
    hide Snapshot, SendLines, AllGo, AllFit, IsWhy, ItemIds, SendingWrites, BeforeLines, Effect, ShopOk;
    SendStops(s, policy, db);
    SendingReads(s, db);
    EffectGoes(SendingRecipe(s), db);
  }

  lemma SendNumbered(s: Sending, policy: Stock.Policy, db: Database)
    requires Sends(s, policy, db)
    ensures var (after, answer) := Effect(SendingRecipe(s), db);
      var number := LastNumber(Read(db, NumberOf(SupplierReturns))) + 1;
      && answer == Made(SentBack(number))
      && Read(after, NumberOf(SupplierReturns)) == Some(Counter(number))
      && (s.token.Some? ==> Read(after, SupplierReturnClaim(s.token.value)) == Some(Claimed(SentBack(number))))
  {
    hide Snapshot, SendLines, AllGo, AllFit, ItemRows, BeforeLines, Effect, SendingRecipe, ShopOk, LastNumber;
    SendGoes(s, policy, db);
    SendingReads(s, db);
  }

  lemma SendLeaves(s: Sending, policy: Stock.Policy, db: Database, k: Key)
    requires Sends(s, policy, db)
    requires !Its(s, k)
    ensures Read(Effect(SendingRecipe(s), db).0, k) == Read(db, k)
  {
    hide Snapshot, SendLines, AllGo, AllFit, BeforeLines, Effect, SendingRecipe, ShopOk, ItemRows;
    var values := Snapshot(Keys(SendingRecipe(s)), db);
    SendGoes(s, policy, db);
    if k in ItemRows(s.lines, s.order, values) {
      ItemRowOf(s.lines, s.order, values, k);
    }
  }

  lemma SendWrites(s: Sending, policy: Stock.Policy, db: Database)
    requires Sends(s, policy, db)
    ensures var after := Effect(SendingRecipe(s), db).0;
      && SupplierOrderNow(after, s.order).Some?
      && SentAs(SupplierOrderNow(db, s.order).value, SupplierOrderNow(after, s.order).value, s.lines, db)
      && forall i :: 0 <= i < |s.lines| ==> ItemSent(s, db, after, s.lines[i].item)
  {
    hide Snapshot, SendLines, AllGo, AllFit, BeforeLines, Effect, SendingRecipe, ShopOk, SentAs, WellMade, Keys, After,
         SendingWrites;
    var c := SendingRecipe(s);
    var values := Snapshot(Keys(c), db);
    SendGoes(s, policy, db);
    SendingReads(s, db);
    SendingWellMade(s);
    SendingKeys(s);
    RowAfter(c, db, SupplierOrderAt(s.order));
    SendingAfter(s, values, s.order, 0);
    SendsAs(SupplierOrderOf(values, s.order).value, s.lines, values, db);
    forall i | 0 <= i < |s.lines| ensures ItemSent(s, db, Effect(c, db).0, s.lines[i].item) {
      RowAfter(c, db, ReturnedItemAt(s.lines[i].item));
      SendingAfter(s, values, s.order, s.lines[i].item);
      SendsKnownItems(SupplierOrderOf(values, s.order).value, s.lines, values, i);
      assert Named(s.lines, s.lines[i].item);
    }
  }

  lemma SendingKeys(s: Sending)
    ensures SupplierOrderAt(s.order) in Keys(SendingRecipe(s))
    ensures forall i :: 0 <= i < |s.lines| ==> ReturnedItemAt(s.lines[i].item) in Keys(SendingRecipe(s))
    ensures SendingRecipe(s).claim == SendKey(s.token)
  {
    hide ItemIds;
    assert Keys(SendingRecipe(s))[0] == SupplierOrderAt(s.order);
    forall i | 0 <= i < |s.lines| ensures ReturnedItemAt(s.lines[i].item) in Keys(SendingRecipe(s)) {
      ItemIsLocked(s.lines, i);
    }
  }

  lemma SendRefused(s: Sending, policy: Stock.Policy, db: Database)
    requires ShopOk(policy, db) && (s.token.Some? ==> SupplierReturnClaim(s.token.value) !in db)
    ensures var (after, answer) := Effect(SendingRecipe(s), db);
      if BeforeLines(s, db).Some? then after == db && answer == Refused(BeforeLines(s, db).value)
      else
        var o := SupplierOrderNow(db, s.order).value;
        !(AllGo(o, s.lines, db) && AllFit(o, s.lines, db)) ==>
          after == db && answer.Refused? && IsWhy(answer.why, o, s.lines, db)
  {
    hide Snapshot, AllGo, AllFit, IsWhy, ShopOk, BeforeLines, Keys;
    SendStops(s, policy, db);
    SendingKeys(s);
    hide SendingRecipe;
  }

  /** A send is made if and only if it names no item twice, its order is open, every line's item came back damaged
      and received, unsent, to the order's branch and of its line's article, and no line of the order is to have
      more back in all than came and is not back yet. Made, it has each credit at its line's cost, each item sent
      on the order, and nothing else touched; refused, it changes nothing and says what was wrong. */
  lemma SendingAnswers(s: Sending, policy: Stock.Policy, db: Database)
    requires ShopOk(policy, db) && (s.token.Some? ==> SupplierReturnClaim(s.token.value) !in db)
    ensures var (after, answer) := Effect(SendingRecipe(s), db);
      if BeforeLines(s, db).Some? then after == db && answer == Refused(BeforeLines(s, db).value)
      else
        var o, number := SupplierOrderNow(db, s.order).value, LastNumber(Read(db, NumberOf(SupplierReturns))) + 1;
        if AllGo(o, s.lines, db) && AllFit(o, s.lines, db) then
          && answer == Made(SentBack(number))
          && Read(after, NumberOf(SupplierReturns)) == Some(Counter(number))
          && (s.token.Some? ==> Read(after, SupplierReturnClaim(s.token.value)) == Some(Claimed(SentBack(number))))
          && SupplierOrderNow(after, s.order).Some? && SentAs(o, SupplierOrderNow(after, s.order).value, s.lines, db)
          && (forall i :: 0 <= i < |s.lines| ==> ItemSent(s, db, after, s.lines[i].item))
          && forall k: Key | !Its(s, k) :: Read(after, k) == Read(db, k)
        else
          after == db && answer.Refused? && IsWhy(answer.why, o, s.lines, db)
  {
    hide Effect, SendingRecipe, AllGo, AllFit, IsWhy, SentAs, Its, ItemSent, ShopOk, BeforeLines, LastNumber;
    SendRefused(s, policy, db);
    if BeforeLines(s, db).None? && AllGo(SupplierOrderNow(db, s.order).value, s.lines, db) &&
       AllFit(SupplierOrderNow(db, s.order).value, s.lines, db) {
      SendNumbered(s, policy, db);
      SendWrites(s, policy, db);
      forall k: Key | !Its(s, k) ensures Read(Effect(SendingRecipe(s), db).0, k) == Read(db, k) {
        SendLeaves(s, policy, db, k);
      }
    }
  }
}
