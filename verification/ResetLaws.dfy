/** What the reset promises: every table as it was copied, every link holding after every statement,
    exactly when no cart was made over to a customer the run made. */
module ResetLaws {
  import opened Wrappers
  import opened ResetCheckout

  // ---- One table at a time ------------------------------------------------------------

  lemma OverwrittenIs(row: Row, from: Row, columns: set<string>)
    requires SameBut(row, from, columns)
    ensures Overwritten(row, from, columns) == from
  {
  }

  lemma KeptIs(was: Rows, now: Rows)
    requires Added(was, now)
    ensures Kept(now, was) == was
  {
  }

  lemma MendedIs(was: Rows, now: Rows, columns: set<string>)
    requires Changed(was, now, columns)
    ensures Mended(Kept(now, was), was, was.Keys, columns) == was
  {
    var kept := Kept(now, was);
    forall id | id in was ensures id in kept && Overwritten(kept[id], was[id], columns) == was[id] {
      OverwrittenIs(now[id], was[id], columns);
    }
  }

  lemma MendedAlone(was: Rows, now: Rows, columns: set<string>)
    requires Changed(was, now, columns) && now.Keys == was.Keys
    ensures Mended(now, was, was.Keys, columns) == was
  {
    MendedIs(was, now, columns);
    assert Kept(now, was) == now;
  }

  /** What hangs on the run's orders deleted, the table is as it was exactly when all it was given
      hung on them. */
  lemma OfOrdersIs(was: Rows, now: Rows, before: set<nat>, orders: set<nat>)
    requires Added(was, now) && before !! orders
    requires forall id | id in was :: Holds(was[id], "order_id", before)
    ensures (map id | id in now && !Names(now[id], "order_id", orders) :: now[id]) == was <==>
        BelongsTo(was, now, orders)
  {
    var left := map id | id in now && !Names(now[id], "order_id", orders) :: now[id];
    forall id | id in was ensures id in left && left[id] == was[id] {
    }
    if !BelongsTo(was, now, orders) {
      var id :| id in now && id !in was && !Names(now[id], "order_id", orders);
      assert id in left;
    }
  }

  lemma CartsAre(was: Tables, now: Tables)
    requires CartsChanged(was, now)
    ensures Mended(Kept(At(now, Carts), At(was, Carts)), At(was, Carts), Fixtures(was), CART_COLUMNS) == At(was, Carts)
  {
    hide IsFixture;
    var kept := Kept(At(now, Carts), At(was, Carts));
    forall id | id in At(was, Carts) && id in Fixtures(was)
      ensures Overwritten(kept[id], At(was, Carts)[id], CART_COLUMNS) == At(was, Carts)[id]
    {
      OverwrittenIs(At(now, Carts)[id], At(was, Carts)[id], CART_COLUMNS);
    }
  }

  /** The lines left when the fixture's and the new carts' are cleared. */
  function OtherItems(was: Tables, now: Tables): Rows {
    map id | id in At(now, CartItems) &&
        !Names(At(now, CartItems)[id], "cart_id", Fixtures(was) + Fresh(was, now, Carts)) ::
      At(now, CartItems)[id]
  }

  lemma ItemsAre(was: Tables, now: Tables)
    requires ItemsChanged(was, now)
    requires forall id | id in At(was, CartItems) :: Holds(At(was, CartItems)[id], "cart_id", At(was, Carts).Keys)
    ensures OtherItems(was, now).Keys !! CopiedItems(was).Keys
    ensures OtherItems(was, now) + CopiedItems(was) == At(was, CartItems)
  {
    hide IsFixture, Fixtures;
    var other, copied := OtherItems(was, now), CopiedItems(was);
    forall id | id in At(was, CartItems) && id !in copied ensures id in other && other[id] == At(was, CartItems)[id] {
      assert !Names(At(was, CartItems)[id], "cart_id", Fixtures(was));
      assert !Names(At(was, CartItems)[id], "cart_id", Fresh(was, now, Carts));
    }
    forall id | id in other ensures id in At(was, CartItems) && id !in copied && other[id] == At(was, CartItems)[id] {
    }
  }

  // ---- Each table as the statements on it leave it ------------------------------------

  lemma LinkOf(db: Tables, l: Link)
    requires Intact(db) && l in LINKS
    ensures forall id | id in At(db, l.from) :: Holds(At(db, l.from)[id], l.column, At(db, l.to).Keys)
  {
    assert LinkHolds(db, l);
  }

  lemma SecondDone(copy: Tables, db: Tables, m: nat)
    requires m + 1 < STATEMENTS && TableOf(Nth(m)) == TableOf(Nth(m + 1))
    ensures At(After(copy, db, m + 2), TableOf(Nth(m))) == NewRows(Nth(m + 1), copy, After(copy, db, m + 1))
  {
    JustDone(copy, db, m + 1);
  }

  lemma CleanOfOrders(was: Tables, now: Tables, t: Table)
    requires Intact(was) && HangsOnOrders(t) && Added(At(was, t), At(now, t))
    ensures At(After(was, now, CleanAt(t)), t) == At(was, t) <==>
        BelongsTo(At(was, t), At(now, t), Fresh(was, now, Orders))
  {
    hide After, Intact, IsFixture, Added, BelongsTo;
    var m := FirstAt(t);
    assert Nth(m) == DeleteOfNewOrders(t);
    JustDone(was, now, m);
    Before(was, now, t, m);
    Before(was, now, Orders, m);
    LinkOf(was, Link(t, "order_id", Orders));
    OfOrdersIs(At(was, t), At(now, t), At(was, Orders).Keys, Fresh(was, now, Orders));
  }

  lemma CleanDeleted(was: Tables, now: Tables, t: Table)
    requires Adds(was, now)
    requires t.Ledger? || t.Notices? || t.Orders? || t.Customers? || t.Postings?
    ensures At(After(was, now, CleanAt(t)), t) == At(was, t)
  {
    hide After, IsFixture;
    var m := FirstAt(t);
    assert Nth(m) == DeleteNew(t);
    JustDone(was, now, m);
    Before(was, now, t, m);
    KeptIs(At(was, t), At(now, t));
  }

  lemma CleanUpdated(was: Tables, now: Tables, t: Table)
    requires Adds(was, now) && (t.Coupons? || t.Accounts?)
    ensures At(After(was, now, CleanAt(t)), t) == At(was, t)
  {
    hide After, IsFixture;
    var m := FirstAt(t);
    var columns := if t.Coupons? then COUPON_COLUMNS else ACCOUNT_COLUMNS;
    assert Nth(m) == Restore(t, columns);
    JustDone(was, now, m);
    Before(was, now, t, m);
    MendedAlone(At(was, t), At(now, t), columns);
  }

  lemma CleanMended(was: Tables, now: Tables, t: Table)
    requires Adds(was, now) && (t.Leads? || t.Shelves? || t.Sequences?)
    ensures At(After(was, now, FirstAt(t) + 1), t) == Kept(At(now, t), At(was, t))
    ensures At(After(was, now, CleanAt(t)), t) == At(was, t)
  {
    hide After, IsFixture;
    var m := FirstAt(t);
    var columns := if t.Leads? then LEAD_COLUMNS else if t.Shelves? then SHELF_COLUMNS else SEQUENCE_COLUMNS;
    assert Nth(m) == DeleteNew(t) && Nth(m + 1) == Restore(t, columns);
    JustDone(was, now, m);
    SecondDone(was, now, m);
    Before(was, now, t, m);
    MendedIs(At(was, t), At(now, t), columns);
  }

  lemma CleanCarts(was: Tables, now: Tables)
    requires Adds(was, now)
    ensures At(After(was, now, 19), Carts) == Kept(At(now, Carts), At(was, Carts))
    ensures At(After(was, now, CleanAt(Carts)), Carts) == At(was, Carts)
  {
    hide After, IsFixture;
    assert Nth(18) == DeleteNew(Carts) && Nth(19) == RestoreFixtures(CART_COLUMNS);
    JustDone(was, now, 18);
    SecondDone(was, now, 18);
    Before(was, now, Carts, 18);
    CartsAre(was, now);
  }

  /** Between its two statements nothing touches the lines. */
  lemma ItemsCleared(was: Tables, now: Tables, k: nat)
    requires 18 <= k <= 20
    ensures At(After(was, now, k), CartItems) == OtherItems(was, now)
  {
    hide Nth, NewRows, IsFixture;
    if k == 18 {
      ItemsJustCleared(was, now);
    } else {
      Touching(k - 1);
      ItemsCleared(was, now, k - 1);
    }
  }

  lemma ItemsJustCleared(was: Tables, now: Tables)
    ensures At(After(was, now, 18), CartItems) == OtherItems(was, now)
  {
    hide After, IsFixture;
    assert Nth(17) == ClearItems;
    JustDone(was, now, 17);
    Before(was, now, CartItems, 17);
    Before(was, now, Carts, 17);
  }

  lemma CleanItems(was: Tables, now: Tables)
    requires Intact(was) && Adds(was, now)
    ensures OtherItems(was, now).Keys !! CopiedItems(was).Keys
    ensures At(After(was, now, CleanAt(CartItems)), CartItems) == At(was, CartItems)
  {
    hide After, IsFixture, Intact;
    assert Nth(20) == PutItemsBack;
    JustDone(was, now, 20);
    ItemsCleared(was, now, 20);
    LinkOf(was, Link(CartItems, "cart_id", Carts));
    ItemsAre(was, now);
  }

  /** Every other table is put back whatever hangs where. */
  lemma CleanBesides(was: Tables, now: Tables, t: Table, k: nat)
    requires Intact(was) && Adds(was, now) && CleanAt(t) <= k <= STATEMENTS && !HangsOnOrders(t)
    ensures At(After(was, now, k), t) == At(was, t)
  {
    hide After, Intact, Adds;
    Since(was, now, t, k);
    match t {
      case Leads | Shelves | Sequences => CleanMended(was, now, t);
      case Ledger | Notices | Orders | Customers | Postings => CleanDeleted(was, now, t);
      case Coupons | Accounts => CleanUpdated(was, now, t);
      case Carts => CleanCarts(was, now);
      case CartItems => CleanItems(was, now);
    }
  }

  lemma Clean(was: Tables, now: Tables, t: Table, k: nat)
    requires Intact(was) && Follows(was, now) && CleanAt(t) <= k <= STATEMENTS
    ensures At(After(was, now, k), t) == At(was, t)
  {
    hide After, Intact, Changed, Added, BelongsTo, CartsChanged, ItemsChanged;
    if HangsOnOrders(t) {
      Since(was, now, t, k);
      CleanOfOrders(was, now, t);
    } else {
      CleanBesides(was, now, t, k);
    }
  }

  lemma FollowsAdds(was: Tables, now: Tables)
    requires Follows(was, now)
    ensures Adds(was, now)
  {
  }

  // ---- Links, after every statement ---------------------------------------------------

  /** Every row of the table is one of the run's or one that was copied. */
  ghost predicate Drawn(rows: Rows, was: Rows, now: Rows) {
    forall id | id in rows :: (id in now && rows[id] == now[id]) || (id in was && rows[id] == was[id])
  }

  lemma RowsAreDrawn(was: Tables, now: Tables, t: Table, k: nat)
    requires Intact(was) && Follows(was, now) && k <= STATEMENTS
    ensures Drawn(At(After(was, now, k), t), At(was, t), At(now, t))
  {
    hide After, Intact, Follows, Adds;
    FollowsAdds(was, now);
    if k <= FirstAt(t) {
      Before(was, now, t, k);
    } else if k >= CleanAt(t) {
      Clean(was, now, t, k);
    } else if t.CartItems? {
      ItemsCleared(was, now, k);
    } else if t.Carts? {
      CleanCarts(was, now);
    } else {
      CleanMended(was, now, t);
    }
  }

  /** What links may lead to. */
  predicate IsTarget(t: Table) {
    t.Orders? || t.Customers? || t.Carts? || t.Coupons? || t.Accounts?
  }

  /** No copied row is ever gone, nor any row before its table is touched. */
  lemma TargetsStay(was: Tables, now: Tables, t: Table, k: nat)
    requires Intact(was) && Follows(was, now) && k <= STATEMENTS && IsTarget(t)
    ensures At(was, t).Keys <= At(After(was, now, k), t).Keys
    ensures k <= FirstAt(t) || t.Coupons? || t.Accounts? ==> At(now, t).Keys <= At(After(was, now, k), t).Keys
  {
    hide After, Intact, IsFixture, Changed, BelongsTo, ItemsChanged;
    if k <= FirstAt(t) {
      Before(was, now, t, k);
    } else if k >= CleanAt(t) {
      Clean(was, now, t, k);
    } else {
      CleanCarts(was, now);
    }
  }

  lemma LinkStays(was: Tables, now: Tables, l: Link, k: nat)
    requires Intact(was) && Intact(now) && Follows(was, now) && NoCartOfANewCustomer(was, now)
    requires l in LINKS && k <= STATEMENTS
    ensures LinkHolds(After(was, now, k), l)
  {
    hide After, Follows, Intact, IsFixture;
    var rows, ids := At(After(was, now, k), l.from), At(After(was, now, k), l.to).Keys;
    LinkOf(was, l);
    LinkOf(now, l);
    RowsAreDrawn(was, now, l.from, k);
    TargetsStay(was, now, l.to, k);
    if k > FirstAt(l.to) && !l.to.Coupons? && !l.to.Accounts? {
      LateLink(was, now, l, k);
    }
  }

  /** Once its target has been cleaned, a table links to what was copied alone. */
  lemma LateLink(was: Tables, now: Tables, l: Link, k: nat)
    requires Intact(was) && Intact(now) && Follows(was, now) && NoCartOfANewCustomer(was, now)
    requires l in LINKS && FirstAt(l.to) < k <= STATEMENTS && !l.to.Coupons? && !l.to.Accounts?
    ensures forall id | id in At(After(was, now, k), l.from) ::
              Holds(At(After(was, now, k), l.from)[id], l.column, At(was, l.to).Keys)
  {
    hide After, Follows, Intact, IsFixture;
    LinkOf(was, l);
    LinkOf(now, l);
    if k >= CleanAt(l.from) {
      Clean(was, now, l.from, k);
    } else if l.from.Carts? {
      RowsAreDrawn(was, now, Carts, k);
    } else {
      assert l == Link(CartItems, "cart_id", Carts);
      ItemsCleared(was, now, k);
    }
  }

  lemma StageIsIntact(was: Tables, now: Tables, k: nat)
    requires Intact(was) && Intact(now) && Follows(was, now) && NoCartOfANewCustomer(was, now) && k <= STATEMENTS
    ensures Intact(After(was, now, k))
  {
    hide After, Follows;
    forall l | l in LINKS ensures LinkHolds(After(was, now, k), l) {
      LinkStays(was, now, l, k);
    }
  }

  /** With a cart made over to a customer of the run's, the customers cannot be deleted. */
  lemma NewCustomersStop(was: Tables, now: Tables)
    requires Intact(was) && Intact(now) && Follows(was, now) && !NoCartOfANewCustomer(was, now)
    ensures !Intact(After(was, now, 10))
  {
    hide After, Intact, Follows, IsFixture;
    var id :| id in At(now, Carts) && !Holds(At(now, Carts)[id], "customer_id", At(was, Customers).Keys);
    Before(was, now, Carts, 10);
    Clean(was, now, Customers, 10);
    var l := Link(Carts, "customer_id", Customers);
    assert !LinkHolds(After(was, now, 10), l);
    if Intact(After(was, now, 10)) {
      LinkOf(After(was, now, 10), l);
    }
  }

  // ---- The reset ----------------------------------------------------------------------

  /** Every statement goes through, each leaving every link holding, exactly when no cart is a new
      customer's; and then every table is as it was copied. */
  lemma ResetRestoresExactlyWhen(was: Tables, now: Tables)
    requires Intact(was) && Intact(now) && Follows(was, now)
    ensures Completes(was, now) <==> NoCartOfANewCustomer(was, now)
    ensures forall t: Table :: At(After(was, now, STATEMENTS), t) == At(was, t)
  {
    hide After, Works, Intact, Follows, NoCartOfANewCustomer, CleanAt, Nth;
    forall t: Table ensures At(After(was, now, STATEMENTS), t) == At(was, t) {
      CleanInTime(t);
      Clean(was, now, t, STATEMENTS);
    }
    if NoCartOfANewCustomer(was, now) {
      forall k | 0 <= k < STATEMENTS ensures Works(Nth(k), was, After(was, now, k)) {
        StatementWorks(was, now, k);
      }
    } else {
      TenthStops(was, now);
    }
  }

  lemma CleanInTime(t: Table)
    ensures CleanAt(t) <= STATEMENTS
  {
  }

  lemma TenthStops(was: Tables, now: Tables)
    requires Intact(was) && Intact(now) && Follows(was, now) && !NoCartOfANewCustomer(was, now)
    ensures !Works(Nth(9), was, After(was, now, 9))
  {
    hide Intact, Follows, NoCartOfANewCustomer, NewRows;
    NewCustomersStop(was, now);
  }

  lemma StatementWorks(was: Tables, now: Tables, k: nat)
    requires Intact(was) && Intact(now) && Follows(was, now) && NoCartOfANewCustomer(was, now) && k < STATEMENTS
    ensures Works(Nth(k), was, After(was, now, k))
  {
    hide Intact, Follows, Adds, NoCartOfANewCustomer, IsFixture, NewRows, CopiedItems;
    FollowsAdds(was, now);
    StageIsIntact(was, now, k + 1);
    if k == 20 {
      ItemsCleared(was, now, 20);
      CleanItems(was, now);
    }
  }

  /** Nothing a run wrote -- a time on a row least of all -- is in what the reset leaves. */
  lemma ResetForgets(was: Tables, one: Tables, other: Tables)
    requires Intact(was) && Intact(one) && Intact(other) && Follows(was, one) && Follows(was, other)
    ensures forall t: Table :: At(After(was, one, STATEMENTS), t) == At(After(was, other, STATEMENTS), t)
  {
    ResetRestoresExactlyWhen(was, one);
    ResetRestoresExactlyWhen(was, other);
  }

  /** Whatever was written, by a run of this kind or not, the figures of a row that stays are those copied. */
  lemma FiguresPutBack(copy: Tables, db: Tables, t: Table, column: string, id: nat)
    requires (t, column) in {
        (Shelves, "on_hand"), (Shelves, "reserved"), (Coupons, "used_count"), (Accounts, "balance"),
        (Sequences, "last_value"), (Leads, "status"), (Leads, "recovered_order_id")}
    requires id in At(copy, t) && column in At(copy, t)[id] && id in At(After(copy, db, STATEMENTS), t)
    ensures column in At(After(copy, db, STATEMENTS), t)[id]
    ensures At(After(copy, db, STATEMENTS), t)[id][column] == At(copy, t)[id][column]
  {
    hide After;
    Since(copy, db, t, STATEMENTS);
    JustDone(copy, db, CleanAt(t) - 1);
  }

  lemma SameRowsAdd(rows: Rows, columns: set<string>)
    ensures Changed(rows, rows, columns) && Added(rows, rows)
    ensures forall orders :: BelongsTo(rows, rows, orders)
  {
  }

  lemma SameItems(was: Tables, now: Tables)
    requires At(now, Carts) == At(was, Carts) && At(now, CartItems) == At(was, CartItems)
    ensures CartsChanged(was, now) && ItemsChanged(was, now)
  {
    hide IsFixture;
  }

  lemma NothingDone(was: Tables, now: Tables)
    requires Intact(was) && forall t: Table :: At(now, t) == At(was, t)
    ensures Follows(was, now) && NoCartOfANewCustomer(was, now)
  {
    hide Intact, Changed, Added, BelongsTo, CartsChanged, ItemsChanged, At;
    LinkOf(was, Link(Carts, "customer_id", Customers));
    SameItems(was, now);
    forall t: Table ensures Added(At(was, t), At(now, t)) &&
        BelongsTo(At(was, t), At(now, t), Fresh(was, now, Orders)) {
      SameRowsAdd(At(was, t), {});
    }
    forall t: Table, columns: set<string> ensures Changed(At(was, t), At(now, t), columns) {
      SameRowsAdd(At(was, t), columns);
    }
  }

  lemma StillIntact(was: Tables, now: Tables)
    requires Intact(was) && forall t: Table :: At(now, t) == At(was, t)
    ensures Intact(now)
  {
    forall l | l in LINKS ensures LinkHolds(now, l) {
      LinkOf(was, l);
    }
  }

  /** Reset again, it goes through again and changes nothing. */
  lemma ResetTwice(was: Tables, now: Tables)
    requires Intact(was) && Intact(now) && Follows(was, now)
    ensures var once := After(was, now, STATEMENTS);
      Completes(was, once) && forall t: Table :: At(After(was, once, STATEMENTS), t) == At(once, t)
  {
    hide After, Intact, Follows, NoCartOfANewCustomer, Completes;
    var once := After(was, now, STATEMENTS);
    ResetRestoresExactlyWhen(was, now);
    NothingDone(was, once);
    StillIntact(was, once);
    ResetRestoresExactlyWhen(was, once);
  }

  /** Of a run that hung things where it would: the tables of what hangs on orders are each put back
      exactly when all the run put in them hung on orders of its own; all the others always are. */
  lemma PutBackExactlyWhen(was: Tables, now: Tables, t: Table)
    requires Intact(was) && Adds(was, now)
    ensures At(After(was, now, STATEMENTS), t) == At(was, t) <==>
            (HangsOnOrders(t) ==> BelongsTo(At(was, t), At(now, t), Fresh(was, now, Orders)))
  {
    hide After, Intact, Changed, Added, BelongsTo, CartsChanged, ItemsChanged;
    CleanInTime(t);
    if HangsOnOrders(t) {
      Since(was, now, t, STATEMENTS);
      CleanOfOrders(was, now, t);
    } else {
      CleanBesides(was, now, t, STATEMENTS);
    }
  }

  /** An order, and a payment put on it afterwards. */
  const ONE_ORDER: Tables := map[Orders := map[1 := map[]]]
  const PAID_LATE: Tables := ONE_ORDER[Payments := map[2 := map["order_id" := Ref(1)]]]

  /** It stays. */
  lemma ALatePaymentStays()
    ensures Intact(ONE_ORDER) && Intact(PAID_LATE) && Adds(ONE_ORDER, PAID_LATE)
    ensures At(After(ONE_ORDER, PAID_LATE, STATEMENTS), Payments) != At(ONE_ORDER, Payments)
  {
    hide After;
    LateIsIntact();
    LateAdds();
    assert 2 in At(PAID_LATE, Payments) &&
        !Names(At(PAID_LATE, Payments)[2], "order_id", Fresh(ONE_ORDER, PAID_LATE, Orders));
    PutBackExactlyWhen(ONE_ORDER, PAID_LATE, Payments);
  }

  lemma LateIsIntact()
    ensures Intact(ONE_ORDER) && Intact(PAID_LATE)
  {
  }

  lemma LateAdds()
    ensures Adds(ONE_ORDER, PAID_LATE)
  {
    hide IsFixture;
  }
}
