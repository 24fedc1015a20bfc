/** Which two requests can bring each other to a standstill: exactly those that do not begin with the
    same one of the rows both of them lock. */
module LockPairs {
  import opened Wrappers
  import opened RowLocks
  import opened LockOrder
  import opened Recipes

  // ---- Two sequences of locks -----------------------------------------------------------

  /** The first of `a`'s that is one of `b`'s as well. */
  function FirstShared<K(==)>(a: seq<K>, b: seq<K>): Option<K> {
    if a == [] then None else if a[0] in b then Some(a[0]) else FirstShared(a[1..], b)
  }

  /** Each has got so far that it holds what the other wants, and nothing the other holds. */
  ghost predicate CrossAt<K(!new)>(a: seq<K>, i: nat, b: seq<K>, j: nat) {
    && i < |a| && j < |b| && a[i] in b[..j] && b[j] in a[..i]
    && forall k :: k in a[..i] ==> k !in b[..j]
  }

  lemma {:induction false} FirstSharedIs<K(!new)>(a: seq<K>, b: seq<K>) returns (i: nat)
    ensures i <= |a| && (forall m :: 0 <= m < i ==> a[m] !in b)
    ensures FirstShared(a, b) == (if i < |a| then Some(a[i]) else None)
    ensures i < |a| ==> a[i] in b
  {
    i := 0;
    if a != [] && a[0] !in b {
      i := FirstSharedIs(a[1..], b);
      i := i + 1;
    }
  }

  lemma {:induction false} SharedIfAny<K(!new)>(a: seq<K>, b: seq<K>)
    ensures FirstShared(a, b).Some? <==> exists k :: k in a && k in b
    ensures FirstShared(a, b).Some? ==> FirstShared(a, b).value in a && FirstShared(a, b).value in b
  {
    if a != [] {
      SharedIfAny(a[1..], b);
      assert a[0] in a;
    }
  }

  lemma CrossingBeginsApart<K(!new)>(a: seq<K>, i: nat, b: seq<K>, j: nat)
    requires CrossAt(a, i, b, j)
    ensures FirstShared(a, b) != FirstShared(b, a)
  {
    var f := FirstSharedIs(a, b);
    var g := FirstSharedIs(b, a);
    var m, n :| 0 <= m < i && a[m] == b[j] && 0 <= n < j && b[n] == a[i];
    assert f <= m && a[f] in a[..i];
    assert g <= n && b[g] in b[..j];
  }

  lemma {:induction false} FirstIn<K(!new)>(b: seq<K>, held: seq<K>) returns (j: nat)
    requires exists k :: k in b && k in held
    ensures j < |b| && b[j] in held && forall n :: 0 <= n < j ==> b[n] !in held
  {
    j := 0;
    if b[0] !in held {
      j := FirstIn(b[1..], held);
      j := j + 1;
    }
  }

  lemma BeginningApartCrosses<K(!new)>(a: seq<K>, b: seq<K>) returns (i: nat, j: nat)
    requires FirstShared(a, b) != FirstShared(b, a)
    ensures CrossAt(a, i, b, j)
  {
    var f := FirstSharedIs(a, b);
    var g := FirstSharedIs(b, a);
    assert f < |a| && g < |b| && a[f] != b[g] by {
      if f < |a| {
        var n :| 0 <= n < |b| && b[n] == a[f];
      }
      if g < |b| {
        var n :| 0 <= n < |a| && a[n] == b[g];
      }
    }
    i := FirstIn(a, [b[g]]);
    assert a[f] in a[..i];
    j := FirstIn(b, a[..i]);
    assert g < j;
  }

  // ---- The locks a request takes ----------------------------------------------------------

  lemma {:induction false} LocksInGrow<K, V, A>(r: Request<K, V, A>, n: nat, m: nat)
    requires n < m <= |r.touches| && r.touches[n].locks
    ensures var i := |LocksIn(r, n)|;
      i < |LocksIn(r, m)| && LocksIn(r, m)[..i] == LocksIn(r, n) && LocksIn(r, m)[i] == r.touches[n].key
  {
    if n < m - 1 {
      LocksInGrow(r, n, m - 1);
    }
  }

  /** The touch that takes the `i`-th lock. */
  lemma {:induction false} LockTaken<K, V, A>(r: Request<K, V, A>, m: nat, i: nat) returns (n: nat)
    requires m <= |r.touches| && i < |LocksIn(r, m)|
    ensures n < m && r.touches[n].locks && |LocksIn(r, n)| == i
  {
    n := m - 1;
    if i < |LocksIn(r, m - 1)| {
      n := LockTaken(r, m - 1, i);
    }
  }

  /** How many touches it asks for when it is alone, from the `n`-th, until it is refused or done. */
  function ReachFrom<K, V, A>(r: Request<K, V, A>, n: nat, db: map<K, V>): (m: nat)
    requires n <= |r.touches|
    ensures n <= m <= |r.touches|
    ensures forall i :: n <= i < m && i > 0 ==> GoesOn(r, i, db)
    ensures m < |r.touches| ==> 0 < m && !GoesOn(r, m, db)
    decreases |r.touches| - n
  {
    if n < |r.touches| && (n == 0 || GoesOn(r, n, db)) then ReachFrom(r, n + 1, db) else n
  }

  function Reach<K, V, A>(r: Request<K, V, A>, db: map<K, V>): (m: nat)
    ensures m <= |r.touches|
  {
    ReachFrom(r, 0, db)
  }

  /** The locks it asks for when it is alone. */
  function Tries<K, V, A>(r: Request<K, V, A>, db: map<K, V>): seq<K> {
    LocksIn(r, Reach(r, db))
  }

  lemma ReachedExactlyWhen<K, V, A>(r: Request<K, V, A>, n: nat, db: map<K, V>)
    ensures n < Reach(r, db) <==> n < |r.touches| && GetsTo(r, n, db)
  {
    var m := Reach(r, db);
    assert GetsTo(r, n, db) && 0 < m <= n ==> GoesOn(r, m, db);
  }

  // ---- Two requests -----------------------------------------------------------------------

  /** While neither has finished, each has read what it would have read alone. */
  ghost predicate NobodyYet<K(!new), V(!new), A>(
      reqs: seq<Request<K, V, A>>, db: map<K, V>, s: System<K, V, A>) {
    (forall p :: 0 <= p < |s.workers| ==> Active(s, p)) ==>
      s.db == db && |s.workers| == |reqs| &&
      forall p :: 0 <= p < |reqs| ==>
        |s.workers[p].view| <= |reqs[p].touches| &&
        s.workers[p].view == Alone(reqs[p], |s.workers[p].view|, db) &&
        GetsTo(reqs[p], |s.workers[p].view|, db)
  }

  lemma NobodyYetStep<K(!new), V(!new), A>(
      reqs: seq<Request<K, V, A>>, db: map<K, V>, s: System<K, V, A>, p: nat)
    requires NobodyYet(reqs, db, s) && Enabled(reqs, s, p)
    ensures NobodyYet(reqs, db, Step(reqs, s, p))
  {
    var s' := Step(reqs, s, p);
    if forall x :: 0 <= x < |s'.workers| ==> Active(s', x) {
      assert Active(s', p);
      forall x | 0 <= x < |s.workers| ensures Active(s, x) {
        assert Active(s', x);
      }
      var r, n := reqs[p], |s.workers[p].view|;
      assert s'.workers[p].view == Alone(r, n + 1, db);
      assert GoesOn(r, n + 1, db);
    }
  }

  lemma {:induction false} NobodyYetRuns<K(!new), V(!new), A>(
      reqs: seq<Request<K, V, A>>, db: map<K, V>, s: System<K, V, A>, schedule: seq<nat>)
    requires NobodyYet(reqs, db, s) && Schedulable(reqs, s, schedule)
    ensures NobodyYet(reqs, db, Execute(reqs, s, schedule))
    decreases |schedule|
  {
    if schedule != [] {
      NobodyYetStep(reqs, db, s, schedule[0]);
      NobodyYetRuns(reqs, db, Step(reqs, s, schedule[0]), schedule[1..]);
    }
  }

  /** A worker with nobody left beside it can move. */
  lemma LastOneMoves<K(!new), V(!new), A>(reqs: seq<Request<K, V, A>>, s: System<K, V, A>, p: nat)
    requires Running(reqs, s) && p < |reqs|
    ensures Active(s, p) && (forall q :: 0 <= q < |reqs| && q != p ==> !Active(s, q)) ==> Enabled(reqs, s, p)
  {
    if Waits(reqs, s, p) && Wanted(reqs, s, p) in s.owner {
      assert Active(s, s.owner[Wanted(reqs, s, p)]);
    }
  }

  lemma StuckCrosses<K(!new), V(!new), A>(
      r: Request<K, V, A>, q: Request<K, V, A>, db: map<K, V>, s: System<K, V, A>) returns (n: nat, m: nat)
    requires Running([r, q], s) && NobodyYet([r, q], db, s) && Stuck([r, q], s)
    ensures n < Reach(r, db) && r.touches[n].locks && m < Reach(q, db) && q.touches[m].locks
    ensures Took(r, n, q.touches[m].key) && Took(q, m, r.touches[n].key)
    ensures forall k :: !(Took(r, n, k) && Took(q, m, k))
  {
    var reqs := [r, q];
    LastOneMoves(reqs, s, 0);
    LastOneMoves(reqs, s, 1);
    n, m := |s.workers[0].view|, |s.workers[1].view|;
    assert !Enabled(reqs, s, 0) && !Enabled(reqs, s, 1);
    assert Waits(reqs, s, 0) && Waits(reqs, s, 1);
    var a, b := r.touches[n].key, q.touches[m].key;
    assert s.owner[a] == 1 && s.owner[b] == 0;
    assert Took(reqs[0], n, b) && Took(reqs[1], m, a);
    ReachedExactlyWhen(r, n, db);
    ReachedExactlyWhen(q, m, db);
    forall k ensures !(Took(r, n, k) && Took(q, m, k)) {
      assert Took(reqs[0], n, k) ==> k in s.owner && s.owner[k] == 0;
      assert Took(reqs[1], m, k) ==> k in s.owner && s.owner[k] == 1;
    }
  }

  lemma TouchesCross<K(!new), V(!new), A>(
      r: Request<K, V, A>, n: nat, q: Request<K, V, A>, m: nat, db: map<K, V>)
    requires n < Reach(r, db) && r.touches[n].locks && m < Reach(q, db) && q.touches[m].locks
    ensures var i, j := |LocksIn(r, n)|, |LocksIn(q, m)|;
      CrossAt(Tries(r, db), i, Tries(q, db), j) <==>
        && Took(r, n, q.touches[m].key) && Took(q, m, r.touches[n].key)
        && forall k :: !(Took(r, n, k) && Took(q, m, k))
  {
    LocksInGrow(r, n, Reach(r, db));
    LocksInGrow(q, m, Reach(q, db));
    forall k ensures k in LocksIn(r, n) <==> Took(r, n, k) {
      LocksInTaken(r, n, k);
    }
    forall k ensures k in LocksIn(q, m) <==> Took(q, m, k) {
      LocksInTaken(q, m, k);
    }
  }

  /** Two requests can deadlock exactly when, of the rows both would lock, they begin with
      different ones. */
  lemma PairDeadlocksExactlyWhen<K(!new), V(!new), A>(r: Request<K, V, A>, q: Request<K, V, A>, db: map<K, V>)
    ensures CanDeadlock([r, q], db) <==>
            FirstShared(Tries(r, db), Tries(q, db)) != FirstShared(Tries(q, db), Tries(r, db))
  {
    hide CrossAt, Tries, FirstShared;
    var reqs := [r, q];
    if CanDeadlock(reqs, db) {
      var schedule :| Schedulable(reqs, Start(reqs, db), schedule) &&
          Stuck(reqs, Execute(reqs, Start(reqs, db), schedule));
      StartsAlone(reqs, db);
      RunsOn(reqs, Start(reqs, db), schedule);
      NobodyYetRuns(reqs, db, Start(reqs, db), schedule);
      var n, m := StuckCrosses(r, q, db, Execute(reqs, Start(reqs, db), schedule));
      TouchesCross(r, n, q, m, db);
      CrossingBeginsApart(Tries(r, db), |LocksIn(r, n)|, Tries(q, db), |LocksIn(q, m)|);
    }
    if FirstShared(Tries(r, db), Tries(q, db)) != FirstShared(Tries(q, db), Tries(r, db)) {
      CrossedTriesDeadlock(r, q, db);
    }
  }

  lemma StartsAlone<K(!new), V(!new), A>(reqs: seq<Request<K, V, A>>, db: map<K, V>)
    ensures NobodyYet(reqs, db, Start(reqs, db)) && Running(reqs, Start(reqs, db))
  {
    forall p | 0 <= p < |reqs| ensures Alone(reqs[p], 0, db) == [] {
    }
  }

  lemma CrossedTriesDeadlock<K(!new), V(!new), A>(r: Request<K, V, A>, q: Request<K, V, A>, db: map<K, V>)
    requires FirstShared(Tries(r, db), Tries(q, db)) != FirstShared(Tries(q, db), Tries(r, db))
    ensures CanDeadlock([r, q], db)
  {
    hide FirstShared, CanDeadlock;
    var i, j := BeginningApartCrosses(Tries(r, db), Tries(q, db));
    var n := LockTaken(r, Reach(r, db), i);
    var m := LockTaken(q, Reach(q, db), j);
    TouchesCross(r, n, q, m, db);
    ReachedExactlyWhen(r, n, db);
    ReachedExactlyWhen(q, m, db);
    CrossedCanDeadlock(r, n, q, m, db);
  }

  // ---- The locks of a recipe ----------------------------------------------------------------

  /** Alone, the request would be made. */
  ghost predicate WouldGo<K, V, A>(c: Recipe<K, V, A>, db: map<K, V>) {
    c.fault.None? && (c.claim.Some? ==> c.claim.value !in db) && c.check(Snapshot(Keys(c), db)).None?
  }

  /** One that would be made asks for all its locks. */
  lemma TriesAll<K(!new), V(!new), A>(c: Recipe<K, V, A>, claims: K -> bool, db: map<K, V>)
    requires WellMade(c, claims) && WouldGo(c, db)
    ensures Tries(ToRequest(c), db) == InOrder(c)
  {
    var n := |Touches(c)|;
    GetsThrough(c, claims, db);
    if n > 0 {
      ReachedExactlyWhen(ToRequest(c), n - 1, db);
    }
    LocksOfRecipe(c, n);
    assert InOrder(c)[..|InOrder(c)|] == InOrder(c);
  }

  /** Nothing is against it before its rows are read, and its key, if it has one, is looked up first. */
  ghost predicate MayStart<K(!new), V(!new), A>(c: Recipe<K, V, A>, db: map<K, V>) {
    && c.fault.None? && (c.claim.Some? ==> c.claim.value !in db && c.claim.value !in Keys(c))
    && !c.again && Firm(c.check)
  }

  /** One whose check is firm gets past its first `n` touches exactly when it is not refused for what
      it has read by then. */
  lemma FirmGetsTo<K(!new), V(!new), A>(c: Recipe<K, V, A>, n: nat, db: map<K, V>)
    requires MayStart(c, db) && n <= |Touches(c)|
    ensures GetsTo(ToRequest(c), n, db) <==> !Checked(c, n) || c.check(Snapshot(Asked(c, n), db)).None?
  {
    hide Firm;
    if Checked(c, n) && c.check(Snapshot(Asked(c, n), db)).Some? {
      GateChecks(c, n, db);
      assert !GoesOn(ToRequest(c), n, db);
    } else {
      forall i | 1 <= i <= n ensures GoesOn(ToRequest(c), i, db) {
        if Checked(c, i) {
          GateChecks(c, i, db);
          EarlierPasses(c, i, n, db);
        } else {
          GateIsSilent(c, i, db);
        }
      }
    }
  }

  lemma EarlierPasses<K(!new), V(!new), A>(c: Recipe<K, V, A>, i: nat, n: nat, db: map<K, V>)
    requires MayStart(c, db) && 0 < i <= n <= |Touches(c)| && Checked(c, i) && Checked(c, n)
    requires c.check(Snapshot(Asked(c, n), db)).None?
    ensures c.check(Snapshot(Asked(c, i), db)).None?
  {
    assert Asked(c, i) == Asked(c, n)[..|Asked(c, i)|];
    assert Grows(Snapshot(Asked(c, i), db), Snapshot(Asked(c, n), db));
  }

  /** With its key used, or something wrong with it as it is asked, it asks for no row. */
  lemma StopsAtOnce<K(!new), V(!new), A>(c: Recipe<K, V, A>, db: map<K, V>)
    requires c.fault.Some? || (c.claim.Some? && c.claim.value in db)
    requires c.claim.Some? ==> c.first
    ensures Tries(ToRequest(c), db) == []
  {
    var r := ToRequest(c);
    var n := Reach(r, db);
    LocksOfRecipe(c, n);
    if c.claim.Some? {
      assert r.touches[0] == Touch(c.claim.value, false);
      assert Alone(r, 1, db) == [Read(db, c.claim.value)];
      assert !GoesOn(r, 1, db);
      ReachedExactlyWhen(r, 1, db);
    }
  }

  /** No key, and every row checked as it is locked. */
  predicate Plain<K(==), V, A>(c: Recipe<K, V, A>) {
    c.claim.None? && c.before == c.between == [] && !c.again && c.after != [] && c.fault.None?
  }

  lemma PlainTouches<K, V, A>(c: Recipe<K, V, A>, n: nat)
    requires Plain(c) && n <= |c.after|
    ensures |Touches(c)| == |c.after| && LockCount(c, n) == n
    ensures InOrder(c) == c.after == Keys(c)
    ensures Checked(c, n) <==> n > 0
    ensures n > 0 ==> Asked(c, n) == c.after[..n]
  {
  }

  /** It asks for rows until it is refused for those it has. */
  lemma PlainTries<K(!new), V(!new), A>(c: Recipe<K, V, A>, db: map<K, V>) returns (n: nat)
    requires Plain(c) && Firm(c.check)
    ensures 0 < n <= |c.after| && Tries(ToRequest(c), db) == c.after[..n]
    ensures forall m :: 0 < m < |c.after| ==> (m < n <==> c.check(Snapshot(c.after[..m], db)).None?)
  {
    hide Firm, Snapshot, Touches, Asked, Checked, Keys, InOrder, LockCount, GetsTo, LocksIn;
    var r := ToRequest(c);
    PlainTouches(c, 0);
    n := Reach(r, db);
    PlainTouches(c, n);
    LocksOfRecipe(c, n);
    ReachedExactlyWhen(r, 0, db);
    assert GetsTo(r, 0, db) by {
      NothingYet(r, db);
    }
    forall m: nat | 0 < m < |c.after| ensures m < n <==> c.check(Snapshot(c.after[..m], db)).None? {
      PlainTouches(c, m);
      ReachedExactlyWhen(r, m, db);
      FirmGetsTo(c, m, db);
    }
  }

  lemma NothingYet<K(!new), V(!new), A>(r: Request<K, V, A>, db: map<K, V>)
    ensures GetsTo(r, 0, db)
  {
  }

  /** One row first, then its key if it has one -- looked up before -- then rows checked as they are locked. */
  predicate Numbered<K(==), V, A>(c: Recipe<K, V, A>) {
    |c.before| == 1 && c.between == [] && !c.again && (c.claim.Some? ==> c.first)
  }

  /** The touch that locks the `j`-th row after the key. */
  function TouchAfter<K, V, A>(c: Recipe<K, V, A>, j: nat): nat {
    j + if c.claim.Some? then 3 else 1
  }

  lemma NumberedTouches<K, V, A>(c: Recipe<K, V, A>, j: nat)
    requires Numbered(c) && c.fault.None? && j <= |c.after|
    ensures |Touches(c)| == TouchAfter(c, |c.after|)
    ensures Checked(c, TouchAfter(c, j)) <==> j > 0
    ensures j > 0 ==> Asked(c, TouchAfter(c, j)) == c.before + c.after[..j]
  {
  }

  lemma NumberedLockCount<K, V, A>(c: Recipe<K, V, A>, n: nat)
    requires Numbered(c)
    ensures LockCount(c, n) == n - if c.claim.Some? && n > 0 then 1 else 0
  {
  }

  lemma NumberedReaches<K(!new), V(!new), A>(c: Recipe<K, V, A>, db: map<K, V>, j: nat)
    requires Numbered(c) && MayStart(c, db) && j < |c.after|
    ensures Reach(ToRequest(c), db) > TouchAfter(c, j) <==>
        j == 0 || c.check(Snapshot(c.before + c.after[..j], db)).None?
  {
    hide Firm, Snapshot, Touches, Asked, Checked, GetsTo, Reach;
    NumberedTouches(c, j);
    FirmGetsTo(c, TouchAfter(c, j), db);
    ReachedExactlyWhen(ToRequest(c), TouchAfter(c, j), db);
  }

  /** It asks for rows until it is refused for those it has. */
  lemma NumberedTries<K(!new), V(!new), A>(c: Recipe<K, V, A>, db: map<K, V>) returns (n: nat)
    requires Numbered(c) && MayStart(c, db)
    ensures n <= |InOrder(c)| && Tries(ToRequest(c), db) == InOrder(c)[..n]
    ensures forall j :: 0 <= j < |c.after| ==>
              (n > |InOrder(c)| - |c.after| + j <==> j == 0 || c.check(Snapshot(c.before + c.after[..j], db)).None?)
  {
    hide Firm, Snapshot, Touches, Asked, Checked, LockCount, Reach, LocksIn;
    var r := Reach(ToRequest(c), db);
    LocksOfRecipe(c, r);
    NumberedLockCount(c, r);
    n := LockCount(c, r);
    forall j: nat | j < |c.after|
      ensures n > |InOrder(c)| - |c.after| + j <==> j == 0 || c.check(Snapshot(c.before + c.after[..j], db)).None?
    {
      NumberedReaches(c, db, j);
    }
  }

  // ---- Rows locked last -------------------------------------------------------------------------

  lemma ReferringTouches<K, V, A>(c: Recipe<K, V, A>, refs: seq<K>, i: nat)
    requires i < |Touches(c)|
    ensures i < |Touches(Referring(c, refs))| && Touches(Referring(c, refs))[i] == Touches(c)[i]
    ensures |Touches(Referring(c, refs))| == |Touches(c)| + |refs|
  {
  }

  lemma TouchedIsOwn<K, V, A>(c: Recipe<K, V, A>, i: nat)
    requires i < |Touches(c)| && c.claim != Some(Touches(c)[i].key)
    ensures Touches(c)[i].key in Keys(c)
  {
  }

  /** Up to those rows it reads as it did, and only its own. */
  lemma {:induction false} ReferringSees<K, V, A>(c: Recipe<K, V, A>, refs: seq<K>, view: seq<Option<V>>)
    requires |view| <= |Touches(c)|
    ensures Seen(Referring(c, refs), view) == Seen(c, view) && Own(c, Seen(c, view)) == Seen(c, view)
  {
    hide Touches, Keys;
    if view != [] {
      var last := |view| - 1;
      ReferringSees(c, refs, view[..last]);
      ReferringTouches(c, refs, last);
      if c.claim != Some(Touches(c)[last].key) {
        TouchedIsOwn(c, last);
      }
    }
  }

  lemma ReferringGoesOn<K(!new), V(!new), A>(c: Recipe<K, V, A>, refs: seq<K>, n: nat, db: map<K, V>)
    requires 0 < n <= |Touches(c)|
    ensures GoesOn(ToRequest(Referring(c, refs)), n, db) <==> GoesOn(ToRequest(c), n, db)
  {
    hide Touches, Keys;
    var r, r' := ToRequest(c), ToRequest(Referring(c, refs));
    ReferringTouches(c, refs, n - 1);
    forall i: nat | i < n ensures r.touches[i] == r'.touches[i] {
      ReferringTouches(c, refs, i);
    }
    assert Alone(r', n, db) == Alone(r, n, db);
    ReferringSees(c, refs, Alone(r, n, db));
  }

  lemma ReferringInOrder<K, V, A>(c: Recipe<K, V, A>, refs: seq<K>)
    ensures InOrder(Referring(c, refs)) == InOrder(c) + refs
    ensures RefusedOutright(c) ==> |Touches(c)| == |Touches(Referring(c, refs))| == 0
    ensures forall n: nat :: LockCount(Referring(c, refs), n) == LockCount(c, n)
  {
  }

  lemma LocksAfterAll<K, V, A>(c: Recipe<K, V, A>, n: nat)
    requires !RefusedOutright(c) && n >= |Touches(c)|
    ensures LockCount(c, n) == |InOrder(c)| + n - |Touches(c)|
  {
  }

  lemma SameReachAt<K(!new), V(!new), A>(c: Recipe<K, V, A>, refs: seq<K>, i: nat, db: map<K, V>)
    requires i < |Touches(c)|
    ensures i < Reach(ToRequest(Referring(c, refs)), db) <==> i < Reach(ToRequest(c), db)
  {
    hide Touches, GoesOn;
    var r, r' := ToRequest(c), ToRequest(Referring(c, refs));
    ReferringTouches(c, refs, i);
    ReachedExactlyWhen(r, i, db);
    ReachedExactlyWhen(r', i, db);
    forall j | 1 <= j <= i ensures GoesOn(r', j, db) <==> GoesOn(r, j, db) {
      ReferringGoesOn(c, refs, j, db);
    }
  }

  /** It asks for what it asked for, and then, if it comes to them, for those rows. */
  lemma ReferringTries<K(!new), V(!new), A>(c: Recipe<K, V, A>, refs: seq<K>, db: map<K, V>) returns (m: nat)
    ensures m <= |refs| && Tries(ToRequest(Referring(c, refs)), db) == Tries(ToRequest(c), db) + refs[..m]
  {
    hide Touches, Keys, InOrder, LockCount, GoesOn, Reach;
    var n, reach, reach' := |Touches(c)|, Reach(ToRequest(c), db), Reach(ToRequest(Referring(c, refs)), db);
    ReferringInOrder(c, refs);
    LocksOfRecipe(c, reach);
    LocksOfRecipe(Referring(c, refs), reach');
    m := 0;
    if reach < n {
      SameReachAt(c, refs, reach, db);
      SameReachAt(c, refs, reach', db);
    } else if !RefusedOutright(c) {
      if reach' < n {
        SameReachAt(c, refs, reach', db);
      }
      LocksAfterAll(c, n);
      LocksAfterAll(c, reach');
      m := reach' - n;
    }
  }

  // ---- Comparing them -------------------------------------------------------------------------

  lemma {:induction false} FirstOfParts<K(!new)>(a: seq<K>, more: seq<K>, b: seq<K>)
    ensures FirstShared(a + more, b) ==
            if FirstShared(a, b).Some? then FirstShared(a, b) else FirstShared(more, b)
  {
    if a == [] {
      assert a + more == more;
    } else {
      assert (a + more)[1..] == a[1..] + more;
      FirstOfParts(a[1..], more, b);
    }
  }

  /** Only what is in `a` matters of what it is compared with. */
  lemma {:induction false} FirstAgrees<K(!new)>(a: seq<K>, b: seq<K>, other: seq<K>)
    requires forall k :: k in a ==> (k in b <==> k in other)
    ensures FirstShared(a, b) == FirstShared(a, other)
  {
    if a != [] {
      assert a[0] in a;
      FirstAgrees(a[1..], b, other);
    }
  }

  /** With one row in common at most, they begin with the same one. */
  lemma OneShared<K(!new)>(a: seq<K>, b: seq<K>, one: K)
    requires forall k :: k in a && k in b ==> k == one
    ensures FirstShared(a, b) == FirstShared(b, a) == if one in a && one in b then Some(one) else None
  {
    var i := FirstSharedIs(a, b);
    var j := FirstSharedIs(b, a);
    if one in a && one in b {
      assert i < |a| && j < |b|;
    }
  }

  /** Rows of both that each has in one order, they begin with alike. */
  lemma RankedBeginAlike<K(!new)>(a: seq<K>, b: seq<K>, rank: K -> int)
    requires forall i, j :: 0 <= i < j < |a| && a[i] in b && a[j] in b ==> rank(a[i]) < rank(a[j])
    requires forall i, j :: 0 <= i < j < |b| && b[i] in a && b[j] in a ==> rank(b[i]) < rank(b[j])
    ensures FirstShared(a, b) == FirstShared(b, a)
  {
    var i := FirstSharedIs(a, b);
    var j := FirstSharedIs(b, a);
    if i < |a| {
      var n :| 0 <= n < |b| && b[n] == a[i];
    }
    if j < |b| {
      var n :| 0 <= n < |a| && a[n] == b[j];
    }
  }
}
