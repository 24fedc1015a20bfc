/** The shape every service's transaction has, so that each states only what it locks, checks
    and writes.

    An idempotency key may be looked up before anything is locked (`first`), and is claimed by an
    INSERT under its unique index -- after the rows the request checks, which then look the key
    up once more under their locks (`again`), or before them. A key found, wherever it is found,
    answers the request with what its first use made. */
module Recipes {
  import opened Wrappers
  import opened RowLocks
  import opened LockOrder

  datatype Recipe<!K, !V, !A> = Recipe(
    claim: Option<K>,
    first: bool,
    fault: Option<A>,             // what is wrong before any row is read
    before: seq<K>,               // locked first; checked together if `again`
    again: bool,
    between: seq<K>,              // locked next, unchecked
    after: seq<K>,                // locked once the key is claimed, each checked as it is locked
    check: map<K, Option<V>> -> Option<A>,
    write: map<K, Option<V>> -> (map<K, V>, A),
    replay: V -> A,
    record: A -> V)

  function Keys<K, V, A>(c: Recipe<K, V, A>): seq<K> {
    c.before + c.between + c.after
  }

  /** Touches spent looking the key up before any lock. */
  function Looks<K, V, A>(c: Recipe<K, V, A>): nat {
    if c.claim.Some? && c.first then 1 else 0
  }

  /** The touch that claims the key. */
  function Taken<K, V, A>(c: Recipe<K, V, A>): nat {
    Looks(c) + |c.before| + (if c.again then 1 else 0) + |c.between|
  }

  /** Refused before anything is asked of the database. */
  predicate RefusedOutright<K, V, A>(c: Recipe<K, V, A>) {
    c.fault.Some? && Looks(c) == 0
  }

  function Count<K, V, A>(c: Recipe<K, V, A>): nat {
    if RefusedOutright(c) then 0
    else if c.claim.Some? then Taken(c) + 1 + |c.after|
    else |Keys(c)|
  }

  /** The touches in turn: the look, `before`, the second look, `between`, the claim, `after`. */
  function TouchOf<K, V, A>(c: Recipe<K, V, A>, i: nat): Touch<K>
    requires i < Count(c)
  {
    if c.claim.None? then Touch(Keys(c)[i], true)
    else if i < Looks(c) || (c.again && i == Looks(c) + |c.before|) then Touch(c.claim.value, false)
    else if i < Looks(c) + |c.before| then Touch(c.before[i - Looks(c)], true)
    else if i < Taken(c) then Touch(c.between[i - Taken(c) + |c.between|], true)
    else if i == Taken(c) then Touch(c.claim.value, true)
    else Touch(c.after[i - Taken(c) - 1], true)
  }

  function Touches<K, V, A>(c: Recipe<K, V, A>): seq<Touch<K>> {
    seq(Count(c), i requires 0 <= i < Count(c) => TouchOf(c, i))
  }

  /** What has been read of the rows locked so far, the key aside. */
  function Seen<K, V, A>(c: Recipe<K, V, A>, view: seq<Option<V>>): map<K, Option<V>> {
    if view == [] || |view| > |Touches(c)| then map[]
    else
      var last := |view| - 1;
      var seen := Seen(c, view[..last]);
      if c.claim == Some(Touches(c)[last].key) then seen else seen[Touches(c)[last].key := view[last]]
  }

  predicate Checked<K, V, A>(c: Recipe<K, V, A>, n: nat) {
    if c.claim.Some? then n > Taken(c) + 1 || (c.again && n == Looks(c) + |c.before| + 1)
    else n > |c.before| + |c.between| || (c.again && n == |c.before|)
  }

  function Gate<K, V, A>(c: Recipe<K, V, A>, view: seq<Option<V>>): Option<A> {
    if view == [] || |view| > |Touches(c)| then None
    else if c.claim == Some(Touches(c)[|view| - 1].key) && view[|view| - 1].Some? then
      Some(c.replay(view[|view| - 1].value))
    else if |view| == 1 && c.fault.Some? then c.fault
    else if Checked(c, |view|) then c.check(Seen(c, view))
    else None
  }

  function Finish<K, V, A>(c: Recipe<K, V, A>, view: seq<Option<V>>): (map<K, V>, A) {
    if c.fault.Some? then (map[], c.fault.value)
    else
      var (writes, answer) := c.write(Seen(c, view));
      (if c.claim.Some? then writes[c.claim.value := c.record(answer)] else writes, answer)
  }

  function ToRequest<K, V, A>(c: Recipe<K, V, A>): Request<K, V, A> {
    Request(
      Touches(c),
      view => Gate(c, view),
      view => Finish(c, view),
      if c.claim.Some? && !RefusedOutright(c) then Some(Claim(c.claim.value, Taken(c), c.replay)) else None)
  }

  // ---- What a recipe must keep to -----------------------------------------------------

  function Snapshot<K, V>(keys: seq<K>, db: map<K, V>): map<K, Option<V>> {
    map k | k in keys :: Read(db, k)
  }

  /** A check that fails before the last lock is the one that fails after it. */
  ghost predicate SettlesEarly<K, V, A>(c: Recipe<K, V, A>, i: nat, db: map<K, V>)
    requires i <= |c.after|
  {
    var early := c.check(Snapshot(c.before + c.between + c.after[..i], db));
    early.Some? ==> c.check(Snapshot(Keys(c), db)) == early
  }

  ghost predicate SettlesAt<K, V, A>(c: Recipe<K, V, A>, db: map<K, V>) {
    && (c.again ==> c.check(Snapshot(c.before, db)) == c.check(Snapshot(Keys(c), db)))
    && (c.after == [] && !c.again ==> c.check(Snapshot(Keys(c), db)).None?)
    && forall i | 0 < i <= |c.after| :: SettlesEarly(c, i, db)
  }

  /** The check after the last lock says what the first failing check would have said. */
  ghost predicate ChecksSettle<K(!new), V(!new), A>(c: Recipe<K, V, A>) {
    forall db: map<K, V> :: SettlesAt(c, db)
  }

  predicate Grows<K, V(==)>(some: map<K, Option<V>>, more: map<K, Option<V>>) {
    forall k :: k in some ==> k in more && more[k] == some[k]
  }

  /** What the check refuses, it refuses the same way whatever else has been read. */
  ghost predicate Firm<K(!new), V(!new), A>(check: map<K, Option<V>> -> Option<A>) {
    forall some, more | Grows(some, more) && check(some).Some? :: check(more) == check(some)
  }

  lemma FirmSettles<K(!new), V(!new), A>(c: Recipe<K, V, A>)
    requires Firm(c.check) && !c.again && c.after != []
    ensures ChecksSettle(c)
  {
    forall db: map<K, V> ensures SettlesAt(c, db) {
      forall i | 0 < i <= |c.after| ensures SettlesEarly(c, i, db) {
        assert Grows(Snapshot(c.before + c.between + c.after[..i], db), Snapshot(Keys(c), db));
      }
    }
  }

  /** The check asks of nothing but the rows locked first. */
  ghost predicate AsksFirst<K(!new), V(!new), A>(c: Recipe<K, V, A>) {
    forall some, more | Grows(some, more) && some.Keys == (set k | k in c.before) :: c.check(more) == c.check(some)
  }

  lemma AskingFirstSettles<K(!new), V(!new), A>(c: Recipe<K, V, A>)
    requires AsksFirst(c) && c.again
    ensures ChecksSettle(c)
  {
    forall db: map<K, V> ensures SettlesAt(c, db) {
      assert Grows(Snapshot(c.before, db), Snapshot(Keys(c), db));
      assert Snapshot(c.before, db).Keys == set k | k in c.before;
      forall i | 0 < i <= |c.after| ensures SettlesEarly(c, i, db) {
        assert Grows(Snapshot(c.before, db), Snapshot(c.before + c.between + c.after[..i], db));
      }
    }
  }

  ghost predicate WellMade<K(!new), V(!new), A>(c: Recipe<K, V, A>, claims: K -> bool) {
    && (c.again ==> c.before != [])
    && (c.claim.Some? ==> claims(c.claim.value) && c.claim.value !in Keys(c))
    && (forall k :: k in Keys(c) ==> !claims(k))
    && (forall values: map<K, Option<V>>, k | k in c.write(values).0 :: k in Keys(c))
    && ChecksSettle(c)
  }

  lemma WritesItsKeys<K(!new), V(!new), A>(c: Recipe<K, V, A>, claims: K -> bool, values: map<K, Option<V>>, k: K)
    requires WellMade(c, claims) && k in c.write(values).0
    ensures k in Keys(c)
  {
  }

  /** What a well-made recipe does, said outright. */
  function Effect<K, V, A>(c: Recipe<K, V, A>, db: map<K, V>): (map<K, V>, A) {
    if RefusedOutright(c) then (db, c.fault.value)
    else if c.claim.Some? && c.claim.value in db then (db, c.replay(db[c.claim.value]))
    else if c.fault.Some? then (db, c.fault.value)
    else
      var values := Snapshot(Keys(c), db);
      match c.check(values)
      case Some(refused) => (db, refused)
      case None =>
        var (writes, answer) := c.write(values);
        (db + (if c.claim.Some? then writes[c.claim.value := c.record(answer)] else writes), answer)
  }

  // ---- A well-made recipe is a sound request that does what it says ----------------------

  /** The touch that locks the `j`-th key. */
  function TouchFor<K, V, A>(c: Recipe<K, V, A>, j: nat): nat {
    if c.claim.None? then j
    else if j < |c.before| then Looks(c) + j
    else if j < |c.before| + |c.between| then Taken(c) + j - |c.before| - |c.between|
    else Taken(c) + 1 + j - |c.before| - |c.between|
  }

  lemma LockedBy<K(!new), V, A>(c: Recipe<K, V, A>, j: nat)
    requires j < |Keys(c)| && !RefusedOutright(c)
    ensures TouchFor(c, j) < |Touches(c)| && Touches(c)[TouchFor(c, j)] == Touch(Keys(c)[j], true)
  {
  }

  lemma KeyIsLocked<K(!new), V, A>(c: Recipe<K, V, A>, k: K)
    requires k in Keys(c) && !RefusedOutright(c)
    ensures Took(ToRequest(c), |Touches(c)|, k)
  {
    var j :| 0 <= j < |Keys(c)| && Keys(c)[j] == k;
    LockedBy(c, j);
  }

  lemma RecipeIsKeyed<K(!new), V(!new), A>(c: Recipe<K, V, A>, claims: K -> bool)
    requires WellMade(c, claims)
    ensures Keyed(ToRequest(c), claims)
  {
    var r := ToRequest(c);
    if c.claim.Some? && !RefusedOutright(c) {
      forall i | 0 <= i < |r.touches| && !r.touches[i].locks ensures r.touches[i].key == c.claim.value {
      }
      forall view: seq<Option<V>> | 0 < |view| <= Taken(c) && r.touches[|view| - 1].key != c.claim.value
        ensures r.gate(view).None?
      {
      }
    }
  }

  lemma RecipeLocksWhatItWrites<K(!new), V(!new), A>(c: Recipe<K, V, A>, claims: K -> bool)
    requires WellMade(c, claims)
    ensures WritesWhatItLocks(ToRequest(c), claims)
  {
    var r := ToRequest(c);
    forall view: seq<Option<V>>, k: K ensures LockedFirst(r, claims, view, k) {
      if |view| == |r.touches| && AllPassed(r, view) && k in r.finish(view).0 {
        if c.claim == Some(k) {
          assert r.touches[Taken(c)] == Touch(k, true);
          assert Passed(r, view, Taken(c)) && view[..Taken(c) + 1][Taken(c)] == view[Taken(c)];
        } else {
          KeyIsLocked(c, k);
        }
      }
    }
  }

  lemma RecipeIsSound<K(!new), V(!new), A>(c: Recipe<K, V, A>, claims: K -> bool)
    requires WellMade(c, claims)
    ensures Sound(ToRequest(c), claims)
  {
    RecipeIsKeyed(c, claims);
    RecipeLocksWhatItWrites(c, claims);
  }

  /** The rows locked by touch `n`. */
  ghost function Held<K, V, A>(c: Recipe<K, V, A>, n: nat): set<K>
    requires n <= |Touches(c)|
  {
    if n == 0 then {}
    else if c.claim == Some(Touches(c)[n - 1].key) then Held(c, n - 1)
    else Held(c, n - 1) + {Touches(c)[n - 1].key}
  }

  lemma {:induction false} HeldHas<K(!new), V, A>(c: Recipe<K, V, A>, i: nat, n: nat)
    requires i < n <= |Touches(c)| && c.claim != Some(Touches(c)[i].key)
    ensures Touches(c)[i].key in Held(c, n)
  {
    if i < n - 1 {
      HeldHas(c, i, n - 1);
    }
  }

  lemma {:induction false} HeldOnly<K(!new), V, A>(c: Recipe<K, V, A>, n: nat, k: K) returns (i: nat)
    requires n <= |Touches(c)| && k in Held(c, n)
    ensures i < n && Touches(c)[i].key == k && c.claim != Some(k)
  {
    i := n - 1;
    if Touches(c)[i].key != k || c.claim == Some(k) {
      i := HeldOnly(c, n - 1, k);
    }
  }

  lemma {:induction false} SeenAlone<K, V, A>(c: Recipe<K, V, A>, n: nat, db: map<K, V>)
    requires n <= |Touches(c)|
    ensures Seen(c, Alone(ToRequest(c), n, db)) == map k | k in Held(c, n) :: Read(db, k)
  {
    hide Touches;
    var view := Alone(ToRequest(c), n, db);
    if n > 0 {
      SeenAlone(c, n - 1, db);
      assert view[..n - 1] == Alone(ToRequest(c), n - 1, db);
    }
  }

  /** The rows the check at touch `n` is asked about. */
  function Asked<K, V, A>(c: Recipe<K, V, A>, n: nat): seq<K>
    requires n <= |Touches(c)| && Checked(c, n) && !RefusedOutright(c)
  {
    if c.again && n == |c.before| + (if c.claim.Some? then Looks(c) + 1 else 0) then c.before
    else if c.claim.Some? then
      c.before + c.between + c.after[..n - Taken(c) - 1]
    else c.before + c.between + c.after[..n - |c.before| - |c.between|]
  }

  lemma HeldIsAsked<K(!new), V, A>(c: Recipe<K, V, A>, n: nat, k: K)
    requires n <= |Touches(c)| && Checked(c, n) && !RefusedOutright(c)
    requires k in Held(c, n)
    ensures k in Asked(c, n)
  {
    var i := HeldOnly(c, n, k);
    if c.claim.None? {
      assert Asked(c, n) == Keys(c)[..n];
    }
  }

  lemma AskedIsHeld<K(!new), V, A>(c: Recipe<K, V, A>, n: nat, k: K)
    requires n <= |Touches(c)| && Checked(c, n) && !RefusedOutright(c)
    requires c.claim.Some? ==> c.claim.value !in Keys(c)
    requires k in Asked(c, n)
    ensures k in Held(c, n)
  {
    var j :| 0 <= j < |Asked(c, n)| && Asked(c, n)[j] == k;
    assert Asked(c, n) <= Keys(c);
    LockedBy(c, j);
    HeldHas(c, TouchFor(c, j), n);
  }

  /** What the gate says, alone, where it checks. */
  lemma GateChecks<K(!new), V, A>(c: Recipe<K, V, A>, n: nat, db: map<K, V>)
    requires 0 < n <= |Touches(c)| && Checked(c, n) && c.fault.None?
    requires c.claim.Some? ==> c.claim.value !in Keys(c) && c.claim.value !in db
    ensures ToRequest(c).gate(Alone(ToRequest(c), n, db)) == c.check(Snapshot(Asked(c, n), db))
  {
    SeenAlone(c, n, db);
    forall k ensures k in Held(c, n) <==> k in Asked(c, n) {
      if k in Held(c, n) {
        HeldIsAsked(c, n, k);
      } else if k in Asked(c, n) {
        AskedIsHeld(c, n, k);
      }
    }
    assert Seen(c, Alone(ToRequest(c), n, db)) == Snapshot(Asked(c, n), db);
  }

  lemma GateIsSilent<K(!new), V, A>(c: Recipe<K, V, A>, n: nat, db: map<K, V>)
    requires n <= |Touches(c)| && !Checked(c, n) && c.fault.None?
    requires c.claim.Some? ==> c.claim.value !in db
    ensures GoesOn(ToRequest(c), n, db)
  {
  }

  lemma {:induction false} FirstStop<K, V, A>(r: Request<K, V, A>, n: nat, db: map<K, V>) returns (first: nat)
    requires 0 < n && !GoesOn(r, n, db)
    ensures 0 < first <= n && !GoesOn(r, first, db) && GetsTo(r, first - 1, db)
  {
    first := n;
    if m :| 1 <= m < n && !GoesOn(r, m, db) {
      first := FirstStop(r, m, db);
    }
  }

  /** A failing check speaks for the check of all the rows. */
  lemma CheckSettles<K(!new), V(!new), A>(c: Recipe<K, V, A>, claims: K -> bool, n: nat, db: map<K, V>)
    requires WellMade(c, claims) && n <= |Touches(c)| && Checked(c, n) && c.fault.None? && 0 < n
    requires c.check(Snapshot(Asked(c, n), db)).Some?
    ensures c.check(Snapshot(Asked(c, n), db)) == c.check(Snapshot(Keys(c), db))
  {
    assert SettlesAt(c, db);
    var i := n - if c.claim.Some? then Taken(c) + 1 else |c.before| + |c.between|;
    if i > 0 && !(c.again && n == |c.before| + (if c.claim.Some? then Looks(c) + 1 else 0)) {
      assert Asked(c, n) == c.before + c.between + c.after[..i];
      assert SettlesEarly(c, i, db);
    }
  }

  /** The gate that ends a recipe, if any check fails. */
  lemma LastCheck<K(!new), V(!new), A>(c: Recipe<K, V, A>, claims: K -> bool, db: map<K, V>) returns (n: nat)
    requires WellMade(c, claims) && c.fault.None? && c.check(Snapshot(Keys(c), db)).Some?
    ensures 0 < n <= |Touches(c)| && Checked(c, n)
    ensures c.check(Snapshot(Asked(c, n), db)).Some?
  {
    assert SettlesAt(c, db);
    if c.again {
      n := |c.before| + if c.claim.Some? then Looks(c) + 1 else 0;
    } else {
      n := |Touches(c)|;
      assert c.after[..|c.after|] == c.after;
    }
  }

  lemma AllHeld<K(!new), V, A>(c: Recipe<K, V, A>, db: map<K, V>)
    requires c.fault.None? && (c.claim.Some? ==> c.claim.value !in Keys(c))
    ensures Seen(c, Alone(ToRequest(c), |Touches(c)|, db)) == Snapshot(Keys(c), db)
  {
    var n := |Touches(c)|;
    SeenAlone(c, n, db);
    forall k ensures k in Held(c, n) <==> k in Keys(c) {
      if k in Held(c, n) {
        var i := HeldOnly(c, n, k);
      } else if k in Keys(c) {
        KeyIsLocked(c, k);
        var i :| 0 <= i < n && Touches(c)[i] == Touch(k, true);
        HeldHas(c, i, n);
      }
    }
  }

  /** Alone, with its key free and nothing to refuse it, it gets past all its touches. */
  lemma GetsThrough<K(!new), V(!new), A>(c: Recipe<K, V, A>, claims: K -> bool, db: map<K, V>)
    requires WellMade(c, claims) && c.fault.None? && (c.claim.Some? ==> c.claim.value !in db)
    requires c.check(Snapshot(Keys(c), db)).None?
    ensures GetsTo(ToRequest(c), |Touches(c)|, db)
  {
    forall n | 1 <= n <= |Touches(c)| ensures GoesOn(ToRequest(c), n, db) {
      if Checked(c, n) {
        GateChecks(c, n, db);
        if c.check(Snapshot(Asked(c, n), db)).Some? {
          CheckSettles(c, claims, n, db);
        }
      } else {
        GateIsSilent(c, n, db);
      }
    }
  }

  lemma KeyAnswers<K(!new), V(!new), A>(c: Recipe<K, V, A>, claims: K -> bool, db: map<K, V>)
    requires WellMade(c, claims) && !RefusedOutright(c)
    requires c.claim.Some? && c.claim.value in db
    ensures Serial(ToRequest(c), db) == (db, c.replay(db[c.claim.value]))
  {
    RecipeIsKeyed(c, claims);
    ClaimAnswers(ToRequest(c), claims, [], db);
  }

  /** A request made from a well-made recipe does what the recipe says. */
  lemma RecipeSerial<K(!new), V(!new), A>(c: Recipe<K, V, A>, claims: K -> bool, db: map<K, V>)
    requires WellMade(c, claims)
    ensures Serial(ToRequest(c), db) == Effect(c, db)
  {
    var r := ToRequest(c);
    if RefusedOutright(c) {
      SerialCommits(r, db);
      assert db + map[] == db;
    } else if c.claim.Some? && c.claim.value in db {
      KeyAnswers(c, claims, db);
    } else if c.fault.Some? {
      assert Alone(r, 1, db)[0] == Read(db, c.claim.value);
      SerialStops(r, 1, db);
    } else if c.check(Snapshot(Keys(c), db)).Some? {
      var last := LastCheck(c, claims, db);
      GateChecks(c, last, db);
      var n := FirstStop(r, last, db);
      if !Checked(c, n) {
        GateIsSilent(c, n, db);
      } else {
        GateChecks(c, n, db);
        CheckSettles(c, claims, n, db);
        SerialStops(r, n, db);
      }
    } else {
      GetsThrough(c, claims, db);
      SerialCommits(r, db);
      AllHeld(c, db);
    }
  }

  // ---- The same request, with its rows locked otherwise -----------------------------------

  /** What it has read of rows of its own. */
  function Own<K(==), V, A>(c: Recipe<K, V, A>, values: map<K, Option<V>>): map<K, Option<V>> {
    map k | k in values && k in Keys(c) :: values[k]
  }

  /** The request with these rows locked once its key is claimed: its own in whatever order, and others
      it asks nothing of. */
  function Locking<K(==), V, A>(c: Recipe<K, V, A>, after: seq<K>): Recipe<K, V, A> {
    c.(after := after, check := values => c.check(Own(c, values)), write := values => c.write(Own(c, values)))
  }

  /** Its check stays as it is once it fails, or is of the rows locked first alone. */
  ghost predicate ChecksHold<K(!new), V(!new), A>(c: Recipe<K, V, A>) {
    if c.again then AsksFirst(c) else Firm(c.check)
  }

  lemma LockingReads<K(!new), V, A>(c: Recipe<K, V, A>, after: seq<K>, db: map<K, V>)
    requires forall k :: k in c.after ==> k in after
    ensures Own(c, Snapshot(Keys(Locking(c, after)), db)) == Snapshot(Keys(c), db)
  {
  }

  lemma LockingHolds<K(!new), V(!new), A>(c: Recipe<K, V, A>, after: seq<K>)
    requires ChecksHold(c) && forall k :: k in c.after ==> k in after
    ensures ChecksHold(Locking(c, after))
  {
    var d := Locking(c, after);
    forall some, more | Grows(some, more) ensures Grows(Own(c, some), Own(c, more)) {
    }
    if c.again {
      forall some, more | Grows(some, more) && some.Keys == (set k | k in d.before)
        ensures d.check(more) == d.check(some)
      {
        assert Own(c, some).Keys == set k | k in c.before;
        assert Grows(Own(c, some), Own(c, more));
      }
    } else {
      forall some, more | Grows(some, more) && d.check(some).Some? ensures d.check(more) == d.check(some) {
        assert Grows(Own(c, some), Own(c, more));
      }
    }
  }

  lemma SomeAmong<K(!new)>(a: seq<K>, b: seq<K>)
    requires forall k :: k in a ==> k in b
    ensures a != [] ==> b != []
  {
    if a != [] {
      assert a[0] in b;
    }
  }

  lemma LockingSettles<K(!new), V(!new), A>(c: Recipe<K, V, A>, after: seq<K>)
    requires ChecksHold(c) && ChecksSettle(c) && forall k :: k in c.after ==> k in after
    ensures ChecksSettle(Locking(c, after))
  {
    var d := Locking(c, after);
    LockingHolds(c, after);
    if c.again {
      AskingFirstSettles(d);
    } else if after != [] {
      FirmSettles(d);
    } else {
      forall db: map<K, V> ensures SettlesAt(d, db) {
        LockingReads(c, after, db);
        SomeAmong(c.after, after);
        assert SettlesAt(c, db);
      }
    }
  }

  /** It does what it did. */
  lemma LockingDoesTheSame<K(!new), V(!new), A>(c: Recipe<K, V, A>, after: seq<K>, claims: K -> bool)
    requires WellMade(c, claims) && ChecksHold(c)
    requires (forall k :: k in c.after ==> k in after) && forall k :: k in after ==> !claims(k)
    ensures WellMade(Locking(c, after), claims) && ChecksHold(Locking(c, after))
    ensures forall db :: Effect(Locking(c, after), db) == Effect(c, db)
  {
    var d := Locking(c, after);
    LockingHolds(c, after);
    LockingSettles(c, after);
    forall values: map<K, Option<V>>, k | k in d.write(values).0 ensures k in Keys(d) {
      WritesItsKeys(c, claims, Own(c, values), k);
    }
    forall db ensures Effect(d, db) == Effect(c, db) {
      LockingReads(c, after, db);
    }
  }

  /** The request with these rows locked last of all. */
  function Referring<K(==), V, A>(c: Recipe<K, V, A>, refs: seq<K>): Recipe<K, V, A> {
    Locking(c, c.after + refs)
  }

  function ToRequests<K, V, A>(recipes: seq<Recipe<K, V, A>>): (reqs: seq<Request<K, V, A>>)
    ensures |reqs| == |recipes|
  {
    seq(|recipes|, i requires 0 <= i < |recipes| => ToRequest(recipes[i]))
  }

  lemma RecipesAreSound<K(!new), V(!new), A>(recipes: seq<Recipe<K, V, A>>, claims: K -> bool)
    requires forall i :: 0 <= i < |recipes| ==> WellMade(recipes[i], claims)
    ensures AllSound(ToRequests(recipes), claims)
  {
    forall i | 0 <= i < |recipes| ensures Sound(ToRequests(recipes)[i], claims) {
      RecipeIsSound(recipes[i], claims);
    }
  }

  // ---- Lock order ---------------------------------------------------------------------

  function InOrder<K, V, A>(c: Recipe<K, V, A>): seq<K> {
    c.before + c.between + (if c.claim.Some? then [c.claim.value] else []) + c.after
  }

  /** Each key, where it is not one of those before it, comes after them. */
  ghost predicate Ascends<K(!new)>(keys: seq<K>, rank: K -> Rank) {
    forall i, j :: 0 <= i < j < |keys| ==> keys[j] in keys[..j] || Below(rank(keys[i]), rank(keys[j]))
  }

  lemma AscendsJoin<K(!new)>(a: seq<K>, b: seq<K>, rank: K -> Rank)
    requires Ascends(a, rank) && Ascends(b, rank)
    requires forall i, j :: 0 <= i < |a| && 0 <= j < |b| ==> Below(rank(a[i]), rank(b[j]))
    ensures Ascends(a + b, rank)
  {
    var whole := a + b;
    forall i, j | 0 <= i < j < |whole| ensures whole[j] in whole[..j] || Below(rank(whole[i]), rank(whole[j])) {
      if j < |a| {
        assert whole[..j] == a[..j];
      } else {
        assert whole[..j] == a + b[..j - |a|];
      }
    }
  }

  /** Locks among the first `n` touches. */
  function LockCount<K, V, A>(c: Recipe<K, V, A>, n: nat): int {
    n - (if n > 0 then Looks(c) else 0) - (if c.claim.Some? && c.again && n > Looks(c) + |c.before| then 1 else 0)
  }

  lemma NextLock<K, V, A>(c: Recipe<K, V, A>, n: nat)
    requires n < |Touches(c)|
    ensures 0 <= LockCount(c, n) <= |InOrder(c)|
    ensures LockCount(c, n + 1) == LockCount(c, n) + if Touches(c)[n].locks then 1 else 0
    ensures Touches(c)[n].locks ==> LockCount(c, n) < |InOrder(c)| && InOrder(c)[LockCount(c, n)] == Touches(c)[n].key
  {
  }

  lemma {:induction false} LocksOfRecipe<K, V, A>(c: Recipe<K, V, A>, n: nat)
    requires n <= |Touches(c)|
    ensures 0 <= LockCount(c, n) <= |InOrder(c)|
    ensures LocksIn(ToRequest(c), n) == InOrder(c)[..LockCount(c, n)]
  {
    if n > 0 {
      hide Touches, InOrder, LockCount;
      NextLock(c, n - 1);
      LocksOfRecipe(c, n - 1);
    }
  }

  lemma RecipeIsOrdered<K(!new), V(!new), A>(c: Recipe<K, V, A>, rank: K -> Rank)
    requires Ascends(InOrder(c), rank)
    ensures Ordered(ToRequest(c), rank)
  {
    hide Touches, InOrder, LockCount, LocksIn;
    var r := ToRequest(c);
    forall i, j | 0 <= i < j < |r.touches| && r.touches[i].locks && r.touches[j].locks
      ensures Took(r, j, r.touches[j].key) || Below(rank(r.touches[i].key), rank(r.touches[j].key))
    {
      NextLock(c, i);
      NextLock(c, j);
      LocksOfRecipe(c, j);
      LocksInTaken(r, j, r.touches[j].key);
      LockCounts(c, i, j);
    }
  }

  lemma ReferredTouch<K, V, A>(c: Recipe<K, V, A>, refs: seq<K>, i: nat)
    requires i < |Touches(Referring(c, refs))|
    ensures i < |Touches(c)| ==> Touches(Referring(c, refs))[i] == Touches(c)[i]
    ensures i >= |Touches(c)| ==>
        i - |Touches(c)| < |refs| && Touches(Referring(c, refs))[i] == Touch(refs[i - |Touches(c)|], true)
    ensures i < |Touches(c)| && Touches(c)[i].locks ==> Touches(c)[i].key in InOrder(c)
  {
  }

  /** Rows locked last, each above all the request's own or one of them, keep it in order. */
  lemma RefersInOrder<K(!new), V(!new), A>(c: Recipe<K, V, A>, refs: seq<K>, rank: K -> Rank)
    requires Ordered(ToRequest(c), rank) && Ascends(refs, rank)
    requires forall r :: r in refs ==> r in InOrder(c) || forall k :: k in InOrder(c) ==> Below(rank(k), rank(r))
    ensures Ordered(ToRequest(Referring(c, refs)), rank)
  {
    hide Touches, InOrder, LockCount, Referring;
    var r, r', n := ToRequest(c), ToRequest(Referring(c, refs)), |Touches(c)|;
    forall i, j | 0 <= i < j < |r'.touches| && r'.touches[i].locks && r'.touches[j].locks
      ensures Took(r', j, r'.touches[j].key) || Below(rank(r'.touches[i].key), rank(r'.touches[j].key))
    {
      ReferredTouch(c, refs, i);
      ReferredTouch(c, refs, j);
      if j < n {
        if Took(r, j, r.touches[j].key) {
          TookAlike(c, refs, j, r.touches[j].key);
        }
      } else {
        ReferredAfter(c, refs, rank, i, j);
      }
    }
  }

  lemma TookAlike<K(!new), V, A>(c: Recipe<K, V, A>, refs: seq<K>, j: nat, k: K)
    requires j <= |Touches(Referring(c, refs))| && Took(ToRequest(c), j, k)
    ensures Took(ToRequest(Referring(c, refs)), j, k)
  {
    hide Touches;
    var i :| 0 <= i < j && i < |Touches(c)| && Touches(c)[i] == Touch(k, true);
    ReferredTouch(c, refs, i);
  }

  /** Every row of its own has been locked before those. */
  lemma OwnTaken<K(!new), V(!new), A>(c: Recipe<K, V, A>, k: K)
    requires k in InOrder(c) && !RefusedOutright(c)
    ensures Took(ToRequest(c), |Touches(c)|, k)
  {
    hide LocksIn, LockCount;
    LocksOfRecipe(c, |Touches(c)|);
    AllLocked(c);
    LocksInTaken(ToRequest(c), |Touches(c)|, k);
  }

  lemma AllLocked<K, V, A>(c: Recipe<K, V, A>)
    requires !RefusedOutright(c)
    ensures LockCount(c, |Touches(c)|) == |InOrder(c)| && InOrder(c)[..|InOrder(c)|] == InOrder(c)
  {
  }

  lemma NotRefused<K, V, A>(c: Recipe<K, V, A>, refs: seq<K>)
    requires |Touches(Referring(c, refs))| > 0
    ensures !RefusedOutright(c) && |Touches(c)| <= |Touches(Referring(c, refs))|
  {
  }

  lemma ReferredAfter<K(!new), V(!new), A>(c: Recipe<K, V, A>, refs: seq<K>, rank: K -> Rank, i: nat, j: nat)
    requires |Touches(c)| <= j < |Touches(Referring(c, refs))| && i < j && Ascends(refs, rank)
    requires ToRequest(Referring(c, refs)).touches[i].locks
    requires forall r :: r in refs ==> r in InOrder(c) || forall k :: k in InOrder(c) ==> Below(rank(k), rank(r))
    ensures var r' := ToRequest(Referring(c, refs));
      Took(r', j, r'.touches[j].key) || Below(rank(r'.touches[i].key), rank(r'.touches[j].key))
  {
    hide Touches, InOrder, Referring;
    var r', n := ToRequest(Referring(c, refs)), |Touches(c)|;
    NotRefused(c, refs);
    ReferredTouch(c, refs, i);
    ReferredTouch(c, refs, j);
    var key := refs[j - n];
    if key in InOrder(c) {
      OwnTaken(c, key);
      TookAlike(c, refs, n, key);
    } else if i >= n && key in refs[..j - n] {
      var m :| 0 <= m < j - n && refs[m] == key;
      ReferredTouch(c, refs, n + m);
      assert r'.touches[n + m] == Touch(key, true);
    }
  }

  lemma {:induction false} LockCounts<K, V, A>(c: Recipe<K, V, A>, i: nat, j: nat)
    requires i < j < |Touches(c)| && Touches(c)[i].locks
    ensures LockCount(c, i) < LockCount(c, j)
  {
    NextLock(c, j - 1);
    if i < j - 1 {
      LockCounts(c, i, j - 1);
    }
  }

  /** The row locked first guards the rest. */
  lemma FirstGuards<K(!new), V(!new), A>(c: Recipe<K, V, A>)
    requires InOrder(c) != []
    ensures GuardedBy(ToRequest(c), InOrder(c)[0])
  {
    hide Touches, InOrder, LockCount, LocksIn;
    var r, g := ToRequest(c), InOrder(c)[0];
    forall i | 0 <= i < |r.touches| && r.touches[i].locks ensures r.touches[i].key == g || Took(r, i, g) {
      NextLock(c, i);
      LocksOfRecipe(c, i);
      LocksInTaken(r, i, g);
    }
  }
}
