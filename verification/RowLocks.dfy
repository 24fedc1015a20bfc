/** Row locks as PostgreSQL takes them, and any number of transactions that run under them.

    A request is a plan of rows to touch, in order. `SELECT ... FOR UPDATE` on a row, or an
    INSERT that claims a unique key, is a touch that locks: it waits while another transaction
    holds the row and then reads what that one committed. A plain SELECT is a touch that does
    not lock. After every touch the request may end at once (refused, or answered with what an
    earlier copy of it made); after the last it writes and commits. Locks are kept to the end.

    Every interleaving is a schedule: which worker takes the next step. */
module RowLocks {
  import opened Wrappers

  datatype Touch<K> = Touch(key: K, locks: bool)

  /** The unique key a request answers a retry by: looked up first, claimed at touch `at`. */
  datatype Claim<!K, !V, A> = Claim(key: K, at: nat, replay: V -> A)

  /** `gate(view)` is asked after each touch with everything read so far. */
  datatype Request<!K, !V, A> = Request(
    touches: seq<Touch<K>>,
    gate: seq<Option<V>> -> Option<A>,
    finish: seq<Option<V>> -> (map<K, V>, A),
    claim: Option<Claim<K, V, A>>)

  datatype Worker<V, A> = Worker(view: seq<Option<V>>, answer: Option<A>)

  datatype System<!K, V, A> = System(
    db: map<K, V>,
    owner: map<K, nat>,
    workers: seq<Worker<V, A>>,
    finished: seq<nat>)

  // ---- One request on its own ---------------------------------------------------------

  function Read<K, V>(db: map<K, V>, k: K): Option<V> {
    if k in db then Some(db[k]) else None
  }

  /** The rest of a request that has read `view`, run alone on `db`. */
  function Resume<K, V, A>(r: Request<K, V, A>, view: seq<Option<V>>, db: map<K, V>): (map<K, V>, A)
    requires |view| <= |r.touches|
    decreases |r.touches| - |view|
  {
    if |view| == |r.touches| then
      (db + r.finish(view).0, r.finish(view).1)
    else
      var seen := view + [Read(db, r.touches[|view|].key)];
      match r.gate(seen)
      case Some(answer) => (db, answer)
      case None => Resume(r, seen, db)
  }

  function Serial<K, V, A>(r: Request<K, V, A>, db: map<K, V>): (map<K, V>, A) {
    Resume(r, [], db)
  }

  /** What the request reads in its first `n` touches when it is alone. */
  function Alone<K, V, A>(r: Request<K, V, A>, n: nat, db: map<K, V>): seq<Option<V>>
    requires n <= |r.touches|
  {
    seq(n, i requires 0 <= i < n => Read(db, r.touches[i].key))
  }

  /** Alone, the request is not ended by its `n`-th read. */
  predicate GoesOn<K, V, A>(r: Request<K, V, A>, n: nat, db: map<K, V>) {
    n <= |r.touches| ==> r.gate(Alone(r, n, db)).None?
  }

  /** Alone, the request gets past its first `n` touches. */
  ghost predicate GetsTo<K, V, A>(r: Request<K, V, A>, n: nat, db: map<K, V>) {
    forall i :: 1 <= i <= n ==> GoesOn(r, i, db)
  }

  lemma {:induction false} SerialGetsTo<K, V, A>(r: Request<K, V, A>, n: nat, db: map<K, V>)
    requires n <= |r.touches| && GetsTo(r, n, db)
    ensures Serial(r, db) == Resume(r, Alone(r, n, db), db)
  {
    if n == 0 {
      assert Alone(r, 0, db) == [];
    } else {
      SerialGetsTo(r, n - 1, db);
      assert Alone(r, n, db) == Alone(r, n - 1, db) + [Read(db, r.touches[n - 1].key)];
      assert GoesOn(r, n, db);
    }
  }

  lemma SerialStops<K, V, A>(r: Request<K, V, A>, n: nat, db: map<K, V>)
    requires 0 < n <= |r.touches| && GetsTo(r, n - 1, db) && !GoesOn(r, n, db)
    ensures Serial(r, db) == (db, r.gate(Alone(r, n, db)).value)
  {
    SerialGetsTo(r, n - 1, db);
    assert Alone(r, n, db) == Alone(r, n - 1, db) + [Read(db, r.touches[n - 1].key)];
  }

  lemma SerialCommits<K, V, A>(r: Request<K, V, A>, db: map<K, V>)
    requires GetsTo(r, |r.touches|, db)
    ensures Serial(r, db) ==
            (db + r.finish(Alone(r, |r.touches|, db)).0, r.finish(Alone(r, |r.touches|, db)).1)
  {
    SerialGetsTo(r, |r.touches|, db);
  }

  /** The database after the requests named by `order`, one at a time. */
  function Replay<K, V, A>(reqs: seq<Request<K, V, A>>, order: seq<nat>, db: map<K, V>): map<K, V>
    requires forall i :: 0 <= i < |order| ==> order[i] < |reqs|
  {
    if order == [] then db
    else Serial(reqs[order[|order| - 1]], Replay(reqs, order[..|order| - 1], db)).0
  }

  // ---- Many at once -------------------------------------------------------------------

  function Start<K, V, A>(reqs: seq<Request<K, V, A>>, db: map<K, V>): System<K, V, A> {
    System(db, map[], seq(|reqs|, _ => Worker([], None)), [])
  }

  predicate Active<K, V, A>(s: System<K, V, A>, p: nat) {
    p < |s.workers| && s.workers[p].answer.None?
  }

  /** The touch worker `p` takes next, if it is not ready to commit. */
  function Wants<K, V, A>(reqs: seq<Request<K, V, A>>, s: System<K, V, A>, p: nat): Option<Touch<K>>
    requires p < |reqs| == |s.workers|
  {
    var r, view := reqs[p], s.workers[p].view;
    if |view| < |r.touches| then Some(r.touches[|view|]) else None
  }

  predicate Enabled<K(==), V, A>(reqs: seq<Request<K, V, A>>, s: System<K, V, A>, p: nat) {
    |reqs| == |s.workers| && Active(s, p) && |s.workers[p].view| <= |reqs[p].touches| &&
    match Wants(reqs, s, p)
    case Some(touch) => touch.locks && touch.key in s.owner ==> s.owner[touch.key] == p
    case None => true
  }

  /** The end of a transaction: its locks freed, its answer given. */
  function End<K, V, A>(s: System<K, V, A>, p: nat, db: map<K, V>, view: seq<Option<V>>, answer: A): System<K, V, A>
    requires p < |s.workers|
  {
    System(db, map k | k in s.owner && s.owner[k] != p :: s.owner[k],
           s.workers[p := Worker(view, Some(answer))], s.finished + [p])
  }

  function Step<K, V, A>(reqs: seq<Request<K, V, A>>, s: System<K, V, A>, p: nat): System<K, V, A>
    requires Enabled(reqs, s, p)
  {
    var r, view := reqs[p], s.workers[p].view;
    match Wants(reqs, s, p)
    case None =>
      End(s, p, s.db + r.finish(view).0, view, r.finish(view).1)
    case Some(touch) =>
      var seen := view + [Read(s.db, touch.key)];
      match r.gate(seen)
      case Some(answer) => End(s, p, s.db, seen, answer)
      case None =>
        System(s.db, if touch.locks then s.owner[touch.key := p] else s.owner,
               s.workers[p := Worker(seen, None)], s.finished)
  }

  ghost predicate Schedulable<K, V, A>(reqs: seq<Request<K, V, A>>, s: System<K, V, A>, schedule: seq<nat>)
    decreases |schedule|
  {
    schedule == [] ||
    (Enabled(reqs, s, schedule[0]) && Schedulable(reqs, Step(reqs, s, schedule[0]), schedule[1..]))
  }

  ghost function Execute<K, V, A>(reqs: seq<Request<K, V, A>>, s: System<K, V, A>, schedule: seq<nat>): System<K, V, A>
    requires Schedulable(reqs, s, schedule)
    decreases |schedule|
  {
    if schedule == [] then s
    else Execute(reqs, Step(reqs, s, schedule[0]), schedule[1..])
  }

  // ---- What a request must keep to ----------------------------------------------------

  /** The `i`-th read did not end the request. */
  predicate Passed<K, V, A>(r: Request<K, V, A>, view: seq<Option<V>>, i: nat) {
    i < |view| ==> r.gate(view[..i + 1]).None?
  }

  ghost predicate AllPassed<K, V, A>(r: Request<K, V, A>, view: seq<Option<V>>) {
    |view| <= |r.touches| && forall i :: 0 <= i < |view| ==> Passed(r, view, i)
  }

  /** Among its first `n` touches the request locked row `k`. */
  ghost predicate Took<K, V, A>(r: Request<K, V, A>, n: nat, k: K) {
    exists i :: 0 <= i < n && i < |r.touches| && r.touches[i] == Touch(k, true)
  }

  /** It locked row `k` and there was none. */
  ghost predicate FoundNone<K, V, A>(r: Request<K, V, A>, view: seq<Option<V>>, k: K) {
    exists i :: 0 <= i < |view| && i < |r.touches| && r.touches[i] == Touch(k, true) && view[i].None?
  }

  ghost predicate LockedFirst<K, V, A>(r: Request<K, V, A>, claims: K -> bool, view: seq<Option<V>>, k: K) {
    |view| == |r.touches| && AllPassed(r, view) && k in r.finish(view).0 ==>
      Took(r, |view|, k) && (claims(k) ==> FoundNone(r, view, k))
  }

  /** It writes only rows it has locked, and a claim only where it found none. */
  ghost predicate WritesWhatItLocks<K(!new), V(!new), A>(r: Request<K, V, A>, claims: K -> bool) {
    forall view: seq<Option<V>>, k: K :: LockedFirst(r, claims, view, k)
  }

  /** What it reads without a lock is only ever its own claim: claimed later under a lock, answered
      the same way wherever it is found, and with nothing on the way to the claim that could end
      the request otherwise. */
  ghost predicate Keyed<K(!new), V(!new), A>(r: Request<K, V, A>, claims: K -> bool) {
    match r.claim
    case None => forall i :: 0 <= i < |r.touches| ==> r.touches[i].locks
    case Some(claim) =>
      && claim.at < |r.touches| && r.touches[claim.at] == Touch(claim.key, true)
      && claims(claim.key)
      && (forall i :: 0 <= i < |r.touches| && !r.touches[i].locks ==> r.touches[i].key == claim.key)
      && (forall view: seq<Option<V>> | 0 < |view| <= |r.touches| && r.touches[|view| - 1].key == claim.key &&
                                        view[|view| - 1].Some? ::
            r.gate(view) == Some(claim.replay(view[|view| - 1].value)))
      && (forall view: seq<Option<V>> | 0 < |view| <= claim.at && r.touches[|view| - 1].key != claim.key ::
            r.gate(view).None?)
  }

  ghost predicate Sound<K(!new), V(!new), A>(r: Request<K, V, A>, claims: K -> bool) {
    WritesWhatItLocks(r, claims) && Keyed(r, claims)
  }

  ghost predicate AllSound<K(!new), V(!new), A>(reqs: seq<Request<K, V, A>>, claims: K -> bool) {
    forall p :: 0 <= p < |reqs| ==> Sound(reqs[p], claims)
  }

  // ---- Serializability ----------------------------------------------------------------

  /** What a worker under way may have read: rows it locked as they still are; a claim it only
      looked at either as it still is, or from before it was made. No gate has ended it. */
  ghost predicate Plausible<K, V, A>(r: Request<K, V, A>, view: seq<Option<V>>, db: map<K, V>) {
    && AllPassed(r, view)
    && (forall i :: 0 <= i < |view| && (r.touches[i].locks || view[i].Some?) ==>
          view[i] == Read(db, r.touches[i].key))
  }

  lemma {:induction false} ResumeIsSerial<K, V, A>(r: Request<K, V, A>, view: seq<Option<V>>, n: nat, db: map<K, V>)
    requires n <= |view| <= |r.touches|
    requires forall i :: 0 <= i < |view| ==> view[i] == Read(db, r.touches[i].key) && Passed(r, view, i)
    ensures Resume(r, view[..n], db) == Serial(r, db)
  {
    if n == 0 {
      assert view[..0] == [];
    } else {
      ResumeIsSerial(r, view, n - 1, db);
      assert view[..n - 1] + [view[n - 1]] == view[..n];
      assert Passed(r, view, n - 1);
    }
  }

  /** A claim that exists answers the request, however far it has come. */
  lemma {:induction false} ClaimAnswers<K(!new), V(!new), A>(
      r: Request<K, V, A>, claims: K -> bool, view: seq<Option<V>>, db: map<K, V>)
    requires Keyed(r, claims) && r.claim.Some? && r.claim.value.key in db
    requires |view| <= r.claim.value.at
    ensures Resume(r, view, db) == (db, r.claim.value.replay(db[r.claim.value.key]))
    decreases |r.touches| - |view|
  {
    var touch := r.touches[|view|];
    var seen := view + [Read(db, touch.key)];
    if touch.key != r.claim.value.key {
      assert r.gate(seen).None?;
      ClaimAnswers(r, claims, seen, db);
    }
  }

  /** Looking a key up before the lock is harmless because it is looked up again under one. */
  lemma PlausibleIsSerial<K(!new), V(!new), A>(
      r: Request<K, V, A>, claims: K -> bool, view: seq<Option<V>>, db: map<K, V>)
    requires Keyed(r, claims)
    requires Plausible(r, view, db)
    ensures Resume(r, view, db) == Serial(r, db)
  {
    if r.claim.Some? && r.claim.value.key in db {
      var claim := r.claim.value;
      assert Passed(r, view, claim.at);
      ClaimAnswers(r, claims, view, db);
      ClaimAnswers(r, claims, [], db);
    } else {
      ResumeIsSerial(r, view, |view|, db);
      assert view[..|view|] == view;
    }
  }

  predicate Distinct<T(==)>(s: seq<T>) {
    forall i, j :: 0 <= i < j < |s| ==> s[i] != s[j]
  }

  /** The `i`-th to finish was answered as if it had run alone after those before it. */
  ghost predicate AnsweredInTurn<K, V, A>(reqs: seq<Request<K, V, A>>, db0: map<K, V>, s: System<K, V, A>, i: nat)
    requires |s.workers| == |reqs| && i < |s.finished|
    requires forall j :: 0 <= j < |s.finished| ==> s.finished[j] < |reqs|
  {
    s.workers[s.finished[i]].answer ==
      Some(Serial(reqs[s.finished[i]], Replay(reqs, s.finished[..i], db0)).1)
  }

  /** The committed state and every answer given are those of the finished requests run one
      at a time, in the order they finished. */
  ghost predicate Explained<K, V, A>(reqs: seq<Request<K, V, A>>, db0: map<K, V>, s: System<K, V, A>) {
    && |s.workers| == |reqs|
    && Distinct(s.finished)
    && (forall i :: 0 <= i < |s.finished| ==> s.finished[i] < |reqs|)
    && (forall p :: 0 <= p < |reqs| ==> (p in s.finished <==> !Active(s, p)))
    && s.db == Replay(reqs, s.finished, db0)
    && (forall i :: 0 <= i < |s.finished| ==> AnsweredInTurn(reqs, db0, s, i))
  }

  /** A row is owned by exactly the running worker that locked it. */
  ghost predicate LocksHeld<K(!new), V, A>(reqs: seq<Request<K, V, A>>, s: System<K, V, A>) {
    && |s.workers| == |reqs|
    && (forall k | k in s.owner :: s.owner[k] < |reqs|)
    && (forall p, k | 0 <= p < |reqs| ::
          (k in s.owner && s.owner[k] == p) <==> (Active(s, p) && Took(reqs[p], |s.workers[p].view|, k)))
  }

  ghost predicate Consistent<K(!new), V, A>(reqs: seq<Request<K, V, A>>, db0: map<K, V>, s: System<K, V, A>) {
    && Explained(reqs, db0, s)
    && LocksHeld(reqs, s)
    && (forall p :: 0 <= p < |reqs| && Active(s, p) ==> Plausible(reqs[p], s.workers[p].view, s.db))
  }

  lemma StartConsistent<K(!new), V(!new), A>(reqs: seq<Request<K, V, A>>, db: map<K, V>)
    ensures Consistent(reqs, db, Start(reqs, db))
  {
  }

  lemma TookOneMore<K(!new), V, A>(r: Request<K, V, A>, n: nat, k: K)
    requires n < |r.touches|
    ensures Took(r, n + 1, k) <==> Took(r, n, k) || r.touches[n] == Touch(k, true)
  {
    if r.touches[n] == Touch(k, true) {
      assert Took(r, n + 1, k);
    }
  }

  lemma TouchKeepsLocks<K(!new), V(!new), A>(reqs: seq<Request<K, V, A>>, s: System<K, V, A>, p: nat)
    requires LocksHeld(reqs, s) && Enabled(reqs, s, p) && Active(Step(reqs, s, p), p)
    ensures LocksHeld(reqs, Step(reqs, s, p))
  {
    var s' := Step(reqs, s, p);
    var n, touch := |s.workers[p].view|, reqs[p].touches[|s.workers[p].view|];
    assert touch.locks ==> touch == Touch(touch.key, true);
    forall q, k | 0 <= q < |reqs|
      ensures (k in s'.owner && s'.owner[k] == q) <==> (Active(s', q) && Took(reqs[q], |s'.workers[q].view|, k))
    {
      assert (k in s.owner && s.owner[k] == q) <==> (Active(s, q) && Took(reqs[q], |s.workers[q].view|, k));
      if q == p {
        TookOneMore(reqs[p], n, k);
      }
    }
  }

  lemma EndKeepsLocks<K(!new), V(!new), A>(reqs: seq<Request<K, V, A>>, s: System<K, V, A>, p: nat)
    requires LocksHeld(reqs, s) && Enabled(reqs, s, p) && !Active(Step(reqs, s, p), p)
    ensures LocksHeld(reqs, Step(reqs, s, p))
  {
    var s' := Step(reqs, s, p);
    forall q, k | 0 <= q < |reqs|
      ensures (k in s'.owner && s'.owner[k] == q) <==> (Active(s', q) && Took(reqs[q], |s'.workers[q].view|, k))
    {
      assert (k in s.owner && s.owner[k] == q) <==> (Active(s, q) && Took(reqs[q], |s.workers[q].view|, k));
    }
  }

  lemma TouchKeepsPlausible<K(!new), V(!new), A>(reqs: seq<Request<K, V, A>>, s: System<K, V, A>, p: nat)
    requires Enabled(reqs, s, p) && Active(Step(reqs, s, p), p)
    requires Plausible(reqs[p], s.workers[p].view, s.db)
    ensures Plausible(reqs[p], Step(reqs, s, p).workers[p].view, s.db)
  {
    var r, view, seen := reqs[p], s.workers[p].view, Step(reqs, s, p).workers[p].view;
    forall i | 0 <= i < |seen| ensures Passed(r, seen, i) {
      if i < |view| {
        assert Passed(r, view, i) && seen[..i + 1] == view[..i + 1];
      } else {
        assert seen[..i + 1] == seen;
      }
    }
  }

  /** A step that takes one more row and goes on. */
  lemma TouchKeepsConsistent<K(!new), V(!new), A>(
      reqs: seq<Request<K, V, A>>, db0: map<K, V>, s: System<K, V, A>, p: nat)
    requires Consistent(reqs, db0, s) && Enabled(reqs, s, p)
    requires Active(Step(reqs, s, p), p)
    ensures Consistent(reqs, db0, Step(reqs, s, p))
  {
    TouchKeepsLocks(reqs, s, p);
    TouchKeepsPlausible(reqs, s, p);
    var s' := Step(reqs, s, p);
    forall q | 0 <= q < |reqs| && Active(s', q) ensures Plausible(reqs[q], s'.workers[q].view, s'.db) {
      assert Active(s, q);
    }
    forall i | 0 <= i < |s'.finished| ensures AnsweredInTurn(reqs, db0, s', i) {
      assert AnsweredInTurn(reqs, db0, s, i) && s.finished[i] in s.finished;
    }
  }

  lemma ReplayOneMore<K, V, A>(reqs: seq<Request<K, V, A>>, order: seq<nat>, p: nat, db: map<K, V>)
    requires p < |reqs| && forall i :: 0 <= i < |order| ==> order[i] < |reqs|
    ensures Replay(reqs, order + [p], db) == Serial(reqs[p], Replay(reqs, order, db)).0
  {
    assert (order + [p])[..|order|] == order;
  }

  /** The last step gives the answer, and leaves the database, that the request run alone would. */
  lemma EndIsSerial<K(!new), V(!new), A>(
      reqs: seq<Request<K, V, A>>, claims: K -> bool, s: System<K, V, A>, p: nat)
    requires Enabled(reqs, s, p) && !Active(Step(reqs, s, p), p)
    requires Keyed(reqs[p], claims)
    requires Plausible(reqs[p], s.workers[p].view, s.db)
    ensures Step(reqs, s, p).db == Serial(reqs[p], s.db).0
    ensures Step(reqs, s, p).workers[p].answer == Some(Serial(reqs[p], s.db).1)
  {
    PlausibleIsSerial(reqs[p], claims, s.workers[p].view, s.db);
  }

  lemma EndKeepsExplained<K(!new), V(!new), A>(
      reqs: seq<Request<K, V, A>>, claims: K -> bool, db0: map<K, V>, s: System<K, V, A>, p: nat)
    requires Explained(reqs, db0, s) && Enabled(reqs, s, p) && p < |reqs|
    requires Plausible(reqs[p], s.workers[p].view, s.db)
    requires !Active(Step(reqs, s, p), p) && Keyed(reqs[p], claims)
    ensures Explained(reqs, db0, Step(reqs, s, p))
  {
    hide Replay, Serial;
    var s' := Step(reqs, s, p);
    EndIsSerial(reqs, claims, s, p);
    ReplayOneMore(reqs, s.finished, p, db0);
    assert s'.finished == s.finished + [p] && p !in s.finished;
    forall q | 0 <= q < |reqs| ensures q in s'.finished <==> !Active(s', q) {
      assert q in s'.finished <==> q in s.finished || q == p;
    }
    forall i | 0 <= i < |s'.finished| ensures AnsweredInTurn(reqs, db0, s', i) {
      if i < |s.finished| {
        assert AnsweredInTurn(reqs, db0, s, i);
        assert s'.finished[..i] == s.finished[..i];
        assert s.finished[i] in s.finished;
      } else {
        assert s'.finished[..i] == s.finished;
      }
    }
  }

  lemma WrittenIsTaken<K(!new), V(!new), A>(
      r: Request<K, V, A>, claims: K -> bool, view: seq<Option<V>>, db: map<K, V>, k: K)
    requires WritesWhatItLocks(r, claims) && Plausible(r, view, db)
    requires |view| == |r.touches| && k in r.finish(view).0
    ensures Took(r, |view|, k) && (claims(k) ==> Read(db, k).None?)
  {
    assert LockedFirst(r, claims, view, k);
    if claims(k) {
      var i :| 0 <= i < |view| && r.touches[i] == Touch(k, true) && view[i].None?;
      assert view[i] == Read(db, k);
    }
  }

  /** A commit leaves alone each row another worker has read. */
  lemma EndSparesRead<K(!new), V(!new), A>(
      reqs: seq<Request<K, V, A>>, claims: K -> bool, s: System<K, V, A>, p: nat, q: nat, i: nat)
    requires LocksHeld(reqs, s) && Enabled(reqs, s, p) && Wants(reqs, s, p).None?
    requires p != q && q < |reqs| && Active(s, q) && Keyed(reqs[q], claims) && WritesWhatItLocks(reqs[p], claims)
    requires Plausible(reqs[p], s.workers[p].view, s.db) && Plausible(reqs[q], s.workers[q].view, s.db)
    requires i < |s.workers[q].view| && (reqs[q].touches[i].locks || s.workers[q].view[i].Some?)
    ensures reqs[q].touches[i].key !in reqs[p].finish(s.workers[p].view).0
  {
    var r, view, k := reqs[q], s.workers[q].view, reqs[q].touches[i].key;
    if r.touches[i].locks {
      assert r.touches[i] == Touch(k, true) && Took(r, |view|, k);
      assert s.owner[k] == q;
    } else {
      assert view[i] == Read(s.db, k) && claims(k);
    }
    if k in reqs[p].finish(s.workers[p].view).0 {
      WrittenIsTaken(reqs[p], claims, s.workers[p].view, s.db, k);
      assert false;
    }
  }

  lemma EndKeepsPlausible<K(!new), V(!new), A>(
      reqs: seq<Request<K, V, A>>, claims: K -> bool, s: System<K, V, A>, p: nat, q: nat)
    requires LocksHeld(reqs, s) && Enabled(reqs, s, p) && !Active(Step(reqs, s, p), p)
    requires p != q && q < |reqs| && Active(s, q) && Keyed(reqs[q], claims) && WritesWhatItLocks(reqs[p], claims)
    requires Plausible(reqs[p], s.workers[p].view, s.db) && Plausible(reqs[q], s.workers[q].view, s.db)
    ensures Plausible(reqs[q], s.workers[q].view, Step(reqs, s, p).db)
  {
    var s', r, view := Step(reqs, s, p), reqs[q], s.workers[q].view;
    forall i | 0 <= i < |view| && (r.touches[i].locks || view[i].Some?)
      ensures view[i] == Read(s'.db, r.touches[i].key)
    {
      assert view[i] == Read(s.db, r.touches[i].key);
      if Wants(reqs, s, p).None? {
        EndSparesRead(reqs, claims, s, p, q, i);
      }
    }
  }

  lemma StepKeepsConsistent<K(!new), V(!new), A>(
      reqs: seq<Request<K, V, A>>, claims: K -> bool, db0: map<K, V>, s: System<K, V, A>, p: nat)
    requires AllSound(reqs, claims) && Consistent(reqs, db0, s) && Enabled(reqs, s, p)
    ensures Consistent(reqs, db0, Step(reqs, s, p))
  {
    var s' := Step(reqs, s, p);
    if Active(s', p) {
      TouchKeepsConsistent(reqs, db0, s, p);
    } else {
      EndKeepsExplained(reqs, claims, db0, s, p);
      EndKeepsLocks(reqs, s, p);
      forall q | 0 <= q < |reqs| && Active(s', q) ensures Plausible(reqs[q], s'.workers[q].view, s'.db) {
        EndKeepsPlausible(reqs, claims, s, p, q);
      }
    }
  }

  /** Serializability: whatever the interleaving, what is committed and what is answered is what
      the finished requests, run one at a time in the order they finished, commit and answer. */
  lemma {:induction false} Serializable<K(!new), V(!new), A>(
      reqs: seq<Request<K, V, A>>, claims: K -> bool, db0: map<K, V>, s: System<K, V, A>, schedule: seq<nat>)
    requires AllSound(reqs, claims) && Consistent(reqs, db0, s) && Schedulable(reqs, s, schedule)
    ensures Consistent(reqs, db0, Execute(reqs, s, schedule))
    decreases |schedule|
  {
    if schedule != [] {
      StepKeepsConsistent(reqs, claims, db0, s, schedule[0]);
      Serializable(reqs, claims, db0, Step(reqs, s, schedule[0]), schedule[1..]);
    }
  }

  // ---- Whole runs ---------------------------------------------------------------------

  /** The state a schedule reaches from a database with nothing under way. */
  ghost function Outcome<K, V, A>(reqs: seq<Request<K, V, A>>, db: map<K, V>, schedule: seq<nat>): System<K, V, A>
    requires Schedulable(reqs, Start(reqs, db), schedule)
  {
    Execute(reqs, Start(reqs, db), schedule)
  }

  lemma RunIsExplained<K(!new), V(!new), A>(
      reqs: seq<Request<K, V, A>>, claims: K -> bool, db: map<K, V>, schedule: seq<nat>)
    requires AllSound(reqs, claims)
    requires Schedulable(reqs, Start(reqs, db), schedule)
    ensures Explained(reqs, db, Outcome(reqs, db, schedule))
  {
    StartConsistent(reqs, db);
    Serializable(reqs, claims, db, Start(reqs, db), schedule);
  }

  lemma {:induction false} ReplayKeeps<K(!new), V(!new), A>(
      reqs: seq<Request<K, V, A>>, order: seq<nat>, db: map<K, V>, holds: map<K, V> -> bool)
    requires forall i :: 0 <= i < |order| ==> order[i] < |reqs|
    requires holds(db)
    requires forall p, d | 0 <= p < |reqs| && holds(d) :: holds(Serial(reqs[p], d).0)
    ensures holds(Replay(reqs, order, db))
  {
    if order != [] {
      ReplayKeeps(reqs, order[..|order| - 1], db, holds);
    }
  }

  /** What every request keeps when alone holds of every committed state of every interleaving. */
  lemma AlwaysKept<K(!new), V(!new), A>(
      reqs: seq<Request<K, V, A>>, claims: K -> bool, db: map<K, V>, schedule: seq<nat>, holds: map<K, V> -> bool)
    requires AllSound(reqs, claims)
    requires Schedulable(reqs, Start(reqs, db), schedule)
    requires holds(db)
    requires forall p, d | 0 <= p < |reqs| && holds(d) :: holds(Serial(reqs[p], d).0)
    ensures holds(Outcome(reqs, db, schedule).db)
  {
    RunIsExplained(reqs, claims, db, schedule);
    ReplayKeeps(reqs, Outcome(reqs, db, schedule).finished, db, holds);
  }

  /** Everybody has been answered. */
  predicate AllDone<K, V, A>(s: System<K, V, A>) {
    forall p :: 0 <= p < |s.workers| ==> s.workers[p].answer.Some?
  }

  function FirstWorkers(n: nat): (all: set<nat>)
    ensures |all| == n && forall p: nat :: p in all <==> p < n
  {
    if n == 0 then {} else FirstWorkers(n - 1) + {n - 1}
  }

  function Members<T>(s: seq<T>): set<T> {
    set x | x in s
  }

  lemma {:induction false} DistinctCount<T>(s: seq<T>)
    requires Distinct(s)
    ensures |Members(s)| == |s|
  {
    if s != [] {
      var rest := s[..|s| - 1];
      DistinctCount(rest);
      assert Members(s) == Members(rest) + {s[|s| - 1]};
    }
  }

  /** When everybody has been answered, the order they finished in names each worker once. */
  lemma FinishedIsAll<K(!new), V(!new), A>(reqs: seq<Request<K, V, A>>, db: map<K, V>, s: System<K, V, A>)
    requires Explained(reqs, db, s) && AllDone(s)
    ensures |s.finished| == |reqs|
  {
    DistinctCount(s.finished);
    forall p: nat ensures p in s.finished <==> p in FirstWorkers(|reqs|) {
      assert p < |reqs| ==> !Active(s, p);
    }
    assert Members(s.finished) == FirstWorkers(|reqs|);
  }

  // ---- Copies of one request ----------------------------------------------------------

  function Again<K, V, A>(r: Request<K, V, A>, n: nat, db: map<K, V>): map<K, V> {
    if n == 0 then db else Serial(r, Again(r, n - 1, db)).0
  }

  lemma {:induction false} ReplayOfCopies<K(!new), V(!new), A>(
      r: Request<K, V, A>, reqs: seq<Request<K, V, A>>, order: seq<nat>, db: map<K, V>)
    requires forall p :: 0 <= p < |reqs| ==> reqs[p] == r
    requires forall i :: 0 <= i < |order| ==> order[i] < |reqs|
    ensures Replay(reqs, order, db) == Again(r, |order|, db)
  {
    if order != [] {
      ReplayOfCopies(r, reqs, order[..|order| - 1], db);
    }
  }

  /** Copies of one request, however they interleave: the database is the one so many in a row
      leave, and the `i`-th to finish is answered as the `i`-th in a row. */
  lemma CopiesInARow<K(!new), V(!new), A>(
      r: Request<K, V, A>, n: nat, claims: K -> bool, db: map<K, V>, schedule: seq<nat>)
    requires Sound(r, claims)
    requires var reqs :=
        seq(n, _ => r); Schedulable(reqs, Start(reqs, db), schedule) && AllDone(Outcome(reqs, db, schedule))
    ensures var s := Outcome(seq(n, _ => r), db, schedule);
      && |s.finished| == n == |s.workers| && Distinct(s.finished)
      && (forall i :: 0 <= i < n ==> s.finished[i] < n)
      && s.db == Again(r, n, db)
      && forall i :: 0 <= i < n ==> s.workers[s.finished[i]].answer == Some(Serial(r, Again(r, i, db)).1)
  {
    var reqs := seq(n, _ => r);
    var s := Outcome(reqs, db, schedule);
    RunIsExplained(reqs, claims, db, schedule);
    FinishedIsAll(reqs, db, s);
    ReplayOfCopies(r, reqs, s.finished, db);
    forall i | 0 <= i < n ensures s.workers[s.finished[i]].answer == Some(Serial(r, Again(r, i, db)).1) {
      assert AnsweredInTurn(reqs, db, s, i);
      ReplayOfCopies(r, reqs, s.finished[..i], db);
    }
  }
}
