/** Deadlock and termination of transactions under row locks. Locks taken in one order common to
    every request rule deadlock out, and no weaker promise about a single request does. */
module LockOrder {
  import opened Wrappers
  import opened RowLocks

  /** A row's place in the common order: its table's, then its own. */
  datatype Rank = Rank(table: nat, row: nat)

  predicate Below(a: Rank, b: Rank) {
    a.table < b.table || (a.table == b.table && a.row < b.row)
  }

  /** Every lock the request takes, and does not have, comes after those it holds. */
  ghost predicate Ordered<K(!new), V(!new), A>(r: Request<K, V, A>, rank: K -> Rank) {
    forall i, j :: 0 <= i < j < |r.touches| && r.touches[i].locks && r.touches[j].locks ==>
      Took(r, j, r.touches[j].key) || Below(rank(r.touches[i].key), rank(r.touches[j].key))
  }

  /** Somebody is unfinished and nobody can move. */
  ghost predicate Stuck<K, V, A>(reqs: seq<Request<K, V, A>>, s: System<K, V, A>) {
    (exists p: nat :: Active(s, p)) && forall p: nat :: !Enabled(reqs, s, p)
  }

  ghost predicate CanDeadlock<K, V, A>(reqs: seq<Request<K, V, A>>, db: map<K, V>) {
    exists schedule :: Schedulable(reqs, Start(reqs, db), schedule) &&
                       Stuck(reqs, Execute(reqs, Start(reqs, db), schedule))
  }

  /** What holds of every reachable state, whatever the requests do. */
  ghost predicate Running<K(!new), V, A>(reqs: seq<Request<K, V, A>>, s: System<K, V, A>) {
    && LocksHeld(reqs, s)
    && forall p :: 0 <= p < |reqs| && Active(s, p) ==> |s.workers[p].view| <= |reqs[p].touches|
  }

  lemma {:induction false} RunsOn<K(!new), V(!new), A>(
      reqs: seq<Request<K, V, A>>, s: System<K, V, A>, schedule: seq<nat>)
    requires Running(reqs, s) && Schedulable(reqs, s, schedule)
    ensures Running(reqs, Execute(reqs, s, schedule))
    decreases |schedule|
  {
    if schedule != [] {
      var s' := Step(reqs, s, schedule[0]);
      if Active(s', schedule[0]) {
        TouchKeepsLocks(reqs, s, schedule[0]);
      } else {
        EndKeepsLocks(reqs, s, schedule[0]);
      }
      RunsOn(reqs, s', schedule[1..]);
    }
  }

  // ---- No deadlock --------------------------------------------------------------------

  /** Worker `p` waits for a row. */
  predicate Waits<K, V, A>(reqs: seq<Request<K, V, A>>, s: System<K, V, A>, p: nat) {
    p < |reqs| == |s.workers| && Active(s, p) && |s.workers[p].view| < |reqs[p].touches| &&
    reqs[p].touches[|s.workers[p].view|].locks
  }

  function Wanted<K, V, A>(reqs: seq<Request<K, V, A>>, s: System<K, V, A>, p: nat): K
    requires Waits(reqs, s, p)
  {
    reqs[p].touches[|s.workers[p].view|].key
  }

  /** Of the first `n` workers, a waiting one whose row comes last, if any waits. */
  lemma {:induction false} LastWaiter<K(!new), V(!new), A>(
      reqs: seq<Request<K, V, A>>, s: System<K, V, A>, rank: K -> Rank, n: nat) returns (top: nat)
    requires n <= |reqs| == |s.workers|
    ensures (exists p :: 0 <= p < n && Waits(reqs, s, p)) ==>
              Waits(reqs, s, top) &&
              forall p :: 0 <= p < n && Waits(reqs, s, p) ==>
                !Below(rank(Wanted(reqs, s, top)), rank(Wanted(reqs, s, p)))
  {
    top := 0;
    if n > 0 {
      top := LastWaiter(reqs, s, rank, n - 1);
      if Waits(reqs, s, n - 1) &&
         (!Waits(reqs, s, top) || Below(rank(Wanted(reqs, s, top)), rank(Wanted(reqs, s, n - 1)))) {
        top := n - 1;
      }
    }
  }

  /** The row worker `p` waits for comes after those it holds. */
  ghost predicate HoldsBelow<K(!new), V(!new), A>(
      reqs: seq<Request<K, V, A>>, s: System<K, V, A>, rank: K -> Rank, p: nat) {
    Waits(reqs, s, p) ==>
      forall k :: Took(reqs[p], |s.workers[p].view|, k) && k != Wanted(reqs, s, p) ==>
        Below(rank(k), rank(Wanted(reqs, s, p)))
  }

  /** With the rows waited for in one order, an unfinished system can always take a step. */
  lemma NeverStuck<K(!new), V(!new), A>(reqs: seq<Request<K, V, A>>, s: System<K, V, A>, rank: K -> Rank)
    requires Running(reqs, s) && forall p :: 0 <= p < |reqs| && !Enabled(reqs, s, p) ==> HoldsBelow(reqs, s, rank, p)
    ensures !Stuck(reqs, s)
  {
    if p: nat :| Active(s, p) {
      if !Enabled(reqs, s, p) {
        var top := LastWaiter(reqs, s, rank, |reqs|);
        assert Waits(reqs, s, p);
        var k := Wanted(reqs, s, top);
        if !Enabled(reqs, s, top) {
          var q := s.owner[k];
          assert Took(reqs[q], |s.workers[q].view|, k);
          if !Enabled(reqs, s, q) {
            assert Waits(reqs, s, q) && HoldsBelow(reqs, s, rank, q);
            assert Wanted(reqs, s, q) != k;
          }
        }
      }
    }
  }

  lemma OrderedHoldsBelow<K(!new), V(!new), A>(
      reqs: seq<Request<K, V, A>>, s: System<K, V, A>, rank: K -> Rank, p: nat)
    requires Running(reqs, s) && p < |reqs| && Ordered(reqs[p], rank) && !Enabled(reqs, s, p)
    ensures HoldsBelow(reqs, s, rank, p)
  {
    if Waits(reqs, s, p) {
      var n := |s.workers[p].view|;
      assert !Took(reqs[p], n, Wanted(reqs, s, p));
      forall k | Took(reqs[p], n, k) ensures Below(rank(k), rank(Wanted(reqs, s, p))) {
        var i :| 0 <= i < n && reqs[p].touches[i] == Touch(k, true);
      }
    }
  }

  /** The first lock the request takes is row `g`. */
  ghost predicate GuardedBy<K(!new), V(!new), A>(r: Request<K, V, A>, g: K) {
    forall i :: 0 <= i < |r.touches| && r.touches[i].locks ==> r.touches[i].key == g || Took(r, i, g)
  }

  /** Requests that each lock row `g` first hold other rows one at a time: it is enough that each of
      them, while `g` is its own, goes by an order everybody else goes by as well. */
  ghost predicate InTurn<K(!new), V(!new), A>(
      reqs: seq<Request<K, V, A>>, g: K, ranks: Option<nat> -> K -> Rank) {
    forall holder: Option<nat>, p :: 0 <= p < |reqs| ==>
      Ordered(reqs[p], ranks(holder)) || (holder != Some(p) && GuardedBy(reqs[p], g))
  }

  lemma WaitingHoldsNothing<K(!new), V(!new), A>(reqs: seq<Request<K, V, A>>, s: System<K, V, A>, g: K, p: nat, k: K)
    requires Running(reqs, s) && p < |reqs| && Active(s, p) && GuardedBy(reqs[p], g)
    requires g !in s.owner || s.owner[g] != p
    ensures !Took(reqs[p], |s.workers[p].view|, k)
  {
    if Took(reqs[p], |s.workers[p].view|, k) {
      var i :| 0 <= i < |s.workers[p].view| && i < |reqs[p].touches| && reqs[p].touches[i] == Touch(k, true);
      assert Took(reqs[p], |s.workers[p].view|, g);
      assert false;
    }
  }

  lemma InTurnNeverStuck<K(!new), V(!new), A>(
      reqs: seq<Request<K, V, A>>, s: System<K, V, A>, g: K, ranks: Option<nat> -> K -> Rank)
    requires Running(reqs, s) && InTurn(reqs, g, ranks)
    ensures !Stuck(reqs, s)
  {
    var holder := if g in s.owner then Some(s.owner[g]) else None;
    forall p | 0 <= p < |reqs| && !Enabled(reqs, s, p) ensures HoldsBelow(reqs, s, ranks(holder), p) {
      if Ordered(reqs[p], ranks(holder)) {
        OrderedHoldsBelow(reqs, s, ranks(holder), p);
      } else if Waits(reqs, s, p) {
        forall k ensures !Took(reqs[p], |s.workers[p].view|, k) {
          WaitingHoldsNothing(reqs, s, g, p, k);
        }
      }
    }
    NeverStuck(reqs, s, ranks(holder));
  }

  /** Deadlock freedom over whole runs. */
  lemma InTurnNeverDeadlocks<K(!new), V(!new), A>(
      reqs: seq<Request<K, V, A>>, g: K, ranks: Option<nat> -> K -> Rank, db: map<K, V>)
    requires InTurn(reqs, g, ranks)
    ensures !CanDeadlock(reqs, db)
  {
    forall schedule | Schedulable(reqs, Start(reqs, db), schedule)
      ensures !Stuck(reqs, Execute(reqs, Start(reqs, db), schedule))
    {
      RunsOn(reqs, Start(reqs, db), schedule);
      InTurnNeverStuck(reqs, Execute(reqs, Start(reqs, db), schedule), g, ranks);
    }
  }

  lemma OrderedNeverDeadlocks<K(!new), V(!new), A>(reqs: seq<Request<K, V, A>>, rank: K -> Rank, db: map<K, V>)
    requires forall p :: 0 <= p < |reqs| ==> Ordered(reqs[p], rank)
    ensures !CanDeadlock(reqs, db)
  {
    forall schedule | Schedulable(reqs, Start(reqs, db), schedule)
      ensures !Stuck(reqs, Execute(reqs, Start(reqs, db), schedule))
    {
      var s := Execute(reqs, Start(reqs, db), schedule);
      RunsOn(reqs, Start(reqs, db), schedule);
      forall p | 0 <= p < |reqs| && !Enabled(reqs, s, p) ensures HoldsBelow(reqs, s, rank, p) {
        OrderedHoldsBelow(reqs, s, rank, p);
      }
      NeverStuck(reqs, s, rank);
    }
  }

  // ---- Every run ends -----------------------------------------------------------------

  /** Steps the first `n` workers may still take. */
  function Left<K, V, A>(reqs: seq<Request<K, V, A>>, s: System<K, V, A>, n: nat): int
    requires n <= |reqs| == |s.workers|
  {
    if n == 0 then 0
    else Left(reqs, s, n - 1) + if Active(s, n - 1) then |reqs[n - 1].touches| - |s.workers[n - 1].view| + 1 else 0
  }

  lemma {:induction false} StepLeavesLess<K(!new), V(!new), A>(
      reqs: seq<Request<K, V, A>>, s: System<K, V, A>, p: nat, n: nat)
    requires Enabled(reqs, s, p) && n <= |reqs|
    ensures Left(reqs, Step(reqs, s, p), n) <= Left(reqs, s, n) - if p < n then 1 else 0
  {
    if n > 0 {
      StepLeavesLess(reqs, s, p, n - 1);
    }
  }

  lemma {:induction false} LeftNonNegative<K(!new), V(!new), A>(reqs: seq<Request<K, V, A>>, s: System<K, V, A>, n: nat)
    requires n <= |reqs| == |s.workers| && Running(reqs, s)
    ensures Left(reqs, s, n) >= 0
  {
    if n > 0 {
      LeftNonNegative(reqs, s, n - 1);
    }
  }

  /** No run is longer than its requests' touches and one commit each. */
  lemma {:induction false} EveryRunEnds<K(!new), V(!new), A>(
      reqs: seq<Request<K, V, A>>, s: System<K, V, A>, schedule: seq<nat>)
    requires Running(reqs, s) && Schedulable(reqs, s, schedule)
    ensures |schedule| <= Left(reqs, s, |reqs|)
    decreases |schedule|
  {
    if schedule == [] {
      LeftNonNegative(reqs, s, |reqs|);
    } else {
      RunsOn(reqs, s, [schedule[0]]);
      assert Execute(reqs, s, [schedule[0]]) == Step(reqs, s, schedule[0]) by {
        assert [schedule[0]][1..] == [];
      }
      StepLeavesLess(reqs, s, schedule[0], |reqs|);
      EveryRunEnds(reqs, Step(reqs, s, schedule[0]), schedule[1..]);
    }
  }

  /** Where no deadlock can be, a run that can go no further has answered everybody; and no run goes
      further than its requests' touches and one commit each. */
  lemma RunsFinish<K(!new), V(!new), A>(reqs: seq<Request<K, V, A>>, db: map<K, V>, schedule: seq<nat>)
    requires !CanDeadlock(reqs, db) && Schedulable(reqs, Start(reqs, db), schedule)
    ensures |schedule| <= Left(reqs, Start(reqs, db), |reqs|)
    ensures (forall p: nat :: !Enabled(reqs, Outcome(reqs, db, schedule), p)) ==> AllDone(Outcome(reqs, db, schedule))
  {
    EveryRunEnds(reqs, Start(reqs, db), schedule);
    var s := Outcome(reqs, db, schedule);
    assert !Stuck(reqs, s);
    if (forall p: nat :: !Enabled(reqs, s, p)) && !AllDone(s) {
      var p: nat :| p < |s.workers| && s.workers[p].answer.None?;
      assert Active(s, p);
      assert false;
    }
  }

  // ---- The locks in turn ------------------------------------------------------------------

  /** The rows it locks in its first `n` touches, in turn. */
  function LocksIn<K, V, A>(r: Request<K, V, A>, n: nat): seq<K>
    requires n <= |r.touches|
  {
    if n == 0 then []
    else LocksIn(r, n - 1) + if r.touches[n - 1].locks then [r.touches[n - 1].key] else []
  }

  lemma {:induction false} LocksInTaken<K(!new), V(!new), A>(r: Request<K, V, A>, n: nat, k: K)
    requires n <= |r.touches|
    ensures k in LocksIn(r, n) <==> Took(r, n, k)
  {
    if n > 0 {
      LocksInTaken(r, n - 1, k);
      TookOneMore(r, n - 1, k);
    }
  }

  // ---- The order is needed ------------------------------------------------------------

  /** A request that locks row `a`, then row `b`. */
  function TwoRows<K, V, A>(a: K, b: K, answer: A): Request<K, V, A> {
    Request([Touch(a, true), Touch(b, true)], _ => None, _ => (map[], answer), None)
  }

  lemma {:induction false} OneMoreStep<K(!new), V(!new), A>(
      reqs: seq<Request<K, V, A>>, s: System<K, V, A>, schedule: seq<nat>, p: nat)
    requires Schedulable(reqs, s, schedule) && Enabled(reqs, Execute(reqs, s, schedule), p)
    ensures Schedulable(reqs, s, schedule + [p])
    ensures Execute(reqs, s, schedule + [p]) == Step(reqs, Execute(reqs, s, schedule), p)
    decreases |schedule|
  {
    if schedule == [] {
      assert [p][1..] == [];
    } else {
      OneMoreStep(reqs, Step(reqs, s, schedule[0]), schedule[1..], p);
      assert (schedule + [p])[1..] == schedule[1..] + [p];
    }
  }

  /** Of two workers, the first has taken `n` touches and the second `m`, no row in common. */
  ghost predicate BothAt<K(!new), V(!new), A>(
      r: Request<K, V, A>, n: nat, q: Request<K, V, A>, m: nat, db: map<K, V>, s: System<K, V, A>)
    requires n <= |r.touches| && m <= |q.touches|
  {
    && s.db == db && s.workers == [Worker(Alone(r, n, db), None), Worker(Alone(q, m, db), None)]
    && forall k :: (k in s.owner <==> Took(r, n, k) || Took(q, m, k)) &&
                   (k in s.owner ==> s.owner[k] == if Took(r, n, k) then 0 else 1)
  }

  lemma AloneOneMore<K(!new), V(!new), A>(r: Request<K, V, A>, n: nat, db: map<K, V>)
    requires 0 < n <= |r.touches| && GetsTo(r, n, db)
    ensures Alone(r, n, db) == Alone(r, n - 1, db) + [Read(db, r.touches[n - 1].key)]
    ensures r.gate(Alone(r, n, db)).None?
    ensures forall k :: Took(r, n, k) <==> Took(r, n - 1, k) || r.touches[n - 1] == Touch(k, true)
    ensures r.touches[n - 1].locks ==> r.touches[n - 1] == Touch(r.touches[n - 1].key, true)
  {
    assert GoesOn(r, n, db);
    forall k ensures Took(r, n, k) <==> Took(r, n - 1, k) || r.touches[n - 1] == Touch(k, true) {
      TookOneMore(r, n - 1, k);
    }
  }

  lemma {:induction false} FirstRunsAlone<K(!new), V(!new), A>(
      r: Request<K, V, A>, q: Request<K, V, A>, n: nat, db: map<K, V>) returns (schedule: seq<nat>)
    requires n <= |r.touches| && GetsTo(r, n, db)
    ensures Schedulable([r, q], Start([r, q], db), schedule)
    ensures BothAt(r, n, q, 0, db, Execute([r, q], Start([r, q], db), schedule))
  {
    var reqs := [r, q];
    if n == 0 {
      schedule := [];
      assert Alone(r, 0, db) == [] && Alone(q, 0, db) == [];
      assert Start(reqs, db).workers == [Worker([], None), Worker([], None)];
    } else {
      schedule := FirstRunsAlone(r, q, n - 1, db);
      AloneOneMore(r, n, db);
      OneMoreStep(reqs, Start(reqs, db), schedule, 0);
      schedule := schedule + [0];
    }
  }

  lemma {:induction false} SecondRunsAlone<K(!new), V(!new), A>(
      r: Request<K, V, A>, n: nat, q: Request<K, V, A>, m: nat, db: map<K, V>) returns (schedule: seq<nat>)
    requires n <= |r.touches| && GetsTo(r, n, db)
    requires m <= |q.touches| && GetsTo(q, m, db)
    requires forall k :: !(Took(r, n, k) && Took(q, m, k))
    ensures Schedulable([r, q], Start([r, q], db), schedule)
    ensures BothAt(r, n, q, m, db, Execute([r, q], Start([r, q], db), schedule))
  {
    var reqs := [r, q];
    if m == 0 {
      schedule := FirstRunsAlone(r, q, n, db);
    } else {
      AloneOneMore(q, m, db);
      schedule := SecondRunsAlone(r, n, q, m - 1, db);
      OneMoreStep(reqs, Start(reqs, db), schedule, 1);
      schedule := schedule + [1];
    }
  }

  /** Two requests that each hold the row the other takes next can come to a standstill. */
  lemma CrossedCanDeadlock<K(!new), V(!new), A>(
      r: Request<K, V, A>, n: nat, q: Request<K, V, A>, m: nat, db: map<K, V>)
    requires n < |r.touches| && GetsTo(r, n, db) && r.touches[n].locks
    requires m < |q.touches| && GetsTo(q, m, db) && q.touches[m].locks
    requires forall k :: !(Took(r, n, k) && Took(q, m, k))
    requires Took(r, n, q.touches[m].key) && Took(q, m, r.touches[n].key)
    ensures CanDeadlock([r, q], db)
  {
    var reqs := [r, q];
    var schedule := SecondRunsAlone(r, n, q, m, db);
    var s := Execute(reqs, Start(reqs, db), schedule);
    assert Active(s, 0) && s.owner[r.touches[n].key] == 1 && s.owner[q.touches[m].key] == 0;
    assert Stuck(reqs, s);
  }

  /** A request that takes a later row before an earlier one can deadlock with an ordered one,
      which does no more than lock the same two rows: the order is not only enough but needed. */
  lemma OutOfOrderCanDeadlock<K(!new), V(!new), A>(
      r: Request<K, V, A>, i: nat, j: nat, db: map<K, V>, answer: A)
    requires i < j < |r.touches| && r.touches[i].locks && r.touches[j].locks
    requires forall m :: 0 <= m < j && r.touches[m].locks ==> r.touches[m].key != r.touches[j].key
    requires GetsTo(r, j, db)
    ensures CanDeadlock([r, TwoRows(r.touches[j].key, r.touches[i].key, answer)], db)
  {
    var late, early := r.touches[i].key, r.touches[j].key;
    var other := TwoRows<K, V, A>(early, late, answer);
    assert r.touches[i] == Touch(late, true) && Took(r, j, late) && !Took(r, j, early);
    assert other.touches[0] == Touch(early, true) && Took(other, 1, early);
    CrossedCanDeadlock(r, j, other, 1, db);
  }
}
