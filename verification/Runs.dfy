/** What holds of whole runs of requests that ask for the same thing. */
module Runs {
  import opened Wrappers
  import opened RowLocks
  import opened LockOrder
  import opened Recipes

  // ---- One key, one effect ------------------------------------------------------------

  /** A retry is told what the first use of the key was told. */
  ghost predicate Retells<K(!new), V(!new), A>(c: Recipe<K, V, A>) {
    forall values: map<K, Option<V>> :: c.replay(c.record(c.write(values).1)) == c.write(values).1
  }

  /** Done twice it is done once, and says the same twice. */
  ghost predicate DoneOnce<K(!new), V(!new), A>(c: Recipe<K, V, A>, db: map<K, V>) {
    Effect(c, Effect(c, db).0) == Effect(c, db)
  }

  lemma KeyedIsDoneOnce<K(!new), V(!new), A>(c: Recipe<K, V, A>, db: map<K, V>)
    requires c.claim.Some? && Retells(c)
    ensures DoneOnce(c, db)
  {
  }

  lemma {:induction false} AgainIsOnce<K(!new), V(!new), A>(
      c: Recipe<K, V, A>, claims: K -> bool, n: nat, db: map<K, V>)
    requires WellMade(c, claims) && DoneOnce(c, db)
    ensures Again(ToRequest(c), n, db) == if n == 0 then db else Effect(c, db).0
    ensures Serial(ToRequest(c), Again(ToRequest(c), n, db)).1 == Effect(c, db).1
  {
    hide Effect, Serial;
    RecipeSerial(c, claims, db);
    RecipeSerial(c, claims, Effect(c, db).0);
    if n > 0 {
      AgainIsOnce(c, claims, n - 1, db);
    }
  }

  /** Any number of simultaneous copies of a request that is done once, however they interleave,
      leave what one leaves, and every one of them is answered as that one is. */
  lemma OneKeyOneEffect<K(!new), V(!new), A>(
      c: Recipe<K, V, A>, n: nat, claims: K -> bool, db: map<K, V>, schedule: seq<nat>)
    requires WellMade(c, claims) && DoneOnce(c, db)
    requires n > 0
    requires var reqs :=
        seq(n, _ => ToRequest(c)); Schedulable(reqs, Start(reqs, db), schedule) && AllDone(Outcome(reqs, db, schedule))
    ensures var s := Outcome(seq(n, _ => ToRequest(c)), db, schedule);
      && s.db == Effect(c, db).0
      && |s.workers| == n
      && forall p :: 0 <= p < n ==> s.workers[p].answer == Some(Effect(c, db).1)
  {
    var reqs := seq(n, _ => ToRequest(c));
    var s := Outcome(reqs, db, schedule);
    RecipeIsSound(c, claims);
    CopiesInARow(ToRequest(c), n, claims, db, schedule);
    AgainIsOnce(c, claims, n, db);
    RunIsExplained(reqs, claims, db, schedule);
    hide Effect, Serial, Again;
    forall p | 0 <= p < n ensures s.workers[p].answer == Some(Effect(c, db).1) {
      assert p in s.finished by { assert !Active(s, p); }
      var i :| 0 <= i < n && s.finished[i] == p;
      AgainIsOnce(c, claims, i, db);
    }
  }

  // ---- One key, and requests that differ in what they would make ---------------------------

  /** Once any of them has been done, any other changes nothing more and says the same. */
  ghost predicate AnyDoesForAll<K(!new), V(!new), A>(reqs: seq<Request<K, V, A>>, db: map<K, V>) {
    forall i, j :: 0 <= i < |reqs| && 0 <= j < |reqs| && i != j ==>
      Serial(reqs[j], Serial(reqs[i], db).0) == Serial(reqs[i], db)
  }

  lemma {:induction false} FirstDecides<K(!new), V(!new), A>(
      reqs: seq<Request<K, V, A>>, order: seq<nat>, db: map<K, V>)
    requires (forall i :: 0 <= i < |order| ==> order[i] < |reqs|) && Distinct(order) && order != []
    requires AnyDoesForAll(reqs, db)
    ensures Replay(reqs, order, db) == Serial(reqs[order[0]], db).0
    ensures Serial(reqs[order[|order| - 1]], Replay(reqs, order[..|order| - 1], db)).1 == Serial(reqs[order[0]], db).1
  {
    hide Serial;
    var before := order[..|order| - 1];
    if before == [] {
      assert Replay(reqs, before, db) == db;
    } else {
      FirstDecides(reqs, before, db);
      assert order[|order| - 1] != order[0];
    }
  }

  /** Of any number of such requests, the first to finish is the one done, and all are answered as it is. */
  lemma OneDoesForAll<K(!new), V(!new), A>(
      reqs: seq<Request<K, V, A>>, claims: K -> bool, db: map<K, V>, schedule: seq<nat>) returns (w: nat)
    requires reqs != [] && AllSound(reqs, claims) && AnyDoesForAll(reqs, db)
    requires Schedulable(reqs, Start(reqs, db), schedule) && AllDone(Outcome(reqs, db, schedule))
    ensures var s := Outcome(reqs, db, schedule);
      && w < |reqs| == |s.workers| && s.db == Serial(reqs[w], db).0
      && forall p :: 0 <= p < |reqs| ==> s.workers[p].answer == Some(Serial(reqs[w], db).1)
  {
    hide Serial, AnyDoesForAll, Replay;
    var s := Outcome(reqs, db, schedule);
    RunIsExplained(reqs, claims, db, schedule);
    FinishedIsAll(reqs, db, s);
    w := s.finished[0];
    FirstDecides(reqs, s.finished, db);
    forall p | 0 <= p < |reqs| ensures s.workers[p].answer == Some(Serial(reqs[w], db).1) {
      assert p in s.finished by { assert !Active(s, p); }
      var i :| 0 <= i < |s.finished| && s.finished[i] == p;
      assert AnsweredInTurn(reqs, db, s, i);
      var part := s.finished[..i + 1];
      assert part[..|part| - 1] == s.finished[..i];
      FirstDecides(reqs, part, db);
    }
  }

  /** What a request says before it writes, its key aside. */
  function Stops<K, V, A>(c: Recipe<K, V, A>, db: map<K, V>): Option<A> {
    if c.fault.Some? then c.fault else c.check(Snapshot(Keys(c), db))
  }

  /** They go by one key, and either all would go or all be refused alike. */
  ghost predicate Presses<K(!new), V(!new), A>(recipes: seq<Recipe<K, V, A>>, claims: K -> bool, db: map<K, V>) {
    && (forall i :: 0 <= i < |recipes| ==> WellMade(recipes[i], claims) && Retells(recipes[i]) && recipes[i].first)
    && forall i, j :: 0 <= i < |recipes| && 0 <= j < |recipes| ==>
         && recipes[i].claim.Some? && recipes[i].claim == recipes[j].claim
         && recipes[i].replay == recipes[j].replay
         && Stops(recipes[i], db) == Stops(recipes[j], db)
  }

  lemma PressesDoForAll<K(!new), V(!new), A>(recipes: seq<Recipe<K, V, A>>, claims: K -> bool, db: map<K, V>)
    requires Presses(recipes, claims, db)
    ensures AnyDoesForAll(ToRequests(recipes), db)
  {
    hide Serial, WellMade, ToRequest;
    forall i, j | 0 <= i < |recipes| && 0 <= j < |recipes| && i != j
      ensures Serial(ToRequest(recipes[j]), Serial(ToRequest(recipes[i]), db).0) == Serial(ToRequest(recipes[i]), db)
    {
      var a, b := recipes[i], recipes[j];
      RecipeSerial(a, claims, db);
      RecipeSerial(b, claims, Effect(a, db).0);
      OnePressIsEnough(a, b, claims, db);
    }
  }

  lemma OnePressIsEnough<K(!new), V(!new), A>(
      a: Recipe<K, V, A>, b: Recipe<K, V, A>, claims: K -> bool, db: map<K, V>)
    requires WellMade(a, claims) && Retells(a) && a.first && b.first
    requires a.claim.Some? && a.claim == b.claim && a.replay == b.replay && Stops(a, db) == Stops(b, db)
    ensures Effect(b, Effect(a, db).0) == Effect(a, db)
  {
  }

  // ---- What comes to hold goes on holding ----------------------------------------------

  lemma {:induction false} ReplayKeepsFrom<K(!new), V(!new), A>(
      reqs: seq<Request<K, V, A>>, order: seq<nat>, i: nat, db: map<K, V>, holds: map<K, V> -> bool)
    requires (forall j :: 0 <= j < |order| ==> order[j] < |reqs|) && i <= |order|
    requires holds(Replay(reqs, order[..i], db))
    requires forall p, d | 0 <= p < |reqs| && holds(d) :: holds(Serial(reqs[p], d).0)
    ensures holds(Replay(reqs, order, db))
  {
    if i < |order| {
      assert order[..|order| - 1][..i] == order[..i];
      ReplayKeepsFrom(reqs, order[..|order| - 1], i, db, holds);
    } else {
      assert order[..i] == order;
    }
  }

  lemma {:induction false} RunsInTwo<K(!new), V(!new), A>(
      reqs: seq<Request<K, V, A>>, s: System<K, V, A>, early: seq<nat>, late: seq<nat>)
    requires Schedulable(reqs, s, early + late)
    ensures Schedulable(reqs, s, early)
    ensures Schedulable(reqs, Execute(reqs, s, early), late)
    ensures Execute(reqs, s, early + late) == Execute(reqs, Execute(reqs, s, early), late)
    decreases |early|
  {
    if early == [] {
      assert early + late == late;
    } else {
      assert (early + late)[1..] == early[1..] + late;
      RunsInTwo(reqs, Step(reqs, s, early[0]), early[1..], late);
    }
  }

  lemma {:induction false} FinishedGrows<K(!new), V(!new), A>(
      reqs: seq<Request<K, V, A>>, s: System<K, V, A>, schedule: seq<nat>)
    requires Schedulable(reqs, s, schedule)
    ensures s.finished <= Execute(reqs, s, schedule).finished
    decreases |schedule|
  {
    if schedule != [] {
      FinishedGrows(reqs, Step(reqs, s, schedule[0]), schedule[1..]);
    }
  }

  /** What every request keeps, once it holds of a committed state, holds of every later one. */
  lemma HoldsFromThenOn<K(!new), V(!new), A>(
      reqs: seq<Request<K, V, A>>, claims: K -> bool, db: map<K, V>, early: seq<nat>, late: seq<nat>, holds: map<K,
          V> -> bool)
    requires AllSound(reqs, claims)
    requires Schedulable(reqs, Start(reqs, db), early + late)
    requires forall p, d | 0 <= p < |reqs| && holds(d) :: holds(Serial(reqs[p], d).0)
    ensures Schedulable(reqs, Start(reqs, db), early)
    ensures holds(Outcome(reqs, db, early).db) ==> holds(Outcome(reqs, db, early + late).db)
  {
    RunsInTwo(reqs, Start(reqs, db), early, late);
    RunIsExplained(reqs, claims, db, early);
    RunIsExplained(reqs, claims, db, early + late);
    var before, after := Outcome(reqs, db, early), Outcome(reqs, db, early + late);
    FinishedGrows(reqs, before, late);
    if holds(before.db) {
      assert after.finished[..|before.finished|] == before.finished;
      ReplayKeepsFrom(reqs, after.finished, |before.finished|, db, holds);
    }
  }

  ghost predicate KeepsUnlessAnswered<K(!new), V(!new), A>(
      reqs: seq<Request<K, V, A>>, p: nat, refused: A -> bool, holds: map<K, V> -> bool, q: nat, d: map<K, V>)
    requires q < |reqs|
  {
    holds(d) && (q == p ==> refused(Serial(reqs[q], d).1)) ==> holds(Serial(reqs[q], d).0)
  }

  lemma {:induction false} KeptToTurn<K(!new), V(!new), A>(
      reqs: seq<Request<K, V, A>>, db: map<K, V>, s: System<K, V, A>, i: nat,
      p: nat, refused: A -> bool, holds: map<K, V> -> bool)
    requires Explained(reqs, db, s) && i <= |s.finished| && holds(db)
    requires forall q: nat, d | q < |reqs| :: KeepsUnlessAnswered(reqs, p, refused, holds, q, d)
    requires p < |s.workers| && s.workers[p].answer.Some? ==> refused(s.workers[p].answer.value)
    ensures holds(Replay(reqs, s.finished[..i], db))
  {
    if i > 0 {
      hide Replay, Serial;
      KeptToTurn(reqs, db, s, i - 1, p, refused, holds);
      var q, d := s.finished[i - 1], Replay(reqs, s.finished[..i - 1], db);
      assert AnsweredInTurn(reqs, db, s, i - 1);
      assert s.finished[..i] == s.finished[..i - 1] + [q];
      ReplayOneMore(reqs, s.finished[..i - 1], q, db);
      assert KeepsUnlessAnswered(reqs, p, refused, holds, q, d);
    } else {
      assert s.finished[..0] == [];
    }
  }

  /** What every other request keeps, and this one too when it is refused, holds at the end if
      this one was refused. */
  lemma KeptByRefusal<K(!new), V(!new), A>(
      reqs: seq<Request<K, V, A>>, claims: K -> bool, db: map<K, V>, schedule: seq<nat>,
      p: nat, refused: A -> bool, holds: map<K, V> -> bool)
    requires AllSound(reqs, claims) && Schedulable(reqs, Start(reqs, db), schedule) && holds(db)
    requires forall q: nat, d | q < |reqs| :: KeepsUnlessAnswered(reqs, p, refused, holds, q, d)
    requires var s := Outcome(reqs, db, schedule); p < |s.workers| && s.workers[p].answer.Some? ==>
        refused(s.workers[p].answer.value)
    ensures holds(Outcome(reqs, db, schedule).db)
  {
    RunIsExplained(reqs, claims, db, schedule);
    var s := Outcome(reqs, db, schedule);
    KeptToTurn(reqs, db, s, |s.finished|, p, refused, holds);
    assert s.finished[..|s.finished|] == s.finished;
  }

  // ---- One key, one document ----------------------------------------------------------

  lemma ClaimIsKept<K(!new), V(!new), A>(c: Recipe<K, V, A>, claims: K -> bool, d: map<K, V>, k: K)
    requires WellMade(c, claims) && claims(k) && k in d
    ensures k in Serial(ToRequest(c), d).0 && Serial(ToRequest(c), d).0[k] == d[k]
  {
    RecipeSerial(c, claims, d);
  }

  /** The answer was a refusal of the request's own. */
  ghost predicate Refuses<K(!new), V(!new), A>(c: Recipe<K, V, A>, answer: A) {
    c.fault == Some(answer) || exists values: map<K, Option<V>> :: c.check(values) == Some(answer)
  }

  lemma EffectSpeaks<K(!new), V(!new), A>(c: Recipe<K, V, A>, claims: K -> bool, d: map<K, V>)
    requires WellMade(c, claims) && c.claim.Some? && Retells(c)
    ensures var (after, answer) := Effect(c, d);
      Refuses(c, answer) || (c.claim.value in after && answer == c.replay(after[c.claim.value]))
  {
  }

  lemma KeyStays<K(!new), V(!new), A>(
      recipes: seq<Recipe<K, V, A>>, claims: K -> bool, order: seq<nat>, i: nat, db: map<K, V>, k: K)
    requires forall i :: 0 <= i < |recipes| ==> WellMade(recipes[i], claims)
    requires (forall j :: 0 <= j < |order| ==> order[j] < |recipes|) && i <= |order|
    requires claims(k) && k in Replay(ToRequests(recipes), order[..i], db)
    ensures k in Replay(ToRequests(recipes), order, db)
    ensures Replay(ToRequests(recipes), order, db)[k] == Replay(ToRequests(recipes), order[..i], db)[k]
  {
    hide Replay, Serial;
    var reqs, v := ToRequests(recipes), Replay(ToRequests(recipes), order[..i], db)[k];
    forall q, e | 0 <= q < |reqs| && k in e && e[k] == v
      ensures k in Serial(reqs[q], e).0 && Serial(reqs[q], e).0[k] == v
    {
      ClaimIsKept(recipes[q], claims, e, k);
    }
    ReplayKeepsFrom(reqs, order, i, db, e => k in e && e[k] == v);
  }

  /** Whoever asks under a key, whatever they ask for and however they interleave: each one not
      refused is answered with what the key's row holds at the end. */
  lemma KeyedAnswersAgree<K(!new), V(!new), A>(
      recipes: seq<Recipe<K, V, A>>, claims: K -> bool, db: map<K, V>, schedule: seq<nat>, p: nat)
    requires forall i :: 0 <= i < |recipes| ==> WellMade(recipes[i], claims)
    requires Schedulable(ToRequests(recipes), Start(ToRequests(recipes), db), schedule)
    requires p < |recipes| && recipes[p].claim.Some? && Retells(recipes[p])
    requires p < |Outcome(ToRequests(recipes), db, schedule).workers|
    requires Outcome(ToRequests(recipes), db, schedule).workers[p].answer.Some?
    ensures var s, c := Outcome(ToRequests(recipes), db, schedule), recipes[p];
      || Refuses(c, s.workers[p].answer.value)
      || (c.claim.value in s.db && s.workers[p].answer.value == c.replay(s.db[c.claim.value]))
  {
    hide Effect, Replay, Refuses, ToRequests, Outcome, ToRequest;
    var s, c := Outcome(ToRequests(recipes), db, schedule), recipes[p];
    var i := TurnOf(recipes, claims, db, schedule, p);
    EffectSpeaks(c, claims, Replay(ToRequests(recipes), s.finished[..i], db));
    if !Refuses(c, s.workers[p].answer.value) {
      KeyStays(recipes, claims, s.finished, i + 1, db, c.claim.value);
    }
  }

  /** Where in the order a worker finished, and what it then did. */
  lemma TurnOf<K(!new), V(!new), A>(
      recipes: seq<Recipe<K, V, A>>, claims: K -> bool, db: map<K, V>, schedule: seq<nat>, p: nat) returns (i: nat)
    requires forall i :: 0 <= i < |recipes| ==> WellMade(recipes[i], claims)
    requires Schedulable(ToRequests(recipes), Start(ToRequests(recipes), db), schedule)
    requires p < |recipes| && p < |Outcome(ToRequests(recipes), db, schedule).workers|
    requires Outcome(ToRequests(recipes), db, schedule).workers[p].answer.Some?
    ensures var s := Outcome(ToRequests(recipes), db, schedule);
      && i < |s.finished| && (forall j :: 0 <= j < |s.finished| ==> s.finished[j] < |recipes|)
      && s.db == Replay(ToRequests(recipes), s.finished, db)
      && var d := Replay(ToRequests(recipes), s.finished[..i], db);
      && s.workers[p].answer == Some(Effect(recipes[p], d).1)
      && Replay(ToRequests(recipes), s.finished[..i + 1], db) == Effect(recipes[p], d).0
  {
    hide Effect, Replay, Serial, ToRequest, Sound, WellMade;
    var reqs := ToRequests(recipes);
    var s := Outcome(reqs, db, schedule);
    RecipesAreSound(recipes, claims);
    RunIsExplained(reqs, claims, db, schedule);
    hide Outcome;
    assert !Active(s, p) && p in s.finished;
    i :| 0 <= i < |s.finished| && s.finished[i] == p;
    assert AnsweredInTurn(reqs, db, s, i);
    RecipeSerial(recipes[p], claims, Replay(reqs, s.finished[..i], db));
    assert s.finished[..i + 1] == s.finished[..i] + [p];
    ReplayOneMore(reqs, s.finished[..i], p, db);
  }

  // ---- Done at most once --------------------------------------------------------------

  /** A thing two workers may both be asked to do: `done` once it is, `free(x, d)` while nothing stands
      in the way of worker `x`'s own asking. */
  ghost predicate OnceOnly<K(!new), V(!new), A>(
      reqs: seq<Request<K, V, A>>, won: A -> bool, done: map<K, V> -> bool, free: (nat, map<K, V>) -> bool, x: nat)
    requires x < |reqs|
  {
    && (forall d | free(x, d) && won(Serial(reqs[x], d).1) :: done(Serial(reqs[x], d).0))
    && (forall d | free(x, d) && done(d) :: !won(Serial(reqs[x], d).1))
    && (forall r: nat, d | r < |reqs| && r != x && free(x, d) :: free(x, Serial(reqs[r], d).0))
  }

  lemma {:induction false} FreeToTurn<K(!new), V(!new), A>(
      reqs: seq<Request<K, V, A>>, order: seq<nat>, db: map<K, V>, free: (nat, map<K, V>) -> bool, x: nat)
    requires forall i :: 0 <= i < |order| ==> order[i] < |reqs| && order[i] != x
    requires free(x, db)
    requires forall r: nat, d | r < |reqs| && r != x && free(x, d) :: free(x, Serial(reqs[r], d).0)
    ensures free(x, Replay(reqs, order, db))
  {
    if order != [] {
      FreeToTurn(reqs, order[..|order| - 1], db, free, x);
    }
  }

  /** What is done stays done, so of two who may do it, the later finds it done. */
  lemma LaterFindsItDone<K(!new), V(!new), A>(
      reqs: seq<Request<K, V, A>>, db: map<K, V>, s: System<K, V, A>, won: A -> bool, done: map<K, V> -> bool,
      free: (nat, map<K, V>) -> bool, i: nat, j: nat)
    requires Explained(reqs, db, s) && i < j < |s.finished|
    requires s.finished[i] < |reqs| && s.finished[j] < |reqs|
    requires OnceOnly(reqs, won, done, free, s.finished[i]) && OnceOnly(reqs, won, done, free, s.finished[j])
    requires free(s.finished[i], db) && free(s.finished[j], db)
    requires forall r, d | 0 <= r < |reqs| && done(d) :: done(Serial(reqs[r], d).0)
    ensures !(won(Serial(reqs[s.finished[i]], Replay(reqs, s.finished[..i], db)).1) &&
              won(Serial(reqs[s.finished[j]], Replay(reqs, s.finished[..j], db)).1))
  {
    hide Serial, Replay;
    var p, q := s.finished[i], s.finished[j];
    FreeToTurn(reqs, s.finished[..i], db, free, p);
    FreeToTurn(reqs, s.finished[..j], db, free, q);
    if won(Serial(reqs[p], Replay(reqs, s.finished[..i], db)).1) {
      assert s.finished[..i + 1] == s.finished[..i] + [p];
      ReplayOneMore(reqs, s.finished[..i], p, db);
      assert s.finished[..j][..i + 1] == s.finished[..i + 1];
      ReplayKeepsFrom(reqs, s.finished[..j], i + 1, db, done);
    }
  }

  /** Two that may do it are not both answered that they did, whatever ran beside them. */
  lemma NotBoth<K(!new), V(!new), A>(
      reqs: seq<Request<K, V, A>>, claims: K -> bool, db: map<K, V>, schedule: seq<nat>,
      won: A -> bool, done: map<K, V> -> bool, free: (nat, map<K, V>) -> bool, p: nat, q: nat)
    requires AllSound(reqs, claims) && Schedulable(reqs, Start(reqs, db), schedule)
    requires p < |reqs| && q < |reqs| && p != q && free(p, db) && free(q, db)
    requires OnceOnly(reqs, won, done, free, p) && OnceOnly(reqs, won, done, free, q)
    requires forall r, d | 0 <= r < |reqs| && done(d) :: done(Serial(reqs[r], d).0)
    ensures var s := Outcome(reqs, db, schedule);
      p < |s.workers| && q < |s.workers| && s.workers[p].answer.Some? && s.workers[q].answer.Some? ==>
        !(won(s.workers[p].answer.value) && won(s.workers[q].answer.value))
  {
    hide Serial, Replay, OnceOnly;
    RunIsExplained(reqs, claims, db, schedule);
    var s := Outcome(reqs, db, schedule);
    hide Outcome;
    if p < |s.workers| && q < |s.workers| && s.workers[p].answer.Some? && s.workers[q].answer.Some? {
      assert !Active(s, p) && !Active(s, q) && p in s.finished && q in s.finished;
      var i :| 0 <= i < |s.finished| && s.finished[i] == p;
      var j :| 0 <= j < |s.finished| && s.finished[j] == q;
      assert AnsweredInTurn(reqs, db, s, i) && AnsweredInTurn(reqs, db, s, j);
      if i < j {
        LaterFindsItDone(reqs, db, s, won, done, free, i, j);
      } else {
        LaterFindsItDone(reqs, db, s, won, done, free, j, i);
      }
    }
  }

  // ---- So many units, so many winners -------------------------------------------------

  /** Alone, the request takes `q` units if there are as many, and otherwise none. */
  predicate Takes<K, V, A>(r: Request<K, V, A>, d: map<K, V>, q: nat, units: map<K, V> -> int, won: A -> bool) {
    var (after, answer) := Serial(r, d);
    if units(d) >= q then won(answer) && units(after) == units(d) - q
    else !won(answer) && units(after) == units(d)
  }

  /** Who of the first `n` to finish got their units. */
  function Winners<K, V, A>(reqs: seq<Request<K, V, A>>, order: seq<nat>, db: map<K, V>, won: A -> bool): set<nat>
    requires forall i :: 0 <= i < |order| ==> order[i] < |reqs|
  {
    if order == [] then {}
    else
      var p, rest := order[|order| - 1], order[..|order| - 1];
      Winners(reqs, rest, db, won) + if won(Serial(reqs[p], Replay(reqs, rest, db)).1) then {p} else {}
  }

  lemma {:induction false} WinnersFinished<K, V, A>(
      reqs: seq<Request<K, V, A>>, order: seq<nat>, db: map<K, V>, won: A -> bool)
    requires forall i :: 0 <= i < |order| ==> order[i] < |reqs|
    ensures forall p :: p in Winners(reqs, order, db, won) ==> p in order
  {
    if order != [] {
      WinnersFinished(reqs, order[..|order| - 1], db, won);
    }
  }

  /** What each needs to stand as it was until its turn comes. */
  ghost predicate LeftReady<K(!new), V(!new), A>(
      reqs: seq<Request<K, V, A>>, ready: (nat, map<K, V>) -> bool, p: nat, o: nat, d: map<K, V>)
    requires p < |reqs|
  {
    p != o && ready(o, d) && ready(p, d) ==> ready(o, Serial(reqs[p], d).0)
  }

  ghost predicate FairGame<K(!new), V(!new), A>(
      reqs: seq<Request<K, V, A>>, q: nat, units: map<K, V> -> int, won: A -> bool, ready: (nat, map<K, V>) -> bool)
  {
    && (forall p, d | 0 <= p < |reqs| && ready(p, d) :: Takes(reqs[p], d, q, units, won))
    && (forall p: nat, o: nat, d | p < |reqs| && o < |reqs| :: LeftReady(reqs, ready, p, o, d))
  }

  lemma {:induction false} StillReady<K(!new), V(!new), A>(
      reqs: seq<Request<K, V, A>>, order: seq<nat>, db: map<K, V>, q: nat,
      units: map<K, V> -> int, won: A -> bool, ready: (nat, map<K, V>) -> bool, o: nat)
    requires forall i :: 0 <= i < |order| ==> order[i] < |reqs|
    requires Distinct(order) && FairGame(reqs, q, units, won, ready)
    requires forall p :: 0 <= p < |reqs| ==> ready(p, db)
    requires o < |reqs| && o !in order
    ensures ready(o, Replay(reqs, order, db))
  {
    if order != [] {
      var p, rest := order[|order| - 1], order[..|order| - 1];
      assert o !in rest && p !in rest;
      StillReady(reqs, rest, db, q, units, won, ready, o);
      StillReady(reqs, rest, db, q, units, won, ready, p);
      assert LeftReady(reqs, ready, p, o, Replay(reqs, rest, db));
    }
  }

  /** Of `n` requests for `q` units each, from `a`, `k` were served and `left` remain. */
  predicate Allotted(a: int, q: nat, n: nat, k: nat, left: int) {
    k <= n && left == a - q * k >= 0 && (k < n ==> left < q)
  }

  lemma OneMoreAllotted(a: int, q: nat, n: nat, k: nat, left: int)
    requires Allotted(a, q, n, k, left)
    ensures left >= q ==> Allotted(a, q, n + 1, k + 1, left - q)
    ensures left < q ==> Allotted(a, q, n + 1, k, left)
  {
  }

  ghost predicate TakesInTurn<K(!new), V(!new), A>(
      reqs: seq<Request<K, V, A>>, order: seq<nat>, db: map<K, V>, q: nat, units: map<K, V> -> int, won: A -> bool,
          i: nat)
    requires i < |order| && forall j :: 0 <= j < |order| ==> order[j] < |reqs|
  {
    Takes(reqs[order[i]], Replay(reqs, order[..i], db), q, units, won)
  }

  lemma EachTakesInTurn<K(!new), V(!new), A>(
      reqs: seq<Request<K, V, A>>, order: seq<nat>, db: map<K, V>, q: nat,
      units: map<K, V> -> int, won: A -> bool, ready: (nat, map<K, V>) -> bool)
    requires forall i :: 0 <= i < |order| ==> order[i] < |reqs|
    requires Distinct(order) && FairGame(reqs, q, units, won, ready)
    requires forall p :: 0 <= p < |reqs| ==> ready(p, db)
    ensures forall i :: 0 <= i < |order| ==> TakesInTurn(reqs, order, db, q, units, won, i)
  {
    forall i | 0 <= i < |order| ensures TakesInTurn(reqs, order, db, q, units, won, i) {
      assert order[i] !in order[..i];
      StillReady(reqs, order[..i], db, q, units, won, ready, order[i]);
      assert Takes(reqs[order[i]], Replay(reqs, order[..i], db), q, units, won);
    }
  }

  /** What the last to finish adds. */
  lemma LastTurn<K(!new), V(!new), A>(
      reqs: seq<Request<K, V, A>>, order: seq<nat>, db: map<K, V>, q: nat, units: map<K, V> -> int, won: A -> bool)
    requires forall i :: 0 <= i < |order| ==> order[i] < |reqs|
    requires Distinct(order) && order != []
    requires TakesInTurn(reqs, order, db, q, units, won, |order| - 1)
    ensures var rest := order[..|order| - 1];
      var left, won := units(Replay(reqs, rest, db)), |Winners(reqs, order, db, won)| - |Winners(reqs, rest, db, won)|;
      if left >= q then won == 1 && units(Replay(reqs, order, db)) == left - q
      else won == 0 && units(Replay(reqs, order, db)) == left
  {
    WinnersFinished(reqs, order[..|order| - 1], db, won);
    assert order[|order| - 1] !in order[..|order| - 1];
  }

  lemma {:induction false} OrderAllots<K(!new), V(!new), A>(
      reqs: seq<Request<K, V, A>>, order: seq<nat>, db: map<K, V>, q: nat, units: map<K, V> -> int, won: A -> bool)
    requires forall i :: 0 <= i < |order| ==> order[i] < |reqs|
    requires Distinct(order) && units(db) >= 0
    requires forall i :: 0 <= i < |order| ==> TakesInTurn(reqs, order, db, q, units, won, i)
    ensures Allotted(units(db), q, |order|, |Winners(reqs, order, db, won)|, units(Replay(reqs, order, db)))
    decreases |order|, 1
  {
    if order == [] {
    } else {
      AllotOneMore(reqs, order, db, q, units, won);
    }
  }

  lemma {:induction false} AllotOneMore<K(!new), V(!new), A>(
      reqs: seq<Request<K, V, A>>, order: seq<nat>, db: map<K, V>, q: nat, units: map<K, V> -> int, won: A -> bool)
    requires forall i :: 0 <= i < |order| ==> order[i] < |reqs|
    requires Distinct(order) && units(db) >= 0 && order != []
    requires forall i :: 0 <= i < |order| ==> TakesInTurn(reqs, order, db, q, units, won, i)
    ensures Allotted(units(db), q, |order|, |Winners(reqs, order, db, won)|, units(Replay(reqs, order, db)))
    decreases |order|, 0
  {
    hide Replay, Winners, Takes, Allotted;
    var rest := order[..|order| - 1];
    forall i | 0 <= i < |rest| ensures TakesInTurn(reqs, rest, db, q, units, won, i) {
      assert TakesInTurn(reqs, order, db, q, units, won, i) && rest[..i] == order[..i];
    }
    OrderAllots(reqs, rest, db, q, units, won);
    LastTurn(reqs, order, db, q, units, won);
    OneMoreAllotted(units(db), q, |rest|, |Winners(reqs, rest, db, won)|, units(Replay(reqs, rest, db)));
  }

  lemma Larger(q: nat, x: int, y: int)
    requires x <= y
    ensures q * x <= q * y
  {
  }

  lemma ShareOut(a: int, q: nat, n: nat, k: nat)
    requires q > 0 && Allotted(a, q, n, k, a - q * k)
    ensures k == if n <= a / q then n else a / q
  {
    var d := a / q;
    assert q * d <= a < q * d + q;
    if d < k {
      Larger(q, d + 1, k);
      assert false;
    }
    if k < n && k < d {
      Larger(q, k + 1, d);
      assert false;
    }
  }

  /** Exact allocation: of `n` requests for `q` units each, from `a`, exactly min(n, a / q) are
      served and a - q * min(n, a / q) are left, whatever the interleaving. */
  lemma Allocation<K(!new), V(!new), A>(
      reqs: seq<Request<K, V, A>>, claims: K -> bool, db: map<K, V>, schedule: seq<nat>, q: nat,
      units: map<K, V> -> int, won: A -> bool, ready: (nat, map<K, V>) -> bool)
    requires AllSound(reqs, claims) && FairGame(reqs, q, units, won, ready)
    requires q > 0 && units(db) >= 0
    requires forall p :: 0 <= p < |reqs| ==> ready(p, db)
    requires Schedulable(reqs, Start(reqs, db), schedule) && AllDone(Outcome(reqs, db, schedule))
    ensures var s, served := Outcome(reqs, db, schedule), if |reqs| <= units(db) / q then |reqs| else units(db) / q;
      && |Served(s, won)| == served
      && units(s.db) == units(db) - q * served
  {
    var s := Outcome(reqs, db, schedule);
    RunIsExplained(reqs, claims, db, schedule);
    FinishedIsAll(reqs, db, s);
    EachTakesInTurn(reqs, s.finished, db, q, units, won, ready);
    OrderAllots(reqs, s.finished, db, q, units, won);
    ShareOut(units(db), q, |reqs|, |Winners(reqs, s.finished, db, won)|);
    ServedAreWinners(reqs, db, s, won);
  }

  /** The workers whose answer was what they asked for. */
  function Served<K, V, A>(s: System<K, V, A>, won: A -> bool): set<nat> {
    set p | 0 <= p < |s.workers| && s.workers[p].answer.Some? && won(s.workers[p].answer.value)
  }

  lemma {:induction false} WinnerAt<K, V, A>(
      reqs: seq<Request<K, V, A>>, order: seq<nat>, db: map<K, V>, won: A -> bool, i: nat)
    requires forall i :: 0 <= i < |order| ==> order[i] < |reqs|
    requires Distinct(order) && i < |order|
    ensures order[i] in Winners(reqs, order, db, won) <==> won(Serial(reqs[order[i]], Replay(reqs, order[..i], db)).1)
  {
    var rest := order[..|order| - 1];
    WinnersFinished(reqs, rest, db, won);
    if i < |rest| {
      WinnerAt(reqs, rest, db, won, i);
      assert rest[..i] == order[..i];
    }
  }

  lemma ServedAreWinners<K(!new), V(!new), A>(
      reqs: seq<Request<K, V, A>>, db: map<K, V>, s: System<K, V, A>, won: A -> bool)
    requires Explained(reqs, db, s) && AllDone(s)
    ensures Served(s, won) == Winners(reqs, s.finished, db, won)
  {
    WinnersFinished(reqs, s.finished, db, won);
    forall p: nat | p < |reqs| ensures p in Served(s, won) <==> p in Winners(reqs, s.finished, db, won) {
      assert p in s.finished by { assert !Active(s, p); }
      var i :| 0 <= i < |s.finished| && s.finished[i] == p;
      assert AnsweredInTurn(reqs, db, s, i);
      WinnerAt(reqs, s.finished, db, won, i);
    }
  }
}
