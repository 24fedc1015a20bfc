/** So many workers sharing one count of requests to make, each taking the next as it is free: however
    their answers interleave, every request is made once. */
module LoadWorkers {
  datatype Worker = Ready | Waiting | Done

  /** `latencies`: one for each answer, in the order they came. */
  datatype Load = Load(total: nat, next: nat, latencies: seq<nat>, workers: seq<Worker>)

  function Start(total: nat, concurrency: nat): Load {
    Load(total, 0, [], seq(concurrency, _ => Ready))
  }

  /** A worker's turn, up to where it next waits: the next request taken, or none left. */
  function Turn(s: Load, i: nat): Load
    requires i < |s.workers|
  {
    if s.next < s.total then s.(next := s.next + 1, workers := s.workers[i := Waiting])
    else s.(workers := s.workers[i := Done])
  }

  predicate CanStep(s: Load, i: nat) {
    i < |s.workers| && !s.workers[i].Done?
  }

  /** It begins, or the answer it waits for comes. */
  function Step(s: Load, i: nat, latency: nat): Load
    requires CanStep(s, i)
  {
    Turn(if s.workers[i].Waiting? then s.(latencies := s.latencies + [latency]) else s, i)
  }

  datatype Choice = Choice(worker: nat, latency: nat)

  predicate Runs(s: Load, schedule: seq<Choice>)
    decreases |schedule|
  {
    schedule == [] ||
    (CanStep(s, schedule[0].worker) && Runs(Step(s, schedule[0].worker, schedule[0].latency), schedule[1..]))
  }

  function Outcome(s: Load, schedule: seq<Choice>): Load
    requires Runs(s, schedule)
    decreases |schedule|
  {
    if schedule == [] then s else Outcome(Step(s, schedule[0].worker, schedule[0].latency), schedule[1..])
  }

  function InFlight(workers: seq<Worker>): nat {
    if workers == [] then 0 else InFlight(workers[1..]) + if workers[0].Waiting? then 1 else 0
  }

  function Unfinished(workers: seq<Worker>): nat {
    if workers == [] then 0 else Unfinished(workers[1..]) + if workers[0].Done? then 0 else 1
  }

  /** Steps still to be taken. */
  function Left(s: Load): int {
    s.total - s.next + Unfinished(s.workers)
  }

  predicate Sound(s: Load) {
    && s.next <= s.total
    && s.next == |s.latencies| + InFlight(s.workers)
    && forall i :: 0 <= i < |s.workers| && s.workers[i].Done? ==> s.next == s.total
  }

  lemma {:induction false} Changed(workers: seq<Worker>, i: nat, w: Worker)
    requires i < |workers|
    ensures InFlight(workers[i := w]) ==
            InFlight(workers) - (if workers[i].Waiting? then 1 else 0) + if w.Waiting? then 1 else 0
    ensures Unfinished(workers[i := w]) ==
            Unfinished(workers) - (if workers[i].Done? then 0 else 1) + if w.Done? then 0 else 1
  {
    if i == 0 {
      assert workers[i := w][1..] == workers[1..];
    } else {
      assert workers[i := w][1..] == workers[1..][i - 1 := w];
      Changed(workers[1..], i - 1, w);
    }
  }

  lemma {:induction false} AtStart(total: nat, concurrency: nat)
    ensures InFlight(Start(total, concurrency).workers) == 0
    ensures Unfinished(Start(total, concurrency).workers) == concurrency
  {
    if concurrency > 0 {
      AtStart(total, concurrency - 1);
      assert Start(total, concurrency).workers[1..] == Start(total, concurrency - 1).workers;
    }
  }

  lemma {:induction false} Bounds(workers: seq<Worker>)
    ensures InFlight(workers) <= Unfinished(workers) <= |workers|
    ensures Unfinished(workers) == 0 <==> forall i :: 0 <= i < |workers| ==> workers[i].Done?
  {
    if workers != [] {
      Bounds(workers[1..]);
      assert workers == [workers[0]] + workers[1..];
    }
  }

  lemma StepSound(s: Load, i: nat, latency: nat)
    requires Sound(s) && CanStep(s, i)
    ensures Sound(Step(s, i, latency)) && Left(Step(s, i, latency)) == Left(s) - 1
    ensures |Step(s, i, latency).workers| == |s.workers| && Step(s, i, latency).total == s.total
  {
    Changed(s.workers, i, Waiting);
    Changed(s.workers, i, Done);
  }

  lemma {:induction false} RunSound(s: Load, schedule: seq<Choice>)
    requires Sound(s) && Runs(s, schedule)
    ensures var end := Outcome(s, schedule);
      Sound(end) && Left(end) == Left(s) - |schedule| && |end.workers| == |s.workers| && end.total == s.total
    decreases |schedule|
  {
    if schedule != [] {
      StepSound(s, schedule[0].worker, schedule[0].latency);
      RunSound(Step(s, schedule[0].worker, schedule[0].latency), schedule[1..]);
    }
  }

  /** In every state of every run no request is made past the total, those made and not answered are
      those in flight, never more than the workers there are; a run takes exactly as many steps as
      there are requests and workers, stands still nowhere before, and ends with every request made
      and answered -- so long as there is a worker. */
  lemma EveryRunMakesThemAll(total: nat, concurrency: nat, schedule: seq<Choice>)
    requires Runs(Start(total, concurrency), schedule)
    ensures var s := Outcome(Start(total, concurrency), schedule);
      && s.next <= total
      && s.next - |s.latencies| == InFlight(s.workers) <= concurrency
      && |schedule| <= total + concurrency
      && (|schedule| < total + concurrency && concurrency > 0 ==> exists i :: CanStep(s, i))
      && ((forall i :: !CanStep(s, i)) && concurrency > 0 ==>
          |schedule| == total + concurrency && |s.latencies| == total)
  {
    hide Runs, Outcome, Start, CanStep;
    StartSound(total, concurrency);
    RunSound(Start(total, concurrency), schedule);
    Standing(Outcome(Start(total, concurrency), schedule));
  }

  lemma StartSound(total: nat, concurrency: nat)
    ensures var s := Start(total, concurrency);
      Sound(s) && Left(s) == total + concurrency && |s.workers| == concurrency && s.total == total
  {
    AtStart(total, concurrency);
  }

  /** A run that is not over can go on; over, it has made every request. */
  lemma Standing(s: Load)
    requires Sound(s)
    ensures InFlight(s.workers) <= |s.workers| && Left(s) >= 0
    ensures s.workers != [] && Left(s) > 0 ==> exists i :: CanStep(s, i)
    ensures (forall i :: !CanStep(s, i)) && s.workers != [] ==> Left(s) == 0 && |s.latencies| == s.total
    ensures s.workers == [] ==> |s.latencies| == s.next
    ensures s.workers == [] ==> InFlight(s.workers) == 0
  {
    Bounds(s.workers);
    if s.workers != [] {
      assert s.workers[0].Done? || CanStep(s, 0);
      if i :| 0 <= i < |s.workers| && !s.workers[i].Done? {
        assert CanStep(s, i);
      }
    }
  }

  /** The counter, the list and the workers as the run changes them. */
  class Bench {
    const total: nat
    var next: nat
    var latencies: seq<nat>
    const workers: array<Worker>

    ghost function View(): Load
      reads this, workers
    {
      Load(total, next, latencies, workers[..])
    }

    constructor (total: nat, concurrency: nat)
      ensures fresh(workers) && View() == Start(total, concurrency)
    {
      this.total, next, latencies := total, 0, [];
      workers := new Worker[concurrency](_ => Ready);
    }

    /** `while (next < total)`, up to the next wait. */
    method Take(i: nat)
      requires i < workers.Length
      modifies this`next, workers
      ensures View() == Turn(old(View()), i)
    {
      if next < total {
        next := next + 1;
        workers[i] := Waiting;
      } else {
        workers[i] := Done;
      }
      assert workers[..] == old(workers[..])[i := workers[i]];
    }

    /** A worker begins, or what it waits for comes and it goes on. */
    method Resume(i: nat, latency: nat)
      requires CanStep(View(), i)
      modifies this`next, this`latencies, workers
      ensures View() == Step(old(View()), i, latency)
    {
      if workers[i].Waiting? {
        latencies := latencies + [latency];
      }
      Take(i);
    }

    /** Any interleaving at all. */
    method Run(schedule: seq<Choice>)
      requires Runs(View(), schedule)
      modifies this`next, this`latencies, workers
      ensures View() == Outcome(old(View()), schedule)
    {
      for k := 0 to |schedule|
        invariant Runs(View(), schedule[k..])
        invariant Outcome(View(), schedule[k..]) == Outcome(old(View()), schedule)
      {
        assert schedule[k..][0] == schedule[k] && schedule[k..][1..] == schedule[k + 1..];
        Resume(schedule[k].worker, schedule[k].latency);
      }
    }
  }
}
