// What the worker pool guarantees on every run, and what its Stop promises.
module PoolTheorems {
  import opened WorkerPool

  ghost predicate Reachable(n: int, s: State) {
    exists es :: IsRun(Init(n), es) && Exec(Init(n), es) == s
  }

  lemma ReachableInv(n: int, s: State)
    requires Reachable(n, s)
    ensures Inv(s)
  {
    var es :| IsRun(Init(n), es) && Exec(Init(n), es) == s;
    InitInv(n);
    RunKeepsInv(Init(n), es);
  }

  lemma {:induction false} RunKeepsFlags(s: State, es: seq<Event>)
    requires IsRun(s, es)
    ensures s.quit ==> Exec(s, es).quit
    ensures |Exec(s, es).workers| == |s.workers|
    decreases |es|
  {
    if es != [] {
      RunKeepsFlags(Apply(s, es[0]), es[1..]);
    }
  }

  // The pool keeps its workers.
  lemma ReachableSize(n: int, s: State)
    requires Reachable(n, s)
    ensures |s.workers| == PoolSize(n) == if n > 0 then n else 4
  {
    var es :| IsRun(Init(n), es) && Exec(Init(n), es) == s;
    RunKeepsFlags(Init(n), es);
  }

  // ---------- conservation and order ----------

  // Nothing is lost, duplicated or reordered: every submitted job is blocked, given up,
  // queued, with one worker or finished; jobs leave the channel in the order they
  // entered it; and `active` is the number of workers between their two updates.
  lemma JobsConserved(n: int, s: State)
    requires Reachable(n, s)
    ensures s.accepted == s.taken + s.queue && |s.queue| <= 1000
    ensures s.submitted ==
            s.pending + s.dropped + multiset(s.queue) + AllInHand(s.workers) + s.finished
    ensures !s.quit ==> s.dropped == multiset{}
    ensures s.active == Total(s.workers, CountsActive)
  {
    ReachableInv(n, s);
    assert multiset(s.accepted) == multiset(s.taken) + multiset(s.queue);
  }

  // ---------- the order in which jobs start ----------

  function Begins(s: State, e: Event): seq<Job>
    requires Enabled(s, e)
  {
    if e.Activate? then [s.workers[e.w].job] else []
  }

  // The jobs in the order in which the workers begin them.
  function Starts(s: State, es: seq<Event>): seq<Job>
    requires IsRun(s, es)
    decreases |es|
  {
    if es == [] then []
    else Begins(s, es[0]) + Starts(Apply(s, es[0]), es[1..])
  }

  function Held(pc: WorkerPc): seq<Job> {
    if pc.Taken? then [pc.job] else []
  }

  lemma OneWorkerStep(s: State, e: Event, begun: seq<Job>)
    requires |s.workers| == 1 && Enabled(s, e) && s.taken == begun + Held(s.workers[0])
    ensures var s' := Apply(s, e);
            |s'.workers| == 1 && s'.taken == begun + Begins(s, e) + Held(s'.workers[0])
  {
  }

  lemma StartsFirst(s: State, es: seq<Event>, begun: seq<Job>)
    requires IsRun(s, es) && es != []
    ensures begun + Starts(s, es) == begun + Begins(s, es[0]) + Starts(Apply(s, es[0]), es[1..])
  {
  }

  // What one worker has taken is what it has begun, and perhaps one job about to begin.
  lemma {:induction false} OneWorkerInOrder(s: State, es: seq<Event>, begun: seq<Job>)
    requires |s.workers| == 1 && IsRun(s, es) && s.taken == begun + Held(s.workers[0])
    ensures var s' := Exec(s, es); |s'.workers| == 1 && s'.taken == begun + Starts(s, es) + Held(s'.workers[0])
    decreases |es|
  {
    if es == [] {
      assert begun + Starts(s, es) == begun;
    } else {
      hide Held, Begins, Starts, Apply, Enabled;
      OneWorkerStep(s, es[0], begun);
      StartsFirst(s, es, begun);
      OneWorkerInOrder(Apply(s, es[0]), es[1..], begun + Begins(s, es[0]));
    }
  }

  // Two jobs in the channel, and nobody has looked yet.
  lemma TwoQueued(n: int, a: Job, b: Job) returns (es: seq<Event>, s: State)
    ensures IsRun(Init(n), es) && s == Exec(Init(n), es) && Starts(Init(n), es) == []
    ensures s.workers == Init(n).workers && s.queue == s.accepted == [a, b] && s.taken == []
    ensures s.finished == multiset{} && !s.panicked
  {
    es, s := [], Init(n);
    assert IsRun(Init(n), es) && Exec(Init(n), es) == s && Starts(Init(n), es) == [];
    hide IsRun, Exec, Starts;
    es, s := ExtendStarts(Init(n), es, s, CallSubmit(a));
    es, s := ExtendStarts(Init(n), es, s, Enqueue(a));
    es, s := ExtendStarts(Init(n), es, s, CallSubmit(b));
    es, s := ExtendStarts(Init(n), es, s, Enqueue(b));
  }

  // Two workers: the one that took the first job has not begun it when the other has
  // finished the second.
  lemma SecondMayFinishFirst(n: int, a: Job, b: Job) returns (es: seq<Event>, s: State)
    requires PoolSize(n) >= 2
    ensures IsRun(Init(n), es) && s == Exec(Init(n), es)
    ensures s.accepted == s.taken == [a, b] && Starts(Init(n), es) == [b]
    ensures |s.workers| >= 2 && s.workers[0] == Taken(a) && s.finished == multiset{b}
  {
    es, s := TwoQueued(n, a, b);
    hide IsRun, Exec, Starts;
    es, s := ExtendStarts(Init(n), es, s, Take(0));
    es, s := ExtendStarts(Init(n), es, s, Take(1));
    es, s := ExtendStarts(Init(n), es, s, Activate(1));
    es, s := ExtendStarts(Init(n), es, s, JobReturns(1));
  }

  lemma ExtendStarts(s: State, es: seq<Event>, at: State, e: Event) returns (es': seq<Event>, at': State)
    requires IsRun(s, es) && at == Exec(s, es) && Enabled(at, e)
    ensures IsRun(s, es') && at' == Exec(s, es') == Apply(at, e)
    ensures Starts(s, es') == Starts(s, es) + Begins(at, e)
  {
    Snoc(s, es, e);
    StartsSnoc(s, es, e);
    es', at' := es + [e], Apply(at, e);
  }

  lemma {:induction false} StartsSnoc(s: State, es: seq<Event>, e: Event)
    requires IsRun(s, es) && Enabled(Exec(s, es), e) && IsRun(s, es + [e])
    ensures Starts(s, es + [e]) == Starts(s, es) + Begins(Exec(s, es), e)
    decreases |es|
  {
    if es == [] {
      assert ([] + [e])[1..] == [];
    } else {
      assert (es + [e])[1..] == es[1..] + [e];
      StartsSnoc(Apply(s, es[0]), es[1..], e);
    }
  }

  // Jobs start in the order in which they left the channel on every run exactly when the
  // pool has one worker.
  lemma StartsInOrderIff(n: int)
    ensures (forall es :: IsRun(Init(n), es) ==> Starts(Init(n), es) <= Exec(Init(n), es).taken) <==> PoolSize(n) == 1
  {
    if PoolSize(n) == 1 {
      forall es | IsRun(Init(n), es) ensures Starts(Init(n), es) <= Exec(Init(n), es).taken {
        OneWorkerInOrder(Init(n), es, []);
      }
    } else {
      var es, s := SecondMayFinishFirst(n, 0, 1);
      assert Starts(Init(n), es)[0] == 1 && s.taken[0] == 0;
      assert IsRun(Init(n), es) && !(Starts(Init(n), es) <= Exec(Init(n), es).taken);
    }
  }

  // ---------- termination ----------

  function WorkerWeight(pc: WorkerPc): nat {
    match pc
    case Taken(_) => 4
    case Running(_) => 3
    case Returned(_) => 2
    case Idle => 1
    case Exited => 0
  }

  function StopWeight(pc: StopPc): nat {
    match pc
    case Check => 4
    case Claim => 3
    case CloseQuit => 2
    case Waiting => 1
    case Done(_) => 0
  }

  // The work left in the pool.
  function Measure(s: State): nat {
    5 * |s.pending| + 4 * |s.queue| + Total(s.workers, WorkerWeight) + Total(s.stops, StopWeight) +
    (if s.panicked then 0 else 1)
  }

  predicate Call(e: Event) { e.CallSubmit? || e.CallStop? }

  lemma WorkerStepDecreases(s: State, e: Event)
    requires Enabled(s, e) && WorkerEvent(e)
    ensures Measure(Apply(s, e)) < Measure(s)
  {
    hide Total;
    TotalUpdate(s.workers, WorkerWeight, e.w, Apply(s, e).workers[e.w]);
  }

  lemma StopStepDecreases(s: State, e: Event)
    requires Enabled(s, e) && (e.StopCheck? || e.StopClaim? || e.StopClose? || e.StopReturn?)
    ensures Measure(Apply(s, e)) < Measure(s)
  {
    hide Total;
    TotalUpdate(s.stops, StopWeight, e.i, Apply(s, e).stops[e.i]);
  }

  // Every step of the pool itself, before or after Stop, uses up work.
  lemma StepDecreases(s: State, e: Event)
    requires Enabled(s, e) && !Call(e)
    ensures Measure(Apply(s, e)) < Measure(s)
  {
    if WorkerEvent(e) {
      WorkerStepDecreases(s, e);
    } else if e.Enqueue? || e.Drop? {
      hide Total;
    } else {
      StopStepDecreases(s, e);
    }
  }

  lemma CallIncreases(s: State, e: Event)
    requires Enabled(s, e) && Call(e)
    ensures Measure(Apply(s, e)) == Measure(s) + (if e.CallSubmit? then 5 else 4)
  {
    if e.CallStop? {
      TotalSnoc(s.stops, StopWeight, Check);
    }
  }

  function Calls(es: seq<Event>): nat {
    if es == [] then 0 else (if Call(es[0]) then 1 else 0) + Calls(es[1..])
  }

  // Between them, k calls and the work already there pay for at most
  // Measure + 5k steps of the pool, whatever the schedule.
  lemma {:induction false} RunLengthBounded(s: State, es: seq<Event>)
    requires IsRun(s, es)
    ensures |es| - Calls(es) + Measure(Exec(s, es)) <= Measure(s) + 5 * Calls(es)
    decreases |es|
  {
    if es != [] {
      if Call(es[0]) {
        CallIncreases(s, es[0]);
      } else {
        StepDecreases(s, es[0]);
      }
      RunLengthBounded(Apply(s, es[0]), es[1..]);
    }
  }

  // ---------- no deadlock ----------

  // Nothing left to do: no caller is inside Submit or Stop, no worker holds a job, and
  // either nothing waits or the pool has shut down.
  ghost predicate Settled(s: State) {
    s.pending == multiset{} &&
    (forall i :: 0 <= i < |s.stops| ==> s.stops[i].Done?) &&
    (if s.quit then AllExited(s.workers)
     else s.queue == [] && forall w :: 0 <= w < |s.workers| ==> s.workers[w].Idle?)
  }

  ghost predicate CanStep(s: State) {
    exists e :: !Call(e) && Enabled(s, e)
  }

  lemma WorkerCanStep(s: State, w: nat)
    requires !s.panicked && w < |s.workers| && !s.workers[w].Exited?
    requires s.workers[w].Idle? ==> s.quit || s.queue != []
    ensures CanStep(s)
  {
    match s.workers[w]
    case Idle => assert Enabled(s, if s.quit then WorkerQuits(w) else Take(w));
    case Taken(_) => assert Enabled(s, Activate(w));
    case Running(_) => assert Enabled(s, JobReturns(w));
    case Returned(_) => assert Enabled(s, Deactivate(w));
  }

  lemma StopCanStep(s: State, i: nat)
    requires !s.panicked && i < |s.stops| && !s.stops[i].Done? && (s.stops[i].Waiting? ==> AllExited(s.workers))
    ensures CanStep(s)
  {
    match s.stops[i]
    case Check => assert Enabled(s, StopCheck(i));
    case Claim => assert Enabled(s, StopClaim(i));
    case CloseQuit => assert Enabled(s, StopClose(i));
    case Waiting => assert Enabled(s, StopReturn(i));
  }

  lemma SettledIsStuck(s: State)
    requires Settled(s) && |s.workers| > 0
    ensures !CanStep(s)
  {
  }

  // A reachable pool is stuck only when it has nothing left to do.
  lemma StuckIffSettled(n: int, s: State)
    requires Reachable(n, s) && !s.panicked
    ensures !CanStep(s) <==> Settled(s)
  {
    ReachableInv(n, s);
    ReachableSize(n, s);
    hide CanStep;
    if Settled(s) {
      SettledIsStuck(s);
    } else if w: nat :| w < |s.workers| && !s.workers[w].Exited? && (s.workers[w].Idle? ==> s.quit || s.queue != []) {
      WorkerCanStep(s, w);
    } else if i: nat :| i < |s.stops| && !s.stops[i].Done? && (s.stops[i].Waiting? ==> AllExited(s.workers)) {
      StopCanStep(s, i);
    } else {
      assert s.pending != multiset{};
      var job :| job in s.pending;
      SubmitterCanStep(s, job);
    }
  }

  lemma SubmitterCanStep(s: State, job: Job)
    requires !s.panicked && job in s.pending && (s.quit || |s.queue| < QUEUE_CAPACITY)
    ensures CanStep(s)
  {
    assert Enabled(s, if s.quit then Drop(job) else Enqueue(job));
  }

  lemma {:induction false} Snoc(s: State, es: seq<Event>, e: Event)
    requires IsRun(s, es) && Enabled(Exec(s, es), e)
    ensures IsRun(s, es + [e]) && Exec(s, es + [e]) == Apply(Exec(s, es), e)
    decreases |es|
  {
    if es == [] {
      assert ([] + [e])[1..] == [];
    } else {
      assert (es + [e])[1..] == es[1..] + [e];
      Snoc(Apply(s, es[0]), es[1..], e);
    }
  }

  lemma ReachableStep(n: int, s: State, e: Event)
    requires Reachable(n, s) && Enabled(s, e)
    ensures Reachable(n, Apply(s, e))
  {
    var es :| IsRun(Init(n), es) && Exec(Init(n), es) == s;
    Snoc(Init(n), es, e);
  }

  // ---------- Stop ----------

  lemma {:induction false} RunKeepsReachable(n: int, s: State, es: seq<Event>)
    requires Reachable(n, s) && IsRun(s, es)
    ensures Reachable(n, Exec(s, es))
    decreases |es|
  {
    if es != [] {
      ReachableStep(n, s, es[0]);
      RunKeepsReachable(n, Apply(s, es[0]), es[1..]);
    }
  }

  // Once quit is closed, a run makes at most as many steps as the work present and six for
  // each call pay for, and where it cannot go on every worker has exited, no Submit or Stop
  // is left waiting, and active is 0.
  lemma ShutdownCompletes(n: int, s: State, es: seq<Event>)
    requires Reachable(n, s) && s.quit
    requires IsRun(s, es) && !Exec(s, es).panicked
    ensures |es| <= Measure(s) + 6 * Calls(es)
    ensures !CanStep(Exec(s, es)) ==>
      var s' := Exec(s, es);
      AllExited(s'.workers) && s'.active == 0 && s'.pending == multiset{} &&
      forall i :: 0 <= i < |s'.stops| ==> s'.stops[i].Done?
  {
    var s' := Exec(s, es);
    RunLengthBounded(s, es);
    RunKeepsReachable(n, s, es);
    RunKeepsFlags(s, es);
    StuckIffSettled(n, s');
    if !CanStep(s') {
      ReachableInv(n, s');
      TotalZero(s'.workers, CountsActive);
    }
  }

  lemma {:induction false} ExitedPoolIsInert(s: State, es: seq<Event>)
    requires AllExited(s.workers) && IsRun(s, es)
    ensures Exec(s, es).workers == s.workers && Exec(s, es).active == s.active
    ensures Exec(s, es).taken == s.taken && Exec(s, es).finished == s.finished
    decreases |es|
  {
    if es != [] {
      ExitedPoolIsInert(Apply(s, es[0]), es[1..]);
    }
  }

  // When a Stop that waited has returned, no job is running, active is 0, and no job
  // starts later: not the ones still queued, nor any a late Submit puts in the channel.
  lemma AfterStopNothingRuns(n: int, s: State, i: nat, es: seq<Event>)
    requires Reachable(n, s) && i < |s.stops| && s.stops[i] == Done(true) && IsRun(s, es)
    ensures var s' := Exec(s, es);
            s'.active == 0 && AllInHand(s'.workers) == multiset{} && s'.taken == s.taken &&
            s'.finished == multiset(s'.taken)
  {
    ReachableInv(n, s);
    ExitedPoolIsInert(s, es);
    TotalZero(s.workers, CountsActive);
    NothingInHand(s.workers);
  }

  // ---------- which returns of Stop keep the promise ----------

  // No job runs, now or in any continuation.
  ghost predicate NothingRuns(s: State) {
    forall es :: IsRun(s, es) ==> Exec(s, es).active == 0
  }

  // Worker w is inside a job at the end of some run.
  lemma RunAJob(s: State, w: nat) returns (es: seq<Event>)
    requires Inv(s) && !s.panicked && w < |s.workers| && !s.workers[w].Exited?
    ensures IsRun(s, es) && w < |Exec(s, es).workers| && CountsActive(Exec(s, es).workers[w]) == 1
  {
    es := [];
    var s' := s;
    if s.workers[w].Idle? {
      es, s' := GetAJob(s, w);
    }
    hide IsRun, Exec, Inv;
    if s'.workers[w].Taken? {
      es, s' := Extend(s, es, s', Activate(w));
    }
  }

  // An idle worker can always be given a job to take.
  lemma GetAJob(s: State, w: nat) returns (es: seq<Event>, s': State)
    requires !s.panicked && w < |s.workers| && s.workers[w].Idle?
    ensures IsRun(s, es) && s' == Exec(s, es) && !s'.panicked && w < |s'.workers| && s'.workers[w].Taken?
  {
    es, s' := [], s;
    assert IsRun(s, es) && Exec(s, es) == s';
    hide IsRun, Exec;
    if s.queue == [] {
      es, s' := Extend(s, es, s', CallSubmit(0));
      es, s' := Extend(s, es, s', Enqueue(0));
    }
    es, s' := Extend(s, es, s', Take(w));
  }

  lemma Extend(s: State, es: seq<Event>, at: State, e: Event) returns (es': seq<Event>, at': State)
    requires IsRun(s, es) && at == Exec(s, es) && Enabled(at, e)
    ensures IsRun(s, es') && at' == Exec(s, es') == Apply(at, e)
  {
    Snoc(s, es, e);
    es', at' := es + [e], Apply(at, e);
  }

  lemma {:induction false} OneCounts(workers: seq<WorkerPc>, w: nat)
    requires w < |workers| && CountsActive(workers[w]) == 1
    ensures Total(workers, CountsActive) > 0
    decreases |workers|
  {
    if w > 0 {
      OneCounts(workers[1..], w - 1);
    }
  }

  // That nothing runs any more is certain exactly when every worker has exited: as long
  // as one has not, it may still take a job, even one submitted later.
  lemma NothingRunsIffAllExited(n: int, s: State)
    requires Reachable(n, s) && !s.panicked
    ensures NothingRuns(s) <==> AllExited(s.workers)
  {
    ReachableInv(n, s);
    if AllExited(s.workers) {
      TotalZero(s.workers, CountsActive);
      forall es | IsRun(s, es) ensures Exec(s, es).active == 0 {
        ExitedPoolIsInert(s, es);
      }
    } else {
      var w: nat :| w < |s.workers| && !s.workers[w].Exited?;
      var es := RunAJob(s, w);
      RunKeepsInv(s, es);
      OneCounts(Exec(s, es).workers, w);
      assert IsRun(s, es) && Exec(s, es).active != 0;
    }
  }

  // The two ways out of Stop: after the wait, or at once when `started` is already false.
  predicate ReturnsFromStop(s: State, e: Event) {
    Enabled(s, e) && (e.StopReturn? || (e.StopCheck? && !s.started))
  }

  // A Stop that waited always returns with the promise kept; one that returns at once
  // keeps it exactly when all workers happen to have exited already.
  lemma StopKeepsPromiseIff(n: int, s: State, e: Event)
    requires Reachable(n, s) && ReturnsFromStop(s, e)
    ensures NothingRuns(Apply(s, e)) <==> AllExited(s.workers)
    ensures e.StopReturn? ==> NothingRuns(Apply(s, e))
  {
    ReachableStep(n, s, e);
    NothingRunsIffAllExited(n, Apply(s, e));
  }

  // ---------- what becomes of the jobs still queued ----------

  // Worker w gets back to its select without taking anything.
  lemma BackToSelect(s: State, w: nat) returns (es: seq<Event>, s': State)
    requires !s.panicked && w < |s.workers| && !s.workers[w].Exited?
    ensures IsRun(s, es) && s' == Exec(s, es) && !s'.panicked && w < |s'.workers| && s'.workers[w].Idle?
    ensures s'.taken == s.taken && s'.queue == s.queue
  {
    es, s' := [], s;
    assert IsRun(s, es) && Exec(s, es) == s';
    hide IsRun, Exec;
    if s'.workers[w].Taken? {
      es, s' := Extend(s, es, s', Activate(w));
    }
    if s'.workers[w].Running? {
      es, s' := Extend(s, es, s', JobReturns(w));
    }
    if s'.workers[w].Returned? {
      es, s' := Extend(s, es, s', Deactivate(w));
    }
  }

  lemma {:induction false} Concat(s: State, es: seq<Event>, fs: seq<Event>)
    requires IsRun(s, es) && IsRun(Exec(s, es), fs)
    ensures IsRun(s, es + fs) && Exec(s, es + fs) == Exec(Exec(s, es), fs)
    decreases |es|
  {
    hide Apply, Enabled;
    if es == [] {
      assert es + fs == fs;
    } else {
      assert (es + fs)[0] == es[0] && (es + fs)[1..] == es[1..] + fs;
      Concat(Apply(s, es[0]), es[1..], fs);
    }
  }

  // Worker w takes the first job of the queue.
  lemma TakeNext(s: State, w: nat) returns (es: seq<Event>, s': State)
    requires !s.panicked && w < |s.workers| && !s.workers[w].Exited? && s.queue != []
    ensures IsRun(s, es) && s' == Exec(s, es) && !s'.panicked && w < |s'.workers| && !s'.workers[w].Exited?
    ensures s'.taken == s.taken + [s.queue[0]] && s'.queue == s.queue[1..]
  {
    es, s' := BackToSelect(s, w);
    hide IsRun, Exec;
    es, s' := Extend(s, es, s', Take(w));
  }

  lemma FirstThenRest(taken: seq<Job>, queue: seq<Job>)
    requires queue != []
    ensures taken + [queue[0]] + queue[1..] == taken + queue
  {
  }

  // One worker alone can empty the queue, whether quit is closed or not.
  lemma {:induction false} TakeAll(s: State, w: nat) returns (es: seq<Event>)
    requires !s.panicked && w < |s.workers| && !s.workers[w].Exited?
    ensures IsRun(s, es) && Exec(s, es).taken == s.taken + s.queue
    decreases |s.queue|
  {
    es := [];
    assert IsRun(s, es) && Exec(s, es) == s;
    hide IsRun, Exec;
    if s.queue == [] {
      assert s.taken + s.queue == s.taken;
    } else {
      var fs, s' := TakeNext(s, w);
      var gs := TakeAll(s', w);
      Concat(s, fs, gs);
      es := fs + gs;
      FirstThenRest(s.taken, s.queue);
    }
  }

  // Whether what is queued may still be started depends on nothing but a worker being left.
  lemma QueueMayStartIff(n: int, s: State)
    requires Reachable(n, s) && !s.panicked && s.queue != []
    ensures (exists es :: IsRun(s, es) && Exec(s, es).taken == s.taken + s.queue) <==> !AllExited(s.workers)
  {
    if AllExited(s.workers) {
      forall es | IsRun(s, es) ensures Exec(s, es).taken != s.taken + s.queue {
        ExitedPoolIsInert(s, es);
      }
    } else {
      var w: nat :| w < |s.workers| && !s.workers[w].Exited?;
      var es := TakeAll(s, w);
      assert IsRun(s, es) && Exec(s, es).taken == s.taken + s.queue;
    }
  }

  // ---------- callers of Stop racing each other ----------

  predicate Closing(pc: StopPc) { pc.Claim? || pc.CloseQuit? }

  // At most one Stop call is between reading `started` and closing quit.
  ghost predicate StopsSerial(s: State) {
    forall i, j :: 0 <= i < j < |s.stops| ==> !Closing(s.stops[i]) || !Closing(s.stops[j])
  }

  ghost predicate SerialRun(s: State, es: seq<Event>)
    requires IsRun(s, es)
    decreases |es|
  {
    StopsSerial(s) && (es != [] ==> SerialRun(Apply(s, es[0]), es[1..]))
  }

  ghost predicate OneCloser(s: State) {
    !s.panicked && (s.quit ==> !s.started) &&
    forall i :: 0 <= i < |s.stops| ==>
      (s.stops[i].Claim? ==> s.started && !s.quit) && (s.stops[i].CloseQuit? ==> !s.started && !s.quit)
  }

  lemma SerialStep(s: State, e: Event)
    requires StopsSerial(s) && OneCloser(s) && Enabled(s, e) && StopsSerial(Apply(s, e))
    ensures OneCloser(Apply(s, e))
  {
  }

  // If Stop calls do not overlap there, quit is closed once and nothing panics.
  lemma {:induction false} SerialStopsDoNotPanic(s: State, es: seq<Event>)
    requires OneCloser(s) && IsRun(s, es) && SerialRun(s, es)
    ensures OneCloser(Exec(s, es))
    decreases |es|
  {
    if es != [] {
      SerialStep(s, es[0]);
      SerialStopsDoNotPanic(Apply(s, es[0]), es[1..]);
    }
  }

  // Two callers are past reading `started`, or one is although quit is already closed, or
  // the second close has happened.
  ghost predicate Doomed(s: State) {
    s.panicked || (s.quit && exists i :: 0 <= i < |s.stops| && Closing(s.stops[i])) || !StopsSerial(s)
  }

  lemma DoomedStep(s: State, e: Event)
    requires Doomed(s) && Enabled(s, e)
    ensures Doomed(Apply(s, e))
  {
    var s' := Apply(s, e);
    forall i | 0 <= i < |s.stops| && Closing(s.stops[i]) && e != StopClose(i) ensures Closing(s'.stops[i]) {
    }
    if !StopsSerial(s) {
      var i, j :| 0 <= i < j < |s.stops| && Closing(s.stops[i]) && Closing(s.stops[j]);
      assert Closing(s'.stops[i]) || Closing(s'.stops[j]);
    } else {
      var i :| 0 <= i < |s.stops| && Closing(s.stops[i]);
      assert s'.panicked || Closing(s'.stops[i]);
    }
  }

  lemma {:induction false} DoomedForever(s: State, es: seq<Event>)
    requires Doomed(s) && IsRun(s, es)
    ensures Doomed(Exec(s, es))
    decreases |es|
  {
    if es != [] {
      DoomedStep(s, es[0]);
      DoomedForever(Apply(s, es[0]), es[1..]);
    }
  }

  // A run ends doomed exactly when two Stop calls have overlapped in it.
  lemma {:induction false} DoomedIffOverlap(s: State, es: seq<Event>)
    requires OneCloser(s) && IsRun(s, es)
    ensures Doomed(Exec(s, es)) <==> !SerialRun(s, es)
    decreases |es|
  {
    if !StopsSerial(s) {
      DoomedForever(s, es);
    } else if es != [] {
      if StopsSerial(Apply(s, es[0])) {
        SerialStep(s, es[0]);
        DoomedIffOverlap(Apply(s, es[0]), es[1..]);
      } else {
        DoomedForever(Apply(s, es[0]), es[1..]);
      }
    }
  }

  // So a run that has panicked, or has no caller left on the way to closing quit, has
  // panicked exactly when two callers overlapped.
  lemma PanicsIffOverlap(n: int, es: seq<Event>)
    requires IsRun(Init(n), es)
    requires Exec(Init(n), es).panicked ||
             forall i :: 0 <= i < |Exec(Init(n), es).stops| ==> !Closing(Exec(Init(n), es).stops[i])
    ensures Exec(Init(n), es).panicked <==> !SerialRun(Init(n), es)
  {
    InitReachable(n);
    DoomedIffOverlap(Init(n), es);
  }

  // And an overlap is never survived: a pool that cannot go on after one has panicked.
  lemma OverlapEndsInPanic(s: State, es: seq<Event>)
    requires OneCloser(s) && IsRun(s, es) && !SerialRun(s, es) && !CanStep(Exec(s, es))
    ensures Exec(s, es).panicked
  {
    DoomedIffOverlap(s, es);
    var s' := Exec(s, es);
    if !s'.panicked {
      var i: nat :| i < |s'.stops| && Closing(s'.stops[i]);
      StopCanStep(s', i);
    }
  }

  lemma InitReachable(n: int)
    ensures Reachable(n, Init(n)) && OneCloser(Init(n)) && StopsSerial(Init(n))
  {
    assert IsRun(Init(n), []) && Exec(Init(n), []) == Init(n);
  }

  lemma Do(n: int, s: State, e: Event) returns (s': State)
    requires Reachable(n, s) && Enabled(s, e)
    ensures Reachable(n, s') && s' == Apply(s, e)
  {
    ReachableStep(n, s, e);
    s' := Apply(s, e);
  }

  // Two Stop calls that both read `started` before either writes it.
  lemma RacingStopsPanic(n: int) returns (s: State)
    ensures Reachable(n, s) && s.panicked
  {
    InitReachable(n);
    s := Do(n, Init(n), CallStop);
    s := Do(n, s, CallStop);
    s := Do(n, s, StopCheck(0));
    s := Do(n, s, StopCheck(1));
    s := Do(n, s, StopClaim(0));
    s := Do(n, s, StopClaim(1));
    s := Do(n, s, StopClose(0));
    s := Do(n, s, StopClose(1));
  }

  // A second Stop returns at once while a job is still running: only a Stop that
  // waited gives the promise of AfterStopNothingRuns.
  lemma SecondStopReturnsEarly(n: int, job: Job) returns (s: State)
    ensures Reachable(n, s) && |s.stops| == 2 && s.stops[1] == Done(false)
    ensures |s.workers| > 0 && s.workers[0] == Running(job) && s.active == 1
  {
    InitReachable(n);
    s := Do(n, Init(n), CallSubmit(job));
    s := Do(n, s, Enqueue(job));
    s := Do(n, s, Take(0));
    s := Do(n, s, Activate(0));
    s := Do(n, s, CallStop);
    s := Do(n, s, StopCheck(0));
    s := Do(n, s, StopClaim(0));
    s := Do(n, s, CallStop);
    s := Do(n, s, StopCheck(1));
  }

  // All workers leave their loops.
  lemma EveryoneQuits(n: int, s: State) returns (s': State)
    requires Reachable(n, s) && !s.panicked && s.quit && forall w :: 0 <= w < |s.workers| ==> s.workers[w].Idle?
    ensures Reachable(n, s') && AllExited(s'.workers) && s' == s.(workers := s'.workers)
  {
    s' := s;
    var w := 0;
    while w < |s'.workers|
      invariant Reachable(n, s') && s' == s.(workers := s'.workers) && w <= |s'.workers|
      invariant forall v :: 0 <= v < |s'.workers| ==> if v < w then s'.workers[v].Exited? else s'.workers[v].Idle?
      decreases |s'.workers| - w
    {
      s' := Do(n, s', WorkerQuits(w));
      w := w + 1;
    }
  }

  // A Stop that runs from start to end while every worker sits in its select and leaves it
  // by the quit case.
  lemma StopIdlePool(n: int, s: State) returns (s': State)
    requires Reachable(n, s) && !s.panicked && s.started && !s.quit && s.stops == []
    requires forall w :: 0 <= w < |s.workers| ==> s.workers[w].Idle?
    ensures Reachable(n, s') && AllExited(s'.workers)
    ensures s' == s.(workers := s'.workers, started := false, quit := true, stops := [Done(true)])
  {
    hide Reachable;
    s' := Do(n, s, CallStop);
    s' := Do(n, s', StopCheck(0));
    s' := Do(n, s', StopClaim(0));
    s' := Do(n, s', StopClose(0));
    s' := EveryoneQuits(n, s');
    s' := Do(n, s', StopReturn(0));
  }

  // A job accepted before Stop is called may be left behind: every worker's select picks
  // the quit case although the channel is not empty, Stop waits and returns, and the job
  // never runs.
  lemma EarlyJobMayBeLeftBehind(n: int, job: Job) returns (before: State, s: State)
    ensures Reachable(n, before) && before.stops == [] && before.accepted == [job]
    ensures Reachable(n, s) && s.stops == [Done(true)] && s.queue == [job]
    ensures s == before.(workers := s.workers, started := false, quit := true, stops := s.stops)
    ensures forall es :: IsRun(s, es) ==> Exec(s, es).taken == []
  {
    InitReachable(n);
    before := Do(n, Init(n), CallSubmit(job));
    before := Do(n, before, Enqueue(job));
    assert before.pending == multiset{};
    s := StopIdlePool(n, before);
    forall es | IsRun(s, es) ensures Exec(s, es).taken == [] {
      ExitedPoolIsInert(s, es);
    }
  }

  // After a Stop that waited, a late Submit may still find room in the channel and be
  // accepted; its job stays there for good.
  lemma LateJobIsAcceptedAndNeverRuns(n: int, job: Job) returns (s: State)
    ensures Reachable(n, s) && s.stops == [Done(true)]
    ensures s.submitted == multiset{job} && s.accepted == [job] && s.queue == [job]
    ensures forall es :: IsRun(s, es) ==> Exec(s, es).taken == []
  {
    InitReachable(n);
    s := StopIdlePool(n, Init(n));
    s := Do(n, s, CallSubmit(job));
    s := Do(n, s, Enqueue(job));
    assert s.pending == multiset{} && s.taken == [];
    forall es | IsRun(s, es) ensures Exec(s, es).taken == [] {
      ExitedPoolIsInert(s, es);
    }
  }
}
