// The pool's own fields and the bodies of New, worker, Submit and Stop. Between any two
// atomic actions of a body the other goroutines act, as a schedule says; whatever they
// do, the body takes only steps of the transition system, and those that PoolSchedule
// works out for it.
module PoolObject {
  import opened PoolSchedule
  import opened PoolTheorems
  import opened WorkerPool

  function Alive(pc: WorkerPc): nat {
    if pc.Exited? then 0 else 1
  }

  lemma AllExitedStep(workers: seq<WorkerPc>)
    requires workers != []
    ensures AllExited(workers) <==> workers[0].Exited? && AllExited(workers[1..])
  {
    var rest := workers[1..];
    assert forall w :: 0 <= w < |rest| ==> rest[w] == workers[w + 1];
    if workers[0].Exited? && AllExited(rest) {
      forall w | 0 <= w < |workers| ensures workers[w].Exited? {
        assert w > 0 ==> workers[w] == rest[w - 1];
      }
    }
  }

  lemma {:induction false} NoneAliveIffAllExited(workers: seq<WorkerPc>)
    ensures Total(workers, Alive) == 0 <==> AllExited(workers)
    decreases |workers|
  {
    if workers != [] {
      NoneAliveIffAllExited(workers[1..]);
      AllExitedStep(workers);
    }
  }

  lemma AliveStep(s: State, e: Event)
    requires Enabled(s, e)
    ensures Total(Apply(s, e).workers, Alive) + (if e.WorkerQuits? then 1 else 0) == Total(s.workers, Alive)
  {
    if WorkerEvent(e) {
      TotalUpdate(s.workers, Alive, e.w, Apply(s, e).workers[e.w]);
    }
  }

  class Pool {
    var jobs: seq<Job>
    var wg: nat
    var quit: bool
    var active: int
    var started: bool
    var crashed: bool           // a second close of quit has panicked
    const numWorkers: int

    // Where every goroutine stands, as the scheduler knows it, and how it came to that.
    var at: State
    ghost var trace: seq<Event>

    ghost predicate Traced()
      reads this`at, this`trace
    {
      IsRun(Init(numWorkers), trace) && Exec(Init(numWorkers), trace) == at
    }

    // The fields are those of a state that the transition system reaches; the wait group
    // counts the workers that have not returned.
    ghost predicate Valid()
      reads this
    {
      Traced() && at.queue == jobs && at.quit == quit && at.active == active && at.started == started &&
      at.panicked == crashed && wg == Total(at.workers, Alive)
    }

    lemma ValidIsReachable()
      requires Valid()
      ensures Reachable(numWorkers, at)
    {
    }

    constructor New(numWorkers: int)
      ensures Valid() && at == Init(numWorkers) && this.numWorkers == numWorkers && !crashed
      ensures wg == |at.workers| == if numWorkers > 0 then numWorkers else 4
    {
      this.numWorkers := numWorkers;
      jobs, wg, quit, active, started, crashed := [], 0, false, 0, false, false;
      at, trace := Init(numWorkers), [];
      new;
      var n := if numWorkers <= 0 then 4 else numWorkers;
      ghost var workers: seq<WorkerPc> := [];
      for i := 0 to n
        invariant |workers| == i == wg && wg == Total(workers, Alive) && forall w :: 0 <= w < i ==> workers[w] == Idle
        invariant at == Init(numWorkers) && trace == [] && jobs == [] && !quit && active == 0 && !crashed
      {
        TotalSnoc(workers, Alive, Idle);
        wg := wg + 1;
        workers := workers + [Idle];
      }
      assert workers == Init(numWorkers).workers;
      started := true;
    }

    // The body's latest action on the fields is step e.
    method Note(e: Event)
      requires Traced() && Enabled(at, e)
      modifies this`at, this`trace
      ensures Traced() && at == Apply(old(at), e) && trace == old(trace) + [e] && Grows(old(at), at)
      ensures Total(at.workers, Alive) + (if e.WorkerQuits? then 1 else 0) == Total(old(at).workers, Alive)
    {
      Snoc(Init(numWorkers), trace, e);
      AliveStep(at, e);
      StepGrows(at, e);
      at, trace := Apply(at, e), trace + [e];
    }

    // Another goroutine's action.
    method Let(e: Event)
      requires Valid() && Enabled(at, e)
      modifies this
      ensures Valid() && at == Apply(old(at), e) && Grows(old(at), at)
    {
      hide Apply, Enabled, Traced, Total, Grows;
      Note(e);
      if e.WorkerQuits? {
        wg := wg - 1;
      }
      jobs, quit, active, started, crashed := at.queue, at.quit, at.active, at.started, at.panicked;
    }

    // Whatever the schedule asks of the others and they are able to do.
    method Others(me: Me, es: seq<Event>)
      requires Valid()
      modifies this
      ensures Valid() && at == Interleave(me, old(at), es)
    {
      hide Apply, Enabled, Mine, Valid;
      for k := 0 to |es|
        invariant Valid() && at == Interleave(me, old(at), es[..k])
      {
        assert es[..k + 1][..k] == es[..k];
        if Enabled(at, es[k]) && !Mine(me, at, es[k]) {
          Let(es[k]);
        }
      }
      assert es[..|es|] == es;
    }

    // The job case of the worker's select.
    method RunJob(w: nat, turn: WorkerTurn) returns (job: Job)
      requires Valid() && AtSelect(at, w) && jobs != []
      modifies this
      ensures Valid() && at == RunsFirst(old(at), w, turn) && job == old(jobs)[0]
    {
      job := Receive(w);
      hide Valid, Interleave, RunsTaken;
      Others(AWorker(w), turn.add);
      Fields();
      if crashed { return; }
      RunTaken(w, turn);
    }

    method RunTaken(w: nat, turn: WorkerTurn)
      requires Valid() && !at.panicked && w < |at.workers| && at.workers[w].Taken?
      modifies this
      ensures Valid() && at == RunsTaken(old(at), w, turn)
    {
      hide Valid, Interleave, RunsOn;
      AddActive(w);
      Others(AWorker(w), turn.inside);
      Fields();
      if crashed { return; }
      RunOn(w, turn);
    }

    method RunOn(w: nat, turn: WorkerTurn)
      requires Valid() && !at.panicked && w < |at.workers| && at.workers[w].Running?
      modifies this
      ensures Valid() && at == RunsOn(old(at), w, turn)
    {
      hide Valid, Interleave;
      JobEnds(w);
      Others(AWorker(w), turn.subtract);
      Fields();
      if crashed { return; }
      SubtractActive(w);
    }

    lemma Fields()
      requires Valid()
      ensures jobs == at.queue && quit == at.quit && active == at.active && started == at.started
      ensures crashed == at.panicked && wg == Total(at.workers, Alive)
    {
    }

    method Receive(w: nat) returns (job: Job)
      requires Valid() && AtSelect(at, w) && jobs != []
      modifies this
      ensures Valid() && at == Apply(old(at), Take(w)) && job == old(jobs)[0]
    {
      hide Traced, Total;
      job := jobs[0];
      jobs := jobs[1..];
      Note(Take(w));
    }

    method AddActive(w: nat)
      requires Valid() && Enabled(at, Activate(w))
      modifies this
      ensures Valid() && at == Apply(old(at), Activate(w))
    {
      hide Traced, Total;
      active := active + 1;
      Note(Activate(w));
    }

    method JobEnds(w: nat)
      requires Valid() && Enabled(at, JobReturns(w))
      modifies this
      ensures Valid() && at == Apply(old(at), JobReturns(w))
    {
      hide Traced, Total;
      Note(JobReturns(w));
    }

    method SubtractActive(w: nat)
      requires Valid() && Enabled(at, Deactivate(w))
      modifies this
      ensures Valid() && at == Apply(old(at), Deactivate(w))
    {
      hide Traced, Total;
      active := active - 1;
      Note(Deactivate(w));
    }

    // The quit case, with the deferred wg.Done.
    method Leave(w: nat)
      requires Valid() && Enabled(at, WorkerQuits(w))
      modifies this
      ensures Valid() && at == Apply(old(at), WorkerQuits(w))
    {
      hide Traced, Total;
      Note(WorkerQuits(w));
      wg := wg - 1;
    }

    // One look at the worker's select.
    method Turn(w: nat, turn: WorkerTurn) returns (ran: seq<Job>, returned: bool)
      requires Valid() && AtSelect(at, w)
      modifies this
      ensures Valid() && WorkerEnd(at, ran, returned) == WorksOnce(old(at), w, turn)
    {
      hide Valid, Interleave, RunsFirst, Grows;
      ran, returned := [], false;
      Others(AWorker(w), turn.select);
      Fields();
      if crashed { return; }
      if jobs != [] && !(quit && turn.takeQuit) {
        var job := RunJob(w, turn);
        Fields();
        if crashed { return; }
        ran := [job];
      } else if quit {
        Leave(w);
        returned := true;
      }
    }

    // The worker's loop.
    method Loop(w: nat, turns: seq<WorkerTurn>) returns (ran: seq<Job>, returned: bool)
      requires Valid() && AtSelect(at, w)
      modifies this
      ensures Valid() && WorkerEnd(at, ran, returned) == Works(old(at), w, turns)
    {
      hide Valid, WorksOnce, AtSelect, WorkedFrom;
      ran, returned := [], false;
      ghost var all := Works(at, w, turns);
      assert turns[0..] == turns && turns[|turns|..] == [];
      for k := 0 to |turns|
        invariant Valid() && AtSelect(at, w) && !returned
        invariant var rest := Works(at, w, turns[k..]); all == rest.(ran := ran + rest.ran)
      {
        ghost var was := at;
        var more;
        more, returned := Turn(w, turns[k]);
        NextTurn(all, was, w, turns, k, ran, WorkerEnd(at, more, returned));
        Fields();
        ran := ran + more;
        if crashed || returned { return; }
        StillAtSelect(was, w, WorkerEnd(at, more, returned));
      }
    }

    // A worker. `ran` are the jobs it ran to their end; it returns only by the quit case.
    // What it does, turn by turn, is what Works says.
    method Worker(w: nat, turns: seq<WorkerTurn>) returns (ran: seq<Job>, returned: bool)
      requires Valid() && AtSelect(at, w)
      modifies this
      ensures Valid() && WorkerEnd(at, ran, returned) == Works(old(at), w, turns)
      ensures Grows(old(at), at) && old(at).finished + multiset(ran) <= at.finished && (returned ==> quit)
      ensures !crashed ==> w < |at.workers| && at.workers[w] == if returned then Exited else Idle
      ensures LeftAlone(turns) && !old(quit) ==>
        var n := Min(|turns|, |old(jobs)|); ran == old(jobs)[..n] && jobs == old(jobs)[n..] && !returned
    {
      hide Valid, Grows, LeftAlone, Works, AtSelect, Min;
      Fields();
      if LeftAlone(turns) && !at.quit { AloneWorkerRuns(at, w, turns); }
      ran, returned := Loop(w, turns);
      Fields();
    }

    // Submit. Its select blocks while the channel is full and quit is open.
    method Submit(job: Job, turns: seq<SubmitTurn>) returns (r: Submitted)
      requires Valid() && !crashed
      modifies this
      ensures Valid() && Grows(old(at), at) && SubmitEnd(at, r) == Submits(old(at), job, turns)
      ensures r.Sent? ==> at.accepted[|old(at).accepted|..] != [] && at.accepted[|at.accepted| - 1] == job
      ensures r.GaveUp? ==> quit && job in at.dropped
      ensures r.Blocked? ==> job in at.pending
      ensures r.Blocked? && turns != [] && !crashed ==> |jobs| >= 1000 && !quit
    {
      hide Valid, Selects, SelectsOnce, Grows, Apply;
      Fields();
      Enter(job);
      ghost var all := Submits(old(at), job, turns);
      NoMoreSelects(at, job, turns);
      Fields();
      for k := 0 to |turns|
        invariant Valid() && !crashed && !at.panicked && job in at.pending
        invariant all == Selects(at, job, turns[k..])
      {
        NextSelect(all, at, job, turns, k);
        r := Select(job, turns[k]);
        Fields();
        if crashed || !r.Blocked? { return; }
      }
      NoMoreSelects(at, job, turns);
      Fields();
      r := Blocked;
    }

    method Enter(job: Job)
      requires Valid() && !crashed
      modifies this
      ensures Valid() && at == Apply(old(at), CallSubmit(job)) && !at.panicked && job in at.pending
    {
      hide Traced, Total;
      Note(CallSubmit(job));
    }

    // One look at Submit's select: it blocks while the channel is full and quit is open.
    method Select(job: Job, turn: SubmitTurn) returns (r: Submitted)
      requires Valid() && !at.panicked && job in at.pending
      modifies this
      ensures Valid() && SubmitEnd(at, r) == SelectsOnce(old(at), job, turn)
    {
      hide Traced, Total, Interleave;
      Others(ASubmitter(job), turn.select);
      if crashed { return Blocked; }
      if |jobs| < QUEUE_CAPACITY && !(quit && turn.takeQuit) {
        jobs := jobs + [job];
        Note(Enqueue(job));
        return Sent;
      } else if quit {
        Note(Drop(job));
        return GaveUp;
      }
      r := Blocked;
    }

    method Active() returns (n: int)
      requires Valid()
      ensures n == Total(at.workers, CountsActive)
    {
      ValidIsReachable();
      ReachableInv(numWorkers, at);
      n := active;
    }

    // Stop. A caller that has waited knows that nothing will ever run again; one that
    // returned at once knows it only if the workers happen to be gone.
    method Stop(turns: StopTurns) returns (r: Stopped)
      requires Valid() && !crashed
      modifies this
      ensures Valid() && StopEnd(at, r) == Stops(old(at), turns) && (crashed <==> r.Crashed?)
      ensures r.Waited? ==> quit && active == 0 && NothingRuns(at)
      ensures r.AtOnce? ==> !started && (NothingRuns(at) <==> AllExited(at.workers))
      ensures r.Waits? ==> quit && (turns.wait != [] ==> !AllExited(at.workers))
    {
      hide Interleave, ClosesAndAwaits, NothingRuns, AllExited, Total, Traced;
      var i := |at.stops|;
      Note(CallStop);
      Others(AStopper(i), turns.check);
      if crashed { return Crashed; }
      var go := started;
      Note(StopCheck(i));
      if !go {
        ReturnedFromStop();
        return AtOnce;
      }
      r := CloseAndWait(i, turns);
    }

    // The part behind the test of `started`.
    method CloseAndWait(i: nat, turns: StopTurns) returns (r: Stopped)
      requires Valid() && !crashed && i < |at.stops| && at.stops[i].Claim?
      modifies this
      ensures Valid() && StopEnd(at, r) == ClosesAndAwaits(old(at), i, turns)
      ensures !r.AtOnce? && (crashed <==> r.Crashed?)
      ensures r.Waited? ==> active == 0 && NothingRuns(at)
      ensures r.Waited? || r.Waits? ==> quit
      ensures r.Waits? && turns.wait != [] ==> !AllExited(at.workers)
    {
      hide Traced, Total, NothingRuns, AllExited, Interleave, AwaitsWorkers;
      Others(AStopper(i), turns.claim);
      if crashed { return Crashed; }
      ClearStarted(i);
      Others(AStopper(i), turns.close);
      if crashed { return Crashed; }
      CloseQuitChannel(i);
      if crashed { return Crashed; }
      r := Wait(i, turns.wait);
    }

    method ClearStarted(i: nat)
      requires Valid() && Enabled(at, StopClaim(i))
      modifies this
      ensures Valid() && at == Apply(old(at), StopClaim(i))
    {
      hide Traced, Total;
      started := false;
      Note(StopClaim(i));
    }

    // Closing a closed channel panics.
    method CloseQuitChannel(i: nat)
      requires Valid() && Enabled(at, StopClose(i))
      modifies this
      ensures Valid() && at == Apply(old(at), StopClose(i))
    {
      hide Traced, Total;
      if quit {
        crashed := true;
      } else {
        quit := true;
      }
      Note(StopClose(i));
    }

    // wg.Wait lets through when the count is zero.
    method Wait(i: nat, turns: seq<seq<Event>>) returns (r: Stopped)
      requires Valid() && !crashed && quit && i < |at.stops| && at.stops[i].Waiting?
      modifies this
      ensures Valid() && StopEnd(at, r) == AwaitsWorkers(old(at), i, turns)
      ensures !r.AtOnce? && (crashed <==> r.Crashed?)
      ensures r.Waited? ==> active == 0 && NothingRuns(at)
      ensures r.Waited? || r.Waits? ==> quit
      ensures r.Waits? && turns != [] ==> !AllExited(at.workers)
    {
      hide Traced, Total, NothingRuns, AllExited, Interleave;
      ghost var all := AwaitsWorkers(at, i, turns);
      for k := 0 to |turns|
        invariant Valid() && !crashed && quit && i < |at.stops| && at.stops[i].Waiting?
        invariant all == AwaitsWorkers(at, i, turns[k..])
        invariant k > 0 ==> !AllExited(at.workers)
      {
        assert turns[k..][0] == turns[k] && turns[k..][1..] == turns[k + 1..];
        Others(AStopper(i), turns[k]);
        if crashed { return Crashed; }
        NoneAliveIffAllExited(at.workers);
        if wg == 0 {
          Note(StopReturn(i));
          ReturnedFromStop();
          return Waited;
        }
      }
      r := Waits;
    }

    lemma ReturnedFromStop()
      requires Valid() && !crashed
      ensures NothingRuns(at) <==> AllExited(at.workers)
      ensures AllExited(at.workers) ==> active == 0
    {
      ValidIsReachable();
      NothingRunsIffAllExited(numWorkers, at);
      ReachableInv(numWorkers, at);
      if AllExited(at.workers) {
        TotalZero(at.workers, CountsActive);
      }
    }
  }
}
