// What the bodies of worker, Submit and Stop do under a schedule: a list, for every point
// at which a body can be interrupted, of what the other goroutines do there.
module PoolSchedule {
  import opened WorkerPool

  // The goroutine that a body belongs to.
  datatype Me = AWorker(w: nat) | ASubmitter(job: Job) | AStopper(i: nat)

  // Its own actions. Callers that submit the same job are interchangeable; one of them
  // stays in its select.
  predicate Mine(me: Me, s: State, e: Event) {
    match me
    case AWorker(w) => WorkerEvent(e) && e.w == w
    case ASubmitter(job) => (e.Enqueue? || e.Drop?) && e.job == job && s.pending[job] <= 1
    case AStopper(i) => (e.StopCheck? || e.StopClaim? || e.StopClose? || e.StopReturn?) && e.i == i
  }

  predicate StandsStill(me: Me, s: State, s': State) {
    match me
    case AWorker(w) => w < |s.workers| ==> w < |s'.workers| && s'.workers[w] == s.workers[w]
    case ASubmitter(job) => job in s.pending ==> job in s'.pending
    case AStopper(i) => i < |s.stops| ==> i < |s'.stops| && s'.stops[i] == s.stops[i]
  }

  // What no goroutine takes back.
  predicate Grows(s: State, s': State) {
    (s.quit ==> s'.quit) && s.accepted <= s'.accepted && s.finished <= s'.finished
  }

  lemma OthersStep(me: Me, s: State, e: Event)
    requires Enabled(s, e) && !Mine(me, s, e)
    ensures StandsStill(me, s, Apply(s, e))
  {
  }

  lemma StepGrows(s: State, e: Event)
    requires Enabled(s, e)
    ensures Grows(s, Apply(s, e))
  {
  }

  // The schedules: what the others do before each action of a body, and which ready case
  // its select picks.
  datatype WorkerTurn =
    WorkerTurn(select: seq<Event>, takeQuit: bool, add: seq<Event>, inside: seq<Event>, subtract: seq<Event>)

  datatype SubmitTurn = SubmitTurn(select: seq<Event>, takeQuit: bool)

  datatype StopTurns = StopTurns(check: seq<Event>, claim: seq<Event>, close: seq<Event>, wait: seq<seq<Event>>)

  datatype Submitted = Sent | GaveUp | Blocked

  datatype Stopped = AtOnce | Waited | Waits | Crashed

  // The state after the others have done what they are asked and able to do.
  function Interleave(me: Me, s: State, es: seq<Event>): (r: State)
    ensures StandsStill(me, s, r) && Grows(s, r) && (s.panicked ==> r == s)
    decreases |es|
  {
    if es == [] then s
    else
      var t := Interleave(me, s, es[..|es| - 1]);
      var e := es[|es| - 1];
      if Enabled(t, e) && !Mine(me, t, e) then
        OthersStep(me, t, e);
        StepGrows(t, e);
        Apply(t, e)
      else t
  }

  // The others are not held back: whatever is enabled and belongs to another worker, another
  // caller of Stop, or a caller of Submit with another job or one more of the same, happens.
  lemma OthersAreFree(me: Me, s: State, e: Event)
    requires Enabled(s, e)
    requires me.AWorker? && WorkerEvent(e) ==> e.w != me.w
    requires me.AStopper? && (e.StopCheck? || e.StopClaim? || e.StopClose? || e.StopReturn?) ==> e.i != me.i
    requires me.ASubmitter? && (e.Enqueue? || e.Drop?) ==> e.job != me.job || 2 <= s.pending[me.job]
    ensures Interleave(me, s, [e]) == Apply(s, e)
  {
    assert [e][..0] == [] && Interleave(me, s, []) == s;
  }

  // ---------- the worker ----------

  predicate AtSelect(s: State, w: nat) { !s.panicked && w < |s.workers| && s.workers[w].Idle? }

  // A worker that is inside its job, up to its next look.
  function RunsOn(s: State, w: nat, turn: WorkerTurn): (r: State)
    requires !s.panicked && w < |s.workers| && s.workers[w].Running?
    ensures Grows(s, r) && s.finished + multiset{s.workers[w].job} <= r.finished && (!r.panicked ==> AtSelect(r, w))
  {
    var back := Interleave(AWorker(w), Apply(s, JobReturns(w)), turn.subtract);
    if back.panicked then back else Apply(back, Deactivate(w))
  }

  // One that has taken a job.
  function RunsTaken(s: State, w: nat, turn: WorkerTurn): (r: State)
    requires !s.panicked && w < |s.workers| && s.workers[w].Taken?
    ensures Grows(s, r)
    ensures !r.panicked ==> AtSelect(r, w) && s.finished + multiset{s.workers[w].job} <= r.finished
  {
    var ran := Interleave(AWorker(w), Apply(s, Activate(w)), turn.inside);
    if ran.panicked then ran else RunsOn(ran, w, turn)
  }

  // One that has looked at s and takes the first job.
  function RunsFirst(s: State, w: nat, turn: WorkerTurn): (r: State)
    requires AtSelect(s, w) && s.queue != []
    ensures Grows(s, r)
    ensures !r.panicked ==> AtSelect(r, w) && s.finished + multiset{s.queue[0]} <= r.finished
  {
    var taken := Interleave(AWorker(w), Apply(s, Take(w)), turn.add);
    if taken.panicked then taken else RunsTaken(taken, w, turn)
  }

  datatype WorkerEnd = WorkerEnd(state: State, ran: seq<Job>, returned: bool)

  // What a worker may have done by the end of some turns that found s.
  ghost predicate WorkedFrom(s: State, w: nat, end: WorkerEnd) {
    Grows(s, end.state) && s.finished + multiset(end.ran) <= end.state.finished && (end.returned ==> end.state.quit) &&
    (!end.state.panicked ==> w < |end.state.workers| && end.state.workers[w] == if end.returned then Exited else Idle)
  }

  // One turn: a worker takes the first job if it sees one and does not pick quit instead,
  // and returns if it picks quit; otherwise it waits for its next turn.
  function WorksOnce(s: State, w: nat, turn: WorkerTurn): (end: WorkerEnd)
    requires AtSelect(s, w)
    ensures WorkedFrom(s, w, end)
  {
    var seen := Interleave(AWorker(w), s, turn.select);
    if seen.panicked then WorkerEnd(seen, [], false)
    else if seen.queue != [] && !(seen.quit && turn.takeQuit) then
      var after := RunsFirst(seen, w, turn);
      WorkerEnd(after, if after.panicked then [] else [seen.queue[0]], false)
    else if seen.quit then
      StepGrows(seen, WorkerQuits(w));
      WorkerEnd(Apply(seen, WorkerQuits(w)), [], true)
    else WorkerEnd(seen, [], false)
  }

  function Works(s: State, w: nat, turns: seq<WorkerTurn>): (end: WorkerEnd)
    requires AtSelect(s, w)
    ensures WorkedFrom(s, w, end)
    decreases |turns|
  {
    if turns == [] then WorkerEnd(s, [], false)
    else
      var once := WorksOnce(s, w, turns[0]);
      if once.state.panicked || once.returned then once
      else var rest := Works(once.state, w, turns[1..]); rest.(ran := once.ran + rest.ran)
  }

  ghost predicate LeftAlone(turns: seq<WorkerTurn>) {
    forall k :: 0 <= k < |turns| ==>
      turns[k].select == turns[k].add == turns[k].inside == turns[k].subtract == []
  }

  // The state once the first job has been run with nobody else moving.
  function RanFirst(s: State): State
    requires s.queue != []
  {
    s.(queue := s.queue[1..], taken := s.taken + [s.queue[0]], finished := s.finished + multiset{s.queue[0]})
  }

  lemma RunsOnAlone(s: State, w: nat, turn: WorkerTurn)
    requires !s.panicked && w < |s.workers| && s.workers[w].Running? && turn.subtract == []
    ensures RunsOn(s, w, turn) ==
            s.(workers := s.workers[w := Idle], finished := s.finished + multiset{s.workers[w].job},
               active := s.active - 1)
  {
    assert s.workers[w := Returned(s.workers[w].job)][w := Idle] == s.workers[w := Idle];
  }

  lemma RunsTakenAlone(s: State, w: nat, turn: WorkerTurn)
    requires !s.panicked && w < |s.workers| && s.workers[w].Taken? && turn.inside == turn.subtract == []
    ensures RunsTaken(s, w, turn) ==
            s.(workers := s.workers[w := Idle], finished := s.finished + multiset{s.workers[w].job})
  {
    var job := s.workers[w].job;
    RunsOnAlone(Apply(s, Activate(w)), w, turn);
    hide RunsOn;
    assert s.workers[w := Running(job)][w := Idle] == s.workers[w := Idle];
  }

  lemma RunsFirstAlone(s: State, w: nat, turn: WorkerTurn)
    requires AtSelect(s, w) && s.queue != []
    requires turn.add == turn.inside == turn.subtract == []
    ensures RunsFirst(s, w, turn) == RanFirst(s)
  {
    hide RunsTaken;
    RunsTakenAlone(Apply(s, Take(w)), w, turn);
    assert s.workers[w := Taken(s.queue[0])][w := Idle] == s.workers;
  }

  lemma WorksOnceAlone(s: State, w: nat, turn: WorkerTurn)
    requires AtSelect(s, w) && !s.quit
    requires turn.select == turn.add == turn.inside == turn.subtract == []
    ensures WorksOnce(s, w, turn) ==
            if s.queue == [] then WorkerEnd(s, [], false) else WorkerEnd(RanFirst(s), [s.queue[0]], false)
  {
    hide RunsFirst;
    if s.queue != [] {
      RunsFirstAlone(s, w, turn);
    }
  }

  function Min(a: nat, b: nat): nat { if a <= b then a else b }

  // The state once n jobs have been run with nobody else moving.
  function RanSome(s: State, n: nat): State
    requires n <= |s.queue|
  {
    s.(queue := s.queue[n..], taken := s.taken + s.queue[..n], finished := s.finished + multiset(s.queue[..n]))
  }

  // A worker left alone with quit open runs one queued job a turn, from the front, as long
  // as there are any, and does not return.
  lemma {:induction false} AloneWorkerRuns(s: State, w: nat, turns: seq<WorkerTurn>)
    requires AtSelect(s, w) && !s.quit && LeftAlone(turns)
    ensures var n := Min(|turns|, |s.queue|);
            Works(s, w, turns) == WorkerEnd(RanSome(s, n), s.queue[..n], false)
    decreases |turns|
  {
    hide *;
    if turns == [] {
      NothingRun(s, w, turns);
    } else {
      AloneTurn(s, w, turns);
      if s.queue == [] {
        AloneWorkerRuns(s, w, turns[1..]);
        AloneWaits(s, w, turns);
      } else {
        AloneWorkerRuns(RanFirst(s), w, turns[1..]);
        WorksStep(s, w, turns);
        NoPanic(RanFirst(s), w);
        AloneOneMore(s, Works(RanFirst(s), w, turns[1..]), Min(|turns|, |s.queue|));
      }
    }
  }

  // What the next turn of a worker left alone is, and that the turns after it are like it.
  lemma AloneTurn(s: State, w: nat, turns: seq<WorkerTurn>)
    requires AtSelect(s, w) && !s.quit && LeftAlone(turns) && turns != []
    ensures LeftAlone(turns[1..])
    ensures s.queue == [] ==>
      Min(|turns|, |s.queue|) == Min(|turns[1..]|, |s.queue|) && WorksOnce(s, w, turns[0]) == WorkerEnd(s, [], false)
    ensures s.queue != [] ==>
      var t := RanFirst(s);
      AtSelect(t, w) && !t.quit && Min(|turns[1..]|, |t.queue|) == Min(|turns|, |s.queue|) - 1 &&
      0 < Min(|turns|, |s.queue|) <= |s.queue| && WorksOnce(s, w, turns[0]) == WorkerEnd(t, [s.queue[0]], false)
  {
    WorksOnceAlone(s, w, turns[0]);
    hide WorksOnce;
  }

  lemma AloneWaits(s: State, w: nat, turns: seq<WorkerTurn>)
    requires AtSelect(s, w) && turns != [] && WorksOnce(s, w, turns[0]) == WorkerEnd(s, [], false)
    ensures Works(s, w, turns) == Works(s, w, turns[1..])
  {
    hide *;
    WorksStep(s, w, turns);
    NoPanic(s, w);
    assert [] + Works(s, w, turns[1..]).ran == Works(s, w, turns[1..]).ran;
  }

  lemma NoPanic(s: State, w: nat)
    requires AtSelect(s, w)
    ensures !s.panicked
  {
  }

  lemma AloneOneMore(s: State, rest: WorkerEnd, n: nat)
    requires 0 < n <= |s.queue|
    requires rest == WorkerEnd(RanSome(RanFirst(s), n - 1), RanFirst(s).queue[..n - 1], false)
    ensures rest.(ran := [s.queue[0]] + rest.ran) == WorkerEnd(RanSome(s, n), s.queue[..n], false)
  {
    OneMoreRun(s, n);
  }

  lemma WorksStep(s: State, w: nat, turns: seq<WorkerTurn>)
    requires AtSelect(s, w) && turns != []
    ensures var once := WorksOnce(s, w, turns[0]);
            if once.state.panicked || once.returned then Works(s, w, turns) == once
            else var rest := Works(once.state, w, turns[1..]); Works(s, w, turns) == rest.(ran := once.ran + rest.ran)
  {
    hide WorksOnce;
  }

  lemma StillAtSelect(s: State, w: nat, end: WorkerEnd)
    requires WorkedFrom(s, w, end) && !end.state.panicked && !end.returned
    ensures AtSelect(end.state, w)
  {
  }

  // The rest of a worker's run, one turn on.
  lemma NextTurn(all: WorkerEnd, s: State, w: nat, turns: seq<WorkerTurn>, k: nat, ran: seq<Job>, once: WorkerEnd)
    requires k < |turns| && AtSelect(s, w) && once == WorksOnce(s, w, turns[k])
    requires var rest := Works(s, w, turns[k..]); all == rest.(ran := ran + rest.ran)
    ensures if once.state.panicked || once.returned then all == once.(ran := ran + once.ran)
            else var rest := Works(once.state, w, turns[k + 1..]); all == rest.(ran := ran + once.ran + rest.ran)
  {
    hide WorksOnce;
    assert turns[k..][0] == turns[k] && turns[k..][1..] == turns[k + 1..];
    if !once.state.panicked && !once.returned {
      var rest := Works(once.state, w, turns[k + 1..]);
      assert ran + (once.ran + rest.ran) == ran + once.ran + rest.ran;
    }
  }

  lemma NothingRun(s: State, w: nat, turns: seq<WorkerTurn>)
    requires AtSelect(s, w) && turns == []
    ensures var n := Min(|turns|, |s.queue|);
            Works(s, w, turns) == WorkerEnd(RanSome(s, n), s.queue[..n], false)
  {
    assert s.taken + s.queue[..0] == s.taken;
  }

  lemma OneMoreRun(s: State, n: nat)
    requires 0 < n <= |s.queue|
    ensures RanSome(RanFirst(s), n - 1) == RanSome(s, n) && [s.queue[0]] + RanFirst(s).queue[..n - 1] == s.queue[..n]
  {
    var q, job := s.queue[1..], s.queue[0];
    assert [job] + q[..n - 1] == s.queue[..n] && q[n - 1..] == s.queue[n..];
    assert s.taken + [job] + q[..n - 1] == s.taken + ([job] + q[..n - 1]);
    assert multiset(s.queue[..n]) == multiset{job} + multiset(q[..n - 1]);
    assert s.finished + multiset{job} + multiset(q[..n - 1]) == s.finished + multiset(s.queue[..n]);
  }

  // With quit closed a worker left alone returns at its first turn if it picks quit or
  // sees no job.
  lemma AloneWorkerLeaves(s: State, w: nat, turns: seq<WorkerTurn>)
    requires AtSelect(s, w) && s.quit && LeftAlone(turns) && turns != []
    requires turns[0].takeQuit || s.queue == []
    ensures Works(s, w, turns) == WorkerEnd(s.(workers := s.workers[w := Exited]), [], true)
  {
  }

  // ---------- Submit ----------

  datatype SubmitEnd = SubmitEnd(state: State, r: Submitted)

  ghost predicate SubmittedFrom(s: State, job: Job, end: SubmitEnd) {
    Grows(s, end.state) &&
    (end.r.Sent? ==> |s.accepted| < |end.state.accepted| && end.state.accepted[|end.state.accepted| - 1] == job) &&
    (end.r.GaveUp? ==> end.state.quit && job in end.state.dropped) &&
    (end.r.Blocked? ==> job in end.state.pending)
  }

  // One look: Submit sends when it sees room and does not pick quit instead, gives up when
  // it picks quit, and is blocked by a full channel while quit is open.
  function SelectsOnce(s: State, job: Job, turn: SubmitTurn): (end: SubmitEnd)
    requires job in s.pending && !s.panicked
    ensures SubmittedFrom(s, job, end)
    ensures end.r.Blocked? && !end.state.panicked ==> |end.state.queue| >= 1000 && !end.state.quit
  {
    var seen := Interleave(ASubmitter(job), s, turn.select);
    if seen.panicked then SubmitEnd(seen, Blocked)
    else if |seen.queue| < 1000 && !(seen.quit && turn.takeQuit) then
      SubmitEnd(Apply(seen, Enqueue(job)), Sent)
    else if seen.quit then
      SubmitEnd(Apply(seen, Drop(job)), GaveUp)
    else SubmitEnd(seen, Blocked)
  }

  function Selects(s: State, job: Job, turns: seq<SubmitTurn>): (end: SubmitEnd)
    requires job in s.pending && !s.panicked
    ensures SubmittedFrom(s, job, end)
    ensures end.r.Blocked? && turns != [] && !end.state.panicked ==> |end.state.queue| >= 1000 && !end.state.quit
    decreases |turns|
  {
    if turns == [] then SubmitEnd(s, Blocked)
    else
      var once := SelectsOnce(s, job, turns[0]);
      if once.r.Blocked? && !once.state.panicked then Selects(once.state, job, turns[1..]) else once
  }

  lemma NoMoreSelects(s: State, job: Job, turns: seq<SubmitTurn>)
    requires job in s.pending && !s.panicked
    ensures Selects(s, job, turns[|turns|..]) == SubmitEnd(s, Blocked)
    ensures Selects(s, job, turns[0..]) == Selects(s, job, turns)
  {
    assert turns[0..] == turns;
  }

  lemma NextSelect(all: SubmitEnd, s: State, job: Job, turns: seq<SubmitTurn>, k: nat)
    requires k < |turns| && job in s.pending && !s.panicked && all == Selects(s, job, turns[k..])
    ensures var once := SelectsOnce(s, job, turns[k]);
            all == if once.r.Blocked? && !once.state.panicked then Selects(once.state, job, turns[k + 1..]) else once
  {
    hide SelectsOnce;
    assert turns[k..][0] == turns[k] && turns[k..][1..] == turns[k + 1..];
  }

  function Submits(s: State, job: Job, turns: seq<SubmitTurn>): (end: SubmitEnd)
    requires !s.panicked
    ensures SubmittedFrom(s, job, end)
    ensures end.r.Blocked? && turns != [] && !end.state.panicked ==> |end.state.queue| >= 1000 && !end.state.quit
  {
    Selects(Apply(s, CallSubmit(job)), job, turns)
  }

  // Left alone, Submit puts its job at the end of the channel, unless it is full.
  lemma {:induction false} AloneSubmit(s: State, job: Job, turns: seq<SubmitTurn>)
    requires !s.panicked && !s.quit && job in s.pending
    requires turns != [] && forall k :: 0 <= k < |turns| ==> turns[k].select == []
    ensures var end := Selects(s, job, turns);
            if |s.queue| < 1000
            then end.r == Sent && end.state.queue == s.queue + [job] && end.state.pending == s.pending - multiset{job}
            else end == SubmitEnd(s, Blocked)
    decreases |turns|
  {
    if |s.queue| >= 1000 && |turns| > 1 {
      AloneSubmit(s, job, turns[1..]);
    }
  }

  // ---------- Stop ----------

  datatype StopEnd = StopEnd(state: State, r: Stopped)

  // wg.Wait: each turn the others act, and Stop returns once every worker has exited.
  function AwaitsWorkers(s: State, i: nat, turns: seq<seq<Event>>): StopEnd
    requires !s.panicked && i < |s.stops| && s.stops[i].Waiting?
    decreases |turns|
  {
    if turns == [] then StopEnd(s, Waits)
    else
      var seen := Interleave(AStopper(i), s, turns[0]);
      if seen.panicked then StopEnd(seen, Crashed)
      else if AllExited(seen.workers) then StopEnd(Apply(seen, StopReturn(i)), Waited)
      else AwaitsWorkers(seen, i, turns[1..])
  }

  function ClosesAndAwaits(s: State, i: nat, turns: StopTurns): StopEnd
    requires !s.panicked && i < |s.stops| && s.stops[i].Claim?
  {
    var claim := Interleave(AStopper(i), s, turns.claim);
    if claim.panicked then StopEnd(claim, Crashed) else
    var close := Interleave(AStopper(i), Apply(claim, StopClaim(i)), turns.close);
    if close.panicked then StopEnd(close, Crashed) else
    var closed := Apply(close, StopClose(i));
    if closed.panicked then StopEnd(closed, Crashed) else AwaitsWorkers(closed, i, turns.wait)
  }

  function Stops(s: State, turns: StopTurns): StopEnd
    requires !s.panicked
  {
    var i := |s.stops|;
    var check := Interleave(AStopper(i), Apply(s, CallStop), turns.check);
    if check.panicked then StopEnd(check, Crashed)
    else if !check.started then StopEnd(Apply(check, StopCheck(i)), AtOnce)
    else ClosesAndAwaits(Apply(check, StopCheck(i)), i, turns)
  }

  lemma {:induction false} AloneWait(s: State, i: nat, turns: seq<seq<Event>>)
    requires !s.panicked && i < |s.stops| && s.stops[i].Waiting?
    requires forall k :: 0 <= k < |turns| ==> turns[k] == []
    ensures AwaitsWorkers(s, i, turns) ==
            if turns != [] && AllExited(s.workers) then StopEnd(Apply(s, StopReturn(i)), Waited) else StopEnd(s, Waits)
    decreases |turns|
  {
    if turns != [] && !AllExited(s.workers) {
      AloneWait(s, i, turns[1..]);
    }
  }

  // Left alone, the first Stop clears `started`, closes quit and waits for the workers; a
  // later one returns at once.
  lemma AloneStop(s: State, turns: StopTurns)
    requires !s.panicked && !s.quit
    requires turns.check == turns.claim == turns.close == []
    requires forall k :: 0 <= k < |turns.wait| ==> turns.wait[k] == []
    ensures var end := Stops(s, turns);
            if !s.started then end.r == AtOnce && end.state.quit == s.quit
            else end.state.quit && !end.state.started &&
                 end.r == if turns.wait != [] && AllExited(s.workers) then Waited else Waits
  {
    if s.started {
      var i := |s.stops|;
      var called := Apply(s, CallStop);
      var closed := Apply(Apply(Apply(called, StopCheck(i)), StopClaim(i)), StopClose(i));
      AloneWait(closed, i, turns.wait);
    }
  }
}
