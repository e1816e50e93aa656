// The worker pool as a transition system: submitters, workers and callers of Stop
// interleave at single channel operations and single atomic updates.
module WorkerPool {

  type Job = nat

  const QUEUE_CAPACITY := 1000

  datatype WorkerPc =
    | Idle                  // in the select
    | Taken(job: Job)       // received, about to add 1 to active
    | Running(job: Job)     // inside the job
    | Returned(job: Job)    // about to add -1 to active
    | Exited

  datatype StopPc =
    | Check                     // about to read started
    | Claim                     // read true, about to write false
    | CloseQuit                 // about to close quit
    | Waiting                   // in wg.Wait
    | Done(waited: bool)        // returned, after waiting or at once

  datatype State = State(
    queue: seq<Job>,            // the buffered jobs channel
    workers: seq<WorkerPc>,
    active: int,
    started: bool,
    quit: bool,                 // quit is closed
    panicked: bool,             // quit was closed twice
    pending: multiset<Job>,     // Submit calls blocked in their select
    stops: seq<StopPc>,         // Stop calls, in order of arrival
    submitted: multiset<Job>,   // every non-nil job handed to Submit
    dropped: multiset<Job>,     // given up because quit was closed
    accepted: seq<Job>,         // everything that entered the channel, in order
    taken: seq<Job>,            // everything that left the channel, in order
    finished: multiset<Job>)

  datatype Event =
    | CallSubmit(job: Job)
    | Enqueue(job: Job)
    | Drop(job: Job)
    | Take(w: nat)
    | Activate(w: nat)
    | JobReturns(w: nat)
    | Deactivate(w: nat)
    | WorkerQuits(w: nat)
    | CallStop
    | StopCheck(i: nat)
    | StopClaim(i: nat)
    | StopClose(i: nat)
    | StopReturn(i: nat)

  function PoolSize(numWorkers: int): nat {
    if numWorkers <= 0 then 4 else numWorkers
  }

  function Init(numWorkers: int): State {
    State([], seq(PoolSize(numWorkers), _ => Idle), 0, true, false, false,
          multiset{}, [], multiset{}, multiset{}, [], [], multiset{})
  }

  predicate AllExited(workers: seq<WorkerPc>) {
    forall w :: 0 <= w < |workers| ==> workers[w].Exited?
  }

  predicate Enabled(s: State, e: Event) {
    !s.panicked &&
    match e
    case CallSubmit(_) => true
    case Enqueue(job) => job in s.pending && |s.queue| < QUEUE_CAPACITY
    case Drop(job) => job in s.pending && s.quit
    case Take(w) => w < |s.workers| && s.workers[w].Idle? && s.queue != []
    case Activate(w) => w < |s.workers| && s.workers[w].Taken?
    case JobReturns(w) => w < |s.workers| && s.workers[w].Running?
    case Deactivate(w) => w < |s.workers| && s.workers[w].Returned?
    case WorkerQuits(w) => w < |s.workers| && s.workers[w].Idle? && s.quit
    case CallStop => true
    case StopCheck(i) => i < |s.stops| && s.stops[i].Check?
    case StopClaim(i) => i < |s.stops| && s.stops[i].Claim?
    case StopClose(i) => i < |s.stops| && s.stops[i].CloseQuit?
    case StopReturn(i) => i < |s.stops| && s.stops[i].Waiting? && AllExited(s.workers)
  }

  function Apply(s: State, e: Event): State
    requires Enabled(s, e)
  {
    match e
    case CallSubmit(job) =>
      s.(pending := s.pending + multiset{job}, submitted := s.submitted + multiset{job})
    case Enqueue(job) =>
      s.(pending := s.pending - multiset{job}, queue := s.queue + [job], accepted := s.accepted + [job])
    case Drop(job) =>
      s.(pending := s.pending - multiset{job}, dropped := s.dropped + multiset{job})
    case Take(w) =>
      s.(queue := s.queue[1..], workers := s.workers[w := Taken(s.queue[0])], taken := s.taken + [s.queue[0]])
    case Activate(w) =>
      s.(workers := s.workers[w := Running(s.workers[w].job)], active := s.active + 1)
    case JobReturns(w) =>
      s.(workers := s.workers[w := Returned(s.workers[w].job)],
         finished := s.finished + multiset{s.workers[w].job})
    case Deactivate(w) => s.(workers := s.workers[w := Idle], active := s.active - 1)
    case WorkerQuits(w) => s.(workers := s.workers[w := Exited])
    case CallStop => s.(stops := s.stops + [Check])
    case StopCheck(i) => s.(stops := s.stops[i := if s.started then Claim else Done(false)])
    case StopClaim(i) => s.(stops := s.stops[i := CloseQuit], started := false)
    case StopClose(i) =>
      if s.quit then s.(panicked := true) else s.(stops := s.stops[i := Waiting], quit := true)
    case StopReturn(i) => s.(stops := s.stops[i := Done(true)])
  }

  predicate IsRun(s: State, es: seq<Event>)
    decreases |es|
  {
    es == [] || (Enabled(s, es[0]) && IsRun(Apply(s, es[0]), es[1..]))
  }

  function Exec(s: State, es: seq<Event>): State
    requires IsRun(s, es)
    decreases |es|
  {
    if es == [] then s else Exec(Apply(s, es[0]), es[1..])
  }

  // ---------- totals over a row of goroutines ----------

  function Total<T>(row: seq<T>, weight: T -> nat): nat {
    if row == [] then 0 else weight(row[0]) + Total(row[1..], weight)
  }

  lemma {:induction false} TotalUpdate<T>(row: seq<T>, weight: T -> nat, i: nat, x: T)
    requires i < |row|
    ensures Total(row[i := x], weight) + weight(row[i]) == Total(row, weight) + weight(x)
    decreases |row|
  {
    if i == 0 {
      assert row[0 := x][1..] == row[1..];
    } else {
      assert row[i := x][1..] == row[1..][i - 1 := x];
      TotalUpdate(row[1..], weight, i - 1, x);
    }
  }

  lemma {:induction false} TotalSnoc<T>(row: seq<T>, weight: T -> nat, x: T)
    ensures Total(row + [x], weight) == Total(row, weight) + weight(x)
    decreases |row|
  {
    if row == [] {
      assert row + [x] == [x] && [x][1..] == [];
    } else {
      assert (row + [x])[1..] == row[1..] + [x];
      TotalSnoc(row[1..], weight, x);
    }
  }

  lemma {:induction false} TotalZero<T>(row: seq<T>, weight: T -> nat)
    requires forall i :: 0 <= i < |row| ==> weight(row[i]) == 0
    ensures Total(row, weight) == 0
    decreases |row|
  {
    if row != [] {
      TotalZero(row[1..], weight);
    }
  }

  function InHand(pc: WorkerPc): multiset<Job> {
    if pc.Taken? || pc.Running? then multiset{pc.job} else multiset{}
  }

  function AllInHand(workers: seq<WorkerPc>): multiset<Job> {
    if workers == [] then multiset{} else InHand(workers[0]) + AllInHand(workers[1..])
  }

  lemma Prepend(front: multiset<Job>, a: multiset<Job>, b: multiset<Job>, x: multiset<Job>, y: multiset<Job>)
    requires a + x == b + y
    ensures (front + a) + x == (front + b) + y
  {
    assert (front + a) + x == front + (a + x);
    assert (front + b) + y == front + (b + y);
  }

  lemma {:induction false} InHandUpdate(workers: seq<WorkerPc>, w: nat, pc: WorkerPc)
    requires w < |workers|
    ensures AllInHand(workers[w := pc]) + InHand(workers[w]) == AllInHand(workers) + InHand(pc)
    decreases |workers|
  {
    if w == 0 {
      assert workers[0 := pc][1..] == workers[1..];
    } else {
      assert workers[w := pc][1..] == workers[1..][w - 1 := pc];
      InHandUpdate(workers[1..], w - 1, pc);
      Prepend(InHand(workers[0]), AllInHand(workers[1..][w - 1 := pc]), AllInHand(workers[1..]),
              InHand(workers[w]), InHand(pc));
    }
  }

  lemma {:induction false} NothingInHand(workers: seq<WorkerPc>)
    requires forall w :: 0 <= w < |workers| ==> InHand(workers[w]) == multiset{}
    ensures AllInHand(workers) == multiset{}
    decreases |workers|
  {
    if workers != [] {
      NothingInHand(workers[1..]);
    }
  }

  // ---------- conservation and order ----------

  function CountsActive(pc: WorkerPc): nat {
    if pc.Running? || pc.Returned? then 1 else 0
  }

  // Jobs leave the channel in the order they entered it; the queue is what is left.
  ghost predicate Fifo(s: State) {
    s.accepted == s.taken + s.queue && |s.queue| <= QUEUE_CAPACITY
  }

  // Every job handed to Submit is blocked, given up or accepted.
  ghost predicate SubmitsBalance(s: State) {
    s.submitted == s.pending + s.dropped + multiset(s.accepted)
  }

  ghost predicate Balanced(workers: seq<WorkerPc>, taken: seq<Job>, finished: multiset<Job>) {
    multiset(taken) == AllInHand(workers) + finished
  }

  // Every job taken is with one worker or finished.
  ghost predicate HandsBalance(s: State) {
    Balanced(s.workers, s.taken, s.finished)
  }

  ghost predicate ActiveCounts(s: State) {
    s.active == Total(s.workers, CountsActive)
  }

  ghost predicate QuitFirst(s: State) {
    (!s.quit ==> s.dropped == multiset{} && forall w :: 0 <= w < |s.workers| ==> !s.workers[w].Exited?) &&
    (forall i :: 0 <= i < |s.stops| && (s.stops[i].Waiting? || s.stops[i] == Done(true)) ==> s.quit) &&
    (forall i :: 0 <= i < |s.stops| && s.stops[i] == Done(true) ==> AllExited(s.workers))
  }

  ghost predicate Inv(s: State) {
    Fifo(s) && SubmitsBalance(s) && HandsBalance(s) && ActiveCounts(s) && QuitFirst(s)
  }

  predicate WorkerEvent(e: Event) {
    e.Take? || e.Activate? || e.JobReturns? || e.Deactivate? || e.WorkerQuits?
  }

  lemma FifoStep(s: State, e: Event)
    requires Fifo(s) && Enabled(s, e)
    ensures Fifo(Apply(s, e))
  {
    if e.Take? {
      assert s.queue == [s.queue[0]] + s.queue[1..];
    }
  }

  lemma SubmitsStep(s: State, e: Event)
    requires SubmitsBalance(s) && Enabled(s, e)
    ensures SubmitsBalance(Apply(s, e))
  {
    if e.Enqueue? || e.Drop? {
      assert s.pending == (s.pending - multiset{e.job}) + multiset{e.job};
    }
  }

  lemma ActiveStep(s: State, e: Event)
    requires ActiveCounts(s) && Enabled(s, e)
    ensures ActiveCounts(Apply(s, e))
  {
    if WorkerEvent(e) {
      TotalUpdate(s.workers, CountsActive, e.w, Apply(s, e).workers[e.w]);
    }
  }

  // Multiset cancellation, as the three kinds of worker event need it.
  lemma Cancel(a: multiset<Job>, b: multiset<Job>, x: multiset<Job>)
    requires a + x == b + x
    ensures a == b
  {
    assert (a + x) - x == a && (b + x) - x == b;
  }

  lemma TakeBalance(was: multiset<Job>, now: multiset<Job>, finished: multiset<Job>, taken: seq<Job>, job: Job)
    requires multiset(taken) == was + finished && now == was + multiset{job}
    ensures multiset(taken + [job]) == now + finished
  {
  }

  lemma TakeHands(s: State, w: nat)
    requires HandsBalance(s) && Enabled(s, Take(w))
    ensures HandsBalance(Apply(s, Take(w)))
  {
    var job := s.queue[0];
    InHandUpdate(s.workers, w, Taken(job));
    var was, now := AllInHand(s.workers), AllInHand(s.workers[w := Taken(job)]);
    assert now == was + multiset{job};
    TakeBalance(was, now, s.finished, s.taken, job);
  }

  lemma ReturnBalance(was: multiset<Job>, now: multiset<Job>, finished: multiset<Job>, taken: seq<Job>, job: Job)
    requires multiset(taken) == was + finished && now + multiset{job} == was + multiset{}
    ensures multiset(taken) == now + (finished + multiset{job})
  {
    assert was == now + multiset{job};
  }

  lemma ReturnHands(s: State, w: nat)
    requires HandsBalance(s) && Enabled(s, JobReturns(w))
    ensures HandsBalance(Apply(s, JobReturns(w)))
  {
    var job := s.workers[w].job;
    InHandUpdate(s.workers, w, Returned(job));
    var was, now := AllInHand(s.workers), AllInHand(s.workers[w := Returned(job)]);
    assert now + multiset{job} == was + multiset{};
    ReturnBalance(was, now, s.finished, s.taken, job);
  }

  predicate SameHand(a: WorkerPc, b: WorkerPc) {
    if a.Taken? || a.Running? then (b.Taken? || b.Running?) && a.job == b.job else !b.Taken? && !b.Running?
  }

  lemma OtherHands(s: State, w: nat, pc: WorkerPc)
    requires HandsBalance(s) && w < |s.workers| && SameHand(pc, s.workers[w])
    ensures Balanced(s.workers[w := pc], s.taken, s.finished)
  {
    InHandUpdate(s.workers, w, pc);
    Cancel(AllInHand(s.workers[w := pc]), AllInHand(s.workers), InHand(pc));
  }

  // What a step other than Take and JobReturns does to workers, taken and finished.
  lemma HandsFrame(s: State, e: Event)
    requires Enabled(s, e) && !e.Take? && !e.JobReturns?
    ensures Apply(s, e).taken == s.taken && Apply(s, e).finished == s.finished
    ensures WorkerEvent(e) ==> e.w < |s.workers| && SameHand(Apply(s, e).workers[e.w], s.workers[e.w]) &&
                               Apply(s, e).workers == s.workers[e.w := Apply(s, e).workers[e.w]]
    ensures !WorkerEvent(e) ==> Apply(s, e).workers == s.workers
  {
  }

  lemma HandsStep(s: State, e: Event)
    requires HandsBalance(s) && Enabled(s, e)
    ensures HandsBalance(Apply(s, e))
  {
    if e.Take? {
      TakeHands(s, e.w);
    } else if e.JobReturns? {
      ReturnHands(s, e.w);
    } else {
      HandsFrame(s, e);
      if WorkerEvent(e) {
        OtherHands(s, e.w, Apply(s, e).workers[e.w]);
      }
    }
  }

  lemma QuitStep(s: State, e: Event)
    requires QuitFirst(s) && Enabled(s, e)
    ensures QuitFirst(Apply(s, e))
  {
    if WorkerEvent(e) {
      assert !s.workers[e.w].Exited?;
    }
  }

  lemma StepKeepsInv(s: State, e: Event)
    requires Inv(s) && Enabled(s, e)
    ensures Inv(Apply(s, e))
  {
    FifoStep(s, e);
    SubmitsStep(s, e);
    ActiveStep(s, e);
    HandsStep(s, e);
    QuitStep(s, e);
  }

  lemma InitInv(numWorkers: int)
    ensures Inv(Init(numWorkers))
  {
    TotalZero(Init(numWorkers).workers, CountsActive);
    NothingInHand(Init(numWorkers).workers);
  }

  lemma {:induction false} RunKeepsInv(s: State, es: seq<Event>)
    requires Inv(s) && IsRun(s, es)
    ensures Inv(Exec(s, es))
    decreases |es|
  {
    if es != [] {
      StepKeepsInv(s, es[0]);
      RunKeepsInv(Apply(s, es[0]), es[1..]);
    }
  }
}
