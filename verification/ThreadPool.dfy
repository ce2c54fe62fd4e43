/**
 * The thread pool: submitters queue one job each and sleep until it is done; workers scan the
 * layers of the shared queue and run one job from each.  Steps are taken by one thread at a
 * time; the pool's own mutex only removes interleavings that are allowed here.
 */
module ThreadPool {
  import opened Basics
  import opened Seqs

  const LAYERS := 4
  const CAPACITY := 128

  type Job = nat

  datatype Owner = Nobody | Submitter | Worker(w: nat)

  datatype SubmitterPc =
    | Fresh       // create_job not yet called
    | Created     // job made, not yet queued
    | ToLock      // wants the job's mutex
    | Holding     // has it, about to test `done`
    | Sleeping    // in pthread_cond_wait
    | Leaving     // saw `done`, mutex released
    | Gone        // job freed, call returned

  /** Where the job is on its way from the queue to a worker. */
  datatype Place = NotQueued | InLayer(l: nat) | With(w: nat) | Finished

  datatype JobState = JobState(pc: SubmitterPc, mutex: Owner, done: bool, runs: nat, place: Place)

  datatype WorkerPc =
    | Top                          // before the round
    | Scan(layer: nat)             // about to try this layer
    | Has(job: Job, layer: nat)    // popped, command not yet run
    | Ran(job: Job, layer: nat)    // command run, wants the job's mutex
    | Locked(job: Job, layer: nat)
    | Signalled(job: Job, layer: nat) // `done` set, mutex still held
    | Stopped

  datatype State = State(layers: seq<seq<Job>>, jobs: seq<JobState>, workers: seq<WorkerPc>, stopping: bool)

  function Init(jobs: nat, workers: nat): State {
    State([[], [], [], []], seq(jobs, i => JobState(Fresh, Nobody, false, 0, NotQueued)),
          seq(workers, i => Top), false)
  }

  datatype Step =
    | Create(j: Job)
    | Enqueue(j: Job, priority: int)
    | Lock(j: Job)
    | Test(j: Job)
    | Wake(j: Job)
    | Free(j: Job)
    | Begin(w: nat)
    | Pop(w: nat)
    | Execute(w: nat)
    | LockJob(w: nat)
    | SetDone(w: nat)
    | UnlockJob(w: nat)
    | EndRound(w: nat)
    | Shutdown

  function Count(layers: seq<seq<Job>>): nat
    requires |layers| == LAYERS
  {
    |layers[0]| + |layers[1]| + |layers[2]| + |layers[3]|
  }

  ghost predicate Shape(s: State) {
    && |s.layers| == LAYERS
    && (forall w :: 0 <= w < |s.workers| ==> PcOk(s, s.workers[w]))
  }

  predicate PcOk(s: State, pc: WorkerPc) {
    match pc
    case Scan(l) => l <= LAYERS
    case Has(j, l) => j < |s.jobs| && l < LAYERS
    case Ran(j, l) => j < |s.jobs| && l < LAYERS
    case Locked(j, l) => j < |s.jobs| && l < LAYERS
    case Signalled(j, l) => j < |s.jobs| && l < LAYERS
    case _ => true
  }

  predicate SubmitterAt(s: State, j: Job, pc: SubmitterPc) {
    j < |s.jobs| && s.jobs[j].pc == pc
  }

  predicate Enabled(s: State, step: Step) {
    match step
    case Create(j) => SubmitterAt(s, j, Fresh)
    case Enqueue(j, _) => SubmitterAt(s, j, Created)
    case Lock(j) => SubmitterAt(s, j, ToLock) && s.jobs[j].mutex == Nobody
    case Test(j) => SubmitterAt(s, j, Holding)
    case Wake(j) => SubmitterAt(s, j, Sleeping)
    case Free(j) => SubmitterAt(s, j, Leaving)
    case Begin(w) => w < |s.workers| && s.workers[w] == Top
    case Pop(w) => w < |s.workers| && s.workers[w].Scan? && s.workers[w].layer < LAYERS
    case Execute(w) => w < |s.workers| && s.workers[w].Has?
    case LockJob(w) =>
      w < |s.workers| && s.workers[w].Ran? && s.workers[w].job < |s.jobs| && s.jobs[s.workers[w].job].mutex == Nobody
    case SetDone(w) => w < |s.workers| && s.workers[w].Locked?
    case UnlockJob(w) => w < |s.workers| && s.workers[w].Signalled?
    case EndRound(w) => w < |s.workers| && s.workers[w] == Scan(LAYERS)
    case Shutdown => true
  }

  function SetJob(s: State, j: Job, js: JobState): State
    requires j < |s.jobs|
  {
    s.(jobs := s.jobs[j := js])
  }

  function SetWorker(s: State, w: nat, pc: WorkerPc): State
    requires w < |s.workers|
  {
    s.(workers := s.workers[w := pc])
  }

  function Next(s: State, step: Step): State
    requires Shape(s) && Enabled(s, step)
  {
    match step
    case Create(j) => SetJob(s, j, s.jobs[j].(pc := Created))
    case Enqueue(j, p) =>
      var waiting := s.jobs[j].(pc := ToLock);
      // a full queue or a bad priority leaves the job out; its submitter waits all the same
      if Count(s.layers) >= CAPACITY || p < 0 || p >= LAYERS then SetJob(s, j, waiting)
      else SetJob(s.(layers := s.layers[p := s.layers[p] + [j]]), j, waiting.(place := InLayer(p)))
    case Lock(j) => SetJob(s, j, s.jobs[j].(pc := Holding, mutex := Submitter))
    case Test(j) => SetJob(s, j, s.jobs[j].(pc := if s.jobs[j].done then Leaving else Sleeping, mutex := Nobody))
    case Wake(j) => SetJob(s, j, s.jobs[j].(pc := ToLock))
    case Free(j) => SetJob(s, j, s.jobs[j].(pc := Gone))
    case Begin(w) =>
      if s.stopping then SetWorker(s, w, Stopped)
      else if Count(s.layers) == 0 then s
      else SetWorker(s, w, Scan(0))
    case Pop(w) =>
      var l := s.workers[w].layer;
      if s.layers[l] == [] then SetWorker(s, w, Scan(l + 1))
      else
        var j := s.layers[l][0];
        var popped := SetWorker(s.(layers := s.layers[l := s.layers[l][1..]]), w, Has(j, l));
        if j < |s.jobs| then SetJob(popped, j, s.jobs[j].(place := With(w))) else popped
    case Execute(w) =>
      assert PcOk(s, s.workers[w]);
      var Has(j, l) := s.workers[w];
      SetWorker(SetJob(s, j, s.jobs[j].(runs := s.jobs[j].runs + 1)), w, Ran(j, l))
    case LockJob(w) =>
      var Ran(j, l) := s.workers[w];
      SetWorker(SetJob(s, j, s.jobs[j].(mutex := Worker(w))), w, Locked(j, l))
    case SetDone(w) =>
      assert PcOk(s, s.workers[w]);
      var Locked(j, l) := s.workers[w];
      // broadcast: a sleeping submitter goes for the mutex
      var pc := if s.jobs[j].pc == Sleeping then ToLock else s.jobs[j].pc;
      SetWorker(SetJob(s, j, s.jobs[j].(done := true, pc := pc)), w, Signalled(j, l))
    case UnlockJob(w) =>
      assert PcOk(s, s.workers[w]);
      var Signalled(j, l) := s.workers[w];
      SetWorker(SetJob(s, j, s.jobs[j].(mutex := Nobody, place := Finished)), w, Scan(l + 1))
    case EndRound(w) => SetWorker(s, w, Top)
    case Shutdown => s.(stopping := true)
  }

  // ----- invariant

  predicate Carries(pc: WorkerPc, j: Job) {
    (pc.Has? || pc.Ran? || pc.Locked? || pc.Signalled?) && pc.job == j
  }

  predicate Past(pc: SubmitterPc) { pc == Leaving || pc == Gone }

  /** What a job's fields say about each other. */
  predicate JobOk(s: State, j: Job)
    requires j < |s.jobs|
  {
    var js := s.jobs[j];
    && (js.mutex == Submitter <==> js.pc == Holding)
    && (js.mutex.Worker? ==> js.place == With(js.mutex.w))
    && (js.place == NotQueued || js.place.InLayer? ==> js.runs == 0 && !js.done)
    && (js.pc == Fresh || js.pc == Created ==> js.place == NotQueued)
    && (js.place == Finished ==> js.runs == 1 && js.done)
    && (Past(js.pc) ==> js.place == Finished)
    && (js.pc == Sleeping ==> !js.done)
    && (js.place.With? ==> js.place.w < |s.workers| && Carries(s.workers[js.place.w], j))
    && (js.place.InLayer? ==> js.place.l < LAYERS && |s.layers| == LAYERS && j in s.layers[js.place.l])
  }

  /** What a worker holding a job knows about it. */
  predicate WorkerOk(s: State, w: nat)
    requires w < |s.workers|
  {
    match s.workers[w]
    case Has(j, l) => Carrying(s, w, j, l, 0, false, false)
    case Ran(j, l) => Carrying(s, w, j, l, 1, false, false)
    case Locked(j, l) => Carrying(s, w, j, l, 1, false, true)
    case Signalled(j, l) => Carrying(s, w, j, l, 1, true, true)
    case Scan(l) => l <= LAYERS
    case _ => true
  }

  predicate Carrying(s: State, w: nat, j: Job, l: nat, runs: nat, done: bool, locked: bool) {
    && l < LAYERS && j < |s.jobs|
    && s.jobs[j].place == With(w) && s.jobs[j].runs == runs && s.jobs[j].done == done
    && (s.jobs[j].mutex == Worker(w) <==> locked)
  }

  ghost predicate LayerOk(s: State, l: nat)
    requires l < |s.layers|
  {
    && Distinct(s.layers[l])
    && (forall i :: 0 <= i < |s.layers[l]| ==> s.layers[l][i] < |s.jobs| && s.jobs[s.layers[l][i]].place == InLayer(l))
  }

  ghost predicate Inv(s: State) {
    && |s.layers| == LAYERS
    && (forall l :: 0 <= l < LAYERS ==> LayerOk(s, l))
    && (forall j :: 0 <= j < |s.jobs| ==> JobOk(s, j))
    && (forall w :: 0 <= w < |s.workers| ==> WorkerOk(s, w))
  }

  lemma InvShape(s: State)
    requires Inv(s)
    ensures Shape(s)
  {
    forall w | 0 <= w < |s.workers| ensures PcOk(s, s.workers[w]) { assert WorkerOk(s, w); }
  }

  lemma InitInv(jobs: nat, workers: nat)
    ensures Inv(Init(jobs, workers))
  {
  }

  ghost function Boot(jobs: nat, workers: nat): (s: State)
    ensures Inv(s)
  {
    InitInv(jobs, workers);
    Init(jobs, workers)
  }

  /** A submitter's step that moves neither the job nor what has happened to it. */
  lemma SubmitterStepInv(s: State, j: Job, js: JobState)
    requires Inv(s) && j < |s.jobs|
    requires js.place == s.jobs[j].place && js.done == s.jobs[j].done && js.runs == s.jobs[j].runs
    requires js.mutex == s.jobs[j].mutex || (!js.mutex.Worker? && !s.jobs[j].mutex.Worker?)
    requires JobOk(SetJob(s, j, js), j)
    ensures Inv(SetJob(s, j, js))
  {
    var s' := SetJob(s, j, js);
    forall l | 0 <= l < LAYERS ensures LayerOk(s', l) { assert LayerOk(s, l); }
    forall k | 0 <= k < |s'.jobs| ensures JobOk(s', k) { assert JobOk(s, k); }
    forall w | 0 <= w < |s'.workers| ensures WorkerOk(s', w) { assert WorkerOk(s, w); }
  }

  /** A worker's step on the job it carries. */
  lemma WorkerStepInv(s: State, w: nat, j: Job, js: JobState, pc: WorkerPc)
    requires Inv(s) && w < |s.workers| && Carries(s.workers[w], j) && j < |s.jobs|
    requires js.place == With(w) || js.place == Finished
    requires var s' := SetWorker(SetJob(s, j, js), w, pc); JobOk(s', j) && WorkerOk(s', w)
    ensures Inv(SetWorker(SetJob(s, j, js), w, pc))
  {
    var s' := SetWorker(SetJob(s, j, js), w, pc);
    assert WorkerOk(s, w);
    forall l | 0 <= l < LAYERS ensures LayerOk(s', l) { assert LayerOk(s, l); }
    forall k | 0 <= k < |s'.jobs| && k != j ensures JobOk(s', k) { assert JobOk(s, k); }
    forall v | 0 <= v < |s'.workers| && v != w ensures WorkerOk(s', v) { assert WorkerOk(s, v); }
  }

  /** A worker between jobs moves on. */
  lemma IdleStepInv(s: State, w: nat, pc: WorkerPc)
    requires Inv(s) && w < |s.workers|
    requires s.workers[w].Top? || s.workers[w].Scan?
    requires pc.Top? || pc.Stopped? || (pc.Scan? && pc.layer <= LAYERS)
    ensures Inv(SetWorker(s, w, pc))
  {
    var s' := SetWorker(s, w, pc);
    forall l | 0 <= l < LAYERS ensures LayerOk(s', l) { assert LayerOk(s, l); }
    forall k | 0 <= k < |s'.jobs| ensures JobOk(s', k) { assert JobOk(s, k); }
    forall v | 0 <= v < |s'.workers| ensures WorkerOk(s', v) { assert WorkerOk(s, v); }
  }

  lemma EnqueueInv(s: State, j: Job, p: nat)
    requires Inv(s) && SubmitterAt(s, j, Created) && p < LAYERS
    ensures Inv(SetJob(s.(layers := s.layers[p := s.layers[p] + [j]]), j, s.jobs[j].(pc := ToLock, place := InLayer(p))))
  {
    var s' := SetJob(s.(layers := s.layers[p := s.layers[p] + [j]]), j, s.jobs[j].(pc := ToLock, place := InLayer(p)));
    assert JobOk(s, j);
    assert s'.layers[p][|s.layers[p]|] == j;
    forall l | 0 <= l < LAYERS ensures LayerOk(s', l) {
      assert LayerOk(s, l);
      forall i | 0 <= i < |s.layers[l]| ensures s.layers[l][i] != j {
        assert s.jobs[s.layers[l][i]].place == InLayer(l);
      }
    }
    forall k | 0 <= k < |s'.jobs| ensures JobOk(s', k) {
      assert JobOk(s, k);
      if s.jobs[k].place.InLayer? {
        var l := s.jobs[k].place.l;
        assert s'.layers[l][IndexOf(s.layers[l], k)] == k;
      }
    }
    forall w | 0 <= w < |s'.workers| ensures WorkerOk(s', w) { assert WorkerOk(s, w); }
  }

  lemma PopInv(s: State, w: nat, l: nat)
    requires Inv(s) && w < |s.workers| && s.workers[w] == Scan(l) && l < LAYERS && s.layers[l] != []
    ensures s.layers[l][0] < |s.jobs|
    ensures var j := s.layers[l][0];
            Inv(SetJob(SetWorker(s.(layers := s.layers[l := s.layers[l][1..]]), w, Has(j, l)),
                       j, s.jobs[j].(place := With(w))))
  {
    var j := s.layers[l][0];
    assert LayerOk(s, l);
    assert j < |s.jobs| && s.jobs[j].place == InLayer(l) && JobOk(s, j);
    var s' := SetJob(SetWorker(s.(layers := s.layers[l := s.layers[l][1..]]), w, Has(j, l)), j,
                     s.jobs[j].(place := With(w)));
    forall m | 0 <= m < LAYERS ensures LayerOk(s', m) {
      assert LayerOk(s, m);
      if m == l {
        forall i | 0 <= i < |s'.layers[l]| ensures s'.layers[l][i] == s.layers[l][i + 1] && s'.layers[l][i] != j {
        }
      } else {
        forall i | 0 <= i < |s.layers[m]| ensures s.layers[m][i] != j {
          assert s.jobs[s.layers[m][i]].place == InLayer(m);
        }
      }
    }
    forall k | 0 <= k < |s'.jobs| ensures JobOk(s', k) {
      assert JobOk(s, k);
      if k != j && s.jobs[k].place == InLayer(l) {
        var i := IndexOf(s.layers[l], k);
        assert s'.layers[l][i - 1] == k;
      }
    }
    forall v | 0 <= v < |s'.workers| ensures WorkerOk(s', v) { assert WorkerOk(s, v); }
  }

  /** Every step of every thread keeps the invariant. */
  lemma NextInv(s: State, step: Step)
    requires Inv(s) && Enabled(s, step)
    ensures Shape(s) && Inv(Next(s, step))
  {
    InvShape(s);
    match step
    case Create(j) => SubmitterInv(s, step, j);
    case Enqueue(j, p) =>
      SubmitterInv(s, step, j);
      if 0 <= p < LAYERS { EnqueueInv(s, j, p); }
    case Lock(j) => SubmitterInv(s, step, j);
    case Test(j) => SubmitterInv(s, step, j);
    case Wake(j) => SubmitterInv(s, step, j);
    case Free(j) => SubmitterInv(s, step, j);
    case Begin(w) => IdleInv(s, step, w);
    case Pop(w) =>
      if s.layers[s.workers[w].layer] == [] { IdleInv(s, step, w); } else { PopInv(s, w, s.workers[w].layer); }
    case Execute(w) => CarrierInv(s, step, w);
    case LockJob(w) => CarrierInv(s, step, w);
    case SetDone(w) => CarrierInv(s, step, w);
    case UnlockJob(w) => CarrierInv(s, step, w);
    case EndRound(w) => IdleInv(s, step, w);
    case Shutdown => ShutdownInv(s);
  }

  lemma SubmitterInv(s: State, step: Step, j: Job)
    requires Inv(s) && Shape(s) && Enabled(s, step)
    requires step in {Create(j), Lock(j), Test(j), Wake(j), Free(j)} || (step.Enqueue? && step.j == j)
    ensures !(step.Enqueue? && 0 <= step.priority < LAYERS && Count(s.layers) < CAPACITY) ==> Inv(Next(s, step))
  {
    assert JobOk(s, j);
    var js := s.jobs[j];
    if js.place.With? { assert WorkerOk(s, js.place.w); }
    match step
    case Create(_) => SubmitterStepInv(s, j, js.(pc := Created));
    case Enqueue(_, _) => SubmitterStepInv(s, j, js.(pc := ToLock));
    case Lock(_) => SubmitterStepInv(s, j, js.(pc := Holding, mutex := Submitter));
    case Test(_) => SubmitterStepInv(s, j, js.(pc := if js.done then Leaving else Sleeping, mutex := Nobody));
    case Wake(_) => SubmitterStepInv(s, j, js.(pc := ToLock));
    case Free(_) => SubmitterStepInv(s, j, js.(pc := Gone));
  }

  lemma IdleInv(s: State, step: Step, w: nat)
    requires Inv(s) && Shape(s) && Enabled(s, step)
    requires step in {Begin(w), EndRound(w)} || (step == Pop(w) && s.layers[s.workers[w].layer] == [])
    ensures Inv(Next(s, step))
  {
    match step
    case Begin(_) =>
      IdleStepInv(s, w, Stopped);
      IdleStepInv(s, w, Scan(0));
    case Pop(_) => IdleStepInv(s, w, Scan(s.workers[w].layer + 1));
    case EndRound(_) => IdleStepInv(s, w, Top);
  }

  lemma CarrierInv(s: State, step: Step, w: nat)
    requires Inv(s) && Shape(s) && Enabled(s, step)
    requires step in {Execute(w), LockJob(w), SetDone(w), UnlockJob(w)}
    ensures Inv(Next(s, step))
  {
    assert WorkerOk(s, w);
    var j, l := s.workers[w].job, s.workers[w].layer;
    assert JobOk(s, j);
    hide Inv;
    match step
    case Execute(_) => ExecuteInv(s, w, j, l);
    case LockJob(_) => LockJobInv(s, w, j, l);
    case SetDone(_) => SetDoneInv(s, w, j, l);
    case UnlockJob(_) => UnlockJobInv(s, w, j, l);
  }

  lemma ExecuteInv(s: State, w: nat, j: Job, l: nat)
    requires Inv(s) && Shape(s) && Enabled(s, Execute(w)) && s.workers[w] == Has(j, l) && j < |s.jobs|
    requires JobOk(s, j) && WorkerOk(s, w)
    ensures Inv(Next(s, Execute(w)))
  {
    hide Inv;
    WorkerStepInv(s, w, j, s.jobs[j].(runs := 1), Ran(j, l));
  }

  lemma LockJobInv(s: State, w: nat, j: Job, l: nat)
    requires Inv(s) && Shape(s) && Enabled(s, LockJob(w)) && s.workers[w] == Ran(j, l) && j < |s.jobs|
    requires JobOk(s, j) && WorkerOk(s, w)
    ensures Inv(Next(s, LockJob(w)))
  {
    hide Inv;
    WorkerStepInv(s, w, j, s.jobs[j].(mutex := Worker(w)), Locked(j, l));
  }

  lemma SetDoneInv(s: State, w: nat, j: Job, l: nat)
    requires Inv(s) && Shape(s) && Enabled(s, SetDone(w)) && s.workers[w] == Locked(j, l) && j < |s.jobs|
    requires JobOk(s, j) && WorkerOk(s, w)
    ensures Inv(Next(s, SetDone(w)))
  {
    hide Inv;
    var pc := if s.jobs[j].pc == Sleeping then ToLock else s.jobs[j].pc;
    WorkerStepInv(s, w, j, s.jobs[j].(done := true, pc := pc), Signalled(j, l));
  }

  lemma UnlockJobInv(s: State, w: nat, j: Job, l: nat)
    requires Inv(s) && Shape(s) && Enabled(s, UnlockJob(w)) && s.workers[w] == Signalled(j, l) && j < |s.jobs|
    requires JobOk(s, j) && WorkerOk(s, w)
    ensures Inv(Next(s, UnlockJob(w)))
  {
    hide Inv;
    WorkerStepInv(s, w, j, s.jobs[j].(mutex := Nobody, place := Finished), Scan(l + 1));
  }

  lemma ShutdownInv(s: State)
    requires Inv(s)
    ensures Inv(s.(stopping := true))
  {
    var s' := s.(stopping := true);
    forall l | 0 <= l < LAYERS ensures LayerOk(s', l) { assert LayerOk(s, l); }
    forall k | 0 <= k < |s'.jobs| ensures JobOk(s', k) { assert JobOk(s, k); }
    forall w | 0 <= w < |s'.workers| ensures WorkerOk(s', w) { assert WorkerOk(s, w); }
  }

  // ----- whole runs

  /** A step of a state that keeps the invariant, so that it can be taken again and again. */
  ghost function Advance(s: State, step: Step): (s': State)
    requires Inv(s) && Enabled(s, step)
    ensures Inv(s')
  {
    NextInv(s, step);
    Next(s, step)
  }

  ghost predicate IsRun(s: State, steps: seq<Step>)
    requires Inv(s)
    decreases |steps|
  {
    steps != [] ==> Enabled(s, steps[0]) && IsRun(Advance(s, steps[0]), steps[1..])
  }

  ghost function Run(s: State, steps: seq<Step>): (s': State)
    requires Inv(s) && IsRun(s, steps)
    ensures Inv(s')
    decreases |steps|
  {
    if steps == [] then s else Run(Advance(s, steps[0]), steps[1..])
  }

  /**
   * In every interleaving of any number of submitters and workers, each command runs at most
   * once, a submitter that returns has had its own command run, none sleeps once its job is done, and a worker that
   * is about to touch a job finds it not yet freed.
   */
  lemma PoolIsSafe(jobs: nat, workers: nat, steps: seq<Step>, j: Job, w: nat)
    requires IsRun(Boot(jobs, workers), steps)
    requires j < |Run(Boot(jobs, workers), steps).jobs| && w < |Run(Boot(jobs, workers), steps).workers|
    ensures var s := Run(Boot(jobs, workers), steps);
            && s.jobs[j].runs <= 1
            && (Past(s.jobs[j].pc) ==> s.jobs[j].runs == 1)
            && (s.jobs[j].pc == Sleeping ==> !s.jobs[j].done)
            && (Carries(s.workers[w], j) ==> s.jobs[j].pc != Gone)
  {
    var s := Run(Boot(jobs, workers), steps);
    hide IsRun, Run;
    assert JobOk(s, j) && WorkerOk(s, w);
    if s.jobs[j].place.With? { assert WorkerOk(s, s.jobs[j].place.w); }
  }

  // ----- nobody is stuck

  /** How many steps of its own a submitter whose job is finished is away from returning. */
  function ToGo(pc: SubmitterPc): nat {
    match pc
    case ToLock => 3
    case Holding => 2
    case Leaving => 1
    case _ => 0
  }

  /**
   * A submitter whose job is finished returns: until it has, it is three, two or one steps away, the next of these is
   * enabled, and no step of anybody else takes it back.
   */
  lemma FinishedReturns(s: State, j: Job)
    requires Inv(s) && j < |s.jobs| && s.jobs[j].place == Finished
    ensures Shape(s)
    ensures s.jobs[j].pc != Gone ==>
              exists step :: step in {Lock(j), Test(j), Free(j)} && Enabled(s, step)
                             && ToGo(Next(s, step).jobs[j].pc) == ToGo(s.jobs[j].pc) - 1
    ensures s.jobs[j].pc == Gone <==> ToGo(s.jobs[j].pc) == 0
    ensures forall step :: Enabled(s, step) ==>
              Next(s, step).jobs[j].place == Finished && ToGo(Next(s, step).jobs[j].pc) <= ToGo(s.jobs[j].pc)
  {
    InvShape(s);
    assert JobOk(s, j);
    if s.jobs[j].pc != Gone {
      var step := if s.jobs[j].pc == ToLock then Lock(j) else if s.jobs[j].pc == Holding then Test(j) else Free(j);
      assert Enabled(s, step) && ToGo(Next(s, step).jobs[j].pc) == ToGo(s.jobs[j].pc) - 1;
    }
    forall step | Enabled(s, step)
      ensures Next(s, step).jobs[j].place == Finished && ToGo(Next(s, step).jobs[j].pc) <= ToGo(s.jobs[j].pc)
    {
      FinishedStays(s, j, step);
    }
  }

  lemma FinishedStays(s: State, j: Job, step: Step)
    requires Inv(s) && Shape(s) && j < |s.jobs| && s.jobs[j].place == Finished && Enabled(s, step)
    ensures Next(s, step).jobs[j].place == Finished && ToGo(Next(s, step).jobs[j].pc) <= ToGo(s.jobs[j].pc)
  {
    assert JobOk(s, j);
    if step.Execute? || step.LockJob? || step.SetDone? || step.UnlockJob? {
      assert WorkerOk(s, step.w);
    } else if step.Pop? {
      assert LayerOk(s, s.workers[step.w].layer);
    }
  }

  /**
   * A round: a worker begins at layer 0 when there is work, takes the oldest job of each layer it comes to or goes on
   * to the next one up, and is done when it has tried all four.
   */
  lemma WorkerScans(s: State, w: nat)
    requires Inv(s) && w < |s.workers|
    ensures Shape(s)
    ensures Enabled(s, Begin(w)) ==>
              Next(s, Begin(w)).workers[w] == if s.stopping then Stopped else if Count(s.layers) == 0 then Top else Scan(0)
    ensures Enabled(s, Pop(w)) ==>
              var l, t := s.workers[w].layer, Next(s, Pop(w));
              if s.layers[l] == [] then t.workers[w] == Scan(l + 1) && t.layers == s.layers
              else t.workers[w] == Has(s.layers[l][0], l) && t.layers == s.layers[l := s.layers[l][1..]]
    ensures s.workers[w] == Scan(LAYERS) ==> Enabled(s, EndRound(w)) && Next(s, EndRound(w)).workers[w] == Top
  {
    InvShape(s);
  }

  /**
   * With a job in hand a worker runs it once, takes its mutex, marks it done and wakes its submitter, gives the mutex
   * back and goes on to the next layer up.
   */
  lemma WorkerServes(s: State, w: nat, j: Job, l: nat)
    requires Inv(s) && w < |s.workers| && Carries(s.workers[w], j) && s.workers[w].layer == l
    ensures Shape(s) && j < |s.jobs|
    ensures s.workers[w].Has? ==>
              var t := Next(s, Execute(w));
              t.workers[w] == Ran(j, l) && t.jobs == s.jobs[j := s.jobs[j].(runs := s.jobs[j].runs + 1)]
    ensures s.workers[w].Ran? && s.jobs[j].mutex == Nobody ==>
              var t := Next(s, LockJob(w));
              t.workers[w] == Locked(j, l) && t.jobs == s.jobs[j := s.jobs[j].(mutex := Worker(w))]
    ensures s.workers[w].Locked? ==>
              var t := Next(s, SetDone(w));
              t.workers[w] == Signalled(j, l) && t.jobs[j].done && t.jobs[j].pc != Sleeping
    ensures s.workers[w].Signalled? ==>
              var t := Next(s, UnlockJob(w));
              t.workers[w] == Scan(l + 1) && t.jobs[j].mutex == Nobody && t.jobs[j].place == Finished
  {
    InvShape(s);
    assert WorkerOk(s, w);
    hide Inv, Shape;
  }

  // ----- starvation

  /**
   * A run watched from the moment some job stands in the queue: which workers have begun their
   * current round since then, and how many such rounds have been completed.
   */
  datatype Watch = Watch(s: State, begun: seq<bool>, rounds: nat)

  ghost predicate WatchOk(v: Watch) {
    Inv(v.s) && |v.begun| == |v.s.workers|
  }

  ghost function Observe(v: Watch, step: Step): (v': Watch)
    requires WatchOk(v) && Enabled(v.s, step)
    ensures WatchOk(v')
  {
    var s' := Advance(v.s, step);
    SameWorkers(v.s, step);
    match step
    case Begin(w) => Watch(s', if s'.workers[w] == Scan(0) then v.begun[w := true] else v.begun, v.rounds)
    case EndRound(w) => Watch(s', v.begun[w := false], v.rounds + if v.begun[w] then 1 else 0)
    case _ => Watch(s', v.begun, v.rounds)
  }

  lemma SameWorkers(s: State, step: Step)
    requires Inv(s) && Enabled(s, step)
    ensures |Advance(s, step).workers| == |s.workers|
  {
  }

  /** The worker's round has already taken its turn at layer `l`. */
  predicate Passed(pc: WorkerPc, l: nat) {
    match pc
    case Scan(m) => m > l
    case Has(_, m) => m >= l
    case Ran(_, m) => m >= l
    case Locked(_, m) => m >= l
    case Signalled(_, m) => m >= l
    case _ => false
  }

  /** Watched rounds in progress that have had their turn at layer `l`. */
  function Turns(workers: seq<WorkerPc>, begun: seq<bool>, l: nat): nat
    requires |workers| == |begun|
  {
    if workers == [] then 0 else
      var n := |workers| - 1;
      Turns(workers[..n], begun[..n], l) + if begun[n] && Passed(workers[n], l) then 1 else 0
  }

  lemma {:induction false} TurnsUpdate(workers: seq<WorkerPc>, begun: seq<bool>, l: nat, w: nat, pc: WorkerPc, f: bool)
    requires |workers| == |begun| && w < |workers|
    ensures Turns(workers[w := pc], begun[w := f], l) ==
            Turns(workers, begun, l) - (if begun[w] && Passed(workers[w], l) then 1 else 0)
            + (if f && Passed(pc, l) then 1 else 0)
    decreases |workers|
  {
    var n := |workers| - 1;
    if w == n {
      assert workers[w := pc][..n] == workers[..n] && begun[w := f][..n] == begun[..n];
    } else {
      assert workers[w := pc][..n] == workers[..n][w := pc] && begun[w := f][..n] == begun[..n][w := f];
      TurnsUpdate(workers[..n], begun[..n], l, w, pc, f);
    }
  }

  /**
   * The watched job has been queued in layer `l`, and every turn taken there since the watch
   * began has moved it one place forward.
   */
  ghost predicate Progress(v: Watch, j: Job, l: nat, k: nat)
    requires WatchOk(v) && l < LAYERS
  {
    && j < |v.s.jobs| && v.s.jobs[j].place != NotQueued
    && (v.s.jobs[j].place.InLayer? ==>
          && v.s.jobs[j].place.l == l && j in v.s.layers[l]
          && IndexOf(v.s.layers[l], j) + v.rounds + Turns(v.s.workers, v.begun, l) <= k)
  }

  lemma {:induction false} IndexAfterAppend(s: seq<Job>, x: Job, y: Job)
    requires x in s
    ensures x in s + [y] && IndexOf(s + [y], x) == IndexOf(s, x)
  {
    var k := IndexOf(s, x);
    assert (s + [y])[k] == x;
    if s[0] != x {
      assert (s + [y])[1..] == s[1..] + [y];
      IndexAfterAppend(s[1..], x, y);
    }
  }

  /** A step that leaves the layers alone, moves one worker and keeps its turn. */
  lemma QuietProgress(v: Watch, v': Watch, j: Job, l: nat, k: nat, w: nat)
    requires WatchOk(v) && WatchOk(v') && l < LAYERS && w < |v.s.workers| == |v'.s.workers| && Progress(v, j, l, k)
    requires v'.s.layers[l] == v.s.layers[l] && v'.s.workers == v.s.workers[w := v'.s.workers[w]]
    requires v'.begun == v.begun[w := v'.begun[w]]
    requires j < |v'.s.jobs|
    requires v'.s.jobs[j].place == v.s.jobs[j].place || v'.s.jobs[j].place.With? || v'.s.jobs[j].place == Finished
    requires v'.rounds + (if v'.begun[w] && Passed(v'.s.workers[w], l) then 1 else 0)
             == v.rounds + (if v.begun[w] && Passed(v.s.workers[w], l) then 1 else 0)
    ensures Progress(v', j, l, k)
  {
    TurnsUpdate(v.s.workers, v.begun, l, w, v'.s.workers[w], v'.begun[w]);
  }

  lemma PopProgress(v: Watch, j: Job, l: nat, k: nat, w: nat)
    requires WatchOk(v) && l < LAYERS && Enabled(v.s, Pop(w)) && Progress(v, j, l, k)
    ensures Progress(Observe(v, Pop(w)), j, l, k)
  {
    InvShape(v.s);
    var v' := Observe(v, Pop(w));
    var m := v.s.workers[w].layer;
    assert LayerOk(v.s, m) && JobOk(v.s, j);
    if m == l && v.s.layers[l] != [] && v.s.jobs[j].place.InLayer? && v.s.layers[l][0] != j {
      assert IndexOf(v.s.layers[l], j) == 1 + IndexOf(v.s.layers[l][1..], j);
      TurnsUpdate(v.s.workers, v.begun, l, w, v'.s.workers[w], v.begun[w]);
      assert v.begun[w := v.begun[w]] == v.begun;
    } else if v.s.jobs[j].place.InLayer? && m != l {
      QuietProgress(v, v', j, l, k, w);
    }
  }

  lemma EnqueueProgress(v: Watch, j: Job, l: nat, k: nat, i: Job, p: int)
    requires WatchOk(v) && l < LAYERS && Enabled(v.s, Enqueue(i, p)) && Progress(v, j, l, k)
    ensures Progress(Observe(v, Enqueue(i, p)), j, l, k)
  {
    InvShape(v.s);
    assert JobOk(v.s, j) && JobOk(v.s, i);
    if v.s.jobs[j].place.InLayer? { IndexAfterAppend(v.s.layers[l], j, i); }
  }

  lemma ObserveProgress(v: Watch, step: Step, j: Job, l: nat, k: nat)
    requires WatchOk(v) && l < LAYERS && Enabled(v.s, step) && Progress(v, j, l, k)
    ensures Progress(Observe(v, step), j, l, k)
  {
    hide Inv, Turns, IndexOf, Progress, Observe, Enabled;
    match step
    case Enqueue(i, p) => EnqueueProgress(v, j, l, k, i, p);
    case Pop(w) => PopProgress(v, j, l, k, w);
    case Begin(w) => BeginProgress(v, j, l, k, w);
    case EndRound(w) => EndRoundProgress(v, j, l, k, w);
    case Execute(w) => CarryProgress(v, step, j, l, k, w);
    case LockJob(w) => CarryProgress(v, step, j, l, k, w);
    case SetDone(w) => CarryProgress(v, step, j, l, k, w);
    case UnlockJob(w) => CarryProgress(v, step, j, l, k, w);
    case _ => SubmitterProgress(v, step, j, l, k);
  }

  lemma BeginProgress(v: Watch, j: Job, l: nat, k: nat, w: nat)
    requires WatchOk(v) && l < LAYERS && Enabled(v.s, Begin(w)) && Progress(v, j, l, k)
    ensures Progress(Observe(v, Begin(w)), j, l, k)
  {
    InvShape(v.s);
    hide Inv, Turns, IndexOf;
    QuietProgress(v, Observe(v, Begin(w)), j, l, k, w);
  }

  lemma EndRoundProgress(v: Watch, j: Job, l: nat, k: nat, w: nat)
    requires WatchOk(v) && l < LAYERS && Enabled(v.s, EndRound(w)) && Progress(v, j, l, k)
    ensures Progress(Observe(v, EndRound(w)), j, l, k)
  {
    InvShape(v.s);
    hide Inv, Turns, IndexOf;
    QuietProgress(v, Observe(v, EndRound(w)), j, l, k, w);
  }

  /** A worker's step on the job it carries. */
  lemma CarryProgress(v: Watch, step: Step, j: Job, l: nat, k: nat, w: nat)
    requires step in {Execute(w), LockJob(w), SetDone(w), UnlockJob(w)}
    requires WatchOk(v) && l < LAYERS && Enabled(v.s, step) && Progress(v, j, l, k)
    ensures Progress(Observe(v, step), j, l, k)
  {
    InvShape(v.s);
    hide Inv, Turns, IndexOf;
    QuietProgress(v, Observe(v, step), j, l, k, w);
  }

  /** A submitter's step other than queueing its job, and shutting down. */
  lemma SubmitterProgress(v: Watch, step: Step, j: Job, l: nat, k: nat)
    requires !step.Enqueue? && !step.Pop? && !step.Begin? && !step.EndRound?
    requires !step.Execute? && !step.LockJob? && !step.SetDone? && !step.UnlockJob?
    requires WatchOk(v) && l < LAYERS && Enabled(v.s, step) && Progress(v, j, l, k)
    ensures Progress(Observe(v, step), j, l, k)
  {
    InvShape(v.s);
    hide Inv, Turns, IndexOf;
  }

  ghost function ObserveAll(v: Watch, steps: seq<Step>): (v': Watch)
    requires WatchOk(v) && IsRun(v.s, steps)
    ensures WatchOk(v') && v'.s == Run(v.s, steps)
    decreases |steps|
  {
    if steps == [] then v else
      assert Observe(v, steps[0]).s == Advance(v.s, steps[0]);
      ObserveAll(Observe(v, steps[0]), steps[1..])
  }

  lemma {:induction false} RunProgress(v: Watch, steps: seq<Step>, j: Job, l: nat, k: nat)
    requires WatchOk(v) && IsRun(v.s, steps) && l < LAYERS && Progress(v, j, l, k)
    ensures Progress(ObserveAll(v, steps), j, l, k)
    decreases |steps|
  {
    if steps != [] {
      ObserveProgress(v, steps[0], j, l, k);
      assert Observe(v, steps[0]).s == Advance(v.s, steps[0]);
      RunProgress(Observe(v, steps[0]), steps[1..], j, l, k);
    }
  }

  /**
   * A job with `k` jobs ahead of it in its layer has been handed to a worker by the time `k + 1`
   * rounds begun after that moment are complete, whatever else is queued
   * meanwhile and however many workers there are.
   */
  lemma NoStarvation(s: State, steps: seq<Step>, j: Job, l: nat, k: nat)
    requires Inv(s) && IsRun(s, steps) && l < LAYERS && k < |s.layers[l]| && s.layers[l][k] == j
    ensures var v := ObserveAll(Watch(s, seq(|s.workers|, i => false), 0), steps);
            v.rounds > k ==> Dispatched(v.s, j)
  {
    var v0 := Watch(s, seq(|s.workers|, i => false), 0);
    assert LayerOk(s, l) && JobOk(s, j);
    assert IndexOf(s.layers[l], j) == k;
    NoTurnsYet(s.workers, l);
    RunProgress(v0, steps, j, l, k);
  }

  /** The job has left the queue for a worker. */
  predicate Dispatched(s: State, j: Job) {
    j < |s.jobs| && (s.jobs[j].place.With? || s.jobs[j].place == Finished)
  }

  lemma {:induction false} NoTurnsYet(workers: seq<WorkerPc>, l: nat)
    ensures Turns(workers, seq(|workers|, i => false), l) == 0
  {
    if workers != [] {
      var n := |workers| - 1;
      assert seq(|workers|, i => false)[..n] == seq(n, i => false);
      NoTurnsYet(workers[..n], l);
    }
  }
}

/** The layers of the pool are the multi-level queue's, with the job as each task's argument. */
module PoolQueue {
  import opened Basics
  import opened Seqs
  import Q = QueueSpec
  import F = QueueFifo
  import ThreadPool

  function ArgsOf(tasks: seq<Q.Task>): (r: seq<nat>)
    ensures |r| == |tasks|
  {
    seq(|tasks|, i requires 0 <= i < |tasks| => tasks[i].arg)
  }

  ghost function Layers(q: Q.Queue): (r: seq<seq<nat>>)
    requires Q.Inv(q)
    ensures |r| == ThreadPool.LAYERS
  {
    [ArgsOf(F.Tasks(q)[0]), ArgsOf(F.Tasks(q)[1]), ArgsOf(F.Tasks(q)[2]), ArgsOf(F.Tasks(q)[3])]
  }

  /** The pool's enqueue step is pq_push with the job's own priority, refusals included. */
  lemma EnqueueIsPush(s: ThreadPool.State, q: Q.Queue, j: nat, p: int, fn: nat)
    requires ThreadPool.Inv(s) && Q.Inv(q) && s.layers == Layers(q) && ThreadPool.Enabled(s, ThreadPool.Enqueue(j, p))
    ensures ThreadPool.Shape(s) && Q.Inv(Q.Push(q, p, fn, j))
    ensures var t := ThreadPool.Next(s, ThreadPool.Enqueue(j, p));
            && t.layers == Layers(Q.Push(q, p, fn, j))
            && t.jobs[j].pc == ThreadPool.ToLock
            && t.jobs[j].place == if Q.CanPush(q, p) then ThreadPool.InLayer(p) else ThreadPool.NotQueued
  {
    ThreadPool.InvShape(s);
    assert ThreadPool.JobOk(s, j);
    PushOnLayers(q, p, fn, j);
    hide Q.Inv, Q.Push, Layers, ThreadPool.Inv;
  }

  lemma PushOnLayers(q: Q.Queue, p: int, fn: nat, job: nat)
    requires Q.Inv(q)
    ensures Q.Inv(Q.Push(q, p, fn, job))
    ensures var full := ThreadPool.Count(Layers(q)) >= ThreadPool.CAPACITY;
            && (Q.CanPush(q, p) <==> !full && 0 <= p < ThreadPool.LAYERS)
            && Layers(Q.Push(q, p, fn, job)) ==
               if full || p < 0 || p >= ThreadPool.LAYERS then Layers(q) else Layers(q)[p := Layers(q)[p] + [job]]
  {
    F.PushAppends(q, p, fn, job);
    F.InvShape(q);
    hide Q.Inv, Q.Push;
    assert forall l :: 0 <= l < 4 ==> |F.Tasks(q)[l]| == |q.layers[l]|;
    if Q.CanPush(q, p) {
      assert ArgsOf(F.Tasks(q)[p] + [F.Stored(q, p, fn, job)]) == ArgsOf(F.Tasks(q)[p]) + [job];
    }
  }

  /** The pool's pop step is pq_pop_from_layer: the worker gets exactly the job of the task that was popped. */
  lemma PopIsPopLayer(s: ThreadPool.State, q: Q.Queue, w: nat)
    requires ThreadPool.Inv(s) && Q.Inv(q) && s.layers == Layers(q) && ThreadPool.Enabled(s, ThreadPool.Pop(w))
    ensures ThreadPool.Shape(s) && Q.Inv(Q.PopLayer(q, s.workers[w].layer))
    ensures var l, t := s.workers[w].layer, ThreadPool.Next(s, ThreadPool.Pop(w));
            && t.layers == Layers(Q.PopLayer(q, l))
            && match Q.PoppedTask(q, l)
               case None => t.workers[w] == ThreadPool.Scan(l + 1) && t.jobs == s.jobs
               case Some(task) =>
                 && task.arg < |s.jobs| && t.workers[w] == ThreadPool.Has(task.arg, l)
                 && t.jobs == s.jobs[task.arg := s.jobs[task.arg].(place := ThreadPool.With(w))]
  {
    ThreadPool.InvShape(s);
    var l := s.workers[w].layer;
    assert ThreadPool.LayerOk(s, l);
    PopOnLayers(q, l);
    hide Q.Inv, Q.PopLayer, Q.PoppedTask, Layers, ThreadPool.Inv;
  }

  lemma PopOnLayers(q: Q.Queue, l: int)
    requires Q.Inv(q) && Q.IsLayer(l)
    ensures Q.Inv(Q.PopLayer(q, l))
    ensures Layers(q)[l] == [] <==> Q.PoppedTask(q, l) == None
    ensures Layers(q)[l] != [] ==> Q.PoppedTask(q, l).value.arg == Layers(q)[l][0]
    ensures Layers(Q.PopLayer(q, l)) ==
            if Layers(q)[l] == [] then Layers(q) else Layers(q)[l := Layers(q)[l][1..]]
  {
    F.PopTakesOldest(q, l);
    hide Q.Inv, Q.PopLayer, Q.PoppedTask;
    if Layers(q)[l] != [] {
      assert ArgsOf(F.Tasks(q)[l][1..]) == ArgsOf(F.Tasks(q)[l])[1..];
    }
  }

  // ----- whole runs

  /** What a step of the pool does to its queue: a push, a pop from a layer, or nothing. */
  ghost function QueueStep(s: ThreadPool.State, q: Q.Queue, step: ThreadPool.Step, fn: nat): (r: Q.Queue)
    requires Q.Inv(q) && ThreadPool.Inv(s) && ThreadPool.Enabled(s, step)
    ensures Q.Inv(r)
  {
    match step
    case Enqueue(j, p) => Q.Apply(q, Q.OpPush(p, fn, j))
    case Pop(w) => Q.Apply(q, Q.OpPopFromLayer(s.workers[w].layer))
    case _ => q
  }

  ghost function QueueRun(s: ThreadPool.State, q: Q.Queue, steps: seq<ThreadPool.Step>, fn: nat): (r: Q.Queue)
    requires Q.Inv(q) && ThreadPool.Inv(s) && ThreadPool.IsRun(s, steps)
    ensures Q.Inv(r)
    decreases |steps|
  {
    if steps == [] then q
    else QueueRun(ThreadPool.Advance(s, steps[0]), QueueStep(s, q, steps[0], fn), steps[1..], fn)
  }

  lemma StepFollows(s: ThreadPool.State, q: Q.Queue, step: ThreadPool.Step, fn: nat)
    requires Q.Inv(q) && ThreadPool.Inv(s) && ThreadPool.Enabled(s, step) && s.layers == Layers(q)
    ensures ThreadPool.Advance(s, step).layers == Layers(QueueStep(s, q, step, fn))
  {
    match step
    case Enqueue(j, p) => EnqueueIsPush(s, q, j, p, fn);
    case Pop(w) => PopIsPopLayer(s, q, w);
    case _ => ThreadPool.InvShape(s);
  }

  /** Over every run of the pool, its layers are those of one queue that is only pushed to and popped from. */
  lemma {:induction false} PoolRunsOnTheQueue(s: ThreadPool.State, q: Q.Queue, steps: seq<ThreadPool.Step>, fn: nat)
    requires Q.Inv(q) && ThreadPool.Inv(s) && ThreadPool.IsRun(s, steps) && s.layers == Layers(q)
    ensures ThreadPool.Run(s, steps).layers == Layers(QueueRun(s, q, steps, fn))
    decreases |steps|
  {
    hide Q.Inv, ThreadPool.Inv, Layers, QueueStep, ThreadPool.Enabled;
    if steps != [] {
      StepFollows(s, q, steps[0], fn);
      PoolRunsOnTheQueue(ThreadPool.Advance(s, steps[0]), QueueStep(s, q, steps[0], fn), steps[1..], fn);
    }
  }
}
