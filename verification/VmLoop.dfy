/** The run loop over the multi-level queue, as the machine executes it. */
module VmLoop {
  import opened Basics
  import opened QueueSpec
  import opened QueueFifo
  import opened PriorityQueue
  import M = VmMachine
  import S = VmSnapshot
  import R = VmRun

  // The task functions; a null pointer is 0.
  const CPU := 1
  const DISPLAY := 2
  const TIMER := 3
  const CHECKPOINT := 4

  // ----- the queue as lists of task functions

  function FnsIn(tasks: seq<Task>): (r: seq<nat>)
    ensures |r| == |tasks|
  {
    seq(|tasks|, i requires 0 <= i < |tasks| => tasks[i].fn)
  }

  /** What waits in each layer. */
  ghost predicate Waiting(q: Queue, fns: seq<seq<nat>>) {
    Inv(q) && |fns| == NUM_PRIORITIES && forall l :: IsLayer(l) ==> FnsIn(Tasks(q)[l]) == fns[l]
  }

  function Total(fns: seq<seq<nat>>): nat
    requires |fns| == NUM_PRIORITIES
  {
    |fns[0]| + |fns[1]| + |fns[2]| + |fns[3]|
  }

  function Added(fns: seq<seq<nat>>, layer: int, fn: nat): seq<seq<nat>>
    requires IsLayer(layer) && |fns| == NUM_PRIORITIES
  {
    fns[layer := fns[layer] + [fn]]
  }

  lemma WaitingTotal(q: Queue, fns: seq<seq<nat>>)
    requires Waiting(q, fns)
    ensures Count(q) == Total(fns)
  {
    hide Inv;
    InvShape(q);
    assert IsLayer(0) && IsLayer(1) && IsLayer(2) && IsLayer(3);
  }

  lemma WaitingPush(q: Queue, fns: seq<seq<nat>>, priority: int, fn: nat)
    requires Waiting(q, fns) && IsLayer(priority) && Total(fns) < MAX_ITEMS
    ensures CanPush(q, priority)
    ensures Waiting(Push(q, priority, fn, 0), Added(fns, priority, fn))
  {
    InvShape(q);
    WaitingTotal(q, fns);
    PushAppends(q, priority, fn, 0);
    hide Inv, Push, CanPush, Tasks;
  }

  lemma WaitingPop(q: Queue, fns: seq<seq<nat>>, l: int)
    requires Waiting(q, fns) && IsLayer(l)
    ensures PoppedTask(q, l).Some? <==> fns[l] != []
    ensures fns[l] != [] ==> PoppedTask(q, l).value.fn == fns[l][0]
    ensures Waiting(PopLayer(q, l), Popped(fns, l))
  {
    InvShape(q);
    PopTakesOldest(q, l);
    hide Inv, PopLayer, PoppedTask, HasLayer, Tasks;
  }

  lemma WaitingInit()
    ensures Waiting(Init(), [[], [], [], []])
  {
    InitInv();
    hide Inv;
  }

  // ----- one round, layer by layer

  /** The machine after the first `layer` layers of a round started at `v` have been served. */
  function After(o: M.Oracle, room: bool, v: R.Vm, layer: int): R.Vm {
    if layer <= 0 then v else
      var m1 := M.RunStep(o, v.m, R.QUANTUM);
      if m1.host.cpu.halted then v.(m := m1) else
        var w := R.Vm(if layer <= 2 then m1 else R.Tick(m1), v.snap, v.cycles + 1);
        if layer <= 3 then w else R.Checkpoint(w, room)
  }

  const EMPTY: seq<seq<nat>> := [[], [], [], []]
  const ONE_CPU_TASK: seq<seq<nat>> := [[CPU], [], [], []]

  /** What a CPU quantum leaves queued, after `cycles` of them in all. */
  function Followers(cycles: nat): seq<seq<nat>> {
    [[CPU], [DISPLAY], [TIMER], if cycles % R.CHECKPOINT_INTERVAL == 0 then [CHECKPOINT] else []]
  }

  /** What is queued when the first `layer` layers of a round have been served; never more than four tasks. */
  function Left(v: R.Vm, layer: int): (fns: seq<seq<nat>>)
    ensures |fns| == NUM_PRIORITIES && Total(fns) <= 4
  {
    if layer <= 0 then ONE_CPU_TASK
    else if R.Halted(v) then EMPTY
    else [[CPU],
          if layer <= 1 then [DISPLAY] else [],
          if layer <= 2 then [TIMER] else [],
          if layer <= 3 then Followers(v.cycles)[3] else []]
  }

  /** The effect of one task, and of counting the cycle after a CPU quantum that has not halted. */
  function Ran(o: M.Oracle, room: bool, v: R.Vm, fn: nat): R.Vm {
    if fn == CPU then
      var m1 := M.RunStep(o, v.m, R.QUANTUM);
      R.Vm(m1, v.snap, if m1.host.cpu.halted then v.cycles else v.cycles + 1)
    else if fn == TIMER then v.(m := R.Tick(v.m))
    else if fn == CHECKPOINT then v.(snap := S.Save(v.snap, v.m.host, room).0)
    else v
  }

  /** The task function at the head of a layer; 0 when it is empty. */
  function HeadFn(fns: seq<seq<nat>>, layer: int): nat
    requires IsLayer(layer) && |fns| == NUM_PRIORITIES
  {
    if fns[layer] == [] then 0 else fns[layer][0]
  }

  /** Running the head of the next layer is the next step of the round. */
  lemma NextLayer(o: M.Oracle, room: bool, v: R.Vm, layer: int)
    requires IsLayer(layer)
    ensures var w := After(o, room, v, layer);
            var fn := HeadFn(Left(w, layer), layer);
            && After(o, room, v, layer + 1) == Ran(o, room, w, fn)
            && (fn == CPU <==> layer == 0)
  {
    hide M.RunStep, S.Save;
  }

  /** A served layer has lost its oldest task. */
  function Popped(fns: seq<seq<nat>>, layer: int): seq<seq<nat>>
    requires IsLayer(layer) && |fns| == NUM_PRIORITIES
  {
    if fns[layer] == [] then fns else fns[layer := fns[layer][1..]]
  }

  lemma FollowersQueued()
    ensures var a, b, c := [[], [DISPLAY], [], []], [[CPU], [DISPLAY], [], []], [[CPU], [DISPLAY], [TIMER], []];
            && Added(EMPTY, 0, CPU) == ONE_CPU_TASK
            && Added(EMPTY, 1, DISPLAY) == a && Added(a, 0, CPU) == b && Added(b, 2, TIMER) == c
            && Added(c, 3, CHECKPOINT) == [[CPU], [DISPLAY], [TIMER], [CHECKPOINT]]
  {
    var none: seq<nat> := [];
    assert none + [CPU] == [CPU] && none + [DISPLAY] == [DISPLAY] && none + [TIMER] == [TIMER];
    assert none + [CHECKPOINT] == [CHECKPOINT];
  }

  lemma LeftPopped(w: R.Vm, w': R.Vm, layer: int)
    requires IsLayer(layer) && layer > 0 && R.Halted(w') == R.Halted(w) && w'.cycles == w.cycles
    ensures Left(w', layer + 1) == Popped(Left(w, layer), layer)
  {
    assert [DISPLAY][1..] == [] && [TIMER][1..] == [] && [CHECKPOINT][1..] == [];
    var a, b := Left(w', layer + 1), Popped(Left(w, layer), layer);
    assert a[0] == b[0] && a[1] == b[1] && a[2] == b[2] && a[3] == b[3];
  }

  /** Serving a layer only takes its task, except for a CPU quantum that has not halted. */
  lemma LeftNext(o: M.Oracle, room: bool, v: R.Vm, layer: int)
    requires IsLayer(layer)
    ensures var w, w' := After(o, room, v, layer), After(o, room, v, layer + 1);
            var popped := Popped(Left(w, layer), layer);
            && Left(w', layer + 1) == (if layer == 0 && !R.Halted(w') then Followers(w'.cycles) else popped)
            && (layer == 0 ==> popped == EMPTY)
  {
    hide M.RunStep, S.Save;
    var w, w' := After(o, room, v, layer), After(o, room, v, layer + 1);
    if layer == 0 {
      assert ONE_CPU_TASK[0][1..] == [] && ONE_CPU_TASK[0 := []] == EMPTY;
    } else {
      assert R.Halted(w') == R.Halted(w) && w'.cycles == w.cycles;
      LeftPopped(w, w', layer);
    }
  }

  class RunLoop {
    const pq: MultiLevelQueue
    var m: M.Machine
    var snap: S.Snapshot
    var runCycles: nat

    constructor (m0: M.Machine, snap0: S.Snapshot)
      ensures fresh(pq) && fresh(pq.Repr()) && pq.Valid()
      ensures m == m0 && snap == snap0 && runCycles == 0
    {
      m, snap, runCycles := m0, snap0, 0;
      pq := new MultiLevelQueue();
    }

    ghost function State(): R.Vm
      reads this
    {
      R.Vm(m, snap, runCycles)
    }

    /** The queue is sound and holds exactly these tasks. */
    ghost predicate Holds(fns: seq<seq<nat>>)
      reads pq.Repr()
    {
      pq.Valid() && Waiting(pq.view, fns)
    }

    // ----- the task functions

    /** vm_run_step */
    method RunStep(o: M.Oracle, max: nat)
      modifies this`m
      ensures m == M.RunStep(o, old(m), max)
    {
      hide M.Step;
      var count := 0;
      while count < max && !m.host.cpu.halted
        invariant count <= max
        invariant M.RunStep(o, m, max - count) == M.RunStep(o, old(m), max)
      {
        var next := M.Step(o, m);
        if next.None? {
          break;
        }
        m := next.value;
        count := count + 1;
      }
    }

    /** The body of the scan for one task, up to its pushes. */
    method RunTask(o: M.Oracle, room: bool, fn: nat)
      modifies this
      ensures State() == Ran(o, room, old(State()), fn)
    {
      hide M.RunStep, S.Save;
      if fn == CPU {
        RunStep(o, R.QUANTUM);
        if !m.host.cpu.halted {
          runCycles := runCycles + 1;
        }
      } else if fn == TIMER {
        m := R.Tick(m);
      } else if fn == CHECKPOINT {
        snap := S.Save(snap, m.host, room).0;
      }
    }

    // ----- the queue

    /** A push that cannot fail: the queue is nowhere near full. */
    method Enqueue(priority: int, fn: nat, ghost fns: seq<seq<nat>>)
      requires Holds(fns) && IsLayer(priority) && Total(fns) <= 4
      modifies pq.Repr()
      ensures Holds(Added(fns, priority, fn))
    {
      hide Waiting, Inv, MultiLevelQueue.Valid;
      WaitingPush(pq.view, fns, priority, fn);
      var h := pq.Push(priority, fn, 0);
    }

    /** pq_init and one CPU task. */
    method Restart()
      requires pq.Arrays()
      modifies pq.Repr()
      ensures Holds(ONE_CPU_TASK)
    {
      hide Waiting, Inv, MultiLevelQueue.Valid;
      pq.Init();
      WaitingInit();
      FollowersQueued();
      Enqueue(0, CPU, EMPTY);
    }

    /** What follows a CPU quantum that has not halted. */
    method Requeue()
      requires Holds(EMPTY)
      modifies pq.Repr()
      ensures Holds(Followers(runCycles))
    {
      hide Holds, Added;
      FollowersQueued();
      Enqueue(1, DISPLAY, EMPTY);
      Enqueue(0, CPU, [[], [DISPLAY], [], []]);
      Enqueue(2, TIMER, [[CPU], [DISPLAY], [], []]);
      if runCycles % R.CHECKPOINT_INTERVAL == 0 {
        Enqueue(3, CHECKPOINT, [[CPU], [DISPLAY], [TIMER], []]);
      }
    }

    // ----- the loops

    /** One layer of the scan. */
    method ServeLayer(o: M.Oracle, room: bool, layer: int, ghost v: R.Vm)
      requires IsLayer(layer) && State() == After(o, room, v, layer) && Holds(Left(State(), layer))
      modifies this, pq.Repr()
      ensures State() == After(o, room, v, layer + 1) && Holds(Left(State(), layer + 1))
    {
      hide Holds, Left, After, Ran, Popped, HeadFn;
      ghost var before := State();
      NextLayer(o, room, v, layer);
      LeftNext(o, room, v, layer);
      var fn := TakeTask(layer, Left(before, layer));
      RunTask(o, room, fn);
      if fn == CPU && !m.host.cpu.halted {
        Requeue();
      }
    }

    /** pq_pop_from_layer; 0 when the layer is empty. */
    method TakeTask(layer: int, ghost fns: seq<seq<nat>>) returns (fn: nat)
      requires IsLayer(layer) && Holds(fns)
      modifies pq.Repr()
      ensures |fns| == NUM_PRIORITIES && Holds(Popped(fns, layer))
      ensures fn == HeadFn(fns, layer)
    {
      WaitingPop(pq.view, fns, layer);
      hide Inv, MultiLevelQueue.Valid;
      var task := pq.PopFromLayer(layer);
      fn := if task.None? then 0 else task.value.fn;
    }

    /** One round of the scan serves each layer once and leaves the queue as it was found, or empty on HLT. */
    method ServeRound(o: M.Oracle, room: bool)
      requires Holds(ONE_CPU_TASK)
      modifies this, pq.Repr()
      ensures State() == R.Round(o, room, old(State()))
      ensures Holds(if R.Halted(State()) then EMPTY else ONE_CPU_TASK)
    {
      hide Holds, M.RunStep, S.Save;
      ghost var v := State();
      for layer := 0 to NUM_PRIORITIES
        invariant State() == After(o, room, v, layer) && Holds(Left(State(), layer))
      {
        ServeLayer(o, room, layer, v);
      }
    }

    /** vm_run_cycles */
    method RunCycles(o: M.Oracle, room: bool, max: nat)
      requires pq.Arrays()
      modifies this, pq.Repr()
      ensures State() == R.RunCycles(o, room, R.Vm(old(m), old(snap), 0), max)
      ensures !R.Halted(State()) ==> Holds(ONE_CPU_TASK)
    {
      hide Holds, R.Round, R.HostReset;
      runCycles := 0;
      Restart();
      ghost var start := State();
      while !m.host.cpu.halted && runCycles < max
        invariant R.RunCycles(o, room, State(), max) == R.RunCycles(o, room, start, max)
        invariant runCycles <= max
        invariant !m.host.cpu.halted ==> Holds(ONE_CPU_TASK)
        decreases max - runCycles, !m.host.cpu.halted, m.reset
      {
        if m.reset {
          m := R.HandleReset(m);
          Restart();
          continue;
        }
        var n := CountTasks(ONE_CPU_TASK);
        if n == 0 {
          break;
        }
        R.RoundCounts(o, room, State());
        ServeRound(o, room);
      }
    }

    /** pq_count */
    method CountTasks(ghost fns: seq<seq<nat>>) returns (n: int)
      requires Holds(fns)
      ensures |fns| == NUM_PRIORITIES && n == Total(fns)
    {
      WaitingTotal(pq.view, fns);
      n := pq.CountAll();
    }
  }
}
