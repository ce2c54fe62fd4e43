/** The multi-level queue as its callers see it: four first-in first-out lists of tasks. */
module QueueFifo {
  import opened Basics
  import opened Seqs
  import opened QueueSpec

  /** The tasks in the given slots. */
  function TasksIn(layer: seq<int>, slots: seq<Task>): (r: seq<Task>)
    requires forall i :: 0 <= i < |layer| ==> 0 <= layer[i] < |slots|
    ensures |r| == |layer|
  {
    seq(|layer|, i requires 0 <= i < |layer| => slots[layer[i]])
  }

  ghost function LayerTasks(q: Queue, l: int): (r: seq<Task>)
    requires Inv(q) && IsLayer(l)
    ensures |r| == |q.layers[l]|
  {
    SlotsInLayer(q, l);
    TasksIn(q.layers[l], q.slots)
  }

  /** The tasks of each layer, oldest first. */
  ghost function Tasks(q: Queue): (r: seq<seq<Task>>)
    requires Inv(q)
    ensures |r| == NUM_PRIORITIES
    ensures forall l :: IsLayer(l) ==> r[l] == LayerTasks(q, l)
  {
    seq(NUM_PRIORITIES, l requires 0 <= l < NUM_PRIORITIES => LayerTasks(q, l))
  }

  lemma SlotsInLayer(q: Queue, l: int)
    requires Inv(q) && IsLayer(l)
    ensures forall i :: 0 <= i < |q.layers[l]| ==>
              IsSlot(q.layers[l][i]) && q.slots[q.layers[l][i]].priority == l && Queued(q, q.layers[l][i])
  {
    assert LayerOk(q, l);
    assert forall i :: 0 <= i < |q.layers[l]| ==> q.layers[l][i] in q.layers[l];
  }

  lemma TasksElsewhere(layer: seq<int>, slots: seq<Task>, s: int, t: Task)
    requires forall i :: 0 <= i < |layer| ==> 0 <= layer[i] < |slots| && layer[i] != s
    requires 0 <= s < |slots|
    ensures TasksIn(layer, slots[s := t]) == TasksIn(layer, slots)
  {
  }

  lemma TasksRemoveAt(layer: seq<int>, slots: seq<Task>, k: nat)
    requires k < |layer| && forall i :: 0 <= i < |layer| ==> 0 <= layer[i] < |slots|
    ensures TasksIn(RemoveAt(layer, k), slots) == RemoveAt(TasksIn(layer, slots), k)
  {
  }

  // ----- push

  /** The task an accepted push stores. */
  function Stored(q: Queue, priority: int, fn: nat, arg: nat): Task {
    Task(fn, arg, priority, Seq32(|q.history|), 0, 0)
  }

  /** A push appends to its layer, unless the queue is full or the priority is out of range. */
  lemma PushAppends(q: Queue, priority: int, fn: nat, arg: nat)
    requires Inv(q)
    ensures Inv(Push(q, priority, fn, arg))
    ensures CanPush(q, priority) <==> IsLayer(priority) && Count(q) < MAX_ITEMS
    ensures Tasks(Push(q, priority, fn, arg)) ==
            if CanPush(q, priority) then Tasks(q)[priority := Tasks(q)[priority] + [Stored(q, priority, fn, arg)]]
            else Tasks(q)
  {
    PushInv(q, priority, fn, arg);
    if CanPush(q, priority) {
      var r := Push(q, priority, fn, arg);
      forall l | IsLayer(l)
        ensures LayerTasks(r, l) ==
                if l == priority then LayerTasks(q, l) + [Stored(q, priority, fn, arg)] else LayerTasks(q, l)
      {
        PushLayer(q, priority, fn, arg, l);
      }
      hide Inv;
    }
  }

  lemma PushLayer(q: Queue, priority: int, fn: nat, arg: nat, l: int)
    requires Inv(q) && Inv(Push(q, priority, fn, arg)) && CanPush(q, priority) && IsLayer(l)
    ensures LayerTasks(Push(q, priority, fn, arg), l)
            == if l == priority then LayerTasks(q, l) + [Stored(q, priority, fn, arg)] else LayerTasks(q, l)
  {
    var s := NextSlot(q);
    SlotsInLayer(q, l);
    assert forall i :: 0 <= i < |q.layers[l]| ==> q.layers[l][i] != s;
    hide Inv;
    TasksElsewhere(q.layers[l], q.slots, s, Stored(q, priority, fn, arg));
  }

  // ----- pop and remove

  /** Removing a queued task deletes it in place and leaves everything else in order. */
  lemma ReleaseDeletes(q: Queue, s: int)
    requires Inv(q) && IsSlot(s) && Queued(q, s)
    ensures Inv(Release(q, s))
    ensures var l := q.slots[s].priority;
            var k := IndexOf(q.layers[l], s);
            k < |Tasks(q)[l]| && Tasks(Release(q, s)) == Tasks(q)[l := RemoveAt(Tasks(q)[l], k)]
  {
    ReleaseInv(q, s);
    var l := q.slots[s].priority;
    var r, k := Release(q, s), IndexOf(q.layers[l], s);
    assert Shape(q) && IsLayer(l) && |Tasks(q)[l]| == |q.layers[l]|;
    hide Inv, Release, RemoveAt, IndexOf, LayerTasks;
    forall m | IsLayer(m)
      ensures LayerTasks(r, m) == if m == l then RemoveAt(LayerTasks(q, l), k) else LayerTasks(q, m)
    {
      ReleaseLayer(q, s, m);
    }
  }

  lemma ReleaseLayer(q: Queue, s: int, m: int)
    requires Shape(q) && Inv(q) && IsSlot(s) && Queued(q, s) && Inv(Release(q, s)) && IsLayer(m)
    ensures var l := q.slots[s].priority;
            LayerTasks(Release(q, s), m) ==
            if m == l then RemoveAt(LayerTasks(q, l), IndexOf(q.layers[l], s)) else LayerTasks(q, m)
  {
    hide Inv, Queued, RemoveAt, IndexOf, TasksIn;
    var l := q.slots[s].priority;
    var rest := if m == l then Without(q.layers[l], s) else q.layers[m];
    NotInRest(q, s, m, rest);
    TasksElsewhere(rest, q.slots, s, ZERO_TASK);
    SlotsInLayer(q, m);
    if m == l { TasksRemoveAt(q.layers[l], q.slots, IndexOf(q.layers[l], s)); }
  }

  lemma NotInRest(q: Queue, s: int, m: int, rest: seq<int>)
    requires Inv(q) && IsSlot(s) && Queued(q, s) && IsLayer(m)
    requires rest == if m == q.slots[s].priority then Without(q.layers[m], s) else q.layers[m]
    ensures Shape(q)
    ensures forall i :: 0 <= i < |rest| ==> IsSlot(rest[i]) && rest[i] != s
  {
    SlotsInLayer(q, m);
    assert LayerOk(q, m);
  }

  /** Popping from a layer takes its oldest task. */
  lemma PopTakesOldest(q: Queue, l: int)
    requires Inv(q) && IsLayer(l)
    ensures Inv(PopLayer(q, l))
    ensures HasLayer(q, l) <==> Tasks(q)[l] != []
    ensures PoppedTask(q, l) == if HasLayer(q, l) then Some(Tasks(q)[l][0]) else None
    ensures Tasks(PopLayer(q, l)) == if HasLayer(q, l) then Tasks(q)[l := Tasks(q)[l][1..]] else Tasks(q)
  {
    SlotsInLayer(q, l);
    PopLayerInv(q, l);
    hide Inv;
    if HasLayer(q, l) {
      ReleaseDeletes(q, Head(q, l));
      assert IndexOf(q.layers[l], q.layers[l][0]) == 0;
      assert RemoveAt(Tasks(q)[l], 0) == Tasks(q)[l][1..];
    }
  }

  // ----- change of priority

  /** A change of priority takes the task out of its layer and appends it to the new one. */
  lemma MoveRequeues(q: Queue, s: int, to: int)
    requires Inv(q) && IsSlot(s) && Queued(q, s) && IsLayer(to) && to != q.slots[s].priority
    ensures Inv(Move(q, s, to))
    ensures var l := q.slots[s].priority;
            var k := IndexOf(q.layers[l], s);
            && k < |Tasks(q)[l]|
            && Tasks(Move(q, s, to)) ==
               Tasks(q)[l := RemoveAt(Tasks(q)[l], k)][to := Tasks(q)[to] + [q.slots[s].(priority := to)]]
  {
    InvShape(q);
    hide Inv;
    MoveInv(q, s, to);
    var l := q.slots[s].priority;
    var k := IndexOf(q.layers[l], s);
    var target := Tasks(q)[l := RemoveAt(Tasks(q)[l], k)][to := Tasks(q)[to] + [q.slots[s].(priority := to)]];
    forall m | IsLayer(m) ensures Tasks(Move(q, s, to))[m] == target[m] {
      MoveLayerTasks(q, s, to, m);
    }
    assert Tasks(Move(q, s, to)) == target by {
      hide *;
      assert |target| == |Tasks(Move(q, s, to))| == NUM_PRIORITIES;
      AllLayers(Tasks(Move(q, s, to)), target);
    }
  }

  lemma AllLayers(a: seq<seq<Task>>, b: seq<seq<Task>>)
    requires |a| == |b| == NUM_PRIORITIES && forall m :: IsLayer(m) ==> a[m] == b[m]
    ensures a == b
  {
    assert a[0] == b[0] && a[1] == b[1] && a[2] == b[2] && a[3] == b[3] by {
      assert IsLayer(0) && IsLayer(1) && IsLayer(2) && IsLayer(3);
    }
  }

  lemma InvShape(q: Queue)
    requires Inv(q)
    ensures Shape(q)
  {
  }

  lemma MoveLayerTasks(q: Queue, s: int, to: int, m: int)
    requires Shape(q) && Inv(q) && IsSlot(s) && Queued(q, s) && IsLayer(to) && to != q.slots[s].priority
    requires Inv(Move(q, s, to)) && IsLayer(m)
    ensures var l := q.slots[s].priority;
            LayerTasks(Move(q, s, to), m) ==
            if m == l then RemoveAt(LayerTasks(q, l), IndexOf(q.layers[l], s))
            else if m == to then LayerTasks(q, to) + [q.slots[s].(priority := to)]
            else LayerTasks(q, m)
  {
    hide Inv;
    var l := q.slots[s].priority;
    var rest := if m == l then Without(q.layers[l], s) else q.layers[m];
    NotInRest(q, s, m, rest);
    TasksElsewhere(rest, q.slots, s, q.slots[s].(priority := to));
    SlotsInLayer(q, m);
    if m == l { TasksRemoveAt(q.layers[l], q.slots, IndexOf(q.layers[l], s)); }
  }

  // ----- what the operations on a handle do

  /** Where the task of a valid handle stands: its layer and its position there. */
  lemma HandleStands(q: Queue, h: int)
    requires Inv(q) && HandleValid(q, h)
    ensures var s := HandleSlot(h);
            && IsSlot(s) && Queued(q, s) && IsLayer(q.slots[s].priority)
            && var p := q.slots[s].priority;
               var k := IndexOf(q.layers[p], s);
               k < |Tasks(q)[p]| && Tasks(q)[p][k] == q.slots[s]
  {
    ValidHandleIsQueued(q, h);
    SlotsInLayer(q, q.slots[HandleSlot(h)].priority);
  }

  /**
   * pq_update on an accepted handle and priority: nothing when the priority is the task's own, and otherwise the task
   * leaves its place and goes to the end of the new layer, whichever way it moves.
   */
  lemma UpdateRequeues(q: Queue, h: int, l: int)
    requires Inv(q) && CanUpdate(q, h, l)
    ensures Inv(Update(q, h, l)) && IsSlot(HandleSlot(h)) && Queued(q, HandleSlot(h))
    ensures var s := HandleSlot(h);
            var p, k := q.slots[s].priority, IndexOf(q.layers[q.slots[s].priority], s);
            && k < |Tasks(q)[p]| && Tasks(q)[p][k] == q.slots[s]
            && Tasks(Update(q, h, l)) ==
               if p == l then Tasks(q)
               else Tasks(q)[p := RemoveAt(Tasks(q)[p], k)][l := Tasks(q)[l] + [Tasks(q)[p][k].(priority := l)]]
  {
    HandleStands(q, h);
    UpdateInv(q, h, l);
    hide Inv, RemoveAt, IndexOf, Move, HandleSlot, HandleValid;
    if q.slots[HandleSlot(h)].priority != l { MoveRequeues(q, HandleSlot(h), l); }
  }

  /** pq_remove on a valid handle deletes its task in place. */
  lemma RemoveDeletes(q: Queue, h: int)
    requires Inv(q) && HandleValid(q, h)
    ensures Inv(Remove(q, h)) && IsSlot(HandleSlot(h)) && Queued(q, HandleSlot(h))
    ensures var s := HandleSlot(h);
            var p, k := q.slots[s].priority, IndexOf(q.layers[q.slots[s].priority], s);
            && k < |Tasks(q)[p]| && Tasks(q)[p][k] == q.slots[s]
            && Tasks(Remove(q, h)) == Tasks(q)[p := RemoveAt(Tasks(q)[p], k)]
  {
    HandleStands(q, h);
    RemoveInv(q, h);
    ReleaseDeletes(q, HandleSlot(h));
    hide Inv, RemoveAt, IndexOf, Release, HandleSlot, HandleValid;
  }

  /** pq_set_quantum on a valid handle changes the quantum of its task, where it stands. */
  lemma SetQuantumSets(q: Queue, h: int, quantum: nat)
    requires Inv(q) && HandleValid(q, h)
    ensures Inv(SetQuantum(q, h, quantum)) && IsSlot(HandleSlot(h)) && Queued(q, HandleSlot(h))
    ensures var s := HandleSlot(h);
            var p, k := q.slots[s].priority, IndexOf(q.layers[q.slots[s].priority], s);
            && k < |Tasks(q)[p]| && Tasks(q)[p][k] == q.slots[s]
            && Tasks(SetQuantum(q, h, quantum)) == Tasks(q)[p := Tasks(q)[p][k := Tasks(q)[p][k].(quantum := quantum)]]
  {
    HandleStands(q, h);
    SetQuantumInv(q, h, quantum);
    var s, r := HandleSlot(h), SetQuantum(q, h, quantum);
    var p := q.slots[s].priority;
    var k := IndexOf(q.layers[p], s);
    InvShape(q);
    var target := Tasks(q)[p := Tasks(q)[p][k := Tasks(q)[p][k].(quantum := quantum)]];
    forall m | IsLayer(m) ensures Tasks(r)[m] == target[m] {
      SlotsInLayer(q, m);
      SetInLayer(q.layers[m], q.slots, s, q.slots[s].(quantum := quantum));
      assert LayerOk(q, m);
    }
    hide *;
    AllLayers(Tasks(r), target);
  }

  /** A store into one slot shows in a layer exactly at the position of that slot. */
  lemma SetInLayer(layer: seq<int>, slots: seq<Task>, s: int, t: Task)
    requires forall i :: 0 <= i < |layer| ==> 0 <= layer[i] < |slots|
    requires 0 <= s < |slots| && Distinct(layer)
    ensures TasksIn(layer, slots[s := t])
            == if s in layer then TasksIn(layer, slots)[IndexOf(layer, s) := t] else TasksIn(layer, slots)
  {
  }

  /** A handle is valid exactly when it is not negative and its low byte and high half name a task in the queue. */
  lemma HandleValidIff(q: Queue, h: int)
    requires Inv(q)
    ensures HandleValid(q, h) <==>
            h >= 0 && exists n :: 0 <= n < |q.history| && StillQueued(q, n) && q.history[n].fn != 0
                                  && h % 256 == q.history[n].slot && h / 0x1_0000 % 0x1_0000 == n % 0x1_0000
  {
    HandleParts(h);
    var s := HandleSlot(h);
    hide HandleSlot, HandleGen;
    if HandleValid(q, h) {
      assert SlotOk(q, s);
      var n := q.born[s];
      assert StillQueued(q, n) && q.history[n].fn != 0;
    }
    if h >= 0 {
      forall n | 0 <= n < |q.history| && StillQueued(q, n) && q.history[n].fn != 0
                 && h % 256 == q.history[n].slot && h / 0x1_0000 % 0x1_0000 == n % 0x1_0000
        ensures HandleValid(q, h)
      {
        assert SlotOk(q, q.history[n].slot);
      }
    }
  }

  lemma HandleParts(h: int)
    ensures h >= 0 ==> HandleSlot(h) == h % 256 && HandleGen(h) == h / 0x1_0000 % 0x1_0000
  {
    if h >= 0 {
      var q := h / 0x1_0000_0000;
      var r := h % 0x1_0000_0000;
      assert h == q * 0x1_0000_0000 + r;
      DivShift(r, 256, q * 0x100_0000);
      DivShift(r, 0x1_0000, q * 0x1_0000);
      DivShift(r / 0x1_0000, 0x1_0000, q);
    }
  }
}
