/**
 * What the multi-level queue means: four FIFO sequences of slot numbers, the
 * stack of unused slots, and per slot a task and a generation.  No links, no
 * bitmap and no counters that the sequences already determine.
 */
module QueueSpec {
  import opened Basics
  import opened Seqs

  const NUM_PRIORITIES := 4
  const MAX_ITEMS := 128
  const GENERATIONS := 0x1_0000       // uint16_t
  const SEQUENCES := 0x1_0000_0000    // unsigned int

  /** `fn == 0` stands for the null function pointer. */
  datatype Task = Task(fn: nat, arg: nat, priority: int, seqNo: nat, quantum: nat, runtime: nat)

  const ZERO_TASK := Task(0, 0, 0, 0, 0, 0)

  /** One accepted push: the slot it got and what was pushed. */
  datatype Pushed = Pushed(slot: int, fn: nat, arg: nat)

  /**
   * `history` lists every accepted push since initialisation; `born[s]` is the
   * number of the push that last filled slot `s`.  Neither exists at run time.
   */
  datatype Queue = Queue(
    layers: seq<seq<int>>,
    slots: seq<Task>,
    gen: seq<int>,
    free: seq<int>,
    history: seq<Pushed>,
    born: seq<nat>)

  /** Push numbers as the uint16_t and unsigned int counters hold them. */
  function Gen16(n: nat): (g: int)
    ensures 0 <= g < GENERATIONS
    ensures n < GENERATIONS ==> g == n
  {
    n % GENERATIONS
  }

  function Seq32(n: nat): (g: int)
    ensures 0 <= g < SEQUENCES
    ensures n < SEQUENCES ==> g == n
  {
    n % SEQUENCES
  }

  // ----- invariant

  predicate IsSlot(s: int) { 0 <= s < MAX_ITEMS }

  predicate IsLayer(l: int) { 0 <= l < NUM_PRIORITIES }

  predicate Shape(q: Queue) {
    && |q.layers| == NUM_PRIORITIES && |q.slots| == MAX_ITEMS
    && |q.gen| == MAX_ITEMS && |q.born| == MAX_ITEMS
  }

  predicate Queued(q: Queue, s: int)
    requires Shape(q) && IsSlot(s)
  {
    IsLayer(q.slots[s].priority) && s in q.layers[q.slots[s].priority]
  }

  function Count(q: Queue): (n: nat)
    requires Shape(q)
  {
    |q.layers[0]| + |q.layers[1]| + |q.layers[2]| + |q.layers[3]|
  }

  ghost predicate FreeOk(q: Queue)
    requires Shape(q)
  {
    && Distinct(q.free)
    && (forall s :: s in q.free ==> IsSlot(s))
    && |q.free| + Count(q) == MAX_ITEMS
  }

  ghost predicate LayerOk(q: Queue, l: int)
    requires Shape(q) && IsLayer(l)
  {
    && Distinct(q.layers[l])
    && (forall s :: s in q.layers[l] ==> IsSlot(s) && q.slots[s].priority == l)
  }

  /**
   * A slot is on the free stack or in exactly one layer, never both; a free slot is
   * cleared, and a queued one records the push that filled it.
   */
  ghost predicate SlotOk(q: Queue, s: int)
    requires Shape(q) && IsSlot(s)
  {
    if Queued(q, s) then
      && s !in q.free
      && PushedAs(q, s, q.slots[s])
    else
      && s in q.free
      && q.slots[s] == ZERO_TASK
  }

  ghost predicate PushedAs(q: Queue, s: int, t: Task)
    requires Shape(q) && IsSlot(s)
  {
    && q.born[s] < |q.history|
    && q.history[q.born[s]] == Pushed(s, t.fn, t.arg)
    && q.gen[s] == Gen16(q.born[s])
    && t.seqNo == Seq32(q.born[s])
  }

  ghost predicate Inv(q: Queue) {
    && Shape(q)
    && FreeOk(q)
    && (forall l :: IsLayer(l) ==> LayerOk(q, l))
    && (forall s :: IsSlot(s) ==> SlotOk(q, s))
    && (forall n :: 0 <= n < |q.history| ==> IsSlot(q.history[n].slot))
  }

  // ----- handles

  /** (gen << 16) | slot, read back as a signed 32-bit integer. */
  function MakeHandle(gen: int, slot: int): (h: int)
    requires 0 <= gen < GENERATIONS && IsSlot(slot)
  {
    var u := gen * 0x1_0000 + slot;
    if u < 0x8000_0000 then u else u - 0x1_0000_0000
  }

  function HandleSlot(h: int): (s: int)
    ensures 0 <= s < 256
  {
    (h % 0x1_0000_0000) % 256
  }

  function HandleGen(h: int): (g: int)
    ensures 0 <= g < GENERATIONS
  {
    (h % 0x1_0000_0000) / 0x1_0000
  }

  predicate HandleValid(q: Queue, h: int)
    requires Shape(q)
  {
    && h >= 0
    && HandleSlot(h) < MAX_ITEMS
    && q.slots[HandleSlot(h)].fn != 0
    && q.gen[HandleSlot(h)] == HandleGen(h)
  }

  // ----- operations

  function Init(): Queue {
    Queue([[], [], [], []],
          seq(MAX_ITEMS, i => ZERO_TASK),
          seq(MAX_ITEMS, i => 0),
          seq(MAX_ITEMS, i => i),
          [],
          seq(MAX_ITEMS, i => 0))
  }

  predicate CanPush(q: Queue, priority: int) {
    IsLayer(priority) && q.free != []
  }

  function NextSlot(q: Queue): (s: int)
    requires Inv(q) && q.free != []
    ensures IsSlot(s) && s in q.free && !Queued(q, s)
  {
    var s := q.free[|q.free| - 1];
    assert SlotOk(q, s);
    s
  }

  function PushHandle(q: Queue, priority: int): int
    requires Inv(q)
  {
    if CanPush(q, priority) then MakeHandle(Gen16(|q.history|), NextSlot(q)) else -1
  }

  /** Appends to the tail of its layer, or changes nothing when the push is refused. */
  function Push(q: Queue, priority: int, fn: nat, arg: nat): Queue
    requires Inv(q)
  {
    if !CanPush(q, priority) then q else
      var s := NextSlot(q);
      var n := |q.history|;
      q.(layers := q.layers[priority := q.layers[priority] + [s]],
         slots := q.slots[s := Task(fn, arg, priority, Seq32(n), 0, 0)],
         gen := q.gen[s := Gen16(n)],
         free := q.free[..|q.free| - 1],
         history := q.history + [Pushed(s, fn, arg)],
         born := q.born[s := n])
  }

  predicate HasLayer(q: Queue, l: int)
    requires Shape(q)
  {
    IsLayer(l) && q.layers[l] != []
  }

  /** Takes slot `s` out of its layer, clears it and puts it on the free stack. */
  function Release(q: Queue, s: int): Queue
    requires Inv(q) && IsSlot(s) && Queued(q, s)
  {
    var l := q.slots[s].priority;
    q.(layers := q.layers[l := Without(q.layers[l], s)],
       slots := q.slots[s := ZERO_TASK],
       free := q.free + [s])
  }

  /** The oldest slot of a layer. */
  function Head(q: Queue, l: int): (s: int)
    requires Inv(q) && HasLayer(q, l)
    ensures IsSlot(s) && Queued(q, s) && q.slots[s].priority == l
  {
    assert LayerOk(q, l);
    q.layers[l][0]
  }

  function PopLayer(q: Queue, l: int): Queue
    requires Inv(q)
  {
    if HasLayer(q, l) then Release(q, Head(q, l)) else q
  }

  function PoppedTask(q: Queue, l: int): Option<Task>
    requires Inv(q)
  {
    if HasLayer(q, l) then Some(q.slots[Head(q, l)]) else None
  }

  /** The highest-priority layer that holds a task, or NUM_PRIORITIES when none does. */
  function FirstLayer(q: Queue): (l: int)
    requires Shape(q)
    ensures 0 <= l <= NUM_PRIORITIES
    ensures l < NUM_PRIORITIES ==> q.layers[l] != []
    ensures forall k :: 0 <= k < l ==> q.layers[k] == []
  {
    if q.layers[0] != [] then 0
    else if q.layers[1] != [] then 1
    else if q.layers[2] != [] then 2
    else if q.layers[3] != [] then 3
    else NUM_PRIORITIES
  }

  /** Moves a queued slot to the tail of another layer. */
  function Move(q: Queue, s: int, l: int): Queue
    requires Inv(q) && IsSlot(s) && Queued(q, s) && IsLayer(l) && l != q.slots[s].priority
  {
    var from := q.slots[s].priority;
    q.(layers := q.layers[from := Without(q.layers[from], s)][l := q.layers[l] + [s]],
       slots := q.slots[s := q.slots[s].(priority := l)])
  }

  predicate CanUpdate(q: Queue, h: int, l: int)
    requires Shape(q)
  {
    IsLayer(l) && HandleValid(q, h)
  }

  function Update(q: Queue, h: int, l: int): Queue
    requires Inv(q)
  {
    if CanUpdate(q, h, l) && q.slots[HandleSlot(h)].priority != l
    then ValidHandleIsQueued(q, h); Move(q, HandleSlot(h), l)
    else q
  }

  function Remove(q: Queue, h: int): Queue
    requires Inv(q)
  {
    if HandleValid(q, h) then ValidHandleIsQueued(q, h); Release(q, HandleSlot(h)) else q
  }

  function SetQuantum(q: Queue, h: int, quantum: nat): Queue
    requires Inv(q)
  {
    if HandleValid(q, h)
    then q.(slots := q.slots[HandleSlot(h) := q.slots[HandleSlot(h)].(quantum := quantum)])
    else q
  }

  lemma ValidHandleIsQueued(q: Queue, h: int)
    requires Inv(q) && HandleValid(q, h)
    ensures Queued(q, HandleSlot(h))
  {
    assert SlotOk(q, HandleSlot(h));
  }

  // ----- every operation keeps the invariant

  lemma InitInv()
    ensures Inv(Init())
  {
    var q := Init();
    forall s | IsSlot(s) ensures s in q.free { assert q.free[s] == s; }
  }

  lemma PushInv(q: Queue, priority: int, fn: nat, arg: nat)
    requires Inv(q)
    ensures Inv(Push(q, priority, fn, arg))
  {
    if CanPush(q, priority) {
      var s := NextSlot(q);
      var r := Push(q, priority, fn, arg);
      assert s in q.free && SlotOk(q, s);
      assert q.free == r.free + [s];
      forall l | IsLayer(l) ensures LayerOk(r, l) { assert LayerOk(q, l); }
      assert r.layers[priority][|q.layers[priority]|] == s;
      forall x | IsSlot(x) ensures SlotOk(r, x) {
        assert SlotOk(q, x);
        assert x in q.free <==> x in r.free || x == s;
      }
    }
  }

  lemma ReleaseInv(q: Queue, s: int)
    requires Inv(q) && IsSlot(s) && Queued(q, s)
    ensures Inv(Release(q, s))
  {
    var r := Release(q, s);
    assert SlotOk(q, s);
    assert LayerOk(q, q.slots[s].priority);
    WithoutDistinct(q.layers[q.slots[s].priority], s);
    forall l | IsLayer(l) ensures LayerOk(r, l) { assert LayerOk(q, l); }
    forall x | IsSlot(x) ensures SlotOk(r, x) { assert SlotOk(q, x); }
  }

  lemma MoveInv(q: Queue, s: int, l: int)
    requires Inv(q) && IsSlot(s) && Queued(q, s) && IsLayer(l) && l != q.slots[s].priority
    ensures Inv(Move(q, s, l))
  {
    var r := Move(q, s, l);
    forall k | IsLayer(k) ensures LayerOk(r, k) { MoveLayer(q, s, l, k); }
    forall x | IsSlot(x) ensures SlotOk(r, x) { MoveSlot(q, s, l, x); }
  }

  lemma MoveLayer(q: Queue, s: int, l: int, k: int)
    requires Inv(q) && IsSlot(s) && Queued(q, s) && IsLayer(l) && l != q.slots[s].priority && IsLayer(k)
    ensures LayerOk(Move(q, s, l), k)
  {
    assert LayerOk(q, k);
    assert LayerOk(q, q.slots[s].priority);
    WithoutDistinct(q.layers[q.slots[s].priority], s);
  }

  lemma MoveSlot(q: Queue, s: int, l: int, x: int)
    requires Inv(q) && IsSlot(s) && Queued(q, s) && IsLayer(l) && l != q.slots[s].priority && IsSlot(x)
    ensures SlotOk(Move(q, s, l), x)
  {
    var r := Move(q, s, l);
    assert SlotOk(q, x) && LayerOk(q, q.slots[s].priority);
    WithoutDistinct(q.layers[q.slots[s].priority], s);
    assert r.layers[l][|q.layers[l]|] == s;
  }

  lemma SetQuantumInv(q: Queue, h: int, quantum: nat)
    requires Inv(q)
    ensures Inv(SetQuantum(q, h, quantum))
  {
    var r := SetQuantum(q, h, quantum);
    if HandleValid(q, h) {
      ValidHandleIsQueued(q, h);
      forall l | IsLayer(l) ensures LayerOk(r, l) { assert LayerOk(q, l); }
      forall x | IsSlot(x) ensures SlotOk(r, x) { assert SlotOk(q, x); }
    }
  }

  // ----- whole runs

  datatype Op =
    | OpPush(priority: int, fn: nat, arg: nat)
    | OpPop
    | OpPopFromLayer(layer: int)
    | OpUpdate(handle: int, newPriority: int)
    | OpRemove(handle: int)
    | OpSetQuantum(handle: int, quantum: nat)

  function Apply(q: Queue, op: Op): (r: Queue)
    requires Inv(q)
    ensures Inv(r)
  {
    match op
    case OpPush(p, fn, arg) => PushInv(q, p, fn, arg); Push(q, p, fn, arg)
    case OpPop => PopLayerInv(q, FirstLayer(q)); PopLayer(q, FirstLayer(q))
    case OpPopFromLayer(l) => PopLayerInv(q, l); PopLayer(q, l)
    case OpUpdate(h, p) => UpdateInv(q, h, p); Update(q, h, p)
    case OpRemove(h) => RemoveInv(q, h); Remove(q, h)
    case OpSetQuantum(h, v) => SetQuantumInv(q, h, v); SetQuantum(q, h, v)
  }

  lemma PopLayerInv(q: Queue, l: int)
    requires Inv(q)
    ensures Inv(PopLayer(q, l))
  {
    if HasLayer(q, l) { ReleaseInv(q, Head(q, l)); }
  }

  lemma UpdateInv(q: Queue, h: int, l: int)
    requires Inv(q)
    ensures Inv(Update(q, h, l))
  {
    if CanUpdate(q, h, l) && q.slots[HandleSlot(h)].priority != l {
      ValidHandleIsQueued(q, h);
      MoveInv(q, HandleSlot(h), l);
    }
  }

  lemma RemoveInv(q: Queue, h: int)
    requires Inv(q)
    ensures Inv(Remove(q, h))
  {
    if HandleValid(q, h) {
      ValidHandleIsQueued(q, h);
      ReleaseInv(q, HandleSlot(h));
    }
  }

  /** The queue after a whole run of operations. */
  function Run(q: Queue, ops: seq<Op>): (r: Queue)
    requires Inv(q)
    ensures Inv(r)
    decreases |ops|
  {
    if ops == [] then q else Run(Apply(q, ops[0]), ops[1..])
  }

  // ----- stale handles

  /** The task of push number `n` is still in the queue. */
  predicate StillQueued(q: Queue, n: nat)
    requires Inv(q) && n < |q.history|
  {
    var s := q.history[n].slot;
    Queued(q, s) && q.born[s] == n
  }

  /** The handle that push number `n` returned. */
  function HandleOf(q: Queue, n: nat): int
    requires Inv(q) && n < |q.history|
  {
    MakeHandle(Gen16(n), q.history[n].slot)
  }

  lemma HandleFields(gen: int, slot: int)
    requires 0 <= gen < GENERATIONS && IsSlot(slot)
    ensures HandleSlot(MakeHandle(gen, slot)) == slot
    ensures HandleGen(MakeHandle(gen, slot)) == gen
    ensures MakeHandle(gen, slot) >= 0 <==> gen < 0x8000
    ensures MakeHandle(gen, slot) != -1
  {
    var u := gen * 0x1_0000 + slot;
    assert MakeHandle(gen, slot) % 0x1_0000_0000 == u;
    assert u == (gen * 256) * 256 + slot;
  }

  /**
   * The handle of push number `n` is accepted exactly when its slot is queued with a real function, the task there has
   * the same 16-bit generation, and that generation fits in the non-negative half of a 32-bit integer.
   */
  lemma HandleAcceptedIff(q: Queue, n: nat)
    requires Inv(q) && n < |q.history|
    ensures var s := q.history[n].slot;
            HandleValid(q, HandleOf(q, n)) <==>
            Queued(q, s) && q.slots[s].fn != 0 && Gen16(q.born[s]) == Gen16(n) && Gen16(n) < 0x8000
  {
    hide HandleSlot, HandleGen, MakeHandle, Gen16;
    var s := q.history[n].slot;
    HandleFields(Gen16(n), s);
    assert SlotOk(q, s);
  }

  /**
   * While generations have not repeated, that is: the very task the handle was issued for is still queued, and it
   * is one of the first 32768.
   */
  lemma HandleNamesItsTask(q: Queue, n: nat)
    requires Inv(q) && n < |q.history| <= GENERATIONS
    ensures HandleValid(q, HandleOf(q, n)) <==> StillQueued(q, n) && q.history[n].fn != 0 && n < 0x8000
  {
    HandleAcceptedIff(q, n);
    hide HandleSlot, HandleGen, MakeHandle;
    assert SlotOk(q, q.history[n].slot);
  }

  /** A handle is accepted for a task other than its own exactly when a later push repeated slot and generation. */
  lemma StaleAcceptedIff(q: Queue, n: nat)
    requires Inv(q) && n < |q.history|
    ensures var s := q.history[n].slot;
            HandleValid(q, HandleOf(q, n)) && !StillQueued(q, n) <==>
            && Queued(q, s) && q.slots[s].fn != 0 && Gen16(n) < 0x8000
            && q.born[s] != n && Gen16(q.born[s]) == Gen16(n)
  {
    HandleAcceptedIff(q, n);
    hide HandleValid, HandleOf, Gen16;
  }

  /** Which tasks each operation adds to or takes out of the queue, by push number. */
  lemma QueuedAfter(q: Queue, op: Op, n: nat)
    requires Inv(q) && n < |q.history|
    ensures |q.history| <= |Apply(q, op).history| && Apply(q, op).history[n] == q.history[n]
    ensures StillQueued(Apply(q, op), n) <==> StillQueued(q, n) && Some(n) != Leaves(q, op)
  {
    var r := Apply(q, op);
    var s := q.history[n].slot;
    assert SlotOk(q, s);
    match op
    case OpPush(p, fn, arg) =>
      if CanPush(q, p) { PushedElsewhere(q, p, fn, arg, s); }
    case OpPop => PopLeaves(q, FirstLayer(q), s);
    case OpPopFromLayer(l) => PopLeaves(q, l, s);
    case OpUpdate(h, p) =>
      if r != q { ValidHandleIsQueued(q, h); StaysQueued(q, HandleSlot(h), p, s); }
    case OpRemove(h) =>
      if HandleValid(q, h) { ValidHandleIsQueued(q, h); ReleaseLeaves(q, HandleSlot(h), s); }
    case OpSetQuantum(h, v) =>
  }

  /** The push number of the task an operation takes out, if it takes one out. */
  function Leaves(q: Queue, op: Op): Option<nat>
    requires Inv(q)
  {
    match op
    case OpPop =>
      if HasLayer(q, FirstLayer(q)) then Some(q.born[Head(q, FirstLayer(q))]) else None
    case OpPopFromLayer(l) => if HasLayer(q, l) then Some(q.born[Head(q, l)]) else None
    case OpRemove(h) => if HandleValid(q, h) then Some(q.born[HandleSlot(h)]) else None
    case _ => None
  }

  lemma PushedElsewhere(q: Queue, p: int, fn: nat, arg: nat, x: int)
    requires Inv(q) && CanPush(q, p) && IsSlot(x)
    ensures Inv(Push(q, p, fn, arg))
    ensures x != NextSlot(q) ==> (Queued(Push(q, p, fn, arg), x) <==> Queued(q, x))
    ensures Queued(Push(q, p, fn, arg), NextSlot(q))
  {
    PushInv(q, p, fn, arg);
    var r := Push(q, p, fn, arg);
    assert r.layers[p][|q.layers[p]|] == NextSlot(q);
    assert forall y :: y in q.layers[p] ==> y in r.layers[p];
  }

  lemma ReleaseLeaves(q: Queue, s: int, x: int)
    requires Inv(q) && IsSlot(s) && Queued(q, s) && IsSlot(x)
    ensures Inv(Release(q, s))
    ensures Queued(Release(q, s), x) <==> Queued(q, x) && x != s
  {
    ReleaseInv(q, s);
    assert LayerOk(q, q.slots[s].priority);
    WithoutDistinct(q.layers[q.slots[s].priority], s);
    assert SlotOk(Release(q, s), s);
  }

  lemma PopLeaves(q: Queue, l: int, x: int)
    requires Inv(q) && IsSlot(x)
    ensures Inv(PopLayer(q, l))
    ensures Queued(PopLayer(q, l), x) <==> Queued(q, x) && (HasLayer(q, l) ==> x != Head(q, l))
  {
    if HasLayer(q, l) { ReleaseLeaves(q, Head(q, l), x); }
  }

  lemma StaysQueued(q: Queue, s: int, l: int, x: int)
    requires Inv(q) && IsSlot(s) && Queued(q, s) && IsLayer(l) && l != q.slots[s].priority
    requires IsSlot(x)
    ensures Inv(Move(q, s, l))
    ensures Queued(Move(q, s, l), x) <==> Queued(q, x)
  {
    MoveInv(q, s, l);
    var r := Move(q, s, l);
    assert LayerOk(q, q.slots[s].priority);
    WithoutDistinct(q.layers[q.slots[s].priority], s);
    assert r.layers[l][|q.layers[l]|] == s;
    assert forall y :: y in q.layers[l] ==> y in r.layers[l];
  }

  /** Some operation of the run takes the task of push number `n` out. */
  predicate TakenOut(q: Queue, ops: seq<Op>, n: nat)
    requires Inv(q)
    decreases |ops|
  {
    ops != [] && (Leaves(q, ops[0]) == Some(n) || TakenOut(Apply(q, ops[0]), ops[1..], n))
  }

  lemma {:induction false} StillQueuedAfterRun(q: Queue, ops: seq<Op>, n: nat)
    requires Inv(q) && n < |q.history|
    ensures |q.history| <= |Run(q, ops).history| && Run(q, ops).history[n] == q.history[n]
    ensures StillQueued(Run(q, ops), n) <==> StillQueued(q, n) && !TakenOut(q, ops, n)
    decreases |ops|
  {
    hide Inv, Apply;
    if ops != [] {
      QueuedAfter(q, ops[0], n);
      StillQueuedAfterRun(Apply(q, ops[0]), ops[1..], n);
    }
  }

  /**
   * A handle returned by a push with a real function is accepted later in any run, however often
   * its slot is reused, exactly until its own task has been popped or removed; a
   * refused handle changes nothing.
   */
  lemma StaleHandlesAreRefused(before: seq<Op>, priority: int, fn: nat, arg: nat, after: seq<Op>)
    requires fn != 0 && CanPush(FromInit(before), priority)
    requires |Run(Apply(FromInit(before), OpPush(priority, fn, arg)), after).history| <= 0x8000
    ensures var q0 := FromInit(before);
            var q1 := Apply(q0, OpPush(priority, fn, arg));
            var q2 := Run(q1, after);
            var h := PushHandle(q0, priority);
            && h >= 0
            && (HandleValid(q2, h) <==> !TakenOut(q1, after, |q0.history|))
            && (!HandleValid(q2, h) ==> Ignores(q2, h))
  {
    hide Run, Init, TakenOut, Inv;
    var q0 := FromInit(before);
    var q1 := Apply(q0, OpPush(priority, fn, arg));
    var q2 := Run(q1, after);
    var n := |q0.history|;
    PushIssues(q0, priority, fn, arg);
    StillQueuedAfterRun(q1, after, n);
    HandleNamesItsTask(q2, n);
    RefusedHandle(q2, PushHandle(q0, priority));
  }

  function FromInit(ops: seq<Op>): (r: Queue)
    ensures Inv(r)
  {
    InitInv();
    Run(Init(), ops)
  }

  /** Every operation given handle `h` leaves the queue as it is. */
  ghost predicate Ignores(q: Queue, h: int)
    requires Inv(q)
  {
    && (forall p :: Update(q, h, p) == q)
    && Remove(q, h) == q
    && (forall v :: SetQuantum(q, h, v) == q)
  }

  lemma RefusedHandle(q: Queue, h: int)
    requires Inv(q)
    ensures !HandleValid(q, h) ==> Ignores(q, h)
  {
    hide Inv;
  }

  /** An accepted push issues the handle of its own number, and its task is then queued. */
  lemma PushIssues(q: Queue, priority: int, fn: nat, arg: nat)
    requires Inv(q) && CanPush(q, priority)
    ensures var r := Apply(q, OpPush(priority, fn, arg));
            && r.history == q.history + [Pushed(NextSlot(q), fn, arg)]
            && StillQueued(r, |q.history|)
            && HandleOf(r, |q.history|) == PushHandle(q, priority)
            && (PushHandle(q, priority) >= 0 <==> Gen16(|q.history|) < 0x8000)
  {
    PushedElsewhere(q, priority, fn, arg, NextSlot(q));
    HandleFields(Gen16(|q.history|), NextSlot(q));
  }

  // ----- repeated generations

  /** A queue used `k` times for one task each. */
  function Reused(k: nat): (q: Queue)
    ensures Inv(q)
  {
    if k == 0 then InitInv(); Init() else Apply(Apply(Reused(k - 1), OpPush(0, 1, 0)), OpPopFromLayer(0))
  }

  /** Every task of such a queue lies in the same slot. */
  predicate Cycling(q: Queue, k: nat) {
    && |q.history| == k && (forall i :: 0 <= i < k ==> q.history[i] == Pushed(MAX_ITEMS - 1, 1, 0))
    && q.layers == [[], [], [], []] && |q.free| == MAX_ITEMS && q.free[MAX_ITEMS - 1] == MAX_ITEMS - 1
  }

  lemma PushOnTop(q: Queue, k: nat)
    requires Inv(q) && Cycling(q, k)
    ensures var r, s := Apply(q, OpPush(0, 1, 0)), MAX_ITEMS - 1;
            && Shape(r) && |r.history| == k + 1 && (forall i :: 0 <= i <= k ==> r.history[i] == Pushed(s, 1, 0))
            && r.layers == [[s], [], [], []] && r.free == q.free[..MAX_ITEMS - 1]
            && r.slots[s] == Task(1, 0, 0, Seq32(k), 0, 0) && r.born[s] == k
  {
    assert NextSlot(q) == MAX_ITEMS - 1;
    hide Inv;
    var none: seq<int> := [];
    assert none + [MAX_ITEMS - 1] == [MAX_ITEMS - 1];
    assert q.layers[0 := [MAX_ITEMS - 1]] == [[MAX_ITEMS - 1], [], [], []];
  }

  lemma {:induction false} ReusedCycles(k: nat)
    ensures Cycling(Reused(k), k)
  {
    hide Inv, Apply, Init;
    if k == 0 {
      InitCycles();
    } else {
      ReusedCycles(k - 1);
      var q := Reused(k - 1);
      PushOnTop(q, k - 1);
      assert |q.free| == MAX_ITEMS;
      hide Cycling;
      PopOnly(Apply(q, OpPush(0, 1, 0)), k);
    }
  }

  lemma InitCycles()
    ensures Cycling(Init(), 0)
  {
  }

  lemma PopOnly(r: Queue, k: nat)
    requires Inv(r) && |r.history| == k && (forall i :: 0 <= i < k ==> r.history[i] == Pushed(MAX_ITEMS - 1, 1, 0))
    requires r.layers == [[MAX_ITEMS - 1], [], [], []] && |r.free| == MAX_ITEMS - 1
    ensures Cycling(Apply(r, OpPopFromLayer(0)), k)
  {
    assert Head(r, 0) == MAX_ITEMS - 1;
    hide Inv;
    assert Without([MAX_ITEMS - 1], MAX_ITEMS - 1) == [];
    assert [[MAX_ITEMS - 1], [], [], []][0 := []] == [[], [], [], []];
  }

  lemma AcceptedAgain(q: Queue)
    requires Inv(q) && Shape(q) && |q.history| == GENERATIONS + 1 && q.history[0] == Pushed(MAX_ITEMS - 1, 1, 0)
    requires q.layers[0] == [MAX_ITEMS - 1] && q.born[MAX_ITEMS - 1] == GENERATIONS
    requires q.slots[MAX_ITEMS - 1].fn == 1 && q.slots[MAX_ITEMS - 1].priority == 0
    ensures HandleValid(q, HandleOf(q, 0)) && !StillQueued(q, 0)
  {
    hide Inv, HandleValid, HandleOf;
    StaleAcceptedIff(q, 0);
  }

  /** The failing run: after 65536 tasks the handle of the first is accepted for the next one, in the same slot. */
  lemma StaleHandleAcceptedAgain()
    ensures var q := Apply(Reused(GENERATIONS), OpPush(0, 1, 0));
            |q.history| == GENERATIONS + 1 && HandleValid(q, HandleOf(q, 0)) && !StillQueued(q, 0)
  {
    hide Inv, Reused, Cycling, Apply, HandleValid, HandleOf, StillQueued;
    ReusedCycles(GENERATIONS);
    PushOnTop(Reused(GENERATIONS), GENERATIONS);
    AcceptedAgain(Apply(Reused(GENERATIONS), OpPush(0, 1, 0)));
  }
}
