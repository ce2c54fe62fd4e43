/** System calls on pipes and message queues through the handle table. */
module SyscallSpec {
  import opened Basics
  import opened Seqs
  import opened Bytes
  import opened MessageRing
  import Rings

  const MAX_HANDLES := 256
  const NULL := 0

  datatype Kind = PIPE | MSGQ

  /**
   * `serial` numbers the resources in the order of their creation; it does not exist at run time.  `tail` is the
   * slot that the next send fills.
   */
  datatype Resource =
    | Pipe(serial: nat, cap: nat, data: seq<byte>)
    | Msgq(serial: nat, max: nat, size: nat, tail: nat, msgs: seq<seq<byte>>)

  function KindOf(r: Resource): Kind { if r.Pipe? then PIPE else MSGQ }

  /** A table entry; it is free when its pointer is null. */
  datatype Entry = Entry(kind: Kind, ptr: nat)

  const FREE := Entry(PIPE, NULL)

  /** `heap` holds the live resources by address, `destroyed` the serials of the others. */
  datatype State = State(table: seq<Entry>, heap: map<nat, Resource>, made: nat, destroyed: seq<nat>)

  /** `at` is the address the allocator would give; null, or one in use, stands for failure. */
  datatype Call =
    | PipeCreate(size: nat, at: nat)
    | PipeRead(h: nat, count: nat)
    | PipeWrite(h: nat, data: seq<byte>)
    | MsgqCreate(max: nat, size: nat, at: nat)
    | MsgqSend(h: nat, msg: seq<byte>)
    | MsgqRecv(h: nat, size: nat)
    | Close(h: nat)

  /**
   * `Fault` is an access to memory that holds no resource, or one of the other kind; `Overrun` is a store
   * outside the memory allocated for a queue.
   */
  datatype Reply =
    | Handle(h: nat) | Count(n: nat) | Data(bytes: seq<byte>) | Done | Refused | Waits | Fault | Overrun

  // ----- table

  /** The first free entry from `i` on; the size of the table when there is none. */
  function FirstFree(table: seq<Entry>, i: nat): (h: nat)
    requires i <= |table|
    ensures i <= h <= |table|
    ensures h < |table| ==> table[h].ptr == NULL
    ensures forall k :: i <= k < h ==> table[k].ptr != NULL
    decreases |table| - i
  {
    if i == |table| || table[i].ptr == NULL then i else FirstFree(table, i + 1)
  }

  /** vrt_get */
  function Get(s: State, h: nat): Option<Entry> {
    if h >= |s.table| || s.table[h].ptr == NULL then None else Some(s.table[h])
  }

  // ----- calls

  /** The resource behind a pointer that the table says is of kind `k`; None is a fault. */
  function Deref(s: State, e: Entry, k: Kind): Option<Resource> {
    if e.ptr in s.heap && KindOf(s.heap[e.ptr]) == k then Some(s.heap[e.ptr]) else None
  }

  function Store(s: State, e: Entry, r: Resource): State { s.(heap := s.heap[e.ptr := r]) }

  /** A new resource gets the first free handle; with no handle left it is destroyed again. */
  function Create(s: State, r: Resource, at: nat): (State, Reply) {
    if at == NULL || at in s.heap then (s, Refused) else
      var h := FirstFree(s.table, 0);
      if h == |s.table| then (s.(made := s.made + 1, destroyed := s.destroyed + [r.serial]), Refused)
      else (State(s.table[h := Entry(KindOf(r), at)], s.heap[at := r], s.made + 1, s.destroyed), Handle(h))
  }

  // What each call makes of its resource, and what it replies.

  function ReadOf(p: Resource, count: nat): (Resource, Reply)
    requires p.Pipe?
  {
    if count == 0 then (p, Refused)
    else if p.data == [] then (p, Waits)
    else
      var n := Min(count, |p.data|);
      (p.(data := p.data[n..]), Data(p.data[..n]))
  }

  function WriteOf(p: Resource, data: seq<byte>): (Resource, Reply)
    requires p.Pipe?
  {
    if data == [] then (p, Refused)
    else
      var n := if |p.data| < p.cap then Min(|data|, p.cap - |p.data|) else 0;
      (p.(data := p.data + data[..n]), Count(n))
  }

  function SendOf(q: Resource, msg: seq<byte>): (Resource, Reply)
    requires q.Msgq?
  {
    if msg == [] || |msg| > q.size || |q.msgs| >= q.max then (q, Refused)
    else if !Inside(q.tail, q.max, q.size) then (q, Overrun)
    else (q.(tail := (q.tail + 1) % q.max, msgs := q.msgs + [Padded(msg, q.size)]), Done)
  }

  function Cut(msg: seq<byte>, size: nat): seq<byte> { msg[..Min(size, |msg|)] }

  /** An empty queue refuses: at once without a timeout, and when the timeout has passed with one. */
  function ReceiveOf(q: Resource, size: nat): (Resource, Reply)
    requires q.Msgq?
  {
    if size == 0 || q.msgs == [] then (q, Refused)
    else (q.(msgs := q.msgs[1..]), Data(Cut(q.msgs[0], size)))
  }

  predicate UsesPipe(call: Call) { call.PipeRead? || call.PipeWrite? }

  predicate UsesQueue(call: Call) { call.MsgqSend? || call.MsgqRecv? }

  function Used(r: Resource, call: Call): (Resource, Reply)
    requires if r.Pipe? then UsesPipe(call) else UsesQueue(call)
  {
    match call
    case PipeRead(_, count) => ReadOf(r, count)
    case PipeWrite(_, data) => WriteOf(r, data)
    case MsgqSend(_, msg) => SendOf(r, msg)
    case MsgqRecv(_, size) => ReceiveOf(r, size)
  }

  /** A call on the resource behind a table entry of the right kind. */
  function Use(s: State, e: Entry, call: Call): (State, Reply)
    requires UsesPipe(call) || UsesQueue(call)
  {
    match Deref(s, e, if UsesPipe(call) then PIPE else MSGQ)
    case None => (s, Fault)
    case Some(r) => (Store(s, e, Used(r, call).0), Used(r, call).1)
  }

  function CloseHandle(s: State, h: nat, e: Entry): (State, Reply)
    requires h < |s.table|
  {
    match Deref(s, e, e.kind)
    case None => (s, Fault)
    case Some(r) => (State(s.table[h := FREE], s.heap - {e.ptr}, s.made, s.destroyed + [r.serial]), Done)
  }

  /** The entry of a handle, if it is live and of the kind that the call works on. */
  function Typed(s: State, h: nat, k: Kind): Option<Entry> {
    match Get(s, h)
    case None => None
    case Some(e) => if e.kind == k then Some(e) else None
  }

  /** fl_syscall_dispatch */
  function Step(s: State, call: Call): (State, Reply) {
    match call
    case PipeCreate(size, at) =>
      if size == 0 then (s, Refused) else Create(s, Pipe(s.made, size, []), at)
    case MsgqCreate(max, size, at) =>
      if max == 0 || size == 0 then (s, Refused) else Create(s, Msgq(s.made, max, size, 0, []), at)
    case Close(h) =>
      (match Get(s, h) case None => (s, Refused) case Some(e) => CloseHandle(s, h, e))
    case _ =>
      match Typed(s, call.h, if UsesPipe(call) then PIPE else MSGQ) case None => (s, Refused) case Some(e) => Use(s, e, call)
  }

  function Run(s: State, calls: seq<Call>): State
    decreases |calls|
  {
    if calls == [] then s else Run(Step(s, calls[0]).0, calls[1..])
  }

  /** fl_sys_bootstrap */
  function Boot(): State { State(seq(MAX_HANDLES, i => FREE), map[], 0, []) }

  // ----- one handle per resource, one resource per handle

  predicate Busy(s: State, h: int) { 0 <= h < |s.table| && s.table[h].ptr != NULL }

  /** A busy handle names a live resource of the recorded kind. */
  ghost predicate HandlesOk(s: State) {
    forall h :: Busy(s, h) ==> s.table[h].ptr in s.heap && KindOf(s.heap[s.table[h].ptr]) == s.table[h].kind
  }

  ghost predicate Injective(s: State) {
    forall h, g :: Busy(s, h) && Busy(s, g) && h != g ==> s.table[h].ptr != s.table[g].ptr
  }

  ghost predicate Named(s: State, p: nat) { exists h :: Busy(s, h) && s.table[h].ptr == p }

  /** Every live resource has a handle. */
  ghost predicate NoLeak(s: State) { forall p :: p in s.heap ==> Named(s, p) }

  /** Resources are numbered apart; those destroyed are not among the live, and none is destroyed twice. */
  ghost predicate SerialsOk(s: State) {
    && (forall p :: p in s.heap ==> s.heap[p].serial < s.made && s.heap[p].serial !in s.destroyed)
    && (forall p, q :: p in s.heap && q in s.heap && p != q ==> s.heap[p].serial != s.heap[q].serial)
    && (forall i :: 0 <= i < |s.destroyed| ==> s.destroyed[i] < s.made)
    && Distinct(s.destroyed)
    && |s.destroyed| + |s.heap| == s.made
  }

  /**
   * A pipe holds at most its capacity; a queue at most its slots, each message filling one.  A queue whose byte
   * count wraps has never come round to its first slot again.
   */
  predicate Bounded(r: Resource) {
    match r
    case Pipe(_, cap, data) => |data| <= cap
    case Msgq(_, max, size, tail, msgs) =>
      && 0 < size && tail < max && |msgs| <= max && (forall i :: 0 <= i < |msgs| ==> |msgs[i]| == size)
      && (Wraps(max, size) ==> |msgs| <= tail <= WholeSlots(max, size))
  }

  ghost predicate AllBounded(s: State) { forall p :: p in s.heap ==> Bounded(s.heap[p]) }

  ghost predicate Inv(s: State) {
    |s.table| == MAX_HANDLES && HandlesOk(s) && Injective(s) && NoLeak(s) && SerialsOk(s) && AllBounded(s)
  }

  lemma BootInv()
    ensures Inv(Boot())
  {
  }

  lemma NamedStays(s: State, t: State, p: nat, g: nat)
    requires NoLeak(s) && p in s.heap && |t.table| == |s.table|
    requires forall h :: Busy(s, h) && h != g ==> t.table[h] == s.table[h]
    requires Busy(s, g) ==> s.table[g].ptr != p
    ensures Named(t, p)
  {
    assert Named(s, p);
    var h :| Busy(s, h) && s.table[h].ptr == p;
    assert Busy(t, h);
  }

  // A changed resource keeps its number and its kind.

  lemma StoreHandles(s: State, e: Entry, r: Resource)
    requires HandlesOk(s) && Injective(s) && e.ptr in s.heap && KindOf(r) == KindOf(s.heap[e.ptr])
    ensures HandlesOk(Store(s, e, r)) && Injective(Store(s, e, r))
  {
    var t := Store(s, e, r);
    assert forall h :: Busy(t, h) <==> Busy(s, h);
  }

  lemma StoreSerials(s: State, e: Entry, r: Resource)
    requires SerialsOk(s) && e.ptr in s.heap && r.serial == s.heap[e.ptr].serial
    ensures SerialsOk(Store(s, e, r))
  {
    hide Distinct;
    var t := Store(s, e, r);
    assert t.heap.Keys == s.heap.Keys;
    assert forall p :: p in s.heap ==> t.heap[p].serial == s.heap[p].serial;
  }

  lemma StoreInv(s: State, e: Entry, r: Resource)
    requires Inv(s) && e.ptr in s.heap
    requires KindOf(r) == KindOf(s.heap[e.ptr]) && r.serial == s.heap[e.ptr].serial && Bounded(r)
    ensures Inv(Store(s, e, r))
  {
    hide HandlesOk, Injective, SerialsOk, Bounded;
    var t := Store(s, e, r);
    StoreHandles(s, e, r);
    StoreSerials(s, e, r);
    forall p | p in t.heap ensures Named(t, p) { NamedStays(s, t, p, |s.table|); }
  }

  // A new resource has a new number, a new address and an unused handle.

  function Entered(s: State, h: nat, r: Resource, at: nat): State
    requires h < |s.table|
  {
    State(s.table[h := Entry(KindOf(r), at)], s.heap[at := r], s.made + 1, s.destroyed)
  }

  lemma EnterHandles(s: State, h: nat, r: Resource, at: nat)
    requires HandlesOk(s) && Injective(s) && h < |s.table| && at != NULL && at !in s.heap && !Busy(s, h)
    ensures HandlesOk(Entered(s, h, r, at)) && Injective(Entered(s, h, r, at))
  {
    var t := Entered(s, h, r, at);
    assert forall g :: Busy(t, g) ==> g == h || (Busy(s, g) && t.table[g] == s.table[g] && s.table[g].ptr != at);
  }

  lemma EnterSerials(s: State, h: nat, r: Resource, at: nat)
    requires SerialsOk(s) && h < |s.table| && at !in s.heap && r.serial == s.made
    ensures SerialsOk(Entered(s, h, r, at))
  {
    hide Distinct;
    HeapGrows(s.heap, at, r);
    assert r.serial !in s.destroyed;
  }

  lemma HeapGrows(heap: map<nat, Resource>, at: nat, r: Resource)
    requires at !in heap
    ensures |heap[at := r]| == |heap| + 1
  {
    assert heap[at := r].Keys == heap.Keys + {at};
  }

  lemma DiscardSerials(s: State)
    requires SerialsOk(s)
    ensures SerialsOk(s.(made := s.made + 1, destroyed := s.destroyed + [s.made]))
  {
  }

  lemma CreateInv(s: State, r: Resource, at: nat)
    requires Inv(s) && r.serial == s.made && Bounded(r)
    ensures Inv(Create(s, r, at).0) && Create(s, r, at).1 != Fault
  {
    hide HandlesOk, Injective, SerialsOk, Bounded;
    var t := Create(s, r, at).0;
    var h := FirstFree(s.table, 0);
    if at == NULL || at in s.heap {
    } else if h == |s.table| {
      DiscardSerials(s);
      SameTable(s, t);
    } else {
      EnterHandles(s, h, r, at);
      EnterSerials(s, h, r, at);
      assert Busy(t, h) && t.table[h].ptr == at;
      forall p | p in t.heap && p != at ensures Named(t, p) { NamedStays(s, t, p, h); }
    }
  }

  lemma SameTable(s: State, t: State)
    requires Inv(s) && t.table == s.table && t.heap == s.heap
    ensures HandlesOk(t) && Injective(t) && NoLeak(t)
  {
    hide SerialsOk;
    assert forall h :: Busy(t, h) <==> Busy(s, h);
    forall p | p in t.heap ensures Named(t, p) { NamedStays(s, t, p, |s.table|); }
  }

  // A closed handle takes its resource with it.

  function Left(s: State, h: nat): State
    requires h < |s.table| && s.table[h].ptr in s.heap
  {
    State(s.table[h := FREE], s.heap - {s.table[h].ptr}, s.made, s.destroyed + [s.heap[s.table[h].ptr].serial])
  }

  lemma LeftHandles(s: State, h: nat)
    requires HandlesOk(s) && Injective(s) && Busy(s, h)
    ensures HandlesOk(Left(s, h)) && Injective(Left(s, h))
  {
    var t := Left(s, h);
    assert forall g :: Busy(t, g) ==> g != h && Busy(s, g) && t.table[g] == s.table[g];
  }

  lemma LeftSerials(s: State, h: nat)
    requires SerialsOk(s) && h < |s.table| && s.table[h].ptr in s.heap
    ensures SerialsOk(Left(s, h))
  {
    var t, p := Left(s, h), s.table[h].ptr;
    assert t.heap.Keys == s.heap.Keys - {p};
    assert |t.heap| == |s.heap| - 1;
    DistinctAppend(s.destroyed, s.heap[p].serial);
    hide Distinct;
  }

  lemma DistinctAppend(d: seq<nat>, x: nat)
    requires Distinct(d) && x !in d
    ensures Distinct(d + [x])
  {
  }

  lemma CloseInv(s: State, h: nat)
    requires Inv(s) && Busy(s, h)
    ensures Inv(CloseHandle(s, h, s.table[h]).0) && CloseHandle(s, h, s.table[h]).1 == Done
  {
    var t := CloseHandle(s, h, s.table[h]).0;
    LeftHandles(s, h);
    LeftSerials(s, h);
    hide HandlesOk, Injective, SerialsOk, Bounded;
    forall p | p in t.heap ensures Named(t, p) { NamedStays(s, t, p, h); }
  }

  /** Every call keeps handles and resources one to one, and no call faults. */
  lemma StepInv(s: State, call: Call)
    requires Inv(s)
    ensures Inv(Step(s, call).0) && Step(s, call).1 != Fault
  {
    hide Inv;
    match call
    case PipeCreate(size, at) => CreateInv(s, Pipe(s.made, size, []), at);
    case MsgqCreate(max, size, at) => if max > 0 && size > 0 { CreateInv(s, Msgq(s.made, max, size, 0, []), at); }
    case PipeRead(h, count) => if Typed(s, h, PIPE).Some? { UseInv(s, call, h, PIPE); }
    case PipeWrite(h, data) => if Typed(s, h, PIPE).Some? { UseInv(s, call, h, PIPE); }
    case MsgqSend(h, msg) => if Typed(s, h, MSGQ).Some? { UseInv(s, call, h, MSGQ); }
    case MsgqRecv(h, size) => if Typed(s, h, MSGQ).Some? { UseInv(s, call, h, MSGQ); }
    case Close(h) => if Get(s, h).Some? { CloseInv(s, h); }
  }

  predicate Uses(call: Call, h: nat, k: Kind) {
    match call
    case PipeRead(g, _) => g == h && k == PIPE
    case PipeWrite(g, _) => g == h && k == PIPE
    case MsgqSend(g, _) => g == h && k == MSGQ
    case MsgqRecv(g, _) => g == h && k == MSGQ
    case _ => false
  }

  /** Reading and writing replace one resource by another with the same number and kind. */
  lemma UseInv(s: State, call: Call, h: nat, k: Kind)
    requires Inv(s) && Typed(s, h, k).Some? && Uses(call, h, k)
    ensures Inv(Step(s, call).0) && Step(s, call).1 != Fault
  {
    var e := s.table[h];
    assert Busy(s, h);
    assert e.ptr in s.heap && KindOf(s.heap[e.ptr]) == k && Bounded(s.heap[e.ptr]);
    hide Inv;
    UseReplaces(s, call, h, k);
    var r := Step(s, call).0.heap[e.ptr];
    StoreInv(s, e, r);
  }

  lemma UseReplaces(s: State, call: Call, h: nat, k: Kind)
    requires Typed(s, h, k).Some? && Uses(call, h, k) && s.table[h].ptr in s.heap
    requires KindOf(s.heap[s.table[h].ptr]) == k && Bounded(s.heap[s.table[h].ptr])
    ensures var e, t := s.table[h], Step(s, call).0;
            && e.ptr in t.heap && KindOf(t.heap[e.ptr]) == k && t.heap[e.ptr].serial == s.heap[e.ptr].serial
            && Bounded(t.heap[e.ptr]) && (t == s || t == Store(s, e, t.heap[e.ptr])) && Step(s, call).1 != Fault
  {
    UsedKeeps(s.heap[s.table[h].ptr], call);
    hide Used, Bounded;
  }

  /** A use keeps the number, the kind and the bounds of the resource. */
  lemma UsedKeeps(r: Resource, call: Call)
    requires Bounded(r) && if r.Pipe? then UsesPipe(call) else UsesQueue(call)
    ensures var (t, reply) := Used(r, call);
            KindOf(t) == KindOf(r) && t.serial == r.serial && Bounded(t) && reply != Fault
  {
    if r.Msgq? { QueueKeeps(r, call); }
  }

  lemma QueueKeeps(r: Resource, call: Call)
    requires r.Msgq? && Bounded(r) && UsesQueue(call)
    ensures var (t, reply) := Used(r, call);
            t.Msgq? && t.serial == r.serial && Bounded(t) && reply != Fault
  {
    hide WholeSlots, Inside, Wraps;
    if call.MsgqSend? {
      InsideIff(r.tail, r.max, r.size);
      Rings.ModOnce(r.tail + 1, r.max);
      assert Bounded(SendOf(r, call.msg).0);
    } else {
      assert Bounded(ReceiveOf(r, call.size).0);
    }
  }

  /** Over every run after bootstrap, live handles and live resources stay one to one. */
  lemma {:induction false} RunInv(s: State, calls: seq<Call>)
    requires Inv(s)
    ensures Inv(Run(s, calls))
    decreases |calls|
  {
    hide Inv, Step;
    if calls != [] {
      StepInv(s, calls[0]);
      RunInv(Step(s, calls[0]).0, calls[1..]);
    }
  }

  /** After bootstrap no call of any run reaches a destroyed or wrongly typed resource. */
  lemma FromBoot(calls: seq<Call>, call: Call)
    ensures Inv(Run(Boot(), calls)) && Step(Run(Boot(), calls), call).1 != Fault
  {
    hide Inv, Step;
    BootInv();
    RunInv(Boot(), calls);
    StepInv(Run(Boot(), calls), call);
  }

  // ----- what a handle means over time

  predicate OnHandle(call: Call, h: nat) {
    match call
    case PipeCreate(_, _) => false
    case MsgqCreate(_, _, _) => false
    case _ => call.h == h
  }

  /** A closed handle refuses every call until a create returns it again. */
  lemma ClosedHandleRefuses(s: State, call: Call, h: nat)
    requires Get(s, h).None?
    ensures OnHandle(call, h) ==> Step(s, call) == (s, Refused)
    ensures Step(s, call).1 != Handle(h) ==> Get(Step(s, call).0, h).None?
  {
  }

  predicate Reissues(s: State, calls: seq<Call>, h: nat)
    decreases |calls|
  {
    calls != [] && (Step(s, calls[0]).1 == Handle(h) || Reissues(Step(s, calls[0]).0, calls[1..], h))
  }

  lemma {:induction false} ClosedUntilReissued(s: State, calls: seq<Call>, h: nat, call: Call)
    requires Get(s, h).None? && !Reissues(s, calls, h) && OnHandle(call, h)
    ensures Step(Run(s, calls), call) == (Run(s, calls), Refused)
    decreases |calls|
  {
    hide Step;
    if calls == [] {
      ClosedHandleRefuses(s, call, h);
    } else {
      ClosedHandleRefuses(s, calls[0], h);
      ClosedUntilReissued(Step(s, calls[0]).0, calls[1..], h, call);
    }
  }

  lemma CloseFrees(s: State, h: nat)
    requires Inv(s) && Busy(s, h)
    ensures Step(s, Close(h)).1 == Done && Get(Step(s, Close(h)).0, h).None?
    ensures Step(s, Close(h)).0.destroyed == s.destroyed + [s.heap[s.table[h].ptr].serial]
  {
  }

  /** The resource behind a busy handle. */
  function Behind(s: State, h: nat): Resource
    requires Inv(s) && Busy(s, h)
  {
    s.heap[s.table[h].ptr]
  }

  /** A call that does not name the handle changes neither where it points nor what is there. */
  lemma OthersLeaveIt(s: State, call: Call, h: nat)
    requires Inv(s) && Busy(s, h) && !OnHandle(call, h)
    ensures var t := Step(s, call).0;
            Inv(t) && Busy(t, h) && t.table[h] == s.table[h] && Behind(t, h) == Behind(s, h)
  {
    StepInv(s, call);
    assert s.table[h].ptr in s.heap;
    if !call.PipeCreate? && !call.MsgqCreate? {
      assert Busy(s, call.h) ==> s.table[call.h].ptr != s.table[h].ptr;
    }
    hide Inv, HandlesOk, Injective;
    StepElsewhere(s, call, h);
  }

  lemma StepElsewhere(s: State, call: Call, h: nat)
    requires Busy(s, h) && !OnHandle(call, h) && s.table[h].ptr in s.heap
    requires !call.PipeCreate? && !call.MsgqCreate? && Busy(s, call.h) ==> s.table[call.h].ptr != s.table[h].ptr
    ensures var t := Step(s, call).0;
            && Busy(t, h) && t.table[h] == s.table[h]
            && s.table[h].ptr in t.heap && t.heap[s.table[h].ptr] == s.heap[s.table[h].ptr]
  {
    hide FirstFree, Padded;
  }

  // ----- bytes through one pipe, whatever happens elsewhere

  /** Some call of the run overruns; from then on memory is no longer what the resources say. */
  ghost predicate Overruns(s: State, calls: seq<Call>)
    decreases |calls|
  {
    calls != [] && (Step(s, calls[0]).1 == Overrun || Overruns(Step(s, calls[0]).0, calls[1..]))
  }

  function Accepted1(s: State, call: Call, h: nat): seq<byte> {
    var reply := Step(s, call).1;
    if call.PipeWrite? && call.h == h && reply.Count? && reply.n <= |call.data| then call.data[..reply.n] else []
  }

  function Delivered1(s: State, call: Call, h: nat): seq<byte> {
    var reply := Step(s, call).1;
    if call.PipeRead? && call.h == h && reply.Data? then reply.bytes else []
  }

  /** What the writes of a run put into the handle, in order. */
  function Accepted(s: State, calls: seq<Call>, h: nat): seq<byte>
    decreases |calls|
  {
    if calls == [] then [] else Accepted1(s, calls[0], h) + Accepted(Step(s, calls[0]).0, calls[1..], h)
  }

  /** What its reads return, in order. */
  function Delivered(s: State, calls: seq<Call>, h: nat): seq<byte>
    decreases |calls|
  {
    if calls == [] then [] else Delivered1(s, calls[0], h) + Delivered(Step(s, calls[0]).0, calls[1..], h)
  }

  predicate Closes(calls: seq<Call>, h: nat) { Close(h) in calls }

  lemma PipeStep(s: State, call: Call, h: nat)
    requires Inv(s) && Busy(s, h) && Behind(s, h).Pipe? && call != Close(h)
    ensures var t := Step(s, call).0;
            && Inv(t) && Busy(t, h) && Behind(t, h).Pipe? && Behind(t, h).serial == Behind(s, h).serial
            && Behind(t, h).cap == Behind(s, h).cap
            && Behind(s, h).data + Accepted1(s, call, h) == Delivered1(s, call, h) + Behind(t, h).data
  {
    if !OnHandle(call, h) {
      assert Accepted1(s, call, h) == [] && Delivered1(s, call, h) == [];
      hide Inv, Step, Accepted1, Delivered1;
      OthersLeaveIt(s, call, h);
    } else {
      assert s.table[h].kind == PIPE;
      hide Inv, Step, Accepted1, Delivered1;
      StepInv(s, call);
      PipeUse(s, call, h);
    }
  }

  lemma PipeUse(s: State, call: Call, h: nat)
    requires Busy(s, h) && OnHandle(call, h) && call != Close(h) && s.table[h].ptr in s.heap
    requires s.table[h].kind == PIPE && s.heap[s.table[h].ptr].Pipe?
    ensures var t, p := Step(s, call).0, s.table[h].ptr;
            && t.table == s.table && p in t.heap && t.heap[p].Pipe? && t.heap[p].serial == s.heap[p].serial
            && t.heap[p].cap == s.heap[p].cap
            && s.heap[p].data + Accepted1(s, call, h) == Delivered1(s, call, h) + t.heap[p].data
  {
    var data := s.heap[s.table[h].ptr].data;
    if call.PipeRead? && call.count > 0 && data != [] {
      var n := Min(call.count, |data|);
      assert data[..n] + data[n..] == data;
    }
  }

  /**
   * Conservation: over every run that does not close the handle, with any calls on other handles in
   * between, what was in the pipe followed by what was written is what was read followed by what is left.
   */
  lemma {:induction false} PipeConserves(s: State, calls: seq<Call>, h: nat)
    requires Inv(s) && Busy(s, h) && Behind(s, h).Pipe? && !Closes(calls, h) && !Overruns(s, calls)
    ensures var t := Run(s, calls);
            && Inv(t) && Busy(t, h) && Behind(t, h).Pipe? && Behind(t, h).serial == Behind(s, h).serial
            && Behind(t, h).cap == Behind(s, h).cap
            && Behind(s, h).data + Accepted(s, calls, h) == Delivered(s, calls, h) + Behind(t, h).data
    decreases |calls|
  {
    hide Inv, Step, Accepted1, Delivered1;
    if calls != [] {
      var t := Step(s, calls[0]).0;
      PipeStep(s, calls[0], h);
      PipeConserves(t, calls[1..], h);
      Chain(Behind(s, h).data, Accepted1(s, calls[0], h), Accepted(t, calls[1..], h), Delivered1(s, calls[0], h),
            Delivered(t, calls[1..], h), Behind(t, h).data, Behind(Run(t, calls[1..]), h).data);
    }
  }

  lemma Chain<T>(a: seq<T>, w: seq<T>, w': seq<T>, r: seq<T>, r': seq<T>, b: seq<T>, c: seq<T>)
    requires a + w == r + b && b + w' == r' + c
    ensures a + (w + w') == (r + r') + c
  {
    calc {
      a + (w + w');
    ==
      (a + w) + w';
    ==
      r + (b + w');
    ==
      (r + r') + c;
    }
  }

  // ----- messages through one queue

  /** The queue that a handle names; an empty one with no slots when it names none. */
  function Queue(s: State, h: nat): (q: Resource)
    ensures q.Msgq?
  {
    if h < |s.table| && s.table[h].ptr in s.heap && s.heap[s.table[h].ptr].Msgq? then s.heap[s.table[h].ptr]
    else Msgq(0, 0, 0, 0, [])
  }

  /** The slot that a send fills. */
  function Sent1(s: State, call: Call, h: nat): seq<seq<byte>> {
    if call.MsgqSend? && call.h == h && Step(s, call).1 == Done && |call.msg| <= Queue(s, h).size
    then [Padded(call.msg, Queue(s, h).size)] else []
  }

  /** The slot that a receive empties. */
  function Taken1(s: State, call: Call, h: nat): seq<seq<byte>> {
    if call.MsgqRecv? && call.h == h && Step(s, call).1.Data? && Queue(s, h).msgs != []
    then [Queue(s, h).msgs[0]] else []
  }

  lemma MsgqUse(s: State, call: Call, h: nat)
    requires Busy(s, h) && OnHandle(call, h) && call != Close(h) && s.table[h].ptr in s.heap
    requires s.table[h].kind == MSGQ && s.heap[s.table[h].ptr].Msgq?
    ensures var t, p, reply := Step(s, call).0, s.table[h].ptr, Step(s, call).1;
            && t.table == s.table && p in t.heap && t.heap[p].Msgq? && t.heap[p].serial == s.heap[p].serial
            && t.heap[p].max == s.heap[p].max && t.heap[p].size == s.heap[p].size
            && s.heap[p].msgs + Sent1(s, call, h) == Taken1(s, call, h) + t.heap[p].msgs
            && (call.MsgqRecv? && reply.Data? ==>
                  |Taken1(s, call, h)| == 1 && reply.bytes == Cut(Taken1(s, call, h)[0], call.size))
  {
    hide Padded;
    var msgs := s.heap[s.table[h].ptr].msgs;
    assert msgs != [] ==> [msgs[0]] + msgs[1..] == msgs;
  }

  /** A receive returns the oldest message, cut to the size asked for; nothing else leaves the queue. */
  lemma MsgqStep(s: State, call: Call, h: nat)
    requires Inv(s) && Busy(s, h) && Behind(s, h).Msgq? && call != Close(h)
    ensures var t, reply := Step(s, call).0, Step(s, call).1;
            && Inv(t) && Busy(t, h) && Behind(t, h).Msgq? && Behind(t, h).serial == Behind(s, h).serial
            && Behind(t, h).max == Behind(s, h).max && Behind(t, h).size == Behind(s, h).size
            && Behind(s, h).msgs + Sent1(s, call, h) == Taken1(s, call, h) + Behind(t, h).msgs
            && (call.MsgqRecv? && call.h == h && reply.Data? ==>
                  |Taken1(s, call, h)| == 1 && reply.bytes == Cut(Taken1(s, call, h)[0], call.size))
  {
    if !OnHandle(call, h) {
      hide Inv, Step;
      OthersLeaveIt(s, call, h);
      assert Sent1(s, call, h) == [] && Taken1(s, call, h) == [];
    } else {
      assert s.table[h].kind == MSGQ;
      hide Inv, Step, Sent1, Taken1;
      StepInv(s, call);
      MsgqUse(s, call, h);
    }
  }

  function Sent(s: State, calls: seq<Call>, h: nat): seq<seq<byte>>
    decreases |calls|
  {
    if calls == [] then [] else Sent1(s, calls[0], h) + Sent(Step(s, calls[0]).0, calls[1..], h)
  }

  function Taken(s: State, calls: seq<Call>, h: nat): seq<seq<byte>>
    decreases |calls|
  {
    if calls == [] then [] else Taken1(s, calls[0], h) + Taken(Step(s, calls[0]).0, calls[1..], h)
  }

  /** Messages leave a queue in the order in which they were sent, none lost and none twice, until a call overruns. */
  lemma {:induction false} MsgqConserves(s: State, calls: seq<Call>, h: nat)
    requires Inv(s) && Busy(s, h) && Behind(s, h).Msgq? && !Closes(calls, h) && !Overruns(s, calls)
    ensures var t := Run(s, calls);
            && Inv(t) && Busy(t, h) && Behind(t, h).Msgq? && Behind(t, h).serial == Behind(s, h).serial
            && Behind(t, h).max == Behind(s, h).max && Behind(t, h).size == Behind(s, h).size
            && Behind(s, h).msgs + Sent(s, calls, h) == Taken(s, calls, h) + Behind(t, h).msgs
    decreases |calls|
  {
    hide Inv, Step, Sent1, Taken1;
    if calls != [] {
      var t := Step(s, calls[0]).0;
      MsgqStep(s, calls[0], h);
      MsgqConserves(t, calls[1..], h);
      Chain(Behind(s, h).msgs, Sent1(s, calls[0], h), Sent(t, calls[1..], h), Taken1(s, calls[0], h),
            Taken(t, calls[1..], h), Behind(t, h).msgs, Behind(Run(t, calls[1..]), h).msgs);
    }
  }

  // ----- what each call replies

  ghost predicate SomeFree(s: State) { exists h :: 0 <= h < MAX_HANDLES && !Busy(s, h) }

  predicate AllBusyBelow(s: State, h: nat) { forall g :: 0 <= g < h ==> Busy(s, g) }

  /**
   * A create succeeds iff there is memory and a free handle.  It then returns the lowest free handle, which names the
   * new resource; otherwise it changes neither the table nor any resource.
   */
  ghost predicate Creates(s: State, t: State, reply: Reply, at: nat, r: Resource)
    requires Inv(s)
  {
    && (reply.Handle? <==> at != NULL && at !in s.heap && SomeFree(s))
    && (reply.Handle? ==>
          && Inv(t) && !Busy(s, reply.h) && AllBusyBelow(s, reply.h)
          && Busy(t, reply.h) && Behind(t, reply.h) == r && t.table[reply.h].ptr == at)
    && (!reply.Handle? ==> reply == Refused && t.table == s.table && t.heap == s.heap)
  }

  lemma CreateCreates(s: State, at: nat, r: Resource)
    requires Inv(s) && r.serial == s.made && Bounded(r)
    ensures Creates(s, Create(s, r, at).0, Create(s, r, at).1, at, r)
  {
    assert |s.table| == MAX_HANDLES;
    hide Inv, Bounded;
    CreateInv(s, r, at);
    LowestFree(s);
    hide FirstFree, Busy, SomeFree, AllBusyBelow;
    if at != NULL && at !in s.heap && FirstFree(s.table, 0) < |s.table| {
      EnteredIsBusy(s, FirstFree(s.table, 0), r, at);
    }
  }

  lemma LowestFree(s: State)
    requires |s.table| == MAX_HANDLES
    ensures var h := FirstFree(s.table, 0);
            (h < |s.table| <==> SomeFree(s)) && AllBusyBelow(s, h) && !Busy(s, h)
  {
    assert !Busy(s, FirstFree(s.table, 0));
  }

  lemma EnteredIsBusy(s: State, h: nat, r: Resource, at: nat)
    requires h < |s.table| && at != NULL
    ensures var t := Entered(s, h, r, at);
            Busy(t, h) && t.table[h].ptr == at && t.heap[at] == r
  {
  }

  /** A new pipe is empty and has the capacity asked for. */
  lemma PipeIsCreated(s: State, size: nat, at: nat)
    requires Inv(s)
    ensures var (t, reply) := Step(s, PipeCreate(size, at));
            if size == 0 then reply == Refused && t == s else Creates(s, t, reply, at, Pipe(s.made, size, []))
  {
    hide Inv, Create, Creates;
    if size > 0 { CreateCreates(s, at, Pipe(s.made, size, [])); }
  }

  /** A new queue is empty and has the slots asked for. */
  lemma QueueIsCreated(s: State, max: nat, size: nat, at: nat)
    requires Inv(s)
    ensures var (t, reply) := Step(s, MsgqCreate(max, size, at));
            if max == 0 || size == 0 then reply == Refused && t == s
            else Creates(s, t, reply, at, Msgq(s.made, max, size, 0, []))
  {
    hide Inv, Create, Creates;
    if max > 0 && size > 0 { CreateCreates(s, at, Msgq(s.made, max, size, 0, [])); }
  }

  /** A write is cut to the room that is left, and a read takes from the front; calls for queues are refused. */
  lemma PipeReplies(s: State, call: Call, h: nat)
    requires Inv(s) && Busy(s, h) && Behind(s, h).Pipe? && OnHandle(call, h) && call != Close(h)
    ensures var (t, reply) := Step(s, call);
            var p := Behind(s, h);
            && Inv(t) && Busy(t, h)
            && match call
               case PipeWrite(_, data) =>
                 if data == [] then reply == Refused && t == s
                 else && reply.Count? && (reply.n == |data| <= p.cap - |p.data| || reply.n == p.cap - |p.data| < |data|)
                      && Behind(t, h) == p.(data := p.data + data[..reply.n])
               case PipeRead(_, count) =>
                 if count == 0 then reply == Refused && t == s
                 else if p.data == [] then reply == Waits && t == s
                 else && reply.Data? && reply.bytes <= p.data && p.data == reply.bytes + Behind(t, h).data
                      && (|reply.bytes| == count || (|reply.bytes| < count && Behind(t, h).data == []))
               case _ => reply == Refused && t == s
  {
    assert s.table[h].kind == PIPE && Bounded(Behind(s, h));
    StepInv(s, call);
    StoreSame(s, h);
    hide Inv, Bounded;
    if UsesPipe(call) {
      StepUses(s, call, h);
      hide Step;
      PipeOp(Behind(s, h), call);
    }
  }

  lemma PipeOp(p: Resource, call: Call)
    requires p.Pipe? && Bounded(p) && UsesPipe(call)
    ensures var (r, reply) := Used(p, call);
            && r.Pipe?
            && match call
               case PipeWrite(_, data) =>
                 if data == [] then reply == Refused && r == p
                 else && reply.Count? && (reply.n == |data| <= p.cap - |p.data| || reply.n == p.cap - |p.data| < |data|)
                      && r == p.(data := p.data + data[..reply.n])
               case PipeRead(_, count) =>
                 if count == 0 then reply == Refused && r == p
                 else if p.data == [] then reply == Waits && r == p
                 else && reply.Data? && reply.bytes <= p.data && p.data == reply.bytes + r.data
                      && (|reply.bytes| == count || (|reply.bytes| < count && r.data == []))
  {
  }

  /** A call of the right kind on a busy handle works on the resource behind it. */
  lemma StepUses(s: State, call: Call, h: nat)
    requires Busy(s, h) && s.table[h].ptr in s.heap && s.table[h].kind == KindOf(s.heap[s.table[h].ptr])
    requires OnHandle(call, h) && if s.table[h].kind == PIPE then UsesPipe(call) else UsesQueue(call)
    ensures var e, u := s.table[h], Used(s.heap[s.table[h].ptr], call);
            Step(s, call) == (Store(s, e, u.0), u.1)
  {
  }

  /** A message is stored iff it fits its slot and one is free; a receive takes the oldest; calls for pipes are refused. */
  lemma QueueReplies(s: State, call: Call, h: nat)
    requires Inv(s) && Busy(s, h) && Behind(s, h).Msgq? && OnHandle(call, h) && call != Close(h)
    ensures var (t, reply) := Step(s, call);
            var q := Behind(s, h);
            && Inv(t) && Busy(t, h)
            && match call
               case MsgqSend(_, msg) =>
                 if 0 < |msg| <= q.size && |q.msgs| < q.max then
                   if SendsPast(s, call) then reply == Overrun && t == s
                   else reply == Done && Behind(t, h).msgs == q.msgs + [Padded(msg, q.size)]
                 else reply == Refused && t == s
               case MsgqRecv(_, size) =>
                 if size == 0 || q.msgs == [] then reply == Refused && t == s
                 else && q.msgs == [q.msgs[0]] + Behind(t, h).msgs
                      && reply.Data? && reply.bytes <= q.msgs[0]
                      && (|reply.bytes| == size <= q.size || |reply.bytes| == q.size < size)
               case _ => reply == Refused && t == s
  {
    assert s.table[h].kind == MSGQ && Bounded(Behind(s, h));
    StepInv(s, call);
    StoreSame(s, h);
    hide Inv, Bounded;
    if UsesQueue(call) {
      StepUses(s, call, h);
      StepOverrunIff(s, call);
      hide SendsPast, Step;
      QueueUse(Behind(s, h), call);
    }
  }

  lemma QueueUse(q: Resource, call: Call)
    requires q.Msgq? && Bounded(q) && UsesQueue(call)
    ensures var (r, reply) := Used(q, call);
            && r.Msgq?
            && match call
               case MsgqSend(_, msg) =>
                 if 0 < |msg| <= q.size && |q.msgs| < q.max then
                   (reply == Overrun && r == q) || (reply == Done && r.msgs == q.msgs + [Padded(msg, q.size)])
                 else reply == Refused && r == q
               case MsgqRecv(_, size) =>
                 if size == 0 || q.msgs == [] then reply == Refused && r == q
                 else && q.msgs == [q.msgs[0]] + r.msgs
                      && reply.Data? && reply.bytes <= q.msgs[0]
                      && (|reply.bytes| == size <= q.size || |reply.bytes| == q.size < size)
  {
    hide Inside, Padded, Wraps, WholeSlots;
  }

  lemma StoreSame(s: State, h: nat)
    requires Busy(s, h) && s.table[h].ptr in s.heap
    ensures Store(s, s.table[h], s.heap[s.table[h].ptr]) == s
  {
    assert s.heap[s.table[h].ptr := s.heap[s.table[h].ptr]] == s.heap;
  }

  /** From its creation on, a pipe delivers what it accepted, in order, but for at most its capacity still inside. */
  lemma PipeFromCreation(s: State, size: nat, at: nat, calls: seq<Call>, h: nat)
    requires Inv(s) && Step(s, PipeCreate(size, at)).1 == Handle(h)
    requires var t := Step(s, PipeCreate(size, at)).0; !Closes(calls, h) && !Overruns(t, calls)
    ensures var t := Step(s, PipeCreate(size, at)).0;
            && Delivered(t, calls, h) <= Accepted(t, calls, h)
            && |Accepted(t, calls, h)| <= |Delivered(t, calls, h)| + size
  {
    var t := Step(s, PipeCreate(size, at)).0;
    PipeIsCreated(s, size, at);
    hide Step, Accepted, Delivered, Overruns, Run, Closes;
    PipeConserves(t, calls, h);
    var u := Run(t, calls);
    assert Bounded(u.heap[u.table[h].ptr]);
    assert Behind(t, h).data + Accepted(t, calls, h) == Accepted(t, calls, h);
  }

  /** The same for a queue and its messages. */
  lemma QueueFromCreation(s: State, max: nat, size: nat, at: nat, calls: seq<Call>, h: nat)
    requires Inv(s) && Step(s, MsgqCreate(max, size, at)).1 == Handle(h)
    requires var t := Step(s, MsgqCreate(max, size, at)).0; !Closes(calls, h) && !Overruns(t, calls)
    ensures var t := Step(s, MsgqCreate(max, size, at)).0;
            && Taken(t, calls, h) <= Sent(t, calls, h)
            && |Sent(t, calls, h)| <= |Taken(t, calls, h)| + max
  {
    var t := Step(s, MsgqCreate(max, size, at)).0;
    QueueIsCreated(s, max, size, at);
    hide Step, Sent, Taken, Overruns, Run, Closes;
    MsgqConserves(t, calls, h);
    var u := Run(t, calls);
    assert Bounded(u.heap[u.table[h].ptr]);
    assert Behind(t, h).msgs + Sent(t, calls, h) == Sent(t, calls, h);
  }

  lemma PaddedIs(msg: seq<byte>, size: nat)
    requires |msg| <= size
    ensures Padded(msg, size)[..|msg|] == msg
    ensures forall i :: |msg| <= i < size ==> Padded(msg, size)[i] == 0
  {
  }

  lemma SentAlone(s: State, h: nat, msg: seq<byte>)
    requires Inv(s) && Busy(s, h) && Behind(s, h).Msgq? && Behind(s, h).msgs == []
    requires 0 < |msg| <= Behind(s, h).size && !SendsPast(s, MsgqSend(h, msg))
    ensures var (t, sent) := Step(s, MsgqSend(h, msg));
            && sent == Done && Inv(t) && Busy(t, h) && Behind(t, h).Msgq?
            && Behind(t, h).msgs == [Padded(msg, Behind(s, h).size)] && Behind(t, h).size == Behind(s, h).size
  {
    assert Behind(s, h).max > 0 by { assert Bounded(Behind(s, h)); }
    hide Inv, Step, SendsPast, Padded, Sent1, Taken1;
    QueueReplies(s, MsgqSend(h, msg), h);
    MsgqStep(s, MsgqSend(h, msg), h);
  }

  /** A message sent to an empty queue comes back whole, with zeros behind it up to the size of a slot. */
  lemma SendThenReceive(s: State, h: nat, msg: seq<byte>, size: nat)
    requires Inv(s) && Busy(s, h) && Behind(s, h).Msgq? && Behind(s, h).msgs == []
    requires 0 < |msg| <= Behind(s, h).size <= size && !SendsPast(s, MsgqSend(h, msg))
    ensures var (t, sent) := Step(s, MsgqSend(h, msg));
            var (u, reply) := Step(t, MsgqRecv(h, size));
            && sent == Done && reply.Data? && |reply.bytes| == Behind(s, h).size
            && reply.bytes[..|msg|] == msg
            && (forall i :: |msg| <= i < |reply.bytes| ==> reply.bytes[i] == 0)
            && Inv(u) && Busy(u, h) && Behind(u, h).Msgq? && Behind(u, h).msgs == []
  {
    hide Inv, Step, SendsPast, Padded, Taken1;
    SentAlone(s, h, msg);
    var t, p := Step(s, MsgqSend(h, msg)).0, Padded(msg, Behind(s, h).size);
    QueueReplies(t, MsgqRecv(h, size), h);
    MsgqStep(t, MsgqRecv(h, size), h);
    PaddedIs(msg, Behind(s, h).size);
    assert Step(t, MsgqRecv(h, size)).1.bytes == p;
  }

  // ----- queues whose byte count wraps

  /**
   * The exact condition of one call: a send stores outside its allocation if and only if it is acceptable, the byte
   * count of the queue wraps, and the tail has reached the last whole slot that was allocated.
   */
  lemma OverrunIff(s: State, call: Call, h: nat)
    requires Inv(s) && Busy(s, h) && Behind(s, h).Msgq? && OnHandle(call, h)
    ensures var q := Behind(s, h);
            Step(s, call).1 == Overrun <==>
            && call.MsgqSend? && 0 < |call.msg| <= q.size && Wraps(q.max, q.size)
            && q.tail == WholeSlots(q.max, q.size)
  {
    var q := Behind(s, h);
    assert s.table[h].kind == MSGQ && Bounded(q);
    hide Inv, Inside, Wraps, WholeSlots;
    InsideIff(q.tail, q.max, q.size);
    if call.MsgqRecv? || call.MsgqSend? { assert Typed(s, h, MSGQ) == Some(s.table[h]); }
  }

  /** The call is an acceptable send to a queue whose byte count wraps and whose allocation is used up. */
  ghost predicate SendsPast(s: State, call: Call)
    requires Inv(s)
  {
    && call.MsgqSend? && Busy(s, call.h) && Behind(s, call.h).Msgq?
    && var q := Behind(s, call.h);
    && 0 < |call.msg| <= q.size && Wraps(q.max, q.size) && q.tail == WholeSlots(q.max, q.size)
  }

  /** Nothing else overruns. */
  lemma StepOverrunIff(s: State, call: Call)
    requires Inv(s)
    ensures Step(s, call).1 == Overrun <==> SendsPast(s, call)
  {
    if call.MsgqSend? && Busy(s, call.h) {
      assert KindOf(Behind(s, call.h)) == s.table[call.h].kind;
      if Behind(s, call.h).Msgq? { OverrunIff(s, call, call.h); }
    }
  }

  predicate ProductsFit(calls: seq<Call>) {
    forall i :: 0 <= i < |calls| && calls[i].MsgqCreate? ==> !Wraps(calls[i].max, calls[i].size)
  }

  ghost predicate NoneWraps(s: State) {
    forall p :: p in s.heap && s.heap[p].Msgq? ==> !Wraps(s.heap[p].max, s.heap[p].size)
  }

  lemma NoneWrapsUse(r: Resource, call: Call)
    requires if r.Pipe? then UsesPipe(call) else UsesQueue(call)
    ensures var t := Used(r, call).0;
            KindOf(t) == KindOf(r) && (r.Msgq? ==> t.max == r.max && t.size == r.size)
  {
    hide Inside, Padded;
  }

  lemma NoneWrapsStep(s: State, call: Call)
    requires Inv(s) && NoneWraps(s) && (call.MsgqCreate? ==> !Wraps(call.max, call.size))
    ensures NoneWraps(Step(s, call).0) && Step(s, call).1 != Overrun
  {
    StepOverrunIff(s, call);
    hide Inv, Wraps, WholeSlots, FirstFree, Bounded, Used;
    if UsesPipe(call) || UsesQueue(call) {
      match Typed(s, call.h, if UsesPipe(call) then PIPE else MSGQ)
      case None =>
      case Some(e) =>
        match Deref(s, e, if UsesPipe(call) then PIPE else MSGQ)
        case None =>
        case Some(r) => NoneWrapsUse(r, call);
    }
  }

  /** Some call of the run is such a send. */
  ghost predicate RunSendsPast(s: State, calls: seq<Call>)
    requires Inv(s)
    decreases |calls|
  {
    calls != [] && (SendsPast(s, calls[0]) || (StepInv(s, calls[0]); RunSendsPast(Step(s, calls[0]).0, calls[1..])))
  }

  /** Over every run: a store leaves its allocation if and only if some queue is sent to past it. */
  lemma {:induction false} RunOverrunsIff(s: State, calls: seq<Call>)
    requires Inv(s)
    ensures Overruns(s, calls) <==> RunSendsPast(s, calls)
    decreases |calls|
  {
    hide Inv, Step, SendsPast;
    if calls != [] {
      StepInv(s, calls[0]);
      StepOverrunIff(s, calls[0]);
      RunOverrunsIff(Step(s, calls[0]).0, calls[1..]);
    }
  }

  /** What a caller can do: while every queue is created with a byte count below 2^64, no run overruns. */
  lemma {:induction false} FittingRunsStayInside(s: State, calls: seq<Call>)
    requires Inv(s) && NoneWraps(s) && ProductsFit(calls)
    ensures !Overruns(s, calls)
    decreases |calls|
  {
    hide Inv, Step, Wraps, NoneWraps;
    if calls != [] {
      StepInv(s, calls[0]);
      NoneWrapsStep(s, calls[0]);
      FittingRunsStayInside(Step(s, calls[0]).0, calls[1..]);
    }
  }

  lemma WrappedUse(s: State, call: Call, h: nat)
    requires Busy(s, h) && OnHandle(call, h) && call != Close(h) && s.table[h].ptr in s.heap
    requires s.table[h].kind == MSGQ && s.heap[s.table[h].ptr].Msgq? && Bounded(s.heap[s.table[h].ptr])
    requires Wraps(s.heap[s.table[h].ptr].max, s.heap[s.table[h].ptr].size)
    ensures var t, p := Step(s, call).0, s.table[h].ptr;
            && t.table == s.table && p in t.heap && t.heap[p].Msgq?
            && t.heap[p].max == s.heap[p].max && t.heap[p].size == s.heap[p].size
            && t.heap[p].tail == s.heap[p].tail + |Sent1(s, call, h)|
  {
    var q := s.heap[s.table[h].ptr];
    hide Inside, Wraps, WholeSlots, Padded;
    InsideIff(q.tail, q.max, q.size);
    if q.tail + 1 < q.max { SmallMod(q.tail + 1, q.max); }
    hide Bounded;
  }

  lemma WrappedStep(s: State, call: Call, h: nat)
    requires Inv(s) && Busy(s, h) && Behind(s, h).Msgq? && call != Close(h) && Wraps(Behind(s, h).max, Behind(s, h).size)
    ensures var t := Step(s, call).0;
            && Inv(t) && Busy(t, h) && Behind(t, h).Msgq?
            && Behind(t, h).max == Behind(s, h).max && Behind(t, h).size == Behind(s, h).size
            && Behind(t, h).tail == Behind(s, h).tail + |Sent1(s, call, h)|
  {
    assert s.table[h].kind == MSGQ && Bounded(Behind(s, h));
    hide Inv, Step, Wraps;
    if !OnHandle(call, h) {
      OthersLeaveIt(s, call, h);
    } else {
      hide Sent1;
      StepInv(s, call);
      WrappedUse(s, call, h);
    }
  }

  lemma {:induction false} WrappedQueueCounts(s: State, calls: seq<Call>, h: nat)
    requires Inv(s) && Busy(s, h) && Behind(s, h).Msgq? && !Closes(calls, h) && Wraps(Behind(s, h).max, Behind(s, h).size)
    ensures var t := Run(s, calls);
            && Inv(t) && Busy(t, h) && Behind(t, h).Msgq?
            && Behind(t, h).max == Behind(s, h).max && Behind(t, h).size == Behind(s, h).size
            && Behind(t, h).tail == Behind(s, h).tail + |Sent(s, calls, h)|
    decreases |calls|
  {
    hide Inv, Step, Sent1, Wraps;
    if calls != [] {
      WrappedStep(s, calls[0], h);
      WrappedQueueCounts(Step(s, calls[0]).0, calls[1..], h);
    }
  }

  /**
   * Over whole runs: a fresh queue whose byte count wraps takes exactly as many messages as its allocation has whole
   * slots, and the next acceptable send stores outside it, however many messages were received in between.
   */
  lemma OverrunAfterExactly(s: State, calls: seq<Call>, h: nat, msg: seq<byte>)
    requires Inv(s) && Busy(s, h) && Behind(s, h).Msgq? && !Closes(calls, h) && !Overruns(s, calls)
    requires Wraps(Behind(s, h).max, Behind(s, h).size) && Behind(s, h).tail == 0
    ensures var q := Behind(s, h);
            Step(Run(s, calls), MsgqSend(h, msg)).1 == Overrun <==>
            0 < |msg| <= q.size && |Sent(s, calls, h)| == WholeSlots(q.max, q.size)
  {
    hide Inv, Step, Run, Sent, Wraps, WholeSlots;
    WrappedQueueCounts(s, calls, h);
    OverrunIff(Run(s, calls), MsgqSend(h, msg), h);
  }

  const WRAPPED := 0x2000_0000_0000_0001    // 2^61 + 1 slots of 8 bytes: 8 bytes are allocated

  lemma WrappedQueue()
    ensures Wraps(WRAPPED, 8) && WholeSlots(WRAPPED, 8) == 1
  {
  }

  lemma FirstQueue(call: Call)
    requires call == MsgqCreate(WRAPPED, 8, 1)
    ensures var s := Step(Boot(), call).0;
            Inv(s) && Busy(s, 0) && Behind(s, 0) == Msgq(0, WRAPPED, 8, 0, [])
  {
    BootInv();
    StepInv(Boot(), call);
    assert FirstFree(Boot().table, 0) == 0;
  }

  lemma FirstSend(s: State, msg: seq<byte>)
    requires Inv(s) && Busy(s, 0) && Behind(s, 0) == Msgq(0, WRAPPED, 8, 0, []) && 0 < |msg| <= 8
    ensures Step(s, MsgqSend(0, msg)).1 == Done && |Sent(s, [MsgqSend(0, msg)], 0)| == 1
  {
    WrappedQueue();
    OverrunIff(s, MsgqSend(0, msg), 0);
    assert s.table[0].kind == MSGQ;
    hide Inv, Wraps, WholeSlots, Inside, Padded;
    assert Typed(s, 0, MSGQ) == Some(s.table[0]);
    assert Step(s, MsgqSend(0, msg)).1 == Done;
    assert [MsgqSend(0, msg)][1..] == [];
    assert Sent(s, [MsgqSend(0, msg)], 0) == Sent1(s, MsgqSend(0, msg), 0) + [];
  }

  /** A failing run: the second message is stored behind the allocation. */
  lemma WrappedQueueOverruns(msg: seq<byte>)
    requires 0 < |msg| <= 8
    ensures Overruns(Boot(), [MsgqCreate(WRAPPED, 8, 1), MsgqSend(0, msg), MsgqSend(0, msg)])
  {
    var create, send := MsgqCreate(WRAPPED, 8, 1), MsgqSend(0, msg);
    var calls := [create, send, send];
    FirstQueue(create);
    hide Inv, Step;
    var s1 := Step(Boot(), create).0;
    FirstSend(s1, msg);
    WrappedQueue();
    hide Wraps, WholeSlots;
    OverrunAfterExactly(s1, [send], 0, msg);
    var s2 := Step(s1, send).0;
    assert Run(s1, [send]) == s2 by { assert [send][1..] == []; }
    assert calls[1..] == [send, send] && [send, send][1..] == [send];
    assert Overruns(s2, [send]);
    assert Overruns(s1, [send, send]);
  }
}

/** The table of handles and the dispatcher, serving every call from the ring buffers themselves. */
module Syscalls {
  import opened Basics
  import opened Bytes
  import opened SyscallSpec
  import P = PipeRing
  import Q = MessageRing

  class HandleTable {
    const entries: array<Entry>

    constructor ()
      ensures fresh(entries) && entries.Length == MAX_HANDLES && entries[..] == Boot().table
    {
      entries := new Entry[MAX_HANDLES](i => FREE);
    }

    /** vrt_alloc, with None for VRT_HANDLE_INVALID */
    method Alloc(kind: Kind, ptr: nat) returns (h: Option<nat>)
      modifies entries
      ensures var k := FirstFree(old(entries[..]), 0);
              && h == (if k == entries.Length then None else Some(k))
              && entries[..] == if k == entries.Length then old(entries[..]) else old(entries[..])[k := Entry(kind, ptr)]
    {
      for i := 0 to entries.Length
        invariant entries[..] == old(entries[..])
        invariant FirstFree(entries[..], i) == FirstFree(entries[..], 0)
      {
        if entries[i].ptr == NULL {
          entries[i] := Entry(kind, ptr);
          return Some(i);
        }
      }
      return None;
    }

    /** vrt_free */
    method Free(h: nat)
      modifies entries
      ensures entries[..] == if h < entries.Length then old(entries[..])[h := FREE] else old(entries[..])
    {
      if h < entries.Length {
        entries[h] := FREE;
      }
    }
  }

  /** What a resource pointer points to. */
  datatype Cell = PipeCell(p: P.Pipe) | QueueCell(q: Q.MessageQueue)

  function KindOfCell(c: Cell): Kind { if c.PipeCell? then PIPE else MSGQ }

  ghost function Foot(c: Cell): set<object> {
    match c
    case PipeCell(p) => {p, p.buf}
    case QueueCell(q) => {q, q.buf}
  }

  /** The ring buffer holds exactly what the specification says of the resource. */
  ghost predicate CellIs(c: Cell, r: Resource)
    reads Foot(c)
  {
    match c
    case PipeCell(p) => p.Valid() && !p.closing && r.Pipe? && p.buf.Length == r.cap && p.Contents() == r.data
    case QueueCell(q) =>
      && q.Valid() && !q.closing && r.Msgq? && q.maxMessages == r.max && q.messageSize == r.size
      && q.tail == r.tail && q.Contents() == r.msgs
  }

  lemma CellKind(c: Cell, r: Resource)
    requires CellIs(c, r)
    ensures KindOfCell(c) == KindOf(r)
  {
  }

  /** Reading and writing the ring buffer is reading and writing the specified pipe. */
  method UsePipe(p: P.Pipe, ghost r: Resource, call: Call) returns (reply: Reply)
    requires CellIs(PipeCell(p), r) && UsesPipe(call)
    modifies p, p.buf
    ensures CellIs(PipeCell(p), Used(r, call).0) && reply == Used(r, call).1
  {
    match call {
      case PipeRead(_, count) =>
        var out := p.Read(count);
        reply := if count == 0 then Refused else if out.None? then Waits else Data(out.value);
      case PipeWrite(_, data) =>
        var n := p.Write(data);
        reply := if n < 0 then Refused else Count(n);
    }
  }

  /** Sending to and receiving from the ring of slots is what the specified queue does. */
  method UseQueue(q: Q.MessageQueue, ghost r: Resource, call: Call) returns (reply: Reply)
    requires CellIs(QueueCell(q), r) && Bounded(r) && UsesQueue(call)
    modifies q, q.buf
    ensures CellIs(QueueCell(q), Used(r, call).0) && reply == Used(r, call).1
  {
    hide Q.Inside, Q.Padded;
    match call {
      case MsgqSend(_, msg) =>
        var rc, fault := q.Send(msg);
        reply := if fault then Overrun else if rc < 0 then Refused else Done;
      case MsgqRecv(_, size) =>
        var out := q.Receive(size);
        reply := if out.None? then Refused else Data(out.value);
    }
  }

  method UseCell(c: Cell, ghost r: Resource, call: Call) returns (reply: Reply)
    requires CellIs(c, r) && Bounded(r) && KindOf(r) == KindOfCell(c)
    requires if c.PipeCell? then UsesPipe(call) else UsesQueue(call)
    modifies Foot(c)
    ensures CellIs(c, Used(r, call).0) && reply == Used(r, call).1
  {
    hide CellIs, Used, Bounded;
    match c {
      case PipeCell(p) => reply := UsePipe(p, r, call);
      case QueueCell(q) => reply := UseQueue(q, r, call);
    }
  }

  // ----- all resources together

  /** No two resources share an object or its memory. */
  ghost predicate Disjoint(cells: map<nat, Cell>) {
    forall a, b :: a in cells && b in cells && a != b ==> Foot(cells[a]) !! Foot(cells[b])
  }

  /** Every resource is live, within `repr`, with the contents the specification gives it, and there is no other. */
  ghost predicate AllAre(cells: map<nat, Cell>, heap: map<nat, Resource>, repr: set<object>)
    reads repr
  {
    cells.Keys == heap.Keys && forall a :: a in cells ==> Foot(cells[a]) <= repr && CellIs(cells[a], heap[a])
  }

  lemma CellAt(cells: map<nat, Cell>, heap: map<nat, Resource>, repr: set<object>, a: nat)
    requires AllAre(cells, heap, repr) && a in heap
    ensures a in cells && KindOfCell(cells[a]) == KindOf(heap[a]) && Foot(cells[a]) <= repr
  {
    CellKind(cells[a], heap[a]);
    hide CellIs;
  }

  lemma AddedCell(cells: map<nat, Cell>, heap: map<nat, Resource>, repr: set<object>, a: nat, c: Cell, r: Resource)
    requires AllAre(cells, heap, repr) && Disjoint(cells) && a !in cells && CellIs(c, r) && Foot(c) !! repr
    ensures AllAre(cells[a := c], heap[a := r], repr + Foot(c)) && Disjoint(cells[a := c])
  {
    hide CellIs, Foot;
  }

  lemma RemovedCell(cells: map<nat, Cell>, heap: map<nat, Resource>, repr: set<object>, a: nat)
    requires AllAre(cells, heap, repr) && Disjoint(cells)
    ensures AllAre(cells - {a}, heap - {a}, repr) && Disjoint(cells - {a})
  {
    hide CellIs, Foot;
  }

  /** A call on one ring buffer leaves all others alone. */
  method UseOne(cells: map<nat, Cell>, ghost heap: map<nat, Resource>, ghost repr: set<object>, a: nat, call: Call)
    returns (reply: Reply)
    requires AllAre(cells, heap, repr) && Disjoint(cells) && a in cells && Bounded(heap[a])
    requires KindOf(heap[a]) == KindOfCell(cells[a])
    requires if cells[a].PipeCell? then UsesPipe(call) else UsesQueue(call)
    modifies Foot(cells[a])
    ensures AllAre(cells, heap[a := Used(heap[a], call).0], repr) && reply == Used(heap[a], call).1
  {
    hide CellIs, Foot, Used, Bounded;
    reply := UseCell(cells[a], heap[a], call);
    forall b | b in cells && b != a ensures CellIs(cells[b], heap[b]) {
      assert old(CellIs(cells[b], heap[b]));
    }
  }

  class Kernel {
    const vrt: HandleTable

    /** The live resources by address. */
    var cells: map<nat, Cell>

    /** The specification's state, and the objects behind the resources. */
    ghost var view: State
    ghost var repr: set<object>

    ghost predicate Holds()
      reads this, vrt.entries, repr
    {
      && vrt.entries !in repr && this !in repr
      && vrt.entries[..] == view.table && Disjoint(cells) && AllAre(cells, view.heap, repr)
    }

    ghost predicate Valid()
      reads this, vrt.entries, repr
    {
      Inv(view) && Holds()
    }

    constructor ()
      ensures Valid() && fresh(vrt) && fresh(vrt.entries) && repr == {} && view == Boot()
    {
      vrt := new HandleTable();
      cells, view, repr := map[], Boot(), {};
      new;
      BootInv();
    }

    /** vrt_get */
    method GetEntry(h: nat) returns (e: Option<Entry>)
      requires vrt.entries[..] == view.table
      ensures e == Get(view, h)
    {
      if h >= vrt.entries.Length || vrt.entries[h].ptr == NULL {
        return None;
      }
      return Some(vrt.entries[h]);
    }

    /** A read, write, send or receive: the handle must name a resource of the kind the call works on. */
    method UseHandle(call: Call) returns (reply: Reply)
      requires Valid() && (UsesPipe(call) || UsesQueue(call))
      modifies this`view, repr
      ensures Holds() && repr == old(repr) && (view, reply) == Step(old(view), call)
    {
      hide AllAre, Disjoint, Foot, Used, Bounded, Inv;
      var e := GetEntry(call.h);
      if e.None? || e.value.kind != (if UsesPipe(call) then PIPE else MSGQ) {
        return Refused;
      }
      var ptr := e.value.ptr;
      HandleNames(view, call.h);
      CellAt(cells, view.heap, repr, ptr);
      ghost var r := view.heap[ptr];
      reply := UseOne(cells, view.heap, repr, ptr, call);
      view := SyscallSpec.Store(view, e.value, Used(r, call).0);
    }

    // ----- create and close

    /** vrt_alloc for a new resource and, when the table is full, its destruction again */
    method Enter(c: Cell, ghost r: Resource, at: nat) returns (reply: Reply)
      requires Holds() && at != NULL && at !in view.heap
      requires CellIs(c, r) && KindOf(r) == KindOfCell(c) && Foot(c) !! repr && vrt.entries !in Foot(c) && this !in Foot(c)
      modifies this`cells, this`view, this`repr, vrt.entries
      ensures Holds() && repr <= old(repr) + Foot(c)
      ensures (view, reply) == Create(old(view), r, at)
    {
      assert at !in cells;
      hide AllAre, Disjoint, CellIs, FirstFree;
      hide Foot;
      ghost var s := view;
      var h := TakeHandle(c, r, at);
      if h.None? {
        view := Create(s, r, at).0;
        return Refused;
      }
      Place(c, r, at);
      view := Create(s, r, at).0;
      return Handle(h.value);
    }

    /** vrt_alloc touches the table alone. */
    method TakeHandle(c: Cell, ghost r: Resource, at: nat) returns (h: Option<nat>)
      requires Holds() && CellIs(c, r) && vrt.entries !in Foot(c)
      modifies vrt.entries
      ensures var table := old(view).table;
              var k := FirstFree(table, 0);
              && h == (if k == |table| then None else Some(k))
              && vrt.entries[..] == if k == |table| then table else table[k := Entry(KindOfCell(c), at)]
      ensures Disjoint(cells) && AllAre(cells, view.heap, repr) && CellIs(c, r)
    {
      hide AllAre, Disjoint, CellIs, FirstFree;
      h := vrt.Alloc(KindOfCell(c), at);
    }

    /** A new object at its address. */
    method Place(c: Cell, ghost r: Resource, at: nat)
      requires Disjoint(cells) && AllAre(cells, view.heap, repr)
      requires at !in cells && CellIs(c, r) && Foot(c) !! repr && this !in Foot(c) && this !in repr
      modifies this`cells, this`repr
      ensures repr == old(repr) + Foot(c) && Disjoint(cells) && AllAre(cells, view.heap[at := r], repr)
    {
      hide AllAre, Disjoint, CellIs, Foot;
      AddedCell(cells, view.heap, repr, at, c, r);
      cells, repr := cells[at := c], repr + Foot(c);
    }

    /** pipe_destroy or msgq_destroy, by the recorded type, then vrt_free */
    method CloseEntry(h: nat) returns (reply: Reply)
      requires Valid()
      modifies this`cells, this`view, vrt.entries
      ensures Holds() && repr == old(repr) && (view, reply) == Step(old(view), Close(h))
    {
      hide AllAre, Disjoint, Foot, Bounded, Inv;
      var e := GetEntry(h);
      if e.None? {
        return Refused;
      }
      HandleNames(view, h);
      RemovedCell(cells, view.heap, repr, e.value.ptr);
      view := Step(view, Close(h)).0;
      cells := cells - {e.value.ptr};
      vrt.Free(h);
      return Done;
    }

    method CreatePipe(size: nat, at: nat) returns (reply: Reply)
      requires Holds()
      modifies this`cells, this`view, this`repr, vrt.entries
      ensures Holds() && fresh(repr - old(repr)) && (view, reply) == Step(old(view), PipeCreate(size, at))
    {
      assert cells.Keys == view.heap.Keys;
      hide AllAre, Disjoint;
      if size == 0 || at == NULL || at in cells {
        return Refused;
      }
      var p := new P.Pipe(size);
      ghost var r := SyscallSpec.Pipe(view.made, size, []);
      assert CellIs(PipeCell(p), r);
      hide CellIs;
      reply := Enter(PipeCell(p), r, at);
    }

    method CreateQueue(max: nat, size: nat, at: nat) returns (reply: Reply)
      requires Holds()
      modifies this`cells, this`view, this`repr, vrt.entries
      ensures Holds() && fresh(repr - old(repr)) && (view, reply) == Step(old(view), MsgqCreate(max, size, at))
    {
      assert cells.Keys == view.heap.Keys;
      hide AllAre, Disjoint;
      if max == 0 || size == 0 || at == NULL || at in cells {
        return Refused;
      }
      var q := new Q.MessageQueue(max, size);
      ghost var r := Msgq(view.made, max, size, 0, []);
      assert CellIs(QueueCell(q), r);
      hide CellIs;
      reply := Enter(QueueCell(q), r, at);
    }

    /**
     * fl_syscall_dispatch, with every byte and message kept in the ring buffers: exactly the specified step, and
     * never a fault.  An overrun is the one reply after which the memory is no longer the specified one.
     */
    method Dispatch(call: Call) returns (reply: Reply)
      requires Valid()
      modifies this`cells, this`view, this`repr, vrt.entries, repr
      ensures Valid() && fresh(repr - old(repr)) && reply != Fault
      ensures (view, reply) == Step(old(view), call)
    {
      StepInv(view, call);
      hide Inv, Step, Holds;
      match call {
        case PipeCreate(size, at) => reply := CreatePipe(size, at);
        case MsgqCreate(max, size, at) => reply := CreateQueue(max, size, at);
        case Close(h) => reply := CloseEntry(h);
        case _ => reply := UseHandle(call);
      }
    }
  }

  lemma HandleNames(s: State, h: nat)
    requires Inv(s) && Get(s, h).Some?
    ensures var e := s.table[h]; e.ptr in s.heap && KindOf(s.heap[e.ptr]) == e.kind && Bounded(s.heap[e.ptr])
  {
    assert Busy(s, h);
  }
}
