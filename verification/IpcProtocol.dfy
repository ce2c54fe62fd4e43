/**
 * The shutdown protocol of pipes and message queues on the host: readers wait on a condition
 * variable, writers broadcast it, and one destroyer closes the object and waits until every
 * waiting reader has left.  Readers and writers take the mutex in one step and give it back, or go to sleep,
 * in another, because the destroyer frees the object without holding it; sleepers may also wake without
 * being signalled.
 */
module IpcProtocol {
  import opened Basics
  import Seqs

  /** Message queues refuse receivers that arrive after closing, and their waits can time out. */
  datatype Kind = Pipe | MessageQueue

  datatype Reader =
    | Outside     // no call in progress
    | AtLock      // called, mutex not yet taken
    | Holding     // has taken the mutex
    | Parked      // asleep on can_read
    | Woken       // awake, mutex not yet retaken
    | Resumed     // has retaken the mutex
    | Returned    // the call is over

  datatype Writer =
    | Idle        // no call in progress
    | Arriving    // called, mutex not yet taken
    | Writing     // has taken the mutex
    | Finished    // the call is over

  datatype Destroyer =
    | NotStarted
    | Asleep      // waiting for drain
    | Awake       // signalled, mutex not yet retaken
    | Drained     // has seen no waiters and given the mutex back
    | Freed       // has destroyed the mutex, and frees the rest

  datatype Owner = Nobody | ReaderHas(r: nat) | WriterHas(w: nat)

  /**
   * `items` is what the ring buffer holds; `accepted` and `delivered` record all that went in and out.
   * `touched` says that some thread has used the object after it was freed.
   */
  datatype State = State(
    kind: Kind,
    cap: nat,
    items: seq<int>,
    closing: bool,
    waiters: int,
    readers: seq<Reader>,
    writers: seq<Writer>,
    destroyer: Destroyer,
    mutex: Owner,
    touched: bool,
    accepted: seq<int>,
    delivered: seq<int>)

  function Init(kind: Kind, cap: nat, readers: nat, writers: nat): State {
    State(kind, cap, [], false, 0, seq(readers, i => Outside), seq(writers, i => Idle), NotStarted, Nobody, false,
          [], [])
  }

  datatype Step =
    | CallWrite(w: nat)
    | LockWrite(w: nat)
    | Write(w: nat, data: seq<int>)
    | Call(r: nat)
    | Lock(r: nat)
    | Enter(r: nat, count: nat, mayWait: bool)
    | Wake(r: nat)
    | Relock(r: nat)
    | Resume(r: nat, count: nat, timedOut: bool)
    | DestroyBegin
    | DestroyWake
    | DestroyResume
    | DestroyFree

  // ----- who may step

  predicate At(s: State, r: nat, pc: Reader) {
    r < |s.readers| && s.readers[r] == pc
  }

  predicate WriterAt(s: State, w: nat, pc: Writer) {
    w < |s.writers| && s.writers[w] == pc
  }

  /** A call moves any positive number of bytes, or one message. */
  predicate IsCount(s: State, n: nat) { n > 0 && (s.kind == MessageQueue ==> n == 1) }

  /** The mutex can be taken; that of a freed object holds anything. */
  predicate CanLock(s: State) { s.mutex == Nobody || s.destroyer == Freed }

  /** The destroyer takes the mutex to look at the waiters, and not to free the object. */
  predicate Enabled(s: State, step: Step) {
    match step
    case CallWrite(w) => WriterAt(s, w, Idle)
    case LockWrite(w) => WriterAt(s, w, Arriving) && CanLock(s)
    case Write(w, data) => WriterAt(s, w, Writing) && IsCount(s, |data|)
    case Call(r) => At(s, r, Outside)
    case Lock(r) => At(s, r, AtLock) && CanLock(s)
    case Enter(r, count, _) => At(s, r, Holding) && IsCount(s, count)
    case Wake(r) => At(s, r, Parked)
    case Relock(r) => At(s, r, Woken) && s.mutex == Nobody
    case Resume(r, count, timedOut) => At(s, r, Resumed) && IsCount(s, count) && (timedOut ==> s.kind == MessageQueue)
    case DestroyBegin => s.destroyer == NotStarted && s.mutex == Nobody
    case DestroyWake => s.destroyer == Asleep
    case DestroyResume => s.destroyer == Awake && s.mutex == Nobody
    case DestroyFree => s.destroyer == Drained
  }

  // ----- what a step does

  /** pthread_cond_broadcast(can_read) */
  function WakeAll(readers: seq<Reader>): (w: seq<Reader>)
    ensures |w| == |readers|
  {
    seq(|readers|, i requires 0 <= i < |readers| => if readers[i] == Parked then Woken else readers[i])
  }

  function Store(s: State, data: seq<int>): State {
    var n := if s.cap > |s.items| then Min(|data|, s.cap - |s.items|) else 0;
    s.(items := s.items + data[..n], accepted := s.accepted + data[..n],
       readers := if n > 0 then WakeAll(s.readers) else s.readers)
  }

  /** Takes up to `count` items for reader `r`, whose call ends. */
  function Take(s: State, r: nat, count: nat): State
    requires r < |s.readers|
  {
    var n := Min(count, |s.items|);
    s.(items := s.items[n..], delivered := s.delivered + s.items[..n], readers := s.readers[r := Returned])
  }

  function Leave(s: State, r: nat): State
    requires r < |s.readers|
  {
    s.(readers := s.readers[r := Returned])
  }

  function Park(s: State, r: nat): State
    requires r < |s.readers|
  {
    s.(waiters := s.waiters + 1, readers := s.readers[r := Parked])
  }

  /** The loop test and what follows it, with the mutex held. */
  function Proceed(s: State, r: nat, count: nat, mayWait: bool): State
    requires r < |s.readers|
  {
    if s.items == [] then
      if s.closing || !mayWait then Leave(s, r) else Park(s, r)
    else Take(s, r, count)
  }

  /** A reader that has retaken the mutex stops being a waiter and signals the destroyer. */
  function Unpark(s: State, r: nat): State {
    s.(waiters := s.waiters - 1, destroyer := if s.destroyer == Asleep then Awake else s.destroyer)
  }

  /** The destroyer's loop: sleep while there are waiters. */
  function AwaitDrain(s: State): State {
    s.(destroyer := if s.waiters > 0 then Asleep else Drained)
  }

  /** pthread_mutex_unlock, or the release by pthread_cond_wait */
  function Release(s: State): State { s.(mutex := Nobody) }

  function Next(s: State, step: Step): State
    requires Enabled(s, step)
  {
    match step
    case CallWrite(w) => s.(writers := s.writers[w := Arriving])
    case LockWrite(w) =>
      if s.destroyer == Freed then s.(writers := s.writers[w := Finished], touched := true)
      else s.(writers := s.writers[w := Writing], mutex := WriterHas(w))
    case Write(w, data) =>
      var t := Release(s).(writers := s.writers[w := Finished]);
      if s.destroyer == Freed then t.(touched := true) else if s.closing then t else Store(t, data)
    case Call(r) => s.(readers := s.readers[r := AtLock])
    case Lock(r) =>
      if s.destroyer == Freed then Leave(s, r).(touched := true)
      else s.(readers := s.readers[r := Holding], mutex := ReaderHas(r))
    case Enter(r, count, mayWait) =>
      var u := Release(s);
      if s.destroyer == Freed then Leave(u, r).(touched := true)
      else if s.kind == MessageQueue && s.closing then Leave(u, r)
      else Proceed(u, r, count, s.kind == Pipe || mayWait)
    case Wake(r) => s.(readers := s.readers[r := Woken])
    case Relock(r) => s.(readers := s.readers[r := Resumed], mutex := ReaderHas(r))
    case Resume(r, count, timedOut) =>
      var u := Unpark(Release(s), r);
      if timedOut then Leave(u, r) else Proceed(u, r, count, true)
    case DestroyBegin => AwaitDrain(s.(closing := true, readers := WakeAll(s.readers)))
    case DestroyWake => s.(destroyer := Awake)
    case DestroyResume => AwaitDrain(s)
    case DestroyFree => s.(destroyer := Freed)
  }

  // ----- invariant

  predicate IsWaiting(pc: Reader) { pc == Parked || pc == Woken || pc == Resumed }

  predicate Owns(pc: Reader) { pc == Holding || pc == Resumed }

  /** The mutex has at most one owner, and names it. */
  ghost predicate MutexOk(s: State) {
    && (forall r :: 0 <= r < |s.readers| ==> (Owns(s.readers[r]) <==> s.mutex == ReaderHas(r)))
    && (forall w :: 0 <= w < |s.writers| ==> (s.writers[w] == Writing <==> s.mutex == WriterHas(w)))
    && (s.mutex.ReaderHas? ==> s.mutex.r < |s.readers|)
    && (s.mutex.WriterHas? ==> s.mutex.w < |s.writers|)
  }

  /** Readers asleep, or awake and not yet back in the loop. */
  function Waiting(readers: seq<Reader>): nat {
    if readers == [] then 0
    else Waiting(readers[..|readers| - 1]) + (if IsWaiting(readers[|readers| - 1]) then 1 else 0)
  }

  ghost predicate NoneParked(readers: seq<Reader>) {
    forall r :: 0 <= r < |readers| ==> readers[r] != Parked
  }

  ghost predicate Inv(s: State) { DrainOk(s) && MutexOk(s) }

  ghost predicate DrainOk(s: State) {
    && s.waiters == Waiting(s.readers)
    && (s.closing <==> s.destroyer != NotStarted)
    && (s.closing || s.items != [] ==> NoneParked(s.readers))
    && (s.destroyer == Asleep ==> s.waiters > 0)
    && (s.destroyer == Drained || s.destroyer == Freed ==> s.waiters == 0)
    && (s.touched ==> s.destroyer == Freed)
    && s.accepted == s.delivered + s.items
    && |s.items| <= s.cap
  }

  lemma {:induction false} WaitingUpdate(readers: seq<Reader>, r: nat, pc: Reader)
    requires r < |readers|
    ensures Waiting(readers[r := pc]) ==
            Waiting(readers) - (if IsWaiting(readers[r]) then 1 else 0) + (if IsWaiting(pc) then 1 else 0)
    decreases |readers|
  {
    var n := |readers| - 1;
    if r == n {
      assert readers[r := pc][..n] == readers[..n];
    } else {
      assert readers[r := pc][..n] == readers[..n][r := pc];
      WaitingUpdate(readers[..n], r, pc);
    }
  }

  lemma {:induction false} WakeAllWaiting(readers: seq<Reader>)
    ensures Waiting(WakeAll(readers)) == Waiting(readers)
    ensures NoneParked(WakeAll(readers))
  {
    if readers != [] {
      var n := |readers| - 1;
      assert WakeAll(readers)[..n] == WakeAll(readers[..n]);
      WakeAllWaiting(readers[..n]);
    }
  }

  lemma InitInv(kind: Kind, cap: nat, readers: nat, writers: nat)
    ensures Inv(Init(kind, cap, readers, writers))
  {
    NobodyWaits(readers);
  }

  lemma {:induction false} NobodyWaits(n: nat)
    ensures Waiting(seq(n, i => Outside)) == 0
  {
    if n > 0 {
      NobodyWaits(n - 1);
      assert seq(n, i => Outside)[..n - 1] == seq(n - 1, i => Outside);
    }
  }

  lemma TakeInv(s: State, r: nat, count: nat)
    requires DrainOk(s) && r < |s.readers| && !IsWaiting(s.readers[r])
    ensures DrainOk(Take(s, r, count))
  {
    MoveInv(s, r, Returned);
    hide NoneParked, Waiting;
    var n := Min(count, |s.items|);
    Seqs.ConcatAssoc(s.delivered, s.items[..n], s.items[n..]);
    assert s.items == s.items[..n] + s.items[n..];
  }

  lemma ParkInv(s: State, r: nat)
    requires DrainOk(s) && r < |s.readers| && !IsWaiting(s.readers[r]) && !s.closing && s.items == []
    ensures DrainOk(Park(s, r))
  {
    WaitingUpdate(s.readers, r, Parked);
    hide Waiting, NoneParked;
  }

  lemma ProceedInv(s: State, r: nat, count: nat, mayWait: bool)
    requires DrainOk(s) && r < |s.readers| && !IsWaiting(s.readers[r])
    ensures DrainOk(Proceed(s, r, count, mayWait))
  {
    hide DrainOk, Take, Park;
    if s.items != [] {
      TakeInv(s, r, count);
    } else if s.closing || !mayWait {
      MoveInv(s, r, Returned);
    } else {
      ParkInv(s, r);
    }
  }

  /** Every step of every thread keeps the invariant. */
  lemma NextInv(s: State, step: Step)
    requires Inv(s) && Enabled(s, step)
    ensures Inv(Next(s, step))
  {
    hide DrainOk, MutexOk, Next;
    NextDrain(s, step);
    NextMutex(s, step);
  }

  lemma NextDrain(s: State, step: Step)
    requires DrainOk(s) && Enabled(s, step)
    ensures DrainOk(Next(s, step))
  {
    match step
    case CallWrite(w) =>
    case LockWrite(w) =>
    case Write(w, data) => if !s.closing { StoreInv(Release(s).(writers := s.writers[w := Finished]), data); }
    case Call(r) => MoveInv(s, r, AtLock);
    case Lock(r) => MoveInv(s, r, if s.destroyer == Freed then Returned else Holding);
    case Enter(r, count, mayWait) => EnterInv(s, r, count, mayWait);
    case Wake(r) => MoveInv(s, r, Woken);
    case Relock(r) => MoveInv(s, r, Resumed);
    case Resume(r, count, timedOut) => ResumeInv(Release(s), r, count, timedOut);
    case DestroyBegin => BeginInv(s);
    case DestroyWake =>
    case DestroyResume =>
    case DestroyFree =>
  }

  lemma EnterInv(s: State, r: nat, count: nat, mayWait: bool)
    requires DrainOk(s) && Enabled(s, Enter(r, count, mayWait))
    ensures DrainOk(Next(s, Enter(r, count, mayWait)))
  {
    MoveInv(Release(s), r, Returned);
    ProceedInv(Release(s), r, count, s.kind == Pipe || mayWait);
    hide Proceed, Waiting, NoneParked;
  }

  /** Taking the mutex, giving it back and everything else keep its one owner. */
  lemma NextMutex(s: State, step: Step)
    requires MutexOk(s) && Enabled(s, step)
    ensures MutexOk(Next(s, step))
  {
    var t := Next(s, step);
    if step.Enter? || step.Resume? {
      ReaderReleases(s, step);
    } else if step.Write? {
      assert forall r :: 0 <= r < |s.readers| ==> Owns(t.readers[r]) == Owns(s.readers[r]);
    }
  }

  lemma ReaderReleases(s: State, step: Step)
    requires MutexOk(s) && Enabled(s, step) && (step.Enter? || step.Resume?)
    ensures MutexOk(Next(s, step)) && Next(s, step).mutex == Nobody
  {
    var t := Next(s, step);
    assert Owns(s.readers[step.r]) && s.mutex == ReaderHas(step.r);
    assert t.writers == s.writers && t.mutex == Nobody && !Owns(t.readers[step.r]);
    assert forall r :: 0 <= r < |s.readers| && r != step.r ==> t.readers[r] == s.readers[r];
  }

  lemma StoreInv(s: State, data: seq<int>)
    requires DrainOk(s) && !s.closing
    ensures DrainOk(Store(s, data))
  {
    WakeAllWaiting(s.readers);
  }

  lemma BeginInv(s: State)
    requires DrainOk(s) && s.destroyer == NotStarted
    ensures DrainOk(AwaitDrain(s.(closing := true, readers := WakeAll(s.readers))))
  {
    WakeAllWaiting(s.readers);
  }

  /** A reader may change its place as long as it stays waiting or stays not waiting. */
  lemma MoveInv(s: State, r: nat, pc: Reader)
    requires DrainOk(s) && r < |s.readers| && IsWaiting(s.readers[r]) == IsWaiting(pc) && pc != Parked
    ensures DrainOk(s.(readers := s.readers[r := pc]))
  {
    WaitingUpdate(s.readers, r, pc);
  }

  /** A resumed reader is first taken off the waiters, then behaves like one that has just taken the mutex. */
  lemma ResumeInv(s: State, r: nat, count: nat, timedOut: bool)
    requires DrainOk(s) && At(s, r, Resumed)
    ensures var u := Unpark(s, r); DrainOk(if timedOut then Leave(u, r) else Proceed(u, r, count, true))
  {
    WaitingUpdate(s.readers, r, AtLock);
    WaitingUpdate(s.readers, r, Returned);
    WaitingUpdate(s.readers, r, Parked);
    var u := Unpark(s, r);
    var v := u.(readers := s.readers[r := AtLock]);
    assert DrainOk(v);
    ProceedInv(v, r, count, true);
    assert v.readers[r := Returned] == u.readers[r := Returned];
    assert v.readers[r := Parked] == u.readers[r := Parked];
    assert Proceed(v, r, count, true) == Proceed(u, r, count, true);
  }

  // ----- what the calls do

  /**
   * A write stores what there is room for, unless the object is closing, gives the mutex back, and wakes every sleeping
   * reader if it stored anything.
   */
  lemma WriteStores(s: State, w: nat, data: seq<int>)
    requires Inv(s) && Enabled(s, Write(w, data)) && s.destroyer != Freed
    ensures var t := Next(s, Write(w, data));
            var n := if s.closing then 0 else Min(|data|, s.cap - |s.items|);
            && t.items == s.items + data[..n] && t.accepted == s.accepted + data[..n] && t.delivered == s.delivered
            && t.mutex == Nobody && t.writers == s.writers[w := Finished] && |t.readers| == |s.readers|
            && (forall r :: 0 <= r < |s.readers| ==>
                  t.readers[r] == if n > 0 && s.readers[r] == Parked then Woken else s.readers[r])
            && t.waiters == s.waiters && t.closing == s.closing && t.destroyer == s.destroyer
  {
  }

  /** Reader `r` has taken `n` items and gone to sleep or returned. */
  ghost predicate Reads(s: State, t: State, r: nat, n: nat, waits: bool)
    requires r < |s.readers| && n <= |s.items|
  {
    && t.items == s.items[n..] && t.delivered == s.delivered + s.items[..n] && t.accepted == s.accepted
    && t.mutex == Nobody && t.writers == s.writers && t.closing == s.closing
    && t.readers == s.readers[r := if s.items == [] && waits then Parked else Returned]
  }

  predicate SameBuffer(s: State, u: State) {
    && u.items == s.items && u.delivered == s.delivered && u.accepted == s.accepted && u.mutex == Nobody
    && u.writers == s.writers && u.closing == s.closing && u.readers == s.readers
  }

  lemma LeaveReads(s: State, u: State, r: nat)
    requires r < |s.readers| && SameBuffer(s, u)
    ensures Reads(s, Leave(u, r), r, 0, false)
  {
    assert s.items[0..] == s.items && s.delivered + s.items[..0] == s.delivered;
  }

  lemma ProceedReads(s: State, u: State, r: nat, count: nat, mayWait: bool)
    requires r < |s.readers| && SameBuffer(s, u)
    ensures Reads(s, Proceed(u, r, count, mayWait), r, Min(count, |s.items|), !s.closing && mayWait)
  {
    if s.items == [] { assert s.delivered + s.items[..0] == s.delivered; }
  }

  /**
   * A read takes the oldest items, as many as it asks for and there are.  From an empty buffer a pipe reader goes to
   * sleep unless the pipe is closing, and a receiver unless it may not wait; a receiver that finds the queue closing
   * takes nothing.
   */
  lemma EnterReads(s: State, r: nat, count: nat, mayWait: bool)
    requires Enabled(s, Enter(r, count, mayWait)) && s.destroyer != Freed
    ensures var t := Next(s, Enter(r, count, mayWait));
            && Reads(s, t, r, if s.kind == MessageQueue && s.closing then 0 else Min(count, |s.items|),
                     !s.closing && (s.kind == Pipe || mayWait))
            && t.waiters == s.waiters + (if t.readers[r] == Parked then 1 else 0) && t.destroyer == s.destroyer
  {
    var u := Release(s);
    EnterCounts(s, r, count, mayWait);
    hide Reads, Proceed, Leave;
    LeaveReads(s, u, r);
    ProceedReads(s, u, r, count, s.kind == Pipe || mayWait);
  }

  lemma EnterCounts(s: State, r: nat, count: nat, mayWait: bool)
    requires Enabled(s, Enter(r, count, mayWait)) && s.destroyer != Freed
    ensures var t := Next(s, Enter(r, count, mayWait));
            && |t.readers| == |s.readers| && t.destroyer == s.destroyer
            && t.waiters == s.waiters + (if t.readers[r] == Parked then 1 else 0)
  {
  }

  /** A reader that has slept does the same, but never sleeps again after a timeout; the destroyer is told. */
  lemma ResumeReads(s: State, r: nat, count: nat, timedOut: bool)
    requires Enabled(s, Resume(r, count, timedOut))
    ensures var t := Next(s, Resume(r, count, timedOut));
            && Reads(s, t, r, if timedOut then 0 else Min(count, |s.items|), !s.closing && !timedOut)
            && t.waiters == s.waiters - (if t.readers[r] == Parked then 0 else 1)
            && t.destroyer == if s.destroyer == Asleep then Awake else s.destroyer
  {
    var u := Unpark(Release(s), r);
    ResumeCounts(s, r, count, timedOut);
    hide Reads, Proceed, Leave;
    LeaveReads(s, u, r);
    ProceedReads(s, u, r, count, true);
  }

  lemma ResumeCounts(s: State, r: nat, count: nat, timedOut: bool)
    requires Enabled(s, Resume(r, count, timedOut))
    ensures var t := Next(s, Resume(r, count, timedOut));
            && |t.readers| == |s.readers|
            && t.waiters == s.waiters - (if t.readers[r] == Parked then 0 else 1)
            && t.destroyer == if s.destroyer == Asleep then Awake else s.destroyer
  {
  }

  /** Closing wakes every sleeper, and the destroyer sleeps exactly while there are waiters. */
  lemma DestroyerWaits(s: State, step: Step)
    requires Inv(s) && Enabled(s, step) && (step == DestroyBegin || step == DestroyResume)
    ensures var t := Next(s, step);
            && t.closing && NoneParked(t.readers) && t.waiters == s.waiters && t.items == s.items
            && t.destroyer == (if s.waiters > 0 then Asleep else Drained)
            && (forall r :: 0 <= r < |s.readers| ==>
                  |t.readers| == |s.readers| && t.readers[r] == if s.readers[r] == Parked then Woken else s.readers[r])
  {
    NextInv(s, step);
    hide Waiting;
  }

  // ----- whole runs

  ghost predicate IsRun(s: State, steps: seq<Step>)
    decreases |steps|
  {
    steps != [] ==> Enabled(s, steps[0]) && IsRun(Next(s, steps[0]), steps[1..])
  }

  ghost function Run(s: State, steps: seq<Step>): State
    requires IsRun(s, steps)
    decreases |steps|
  {
    if steps == [] then s else Run(Next(s, steps[0]), steps[1..])
  }

  lemma {:induction false} RunInv(s: State, steps: seq<Step>)
    requires Inv(s) && IsRun(s, steps)
    ensures Inv(Run(s, steps))
    decreases |steps|
  {
    if steps != [] {
      NextInv(s, steps[0]);
      RunInv(Next(s, steps[0]), steps[1..]);
    }
  }

  ghost predicate Reachable(s: State) {
    exists kind, cap, readers, writers, steps ::
      IsRun(Init(kind, cap, readers, writers), steps) && s == Run(Init(kind, cap, readers, writers), steps)
  }

  lemma ReachableInv(s: State)
    requires Reachable(s)
    ensures Inv(s)
  {
    var kind, cap, readers, writers, steps :|
      IsRun(Init(kind, cap, readers, writers), steps) && s == Run(Init(kind, cap, readers, writers), steps);
    InitInv(kind, cap, readers, writers);
    RunInv(Init(kind, cap, readers, writers), steps);
  }

  /**
   * In every interleaving: the counter is the number of readers asleep or not yet resumed, the
   * destroyer frees only when there are none, it never sleeps while the counter is zero, and what was
   * delivered followed by what is buffered is exactly what was accepted.  At most one thread holds the mutex, and
   * nobody sleeps while there is something to read.
   */
  lemma DrainIsSafe(s: State)
    requires Reachable(s)
    ensures s.waiters == Waiting(s.readers)
    ensures s.destroyer == Freed ==> forall r :: 0 <= r < |s.readers| ==> !IsWaiting(s.readers[r])
    ensures s.destroyer == Asleep ==> s.waiters > 0
    ensures s.delivered + s.items == s.accepted && |s.items| <= s.cap
    ensures s.items != [] ==> NoneParked(s.readers)
    ensures forall r, q :: 0 <= r < q < |s.readers| ==> !(Owns(s.readers[r]) && Owns(s.readers[q]))
    ensures forall w, x :: 0 <= w < x < |s.writers| ==> !(s.writers[w] == Writing && s.writers[x] == Writing)
    ensures forall r, w :: 0 <= r < |s.readers| && 0 <= w < |s.writers| ==> !(Owns(s.readers[r]) && s.writers[w] == Writing)
  {
    ReachableInv(s);
    if s.destroyer == Freed { ZeroWaiting(s.readers); }
  }

  lemma {:induction false} ZeroWaiting(readers: seq<Reader>)
    requires Waiting(readers) == 0
    ensures forall r :: 0 <= r < |readers| ==> !IsWaiting(readers[r])
  {
    if readers != [] {
      var n := |readers| - 1;
      ZeroWaiting(readers[..n]);
      forall r | 0 <= r < |readers| ensures !IsWaiting(readers[r]) {
        assert r < n ==> readers[..n][r] == readers[r];
      }
    }
  }

  /** Once closing is set, no step puts a reader to sleep, and the number of waiters only falls. */
  lemma NobodyParksWhileClosing(s: State, step: Step, r: nat)
    requires Reachable(s) && s.closing && Enabled(s, step)
    ensures Next(s, step).closing
    ensures !At(Next(s, step), r, Parked)
    ensures Next(s, step).waiters == s.waiters - (if step.Resume? then 1 else 0)
  {
    ReachableInv(s);
    NextInv(s, step);
  }

  /**
   * Shutdown cannot get stuck: until the object is freed, the owner of the mutex can give it back; when nobody has it, a
   * waiting reader can take it, whose resumption brings the counter closer to zero, or the destroyer itself can go on.
   */
  lemma ShutdownAdvances(s: State)
    requires Reachable(s) && s.closing && s.destroyer != Freed
    ensures match s.mutex
            case ReaderHas(r) => Enabled(s, Enter(r, 1, false)) || Enabled(s, Resume(r, 1, false))
            case WriterHas(w) => Enabled(s, Write(w, [0]))
            case Nobody => if s.waiters > 0 then exists r :: Enabled(s, Relock(r))
                           else Enabled(s, DestroyResume) || Enabled(s, DestroyFree)
  {
    ReachableInv(s);
    if s.mutex == Nobody && s.waiters > 0 {
      var r := SomeWaiting(s.readers);
      assert s.readers[r] != Parked && !Owns(s.readers[r]);
      assert Enabled(s, Relock(r));
    }
  }

  lemma {:induction false} SomeWaiting(readers: seq<Reader>) returns (r: nat)
    requires Waiting(readers) > 0
    ensures r < |readers| && IsWaiting(readers[r])
  {
    var n := |readers| - 1;
    if IsWaiting(readers[n]) { r := n; } else { r := SomeWaiting(readers[..n]); }
  }

  /** After closing, exactly as many resumptions as there were waiters let the destroyer free the object. */
  lemma {:induction false} DrainTakesOneStepPerWaiter(s: State, steps: seq<Step>)
    requires Reachable(s) && s.closing && IsRun(s, steps)
    ensures Resumptions(steps) <= s.waiters
    ensures Run(s, steps).waiters == s.waiters - Resumptions(steps)
    ensures Run(s, steps).destroyer == Freed && s.destroyer != Freed ==> Resumptions(steps) == s.waiters
    decreases |steps|
  {
    ReachableInv(s);
    RunInv(s, steps);
    if steps != [] {
      NobodyParksWhileClosing(s, steps[0], 0);
      ReachableNext(s, steps[0]);
      NextInv(s, steps[0]);
      DrainTakesOneStepPerWaiter(Next(s, steps[0]), steps[1..]);
    }
  }

  function Resumptions(steps: seq<Step>): nat {
    if steps == [] then 0 else (if steps[0].Resume? then 1 else 0) + Resumptions(steps[1..])
  }

  lemma ReachableNext(s: State, step: Step)
    requires Reachable(s) && Enabled(s, step)
    ensures Reachable(Next(s, step))
  {
    var kind, cap, readers, writers, steps :|
      IsRun(Init(kind, cap, readers, writers), steps) && s == Run(Init(kind, cap, readers, writers), steps);
    RunSnoc(Init(kind, cap, readers, writers), steps, step);
  }

  lemma {:induction false} RunSnoc(s: State, steps: seq<Step>, step: Step)
    requires IsRun(s, steps) && Enabled(Run(s, steps), step)
    ensures IsRun(s, steps + [step]) && Run(s, steps + [step]) == Next(Run(s, steps), step)
    decreases |steps|
  {
    if steps == [] {
      assert [step][1..] == [];
    } else {
      assert (steps + [step])[1..] == steps[1..] + [step];
      RunSnoc(Next(s, steps[0]), steps[1..], step);
    }
  }

  // ----- the limit of the protocol

  predicate InCall(pc: Reader) { pc == AtLock || pc == Holding }

  predicate InWrite(pc: Writer) { pc == Arriving || pc == Writing }

  /** Some thread that does not wait is in a call: before the mutex, or between taking it and giving it back. */
  ghost predicate Pending(s: State) {
    (exists r :: 0 <= r < |s.readers| && InCall(s.readers[r])) || (exists w :: 0 <= w < |s.writers| && InWrite(s.writers[w]))
  }

  /** The freed object has been used, or some thread is bound to use it with its next step. */
  ghost predicate Hazard(s: State) { s.touched || (s.destroyer == Freed && Pending(s)) }

  predicate IsCall(step: Step) { step.Call? || step.CallWrite? }

  ghost predicate Calls(steps: seq<Step>) { exists i :: 0 <= i < |steps| && IsCall(steps[i]) }

  /** In this run the free finds a thread in a call, before the mutex or holding it, or a call starts after it. */
  ghost predicate Late(s: State, steps: seq<Step>)
    requires IsRun(s, steps)
    decreases |steps|
  {
    steps != [] &&
    (if steps[0] == DestroyFree then Pending(s) || Calls(steps[1..]) else Late(Next(s, steps[0]), steps[1..]))
  }

  /** A hazard is exactly that the object has been used after the free, or that one step of a thread does so. */
  lemma HazardMeans(s: State)
    requires Reachable(s)
    ensures Hazard(s) <==> s.touched || exists step :: Enabled(s, step) && Next(s, step).touched
  {
    ReachableInv(s);
    if s.destroyer == Freed {
      forall r | 0 <= r < |s.readers| && InCall(s.readers[r])
        ensures exists step :: Enabled(s, step) && Next(s, step).touched
      {
        var step := if s.readers[r] == AtLock then Lock(r) else Enter(r, 1, true);
        assert Enabled(s, step) && Next(s, step).touched;
      }
      forall w | 0 <= w < |s.writers| && InWrite(s.writers[w])
        ensures exists step :: Enabled(s, step) && Next(s, step).touched
      {
        var step := if s.writers[w] == Arriving then LockWrite(w) else Write(w, [0]);
        assert Enabled(s, step) && Next(s, step).touched;
      }
      ZeroWaiting(s.readers);
    }
  }

  lemma FreedStep(s: State, step: Step)
    requires Inv(s) && s.destroyer == Freed && Enabled(s, step)
    ensures Next(s, step).destroyer == Freed
    ensures Hazard(Next(s, step)) <==> Hazard(s) || IsCall(step)
  {
    ZeroWaiting(s.readers);
    var t := Next(s, step);
    match step
    case Call(r) => assert InCall(t.readers[r]);
    case CallWrite(w) => assert InWrite(t.writers[w]);
    case Lock(r) => assert InCall(s.readers[r]) && t.touched;
    case LockWrite(w) => assert InWrite(s.writers[w]) && t.touched;
    case Enter(r, _, _) => assert InCall(s.readers[r]) && t.touched;
    case Write(w, _) => assert InWrite(s.writers[w]) && t.touched;
    case _ =>
  }

  lemma {:induction false} AfterFree(s: State, steps: seq<Step>)
    requires Inv(s) && s.destroyer == Freed && IsRun(s, steps)
    ensures Hazard(Run(s, steps)) <==> Hazard(s) || Calls(steps)
    decreases |steps|
  {
    hide Inv, Hazard, Next, Enabled, IsCall;
    if steps != [] {
      var step, rest := steps[0], steps[1..];
      NextInv(s, step);
      FreedStep(s, step);
      AfterFree(Next(s, step), rest);
      CallsCons(steps);
    }
  }

  lemma CallsCons(steps: seq<Step>)
    requires steps != []
    ensures Calls(steps) <==> IsCall(steps[0]) || Calls(steps[1..])
  {
    var rest := steps[1..];
    if Calls(steps) && !IsCall(steps[0]) {
      var i :| 0 <= i < |steps| && IsCall(steps[i]);
      assert rest[i - 1] == steps[i];
    }
    if Calls(rest) {
      var i :| 0 <= i < |rest| && IsCall(rest[i]);
      assert steps[i + 1] == rest[i];
    }
  }

  lemma BeforeFree(s: State, step: Step)
    requires Inv(s) && s.destroyer != Freed && Enabled(s, step)
    ensures Next(s, step).destroyer == Freed <==> step == DestroyFree
    ensures step == DestroyFree ==> (Hazard(Next(s, step)) <==> Pending(s))
  {
    hide Waiting, NoneParked;
  }

  /**
   * The exact condition, over every run: the freed object is used, or about to be, if and only if some thread
   * was in a call when the object was freed, on its way to the mutex or holding it, or a call started afterwards.
   */
  lemma {:induction false} UseAfterFreeIff(s: State, steps: seq<Step>)
    requires Inv(s) && s.destroyer != Freed && IsRun(s, steps)
    ensures Hazard(Run(s, steps)) <==> Late(s, steps)
    decreases |steps|
  {
    if steps == [] {
    } else {
      var step, rest := steps[0], steps[1..];
      NextInv(s, step);
      BeforeFree(s, step);
      hide Inv, Hazard, Next, Enabled, Pending;
      if step == DestroyFree {
        AfterFree(Next(s, step), rest);
      } else {
        UseAfterFreeIff(Next(s, step), rest);
      }
    }
  }

  /** From the start: a run has used the freed object, or can with its next step, exactly when it was late. */
  lemma RunIsSafeIff(kind: Kind, cap: nat, readers: nat, writers: nat, steps: seq<Step>)
    requires IsRun(Init(kind, cap, readers, writers), steps)
    ensures var s := Run(Init(kind, cap, readers, writers), steps);
            (s.touched || exists step :: Enabled(s, step) && Next(s, step).touched)
            <==> Late(Init(kind, cap, readers, writers), steps)
  {
    var s0 := Init(kind, cap, readers, writers);
    InitInv(kind, cap, readers, writers);
    UseAfterFreeIff(s0, steps);
    hide Late, IsRun, Run, Hazard, Next, Enabled;
    assert Reachable(Run(s0, steps));
    HazardMeans(Run(s0, steps));
  }

  /**
   * A call that meets the shutdown: the thread takes the mutex after the destroyer has given it back, before the free
   * (`locked`) or after it.
   */
  function LateSteps(writer: bool, locked: bool): seq<Step> {
    [if writer then CallWrite(0) else Call(0)] + ([DestroyBegin] + LateUse(writer, locked))
  }

  function LateUse(writer: bool, locked: bool): seq<Step> {
    var lock, use := if writer then LockWrite(0) else Lock(0), if writer then Write(0, [7]) else Enter(0, 1, true);
    if locked then [lock] + ([DestroyFree] + ([use] + [])) else [DestroyFree] + ([lock] + [])
  }

  /** The waiters counter covers no reader and no writer that is in a call without waiting, even if it holds the mutex. */
  lemma LateCallersAreNotProtected(kind: Kind, cap: nat, writer: bool, locked: bool)
    ensures var s, steps := Init(kind, cap, if writer then 0 else 1, if writer then 1 else 0), LateSteps(writer, locked);
            IsRun(s, steps) && Run(s, steps).touched
  {
    var s := Init(kind, cap, if writer then 0 else 1, if writer then 1 else 0);
    var call := if writer then CallWrite(0) else Call(0);
    var t := Next(s, call);
    hide IsRun, Run, LateUse;
    LateUseTouches(Next(t, DestroyBegin), writer, locked);
    RunCons(t, DestroyBegin, LateUse(writer, locked));
    RunCons(s, call, [DestroyBegin] + LateUse(writer, locked));
  }

  lemma LateUseTouches(s: State, writer: bool, locked: bool)
    requires s.destroyer == Drained && s.mutex == Nobody && if writer then WriterAt(s, 0, Arriving) else At(s, 0, AtLock)
    ensures IsRun(s, LateUse(writer, locked)) && Run(s, LateUse(writer, locked)).touched
  {
    var lock, use := if writer then LockWrite(0) else Lock(0), if writer then Write(0, [7]) else Enter(0, 1, true);
    if locked {
      var t := Next(s, lock);
      var u := Next(t, DestroyFree);
      hide IsRun, Run;
      EmptyRun(Next(u, use));
      RunCons(u, use, []);
      RunCons(t, DestroyFree, [use] + []);
      RunCons(s, lock, [DestroyFree] + ([use] + []));
    } else {
      var t := Next(s, DestroyFree);
      hide IsRun, Run;
      EmptyRun(Next(t, lock));
      RunCons(t, lock, []);
      RunCons(s, DestroyFree, [lock] + []);
    }
  }

  lemma EmptyRun(s: State)
    ensures IsRun(s, []) && Run(s, []) == s
  {
  }

  lemma RunCons(s: State, step: Step, steps: seq<Step>)
    requires Enabled(s, step) && IsRun(Next(s, step), steps)
    ensures IsRun(s, [step] + steps) && Run(s, [step] + steps) == Run(Next(s, step), steps)
  {
    assert ([step] + steps)[1..] == steps;
  }
}
