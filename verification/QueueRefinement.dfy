/** The linked-list queue and the scan queue accept the same pushes and pop the same tasks. */
module QueueRefinement {
  import opened Basics
  import opened Seqs
  import opened QueueSpec
  import opened ScanQueue
  import opened PriorityQueue

  // ----- the relation between the two states

  /** `at[s]` is the place of slot `s`, and `of[i]` the slot of place `i`. */
  datatype Pairing = Pairing(at: seq<int>, of: seq<int>)

  predicate IsPlace(i: int) { 0 <= i < MAX_ITEMS }

  ghost predicate Bijective(p: Pairing) {
    && |p.at| == |p.of| == MAX_ITEMS
    && (forall s :: IsSlot(s) ==> IsPlace(p.at[s]) && p.of[p.at[s]] == s)
    && (forall i :: IsPlace(i) ==> IsSlot(p.of[i]) && p.at[p.of[i]] == i)
  }

  /** Within a layer, tasks stand in the order they were pushed. */
  ghost predicate InPushOrder(q: Queue)
    requires Inv(q)
  {
    forall l, i, j :: IsLayer(l) && 0 <= i < j < |q.layers[l]| ==>
      IsSlot(q.layers[l][i]) && IsSlot(q.layers[l][j]) && q.born[q.layers[l][i]] < q.born[q.layers[l][j]]
  }

  /** The sequence number of push `n` when the scan queue's unsigned counter stood at `start` at first. */
  function Stamp(start: nat, n: nat): nat { (start + n) % SEQUENCES }

  /** pq_global_seq++ */
  function CountUp(counter: nat): nat { (counter + 1) % SEQUENCES }

  lemma NextStamp(start: nat, n: nat)
    ensures CountUp(Stamp(start, n)) == Stamp(start, n + 1)
  {
  }

  ghost predicate SlotMatches(q: Queue, items: seq<Item>, start: nat, p: Pairing, s: int)
    requires Inv(q) && |items| == MAX_ITEMS && Bijective(p) && IsSlot(s)
  {
    var item := items[p.at[s]];
    if Queued(q, s) then
      var t := q.slots[s];
      t.fn != 0 && item == Item(t.fn, t.arg, t.priority, Stamp(start, q.born[s]))
    else item.fn == 0
  }

  /** The scan queue's counter stood at `start` when both queues were fresh. */
  ghost predicate Related(q: Queue, items: seq<Item>, start: nat, p: Pairing)
  {
    && Shape(q) && Inv(q) && |items| == MAX_ITEMS && Bijective(p)
    && InPushOrder(q)
    && (forall s :: IsSlot(s) ==> SlotMatches(q, items, start, p, s))
  }

  // ----- pushes

  lemma SamePushesAccepted(q: Queue, items: seq<Item>, start: nat, p: Pairing)
    requires Related(q, items, start, p)
    ensures q.free != [] <==> FirstEmpty(items) < MAX_ITEMS
  {
    if q.free != [] {
      assert SlotMatches(q, items, start, p, NextSlot(q));
      assert items[p.at[NextSlot(q)]].fn == 0;
    }
    if FirstEmpty(items) < MAX_ITEMS {
      var s := p.of[FirstEmpty(items)];
      assert SlotMatches(q, items, start, p, s);
      assert SlotOk(q, s);
    }
  }

  /** Exchanges the places of two slots. */
  function Swap(p: Pairing, s: int, i: int): Pairing
    requires Bijective(p) && IsSlot(s) && IsPlace(i)
  {
    Pairing(p.at[p.of[i] := p.at[s]][s := i], p.of[p.at[s] := p.of[i]][i := s])
  }

  lemma PushOrder(q: Queue, priority: int, fn: nat, arg: nat)
    requires Inv(q) && InPushOrder(q) && CanPush(q, priority)
    ensures Inv(Push(q, priority, fn, arg)) && InPushOrder(Push(q, priority, fn, arg))
  {
    PushInv(q, priority, fn, arg);
    var r := Push(q, priority, fn, arg);
    forall l, i | IsLayer(l) && 0 <= i < |q.layers[l]|
      ensures IsSlot(q.layers[l][i]) && q.born[q.layers[l][i]] < |q.history| && q.layers[l][i] != NextSlot(q)
    {
      assert LayerOk(q, l) && q.layers[l][i] in q.layers[l];
      assert SlotOk(q, q.layers[l][i]);
    }
  }

  lemma SwapPlaces(p: Pairing, s: int, i: int, x: int)
    requires Bijective(p) && IsSlot(s) && IsPlace(i) && IsSlot(x)
    ensures Swap(p, s, i).at[x] == if x == s then i else if x == p.of[i] then p.at[s] else p.at[x]
    ensures IsPlace(p.at[x]) && IsPlace(p.at[s])
    ensures p.at[x] == i <==> x == p.of[i]
    ensures p.at[x] == p.at[s] <==> x == s
  {
    assert p.of[p.at[x]] == x && p.of[p.at[s]] == s && p.at[p.of[i]] == i;
  }

  lemma SwapSlots(p: Pairing, s: int, i: int, k: int)
    requires Bijective(p) && IsSlot(s) && IsPlace(i) && IsPlace(k)
    ensures Swap(p, s, i).of[k] == if k == i then s else if k == p.at[s] then p.of[i] else p.of[k]
    ensures p.of[k] == s <==> k == p.at[s]
    ensures p.of[k] == p.of[i] <==> k == i
  {
    assert p.at[p.of[k]] == k && p.of[p.at[s]] == s && p.at[p.of[i]] == i;
  }

  lemma SwapBijective(p: Pairing, s: int, i: int)
    requires Bijective(p) && IsSlot(s) && IsPlace(i)
    ensures Bijective(Swap(p, s, i))
  {
    var p' := Swap(p, s, i);
    forall x | IsSlot(x) ensures IsPlace(p'.at[x]) && p'.of[p'.at[x]] == x {
      SwapPlaces(p, s, i, x);
      SwapSlots(p, s, i, p'.at[x]);
    }
    forall k | IsPlace(k) ensures IsSlot(p'.of[k]) && p'.at[p'.of[k]] == k {
      SwapSlots(p, s, i, k);
      SwapPlaces(p, s, i, p'.of[k]);
    }
  }

  /** What a push leaves in an arbitrary slot. */
  lemma PushedSlot(q: Queue, priority: int, fn: nat, arg: nat, x: int)
    requires Inv(q) && CanPush(q, priority) && IsSlot(x)
    ensures var r := Push(q, priority, fn, arg);
            && Inv(r)
            && Shape(r)
            && (if x == NextSlot(q)
                then Queued(r, x) && r.born[x] == |q.history| &&
                     r.slots[x] == Task(fn, arg, priority, Seq32(|q.history|), 0, 0)
                else (Queued(r, x) <==> Queued(q, x)) && r.born[x] == q.born[x] && r.slots[x] == q.slots[x])
  {
    PushedElsewhere(q, priority, fn, arg, x);
  }

  lemma PushMatches(q: Queue, items: seq<Item>, start: nat, p: Pairing, priority: int, fn: nat, arg: nat, x: int)
    requires Related(q, items, start, p) && fn != 0 && CanPush(q, priority) && IsSlot(x)
    requires FirstEmpty(items) < MAX_ITEMS && Inv(Push(q, priority, fn, arg))
    requires Bijective(Swap(p, NextSlot(q), FirstEmpty(items)))
    ensures SlotMatches(Push(q, priority, fn, arg),
                        items[FirstEmpty(items) := Item(fn, arg, priority, Stamp(start, |q.history|))],
                        start, Swap(p, NextSlot(q), FirstEmpty(items)), x)
  {
    hide Inv, InPushOrder, Queued, Bijective, Swap, Push, FirstEmpty, Stamp;
    SwapPlaces(p, NextSlot(q), FirstEmpty(items), x);
    PushedSlot(q, priority, fn, arg, x);
    assert SlotMatches(q, items, start, p, x);
    assert SlotMatches(q, items, start, p, NextSlot(q));
  }

  lemma PushRelated(q: Queue, items: seq<Item>, start: nat, p: Pairing, priority: int, fn: nat, arg: nat)
    requires Related(q, items, start, p) && fn != 0 && CanPush(q, priority)
    requires FirstEmpty(items) < MAX_ITEMS
    ensures Related(Push(q, priority, fn, arg),
                    items[FirstEmpty(items) := Item(fn, arg, priority, Stamp(start, |q.history|))],
                    start, Swap(p, NextSlot(q), FirstEmpty(items)))
  {
    hide Inv, InPushOrder, SlotMatches, Bijective, Swap, FirstEmpty, Push;
    assert Bijective(p);
    var s, i := NextSlot(q), FirstEmpty(items);
    PushOrder(q, priority, fn, arg);
    SwapBijective(p, s, i);
    forall x | IsSlot(x)
      ensures SlotMatches(Push(q, priority, fn, arg),
                          items[i := Item(fn, arg, priority, Stamp(start, |q.history|))], start, Swap(p, s, i), x)
    {
      PushMatches(q, items, start, p, priority, fn, arg, x);
    }
  }

  // ----- pops

  lemma HeadIsOldest(q: Queue, s: int)
    requires Inv(q) && InPushOrder(q) && IsSlot(s) && Queued(q, s)
    ensures HasLayer(q, q.slots[s].priority)
    ensures var h := Head(q, q.slots[s].priority);
            h == s || q.born[h] < q.born[s]
  {
    var k := IndexOf(q.layers[q.slots[s].priority], s);
  }

  /** `s` is queued in the layer that a pop serves. */
  predicate Served(q: Queue, s: int)
    requires Inv(q)
  {
    IsSlot(s) && Queued(q, s) && q.slots[s].priority == FirstLayer(q)
  }

  /** The scan takes `s` rather than `x`: by number, and by place when the numbers are the same. */
  predicate Ahead(q: Queue, start: nat, p: Pairing, s: int, x: int)
    requires Inv(q) && Bijective(p) && IsSlot(s) && IsSlot(x)
  {
    var m, n := Stamp(start, q.born[s]), Stamp(start, q.born[x]);
    m < n || (m == n && p.at[s] < p.at[x])
  }

  /** The scan's choice is a task of the first non-empty layer. */
  lemma BestIsServed(q: Queue, items: seq<Item>, start: nat, p: Pairing, best: int)
    requires Related(q, items, start, p) && IsBest(items, best)
    ensures HasLayer(q, FirstLayer(q)) && Served(q, p.of[best])
  {
    hide Inv, InPushOrder, Stamp;
    var s := p.of[best];
    assert SlotMatches(q, items, start, p, s);
    HeadIsOldest(q, s);
    var h := Head(q, FirstLayer(q));
    assert SlotMatches(q, items, start, p, h);
    assert !Precedes(items[p.at[h]], items[best]);
  }

  lemma BestIsAhead(q: Queue, items: seq<Item>, start: nat, p: Pairing, best: int, x: int)
    requires Related(q, items, start, p) && IsBest(items, best) && Served(q, p.of[best]) && Served(q, x) && x != p.of[best]
    ensures Ahead(q, start, p, p.of[best], x)
  {
    hide Inv, InPushOrder, Stamp;
    assert SlotMatches(q, items, start, p, p.of[best]) && SlotMatches(q, items, start, p, x);
    assert !Precedes(items[p.at[x]], items[best]);
    assert p.at[x] < best ==> Precedes(items[best], items[p.at[x]]);
  }

  /**
   * The exact condition of one pop: the scan takes the task that the linked queue takes, the oldest of the first
   * non-empty layer, if and only if its number is below that of every other task of that layer.
   */
  lemma PopAgreesIff(q: Queue, items: seq<Item>, start: nat, p: Pairing, best: int)
    requires Related(q, items, start, p) && IsBest(items, best)
    ensures HasLayer(q, FirstLayer(q))
    ensures p.of[best] == Head(q, FirstLayer(q)) <==>
            forall x :: Served(q, x) && x != Head(q, FirstLayer(q)) ==> Ahead(q, start, p, Head(q, FirstLayer(q)), x)
  {
    BestIsServed(q, items, start, p, best);
    HeadIsServed(q);
    hide Inv, InPushOrder, Stamp, IsBest, Served;
    var h := Head(q, FirstLayer(q));
    if p.of[best] == h {
      forall x | Served(q, x) && x != h ensures Ahead(q, start, p, h, x) { BestIsAhead(q, items, start, p, best, x); }
    } else {
      BestIsAhead(q, items, start, p, best, h);
      assert !Ahead(q, start, p, h, p.of[best]);
    }
  }

  lemma HeadIsServed(q: Queue)
    requires Inv(q) && HasLayer(q, FirstLayer(q))
    ensures Served(q, Head(q, FirstLayer(q)))
  {
    assert LayerOk(q, FirstLayer(q)) && Head(q, FirstLayer(q)) in q.layers[FirstLayer(q)];
  }

  /** What a caller can see: the oldest task of the first non-empty layer has the lowest number there. */
  ghost predicate OldestFirst(q: Queue, start: nat)
    requires Inv(q)
  {
    HasLayer(q, FirstLayer(q)) ==>
      var h := Head(q, FirstLayer(q));
      forall x :: Served(q, x) && x != h ==> Stamp(start, q.born[h]) < Stamp(start, q.born[x])
  }

  /** The scan's choice is then the head of that layer. */
  lemma BestIsHead(q: Queue, items: seq<Item>, start: nat, p: Pairing, best: int)
    requires Related(q, items, start, p) && IsBest(items, best) && OldestFirst(q, start)
    ensures HasLayer(q, FirstLayer(q))
    ensures p.of[best] == Head(q, FirstLayer(q))
  {
    PopAgreesIff(q, items, start, p, best);
  }

  lemma SamePopsEmpty(q: Queue, items: seq<Item>, start: nat, p: Pairing)
    requires Related(q, items, start, p)
    ensures FirstLayer(q) < NUM_PRIORITIES ==> !AllEmpty(items)
  {
    if FirstLayer(q) < NUM_PRIORITIES {
      var h := Head(q, FirstLayer(q));
      assert SlotMatches(q, items, start, p, h);
      assert items[p.at[h]].fn != 0;
    }
  }

  lemma PopOrder(q: Queue, l: int)
    requires Inv(q) && InPushOrder(q)
    ensures Inv(PopLayer(q, l)) && InPushOrder(PopLayer(q, l))
  {
    PopLayerInv(q, l);
    if HasLayer(q, l) {
      var r := PopLayer(q, l);
      assert IndexOf(q.layers[l], q.layers[l][0]) == 0;
      assert r.layers[l] == q.layers[l][1..];
    }
  }

  lemma PopMatches(q: Queue, items: seq<Item>, start: nat, p: Pairing, best: int, x: int)
    requires Related(q, items, start, p) && IsBest(items, best) && OldestFirst(q, start) && IsSlot(x)
    requires Inv(PopLayer(q, FirstLayer(q)))
    ensures SlotMatches(PopLayer(q, FirstLayer(q)), items[best := items[best].(fn := 0)], start, p, x)
  {
    hide Inv, InPushOrder, Queued;
    BestIsHead(q, items, start, p, best);
    PopLeaves(q, FirstLayer(q), x);
    assert SlotMatches(q, items, start, p, x);
  }

  lemma PopRelated(q: Queue, items: seq<Item>, start: nat, p: Pairing, best: int)
    requires Related(q, items, start, p) && IsBest(items, best) && OldestFirst(q, start)
    ensures Related(PopLayer(q, FirstLayer(q)), items[best := items[best].(fn := 0)], start, p)
  {
    hide Inv, InPushOrder, SlotMatches, Bijective;
    PopOrder(q, FirstLayer(q));
    forall x | IsSlot(x)
      ensures SlotMatches(PopLayer(q, FirstLayer(q)), items[best := items[best].(fn := 0)], start, p, x)
    {
      PopMatches(q, items, start, p, best, x);
    }
  }

  // ----- whole runs

  datatype Command = DoPush(priority: int, fn: nat, arg: nat) | DoPop

  /** What a caller of either queue observes. */
  datatype Reply = Accepted | Rejected | Popped(fn: nat, arg: nat, priority: int) | Empty

  function MultiLevelReply(q: Queue, c: Command): Reply
    requires Inv(q)
  {
    match c
    case DoPush(p, _, _) => if PushHandle(q, p) == -1 then Rejected else Accepted
    case DoPop =>
      match PoppedTask(q, FirstLayer(q))
      case None => Empty
      case Some(t) => Popped(t.fn, t.arg, t.priority)
  }

  function MultiLevelNext(q: Queue, c: Command): (r: Queue)
    requires Inv(q)
    ensures Inv(r)
  {
    match c
    case DoPush(p, fn, arg) => Apply(q, OpPush(p, fn, arg))
    case DoPop => Apply(q, OpPop)
  }

  function ScanReply(items: seq<Item>, c: Command): Reply
    requires |items| == MAX_ITEMS
  {
    match c
    case DoPush(p, _, _) => if IsLayer(p) && FirstEmpty(items) < MAX_ITEMS then Accepted else Rejected
    case DoPop =>
      var b := BestPlace(items);
      if b == -1 then Empty else Popped(items[b].fn, items[b].arg, items[b].priority)
  }

  function ScanNext(items: seq<Item>, counter: nat, c: Command): (r: seq<Item>)
    requires |items| == MAX_ITEMS
    ensures |r| == MAX_ITEMS
  {
    match c
    case DoPush(p, fn, arg) =>
      if ScanReply(items, c) == Accepted then items[FirstEmpty(items) := Item(fn, arg, p, counter)] else items
    case DoPop =>
      var b := BestPlace(items);
      if b == -1 then items else items[b := items[b].(fn := 0)]
  }

  function NextCounter(items: seq<Item>, counter: nat, c: Command): nat
    requires |items| == MAX_ITEMS
  {
    if ScanReply(items, c) == Accepted then CountUp(counter) else counter
  }

  function MultiLevelReplies(q: Queue, cs: seq<Command>): seq<Reply>
    requires Inv(q)
    decreases |cs|
  {
    if cs == [] then [] else
      [MultiLevelReply(q, cs[0])] + MultiLevelReplies(MultiLevelNext(q, cs[0]), cs[1..])
  }

  function ScanReplies(items: seq<Item>, counter: nat, cs: seq<Command>): seq<Reply>
    requires |items| == MAX_ITEMS
    decreases |cs|
  {
    if cs == [] then [] else
      [ScanReply(items, cs[0])]
      + ScanReplies(ScanNext(items, counter, cs[0]), NextCounter(items, counter, cs[0]), cs[1..])
  }

  predicate RealTasks(cs: seq<Command>) {
    forall i :: 0 <= i < |cs| && cs[i].DoPush? ==> cs[i].fn != 0
  }

  function Pushes(cs: seq<Command>): nat {
    if cs == [] then 0 else (if cs[0].DoPush? then 1 else 0) + Pushes(cs[1..])
  }

  lemma PushStep(q: Queue, items: seq<Item>, start: nat, p: Pairing, c: Command) returns (p': Pairing)
    requires Related(q, items, start, p) && c.DoPush? && c.fn != 0
    ensures MultiLevelReply(q, c) == ScanReply(items, c)
    ensures Related(MultiLevelNext(q, c), ScanNext(items, Stamp(start, |q.history|), c), start, p')
    ensures NextCounter(items, Stamp(start, |q.history|), c) == Stamp(start, |MultiLevelNext(q, c).history|)
  {
    hide Inv, FirstEmpty, MakeHandle, SlotMatches, InPushOrder, Bijective, Swap, Stamp, CountUp, Gen16, Seq32;
    SamePushesAccepted(q, items, start, p);
    p' := p;
    if CanPush(q, c.priority) {
      NextStamp(start, |q.history|);
      HandleFields(Gen16(|q.history|), NextSlot(q));
      PushRelated(q, items, start, p, c.priority, c.fn, c.arg);
      p' := Swap(p, NextSlot(q), FirstEmpty(items));
    }
  }

  lemma PopStep(q: Queue, items: seq<Item>, start: nat, p: Pairing)
    requires Related(q, items, start, p) && OldestFirst(q, start)
    ensures MultiLevelReply(q, DoPop) == ScanReply(items, DoPop)
    ensures Related(MultiLevelNext(q, DoPop), ScanNext(items, Stamp(start, |q.history|), DoPop), start, p)
    ensures MultiLevelNext(q, DoPop).history == q.history
  {
    hide Inv, InPushOrder, IsBest, OldestFirst, Stamp;
    var b := BestPlace(items);
    SamePopsEmpty(q, items, start, p);
    if b != -1 {
      BestIsHead(q, items, start, p, b);
      PopRelated(q, items, start, p, b);
      assert SlotMatches(q, items, start, p, p.of[b]);
      BestInRange(items, b);
    }
  }

  lemma BestInRange(items: seq<Item>, b: int)
    requires IsBest(items, b)
    ensures 0 <= b < |items|
  {
  }

  /** At every pop of the run the oldest task of the layer served has the lowest number there. */
  ghost predicate InStep(q: Queue, start: nat, cs: seq<Command>)
    requires Inv(q)
    decreases |cs|
  {
    cs == [] || ((cs[0] == DoPop ==> OldestFirst(q, start)) && InStep(MultiLevelNext(q, cs[0]), start, cs[1..]))
  }

  /** From related states, any such run of pushes and pops gives the same replies. */
  lemma {:induction false} SameReplies(q: Queue, items: seq<Item>, start: nat, p: Pairing, cs: seq<Command>)
    requires Related(q, items, start, p) && RealTasks(cs) && InStep(q, start, cs)
    ensures MultiLevelReplies(q, cs) == ScanReplies(items, Stamp(start, |q.history|), cs)
    decreases |cs|
  {
    hide Related, MultiLevelReply, ScanReply, MultiLevelNext, ScanNext, NextCounter, Inv, OldestFirst, Stamp;
    if cs != [] {
      RelatedInv(q, items, start, p);
      var c := cs[0];
      if c.DoPush? {
        var p' := PushStep(q, items, start, p, c);
        SameReplies(MultiLevelNext(q, c), ScanNext(items, Stamp(start, |q.history|), c), start, p', cs[1..]);
      } else {
        PopStep(q, items, start, p);
        PopKeepsCounter(items, Stamp(start, |q.history|));
        SameReplies(MultiLevelNext(q, c), ScanNext(items, Stamp(start, |q.history|), c), start, p, cs[1..]);
      }
    }
  }

  /** Numbers that have not wrapped are in the order of the pushes. */
  lemma {:induction false} NoWrapInStep(q: Queue, items: seq<Item>, start: nat, p: Pairing, cs: seq<Command>)
    requires Related(q, items, start, p) && RealTasks(cs)
    requires start + |q.history| + Pushes(cs) < SEQUENCES
    ensures InStep(q, start, cs)
    decreases |cs|
  {
    hide Related, MultiLevelReply, ScanReply, MultiLevelNext, ScanNext, NextCounter, Inv, OldestFirst, Stamp;
    if cs != [] {
      RelatedInv(q, items, start, p);
      var c := cs[0];
      if c.DoPush? {
        var p' := PushStep(q, items, start, p, c);
        PushCounts(q, c);
        NoWrapInStep(MultiLevelNext(q, c), ScanNext(items, Stamp(start, |q.history|), c), start, p', cs[1..]);
      } else {
        NoWrapOldestFirst(q, items, start, p);
        PopStep(q, items, start, p);
        NoWrapInStep(MultiLevelNext(q, c), ScanNext(items, Stamp(start, |q.history|), c), start, p, cs[1..]);
      }
    }
  }

  lemma PushCounts(q: Queue, c: Command)
    requires Inv(q) && c.DoPush?
    ensures |MultiLevelNext(q, c).history| <= |q.history| + 1
  {
    hide Inv;
  }

  lemma NoWrapOldestFirst(q: Queue, items: seq<Item>, start: nat, p: Pairing)
    requires Related(q, items, start, p) && start + |q.history| < SEQUENCES
    ensures OldestFirst(q, start)
  {
    if HasLayer(q, FirstLayer(q)) {
      var h := Head(q, FirstLayer(q));
      HeadIsServed(q);
      forall x | Served(q, x) && x != h ensures Stamp(start, q.born[h]) < Stamp(start, q.born[x]) {
        HeadIsOldest(q, x);
        assert SlotOk(q, x) && SlotOk(q, h);
      }
    }
  }

  lemma RelatedInv(q: Queue, items: seq<Item>, start: nat, p: Pairing)
    requires Related(q, items, start, p)
    ensures Inv(q) && |items| == MAX_ITEMS
  {
  }

  lemma PopKeepsCounter(items: seq<Item>, counter: nat)
    requires |items| == MAX_ITEMS
    ensures NextCounter(items, counter, DoPop) == counter
  {
  }

  function FreshItems(): (r: seq<Item>)
    ensures |r| == MAX_ITEMS
  {
    seq(MAX_ITEMS, i => EMPTY)
  }

  lemma FreshRelated(start: nat) returns (p: Pairing)
    ensures Related(Init(), FreshItems(), start, p)
  {
    InitInv();
    p := Pairing(seq(MAX_ITEMS, i => i), seq(MAX_ITEMS, i => i));
  }

  /**
   * Fresh queues answer every sequence of pushes and pops alike: the same pushes are refused and
   * the same tasks come out in the same order, as long as the unsigned counter does not wrap.
   */
  lemma LinkedQueueRefinesScanQueue(start: nat, cs: seq<Command>)
    requires RealTasks(cs) && start + Pushes(cs) < SEQUENCES
    ensures Inv(Init())
    ensures MultiLevelReplies(Init(), cs) == ScanReplies(FreshItems(), start, cs)
  {
    hide Inv, Related, MultiLevelReplies, ScanReplies, InStep;
    InitInv();
    var p := FreshRelated(start);
    NoWrapInStep(Init(), FreshItems(), start, p, cs);
    SameReplies(Init(), FreshItems(), start, p, cs);
  }

  /** Across the wrap they do so as long as every pop finds the lowest number of its layer on the oldest task there. */
  lemma RefinesAcrossTheWrap(start: nat, cs: seq<Command>)
    requires RealTasks(cs) && start < SEQUENCES
    ensures Inv(Init())
    ensures InStep(Init(), start, cs) ==> MultiLevelReplies(Init(), cs) == ScanReplies(FreshItems(), start, cs)
  {
    hide Inv, Related, MultiLevelReplies, ScanReplies, InStep;
    InitInv();
    var p := FreshRelated(start);
    if InStep(Init(), start, cs) { SameReplies(Init(), FreshItems(), start, p, cs); }
  }

  /** An accepted push of the next task. */
  lemma FirstPush(q: Queue, fn: nat, arg: nat)
    requires Inv(q) && q.free != []
    ensures var c := DoPush(0, fn, arg);
            CanPush(q, 0) && MultiLevelNext(q, c) == Push(q, 0, fn, arg) && MultiLevelReply(q, c) == Accepted
  {
    HandleFields(Gen16(|q.history|), NextSlot(q));
    hide Inv, MakeHandle, Push;
  }

  /** The first push is at the head of layer 0, and the second, of `b`, is the only other task. */
  ghost predicate TwoTasks(q: Queue, fn: nat, b: nat)
    requires Inv(q)
  {
    && HasLayer(q, 0) && q.born[Head(q, 0)] == 0
    && exists y :: IsSecond(q, fn, b, y) && forall x :: IsSlot(x) && Queued(q, x) ==> x == Head(q, 0) || x == y
  }

  predicate IsSecond(q: Queue, fn: nat, b: nat, y: int)
    requires Inv(q) && HasLayer(q, 0)
  {
    && IsSlot(y) && y != Head(q, 0) && Queued(q, y) && q.born[y] == 1
    && q.slots[y].priority == 0 && q.slots[y].fn == fn && q.slots[y].arg == b
  }

  /** After two pushes into an empty queue exactly their slots are queued, the first one at the head. */
  lemma TwoPushed(fn: nat, a: nat, b: nat)
    ensures Inv(Init())
    ensures var c, d := DoPush(0, fn, a), DoPush(0, fn, b);
            var q1 := MultiLevelNext(Init(), c);
            var q2 := MultiLevelNext(q1, d);
            && MultiLevelReply(Init(), c) == Accepted && MultiLevelReply(q1, d) == Accepted
            && MultiLevelReply(q2, DoPop) == Popped(fn, a, 0)
            && |q1.history| == 1 && TwoTasks(q2, fn, b)
  {
    InitInv();
    var q := Init();
    FirstPush(q, fn, a);
    var q1, s := Push(q, 0, fn, a), NextSlot(q);
    PushInv(q, 0, fn, a);
    assert q1.free != [] && q1.layers[0] == [s];
    FirstPush(q1, fn, b);
    var q2, y := Push(q1, 0, fn, b), NextSlot(q1);
    PushInv(q1, 0, fn, b);
    assert q2.layers[0] == [s, y];
    forall x | IsSlot(x) && Queued(q2, x) ensures x == s || x == y {
      PushedSlot(q1, 0, fn, b, x);
      PushedSlot(q, 0, fn, a, x);
    }
    PushedSlot(q1, 0, fn, b, y);
    PushedSlot(q, 0, fn, a, s);
    PushedSlot(q1, 0, fn, b, s);
    assert SlotOk(q1, y) && Queued(q1, s);
    assert IsSecond(q2, fn, b, y);
  }

  /**
   * The failing run: with the counter at its last value, the first of two tasks gets that number and the second gets 0,
   * and the scan queue pops the younger one.
   */
  lemma WrapPopsYounger(fn: nat, a: nat, b: nat)
    requires fn != 0
    ensures Inv(Init())
    ensures var cs := [DoPush(0, fn, a), DoPush(0, fn, b), DoPop];
            && MultiLevelReplies(Init(), cs) == [Accepted, Accepted, Popped(fn, a, 0)]
            && ScanReplies(FreshItems(), SEQUENCES - 1, cs) == [Accepted, Accepted, Popped(fn, b, 0)]
  {
    var c, d, start := DoPush(0, fn, a), DoPush(0, fn, b), SEQUENCES - 1;
    TwoPushed(fn, a, b);
    assert Stamp(start, 0) == start;
    hide Inv, Related, MultiLevelReply, MultiLevelNext, ScanReply, ScanNext, NextCounter, MultiLevelReplies, ScanReplies,
         FreshItems, TwoTasks, Stamp;
    var p := FreshRelated(start);
    var q, items := Init(), FreshItems();
    assert |q.history| == 0;
    hide Init;
    var p2 := TwoRelated(q, items, start, p, c, d);
    var q1, items1 := MultiLevelNext(q, c), ScanNext(items, Stamp(start, 0), c);
    YoungerIsBest(MultiLevelNext(q1, d), ScanNext(items1, Stamp(start, 1), d), start, p2, fn, b);
    ThreeReplies(q, c, d, DoPop);
    ThreeScans(items, Stamp(start, 0), c, d, DoPop);
  }

  lemma TwoRelated(q: Queue, items: seq<Item>, start: nat, p: Pairing, c: Command, d: Command) returns (p2: Pairing)
    requires Related(q, items, start, p) && |q.history| == 0 && c.DoPush? && c.fn != 0 && d.DoPush? && d.fn != 0
    requires |MultiLevelNext(q, c).history| == 1
    ensures var q1, items1 := MultiLevelNext(q, c), ScanNext(items, Stamp(start, 0), c);
            && MultiLevelReply(q, c) == ScanReply(items, c) && MultiLevelReply(q1, d) == ScanReply(items1, d)
            && NextCounter(items, Stamp(start, 0), c) == Stamp(start, 1)
            && Related(MultiLevelNext(q1, d), ScanNext(items1, Stamp(start, 1), d), start, p2)
  {
    RelatedInv(q, items, start, p);
    hide Related, MultiLevelReply, MultiLevelNext, ScanReply, ScanNext, NextCounter, Stamp, Inv;
    var p1 := PushStep(q, items, start, p, c);
    p2 := PushStep(MultiLevelNext(q, c), ScanNext(items, Stamp(start, 0), c), start, p1, d);
  }

  lemma ThreeReplies(q: Queue, c: Command, d: Command, e: Command)
    requires Inv(q)
    ensures var q1 := MultiLevelNext(q, c);
            MultiLevelReplies(q, [c, d, e])
            == [MultiLevelReply(q, c), MultiLevelReply(q1, d), MultiLevelReply(MultiLevelNext(q1, d), e)]
  {
    hide Inv, MultiLevelReply, MultiLevelNext;
    assert [c, d, e][1..] == [d, e] && [d, e][1..] == [e] && [e][1..] == [];
    var q1 := MultiLevelNext(q, c);
    var q2 := MultiLevelNext(q1, d);
    assert MultiLevelReplies(q2, [e]) == [MultiLevelReply(q2, e)];
    assert MultiLevelReplies(q1, [d, e]) == [MultiLevelReply(q1, d)] + MultiLevelReplies(q2, [e]);
  }

  lemma ThreeScans(items: seq<Item>, counter: nat, c: Command, d: Command, e: Command)
    requires |items| == MAX_ITEMS
    ensures var items1, n := ScanNext(items, counter, c), NextCounter(items, counter, c);
            ScanReplies(items, counter, [c, d, e])
            == [ScanReply(items, c), ScanReply(items1, d), ScanReply(ScanNext(items1, n, d), e)]
  {
    hide ScanReply, ScanNext, NextCounter;
    assert [c, d, e][1..] == [d, e] && [d, e][1..] == [e] && [e][1..] == [];
    var items1, n := ScanNext(items, counter, c), NextCounter(items, counter, c);
    var items2, m := ScanNext(items1, n, d), NextCounter(items1, n, d);
    assert ScanReplies(items2, m, [e]) == [ScanReply(items2, e)];
    assert ScanReplies(items1, n, [d, e]) == [ScanReply(items1, d)] + ScanReplies(items2, m, [e]);
  }

  lemma YoungerIsBest(q: Queue, items: seq<Item>, start: nat, p: Pairing, fn: nat, b: nat)
    requires Related(q, items, start, p) && start == SEQUENCES - 1 && TwoTasks(q, fn, b)
    ensures ScanReply(items, DoPop) == Popped(fn, b, 0)
  {
    var y :| IsSecond(q, fn, b, y) && forall x :: IsSlot(x) && Queued(q, x) ==> x == Head(q, 0) || x == y;
    var best := BestPlace(items);
    SamePopsEmpty(q, items, start, p);
    PopAgreesIff(q, items, start, p, best);
    BestIsServed(q, items, start, p, best);
    hide Inv, InPushOrder, IsBest;
    assert Served(q, y) && !Ahead(q, start, p, Head(q, 0), y);
    assert SlotMatches(q, items, start, p, y);
    BestInRange(items, best);
  }

  // ----- the two array implementations, driven by the same commands

  lemma RepliesStep(q: Queue, cs: seq<Command>, i: nat)
    requires Inv(q) && i < |cs|
    ensures MultiLevelReplies(q, cs[i..])
            == [MultiLevelReply(q, cs[i])] + MultiLevelReplies(MultiLevelNext(q, cs[i]), cs[i + 1..])
  {
    hide Inv, MultiLevelReply, MultiLevelNext;
    assert cs[i..][0] == cs[i] && cs[i..][1..] == cs[i + 1..];
  }

  method ServeMultiLevel(cs: seq<Command>) returns (replies: seq<Reply>)
    ensures Inv(Init())
    ensures replies == MultiLevelReplies(Init(), cs)
  {
    hide Inv, MultiLevelReply, MultiLevelNext, MultiLevelReplies, MultiLevelQueue.Valid;
    InitInv();
    var pq := new MultiLevelQueue();
    replies := [];
    assert cs[0..] == cs;
    for i := 0 to |cs|
      invariant pq.Valid() && Inv(pq.view) && fresh(pq.Repr())
      invariant MultiLevelReplies(Init(), cs) == replies + MultiLevelReplies(pq.view, cs[i..])
    {
      RepliesStep(pq.view, cs, i);
      var r := ServeOne(pq, cs[i]);
      replies := replies + [r];
    }
    NoReplies(pq.view, cs[|cs|..]);
  }

  lemma NoReplies(q: Queue, cs: seq<Command>)
    requires Inv(q) && cs == []
    ensures MultiLevelReplies(q, cs) == []
  {
  }

  method ServeOne(pq: MultiLevelQueue, c: Command) returns (r: Reply)
    requires pq.Valid()
    modifies pq, pq.slots, pq.layerHead, pq.layerTail, pq.slotNext, pq.slotPrev, pq.freeStack, pq.gen
    ensures pq.Valid() && Inv(pq.view)
    ensures r == MultiLevelReply(old(pq.view), c) && pq.view == MultiLevelNext(old(pq.view), c)
  {
    hide Inv;
    match c
    case DoPush(p, fn, arg) =>
      var h := pq.Push(p, fn, arg);
      r := if h == -1 then Rejected else Accepted;
    case DoPop =>
      var t := pq.Pop();
      r := if t == None then Empty else Popped(t.value.fn, t.value.arg, t.value.priority);
  }

  method ServeScan(start: nat, cs: seq<Command>) returns (replies: seq<Reply>)
    ensures replies == ScanReplies(FreshItems(), start, cs)
  {
    hide ScanReply, ScanNext, NextCounter;
    var pq := new ItemQueue(start);
    replies := [];
    assert pq.items[..] == FreshItems();
    for i := 0 to |cs|
      invariant pq.Valid() && fresh(pq) && fresh(pq.items)
      invariant ScanReplies(FreshItems(), start, cs) == replies + ScanReplies(pq.items[..], pq.globalSeq, cs[i..])
    {
      var r := ScanOne(pq, cs[i]);
      assert cs[i..][1..] == cs[i + 1..];
      replies := replies + [r];
    }
  }

  method ScanOne(pq: ItemQueue, c: Command) returns (r: Reply)
    requires pq.Valid()
    modifies pq, pq.items
    ensures pq.Valid()
    ensures r == ScanReply(old(pq.items[..]), c)
    ensures pq.items[..] == ScanNext(old(pq.items[..]), old(pq.globalSeq), c)
    ensures pq.globalSeq == NextCounter(old(pq.items[..]), old(pq.globalSeq), c)
  {
    hide FirstEmpty, BestPlace;
    match c
    case DoPush(p, fn, arg) =>
      var rc := pq.Push(p, fn, arg);
      r := if rc == 0 then Accepted else Rejected;
    case DoPop =>
      var t := pq.Pop();
      r := if t == None then Empty else Popped(t.value.fn, t.value.arg, t.value.priority);
  }
}
