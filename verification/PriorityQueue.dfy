/** The uint64_t bitmap of non-empty layers. */
module LayerMask {

  /** 1ULL << layer */
  function Bit(layer: int): bv64
    requires 0 <= layer < 4
  {
    if layer == 0 then 1 else if layer == 1 then 2 else if layer == 2 then 4 else 8
  }

  predicate Has(mask: bv64, layer: int)
    requires 0 <= layer < 4
  {
    mask & Bit(layer) != 0
  }

  lemma SetBit0(mask: bv64, layer: int)
    requires 0 <= layer < 4
    ensures Has(mask | Bit(layer), 0) <==> layer == 0 || Has(mask, 0)
  {
    if layer == 0 {} else if layer == 1 {} else if layer == 2 {} else {}
  }

  lemma SetBit1(mask: bv64, layer: int)
    requires 0 <= layer < 4
    ensures Has(mask | Bit(layer), 1) <==> layer == 1 || Has(mask, 1)
  {
    if layer == 0 {} else if layer == 1 {} else if layer == 2 {} else {}
  }

  lemma SetBit2(mask: bv64, layer: int)
    requires 0 <= layer < 4
    ensures Has(mask | Bit(layer), 2) <==> layer == 2 || Has(mask, 2)
  {
    if layer == 0 {} else if layer == 1 {} else if layer == 2 {} else {}
  }

  lemma SetBit3(mask: bv64, layer: int)
    requires 0 <= layer < 4
    ensures Has(mask | Bit(layer), 3) <==> layer == 3 || Has(mask, 3)
  {
    if layer == 0 {} else if layer == 1 {} else if layer == 2 {} else {}
  }

  lemma ClearBits(mask: bv64, layer: int)
    requires 0 <= layer < 4
    ensures Has(mask & !Bit(layer), 0) <==> layer != 0 && Has(mask, 0)
    ensures Has(mask & !Bit(layer), 1) <==> layer != 1 && Has(mask, 1)
    ensures Has(mask & !Bit(layer), 2) <==> layer != 2 && Has(mask, 2)
    ensures Has(mask & !Bit(layer), 3) <==> layer != 3 && Has(mask, 3)
  {
  }

  /** Setting or clearing one layer's bit changes that layer's answer and no other. */
  lemma OneBit(mask: bv64, layer: int)
    requires 0 <= layer < 4
    ensures forall k :: 0 <= k < 4 ==> (Has(mask | Bit(layer), k) <==> k == layer || Has(mask, k))
    ensures forall k :: 0 <= k < 4 ==> (Has(mask & !Bit(layer), k) <==> k != layer && Has(mask, k))
  {
    hide *;
    SetBit0(mask, layer);
    SetBit1(mask, layer);
    SetBit2(mask, layer);
    SetBit3(mask, layer);
    ClearBits(mask, layer);
  }

  lemma StaysSmall(mask: bv64, layer: int)
    requires 0 <= layer < 4 && mask < 16
    ensures mask | Bit(layer) < 16
    ensures mask & !Bit(layer) < 16
  {
  }

  lemma ZeroHasNone()
    ensures forall k :: 0 <= k < 4 ==> !Has(0, k)
  {
  }

  /** __builtin_ctzll on a mask that uses only the four layer bits. */
  function TrailingZeros(mask: bv64): (n: int)
    requires mask != 0 && mask < 16
    ensures 0 <= n < 4 && Has(mask, n)
    ensures forall k :: 0 <= k < n ==> !Has(mask, k)
  {
    if mask & 1 != 0 then 0 else if mask & 2 != 0 then 1 else if mask & 4 != 0 then 2 else 3
  }
}

/** Doubly linked lists threaded through two arrays, against the sequences they stand for. */
module IntrusiveLists {
  import opened Seqs

  const SIZE := 128

  predicate InRange(layer: seq<int>) {
    forall i :: 0 <= i < |layer| ==> 0 <= layer[i] < SIZE
  }

  /** `next` and `prev` run through exactly the slots of `layer`, in order, in both directions. */
  predicate Linked(layer: seq<int>, next: seq<int>, prev: seq<int>, head: int, tail: int)
    requires |next| == |prev| == SIZE && InRange(layer)
  {
    && head == (if layer == [] then -1 else layer[0])
    && tail == (if layer == [] then -1 else layer[|layer| - 1])
    && (forall i :: 0 <= i < |layer| ==> LinkOk(layer, next, prev, i))
  }

  /** The slot at position `i` points to its neighbours. */
  predicate LinkOk(layer: seq<int>, next: seq<int>, prev: seq<int>, i: nat)
    requires |next| == |prev| == SIZE && InRange(layer) && i < |layer|
  {
    next[layer[i]] == After(layer, i) && prev[layer[i]] == Before(layer, i)
  }

  function After(layer: seq<int>, i: nat): int
    requires i < |layer|
  {
    if i + 1 < |layer| then layer[i + 1] else -1
  }

  function Before(layer: seq<int>, i: nat): int
    requires i < |layer|
  {
    if i > 0 then layer[i - 1] else -1
  }

  /** The stores that append a slot at the tail. */
  lemma AppendKeepsLinked(layer: seq<int>, s: int, next: seq<int>, prev: seq<int>, head: int, tail: int,
                          next': seq<int>, prev': seq<int>)
    requires |next| == |prev| == SIZE && InRange(layer) && 0 <= s < SIZE && s !in layer && Distinct(layer)
    requires Linked(layer, next, prev, head, tail)
    requires prev' == prev[s := tail]
    requires next' == if tail >= 0 then next[s := -1][tail := s] else next[s := -1]
    ensures Linked(layer + [s], next', prev', if tail >= 0 then head else s, s)
  {
    var r := layer + [s];
    forall i | 0 <= i < |r| ensures LinkOk(r, next', prev', i) {
      if i < |layer| { assert LinkOk(layer, next, prev, i) && r[i] == layer[i] && layer[i] in layer; }
    }
  }

  /** The stores that take the slot at position `k` out. */
  lemma UnlinkKeepsLinked(layer: seq<int>, k: nat, next: seq<int>, prev: seq<int>, head: int, tail: int,
                          next': seq<int>, prev': seq<int>)
    requires |next| == |prev| == SIZE && InRange(layer) && Distinct(layer) && k < |layer|
    requires Linked(layer, next, prev, head, tail)
    requires prev[layer[k]] < SIZE && next[layer[k]] < SIZE
    requires next' == if prev[layer[k]] >= 0 then next[prev[layer[k]] := next[layer[k]]] else next
    requires prev' == if next[layer[k]] >= 0 then prev[next[layer[k]] := prev[layer[k]]] else prev
    ensures InRange(RemoveAt(layer, k))
    ensures Linked(RemoveAt(layer, k), next', prev',
                   if prev[layer[k]] >= 0 then head else next[layer[k]],
                   if next[layer[k]] >= 0 then tail else prev[layer[k]])
  {
    assert LinkOk(layer, next, prev, k);
    RemovedInRange(layer, k);
    UnlinkEnds(layer, k);
    hide Distinct, After, Before, RemoveAt, InRange;
    var r := RemoveAt(layer, k);
    forall i | 0 <= i < |r| ensures LinkOk(r, next', prev', i) {
      UnlinkNext(layer, k, next, prev, head, tail, next', i);
      UnlinkPrev(layer, k, next, prev, head, tail, prev', i);
    }
  }

  lemma UnlinkEnds(layer: seq<int>, k: nat)
    requires InRange(layer) && k < |layer|
    ensures var r := RemoveAt(layer, k);
            && (if r == [] then -1 else r[0]) == (if Before(layer, k) >= 0 then layer[0] else After(layer, k))
            && (if r == [] then -1 else r[|r| - 1]) == (if After(layer, k) >= 0 then layer[|layer| - 1] else Before(layer, k))
  {
  }

  lemma RemovedInRange(layer: seq<int>, k: nat)
    requires InRange(layer) && k < |layer|
    ensures InRange(RemoveAt(layer, k))
    ensures forall i :: 0 <= i < |layer| - 1 ==> 0 <= RemoveAt(layer, k)[i] < SIZE
  {
  }

  lemma UnlinkNext(layer: seq<int>, k: nat, next: seq<int>, prev: seq<int>, head: int, tail: int,
                   next': seq<int>, i: nat)
    requires |next| == |prev| == SIZE && InRange(layer) && Distinct(layer) && k < |layer|
    requires Linked(layer, next, prev, head, tail) && prev[layer[k]] < SIZE
    requires next' == if prev[layer[k]] >= 0 then next[prev[layer[k]] := next[layer[k]]] else next
    requires i < |layer| - 1
    ensures next'[RemoveAt(layer, k)[i]] == After(RemoveAt(layer, k), i)
  {
    var j := if i < k then i else i + 1;
    assert LinkOk(layer, next, prev, k) && LinkOk(layer, next, prev, j);
  }

  lemma UnlinkPrev(layer: seq<int>, k: nat, next: seq<int>, prev: seq<int>, head: int, tail: int,
                   prev': seq<int>, i: nat)
    requires |next| == |prev| == SIZE && InRange(layer) && Distinct(layer) && k < |layer|
    requires Linked(layer, next, prev, head, tail) && next[layer[k]] < SIZE
    requires prev' == if next[layer[k]] >= 0 then prev[next[layer[k]] := prev[layer[k]]] else prev
    requires i < |layer| - 1
    ensures prev'[RemoveAt(layer, k)[i]] == Before(RemoveAt(layer, k), i)
  {
    var j := if i < k then i else i + 1;
    assert LinkOk(layer, next, prev, k) && LinkOk(layer, next, prev, j);
  }

  /** Stores to slots of other lists do not disturb this one. */
  lemma OthersKeepLinked(layer: seq<int>, next: seq<int>, prev: seq<int>, head: int, tail: int,
                         next': seq<int>, prev': seq<int>)
    requires |next| == |prev| == |next'| == |prev'| == SIZE && InRange(layer)
    requires Linked(layer, next, prev, head, tail)
    requires forall i :: 0 <= i < |layer| ==> next'[layer[i]] == next[layer[i]] && prev'[layer[i]] == prev[layer[i]]
    ensures Linked(layer, next', prev', head, tail)
  {
    forall i | 0 <= i < |layer| ensures LinkOk(layer, next', prev', i) { assert LinkOk(layer, next, prev, i); }
  }

  // ----- all four lists at once

  const LISTS := 4

  datatype Lists = Lists(next: seq<int>, prev: seq<int>, heads: seq<int>, tails: seq<int>)

  ghost predicate Sized(g: Lists) {
    |g.next| == |g.prev| == SIZE && |g.heads| == |g.tails| == LISTS
  }

  /** Lists of distinct slots with no slot in two of them. */
  ghost predicate Separate(layers: seq<seq<int>>) {
    && |layers| == LISTS
    && (forall l :: 0 <= l < LISTS ==> InRange(layers[l]) && Distinct(layers[l]))
    && (forall l, m, i, j :: 0 <= l < m < LISTS && 0 <= i < |layers[l]| && 0 <= j < |layers[m]| ==>
          layers[l][i] != layers[m][j])
  }

  predicate InNone(s: int, layers: seq<seq<int>>)
    requires |layers| == LISTS
  {
    forall m :: 0 <= m < LISTS ==> s !in layers[m]
  }

  ghost predicate Represents(g: Lists, layers: seq<seq<int>>) {
    && Sized(g)
    && |layers| == LISTS && Separate(layers)
    && (forall l :: 0 <= l < LISTS ==> Linked(layers[l], g.next, g.prev, g.heads[l], g.tails[l]))
  }

  /** The state after unlink_slot's stores. */
  function Unlinked(g: Lists, l: int, s: int): Lists
    requires Sized(g) && 0 <= l < LISTS && 0 <= s < SIZE
    requires g.prev[s] < SIZE && g.next[s] < SIZE
  {
    var p, n := g.prev[s], g.next[s];
    Lists(if p >= 0 then g.next[p := n] else g.next,
          if n >= 0 then g.prev[n := p] else g.prev,
          if p >= 0 then g.heads else g.heads[l := n],
          if n >= 0 then g.tails else g.tails[l := p])
  }

  /** The state after append_to_layer's stores. */
  function Appended(g: Lists, l: int, s: int): Lists
    requires Sized(g) && 0 <= l < LISTS && 0 <= s < SIZE && g.tails[l] < SIZE
  {
    var t := g.tails[l];
    Lists(if t >= 0 then g.next[s := -1][t := s] else g.next[s := -1],
          g.prev[s := t],
          if t >= 0 then g.heads else g.heads[l := s],
          g.tails[l := s])
  }

  lemma LinksInRange(g: Lists, layers: seq<seq<int>>, l: int, s: int)
    requires Represents(g, layers) && 0 <= l < LISTS && s in layers[l]
    ensures 0 <= s < SIZE && g.prev[s] < SIZE && g.next[s] < SIZE
  {
    var k := IndexOf(layers[l], s);
    assert Linked(layers[l], g.next, g.prev, g.heads[l], g.tails[l]);
    assert LinkOk(layers[l], g.next, g.prev, k);
  }

  lemma HeadAndTail(g: Lists, layers: seq<seq<int>>, l: int)
    requires Represents(g, layers) && 0 <= l < LISTS
    ensures if layers[l] == [] then g.heads[l] == g.tails[l] == -1
            else g.heads[l] == layers[l][0] && 0 <= layers[l][0] && g.tails[l] < SIZE
  {
    assert Linked(layers[l], g.next, g.prev, g.heads[l], g.tails[l]);
  }

  lemma EmptyRepresents(g: Lists)
    requires Sized(g) && (forall l :: 0 <= l < LISTS ==> g.heads[l] == g.tails[l] == -1)
    ensures Represents(g, [[], [], [], []])
  {
  }

  lemma SeparateWithout(layers: seq<seq<int>>, l: int, s: int)
    requires Separate(layers) && 0 <= l < LISTS && s in layers[l]
    ensures Separate(layers[l := Without(layers[l], s)])
    ensures InNone(s, layers[l := Without(layers[l], s)])
  {
    WithoutDistinct(layers[l], s);
    var r := layers[l := Without(layers[l], s)];
    var k := IndexOf(layers[l], s);
    forall m | 0 <= m < LISTS ensures s !in r[m] {
      assert m != l ==> forall i :: 0 <= i < |layers[m]| ==> layers[m][i] != layers[l][k];
    }
  }

  lemma SeparateWith(layers: seq<seq<int>>, l: int, s: int)
    requires Separate(layers) && 0 <= l < LISTS && 0 <= s < SIZE
    requires InNone(s, layers)
    ensures Separate(layers[l := layers[l] + [s]])
  {
    forall m | 0 <= m < LISTS ensures forall i :: 0 <= i < |layers[m]| ==> layers[m][i] != s {
      assert s !in layers[m];
    }
  }

  lemma UnlinkRepresents(g: Lists, layers: seq<seq<int>>, l: int, s: int)
    requires Represents(g, layers) && 0 <= l < LISTS && s in layers[l]
    requires 0 <= s < SIZE && g.prev[s] < SIZE && g.next[s] < SIZE
    ensures Represents(Unlinked(g, l, s), layers[l := Without(layers[l], s)])
  {
    hide Distinct, Linked;
    var r := layers[l := Without(layers[l], s)];
    var g' := Unlinked(g, l, s);
    SeparateWithout(layers, l, s);
    UnlinkKeepsLinked(layers[l], IndexOf(layers[l], s), g.next, g.prev, g.heads[l], g.tails[l], g'.next, g'.prev);
    forall m | 0 <= m < LISTS && m != l ensures Linked(r[m], g'.next, g'.prev, g'.heads[m], g'.tails[m]) {
      UnlinkOther(g, layers, l, s, m);
    }
  }

  lemma UnlinkOther(g: Lists, layers: seq<seq<int>>, l: int, s: int, m: int)
    requires Represents(g, layers) && 0 <= l < LISTS && s in layers[l] && 0 <= m < LISTS && m != l
    requires 0 <= s < SIZE && g.prev[s] < SIZE && g.next[s] < SIZE
    ensures var g' := Unlinked(g, l, s);
            Linked(layers[m], g'.next, g'.prev, g'.heads[m], g'.tails[m])
  {
    hide Distinct;
    var g' := Unlinked(g, l, s);
    var k := IndexOf(layers[l], s);
    assert Linked(layers[l], g.next, g.prev, g.heads[l], g.tails[l]);
    assert LinkOk(layers[l], g.next, g.prev, k);
    OthersKeepLinked(layers[m], g.next, g.prev, g.heads[m], g.tails[m], g'.next, g'.prev);
  }

  lemma AppendRepresents(g: Lists, layers: seq<seq<int>>, l: int, s: int)
    requires Represents(g, layers) && 0 <= l < LISTS && 0 <= s < SIZE && g.tails[l] < SIZE
    requires InNone(s, layers)
    ensures Represents(Appended(g, l, s), layers[l := layers[l] + [s]])
  {
    var r := layers[l := layers[l] + [s]];
    var g' := Appended(g, l, s);
    SeparateWith(layers, l, s);
    assert g.tails[l] >= 0 ==> layers[l] != [] && g.tails[l] == layers[l][|layers[l]| - 1];
    AppendKeepsLinked(layers[l], s, g.next, g.prev, g.heads[l], g.tails[l], g'.next, g'.prev);
    forall m | 0 <= m < LISTS && m != l ensures Linked(r[m], g'.next, g'.prev, g'.heads[m], g'.tails[m]) {
      forall i | 0 <= i < |layers[m]| ensures layers[m][i] != s && layers[m][i] != g.tails[l] {
        assert layers[m][i] in layers[m];
      }
      OthersKeepLinked(layers[m], g.next, g.prev, g.heads[m], g.tails[m], g'.next, g'.prev);
    }
  }
}

/** The scheduler's multi-level queue, on the arrays it is kept in. */
module PriorityQueue {
  import opened Basics
  import opened Seqs
  import opened QueueSpec
  import opened IntrusiveLists
  import LayerMask

  lemma InvSeparates(q: Queue)
    requires Inv(q)
    ensures Shape(q) && Separate(q.layers)
    ensures forall s :: IsSlot(s) && !Queued(q, s) ==> InNone(s, q.layers)
  {
    forall l | IsLayer(l) ensures InRange(q.layers[l]) && Distinct(q.layers[l]) {
      assert LayerOk(q, l);
      assert forall i :: 0 <= i < |q.layers[l]| ==> q.layers[l][i] in q.layers[l];
    }
    forall l, i | IsLayer(l) && 0 <= i < |q.layers[l]| ensures q.slots[q.layers[l][i]].priority == l {
      assert LayerOk(q, l) && q.layers[l][i] in q.layers[l];
    }
    forall s, l | IsSlot(s) && !Queued(q, s) && IsLayer(l) ensures s !in q.layers[l] {
      assert LayerOk(q, l);
    }
  }

  ghost predicate MaskOk(mask: bv64, layers: seq<seq<int>>)
    requires |layers| == NUM_PRIORITIES
  {
    && mask < 16
    && (forall l :: IsLayer(l) ==> (LayerMask.Has(mask, l) <==> layers[l] != []))
  }

  lemma EmptyMask()
    ensures MaskOk(0, [[], [], [], []])
  {
  }

  lemma MaskWithout(mask: bv64, layers: seq<seq<int>>, l: int, rest: seq<int>)
    requires |layers| == NUM_PRIORITIES && IsLayer(l) && MaskOk(mask, layers) && layers[l] != []
    ensures MaskOk(if rest == [] then mask & !LayerMask.Bit(l) else mask, layers[l := rest])
  {
    hide LayerMask.Has, LayerMask.Bit;
    LayerMask.OneBit(mask, l);
    LayerMask.StaysSmall(mask, l);
  }

  lemma MaskWith(mask: bv64, layers: seq<seq<int>>, l: int, s: int)
    requires |layers| == NUM_PRIORITIES && IsLayer(l) && MaskOk(mask, layers)
    ensures MaskOk(mask | LayerMask.Bit(l), layers[l := layers[l] + [s]])
  {
    hide LayerMask.Has, LayerMask.Bit;
    LayerMask.OneBit(mask, l);
    LayerMask.StaysSmall(mask, l);
  }

  /** Taking a queued slot out of its layer leaves room for it on the free stack. */
  lemma ReleaseFits(q: Queue, s: int)
    requires Inv(q) && IsSlot(s) && Queued(q, s)
    ensures |q.free| < MAX_ITEMS
  {
    assert q.layers[q.slots[s].priority] != [];
  }

  lemma MaskFindsFirst(mask: bv64, q: Queue)
    requires Shape(q) && MaskOk(mask, q.layers)
    ensures mask == 0 <==> FirstLayer(q) == NUM_PRIORITIES
    ensures mask != 0 ==> LayerMask.TrailingZeros(mask) == FirstLayer(q)
    ensures Count(q) == 0 ==> FirstLayer(q) == NUM_PRIORITIES
  {
    if mask != 0 {
      var z := LayerMask.TrailingZeros(mask);
      assert q.layers[z] != [];
    } else {
      LayerMask.ZeroHasNone();
    }
  }

  lemma CountersWrap(n: nat)
    ensures (Gen16(n) + 1) % GENERATIONS == Gen16(n + 1)
    ensures (Seq32(n) + 1) % SEQUENCES == Seq32(n + 1)
  {
    GenWraps(n);
    SeqWraps(n);
    hide Gen16, Seq32;
  }

  lemma GenWraps(n: nat)
    ensures (Gen16(n) + 1) % GENERATIONS == Gen16(n + 1)
  {
    assert n + 1 == n / GENERATIONS * GENERATIONS + (n % GENERATIONS + 1);
  }

  lemma SeqWraps(n: nat)
    ensures (Seq32(n) + 1) % SEQUENCES == Seq32(n + 1)
  {
    assert n + 1 == n / SEQUENCES * SEQUENCES + (n % SEQUENCES + 1);
  }

  class MultiLevelQueue {
    const slots: array<Task>
    const layerHead: array<int>
    const layerTail: array<int>
    const slotNext: array<int>
    const slotPrev: array<int>
    const freeStack: array<int>
    const gen: array<int>
    var freeTop: int
    var nonemptyMask: bv64
    var nextGen: int
    var size: int
    var nextSeq: nat

    /** The abstract queue that the arrays hold. */
    ghost var view: Queue

    ghost predicate Arrays() {
      && slots.Length == slotNext.Length == slotPrev.Length == freeStack.Length == gen.Length == MAX_ITEMS
      && layerHead.Length == layerTail.Length == NUM_PRIORITIES
      && layerHead != layerTail
      && slotNext != slotPrev && slotNext != freeStack && slotNext != gen
      && slotPrev != freeStack && slotPrev != gen && freeStack != gen
    }

    ghost function Links(): Lists
      reads layerHead, layerTail, slotNext, slotPrev
    {
      Lists(slotNext[..], slotPrev[..], layerHead[..], layerTail[..])
    }

    /** Links and bitmap hold exactly the given four lists. */
    ghost predicate Holds(layers: seq<seq<int>>)
      reads this`nonemptyMask, layerHead, layerTail, slotNext, slotPrev
    {
      Represents(Links(), layers) && MaskOk(nonemptyMask, layers)
    }

    ghost predicate Valid()
      reads this, slots, layerHead, layerTail, slotNext, slotPrev, freeStack, gen
    {
      && Arrays()
      && Inv(view)
      && Holds(view.layers)
      && slots[..] == view.slots
      && gen[..] == view.gen
      && 0 <= freeTop <= MAX_ITEMS && freeStack[..freeTop] == view.free
      && nextGen == Gen16(|view.history|)
      && nextSeq == Seq32(|view.history|)
      && size == MAX_ITEMS - freeTop
    }

    constructor ()
      ensures Valid() && view == QueueSpec.Init()
      ensures fresh(slots) && fresh(layerHead) && fresh(layerTail) && fresh(slotNext)
      ensures fresh(slotPrev) && fresh(freeStack) && fresh(gen)
    {
      hide Inv, Represents, MaskOk;
      slots := new Task[MAX_ITEMS](i => ZERO_TASK);
      layerHead := new int[NUM_PRIORITIES](i => -1);
      layerTail := new int[NUM_PRIORITIES](i => -1);
      slotNext := new int[MAX_ITEMS](i => 0);
      slotPrev := new int[MAX_ITEMS](i => 0);
      freeStack := new int[MAX_ITEMS](i => i);
      gen := new int[MAX_ITEMS](i => 0);
      freeTop, nonemptyMask, nextGen, size, nextSeq := MAX_ITEMS, 0, 0, 0, 0;
      view := QueueSpec.Init();
      new;
      InitInv();
      EmptyRepresents(Links());
      EmptyMask();
    }

    ghost function Repr(): set<object> {
      {this, slots, layerHead, layerTail, slotNext, slotPrev, freeStack, gen}
    }

    /** The memset of pq_init on the per-slot arrays. */
    method ClearSlots()
      requires Arrays()
      modifies slots, slotNext, slotPrev, gen
      ensures slots[..] == QueueSpec.Init().slots && gen[..] == QueueSpec.Init().gen
    {
      forall i | 0 <= i < MAX_ITEMS { slots[i] := ZERO_TASK; }
      forall i | 0 <= i < MAX_ITEMS { slotNext[i] := 0; }
      forall i | 0 <= i < MAX_ITEMS { slotPrev[i] := 0; }
      forall i | 0 <= i < MAX_ITEMS { gen[i] := 0; }
    }

    /** Its loops over the free stack and the layers. */
    method ClearLists()
      requires Arrays()
      modifies layerHead, layerTail, freeStack
      ensures freeStack[..] == QueueSpec.Init().free
      ensures forall l :: 0 <= l < NUM_PRIORITIES ==> layerHead[l] == -1 && layerTail[l] == -1
    {
      for i := 0 to MAX_ITEMS
        invariant forall k :: 0 <= k < i ==> freeStack[k] == k
      {
        freeStack[i] := i;
      }
      for i := 0 to NUM_PRIORITIES
        invariant freeStack[..] == QueueSpec.Init().free
        invariant forall k :: 0 <= k < i ==> layerHead[k] == -1 && layerTail[k] == -1
      {
        layerHead[i] := -1;
        layerTail[i] := -1;
      }
    }

    /** pq_init on a queue that already exists: whatever it held is forgotten. */
    method Init()
      requires Arrays()
      modifies this, slots, layerHead, layerTail, slotNext, slotPrev, freeStack, gen
      ensures Valid() && view == QueueSpec.Init()
    {
      hide Inv, Represents, MaskOk;
      ClearSlots();
      ClearLists();
      freeTop, nonemptyMask, nextGen, size, nextSeq := MAX_ITEMS, 0, 0, 0, 0;
      view := QueueSpec.Init();
      InitInv();
      EmptyRepresents(Links());
      EmptyMask();
    }

    /** Removes `slot` from the list of the layer recorded in its task. */
    method UnlinkSlot(slot: int, ghost layers: seq<seq<int>>)
      requires Arrays() && Holds(layers) && IsSlot(slot)
      requires IsLayer(slots[slot].priority) && slot in layers[slots[slot].priority]
      modifies this`nonemptyMask, layerHead, layerTail, slotNext, slotPrev
      ensures Holds(layers[slots[slot].priority := Without(layers[slots[slot].priority], slot)])
    {
      hide Separate, Linked, MaskOk, InRange, Distinct;
      var layer := slots[slot].priority;
      LinksInRange(Links(), layers, layer, slot);
      UnlinkRepresents(Links(), layers, layer, slot);
      UnlinkStores(slot, layer);
      ghost var rest := Without(layers[layer], slot);
      HeadAndTail(Links(), layers[layer := rest], layer);
      MaskWithout(nonemptyMask, layers, layer, rest);
      if layerHead[layer] < 0 {
        nonemptyMask := nonemptyMask & !LayerMask.Bit(layer);
      }
    }

    /** The link stores of unlink_slot. */
    method UnlinkStores(slot: int, layer: int)
      requires Arrays() && IsSlot(slot) && IsLayer(layer)
      requires slotPrev[slot] < MAX_ITEMS && slotNext[slot] < MAX_ITEMS
      modifies layerHead, layerTail, slotNext, slotPrev
      ensures Links() == Unlinked(old(Links()), layer, slot)
    {
      var p := slotPrev[slot];
      var n := slotNext[slot];
      if p >= 0 {
        slotNext[p] := n;
      } else {
        layerHead[layer] := n;
      }
      if n >= 0 {
        slotPrev[n] := p;
      } else {
        layerTail[layer] := p;
      }
    }

    /** Adds `slot` at the tail of a layer and records the layer in its task. */
    method AppendToLayer(slot: int, layer: int, ghost layers: seq<seq<int>>)
      requires Arrays() && Holds(layers) && IsSlot(slot) && IsLayer(layer) && InNone(slot, layers)
      modifies this`nonemptyMask, slots, layerHead, layerTail, slotNext, slotPrev
      ensures Holds(layers[layer := layers[layer] + [slot]])
      ensures slots[..] == old(slots[..][slot := slots[slot].(priority := layer)])
    {
      hide Separate, Linked, MaskOk, InRange, Distinct;
      HeadAndTail(Links(), layers, layer);
      AppendRepresents(Links(), layers, layer, slot);
      MaskWith(nonemptyMask, layers, layer, slot);
      slots[slot] := slots[slot].(priority := layer);
      AppendStores(slot, layer);
      nonemptyMask := nonemptyMask | LayerMask.Bit(layer);
    }

    /** The link stores of append_to_layer. */
    method AppendStores(slot: int, layer: int)
      requires Arrays() && IsSlot(slot) && IsLayer(layer) && layerTail[layer] < MAX_ITEMS
      modifies layerHead, layerTail, slotNext, slotPrev
      ensures Links() == Appended(old(Links()), layer, slot)
    {
      var t := layerTail[layer];
      slotPrev[slot] := t;
      slotNext[slot] := -1;
      if t >= 0 {
        slotNext[t] := slot;
      } else {
        layerHead[layer] := slot;
      }
      layerTail[layer] := slot;
    }

    /** Clears the slot and puts it on the free stack. */
    method FreeSlot(slot: int)
      requires Arrays() && IsSlot(slot) && 0 <= freeTop < MAX_ITEMS
      modifies this`freeTop, slots, freeStack
      ensures freeTop == old(freeTop) + 1
      ensures slots[..] == old(slots[..][slot := ZERO_TASK])
      ensures freeStack[..freeTop] == old(freeStack[..freeTop]) + [slot]
    {
      slots[slot] := ZERO_TASK;
      freeStack[freeTop] := slot;
      freeTop := freeTop + 1;
    }

    method Push(priority: int, fn: nat, arg: nat) returns (h: int)
      requires Valid()
      modifies this, slots, layerHead, layerTail, slotNext, slotPrev, freeStack, gen
      ensures Valid()
      ensures view == QueueSpec.Push(old(view), priority, fn, arg)
      ensures h == PushHandle(old(view), priority)
    {
      hide Inv, Holds, MakeHandle, Queued, InNone, Separate, Distinct, Gen16, Seq32;
      if priority < 0 || priority >= NUM_PRIORITIES || freeTop <= 0 {
        return -1;
      }
      PushInv(view, priority, fn, arg);
      InvSeparates(view);
      CountersWrap(|view.history|);
      freeTop := freeTop - 1;
      var slot := freeStack[freeTop];
      assert slot == NextSlot(view);
      FillSlot(slot, priority, fn, arg, view.layers);
      nextSeq, nextGen, size := (nextSeq + 1) % SEQUENCES, (nextGen + 1) % GENERATIONS, size + 1;
      view := QueueSpec.Push(view, priority, fn, arg);
      return MakeHandle(gen[slot], slot);
    }

    /** The stores of pq_push: the task, its generation and its place at the tail of the layer. */
    method FillSlot(slot: int, priority: int, fn: nat, arg: nat, ghost layers: seq<seq<int>>)
      requires Arrays() && Holds(layers) && IsSlot(slot) && IsLayer(priority) && InNone(slot, layers)
      modifies this`nonemptyMask, slots, layerHead, layerTail, slotNext, slotPrev, gen
      ensures Holds(layers[priority := layers[priority] + [slot]])
      ensures slots[..] == old(slots[..])[slot := Task(fn, arg, priority, nextSeq, 0, 0)]
      ensures gen[..] == old(gen[..])[slot := nextGen]
    {
      hide Represents, MaskOk, InNone;
      slots[slot] := Task(fn, arg, slots[slot].priority, nextSeq, 0, 0);
      gen[slot] := nextGen;
      AppendToLayer(slot, priority, layers);
    }

    /** Unlinks, clears and recycles a queued slot. */
    method ReleaseSlot(slot: int)
      requires Valid() && IsSlot(slot) && Queued(view, slot)
      modifies this, slots, layerHead, layerTail, slotNext, slotPrev, freeStack
      ensures Valid()
      ensures view == Release(old(view), slot)
    {
      hide Inv, Holds, Gen16, Seq32, Separate, InNone, Distinct;
      InvSeparates(view);
      ReleaseInv(view, slot);
      ReleaseFits(view, slot);
      UnlinkSlot(slot, view.layers);
      FreeSlot(slot);
      size := size - 1;
      view := Release(view, slot);
    }

    method PopLayerHead(layer: int) returns (out: Option<Task>)
      requires Valid() && IsLayer(layer)
      modifies this, slots, layerHead, layerTail, slotNext, slotPrev, freeStack
      ensures Valid()
      ensures view == PopLayer(old(view), layer)
      ensures out == PoppedTask(old(view), layer)
    {
      HeadAndTail(Links(), view.layers, layer);
      hide Inv, Holds, Gen16, Seq32;
      var slot := layerHead[layer];
      if slot < 0 {
        return None;
      }
      assert slot == Head(view, layer);
      out := Some(slots[slot]);
      ReleaseSlot(slot);
    }

    /** Pops the head of the highest-priority non-empty layer. */
    method Pop() returns (out: Option<Task>)
      requires Valid()
      modifies this, slots, layerHead, layerTail, slotNext, slotPrev, freeStack
      ensures Valid()
      ensures view == PopLayer(old(view), FirstLayer(old(view)))
      ensures out == PoppedTask(old(view), FirstLayer(old(view)))
    {
      MaskFindsFirst(nonemptyMask, view);
      assert size == Count(view);
      hide Inv, Holds, MaskOk, LayerMask.TrailingZeros;
      if size == 0 || nonemptyMask == 0 {
        return None;
      }
      out := PopLayerHead(LayerMask.TrailingZeros(nonemptyMask));
    }

    method PopFromLayer(layer: int) returns (out: Option<Task>)
      requires Valid()
      modifies this, slots, layerHead, layerTail, slotNext, slotPrev, freeStack
      ensures Valid()
      ensures view == PopLayer(old(view), layer)
      ensures out == PoppedTask(old(view), layer)
    {
      var has := HasTasks(layer);
      hide Inv, Holds;
      if !has {
        return None;
      }
      out := PopLayerHead(layer);
    }

    method HasTasks(layer: int) returns (has: bool)
      requires Valid()
      ensures has == HasLayer(view, layer)
    {
      hide Inv, Represents, LayerMask.Bit;
      if layer < 0 || layer >= NUM_PRIORITIES {
        return false;
      }
      return nonemptyMask & LayerMask.Bit(layer) != 0;
    }

    /** handle_valid */
    method IsValidHandle(h: int) returns (ok: bool)
      requires Valid()
      ensures ok == HandleValid(view, h)
    {
      hide Inv, Holds;
      if h < 0 {
        return false;
      }
      var slot := HandleSlot(h);
      if slot >= MAX_ITEMS || slots[slot].fn == 0 {
        return false;
      }
      return gen[slot] == HandleGen(h);
    }

    /** Returns 0 when the handle and the priority are accepted, -1 otherwise. */
    method Update(h: int, newPriority: int) returns (rc: int)
      requires Valid()
      modifies this, slots, layerHead, layerTail, slotNext, slotPrev
      ensures Valid()
      ensures view == QueueSpec.Update(old(view), h, newPriority)
      ensures rc == if CanUpdate(old(view), h, newPriority) then 0 else -1
    {
      hide Inv, Holds, HandleSlot, HandleGen, Gen16, Seq32;
      if newPriority < 0 || newPriority >= NUM_PRIORITIES {
        return -1;
      }
      var ok := IsValidHandle(h);
      if !ok {
        return -1;
      }
      var slot := HandleSlot(h);
      if slots[slot].priority == newPriority {
        return 0;
      }
      ValidHandleIsQueued(view, h);
      MoveSlot(slot, newPriority);
      return 0;
    }

    method MoveSlot(slot: int, layer: int)
      requires Valid() && IsSlot(slot) && Queued(view, slot) && IsLayer(layer)
      requires layer != view.slots[slot].priority
      modifies this, slots, layerHead, layerTail, slotNext, slotPrev
      ensures Valid()
      ensures view == Move(old(view), slot, layer)
    {
      hide Inv, Holds, Gen16, Seq32, InNone, Separate, Distinct;
      InvSeparates(view);
      MoveInv(view, slot, layer);
      SeparateWithout(view.layers, view.slots[slot].priority, slot);
      ghost var from := slots[slot].priority;
      UnlinkSlot(slot, view.layers);
      AppendToLayer(slot, layer, view.layers[from := Without(view.layers[from], slot)]);
      view := Move(view, slot, layer);
    }

    method Remove(h: int) returns (rc: int)
      requires Valid()
      modifies this, slots, layerHead, layerTail, slotNext, slotPrev, freeStack
      ensures Valid()
      ensures view == QueueSpec.Remove(old(view), h)
      ensures rc == if HandleValid(old(view), h) then 0 else -1
    {
      hide Inv, Holds, HandleSlot, HandleGen;
      var ok := IsValidHandle(h);
      if !ok {
        return -1;
      }
      ValidHandleIsQueued(view, h);
      ReleaseSlot(HandleSlot(h));
      return 0;
    }

    method SetQuantum(h: int, quantum: nat)
      requires Valid()
      modifies this`view, slots
      ensures Valid()
      ensures view == QueueSpec.SetQuantum(old(view), h, quantum)
    {
      SetQuantumInv(view, h, quantum);
      hide Inv, Holds, HandleSlot, HandleGen;
      var ok := IsValidHandle(h);
      if ok {
        var slot := HandleSlot(h);
        slots[slot] := slots[slot].(quantum := quantum);
        view := QueueSpec.SetQuantum(view, h, quantum);
      }
    }

    /** pq_count; pq_is_empty tests it against zero. */
    method CountAll() returns (n: int)
      requires Valid()
      ensures n == Count(view)
    {
      return size;
    }

    /** Walks one layer's list and counts its slots. */
    method CountLayer(layer: int) returns (n: int)
      requires Valid()
      ensures n == if IsLayer(layer) then |view.layers[layer]| else 0
    {
      if layer < 0 || layer >= NUM_PRIORITIES {
        return 0;
      }
      ghost var list := view.layers[layer];
      assert Linked(list, slotNext[..], slotPrev[..], layerHead[..][layer], layerTail[..][layer]);
      hide Inv;
      n := 0;
      var s := layerHead[layer];
      while s >= 0
        invariant 0 <= n <= |list|
        invariant s == if n < |list| then list[n] else -1
        decreases |list| - n
      {
        assert LinkOk(list, slotNext[..], slotPrev[..], n);
        s := slotNext[s];
        n := n + 1;
      }
    }
  }
}
