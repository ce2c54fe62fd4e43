/**
 * The older queue: one unordered array of items, scanned from end to end on every call.  It
 * is the simple specification that the linked-list queue is measured against.
 */
module ScanQueue {
  import opened Basics
  import opened QueueSpec

  /** An item whose `fn` is 0 is an empty place. */
  datatype Item = Item(fn: nat, arg: nat, priority: int, seqNo: nat)

  const EMPTY := Item(0, 0, 0, 0)

  // ----- what the scans look for

  /** The first empty place, or the length when every place is taken. */
  function FirstEmpty(items: seq<Item>): (i: nat)
    ensures i <= |items|
    ensures i < |items| ==> items[i].fn == 0
    ensures forall k :: 0 <= k < i ==> items[k].fn != 0
  {
    if items == [] || items[0].fn == 0 then 0 else 1 + FirstEmpty(items[1..])
  }

  /** Item `a` is served before item `b`: higher priority first, then first in first out. */
  predicate Precedes(a: Item, b: Item) {
    a.priority < b.priority || (a.priority == b.priority && a.seqNo < b.seqNo)
  }

  /** `b` is the item a pop takes: nothing is served before it, and ties go to the lowest index. */
  ghost predicate IsBest(items: seq<Item>, b: int) {
    && 0 <= b < |items| && items[b].fn != 0
    && (forall k :: 0 <= k < |items| && items[k].fn != 0 ==> !Precedes(items[k], items[b]))
    && (forall k :: 0 <= k < b && items[k].fn != 0 ==> Precedes(items[b], items[k]))
  }

  ghost predicate AllEmpty(items: seq<Item>) {
    forall k :: 0 <= k < |items| ==> items[k].fn == 0
  }

  /** The place the scan's pop takes; -1 when nothing is queued. */
  function BestPlace(items: seq<Item>): (b: int)
    ensures b == -1 ==> AllEmpty(items)
    ensures b != -1 ==> IsBest(items, b)
  {
    if items == [] then -1 else
      var n := |items| - 1;
      var rest := items[..n];
      var b := BestPlace(rest);
      assert forall k :: 0 <= k < n ==> rest[k] == items[k];
      if items[n].fn != 0 && (b == -1 || Precedes(items[n], items[b])) then n else b
  }

  /** How many places are taken. */
  function Taken(items: seq<Item>): (n: nat)
    ensures n <= |items|
    ensures n == |items| <==> forall k :: 0 <= k < |items| ==> items[k].fn != 0
    ensures n == 0 <==> forall k :: 0 <= k < |items| ==> items[k].fn == 0
  {
    if items == [] then 0 else
      var last := |items| - 1;
      assert forall k :: 0 <= k < last ==> items[..last][k] == items[k];
      Taken(items[..last]) + if items[last].fn != 0 then 1 else 0
  }

  // ----- the array implementation

  class ItemQueue {
    const items: array<Item>
    /** pq_global_seq, an unsigned int shared by all queues of the program. */
    var globalSeq: nat

    ghost predicate Valid() {
      items.Length == MAX_ITEMS
    }

    constructor (startSeq: nat)
      ensures Valid() && fresh(items) && globalSeq == startSeq
      ensures items[..] == seq(MAX_ITEMS, i => EMPTY)
    {
      items := new Item[MAX_ITEMS](i => EMPTY);
      globalSeq := startSeq;
    }

    method Count() returns (n: int)
      requires Valid()
      ensures n == Taken(items[..])
    {
      n := 0;
      for i := 0 to MAX_ITEMS
        invariant n == Taken(items[..i])
      {
        assert items[..i + 1][..i] == items[..i];
        if items[i].fn != 0 {
          n := n + 1;
        }
      }
      assert items[..MAX_ITEMS] == items[..];
    }

    method Push(priority: int, fn: nat, arg: nat) returns (rc: int)
      requires Valid()
      modifies this, items
      ensures Valid()
      ensures rc == if IsLayer(priority) && FirstEmpty(old(items[..])) < MAX_ITEMS then 0 else -1
      ensures rc == 0 ==>
                && items[..] == old(items[..])[FirstEmpty(old(items[..])) := Item(fn, arg, priority, old(globalSeq))]
                && globalSeq == (old(globalSeq) + 1) % SEQUENCES
      ensures rc == -1 ==> items[..] == old(items[..]) && globalSeq == old(globalSeq)
    {
      if priority < 0 || priority >= NUM_PRIORITIES {
        return -1;
      }
      var count := Count();
      if count >= MAX_ITEMS {
        return -1;
      }
      var i := 0;
      while i < MAX_ITEMS && items[i].fn != 0
        invariant 0 <= i <= MAX_ITEMS
        invariant forall k :: 0 <= k < i ==> items[k].fn != 0
      {
        i := i + 1;
      }
      if i >= MAX_ITEMS {
        return -1;
      }
      assert i == FirstEmpty(items[..]);
      items[i] := Item(fn, arg, priority, globalSeq);
      globalSeq := (globalSeq + 1) % SEQUENCES;
      return 0;
    }

    method Pop() returns (out: Option<Item>)
      requires Valid()
      modifies items
      ensures Valid()
      ensures var was, b := old(items[..]), BestPlace(old(items[..]));
              if b == -1 then out == None && items[..] == was
              else out == Some(was[b]) && items[..] == was[b := was[b].(fn := 0)]
    {
      var best := -1;
      for i := 0 to MAX_ITEMS
        invariant best == BestPlace(items[..i])
      {
        assert items[..i + 1][..i] == items[..i];
        if items[i].fn != 0 {
          if best < 0 || items[i].priority < items[best].priority ||
             (items[i].priority == items[best].priority && items[i].seqNo < items[best].seqNo) {
            best := i;
          }
        }
      }
      assert items[..MAX_ITEMS] == items[..];
      if best < 0 {
        return None;
      }
      out := Some(items[best]);
      items[best] := items[best].(fn := 0);
    }
  }
}
