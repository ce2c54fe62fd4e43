/** Positions in a ring of `cap` places. */
module Rings {

  /** The place `i` steps after `head`. */
  function At(head: nat, i: nat, cap: nat): (p: nat)
    requires head < cap && i <= cap
    ensures p < cap
    ensures p == if head + i < cap then head + i else head + i - cap
  {
    ModOnce(head + i, cap);
    (head + i) % cap
  }

  /** The `len` elements from `head` on, in order. */
  function Unroll<T>(ring: seq<T>, head: nat, len: nat): (s: seq<T>)
    requires head < |ring| && len <= |ring|
    ensures |s| == len
  {
    seq(len, i requires 0 <= i < len => ring[At(head, i, |ring|)])
  }

  /** Storing at the end of the stretch appends; dropping the first place removes the front. */
  lemma UnrollPut<T>(ring: seq<T>, head: nat, len: nat, x: T)
    requires head < |ring| && len < |ring|
    ensures Unroll(ring[At(head, len, |ring|) := x], head, len + 1) == Unroll(ring, head, len) + [x]
    ensures At(head, len + 1, |ring|) == (At(head, len, |ring|) + 1) % |ring|
  {
    ModOnce(At(head, len, |ring|) + 1, |ring|);
  }

  lemma UnrollGet<T>(ring: seq<T>, head: nat, len: nat)
    requires head < |ring| && 0 < len <= |ring|
    ensures var next := (head + 1) % |ring|;
            && next < |ring|
            && Unroll(ring, head, len) == [ring[head]] + Unroll(ring, next, len - 1)
            && At(next, len - 1, |ring|) == At(head, len, |ring|)
  {
    ModOnce(head + 1, |ring|);
  }

  lemma ModOnce(x: nat, cap: nat)
    requires x < 2 * cap
    ensures x % cap == if x < cap then x else x - cap
  {
  }
}

/** The data path of pipes: a byte ring filled and emptied one byte at a time. */
module PipeRing {
  import opened Basics
  import opened Bytes
  import opened Rings

  class Pipe {
    const buf: array<byte>
    var head: nat
    var tail: nat
    var len: nat
    var closing: bool

    /** Everything ever accepted and everything ever handed to readers. */
    ghost var accepted: seq<byte>
    ghost var delivered: seq<byte>

    ghost predicate Ring()
      reads this`head, this`tail, this`len
    {
      head < buf.Length && len <= buf.Length && tail == At(head, len, buf.Length)
    }

    ghost function Contents(): (s: seq<byte>)
      requires Ring()
      reads this`head, this`tail, this`len, buf
      ensures |s| == len
    {
      Unroll(buf[..], head, len)
    }

    /** Bytes read followed by bytes buffered are all the bytes accepted. */
    ghost predicate Valid()
      reads this, buf
    {
      Ring() && accepted == delivered + Contents()
    }

    /** pipe_create for a capacity that is not zero */
    constructor (size: nat)
      requires size > 0
      ensures Valid() && fresh(buf) && buf.Length == size && Contents() == [] && !closing
      ensures accepted == [] && delivered == []
    {
      buf := new byte[size](i => 0);
      head, tail, len, closing := 0, 0, 0, false;
      accepted, delivered := [], [];
    }

    /** pipe_write: accepts as many leading bytes as there is room for; -1 on no bytes or a closing pipe. */
    method Write(src: seq<byte>) returns (n: int)
      requires Valid()
      modifies this, buf
      ensures Valid() && closing == old(closing) && delivered == old(delivered)
      ensures n == if src == [] || closing then -1 else Min(|src|, buf.Length - old(len))
      ensures Contents() == old(Contents()) + src[..if n < 0 then 0 else n]
    {
      if src == [] || closing {
        return -1;
      }
      ghost var was := Contents();
      var written := 0;
      while written < |src| && len < buf.Length
        invariant Ring() && closing == old(closing) && delivered == old(delivered) && accepted == old(accepted)
        invariant 0 <= written <= |src| && len == old(len) + written
        invariant Contents() == was + src[..written]
      {
        PutByte(src[written]);
        assert src[..written + 1] == src[..written] + [src[written]];
        written := written + 1;
      }
      accepted := accepted + src[..written];
      assert accepted == delivered + Contents();
      return written;
    }

    /** One round of the store loop. */
    method PutByte(b: byte)
      requires Ring() && len < buf.Length
      modifies this`tail, this`len, buf
      ensures Ring() && len == old(len) + 1 && Contents() == old(Contents()) + [b]
    {
      UnrollPut(buf[..], head, len, b);
      buf[tail] := b;
      tail := (tail + 1) % buf.Length;
      len := len + 1;
    }

    /** The part of pipe_read after waiting, which is all of it where readers never wait. */
    method Read(count: nat) returns (out: Option<seq<byte>>)
      requires Valid()
      modifies this
      ensures Valid() && closing == old(closing) && accepted == old(accepted)
      ensures out == if count == 0 || old(len) == 0 then None else Some(old(Contents())[..Min(count, old(len))])
      ensures Contents() == if out == None then old(Contents()) else old(Contents())[Min(count, old(len))..]
      ensures delivered == if out == None then old(delivered) else old(delivered) + out.value
    {
      if count == 0 || len == 0 {
        return None;
      }
      hide Ring, Unroll;
      var dst := LoadBytes(count);
      delivered := delivered + dst;
      return Some(dst);
    }

    method LoadBytes(count: nat) returns (dst: seq<byte>)
      requires Ring()
      modifies this`head, this`len
      ensures Ring() && dst + Contents() == old(Contents()) && |dst| == Min(count, old(len))
    {
      hide Unroll, At;
      ghost var was := Contents();
      dst := [];
      while |dst| < count && len > 0
        invariant Ring() && |dst| <= count && dst + Contents() == was
      {
        ghost var rest := Contents();
        var b := GetByte();
        assert rest == [b] + Contents();
        dst := dst + [b];
      }
    }

    /** One round of the load loop. */
    method GetByte() returns (b: byte)
      requires Ring() && len > 0
      modifies this`head, this`len
      ensures Ring() && len == old(len) - 1
      ensures b == old(Contents())[0] && Contents() == old(Contents())[1..]
    {
      UnrollGet(buf[..], head, len);
      b := buf[head];
      head := (head + 1) % buf.Length;
      len := len - 1;
    }
  }
}

/** The data path of message queues: a ring of fixed-size slots laid out in one run of bytes. */
module MessageRing {
  import opened Basics
  import opened Bytes
  import opened Rings

  const SIZES := 0x1_0000_0000_0000_0000    // size_t

  /** A message as it lies in its slot: zero-padded to the slot size. */
  function Padded(msg: seq<byte>, slot: nat): (p: seq<byte>)
    requires |msg| <= slot
    ensures |p| == slot
  {
    msg + seq(slot - |msg|, i => 0)
  }

  // ----- how many bytes are allocated

  /** malloc(max_messages * message_size), with the product a size_t */
  function Allocated(max: nat, size: nat): nat { max * size % SIZES }

  predicate Wraps(max: nat, size: nat) { max * size >= SIZES }

  /** How many slots lie wholly inside the allocation. */
  function WholeSlots(max: nat, size: nat): nat
    requires 0 < size
  {
    Allocated(max, size) / size
  }

  /** Slot `i` lies inside the allocation. */
  predicate Inside(i: nat, max: nat, size: nat) { (i + 1) * size <= Allocated(max, size) }

  lemma MulLess(x: nat, y: nat, z: nat)
    requires x * z < y * z
    ensures x < y
  {
    if x >= y { MulMonotone(y, x, z); }
  }

  /** Without a wrap every slot is inside; with one, exactly the first few, and they are fewer than the slots. */
  lemma InsideIff(i: nat, max: nat, size: nat)
    requires i < max && 0 < size
    ensures Inside(i, max, size) <==> !Wraps(max, size) || i < WholeSlots(max, size)
    ensures Wraps(max, size) ==> WholeSlots(max, size) < max
  {
    var b := Allocated(max, size);
    if !Wraps(max, size) {
      MulMonotone(i + 1, max, size);
    } else {
      var k := b / size;
      assert k * size <= b < (k + 1) * size by { DivBounds(b, size); }
      if i < k { MulMonotone(i + 1, k, size); } else { MulMonotone(k + 1, i + 1, size); }
      MulLess(k, max, size);
    }
  }

  lemma SmallMod(x: nat, max: nat)
    requires x < max
    ensures x % max == x
  {
  }

  lemma DivBounds(b: nat, size: nat)
    requires 0 < size
    ensures b / size * size <= b < (b / size + 1) * size
  {
  }

  // ----- slots in a flat buffer

  function Slot(buf: seq<byte>, i: nat, size: nat): (s: seq<byte>)
    requires (i + 1) * size <= |buf|
    ensures |s| == size
  {
    SlotEnd(i, size);
    buf[i * size..i * size + size]
  }

  lemma SlotEnd(i: nat, size: nat)
    ensures (i + 1) * size == i * size + size
  {
  }

  /** Two buffers that differ in slot `i` alone. */
  ghost predicate SlotChanged(buf: seq<byte>, buf': seq<byte>, i: nat, size: nat, msg: seq<byte>)
    requires |msg| == size
  {
    && |buf'| == |buf| && (i + 1) * size <= |buf|
    && forall x :: 0 <= x < |buf| ==> buf'[x] == if i * size <= x < i * size + size then msg[x - i * size] else buf[x]
  }

  /** Rewriting one slot's bytes changes that slot and no other. */
  lemma SlotStore(buf: seq<byte>, buf': seq<byte>, i: nat, size: nat, msg: seq<byte>, j: nat)
    requires |msg| == size && SlotChanged(buf, buf', i, size, msg) && (j + 1) * size <= |buf|
    ensures Slot(buf', j, size) == if j == i then msg else Slot(buf, j, size)
  {
    SlotEnd(i, size);
    SlotEnd(j, size);
    if j < i { MulMonotone(j + 1, i, size); } else if i < j { MulMonotone(i + 1, j, size); }
  }

  // ----- the ring

  /** The `len` slots from `head` on are inside the buffer. */
  ghost predicate Placed(buf: seq<byte>, head: nat, len: nat, max: nat, size: nat) {
    head < max && len <= max && forall i :: 0 <= i < len ==> (At(head, i, max) + 1) * size <= |buf|
  }

  ghost function Queued(buf: seq<byte>, head: nat, len: nat, max: nat, size: nat): (s: seq<seq<byte>>)
    requires Placed(buf, head, len, max, size)
    ensures |s| == len
  {
    seq(len, i requires 0 <= i < len => Slot(buf, At(head, i, max), size))
  }

  lemma AtApart(head: nat, i: nat, j: nat, max: nat)
    requires head < max && i < max && j < max && i != j
    ensures At(head, i, max) != At(head, j, max)
  {
  }

  lemma QueuedPut(buf: seq<byte>, buf': seq<byte>, head: nat, len: nat, max: nat, size: nat, msg: seq<byte>)
    requires Placed(buf, head, len, max, size) && len < max && |msg| == size
    requires SlotChanged(buf, buf', At(head, len, max), size, msg)
    ensures Placed(buf', head, len + 1, max, size)
    ensures Queued(buf', head, len + 1, max, size) == Queued(buf, head, len, max, size) + [msg]
    ensures At(head, len + 1, max) == (At(head, len, max) + 1) % max
  {
    ModOnce(At(head, len, max) + 1, max);
    forall i | 0 <= i <= len
      ensures (At(head, i, max) + 1) * size <= |buf'|
      ensures Slot(buf', At(head, i, max), size) == if i == len then msg else Slot(buf, At(head, i, max), size)
    {
      if i < len { AtApart(head, i, len, max); }
      SlotStore(buf, buf', At(head, len, max), size, msg, At(head, i, max));
    }
    hide SlotChanged, Slot;
  }

  lemma QueuedGet(buf: seq<byte>, head: nat, len: nat, max: nat, size: nat)
    requires Placed(buf, head, len, max, size) && 0 < len
    ensures (head + 1) * size <= |buf|
    ensures var next := At(head, 1, max);
            && Placed(buf, next, len - 1, max, size)
            && Queued(buf, head, len, max, size) == [Slot(buf, head, size)] + Queued(buf, next, len - 1, max, size)
            && At(next, len - 1, max) == At(head, len, max)
  {
    var next := At(head, 1, max);
    assert At(head, 0, max) == head;
    forall i | 0 <= i < len - 1 ensures At(next, i, max) == At(head, i + 1, max) {}
    hide Slot;
  }

  class MessageQueue {
    const buf: array<byte>
    const maxMessages: nat
    const messageSize: nat
    var head: nat
    var tail: nat
    var len: nat
    var closing: bool

    /** The messages accepted, as they lay in their slots, and those taken out again. */
    ghost var sent: seq<seq<byte>>
    ghost var taken: seq<seq<byte>>

    /** In a queue whose product wraps, the tail has never come round to the start again. */
    ghost predicate Ring()
      reads this`head, this`tail, this`len
    {
      && buf.Length == Allocated(maxMessages, messageSize) && messageSize > 0
      && head < maxMessages && len <= maxMessages && tail == At(head, len, maxMessages)
      && (Wraps(maxMessages, messageSize) ==> head + len == tail <= WholeSlots(maxMessages, messageSize))
    }

    lemma RingPlaced()
      requires Ring()
      ensures Placed(buf[..], head, len, maxMessages, messageSize)
    {
      forall i | 0 <= i < len ensures (At(head, i, maxMessages) + 1) * messageSize <= |buf[..]| {
        InsideIff(At(head, i, maxMessages), maxMessages, messageSize);
      }
    }

    ghost function Contents(): (s: seq<seq<byte>>)
      requires Ring()
      reads this`head, this`tail, this`len, buf
      ensures |s| == len
    {
      RingPlaced();
      Queued(buf[..], head, len, maxMessages, messageSize)
    }

    ghost predicate Valid()
      reads this, buf
    {
      Ring() && sent == taken + Contents()
    }

    /** msgq_create for sizes that are not zero; the product may wrap. */
    constructor (maxMessages: nat, messageSize: nat)
      requires maxMessages > 0 && messageSize > 0
      ensures Valid() && fresh(buf) && Contents() == [] && !closing && tail == 0 && sent == [] && taken == []
      ensures this.maxMessages == maxMessages && this.messageSize == messageSize
    {
      this.maxMessages, this.messageSize := maxMessages, messageSize;
      buf := new byte[Allocated(maxMessages, messageSize)](i => 0);
      head, tail, len, closing := 0, 0, 0, false;
      sent, taken := [], [];
    }

    /**
     * msgq_send: 0 when the message was queued, -1 when it is empty, too long, or there is no room.  `fault` is a
     * store outside the allocation, after which nothing more can be said.
     */
    method Send(msg: seq<byte>) returns (rc: int, fault: bool)
      requires Valid()
      modifies this, buf
      ensures Valid() && closing == old(closing) && taken == old(taken)
      ensures var accepts := 0 < |msg| <= messageSize && !closing && old(len) < maxMessages;
              && fault == (accepts && !Inside(old(tail), maxMessages, messageSize))
              && rc == if accepts && !fault then 0 else -1
      ensures Contents() == if rc == 0 then old(Contents()) + [Padded(msg, messageSize)] else old(Contents())
      ensures tail == if rc == 0 then (old(tail) + 1) % maxMessages else old(tail)
    {
      if msg == [] || |msg| > messageSize || closing || len >= maxMessages {
        return -1, false;
      }
      if (tail + 1) * messageSize > buf.Length {
        return -1, true;
      }
      ghost var was := buf[..];
      RingPlaced();
      InsideIff(tail, maxMessages, messageSize);
      FillSlot(msg);
      QueuedPut(was, buf[..], head, len, maxMessages, messageSize, Padded(msg, messageSize));
      hide SlotChanged, Queued, Allocated, Wraps;
      tail := (tail + 1) % maxMessages;
      len := len + 1;
      sent := sent + [Padded(msg, messageSize)];
      return 0, false;
    }

    /** Zeroes the slot at the tail, then copies the message to its front. */
    method FillSlot(msg: seq<byte>)
      requires |msg| <= messageSize && (tail + 1) * messageSize <= buf.Length
      modifies buf
      ensures SlotChanged(old(buf[..]), buf[..], tail, messageSize, Padded(msg, messageSize))
    {
      ghost var was := buf[..];
      SlotEnd(tail, messageSize);
      var base := tail * messageSize;
      for i := 0 to messageSize
        invariant forall x :: 0 <= x < buf.Length ==> buf[x] == if base <= x < base + i then 0 else was[x]
      {
        buf[base + i] := 0;
      }
      ghost var zeroed := buf[..];
      for i := 0 to |msg|
        invariant forall x :: 0 <= x < buf.Length ==>
                    buf[x] == if base <= x < base + i then msg[x - base] else zeroed[x]
      {
        buf[base + i] := msg[i];
      }
    }

    /** The copy of msgq_receive: the first `n` bytes of the slot at the head. */
    method CopyOut(n: nat) returns (out: seq<byte>)
      requires Ring() && len > 0 && n <= messageSize
      ensures out == Contents()[0][..n]
    {
      HeadSlot();
      hide Ring, Queued;
      var base := head * messageSize;
      out := buf[base..base + n];
    }

    lemma HeadSlot()
      requires Ring() && len > 0
      ensures var base := head * messageSize;
              0 <= base && base + messageSize <= buf.Length && Contents()[0] == buf[base..base + messageSize]
    {
      RingPlaced();
      QueuedGet(buf[..], head, len, maxMessages, messageSize);
      SlotEnd(head, messageSize);
    }

    /** The part of msgq_receive after waiting: the oldest message, cut to the receiver's size. */
    method Receive(size: nat) returns (out: Option<seq<byte>>)
      requires Valid()
      modifies this
      ensures Valid() && closing == old(closing) && sent == old(sent) && tail == old(tail)
      ensures out == if size == 0 || old(len) == 0 then None
                     else Some(old(Contents())[0][..Min(size, messageSize)])
      ensures Contents() == if out == None then old(Contents()) else old(Contents())[1..]
      ensures taken == if out == None then old(taken) else old(taken) + [old(Contents())[0]]
    {
      if size == 0 || len == 0 {
        return None;
      }
      hide Ring, Queued;
      var bytes := CopyOut(Min(size, messageSize));
      out := Some(bytes);
      Advance();
    }

    /** The slot at the head becomes free. */
    method Advance()
      requires Valid() && len > 0
      modifies this`head, this`len, this`taken
      ensures Valid() && Contents() == old(Contents())[1..] && taken == old(taken) + [old(Contents())[0]]
    {
      ghost var was := Contents();
      RingPlaced();
      QueuedGet(buf[..], head, len, maxMessages, messageSize);
      hide At, Queued, Slot, Placed, Allocated, Wraps, WholeSlots;
      head := At(head, 1, maxMessages);
      len := len - 1;
      taken := taken + [was[0]];
    }
  }
}
