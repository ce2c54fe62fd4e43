/** Bits of an unsigned word, kept as a number. */
module WordBits {

  const BITS := 64

  /** `n` ones */
  function Ones(n: nat): nat { if n == 0 then 0 else 2 * Ones(n - 1) + 1 }

  lemma FourMore(n: nat)
    ensures Ones(n + 4) == 16 * Ones(n) + 15
  {
    assert Ones(n + 2) == 4 * Ones(n) + 3;
  }

  lemma OnesIs()
    ensures Ones(BITS) == ALL_ONES
  {
    hide Ones;
    FourMore(0); FourMore(4); FourMore(8); FourMore(12); FourMore(16); FourMore(20); FourMore(24); FourMore(28);
    FourMore(32); FourMore(36); FourMore(40); FourMore(44); FourMore(48); FourMore(52); FourMore(56); FourMore(60);
    assert Ones(0) == 0 by { NoOnes(); }
  }

  lemma NoOnes()
    ensures Ones(0) == 0
  {
  }

  const ALL_ONES := 0xFFFF_FFFF_FFFF_FFFF

  /** unsigned long */
  type word = w: nat | w <= ALL_ONES

  predicate Has(w: nat, i: nat) {
    if i == 0 then w % 2 == 1 else Has(w / 2, i - 1)
  }

  /** w | 1UL << b */
  function WithBit(w: nat, b: nat): nat {
    if b == 0 then w / 2 * 2 + 1 else WithBit(w / 2, b - 1) * 2 + w % 2
  }

  /** w & ~(1UL << b) */
  function WithoutBit(w: nat, b: nat): nat {
    if b == 0 then w / 2 * 2 else WithoutBit(w / 2, b - 1) * 2 + w % 2
  }

  /** 1UL << b */
  function Shifted(b: nat): nat { if b == 0 then 1 else 2 * Shifted(b - 1) }

  /** In numbers: a bit that changes adds or takes away the shifted one. */
  lemma {:induction false} BitsAsNumbers(w: nat, b: nat)
    ensures WithBit(w, b) == w + if Has(w, b) then 0 else Shifted(b)
    ensures WithoutBit(w, b) == w - if Has(w, b) then Shifted(b) else 0
  {
    if b > 0 { BitsAsNumbers(w / 2, b - 1); }
  }

  /** Setting a bit changes that bit alone. */
  lemma {:induction false} WithBitHas(w: nat, b: nat, i: nat)
    ensures Has(WithBit(w, b), i) <==> i == b || Has(w, i)
  {
    if b > 0 && i > 0 { WithBitHas(w / 2, b - 1, i - 1); }
  }

  /** So does clearing it. */
  lemma {:induction false} WithoutBitHas(w: nat, b: nat, i: nat)
    ensures Has(WithoutBit(w, b), i) <==> i != b && Has(w, i)
  {
    if b > 0 && i > 0 { WithoutBitHas(w / 2, b - 1, i - 1); }
  }

  lemma {:induction false} StaysInside(w: nat, b: nat, n: nat)
    requires w <= Ones(n) && b < n
    ensures WithBit(w, b) <= Ones(n) && WithoutBit(w, b) <= w
  {
    if b > 0 { StaysInside(w / 2, b - 1, n - 1); }
  }

  /** ~w: the complement has exactly the other bits. */
  lemma {:induction false} NotHas(w: nat, n: nat, i: nat)
    requires w <= Ones(n) && i < n
    ensures Has(Ones(n) - w, i) <==> !Has(w, i)
  {
    if i > 0 {
      assert (Ones(n) - w) / 2 == Ones(n - 1) - w / 2;
      NotHas(w / 2, n - 1, i - 1);
    }
  }

  /** ~w */
  function Not(w: word): (r: word) { ALL_ONES - w }

  lemma NotBit(w: word, i: nat)
    requires i < BITS
    ensures Has(Not(w), i) <==> !Has(w, i)
  {
    hide Has;
    OnesIs();
    NotHas(w, BITS, i);
  }

  lemma StaysWord(w: word, b: nat)
    requires b < BITS
    ensures WithBit(w, b) <= ALL_ONES && WithoutBit(w, b) <= ALL_ONES
  {
    hide WithBit, WithoutBit;
    OnesIs();
    StaysInside(w, b, BITS);
  }

  /** __builtin_ctzl, which is defined for words that are not zero */
  function TrailingZeros(w: nat): (r: nat)
    requires w != 0
    ensures Has(w, r) && forall k :: 0 <= k < r ==> !Has(w, k)
  {
    if w % 2 == 1 then 0 else 1 + TrailingZeros(w / 2)
  }

  lemma {:induction false} TrailingZerosInside(w: nat, n: nat)
    requires 0 < w <= Ones(n)
    ensures TrailingZeros(w) < n
  {
    if w % 2 == 0 { TrailingZerosInside(w / 2, n - 1); }
  }

  lemma TrailingZerosOfWord(w: word)
    requires w != 0
    ensures TrailingZeros(w) < BITS
  {
    hide TrailingZeros;
    OnesIs();
    TrailingZerosInside(w, BITS);
  }

  /** __builtin_popcountl */
  function PopCount(w: nat): nat { if w == 0 then 0 else w % 2 + PopCount(w / 2) }

  /** The set bits among `i` .. `n`. */
  function CountFrom(w: nat, i: nat, n: nat): nat
    requires i <= n
    decreases n - i
  {
    if i == n then 0 else (if Has(w, i) then 1 else 0) + CountFrom(w, i + 1, n)
  }

  lemma {:induction false} CountShift(w: nat, i: nat, n: nat)
    requires i <= n
    ensures CountFrom(w, i + 1, n + 1) == CountFrom(w / 2, i, n)
    decreases n - i
  {
    if i < n { CountShift(w, i + 1, n); }
  }

  /** Halving the word away counts each of its bits once. */
  lemma {:induction false} PopCountIs(w: nat, n: nat)
    requires w <= Ones(n)
    ensures PopCount(w) == CountFrom(w, 0, n)
  {
    if n > 0 {
      PopCountIs(w / 2, n - 1);
      CountShift(w, 0, n - 1);
    }
  }

  lemma PopCountOfWord(w: word)
    ensures PopCount(w) == CountFrom(w, 0, BITS)
  {
    hide PopCount, CountFrom;
    OnesIs();
    PopCountIs(w, BITS);
  }
}

/** The frame bitmap as a set of free frames. */
module FrameSpec {
  import opened Basics
  import opened WordBits

  const NUM_FRAMES := 1024
  const WORDS := 16
  const FRAME_SIZE := 4096
  const PHYS_BASE := 0x10_0000
  const REGION_END := 0x50_0000    // PHYS_BASE + NUM_FRAMES * FRAME_SIZE
  const ADDRESSES := 0x1_0000_0000_0000_0000

  predicate IsFrame(f: int) { 0 <= f < NUM_FRAMES }

  predicate Used(words: seq<word>, f: int)
    requires |words| == WORDS && IsFrame(f)
  {
    Has(words[f / BITS], f % BITS)
  }

  /** The free frames below `n`. */
  function FreeBelow(words: seq<word>, n: nat): set<int>
    requires |words| == WORDS && n <= NUM_FRAMES
  {
    set f | 0 <= f < n && !Used(words, f)
  }

  function FreeSet(words: seq<word>): set<int>
    requires |words| == WORDS
  {
    FreeBelow(words, NUM_FRAMES)
  }

  // ----- single bits

  function Marked(words: seq<word>, f: int): (r: seq<word>)
    requires |words| == WORDS && IsFrame(f)
    ensures |r| == WORDS
  {
    StaysWord(words[f / BITS], f % BITS);
    words[f / BITS := WithBit(words[f / BITS], f % BITS)]
  }

  function Unmarked(words: seq<word>, f: int): (r: seq<word>)
    requires |words| == WORDS && IsFrame(f)
    ensures |r| == WORDS
  {
    StaysWord(words[f / BITS], f % BITS);
    words[f / BITS := WithoutBit(words[f / BITS], f % BITS)]
  }

  lemma SameFrame(f: int, g: int)
    requires f / BITS == g / BITS && f % BITS == g % BITS
    ensures f == g
  {
  }

  lemma MarkedUsed(words: seq<word>, f: int, g: int)
    requires |words| == WORDS && IsFrame(f) && IsFrame(g)
    ensures Used(Marked(words, f), g) <==> g == f || Used(words, g)
  {
    hide Has, WithBit;
    WithBitHas(words[f / BITS], f % BITS, g % BITS);
    if f / BITS == g / BITS && f % BITS == g % BITS { SameFrame(f, g); }
  }

  lemma UnmarkedUsed(words: seq<word>, f: int, g: int)
    requires |words| == WORDS && IsFrame(f) && IsFrame(g)
    ensures Used(Unmarked(words, f), g) <==> g != f && Used(words, g)
  {
    hide Has, WithoutBit;
    WithoutBitHas(words[f / BITS], f % BITS, g % BITS);
    if f / BITS == g / BITS && f % BITS == g % BITS { SameFrame(f, g); }
  }

  /** bm_set takes one frame out of the free set, bm_clear puts one in. */
  lemma MarkedFree(words: seq<word>, f: int)
    requires |words| == WORDS && IsFrame(f)
    ensures FreeSet(Marked(words, f)) == FreeSet(words) - {f}
    ensures FreeSet(Unmarked(words, f)) == FreeSet(words) + {f}
  {
    hide Used, Marked, Unmarked;
    forall g | IsFrame(g)
      ensures Used(Marked(words, f), g) <==> g == f || Used(words, g)
      ensures Used(Unmarked(words, f), g) <==> g != f && Used(words, g)
    {
      MarkedUsed(words, f, g);
      UnmarkedUsed(words, f, g);
    }
    var a, b := FreeSet(Marked(words, f)), FreeSet(Unmarked(words, f));
    assert forall g :: g in a <==> IsFrame(g) && !Used(Marked(words, f), g);
    assert forall g :: g in b <==> IsFrame(g) && !Used(Unmarked(words, f), g);
  }

  // ----- whole words

  lemma FrameParts(w: nat, i: nat)
    requires w < WORDS && i < BITS
    ensures IsFrame(w * BITS + i) && (w * BITS + i) / BITS == w && (w * BITS + i) % BITS == i
  {
  }

  /** A word of ones has no free frame. */
  lemma FullWord(words: seq<word>, w: nat, i: nat)
    requires |words| == WORDS && w < WORDS && i < BITS && words[w] == Not(0)
    ensures Used(words, w * BITS + i)
  {
    hide Has;
    FrameParts(w, i);
    ZeroHas(i);
    NotBit(0, i);
  }

  lemma {:induction false} ZeroHas(i: nat)
    ensures !Has(0, i)
  {
    if i > 0 { ZeroHas(i - 1); }
  }

  lemma BitIsFrame(words: seq<word>, w: nat, i: nat)
    requires |words| == WORDS && w < WORDS && i < BITS
    ensures IsFrame(w * BITS + i) && (Used(words, w * BITS + i) <==> !Has(Not(words[w]), i))
  {
    hide Has;
    FrameParts(w, i);
    NotBit(words[w], i);
  }

  lemma FreeBelowStep(words: seq<word>, n: nat)
    requires |words| == WORDS && n < NUM_FRAMES
    ensures |FreeBelow(words, n + 1)| == |FreeBelow(words, n)| + if Used(words, n) then 0 else 1
  {
    hide Used;
    var a, b := FreeBelow(words, n), FreeBelow(words, n + 1);
    if Used(words, n) {
      assert b == a;
    } else {
      assert b == a + {n};
    }
  }

  /** The clear bits of a word are its free frames. */
  lemma {:induction false} WordCount(words: seq<word>, w: nat, i: nat)
    requires |words| == WORDS && w < WORDS && i <= BITS
    ensures w * BITS + BITS <= NUM_FRAMES
    ensures |FreeBelow(words, w * BITS + BITS)| == |FreeBelow(words, w * BITS + i)| + CountFrom(Not(words[w]), i, BITS)
    decreases BITS - i
  {
    hide FreeBelow, Has;
    if i < BITS {
      WordCount(words, w, i + 1);
      FrameParts(w, i);
      FreeBelowStep(words, w * BITS + i);
      NotBit(words[w], i);
    }
  }

  // ----- reserved ranges

  function Wrap(x: nat): nat { x % ADDRESSES }

  /** The tracked frames that the range really meets. */
  predicate Meets(base: nat, bytes: nat, f: int) {
    IsFrame(f) && base < PHYS_BASE + (f + 1) * FRAME_SIZE && PHYS_BASE + f * FRAME_SIZE < base + bytes && bytes > 0
  }

  /** The first and last frame that pmm_reserve_range marks, if any. */
  function Span(base: nat, bytes: nat): Option<(nat, nat)> {
    if bytes == 0 || Wrap(base + bytes) <= PHYS_BASE then None else
      var start := if base < PHYS_BASE then PHYS_BASE else base;
      var end := Min(Wrap(base + bytes), REGION_END);
      if start >= end then None
      else Some(((start - PHYS_BASE) / FRAME_SIZE, Min((end - 1 - PHYS_BASE) / FRAME_SIZE, NUM_FRAMES - 1)))
  }

  predicate Reserves(base: nat, bytes: nat, f: int) {
    Span(base, bytes).Some? && Span(base, bytes).value.0 <= f <= Span(base, bytes).value.1
  }

  /** A range that does not wrap reserves exactly the tracked frames it meets. */
  lemma ReservesWhatItMeets(base: nat, bytes: nat, f: int)
    requires base + bytes < ADDRESSES
    ensures Reserves(base, bytes, f) <==> Meets(base, bytes, f)
  {
    assert Wrap(base + bytes) == base + bytes;
    hide Wrap;
    if 0 <= f < NUM_FRAMES && Span(base, bytes).Some? {
      var start := if base < PHYS_BASE then PHYS_BASE else base;
      var end := Min(base + bytes, REGION_END);
      FrameOf(start - PHYS_BASE, f);
      FrameOf(end - 1 - PHYS_BASE, f);
    }
  }

  lemma FrameOf(offset: nat, f: nat)
    ensures offset / FRAME_SIZE <= f <==> offset < (f + 1) * FRAME_SIZE
    ensures f <= offset / FRAME_SIZE <==> f * FRAME_SIZE <= offset
  {
  }

  /** A range that wraps reserves nothing at all. */
  lemma WrappedReservesNothing(base: nat, bytes: nat)
    requires base < ADDRESSES && bytes < ADDRESSES && base + bytes >= ADDRESSES
    ensures Span(base, bytes) == None
  {
    assert Wrap(base + bytes) == base + bytes - ADDRESSES;
  }

  /** The exact condition for pmm_reserve_range to mark what it should. */
  lemma ReserveIsExactIff(base: nat, bytes: nat)
    requires base < ADDRESSES && bytes < ADDRESSES
    ensures (forall f :: Reserves(base, bytes, f) <==> Meets(base, bytes, f))
            <==> base + bytes < ADDRESSES || base >= REGION_END
  {
    if base + bytes < ADDRESSES {
      forall f ensures Reserves(base, bytes, f) <==> Meets(base, bytes, f) { ReservesWhatItMeets(base, bytes, f); }
    } else {
      WrappedReservesNothing(base, bytes);
      if base < REGION_END {
        assert Meets(base, bytes, NUM_FRAMES - 1) && !Reserves(base, bytes, NUM_FRAMES - 1);
      } else {
        forall f ensures !Meets(base, bytes, f) { AboveRegion(base, bytes, f); }
      }
    }
  }

  lemma AboveRegion(base: nat, bytes: nat, f: int)
    requires base >= REGION_END
    ensures !Meets(base, bytes, f)
  {
  }

  // ----- runs

  datatype Call = Alloc | Free(addr: nat) | Reserve(base: nat, bytes: nat)

  function Address(f: nat): nat { PHYS_BASE + f * FRAME_SIZE }

  /** The frame that pmm_free_frame clears for an address, if it is tracked. */
  function FrameAt(addr: nat): Option<nat> {
    if addr < PHYS_BASE || (addr - PHYS_BASE) / FRAME_SIZE >= NUM_FRAMES then None
    else Some((addr - PHYS_BASE) / FRAME_SIZE)
  }

  /** The address lies inside the frame. */
  predicate Within(addr: nat, f: int) { PHYS_BASE + f * FRAME_SIZE <= addr < PHYS_BASE + (f + 1) * FRAME_SIZE }

  /** An address names the frame it lies in, and none exactly when it lies outside the tracked region. */
  lemma FrameAtIff(addr: nat, f: nat)
    ensures FrameAt(addr) == Some(f) <==> IsFrame(f) && Within(addr, f)
    ensures FrameAt(addr) == None <==> addr < PHYS_BASE || addr >= REGION_END
    ensures IsFrame(f) ==> FrameAt(Address(f)) == Some(f)
  {
    if addr >= PHYS_BASE { FrameOf(addr - PHYS_BASE, f); FrameOf(addr - PHYS_BASE, NUM_FRAMES); }
    FrameOf(f * FRAME_SIZE, f);
  }

  ghost predicate IsLowest(free: set<int>, f: int) { f in free && forall g :: g in free ==> f <= g }

  /** One call on the set of free frames: the new set, and the address that an allocation returns. */
  ghost predicate Step(free: set<int>, call: Call, free': set<int>, addr: nat) {
    match call
    case Alloc =>
      if free == {} then free' == free && addr == 0
      else exists f :: 0 <= f && IsLowest(free, f) && free' == free - {f} && addr == Address(f)
    case Free(a) => free' == (if FrameAt(a).Some? then free + {FrameAt(a).value} else free) && addr == 0
    case Reserve(base, bytes) => free' == (set f | f in free && !Reserves(base, bytes, f)) && addr == 0
  }

  ghost predicate Run(states: seq<set<int>>, calls: seq<Call>, replies: seq<nat>) {
    && |states| == |calls| + 1 && |replies| == |calls|
    && forall i :: 0 <= i < |calls| ==> Step(states[i], calls[i], states[i + 1], replies[i])
  }

  predicate Frees(call: Call, f: nat) { call.Free? && FrameAt(call.addr) == Some(f) }

  lemma AddressFrame(f: nat, g: nat)
    ensures Address(f) == Address(g) ==> f == g
    ensures Address(f) != 0
  {
  }

  lemma {:induction false} StaysTaken(states: seq<set<int>>, calls: seq<Call>, replies: seq<nat>, i: nat, j: nat, f: nat)
    requires Run(states, calls, replies) && i <= j <= |calls| && f !in states[i]
    requires forall k :: i <= k < j ==> !Frees(calls[k], f)
    ensures f !in states[j]
    decreases j - i
  {
    if i < j {
      assert Step(states[i], calls[i], states[i + 1], replies[i]);
      assert !Frees(calls[i], f);
      StaysTaken(states, calls, replies, i + 1, j, f);
    }
  }

  /** No address is handed out twice unless one inside its frame was freed in between. */
  lemma NotHandedOutTwice(states: seq<set<int>>, calls: seq<Call>, replies: seq<nat>, i: nat, j: nat, f: nat)
    requires Run(states, calls, replies) && i < j < |calls| && calls[i] == calls[j] == Alloc
    requires replies[i] == replies[j] == PHYS_BASE + f * FRAME_SIZE
    ensures exists k :: i < k < j && calls[k].Free? && Within(calls[k].addr, f)
  {
    assert Step(states[i], calls[i], states[i + 1], replies[i]);
    assert Step(states[j], calls[j], states[j + 1], replies[j]);
    AllocTakes(states[i], states[i + 1], f);
    AllocTakes(states[j], states[j + 1], f);
    if forall k :: i < k < j ==> !Frees(calls[k], f) {
      StaysTaken(states, calls, replies, i + 1, j, f);
    }
    var k :| i < k < j && Frees(calls[k], f);
    FrameAtIff(calls[k].addr, f);
  }

  /** A frame that a reserved range meets is not handed out again until an address inside it has been freed. */
  lemma ReservedStaysOut(states: seq<set<int>>, calls: seq<Call>, replies: seq<nat>, i: nat, j: nat, f: nat)
    requires Run(states, calls, replies) && i < j < |calls| && calls[i].Reserve? && calls[j] == Alloc
    requires calls[i].base + calls[i].bytes < ADDRESSES && Meets(calls[i].base, calls[i].bytes, f)
    requires replies[j] == PHYS_BASE + f * FRAME_SIZE
    ensures exists k :: i < k < j && calls[k].Free? && Within(calls[k].addr, f)
  {
    assert Step(states[i], calls[i], states[i + 1], replies[i]);
    assert Step(states[j], calls[j], states[j + 1], replies[j]);
    ReservesWhatItMeets(calls[i].base, calls[i].bytes, f);
    AllocTakes(states[j], states[j + 1], f);
    if forall k :: i < k < j ==> !Frees(calls[k], f) {
      StaysTaken(states, calls, replies, i + 1, j, f);
    }
    var k :| i < k < j && Frees(calls[k], f);
    FrameAtIff(calls[k].addr, f);
  }

  /** Freeing what was just handed out undoes the allocation. */
  lemma FreeUndoesAlloc(free: set<int>, free1: set<int>, free2: set<int>, addr: nat)
    requires Step(free, Alloc, free1, addr) && addr != 0 && Step(free1, Free(addr), free2, 0)
    requires forall f :: f in free ==> IsFrame(f)
    ensures free2 == free
  {
    var f :| 0 <= f && IsLowest(free, f) && free1 == free - {f} && addr == Address(f);
    FrameAtIff(addr, f);
  }

  lemma AllocTakes(free: set<int>, free': set<int>, f: nat)
    requires Step(free, Alloc, free', Address(f))
    ensures f in free && f !in free'
  {
    AddressFrame(f, f);
    var g :| 0 <= g && IsLowest(free, g) && free' == free - {g} && Address(f) == Address(g);
    AddressFrame(f, g);
  }
}

/** The bitmap itself. */
module Pmm {
  import opened Basics
  import opened WordBits
  import opened FrameSpec

  class FrameMap {
    const bitmap: array<word>

    constructor ()
      ensures fresh(bitmap) && bitmap.Length == WORDS
      ensures forall f :: f in FreeSet(bitmap[..]) <==> IsFrame(f)
    {
      bitmap := new word[WORDS](i => 0);
      new;
      hide Has;
      forall f | IsFrame(f) ensures !Used(bitmap[..], f) { ZeroHas(f % BITS); }
    }

    ghost predicate Valid() { bitmap.Length == WORDS }

    ghost function Free(): set<int>
      requires Valid()
      reads bitmap
    {
      FreeSet(bitmap[..])
    }

    /** bm_set */
    method Mark(f: nat)
      requires Valid() && IsFrame(f)
      modifies bitmap
      ensures Free() == old(Free()) - {f}
    {
      MarkedFree(bitmap[..], f);
      StaysWord(bitmap[f / BITS], f % BITS);
      hide FreeSet, WithBit;
      bitmap[f / BITS] := WithBit(bitmap[f / BITS], f % BITS);
      assert bitmap[..] == Marked(old(bitmap[..]), f);
    }

    /** bm_clear */
    method Unmark(f: nat)
      requires Valid() && IsFrame(f)
      modifies bitmap
      ensures Free() == old(Free()) + {f}
    {
      MarkedFree(bitmap[..], f);
      StaysWord(bitmap[f / BITS], f % BITS);
      hide FreeSet, WithoutBit;
      bitmap[f / BITS] := WithoutBit(bitmap[f / BITS], f % BITS);
      assert bitmap[..] == Unmarked(old(bitmap[..]), f);
    }

    /** pmm_reserve_range */
    method ReserveRange(base: nat, bytes: nat)
      requires Valid()
      modifies bitmap
      ensures Step(old(Free()), Reserve(base, bytes), Free(), 0)
      ensures base + bytes < ADDRESSES ==> Free() == set f | f in old(Free()) && !Meets(base, bytes, f)
    {
      if base + bytes < ADDRESSES {
        forall f ensures Reserves(base, bytes, f) <==> Meets(base, bytes, f) { ReservesWhatItMeets(base, bytes, f); }
      }
      if bytes == 0 || Wrap(base + bytes) <= PHYS_BASE {
        return;
      }
      var start := if base < PHYS_BASE then PHYS_BASE else base;
      var end := Wrap(base + bytes);
      if end > REGION_END {
        end := REGION_END;
      }
      if start >= end {
        return;
      }
      var first := (start - PHYS_BASE) / FRAME_SIZE;
      var last := (end - 1 - PHYS_BASE) / FRAME_SIZE;
      if last >= NUM_FRAMES {
        last := NUM_FRAMES - 1;
      }
      assert Span(base, bytes) == Some((first, last));
      hide FreeSet, Span;
      MarkAll(first, last);
    }

    method MarkAll(first: nat, last: nat)
      requires Valid() && first <= last < NUM_FRAMES
      modifies bitmap
      ensures Free() == set g | g in old(Free()) && !(first <= g <= last)
    {
      hide FreeSet;
      for f := first to last + 1
        invariant Free() == set g | g in old(Free()) && !(first <= g < f)
      {
        Mark(f);
      }
    }

    /** pmm_alloc_frame */
    method AllocFrame() returns (addr: nat)
      requires Valid()
      modifies bitmap
      ensures Step(old(Free()), Alloc, Free(), addr)
      ensures addr == 0 <==> old(Free()) == {}
      ensures addr != 0 ==> exists f :: f in old(Free()) && addr == PHYS_BASE + f * FRAME_SIZE && Free() == old(Free()) - {f}
                                        && forall g :: g in old(Free()) ==> f <= g
    {
      hide Used;
      for w := 0 to WORDS
        invariant bitmap[..] == old(bitmap[..])
        invariant forall f :: 0 <= f < w * BITS ==> Used(bitmap[..], f)
      {
        if bitmap[w] == Not(0) {
          forall f | w * BITS <= f < (w + 1) * BITS ensures Used(bitmap[..], f) {
            FullWord(bitmap[..], w, f - w * BITS);
          }
          continue;
        }
        var bit := FindBit(w);
        var f := w * BITS + bit;
        FrameParts(w, bit);
        assert IsLowest(Free(), f);
        Mark(f);
        return Address(f);
      }
      assert old(Free()) == {};
      return 0;
    }

    /** The lowest clear bit of a word that has one. */
    method FindBit(w: nat) returns (bit: nat)
      requires Valid() && w < WORDS && bitmap[w] != Not(0)
      ensures bit < BITS && IsFrame(w * BITS + bit) && !Used(bitmap[..], w * BITS + bit)
      ensures forall f :: w * BITS <= f < w * BITS + bit ==> Used(bitmap[..], f)
    {
      bit := TrailingZeros(Not(bitmap[w]));
      TrailingZerosOfWord(Not(bitmap[w]));
      hide Has, TrailingZeros, Ones, Used;
      ghost var words := bitmap[..];
      BitIsFrame(words, w, bit);
      forall f | w * BITS <= f < w * BITS + bit ensures Used(words, f) { BitIsFrame(words, w, f - w * BITS); }
    }

    /** pmm_free_frame */
    method FreeFrame(addr: nat)
      requires Valid()
      modifies bitmap
      ensures Step(old(Free()), Call.Free(addr), Free(), 0)
      ensures forall f :: f in Free() <==> f in old(Free()) || (IsFrame(f) && Within(addr, f))
    {
      forall f | 0 <= f ensures FrameAt(addr) == Some(f) <==> IsFrame(f) && Within(addr, f) { FrameAtIff(addr, f); }
      if addr < PHYS_BASE {
        return;
      }
      var f := (addr - PHYS_BASE) / FRAME_SIZE;
      if f >= NUM_FRAMES {
        return;
      }
      Unmark(f);
    }

    /** pmm_free_count; the last word is a whole one */
    method FreeCount() returns (n: nat)
      requires Valid()
      ensures n == |Free()|
    {
      hide Used, CountFrom, PopCount;
      n := 0;
      assert FreeBelow(bitmap[..], 0) == {};
      for w := 0 to WORDS
        invariant n == |FreeBelow(bitmap[..], w * BITS)|
      {
        WordCount(bitmap[..], w, 0);
        PopCountOfWord(Not(bitmap[w]));
        n := n + PopCount(Not(bitmap[w]));
      }
    }
  }
}
