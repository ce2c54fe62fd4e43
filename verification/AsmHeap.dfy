/**
 * What the assembly heap means: a run of blocks that tile the break area, and the order of
 * the free list.  A block is a 16-byte header followed by `size` payload bytes.
 */
module HeapSpec {
  import opened Seqs

  const HDR_SIZE := 16
  const WORD_LIMIT := 0x1_0000_0000_0000_0000

  datatype Block = Block(addr: nat, size: nat, free: bool)

  datatype Heap = Heap(start: nat, blocks: seq<Block>, free: seq<nat>)

  /** The next multiple of 16. */
  function Align16(n: nat): (r: nat)
    ensures n <= r < n + 16 && r % 16 == 0
  {
    (n + 15) / 16 * 16
  }

  /** align16 on 64-bit words */
  function Rounded(size: nat): nat { (size + 15) % WORD_LIMIT / 16 * 16 }

  const MAX_REQUEST := WORD_LIMIT - 16

  /** The last fifteen sizes are rounded to nothing. */
  lemma RoundedIs(size: nat)
    requires size < WORD_LIMIT
    ensures Rounded(size) == if size <= MAX_REQUEST then Align16(size) else 0
  {
  }

  lemma SumOfMultiples(x: nat, y: nat)
    requires x % 16 == 0 && y % 16 == 0
    ensures (x + HDR_SIZE + y) % 16 == 0
  {
    assert x + HDR_SIZE + y == 16 * (x / 16 + 1 + y / 16);
  }

  function EndOf(b: Block): nat { b.addr + HDR_SIZE + b.size }

  /** heap_end */
  function End(h: Heap): nat {
    if h.blocks == [] then h.start else EndOf(h.blocks[|h.blocks| - 1])
  }

  // ----- invariant

  predicate BlockOk(b: Block) {
    b.addr > 0 && b.addr % 16 == 0 && b.size > 0 && b.size % 16 == 0
  }

  /** The blocks cover [start, End) with no gap and no overlap. */
  ghost predicate Tiles(h: Heap) {
    && h.start > 0 && h.start % 16 == 0
    && (forall i :: 0 <= i < |h.blocks| ==> BlockOk(h.blocks[i]))
    && (h.blocks != [] ==> h.blocks[0].addr == h.start)
    && (forall i :: 0 <= i < |h.blocks| - 1 ==> Adjacent(h.blocks, i))
  }

  predicate Adjacent(blocks: seq<Block>, i: nat)
    requires i + 1 < |blocks|
  {
    blocks[i + 1].addr == EndOf(blocks[i])
  }

  /** Some block of the run with this header address carries the free flag. */
  ghost predicate FreeIn(blocks: seq<Block>, a: nat) {
    exists b :: b in blocks && b.free && b.addr == a
  }

  /** The free list names every flagged block once and nothing else. */
  ghost predicate FreeListOk(h: Heap) {
    && Distinct(h.free)
    && (forall a :: a in h.free <==> FreeIn(h.blocks, a))
  }

  ghost predicate Inv(h: Heap) {
    Tiles(h) && FreeListOk(h)
  }

  // ----- consequences of tiling

  lemma {:induction false} Apart(h: Heap, i: nat, j: nat)
    requires Tiles(h) && i < j < |h.blocks|
    ensures EndOf(h.blocks[i]) <= h.blocks[j].addr
    decreases j
  {
    if i < j - 1 { Apart(h, i, j - 1); }
    assert BlockOk(h.blocks[j - 1]) && Adjacent(h.blocks, j - 1);
  }

  /** Two blocks with one address are one block. */
  lemma SameAddress(h: Heap, i: nat, j: nat)
    requires Tiles(h) && i < |h.blocks| && j < |h.blocks| && h.blocks[i].addr == h.blocks[j].addr
    ensures i == j
  {
    if i < j { Apart(h, i, j); } else if j < i { Apart(h, j, i); }
  }

  function TotalBytes(blocks: seq<Block>): nat {
    if blocks == [] then 0
    else TotalBytes(blocks[..|blocks| - 1]) + HDR_SIZE + blocks[|blocks| - 1].size
  }

  /** Headers and payloads together account for every byte between the heap's start and its end. */
  lemma {:induction false} BytesConserved(h: Heap)
    requires Tiles(h)
    ensures h.start + TotalBytes(h.blocks) == End(h)
    decreases |h.blocks|
  {
    if h.blocks != [] {
      var n := |h.blocks| - 1;
      var front := h.blocks[..n];
      assert n > 0 ==> Adjacent(h.blocks, n - 1);
      forall i | 0 <= i < |front| - 1 ensures Adjacent(front, i) { assert Adjacent(h.blocks, i); }
      BytesConserved(h.(blocks := front));
    }
  }

  /** The blocks handed out and not yet freed. */
  function Live(h: Heap): set<Block> {
    set b | b in h.blocks && !b.free
  }

  /** Live payloads are aligned, lie inside the heap, and never meet. */
  lemma LiveDisjoint(h: Heap, b: Block, c: Block)
    requires Inv(h) && b in Live(h) && c in Live(h)
    ensures (b.addr + HDR_SIZE) % 16 == 0
    ensures h.start <= b.addr && EndOf(b) <= End(h)
    ensures b == c || EndOf(b) <= c.addr || EndOf(c) <= b.addr
  {
    var i, j := IndexOf(h.blocks, b), IndexOf(h.blocks, c);
    assert BlockOk(b);
    if i < j { Apart(h, i, j); } else if j < i { Apart(h, j, i); }
    if i > 0 { Apart(h, 0, i); }
    if i < |h.blocks| - 1 { Apart(h, i, |h.blocks| - 1); }
  }

  // ----- finding blocks

  ghost predicate HasBlock(h: Heap, a: nat) {
    exists i :: 0 <= i < |h.blocks| && h.blocks[i].addr == a
  }

  ghost function IndexAt(h: Heap, a: nat): (i: nat)
    requires HasBlock(h, a)
    ensures i < |h.blocks| && h.blocks[i].addr == a
  {
    var i :| 0 <= i < |h.blocks| && h.blocks[i].addr == a;
    i
  }

  lemma ListedIsBlock(h: Heap, k: nat)
    requires Inv(h) && k < |h.free|
    ensures HasBlock(h, h.free[k])
    ensures h.blocks[IndexAt(h, h.free[k])].free
  {
    var a := h.free[k];
    assert FreeIn(h.blocks, a);
    var b :| b in h.blocks && b.free && b.addr == a;
    SameAddress(h, IndexOf(h.blocks, b), IndexAt(h, a));
  }

  /** The size of the block that entry `k` of the free list names. */
  ghost function ListedSize(h: Heap, k: nat): nat
    requires Inv(h) && k < |h.free|
  {
    ListedIsBlock(h, k);
    h.blocks[IndexAt(h, h.free[k])].size
  }

  /** Where a first-fit search that has reached entry `k` stops; the list's length when nothing fits. */
  ghost function FitFrom(h: Heap, n: nat, k: nat): (r: nat)
    requires Inv(h) && k <= |h.free|
    ensures k <= r <= |h.free|
    ensures r < |h.free| ==> ListedSize(h, r) >= n
    ensures forall j :: k <= j < r ==> ListedSize(h, j) < n
    decreases |h.free| - k
  {
    if k == |h.free| || ListedSize(h, k) >= n then k else FitFrom(h, n, k + 1)
  }

  // ----- replacing a stretch of blocks by others over the same bytes

  function Splice(h: Heap, i: nat, j: nat, mid: seq<Block>, free: seq<nat>): Heap
    requires i <= j <= |h.blocks|
  {
    Heap(h.start, h.blocks[..i] + mid + h.blocks[j..], free)
  }

  ghost predicate SameSpan(h: Heap, i: nat, j: nat, mid: seq<Block>) {
    && i < j <= |h.blocks| && mid != []
    && mid[0].addr == h.blocks[i].addr
    && EndOf(mid[|mid| - 1]) == EndOf(h.blocks[j - 1])
    && (forall k :: 0 <= k < |mid| ==> BlockOk(mid[k]))
    && (forall k :: 0 <= k < |mid| - 1 ==> Adjacent(mid, k))
  }

  lemma SpliceTiles(h: Heap, i: nat, j: nat, mid: seq<Block>, free: seq<nat>)
    requires Tiles(h) && SameSpan(h, i, j, mid)
    ensures Tiles(Splice(h, i, j, mid, free))
    ensures End(Splice(h, i, j, mid, free)) == End(h)
  {
    var r := Splice(h, i, j, mid, free).blocks;
    var shift := i + |mid| - j;
    forall k | 0 <= k < |r| ensures BlockOk(r[k]) {
      assert r[k] == if k < i then h.blocks[k] else if k < i + |mid| then mid[k - i] else h.blocks[k - shift];
    }
    forall k | 0 <= k < |r| - 1 ensures Adjacent(r, k) {
      if k < i {
        assert Adjacent(h.blocks, k);
      } else if k < i + |mid| - 1 {
        assert Adjacent(mid, k - i);
      } else {
        assert Adjacent(h.blocks, k - shift);
      }
    }
  }

  /** The free list after a splice: entries for the old stretch go, entries for the new one come. */
  lemma SpliceInv(h: Heap, i: nat, j: nat, mid: seq<Block>, free: seq<nat>)
    requires Inv(h) && SameSpan(h, i, j, mid)
    requires Distinct(free)
    requires forall a :: a in free <==> (a in h.free && !FreeIn(h.blocks[i..j], a)) || FreeIn(mid, a)
    ensures Inv(Splice(h, i, j, mid, free))
    ensures End(Splice(h, i, j, mid, free)) == End(h)
  {
    SpliceTiles(h, i, j, mid, free);
    var r := Splice(h, i, j, mid, free).blocks;
    forall a ensures a in free <==> FreeIn(r, a) {
      FreeInParts(h.blocks[..i], mid, h.blocks[j..], a);
      FreeInParts(h.blocks[..i], h.blocks[i..j], h.blocks[j..], a);
      assert h.blocks == h.blocks[..i] + h.blocks[i..j] + h.blocks[j..];
      OnlyOnePart(h, i, j, a);
    }
  }

  lemma FreeInParts(x: seq<Block>, y: seq<Block>, z: seq<Block>, a: nat)
    ensures FreeIn(x + y + z, a) <==> FreeIn(x, a) || FreeIn(y, a) || FreeIn(z, a)
  {
    if FreeIn(x + y + z, a) {
      var b :| b in x + y + z && b.free && b.addr == a;
      assert b in x || b in y || b in z;
    }
    if FreeIn(x, a) { var b :| b in x && b.free && b.addr == a; assert b in x + y + z; }
    if FreeIn(y, a) { var b :| b in y && b.free && b.addr == a; assert b in x + y + z; }
    if FreeIn(z, a) { var b :| b in z && b.free && b.addr == a; assert b in x + y + z; }
  }

  lemma OnlyOnePart(h: Heap, i: nat, j: nat, a: nat)
    requires Tiles(h) && i <= j <= |h.blocks|
    ensures FreeIn(h.blocks[i..j], a) ==> !FreeIn(h.blocks[..i], a) && !FreeIn(h.blocks[j..], a)
  {
    if FreeIn(h.blocks[i..j], a) {
      var b :| b in h.blocks[i..j] && b.free && b.addr == a;
      var m := i + IndexOf(h.blocks[i..j], b);
      assert h.blocks[m] == b;
      hide Tiles, IndexOf;
      forall k | 0 <= k < |h.blocks| && h.blocks[k].addr == a ensures k == m {
        SameAddress(h, k, m);
      }
      forall c | c in h.blocks[..i] ensures c.addr != a {
        assert h.blocks[IndexOf(h.blocks[..i], c)] == c;
      }
      forall c | c in h.blocks[j..] ensures c.addr != a {
        assert h.blocks[j + IndexOf(h.blocks[j..], c)] == c;
      }
    }
  }

  function LiveIn(blocks: seq<Block>): set<Block> {
    set b | b in blocks && !b.free
  }

  lemma SpliceLive(h: Heap, i: nat, j: nat, mid: seq<Block>, free: seq<nat>)
    requires Tiles(h) && i <= j <= |h.blocks|
    ensures Live(Splice(h, i, j, mid, free)) == Live(h) - LiveIn(h.blocks[i..j]) + LiveIn(mid)
  {
    var pre, cut, post := h.blocks[..i], h.blocks[i..j], h.blocks[j..];
    assert h.blocks == pre + cut + post;
    forall b | b in cut ensures b !in pre && b !in post {
      var m := i + IndexOf(cut, b);
      forall k | 0 <= k < |h.blocks| && h.blocks[k] == b ensures k == m {
        SameAddress(h, k, m);
      }
    }
    assert forall b :: b in h.blocks <==> b in pre || b in cut || b in post;
    assert forall b :: b in pre + mid + post <==> b in pre || b in mid || b in post;
  }

  // ----- malloc_nolock

  /** The whole free block goes to the caller. */
  ghost function TakeWhole(h: Heap, k: nat): Heap
    requires Inv(h) && k < |h.free|
  {
    ListedIsBlock(h, k);
    var i := IndexAt(h, h.free[k]);
    Splice(h, i, i + 1, [h.blocks[i].(free := false)], RemoveAt(h.free, k))
  }

  /** The front of the free block goes to the caller, the rest becomes the new list head. */
  ghost function SplitBlock(h: Heap, k: nat, n: nat): Heap
    requires Inv(h) && k < |h.free| && ListedSize(h, k) >= n + HDR_SIZE + 16
  {
    ListedIsBlock(h, k);
    var i := IndexAt(h, h.free[k]);
    var b := h.blocks[i];
    var rest := b.addr + HDR_SIZE + n;
    Splice(h, i, i + 1, [Block(b.addr, n, false), Block(rest, b.size - n - HDR_SIZE, true)],
           [rest] + RemoveAt(h.free, k))
  }

  function Grow(h: Heap, n: nat): Heap {
    h.(blocks := h.blocks + [Block(End(h), n, false)])
  }

  /** leaq HDR_SIZE(block) */
  function Payload(block: nat): nat { (block + HDR_SIZE) % WORD_LIMIT }

  /** The break that malloc_nolock asks the kernel for, as a 64-bit word. */
  function NewBreak(end: nat, n: nat): nat { (end + HDR_SIZE + n) % WORD_LIMIT }

  function Asked(h: Heap, n: nat): nat { NewBreak(End(h), n) }

  /** What brk returns: the break asked for, or, when it refuses, the break as it is. */
  function BrkReply(h: Heap, size: nat, grants: bool): nat {
    if grants then Asked(h, Rounded(size)) else End(h)
  }

  /** The heap after malloc_nolock; `answer` is what the kernel returns should the break have to move. */
  ghost function Malloc(h: Heap, size: nat, answer: nat): Heap
    requires Inv(h)
  {
    var n := Rounded(size);
    var k := FitFrom(h, n, 0);
    if size == 0 then h
    else if k < |h.free| then
      if ListedSize(h, k) - n < HDR_SIZE + 16 then TakeWhole(h, k) else SplitBlock(h, k, n)
    else if answer >= Asked(h, n) then Grow(h, n)
    else h
  }

  /** The pointer malloc_nolock returns. */
  ghost function MallocResult(h: Heap, size: nat, answer: nat): nat
    requires Inv(h)
  {
    var k := FitFrom(h, Rounded(size), 0);
    if size == 0 then 0
    else if k < |h.free| then h.free[k] + HDR_SIZE
    else if answer >= Asked(h, Rounded(size)) then Payload(End(h))
    else 0
  }

  /** The heap_end it leaves. */
  ghost function MallocBreak(h: Heap, size: nat, answer: nat): nat
    requires Inv(h)
  {
    var n := Rounded(size);
    if size > 0 && FitFrom(h, n, 0) == |h.free| && answer >= Asked(h, n) then answer else End(h)
  }

  /** A request that rounds upwards and, if the break has to move, gets it where it was asked for, below 2^64; or nothing. */
  ghost predicate Sane(h: Heap, size: nat, answer: nat)
    requires Inv(h)
  {
    var n := Rounded(size);
    if FitFrom(h, n, 0) < |h.free| then size <= MAX_REQUEST
    else answer < Asked(h, n) || (size <= MAX_REQUEST && answer == End(h) + HDR_SIZE + n < WORD_LIMIT)
  }

  lemma SaneFits(h: Heap, size: nat, answer: nat)
    requires Inv(h) && 0 < size < WORD_LIMIT && Sane(h, size, answer)
    ensures var n := Rounded(size);
            if FitFrom(h, n, 0) < |h.free| then n >= size && n % 16 == 0
            else answer >= Asked(h, n) ==>
                   && n >= size && n % 16 == 0 && answer == End(h) + HDR_SIZE + n < WORD_LIMIT
                   && Payload(End(h)) == End(h) + HDR_SIZE
  {
    RoundedIs(size);
  }

  lemma RemovedFromList(h: Heap, k: nat)
    requires Inv(h) && k < |h.free|
    ensures Distinct(RemoveAt(h.free, k))
    ensures forall a :: a in RemoveAt(h.free, k) <==> a in h.free && a != h.free[k]
  {
    assert IndexOf(h.free, h.free[k]) == k;
    WithoutDistinct(h.free, h.free[k]);
  }

  lemma TakeWholeInv(h: Heap, k: nat)
    requires Inv(h) && k < |h.free|
    ensures Inv(TakeWhole(h, k)) && End(TakeWhole(h, k)) == End(h)
    ensures var b := h.blocks[IndexAt(h, h.free[k])];
            Live(TakeWhole(h, k)) == Live(h) + {b.(free := false)}
  {
    ListedIsBlock(h, k);
    RemovedFromList(h, k);
    var i := IndexAt(h, h.free[k]);
    var b := h.blocks[i];
    assert BlockOk(b);
    assert h.blocks[i..i + 1] == [b];
    OneFree(b);
    SpliceInv(h, i, i + 1, [b.(free := false)], RemoveAt(h.free, k));
    SpliceLive(h, i, i + 1, [b.(free := false)], RemoveAt(h.free, k));
  }

  lemma OneFree(b: Block)
    ensures forall a :: FreeIn([b], a) <==> b.free && a == b.addr
    ensures LiveIn([b]) == if b.free then {} else {b}
  {
    assert b in [b];
  }

  lemma UsedThenFree(used: Block, rest: Block)
    requires !used.free && rest.free
    ensures forall a :: FreeIn([used, rest], a) <==> a == rest.addr
    ensures LiveIn([used, rest]) == {used}
  {
    assert rest in [used, rest] && used in [used, rest];
  }

  lemma ConsDistinct(x: nat, s: seq<nat>)
    requires Distinct(s) && x !in s
    ensures Distinct([x] + s)
    ensures forall y :: y in [x] + s <==> y == x || y in s
  {
  }

  lemma SplitSpan(h: Heap, i: nat, n: nat)
    requires Tiles(h) && i < |h.blocks| && n > 0 && n % 16 == 0 && h.blocks[i].size >= n + HDR_SIZE + 16
    ensures var b := h.blocks[i];
            SameSpan(h, i, i + 1, [Block(b.addr, n, false), Block(b.addr + HDR_SIZE + n, b.size - n - HDR_SIZE, true)])
  {
    assert BlockOk(h.blocks[i]);
  }

  lemma SplitInv(h: Heap, k: nat, n: nat)
    requires Inv(h) && k < |h.free| && n > 0 && n % 16 == 0 && ListedSize(h, k) >= n + HDR_SIZE + 16
    ensures Inv(SplitBlock(h, k, n)) && End(SplitBlock(h, k, n)) == End(h)
    ensures Live(SplitBlock(h, k, n)) == Live(h) + {Block(h.free[k], n, false)}
  {
    hide Distinct, FreeIn;
    ListedIsBlock(h, k);
    RemovedFromList(h, k);
    SplitAt(h, IndexAt(h, h.free[k]), n, RemoveAt(h.free, k));
  }

  lemma SplitAt(h: Heap, i: nat, n: nat, others: seq<nat>)
    requires Inv(h) && i < |h.blocks| && h.blocks[i].free
    requires n > 0 && n % 16 == 0 && h.blocks[i].size >= n + HDR_SIZE + 16
    requires Distinct(others) && (forall a :: a in others <==> a in h.free && a != h.blocks[i].addr)
    ensures var b := h.blocks[i];
            var used, rest := Block(b.addr, n, false), Block(b.addr + HDR_SIZE + n, b.size - n - HDR_SIZE, true);
            var r := Splice(h, i, i + 1, [used, rest], [rest.addr] + others);
            Inv(r) && End(r) == End(h) && Live(r) == Live(h) + {used}
  {
    var b := h.blocks[i];
    assert h.blocks[i..i + 1] == [b];
    OneFree(b);
    SplitSpan(h, i, n);
    var used, rest := Block(b.addr, n, false), Block(b.addr + HDR_SIZE + n, b.size - n - HDR_SIZE, true);
    NotABlock(h, i, rest.addr);
    UsedThenFree(used, rest);
    hide FreeIn, LiveIn, Distinct;
    ConsDistinct(rest.addr, others);
    SpliceInv(h, i, i + 1, [used, rest], [rest.addr] + others);
    SpliceLive(h, i, i + 1, [used, rest], [rest.addr] + others);
  }

  /** An address strictly inside a block is no block's address, so it is not on the free list. */
  lemma NotABlock(h: Heap, i: nat, a: nat)
    requires Inv(h) && i < |h.blocks| && h.blocks[i].addr < a < EndOf(h.blocks[i])
    ensures a !in h.free
  {
    if a in h.free {
      var b :| b in h.blocks && b.free && b.addr == a;
      var j := IndexOf(h.blocks, b);
      if j < i { Apart(h, j, i); } else if i < j { Apart(h, i, j); }
      assert false;
    }
  }

  lemma GrowInv(h: Heap, n: nat)
    requires Inv(h) && n > 0 && n % 16 == 0
    ensures Inv(Grow(h, n)) && End(Grow(h, n)) == End(h) + HDR_SIZE + n
    ensures Live(Grow(h, n)) == Live(h) + {Block(End(h), n, false)}
  {
    var r := Grow(h, n);
    var last := Block(End(h), n, false);
    if h.blocks != [] {
      var b := h.blocks[|h.blocks| - 1];
      assert BlockOk(b);
      SumOfMultiples(b.addr, b.size);
    }
    assert BlockOk(last);
    forall i | 0 <= i < |r.blocks| - 1 ensures Adjacent(r.blocks, i) {
      assert i < |h.blocks| - 1 ==> Adjacent(h.blocks, i);
    }
    forall a ensures FreeIn(r.blocks, a) <==> FreeIn(h.blocks, a) { UsedAtEnd(h.blocks, last, a); }
    hide FreeIn, BlockOk;
    assert forall b :: b in r.blocks <==> b in h.blocks || b == last;
  }

  lemma UsedAtEnd(blocks: seq<Block>, last: Block, a: nat)
    requires !last.free
    ensures FreeIn(blocks + [last], a) <==> FreeIn(blocks, a)
  {
    OneFree(last);
    FreeInParts(blocks, [last], [], a);
    assert blocks + [last] == blocks + [last] + [];
  }

  /**
   * malloc: a request of zero bytes, or one that nothing fits while the kernel answers with less than was asked for,
   * changes nothing and returns null.  Otherwise one new block, at least as large as asked
   * for, becomes live and every other live block stays as it was.  The heap grows only when
   * no free block is large enough, and then by exactly one block, up to heap_end.
   */
  lemma MallocCorrect(h: Heap, size: nat, answer: nat)
    requires Inv(h) && size < WORD_LIMIT && Sane(h, size, answer)
    ensures var r, p, n := Malloc(h, size, answer), MallocResult(h, size, answer), Rounded(size);
            && Inv(r) && r.start == h.start
            && (p == 0 <==> size == 0 || (NothingFits(h, n) && answer < Asked(h, n)))
            && (p == 0 ==> r == h)
            && (p != 0 ==> exists b ::
                  && Live(r) == Live(h) + {b} && b !in Live(h)
                  && b.addr + HDR_SIZE == p && b.size >= n >= size)
            && End(r) == (if p != 0 && NothingFits(h, n) then End(h) + HDR_SIZE + n else End(h))
            && End(r) == MallocBreak(h, size, answer)
  {
    var n := Rounded(size);
    if size > 0 { SaneFits(h, size, answer); }
    hide Rounded, Sane, NewBreak, Payload;
    var k := FitFrom(h, n, 0);
    FitDecides(h, n);
    if size == 0 {
    } else if k < |h.free| {
      ListedIsBlock(h, k);
      var b := h.blocks[IndexAt(h, h.free[k])];
      FreeIsNotLive(h, b);
      if ListedSize(h, k) - n < HDR_SIZE + 16 {
        TakeWholeInv(h, k);
        var c := b.(free := false);
        assert Live(Malloc(h, size, answer)) == Live(h) + {c} && c !in Live(h);
      } else {
        SplitInv(h, k, n);
        var c := Block(h.free[k], n, false);
        assert Live(Malloc(h, size, answer)) == Live(h) + {c} && c !in Live(h);
      }
    } else if answer >= Asked(h, n) {
      GrowInv(h, n);
      var c := Block(End(h), n, false);
      BeyondTheEnd(h, c);
      assert Live(Malloc(h, size, answer)) == Live(h) + {c} && c !in Live(h);
    }
  }

  /** `b` is the first block in the order of the free list that has room for `n` bytes, `k` its place there. */
  ghost predicate FirstFit(h: Heap, n: nat, k: nat, b: Block) {
    && k < |h.free| && b in h.blocks && b.addr == h.free[k] && b.size >= n
    && (forall j, c :: 0 <= j < k && c in h.blocks && c.addr == h.free[j] ==> c.size < n)
  }

  lemma FirstFitIs(h: Heap, n: nat, k: nat, b: Block)
    requires Inv(h) && FirstFit(h, n, k, b)
    ensures FitFrom(h, n, 0) == k && h.blocks[IndexAt(h, h.free[k])] == b && b.free
  {
    ListedIsBlock(h, k);
    SameAddress(h, IndexAt(h, h.free[k]), IndexOf(h.blocks, b));
    assert ListedSize(h, k) >= n;
    forall j | 0 <= j < k ensures ListedSize(h, j) < n {
      ListedIsBlock(h, j);
      assert h.blocks[IndexAt(h, h.free[j])] in h.blocks;
    }
  }

  /**
   * Where malloc takes its block from: the first fit.  It is cut in two when a header and 16 bytes would be left over;
   * the rest then heads the free list.  Otherwise all of it is handed out.  No other block changes.
   */
  lemma MallocTakesFirstFit(h: Heap, size: nat, answer: nat, k: nat, b: Block)
    requires Inv(h) && 0 < size <= MAX_REQUEST && FirstFit(h, Align16(size), k, b)
    ensures var n, others := Align16(size), h.free[..k] + h.free[k + 1..];
            var i, r := IndexAt(h, h.free[k]), Malloc(h, size, answer);
            && MallocResult(h, size, answer) == b.addr + HDR_SIZE
            && h.blocks[i] == b && r.blocks[..i] == h.blocks[..i]
            && if b.size < n + HDR_SIZE + 16 then
                 r.blocks[i..] == [Block(b.addr, b.size, false)] + h.blocks[i + 1..] && r.free == others
               else
                 var rest := Block(b.addr + HDR_SIZE + n, b.size - HDR_SIZE - n, true);
                 r.blocks[i..] == [Block(b.addr, n, false), rest] + h.blocks[i + 1..] && r.free == [rest.addr] + others
  {
    assert k < |h.free| && b.addr == h.free[k] && b.size >= Align16(size);
    hide FitFrom, Inv, Rounded, Align16, FirstFit;
    RoundedIs(size);
    FirstFitIs(h, Align16(size), k, b);
    ListedIsBlock(h, k);
  }

  /** Freeing a block that was cut off joins it with its rest again: the blocks are those before malloc. */
  lemma FreeUndoesSplit(h: Heap, size: nat, answer: nat, k: nat, b: Block)
    requires Inv(h) && 0 < size <= MAX_REQUEST && FirstFit(h, Align16(size), k, b)
    requires b.size >= Align16(size) + HDR_SIZE + 16
    ensures var r, i := Malloc(h, size, answer), IndexAt(h, h.free[k]);
            && Inv(r) && i < |r.blocks| && !r.blocks[i].free && r.blocks[i].addr == b.addr
            && Free(r, i).blocks == h.blocks && Free(r, i).free == [b.addr] + h.free[..k] + h.free[k + 1..]
  {
    var r, i := Malloc(h, size, answer), IndexAt(h, h.free[k]);
    SplitIsSane(h, size, answer, k, b);
    MallocTakesFirstFit(h, size, answer, k, b);
    hide Inv, Malloc, MallocResult, FirstFit;
    JoinsAgain(h, r, i, Align16(size), h.free[..k] + h.free[k + 1..]);
    Seqs.ConcatAssoc([b.addr], h.free[..k], h.free[k + 1..]);
  }

  lemma SplitIsSane(h: Heap, size: nat, answer: nat, k: nat, b: Block)
    requires Inv(h) && 0 < size <= MAX_REQUEST && FirstFit(h, Align16(size), k, b)
    ensures Inv(Malloc(h, size, answer)) && b.free
  {
    RoundedIs(size);
    hide Rounded;
    FirstFitIs(h, Align16(size), k, b);
    MallocCorrect(h, size, answer);
  }

  lemma JoinsAgain(h: Heap, r: Heap, i: nat, n: nat, others: seq<nat>)
    requires Inv(r) && i < |h.blocks| && i < |r.blocks| && r.blocks[..i] == h.blocks[..i] && r.start == h.start
    requires h.blocks[i].free && h.blocks[i].size >= HDR_SIZE + n
    requires var b := h.blocks[i];
             var rest := Block(b.addr + HDR_SIZE + n, b.size - HDR_SIZE - n, true);
             r.blocks[i..] == [Block(b.addr, n, false), rest] + h.blocks[i + 1..] && r.free == [rest.addr] + others
    ensures !r.blocks[i].free && r.blocks[i].addr == h.blocks[i].addr
    ensures Free(r, i).blocks == h.blocks && Free(r, i).free == [h.blocks[i].addr] + others
  {
    var b := h.blocks[i];
    assert r.blocks[i] == r.blocks[i..][0] == Block(b.addr, n, false);
    assert r.blocks[i + 1] == r.blocks[i..][1] && r.blocks[i + 1].free && r.blocks[i + 1].addr == r.free[0];
    assert r.blocks[i + 2..] == r.blocks[i..][2..] == h.blocks[i + 1..];
    FreePlaces(r, i);
    var f := Free(r, i);
    assert f.blocks == f.blocks[..i] + f.blocks[i..] && h.blocks == h.blocks[..i] + h.blocks[i..];
    assert h.blocks[i..] == [b] + h.blocks[i + 1..];
    assert Distinct(r.free);
    hide Free, Inv, Tiles, FreeListOk;
    var m :| 0 <= m < |r.free| && r.free[m] == r.blocks[i + 1].addr && f.free[1..] == r.free[..m] + r.free[m + 1..];
    assert m == 0;
    assert f.free == [f.free[0]] + f.free[1..];
  }

  /** What a caller expects: blocks that tile the heap up to heap_end, and null or a live block as large as asked for. */
  ghost predicate Good(r: Heap, p: nat, end: nat, size: nat) {
    && Inv(r) && End(r) == end
    && (p == 0 || exists b :: b in Live(r) && b.addr + HDR_SIZE == p && b.size >= size)
  }

  /** The heap, the pointer and the break that malloc_nolock leaves are what a caller expects. */
  ghost predicate MallocIsGood(h: Heap, size: nat, answer: nat)
    requires Inv(h)
  {
    Good(Malloc(h, size, answer), MallocResult(h, size, answer), MallocBreak(h, size, answer), size)
  }

  lemma SaneIsGood(h: Heap, size: nat, answer: nat)
    requires Inv(h) && size < WORD_LIMIT && Sane(h, size, answer)
    ensures MallocIsGood(h, size, answer)
  {
    MallocCorrect(h, size, answer);
    hide Inv, Malloc, MallocResult, MallocBreak, Rounded;
  }

  lemma LiveIsSmall(h: Heap, b: Block)
    requires Inv(h) && End(h) < WORD_LIMIT && b in h.blocks
    ensures b.size < MAX_REQUEST
  {
    var i := IndexOf(h.blocks, b);
    assert BlockOk(h.blocks[i]);
    if i < |h.blocks| - 1 {
      Apart(h, i, |h.blocks| - 1);
      assert BlockOk(h.blocks[|h.blocks| - 1]);
    }
  }

  /** A request above the bound that gets something gets less than it asked for, or breaks the heap. */
  lemma TooLargeIsBad(h: Heap, size: nat, answer: nat)
    requires Inv(h) && End(h) < WORD_LIMIT && answer < WORD_LIMIT && MAX_REQUEST < size < WORD_LIMIT
    requires !Sane(h, size, answer)
    ensures !MallocIsGood(h, size, answer)
  {
    RoundedIs(size);
    var r, p := Malloc(h, size, answer), MallocResult(h, size, answer);
    hide Rounded;
    if FitFrom(h, 0, 0) < |h.free| {
      ListedIsBlock(h, FitFrom(h, 0, 0));
      assert p != 0;
    } else {
      assert !BlockOk(r.blocks[|h.blocks|]);
    }
    if Inv(r) && End(r) < WORD_LIMIT {
      forall b | b in Live(r) ensures b.size < size { LiveIsSmall(r, b); }
    }
  }

  /** When the break has to move, anything but the break asked for, below 2^64, leaves blocks and heap_end apart. */
  lemma WrongBreakIsBad(h: Heap, size: nat, answer: nat)
    requires Inv(h) && answer < WORD_LIMIT && 0 < size <= MAX_REQUEST && !Sane(h, size, answer)
    ensures !MallocIsGood(h, size, answer)
  {
    RoundedIs(size);
    hide Rounded;
    GrowInv(h, Align16(size));
  }

  /** The exact condition, for every answer of the kernel: malloc does what its caller expects iff the guard holds. */
  lemma MallocGoodIff(h: Heap, size: nat, answer: nat)
    requires Inv(h) && End(h) < WORD_LIMIT && size < WORD_LIMIT && answer < WORD_LIMIT
    ensures MallocIsGood(h, size, answer) <==> size == 0 || Sane(h, size, answer)
  {
    hide Inv, MallocIsGood, Malloc, MallocResult, MallocBreak;
    if size == 0 {
      ZeroIsGood(h, answer);
    } else if Sane(h, size, answer) {
      SaneIsGood(h, size, answer);
    } else if size > MAX_REQUEST {
      TooLargeIsBad(h, size, answer);
    } else {
      WrongBreakIsBad(h, size, answer);
    }
  }

  lemma ZeroIsGood(h: Heap, answer: nat)
    requires Inv(h)
    ensures MallocIsGood(h, 0, answer)
  {
  }

  /** A break that wraps is never above the old one, so the comparison passes even when the kernel has refused. */
  lemma WrappedIsNotAbove(h: Heap, n: nat)
    requires End(h) < WORD_LIMIT && n <= MAX_REQUEST && End(h) + HDR_SIZE + n >= WORD_LIMIT
    ensures Asked(h, n) <= End(h)
  {
    assert End(h) + HDR_SIZE + n - WORD_LIMIT < WORD_LIMIT;
  }

  /**
   * With brk as the kernel defines it the guard is one that the caller can test, whether or not the kernel grants: up
   * to the largest request a free block must fit or the new break lie below 2^64.
   */
  lemma BrkGoodIff(h: Heap, size: nat, grants: bool)
    requires Inv(h) && End(h) < WORD_LIMIT && 0 < size < WORD_LIMIT
    ensures MallocIsGood(h, size, BrkReply(h, size, grants)) <==>
            if size <= MAX_REQUEST then !NothingFits(h, Align16(size)) || End(h) + HDR_SIZE + Align16(size) < WORD_LIMIT
            else h.free == [] && !grants && End(h) + HDR_SIZE < WORD_LIMIT
  {
    var n := Rounded(size);
    hide Inv, MallocIsGood, NothingFits;
    MallocGoodIff(h, size, BrkReply(h, size, grants));
    RoundedIs(size);
    FitDecides(h, n);
    hide Rounded;
    if End(h) + HDR_SIZE + n >= WORD_LIMIT { WrappedIsNotAbove(h, n); }
  }

  /** A failing input: the kernel refuses, and still a block is handed out that lies beyond the break. */
  lemma RefusedAndHandedOut()
    ensures var h, size := Empty(0x1000), WORD_LIMIT - 0x800;
            var answer := BrkReply(h, size, false);
            && MallocResult(h, size, answer) == 0x1010 && MallocBreak(h, size, answer) == End(h) == 0x1000
            && !MallocIsGood(h, size, answer)
  {
    var h, size := Empty(0x1000), WORD_LIMIT - 0x800;
    RoundedIs(size);
    assert Align16(size) == size;
    hide Rounded;
    BrkGoodIff(h, size, false);
    hide MallocIsGood;
  }

  /** No free block has room for `n` bytes. */
  ghost predicate NothingFits(h: Heap, n: nat) {
    forall b :: b in h.blocks && b.free ==> b.size < n
  }

  lemma FitDecides(h: Heap, n: nat)
    requires Inv(h)
    ensures NothingFits(h, n) <==> FitFrom(h, n, 0) == |h.free|
  {
    var k := FitFrom(h, n, 0);
    if k < |h.free| {
      ListedIsBlock(h, k);
      assert h.blocks[IndexAt(h, h.free[k])].size >= n;
    } else {
      forall b | b in h.blocks && b.free ensures b.size < n {
        assert FreeIn(h.blocks, b.addr);
        var j := IndexOf(h.free, b.addr);
        ListedIsBlock(h, j);
        SameAddress(h, IndexAt(h, b.addr), IndexOf(h.blocks, b));
        assert ListedSize(h, j) < n;
      }
    }
  }

  /** Neither a free block nor one with its address is live. */
  lemma FreeIsNotLive(h: Heap, b: Block)
    requires Inv(h) && b in h.blocks && b.free
    ensures forall c :: c in Live(h) ==> c.addr != b.addr
    ensures b.addr > 0
  {
    assert BlockOk(h.blocks[IndexOf(h.blocks, b)]);
    forall c | c in Live(h) && c.addr == b.addr ensures false {
      SameAddress(h, IndexOf(h.blocks, b), IndexOf(h.blocks, c));
    }
  }

  lemma BeyondTheEnd(h: Heap, b: Block)
    requires Inv(h) && b.addr == End(h)
    ensures b !in h.blocks
  {
    forall i | 0 <= i < |h.blocks| ensures h.blocks[i].addr < End(h) {
      if i < |h.blocks| - 1 { Apart(h, i, |h.blocks| - 1); }
    }
  }

  /** A block ends where the next one starts, and only the last one ends at the heap's end. */
  lemma NextBlock(h: Heap, i: nat)
    requires Tiles(h) && i < |h.blocks|
    ensures EndOf(h.blocks[i]) < End(h) <==> i + 1 < |h.blocks|
    ensures i + 1 < |h.blocks| ==> h.blocks[i + 1].addr == EndOf(h.blocks[i])
  {
    if i + 1 < |h.blocks| {
      assert Adjacent(h.blocks, i);
      if i + 1 < |h.blocks| - 1 { Apart(h, i + 1, |h.blocks| - 1); }
    }
  }

  // ----- free

  /** Marks the block free, puts it at the head of the list, and joins it with a free block after it. */
  ghost function Free(h: Heap, i: nat): Heap
    requires Inv(h) && i < |h.blocks| && !h.blocks[i].free
  {
    var b := h.blocks[i];
    if i + 1 < |h.blocks| && h.blocks[i + 1].free then
      var c := h.blocks[i + 1];
      FreeIsListed(h, i + 1);
      Splice(h, i, i + 2, [Block(b.addr, b.size + HDR_SIZE + c.size, true)], [b.addr] + Without(h.free, c.addr))
    else
      Splice(h, i, i + 1, [b.(free := true)], [b.addr] + h.free)
  }

  lemma FreeIsListed(h: Heap, i: nat)
    requires Inv(h) && i < |h.blocks|
    ensures h.blocks[i].free <==> h.blocks[i].addr in h.free
  {
    var b := h.blocks[i];
    assert b.free ==> FreeIn(h.blocks, b.addr);
    if b.addr in h.free {
      var c :| c in h.blocks && c.free && c.addr == b.addr;
      SameAddress(h, IndexOf(h.blocks, c), i);
    }
  }

  /** free: exactly the freed block stops being live, and the heap keeps its extent. */
  lemma FreeCorrect(h: Heap, i: nat)
    requires Inv(h) && i < |h.blocks| && !h.blocks[i].free
    ensures var r := Free(h, i);
            && Inv(r) && r.start == h.start && End(r) == End(h)
            && Live(r) == Live(h) - {h.blocks[i]}
            && (i + 1 < |h.blocks| && h.blocks[i + 1].free ==> |r.blocks| == |h.blocks| - 1)
  {
    FreeIsListed(h, i);
    if i + 1 < |h.blocks| && h.blocks[i + 1].free {
      FreeMerges(h, i);
    } else {
      FreeAlone(h, i);
    }
  }

  /**
   * What free leaves: the block, now free, takes in the block after it when that one is free too, and heads the list.
   * A block before it is never joined, and no other block or list entry changes.
   */
  lemma FreePlaces(h: Heap, i: nat)
    requires Inv(h) && i < |h.blocks| && !h.blocks[i].free
    ensures var b, r := h.blocks[i], Free(h, i);
            && r.blocks[..i] == h.blocks[..i] && r.free[0] == b.addr
            && if i + 1 < |h.blocks| && h.blocks[i + 1].free then
                 var c := h.blocks[i + 1];
                 && r.blocks[i..] == [Block(b.addr, b.size + HDR_SIZE + c.size, true)] + h.blocks[i + 2..]
                 && exists k :: 0 <= k < |h.free| && h.free[k] == c.addr && r.free[1..] == h.free[..k] + h.free[k + 1..]
               else r.blocks[i..] == [Block(b.addr, b.size, true)] + h.blocks[i + 1..] && r.free[1..] == h.free
  {
    if i + 1 < |h.blocks| && h.blocks[i + 1].free {
      FreeIsListed(h, i + 1);
      var k := IndexOf(h.free, h.blocks[i + 1].addr);
      assert Free(h, i).free[1..] == Without(h.free, h.blocks[i + 1].addr) == h.free[..k] + h.free[k + 1..];
    }
  }

  /** The block freed last is the first to be reused. */
  lemma FreedIsReused(h: Heap, i: nat, size: nat, answer: nat)
    requires Inv(h) && i < |h.blocks| && !h.blocks[i].free && 0 < size <= h.blocks[i].size && size <= MAX_REQUEST
    ensures Inv(Free(h, i)) && MallocResult(Free(h, i), size, answer) == h.blocks[i].addr + HDR_SIZE
  {
    var r, b := Free(h, i), h.blocks[i];
    FreeCorrect(h, i);
    FreePlaces(h, i);
    assert BlockOk(b);
    AlignedFits(size, b.size);
    hide Inv, Free, MallocResult, Malloc, Align16, BlockOk;
    var c := r.blocks[i..][0];
    assert c == r.blocks[i] && FirstFit(r, Align16(size), 0, c);
    MallocTakesFirstFit(r, size, answer, 0, c);
  }

  lemma AlignedFits(n: nat, size: nat)
    requires n <= size && size % 16 == 0
    ensures Align16(n) <= size
  {
  }

  lemma FreeAlone(h: Heap, i: nat)
    requires Inv(h) && i < |h.blocks| && !h.blocks[i].free && h.blocks[i].addr !in h.free
    ensures var r := Splice(h, i, i + 1, [h.blocks[i].(free := true)], [h.blocks[i].addr] + h.free);
            Inv(r) && End(r) == End(h) && Live(r) == Live(h) - {h.blocks[i]}
  {
    var b := h.blocks[i];
    var mid, free := [b.(free := true)], [b.addr] + h.free;
    assert BlockOk(b);
    assert h.blocks[i..i + 1] == [b];
    OneFree(b);
    OneFree(b.(free := true));
    ConsDistinct(b.addr, h.free);
    hide FreeIn, LiveIn, Distinct;
    SpliceInv(h, i, i + 1, mid, free);
    SpliceLive(h, i, i + 1, mid, free);
  }

  lemma FreeMerges(h: Heap, i: nat)
    requires Inv(h) && i + 1 < |h.blocks| && !h.blocks[i].free && h.blocks[i + 1].free
    requires h.blocks[i].addr !in h.free && h.blocks[i + 1].addr in h.free
    ensures var b, c := h.blocks[i], h.blocks[i + 1];
            var r := Splice(h, i, i + 2, [Block(b.addr, b.size + HDR_SIZE + c.size, true)],
                            [b.addr] + Without(h.free, c.addr));
            Inv(r) && End(r) == End(h) && Live(r) == Live(h) - {b}
  {
    var b, c := h.blocks[i], h.blocks[i + 1];
    var m := Block(b.addr, b.size + HDR_SIZE + c.size, true);
    assert BlockOk(b) && BlockOk(c) && Adjacent(h.blocks, i);
    assert h.blocks[i..i + 2] == [b, c];
    UsedThenFree(b, c);
    OneFree(m);
    WithoutDistinct(h.free, c.addr);
    ConsDistinct(b.addr, Without(h.free, c.addr));
    hide FreeIn, LiveIn, Distinct;
    SpliceInv(h, i, i + 2, [m], [b.addr] + Without(h.free, c.addr));
    SpliceLive(h, i, i + 2, [m], [b.addr] + Without(h.free, c.addr));
  }

  // ----- whole runs

  datatype Call = CallMalloc(size: nat, answer: nat) | CallFree(ptr: nat)

  /** Callers keep to the guard, and free null or a pointer that malloc returned and that has not been freed since. */
  ghost predicate Legal(h: Heap, c: Call)
    requires Inv(h)
  {
    match c
    case CallMalloc(size, answer) => size < WORD_LIMIT && (size == 0 || Sane(h, size, answer))
    case CallFree(ptr) => ptr == 0 || exists i :: IsLiveAt(h, i, ptr)
  }

  predicate IsLiveAt(h: Heap, i: int, ptr: nat) {
    0 <= i < |h.blocks| && !h.blocks[i].free && h.blocks[i].addr + HDR_SIZE == ptr
  }

  ghost function Step(h: Heap, c: Call): (r: Heap)
    requires Inv(h) && Legal(h, c)
    ensures Inv(r) && r.start == h.start
  {
    match c
    case CallMalloc(size, answer) => if size > 0 then MallocCorrect(h, size, answer); Malloc(h, size, answer) else h
    case CallFree(ptr) =>
      if ptr == 0 then h else
        var i :| IsLiveAt(h, i, ptr);
        FreeCorrect(h, i);
        Free(h, i)
  }

  ghost predicate LegalRun(h: Heap, cs: seq<Call>)
    requires Inv(h)
    decreases |cs|
  {
    cs != [] ==> Legal(h, cs[0]) && LegalRun(Step(h, cs[0]), cs[1..])
  }

  ghost function Run(h: Heap, cs: seq<Call>): (r: Heap)
    requires Inv(h) && LegalRun(h, cs)
    ensures Inv(r) && r.start == h.start
    decreases |cs|
  {
    if cs == [] then h else Run(Step(h, cs[0]), cs[1..])
  }

  /** A heap that has not grown yet. */
  ghost function Empty(start: nat): (h: Heap)
    requires start > 0 && start % 16 == 0
    ensures Inv(h) && h.start == start
  {
    Heap(start, [], [])
  }

  /**
   * After every legal run from an empty heap the blocks account for every byte up to the break,
   * and any two live payloads are aligned, inside the heap and disjoint.
   */
  lemma RunsStaySound(start: nat, cs: seq<Call>, b: Block, c: Block)
    requires start > 0 && start % 16 == 0
    requires LegalRun(Empty(start), cs)
    requires b in Live(Run(Empty(start), cs)) && c in Live(Run(Empty(start), cs))
    ensures var h := Run(Empty(start), cs);
            && start + TotalBytes(h.blocks) == End(h)
            && (b.addr + HDR_SIZE) % 16 == 0 && start <= b.addr && EndOf(b) <= End(h)
            && (b == c || EndOf(b) <= c.addr || EndOf(c) <= b.addr)
  {
    hide Inv, Live, LegalRun;
    var h := Run(Empty(start), cs);
    InvTiles(h);
    BytesConserved(h);
    LiveDisjoint(h, b, c);
  }

  lemma InvTiles(h: Heap)
    requires Inv(h)
    ensures Tiles(h)
  {
  }
}

/** Block headers and list links as 64-bit words in memory. */
module HeapWords {
  import opened Seqs
  import opened HeapSpec

  /** The words at 8-byte aligned addresses; memory fresh from the kernel reads as zero. */
  type Memory = map<nat, nat>

  function Load(m: Memory, a: nat): nat {
    if a in m then m[a] else 0
  }

  /** andq $-16 */
  function ClearLow4(w: nat): nat { w - w % 16 }

  /** orq $FLAG_FREE */
  function SetFree(w: nat): nat { if w % 2 == 1 then w else w + 1 }

  /** testq $FLAG_FREE */
  predicate HasFree(w: nat) { w % 2 == 1 }

  function Header(b: Block): nat {
    if b.free then SetFree(b.size) else b.size
  }

  lemma EvenThenOdd(w: nat, half: nat)
    requires w == 2 * half
    ensures w % 2 == 0 && (w + 1) % 2 == 1
  {
  }

  lemma FlagField(b: Block)
    requires BlockOk(b)
    ensures HasFree(Header(b)) <==> b.free
    ensures SetFree(b.size) == b.size + 1
  {
    EvenThenOdd(b.size, 8 * (b.size / 16));
  }

  lemma HeaderFields(b: Block)
    requires BlockOk(b)
    ensures ClearLow4(Header(b)) == b.size
    ensures HasFree(Header(b)) <==> b.free
    ensures Header(b.(free := true)) == SetFree(b.size)
  {
    FlagField(b);
    hide HasFree, SetFree;
  }

  ghost predicate HeaderOk(m: Memory, b: Block) {
    Load(m, b.addr) == Header(b)
  }

  ghost predicate Headers(m: Memory, blocks: seq<Block>) {
    forall b :: b in blocks ==> HeaderOk(m, b)
  }

  /** The link word of a free block is the second word of its header. */
  function Link(a: nat): nat { a + 8 }

  function ListHead(free: seq<nat>): nat {
    if free == [] then 0 else free[0]
  }

  ghost predicate LinkOk(m: Memory, free: seq<nat>, k: nat)
    requires k < |free|
  {
    Load(m, Link(free[k])) == ListHead(free[k + 1..])
  }

  /** The null-terminated list from `head` runs through exactly `free`. */
  ghost predicate Chain(m: Memory, head: nat, free: seq<nat>) {
    && head == ListHead(free)
    && (forall k :: 0 <= k < |free| ==> LinkOk(m, free, k))
  }

  // ----- how stores affect the list

  lemma ChainFrame(m: Memory, m': Memory, head: nat, free: seq<nat>)
    requires Chain(m, head, free)
    requires forall a :: a in free ==> Load(m', Link(a)) == Load(m, Link(a))
    ensures Chain(m', head, free)
  {
    forall k | 0 <= k < |free| ensures LinkOk(m', free, k) {
      assert free[k] in free && LinkOk(m, free, k);
    }
  }

  lemma PushChain(m: Memory, head: nat, free: seq<nat>, a: nat)
    requires Chain(m, head, free) && a !in free
    ensures Chain(m[Link(a) := head], a, [a] + free)
  {
    var m', r := m[Link(a) := head], [a] + free;
    forall k | 0 <= k < |r| ensures LinkOk(m', r, k) {
      if k == 0 {
        assert r[1..] == free;
      } else {
        assert r[k + 1..] == free[k..] && r[k] == free[k - 1] && free[k - 1] in free;
        assert LinkOk(m, free, k - 1);
      }
    }
  }

  /** unlink_free: the predecessor, or the list head, takes over the link of entry `k`. */
  lemma UnlinkChain(m: Memory, head: nat, free: seq<nat>, k: nat)
    requires Chain(m, head, free) && Distinct(free) && k < |free|
    ensures k == 0 ==> Chain(m, Load(m, Link(free[0])), RemoveAt(free, 0))
    ensures k > 0 ==> Chain(m[Link(free[k - 1]) := Load(m, Link(free[k]))], head, RemoveAt(free, k))
  {
    var r := RemoveAt(free, k);
    var m' := if k == 0 then m else m[Link(free[k - 1]) := Load(m, Link(free[k]))];
    assert LinkOk(m, free, k);
    assert k == 0 ==> r == free[1..];
    forall j | 0 <= j < |r| ensures LinkOk(m', r, j) {
      if j < k - 1 {
        assert LinkOk(m, free, j) && free[j] != free[k - 1];
        assert r[j + 1] == free[j + 1];
      } else if j == k - 1 {
        assert r[k..] == free[k + 1..];
      } else {
        assert LinkOk(m, free, j + 1) && r[j + 1..] == free[j + 2..];
        assert k > 0 ==> free[j + 1] != free[k - 1];
      }
    }
  }

  lemma HeadersFrame(m: Memory, m': Memory, blocks: seq<Block>)
    requires Headers(m, blocks)
    requires forall b :: b in blocks ==> Load(m', b.addr) == Load(m, b.addr)
    ensures Headers(m', blocks)
  {
    forall b | b in blocks ensures HeaderOk(m', b) { assert HeaderOk(m, b); }
  }

  /** Memory, list head and break together hold the heap `h`. */
  ghost predicate Represents(m: Memory, head: nat, end: nat, h: Heap) {
    Inv(h) && end == End(h) && Headers(m, h.blocks) && Chain(m, head, h.free)
  }

  /** Header words lie at multiples of 16 and link words half-way between. */
  lemma HeadersAndLinksApart(h: Heap)
    requires Inv(h)
    ensures forall b :: b in h.blocks ==> b.addr % 16 == 0 && b.addr > 0
    ensures forall a :: a in h.free ==> a % 16 == 0 && a > 0
  {
    forall b | b in h.blocks ensures b.addr % 16 == 0 && b.addr > 0 {
      assert BlockOk(h.blocks[IndexOf(h.blocks, b)]);
    }
    forall a | a in h.free ensures a % 16 == 0 && a > 0 {
      assert FreeIn(h.blocks, a);
    }
  }

  lemma ListedHeader(m: Memory, h: Heap, k: nat)
    requires Inv(h) && Headers(m, h.blocks) && k < |h.free|
    ensures ClearLow4(Load(m, h.free[k])) == ListedSize(h, k)
    ensures h.free[k] > 0
  {
    ListedIsBlock(h, k);
    var b := h.blocks[IndexAt(h, h.free[k])];
    assert BlockOk(b) && HeaderOk(m, b);
    HeaderFields(b);
  }

  lemma HeaderAt(m: Memory, h: Heap, i: nat)
    requires Tiles(h) && Headers(m, h.blocks) && i < |h.blocks|
    ensures ClearLow4(Load(m, h.blocks[i].addr)) == h.blocks[i].size
    ensures HasFree(Load(m, h.blocks[i].addr)) <==> h.blocks[i].free
  {
    var b := h.blocks[i];
    assert b in h.blocks && BlockOk(b) && HeaderOk(m, b);
    HeaderFields(b);
  }

  /** What unlink_free leaves in memory and in the list head. */
  function UnlinkedMem(m: Memory, free: seq<nat>, k: nat): Memory
    requires k < |free|
  {
    if k == 0 then m else m[Link(free[k - 1]) := Load(m, Link(free[k]))]
  }

  function UnlinkedHead(m: Memory, free: seq<nat>, k: nat): nat
    requires k < |free|
  {
    if k == 0 then Load(m, Link(free[0])) else free[0]
  }

  lemma Unlinked(m: Memory, head: nat, end: nat, h: Heap, k: nat)
    requires Represents(m, head, end, h) && k < |h.free|
    ensures Chain(UnlinkedMem(m, h.free, k), UnlinkedHead(m, h.free, k), RemoveAt(h.free, k))
    ensures Headers(UnlinkedMem(m, h.free, k), h.blocks)
  {
    UnlinkChain(m, head, h.free, k);
    HeadersAndLinksApart(h);
    forall b | b in h.blocks ensures Load(UnlinkedMem(m, h.free, k), b.addr) == Load(m, b.addr) {
      assert k > 0 ==> h.free[k - 1] in h.free;
    }
    HeadersFrame(m, UnlinkedMem(m, h.free, k), h.blocks);
  }

  /** Headers after a splice: those outside the stretch are kept, those of the new blocks written. */
  lemma SpliceHeaders(m: Memory, m': Memory, h: Heap, i: nat, j: nat, mid: seq<Block>, free: seq<nat>)
    requires Tiles(h) && i < j <= |h.blocks| && Headers(m, h.blocks) && Headers(m', mid)
    requires forall a: nat :: Load(m', a) == Load(m, a) || h.blocks[i].addr <= a < EndOf(h.blocks[j - 1]) || a % 16 == 8
    ensures Headers(m', Splice(h, i, j, mid, free).blocks)
  {
    forall b | b in Splice(h, i, j, mid, free).blocks ensures HeaderOk(m', b) {
      if b in mid {
        assert HeaderOk(m', b);
      } else {
        var k := if b in h.blocks[..i] then IndexOf(h.blocks[..i], b) else j + IndexOf(h.blocks[j..], b);
        assert h.blocks[k] == b && BlockOk(b) && HeaderOk(m, b);
        if k < i { Apart(h, k, i); } else { Apart(h, j - 1, k); }
      }
    }
  }

  lemma WholeTaken(m: Memory, head: nat, end: nat, h: Heap, k: nat)
    requires Represents(m, head, end, h) && k < |h.free|
    ensures Represents(UnlinkedMem(m, h.free, k)[h.free[k] := ListedSize(h, k)], UnlinkedHead(m, h.free, k), end,
                       TakeWhole(h, k))
  {
    Unlinked(m, head, end, h, k);
    TakeWholeInv(h, k);
    ListedIsBlock(h, k);
    HeadersAndLinksApart(h);
    var i := IndexAt(h, h.free[k]);
    var b := h.blocks[i];
    var m1 := UnlinkedMem(m, h.free, k);
    var m2 := m1[b.addr := b.size];
    assert BlockOk(b);
    SpliceHeaders(m1, m2, h, i, i + 1, [b.(free := false)], RemoveAt(h.free, k));
    RemovedFromList(h, k);
    ChainFrame(m1, m2, UnlinkedHead(m, h.free, k), RemoveAt(h.free, k));
  }

  lemma BlockSplit(m: Memory, head: nat, end: nat, h: Heap, k: nat, n: nat)
    requires Represents(m, head, end, h) && k < |h.free| && n > 0 && n % 16 == 0
    requires ListedSize(h, k) >= n + HDR_SIZE + 16
    ensures var a, head1 := h.free[k], UnlinkedHead(m, h.free, k);
            var rest := a + HDR_SIZE + n;
            Represents(UnlinkedMem(m, h.free, k)
                         [rest := SetFree(ListedSize(h, k) - n - HDR_SIZE)][Link(rest) := head1][a := n],
                       rest, end, SplitBlock(h, k, n))
  {
    hide Chain, Headers, Tiles, FreeListOk, SetFree, UnlinkedMem, UnlinkedHead, RemoveAt;
    Unlinked(m, head, end, h, k);
    SplitInv(h, k, n);
    ListedIsBlock(h, k);
    RemovedFromList(h, k);
    HeadersAndLinksApart(h);
    var i := IndexAt(h, h.free[k]);
    SplitWords(UnlinkedMem(m, h.free, k), UnlinkedHead(m, h.free, k), h, i, n, RemoveAt(h.free, k));
  }

  lemma SplitWords(m: Memory, head: nat, h: Heap, i: nat, n: nat, others: seq<nat>)
    requires Inv(h) && i < |h.blocks| && n > 0 && n % 16 == 0 && h.blocks[i].size >= n + HDR_SIZE + 16
    requires Headers(m, h.blocks) && Chain(m, head, others)
    requires forall a :: a in others ==> a in h.free && a % 16 == 0
    ensures var b := h.blocks[i];
            var used, rest := Block(b.addr, n, false), Block(b.addr + HDR_SIZE + n, b.size - n - HDR_SIZE, true);
            var m' := m[rest.addr := SetFree(rest.size)][Link(rest.addr) := head][b.addr := n];
            var r := Splice(h, i, i + 1, [used, rest], [rest.addr] + others);
            Headers(m', r.blocks) && Chain(m', rest.addr, r.free)
  {
    var b := h.blocks[i];
    assert BlockOk(b);
    var used, rest := Block(b.addr, n, false), Block(b.addr + HDR_SIZE + n, b.size - n - HDR_SIZE, true);
    NotABlock(h, i, rest.addr);
    var m1 := m[rest.addr := SetFree(rest.size)];
    ChainFrame(m, m1, head, others);
    PushChain(m1, head, others, rest.addr);
    var m2 := m1[Link(rest.addr) := head];
    var m3 := m2[b.addr := n];
    ChainFrame(m2, m3, rest.addr, [rest.addr] + others);
    assert HeaderOk(m3, used) && HeaderOk(m3, rest);
    SpliceHeaders(m, m3, h, i, i + 1, [used, rest], [rest.addr] + others);
  }

  lemma Grown(m: Memory, head: nat, end: nat, h: Heap, n: nat)
    requires Represents(m, head, end, h) && n > 0 && n % 16 == 0
    ensures Represents(m[end := n], head, end + HDR_SIZE + n, Grow(h, n))
  {
    GrowInv(h, n);
    HeadersAndLinksApart(h);
    var last := Block(end, n, false);
    forall b | b in h.blocks ensures b.addr != end { if b.addr == end { BeyondTheEnd(h, b); } }
    HeadersFrame(m, m[end := n], h.blocks);
    assert h.start % 16 == 0 && end % 16 == 0 by {
      if h.blocks != [] { assert BlockOk(h.blocks[|h.blocks| - 1]); }
    }
    ChainFrame(m, m[end := n], head, h.free);
  }

  /** A store of a word into the payload of a live block disturbs neither headers nor list. */
  lemma ClientStoreIsHarmless(m: Memory, head: nat, end: nat, h: Heap, b: Block, a: nat, v: nat)
    requires Represents(m, head, end, h) && b in Live(h) && b.addr + HDR_SIZE <= a && a + 8 <= EndOf(b) && a % 8 == 0
    ensures Represents(m[a := v], head, end, h)
  {
    var i := IndexOf(h.blocks, b);
    forall c | c in h.blocks ensures c.addr != a {
      var j := IndexOf(h.blocks, c);
      if i < j { Apart(h, i, j); } else if j < i { Apart(h, j, i); }
    }
    HeadersFrame(m, m[a := v], h.blocks);
    forall x | x in h.free ensures Link(x) != a {
      assert FreeIn(h.blocks, x);
      var c :| c in h.blocks && c.free && c.addr == x;
      var j := IndexOf(h.blocks, c);
      assert BlockOk(c);
      if i < j { Apart(h, i, j); } else if j < i { Apart(h, j, i); }
    }
    ChainFrame(m, m[a := v], head, h.free);
  }

  /** The first half of free: flag the block and push it on the list. */
  function Freed(h: Heap, i: nat): Heap
    requires i < |h.blocks|
  {
    Splice(h, i, i + 1, [h.blocks[i].(free := true)], [h.blocks[i].addr] + h.free)
  }

  lemma FlaggedAndPushed(m: Memory, head: nat, end: nat, h: Heap, i: nat)
    requires Represents(m, head, end, h) && i < |h.blocks| && !h.blocks[i].free
    ensures var b := h.blocks[i];
            Represents(m[b.addr := SetFree(b.size)][Link(b.addr) := head], b.addr, end, Freed(h, i))
  {
    var b := h.blocks[i];
    FreeIsListed(h, i);
    FreeAlone(h, i);
    HeadersAndLinksApart(h);
    assert b in h.blocks && BlockOk(b);
    var m1 := m[b.addr := SetFree(b.size)];
    ChainFrame(m, m1, head, h.free);
    PushChain(m1, head, h.free, b.addr);
    var m2 := m1[Link(b.addr) := head];
    assert HeaderOk(m2, b.(free := true));
    SpliceHeaders(m, m2, h, i, i + 1, [b.(free := true)], [b.addr] + h.free);
  }

  /** The second half of free: join block `i` with the free block after it, entry `k` of the list. */
  lemma Joined(m: Memory, head: nat, end: nat, h: Heap, i: nat, k: nat)
    requires Represents(m, head, end, h) && i + 1 < |h.blocks| && h.blocks[i].free && h.blocks[i + 1].free
    requires k < |h.free| && h.free[k] == h.blocks[i + 1].addr
    requires Inv(Splice(h, i, i + 2, [JoinOf(h, i)], RemoveAt(h.free, k)))
    ensures Represents(UnlinkedMem(m, h.free, k)[h.blocks[i].addr := SetFree(JoinOf(h, i).size)],
                       UnlinkedHead(m, h.free, k), end,
                       Splice(h, i, i + 2, [JoinOf(h, i)], RemoveAt(h.free, k)))
  {
    var j := JoinOf(h, i);
    Unlinked(m, head, end, h, k);
    HeadersAndLinksApart(h);
    RemovedFromList(h, k);
    var m1 := UnlinkedMem(m, h.free, k);
    var m2 := m1[j.addr := SetFree(j.size)];
    assert h.blocks[i] in h.blocks && Adjacent(h.blocks, i);
    assert BlockOk(h.blocks[i]) && BlockOk(h.blocks[i + 1]);
    assert HeaderOk(m2, j);
    SpliceHeaders(m1, m2, h, i, i + 2, [j], RemoveAt(h.free, k));
    ChainFrame(m1, m2, UnlinkedHead(m, h.free, k), RemoveAt(h.free, k));
    JoinSpan(h, i);
    SpliceTiles(h, i, i + 2, [j], RemoveAt(h.free, k));
  }

  function JoinOf(h: Heap, i: nat): Block
    requires i + 1 < |h.blocks|
  {
    Block(h.blocks[i].addr, h.blocks[i].size + HDR_SIZE + h.blocks[i + 1].size, true)
  }

  lemma JoinSpan(h: Heap, i: nat)
    requires Tiles(h) && i + 1 < |h.blocks|
    ensures SameSpan(h, i, i + 2, [JoinOf(h, i)])
  {
    assert BlockOk(h.blocks[i]) && BlockOk(h.blocks[i + 1]) && Adjacent(h.blocks, i);
    SumOfMultiples(h.blocks[i].size, h.blocks[i + 1].size);
    assert BlockOk(JoinOf(h, i));
    hide BlockOk;
  }

  lemma RemovedBelow(a: nat, free: seq<nat>, k: nat, x: nat)
    requires Distinct(free) && x in free && a != x && k <= |free| && ([a] + free)[k] == x
    ensures RemoveAt([a] + free, k) == [a] + Without(free, x)
  {
    assert ([a] + free)[k] == free[k - 1];
    assert IndexOf(free, x) == k - 1;
  }

  /** The two halves of free compose to the whole. */
  lemma FreeInTwoSteps(h: Heap, i: nat, k: nat)
    requires Inv(h) && i < |h.blocks| && !h.blocks[i].free
    ensures var f := Freed(h, i);
            && |f.blocks| == |h.blocks| && f.blocks[i] == h.blocks[i].(free := true)
            && (i + 1 < |h.blocks| ==> f.blocks[i + 1] == h.blocks[i + 1])
            && (if i + 1 < |h.blocks| && h.blocks[i + 1].free
                then k < |f.free| && f.free[k] == h.blocks[i + 1].addr ==>
                       Free(h, i) == Splice(f, i, i + 2, [JoinOf(f, i)], RemoveAt(f.free, k))
                else Free(h, i) == f)
  {
    var f := Freed(h, i);
    var b := h.blocks[i];
    if i + 1 < |h.blocks| && h.blocks[i + 1].free && k < |f.free| && f.free[k] == h.blocks[i + 1].addr {
      var c := h.blocks[i + 1];
      assert Adjacent(h.blocks, i);
      FreeIsListed(h, i + 1);
      RemovedBelow(b.addr, h.free, k, c.addr);
      hide FreeListOk, RemoveAt, Without;
      assert f.blocks[..i] == h.blocks[..i] && f.blocks[i + 2..] == h.blocks[i + 2..];
    }
  }

  /** Both halves of free in memory: the joined block is represented by the words then stored. */
  lemma FreeJoined(m: Memory, head: nat, end: nat, h: Heap, i: nat, k: nat)
    requires Inv(h) && i + 1 < |h.blocks| && !h.blocks[i].free && h.blocks[i + 1].free
    requires Represents(m, head, end, Freed(h, i))
    requires k < |Freed(h, i).free| && Freed(h, i).free[k] == h.blocks[i + 1].addr
    ensures var f := Freed(h, i);
            && |f.blocks| == |h.blocks|
            && Represents(UnlinkedMem(m, f.free, k)[h.blocks[i].addr := SetFree(JoinOf(f, i).size)],
                          UnlinkedHead(m, f.free, k), end, Free(h, i))
  {
    hide Represents, SetFree;
    FreeInTwoSteps(h, i, k);
    assert Inv(Free(h, i)) by { FreeCorrect(h, i); }
    hide Inv, Free;
    Joined(m, head, end, Freed(h, i), i, k);
  }

  /** The headers of the two blocks still read as before once the second has left the list. */
  lemma SizesAfterUnlink(m: Memory, head: nat, end: nat, h: Heap, i: nat, k: nat)
    requires Represents(m, head, end, h) && i + 1 < |h.blocks| && k < |h.free|
    ensures ClearLow4(Load(UnlinkedMem(m, h.free, k), h.blocks[i].addr)) == h.blocks[i].size
    ensures ClearLow4(Load(UnlinkedMem(m, h.free, k), h.blocks[i + 1].addr)) == h.blocks[i + 1].size
  {
    Unlinked(m, head, end, h, k);
    hide FreeListOk, Chain, Headers, UnlinkedMem, UnlinkedHead;
    HeaderAt(UnlinkedMem(m, h.free, k), h, i);
    HeaderAt(UnlinkedMem(m, h.free, k), h, i + 1);
  }

  /** The word stored over the first header, from the two headers read after unlink_free. */
  function JoinWord(m: Memory, block: nat, next: nat): nat {
    SetFree(ClearLow4(Load(m, block)) + HDR_SIZE + ClearLow4(Load(m, next)))
  }

  lemma JoinStored(m: Memory, head: nat, end: nat, h: Heap, i: nat, k: nat)
    requires Inv(h) && i + 1 < |h.blocks| && !h.blocks[i].free && h.blocks[i + 1].free
    requires Represents(m, head, end, Freed(h, i))
    requires k < |Freed(h, i).free| && Freed(h, i).free[k] == h.blocks[i + 1].addr
    ensures var free, block := Freed(h, i).free, h.blocks[i].addr;
            var m1 := UnlinkedMem(m, free, k);
            Represents(m1[block := JoinWord(m1, block, h.blocks[i + 1].addr)], UnlinkedHead(m, free, k), end, Free(h, i))
  {
    FreeInTwoSteps(h, i, k);
    hide Represents, Inv, Freed, Free, SetFree, ClearLow4, Load, UnlinkedMem, UnlinkedHead, RemoveAt;
    FreeJoined(m, head, end, h, i, k);
    SizesAfterUnlink(m, head, end, Freed(h, i), i, k);
  }
}

/** The allocator's entry points on its three words of state and on memory. */
module AsmHeap {
  import opened Seqs
  import opened HeapSpec
  import opened HeapWords

  class Allocator {
    var mem: Memory
    var heapEnd: nat
    var freeHead: nat

    ghost var view: Heap

    ghost predicate Valid()
      reads this
    {
      Represents(mem, freeHead, heapEnd, view)
    }

    /** init_heap_once_nolock: the heap begins at the current break, which the kernel keeps page aligned. */
    constructor (brk: nat)
      requires brk > 0 && brk % 16 == 0
      ensures Valid() && view == Heap(brk, [], [])
    {
      mem, heapEnd, freeHead := map[], brk, 0;
      view := Heap(brk, [], []);
    }

    /** Takes `cur`, entry `k`, out of the list; every header keeps its word. */
    method UnlinkFree(prev: nat, cur: nat, ghost k: nat)
      requires Valid() && k < |view.free| && cur == view.free[k]
      requires prev == if k == 0 then 0 else view.free[k - 1]
      modifies this`mem, this`freeHead
      ensures Chain(mem, freeHead, RemoveAt(view.free, k)) && Headers(mem, view.blocks)
      ensures mem == UnlinkedMem(old(mem), view.free, k) && freeHead == UnlinkedHead(old(mem), view.free, k)
    {
      Unlinked(mem, freeHead, heapEnd, view, k);
      HeadersAndLinksApart(view);
      assert k > 0 ==> view.free[k - 1] in view.free;
      assert freeHead == view.free[0];
      hide Inv, Chain, Headers;
      if prev != 0 {
        mem := mem[Link(prev) := Load(mem, Link(cur))];
      } else {
        freeHead := Load(mem, Link(cur));
      }
    }

    method PushFree(block: nat)
      modifies this`mem, this`freeHead
      ensures mem == old(mem)[Link(block) := old(freeHead)] && freeHead == block
    {
      mem := mem[Link(block) := freeHead];
      freeHead := block;
    }

    /** The first-fit search: the first listed block that is large enough, and the one before it. */
    method FindFit(n: nat) returns (prev: nat, cur: nat)
      requires Valid()
      ensures var k := FitFrom(view, n, 0);
              && cur == (if k < |view.free| then view.free[k] else 0)
              && prev == (if k == 0 then 0 else view.free[k - 1])
              && (k < |view.free| ==> cur != 0)
    {
      HeadersAndLinksApart(view);
      ghost var k := 0;
      prev, cur := 0, freeHead;
      while cur != 0
        invariant k <= |view.free| && FitFrom(view, n, 0) == FitFrom(view, n, k)
        invariant cur == ListHead(view.free[k..])
        invariant prev == if k == 0 then 0 else view.free[k - 1]
        decreases |view.free| - k
      {
        assert k < |view.free| && view.free[k..][0] == view.free[k] && view.free[k] in view.free;
        ListedHeader(mem, view, k);
        if ClearLow4(Load(mem, cur)) >= n {
          return;
        }
        assert LinkOk(mem, view.free, k);
        prev, cur, k := cur, Load(mem, Link(cur)), k + 1;
      }
    }

    /** malloc_nolock; `answer` is what brk returns if it is called. */
    method MallocNolock(size: nat, answer: nat) returns (ptr: nat)
      requires Valid()
      requires size == 0 || (size < WORD_LIMIT && Sane(view, size, answer))
      modifies this
      ensures Valid()
      ensures view == Malloc(old(view), size, answer) && heapEnd == MallocBreak(old(view), size, answer)
      ensures ptr == MallocResult(old(view), size, answer)
    {
      if size == 0 {
        return 0;
      }
      SaneFits(view, size, answer);
      var n := Rounded(size);
      assert heapEnd == End(view);
      hide Rounded, Sane, NewBreak, Payload, Represents, Inv, End, Grow, TakeWhole, SplitBlock, FitFrom;
      var prev, cur := FindFit(n);
      if cur != 0 {
        ServeFrom(prev, cur, n, FitFrom(view, n, 0));
        return cur + HDR_SIZE;
      }
      if answer < NewBreak(heapEnd, n) {
        return 0;
      }
      ptr := GrowTo(answer, n);
    }

    /** A block of `n` bytes at the old break; the new one is as asked for. */
    method GrowTo(answer: nat, n: nat) returns (ptr: nat)
      requires Valid() && n > 0 && n % 16 == 0 && answer == heapEnd + HDR_SIZE + n < WORD_LIMIT
      modifies this
      ensures Valid() && view == Grow(old(view), n) && heapEnd == answer && ptr == old(heapEnd) + HDR_SIZE
    {
      Grown(mem, freeHead, heapEnd, view, n);
      hide Represents, Grow;
      var block := heapEnd;
      heapEnd, mem := answer, mem[block := n];
      view := Grow(view, n);
      return block + HDR_SIZE;
    }

    /** Serves a request from the free block `cur`, entry `k` of the list: split it or take it whole. */
    method ServeFrom(prev: nat, cur: nat, n: nat, ghost k: nat)
      requires Valid() && n > 0 && n % 16 == 0
      requires k < |view.free| && cur == view.free[k] && ListedSize(view, k) >= n
      requires prev == if k == 0 then 0 else view.free[k - 1]
      modifies this
      ensures Valid()
      ensures view == old(if ListedSize(view, k) - n < HDR_SIZE + 16 then TakeWhole(view, k) else SplitBlock(view, k, n))
    {
      ghost var m, h, size := mem, view, ListedSize(view, k);
      ghost var head := freeHead;
      UnlinkFree(prev, cur, k);
      ListedHeader(mem, h, k);
      var spare := ClearLow4(Load(mem, cur)) - n;
      if spare >= HDR_SIZE + 16 {
        BlockSplit(m, head, heapEnd, h, k, n);
        var rest := cur + HDR_SIZE + n;
        mem := mem[rest := SetFree(spare - HDR_SIZE)];
        PushFree(rest);
        mem := mem[cur := n];
        view := SplitBlock(h, k, n);
      } else {
        WholeTaken(m, head, heapEnd, h, k);
        mem := mem[cur := ClearLow4(Load(mem, cur))];
        view := TakeWhole(h, k);
      }
    }

    /** free; a null pointer is ignored, and any other must come from malloc and still be live. */
    method Free(ptr: nat, ghost i: nat)
      requires Valid()
      requires ptr != 0 ==> i < |view.blocks| && !view.blocks[i].free && view.blocks[i].addr + HDR_SIZE == ptr
      modifies this
      ensures Valid() && heapEnd == old(heapEnd)
      ensures view == if ptr == 0 then old(view) else HeapSpec.Free(old(view), i)
    {
      if ptr == 0 {
        return;
      }
      ghost var h, b := view, view.blocks[i];
      FlaggedAndPushed(mem, freeHead, heapEnd, view, i);
      assert BlockOk(b) && HeaderOk(mem, b);
      HeaderFields(b);
      var block := ptr - HDR_SIZE;
      mem := mem[block := SetFree(ClearLow4(Load(mem, block)))];
      PushFree(block);
      view := Freed(view, i);
      FreeInTwoSteps(h, i, 0);
      assert HeaderOk(mem, view.blocks[i]);
      HeaderFields(view.blocks[i]);
      NextBlock(h, i);
      var next := block + HDR_SIZE + ClearLow4(Load(mem, block));
      if next >= heapEnd {
        return;
      }
      JoinWithNext(block, next, h, i);
    }

    /** The search of free for the list entry `next`. */
    method FindEntry(next: nat) returns (prev: nat)
      requires Valid() && next in view.free
      ensures var k := IndexOf(view.free, next);
              prev == (if k == 0 then 0 else view.free[k - 1]) && (k > 0 ==> prev != 0)
    {
      HeadersAndLinksApart(view);
      ghost var at, k := IndexOf(view.free, next), 0;
      prev := 0;
      var cur := freeHead;
      while cur != 0 && cur != next
        invariant k <= at && cur == ListHead(view.free[k..])
        invariant prev == if k == 0 then 0 else view.free[k - 1]
        decreases |view.free| - k
      {
        assert view.free[k..][0] == view.free[k] && LinkOk(mem, view.free, k);
        prev, cur, k := cur, Load(mem, Link(cur)), k + 1;
      }
      assert view.free[k..][0] == view.free[k] && view.free[k] in view.free;
      assert k > 0 ==> view.free[k - 1] in view.free;
    }

    /** The tail of free: when the block after `block` is free, find it on the list and join the two. */
    method JoinWithNext(block: nat, next: nat, ghost h: Heap, ghost i: nat)
      requires Valid() && Inv(h) && i + 1 < |h.blocks| && !h.blocks[i].free
      requires view == Freed(h, i)
      requires h.blocks[i].addr == block && h.blocks[i + 1].addr == next
      modifies this
      ensures Valid() && heapEnd == old(heapEnd)
      ensures view == HeapSpec.Free(h, i)
    {
      assert freeHead == ListHead(view.free);
      hide Tiles, FreeListOk, Chain, Headers, HeapSpec.Free, ClearLow4, HasFree, SetFree, Load, IndexOf, RemoveAt;
      FreeInTwoSteps(h, i, 0);
      HeaderAt(mem, view, i + 1);
      if !HasFree(Load(mem, next)) {
        return;
      }
      FreeIsListed(view, i + 1);
      JoinListed(block, next, h, i);
    }

    method JoinListed(block: nat, next: nat, ghost h: Heap, ghost i: nat)
      requires Valid() && Inv(h) && i + 1 < |h.blocks| && !h.blocks[i].free && h.blocks[i + 1].free
      requires view == Freed(h, i) && next in view.free
      requires h.blocks[i].addr == block && h.blocks[i + 1].addr == next
      modifies this
      ensures Valid() && heapEnd == old(heapEnd)
      ensures view == HeapSpec.Free(h, i)
    {
      hide Represents, Inv, Freed, HeapSpec.Free, IndexOf, RemoveAt, JoinWord, UnlinkedMem, UnlinkedHead;
      var prev := FindEntry(next);
      ghost var k := IndexOf(view.free, next);
      JoinStored(mem, freeHead, heapEnd, h, i, k);
      UnlinkFree(prev, next, k);
      mem := mem[block := JoinWord(mem, block, next)];
      view := HeapSpec.Free(h, i);
    }
  }
}
