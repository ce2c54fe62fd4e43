/**
 * What a bare-metal arena means: chunks that tile [0, bump), each with the extent it was
 * carved with, the size its current or last owner asked for, and whether it is handed out.
 */
module ArenaSpec {
  import opened Seqs

  const HDR_SIZE := 8
  const ARENA_ALIGN := 8
  const WORD_LIMIT := 0x1_0000_0000_0000_0000    // size_t
  const UINT_LIMIT := 0x1_0000_0000              // unsigned int

  /** The largest request for which the space computed covers header and payload. */
  const MAX_REQUEST := UINT_LIMIT - 16

  datatype Chunk = Chunk(off: nat, extent: nat, size: nat, live: bool)

  datatype Arena = Arena(capacity: nat, chunks: seq<Chunk>, free: seq<nat>)

  // ----- sizes

  /** align_up: the sum is a size_t, but the mask is an unsigned int, so the upper half of the sum is lost. */
  function AlignUp(n: nat): nat {
    (n + (ARENA_ALIGN - 1)) % WORD_LIMIT % UINT_LIMIT / ARENA_ALIGN * ARENA_ALIGN
  }

  function Need(size: nat): nat { AlignUp((HDR_SIZE + size) % WORD_LIMIT) }

  lemma LowHalf(x: nat)
    ensures x % WORD_LIMIT % UINT_LIMIT == x % UINT_LIMIT
  {
    var q := x / WORD_LIMIT;
    assert x == x % WORD_LIMIT + UINT_LIMIT * (UINT_LIMIT * q);
    Multiples(x % WORD_LIMIT, UINT_LIMIT * q);
  }

  lemma Multiples(x: nat, q: nat)
    ensures (x + UINT_LIMIT * q) % UINT_LIMIT == x % UINT_LIMIT
  {
  }

  /** Only the low 32 bits of the sum count. */
  lemma NeedIs(size: nat)
    requires size < WORD_LIMIT
    ensures Need(size) == (size + 15) % UINT_LIMIT / 8 * 8
  {
    var n := (HDR_SIZE + size) % WORD_LIMIT;
    LowHalf(n + 7);
    if HDR_SIZE + size >= WORD_LIMIT { Multiples(n + 7, UINT_LIMIT); }
  }

  /** The space set aside covers header and payload exactly up to the largest request. */
  lemma NeedCoversRequest(size: nat)
    requires size < WORD_LIMIT
    ensures HDR_SIZE + size <= Need(size) <==> size <= MAX_REQUEST
    ensures Need(size) % 8 == 0 && Need(size) < UINT_LIMIT
    ensures 0 < size <= MAX_REQUEST ==> Need(size) >= 16
  {
    NeedIs(size);
  }

  // ----- invariant

  function EndOf(c: Chunk): nat { c.off + c.extent }

  /** bump */
  function End(a: Arena): nat {
    if a.chunks == [] then 0 else EndOf(a.chunks[|a.chunks| - 1])
  }

  /** Every chunk has room for a free-list node, and its recorded size stays inside it. */
  predicate ChunkOk(c: Chunk) {
    && c.off % ARENA_ALIGN == 0 && c.extent % ARENA_ALIGN == 0
    && c.extent >= 16 && c.size > 0 && HDR_SIZE + c.size <= c.extent
  }

  predicate Adjacent(chunks: seq<Chunk>, i: nat)
    requires i + 1 < |chunks|
  {
    chunks[i + 1].off == EndOf(chunks[i])
  }

  ghost predicate Tiles(a: Arena) {
    && (forall i :: 0 <= i < |a.chunks| ==> ChunkOk(a.chunks[i]))
    && (a.chunks != [] ==> a.chunks[0].off == 0)
    && (forall i :: 0 <= i < |a.chunks| - 1 ==> Adjacent(a.chunks, i))
    && End(a) <= a.capacity < UINT_LIMIT    // capacities are unsigned int constants
  }

  ghost predicate FreeAt(chunks: seq<Chunk>, o: nat) {
    exists i :: 0 <= i < |chunks| && chunks[i].off == o && !chunks[i].live
  }

  ghost predicate Inv(a: Arena) {
    && Tiles(a)
    && Distinct(a.free)
    && (forall o :: o in a.free <==> FreeAt(a.chunks, o))
  }

  lemma {:induction false} Apart(a: Arena, i: nat, j: nat)
    requires Tiles(a) && i < j < |a.chunks|
    ensures EndOf(a.chunks[i]) <= a.chunks[j].off
    decreases j
  {
    if i < j - 1 { Apart(a, i, j - 1); }
    assert ChunkOk(a.chunks[j - 1]) && Adjacent(a.chunks, j - 1);
  }

  lemma SameOffset(a: Arena, i: nat, j: nat)
    requires Tiles(a) && i < |a.chunks| && j < |a.chunks| && a.chunks[i].off == a.chunks[j].off
    ensures i == j
  {
    assert ChunkOk(a.chunks[i]) && ChunkOk(a.chunks[j]);
    if i < j { Apart(a, i, j); } else if j < i { Apart(a, j, i); }
  }

  lemma Inside(a: Arena, i: nat)
    requires Tiles(a) && i < |a.chunks|
    ensures ChunkOk(a.chunks[i]) && EndOf(a.chunks[i]) <= End(a) <= a.capacity
  {
    if i < |a.chunks| - 1 {
      Apart(a, i, |a.chunks| - 1);
      assert ChunkOk(a.chunks[|a.chunks| - 1]);
    }
  }

  /**
   * Distinct chunks, live or free, share no byte, and header, payload and free-list
   * node of each stay inside [0, bump).
   */
  lemma ChunksDisjoint(a: Arena, i: nat, j: nat)
    requires Inv(a) && i < |a.chunks| && j < |a.chunks| && i != j
    ensures var c, d := a.chunks[i], a.chunks[j];
            && (EndOf(c) <= d.off || EndOf(d) <= c.off)
            && c.off + HDR_SIZE + c.size <= EndOf(c) <= End(a)
            && c.off + 16 <= EndOf(c)
  {
    Inside(a, i);
    if i < j { Apart(a, i, j); } else { Apart(a, j, i); }
  }

  // ----- first fit

  ghost function IndexAt(a: Arena, o: nat): (i: nat)
    requires FreeAt(a.chunks, o)
    ensures i < |a.chunks| && a.chunks[i].off == o && !a.chunks[i].live
  {
    var i :| 0 <= i < |a.chunks| && a.chunks[i].off == o && !a.chunks[i].live;
    i
  }

  ghost function ListedIndex(a: Arena, k: nat): (i: nat)
    requires Inv(a) && k < |a.free|
    ensures i < |a.chunks| && a.chunks[i].off == a.free[k] && !a.chunks[i].live
  {
    assert a.free[k] in a.free;
    IndexAt(a, a.free[k])
  }

  ghost function ListedSize(a: Arena, k: nat): nat
    requires Inv(a) && k < |a.free|
  {
    a.chunks[ListedIndex(a, k)].size
  }

  ghost function FitFrom(a: Arena, size: nat, k: nat): (r: nat)
    requires Inv(a) && k <= |a.free|
    ensures k <= r <= |a.free|
    ensures r < |a.free| ==> ListedSize(a, r) >= size
    ensures forall j :: k <= j < r ==> ListedSize(a, j) < size
    decreases |a.free| - k
  {
    if k == |a.free| || ListedSize(a, k) >= size then k else FitFrom(a, size, k + 1)
  }

  // ----- operations

  /** Changes a chunk's size or owner, never its place. */
  function Relabel(a: Arena, i: nat, size: nat, live: bool, free: seq<nat>): Arena
    requires i < |a.chunks|
  {
    Arena(a.capacity, a.chunks[i := a.chunks[i].(size := size, live := live)], free)
  }

  ghost function Reuse(a: Arena, k: nat, size: nat): Arena
    requires Inv(a) && k < |a.free|
  {
    Relabel(a, ListedIndex(a, k), size, true, RemoveAt(a.free, k))
  }

  function Carve(a: Arena, size: nat): Arena {
    a.(chunks := a.chunks + [Chunk(End(a), Need(size), size, true)])
  }

  /** The test of the bump allocation, as a size_t. */
  predicate HasRoom(a: Arena, size: nat) { (End(a) + Need(size)) % WORD_LIMIT <= a.capacity }

  /** The guard a caller can test: a request that is not too large, or one that the arena has no room for anyway. */
  predicate Safe(a: Arena, size: nat) { size <= MAX_REQUEST || (size < WORD_LIMIT && !HasRoom(a, size)) }

  ghost function Alloc(a: Arena, size: nat): Arena
    requires Inv(a)
  {
    var k := FitFrom(a, size, 0);
    if size == 0 then a
    else if k < |a.free| then Reuse(a, k, size)
    else if HasRoom(a, size) then Carve(a, size)
    else a
  }

  /** The index of the chunk an allocation hands out; the number of chunks when it fails. */
  ghost function AllocIndex(a: Arena, size: nat): (i: nat)
    requires Inv(a)
    ensures i <= |Alloc(a, size).chunks|
  {
    var k := FitFrom(a, size, 0);
    if size == 0 then |a.chunks|
    else if k < |a.free| then ListedIndex(a, k)
    else |a.chunks|
  }

  function Free(a: Arena, i: nat): Arena
    requires i < |a.chunks|
  {
    Relabel(a, i, a.chunks[i].size, false, [a.chunks[i].off] + a.free)
  }

  lemma RelabelTiles(a: Arena, i: nat, size: nat, live: bool, free: seq<nat>)
    requires Tiles(a) && i < |a.chunks| && 0 < size && HDR_SIZE + size <= a.chunks[i].extent
    ensures Tiles(Relabel(a, i, size, live, free)) && End(Relabel(a, i, size, live, free)) == End(a)
  {
    var r := Relabel(a, i, size, live, free);
    forall j | 0 <= j < |r.chunks| ensures ChunkOk(r.chunks[j]) { assert ChunkOk(a.chunks[j]); }
    forall j | 0 <= j < |r.chunks| - 1 ensures Adjacent(r.chunks, j) { assert Adjacent(a.chunks, j); }
  }

  lemma RelabelInv(a: Arena, i: nat, size: nat, live: bool, free: seq<nat>)
    requires Inv(a) && i < |a.chunks| && 0 < size && HDR_SIZE + size <= a.chunks[i].extent
    requires Distinct(free)
    requires forall o :: o in free <==> (o != a.chunks[i].off && o in a.free) || (o == a.chunks[i].off && !live)
    ensures Inv(Relabel(a, i, size, live, free)) && End(Relabel(a, i, size, live, free)) == End(a)
  {
    RelabelTiles(a, i, size, live, free);
    var r := Relabel(a, i, size, live, free);
    forall o ensures o in free <==> FreeAt(r.chunks, o) {
      if o == a.chunks[i].off {
        forall j | 0 <= j < |r.chunks| && r.chunks[j].off == o ensures j == i { SameOffset(a, i, j); }
        assert r.chunks[i].off == o;
      } else {
        if FreeAt(a.chunks, o) {
          var j := IndexAt(a, o);
          assert r.chunks[j] == a.chunks[j];
        }
        if FreeAt(r.chunks, o) {
          var j :| 0 <= j < |r.chunks| && r.chunks[j].off == o && !r.chunks[j].live;
          assert r.chunks[j] == a.chunks[j];
        }
      }
    }
  }

  lemma ReuseInv(a: Arena, k: nat, size: nat)
    requires Inv(a) && k < |a.free| && 0 < size <= ListedSize(a, k)
    ensures Inv(Reuse(a, k, size)) && End(Reuse(a, k, size)) == End(a)
  {
    var i := ListedIndex(a, k);
    assert ChunkOk(a.chunks[i]);
    assert IndexOf(a.free, a.free[k]) == k;
    WithoutDistinct(a.free, a.free[k]);
    RelabelInv(a, i, size, true, RemoveAt(a.free, k));
  }

  lemma CarveInv(a: Arena, size: nat)
    requires Inv(a) && 0 < size <= MAX_REQUEST && HasRoom(a, size)
    ensures Inv(Carve(a, size)) && End(Carve(a, size)) == End(a) + Need(size)
  {
    NewChunkFits(a, size);
    hide Need, HasRoom, FreeAt, ChunkOk;
    var r := Carve(a, size);
    var n := |a.chunks|;
    forall j | 0 <= j < n ensures ChunkOk(r.chunks[j]) { assert ChunkOk(a.chunks[j]); }
    forall j | 0 <= j < n ensures Adjacent(r.chunks, j) {
      assert j < n - 1 ==> Adjacent(a.chunks, j);
    }
    forall o ensures FreeAt(a.chunks, o) <==> FreeAt(r.chunks, o) { CarveFree(a, size, o); }
  }

  lemma NewChunkFits(a: Arena, size: nat)
    requires Tiles(a) && 0 < size <= MAX_REQUEST && HasRoom(a, size)
    ensures ChunkOk(Chunk(End(a), Need(size), size, true)) && End(a) + Need(size) <= a.capacity
  {
    NeedCoversRequest(size);
    if a.chunks != [] { assert ChunkOk(a.chunks[|a.chunks| - 1]); }
    hide Need, Adjacent;
  }

  lemma CarveFree(a: Arena, size: nat, o: nat)
    requires Inv(a) && 0 < size <= MAX_REQUEST && HasRoom(a, size)
    ensures FreeAt(a.chunks, o) <==> FreeAt(Carve(a, size).chunks, o)
  {
    hide Need, HasRoom;
    if FreeAt(a.chunks, o) {
      assert Carve(a, size).chunks[IndexAt(a, o)] == a.chunks[IndexAt(a, o)];
    }
  }

  lemma FreeInv(a: Arena, i: nat)
    requires Inv(a) && i < |a.chunks| && a.chunks[i].live
    ensures Inv(Free(a, i)) && End(Free(a, i)) == End(a)
  {
    var o := a.chunks[i].off;
    assert ChunkOk(a.chunks[i]);
    if o in a.free { SameOffset(a, i, IndexAt(a, o)); }
    RelabelInv(a, i, a.chunks[i].size, false, [o] + a.free);
  }

  /**
   * An allocation fails, changing nothing, exactly when zero bytes are asked for or no freed chunk is large
   * enough and the arena is exhausted.  Otherwise it hands out one chunk that was not in use, sized as
   * asked for, and leaves every other chunk as it was.  The arena stays sound exactly when the guard holds.
   */
  lemma AllocCorrect(a: Arena, size: nat)
    requires Inv(a) && size < WORD_LIMIT
    ensures var r, i := Alloc(a, size), AllocIndex(a, size);
            && (Inv(r) <==> Safe(a, size)) && r.capacity == a.capacity && |a.chunks| <= |r.chunks|
            && (i == |r.chunks| <==> size == 0 || (NothingFits(a, size) && !HasRoom(a, size)))
            && (i == |r.chunks| ==> r == a)
            && (i < |r.chunks| ==>
                  && r.chunks[i].live && r.chunks[i].size == size
                  && (i < |a.chunks| ==> !a.chunks[i].live && r.chunks[i].off == a.chunks[i].off)
                  && forall j :: 0 <= j < |a.chunks| && j != i ==> r.chunks[j] == a.chunks[j])
  {
    hide Need;
    FitDecides(a, size);
    var k := FitFrom(a, size, 0);
    if !Safe(a, size) {
      TooLargeIsUnsound(a, size);
    } else if size > 0 {
      if k < |a.free| {
        ReuseInv(a, k, size);
      } else if HasRoom(a, size) {
        CarveInv(a, size);
      }
    }
  }

  /** Chunk `i` is the first in the order of the free list whose recorded size suffices, `k` its place there. */
  ghost predicate FirstFit(a: Arena, size: nat, k: nat, i: nat) {
    && k < |a.free| && i < |a.chunks| && a.chunks[i].off == a.free[k] && a.chunks[i].size >= size
    && (forall j, m :: 0 <= j < k && 0 <= m < |a.chunks| && a.chunks[m].off == a.free[j] ==> a.chunks[m].size < size)
  }

  lemma FirstFitIs(a: Arena, size: nat, k: nat, i: nat)
    requires Inv(a) && FirstFit(a, size, k, i)
    ensures FitFrom(a, size, 0) == k && ListedIndex(a, k) == i
  {
    SameOffset(a, ListedIndex(a, k), i);
    assert ListedSize(a, k) >= size;
    forall j | 0 <= j < k ensures ListedSize(a, j) < size {
      var m := ListedIndex(a, j);
      assert a.chunks[m].off == a.free[j];
    }
  }

  /** An allocation takes the first fit, whole: the chunk keeps its place and extent and leaves the free list. */
  lemma AllocTakesFirstFit(a: Arena, size: nat, k: nat, i: nat)
    requires Inv(a) && 0 < size && FirstFit(a, size, k, i)
    ensures var r, c := Alloc(a, size), a.chunks[i];
            && AllocIndex(a, size) == i && r.chunks == a.chunks[i := Chunk(c.off, c.extent, size, true)]
            && r.free == a.free[..k] + a.free[k + 1..]
  {
    FirstFitIs(a, size, k, i);
    hide Inv;
  }

  /** With nothing to reuse it carves, at the end, a header and the payload rounded up to the next multiple of 8. */
  lemma AllocCarves(a: Arena, size: nat)
    requires Inv(a) && 0 < size <= MAX_REQUEST && NothingFits(a, size)
    ensures var r, extent := Alloc(a, size), Need(size);
            && extent % 8 == 0 && HDR_SIZE + size <= extent < HDR_SIZE + size + 8
            && (End(a) + extent <= a.capacity <==> AllocIndex(a, size) < |r.chunks|)
            && (End(a) + extent <= a.capacity ==>
                  r.chunks == a.chunks + [Chunk(End(a), extent, size, true)] && r.free == a.free)
  {
    NeedCoversRequest(size);
    NeedIs(size);
    assert (size + 15) % UINT_LIMIT == size + 15;
    FitDecides(a, size);
    SumFits(End(a), Need(size));
    hide Need, Inv, FitFrom, NothingFits;
  }

  lemma SumFits(x: nat, y: nat)
    requires x < UINT_LIMIT && y < UINT_LIMIT
    ensures (x + y) % WORD_LIMIT == x + y
  {
  }

  /** The chunk freed last is the first to be tried: asking for as much again undoes the free. */
  lemma AllocUndoesFree(a: Arena, i: nat)
    requires Inv(a) && i < |a.chunks| && a.chunks[i].live
    ensures var f := Free(a, i);
            Inv(f) && Alloc(f, a.chunks[i].size) == a && AllocIndex(f, a.chunks[i].size) == i
  {
    FreeInv(a, i);
    Inside(a, i);
    var f := Free(a, i);
    assert FirstFit(f, a.chunks[i].size, 0, i);
    hide Inv, Alloc, AllocIndex;
    AllocTakesFirstFit(f, a.chunks[i].size, 0, i);
    assert f.free[1..] == a.free;
    assert f.chunks[i := a.chunks[i]] == a.chunks;
  }

  /** Nothing recorded in a sound arena is as large as a request above the bound. */
  lemma LargeNeverFits(a: Arena, size: nat)
    requires Inv(a) && size > MAX_REQUEST
    ensures NothingFits(a, size) && FitFrom(a, size, 0) == |a.free|
  {
    forall i | 0 <= i < |a.chunks| ensures a.chunks[i].size < size { Inside(a, i); }
    FitDecides(a, size);
  }

  lemma TooLargeIsUnsound(a: Arena, size: nat)
    requires Inv(a) && MAX_REQUEST < size < WORD_LIMIT && HasRoom(a, size)
    ensures Alloc(a, size) == Carve(a, size) && AllocIndex(a, size) == |a.chunks| && !Inv(Alloc(a, size))
  {
    NeedCoversRequest(size);
    LargeNeverFits(a, size);
    hide Need, HasRoom;
    assert !ChunkOk(Carve(a, size).chunks[|a.chunks|]);
  }

  /** No freed chunk was last recorded with room for `size` bytes. */
  ghost predicate NothingFits(a: Arena, size: nat) {
    forall i :: 0 <= i < |a.chunks| && !a.chunks[i].live ==> a.chunks[i].size < size
  }

  lemma FitDecides(a: Arena, size: nat)
    requires Inv(a)
    ensures NothingFits(a, size) <==> FitFrom(a, size, 0) == |a.free|
  {
    var k := FitFrom(a, size, 0);
    if k < |a.free| {
      assert a.chunks[ListedIndex(a, k)].size >= size;
    } else {
      forall i | 0 <= i < |a.chunks| && !a.chunks[i].live ensures a.chunks[i].size < size {
        assert FreeAt(a.chunks, a.chunks[i].off);
        var j := IndexOf(a.free, a.chunks[i].off);
        SameOffset(a, i, ListedIndex(a, j));
        assert ListedSize(a, j) < size;
      }
    }
  }

  /**
   * The exact condition: an allocation keeps the arena sound if and only if the request is at most 2^32 - 16
   * bytes or the truncated space it computes does not fit.
   */
  lemma AllocSoundIff(a: Arena, size: nat)
    requires Inv(a) && size < WORD_LIMIT
    ensures Inv(Alloc(a, size)) <==> size <= MAX_REQUEST || !HasRoom(a, size)
  {
    AllocCorrect(a, size);
  }

  /** A request of 2^32 bytes is granted: 8 bytes are set aside, and the header records four gigabytes. */
  lemma FourGigabytesAreGranted(capacity: nat)
    requires 8 <= capacity < UINT_LIMIT
    ensures var a := Empty(capacity);
            && Alloc(a, UINT_LIMIT).chunks == [Chunk(0, 8, UINT_LIMIT, true)]
            && AllocIndex(a, UINT_LIMIT) == 0 && !Inv(Alloc(a, UINT_LIMIT))
  {
    assert Need(UINT_LIMIT) == 8 by { NeedIs(UINT_LIMIT); }
    hide Need, Inv;
    AllocSoundIff(Empty(capacity), UINT_LIMIT);
  }

  /** Freeing a live chunk changes only that chunk's state. */
  lemma FreeCorrect(a: Arena, i: nat)
    requires Inv(a) && i < |a.chunks| && a.chunks[i].live
    ensures var r := Free(a, i);
            && Inv(r) && r.capacity == a.capacity && End(r) == End(a) && |r.chunks| == |a.chunks|
            && r.chunks[i] == a.chunks[i].(live := false)
            && (forall j :: 0 <= j < |a.chunks| && j != i ==> r.chunks[j] == a.chunks[j])
            && r.free == [a.chunks[i].off] + a.free
  {
    FreeInv(a, i);
  }

  // ----- whole runs

  /** A call names the chunk whose pointer it passes. */
  datatype Call = CallAlloc(size: nat) | CallFree(chunk: nat) | CallRealloc(chunk: nat, size: nat)

  /** Callers pass safe sizes and pointers they still hold. */
  predicate Legal(a: Arena, c: Call) {
    match c
    case CallAlloc(size) => Safe(a, size)
    case CallFree(i) => i < |a.chunks| && a.chunks[i].live
    case CallRealloc(i, size) => i < |a.chunks| && a.chunks[i].live && Safe(a, size)
  }

  ghost function Step(a: Arena, c: Call): (r: Arena)
    requires Inv(a) && Legal(a, c)
    ensures Inv(r) && r.capacity == a.capacity && |a.chunks| <= |r.chunks|
  {
    match c
    case CallAlloc(size) => AllocCorrect(a, size); Alloc(a, size)
    case CallFree(i) => FreeCorrect(a, i); Free(a, i)
    case CallRealloc(i, size) =>
      if size == 0 then FreeCorrect(a, i); Free(a, i)
      else
        AllocCorrect(a, size);
        if AllocIndex(a, size) == |Alloc(a, size).chunks| then a
        else FreeCorrect(Alloc(a, size), i); Free(Alloc(a, size), i)
  }

  ghost predicate LegalRun(a: Arena, cs: seq<Call>)
    requires Inv(a)
    decreases |cs|
  {
    cs != [] ==> Legal(a, cs[0]) && LegalRun(Step(a, cs[0]), cs[1..])
  }

  ghost function Run(a: Arena, cs: seq<Call>): (r: Arena)
    requires Inv(a) && LegalRun(a, cs)
    ensures Inv(r) && r.capacity == a.capacity
    decreases |cs|
  {
    if cs == [] then a else Run(Step(a, cs[0]), cs[1..])
  }

  ghost function Empty(capacity: nat): (a: Arena)
    requires capacity < UINT_LIMIT
    ensures Inv(a) && a.capacity == capacity
  {
    Arena(capacity, [], [])
  }

  /**
   * After any legal run from an empty arena no two chunks share a byte, each recorded size fits its chunk, each
   * chunk has room for a free-list node, and all lie below the bump offset and inside the arena.
   */
  lemma RunsStaySound(capacity: nat, cs: seq<Call>, i: nat, j: nat)
    requires capacity < UINT_LIMIT && LegalRun(Empty(capacity), cs)
    requires i < |Run(Empty(capacity), cs).chunks| && j < |Run(Empty(capacity), cs).chunks| && i != j
    ensures var a := Run(Empty(capacity), cs);
            var c, d := a.chunks[i], a.chunks[j];
            && (EndOf(c) <= d.off || EndOf(d) <= c.off)
            && c.off + HDR_SIZE + c.size <= EndOf(c) <= End(a) <= capacity
            && c.off + 16 <= EndOf(c) && (c.off + HDR_SIZE) % ARENA_ALIGN == 0
  {
    hide LegalRun, Run, ChunkOk, Adjacent, FreeAt, Distinct;
    var a := Run(Empty(capacity), cs);
    assert Tiles(a);
    hide Inv, Tiles;
    ChunksDisjoint(a, i, j);
    Inside(a, i);
    PayloadAligned(a.chunks[i]);
  }

  lemma PayloadAligned(c: Chunk)
    requires ChunkOk(c)
    ensures (c.off + HDR_SIZE) % ARENA_ALIGN == 0
  {
  }
}

/** Headers and free-list nodes as bytes of the arena. */
module ArenaWords {
  import opened Seqs
  import opened Bytes
  import opened ArenaSpec

  /** The null-terminated list of addresses that starts with the first of `free`. */
  function ListPtr(base: nat, free: seq<nat>): nat {
    if free == [] then 0 else base + free[0]
  }

  /** A live chunk starts with its size; a free one keeps its size in the node's second word. */
  ghost predicate SizeOk(m: seq<byte>, c: Chunk)
    requires c.off + 16 <= |m|
  {
    Load(m, if c.live then c.off else c.off + 8) == c.size
  }

  ghost predicate LinkOk(m: seq<byte>, base: nat, free: seq<nat>, k: nat)
    requires k < |free|
  {
    free[k] + 8 <= |m| && Load(m, free[k]) == ListPtr(base, free[k + 1..])
  }

  ghost predicate Chain(m: seq<byte>, base: nat, head: nat, free: seq<nat>) {
    && head == ListPtr(base, free)
    && (forall k :: 0 <= k < |free| ==> LinkOk(m, base, free, k))
  }

  ghost predicate Sizes(m: seq<byte>, a: Arena) {
    forall i :: 0 <= i < |a.chunks| ==> a.chunks[i].off + 16 <= |m| && SizeOk(m, a.chunks[i])
  }

  ghost predicate Represents(m: seq<byte>, base: nat, head: nat, bump: nat, a: Arena) {
    && Inv(a) && |m| == a.capacity && bump == End(a)
    && base > 0 && base + a.capacity < WORD_LIMIT
    && Sizes(m, a) && Chain(m, base, head, a.free)
  }

  lemma ChainFrame(m: seq<byte>, m': seq<byte>, base: nat, head: nat, free: seq<nat>)
    requires Chain(m, base, head, free)
    requires forall k :: 0 <= k < |free| ==> Same(m, m', free[k], free[k] + 8)
    ensures Chain(m', base, head, free)
  {
    forall k | 0 <= k < |free| ensures LinkOk(m', base, free, k) {
      assert LinkOk(m, base, free, k);
      LoadSame(m, m', free[k]);
    }
  }

  /** *pp = node->next, with pp the list head or the node before. */
  function UnlinkedMem(m: seq<byte>, free: seq<nat>, k: nat): (r: seq<byte>)
    requires k < |free| && forall j :: 0 <= j < |free| ==> free[j] + 8 <= |m|
    ensures |r| == |m|
  {
    if k == 0 then m else Store(m, free[k - 1], Load(m, free[k]))
  }

  function UnlinkedHead(m: seq<byte>, base: nat, free: seq<nat>, k: nat): nat
    requires k < |free| && forall j :: 0 <= j < |free| ==> free[j] + 8 <= |m|
  {
    if k == 0 then Load(m, free[0]) else base + free[0]
  }

  /** Nodes do not overlap one another. */
  ghost predicate Spread(free: seq<nat>) {
    forall i, j :: 0 <= i < |free| && 0 <= j < |free| && i != j ==> free[i] + 16 <= free[j] || free[j] + 16 <= free[i]
  }

  lemma UnlinkChain(m: seq<byte>, base: nat, head: nat, free: seq<nat>, k: nat)
    requires Chain(m, base, head, free) && Spread(free) && k < |free|
    requires forall j :: 0 <= j < |free| ==> free[j] + 8 <= |m| && base + free[j] < WORD_LIMIT
    ensures Chain(UnlinkedMem(m, free, k), base, UnlinkedHead(m, base, free, k), RemoveAt(free, k))
  {
    var r, m' := RemoveAt(free, k), UnlinkedMem(m, free, k);
    assert LinkOk(m, base, free, k);
    assert k == 0 ==> r == free[1..];
    forall j | 0 <= j < |r| ensures LinkOk(m', base, r, j) {
      if j == k - 1 {
        assert r[k..] == free[k + 1..];
        LoadStored(m, free[j], Load(m, free[k]));
      } else {
        var i := if j < k then j else j + 1;
        assert LinkOk(m, base, free, i);
        if k > 0 { StoreElsewhere(m, free[k - 1], Load(m, free[k]), free[i], free[i] + 8); }
        LoadSame(m, m', free[i]);
        if j < k { assert r[j + 1] == free[j + 1]; } else { assert r[j + 1..] == free[j + 2..]; }
      }
    }
  }

  lemma PushChain(m: seq<byte>, base: nat, head: nat, free: seq<nat>, o: nat, m': seq<byte>)
    requires Chain(m, base, head, free) && o + 8 <= |m'| && Load(m', o) == head
    requires forall k :: 0 <= k < |free| ==> Same(m, m', free[k], free[k] + 8)
    ensures Chain(m', base, base + o, [o] + free)
  {
    var r := [o] + free;
    forall k | 0 <= k < |r| ensures LinkOk(m', base, r, k) {
      if k == 0 {
        assert r[1..] == free;
      } else {
        assert r[k + 1..] == free[k..];
        assert LinkOk(m, base, free, k - 1);
        LoadSame(m, m', free[k - 1]);
      }
    }
  }

  lemma ListSpread(a: Arena)
    requires Inv(a)
    ensures Spread(a.free)
    ensures forall k :: 0 <= k < |a.free| ==> a.free[k] + 16 <= a.capacity
  {
    forall k | 0 <= k < |a.free| ensures a.free[k] + 16 <= a.capacity { Inside(a, ListedIndex(a, k)); }
    forall i, j | 0 <= i < |a.free| && 0 <= j < |a.free| && i != j
      ensures a.free[i] + 16 <= a.free[j] || a.free[j] + 16 <= a.free[i]
    {
      assert a.free[i] != a.free[j];
      Inside(a, ListedIndex(a, i));
      Inside(a, ListedIndex(a, j));
      ChunksDisjoint(a, ListedIndex(a, i), ListedIndex(a, j));
    }
  }

  /** No byte of a live chunk differs between the two memories. */
  ghost predicate LiveKept(m: seq<byte>, m': seq<byte>, a: Arena) {
    forall j :: 0 <= j < |a.chunks| && a.chunks[j].live ==> Same(m, m', a.chunks[j].off, EndOf(a.chunks[j]))
  }

  lemma ListIsInside(m: seq<byte>, base: nat, head: nat, bump: nat, a: Arena)
    requires Represents(m, base, head, bump, a)
    ensures base > 0 && head == ListPtr(base, a.free)
    ensures forall k :: 0 <= k < |a.free| ==> a.free[k] + 8 <= |m|
  {
    ListSpread(a);
  }

  lemma NothingChanged(m: seq<byte>, a: Arena)
    requires Inv(a) && |m| == a.capacity
    ensures LiveKept(m, m, a)
  {
    forall j | 0 <= j < |a.chunks| ensures Same(m, m, a.chunks[j].off, EndOf(a.chunks[j])) { Inside(a, j); }
  }

  lemma SizeSame(m: seq<byte>, m': seq<byte>, c: Chunk)
    requires c.off + 16 <= |m| && |m| == |m'| && SizeOk(m, c)
    requires if c.live then Same(m, m', c.off, c.off + 8) else Same(m, m', c.off + 8, c.off + 16)
    ensures SizeOk(m', c)
  {
    LoadSame(m, m', if c.live then c.off else c.off + 8);
  }

  /** Unlinking a node writes only inside one other free chunk's first word. */
  lemma UnlinkTouches(m: seq<byte>, a: Arena, k: nat, j: nat)
    requires Inv(a) && |m| == a.capacity && k < |a.free| && j < |a.chunks|
    requires forall x :: 0 <= x < |a.free| ==> a.free[x] + 8 <= |m|
    ensures Same(m, UnlinkedMem(m, a.free, k), a.chunks[j].off + 8, EndOf(a.chunks[j]))
    ensures a.chunks[j].live ==> Same(m, UnlinkedMem(m, a.free, k), a.chunks[j].off, EndOf(a.chunks[j]))
  {
    Inside(a, j);
    if k > 0 {
      var p := ListedIndex(a, k - 1);
      Inside(a, p);
      if p != j { ChunksDisjoint(a, p, j); }
    }
  }

  lemma ReuseWords(m: seq<byte>, base: nat, head: nat, bump: nat, a: Arena, k: nat, size: nat)
    requires Represents(m, base, head, bump, a) && k < |a.free| && 0 < size <= ListedSize(a, k)
    requires forall x :: 0 <= x < |a.free| ==> a.free[x] + 8 <= |m|
    ensures var m' := Store(UnlinkedMem(m, a.free, k), a.free[k], size);
            && Represents(m', base, UnlinkedHead(m, base, a.free, k), bump, Reuse(a, k, size))
            && LiveKept(m, m', a)
  {
    ListSpread(a);
    ReuseInv(a, k, size);
    UnlinkChain(m, base, head, a.free, k);
    var i, r := ListedIndex(a, k), Reuse(a, k, size);
    var m1 := UnlinkedMem(m, a.free, k);
    var m2 := Store(m1, a.free[k], size);
    Inside(a, i);
    LoadStored(m1, a.free[k], size);
    ChainFrame(m1, m2, base, UnlinkedHead(m, base, a.free, k), RemoveAt(a.free, k));
    forall j | 0 <= j < |r.chunks|
      ensures r.chunks[j].off + 16 <= |m2| && SizeOk(m2, r.chunks[j])
      ensures a.chunks[j].live ==> Same(m, m2, a.chunks[j].off, EndOf(a.chunks[j]))
    {
      Inside(a, j);
      if j != i {
        UnlinkTouches(m, a, k, j);
        ChunksDisjoint(a, i, j);
        StoreElsewhere(m1, a.free[k], size, a.chunks[j].off, EndOf(a.chunks[j]));
        SizeSame(m, m2, a.chunks[j]);
      }
    }
  }

  lemma CarveWords(m: seq<byte>, base: nat, head: nat, bump: nat, a: Arena, size: nat)
    requires Represents(m, base, head, bump, a) && 0 < size <= MAX_REQUEST && HasRoom(a, size)
    ensures bump + 8 <= |m|
    ensures var m' := Store(m, bump, size);
            && Represents(m', base, head, bump + Need(size), Carve(a, size))
            && LiveKept(m, m', a)
  {
    NeedCoversRequest(size);
    CarveInv(a, size);
    hide Need;
    ListSpread(a);
    var m', r := Store(m, bump, size), Carve(a, size);
    LoadStored(m, bump, size);
    forall k | 0 <= k < |a.free| ensures Same(m, m', a.free[k], a.free[k] + 8) { Inside(a, ListedIndex(a, k)); }
    ChainFrame(m, m', base, head, a.free);
    forall j | 0 <= j < |a.chunks|
      ensures r.chunks[j].off + 16 <= |m'| && SizeOk(m', r.chunks[j])
      ensures Same(m, m', a.chunks[j].off, EndOf(a.chunks[j]))
    {
      Inside(a, j);
      SizeSame(m, m', a.chunks[j]);
    }
  }

  /** The two words of the node that free writes over header and payload. */
  function NodeStored(m: seq<byte>, o: nat, size: nat, next: nat): (r: seq<byte>)
    requires o + 16 <= |m|
    ensures |r| == |m|
  {
    Store(Store(m, o + 8, size), o, next)
  }

  /** Nothing differs outside the sixteen bytes at `o`. */
  ghost predicate OnlyNode(m: seq<byte>, m': seq<byte>, o: nat) {
    |m'| == |m| && forall lo, hi :: 0 <= lo && 0 <= hi <= |m| && (hi <= o || o + 16 <= lo) ==> Same(m, m', lo, hi)
  }

  lemma NodeWords(m: seq<byte>, o: nat, size: nat, next: nat)
    requires o + 16 <= |m| && size < WORD_LIMIT && next < WORD_LIMIT
    ensures var m' := NodeStored(m, o, size, next);
            Load(m', o) == next && Load(m', o + 8) == size && OnlyNode(m, m', o)
  {
    var m1 := Store(m, o + 8, size);
    LoadStored(m, o + 8, size);
    LoadStored(m1, o, next);
    StoreElsewhere(m1, o, next, o + 8, o + 16);
    LoadSame(m1, Store(m1, o, next), o + 8);
  }

  lemma NodeSparesLink(m: seq<byte>, m': seq<byte>, a: Arena, i: nat, k: nat)
    requires Inv(a) && |m| == a.capacity && i < |a.chunks| && a.chunks[i].live && k < |a.free|
    requires OnlyNode(m, m', a.chunks[i].off)
    ensures Same(m, m', a.free[k], a.free[k] + 8)
  {
    hide Same;
    var j := ListedIndex(a, k);
    Inside(a, j);
    ChunksDisjoint(a, i, j);
    ChunksDisjoint(a, j, i);
  }

  lemma NodeSparesChunk(m: seq<byte>, m': seq<byte>, a: Arena, i: nat, j: nat)
    requires Inv(a) && |m| == a.capacity && Sizes(m, a) && i < |a.chunks| && j < |a.chunks| && i != j
    requires OnlyNode(m, m', a.chunks[i].off)
    ensures a.chunks[j].off + 16 <= |m'| && SizeOk(m', a.chunks[j])
    ensures Same(m, m', a.chunks[j].off, EndOf(a.chunks[j]))
  {
    Inside(a, j);
    ChunksDisjoint(a, i, j);
    assert Same(m, m', a.chunks[j].off, EndOf(a.chunks[j]));
    SizeSame(m, m', a.chunks[j]);
  }

  lemma FreeWords(m: seq<byte>, base: nat, head: nat, bump: nat, a: Arena, i: nat)
    requires Represents(m, base, head, bump, a) && i < |a.chunks| && a.chunks[i].live
    ensures var o := a.chunks[i].off;
            && o + 16 <= |m|
            && var m' := NodeStored(m, o, a.chunks[i].size, head);
            && Represents(m', base, base + o, bump, Free(a, i))
            && LiveKept(m, m', Free(a, i))
  {
    FreeInv(a, i);
    ListSpread(a);
    Inside(a, i);
    var c, r := a.chunks[i], Free(a, i);
    NodeWords(m, c.off, c.size, head);
    var m' := NodeStored(m, c.off, c.size, head);
    hide NodeStored, Inv, Spread, OnlyNode, Same;
    forall k | 0 <= k < |a.free| ensures Same(m, m', a.free[k], a.free[k] + 8) { NodeSparesLink(m, m', a, i, k); }
    PushChain(m, base, head, a.free, c.off, m');
    forall j | 0 <= j < |a.chunks| && j != i
      ensures a.chunks[j].off + 16 <= |m'| && SizeOk(m', a.chunks[j])
      ensures Same(m, m', a.chunks[j].off, EndOf(a.chunks[j]))
    {
      NodeSparesChunk(m, m', a, i, j);
    }
  }

  /** Bytes may differ only in the payload of chunk `i`. */
  ghost predicate OnlyPayload(m: seq<byte>, m': seq<byte>, a: Arena, i: nat)
    requires i < |a.chunks|
  {
    && |m| == |m'|
    && forall x :: 0 <= x < |m| && !(a.chunks[i].off + HDR_SIZE <= x < EndOf(a.chunks[i])) ==> m[x] == m'[x]
  }

  /** Whatever an owner writes into its payload, the allocator's own data and other owners' bytes are untouched. */
  lemma PayloadIsTheOwners(m: seq<byte>, m': seq<byte>, base: nat, head: nat, bump: nat, a: Arena, i: nat)
    requires Represents(m, base, head, bump, a) && i < |a.chunks| && a.chunks[i].live
    requires OnlyPayload(m, m', a, i)
    ensures Represents(m', base, head, bump, a)
    ensures forall j :: 0 <= j < |a.chunks| && j != i ==> Same(m, m', a.chunks[j].off, EndOf(a.chunks[j]))
  {
    ListSpread(a);
    forall j | 0 <= j < |a.chunks| && j != i ensures Same(m, m', a.chunks[j].off, EndOf(a.chunks[j])) {
      Inside(a, j);
      ChunksDisjoint(a, i, j);
    }
    forall k | 0 <= k < |a.free| ensures Same(m, m', a.free[k], a.free[k] + 8) {
      var j := ListedIndex(a, k);
      Inside(a, j);
      ChunksDisjoint(a, i, j);
    }
    ChainFrame(m, m', base, head, a.free);
    forall j | 0 <= j < |a.chunks| ensures a.chunks[j].off + 16 <= |m'| && SizeOk(m', a.chunks[j]) {
      Inside(a, j);
      SizeSame(m, m', a.chunks[j]);
    }
  }
}

/** The allocator's entry points on one arena's bytes, bump offset and list head. */
module DomainArena {
  import opened Basics
  import opened Seqs
  import opened Bytes
  import opened ArenaSpec
  import opened ArenaWords

  /** The first bytes of the two payloads agree, as far as both go. */
  ghost predicate Kept(m: seq<byte>, c: Chunk, m': seq<byte>, d: Chunk) {
    var n := if c.size < d.size then c.size else d.size;
    var x, y := c.off + HDR_SIZE, d.off + HDR_SIZE;
    x + n <= |m| && y + n <= |m'| && m[x..x + n] == m'[y..y + n]
  }

  /** Chunks that are live and the same before and after have kept all their bytes. */
  ghost predicate OthersKept(m: seq<byte>, m': seq<byte>, a: Arena, a': Arena) {
    forall j :: 0 <= j < |a.chunks| && j < |a'.chunks| && a.chunks[j].live && a'.chunks[j] == a.chunks[j] ==>
      Same(m, m', a.chunks[j].off, EndOf(a.chunks[j]))
  }

  ghost predicate Zeroed(m: seq<byte>, o: int, n: nat) {
    0 <= o && o + n <= |m| && forall x :: o <= x < o + n ==> m[x] == 0
  }

  lemma LiveKeptOthers(m: seq<byte>, m': seq<byte>, a: Arena, a': Arena, of: Arena)
    requires LiveKept(m, m', of) && (of == a || of == a')
    ensures OthersKept(m, m', a, a')
  {
  }

  lemma OwnedChunk(m: seq<byte>, base: nat, head: nat, bump: nat, a: Arena, i: nat)
    requires Represents(m, base, head, bump, a) && i < |a.chunks| && a.chunks[i].live
    ensures var c := a.chunks[i];
            && 0 < c.size && c.off + HDR_SIZE + c.size <= EndOf(c) <= |m|
            && Load(m, c.off) == c.size && Inv(a) && |m| == a.capacity
  {
    Inside(a, i);
    assert SizeOk(m, a.chunks[i]);
  }

  lemma ChunksApart(a: Arena, i: nat, j: nat)
    requires Inv(a) && i < |a.chunks| && j < |a.chunks| && i != j
    ensures EndOf(a.chunks[i]) <= a.chunks[j].off || EndOf(a.chunks[j]) <= a.chunks[i].off
  {
    ChunksDisjoint(a, i, j);
  }

  /** An allocation while chunk `i` is live picks another chunk and leaves `i` alone. */
  lemma AllocMoves(a: Arena, size: nat, i: nat)
    requires Inv(a) && Safe(a, size) && i < |a.chunks| && a.chunks[i].live
    ensures var r, j := Alloc(a, size), AllocIndex(a, size);
            && i < |a.chunks| <= |r.chunks| && j != i
            && (if j == |r.chunks| then r == a
                else r.chunks[i] == a.chunks[i] && r.chunks[j].live && r.chunks[j].size == size
                     && (j < |a.chunks| ==> !a.chunks[j].live))
  {
    AllocCorrect(a, size);
  }

  lemma RepresentsInv(m: seq<byte>, base: nat, head: nat, bump: nat, a: Arena)
    requires Represents(m, base, head, bump, a)
    ensures Inv(a) && |m| == a.capacity
  {
  }

  /** nmemb > SIZE_MAX / size is the same as the product not fitting in 64 bits. */
  lemma WrapTest(nmemb: nat, size: nat)
    ensures size != 0 ==> (nmemb > (WORD_LIMIT - 1) / size <==> nmemb * size >= WORD_LIMIT)
  {
    if size != 0 {
      var q := (WORD_LIMIT - 1) / size;
      assert q * size <= WORD_LIMIT - 1 < (q + 1) * size;
      if nmemb > q { MulMonotone(q + 1, nmemb, size); } else { MulMonotone(nmemb, q, size); }
    }
  }

  lemma ZeroKeepsOthers(m0: seq<byte>, m1: seq<byte>, m2: seq<byte>, a: Arena, r: Arena, j: nat)
    requires j < |r.chunks| && (j < |a.chunks| ==> !a.chunks[j].live) && OthersKept(m0, m1, a, r)
    requires forall x :: 0 <= x < |r.chunks| && x != j ==> Same(m1, m2, r.chunks[x].off, EndOf(r.chunks[x]))
    ensures OthersKept(m0, m2, a, r)
  {
    forall x | 0 <= x < |a.chunks| && x < |r.chunks| && a.chunks[x].live && r.chunks[x] == a.chunks[x]
      ensures Same(m0, m2, a.chunks[x].off, EndOf(a.chunks[x]))
    {
      assert Same(m0, m1, a.chunks[x].off, EndOf(a.chunks[x]));
      assert Same(m1, m2, r.chunks[x].off, EndOf(r.chunks[x]));
    }
  }

  /** The first `n` payload bytes of chunk `i` have gone to chunk `j`, and no other live chunk has changed. */
  ghost predicate Moved(m: seq<byte>, m': seq<byte>, r: Arena, i: nat, j: nat, n: nat)
    requires i < |r.chunks| && j < |r.chunks|
  {
    && |m'| == |m|
    && var src, dst := r.chunks[i].off + HDR_SIZE, r.chunks[j].off + HDR_SIZE;
    && src + n <= |m| && dst + n <= |m| && m'[dst..dst + n] == m[src..src + n]
    && forall x :: 0 <= x < |r.chunks| && r.chunks[x].live && x != i && x != j ==>
         Same(m, m', r.chunks[x].off, EndOf(r.chunks[x]))
  }

  lemma MovedBytes(m1: seq<byte>, m2: seq<byte>, m3: seq<byte>, r: Arena, i: nat, j: nat, n: nat)
    requires i < |r.chunks| && j < |r.chunks| && i != j && r.chunks[j].live && |m1| == |m2| == |m3|
    requires forall x :: 0 <= x < |r.chunks| && x != j ==> Same(m1, m2, r.chunks[x].off, EndOf(r.chunks[x]))
    requires LiveKept(m2, m3, Free(r, i))
    requires r.chunks[i].off + HDR_SIZE + n <= |m1| && r.chunks[j].off + HDR_SIZE + n <= EndOf(r.chunks[j]) <= |m1|
    requires m2[r.chunks[j].off + HDR_SIZE..r.chunks[j].off + HDR_SIZE + n]
             == m1[r.chunks[i].off + HDR_SIZE..r.chunks[i].off + HDR_SIZE + n]
    ensures Moved(m1, m3, r, i, j, n)
  {
    var f, d := Free(r, i), r.chunks[j];
    assert f.chunks[j] == d;
    assert Same(m2, m3, d.off, EndOf(d));
    assert m3[d.off + HDR_SIZE..d.off + HDR_SIZE + n] == m2[d.off + HDR_SIZE..d.off + HDR_SIZE + n];
    forall x | 0 <= x < |r.chunks| && r.chunks[x].live && x != i && x != j
      ensures Same(m1, m3, r.chunks[x].off, EndOf(r.chunks[x]))
    {
      assert f.chunks[x] == r.chunks[x];
      assert Same(m1, m2, r.chunks[x].off, EndOf(r.chunks[x])) && Same(m2, m3, r.chunks[x].off, EndOf(r.chunks[x]));
    }
  }

  lemma ReallocBytes(m0: seq<byte>, m1: seq<byte>, m3: seq<byte>, a: Arena, r: Arena, i: nat, j: nat, n: nat)
    requires i < |a.chunks| <= |r.chunks| && j < |r.chunks| && j != i
    requires a.chunks[i].live && r.chunks[i] == a.chunks[i] && r.chunks[j].live && (j < |a.chunks| ==> !a.chunks[j].live)
    requires LiveKept(m0, m1, a) && Moved(m1, m3, r, i, j, n)
    requires n == if a.chunks[i].size < r.chunks[j].size then a.chunks[i].size else r.chunks[j].size
    requires a.chunks[i].off + HDR_SIZE + n <= EndOf(a.chunks[i]) <= |m1| == |m0|
    ensures Kept(m0, a.chunks[i], m3, Free(r, i).chunks[j])
    ensures OthersKept(m0, m3, a, Free(r, i))
  {
    var c, f := a.chunks[i], Free(r, i);
    assert Same(m0, m1, c.off, EndOf(c));
    assert m0[c.off + HDR_SIZE..c.off + HDR_SIZE + n] == m1[c.off + HDR_SIZE..c.off + HDR_SIZE + n];
    forall x | 0 <= x < |a.chunks| && a.chunks[x].live && f.chunks[x] == a.chunks[x]
      ensures Same(m0, m3, a.chunks[x].off, EndOf(a.chunks[x]))
    {
      assert x != i && x != j && f.chunks[x] == r.chunks[x];
      assert Same(m0, m1, a.chunks[x].off, EndOf(a.chunks[x])) && Same(m1, m3, r.chunks[x].off, EndOf(r.chunks[x]));
    }
  }

  class ArenaAllocator {
    const base: nat
    const mem: array<byte>
    var bump: nat
    var freelist: nat

    ghost var view: Arena

    ghost predicate Valid()
      reads this, mem
    {
      Represents(mem[..], base, freelist, bump, view)
    }

    /** The address handed out for chunk `i`; null when there is no such chunk. */
    ghost function PtrOf(a: Arena, i: nat): nat {
      if i < |a.chunks| then base + a.chunks[i].off + HDR_SIZE else 0
    }

    constructor (base: nat, capacity: nat)
      requires base > 0 && base + capacity < WORD_LIMIT && capacity < UINT_LIMIT
      ensures Valid() && fresh(mem) && view == Arena(capacity, [], []) && this.base == base
    {
      this.base := base;
      mem := new byte[capacity](i => 0);
      bump, freelist := 0, 0;
      view := Arena(capacity, [], []);
    }

    /** arena_owns */
    predicate Owns(addr: int) {
      base <= addr < base + mem.Length
    }

    method StoreWord(o: nat, v: nat)
      requires o + 8 <= mem.Length
      modifies mem
      ensures mem[..] == Store(old(mem[..]), o, v)
    {
      var bs := ToLE(v, 8);
      forall i | 0 <= i < 8 { mem[o + i] := bs[i]; }
    }

    /** The first-fit search: the node it stopped at, as an address, and the node before it. */
    method FindFit(size: nat) returns (prev: nat, node: nat)
      requires Valid()
      ensures var k := FitFrom(view, size, 0);
              node == ListPtr(base, view.free[k..]) && prev == if k == 0 then 0 else base + view.free[k - 1]
    {
      hide LiveKept, Store, Load, Spread, Distinct, FreeAt;
      ListSpread(view);
      ghost var k := 0;
      prev, node := 0, freelist;
      while node != 0
        invariant k <= |view.free| && FitFrom(view, size, 0) == FitFrom(view, size, k)
        invariant node == ListPtr(base, view.free[k..])
        invariant prev == if k == 0 then 0 else base + view.free[k - 1]
        decreases |view.free| - k
      {
        assert k < |view.free| && view.free[k..][0] == view.free[k];
        ghost var i := ListedIndex(view, k);
        Inside(view, i);
        assert SizeOk(mem[..], view.chunks[i]);
        if Load(mem[..], node - base + 8) >= size {
          return;
        }
        assert LinkOk(mem[..], base, view.free, k);
        prev, node, k := node, Load(mem[..], node - base), k + 1;
      }
      assert view.free[k..] == [];
    }

    /** mem_domain_alloc_nolock */
    method AllocNolock(size: nat) returns (ptr: nat, fault: bool)
      requires Valid() && size < WORD_LIMIT
      modifies this`bump, this`freelist, this`view, mem
      ensures fault <==> !Safe(old(view), size) && old(bump) + HDR_SIZE > mem.Length
      ensures !fault ==> view == Alloc(old(view), size) && ptr == PtrOf(view, AllocIndex(old(view), size))
      ensures Safe(old(view), size) ==>
                Valid() && LiveKept(old(mem[..]), mem[..], old(view)) && (ptr == 0 ==> mem[..] == old(mem[..]))
      ensures !fault && !Safe(old(view), size) ==>
                && mem[..] == Store(old(mem[..]), old(bump), size) && ptr == base + old(bump) + HDR_SIZE
                && bump == old(bump) + Need(size) && freelist == old(freelist)
    {
      hide Inv, Sizes, Chain, Store, AlignUp, Same, LiveKept;
      NothingChanged(mem[..], view);
      fault := false;
      if size == 0 {
        return 0, false;
      }
      var need := AlignUp((HDR_SIZE + size) % WORD_LIMIT);
      var prev, node := FindFit(size);
      ghost var k := FitFrom(view, size, 0);
      if size > MAX_REQUEST { LargeNeverFits(view, size); }
      if node != 0 {
        assert view.free[k..][0] == view.free[k];
        TakeNode(prev, node, size, k);
        return node + HDR_SIZE, false;
      }
      assert k == |view.free|;
      if (bump + need) % WORD_LIMIT <= mem.Length {
        ptr, fault := BumpBy(need, size);
        return;
      }
      return 0, false;
    }

    /** The bump allocation; `fault` is a header stored outside the arena. */
    method BumpBy(need: nat, size: nat) returns (ptr: nat, fault: bool)
      requires Valid() && 0 < size < WORD_LIMIT && need == Need(size) && HasRoom(view, size)
      modifies this`bump, this`view, mem
      ensures fault <==> size > MAX_REQUEST && old(bump) + HDR_SIZE > mem.Length
      ensures size <= MAX_REQUEST ==> Valid() && LiveKept(old(mem[..]), mem[..], old(view))
      ensures !fault ==>
                && view == Carve(old(view), size) && mem[..] == Store(old(mem[..]), old(bump), size)
                && ptr == base + old(bump) + HDR_SIZE && bump == old(bump) + need
    {
      if size <= MAX_REQUEST { CarveWords(mem[..], base, freelist, bump, view, size); }
      hide Need, HasRoom, Represents, Store, LiveKept, Carve;
      if bump + HDR_SIZE > mem.Length {
        return 0, true;
      }
      StoreWord(bump, size);
      ptr := base + bump + HDR_SIZE;
      bump := bump + need;
      view := Carve(view, size);
      return ptr, false;
    }

    /** Unlinks a fitting node and gives it to the caller. */
    method TakeNode(prev: nat, node: nat, size: nat, ghost k: nat)
      requires Valid() && k < |view.free| && 0 < size <= ListedSize(view, k)
      requires node == base + view.free[k] && prev == if k == 0 then 0 else base + view.free[k - 1]
      modifies this`freelist, this`view, mem
      ensures Valid() && view == Reuse(old(view), k, size)
      ensures LiveKept(old(mem[..]), mem[..], old(view))
    {
      ListIsInside(mem[..], base, freelist, bump, view);
      hide Represents, Inv, LiveKept, Store, Load, ListedSize, Reuse;
      ReuseWords(mem[..], base, freelist, bump, view, k, size);
      UnlinkNode(prev, node, view.free, k);
      StoreWord(node - base, size);
      view := Reuse(view, k, size);
    }

    /** *pp = node->next */
    method UnlinkNode(prev: nat, node: nat, ghost free: seq<nat>, ghost k: nat)
      requires base > 0 && freelist == ListPtr(base, free) && k < |free|
      requires forall x :: 0 <= x < |free| ==> free[x] + 8 <= mem.Length
      requires node == base + free[k] && prev == if k == 0 then 0 else base + free[k - 1]
      modifies this`freelist, mem
      ensures mem[..] == UnlinkedMem(old(mem[..]), free, k)
      ensures freelist == UnlinkedHead(old(mem[..]), base, free, k)
    {
      hide Store, Load;
      var next := Load(mem[..], node - base);
      if prev == 0 {
        freelist := next;
      } else {
        StoreWord(prev - base, next);
      }
    }

    /**
     * The arena's panic on a pointer it does not own is the result `true`; a pointer it
     * does own must be one it handed out and has not been given back.
     */
    method FreeNolock(ptr: nat, ghost i: nat) returns (panic: bool)
      requires Valid()
      requires ptr != 0 && Owns(ptr - HDR_SIZE) ==>
                 i < |view.chunks| && view.chunks[i].live && ptr == PtrOf(view, i)
      modifies this`freelist, this`view, mem
      ensures Valid()
      ensures panic == (ptr != 0 && !Owns(ptr - HDR_SIZE))
      ensures view == if ptr == 0 || panic then old(view) else Free(old(view), i)
      ensures LiveKept(old(mem[..]), mem[..], view)
    {
      NothingChanged(mem[..], view);
      if ptr == 0 {
        return false;
      }
      var hdr := ptr - HDR_SIZE;
      if !Owns(hdr) {
        return true;
      }
      assert SizeOk(mem[..], view.chunks[i]);
      hide Inv, Sizes, Chain, LiveKept, Store, Load;
      FreeWords(mem[..], base, freelist, bump, view, i);
      var dataSize := Load(mem[..], hdr - base);
      StoreWord(hdr - base + 8, dataSize);
      StoreWord(hdr - base, freelist);
      freelist := hdr;
      view := Free(view, i);
      return false;
    }

    /** Copies between two places that do not overlap. */
    method CopyBytes(dst: nat, src: nat, n: nat)
      requires dst + n <= mem.Length && src + n <= mem.Length && (dst + n <= src || src + n <= dst)
      modifies mem
      ensures mem[..][dst..dst + n] == old(mem[..])[src..src + n]
      ensures forall x :: 0 <= x < mem.Length && !(dst <= x < dst + n) ==> mem[x] == old(mem[x])
    {
      ghost var was := mem[..];
      for i := 0 to n
        invariant forall x :: dst <= x < dst + i ==> mem[x] == was[x - dst + src]
        invariant forall x :: 0 <= x < mem.Length && !(dst <= x < dst + i) ==> mem[x] == old(mem[x])
      {
        mem[dst + i] := mem[src + i];
      }
    }

    /**
     * On success the new chunk is a different one, holds the first min(old, new) bytes of the old
     * payload, and the old chunk has been given back.  Every other live chunk keeps its bytes.
     */
    method Realloc(ptr: nat, size: nat, ghost i: nat) returns (np: nat, panic: bool)
      requires Valid() && Safe(view, size)
      requires ptr != 0 ==> i < |view.chunks| && view.chunks[i].live && ptr == PtrOf(view, i)
      modifies this, mem
      ensures Valid() && !panic
      ensures ptr == 0 ==> view == Alloc(old(view), size) && np == PtrOf(view, AllocIndex(old(view), size))
      ensures ptr != 0 && size == 0 ==> view == Free(old(view), i) && np == 0
      ensures ptr != 0 && size != 0 ==>
                var r, j := Alloc(old(view), size), AllocIndex(old(view), size);
                if j == |r.chunks| then np == 0 && view == old(view) && mem[..] == old(mem[..])
                else
                  && j != i && i < |r.chunks| && view == Free(r, i) && np == PtrOf(view, j)
                  && Kept(old(mem[..]), old(view).chunks[i], mem[..], view.chunks[j])
      ensures OthersKept(old(mem[..]), mem[..], old(view), view)
    {
      hide Inv, Represents, Alloc, AllocIndex, Same, Free, LiveKept, Kept, OthersKept;
      ghost var m0, a := mem[..], view;
      panic := false;
      if ptr == 0 {
        var fault;
        np, fault := AllocNolock(size);
        LiveKeptOthers(m0, mem[..], a, view, a);
      } else if size == 0 {
        OwnedChunk(m0, base, freelist, bump, view, i);
        panic := FreeNolock(ptr, i);
        LiveKeptOthers(m0, mem[..], a, view, view);
        np := 0;
      } else {
        np, panic := Resize(ptr, size, i);
      }
    }

    /** The last case of mem_domain_realloc: allocate, copy, give the old chunk back. */
    method Resize(ptr: nat, size: nat, ghost i: nat) returns (np: nat, panic: bool)
      requires Valid() && Safe(view, size) && size != 0
      requires i < |view.chunks| && view.chunks[i].live && ptr == PtrOf(view, i)
      modifies this, mem
      ensures Valid() && !panic
      ensures var r, j := Alloc(old(view), size), AllocIndex(old(view), size);
              if j == |r.chunks| then np == 0 && view == old(view) && mem[..] == old(mem[..])
              else
                && j != i && i < |r.chunks| && view == Free(r, i) && np == PtrOf(view, j)
                && Kept(old(mem[..]), old(view).chunks[i], mem[..], view.chunks[j])
      ensures OthersKept(old(mem[..]), mem[..], old(view), view)
    {
      hide Inv, Represents, Alloc, AllocIndex, Same, LiveKept, Kept, OthersKept, Load, Moved;
      ghost var m0, a := mem[..], view;
      OwnedChunk(m0, base, freelist, bump, view, i);
      var oldSize := Load(mem[..], ptr - HDR_SIZE - base);
      AllocMoves(view, size, i);
      var fault;
      np, fault := AllocNolock(size);
      ghost var m1, r, j := mem[..], view, AllocIndex(a, size);
      LiveKeptOthers(m0, m1, a, r, a);
      if np == 0 {
        return 0, false;
      }
      OwnedChunk(m1, base, freelist, bump, view, j);
      var copyN := if oldSize < size then oldSize else size;
      panic := MoveInto(ptr, np, copyN, i, j);
      ReallocBytes(m0, m1, mem[..], a, r, i, j, copyN);
    }

    /** The copy of realloc, and giving the old chunk back. */
    method MoveInto(ptr: nat, np: nat, n: nat, ghost i: nat, ghost j: nat) returns (panic: bool)
      requires Valid() && i < |view.chunks| && j < |view.chunks| && i != j
      requires view.chunks[i].live && view.chunks[j].live && ptr == PtrOf(view, i) && np == PtrOf(view, j)
      requires n <= view.chunks[i].size && n <= view.chunks[j].size
      modifies this`freelist, this`view, mem
      ensures Valid() && !panic && view == Free(old(view), i)
      ensures Moved(old(mem[..]), mem[..], old(view), i, j, n)
    {
      hide Inv, Represents, Same, LiveKept, Moved;
      ghost var m1, r := mem[..], view;
      OwnedChunk(m1, base, freelist, bump, view, i);
      OwnedChunk(m1, base, freelist, bump, view, j);
      ChunksApart(r, i, j);
      CopyBytes(np - base, ptr - base, n);
      ghost var m2 := mem[..];
      PayloadIsTheOwners(m1, m2, base, freelist, bump, view, j);
      panic := FreeNolock(ptr, i);
      MovedBytes(m1, m2, mem[..], r, i, j, n);
    }

    /** mem_domain_calloc: refuses a product that wraps, and otherwise hands out zeroed bytes. */
    method Calloc(nmemb: nat, size: nat) returns (ptr: nat, fault: bool)
      requires Valid() && nmemb < WORD_LIMIT && size < WORD_LIMIT
      modifies this, mem
      ensures nmemb * size >= WORD_LIMIT ==> ptr == 0 && !fault && view == old(view) && mem[..] == old(mem[..]) && Valid()
      ensures nmemb * size < WORD_LIMIT ==>
                && (fault <==> !Safe(old(view), nmemb * size) && old(bump) + HDR_SIZE + nmemb * size > mem.Length)
                && (Safe(old(view), nmemb * size) ==> Valid() && OthersKept(old(mem[..]), mem[..], old(view), view))
                && (!fault ==>
                      && view == Alloc(old(view), nmemb * size)
                      && ptr == PtrOf(view, AllocIndex(old(view), nmemb * size))
                      && (ptr != 0 ==> Zeroed(mem[..], ptr - base, nmemb * size)))
    {
      hide Inv, Represents, Alloc, AllocIndex, LiveKept, OthersKept, HasRoom, Zeroed, Safe;
      WrapTest(nmemb, size);
      if size != 0 && nmemb > (WORD_LIMIT - 1) / size {
        return 0, false;
      }
      ptr, fault := ZeroedAlloc(nmemb * size);
    }

    /** The rest of mem_domain_calloc: allocate and zero; `fault` is a store outside the arena. */
    method ZeroedAlloc(total: nat) returns (ptr: nat, fault: bool)
      requires Valid() && total < WORD_LIMIT
      modifies this, mem
      ensures fault <==> !Safe(old(view), total) && old(bump) + HDR_SIZE + total > mem.Length
      ensures Safe(old(view), total) ==> Valid() && OthersKept(old(mem[..]), mem[..], old(view), view)
      ensures !fault ==>
                && view == Alloc(old(view), total) && ptr == PtrOf(view, AllocIndex(old(view), total))
                && (ptr != 0 ==> Zeroed(mem[..], ptr - base, total))
    {
      hide Inv, Represents, Alloc, AllocIndex, LiveKept, OthersKept, HasRoom, Store, Need;
      ghost var m0, a := mem[..], view;
      RepresentsInv(m0, base, freelist, bump, a);
      AllocCorrect(a, total);
      ptr, fault := AllocNolock(total);
      if fault {
        return;
      }
      ghost var m1, j := mem[..], AllocIndex(a, total);
      if Safe(a, total) {
        LiveKeptOthers(m0, m1, a, view, a);
        if ptr != 0 { OwnedChunk(m1, base, freelist, bump, view, j); }
      }
      if ptr != 0 {
        if ptr - base + total > mem.Length {
          return ptr, true;
        }
        ZeroBytes(ptr - base, total);
        if Safe(a, total) {
          PayloadIsTheOwners(m1, mem[..], base, freelist, bump, view, j);
          ZeroKeepsOthers(m0, m1, mem[..], a, view, j);
        }
      }
    }

    method ZeroBytes(dst: nat, n: nat)
      requires dst + n <= mem.Length
      modifies mem
      ensures forall x :: dst <= x < dst + n ==> mem[x] == 0
      ensures forall x :: 0 <= x < mem.Length && !(dst <= x < dst + n) ==> mem[x] == old(mem[x])
    {
      for i := 0 to n
        invariant forall x :: dst <= x < dst + i ==> mem[x] == 0
        invariant forall x :: 0 <= x < mem.Length && !(dst <= x < dst + i) ==> mem[x] == old(mem[x])
      {
        mem[dst + i] := 0;
      }
    }
  }
}
