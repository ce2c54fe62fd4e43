/** Little-endian 64-bit words inside a run of bytes. */
module Bytes {
  type byte = x: int | 0 <= x < 256

  function Pow256(n: nat): nat { if n == 0 then 1 else 256 * Pow256(n - 1) }

  function ToLE(v: nat, n: nat): (bs: seq<byte>)
    ensures |bs| == n
  {
    if n == 0 then [] else [v % 256] + ToLE(v / 256, n - 1)
  }

  function FromLE(bs: seq<byte>): nat {
    if bs == [] then 0 else bs[0] + 256 * FromLE(bs[1..])
  }

  lemma {:induction false} LERoundTrip(v: nat, n: nat)
    requires v < Pow256(n)
    ensures FromLE(ToLE(v, n)) == v
  {
    if n > 0 {
      LERoundTrip(v / 256, n - 1);
      assert ToLE(v, n)[1..] == ToLE(v / 256, n - 1);
    }
  }

  lemma WordLimit()
    ensures Pow256(8) == 0x1_0000_0000_0000_0000
  {
    assert Pow256(4) == 0x1_0000_0000;
    assert Pow256(8) == 256 * (256 * (256 * (256 * Pow256(4))));
  }

  function Load(m: seq<byte>, o: nat): nat
    requires o + 8 <= |m|
  {
    FromLE(m[o..o + 8])
  }

  function Store(m: seq<byte>, o: nat, v: nat): (r: seq<byte>)
    requires o + 8 <= |m|
    ensures |r| == |m|
  {
    m[..o] + ToLE(v, 8) + m[o + 8..]
  }

  lemma LoadStored(m: seq<byte>, o: nat, v: nat)
    requires o + 8 <= |m| && v < 0x1_0000_0000_0000_0000
    ensures Load(Store(m, o, v), o) == v
  {
    WordLimit();
    LERoundTrip(v, 8);
    assert Store(m, o, v)[o..o + 8] == ToLE(v, 8);
  }

  /** The two memories agree on [lo, hi). */
  predicate Same(m: seq<byte>, m': seq<byte>, lo: nat, hi: nat) {
    |m| == |m'| && hi <= |m| && forall i :: lo <= i < hi ==> m[i] == m'[i]
  }

  lemma LoadSame(m: seq<byte>, m': seq<byte>, o: nat)
    requires Same(m, m', o, o + 8)
    ensures Load(m, o) == Load(m', o)
  {
    assert m[o..o + 8] == m'[o..o + 8];
  }

  lemma StoreElsewhere(m: seq<byte>, o: nat, v: nat, lo: nat, hi: nat)
    requires o + 8 <= |m| && hi <= |m| && (hi <= o || o + 8 <= lo)
    ensures Same(m, Store(m, o, v), lo, hi)
  {
  }
}
