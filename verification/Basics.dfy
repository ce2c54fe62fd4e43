/** Small definitions shared by the models. */
module Basics {

  datatype Option<+T> = None | Some(value: T)

  function Min(a: nat, b: nat): nat { if a < b then a else b }

  lemma MulMonotone(x: nat, y: nat, z: nat)
    requires x <= y
    ensures x * z <= y * z
  {
  }

  lemma MulSign(m: nat, d: int)
    ensures d > 0 ==> m * d >= m
    ensures d < 0 ==> m * d <= -(m as int)
  {
  }

  lemma DivModUnique(x: int, m: nat, q: int, r: nat)
    requires m > 0 && x == m * q + r && r < m
    ensures x / m == q && x % m == r
  {
    var d := x / m - q;
    MulSign(m, d);
    assert m * d == r - x % m;
  }

  /** Whole multiples of the divisor come out of a quotient and leave the remainder alone. */
  lemma DivShift(r: int, m: nat, k: int)
    requires m > 0
    ensures (m * k + r) / m == k + r / m && (m * k + r) % m == r % m
  {
    assert m * k + r == m * (k + r / m) + r % m;
    DivModUnique(m * k + r, m, k + r / m, r % m);
  }
}

/** Facts about finite sequences used by several models. */
module Seqs {

  predicate Distinct<T(==)>(s: seq<T>) {
    forall i, j :: 0 <= i < j < |s| ==> s[i] != s[j]
  }

  function RemoveAt<T>(s: seq<T>, k: nat): (r: seq<T>)
    requires k < |s|
    ensures |r| == |s| - 1
    ensures forall i :: 0 <= i < |r| ==> r[i] == s[if i < k then i else i + 1]
  {
    s[..k] + s[k + 1..]
  }

  lemma ConcatAssoc<T>(a: seq<T>, b: seq<T>, c: seq<T>)
    ensures a + b + c == a + (b + c)
  {
  }

  /** The first position of `x`. */
  function IndexOf<T(==)>(s: seq<T>, x: T): (k: nat)
    requires x in s
    ensures k < |s| && s[k] == x
    ensures forall i :: 0 <= i < k ==> s[i] != x
  {
    if s[0] == x then 0 else 1 + IndexOf(s[1..], x)
  }

  /** `s` without the first occurrence of `x`, order kept. */
  function Without<T(==)>(s: seq<T>, x: T): seq<T>
    requires x in s
  {
    RemoveAt(s, IndexOf(s, x))
  }

  lemma WithoutDistinct<T>(s: seq<T>, x: T)
    requires Distinct(s) && x in s
    ensures Distinct(Without(s, x))
    ensures forall y :: y in Without(s, x) <==> y in s && y != x
  {
    var k := IndexOf(s, x);
    var r := Without(s, x);
    forall y ensures y in r <==> y in s && y != x {
      if y in s && y != x {
        var j := IndexOf(s, y);
        assert r[if j < k then j else j - 1] == y;
      }
    }
  }
}
