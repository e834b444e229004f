/** Small definitions shared by the other modules. */
module Basics {

  datatype Option<T> = None | Some(value: T)

  function Min(a: nat, b: nat): nat { if a < b then a else b }

  predicate NoDup<T(==)>(s: seq<T>) { forall i, j | 0 <= i < j < |s| :: s[i] != s[j] }

  function Range<T>(s: seq<T>): set<T> { set x | x in s }

  lemma SubsetSize<T>(a: set<T>, b: set<T>)
    requires a <= b
    ensures |a| <= |b| && (a == b || |a| < |b|)
  {
    assert b == a + (b - a);
    assert |b| == |a| + |b - a|;
  }

  lemma AtLeast(a: int, m: int)
    requires a >= 1 && m >= 1
    ensures a * m >= m
  {}

  lemma {:induction false} DivisionIsUnique(v: int, m: int, q: int, r: int)
    requires v == q * m + r && 0 <= r < m
    ensures v / m == q && v % m == r
  {
    var q', r' := v / m, v % m;
    assert v == q' * m + r';
    assert (q - q') * m == r' - r && (q' - q) * m == r - r';
    if q > q' { AtLeast(q - q', m); }
    if q < q' { AtLeast(q' - q, m); }
  }
}
