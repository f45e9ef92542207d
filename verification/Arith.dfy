// What the other modules share: an optional value, bytes, and a few facts about division and sets.
module Arith {

  datatype Option<T> = None | Some(value: T)

  type Byte = b: nat | b < 256

  const U32: nat := 0x1_0000_0000

  lemma SubsetSize<T>(s: set<T>, t: set<T>)
    requires s <= t
    ensures |s| <= |t|
  {
    assert t == s + (t - s);
  }

  lemma MulMonotone(x: nat, y: nat, z: nat)
    requires x <= y
    ensures x * z <= y * z
  {
  }

  lemma DivUnique(n: nat, d: nat, q: nat, r: nat)
    requires d > 0 && n == q * d + r && r < d
    ensures n / d == q && n % d == r
  {
    var q', r' := n / d, n % d;
    assert n == q' * d + r';
    assert (q + 1) * d == q * d + d;
    assert (q' + 1) * d == q' * d + d;
    if q' > q {
      MulMonotone(q + 1, q', d);
    } else if q' < q {
      MulMonotone(q' + 1, q, d);
    }
  }

  lemma DivBounds(n: nat, d: nat)
    requires d > 0
    ensures n / d * d <= n < n / d * d + d
    ensures n == n / d * d + n % d
  {
  }

  function Quotient(n: nat, d: nat): nat
    requires d > 0
  {
    n / d
  }

  function Remainder(n: nat, d: nat): (r: nat)
    requires d > 0
    ensures r < d
  {
    n % d
  }

  lemma QuotientBound(n: nat, d: nat, m: nat)
    requires d > 0 && n < d * m
    ensures Quotient(n, d) < m
  {
    DivBounds(n, d);
    assert m * d == d * m;
    if n / d >= m { MulMonotone(m, n / d, d); }
  }

  function Times(n: nat, d: nat): nat
  {
    n * d
  }

  lemma TimesStep(n: nat, d: nat)
    requires n > 0
    ensures Times(n, d) == Times(n - 1, d) + d
  {
  }
}
