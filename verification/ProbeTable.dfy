// The linear-probing hash table of a Bitvec, as a value: 0 marks a free slot, and every
// stored number can be reached from its home slot without crossing a free one.
module ProbeTable {
  import opened Arith

  const NINT: nat := 124

  /** BITVEC_HASH of the zero-based index x-1. */
  function Home(x: nat): (h: nat)
    requires x > 0
    ensures h < NINT
  {
    (x - 1) % NINT
  }

  function Next(h: nat): (n: nat)
    requires h < NINT
    ensures n < NINT
  {
    if h + 1 >= NINT then 0 else h + 1
  }

  /** j is met when stepping from slot h up to, not including, slot k. */
  predicate Between(h: nat, j: nat, k: nat)
  {
    if h <= k then h <= j < k else j >= h || j < k
  }

  function Distance(h: nat, e: nat): nat
    requires h < NINT && e < NINT
  {
    if h <= e then e - h else e + NINT - h
  }

  ghost predicate Stores(a: seq<nat>, s: set<nat>)
  {
    && |a| == NINT
    && (forall k :: 0 <= k < NINT && a[k] != 0 ==> a[k] in s)
    && (forall x :: x in s ==> x > 0 && x in a)
    && (forall k, l :: 0 <= k < l < NINT && a[k] != 0 ==> a[k] != a[l])
    && (forall k, j :: 0 <= k < NINT && 0 <= j < NINT && a[k] != 0 && Between(Home(a[k]), j, k) ==> a[j] != 0)
  }

  /** The slots probed so far, from the home of x up to h, are in use and do not hold x. */
  ghost predicate Probed(a: seq<nat>, x: nat, h: nat)
    requires |a| == NINT && x > 0
  {
    h < NINT && forall j :: 0 <= j < NINT && Between(Home(x), j, h) ==> a[j] != 0 && a[j] != x
  }

  function Elements(a: seq<nat>): set<nat>
  {
    set x | x in a
  }

  lemma {:induction false} DistinctFill(a: seq<nat>)
    requires forall k, l :: 0 <= k < l < |a| ==> a[k] != a[l]
    ensures |Elements(a)| == |a|
  {
    if a == [] {
      assert Elements(a) == {};
    } else {
      var n := |a| - 1;
      DistinctFill(a[..n]);
      assert Elements(a) == Elements(a[..n]) + {a[n]};
      assert a[n] !in Elements(a[..n]);
    }
  }

  lemma FullTable(a: seq<nat>, s: set<nat>)
    requires Stores(a, s) && forall k :: 0 <= k < NINT ==> a[k] != 0
    ensures |s| >= NINT
  {
    DistinctFill(a);
    assert Elements(a) <= s;
    SubsetSize(Elements(a), s);
  }

  /** nSet <= NINT-1 leaves a free slot, so every probe loop ends. */
  lemma FreeSlot(a: seq<nat>, s: set<nat>) returns (e: nat)
    requires Stores(a, s) && |s| < NINT
    ensures e < NINT && a[e] == 0
  {
    if forall k :: 0 <= k < NINT ==> a[k] != 0 {
      FullTable(a, s);
    }
    e :| 0 <= e < NINT && a[e] == 0;
  }

  lemma ProbeStep(a: seq<nat>, x: nat, h: nat, e: nat)
    requires |a| == NINT && x > 0 && Probed(a, x, h)
    requires a[h] != 0 && a[h] != x && e < NINT && a[e] == 0
    ensures Probed(a, x, Next(h)) && Distance(Next(h), e) < Distance(h, e)
  {
    assert !Between(Home(x), e, h);
  }

  /** Meeting a free slot means the number is not stored. */
  lemma ProbeEnd(a: seq<nat>, s: set<nat>, x: nat, h: nat)
    requires Stores(a, s) && x > 0 && Probed(a, x, h) && a[h] == 0
    ensures x !in s
  {
    if x in s {
      var k :| 0 <= k < NINT && a[k] == x;
    }
  }

  lemma Inserted(a: seq<nat>, s: set<nat>, x: nat, h: nat)
    requires Stores(a, s) && x > 0 && Probed(a, x, h) && a[h] == 0
    ensures x !in s && Stores(a[h := x], s + {x}) && |s + {x}| == |s| + 1
  {
    ProbeEnd(a, s, x, h);
    var b := a[h := x];
    assert b[h] == x;
    forall y | y in s ensures y in b {
      var k :| 0 <= k < NINT && a[k] == y;
      assert b[k] == y;
    }
  }

  lemma EmptyTable(a: seq<nat>)
    requires |a| == NINT && forall k :: 0 <= k < NINT ==> a[k] == 0
    ensures Stores(a, {})
  {
  }
}
