// The sorted chunk index: hashes, their order, and the merge of a sorted batch into it.
module ChunkMerge {
  import opened Arith

  const HASH_SIZE := 20

  type Hash = h: seq<Byte> | |h| == HASH_SIZE witness seq(HASH_SIZE, _ => 0)

  datatype Entry = Entry(hash: Hash, offset: int, size: int)

  // ---- the order of hashes ----

  function Pow256(n: nat): (p: nat)
    ensures p > 0
  {
    if n == 0 then 1 else 256 * Pow256(n - 1)
  }

  /** The bytes read as one big-endian number. */
  ghost function Key(b: seq<Byte>): (k: nat)
    ensures k < Pow256(|b|)
  {
    if b == [] then 0
    else
      Arith.MulMonotone(b[0], 255, Pow256(|b| - 1));
      b[0] * Pow256(|b| - 1) + Key(b[1..])
  }

  /** memcmp() over equally many bytes. */
  function Compare(a: seq<Byte>, b: seq<Byte>): (r: int)
    requires |a| == |b|
    ensures r < 0 <==> Key(a) < Key(b)
    ensures r == 0 <==> Key(a) == Key(b)
    ensures r == 0 <==> a == b
  {
    if a == [] then 0
    else if a[0] != b[0] then
      FirstByteDecides(a, b);
      a[0] - b[0]
    else
      assert a == [a[0]] + a[1..] && b == [b[0]] + b[1..];
      Compare(a[1..], b[1..])
  }

  lemma FirstByteDecides(a: seq<Byte>, b: seq<Byte>)
    requires |a| == |b| > 0 && a[0] != b[0]
    ensures Key(a) < Key(b) <==> a[0] < b[0]
    ensures Key(a) != Key(b)
  {
    var p := Pow256(|a| - 1);
    if a[0] < b[0] {
      Leading(a[0], b[0], p, Key(a[1..]), Key(b[1..]));
    } else {
      Leading(b[0], a[0], p, Key(b[1..]), Key(a[1..]));
    }
  }

  lemma Leading(x: nat, y: nat, p: nat, u: nat, v: nat)
    requires u < p && v < p && x < y
    ensures x * p + u < y * p + v
  {
    Arith.MulMonotone(x + 1, y, p);
    assert (x + 1) * p == x * p + p;
  }

  ghost function K(e: Entry): nat { Key(e.hash) }

  ghost predicate Sorted(s: seq<Entry>)
  {
    forall i, j :: 0 <= i < j < |s| ==> K(s[i]) <= K(s[j])
  }

  ghost predicate Strict(s: seq<Entry>)
  {
    forall i, j :: 0 <= i < j < |s| ==> K(s[i]) < K(s[j])
  }

  // ---- the merge ----

  /** Two-pointer merge of the index and the pending entries; an equal pending entry
      replaces the index entry. */
  ghost function Merge(a: seq<Entry>, p: seq<Entry>): (m: seq<Entry>)
    ensures |m| <= |a| + |p|
  {
    if a == [] then p
    else if p == [] then a
    else if K(a[0]) < K(p[0]) then [a[0]] + Merge(a[1..], p)
    else if K(a[0]) > K(p[0]) then [p[0]] + Merge(a, p[1..])
    else [p[0]] + Merge(a[1..], p[1..])
  }

  /** Index entries below the first pending one are copied as a block. */
  lemma {:induction false} BlockFirst(a: seq<Entry>, p: seq<Entry>, n: nat)
    requires p != [] && n <= |a|
    requires forall i :: 0 <= i < n ==> K(a[i]) < K(p[0])
    ensures Merge(a, p) == a[..n] + Merge(a[n..], p)
  {
    hide K;
    if n == 0 {
      assert a[..0] + Merge(a[0..], p) == Merge(a, p);
    } else {
      BlockFirst(a[1..], p, n - 1);
      assert a[1..][..n - 1] == a[1..n] && a[1..][n - 1..] == a[n..];
      assert a[..n] == [a[0]] + a[1..n];
    }
  }

  /** Where the block ends, the pending entry comes next, in place of an equal index entry. */
  lemma ThenPending(a: seq<Entry>, p: seq<Entry>)
    requires p != [] && (a == [] || K(a[0]) >= K(p[0]))
    ensures var found := a != [] && K(a[0]) == K(p[0]);
            Merge(a, p) == [p[0]] + Merge(if found then a[1..] else a, p[1..])
  {
    if a == [] { assert p == [p[0]] + p[1..]; }
    if a != [] && p[1..] == [] { assert Merge(a[1..], []) == a[1..]; }
  }

  // ---- what the merge contains ----

  /** Index entries whose hash is not pending. */
  ghost function Unmatched(a: seq<Entry>, p: seq<Entry>): seq<Entry>
  {
    if a == [] then []
    else (if Pending(a[0], p) then [] else [a[0]]) + Unmatched(a[1..], p)
  }

  lemma {:induction false} UnmatchedAbove(a: seq<Entry>, p: seq<Entry>)
    requires p != [] && forall i :: 0 <= i < |a| ==> K(a[i]) > K(p[0])
    ensures Unmatched(a, p) == Unmatched(a, p[1..])
  {
    hide Pending, K;
    if a != [] {
      UnmatchedAbove(a[1..], p);
      PendingAbove(a[0], p);
    }
  }

  lemma PendingAbove(x: Entry, p: seq<Entry>)
    requires p != [] && K(x) > K(p[0])
    ensures Pending(x, p) <==> Pending(x, p[1..])
  {
    hide K;
    if i :| 0 <= i < |p| && K(p[i]) == K(x) { assert K(p[1..][i - 1]) == K(x); }
    if i :| 0 <= i < |p[1..]| && K(p[1..][i]) == K(x) { assert K(p[i + 1]) == K(x); }
  }

  lemma {:induction false} UnmatchedNone(a: seq<Entry>)
    ensures Unmatched(a, []) == a
  {
    if a != [] {
      UnmatchedNone(a[1..]);
      assert a == [a[0]] + a[1..];
    }
  }

  ghost predicate Pending(x: Entry, p: seq<Entry>)
  {
    exists i :: 0 <= i < |p| && K(p[i]) == K(x)
  }

  /** The merge holds every pending entry and every index entry whose hash is not pending,
      each as often as it occurs, and nothing else. */
  lemma {:induction false} Conservation(a: seq<Entry>, p: seq<Entry>)
    requires Strict(a) && Sorted(p)
    ensures multiset(Merge(a, p)) == multiset(p) + multiset(Unmatched(a, p))
  {
    hide Key;
    if a == [] {
    } else if p == [] {
      UnmatchedNone(a);
    } else if K(a[0]) < K(p[0]) {
      Conservation(a[1..], p);
      assert !Pending(a[0], p);
      OneMore(a[0], Merge(a[1..], p), p, p, Unmatched(a[1..], p), Unmatched(a, p));
    } else if K(a[0]) > K(p[0]) {
      Conservation(a, p[1..]);
      UnmatchedAbove(a, p);
      OneMore(p[0], Merge(a, p[1..]), p[1..], p, Unmatched(a, p[1..]), Unmatched(a, p));
    } else {
      Conservation(a[1..], p[1..]);
      UnmatchedAbove(a[1..], p);
      assert Pending(a[0], p);
      OneMore(p[0], Merge(a[1..], p[1..]), p[1..], p, Unmatched(a[1..], p[1..]), Unmatched(a, p));
    }
  }

  lemma OneMore(x: Entry, m: seq<Entry>, p: seq<Entry>, p': seq<Entry>, u: seq<Entry>, u': seq<Entry>)
    requires multiset(m) == multiset(p) + multiset(u)
    requires (p == p' && u' == [x] + u) || (p' != [] && p == p'[1..] && x == p'[0] && u == u')
    ensures multiset([x] + m) == multiset(p') + multiset(u')
  {
    if p' != [] && p == p'[1..] && x == p'[0] && u == u' { assert p' == [x] + p; }
  }

  // ---- the order of the merge ----

  lemma {:induction false} MergeFloor(a: seq<Entry>, p: seq<Entry>, k: nat)
    requires forall i :: 0 <= i < |a| ==> k < K(a[i])
    requires forall i :: 0 <= i < |p| ==> k < K(p[i])
    ensures forall i :: 0 <= i < |Merge(a, p)| ==> k < K(Merge(a, p)[i])
  {
    hide Key;
    if a != [] && p != [] {
      if K(a[0]) < K(p[0]) {
        MergeFloor(a[1..], p, k);
      } else if K(a[0]) > K(p[0]) {
        MergeFloor(a, p[1..], k);
      } else {
        MergeFloor(a[1..], p[1..], k);
      }
    }
  }

  lemma {:induction false} MergeFloorWeak(a: seq<Entry>, p: seq<Entry>, k: nat)
    requires forall i :: 0 <= i < |a| ==> k <= K(a[i])
    requires forall i :: 0 <= i < |p| ==> k <= K(p[i])
    ensures forall i :: 0 <= i < |Merge(a, p)| ==> k <= K(Merge(a, p)[i])
  {
    if k > 0 { MergeFloor(a, p, k - 1); }
  }

  /** The merge of sorted inputs is sorted. */
  lemma {:induction false} KeepsOrder(a: seq<Entry>, p: seq<Entry>)
    requires Sorted(a) && Sorted(p)
    ensures Sorted(Merge(a, p))
  {
    hide K;
    if a != [] && p != [] {
      if K(a[0]) < K(p[0]) {
        KeepsOrder(a[1..], p);
        MergeFloorWeak(a[1..], p, K(a[0]));
      } else if K(a[0]) > K(p[0]) {
        KeepsOrder(a, p[1..]);
        MergeFloorWeak(a, p[1..], K(p[0]));
      } else {
        KeepsOrder(a[1..], p[1..]);
        MergeFloorWeak(a[1..], p[1..], K(p[0]));
      }
    }
  }

  lemma {:induction false} KeepsStrict(a: seq<Entry>, p: seq<Entry>)
    requires Strict(a) && Strict(p)
    ensures Strict(Merge(a, p))
  {
    hide K;
    if a != [] && p != [] {
      if K(a[0]) < K(p[0]) {
        KeepsStrict(a[1..], p);
        MergeFloor(a[1..], p, K(a[0]));
      } else if K(a[0]) > K(p[0]) {
        KeepsStrict(a, p[1..]);
        MergeFloor(a, p[1..], K(p[0]));
      } else {
        KeepsStrict(a[1..], p[1..]);
        MergeFloor(a[1..], p[1..], K(p[0]));
      }
    }
  }

  lemma {:induction false} StrictBefore(a: seq<Entry>, p: seq<Entry>)
    requires Strict(a) && Sorted(p) && Strict(Merge(a, p))
    ensures Strict(p)
  {
    hide Key, Merge;
    if a != [] && p != [] {
      MergeHead(a, p);
      var m := Merge(a, p);
      assert Strict(m[1..]);
      if K(a[0]) < K(p[0]) {
        StrictBefore(a[1..], p);
      } else {
        var rest := if K(a[0]) > K(p[0]) then a else a[1..];
        StrictBefore(rest, p[1..]);
        forall j | 0 < j < |p| ensures K(p[0]) < K(p[j]) {
          PendingStays(rest, p[1..], j - 1);
          var i :| 0 <= i < |Merge(rest, p[1..])| && Merge(rest, p[1..])[i] == p[1..][j - 1];
          assert m[0] == p[0] && m[i + 1] == p[j];
        }
      }
    } else {
      MergeHead(a, p);
    }
  }

  lemma MergeHead(a: seq<Entry>, p: seq<Entry>)
    ensures a == [] ==> Merge(a, p) == p
    ensures a != [] && p != [] ==>
      var m := Merge(a, p);
      && m != []
      && (if K(a[0]) < K(p[0]) then m[0] == a[0] && m[1..] == Merge(a[1..], p)
          else m[0] == p[0] && m[1..] == Merge(if K(a[0]) > K(p[0]) then a else a[1..], p[1..]))
  {
  }

  lemma PendingStays(a: seq<Entry>, p: seq<Entry>, j: nat)
    requires Strict(a) && Sorted(p) && j < |p|
    ensures exists i :: 0 <= i < |Merge(a, p)| && Merge(a, p)[i] == p[j]
  {
    Conservation(a, p);
    assert p[j] in multiset(p);
    assert p[j] in multiset(Merge(a, p));
    assert p[j] in Merge(a, p);
  }

  /** When no hash occurs twice in the index, none occurs twice in the merge exactly when
      none occurs twice in the sorted pending entries. */
  lemma StaysUnique(a: seq<Entry>, p: seq<Entry>)
    requires Strict(a) && Sorted(p)
    ensures Strict(Merge(a, p)) <==> Strict(p)
  {
    if Strict(p) { KeepsStrict(a, p); }
    if Strict(Merge(a, p)) { StrictBefore(a, p); }
  }

  lemma {:induction false} UnmatchedMembers(a: seq<Entry>, p: seq<Entry>, x: Entry)
    ensures x in Unmatched(a, p) <==> x in a && !Pending(x, p)
  {
    hide Key;
    if a != [] { UnmatchedMembers(a[1..], p, x); }
  }

  /** What a lookup in the merge can find: a pending entry if the hash is pending, and the
      old index entry otherwise. */
  lemma MergeMembers(a: seq<Entry>, p: seq<Entry>, x: Entry)
    requires Strict(a) && Sorted(p)
    ensures x in Merge(a, p) <==> x in p || (x in a && !Pending(x, p))
  {
    Conservation(a, p);
    UnmatchedMembers(a, p, x);
    var m, u := Merge(a, p), Unmatched(a, p);
    hide Merge, Unmatched, Pending;
    assert x in m <==> x in multiset(m);
    assert x in p <==> x in multiset(p);
    assert x in u <==> x in multiset(u);
  }
}
