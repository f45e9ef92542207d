// Searching, merging and reading the chunk index.
module ChunkIndex {
  import opened ChunkMerge

  datatype Status = Ok | NoMem | Corrupt | TooBig | IoErr

  ghost predicate Has(s: seq<Entry>, h: Hash)
  {
    exists i :: 0 <= i < |s| && s[i].hash == h
  }

  /** csSearchIndex() */
  method SearchIndex(aIdx: array<Entry>, nIdx: nat, h: Hash) returns (r: int)
    requires nIdx <= aIdx.Length && Sorted(aIdx[..nIdx])
    ensures -1 <= r < nIdx
    ensures r >= 0 ==> aIdx[r].hash == h
    ensures r == -1 <==> !Has(aIdx[..nIdx], h)
  {
    ghost var s := aIdx[..nIdx];
    var lo, hi := 0, nIdx - 1;
    while lo <= hi
      invariant 0 <= lo <= nIdx && -1 <= hi < nIdx
      invariant forall i :: 0 <= i < lo ==> K(s[i]) < Key(h)
      invariant forall i :: hi < i < nIdx ==> K(s[i]) > Key(h)
      decreases hi - lo
    {
      var mid := lo + (hi - lo) / 2;
      assert aIdx[mid] == s[mid];
      var cmp := Compare(aIdx[mid].hash, h);
      if cmp == 0 { return mid; }
      if cmp < 0 {
        lo := mid + 1;
      } else {
        hi := mid - 1;
      }
    }
    r := -1;
  }

  /** csIndexLowerBound(): the first entry from lo on that is not below the hash. */
  method IndexLowerBound(aIndex: array<Entry>, nIndex: nat, lo0: nat, h: Hash) returns (lo: nat)
    requires lo0 <= nIndex <= aIndex.Length && Sorted(aIndex[..nIndex])
    ensures lo0 <= lo <= nIndex
    ensures forall i :: lo0 <= i < lo ==> K(aIndex[..nIndex][i]) < Key(h)
    ensures lo < nIndex ==> K(aIndex[..nIndex][lo]) >= Key(h)
  {
    ghost var s := aIndex[..nIndex];
    hide Key, Sorted;
    lo := lo0;
    var hi := nIndex;
    while lo < hi
      invariant lo0 <= lo <= hi <= nIndex && s == aIndex[..nIndex]
      invariant forall i :: lo0 <= i < lo ==> K(s[i]) < Key(h)
      invariant hi < nIndex ==> K(s[hi]) >= Key(h)
    {
      var mid := lo + (hi - lo) / 2;
      assert aIndex[mid] == s[mid];
      if Compare(aIndex[mid].hash, h) < 0 {
        BelowSorted(s, mid);
        lo := mid + 1;
      } else {
        hi := mid;
      }
    }
  }

  lemma BelowSorted(s: seq<Entry>, k: nat)
    requires Sorted(s) && k < |s|
    ensures forall i :: 0 <= i <= k ==> K(s[i]) <= K(s[k])
  {
  }

  /** memcpy() of n entries. */
  method CopyBlock(dst: array<Entry>, d: nat, src: array<Entry>, s: nat, n: nat)
    requires dst != src && d + n <= dst.Length && s + n <= src.Length
    modifies dst
    ensures dst[..d + n] == old(dst[..d]) + src[s..s + n]
  {
    forall k | 0 <= k < n { dst[d + k] := src[s + k]; }
  }

  /** Append one entry to the output. */
  method Emit(aMerged: array<Entry>, outPos: nat, e: Entry)
    requires outPos < aMerged.Length
    modifies aMerged
    ensures aMerged[..outPos + 1] == old(aMerged[..outPos]) + [e]
  {
    aMerged[outPos] := e;
  }

  /** What is written so far and the merge of what is left make up the whole merge. */
  ghost predicate Progress(A: seq<Entry>, P: seq<Entry>, i: nat, j: nat, out: seq<Entry>)
  {
    && i <= |A| && j <= |P| && |out| <= i + j
    && Merge(A, P) == out + Merge(A[i..], P[j..])
  }

  lemma ProgressStart(A: seq<Entry>, P: seq<Entry>)
    ensures Progress(A, P, 0, 0, [])
  {
    assert A[0..] == A && P[0..] == P;
  }

  lemma ProgressStep(A: seq<Entry>, P: seq<Entry>, i: nat, j: nat, out: seq<Entry>)
    requires Progress(A, P, i, j, out) && i < |A| && j < |P|
    ensures if K(A[i]) < K(P[j]) then Progress(A, P, i + 1, j, out + [A[i]])
            else if K(A[i]) > K(P[j]) then Progress(A, P, i, j + 1, out + [P[j]])
            else Progress(A, P, i + 1, j + 1, out + [P[j]])
  {
    assert A[i..][1..] == A[i + 1..] && P[j..][1..] == P[j + 1..];
    hide Key;
  }

  lemma ProgressBlock(A: seq<Entry>, P: seq<Entry>, i: nat, pos: nat, j: nat, out: seq<Entry>)
    requires Progress(A, P, i, j, out) && i <= pos <= |A| && j < |P|
    requires forall k :: i <= k < pos ==> K(A[k]) < K(P[j])
    requires pos == |A| || K(A[pos]) >= K(P[j])
    ensures var next := if pos < |A| && K(A[pos]) == K(P[j]) then pos + 1 else pos;
            Progress(A, P, next, j + 1, out + A[i..pos] + [P[j]])
  {
    BlockThenPending(A, P, i, pos, j);
    var next := if pos < |A| && K(A[pos]) == K(P[j]) then pos + 1 else pos;
    var rest := Merge(A[next..], P[j + 1..]);
    hide Key, Merge;
    assert out + (A[i..pos] + [P[j]] + rest) == out + A[i..pos] + [P[j]] + rest;
  }

  lemma ProgressEnd(A: seq<Entry>, P: seq<Entry>, i: nat, j: nat, out: seq<Entry>)
    requires Progress(A, P, i, j, out) && (i == |A| || j == |P|)
    ensures Merge(A, P) == out + A[i..] + P[j..] && |out| <= i + j
  {
  }

  lemma BlockThenPending(A: seq<Entry>, P: seq<Entry>, i: nat, pos: nat, j: nat)
    requires i <= pos <= |A| && j < |P|
    requires forall k :: i <= k < pos ==> K(A[k]) < K(P[j])
    requires pos == |A| || K(A[pos]) >= K(P[j])
    ensures var next := if pos < |A| && K(A[pos]) == K(P[j]) then pos + 1 else pos;
            Merge(A[i..], P[j..]) == A[i..pos] + [P[j]] + Merge(A[next..], P[j + 1..])
  {
    hide Key, Merge;
    var a, p := A[i..], P[j..];
    BlockFirst(a, p, pos - i);
    assert a[..pos - i] == A[i..pos] && a[pos - i..] == A[pos..];
    ThenPending(A[pos..], p);
    assert p[1..] == P[j + 1..];
  }

  /** csMergeIndex(), the batch of at most 32 pending entries: the index is copied in blocks
      that end at the lower bound of each pending entry. */
  method MergeSmall(aIndex: array<Entry>, nIndex: nat, aPending: array<Entry>, nPending: nat, aMerged: array<Entry>)
      returns (outPos: nat)
    requires nIndex <= aIndex.Length && nPending <= aPending.Length && nIndex + nPending <= aMerged.Length
    requires aMerged != aIndex && aMerged != aPending && Sorted(aIndex[..nIndex])
    modifies aMerged
    ensures outPos <= nIndex + nPending
    ensures aMerged[..outPos] == Merge(aIndex[..nIndex], aPending[..nPending])
  {
    ghost var A, P := aIndex[..nIndex], aPending[..nPending];
    hide Merge, Key, Sorted, Progress;
    var idxPos: nat, pendPos: nat := 0, 0;
    outPos := 0;
    ProgressStart(A, P);
    while pendPos < nPending
      invariant pendPos <= nPending && idxPos <= nIndex && outPos <= idxPos + pendPos
      invariant aIndex[..nIndex] == A && aPending[..nPending] == P
      invariant Progress(A, P, idxPos, pendPos, aMerged[..outPos])
    {
      idxPos, outPos := MergeOne(aIndex, nIndex, idxPos, P, pendPos, aPending[pendPos], aMerged, outPos);
      pendPos := pendPos + 1;
    }
    ProgressEnd(A, P, idxPos, pendPos, aMerged[..outPos]);
    outPos := CopyRest(aIndex, nIndex, idxPos, aMerged, outPos);
  }

  /** One pending entry of the small batch: first the block below it, then the entry. */
  method MergeOne(aIndex: array<Entry>, nIndex: nat, idxPos0: nat, ghost P: seq<Entry>, ghost j: nat, pPending: Entry,
                  aMerged: array<Entry>, outPos0: nat)
      returns (idxPos: nat, outPos: nat)
    requires idxPos0 <= nIndex <= aIndex.Length && outPos0 + (nIndex - idxPos0) < aMerged.Length
    requires aMerged != aIndex && Sorted(aIndex[..nIndex]) && j < |P| && P[j] == pPending
    requires Progress(aIndex[..nIndex], P, idxPos0, j, aMerged[..outPos0])
    modifies aMerged
    ensures idxPos <= nIndex && outPos <= idxPos + j + 1 && outPos <= aMerged.Length
    ensures Progress(aIndex[..nIndex], P, idxPos, j + 1, aMerged[..outPos])
  {
    hide Key, Progress, Sorted;
    var pos := IndexLowerBound(aIndex, nIndex, idxPos0, pPending.hash);
    ProgressBlock(aIndex[..nIndex], P, idxPos0, pos, j, aMerged[..outPos0]);
    var nCopy := pos - idxPos0;
    ghost var was := aMerged[..outPos0];
    CopyBlock(aMerged, outPos0, aIndex, idxPos0, nCopy);
    outPos := outPos0 + nCopy;
    assert aIndex[..nIndex][idxPos0..pos] == aIndex[idxPos0..idxPos0 + nCopy];
    var found := pos < nIndex && Compare(aIndex[pos].hash, pPending.hash) == 0;
    Emit(aMerged, outPos, pPending);
    outPos := outPos + 1;
    idxPos := if found then pos + 1 else pos;
    ProgressLength(aIndex[..nIndex], P, idxPos, j + 1, aMerged[..outPos]);
  }

  lemma ProgressLength(A: seq<Entry>, P: seq<Entry>, i: nat, j: nat, out: seq<Entry>)
    requires Progress(A, P, i, j, out)
    ensures |out| <= i + j
  {
  }

  /** csMergeIndex(), the general case: two pointers. */
  method MergeLarge(aIndex: array<Entry>, nIndex: nat, aPending: array<Entry>, nPending: nat, aMerged: array<Entry>)
      returns (outPos: nat)
    requires nIndex <= aIndex.Length && nPending <= aPending.Length && nIndex + nPending <= aMerged.Length
    requires aMerged != aIndex && aMerged != aPending
    modifies aMerged
    ensures outPos <= nIndex + nPending
    ensures aMerged[..outPos] == Merge(aIndex[..nIndex], aPending[..nPending])
  {
    ghost var A, P := aIndex[..nIndex], aPending[..nPending];
    hide Merge, Key, Progress;
    var idxPos: nat, pendPos: nat := 0, 0;
    outPos := 0;
    ProgressStart(A, P);
    while idxPos < nIndex && pendPos < nPending
      invariant pendPos <= nPending && idxPos <= nIndex && outPos <= idxPos + pendPos
      invariant aIndex[..nIndex] == A && aPending[..nPending] == P
      invariant Progress(A, P, idxPos, pendPos, aMerged[..outPos])
      decreases nIndex + nPending - idxPos - pendPos
    {
      var cmp := Compare(aIndex[idxPos].hash, aPending[pendPos].hash);
      ProgressStep(A, P, idxPos, pendPos, aMerged[..outPos]);
      if cmp < 0 {
        Emit(aMerged, outPos, aIndex[idxPos]);
        idxPos := idxPos + 1;
      } else if cmp > 0 {
        Emit(aMerged, outPos, aPending[pendPos]);
        pendPos := pendPos + 1;
      } else {
        Emit(aMerged, outPos, aPending[pendPos]);
        pendPos := pendPos + 1;
        idxPos := idxPos + 1;
      }
      outPos := outPos + 1;
    }
    ProgressEnd(A, P, idxPos, pendPos, aMerged[..outPos]);
    outPos := CopyRest(aIndex, nIndex, idxPos, aMerged, outPos);
    outPos := CopyRest(aPending, nPending, pendPos, aMerged, outPos);
  }

  method CopyRest(src: array<Entry>, n: nat, from: nat, aMerged: array<Entry>, outPos0: nat) returns (outPos: nat)
    requires from <= n <= src.Length && src != aMerged && outPos0 + (n - from) <= aMerged.Length
    modifies aMerged
    ensures outPos == outPos0 + (n - from)
    ensures aMerged[..outPos] == old(aMerged[..outPos0]) + src[from..n]
  {
    outPos := outPos0;
    var i := from;
    while i < n
      invariant from <= i <= n && outPos == outPos0 + (i - from)
      invariant aMerged[..outPos] == old(aMerged[..outPos0]) + src[from..i]
    {
      aMerged[outPos] := src[i];
      outPos := outPos + 1;
      i := i + 1;
    }
  }

  /** csMergeIndex(). `sorted` is what qsort() makes of the pending entries, and `allocOk`
      whether the output can be allocated. */
  method MergeIndex(aIndex: array<Entry>, nIndex: nat, aPending: array<Entry>, nPending: nat,
                    sorted: seq<Entry>, allocOk: bool)
      returns (rc: Status, aMerged: array<Entry>, nMerged: nat)
    requires aIndex != aPending && nIndex <= aIndex.Length && nPending <= aPending.Length
    requires Sorted(aIndex[..nIndex])
    requires Sorted(sorted) && multiset(sorted) == multiset(aPending[..nPending])
    modifies aPending
    ensures rc == if nIndex + nPending > 0 && !allocOk then NoMem else Ok
    ensures rc == NoMem ==> nMerged == 0 && aPending[..] == old(aPending[..])
    ensures rc == Ok ==>
      && nMerged <= aMerged.Length && aMerged[..nMerged] == Merge(aIndex[..nIndex], aPending[..nPending])
      && Sorted(aPending[..nPending]) && multiset(aPending[..nPending]) == multiset(sorted)
    ensures aPending[nPending..] == old(aPending[nPending..])
  {
    ghost var P := aPending[..nPending];
    assert |sorted| == |multiset(sorted)| == |multiset(P)| == nPending;
    hide Merge, Sorted, Key;
    var nTotal := nIndex + nPending;
    aMerged := new Entry[nTotal](_ => Entry(seq(HASH_SIZE, _ => 0), 0, 0));
    if nTotal == 0 {
      MergeNothing();
      SortedShort(P);
      return Ok, aMerged, 0;
    }
    if !allocOk { return NoMem, aMerged, 0; }
    if nPending > 1 {
      Place(aPending, sorted);
    } else {
      SortedShort(P);
    }
    if 0 < nPending <= 32 {
      nMerged := MergeSmall(aIndex, nIndex, aPending, nPending, aMerged);
    } else {
      nMerged := MergeLarge(aIndex, nIndex, aPending, nPending, aMerged);
    }
    rc := Ok;
  }

  lemma MergeNothing()
    ensures Merge([], []) == []
  {
  }

  lemma SortedShort(s: seq<Entry>)
    requires |s| <= 1
    ensures Sorted(s)
  {
  }

  method Place(a: array<Entry>, s: seq<Entry>)
    requires |s| <= a.Length
    modifies a
    ensures a[..|s|] == s && a[|s|..] == old(a[|s|..])
  {
    forall k | 0 <= k < |s| { a[k] := s[k]; }
  }

  // ---- lookups after a merge ----

  lemma SameHash(x: Entry, h: Hash)
    ensures K(x) == Key(h) <==> x.hash == h
  {
    var _ := Compare(x.hash, h);
  }

  lemma PendingIsHas(x: Entry, p: seq<Entry>)
    ensures Pending(x, p) <==> Has(p, x.hash)
  {
    if Pending(x, p) {
      var i :| 0 <= i < |p| && K(p[i]) == K(x);
      SameHash(p[i], x.hash);
    }
  }

  /** Searching the merged index, whatever match the binary search lands on: a hash is found
      exactly if the index or the pending entries had it, and the entry found is a pending
      one if there is one. Only the old index must be free of duplicates. */
  lemma LookupAfterMerge(a: seq<Entry>, p: seq<Entry>, h: Hash, r: int)
    requires Strict(a) && Sorted(p)
    requires var m := Merge(a, p);
             && -1 <= r < |m| && (r >= 0 ==> m[r].hash == h)
             && (r == -1 <==> !Has(m, h))
    ensures r >= 0 <==> Has(a, h) || Has(p, h)
    ensures r >= 0 && Has(p, h) ==> Merge(a, p)[r] in p
    ensures r >= 0 && !Has(p, h) ==> Merge(a, p)[r] in a
  {
    var m := Merge(a, p);
    if r >= 0 {
      MergeMembers(a, p, m[r]);
      PendingIsHas(m[r], p);
    } else {
      if i :| 0 <= i < |p| && p[i].hash == h { Kept(a, p, p[i]); }
      if i :| 0 <= i < |a| && a[i].hash == h { Kept(a, p, a[i]); }
    }
  }

  /** The hash of every entry of either input is in the merge. */
  lemma Kept(a: seq<Entry>, p: seq<Entry>, x: Entry)
    requires Strict(a) && Sorted(p) && (x in a || x in p)
    ensures Has(Merge(a, p), x.hash)
  {
    MergeMembers(a, p, x);
    if x !in Merge(a, p) {
      PendingIsHas(x, p);
      var i :| 0 <= i < |p| && p[i].hash == x.hash;
      MergeMembers(a, p, p[i]);
    }
  }
}
