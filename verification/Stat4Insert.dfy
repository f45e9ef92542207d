// sampleInsert() on the array of retained samples.
module Stat4Insert {
  import opened RunCounts
  import opened Stat4

  /** Samples of the run that s closes rank below s, as the source asserts. */
  ghost predicate RanksBelow(t: Sample, s: Sample)
    requires !s.isPSample && s.iCol < |s.anEq|
  {
    && |t.anEq| == |s.anEq|
    && (t.anEq[s.iCol] == 0 && !t.isPSample ==>
          s.iCol < t.iCol < |t.anEq| && SampleIsBetter(s, t))
  }

  ghost predicate PeriodicOpen(a: seq<Sample>, i: nat)
  {
    exists k :: 0 <= k < |a| && i < |a[k].anEq| && a[k].anEq[i] == 0 && a[k].isPSample
  }

  /** Look for older samples of the new one's open run: -1 when there is none, -2 when
      one of them is periodic, else the highest-priority one. */
  method FindUpgrade(a: seq<Sample>, s: Sample) returns (up: int)
    requires !s.isPSample && s.iCol < |s.anEq|
    requires forall k :: 0 <= k < |a| ==> |a[k].anEq| == |s.anEq| && RanksBelow(a[k], s)
    ensures -2 <= up < |a|
    ensures up >= 0 ==> IsBestOpen(a, up, s.iCol, |s.anEq|)
    ensures up == -1 ==> forall k :: 0 <= k < |a| ==> a[k].anEq[s.iCol] != 0
    ensures up == -2 <==> PeriodicOpen(a, s.iCol)
  {
    up := -1;
    var i := |a|;
    while i > 0
      invariant 0 <= i <= |a| && -1 <= up < |a|
      invariant up >= 0 ==> IsOpen(a, up, s.iCol, |s.anEq|)
      invariant up >= 0 ==> forall k :: i <= k && IsOpen(a, k, s.iCol, |s.anEq|) ==> !SampleIsBetter(a[k], a[up])
      invariant up == -1 ==> forall k :: i <= k < |a| ==> a[k].anEq[s.iCol] != 0
      invariant forall k :: i <= k < |a| && a[k].anEq[s.iCol] == 0 ==> !a[k].isPSample
    {
      i := i - 1;
      assert RanksBelow(a[i], s);
      if a[i].anEq[s.iCol] == 0 {
        if a[i].isPSample { return -2; }
        assert a[i].iCol > s.iCol;
        assert SampleIsBetter(s, a[i]);
        assert IsOpen(a, i, s.iCol, |s.anEq|);
        if up == -1 || SampleIsBetter(a[i], a[up]) {
          NowBest(a, i, up, s.iCol, |s.anEq|);
          up := i;
        }
      }
    }
  }

  lemma NowBest(a: seq<Sample>, i: int, up: int, c: nat, nCol: nat)
    requires IsOpen(a, i, c, nCol)
    requires up >= 0 ==> IsOpen(a, up, c, nCol) && SampleIsBetter(a[i], a[up])
    requires up >= 0 ==> forall k :: i < k && IsOpen(a, k, c, nCol) ==> !SampleIsBetter(a[k], a[up])
    requires up == -1 ==> forall k :: i < k < |a| && c < |a[k].anEq| ==> a[k].anEq[c] != 0
    requires up >= -1
    ensures forall k :: i <= k && IsOpen(a, k, c, nCol) ==> !SampleIsBetter(a[k], a[i])
  {
    forall k | i <= k && IsOpen(a, k, c, nCol) ensures !SampleIsBetter(a[k], a[i]) {
      if k == i {
        BetterFromIrreflexive(a[i], a[i].iCol + 1);
      } else if up >= 0 && SampleIsBetter(a[k], a[i]) {
        BetterTransitive(a[k], a[i], a[up], nCol);
      }
    }
  }

  /** Recompute iMin when the array is full; a full array always has a sample that is
      not periodic, and iMin becomes one of the least desirable. */
  method FindNewMin(a: seq<Sample>, mxSample: nat, oldMin: nat,
                    ghost chg: seq<Step>, ghost nCol: nat, ghost level: int) returns (iMin: nat)
    requires 0 < mxSample && |a| <= mxSample && |PeriodicPositions(a)| < mxSample
    requires AllRetained(a, chg, nCol, level)
    ensures if |a| == mxSample then IsLeast(a, iMin, nCol) else iMin == oldMin
  {
    iMin := oldMin;
    if |a| >= mxSample {
      assert forall k :: 0 <= k < |a| ==> |a[k].anEq| == nCol && (!a[k].isPSample ==> a[k].iCol < nCol) by {
        AllRetainedShape(a, chg, nCol, level);
      }
      var m := -1;
      for i := 0 to mxSample
        invariant -1 <= m < i
        invariant m >= 0 ==> Ranked(a[m], nCol)
        invariant m >= 0 ==> forall k :: 0 <= k < i && Ranked(a[k], nCol) ==> !SampleIsBetter(a[m], a[k])
        invariant m == -1 ==> forall k :: 0 <= k < i ==> a[k].isPSample
      {
        m := LeastNext(a, i, m, nCol);
      }
      if m < 0 { AllPeriodic(a); }
      iMin := m;
    }
  }

  /** One turn of that search: m is the least desirable of the samples seen so far that are
      not periodic, or -1. */
  method LeastNext(a: seq<Sample>, i: nat, m: int, ghost nCol: nat) returns (m': int)
    requires i < |a| && -1 <= m < i && (!a[i].isPSample ==> Ranked(a[i], nCol))
    requires m >= 0 ==> Ranked(a[m], nCol)
    requires m >= 0 ==> forall k :: 0 <= k < i && Ranked(a[k], nCol) ==> !SampleIsBetter(a[m], a[k])
    requires m == -1 ==> forall k :: 0 <= k < i ==> a[k].isPSample
    ensures -1 <= m' <= i && (m' >= 0 ==> Ranked(a[m'], nCol))
    ensures m' >= 0 ==> forall k :: 0 <= k <= i && Ranked(a[k], nCol) ==> !SampleIsBetter(a[m'], a[k])
    ensures m' == -1 ==> forall k :: 0 <= k <= i ==> a[k].isPSample
  {
    m' := m;
    if a[i].isPSample { return; }
    if m < 0 || SampleIsBetter(a[m], a[i]) {
      NowLeast(a, i, m, nCol);
      m' := i;
    }
  }

  lemma NowLeast(a: seq<Sample>, i: nat, m: int, nCol: nat)
    requires i < |a| && Ranked(a[i], nCol) && -1 <= m < i
    requires m >= 0 ==> Ranked(a[m], nCol) && SampleIsBetter(a[m], a[i])
    requires m >= 0 ==> forall k :: 0 <= k < i && Ranked(a[k], nCol) ==> !SampleIsBetter(a[m], a[k])
    requires m == -1 ==> forall k :: 0 <= k < i ==> a[k].isPSample
    ensures forall k :: 0 <= k <= i && Ranked(a[k], nCol) ==> !SampleIsBetter(a[i], a[k])
  {
    forall k | 0 <= k <= i && Ranked(a[k], nCol) ensures !SampleIsBetter(a[i], a[k]) {
      if k == i {
        BetterFromIrreflexive(a[i], a[i].iCol + 1);
      } else if m >= 0 && SampleIsBetter(a[i], a[k]) {
        BetterTransitive(a[m], a[i], a[k], nCol);
      }
    }
  }

  /** What sampleInsert() makes of the array: nothing if a periodic sample of the run is
      there already; else the best sample of the run upgraded; else the new sample at the
      end, in place of the least desirable one if the array was full. */
  ghost predicate InsertResult(a: seq<Sample>, iMin: nat, mxSample: nat, s: Sample, n: nat, nCol: nat, b: seq<Sample>)
    requires n <= |s.anEq| && (|a| == mxSample ==> iMin < |a|)
  {
    if !s.isPSample && PeriodicOpen(a, s.iCol) then b == a
    else if !s.isPSample && exists k :: IsOpen(a, k, s.iCol, nCol) then
      exists up :: IsBestOpen(a, up, s.iCol, nCol) && s.iCol < |s.anEq| && b == a[up := Upgraded(a[up], s)]
    else b == Appended(if |a| == mxSample then Evicted(a, iMin) else a, s, n)
  }

  /** The sample array, once counts above `level` may have been closed; none is open from
      column m on. */
  ghost predicate Fits(a: seq<Sample>, iMin: nat, mxSample: nat, chg: seq<Step>, nCol: nat, level: int, m: nat)
  {
    && AllRetained(a, chg, nCol, level)
    && Ordered(a)
    && ClosedFrom(a, m)
    && |a| <= mxSample
    && (|a| == mxSample ==> iMin < |a| && !a[iMin].isPSample)
  }

  /** The array b that sampleInsert() makes of a. */
  ghost predicate InsertOk(a: seq<Sample>, iMin: nat, mxSample: nat, s: Sample, n: nat,
                           chg: seq<Step>, nCol: nat, m: nat, b: seq<Sample>)
  {
    && n <= |s.anEq| && |a| <= |b| <= mxSample && (|a| == mxSample ==> iMin < |a|)
    && AllRetained(b, chg, nCol, n - 1) && Ordered(b) && ClosedFrom(b, m)
    && PeriodicPositions(b) == PeriodicPositions(a) + (if s.isPSample then [Pos(s)] else [])
    && InsertResult(a, iMin, mxSample, s, n, nCol, b)
  }

  /** The array with the new sample in it; `done` when sampleInsert() returns early. */
  method Inserted(a: seq<Sample>, iMin: nat, mxSample: nat, s: Sample, nEqZero: nat,
                  ghost chg: seq<Step>, ghost nCol: nat, ghost m: nat) returns (b: seq<Sample>, done: bool)
    requires 0 < mxSample && Fits(a, iMin, mxSample, chg, nCol, nEqZero, m)
    requires Insertable(s, chg, nCol, nEqZero) && nEqZero <= m
    requires s.isPSample ==> forall k :: 0 <= k < |a| ==> Pos(a[k]) < Pos(s)
    ensures InsertOk(a, iMin, mxSample, s, nEqZero, chg, nCol, m, b)
    ensures (done <==> !s.isPSample && PeriodicOpen(a, s.iCol)) && (done ==> b == a)
  {
    var up := -1;
    if !s.isPSample {
      assert forall k :: 0 <= k < |a| ==> |a[k].anEq| == |s.anEq| && RanksBelow(a[k], s) by {
        NewRanksAboveAll(s, a, chg, nCol);
      }
      up := FindUpgrade(a, s);
      if up == -1 { NewComesLast(s, a, chg, nCol, nEqZero); }
    }
    AllRetainedShape(a, chg, nCol, nEqZero);
    hide InsertOk, Fits, Insertable, PeriodicOpen, IsBestOpen;
    done := up == -2;
    if up == -2 {
      SameOk(a, iMin, mxSample, s, nEqZero, chg, nCol, m);
      b := a;
    } else if up >= 0 {
      UpgradeOk(a, iMin, mxSample, s, nEqZero, chg, nCol, m, up);
      b := a[up := Upgraded(a[up], s)];
    } else {
      b := Append(a, iMin, mxSample, s, nEqZero, chg, nCol, m);
    }
  }

  /** Evict iMin when the array is full, then append the new sample at the end. */
  method Append(a: seq<Sample>, iMin: nat, mxSample: nat, s: Sample, nEqZero: nat,
                ghost chg: seq<Step>, ghost nCol: nat, ghost m: nat) returns (b: seq<Sample>)
    requires 0 < mxSample && Fits(a, iMin, mxSample, chg, nCol, nEqZero, m)
    requires Insertable(s, chg, nCol, nEqZero) && nEqZero <= m
    requires s.isPSample || forall k :: 0 <= k < |a| ==>
               |a[k].anEq| == |s.anEq| && s.iCol < |s.anEq| && a[k].anEq[s.iCol] != 0
    requires forall k :: 0 <= k < |a| ==> Pos(a[k]) < Pos(s)
    ensures InsertOk(a, iMin, mxSample, s, nEqZero, chg, nCol, m, b)
    ensures s.isPSample || !PeriodicOpen(a, s.iCol)
  {
    AppendOk(a, iMin, mxSample, s, nEqZero, chg, nCol, m);
    InsertableShape(s, chg, nCol, nEqZero);
    hide InsertOk, Insertable, PeriodicOpen, AllRetained, Ordered, ClosedFrom;
    b := a;
    if |a| >= mxSample { b := Evicted(a, iMin); }
    assert |b| == 0 || Pos(s) > Pos(b[|b| - 1]);
    b := Appended(b, s, nEqZero);
  }

  lemma AppendOk(a: seq<Sample>, iMin: nat, mxSample: nat, s: Sample, n: nat, chg: seq<Step>, nCol: nat, m: nat)
    requires 0 < mxSample && Fits(a, iMin, mxSample, chg, nCol, n, m)
    requires Insertable(s, chg, nCol, n) && n <= m
    requires s.isPSample || forall k :: 0 <= k < |a| ==>
               |a[k].anEq| == |s.anEq| && s.iCol < |s.anEq| && a[k].anEq[s.iCol] != 0
    requires forall k :: 0 <= k < |a| ==> Pos(a[k]) < Pos(s)
    ensures n <= |s.anEq|
    ensures InsertOk(a, iMin, mxSample, s, n, chg, nCol, m,
                     Appended(if |a| == mxSample then Evicted(a, iMin) else a, s, n))
    ensures s.isPSample || !PeriodicOpen(a, s.iCol)
  {
    hide Fits, InsertOk, Insertable, Retained, AllRetained, Ordered, ClosedFrom, PeriodicPositions, PeriodicOpen,
         InsertResult, SampleIsBetter, ZeroFirst, Pos;
    InsertableShape(s, chg, nCol, n);
    FitsMeans(a, iMin, mxSample, chg, nCol, n, m);
    RetainedWeaken(a, chg, nCol, n);
    ResultAppended(a, iMin, mxSample, s, n, nCol);
    var b := if |a| == mxSample then Evicted(a, iMin) else a;
    if |a| == mxSample { EvictArray(a, iMin, chg, nCol, n - 1, m, Pos(s)); }
    AppendArray(b, s, chg, nCol, n, m);
    MakeInsertOk(a, iMin, mxSample, s, n, chg, nCol, m, Appended(b, s, n));
  }

  lemma FitsMeans(a: seq<Sample>, iMin: nat, mxSample: nat, chg: seq<Step>, nCol: nat, level: int, m: nat)
    requires Fits(a, iMin, mxSample, chg, nCol, level, m)
    ensures AllRetained(a, chg, nCol, level) && Ordered(a) && ClosedFrom(a, m) && |a| <= mxSample
    ensures |a| == mxSample ==> iMin < |a| && !a[iMin].isPSample
  {
  }

  lemma MakeInsertOk(a: seq<Sample>, iMin: nat, mxSample: nat, s: Sample, n: nat,
                     chg: seq<Step>, nCol: nat, m: nat, b: seq<Sample>)
    requires n <= |s.anEq| && |a| <= |b| <= mxSample && (|a| == mxSample ==> iMin < |a|)
    requires AllRetained(b, chg, nCol, n - 1) && Ordered(b) && ClosedFrom(b, m)
    requires PeriodicPositions(b) == PeriodicPositions(a) + (if s.isPSample then [Pos(s)] else [])
    requires InsertResult(a, iMin, mxSample, s, n, nCol, b)
    ensures InsertOk(a, iMin, mxSample, s, n, chg, nCol, m, b)
  {
  }

  lemma InsertableShape(s: Sample, chg: seq<Step>, nCol: nat, n: nat)
    requires Insertable(s, chg, nCol, n)
    ensures n <= |s.anEq| == nCol && (!s.isPSample ==> s.iCol == n < nCol)
  {
  }

  /** All of sampleInsert() but nMaxEqZero: the new array and the new iMin. */
  method InsertInto(a: seq<Sample>, iMin0: nat, mxSample: nat, s: Sample, nEqZero: nat,
                    ghost chg: seq<Step>, ghost nCol: nat, ghost m: nat) returns (b: seq<Sample>, iMin: nat)
    requires 0 < mxSample && Fits(a, iMin0, mxSample, chg, nCol, nEqZero, m)
    requires Insertable(s, chg, nCol, nEqZero) && nEqZero <= m
    requires s.isPSample ==> forall k :: 0 <= k < |a| ==> Pos(a[k]) < Pos(s)
    requires |PeriodicPositions(a)| + (if s.isPSample then 1 else 0) < mxSample
    ensures InsertOk(a, iMin0, mxSample, s, nEqZero, chg, nCol, m, b)
    ensures Fits(b, iMin, mxSample, chg, nCol, nEqZero - 1, m)
    ensures NewMin(iMin0, mxSample, !s.isPSample && PeriodicOpen(a, s.iCol), nCol, b, iMin)
  {
    hide InsertOk, Fits, PeriodicOpen, Insertable, AllRetained, IsLeast;
    var done;
    b, done := Inserted(a, iMin0, mxSample, s, nEqZero, chg, nCol, m);
    InsertRoom(a, iMin0, mxSample, s, nEqZero, chg, nCol, m, b);
    iMin := iMin0;
    if !done { iMin := FindNewMin(b, mxSample, iMin, chg, nCol, nEqZero - 1); }
    InsertFits(a, iMin0, mxSample, s, nEqZero, chg, nCol, m, b, done, iMin);
  }

  /** There always is a sample that is not periodic. */
  lemma InsertRoom(a: seq<Sample>, iMin0: nat, mxSample: nat, s: Sample, n: nat, chg: seq<Step>, nCol: nat, m: nat,
                   b: seq<Sample>)
    requires InsertOk(a, iMin0, mxSample, s, n, chg, nCol, m, b)
    ensures |PeriodicPositions(b)| == |PeriodicPositions(a)| + if s.isPSample then 1 else 0
    ensures |b| <= mxSample && AllRetained(b, chg, nCol, n - 1)
  {
    hide AllRetained, Ordered, ClosedFrom, PeriodicPositions, InsertResult;
  }

  lemma InsertFits(a: seq<Sample>, iMin0: nat, mxSample: nat, s: Sample, n: nat, chg: seq<Step>, nCol: nat, m: nat,
                   b: seq<Sample>, done: bool, iMin: nat)
    requires InsertOk(a, iMin0, mxSample, s, n, chg, nCol, m, b)
    requires if done then Fits(a, iMin0, mxSample, chg, nCol, n, m) && b == a && iMin == iMin0
             else if |b| == mxSample then IsLeast(b, iMin, nCol) else iMin == iMin0
    ensures Fits(b, iMin, mxSample, chg, nCol, n - 1, m) && NewMin(iMin0, mxSample, done, nCol, b, iMin)
  {
    hide AllRetained, Ordered, ClosedFrom, PeriodicPositions, InsertResult, SampleIsBetter;
  }

  /** iMin is recomputed whenever the array is full and sampleInsert() did not return early. */
  ghost predicate NewMin(iMin0: nat, mxSample: nat, done: bool, nCol: nat, b: seq<Sample>, iMin: nat)
  {
    if done || |b| < mxSample then iMin == iMin0 else IsLeast(b, iMin, nCol)
  }

  /** The test made before a candidate is inserted. */
  predicate Wins(b: Sample, a: seq<Sample>, iMin: nat, mxSample: nat, nCol: nat)
  {
    |a| < mxSample || (iMin < |a| && Ranked(b, nCol) && Ranked(a[iMin], nCol) && SampleIsBetter(b, a[iMin]))
  }

  lemma InsertOkMeans(a: seq<Sample>, iMin: nat, mxSample: nat, s: Sample, n: nat, chg: seq<Step>, nCol: nat, m: nat)
    ensures forall b :: InsertOk(a, iMin, mxSample, s, n, chg, nCol, m, b) ==>
      PeriodicPositions(b) == PeriodicPositions(a) + if s.isPSample then [Pos(s)] else []
  {
  }

  lemma SameOk(a: seq<Sample>, iMin: nat, mxSample: nat, s: Sample, n: nat, chg: seq<Step>, nCol: nat, m: nat)
    requires Fits(a, iMin, mxSample, chg, nCol, n, m) && Insertable(s, chg, nCol, n)
    requires !s.isPSample && PeriodicOpen(a, s.iCol)
    ensures InsertOk(a, iMin, mxSample, s, n, chg, nCol, m, a)
  {
    RetainedWeaken(a, chg, nCol, n);
    ResultSame(a, iMin, mxSample, s, n, nCol);
  }

  lemma UpgradeOk(a: seq<Sample>, iMin: nat, mxSample: nat, s: Sample, n: nat, chg: seq<Step>, nCol: nat, m: nat,
                  up: nat)
    requires Fits(a, iMin, mxSample, chg, nCol, n, m) && Insertable(s, chg, nCol, n)
    requires !s.isPSample && !PeriodicOpen(a, s.iCol) && IsBestOpen(a, up, s.iCol, nCol)
    ensures up < |a| && s.iCol < |a[up].anEq| && s.iCol < |s.anEq|
    ensures InsertOk(a, iMin, mxSample, s, n, chg, nCol, m, a[up := Upgraded(a[up], s)])
  {
    hide Fits, InsertOk, Insertable, Retained, AllRetained, Ordered, ClosedFrom, PeriodicPositions, PeriodicOpen,
         InsertResult, SampleIsBetter, IsBestOpen, Upgraded, Pos;
    InsertableShape(s, chg, nCol, n);
    FitsMeans(a, iMin, mxSample, chg, nCol, n, m);
    BestIsOpen(a, up, s.iCol, nCol);
    ResultUpgraded(a, iMin, mxSample, s, n, nCol, up);
    UpgradeArray(a, up, s, chg, nCol, m);
    assert PeriodicPositions(a) + [] == PeriodicPositions(a);
    MakeInsertOk(a, iMin, mxSample, s, n, chg, nCol, m, a[up := Upgraded(a[up], s)]);
  }

  lemma ResultSame(a: seq<Sample>, iMin: nat, mxSample: nat, s: Sample, n: nat, nCol: nat)
    requires n <= |s.anEq| && (|a| == mxSample ==> iMin < |a|)
    requires !s.isPSample && PeriodicOpen(a, s.iCol)
    ensures InsertResult(a, iMin, mxSample, s, n, nCol, a)
  {
  }

  lemma ResultUpgraded(a: seq<Sample>, iMin: nat, mxSample: nat, s: Sample, n: nat, nCol: nat, up: nat)
    requires n <= |s.anEq| == nCol && (|a| == mxSample ==> iMin < |a|)
    requires !s.isPSample && !PeriodicOpen(a, s.iCol) && IsBestOpen(a, up, s.iCol, nCol)
    ensures InsertResult(a, iMin, mxSample, s, n, nCol, a[up := Upgraded(a[up], s)])
  {
  }

  lemma ResultAppended(a: seq<Sample>, iMin: nat, mxSample: nat, s: Sample, n: nat, nCol: nat)
    requires n <= |s.anEq| == nCol && (|a| == mxSample ==> iMin < |a|)
    requires s.isPSample || (s.iCol < nCol && forall k :: 0 <= k < |a| ==>
               |a[k].anEq| == nCol && a[k].anEq[s.iCol] != 0)
    ensures InsertResult(a, iMin, mxSample, s, n, nCol, Appended(if |a| == mxSample then Evicted(a, iMin) else a, s, n))
    ensures s.isPSample || !PeriodicOpen(a, s.iCol)
  {
  }

  lemma BestIsOpen(a: seq<Sample>, up: int, i: nat, nCol: nat)
    requires IsBestOpen(a, up, i, nCol)
    ensures IsOpen(a, up, i, nCol)
  {
  }

  // ---- the three ways the array changes ----

  lemma UpgradeArray(a: seq<Sample>, up: nat, s: Sample, chg: seq<Step>, nCol: nat, m: nat)
    requires !s.isPSample && Insertable(s, chg, nCol, s.iCol)
    requires AllRetained(a, chg, nCol, s.iCol) && Ordered(a) && ClosedFrom(a, m)
    requires up < |a| && a[up].anEq[s.iCol] == 0 && !a[up].isPSample
    ensures var b := a[up := Upgraded(a[up], s)];
            && AllRetained(b, chg, nCol, s.iCol - 1) && Ordered(b) && ClosedFrom(b, m)
            && PeriodicPositions(b) == PeriodicPositions(a)
  {
    var b := a[up := Upgraded(a[up], s)];
    RetainedWeaken(a, chg, nCol, s.iCol);
    UpgradedIsRetained(a[up], s, chg, nCol, s.iCol);
    assert ExactAt(s, chg, s.iCol);
    UpgradeKeepsShape(a, up, Upgraded(a[up], s), m);
  }

  lemma UpgradeKeepsShape(a: seq<Sample>, up: nat, u: Sample, m: nat)
    requires Ordered(a) && ClosedFrom(a, m) && up < |a|
    requires Pos(u) == Pos(a[up]) && |u.anEq| == |a[up].anEq|
    requires forall j :: 0 <= j < |u.anEq| && a[up].anEq[j] != 0 ==> u.anEq[j] != 0
    requires !u.isPSample && !a[up].isPSample
    ensures Ordered(a[up := u]) && ClosedFrom(a[up := u], m)
    ensures PeriodicPositions(a[up := u]) == PeriodicPositions(a)
  {
    DropNonPeriodic(a, up);
    DropNonPeriodic(a[up := u], up);
    assert Evicted(a, up) == Evicted(a[up := u], up);
  }

  lemma NewRanksAboveAll(s: Sample, a: seq<Sample>, chg: seq<Step>, nCol: nat)
    requires !s.isPSample && Insertable(s, chg, nCol, s.iCol)
    requires AllRetained(a, chg, nCol, s.iCol)
    ensures forall k :: 0 <= k < |a| ==> |a[k].anEq| == |s.anEq| && RanksBelow(a[k], s)
  {
    forall k | 0 <= k < |a| ensures |a[k].anEq| == |s.anEq| && RanksBelow(a[k], s) {
      assert Retained(a[k], chg, nCol, s.iCol);
      if a[k].anEq[s.iCol] == 0 && !a[k].isPSample { NewRanksAbove(s, a[k], chg, nCol, s.iCol); }
    }
  }

  lemma AllRetainedShape(a: seq<Sample>, chg: seq<Step>, nCol: nat, level: int)
    requires AllRetained(a, chg, nCol, level)
    ensures forall k :: 0 <= k < |a| ==> |a[k].anEq| == nCol && (!a[k].isPSample ==> a[k].iCol < nCol)
  {
  }

  function Evicted(a: seq<Sample>, i: nat): seq<Sample>
    requires i < |a|
  {
    a[..i] + a[i + 1..]
  }

  lemma EvictArray(a: seq<Sample>, i: nat, chg: seq<Step>, nCol: nat, level: int, m: nat, pos: nat)
    requires AllRetained(a, chg, nCol, level) && Ordered(a) && ClosedFrom(a, m)
    requires i < |a| && !a[i].isPSample
    requires forall k :: 0 <= k < |a| ==> Pos(a[k]) < pos
    ensures var b := Evicted(a, i);
            && AllRetained(b, chg, nCol, level) && Ordered(b) && ClosedFrom(b, m)
            && PeriodicPositions(b) == PeriodicPositions(a)
            && forall k :: 0 <= k < |b| ==> Pos(b[k]) < pos
  {
    EvictedOrdered(a, i);
    EvictedRetained(a, i, chg, nCol, level);
    DropNonPeriodic(a, i);
  }

  lemma EvictedRetained(a: seq<Sample>, i: nat, chg: seq<Step>, nCol: nat, level: int)
    requires AllRetained(a, chg, nCol, level) && i < |a|
    ensures AllRetained(Evicted(a, i), chg, nCol, level)
  {
  }

  lemma EvictedOrdered(a: seq<Sample>, i: nat)
    requires Ordered(a) && i < |a|
    ensures Ordered(Evicted(a, i))
  {
  }

  lemma EvictedPrefix(a: seq<Sample>, i: nat)
    requires i < |a|
    ensures i == |a| - 1 ==> Evicted(a, i) == a[..i]
    ensures i < |a| - 1 ==>
              && Evicted(a, i)[..|a| - 2] == Evicted(a[..|a| - 1], i)
              && Evicted(a, i)[|a| - 2] == a[|a| - 1]
  {
  }

  lemma {:induction false} DropNonPeriodic(a: seq<Sample>, i: nat)
    requires i < |a| && !a[i].isPSample
    ensures PeriodicPositions(Evicted(a, i)) == PeriodicPositions(a)
  {
    EvictedPrefix(a, i);
    if i < |a| - 1 { DropNonPeriodic(a[..|a| - 1], i); }
  }

  function Appended(a: seq<Sample>, s: Sample, nEqZero: nat): seq<Sample>
    requires nEqZero <= |s.anEq|
  {
    a + [ZeroFirst(s, nEqZero)]
  }

  lemma AppendArray(a: seq<Sample>, s: Sample, chg: seq<Step>, nCol: nat, nEqZero: nat, m: nat)
    requires AllRetained(a, chg, nCol, nEqZero - 1) && Insertable(s, chg, nCol, nEqZero)
    requires Ordered(a) && ClosedFrom(a, m) && nEqZero <= m
    requires forall k :: 0 <= k < |a| ==> Pos(a[k]) < Pos(s)
    ensures var b := Appended(a, s, nEqZero);
            && AllRetained(b, chg, nCol, nEqZero - 1) && Ordered(b) && ClosedFrom(b, m)
            && PeriodicPositions(b) == PeriodicPositions(a) + (if s.isPSample then [Pos(s)] else [])
  {
    AppendRetained(a, s, chg, nCol, nEqZero);
    AppendKeepsShape(a, ZeroFirst(s, nEqZero), m);
  }

  lemma AppendRetained(a: seq<Sample>, s: Sample, chg: seq<Step>, nCol: nat, nEqZero: nat)
    requires AllRetained(a, chg, nCol, nEqZero - 1) && Insertable(s, chg, nCol, nEqZero)
    ensures AllRetained(a + [ZeroFirst(s, nEqZero)], chg, nCol, nEqZero - 1)
    ensures Pos(ZeroFirst(s, nEqZero)) == Pos(s)
    ensures forall j :: nEqZero <= j < nCol ==> ZeroFirst(s, nEqZero).anEq[j] != 0
  {
    InsertedIsRetained(s, chg, nCol, nEqZero);
    forall j | nEqZero <= j < nCol ensures ZeroFirst(s, nEqZero).anEq[j] != 0 {
      assert ExactAt(s, chg, j);
    }
  }

  lemma AppendKeepsShape(a: seq<Sample>, t: Sample, m: nat)
    requires Ordered(a) && ClosedFrom(a, m)
    requires forall k :: 0 <= k < |a| ==> Pos(a[k]) < Pos(t)
    requires forall j :: m <= j < |t.anEq| ==> t.anEq[j] != 0
    ensures Ordered(a + [t]) && ClosedFrom(a + [t], m)
    ensures PeriodicPositions(a + [t]) == PeriodicPositions(a) + (if t.isPSample then [Pos(t)] else [])
  {
    PeriodicAppend(a, t);
    ClosedAppend(a, t, m);
    hide ClosedFrom, PeriodicPositions, Pos;
  }

  lemma ClosedAppend(a: seq<Sample>, t: Sample, m: nat)
    requires ClosedFrom(a, m) && forall j :: m <= j < |t.anEq| ==> t.anEq[j] != 0
    ensures ClosedFrom(a + [t], m)
  {
  }

  lemma PeriodicAppend(a: seq<Sample>, t: Sample)
    ensures PeriodicPositions(a + [t]) == PeriodicPositions(a) + (if t.isPSample then [Pos(t)] else [])
  {
    assert (a + [t])[..|a|] == a;
  }
}
