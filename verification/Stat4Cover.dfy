// Until the array is full, every run that has ended is represented by a sample.
module Stat4Cover {
  import opened RunCounts
  import opened Stat4
  import opened Stat4Insert

  ghost predicate HasSampleIn(a: seq<Sample>, lo: nat, hi: nat)
  {
    exists k :: 0 <= k < |a| && lo <= Pos(a[k]) < hi
  }

  /** While there is room in the array, each i-run that has ended, and the open one if i is
      above `level`, has a sample. */
  ghost predicate CoverOk(a: seq<Sample>, mxSample: nat, chg: seq<Step>, nCol: nat, level: int)
  {
    |a| < mxSample ==>
      forall i, r :: 0 <= i < nCol - 1 && 0 <= r < |chg| && (i > level || End(chg, r, i) < |chg|) ==>
        HasSampleIn(a, Start(chg, r, i), End(chg, r, i))
  }

  ghost predicate HasPos(b: seq<Sample>, p: nat)
  {
    exists l :: 0 <= l < |b| && Pos(b[l]) == p
  }

  /** No row loses its place in the array. */
  ghost predicate Keeps(a: seq<Sample>, b: seq<Sample>)
  {
    forall k :: 0 <= k < |a| ==> HasPos(b, Pos(a[k]))
  }

  lemma KeepsSample(a: seq<Sample>, b: seq<Sample>, lo: nat, hi: nat)
    requires Keeps(a, b) && HasSampleIn(a, lo, hi)
    ensures HasSampleIn(b, lo, hi)
  {
    var k :| 0 <= k < |a| && lo <= Pos(a[k]) < hi;
    var l :| 0 <= l < |b| && Pos(b[l]) == Pos(a[k]);
  }

  lemma CoverKeeps(a: seq<Sample>, b: seq<Sample>, mxSample: nat, chg: seq<Step>, nCol: nat, level: int)
    requires CoverOk(a, mxSample, chg, nCol, level) && Keeps(a, b) && (|b| < mxSample ==> |a| < mxSample)
    ensures CoverOk(b, mxSample, chg, nCol, level)
  {
    if |b| < mxSample {
      forall i, r | 0 <= i < nCol - 1 && 0 <= r < |chg| && (i > level || End(chg, r, i) < |chg|)
        ensures HasSampleIn(b, Start(chg, r, i), End(chg, r, i))
      {
        KeepsSample(a, b, Start(chg, r, i), End(chg, r, i));
      }
    }
  }

  lemma PosOfUpgraded(t: Sample, s: Sample)
    requires s.iCol < |t.anEq| && s.iCol < |s.anEq|
    ensures Pos(Upgraded(t, s)) == Pos(t)
  {
  }

  lemma InsertKeeps(a: seq<Sample>, iMin: nat, mxSample: nat, s: Sample, n: nat, chg: seq<Step>, nCol: nat, m: nat,
                    b: seq<Sample>)
    requires InsertOk(a, iMin, mxSample, s, n, chg, nCol, m, b) && |b| < mxSample
    ensures Keeps(a, b)
  {
    hide AllRetained, Ordered, ClosedFrom, PeriodicPositions, SampleIsBetter;
    if !s.isPSample && PeriodicOpen(a, s.iCol) {
    } else if !s.isPSample && exists k :: IsOpen(a, k, s.iCol, nCol) {
      var up :| IsBestOpen(a, up, s.iCol, nCol) && s.iCol < |s.anEq| && b == a[up := Upgraded(a[up], s)];
      PosOfUpgraded(a[up], s);
      forall k | 0 <= k < |a| ensures HasPos(b, Pos(a[k])) {
        assert Pos(b[k]) == Pos(a[k]);
      }
    } else {
      forall k | 0 <= k < |a| ensures HasPos(b, Pos(a[k])) {
        assert b[k] == a[k];
      }
    }
  }

  /** The run that the new sample was chosen for has a sample now. */
  lemma InsertCoversRun(a: seq<Sample>, iMin: nat, mxSample: nat, s: Sample, i: nat, chg: seq<Step>, nCol: nat,
                        m: nat, b: seq<Sample>)
    requires InsertOk(a, iMin, mxSample, s, i, chg, nCol, m, b)
    requires Fits(a, iMin, mxSample, chg, nCol, i, m) && Insertable(s, chg, nCol, i) && !s.isPSample
    ensures exists k :: 0 <= k < |b| && Pos(b[k]) < |chg| && InLastRun(chg, Pos(b[k]), i)
  {
    hide SampleIsBetter, PeriodicPositions, Ordered, ClosedFrom;
    if PeriodicOpen(a, i) {
      var k :| 0 <= k < |a| && i < |a[k].anEq| && a[k].anEq[i] == 0 && a[k].isPSample;
      assert Retained(a[k], chg, nCol, i);
      assert InLastRun(chg, Pos(b[k]), i);
    } else if exists k :: IsOpen(a, k, i, nCol) {
      var up :| IsBestOpen(a, up, i, nCol) && s.iCol < |s.anEq| && b == a[up := Upgraded(a[up], s)];
      assert Retained(a[up], chg, nCol, i);
      PosOfUpgraded(a[up], s);
      assert InLastRun(chg, Pos(b[up]), i);
    } else {
      assert b[|b| - 1] == ZeroFirst(s, i) && Pos(ZeroFirst(s, i)) == Pos(s);
    }
  }

  lemma CoverInsert(a: seq<Sample>, iMin: nat, mxSample: nat, s: Sample, i: nat, chg: seq<Step>, nCol: nat, m: nat,
                    b: seq<Sample>)
    requires CoverOk(a, mxSample, chg, nCol, i) && InsertOk(a, iMin, mxSample, s, i, chg, nCol, m, b)
    requires Fits(a, iMin, mxSample, chg, nCol, i, m) && Insertable(s, chg, nCol, i) && !s.isPSample
    ensures CoverOk(b, mxSample, chg, nCol, i - 1)
  {
    if |b| < mxSample {
      InsertKeeps(a, iMin, mxSample, s, i, chg, nCol, m, b);
      InsertCoversRun(a, iMin, mxSample, s, i, chg, nCol, m, b);
      assert |a| <= |b|;
      hide InsertOk, Fits, Insertable, Retained, Keeps;
      CoverKeeps(a, b, mxSample, chg, nCol, i);
      CoverRun(b, mxSample, chg, nCol, i);
    }
  }

  lemma CoverRun(b: seq<Sample>, mxSample: nat, chg: seq<Step>, nCol: nat, i: nat)
    requires CoverOk(b, mxSample, chg, nCol, i)
    requires exists k :: 0 <= k < |b| && Pos(b[k]) < |chg| && InLastRun(chg, Pos(b[k]), i)
    ensures CoverOk(b, mxSample, chg, nCol, i - 1)
  {
    var k :| 0 <= k < |b| && Pos(b[k]) < |chg| && InLastRun(chg, Pos(b[k]), i);
    if |b| < mxSample {
      forall c, r | 0 <= c < nCol - 1 && 0 <= r < |chg| && (c > i - 1 || End(chg, r, c) < |chg|)
        ensures HasSampleIn(b, Start(chg, r, c), End(chg, r, c))
      {
        if c == i && End(chg, r, c) == |chg| {
          LastRunBounds(chg, r, i);
          assert Start(chg, r, i) <= Pos(b[k]) < |chg|;
        }
      }
    }
  }

  lemma CoverPeriodic(a: seq<Sample>, iMin: nat, mxSample: nat, s: Sample, n: nat, chg: seq<Step>, nCol: nat, m: nat,
                      b: seq<Sample>, level: int)
    requires CoverOk(a, mxSample, chg, nCol, level) && InsertOk(a, iMin, mxSample, s, n, chg, nCol, m, b)
    ensures CoverOk(b, mxSample, chg, nCol, level)
  {
    if |b| < mxSample {
      InsertKeeps(a, iMin, mxSample, s, n, chg, nCol, m, b);
      assert |a| <= |b|;
      hide InsertOk;
      CoverKeeps(a, b, mxSample, chg, nCol, level);
    }
  }

  /** Only proper prefixes are asked for. */
  lemma CoverLess(a: seq<Sample>, mxSample: nat, chg: seq<Step>, nCol: nat)
    requires CoverOk(a, mxSample, chg, nCol, nCol - 1)
    ensures CoverOk(a, mxSample, chg, nCol, nCol - 2)
  {
  }

  lemma CoverFull(a: seq<Sample>, mxSample: nat, chg: seq<Step>, nCol: nat, level: int)
    requires |a| >= mxSample
    ensures CoverOk(a, mxSample, chg, nCol, level)
  {
  }

  lemma CoverFill(a: seq<Sample>, b: seq<Sample>, mxSample: nat, chg: seq<Step>, nCol: nat, level: int)
    requires CoverOk(a, mxSample, chg, nCol, level) && |a| == |b|
    requires forall k :: 0 <= k < |a| ==> Pos(b[k]) == Pos(a[k])
    ensures CoverOk(b, mxSample, chg, nCol, level)
  {
    forall k | 0 <= k < |a| ensures HasPos(b, Pos(a[k])) {
      assert Pos(b[k]) == Pos(a[k]);
    }
    CoverKeeps(a, b, mxSample, chg, nCol, level);
  }

  /** The next row ends exactly the runs whose candidates have been offered. */
  lemma CoverAppend(a: seq<Sample>, mxSample: nat, chg: seq<Step>, x: Step, nCol: nat)
    requires CoverOk(a, mxSample, chg, nCol, x.col - 1)
    ensures CoverOk(a, mxSample, chg + [x], nCol, nCol - 1)
  {
    if |a| < mxSample {
      var chg' := chg + [x];
      forall i, r | 0 <= i < nCol - 1 && 0 <= r < |chg'| && End(chg', r, i) < |chg'|
        ensures HasSampleIn(a, Start(chg', r, i), End(chg', r, i))
      {
        EndAppend(chg, x, r, i);
        StartAppend(chg, x, r, i);
      }
    }
  }

  lemma CoverFirst(mxSample: nat, x: Step, nCol: nat)
    ensures CoverOk([], mxSample, [x], nCol, nCol - 1)
  {
    assert forall i :: End([x], 0, i) == 1;
  }
}
