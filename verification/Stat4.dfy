// The STAT4 sampler: one pass over a sorted index, keeping a bounded set of sample
// rows together with, for every prefix length, how many rows equal or precede that
// prefix.  The equal-counts are unknown while a run is still being read, so they are
// stored as 0 and filled in when the run ends.
module Stat4 {
  import opened Arith
  import opened RunCounts

  datatype Sample = Sample(
    anEq: seq<nat>,     // rows sharing the first j+1 columns; 0 = not known yet
    anLt: seq<nat>,     // rows below that prefix
    anDLt: seq<nat>,    // distinct prefixes below it
    rowid: int,
    isPSample: bool,    // periodic samples are never evicted
    iCol: nat,          // otherwise: the column that made this row worth keeping
    iHash: nat)

  /** Rows are distinct, so the count of rows below the full key is the row's position. */
  function Pos(s: Sample): nat
  {
    if s.anLt == [] then 0 else s.anLt[|s.anLt| - 1]
  }

  // ---- which of two candidates to keep ----

  predicate BetterFrom(s: Sample, t: Sample, i: nat)
    requires |s.anEq| == |t.anEq|
    decreases |s.anEq| - i
  {
    if i >= |s.anEq| then s.iHash > t.iHash
    else if s.anEq[i] > t.anEq[i] then true
    else if s.anEq[i] < t.anEq[i] then false
    else BetterFrom(s, t, i + 1)
  }

  predicate SampleIsBetterPost(s: Sample, t: Sample)
    requires |s.anEq| == |t.anEq| && s.iCol == t.iCol
  {
    BetterFrom(s, t, s.iCol + 1)
  }

  predicate SampleIsBetter(s: Sample, t: Sample)
    requires |s.anEq| == |t.anEq| && s.iCol < |s.anEq| && t.iCol < |t.anEq|
    requires !s.isPSample && !t.isPSample
  {
    var nNew, nOld := s.anEq[s.iCol], t.anEq[t.iCol];
    nNew > nOld || (nNew == nOld &&
      (s.iCol < t.iCol || (s.iCol == t.iCol && SampleIsBetterPost(s, t))))
  }

  lemma {:induction false} BetterFromTransitive(s: Sample, t: Sample, u: Sample, i: nat)
    requires |s.anEq| == |t.anEq| == |u.anEq| && BetterFrom(s, t, i) && BetterFrom(t, u, i)
    ensures BetterFrom(s, u, i)
    decreases |s.anEq| - i
  {
    if i < |s.anEq| && s.anEq[i] == t.anEq[i] == u.anEq[i] { BetterFromTransitive(s, t, u, i + 1); }
  }

  /** The counts of s and t from column lo on: the first that differ are greater in s. */
  ghost predicate FirstIsGreater(s: seq<nat>, t: seq<nat>, lo: nat)
    requires |s| == |t|
  {
    exists d :: lo <= d < |s| && s[d] > t[d] && forall k :: lo <= k < d ==> s[k] == t[k]
  }

  /** The order of preference, spelled out: the most frequent own prefix, then the shortest,
      then the first longer prefix that differs in frequency, then the hash. */
  lemma BetterMeans(s: Sample, t: Sample)
    requires |s.anEq| == |t.anEq| && s.iCol < |s.anEq| && t.iCol < |t.anEq| && !s.isPSample && !t.isPSample
    ensures SampleIsBetter(s, t) <==>
              || s.anEq[s.iCol] > t.anEq[t.iCol]
              || (s.anEq[s.iCol] == t.anEq[t.iCol] && s.iCol < t.iCol)
              || (s.anEq[s.iCol] == t.anEq[t.iCol] && s.iCol == t.iCol
                  && (FirstIsGreater(s.anEq, t.anEq, s.iCol + 1)
                      || (s.anEq[s.iCol + 1..] == t.anEq[t.iCol + 1..] && s.iHash > t.iHash)))
  {
    if s.iCol == t.iCol { BetterFromMeans(s, t, s.iCol + 1); }
  }

  lemma {:induction false} BetterFromMeans(s: Sample, t: Sample, i: nat)
    requires |s.anEq| == |t.anEq| && i <= |s.anEq|
    ensures BetterFrom(s, t, i) <==>
              FirstIsGreater(s.anEq, t.anEq, i) || (s.anEq[i..] == t.anEq[i..] && s.iHash > t.iHash)
    decreases |s.anEq| - i
  {
    if i < |s.anEq| {
      BetterFromMeans(s, t, i + 1);
      NextDecides(s.anEq, t.anEq, i);
    }
  }

  lemma NextDecides(s: seq<nat>, t: seq<nat>, i: nat)
    requires |s| == |t| && i < |s|
    ensures FirstIsGreater(s, t, i) <==> s[i] > t[i] || (s[i] == t[i] && FirstIsGreater(s, t, i + 1))
    ensures s[i..] == t[i..] <==> s[i] == t[i] && s[i + 1..] == t[i + 1..]
  {
    assert s[i..] == [s[i]] + s[i + 1..] && t[i..] == [t[i]] + t[i + 1..];
    if s[i] == t[i] && FirstIsGreater(s, t, i + 1) {
      var d :| i + 1 <= d < |s| && s[d] > t[d] && forall k :: i + 1 <= k < d ==> s[k] == t[k];
      assert s[d] > t[d] && forall k :: i <= k < d ==> s[k] == t[k];
    }
  }

  /** A sample that can be compared with others of nCol columns. */
  predicate Ranked(s: Sample, nCol: nat)
  {
    |s.anEq| == nCol && s.iCol < nCol && !s.isPSample
  }

  /** The preference is a strict order, so "best" and "least" do not depend on the order in
      which samples are compared. */
  lemma BetterTransitive(s: Sample, t: Sample, u: Sample, nCol: nat)
    requires Ranked(s, nCol) && Ranked(t, nCol) && Ranked(u, nCol)
    requires SampleIsBetter(s, t) && SampleIsBetter(t, u)
    ensures SampleIsBetter(s, u)
  {
    if s.anEq[s.iCol] == u.anEq[u.iCol] && s.iCol == u.iCol {
      BetterFromTransitive(s, t, u, s.iCol + 1);
    }
  }

  lemma {:induction false} BetterFromIrreflexive(s: Sample, i: nat)
    ensures !BetterFrom(s, s, i)
    decreases |s.anEq| - i
  {
    if i < |s.anEq| { BetterFromIrreflexive(s, i + 1); }
  }

  /** Sample m is one of the least desirable of those that may be evicted. */
  ghost predicate IsLeast(a: seq<Sample>, m: int, nCol: nat)
  {
    && 0 <= m < |a| && Ranked(a[m], nCol)
    && forall k :: 0 <= k < |a| && Ranked(a[k], nCol) ==> !SampleIsBetter(a[m], a[k])
  }

  /** Sample k may be upgraded in place of inserting a new sample for column i. */
  ghost predicate IsOpen(a: seq<Sample>, k: int, i: nat, nCol: nat)
  {
    0 <= k < |a| && Ranked(a[k], nCol) && i < nCol && a[k].anEq[i] == 0
  }

  ghost predicate IsBestOpen(a: seq<Sample>, up: int, i: nat, nCol: nat)
  {
    && IsOpen(a, up, i, nCol)
    && forall k :: IsOpen(a, k, i, nCol) ==> !SampleIsBetter(a[k], a[up])
  }

  // ---- what a sample knows, relative to the rows read so far ----

  /** The counts that are final from the moment the row is read. */
  ghost predicate Snapshot(s: Sample, chg: seq<Step>, nCol: nat)
  {
    && |s.anEq| == |s.anLt| == |s.anDLt| == nCol > 0
    && Pos(s) < |chg| && s.rowid == chg[Pos(s)].rowid
    && forall j :: 0 <= j < nCol ==>
         s.anLt[j] == Start(chg, Pos(s), j) && s.anDLt[j] == RunsBefore(chg, Pos(s), j)
  }

  ghost predicate ExactAt(s: Sample, chg: seq<Step>, j: nat)
    requires j < |s.anEq| && Pos(s) < |chg|
  {
    s.anEq[j] == Count(chg, Pos(s), j)
  }

  /** The row just read, seen as a sample. */
  ghost predicate IsCurrent(s: Sample, chg: seq<Step>, nCol: nat)
  {
    && Snapshot(s, chg, nCol)
    && Pos(s) == |chg| - 1
    && forall j :: 0 <= j < nCol ==> ExactAt(s, chg, j)
  }

  /** A retained sample.  A count of 0 at j marks a run that is still open, and every
      open run at or below `level` is so marked; all other counts are exact. */
  ghost predicate Retained(s: Sample, chg: seq<Step>, nCol: nat, level: int)
  {
    && Snapshot(s, chg, nCol)
    && (forall j :: 0 <= j < nCol && s.anEq[j] != 0 ==> ExactAt(s, chg, j))
    && (forall j :: 0 <= j < nCol && s.anEq[j] == 0 ==> j < nCol - 1 && InLastRun(chg, Pos(s), j))
    && (forall j :: 0 <= j < nCol - 1 && j <= level && InLastRun(chg, Pos(s), j) ==> s.anEq[j] == 0)
    && (!s.isPSample ==>
          && s.iCol < nCol - 1 && s.anEq[s.iCol] != 0
          && forall j :: 0 <= j < nCol && s.anEq[j] == 0 ==> j < s.iCol || j > level)
  }

  ghost predicate AllRetained(a: seq<Sample>, chg: seq<Step>, nCol: nat, level: int)
  {
    forall k :: 0 <= k < |a| ==> Retained(a[k], chg, nCol, level)
  }

  ghost predicate Ordered(a: seq<Sample>)
  {
    forall k, l :: 0 <= k < l < |a| ==> Pos(a[k]) < Pos(a[l])
  }

  /** No retained sample has an open count at column m or beyond. */
  ghost predicate ClosedFrom(a: seq<Sample>, m: nat)
  {
    forall k, j :: 0 <= k < |a| && m <= j < |a[k].anEq| ==> a[k].anEq[j] != 0
  }

  /** The candidate kept for column i: it lies in the open i-run, and is either the
      current row or the last row of a finished (i+1)-run, so that its counts beyond
      column i are final whenever the i-run closes. */
  ghost predicate Candidate(b: Sample, chg: seq<Step>, nCol: nat, i: nat)
  {
    && Snapshot(b, chg, nCol) && i + 1 < nCol
    && !b.isPSample && b.iCol == i
    && InLastRun(chg, Pos(b), i)
    && (Pos(b) == |chg| - 1 || End(chg, Pos(b), i + 1) < |chg|)
    && (forall j :: i < j < nCol ==> ExactAt(b, chg, j))
    && Dominant(Pos(b), chg, i)
  }

  /** In the open i-run, no prefix of i+2 columns occurs more often than that of row p. */
  ghost predicate Dominant(p: nat, chg: seq<Step>, i: nat)
    requires p < |chg|
  {
    forall r :: 0 <= r < |chg| && InLastRun(chg, r, i) ==> Count(chg, r, i + 1) <= Count(chg, p, i + 1)
  }

  // ---- periodic samples ----

  /** How often to take a periodic sample. */
  function Period(nEst: nat, mxSample: nat): (p: nat)
    ensures p > 0
  {
    nEst / (mxSample / 3 + 1) + 1
  }

  function PeriodicRows(n: nat, period: nat): seq<nat>
    requires period > 0
  {
    if n == 0 then []
    else PeriodicRows(n - 1, period) + (if (n - 1) / period != n / period then [n - 1] else [])
  }

  ghost function PeriodicPositions(a: seq<Sample>): seq<nat>
  {
    if a == [] then [] else
      var s := a[|a| - 1];
      PeriodicPositions(a[..|a| - 1]) + (if s.isPSample then [Pos(s)] else [])
  }

  lemma {:induction false} PeriodicRowsCount(n: nat, period: nat)
    requires period > 0
    ensures |PeriodicRows(n, period)| == n / period
  {
    if n > 0 {
      PeriodicRowsCount(n - 1, period);
      var q, r := (n - 1) / period, (n - 1) % period;
      DivBounds(n - 1, period);
      if r + 1 == period {
        assert (q + 1) * period == q * period + period;
        DivUnique(n, period, q + 1, 0);
      } else {
        DivUnique(n, period, q, r + 1);
      }
    }
  }

  lemma {:induction false} AllPeriodic(a: seq<Sample>)
    requires forall k :: 0 <= k < |a| ==> a[k].isPSample
    ensures |PeriodicPositions(a)| == |a|
  {
    if a != [] { AllPeriodic(a[..|a| - 1]); }
  }

  /** The period is chosen so that periodic rows never fill the sample array. */
  lemma PeriodicRowsFit(n: nat, nEst: nat, mxSample: nat)
    requires n <= nEst && mxSample > 0
    ensures |PeriodicRows(n, Period(nEst, mxSample))| <= mxSample / 3 < mxSample
  {
    PeriodicRowsCount(n, Period(nEst, mxSample));
    FewPeriods(n, nEst, mxSample / 3);
  }

  lemma FewPeriods(n: nat, nEst: nat, q: nat)
    requires n <= nEst
    ensures n / (nEst / (q + 1) + 1) <= q
  {
    var d, p := nEst / (q + 1), n / (nEst / (q + 1) + 1);
    DivBounds(nEst, q + 1);
    DivBounds(n, d + 1);
    assert (q + 1) * (d + 1) == d * (q + 1) + (q + 1);
    if p > q { MulMonotone(q + 1, p, d + 1); }
  }

  /** Row r is periodic exactly if a whole number of periods ends with it. */
  lemma {:induction false} PeriodicRowsMember(n: nat, period: nat, r: nat)
    requires period > 0
    ensures r in PeriodicRows(n, period) <==> r < n && (r + 1) % period == 0
  {
    if n > 0 {
      PeriodicRowsMember(n - 1, period, r);
      PeriodEnds(n - 1, period);
      var last := if (n - 1) / period != n / period then [n - 1] else [];
      assert r in PeriodicRows(n, period) <==> r in PeriodicRows(n - 1, period) || r in last;
    }
  }

  lemma PeriodEnds(r: nat, period: nat)
    requires period > 0
    ensures r / period != (r + 1) / period <==> (r + 1) % period == 0
  {
    var q, k := r / period, r % period;
    DivBounds(r, period);
    if k + 1 == period {
      assert (q + 1) * period == q * period + period;
      DivUnique(r + 1, period, q + 1, 0);
    } else {
      DivUnique(r + 1, period, q, k + 1);
    }
  }

  /** Row r has been kept as a periodic sample. */
  ghost predicate KeptAsPeriodic(a: seq<Sample>, r: nat)
  {
    exists k :: 0 <= k < |a| && a[k].isPSample && Pos(a[k]) == r
  }

  ghost function PeriodicIndexes(a: seq<Sample>): set<nat>
  {
    set k: nat | k < |a| && a[k].isPSample
  }

  lemma {:induction false} PeriodicPositionsMember(a: seq<Sample>, r: nat)
    ensures r in PeriodicPositions(a) <==> KeptAsPeriodic(a, r)
  {
    if a != [] {
      var b, s := a[..|a| - 1], a[|a| - 1];
      PeriodicPositionsMember(b, r);
      hide Pos, PeriodicPositions;
      LastPosition(a, r);
      if KeptAsPeriodic(b, r) {
        var k :| 0 <= k < |b| && b[k].isPSample && Pos(b[k]) == r;
        assert a[k] == b[k];
      }
    }
  }

  lemma LastPosition(a: seq<Sample>, r: nat)
    requires a != []
    ensures var s := a[|a| - 1];
            r in PeriodicPositions(a) <==> r in PeriodicPositions(a[..|a| - 1]) || (s.isPSample && Pos(s) == r)
  {
  }

  lemma {:induction false} PeriodicPositionsCount(a: seq<Sample>)
    ensures |PeriodicIndexes(a)| == |PeriodicPositions(a)|
  {
    if a == [] {
      assert PeriodicIndexes(a) == {};
    } else {
      var b := a[..|a| - 1];
      PeriodicPositionsCount(b);
      assert PeriodicIndexes(a) == PeriodicIndexes(b) + if a[|b|].isPSample then {|b|} else {};
    }
  }

  /** With as many rows as estimated, and not too few, exactly a third of the room is for
      periodic samples. */
  lemma FullShare(n: nat, q: nat)
    requires n >= q * (q + 1)
    ensures n / (n / (q + 1) + 1) == q
  {
    var d := n / (q + 1);
    DivBounds(n, q + 1);
    assert (d + 1) * (q + 1) == d * (q + 1) + (q + 1);
    if d < q { MulMonotone(d + 1, q, q + 1); }
    assert q * (d + 1) == q * d + q && d * (q + 1) == d * q + d;
    assert q * d == d * q;
    DivUnique(n, d + 1, q, n - q * (d + 1));
  }

  /** Any period rows in a row contain one that is periodic. */
  lemma OneInEach(r: nat, period: nat) returns (e: nat)
    requires period > 0
    ensures r <= e < r + period && (e + 1) % period == 0
  {
    var q := r / period;
    DivBounds(r, period);
    assert (q + 1) * period == q * period + period;
    e := (q + 1) * period - 1;
    DivUnique(e + 1, period, q + 1, 0);
  }

  // ---- one more row ----

  lemma CountAppend(chg: seq<Step>, x: Step, r: nat, j: nat)
    requires r < |chg|
    ensures Count(chg + [x], r, j) == Count(chg, r, j) + (if InLastRun(chg, r, j) && x.col > j then 1 else 0)
  {
    StartAppend(chg, x, r, j);
    EndAppend(chg, x, r, j);
    LastRunBounds(chg, r, j);
  }

  lemma SnapshotAppend(s: Sample, chg: seq<Step>, x: Step, nCol: nat)
    requires Snapshot(s, chg, nCol)
    ensures Snapshot(s, chg + [x], nCol)
  {
    forall j | 0 <= j < nCol
      ensures s.anLt[j] == Start(chg + [x], Pos(s), j) && s.anDLt[j] == RunsBefore(chg + [x], Pos(s), j)
    {
      StartAppend(chg, x, Pos(s), j);
    }
  }

  /** A retained sample whose runs at or beyond column x are all closed stays correct
      when the next row first differs in column x. */
  lemma RetainedAppend(s: Sample, chg: seq<Step>, x: Step, nCol: nat)
    requires Retained(s, chg, nCol, x.col - 1) && x.col < nCol
    requires forall j :: x.col <= j < nCol ==> s.anEq[j] != 0
    ensures Retained(s, chg + [x], nCol, nCol - 1)
  {
    SnapshotAppend(s, chg, x, nCol);
    forall j | 0 <= j < nCol
      ensures InLastRun(chg + [x], Pos(s), j) <==> InLastRun(chg, Pos(s), j) && x.col > j
      ensures s.anEq[j] != 0 ==> ExactAt(s, chg + [x], j)
    {
      LastRunAppend(chg, x, Pos(s), j);
      CountAppend(chg, x, Pos(s), j);
    }
  }

  /** One more row of an i-run: only the count of that row's own longer prefix grows. */
  lemma CountsInRun(chg: seq<Step>, x: Step, r: nat, i: nat)
    requires r < |chg| && i < x.col && InLastRun(chg + [x], r, i)
    ensures InLastRun(chg, r, i)
    ensures Count(chg + [x], r, i + 1) == Count(chg, r, i + 1)
         || Count(chg + [x], r, i + 1) == Count(chg + [x], |chg|, i + 1)
  {
    LastRunAppend(chg, x, r, i);
    LastRunAppend(chg, x, r, i + 1);
    CountAppend(chg, x, r, i + 1);
    if InLastRun(chg, r, i + 1) && x.col > i + 1 {
      LastRunBounds(chg + [x], r, i + 1);
      LastRunBounds(chg + [x], |chg|, i + 1);
    }
  }

  lemma DominantAppend(p: nat, chg: seq<Step>, x: Step, i: nat)
    requires p < |chg| && Dominant(p, chg, i) && i < x.col
    requires Count(chg + [x], |chg|, i + 1) <= Count(chg, p, i + 1) == Count(chg + [x], p, i + 1)
    ensures Dominant(p, chg + [x], i)
  {
    var chg' := chg + [x];
    forall r | 0 <= r < |chg'| && InLastRun(chg', r, i) ensures Count(chg', r, i + 1) <= Count(chg', p, i + 1) {
      if r < |chg| { CountsInRun(chg, x, r, i); }
    }
  }

  /** A row preferred to the candidate has the most frequent prefix of its run. */
  lemma BetterIsDominant(cur: Sample, b: Sample, chg: seq<Step>, x: Step, nCol: nat, i: nat)
    requires Candidate(b, chg, nCol, i) && i < x.col < nCol
    requires IsCurrent(cur, chg + [x], nCol) && cur.iCol == i && SampleIsBetterPost(cur, b)
    ensures Dominant(|chg|, chg + [x], i)
  {
    var chg' := chg + [x];
    assert ExactAt(b, chg, i + 1) && ExactAt(cur, chg', i + 1);
    assert Count(chg, Pos(b), i + 1) <= Count(chg', |chg|, i + 1);
    forall r | 0 <= r < |chg'| && InLastRun(chg', r, i) ensures Count(chg', r, i + 1) <= Count(chg', |chg|, i + 1) {
      if r < |chg| { CountsInRun(chg, x, r, i); }
    }
  }

  lemma NewRunIsDominant(chg: seq<Step>, i: nat)
    requires |chg| > 0 && (|chg| == 1 || chg[|chg| - 1].col <= i)
    ensures Dominant(|chg| - 1, chg, i)
  {
  }

  /** A candidate that was not overtaken stays a candidate. */
  lemma CandidateAppend(b: Sample, cur: Sample, chg: seq<Step>, x: Step, nCol: nat, i: nat)
    requires Candidate(b, chg, nCol, i) && i < x.col < nCol
    requires IsCurrent(cur, chg + [x], nCol) && cur.iCol == i && !SampleIsBetterPost(cur, b)
    requires Pos(b) == |chg| - 1 ==> x.col == i + 1
    ensures Candidate(b, chg + [x], nCol, i)
  {
    CandidateCounts(b, chg, x, nCol, i);
    assert ExactAt(b, chg, i + 1) && ExactAt(b, chg + [x], i + 1) && ExactAt(cur, chg + [x], i + 1);
    DominantAppend(Pos(b), chg, x, i);
  }

  lemma CandidateCounts(b: Sample, chg: seq<Step>, x: Step, nCol: nat, i: nat)
    requires Candidate(b, chg, nCol, i) && i < x.col < nCol
    requires Pos(b) == |chg| - 1 ==> x.col == i + 1
    ensures Snapshot(b, chg + [x], nCol) && InLastRun(chg + [x], Pos(b), i)
    ensures Pos(b) == |chg| || End(chg + [x], Pos(b), i + 1) < |chg| + 1
    ensures forall j :: i < j < nCol ==> ExactAt(b, chg + [x], j)
  {
    var r := Pos(b);
    SnapshotAppend(b, chg, x, nCol);
    LastRunAppend(chg, x, r, i);
    EndAppend(chg, x, r, i + 1);
    forall j | i < j < nCol ensures ExactAt(b, chg + [x], j) {
      assert ExactAt(b, chg, j);
      CountAppend(chg, x, r, j);
      LastRunBounds(chg, r, j);
      EndMonotone(chg, r, i + 1, j);
    }
  }

  /** A current row that continues an (i+1)-run beats the candidate for column i when
      that candidate was the row before it. */
  lemma CurrentBeats(cur: Sample, b: Sample, chg: seq<Step>, x: Step, nCol: nat, i: nat)
    requires Candidate(b, chg, nCol, i) && i + 1 < x.col < nCol
    requires IsCurrent(cur, chg + [x], nCol) && cur.iCol == i
    requires Pos(b) == |chg| - 1
    ensures SampleIsBetterPost(cur, b)
  {
    var chg' := chg + [x];
    StartAppend(chg, x, |chg| - 1, i + 1);
    assert ExactAt(cur, chg', i + 1) && ExactAt(b, chg, i + 1);
    assert cur.anEq[i + 1] > b.anEq[i + 1];
  }

  function NextCurrent(cur: Sample, x: Step): Sample
    requires |cur.anEq| == |cur.anLt| == |cur.anDLt|
  {
    var n := |cur.anEq|;
    cur.(rowid := x.rowid,
         anEq := seq(n, j requires 0 <= j < n => if j < x.col then cur.anEq[j] + 1 else 1),
         anLt := seq(n, j requires 0 <= j < n => if j < x.col then cur.anLt[j] else cur.anLt[j] + cur.anEq[j]),
         anDLt := seq(n, j requires 0 <= j < n => if j < x.col then cur.anDLt[j] else cur.anDLt[j] + 1))
  }

  lemma CurrentAppend(cur: Sample, chg: seq<Step>, x: Step, nCol: nat)
    requires IsCurrent(cur, chg, nCol) && x.col < nCol
    ensures IsCurrent(NextCurrent(cur, x), chg + [x], nCol)
  {
    var cur', chg', c := NextCurrent(cur, x), chg + [x], |chg| - 1;
    forall j | 0 <= j < nCol
      ensures cur'.anLt[j] == Start(chg', c + 1, j) && cur'.anDLt[j] == RunsBefore(chg', c + 1, j)
      ensures cur'.anEq[j] == Count(chg', c + 1, j)
    {
      StartAppend(chg, x, c, j);
      assert ExactAt(cur, chg, j);
      assert End(chg, c, j) == |chg| && End(chg', c + 1, j) == |chg| + 1;
    }
    assert Start(chg', c + 1, nCol - 1) == c + 1;
  }

  // ---- the insertion of a sample ----

  /** A sample about to be inserted with its first nEqZero counts still open. */
  ghost predicate Insertable(s: Sample, chg: seq<Step>, nCol: nat, nEqZero: nat)
  {
    && Snapshot(s, chg, nCol) && nEqZero < nCol
    && (forall j :: nEqZero <= j < nCol ==> ExactAt(s, chg, j))
    && (forall j :: 0 <= j < nEqZero ==> InLastRun(chg, Pos(s), j))
    && (s.isPSample ==> nEqZero == nCol - 1)
    && (!s.isPSample ==> s.iCol == nEqZero < nCol - 1 && InLastRun(chg, Pos(s), s.iCol))
  }

  function ZeroFirst(s: Sample, n: nat): Sample
    requires n <= |s.anEq|
  {
    s.(anEq := seq(|s.anEq|, j requires 0 <= j < |s.anEq| => if j < n then 0 else s.anEq[j]))
  }

  lemma InsertedIsRetained(s: Sample, chg: seq<Step>, nCol: nat, nEqZero: nat)
    requires Insertable(s, chg, nCol, nEqZero)
    ensures Retained(ZeroFirst(s, nEqZero), chg, nCol, nEqZero - 1)
  {
    var t := ZeroFirst(s, nEqZero);
    assert Pos(t) == Pos(s);
    forall j | 0 <= j < nCol && t.anEq[j] != 0 ensures ExactAt(t, chg, j) {
      assert ExactAt(s, chg, j);
    }
    forall j | nEqZero <= j < nCol ensures t.anEq[j] != 0 {
      assert ExactAt(s, chg, j);
    }
  }

  lemma RetainedWeaken(a: seq<Sample>, chg: seq<Step>, nCol: nat, level: int)
    requires AllRetained(a, chg, nCol, level)
    ensures AllRetained(a, chg, nCol, level - 1)
  {
  }

  /** An older sample in the same open i-run ranks below the new one, as the source asserts. */
  lemma NewRanksAbove(s: Sample, old_: Sample, chg: seq<Step>, nCol: nat, i: nat)
    requires Insertable(s, chg, nCol, i) && !s.isPSample
    requires Retained(old_, chg, nCol, i) && !old_.isPSample && old_.anEq[i] == 0
    ensures old_.iCol > s.iCol && SampleIsBetter(s, old_)
  {
    var j := old_.iCol;
    assert ExactAt(s, chg, i) && ExactAt(old_, chg, j);
    assert InLastRun(chg, Pos(old_), i);
    LastRunBounds(chg, Pos(s), i);
    LastRunBounds(chg, Pos(old_), i);
    StartMonotone(chg, Pos(old_), i, j);
    EndMonotone(chg, Pos(old_), i, j);
  }

  /** Raising the priority of an older sample of the same run. */
  function Upgraded(t: Sample, s: Sample): Sample
    requires s.iCol < |t.anEq| && s.iCol < |s.anEq|
  {
    t.(iCol := s.iCol, anEq := t.anEq[s.iCol := s.anEq[s.iCol]])
  }

  lemma UpgradedIsRetained(t: Sample, s: Sample, chg: seq<Step>, nCol: nat, i: nat)
    requires Insertable(s, chg, nCol, i) && !s.isPSample
    requires Retained(t, chg, nCol, i) && !t.isPSample && t.anEq[i] == 0
    ensures Retained(Upgraded(t, s), chg, nCol, i - 1)
    ensures Pos(Upgraded(t, s)) == Pos(t)
  {
    var u := Upgraded(t, s);
    assert InLastRun(chg, Pos(t), i);
    LastRunBounds(chg, Pos(s), i);
    LastRunBounds(chg, Pos(t), i);
    assert ExactAt(s, chg, i);
    forall j | 0 <= j < nCol && u.anEq[j] != 0 ensures ExactAt(u, chg, j) {
      if j != i { assert ExactAt(t, chg, j); }
    }
  }

  /** With no older sample in the open i-run, the new one belongs at the end. */
  lemma NewComesLast(s: Sample, a: seq<Sample>, chg: seq<Step>, nCol: nat, i: nat)
    requires Insertable(s, chg, nCol, i) && !s.isPSample
    requires AllRetained(a, chg, nCol, i)
    requires forall k :: 0 <= k < |a| ==> a[k].anEq[i] != 0
    ensures forall k :: 0 <= k < |a| ==> Pos(a[k]) < Pos(s)
  {
    forall k | 0 <= k < |a| ensures Pos(a[k]) < Pos(s) {
      assert Retained(a[k], chg, nCol, i);
      assert !InLastRun(chg, Pos(a[k]), i);
    }
  }
}
