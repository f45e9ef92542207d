// ANALYZE over a whole index: what the sampled counts mean in terms of the rows.
module Stat4Rows {
  import opened Arith
  import opened RunCounts
  import opened Stat4
  import opened Stat4Insert
  import opened Stat4Cover
  import opened Stat4Accum

  type Row = seq<int>

  /** First column in which two rows differ. */
  function FirstDiff(x: Row, y: Row): (d: nat)
    requires |x| == |y|
    ensures d <= |x|
    ensures forall i :: 0 <= i < d ==> x[i] == y[i]
    ensures d < |x| ==> x[d] != y[d]
  {
    if x == [] || x[0] != y[0] then 0 else 1 + FirstDiff(x[1..], y[1..])
  }

  /** Index order: the first differing column decides. */
  ghost predicate Less(x: Row, y: Row)
    requires |x| == |y|
  {
    exists d :: 0 <= d < |x| && x[d] < y[d] && forall i :: 0 <= i < d ==> x[i] == y[i]
  }

  /** The rows of an index: nCol columns each, in strictly ascending order. */
  ghost predicate IsIndex(rows: seq<Row>, nCol: nat)
  {
    && (forall k :: 0 <= k < |rows| ==> |rows[k]| == nCol)
    && (forall k :: 0 < k < |rows| ==> Less(rows[k - 1], rows[k]))
  }

  lemma LessTransitive(x: Row, y: Row, z: Row)
    requires |x| == |y| == |z| && Less(x, y) && Less(y, z)
    ensures Less(x, z)
  {
    var d :| 0 <= d < |x| && x[d] < y[d] && forall i :: 0 <= i < d ==> x[i] == y[i];
    var e :| 0 <= e < |y| && y[e] < z[e] && forall i :: 0 <= i < e ==> y[i] == z[i];
    var m := if d < e then d else e;
    assert x[m] < z[m] && forall i :: 0 <= i < m ==> x[i] == z[i];
  }

  lemma LessIrreflexive(x: Row, y: Row)
    requires |x| == |y| && Less(x, y)
    ensures x != y && !Less(y, x)
  {
    var d :| 0 <= d < |x| && x[d] < y[d] && forall i :: 0 <= i < d ==> x[i] == y[i];
    if Less(y, x) { LessTransitive(x, y, x); }
  }

  /** The history that stat_push() is given describes these rows. */
  ghost predicate Describes(chg: seq<Step>, rows: seq<Row>, nCol: nat)
  {
    && IsIndex(rows, nCol) && |chg| == |rows|
    && (forall k :: 0 < k < |rows| ==> chg[k].col == FirstDiff(rows[k - 1], rows[k]))
  }

  /** Of two rows, the later has an equal or a greater prefix: equal exactly when no row
      in between changed a column of the prefix. */
  lemma {:induction false} PrefixOrder(chg: seq<Step>, rows: seq<Row>, nCol: nat, p: nat, q: nat, j: nat)
    requires Describes(chg, rows, nCol) && p <= q < |rows| && j < nCol
    ensures (forall m :: p < m <= q ==> chg[m].col > j) ==> rows[p][..j + 1] == rows[q][..j + 1]
    ensures (exists m :: p < m <= q && chg[m].col <= j) ==> Less(rows[p][..j + 1], rows[q][..j + 1])
    decreases q
  {
    if p < q {
      PrefixOrder(chg, rows, nCol, p, q - 1, j);
      NextPrefix(chg, rows, nCol, q, j);
      hide Describes, Less;
      var x, y, z := rows[p][..j + 1], rows[q - 1][..j + 1], rows[q][..j + 1];
      if m :| p < m <= q - 1 && chg[m].col <= j {
        if chg[q].col <= j { LessTransitive(x, y, z); }
      } else {
        assert x == y;
      }
    }
  }

  /** The same of two neighbours. */
  lemma NextPrefix(chg: seq<Step>, rows: seq<Row>, nCol: nat, q: nat, j: nat)
    requires Describes(chg, rows, nCol) && 0 < q < |rows| && j < nCol
    ensures if chg[q].col > j then rows[q - 1][..j + 1] == rows[q][..j + 1]
            else Less(rows[q - 1][..j + 1], rows[q][..j + 1])
  {
    var x, y := rows[q - 1], rows[q];
    var c := FirstDiff(x, y);
    assert Less(x, y);
    var d :| 0 <= d < nCol && x[d] < y[d] && forall i :: 0 <= i < d ==> x[i] == y[i];
    assert d == c;
    if c <= j {
      assert x[..j + 1][c] < y[..j + 1][c];
    } else {
      assert x[..j + 1] == y[..j + 1];
    }
  }

  // ---- the counts, stated on the rows ----

  ghost function SamePrefixRows(rows: seq<Row>, nCol: nat, r: nat, j: nat): set<nat>
    requires IsIndex(rows, nCol) && r < |rows| && j < nCol
  {
    set k: nat | k < |rows| && rows[k][..j + 1] == rows[r][..j + 1]
  }

  ghost function LowerPrefixRows(rows: seq<Row>, nCol: nat, r: nat, j: nat): set<nat>
    requires IsIndex(rows, nCol) && r < |rows| && j < nCol
  {
    set k: nat | k < |rows| && Less(rows[k][..j + 1], rows[r][..j + 1])
  }

  ghost function LowerPrefixes(rows: seq<Row>, nCol: nat, r: nat, j: nat): set<Row>
    requires IsIndex(rows, nCol) && r < |rows| && j < nCol
  {
    set k: nat | k < |rows| && Less(rows[k][..j + 1], rows[r][..j + 1]) :: rows[k][..j + 1]
  }

  function Interval(lo: nat, hi: nat): (s: set<nat>)
    requires lo <= hi
    ensures |s| == hi - lo
    ensures forall k: nat :: k in s <==> lo <= k < hi
    decreases hi - lo
  {
    if lo == hi then {} else Interval(lo, hi - 1) + {hi - 1}
  }

  lemma WhereIsRow(chg: seq<Step>, rows: seq<Row>, nCol: nat, r: nat, j: nat, k: nat)
    requires Describes(chg, rows, nCol) && r < |rows| && k < |rows| && j < nCol
    ensures rows[k][..j + 1] == rows[r][..j + 1] <==> Start(chg, r, j) <= k < End(chg, r, j)
    ensures Less(rows[k][..j + 1], rows[r][..j + 1]) <==> k < Start(chg, r, j)
  {
    var s, e := Start(chg, r, j), End(chg, r, j);
    StartBounds(chg, r, j);
    EndBounds(chg, r, j);
    if k <= r {
      PrefixOrder(chg, rows, nCol, k, r, j);
      if k < s { assert chg[s].col <= j; }
    } else {
      PrefixOrder(chg, rows, nCol, r, k, j);
      if e <= k { assert chg[e].col <= j; }
    }
    if Less(rows[k][..j + 1], rows[r][..j + 1]) { LessIrreflexive(rows[k][..j + 1], rows[r][..j + 1]); }
    if Less(rows[r][..j + 1], rows[k][..j + 1]) { LessIrreflexive(rows[r][..j + 1], rows[k][..j + 1]); }
  }

  ghost function PrefixesBelow(rows: seq<Row>, nCol: nat, m: nat, j: nat): set<Row>
    requires IsIndex(rows, nCol) && m <= |rows| && j < nCol
  {
    set k: nat | k < m :: rows[k][..j + 1]
  }

  lemma PrefixesBelowNext(rows: seq<Row>, nCol: nat, m: nat, j: nat)
    requires IsIndex(rows, nCol) && m < |rows| && j < nCol
    ensures PrefixesBelow(rows, nCol, m + 1, j) == PrefixesBelow(rows, nCol, m, j) + {rows[m][..j + 1]}
  {
  }

  lemma {:induction false} PrefixesBelowCount(chg: seq<Step>, rows: seq<Row>, nCol: nat, r: nat, j: nat)
    requires Describes(chg, rows, nCol) && r < |rows| && j < nCol
    ensures |PrefixesBelow(rows, nCol, r + 1, j)| == RunsBefore(chg, r, j) + 1
  {
    hide PrefixesBelow, Less;
    DescribesIndex(chg, rows, nCol);
    hide Describes;
    PrefixesBelowNext(rows, nCol, r, j);
    if r == 0 {
      PrefixesBelowNone(rows, nCol, j);
    } else {
      PrefixesBelowCount(chg, rows, nCol, r - 1, j);
      if chg[r].col <= j {
        NewPrefix(chg, rows, nCol, r, j);
      } else {
        PrefixOrder(chg, rows, nCol, r - 1, r, j);
        PrefixesBelowNext(rows, nCol, r - 1, j);
      }
    }
  }

  lemma DescribesIndex(chg: seq<Step>, rows: seq<Row>, nCol: nat)
    requires Describes(chg, rows, nCol)
    ensures IsIndex(rows, nCol) && |chg| == |rows|
  {
  }

  lemma PrefixesBelowNone(rows: seq<Row>, nCol: nat, j: nat)
    requires IsIndex(rows, nCol) && j < nCol
    ensures PrefixesBelow(rows, nCol, 0, j) == {}
  {
  }

  lemma NewPrefix(chg: seq<Step>, rows: seq<Row>, nCol: nat, r: nat, j: nat)
    requires Describes(chg, rows, nCol) && 0 < r < |rows| && j < nCol && chg[r].col <= j
    ensures rows[r][..j + 1] !in PrefixesBelow(rows, nCol, r, j)
  {
    forall k: nat | k < r ensures rows[k][..j + 1] != rows[r][..j + 1] {
      PrefixOrder(chg, rows, nCol, k, r, j);
      LessIrreflexive(rows[k][..j + 1], rows[r][..j + 1]);
    }
  }

  lemma {:induction false} RunsBeforeStart(chg: seq<Step>, r: nat, j: nat)
    requires r < |chg|
    ensures RunsBefore(chg, r, j) == RunsBefore(chg, Start(chg, r, j), j)
  {
    if r > 0 && chg[r].col > j { RunsBeforeStart(chg, r - 1, j); }
  }

  lemma CountIsSamePrefix(chg: seq<Step>, rows: seq<Row>, nCol: nat, r: nat, j: nat)
    requires Describes(chg, rows, nCol) && r < |rows| && j < nCol
    ensures Count(chg, r, j) == |SamePrefixRows(rows, nCol, r, j)|
  {
    forall k: nat | k < |rows|
      ensures k in SamePrefixRows(rows, nCol, r, j) <==> k in Interval(Start(chg, r, j), End(chg, r, j))
    {
      WhereIsRow(chg, rows, nCol, r, j, k);
    }
    assert SamePrefixRows(rows, nCol, r, j) == Interval(Start(chg, r, j), End(chg, r, j));
  }

  lemma StartIsLowerRows(chg: seq<Step>, rows: seq<Row>, nCol: nat, r: nat, j: nat)
    requires Describes(chg, rows, nCol) && r < |rows| && j < nCol
    ensures Start(chg, r, j) == |LowerPrefixRows(rows, nCol, r, j)|
  {
    forall k: nat | k < |rows|
      ensures k in LowerPrefixRows(rows, nCol, r, j) <==> k in Interval(0, Start(chg, r, j))
    {
      WhereIsRow(chg, rows, nCol, r, j, k);
    }
    assert LowerPrefixRows(rows, nCol, r, j) == Interval(0, Start(chg, r, j));
  }

  lemma LowerPrefixesAreBelowStart(chg: seq<Step>, rows: seq<Row>, nCol: nat, r: nat, j: nat)
    requires Describes(chg, rows, nCol) && r < |rows| && j < nCol
    ensures LowerPrefixes(rows, nCol, r, j) == PrefixesBelow(rows, nCol, Start(chg, r, j), j)
  {
    forall k: nat | k < |rows|
      ensures Less(rows[k][..j + 1], rows[r][..j + 1]) <==> k < Start(chg, r, j)
    {
      WhereIsRow(chg, rows, nCol, r, j, k);
    }
  }

  lemma RunsBeforeIsLowerPrefixes(chg: seq<Step>, rows: seq<Row>, nCol: nat, r: nat, j: nat)
    requires Describes(chg, rows, nCol) && r < |rows| && j < nCol
    ensures RunsBefore(chg, r, j) == |LowerPrefixes(rows, nCol, r, j)|
  {
    hide PrefixesBelow, LowerPrefixes, Less;
    DescribesIndex(chg, rows, nCol);
    hide Describes;
    var s := Start(chg, r, j);
    LowerPrefixesAreBelowStart(chg, rows, nCol, r, j);
    RunsBeforeStart(chg, r, j);
    StartBounds(chg, r, j);
    if s > 0 {
      PrefixesBelowCount(chg, rows, nCol, s - 1, j);
    } else {
      PrefixesBelowNone(rows, nCol, j);
    }
  }

  /** What sqlite_stat4 promises of one sample of the index. */
  ghost predicate ExactSample(s: Sample, rows: seq<Row>, rowids: seq<int>, nCol: nat)
    requires IsIndex(rows, nCol) && |rowids| == |rows|
  {
    && |s.anEq| == |s.anLt| == |s.anDLt| == nCol
    && Pos(s) < |rows| && s.rowid == rowids[Pos(s)]
    && forall j :: 0 <= j < nCol ==>
         && s.anEq[j] == |SamePrefixRows(rows, nCol, Pos(s), j)|
         && s.anLt[j] == |LowerPrefixRows(rows, nCol, Pos(s), j)|
         && s.anDLt[j] == |LowerPrefixes(rows, nCol, Pos(s), j)|
  }

  /** The scan loop's test: the first column that changed, 0 for the first row. */
  method FirstChanged(rows: seq<Row>, r: nat, nCol: nat) returns (c: nat)
    requires nCol > 0 && IsIndex(rows, nCol) && r < |rows|
    ensures c < nCol && (r == 0 ==> c == 0) && (r > 0 ==> c == FirstDiff(rows[r - 1], rows[r]))
  {
    c := 0;
    if r > 0 {
      LessIrreflexive(rows[r - 1], rows[r]);
      hide Less, FirstDiff;
      c := Difference(rows[r - 1], rows[r]);
    }
  }

  method Difference(x: Row, y: Row) returns (c: nat)
    requires |x| == |y| && x != y
    ensures c < |x| && c == FirstDiff(x, y)
  {
    hide FirstDiff;
    c := 0;
    NotYetAll(x, y, 0);
    while x[c] == y[c]
      invariant 0 <= c < |x| && forall i :: 0 <= i < c ==> x[i] == y[i]
      decreases |x| - c
    {
      c := c + 1;
      NotYetAll(x, y, c);
    }
  }

  lemma NotYetAll(x: Row, y: Row, c: nat)
    requires |x| == |y| && x != y && c <= |x| && forall i :: 0 <= i < c ==> x[i] == y[i]
    ensures c < |x|
  {
  }

  /** The history of the scan so far. */
  ghost predicate Recorded(chg: seq<Step>, rows: seq<Row>, rowids: seq<int>, nCol: nat)
    requires IsIndex(rows, nCol)
  {
    && |chg| <= |rows| == |rowids|
    && forall k :: 0 <= k < |chg| ==>
         chg[k].rowid == rowids[k] && (k > 0 ==> chg[k].col == FirstDiff(rows[k - 1], rows[k]))
  }

  method PushRow(p: StatAccum, rows: seq<Row>, rowids: seq<int>, r: nat)
    requires p.Valid() && r == |p.chg| < |rows| <= p.nEst
    requires IsIndex(rows, p.nCol) && Recorded(p.chg, rows, rowids, p.nCol)
    modifies p
    ensures p.Valid() && |p.chg| == r + 1 && Recorded(p.chg, rows, rowids, p.nCol)
  {
    hide Fits, IsCurrent, Candidate, CoverOk, PeriodicRows, PeriodicPositions, Less;
    var iChng := FirstChanged(rows, r, p.nCol);
    p.StatPush(iChng, rowids[r]);
  }

  lemma FinishedIsExact(a: seq<Sample>, chg: seq<Step>, rows: seq<Row>, rowids: seq<int>, nCol: nat)
    requires Describes(chg, rows, nCol) && Finished(a, chg, nCol)
    requires |rowids| == |rows| && forall k :: 0 <= k < |rows| ==> chg[k].rowid == rowids[k]
    ensures forall k :: 0 <= k < |a| ==> ExactSample(a[k], rows, rowids, nCol)
  {
    forall k | 0 <= k < |a| ensures ExactSample(a[k], rows, rowids, nCol) {
      var r := Pos(a[k]);
      forall j | 0 <= j < nCol
        ensures a[k].anEq[j] == |SamePrefixRows(rows, nCol, r, j)|
        ensures a[k].anLt[j] == |LowerPrefixRows(rows, nCol, r, j)|
        ensures a[k].anDLt[j] == |LowerPrefixes(rows, nCol, r, j)|
      {
        assert ExactAt(a[k], chg, j);
        CountIsSamePrefix(chg, rows, nCol, r, j);
        StartIsLowerRows(chg, rows, nCol, r, j);
        RunsBeforeIsLowerPrefixes(chg, rows, nCol, r, j);
      }
    }
  }

  /** Exactly the rows that end a whole number of periods are periodic samples; so every
      `period` consecutive rows contain one. */
  ghost predicate SampledEvery(a: seq<Sample>, nRow: nat, period: int)
  {
    && period > 0
    && (forall r :: 0 <= r < nRow ==> (KeptAsPeriodic(a, r) <==> (r + 1) % period == 0))
    && (forall lo: nat, hi: nat :: hi == lo + period && hi <= nRow ==> HasPeriodicIn(a, lo, hi))
  }

  ghost predicate SampledInThirds(a: seq<Sample>, nRow: nat, nEst: nat, q: nat)
  {
    SampledEvery(a, nRow, nEst / (q + 1) + 1)
  }

  ghost predicate HasPeriodicIn(a: seq<Sample>, lo: nat, hi: nat)
  {
    exists k :: 0 <= k < |a| && a[k].isPSample && lo <= Pos(a[k]) < hi
  }

  /** If the estimate was right and the index is not tiny, q samples are periodic. */
  ghost predicate HasShare(a: seq<Sample>, nRow: nat, nEst: nat, q: nat)
  {
    nRow == nEst && nEst >= q * (q + 1) ==> |PeriodicIndexes(a)| == q
  }

  lemma PeriodicSamples(a: seq<Sample>, nRow: nat, nEst: nat, mxSample: nat)
    requires PeriodicPositions(a) == PeriodicRows(nRow, Period(nEst, mxSample))
    ensures SampledInThirds(a, nRow, nEst, mxSample / 3) && HasShare(a, nRow, nEst, mxSample / 3)
  {
    ShareOk(a, nRow, nEst, mxSample / 3);
    hide HasShare, PeriodicPositions, PeriodicRows, KeptAsPeriodic;
    EveryPeriod(a, nRow, Period(nEst, mxSample));
  }

  lemma EveryPeriod(a: seq<Sample>, nRow: nat, period: nat)
    requires period > 0 && PeriodicPositions(a) == PeriodicRows(nRow, period)
    ensures SampledEvery(a, nRow, period)
  {
    hide PeriodicPositions, PeriodicRows, KeptAsPeriodic, HasPeriodicIn;
    forall r | 0 <= r < nRow ensures KeptAsPeriodic(a, r) <==> (r + 1) % period == 0 {
      PeriodicPositionsMember(a, r);
      PeriodicRowsMember(nRow, period, r);
    }
    forall lo: nat, hi: nat | hi == lo + period && hi <= nRow ensures HasPeriodicIn(a, lo, hi) {
      var e := OneInEach(lo, period);
      KeptIsIn(a, e, lo, hi);
    }
  }

  lemma ShareOk(a: seq<Sample>, nRow: nat, nEst: nat, q: nat)
    requires PeriodicPositions(a) == PeriodicRows(nRow, nEst / (q + 1) + 1)
    ensures HasShare(a, nRow, nEst, q)
  {
    hide PeriodicPositions, PeriodicRows, PeriodicIndexes;
    PeriodicPositionsCount(a);
    PeriodicRowsCount(nRow, nEst / (q + 1) + 1);
    if nRow == nEst && nEst >= q * (q + 1) { FullShare(nRow, q); }
  }

  lemma KeptIsIn(a: seq<Sample>, e: nat, lo: nat, hi: nat)
    requires lo <= e < hi
    ensures KeptAsPeriodic(a, e) ==> HasPeriodicIn(a, lo, hi)
  {
  }

  /** ANALYZE of one index: every sample that comes back carries exact counts. */
  method AnalyzeIndex(rows: seq<Row>, rowids: seq<int>, nCol: nat, nEst: nat, mxSample: nat)
    returns (a: seq<Sample>)
    requires nCol > 0 && mxSample > 0 && IsIndex(rows, nCol) && |rowids| == |rows| <= nEst
    ensures |a| <= mxSample
    ensures forall k :: 0 <= k < |a| ==> ExactSample(a[k], rows, rowids, nCol)
    ensures forall k, l :: 0 <= k < l < |a| ==> Pos(a[k]) < Pos(a[l])
    ensures SampledInThirds(a, |rows|, nEst, mxSample / 3) && HasShare(a, |rows|, nEst, mxSample / 3)
    ensures |a| < mxSample ==> forall j, r :: 0 <= j < nCol - 1 && 0 <= r < |rows| ==> Represented(a, rows, j, r)
  {
    if rows == [] {
      PeriodicSamples([], 0, nEst, mxSample);
      return [];
    }
    var p := new StatAccum(nCol, nEst, mxSample);
    var r := 0;
    while r < |rows|
      invariant 0 <= r <= |rows| && fresh(p) && p.Valid()
      invariant p.nCol == nCol && p.nEst == nEst && p.mxSample == mxSample
      invariant |p.chg| == r && Recorded(p.chg, rows, rowids, nCol)
    {
      PushRow(p, rows, rowids, r);
      r := r + 1;
    }
    a := FlushSamples(p);
    FinishedIsExact(a, p.chg, rows, rowids, nCol);
    PeriodicSamples(a, |rows|, nEst, mxSample);
    if |a| < mxSample { AllRepresented(a, mxSample, p.chg, rows, nCol); }
  }

  /** Some sample shares the first j+1 columns of row r. */
  ghost predicate Represented(a: seq<Sample>, rows: seq<Row>, j: nat, r: nat)
    requires r < |rows| && j < |rows[r]|
  {
    exists k :: 0 <= k < |a| && Pos(a[k]) < |rows| && j < |rows[Pos(a[k])]|
                && rows[Pos(a[k])][..j + 1] == rows[r][..j + 1]
  }

  /** A sampler that did not run out of room has a sample for every proper prefix. */
  lemma AllRepresented(a: seq<Sample>, mxSample: nat, chg: seq<Step>, rows: seq<Row>, nCol: nat)
    requires Describes(chg, rows, nCol) && CoverOk(a, mxSample, chg, nCol, -1) && |a| < mxSample
    ensures forall j, r :: 0 <= j < nCol - 1 && 0 <= r < |rows| ==> Represented(a, rows, j, r)
  {
    forall j, r | 0 <= j < nCol - 1 && 0 <= r < |rows| ensures Represented(a, rows, j, r) {
      assert HasSampleIn(a, Start(chg, r, j), End(chg, r, j));
      var k :| 0 <= k < |a| && Start(chg, r, j) <= Pos(a[k]) < End(chg, r, j);
      WhereIsRow(chg, rows, nCol, r, j, Pos(a[k]));
    }
  }

  method FlushSamples(p: StatAccum) returns (a: seq<Sample>)
    requires p.Valid() && p.nRow > 0
    modifies p
    ensures Finished(a, p.chg, p.nCol) && |a| <= p.mxSample && p.chg == old(p.chg)
    ensures CoverOk(a, p.mxSample, p.chg, p.nCol, -1)
    ensures PeriodicPositions(a) == PeriodicRows(|p.chg|, Period(p.nEst, p.mxSample))
  {
    p.Flush();
    a := p.a;
  }

  /** What the estimates of sqlite_stat1 divide by: the distinct prefixes of the index. */
  lemma DistinctPrefixes(p: StatAccum, rows: seq<Row>, j: nat)
    requires p.Valid() && p.nRow > 0 && j < p.nCol && Describes(p.chg, rows, p.nCol)
    ensures p.current.anDLt[j] + 1 == |PrefixesBelow(rows, p.nCol, |rows|, j)|
  {
    PrefixesBelowCount(p.chg, rows, p.nCol, |rows| - 1, j);
  }
}
