// The accumulator behind stat_init(), stat_push() and stat_get().
module Stat4Accum {
  import opened Arith
  import opened RunCounts
  import opened Stat4
  import opened Stat4Insert
  import opened Stat4Cover

  predicate Comparable(s: Sample, t: Sample)
  {
    |s.anEq| == |t.anEq| && s.iCol < |s.anEq| && t.iCol < |t.anEq| && !s.isPSample && !t.isPSample
  }

  /** Where the tie-break hash starts. */
  function FirstHash(nCol: nat, nEst: nat): (h: nat)
    ensures h < U32
  {
    var x, y := 0x689e962d * nCol % U32, 0xd0944565 * nEst % U32;
    (x as bv32 ^ y as bv32) as nat
  }

  /** The next tie-break hash, in 32-bit arithmetic. */
  function NextHash(iPrn: nat): (h: nat)
    ensures h < U32
  {
    (iPrn * 1103515245 + 12345) % U32
  }

  /** How the hash goes on from some values, the largest among them. */
  lemma HashValues()
    ensures NextHash(0) == 12345 && NextHash(1) == 1103527590 && NextHash(0xffff_ffff) == 3191464396
  {
  }

  predicate SamePrefix(s: seq<Sample>, t: seq<Sample>, n: nat)
  {
    n <= |s| && n <= |t| && forall c :: 0 <= c < n ==> s[c] == t[c]
  }

  class StatAccum {
    const nEst: nat
    const nCol: nat
    const mxSample: nat
    const nPSample: nat
    var nRow: nat
    var iPrn: nat
    var current: Sample
    var aBest: seq<Sample>
    var a: seq<Sample>
    var iMin: nat
    var nMaxEqZero: nat
    ghost var chg: seq<Step>

    /** The sample array, once counts above `level` may have been closed. */
    ghost predicate ArrayOk(level: int)
      reads this
    {
      Fits(a, iMin, mxSample, chg, nCol, level, nMaxEqZero)
    }

    ghost predicate Valid()
      reads this
    {
      && nCol > 0 && mxSample > 0
      && nPSample == Period(nEst, mxSample)
      && nRow == |chg| <= nEst
      && |current.anEq| == |current.anLt| == |current.anDLt| == nCol
      && |aBest| == nCol
      && !current.isPSample
      && (nRow == 0 ==>
            && a == [] && nMaxEqZero == 0
            && (forall j :: 0 <= j < nCol ==> current.anLt[j] == 0 && current.anDLt[j] == 0))
      && (nRow > 0 ==> IsCurrent(current, chg, nCol))
      && (nRow > 0 ==> forall i :: 0 <= i < nCol - 1 ==> Candidate(aBest[i], chg, nCol, i))
      && ArrayOk(nCol - 1)
      && CoverOk(a, mxSample, chg, nCol, nCol - 1)
      && PeriodicPositions(a) == PeriodicRows(nRow, nPSample)
    }

    /** stat_init() */
    constructor (nCol: nat, nEst: nat, mxSample: nat)
      requires nCol > 0 && mxSample > 0
      ensures Valid() && chg == []
      ensures this.nCol == nCol && this.nEst == nEst && this.mxSample == mxSample
    {
      this.nCol, this.nEst, this.mxSample := nCol, nEst, mxSample;
      this.nPSample := Period(nEst, mxSample);
      var z := seq(nCol, j => 0);
      var blank := Sample(z, z, z, 0, false, 0, 0);
      this.current := blank;
      this.aBest := seq(nCol, i requires 0 <= i < nCol => blank.(iCol := i));
      this.a, this.iMin, this.nMaxEqZero, this.nRow, this.iPrn := [], 0, 0, 0, FirstHash(nCol, nEst);
      this.chg := [];
    }

    method SampleInsert(s: Sample, nEqZero: nat)
      requires nRow == |chg| > 0 && mxSample > 0
      requires Insertable(s, chg, nCol, nEqZero)
      requires ArrayOk(nEqZero)
      requires s.isPSample ==> forall k :: 0 <= k < |a| ==> Pos(a[k]) < Pos(s)
      requires |PeriodicPositions(a)| + (if s.isPSample then 1 else 0) < mxSample
      modifies this`a, this`iMin, this`nMaxEqZero
      ensures ArrayOk(nEqZero - 1)
      ensures PeriodicPositions(a) == old(PeriodicPositions(a)) + (if s.isPSample then [Pos(s)] else [])
      ensures old(nMaxEqZero) <= nMaxEqZero
      ensures InsertOk(old(a), old(iMin), mxSample, s, nEqZero, chg, nCol, nMaxEqZero, a)
      ensures NewMin(old(iMin), mxSample, !s.isPSample && PeriodicOpen(old(a), s.iCol), nCol, a, iMin)
    {
      if nEqZero > nMaxEqZero { nMaxEqZero := nEqZero; }
      hide InsertOk, InsertResult, Insertable, AllRetained, IsLeast, PeriodicPositions, PeriodicOpen;
      InsertOkMeans(a, iMin, mxSample, s, nEqZero, chg, nCol, nMaxEqZero);
      a, iMin := InsertInto(a, iMin, mxSample, s, nEqZero, chg, nCol, nMaxEqZero);
    }

    /** The run of column i has ended: its candidate now has all its counts, and enters
        the array if there is room or if it beats the least desirable sample. */
    method Offer(i: nat)
      requires mxSample > 0 && nRow == |chg| > 0 && |aBest| == nCol && i < nCol - 1
      requires IsCurrent(current, chg, nCol) && Candidate(aBest[i], chg, nCol, i)
      requires ArrayOk(i) && CoverOk(a, mxSample, chg, nCol, i) && |PeriodicPositions(a)| < mxSample
      modifies this`a, this`iMin, this`nMaxEqZero, this`aBest
      ensures ArrayOk(i - 1) && CoverOk(a, mxSample, chg, nCol, i - 1)
      ensures PeriodicPositions(a) == old(PeriodicPositions(a))
      ensures i < |old(aBest)[i].anEq| && i < |current.anEq|
      ensures aBest == old(aBest)[i := Completed(old(aBest)[i], current, i)]
      ensures Offered(aBest[i], i, old(a), old(iMin), a, iMin, nMaxEqZero)
      ensures |old(a)| == mxSample && a != old(a) ==>
                old(iMin) < mxSample && Comparable(aBest[i], old(a)[old(iMin)])
                && SampleIsBetter(aBest[i], old(a)[old(iMin)])
    {
      hide Fits, CoverOk, Insertable, Candidate, IsCurrent, PeriodicPositions, Offered, Completed;
      CurrentShape(current, chg, nCol);
      CandidateShape(aBest[i], chg, nCol, i);
      CandidateInsertable(aBest[i], current, chg, nCol, i);
      var b := Completed(aBest[i], current, i);
      aBest := aBest[i := b];
      OfferSample(b, i);
    }

    /** A candidate that wins is inserted; one that does not changes nothing. */
    ghost predicate Offered(b: Sample, i: nat, a0: seq<Sample>, iMin0: nat, a1: seq<Sample>, iMin1: nat, m: nat)
      reads this`chg
    {
      if Wins(b, a0, iMin0, mxSample, nCol) then
        && InsertOk(a0, iMin0, mxSample, b, i, chg, nCol, m, a1)
        && NewMin(iMin0, mxSample, PeriodicOpen(a0, b.iCol), nCol, a1, iMin1)
      else a1 == a0 && iMin1 == iMin0
    }

    method OfferSample(b: Sample, i: nat)
      requires mxSample > 0 && nRow == |chg| > 0 && i < nCol - 1
      requires !b.isPSample && Insertable(b, chg, nCol, i)
      requires ArrayOk(i) && CoverOk(a, mxSample, chg, nCol, i) && |PeriodicPositions(a)| < mxSample
      modifies this`a, this`iMin, this`nMaxEqZero
      ensures ArrayOk(i - 1) && CoverOk(a, mxSample, chg, nCol, i - 1)
      ensures PeriodicPositions(a) == old(PeriodicPositions(a))
      ensures Offered(b, i, old(a), old(iMin), a, iMin, nMaxEqZero)
      ensures |old(a)| == mxSample && a != old(a) ==>
                old(iMin) < mxSample && Comparable(b, old(a)[old(iMin)]) && SampleIsBetter(b, old(a)[old(iMin)])
    {
      InsertableShape(b, chg, nCol, i);
      MinShape(a, iMin, mxSample, chg, nCol, i, nMaxEqZero);
      hide Fits, Retained, Insertable, InsertOk, SampleIsBetter, PeriodicPositions, PeriodicOpen, CoverOk, NewMin;
      if |a| < mxSample || SampleIsBetter(b, a[iMin]) {
        ghost var a0, iMin0, m0 := a, iMin, nMaxEqZero;
        SampleInsert(b, i);
        FitsMore(a0, iMin0, mxSample, chg, nCol, i, m0, nMaxEqZero);
        CoverInsert(a0, iMin0, mxSample, b, i, chg, nCol, nMaxEqZero, a);
      } else {
        FitsLess(a, iMin, mxSample, chg, nCol, i, nMaxEqZero);
        CoverFull(a, mxSample, chg, nCol, i - 1);
      }
    }

    /** Every run at or beyond column iChng ends with the current row: offer the candidates
        of those columns, longest prefix first. */
    method OfferCandidates(iChng: nat)
      requires Valid() && nRow > 0 && iChng < nCol
      modifies this`a, this`iMin, this`nMaxEqZero, this`aBest
      ensures ArrayOk(iChng - 1) && CoverOk(a, mxSample, chg, nCol, iChng - 1)
      ensures PeriodicPositions(a) == PeriodicRows(nRow, nPSample)
      ensures |aBest| == nCol && SamePrefix(aBest, old(aBest), iChng)
    {
      hide CoverOk, IsCurrent, Candidate, Retained, PeriodicPositions, PeriodicRows;
      PeriodicRowsFit(nRow, nEst, mxSample);
      FitsLess(a, iMin, mxSample, chg, nCol, nCol - 1, nMaxEqZero);
      hide Fits;
      CoverLess(a, mxSample, chg, nCol);
      var i := nCol - 2;
      while i >= iChng
        invariant iChng - 1 <= i <= nCol - 2
        invariant ArrayOk(i) && CoverOk(a, mxSample, chg, nCol, i)
        invariant PeriodicPositions(a) == PeriodicRows(nRow, nPSample)
        invariant |aBest| == nCol && SamePrefix(aBest, old(aBest), i + 1)
      {
        assert Candidate(old(aBest)[i], chg, nCol, i);
        Offer(i);
        i := i - 1;
      }
    }

    /** Column iChng of the index has changed: offer the candidates whose runs have ended,
        then fill in the open counts of the samples already retained. */
    method SamplePushPrevious(iChng: nat)
      requires Valid() && nRow > 0 && iChng < nCol
      modifies this`a, this`iMin, this`nMaxEqZero, this`aBest
      ensures ArrayOk(iChng - 1) && ClosedFrom(a, iChng) && CoverOk(a, mxSample, chg, nCol, iChng - 1)
      ensures PeriodicPositions(a) == PeriodicRows(nRow, nPSample)
      ensures |aBest| == nCol && SamePrefix(aBest, old(aBest), iChng)
    {
      OfferCandidates(iChng);
      CloseOpen(iChng);
    }

    /** Fill in the counts that column iChng and those after it have left open. */
    method CloseOpen(iChng: nat)
      requires nCol > 0 && iChng < nCol && IsCurrent(current, chg, nCol)
      requires ArrayOk(iChng - 1) && CoverOk(a, mxSample, chg, nCol, iChng - 1)
      modifies this`a, this`nMaxEqZero
      ensures ArrayOk(iChng - 1) && ClosedFrom(a, iChng) && CoverOk(a, mxSample, chg, nCol, iChng - 1)
      ensures PeriodicPositions(a) == old(PeriodicPositions(a))
    {
      hide CoverOk, PeriodicPositions, Fits, IsCurrent, ClosedFrom, Filled;
      CurrentShape(current, chg, nCol);
      FitsShape(a, iMin, mxSample, chg, nCol, iChng - 1, nMaxEqZero);
      if iChng < nMaxEqZero {
        var b := FillOpen(a, current, iChng);
        FilledFits(a, b, iMin, mxSample, current, chg, nCol, iChng, nMaxEqZero);
        a, nMaxEqZero := b, iChng;
      } else {
        FitsClosed(a, iMin, mxSample, chg, nCol, iChng - 1, nMaxEqZero, iChng);
      }
    }

    /** All of the second and later calls of stat_push() that precedes `nRow++`. */
    method NextRow(x: Step)
      requires Valid() && 0 < nRow && x.col < nCol
      modifies this`a, this`iMin, this`nMaxEqZero, this`aBest, this`current
      ensures IsCurrent(current, chg + [x], nCol) && !current.isPSample
      ensures Fits(a, iMin, mxSample, chg + [x], nCol, nCol - 1, nMaxEqZero)
      ensures CoverOk(a, mxSample, chg + [x], nCol, nCol - 1)
      ensures forall k :: 0 <= k < |a| ==> Pos(a[k]) < nRow
      ensures PeriodicPositions(a) == PeriodicRows(nRow, nPSample)
      ensures |aBest| == nCol && SamePrefix(aBest, old(aBest), x.col)
    {
      hide Candidate, CoverOk, PeriodicRows, PeriodicPositions, Retained;
      SamplePushPrevious(x.col);
      CurrentAppend(current, chg, x, nCol);
      current := AdvanceRow(current, x);
      RetainedAppendAll(a, chg, x, nCol);
      CoverAppend(a, mxSample, chg, x, nCol);
    }

    /** Everything stat_push() updates before it looks at the new row as a sample. */
    method BeginRow(x: Step)
      requires Valid() && nRow < nEst && x.col < nCol
      requires nRow == 0 ==> x.col == 0
      modifies this
      ensures chg == old(chg) + [x] && nRow == |chg|
      ensures IsCurrent(current, chg, nCol) && !current.isPSample
      ensures ArrayOk(nCol - 1) && CoverOk(a, mxSample, chg, nCol, nCol - 1)
      ensures forall k :: 0 <= k < |a| ==> Pos(a[k]) < nRow - 1
      ensures PeriodicPositions(a) == PeriodicRows(nRow - 1, nPSample)
      ensures |aBest| == nCol && SamePrefix(aBest, old(aBest), x.col)
    {
      hide Candidate, CoverOk, PeriodicPositions, Retained;
      if nRow == 0 {
        var ones := Ones(nCol);
        current := current.(anEq := ones, rowid := x.rowid);
        FirstRow(current, nCol);
        CoverFirst(mxSample, x, nCol);
        assert [] + [x] == [Step(0, x.rowid)];
      } else {
        NextRow(x);
      }
      chg := chg + [x];
      nRow := nRow + 1;
    }

    /** Add the new row to the array when it is a periodic one. */
    method SamplePeriodic()
      requires nCol > 0 && mxSample > 0 && nPSample == Period(nEst, mxSample)
      requires 0 < nRow == |chg| <= nEst && IsCurrent(current, chg, nCol)
      requires ArrayOk(nCol - 1) && CoverOk(a, mxSample, chg, nCol, nCol - 1)
      requires forall k :: 0 <= k < |a| ==> Pos(a[k]) < nRow - 1
      requires PeriodicPositions(a) == PeriodicRows(nRow - 1, nPSample)
      modifies this`a, this`iMin, this`nMaxEqZero
      ensures ArrayOk(nCol - 1) && CoverOk(a, mxSample, chg, nCol, nCol - 1)
      ensures PeriodicPositions(a) == PeriodicRows(nRow, nPSample)
    {
      hide AllRetained, Retained, Insertable, IsCurrent, InsertOk, PeriodicPositions, PeriodicOpen, PeriodicRows,
           IsLeast, CoverOk;
      PeriodicRowsFit(nRow, nEst, mxSample);
      CurrentIsLast(current, chg, nCol);
      PeriodicStep(nRow, nPSample);
      var nLt := current.anLt[nCol - 1];
      if nLt / nPSample != (nLt + 1) / nPSample {
        var s := current.(isPSample := true, iCol := 0);
        PeriodicInsertable(current, chg, nCol);
        RetainedWeaken(a, chg, nCol, nCol - 1);
        ghost var a0, iMin0 := a, iMin;
        SampleInsert(s, nCol - 1);
        CoverPeriodic(a0, iMin0, mxSample, s, nCol - 1, chg, nCol, nMaxEqZero, a, nCol - 1);
        TopLevel(a, chg, nCol);
      }
    }

    /** Stamp the new row with its tie-break hash, then sample it. */
    method SampleRow()
      requires nCol > 0 && mxSample > 0 && nPSample == Period(nEst, mxSample)
      requires 0 < nRow == |chg| <= nEst && IsCurrent(current, chg, nCol)
      requires ArrayOk(nCol - 1) && CoverOk(a, mxSample, chg, nCol, nCol - 1)
      requires forall k :: 0 <= k < |a| ==> Pos(a[k]) < nRow - 1
      requires PeriodicPositions(a) == PeriodicRows(nRow - 1, nPSample)
      modifies this`a, this`iMin, this`nMaxEqZero, this`iPrn, this`current
      ensures ArrayOk(nCol - 1) && CoverOk(a, mxSample, chg, nCol, nCol - 1)
      ensures PeriodicPositions(a) == PeriodicRows(nRow, nPSample)
      ensures IsCurrent(current, chg, nCol) && current.isPSample == old(current.isPSample)
      ensures iPrn == NextHash(old(iPrn)) && current == old(current).(iHash := iPrn)
    {
      hide Fits, CoverOk, IsCurrent, PeriodicPositions, PeriodicRows, NextHash;
      iPrn := NextHash(iPrn);
      Relabel(current, chg, nCol, current.isPSample, current.iCol, iPrn);
      current := current.(iHash := iPrn);
      SamplePeriodic();
    }

    /** stat_push(): one more row, whose first column to differ from the row before is
        iChng (0 for the first row). */
    method StatPush(iChng: nat, rowid: int)
      requires Valid() && nRow < nEst && iChng < nCol
      requires nRow == 0 ==> iChng == 0
      modifies this
      ensures Valid() && chg == old(chg) + [Step(iChng, rowid)]
    {
      hide Retained, Candidate;
      ghost var before, best0 := chg, aBest;
      assert before != [] ==> forall c :: 0 <= c < nCol - 1 ==> Candidate(best0[c], before, nCol, c);
      var x := Step(iChng, rowid);
      BeginRow(x);
      SampleRow();
      UpdateBest(iChng, before, x, best0);
    }

    /** A newly read row replaces the candidate of every column whose run has just begun,
        and of every other column for which it is the better candidate. */
    method UpdateBest(iChng: nat, ghost before: seq<Step>, ghost x: Step, ghost best0: seq<Sample>)
      requires chg == before + [x] && x.col == iChng && iChng < nCol == |aBest| && (before == [] ==> iChng == 0)
      requires IsCurrent(current, chg, nCol) && !current.isPSample
      requires |best0| == nCol && SamePrefix(aBest, best0, iChng)
      requires before != [] ==> forall c :: 0 <= c < nCol - 1 ==> Candidate(best0[c], before, nCol, c)
      modifies this`aBest, this`current
      ensures IsCurrent(current, chg, nCol) && !current.isPSample
      ensures |aBest| == nCol && forall c :: 0 <= c < nCol - 1 ==> Candidate(aBest[c], chg, nCol, c)
    {
      hide IsCurrent, Candidate, Dominant, SampleIsBetterPost;
      var i := 0;
      while i < nCol - 1
        invariant 0 <= i && |aBest| == nCol
        invariant IsCurrent(current, chg, nCol) && !current.isPSample
        invariant forall c :: 0 <= c < i && c < nCol - 1 ==> Candidate(aBest[c], chg, nCol, c)
        invariant forall c :: i <= c < nCol ==> aBest[c] == old(aBest[c])
      {
        Relabel(current, chg, nCol, false, i, current.iHash);
        current := current.(iCol := i);
        CurrentShape(current, chg, nCol);
        if i < iChng {
          assert aBest[i] == best0[i];
          CandidateShape(aBest[i], before, nCol, i);
        }
        if i >= iChng || SampleIsBetterPost(current, aBest[i]) {
          if i >= iChng { NewRunIsDominant(chg, i); } else { BetterIsDominant(current, aBest[i], before, x, nCol, i); }
          CurrentIsCandidate(current, chg, nCol);
          aBest := aBest[i := current];
        } else {
          if Pos(aBest[i]) == |before| - 1 && iChng > i + 1 {
            CurrentBeats(current, aBest[i], before, x, nCol, i);
          }
          CandidateAppend(aBest[i], current, before, x, nCol, i);
        }
        i := i + 1;
      }
    }

    /** The first stat_get() call for a sample closes every run that is still open. */
    method Flush()
      requires Valid() && nRow > 0
      modifies this
      ensures Finished(a, chg, nCol) && |a| <= mxSample && chg == old(chg)
      ensures CoverOk(a, mxSample, chg, nCol, -1)
      ensures PeriodicPositions(a) == PeriodicRows(nRow, nPSample) && nRow == old(nRow)
    {
      SamplePushPrevious(0);
    }
  }

  /** Samples in row order, every one of their counts exact. */
  ghost predicate Finished(a: seq<Sample>, chg: seq<Step>, nCol: nat)
  {
    && Ordered(a)
    && forall k :: 0 <= k < |a| ==> Snapshot(a[k], chg, nCol) && forall j :: 0 <= j < nCol ==> ExactAt(a[k], chg, j)
  }

  // ---- rows ----

  method Ones(n: nat) returns (ones: seq<nat>)
    ensures |ones| == n && forall j :: 0 <= j < n ==> ones[j] == 1
  {
    ones := [];
    while |ones| < n
      invariant |ones| <= n && forall j :: 0 <= j < |ones| ==> ones[j] == 1
    {
      ones := ones + [1];
    }
  }

  lemma Relabel(cur: Sample, chg: seq<Step>, nCol: nat, isP: bool, iCol: nat, iHash: nat)
    requires IsCurrent(cur, chg, nCol)
    ensures IsCurrent(cur.(isPSample := isP, iCol := iCol, iHash := iHash), chg, nCol)
  {
    forall j | 0 <= j < nCol
      ensures ExactAt(cur.(isPSample := isP, iCol := iCol, iHash := iHash), chg, j)
    {
      assert ExactAt(cur, chg, j);
    }
  }

  method AdvanceRow(cur: Sample, x: Step) returns (next: Sample)
    requires |cur.anEq| == |cur.anLt| == |cur.anDLt| && x.col <= |cur.anEq|
    ensures next == NextCurrent(cur, x)
  {
    var n, iChng := |cur.anEq|, x.col;
    next := cur.(rowid := x.rowid);
    var i := 0;
    while i < iChng
      invariant 0 <= i <= iChng && |next.anEq| == n && next == cur.(rowid := x.rowid, anEq := next.anEq)
      invariant forall j :: 0 <= j < n ==> next.anEq[j] == cur.anEq[j] + (if j < i then 1 else 0)
    {
      next := next.(anEq := next.anEq[i := next.anEq[i] + 1]);
      i := i + 1;
    }
    while i < n
      invariant iChng <= i <= n && |next.anEq| == |next.anLt| == |next.anDLt| == n
      invariant next == cur.(rowid := x.rowid, anEq := next.anEq, anLt := next.anLt, anDLt := next.anDLt)
      invariant forall j :: 0 <= j < n ==>
        next.anEq[j] == if j < iChng then cur.anEq[j] + 1 else if j < i then 1 else cur.anEq[j]
      invariant forall j :: 0 <= j < n ==>
        && next.anLt[j] == (if iChng <= j < i then cur.anLt[j] + cur.anEq[j] else cur.anLt[j])
        && next.anDLt[j] == (if iChng <= j < i then cur.anDLt[j] + 1 else cur.anDLt[j])
    {
      next := next.(anDLt := next.anDLt[i := next.anDLt[i] + 1],
                    anLt := next.anLt[i := next.anLt[i] + next.anEq[i]],
                    anEq := next.anEq[i := 1]);
      i := i + 1;
    }
    var spec := NextCurrent(cur, x);
    assert next.anEq == spec.anEq && next.anLt == spec.anLt && next.anDLt == spec.anDLt;
  }

  lemma FirstRow(cur: Sample, nCol: nat)
    requires |cur.anEq| == |cur.anLt| == |cur.anDLt| == nCol > 0
    requires forall j :: 0 <= j < nCol ==> cur.anEq[j] == 1 && cur.anLt[j] == 0 && cur.anDLt[j] == 0
    ensures IsCurrent(cur, [Step(0, cur.rowid)], nCol)
  {
    forall j | 0 <= j < nCol ensures ExactAt(cur, [Step(0, cur.rowid)], j) {
      assert End([Step(0, cur.rowid)], 0, j) == 1;
    }
  }

  lemma RetainedAppendAll(a: seq<Sample>, chg: seq<Step>, x: Step, nCol: nat)
    requires AllRetained(a, chg, nCol, x.col - 1) && ClosedFrom(a, x.col) && x.col < nCol
    ensures AllRetained(a, chg + [x], nCol, nCol - 1)
    ensures forall k :: 0 <= k < |a| ==> Pos(a[k]) < |chg|
  {
    forall k | 0 <= k < |a| ensures Retained(a[k], chg + [x], nCol, nCol - 1) {
      assert Retained(a[k], chg, nCol, x.col - 1);
      RetainedAppend(a[k], chg, x, nCol);
    }
  }

  lemma CurrentIsLast(cur: Sample, chg: seq<Step>, nCol: nat)
    requires IsCurrent(cur, chg, nCol)
    ensures |cur.anLt| == nCol > 0 && cur.anLt[nCol - 1] == Pos(cur) == |chg| - 1
  {
  }

  lemma PeriodicStep(n: nat, period: nat)
    requires n > 0 && period > 0
    ensures PeriodicRows(n, period)
         == PeriodicRows(n - 1, period) + if (n - 1) / period != n / period then [n - 1] else []
  {
  }

  lemma PeriodicInsertable(cur: Sample, chg: seq<Step>, nCol: nat)
    requires IsCurrent(cur, chg, nCol)
    ensures Insertable(cur.(isPSample := true, iCol := 0), chg, nCol, nCol - 1)
  {
    Relabel(cur, chg, nCol, true, 0, cur.iHash);
  }

  lemma TopLevel(a: seq<Sample>, chg: seq<Step>, nCol: nat)
    requires AllRetained(a, chg, nCol, nCol - 2)
    ensures AllRetained(a, chg, nCol, nCol - 1)
  {
  }

  lemma MinShape(a: seq<Sample>, iMin: nat, mxSample: nat, chg: seq<Step>, nCol: nat, level: int, m: nat)
    requires Fits(a, iMin, mxSample, chg, nCol, level, m)
    ensures |a| == mxSample ==> iMin < |a| && Ranked(a[iMin], nCol)
  {
  }

  lemma FitsMore(a: seq<Sample>, iMin: nat, mxSample: nat, chg: seq<Step>, nCol: nat, level: int, m: nat, m': nat)
    requires Fits(a, iMin, mxSample, chg, nCol, level, m) && m <= m'
    ensures Fits(a, iMin, mxSample, chg, nCol, level, m')
  {
  }

  lemma FitsLess(a: seq<Sample>, iMin: nat, mxSample: nat, chg: seq<Step>, nCol: nat, level: int, m: nat)
    requires Fits(a, iMin, mxSample, chg, nCol, level, m)
    ensures Fits(a, iMin, mxSample, chg, nCol, level - 1, m) && |a| <= mxSample
  {
    RetainedWeaken(a, chg, nCol, level);
  }

  lemma CandidateShape(b: Sample, chg: seq<Step>, nCol: nat, i: nat)
    requires Candidate(b, chg, nCol, i)
    ensures |b.anEq| == nCol && b.iCol == i && Pos(b) < |chg|
  {
  }

  lemma CurrentIsCandidate(cur: Sample, chg: seq<Step>, nCol: nat)
    requires IsCurrent(cur, chg, nCol) && !cur.isPSample && cur.iCol < nCol - 1
    requires Dominant(|chg| - 1, chg, cur.iCol)
    ensures Candidate(cur, chg, nCol, cur.iCol)
  {
  }

  /** The candidate with the count of the run that ends now. */
  function Completed(b: Sample, cur: Sample, i: nat): Sample
    requires i < |b.anEq| && i < |cur.anEq|
  {
    b.(anEq := b.anEq[i := cur.anEq[i]])
  }

  /** When the run of column i ends, the candidate for column i has all its counts. */
  lemma CandidateInsertable(b: Sample, cur: Sample, chg: seq<Step>, nCol: nat, i: nat)
    requires Candidate(b, chg, nCol, i) && IsCurrent(cur, chg, nCol)
    ensures i < |b.anEq| && i < |cur.anEq| && Insertable(Completed(b, cur, i), chg, nCol, i)
    ensures !Completed(b, cur, i).isPSample
  {
    var s := Completed(b, cur, i);
    LastRunBounds(chg, Pos(b), i);
    LastRunBounds(chg, Pos(cur), i);
    assert ExactAt(cur, chg, i);
    forall j | i <= j < nCol ensures ExactAt(s, chg, j) {
      if j > i { assert ExactAt(b, chg, j); }
    }
    forall j | 0 <= j < i ensures InLastRun(chg, Pos(s), j) {
      StartMonotone(chg, |chg| - 1, j, i);
    }
  }

  // ---- closing the open counts ----

  function Filled(s: Sample, cur: Sample, x: nat): Sample
    requires |s.anEq| == |cur.anEq|
  {
    s.(anEq := seq(|s.anEq|, j requires 0 <= j < |s.anEq| =>
                   if j >= x && s.anEq[j] == 0 then cur.anEq[j] else s.anEq[j]))
  }

  method FillOpen(a: seq<Sample>, cur: Sample, x: nat) returns (b: seq<Sample>)
    requires forall k :: 0 <= k < |a| ==> |a[k].anEq| == |cur.anEq|
    ensures |b| == |a| && forall k :: 0 <= k < |a| ==> b[k] == Filled(a[k], cur, x)
  {
    b := a;
    var i := |a| - 1;
    while i >= 0
      invariant -1 <= i < |a| == |b|
      invariant forall k :: 0 <= k <= i ==> b[k] == a[k]
      invariant forall k :: i < k < |a| ==> b[k] == Filled(a[k], cur, x)
    {
      var s := b[i];
      var j := x;
      while j < |cur.anEq|
        invariant x <= j && |s.anEq| == |cur.anEq| && s == a[i].(anEq := s.anEq)
        invariant forall c :: 0 <= c < |s.anEq| ==>
          s.anEq[c] == if x <= c < j && a[i].anEq[c] == 0 then cur.anEq[c] else a[i].anEq[c]
      {
        if s.anEq[j] == 0 { s := s.(anEq := s.anEq[j := cur.anEq[j]]); }
        j := j + 1;
      }
      assert s.anEq == Filled(a[i], cur, x).anEq;
      b := b[i := s];
      i := i - 1;
    }
  }

  lemma FilledIsRetained(s: Sample, cur: Sample, chg: seq<Step>, nCol: nat, x: nat)
    requires Retained(s, chg, nCol, x - 1) && IsCurrent(cur, chg, nCol)
    ensures Retained(Filled(s, cur, x), chg, nCol, x - 1)
    ensures forall j :: x <= j < nCol ==> Filled(s, cur, x).anEq[j] != 0
  {
    var t := Filled(s, cur, x);
    assert Pos(t) == Pos(s);
    forall j | 0 <= j < nCol
      ensures t.anEq[j] != 0 ==> ExactAt(t, chg, j)
      ensures j >= x ==> t.anEq[j] != 0
    {
      assert ExactAt(cur, chg, j);
      if s.anEq[j] != 0 { assert ExactAt(s, chg, j); }
      else {
        LastRunBounds(chg, Pos(s), j);
        LastRunBounds(chg, Pos(cur), j);
      }
    }
  }

  lemma FilledArray(a: seq<Sample>, b: seq<Sample>, cur: Sample, chg: seq<Step>, nCol: nat, x: nat)
    requires AllRetained(a, chg, nCol, x - 1) && Ordered(a) && IsCurrent(cur, chg, nCol)
    requires |b| == |a|
    requires forall k :: 0 <= k < |a| ==> |a[k].anEq| == |cur.anEq| && b[k] == Filled(a[k], cur, x)
    ensures AllRetained(b, chg, nCol, x - 1) && Ordered(b) && ClosedFrom(b, x)
    ensures PeriodicPositions(b) == PeriodicPositions(a)
    ensures forall k :: 0 <= k < |a| ==> Pos(b[k]) == Pos(a[k])
  {
    forall k | 0 <= k < |a|
      ensures Retained(b[k], chg, nCol, x - 1) && Pos(b[k]) == Pos(a[k])
      ensures forall j :: x <= j < nCol ==> b[k].anEq[j] != 0
    {
      FilledIsRetained(a[k], cur, chg, nCol, x);
    }
    SamePeriodic(a, b);
  }

  lemma CurrentShape(cur: Sample, chg: seq<Step>, nCol: nat)
    requires IsCurrent(cur, chg, nCol)
    ensures |cur.anEq| == nCol
  {
  }

  lemma FitsShape(a: seq<Sample>, iMin: nat, mxSample: nat, chg: seq<Step>, nCol: nat, level: int, m: nat)
    requires Fits(a, iMin, mxSample, chg, nCol, level, m)
    ensures forall k :: 0 <= k < |a| ==> |a[k].anEq| == nCol
  {
    AllRetainedShape(a, chg, nCol, level);
  }

  lemma FitsClosed(a: seq<Sample>, iMin: nat, mxSample: nat, chg: seq<Step>, nCol: nat, level: int, m: nat, x: nat)
    requires Fits(a, iMin, mxSample, chg, nCol, level, m) && m <= x
    ensures ClosedFrom(a, x)
  {
  }

  lemma FilledFits(a: seq<Sample>, b: seq<Sample>, iMin: nat, mxSample: nat, cur: Sample, chg: seq<Step>,
                   nCol: nat, x: nat, m: nat)
    requires Fits(a, iMin, mxSample, chg, nCol, x - 1, m) && IsCurrent(cur, chg, nCol)
    requires CoverOk(a, mxSample, chg, nCol, x - 1) && |b| == |a|
    requires forall k :: 0 <= k < |a| ==> |a[k].anEq| == |cur.anEq| && b[k] == Filled(a[k], cur, x)
    ensures Fits(b, iMin, mxSample, chg, nCol, x - 1, x) && ClosedFrom(b, x) && CoverOk(b, mxSample, chg, nCol, x - 1)
    ensures PeriodicPositions(b) == PeriodicPositions(a)
  {
    FilledArray(a, b, cur, chg, nCol, x);
    CoverFill(a, b, mxSample, chg, nCol, x - 1);
  }

  lemma {:induction false} SamePeriodic(a: seq<Sample>, b: seq<Sample>)
    requires |a| == |b|
    requires forall k :: 0 <= k < |a| ==> Pos(a[k]) == Pos(b[k]) && a[k].isPSample == b[k].isPSample
    ensures PeriodicPositions(a) == PeriodicPositions(b)
  {
    if a != [] { SamePeriodic(a[..|a| - 1], b[..|a| - 1]); }
  }
}
