// Counting rows that share an index prefix.
//
// The sampler never sees whole rows: for each row it is told only the first column
// that differs from the row before.  `chg` is that history, one entry a row.  Rows
// that share their first j+1 columns form a "j-run": a maximal block of consecutive
// rows in which no later member changes column j or an earlier one.  This module defines the bounds of a
// run and proves what they count in terms of the rows themselves.
module RunCounts {

  /** One call of stat_push(): the first column to change, and the rowid of the row. */
  datatype Step = Step(col: nat, rowid: int)

  /** First row of the j-run of row r. */
  ghost function Start(chg: seq<Step>, r: nat, j: nat): (k: nat)
    requires r < |chg|
    ensures k <= r
  {
    if r == 0 || chg[r].col <= j then r else Start(chg, r - 1, j)
  }

  /** One past the last row of the j-run of row r. */
  ghost function End(chg: seq<Step>, r: nat, j: nat): (e: nat)
    requires r < |chg|
    ensures r < e <= |chg|
    decreases |chg| - r
  {
    if r + 1 == |chg| || chg[r + 1].col <= j then r + 1 else End(chg, r + 1, j)
  }

  /** Number of j-runs that lie wholly before the j-run of row r. */
  ghost function RunsBefore(chg: seq<Step>, r: nat, j: nat): nat
    requires r < |chg|
  {
    if r == 0 then 0 else RunsBefore(chg, r - 1, j) + (if chg[r].col <= j then 1 else 0)
  }

  ghost function Count(chg: seq<Step>, r: nat, j: nat): (n: nat)
    requires r < |chg|
    ensures n > 0
  {
    End(chg, r, j) - Start(chg, r, j)
  }

  /** Row r lies in the j-run of the last row seen so far. */
  ghost predicate InLastRun(chg: seq<Step>, r: nat, j: nat)
    requires r < |chg|
  {
    Start(chg, |chg| - 1, j) <= r
  }

  lemma StartBounds(chg: seq<Step>, r: nat, j: nat)
    requires r < |chg|
    ensures var k := Start(chg, r, j);
            && (k == 0 || chg[k].col <= j)
            && forall m :: k < m <= r ==> chg[m].col > j
  {
  }

  lemma EndBounds(chg: seq<Step>, r: nat, j: nat)
    requires r < |chg|
    ensures var e := End(chg, r, j);
            && (e == |chg| || chg[e].col <= j)
            && forall m :: r < m < e ==> chg[m].col > j
    decreases |chg| - r
  {
  }

  // ---- a wider prefix gives a shorter run ----

  lemma StartMonotone(chg: seq<Step>, r: nat, j: nat, j': nat)
    requires r < |chg| && j <= j'
    ensures Start(chg, r, j) <= Start(chg, r, j')
  {
  }

  lemma EndMonotone(chg: seq<Step>, r: nat, j: nat, j': nat)
    requires r < |chg| && j <= j'
    ensures End(chg, r, j') <= End(chg, r, j)
    decreases |chg| - r
  {
  }

  lemma LastRunBounds(chg: seq<Step>, r: nat, j: nat)
    requires r < |chg|
    ensures InLastRun(chg, r, j) <==> End(chg, r, j) == |chg|
    ensures InLastRun(chg, r, j) ==> Start(chg, r, j) == Start(chg, |chg| - 1, j)
    ensures InLastRun(chg, r, j) ==> Count(chg, r, j) == |chg| - Start(chg, |chg| - 1, j)
  {
    StartBounds(chg, |chg| - 1, j);
    StartBounds(chg, r, j);
    EndBounds(chg, r, j);
  }

  // ---- what one more row changes ----

  lemma StartAppend(chg: seq<Step>, x: Step, r: nat, j: nat)
    requires r < |chg|
    ensures Start(chg + [x], r, j) == Start(chg, r, j)
    ensures RunsBefore(chg + [x], r, j) == RunsBefore(chg, r, j)
  {
    if r > 0 { StartAppend(chg, x, r - 1, j); }
  }

  lemma EndAppend(chg: seq<Step>, x: Step, r: nat, j: nat)
    requires r < |chg|
    ensures End(chg + [x], r, j) ==
            if End(chg, r, j) == |chg| && x.col > j then |chg| + 1 else End(chg, r, j)
    decreases |chg| - r
  {
    if r + 1 < |chg| {
      EndAppend(chg, x, r + 1, j);
    } else {
      assert End(chg, r, j) == |chg|;
      if x.col > j { assert End(chg + [x], r + 1, j) == |chg| + 1; }
    }
  }

  lemma LastRunAppend(chg: seq<Step>, x: Step, r: nat, j: nat)
    requires r < |chg|
    ensures InLastRun(chg + [x], r, j) <==> InLastRun(chg, r, j) && x.col > j
  {
    var chg' := chg + [x];
    if x.col > j {
      StartAppend(chg, x, |chg| - 1, j);
    }
  }
}
