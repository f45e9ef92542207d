// Column numbers in the CREATE TABLE statement and in the stored record.
module ColumnMap {

  /** The columns of a table: which of them are virtual. */
  datatype Table = Table(virt: seq<bool>)

  /** Non-virtual columns among the first n. */
  function Stored(t: Table, n: nat): (k: nat)
    requires n <= |t.virt|
    ensures k <= n
  {
    if n == 0 then 0 else Stored(t, n - 1) + (if t.virt[n - 1] then 0 else 1)
  }

  function NNVCol(t: Table): nat { Stored(t, |t.virt|) }

  predicate HasVirtual(t: Table) { exists i :: 0 <= i < |t.virt| && t.virt[i] }

  /** Non-virtual columns keep their order, and the virtual ones follow them in theirs. */
  function ToStorage(t: Table, iCol: int): int
    requires iCol < |t.virt|
  {
    if iCol < 0 then iCol
    else if t.virt[iCol] then NNVCol(t) + (iCol - Stored(t, iCol))
    else Stored(t, iCol)
  }

  lemma {:induction false} NoneVirtual(t: Table, n: nat)
    requires n <= |t.virt| && forall i :: 0 <= i < n ==> !t.virt[i]
    ensures Stored(t, n) == n
  {
    if n > 0 { NoneVirtual(t, n - 1); }
  }

  lemma {:induction false} StoredGrows(t: Table, m: nat, n: nat)
    requires m <= n <= |t.virt|
    ensures Stored(t, m) <= Stored(t, n) <= Stored(t, m) + (n - m)
    ensures forall i :: m <= i < n && !t.virt[i] ==> Stored(t, m) < Stored(t, n)
    ensures forall i :: m <= i < n && t.virt[i] ==> Stored(t, n) < Stored(t, m) + (n - m)
  {
    if m < n { StoredGrows(t, m, n - 1); }
  }

  /** sqlite3TableColumnToStorage() */
  method TableColumnToStorage(t: Table, iCol: int) returns (r: int)
    requires iCol < |t.virt|
    ensures r == ToStorage(t, iCol)
  {
    if !HasVirtual(t) || iCol < 0 {
      if iCol >= 0 { NoneVirtual(t, iCol); }
      return iCol;
    }
    var i, n := 0, 0;
    while i < iCol
      invariant 0 <= i <= iCol && n == Stored(t, i)
    {
      if !t.virt[i] { n := n + 1; }
      i := i + 1;
    }
    r := if t.virt[i] then NNVCol(t) + i - n else n;
  }

  /** sqlite3StorageColumnToTable(): every virtual column passed moves the bound by one. */
  method StorageColumnToTable(t: Table, iCol0: int) returns (iCol: int)
    requires HasVirtual(t) ==> iCol0 < NNVCol(t)
    ensures iCol0 < 0 ==> iCol == iCol0
    ensures 0 <= iCol0 < |t.virt| ==> 0 <= iCol < |t.virt| && !t.virt[iCol] && ToStorage(t, iCol) == iCol0
    ensures !HasVirtual(t) ==> iCol == iCol0
  {
    iCol := iCol0;
    if HasVirtual(t) {
      var i := 0;
      while i <= iCol
        invariant 0 <= i <= |t.virt|
        invariant if iCol0 < 0 then iCol == iCol0 else i <= iCol + 1
        invariant iCol0 >= 0 ==> iCol == iCol0 + (i - Stored(t, i))
        invariant i > 0 && i == iCol + 1 ==> !t.virt[i - 1]
        decreases |t.virt| - i
      {
        StoredGrows(t, i, |t.virt|);
        assert i < |t.virt|;
        if t.virt[i] { iCol := iCol + 1; }
        i := i + 1;
      }
    } else if 0 <= iCol0 < |t.virt| {
      NoneVirtual(t, iCol0);
    }
  }

  /** Distinct columns have distinct storage numbers, all of them below the number of
      columns; virtual columns come after all others; and each kind keeps its order. */
  lemma StorageOrder(t: Table, i: nat, j: nat)
    requires i < j < |t.virt|
    ensures ToStorage(t, i) != ToStorage(t, j)
    ensures t.virt[i] == t.virt[j] ==> ToStorage(t, i) < ToStorage(t, j)
    ensures t.virt[i] && !t.virt[j] ==> ToStorage(t, i) > ToStorage(t, j)
  {
    StorageRange(t, i);
    StorageRange(t, j);
    StoredGrows(t, i, j);
  }

  lemma StorageRange(t: Table, i: nat)
    requires i < |t.virt|
    ensures 0 <= ToStorage(t, i) < |t.virt|
    ensures t.virt[i] <==> ToStorage(t, i) >= NNVCol(t)
  {
    StoredGrows(t, i, |t.virt|);
    StoredGrows(t, 0, i);
    assert Stored(t, i + 1) == Stored(t, i) + if t.virt[i] then 0 else 1;
    StoredGrows(t, i + 1, |t.virt|);
  }

  /** Every storage number belongs to a column, so the map is a bijection. */
  lemma {:induction false} StorageOnto(t: Table, s: nat)
    requires s < |t.virt|
    ensures exists i :: 0 <= i < |t.virt| && ToStorage(t, i) == s
  {
    if s < NNVCol(t) {
      var i := FindStored(t, s, |t.virt|);
      assert ToStorage(t, i) == s;
    } else {
      var i := FindVirtual(t, s - NNVCol(t), |t.virt|);
      assert ToStorage(t, i) == s;
    }
  }

  lemma {:induction false} FindStored(t: Table, k: nat, n: nat) returns (i: nat)
    requires n <= |t.virt| && k < Stored(t, n)
    ensures i < n && !t.virt[i] && Stored(t, i) == k
  {
    if k == Stored(t, n - 1) { i := n - 1; } else { i := FindStored(t, k, n - 1); }
  }

  lemma {:induction false} FindVirtual(t: Table, k: nat, n: nat) returns (i: nat)
    requires n <= |t.virt| && k < n - Stored(t, n)
    ensures i < n && t.virt[i] && i - Stored(t, i) == k
  {
    if t.virt[n - 1] && k == n - 1 - Stored(t, n - 1) { i := n - 1; } else { i := FindVirtual(t, k, n - 1); }
  }
}
