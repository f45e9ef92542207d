// Turning a rowid table into a WITHOUT ROWID table, in the index objects themselves.
module WithoutRowid {
  import opened IndexColumns

  /** An index: nKeyCol key columns, nColumn columns in all, in a buffer that may be larger. */
  class Index {
    const isPrimaryKey: bool
    var nKeyCol: nat
    var nColumn: nat
    var parts: array<Part>
    var bAscKeyBug: bool

    /** A new index on a rowid table: its key, then the rowid (column -1). */
    constructor (isPrimaryKey: bool, keys: seq<Part>)
      ensures this.isPrimaryKey == isPrimaryKey && fresh(parts)
      ensures Valid() && nKeyCol == |keys| && parts[..nKeyCol] == keys && HasRowidTail() && !bAscKeyBug
    {
      this.isPrimaryKey := isPrimaryKey;
      nKeyCol, nColumn := |keys|, |keys| + 1;
      var buf := new Part[|keys| + 1](i requires 0 <= i < |keys| + 1 =>
        if i < |keys| then keys[i] else Part(-1, "BINARY", 0));
      parts := buf;
      bAscKeyBug := false;
    }

    ghost predicate Valid()
      reads this
    {
      nKeyCol <= nColumn <= parts.Length
    }

    ghost predicate HasRowidTail()
      reads this, parts
    {
      nColumn == nKeyCol + 1 <= parts.Length && parts[nKeyCol].sort == 0
    }

    /** As created on a rowid table. */
    ghost predicate IsNew(keys: seq<Part>)
      reads this, parts
    {
      Valid() && HasRowidTail() && parts[..nKeyCol] == keys
    }

    /** As it must be on a WITHOUT ROWID table: the missing primary-key columns at the end. */
    ghost predicate IsConverted(keys: seq<Part>, pk: seq<Part>)
      reads this, parts
    {
      Valid() && nKeyCol == |keys| && parts[..nColumn] == keys + Missing(keys, pk, |pk|)
    }

    /** resizeIndexObject(): room for n columns. */
    method Resize(n: nat, allocOk: bool) returns (ok: bool)
      requires Valid()
      modifies this`nColumn, this`parts
      ensures Valid() && ok == (allocOk || old(nColumn) >= n)
      ensures if !ok || old(nColumn) >= n then parts == old(parts) && nColumn == old(nColumn)
              else fresh(parts) && nColumn == n == parts.Length
      ensures parts[..old(nColumn)] == old(parts[..nColumn])
      ensures forall k :: old(nColumn) <= k < nColumn ==> parts[k].sort == 0
    {
      if nColumn >= n { return true; }
      if !allocOk { return false; }
      var buf := new Part[n](_ => Part(0, "", 0));
      forall k | 0 <= k < nColumn { buf[k] := parts[k]; }
      parts, nColumn := buf, n;
      ok := true;
    }

    /** Remove repeated columns from the primary key, in place. */
    method RemoveRepeated()
      requires Valid() && nKeyCol > 0
      modifies this`nKeyCol, this`nColumn, parts
      ensures Valid() && 0 < nKeyCol == nColumn
      ensures parts[..nKeyCol] == Firsts(old(parts[..nKeyCol]), old(nKeyCol))
    {
      ghost var s := parts[..nKeyCol];
      var i, j := 1, 1;
      FirstsOne(s);
      hide Firsts, Same;
      while i < nKeyCol
        modifies this`nColumn, parts
        invariant 1 <= j <= i <= nKeyCol == |s| && nColumn >= nKeyCol - (i - j) && nColumn <= parts.Length
        invariant parts[..j] == Firsts(s, i)
        invariant forall k :: i <= k < nKeyCol ==> parts[k] == s[k]
      {
        j := KeepFirst(i, j, s);
        i := i + 1;
      }
      nKeyCol := j;
      nColumn := nKeyCol;
    }

    /** One column of the primary key: dropped, or moved down to position j. */
    method KeepFirst(i: nat, j0: nat, ghost s: seq<Part>) returns (j: nat)
      requires j0 <= i < nKeyCol == |s| && nKeyCol <= parts.Length && nColumn > 0
      requires parts[..j0] == Firsts(s, i) && parts[i] == s[i]
      modifies this`nColumn, parts
      ensures j0 <= j <= j0 + 1 && parts[..j] == Firsts(s, i + 1)
      ensures nColumn == old(nColumn) - (j0 + 1 - j)
      ensures forall k :: i < k < parts.Length ==> parts[k] == old(parts[k])
    {
      hide Firsts, Same;
      j := j0;
      var dup := IsDupColumn(this, j, this, i);
      FirstsStep(s, i);
      if dup {
        nColumn := nColumn - 1;
      } else {
        parts[j] := parts[i];
        j := j + 1;
      }
    }

    /** Append to the primary key every other column of the table that is stored. */
    method CoverTable(aCol: seq<Column>, allocOk: bool) returns (ok: bool)
      requires Valid() && nColumn == nKeyCol
      modifies this`nColumn, this`parts, parts
      ensures Valid() && nKeyCol == old(nKeyCol) && (parts == old(parts) || fresh(parts))
      ensures allocOk ==> ok
      ensures ok ==> parts[..nColumn] == old(parts[..nKeyCol]) + Others(old(parts[..nKeyCol]), aCol, |aCol|)
      ensures !ok ==> parts[..nColumn] == old(parts[..nKeyCol])
    {
      ghost var pk := parts[..nKeyCol];
      var nPk := nColumn;
      var nExtra := CountOthers(aCol);
      ok := Resize(nPk + nExtra, allocOk);
      if ok { AppendOthers(aCol, nPk); }
    }

    method CountOthers(aCol: seq<Column>) returns (nExtra: nat)
      requires Valid() && nColumn == nKeyCol
      ensures nExtra == |Others(parts[..nKeyCol], aCol, |aCol|)|
    {
      nExtra := 0;
      var i := 0;
      while i < |aCol|
        invariant 0 <= i <= |aCol| && nExtra == |Others(parts[..nKeyCol], aCol, i)|
      {
        var has := HasColumn(parts, nKeyCol, i);
        if !has && !aCol[i].virt { nExtra := nExtra + 1; }
        i := i + 1;
      }
    }

    method AppendOthers(aCol: seq<Column>, nPk: nat)
      requires nPk <= nColumn <= parts.Length && Filled(nPk, parts[..nPk])
      requires nColumn == nPk + |Others(parts[..nPk], aCol, |aCol|)|
      modifies parts
      ensures nColumn <= parts.Length
      ensures parts[..nColumn] == old(parts[..nPk]) + Others(old(parts[..nPk]), aCol, |aCol|)
    {
      ghost var pk := parts[..nPk];
      var i, j := 0, nPk;
      hide HasCol, Others, Filled;
      OthersNone(pk, aCol);
      while i < |aCol|
        modifies parts
        invariant 0 <= i <= |aCol| && j == |pk + Others(pk, aCol, i)|
        invariant Filled(j, pk + Others(pk, aCol, i)) && j <= parts.Length
      {
        j := AppendOther(aCol, i, j, pk);
        i := i + 1;
      }
      FilledMeans(this, j, pk + Others(pk, aCol, i));
    }

    /** One column of the table, if it is stored and not listed yet. */
    method AppendOther(aCol: seq<Column>, i: nat, j0: nat, ghost pk: seq<Part>) returns (j: nat)
      requires i < |aCol| && j0 == |pk + Others(pk, aCol, i)| <= parts.Length
      requires nColumn == |pk + Others(pk, aCol, |aCol|)| && Filled(j0, pk + Others(pk, aCol, i))
      modifies parts
      ensures j == |pk + Others(pk, aCol, i + 1)| <= parts.Length
      ensures Filled(j, pk + Others(pk, aCol, i + 1))
    {
      hide HasCol, Others, Filled;
      FilledMeans(this, j0, pk + Others(pk, aCol, i));
      j := j0;
      var has := HasColumn(parts, j, i);
      OthersStep(pk, aCol, i);
      if !has && !aCol[i].virt {
        var zColl := aCol[i].coll;
        WriteNext(j, i, if zColl != "" then zColl else "BINARY", pk + Others(pk, aCol, i));
        j := j + 1;
      }
    }

    /** Replace the rowid at the end of a secondary index by the primary-key columns that its
        own key lacks. */
    method AppendKey(pPk: Index, allocOk: bool) returns (ok: bool)
      requires Valid() && HasRowidTail() && pPk.Valid() && pPk != this && pPk.parts != parts
      requires pPk.nColumn == pPk.nKeyCol
      modifies this`nColumn, this`parts, this`bAscKeyBug, parts
      ensures Valid() && nKeyCol == old(nKeyCol) && (parts == old(parts) || fresh(parts))
      ensures allocOk ==> ok
      ensures ok ==>
        var keys, pk := old(parts[..nKeyCol]), pPk.parts[..pPk.nKeyCol];
        && parts[..nColumn] == keys + Missing(keys, pk, |pk|)
        && (bAscKeyBug <==> old(bAscKeyBug) || DescMissing(keys, pk, |pk|))
      ensures !ok ==> parts[..nColumn] == old(parts[..nColumn]) && bAscKeyBug == old(bAscKeyBug)
    {
      var n := CountMissing(pPk);
      if n == 0 {
        nColumn := nKeyCol;
        NothingMissing(parts[..nKeyCol], pPk.parts[..pPk.nKeyCol], pPk.nKeyCol);
        return true;
      }
      ok := Resize(nKeyCol + n, allocOk);
      if ok { FillMissing(pPk, n); }
    }

    /** The columns so far are `head`; the sort flags of the rest are zero. */
    ghost predicate Filled(j: nat, head: seq<Part>)
      reads this`parts, this`nColumn, parts
    {
      && j <= nColumn <= parts.Length && parts[..j] == head
      && forall k :: j <= k < nColumn ==> parts[k].sort == 0
    }

    /** Column and collation of the next column; its sort flags stay zero. */
    method WriteNext(j: nat, col: int, coll: string, ghost head: seq<Part>)
      requires Filled(j, head) && j < nColumn
      modifies parts
      ensures Filled(j + 1, head + [Part(col, coll, 0)])
      ensures forall k :: 0 <= k < j ==> parts[k] == old(parts[k])
    {
      parts[j] := parts[j].(col := col, coll := coll);
    }

    method CountMissing(pPk: Index) returns (n: nat)
      requires Valid() && pPk.Valid()
      ensures n == |Missing(parts[..nKeyCol], pPk.parts[..pPk.nKeyCol], pPk.nKeyCol)|
    {
      n := 0;
      var i := 0;
      while i < pPk.nKeyCol
        invariant 0 <= i <= pPk.nKeyCol && n == |Missing(parts[..nKeyCol], pPk.parts[..pPk.nKeyCol], i)|
      {
        var dup := IsDupColumn(this, nKeyCol, pPk, i);
        if !dup { n := n + 1; }
        i := i + 1;
      }
    }

    method FillMissing(pPk: Index, n: nat)
      requires nKeyCol <= nColumn <= parts.Length && Filled(nKeyCol, parts[..nKeyCol])
      requires pPk.Valid() && pPk != this && pPk.parts != parts
      requires n == |Missing(parts[..nKeyCol], pPk.parts[..pPk.nKeyCol], pPk.nKeyCol)| && nColumn == nKeyCol + n
      modifies this`bAscKeyBug, parts
      ensures var keys, pk := old(parts[..nKeyCol]), pPk.parts[..pPk.nKeyCol];
              && parts[..nColumn] == keys + Missing(keys, pk, |pk|)
              && (bAscKeyBug <==> old(bAscKeyBug) || DescMissing(keys, pk, |pk|))
    {
      hide Has, Missing, DescMissing, Filled;
      ghost var keys, pk := parts[..nKeyCol], pPk.parts[..pPk.nKeyCol];
      var i, j := 0, nKeyCol;
      MissingNone(keys, pk);
      assert keys + [] == keys;
      while i < pPk.nKeyCol
        modifies this`bAscKeyBug, parts
        invariant 0 <= i <= pPk.nKeyCol && j == nKeyCol + |Missing(keys, pk, i)|
        invariant Filled(j, keys + Missing(keys, pk, i)) && parts[..nKeyCol] == keys
        invariant bAscKeyBug <==> old(bAscKeyBug) || DescMissing(keys, pk, i)
      {
        j := FillOne(pPk, i, j, keys, pk);
        i := i + 1;
      }
      FilledMeans(this, j, keys + Missing(keys, pk, i));
      assert parts[..nColumn] == parts[..j];
    }

    /** One column of the primary key, if the index lacks it. */
    method FillOne(pPk: Index, i: nat, j0: nat, ghost keys: seq<Part>, ghost pk: seq<Part>) returns (j: nat)
      requires pPk != this && pPk.parts != parts && i < pPk.nKeyCol == |pk| && pPk.nKeyCol <= pPk.parts.Length
      requires pPk.parts[i] == pk[i] && nKeyCol <= parts.Length && parts[..nKeyCol] == keys
      requires j0 == nKeyCol + |Missing(keys, pk, i)| && nColumn == nKeyCol + |Missing(keys, pk, |pk|)|
      requires Filled(j0, keys + Missing(keys, pk, i))
      modifies this`bAscKeyBug, parts
      ensures j == nKeyCol + |Missing(keys, pk, i + 1)|
      ensures Filled(j, keys + Missing(keys, pk, i + 1)) && parts[..nKeyCol] == keys
      ensures bAscKeyBug <==> old(bAscKeyBug) || (pk[i].sort != 0 && !Has(keys, pk[i]))
      ensures DescMissing(keys, pk, i + 1) <==> DescMissing(keys, pk, i) || (pk[i].sort != 0 && !Has(keys, pk[i]))
    {
      hide Has, Missing, DescMissing, Filled;
      j := j0;
      var dup := IsDupColumn(this, nKeyCol, pPk, i);
      MissingStep(keys, pk, i);
      if !dup {
        WriteNext(j, pPk.parts[i].col, pPk.parts[i].coll, keys + Missing(keys, pk, i));
        if pPk.parts[i].sort != 0 { bAscKeyBug := true; }
        j := j + 1;
      }
    }
  }

  lemma FilledMeans(x: Index, j: nat, head: seq<Part>)
    requires x.Filled(j, head)
    ensures j <= x.nColumn <= x.parts.Length && x.parts[..j] == head
  {
  }

  /** isDupColumn() */
  method IsDupColumn(pIdx: Index, nKey: nat, pPk: Index, iCol: nat) returns (dup: bool)
    requires nKey <= pIdx.parts.Length && iCol < pPk.parts.Length
    ensures dup <==> Has(pIdx.parts[..nKey], pPk.parts[iCol])
    ensures dup <==> Holds(pIdx.parts[..nKey], pPk.parts[iCol])
  {
    HasMeans(pIdx.parts[..nKey], pPk.parts[iCol]);
    hide Same, Holds;
    ghost var s := pIdx.parts[..nKey];
    var i := 0;
    while i < nKey
      invariant 0 <= i <= nKey && forall k :: 0 <= k < i ==> !Same(s[k], pPk.parts[iCol])
    {
      assert s[i] == pIdx.parts[i];
      if Same(pIdx.parts[i], pPk.parts[iCol]) { return true; }
      i := i + 1;
    }
    dup := false;
  }

  /** hasColumn() */
  method HasColumn(aiCol: array<Part>, nCol: nat, x: int) returns (has: bool)
    requires nCol <= aiCol.Length
    ensures has <==> HasCol(aiCol[..nCol], x)
  {
    ghost var s := aiCol[..nCol];
    var i := 0;
    while i < nCol
      invariant 0 <= i <= nCol && forall k :: 0 <= k < i ==> s[k].col != x
    {
      assert s[i] == aiCol[i];
      if aiCol[i].col == x { return true; }
      i := i + 1;
    }
    has := false;
  }

  lemma FirstsOne(s: seq<Part>)
    requires s != []
    ensures Firsts(s, 1) == [s[0]]
  {
    assert Firsts(s, 1) == Firsts(s, 0) + [s[0]];
  }

  lemma FirstsStep(s: seq<Part>, i: nat)
    requires i < |s|
    ensures Firsts(s, i + 1) == Firsts(s, i) + if Has(Firsts(s, i), s[i]) then [] else [s[i]]
  {
    FirstsMember(s, i, s[i]);
    FirstIffNew(s, i);
  }

  lemma NotYetListed(pk: seq<Part>, aCol: seq<Column>, i: nat)
    requires i < |aCol|
    ensures HasCol(pk + Others(pk, aCol, i), i) <==> HasCol(pk, i)
  {
    OthersAscend(pk, aCol, i);
    var o := Others(pk, aCol, i);
    if HasCol(pk, i) {
      var k :| 0 <= k < |pk| && pk[k].col == i;
      assert (pk + o)[k].col == i;
    }
  }

  lemma {:induction false} OthersBound(pk: seq<Part>, aCol: seq<Column>, i: nat)
    requires i <= |aCol|
    ensures |Others(pk, aCol, i)| <= |Others(pk, aCol, |aCol|)|
    decreases |aCol| - i
  {
    if i < |aCol| { OthersBound(pk, aCol, i + 1); }
  }

  lemma OthersNone(pk: seq<Part>, aCol: seq<Column>)
    ensures pk + Others(pk, aCol, 0) == pk
  {
  }

  lemma OthersStep(pk: seq<Part>, aCol: seq<Column>, i: nat)
    requires i < |aCol|
    ensures var o := Others(pk, aCol, i);
            && |Others(pk, aCol, i + 1)| <= |Others(pk, aCol, |aCol|)|
            && pk + Others(pk, aCol, i + 1)
            == if HasCol(pk + o, i) || aCol[i].virt then pk + o else pk + o + [PlainPart(aCol, i)]
  {
    NotYetListed(pk, aCol, i);
    OthersBound(pk, aCol, i + 1);
    assert Others(pk, aCol, i) + [] == Others(pk, aCol, i);
  }

  lemma {:induction false} MissingBound(keys: seq<Part>, pk: seq<Part>, i: nat)
    requires i <= |pk|
    ensures |Missing(keys, pk, i)| <= |Missing(keys, pk, |pk|)|
    decreases |pk| - i
  {
    if i < |pk| { MissingBound(keys, pk, i + 1); }
  }

  lemma MissingNone(keys: seq<Part>, pk: seq<Part>)
    ensures Missing(keys, pk, 0) == [] && !DescMissing(keys, pk, 0)
  {
  }

  /** Some primary-key column that the index lacks is in descending order. */
  ghost predicate DescMissing(keys: seq<Part>, pk: seq<Part>, n: nat)
    requires n <= |pk|
  {
    exists i :: 0 <= i < n && pk[i].sort != 0 && !Has(keys, pk[i])
  }

  lemma MissingStep(keys: seq<Part>, pk: seq<Part>, i: nat)
    requires i < |pk|
    ensures var m := Missing(keys, pk, i);
            && keys + Missing(keys, pk, i + 1)
            == (if Has(keys, pk[i]) then keys + m else keys + m + [pk[i].(sort := 0)])
            && |Missing(keys, pk, i + 1)| == |m| + if Has(keys, pk[i]) then 0 else 1
    ensures |Missing(keys, pk, i + 1)| <= |Missing(keys, pk, |pk|)|
    ensures DescMissing(keys, pk, i + 1) <==> DescMissing(keys, pk, i) || (pk[i].sort != 0 && !Has(keys, pk[i]))
  {
    MissingBound(keys, pk, i + 1);
    assert Missing(keys, pk, i) + [] == Missing(keys, pk, i);
    hide Has;
  }

  lemma {:induction false} NothingMissing(keys: seq<Part>, pk: seq<Part>, n: nat)
    requires n <= |pk| && |Missing(keys, pk, n)| == 0
    ensures forall i :: 0 <= i < n ==> Has(keys, pk[i])
  {
    hide Has;
    if n > 0 { NothingMissing(keys, pk, n - 1); }
  }

  // ---- the whole table ----

  class Table {
    var aCol: seq<Column>
    var pIndex: seq<Index>

    constructor (aCol: seq<Column>, pIndex: seq<Index>)
      ensures this.aCol == aCol && this.pIndex == pIndex
    {
      this.aCol, this.pIndex := aCol, pIndex;
    }

    /** The indexes and their buffers are different objects. */
    ghost predicate Apart()
      reads this, pIndex
    {
      forall i, j :: 0 <= i < j < |pIndex| ==> pIndex[i] != pIndex[j] && pIndex[i].parts != pIndex[j].parts
    }

    ghost function Buffers(): set<object>
      reads this, pIndex
    {
      set i | 0 <= i < |pIndex| :: pIndex[i].parts
    }

    /** Every secondary index before `n` ends with the primary-key columns it lacks, and those
        from `n` on still are indexes of a rowid table. */
    ghost predicate Converted(n: nat, keys: seq<seq<Part>>, pk: seq<Part>)
      reads this, pIndex, Buffers()
      requires |keys| == |pIndex|
    {
      forall i :: 0 <= i < |pIndex| && !pIndex[i].isPrimaryKey ==>
        if i < n then pIndex[i].IsConverted(keys[i], pk) else pIndex[i].IsNew(keys[i])
    }

    /** One secondary index. */
    method ConvertOne(pPk: Index, i: nat, ghost keys: seq<seq<Part>>, allocOk: bool) returns (ok: bool)
      requires Apart() && pPk in pIndex && |keys| == |pIndex| && i < |pIndex| && pIndex[i] != pPk
      requires pPk.Valid() && pPk.nColumn == pPk.nKeyCol && !pIndex[i].isPrimaryKey
      requires Converted(i, keys, pPk.parts[..pPk.nKeyCol])
      modifies pIndex[i], pIndex[i].parts
      ensures Apart() && (pIndex[i].parts == old(pIndex[i].parts) || fresh(pIndex[i].parts))
      ensures allocOk ==> ok
      ensures ok ==> Converted(i + 1, keys, pPk.parts[..pPk.nKeyCol])
    {
      ghost var pk := pPk.parts[..pPk.nKeyCol];
      ok := pIndex[i].AppendKey(pPk, allocOk);
      hide Missing, Index.IsConverted, Index.IsNew;
      assert ok ==> pIndex[i].IsConverted(keys[i], pk);
    }

    /** Every secondary index, in turn. */
    method ConvertSecondary(pPk: Index, ghost keys: seq<seq<Part>>, allocOk: bool) returns (ok: bool)
      requires Apart() && pPk in pIndex && |keys| == |pIndex|
      requires forall i :: 0 <= i < |pIndex| ==> (pIndex[i].isPrimaryKey <==> pIndex[i] == pPk)
      requires pPk.Valid() && pPk.nColumn == pPk.nKeyCol
      requires Converted(0, keys, pPk.parts[..pPk.nKeyCol])
      modifies pIndex, Buffers()
      ensures Apart() && pPk.Valid() && pPk.nKeyCol == old(pPk.nKeyCol) == pPk.nColumn && pPk.parts == old(pPk.parts)
      ensures pPk.parts[..] == old(pPk.parts[..])
      ensures allocOk ==> ok
      ensures ok ==> Converted(|pIndex|, keys, pPk.parts[..pPk.nKeyCol])
    {
      hide Missing, Index.IsConverted, Index.IsNew, Converted;
      ghost var pk := pPk.parts[..pPk.nKeyCol];
      ok := true;
      var i := 0;
      while i < |pIndex| && ok
        modifies pIndex, Buffers()
        invariant 0 <= i <= |pIndex| && (allocOk ==> ok)
        invariant Apart()
        invariant forall k :: 0 <= k < |pIndex| ==> pIndex[k].parts in old(Buffers()) || fresh(pIndex[k].parts)
        invariant pPk.Valid() && pPk.nKeyCol == old(pPk.nKeyCol) == pPk.nColumn && pPk.parts == old(pPk.parts)
        invariant pPk.parts[..] == old(pPk.parts[..])
        invariant ok ==> Converted(i, keys, pk)
      {
        if !pIndex[i].isPrimaryKey {
          ok := ConvertOne(pPk, i, keys, allocOk);
        } else {
          SkipKey(this, i, keys, pk);
        }
        i := i + 1;
      }
    }

    /** Primary-key columns become NOT NULL. */
    method MarkNotNull()
      modifies this`aCol
      ensures |aCol| == |old(aCol)|
      ensures forall i :: 0 <= i < |aCol| ==>
        aCol[i] == old(aCol)[i].(notNull := old(aCol)[i].notNull || old(aCol)[i].primKey)
    {
      var i := 0;
      while i < |aCol|
        modifies this`aCol
        invariant 0 <= i <= |aCol| == |old(aCol)|
        invariant forall k :: 0 <= k < i ==>
          aCol[k] == old(aCol)[k].(notNull := old(aCol)[k].notNull || old(aCol)[k].primKey)
        invariant forall k :: i <= k < |aCol| ==> aCol[k] == old(aCol)[k]
      {
        if aCol[i].primKey && !aCol[i].notNull { aCol := aCol[i := aCol[i].(notNull := true)]; }
        i := i + 1;
      }
    }

    /** The primary key first loses its repeated columns; the other indexes are not touched. */
    method NormalizeKey(pPk: Index, ghost keys: seq<seq<Part>>, ghost p: nat)
      requires Apart() && |keys| == |pIndex| && p < |pIndex| && pIndex[p] == pPk && keys[p] != []
      requires forall i :: 0 <= i < |pIndex| ==> (pIndex[i].isPrimaryKey <==> i == p) && pIndex[i].IsNew(keys[i])
      modifies pPk`nKeyCol, pPk`nColumn, pPk.parts
      ensures pPk.Valid() && pPk.nKeyCol == pPk.nColumn && pPk.parts[..pPk.nKeyCol] == Firsts(keys[p], |keys[p]|)
      ensures Converted(0, keys, pPk.parts[..pPk.nKeyCol])
    {
      pPk.RemoveRepeated();
      hide Missing, Firsts;
    }

    /** Last, the primary key is widened to cover the table. */
    method CoverKey(pPk: Index, ghost keys: seq<seq<Part>>, ghost pk: seq<Part>, allocOk: bool) returns (ok: bool)
      requires Apart() && |keys| == |pIndex| && pPk in pIndex && pPk.isPrimaryKey
      requires forall i :: 0 <= i < |pIndex| ==> (pIndex[i].isPrimaryKey <==> pIndex[i] == pPk)
      requires pPk.Valid() && pPk.nKeyCol == pPk.nColumn && pPk.parts[..pPk.nKeyCol] == pk
      requires Converted(|pIndex|, keys, pk)
      modifies pPk`nColumn, pPk`parts, pPk.parts
      ensures allocOk ==> ok
      ensures pPk.Valid() && pPk.nKeyCol == |pk|
      ensures ok ==> pPk.parts[..pPk.nColumn] == pk + Others(pk, aCol, |aCol|)
      ensures Converted(|pIndex|, keys, pk)
    {
      hide Missing, Others;
      ok := pPk.CoverTable(aCol, allocOk);
    }

    /** convertToWithoutRowidTable(), for a table that has its primary-key index `pPk`. */
    method Convert(pPk: Index, imposter: bool, ghost keys: seq<seq<Part>>, ghost p: nat, allocOk: bool)
      returns (ok: bool)
      requires Apart() && |keys| == |pIndex| && p < |pIndex| && pIndex[p] == pPk && keys[p] != []
      requires forall i :: 0 <= i < |pIndex| ==> (pIndex[i].isPrimaryKey <==> i == p) && pIndex[i].IsNew(keys[i])
      modifies this`aCol, pIndex, Buffers()
      ensures allocOk ==> ok
      ensures imposter ==> aCol == old(aCol)
      ensures !imposter ==> |aCol| == |old(aCol)| && forall i :: 0 <= i < |aCol| ==>
                aCol[i] == old(aCol)[i].(notNull := old(aCol)[i].notNull || old(aCol)[i].primKey)
      ensures ok ==>
        var pk := Firsts(keys[p], |keys[p]|);
        && pPk.nKeyCol == |pk| && pPk.nColumn <= pPk.parts.Length
        && pPk.parts[..pPk.nColumn] == pk + Others(pk, aCol, |aCol|)
        && Converted(|pIndex|, keys, pk)
      ensures ok ==>
        && pPk.nKeyCol <= pPk.parts.Length && KeptOnce(pPk.parts[..pPk.nKeyCol], keys[p])
        && (forall j :: 0 <= j < |pIndex| ==> HoldsKey(pIndex[j], keys[p]))
        && Covers(pPk, aCol)
    {
      if !imposter { MarkNotNull(); }
      NormalizeKey(pPk, keys, p);
      ghost var pk := pPk.parts[..pPk.nKeyCol];
      assert pk == Firsts(keys[p], |keys[p]|);
      hide Missing, Firsts, Others, Index.IsConverted, Index.IsNew, Converted;
      ok := ConvertSecondary(pPk, keys, allocOk);
      if !ok { return; }
      ok := CoverKey(pPk, keys, pk, allocOk);
      if ok {
        AllHoldKey(this, pPk, keys, p, pk);
        CoversAll(pPk, aCol, pk);
      }
    }
  }

  /** Every part given for the primary key is in the index, so it leads to the row. */
  ghost predicate HoldsKey(x: Index, given: seq<Part>)
    reads x, x.parts
  {
    x.nColumn <= x.parts.Length && forall i :: 0 <= i < |given| ==> Holds(x.parts[..x.nColumn], given[i])
  }

  /** Every stored column is in the index; the columns behind the key are stored columns that
      the key lacks, once each, in table order, under their own collation. */
  ghost predicate Covers(x: Index, aCol: seq<Column>)
    reads x, x.parts
  {
    && x.nKeyCol <= x.nColumn <= x.parts.Length
    && (forall c :: 0 <= c < |aCol| && !aCol[c].virt ==> HasCol(x.parts[..x.nColumn], c))
    && (forall k :: x.nKeyCol <= k < x.nColumn ==>
          IsPlain(x.parts[k], aCol) && !HasCol(x.parts[..x.nKeyCol], x.parts[k].col))
    && (forall k, l :: x.nKeyCol <= k < l < x.nColumn ==> x.parts[k].col < x.parts[l].col)
  }

  lemma CoversAll(x: Index, aCol: seq<Column>, pk: seq<Part>)
    requires x.nKeyCol == |pk| <= x.nColumn <= x.parts.Length
    requires x.parts[..x.nColumn] == pk + Others(pk, aCol, |aCol|)
    ensures Covers(x, aCol)
  {
    hide Others, HasCol, IsPlain;
    var o := Others(pk, aCol, |aCol|);
    assert x.parts[..x.nKeyCol] == x.parts[..x.nColumn][..|pk|] == pk;
    assert forall k :: x.nKeyCol <= k < x.nColumn ==> x.parts[k] == (pk + o)[k] == o[k - |pk|];
    OthersFields(pk, aCol, |aCol|);
    OthersAscend(pk, aCol, |aCol|);
    forall c | 0 <= c < |aCol| && !aCol[c].virt ensures HasCol(x.parts[..x.nColumn], c) {
      Covering(pk, aCol, c);
    }
    forall k | x.nKeyCol <= k < x.nColumn ensures !HasCol(x.parts[..x.nKeyCol], x.parts[k].col) {
      OtherIsNew(pk, aCol, k - |pk|);
    }
  }

  lemma OtherIsNew(pk: seq<Part>, aCol: seq<Column>, k: nat)
    requires k < |Others(pk, aCol, |aCol|)|
    ensures !HasCol(pk, Others(pk, aCol, |aCol|)[k].col)
  {
    var o := Others(pk, aCol, |aCol|);
    OthersAscend(pk, aCol, |aCol|);
    assert HasCol(o, o[k].col);
    OthersMember(pk, aCol, |aCol|, o[k].col);
  }

  lemma AllHoldKey(t: Table, pPk: Index, keys: seq<seq<Part>>, p: nat, pk: seq<Part>)
    requires |keys| == |t.pIndex| && p < |t.pIndex| && t.pIndex[p] == pPk && pk == Firsts(keys[p], |keys[p]|)
    requires forall i :: 0 <= i < |t.pIndex| ==> (t.pIndex[i].isPrimaryKey <==> i == p)
    requires pPk.nKeyCol == |pk| <= pPk.nColumn <= pPk.parts.Length
    requires pPk.parts[..pPk.nColumn] == pk + Others(pk, t.aCol, |t.aCol|)
    requires t.Converted(|t.pIndex|, keys, pk)
    ensures KeptOnce(pPk.parts[..pPk.nKeyCol], keys[p])
    ensures forall j :: 0 <= j < |t.pIndex| ==> HoldsKey(t.pIndex[j], keys[p])
  {
    hide Firsts, Missing, Others, Holds, KeptOnce;
    FirstsKeptOnce(keys[p]);
    assert pPk.parts[..pPk.nKeyCol] == pPk.parts[..pPk.nColumn][..|pk|] == pk;
    forall j | 0 <= j < |t.pIndex| ensures HoldsKey(t.pIndex[j], keys[p]) {
      forall i | 0 <= i < |keys[p]| ensures t.pIndex[j].nColumn <= t.pIndex[j].parts.Length
        && Holds(t.pIndex[j].parts[..t.pIndex[j].nColumn], keys[p][i])
      {
        if j == p {
          KeptHolds(pk, Others(pk, t.aCol, |t.aCol|), keys[p], i);
        } else {
          assert t.pIndex[j].IsConverted(keys[j], pk);
          SecondaryHolds(keys[j], keys[p], i);
        }
      }
      assert t.pIndex[j].nColumn <= t.pIndex[j].parts.Length;
    }
  }

  lemma KeptHolds(pk: seq<Part>, tail: seq<Part>, given: seq<Part>, i: nat)
    requires KeptOnce(pk, given) && i < |given|
    ensures Holds(pk + tail, given[i])
  {
    assert Holds(pk, given[i]);
    HasMeans(pk, given[i]);
    HasEither(pk, tail, given[i]);
    HasMeans(pk + tail, given[i]);
  }

  lemma SkipKey(t: Table, i: nat, keys: seq<seq<Part>>, pk: seq<Part>)
    requires |keys| == |t.pIndex| && i < |t.pIndex| && t.pIndex[i].isPrimaryKey && t.Converted(i, keys, pk)
    ensures t.Converted(i + 1, keys, pk)
  {
  }
}
