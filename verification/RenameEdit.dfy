// Editing the text of an SQL statement in place, from the rightmost token to the leftmost.
module RenameEdit {
  import opened RenameText
  import opened Arith

  /** The list with one token unlinked. */
  function Without(s: seq<Token>, i: nat): (r: seq<Token>)
    requires i < |s|
    ensures |r| == |s| - 1
  {
    s[..i] + s[i + 1..]
  }

  /** The text with the n characters at iOff replaced. */
  function Spliced(out: string, iOff: nat, n: nat, rep: string): string
    requires iOff + n <= |out|
  {
    out[..iOff] + rep + out[iOff + n..]
  }

  class Parse {
    var pRename: seq<Token>

    constructor (toks: seq<Token>)
      ensures pRename == toks
    {
      pRename := toks;
    }
  }

  class RenameCtx {
    var pList: seq<Token>
    var nList: nat

    constructor ()
      ensures Valid() && pList == []
    {
      pList, nList := [], 0;
    }

    ghost predicate Valid()
      reads this
    {
      nList == |pList|
    }

    /** renameTokenFind(), with a context: the token of the parse-tree element moves from the
        parser's list to the front of this one. */
    method TokenFind(pParse: Parse, pPtr: int) returns (found: Option<Token>)
      requires Valid()
      modifies this, pParse
      ensures Valid()
      ensures multiset(pList) + multiset(pParse.pRename) == multiset(old(pList)) + multiset(old(pParse.pRename))
      ensures found.None? ==> pList == old(pList) && pParse.pRename == old(pParse.pRename)
      ensures found.None? <==> forall t :: t in old(pParse.pRename) ==> t.p != pPtr
      ensures found.Some? ==> found.value.p == pPtr && pList == [found.value] + old(pList)
    {
      var i := 0;
      while i < |pParse.pRename| && pParse.pRename[i].p != pPtr
        modifies {}
        invariant i <= |pParse.pRename|
        invariant forall j :: 0 <= j < i ==> pParse.pRename[j].p != pPtr
      {
        i := i + 1;
      }
      if i == |pParse.pRename| { return None; }
      var pToken := pParse.pRename[i];
      Unlinked(pParse.pRename, i);
      pParse.pRename := Without(pParse.pRename, i);
      pList := [pToken] + pList;
      nList := nList + 1;
      found := Some(pToken);
    }

    /** renameColumnTokenNext(): unlink the token that comes last in the statement. */
    method ColumnTokenNext() returns (pBest: Token)
      requires pList != []
      modifies this`pList
      ensures exists b :: 0 <= b < |old(pList)| && pBest == old(pList)[b]
                && pList == Without(old(pList), b)
      ensures forall t :: t in old(pList) ==> t.z <= pBest.z
    {
      pBest := pList[0];
      var i := 1;
      while i < |pList|
        modifies {}
        invariant 1 <= i <= |pList| && pBest in pList
        invariant forall j :: 0 <= j < i ==> pList[j].z <= pBest.z
      {
        if pList[i].z > pBest.z { pBest := pList[i]; }
        i := i + 1;
      }
      var b := 0;
      while pList[b] != pBest
        modifies {}
        invariant b < |pList| && pBest in pList[b..]
        decreases |pList| - b
      {
        b := b + 1;
      }
      pList := Without(pList, b);
    }
  }

  lemma Unlinked(s: seq<Token>, i: nat)
    requires i < |s|
    ensures multiset(s) == multiset{s[i]} + multiset(Without(s, i))
  {
    assert s == s[..i] + [s[i]] + s[i + 1..];
  }

  /** Move the text behind a token (memmove) and write its replacement (memcpy). */
  method Splice(zOut: array<char>, nOut0: nat, iOff: nat, n: nat, zReplace: string) returns (nOut: nat)
    requires iOff + n <= nOut0 < zOut.Length && nOut0 - n + |zReplace| < zOut.Length
    requires zOut[nOut0] == '\0'
    modifies zOut
    ensures nOut == nOut0 - n + |zReplace| && zOut[nOut] == '\0'
    ensures zOut[..nOut] == Spliced(old(zOut[..nOut0]), iOff, n, zReplace)
  {
    var nReplace := |zReplace|;
    nOut := nOut0;
    if n != nReplace {
      forall k | 0 <= k < nOut0 - (iOff + n) { zOut[iOff + nReplace + k] := zOut[iOff + n + k]; }
      nOut := nOut0 + nReplace - n;
      zOut[nOut] := '\0';
    }
    forall k | 0 <= k < nReplace { zOut[iOff + k] := zReplace[k]; }
  }

  // ---- one step of the edit ----

  /** Everything from `cut` on is rewritten, nothing before it, and the tokens left are the
      ones before it. */
  ghost predicate Edited(mode: Mode, sql: string, toks: seq<Token>, left: seq<Token>, cut: nat, out: string)
  {
    && WellPlaced(toks, |sql|) && WellPlaced(left, |sql|) && cut <= |sql|
    && (forall t :: t in left ==> t in toks && t.z + t.n <= cut)
    && (forall t :: t in toks ==> t in left || t.z >= cut)
    && out == sql[..cut] + Subst(mode, sql, toks, cut)
  }

  lemma EditStart(mode: Mode, sql: string, toks: seq<Token>)
    requires WellPlaced(toks, |sql|)
    ensures Edited(mode, sql, toks, toks, |sql|, sql)
  {
    assert sql[..|sql|] == sql;
  }

  lemma EditStep(mode: Mode, sql: string, toks: seq<Token>, left: seq<Token>, b: nat, cut: nat, out: string)
    requires Edited(mode, sql, toks, left, cut, out) && b < |left|
    requires forall t :: t in left ==> t.z <= left[b].z
    ensures left[b].z + left[b].n <= cut <= |out| && cut <= |sql| && left[b].n > 0
    ensures Edited(mode, sql, toks, Without(left, b), left[b].z,
                   Spliced(out, left[b].z, left[b].n, Replacement(mode, sql, left[b])))
  {
    var t := left[b];
    assert t in left;
    LeftAfter(toks, left, |sql|, b, cut);
    assert t.n > 0 && cut <= |sql| && |sql[..cut]| == cut;
    RewriteStep(mode, sql, toks, t, cut, out);
    hide WellPlaced, Replacement, Subst, Without, Spliced;
  }

  lemma RewriteStep(mode: Mode, sql: string, toks: seq<Token>, t: Token, cut: nat, out: string)
    requires WellPlaced(toks, |sql|) && t in toks && t.z + t.n <= cut <= |sql| && t.n > 0
    requires forall u :: u in toks ==> u.z <= t.z || u.z >= cut
    requires out == sql[..cut] + Subst(mode, sql, toks, cut)
    ensures Spliced(out, t.z, t.n, Replacement(mode, sql, t)) == sql[..t.z] + Subst(mode, sql, toks, t.z)
  {
    hide WellPlaced, Replacement, Subst;
    LastToken(mode, sql, toks, t, cut);
    Rejoin(sql, t.z, t.n, cut, Subst(mode, sql, toks, cut), Replacement(mode, sql, t));
  }

  lemma Rejoin(sql: string, z: nat, n: nat, cut: nat, rest: string, rep: string)
    requires z + n <= cut <= |sql|
    ensures Spliced(sql[..cut] + rest, z, n, rep) == sql[..z] + (rep + sql[z + n..cut] + rest)
  {
    var out := sql[..cut] + rest;
    assert out[..z] == sql[..z];
    assert out[z + n..] == sql[z + n..cut] + rest;
  }

  lemma LeftAfter(toks: seq<Token>, left: seq<Token>, nSql: nat, b: nat, cut: nat)
    requires WellPlaced(left, nSql) && b < |left|
    requires forall t :: t in left ==> t.z <= left[b].z
    requires forall t :: t in toks ==> t in left || t.z >= cut
    requires left[b].z + left[b].n <= cut
    ensures var left' := Without(left, b);
            && WellPlaced(left', nSql) && (forall t :: t in left' ==> t in left && t.z + t.n <= left[b].z)
            && (forall t :: t in toks ==> t in left' || t.z >= left[b].z)
  {
    var left' := Without(left, b);
    forall i | 0 <= i < |left'| ensures left'[i] in left && left'[i].z + left'[i].n <= left[b].z {
      var j := if i < b then i else i + 1;
      assert left'[i] == left[j] && left[j] in left;
    }
    hide WellPlaced;
    forall u | u in toks ensures u in left' || u.z >= left[b].z {
      if u in left { StillLeft(left, b, u); }
    }
  }

  lemma StillLeft(left: seq<Token>, b: nat, u: Token)
    requires b < |left| && u in left
    ensures u in Without(left, b) || u == left[b]
  {
    var left' := Without(left, b);
    var i :| 0 <= i < |left| && left[i] == u;
    if i < b { assert left'[i] == u; } else if i > b { assert left'[i - 1] == u; }
  }

  lemma EditEnd(mode: Mode, sql: string, toks: seq<Token>, cut: nat, out: string)
    requires Edited(mode, sql, toks, [], cut, out)
    ensures out == Subst(mode, sql, toks, 0)
  {
    PlainRun(mode, sql, toks, 0, cut);
  }

  // ---- the buffer ----

  /** Characters the buffer must still have to spare while tokens before `cut` are left. */
  function Spare(mode: Mode, nLeft: nat, cut: nat): nat
  {
    match mode
    case Rename(zNew, _) => Times(nLeft, |Quoted(zNew, '"')|)
    case Requote => cut
  }

  /** renameEditSql(): the edited statement is the one with every token replaced at once,
      and it fits in the buffer allocated for it. */
  method EditSql(pRename: RenameCtx, sql: string, mode: Mode) returns (zOut: array<char>, nOut: nat)
    requires pRename.Valid() && sql != [] && WellPlaced(pRename.pList, |sql|)
    requires mode.Requote? ==> forall t :: t in pRename.pList ==> IsDoubleQuoted(sql[t.z..t.z + t.n])
    modifies pRename
    ensures pRename.pList == [] && fresh(zOut)
    ensures nOut < zOut.Length && zOut[..nOut] == Subst(mode, sql, old(pRename.pList), 0) && zOut[nOut] == '\0'
    ensures zOut.Length == |sql| + Spare(mode, old(pRename.nList), |sql|) + 1
  {
    ghost var toks := pRename.pList;
    var nSql := |sql|;
    var zQuot := if mode.Rename? then Quoted(mode.zNew, '"') + " " else "";
    zOut := new char[nSql + Spare(mode, pRename.nList, nSql) + 1](_ => '\0');
    forall k | 0 <= k < nSql { zOut[k] := sql[k]; }
    nOut := nSql;
    ghost var cut: nat := nSql;
    assert zOut[..nOut] == sql;
    EditStart(mode, sql, toks);
    hide WellPlaced, Replacement, Subst, Spare, Edited;
    while pRename.pList != []
      modifies pRename`pList, zOut
      invariant nOut + Spare(mode, |pRename.pList|, cut) < zOut.Length && zOut[nOut] == '\0'
      invariant Edited(mode, sql, toks, pRename.pList, cut, zOut[..nOut])
      decreases |pRename.pList|
    {
      nOut, cut := ReplaceLast(pRename, sql, mode, zQuot, zOut, nOut, toks, cut);
    }
    EditEnd(mode, sql, toks, cut, zOut[..nOut]);
  }

  /** One pass of the loop in renameEditSql(). */
  method ReplaceLast(pRename: RenameCtx, sql: string, mode: Mode, zQuot: string, zOut: array<char>, nOut0: nat,
                     ghost toks: seq<Token>, ghost cut0: nat)
      returns (nOut: nat, ghost cut: nat)
    requires pRename.pList != [] && (mode.Rename? ==> zQuot == Quoted(mode.zNew, '"') + " ")
    requires mode.Requote? ==> forall t :: t in toks && t.z + t.n <= |sql| ==> IsDoubleQuoted(sql[t.z..t.z + t.n])
    requires nOut0 + Spare(mode, |pRename.pList|, cut0) < zOut.Length && zOut[nOut0] == '\0'
    requires Edited(mode, sql, toks, pRename.pList, cut0, zOut[..nOut0])
    modifies pRename`pList, zOut
    ensures |pRename.pList| < |old(pRename.pList)|
    ensures nOut + Spare(mode, |pRename.pList|, cut) < zOut.Length && zOut[nOut] == '\0'
    ensures Edited(mode, sql, toks, pRename.pList, cut, zOut[..nOut])
  {
    hide WellPlaced, Replacement, Subst, Spare, Edited, Spliced, Without, Quoted, IsDoubleQuoted;
    ghost var left, out := pRename.pList, zOut[..nOut0];
    LeftIn(mode, sql, toks, left, cut0, out);
    var pBest := pRename.ColumnTokenNext();
    ghost var b :| 0 <= b < |left| && pBest == left[b] && pRename.pList == Without(left, b);
    assert pBest in left && |Without(left, b)| == |left| - 1;
    EditStep(mode, sql, toks, left, b, cut0, out);
    cut := pBest.z;
    var zReplace := ChooseReplacement(mode, sql, pBest, zQuot);
    SpareStep(mode, sql, pBest, |left|, cut0);
    nOut := Splice(zOut, nOut0, pBest.z, pBest.n, zReplace);
  }

  lemma LeftIn(mode: Mode, sql: string, toks: seq<Token>, left: seq<Token>, cut: nat, out: string)
    requires Edited(mode, sql, toks, left, cut, out)
    ensures forall t :: t in left ==> t in toks && t.z + t.n <= |sql| && t.n > 0
  {
  }

  lemma SpareStep(mode: Mode, sql: string, t: Token, nLeft: nat, cut: nat)
    requires t.z + t.n <= cut <= |sql| && t.n > 0 && nLeft > 0
    requires mode.Requote? ==> IsDoubleQuoted(sql[t.z..t.z + t.n])
    ensures |Replacement(mode, sql, t)| + Spare(mode, nLeft - 1, t.z) <= t.n + Spare(mode, nLeft, cut)
  {
    ReplacementLength(mode, sql, t);
    if mode.Rename? { TimesStep(nLeft, |Quoted(mode.zNew, '"')|); }
  }

  /** What sqlite3_snprintf() leaves in a buffer of n characters. */
  function Snprintf(n: nat, text: string): (r: string)
    requires n > 0
    ensures |r| < n && (|text| < n ==> r == text) && r <= text
  {
    if |text| < n then text else text[..n - 1]
  }

  /** The text that replaces the token, taken from the new name or its quoted copy, which
      ends in a spare space, or built from the old token. */
  method ChooseReplacement(mode: Mode, sql: string, pBest: Token, zQuot: string) returns (zReplace: string)
    requires pBest.z + pBest.n <= |sql| && pBest.n > 0
    requires mode.Rename? ==> zQuot == Quoted(mode.zNew, '"') + " "
    requires mode.Requote? ==> IsDoubleQuoted(sql[pBest.z..pBest.z + pBest.n])
    ensures zReplace == Replacement(mode, sql, pBest)
  {
    match mode
    case Rename(zNew, bQuote) =>
      if !bQuote && IsIdChar(sql[pBest.z]) {
        zReplace := zNew;
      } else {
        var nReplace := |zQuot| - 1;
        if Following(sql, pBest) == '"' { nReplace := nReplace + 1; }
        zReplace := zQuot[..nReplace];
      }
    case Requote =>
      var zBuf1 := Dequote(sql[pBest.z..pBest.z + pBest.n]);
      var zBuf2 := Quoted(zBuf1, '\'') + (if Following(sql, pBest) == '\'' then " " else "");
      ReplacementLength(mode, sql, pBest);
      zReplace := Snprintf(2 * |sql|, zBuf2);
  }
}
