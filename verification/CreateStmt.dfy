// The CREATE TABLE statement written for CREATE TABLE ... AS SELECT, in a buffer whose size
// is computed beforehand.
module CreateStmt {
  import opened RenameText
  import Affinity

  datatype Column = Column(zCnName: string, affinity: Affinity.Aff)

  // ---- identifiers ----

  predicate IsAlnum(c: char)
  {
    'a' <= c <= 'z' || 'A' <= c <= 'Z' || '0' <= c <= '9'
  }

  predicate NeedQuote(zIdent: string, isKeyword: string -> bool)
  {
    || zIdent == [] || '0' <= zIdent[0] <= '9' || isKeyword(zIdent)
    || exists j :: 0 <= j < |zIdent| && !IsAlnum(zIdent[j]) && zIdent[j] != '_'
  }

  /** The identifier as it appears in the statement. */
  function Ident(zIdent: string, isKeyword: string -> bool): string
  {
    if NeedQuote(zIdent, isKeyword) then Quoted(zIdent, '"') else zIdent
  }

  /** Read as SQL, the identifier is the name again; if it is not quoted, it is no keyword. */
  lemma IdentReadsBack(zIdent: string, isKeyword: string -> bool)
    ensures Dequote(Ident(zIdent, isKeyword)) == zIdent
    ensures Ident(zIdent, isKeyword) == zIdent ==> zIdent != [] && !isKeyword(zIdent)
    ensures |Ident(zIdent, isKeyword)| <= |Quoted(zIdent, '"')|
  {
    QuoteRoundTrip(zIdent, '"');
    if !NeedQuote(zIdent, isKeyword) {
      assert IsAlnum(zIdent[0]) || zIdent[0] == '_';
    } else {
      assert |Quoted(zIdent, '"')| > |zIdent|;
    }
  }

  /** Quotes are left off exactly for words of letters, digits and underscores that do not
      start with a digit and are no keywords. */
  lemma QuotedIff(zIdent: string, isKeyword: string -> bool)
    ensures Ident(zIdent, isKeyword) == zIdent <==>
              && zIdent != [] && !('0' <= zIdent[0] <= '9') && !isKeyword(zIdent)
              && forall j :: 0 <= j < |zIdent| ==>
                   'a' <= zIdent[j] <= 'z' || 'A' <= zIdent[j] <= 'Z' || '0' <= zIdent[j] <= '9' || zIdent[j] == '_'
  {
    if NeedQuote(zIdent, isKeyword) { assert |Quoted(zIdent, '"')| > |zIdent|; }
  }

  /** An identifier that is not quoted is one word. */
  lemma IdentIsWord(zIdent: string, isKeyword: string -> bool)
    requires !NeedQuote(zIdent, isKeyword)
    ensures Ident(zIdent, isKeyword) == zIdent && forall i :: 0 <= i < |zIdent| ==> IsIdChar(zIdent[i])
  {
    forall i | 0 <= i < |zIdent| ensures IsIdChar(zIdent[i]) {
      assert IsAlnum(zIdent[i]) || zIdent[i] == '_';
    }
  }

  /** identLength(): exactly the length of the quoted identifier. */
  method IdentLength(z: string) returns (n: nat)
    ensures n == |Quoted(z, '"')|
  {
    n := 0;
    var i := 0;
    assert z[..0] == [];
    while i < |z|
      invariant 0 <= i <= |z| && n == |Double(z[..i], '"')|
    {
      DoubleStep(z, i);
      if z[i] == '"' { n := n + 1; }
      n := n + 1;
      i := i + 1;
    }
    assert z[..|z|] == z;
    n := n + 2;
  }

  lemma {:induction false} DoubleConcat(a: string, b: string, q: char)
    ensures Double(a + b, q) == Double(a, q) + Double(b, q)
  {
    hide Double;
    if a == [] {
      assert a + b == b;
      DoubleHead(a, q);
    } else {
      DoubleConcat(a[1..], b, q);
      assert (a + b)[1..] == a[1..] + b;
      DoubleHead(a, q);
      DoubleHead(a + b, q);
      var head := if a[0] == q then [q, q] else [a[0]];
      ConcatAssoc(head, Double(a[1..], q), Double(b, q));
    }
  }

  lemma ConcatAssoc(a: string, b: string, c: string)
    ensures a + b + c == a + (b + c)
  {
  }

  lemma DoubleHead(s: string, q: char)
    ensures Double(s, q) == if s == [] then [] else (if s[0] == q then [q, q] else [s[0]]) + Double(s[1..], q)
  {
  }

  lemma DoubleStep(z: string, i: nat)
    requires i < |z|
    ensures Double(z[..i + 1], '"') == Double(z[..i], '"') + if z[i] == '"' then ['"', '"'] else [z[i]]
  {
    assert z[..i + 1] == z[..i] + [z[i]];
    DoubleConcat(z[..i], [z[i]], '"');
    assert [z[i]][1..] == [];
    assert Double([z[i]], '"') == (if z[i] == '"' then ['"', '"'] else [z[i]]) + [];
  }

  /** identPut(): write the identifier at position i and end it with NUL. */
  method IdentPut(z: array<char>, i0: nat, zIdent: string, isKeyword: string -> bool) returns (i: nat)
    requires i0 + |Quoted(zIdent, '"')| < z.Length
    modifies z
    ensures i < z.Length && z[..i] == old(z[..i0]) + Ident(zIdent, isKeyword) && z[i] == '\0'
  {
    var j := 0;
    while j < |zIdent| && (IsAlnum(zIdent[j]) || zIdent[j] == '_')
      invariant 0 <= j <= |zIdent|
      invariant forall k :: 0 <= k < j ==> IsAlnum(zIdent[k]) || zIdent[k] == '_'
    {
      j := j + 1;
    }
    var needQuote := (zIdent != [] && '0' <= zIdent[0] <= '9') || isKeyword(zIdent[..j]) || j < |zIdent| || j == 0;
    assert zIdent[..|zIdent|] == zIdent;
    assert needQuote == NeedQuote(zIdent, isKeyword);
    i := i0;
    if needQuote { i := PutChar(z, i, '"'); }
    i := PutBody(z, i, zIdent, needQuote);
    if needQuote { i := PutChar(z, i, '"'); }
    z[i] := '\0';
  }

  method PutChar(z: array<char>, i0: nat, c: char) returns (i: nat)
    requires i0 < z.Length
    modifies z
    ensures i == i0 + 1 && z[..i] == old(z[..i0]) + [c]
  {
    z[i0] := c;
    i := i0 + 1;
  }

  /** One character behind `head`, doubled if it is a quote. */
  method PutDoubled(z: array<char>, i0: nat, c: char, ghost head: string) returns (i: nat)
    requires i0 + (if c == '"' then 2 else 1) < z.Length && z[..i0] == head
    modifies z
    ensures i == i0 + (if c == '"' then 2 else 1)
    ensures z[..i] == head + if c == '"' then ['"', '"'] else [c]
  {
    i := PutChar(z, i0, c);
    if c == '"' { i := PutChar(z, i, '"'); }
  }

  /** The characters of the identifier, quotes doubled; there are none if it is not quoted. */
  method PutBody(z: array<char>, i0: nat, zIdent: string, needQuote: bool) returns (i: nat)
    requires i0 + |Double(zIdent, '"')| < z.Length
    requires needQuote || forall k :: 0 <= k < |zIdent| ==> zIdent[k] != '"'
    modifies z
    ensures i == i0 + |Double(zIdent, '"')| && z[..i] == old(z[..i0]) + Double(zIdent, '"')
    ensures !needQuote ==> Double(zIdent, '"') == zIdent
  {
    i := i0;
    var j := 0;
    assert zIdent[..0] == [];
    if !needQuote { DoubleNone(zIdent); }
    while j < |zIdent|
      modifies z
      invariant 0 <= j <= |zIdent| && i == i0 + |Double(zIdent[..j], '"')|
      invariant i < z.Length && z[..i] == old(z[..i0]) + Double(zIdent[..j], '"')
    {
      hide Double;
      DoubleStep(zIdent, j);
      DoubleBound(zIdent, j + 1);
      i := PutDoubled(z, i, zIdent[j], old(z[..i0]) + Double(zIdent[..j], '"'));
      j := j + 1;
    }
    assert zIdent[..|zIdent|] == zIdent;
  }

  lemma {:induction false} DoubleNone(s: string)
    requires forall k :: 0 <= k < |s| ==> s[k] != '"'
    ensures Double(s, '"') == s
  {
    if s != [] { DoubleNone(s[1..]); }
  }

  lemma DoubleBound(s: string, j: nat)
    requires j <= |s|
    ensures |Double(s[..j], '"')| <= |Double(s, '"')|
  {
    assert s == s[..j] + s[j..];
    DoubleConcat(s[..j], s[j..], '"');
  }

  // ---- the statement ----

  /** azType[] */
  function TypeName(aff: Affinity.Aff): (s: string)
    ensures |s| <= 5
  {
    match aff
    case Blob => ""
    case Text => " TEXT"
    case Numeric => " NUM"
    case Integer => " INT"
    case Real => " REAL"
  }

  /** The type written for a column has the column's affinity again, unless it is empty. */
  lemma TypeNameKeepsAffinity(aff: Affinity.Aff)
    requires aff != Affinity.Blob
    ensures Affinity.Rules(Affinity.Codes(TypeName(aff))) == aff
  {
    match aff
    case Text => TextName();
    case Numeric => NumName();
    case Integer =>
      assert Affinity.Codes(" INT") == [32, 73, 78, 84];
      assert Affinity.EndsAt([32, 73, 78, 84], 4, Affinity.INT);
    case Real => RealName();
  }

  lemma TextName()
    ensures Affinity.Rules(Affinity.Codes(" TEXT")) == Affinity.Text
  {
    var s := Affinity.Codes(" TEXT");
    assert s == [32, 84, 69, 88, 84];
    assert Affinity.EndsAt(s, 5, Affinity.TEXT);
    Affinity.MissingLetter(s, Affinity.INT, 0);
  }

  lemma NumName()
    ensures Affinity.Rules(Affinity.Codes(" NUM")) == Affinity.Numeric
  {
    var s := Affinity.Codes(" NUM");
    assert s == [32, 78, 85, 77];
    Affinity.MissingLetter(s, Affinity.INT, 0);
    Affinity.MissingLetter(s, Affinity.CHAR, 0);
    Affinity.MissingLetter(s, Affinity.CLOB, 0);
    Affinity.MissingLetter(s, Affinity.TEXT, 0);
    Affinity.MissingLetter(s, Affinity.BLOB, 0);
    Affinity.MissingLetter(s, Affinity.REAL, 0);
    Affinity.MissingLetter(s, Affinity.FLOA, 0);
    Affinity.MissingLetter(s, Affinity.DOUB, 0);
  }

  lemma RealName()
    ensures Affinity.Rules(Affinity.Codes(" REAL")) == Affinity.Real
  {
    var s := Affinity.Codes(" REAL");
    assert s == [32, 82, 69, 65, 76];
    Affinity.MissingLetter(s, Affinity.INT, 0);
    Affinity.MissingLetter(s, Affinity.CHAR, 0);
    Affinity.MissingLetter(s, Affinity.CLOB, 0);
    Affinity.MissingLetter(s, Affinity.TEXT, 0);
    Affinity.MissingLetter(s, Affinity.BLOB, 0);
    assert Affinity.EndsAt(s, 5, Affinity.REAL);
  }

  /** The columns before the i-th as written, each after its separator. */
  function ColumnList(cols: seq<Column>, i: nat, zSep: string, zSep2: string, isKeyword: string -> bool): string
    requires i <= |cols|
  {
    if i == 0 then []
    else
      ColumnList(cols, i - 1, zSep, zSep2, isKeyword) + ((if i == 1 then zSep else zSep2)
         + Ident(cols[i - 1].zCnName, isKeyword) + TypeName(cols[i - 1].affinity))
  }

  /** Characters reserved for the first i columns. */
  function Width(cols: seq<Column>, i: nat): nat
    requires i <= |cols|
  {
    if i == 0 then 0 else Width(cols, i - 1) + |Quoted(cols[i - 1].zCnName, '"')| + 5
  }

  function Head(zName: string, isKeyword: string -> bool): string
  {
    "CREATE TABLE " + Ident(zName, isKeyword) + "("
  }

  /** The whole statement; a short one fits on one line. */
  function Statement(zName: string, cols: seq<Column>, isKeyword: string -> bool): string
  {
    var short := Width(cols, |cols|) + |Quoted(zName, '"')| < 50;
    Head(zName, isKeyword)
    + ColumnList(cols, |cols|, if short then "" else "\n  ", if short then "," else ",\n  ", isKeyword)
    + (if short then ")" else "\n)")
  }

  /** The text and its NUL fit in the buffer of the computed size. */
  lemma {:induction false} ColumnsFit(cols: seq<Column>, i: nat, zSep: string, zSep2: string, isKeyword: string -> bool)
    requires i <= |cols| && |zSep| <= 3 && |zSep2| <= 4
    ensures |ColumnList(cols, i, zSep, zSep2, isKeyword)| <= Width(cols, i) + 4 * i
    ensures Width(cols, i) + 6 * i <= Width(cols, |cols|) + 6 * |cols|
  {
    hide Quoted, Ident, TypeName;
    if i > 0 {
      ColumnsFit(cols, i - 1, zSep, zSep2, isKeyword);
      IdentReadsBack(cols[i - 1].zCnName, isKeyword);
    }
    WidthGrows(cols, i);
  }

  lemma {:induction false} WidthGrows(cols: seq<Column>, i: nat)
    requires i <= |cols|
    ensures Width(cols, i) <= Width(cols, |cols|)
    ensures i < |cols| ==> Width(cols, i) + |Quoted(cols[i].zCnName, '"')| + 5 <= Width(cols, |cols|)
    decreases |cols| - i
  {
    if i < |cols| { WidthGrows(cols, i + 1); }
  }

  method ColumnsLength(cols: seq<Column>) returns (n: nat)
    ensures n == Width(cols, |cols|)
  {
    n := 0;
    var i := 0;
    while i < |cols|
      invariant 0 <= i <= |cols| && n == Width(cols, i)
    {
      var len := IdentLength(cols[i].zCnName);
      n := n + len + 5;
      i := i + 1;
    }
  }

  /** createTableStmt(): the buffer always is large enough. */
  method CreateTableStmt(zName: string, cols: seq<Column>, isKeyword: string -> bool)
    returns (zStmt: array<char>, k: nat)
    ensures fresh(zStmt) && k < zStmt.Length == Width(cols, |cols|) + |Quoted(zName, '"')| + 35 + 6 * |cols|
    ensures zStmt[..k] == Statement(zName, cols, isKeyword) && zStmt[k] == '\0'
  {
    var n := ColumnsLength(cols);
    var len := IdentLength(zName);
    hide Quoted, Ident, Width, ColumnList, Head;
    n := n + len;
    var short := n < 50;
    var zSep := if short then "" else "\n  ";
    var zSep2 := if short then "," else ",\n  ";
    var zEnd := if short then ")" else "\n)";
    n := n + 35 + 6 * |cols|;
    zStmt := new char[n](_ => '\0');
    k := PutHead(zStmt, zName, isKeyword);
    k := PutColumns(zStmt, k, cols, zSep, zSep2, isKeyword);
    k := PutText(zStmt, k, zEnd);
    zStmt[k] := '\0';
  }

  method PutHead(zStmt: array<char>, zName: string, isKeyword: string -> bool) returns (k: nat)
    requires 14 + |Quoted(zName, '"')| < zStmt.Length
    modifies zStmt
    ensures k <= 14 + |Quoted(zName, '"')| && zStmt[..k] == Head(zName, isKeyword)
  {
    hide Quoted, Ident;
    IdentReadsBack(zName, isKeyword);
    k := PutText(zStmt, 0, "CREATE TABLE ");
    k := IdentPut(zStmt, k, zName, isKeyword);
    k := PutText(zStmt, k, "(");
  }

  /** memcpy() of a constant text. */
  method PutText(z: array<char>, k0: nat, text: string) returns (k: nat)
    requires k0 + |text| <= z.Length
    modifies z
    ensures k == k0 + |text| && z[..k] == old(z[..k0]) + text
  {
    forall i | 0 <= i < |text| { z[k0 + i] := text[i]; }
    k := k0 + |text|;
  }

  method PutColumns(z: array<char>, k0: nat, cols: seq<Column>, zSep0: string, zSep2: string, isKeyword: string -> bool)
      returns (k: nat)
    requires |zSep0| <= 3 && |zSep2| <= 4 && k0 + Width(cols, |cols|) + 6 * |cols| < z.Length
    modifies z
    ensures k == k0 + |ColumnList(cols, |cols|, zSep0, zSep2, isKeyword)|
    ensures k <= k0 + Width(cols, |cols|) + 4 * |cols|
    ensures z[..k] == old(z[..k0]) + ColumnList(cols, |cols|, zSep0, zSep2, isKeyword)
  {
    hide Quoted, Ident, TypeName, Double, ColumnList, Width;
    ColumnNone(cols, zSep0, zSep2, isKeyword);
    var zSep := zSep0;
    var i := 0;
    k := k0;
    while i < |cols|
      modifies z
      invariant 0 <= i <= |cols| && zSep == if i == 0 then zSep0 else zSep2
      invariant k == k0 + |ColumnList(cols, i, zSep0, zSep2, isKeyword)| && k <= z.Length
      invariant z[..k] == old(z[..k0]) + ColumnList(cols, i, zSep0, zSep2, isKeyword)
    {
      ColumnsFit(cols, i, zSep0, zSep2, isKeyword);
      WidthGrows(cols, i);
      ColumnStep(cols, i, zSep0, zSep2, isKeyword);
      k := PutColumn(z, k, cols[i], zSep, isKeyword);
      zSep := zSep2;
      i := i + 1;
    }
    ColumnsFit(cols, |cols|, zSep0, zSep2, isKeyword);
  }

  lemma ColumnNone(cols: seq<Column>, zSep: string, zSep2: string, isKeyword: string -> bool)
    ensures ColumnList(cols, 0, zSep, zSep2, isKeyword) == []
  {
  }

  lemma ColumnStep(cols: seq<Column>, i: nat, zSep: string, zSep2: string, isKeyword: string -> bool)
    requires i < |cols|
    ensures ColumnList(cols, i + 1, zSep, zSep2, isKeyword)
         == ColumnList(cols, i, zSep, zSep2, isKeyword)
            + ((if i == 0 then zSep else zSep2) + Ident(cols[i].zCnName, isKeyword) + TypeName(cols[i].affinity))
  {
  }

  method PutColumn(z: array<char>, k0: nat, pCol: Column, zSep: string, isKeyword: string -> bool) returns (k: nat)
    requires k0 + |zSep| + |Quoted(pCol.zCnName, '"')| + 5 < z.Length
    modifies z
    ensures k == k0 + |zSep + Ident(pCol.zCnName, isKeyword) + TypeName(pCol.affinity)| && k <= z.Length
    ensures z[..k] == old(z[..k0]) + (zSep + Ident(pCol.zCnName, isKeyword) + TypeName(pCol.affinity))
  {
    hide Quoted, Ident;
    IdentReadsBack(pCol.zCnName, isKeyword);
    k := PutText(z, k0, zSep);
    k := IdentPut(z, k, pCol.zCnName, isKeyword);
    k := PutText(z, k, TypeName(pCol.affinity));
  }
}
