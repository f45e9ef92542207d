// Reading the written CREATE TABLE statement back.
module CreateRead {
  import opened Arith
  import opened RenameText
  import opened CreateStmt

  /** A column as the reader sees it: its name and the text of its type. */
  datatype Read = Read(name: string, typ: string)

  // ---- words ----

  predicate IsWordChar(c: char) { IsAlnum(c) || c == '_' }

  /** A quoted text up to its closing quote, and what follows. */
  function ReadQuoted(s: string): (r: (string, string))
    ensures |r.1| <= |s|
  {
    if s == [] then ([], [])
    else if s[0] != '"' then
      var (x, rest) := ReadQuoted(s[1..]);
      ([s[0]] + x, rest)
    else if |s| > 1 && s[1] == '"' then
      var (x, rest) := ReadQuoted(s[2..]);
      (['"'] + x, rest)
    else ([], s[1..])
  }

  function ReadPlain(s: string): (r: (string, string))
    ensures |r.1| <= |s|
  {
    if s == [] || !IsWordChar(s[0]) then ([], s)
    else
      var (x, rest) := ReadPlain(s[1..]);
      ([s[0]] + x, rest)
  }

  function ReadIdent(s: string): (r: (string, string))
    ensures |r.1| <= |s|
  {
    if s != [] && s[0] == '"' then ReadQuoted(s[1..]) else ReadPlain(s)
  }

  /** Nothing here can be taken for more of an identifier. */
  predicate EndsIdent(rest: string)
  {
    rest == [] || (!IsWordChar(rest[0]) && rest[0] != '"')
  }

  lemma {:induction false} QuotedIsRead(x: string, rest: string)
    requires EndsIdent(rest)
    ensures ReadQuoted(Double(x, '"') + ['"'] + rest) == (x, rest)
  {
    var d := Double(x, '"') + ['"'] + rest;
    if x == [] {
      assert d == ['"'] + rest && d[1..] == rest;
    } else {
      QuotedIsRead(x[1..], rest);
      var tail := Double(x[1..], '"') + ['"'] + rest;
      if x[0] == '"' {
        assert d == ['"', '"'] + tail && d[2..] == tail;
      } else {
        assert d == [x[0]] + tail && d[1..] == tail;
      }
      assert x == [x[0]] + x[1..];
    }
  }

  lemma {:induction false} PlainIsRead(x: string, rest: string)
    requires EndsIdent(rest) && forall i :: 0 <= i < |x| ==> IsWordChar(x[i])
    ensures ReadPlain(x + rest) == (x, rest)
  {
    if x == [] {
      assert x + rest == rest;
    } else {
      PlainIsRead(x[1..], rest);
      assert (x + rest)[1..] == x[1..] + rest && x == [x[0]] + x[1..];
    }
  }

  lemma IdentIsRead(x: string, isKeyword: string -> bool, rest: string)
    requires EndsIdent(rest)
    ensures ReadIdent(Ident(x, isKeyword) + rest) == (x, rest) && Ident(x, isKeyword) != []
  {
    hide NeedQuote, IsWordChar, Double, ReadPlain, ReadQuoted, EndsIdent;
    if NeedQuote(x, isKeyword) {
      QuotedIsRead(x, rest);
      assert (Quoted(x, '"') + rest)[1..] == Double(x, '"') + ['"'] + rest;
    } else {
      PlainIsWord(x, isKeyword);
      PlainIsRead(x, rest);
    }
  }

  lemma PlainIsWord(x: string, isKeyword: string -> bool)
    requires !NeedQuote(x, isKeyword)
    ensures x != [] && x[0] != '"' && forall i :: 0 <= i < |x| ==> IsWordChar(x[i])
  {
    assert IsWordChar(x[0]);
  }

  // ---- the column list ----

  function SkipWhite(s: string): (r: string)
    ensures |r| <= |s|
  {
    if s != [] && (s[0] == ' ' || s[0] == '\n') then SkipWhite(s[1..]) else s
  }

  /** A type is a space and capital letters, or nothing. */
  function ReadType(s: string): (r: (string, string))
    ensures |r.1| <= |s|
  {
    if s == [] || s[0] != ' ' then ([], s)
    else
      var (x, rest) := ReadCapitals(s[1..]);
      ([' '] + x, rest)
  }

  function ReadCapitals(s: string): (r: (string, string))
    ensures |r.1| <= |s|
  {
    if s == [] || !('A' <= s[0] <= 'Z') then ([], s)
    else
      var (x, rest) := ReadCapitals(s[1..]);
      ([s[0]] + x, rest)
  }

  /** A column definition: a name and perhaps a type. */
  function ReadColumn(s: string): (r: (Read, string))
    ensures |r.1| <= |s|
  {
    var (name, s1) := ReadIdent(SkipWhite(s));
    var (typ, s2) := ReadType(s1);
    (Read(name, typ), s2)
  }

  /** More columns, each after a comma, to the closing bracket at the very end. */
  function ReadMore(s: string): Option<seq<Read>>
    decreases |s|
  {
    var s1 := SkipWhite(s);
    if s1 == ")" then Some([])
    else if s1 == [] || s1[0] != ',' then None
    else
      var (col, s2) := ReadColumn(s1[1..]);
      var more := ReadMore(s2);
      if more.Some? then Some([col] + more.value) else None
  }

  const CREATE := "CREATE TABLE "

  function ReadStatement(s: string): Option<(string, seq<Read>)>
  {
    if !(CREATE <= s) then None
    else
      var (name, s1) := ReadIdent(s[|CREATE|..]);
      if s1 == [] || s1[0] != '(' then None
      else if SkipWhite(s1[1..]) == ")" then Some((name, []))
      else
        var (col, s2) := ReadColumn(s1[1..]);
        var more := ReadMore(s2);
        if more.Some? then Some((name, [col] + more.value)) else None
  }

  /** The columns as they must be read. */
  function Columns(cols: seq<Column>): seq<Read>
  {
    seq(|cols|, i requires 0 <= i < |cols| => Read(cols[i].zCnName, TypeName(cols[i].affinity)))
  }

  lemma TypeIsRead(aff: Affinity.Aff, rest: string)
    requires rest != [] && (rest[0] == ',' || rest[0] == '\n' || rest[0] == ')')
    ensures ReadType(TypeName(aff) + rest) == (TypeName(aff), rest)
    ensures EndsIdent(TypeName(aff) + rest)
  {
    match aff
    case Blob => assert "" + rest == rest;
    case Text => assert " TEXT" == " " + "TEXT"; WordIsRead("TEXT", rest);
    case Numeric => assert " NUM" == " " + "NUM"; WordIsRead("NUM", rest);
    case Integer => assert " INT" == " " + "INT"; WordIsRead("INT", rest);
    case Real => assert " REAL" == " " + "REAL"; WordIsRead("REAL", rest);
  }

  lemma WordIsRead(x: string, rest: string)
    requires forall i :: 0 <= i < |x| ==> 'A' <= x[i] <= 'Z'
    requires rest != [] && !('A' <= rest[0] <= 'Z')
    ensures ReadType(" " + x + rest) == (" " + x, rest) && EndsIdent(" " + x + rest)
  {
    CapitalsAreRead(x, rest);
    assert (" " + x + rest)[1..] == x + rest;
  }

  lemma {:induction false} CapitalsAreRead(x: string, rest: string)
    requires forall i :: 0 <= i < |x| ==> 'A' <= x[i] <= 'Z'
    requires rest == [] || !('A' <= rest[0] <= 'Z')
    ensures ReadCapitals(x + rest) == (x, rest)
  {
    if x == [] {
      assert x + rest == rest;
    } else {
      CapitalsAreRead(x[1..], rest);
      assert (x + rest)[1..] == x[1..] + rest && x == [x[0]] + x[1..];
    }
  }

  lemma {:induction false} WhiteIsSkipped(w: string, rest: string)
    requires forall i :: 0 <= i < |w| ==> w[i] == ' ' || w[i] == '\n'
    requires rest == [] || (rest[0] != ' ' && rest[0] != '\n')
    ensures SkipWhite(w + rest) == rest
  {
    if w == [] {
      assert w + rest == rest;
    } else {
      WhiteIsSkipped(w[1..], rest);
      assert (w + rest)[1..] == w[1..] + rest;
    }
  }

  predicate IsWhite(w: string)
  {
    forall i :: 0 <= i < |w| ==> w[i] == ' ' || w[i] == '\n'
  }

  lemma ColumnIsRead(w: string, col: Column, isKeyword: string -> bool, rest: string)
    requires IsWhite(w) && rest != [] && (rest[0] == ',' || rest[0] == '\n' || rest[0] == ')')
    ensures ReadColumn(w + (Ident(col.zCnName, isKeyword) + TypeName(col.affinity) + rest))
         == (Read(col.zCnName, TypeName(col.affinity)), rest)
  {
    hide Ident, TypeName, ReadIdent, ReadType;
    var body := TypeName(col.affinity) + rest;
    TypeIsRead(col.affinity, rest);
    IdentIsRead(col.zCnName, isKeyword, body);
    IdentStart(col.zCnName, isKeyword);
    var s := Ident(col.zCnName, isKeyword) + TypeName(col.affinity) + rest;
    assert s == Ident(col.zCnName, isKeyword) + body;
    WhiteIsSkipped(w, s);
  }

  lemma IdentStart(x: string, isKeyword: string -> bool)
    ensures var s := Ident(x, isKeyword); s != [] && s[0] != ' ' && s[0] != '\n' && s[0] != ')' && s[0] != ','
  {
    if !NeedQuote(x, isKeyword) { PlainIsWord(x, isKeyword); }
  }

  /** The columns from the i-th on, each after its comma, and the end of the statement. */
  function Rest(cols: seq<Column>, i: nat, w: string, zEnd: string, isKeyword: string -> bool): string
    requires i <= |cols|
    decreases |cols| - i
  {
    if i == |cols| then zEnd
    else "," + (w + (Ident(cols[i].zCnName, isKeyword) + TypeName(cols[i].affinity)
                     + Rest(cols, i + 1, w, zEnd, isKeyword)))
  }

  lemma RestStart(cols: seq<Column>, i: nat, w: string, zEnd: string, isKeyword: string -> bool)
    requires i <= |cols| && (zEnd == ")" || zEnd == "\n)")
    ensures var r := Rest(cols, i, w, zEnd, isKeyword); r != [] && (r[0] == ',' || r[0] == '\n' || r[0] == ')')
  {
  }

  lemma {:induction false} RestIsRead(cols: seq<Column>, i: nat, w: string, zEnd: string, isKeyword: string -> bool)
    requires i <= |cols| && IsWhite(w) && (zEnd == ")" || zEnd == "\n)")
    ensures ReadMore(Rest(cols, i, w, zEnd, isKeyword)) == Some(Columns(cols)[i..])
    decreases |cols| - i
  {
    hide Ident, TypeName, ReadColumn;
    if i == |cols| {
      if zEnd == "\n)" { WhiteIsSkipped("\n", ")"); assert "\n" + ")" == zEnd; }
      assert SkipWhite(zEnd) == ")" && Columns(cols)[i..] == [];
    } else {
      RestIsRead(cols, i + 1, w, zEnd, isKeyword);
      RestStart(cols, i + 1, w, zEnd, isKeyword);
      ColumnIsRead(w, cols[i], isKeyword, Rest(cols, i + 1, w, zEnd, isKeyword));
      var s := Rest(cols, i, w, zEnd, isKeyword);
      assert SkipWhite(s) == s;
      assert Columns(cols)[i..] == [Columns(cols)[i]] + Columns(cols)[i + 1..];
    }
  }

  /** The list as written is the first column, and then the others after their commas. */
  lemma {:induction false} ListIsRest(cols: seq<Column>, i: nat, zSep: string, w: string, zEnd: string,
                                      isKeyword: string -> bool)
    requires 0 < i <= |cols|
    ensures ColumnList(cols, |cols|, zSep, "," + w, isKeyword) + zEnd
         == ColumnList(cols, i, zSep, "," + w, isKeyword) + Rest(cols, i, w, zEnd, isKeyword)
    decreases |cols| - i
  {
    hide Ident, TypeName;
    if i < |cols| {
      ListIsRest(cols, i + 1, zSep, w, zEnd, isKeyword);
      var a, x, y := ColumnList(cols, i, zSep, "," + w, isKeyword), Ident(cols[i].zCnName, isKeyword),
                     TypeName(cols[i].affinity);
      Regroup(a, w, x, y, Rest(cols, i + 1, w, zEnd, isKeyword));
    }
  }

  lemma Regroup(a: string, w: string, x: string, y: string, r: string)
    ensures a + (("," + w) + x + y) + r == a + ("," + (w + (x + y + r)))
  {
  }

  /** Reading the statement gives the table's name, and each column's name and type. */
  lemma StatementReadsBack(zName: string, cols: seq<Column>, isKeyword: string -> bool)
    ensures ReadStatement(Statement(zName, cols, isKeyword)) == Some((zName, Columns(cols)))
  {
    var short := Width(cols, |cols|) + |Quoted(zName, '"')| < 50;
    LaidOut(zName, cols, isKeyword, if short then "" else "\n  ", if short then ")" else "\n)");
    assert "," + "" == ",";
    assert "," + "\n  " == ",\n  ";
  }

  lemma LaidOut(zName: string, cols: seq<Column>, isKeyword: string -> bool, w: string, zEnd: string)
    requires IsWhite(w) && (zEnd == ")" || zEnd == "\n)")
    ensures ReadStatement(Head(zName, isKeyword) + ColumnList(cols, |cols|, w, "," + w, isKeyword) + zEnd)
         == Some((zName, Columns(cols)))
  {
    hide Ident, TypeName, ReadIdent, ReadMore, ColumnList, ReadColumn;
    var list := ColumnList(cols, |cols|, w, "," + w, isKeyword);
    var s := Head(zName, isKeyword) + list + zEnd;
    var body := "(" + (list + zEnd);
    assert s == CREATE + (Ident(zName, isKeyword) + body);
    assert s[|CREATE|..] == Ident(zName, isKeyword) + body;
    IdentIsRead(zName, isKeyword, body);
    assert body[1..] == list + zEnd;
    if cols == [] {
      NoColumns(cols, w, isKeyword, zEnd);
    } else {
      FirstColumn(cols, w, zEnd, isKeyword);
    }
  }

  lemma NoColumns(cols: seq<Column>, w: string, isKeyword: string -> bool, zEnd: string)
    requires cols == [] && (zEnd == ")" || zEnd == "\n)")
    ensures SkipWhite(ColumnList(cols, |cols|, w, "," + w, isKeyword) + zEnd) == ")" && Columns(cols) == []
  {
    assert [] + zEnd == zEnd;
    if zEnd == "\n)" { WhiteIsSkipped("\n", ")"); assert "\n" + ")" == zEnd; }
  }

  lemma FirstColumn(cols: seq<Column>, w: string, zEnd: string, isKeyword: string -> bool)
    requires cols != [] && IsWhite(w) && (zEnd == ")" || zEnd == "\n)")
    ensures var s := ColumnList(cols, |cols|, w, "," + w, isKeyword) + zEnd;
            var rest := Rest(cols, 1, w, zEnd, isKeyword);
            && SkipWhite(s) != ")" && ReadColumn(s) == (Columns(cols)[0], rest)
            && ReadMore(rest) == Some(Columns(cols)[1..]) && Columns(cols) == [Columns(cols)[0]] + Columns(cols)[1..]
  {
    hide Ident, TypeName, ReadColumn, ReadMore;
    var rest := Rest(cols, 1, w, zEnd, isKeyword);
    ListIsRest(cols, 1, w, w, zEnd, isKeyword);
    RestStart(cols, 1, w, zEnd, isKeyword);
    RestIsRead(cols, 1, w, zEnd, isKeyword);
    ColumnIsRead(w, cols[0], isKeyword, rest);
    var x, y := Ident(cols[0].zCnName, isKeyword), TypeName(cols[0].affinity);
    OneColumn(cols, w, isKeyword);
    assert (w + x + y) + rest == w + (x + y + rest);
    IdentStart(cols[0].zCnName, isKeyword);
    WhiteIsSkipped(w, x + y + rest);
  }

  lemma OneColumn(cols: seq<Column>, w: string, isKeyword: string -> bool)
    requires cols != []
    ensures ColumnList(cols, 1, w, "," + w, isKeyword)
         == w + Ident(cols[0].zCnName, isKeyword) + TypeName(cols[0].affinity)
  {
    assert ColumnList(cols, 0, w, "," + w, isKeyword) == [];
  }
}
