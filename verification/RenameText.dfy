// What a rename does to the text of an SQL statement.
module RenameText {
  import opened Arith

  /** A token of the statement and the parse-tree element it created. */
  datatype Token = Token(p: int, z: nat, n: nat)

  /** The new name (always quoted, or only where the old token was), or no new name: then
      double-quoted strings become single-quoted ones. */
  datatype Mode = Rename(zNew: string, bQuote: bool) | Requote

  // ---- quoting ----

  /** Every q doubled, as %w and %Q do. */
  function Double(s: string, q: char): (d: string)
    ensures |s| <= |d| <= 2 * |s|
  {
    if s == [] then [] else (if s[0] == q then [q, q] else [s[0]]) + Double(s[1..], q)
  }

  function Quoted(s: string, q: char): string { [q] + Double(s, q) + [q] }

  predicate IsQuote(c: char) { c == '\'' || c == '"' || c == '`' || c == '[' }

  /** sqlite3Dequote() */
  function Dequote(s: string): string
  {
    if s == [] || !IsQuote(s[0]) then s
    else Unescape(s[1..], if s[0] == '[' then ']' else s[0])
  }

  /** Up to the first quote that is not doubled. */
  function Unescape(s: string, q: char): (u: string)
    ensures |u| <= |s|
  {
    if s == [] then []
    else if s[0] != q then [s[0]] + Unescape(s[1..], q)
    else if |s| > 1 && s[1] == q then [q] + Unescape(s[2..], q)
    else []
  }

  lemma {:induction false} UnescapeDouble(s: string, q: char)
    ensures Unescape(Double(s, q) + [q], q) == s
  {
    var d := Double(s, q) + [q];
    if s != [] {
      UnescapeDouble(s[1..], q);
      var tail := Double(s[1..], q) + [q];
      if s[0] == q {
        assert d == [q, q] + tail && d[2..] == tail;
      } else {
        assert d == [s[0]] + tail && d[1..] == tail;
      }
    }
  }

  /** Quoting and dequoting a name gives the name back. */
  lemma QuoteRoundTrip(s: string, q: char)
    requires IsQuote(q) && q != '['
    ensures Dequote(Quoted(s, q)) == s
  {
    UnescapeDouble(s, q);
    assert Quoted(s, q)[1..] == Double(s, q) + [q];
  }

  /** The same for names in brackets and backticks; other names are left alone. */
  lemma BracketRoundTrip(s: string)
    ensures Dequote(['['] + Double(s, ']') + [']']) == s
    ensures Dequote(['`'] + Double(s, '`') + ['`']) == s
  {
    hide Double, Unescape;
    UnescapeDouble(s, ']');
    UnescapeDouble(s, '`');
    assert (['['] + Double(s, ']') + [']'])[1..] == Double(s, ']') + [']'];
    assert (['`'] + Double(s, '`') + ['`'])[1..] == Double(s, '`') + ['`'];
  }

  lemma UnquotedStays(s: string)
    requires s != [] && s[0] != '\'' && s[0] != '"' && s[0] != '`' && s[0] != '['
    ensures Dequote(s) == s
  {
  }

  /** A character that can be part of an identifier; digits and '$' count, quotes do not. */
  predicate IsIdChar(c: char)
  {
    'a' <= c <= 'z' || 'A' <= c <= 'Z' || '0' <= c <= '9' || c == '_' || c == '$' || c as int >= 0x80
  }

  /** A word ends before a quote, white space, a bracket or an operator. */
  lemma WordsEnd(c: char)
    requires IsQuote(c) || c in [' ', '\t', '\n', '(', ')', ']', ',', ';', '.', '=', '<', '>', '+', '-', '*', '/', '\0']
    ensures !IsIdChar(c)
  {
  }

  lemma WordsGoOn(c: char)
    requires c == '$' || c == '_' || c as int > 127 || c in ['a', 'n', 'z', 'A', 'N', 'Z', '0', '5', '9']
    ensures IsIdChar(c)
  {
  }

  // ---- the text put in place of a token ----

  /** The character after the token, NUL at the end of the statement. */
  function Following(sql: string, t: Token): char
  {
    if t.z + t.n < |sql| then sql[t.z + t.n] else '\0'
  }

  function Replacement(mode: Mode, sql: string, t: Token): string
    requires t.z + t.n <= |sql| && t.n > 0
  {
    match mode
    case Rename(zNew, bQuote) =>
      if !bQuote && IsIdChar(sql[t.z]) then zNew
      else Quoted(zNew, '"') + (if Following(sql, t) == '"' then " " else "")
    case Requote =>
      Quoted(Dequote(sql[t.z..t.z + t.n]), '\'') + (if Following(sql, t) == '\'' then " " else "")
  }

  ghost predicate IsDoubleQuoted(s: string)
  {
    exists x :: s == Quoted(x, '"')
  }

  /** How much longer than the token its replacement can be. */
  lemma ReplacementLength(mode: Mode, sql: string, t: Token)
    requires t.z + t.n <= |sql| && t.n > 0
    ensures mode.Rename? ==> |Replacement(mode, sql, t)| <= |Quoted(mode.zNew, '"')| + 1
    ensures mode.Requote? && IsDoubleQuoted(sql[t.z..t.z + t.n]) ==> |Replacement(mode, sql, t)| < 2 * t.n
  {
    if mode.Requote? && IsDoubleQuoted(sql[t.z..t.z + t.n]) {
      var x :| sql[t.z..t.z + t.n] == Quoted(x, '"');
      QuoteRoundTrip(x, '"');
    }
  }

  predicate IsQuotedIn(mode: Mode, sql: string, t: Token)
    requires t.z < |sql|
  {
    mode.Requote? || mode.bQuote || !IsIdChar(sql[t.z])
  }

  /** What the text in place of the token must be read as. */
  function Meaning(mode: Mode, sql: string, t: Token): string
    requires t.z + t.n <= |sql|
  {
    if mode.Rename? then mode.zNew else Dequote(sql[t.z..t.z + t.n])
  }

  function QuoteOf(mode: Mode): char { if mode.Rename? then '"' else '\'' }

  /** A replacement on its own stands for the same name or string. */
  lemma ReplacementMeans(mode: Mode, sql: string, t: Token)
    requires t.z + t.n <= |sql| && t.n > 0
    ensures var r := Replacement(mode, sql, t);
            if IsQuotedIn(mode, sql, t) then Dequote(r) == Meaning(mode, sql, t) else r == Meaning(mode, sql, t)
  {
    hide Quoted, Dequote, IsIdChar;
    QuotedThenSpace(Meaning(mode, sql, t), QuoteOf(mode), Following(sql, t));
  }

  /** Where a word was, an unquoted new name is put in as it is; anything else is quoted. */
  lemma QuotedOrNot(zNew: string, bQuote: bool, sql: string, t: Token)
    requires t.z + t.n <= |sql| && t.n > 0
    ensures var c, r := sql[t.z], Replacement(Rename(zNew, bQuote), sql, t);
            var alnum := 'a' <= c <= 'z' || 'A' <= c <= 'Z' || '0' <= c <= '9';
            var letter := alnum || c == '_' || c == '$' || c as int > 127;
            && (letter && !bQuote ==> r == zNew)
            && (bQuote || c == '"' || c == '[' || c == '`' || c == '\'' ==> r[0] == '"')
            && (IsQuotedIn(Rename(zNew, bQuote), sql, t) <==> bQuote || !letter)
  {
  }

  lemma QuotedThenSpace(s: string, q: char, next: char)
    requires q == '"' || q == '\''
    ensures var r := Quoted(s, q) + (if next == q then " " else "");
            |r| > 0 && Dequote(r) == s && r[|r| - 1] != next
  {
    var r := Quoted(s, q) + (if next == q then " " else "");
    QuoteRoundTrip(s, q);
    if next == q {
      UnescapeThen(s, q, " ");
      assert r[1..] == Double(s, q) + [q] + " ";
    } else {
      assert r == Quoted(s, q);
    }
  }

  lemma {:induction false} UnescapeThen(s: string, q: char, rest: string)
    requires rest == [] || rest[0] != q
    ensures Unescape(Double(s, q) + [q] + rest, q) == s
  {
    var d := Double(s, q) + [q] + rest;
    if s != [] {
      UnescapeThen(s[1..], q, rest);
      var tail := Double(s[1..], q) + [q] + rest;
      if s[0] == q {
        assert d == [q, q] + tail && d[2..] == tail;
      } else {
        assert d == [s[0]] + tail && d[1..] == tail;
      }
    }
  }

  // ---- all tokens replaced at once ----

  predicate WellPlaced(toks: seq<Token>, nSql: nat)
  {
    && (forall i :: 0 <= i < |toks| ==> toks[i].n > 0 && toks[i].z + toks[i].n <= nSql)
    && forall i, j :: 0 <= i < j < |toks| ==>
         toks[i].z + toks[i].n <= toks[j].z || toks[j].z + toks[j].n <= toks[i].z
  }

  /** The token that starts at position i. */
  function TokenAt(toks: seq<Token>, i: nat): (r: Option<Token>)
    ensures r.Some? ==> r.value in toks && r.value.z == i
    ensures r.None? ==> forall t :: t in toks ==> t.z != i
  {
    if toks == [] then None else if toks[0].z == i then Some(toks[0]) else TokenAt(toks[1..], i)
  }

  /** The statement from position i on, read left to right, with every token replaced. */
  function Subst(mode: Mode, sql: string, toks: seq<Token>, i: nat): string
    requires WellPlaced(toks, |sql|)
    decreases |sql| - i
  {
    if i >= |sql| then []
    else match TokenAt(toks, i)
      case Some(t) => Replacement(mode, sql, t) + Subst(mode, sql, toks, i + t.n)
      case None => [sql[i]] + Subst(mode, sql, toks, i + 1)
  }

  // ---- where a replacement ends in the edited statement ----

  lemma {:induction false} UnescapeRunsOn(s: string, q: char, rest: string)
    requires rest != [] && rest[0] == q
    ensures |Unescape(Double(s, q) + [q] + rest, q)| > |s|
  {
    var d := Double(s, q) + [q] + rest;
    if s != [] {
      UnescapeRunsOn(s[1..], q, rest);
      var tail := Double(s[1..], q) + [q] + rest;
      if s[0] == q {
        assert d == [q, q] + tail && d[2..] == tail;
      } else {
        assert d == [s[0]] + tail && d[1..] == tail;
      }
    } else {
      assert d == [q, q] + rest[1..];
    }
  }

  /** A quoted text reads back as what was quoted exactly if no quote follows it. */
  lemma ReadsBackIff(s: string, q: char, rest: string)
    requires q == '"' || q == '\''
    ensures Dequote(Quoted(s, q) + rest) == s <==> rest == [] || rest[0] != q
  {
    var text := Quoted(s, q) + rest;
    assert text[0] == q && text[1..] == Double(s, q) + [q] + rest;
    if rest == [] || rest[0] != q { UnescapeThen(s, q, rest); } else { UnescapeRunsOn(s, q, rest); }
  }

  /** The same with the space that keeps a following quote away. */
  lemma SpacedReadsBack(s: string, q: char, next: char, rest: string)
    requires q == '"' || q == '\''
    ensures Dequote(Quoted(s, q) + (if next == q then " " else "") + rest) == s
       <==> next == q || rest == [] || rest[0] != q
  {
    hide Quoted, Dequote;
    if next == q {
      ReadsBackIff(s, q, " " + rest);
      assert Quoted(s, q) + (" " + rest) == Quoted(s, q) + " " + rest;
    } else {
      ReadsBackIff(s, q, rest);
      assert Quoted(s, q) + "" + rest == Quoted(s, q) + rest;
    }
  }

  lemma TextAt(mode: Mode, sql: string, toks: seq<Token>, t: Token)
    requires WellPlaced(toks, |sql|) && t in toks && t.z + t.n <= |sql|
    ensures t.n > 0 && t.z < |sql|
    ensures Subst(mode, sql, toks, t.z) == Replacement(mode, sql, t) + Subst(mode, sql, toks, t.z + t.n)
  {
    hide WellPlaced, Replacement;
    InPlace(toks, |sql|, t);
    SameToken(toks, |sql|, t, TokenAt(toks, t.z).value);
  }

  /** Right behind the token another one is replaced by a quoted text, and the token was not
      followed by a quote already. */
  predicate RunsTogether(mode: Mode, sql: string, toks: seq<Token>, t: Token)
    requires WellPlaced(toks, |sql|)
  {
    match TokenAt(toks, t.z + t.n)
    case Some(u) => u.z < |sql| && Following(sql, t) != QuoteOf(mode) && IsQuotedIn(mode, sql, u)
    case None => false
  }

  /** A new name that was not quoted when it was given starts like an identifier. */
  predicate IsMode(mode: Mode)
  {
    mode.Rename? && !mode.bQuote ==> mode.zNew != [] && IsIdChar(mode.zNew[0])
  }

  lemma SubstHead(mode: Mode, sql: string, toks: seq<Token>, i: nat)
    requires WellPlaced(toks, |sql|) && IsMode(mode)
    ensures var rest := Subst(mode, sql, toks, i);
            match TokenAt(toks, i)
            case Some(u) =>
              && i == u.z < |sql| && rest != []
              && if IsQuotedIn(mode, sql, u) then rest[0] == QuoteOf(mode) else IsIdChar(rest[0])
            case None => if i < |sql| then rest != [] && rest[0] == sql[i] else rest == []
  {
    if TokenAt(toks, i).Some? {
      var u := TokenAt(toks, i).value;
      assert u in toks;
    }
  }

  /** Read at the place of a token, the edited statement gives the new name, or the old
      string, exactly if its replacement does not run together with the next one. */
  lemma EditReadsBack(mode: Mode, sql: string, toks: seq<Token>, t: Token)
    requires WellPlaced(toks, |sql|) && IsMode(mode) && t in toks && t.z < |sql| && IsQuotedIn(mode, sql, t)
    requires t.z + t.n <= |sql|
    ensures Dequote(Subst(mode, sql, toks, t.z)) == Meaning(mode, sql, t) <==> !RunsTogether(mode, sql, toks, t)
  {
    hide WellPlaced, TokenAt, Subst, Quoted, Dequote, IsIdChar, IsMode;
    TextAt(mode, sql, toks, t);
    SubstHead(mode, sql, toks, t.z + t.n);
    SpacedReadsBack(Meaning(mode, sql, t), QuoteOf(mode), Following(sql, t), Subst(mode, sql, toks, t.z + t.n));
  }

  /** In particular if no token of the list starts where this one ends. */
  lemma ApartReadsBack(mode: Mode, sql: string, toks: seq<Token>, t: Token)
    requires WellPlaced(toks, |sql|) && IsMode(mode) && t in toks && t.z + t.n <= |sql| && t.z < |sql|
    requires IsQuotedIn(mode, sql, t) && forall u :: u in toks ==> u.z != t.z + t.n
    ensures Dequote(Subst(mode, sql, toks, t.z)) == Meaning(mode, sql, t)
  {
    EditReadsBack(mode, sql, toks, t);
  }

  /** A name put in without quotes ends where the old one did. */
  lemma UnquotedEnds(mode: Mode, sql: string, toks: seq<Token>, t: Token)
    requires WellPlaced(toks, |sql|) && IsMode(mode) && t in toks && t.z + t.n <= |sql| && t.z < |sql|
    requires !IsQuotedIn(mode, sql, t) && !IsIdChar(Following(sql, t))
    ensures var rest := Subst(mode, sql, toks, t.z + t.n);
            Subst(mode, sql, toks, t.z) == mode.zNew + rest && (rest == [] || !IsIdChar(rest[0]))
  {
    hide WellPlaced, TokenAt, Subst, Quoted, Dequote, IsMode;
    TextAt(mode, sql, toks, t);
    SubstHead(mode, sql, toks, t.z + t.n);
  }

  /** Two adjacent names that become one: both are replaced by "x", and read as x"x. */
  lemma AdjacentRunTogether()
    ensures var toks := [Token(0, 0, 3), Token(1, 3, 1)];
            WellPlaced(toks, 4) && Subst(Rename("x", true), "\"a\"b", toks, 0) == "\"x\"\"x\""
  {
    var toks := [Token(0, 0, 3), Token(1, 3, 1)];
    var m, sql := Rename("x", true), "\"a\"b";
    QuotedX();
    hide Quoted;
    assert toks[1..] == [toks[1]];
    assert TokenAt(toks, 0) == Some(toks[0]) && TokenAt(toks, 3) == Some(toks[1]);
    TextAt(m, sql, toks, toks[0]);
    TextAt(m, sql, toks, toks[1]);
    assert Subst(m, sql, toks, 4) == [];
  }

  lemma QuotedX()
    ensures Quoted("x", '"') == "\"x\""
  {
    assert "x"[1..] == [];
  }

  /** Where no token starts, nothing changes. */
  lemma {:induction false} PlainRun(mode: Mode, sql: string, toks: seq<Token>, from: nat, cut: nat)
    requires WellPlaced(toks, |sql|) && from <= cut <= |sql|
    requires forall t :: t in toks ==> t.z < from || t.z >= cut
    ensures Subst(mode, sql, toks, from) == sql[from..cut] + Subst(mode, sql, toks, cut)
    decreases cut - from
  {
    hide WellPlaced, Replacement;
    if from < cut {
      assert TokenAt(toks, from).None?;
      PlainRun(mode, sql, toks, from + 1, cut);
      assert sql[from..cut] == [sql[from]] + sql[from + 1..cut];
    } else {
      assert sql[from..cut] == [];
    }
  }

  lemma SameToken(toks: seq<Token>, nSql: nat, t: Token, u: Token)
    requires WellPlaced(toks, nSql) && t in toks && u in toks && t.z == u.z
    ensures t == u
  {
  }

  /** The rightmost token left of `cut`, replaced. */
  lemma LastToken(mode: Mode, sql: string, toks: seq<Token>, t: Token, cut: nat)
    requires WellPlaced(toks, |sql|) && t in toks && t.z + t.n <= cut <= |sql|
    requires forall u :: u in toks ==> u.z <= t.z || u.z >= cut
    ensures Subst(mode, sql, toks, t.z)
         == Replacement(mode, sql, t) + sql[t.z + t.n..cut] + Subst(mode, sql, toks, cut)
  {
    hide WellPlaced, Replacement;
    InPlace(toks, |sql|, t);
    SameToken(toks, |sql|, t, TokenAt(toks, t.z).value);
    PlainRun(mode, sql, toks, t.z + t.n, cut);
  }

  lemma InPlace(toks: seq<Token>, nSql: nat, t: Token)
    requires WellPlaced(toks, nSql) && t in toks
    ensures t.z < nSql && t.n > 0
  {
  }

  lemma SameTokenAt(toks: seq<Token>, toks': seq<Token>, nSql: nat, i: nat)
    requires WellPlaced(toks, nSql) && WellPlaced(toks', nSql)
    requires forall t :: t in toks <==> t in toks'
    ensures TokenAt(toks, i) == TokenAt(toks', i)
    ensures TokenAt(toks, i).Some? ==> TokenAt(toks, i).value.n > 0
  {
    if TokenAt(toks, i).Some? {
      SameToken(toks, nSql, TokenAt(toks, i).value, TokenAt(toks', i).value);
    }
  }

  /** The result does not depend on the order of the token list. */
  lemma {:induction false} AnyOrder(mode: Mode, sql: string, toks: seq<Token>, toks': seq<Token>, i: nat)
    requires WellPlaced(toks, |sql|) && WellPlaced(toks', |sql|)
    requires forall t :: t in toks <==> t in toks'
    ensures Subst(mode, sql, toks, i) == Subst(mode, sql, toks', i)
    decreases |sql| - i
  {
    hide WellPlaced, Replacement, TokenAt;
    if i < |sql| {
      SameTokenAt(toks, toks', |sql|, i);
      match TokenAt(toks, i)
      case Some(t) => AnyOrder(mode, sql, toks, toks', i + t.n);
      case None => AnyOrder(mode, sql, toks, toks', i + 1);
    }
  }
}
