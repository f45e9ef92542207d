// The column lists of the indexes of a WITHOUT ROWID table.
module IndexColumns {
  import opened Arith

  /** One column of an index: its number in the table, its collation and its sort flags. */
  datatype Part = Part(col: int, coll: string, sort: nat)

  /** A column of the table; `coll` is empty when no collation was declared. */
  datatype Column = Column(virt: bool, coll: string, primKey: bool, notNull: bool)

  function Lower(s: string): string
  {
    if s == [] then []
    else [if 'A' <= s[0] <= 'Z' then s[0] - 'A' + 'a' else s[0]] + Lower(s[1..])
  }

  /** The same column under the same collation; collation names ignore case. */
  predicate Same(a: Part, b: Part)
  {
    a.col == b.col && Lower(a.coll) == Lower(b.coll)
  }

  /** Two characters that sqlite3StrICmp() takes for the same. */
  predicate SameLetter(c: char, d: char)
  {
    || c == d
    || ('a' <= c <= 'z' && d as int == c as int - 32)
    || ('a' <= d <= 'z' && c as int == d as int - 32)
  }

  predicate AgreeUpToCase(s: string, t: string)
  {
    |s| == |t| && forall i :: 0 <= i < |s| ==> SameLetter(s[i], t[i])
  }

  predicate Matches(a: Part, b: Part)
  {
    a.col == b.col && AgreeUpToCase(a.coll, b.coll)
  }

  /** Some part of s has column and collation of x. */
  ghost predicate Holds(s: seq<Part>, x: Part)
  {
    exists k :: 0 <= k < |s| && Matches(s[k], x)
  }

  lemma {:induction false} LowerAgrees(s: string, t: string)
    ensures Lower(s) == Lower(t) <==> AgreeUpToCase(s, t)
  {
    LowerAt(s);
    LowerAt(t);
    hide Lower;
    if Lower(s) == Lower(t) {
      forall i | 0 <= i < |s| ensures SameLetter(s[i], t[i]) {
        assert Lower(s)[i] == Lower(t)[i];
      }
    }
  }

  lemma {:induction false} LowerAt(s: string)
    ensures |Lower(s)| == |s|
    ensures forall i :: 0 <= i < |s| ==>
              Lower(s)[i] == if 'A' <= s[i] <= 'Z' then (s[i] as int + 32) as char else s[i]
  {
    if s != [] { LowerAt(s[1..]); }
  }

  lemma SameMeans(a: Part, b: Part)
    ensures Same(a, b) <==> Matches(a, b)
  {
    LowerAgrees(a.coll, b.coll);
  }

  lemma HasMeans(s: seq<Part>, x: Part)
    ensures Has(s, x) <==> Holds(s, x)
  {
    hide Same, Matches;
    forall k | 0 <= k < |s| ensures Same(s[k], x) <==> Matches(s[k], x) {
      SameMeans(s[k], x);
    }
  }

  /** What is left of a list of parts: nothing is lost, nothing is new, nothing is twice. */
  ghost predicate KeptOnce(s: seq<Part>, given: seq<Part>)
  {
    && (forall i :: 0 <= i < |given| ==> Holds(s, given[i]))
    && (forall k :: 0 <= k < |s| ==> s[k] in given)
    && (forall k, l :: 0 <= k < l < |s| ==> !Matches(s[k], s[l]))
  }

  /** One column under two collations stays twice. */
  lemma BothKept(s: seq<Part>, given: seq<Part>, i: nat, j: nat)
    requires KeptOnce(s, given) && i < |given| && j < |given| && !AgreeUpToCase(given[i].coll, given[j].coll)
    ensures exists k, l :: 0 <= k < |s| && 0 <= l < |s| && k != l && Matches(s[k], given[i]) && Matches(s[l], given[j])
  {
    assert Holds(s, given[i]) && Holds(s, given[j]);
    var k :| 0 <= k < |s| && Matches(s[k], given[i]);
    var l :| 0 <= l < |s| && Matches(s[l], given[j]);
    if k == l { AgreeTransitive(given[i].coll, s[k].coll, given[j].coll); }
    hide Matches;
  }

  lemma AgreeTransitive(s: string, t: string, u: string)
    requires AgreeUpToCase(t, s) && AgreeUpToCase(t, u)
    ensures AgreeUpToCase(s, u)
  {
    LowerAgrees(t, s);
    LowerAgrees(t, u);
    LowerAgrees(s, u);
  }

  ghost predicate Has(s: seq<Part>, x: Part)
  {
    exists i :: 0 <= i < |s| && Same(s[i], x)
  }

  ghost predicate HasCol(s: seq<Part>, c: int)
  {
    exists i :: 0 <= i < |s| && s[i].col == c
  }

  ghost predicate NoRepeats(s: seq<Part>)
  {
    forall i, j :: 0 <= i < j < |s| ==> !Same(s[i], s[j])
  }

  // ---- the primary key ----

  ghost predicate IsFirst(s: seq<Part>, i: nat)
    requires i < |s|
  {
    forall k :: 0 <= k < i ==> !Same(s[k], s[i])
  }

  /** Among the first n parts, those that are not a repetition of an earlier one, in order. */
  ghost function Firsts(s: seq<Part>, n: nat): (f: seq<Part>)
    requires n <= |s|
    ensures |f| <= n
  {
    if n == 0 then [] else Firsts(s, n - 1) + (if IsFirst(s, n - 1) then [s[n - 1]] else [])
  }

  lemma {:induction false} FirstsMember(s: seq<Part>, n: nat, x: Part)
    requires n <= |s|
    ensures Has(Firsts(s, n), x) <==> Has(s[..n], x)
  {
    if n > 0 {
      FirstsMember(s, n - 1, x);
      FirstsMember(s, n - 1, s[n - 1]);
      HasLast(Firsts(s, n - 1), s[n - 1], x);
      assert Firsts(s, n - 1) + [] == Firsts(s, n - 1);
      HasLast(s[..n - 1], s[n - 1], x);
      assert s[..n] == s[..n - 1] + [s[n - 1]];
      hide Same;
      assert IsFirst(s, n - 1) <==> !Has(s[..n - 1], s[n - 1]) by { FirstIffNew(s, n - 1); }
      if !IsFirst(s, n - 1) && Same(s[n - 1], x) { HasSame(s[..n - 1], s[n - 1], x); }
    }
  }

  lemma HasLast(s: seq<Part>, y: Part, x: Part)
    ensures Has(s + [y], x) <==> Has(s, x) || Same(y, x)
  {
    hide Same;
    var t := s + [y];
    if Has(s, x) {
      var i :| 0 <= i < |s| && Same(s[i], x);
      assert Same(t[i], x);
    }
    if Same(y, x) { assert Same(t[|s|], x); }
    if Has(t, x) {
      var i :| 0 <= i < |t| && Same(t[i], x);
      if i < |s| { assert Same(s[i], x); }
    }
  }

  lemma FirstIffNew(s: seq<Part>, i: nat)
    requires i < |s|
    ensures IsFirst(s, i) <==> !Has(s[..i], s[i])
  {
    hide Same;
    if k :| 0 <= k < i && Same(s[k], s[i]) { assert Same(s[..i][k], s[i]); }
  }

  lemma HasSame(s: seq<Part>, x: Part, y: Part)
    requires Has(s, x) && Same(x, y)
    ensures Has(s, y)
  {
    var i :| 0 <= i < |s| && Same(s[i], x);
    assert Same(s[i], y);
  }

  /** No (column, collation) pair is left twice in the primary key, and none is lost. */
  lemma {:induction false} FirstsDistinct(s: seq<Part>, n: nat)
    requires n <= |s|
    ensures NoRepeats(Firsts(s, n))
  {
    if n > 0 {
      FirstsDistinct(s, n - 1);
      var f := Firsts(s, n - 1);
      FirstsMember(s, n - 1, s[n - 1]);
      FirstIffNew(s, n - 1);
      if IsFirst(s, n - 1) {
        hide Same, Firsts;
        assert forall k :: 0 <= k < |f| ==> !Same(f[k], s[n - 1]);
        assert NoRepeats(f + [s[n - 1]]);
      }
    }
  }

  lemma {:induction false} FirstsGiven(s: seq<Part>, n: nat)
    requires n <= |s|
    ensures forall k :: 0 <= k < |Firsts(s, n)| ==> Firsts(s, n)[k] in s
  {
    if n > 0 { FirstsGiven(s, n - 1); }
  }

  lemma FirstsKeptOnce(s: seq<Part>)
    ensures KeptOnce(Firsts(s, |s|), s)
  {
    FirstsGiven(s, |s|);
    FirstsDistinct(s, |s|);
    hide Same, Matches, Holds, Firsts, Has;
    var f := Firsts(s, |s|);
    forall i | 0 <= i < |s| ensures Holds(f, s[i]) { FirstsHolds(s, i); }
    forall k, l | 0 <= k < l < |f| ensures !Matches(f[k], f[l]) { SameMeans(f[k], f[l]); }
  }

  lemma FirstsHolds(s: seq<Part>, i: nat)
    requires i < |s|
    ensures Holds(Firsts(s, |s|), s[i])
  {
    hide Same, Matches, Holds, Firsts, Has;
    FirstsMember(s, |s|, s[i]);
    HasItself(s, i);
    assert s[..|s|] == s;
    HasMeans(Firsts(s, |s|), s[i]);
  }

  lemma HasItself(s: seq<Part>, i: nat)
    requires i < |s|
    ensures Has(s, s[i])
  {
    assert Same(s[i], s[i]);
  }

  /** Every part given for the primary key can be found in a converted secondary index. */
  lemma SecondaryHolds(keys: seq<Part>, given: seq<Part>, i: nat)
    requires i < |given|
    ensures var pk := Firsts(given, |given|); Holds(keys + Missing(keys, pk, |pk|), given[i])
  {
    hide Same, Matches, Holds, Firsts, Has, Missing;
    var pk, x := Firsts(given, |given|), given[i];
    var tail := Missing(keys, pk, |pk|);
    HasItself(given, i);
    assert given[..|given|] == given && pk[..|pk|] == pk;
    FirstsMember(given, |given|, x);
    MissingMember(keys, pk, |pk|, x);
    HasEither(keys, tail, x);
    HasMeans(keys + tail, x);
  }

  lemma HasEither(s: seq<Part>, t: seq<Part>, x: Part)
    ensures Has(s + t, x) <==> Has(s, x) || Has(t, x)
  {
    hide Same;
    var u := s + t;
    if i :| 0 <= i < |s| && Same(s[i], x) { assert Same(u[i], x); }
    if i :| 0 <= i < |t| && Same(t[i], x) { assert Same(u[|s| + i], x); }
    if i :| 0 <= i < |u| && Same(u[i], x) {
      if i < |s| { assert Same(s[i], x); } else { assert Same(t[i - |s|], x); }
    }
  }

  // ---- secondary indexes ----

  /** Primary-key parts, among the first n, that the key of an index does not have. */
  ghost function Missing(keys: seq<Part>, pk: seq<Part>, n: nat): (m: seq<Part>)
    requires n <= |pk|
    ensures |m| <= n
  {
    if n == 0 then []
    else Missing(keys, pk, n - 1) + (if Has(keys, pk[n - 1]) then [] else [pk[n - 1].(sort := 0)])
  }

  lemma {:induction false} MissingMember(keys: seq<Part>, pk: seq<Part>, n: nat, x: Part)
    requires n <= |pk|
    ensures Has(Missing(keys, pk, n), x) <==> Has(pk[..n], x) && !Has(keys, x)
  {
    if n > 0 {
      MissingMember(keys, pk, n - 1, x);
      var y := pk[n - 1];
      assert pk[..n] == pk[..n - 1] + [y];
      HasLast(pk[..n - 1], y, x);
      HasLast(Missing(keys, pk, n - 1), y.(sort := 0), x);
      assert Missing(keys, pk, n - 1) + [] == Missing(keys, pk, n - 1);
      if Same(y, x) {
        if Has(keys, x) { HasSame(keys, x, y); }
        if Has(keys, y) { HasSame(keys, y, x); }
      }
    }
  }

  lemma {:induction false} MissingDistinct(keys: seq<Part>, pk: seq<Part>, n: nat)
    requires n <= |pk| && NoRepeats(pk)
    ensures NoRepeats(Missing(keys, pk, n))
  {
    if n > 0 {
      MissingDistinct(keys, pk, n - 1);
      var m, y := Missing(keys, pk, n - 1), pk[n - 1];
      MissingMember(keys, pk, n - 1, y);
      assert IsFirst(pk, n - 1);
      FirstIffNew(pk, n - 1);
      forall k | 0 <= k < |m| ensures !Same(m[k], y.(sort := 0)) {
        if Same(m[k], y.(sort := 0)) { assert Same(m[k], y); }
      }
    }
  }

  /** A secondary index ends with exactly the primary-key columns its own key lacks, each
      once, so the whole primary key can be read from it. */
  lemma SecondaryHasKey(keys: seq<Part>, pk: seq<Part>)
    requires NoRepeats(pk)
    ensures var tail := Missing(keys, pk, |pk|);
            && NoRepeats(tail)
            && (forall i :: 0 <= i < |pk| ==> Has(keys, pk[i]) || Has(tail, pk[i]))
            && (forall k :: 0 <= k < |tail| ==> !Has(keys, tail[k]) && Has(pk, tail[k]))
  {
    var tail := Missing(keys, pk, |pk|);
    MissingDistinct(keys, pk, |pk|);
    assert pk[..|pk|] == pk;
    forall i | 0 <= i < |pk| ensures Has(keys, pk[i]) || Has(tail, pk[i]) {
      MissingMember(keys, pk, |pk|, pk[i]);
      assert Same(pk[i], pk[i]);
    }
    forall k | 0 <= k < |tail| ensures !Has(keys, tail[k]) && Has(pk, tail[k]) {
      MissingMember(keys, pk, |pk|, tail[k]);
      assert Same(tail[k], tail[k]);
    }
  }

  // ---- the primary key as a covering index ----

  function PlainPart(aCol: seq<Column>, i: nat): Part
    requires i < |aCol|
  {
    Part(i, if aCol[i].coll != "" then aCol[i].coll else "BINARY", 0)
  }

  /** Among the first n columns of the table, the non-virtual ones not in the primary key. */
  ghost function Others(pk: seq<Part>, aCol: seq<Column>, n: nat): (o: seq<Part>)
    requires n <= |aCol|
    ensures |o| <= n
  {
    if n == 0 then []
    else Others(pk, aCol, n - 1)
         + (if HasCol(pk, n - 1) || aCol[n - 1].virt then [] else [PlainPart(aCol, n - 1)])
  }

  /** They are listed once each, in table order. */
  lemma {:induction false} OthersAscend(pk: seq<Part>, aCol: seq<Column>, n: nat)
    requires n <= |aCol|
    ensures var o := Others(pk, aCol, n);
            && (forall k :: 0 <= k < |o| ==> 0 <= o[k].col < n)
            && (forall i, j :: 0 <= i < j < |o| ==> o[i].col < o[j].col)
  {
    if n > 0 {
      OthersAscend(pk, aCol, n - 1);
      assert Others(pk, aCol, n) == Others(pk, aCol, n - 1)
          || Others(pk, aCol, n)[|Others(pk, aCol, n - 1)|].col == n - 1;
    }
  }

  lemma {:induction false} OthersMember(pk: seq<Part>, aCol: seq<Column>, n: nat, c: nat)
    requires n <= |aCol| && c < |aCol|
    ensures HasCol(Others(pk, aCol, n), c) <==> c < n && !aCol[c].virt && !HasCol(pk, c)
  {
    if n > 0 {
      OthersMember(pk, aCol, n - 1, c);
      var o := Others(pk, aCol, n - 1);
      HasColLast(o, PlainPart(aCol, n - 1), c);
      assert o + [] == o;
    }
  }

  /** They are stored columns under their declared collation, or BINARY, in ascending order. */
  lemma {:induction false} OthersFields(pk: seq<Part>, aCol: seq<Column>, n: nat)
    requires n <= |aCol|
    ensures forall k :: 0 <= k < |Others(pk, aCol, n)| ==> IsPlain(Others(pk, aCol, n)[k], aCol)
  {
    if n > 0 { OthersFields(pk, aCol, n - 1); }
  }

  predicate IsPlain(q: Part, aCol: seq<Column>)
  {
    && 0 <= q.col < |aCol| && !aCol[q.col].virt && q.sort == 0
    && (if aCol[q.col].coll == "" then q.coll == "BINARY" else q.coll == aCol[q.col].coll)
  }

  lemma HasColLast(s: seq<Part>, y: Part, c: int)
    ensures HasCol(s + [y], c) <==> HasCol(s, c) || y.col == c
  {
    var t := s + [y];
    if HasCol(s, c) {
      var i :| 0 <= i < |s| && s[i].col == c;
      assert t[i].col == c;
    }
    if y.col == c { assert t[|s|].col == c; }
  }

  /** The primary-key index covers the table: every non-virtual column is in its key or,
      exactly once, after it; virtual columns are only there if the key names them. */
  lemma Covering(pk: seq<Part>, aCol: seq<Column>, c: nat)
    requires c < |aCol|
    ensures HasCol(pk + Others(pk, aCol, |aCol|), c) <==> HasCol(pk, c) || !aCol[c].virt
  {
    var o := Others(pk, aCol, |aCol|);
    OthersMember(pk, aCol, |aCol|, c);
    if HasCol(pk, c) {
      var i :| 0 <= i < |pk| && pk[i].col == c;
      assert (pk + o)[i].col == c;
    }
    if HasCol(o, c) {
      var i :| 0 <= i < |o| && o[i].col == c;
      assert (pk + o)[|pk| + i].col == c;
    }
  }

  function NNVCol(aCol: seq<Column>, n: nat): nat
    requires n <= |aCol|
  {
    if n == 0 then 0 else NNVCol(aCol, n - 1) + (if aCol[n - 1].virt then 0 else 1)
  }

  /** Columns among the first n that the primary key names. */
  ghost function Named(pk: seq<Part>, n: nat): set<int>
  {
    set c | 0 <= c < n && HasCol(pk, c)
  }

  lemma {:induction false} Accounted(pk: seq<Part>, aCol: seq<Column>, n: nat)
    requires n <= |aCol|
    ensures NNVCol(aCol, n) <= |Named(pk, n)| + |Others(pk, aCol, n)|
  {
    if n > 0 {
      Accounted(pk, aCol, n - 1);
      if HasCol(pk, n - 1) {
        assert Named(pk, n) == Named(pk, n - 1) + {n - 1};
      } else {
        assert Named(pk, n) == Named(pk, n - 1);
      }
    } else {
      assert Named(pk, 0) == {};
    }
  }

  lemma {:induction false} NamedBound(pk: seq<Part>, n: nat)
    ensures |Named(pk, n)| <= |pk|
  {
    if pk == [] {
      assert Named(pk, n) == {};
    } else {
      var rest := pk[..|pk| - 1];
      var last := pk[|pk| - 1];
      NamedBound(rest, n);
      assert pk == rest + [last];
      forall c | c in Named(pk, n) ensures c in Named(rest, n) + {last.col} {
        HasColLast(rest, last, c);
      }
      SubsetSize(Named(pk, n), Named(rest, n) + {last.col});
    }
  }

  /** The covering index is at least as wide as the stored record. */
  lemma WideEnough(pk: seq<Part>, aCol: seq<Column>)
    ensures NNVCol(aCol, |aCol|) <= |pk + Others(pk, aCol, |aCol|)|
  {
    Accounted(pk, aCol, |aCol|);
    NamedBound(pk, |aCol|);
  }
}
