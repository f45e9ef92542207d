// The count vectors of the statistics tables as text.
module StatText {
  import opened Arith
  import opened RunCounts
  import opened Stat4
  import opened Stat4Accum

  const U64 := 0x1_0000_0000_0000_0000

  // ---- printing ----

  function Digit(d: nat): char
    requires d < 10
  {
    '0' + d as char
  }

  /** %llu */
  function Decimal(n: nat): (s: string)
    ensures s != [] && '0' <= s[0] <= '9'
  {
    if n < 10 then [Digit(n)] else Decimal(n / 10) + [Digit(n % 10)]
  }

  /** Digits only, and no zero in front. */
  lemma {:induction false} DecimalShape(n: nat)
    ensures forall i :: 0 <= i < |Decimal(n)| ==> '0' <= Decimal(n)[i] <= '9'
    ensures if n == 0 then Decimal(n) == "0" else Decimal(n)[0] != '0'
  {
    if n >= 10 { DecimalShape(n / 10); }
  }

  /** The numbers in decimal, separated by single spaces. */
  function Print(ns: seq<nat>): string
  {
    if ns == [] then "" else if |ns| == 1 then Decimal(ns[0]) else Print(ns[..|ns| - 1]) + " " + Decimal(ns[|ns| - 1])
  }

  /** statGet() for the counts of a sample: a space after each number, and the last one
      taken off again. */
  method PrintCounts(aCnt: seq<nat>) returns (text: string)
    ensures text == Print(aCnt)
  {
    text := "";
    var i := 0;
    while i < |aCnt|
      invariant 0 <= i <= |aCnt| && text == if i == 0 then "" else Print(aCnt[..i]) + " "
    {
      assert aCnt[..i + 1][..i] == aCnt[..i];
      text := text + Decimal(aCnt[i]) + " ";
      i := i + 1;
    }
    assert aCnt[..|aCnt|] == aCnt;
    if |text| > 0 { text := text[..|text| - 1]; }
  }

  // ---- reading ----

  predicate IsDigit(c: char) { '0' <= c <= '9' }

  /** The number at the front of the text, in 64-bit arithmetic, and the rest. */
  function ReadNumber(z: string, v: nat): (nat, string)
  {
    if z == [] || !IsDigit(z[0]) then (v, z)
    else ReadNumber(z[1..], (v * 10 + (z[0] - '0') as nat) % U64)
  }

  function SkipSpace(z: string): string
  {
    if z != [] && z[0] == ' ' then z[1..] else z
  }

  /** The first nOut numbers of the text; fewer if it ends before. */
  function Decode(z: string, nOut: nat): (v: seq<nat>)
    ensures |v| <= nOut
    decreases nOut
  {
    if z == [] || nOut == 0 then []
    else
      var r := ReadNumber(z, 0);
      [r.0] + Decode(SkipSpace(r.1), nOut - 1)
  }

  lemma DecodeStep(z: string, nOut: nat)
    requires z != [] && nOut > 0
    ensures var r := ReadNumber(z, 0);
            Decode(z, nOut) == [r.0] + Decode(SkipSpace(r.1), nOut - 1)
  {
  }

  /** decodeIntArray() into aOut; entries beyond the end of the text keep their values. */
  method DecodeIntArray(zIntArray: string, nOut: nat, aOut: array<nat>)
    requires nOut <= aOut.Length
    modifies aOut
    ensures var v := Decode(zIntArray, nOut);
            aOut[..|v|] == v && forall k :: |v| <= k < aOut.Length ==> aOut[k] == old(aOut[k])
  {
    ghost var v := Decode(zIntArray, nOut);
    hide Decode, ReadNumber;
    var pos: nat := 0;
    var i: nat := 0;
    assert zIntArray[0..] == zIntArray && v[0..] == v;
    while pos < |zIntArray| && i < nOut
      invariant pos <= |zIntArray| && i <= nOut && i <= |v|
      invariant v[i..] == Decode(zIntArray[pos..], nOut - i)
      invariant forall k :: 0 <= k < i ==> aOut[k] == v[k]
      invariant forall k :: i <= k < aOut.Length ==> aOut[k] == old(aOut[k])
      decreases nOut - i
    {
      var val;
      val, pos := ReadField(zIntArray, pos, nOut - i);
      assert v[i] == v[i..][0] == val && v[i + 1..] == v[i..][1..];
      aOut[i] := val;
      i := i + 1;
    }
    DecodeEnd(zIntArray[pos..], nOut - i);
  }

  /** One number and the space behind it. */
  method ReadField(z: string, pos0: nat, ghost n: nat) returns (val: nat, pos: nat)
    requires pos0 < |z| && n > 0
    ensures pos <= |z| && Decode(z[pos0..], n) == [val] + Decode(z[pos..], n - 1)
  {
    val, pos := ReadDigits(z, pos0);
    DecodeStep(z[pos0..], n);
    assert SkipSpace(z[pos..]) == z[if pos < |z| && z[pos] == ' ' then pos + 1 else pos..];
    if pos < |z| && z[pos] == ' ' { pos := pos + 1; }
  }

  lemma DecodeEnd(z: string, nOut: nat)
    requires z == [] || nOut == 0
    ensures Decode(z, nOut) == []
  {
  }

  method ReadDigits(z: string, pos0: nat) returns (v: nat, pos: nat)
    requires pos0 <= |z|
    ensures pos <= |z| && ReadNumber(z[pos0..], 0) == (v, z[pos..])
  {
    v, pos := 0, pos0;
    while pos < |z| && IsDigit(z[pos])
      invariant pos0 <= pos <= |z| && ReadNumber(z[pos0..], 0) == ReadNumber(z[pos..], v)
    {
      assert z[pos..][1..] == z[pos + 1..];
      v := (v * 10 + (z[pos] - '0') as nat) % U64;
      pos := pos + 1;
    }
  }

  // ---- round trip ----

  /** A number that does not fit in 64 bits is read modulo 2^64. */
  lemma {:induction false} ReadDecimal(n: nat, rest: string)
    ensures ReadNumber(Decimal(n) + rest, 0) == ReadNumber(rest, n % U64)
  {
    if n < 10 {
      OneDigit(n, rest, 0);
    } else {
      var tail := [Digit(n % 10)] + rest;
      assert Decimal(n) + rest == Decimal(n / 10) + tail;
      Recompose(n);
      hide ReadNumber, Decimal, Digit;
      ReadDecimal(n / 10, tail);
      OneDigit(n % 10, rest, n / 10 % U64);
    }
  }

  lemma Recompose(n: nat)
    ensures (n / 10 % U64 * 10 + n % 10) % U64 == n % U64
  {
    DivBounds(n, 10);
    DivBounds(n / 10, U64);
    var q, r := n / 10 / U64, n / 10 % U64;
    assert n == 10 * (q * U64 + r) + n % 10 == (10 * q) * U64 + (r * 10 + n % 10);
    SameModulo(10 * q, r * 10 + n % 10);
  }

  lemma SameModulo(k: nat, x: nat)
    ensures (k * U64 + x) % U64 == x % U64
  {
    DivBounds(x, U64);
    assert k * U64 + x == (k + x / U64) * U64 + x % U64;
    DivUnique(k * U64 + x, U64, k + x / U64, x % U64);
  }

  lemma Wraps(n: nat)
    ensures Decode(Decimal(n), 1) == [n % U64]
  {
    ReadDecimal(n, "");
    assert Decimal(n) + "" == Decimal(n);
    DecodeStep(Decimal(n), 1);
    DecodeEnd(SkipSpace(""), 0);
  }

  lemma OneDigit(d: nat, rest: string, v: nat)
    requires d < 10
    ensures ReadNumber([Digit(d)] + rest, v) == ReadNumber(rest, (v * 10 + d) % U64)
  {
    assert ([Digit(d)] + rest)[1..] == rest;
  }

  /** The numbers from i on as text. */
  function PrintFrom(ns: seq<nat>, i: nat): string
    requires i <= |ns|
    decreases |ns| - i
  {
    if i == |ns| then "" else if i == |ns| - 1 then Decimal(ns[i]) else Decimal(ns[i]) + " " + PrintFrom(ns, i + 1)
  }

  lemma {:induction false} PrintIsPrefix(ns: seq<nat>, i: nat)
    requires i < |ns|
    ensures Print(ns) == (if i == 0 then "" else Print(ns[..i]) + " ") + PrintFrom(ns, i)
    decreases |ns| - i
  {
    hide Print, PrintFrom, Decimal;
    PrintFromStep(ns, i);
    if i < |ns| - 1 {
      PrintIsPrefix(ns, i + 1);
      PrintStep(ns[..i + 1]);
      assert ns[..i + 1][..i] == ns[..i];
    } else {
      PrintStep(ns);
      assert ns[..|ns| - 1] == ns[..i];
    }
  }

  lemma PrintStep(ns: seq<nat>)
    requires ns != []
    ensures Print(ns) == (if |ns| == 1 then "" else Print(ns[..|ns| - 1]) + " ") + Decimal(ns[|ns| - 1])
  {
    hide Decimal;
    if |ns| == 1 { assert "" + Decimal(ns[0]) == Decimal(ns[0]); }
  }

  lemma {:induction false} DecodeFrom(ns: seq<nat>, i: nat)
    requires i <= |ns| && forall k :: 0 <= k < |ns| ==> ns[k] < U64
    ensures Decode(PrintFrom(ns, i), |ns| - i) == ns[i..]
    decreases |ns| - i
  {
    hide ReadNumber, Decimal, Decode, PrintFrom;
    if i < |ns| {
      var rest := Rest(ns, i);
      PrintFromStep(ns, i);
      ReadDecimal(ns[i], rest);
      RestEndsNumber(ns, i);
      DecodeStep(PrintFrom(ns, i), |ns| - i);
      DecodeFrom(ns, i + 1);
      assert ns[i..] == [ns[i]] + ns[i + 1..];
    } else {
      PrintFromEnd(ns);
      DecodeEnd("", 0);
    }
  }

  /** What follows the i-th number. */
  function Rest(ns: seq<nat>, i: nat): string
    requires i < |ns|
  {
    if i == |ns| - 1 then "" else " " + PrintFrom(ns, i + 1)
  }

  lemma PrintFromStep(ns: seq<nat>, i: nat)
    requires i < |ns|
    ensures PrintFrom(ns, i) == Decimal(ns[i]) + Rest(ns, i) && PrintFrom(ns, i) != []
  {
    hide Decimal;
    assert Decimal(ns[i]) + "" == Decimal(ns[i]);
  }

  lemma PrintFromEnd(ns: seq<nat>)
    ensures PrintFrom(ns, |ns|) == ""
  {
  }

  lemma RestEndsNumber(ns: seq<nat>, i: nat)
    requires i < |ns|
    ensures ReadNumber(Rest(ns, i), ns[i]) == (ns[i], Rest(ns, i))
    ensures SkipSpace(Rest(ns, i)) == PrintFrom(ns, i + 1)
  {
  }

  /** What statGet() prints, decodeIntArray() reads back. */
  lemma RoundTrip(ns: seq<nat>)
    requires forall k :: 0 <= k < |ns| ==> ns[k] < U64
    ensures Decode(Print(ns), |ns|) == ns
  {
    hide Decode, Decimal;
    if ns != [] {
      PrintIsPrefix(ns, 0);
      assert "" + PrintFrom(ns, 0) == PrintFrom(ns, 0);
    }
    DecodeFrom(ns, 0);
    assert ns[0..] == ns;
  }

  /** A second space counts as an empty number, which is 0. */
  lemma ExtraSpace(z: string, nOut: nat)
    requires nOut > 0
    ensures Decode(" " + z, nOut) == [0] + Decode(z, nOut - 1)
  {
    DecodeStep(" " + z, nOut);
    assert (" " + z)[1..] == z;
  }

  /** Anything but a digit or a space is never passed: what is left to read is 0. */
  lemma {:induction false} Stuck(z: string, nOut: nat)
    requires z != [] && !IsDigit(z[0]) && z[0] != ' '
    ensures |Decode(z, nOut)| == nOut && forall i :: 0 <= i < nOut ==> Decode(z, nOut)[i] == 0
  {
    if nOut > 0 {
      DecodeStep(z, nOut);
      Stuck(z, nOut - 1);
    }
  }

  // ---- the estimates of sqlite_stat1 ----

  /** Rows for each distinct prefix, rounded up, but 1 for anything up to 1.1. */
  function Estimate(nRow: nat, nDistinct: nat): nat
    requires nDistinct > 0
  {
    var iVal := Quotient(nRow + nDistinct - 1, nDistinct);
    if iVal == 2 && nRow * 10 <= nDistinct * 11 then 1 else iVal
  }

  lemma CeilBounds(n: nat, d: nat)
    requires d > 0
    ensures var q := Quotient(n + d - 1, d); q * d >= n && (q > 0 ==> (q - 1) * d < n)
  {
    var q := Quotient(n + d - 1, d);
    DivBounds(n + d - 1, d);
    if q > 0 { assert (q - 1) * d == q * d - d; }
  }

  /** The estimate is 1 exactly up to the ratio 1.1, and else the ratio rounded up. */
  lemma EstimateMeans(n: nat, d: nat)
    requires d > 0
    ensures var e := Estimate(n, d);
            && (e == 0 <==> n == 0)
            && (e == 1 <==> 0 < n && n * 10 <= d * 11)
            && (n * 10 > d * 11 ==> (e - 1) * d < n <= e * d)
  {
    CeilBounds(n, d);
    var q := Quotient(n + d - 1, d);
    if q > 2 { MulMonotone(2, q - 1, d); }
    if q == 0 { assert q * d == 0; }
    if q == 1 { assert q * d == d; }
  }

  lemma CeilAntitone(n: nat, d: nat, d': nat)
    requires 0 < d <= d'
    ensures Quotient(n + d' - 1, d') <= Quotient(n + d - 1, d)
  {
    CeilBounds(n, d);
    CeilBounds(n, d');
    var q, q' := Quotient(n + d - 1, d), Quotient(n + d' - 1, d');
    if q' > q {
      MulMonotone(q, q' - 1, d');
      MulUp(q, d, d');
    }
  }

  lemma MulUp(q: nat, d: nat, d': nat)
    requires d <= d'
    ensures q * d <= q * d'
  {
    MulMonotone(d, d', q);
  }

  /** More distinct prefixes, no larger an estimate. */
  lemma EstimateAntitone(n: nat, d: nat, d': nat)
    requires 0 < d <= d'
    ensures Estimate(n, d') <= Estimate(n, d)
  {
    CeilAntitone(n, d, d');
    EstimateMeans(n, d);
    EstimateMeans(n, d');
  }

  lemma {:induction false} RunsGrow(chg: seq<Step>, r: nat, j: nat)
    requires r < |chg|
    ensures RunsBefore(chg, r, j) <= RunsBefore(chg, r, j + 1)
  {
    if r > 0 { RunsGrow(chg, r - 1, j); }
  }

  /** Longer prefixes are at least as many. */
  lemma DistinctGrow(p: StatAccum, i: nat)
    requires p.Valid() && i + 1 < p.nCol
    ensures p.current.anDLt[i] <= p.current.anDLt[i + 1]
  {
    if p.nRow > 0 { RunsGrow(p.chg, |p.chg| - 1, i); }
  }

  /** The row count or, if rows were skipped, the estimated one; then an estimate for each
      key column. */
  function Stat1(nFirst: nat, nRow: nat, anDLt: seq<nat>, nKeyCol: nat): (v: seq<nat>)
    requires nKeyCol <= |anDLt|
    ensures |v| == nKeyCol + 1 && v[0] == nFirst
    ensures forall i :: 0 <= i < nKeyCol ==> v[i + 1] == Estimate(nRow, anDLt[i] + 1)
  {
    if nKeyCol == 0 then [nFirst]
    else Stat1(nFirst, nRow, anDLt, nKeyCol - 1) + [Estimate(nRow, anDLt[nKeyCol - 1] + 1)]
  }

  /** statGet() for sqlite_stat1. */
  method PrintStat1(p: StatAccum, nKeyCol: nat, nSkipAhead: nat) returns (text: string)
    requires nKeyCol <= |p.current.anDLt|
    ensures text == Print(Stat1(if nSkipAhead > 0 then p.nEst else p.nRow, p.nRow, p.current.anDLt, nKeyCol))
  {
    hide Decimal, Estimate, Print, Stat1;
    var nFirst := if nSkipAhead > 0 then p.nEst else p.nRow;
    text := Decimal(nFirst);
    var i := 0;
    PrintOne(nFirst);
    Stat1None(nFirst, p.nRow, p.current.anDLt);
    while i < nKeyCol
      invariant 0 <= i <= nKeyCol && text == Print(Stat1(nFirst, p.nRow, p.current.anDLt, i))
    {
      var nDistinct := p.current.anDLt[i] + 1;
      var iVal := EstimateOf(p.nRow, nDistinct);
      text := text + " " + Decimal(iVal);
      PrintOneMore(Stat1(nFirst, p.nRow, p.current.anDLt, i), iVal);
      Stat1Step(nFirst, p.nRow, p.current.anDLt, i);
      i := i + 1;
    }
  }

  lemma Stat1None(nFirst: nat, nRow: nat, anDLt: seq<nat>)
    ensures Stat1(nFirst, nRow, anDLt, 0) == [nFirst]
  {
  }

  lemma Stat1Step(nFirst: nat, nRow: nat, anDLt: seq<nat>, i: nat)
    requires i < |anDLt|
    ensures Stat1(nFirst, nRow, anDLt, i + 1) == Stat1(nFirst, nRow, anDLt, i) + [Estimate(nRow, anDLt[i] + 1)]
  {
  }

  method EstimateOf(nRow: nat, nDistinct: nat) returns (iVal: nat)
    requires nDistinct > 0
    ensures iVal == Estimate(nRow, nDistinct)
  {
    iVal := (nRow + nDistinct - 1) / nDistinct;
    if iVal == 2 && nRow * 10 <= nDistinct * 11 { iVal := 1; }
  }

  lemma PrintOne(x: nat)
    ensures Print([x]) == Decimal(x)
  {
  }

  lemma PrintOneMore(v: seq<nat>, x: nat)
    requires v != []
    ensures Print(v + [x]) == Print(v) + " " + Decimal(x)
  {
    assert (v + [x])[..|v|] == v;
  }

  lemma CurrentIsShaped(p: StatAccum)
    requires p.Valid()
    ensures |p.current.anDLt| == p.nCol
  {
  }

  /** The estimates never increase from one key column to the next. */
  lemma {:induction false} EstimatesFall(p: StatAccum, nFirst: nat, nKeyCol: nat, i: nat, k: nat)
    requires p.Valid() && nKeyCol <= p.nCol && 0 < i <= k <= nKeyCol
    ensures var v := Stat1(nFirst, p.nRow, p.current.anDLt, nKeyCol); v[k] <= v[i]
    decreases k
  {
    hide StatAccum.Valid, Estimate, Stat1;
    CurrentIsShaped(p);
    if i < k {
      EstimatesFall(p, nFirst, nKeyCol, i, k - 1);
      EstimateFalls(p, nFirst, nKeyCol, k);
    }
  }

  lemma EstimateFalls(p: StatAccum, nFirst: nat, nKeyCol: nat, k: nat)
    requires p.Valid() && nKeyCol <= p.nCol == |p.current.anDLt| && 1 < k <= nKeyCol
    ensures var v := Stat1(nFirst, p.nRow, p.current.anDLt, nKeyCol); v[k] <= v[k - 1]
  {
    hide StatAccum.Valid, Estimate, Stat1;
    var v := Stat1(nFirst, p.nRow, p.current.anDLt, nKeyCol);
    DistinctGrow(p, k - 2);
    EstimateAntitone(p.nRow, p.current.anDLt[k - 2] + 1, p.current.anDLt[k - 1] + 1);
    assert v[k - 2 + 1] == Estimate(p.nRow, p.current.anDLt[k - 2] + 1);
    assert v[k - 1 + 1] == Estimate(p.nRow, p.current.anDLt[k - 1] + 1);
  }
}
