// The affinity of a column from its declared type.
module Affinity {
  import opened Arith

  datatype Aff = Blob | Text | Numeric | Integer | Real

  /** sqlite3UpperToLower[] */
  function ToLower(x: Byte): Byte
  {
    if 65 <= x <= 90 then x + 32 else x
  }

  const CHAR: seq<Byte> := [99, 104, 97, 114]
  const CLOB: seq<Byte> := [99, 108, 111, 98]
  const TEXT: seq<Byte> := [116, 101, 120, 116]
  const BLOB: seq<Byte> := [98, 108, 111, 98]
  const REAL: seq<Byte> := [114, 101, 97, 108]
  const FLOA: seq<Byte> := [102, 108, 111, 97]
  const DOUB: seq<Byte> := [100, 111, 117, 98]
  const INT: seq<Byte> := [105, 110, 116]

  function Codes(s: string): (b: seq<Byte>)
    requires forall i :: 0 <= i < |s| ==> s[i] as int < 256
    ensures |b| == |s| && forall i :: 0 <= i < |s| ==> b[i] == s[i] as int
  {
    seq(|s|, i requires 0 <= i < |s| => s[i] as int)
  }

  /** The words looked for, as text. */
  lemma Words()
    ensures CHAR == Codes("char") && CLOB == Codes("clob") && TEXT == Codes("text") && BLOB == Codes("blob")
    ensures REAL == Codes("real") && FLOA == Codes("floa") && DOUB == Codes("doub") && INT == Codes("int")
  {
  }

  /** Capital letters become small ones and nothing else changes. */
  lemma LowerMeans(c: char)
    requires c as int < 256
    ensures ToLower(c as int) == if 'A' <= c <= 'Z' then (c - 'A' + 'a') as int else c as int
  {
  }

  /** The word, in any case, ends at position i. */
  ghost predicate EndsAt(s: seq<Byte>, i: nat, word: seq<Byte>)
  {
    |word| <= i <= |s| && forall k :: 0 <= k < |word| ==> ToLower(s[i - |word| + k]) == word[k]
  }

  /** The word occurs, in any case, within the first n bytes. */
  ghost predicate Contains(s: seq<Byte>, n: nat, word: seq<Byte>)
  {
    exists i :: 0 <= i <= n && EndsAt(s, i, word)
  }

  /** The documented rules, but for INT: the first that applies decides. */
  ghost function Ranked(s: seq<Byte>, n: nat): Aff
  {
    if Contains(s, n, CHAR) || Contains(s, n, CLOB) || Contains(s, n, TEXT) then Text
    else if Contains(s, n, BLOB) then Blob
    else if Contains(s, n, REAL) || Contains(s, n, FLOA) || Contains(s, n, DOUB) then Real
    else Numeric
  }

  /** The documented rules for the affinity of a declared type. */
  ghost function Rules(s: seq<Byte>): Aff
  {
    if Contains(s, |s|, INT) then Integer else Ranked(s, |s|)
  }

  lemma MissingLetter(s: seq<Byte>, word: seq<Byte>, k: nat)
    requires k < |word| && forall i :: 0 <= i < |s| ==> ToLower(s[i]) != word[k]
    ensures !Contains(s, |s|, word)
  {
    forall i | 0 <= i <= |s| ensures !EndsAt(s, i, word) {
      if |word| <= i { assert ToLower(s[i - |word| + k]) != word[k]; }
    }
  }

  /** The order of the rules: INT before all, then the text words, BLOB, and the real words. */
  lemma RuleOrder()
    ensures Rules(Codes("TEXT POINT")) == Integer
    ensures Rules(Codes("blob char")) == Text
    ensures Rules(Codes("Real Blob")) == Blob
    ensures Rules(Codes("DOUBLE")) == Real
  {
    EndsInInt();
    EndsInChar();
    EndsInBlob();
    EndsInReal();
  }

  lemma EndsInInt()
    ensures Rules(Codes("TEXT POINT")) == Integer
  {
    assert EndsAt(Codes("TEXT POINT"), 10, INT);
  }

  lemma EndsInChar()
    ensures Rules(Codes("blob char")) == Text
  {
    var s := Codes("blob char");
    MissingLetter(s, INT, 0);
    assert EndsAt(s, 9, CHAR);
  }

  lemma EndsInBlob()
    ensures Rules(Codes("Real Blob")) == Blob
  {
    var s := Codes("Real Blob");
    MissingLetter(s, INT, 0);
    MissingLetter(s, CHAR, 0);
    MissingLetter(s, CLOB, 0);
    MissingLetter(s, TEXT, 0);
    assert EndsAt(s, 9, BLOB);
  }

  lemma EndsInReal()
    ensures Rules(Codes("DOUBLE")) == Real
  {
    var s := Codes("DOUBLE");
    MissingLetter(s, INT, 0);
    MissingLetter(s, CHAR, 0);
    MissingLetter(s, CLOB, 0);
    MissingLetter(s, TEXT, 0);
    NoBlob(s);
    assert EndsAt(s, 4, DOUB);
  }

  lemma NoBlob(s: seq<Byte>)
    requires s == Codes("DOUBLE")
    ensures !Contains(s, |s|, BLOB)
  {
    forall i | 0 <= i <= |s| ensures !EndsAt(s, i, BLOB) {
      if 4 <= i { assert ToLower(s[i - 4 + 0]) != BLOB[0]; }
    }
  }

  // ---- the rolling hash ----

  /** The byte k places before position i, lower-cased; nothing before the start. */
  function Digit(s: seq<Byte>, i: nat, k: nat): Byte
    requires i <= |s|
  {
    if k < i then ToLower(s[i - 1 - k]) else 0
  }

  /** Four bytes shifted into one number. */
  function Join(a: int, b: int, c: int, d: int): int
  {
    a * 0x100_0000 + b * 0x1_0000 + c * 0x100 + d
  }

  /** What the 32-bit hash holds after i bytes: the last four. */
  function Window(s: seq<Byte>, i: nat): nat
    requires i <= |s|
  {
    Join(Digit(s, i, 3), Digit(s, i, 2), Digit(s, i, 1), Digit(s, i, 0))
  }

  function Pack(word: seq<Byte>): nat
    requires |word| == 4
  {
    Join(word[0], word[1], word[2], word[3])
  }

  const H_CHAR: int := Pack(CHAR)
  const H_CLOB: int := Pack(CLOB)
  const H_TEXT: int := Pack(TEXT)
  const H_BLOB: int := Pack(BLOB)
  const H_REAL: int := Pack(REAL)
  const H_FLOA: int := Pack(FLOA)
  const H_DOUB: int := Pack(DOUB)
  const H_INT: int := Join(0, INT[0], INT[1], INT[2])

  /** The 32-bit hash after one more byte. */
  function Rolled(h: nat, x: Byte): nat
  {
    (h * 256 + ToLower(x)) % 0x1_0000_0000
  }

  lemma Roll(s: seq<Byte>, i: nat)
    requires i < |s|
    ensures Rolled(Window(s, i), s[i]) == Window(s, i + 1)
  {
    assert Window(s, i) * 256 + ToLower(s[i]) == Digit(s, i, 3) * 0x1_0000_0000 + Window(s, i + 1);
    assert Window(s, i + 1) < 0x1_0000_0000;
  }

  /** The hash equals a packed word exactly if the word ends here. */
  lemma HashFinds(s: seq<Byte>, i: nat, word: seq<Byte>)
    requires i <= |s| && |word| == 4 && forall k :: 0 <= k < 4 ==> word[k] > 0
    ensures Window(s, i) == Pack(word) <==> EndsAt(s, i, word)
  {
    assert Window(s, i) == Pack(word) <==> forall k :: 0 <= k < 4 ==> Digit(s, i, 3 - k) == word[k] by {
      FourDigits(Digit(s, i, 3), Digit(s, i, 2), Digit(s, i, 1), Digit(s, i, 0), word[0], word[1], word[2], word[3]);
      if Digit(s, i, 3) == word[0] && Digit(s, i, 2) == word[1] && Digit(s, i, 1) == word[2]
         && Digit(s, i, 0) == word[3] {
        forall k | 0 <= k < 4 ensures Digit(s, i, 3 - k) == word[k] {}
      }
    }
    if forall k :: 0 <= k < 4 ==> Digit(s, i, 3 - k) == word[k] {
      assert Digit(s, i, 3 - 0) == word[0];
      forall k | 0 <= k < 4 ensures ToLower(s[i - 4 + k]) == word[k] { assert Digit(s, i, 3 - k) == word[k]; }
    }
    if EndsAt(s, i, word) {
      forall k | 0 <= k < 4 ensures Digit(s, i, 3 - k) == word[k] { assert ToLower(s[i - 4 + k]) == word[k]; }
    }
  }

  lemma FourDigits(a: Byte, b: Byte, c: Byte, d: Byte, a': Byte, b': Byte, c': Byte, d': Byte)
    ensures Join(a, b, c, d) == Join(a', b', c', d')
       <==> a == a' && b == b' && c == c' && d == d'
  {
    LastDigit(a * 0x1_0000 + b * 0x100 + c, d, a' * 0x1_0000 + b' * 0x100 + c', d');
    LastDigit(a * 0x100 + b, c, a' * 0x100 + b', c');
    LastDigit(a, b, a', b');
  }

  lemma LastDigit(x: int, d: Byte, x': int, d': Byte)
    ensures x * 0x100 + d == x' * 0x100 + d' <==> x == x' && d == d'
  {
  }

  lemma LowThree(a: Byte, b: Byte, c: Byte, d: Byte)
    ensures Join(a, b, c, d) % 0x100_0000 == Join(0, b, c, d)
  {
    var low := Join(0, b, c, d);
    assert Join(a, b, c, d) == a * 0x100_0000 + low && 0 <= low < 0x100_0000;
  }

  /** The low three bytes of the hash find INT. */
  lemma HashFindsInt(s: seq<Byte>, i: nat)
    requires i <= |s|
    ensures Window(s, i) % 0x100_0000 == H_INT <==> EndsAt(s, i, INT)
  {
    LowThree(Digit(s, i, 3), Digit(s, i, 2), Digit(s, i, 1), Digit(s, i, 0));
    hide Join;
    FourDigits(0, Digit(s, i, 2), Digit(s, i, 1), Digit(s, i, 0), 0, INT[0], INT[1], INT[2]);
    if Digit(s, i, 2) == INT[0] && Digit(s, i, 1) == INT[1] && Digit(s, i, 0) == INT[2] {
      assert i >= 3;
      forall k | 0 <= k < 3 ensures ToLower(s[i - 3 + k]) == INT[k] {
        assert k == 0 || k == 1 || k == 2;
      }
    }
    if EndsAt(s, i, INT) {
      assert ToLower(s[i - 3 + 0]) == INT[0] && ToLower(s[i - 3 + 1]) == INT[1] && ToLower(s[i - 3 + 2]) == INT[2];
    }
  }

  lemma ContainsStep(s: seq<Byte>, n: nat, word: seq<Byte>)
    ensures Contains(s, n + 1, word) <==> Contains(s, n, word) || EndsAt(s, n + 1, word)
  {
  }

  lemma StartsPlain(s: seq<Byte>)
    ensures Ranked(s, 0) == Numeric && !Contains(s, 0, INT) && Window(s, 0) == 0
  {
  }

  /** One byte further, the ranking only changes for a word that ends there. */
  lemma RankedStep(s: seq<Byte>, n: nat)
    ensures Ranked(s, n) != Integer
    ensures Ranked(s, n + 1)
         == if EndsAt(s, n + 1, CHAR) || EndsAt(s, n + 1, CLOB) || EndsAt(s, n + 1, TEXT) then Text
            else if EndsAt(s, n + 1, BLOB) && (Ranked(s, n) == Numeric || Ranked(s, n) == Real) then Blob
            else if (EndsAt(s, n + 1, REAL) || EndsAt(s, n + 1, FLOA) || EndsAt(s, n + 1, DOUB))
                    && Ranked(s, n) == Numeric then Real
            else Ranked(s, n)
  {
    hide EndsAt, Contains;
    ContainsStep(s, n, CHAR);
    ContainsStep(s, n, CLOB);
    ContainsStep(s, n, TEXT);
    ContainsStep(s, n, BLOB);
    ContainsStep(s, n, REAL);
    ContainsStep(s, n, FLOA);
    ContainsStep(s, n, DOUB);
  }

  lemma {:induction false} IntStays(s: seq<Byte>, i: nat)
    requires i <= |s| && EndsAt(s, i, INT)
    ensures Contains(s, |s|, INT)
  {
  }

  lemma Decided(s: seq<Byte>)
    ensures Rules(s) == if Contains(s, |s|, INT) then Integer else Ranked(s, |s|)
  {
  }

  /** sqlite3AffinityType(): one pass with a rolling hash gives what the rules say. */
  method AffinityType(zIn: seq<Byte>) returns (aff: Aff)
    ensures aff == Rules(zIn)
  {
    hide *;
    Decided(zIn);
    StartsPlain(zIn);
    var h: nat := 0;
    aff := Numeric;
    var i := 0;
    while i < |zIn|
      invariant 0 <= i <= |zIn| && h == Window(zIn, i)
      invariant aff == Ranked(zIn, i)
      invariant !Contains(zIn, i, INT)
    {
      h := Rolled(h, zIn[i]);
      i := i + 1;
      aff := NextAff(zIn, i, aff, h);
      if aff == Integer { return; }
    }
  }

  /** The tests made after each byte. */
  method NextAff(ghost s: seq<Byte>, ghost i: nat, aff0: Aff, h: nat) returns (aff: Aff)
    requires 0 < i <= |s| && aff0 == Ranked(s, i - 1) && !Contains(s, i - 1, INT)
    requires h == Rolled(Window(s, i - 1), s[i - 1])
    ensures h == Window(s, i)
    ensures if aff == Integer then Contains(s, |s|, INT) else aff == Ranked(s, i) && !Contains(s, i, INT)
  {
    hide *;
    HashTests(s, i);
    RankedStep(s, i - 1);
    ContainsStep(s, i - 1, INT);
    aff := aff0;
    if h == H_CHAR {
      aff := Text;
    } else if h == H_CLOB {
      aff := Text;
    } else if h == H_TEXT {
      aff := Text;
    } else if h == H_BLOB && (aff == Numeric || aff == Real) {
      aff := Blob;
    } else if h == H_REAL && aff == Numeric {
      aff := Real;
    } else if h == H_FLOA && aff == Numeric {
      aff := Real;
    } else if h == H_DOUB && aff == Numeric {
      aff := Real;
    } else if h % 0x100_0000 == H_INT {
      IntStays(s, i);
      aff := Integer;
    }
  }

  /** What each test of the hash means; INT excludes the other words. */
  lemma HashTests(s: seq<Byte>, i: nat)
    requires 0 < i <= |s|
    ensures Rolled(Window(s, i - 1), s[i - 1]) == Window(s, i)
    ensures Window(s, i) == H_CHAR <==> EndsAt(s, i, CHAR)
    ensures Window(s, i) == H_CLOB <==> EndsAt(s, i, CLOB)
    ensures Window(s, i) == H_TEXT <==> EndsAt(s, i, TEXT)
    ensures Window(s, i) == H_BLOB <==> EndsAt(s, i, BLOB)
    ensures Window(s, i) == H_REAL <==> EndsAt(s, i, REAL)
    ensures Window(s, i) == H_FLOA <==> EndsAt(s, i, FLOA)
    ensures Window(s, i) == H_DOUB <==> EndsAt(s, i, DOUB)
    ensures Window(s, i) % 0x100_0000 == H_INT <==> EndsAt(s, i, INT)
    ensures EndsAt(s, i, INT) ==>
      !EndsAt(s, i, CHAR) && !EndsAt(s, i, CLOB) && !EndsAt(s, i, TEXT) && !EndsAt(s, i, BLOB)
      && !EndsAt(s, i, REAL) && !EndsAt(s, i, FLOA) && !EndsAt(s, i, DOUB)
  {
    Roll(s, i - 1);
    HashFinds(s, i, CHAR);
    HashFinds(s, i, CLOB);
    HashFinds(s, i, TEXT);
    HashFinds(s, i, BLOB);
    HashFinds(s, i, REAL);
    HashFinds(s, i, FLOA);
    HashFinds(s, i, DOUB);
    HashFindsInt(s, i);
    IntIsLast(s, i);
  }

  lemma IntIsLast(s: seq<Byte>, i: nat)
    requires i <= |s|
    ensures EndsAt(s, i, INT) ==>
      !EndsAt(s, i, CHAR) && !EndsAt(s, i, CLOB) && !EndsAt(s, i, TEXT) && !EndsAt(s, i, BLOB)
      && !EndsAt(s, i, REAL) && !EndsAt(s, i, FLOA) && !EndsAt(s, i, DOUB)
  {
    if EndsAt(s, i, INT) {
      IntExcludes(s, i, CHAR);
      IntExcludes(s, i, CLOB);
      IntExcludes(s, i, TEXT);
      IntExcludes(s, i, BLOB);
      IntExcludes(s, i, REAL);
      IntExcludes(s, i, FLOA);
      IntExcludes(s, i, DOUB);
    }
  }

  lemma IntExcludes(s: seq<Byte>, i: nat, word: seq<Byte>)
    requires EndsAt(s, i, INT) && |word| == 4 && (word[3] != INT[2] || word[2] != INT[1])
    ensures !EndsAt(s, i, word)
  {
    LastBytes(s, i, INT);
    if EndsAt(s, i, word) { LastBytes(s, i, word); }
  }

  lemma LastBytes(s: seq<Byte>, i: nat, word: seq<Byte>)
    requires EndsAt(s, i, word) && |word| >= 2
    ensures ToLower(s[i - 1]) == word[|word| - 1] && ToLower(s[i - 2]) == word[|word| - 2]
  {
    assert ToLower(s[i - |word| + (|word| - 1)]) == word[|word| - 1];
    assert ToLower(s[i - |word| + (|word| - 2)]) == word[|word| - 2];
  }
}
