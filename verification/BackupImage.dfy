// Database images as byte sequences, and where pages of two different sizes fall in them.
module BackupImage {
  import opened Arith

  const PENDING: nat := 0x4000_0000

  predicate IsPageSize(p: nat)
  {
    p == 512 || p == 1024 || p == 2048 || p == 4096 ||
    p == 8192 || p == 16384 || p == 32768 || p == 65536
  }

  /** The powers of two from 512 to 65536. */
  lemma PageSizesAre(p: nat)
    ensures IsPageSize(p) <==> exists k :: 9 <= k <= 16 && p == Power2(k)
  {
    Powers();
    hide Power2;
    if IsPageSize(p) {
      var k := if p == 512 then 9 else if p == 1024 then 10 else if p == 2048 then 11 else if p == 4096 then 12
               else if p == 8192 then 13 else if p == 16384 then 14 else if p == 32768 then 15 else 16;
      assert p == Power2(k);
    }
  }

  lemma Powers()
    ensures Power2(9) == 512 && Power2(10) == 1024 && Power2(11) == 2048 && Power2(12) == 4096
    ensures Power2(13) == 8192 && Power2(14) == 16384 && Power2(15) == 32768 && Power2(16) == 65536
  {
    assert Power2(4) == 16;
    assert Power2(8) == 256;
    assert Power2(12) == 4096;
  }

  function Power2(k: nat): nat
  {
    if k == 0 then 1 else 2 * Power2(k - 1)
  }

  /** The lock page of the common page sizes: the one that starts at 1 gigabyte. */
  lemma LockPages()
    ensures LockPage(512) == 2097153 && LockPage(4096) == 262145 && LockPage(65536) == 16385
    ensures PageStart(LockPage(4096), 4096) == 1024 * 1024 * 1024
  {
  }

  lemma PageSizesDivide(p: nat, q: nat)
    requires IsPageSize(p) && IsPageSize(q) && p <= q
    ensures q % p == 0 && PENDING % p == 0
  {
    if
    case p == 512 =>
    case p == 1024 =>
    case p == 2048 =>
    case p == 4096 =>
    case p == 8192 =>
    case p == 16384 =>
    case p == 32768 =>
    case p == 65536 =>
  }

  /** Byte offset x lies on the page that holds the lock byte, for page size p. */
  predicate OnLockPage(x: nat, p: nat)
    requires p > 0
  {
    x / p == PENDING / p
  }

  function LockPage(p: nat): nat
    requires p > 0
  {
    PENDING / p + 1
  }

  /** Offset of the first byte of page pg. */
  function PageStart(pg: nat, p: nat): nat
    requires pg > 0
  {
    (pg - 1) * p
  }

  // ---- images ----

  /** Byte x of an image; pages beyond the end read as zero. */
  function At(d: seq<Byte>, x: nat): Byte
  {
    if x < |d| then d[x] else 0
  }

  function Pad(d: seq<Byte>, n: nat): (r: seq<Byte>)
    ensures |r| == if |d| < n then n else |d|
    ensures forall x :: 0 <= x < |r| ==> r[x] == At(d, x)
  {
    if |d| < n then d + seq(n - |d|, i => 0) else d
  }

  /** Overwrite part of the image, first extending it to `size` bytes. */
  function WriteAt(d: seq<Byte>, size: nat, off: nat, b: seq<Byte>): (r: seq<Byte>)
    requires off + |b| <= size
    ensures |r| == if |d| < size then size else |d|
    ensures forall x: nat {:trigger At(r, x)} ::
              At(r, x) == if off <= x < off + |b| then b[x - off] else At(d, x)
  {
    var e := Pad(d, size);
    e[..off] + b + e[off + |b|..]
  }

  /** Big-endian byte k of a 4-byte header field. */
  function Byte4(v: nat, k: nat): Byte
    requires k < 4
  {
    (if k == 0 then v / 0x100_0000 else if k == 1 then v / 0x1_0000 else if k == 2 then v / 0x100 else v) % 256
  }

  function Put4(v: nat): seq<Byte>
  {
    [Byte4(v, 0), Byte4(v, 1), Byte4(v, 2), Byte4(v, 3)]
  }

  /** A 4-byte header field. */
  function Big4(d: seq<Byte>, off: nat): nat
    requires off + 4 <= |d|
  {
    var a: nat, b: nat, c: nat := d[off], d[off + 1], d[off + 2];
    a * 0x100_0000 + b * 0x1_0000 + c * 0x100 + d[off + 3]
  }

  lemma DivTwice(v: nat, d: nat)
    requires d > 0
    ensures v / (d * 256) == v / d / 256
  {
    var q, r := v / d / 256, v / d % 256;
    DivBounds(v, d);
    DivBounds(v / d, 256);
    assert v / d == q * 256 + r;
    assert (q * 256 + r) * d == q * (256 * d) + r * d;
    MulMonotone(r + 1, 256, d);
    assert (r + 1) * d == r * d + d;
    assert d * 256 == 256 * d;
    DivUnique(v, d * 256, q, r * d + v % d);
  }

  lemma Put4Reads(v: nat)
    ensures |Put4(v)| == 4 && Big4(Put4(v), 0) == v % U32
  {
    DivTwice(v, 0x100);
    DivTwice(v, 0x1_0000);
    DivTwice(v, 0x100_0000);
    var a, b, c := v / 0x100_0000, v / 0x1_0000, v / 0x100;
    FourDigits(v, c, b, a, a / 256);
  }

  lemma FourDigits(v: nat, c: nat, b: nat, a: nat, q: nat)
    requires c == v / 256 && b == c / 256 && a == b / 256 && q == a / 256
    ensures a % 256 * 0x100_0000 + b % 256 * 0x1_0000 + c % 256 * 0x100 + v % 256 == v % U32
  {
    assert v == 256 * c + v % 256 && c == 256 * b + c % 256 && b == 256 * a + b % 256 && a == 256 * q + a % 256;
    DivUnique(v, U32, q, a % 256 * 0x100_0000 + b % 256 * 0x1_0000 + c % 256 * 0x100 + v % 256);
  }

  // ---- pages of two sizes ----

  lemma MultipleOf(k: nat, p: nat)
    requires p > 0
    ensures k * p % p == 0 && k * p / p == k
  {
    DivUnique(k * p, p, k, 0);
  }

  /** A multiple of p is a multiple of every divisor of p. */
  lemma MultipleDown(x: nat, p: nat, q: nat)
    requires p > 0 && q > 0 && x % p == 0 && p % q == 0
    ensures x % q == 0
  {
    var i, j := x / p, p / q;
    DivBounds(x, p);
    DivBounds(p, q);
    assert x == i * (j * q) == (i * j) * q;
    MultipleOf(i * j, q);
  }

  /** A small page lies wholly inside one large page. */
  lemma SmallInLarge(x: nat, s: nat, l: nat)
    requires s > 0 && l > 0 && x % s == 0 && l % s == 0
    ensures x % l + s <= l
  {
    var r := x % l;
    DivBounds(x, l);
    var j := l / s;
    DivBounds(l, s);
    // r is a multiple of s below l
    var q := x / l;
    var i := x / s;
    DivBounds(x, s);
    assert x == i * s && l == j * s;
    assert q * l == q * (j * s) == (q * j) * s;
    assert r == i * s - (q * j) * s == (i - q * j) * s;
    var m := i - q * j;
    if m >= j { MulMonotone(j, m, s); }
    MulMonotone(m + 1, j, s);
    assert (m + 1) * s == m * s + s;
  }

  lemma SamePage(x: nat, y: nat, p: nat)
    requires p > 0 && x / p * p <= y < x / p * p + p
    ensures y / p == x / p
  {
    DivUnique(y, p, x / p, y - x / p * p);
  }

  lemma OnPage(x: nat, pg: nat, p: nat)
    requires p > 0 && pg > 0
    ensures PageStart(pg, p) <= x < PageStart(pg, p) + p <==> x / p + 1 == pg
  {
    if PageStart(pg, p) <= x < PageStart(pg, p) + p {
      DivUnique(x, p, pg - 1, x - PageStart(pg, p));
    }
    DivBounds(x, p);
  }

  /** The lock page starts exactly at the lock byte. */
  lemma LockPageRange(x: nat, p: nat)
    requires IsPageSize(p)
    ensures OnLockPage(x, p) <==> PENDING <= x < PENDING + p
  {
    PageSizesDivide(p, p);
    DivBounds(PENDING, p);
    DivBounds(x, p);
    if PENDING <= x < PENDING + p { SamePage(PENDING, x, p); }
  }

  /** The next multiple of p does not overshoot a larger one. */
  lemma NextMultiple(x: nat, y: nat, p: nat)
    requires p > 0 && x % p == 0 && y % p == 0
    ensures (x + p) % p == 0
    ensures x < y ==> x + p <= y
  {
    DivBounds(x, p);
    DivBounds(y, p);
    MultipleOf(x / p + 1, p);
    assert (x / p + 1) * p == x + p;
    if x < y {
      if y / p < x / p + 1 { MulMonotone(y / p, x / p, p); }
      MulMonotone(x / p + 1, y / p, p);
    }
  }

  lemma SumOfMultiples(x: nat, y: nat, p: nat)
    requires p > 0 && x % p == 0 && y % p == 0
    ensures (x + y) % p == 0
  {
    DivBounds(x, p);
    DivBounds(y, p);
    assert (x / p + y / p) * p == x + y;
    MultipleOf(x / p + y / p, p);
  }
}
