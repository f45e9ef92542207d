// Online backup: page copies, updates pushed by the source pager, restarts, and the final
// commit, with source and destination page sizes that may differ.
module Backup {
  import opened Arith
  import opened BackupImage

  datatype Rc = Ok | Busy | Locked | Done | ReadOnly | Failed(code: nat)

  /** isFatalError() */
  predicate IsFatal(rc: Rc)
  {
    rc != Ok && rc != Busy && rc != Locked
  }

  // ---- one source page onto the destination ----

  function NewByte(x: nat, base: nat, data: seq<Byte>, bUpdate: bool, nSrcPage: nat): Byte
    requires base <= x < base + |data|
  {
    if !bUpdate && 28 <= x < 32 then Byte4(nSrcPage, x - 28) else data[x - base]
  }

  /** `e` is `d` with the bytes of [base, hi) replaced, except on the lock page. */
  ghost predicate Overlaid(d: seq<Byte>, e: seq<Byte>, base: nat, hi: nat, data: seq<Byte>,
                           bUpdate: bool, nSrcPage: nat, nDestPgsz: nat)
    requires base <= hi <= base + |data| && nDestPgsz > 0
  {
    && |d| <= |e| && |e| % nDestPgsz == 0
    && (forall x: nat {:trigger At(e, x)} ::
          At(e, x) == if base <= x < hi && !OnLockPage(x, nDestPgsz)
                      then NewByte(x, base, data, bUpdate, nSrcPage) else At(d, x))
    && (forall x: nat :: base <= x < hi && !OnLockPage(x, nDestPgsz) ==> x < |e|)
    && (|e| <= |d| || |e| < hi + nDestPgsz)
  }

  /** What one turn of the copy loop writes: part of the source page into one page of the
      destination, and the page count into the header when that is the first page. */
  function Chunk(d: seq<Byte>, nDestPgsz: nat, iOff: nat, zIn: seq<Byte>, bUpdate: bool, nSrcPage: nat): (e: seq<Byte>)
    requires nDestPgsz > 0 && iOff % nDestPgsz + |zIn| <= nDestPgsz
  {
    var iDest := iOff / nDestPgsz + 1;
    var pg := (iDest - 1) * nDestPgsz;
    var e := WriteAt(d, pg + nDestPgsz, pg + iOff % nDestPgsz, zIn);
    if iOff == 0 && !bUpdate && |e| >= 32 then WriteAt(e, |e|, 28, Put4(nSrcPage)) else e
  }

  lemma ChunkBytes(d: seq<Byte>, nDestPgsz: nat, iOff: nat, zIn: seq<Byte>, bUpdate: bool, nSrcPage: nat)
    requires nDestPgsz > 0 && iOff % nDestPgsz + |zIn| <= nDestPgsz && |zIn| >= 32
    ensures var e := Chunk(d, nDestPgsz, iOff, zIn, bUpdate, nSrcPage);
            var end := iOff / nDestPgsz * nDestPgsz + nDestPgsz;
            && |e| == (if |d| < end then end else |d|) && iOff + |zIn| <= end <= iOff + nDestPgsz
            && end % nDestPgsz == 0
            && forall x: nat {:trigger At(e, x)} ::
                 At(e, x) == if iOff <= x < iOff + |zIn|
                             then if iOff == 0 && !bUpdate && 28 <= x < 32
                                    then Byte4(nSrcPage, x - 28) else zIn[x - iOff]
                             else At(d, x)
  {
    hide Byte4, Chunk, WriteAt, Put4;
    var pg := iOff / nDestPgsz * nDestPgsz;
    ChunkStart(iOff, nDestPgsz);
    ChunkIs(d, nDestPgsz, iOff, zIn, bUpdate, nSrcPage);
    Put4Bytes(nSrcPage);
    var e := WriteAt(d, pg + nDestPgsz, iOff, zIn);
  }

  lemma ChunkStart(iOff: nat, p: nat)
    requires p > 0
    ensures var pg := iOff / p * p; pg + iOff % p == iOff && pg <= iOff && (pg + p) % p == 0
  {
    DivBounds(iOff, p);
    MultipleOf(iOff / p + 1, p);
    assert iOff / p * p + p == (iOff / p + 1) * p;
  }

  lemma ChunkIs(d: seq<Byte>, nDestPgsz: nat, iOff: nat, zIn: seq<Byte>, bUpdate: bool, nSrcPage: nat)
    requires nDestPgsz > 0 && iOff % nDestPgsz + |zIn| <= nDestPgsz
    ensures var pg := iOff / nDestPgsz * nDestPgsz;
            && iOff + |zIn| <= pg + nDestPgsz
            && var e := WriteAt(d, pg + nDestPgsz, iOff, zIn);
               var header := iOff == 0 && !bUpdate && |e| >= 32;
               Chunk(d, nDestPgsz, iOff, zIn, bUpdate, nSrcPage) ==
                 if header then WriteAt(e, |e|, 28, Put4(nSrcPage)) else e
  {
    ChunkStart(iOff, nDestPgsz);
    hide WriteAt, Put4;
  }

  lemma Put4Bytes(v: nat)
    ensures |Put4(v)| == 4 && forall k :: 0 <= k < 4 ==> Put4(v)[k] == Byte4(v, k)
  {
  }

  /** The first page, when it is first copied, gets the number of pages of the source. */
  lemma PageCountWritten(d: seq<Byte>, e: seq<Byte>, data: seq<Byte>, nSrcPage: nat, nDestPgsz: nat)
    requires IsPageSize(nDestPgsz) && |data| >= 512 && |e| >= 32
    requires Overlaid(d, e, 0, |data|, data, false, nSrcPage, nDestPgsz)
    ensures Big4(e, 28) == nSrcPage % U32
  {
    forall x: nat | 28 <= x < 32 ensures e[x] == Byte4(nSrcPage, x - 28) {
      LockPageRange(x, nDestPgsz);
      assert At(e, x) == NewByte(x, 0, data, false, nSrcPage);
    }
    Put4Reads(nSrcPage);
    hide Byte4;
    assert e[28] == Put4(nSrcPage)[0] && e[29] == Put4(nSrcPage)[1];
    assert e[30] == Put4(nSrcPage)[2] && e[31] == Put4(nSrcPage)[3];
  }

  lemma ChunkOverlays(d0: seq<Byte>, d: seq<Byte>, base: nat, data: seq<Byte>, bUpdate: bool, nSrcPage: nat,
                      nDestPgsz: nat, iOff: nat, n: nat)
    requires IsPageSize(nDestPgsz) && n >= 512 && base <= iOff && iOff + n <= base + |data|
    requires iOff % nDestPgsz + n <= nDestPgsz && !OnLockPage(iOff, nDestPgsz)
    requires Overlaid(d0, d, base, iOff, data, bUpdate, nSrcPage, nDestPgsz)
    requires iOff == 0 || iOff >= 512
    ensures Overlaid(d0, Chunk(d, nDestPgsz, iOff, data[iOff - base..iOff - base + n], bUpdate, nSrcPage),
                     base, iOff + n, data, bUpdate, nSrcPage, nDestPgsz)
    ensures |Chunk(d, nDestPgsz, iOff, data[iOff - base..iOff - base + n], bUpdate, nSrcPage)| % nDestPgsz == 0
  {
    var zIn := data[iOff - base..iOff - base + n];
    ChunkBytes(d, nDestPgsz, iOff, zIn, bUpdate, nSrcPage);
    hide Chunk, At, Byte4, LockPage, IsPageSize;
    forall x: nat | iOff <= x < iOff + n ensures !OnLockPage(x, nDestPgsz) {
      DivBounds(iOff, nDestPgsz);
      SamePage(iOff, x, nDestPgsz);
    }
    hide OnLockPage;
  }

  lemma SkipOverlays(d0: seq<Byte>, d: seq<Byte>, base: nat, data: seq<Byte>, bUpdate: bool, nSrcPage: nat,
                     nDestPgsz: nat, iOff: nat, n: nat)
    requires IsPageSize(nDestPgsz) && base <= iOff && iOff + n <= base + |data|
    requires iOff % nDestPgsz + n <= nDestPgsz && OnLockPage(iOff, nDestPgsz)
    requires Overlaid(d0, d, base, iOff, data, bUpdate, nSrcPage, nDestPgsz)
    ensures Overlaid(d0, d, base, iOff + n, data, bUpdate, nSrcPage, nDestPgsz)
  {
    DivBounds(iOff, nDestPgsz);
    forall x: nat | iOff <= x < iOff + n ensures OnLockPage(x, nDestPgsz) {
      SamePage(iOff, x, nDestPgsz);
    }
  }

  /** How the copy loop walks: the offset of each turn is where a part of the source page
      meets one page of the destination. */
  lemma TurnBounds(base: nat, iOff: nat, s: nat, d: nat)
    requires IsPageSize(s) && IsPageSize(d) && base % s == 0 && base <= iOff < base + s
    requires if s >= d then iOff % d == 0 && base % d == 0 else iOff == base
    ensures var n := if s < d then s else d;
            iOff % d + n <= d && iOff + n <= base + s && (s >= d ==> (iOff + d) % d == 0)
    ensures iOff % s == iOff - base
    ensures iOff == 0 || iOff >= 512
  {
    DivBounds(base, s);
    DivUnique(iOff, s, base / s, iOff - base);
    if s >= d {
      PageSizesDivide(d, s);
      SumOfMultiples(base, s, d);
      NextMultiple(iOff, base + s, d);
      if iOff > 0 { NextMultiple(0, iOff, d); }
    } else {
      PageSizesDivide(s, d);
      SmallInLarge(base, s, d);
      if iOff > 0 { NextMultiple(0, base, s); }
    }
  }

  /** One turn of the copy loop of backupOnePage(): zIn is the part of the source page that
      belongs on this page of the destination. */
  method CopyTurn(ghost d0: seq<Byte>, d: seq<Byte>, ghost base: nat, iOff: nat, nDestPgsz: nat, zIn: seq<Byte>,
                  ghost data: seq<Byte>, bUpdate: bool, nSrcPage: nat, fails: bool) returns (rc: Rc, e: seq<Byte>)
    requires nDestPgsz > 0 && base <= iOff && iOff + |zIn| <= base + |data|
    requires Overlaid(d0, d, base, iOff, data, bUpdate, nSrcPage, nDestPgsz)
    requires zIn == data[iOff - base..iOff - base + |zIn|] && |zIn| >= 512 && (iOff == 0 || iOff >= 512)
    requires iOff % nDestPgsz + |zIn| <= nDestPgsz && |d| % nDestPgsz == 0 && IsPageSize(nDestPgsz)
    ensures rc == if fails && !OnLockPage(iOff, nDestPgsz) then Failed(0) else Ok
    ensures |e| % nDestPgsz == 0
    ensures rc == Ok ==> Overlaid(d0, e, base, iOff + |zIn|, data, bUpdate, nSrcPage, nDestPgsz)
  {
    hide Overlaid, Chunk, IsPageSize;
    rc, e := Ok, d;
    var iDest := iOff / nDestPgsz + 1;
    if iDest != LockPage(nDestPgsz) {
      if fails { return Failed(0), d; }
      ChunkOverlays(d0, d, base, data, bUpdate, nSrcPage, nDestPgsz, iOff, |zIn|);
      e := Chunk(d, nDestPgsz, iOff, zIn, bUpdate, nSrcPage);
    } else {
      SkipOverlays(d0, d, base, data, bUpdate, nSrcPage, nDestPgsz, iOff, |zIn|);
    }
  }

  function PageOf(x: nat, p: nat): nat
    requires p > 0
  {
    x / p + 1
  }

  /** Some of the bytes from lo to hi lie on page pg, which is not the lock page. */
  ghost predicate HitsPage(lo: nat, hi: nat, p: nat, pg: int)
    requires p > 0
  {
    pg != LockPage(p) && exists x: nat :: lo <= x < hi && PageOf(x, p) == pg
  }

  lemma HitsMore(lo: nat, mid: nat, hi: nat, p: nat, pg: int)
    requires p > 0 && lo <= mid < hi && mid % p + (hi - mid) <= p
    ensures HitsPage(lo, hi, p, pg) <==> HitsPage(lo, mid, p, pg) || (PageOf(mid, p) == pg && !OnLockPage(mid, p))
  {
    forall x: nat | mid <= x < hi ensures PageOf(x, p) == PageOf(mid, p) {
      DivBounds(mid, p);
      SamePage(mid, x, p);
    }
    assert PageOf(mid, p) == LockPage(p) <==> OnLockPage(mid, p);
    hide PageOf, OnLockPage, LockPage;
  }

  lemma HitsAll(lo: nat, mid: nat, hi: nat, p: nat, pg: int)
    requires p > 0 && mid <= hi && HitsPage(lo, mid, p, pg)
    ensures HitsPage(lo, hi, p, pg)
  {
  }

  /** backupOnePage(): `failAt` is the page of the destination whose pager reports an error,
      if any. */
  method BackupOnePage(dest: seq<Byte>, nSrcPgsz: nat, nDestPgsz: nat, iSrcPg: nat, zSrcData: seq<Byte>,
                       bUpdate: bool, nSrcPage: nat, failAt: int) returns (rc: Rc, d: seq<Byte>)
    requires IsPageSize(nSrcPgsz) && IsPageSize(nDestPgsz)
    requires iSrcPg > 0 && iSrcPg != LockPage(nSrcPgsz) && |zSrcData| == nSrcPgsz
    requires |dest| % nDestPgsz == 0
    ensures |d| % nDestPgsz == 0
    ensures rc == if HitsPage(PageStart(iSrcPg, nSrcPgsz), PageStart(iSrcPg, nSrcPgsz) + nSrcPgsz, nDestPgsz, failAt)
                  then Failed(0) else Ok
    ensures rc == Ok ==>
              var base := PageStart(iSrcPg, nSrcPgsz);
              Overlaid(dest, d, base, base + nSrcPgsz, zSrcData, bUpdate, nSrcPage, nDestPgsz)
    ensures rc == Ok && iSrcPg == 1 && !bUpdate ==> |d| >= 32 && Big4(d, 28) == nSrcPage % U32
  {
    var nCopy := if nSrcPgsz < nDestPgsz then nSrcPgsz else nDestPgsz;
    var base := PageStart(iSrcPg, nSrcPgsz);
    MultipleOf(iSrcPg - 1, nSrcPgsz);
    if nSrcPgsz >= nDestPgsz {
      PageSizesDivide(nDestPgsz, nSrcPgsz);
      MultipleDown(base, nSrcPgsz, nDestPgsz);
    }
    rc, d := Ok, dest;
    assert Overlaid(dest, d, base, base, zSrcData, bUpdate, nSrcPage, nDestPgsz);
    assert !HitsPage(base, base, nDestPgsz, failAt);
    hide Overlaid, PageStart, LockPage, IsPageSize, HitsPage, OnLockPage;
    var iOff := base;
    while rc == Ok && iOff < base + nSrcPgsz
      invariant base <= iOff && |d| % nDestPgsz == 0
      invariant if nSrcPgsz >= nDestPgsz then iOff % nDestPgsz == 0 && iOff <= base + nSrcPgsz
                else iOff == base || iOff == base + nDestPgsz
      invariant rc == Ok || rc == Failed(0)
      invariant rc == Ok ==>
                  !HitsPage(base, if iOff <= base + nSrcPgsz then iOff else base + nSrcPgsz, nDestPgsz, failAt)
      invariant rc != Ok ==> HitsPage(base, base + nSrcPgsz, nDestPgsz, failAt)
      invariant rc == Ok ==> Overlaid(dest, d, base, if iOff <= base + nSrcPgsz then iOff else base + nSrcPgsz,
                                      zSrcData, bUpdate, nSrcPage, nDestPgsz)
      decreases base + nSrcPgsz - iOff
    {
      TurnBounds(base, iOff, nSrcPgsz, nDestPgsz);
      var zIn := zSrcData[iOff % nSrcPgsz..iOff % nSrcPgsz + nCopy];
      HitsMore(base, iOff, iOff + nCopy, nDestPgsz, failAt);
      if HitsPage(base, iOff + nCopy, nDestPgsz, failAt) {
        HitsAll(base, iOff + nCopy, base + nSrcPgsz, nDestPgsz, failAt);
      }
      rc, d := CopyTurn(dest, d, base, iOff, nDestPgsz, zIn, zSrcData, bUpdate, nSrcPage,
                        iOff / nDestPgsz + 1 == failAt);
      iOff := iOff + nDestPgsz;
    }
    if rc == Ok && iSrcPg == 1 && !bUpdate {
      FirstPageCount(dest, d, zSrcData, nSrcPgsz, nSrcPage, nDestPgsz);
    }
  }

  lemma FirstPageCount(d: seq<Byte>, e: seq<Byte>, data: seq<Byte>, nSrcPgsz: nat, nSrcPage: nat, nDestPgsz: nat)
    requires IsPageSize(nDestPgsz) && IsPageSize(nSrcPgsz) && |data| == nSrcPgsz
    requires Overlaid(d, e, PageStart(1, nSrcPgsz), PageStart(1, nSrcPgsz) + nSrcPgsz, data, false, nSrcPage, nDestPgsz)
    ensures |e| >= 32 && Big4(e, 28) == nSrcPage % U32
  {
    LockPageRange(31, nDestPgsz);
    PageCountWritten(d, e, data, nSrcPage, nDestPgsz);
  }
}
