// The end of a backup: header fields, truncation, and the bytes behind the lock page.
module BackupCommit {
  import opened Arith
  import opened BackupImage
  import opened Backup

  /** Every copied source byte below `hi` is in the destination; the two lock pages and the
      page-count field are never copied verbatim. */
  ghost predicate Synced(data: seq<Byte>, pgszSrc: nat, dest: seq<Byte>, pgszDest: nat, hi: nat)
    requires pgszSrc > 0 && pgszDest > 0
  {
    forall x: nat :: x < hi && x < |data| && !OnLockPage(x, pgszSrc) && !OnLockPage(x, pgszDest) && !(28 <= x < 32) ==>
      x < |dest| && dest[x] == data[x]
  }

  /** The header fields the final commit rewrites: change counter and page count, schema
      cookie, version-valid-for and version number, and the WAL read/write versions. */
  predicate HeaderField(x: nat, wal: bool)
  {
    24 <= x < 32 || 40 <= x < 44 || 92 <= x < 100 || (wal && 18 <= x < 20)
  }

  /** What a finished backup promises. */
  ghost predicate Complete(data: seq<Byte>, pgszSrc: nat, dest: seq<Byte>, wal: bool)
    requires pgszSrc > 0
  {
    && (data != [] ==> |dest| <= |data|)
    && forall x: nat :: x < |data| && !OnLockPage(x, pgszSrc) && !HeaderField(x, wal) ==>
         x < |dest| && dest[x] == data[x]
  }

  /** Complete leaves no choice for the size, unless the source ends with its lock page. */
  lemma CompleteSize(data: seq<Byte>, pgszSrc: nat, dest: seq<Byte>, wal: bool)
    requires pgszSrc > 0 && |data| >= 512 && Complete(data, pgszSrc, dest, wal)
    ensures !OnLockPage(|data| - 1, pgszSrc) ==> |dest| == |data|
  {
  }

  /** The destination after copying an empty source: the header page of a new database,
      within one page of the source. */
  ghost predicate IsNewDb(newDb: seq<Byte>, pgszSrc: nat, dest: seq<Byte>, wal: bool)
  {
    && (if |newDb| < pgszSrc then |newDb| else pgszSrc) <= |dest| <= pgszSrc
    && forall x: nat :: x < |newDb| && x < pgszSrc && !HeaderField(x, wal) ==> dest[x] == newDb[x]
  }

  // ---- each page copied or updated ----

  lemma LockPagePage(pg: nat, p: nat, x: nat)
    requires p > 0 && pg > 0 && PageStart(pg, p) <= x < PageStart(pg, p) + p
    ensures OnLockPage(x, p) <==> pg == LockPage(p)
  {
    OnPage(x, pg, p);
  }

  /** Copying the next page extends what is synced by that page. */
  lemma CopiedNext(data: seq<Byte>, pgszSrc: nat, d: seq<Byte>, e: seq<Byte>, pgszDest: nat, iNext: nat, nPage: nat)
    requires pgszSrc > 0 && pgszDest > 0 && iNext > 0 && PageStart(iNext, pgszSrc) + pgszSrc <= |data|
    requires Synced(data, pgszSrc, d, pgszDest, PageStart(iNext, pgszSrc))
    requires var base := PageStart(iNext, pgszSrc);
             Overlaid(d, e, base, base + pgszSrc, data[base..base + pgszSrc], false, nPage, pgszDest)
    ensures Synced(data, pgszSrc, e, pgszDest, PageStart(iNext + 1, pgszSrc))
  {
    var base := PageStart(iNext, pgszSrc);
    assert PageStart(iNext + 1, pgszSrc) == base + pgszSrc;
    hide OnLockPage, Byte4;
    forall x: nat | x < base + pgszSrc && x < |data| && !OnLockPage(x, pgszSrc) && !OnLockPage(x, pgszDest)
                    && !(28 <= x < 32)
      ensures x < |e| && e[x] == data[x]
    {
      assert At(e, x) == if x < base then At(d, x) else data[base..base + pgszSrc][x - base];
    }
  }

  lemma SkippedNext(data: seq<Byte>, pgszSrc: nat, d: seq<Byte>, pgszDest: nat, iNext: nat)
    requires pgszSrc > 0 && pgszDest > 0 && iNext > 0 && iNext == LockPage(pgszSrc)
    requires Synced(data, pgszSrc, d, pgszDest, PageStart(iNext, pgszSrc))
    ensures Synced(data, pgszSrc, d, pgszDest, PageStart(iNext + 1, pgszSrc))
  {
    var base := PageStart(iNext, pgszSrc);
    assert PageStart(iNext + 1, pgszSrc) == base + pgszSrc;
    forall x: nat | base <= x < base + pgszSrc ensures OnLockPage(x, pgszSrc) {
      LockPagePage(iNext, pgszSrc, x);
    }
  }

  /** The source after page pg is overwritten or, at the end, appended. */
  function WithPage(data: seq<Byte>, pgsz: nat, pg: nat, content: seq<Byte>): seq<Byte>
    requires pg > 0 && |content| == pgsz && PageStart(pg, pgsz) <= |data|
  {
    var base := PageStart(pg, pgsz);
    data[..base] + content + (if base + pgsz <= |data| then data[base + pgsz..] else [])
  }

  /** Pushing a changed page keeps the copied part synced. */
  lemma UpdatedPage(data: seq<Byte>, pgszSrc: nat, pg: nat, content: seq<Byte>, d: seq<Byte>, e: seq<Byte>,
                    pgszDest: nat, hi: nat, nPage: nat)
    requires pgszSrc > 0 && pgszDest > 0 && pg > 0 && |content| == pgszSrc && PageStart(pg, pgszSrc) <= |data|
    requires |data| < PageStart(pg, pgszSrc) + pgszSrc ==> |data| == PageStart(pg, pgszSrc)
    requires Synced(data, pgszSrc, d, pgszDest, hi)
    requires var base := PageStart(pg, pgszSrc);
             Overlaid(d, e, base, base + pgszSrc, content, true, nPage, pgszDest)
    ensures Synced(WithPage(data, pgszSrc, pg, content), pgszSrc, e, pgszDest, hi)
  {
    var base := PageStart(pg, pgszSrc);
    var data' := WithPage(data, pgszSrc, pg, content);
    hide OnLockPage, Byte4, PageStart;
    forall x: nat | x < hi && x < |data'| && !OnLockPage(x, pgszSrc) && !OnLockPage(x, pgszDest) && !(28 <= x < 32)
      ensures x < |e| && e[x] == data'[x]
    {
      assert At(e, x) == if base <= x < base + pgszSrc then content[x - base] else At(d, x);
    }
  }

  /** A page that has not been copied yet needs no push. */
  lemma UncopiedPage(data: seq<Byte>, pgszSrc: nat, pg: nat, content: seq<Byte>, d: seq<Byte>, pgszDest: nat, hi: nat)
    requires pgszSrc > 0 && pgszDest > 0 && pg > 0 && |content| == pgszSrc && PageStart(pg, pgszSrc) <= |data|
    requires |data| < PageStart(pg, pgszSrc) + pgszSrc ==> |data| == PageStart(pg, pgszSrc)
    requires Synced(data, pgszSrc, d, pgszDest, hi)
    requires hi <= PageStart(pg, pgszSrc) || pg == LockPage(pgszSrc)
    ensures Synced(WithPage(data, pgszSrc, pg, content), pgszSrc, d, pgszDest, hi)
  {
    var base := PageStart(pg, pgszSrc);
    var data' := WithPage(data, pgszSrc, pg, content);
    forall x: nat | x < hi && x < |data'| && !OnLockPage(x, pgszSrc) && !OnLockPage(x, pgszDest) && !(28 <= x < 32)
      ensures x < |d| && d[x] == data'[x]
    {
      if base <= x < base + pgszSrc { LockPagePage(pg, pgszSrc, x); }
    }
  }

  // ---- the commit ----

  function Poke(d: seq<Byte>, off: nat, b: seq<Byte>): (e: seq<Byte>)
    requires off + |b| <= |d|
    ensures |e| == |d|
    ensures forall x :: 0 <= x < |d| ==> e[x] == if off <= x < off + |b| then b[x - off] else d[x]
  {
    d[..off] + b + d[off + |b|..]
  }

  /** What the commit leaves in the header: schema cookie, change counter, version-valid-for
      and version number, and the WAL read and write versions. */
  predicate HeaderWritten(d: seq<Byte>, cookie: nat, wal: bool, counter: nat, version: nat)
  {
    && |d| >= 100
    && Big4(d, 40) == cookie % U32
    && Big4(d, 24) == Big4(d, 92) == counter % U32
    && Big4(d, 96) == version % U32
    && (wal ==> d[18] == d[19] == 2)
  }

  lemma PokeReads(d: seq<Byte>, off: nat, v: nat)
    requires off + 4 <= |d|
    ensures |Put4(v)| == 4 && Big4(Poke(d, off, Put4(v)), off) == v % U32
  {
    Put4Reads(v);
    hide Put4;
  }

  lemma PokeKeeps(d: seq<Byte>, off: nat, b: seq<Byte>, at: nat)
    requires off + |b| <= |d| && at + 4 <= |d| && (at + 4 <= off || off + |b| <= at)
    ensures Big4(Poke(d, off, b), at) == Big4(d, at)
  {
  }

  /** sqlite3BtreeUpdateMeta, sqlite3BtreeSetVersion and the pager's change counter. */
  function PokeHeader(d: seq<Byte>, cookie: nat, wal: bool, counter: nat, version: nat): (e: seq<Byte>)
    requires |d| >= 512
    ensures |e| == |d|
    ensures forall x :: 0 <= x < |d| && !HeaderField(x, wal) ==> e[x] == d[x]
  {
    var d := Poke(d, 40, Put4(cookie));
    var d := if wal then Poke(d, 18, [2, 2]) else d;
    var d := Poke(d, 24, Put4(counter));
    Poke(Poke(d, 92, Put4(counter)), 96, Put4(version))
  }

  lemma PokedHeader(d: seq<Byte>, cookie: nat, wal: bool, counter: nat, version: nat)
    requires |d| >= 512
    ensures HeaderWritten(PokeHeader(d, cookie, wal, counter, version), cookie, wal, counter, version)
  {
    hide Put4, Big4, Poke;
    Put4Length(cookie);
    Put4Length(counter);
    Put4Length(version);
    var d1 := Poke(d, 40, Put4(cookie));
    var d2 := if wal then Poke(d1, 18, [2, 2]) else d1;
    var d3 := Poke(d2, 24, Put4(counter));
    var d4 := Poke(d3, 92, Put4(counter));
    PokeReads(d, 40, cookie);
    if wal { PokeKeeps(d1, 18, [2, 2], 40); }
    PokeReads(d2, 24, counter);
    PokeKeeps(d2, 24, Put4(counter), 40);
    PokeReads(d3, 92, counter);
    PokeKeeps(d3, 92, Put4(counter), 40);
    PokeKeeps(d3, 92, Put4(counter), 24);
    PokeReads(d4, 96, version);
    PokeKeeps(d4, 96, Put4(version), 40);
    PokeKeeps(d4, 96, Put4(version), 24);
    PokeKeeps(d4, 96, Put4(version), 92);
  }

  lemma Put4Length(v: nat)
    ensures |Put4(v)| == 4
  {
  }

  /** The first page of the destination is not touched any more. */
  lemma HeaderStays(d: seq<Byte>, e: seq<Byte>, cookie: nat, wal: bool, counter: nat, version: nat)
    requires HeaderWritten(d, cookie, wal, counter, version) && |e| >= 100
    requires forall x :: 0 <= x < 100 ==> e[x] == d[x]
    ensures HeaderWritten(e, cookie, wal, counter, version)
  {
  }

  /** The destination page count the commit asks for when its pages are larger, with the
      source's assertions about it. */
  lemma TruncateTarget(nSrcPage: nat, pgszSrc: nat, pgszDest: nat)
    requires IsPageSize(pgszSrc) && IsPageSize(pgszDest) && pgszSrc < pgszDest && nSrcPage > 0
    ensures var ratio := pgszDest / pgszSrc;
            var n := (nSrcPage + ratio - 1) / ratio;
            var m := if n == LockPage(pgszDest) then n - 1 else n;
            && m > 0
            && (m * pgszDest >= nSrcPage * pgszSrc ||
                (m == LockPage(pgszDest) - 1 && PENDING <= nSrcPage * pgszSrc <= PENDING + pgszDest))
  {
    PageSizesDivide(pgszSrc, pgszDest);
    PageSizesDivide(pgszDest, pgszDest);
    hide IsPageSize;
    var ratio := pgszDest / pgszSrc;
    DivBounds(pgszDest, pgszSrc);
    DivBounds(PENDING, pgszDest);
    if ratio < 1 { MulMonotone(ratio, 0, pgszSrc); }
    CeilBounds(nSrcPage, ratio, pgszSrc);
  }

  lemma MulAssoc(a: nat, b: nat, c: nat)
    ensures a * b * c == a * (b * c)
  {
  }

  lemma CeilBounds(k: nat, ratio: nat, s: nat)
    requires ratio > 0 && k > 0
    ensures var n := (k + ratio - 1) / ratio;
            n > 0 && n * (ratio * s) >= k * s && (n - 1) * (ratio * s) <= k * s
  {
    var n := (k + ratio - 1) / ratio;
    DivBounds(k + ratio - 1, ratio);
    assert n * ratio >= k && (n - 1) * ratio <= k;
    MulMonotone(k, n * ratio, s);
    MulMonotone((n - 1) * ratio, k, s);
    MulAssoc(n, ratio, s);
    MulAssoc(n - 1, ratio, s);
  }

  /** Source pages that share the destination's lock page, other than the source's own lock
      page, are written straight into the file. */
  method WriteBehindLockPage(d: seq<Byte>, data: seq<Byte>, pgszSrc: nat, pgszDest: nat, iSize: nat)
    returns (e: seq<Byte>)
    requires IsPageSize(pgszSrc) && IsPageSize(pgszDest) && pgszSrc < pgszDest
    requires iSize % pgszSrc == 0 && (iSize == |data| || (data == [] && iSize == pgszSrc))
    ensures |e| >= |d|
    ensures forall x: nat {:trigger At(e, x)} :: At(e, x) ==
              if PENDING + pgszSrc <= x < PENDING + pgszDest && x < |data| then data[x] else At(d, x)
    ensures PENDING + pgszSrc < |data| ==> |e| >= (if PENDING + pgszDest < |data| then PENDING + pgszDest else |data|)
  {
    PageSizesDivide(pgszSrc, pgszDest);
    SumOfMultiples(PENDING, pgszDest, pgszSrc);
    MultipleOf(1, pgszSrc);
    SumOfMultiples(PENDING, pgszSrc, pgszSrc);
    var iEnd := if PENDING + pgszDest < iSize then PENDING + pgszDest else iSize;
    assert iEnd % pgszSrc == 0;
    e := d;
    var iOff := PENDING + pgszSrc;
    while iOff < iEnd
      invariant iOff % pgszSrc == 0 && PENDING + pgszSrc <= iOff && (iOff <= iEnd || iOff == PENDING + pgszSrc)
      invariant |e| >= |d|
      invariant forall x: nat {:trigger At(e, x)} :: At(e, x) ==
                  if PENDING + pgszSrc <= x < iOff && x < |data| then data[x] else At(d, x)
      invariant iOff > PENDING + pgszSrc ==> |e| >= iOff
    {
      NextMultiple(iOff, iEnd, pgszSrc);
      var size := if |e| < iOff + pgszSrc then iOff + pgszSrc else |e|;
      e := WriteAt(e, size, iOff, data[iOff..iOff + pgszSrc]);
      iOff := iOff + pgszSrc;
    }
  }

  /** Outcomes decided outside the model: error codes of the calls made, and the values
      that the commit writes into the header. */
  datatype Env = Env(
    beginSrc: Rc, lockDest: Rc, iDestSchema: nat,
    failPage: int, failAt: int,
    commit: Rc, counter: nat, version: nat, newDb: seq<Byte>)

  predicate IsEnv(e: Env, pgszDest: nat)
  {
    && e.beginSrc != Done && e.lockDest != Done
    && (e.commit == Ok || (IsFatal(e.commit) && e.commit != Done))
    && |e.newDb| == pgszDest
  }

  /** The result of everything before the first page is copied. */
  function Opened(inWrite: bool, destLocked: bool, env: Env, mismatch: bool): Rc
  {
    if inWrite then Busy
    else if env.beginSrc != Ok then env.beginSrc
    else if !destLocked && env.lockDest != Ok then env.lockDest
    else if mismatch then ReadOnly
    else Ok
  }

  /** The part of sqlite3_backup_step() that runs once every page has been copied. */
  method FinishCommit(dest: seq<Byte>, data: seq<Byte>, pgszSrc: nat, pgszDest: nat, destWal: bool,
                      nSrcPage: nat, cookie: nat, env: Env) returns (rc: Rc, d: seq<Byte>)
    requires IsPageSize(pgszSrc) && IsPageSize(pgszDest) && IsEnv(env, pgszDest)
    requires |data| == nSrcPage * pgszSrc && |dest| % pgszDest == 0
    requires Synced(data, pgszSrc, dest, pgszDest, |data|)
    ensures rc == if env.commit == Ok then Done else env.commit
    ensures rc == Done ==> Complete(data, pgszSrc, d, destWal)
    ensures rc == Done ==> HeaderWritten(d, cookie, destWal, env.counter, env.version)
    ensures rc == Done && data != [] && !OnLockPage(|data| - 1, pgszSrc) ==> |d| == |data|
    ensures rc == Done && data == [] ==> IsNewDb(env.newDb, pgszSrc, d, destWal)
  {
    hide HeaderWritten, PokeHeader, Synced, Complete, IsPageSize, OnLockPage, IsNewDb;
    rc := if env.commit == Ok then Done else env.commit;
    var nSrc;
    d, nSrc := NewIfEmpty(dest, data, pgszSrc, pgszDest, nSrcPage, env);
    ghost var d0 := d;
    d := PokeHeader(d, cookie, destWal, env.counter, env.version);
    if env.commit != Ok { return; }
    ghost var d1;
    d, d1 := FixSize(d, data, pgszSrc, pgszDest, nSrc);
    Committed(data, pgszSrc, pgszDest, destWal, nSrcPage, nSrc, cookie, env, d0, d1, d);
  }

  /** An empty source gets the header page of a new database. */
  method NewIfEmpty(dest: seq<Byte>, data: seq<Byte>, pgszSrc: nat, pgszDest: nat, nSrcPage: nat, env: Env)
    returns (d: seq<Byte>, nSrc: nat)
    requires IsPageSize(pgszSrc) && IsPageSize(pgszDest) && IsEnv(env, pgszDest)
    requires |data| == nSrcPage * pgszSrc && |dest| % pgszDest == 0
    requires Synced(data, pgszSrc, dest, pgszDest, |data|)
    ensures |d| >= 512 && nSrc == if nSrcPage == 0 then 1 else nSrcPage
    ensures nSrcPage > 0 ==> d == dest
    ensures nSrcPage == 0 ==> |d| >= pgszDest
    ensures nSrcPage == 0 ==> forall x: nat {:trigger At(d, x)} :: x < pgszDest ==> At(d, x) == env.newDb[x]
  {
    hide Synced;
    d, nSrc := dest, nSrcPage;
    if nSrc == 0 {
      d := WriteAt(d, if |d| < pgszDest then pgszDest else |d|, 0, env.newDb);
      nSrc := 1;
    } else {
      FirstPageCopied(data, pgszSrc, dest, pgszDest, nSrcPage);
    }
  }

  /** What the commit promises, from what its parts have done. */
  lemma Committed(data: seq<Byte>, pgszSrc: nat, pgszDest: nat, wal: bool, nSrcPage: nat, nSrc: nat, cookie: nat,
                  env: Env, d0: seq<Byte>, d1: seq<Byte>, d: seq<Byte>)
    requires IsPageSize(pgszSrc) && IsPageSize(pgszDest) && IsEnv(env, pgszDest) && |data| == nSrcPage * pgszSrc
    requires |d0| >= 512 && nSrc == if nSrcPage == 0 then 1 else nSrcPage
    requires nSrcPage > 0 ==> Synced(data, pgszSrc, d0, pgszDest, |data|)
    requires nSrcPage == 0 ==> |d0| >= pgszDest
    requires nSrcPage == 0 ==> forall x: nat {:trigger At(d0, x)} :: x < pgszDest ==> At(d0, x) == env.newDb[x]
    requires var dh := PokeHeader(d0, cookie, wal, env.counter, env.version);
             && |d1| >= |dh| && d == (if |d1| > nSrc * pgszSrc then d1[..nSrc * pgszSrc] else d1)
             && forall x: nat {:trigger At(d1, x)} :: At(d1, x) ==
                  if pgszSrc < pgszDest && PENDING + pgszSrc <= x < PENDING + pgszDest && x < |data|
                  then data[x] else At(dh, x)
    requires pgszSrc < pgszDest && PENDING + pgszSrc < |data| ==>
               |d1| >= (if PENDING + pgszDest < |data| then PENDING + pgszDest else |data|)
    ensures Complete(data, pgszSrc, d, wal) && HeaderWritten(d, cookie, wal, env.counter, env.version)
    ensures data != [] && !OnLockPage(|data| - 1, pgszSrc) ==> |d| == |data|
    ensures data == [] ==> IsNewDb(env.newDb, pgszSrc, d, wal)
  {
    hide HeaderWritten, PokeHeader, Synced, OnLockPage, IsNewDb;
    var dh := PokeHeader(d0, cookie, wal, env.counter, env.version);
    PokedHeader(d0, cookie, wal, env.counter, env.version);
    HeaderKept(dh, d1, d, data, pgszSrc, pgszDest, nSrc);
    HeaderStays(dh, d, cookie, wal, env.counter, env.version);
    MulMonotone(1, nSrc, pgszSrc);
    if nSrcPage > 0 {
      CommitIsComplete(data, pgszSrc, d0, pgszDest, wal, d1, d);
      CompleteSize(data, pgszSrc, d, wal);
    } else {
      NewDbStays(env.newDb, pgszSrc, pgszDest, wal, d0, d1, d);
    }
  }

  lemma HeaderKept(dh: seq<Byte>, d1: seq<Byte>, d: seq<Byte>, data: seq<Byte>, pgszSrc: nat, pgszDest: nat, nSrc: nat)
    requires IsPageSize(pgszSrc) && nSrc > 0 && |d1| >= |dh| >= 512
    requires d == if |d1| > nSrc * pgszSrc then d1[..nSrc * pgszSrc] else d1
    requires forall x: nat {:trigger At(d1, x)} :: At(d1, x) ==
               if pgszSrc < pgszDest && PENDING + pgszSrc <= x < PENDING + pgszDest && x < |data|
               then data[x] else At(dh, x)
    ensures |d| >= 512 && forall x :: 0 <= x < 100 ==> d[x] == dh[x]
  {
    MulMonotone(1, nSrc, pgszSrc);
    forall x | 0 <= x < 100 ensures d[x] == dh[x] {
      assert At(d1, x) == At(dh, x);
    }
  }

  /** The size of the committed destination, and the pages behind its lock page; d1 is the
      file before it is truncated. */
  method FixSize(dest: seq<Byte>, data: seq<Byte>, pgszSrc: nat, pgszDest: nat, nSrc: nat)
    returns (d: seq<Byte>, ghost d1: seq<Byte>)
    requires IsPageSize(pgszSrc) && IsPageSize(pgszDest) && nSrc > 0
    requires |data| == nSrc * pgszSrc || (data == [] && nSrc == 1)
    ensures |d1| >= |dest| && d == if |d1| > nSrc * pgszSrc then d1[..nSrc * pgszSrc] else d1
    ensures forall x: nat {:trigger At(d1, x)} :: At(d1, x) ==
              if pgszSrc < pgszDest && PENDING + pgszSrc <= x < PENDING + pgszDest && x < |data|
              then data[x] else At(dest, x)
    ensures pgszSrc < pgszDest && PENDING + pgszSrc < |data| ==>
              |d1| >= (if PENDING + pgszDest < |data| then PENDING + pgszDest else |data|)
  {
    d, d1 := dest, dest;
    var iSize := pgszSrc * nSrc;
    MultipleOf(nSrc, pgszSrc);
    if pgszSrc < pgszDest {
      TruncateTarget(nSrc, pgszSrc, pgszDest);
      d := WriteBehindLockPage(d, data, pgszSrc, pgszDest, iSize);
      d1 := d;
      if |d| > iSize { d := d[..iSize]; }
    } else {
      var nDestTruncate := nSrc * (pgszSrc / pgszDest);
      WholePages(nSrc, pgszSrc, pgszDest);
      if |d| > nDestTruncate * pgszDest { d := d[..nDestTruncate * pgszDest]; }
    }
  }

  lemma NewDbStays(newDb: seq<Byte>, pgszSrc: nat, pgszDest: nat, wal: bool, d0: seq<Byte>, d1: seq<Byte>, d: seq<Byte>)
    requires pgszSrc > 0 && |newDb| == pgszDest && |d1| >= |d0| >= pgszDest
    requires forall x: nat {:trigger At(d0, x)} :: x < pgszDest ==> At(d0, x) == newDb[x]
    requires forall x: nat {:trigger At(d1, x)} :: x < |d0| && !HeaderField(x, wal) ==> At(d1, x) == At(d0, x)
    requires d == if |d1| > pgszSrc then d1[..pgszSrc] else d1
    ensures IsNewDb(newDb, pgszSrc, d, wal)
  {
    forall x: nat | x < |newDb| && x < pgszSrc && !HeaderField(x, wal) ensures d[x] == newDb[x] {
      assert At(d1, x) == At(d0, x);
    }
  }

  lemma WholePages(k: nat, pgszSrc: nat, pgszDest: nat)
    requires IsPageSize(pgszSrc) && IsPageSize(pgszDest) && pgszDest <= pgszSrc
    ensures k * (pgszSrc / pgszDest) * pgszDest == k * pgszSrc
  {
    PageSizesDivide(pgszDest, pgszSrc);
    DivBounds(pgszSrc, pgszDest);
    var r := pgszSrc / pgszDest;
    assert r * pgszDest == pgszSrc;
    assert k * r * pgszDest == k * (r * pgszDest);
  }

  lemma FirstPageCopied(data: seq<Byte>, pgszSrc: nat, dest: seq<Byte>, pgszDest: nat, nSrcPage: nat)
    requires IsPageSize(pgszSrc) && IsPageSize(pgszDest) && nSrcPage > 0
    requires |data| == nSrcPage * pgszSrc && |dest| % pgszDest == 0
    requires Synced(data, pgszSrc, dest, pgszDest, |data|)
    ensures |dest| >= 512
  {
    MulMonotone(1, nSrcPage, pgszSrc);
    LockPageRange(0, pgszSrc);
    LockPageRange(0, pgszDest);
    NextMultiple(0, |dest|, pgszDest);
  }

  lemma CommitIsComplete(data: seq<Byte>, pgszSrc: nat, d0: seq<Byte>, pgszDest: nat, wal: bool, d1: seq<Byte>,
                         d: seq<Byte>)
    requires IsPageSize(pgszSrc) && IsPageSize(pgszDest) && data != []
    requires Synced(data, pgszSrc, d0, pgszDest, |data|)
    requires |d1| >= |d0| && d == if |d1| > |data| then d1[..|data|] else d1
    requires forall x: nat {:trigger At(d1, x)} :: x < |data| && !HeaderField(x, wal) ==>
               (At(d1, x) == if pgszSrc < pgszDest && PENDING + pgszSrc <= x < PENDING + pgszDest
                             then data[x] else At(d0, x))
    requires pgszSrc < pgszDest && PENDING + pgszSrc < |data| ==>
               |d1| >= (if PENDING + pgszDest < |data| then PENDING + pgszDest else |data|)
    ensures Complete(data, pgszSrc, d, wal)
  {
    forall x: nat | x < |data| && !OnLockPage(x, pgszSrc) && !HeaderField(x, wal)
      ensures x < |d| && d[x] == data[x]
    {
      LockPageRange(x, pgszSrc);
      LockPageRange(x, pgszDest);
      assert At(d1, x) == if pgszSrc < pgszDest && PENDING + pgszSrc <= x < PENDING + pgszDest
                          then data[x] else At(d0, x);
    }
  }
}
