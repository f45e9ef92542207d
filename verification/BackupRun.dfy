// Backup handles and the source pager they are attached to, under any interleaving of
// steps, page writes, resizes, restarts and finishes.
module BackupRun {
  import opened Arith
  import opened BackupImage
  import opened Backup
  import opened BackupCommit

  /** All that a push can do to a handle: nothing once it has failed or finished. */
  predicate Pushed(rc: Rc, dest: seq<Byte>, rc': Rc, dest': seq<Byte>)
  {
    (rc' == rc || (rc' == Failed(0) && !IsFatal(rc))) && (IsFatal(rc) ==> dest' == dest)
  }

  /** struct sqlite3_backup, with the destination database it has locked. */
  class Handle {
    const pSrc: Source
    const pgszDest: nat         // after setDestPgsz() was given its chance
    const destWal: bool
    const destMemdb: bool
    var dest: seq<Byte>         // as the destination connection sees it
    var committed: seq<Byte>    // what a rollback of its transaction brings back
    var iDestSchema: nat
    var bDestLocked: bool
    var iNext: nat
    var rc: Rc
    var nRemaining: nat
    var nPagecount: nat
    var isAttached: bool
    var pNext: Handle?

    /** In step with a source holding `data`: every page below iNext is in the
        destination, unless the handle has failed or finished. */
    ghost predicate InStep(data: seq<Byte>, pgsz: nat, attached: bool)
      requires pgsz > 0
      reads this`dest, this`committed, this`rc, this`iNext, this`bDestLocked
    {
      && IsPageSize(pgszDest) && iNext >= 1
      && (rc == Done ==> dest == committed)
      && (!IsFatal(rc) ==>
            && |dest| % pgszDest == 0
            && Synced(data, pgsz, dest, pgszDest, PageStart(iNext, pgsz))
            && (!attached ==> iNext == 1)
            && (iNext > 1 ==> bDestLocked))
    }

    /** sqlite3_backup_init() */
    constructor (pSrc: Source, pgszDest: nat, destWal: bool, destMemdb: bool, dest: seq<Byte>)
      requires pSrc.Valid() && IsPageSize(pgszDest) && |dest| % pgszDest == 0
      modifies pSrc`all
      ensures fresh(this) && pSrc.all == old(pSrc.all) + {this} && pSrc.Valid()
      ensures this.pSrc == pSrc && this.pgszDest == pgszDest && this.destWal == destWal
      ensures rc == Ok && iNext == 1 && !isAttached && !bDestLocked && this.dest == committed == dest
      ensures iDestSchema == nRemaining == nPagecount == 0 && pNext == null && this.destMemdb == destMemdb
    {
      this.pSrc, this.pgszDest, this.destWal, this.destMemdb := pSrc, pgszDest, destWal, destMemdb;
      this.dest, committed := dest, dest;
      iDestSchema, bDestLocked, iNext, rc := 0, false, 1, Ok;
      nRemaining, nPagecount, isAttached, pNext := 0, 0, false, null;
      new;
      assert pSrc.pgsz > 0;
      NothingSynced(pSrc.data, pSrc.pgsz, dest, pgszDest);
      assert InStep(pSrc.data, pSrc.pgsz, false);
      hide Synced, IsPageSize, PageStart, InStep;
      assert this !in pSrc.chain;
      pSrc.all := pSrc.all + {this};
    }

    /** The body of backupUpdate() for one backup. */
    method Push(ghost before: seq<Byte>, pgsz: nat, nPage: nat, pg: nat, content: seq<Byte>, fails: bool, failAt: int)
      requires IsPageSize(pgsz) && pg > 0 && pg != LockPage(pgsz) && |content| == pgsz
      requires PageStart(pg, pgsz) <= |before| && InStep(before, pgsz, isAttached)
      requires |before| < PageStart(pg, pgsz) + pgsz ==> |before| == PageStart(pg, pgsz)
      modifies this`dest, this`rc
      ensures InStep(WithPage(before, pgsz, pg, content), pgsz, isAttached)
      ensures rc == if !IsFatal(old(rc)) && pg < iNext && fails
                       && HitsPage(PageStart(pg, pgsz), PageStart(pg, pgsz) + pgsz, pgszDest, failAt)
                    then Failed(0) else old(rc)
      ensures Pushed(old(rc), old(dest), rc, dest)
    {
      if !IsFatal(rc) && pg < iNext {
        var r, d := BackupOnePage(dest, pgsz, pgszDest, pg, content, true, nPage, if fails then failAt else -1);
        if r == Ok {
          UpdatedPage(before, pgsz, pg, content, dest, d, pgszDest, PageStart(iNext, pgsz), nPage);
        } else {
          rc := r;
        }
        dest := d;
      } else if !IsFatal(rc) {
        MulMonotone(iNext - 1, pg - 1, pgsz);
        UncopiedPage(before, pgsz, pg, content, dest, pgszDest, PageStart(iNext, pgsz));
      }
    }

    /** Before and after its turn in backupUpdate(). */
    ghost predicate Turned(data: seq<Byte>, before: seq<Byte>, pgsz: nat, done: bool, was: (Rc, seq<Byte>), isBad: bool)
      requires pgsz > 0
      reads this
    {
      && InStep(if done then data else before, pgsz, isAttached)
      && (!(done && isBad) ==> rc == was.0)
      && if done then Pushed(was.0, was.1, rc, dest) else dest == was.1
    }

    method PushTurn(ghost data: seq<Byte>, ghost before: seq<Byte>, pgsz: nat, nPage: nat, pg: nat, content: seq<Byte>,
                    ghost was: (Rc, seq<Byte>), isBad: bool, failAt: int)
      requires IsPageSize(pgsz) && pg > 0 && pg != LockPage(pgsz) && |content| == pgsz
      requires PageStart(pg, pgsz) <= |before| && data == WithPage(before, pgsz, pg, content)
      requires |before| < PageStart(pg, pgsz) + pgsz ==> |before| == PageStart(pg, pgsz)
      requires pgsz > 0 && Turned(data, before, pgsz, false, was, isBad)
      modifies this`dest, this`rc
      ensures Turned(data, before, pgsz, true, was, isBad)
    {
      hide IsPageSize, InStep, WithPage, PageStart, LockPage;
      Push(before, pgsz, nPage, pg, content, isBad, failAt);
    }

    /** Before and after its turn in sqlite3BackupRestart(). */
    ghost predicate Restarted(data: seq<Byte>, before: seq<Byte>, pgsz: nat, done: bool)
      requires pgsz > 0
      reads this
    {
      if done then iNext == 1 && InStep(data, pgsz, isAttached) else InStep(before, pgsz, isAttached)
    }

    /** The body of sqlite3BackupRestart() for one backup. */
    method Restart(ghost before: seq<Byte>, ghost pgsz: nat, ghost data: seq<Byte>)
      requires pgsz > 0 && InStep(before, pgsz, isAttached)
      modifies this`iNext
      ensures iNext == 1 && Restarted(data, before, pgsz, true)
    {
      iNext := 1;
    }

    /** attachBackupObject() */
    method Attach()
      requires pSrc.ChainOk() && this in pSrc.all && !isAttached
      modifies this`pNext, this`isAttached, pSrc`pBackup, pSrc`chain
      ensures pSrc.ChainOk() && isAttached && pSrc.chain == [this] + old(pSrc.chain)
    {
      pNext := pSrc.pBackup;
      pSrc.pBackup := this;
      isAttached := true;
      pSrc.chain := [this] + pSrc.chain;
    }

    /** sqlite3_backup_finish(): unlink this handle from the source pager's list, and roll
        back what is not committed. */
    method Finish() returns (r: Rc)
      requires pSrc.Valid() && this in pSrc.all
      modifies pSrc`pBackup, pSrc`chain, pSrc`all, pSrc.all`pNext, this`dest
      ensures dest == committed && (rc == Done ==> dest == old(dest))
      ensures pSrc.Valid() && pSrc.all == old(pSrc.all) - {this}
      ensures forall h :: h in pSrc.chain <==> h in old(pSrc.chain) && h != this
      ensures r == if rc == Done then Ok else rc
    {
      assert forall h :: h in pSrc.all ==> pSrc.HandleOk(h);
      assert pSrc.pgsz > 0 && (rc == Done ==> dest == committed);
      hide IsPageSize, InStep, Source.ChainOk, Source.HandleOk;
      Detach();
      dest := committed;
      r := if rc == Done then Ok else rc;
    }

    method Detach()
      requires pSrc.ChainOk() && this in pSrc.all
      modifies pSrc`pBackup, pSrc`chain, pSrc`all, pSrc.all`pNext
      ensures pSrc.ChainOk() && pSrc.all == old(pSrc.all) - {this}
      ensures forall h :: h in pSrc.chain <==> h in old(pSrc.chain) && h != this
    {
      hide Linked;
      if isAttached {
        ghost var m :| 0 <= m < |pSrc.chain| && pSrc.chain[m] == this;
        RemoveAtMembers(pSrc.chain, m);
        Unlink(m);
      }
      hide RemoveAt;
      RemoveFromAll();
    }

    ghost method RemoveFromAll()
      requires Linked(pSrc.pBackup, pSrc.chain)
      requires forall k, l :: 0 <= k < l < |pSrc.chain| ==> pSrc.chain[k] != pSrc.chain[l]
      requires forall h :: h in pSrc.chain ==> h in pSrc.all && h != this
      requires forall h :: h in pSrc.all && h != this ==> (h.isAttached <==> h in pSrc.chain)
      modifies pSrc`all
      ensures pSrc.ChainOk() && pSrc.all == old(pSrc.all) - {this}
    {
      hide Linked;
      pSrc.all := pSrc.all - {this};
    }

    method Unlink(ghost m: nat)
      requires Linked(pSrc.pBackup, pSrc.chain) && m < |pSrc.chain| && pSrc.chain[m] == this
      requires forall k, l :: 0 <= k < l < |pSrc.chain| ==> pSrc.chain[k] != pSrc.chain[l]
      requires forall h :: h in pSrc.chain ==> h in pSrc.all
      modifies pSrc`pBackup, pSrc`chain, pSrc.all`pNext
      ensures pSrc.chain == RemoveAt(old(pSrc.chain), m)
      ensures Linked(pSrc.pBackup, pSrc.chain)
    {
      hide RemoveAt;
      ghost var c := pSrc.chain;
      assert pSrc.pBackup == c[0] && pNext == Nth(c, m + 1);
      if pSrc.pBackup == this {
        assert m == 0;
        pSrc.pBackup := pNext;
      } else {
        var pp := Predecessor(m);
        pp.pNext := pNext;
      }
      ghost var d := RemoveAt(c, m);
      forall k | 0 <= k < |d| ensures d[k].pNext == Nth(d, k + 1) {}
      pSrc.chain := d;
    }

    /** The handle whose pNext is this one. */
    method Predecessor(ghost m: nat) returns (pp: Handle)
      requires Linked(pSrc.pBackup, pSrc.chain) && 0 < m < |pSrc.chain| && pSrc.chain[m] == this
      requires forall k, l :: 0 <= k < l < |pSrc.chain| ==> pSrc.chain[k] != pSrc.chain[l]
      ensures pp == pSrc.chain[m - 1]
    {
      pp := pSrc.pBackup;
      ghost var k := 0;
      while pp.pNext != this
        invariant 0 <= k < m && pp == pSrc.chain[k]
        decreases m - k
      {
        pp := pp.pNext;
        k := k + 1;
      }
    }

    /** sqlite3_backup_step() */
    method Step(nPage: int, env: Env) returns (r: Rc)
      requires pSrc.Valid() && this in pSrc.all && IsEnv(env, pgszDest)
      modifies this, pSrc`pBackup, pSrc`chain
      ensures pSrc.Valid()
      ensures r == rc
      ensures StepOutcome(old(rc), pSrc.inWrite, old(bDestLocked), (destWal || destMemdb) && pSrc.pgsz != pgszDest,
                          nPage >= 0 && old(iNext) <= pSrc.nPage && old(iNext) + nPage <= pSrc.nPage,
                          Meets(env, old(iNext), nPage, pSrc.nPage, pSrc.pgsz, pgszDest), env, r,
                          dest == old(dest) && committed == old(committed) && iNext == old(iNext), bDestLocked)
      ensures committed == if old(rc == Ok || rc == Busy || rc == Locked) && r == Done then dest else old(committed)
      ensures old(rc == Ok || rc == Busy || rc == Locked) && r == Done ==>
                && Complete(pSrc.data, pSrc.pgsz, dest, destWal)
                && HeaderWritten(dest, iDestSchema + 1, destWal, env.counter, env.version)
                && Big4(dest, 40) != iDestSchema
      ensures iDestSchema == if !old(bDestLocked) && bDestLocked then env.iDestSchema else old(iDestSchema)
      ensures r == Ok ==>
                && isAttached && bDestLocked && iNext <= pSrc.nPage
                && nPage >= 0 && iNext == old(iNext) + nPage
                && nPagecount == pSrc.nPage && nRemaining == (pSrc.nPage + 1 - iNext) % U32
    {
      hide Synced, IsPageSize, PageStart, Complete, HeaderWritten, Big4, StepOutcome, InStep;
      StepStart(pSrc, this);
      var attach;
      r, attach := CopyAndCommit(nPage, env);
      if attach { Attach(); }
    }

    /** Transactions, the lock on the destination, and the page-size check. */
    method Open(env: Env) returns (r: Rc)
      modifies this`iDestSchema, this`bDestLocked
      ensures r == if pSrc.inWrite then Busy
                   else if env.beginSrc != Ok then env.beginSrc
                   else if !old(bDestLocked) && env.lockDest != Ok then env.lockDest
                   else if (destWal || destMemdb) && pSrc.pgsz != pgszDest then ReadOnly
                   else Ok
      ensures bDestLocked == (old(bDestLocked) || (!pSrc.inWrite && env.beginSrc == Ok && env.lockDest == Ok))
      ensures iDestSchema == if !old(bDestLocked) && bDestLocked then env.iDestSchema else old(iDestSchema)
    {
      r := if pSrc.inWrite then Busy else env.beginSrc;
      if r == Ok && !bDestLocked {
        r := env.lockDest;
        if r == Ok { bDestLocked, iDestSchema := true, env.iDestSchema; }
      }
      if r == Ok && (destWal || destMemdb) && pSrc.pgsz != pgszDest { r := ReadOnly; }
    }

    /** All of sqlite3_backup_step() but the registration with the source pager. */
    method CopyAndCommit(nPage: int, env: Env) returns (r: Rc, attach: bool)
      requires pSrc.pgsz > 0 && InStep(pSrc.data, pSrc.pgsz, isAttached) && IsEnv(env, pgszDest)
      requires IsPageSize(pSrc.pgsz) && |pSrc.data| == pSrc.nPage * pSrc.pgsz
      modifies this`dest, this`iDestSchema, this`bDestLocked, this`iNext, this`rc, this`nRemaining, this`nPagecount
      modifies this`committed
      ensures committed == if !IsFatal(old(rc)) && r == Done then dest else old(committed)
      ensures r == rc && InStep(pSrc.data, pSrc.pgsz, isAttached || attach)
      ensures attach ==> !isAttached && r == Ok
      ensures StepOutcome(old(rc), pSrc.inWrite, old(bDestLocked), (destWal || destMemdb) && pSrc.pgsz != pgszDest,
                          nPage >= 0 && old(iNext) <= pSrc.nPage && old(iNext) + nPage <= pSrc.nPage,
                          Meets(env, old(iNext), nPage, pSrc.nPage, pSrc.pgsz, pgszDest), env, r,
                          dest == old(dest) && committed == old(committed) && iNext == old(iNext), bDestLocked)
      ensures iDestSchema == if !old(bDestLocked) && bDestLocked then env.iDestSchema else old(iDestSchema)
      ensures !IsFatal(old(rc)) && r == Done ==>
                && Complete(pSrc.data, pSrc.pgsz, dest, destWal)
                && HeaderWritten(dest, iDestSchema + 1, destWal, env.counter, env.version)
                && Big4(dest, 40) != iDestSchema
      ensures r == Ok ==>
                && (isAttached || attach) && bDestLocked && iNext <= pSrc.nPage
                && nPage >= 0 && iNext == old(iNext) + nPage
                && nPagecount == pSrc.nPage && nRemaining == (pSrc.nPage + 1 - iNext) % U32
    {
      hide Synced, IsPageSize, PageStart, Complete, Opened, HeaderWritten, Big4, StepOutcome, Meets;
      PageSizePositive(pgszDest);
      attach := false;
      ghost var mismatch := (destWal || destMemdb) && pSrc.pgsz != pgszDest;
      ghost var more := nPage >= 0 && iNext <= pSrc.nPage && iNext + nPage <= pSrc.nPage;
      ghost var fails := Meets(env, iNext, nPage, pSrc.nPage, pSrc.pgsz, pgszDest);
      if IsFatal(rc) {
        FatalOutcome(rc, pSrc.inWrite, bDestLocked, mismatch, more, fails, env);
        return rc, false;
      }
      ghost var o := Opened(pSrc.inWrite, bDestLocked, env, mismatch);
      OpenedNotDone(pSrc.inWrite, bDestLocked, env, mismatch, pgszDest);
      r, attach := Attempt(nPage, env);
      if r == Done { committed := dest; }
      rc := r;
      OutcomeOf(old(rc), pSrc.inWrite, old(bDestLocked), mismatch, more, fails, env, o, r,
                dest == old(dest) && committed == old(committed) && iNext == old(iNext), bDestLocked);
    }

    /** Copy, unless something before the first page stands against it. */
    method Attempt(nPage: int, env: Env) returns (r: Rc, attach: bool)
      requires pSrc.pgsz > 0 && InStep(pSrc.data, pSrc.pgsz, isAttached) && IsEnv(env, pgszDest)
      requires IsPageSize(pSrc.pgsz) && |pSrc.data| == pSrc.nPage * pSrc.pgsz && !IsFatal(rc)
      modifies this`dest, this`iDestSchema, this`bDestLocked, this`iNext, this`nRemaining, this`nPagecount
      ensures iNext >= 1 && (!IsFatal(r) ==> InStep(pSrc.data, pSrc.pgsz, isAttached || attach))
      ensures attach ==> !isAttached && r == Ok
      ensures var o := Opened(pSrc.inWrite, old(bDestLocked), env, (destWal || destMemdb) && pSrc.pgsz != pgszDest);
              && (o != Ok ==> r == o && dest == old(dest) && iNext == old(iNext))
              && (o == Ok ==>
                    if Meets(env, old(iNext), nPage, pSrc.nPage, pSrc.pgsz, pgszDest) then r.Failed?
                    else r == if nPage >= 0 && old(iNext) <= pSrc.nPage && old(iNext) + nPage <= pSrc.nPage then Ok
                            else if env.commit == Ok then Done else env.commit)
      ensures bDestLocked == (old(bDestLocked) || (!pSrc.inWrite && env.beginSrc == Ok && env.lockDest == Ok))
      ensures iDestSchema == if !old(bDestLocked) && bDestLocked then env.iDestSchema else old(iDestSchema)
      ensures r == Done ==>
                && Complete(pSrc.data, pSrc.pgsz, dest, destWal)
                && HeaderWritten(dest, iDestSchema + 1, destWal, env.counter, env.version)
                && Big4(dest, 40) != iDestSchema
      ensures r == Ok ==>
                && (isAttached || attach) && bDestLocked && iNext <= pSrc.nPage
                && nPage >= 0 && iNext == old(iNext) + nPage
                && nPagecount == pSrc.nPage && nRemaining == (pSrc.nPage + 1 - iNext) % U32
    {
      hide Synced, IsPageSize, PageStart, Complete, Opened, HeaderWritten, Big4;
      attach := false;
      OpenedNotDone(pSrc.inWrite, bDestLocked, env, (destWal || destMemdb) && pSrc.pgsz != pgszDest, pgszDest);
      OpenedMeans(pSrc.inWrite, bDestLocked, env, (destWal || destMemdb) && pSrc.pgsz != pgszDest);
      r := Open(env);
      if r == Ok { r, attach := CopyOpened(nPage, env); }
    }

    /** The copy loop and, at the end of the source, the commit. */
    method CopyOpened(nPage: int, env: Env) returns (r: Rc, attach: bool)
      requires pSrc.pgsz > 0 && InStep(pSrc.data, pSrc.pgsz, isAttached) && IsEnv(env, pgszDest)
      requires IsPageSize(pSrc.pgsz) && |pSrc.data| == pSrc.nPage * pSrc.pgsz && !IsFatal(rc) && bDestLocked
      modifies this`dest, this`iNext, this`nRemaining, this`nPagecount
      ensures iNext >= 1 && (r == Ok ==> InStep(pSrc.data, pSrc.pgsz, isAttached || attach))
      ensures attach ==> !isAttached && r == Ok
      ensures r == Ok || IsFatal(r)
      ensures if Meets(env, old(iNext), nPage, pSrc.nPage, pSrc.pgsz, pgszDest) then r.Failed?
              else r == if nPage >= 0 && old(iNext) <= pSrc.nPage && old(iNext) + nPage <= pSrc.nPage then Ok
                      else if env.commit == Ok then Done else env.commit
      ensures r == Done ==>
                && Complete(pSrc.data, pSrc.pgsz, dest, destWal)
                && HeaderWritten(dest, iDestSchema + 1, destWal, env.counter, env.version)
                && Big4(dest, 40) != iDestSchema
      ensures r == Ok ==>
                && (isAttached || attach) && iNext <= pSrc.nPage && nPage >= 0 && iNext == old(iNext) + nPage
                && nPagecount == pSrc.nPage && nRemaining == (pSrc.nPage + 1 - iNext) % U32
    {
      hide Synced, IsPageSize, PageStart, Complete, HeaderWritten, Big4, Meets, IsNewDb, OnLockPage;
      PageSizePositive(pgszDest);
      attach := false;
      var nSrcPage := pSrc.nPage;
      r, dest, iNext := CopyPages(pSrc.data, pSrc.pgsz, nSrcPage, dest, pgszDest, iNext, nPage, env);
      if r == Ok {
        nPagecount := nSrcPage;
        nRemaining := (nSrcPage + 1 - iNext) % U32;
        if iNext > nSrcPage {
          AllSynced(pSrc.data, pSrc.pgsz, nSrcPage, dest, pgszDest, iNext);
          var cookie := (iDestSchema + 1) % U32;
          r, dest := FinishCommit(dest, pSrc.data, pSrc.pgsz, pgszDest, destWal, nSrcPage, cookie, env);
          if r == Done { CookieChanges(dest, iDestSchema, destWal, env.counter, env.version); }
        } else {
          attach := !isAttached;
        }
      }
    }
  }

  /** The schema cookie is the next one, in 32 bits, and so a different one. */
  lemma CookieChanges(d: seq<Byte>, iDestSchema: nat, wal: bool, counter: nat, version: nat)
    requires HeaderWritten(d, (iDestSchema + 1) % U32, wal, counter, version)
    ensures HeaderWritten(d, iDestSchema + 1, wal, counter, version) && Big4(d, 40) != iDestSchema
  {
    hide Big4;
  }

  /** What a step comes to. A handle that has failed or is done stays so; a source in a write
      transaction is busy; then come the source's read transaction, the lock on the
      destination, and the page sizes. Up to there nothing is copied (`idle`), and the
      destination is only locked in its turn. After that the step reaches the end of the
      pages it was asked for, or commits, unless it meets a page that fails. */
  predicate StepOutcome(was: Rc, inWrite: bool, wasLocked: bool, mismatch: bool, more: bool, fails: bool, env: Env,
                        r: Rc, idle: bool, locked: bool)
  {
    if was != Ok && was != Busy && was != Locked then r == was && idle && locked == wasLocked
    else if inWrite then r == Busy && idle && locked == wasLocked
    else if env.beginSrc != Ok then r == env.beginSrc && idle && locked == wasLocked
    else if !wasLocked && env.lockDest != Ok then r == env.lockDest && idle && !locked
    else if mismatch then r == ReadOnly && idle && locked
    else
      && locked
      && if fails then r.Failed? else r == if more then Ok else if env.commit == Ok then Done else env.commit
  }

  lemma FatalOutcome(was: Rc, inWrite: bool, wasLocked: bool, mismatch: bool, more: bool, fails: bool, env: Env)
    requires IsFatal(was)
    ensures StepOutcome(was, inWrite, wasLocked, mismatch, more, fails, env, was, true, wasLocked)
  {
  }

  lemma OutcomeOf(was: Rc, inWrite: bool, wasLocked: bool, mismatch: bool, more: bool, fails: bool, env: Env, o: Rc,
                  r: Rc, idle: bool, locked: bool)
    requires !IsFatal(was) && o == Opened(inWrite, wasLocked, env, mismatch)
    requires locked == (wasLocked || (!inWrite && env.beginSrc == Ok && env.lockDest == Ok))
    requires o != Ok ==> r == o && idle
    requires o == Ok ==> if fails then r.Failed?
                         else r == if more then Ok else if env.commit == Ok then Done else env.commit
    ensures StepOutcome(was, inWrite, wasLocked, mismatch, more, fails, env, r, idle, locked)
  {
  }

  lemma StepStart(s: Source, h: Handle)
    requires s.Valid() && h in s.all
    ensures s.pgsz > 0 && IsPageSize(s.pgsz) && |s.data| == s.nPage * s.pgsz && h.pSrc == s
    ensures h.InStep(s.data, s.pgsz, h.isAttached)
  {
    assert s.HandleOk(h);
  }

  lemma OpenedMeans(inWrite: bool, destLocked: bool, env: Env, mismatch: bool)
    ensures Opened(inWrite, destLocked, env, mismatch)
         == if inWrite then Busy
            else if env.beginSrc != Ok then env.beginSrc
            else if !destLocked && env.lockDest != Ok then env.lockDest
            else if mismatch then ReadOnly
            else Ok
  {
  }

  lemma OpenedNotDone(inWrite: bool, destLocked: bool, env: Env, mismatch: bool, pgszDest: nat)
    requires IsEnv(env, pgszDest)
    ensures Opened(inWrite, destLocked, env, mismatch) != Done
    ensures Opened(inWrite, destLocked, env, mismatch) == Ok ==>
              !inWrite && env.beginSrc == Ok && (destLocked || env.lockDest == Ok)
  {
  }

  lemma AllSynced(data: seq<Byte>, pgszSrc: nat, nSrcPage: nat, dest: seq<Byte>, pgszDest: nat, iNext: nat)
    requires pgszSrc > 0 && pgszDest > 0 && |data| == nSrcPage * pgszSrc && iNext > nSrcPage
    requires Synced(data, pgszSrc, dest, pgszDest, PageStart(iNext, pgszSrc))
    ensures Synced(data, pgszSrc, dest, pgszDest, |data|)
  {
    MulMonotone(nSrcPage, iNext - 1, pgszSrc);
  }

  /** The copy loop of sqlite3_backup_step(); a negative nPage copies everything. */
  method CopyPages(data: seq<Byte>, pgszSrc: nat, nSrcPage: nat, dest: seq<Byte>, pgszDest: nat, iFirst: nat,
                   nPage: int, env: Env) returns (rc: Rc, d: seq<Byte>, iNext: nat)
    requires IsPageSize(pgszSrc) && IsPageSize(pgszDest) && iFirst >= 1
    requires |data| == nSrcPage * pgszSrc && |dest| % pgszDest == 0
    requires Synced(data, pgszSrc, dest, pgszDest, PageStart(iFirst, pgszSrc))
    ensures if Meets(env, iFirst, nPage, nSrcPage, pgszSrc, pgszDest) then rc.Failed? else rc == Ok
    ensures iNext >= iFirst
    ensures rc == Ok ==> |d| % pgszDest == 0 && Synced(data, pgszSrc, d, pgszDest, PageStart(iNext, pgszSrc))
    ensures rc == Ok ==> iNext == if iFirst > nSrcPage then iFirst
                                  else if nPage < 0 || iFirst + nPage > nSrcPage then nSrcPage + 1
                                  else iFirst + nPage
  {
    rc, d, iNext := Ok, dest, iFirst;
    var ii := 0;
    while (nPage < 0 || ii < nPage) && iNext <= nSrcPage && rc == Ok
      invariant 0 <= ii && iNext == iFirst + ii && (nPage >= 0 ==> ii <= nPage || ii == 0)
      invariant iNext <= nSrcPage + 1 || ii == 0
      invariant rc == Ok || (rc.Failed? && Meets(env, iFirst, nPage, nSrcPage, pgszSrc, pgszDest))
      invariant rc == Ok ==> !Meets(env, iFirst, ii, nSrcPage, pgszSrc, pgszDest)
      invariant rc == Ok ==> |d| % pgszDest == 0 && Synced(data, pgszSrc, d, pgszDest, PageStart(iNext, pgszSrc))
      decreases rc == Ok, nSrcPage + 1 - iNext
    {
      rc, d := CopyOne(data, pgszSrc, nSrcPage, d, pgszDest, iNext, env);
      iNext := iNext + 1;
      ii := ii + 1;
    }
  }

  /** Page pg of the source cannot be copied: it cannot be read, or a page of the destination
      that it lies on cannot be written. */
  ghost predicate FailsOn(env: Env, pg: nat, pgszSrc: nat, pgszDest: nat)
    requires pg > 0 && pgszSrc > 0 && pgszDest > 0
  {
    && pg == env.failPage && pg != LockPage(pgszSrc)
    && (env.failAt < 0 || HitsPage(PageStart(pg, pgszSrc), PageStart(pg, pgszSrc) + pgszSrc, pgszDest, env.failAt))
  }

  /** Copying nPage pages, or all if it is negative, meets the page that fails. */
  ghost predicate Meets(env: Env, iFirst: nat, nPage: int, nSrcPage: nat, pgszSrc: nat, pgszDest: nat)
    requires iFirst > 0 && pgszSrc > 0 && pgszDest > 0
  {
    && iFirst <= env.failPage <= nSrcPage && (nPage < 0 || env.failPage < iFirst + nPage)
    && FailsOn(env, env.failPage, pgszSrc, pgszDest)
  }

  /** One turn of that loop: the lock page is stepped over. */
  method CopyOne(data: seq<Byte>, pgszSrc: nat, nSrcPage: nat, dest: seq<Byte>, pgszDest: nat, iSrcPg: nat, env: Env)
    returns (rc: Rc, d: seq<Byte>)
    requires IsPageSize(pgszSrc) && IsPageSize(pgszDest) && 1 <= iSrcPg <= nSrcPage
    requires |data| == nSrcPage * pgszSrc && |dest| % pgszDest == 0
    requires Synced(data, pgszSrc, dest, pgszDest, PageStart(iSrcPg, pgszSrc))
    ensures if FailsOn(env, iSrcPg, pgszSrc, pgszDest) then rc.Failed? else rc == Ok
    ensures rc == Ok ==> |d| % pgszDest == 0 && Synced(data, pgszSrc, d, pgszDest, PageStart(iSrcPg + 1, pgszSrc))
  {
    rc, d := Ok, dest;
    var base := PageStart(iSrcPg, pgszSrc);
    PageFits(iSrcPg, nSrcPage, pgszSrc);
    if iSrcPg != LockPage(pgszSrc) {
      if env.failPage == iSrcPg && env.failAt < 0 { return Failed(1), dest; }
      var zSrcData := data[base..base + pgszSrc];
      rc, d := BackupOnePage(dest, pgszSrc, pgszDest, iSrcPg, zSrcData, false, nSrcPage,
                             if env.failPage == iSrcPg then env.failAt else -1);
      if rc == Ok { CopiedNext(data, pgszSrc, dest, d, pgszDest, iSrcPg, nSrcPage); }
    } else {
      SkippedNext(data, pgszSrc, dest, pgszDest, iSrcPg);
    }
  }

  lemma PageFits(pg: nat, nPage: nat, p: nat)
    requires 1 <= pg <= nPage
    ensures PageStart(pg, p) + p <= nPage * p
  {
    MulMonotone(pg, nPage, p);
    assert pg * p == PageStart(pg, p) + p;
  }

  lemma NothingSynced(data: seq<Byte>, pgszSrc: nat, dest: seq<Byte>, pgszDest: nat)
    requires pgszSrc > 0 && pgszDest > 0
    ensures Synced(data, pgszSrc, dest, pgszDest, PageStart(1, pgszSrc))
  {
  }

  function Nth(chain: seq<Handle>, k: nat): Handle?
  {
    if k < |chain| then chain[k] else null
  }

  function RemoveAt(chain: seq<Handle>, m: nat): (r: seq<Handle>)
    requires m < |chain|
    ensures |r| == |chain| - 1
    ensures forall j :: 0 <= j < |r| ==> r[j] == chain[if j < m then j else j + 1]
  {
    chain[..m] + chain[m + 1..]
  }

  lemma RemoveAtMembers(chain: seq<Handle>, m: nat)
    requires m < |chain| && forall k, l :: 0 <= k < l < |chain| ==> chain[k] != chain[l]
    ensures var r := RemoveAt(chain, m);
            && (forall k, l :: 0 <= k < l < |r| ==> r[k] != r[l])
            && (forall g :: g in r <==> g in chain && g != chain[m])
  {
    hide RemoveAt;
    var r := RemoveAt(chain, m);
    forall g | g in chain && g != chain[m] ensures g in r {
      var k :| 0 <= k < |chain| && chain[k] == g;
      assert r[if k < m then k else k - 1] == g;
    }
  }

  ghost predicate Linked(first: Handle?, chain: seq<Handle>)
    reads chain`pNext
  {
    && first == Nth(chain, 0)
    && forall k :: 0 <= k < |chain| ==> chain[k].pNext == Nth(chain, k + 1)
  }

  /** The source database file and its pager's list of attached backups. */
  class Source {
    const pgsz: nat
    var data: seq<Byte>
    var nPage: nat
    var inWrite: bool           // the source connection is in a write transaction
    var pBackup: Handle?
    ghost var chain: seq<Handle>
    ghost var all: set<Handle>  // handles not yet finished

    /** A handle that can still make progress has every page below iNext in its
        destination; one that is not attached has copied nothing. */
    ghost predicate HandleOk(h: Handle)
      requires pgsz > 0
      reads this`data, h`dest, h`committed, h`rc, h`iNext, h`bDestLocked, h`isAttached
    {
      h.pSrc == this && h.InStep(data, pgsz, h.isAttached)
    }

    /** pBackup and the pNext links spell out `chain`. */
    ghost predicate ChainOk()
      reads this`pBackup, this`chain, this`all, all`pNext, all`isAttached, chain`pNext
    {
      && (forall h :: h in chain ==> h in all)
      && (forall k, l :: 0 <= k < l < |chain| ==> chain[k] != chain[l])
      && Linked(pBackup, chain)
      && (forall h :: h in all ==> (h.isAttached <==> h in chain))
    }

    ghost predicate Valid()
      reads this, all, chain`pNext
    {
      && IsPageSize(pgsz) && |data| == nPage * pgsz
      && ChainOk()
      && forall h :: h in all ==> HandleOk(h)
    }

    constructor (pgsz: nat, data: seq<Byte>, nPage: nat)
      requires IsPageSize(pgsz) && |data| == nPage * pgsz
      ensures Valid() && all == {} && this.pgsz == pgsz && this.data == data
    {
      this.pgsz, this.data, this.nPage := pgsz, data, nPage;
      inWrite, pBackup, chain, all := false, null, [], {};
    }

    /** The pager has written page pg: sqlite3BackupUpdate() pushes it to every attached
        backup that has already copied that page.  `bad` names a backup whose destination
        reports an error. */
    method WritePage(pg: nat, content: seq<Byte>, bad: Handle?, failAt: int)
      requires Valid() && 1 <= pg <= nPage + 1 && pg != LockPage(pgsz) && |content| == pgsz
      modifies this`data, this`nPage, all`dest, all`rc
      ensures Valid()
      ensures PageStart(pg, pgsz) <= |old(data)| && data == WithPage(old(data), pgsz, pg, content)
      ensures nPage == if pg > old(nPage) then pg else old(nPage)
      ensures forall h :: h in all && h != bad ==> h.rc == old(h.rc)
      ensures forall h :: h in all ==> Pushed(old(h.rc), old(h.dest), h.rc, h.dest)
    {
      ghost var before := data;
      PutPage(pg, content);
      if pBackup != null { BackupUpdate(before, pg, content, bad, failAt); }
    }

    /** The page reaches the file; no backup has been told yet. */
    method PutPage(pg: nat, content: seq<Byte>)
      requires Valid() && 1 <= pg <= nPage + 1 && pg != LockPage(pgsz) && |content| == pgsz
      modifies this`data, this`nPage
      ensures PageStart(pg, pgsz) <= |old(data)| && data == WithPage(old(data), pgsz, pg, content)
      ensures |old(data)| < PageStart(pg, pgsz) + pgsz ==> |old(data)| == PageStart(pg, pgsz)
      ensures |data| == nPage * pgsz && nPage == if pg > old(nPage) then pg else old(nPage)
      ensures ChainOk()
      ensures forall h :: h in all ==> h.pSrc == this && h.InStep(old(data), pgsz, h.isAttached)
      ensures forall h :: h in all && h !in chain ==> HandleOk(h)
    {
      PageOffset(pg, nPage, pgsz);
      var newData, n := WithPage(data, pgsz, pg, content), if pg > nPage then pg else nPage;
      assert |newData| == n * pgsz;
      SetContent(newData, n);
    }

    /** The file changes; the handles are as they were. */
    method SetContent(newData: seq<Byte>, n: nat)
      requires Valid() && |newData| == n * pgsz
      modifies this`data, this`nPage
      ensures data == newData && nPage == n && ChainOk() && pgsz > 0
      ensures forall h :: h in all ==> h.pSrc == this && h.InStep(old(data), pgsz, h.isAttached)
      ensures forall h :: h in all && h !in chain ==> HandleOk(h)
    {
      ghost var before := data;
      assert pgsz > 0;
      hide IsPageSize, Handle.InStep, ChainOk;
      data, nPage := newData, n;
      assert forall h :: h in all ==> h.pSrc == this && h.InStep(before, pgsz, h.isAttached) by {
        assert forall h :: h in all ==> old(HandleOk(h));
      }
      UnchainedInStep(this, before);
    }

    /** backupUpdate(): walk the list of attached backups. */
    method BackupUpdate(ghost before: seq<Byte>, pg: nat, content: seq<Byte>, bad: Handle?, failAt: int)
      requires IsPageSize(pgsz) && pg > 0 && pg != LockPage(pgsz) && |content| == pgsz
      requires PageStart(pg, pgsz) <= |before| && data == WithPage(before, pgsz, pg, content)
      requires |before| < PageStart(pg, pgsz) + pgsz ==> |before| == PageStart(pg, pgsz)
      requires ChainOk() && pBackup != null
      requires forall h :: h in chain ==> h.pSrc == this && h.InStep(before, pgsz, h.isAttached)
      modifies chain`dest, chain`rc
      ensures forall h :: h in chain ==> HandleOk(h)
      ensures forall h :: h in chain && h != bad ==> h.rc == old(h.rc)
      ensures forall h :: h in chain ==> Pushed(old(h.rc), old(h.dest), h.rc, h.dest)
    {
      hide IsPageSize, Handle.InStep, Handle.Turned, WithPage, PageStart, LockPage, ChainOk, HandleOk, Linked;
      PageSizePositive(pgsz);
      ChainFacts(this);
      ghost var was := Snapshot(chain);
      NoneTurned(this, before, was);
      var p := pBackup;
      ghost var k := 0;
      while p != null
        modifies chain`dest, chain`rc
        invariant 0 <= k <= |chain| && p == Nth(chain, k)
        invariant forall j :: 0 <= j < |chain| ==> chain[j].Turned(data, before, pgsz, j < k, was[j], chain[j] == bad)
        decreases |chain| - k
      {
        assert p == chain[k];
        p.PushTurn(data, before, pgsz, nPage, pg, content, was[k], p == bad, failAt);
        p := p.pNext;
        k := k + 1;
      }
      AllTurned(this, before, was, bad);
    }

    /** The source grows over its own lock page, which is never written or pushed. */
    method GrowOverLockPage(content: seq<Byte>)
      requires Valid() && nPage + 1 == LockPage(pgsz) && |content| == pgsz
      modifies this`data, this`nPage
      ensures Valid() && data == old(data) + content && nPage == old(nPage) + 1
    {
      PageOffset(nPage + 1, nPage, pgsz);
      ghost var before := data;
      assert data + content == WithPage(data, pgsz, nPage + 1, content);
      data := data + content;
      nPage := nPage + 1;
      forall h | h in all ensures HandleOk(h) {
        assert h.InStep(before, pgsz, h.isAttached);
        if !IsFatal(h.rc) {
          UncopiedPage(before, pgsz, nPage, content, h.dest, h.pgszDest, PageStart(h.iNext, pgsz));
        }
      }
    }

    /** The source is truncated. */
    method Shrink(n: nat)
      requires Valid() && n <= nPage
      modifies this`data, this`nPage
      ensures Valid() && nPage == n && n * pgsz <= |old(data)| && data == old(data)[..n * pgsz]
    {
      MulMonotone(n, nPage, pgsz);
      ghost var before := data;
      data, nPage := data[..n * pgsz], n;
      assert forall h :: h in all ==> h.InStep(before, pgsz, h.isAttached);
    }

    /** Another process has changed the file: sqlite3BackupRestart() starts every attached
        backup again from the first page. */
    method ExternalChange(newData: seq<Byte>, n: nat)
      requires Valid() && |newData| == n * pgsz
      modifies this`data, this`nPage, all`iNext
      ensures Valid() && data == newData && nPage == n
      ensures forall h :: h in chain ==> h.iNext == 1
    {
      hide Handle.InStep, HandleOk, IsPageSize;
      ghost var before := data;
      SetContent(newData, n);
      BackupRestart(before);
    }

    /** sqlite3BackupRestart() */
    method BackupRestart(ghost before: seq<Byte>)
      requires pgsz > 0 && ChainOk()
      requires forall h :: h in chain ==> h.pSrc == this && h.InStep(before, pgsz, h.isAttached)
      modifies chain`iNext
      ensures forall h :: h in chain ==> HandleOk(h) && h.iNext == 1
    {
      ChainFacts(this);
      hide Handle.InStep, Handle.Restarted, ChainOk, HandleOk, Linked;
      var p := pBackup;
      ghost var k := 0;
      while p != null
        modifies chain`iNext
        invariant 0 <= k <= |chain| && p == Nth(chain, k)
        invariant forall j :: 0 <= j < |chain| ==> chain[j].Restarted(data, before, pgsz, j < k)
        decreases |chain| - k
      {
        assert p == chain[k];
        RestartedMeans(p, data, before, pgsz, false);
        p.Restart(before, pgsz, data);
        p := p.pNext;
        k := k + 1;
      }
      forall h | h in chain ensures HandleOk(h) && h.iNext == 1 {
        RestartedMeans(h, data, before, pgsz, true);
        InStepIsOk(this, h);
      }
    }
  }

  lemma RestartedMeans(h: Handle, data: seq<Byte>, before: seq<Byte>, pgsz: nat, done: bool)
    requires pgsz > 0
    ensures h.Restarted(data, before, pgsz, done) <==>
              h.InStep(if done then data else before, pgsz, h.isAttached) && (done ==> h.iNext == 1)
  {
  }

  ghost function Snapshot(chain: seq<Handle>): (was: seq<(Rc, seq<Byte>)>)
    reads chain
    ensures |was| == |chain| && forall j :: 0 <= j < |chain| ==> was[j] == (chain[j].rc, chain[j].dest)
  {
    if chain == [] then [] else [(chain[0].rc, chain[0].dest)] + Snapshot(chain[1..])
  }

  lemma NoneTurned(s: Source, before: seq<Byte>, was: seq<(Rc, seq<Byte>)>)
    requires s.pgsz > 0 && was == Snapshot(s.chain)
    requires forall h :: h in s.chain ==> h.pSrc == s && h.InStep(before, s.pgsz, h.isAttached)
    ensures forall j, isBad: bool :: 0 <= j < |s.chain| ==>
              s.chain[j].Turned(s.data, before, s.pgsz, false, was[j], isBad)
  {
  }

  lemma AllTurned(s: Source, before: seq<Byte>, was: seq<(Rc, seq<Byte>)>, bad: Handle?)
    requires s.pgsz > 0 && |was| == |s.chain| && forall h :: h in s.chain ==> h.pSrc == s
    requires forall j :: 0 <= j < |s.chain| ==>
               s.chain[j].Turned(s.data, before, s.pgsz, true, was[j], s.chain[j] == bad)
    ensures forall h :: h in s.chain ==> s.HandleOk(h)
    ensures forall j :: 0 <= j < |s.chain| ==>
              && (s.chain[j] != bad ==> s.chain[j].rc == was[j].0)
              && Pushed(was[j].0, was[j].1, s.chain[j].rc, s.chain[j].dest)
  {
    hide Handle.InStep;
  }

  lemma PageSizePositive(p: nat)
    requires IsPageSize(p)
    ensures p > 0
  {
  }

  lemma ChainFacts(s: Source)
    requires s.ChainOk()
    ensures s.pBackup == Nth(s.chain, 0) && forall h :: h in s.chain ==> h in s.all
    ensures forall k :: 0 <= k < |s.chain| ==> s.chain[k].pNext == Nth(s.chain, k + 1)
    ensures forall k, l :: 0 <= k < l < |s.chain| ==> s.chain[k] != s.chain[l]
  {
  }

  lemma InStepIsOk(s: Source, h: Handle)
    requires s.pgsz > 0 && h.pSrc == s && h.InStep(s.data, s.pgsz, h.isAttached)
    ensures s.HandleOk(h)
  {
  }

  lemma PageOffset(pg: nat, nPage: nat, p: nat)
    requires 1 <= pg <= nPage + 1
    ensures PageStart(pg, p) <= nPage * p
    ensures nPage * p < PageStart(pg, p) + p ==> nPage * p == PageStart(pg, p)
    ensures pg <= nPage ==> PageStart(pg, p) + p <= nPage * p
    ensures pg == nPage + 1 ==> PageStart(pg, p) == nPage * p && PageStart(pg, p) + p == pg * p
  {
    MulMonotone(pg - 1, nPage, p);
    if pg <= nPage { PageFits(pg, nPage, p); }
  }

  lemma UnchainedInStep(s: Source, before: seq<Byte>)
    requires s.pgsz > 0 && s.ChainOk()
    requires forall h :: h in s.all ==> h.pSrc == s && h.InStep(before, s.pgsz, h.isAttached)
    ensures forall h :: h in s.all && h !in s.chain ==> s.HandleOk(h)
  {
    forall h | h in s.all && h !in s.chain ensures s.HandleOk(h) {
      UnattachedInStep(h, before, s.data, s.pgsz);
    }
  }

  /** A handle that is not attached has copied nothing, so any change leaves it in step. */
  lemma UnattachedInStep(h: Handle, before: seq<Byte>, data: seq<Byte>, pgsz: nat)
    requires pgsz > 0 && h.InStep(before, pgsz, h.isAttached) && !h.isAttached
    ensures h.InStep(data, pgsz, h.isAttached)
  {
  }
}
