// Whole runs: any number of backups of one source, opened and finished at any time, with
// writes, growth, truncation, foreign changes and failures of the destinations in between.
module BackupSchedule {
  import opened Arith
  import opened BackupImage
  import opened Backup
  import opened BackupCommit
  import opened BackupRun

  /** In WriteTo, `bad` is the backup whose destination reports an error, if there is one of
      that number; a backup is known by the number of backups opened before it. */
  datatype Op =
    | OpenNew(pgszDest: nat, destWal: bool, destMemdb: bool, dest: seq<Byte>)
    | StepOn(h: nat, nPage: int, env: Env)
    | FinishOn(h: nat)
    | WriteTo(pg: nat, content: seq<Byte>, bad: nat, failAt: int)
    | GrowOver(content: seq<Byte>)
    | Truncated(n: nat)
    | Changed(newData: seq<Byte>, n: nat)
    | WriteTransaction(open: bool)

  // ---- what the schedule alone determines ----

  datatype Content = Content(data: seq<Byte>, nPage: nat, inWrite: bool)

  predicate Applies(op: Op, pgsz: nat, nPage: nat)
    requires pgsz > 0
  {
    match op
    case OpenNew(pgszDest, _, _, dest) => IsPageSize(pgszDest) && |dest| % pgszDest == 0
    case WriteTo(pg, content, _, _) => 1 <= pg <= nPage + 1 && pg != LockPage(pgsz) && |content| == pgsz
    case GrowOver(content) => nPage + 1 == LockPage(pgsz) && |content| == pgsz
    case Truncated(n) => n <= nPage
    case Changed(newData, n) => |newData| == n * pgsz
    case _ => true
  }

  function Written(s: Content, pgsz: nat, pg: nat, content: seq<Byte>): (r: Content)
    requires pgsz > 0 && |s.data| == s.nPage * pgsz && 1 <= pg <= s.nPage + 1 && |content| == pgsz
    ensures |r.data| == r.nPage * pgsz
  {
    PageOffset(pg, s.nPage, pgsz);
    s.(data := WithPage(s.data, pgsz, pg, content), nPage := if pg > s.nPage then pg else s.nPage)
  }

  function Extended(s: Content, pgsz: nat, content: seq<Byte>): (r: Content)
    requires |s.data| == s.nPage * pgsz && |content| == pgsz
    ensures |r.data| == r.nPage * pgsz
  {
    s.(data := s.data + content, nPage := s.nPage + 1)
  }

  function Cut(s: Content, pgsz: nat, n: nat): (r: Content)
    requires |s.data| == s.nPage * pgsz && n <= s.nPage
    ensures |r.data| == r.nPage * pgsz
  {
    MulMonotone(n, s.nPage, pgsz);
    s.(data := s.data[..n * pgsz], nPage := n)
  }

  /** The source after an operation; one that makes no sense is skipped. */
  function AfterOp(s: Content, pgsz: nat, op: Op): (r: Content)
    requires pgsz > 0 && |s.data| == s.nPage * pgsz
    ensures |r.data| == r.nPage * pgsz
  {
    if !Applies(op, pgsz, s.nPage) then s
    else match op
      case WriteTo(pg, content, _, _) => Written(s, pgsz, pg, content)
      case GrowOver(content) => Extended(s, pgsz, content)
      case Truncated(n) => Cut(s, pgsz, n)
      case Changed(newData, n) => s.(data := newData, nPage := n)
      case WriteTransaction(open) => s.(inWrite := open)
      case _ => s
  }

  /** Every write to a page of the source or the one after its last, other than the lock page,
      is carried out. */
  lemma AfterWrite(s: Content, pgsz: nat, pg: nat, content: seq<Byte>, bad: nat, failAt: int)
    requires pgsz > 0 && |s.data| == s.nPage * pgsz
    ensures var r := AfterOp(s, pgsz, WriteTo(pg, content, bad, failAt));
            if 1 <= pg <= s.nPage + 1 && pg != LockPage(pgsz) && |content| == pgsz then
              && PageStart(pg, pgsz) <= |s.data| && r.data == WithPage(s.data, pgsz, pg, content)
              && r.nPage == (if pg == s.nPage + 1 then pg else s.nPage) && r.inWrite == s.inWrite
            else r == s
  {
    hide WithPage, PageStart, LockPage;
    if 1 <= pg <= s.nPage + 1 { PageOffset(pg, s.nPage, pgsz); }
  }

  /** So are growth over the lock page and truncation. */
  lemma AfterResize(s: Content, pgsz: nat, content: seq<Byte>, n: nat)
    requires pgsz > 0 && |s.data| == s.nPage * pgsz
    ensures AfterOp(s, pgsz, GrowOver(content))
         == if s.nPage + 1 == LockPage(pgsz) && |content| == pgsz
            then Content(s.data + content, s.nPage + 1, s.inWrite) else s
    ensures var r := AfterOp(s, pgsz, Truncated(n));
            if n <= s.nPage then r.nPage == n && r.data <= s.data && r.inWrite == s.inWrite else r == s
  {
    hide LockPage;
    if n <= s.nPage { MulMonotone(n, s.nPage, pgsz); }
  }

  /** So are changes made by others; and nothing else touches the source. */
  lemma AfterOthers(s: Content, pgsz: nat, op: Op)
    requires pgsz > 0 && |s.data| == s.nPage * pgsz && !op.WriteTo? && !op.GrowOver? && !op.Truncated?
    ensures AfterOp(s, pgsz, op)
         == match op
            case Changed(newData, n) => if |newData| == n * pgsz then Content(newData, n, s.inWrite) else s
            case WriteTransaction(open) => Content(s.data, s.nPage, open)
            case _ => s
  {
  }

  function Replay(s: Content, pgsz: nat, ops: seq<Op>): (r: Content)
    requires pgsz > 0 && |s.data| == s.nPage * pgsz
    ensures |r.data| == r.nPage * pgsz
  {
    if ops == [] then s else AfterOp(Replay(s, pgsz, ops[..|ops| - 1]), pgsz, ops[|ops| - 1])
  }

  /** A backup opened so far: not yet finished, and the destination it was opened with. */
  datatype Slot = Slot(live: bool, pgszDest: nat, origin: seq<Byte>)

  predicate Runs(slots: seq<Slot>, op: Op)
  {
    match op
    case StepOn(h, _, env) => h < |slots| && slots[h].live && IsEnv(env, slots[h].pgszDest)
    case FinishOn(h) => h < |slots| && slots[h].live
    case _ => false
  }

  function SlotsAfter(slots: seq<Slot>, op: Op): seq<Slot>
  {
    match op
    case OpenNew(pgszDest, _, _, dest) =>
      if IsPageSize(pgszDest) && |dest| % pgszDest == 0 then slots + [Slot(true, pgszDest, dest)] else slots
    case FinishOn(h) => if Runs(slots, op) then slots[h := slots[h].(live := false)] else slots
    case _ => slots
  }

  function ReplaySlots(ops: seq<Op>): seq<Slot>
  {
    if ops == [] then [] else SlotsAfter(ReplaySlots(ops[..|ops| - 1]), ops[|ops| - 1])
  }

  // ---- what is promised ----

  /** A step of backup i made its destination complete for the source of that moment. */
  ghost predicate CompletedBy(s: Content, pgsz: nat, ops: seq<Op>, i: nat, dest: seq<Byte>, wal: bool)
    requires pgsz > 0 && |s.data| == s.nPage * pgsz
  {
    exists j :: 0 <= j < |ops| && ops[j].StepOn? && ops[j].h == i
                && CompletedAt(Replay(s, pgsz, ops[..j]), pgsz, dest, wal)
  }

  /** Complete for the source of that moment, which is not in a write transaction. */
  ghost predicate CompletedAt(s: Content, pgsz: nat, dest: seq<Byte>, wal: bool)
    requires pgsz > 0
  {
    !s.inWrite && Complete(s.data, pgsz, dest, wal)
  }

  /** An operation after which no destination has changed: in particular no step does
      anything to its destination while the source is in a write transaction. */
  predicate IsQuiet(op: Op, inWrite: bool)
  {
    match op
    case StepOn(_, _, _) => inWrite
    case FinishOn(_) => false
    case WriteTo(_, _, _, _) => false
    case _ => true
  }

  ghost function Dests(hs: seq<Handle>): (d: seq<seq<Byte>>)
    reads hs
    ensures |d| == |hs| && forall i :: 0 <= i < |hs| ==> d[i] == hs[i].dest
  {
    if hs == [] then [] else [hs[0].dest] + Dests(hs[1..])
  }

  /** The destinations before each operation and at the end. */
  ghost predicate HistoryOk(hist: seq<seq<seq<Byte>>>, s: Content, pgsz: nat, ops: seq<Op>)
    requires pgsz > 0 && |s.data| == s.nPage * pgsz
  {
    && |hist| == |ops| + 1
    && forall k :: 0 <= k < |ops| && IsQuiet(ops[k], Replay(s, pgsz, ops[..k]).inWrite) ==> hist[k] <= hist[k + 1]
  }

  /** All or nothing: a backup that is done left a complete destination, and one that is not
      done left, or will leave when it is finished, the destination it was opened with. */
  ghost predicate AllOrNothing(h: Handle, i: nat, slot: Slot, s: Content, pgsz: nat, ops: seq<Op>)
    requires pgsz > 0 && |s.data| == s.nPage * pgsz
    reads h
  {
    && (h.rc == Done ==> h.dest == h.committed && CompletedBy(s, pgsz, ops, i, h.dest, h.destWal))
    && (h.rc != Done ==> h.committed == slot.origin)
    && (!slot.live ==> h.dest == h.committed)
  }

  /** The handles of the schedule, and which of them the source pager still knows. */
  ghost predicate Tracks(src: Source, hs: seq<Handle>, slots: seq<Slot>)
    reads src
  {
    && |hs| == |slots|
    && (forall i :: 0 <= i < |hs| ==> hs[i].pSrc == src && hs[i].pgszDest == slots[i].pgszDest)
    && (forall i :: 0 <= i < |hs| ==> (slots[i].live <==> hs[i] in src.all))
    && (forall i, j :: 0 <= i < j < |hs| ==> hs[i] != hs[j])
  }

  ghost predicate RunOk(src: Source, s: Content, ops: seq<Op>, hs: seq<Handle>, log: seq<Option<Rc>>)
    requires src.pgsz > 0 && |s.data| == s.nPage * src.pgsz
    reads src, hs
  {
    && Now(src) == Replay(s, src.pgsz, ops)
    && Tracks(src, hs, ReplaySlots(ops))
    && (forall i :: 0 <= i < |hs| ==> AllOrNothing(hs[i], i, ReplaySlots(ops)[i], s, src.pgsz, ops))
    && LogOk(log, ops)
    && (forall k :: 0 <= k < |ops| && log[k] == Some(Done) ==> ops[k].StepOn? && IsDone(hs, ops[k].h))
  }

  /** There is a result exactly where a step or a finish was carried out. */
  ghost predicate LogOk(log: seq<Option<Rc>>, ops: seq<Op>)
  {
    |log| == |ops| && forall k :: 0 <= k < |ops| ==> (log[k].Some? <==> Runs(ReplaySlots(ops[..k]), ops[k]))
  }

  predicate IsDone(hs: seq<Handle>, h: nat)
    reads hs
  {
    h < |hs| && hs[h].rc == Done
  }

  // ---- one operation ----

  type Was = (Rc, seq<Byte>, seq<Byte>)

  ghost function Before(hs: seq<Handle>): (was: seq<Was>)
    reads hs
    ensures |was| == |hs| && forall i :: 0 <= i < |hs| ==> was[i] == (hs[i].rc, hs[i].dest, hs[i].committed)
  {
    if hs == [] then [] else [(hs[0].rc, hs[0].dest, hs[0].committed)] + Before(hs[1..])
  }

  /** What an operation may do to a handle that was in state `was`. */
  ghost predicate Effect(h: Handle, was: Was, stepped: bool, finished: bool, quiet: bool, now: Content, pgsz: nat)
    requires pgsz > 0
    reads h
  {
    && (quiet ==> h.dest == was.1)
    && (was.0 == Done ==> h.rc == Done && (finished || h.dest == was.1) && h.committed == was.2)
    && (was.0 != Done && h.rc == Done ==>
          stepped && h.dest == h.committed && CompletedAt(now, pgsz, h.dest, h.destWal))
    && (h.rc != Done ==> h.committed == was.2)
    && (finished ==> h.dest == h.committed)
  }

  predicate StepsOn(op: Op, i: nat) { op.StepOn? && op.h == i }
  predicate Finishes(op: Op, i: nat) { op.FinishOn? && op.h == i }

  ghost predicate Effects(hs: seq<Handle>, was: seq<Was>, slots: seq<Slot>, op: Op, now: Content, pgsz: nat)
    requires pgsz > 0
    reads hs
  {
    && |was| == |slots| <= |hs|
    && forall i :: 0 <= i < |was| ==>
         && Effect(hs[i], was[i], Runs(slots, op) && StepsOn(op, i), Runs(slots, op) && Finishes(op, i),
                   IsQuiet(op, now.inWrite), now, pgsz)
         && (!slots[i].live ==> hs[i].dest == was[i].1)
  }

  ghost function Now(src: Source): (s: Content)
    reads src
  {
    Content(src.data, src.nPage, src.inWrite)
  }

  ghost function ContentOf(src: Source): (s: Content)
    requires src.pgsz > 0 && src.Valid()
    reads src, src.all, src.chain`pNext
    ensures |s.data| == s.nPage * src.pgsz
  {
    Now(src)
  }

  /** A write, growth over the lock page, a truncation, a foreign change, or the begin or
      end of a write transaction. */
  method ChangeSource(src: Source, hs: seq<Handle>, slots: seq<Slot>, op: Op, ghost was: seq<Was>)
    requires src.pgsz > 0 && src.Valid() && Tracks(src, hs, slots) && was == Before(hs)
    requires !op.OpenNew? && !op.StepOn? && !op.FinishOn? && Applies(op, src.pgsz, src.nPage)
    modifies src`data, src`nPage, src`inWrite, src.all`dest, src.all`rc, src.all`iNext
    ensures src.Valid() && src.all == old(src.all)
    ensures Now(src) == AfterOp(old(ContentOf(src)), src.pgsz, op)
    ensures Effects(hs, was, slots, op, Now(src), src.pgsz)
  {
    hide Source.Valid, CompletedAt, WithPage, LockPage, PageStart;
    if op.WriteTo? {
      WriteOne(src, hs, slots, op, was);
    } else {
      match op {
        case GrowOver(content) => src.GrowOverLockPage(content);
        case Truncated(n) => src.Shrink(n);
        case Changed(newData, n) => src.ExternalChange(newData, n);
        case WriteTransaction(open) => OpenOrClose(src, open);
      }
    }
  }

  method WriteOne(src: Source, hs: seq<Handle>, slots: seq<Slot>, op: Op, ghost was: seq<Was>)
    requires src.pgsz > 0 && src.Valid() && Tracks(src, hs, slots) && was == Before(hs)
    requires op.WriteTo? && Applies(op, src.pgsz, src.nPage)
    modifies src`data, src`nPage, src.all`dest, src.all`rc
    ensures src.Valid()
    ensures Now(src) == AfterOp(old(ContentOf(src)), src.pgsz, op)
    ensures Effects(hs, was, slots, op, Now(src), src.pgsz)
  {
    hide Source.Valid, CompletedAt, WithPage, LockPage, PageStart, Effects, Pushed;
    src.WritePage(op.pg, op.content, if op.bad < |hs| then hs[op.bad] else null, op.failAt);
    assert forall i :: 0 <= i < |hs| && slots[i].live ==> Pushed(was[i].0, was[i].1, hs[i].rc, hs[i].dest);
    PushEffects(hs, was, slots, op, Now(src), src.pgsz);
  }

  lemma PushEffects(hs: seq<Handle>, was: seq<Was>, slots: seq<Slot>, op: Op, now: Content, pgsz: nat)
    requires pgsz > 0 && op.WriteTo? && |was| == |slots| == |hs|
    requires forall i :: 0 <= i < |hs| ==> hs[i].committed == was[i].2
    requires forall i :: 0 <= i < |hs| && slots[i].live ==> Pushed(was[i].0, was[i].1, hs[i].rc, hs[i].dest)
    requires forall i :: 0 <= i < |hs| && !slots[i].live ==> hs[i].rc == was[i].0 && hs[i].dest == was[i].1
    ensures Effects(hs, was, slots, op, now, pgsz)
  {
    hide CompletedAt;
  }

  method OpenOrClose(src: Source, open: bool)
    requires src.Valid()
    modifies src`inWrite
    ensures src.Valid() && src.inWrite == open
  {
    src.inWrite := open;
    assert forall h :: h in src.all ==> old(src.HandleOk(h));
  }

  /** An operation on one handle leaves the others alone. */
  lemma OneEffects(hs: seq<Handle>, was: seq<Was>, slots: seq<Slot>, op: Op, now: Content, pgsz: nat)
    requires pgsz > 0 && |was| == |slots| == |hs| && (op.StepOn? || op.FinishOn?) && Runs(slots, op)
    requires forall i :: 0 <= i < |hs| && i != op.h ==>
               hs[i].rc == was[i].0 && hs[i].dest == was[i].1 && hs[i].committed == was[i].2
    requires Effect(hs[op.h], was[op.h], op.StepOn?, op.FinishOn?, IsQuiet(op, now.inWrite), now, pgsz)
    ensures Effects(hs, was, slots, op, now, pgsz)
  {
    hide CompletedAt, IsEnv;
  }

  method StepOne(src: Source, hs: seq<Handle>, slots: seq<Slot>, op: Op, ghost was: seq<Was>) returns (rc: Rc)
    requires src.pgsz > 0 && src.Valid() && Tracks(src, hs, slots) && was == Before(hs)
    requires op.StepOn? && Runs(slots, op)
    modifies hs[op.h], src`pBackup, src`chain
    ensures src.Valid() && Tracks(src, hs, slots) && rc == hs[op.h].rc
    ensures Effects(hs, was, slots, op, Now(src), src.pgsz)
  {
    hide Source.Valid, Complete, IsEnv, HeaderWritten, Big4, Effects;
    rc := hs[op.h].Step(op.nPage, op.env);
    OneEffects(hs, was, slots, op, Now(src), src.pgsz);
  }

  method FinishOne(src: Source, hs: seq<Handle>, slots: seq<Slot>, op: Op, ghost was: seq<Was>) returns (rc: Rc)
    requires src.pgsz > 0 && src.Valid() && Tracks(src, hs, slots) && was == Before(hs)
    requires op.FinishOn? && Runs(slots, op)
    modifies src`pBackup, src`chain, src`all, src.all`pNext, {hs[op.h]}`dest
    ensures src.Valid() && src.all == old(src.all) - {hs[op.h]} && Tracks(src, hs, SlotsAfter(slots, op))
    ensures rc == if hs[op.h].rc == Done then Ok else hs[op.h].rc
    ensures Effects(hs, was, slots, op, Now(src), src.pgsz)
  {
    hide Source.Valid, CompletedAt, IsEnv, Effects;
    rc := hs[op.h].Finish();
    OneEffects(hs, was, slots, op, Now(src), src.pgsz);
  }

  /** A new backup; the handles before it stay as they are. */
  method OpenOne(src: Source, hs: seq<Handle>, slots: seq<Slot>, op: Op, ghost was: seq<Was>) returns (hs': seq<Handle>)
    requires src.pgsz > 0 && src.Valid() && Tracks(src, hs, slots) && was == Before(hs)
    requires op.OpenNew? && Applies(op, src.pgsz, src.nPage)
    modifies src`all
    ensures src.Valid() && |hs'| == |hs| + 1 && hs'[..|hs|] == hs && fresh(hs'[|hs|])
    ensures src.all == old(src.all) + {hs'[|hs|]} && Tracks(src, hs', SlotsAfter(slots, op))
    ensures Effects(hs', was, slots, op, Now(src), src.pgsz)
    ensures hs'[|hs|].rc == Ok && hs'[|hs|].committed == op.dest
  {
    hide Source.Valid, CompletedAt, IsEnv, IsPageSize;
    var h := new Handle(src, op.pgszDest, op.destWal, op.destMemdb, op.dest);
    hs' := hs + [h];
  }

  // ---- the run ----

  /** One operation keeps all that is promised of the run so far. */
  lemma RunMore(src: Source, s: Content, ops: seq<Op>, k: nat, slots: seq<Slot>, hs: seq<Handle>,
                slots': seq<Slot>, hs': seq<Handle>, was: seq<Was>)
    requires src.pgsz > 0 && |s.data| == s.nPage * src.pgsz && k < |ops|
    requires slots == ReplaySlots(ops[..k]) && slots' == SlotsAfter(slots, ops[k]) && |slots| <= |slots'| == |hs'|
    requires Effects(hs', was, slots, ops[k], Now(src), src.pgsz)
    requires ops[k].StepOn? ==> Now(src) == Replay(s, src.pgsz, ops[..k])
    requires forall i :: 0 <= i < |was| ==> WasAllOrNothing(was[i], hs'[i].destWal, i, slots[i], s, src.pgsz, ops[..k])
    requires forall i :: |was| <= i < |hs'| ==>
               hs'[i].rc == Ok && hs'[i].committed == slots'[i].origin && slots'[i].live
    ensures forall i :: 0 <= i < |hs'| ==> AllOrNothing(hs'[i], i, slots'[i], s, src.pgsz, ops[..k + 1])
  {
    hide CompletedAt, Runs, Replay;
    forall i | 0 <= i < |hs'| ensures AllOrNothing(hs'[i], i, slots'[i], s, src.pgsz, ops[..k + 1]) {
      if i < |was| { HandleMore(src, s, ops, k, slots, hs', was, i); }
    }
  }

  ghost predicate WasAllOrNothing(was: Was, wal: bool, i: nat, slot: Slot, s: Content, pgsz: nat, ops: seq<Op>)
    requires pgsz > 0 && |s.data| == s.nPage * pgsz
  {
    && (was.0 == Done ==> was.1 == was.2 && CompletedBy(s, pgsz, ops, i, was.1, wal))
    && (was.0 != Done ==> was.2 == slot.origin)
    && (!slot.live ==> was.1 == was.2)
  }

  lemma HandleMore(src: Source, s: Content, ops: seq<Op>, k: nat, slots: seq<Slot>, hs: seq<Handle>, was: seq<Was>,
                   i: nat)
    requires src.pgsz > 0 && |s.data| == s.nPage * src.pgsz && k < |ops| && i < |was| == |slots| <= |hs|
    requires var op := ops[k];
             && Effect(hs[i], was[i], Runs(slots, op) && StepsOn(op, i), Runs(slots, op) && Finishes(op, i),
                       IsQuiet(op, src.inWrite), Now(src), src.pgsz)
             && (!slots[i].live ==> hs[i].dest == was[i].1)
    requires ops[k].StepOn? ==> Now(src) == Replay(s, src.pgsz, ops[..k])
    requires WasAllOrNothing(was[i], hs[i].destWal, i, slots[i], s, src.pgsz, ops[..k])
    ensures |SlotsAfter(slots, ops[k])| >= |slots|
    ensures AllOrNothing(hs[i], i, SlotsAfter(slots, ops[k])[i], s, src.pgsz, ops[..k + 1])
  {
    hide CompletedAt, Replay;
    var h, now := hs[i], ops[..k + 1];
    assert forall j :: 0 <= j < k ==> now[..j] == ops[..k][..j] && now[j] == ops[..k][j];
    assert now[..k] == ops[..k] && now[k] == ops[k];
    if h.rc == Done {
      if was[i].0 == Done {
        StillCompleted(s, src.pgsz, ops, k, i, h.dest, h.destWal);
      } else {
        assert CompletedAt(Replay(s, src.pgsz, now[..k]), src.pgsz, h.dest, h.destWal);
      }
    }
  }

  lemma StillCompleted(s: Content, pgsz: nat, ops: seq<Op>, k: nat, i: nat, dest: seq<Byte>, wal: bool)
    requires pgsz > 0 && |s.data| == s.nPage * pgsz && k < |ops|
    requires CompletedBy(s, pgsz, ops[..k], i, dest, wal)
    ensures CompletedBy(s, pgsz, ops[..k + 1], i, dest, wal)
  {
    hide CompletedAt, Replay;
    var old', now := ops[..k], ops[..k + 1];
    var j :| 0 <= j < |old'| && old'[j].StepOn? && old'[j].h == i
             && CompletedAt(Replay(s, pgsz, old'[..j]), pgsz, dest, wal);
    assert now[..j] == old'[..j] && now[j] == old'[j];
  }

  ghost predicate WasDone(was: seq<Was>, h: nat)
  {
    h < |was| && was[h].0 == Done
  }

  lemma LogMore(ops: seq<Op>, k: nat, log: seq<Option<Rc>>, r: Option<Rc>, slots: seq<Slot>, hs: seq<Handle>,
                was: seq<Was>, at: Content, pgsz: nat)
    requires pgsz > 0 && k < |ops| && LogOk(log, ops[..k]) && slots == ReplaySlots(ops[..k])
    requires forall j :: 0 <= j < k && log[j] == Some(Done) ==> ops[..k][j].StepOn? && WasDone(was, ops[..k][j].h)
    requires r.Some? <==> Runs(slots, ops[k])
    requires r == Some(Done) ==> ops[k].StepOn? && IsDone(hs, ops[k].h)
    requires Effects(hs, was, slots, ops[k], at, pgsz)
    ensures LogOk(log + [r], ops[..k + 1])
    ensures forall j :: 0 <= j <= k && (log + [r])[j] == Some(Done) ==>
              ops[..k + 1][j].StepOn? && IsDone(hs, ops[..k + 1][j].h)
  {
    hide Runs, CompletedAt, Effects, WasDone, IsDone, ReplaySlots;
    var now := ops[..k + 1];
    assert forall j :: 0 <= j < k ==> now[..j] == ops[..k][..j] && now[j] == ops[..k][j];
    assert now[..k] == ops[..k] && now[k] == ops[k];
    forall j | 0 <= j < k && log[j] == Some(Done) ensures IsDone(hs, ops[j].h) {
      StaysDone(hs, was, slots, ops[k], at, pgsz, ops[..k][j].h);
    }
  }

  lemma StaysDone(hs: seq<Handle>, was: seq<Was>, slots: seq<Slot>, op: Op, at: Content, pgsz: nat, h: nat)
    requires pgsz > 0 && Effects(hs, was, slots, op, at, pgsz) && WasDone(was, h)
    ensures IsDone(hs, h)
  {
    hide CompletedAt, Runs;
  }

  lemma ReplayMore(s: Content, pgsz: nat, ops: seq<Op>, k: nat)
    requires pgsz > 0 && |s.data| == s.nPage * pgsz && k < |ops|
    ensures Replay(s, pgsz, ops[..k + 1]) == AfterOp(Replay(s, pgsz, ops[..k]), pgsz, ops[k])
    ensures ReplaySlots(ops[..k + 1]) == SlotsAfter(ReplaySlots(ops[..k]), ops[k])
  {
    var now := ops[..k + 1];
    assert now[..|now| - 1] == ops[..k] && now[|now| - 1] == ops[k];
  }

  lemma StartOk(src: Source, s: Content)
    requires src.pgsz > 0 && src.Valid() && s == ContentOf(src)
    ensures RunOk(src, s, [], [], []) && ReplaySlots([]) == []
  {
  }

  /** The promises at some point, in terms of what the handles were then. */
  ghost predicate WasOk(was: seq<Was>, hs: seq<Handle>, s: Content, pgsz: nat, ops: seq<Op>, log: seq<Option<Rc>>)
    requires pgsz > 0 && |s.data| == s.nPage * pgsz
  {
    var slots := ReplaySlots(ops);
    && |was| == |slots| <= |hs|
    && (forall i :: 0 <= i < |was| ==> WasAllOrNothing(was[i], hs[i].destWal, i, slots[i], s, pgsz, ops))
    && LogOk(log, ops)
    && (forall j :: 0 <= j < |ops| && log[j] == Some(Done) ==> ops[j].StepOn? && WasDone(was, ops[j].h))
  }

  lemma PromisesBefore(src: Source, s: Content, ops: seq<Op>, hs: seq<Handle>, log: seq<Option<Rc>>)
    requires src.pgsz > 0 && |s.data| == s.nPage * src.pgsz && RunOk(src, s, ops, hs, log)
    ensures Tracks(src, hs, ReplaySlots(ops)) && Now(src) == Replay(s, src.pgsz, ops)
    ensures WasOk(Before(hs), hs, s, src.pgsz, ops, log)
  {
    hide CompletedAt, CompletedBy, Runs, Replay;
    forall i | 0 <= i < |hs|
      ensures WasAllOrNothing(Before(hs)[i], hs[i].destWal, i, ReplaySlots(ops)[i], s, src.pgsz, ops)
    {
      assert AllOrNothing(hs[i], i, ReplaySlots(ops)[i], s, src.pgsz, ops);
    }
    assert |log| == |ops|;
    forall j | 0 <= j < |ops| && log[j] == Some(Done) ensures ops[j].StepOn? && WasDone(Before(hs), ops[j].h) {
      assert IsDone(hs, ops[j].h);
    }
  }

  /** After one operation more. */
  lemma Round(src: Source, s: Content, ops: seq<Op>, k: nat, slots: seq<Slot>, hs: seq<Handle>, hs': seq<Handle>,
              was: seq<Was>, log: seq<Option<Rc>>, r: Option<Rc>)
    requires src.pgsz > 0 && |s.data| == s.nPage * src.pgsz && k < |ops| && slots == ReplaySlots(ops[..k])
    requires WasOk(was, hs, s, src.pgsz, ops[..k], log) && |hs'| >= |hs| == |was| && hs'[..|hs|] == hs
    requires Now(src) == AfterOp(Replay(s, src.pgsz, ops[..k]), src.pgsz, ops[k])
    requires Tracks(src, hs', SlotsAfter(slots, ops[k])) && Effects(hs', was, slots, ops[k], Now(src), src.pgsz)
    requires forall i :: |hs| <= i < |hs'| ==>
               var now := SlotsAfter(slots, ops[k])[i]; hs'[i].rc == Ok && hs'[i].committed == now.origin && now.live
    requires (r.Some? <==> Runs(slots, ops[k])) && (r == Some(Done) ==> ops[k].StepOn? && IsDone(hs', ops[k].h))
    ensures SlotsAfter(slots, ops[k]) == ReplaySlots(ops[..k + 1])
    ensures RunOk(src, s, ops[..k + 1], hs', log + [r])
  {
    hide Replay, ReplaySlots, CompletedAt, Runs, Effects, WasAllOrNothing, AllOrNothing, LogOk, IsDone, WasDone,
         Tracks, CompletedBy, SlotsAfter, AfterOp;
    ReplayMore(s, src.pgsz, ops, k);
    SlotsMore(src, hs', SlotsAfter(slots, ops[k]));
    StepKeepsSource(Replay(s, src.pgsz, ops[..k]), src.pgsz, ops[k]);
    assert forall i :: 0 <= i < |was| ==> hs'[i] == hs'[..|hs|][i];
    RunMore(src, s, ops, k, slots, hs, SlotsAfter(slots, ops[k]), hs', was);
    LogMore(ops, k, log, r, slots, hs', was, Now(src), src.pgsz);
  }

  lemma StepKeepsSource(s: Content, pgsz: nat, op: Op)
    requires pgsz > 0 && |s.data| == s.nPage * pgsz
    ensures op.StepOn? ==> AfterOp(s, pgsz, op) == s
  {
  }

  lemma SlotsMore(src: Source, hs: seq<Handle>, slots: seq<Slot>)
    requires Tracks(src, hs, slots)
    ensures |hs| == |slots|
  {
  }

  /** One operation of the schedule: its result, and the handles after it. */
  method Perform(src: Source, hs: seq<Handle>, slots: seq<Slot>, op: Op, ghost was: seq<Was>)
    returns (hs': seq<Handle>, r: Option<Rc>)
    requires src.pgsz > 0 && src.Valid() && Tracks(src, hs, slots) && was == Before(hs)
    modifies src, hs
    modifies src.all
    ensures src.Valid() && fresh(src.all - old(src.all)) && Tracks(src, hs', SlotsAfter(slots, op))
    ensures Now(src) == AfterOp(old(ContentOf(src)), src.pgsz, op)
    ensures |hs'| >= |hs| && hs'[..|hs|] == hs && forall i :: |hs| <= i < |hs'| ==> fresh(hs'[i])
    ensures Effects(hs', was, slots, op, Now(src), src.pgsz)
    ensures forall i :: |hs| <= i < |hs'| ==>
              hs'[i].rc == Ok && hs'[i].committed == SlotsAfter(slots, op)[i].origin && SlotsAfter(slots, op)[i].live
    ensures r.Some? <==> Runs(slots, op)
    ensures r == Some(Done) ==> op.StepOn? && IsDone(hs', op.h)
  {
    hide Source.Valid, CompletedAt, IsEnv, IsPageSize, LockPage, WithPage, PageStart;
    hs', r := hs, None;
    if Runs(slots, op) {
      var rc;
      if op.StepOn? { rc := StepOne(src, hs, slots, op, was); } else { rc := FinishOne(src, hs, slots, op, was); }
      r := Some(rc);
    } else if !op.StepOn? && !op.FinishOn? && Applies(op, src.pgsz, src.nPage) {
      if op.OpenNew? { hs' := OpenOne(src, hs, slots, op, was); } else { ChangeSource(src, hs, slots, op, was); }
    }
  }

  function Last(hist: seq<seq<seq<Byte>>>): seq<seq<Byte>>
  {
    if hist == [] then [] else hist[|hist| - 1]
  }

  lemma HistoryStarts(s: Content, pgsz: nat)
    requires pgsz > 0 && |s.data| == s.nPage * pgsz
    ensures HistoryOk([[]], s, pgsz, []) && Last([[]]) == []
  {
  }

  lemma HistoryMore(hist: seq<seq<seq<Byte>>>, s: Content, pgsz: nat, ops: seq<Op>, k: nat, hs: seq<Handle>,
                    last: seq<seq<Byte>>, was: seq<Was>, slots: seq<Slot>, now: Content)
    requires pgsz > 0 && |s.data| == s.nPage * pgsz && k < |ops| && HistoryOk(hist, s, pgsz, ops[..k])
    requires Last(hist) == last && |last| == |was| && forall i :: 0 <= i < |was| ==> last[i] == was[i].1
    requires Effects(hs, was, slots, ops[k], now, pgsz)
    requires now == AfterOp(Replay(s, pgsz, ops[..k]), pgsz, ops[k])
    ensures HistoryOk(hist + [Dests(hs)], s, pgsz, ops[..k + 1]) && Last(hist + [Dests(hs)]) == Dests(hs)
  {
    hide CompletedAt, Runs, Replay;
    var next, now' := ops[..k + 1], hist + [Dests(hs)];
    assert forall j :: 0 <= j < k ==> next[..j] == ops[..k][..j] && next[j] == ops[..k][j];
    assert next[..k] == ops[..k] && next[k] == ops[k];
    if IsQuiet(ops[k], Replay(s, pgsz, ops[..k]).inWrite) {
      assert IsQuiet(ops[k], now.inWrite);
      assert forall i :: 0 <= i < |was| ==> Dests(hs)[i] == hist[k][i];
    }
  }

  /** The next operation of the schedule. */
  method Advance(src: Source, ghost s: Content, ops: seq<Op>, k: nat, hs0: seq<Handle>, slots0: seq<Slot>,
                 log0: seq<Option<Rc>>, ghost hist0: seq<seq<seq<Byte>>>)
    returns (hs: seq<Handle>, slots: seq<Slot>, log: seq<Option<Rc>>, ghost hist: seq<seq<seq<Byte>>>)
    requires src.pgsz > 0 && src.Valid() && |s.data| == s.nPage * src.pgsz && k < |ops|
    requires slots0 == ReplaySlots(ops[..k]) && RunOk(src, s, ops[..k], hs0, log0)
    requires HistoryOk(hist0, s, src.pgsz, ops[..k]) && Last(hist0) == Dests(hs0)
    modifies src, hs0
    modifies src.all
    ensures src.Valid() && fresh(src.all - old(src.all)) && |hs| >= |hs0| && hs[..|hs0|] == hs0
    ensures forall i :: |hs0| <= i < |hs| ==> fresh(hs[i])
    ensures slots == ReplaySlots(ops[..k + 1]) && RunOk(src, s, ops[..k + 1], hs, log)
    ensures HistoryOk(hist, s, src.pgsz, ops[..k + 1]) && Last(hist) == Dests(hs)
  {
    hide Source.Valid, RunOk, Tracks, Effects, LogOk, Replay, ReplaySlots, SlotsAfter, AfterOp, Runs, HistoryOk, Last;
    ghost var was, d0 := Before(hs0), Dests(hs0);
    PromisesBefore(src, s, ops[..k], hs0, log0);
    var r;
    hs, r := Perform(src, hs0, slots0, ops[k], was);
    Round(src, s, ops, k, slots0, hs0, hs, was, log0, r);
    HistoryMore(hist0, s, src.pgsz, ops, k, hs, d0, was, slots0, Now(src));
    slots, log, hist := SlotsAfter(slots0, ops[k]), log0 + [r], hist0 + [Dests(hs)];
  }

  /** Under every schedule each backup is done or not: if it is, a step of it left its
      destination complete for the source of that moment, and nothing has touched it since;
      if not, rolling back gives the destination it was opened with, as finishing it does.
      The source only depends on what was written to it. */
  method RunSchedule(src: Source, ops: seq<Op>)
    returns (hs: seq<Handle>, log: seq<Option<Rc>>, ghost hist: seq<seq<seq<Byte>>>)
    requires src.pgsz > 0 && src.Valid() && src.all == {}
    modifies src
    ensures src.Valid() && RunOk(src, old(ContentOf(src)), ops, hs, log)
    ensures HistoryOk(hist, old(ContentOf(src)), src.pgsz, ops) && Last(hist) == Dests(hs)
  {
    hide Source.Valid, RunOk, Tracks, Effects, LogOk, Replay, ReplaySlots, SlotsAfter, AfterOp, Runs, HistoryOk, Last;
    ghost var s := ContentOf(src);
    var slots := [];
    hs, log, hist := [], [], [[]];
    StartOk(src, s);
    HistoryStarts(s, src.pgsz);
    assert ops[..0] == [];
    var k := 0;
    while k < |ops|
      invariant 0 <= k <= |ops| && src.Valid() && fresh(src.all)
      invariant forall i :: 0 <= i < |hs| ==> fresh(hs[i])
      invariant slots == ReplaySlots(ops[..k]) && RunOk(src, s, ops[..k], hs, log)
      invariant HistoryOk(hist, s, src.pgsz, ops[..k]) && Last(hist) == Dests(hs)
    {
      ghost var n := |hs|;
      hs, slots, log, hist := Advance(src, s, ops, k, hs, slots, log, hist);
      assert forall i :: 0 <= i < n ==> hs[i] == hs[..n][i];
      k := k + 1;
    }
    assert ops[..|ops|] == ops;
  }
}
