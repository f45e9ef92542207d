// The code of btmutex.c itself: one connection walking its list of btrees.
//
// BtreeMutex shows that the protocol is safe under every interleaving; here the loops that
// follow it are shown to do so. What a connection holds at each point is the same `Keeps`.
module BtreeCode {
  import opened BtreeMutex

  /** Address, mutex (the connection that holds it, -1 for none) and db field. */
  class BtShared {
    const addr: nat
    var owner: int
    var db: int

    constructor (addr: nat)
      ensures this.addr == addr && owner == -1
    {
      this.addr := addr;
      owner, db := -1, -1;
    }
  }

  class Btree {
    const pBt: BtShared
    var wantToLock: nat
    var locked: bool

    constructor (pBt: BtShared)
      ensures this.pBt == pBt && wantToLock == 0 && !locked
    {
      this.pBt := pBt;
      wantToLock, locked := 0, false;
    }
  }

  /** A connection; `list` holds its sharable btrees in pNext order, `shared` their BtShared
      objects. */
  class Connection {
    const id: nat
    const list: seq<Btree>
    const shared: seq<BtShared>

    /** Ascending by address, so the objects are distinct. */
    ghost predicate Shape()
    {
      && |shared| == |list|
      && (forall i :: 0 <= i < |list| ==> list[i].pBt == shared[i])
      && (forall i, j :: 0 <= i < j < |list| ==> list[i] != list[j] && shared[i].addr < shared[j].addr)
    }

    /** The locks held at this point of the protocol, and what is recorded about them. */
    ghost predicate At(pc: Pc)
      reads list, shared
    {
      && Shape()
      && (forall i :: 0 <= i < |list| ==> (list[i].locked <==> list[i].wantToLock > 0 && Keeps(pc, i)))
      && (forall i :: 0 <= i < |list| ==>
            if list[i].locked then shared[i].owner == id && shared[i].db == id else shared[i].owner != id)
    }

    constructor (id: nat, list: seq<Btree>, shared: seq<BtShared>)
      requires |shared| == |list| && forall i :: 0 <= i < |list| ==> list[i].pBt == shared[i]
      requires forall i, j :: 0 <= i < j < |list| ==> list[i] != list[j] && shared[i].addr < shared[j].addr
      requires forall i :: 0 <= i < |list| ==> !list[i].locked && list[i].wantToLock == 0 && shared[i].owner != id
      ensures At(Idle) && this.id == id && this.list == list && this.shared == shared
    {
      this.id, this.list, this.shared := id, list, shared;
    }

    /** lockBtreeMutex(): it may block, so only mutexes of smaller address may be held. When
        it goes on, whoever held the mutex has let go of it. */
    method LockBtreeMutex(p: Btree)
      requires !p.locked && p.pBt.owner != id
      requires forall b :: b in list && b.locked ==> b.pBt.addr < p.pBt.addr
      modifies p`locked, p.pBt
      ensures p.locked && p.pBt.owner == id && p.pBt.db == id
    {
      p.pBt.owner := id;
      p.pBt.db := id;
      p.locked := true;
    }

    /** unlockBtreeMutex() */
    method UnlockBtreeMutex(p: Btree)
      requires p.locked && p.pBt.owner == id && p.pBt.db == id
      modifies p`locked, p.pBt`owner
      ensures !p.locked && p.pBt.owner == -1
    {
      p.pBt.owner := -1;
      p.locked := false;
    }

    /** sqlite3_mutex_try() */
    method MutexTry(p: BtShared) returns (ok: bool)
      modifies p`owner
      ensures ok == (old(p.owner) == -1) && p.owner == if ok then id else old(p.owner)
    {
      ok := p.owner == -1;
      if ok { p.owner := id; }
    }

    /** sqlite3BtreeEnter() */
    method BtreeEnter(p: nat)
      requires At(Idle) && p < |list|
      modifies list, shared
      ensures At(Idle)
      ensures list[p].wantToLock == old(list[p].wantToLock) + 1
      ensures forall i :: 0 <= i < |list| && i != p ==> list[i].wantToLock == old(list[i].wantToLock)
    {
      assert forall i :: 0 <= i < |list| && i != p ==> list[i] != list[p];
      list[p].wantToLock := list[p].wantToLock + 1;
      if list[p].locked { return; }
      LockCarefully(p);
    }

    /** btreeLockCarefully() */
    method LockCarefully(p: nat)
      requires p < |list| && At(Trying(p)) && list[p].wantToLock > 0
      modifies list`locked, shared
      ensures At(Idle)
    {
      var ok := TryLock(p);
      if !ok {
        ReleaseLater(p);
        WaitFor(p);
        RelockLater(p);
      }
    }

    /** The attempt that does not block. */
    method TryLock(p: nat) returns (ok: bool)
      requires p < |list| && At(Trying(p)) && list[p].wantToLock > 0
      modifies list`locked, shared
      ensures if ok then At(Idle) else At(Releasing(p, p + 1))
      ensures ok == (old(shared[p].owner) == -1)
    {
      Distinct();
      ok := MutexTry(shared[p]);
      if ok {
        shared[p].db := id;
        list[p].locked := true;
      }
    }

    /** The call that may block: nothing behind p is held. */
    method WaitFor(p: nat)
      requires p < |list| && At(Waiting(p)) && list[p].wantToLock > 0
      modifies list`locked, shared
      ensures At(Relocking(p, p + 1))
    {
      Distinct();
      LockBtreeMutex(list[p]);
    }

    lemma Distinct()
      requires Shape()
      ensures forall i, j :: 0 <= i < |list| && 0 <= j < |list| && i != j ==>
                list[i] != list[j] && shared[i] != shared[j]
    {
    }

    /** Drop every lock behind p in the list. */
    method ReleaseLater(p: nat)
      requires p < |list| && At(Releasing(p, p + 1))
      modifies list`locked, shared`owner
      ensures At(Waiting(p))
    {
      Distinct();
      var q := p + 1;
      while q < |list|
        modifies list`locked, shared`owner
        invariant p < q <= |list| && At(Releasing(p, q))
      {
        if list[q].locked { UnlockBtreeMutex(list[q]); }
        q := q + 1;
      }
    }

    /** Take again, in ascending order, the locks behind p that are still wanted. */
    method RelockLater(p: nat)
      requires p < |list| && At(Relocking(p, p + 1))
      modifies list`locked, shared
      ensures At(Idle)
    {
      Distinct();
      var q := p + 1;
      while q < |list|
        modifies list`locked, shared
        invariant p < q <= |list| && At(Relocking(p, q))
      {
        if list[q].wantToLock > 0 { LockBtreeMutex(list[q]); }
        q := q + 1;
      }
    }

    /** sqlite3BtreeLeave() */
    method BtreeLeave(p: nat)
      requires At(Idle) && p < |list| && list[p].wantToLock > 0
      modifies list, shared
      ensures At(Idle)
      ensures list[p].wantToLock == old(list[p].wantToLock) - 1
      ensures forall i :: 0 <= i < |list| && i != p ==> list[i].wantToLock == old(list[i].wantToLock)
    {
      Distinct();
      list[p].wantToLock := list[p].wantToLock - 1;
      if list[p].wantToLock == 0 { UnlockBtreeMutex(list[p]); }
    }

    /** btreeEnterAll(): the databases of the connection, in the order `dbs` of its list. */
    method EnterAll(dbs: seq<nat>)
      requires At(Idle) && forall k :: 0 <= k < |dbs| ==> dbs[k] < |list|
      requires forall k, l :: 0 <= k < l < |dbs| ==> dbs[k] != dbs[l]
      modifies list, shared
      ensures At(Idle)
      ensures forall i :: 0 <= i < |list| ==>
        list[i].wantToLock == old(list[i].wantToLock) + if i in dbs then 1 else 0
      ensures forall i :: i in dbs ==> list[i].locked
    {
      var k := 0;
      while k < |dbs|
        modifies list, shared
        invariant 0 <= k <= |dbs| && At(Idle)
        invariant forall i :: 0 <= i < |list| ==>
          list[i].wantToLock == old(list[i].wantToLock) + if i in dbs[..k] then 1 else 0
      {
        assert dbs[..k + 1] == dbs[..k] + [dbs[k]];
        BtreeEnter(dbs[k]);
        k := k + 1;
      }
      assert dbs[..|dbs|] == dbs;
    }

    /** btreeLeaveAll() */
    method LeaveAll(dbs: seq<nat>)
      requires At(Idle) && forall k :: 0 <= k < |dbs| ==> dbs[k] < |list| && list[dbs[k]].wantToLock > 0
      requires forall k, l :: 0 <= k < l < |dbs| ==> dbs[k] != dbs[l]
      modifies list, shared
      ensures At(Idle)
      ensures forall i :: 0 <= i < |list| ==>
        list[i].wantToLock == old(list[i].wantToLock) - if i in dbs then 1 else 0
    {
      var k := 0;
      while k < |dbs|
        modifies list, shared
        invariant 0 <= k <= |dbs| && At(Idle)
        invariant forall i :: 0 <= i < |list| ==>
          list[i].wantToLock == old(list[i].wantToLock) - if i in dbs[..k] then 1 else 0
      {
        assert dbs[..k + 1] == dbs[..k] + [dbs[k]];
        BtreeLeave(dbs[k]);
        k := k + 1;
      }
      assert dbs[..|dbs|] == dbs;
    }
  }
}
