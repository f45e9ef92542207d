// The btree mutex protocol as interleaved steps.
//
// Several database connections run at once, each on one thread (its own connection mutex
// is held throughout).  A step is one mutex operation of one connection, or a piece of
// code that touches only that connection's fields.  `lists[c]` is the pNext list of
// connection c: the addresses of the BtShared objects of its sharable btrees, ascending.
module BtreeMutex {

  datatype World = World(lists: seq<seq<nat>>, bound: nat)

  /** Where a connection is.  p and q are positions in its own list. */
  datatype Pc =
    | Idle                            // outside Enter and Leave
    | Trying(p: nat)                  // about to call sqlite3_mutex_try on p
    | Releasing(p: nat, q: nat)       // dropping the later locks, next is q
    | Waiting(p: nat)                 // in lockBtreeMutex(p)
    | Relocking(p: nat, q: nat)       // retaking the later locks, next is q

  datatype Conn = Conn(want: seq<nat>, locked: seq<bool>, pc: Pc)

  /** owner: which connection holds each mutex;  db: the BtShared.db field. */
  datatype State = State(conns: seq<Conn>, owner: map<nat, nat>, db: map<nat, nat>)

  datatype Action = Enter(p: nat) | Leave(p: nat) | TryFails | Proceed

  ghost predicate IsWorld(w: World)
  {
    && (forall c, i :: 0 <= c < |w.lists| && 0 <= i < |w.lists[c]| ==> w.lists[c][i] < w.bound)
    && (forall c, i, j :: 0 <= c < |w.lists| && 0 <= i < j < |w.lists[c]| ==> w.lists[c][i] < w.lists[c][j])
  }

  ghost predicate Shape(w: World, s: State)
  {
    && IsWorld(w) && |s.conns| == |w.lists|
    && forall c :: 0 <= c < |s.conns| ==> ConnShape(s.conns[c], |w.lists[c]|)
  }

  ghost predicate ConnShape(k: Conn, n: nat)
  {
    && |k.want| == |k.locked| == n
    && match k.pc {
         case Idle => true
         case Trying(p) => p < n
         case Releasing(p, q) => p < q <= n
         case Waiting(p) => p < n
         case Relocking(p, q) => p < q <= n
       }
  }

  // ---- the steps ----

  function Acquire(w: World, s: State, c: nat, i: nat, pc: Pc): State
    requires c < |s.conns| == |w.lists| && i < |w.lists[c]| && i < |s.conns[c].locked|
  {
    var a, k := w.lists[c][i], s.conns[c];
    State(s.conns[c := k.(locked := k.locked[i := true], pc := pc)], s.owner[a := c], s.db[a := c])
  }

  function Release(w: World, s: State, c: nat, i: nat, pc: Pc): State
    requires c < |s.conns| == |w.lists| && i < |w.lists[c]| && i < |s.conns[c].locked|
  {
    var k := s.conns[c];
    State(s.conns[c := k.(locked := k.locked[i := false], pc := pc)], s.owner - {w.lists[c][i]}, s.db)
  }

  function Goto(s: State, c: nat, pc: Pc): State
    requires c < |s.conns|
  {
    s.(conns := s.conns[c := s.conns[c].(pc := pc)])
  }

  /** The mutex that connection c needs before it can take its next step, if any. */
  function Needs(w: World, s: State, c: nat): (i: int)
    requires c < |s.conns| == |w.lists|
    ensures -1 <= i
  {
    match s.conns[c].pc
    case Waiting(p) => p
    case Relocking(p, q) => if q < |s.conns[c].want| && s.conns[c].want[q] > 0 then q else -1
    case _ => -1
  }

  ghost predicate Blocked(w: World, s: State, c: nat)
    requires Shape(w, s) && c < |s.conns|
  {
    var i := Needs(w, s, c);
    i >= 0 && w.lists[c][i] in s.owner
  }

  ghost predicate Enabled(w: World, s: State, c: nat, act: Action)
    requires Shape(w, s)
  {
    c < |s.conns| && !Blocked(w, s, c) &&
    match act
    case Enter(p) => s.conns[c].pc.Idle? && p < |w.lists[c]|
    case Leave(p) => s.conns[c].pc.Idle? && p < |w.lists[c]| && s.conns[c].want[p] > 0
    case TryFails => s.conns[c].pc.Trying?
    case Proceed => !s.conns[c].pc.Idle? && (s.conns[c].pc.Trying? ==> w.lists[c][s.conns[c].pc.p] !in s.owner)
  }

  ghost function Apply(w: World, s: State, c: nat, act: Action): State
    requires Shape(w, s) && Enabled(w, s, c, act)
  {
    var k := s.conns[c];
    match act
    case Enter(p) =>
      var k' := k.(want := k.want[p := k.want[p] + 1]);
      Goto(s.(conns := s.conns[c := k']), c, if k.locked[p] then Idle else Trying(p))
    case Leave(p) =>
      var s' := s.(conns := s.conns[c := k.(want := k.want[p := k.want[p] - 1])]);
      if k.want[p] == 1 then Release(w, s', c, p, Idle) else s'
    case TryFails => Goto(s, c, Releasing(k.pc.p, k.pc.p + 1))
    case Proceed =>
      match k.pc
      case Trying(p) => Acquire(w, s, c, p, Idle)
      case Releasing(p, q) =>
        if q == |k.want| then Goto(s, c, Waiting(p))
        else if k.locked[q] then Release(w, s, c, q, Releasing(p, q + 1))
        else Goto(s, c, Releasing(p, q + 1))
      case Waiting(p) => Acquire(w, s, c, p, Relocking(p, p + 1))
      case Relocking(p, q) =>
        if q == |k.want| then Goto(s, c, Idle)
        else if k.want[q] > 0 then Acquire(w, s, c, q, Relocking(p, q + 1))
        else Goto(s, c, Relocking(p, q + 1))
  }

  // ---- what every step keeps ----

  /** Which of the locks a connection wants it holds at each point of the protocol. */
  predicate Keeps(pc: Pc, i: nat)
  {
    match pc
    case Idle => true
    case Trying(p) => i != p
    case Releasing(p, q) => i < p || i >= q
    case Waiting(p) => i < p
    case Relocking(p, q) => i < q
  }

  ghost predicate ConnInv(k: Conn)
    requires |k.want| == |k.locked|
  {
    && (forall i :: 0 <= i < |k.want| ==> (k.locked[i] <==> k.want[i] > 0 && Keeps(k.pc, i)))
    && (!k.pc.Idle? && k.pc.p < |k.want| ==> k.want[k.pc.p] > 0)
  }

  /** A mutex is held exactly by the one connection whose locked flag is set, and the
      BtShared.db field names that connection. */
  ghost predicate OwnerInv(w: World, s: State)
    requires Shape(w, s)
  {
    && (forall c, i :: 0 <= c < |s.conns| && 0 <= i < |w.lists[c]| && s.conns[c].locked[i] ==>
          var a := w.lists[c][i];
          a in s.owner && s.owner[a] == c && a in s.db && s.db[a] == c)
    && (forall a :: a in s.owner ==> Held(w, s, a))
  }

  ghost predicate Held(w: World, s: State, a: nat)
    requires Shape(w, s) && a in s.owner
  {
    && s.owner[a] < |s.conns|
    && exists i :: 0 <= i < |w.lists[s.owner[a]]| && w.lists[s.owner[a]][i] == a && s.conns[s.owner[a]].locked[i]
  }

  ghost predicate Inv(w: World, s: State)
  {
    && Shape(w, s)
    && (forall c :: 0 <= c < |s.conns| ==> ConnInv(s.conns[c]))
    && OwnerInv(w, s)
  }

  lemma AcquireKeeps(w: World, s: State, c: nat, i: nat, pc: Pc)
    requires Shape(w, s) && OwnerInv(w, s) && c < |s.conns| && i < |w.lists[c]|
    requires w.lists[c][i] !in s.owner
    requires ConnShape(s.conns[c].(pc := pc), |w.lists[c]|)
    ensures Shape(w, Acquire(w, s, c, i, pc)) && OwnerInv(w, Acquire(w, s, c, i, pc))
  {
    AcquireShape(w, s, c, i, pc);
    AcquireLocked(w, s, c, i, pc);
    hide OwnerInv, Shape, Held, Acquire;
    var s' := Acquire(w, s, c, i, pc);
    forall b | b in s'.owner ensures Held(w, s', b) { AcquireHeld(w, s, c, i, pc, b); }
    OwnerInvFrom(w, s');
  }

  lemma AcquireShape(w: World, s: State, c: nat, i: nat, pc: Pc)
    requires Shape(w, s) && c < |s.conns| && i < |w.lists[c]| && ConnShape(s.conns[c].(pc := pc), |w.lists[c]|)
    ensures Shape(w, Acquire(w, s, c, i, pc))
  {
    hide IsWorld;
  }

  /** Each lock that is set names its connection as the owner of the mutex. */
  ghost predicate LocksOwned(w: World, s: State)
    requires Shape(w, s)
  {
    forall c, i :: 0 <= c < |s.conns| && 0 <= i < |w.lists[c]| && s.conns[c].locked[i] ==>
      var a := w.lists[c][i];
      a in s.owner && s.owner[a] == c && a in s.db && s.db[a] == c
  }

  lemma OwnerInvFrom(w: World, s: State)
    requires Shape(w, s) && LocksOwned(w, s) && forall a :: a in s.owner ==> Held(w, s, a)
    ensures OwnerInv(w, s)
  {
  }

  lemma AcquireLocked(w: World, s: State, c: nat, i: nat, pc: Pc)
    requires Shape(w, s) && OwnerInv(w, s) && c < |s.conns| && i < |w.lists[c]|
    requires w.lists[c][i] !in s.owner && Shape(w, Acquire(w, s, c, i, pc))
    ensures LocksOwned(w, Acquire(w, s, c, i, pc))
  {
    hide Held, IsWorld;
  }

  lemma AcquireHeld(w: World, s: State, c: nat, i: nat, pc: Pc, b: nat)
    requires Shape(w, s) && OwnerInv(w, s) && c < |s.conns| && i < |w.lists[c]|
    requires Shape(w, Acquire(w, s, c, i, pc)) && b in Acquire(w, s, c, i, pc).owner
    ensures Held(w, Acquire(w, s, c, i, pc), b)
  {
    var s', a := Acquire(w, s, c, i, pc), w.lists[c][i];
    if b == a {
      assert s'.conns[c].locked[i];
    } else {
      assert Held(w, s, b);
      var d := s.owner[b];
      var j :| 0 <= j < |w.lists[d]| && w.lists[d][j] == b && s.conns[d].locked[j];
      assert s'.conns[d].locked[j];
    }
  }

  lemma ReleaseKeeps(w: World, s: State, c: nat, i: nat, pc: Pc)
    requires Shape(w, s) && OwnerInv(w, s) && c < |s.conns| && i < |w.lists[c]|
    requires s.conns[c].locked[i]
    requires ConnShape(s.conns[c].(pc := pc), |w.lists[c]|)
    ensures Shape(w, Release(w, s, c, i, pc)) && OwnerInv(w, Release(w, s, c, i, pc))
  {
    var s', a := Release(w, s, c, i, pc), w.lists[c][i];
    forall b | b in s'.owner ensures Held(w, s', b) {
      var d := s.owner[b];
      var j :| 0 <= j < |w.lists[d]| && w.lists[d][j] == b && s.conns[d].locked[j];
      assert s'.conns[d].locked[j];
    }
  }

  /** Steps that touch no lock. */
  lemma SameLocksKeep(w: World, s: State, s': State, c: nat)
    requires Shape(w, s) && OwnerInv(w, s) && c < |s.conns|
    requires s'.owner == s.owner && s'.db == s.db && |s'.conns| == |s.conns|
    requires s'.conns == s.conns[c := s'.conns[c]] && s'.conns[c].locked == s.conns[c].locked
    requires ConnShape(s'.conns[c], |w.lists[c]|)
    ensures Shape(w, s') && OwnerInv(w, s')
  {
    forall b | b in s'.owner ensures Held(w, s', b) {
      var d := s.owner[b];
      var j :| 0 <= j < |w.lists[d]| && w.lists[d][j] == b && s.conns[d].locked[j];
      assert s'.conns[d].locked[j];
    }
  }

  lemma StepOwner(w: World, s: State, c: nat, act: Action)
    requires Inv(w, s) && Enabled(w, s, c, act)
    ensures Shape(w, Apply(w, s, c, act)) && OwnerInv(w, Apply(w, s, c, act))
  {
    hide OwnerInv;
    var k := s.conns[c];
    match act
    case Leave(p) =>
      var s1 := s.(conns := s.conns[c := k.(want := k.want[p := k.want[p] - 1])]);
      SameLocksKeep(w, s, s1, c);
      if k.want[p] == 1 {
        assert ConnInv(k);
        ReleaseKeeps(w, s1, c, p, Idle);
      }
    case Proceed => ProceedOwner(w, s, c);
    case _ => SameLocksKeep(w, s, Apply(w, s, c, act), c);
  }

  lemma ProceedOwner(w: World, s: State, c: nat)
    requires Inv(w, s) && Enabled(w, s, c, Proceed)
    ensures Shape(w, Apply(w, s, c, Proceed)) && OwnerInv(w, Apply(w, s, c, Proceed))
  {
    hide OwnerInv, IsWorld, ConnInv;
    var k := s.conns[c];
    assert ConnShape(k, |w.lists[c]|);
    match k.pc {
      case Trying(p) => AcquireKeeps(w, s, c, p, Idle);
      case Releasing(p, q) =>
        if q < |k.want| && k.locked[q] {
          ReleaseKeeps(w, s, c, q, Releasing(p, q + 1));
        } else {
          SameLocksKeep(w, s, Apply(w, s, c, Proceed), c);
        }
      case Waiting(p) => AcquireKeeps(w, s, c, p, Relocking(p, p + 1));
      case Relocking(p, q) =>
        if q < |k.want| && k.want[q] > 0 {
          AcquireKeeps(w, s, c, q, Relocking(p, q + 1));
        } else {
          SameLocksKeep(w, s, Apply(w, s, c, Proceed), c);
        }
    }
  }

  lemma StepKeepsInv(w: World, s: State, c: nat, act: Action)
    requires Inv(w, s) && Enabled(w, s, c, act)
    ensures Inv(w, Apply(w, s, c, act))
  {
    StepOwner(w, s, c, act);
    hide OwnerInv;
    StepIsLocal(w, s, c, act);
    hide Apply, Shape;
    var k, s' := s.conns[c], Apply(w, s, c, act);
    assert ConnInv(s'.conns[c]) by {
      match act
      case Leave(p) => LeaveKeepsConn(w, s, c, p);
      case Proceed => ProceedKeepsConn(w, s, c);
      case _ => assert ConnInv(k);
    }
  }

  lemma StepIsLocal(w: World, s: State, c: nat, act: Action)
    requires Shape(w, s) && Enabled(w, s, c, act)
    ensures |Apply(w, s, c, act).conns| == |s.conns|
    ensures forall d :: 0 <= d < |s.conns| && d != c ==> Apply(w, s, c, act).conns[d] == s.conns[d]
  {
  }

  lemma LeaveKeepsConn(w: World, s: State, c: nat, p: nat)
    requires Inv(w, s) && Enabled(w, s, c, Leave(p)) && Shape(w, Apply(w, s, c, Leave(p)))
    ensures ConnInv(Apply(w, s, c, Leave(p)).conns[c])
  {
    hide OwnerInv;
    assert ConnInv(s.conns[c]);
  }

  lemma ProceedKeepsConn(w: World, s: State, c: nat)
    requires Inv(w, s) && Enabled(w, s, c, Proceed) && Shape(w, Apply(w, s, c, Proceed))
    ensures ConnInv(Apply(w, s, c, Proceed).conns[c])
  {
    hide OwnerInv;
    assert ConnInv(s.conns[c]);
  }

  /** Mutual exclusion: two connections never hold the same BtShared mutex. */
  lemma MutualExclusion(w: World, s: State, c: nat, d: nat, i: nat, j: nat)
    requires Inv(w, s) && c < |s.conns| && d < |s.conns| && i < |w.lists[c]| && j < |w.lists[d]|
    requires s.conns[c].locked[i] && s.conns[d].locked[j] && w.lists[c][i] == w.lists[d][j]
    ensures c == d && i == j && s.db[w.lists[c][i]] == c
  {
  }

  // ---- deadlock freedom ----

  /** A blocked connection holds only mutexes of strictly smaller address. */
  lemma BlockedHoldsSmaller(w: World, s: State, c: nat, i: nat)
    requires Inv(w, s) && c < |s.conns| && Blocked(w, s, c)
    requires i < |w.lists[c]| && s.conns[c].locked[i]
    ensures w.lists[c][i] < w.lists[c][Needs(w, s, c)]
    ensures s.owner[w.lists[c][Needs(w, s, c)]] != c
  {
    assert ConnInv(s.conns[c]);
    NotSelf(w, s, c);
  }

  lemma NotSelf(w: World, s: State, c: nat)
    requires Inv(w, s) && c < |s.conns| && Blocked(w, s, c)
    ensures s.owner[w.lists[c][Needs(w, s, c)]] != c
  {
    var n := Needs(w, s, c);
    var a := w.lists[c][n];
    assert ConnInv(s.conns[c]);
    assert Held(w, s, a);
  }

  /** d can be reached from c by following "waits for a mutex held by". */
  ghost predicate WaitsOn(w: World, s: State, c: nat, d: nat, fuel: nat)
    requires Shape(w, s)
    decreases fuel
  {
    c < |s.conns| && (c == d || (fuel > 0 && Blocked(w, s, c) &&
      WaitsOn(w, s, s.owner[w.lists[c][Needs(w, s, c)]], d, fuel - 1)))
  }

  /** No deadlock: the chain of waiting from any blocked connection ends at a connection
      that owns a mutex and can run. */
  lemma {:induction false} WaitChainEnds(w: World, s: State, c: nat) returns (d: nat, fuel: nat)
    requires Inv(w, s) && c < |s.conns| && Blocked(w, s, c)
    ensures d < |s.conns| && !Blocked(w, s, d)
    ensures WaitsOn(w, s, c, d, fuel)
    ensures exists a :: a in s.owner && s.owner[a] == d
    ensures exists i :: 0 <= i < |w.lists[d]| && s.conns[d].locked[i] && w.lists[d][i] >= w.lists[c][Needs(w, s, c)]
    decreases w.bound - w.lists[c][Needs(w, s, c)]
  {
    var a := w.lists[c][Needs(w, s, c)];
    var e := s.owner[a];
    assert Held(w, s, a);
    NotSelf(w, s, c);
    var i :| 0 <= i < |w.lists[e]| && w.lists[e][i] == a && s.conns[e].locked[i];
    if Blocked(w, s, e) {
      BlockedHoldsSmaller(w, s, e, i);
      d, fuel := WaitChainEnds(w, s, e);
      fuel := fuel + 1;
    } else {
      d, fuel := e, 1;
      assert WaitsOn(w, s, e, d, 0);
    }
  }

  // ---- the source's own assertions ----

  /** lockBtreeMutex asserts that the btree is not locked and its mutex not held by this
      thread; unlockBtreeMutex that it is locked, held, and named by BtShared.db. */
  lemma AssertionsHold(w: World, s: State, c: nat, i: nat)
    requires Inv(w, s) && c < |s.conns| && i < |w.lists[c]|
    ensures Needs(w, s, c) == i ==>
              && !s.conns[c].locked[i] && s.conns[c].want[i] > 0
              && !(w.lists[c][i] in s.owner && s.owner[w.lists[c][i]] == c)
    ensures s.conns[c].locked[i] ==>
              && s.conns[c].want[i] > 0
              && w.lists[c][i] in s.owner && s.owner[w.lists[c][i]] == c
              && w.lists[c][i] in s.db && s.db[w.lists[c][i]] == c
  {
    assert ConnInv(s.conns[c]);
    if Needs(w, s, c) == i && Blocked(w, s, c) { NotSelf(w, s, c); }
  }

  // ---- runs ----

  datatype Event = Event(c: nat, act: Action)

  ghost predicate Init(w: World, s: State)
  {
    && Shape(w, s) && s.owner == map[]
    && forall c :: 0 <= c < |s.conns| ==>
         && s.conns[c].pc == Idle
         && forall i :: 0 <= i < |w.lists[c]| ==> s.conns[c].want[i] == 0 && !s.conns[c].locked[i]
  }

  /** The run `es` leads from s to t, whatever the interleaving of its connections. */
  ghost predicate Run(w: World, s: State, es: seq<Event>, t: State)
    requires Shape(w, s)
    ensures Run(w, s, es, t) ==> Shape(w, t)
    decreases |es|
  {
    if es == [] then s == t
    else
      && Enabled(w, s, es[0].c, es[0].act)
      && Shape(w, Apply(w, s, es[0].c, es[0].act))
      && Run(w, Apply(w, s, es[0].c, es[0].act), es[1..], t)
  }

  lemma {:induction false} RunKeepsInv(w: World, s: State, es: seq<Event>, t: State)
    requires Inv(w, s) && Run(w, s, es, t)
    ensures Inv(w, t)
    decreases |es|
  {
    if es != [] {
      StepKeepsInv(w, s, es[0].c, es[0].act);
      RunKeepsInv(w, Apply(w, s, es[0].c, es[0].act), es[1..], t);
    }
  }

  lemma ReachableInv(w: World, s: State, es: seq<Event>, t: State)
    requires Init(w, s) && Run(w, s, es, t)
    ensures Inv(w, t)
  {
    RunKeepsInv(w, s, es, t);
  }

  /** Calls of sqlite3BtreeEnter minus calls of sqlite3BtreeLeave by c on its p-th btree. */
  function Balance(es: seq<Event>, c: nat, p: nat): int
  {
    if es == [] then 0
    else (if es[0] == Event(c, Enter(p)) then 1 else if es[0] == Event(c, Leave(p)) then -1 else 0)
         + Balance(es[1..], c, p)
  }

  lemma StepWant(w: World, s: State, e: Event, c: nat, p: nat)
    requires Shape(w, s) && Enabled(w, s, e.c, e.act) && Shape(w, Apply(w, s, e.c, e.act))
    requires c < |s.conns| && p < |w.lists[c]|
    ensures Apply(w, s, e.c, e.act).conns[c].want[p] == s.conns[c].want[p] + Balance([e], c, p)
  {
    if e.c != c { StepIsLocal(w, s, e.c, e.act); }
    assert [e][1..] == [];
  }

  lemma {:induction false} RunWant(w: World, s: State, es: seq<Event>, t: State, c: nat, p: nat)
    requires Shape(w, s) && Run(w, s, es, t)
    requires c < |s.conns| && p < |w.lists[c]|
    ensures t.conns[c].want[p] == s.conns[c].want[p] + Balance(es, c, p)
    decreases |es|
  {
    if es != [] {
      StepWant(w, s, es[0], c, p);
      assert [es[0]][1..] == [];
      RunWant(w, Apply(w, s, es[0].c, es[0].act), es[1..], t, c, p);
    }
  }

  /** Balanced, possibly nested calls of one connection restore its locks exactly, however
      the other connections are interleaved: and outside Enter and Leave the locked btrees
      are those with wantToLock > 0. */
  lemma BalancedCallsRestore(w: World, s: State, es: seq<Event>, t: State, c: nat)
    requires Inv(w, s) && Run(w, s, es, t) && c < |s.conns|
    requires s.conns[c].pc.Idle? && t.conns[c].pc.Idle?
    requires forall p :: 0 <= p < |w.lists[c]| ==> Balance(es, c, p) == 0
    ensures Inv(w, t) && t.conns[c] == s.conns[c]
    ensures forall p :: 0 <= p < |w.lists[c]| ==> (t.conns[c].locked[p] <==> t.conns[c].want[p] > 0)
  {
    RunKeepsInv(w, s, es, t);
    assert ConnInv(s.conns[c]) && ConnInv(t.conns[c]);
    forall p | 0 <= p < |w.lists[c]|
      ensures t.conns[c].want[p] == s.conns[c].want[p] && t.conns[c].locked[p] == s.conns[c].locked[p]
    {
      RunWant(w, s, es, t, c, p);
    }
    assert t.conns[c].want == s.conns[c].want && t.conns[c].locked == s.conns[c].locked;
  }

  // ---- no reachable state is stuck ----

  /** Every connection is outside Enter and Leave and has given up all its locks. */
  ghost predicate Drained(s: State)
  {
    forall c :: 0 <= c < |s.conns| ==> s.conns[c].pc.Idle? && Sum(s.conns[c].want) == 0
  }

  function Sum(xs: seq<nat>): nat
  {
    if xs == [] then 0 else xs[0] + Sum(xs[1..])
  }

  lemma {:induction false} SumUpdate(xs: seq<nat>, i: nat, v: nat)
    requires i < |xs|
    ensures Sum(xs[i := v]) == Sum(xs) - xs[i] + v
  {
    if i > 0 {
      SumUpdate(xs[1..], i - 1, v);
      assert xs[i := v][1..] == xs[1..][i - 1 := v];
    } else {
      assert xs[i := v][1..] == xs[1..];
    }
  }

  lemma {:induction false} SumPositive(xs: seq<nat>)
    requires Sum(xs) > 0
    ensures exists i :: 0 <= i < |xs| && xs[i] > 0
  {
    if xs[0] == 0 {
      SumPositive(xs[1..]);
      var i :| 0 <= i < |xs[1..]| && xs[1..][i] > 0;
      assert xs[i + 1] > 0;
    }
  }

  /** Steps left to the end of the current Enter. */
  function PcRank(pc: Pc, n: nat): nat
    requires match pc
             case Releasing(p, q) => p < q <= n
             case Waiting(p) => p < n
             case Relocking(p, q) => p < q <= n
             case _ => true
  {
    match pc
    case Idle => 0
    case Trying(p) => 2 * n + 5
    case Releasing(p, q) => 2 * n + 3 - q
    case Waiting(p) => n + 2
    case Relocking(p, q) => n + 1 - q
  }

  function Rank(k: Conn): nat
    requires ConnShape(k, |k.want|)
  {
    Sum(k.want) + PcRank(k.pc, |k.want|)
  }

  function Ranks(ks: seq<Conn>): seq<nat>
    requires forall c :: 0 <= c < |ks| ==> ConnShape(ks[c], |ks[c].want|)
  {
    seq(|ks|, c requires 0 <= c < |ks| => Rank(ks[c]))
  }

  ghost function Work(w: World, s: State): nat
    requires Shape(w, s)
  {
    Sum(Ranks(s.conns))
  }

  /** A connection that is not blocked and still has something to finish can take a step
      that brings it closer to the end, without starting anything new. */
  lemma CanFinish(w: World, s: State, c: nat) returns (act: Action)
    requires Inv(w, s) && c < |s.conns| && !Blocked(w, s, c)
    requires !s.conns[c].pc.Idle? || Sum(s.conns[c].want) > 0
    ensures Enabled(w, s, c, act) && !act.Enter?
    ensures Shape(w, Apply(w, s, c, act)) && Rank(Apply(w, s, c, act).conns[c]) < Rank(s.conns[c])
  {
    hide ConnInv, OwnerInv;
    if s.conns[c].pc.Idle? {
      var p := LeaveRank(w, s, c);
      act := Leave(p);
    } else {
      act := if s.conns[c].pc.Trying? && w.lists[c][s.conns[c].pc.p] in s.owner then TryFails else Proceed;
    }
    StepOwner(w, s, c, act);
    if act.Proceed? { FinishRank(w, s, c); }
  }

  lemma LeaveRank(w: World, s: State, c: nat) returns (p: nat)
    requires Shape(w, s) && c < |s.conns| && s.conns[c].pc.Idle? && Sum(s.conns[c].want) > 0
    ensures p < |w.lists[c]| && s.conns[c].want[p] > 0
    ensures Enabled(w, s, c, Leave(p))
    ensures ConnShape(Apply(w, s, c, Leave(p)).conns[c], |w.lists[c]|)
    ensures Rank(Apply(w, s, c, Leave(p)).conns[c]) < Rank(s.conns[c])
  {
    SumPositive(s.conns[c].want);
    p :| 0 <= p < |s.conns[c].want| && s.conns[c].want[p] > 0;
    SumUpdate(s.conns[c].want, p, s.conns[c].want[p] - 1);
  }

  lemma FinishRank(w: World, s: State, c: nat)
    requires Shape(w, s) && Enabled(w, s, c, Proceed) && Shape(w, Apply(w, s, c, Proceed))
    ensures Rank(Apply(w, s, c, Proceed).conns[c]) < Rank(s.conns[c])
  {
  }

  lemma WorkDecreases(w: World, s: State, c: nat, act: Action)
    requires Shape(w, s) && Enabled(w, s, c, act) && Shape(w, Apply(w, s, c, act))
    requires Rank(Apply(w, s, c, act).conns[c]) < Rank(s.conns[c])
    ensures Work(w, Apply(w, s, c, act)) < Work(w, s)
  {
    var s' := Apply(w, s, c, act);
    StepIsLocal(w, s, c, act);
    assert Ranks(s'.conns) == Ranks(s.conns)[c := Rank(s'.conns[c])];
    SumUpdate(Ranks(s.conns), c, Rank(s'.conns[c]));
  }

  /** Somebody can always make progress: in a state that is not drained some connection
      has an enabled step that finishes part of the outstanding work. */
  lemma SomeoneCanFinish(w: World, s: State) returns (c: nat, act: Action)
    requires Inv(w, s) && !Drained(s)
    ensures Enabled(w, s, c, act) && !act.Enter?
    ensures Inv(w, Apply(w, s, c, act)) && Work(w, Apply(w, s, c, act)) < Work(w, s)
  {
    var b: nat :| b < |s.conns| && !(s.conns[b].pc.Idle? && Sum(s.conns[b].want) == 0);
    c := b;
    if Blocked(w, s, b) {
      var fuel;
      c, fuel := WaitChainEnds(w, s, b);
      var i :| 0 <= i < |w.lists[c]| && s.conns[c].locked[i];
      HeldIsWanted(w, s, c, i);
    }
    act := CanFinish(w, s, c);
    StepKeepsInv(w, s, c, act);
    WorkDecreases(w, s, c, act);
  }

  lemma HeldIsWanted(w: World, s: State, c: nat, i: nat)
    requires Inv(w, s) && c < |s.conns| && i < |w.lists[c]| && s.conns[c].locked[i]
    ensures Sum(s.conns[c].want) > 0
  {
    assert ConnInv(s.conns[c]);
    SumUpdate(s.conns[c].want, i, 0);
  }

  /** From every reachable state the outstanding calls can all be completed: there is a
      schedule, starting no new Enter, that ends with every lock released. */
  lemma {:induction false} CanAlwaysDrain(w: World, s: State) returns (es: seq<Event>, t: State)
    requires Inv(w, s)
    ensures Run(w, s, es, t) && Inv(w, t) && Drained(t) && t.owner == map[]
    ensures forall k :: 0 <= k < |es| ==> !es[k].act.Enter?
    decreases Work(w, s)
  {
    if Drained(s) {
      es, t := [], s;
      NothingHeld(w, s);
    } else {
      var c, act := SomeoneCanFinish(w, s);
      var rest;
      rest, t := CanAlwaysDrain(w, Apply(w, s, c, act));
      es := [Event(c, act)] + rest;
      assert es[1..] == rest;
    }
  }

  lemma NothingHeld(w: World, s: State)
    requires Inv(w, s) && Drained(s)
    ensures s.owner == map[]
  {
    forall a | a in s.owner ensures false {
      assert Held(w, s, a);
      var c := s.owner[a];
      var i :| 0 <= i < |w.lists[c]| && w.lists[c][i] == a && s.conns[c].locked[i];
      HeldIsWanted(w, s, c, i);
    }
    assert s.owner.Keys == {};
  }
}
