// The order in which the root pages of a table and its indexes are destroyed.
module DestroyTable {

  /** A table's root page and those of its indexes. */
  datatype Table = Table(tnum: nat, idx: seq<nat>)

  ghost function Roots(t: Table): set<nat>
  {
    {t.tnum} + set i | 0 <= i < |t.idx| :: t.idx[i]
  }

  ghost predicate Descending(s: seq<nat>)
  {
    forall i, j :: 0 <= i < j < |s| ==> s[i] > s[j]
  }

  /** One pass of the search: the largest root page below the one destroyed last. */
  method LargestRoot(t: Table, iDestroyed: nat) returns (iLargest: nat)
    ensures iLargest > 0 ==> iLargest in Roots(t) && (iDestroyed == 0 || iLargest < iDestroyed)
    ensures forall r :: r in Roots(t) && (iDestroyed == 0 || r < iDestroyed) ==> r <= iLargest
  {
    iLargest := 0;
    if iDestroyed == 0 || t.tnum < iDestroyed { iLargest := t.tnum; }
    var i := 0;
    while i < |t.idx|
      invariant 0 <= i <= |t.idx|
      invariant iLargest > 0 ==> iLargest in Roots(t) && (iDestroyed == 0 || iLargest < iDestroyed)
      invariant (iDestroyed == 0 || t.tnum < iDestroyed) ==> t.tnum <= iLargest
      invariant forall k :: 0 <= k < i && (iDestroyed == 0 || t.idx[k] < iDestroyed) ==> t.idx[k] <= iLargest
    {
      var iIdx := t.idx[i];
      if (iDestroyed == 0 || iIdx < iDestroyed) && iIdx > iLargest { iLargest := iIdx; }
      i := i + 1;
    }
  }

  /** destroyTable(): the root pages, largest first, each of them once. Root page 0 (a table
      or index without storage) is never destroyed. */
  method DestroyTable(t: Table, ghost db: Db) returns (order: seq<nat>)
    ensures Descending(order) && DropsExactly(db, t, order)
    ensures forall r :: r in order <==> r in Roots(t) && r > 0
  {
    order := [];
    var iDestroyed := 0;
    while true
      invariant iDestroyed == 0 <==> order == []
      invariant order != [] ==> iDestroyed == order[|order| - 1]
      invariant Descending(order)
      invariant forall r :: r in order ==> r in Roots(t) && r > 0
      invariant forall r :: r in Roots(t) && iDestroyed > 0 && r >= iDestroyed ==> r in order
      decreases if iDestroyed == 0 then 1 else 0, iDestroyed
    {
      var iLargest := LargestRoot(t, iDestroyed);
      if iLargest == 0 {
        DropsItsOwn(db, t, order);
        return;
      }
      order := order + [iLargest];
      iDestroyed := iLargest;
    }
  }

  // ---- what destroying a root page does to the others ----

  /** The root pages in use and the table or index each belongs to. */
  type Db = map<nat, int>

  ghost predicate IsMax(db: Db, m: nat)
  {
    m in db && forall p :: p in db ==> p <= m
  }

  lemma {:induction false} MaxExists(s: set<nat>) returns (m: nat)
    requires s != {}
    ensures m in s && forall p :: p in s ==> p <= m
  {
    m :| m in s;
    if s != {m} {
      var m' := MaxExists(s - {m});
      forall p | p in s ensures p <= m || p <= m' {
        if p != m { assert p in s - {m}; }
      }
      if m' > m { m := m'; }
    }
  }

  ghost function MaxRoot(db: Db): (m: nat)
    requires db != map[]
    ensures IsMax(db, m)
  {
    assert exists m :: IsMax(db, m) by {
      var m := MaxExists(db.Keys);
      assert IsMax(db, m);
    }
    var m :| IsMax(db, m); m
  }

  /** OP_Destroy in an auto-vacuum database: the largest root page moves into the freed
      slot, and its owner is told. */
  ghost function DestroyRoot(db: Db, r: nat): Db
    requires r in db
  {
    var m := MaxRoot(db);
    if m == r then db - {r} else (db - {m})[r := db[m]]
  }

  datatype Hit = Free | Object(id: int)

  /** What each OP_Destroy in turn destroys; a page no longer in use is a hit on the free list. */
  ghost function Hits(db: Db, order: seq<nat>): seq<Hit>
  {
    if order == [] then []
    else if order[0] in db then [Object(db[order[0]])] + Hits(DestroyRoot(db, order[0]), order[1..])
    else [Free] + Hits(db, order[1..])
  }

  ghost function After(db: Db, order: seq<nat>): Db
  {
    if order == [] then db
    else After(if order[0] in db then DestroyRoot(db, order[0]) else db, order[1..])
  }

  ghost predicate Distinct(db: Db)
  {
    forall p, q :: p in db && q in db && db[p] == db[q] ==> p == q
  }

  /** Pages below the one destroyed stay where they are. */
  lemma BelowStay(db: Db, r: nat)
    requires r in db
    ensures forall p :: p < r ==> (p in DestroyRoot(db, r) <==> p in db)
    ensures forall p :: p < r && p in db ==> DestroyRoot(db, r)[p] == db[p]
  {
  }

  lemma OthersKeepTheirObjects(db: Db, r: nat)
    requires r in db && Distinct(db)
    ensures var db' := DestroyRoot(db, r);
            Distinct(db') && forall o :: o in db'.Values <==> o in db.Values && o != db[r]
  {
    var db' := DestroyRoot(db, r);
    var m := MaxRoot(db);
    forall o | o in db.Values && o != db[r] ensures o in db'.Values {
      var p :| p in db && db[p] == o;
      if p == m { assert db'[r] == o; } else { assert db'[p] == o; }
    }
  }

  /** From the largest page down, every destroy hits the page's own table or index, though
      pages of other tables may move in between; and nothing else is lost. */
  lemma {:induction false} DescendingIsSafe(db: Db, order: seq<nat>)
    requires Descending(order) && Distinct(db) && forall r :: r in order ==> r in db
    ensures |Hits(db, order)| == |order|
    ensures forall i :: 0 <= i < |order| ==> Hits(db, order)[i] == Object(db[order[i]])
    ensures forall o :: o in After(db, order).Values <==> o in db.Values && forall r :: r in order ==> db[r] != o
  {
    if order != [] {
      var r := order[0];
      var db' := DestroyRoot(db, r);
      BelowStay(db, r);
      OthersKeepTheirObjects(db, r);
      forall p | p in order[1..] ensures p < r && p in db' {
        var i :| 0 <= i < |order[1..]| && order[1..][i] == p;
        assert order[0] > order[i + 1];
      }
      DescendingIsSafe(db', order[1..]);
      assert order == [r] + order[1..];
    }
  }

  /** When these pages are destroyed in turn, the table and its indexes go, and all else
      stays; provided that each has a root page of its own in the database. */
  ghost predicate DropsExactly(db: Db, t: Table, order: seq<nat>)
  {
    Distinct(db) && (forall r :: r in Roots(t) && r > 0 ==> r in db) ==>
      && |Hits(db, order)| == |order|
      && (forall i :: 0 <= i < |order| ==> order[i] in db && Hits(db, order)[i] == Object(db[order[i]]))
      && forall o :: o in After(db, order).Values <==> o in db.Values && !OwnedBy(db, t, o)
  }

  ghost predicate OwnedBy(db: Db, t: Table, o: int)
  {
    exists r :: r in Roots(t) && r > 0 && r in db && db[r] == o
  }

  lemma DropsItsOwn(db: Db, t: Table, order: seq<nat>)
    requires Descending(order) && forall r :: r in order <==> r in Roots(t) && r > 0
    ensures DropsExactly(db, t, order)
  {
    if Distinct(db) && forall r :: r in Roots(t) && r > 0 ==> r in db {
      DescendingIsSafe(db, order);
      hide Hits, After, Distinct, Roots, Descending;
      forall o ensures (forall r :: r in order ==> db[r] != o) <==> !OwnedBy(db, t, o) {}
    }
  }

  /** In ascending order a page still to be destroyed can move away first. */
  lemma AscendingIsNotSafe(a: int, b: int)
    requires a != b
    ensures Hits(map[4 := a, 5 := b], [4, 5]) == [Object(a), Free]
  {
    var db: Db := map[4 := a, 5 := b];
    assert 5 in db && 4 in db;
    assert IsMax(db, MaxRoot(db));
    var db' := DestroyRoot(db, 4);
    assert 5 !in db';
    var rest: seq<nat> := [5];
    assert [4, 5][1..] == rest && rest[1..] == [];
    assert Hits(db', rest) == [Free] + Hits(db', []);
    assert Hits(db, [4, 5]) == [Object(db[4])] + Hits(db', [4, 5][1..]);
  }
}
