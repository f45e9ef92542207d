// The self-converting bit set: a flat bitmap, a probing hash table, or a radix tree of
// smaller bit sets, chosen by size and load.
module Bitvec {
  import opened Arith
  import opened ProbeTable

  const NBIT: nat := 3968
  const NELEM: nat := 496
  const MXHASH: nat := 62
  const NPTR: nat := 62
  // ---- bits of one bitmap element ----

  function Mask(k: nat): bv8
    requires k < 8
  {
    (1 as bv8) << k
  }

  predicate Meets(b: bv8, x: bv8)
  {
    b & x != 0
  }

  predicate HasBit(b: bv8, k: nat)
    requires k < 8
  {
    Meets(b, Mask(k))
  }

  lemma MaskIsOneBit(k: nat, m: nat)
    requires k < 8 && m < 8
    ensures Mask(k) != 0
    ensures k != m ==> Mask(k) & Mask(m) == 0
  {
    if
    case k == 0 =>
    case k == 1 =>
    case k == 2 =>
    case k == 3 =>
    case k == 4 =>
    case k == 5 =>
    case k == 6 =>
    case k == 7 =>
  }

  lemma SetOneBit(b: bv8, k: nat, m: nat)
    requires k < 8 && m < 8
    ensures HasBit(b | Mask(k), m) <==> HasBit(b, m) || k == m
    ensures HasBit(b & !Mask(k), m) <==> HasBit(b, m) && k != m
  {
    hide HasBit, Mask;
    BitSet(b, k, m);
    BitCleared(b, k, m);
  }

  lemma BitSet(b: bv8, k: nat, m: nat)
    requires k < 8 && m < 8
    ensures HasBit(b | Mask(k), m) <==> HasBit(b, m) || k == m
  {
    hide Mask, Meets;
    MaskIsOneBit(k, m);
    if k == m { OneBitSame(b, Mask(k)); } else { OneBitOther(b, Mask(k), Mask(m)); }
  }

  lemma BitCleared(b: bv8, k: nat, m: nat)
    requires k < 8 && m < 8
    ensures HasBit(b & !Mask(k), m) <==> HasBit(b, m) && k != m
  {
    hide Mask, Meets;
    MaskIsOneBit(k, m);
    if k == m { OneBitSame(b, Mask(k)); } else { OneBitOther(b, Mask(k), Mask(m)); }
  }

  lemma OneBitSame(b: bv8, x: bv8)
    requires x != 0
    ensures Meets(b | x, x) && !Meets(b & !x, x)
  {
  }

  lemma OneBitOther(b: bv8, x: bv8, y: bv8)
    requires x & y == 0
    ensures Meets(b | x, y) == Meets(b, y) && Meets(b & !x, y) == Meets(b, y)
  {
  }

  /** One bit of a bitmap is set, and no other changes. */
  lemma BitAdded(a: seq<bv8>, b: seq<bv8>, x: nat, n: nat)
    requires |a| == |b| == NELEM && x < n <= NBIT && b == a[x / 8 := a[x / 8] | Mask(x % 8)]
    ensures forall j :: 0 <= j < n ==> (HasBit(b[j / 8], j % 8) <==> HasBit(a[j / 8], j % 8) || j == x)
  {
    hide HasBit, Mask;
    forall j | 0 <= j < n ensures HasBit(b[j / 8], j % 8) <==> HasBit(a[j / 8], j % 8) || j == x {
      SetOneBit(a[j / 8], x % 8, j % 8);
    }
  }

  lemma BitRemoved(a: seq<bv8>, b: seq<bv8>, x: nat, n: nat)
    requires |a| == |b| == NELEM && x < NBIT && n <= NBIT && b == a[x / 8 := a[x / 8] & !Mask(x % 8)]
    ensures forall j :: 0 <= j < n ==> (HasBit(b[j / 8], j % 8) <==> HasBit(a[j / 8], j % 8) && j != x)
  {
    hide HasBit, Mask;
    forall j | 0 <= j < n ensures HasBit(b[j / 8], j % 8) <==> HasBit(a[j / 8], j % 8) && j != x {
      SetOneBit(a[j / 8], x % 8, j % 8);
    }
  }

  // ---- the radix tree ----

  /** iDivisor of a hash table of the given size that is being subdivided. */
  function SubSize(iSize: nat): (d: nat)
    requires NBIT < iSize < U32
    ensures NBIT <= d < iSize && iSize <= d * NPTR
  {
    var d := iSize / NPTR;
    var d := if iSize % NPTR != 0 then d + 1 else d;
    if d < NBIT then NBIT else d
  }

  /** Which child holds zero-based index i, and its zero-based index there. */
  function Bin(i: nat, iSize: nat): (k: nat)
    requires NBIT < iSize < U32 && i < iSize
    ensures k < NPTR
  {
    hide SubSize, Quotient;
    QuotientBound(i, SubSize(iSize), NPTR);
    Quotient(i, SubSize(iSize))
  }

  function Rest(i: nat, iSize: nat): (r: nat)
    requires NBIT < iSize < U32 && i < iSize
    ensures r < SubSize(iSize)
  {
    hide SubSize, Remainder;
    Remainder(i, SubSize(iSize))
  }

  lemma SameChildSameIndex(i: nat, j: nat, iSize: nat)
    requires NBIT < iSize < U32 && i < iSize && j < iSize
    requires Bin(i, iSize) == Bin(j, iSize) && Rest(i, iSize) == Rest(j, iSize)
    ensures i == j
  {
    DivBounds(i, SubSize(iSize));
    DivBounds(j, SubSize(iSize));
  }

  class Bitvec {
    const iSize: nat
    var nSet: nat
    var iDivisor: nat
    // the members of the union
    const aBitmap: array<bv8>
    const aHash: array<nat>
    const apSub: array<Bitvec?>
    ghost var Bits: set<nat>
    ghost var Repr: set<object>

    ghost predicate Own()
      reads this
    {
      && this in Repr && aBitmap in Repr && aHash in Repr && apSub in Repr
      && aBitmap.Length == NELEM && aHash.Length == NINT && apSub.Length == NPTR
      && iSize < U32
      && forall i :: i in Bits ==> 1 <= i <= iSize
    }

    ghost predicate Valid()
      reads this, Repr
      ensures Valid() ==> this in Repr
      decreases iSize
    {
      && Own()
      && if iSize <= NBIT then
           && iDivisor == 0
           && forall i :: 0 <= i < iSize ==> (i + 1 in Bits <==> HasBit(aBitmap[i / 8], i % 8))
         else if iDivisor == 0 then
           && nSet == |Bits| < NINT
           && Stores(aHash[..], Bits)
         else
           && iDivisor == SubSize(iSize)
           && (forall k :: 0 <= k < NPTR && apSub[k] != null ==> ChildOk(k))
           && (forall k, l :: 0 <= k < l < NPTR && apSub[k] != null && apSub[l] != null ==>
                 apSub[k].Repr !! apSub[l].Repr)
           && (forall i :: 0 <= i < iSize ==> (i + 1 in Bits <==> InChild(i)))
    }

    ghost predicate ChildOk(k: nat)
      requires Own() && NBIT < iSize && iDivisor == SubSize(iSize) && k < NPTR && apSub[k] != null
      reads this, Repr
      decreases iSize, 0
    {
      var c: Bitvec := apSub[k];
      && c in Repr && c.Repr <= Repr && {this, aBitmap, aHash, apSub} !! c.Repr
      && c.iSize == iDivisor && c.Valid()
    }

    ghost predicate InChild(i: nat)
      requires Own() && NBIT < iSize && iDivisor == SubSize(iSize) && i < iSize
      requires forall k :: 0 <= k < NPTR && apSub[k] != null ==> apSub[k] in Repr
      reads this, Repr
    {
      var c := apSub[Bin(i, iSize)];
      c != null && Rest(i, iSize) + 1 in c.Bits
    }

    /** sqlite3BitvecCreate() */
    constructor (iSize: nat)
      requires iSize < U32
      ensures Valid() && fresh(Repr) && Bits == {} && this.iSize == iSize && iDivisor == 0
    {
      this.iSize := iSize;
      nSet, iDivisor := 0, 0;
      aBitmap := new bv8[NELEM](i => 0);
      aHash := new nat[NINT](i => 0);
      apSub := new Bitvec?[NPTR](i => null);
      Bits := {};
      new;
      Repr := {this, aBitmap, aHash, apSub};
      EmptyTable(aHash[..]);
    }

    /** sqlite3BitvecTestNotNull(): index 0 wraps around to the largest u32. */
    method TestNotNull(i: nat) returns (b: bool)
      requires Valid() && i < U32
      ensures b <==> i in Bits
    {
      var x: nat := if i == 0 then U32 - 1 else i - 1;
      if x >= iSize { return false; }
      var p: Bitvec := this;
      while p.iDivisor != 0
        invariant p.Valid() && x < p.iSize
        invariant x + 1 in p.Bits <==> i in Bits
        decreases p.iSize
      {
        assert p.iDivisor == SubSize(p.iSize);
        var bin := Bin(x, p.iSize);
        assert x + 1 in p.Bits <==> p.InChild(x);
        x := Rest(x, p.iSize);
        if p.apSub[bin] == null { return false; }
        assert p.ChildOk(bin);
        p := p.apSub[bin];
      }
      if p.iSize <= NBIT {
        b := HasBit(p.aBitmap[x / 8], x % 8);
      } else {
        b := p.Probe(x + 1);
      }
    }

    /** Walk the probe sequence of x. */
    method Probe(x: nat) returns (found: bool)
      requires Valid() && iSize > NBIT && iDivisor == 0 && x > 0
      ensures found <==> x in Bits
    {
      ghost var a := aHash[..];
      ghost var e := FreeSlot(a, Bits);
      var h: nat := Home(x);
      while aHash[h] != 0
        invariant h < NINT && Probed(a, x, h) && aHash[..] == a
        decreases Distance(h, e)
      {
        if aHash[h] == x { return true; }
        ProbeStep(a, x, h, e);
        h := Next(h);
      }
      ProbeEnd(a, Bits, x, h);
      return false;
    }

    /** sqlite3BitvecSet(), with every allocation succeeding. */
    method Set(i: nat)
      requires Valid() && 1 <= i <= iSize
      modifies Repr
      ensures Valid() && fresh(Repr - old(Repr))
      ensures Bits == old(Bits) + {i}
      ensures old(iDivisor) != 0 ==> iDivisor == old(iDivisor)
      decreases iSize, if iDivisor == 0 then 3 else 1, 0
    {
      if iSize > NBIT && iDivisor != 0 {
        SetInChild(i);
      } else if iSize <= NBIT {
        SetInBitmap(i - 1);
      } else {
        SetInHash(i);
      }
    }

    method SetInBitmap(x: nat)
      requires Valid() && x < iSize <= NBIT
      modifies Repr
      ensures Valid() && Repr == old(Repr)
      ensures Bits == old(Bits) + {x + 1}
    {
      hide HasBit, Mask;
      ghost var before := aBitmap[..];
      aBitmap[x / 8] := aBitmap[x / 8] | Mask(x % 8);
      BitAdded(before, aBitmap[..], x, iSize);
      Bits := Bits + {x + 1};
    }

    method SetInHash(i: nat)
      requires Valid() && 1 <= i <= iSize && iSize > NBIT && iDivisor == 0
      modifies Repr
      ensures Valid() && fresh(Repr - old(Repr))
      ensures Bits == old(Bits) + {i}
      ensures iDivisor != 0 <==>
                i !in old(Bits) && old(nSet) >= 62 && (old(aHash[Home(i)]) != 0 || old(nSet) >= 123)
      decreases iSize, 2, 1
    {
      var h, collided, present := FindSlot(i);
      if present {
        assert Bits == Bits + {i};
        return;
      }
      if (collided || nSet >= NINT - 1) && nSet >= MXHASH {
        Subdivide(i);
        return;
      }
      FillSlot(i, h);
    }

    /** The slot that holds i, or a free one to put it in. */
    method FindSlot(i: nat) returns (h: nat, collided: bool, present: bool)
      requires Valid() && i > 0 && iSize > NBIT && iDivisor == 0
      ensures h < NINT && (present <==> i in Bits)
      ensures !present ==> aHash[h] == 0 && Probed(aHash[..], i, h)
      ensures collided == (aHash[Home(i)] != 0)
    {
      hide SubSize, HasBit;
      ghost var a := aHash[..];
      ghost var e := FreeSlot(a, Bits);
      h := Home(i);
      collided := aHash[h] != 0;
      while aHash[h] != 0
        invariant h < NINT && Probed(a, i, h)
        decreases Distance(h, e)
      {
        if aHash[h] == i { return h, collided, true; }
        ProbeStep(a, i, h, e);
        h := Next(h);
      }
      ProbeEnd(a, Bits, i, h);
      present := false;
    }

    /** Store i in a free slot of the hash table. */
    method FillSlot(i: nat, h: nat)
      requires Valid() && 1 <= i <= iSize && iSize > NBIT && iDivisor == 0 && h < NINT && i !in Bits
      requires nSet + 1 < NINT && aHash[h] == 0 && Probed(aHash[..], i, h)
      modifies this`nSet, this`Bits, aHash
      ensures Valid() && Bits == old(Bits) + {i}
    {
      hide Stores, SubSize, HasBit;
      ghost var a := aHash[..];
      Inserted(a, Bits, i, h);
      nSet := nSet + 1;
      aHash[h] := i;
      Bits := Bits + {i};
      assert aHash[..] == a[h := i];
    }

    /** Make sure that child `bin` exists; a new child is empty. */
    method EnsureChild(bin: nat)
      requires Valid() && iSize > NBIT && iDivisor != 0 && bin < NPTR
      modifies this`Repr, apSub
      ensures Valid() && fresh(Repr - old(Repr)) && iDivisor == old(iDivisor)
      ensures apSub[bin] != null && Bits == old(Bits)
    {
      if apSub[bin] == null {
        var c := new Bitvec(iDivisor);
        apSub[bin] := c;
        Repr := Repr + c.Repr;
        forall i | 0 <= i < iSize ensures InChild(i) <==> old(InChild(i)) {}
      }
    }

    method SetInChild(i: nat)
      requires Valid() && 1 <= i <= iSize && iSize > NBIT && iDivisor != 0
      modifies Repr
      ensures Valid() && fresh(Repr - old(Repr)) && iDivisor == old(iDivisor)
      ensures Bits == old(Bits) + {i}
      decreases iSize, 0, 1
    {
      var x := i - 1;
      EnsureChild(Bin(x, iSize));
      SetInExistingChild(x);
    }

    method SetInExistingChild(x: nat)
      requires Valid() && x < iSize && iSize > NBIT && iDivisor != 0
      requires apSub[Bin(x, iSize)] != null
      modifies Repr
      ensures Valid() && fresh(Repr - old(Repr)) && iDivisor == old(iDivisor)
      ensures Bits == old(Bits) + {x + 1}
      decreases iSize, 0, 0
    {
      hide SubSize, HasBit, Stores, Bin, Rest;
      var bin, rest := Bin(x, iSize), Rest(x, iSize);
      var c: Bitvec := apSub[bin];
      assert ChildOk(bin);
      label before:
      c.Set(rest + 1);
      Repr := Repr + c.Repr;
      Bits := Bits + {x + 1};
      assert Own();
      forall k | 0 <= k < NPTR && apSub[k] != null ensures ChildOk(k) {
        if k != bin { assert old@before(ChildOk(k)); }
      }
      forall k, l | 0 <= k < l < NPTR && apSub[k] != null && apSub[l] != null
        ensures apSub[k].Repr !! apSub[l].Repr
      {
        assert old@before(apSub[k].Repr !! apSub[l].Repr);
      }
      forall j | 0 <= j < iSize ensures j + 1 in Bits <==> InChild(j) {
        assert j + 1 in old@before(Bits) <==> old@before(InChild(j));
        if j != x && Bin(j, iSize) == bin && Rest(j, iSize) == rest { SameChildSameIndex(j, x, iSize); }
      }
    }

    /** The hash table is too full: redistribute its contents over sub-bitmaps. */
    method Subdivide(i: nat)
      requires Valid() && 1 <= i <= iSize && iSize > NBIT && iDivisor == 0
      modifies Repr
      ensures Valid() && fresh(Repr - old(Repr)) && iDivisor != 0
      ensures Bits == old(Bits) + {i}
      decreases iSize, 2, 0
    {
      ghost var stored := Bits;
      var aiValues := aHash[..];
      StoredIsNonZero(aiValues, stored);
      assert forall k :: 0 <= k < NINT && aiValues[k] != 0 ==> 1 <= aiValues[k] <= iSize;
      hide SubSize, HasBit, Stores, NonZero;
      BecomeTree();
      Set(i);
      MoveAll(aiValues, i);
    }

    /** Put the saved contents of the hash table into the tree. */
    method MoveAll(aiValues: seq<nat>, ghost i: nat)
      requires Valid() && iSize > NBIT && iDivisor != 0 && Bits == {i}
      requires forall k :: 0 <= k < |aiValues| && aiValues[k] != 0 ==> 1 <= aiValues[k] <= iSize
      modifies Repr
      ensures Valid() && fresh(Repr - old(Repr)) && iDivisor != 0
      ensures Bits == {i} + NonZero(aiValues)
      decreases iSize, 1, 1
    {
      hide Valid, SubSize, Moved, NonZero;
      MovedEnds(aiValues, i);
      var j := 0;
      while j < |aiValues|
        invariant 0 <= j <= |aiValues| && Valid() && fresh(Repr - old(Repr)) && iDivisor != 0
        invariant Bits == Moved(aiValues, j, i)
      {
        MovedStep(aiValues, j, i);
        if aiValues[j] != 0 { Set(aiValues[j]); }
        j := j + 1;
      }
    }

    /** Clear the union and switch to the tree representation, which then holds nothing. */
    method BecomeTree()
      requires Valid() && iSize > NBIT && iDivisor == 0
      modifies this`iDivisor, this`Bits, apSub
      ensures Valid() && iDivisor != 0 && Bits == {}
    {
      var k := 0;
      while k < NPTR
        invariant 0 <= k <= NPTR && forall m :: 0 <= m < k ==> apSub[m] == null
      {
        apSub[k] := null;
        k := k + 1;
      }
      iDivisor := iSize / NPTR;
      if iSize % NPTR != 0 { iDivisor := iDivisor + 1; }
      if iDivisor < NBIT { iDivisor := NBIT; }
      Bits := {};
      assert iDivisor == SubSize(iSize);
      assert forall j :: 0 <= j < iSize ==> !InChild(j);
    }

    /** sqlite3BitvecClear(): an index above iSize is harmless unless it lies outside the
        bitmap, or the tree is asked for it. */
    method Clear(i: nat)
      requires Valid() && 1 <= i && (i <= iSize || (iDivisor == 0 && (iSize > NBIT || i <= NBIT)))
      modifies Repr
      ensures Valid() && Repr == old(Repr) && iDivisor == old(iDivisor)
      ensures Bits == old(Bits) - {i}
      decreases iSize, 1
    {
      if iDivisor != 0 {
        ClearInChild(i);
      } else if iSize <= NBIT {
        ClearInBitmap(i - 1);
      } else {
        ClearInHash(i);
      }
    }

    method ClearInBitmap(x: nat)
      requires Valid() && iSize <= NBIT && x < NBIT
      modifies Repr
      ensures Valid() && Repr == old(Repr) && iDivisor == old(iDivisor)
      ensures Bits == old(Bits) - {x + 1}
    {
      hide HasBit, Mask;
      ghost var before := aBitmap[..];
      aBitmap[x / 8] := aBitmap[x / 8] & !Mask(x % 8);
      BitRemoved(before, aBitmap[..], x, iSize);
      Bits := Bits - {x + 1};
    }

    method ClearInChild(i: nat)
      requires Valid() && 1 <= i <= iSize && iDivisor != 0
      modifies Repr
      ensures Valid() && Repr == old(Repr) && iDivisor == old(iDivisor)
      ensures Bits == old(Bits) - {i}
      decreases iSize, 0
    {
      var x: nat := i - 1;
      var bin, rest := Bin(x, iSize), Rest(x, iSize);
      assert bin == x / iDivisor && rest == x % iDivisor;
      if apSub[bin] == null {
        assert x + 1 in Bits <==> InChild(x);
        return;
      }
      var c: Bitvec := apSub[bin];
      assert ChildOk(bin);
      hide SubSize, Quotient, Remainder, HasBit, Stores;
      label before:
      c.Clear(rest + 1);
      Bits := Bits - {i};
      assert Own();
      forall k | 0 <= k < NPTR && apSub[k] != null ensures ChildOk(k) {
        if k != bin { assert old@before(ChildOk(k)); }
      }
      forall k, l | 0 <= k < l < NPTR && apSub[k] != null && apSub[l] != null
        ensures apSub[k].Repr !! apSub[l].Repr
      {
        assert old@before(apSub[k].Repr !! apSub[l].Repr);
      }
      forall j | 0 <= j < iSize ensures j + 1 in Bits <==> InChild(j) {
        assert j + 1 in old@before(Bits) <==> old@before(InChild(j));
        if j != x && Bin(j, iSize) == bin && Rest(j, iSize) == rest { SameChildSameIndex(j, x, iSize); }
      }
    }

    /** Rebuild the hash table without i. */
    method ClearInHash(i: nat)
      requires Valid() && 1 <= i && iSize > NBIT && iDivisor == 0
      modifies Repr
      ensures Valid() && Repr == old(Repr) && iDivisor == old(iDivisor)
      ensures Bits == old(Bits) - {i}
    {
      StoredIsNonZero(aHash[..], Bits);
      Rebuild(i);
    }

    method Rebuild(i: nat)
      requires aHash.Length == NINT && Stores(aHash[..], Bits) && |Bits| < NINT
      modifies this`nSet, this`Bits, aHash
      ensures Stores(aHash[..], Bits) && nSet == |Bits| < NINT
      ensures Bits == NonZero(old(aHash[..])) - {i}
    {
      hide Stores, NonZero, Kept;
      ghost var stored := Bits;
      var aiValues := aHash[..];
      ZeroHash();
      EmptyTable(aHash[..]);
      Bits := {};
      nSet := 0;
      var j := 0;
      KeptEnds(aiValues, i);
      while j < NINT
        modifies this`nSet, this`Bits, aHash
        invariant 0 <= j <= NINT
        invariant Stores(aHash[..], Bits) && nSet == |Bits| < NINT
        invariant Bits == Kept(aiValues, j, i)
      {
        KeptStep(aiValues, j, i);
        if aiValues[j] != 0 && aiValues[j] != i {
          RebuildStep(aiValues, stored, j, i);
          Reinsert(aiValues[j]);
        }
        j := j + 1;
      }
    }

    method ZeroHash()
      requires aHash.Length == NINT
      modifies aHash
      ensures forall k :: 0 <= k < NINT ==> aHash[k] == 0
    {
      var k := 0;
      while k < NINT
        invariant 0 <= k <= NINT && forall m :: 0 <= m < k ==> aHash[m] == 0
      {
        aHash[k] := 0;
        k := k + 1;
      }
    }

    method Reinsert(v: nat)
      requires aHash.Length == NINT && v > 0 && v !in Bits
      requires Stores(aHash[..], Bits) && nSet == |Bits| < NINT - 1
      modifies this`nSet, this`Bits, aHash
      ensures Bits == old(Bits) + {v} && nSet == |Bits| && Stores(aHash[..], Bits)
    {
      ghost var a := aHash[..];
      ghost var e := FreeSlot(a, Bits);
      var h: nat := Home(v);
      nSet := nSet + 1;
      while aHash[h] != 0
        modifies {}
        invariant h < NINT && Probed(a, v, h)
        decreases Distance(h, e)
      {
        assert a[h] in Bits;
        ProbeStep(a, v, h, e);
        h := Next(h);
      }
      Inserted(a, Bits, v, h);
      aHash[h] := v;
      Bits := Bits + {v};
      assert aHash[..] == a[h := v];
    }
  }

  /** While the table is rebuilt, the next value is new and there is room for it. */
  lemma RebuildStep(a: seq<nat>, s: set<nat>, j: nat, i: nat)
    requires Stores(a, s) && |s| < NINT && j < NINT && a[j] != 0 && a[j] != i
    ensures a[j] !in Kept(a, j, i) && |Kept(a, j, i)| < NINT - 1
  {
    assert NonZero(a[..j]) + {a[j]} <= s;
    SubsetSize((NonZero(a[..j]) - {i}) + {a[j]}, s);
  }

  /** What has been put back when the first j slots are done. */
  ghost function Kept(a: seq<nat>, j: nat, i: nat): set<nat>
    requires j <= |a|
  {
    NonZero(a[..j]) - {i}
  }

  lemma KeptStep(a: seq<nat>, j: nat, i: nat)
    requires j < |a|
    ensures Kept(a, j + 1, i) == if a[j] == 0 || a[j] == i then Kept(a, j, i) else Kept(a, j, i) + {a[j]}
  {
    NonZeroStep(a, j);
  }

  lemma KeptEnds(a: seq<nat>, i: nat)
    ensures Kept(a, 0, i) == {} && Kept(a, |a|, i) == NonZero(a) - {i}
  {
    assert a[..0] == [] && a[..|a|] == a;
  }

  /** What the tree holds when the first j slots are moved into it. */
  ghost function Moved(a: seq<nat>, j: nat, i: nat): set<nat>
    requires j <= |a|
  {
    {i} + NonZero(a[..j])
  }

  lemma MovedStep(a: seq<nat>, j: nat, i: nat)
    requires j < |a|
    ensures Moved(a, j + 1, i) == if a[j] == 0 then Moved(a, j, i) else Moved(a, j, i) + {a[j]}
  {
    NonZeroStep(a, j);
  }

  lemma MovedEnds(a: seq<nat>, i: nat)
    ensures Moved(a, 0, i) == {i} && Moved(a, |a|, i) == {i} + NonZero(a)
  {
    assert a[..0] == [] && a[..|a|] == a;
  }

  function NonZero(a: seq<nat>): set<nat>
  {
    set x | x in a && x != 0
  }

  lemma NonZeroStep(a: seq<nat>, j: nat)
    requires j < |a|
    ensures NonZero(a[..j + 1]) == NonZero(a[..j]) + if a[j] != 0 then {a[j]} else {}
    ensures a[j] != 0 ==> a[j] in NonZero(a)
  {
    assert a[..j + 1] == a[..j] + [a[j]];
  }

  lemma StoredIsNonZero(a: seq<nat>, s: set<nat>)
    requires Stores(a, s)
    ensures s == NonZero(a)
  {
  }

  /** sqlite3BitvecTest(): a null set holds nothing. */
  method Test(p: Bitvec?, i: nat) returns (b: bool)
    requires (p != null ==> p.Valid()) && i < U32
    ensures b <==> p != null && i in p.Bits
  {
    if p == null { return false; }
    b := p.TestNotNull(i);
  }

  // ---- the built-in self test ----

  datatype Op = SetBit(i: nat) | ClearBit(i: nat)

  /** The mathematical set after a program of operations. */
  function After(ops: seq<Op>): set<nat>
  {
    if ops == [] then {}
    else
      var s := After(ops[..|ops| - 1]);
      match ops[|ops| - 1]
      case SetBit(i) => s + {i}
      case ClearBit(i) => s - {i}
  }

  lemma AfterStep(ops: seq<Op>, k: nat)
    requires k < |ops|
    ensures After(ops[..k + 1])
         == match ops[k] { case SetBit(i) => After(ops[..k]) + {i} case ClearBit(i) => After(ops[..k]) - {i} }
  {
    assert ops[..k + 1][..k] == ops[..k];
  }

  lemma AfterNone()
    ensures After([]) == {}
  {
  }

  method RunOps(p: Bitvec, ops: seq<Op>)
    requires p.Valid() && p.Bits == {}
    requires forall k :: 0 <= k < |ops| ==> 1 <= ops[k].i <= p.iSize
    modifies p.Repr
    ensures p.Valid() && fresh(p.Repr - old(p.Repr)) && p.Bits == After(ops)
  {
    hide After, Bitvec.Valid;
    var k := 0;
    AfterNone();
    assert ops[..0] == [];
    while k < |ops|
      invariant 0 <= k <= |ops| && p.Valid() && fresh(p.Repr - old(p.Repr))
      invariant p.Bits == After(ops[..k])
    {
      AfterStep(ops, k);
      match ops[k] {
        case SetBit(i) => p.Set(i);
        case ClearBit(i) => p.Clear(i);
      }
      k := k + 1;
    }
    assert ops[..|ops|] == ops;
  }

  method RunLinear(pV: array<bool>, ops: seq<Op>)
    requires forall i :: 0 <= i < pV.Length ==> !pV[i]
    requires forall k :: 0 <= k < |ops| ==> ops[k].i < pV.Length
    modifies pV
    ensures forall i :: 0 <= i < pV.Length ==> (pV[i] <==> i in After(ops))
  {
    var k := 0;
    while k < |ops|
      invariant 0 <= k <= |ops|
      invariant forall i :: 0 <= i < pV.Length ==> (pV[i] <==> i in After(ops[..k]))
    {
      assert ops[..k + 1][..k] == ops[..k];
      pV[ops[k].i] := ops[k].SetBit?;
      k := k + 1;
    }
    assert ops[..|ops|] == ops;
  }

  /** sqlite3BitvecBuiltinTest() on a decoded program: run it on a Bitvec and on a plain
      array of booleans, compare every bit, and also test out of range.  The number of the
      first disagreement, or 0: it is always 0, so the two agree on every bit. */
  method SelfTest(sz: nat, ops: seq<Op>) returns (rc: int)
    requires 0 < sz < U32 - 1
    requires forall k :: 0 <= k < |ops| ==> 1 <= ops[k].i <= sz
    ensures rc == 0
  {
    var pV := new bool[sz + 1](i => false);
    RunLinear(pV, ops);
    var p := new Bitvec(sz);
    RunOps(p, ops);
    rc := Compare(p, pV, ops);
  }

  method Compare(p: Bitvec, pV: array<bool>, ghost ops: seq<Op>) returns (rc: int)
    requires p.Valid() && p.iSize + 1 == pV.Length && p.iSize < U32 - 1
    requires p.Bits == After(ops) && forall i :: 0 <= i < pV.Length ==> (pV[i] <==> i in After(ops))
    ensures rc == 0
  {
    var sz := p.iSize;
    var b0 := Test(null, 0);
    var b1 := Test(p, sz + 1);
    var b2 := Test(p, 0);
    rc := (if b0 then 1 else 0) + (if b1 then 1 else 0) + (if b2 then 1 else 0);
    var i := 1;
    while i <= sz && rc == 0
      invariant 1 <= i && rc == 0
    {
      var b := Test(p, i);
      if pV[i] != b { rc := i; }
      i := i + 1;
    }
  }
}
