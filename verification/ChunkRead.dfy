// Reading the chunk index from its file: either mapped as it is, or decoded entry by entry.
module ChunkRead {
  import opened ChunkMerge
  import opened ChunkIndex
  import opened Arith

  const ENTRY_SIZE := 32
  const MAX_INT := 0x7fff_ffff

  // ---- little-endian numbers ----

  /** CS_READ_U32 and, before the sign is applied, CS_READ_I64. */
  function LittleEndian(b: seq<Byte>): (v: nat)
    ensures v < Pow256(|b|)
  {
    if b == [] then 0 else b[0] + 256 * LittleEndian(b[1..])
  }

  function ToLittleEndian(v: nat, n: nat): (b: seq<Byte>)
    ensures |b| == n
  {
    if n == 0 then [] else [v % 256] + ToLittleEndian(v / 256, n - 1)
  }

  lemma {:induction false} ReadWritten(v: nat, n: nat)
    requires v < Pow256(n)
    ensures LittleEndian(ToLittleEndian(v, n)) == v
  {
    if n > 0 {
      ReadWritten(v / 256, n - 1);
      assert ToLittleEndian(v, n)[1..] == ToLittleEndian(v / 256, n - 1);
    }
  }

  lemma {:induction false} WrittenRead(b: seq<Byte>)
    ensures ToLittleEndian(LittleEndian(b), |b|) == b
  {
    if b != [] {
      WrittenRead(b[1..]);
      assert LittleEndian(b) / 256 == LittleEndian(b[1..]) && LittleEndian(b) % 256 == b[0];
      assert b == [b[0]] + b[1..];
    }
  }

  /** Two's complement in n bytes. */
  function Signed(v: nat, n: nat): int
    requires v < Pow256(n)
  {
    if 2 * v < Pow256(n) then v else v - Pow256(n)
  }

  predicate InRange(x: int, n: nat)
  {
    0 <= 2 * x + Pow256(n) && 2 * x < Pow256(n)
  }

  function Unsigned(x: int, n: nat): (v: nat)
    requires InRange(x, n)
    ensures v < Pow256(n) && Signed(v, n) == x
  {
    if x >= 0 then x else x + Pow256(n)
  }

  lemma UnsignedSigned(v: nat, n: nat)
    requires v < Pow256(n)
    ensures var x := Signed(v, n); InRange(x, n) && Unsigned(x, n) == v
  {
  }

  // ---- entries ----

  /** The packed struct laid over 32 bytes of a mapped file. */
  function Mapped(buf: seq<Byte>): Entry
    requires |buf| == ENTRY_SIZE
  {
    Entry(buf[..20], Signed(LittleEndian(buf[20..28]), 8), Signed(LittleEndian(buf[28..]), 4))
  }

  predicate Fits(e: Entry)
  {
    InRange(e.offset, 8) && InRange(e.size, 4)
  }

  /** The bytes of the packed struct. */
  function Packed(e: Entry): (buf: seq<Byte>)
    requires Fits(e)
    ensures |buf| == ENTRY_SIZE
  {
    e.hash + ToLittleEndian(Unsigned(e.offset, 8), 8) + ToLittleEndian(Unsigned(e.size, 4), 4)
  }

  /** csDeserializeIndexEntry() */
  function Deserialize(aBuf: seq<Byte>): (r: (Status, Entry))
    requires |aBuf| == ENTRY_SIZE
    ensures r.0 == Ok <==> Mapped(aBuf).size >= 0
    ensures r.0 == Ok ==> r.1 == Mapped(aBuf)
    ensures r.0 == Ok || r.0 == Corrupt
  {
    var sz := LittleEndian(aBuf[28..32]);
    FourBytes();
    assert aBuf[28..32] == aBuf[28..];
    if sz > MAX_INT then (Corrupt, Entry(aBuf[..20], 0, 0))
    else (Ok, Entry(aBuf[..20], Signed(LittleEndian(aBuf[20..28]), 8), sz))
  }

  lemma FourBytes()
    ensures Pow256(4) == 2 * (MAX_INT + 1)
  {
    assert Pow256(2) == 256 * Pow256(1) == 256 * (256 * Pow256(0));
    assert Pow256(4) == 256 * (256 * Pow256(2));
  }

  /** The fields of an entry, byte by byte: the size in bytes 28 to 31, the lowest first, and
      negative exactly if the last one has its top bit set; likewise the offset. */
  lemma EntryFields(buf: seq<Byte>)
    requires |buf| == ENTRY_SIZE
    ensures Mapped(buf).size == Word4(buf, 28) - if buf[31] >= 128 then 0x1_0000_0000 else 0
    ensures Mapped(buf).offset == Word4(buf, 20) + 0x1_0000_0000 * Word4(buf, 24)
                                  - if buf[27] >= 128 then 0x1_0000_0000_0000_0000 else 0
  {
    FourBytes();
    LowFirst(buf[28..]);
    LowFirst(buf[20..28]);
    LowFirst(buf[24..28]);
    assert buf[20..28][4..] == buf[24..28];
    assert Pow256(8) == 0x1_0000_0000_0000_0000 by {
      assert Pow256(6) == 256 * (256 * Pow256(4));
      assert Pow256(8) == 256 * (256 * Pow256(6));
    }
    assert LittleEndian([]) == 0;
  }

  function Word4(b: seq<Byte>, at: nat): nat
    requires at + 4 <= |b|
  {
    var b1: nat, b2: nat, b3: nat := b[at + 1], b[at + 2], b[at + 3];
    b[at] + b1 * 0x100 + b2 * 0x1_0000 + b3 * 0x100_0000
  }

  lemma LowFirst(b: seq<Byte>)
    requires |b| >= 4
    ensures LittleEndian(b) == Word4(b, 0) + 0x1_0000_0000 * LittleEndian(b[4..])
  {
    assert b[1..][1..] == b[2..] && b[2..][1..] == b[3..] && b[3..][1..] == b[4..];
    assert LittleEndian(b) == b[0] + 256 * LittleEndian(b[1..]);
    assert LittleEndian(b[1..]) == b[1] + 256 * LittleEndian(b[2..]);
    assert LittleEndian(b[2..]) == b[2] + 256 * LittleEndian(b[3..]);
    assert LittleEndian(b[3..]) == b[3] + 256 * LittleEndian(b[4..]);
  }

  /** What is written as a packed struct is mapped as the same entry, and decoded as it
      unless its size is negative. */
  lemma PackedRoundTrip(e: Entry)
    requires Fits(e)
    ensures Mapped(Packed(e)) == e
    ensures Deserialize(Packed(e)) == (Ok, e) <==> e.size >= 0
  {
    var b := Packed(e);
    ReadWritten(Unsigned(e.offset, 8), 8);
    ReadWritten(Unsigned(e.size, 4), 4);
    assert b[..20] == e.hash;
    assert b[20..28] == ToLittleEndian(Unsigned(e.offset, 8), 8);
    assert b[28..] == ToLittleEndian(Unsigned(e.size, 4), 4);
  }

  /** Different bytes are different entries. */
  lemma MappedRoundTrip(buf: seq<Byte>)
    requires |buf| == ENTRY_SIZE
    ensures Fits(Mapped(buf)) && Packed(Mapped(buf)) == buf
  {
    UnsignedSigned(LittleEndian(buf[20..28]), 8);
    UnsignedSigned(LittleEndian(buf[28..]), 4);
    WrittenRead(buf[20..28]);
    WrittenRead(buf[28..]);
  }

  function Slot(file: seq<Byte>, offset: nat, i: nat): seq<Byte>
    requires offset + (i + 1) * ENTRY_SIZE <= |file|
  {
    file[offset + i * ENTRY_SIZE..offset + i * ENTRY_SIZE + ENTRY_SIZE]
  }

  /** What the system grants: the file size, a mapping, memory, and a complete read. */
  datatype Grants = Grants(size: bool, mapping: bool, memory: bool, read: bool)

  /** The header names whole entries, few enough to count, at a position that can exist. */
  predicate HeaderOk(iIndexOffset: int, nIndexSize: int)
  {
    iIndexOffset >= 0 && nIndexSize > 0 && nIndexSize % ENTRY_SIZE == 0 && nIndexSize / ENTRY_SIZE <= MAX_INT
  }

  /** Some entry on file has a size that is negative once it is read as an int. */
  ghost predicate HasBadEntry(file: seq<Byte>, iIndexOffset: nat, n: nat)
    requires iIndexOffset + n * ENTRY_SIZE <= |file|
  {
    exists i :: 0 <= i < n && BadSlot(file, iIndexOffset, i)
  }

  predicate BadSlot(file: seq<Byte>, iIndexOffset: nat, i: nat)
    requires iIndexOffset + (i + 1) * ENTRY_SIZE <= |file|
  {
    Mapped(Slot(file, iIndexOffset, i)).size < 0
  }

  /** csReadIndex(). An empty file is not checked against the header; then nothing can be
      mapped, and the read comes up short. */
  method ReadIndex(file: seq<Byte>, iIndexOffset: int, nIndexSize: int, nChunks: int, g: Grants, aIndex0: seq<Entry>)
      returns (rc: Status, aIndex: seq<Entry>)
    ensures nIndexSize == 0 || nChunks == 0 ==> rc == Ok && aIndex == []
    ensures nIndexSize != 0 && nChunks != 0 ==>
      var fits := HeaderOk(iIndexOffset, nIndexSize) && iIndexOffset + nIndexSize <= |file|;
      var copied := HeaderOk(iIndexOffset, nIndexSize) && g.size && (if fits then !g.mapping else file == []);
      && (rc == TooBig <==> nIndexSize % ENTRY_SIZE == 0 && nIndexSize / ENTRY_SIZE > MAX_INT)
      && (rc == NoMem <==> copied && !g.memory)
      && (rc == IoErr <==> (HeaderOk(iIndexOffset, nIndexSize) && !g.size)
                           || (copied && g.memory && (!g.read || file == [])))
      && (rc == Ok <==> fits && g.size && (g.mapping || (g.memory && g.read
                        && !HasBadEntry(file, iIndexOffset, nIndexSize / ENTRY_SIZE))))
      && (rc == Ok ==>
            && |aIndex| == nIndexSize / ENTRY_SIZE
            && forall i :: 0 <= i < |aIndex| ==> aIndex[i] == Mapped(Slot(file, iIndexOffset, i)))
      && (rc != Ok ==> aIndex == if copied then [] else aIndex0)
  {
    if nIndexSize == 0 || nChunks == 0 { return Ok, []; }
    var nEntries64 := if nIndexSize < 0 then -(-nIndexSize / ENTRY_SIZE) else nIndexSize / ENTRY_SIZE;
    if nEntries64 * ENTRY_SIZE != nIndexSize { return Corrupt, aIndex0; }
    if nEntries64 > MAX_INT { return TooBig, aIndex0; }
    if iIndexOffset < 0 || nIndexSize < 0 { return Corrupt, aIndex0; }
    if !g.size { return IoErr, aIndex0; }
    if |file| > 0 && (iIndexOffset > |file| || nIndexSize > |file| - iIndexOffset) { return Corrupt, aIndex0; }
    if g.mapping && |file| > 0 {
      aIndex := seq(nEntries64, i requires 0 <= i < nEntries64 => Mapped(Slot(file, iIndexOffset, i)));
      return Ok, aIndex;
    }
    if !g.memory { return NoMem, []; }
    if !g.read || file == [] { return IoErr, []; }
    rc, aIndex := ReadEntries(file, iIndexOffset, nEntries64);
  }

  /** Decode the entries one by one; the first bad one ends it. */
  method ReadEntries(file: seq<Byte>, offset: nat, n: nat) returns (rc: Status, aIndex: seq<Entry>)
    requires offset + n * ENTRY_SIZE <= |file|
    ensures rc == if HasBadEntry(file, offset, n) then Corrupt else Ok
    ensures rc == Corrupt ==> aIndex == []
    ensures rc == Ok ==> |aIndex| == n && forall i :: 0 <= i < n ==> aIndex[i] == Mapped(Slot(file, offset, i))
  {
    aIndex := [];
    var i := 0;
    while i < n
      invariant 0 <= i <= n && |aIndex| == i
      invariant forall j :: 0 <= j < i ==> aIndex[j] == Mapped(Slot(file, offset, j)) && !BadSlot(file, offset, j)
    {
      var r := Deserialize(Slot(file, offset, i));
      if r.0 != Ok {
        assert BadSlot(file, offset, i);
        return r.0, [];
      }
      aIndex := aIndex + [r.1];
      i := i + 1;
    }
    rc := Ok;
  }
}
