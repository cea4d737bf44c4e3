/** A slotted page of values, byte by byte: header, slot directory growing up, values growing down. */
module ValuePage {
  import opened Table
  import opened ByteFormat

  const PAGE_SIZE: nat := 16384
  const HEADER_SIZE: nat := 12
  const SLOT_SIZE: nat := 8
  const TOMBSTONE: u32 := 0xFFFF_FFFF

  // ------------------------------------------------------- bytes in place

  function Get32(b: Bytes, off: nat): u32
    requires off + 4 <= |b|
  {
    LeOfFromLe(b[off..off + 4]);
    Pow256Values();
    FromLe(b[off..off + 4])
  }

  /** Copy `v` over the bytes at `off`. */
  function Write(b: Bytes, off: nat, v: Bytes): (r: Bytes)
    requires off + |v| <= |b|
    ensures |r| == |b|
  {
    b[..off] + v + b[off + |v|..]
  }

  function Put32(b: Bytes, off: nat, n: u32): (r: Bytes)
    requires off + 4 <= |b|
    ensures |r| == |b|
  {
    Write(b, off, U32(n))
  }

  lemma WriteKeeps(b: Bytes, off: nat, v: Bytes, x: nat, y: nat)
    requires off + |v| <= |b| && x <= y <= |b| && (y <= off || off + |v| <= x)
    ensures Write(b, off, v)[x..y] == b[x..y]
  {
  }

  lemma WriteShows(b: Bytes, off: nat, v: Bytes)
    requires off + |v| <= |b|
    ensures Write(b, off, v)[off..off + |v|] == v
  {
  }

  lemma GetPut(b: Bytes, off: nat, n: u32)
    requires off + 4 <= |b|
    ensures Get32(Put32(b, off, n), off) == n
  {
    WriteShows(b, off, U32(n));
    Pow256Values();
    FromLeOfLe(n, 4);
  }

  // -------------------------------------------------------------- fields

  function Next(b: Bytes): u32 requires |b| == PAGE_SIZE { Get32(b, 0) }
  function NumSlots(b: Bytes): u32 requires |b| == PAGE_SIZE { Get32(b, 4) }
  function FreePtr(b: Bytes): u32 requires |b| == PAGE_SIZE { Get32(b, 8) }

  function Offset(b: Bytes, i: nat): u32
    requires |b| == PAGE_SIZE && HEADER_SIZE + SLOT_SIZE * (i + 1) <= PAGE_SIZE
  {
    Get32(b, HEADER_SIZE + SLOT_SIZE * i)
  }

  function Length(b: Bytes, i: nat): u32
    requires |b| == PAGE_SIZE && HEADER_SIZE + SLOT_SIZE * (i + 1) <= PAGE_SIZE
  {
    Get32(b, HEADER_SIZE + SLOT_SIZE * i + 4)
  }

  predicate Bounds(b: Bytes) {
    |b| == PAGE_SIZE && HEADER_SIZE + SLOT_SIZE * NumSlots(b) <= FreePtr(b) <= PAGE_SIZE
  }

  predicate Live(b: Bytes, i: nat)
    requires Bounds(b)
  {
    i < NumSlots(b) && Length(b, i) != TOMBSTONE
  }

  /** A live value lies in the data region. */
  predicate Inside(b: Bytes, i: nat)
    requires Bounds(b)
  {
    Live(b, i) ==> FreePtr(b) <= Offset(b, i) && Offset(b, i) + Length(b, i) <= PAGE_SIZE
  }

  predicate Disjoint(b: Bytes, i: nat, j: nat)
    requires Bounds(b)
  {
    Live(b, i) && Live(b, j) ==>
      Offset(b, i) + Length(b, i) <= Offset(b, j) || Offset(b, j) + Length(b, j) <= Offset(b, i)
  }

  /** Live values overlap neither each other nor the slot directory. */
  predicate PageOk(b: Bytes) {
    && Bounds(b)
    && (forall i :: 0 <= i < NumSlots(b) ==> Inside(b, i))
    && (forall i, j :: 0 <= i < j < NumSlots(b) ==> Disjoint(b, i, j))
  }

  /** The subtraction the free-space test makes; it never underflows. */
  function FreeSpace(b: Bytes): nat
    requires Bounds(b)
  {
    FreePtr(b) - (HEADER_SIZE + SLOT_SIZE * NumSlots(b))
  }

  function ValueAt(b: Bytes, i: nat): Option<Bytes>
    requires PageOk(b)
  {
    if Live(b, i) then
      assert Inside(b, i);
      Some(b[Offset(b, i)..Offset(b, i) + Length(b, i)])
    else None
  }

  /** The header and slot of value `i` read the same in both pages. */
  predicate SlotSame(b: Bytes, c: Bytes, i: nat)
    requires |b| == |c| == PAGE_SIZE && HEADER_SIZE + SLOT_SIZE * (i + 1) <= PAGE_SIZE
  {
    Offset(c, i) == Offset(b, i) && Length(c, i) == Length(b, i)
  }

  lemma FieldKeeps(b: Bytes, off: nat, v: Bytes, p: nat)
    requires off + |v| <= |b| && p + 4 <= |b| && (p + 4 <= off || off + |v| <= p)
    ensures Get32(Write(b, off, v), p) == Get32(b, p)
  {
    WriteKeeps(b, off, v, p, p + 4);
  }

  // ------------------------------------------------------------- append

  function Appended(b: Bytes, v: Bytes): (r: Bytes)
    requires PageOk(b) && SLOT_SIZE + |v| <= FreeSpace(b)
  {
    var n, off := NumSlots(b), FreePtr(b) - |v|;
    var slot := HEADER_SIZE + SLOT_SIZE * n;
    Put32(Put32(Put32(Put32(Write(b, off, v), 8, off), slot, off), slot + 4, |v|), 4, n + 1)
  }

  lemma AppendedFields(b: Bytes, v: Bytes, p: nat)
    requires PageOk(b) && SLOT_SIZE + |v| <= FreeSpace(b) && p + 4 <= PAGE_SIZE
    ensures var n := NumSlots(b); var off := FreePtr(b) - |v|; var slot := HEADER_SIZE + SLOT_SIZE * n;
      var r := Appended(b, v);
      && |r| == PAGE_SIZE && NumSlots(r) == n + 1 && FreePtr(r) == off && Next(r) == Next(b)
      && Get32(r, slot) == off && Get32(r, slot + 4) == |v|
      && (HEADER_SIZE <= p && p + 4 <= slot ==> Get32(r, p) == Get32(b, p))
  {
    hide Get32, Write;
    var n, off := NumSlots(b), FreePtr(b) - |v|;
    var slot := HEADER_SIZE + SLOT_SIZE * n;
    var b1 := Write(b, off, v);
    var b2 := Put32(b1, 8, off);
    var b3 := Put32(b2, slot, off);
    var b4 := Put32(b3, slot + 4, |v|);
    GetPut(b1, 8, off);
    GetPut(b2, slot, off);
    GetPut(b3, slot + 4, |v|);
    GetPut(b4, 4, n + 1);
    FieldKeeps(b2, slot, U32(off), 8);
    FieldKeeps(b3, slot + 4, U32(|v|), 8);
    FieldKeeps(b4, 4, U32(n + 1), 8);
    FieldKeeps(b3, slot + 4, U32(|v|), slot);
    FieldKeeps(b4, 4, U32(n + 1), slot);
    FieldKeeps(b4, 4, U32(n + 1), slot + 4);
    FieldKeeps(b, off, v, 0);
    FieldKeeps(b1, 8, U32(off), 0);
    FieldKeeps(b2, slot, U32(off), 0);
    FieldKeeps(b3, slot + 4, U32(|v|), 0);
    FieldKeeps(b4, 4, U32(n + 1), 0);
    if HEADER_SIZE <= p && p + 4 <= slot {
      FieldKeeps(b, off, v, p);
      FieldKeeps(b1, 8, U32(off), p);
      FieldKeeps(b2, slot, U32(off), p);
      FieldKeeps(b3, slot + 4, U32(|v|), p);
      FieldKeeps(b4, 4, U32(n + 1), p);
    }
  }

  lemma AppendedBytes(b: Bytes, v: Bytes, x: nat, y: nat)
    requires PageOk(b) && SLOT_SIZE + |v| <= FreeSpace(b) && FreePtr(b) <= x <= y <= PAGE_SIZE
    ensures var off := FreePtr(b) - |v|; var r := Appended(b, v);
      |r| == PAGE_SIZE && r[x..y] == b[x..y] && r[off..off + |v|] == v
  {
    hide Get32, Write;
    var n, off := NumSlots(b), FreePtr(b) - |v|;
    var slot := HEADER_SIZE + SLOT_SIZE * n;
    var b1 := Write(b, off, v);
    var b2 := Put32(b1, 8, off);
    var b3 := Put32(b2, slot, off);
    var b4 := Put32(b3, slot + 4, |v|);
    WriteShows(b, off, v);
    WriteKeeps(b1, 8, U32(off), off, off + |v|);
    WriteKeeps(b2, slot, U32(off), off, off + |v|);
    WriteKeeps(b3, slot + 4, U32(|v|), off, off + |v|);
    WriteKeeps(b4, 4, U32(n + 1), off, off + |v|);
    WriteKeeps(b, off, v, x, y);
    WriteKeeps(b1, 8, U32(off), x, y);
    WriteKeeps(b2, slot, U32(off), x, y);
    WriteKeeps(b3, slot + 4, U32(|v|), x, y);
    WriteKeeps(b4, 4, U32(n + 1), x, y);
  }

  lemma AppendedSlot(b: Bytes, v: Bytes, i: nat)
    requires PageOk(b) && SLOT_SIZE + |v| <= FreeSpace(b) && i < NumSlots(b)
    ensures |Appended(b, v)| == PAGE_SIZE && SlotSame(b, Appended(b, v), i)
  {
    hide Get32, Appended;
    AppendedFields(b, v, HEADER_SIZE + SLOT_SIZE * i);
    AppendedFields(b, v, HEADER_SIZE + SLOT_SIZE * i + 4);
  }

  /** What an append leaves: one more slot, the value just below the old data, everything else as it was. */
  predicate Grown(b: Bytes, r: Bytes, v: Bytes)
    requires PageOk(b) && SLOT_SIZE + |v| <= FreeSpace(b)
  {
    var n, off := NumSlots(b), FreePtr(b) - |v|;
    && |r| == PAGE_SIZE && NumSlots(r) == n + 1 && FreePtr(r) == off && Next(r) == Next(b)
    && Offset(r, n) == off && Length(r, n) == |v| && r[off..off + |v|] == v
    && (forall i :: 0 <= i < n ==> SlotSame(b, r, i))
    && r[FreePtr(b)..] == b[FreePtr(b)..]
  }

  lemma AppendGrows(b: Bytes, v: Bytes)
    requires PageOk(b) && SLOT_SIZE + |v| <= FreeSpace(b)
    ensures Grown(b, Appended(b, v), v)
  {
    var r, n := Appended(b, v), NumSlots(b);
    AppendedFields(b, v, 0);
    AppendedBytes(b, v, FreePtr(b), PAGE_SIZE);
    SlotIs(r, n);
    hide Get32, Appended, Next, NumSlots, FreePtr, Offset, Length, PageOk;
    assert r[FreePtr(b)..] == r[FreePtr(b)..PAGE_SIZE] && b[FreePtr(b)..] == b[FreePtr(b)..PAGE_SIZE];
    forall i | 0 <= i < n
      ensures SlotSame(b, r, i)
    {
      AppendedSlot(b, v, i);
    }
  }

  lemma GrownOk(b: Bytes, r: Bytes, v: Bytes)
    requires PageOk(b) && SLOT_SIZE + |v| <= FreeSpace(b) && Grown(b, r, v)
    ensures PageOk(r)
  {
    hide Get32, Next, NumSlots, FreePtr, Offset, Length;
    var n := NumSlots(b);
    forall i | 0 <= i < NumSlots(r)
      ensures Inside(r, i)
    {
      assert i < n ==> SlotSame(b, r, i) && Inside(b, i);
    }
    forall i, j | 0 <= i < j < NumSlots(r)
      ensures Disjoint(r, i, j)
    {
      assert SlotSame(b, r, i) && Inside(b, i);
      assert j < n ==> SlotSame(b, r, j) && Disjoint(b, i, j);
    }
  }

  lemma GrownValue(b: Bytes, r: Bytes, v: Bytes, i: nat)
    requires PageOk(b) && SLOT_SIZE + |v| <= FreeSpace(b) && Grown(b, r, v) && PageOk(r) && i < NumSlots(b)
    ensures ValueAt(r, i) == ValueAt(b, i)
  {
    hide Get32, Next, NumSlots, FreePtr, Offset, Length;
    assert SlotSame(b, r, i) && Inside(b, i);
    if Live(b, i) {
      SameTail(b, r, FreePtr(b), Offset(b, i), Offset(b, i) + Length(b, i));
    }
  }

  lemma SameTail(b: Bytes, r: Bytes, from: nat, x: nat, y: nat)
    requires |b| == |r| && from <= x <= y <= |b| && r[from..] == b[from..]
    ensures r[x..y] == b[x..y]
  {
    forall k | x <= k < y
      ensures r[k] == b[k]
    {
      assert r[k] == r[from..][k - from] && b[k] == b[from..][k - from];
    }
  }

  /** Appending adds exactly one value, the new last slot, and leaves the page in order. */
  lemma AppendKeeps(b: Bytes, v: Bytes)
    requires PageOk(b) && SLOT_SIZE + |v| <= FreeSpace(b)
    ensures var r := Appended(b, v); var n := NumSlots(b);
      && PageOk(r) && NumSlots(r) == n + 1 && Next(r) == Next(b)
      && ValueAt(r, n) == Some(v) && forall i :: 0 <= i < n ==> ValueAt(r, i) == ValueAt(b, i)
  {
    var r, n := Appended(b, v), NumSlots(b);
    hide Get32, Next, NumSlots, FreePtr, Offset, Length, Appended;
    AppendGrows(b, v);
    GrownOk(b, r, v);
    forall i | 0 <= i < n
      ensures ValueAt(r, i) == ValueAt(b, i)
    {
      GrownValue(b, r, v, i);
    }
    hide PageOk;
    assert Live(r, n);
  }

  // --------------------------------------------- tombstones and overwrites

  function Deleted(b: Bytes, i: nat): (r: Bytes)
    requires Bounds(b) && i < NumSlots(b)
  {
    Put32(b, HEADER_SIZE + SLOT_SIZE * i + 4, TOMBSTONE)
  }

  function Overwritten(b: Bytes, i: nat, v: Bytes): (r: Bytes)
    requires PageOk(b) && Live(b, i) && |v| <= Length(b, i)
  {
    assert Inside(b, i);
    Put32(Write(b, Offset(b, i), v), HEADER_SIZE + SLOT_SIZE * i + 4, |v|)
  }

  /** What changing slot i alone leaves: the header, all other slots, and all bytes outside its old region. */
  predicate OnlySlot(b: Bytes, r: Bytes, i: nat)
    requires PageOk(b) && Live(b, i)
  {
    && |r| == PAGE_SIZE && NumSlots(r) == NumSlots(b) && FreePtr(r) == FreePtr(b) && Next(r) == Next(b)
    && Offset(r, i) == Offset(b, i)
    && (forall j :: 0 <= j < NumSlots(b) && j != i ==> SlotSame(b, r, j))
    && (Length(r, i) == TOMBSTONE || Length(r, i) <= Length(b, i))
    && (forall x, y :: FreePtr(b) <= x <= y <= PAGE_SIZE && (y <= Offset(b, i) || Offset(b, i) + Length(b, i) <= x)
          ==> r[x..y] == b[x..y])
  }

  lemma OnlySlotOk(b: Bytes, r: Bytes, i: nat)
    requires PageOk(b) && Live(b, i) && OnlySlot(b, r, i)
    ensures PageOk(r)
    ensures forall j :: 0 <= j < NumSlots(b) && j != i ==> ValueAt(r, j) == ValueAt(b, j)
  {
    hide Get32, Next, NumSlots, FreePtr, Offset, Length;
    assert Inside(b, i);
    forall j | 0 <= j < NumSlots(r)
      ensures Inside(r, j)
    {
      assert j != i ==> SlotSame(b, r, j) && Inside(b, j);
    }
    forall j, k | 0 <= j < k < NumSlots(r)
      ensures Disjoint(r, j, k)
    {
      assert j != i ==> SlotSame(b, r, j);
      assert k != i ==> SlotSame(b, r, k);
      assert Disjoint(b, j, k);
    }
    forall j | 0 <= j < NumSlots(b) && j != i
      ensures ValueAt(r, j) == ValueAt(b, j)
    {
      assert SlotSame(b, r, j) && Inside(b, j);
      assert if j < i then Disjoint(b, j, i) else Disjoint(b, i, j);
    }
  }

  lemma SlotWrite(b: Bytes, i: nat, n: u32, p: nat)
    requires Bounds(b) && i < NumSlots(b) && p + 4 <= PAGE_SIZE
    requires p + 4 <= HEADER_SIZE + SLOT_SIZE * i + 4 || HEADER_SIZE + SLOT_SIZE * i + 8 <= p
    ensures Get32(Put32(b, HEADER_SIZE + SLOT_SIZE * i + 4, n), p) == Get32(b, p)
  {
    hide Get32, Write;
    FieldKeeps(b, HEADER_SIZE + SLOT_SIZE * i + 4, U32(n), p);
  }

  lemma LengthWrite(b: Bytes, i: nat, n: u32)
    requires Bounds(b) && i < NumSlots(b)
    ensures var r := Put32(b, HEADER_SIZE + SLOT_SIZE * i + 4, n);
      && NumSlots(r) == NumSlots(b) && FreePtr(r) == FreePtr(b) && Next(r) == Next(b)
      && Offset(r, i) == Offset(b, i) && Length(r, i) == n
      && (forall j :: 0 <= j < NumSlots(b) && j != i ==> SlotSame(b, r, j))
      && r[FreePtr(b)..] == b[FreePtr(b)..]
  {
    var slot := HEADER_SIZE + SLOT_SIZE * i;
    var r := Put32(b, slot + 4, n);
    SlotWrite(b, i, n, 0);
    SlotWrite(b, i, n, 4);
    SlotWrite(b, i, n, 8);
    SlotWrite(b, i, n, slot);
    GetPut(b, slot + 4, n);
    forall j | 0 <= j < NumSlots(b) && j != i
      ensures SlotSame(b, r, j)
    {
      SlotWrite(b, i, n, HEADER_SIZE + SLOT_SIZE * j);
      SlotWrite(b, i, n, HEADER_SIZE + SLOT_SIZE * j + 4);
    }
    hide Get32;
    WriteKeeps(b, slot + 4, U32(n), FreePtr(b), PAGE_SIZE);
  }

  /** A tombstone removes one value and nothing else. */
  lemma DeleteKeeps(b: Bytes, i: nat)
    requires PageOk(b) && Live(b, i)
    ensures var r := Deleted(b, i);
      && PageOk(r) && NumSlots(r) == NumSlots(b) && Next(r) == Next(b) && ValueAt(r, i) == None
      && forall j :: 0 <= j < NumSlots(b) && j != i ==> ValueAt(r, j) == ValueAt(b, j)
  {
    var r := Deleted(b, i);
    LengthWrite(b, i, TOMBSTONE);
    hide Get32, Next, NumSlots, FreePtr, Offset, Length, Deleted;
    forall x, y | FreePtr(b) <= x <= y <= PAGE_SIZE
      ensures r[x..y] == b[x..y]
    {
      SameTail(b, r, FreePtr(b), x, y);
    }
    OnlySlotOk(b, r, i);
  }

  /** Bytes written in the data region disturb neither header nor slots. */
  lemma DataWrite(b: Bytes, off: nat, v: Bytes)
    requires Bounds(b) && FreePtr(b) <= off && off + |v| <= PAGE_SIZE
    ensures var r := Write(b, off, v);
      && Bounds(r) && NumSlots(r) == NumSlots(b) && FreePtr(r) == FreePtr(b) && Next(r) == Next(b)
      && (forall j :: 0 <= j < NumSlots(b) ==> SlotSame(b, r, j))
      && r[off..off + |v|] == v
  {
    var r := Write(b, off, v);
    FieldKeeps(b, off, v, 0);
    FieldKeeps(b, off, v, 4);
    FieldKeeps(b, off, v, 8);
    forall j | 0 <= j < NumSlots(b)
      ensures SlotSame(b, r, j)
    {
      FieldKeeps(b, off, v, HEADER_SIZE + SLOT_SIZE * j);
      FieldKeeps(b, off, v, HEADER_SIZE + SLOT_SIZE * j + 4);
    }
    hide Get32;
    WriteShows(b, off, v);
  }

  /** A value overwritten in place shows the new bytes; no other value changes. */
  lemma OverwriteKeeps(b: Bytes, i: nat, v: Bytes)
    requires PageOk(b) && Live(b, i) && |v| <= Length(b, i)
    ensures var r := Overwritten(b, i, v);
      && PageOk(r) && NumSlots(r) == NumSlots(b) && Next(r) == Next(b) && ValueAt(r, i) == Some(v)
      && forall j :: 0 <= j < NumSlots(b) && j != i ==> ValueAt(r, j) == ValueAt(b, j)
  {
    assert Inside(b, i);
    var off := Offset(b, i);
    var c, r := Write(b, off, v), Overwritten(b, i, v);
    DataWrite(b, off, v);
    LengthWrite(c, i, |v|);
    hide Get32, Next, NumSlots, FreePtr, Offset, Length, Overwritten;
    forall j | 0 <= j < NumSlots(b) && j != i
      ensures SlotSame(b, r, j)
    {
      assert SlotSame(b, c, j) && SlotSame(c, r, j);
    }
    assert SlotSame(b, c, i);
    forall x, y | FreePtr(b) <= x <= y <= PAGE_SIZE && (y <= off || off + Length(b, i) <= x)
      ensures r[x..y] == b[x..y]
    {
      SameTail(c, r, FreePtr(b), x, y);
      WriteKeeps(b, off, v, x, y);
    }
    OnlySlotOk(b, r, i);
    SameTail(c, r, FreePtr(b), off, off + |v|);
    hide PageOk;
    assert Live(r, i);
  }

  lemma SlotIs(b: Bytes, i: nat)
    requires |b| == PAGE_SIZE && HEADER_SIZE + SLOT_SIZE * (i + 1) <= PAGE_SIZE
    ensures Offset(b, i) == Get32(b, HEADER_SIZE + SLOT_SIZE * i)
    ensures Length(b, i) == Get32(b, HEADER_SIZE + SLOT_SIZE * i + 4)
  {
  }
}
