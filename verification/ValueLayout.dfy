/** A page of values by byte position: the header's three numbers, eight bytes a slot, values where the slots say. */
module ValueLayout {
  import opened Table
  import opened ByteFormat
  import opened ObjectLayout
  import V = ValuePage

  /** Value `i` of the page is `v`: it has a slot that is not a tombstone, and the slot's bytes are `v`. */
  predicate ValueLaid(b: Bytes, i: nat, v: Bytes) {
    && |b| == 16384 && i < Number(b, 4, 4) && 12 + 8 * (i + 1) <= |b|
    && Number(b, 16 + 8 * i, 4) == |v| != 0xFFFF_FFFF
    && var off := Number(b, 12 + 8 * i, 4);
       off + |v| <= |b| && b[off..off + |v|] == v
  }

  lemma GetIs(b: Bytes, p: nat)
    requires p + 4 <= |b|
    ensures V.Get32(b, p) == Number(b, p, 4)
  {
    NumberIs(b, p, 4);
  }

  lemma SlotFits(b: Bytes, i: nat)
    requires V.PageOk(b) && i < V.NumSlots(b)
    ensures 12 + 8 * (i + 1) <= |b| && V.Inside(b, i)
  {
    hide V.Get32;
  }

  /** A page in order shows a value in a slot exactly when it is laid out so. */
  lemma ValueAtLayout(b: Bytes, i: nat, v: Bytes)
    requires V.PageOk(b)
    ensures V.ValueAt(b, i) == Some(v) <==> ValueLaid(b, i, v)
  {
    GetIs(b, 4);
    if i < V.NumSlots(b) {
      SlotFits(b, i);
      GetIs(b, 12 + 8 * i);
      GetIs(b, 16 + 8 * i);
    }
    hide V.Get32, Number;
  }

  /** The link to the next page, the number of slots and the start of the values are the first three numbers. */
  lemma HeaderLayout(b: Bytes)
    requires |b| == 16384
    ensures V.Next(b) == Number(b, 0, 4) && V.NumSlots(b) == Number(b, 4, 4) && V.FreePtr(b) == Number(b, 8, 4)
  {
    GetIs(b, 0);
    GetIs(b, 4);
    GetIs(b, 8);
  }
}
