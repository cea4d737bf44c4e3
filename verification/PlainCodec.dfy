/** The plain column encoding: cell after cell; fixed-width cells can be read at a computed offset. */
module PlainCodec {
  import opened Table
  import opened ByteFormat
  import opened RowCodec

  function Width(t: Type): nat {
    match t
    case Int32 => 4
    case Int64 => 8
    case Float => 4
    case Double => 8
    case Bool => 1
    case _ => 0
  }

  /** A cell of the column's type; anything else writes nothing and is refused beforehand. */
  function Cell(t: Type): Value -> Bytes {
    (v: Value) => if HasType(v, t) then CellBytes(v, t) else []
  }

  function ParseAt(t: Type): (Bytes, nat) -> Parsed<Value> {
    (b: Bytes, p: nat) => ParseCell(b, p, t)
  }

  /** Strings fit the column's 32-bit offsets. */
  predicate CellOk(t: Type, v: Value) {
    HasType(v, t) && (v.VBytes? ==> |v.bytes| <= MAX_U32)
  }

  function CellFits(t: Type): Value -> bool {
    (v: Value) => CellOk(t, v)
  }

  function PageBytes(t: Type, cells: seq<Value>): Bytes {
    EncList(Cell(t), cells)
  }

  function DecodePage(t: Type, b: Bytes, n: nat): Option<seq<Value>> {
    ParseList(ParseAt(t), b, 0, n).Value()
  }

  lemma CellsReadBack(t: Type)
    ensures ReadsBack(Cell(t), ParseAt(t), CellFits(t))
  {
    hide At, ParseCell;
    forall v: Value, b: Bytes, p: nat | CellFits(t)(v) && At(b, p, Cell(t)(v))
      ensures ParseAt(t)(b, p) == Got(v, p + |Cell(t)(v)|)
    {
      CellBack(b, p, v, t);
    }
  }

  /** A page decodes to the cells it was made from. */
  lemma PageBack(t: Type, cells: seq<Value>)
    requires forall i :: 0 <= i < |cells| ==> CellOk(t, cells[i])
    ensures DecodePage(t, PageBytes(t, cells), |cells|) == Some(cells)
  {
    hide At, EncList, ParseList, ReadsBack, ParseCell, CellBytes;
    CellsReadBack(t);
    var b := PageBytes(t, cells);
    assert At(b, 0, b) by { WholeAt(b); }
    assert forall i :: 0 <= i < |cells| ==> CellFits(t)(cells[i]);
    ListBack(Cell(t), ParseAt(t), CellFits(t), b, 0, cells);
  }

  lemma WholeAt(b: Bytes)
    ensures At(b, 0, b)
  {
    assert b[0..|b|] == b;
  }

  lemma CellWidth(t: Type, v: Value)
    requires HasType(v, t) && Width(t) > 0
    ensures |Cell(t)(v)| == Width(t)
  {
  }

  lemma {:induction false} PageWidth(t: Type, cells: seq<Value>)
    requires Width(t) > 0 && forall i :: 0 <= i < |cells| ==> HasType(cells[i], t)
    ensures |PageBytes(t, cells)| == Off(t, |cells|)
  {
    if cells != [] {
      var n := |cells| - 1;
      PageWidth(t, cells[..n]);
      CellWidth(t, cells[n]);
      OffAdds(t, n, 1);
    }
  }

  // --------------------------------------------------- the direct offset

  /** A fixed-width cell is read from its own bytes alone. */
  lemma CellShift(t: Type, b: Bytes, p: nat, c: Bytes, q: nat)
    requires Width(t) > 0 && p + Width(t) <= |b| && q + Width(t) <= |c|
    requires b[p..p + Width(t)] == c[q..q + Width(t)]
    ensures ParseCell(b, p, t).Got? && ParseCell(c, q, t).Got? && ParseCell(b, p, t).value == ParseCell(c, q, t).value
    ensures ParseCell(b, p, t).next == p + Width(t)
  {
    if t == Bool {
      assert b[p..p + 1][0] == c[q..q + 1][0];
    }
  }

  lemma CellShort(t: Type, b: Bytes, p: nat)
    requires Width(t) > 0 && p + Width(t) > |b|
    ensures ParseCell(b, p, t).Fail?
  {
  }

  /** Where the i-th fixed-width cell starts. */
  function Off(t: Type, i: nat): nat {
    i * Width(t)
  }

  lemma OffAdds(t: Type, i: nat, j: nat)
    ensures Off(t, i + j) == Off(t, i) + Off(t, j) && Off(t, 0) == 0 && Off(t, 1) == Width(t)
  {
  }

  /** Fixed-width lists: where reading ends, and that it fails exactly when the bytes run out. */
  lemma {:induction false} FixedList(t: Type, b: Bytes, p: nat, n: nat)
    requires Width(t) > 0 && p <= |b|
    ensures ParseList(ParseAt(t), b, p, n).Got? <==> p + Off(t, n) <= |b|
    ensures ParseList(ParseAt(t), b, p, n).Got? ==>
      |ParseList(ParseAt(t), b, p, n).value| == n && ParseList(ParseAt(t), b, p, n).next == p + Off(t, n)
  {
    OffAdds(t, 0, 0);
    if n != 0 {
      hide ParseCell, Off, Width;
      FixedList(t, b, p, n - 1);
      OffAdds(t, n - 1, 1);
      var at := p + Off(t, n - 1);
      if at + Width(t) <= |b| {
        CellShift(t, b, at, b, at);
      } else if at <= |b| {
        CellShort(t, b, at);
      }
    }
  }

  lemma {:induction false} FixedListAt(t: Type, b: Bytes, p: nat, n: nat, i: nat)
    requires Width(t) > 0 && p + Off(t, n) <= |b| && i < n
    ensures p + Off(t, i) + Width(t) <= |b|
    ensures ParseList(ParseAt(t), b, p, n).Got? && |ParseList(ParseAt(t), b, p, n).value| == n
    ensures ParseCell(b, p + Off(t, i), t).Got?
    ensures ParseList(ParseAt(t), b, p, n).value[i] == ParseCell(b, p + Off(t, i), t).value
  {
    hide ParseCell, Off, Width;
    OffAdds(t, n - 1, 1);
    FixedList(t, b, p, n);
    FixedList(t, b, p, n - 1);
    if i < n - 1 {
      FixedListAt(t, b, p, n - 1, i);
    } else {
      CellShift(t, b, p + Off(t, i), b, p + Off(t, i));
    }
  }

  lemma DirectCell(t: Type, b: Bytes, n: nat, first: nat, count: nat, i: nat)
    requires Width(t) > 0 && Off(t, n) <= |b| && first + count <= n && i < count
    requires Off(t, first) <= Off(t, first + count) <= |b|
    ensures var c := b[Off(t, first)..Off(t, first + count)];
      && DecodePage(t, b, n).Some? && |DecodePage(t, b, n).value| == n
      && DecodePage(t, c, count).Some? && |DecodePage(t, c, count).value| == count
      && DecodePage(t, c, count).value[i] == DecodePage(t, b, n).value[first + i]
  {
    hide ParseCell, Width, Off, ParseList;
    var w, from, at := Width(t), Off(t, first), Off(t, i);
    var c := b[from..Off(t, first + count)];
    OffAdds(t, first, count);
    OffAdds(t, first, i);
    FixedListAt(t, b, 0, n, first + i);
    FixedListAt(t, c, 0, count, i);
    SubSlice(b, from, Off(t, first + count), at, at + w);
    CellShift(t, b, from + at, c, at);
  }

  lemma SubSlice(b: Bytes, from: nat, to: nat, x: nat, y: nat)
    requires from <= to <= |b| && x <= y <= to - from
    ensures b[from..to][x..y] == b[from + x..from + y]
  {
    var c, d := b[from..to][x..y], b[from + x..from + y];
    forall k | 0 <= k < y - x
      ensures c[k] == d[k]
    {
      assert c[k] == b[from..to][x + k] == b[from + x + k];
    }
  }

  /** Reading only the wanted bytes of a fixed-width page gives the same slice as decoding all of it. */
  lemma DirectEqualsWhole(t: Type, b: Bytes, n: nat, first: nat, count: nat)
    requires Width(t) > 0 && Off(t, n) <= |b| && first + count <= n
    ensures Off(t, first) <= Off(t, first + count) <= |b|
    ensures DecodePage(t, b, n).Some? && |DecodePage(t, b, n).value| == n
    ensures DecodePage(t, b[Off(t, first)..Off(t, first + count)], count)
      == Some(DecodePage(t, b, n).value[first..first + count])
  {
    hide Width, Off, ParseList;
    OffAdds(t, first, count);
    OffAdds(t, first + count, n - first - count);
    var c := b[Off(t, first)..Off(t, first + count)];
    FixedList(t, b, 0, n);
    FixedList(t, c, 0, count);
    var whole, part := DecodePage(t, b, n).value, DecodePage(t, c, count).value;
    hide DecodePage;
    forall i | 0 <= i < count
      ensures part[i] == whole[first + i]
    {
      DirectCell(t, b, n, first, count, i);
    }
    assert part == whole[first..first + count];
  }

  // ---------------------------------------------------------- as it runs

  method EncodeColumn(c: Column) returns (out: Bytes)
    requires c.ty != Invalid && ColumnOk(c)
    ensures out == PageBytes(c.ty, c.cells)
  {
    hide CellBytes;
    out := [];
    var i := 0;
    while i < |c.cells|
      invariant i <= |c.cells| && out == PageBytes(c.ty, c.cells[..i])
    {
      assert c.cells[..i + 1][..i] == c.cells[..i];
      out := out + CellBytes(c.cells[i], c.ty);
      i := i + 1;
    }
    assert c.cells[..|c.cells|] == c.cells;
  }

  method DecodeColumn(t: Type, b: Bytes, n: nat) returns (r: Option<seq<Value>>)
    ensures r == DecodePage(t, b, n)
  {
    hide ParseCell;
    var cells, p, i := [], 0, 0;
    while i < n
      invariant i <= n && ParseList(ParseAt(t), b, 0, i) == Got(cells, p)
    {
      ListFails(ParseAt(t), b, 0, i + 1, n);
      var cell := ParseCell(b, p, t);
      if cell.Fail? {
        return None;
      }
      cells, p, i := cells + [cell.value], cell.next, i + 1;
    }
    return Some(cells);
  }
}
