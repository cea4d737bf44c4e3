/** Rows, pages and columnar files by byte position: where each cell and each footer field stands. */
module ColumnarLayout {
  import opened Table
  import opened ByteFormat
  import opened ObjectCodec
  import opened ObjectLayout
  import opened RowCodec
  import opened PlainCodec
  import opened Columnar

  // --------------------------------------------------------------- cells

  function CellSize(v: Value): nat {
    match v
    case VInt32(_) => 4
    case VInt64(_) => 8
    case VFloat(_) => 4
    case VDouble(_) => 8
    case VBool(_) => 1
    case VBytes(s) => 4 + |s|
  }

  predicate Word4(b: Bytes, p: nat, v: int) {
    p + 4 <= |b| && Number(b, p, 4) == v
  }

  predicate Word8(b: Bytes, p: nat, v: int) {
    p + 8 <= |b| && Number(b, p, 8) == v
  }

  /** Two's complement integers and IEEE bit patterns, least significant byte first; a flag byte; a text. */
  predicate CellLaid(b: Bytes, p: nat, v: Value) {
    match v
    case VInt32(i) => Word4(b, p, if i < 0 then i + 0x1_0000_0000 else i)
    case VInt64(i) => Word8(b, p, if i < 0 then i + 0x1_0000_0000_0000_0000 else i)
    case VFloat(bits) => Word4(b, p, bits)
    case VDouble(bits) => Word8(b, p, bits)
    case VBool(flag) => p < |b| && b[p] == if flag then 1 else 0
    case VBytes(s) => Text(b, p, s)
  }

  lemma CellIs(b: Bytes, p: nat, t: Type, v: Value)
    requires CellOk(t, v)
    ensures |CellBytes(v, t)| == CellSize(v)
    ensures At(b, p, CellBytes(v, t)) <==> CellLaid(b, p, v)
  {
    hide U32, U64, Str, At, Number, Text;
    match t
    case Int32 => Num32(b, p, Wrap(v.int32, TWO_32));
    case Int64 => Num64(b, p, Wrap(v.int64, TWO_64));
    case Float => Num32(b, p, v.floatBits);
    case Double => Num64(b, p, v.doubleBits);
    case Bool => ReadU8(b, p, if v.flag then 1 else 0);
    case String => TextIs(b, p, v.bytes);
    case Blob => TextIs(b, p, v.bytes);
  }

  /** Each cell stands where the ones before it end. */
  predicate CellsLaid(b: Bytes, p: nat, cells: seq<Value>) {
    forall i :: 0 <= i < |cells| ==> CellLaid(b, p + Before(CellSize, cells, i), cells[i])
  }

  lemma SizesInit(cells: seq<Value>)
    requires cells != []
    ensures var n := |cells| - 1;
      && Before(CellSize, cells, |cells|) == Before(CellSize, cells[..n], n) + CellSize(cells[n])
      && forall i :: 0 <= i <= n ==> Before(CellSize, cells[..n], i) == Before(CellSize, cells, i)
  {
    var n := |cells| - 1;
    BeforeStep(CellSize, cells, n);
    hide Before, CellSize;
    forall i | 0 <= i <= n
      ensures Before(CellSize, cells[..n], i) == Before(CellSize, cells, i)
    {
      BeforeInit(CellSize, cells, n, i);
    }
  }

  lemma CellsInit(b: Bytes, p: nat, cells: seq<Value>)
    requires cells != []
    ensures var n := |cells| - 1;
      CellsLaid(b, p, cells) <==>
        CellsLaid(b, p, cells[..n]) && CellLaid(b, p + Before(CellSize, cells[..n], n), cells[n])
  {
    hide CellLaid, CellSize, Before;
    var n := |cells| - 1;
    var init := cells[..n];
    SizesInit(cells);
    if CellsLaid(b, p, cells) {
      forall i | 0 <= i < n
        ensures CellLaid(b, p + Before(CellSize, init, i), init[i])
      {
        assert CellLaid(b, p + Before(CellSize, cells, i), cells[i]);
      }
    }
    if CellsLaid(b, p, init) && CellLaid(b, p + Before(CellSize, init, n), cells[n]) {
      forall i | 0 <= i < |cells|
        ensures CellLaid(b, p + Before(CellSize, cells, i), cells[i])
      {
        if i < n {
          assert CellLaid(b, p + Before(CellSize, init, i), init[i]);
        }
      }
    }
  }

  lemma OkIsTyped(t: Type, v: Value)
    requires CellOk(t, v)
    ensures HasType(v, t)
  {
  }

  /** A packed row: the cells one after the other, nothing between them. */
  lemma {:induction false} RowLayout(schema: Schema, row: Row, b: Bytes, p: nat)
    requires RowTyped(schema, row) && p <= |b| && forall i :: 0 <= i < |row| ==> CellOk(schema[i].ty, row[i])
    ensures |RowBytes(schema, row)| == Before(CellSize, row, |row|)
    ensures At(b, p, RowBytes(schema, row)) <==> CellsLaid(b, p, row)
  {
    hide At, CellBytes, CellLaid, CellOk, HasType, Before, CellsLaid;
    if row == [] {
      NoCells(b, p);
    } else {
      var n := |row| - 1;
      assert RowTyped(schema[..n], row[..n]);
      RowLayout(schema[..n], row[..n], b, p);
      SizesInit(row);
      CellsInit(b, p, row);
      var init := RowBytes(schema[..n], row[..n]);
      AtSplit(b, p, init, CellBytes(row[n], schema[n].ty));
      CellIs(b, p + |init|, schema[n].ty, row[n]);
    }
  }

  lemma NoCells(b: Bytes, p: nat)
    requires p <= |b|
    ensures Before(CellSize, [], 0) == 0 && CellsLaid(b, p, []) && At(b, p, [])
  {
  }

  /** A page of a column: the same, for cells of one type. */
  lemma {:induction false} PageLayout(t: Type, cells: seq<Value>, b: Bytes, p: nat)
    requires p <= |b| && forall i :: 0 <= i < |cells| ==> CellOk(t, cells[i])
    ensures |PageBytes(t, cells)| == Before(CellSize, cells, |cells|)
    ensures At(b, p, PageBytes(t, cells)) <==> CellsLaid(b, p, cells)
  {
    hide At, CellBytes, CellLaid, CellOk, Before, CellsLaid;
    if cells == [] {
      NoCells(b, p);
    } else {
      var n := |cells| - 1;
      PageLayout(t, cells[..n], b, p);
      SizesInit(cells);
      CellsInit(b, p, cells);
      PageSnoc(t, cells);
      OkIsTyped(t, cells[n]);
      AtSplit(b, p, PageBytes(t, cells[..n]), CellBytes(cells[n], t));
      CellIs(b, p + |PageBytes(t, cells[..n])|, t, cells[n]);
    }
  }

  lemma PageSnoc(t: Type, cells: seq<Value>)
    requires cells != [] && CellOk(t, cells[|cells| - 1])
    ensures PageBytes(t, cells) == PageBytes(t, cells[..|cells| - 1]) + CellBytes(cells[|cells| - 1], t)
  {
    hide CellBytes;
  }

  // -------------------------------------------------------------- footer

  /** One column's entry: encoding, compression, then position, stored size, raw size and cell count. */
  predicate MetaLaid(b: Bytes, p: nat, m: Meta) {
    && p + 34 <= |b| && b[p] == m.encoding && b[p + 1] == m.compression
    && Num(b, p + 2, 8, m.offset) && Num(b, p + 10, 8, m.storedSize)
    && Num(b, p + 18, 8, m.rawSize) && Num(b, p + 26, 8, m.valueCount)
  }

  lemma ReadsNumber(b: Bytes, p: nat)
    ensures ParseU64(b, p).Got? <==> p + 8 <= |b|
    ensures ParseU64(b, p).Got? ==> ParseU64(b, p).next == p + 8 && Number(b, p, 8) == ParseU64(b, p).value
  {
    if p + 8 <= |b| {
      NumberIs(b, p, 8);
    }
  }

  lemma MetaIs(b: Bytes, p: nat)
    ensures ParseMeta(b, p).Got? <==> p + 34 <= |b|
    ensures ParseMeta(b, p).Got? ==> ParseMeta(b, p).next == p + 34
    ensures ParseMeta(b, p).Got? ==> forall m :: m == ParseMeta(b, p).value <==> MetaLaid(b, p, m)
  {
    hide ParseU64, Number;
    ReadsNumber(b, p + 2);
    ReadsNumber(b, p + 10);
    ReadsNumber(b, p + 18);
    ReadsNumber(b, p + 26);
  }

  predicate MetasLaid(b: Bytes, p: nat, ms: seq<Meta>) {
    forall k :: 0 <= k < |ms| ==> MetaLaid(b, p + 34 * k, ms[k])
  }

  lemma {:induction false} MetasIs(b: Bytes, p: nat, n: nat)
    requires p <= |b|
    ensures var r := ParseList(ParseMeta, b, p, n);
      && (r.Got? <==> p + 34 * n <= |b|)
      && (r.Got? ==> r.next == p + 34 * n && |r.value| == n && MetasLaid(b, p, r.value))
  {
    hide ParseMeta, MetaLaid;
    if n != 0 {
      MetasIs(b, p, n - 1);
      MetaIs(b, p + 34 * (n - 1));
    }
  }

  /** Where a footer of `size` bytes stands, and what it says. */
  predicate FooterLaid(b: Bytes, size: nat, o: Opened) {
    && size + 12 <= |b| && 16 <= |b| && Tag(b, |b| - 4, "DBC1") && Num(b, |b| - 12, 8, size)
    && 16 + 34 * |o.metas| <= size
    && Num(b, |b| - 12 - size, 8, o.rows) && Num(b, |b| - 4 - size, 8, |o.metas|)
    && MetasLaid(b, |b| + 4 - size, o.metas)
  }

  lemma {:induction false} NumberSlice(b: Bytes, from: nat, to: nat, p: nat, n: nat)
    requires from <= to <= |b| && p + n <= to - from
    ensures Number(b[from..to], p, n) == Number(b, from + p, n)
  {
    if n != 0 {
      NumberSlice(b, from, to, p, n - 1);
    }
  }

  lemma NumSlice(b: Bytes, from: nat, to: nat, p: nat, v: nat)
    requires from <= to <= |b| && p + 8 <= to - from
    ensures Num(b[from..to], p, 8, v) <==> Num(b, from + p, 8, v)
  {
    NumberSlice(b, from, to, p, 8);
    hide Number;
  }

  lemma MetaSlice(b: Bytes, from: nat, to: nat, p: nat, m: Meta)
    requires from <= to <= |b| && p + 34 <= to - from
    ensures MetaLaid(b[from..to], p, m) <==> MetaLaid(b, from + p, m)
  {
    hide Num;
    NumSlice(b, from, to, p + 2, m.offset);
    NumSlice(b, from, to, p + 10, m.storedSize);
    NumSlice(b, from, to, p + 18, m.rawSize);
    NumSlice(b, from, to, p + 26, m.valueCount);
  }

  lemma MetasSlice(b: Bytes, from: nat, to: nat, p: nat, ms: seq<Meta>)
    requires from <= to <= |b| && p + 34 * |ms| <= to - from
    ensures MetasLaid(b[from..to], p, ms) <==> MetasLaid(b, from + p, ms)
  {
    hide MetaLaid;
    forall k | 0 <= k < |ms|
      ensures MetaLaid(b[from..to], p + 34 * k, ms[k]) <==> MetaLaid(b, from + (p + 34 * k), ms[k])
    {
      MetaSlice(b, from, to, p + 34 * k, ms[k]);
    }
    forall k | 0 <= k < |ms|
      ensures from + (p + 34 * k) == from + p + 34 * k
    {
    }
  }

  /** Two lists of entries laid out in the same place are one. */
  lemma MetasOne(b: Bytes, p: nat, x: seq<Meta>, y: seq<Meta>)
    requires |x| == |y| && MetasLaid(b, p, x) && MetasLaid(b, p, y)
    ensures x == y
  {
    hide ParseMeta, MetaLaid;
    forall k | 0 <= k < |x|
      ensures x[k] == y[k]
    {
      assert MetaLaid(b, p + 34 * k, x[k]) && MetaLaid(b, p + 34 * k, y[k]);
      MetaOne(b, p + 34 * k, x[k], y[k]);
    }
  }

  lemma MetaOne(b: Bytes, p: nat, x: Meta, y: Meta)
    requires MetaLaid(b, p, x) && MetaLaid(b, p, y)
    ensures x == y
  {
    hide Number;
  }

  /** What the reader makes of the bytes of a footer. */
  function Read(f: Bytes): Option<Opened> {
    match ParseU64(f, 0)
    case Fail => None
    case Got(rows, p) =>
      match ParseU64(f, p)
      case Fail => None
      case Got(n, q) =>
        match ParseList(ParseMeta, f, q, n)
        case Fail => None
        case Got(ms, _) => Some(Opened(rows, ms))
  }

  predicate BodyLaid(f: Bytes, o: Opened) {
    16 + 34 * |o.metas| <= |f| && Num(f, 0, 8, o.rows) && Num(f, 8, 8, |o.metas|) && MetasLaid(f, 16, o.metas)
  }

  lemma ReadIs(f: Bytes, o: Opened)
    ensures Read(f) == Some(o) <==> BodyLaid(f, o)
  {
    hide ParseU64, ParseMeta, ParseList, Number, MetasLaid;
    ReadsNumber(f, 0);
    ReadsNumber(f, 8);
    if |f| >= 16 {
      var n := ParseU64(f, 8).value;
      MetasIs(f, 16, n);
      if |o.metas| == n && 16 + 34 * n <= |f| && MetasLaid(f, 16, o.metas) {
        MetasOne(f, 16, o.metas, ParseList(ParseMeta, f, 16, n).value);
      }
    }
  }

  lemma BodySlice(b: Bytes, from: nat, to: nat, o: Opened)
    requires from <= to <= |b|
    ensures BodyLaid(b[from..to], o) <==>
      && 16 + 34 * |o.metas| <= to - from && Num(b, from, 8, o.rows) && Num(b, from + 8, 8, |o.metas|)
      && MetasLaid(b, from + 16, o.metas)
  {
    hide Num, MetasLaid;
    if 16 + 34 * |o.metas| <= to - from {
      NumSlice(b, from, to, 0, o.rows);
      NumSlice(b, from, to, 8, |o.metas|);
      MetasSlice(b, from, to, 16, o.metas);
    }
  }

  lemma TailIs(b: Bytes)
    requires |b| >= 16
    ensures b[|b| - 4..] == Magic("DBC1") <==> Tag(b, |b| - 4, "DBC1")
  {
    MagicSize("DBC1");
    TagIs(b, |b| - 4, "DBC1");
    hide Magic, Tag;
    assert b[|b| - 4..] == b[|b| - 4..|b|];
  }

  /**
   A columnar file opens to a row count and column entries exactly when they stand at its end: the trailing letters,
   the footer's size before them, and the footer right before that.
  */
  lemma OpenLayout(b: Bytes, o: Opened)
    ensures ParseFooter(b) == Some(o) <==> |b| >= 16 && FooterLaid(b, Number(b, |b| - 12, 8), o)
  {
    hide Magic, Tag, ParseList, ParseU64, Number, MetasLaid;
    if |b| >= 16 {
      var size := Number(b, |b| - 12, 8);
      TailIs(b);
      ReadsNumber(b, |b| - 12);
      if size + 12 <= |b| {
        var f := b[|b| - 12 - size..|b| - 12];
        assert Tag(b, |b| - 4, "DBC1") ==> ParseFooter(b) == Read(f);
        ReadIs(f, o);
        BodySlice(b, |b| - 12 - size, |b| - 12, o);
      }
    }
  }

  /** A written file also begins with the letters, and an uncompressed column's cells stand where its entry points. */
  lemma WrittenLayout(cols: seq<Column>, k: nat)
    requires |ColumnarBytes(Uncompressed, cols)| < 0x1_0000_0000_0000_0000 && RowCount(cols) < 0x1_0000_0000_0000_0000
    requires k < |cols| && ColumnStored(cols[k])
    ensures var b := ColumnarBytes(Uncompressed, cols);
      && Tag(b, 0, "DBC1") && ParseFooter(b).Some? && ParseFooter(b).value.rows == RowCount(cols)
      && |ParseFooter(b).value.metas| == |cols|
      && var m := ParseFooter(b).value.metas[k];
         && m.encoding == 1 && m.compression == 1 && m.valueCount == |cols[k].cells|
         && m.storedSize == m.rawSize == Before(CellSize, cols[k].cells, |cols[k].cells|)
         && CellsLaid(b, m.offset, cols[k].cells)
  {
    hide ColumnarBytes, Metas, ParseFooter, Word, At, PageBytes, CellOk, CellsLaid, Before, Magic, Tag, RowCount;
    var b, c := ColumnarBytes(Uncompressed, cols), cols[k];
    OpenBack(Uncompressed, cols);
    PageAt(Uncompressed, cols, k);
    StoredCells(c);
    WordIs(|c.cells|);
    WordIs(|PageBytes(c.ty, c.cells)|);
    MetaAt(Uncompressed, cols, k);
    StartsWith(cols);
    AtBound(b, Metas(Uncompressed, cols)[k].offset, PageBytes(c.ty, c.cells));
    PageLayout(c.ty, c.cells, b, Metas(Uncompressed, cols)[k].offset);
  }

  lemma StartsWith(cols: seq<Column>)
    ensures Tag(ColumnarBytes(Uncompressed, cols), 0, "DBC1")
  {
    hide At, Footer, PagesOf, Metas, RowCount, Tag, Magic, U64, Word;
    var b, magic := ColumnarBytes(Uncompressed, cols), Magic("DBC1");
    WholeAt(b);
    AtSplit(b, 0, magic, b[|magic|..]);
    assert b == magic + b[|magic|..];
    TagIs(b, 0, "DBC1");
  }
}
