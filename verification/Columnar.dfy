/** The native columnar file: pages, footer, and the two ways of reading rows of a page. */
module Columnar {
  import opened Table
  import opened ByteFormat
  import opened ObjectCodec
  import opened RowCodec
  import opened PlainCodec

  /** How stored pages are made from encoded ones; zlib is foreign code that undoes itself. */
  datatype Scheme = Uncompressed | Zlib(pack: Bytes -> Bytes, unpack: (Bytes, nat) -> Bytes)

  ghost predicate SchemeOk(s: Scheme) {
    s.Zlib? ==> forall b: Bytes :: s.unpack(s.pack(b), |b|) == b
  }

  const PLAIN: u8 := 1

  function Id(s: Scheme): u8 {
    if s.Uncompressed? then 1 else 2
  }

  function Pack(s: Scheme, b: Bytes): Bytes {
    if s.Uncompressed? then b else s.pack(b)
  }

  function Unpack(s: Scheme, b: Bytes, n: nat): Bytes {
    if s.Uncompressed? then b else s.unpack(b, n)
  }

  /** Where a column's page lies and how to read it. */
  datatype Meta = Meta(encoding: u8, compression: u8, offset: u64, storedSize: u64, rawSize: u64, valueCount: u64)

  function Positions(m: Meta): (b: Bytes)
    ensures |b| == 32
  {
    U64(m.offset) + (U64(m.storedSize) + (U64(m.rawSize) + U64(m.valueCount)))
  }

  function MetaBytes(m: Meta): (b: Bytes)
    ensures |b| == 34
  {
    [m.encoding, m.compression] + Positions(m)
  }

  function ParseMeta(b: Bytes, p: nat): Parsed<Meta> {
    var (encoding, p0) :- ParseU8(b, p);
    var (compression, p1) :- ParseU8(b, p0);
    var (offset, p2) :- ParseU64(b, p1);
    var (stored, p3) :- ParseU64(b, p2);
    var (raw, p4) :- ParseU64(b, p3);
    var (count, p5) :- ParseU64(b, p4);
    Got(Meta(encoding, compression, offset, stored, raw, count), p5)
  }

  // -------------------------------------------------------------- writing

  function Page(s: Scheme, c: Column): Bytes {
    Pack(s, PageBytes(c.ty, c.cells))
  }

  function PageOf(s: Scheme): Column -> Bytes {
    (c: Column) => Page(s, c)
  }

  function PagesOf(s: Scheme, cols: seq<Column>): Bytes {
    EncList(PageOf(s), cols)
  }

  /** Sizes and positions are 64-bit numbers. */
  function Word(n: nat): u64 {
    n % 0x1_0000_0000_0000_0000
  }

  function MetaOf(s: Scheme, offset: nat, c: Column): Meta {
    Meta(PLAIN, Id(s), Word(offset), Word(|Page(s, c)|), Word(|PageBytes(c.ty, c.cells)|), Word(|c.cells|))
  }

  /** Pages follow the magic, one after the other. */
  function Metas(s: Scheme, cols: seq<Column>): (ms: seq<Meta>)
    ensures |ms| == |cols|
  {
    if cols == [] then []
    else
      var init := cols[..|cols| - 1];
      Metas(s, init) + [MetaOf(s, 4 + |PagesOf(s, init)|, cols[|cols| - 1])]
  }

  function RowCount(cols: seq<Column>): nat {
    if cols == [] then 0 else |cols[0].cells|
  }

  function Footer(rows: nat, ms: seq<Meta>): Bytes {
    U64(Word(rows)) + (U64(Word(|ms|)) + EncList(MetaBytes, ms))
  }

  function ColumnarBytes(s: Scheme, cols: seq<Column>): Bytes {
    var footer := Footer(RowCount(cols), Metas(s, cols));
    Magic("DBC1") + (PagesOf(s, cols) + (footer + (U64(Word(|footer|)) + Magic("DBC1"))))
  }

  // -------------------------------------------------------------- reading

  datatype Opened = Opened(rows: u64, metas: seq<Meta>)

  function ParseFooter(b: Bytes): Option<Opened> {
    if |b| < 16 || b[|b| - 4..] != Magic("DBC1") then None
    else
      var size := ParseU64(b, |b| - 12);
      if size.Fail? || size.value > |b| - 12 then None
      else
        var footer := b[|b| - 12 - size.value..|b| - 12];
        match ParseU64(footer, 0)
        case Fail => None
        case Got(rows, p) =>
          match ParseU64(footer, p)
          case Fail => None
          case Got(n, q) =>
            match ParseList(ParseMeta, footer, q, n)
            case Fail => None
            case Got(ms, _) => Some(Opened(rows, ms))
  }

  /** Rows [first, first + count) of one page: direct when cells have a width and the page is not compressed. */
  function ReadRows(s: Scheme, b: Bytes, m: Meta, t: Type, first: nat, count: nat): Option<seq<Value>> {
    if Width(t) > 0 && m.compression == 1 then ReadDirect(b, m, t, first, count)
      else ReadWhole(s, b, m, t, first, count)
  }

  function ReadDirect(b: Bytes, m: Meta, t: Type, first: nat, count: nat): Option<seq<Value>> {
    var from := m.offset + Off(t, first);
    if from + Off(t, count) <= |b| then DecodePage(t, b[from..from + Off(t, count)], count) else None
  }

  function ReadWhole(s: Scheme, b: Bytes, m: Meta, t: Type, first: nat, count: nat): Option<seq<Value>> {
    if m.offset + m.storedSize <= |b| then
      match DecodePage(t, Unpack(s, b[m.offset..m.offset + m.storedSize], m.rawSize), m.valueCount)
      case None => None
      case Some(cells) => if first + count <= |cells| then Some(cells[first..first + count]) else None
    else None
  }

  // ----------------------------------------------------------- round trip

  lemma ReadPositions(b: Bytes, p: nat, m: Meta)
    ensures At(b, p, Positions(m)) <==>
      && ParseU64(b, p) == Got(m.offset, p + 8) && ParseU64(b, p + 8) == Got(m.storedSize, p + 16)
      && ParseU64(b, p + 16) == Got(m.rawSize, p + 24) && ParseU64(b, p + 24) == Got(m.valueCount, p + 32)
  {
    hide U64, ParseU64, At;
    var c := U64(m.rawSize) + U64(m.valueCount);
    AtSplit(b, p, U64(m.offset), U64(m.storedSize) + c);
    AtSplit(b, p + 8, U64(m.storedSize), c);
    AtSplit(b, p + 16, U64(m.rawSize), U64(m.valueCount));
    ReadU64(b, p, m.offset);
    ReadU64(b, p + 8, m.storedSize);
    ReadU64(b, p + 16, m.rawSize);
    ReadU64(b, p + 24, m.valueCount);
  }

  lemma MetaBack(b: Bytes, p: nat, m: Meta)
    requires At(b, p, MetaBytes(m))
    ensures ParseMeta(b, p) == Got(m, p + 34)
  {
    AtSplit(b, p, [m.encoding, m.compression], Positions(m));
    AtSplit(b, p, [m.encoding], [m.compression]);
    assert [m.encoding] + [m.compression] == [m.encoding, m.compression];
    ReadU8(b, p, m.encoding);
    ReadU8(b, p + 1, m.compression);
    ReadPositions(b, p + 2, m);
    hide U64, ParseU64, At, Positions;
  }

  predicate AnyMeta(m: Meta) {
    true
  }

  lemma MetasReadBack()
    ensures ReadsBack(MetaBytes, ParseMeta, AnyMeta)
  {
    hide ParseMeta, At;
    forall m: Meta, b: Bytes, p: nat | At(b, p, MetaBytes(m))
      ensures ParseMeta(b, p) == Got(m, p + |MetaBytes(m)|)
    {
      MetaBack(b, p, m);
    }
  }

  lemma FooterBack(rows: nat, ms: seq<Meta>)
    requires rows < 0x1_0000_0000_0000_0000 && |ms| < 0x1_0000_0000_0000_0000
    ensures var f := Footer(rows, ms);
      && ParseU64(f, 0) == Got(rows, 8) && ParseU64(f, 8) == Got(|ms|, 16)
      && ParseList(ParseMeta, f, 16, |ms|) == Got(ms, |f|)
  {
    hide U64, ParseU64, At, EncList, ParseList, MetaBytes, ParseMeta, ReadsBack;
    var f := Footer(rows, ms);
    WholeAt(f);
    AtSplit(f, 0, U64(rows), U64(|ms|) + EncList(MetaBytes, ms));
    AtSplit(f, 8, U64(|ms|), EncList(MetaBytes, ms));
    ReadU64(f, 0, rows);
    ReadU64(f, 8, |ms|);
    MetasReadBack();
    ListBack(MetaBytes, ParseMeta, AnyMeta, f, 16, ms);
  }

  /** What a file that fits 64-bit positions is cut into. */
  lemma FileParts(s: Scheme, cols: seq<Column>)
    requires |ColumnarBytes(s, cols)| < 0x1_0000_0000_0000_0000
    ensures var b := ColumnarBytes(s, cols); var f := Footer(RowCount(cols), Metas(s, cols));
      && At(b, 4, PagesOf(s, cols)) && 4 + |PagesOf(s, cols)| + |f| + 12 == |b|
      && b[|b| - 4..] == Magic("DBC1") && ParseU64(b, |b| - 12) == Got(|f|, |b| - 4)
      && b[|b| - 12 - |f|..|b| - 12] == f
  {
    hide U64, ParseU64, At, PagesOf, Footer, Metas;
    var b, f, pages := ColumnarBytes(s, cols), Footer(RowCount(cols), Metas(s, cols)), PagesOf(s, cols);
    MagicSize("DBC1");
    var magic := Magic("DBC1");
    hide Magic;
    var p := 4 + |pages|;
    var tail := U64(Word(|f|)) + magic;
    WholeAt(b);
    AtSplit(b, 0, magic, pages + (f + tail));
    AtSplit(b, 4, pages, f + tail);
    AtSplit(b, p, f, tail);
    AtSplit(b, p + |f|, U64(Word(|f|)), magic);
    ReadU64(b, p + |f|, |f|);
    AtIs(b, p, f);
    AtIs(b, p + |f| + 8, magic);
    assert b[|b| - 4..] == b[|b| - 4..|b|];
  }

  lemma AtIs(b: Bytes, p: nat, x: Bytes)
    requires At(b, p, x)
    ensures p + |x| <= |b| && b[p..p + |x|] == x
  {
  }

  lemma OpenFrom(b: Bytes, f: Bytes, rows: u64, ms: seq<Meta>)
    requires |b| >= 16 && |f| <= |b| - 12 && |f| < 0x1_0000_0000_0000_0000 && b[|b| - 4..] == Magic("DBC1")
    requires ParseU64(b, |b| - 12) == Got(|f|, |b| - 4) && b[|b| - 12 - |f|..|b| - 12] == f
    requires |ms| < 0x1_0000_0000_0000_0000 && ParseU64(f, 0) == Got(rows, 8) && ParseU64(f, 8) == Got(|ms|, 16)
    requires ParseList(ParseMeta, f, 16, |ms|) == Got(ms, |f|)
    ensures ParseFooter(b) == Some(Opened(rows, ms))
  {
    hide ParseU64, ParseList, Magic;
  }

  /** The footer of a written file is read back: row count and every column's position. */
  lemma OpenBack(s: Scheme, cols: seq<Column>)
    requires |ColumnarBytes(s, cols)| < 0x1_0000_0000_0000_0000 && RowCount(cols) < 0x1_0000_0000_0000_0000
    ensures ParseFooter(ColumnarBytes(s, cols)) == Some(Opened(RowCount(cols), Metas(s, cols)))
  {
    hide ColumnarBytes, Footer, Metas, ParseU64, ParseList, Magic, ParseFooter, RowCount, At, PagesOf;
    var rows, ms := RowCount(cols), Metas(s, cols);
    FileParts(s, cols);
    FooterSize(rows, ms);
    FooterBack(rows, ms);
    OpenFrom(ColumnarBytes(s, cols), Footer(rows, ms), rows, ms);
  }

  lemma FooterSize(rows: nat, ms: seq<Meta>)
    ensures |Footer(rows, ms)| >= 16 + |ms|
  {
    ListSize(MetaBytes, 1, ms);
  }

  lemma {:induction false} MetaAt(s: Scheme, cols: seq<Column>, k: nat)
    requires k < |cols|
    ensures Metas(s, cols)[k] == MetaOf(s, 4 + |PagesOf(s, cols[..k])|, cols[k])
  {
    hide PagesOf, MetaOf;
    var n := |cols| - 1;
    if k < n {
      MetaAt(s, cols[..n], k);
      assert cols[..n][..k] == cols[..k];
    }
  }

  lemma PagesSnoc(s: Scheme, cols: seq<Column>)
    requires cols != []
    ensures PagesOf(s, cols) == PagesOf(s, cols[..|cols| - 1]) + Page(s, cols[|cols| - 1])
  {
    hide Page;
  }

  lemma AtEndOf(b: Bytes, c: Bytes)
    ensures At(b + c, |b|, c)
  {
    assert (b + c)[|b|..|b| + |c|] == c;
  }

  lemma {:induction false} PageIn(s: Scheme, cols: seq<Column>, k: nat)
    requires k < |cols|
    ensures var p := |PagesOf(s, cols[..k])|; At(PagesOf(s, cols), p, Page(s, cols[k]))
  {
    hide PagesOf, Page, At;
    var n := |cols| - 1;
    var init, last := PagesOf(s, cols[..n]), Page(s, cols[n]);
    PagesSnoc(s, cols);
    if k < n {
      PageIn(s, cols[..n], k);
      assert cols[..n][..k] == cols[..k];
      AtExtends(init, last, |PagesOf(s, cols[..k])|, Page(s, cols[k]));
    } else {
      AtEndOf(init, last);
    }
  }

  lemma AtExtends(b: Bytes, c: Bytes, p: nat, x: Bytes)
    requires At(b, p, x)
    ensures At(b + c, p, x)
  {
  }

  lemma AtInside(b: Bytes, p: nat, x: Bytes, q: nat, y: Bytes)
    requires At(b, p, x) && At(x, q, y)
    ensures At(b, p + q, y)
  {
    SubSlice(b, p, p + |x|, q, q + |y|);
  }

  /** The recorded position of column k is where its page stands. */
  lemma PageAt(s: Scheme, cols: seq<Column>, k: nat)
    requires |ColumnarBytes(s, cols)| < 0x1_0000_0000_0000_0000 && k < |cols|
    ensures var m := Metas(s, cols)[k];
      && m.compression == Id(s) && m.storedSize == |Page(s, cols[k])| &&
        At(ColumnarBytes(s, cols), m.offset, Page(s, cols[k]))
      && m.rawSize == Word(|PageBytes(cols[k].ty, cols[k].cells)|) && m.valueCount == Word(|cols[k].cells|)
  {
    hide ColumnarBytes, Footer, Metas, PagesOf, Page, PageBytes, At, Word, ParseU64, Magic;
    FileParts(s, cols);
    PageIn(s, cols, k);
    MetaAt(s, cols, k);
    var p := |PagesOf(s, cols[..k])|;
    AtInside(ColumnarBytes(s, cols), 4, PagesOf(s, cols), p, Page(s, cols[k]));
    AtBound(ColumnarBytes(s, cols), 4 + p, Page(s, cols[k]));
    WordIs(4 + p);
    WordIs(|Page(s, cols[k])|);
  }

  lemma WordIs(n: nat)
    requires n < 0x1_0000_0000_0000_0000
    ensures Word(n) == n
  {
  }

  lemma AtBound(b: Bytes, p: nat, x: Bytes)
    requires At(b, p, x)
    ensures p + |x| <= |b|
  {
  }

  predicate ColumnStored(c: Column) {
    && (forall i :: 0 <= i < |c.cells| ==> CellOk(c.ty, c.cells[i]))
    && |c.cells| < 0x1_0000_0000_0000_0000 && |PageBytes(c.ty, c.cells)| < 0x1_0000_0000_0000_0000
  }

  lemma StoredCells(c: Column)
    requires ColumnStored(c)
    ensures forall i :: 0 <= i < |c.cells| ==> CellOk(c.ty, c.cells[i]) && HasType(c.cells[i], c.ty)
    ensures |c.cells| < 0x1_0000_0000_0000_0000 && |PageBytes(c.ty, c.cells)| < 0x1_0000_0000_0000_0000
  {
  }

  lemma DirectFrom(b: Bytes, m: Meta, t: Type, cells: seq<Value>, first: nat, count: nat)
    requires At(b, m.offset, PageBytes(t, cells)) && Width(t) > 0 && first + count <= |cells|
    requires forall i :: 0 <= i < |cells| ==> CellOk(t, cells[i]) && HasType(cells[i], t)
    ensures ReadDirect(b, m, t, first, count) == Some(cells[first..first + count])
  {
    var page := PageBytes(t, cells);
    hide PageBytes, DecodePage, Off, Width, At, CellOk, HasType;
    PageWidth(t, cells);
    PageBack(t, cells);
    DirectEqualsWhole(t, page, |cells|, first, count);
    OffAdds(t, first, count);
    AtIs(b, m.offset, page);
    SubSlice(b, m.offset, m.offset + |page|, Off(t, first), Off(t, first + count));
  }

  lemma WholeFrom(s: Scheme, b: Bytes, m: Meta, t: Type, cells: seq<Value>, first: nat, count: nat)
    requires SchemeOk(s) && At(b, m.offset, Pack(s, PageBytes(t, cells))) && first + count <= |cells|
    requires m.storedSize == |Pack(s, PageBytes(t, cells))| && m.rawSize == |PageBytes(t, cells)| &&
      m.valueCount == |cells|
    requires forall i :: 0 <= i < |cells| ==> CellOk(t, cells[i])
    ensures ReadWhole(s, b, m, t, first, count) == Some(cells[first..first + count])
  {
    hide PageBytes, DecodePage, At, CellOk;
    PageBack(t, cells);
    AtIs(b, m.offset, Pack(s, PageBytes(t, cells)));
  }

  /** Any range of any column of a written file reads back, by either way of reading. */
  lemma ColumnBack(s: Scheme, cols: seq<Column>, k: nat, first: nat, count: nat)
    requires SchemeOk(s) && |ColumnarBytes(s, cols)| < 0x1_0000_0000_0000_0000 && k < |cols|
    requires ColumnStored(cols[k]) && first + count <= |cols[k].cells|
    ensures ReadRows(s, ColumnarBytes(s, cols), Metas(s, cols)[k], cols[k].ty, first, count)
      == Some(cols[k].cells[first..first + count])
  {
    hide ColumnarBytes, Metas, ReadDirect, ReadWhole, ColumnStored, Width, Word, At, PageBytes, CellOk, HasType,
      SchemeOk;
    var b, m, c := ColumnarBytes(s, cols), Metas(s, cols)[k], cols[k];
    PageAt(s, cols, k);
    StoredCells(c);
    if Width(c.ty) > 0 && s.Uncompressed? {
      DirectFrom(b, m, c.ty, c.cells, first, count);
    } else {
      WordIs(|c.cells|);
      WordIs(|PageBytes(c.ty, c.cells)|);
      WholeFrom(s, b, m, c.ty, c.cells, first, count);
    }
  }
}
