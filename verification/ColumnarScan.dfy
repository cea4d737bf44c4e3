/** Writing columnar files and scanning them: the rows that went in come out, projected, in order. */
module ColumnarScan {
  import opened Table
  import opened ByteFormat
  import ObjectCodec
  import opened PlainCodec
  import opened Columnar

  // ------------------------------------------------------- rows of columns

  predicate Even(cols: seq<Column>, n: nat) {
    forall k :: 0 <= k < |cols| ==> |cols[k].cells| == n
  }

  /** The rows of `n`-cell columns. */
  function RowsIn(cols: seq<Column>, n: nat): (rows: seq<Row>)
    ensures |rows| == n
  {
    seq(n, r requires 0 <= r => RowAt(cols, r))
  }

  function Cut(cols: seq<Column>, first: nat, count: nat): seq<Column>
    requires forall k :: 0 <= k < |cols| ==> first + count <= |cols[k].cells|
  {
    seq(|cols|, k requires 0 <= k < |cols| => Column(cols[k].ty, cols[k].cells[first..first + count]))
  }

  lemma CutRows(cols: seq<Column>, n: nat, first: nat, count: nat)
    requires Even(cols, n) && first + count <= n
    ensures RowsIn(Cut(cols, first, count), count) == RowsIn(cols, n)[first..first + count]
  {
    var part := Cut(cols, first, count);
    hide RowAt, Cut;
    forall r | 0 <= r < count
      ensures RowAt(part, r) == RowAt(cols, first + r)
    {
      CutRow(cols, n, first, count, r);
    }
  }

  lemma CutRow(cols: seq<Column>, n: nat, first: nat, count: nat, r: nat)
    requires Even(cols, n) && first + count <= n && r < count
    ensures RowAt(Cut(cols, first, count), r) == RowAt(cols, first + r)
  {
    hide RowAt;
    RowAtCells(Cut(cols, first, count), r);
    RowAtCells(cols, first + r);
  }

  function Joined(a: seq<Column>, b: seq<Column>): seq<Column>
    requires |a| == |b|
  {
    seq(|a|, k requires 0 <= k < |a| => Column(a[k].ty, a[k].cells + b[k].cells))
  }

  predicate InRange(projection: seq<int>, n: nat) {
    forall k :: 0 <= k < |projection| ==> 0 <= projection[k] < n
  }

  function Select(cols: seq<Column>, projection: seq<int>): seq<Column>
    requires InRange(projection, |cols|)
  {
    seq(|projection|, k requires 0 <= k < |projection| => cols[projection[k]])
  }

  function ProjectRow(row: Row, projection: seq<int>): Row
    requires InRange(projection, |row|)
  {
    seq(|projection|, k requires 0 <= k < |projection| => row[projection[k]])
  }

  /** Selecting columns is projecting every row. */
  lemma SelectRows(cols: seq<Column>, n: nat, projection: seq<int>, r: nat)
    requires Even(cols, n) && InRange(projection, |cols|) && r < n
    ensures |RowAt(cols, r)| == |cols| && RowAt(Select(cols, projection), r) == ProjectRow(RowAt(cols, r), projection)
  {
    RowAtCells(cols, r);
    RowAtCells(Select(cols, projection), r);
  }

  function ProjectAll(rows: seq<Row>, projection: seq<int>): (out: seq<Row>)
    ensures |out| == |rows|
  {
    seq(|rows|, r requires 0 <= r < |rows| =>
      if InRange(projection, |rows[r]|) then ProjectRow(rows[r], projection) else rows[r])
  }

  lemma ProjectAppend(a: seq<Row>, b: seq<Row>, projection: seq<int>)
    ensures ProjectAll(a + b, projection) == ProjectAll(a, projection) + ProjectAll(b, projection)
  {
  }

  lemma SelectProjects(cols: seq<Column>, n: nat, projection: seq<int>)
    requires Even(cols, n) && InRange(projection, |cols|)
    ensures RowsIn(Select(cols, projection), n) == ProjectAll(RowsIn(cols, n), projection)
  {
    hide RowAt, Select, ProjectRow, Even;
    forall r | 0 <= r < n
      ensures RowAt(Select(cols, projection), r) == ProjectAll(RowsIn(cols, n), projection)[r]
    {
      SelectRows(cols, n, projection, r);
    }
  }

  // ------------------------------------------------------- typed rows

  predicate RowsTyped(schema: Schema, rows: seq<Row>) {
    forall r :: 0 <= r < |rows| ==> RowTyped(schema, rows[r])
  }

  lemma ChunkRowsTyped(schema: Schema, c: Chunk)
    requires IsFullSchemaChunk(c, schema) && Typed(c)
    ensures RowsTyped(schema, Rows(c))
  {
    hide RowAt;
    forall r | 0 <= r < c.rowCount
      ensures RowTyped(schema, Rows(c)[r])
    {
      RowAtCells(c.columns, r);
      forall k | 0 <= k < |schema|
        ensures HasType(Rows(c)[r][k], schema[k].ty)
      {
        assert ColumnOk(c.columns[k]);
      }
    }
  }

  lemma {:induction false} ConcatFits(schema: Schema, chunks: seq<Chunk>)
    requires AllFull(chunks, schema)
    ensures RowsTyped(schema, ConcatRows(chunks))
  {
    hide RowTyped, Rows, IsFullSchemaChunk, Typed;
    if chunks != [] {
      ConcatFits(schema, chunks[..|chunks| - 1]);
      ChunkRowsTyped(schema, chunks[|chunks| - 1]);
    }
  }

  lemma ColumnsRow(schema: Schema, rows: seq<Row>, r: nat)
    requires RowsTyped(schema, rows) && r < |rows|
    ensures RowAt(ColumnsOf(schema, rows), r) == rows[r]
  {
    hide RowAt;
    assert RowTyped(schema, rows[r]);
    RowAtCells(ColumnsOf(schema, rows), r);
  }

  /** Rows of the schema's width are the rows of their columns. */
  lemma ColumnsHold(schema: Schema, rows: seq<Row>)
    requires RowsTyped(schema, rows)
    ensures Even(ColumnsOf(schema, rows), |rows|) && RowsIn(ColumnsOf(schema, rows), |rows|) == rows
    ensures forall k :: 0 <= k < |schema| ==> ColumnOk(ColumnsOf(schema, rows)[k])
  {
    forall k | 0 <= k < |schema|
      ensures ColumnOk(ColumnsOf(schema, rows)[k])
    {
      forall r | 0 <= r < |rows|
        ensures HasType(CellAt(rows[r], k), schema[k].ty)
      {
        assert RowTyped(schema, rows[r]);
      }
    }
    hide RowAt, RowTyped, ColumnOk;
    forall r | 0 <= r < |rows|
      ensures RowAt(ColumnsOf(schema, rows), r) == rows[r]
    {
      ColumnsRow(schema, rows, r);
    }
  }

  /** Appending a chunk's columns is appending its rows. */
  lemma ColumnsJoin(schema: Schema, rows: seq<Row>, c: Chunk)
    requires IsFullSchemaChunk(c, schema)
    ensures Joined(ColumnsOf(schema, rows), c.columns) == ColumnsOf(schema, rows + Rows(c))
  {
    ColumnsBack(schema, c);
    hide Rows;
    var a, b := Joined(ColumnsOf(schema, rows), c.columns), ColumnsOf(schema, rows + Rows(c));
    forall k | 0 <= k < |schema|
      ensures a[k] == b[k]
    {
      assert c.columns[k] == ColumnsOf(schema, Rows(c))[k];
      assert a[k].cells == b[k].cells;
    }
  }

  // --------------------------------------------------------------- writer

  /** The columnar file of some rows. */
  function DataFile(s: Scheme, schema: Schema, rows: seq<Row>): Bytes {
    ColumnarBytes(s, ColumnsOf(schema, rows))
  }

  /** Strings, pages, rows and the file itself are within the format's 32-bit and 64-bit sizes. */
  ghost predicate Sized(s: Scheme, schema: Schema, rows: seq<Row>) {
    && |DataFile(s, schema, rows)| < 0x1_0000_0000_0000_0000 && |rows| < 0x1_0000_0000_0000_0000
    && (forall k :: 0 <= k < |schema| ==> PageSized(ColumnsOf(schema, rows)[k]))
  }

  predicate PageSized(c: Column) {
    && |PageBytes(c.ty, c.cells)| < 0x1_0000_0000_0000_0000
    && forall i :: 0 <= i < |c.cells| && c.cells[i].VBytes? ==> |c.cells[i].bytes| <= MAX_U32
  }

  /** A data file within the size limits is one that a reader can open. */
  lemma DataFileOf(s: Scheme, schema: Schema, rows: seq<Row>)
    requires SchemeOk(s) && schema != [] && RowsTyped(schema, rows) && Sized(s, schema, rows)
    ensures FileOf(s, schema, DataFile(s, schema, rows), ColumnsOf(schema, rows))
    ensures RowCount(ColumnsOf(schema, rows)) == |rows|
  {
    hide ColumnarBytes, RowsTyped, PageBytes, RowsIn;
    ColumnsHold(schema, rows);
    var cols := ColumnsOf(schema, rows);
    forall k | 0 <= k < |cols|
      ensures ColumnStored(cols[k])
    {
      assert PageSized(cols[k]) && ColumnOk(cols[k]) && |cols[k].cells| == |rows|;
    }
  }

  class ColumnarWriter {
    const schema: Schema
    const scheme: Scheme
    var cols: seq<Column>
    var file: Option<Bytes>
    ghost var written: seq<Chunk>

    /** The buffered columns are the rows of the chunks written so far. */
    ghost predicate Valid()
      reads this
    {
      && schema != [] && (forall k :: 0 <= k < |schema| ==> schema[k].ty != Invalid)
      && AllFull(written, schema) && cols == ColumnsOf(schema, ConcatRows(written))
    }

    constructor (s: Schema, c: Scheme)
      requires s != [] && forall k :: 0 <= k < |s| ==> s[k].ty != Invalid
      ensures Valid() && written == [] && file == None && schema == s && scheme == c
    {
      schema, scheme := s, c;
      cols, file, written := ColumnsOf(s, []), None, [];
    }

    /** Buffer one chunk; a chunk without exactly the schema's columns is refused. */
    method Write(chunk: Chunk) returns (ok: bool)
      requires Valid() && (|chunk.columns| == |schema| ==> IsFullSchemaChunk(chunk, schema) && Typed(chunk))
      modifies this
      ensures Valid() && (ok <==> |chunk.columns| == |schema|) && file == old(file)
      ensures written == if ok then old(written) + [chunk] else old(written)
    {
      hide ColumnsOf, Rows, Typed, ConcatRows, IsFullSchemaChunk, Joined;
      ColumnsWidth(schema, ConcatRows(written));
      if |chunk.columns| != |cols| {
        return false;
      }
      ColumnsJoin(schema, ConcatRows(written), chunk);
      WrittenMore(written, chunk);
      cols := Joined(cols, chunk.columns);
      written := written + [chunk];
      return true;
    }

    /**
     * Seal the file: pages, footer, its size, the closing magic. A second call does nothing. Within the size limits
     * the file is one that a reader can open.
     */
    method Close()
      requires Valid()
      modifies `file
      ensures file == if old(file).Some? then old(file) else Some(DataFile(scheme, schema, ConcatRows(written)))
      ensures SchemeOk(scheme) && Sized(scheme, schema, ConcatRows(written)) ==>
        FileOf(scheme, schema, DataFile(scheme, schema, ConcatRows(written)), cols)
    {
      hide Even, RowsIn, ConcatRows, U64, ObjectCodec.Magic, ColumnOk, PagesOf, Metas, Footer, ColumnsOf, FileOf,
        Sized, RowsTyped, AllFull, SchemeOk;
      ghost var rows := ConcatRows(written);
      ConcatFits(schema, written);
      ColumnsHold(schema, rows);
      ColumnsWidth(schema, rows);
      if SchemeOk(scheme) && Sized(scheme, schema, rows) {
        DataFileOf(scheme, schema, rows);
      }
      if file.Some? {
        return;
      }
      var body, metas := WritePages(scheme, cols);
      var footer := WriteFooter(RowCount(cols), metas);
      body := body + footer + U64(Word(|footer|)) + ObjectCodec.Magic("DBC1");
      Nested(ObjectCodec.Magic("DBC1"), PagesOf(scheme, cols), footer, U64(Word(|footer|)), ObjectCodec.Magic("DBC1"));
      file := Some(body);
    }
  }

  lemma ColumnsWidth(schema: Schema, rows: seq<Row>)
    ensures |ColumnsOf(schema, rows)| == |schema|
    ensures forall k :: 0 <= k < |schema| ==> ColumnsOf(schema, rows)[k].ty == schema[k].ty
  {
  }

  /** Magic, then page after page, remembering where each one starts. */
  method WritePages(s: Scheme, cols: seq<Column>) returns (body: Bytes, metas: seq<Meta>)
    requires forall k :: 0 <= k < |cols| ==> ColumnOk(cols[k]) && cols[k].ty != Invalid
    ensures body == ObjectCodec.Magic("DBC1") + PagesOf(s, cols) && metas == Metas(s, cols)
  {
    hide MetaOf, Page, ObjectCodec.Magic, ColumnOk, Pack, PageBytes;
    var magic := ObjectCodec.Magic("DBC1");
    ObjectCodec.MagicSize("DBC1");
    body, metas := magic, [];
    var i := 0;
    assert cols[..0] == [];
    while i < |cols|
      invariant i <= |cols| && body == magic + PagesOf(s, cols[..i]) && metas == Metas(s, cols[..i])
    {
      PagesSnoc(s, cols[..i + 1]);
      assert cols[..i + 1][..i] == cols[..i];
      var encoded := EncodeColumn(cols[i]);
      PageIs(s, cols[i]);
      var stored := Pack(s, encoded);
      Glue(magic, PagesOf(s, cols[..i]), stored);
      metas := metas + [MetaOf(s, |body|, cols[i])];
      body := body + stored;
      i := i + 1;
    }
    assert cols[..|cols|] == cols;
  }

  lemma Glue(a: Bytes, b: Bytes, c: Bytes)
    ensures a + b + c == a + (b + c)
  {
  }

  lemma PageIs(s: Scheme, c: Column)
    ensures Page(s, c) == Pack(s, PageBytes(c.ty, c.cells))
  {
  }

  lemma Nested(a: Bytes, b: Bytes, c: Bytes, d: Bytes, e: Bytes)
    ensures a + b + c + d + e == a + (b + (c + (d + e)))
  {
    assert a + b + c + d + e == (a + b) + (c + (d + e));
    assert (a + b) + (c + (d + e)) == a + (b + (c + (d + e)));
  }

  method WriteFooter(rows: nat, ms: seq<Meta>) returns (out: Bytes)
    ensures out == Footer(rows, ms)
  {
    hide MetaBytes, U64;
    out := U64(Word(rows)) + U64(Word(|ms|));
    ghost var head := out;
    var i := 0;
    assert head + EncList(MetaBytes, ms[..0]) == head;
    while i < |ms|
      invariant i <= |ms| && out == head + EncList(MetaBytes, ms[..i])
    {
      assert ms[..i + 1][..i] == ms[..i];
      assert head + EncList(MetaBytes, ms[..i]) + MetaBytes(ms[i]) ==
        head + (EncList(MetaBytes, ms[..i]) + MetaBytes(ms[i]));
      out := out + MetaBytes(ms[i]);
      i := i + 1;
    }
    assert ms[..|ms|] == ms;
    assert U64(Word(rows)) + U64(Word(|ms|)) + EncList(MetaBytes, ms) ==
      U64(Word(rows)) + (U64(Word(|ms|)) + EncList(MetaBytes, ms));
  }

  lemma WrittenMore(cs: seq<Chunk>, c: Chunk)
    ensures ConcatRows(cs + [c]) == ConcatRows(cs) + Rows(c) && Rows(c) == RowsIn(c.columns, c.rowCount)
  {
    assert (cs + [c])[..|cs|] == cs;
  }

  // --------------------------------------------------------------- reader

  datatype Reader = Reader(file: Bytes, projection: seq<int>, types: seq<Type>, metas: seq<Meta>, rows: nat)

  /** The file of some columns of the schema, small enough for 64-bit positions. */
  ghost predicate FileOf(s: Scheme, schema: Schema, b: Bytes, cols: seq<Column>) {
    && SchemeOk(s) && b == ColumnarBytes(s, cols) && |b| < 0x1_0000_0000_0000_0000
    && |cols| == |schema| && Even(cols, RowCount(cols)) && RowCount(cols) < 0x1_0000_0000_0000_0000
    && (forall k :: 0 <= k < |cols| ==> cols[k].ty == schema[k].ty && ColumnStored(cols[k]))
  }

  /** A reader of that file's projected columns. */
  ghost predicate Reads(s: Scheme, schema: Schema, r: Reader, cols: seq<Column>) {
    && FileOf(s, schema, r.file, cols) && InRange(r.projection, |cols|)
    && |r.types| == |r.metas| == |r.projection| && r.rows == RowCount(cols)
    && (forall k :: 0 <= k < |r.projection| ==>
          r.types[k] == schema[r.projection[k]].ty && r.metas[k] == Metas(s, cols)[r.projection[k]])
  }

  /** Read the footer and pick the projected columns; a projection outside the file throws. */
  method OpenReader(s: Scheme, schema: Schema, b: Bytes, projection: seq<int>, ghost cols: seq<Column>)
    returns (r: Option<Reader>)
    requires FileOf(s, schema, b, cols)
    ensures r.Some? <==> InRange(projection, |cols|)
    ensures r.Some? ==> r.value.projection == projection && Reads(s, schema, r.value, cols)
  {
    hide ColumnarBytes, Metas, ColumnStored, Even, ParseFooter, RowCount;
    OpenBack(s, cols);
    var footer := ParseFooter(b).value;
    var types, metas, k := [], [], 0;
    while k < |projection|
      invariant k <= |projection| && |types| == |metas| == k && InRange(projection[..k], |cols|)
      invariant forall j :: 0 <= j < k ==>
        types[j] == schema[projection[j]].ty && metas[j] == Metas(s, cols)[projection[j]]
    {
      var field := projection[k];
      if field < 0 || field >= |footer.metas| {
        return None;
      }
      types, metas := types + [schema[field].ty], metas + [footer.metas[field]];
      assert projection[..k + 1] == projection[..k] + [field];
      k := k + 1;
    }
    assert projection[..|projection|] == projection;
    return Some(Reader(b, projection, types, metas, footer.rows));
  }

  /** At most `count` rows from `first` on, column by column; nothing past the end. */
  method ReadRange(s: Scheme, schema: Schema, r: Reader, first: nat, count: nat, ghost cols: seq<Column>)
    returns (out: Option<Chunk>)
    requires Reads(s, schema, r, cols)
    ensures out.Some? <==> first < r.rows && count > 0
    ensures out.Some? ==>
      var n := if count <= r.rows - first then count else r.rows - first;
      && out.value.rowCount == n && out.value.columnIds == r.projection
      && Rows(out.value) == RowsIn(Select(cols, r.projection), r.rows)[first..first + n]
  {
    hide Reads, ReadRows, RowAt, Rows, RowsIn, Even;
    Projected(s, schema, r, cols);
    if first >= r.rows || count == 0 {
      return None;
    }
    var n := if count <= r.rows - first then count else r.rows - first;
    ghost var picked := Select(cols, r.projection);
    var columns, k := [], 0;
    while k < |r.projection|
      invariant k <= |r.projection| && columns == Cut(picked, first, n)[..k]
    {
      ReadColumn(s, schema, r, cols, k, first, n);
      var cells := ReadRows(s, r.file, r.metas[k], r.types[k], first, n);
      columns := columns + [Column(r.types[k], cells.value)];
      k := k + 1;
    }
    assert columns == Cut(picked, first, n)[..|picked|] == Cut(picked, first, n);
    CutRows(picked, r.rows, first, n);
    ChunkRows(r.projection, columns, n);
    return Some(Chunk(r.projection, columns, n));
  }

  lemma Projected(s: Scheme, schema: Schema, r: Reader, cols: seq<Column>)
    requires Reads(s, schema, r, cols)
    ensures InRange(r.projection, |cols|) && Even(Select(cols, r.projection), r.rows)
    ensures |r.types| == |r.metas| == |r.projection|
    ensures forall k :: 0 <= k < |r.projection| ==> |Select(cols, r.projection)[k].cells| == r.rows
  {
    hide ColumnarBytes, Metas, ColumnStored, RowCount;
  }

  lemma ReadColumn(s: Scheme, schema: Schema, r: Reader, cols: seq<Column>, k: nat, first: nat, n: nat)
    requires InRange(r.projection, |cols|) && |r.types| == |r.metas| == |r.projection| && k < |r.projection|
    requires Reads(s, schema, r, cols) && first + n <= r.rows && |Select(cols, r.projection)[k].cells| == r.rows
    ensures var c := Select(cols, r.projection)[k];
      && r.types[k] == c.ty
      && ReadRows(s, r.file, r.metas[k], r.types[k], first, n) == Some(c.cells[first..first + n])
  {
    hide ColumnarBytes, Metas, ColumnStored, RowCount, ReadRows;
    ColumnBack(s, cols, r.projection[k], first, n);
  }

  lemma ChunkRows(ids: seq<int>, cols: seq<Column>, n: nat)
    ensures Rows(Chunk(ids, cols, n)) == RowsIn(cols, n)
  {
  }

  // --------------------------------------------------------------- cursors

  type Key = Bytes

  /** The projected rows of one listed file; a missing file has none. */
  ghost function FileRows(tables: map<Key, seq<Column>>, f: Key, projection: seq<int>): seq<Row> {
    if f in tables && InRange(projection, |tables[f]|) then RowsIn(Select(tables[f], projection), RowCount(tables[f]))
      else []
  }

  ghost function RowsFrom(tables: map<Key, seq<Column>>, files: seq<Key>, k: nat, projection: seq<int>): seq<Row>
    decreases |files| - k
  {
    if k >= |files| then [] else FileRows(tables, files[k], projection) + RowsFrom(tables, files, k + 1, projection)
  }

  /** The listed files hold these columns, as far as there are such files. */
  ghost predicate FilesOf(s: Scheme, schema: Schema, store: map<Key, Bytes>, files: seq<Key>,
                          tables: map<Key, seq<Column>>)
  {
    forall i :: 0 <= i < |files| ==>
      && (files[i] in store <==> files[i] in tables)
      && (files[i] in store ==> FileOf(s, schema, store[files[i]], tables[files[i]]))
  }

  /** Streams the projected rows of a list of files, a window of rows at a time. */
  class ColumnarCursor {
    const scheme: Scheme
    const schema: Schema
    const store: map<Key, Bytes>
    const files: seq<Key>
    const projection: seq<int>
    const batchRows: nat
    var reader: Option<Reader>
    var pos: nat
    var nextFile: nat
    ghost const tables: map<Key, seq<Column>>
    ghost var open: Key

    ghost predicate Valid()
      reads this
    {
      && batchRows > 0 && InRange(projection, |schema|) && nextFile <= |files|
      && FilesOf(scheme, schema, store, files, tables)
      && (reader.Some? ==>
            && open in tables && reader.value.projection == projection && pos <= reader.value.rows
            && Reads(scheme, schema, reader.value, tables[open]))
    }

    /** The rows still to come. */
    ghost function Remaining(): seq<Row>
      requires Valid()
      reads this
    {
      (if reader.Some? then FileRows(tables, open, projection)[pos..] else []) +
        RowsFrom(tables, files, nextFile, projection)
    }

    constructor (s: Scheme, sc: Schema, st: map<Key, Bytes>, fs: seq<Key>, p: seq<int>, batch: nat,
                 ghost ts: map<Key, seq<Column>>)
      requires InRange(p, |sc|) && FilesOf(s, sc, st, fs, ts)
      ensures Valid() && Remaining() == RowsFrom(ts, fs, 0, p) && batchRows == (if batch == 0 then 1 else batch)
    {
      scheme, schema, store, files, projection := s, sc, st, fs, p;
      batchRows := if batch == 0 then 1 else batch;
      reader, pos, nextFile := None, 0, 0;
      tables, open := ts, [];
    }

    /** The next window: a non-empty chunk of the rows to come, in order, or false when none are left. */
    method Next() returns (out: Option<Chunk>)
      requires Valid()
      modifies this
      ensures Valid()
      ensures out.Some? ==>
        && old(Remaining()) == Rows(out.value) + Remaining() && 1 <= |Rows(out.value)| <= batchRows
        && out.value.columnIds == projection
      ensures out.None? ==> old(Remaining()) == [] == Remaining()
    {
      hide FileOf, Even, RowsIn, Select, RowAt, Rows, FileRows, Reads;
      while true
        invariant Valid() && Remaining() == old(Remaining())
        decreases |files| - nextFile, if reader.Some? then 1 else 0
      {
        if reader.None? {
          if nextFile >= |files| {
            return None;
          }
          var f := files[nextFile];
          nextFile := nextFile + 1;
          if f !in store {
            NoFile(tables, f, projection);
            continue;
          }
          SameWidth(scheme, schema, store[f], tables[f]);
          reader := OpenReader(scheme, schema, store[f], projection, tables[f]);
          pos, open := 0, f;
          continue;
        }
        SameRows(scheme, schema, reader.value, tables, open, projection);
        if pos >= reader.value.rows {
          reader := None;
          continue;
        }
        var n := if batchRows <= reader.value.rows - pos then batchRows else reader.value.rows - pos;
        out := ReadRange(scheme, schema, reader.value, pos, n, tables[open]);
        Advance(FileRows(tables, open, projection), pos, n, RowsFrom(tables, files, nextFile, projection));
        pos := pos + n;
        return;
      }
    }
  }

  lemma NoFile(tables: map<Key, seq<Column>>, f: Key, projection: seq<int>)
    requires f !in tables
    ensures FileRows(tables, f, projection) == []
  {
  }

  lemma SameWidth(s: Scheme, schema: Schema, b: Bytes, cols: seq<Column>)
    requires FileOf(s, schema, b, cols)
    ensures |cols| == |schema|
  {
  }

  lemma SameRows(s: Scheme, schema: Schema, r: Reader, tables: map<Key, seq<Column>>, f: Key, projection: seq<int>)
    requires f in tables && r.projection == projection && Reads(s, schema, r, tables[f])
    ensures InRange(projection, |tables[f]|) && FileRows(tables, f, projection) ==
      RowsIn(Select(tables[f], projection), r.rows)
    ensures |FileRows(tables, f, projection)| == r.rows
  {
  }

  lemma Advance<T>(rows: seq<T>, pos: nat, n: nat, rest: seq<T>)
    requires pos + n <= |rows|
    ensures rows[pos..] + rest == rows[pos..pos + n] + (rows[pos + n..] + rest)
  {
    assert rows[pos..] == rows[pos..pos + n] + rows[pos + n..];
  }

  // ------------------------------------------------------------ end to end

  function TablesOf(schema: Schema, rows: map<Key, seq<Row>>): map<Key, seq<Column>> {
    map f | f in rows :: ColumnsOf(schema, rows[f])
  }

  /** The listed files are the data files of these rows, within the size limits. */
  ghost predicate Holds(s: Scheme, schema: Schema, store: map<Key, Bytes>, files: seq<Key>, rows: map<Key, seq<Row>>) {
    forall i :: 0 <= i < |files| ==>
      && (files[i] in store <==> files[i] in rows)
      && (files[i] in rows ==>
            && RowsTyped(schema, rows[files[i]]) && Sized(s, schema, rows[files[i]])
            && store[files[i]] == DataFile(s, schema, rows[files[i]]))
  }

  /** The rows of the listed files in the order of the list; a missing file has none. */
  function RowsListed(rows: map<Key, seq<Row>>, files: seq<Key>): seq<Row> {
    if files == [] then []
    else
      var f := files[|files| - 1];
      RowsListed(rows, files[..|files| - 1]) + (if f in rows then rows[f] else [])
  }

  lemma HoldsFiles(s: Scheme, schema: Schema, store: map<Key, Bytes>, files: seq<Key>, rows: map<Key, seq<Row>>)
    requires SchemeOk(s) && schema != [] && Holds(s, schema, store, files, rows)
    ensures FilesOf(s, schema, store, files, TablesOf(schema, rows))
  {
    hide FileOf, DataFile, Sized, RowsTyped, SchemeOk, ColumnsOf;
    forall i | 0 <= i < |files| && files[i] in store
      ensures FileOf(s, schema, store[files[i]], TablesOf(schema, rows)[files[i]])
    {
      DataFileOf(s, schema, rows[files[i]]);
    }
  }

  lemma OneFile(s: Scheme, schema: Schema, store: map<Key, Bytes>, files: seq<Key>, rows: map<Key, seq<Row>>,
                projection: seq<int>, i: nat)
    requires SchemeOk(s) && schema != [] && Holds(s, schema, store, files, rows) && InRange(projection, |schema|)
    requires i < |files|
    ensures FileRows(TablesOf(schema, rows), files[i], projection) ==
      ProjectAll(if files[i] in rows then rows[files[i]] else [], projection)
  {
    hide RowAt, Select, Even, RowsIn, DataFile, Sized, RowsTyped, ColumnsOf, SchemeOk, FileOf;
    var f := files[i];
    if f in rows {
      ColumnsHold(schema, rows[f]);
      ColumnsWidth(schema, rows[f]);
      DataFileOf(s, schema, rows[f]);
      SelectProjects(ColumnsOf(schema, rows[f]), |rows[f]|, projection);
    }
  }

  lemma {:induction false} ListedRows(s: Scheme, schema: Schema, store: map<Key, Bytes>, files: seq<Key>,
                                      rows: map<Key, seq<Row>>, projection: seq<int>, k: nat)
    requires SchemeOk(s) && schema != [] && Holds(s, schema, store, files, rows) && InRange(projection, |schema|)
    requires k <= |files|
    ensures ProjectAll(RowsListed(rows, files[..k]), projection) +
      RowsFrom(TablesOf(schema, rows), files, k, projection)
      == RowsFrom(TablesOf(schema, rows), files, 0, projection)
  {
    hide ProjectAll, FileRows, Holds, SchemeOk, TablesOf;
    if k == 0 {
      NoRows(projection);
    } else {
      ListedRows(s, schema, store, files, rows, projection, k - 1);
      OneFile(s, schema, store, files, rows, projection, k - 1);
      assert files[..k][..k - 1] == files[..k - 1];
      var before := RowsListed(rows, files[..k - 1]);
      var here := if files[k - 1] in rows then rows[files[k - 1]] else [];
      ProjectAppend(before, here, projection);
      Reassociate(ProjectAll(before, projection), ProjectAll(here, projection),
                  RowsFrom(TablesOf(schema, rows), files, k, projection));
    }
  }

  lemma NoRows(projection: seq<int>)
    ensures ProjectAll([], projection) == []
  {
  }

  lemma Reassociate<T>(a: seq<T>, b: seq<T>, c: seq<T>)
    ensures a + (b + c) == a + b + c
  {
  }

  /** A cursor over data files has their projected rows to come. */
  lemma ScanIsListed(s: Scheme, schema: Schema, store: map<Key, Bytes>, files: seq<Key>, rows: map<Key, seq<Row>>,
                     projection: seq<int>)
    requires SchemeOk(s) && schema != [] && Holds(s, schema, store, files, rows) && InRange(projection, |schema|)
    ensures RowsFrom(TablesOf(schema, rows), files, 0, projection) == ProjectAll(RowsListed(rows, files), projection)
  {
    hide ProjectAll, Holds, SchemeOk, TablesOf;
    ListedRows(s, schema, store, files, rows, projection, |files|);
    assert files[..|files|] == files;
  }

  /** Write chunks to one file. */
  method WriteFile(s: Scheme, schema: Schema, chunks: seq<Chunk>) returns (b: Bytes)
    requires schema != [] && (forall k :: 0 <= k < |schema| ==> schema[k].ty != Invalid) && AllFull(chunks, schema)
    ensures b == DataFile(s, schema, ConcatRows(chunks))
  {
    hide DataFile, ConcatRows, IsFullSchemaChunk, Typed, FileOf, Sized, SchemeOk;
    var w := new ColumnarWriter(schema, s);
    var i := 0;
    while i < |chunks|
      invariant i <= |chunks| && w.Valid() && w.schema == schema && w.scheme == s && w.file.None?
      invariant w.written == chunks[..i]
    {
      FullWidth(chunks[i], schema);
      var _ := w.Write(chunks[i]);
      assert chunks[..i + 1] == chunks[..i] + [chunks[i]];
      i := i + 1;
    }
    assert chunks[..|chunks|] == chunks;
    w.Close();
    b := w.file.value;
  }

  lemma FullWidth(c: Chunk, schema: Schema)
    requires IsFullSchemaChunk(c, schema)
    ensures |c.columns| == |schema|
  {
  }

  /** The rows last written under each name. */
  function Named(names: seq<Key>, lists: seq<seq<Chunk>>): map<Key, seq<Row>>
    requires |names| == |lists|
  {
    if names == [] then map[]
    else
      var n := |names| - 1;
      Named(names[..n], lists[..n])[names[n] := ConcatRows(lists[n])]
  }

  /**
   * Any lists of chunks written to files, any list of those files scanned in windows of any size: out come the rows
   * of the listed files in order, projected.
   */
  method WriteThenScan(s: Scheme, schema: Schema, names: seq<Key>, lists: seq<seq<Chunk>>, files: seq<Key>,
                       projection: seq<int>, batch: nat) returns (rows: seq<Row>)
    requires SchemeOk(s) && schema != [] && (forall k :: 0 <= k < |schema| ==> schema[k].ty != Invalid)
    requires |names| == |lists| && (forall i :: 0 <= i < |lists| ==> AllFull(lists[i], schema))
    requires forall i :: 0 <= i < |lists| ==> Sized(s, schema, ConcatRows(lists[i]))
    requires InRange(projection, |schema|)
    ensures rows == ProjectAll(RowsListed(Named(names, lists), files), projection)
  {
    hide DataFile, ConcatRows, IsFullSchemaChunk, Typed, FileOf, Sized, SchemeOk, AllFull, RowsTyped, RowsListed,
      ProjectAll, Rows, FileRows, ColumnsOf;
    var store: map<Key, Bytes> := map[];
    var i := 0;
    while i < |lists|
      invariant i <= |lists| && Keeps(s, schema, store, Named(names[..i], lists[..i]))
    {
      var b := WriteFile(s, schema, lists[i]);
      ConcatFits(schema, lists[i]);
      assert names[..i + 1][..i] == names[..i] && lists[..i + 1][..i] == lists[..i];
      store := store[names[i] := b];
      i := i + 1;
    }
    assert names[..i] == names && lists[..i] == lists;
    ghost var all := Named(names, lists);
    assert Holds(s, schema, store, files, all);
    HoldsFiles(s, schema, store, files, all);
    ScanIsListed(s, schema, store, files, all, projection);
    var c := new ColumnarCursor(s, schema, store, files, projection, batch, TablesOf(schema, all));
    rows := Drain(c);
  }

  ghost predicate Keeps(s: Scheme, schema: Schema, store: map<Key, Bytes>, rows: map<Key, seq<Row>>) {
    && store.Keys == rows.Keys
    && forall f :: f in rows ==>
         RowsTyped(schema, rows[f]) && Sized(s, schema, rows[f]) && store[f] == DataFile(s, schema, rows[f])
  }

  /** Call Next until it yields nothing. */
  method Drain(c: ColumnarCursor) returns (rows: seq<Row>)
    requires c.Valid()
    modifies c
    ensures c.Valid() && rows == old(c.Remaining())
  {
    hide Rows, FileOf, FileRows, RowsFrom, FilesOf, Reads;
    rows := [];
    assert [] + c.Remaining() == c.Remaining();
    var out := c.Next();
    while out.Some?
      invariant c.Valid() && (out.Some? ==> rows + (Rows(out.value) + c.Remaining()) == old(c.Remaining()))
      invariant out.Some? ==> |Rows(out.value)| > 0
      invariant out.None? ==> rows == old(c.Remaining())
      decreases |c.Remaining()| + (if out.Some? then |Rows(out.value)| else 0), if out.Some? then 1 else 0
    {
      Reassociate(rows, Rows(out.value), c.Remaining());
      rows := rows + Rows(out.value);
      ghost var left := c.Remaining();
      out := c.Next();
      if out.None? {
        assert rows + [] == rows;
      }
    }
  }
}
