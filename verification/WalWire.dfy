/** The row codec and the WAL codec as they run: loops over rows, cells and chunks. */
module WalWire {
  import opened Table
  import opened ByteFormat
  import opened ObjectCodec
  import opened RowCodec
  import opened WalCodec
  import opened WalRows
  import opened Wire

  // -------------------------------------------------------------- rows

  method EncodeRow(schema: Schema, row: Row) returns (r: Option<Bytes>)
    requires |row| == |schema| ==> forall i :: 0 <= i < |row| && schema[i].ty != Invalid ==>
      HasType(row[i], schema[i].ty)
    ensures r == if RowTyped(schema, row) then Some(RowBytes(schema, row)) else None
  {
    hide CellBytes, HasType;
    if |row| != |schema| {
      return None;
    }
    var out, i := [], 0;
    while i < |schema|
      invariant i <= |schema| && RowTyped(schema[..i], row[..i]) && out == RowBytes(schema[..i], row[..i])
    {
      if schema[i].ty == Invalid {
        InvalidHoldsNothing(row[i]);
        return None;
      }
      assert schema[..i + 1][..i] == schema[..i] && row[..i + 1][..i] == row[..i];
      out := out + CellBytes(row[i], schema[i].ty);
      i := i + 1;
    }
    assert schema[..|schema|] == schema && row[..|row|] == row;
    return Some(out);
  }

  lemma InvalidHoldsNothing(v: Value)
    ensures !HasType(v, Invalid)
  {
  }

  /** The output position of schema column `i`: the last projected position that names it, or -1. */
  function OutPos(projection: seq<int>, i: int): int {
    if projection == [] then -1
    else if projection[|projection| - 1] == i then |projection| - 1
    else OutPos(projection[..|projection| - 1], i)
  }

  lemma {:induction false} OutPosNames(projection: seq<int>, i: int)
    ensures -1 <= OutPos(projection, i) < |projection|
    ensures OutPos(projection, i) >= 0 ==> projection[OutPos(projection, i)] == i
  {
    if projection != [] {
      OutPosNames(projection[..|projection| - 1], i);
    }
  }

  /** The cells that column `k` has received once the schema columns below `i` are read. */
  function Received(projection: seq<int>, row: Row, k: nat): seq<Value>
    requires k < |projection|
  {
    if 0 <= projection[k] < |row| && OutPos(projection, projection[k]) == k then [row[projection[k]]] else []
  }

  function AppendRow(columns: seq<Column>, projection: seq<int>, row: Row): seq<Column>
    requires |columns| == |projection|
  {
    seq(|columns|, k requires 0 <= k < |columns| =>
      Column(columns[k].ty, columns[k].cells + Received(projection, row, k)))
  }

  method OutPositions(n: nat, projection: seq<int>) returns (outPos: seq<int>)
    requires forall k :: 0 <= k < |projection| ==> 0 <= projection[k] < n
    ensures |outPos| == n && forall i :: 0 <= i < n ==> outPos[i] == OutPos(projection, i)
  {
    outPos := seq(n, _ => -1);
    var k := 0;
    while k < |projection|
      invariant k <= |projection| && |outPos| == n
      invariant forall i :: 0 <= i < n ==> outPos[i] == OutPos(projection[..k], i)
    {
      assert projection[..k + 1][..k] == projection[..k];
      outPos := outPos[projection[k] := k];
      k := k + 1;
    }
    assert projection[..|projection|] == projection;
  }

  lemma {:induction false} RowFails(schema: Schema, b: Bytes, k: nat, n: nat)
    requires k <= n <= |schema|
    ensures ParseRow(schema[..k], b, 0).Fail? ==> ParseRow(schema[..n], b, 0).Fail?
  {
    if k < n {
      RowFails(schema, b, k, n - 1);
      assert schema[..n][..n - 1] == schema[..n - 1];
    }
  }

  lemma ReceivedNext(projection: seq<int>, row: Row, v: Value, j: nat)
    requires j < |projection|
    ensures Received(projection, row + [v], j) ==
      Received(projection, row, j) + if j == OutPos(projection, |row|) then [v] else []
  {
    hide OutPos;
    OutPosNames(projection, |row|);
  }

  function Extended(columns: seq<Column>, k: int, v: Value): seq<Column>
    requires -1 <= k < |columns|
  {
    if k >= 0 then columns[k := Column(columns[k].ty, columns[k].cells + [v])] else columns
  }

  lemma AppendNext(columns: seq<Column>, projection: seq<int>, row: Row, v: Value)
    requires |columns| == |projection|
    ensures var k := OutPos(projection, |row|);
      && -1 <= k < |columns|
      && AppendRow(columns, projection, row + [v]) == Extended(AppendRow(columns, projection, row), k, v)
  {
    hide Received, OutPos;
    OutPosNames(projection, |row|);
    var k := OutPos(projection, |row|);
    var after := AppendRow(columns, projection, row + [v]);
    var want := Extended(AppendRow(columns, projection, row), k, v);
    forall j | 0 <= j < |columns|
      ensures after[j] == want[j]
    {
      ReceivedNext(projection, row, v, j);
      assert after[j].cells == want[j].cells;
    }
  }

  /** Read one packed row and append the projected cells to their columns. */
  method DecodeInto(schema: Schema, blob: Bytes, projection: seq<int>, columns: seq<Column>)
    returns (r: Option<seq<Column>>)
    requires |columns| == |projection| && forall k :: 0 <= k < |projection| ==> 0 <= projection[k] < |schema|
    ensures ParseRow(schema, blob, 0).Fail? ==> r == None
    ensures ParseRow(schema, blob, 0).Got? ==>
      r == Some(AppendRow(columns, projection, ParseRow(schema, blob, 0).value))
  {
    hide ParseCell, Received, OutPos;
    var outPos := OutPositions(|schema|, projection);
    var cols, off, i := columns, 0, 0;
    ghost var row: Row := [];
    assert cols == AppendRow(columns, projection, []) by { NothingReceived(columns, projection); }
    while i < |schema|
      invariant i <= |schema| && ParseRow(schema[..i], blob, 0) == Got(row, off) && |row| == i
      invariant cols == AppendRow(columns, projection, row)
    {
      assert schema[..i + 1][..i] == schema[..i];
      RowFails(schema, blob, i + 1, |schema|);
      assert schema[..|schema|] == schema;
      var cell := ParseCell(blob, off, schema[i].ty);
      if cell.Fail? {
        return None;
      }
      AppendNext(columns, projection, row, cell.value);
      if outPos[i] >= 0 {
        var k := outPos[i];
        cols := cols[k := Column(cols[k].ty, cols[k].cells + [cell.value])];
      }
      row := row + [cell.value];
      off := cell.next;
      i := i + 1;
    }
    assert schema[..|schema|] == schema;
    return Some(cols);
  }

  lemma NothingReceived(columns: seq<Column>, projection: seq<int>)
    requires |columns| == |projection|
    ensures AppendRow(columns, projection, []) == columns
  {
    forall k | 0 <= k < |columns|
      ensures AppendRow(columns, projection, [])[k] == columns[k]
    {
      assert columns[k].cells + [] == columns[k].cells;
    }
  }

  // ---------------------------------------------------------- encoding

  method CellsAt(columns: seq<Column>, r: nat) returns (row: Option<Row>)
    requires forall k :: 0 <= k < |columns| ==> r < |columns[k].cells|
    ensures row == if forall k :: 0 <= k < |columns| ==> columns[k].ty != Invalid then Some(RowAt(columns, r)) else None
  {
    var values, k := [], 0;
    while k < |columns|
      invariant k <= |columns| && values == RowAt(columns[..k], r)
      invariant forall j :: 0 <= j < k ==> columns[j].ty != Invalid
    {
      if columns[k].ty == Invalid {
        return None;
      }
      assert columns[..k + 1][..k] == columns[..k];
      values := values + [columns[k].cells[r]];
      k := k + 1;
    }
    assert columns[..|columns|] == columns;
    return Some(values);
  }

  /** One row of a full chunk, packed and appended to the payload. */
  method WriteRow(payload: Writer, schema: Schema, chunk: Chunk, r: nat) returns (done: Option<()>)
    requires IsFullSchemaChunk(chunk, schema) && Typed(chunk) && r < chunk.rowCount
    modifies payload
    ensures done.Some? <==>
      (forall k :: 0 <= k < |schema| ==> schema[k].ty != Invalid) && StrOk(RowBlob(schema, Rows(chunk)[r]))
    ensures done.Some? ==> payload.bytes == old(payload.bytes) + Str(RowBlob(schema, Rows(chunk)[r]))
  {
    hide Str, RowAt, RowBytes, RowTyped, Typed;
    ChunkRowTyped(schema, chunk, r);
    var values :- CellsAt(chunk.columns, r);
    assert forall k :: 0 <= k < |schema| ==> schema[k].ty == chunk.columns[k].ty != Invalid;
    TypedCells(schema, values);
    var blob := EncodeRow(schema, values);
    done := payload.String(blob.value);
  }

  lemma TypedCells(schema: Schema, row: Row)
    requires RowTyped(schema, row)
    ensures |row| == |schema| && forall i :: 0 <= i < |row| ==> HasType(row[i], schema[i].ty)
  {
  }

  method EncodeChunk(schema: Schema, chunk: Chunk) returns (entry: Option<Bytes>)
    requires Typed(chunk)
    ensures entry.Some? <==> ChunkOk(schema, chunk)
    ensures entry.Some? ==> entry.value == RawEntry(RawOf(schema, chunk))
  {
    hide Str, U32, RowBlob, Typed, IsFullSchemaChunk, StrOk, Rows;
    if !IsFullSchemaChunk(chunk, schema) || chunk.rowCount > MAX_U32 {
      return None;
    }
    var payload := new Writer();
    ghost var blobs := Pack(schema, Rows(chunk));
    SomeRow(schema, chunk);
    var row := 0;
    while row < chunk.rowCount
      invariant row <= chunk.rowCount && payload.bytes == EncList(Str, blobs[..row])
      invariant row > 0 ==> forall k :: 0 <= k < |schema| ==> schema[k].ty != Invalid
      invariant forall r :: 0 <= r < row ==> StrOk(RowBlob(schema, Rows(chunk)[r]))
    {
      var _ :- WriteRow(payload, schema, chunk, row);
      EncListNext(Str, blobs, row);
      row := row + 1;
    }
    assert blobs[..chunk.rowCount] == blobs;
    var out := new Writer();
    out.U32(chunk.rowCount % 0x1_0000_0000);
    out.U32(|payload.bytes| % 0x1_0000_0000);
    out.Raw(payload.bytes);
    ghost var raw := RawOf(schema, chunk);
    Join3([], U32(raw.rows), U32(|raw.payload| % 0x1_0000_0000), raw.payload);
    assert [] + RawEntry(raw) == RawEntry(raw);
    return Some(out.bytes);
  }

  lemma SomeRow(schema: Schema, chunk: Chunk)
    requires IsFullSchemaChunk(chunk, schema)
    ensures chunk.rowCount > 0
  {
  }

  lemma NextTotals(h: Hashes, raws: seq<RawChunk>, i: nat)
    requires i < |raws|
    ensures RowTotal(raws[..i + 1]) == RowTotal(raws[..i]) + raws[i].rows
    ensures EncList(RawEntry, raws[..i + 1]) == EncList(RawEntry, raws[..i]) + RawEntry(raws[i])
    ensures EncList(RawChunkBytes(h), raws[..i + 1]) == EncList(RawChunkBytes(h), raws[..i]) + Sealed(h, raws[i])
  {
    assert raws[..i + 1][..i] == raws[..i];
  }

  lemma NoTotals(h: Hashes)
    ensures RowTotal([]) == 0 && EncList(RawEntry, []) == [] && EncList(RawChunkBytes(h), []) == []
  {
  }

  method WriteChunk(h: Hashes, schema: Schema, chunk: Chunk, w: Writer, logical: Writer) returns (r: Option<()>)
    requires Typed(chunk) && w != logical
    modifies w, logical
    ensures r.Some? <==> ChunkOk(schema, chunk)
    ensures r.Some? ==>
      && w.bytes == old(w.bytes) + Sealed(h, RawOf(schema, chunk)) && RawOf(schema, chunk).rows == chunk.rowCount
      && logical.bytes == old(logical.bytes) + RawEntry(RawOf(schema, chunk))
  {
    hide U32, RawEntry, RawOf, ChunkOk, Typed;
    var entry :- EncodeChunk(schema, chunk);
    w.Raw(entry);
    w.U32(h.crc(entry));
    logical.Raw(entry);
    RawCount(schema, chunk);
    Join(old(w.bytes), entry, U32(h.crc(entry)));
    return Some(());
  }

  /** Entry by entry into the object, with its checksum, and into the digested bytes, without. */
  method WriteChunks(h: Hashes, schema: Schema, wal: Wal, w: Writer, logical: Writer) returns (total: Option<nat>)
    requires AllTyped(wal.chunks) && w != logical && |wal.chunks| <= MAX_U32
    modifies w, logical
    ensures total.Some? <==> forall k :: 0 <= k < |wal.chunks| ==> ChunkOk(schema, wal.chunks[k])
    ensures total.Some? ==>
      && total.value == RowTotal(RawsOf(schema, wal.chunks))
      && w.bytes == old(w.bytes) + EncList(RawChunkBytes(h), RawsOf(schema, wal.chunks))
      && logical.bytes == old(logical.bytes) + EncList(RawEntry, RawsOf(schema, wal.chunks))
  {
    hide RawEntry, RawOf, ChunkOk, Typed, EncList, RowTotal, Sealed;
    ghost var raws := RawsOf(schema, wal.chunks);
    NoTotals(h);
    assert raws[..0] == [];
    var n, i := 0, 0;
    while i < |wal.chunks|
      invariant i <= |wal.chunks| && forall k :: 0 <= k < i ==> ChunkOk(schema, wal.chunks[k])
      invariant n == RowTotal(raws[..i])
      invariant w.bytes == old(w.bytes) + EncList(RawChunkBytes(h), raws[..i])
      invariant logical.bytes == old(logical.bytes) + EncList(RawEntry, raws[..i])
    {
      var _ :- WriteChunk(h, schema, wal.chunks[i], w, logical);
      n := n + wal.chunks[i].rowCount;
      NextTotals(h, raws, i);
      Join(old(w.bytes), EncList(RawChunkBytes(h), raws[..i]), Sealed(h, raws[i]));
      Join(old(logical.bytes), EncList(RawEntry, raws[..i]), RawEntry(raws[i]));
      i := i + 1;
    }
    assert raws[..|raws|] == raws;
    return Some(n);
  }

  lemma HeadJoins(w: RawWal)
    requires StrsOk(w.batchIds)
    ensures Header(Magic("DBW2")) + [KindByte(w.kind)] + Str(w.tableId) + U64(w.seqNo) + U64(w.epoch)
            + U64(w.schemaVersion) + Str(w.operationId) + Strs(w.batchIds) + U32(|w.chunks| % 0x1_0000_0000) == Head(w)
  {
    hide Header, Magic, Str, Strs, U64, U32;
    var a := Header(Magic("DBW2"));
    var b := a + [KindByte(w.kind)] + Str(w.tableId);
    Join3(b, U64(w.seqNo), U64(w.epoch), U64(w.schemaVersion));
    Join3(b + Identity(w), Str(w.operationId), Strs(w.batchIds), U32(|w.chunks| % 0x1_0000_0000));
    Join(b, Identity(w), Names(w));
    Join3(a, [KindByte(w.kind)], Str(w.tableId), Identity(w) + Names(w));
  }

  method WriteHead(w: Writer, wal: Wal, ghost schema: Schema) returns (r: Option<()>)
    requires w.bytes == [] && |wal.chunks| <= MAX_U32
    modifies w
    ensures r.Some? <==> StrOk(wal.tableId) && StrOk(wal.operationId) && StrsOk(wal.batchIds)
    ensures r.Some? ==> w.bytes == Head(RawWalOf(schema, wal))
  {
    hide Str, Strs, StrsOk, StrOk, U32, U64, Header, Magic, Head;
    w.Header(Magic("DBW2"));
    assert w.bytes == Header(Magic("DBW2"));
    w.U8(KindByte(wal.kind));
    var _ :- w.String(wal.tableId);
    w.U64(wal.seqNo);
    w.U64(wal.epoch);
    w.U64(wal.schemaVersion);
    var _ :- w.String(wal.operationId);
    var _ :- w.Strings(wal.batchIds);
    w.U32(|wal.chunks|);
    HeadJoins(RawWalOf(schema, wal));
    return Some(());
  }

  /** Row total, digest, checksum of everything so far, closing magic. */
  method WriteTail(h: Hashes, ghost raw: RawWal, w: Writer, logical: Bytes, total: nat)
    requires StrsOk(raw.batchIds) && total == RowTotal(raw.chunks)
    requires w.bytes == Head(raw) + EncList(RawChunkBytes(h), raw.chunks)
    requires logical == Logical(raw.schemaVersion, raw.batchIds, raw.chunks)
    modifies w
    ensures w.bytes == RawWalBytes(h, raw)
  {
    hide StrsOk, U32, U64, Magic, Head, EncList, RowTotal, Logical;
    w.U64(total % 0x1_0000_0000_0000_0000);
    var digest := h.sha(logical);
    w.Raw(digest);
    Join3(Head(raw), EncList(RawChunkBytes(h), raw.chunks), U64(total % 0x1_0000_0000_0000_0000), digest);
    assert w.bytes == Body(h, raw);
    w.U32(h.crc(w.bytes));
    w.Raw(Magic("DBW2"));
    Join(Body(h, raw), U32(h.crc(Body(h, raw))), Magic("DBW2"));
  }

  lemma LogicalJoins(version: u64, ids: seq<Bytes>, raws: seq<RawChunk>)
    requires StrsOk(ids)
    ensures [] + U64(version) + Strs(ids) + EncList(RawEntry, raws) == Logical(version, ids, raws)
  {
    hide U64, Strs, EncList;
    Join3([], U64(version), Strs(ids), EncList(RawEntry, raws));
  }

  method EncodeSequentialWal(h: Hashes, schema: Schema, wal: Wal) returns (r: Option<Bytes>)
    requires AllTyped(wal.chunks)
    ensures r == EncodeWal(h, schema, wal)
  {
    hide Strs, StrsOk, U64, ChunkOk, RawsOf, EncList, Typed, RowTotal, Head, RawWalBytes;
    if wal.tableId == [] || wal.seqNo == 0 || wal.epoch == 0 || wal.operationId == [] {
      return None;
    }
    if wal.kind == Append && (wal.batchIds == [] || wal.chunks == []) {
      return None;
    }
    if wal.kind == Fence && (wal.batchIds != [] || wal.chunks != []) {
      return None;
    }
    if wal.schemaVersion != 1 || |wal.chunks| > MAX_U32 {
      return None;
    }
    ghost var raw := RawWalOf(schema, wal);
    var w := new Writer();
    var _ :- WriteHead(w, wal, schema);
    var logical := new Writer();
    logical.U64(wal.schemaVersion);
    var _ := logical.Strings(wal.batchIds);
    var total :- WriteChunks(h, schema, wal, w, logical);
    LogicalJoins(wal.schemaVersion, wal.batchIds, raw.chunks);
    WriteTail(h, raw, w, logical.bytes, total);
    return Some(w.bytes);
  }

  // ---------------------------------------------------------- decoding

  lemma {:induction false} OutPosOfIds(n: nat, k: nat)
    requires k < n
    ensures OutPos(Ids(n), k) == k
  {
    assert Ids(n)[..n - 1] == Ids(n - 1);
    if k < n - 1 {
      OutPosOfIds(n - 1, k);
    }
  }

  lemma ColumnsGrow(schema: Schema, rows: seq<Row>, row: Row)
    requires |row| == |schema|
    ensures |ColumnsOf(schema, rows)| == |Ids(|schema|)|
    ensures ColumnsOf(schema, rows + [row]) == AppendRow(ColumnsOf(schema, rows), Ids(|schema|), row)
  {
    var before, after := ColumnsOf(schema, rows), ColumnsOf(schema, rows + [row]);
    forall k | 0 <= k < |schema|
      ensures after[k] == AppendRow(before, Ids(|schema|), row)[k]
    {
      OutPosOfIds(|schema|, k);
      assert after[k].cells == before[k].cells + [row[k]];
    }
  }

  /** A list that parses shows the same items to a shorter reading. */
  lemma {:induction false} ListPrefix<T>(parse: (Bytes, nat) -> Parsed<T>, b: Bytes, p: nat, k: nat, n: nat)
    requires k <= n && ParseList(parse, b, p, n).Got?
    ensures |ParseList(parse, b, p, n).value| == n
    ensures ParseList(parse, b, p, k).Got? && ParseList(parse, b, p, k).value == ParseList(parse, b, p, n).value[..k]
  {
    if n != 0 {
      ListPrefix(parse, b, p, if k < n then k else k - 1, n - 1);
    }
  }

  lemma {:induction false} RowsFail(schema: Schema, blobs: seq<Bytes>, k: nat)
    requires k <= |blobs|
    ensures RowsOf(schema, blobs[..k]).None? ==> RowsOf(schema, blobs).None?
  {
    if k < |blobs| {
      assert blobs[..|blobs| - 1][..k] == blobs[..k];
      RowsFail(schema, blobs[..|blobs| - 1], k);
    } else {
      assert blobs[..k] == blobs;
    }
  }

  lemma {:induction false} ChunksFail(schema: Schema, raws: seq<RawChunk>, k: nat)
    requires k <= |raws|
    ensures ChunksOf(schema, raws[..k]).None? ==> ChunksOf(schema, raws).None?
  {
    hide ChunkOf;
    if k < |raws| {
      assert raws[..|raws| - 1][..k] == raws[..k];
      ChunksFail(schema, raws[..|raws| - 1], k);
    } else {
      assert raws[..k] == raws;
    }
  }

  /** A row that does not parse condemns the chunk. */
  lemma BadRow(schema: Schema, raw: RawChunk, k: nat, blobs: seq<Bytes>, q: nat)
    requires k < raw.rows && ParseList(ParseStr, raw.payload, 0, k + 1) == Got(blobs, q)
    requires RowsOf(schema, blobs).None?
    ensures ChunkOf(schema, raw).None?
  {
    hide ParseStr, RowsOf, ParseList;
    var all := ParseList(ParseStr, raw.payload, 0, raw.rows);
    if all.Got? {
      ListPrefix(ParseStr, raw.payload, 0, k + 1, raw.rows);
      RowsFail(schema, all.value, k + 1);
    }
  }

  lemma NextBlob(b: Bytes, k: nat, blobs: seq<Bytes>, p: nat)
    requires ParseList(ParseStr, b, 0, k) == Got(blobs, p)
    ensures ParseStr(b, p).Fail? ==> ParseList(ParseStr, b, 0, k + 1).Fail?
    ensures ParseStr(b, p).Got? ==>
      ParseList(ParseStr, b, 0, k + 1) == Got(blobs + [ParseStr(b, p).value], ParseStr(b, p).next)
  {
  }

  lemma NextRow(schema: Schema, blobs: seq<Bytes>, rows: seq<Row>, blob: Bytes)
    requires RowsOf(schema, blobs) == Some(rows)
    ensures ParseRow(schema, blob, 0).Fail? ==> RowsOf(schema, blobs + [blob]).None?
    ensures ParseRow(schema, blob, 0).Got? ==>
      RowsOf(schema, blobs + [blob]) == Some(rows + [ParseRow(schema, blob, 0).value])
  {
    assert (blobs + [blob])[..|blobs|] == blobs;
  }

  /** The rows of one payload, straight into columns. */
  method DecodeRows(schema: Schema, rows: u32, payload: Bytes) returns (r: Option<Chunk>)
    ensures r == ChunkOf(schema, RawChunk(rows, payload))
    ensures r.Some? ==> r.value.rowCount == rows
  {
    hide ParseStr, RowsOf, ParseList, ParseRow, AppendRow;
    var reader := new Reader(payload);
    var columns := seq(|schema|, k requires 0 <= k < |schema| => Column(schema[k].ty, []));
    ghost var blobs: seq<Bytes>, done: seq<Row> := [], [];
    NothingParsed(schema, payload);
    assert columns == ColumnsOf(schema, []);
    var row := 0;
    while row < rows
      invariant row <= rows && reader.Valid() && ParseList(ParseStr, payload, 0, row) == Got(blobs, reader.pos)
      invariant RowsOf(schema, blobs) == Some(done) && columns == ColumnsOf(schema, done)
    {
      NextBlob(payload, row, blobs, reader.pos);
      ListFails(ParseStr, payload, 0, row + 1, rows);
      var blob :- reader.String();
      NextRow(schema, blobs, done, blob);
      var next := DecodeInto(schema, blob, Ids(|schema|), columns);
      if next.None? {
        BadRow(schema, RawChunk(rows, payload), row, blobs + [blob], reader.pos);
        return None;
      }
      ParsedRowTyped(schema, blob, 0);
      ColumnsGrow(schema, done, ParseRow(schema, blob, 0).value);
      blobs, done := blobs + [blob], done + [ParseRow(schema, blob, 0).value];
      columns := next.value;
      row := row + 1;
    }
    if reader.pos != |payload| {
      return None;
    }
    return Some(Chunk(Ids(|schema|), columns, rows));
  }

  lemma NothingParsed(schema: Schema, b: Bytes)
    ensures ParseList(ParseStr, b, 0, 0) == Got([], 0) && RowsOf(schema, []) == Some([])
    ensures forall k :: 0 <= k < |schema| ==> ColumnsOf(schema, [])[k] == Column(schema[k].ty, [])
  {
    forall k | 0 <= k < |schema|
      ensures ColumnsOf(schema, [])[k].cells == []
    {
    }
  }

  /** One chunk: its size fields, payload and checksum, then its rows. */
  method ReadChunk(h: Hashes, schema: Schema, reader: Reader) returns (r: Option<(Bytes, Chunk)>)
    requires reader.Valid()
    modifies reader
    ensures reader.Valid()
    ensures r.Some? <==>
      var c := ParseSealed(h, reader.data, old(reader.pos)); c.Got? && ChunkOf(schema, c.value).Some?
    ensures r.Some? ==>
      var c := ParseSealed(h, reader.data, old(reader.pos));
      && reader.pos == c.next && r.value == (RawEntry(c.value), ChunkOf(schema, c.value).value)
      && r.value.1.rowCount == c.value.rows
  {
    hide ParseU32, U32, ChunkOf;
    var rows :- reader.U32();
    if rows == 0 {
      return None;
    }
    var size :- reader.U32();
    var payload :- reader.Raw(size);
    var entry := new Writer();
    entry.U32(rows);
    entry.U32(size);
    entry.Raw(payload);
    Join3([], U32(rows), U32(size), payload);
    assert |payload| == size;
    assert [] + RawEntry(RawChunk(rows, payload)) == RawEntry(RawChunk(rows, payload));
    var crc :- reader.U32();
    if crc != h.crc(entry.bytes) {
      return None;
    }
    var chunk :- DecodeRows(schema, rows, payload);
    return Some((entry.bytes, chunk));
  }

  method ReadHead(reader: Reader) returns (r: Option<HeadFields>)
    requires reader.pos == 0
    modifies reader
    ensures reader.Valid() && r == ParseHead(reader.data).Value()
    ensures r.Some? ==> reader.pos == ParseHead(reader.data).next
  {
    hide ParseHeader, ParseStr, ParseStrs, ParseU64, ParseU32, Magic;
    MagicSize("DBW2");
    var _ :- reader.Header(Magic("DBW2"));
    var kind :- reader.U8();
    if kind != 1 && kind != 2 {
      return None;
    }
    var id :- reader.String();
    var n :- reader.U64();
    var epoch :- reader.U64();
    var version :- reader.U64();
    var op :- reader.String();
    var ids :- reader.Strings();
    var count :- reader.U32();
    return Some(HeadFields(if kind == 1 then Append else Fence, id, n, epoch, version, op, ids, count));
  }

  lemma NextRaw(h: Hashes, b: Bytes, start: nat, k: nat, raws: seq<RawChunk>, p: nat)
    requires ParseList(ParseRawChunk(h), b, start, k) == Got(raws, p)
    ensures ParseSealed(h, b, p).Fail? ==> ParseList(ParseRawChunk(h), b, start, k + 1).Fail?
    ensures ParseSealed(h, b, p).Got? ==>
      ParseList(ParseRawChunk(h), b, start, k + 1) ==
        Got(raws + [ParseSealed(h, b, p).value], ParseSealed(h, b, p).next)
  {
    hide ParseSealed;
  }

  lemma NextChunk(schema: Schema, raws: seq<RawChunk>, chunks: seq<Chunk>, raw: RawChunk)
    requires ChunksOf(schema, raws) == Some(chunks)
    ensures ChunkOf(schema, raw).None? ==> ChunksOf(schema, raws + [raw]).None?
    ensures ChunkOf(schema, raw).Some? ==> ChunksOf(schema, raws + [raw]) == Some(chunks + [ChunkOf(schema, raw).value])
  {
    hide ChunkOf;
    assert (raws + [raw])[..|raws|] == raws;
  }

  /** What the raw chunks of an object amount to: none, unless all parse and all their rows do. */
  ghost function ChunksIn(h: Hashes, schema: Schema, b: Bytes, p: nat, n: nat): Option<(seq<RawChunk>, nat,
    seq<Chunk>)> {
    match ParseList(ParseRawChunk(h), b, p, n)
    case Fail => None
    case Got(raws, q) =>
      match ChunksOf(schema, raws)
      case None => None
      case Some(cs) => Some((raws, q, cs))
  }

  lemma ChunksInFail(h: Hashes, schema: Schema, b: Bytes, p: nat, k: nat, n: nat)
    requires k <= n
    ensures ChunksIn(h, schema, b, p, k).None? ==> ChunksIn(h, schema, b, p, n).None?
  {
    hide ChunksOf, ParseList, ParseRawChunk;
    var all := ParseList(ParseRawChunk(h), b, p, n);
    if all.Got? {
      ListPrefix(ParseRawChunk(h), b, p, k, n);
      ChunksFail(schema, all.value, k);
    }
  }

  lemma ChunksInNext(h: Hashes, schema: Schema, b: Bytes, p: nat, k: nat, raws: seq<RawChunk>, q: nat, cs: seq<Chunk>)
    requires ChunksIn(h, schema, b, p, k) == Some((raws, q, cs))
    ensures var c := ParseSealed(h, b, q);
      ChunksIn(h, schema, b, p, k + 1) ==
        if c.Got? && ChunkOf(schema, c.value).Some?
        then Some((raws + [c.value], c.next, cs + [ChunkOf(schema, c.value).value])) else None
  {
    hide ChunksOf, ParseList, ParseRawChunk, ParseSealed, ChunkOf;
    NextRaw(h, b, p, k, raws, q);
    var c := ParseSealed(h, b, q);
    if c.Got? {
      NextChunk(schema, raws, cs, c.value);
    }
  }

  lemma TotalsSnoc(raws: seq<RawChunk>, c: RawChunk)
    ensures RowTotal(raws + [c]) == RowTotal(raws) + c.rows
    ensures EncList(RawEntry, raws + [c]) == EncList(RawEntry, raws) + RawEntry(c)
  {
    assert (raws + [c])[..|raws|] == raws;
  }

  method ReadChunks(h: Hashes, schema: Schema, reader: Reader, logical: Writer, count: u32)
    returns (r: Option<(nat, seq<Chunk>)>, ghost raws: seq<RawChunk>)
    requires reader.Valid()
    modifies reader, logical
    ensures reader.Valid()
    ensures r.Some? <==> ChunksIn(h, schema, reader.data, old(reader.pos), count).Some?
    ensures r.Some? ==>
      && ChunksIn(h, schema, reader.data, old(reader.pos), count) == Some((raws, reader.pos, r.value.1))
      && r.value.0 == RowTotal(raws) && logical.bytes == old(logical.bytes) + EncList(RawEntry, raws)
  {
    hide ChunksIn, ParseSealed, ChunkOf, RawEntry, RowTotal, EncList;
    raws := [];
    NoTotals(h);
    var total, chunks, i := 0, [], 0;
    NoChunks(h, schema, reader.data, reader.pos);
    while i < count
      invariant i <= count && reader.Valid() && total == RowTotal(raws)
      invariant ChunksIn(h, schema, reader.data, old(reader.pos), i) == Some((raws, reader.pos, chunks))
      invariant logical.bytes == old(logical.bytes) + EncList(RawEntry, raws)
    {
      ChunksInNext(h, schema, reader.data, old(reader.pos), i, raws, reader.pos, chunks);
      ChunksInFail(h, schema, reader.data, old(reader.pos), i + 1, count);
      ghost var c := ParseSealed(h, reader.data, reader.pos);
      var next := ReadChunk(h, schema, reader);
      if next.None? {
        return None, raws;
      }
      var (entry, chunk) := next.value;
      logical.Raw(entry);
      TotalsSnoc(raws, c.value);
      Join(old(logical.bytes), EncList(RawEntry, raws), entry);
      raws := raws + [c.value];
      chunks := chunks + [chunk];
      total := total + chunk.rowCount;
      i := i + 1;
    }
    return Some((total, chunks)), raws;
  }

  lemma NoChunks(h: Hashes, schema: Schema, b: Bytes, p: nat)
    ensures ChunksIn(h, schema, b, p, 0) == Some(([], p, []))
  {
  }

  /** Row total, digest, exactly eight closing bytes, checksum of the rest, closing magic. */
  method ReadTail(h: Hashes, reader: Reader, ghost w: RawWal, logical: Bytes, total: nat) returns (r: Option<Digest>)
    requires reader.Valid() && StrsOk(w.batchIds) && total == RowTotal(w.chunks)
    requires logical == Logical(w.schemaVersion, w.batchIds, w.chunks)
    modifies reader
    ensures r == if TailOk(h, reader.data, old(reader.pos), w) then Some(h.sha(logical)) else None
  {
    hide ParseU64, ParseU32, Logical, RowTotal, StrsOk, Magic;
    ParseU64Next(reader.data, reader.pos);
    var sum :- reader.U64();
    if sum != total % 0x1_0000_0000_0000_0000 {
      return None;
    }
    var digest :- reader.Raw(32);
    if digest != h.sha(logical) {
      return None;
    }
    if reader.Left() != 8 {
      return None;
    }
    ParseU32Next(reader.data, reader.pos);
    var crc :- reader.U32();
    if crc != h.crc(reader.data[..|reader.data| - 8]) {
      return None;
    }
    MagicSize("DBW2");
    var _ :- reader.Magic(Magic("DBW2"));
    return Some(digest);
  }

  lemma HeadIdsOk(b: Bytes)
    requires ParseHead(b).Got?
    ensures StrsOk(ParseHead(b).value.batchIds)
  {
    hide ParseHeader, ParseStr, ParseU64, ParseU32, Magic, StrsOk, ParseStrs;
    forall p: nat | ParseStrs(b, p).Got?
      ensures StrsOk(ParseStrs(b, p).value)
    {
      StrsRead(b, p);
    }
  }

  /** Accepted containers have readable sizes, so only the contents remain to be checked. */
  predicate ContentsOk(w: RawWal) {
    && w.tableId != [] && w.seqNo != 0 && w.epoch != 0 && w.operationId != []
    && (if w.kind.Append? then w.batchIds != [] && w.chunks != [] else w.batchIds == [] && w.chunks == [])
  }

  lemma ContentsSuffice(h: Hashes, b: Bytes, raws: seq<RawChunk>)
    requires ParseHead(b).Got? && ParseHead(b).value.count <= MAX_CHUNKS
    requires ParseList(ParseRawChunk(h), b, ParseHead(b).next, ParseHead(b).value.count).Got?
    requires raws == ParseList(ParseRawChunk(h), b, ParseHead(b).next, ParseHead(b).value.count).value
    ensures var w := Assemble(ParseHead(b).value, raws); RawWalOk(w) <==> ContentsOk(w)
  {
    hide ParseHead, ParseList, Inverse, ReadsBack, EncList, At, StrsOk, RawChunkOk, StrOk;
    var f := ParseHead(b).value;
    HeadInside(b);
    RawChunkInverse(h);
    ListRead(RawChunkBytes(h), ParseRawChunk(h), RawChunkOk, b, ParseHead(b).next, f.count);
    var w := Assemble(f, raws);
    assert |raws| == f.count;
    HeadRead(b, w);
    WellSized(w);
  }

  lemma WellSized(w: RawWal)
    requires SizesOk(w)
    ensures |w.tableId| <= MAX_U32 && |w.operationId| <= MAX_U32
  {
  }

  method DecodeSequentialWal(h: Hashes, schema: Schema, b: Bytes) returns (r: Option<Wal>)
    ensures r == DecodeWal(h, schema, b)
  {
    hide ParseHead, ChunksIn, TailOk, Logical, StrsOk, RawWalOk, ParseList, ChunksOf, RawEntry, RowTotal, Strs, U64,
      EncList, ParseRawChunk;
    var reader := new Reader(b);
    var f :- ReadHead(reader);
    if f.count > MAX_CHUNKS {
      return None;
    }
    HeadIdsOk(b);
    var logical := new Writer();
    logical.U64(f.schemaVersion);
    var _ := logical.Strings(f.batchIds);
    ghost var p := reader.pos;
    var chunks, raws := ReadChunks(h, schema, reader, logical, f.count);
    SameChunks(h, schema, b, p, f.count);
    if chunks.None? {
      return None;
    }
    ghost var raw := Assemble(f, raws);
    LogicalJoins(f.schemaVersion, f.batchIds, raws);
    var digest :- ReadTail(h, reader, raw, logical.bytes, chunks.value.0);
    ContentsSuffice(h, b, raws);
    SameCount(schema, raws);
    if f.tableId == [] || f.seqNo == 0 || f.epoch == 0 || f.operationId == []
       || (f.kind == Append && (f.batchIds == [] || chunks.value.1 == []))
       || (f.kind == Fence && (f.batchIds != [] || chunks.value.1 != []))
    {
      return None;
    }
    return Some(Wal(f.kind, f.tableId, f.seqNo, f.epoch, f.schemaVersion, f.operationId, f.batchIds, chunks.value.1,
      digest));
  }

  lemma SameChunks(h: Hashes, schema: Schema, b: Bytes, p: nat, n: nat)
    ensures ChunksIn(h, schema, b, p, n).None? <==>
      var l := ParseList(ParseRawChunk(h), b, p, n); l.Fail? || ChunksOf(schema, l.value).None?
    ensures ChunksIn(h, schema, b, p, n).Some? ==>
      var l := ParseList(ParseRawChunk(h), b, p, n);
      ChunksIn(h, schema, b, p, n).value == (l.value, l.next, ChunksOf(schema, l.value).value)
  {
    hide ParseList, ChunksOf, ParseRawChunk;
  }

  lemma SameCount(schema: Schema, raws: seq<RawChunk>)
    requires ChunksOf(schema, raws).Some?
    ensures ChunksOf(schema, raws).value == [] <==> raws == []
  {
    hide ChunkOf;
    ChunksRead(schema, raws);
  }
}
