/** WAL objects as the protocol sees them: batches of rows in column-major chunks, over the DBW2 container. */
module WalRows {
  import opened Table
  import opened ByteFormat
  import opened ObjectCodec
  import opened RowCodec
  import opened WalCodec

  datatype Wal = Wal(kind: Kind, tableId: Bytes, seqNo: u64, epoch: u64, schemaVersion: u64,
                     operationId: Bytes, batchIds: seq<Bytes>, chunks: seq<Chunk>, digest: Bytes)

  // ---------------------------------------------------------- encoding

  /** The packed row; a row that does not fit the schema packs to nothing and is refused beforehand. */
  function RowBlob(schema: Schema, row: Row): Bytes {
    if RowTyped(schema, row) then RowBytes(schema, row) else []
  }

  function Pack(schema: Schema, rows: seq<Row>): (bs: seq<Bytes>)
    ensures |bs| == |rows|
  {
    seq(|rows|, r requires 0 <= r < |rows| => RowBlob(schema, rows[r]))
  }

  predicate ChunkOk(schema: Schema, c: Chunk) {
    && IsFullSchemaChunk(c, schema) && c.rowCount <= MAX_U32
    && (forall k :: 0 <= k < |schema| ==> schema[k].ty != Invalid)
    && (forall r :: 0 <= r < c.rowCount ==> StrOk(RowBlob(schema, Rows(c)[r])))
  }

  /** Row count and payload size are cast to 32 bits, as the encoder does. */
  function RawOf(schema: Schema, c: Chunk): RawChunk {
    RawChunk(c.rowCount % 0x1_0000_0000, EncList(Str, Pack(schema, Rows(c))))
  }

  function RawsOf(schema: Schema, cs: seq<Chunk>): (raws: seq<RawChunk>)
    ensures |raws| == |cs|
  {
    seq(|cs|, i requires 0 <= i < |cs| => RawOf(schema, cs[i]))
  }

  function RawWalOf(schema: Schema, w: Wal): RawWal {
    RawWal(w.kind, w.tableId, w.seqNo, w.epoch, w.schemaVersion, w.operationId, w.batchIds, RawsOf(schema, w.chunks))
  }

  predicate WalOk(schema: Schema, w: Wal) {
    && w.tableId != [] && w.seqNo != 0 && w.epoch != 0 && w.operationId != []
    && (if w.kind.Append? then w.batchIds != [] && w.chunks != [] else w.batchIds == [] && w.chunks == [])
    && w.schemaVersion == 1
    && |w.tableId| <= MAX_U32 && |w.operationId| <= MAX_U32 && StrsOk(w.batchIds) && |w.chunks| <= MAX_U32
    && (forall i :: 0 <= i < |w.chunks| ==> ChunkOk(schema, w.chunks[i]))
  }

  function EncodeWal(h: Hashes, schema: Schema, w: Wal): Option<Bytes> {
    if WalOk(schema, w) then Some(RawWalBytes(h, RawWalOf(schema, w))) else None
  }

  /** The bytes that are hashed for a WAL's digest. */
  function DigestedBytes(schema: Schema, w: Wal): Bytes
    requires StrsOk(w.batchIds)
  {
    Logical(w.schemaVersion, w.batchIds, RawsOf(schema, w.chunks))
  }

  function DigestOf(h: Hashes, schema: Schema, w: Wal): Digest
    requires StrsOk(w.batchIds)
  {
    h.sha(DigestedBytes(schema, w))
  }

  // ---------------------------------------------------------- decoding

  function RowsOf(schema: Schema, blobs: seq<Bytes>): Option<seq<Row>> {
    if blobs == [] then Some([])
    else
      match RowsOf(schema, blobs[..|blobs| - 1])
      case None => None
      case Some(rows) =>
        match ParseRow(schema, blobs[|blobs| - 1], 0)
        case Fail => None
        case Got(row, _) => Some(rows + [row])
  }

  function Ids(n: nat): (ids: seq<int>)
    ensures |ids| == n && forall k :: 0 <= k < n ==> ids[k] == k
  {
    seq(n, k => k)
  }

  function ChunkOf(schema: Schema, raw: RawChunk): Option<Chunk> {
    match ParseList(ParseStr, raw.payload, 0, raw.rows)
    case Fail => None
    case Got(blobs, q) =>
      match RowsOf(schema, blobs)
      case None => None
      case Some(rows) =>
        if q == |raw.payload| then Some(Chunk(Ids(|schema|), ColumnsOf(schema, rows), raw.rows)) else None
  }

  function ChunksOf(schema: Schema, raws: seq<RawChunk>): Option<seq<Chunk>> {
    if raws == [] then Some([])
    else
      match ChunksOf(schema, raws[..|raws| - 1])
      case None => None
      case Some(cs) =>
        match ChunkOf(schema, raws[|raws| - 1])
        case None => None
        case Some(c) => Some(cs + [c])
  }

  function DecodeWal(h: Hashes, schema: Schema, b: Bytes): Option<Wal> {
    match DecodeRaw(h, b)
    case None => None
    case Some(w) =>
      match ChunksOf(schema, w.chunks)
      case None => None
      case Some(cs) =>
        if StrsOk(w.batchIds) then
          Some(Wal(w.kind, w.tableId, w.seqNo, w.epoch, w.schemaVersion, w.operationId, w.batchIds, cs,
                   h.sha(Logical(w.schemaVersion, w.batchIds, w.chunks))))
        else None
  }

  // ------------------------------------------------------ rows and columns

  /** The representation every in-memory chunk has: each column holds cells of its own type. */
  lemma ChunkRowTyped(schema: Schema, c: Chunk, r: nat)
    requires IsFullSchemaChunk(c, schema) && Typed(c) && r < c.rowCount
    ensures RowTyped(schema, RowAt(c.columns, r))
  {
    RowAtCells(c.columns, r);
    forall k | 0 <= k < |schema|
      ensures HasType(RowAt(c.columns, r)[k], schema[k].ty)
    {
      assert ColumnOk(c.columns[k]);
    }
  }

  predicate RowOk(schema: Schema, row: Row) {
    RowTyped(schema, row) && StrOk(RowBytes(schema, row))
  }

  lemma OneRowBack(schema: Schema, row: Row)
    requires RowOk(schema, row)
    ensures ParseRow(schema, RowBlob(schema, row), 0) == Got(row, |RowBlob(schema, row)|)
    ensures StrOk(RowBlob(schema, row))
  {
    hide RowBytes, ParseRow, RowTyped;
    AtWhole(RowBytes(schema, row));
    RowBack(schema, RowBytes(schema, row), 0, row);
  }

  lemma {:induction false} RowsBack(schema: Schema, rows: seq<Row>)
    requires forall r :: 0 <= r < |rows| ==> RowOk(schema, rows[r])
    ensures RowsOf(schema, Pack(schema, rows)) == Some(rows)
  {
    hide RowOk, RowBlob, ParseRow;
    if rows != [] {
      var n := |rows| - 1;
      RowsBack(schema, rows[..n]);
      assert Pack(schema, rows)[..n] == Pack(schema, rows[..n]);
      assert rows == rows[..n] + [rows[n]];
      OneRowBack(schema, rows[n]);
    }
  }

  lemma RowsAreOk(schema: Schema, c: Chunk)
    requires ChunkOk(schema, c) && Typed(c)
    ensures forall r :: 0 <= r < c.rowCount ==> RowOk(schema, Rows(c)[r])
  {
    hide RowAt, RowBytes, RowTyped, IsFullSchemaChunk, Typed;
    forall r | 0 <= r < c.rowCount
      ensures RowOk(schema, Rows(c)[r])
    {
      ChunkRowTyped(schema, c, r);
      assert StrOk(RowBlob(schema, Rows(c)[r]));
    }
  }

  lemma BlobsBack(schema: Schema, rows: seq<Row>)
    requires forall r :: 0 <= r < |rows| ==> RowOk(schema, rows[r])
    ensures var payload := EncList(Str, Pack(schema, rows));
      ParseList(ParseStr, payload, 0, |rows|) == Got(Pack(schema, rows), |payload|)
  {
    hide EncList, ParseList, Str, ParseStr, StrOk, RowOk, RowBlob, Inverse, ReadsBack, At;
    var blobs := Pack(schema, rows);
    StrInverse();
    forall r | 0 <= r < |rows|
      ensures StrOk(blobs[r])
    {
      OneRowBack(schema, rows[r]);
    }
    AtWhole(EncList(Str, blobs));
    ListBack(Str, ParseStr, StrOk, EncList(Str, blobs), 0, blobs);
  }

  lemma ChunkBack(schema: Schema, c: Chunk)
    requires ChunkOk(schema, c) && Typed(c)
    ensures ChunkOf(schema, RawOf(schema, c)) == Some(c)
  {
    hide EncList, ParseList, Str, ParseStr, RowsOf, RowOk, Pack, Rows, ColumnsOf, Typed, RowBlob, StrOk;
    RowsAreOk(schema, c);
    BlobsBack(schema, Rows(c));
    RowsBack(schema, Rows(c));
    ColumnsBack(schema, c);
    assert Ids(|schema|) == c.columnIds;
  }

  lemma {:induction false} ChunksBack(schema: Schema, cs: seq<Chunk>)
    requires forall i :: 0 <= i < |cs| ==> ChunkOk(schema, cs[i]) && Typed(cs[i])
    ensures ChunksOf(schema, RawsOf(schema, cs)) == Some(cs)
  {
    hide ChunkOk, Typed, ChunkOf, RawOf;
    if cs != [] {
      var n := |cs| - 1;
      ChunksBack(schema, cs[..n]);
      assert RawsOf(schema, cs)[..n] == RawsOf(schema, cs[..n]);
      ChunkBack(schema, cs[n]);
      assert cs == cs[..n] + [cs[n]];
    }
  }

  // ------------------------------------------------------- the round trip

  /** What the size fields can carry: payloads below 2^32 bytes. */
  predicate Fits(schema: Schema, cs: seq<Chunk>) {
    forall i :: 0 <= i < |cs| ==> |RawOf(schema, cs[i]).payload| <= MAX_U32
  }

  predicate AllTyped(cs: seq<Chunk>) {
    forall i :: 0 <= i < |cs| ==> Typed(cs[i])
  }

  lemma RawCount(schema: Schema, c: Chunk)
    requires ChunkOk(schema, c)
    ensures RawOf(schema, c).rows == c.rowCount != 0
  {
    hide StrOk;
  }

  lemma RawsAreOk(schema: Schema, w: Wal)
    requires WalOk(schema, w) && Fits(schema, w.chunks)
    ensures RawWalOk(RawWalOf(schema, w))
  {
    hide StrsOk, RawOf, ChunkOk;
    forall i | 0 <= i < |w.chunks|
      ensures RawChunkOk(RawsOf(schema, w.chunks)[i])
    {
      RawCount(schema, w.chunks[i]);
    }
  }

  /**
   * Decoding the encoding of a WAL of at most 1,000,000 chunks with payloads below 2^32 bytes returns it, with
   * the digest filled in, and encoding the result again gives the same bytes.
   */
  lemma WalRoundTrip(h: Hashes, schema: Schema, w: Wal)
    requires WalOk(schema, w) && AllTyped(w.chunks) && |w.chunks| <= MAX_CHUNKS && Fits(schema, w.chunks)
    ensures var b := EncodeWal(h, schema, w).value;
      var back := w.(digest := DigestOf(h, schema, w));
      DecodeWal(h, schema, b) == Some(back) && EncodeWal(h, schema, back) == Some(b)
  {
    hide ChunkOk, Typed, RawsOf, DecodeRaw, RawWalBytes, Logical, StrsOk, RawOf, ChunksOf, RawWalOk;
    RawsAreOk(schema, w);
    ContainerExact(h, EncodeWal(h, schema, w).value, RawWalOf(schema, w));
    ChunksBack(schema, w.chunks);
  }

  /** Past 1,000,000 chunks the encoder still writes, and nothing reads the object back. */
  lemma TooManyChunks(h: Hashes, schema: Schema, w: Wal)
    requires WalOk(schema, w) && |w.chunks| > MAX_CHUNKS
    ensures DecodeWal(h, schema, EncodeWal(h, schema, w).value) == None
  {
    hide ChunkOk, RawsOf, Head, ParseHead, StrsOk, EncList, ParseList, TailOk, At, RawWalBytes, RawWalOk;
    var raw, b := RawWalOf(schema, w), EncodeWal(h, schema, w).value;
    SplitWal(h, b, raw);
    HeadBack(b, raw);
  }

  // -------------------------------------------------------- the digest

  /** One entry without its checksum, as it stands in the digested bytes. */
  function ParseEntry(b: Bytes, p: nat): Parsed<RawChunk> {
    var (rows, q) :- ParseU32(b, p);
    var (size, r) :- ParseU32(b, q);
    var (payload, s) :- ParseRaw(b, r, size);
    Got(RawChunk(rows, payload), s)
  }

  lemma EntryBack(b: Bytes, p: nat, c: RawChunk)
    requires RawChunkOk(c) && At(b, p, RawEntry(c))
    ensures ParseEntry(b, p) == Got(c, p + |RawEntry(c)|)
  {
    hide U32, ParseU32, ParseRaw, At;
    var n := |c.payload|;
    AtSplit(b, p, U32(c.rows), U32(n) + c.payload);
    AtSplit(b, p + 4, U32(n), c.payload);
    ReadU32(b, p, c.rows);
    ReadU32(b, p + 4, n);
    ReadRaw(b, p + 8, c.payload);
  }

  lemma EntriesInjective(xs: seq<RawChunk>, ys: seq<RawChunk>)
    requires forall i :: 0 <= i < |xs| ==> RawChunkOk(xs[i])
    requires forall i :: 0 <= i < |ys| ==> RawChunkOk(ys[i])
    requires EncList(RawEntry, xs) == EncList(RawEntry, ys)
    ensures xs == ys
  {
    assert ReadsBack(RawEntry, ParseEntry, RawChunkOk) by {
      hide RawEntry, ParseEntry, RawChunkOk, At;
      forall c: RawChunk, b: Bytes, p: nat | RawChunkOk(c) && At(b, p, RawEntry(c))
        ensures ParseEntry(b, p) == Got(c, p + |RawEntry(c)|)
      {
        EntryBack(b, p, c);
      }
    }
    hide ReadsBack, ParseEntry, RawChunkOk, EncList;
    if |xs| <= |ys| {
      ListInjective(RawEntry, ParseEntry, RawChunkOk, xs, ys);
    } else {
      ListInjective(RawEntry, ParseEntry, RawChunkOk, ys, xs);
    }
  }

  lemma LogicalInjective(v: RawWal, w: RawWal)
    requires RawWalOk(v) && RawWalOk(w)
    requires Logical(v.schemaVersion, v.batchIds, v.chunks) == Logical(w.schemaVersion, w.batchIds, w.chunks)
    ensures v.schemaVersion == w.schemaVersion && v.batchIds == w.batchIds && v.chunks == w.chunks
  {
    hide U64, ParseU64, Strs, ParseStrs, EncList, At, StrsOk, RawChunkOk;
    var b := Logical(v.schemaVersion, v.batchIds, v.chunks);
    var x, y := EncList(RawEntry, v.chunks), EncList(RawEntry, w.chunks);
    AtWhole(b);
    AtSplit(b, 0, U64(v.schemaVersion), Strs(v.batchIds) + x);
    AtSplit(b, 0, U64(w.schemaVersion), Strs(w.batchIds) + y);
    ReadU64(b, 0, v.schemaVersion);
    ReadU64(b, 0, w.schemaVersion);
    AtSplit(b, 8, Strs(v.batchIds), x);
    AtSplit(b, 8, Strs(w.batchIds), y);
    ReadStrs(b, 8, v.batchIds);
    ReadStrs(b, 8, w.batchIds);
    assert x == b[8 + |Strs(v.batchIds)|..] == y;
    EntriesInjective(v.chunks, w.chunks);
  }

  predicate Collides(h: Hashes, x: Bytes, y: Bytes) {
    x != y && h.sha(x) == h.sha(y)
  }

  /** The digested bytes say which attempt it is: schema version, batch ids and chunks, and nothing else. */
  lemma DigestedBytesIdentify(schema: Schema, v: Wal, w: Wal)
    requires WalOk(schema, v) && AllTyped(v.chunks) && Fits(schema, v.chunks)
    requires WalOk(schema, w) && AllTyped(w.chunks) && Fits(schema, w.chunks)
    ensures DigestedBytes(schema, v) == DigestedBytes(schema, w) <==>
      v.schemaVersion == w.schemaVersion && v.batchIds == w.batchIds && v.chunks == w.chunks
  {
    hide ChunkOk, Typed, RawsOf, Logical, StrsOk, RawOf, ChunksOf, RawWalOk;
    if DigestedBytes(schema, v) == DigestedBytes(schema, w) {
      RawsAreOk(schema, v);
      RawsAreOk(schema, w);
      LogicalInjective(RawWalOf(schema, v), RawWalOf(schema, w));
      ChunksBack(schema, v.chunks);
      ChunksBack(schema, w.chunks);
    }
  }

  /**
   * Two attempts carry the same digest exactly when they carry the same schema version, batch ids and chunks,
   * whichever slot, epoch, table and operation they were written for, or are a collision of the hash: how a retry
   * recognises its first attempt.
   */
  lemma DigestIdentifies(h: Hashes, schema: Schema, v: Wal, w: Wal)
    requires WalOk(schema, v) && AllTyped(v.chunks) && Fits(schema, v.chunks)
    requires WalOk(schema, w) && AllTyped(w.chunks) && Fits(schema, w.chunks)
    ensures DigestOf(h, schema, v) == DigestOf(h, schema, w) <==>
      || (v.schemaVersion == w.schemaVersion && v.batchIds == w.batchIds && v.chunks == w.chunks)
      || Collides(h, DigestedBytes(schema, v), DigestedBytes(schema, w))
  {
    hide ChunkOk, Typed, RawsOf, Logical, StrsOk, Fits, AllTyped;
    DigestedBytesIdentify(schema, v, w);
  }

  // -------------------------------------- when decoding loses nothing

  lemma {:induction false} RowsRead(schema: Schema, blobs: seq<Bytes>)
    requires RowsOf(schema, blobs).Some?
    ensures var rows := RowsOf(schema, blobs).value;
      && |rows| == |blobs|
      && forall r :: 0 <= r < |rows| ==>
           ParseRow(schema, blobs[r], 0).Got? && ParseRow(schema, blobs[r], 0).value == rows[r]
  {
    if blobs != [] {
      RowsRead(schema, blobs[..|blobs| - 1]);
    }
  }

  lemma {:induction false} RowAtColumns(schema: Schema, rows: seq<Row>, r: nat, n: nat)
    requires r < |rows| && n <= |schema| && |rows[r]| == |schema|
    ensures RowAt(ColumnsOf(schema, rows)[..n], r) == rows[r][..n]
  {
    if n != 0 {
      RowAtColumns(schema, rows, r, n - 1);
      var columns := ColumnsOf(schema, rows);
      assert columns[..n][..n - 1] == columns[..n - 1];
      assert rows[r][..n] == rows[r][..n - 1] + [rows[r][n - 1]];
    }
  }

  predicate BlobCanonical(schema: Schema, blob: Bytes) {
    && ParseRow(schema, blob, 0).Got? && ParseRow(schema, blob, 0).next == |blob| && FlagsCanonical(schema, blob, 0)
  }

  /** No row of the payload has bytes after its last cell or a flag byte other than 0 and 1. */
  predicate PayloadCanonical(schema: Schema, raw: RawChunk) {
    var blobs := ParseList(ParseStr, raw.payload, 0, raw.rows);
    blobs.Got? && forall r :: 0 <= r < |blobs.value| ==> BlobCanonical(schema, blobs.value[r])
  }

  lemma BlobReencodes(schema: Schema, blob: Bytes)
    requires ParseRow(schema, blob, 0).Got? && StrOk(blob)
    ensures var row := ParseRow(schema, blob, 0).value;
      && RowOk(schema, row) && |RowBlob(schema, row)| <= |blob|
      && (RowBlob(schema, row) == blob <==> BlobCanonical(schema, blob))
  {
    hide RowBytes, ParseRow, RowTyped, FlagsCanonical;
    RowReencodes(schema, blob, 0);
    var row := ParseRow(schema, blob, 0).value;
    ParseRowInside(schema, blob, 0);
    if RowBytes(schema, row) == blob {
      AtWhole(blob);
    }
    if BlobCanonical(schema, blob) {
      AtAll(blob, RowBytes(schema, row));
    }
  }

  lemma {:induction false} ParseRowInside(schema: Schema, b: Bytes, p: nat)
    requires p <= |b|
    ensures ParseRow(schema, b, p).Got? ==> ParseRow(schema, b, p).next <= |b|
  {
    if schema != [] {
      hide ParseCell;
      var n := |schema| - 1;
      ParseRowInside(schema[..n], b, p);
      var init := ParseRow(schema[..n], b, p);
      if init.Got? {
        CellInside(b, init.next, schema[n].ty);
      }
    }
  }

  lemma CellInside(b: Bytes, p: nat, t: Type)
    ensures ParseCell(b, p, t).Got? ==> ParseCell(b, p, t).next <= |b|
  {
  }

  lemma {:induction false} ShorterList(xs: seq<Bytes>, ys: seq<Bytes>)
    requires |xs| == |ys| && forall i :: 0 <= i < |xs| ==> |xs[i]| <= |ys[i]|
    ensures |EncList(Str, xs)| <= |EncList(Str, ys)|
  {
    hide Str;
    if xs != [] {
      ShorterList(xs[..|xs| - 1], ys[..|ys| - 1]);
    }
  }

  /** The rows a decoded chunk shows are the rows that were parsed. */
  lemma ParsedRows(schema: Schema, rows: seq<Row>)
    requires forall r :: 0 <= r < |rows| ==> RowTyped(schema, rows[r])
    ensures Rows(Chunk(Ids(|schema|), ColumnsOf(schema, rows), |rows|)) == rows
  {
    var columns := ColumnsOf(schema, rows);
    forall r | 0 <= r < |rows|
      ensures RowAt(columns, r) == rows[r]
    {
      RowAtColumns(schema, rows, r, |schema|);
      assert columns[..|schema|] == columns && rows[r][..|schema|] == rows[r];
    }
    hide RowAt, ColumnsOf;
  }

  lemma ParsedColumns(schema: Schema, rows: seq<Row>)
    requires rows != [] && forall r :: 0 <= r < |rows| ==> RowTyped(schema, rows[r])
    ensures var c := Chunk(Ids(|schema|), ColumnsOf(schema, rows), |rows|);
      IsFullSchemaChunk(c, schema) && Typed(c) && forall k :: 0 <= k < |schema| ==> schema[k].ty != Invalid
  {
    var c := Chunk(Ids(|schema|), ColumnsOf(schema, rows), |rows|);
    forall k | 0 <= k < |schema|
      ensures schema[k].ty != Invalid && ColumnOk(c.columns[k])
    {
      forall r | 0 <= r < |rows|
        ensures HasType(c.columns[k].cells[r], schema[k].ty)
      {
        assert RowTyped(schema, rows[r]);
      }
      assert RowTyped(schema, rows[0]);
    }
  }

  /** The rows a raw chunk parses to. */
  predicate Parses(schema: Schema, raw: RawChunk, blobs: seq<Bytes>, rows: seq<Row>) {
    && |blobs| == |rows| == raw.rows
    && EncList(Str, blobs) == raw.payload
    && (forall r :: 0 <= r < |blobs| ==>
          StrOk(blobs[r]) && RowOk(schema, rows[r]) && |RowBlob(schema, rows[r])| <= |blobs[r]|)
    && (forall r :: 0 <= r < |blobs| ==> (RowBlob(schema, rows[r]) == blobs[r] <==> BlobCanonical(schema, blobs[r])))
  }

  lemma ChunkParses(schema: Schema, raw: RawChunk, blobs: seq<Bytes>, rows: seq<Row>)
    requires ChunkOf(schema, raw).Some?
    requires ParseList(ParseStr, raw.payload, 0, raw.rows).Got? &&
      blobs == ParseList(ParseStr, raw.payload, 0, raw.rows).value
    requires RowsOf(schema, blobs) == Some(rows)
    ensures Parses(schema, raw, blobs, rows)
    ensures ChunkOf(schema, raw) == Some(Chunk(Ids(|schema|), ColumnsOf(schema, rows), |rows|))
  {
    hide EncList, ParseList, Str, ParseStr, StrOk, RowOk, RowBlob, Inverse, ReadsBack, At, ParseRow, ColumnsOf, RowsOf,
      BlobCanonical;
    StrInverse();
    ListRead(Str, ParseStr, StrOk, raw.payload, 0, raw.rows);
    AtAll(raw.payload, EncList(Str, blobs));
    RowsRead(schema, blobs);
    forall r | 0 <= r < |blobs|
      ensures RowOk(schema, rows[r]) && |RowBlob(schema, rows[r])| <= |blobs[r]|
      ensures RowBlob(schema, rows[r]) == blobs[r] <==> BlobCanonical(schema, blobs[r])
    {
      BlobReencodes(schema, blobs[r]);
    }
  }

  lemma PackedAlike(schema: Schema, raw: RawChunk, blobs: seq<Bytes>, rows: seq<Row>)
    requires Parses(schema, raw, blobs, rows)
    ensures |EncList(Str, Pack(schema, rows))| <= |raw.payload|
    ensures EncList(Str, Pack(schema, rows)) == raw.payload <==>
      forall r :: 0 <= r < |blobs| ==> BlobCanonical(schema, blobs[r])
  {
    hide EncList, Str, ParseStr, StrOk, RowOk, RowBlob, Inverse, ReadsBack, BlobCanonical;
    var packed := Pack(schema, rows);
    ShorterList(packed, blobs);
    if EncList(Str, packed) == raw.payload {
      StrInverse();
      forall r | 0 <= r < |rows|
        ensures StrOk(packed[r])
      {
        OneRowBack(schema, rows[r]);
      }
      ListInjective(Str, ParseStr, StrOk, packed, blobs);
    }
    if forall r :: 0 <= r < |blobs| ==> BlobCanonical(schema, blobs[r]) {
      assert packed == blobs;
    }
  }

  lemma ChunkReencodes(schema: Schema, raw: RawChunk)
    requires RawChunkOk(raw) && ChunkOf(schema, raw).Some?
    ensures var c := ChunkOf(schema, raw).value;
      && ChunkOk(schema, c) && Typed(c) && |RawOf(schema, c).payload| <= MAX_U32
      && (RawOf(schema, c) == raw <==> PayloadCanonical(schema, raw))
  {
    hide EncList, ParseList, Str, ParseStr, RowBlob, ParseRow, ColumnsOf, RowsOf, BlobCanonical, Pack, Rows, Typed,
      IsFullSchemaChunk, RowBytes, RowTyped;
    var blobs := ParseList(ParseStr, raw.payload, 0, raw.rows).value;
    var rows := RowsOf(schema, blobs).value;
    ChunkParses(schema, raw, blobs, rows);
    PackedAlike(schema, raw, blobs, rows);
    ParsedRows(schema, rows);
    ParsedColumns(schema, rows);
    forall r | 0 <= r < |rows|
      ensures StrOk(RowBlob(schema, rows[r]))
    {
      OneRowBack(schema, rows[r]);
    }
  }

  lemma {:induction false} ChunksRead(schema: Schema, raws: seq<RawChunk>)
    requires ChunksOf(schema, raws).Some?
    ensures var cs := ChunksOf(schema, raws).value;
      |cs| == |raws| && forall i :: 0 <= i < |raws| ==> ChunkOf(schema, raws[i]) == Some(cs[i])
  {
    hide ChunkOf;
    if raws != [] {
      ChunksRead(schema, raws[..|raws| - 1]);
    }
  }

  lemma ChunksReencode(schema: Schema, raws: seq<RawChunk>)
    requires ChunksOf(schema, raws).Some? && forall i :: 0 <= i < |raws| ==> RawChunkOk(raws[i])
    ensures var cs := ChunksOf(schema, raws).value;
      && |cs| == |raws| && (forall i :: 0 <= i < |cs| ==> ChunkOk(schema, cs[i])) && AllTyped(cs) && Fits(schema, cs)
      && (RawsOf(schema, cs) == raws <==> forall i :: 0 <= i < |raws| ==> PayloadCanonical(schema, raws[i]))
  {
    hide ChunkOf, ChunksOf, ChunkOk, RawOf, PayloadCanonical, Typed, RawChunkOk;
    ChunksRead(schema, raws);
    var cs := ChunksOf(schema, raws).value;
    forall i | 0 <= i < |raws|
      ensures ChunkOk(schema, cs[i]) && Typed(cs[i]) && |RawOf(schema, cs[i]).payload| <= MAX_U32
      ensures RawsOf(schema, cs)[i] == raws[i] <==> PayloadCanonical(schema, raws[i])
    {
      ChunkReencodes(schema, raws[i]);
    }
  }

  /**
   * A WAL that decodes is valid but for its schema version, and encoding it again gives the object it came from
   * exactly when no packed row in it has trailing bytes or an unusual flag byte.
   */
  lemma WalReencodes(h: Hashes, schema: Schema, b: Bytes)
    requires DecodeWal(h, schema, b).Some?
    ensures var w := DecodeWal(h, schema, b).value; var raw := DecodeRaw(h, b).value;
      && WalOk(schema, w.(schemaVersion := 1)) && AllTyped(w.chunks)
      && (EncodeWal(h, schema, w) == Some(b) <==>
            w.schemaVersion == 1 && forall i :: 0 <= i < |raw.chunks| ==> PayloadCanonical(schema, raw.chunks[i]))
  {
    hide DecodeRaw, RawWalBytes, ChunksOf, RawsOf, ChunkOk, RawOf, PayloadCanonical, StrsOk, Logical, RawChunkOk,
      Typed;
    var raw := DecodeRaw(h, b).value;
    var w := DecodeWal(h, schema, b).value;
    ContainerExact(h, b, raw);
    ChunksReencode(schema, raw.chunks);
    if EncodeWal(h, schema, w) == Some(b) {
      RawsAreOk(schema, w);
      ContainerExact(h, b, RawWalOf(schema, w));
    }
  }
}
