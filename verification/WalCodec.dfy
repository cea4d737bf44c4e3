/**
 * The DBW2 write-ahead-log object. The container (header, identities, checked chunk payloads, digest, footer)
 * is one exact codec; the rows inside a payload are a second one on top of it.
 */
module WalCodec {
  import opened Table
  import opened ByteFormat
  import opened ObjectCodec
  import opened RowCodec

  type Digest = b: Bytes | |b| == 32 witness seq(32, _ => 0)

  /** CRC-32 and SHA-256 are foreign code: deterministic functions of their input. */
  datatype Hashes = Hashes(crc: Bytes -> u32, sha: Bytes -> Digest)

  datatype Kind = Append | Fence

  // --------------------------------------------------------- container

  datatype RawChunk = RawChunk(rows: u32, payload: Bytes)

  datatype RawWal = RawWal(kind: Kind, tableId: Bytes, seqNo: u64, epoch: u64, schemaVersion: u64,
                           operationId: Bytes, batchIds: seq<Bytes>, chunks: seq<RawChunk>)

  const MAX_CHUNKS: nat := 1_000_000

  predicate RawChunkOk(c: RawChunk) {
    c.rows != 0 && |c.payload| <= MAX_U32
  }

  function RawEntry(c: RawChunk): Bytes {
    U32(c.rows) + (U32(|c.payload| % 0x1_0000_0000) + c.payload)
  }

  function Sealed(h: Hashes, c: RawChunk): Bytes {
    RawEntry(c) + U32(h.crc(RawEntry(c)))
  }

  function ParseSealed(h: Hashes, b: Bytes, p: nat): Parsed<RawChunk> {
    var (rows, q) :- ParseU32(b, p);
    if rows == 0 then Fail
    else
      var (size, r) :- ParseU32(b, q);
      var (payload, s) :- ParseRaw(b, r, size);
      var (crc, t) :- ParseU32(b, s);
      if crc == h.crc(RawEntry(RawChunk(rows, payload))) then Got(RawChunk(rows, payload), t) else Fail
  }

  function RawChunkBytes(h: Hashes): RawChunk -> Bytes {
    (c: RawChunk) => Sealed(h, c)
  }

  function ParseRawChunk(h: Hashes): (Bytes, nat) -> Parsed<RawChunk> {
    (b: Bytes, p: nat) => ParseSealed(h, b, p)
  }

  function KindByte(k: Kind): u8 {
    match k
    case Append => 1
    case Fence => 2
  }

  predicate RawWalOk(w: RawWal) {
    && w.tableId != [] && w.seqNo != 0 && w.epoch != 0 && w.operationId != []
    && (if w.kind.Append? then w.batchIds != [] && w.chunks != [] else w.batchIds == [] && w.chunks == [])
    && |w.tableId| <= MAX_U32 && |w.operationId| <= MAX_U32 && StrsOk(w.batchIds) && |w.chunks| <= MAX_U32
    && (forall i :: 0 <= i < |w.chunks| ==> RawChunkOk(w.chunks[i]))
  }

  function RowTotal(cs: seq<RawChunk>): nat {
    if cs == [] then 0 else RowTotal(cs[..|cs| - 1]) + cs[|cs| - 1].rows
  }

  /** What the payload digest covers: not the slot, the epoch, the table or the operation. */
  function Logical(schemaVersion: u64, batchIds: seq<Bytes>, chunks: seq<RawChunk>): Bytes
    requires StrsOk(batchIds)
  {
    U64(schemaVersion) + (Strs(batchIds) + EncList(RawEntry, chunks))
  }

  function Identity(w: RawWal): Bytes {
    U64(w.seqNo) + (U64(w.epoch) + U64(w.schemaVersion))
  }

  function Names(w: RawWal): Bytes
    requires StrsOk(w.batchIds)
  {
    Str(w.operationId) + (Strs(w.batchIds) + U32(|w.chunks| % 0x1_0000_0000))
  }

  function Head(w: RawWal): Bytes
    requires StrsOk(w.batchIds)
  {
    Header(Magic("DBW2")) + ([KindByte(w.kind)] + (Str(w.tableId) + (Identity(w) + Names(w))))
  }

  function Totals(h: Hashes, w: RawWal): (b: Bytes)
    requires StrsOk(w.batchIds)
    ensures |b| == 40
  {
    U64(RowTotal(w.chunks) % 0x1_0000_0000_0000_0000) + h.sha(Logical(w.schemaVersion, w.batchIds, w.chunks))
  }

  function Body(h: Hashes, w: RawWal): Bytes
    requires StrsOk(w.batchIds)
  {
    Head(w) + (EncList(RawChunkBytes(h), w.chunks) + Totals(h, w))
  }

  function Footer(h: Hashes, body: Bytes): (b: Bytes)
    ensures |b| == 8
  {
    U32(h.crc(body)) + Magic("DBW2")
  }

  function RawWalBytes(h: Hashes, w: RawWal): Bytes
    requires StrsOk(w.batchIds)
  {
    Body(h, w) + Footer(h, Body(h, w))
  }

  datatype HeadFields = HeadFields(kind: Kind, tableId: Bytes, seqNo: u64, epoch: u64, schemaVersion: u64,
                                   operationId: Bytes, batchIds: seq<Bytes>, count: u32)

  function ParseHead(b: Bytes): Parsed<HeadFields> {
    var (_, p0) :- ParseHeader(b, 0, Magic("DBW2"));
    var (k, p1) :- ParseU8(b, p0);
    if k != 1 && k != 2 then Fail
    else
      var (id, p2) :- ParseStr(b, p1);
      var (n, p3) :- ParseU64(b, p2);
      var (epoch, p4) :- ParseU64(b, p3);
      var (version, p5) :- ParseU64(b, p4);
      var (op, p6) :- ParseStr(b, p5);
      var (ids, p7) :- ParseStrs(b, p6);
      var (count, p8) :- ParseU32(b, p7);
      Got(HeadFields(if k == 1 then Append else Fence, id, n, epoch, version, op, ids, count), p8)
  }

  function FieldsOf(w: RawWal): HeadFields
    requires |w.chunks| <= MAX_U32
  {
    HeadFields(w.kind, w.tableId, w.seqNo, w.epoch, w.schemaVersion, w.operationId, w.batchIds, |w.chunks|)
  }

  function Assemble(f: HeadFields, chunks: seq<RawChunk>): RawWal {
    RawWal(f.kind, f.tableId, f.seqNo, f.epoch, f.schemaVersion, f.operationId, f.batchIds, chunks)
  }

  /** Everything after the chunks: row total, digest, checksum of all that precedes, closing magic. */
  predicate TailOk(h: Hashes, b: Bytes, p: nat, w: RawWal)
    requires StrsOk(w.batchIds)
  {
    && ParseU64(b, p) == Got(RowTotal(w.chunks) % 0x1_0000_0000_0000_0000, p + 8)
    && ParseRaw(b, p + 8, 32) == Got(h.sha(Logical(w.schemaVersion, w.batchIds, w.chunks)), p + 40)
    && |b| == p + 48
    && ParseU32(b, p + 40) == Got(h.crc(b[..|b| - 8]), p + 44)
    && ParseRaw(b, p + 44, 4) == Got(Magic("DBW2"), p + 48)
  }

  function DecodeRaw(h: Hashes, b: Bytes): Option<RawWal> {
    match ParseHead(b)
    case Fail => None
    case Got(f, p) =>
      if f.count > MAX_CHUNKS then None
      else
        match ParseList(ParseRawChunk(h), b, p, f.count)
        case Fail => None
        case Got(chunks, q) =>
          var w := Assemble(f, chunks);
          if StrsOk(w.batchIds) && TailOk(h, b, q, w) && RawWalOk(w) then Some(w) else None
  }

  // ------------------------------------------------ chunks read back

  lemma RawChunkBack(h: Hashes, b: Bytes, p: nat, c: RawChunk)
    requires RawChunkOk(c) && At(b, p, Sealed(h, c))
    ensures ParseSealed(h, b, p) == Got(c, p + |Sealed(h, c)|)
  {
    hide U32, ParseU32, ParseRaw, At;
    var n := |c.payload|;
    AtSplit(b, p, RawEntry(c), U32(h.crc(RawEntry(c))));
    AtSplit(b, p, U32(c.rows), U32(n) + c.payload);
    AtSplit(b, p + 4, U32(n), c.payload);
    ReadU32(b, p, c.rows);
    ReadU32(b, p + 4, n);
    ReadRaw(b, p + 8, c.payload);
    ReadU32(b, p + 8 + n, h.crc(RawEntry(c)));
  }

  lemma RawChunkRead(h: Hashes, b: Bytes, p: nat)
    requires ParseSealed(h, b, p).Got?
    ensures var c := ParseSealed(h, b, p).value;
      RawChunkOk(c) && At(b, p, Sealed(h, c)) && ParseSealed(h, b, p).next == p + |Sealed(h, c)|
  {
    hide U32, ParseU32, At;
    var c := ParseSealed(h, b, p).value;
    ParseU32Next(b, p);
    ParseU32Next(b, p + 4);
    var n := ParseU32(b, p + 4).value;
    assert |c.payload| == n;
    ParseU32Next(b, p + 8 + n);
    ReadU32(b, p, c.rows);
    ReadU32(b, p + 4, n);
    ReadRaw(b, p + 8, c.payload);
    ReadU32(b, p + 8 + n, h.crc(RawEntry(c)));
    AtSplit(b, p + 4, U32(n), c.payload);
    AtSplit(b, p, U32(c.rows), U32(n) + c.payload);
    AtSplit(b, p, RawEntry(c), U32(h.crc(RawEntry(c))));
  }

  lemma RawChunkInverse(h: Hashes)
    ensures Inverse(RawChunkBytes(h), ParseRawChunk(h), RawChunkOk)
    ensures ReadsBack(RawChunkBytes(h), ParseRawChunk(h), RawChunkOk)
  {
    hide Sealed, ParseSealed, RawChunkOk, At;
    var enc, parse := RawChunkBytes(h), ParseRawChunk(h);
    forall c: RawChunk, b: Bytes, p: nat | RawChunkOk(c) && At(b, p, enc(c))
      ensures parse(b, p) == Got(c, p + |enc(c)|)
    {
      RawChunkBack(h, b, p, c);
    }
    forall b: Bytes, p: nat | parse(b, p).Got?
      ensures RawChunkOk(parse(b, p).value) && At(b, p, enc(parse(b, p).value))
      ensures parse(b, p).next == p + |enc(parse(b, p).value)|
    {
      RawChunkRead(h, b, p);
    }
  }

  // ------------------------------------------------ the container is exact

  lemma ReadIdentity(b: Bytes, p: nat, w: RawWal)
    ensures |Identity(w)| == 24
    ensures At(b, p, Identity(w)) <==>
      && ParseU64(b, p) == Got(w.seqNo, p + 8) && ParseU64(b, p + 8) == Got(w.epoch, p + 16)
      && ParseU64(b, p + 16) == Got(w.schemaVersion, p + 24)
  {
    hide U64, ParseU64, At;
    AtSplit(b, p, U64(w.seqNo), U64(w.epoch) + U64(w.schemaVersion));
    AtSplit(b, p + 8, U64(w.epoch), U64(w.schemaVersion));
    ReadU64(b, p, w.seqNo);
    ReadU64(b, p + 8, w.epoch);
    ReadU64(b, p + 16, w.schemaVersion);
  }

  lemma ReadStrs(b: Bytes, p: nat, xs: seq<Bytes>)
    requires StrsOk(xs)
    ensures At(b, p, Strs(xs)) <==> ParseStrs(b, p) == Got(xs, p + |Strs(xs)|)
  {
    hide Strs, ParseStrs, At, StrsOk;
    if At(b, p, Strs(xs)) {
      StrsBack(b, p, xs);
    }
    if ParseStrs(b, p).Got? {
      StrsRead(b, p);
    }
  }

  lemma ReadNames(b: Bytes, p: nat, w: RawWal)
    requires StrOk(w.operationId) && StrsOk(w.batchIds) && |w.chunks| <= MAX_U32
    ensures var q, r := p + |Str(w.operationId)|, p + |Str(w.operationId)| + |Strs(w.batchIds)|;
      && p + |Names(w)| == r + 4
      && (At(b, p, Names(w)) <==>
            && ParseStr(b, p) == Got(w.operationId, q) && ParseStrs(b, q) == Got(w.batchIds, r)
            && ParseU32(b, r) == Got(|w.chunks|, r + 4))
  {
    hide U32, ParseU32, Str, ParseStr, Strs, ParseStrs, At, StrsOk;
    var q, r := p + |Str(w.operationId)|, p + |Str(w.operationId)| + |Strs(w.batchIds)|;
    AtSplit(b, p, Str(w.operationId), Strs(w.batchIds) + U32(|w.chunks|));
    AtSplit(b, q, Strs(w.batchIds), U32(|w.chunks|));
    ReadStr(b, p, w.operationId);
    ReadStrs(b, q, w.batchIds);
    ReadU32(b, r, |w.chunks|);
  }

  predicate SizesOk(w: RawWal) {
    StrOk(w.tableId) && StrOk(w.operationId) && StrsOk(w.batchIds) && |w.chunks| <= MAX_U32
  }

  lemma SplitHead(b: Bytes, w: RawWal)
    requires SizesOk(w)
    ensures var p2 := 9 + |Str(w.tableId)|;
      && |Head(w)| == p2 + 24 + |Names(w)|
      && (At(b, 0, Head(w)) <==>
            && ParseHeader(b, 0, Magic("DBW2")).Got? && ParseU8(b, 8) == Got(KindByte(w.kind), 9)
            && ParseStr(b, 9) == Got(w.tableId, p2) && At(b, p2, Identity(w)) && At(b, p2 + 24, Names(w)))
  {
    hide Header, ParseHeader, Str, ParseStr, At, Magic, Identity, Names, ParseU8, StrsOk;
    var magic := Magic("DBW2");
    MagicSize("DBW2");
    var p2 := 9 + |Str(w.tableId)|;
    var rest := Identity(w) + Names(w);
    AtSplit(b, 0, Header(magic), [KindByte(w.kind)] + (Str(w.tableId) + rest));
    AtSplit(b, 8, [KindByte(w.kind)], Str(w.tableId) + rest);
    AtSplit(b, 9, Str(w.tableId), rest);
    AtSplit(b, p2, Identity(w), Names(w));
    ReadHeader(b, 0, magic);
    ReadU8(b, 8, KindByte(w.kind));
    ReadStr(b, 9, w.tableId);
    ReadIdentity(b, p2, w);
  }

  lemma HeadBack(b: Bytes, w: RawWal)
    requires SizesOk(w) && At(b, 0, Head(w))
    ensures ParseHead(b) == Got(FieldsOf(w), |Head(w)|)
  {
    hide Head, ParseHeader, ParseStr, ParseStrs, ParseU64, ParseU32, ParseU8, At, Magic, Identity, Names, Str, Strs,
      StrsOk;
    SplitHead(b, w);
    var p2 := 9 + |Str(w.tableId)|;
    MagicSize("DBW2");
    ReadHeader(b, 0, Magic("DBW2"));
    ReadIdentity(b, p2, w);
    ReadNames(b, p2 + 24, w);
  }

  lemma HeadRead(b: Bytes, w: RawWal)
    requires |w.chunks| <= MAX_U32 && ParseHead(b).Got? && ParseHead(b).value == FieldsOf(w)
    ensures SizesOk(w) && At(b, 0, Head(w)) && ParseHead(b).next == |Head(w)|
  {
    hide Head, ParseHeader, ParseStr, ParseStrs, ParseU64, ParseU32, At, Magic, Identity, Names, Str, Strs, StrsOk,
      StrOk;
    MagicSize("DBW2");
    ReadHeader(b, 0, Magic("DBW2"));
    StrRead(b, 9);
    var p2 := 9 + |Str(w.tableId)|;
    ParseU64Next(b, p2);
    ParseU64Next(b, p2 + 8);
    ParseU64Next(b, p2 + 16);
    StrRead(b, p2 + 24);
    StrsRead(b, p2 + 24 + |Str(w.operationId)|);
    ParseU32Next(b, p2 + 24 + |Str(w.operationId)| + |Strs(w.batchIds)|);
    ReadIdentity(b, p2, w);
    ReadNames(b, p2 + 24, w);
    SplitHead(b, w);
  }

  lemma ReadTail(h: Hashes, b: Bytes, p: nat, w: RawWal)
    requires StrsOk(w.batchIds)
    ensures TailOk(h, b, p, w) <==>
      |b| == p + 48 && At(b, p, Totals(h, w)) && At(b, p + 40, Footer(h, b[..|b| - 8]))
  {
    if |b| == p + 48 {
      hide U32, U64, ParseU32, ParseU64, ParseRaw, At, Logical, Magic, StrsOk, RowTotal;
      MagicSize("DBW2");
      var total := RowTotal(w.chunks) % 0x1_0000_0000_0000_0000;
      var digest := h.sha(Logical(w.schemaVersion, w.batchIds, w.chunks));
      var crc := h.crc(b[..|b| - 8]);
      AtSplit(b, p, U64(total), digest);
      AtSplit(b, p + 40, U32(crc), Magic("DBW2"));
      ReadU64(b, p, total);
      ReadRaw(b, p + 8, digest);
      ReadU32(b, p + 40, crc);
      ReadRaw(b, p + 44, Magic("DBW2"));
    }
  }

  lemma SplitWal(h: Hashes, b: Bytes, w: RawWal)
    requires StrsOk(w.batchIds)
    ensures var p := |Head(w)|; var q := p + |EncList(RawChunkBytes(h), w.chunks)|;
      RawWalBytes(h, w) == b <==>
        At(b, 0, Head(w)) && At(b, p, EncList(RawChunkBytes(h), w.chunks)) && TailOk(h, b, q, w)
  {
    hide Head, EncList, Totals, Footer, At, StrsOk, TailOk, RawChunkBytes;
    var chunks := EncList(RawChunkBytes(h), w.chunks);
    var p, q := |Head(w)|, |Head(w)| + |chunks|;
    AtSplit(b, 0, Head(w), chunks + Totals(h, w));
    AtSplit(b, p, chunks, Totals(h, w));
    ReadTail(h, b, q, w);
    var body := Body(h, w);
    if RawWalBytes(h, w) == b {
      AtWhole(b);
      AtSplit(b, 0, body, Footer(h, body));
      assert b[..|b| - 8] == body;
    }
    if At(b, 0, Head(w)) && At(b, p, chunks) && TailOk(h, b, q, w) {
      assert At(b, 0, body);
      BodyOf(b, body);
      AtSplit(b, 0, body, Footer(h, body));
      AtAll(b, RawWalBytes(h, w));
    }
  }

  lemma BodyOf(b: Bytes, body: Bytes)
    requires At(b, 0, body) && |b| == |body| + 8
    ensures b[..|b| - 8] == body
  {
    assert b[0..|body|] == b[..|b| - 8];
  }

  /**
   * The container codec is an exact inverse both ways: an object is accepted precisely when it is the image of
   * a valid container of at most 1,000,000 chunks, so no accepted object has a second spelling.
   */
  lemma ContainerExact(h: Hashes, b: Bytes, w: RawWal)
    ensures DecodeRaw(h, b) == Some(w) <==>
      RawWalOk(w) && |w.chunks| <= MAX_CHUNKS && RawWalBytes(h, w) == b
  {
    if DecodeRaw(h, b) == Some(w) {
      ContainerRead(h, b, w);
    }
    if RawWalOk(w) && |w.chunks| <= MAX_CHUNKS && RawWalBytes(h, w) == b {
      ContainerBack(h, b, w);
    }
  }

  lemma ContainerBack(h: Hashes, b: Bytes, w: RawWal)
    requires RawWalOk(w) && |w.chunks| <= MAX_CHUNKS && RawWalBytes(h, w) == b
    ensures DecodeRaw(h, b) == Some(w)
  {
    hide Head, ParseHead, EncList, ParseList, At, StrsOk, TailOk, RawChunkOk, Inverse, ReadsBack, RawWalBytes;
    SplitWal(h, b, w);
    HeadBack(b, w);
    RawChunkInverse(h);
    ListBack(RawChunkBytes(h), ParseRawChunk(h), RawChunkOk, b, |Head(w)|, w.chunks);
  }

  lemma ContainerRead(h: Hashes, b: Bytes, w: RawWal)
    requires DecodeRaw(h, b) == Some(w)
    ensures RawWalOk(w) && |w.chunks| <= MAX_CHUNKS && RawWalBytes(h, w) == b
  {
    hide Head, ParseHead, EncList, ParseList, At, StrsOk, TailOk, RawChunkOk, Inverse, ReadsBack, RawWalBytes;
    var p := ParseHead(b).next;
    var n := ParseHead(b).value.count;
    HeadInside(b);
    RawChunkInverse(h);
    ListRead(RawChunkBytes(h), ParseRawChunk(h), RawChunkOk, b, p, n);
    HeadRead(b, w);
    SplitWal(h, b, w);
  }

  lemma HeadInside(b: Bytes)
    requires ParseHead(b).Got?
    ensures ParseHead(b).next <= |b|
  {
    hide ParseHeader, ParseStr, ParseStrs, ParseU64, Magic;
  }
}
