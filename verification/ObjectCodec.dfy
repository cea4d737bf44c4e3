/** CURRENT (DBS2), manifest (DBM2) and batch index (DBI2): encoders and decoders. */
module ObjectCodec {
  import opened Table
  import opened ByteFormat

  function Magic(s: string): Bytes
    requires |s| == 4
  {
    seq(4, i requires 0 <= i < 4 => (s[i] as int) % 256)
  }

  function Header(magic: Bytes): Bytes {
    magic + U32(2)
  }

  function ParseHeader(b: Bytes, p: nat, magic: Bytes): Parsed<()> {
    var (m, q) :- ParseRaw(b, p, 4);
    if m != magic then Fail
    else
      var (v, r) :- ParseU32(b, q);
      if v != 2 then Fail else Got((), r)
  }

  lemma ReadHeader(b: Bytes, p: nat, magic: Bytes)
    requires |magic| == 4
    ensures At(b, p, Header(magic)) <==> ParseHeader(b, p, magic).Got?
    ensures ParseHeader(b, p, magic).Got? ==> ParseHeader(b, p, magic).next == p + 8
  {
    hide U32, ParseU32;
    AtSplit(b, p, magic, U32(2));
    ReadRaw(b, p, magic);
    ReadU32(b, p + 4, 2);
    ParseU32Next(b, p + 4);
  }

  // ----------------------------------------------------------- CURRENT

  datatype State = State(tableId: Bytes, stateVersion: u64, schemaVersion: u64, writerEpoch: u64,
                         indexedSeq: u64, publishedSeq: u64, manifestKey: Bytes)

  predicate StateOk(s: State) {
    && s.tableId != [] && HasPrefix(s.manifestKey, Ascii("manifest/"))
    && s.indexedSeq <= s.publishedSeq && s.schemaVersion == 1
    && |s.tableId| <= MAX_U32 && |s.manifestKey| <= MAX_U32
  }

  function Numbers(s: State): Bytes {
    U64(s.stateVersion) + (U64(s.schemaVersion) + (U64(s.writerEpoch) + (U64(s.indexedSeq) + U64(s.publishedSeq))))
  }

  function StateBytes(s: State): Bytes
    requires StateOk(s)
  {
    Header(Magic("DBS2")) + (Str(s.tableId) + (Numbers(s) + Str(s.manifestKey)))
  }

  function EncodeState(s: State): Option<Bytes> {
    if StateOk(s) then Some(StateBytes(s)) else None
  }

  function ParseState(b: Bytes): Parsed<State> {
    var (_, p0) :- ParseHeader(b, 0, Magic("DBS2"));
    var (id, p1) :- ParseStr(b, p0);
    var (version, p2) :- ParseU64(b, p1);
    var (schema, p3) :- ParseU64(b, p2);
    var (epoch, p4) :- ParseU64(b, p3);
    var (indexed, p5) :- ParseU64(b, p4);
    var (published, p6) :- ParseU64(b, p5);
    var (key, p7) :- ParseStr(b, p6);
    if p7 != |b| then Fail else Got(State(id, version, schema, epoch, indexed, published, key), p7)
  }

  function DecodeState(b: Bytes): Option<State> {
    var r := ParseState(b);
    if r.Got? && StateOk(r.value) then Some(r.value) else None
  }

  lemma ReadNumbers(b: Bytes, p: nat, s: State)
    ensures At(b, p, Numbers(s)) <==>
      && ParseU64(b, p) == Got(s.stateVersion, p + 8) && ParseU64(b, p + 8) == Got(s.schemaVersion, p + 16)
      && ParseU64(b, p + 16) == Got(s.writerEpoch, p + 24) && ParseU64(b, p + 24) == Got(s.indexedSeq, p + 32)
      && ParseU64(b, p + 32) == Got(s.publishedSeq, p + 40)
  {
    hide U64, ParseU64, At;
    var d := U64(s.indexedSeq) + U64(s.publishedSeq);
    var c := U64(s.writerEpoch) + d;
    var a := U64(s.schemaVersion) + c;
    AtSplit(b, p, U64(s.stateVersion), a);
    AtSplit(b, p + 8, U64(s.schemaVersion), c);
    AtSplit(b, p + 16, U64(s.writerEpoch), d);
    AtSplit(b, p + 24, U64(s.indexedSeq), U64(s.publishedSeq));
    ReadU64(b, p, s.stateVersion);
    ReadU64(b, p + 8, s.schemaVersion);
    ReadU64(b, p + 16, s.writerEpoch);
    ReadU64(b, p + 24, s.indexedSeq);
    ReadU64(b, p + 32, s.publishedSeq);
  }

  lemma ReadState(b: Bytes, s: State)
    requires StateOk(s)
    ensures At(b, 0, StateBytes(s)) && |b| == |StateBytes(s)| <==> ParseState(b) == Got(s, |b|)
  {
    hide Header, ParseHeader, Str, ParseStr, ParseU64, At, Numbers, Magic, StateOk;
    var magic := Magic("DBS2");
    MagicSize("DBS2");
    StateSizes(s);
    var tail := Numbers(s) + Str(s.manifestKey);
    var p1 := 8 + |Str(s.tableId)|;
    AtSplit(b, 0, Header(magic), Str(s.tableId) + tail);
    AtSplit(b, 8, Str(s.tableId), tail);
    AtSplit(b, p1, Numbers(s), Str(s.manifestKey));
    ReadHeader(b, 0, magic);
    ReadStr(b, 8, s.tableId);
    ReadNumbers(b, p1, s);
    ReadStr(b, p1 + 40, s.manifestKey);
    ParseStateNext(b, 8, s);
    if ParseState(b) == Got(s, |b|) {
      assert ParseHeader(b, 0, magic).Got?;
      assert ParseStr(b, 8) == Got(s.tableId, p1);
      assert ParseU64(b, p1) == Got(s.stateVersion, p1 + 8);
      assert ParseStr(b, p1 + 40) == Got(s.manifestKey, |b|);
    }
    if At(b, 0, StateBytes(s)) && |b| == |StateBytes(s)| {
      assert ParseStr(b, p1 + 40) == Got(s.manifestKey, |b|);
    }
  }

  lemma MagicSize(s: string)
    requires |s| == 4
    ensures |Magic(s)| == 4 && |Header(Magic(s))| == 8
  {
  }

  lemma StateSizes(s: State)
    requires StateOk(s)
    ensures |s.tableId| <= MAX_U32 && |s.manifestKey| <= MAX_U32 && |Numbers(s)| == 40
    ensures |Str(s.tableId)| == 4 + |s.tableId| && |Str(s.manifestKey)| == 4 + |s.manifestKey|
  {
  }

  /** Where the fields of a parsed state must have stood. */
  lemma ParseStateNext(b: Bytes, p: nat, s: State)
    requires |s.tableId| <= MAX_U32
    ensures ParseStr(b, p).Got? && ParseStr(b, p).value == s.tableId ==> ParseStr(b, p).next == p + |Str(s.tableId)|
    ensures forall q: nat :: ParseU64(b, q).Got? ==> ParseU64(b, q).next == q + 8
    ensures forall q: nat :: ParseStr(b, q).Got? ==> ParseStr(b, q).next == q + 4 + |ParseStr(b, q).value|
  {
  }

  /** The CURRENT codec is an exact inverse both ways: no state is lost, no byte string is ambiguous. */
  lemma StateCodecExact(b: Bytes, s: State)
    ensures DecodeState(b) == Some(s) <==> EncodeState(s) == Some(b)
  {
    hide StateOk, ParseState, StateBytes;
    if StateOk(s) {
      ReadState(b, s);
      if At(b, 0, StateBytes(s)) && |b| == |StateBytes(s)| {
        assert b == b[0..|b|];
      }
    }
    ParseStateEnd(b);
  }

  lemma ParseStateEnd(b: Bytes)
    ensures ParseState(b).Got? ==> ParseState(b).next == |b|
  {
  }

  /** With distinct state versions no two CURRENT objects encode alike: a content tag is a generation. */
  lemma StateBytesDiffer(s: State, t: State)
    requires EncodeState(s).Some? && EncodeState(t).Some? && s.stateVersion != t.stateVersion
    ensures EncodeState(s) != EncodeState(t)
  {
    hide EncodeState, DecodeState;
    StateCodecExact(EncodeState(s).value, s);
    StateCodecExact(EncodeState(t).value, t);
  }

  // ---------------------------------------------------------- manifest

  datatype DataFile = DataFile(path: Bytes, firstSeq: u64, lastSeq: u64, rowCount: u64)
  datatype Manifest = Manifest(tableId: Bytes, coveredThroughSeq: u64, schemaVersion: u64, schema: Schema,
                               dataFiles: seq<DataFile>, batchIndexFiles: seq<Bytes>)

  function Code(t: Type): u8 {
    match t
    case Invalid => 0
    case Int32 => 1
    case Int64 => 2
    case Float => 3
    case Double => 4
    case Bool => 5
    case String => 6
    case Blob => 7
  }

  /** Bytes that name no type are read as Invalid here; the validity check refuses both alike. */
  function TypeOf(code: u8): Type {
    match code
    case 1 => Int32
    case 2 => Int64
    case 3 => Float
    case 4 => Double
    case 5 => Bool
    case 6 => String
    case 7 => Blob
    case _ => Invalid
  }

  predicate FieldOk(f: Field) {
    f.name != [] && |f.name| <= MAX_U32 && f.ty != Invalid
  }

  function FieldBytes(f: Field): Bytes {
    Str(f.name) + [Code(f.ty)]
  }

  /** One column of the schema, refused at once when the final validity check would refuse it. */
  function ParseField(b: Bytes, p: nat): Parsed<Field> {
    var (name, q) :- ParseStr(b, p);
    var (code, r) :- ParseU8(b, q);
    if name == [] || TypeOf(code) == Invalid then Fail else Got(Field(name, TypeOf(code)), r)
  }

  predicate FileOk(f: DataFile) {
    f.path != [] && f.firstSeq != 0 && f.firstSeq <= f.lastSeq && f.rowCount != 0 && |f.path| <= MAX_U32
  }

  function Range(f: DataFile): (b: Bytes)
    ensures |b| == 24
  {
    U64(f.firstSeq) + (U64(f.lastSeq) + U64(f.rowCount))
  }

  function FileBytes(f: DataFile): Bytes {
    Str(f.path) + Range(f)
  }

  function ParseFile(b: Bytes, p: nat): Parsed<DataFile> {
    var (path, q) :- ParseStr(b, p);
    var (first, r) :- ParseU64(b, q);
    var (last, s) :- ParseU64(b, r);
    var (rows, t) :- ParseU64(b, s);
    var f := DataFile(path, first, last, rows);
    if FileOk(f) then Got(f, t) else Fail
  }

  predicate ManifestOk(m: Manifest) {
    && m.tableId != [] && |m.tableId| <= MAX_U32
    && m.schema != [] && (forall i :: 0 <= i < |m.schema| ==> FieldOk(m.schema[i]))
    && |m.dataFiles| <= MAX_U32
    && (forall i :: 0 <= i < |m.dataFiles| ==> FileOk(m.dataFiles[i]) && m.dataFiles[i].lastSeq <= m.coveredThroughSeq)
    && (forall i :: 0 <= i < |m.batchIndexFiles| ==> HasPrefix(m.batchIndexFiles[i], Ascii("dedup/")))
    && StrsOk(m.batchIndexFiles)
  }

  function ManifestHead(m: Manifest): Bytes {
    Header(Magic("DBM2")) + (Str(m.tableId) + (U64(m.coveredThroughSeq) + U64(m.schemaVersion)))
  }

  /** The column count is cast to 32 bits, as the encoder does. */
  function SchemaBytes(schema: Schema): Bytes {
    U32(|schema| % 0x1_0000_0000) + EncList(FieldBytes, schema)
  }

  function FilesBytes(files: seq<DataFile>): Bytes
    requires |files| <= MAX_U32
  {
    U32(|files|) + EncList(FileBytes, files)
  }

  function ManifestBytes(m: Manifest): Bytes
    requires ManifestOk(m)
  {
    ManifestHead(m) + (SchemaBytes(m.schema) + (FilesBytes(m.dataFiles) + Strs(m.batchIndexFiles)))
  }

  function EncodeManifest(m: Manifest): Option<Bytes> {
    if ManifestOk(m) then Some(ManifestBytes(m)) else None
  }

  const MAX_COLUMNS: nat := 1024

  function ParseSchema(b: Bytes, p: nat): Parsed<Schema> {
    var (n, q) :- ParseU32(b, p);
    if n > MAX_COLUMNS then Fail else ParseList(ParseField, b, q, n)
  }

  function ParseFiles(b: Bytes, p: nat): Parsed<seq<DataFile>> {
    var (n, q) :- ParseU32(b, p);
    if n > Remaining(b, q) / 28 then Fail else ParseList(ParseFile, b, q, n)
  }

  function ParseManifest(b: Bytes): Parsed<Manifest> {
    var (_, p0) :- ParseHeader(b, 0, Magic("DBM2"));
    var (id, p1) :- ParseStr(b, p0);
    var (covered, p2) :- ParseU64(b, p1);
    var (version, p3) :- ParseU64(b, p2);
    var (schema, p4) :- ParseSchema(b, p3);
    var (files, p5) :- ParseFiles(b, p4);
    var (keys, p6) :- ParseStrs(b, p5);
    if p6 != |b| then Fail else Got(Manifest(id, covered, version, schema, files, keys), p6)
  }

  function DecodeManifest(b: Bytes): Option<Manifest> {
    var r := ParseManifest(b);
    if r.Got? && ManifestOk(r.value) then Some(r.value) else None
  }

  // ------------------------------------------------------- batch index

  datatype BatchEntry = BatchEntry(batchId: Bytes, seqNo: u64, operationId: Bytes, digest: Bytes)

  predicate EntryOk(e: BatchEntry) {
    && e.batchId != [] && e.seqNo != 0 && e.operationId != [] && |e.digest| == 32
    && |e.batchId| <= MAX_U32 && |e.operationId| <= MAX_U32
  }

  function EntryBytes(e: BatchEntry): Bytes {
    Str(e.batchId) + (U64(e.seqNo) + (Str(e.operationId) + e.digest))
  }

  function ParseEntry(b: Bytes, p: nat): Parsed<BatchEntry> {
    var (id, q) :- ParseStr(b, p);
    var (n, r) :- ParseU64(b, q);
    var (op, s) :- ParseStr(b, r);
    var (digest, t) :- ParseRaw(b, s, 32);
    var e := BatchEntry(id, n, op, digest);
    if EntryOk(e) then Got(e, t) else Fail
  }

  predicate IndexOk(es: seq<BatchEntry>) {
    |es| <= MAX_U32 && forall i :: 0 <= i < |es| ==> EntryOk(es[i])
  }

  function IndexBytes(es: seq<BatchEntry>): Bytes
    requires IndexOk(es)
  {
    Header(Magic("DBI2")) + (U32(|es|) + EncList(EntryBytes, es))
  }

  function EncodeIndex(es: seq<BatchEntry>): Option<Bytes> {
    if IndexOk(es) then Some(IndexBytes(es)) else None
  }

  function DecodeIndex(b: Bytes): Option<seq<BatchEntry>> {
    match ParseHeader(b, 0, Magic("DBI2"))
    case Fail => None
    case Got(_, p) =>
      match ParseU32(b, p)
      case Fail => None
      case Got(n, q) =>
        if n > Remaining(b, q) / 48 then None
        else
          match ParseList(ParseEntry, b, q, n)
          case Fail => None
          case Got(es, r) => if r == |b| then Some(es) else None
  }

  // ------------------------------------------- fields, files and entries read back

  lemma FieldBack(b: Bytes, p: nat, f: Field)
    requires FieldOk(f) && At(b, p, FieldBytes(f))
    ensures ParseField(b, p) == Got(f, p + |FieldBytes(f)|)
  {
    hide Str, ParseStr;
    AtSplit(b, p, Str(f.name), [Code(f.ty)]);
    ReadStr(b, p, f.name);
    ReadU8(b, p + |Str(f.name)|, Code(f.ty));
  }

  lemma FieldRead(b: Bytes, p: nat)
    requires ParseField(b, p).Got?
    ensures var f := ParseField(b, p).value;
      FieldOk(f) && At(b, p, FieldBytes(f)) && ParseField(b, p).next == p + |FieldBytes(f)|
  {
    hide Str, ParseStr;
    var f := ParseField(b, p).value;
    StrRead(b, p);
    ReadU8(b, p + |Str(f.name)|, Code(f.ty));
    AtSplit(b, p, Str(f.name), [Code(f.ty)]);
  }

  lemma FieldInverse()
    ensures Inverse(FieldBytes, ParseField, FieldOk) && ReadsBack(FieldBytes, ParseField, FieldOk)
  {
    hide FieldBytes, ParseField, FieldOk, At;
    forall f: Field, b: Bytes, p: nat | FieldOk(f) && At(b, p, FieldBytes(f))
      ensures ParseField(b, p) == Got(f, p + |FieldBytes(f)|)
    {
      FieldBack(b, p, f);
    }
    forall b: Bytes, p: nat | ParseField(b, p).Got?
      ensures FieldOk(ParseField(b, p).value) && At(b, p, FieldBytes(ParseField(b, p).value))
      ensures ParseField(b, p).next == p + |FieldBytes(ParseField(b, p).value)|
    {
      FieldRead(b, p);
    }
  }

  lemma ReadRange(b: Bytes, p: nat, f: DataFile)
    ensures At(b, p, Range(f)) <==>
      && ParseU64(b, p) == Got(f.firstSeq, p + 8) && ParseU64(b, p + 8) == Got(f.lastSeq, p + 16)
      && ParseU64(b, p + 16) == Got(f.rowCount, p + 24)
  {
    hide U64, ParseU64, At;
    AtSplit(b, p, U64(f.firstSeq), U64(f.lastSeq) + U64(f.rowCount));
    AtSplit(b, p + 8, U64(f.lastSeq), U64(f.rowCount));
    ReadU64(b, p, f.firstSeq);
    ReadU64(b, p + 8, f.lastSeq);
    ReadU64(b, p + 16, f.rowCount);
  }

  lemma FileBack(b: Bytes, p: nat, f: DataFile)
    requires FileOk(f) && At(b, p, FileBytes(f))
    ensures ParseFile(b, p) == Got(f, p + |FileBytes(f)|)
  {
    hide Str, ParseStr, Range, ParseU64, At;
    AtSplit(b, p, Str(f.path), Range(f));
    ReadStr(b, p, f.path);
    ReadRange(b, p + |Str(f.path)|, f);
  }

  lemma FileRead(b: Bytes, p: nat)
    requires ParseFile(b, p).Got?
    ensures var f := ParseFile(b, p).value;
      FileOk(f) && At(b, p, FileBytes(f)) && ParseFile(b, p).next == p + |FileBytes(f)|
  {
    hide Str, ParseStr, Range, ParseU64, At;
    var f := ParseFile(b, p).value;
    StrRead(b, p);
    var q := p + |Str(f.path)|;
    ParseU64Next(b, q);
    ParseU64Next(b, q + 8);
    ParseU64Next(b, q + 16);
    ReadRange(b, q, f);
    AtSplit(b, p, Str(f.path), Range(f));
  }

  lemma FileInverse()
    ensures Inverse(FileBytes, ParseFile, FileOk) && ReadsBack(FileBytes, ParseFile, FileOk)
  {
    hide FileBytes, ParseFile, FileOk, At;
    forall f: DataFile, b: Bytes, p: nat | FileOk(f) && At(b, p, FileBytes(f))
      ensures ParseFile(b, p) == Got(f, p + |FileBytes(f)|)
    {
      FileBack(b, p, f);
    }
    forall b: Bytes, p: nat | ParseFile(b, p).Got?
      ensures FileOk(ParseFile(b, p).value) && At(b, p, FileBytes(ParseFile(b, p).value))
      ensures ParseFile(b, p).next == p + |FileBytes(ParseFile(b, p).value)|
    {
      FileRead(b, p);
    }
  }

  lemma EntryBack(b: Bytes, p: nat, e: BatchEntry)
    requires EntryOk(e) && At(b, p, EntryBytes(e))
    ensures ParseEntry(b, p) == Got(e, p + |EntryBytes(e)|)
  {
    hide Str, ParseStr, U64, ParseU64, At, ParseRaw;
    var q := p + |Str(e.batchId)|;
    AtSplit(b, p, Str(e.batchId), U64(e.seqNo) + (Str(e.operationId) + e.digest));
    AtSplit(b, q, U64(e.seqNo), Str(e.operationId) + e.digest);
    AtSplit(b, q + 8, Str(e.operationId), e.digest);
    ReadStr(b, p, e.batchId);
    ReadU64(b, q, e.seqNo);
    ReadStr(b, q + 8, e.operationId);
    ReadRaw(b, q + 8 + |Str(e.operationId)|, e.digest);
  }

  lemma EntryRead(b: Bytes, p: nat)
    requires ParseEntry(b, p).Got?
    ensures var e := ParseEntry(b, p).value;
      EntryOk(e) && At(b, p, EntryBytes(e)) && ParseEntry(b, p).next == p + |EntryBytes(e)|
  {
    hide Str, ParseStr, U64, ParseU64, At;
    var e := ParseEntry(b, p).value;
    StrRead(b, p);
    var q := p + |Str(e.batchId)|;
    ParseU64Next(b, q);
    ReadU64(b, q, e.seqNo);
    StrRead(b, q + 8);
    ReadRaw(b, q + 8 + |Str(e.operationId)|, e.digest);
    AtSplit(b, q + 8, Str(e.operationId), e.digest);
    AtSplit(b, q, U64(e.seqNo), Str(e.operationId) + e.digest);
    AtSplit(b, p, Str(e.batchId), U64(e.seqNo) + (Str(e.operationId) + e.digest));
  }

  lemma EntryInverse()
    ensures Inverse(EntryBytes, ParseEntry, EntryOk) && ReadsBack(EntryBytes, ParseEntry, EntryOk)
  {
    hide EntryBytes, ParseEntry, EntryOk, At;
    forall e: BatchEntry, b: Bytes, p: nat | EntryOk(e) && At(b, p, EntryBytes(e))
      ensures ParseEntry(b, p) == Got(e, p + |EntryBytes(e)|)
    {
      EntryBack(b, p, e);
    }
    forall b: Bytes, p: nat | ParseEntry(b, p).Got?
      ensures EntryOk(ParseEntry(b, p).value) && At(b, p, EntryBytes(ParseEntry(b, p).value))
      ensures ParseEntry(b, p).next == p + |EntryBytes(ParseEntry(b, p).value)|
    {
      EntryRead(b, p);
    }
  }

  // ----------------------------------------------------- the exact inverses

  lemma ReadSchema(b: Bytes, p: nat, schema: Schema)
    requires |schema| <= MAX_COLUMNS && forall i :: 0 <= i < |schema| ==> FieldOk(schema[i])
    ensures At(b, p, SchemaBytes(schema)) <==> ParseSchema(b, p) == Got(schema, p + |SchemaBytes(schema)|)
  {
    hide U32, ParseU32, FieldBytes, ParseField, FieldOk, At, Inverse, ReadsBack;
    var n := |schema|;
    FieldInverse();
    AtSplit(b, p, U32(n), EncList(FieldBytes, schema));
    ReadU32(b, p, n);
    ParseU32Next(b, p);
    if At(b, p, SchemaBytes(schema)) {
      ListBack(FieldBytes, ParseField, FieldOk, b, p + 4, schema);
    }
    if ParseSchema(b, p).Got? {
      ListRead(FieldBytes, ParseField, FieldOk, b, p + 4, ParseU32(b, p).value);
    }
  }

  lemma SchemaRead(b: Bytes, p: nat)
    requires ParseSchema(b, p).Got?
    ensures var schema := ParseSchema(b, p).value;
      && |schema| <= MAX_COLUMNS && (forall i :: 0 <= i < |schema| ==> FieldOk(schema[i]))
      && ParseSchema(b, p).next == p + |SchemaBytes(schema)|
  {
    hide U32, ParseU32, FieldBytes, ParseField, FieldOk, At, Inverse, ReadsBack;
    FieldInverse();
    ParseU32Next(b, p);
    ListRead(FieldBytes, ParseField, FieldOk, b, p + 4, ParseU32(b, p).value);
  }

  lemma ReadFiles(b: Bytes, p: nat, files: seq<DataFile>)
    requires |files| <= MAX_U32 && forall i :: 0 <= i < |files| ==> FileOk(files[i])
    ensures At(b, p, FilesBytes(files)) <==> ParseFiles(b, p) == Got(files, p + |FilesBytes(files)|)
  {
    hide U32, ParseU32, ParseFile, FileOk, At, Inverse, ReadsBack, Str, Range;
    var n := |files|;
    FileInverse();
    AtSplit(b, p, U32(n), EncList(FileBytes, files));
    ReadU32(b, p, n);
    ParseU32Next(b, p);
    if At(b, p, FilesBytes(files)) {
      ListBack(FileBytes, ParseFile, FileOk, b, p + 4, files);
      ListSize(FileBytes, 28, files);
      AtEnd(b, p + 4, EncList(FileBytes, files));
    }
    if ParseFiles(b, p).Got? {
      ListRead(FileBytes, ParseFile, FileOk, b, p + 4, ParseU32(b, p).value);
    }
  }

  lemma FilesRead(b: Bytes, p: nat)
    requires ParseFiles(b, p).Got?
    ensures var files := ParseFiles(b, p).value;
      && |files| <= MAX_U32 && (forall i :: 0 <= i < |files| ==> FileOk(files[i]))
      && ParseFiles(b, p).next == p + |FilesBytes(files)|
  {
    hide U32, ParseU32, FileBytes, ParseFile, FileOk, At, Inverse, ReadsBack;
    FileInverse();
    ParseU32Next(b, p);
    ListRead(FileBytes, ParseFile, FileOk, b, p + 4, ParseU32(b, p).value);
  }

  lemma AtEnd(b: Bytes, p: nat, part: Bytes)
    requires At(b, p, part)
    ensures p + |part| <= |b|
  {
  }

  lemma ReadManifestHead(b: Bytes, m: Manifest)
    requires |m.tableId| <= MAX_U32
    ensures |ManifestHead(m)| == 28 + |m.tableId|
    ensures At(b, 0, ManifestHead(m)) <==>
      && ParseHeader(b, 0, Magic("DBM2")).Got? && ParseStr(b, 8) == Got(m.tableId, 12 + |m.tableId|)
      && ParseU64(b, 12 + |m.tableId|) == Got(m.coveredThroughSeq, 20 + |m.tableId|)
      && ParseU64(b, 20 + |m.tableId|) == Got(m.schemaVersion, 28 + |m.tableId|)
  {
    hide Header, ParseHeader, Str, ParseStr, U64, ParseU64, At, Magic;
    var magic := Magic("DBM2");
    MagicSize("DBM2");
    var p := 12 + |m.tableId|;
    var numbers := U64(m.coveredThroughSeq) + U64(m.schemaVersion);
    AtSplit(b, 0, Header(magic), Str(m.tableId) + numbers);
    AtSplit(b, 8, Str(m.tableId), numbers);
    AtSplit(b, p, U64(m.coveredThroughSeq), U64(m.schemaVersion));
    ReadHeader(b, 0, magic);
    ReadStr(b, 8, m.tableId);
    ReadU64(b, p, m.coveredThroughSeq);
    ReadU64(b, p + 8, m.schemaVersion);
  }

  lemma ManifestBack(m: Manifest)
    requires ManifestOk(m) && |m.schema| <= MAX_COLUMNS
    ensures ParseManifest(ManifestBytes(m)) == Got(m, |ManifestBytes(m)|)
  {
    hide ManifestHead, SchemaBytes, FilesBytes, Strs, ParseHeader, ParseStr, ParseU64, ParseSchema, ParseFiles,
      ParseStrs, At, Magic, Str, StrsOk, FieldOk, FileOk, HasPrefix;
    var b := ManifestBytes(m);
    var tail := FilesBytes(m.dataFiles) + Strs(m.batchIndexFiles);
    var p3 := |ManifestHead(m)|;
    var p4 := p3 + |SchemaBytes(m.schema)|;
    var p5 := p4 + |FilesBytes(m.dataFiles)|;
    AtWhole(b);
    AtSplit(b, 0, ManifestHead(m), SchemaBytes(m.schema) + tail);
    AtSplit(b, p3, SchemaBytes(m.schema), tail);
    AtSplit(b, p4, FilesBytes(m.dataFiles), Strs(m.batchIndexFiles));
    ReadManifestHead(b, m);
    MagicSize("DBM2");
    ReadHeader(b, 0, Magic("DBM2"));
    ReadSchema(b, p3, m.schema);
    ReadFiles(b, p4, m.dataFiles);
    StrsBack(b, p5, m.batchIndexFiles);
  }

  lemma AtWhole(b: Bytes)
    ensures At(b, 0, b)
  {
    assert b[0..|b|] == b;
  }

  lemma AtAll(b: Bytes, x: Bytes)
    requires At(b, 0, x) && |b| == |x|
    ensures b == x
  {
    assert b[0..|b|] == b;
  }

  lemma ManifestRead(b: Bytes)
    requires DecodeManifest(b).Some?
    ensures var m := DecodeManifest(b).value; |m.schema| <= MAX_COLUMNS && ManifestOk(m) && ManifestBytes(m) == b
  {
    hide ManifestHead, SchemaBytes, FilesBytes, Strs, ParseHeader, ParseStr, ParseU64, ParseSchema, ParseFiles,
      ParseStrs, At, Magic, Str, StrsOk, FieldOk, FileOk, HasPrefix;
    var m := ParseManifest(b).value;
    MagicSize("DBM2");
    ReadHeader(b, 0, Magic("DBM2"));
    StrRead(b, 8);
    ParseU64Next(b, 12 + |m.tableId|);
    ParseU64Next(b, 20 + |m.tableId|);
    ReadManifestHead(b, m);
    var p3 := |ManifestHead(m)|;
    SchemaRead(b, p3);
    ReadSchema(b, p3, m.schema);
    var p4 := p3 + |SchemaBytes(m.schema)|;
    FilesRead(b, p4);
    ReadFiles(b, p4, m.dataFiles);
    var p5 := p4 + |FilesBytes(m.dataFiles)|;
    StrsRead(b, p5);
    var tail := FilesBytes(m.dataFiles) + Strs(m.batchIndexFiles);
    AtSplit(b, p4, FilesBytes(m.dataFiles), Strs(m.batchIndexFiles));
    AtSplit(b, p3, SchemaBytes(m.schema), tail);
    AtSplit(b, 0, ManifestHead(m), SchemaBytes(m.schema) + tail);
    AtAll(b, ManifestBytes(m));
  }

  /**
   * The manifest codec is an exact inverse both ways on manifests of at most 1024 columns, and a wider
   * manifest, which the encoder still writes, is never read back.
   */
  lemma ManifestCodecExact(b: Bytes, m: Manifest)
    ensures DecodeManifest(b) == Some(m) <==> EncodeManifest(m) == Some(b) && |m.schema| <= MAX_COLUMNS
  {
    hide ManifestOk, ParseManifest, ManifestBytes;
    if DecodeManifest(b).Some? {
      ManifestRead(b);
    }
    if EncodeManifest(m) == Some(b) && |m.schema| <= MAX_COLUMNS {
      ManifestBack(m);
    }
  }

  lemma IndexBack(es: seq<BatchEntry>)
    requires IndexOk(es)
    ensures DecodeIndex(IndexBytes(es)) == Some(es)
  {
    hide Header, ParseHeader, U32, ParseU32, ParseEntry, EntryOk, At, Inverse, ReadsBack, Magic, Str, U64;
    var b := IndexBytes(es);
    var magic := Magic("DBI2");
    MagicSize("DBI2");
    EntryInverse();
    AtWhole(b);
    AtSplit(b, 0, Header(magic), U32(|es|) + EncList(EntryBytes, es));
    AtSplit(b, 8, U32(|es|), EncList(EntryBytes, es));
    ReadHeader(b, 0, magic);
    ReadU32(b, 8, |es|);
    ListBack(EntryBytes, ParseEntry, EntryOk, b, 12, es);
    forall i | 0 <= i < |es|
      ensures |EntryBytes(es[i])| >= 48
    {
      EntrySize(es[i]);
    }
    ListSize(EntryBytes, 48, es);
  }

  lemma EntrySize(e: BatchEntry)
    requires EntryOk(e)
    ensures |EntryBytes(e)| >= 48
  {
  }

  lemma IndexRead(b: Bytes)
    requires DecodeIndex(b).Some?
    ensures IndexOk(DecodeIndex(b).value) && IndexBytes(DecodeIndex(b).value) == b
  {
    hide Header, ParseHeader, U32, ParseU32, EntryBytes, ParseEntry, EntryOk, At, Inverse, ReadsBack, Magic, EncList,
      ParseList;
    var magic := Magic("DBI2");
    MagicSize("DBI2");
    EntryInverse();
    ReadHeader(b, 0, magic);
    ParseU32Next(b, 8);
    var n := ParseU32(b, 8).value;
    ReadU32(b, 8, n);
    ListRead(EntryBytes, ParseEntry, EntryOk, b, 12, n);
    var es := DecodeIndex(b).value;
    AtSplit(b, 8, U32(|es|), EncList(EntryBytes, es));
    AtSplit(b, 0, Header(magic), U32(|es|) + EncList(EntryBytes, es));
    AtAll(b, IndexBytes(es));
  }

  /** The batch-index codec is an exact inverse both ways. */
  lemma IndexCodecExact(b: Bytes, es: seq<BatchEntry>)
    ensures DecodeIndex(b) == Some(es) <==> EncodeIndex(es) == Some(b)
  {
    hide DecodeIndex, IndexBytes, IndexOk;
    if DecodeIndex(b).Some? {
      IndexRead(b);
    }
    if IndexOk(es) {
      IndexBack(es);
    }
  }
}
