/**
 * The stored objects by byte position: where every field stands, what every checksum covers. An object is accepted
 * exactly when it is laid out so.
 */
module ObjectLayout {
  import opened Table
  import opened ByteFormat
  import opened ObjectCodec
  import opened WalCodec
  import WalRows

  // -------------------------------------------------------------- fields

  /** The number whose bytes stand at p..p+n, the least significant first. */
  function Number(b: Bytes, p: nat, n: nat): nat
    requires p + n <= |b|
  {
    if n == 0 then 0 else Number(b, p, n - 1) + b[p + n - 1] * Pow256(n - 1)
  }

  predicate Num(b: Bytes, p: nat, n: nat, v: nat) {
    p + n <= |b| && Number(b, p, n) == v
  }

  /** A text is its length in four bytes, then its bytes. */
  predicate Text(b: Bytes, p: nat, s: Bytes) {
    Num(b, p, 4, |s|) && p + 4 + |s| <= |b| && b[p + 4..p + 4 + |s|] == s
  }

  /** Four letters, and the format version where one follows. */
  predicate Tag(b: Bytes, p: nat, s: string)
    requires |s| == 4
  {
    p + 4 <= |b| && forall i :: 0 <= i < 4 ==> b[p + i] == (s[i] as int) % 256
  }

  lemma {:induction false} FromLeSnoc(b: Bytes, x: byte)
    ensures FromLe(b + [x]) == FromLe(b) + x * Pow256(|b|)
  {
    if b == [] {
      assert FromLe([x]) == x + 256 * FromLe([x][1..]);
    } else {
      FromLeSnoc(b[1..], x);
      assert (b + [x])[1..] == b[1..] + [x];
      Swap(x, Pow256(|b| - 1));
    }
  }

  lemma Swap(x: nat, y: nat)
    ensures 256 * (x * y) == x * (256 * y)
  {
  }

  lemma {:induction false} NumberIs(b: Bytes, p: nat, n: nat)
    requires p + n <= |b|
    ensures Number(b, p, n) == FromLe(b[p..p + n])
  {
    if n != 0 {
      NumberIs(b, p, n - 1);
      FromLeSnoc(b[p..p + n - 1], b[p + n - 1]);
      assert b[p..p + n] == b[p..p + n - 1] + [b[p + n - 1]];
    }
  }

  lemma Num32(b: Bytes, p: nat, v: u32)
    ensures At(b, p, U32(v)) <==> Num(b, p, 4, v)
  {
    ReadU32(b, p, v);
    if p + 4 <= |b| {
      NumberIs(b, p, 4);
    }
  }

  lemma Num64(b: Bytes, p: nat, v: u64)
    ensures At(b, p, U64(v)) <==> Num(b, p, 8, v)
  {
    ReadU64(b, p, v);
    if p + 8 <= |b| {
      NumberIs(b, p, 8);
    }
  }

  lemma TextIs(b: Bytes, p: nat, s: Bytes)
    requires StrOk(s)
    ensures At(b, p, Str(s)) <==> Text(b, p, s)
  {
    hide U32, Number;
    AtSplit(b, p, U32(|s|), s);
    Num32(b, p, |s|);
  }

  lemma TagIs(b: Bytes, p: nat, s: string)
    requires |s| == 4
    ensures At(b, p, Magic(s)) <==> Tag(b, p, s)
  {
    if p + 4 <= |b| {
      var part, m := b[p..p + 4], Magic(s);
      assert |m| == 4 && forall i :: 0 <= i < 4 ==> m[i] == (s[i] as int) % 256 && part[i] == b[p + i];
      if Tag(b, p, s) {
        assert forall i :: 0 <= i < 4 ==> part[i] == m[i];
        assert part == m;
      }
      if part == m {
        assert forall i :: 0 <= i < 4 ==> b[p + i] == part[i] == m[i];
      }
    }
  }

  /** Every object begins with its four letters and format version 2. */
  predicate Headed(b: Bytes, s: string)
    requires |s| == 4
  {
    Tag(b, 0, s) && Num(b, 4, 4, 2)
  }

  lemma HeadedIs(b: Bytes, s: string)
    requires |s| == 4
    ensures At(b, 0, Header(Magic(s))) <==> Headed(b, s)
    ensures |Header(Magic(s))| == 8
  {
    hide U32, Number, Magic, Tag;
    MagicSize(s);
    AtSplit(b, 0, Magic(s), U32(2));
    TagIs(b, 0, s);
    Num32(b, 4, 2);
  }

  // --------------------------------------------------------------- lists

  /** How many bytes the first `i` items take. */
  function Before<T>(size: T -> nat, xs: seq<T>, i: nat): nat
    requires i <= |xs|
  {
    if i == 0 then 0 else Before(size, xs, i - 1) + size(xs[i - 1])
  }

  lemma {:induction false} BeforeInit<T>(size: T -> nat, xs: seq<T>, n: nat, i: nat)
    requires i <= n <= |xs|
    ensures Before(size, xs[..n], i) == Before(size, xs, i)
  {
    if i != 0 {
      BeforeInit(size, xs, n, i - 1);
    }
  }

  ghost predicate Listed<T>(enc: T -> Bytes, size: T -> nat, b: Bytes, p: nat, xs: seq<T>) {
    && p + Before(size, xs, |xs|) <= |b|
    && forall i :: 0 <= i < |xs| ==> At(b, p + Before(size, xs, i), enc(xs[i]))
  }

  lemma {:induction false} ListedInit<T>(enc: T -> Bytes, size: T -> nat, b: Bytes, p: nat, xs: seq<T>)
    requires xs != [] && size(xs[|xs| - 1]) == |enc(xs[|xs| - 1])|
    ensures var n := |xs| - 1;
      Listed(enc, size, b, p, xs) <==> Listed(enc, size, b, p, xs[..n]) && At(b, p + Before(size, xs, n), enc(xs[n]))
  {
    hide At, Before;
    var n := |xs| - 1;
    BeforeInit(size, xs, n, n);
    BeforeStep(size, xs, n);
    AtEnds(b, p + Before(size, xs, n), enc(xs[n]));
    forall i | 0 <= i < n
      ensures Before(size, xs[..n], i) == Before(size, xs, i)
    {
      BeforeInit(size, xs, n, i);
    }
    if Listed(enc, size, b, p, xs) {
      assert At(b, p + Before(size, xs, n), enc(xs[n]));
      forall i | 0 <= i < n
        ensures At(b, p + Before(size, xs[..n], i), enc(xs[..n][i]))
      {
        assert At(b, p + Before(size, xs, i), enc(xs[i]));
      }
    }
    if Listed(enc, size, b, p, xs[..n]) && At(b, p + Before(size, xs, n), enc(xs[n])) {
      forall i | 0 <= i < |xs|
        ensures At(b, p + Before(size, xs, i), enc(xs[i]))
      {
        if i < n {
          assert At(b, p + Before(size, xs[..n], i), enc(xs[..n][i]));
        }
      }
    }
  }

  lemma BeforeStep<T>(size: T -> nat, xs: seq<T>, n: nat)
    requires n < |xs|
    ensures Before(size, xs, n + 1) == Before(size, xs, n) + size(xs[n])
  {
  }

  lemma AtEnds(b: Bytes, p: nat, x: Bytes)
    ensures At(b, p, x) ==> p + |x| <= |b|
  {
  }

  lemma {:induction false} ListSizeIs<T>(enc: T -> Bytes, size: T -> nat, xs: seq<T>)
    requires forall i :: 0 <= i < |xs| ==> size(xs[i]) == |enc(xs[i])|
    ensures |EncList(enc, xs)| == Before(size, xs, |xs|)
  {
    if xs != [] {
      var n := |xs| - 1;
      ListSizeIs(enc, size, xs[..n]);
      BeforeInit(size, xs, n, n);
    }
  }

  /** A list stands in the object exactly when each item stands where the ones before it end. */
  lemma {:induction false} ListedIs<T>(enc: T -> Bytes, size: T -> nat, b: Bytes, p: nat, xs: seq<T>)
    requires forall i :: 0 <= i < |xs| ==> size(xs[i]) == |enc(xs[i])|
    ensures |EncList(enc, xs)| == Before(size, xs, |xs|)
    ensures At(b, p, EncList(enc, xs)) <==> Listed(enc, size, b, p, xs)
  {
    hide At, Listed, Before, EncList;
    ListSizeIs(enc, size, xs);
    if xs == [] {
      ListedNone(enc, size, b, p);
    } else {
      var n := |xs| - 1;
      ListedIs(enc, size, b, p, xs[..n]);
      BeforeInit(size, xs, n, n);
      EncSnoc(enc, xs);
      AtSplit(b, p, EncList(enc, xs[..n]), enc(xs[n]));
      ListedInit(enc, size, b, p, xs);
    }
  }

  lemma EncSnoc<T>(enc: T -> Bytes, xs: seq<T>)
    requires xs != []
    ensures EncList(enc, xs) == EncList(enc, xs[..|xs| - 1]) + enc(xs[|xs| - 1])
  {
  }

  lemma ListedNone<T>(enc: T -> Bytes, size: T -> nat, b: Bytes, p: nat)
    ensures EncList(enc, []) == []
    ensures At(b, p, []) <==> Listed(enc, size, b, p, [])
  {
  }

  function TextSize(s: Bytes): nat {
    4 + |s|
  }

  /** A count, then texts. */
  ghost predicate Texts(b: Bytes, p: nat, xs: seq<Bytes>) {
    && Num(b, p, 4, |xs|) && p + 4 + Before(TextSize, xs, |xs|) <= |b|
    && forall i :: 0 <= i < |xs| ==> Text(b, p + 4 + Before(TextSize, xs, i), xs[i])
  }

  lemma TextsIs(b: Bytes, p: nat, xs: seq<Bytes>)
    requires StrsOk(xs)
    ensures At(b, p, Strs(xs)) <==> Texts(b, p, xs)
    ensures |Strs(xs)| == 4 + Before(TextSize, xs, |xs|)
  {
    hide U32, Number, EncList, At, Text, Before;
    AtSplit(b, p, U32(|xs|), EncList(Str, xs));
    Num32(b, p, |xs|);
    ListedIs(Str, TextSize, b, p + 4, xs);
    forall i | 0 <= i < |xs|
      ensures At(b, p + 4 + Before(TextSize, xs, i), Str(xs[i])) <==> Text(b, p + 4 + Before(TextSize, xs, i), xs[i])
    {
      TextIs(b, p + 4 + Before(TextSize, xs, i), xs[i]);
    }
  }

  // ------------------------------------------------------------- CURRENT

  predicate StateLaid(b: Bytes, s: State) {
    var q := 12 + |s.tableId|;
    && Headed(b, "DBS2") && Text(b, 8, s.tableId)
    && Num(b, q, 8, s.stateVersion) && Num(b, q + 8, 8, s.schemaVersion) && Num(b, q + 16, 8, s.writerEpoch)
    && Num(b, q + 24, 8, s.indexedSeq) && Num(b, q + 32, 8, s.publishedSeq)
    && Text(b, q + 40, s.manifestKey) && |b| == q + 44 + |s.manifestKey|
  }

  lemma NumbersLaid(b: Bytes, q: nat, s: State)
    ensures |Numbers(s)| == 40
    ensures At(b, q, Numbers(s)) <==>
      && Num(b, q, 8, s.stateVersion) && Num(b, q + 8, 8, s.schemaVersion) && Num(b, q + 16, 8, s.writerEpoch)
      && Num(b, q + 24, 8, s.indexedSeq) && Num(b, q + 32, 8, s.publishedSeq)
  {
    hide U64, At, Num;
    var d := U64(s.indexedSeq) + U64(s.publishedSeq);
    var c := U64(s.writerEpoch) + d;
    AtSplit(b, q, U64(s.stateVersion), U64(s.schemaVersion) + c);
    AtSplit(b, q + 8, U64(s.schemaVersion), c);
    AtSplit(b, q + 16, U64(s.writerEpoch), d);
    AtSplit(b, q + 24, U64(s.indexedSeq), U64(s.publishedSeq));
    Num64(b, q, s.stateVersion);
    Num64(b, q + 8, s.schemaVersion);
    Num64(b, q + 16, s.writerEpoch);
    Num64(b, q + 24, s.indexedSeq);
    Num64(b, q + 32, s.publishedSeq);
  }

  /** A CURRENT object decodes to a state exactly when the state is valid and every field stands in its place. */
  lemma StateLayout(b: Bytes, s: State)
    ensures DecodeState(b) == Some(s) <==> StateOk(s) && StateLaid(b, s)
  {
    StateCodecExact(b, s);
    if StateOk(s) {
      hide Header, Str, At, Numbers, Magic, StateOk, DecodeState, Headed, Text, Num;
      StateSizes(s);
      var q := 12 + |s.tableId|;
      var tail := Numbers(s) + Str(s.manifestKey);
      Whole(b, StateBytes(s));
      AtSplit(b, 0, Header(Magic("DBS2")), Str(s.tableId) + tail);
      AtSplit(b, 8, Str(s.tableId), tail);
      AtSplit(b, q, Numbers(s), Str(s.manifestKey));
      HeadedIs(b, "DBS2");
      TextIs(b, 8, s.tableId);
      NumbersLaid(b, q, s);
      TextIs(b, q + 40, s.manifestKey);
    }
  }

  lemma Whole(b: Bytes, x: Bytes)
    ensures b == x <==> At(b, 0, x) && |b| == |x|
  {
    assert b[0..|b|] == b;
  }

  // ------------------------------------------------------------ manifest

  function FieldSize(f: Field): nat {
    5 + |f.name|
  }

  function FileSize(f: DataFile): nat {
    28 + |f.path|
  }

  predicate FieldLaid(b: Bytes, p: nat, f: Field) {
    Text(b, p, f.name) && p + 4 + |f.name| < |b| && b[p + 4 + |f.name|] == Code(f.ty)
  }

  predicate FileLaid(b: Bytes, p: nat, f: DataFile) {
    var q := p + 4 + |f.path|;
    Text(b, p, f.path) && Num(b, q, 8, f.firstSeq) && Num(b, q + 8, 8, f.lastSeq) && Num(b, q + 16, 8, f.rowCount)
  }

  ghost predicate SchemaLaid(b: Bytes, p: nat, schema: Schema) {
    && Num(b, p, 4, |schema|) && p + 4 + Before(FieldSize, schema, |schema|) <= |b|
    && forall i :: 0 <= i < |schema| ==> FieldLaid(b, p + 4 + Before(FieldSize, schema, i), schema[i])
  }

  ghost predicate FilesLaid(b: Bytes, p: nat, files: seq<DataFile>) {
    && Num(b, p, 4, |files|) && p + 4 + Before(FileSize, files, |files|) <= |b|
    && forall i :: 0 <= i < |files| ==> FileLaid(b, p + 4 + Before(FileSize, files, i), files[i])
  }

  /** Table, covered sequence number and schema version. */
  predicate ManifestHeadLaid(b: Bytes, m: Manifest) {
    var q := 12 + |m.tableId|;
    && Headed(b, "DBM2") && Text(b, 8, m.tableId)
    && Num(b, q, 8, m.coveredThroughSeq) && Num(b, q + 8, 8, m.schemaVersion)
  }

  function FilesAt(m: Manifest): nat {
    32 + |m.tableId| + Before(FieldSize, m.schema, |m.schema|)
  }

  function KeysAt(m: Manifest): nat {
    FilesAt(m) + 4 + Before(FileSize, m.dataFiles, |m.dataFiles|)
  }

  ghost predicate ManifestLaid(b: Bytes, m: Manifest) {
    && ManifestHeadLaid(b, m) && SchemaLaid(b, 28 + |m.tableId|, m.schema)
    && FilesLaid(b, FilesAt(m), m.dataFiles) && Texts(b, KeysAt(m), m.batchIndexFiles)
    && |b| == KeysAt(m) + 4 + Before(TextSize, m.batchIndexFiles, |m.batchIndexFiles|)
  }

  lemma FieldIs(b: Bytes, p: nat, f: Field)
    requires StrOk(f.name)
    ensures |FieldBytes(f)| == FieldSize(f)
    ensures At(b, p, FieldBytes(f)) <==> FieldLaid(b, p, f)
  {
    hide Text, Str;
    AtSplit(b, p, Str(f.name), [Code(f.ty)]);
    TextIs(b, p, f.name);
  }

  lemma FileIs(b: Bytes, p: nat, f: DataFile)
    requires StrOk(f.path)
    ensures |FileBytes(f)| == FileSize(f)
    ensures At(b, p, FileBytes(f)) <==> FileLaid(b, p, f)
  {
    hide Text, Str, U64, At, Num;
    var q := p + 4 + |f.path|;
    AtSplit(b, p, Str(f.path), Range(f));
    AtSplit(b, q, U64(f.firstSeq), U64(f.lastSeq) + U64(f.rowCount));
    AtSplit(b, q + 8, U64(f.lastSeq), U64(f.rowCount));
    TextIs(b, p, f.path);
    Num64(b, q, f.firstSeq);
    Num64(b, q + 8, f.lastSeq);
    Num64(b, q + 16, f.rowCount);
  }

  lemma SchemaIs(b: Bytes, p: nat, schema: Schema)
    requires |schema| <= MAX_U32 && forall i :: 0 <= i < |schema| ==> StrOk(schema[i].name)
    ensures |SchemaBytes(schema)| == 4 + Before(FieldSize, schema, |schema|)
    ensures At(b, p, SchemaBytes(schema)) <==> SchemaLaid(b, p, schema)
  {
    hide U32, Num, EncList, At, FieldLaid, Before, FieldBytes;
    AtSplit(b, p, U32(|schema|), EncList(FieldBytes, schema));
    Num32(b, p, |schema|);
    forall i | 0 <= i < |schema|
      ensures |FieldBytes(schema[i])| == FieldSize(schema[i])
      ensures var at := p + 4 + Before(FieldSize, schema, i);
        At(b, at, FieldBytes(schema[i])) <==> FieldLaid(b, at, schema[i])
    {
      FieldIs(b, p + 4 + Before(FieldSize, schema, i), schema[i]);
    }
    ListedIs(FieldBytes, FieldSize, b, p + 4, schema);
  }

  lemma FilesIs(b: Bytes, p: nat, files: seq<DataFile>)
    requires |files| <= MAX_U32 && forall i :: 0 <= i < |files| ==> StrOk(files[i].path)
    ensures |FilesBytes(files)| == 4 + Before(FileSize, files, |files|)
    ensures At(b, p, FilesBytes(files)) <==> FilesLaid(b, p, files)
  {
    hide U32, Num, EncList, At, FileLaid, Before, FileBytes;
    AtSplit(b, p, U32(|files|), EncList(FileBytes, files));
    Num32(b, p, |files|);
    forall i | 0 <= i < |files|
      ensures |FileBytes(files[i])| == FileSize(files[i])
      ensures var at := p + 4 + Before(FileSize, files, i);
        At(b, at, FileBytes(files[i])) <==> FileLaid(b, at, files[i])
    {
      FileIs(b, p + 4 + Before(FileSize, files, i), files[i]);
    }
    ListedIs(FileBytes, FileSize, b, p + 4, files);
  }

  lemma HeadLaid(b: Bytes, m: Manifest)
    requires StrOk(m.tableId)
    ensures |ManifestHead(m)| == 28 + |m.tableId|
    ensures At(b, 0, ManifestHead(m)) <==> ManifestHeadLaid(b, m)
  {
    hide Header, Str, At, Magic, Headed, Text, Num, U64;
    var q := 12 + |m.tableId|;
    var numbers := U64(m.coveredThroughSeq) + U64(m.schemaVersion);
    HeadedIs(b, "DBM2");
    AtSplit(b, 0, Header(Magic("DBM2")), Str(m.tableId) + numbers);
    AtSplit(b, 8, Str(m.tableId), numbers);
    AtSplit(b, q, U64(m.coveredThroughSeq), U64(m.schemaVersion));
    TextIs(b, 8, m.tableId);
    Num64(b, q, m.coveredThroughSeq);
    Num64(b, q + 8, m.schemaVersion);
  }

  lemma FourParts(b: Bytes, w: Bytes, x: Bytes, y: Bytes, z: Bytes)
    ensures w + (x + (y + z)) == b <==>
      && At(b, 0, w) && At(b, |w|, x) && At(b, |w| + |x|, y) && At(b, |w| + |x| + |y|, z)
      && |b| == |w| + |x| + |y| + |z|
  {
    hide At;
    Whole(b, w + (x + (y + z)));
    AtSplit(b, 0, w, x + (y + z));
    AtSplit(b, |w|, x, y + z);
    AtSplit(b, |w| + |x|, y, z);
  }

  lemma ManifestWidths(m: Manifest)
    requires ManifestOk(m) && |m.schema| <= MAX_COLUMNS
    ensures |ManifestHead(m)| == 28 + |m.tableId| && 28 + |m.tableId| + |SchemaBytes(m.schema)| == FilesAt(m)
    ensures FilesAt(m) + |FilesBytes(m.dataFiles)| == KeysAt(m)
    ensures |Strs(m.batchIndexFiles)| == 4 + Before(TextSize, m.batchIndexFiles, |m.batchIndexFiles|)
  {
    ManifestSizes(m);
    hide ManifestHead, SchemaBytes, FilesBytes, Strs, At, ManifestOk, Before, StrsOk, StrOk;
    HeadLaid([], m);
    SchemaIs([], 0, m.schema);
    FilesIs([], 0, m.dataFiles);
    TextsIs([], 0, m.batchIndexFiles);
  }

  lemma ManifestParts(b: Bytes, m: Manifest)
    requires ManifestOk(m) && |m.schema| <= MAX_COLUMNS
    ensures ManifestBytes(m) == b <==>
      && At(b, 0, ManifestHead(m)) && At(b, 28 + |m.tableId|, SchemaBytes(m.schema))
      && At(b, FilesAt(m), FilesBytes(m.dataFiles)) && At(b, KeysAt(m), Strs(m.batchIndexFiles))
      && |b| == KeysAt(m) + 4 + Before(TextSize, m.batchIndexFiles, |m.batchIndexFiles|)
  {
    ManifestSizes(m);
    ManifestWidths(m);
    hide ManifestHead, SchemaBytes, FilesBytes, Strs, At, ManifestOk, Before, StrsOk, StrOk, FilesAt, KeysAt;
    FourParts(b, ManifestHead(m), SchemaBytes(m.schema), FilesBytes(m.dataFiles), Strs(m.batchIndexFiles));
  }

  lemma ManifestIs(b: Bytes, m: Manifest)
    requires ManifestOk(m) && |m.schema| <= MAX_COLUMNS
    ensures ManifestBytes(m) == b <==> ManifestLaid(b, m)
  {
    ManifestSizes(m);
    hide ManifestHead, SchemaBytes, FilesBytes, Strs, At, ManifestOk, SchemaLaid, FilesLaid, Texts, Before,
      ManifestHeadLaid, StrsOk, FieldSize, FileSize, TextSize, StrOk, ManifestBytes, FilesAt, KeysAt;
    ManifestParts(b, m);
    HeadLaid(b, m);
    SchemaIs(b, 28 + |m.tableId|, m.schema);
    FilesIs(b, FilesAt(m), m.dataFiles);
    TextsIs(b, KeysAt(m), m.batchIndexFiles);
  }

  /** A manifest object decodes to a manifest exactly when that is valid, not too wide, and laid out so. */
  lemma ManifestLayout(b: Bytes, m: Manifest)
    ensures DecodeManifest(b) == Some(m) <==> ManifestOk(m) && |m.schema| <= MAX_COLUMNS && ManifestLaid(b, m)
  {
    hide ManifestOk, ManifestLaid, DecodeManifest, ManifestBytes;
    ManifestCodecExact(b, m);
    if ManifestOk(m) && |m.schema| <= MAX_COLUMNS {
      ManifestIs(b, m);
    }
  }

  lemma ManifestSizes(m: Manifest)
    requires ManifestOk(m)
    ensures StrOk(m.tableId) && |m.dataFiles| <= MAX_U32 && StrsOk(m.batchIndexFiles)
    ensures forall i :: 0 <= i < |m.schema| ==> StrOk(m.schema[i].name)
    ensures forall i :: 0 <= i < |m.dataFiles| ==> StrOk(m.dataFiles[i].path)
  {
  }

  // --------------------------------------------------------- batch index

  function EntrySize(e: BatchEntry): nat {
    48 + |e.batchId| + |e.operationId|
  }

  predicate EntryLaid(b: Bytes, p: nat, e: BatchEntry) {
    var q := p + 4 + |e.batchId|;
    var r := q + 12 + |e.operationId|;
    && Text(b, p, e.batchId) && Num(b, q, 8, e.seqNo) && Text(b, q + 8, e.operationId)
    && r + 32 <= |b| && b[r..r + 32] == e.digest
  }

  ghost predicate IndexLaid(b: Bytes, es: seq<BatchEntry>) {
    && Headed(b, "DBI2") && Num(b, 8, 4, |es|) && |b| == 12 + Before(EntrySize, es, |es|)
    && forall i :: 0 <= i < |es| ==> EntryLaid(b, 12 + Before(EntrySize, es, i), es[i])
  }

  lemma EntryIs(b: Bytes, p: nat, e: BatchEntry)
    requires EntryOk(e)
    ensures |EntryBytes(e)| == EntrySize(e)
    ensures At(b, p, EntryBytes(e)) <==> EntryLaid(b, p, e)
  {
    hide Text, Str, U64, Num;
    var q := p + 4 + |e.batchId|;
    AtSplit(b, p, Str(e.batchId), U64(e.seqNo) + (Str(e.operationId) + e.digest));
    AtSplit(b, q, U64(e.seqNo), Str(e.operationId) + e.digest);
    AtSplit(b, q + 8, Str(e.operationId), e.digest);
    TextIs(b, p, e.batchId);
    Num64(b, q, e.seqNo);
    TextIs(b, q + 8, e.operationId);
  }

  lemma EntriesIs(b: Bytes, p: nat, es: seq<BatchEntry>)
    requires forall i :: 0 <= i < |es| ==> EntryOk(es[i])
    ensures |EncList(EntryBytes, es)| == Before(EntrySize, es, |es|)
    ensures At(b, p, EncList(EntryBytes, es)) <==>
      && p + Before(EntrySize, es, |es|) <= |b|
      && forall i :: 0 <= i < |es| ==> EntryLaid(b, p + Before(EntrySize, es, i), es[i])
  {
    hide EncList, At, EntryLaid, Before, EntryBytes, EntryOk;
    forall i | 0 <= i < |es|
      ensures |EntryBytes(es[i])| == EntrySize(es[i])
      ensures var at := p + Before(EntrySize, es, i); At(b, at, EntryBytes(es[i])) <==> EntryLaid(b, at, es[i])
    {
      EntryIs(b, p + Before(EntrySize, es, i), es[i]);
    }
    ListedIs(EntryBytes, EntrySize, b, p, es);
  }

  lemma IndexIs(b: Bytes, es: seq<BatchEntry>)
    requires IndexOk(es)
    ensures IndexBytes(es) == b <==> IndexLaid(b, es)
  {
    hide U32, Num, EncList, At, EntryLaid, Before, EntryBytes, EntryOk, Header, Magic, Headed;
    Whole(b, IndexBytes(es));
    HeadedIs(b, "DBI2");
    AtSplit(b, 0, Header(Magic("DBI2")), U32(|es|) + EncList(EntryBytes, es));
    AtSplit(b, 8, U32(|es|), EncList(EntryBytes, es));
    Num32(b, 8, |es|);
    EntriesIs(b, 12, es);
  }

  /** A batch index decodes to entries exactly when they are valid and laid out one after the other. */
  lemma IndexLayout(b: Bytes, es: seq<BatchEntry>)
    ensures DecodeIndex(b) == Some(es) <==> IndexOk(es) && IndexLaid(b, es)
  {
    hide IndexOk, IndexLaid, DecodeIndex, IndexBytes;
    IndexCodecExact(b, es);
    if IndexOk(es) {
      IndexIs(b, es);
    }
  }

  // ----------------------------------------------------------------- WAL

  /** The four bytes at `at` are the checksum of the bytes from `from` up to them. */
  predicate Checked(h: Hashes, b: Bytes, from: nat, at: nat) {
    from <= at && at + 4 <= |b| && Number(b, at, 4) == h.crc(b[from..at])
  }

  function ChunkSize(c: RawChunk): nat {
    12 + |c.payload|
  }

  predicate ChunkLaid(h: Hashes, b: Bytes, p: nat, c: RawChunk) {
    var q := p + 8 + |c.payload|;
    && Num(b, p, 4, c.rows) && Num(b, p + 4, 4, |c.payload|)
    && q <= |b| && b[p + 8..q] == c.payload && Checked(h, b, p, q)
  }

  ghost predicate ChunksLaid(h: Hashes, b: Bytes, p: nat, cs: seq<RawChunk>) {
    && p + Before(ChunkSize, cs, |cs|) <= |b|
    && forall i :: 0 <= i < |cs| ==> ChunkLaid(h, b, p + Before(ChunkSize, cs, i), cs[i])
  }

  /** The bytes of the first `n` chunks without their checksums. */
  ghost function Unsealed(b: Bytes, p: nat, cs: seq<RawChunk>, n: nat): Bytes
    requires n <= |cs|
  {
    if n == 0 then []
    else
      var from := p + Before(ChunkSize, cs, n - 1);
      var to := from + 8 + |cs[n - 1].payload|;
      Unsealed(b, p, cs, n - 1) + (if to <= |b| then b[from..to] else [])
  }

  function IdsAt(w: RawWal): nat {
    37 + |w.tableId| + TextSize(w.operationId)
  }

  function ChunksAt(w: RawWal): nat {
    IdsAt(w) + 8 + Before(TextSize, w.batchIds, |w.batchIds|)
  }

  /** What the digest covers: the schema version, the id list and the chunks, as they stand. */
  ghost function Covered(b: Bytes, w: RawWal): Bytes
    requires ChunksAt(w) <= |b|
  {
    b[29 + |w.tableId|..37 + |w.tableId|] + b[IdsAt(w)..ChunksAt(w) - 4]
    + Unsealed(b, ChunksAt(w), w.chunks, |w.chunks|)
  }

  /** Kind, table, number, epoch, schema version, operation, batch ids, number of chunks. */
  ghost predicate WalHeadLaid(b: Bytes, w: RawWal) {
    var q := 13 + |w.tableId|;
    && Headed(b, "DBW2") && 8 < |b| && b[8] == (if w.kind.Append? then 1 else 2) && Text(b, 9, w.tableId)
    && Num(b, q, 8, w.seqNo) && Num(b, q + 8, 8, w.epoch) && Num(b, q + 16, 8, w.schemaVersion)
    && Text(b, q + 24, w.operationId) && Texts(b, IdsAt(w), w.batchIds) && Num(b, ChunksAt(w) - 4, 4, |w.chunks|)
  }

  /** The last 48 bytes: row total, digest, checksum of everything before it, closing letters. */
  predicate WalTailLaid(h: Hashes, b: Bytes, p: nat, rows: nat, covered: Bytes) {
    && |b| == p + 48 && Num(b, p, 8, rows % 0x1_0000_0000_0000_0000) && b[p + 8..p + 40] == h.sha(covered)
    && Checked(h, b, 0, p + 40) && Tag(b, p + 44, "DBW2")
  }

  function TailAt(w: RawWal): nat {
    ChunksAt(w) + Before(ChunkSize, w.chunks, |w.chunks|)
  }

  ghost predicate WalLaid(h: Hashes, b: Bytes, w: RawWal) {
    && WalHeadLaid(b, w) && ChunksLaid(h, b, ChunksAt(w), w.chunks)
    && WalTailLaid(h, b, TailAt(w), RowTotal(w.chunks), Covered(b, w))
  }

  lemma CheckedIs(h: Hashes, b: Bytes, from: nat, at: nat)
    requires from <= at <= |b|
    ensures At(b, at, U32(h.crc(b[from..at]))) <==> Checked(h, b, from, at)
  {
    hide U32, Number;
    Num32(b, at, h.crc(b[from..at]));
  }

  lemma ChunkIs(h: Hashes, b: Bytes, p: nat, c: RawChunk)
    requires RawChunkOk(c)
    ensures |Sealed(h, c)| == ChunkSize(c)
    ensures At(b, p, Sealed(h, c)) <==> c.rows != 0 && ChunkLaid(h, b, p, c)
    ensures At(b, p, Sealed(h, c)) ==> b[p..p + 8 + |c.payload|] == RawEntry(c)
  {
    hide U32, Number;
    var n := |c.payload|;
    var q := p + 8 + n;
    AtSplit(b, p, RawEntry(c), U32(h.crc(RawEntry(c))));
    AtSplit(b, p, U32(c.rows), U32(n) + c.payload);
    AtSplit(b, p + 4, U32(n), c.payload);
    Num32(b, p, c.rows);
    Num32(b, p + 4, n);
    if At(b, p, RawEntry(c)) {
      assert b[p..q] == RawEntry(c);
      CheckedIs(h, b, p, q);
    }
  }

  lemma ChunksIs(h: Hashes, b: Bytes, p: nat, cs: seq<RawChunk>)
    requires forall i :: 0 <= i < |cs| ==> RawChunkOk(cs[i])
    ensures |EncList(RawChunkBytes(h), cs)| == Before(ChunkSize, cs, |cs|)
    ensures At(b, p, EncList(RawChunkBytes(h), cs)) <==> ChunksLaid(h, b, p, cs)
  {
    hide EncList, At, ChunkLaid, Before, Sealed;
    forall i | 0 <= i < |cs|
      ensures |RawChunkBytes(h)(cs[i])| == ChunkSize(cs[i])
      ensures var at := p + Before(ChunkSize, cs, i); At(b, at, RawChunkBytes(h)(cs[i])) <==> ChunkLaid(h, b, at, cs[i])
    {
      ChunkIs(h, b, p + Before(ChunkSize, cs, i), cs[i]);
    }
    ListedIs(RawChunkBytes(h), ChunkSize, b, p, cs);
  }

  /** What the digest covers of the chunks is what stands there, checksums left out. */
  lemma {:induction false} UnsealedIs(h: Hashes, b: Bytes, p: nat, cs: seq<RawChunk>, n: nat)
    requires n <= |cs| && ChunksLaid(h, b, p, cs) && forall i :: 0 <= i < |cs| ==> RawChunkOk(cs[i])
    ensures Unsealed(b, p, cs, n) == EncList(RawEntry, cs[..n])
  {
    hide ChunkLaid, RawEntry, Before;
    if n != 0 {
      UnsealedIs(h, b, p, cs, n - 1);
      var at := p + Before(ChunkSize, cs, n - 1);
      assert ChunkLaid(h, b, at, cs[n - 1]);
      ChunkEntry(h, b, at, cs[n - 1]);
      assert cs[..n][..n - 1] == cs[..n - 1];
    }
  }

  lemma ChunkEntry(h: Hashes, b: Bytes, p: nat, c: RawChunk)
    requires RawChunkOk(c) && ChunkLaid(h, b, p, c)
    ensures p + 8 + |c.payload| <= |b| && b[p..p + 8 + |c.payload|] == RawEntry(c)
  {
    ChunkIs(h, b, p, c);
    hide ChunkLaid, RawEntry;
  }

  lemma WalHeadIs(b: Bytes, w: RawWal)
    requires SizesOk(w)
    ensures |Head(w)| == ChunksAt(w)
    ensures At(b, 0, Head(w)) <==> WalHeadLaid(b, w)
  {
    hide Header, Str, Strs, At, Magic, Headed, Text, Texts, Num, U64, U32, Before, StrsOk;
    var q := 13 + |w.tableId|;
    var rest := Identity(w) + Names(w);
    HeadedIs(b, "DBW2");
    AtSplit(b, 0, Header(Magic("DBW2")), [KindByte(w.kind)] + (Str(w.tableId) + rest));
    AtSplit(b, 8, [KindByte(w.kind)], Str(w.tableId) + rest);
    AtSplit(b, 9, Str(w.tableId), rest);
    AtSplit(b, q, Identity(w), Names(w));
    ByteIs(b, 8, KindByte(w.kind));
    TextIs(b, 9, w.tableId);
    IdentityIs(b, q, w);
    NamesIs(b, q + 24, w);
  }

  lemma ByteIs(b: Bytes, p: nat, x: u8)
    ensures At(b, p, [x]) <==> p < |b| && b[p] == x
  {
  }

  lemma IdentityIs(b: Bytes, q: nat, w: RawWal)
    ensures |Identity(w)| == 24
    ensures At(b, q, Identity(w)) <==>
      Num(b, q, 8, w.seqNo) && Num(b, q + 8, 8, w.epoch) && Num(b, q + 16, 8, w.schemaVersion)
  {
    hide U64, At, Num;
    AtSplit(b, q, U64(w.seqNo), U64(w.epoch) + U64(w.schemaVersion));
    AtSplit(b, q + 8, U64(w.epoch), U64(w.schemaVersion));
    Num64(b, q, w.seqNo);
    Num64(b, q + 8, w.epoch);
    Num64(b, q + 16, w.schemaVersion);
  }

  lemma NamesIs(b: Bytes, p: nat, w: RawWal)
    requires SizesOk(w)
    ensures var ids := p + TextSize(w.operationId);
      var end := ids + 8 + Before(TextSize, w.batchIds, |w.batchIds|);
      && p + |Names(w)| == end
      && (At(b, p, Names(w)) <==>
            Text(b, p, w.operationId) && Texts(b, ids, w.batchIds) && Num(b, end - 4, 4, |w.chunks|))
  {
    hide U32, Str, Strs, At, Text, Texts, Num, Before, StrsOk;
    var ids := p + TextSize(w.operationId);
    AtSplit(b, p, Str(w.operationId), Strs(w.batchIds) + U32(|w.chunks|));
    AtSplit(b, ids, Strs(w.batchIds), U32(|w.chunks|));
    TextIs(b, p, w.operationId);
    TextsIs(b, ids, w.batchIds);
    Num32(b, ids + |Strs(w.batchIds)|, |w.chunks|);
  }

  /** The schema version and the id list as they stand in the head. */
  lemma HeadSlices(b: Bytes, w: RawWal)
    requires SizesOk(w) && At(b, 0, Head(w))
    ensures ChunksAt(w) <= |b|
    ensures b[29 + |w.tableId|..37 + |w.tableId|] == U64(w.schemaVersion)
    ensures b[IdsAt(w)..ChunksAt(w) - 4] == Strs(w.batchIds)
  {
    hide Header, Str, Strs, Magic, U64, U32, Before, StrsOk, At;
    var q := 13 + |w.tableId|;
    var rest := Identity(w) + Names(w);
    HeadedIs(b, "DBW2");
    WalHeadIs(b, w);
    AtSplit(b, 0, Header(Magic("DBW2")), [KindByte(w.kind)] + (Str(w.tableId) + rest));
    AtSplit(b, 8, [KindByte(w.kind)], Str(w.tableId) + rest);
    AtSplit(b, 9, Str(w.tableId), rest);
    AtSplit(b, q, Identity(w), Names(w));
    AtSplit(b, q, U64(w.seqNo), U64(w.epoch) + U64(w.schemaVersion));
    AtSplit(b, q + 8, U64(w.epoch), U64(w.schemaVersion));
    AtSplit(b, q + 24, Str(w.operationId), Strs(w.batchIds) + U32(|w.chunks|));
    AtSplit(b, IdsAt(w), Strs(w.batchIds), U32(|w.chunks|));
    TextsIs(b, IdsAt(w), w.batchIds);
    SliceIs(b, q + 16, U64(w.schemaVersion));
    SliceIs(b, IdsAt(w), Strs(w.batchIds));
    SliceIs(b, 0, Head(w));
  }

  lemma SliceIs(b: Bytes, p: nat, x: Bytes)
    requires At(b, p, x)
    ensures p + |x| <= |b| && b[p..p + |x|] == x
  {
  }

  lemma LogicalIs(h: Hashes, b: Bytes, w: RawWal)
    requires RawWalOk(w) && At(b, 0, Head(w)) && ChunksLaid(h, b, ChunksAt(w), w.chunks)
    ensures ChunksAt(w) <= |b|
    ensures Logical(w.schemaVersion, w.batchIds, w.chunks) == Covered(b, w)
  {
    hide At, Head, ChunksLaid, Unsealed, IdsAt, ChunksAt, StrsOk, U64, Strs, EncList, RawChunkOk;
    HeadSlices(b, w);
    UnsealedIs(h, b, ChunksAt(w), w.chunks, |w.chunks|);
    assert w.chunks[..|w.chunks|] == w.chunks;
  }

  lemma TailIs(h: Hashes, b: Bytes, p: nat, w: RawWal)
    requires StrsOk(w.batchIds)
    ensures TailOk(h, b, p, w) <==>
      WalTailLaid(h, b, p, RowTotal(w.chunks), Logical(w.schemaVersion, w.batchIds, w.chunks))
  {
    hide At, StrsOk, U64, U32, Logical, RowTotal, Number, ParseU32, ParseU64, Magic, Tag;
    if |b| == p + 48 {
      var total := RowTotal(w.chunks) % 0x1_0000_0000_0000_0000;
      ReadU64(b, p, total);
      Num64(b, p, total);
      ReadU32(b, p + 40, h.crc(b[..|b| - 8]));
      assert b[0..|b| - 8] == b[..|b| - 8];
      CheckedIs(h, b, 0, p + 40);
      MagicSize("DBW2");
      ReadRaw(b, p + 44, Magic("DBW2"));
      TagIs(b, p + 44, "DBW2");
    }
  }

  /**
   * A WAL object decodes to a container exactly when that is valid, not too long, and laid out so: every field in its
   * place, every chunk under its own checksum, the digest over what it names, the last checksum over all before it.
   */
  lemma WalLayout(h: Hashes, b: Bytes, w: RawWal)
    ensures DecodeRaw(h, b) == Some(w) <==> RawWalOk(w) && |w.chunks| <= MAX_CHUNKS && WalLaid(h, b, w)
  {
    hide DecodeRaw, RawWalBytes, RawWalOk, WalLaid;
    ContainerExact(h, b, w);
    if RawWalOk(w) {
      WalIs(h, b, w);
    }
  }

  lemma WalIs(h: Hashes, b: Bytes, w: RawWal)
    requires RawWalOk(w)
    ensures RawWalBytes(h, w) == b <==> WalLaid(h, b, w)
  {
    hide Head, EncList, At, StrsOk, TailOk, RawChunkBytes, WalHeadLaid, ChunksLaid, WalTailLaid, ChunksAt, Before,
      RawWalBytes, RawChunkOk, Covered, Logical, RowTotal;
    SplitWal(h, b, w);
    WalHeadIs(b, w);
    ChunksIs(h, b, ChunksAt(w), w.chunks);
    TailIs(h, b, TailAt(w), w);
    if At(b, 0, Head(w)) && ChunksLaid(h, b, ChunksAt(w), w.chunks) {
      LogicalIs(h, b, w);
    }
  }

  // ------------------------------------------------- what checksums catch

  /** Two byte strings of one checksum. */
  predicate Collide(h: Hashes, x: Bytes, y: Bytes) {
    x != y && h.crc(x) == h.crc(y)
  }

  /** The four bytes before the closing letters are the checksum of everything before them. */
  lemma WholeIsChecked(h: Hashes, schema: Schema, b: Bytes)
    requires WalRows.DecodeWal(h, schema, b).Some?
    ensures |b| >= 48 && Number(b, |b| - 8, 4) == h.crc(b[..|b| - 8]) && Tag(b, |b| - 4, "DBW2")
  {
    hide DecodeRaw, WalHeadLaid, ChunksLaid, WalRows.ChunksOf, Tag, Number, TailAt, RawWalOk, RowTotal, Covered;
    var w := DecodeRaw(h, b).value;
    WalLayout(h, b, w);
    assert b[0..|b| - 8] == b[..|b| - 8];
  }

  /** Two accepted objects of one length and one footer that differ before it are a collision of the checksum. */
  lemma AlteredCollides(h: Hashes, schema: Schema, a: Bytes, b: Bytes)
    requires WalRows.DecodeWal(h, schema, a).Some? && WalRows.DecodeWal(h, schema, b).Some?
    requires a != b && |a| == |b| && a[|a| - 8..] == b[|b| - 8..]
    ensures Collide(h, a[..|a| - 8], b[..|b| - 8])
  {
    hide WalRows.DecodeWal, Tag, Number;
    WholeIsChecked(h, schema, a);
    WholeIsChecked(h, schema, b);
    var n := |a| - 8;
    assert a == a[..n] + a[n..] && b == b[..n] + b[n..];
    SameNumber(a, b, n);
  }

  lemma SameNumber(a: Bytes, b: Bytes, n: nat)
    requires |a| == |b| == n + 8 && a[n..] == b[n..]
    ensures Number(a, n, 4) == Number(b, n, 4)
  {
    NumberIs(a, n, 4);
    NumberIs(b, n, 4);
    assert a[n..n + 4] == a[n..][..4] && b[n..n + 4] == b[n..][..4];
  }

  /** A stored WAL altered anywhere before its footer is refused, unless the checksum collides. */
  lemma AlterationIsRefused(h: Hashes, schema: Schema, w: WalRows.Wal, b: Bytes)
    requires WalRows.WalOk(schema, w) && WalRows.AllTyped(w.chunks) && |w.chunks| <= MAX_CHUNKS
    requires WalRows.Fits(schema, w.chunks)
    requires var a := WalRows.EncodeWal(h, schema, w).value;
      b != a && |b| == |a| && |a| >= 8 && b[|b| - 8..] == a[|a| - 8..]
    ensures var a := WalRows.EncodeWal(h, schema, w).value;
      WalRows.DecodeWal(h, schema, b) == None || Collide(h, a[..|a| - 8], b[..|b| - 8])
  {
    hide WalRows.DecodeWal, WalRows.WalOk, WalRows.Fits, WalRows.AllTyped, RawWalBytes;
    WalRows.WalRoundTrip(h, schema, w);
    if WalRows.DecodeWal(h, schema, b).Some? {
      AlteredCollides(h, schema, WalRows.EncodeWal(h, schema, w).value, b);
    }
  }
}
