/** The byte writer and reader the encoders and decoders run on, and the object codecs as they run. */
module Wire {
  import opened Table
  import opened ByteFormat
  import opened ObjectCodec

  /** `n` shifted right by `i` bytes. */
  function ShiftRight(n: nat, i: nat): nat {
    if i == 0 then n else ShiftRight(n / 256, i - 1)
  }

  lemma {:induction false} LeAt(n: nat, width: nat, i: nat)
    requires i < width
    ensures Le(n, width)[i] == ShiftRight(n, i) % 256
  {
    if i != 0 {
      LeAt(n / 256, width - 1, i - 1);
    }
  }

  lemma {:induction false} FromLeSnoc(b: Bytes, x: byte)
    ensures FromLe(b + [x]) == FromLe(b) + x * Pow256(|b|)
  {
    if b != [] {
      FromLeSnoc(b[1..], x);
      assert (b + [x])[1..] == b[1..] + [x];
      assert 256 * (x * Pow256(|b| - 1)) == x * Pow256(|b|);
    }
  }

  class Writer {
    var bytes: Bytes

    constructor ()
      ensures bytes == []
    {
      bytes := [];
    }

    method Raw(p: Bytes)
      modifies this
      ensures bytes == old(bytes) + p
    {
      bytes := bytes + p;
    }

    method U8(n: u8)
      modifies this
      ensures bytes == old(bytes) + [n]
    {
      bytes := bytes + [n];
    }

    /** Byte by byte, shifting right by 8 each time. */
    method LittleEndian(n: nat, width: nat)
      modifies this
      ensures bytes == old(bytes) + Le(n, width)
    {
      var i := 0;
      while i < width
        invariant i <= width && bytes == old(bytes) + Le(n, width)[..i]
      {
        LeAt(n, width, i);
        U8(ShiftRight(n, i) % 256);
        assert Le(n, width)[..i + 1] == Le(n, width)[..i] + [Le(n, width)[i]];
        i := i + 1;
      }
      assert Le(n, width)[..width] == Le(n, width);
    }

    method U32(n: u32)
      modifies this
      ensures bytes == old(bytes) + ByteFormat.U32(n)
    {
      LittleEndian(n, 4);
    }

    method U64(n: u64)
      modifies this
      ensures bytes == old(bytes) + ByteFormat.U64(n)
    {
      LittleEndian(n, 8);
    }

    method Header(magic: Bytes)
      modifies this
      ensures bytes == old(bytes) + ObjectCodec.Header(magic)
    {
      Raw(magic);
      U32(2);
    }

    method String(s: Bytes) returns (r: Option<()>)
      modifies this
      ensures r.Some? <==> StrOk(s)
      ensures r.Some? ==> bytes == old(bytes) + Str(s)
    {
      if |s| > MAX_U32 {
        return None;
      }
      U32(|s|);
      Raw(s);
      return Some(());
    }

    method Strings(xs: seq<Bytes>) returns (r: Option<()>)
      modifies this
      ensures r.Some? <==> StrsOk(xs)
      ensures r.Some? ==> bytes == old(bytes) + Strs(xs)
    {
      hide Str;
      if |xs| > MAX_U32 {
        return None;
      }
      U32(|xs|);
      var i := 0;
      while i < |xs|
        invariant i <= |xs| && forall k :: 0 <= k < i ==> StrOk(xs[k])
        invariant bytes == old(bytes) + ByteFormat.U32(|xs|) + EncList(Str, xs[..i])
      {
        var _ :- String(xs[i]);
        EncListNext(Str, xs, i);
        i := i + 1;
      }
      assert xs[..|xs|] == xs;
      return Some(());
    }
  }

  lemma EncListNext<T>(enc: T -> Bytes, xs: seq<T>, i: nat)
    requires i < |xs|
    ensures EncList(enc, xs[..i + 1]) == EncList(enc, xs[..i]) + enc(xs[i])
  {
    assert xs[..i + 1][..i] == xs[..i];
  }

  class Reader {
    const data: Bytes
    var pos: nat

    constructor (b: Bytes)
      ensures data == b && pos == 0
    {
      data, pos := b, 0;
    }

    ghost predicate Valid()
      reads this
    {
      pos <= |data|
    }

    function Left(): nat
      requires Valid()
      reads this
    {
      |data| - pos
    }

    method Raw(n: nat) returns (r: Option<Bytes>)
      requires Valid()
      modifies this
      ensures Valid() && r == ParseRaw(data, old(pos), n).Value()
      ensures r.Some? ==> pos == ParseRaw(data, old(pos), n).next
    {
      if n > Left() {
        return None;
      }
      r := Some(data[pos..pos + n]);
      pos := pos + n;
    }

    method U8() returns (r: Option<u8>)
      requires Valid()
      modifies this
      ensures Valid() && r == ParseU8(data, old(pos)).Value()
      ensures r.Some? ==> pos == ParseU8(data, old(pos)).next
    {
      if Left() < 1 {
        return None;
      }
      r := Some(data[pos]);
      pos := pos + 1;
    }

    /** Byte by byte, each shifted left past those already read. */
    method LittleEndian(width: nat) returns (r: Option<nat>)
      requires Valid()
      modifies this
      ensures Valid() && (r.Some? <==> old(pos) + width <= |data|)
      ensures r.Some? ==> pos == old(pos) + width && r.value == FromLe(data[old(pos)..pos])
    {
      var n, i := 0, 0;
      ghost var start := pos;
      while i < width
        invariant i <= width && Valid() && pos == start + i && n == FromLe(data[start..pos])
      {
        var byte :- U8();
        FromLeSnoc(data[start..pos - 1], byte);
        assert data[start..pos] == data[start..pos - 1] + [byte];
        n := n + byte * Pow256(i);
        i := i + 1;
      }
      return Some(n);
    }

    method U32() returns (r: Option<u32>)
      requires Valid()
      modifies this
      ensures Valid() && r == ParseU32(data, old(pos)).Value()
      ensures r.Some? ==> pos == ParseU32(data, old(pos)).next
    {
      var n :- LittleEndian(4);
      LeOfFromLe(data[old(pos)..pos]);
      Pow256Values();
      return Some(n);
    }

    method U64() returns (r: Option<u64>)
      requires Valid()
      modifies this
      ensures Valid() && r == ParseU64(data, old(pos)).Value()
      ensures r.Some? ==> pos == ParseU64(data, old(pos)).next
    {
      var n :- LittleEndian(8);
      LeOfFromLe(data[old(pos)..pos]);
      Pow256Values();
      return Some(n);
    }

    method String() returns (r: Option<Bytes>)
      requires Valid()
      modifies this
      ensures Valid() && r == ParseStr(data, old(pos)).Value()
      ensures r.Some? ==> pos == ParseStr(data, old(pos)).next
    {
      hide ParseU32;
      var n :- U32();
      r := Raw(n);
    }

    method Strings() returns (r: Option<seq<Bytes>>)
      requires Valid()
      modifies this
      ensures Valid() && r == ParseStrs(data, old(pos)).Value()
      ensures r.Some? ==> pos == ParseStrs(data, old(pos)).next
    {
      hide ParseU32, ParseStr;
      var n :- U32();
      if n > Left() / 4 {
        return None;
      }
      var xs: seq<Bytes>, i := [], 0;
      ghost var start := pos;
      while i < n
        invariant i <= n && Valid() && ParseList(ParseStr, data, start, i) == Got(xs, pos)
      {
        ListFails(ParseStr, data, start, i + 1, n);
        var x :- String();
        xs := xs + [x];
        i := i + 1;
      }
      return Some(xs);
    }

    method Magic(m: Bytes) returns (r: Option<()>)
      requires Valid() && |m| == 4
      modifies this
      ensures Valid() && (r.Some? <==> ParseRaw(data, old(pos), 4) == Got(m, old(pos) + 4))
      ensures r.Some? ==> pos == old(pos) + 4
    {
      var x :- Raw(4);
      return if x == m then Some(()) else None;
    }

    method Header(m: Bytes) returns (r: Option<()>)
      requires Valid() && |m| == 4
      modifies this
      ensures Valid() && (r.Some? <==> ParseHeader(data, old(pos), m).Got?)
      ensures r.Some? ==> pos == ParseHeader(data, old(pos), m).next
    {
      hide ParseU32;
      var _ :- Magic(m);
      var v :- U32();
      return if v == 2 then Some(()) else None;
    }
  }

  // ------------------------------------------------- the object codecs

  // What was appended piece by piece is what the format nests.

  lemma Join(x: Bytes, a: Bytes, b: Bytes)
    ensures x + a + b == x + (a + b)
  {
  }

  lemma Join3(x: Bytes, a: Bytes, b: Bytes, c: Bytes)
    ensures x + a + b + c == x + (a + (b + c))
  {
    Join(x, a, b);
    Join(x, a + b, c);
    Join(a, b, c);
  }

  lemma Join5(x: Bytes, a: Bytes, b: Bytes, c: Bytes, d: Bytes, e: Bytes)
    ensures x + a + b + c + d + e == x + (a + (b + (c + (d + e))))
  {
    Join3(x + a + b, c, d, e);
    Join3(x, a, b, c + (d + e));
  }

  method EncodeSequentialState(s: State) returns (r: Option<Bytes>)
    ensures r == EncodeState(s)
  {
    hide Str, HasPrefix, Magic, U64;
    if s.tableId == [] || !HasPrefix(s.manifestKey, Ascii("manifest/")) || s.indexedSeq > s.publishedSeq
       || s.schemaVersion != 1
    {
      return None;
    }
    var w := new Writer();
    w.Header(Magic("DBS2"));
    ghost var head := Header(Magic("DBS2"));
    assert w.bytes == head;
    var _ :- w.String(s.tableId);
    w.U64(s.stateVersion);
    w.U64(s.schemaVersion);
    w.U64(s.writerEpoch);
    w.U64(s.indexedSeq);
    w.U64(s.publishedSeq);
    var _ :- w.String(s.manifestKey);
    Join5(head + Str(s.tableId), U64(s.stateVersion), U64(s.schemaVersion), U64(s.writerEpoch), U64(s.indexedSeq),
          U64(s.publishedSeq));
    Join3(head, Str(s.tableId), Numbers(s), Str(s.manifestKey));
    return Some(w.bytes);
  }

  method DecodeSequentialState(b: Bytes) returns (r: Option<State>)
    ensures r == DecodeState(b)
  {
    hide ParseHeader, ParseStr, ParseU64, Magic, StateOk;
    MagicSize("DBS2");
    var reader := new Reader(b);
    var _ :- reader.Header(Magic("DBS2"));
    var id :- reader.String();
    var version :- reader.U64();
    var schema :- reader.U64();
    var epoch :- reader.U64();
    var indexed :- reader.U64();
    var published :- reader.U64();
    var key :- reader.String();
    if reader.pos != |b| {
      return None;
    }
    var s := State(id, version, schema, epoch, indexed, published, key);
    var _ :- EncodeSequentialState(s);
    return Some(s);
  }

  method WriteField(w: Writer, f: Field) returns (r: Option<()>)
    modifies w
    ensures r.Some? <==> FieldOk(f)
    ensures r.Some? ==> w.bytes == old(w.bytes) + FieldBytes(f)
  {
    hide Str;
    if f.name == [] || f.ty == Invalid {
      return None;
    }
    var _ :- w.String(f.name);
    w.U8(Code(f.ty));
    Join(old(w.bytes), Str(f.name), [Code(f.ty)]);
    return Some(());
  }

  method WriteSchema(w: Writer, schema: Schema) returns (r: Option<()>)
    modifies w
    ensures r.Some? <==> forall k :: 0 <= k < |schema| ==> FieldOk(schema[k])
    ensures r.Some? ==> w.bytes == old(w.bytes) + SchemaBytes(schema)
  {
    hide FieldBytes, FieldOk, U32;
    var n := |schema| % 0x1_0000_0000;
    w.U32(n);
    var i := 0;
    while i < |schema|
      invariant i <= |schema| && forall k :: 0 <= k < i ==> FieldOk(schema[k])
      invariant w.bytes == old(w.bytes) + U32(n) + EncList(FieldBytes, schema[..i])
    {
      var _ :- WriteField(w, schema[i]);
      EncListNext(FieldBytes, schema, i);
      Join(old(w.bytes) + U32(n), EncList(FieldBytes, schema[..i]), FieldBytes(schema[i]));
      i := i + 1;
    }
    assert schema[..|schema|] == schema;
    Join(old(w.bytes), U32(n), EncList(FieldBytes, schema));
    return Some(());
  }

  method WriteFile(w: Writer, f: DataFile, covered: u64) returns (r: Option<()>)
    modifies w
    ensures r.Some? <==> FileOk(f) && f.lastSeq <= covered
    ensures r.Some? ==> w.bytes == old(w.bytes) + FileBytes(f)
  {
    hide Str, U64;
    if f.path == [] || f.firstSeq == 0 || f.firstSeq > f.lastSeq || f.lastSeq > covered || f.rowCount == 0 {
      return None;
    }
    var _ :- w.String(f.path);
    w.U64(f.firstSeq);
    w.U64(f.lastSeq);
    w.U64(f.rowCount);
    Join3(old(w.bytes) + Str(f.path), U64(f.firstSeq), U64(f.lastSeq), U64(f.rowCount));
    Join(old(w.bytes), Str(f.path), Range(f));
    return Some(());
  }

  method WriteFiles(w: Writer, files: seq<DataFile>, covered: u64) returns (r: Option<()>)
    modifies w
    ensures r.Some? <==>
      |files| <= MAX_U32 && forall k :: 0 <= k < |files| ==> FileOk(files[k]) && files[k].lastSeq <= covered
    ensures r.Some? ==> w.bytes == old(w.bytes) + FilesBytes(files)
  {
    hide FileBytes, FileOk, U32;
    if |files| > MAX_U32 {
      return None;
    }
    w.U32(|files|);
    var i := 0;
    while i < |files|
      invariant i <= |files| && forall k :: 0 <= k < i ==> FileOk(files[k]) && files[k].lastSeq <= covered
      invariant w.bytes == old(w.bytes) + U32(|files|) + EncList(FileBytes, files[..i])
    {
      var _ :- WriteFile(w, files[i], covered);
      EncListNext(FileBytes, files, i);
      Join(old(w.bytes) + U32(|files|), EncList(FileBytes, files[..i]), FileBytes(files[i]));
      i := i + 1;
    }
    assert files[..|files|] == files;
    Join(old(w.bytes), U32(|files|), EncList(FileBytes, files));
    return Some(());
  }

  method EncodeSequentialManifest(m: Manifest) returns (r: Option<Bytes>)
    ensures r == EncodeManifest(m)
  {
    hide Str, U64, Magic, SchemaBytes, FilesBytes, Strs, FieldOk, FileOk, HasPrefix, StrsOk;
    if m.tableId == [] || m.schema == [] {
      return None;
    }
    var w := new Writer();
    w.Header(Magic("DBM2"));
    ghost var head := Header(Magic("DBM2"));
    assert w.bytes == head;
    var _ :- w.String(m.tableId);
    w.U64(m.coveredThroughSeq);
    w.U64(m.schemaVersion);
    Join3(head, Str(m.tableId), U64(m.coveredThroughSeq), U64(m.schemaVersion));
    var _ :- WriteSchema(w, m.schema);
    var _ :- WriteFiles(w, m.dataFiles, m.coveredThroughSeq);
    var i := 0;
    while i < |m.batchIndexFiles|
      invariant i <= |m.batchIndexFiles|
      invariant forall k :: 0 <= k < i ==> HasPrefix(m.batchIndexFiles[k], Ascii("dedup/"))
    {
      if !HasPrefix(m.batchIndexFiles[i], Ascii("dedup/")) {
        return None;
      }
      i := i + 1;
    }
    var _ :- w.Strings(m.batchIndexFiles);
    Join3(ManifestHead(m), SchemaBytes(m.schema), FilesBytes(m.dataFiles), Strs(m.batchIndexFiles));
    return Some(w.bytes);
  }

  method ReadField(reader: Reader) returns (r: Option<Field>)
    requires reader.Valid()
    modifies reader
    ensures reader.Valid() && r == ParseField(reader.data, old(reader.pos)).Value()
    ensures r.Some? ==> reader.pos == ParseField(reader.data, old(reader.pos)).next
  {
    hide ParseStr;
    var name :- reader.String();
    var code :- reader.U8();
    return if name == [] || TypeOf(code) == Invalid then None else Some(Field(name, TypeOf(code)));
  }

  method ReadSchemaFields(reader: Reader) returns (r: Option<Schema>)
    requires reader.Valid()
    modifies reader
    ensures reader.Valid() && r == ParseSchema(reader.data, old(reader.pos)).Value()
    ensures r.Some? ==> reader.pos == ParseSchema(reader.data, old(reader.pos)).next
  {
    hide ParseU32, ParseField;
    var n :- reader.U32();
    if n > MAX_COLUMNS {
      return None;
    }
    var fields: Schema, i := [], 0;
    ghost var start := reader.pos;
    while i < n
      invariant i <= n && reader.Valid() && ParseList(ParseField, reader.data, start, i) == Got(fields, reader.pos)
    {
      ListFails(ParseField, reader.data, start, i + 1, n);
      var f :- ReadField(reader);
      fields := fields + [f];
      i := i + 1;
    }
    return Some(fields);
  }

  method ReadFile(reader: Reader) returns (r: Option<DataFile>)
    requires reader.Valid()
    modifies reader
    ensures reader.Valid() && r == ParseFile(reader.data, old(reader.pos)).Value()
    ensures r.Some? ==> reader.pos == ParseFile(reader.data, old(reader.pos)).next
  {
    hide ParseStr, ParseU64, FileOk;
    var path :- reader.String();
    var first :- reader.U64();
    var last :- reader.U64();
    var rows :- reader.U64();
    var f := DataFile(path, first, last, rows);
    return if FileOk(f) then Some(f) else None;
  }

  method ReadDataFiles(reader: Reader) returns (r: Option<seq<DataFile>>)
    requires reader.Valid()
    modifies reader
    ensures reader.Valid() && r == ParseFiles(reader.data, old(reader.pos)).Value()
    ensures r.Some? ==> reader.pos == ParseFiles(reader.data, old(reader.pos)).next
  {
    hide ParseU32, ParseFile;
    var n :- reader.U32();
    if n > reader.Left() / 28 {
      return None;
    }
    var files: seq<DataFile>, i := [], 0;
    ghost var start := reader.pos;
    while i < n
      invariant i <= n && reader.Valid() && ParseList(ParseFile, reader.data, start, i) == Got(files, reader.pos)
    {
      ListFails(ParseFile, reader.data, start, i + 1, n);
      var f :- ReadFile(reader);
      files := files + [f];
      i := i + 1;
    }
    return Some(files);
  }

  method DecodeSequentialManifest(b: Bytes) returns (r: Option<Manifest>)
    ensures r == DecodeManifest(b)
  {
    hide ParseHeader, ParseStr, ParseU64, ParseStrs, ParseSchema, ParseFiles, Magic, ManifestOk;
    MagicSize("DBM2");
    var reader := new Reader(b);
    var _ :- reader.Header(Magic("DBM2"));
    var id :- reader.String();
    var covered :- reader.U64();
    var version :- reader.U64();
    var schema :- ReadSchemaFields(reader);
    var files :- ReadDataFiles(reader);
    var keys :- reader.Strings();
    if reader.pos != |b| {
      return None;
    }
    var m := Manifest(id, covered, version, schema, files, keys);
    var _ :- EncodeSequentialManifest(m);
    return Some(m);
  }

  method WriteEntry(w: Writer, e: BatchEntry) returns (r: Option<()>)
    modifies w
    ensures r.Some? <==> EntryOk(e)
    ensures r.Some? ==> w.bytes == old(w.bytes) + EntryBytes(e)
  {
    hide Str, U64;
    if e.batchId == [] || e.seqNo == 0 || e.operationId == [] || |e.digest| != 32 {
      return None;
    }
    var _ :- w.String(e.batchId);
    w.U64(e.seqNo);
    var _ :- w.String(e.operationId);
    w.Raw(e.digest);
    Join3(old(w.bytes) + Str(e.batchId), U64(e.seqNo), Str(e.operationId), e.digest);
    Join(old(w.bytes), Str(e.batchId), U64(e.seqNo) + (Str(e.operationId) + e.digest));
    return Some(());
  }

  method EncodeSequentialBatchIndex(entries: seq<BatchEntry>) returns (r: Option<Bytes>)
    ensures r == EncodeIndex(entries)
  {
    hide EntryBytes, EntryOk, U32, Magic;
    if |entries| > MAX_U32 {
      return None;
    }
    var w := new Writer();
    w.Header(Magic("DBI2"));
    w.U32(|entries|);
    ghost var head := Header(Magic("DBI2")) + U32(|entries|);
    assert w.bytes == head;
    var i := 0;
    while i < |entries|
      invariant i <= |entries| && forall k :: 0 <= k < i ==> EntryOk(entries[k])
      invariant w.bytes == head + EncList(EntryBytes, entries[..i])
    {
      var _ :- WriteEntry(w, entries[i]);
      EncListNext(EntryBytes, entries, i);
      Join(head, EncList(EntryBytes, entries[..i]), EntryBytes(entries[i]));
      i := i + 1;
    }
    assert entries[..|entries|] == entries;
    Join(Header(Magic("DBI2")), U32(|entries|), EncList(EntryBytes, entries));
    return Some(w.bytes);
  }

  method ReadEntry(reader: Reader) returns (r: Option<BatchEntry>)
    requires reader.Valid()
    modifies reader
    ensures reader.Valid() && r == ParseEntry(reader.data, old(reader.pos)).Value()
    ensures r.Some? ==> reader.pos == ParseEntry(reader.data, old(reader.pos)).next
  {
    hide ParseStr, ParseU64, ParseRaw, EntryOk;
    var id :- reader.String();
    var n :- reader.U64();
    var op :- reader.String();
    var digest :- reader.Raw(32);
    var e := BatchEntry(id, n, op, digest);
    return if EntryOk(e) then Some(e) else None;
  }

  method DecodeSequentialBatchIndex(b: Bytes) returns (r: Option<seq<BatchEntry>>)
    ensures r == DecodeIndex(b)
  {
    hide ParseHeader, ParseEntry, ParseU32, Magic;
    MagicSize("DBI2");
    var reader := new Reader(b);
    var _ :- reader.Header(Magic("DBI2"));
    var count :- reader.U32();
    if count > reader.Left() / 48 {
      return None;
    }
    var entries: seq<BatchEntry>, i := [], 0;
    ghost var start := reader.pos;
    while i < count
      invariant i <= count && reader.Valid() && ParseList(ParseEntry, b, start, i) == Got(entries, reader.pos)
    {
      ListFails(ParseEntry, b, start, i + 1, count);
      var e :- ReadEntry(reader);
      entries := entries + [e];
      i := i + 1;
    }
    if reader.pos != |b| {
      return None;
    }
    return Some(entries);
  }
}
