/** The protocol's objects as the encoders get them: in every run the encoders' validity checks pass. */
module StoredObjects {
  import opened Table
  import opened ByteFormat
  import C = ObjectCodec
  import W = WalCodec
  import St = Store
  import Sys = System
  import I = Invariant
  import SS = SystemSafety

  const LIMIT: int := 0x1_0000_0000_0000_0000

  /** What a table is created with: an identity, and columns with names and types. */
  predicate TableOk(tableId: Bytes, schema: Schema) {
    && tableId != [] && |tableId| <= MAX_U32
    && schema != [] && forall i :: 0 <= i < |schema| ==> C.FieldOk(schema[i])
  }

  // ------------------------------------------------------------- CURRENT

  predicate StateFits(s: St.State) {
    && s.version < LIMIT && s.epoch < LIMIT && s.indexed < LIMIT && s.published < LIMIT && |s.manifest| <= MAX_U32
  }

  /** The object that stores a state of table `tableId`. */
  function StoredState(s: St.State, tableId: Bytes): C.State
    requires StateFits(s)
  {
    C.State(tableId, s.version, 1, s.epoch, s.indexed, s.published, s.manifest)
  }

  // ------------------------------------------------------------ manifests

  predicate FileFits(f: St.DataFile) {
    f.first < LIMIT && f.last < LIMIT && f.rows < LIMIT && |f.path| <= MAX_U32
  }

  predicate ManifestFits(m: St.Manifest) {
    && m.covered < LIMIT && |m.files| <= MAX_U32 && StrsOk(m.indexKeys)
    && forall i :: 0 <= i < |m.files| ==> FileFits(m.files[i])
  }

  function StoredFile(f: St.DataFile): C.DataFile
    requires FileFits(f)
  {
    C.DataFile(f.path, f.first, f.last, f.rows)
  }

  function StoredManifest(m: St.Manifest, tableId: Bytes, schema: Schema): C.Manifest
    requires ManifestFits(m)
  {
    C.Manifest(tableId, m.covered, 1, schema,
               seq(|m.files|, i requires 0 <= i < |m.files| => StoredFile(m.files[i])), m.indexKeys)
  }

  lemma ManifestEncodes(st: St.Store, m: St.Manifest, tableId: Bytes, schema: Schema)
    requires I.GoodManifest(st, m) && ManifestFits(m) && TableOk(tableId, schema)
    ensures C.EncodeManifest(StoredManifest(m, tableId, schema)).Some?
  {
    hide C.ManifestBytes, I.EntriesExact, StrsOk, C.FieldOk, Ascii;
    var s := StoredManifest(m, tableId, schema);
    forall i | 0 <= i < |s.dataFiles|
      ensures C.FileOk(s.dataFiles[i]) && s.dataFiles[i].lastSeq <= s.coveredThroughSeq
    {
      assert I.FileOk(st.files, m.covered, m.files[i]);
    }
  }

  // -------------------------------------------------------------- indexes

  predicate EntryFits(e: St.Entry) {
    e.slot < LIMIT && |e.id| <= MAX_U32 && |e.op| <= MAX_U32
  }

  predicate EntriesFit(es: seq<St.Entry>) {
    |es| <= MAX_U32 && forall i :: 0 <= i < |es| ==> EntryFits(es[i])
  }

  /** Entries with the digests the hash gives them. */
  function StoredEntries(es: seq<St.Entry>, sha: St.Digest -> W.Digest): seq<C.BatchEntry>
    requires EntriesFit(es)
  {
    seq(|es|, i requires 0 <= i < |es| => C.BatchEntry(es[i].id, es[i].slot, es[i].op, sha(es[i].digest)))
  }

  lemma EntriesEncode(es: seq<St.Entry>, sha: St.Digest -> W.Digest)
    requires I.AllEncodable(es) && EntriesFit(es)
    ensures C.EncodeIndex(StoredEntries(es, sha)).Some?
  {
    hide C.IndexBytes;
    var s := StoredEntries(es, sha);
    forall i | 0 <= i < |s|
      ensures C.EntryOk(s[i])
    {
      assert I.EntryEncodable(es[i]);
    }
  }

  // ------------------------------------------------------------- theorems

  /**
   In every run the encoder takes every CURRENT ever stored, and every manifest and batch index that is stored or
   on its way, as long as sizes fit their 32-bit and 64-bit fields.
  */
  lemma ObjectsEncode(schema: Schema, events: seq<Sys.Event>, tableId: Bytes, sha: St.Digest -> W.Digest)
    requires Sys.Run(schema, events).Some? && TableOk(tableId, schema)
    ensures var st := Sys.Run(schema, events).value.store;
      && (forall s :: s in st.history && StateFits(s) ==> C.EncodeState(StoredState(s, tableId)).Some?)
      && (forall k :: k in st.manifests && ManifestFits(st.manifests[k]) ==>
            C.EncodeManifest(StoredManifest(st.manifests[k], tableId, schema)).Some?)
      && (forall k :: k in st.indexes && EntriesFit(st.indexes[k]) ==>
        C.EncodeIndex(StoredEntries(st.indexes[k], sha)).Some?)
      && (forall i :: 0 <= i < |st.requests| ==> OpEncodes(st.requests[i].op, tableId, schema, sha))
  {
    hide Sys.Run, SS.ActorsOk, SS.RecordsOk, OpEncodes, C.EncodeState, C.EncodeManifest, C.EncodeIndex;
    SS.Safety(schema, events);
    var st := Sys.Run(schema, events).value.store;
    forall s | s in st.history && StateFits(s)
      ensures C.EncodeState(StoredState(s, tableId)).Some?
    {
      StateEncodes(st, s, tableId, schema);
    }
    forall k | k in st.manifests && ManifestFits(st.manifests[k])
      ensures C.EncodeManifest(StoredManifest(st.manifests[k], tableId, schema)).Some?
    {
      hide I.GoodManifest;
      ManifestEncodes(st, st.manifests[k], tableId, schema);
    }
    forall k | k in st.indexes && EntriesFit(st.indexes[k])
      ensures C.EncodeIndex(StoredEntries(st.indexes[k], sha)).Some?
    {
      hide I.AllEncodable;
      EntriesEncode(st.indexes[k], sha);
    }
    forall i | 0 <= i < |st.requests|
      ensures OpEncodes(st.requests[i].op, tableId, schema, sha)
    {
      hide I.GoodManifest, I.HistoryOk, I.SlotsOk, I.ObjectsOk;
      OpIsEncoded(st, st.requests[i].op, tableId, schema, sha);
    }
  }

  ghost predicate OpEncodes(op: St.Op, tableId: Bytes, schema: Schema, sha: St.Digest -> W.Digest) {
    match op
    case PutManifest(_, m) => ManifestFits(m) ==> C.EncodeManifest(StoredManifest(m, tableId, schema)).Some?
    case PutIndex(_, es) => EntriesFit(es) ==> C.EncodeIndex(StoredEntries(es, sha)).Some?
    case Cas(_, n) => StateFits(n) ==> C.EncodeState(StoredState(n, tableId)).Some?
    case _ => true
  }

  lemma OpIsEncoded(st: St.Store, op: St.Op, tableId: Bytes, schema: Schema, sha: St.Digest -> W.Digest)
    requires I.OpOk(st, op) && TableOk(tableId, schema)
    ensures OpEncodes(op, tableId, schema, sha)
  {
    hide C.EncodeState, C.EncodeManifest, C.EncodeIndex, I.GoodManifest, I.GoodState, I.AllEncodable;
    match op
    case PutManifest(_, m) => if ManifestFits(m) { ManifestEncodes(st, m, tableId, schema); }
    case PutIndex(_, es) => if EntriesFit(es) { EntriesEncode(es, sha); }
    case Cas(_, n) => if StateFits(n) { GoodEncodes(st, n, tableId, schema); }
    case _ =>
  }

  lemma GoodEncodes(st: St.Store, s: St.State, tableId: Bytes, schema: Schema)
    requires I.GoodState(st, s) && StateFits(s) && TableOk(tableId, schema)
    ensures C.EncodeState(StoredState(s, tableId)).Some?
  {
    hide C.StateBytes, Ascii;
  }

  lemma StateEncodes(st: St.Store, s: St.State, tableId: Bytes, schema: Schema)
    requires I.StoreInv(st) && s in st.history && StateFits(s) && TableOk(tableId, schema)
    ensures C.EncodeState(StoredState(s, tableId)).Some?
  {
    hide C.EncodeState, I.GoodState;
    var i :| 0 <= i < |st.history| && st.history[i] == s;
    assert I.GoodState(st, st.history[i]);
    GoodEncodes(st, s, tableId, schema);
  }
}
