/** Scanning a table snapshot: the data files first, then the replayed WAL chunks. */
module CloudSource {
  import opened Table
  import opened ByteFormat
  import opened Columnar
  import opened ColumnarScan
  import St = Store
  import R = Reader
  import Sys = System
  import Promises
  import Inv = Invariant
  import SS = SystemSafety
  import RS = ReaderSafety

  // ----------------------------------------------------------- WAL cursor

  predicate Fits(c: Chunk, schema: Schema) {
    |c.columns| == |schema| && Even(c.columns, c.rowCount)
  }

  /** Projected rows of the chunks from `k` on. */
  ghost function ChunkRowsFrom(chunks: seq<Chunk>, k: nat, projection: seq<int>): seq<Row>
    decreases |chunks| - k
  {
    if k >= |chunks| then [] else ProjectAll(Rows(chunks[k]), projection) + ChunkRowsFrom(chunks, k + 1, projection)
  }

  class SnapshotWalCursor {
    const chunks: seq<Chunk>
    const projection: seq<int>
    const schema: Schema
    var pos: nat

    ghost predicate Valid()
      reads this
    {
      pos <= |chunks| && InRange(projection, |schema|) && forall k :: 0 <= k < |chunks| ==> Fits(chunks[k], schema)
    }

    ghost function Remaining(): seq<Row>
      reads this
    {
      ChunkRowsFrom(chunks, pos, projection)
    }

    constructor (cs: seq<Chunk>, p: seq<int>, s: Schema)
      requires InRange(p, |s|) && forall k :: 0 <= k < |cs| ==> Fits(cs[k], s)
      ensures Valid() && Remaining() == ChunkRowsFrom(cs, 0, p) && projection == p
    {
      chunks, projection, schema, pos := cs, p, s, 0;
    }

    /** One replayed chunk at a time, its projected columns as they are. */
    method Next() returns (out: Option<Chunk>)
      requires Valid()
      modifies this
      ensures Valid() && (out.None? <==> old(pos) == |chunks|)
      ensures out.Some? ==> old(Remaining()) == Rows(out.value) + Remaining() && out.value.columnIds == projection
      ensures out.None? ==> old(Remaining()) == [] == Remaining()
    {
      hide RowAt, Select, Even;
      if pos == |chunks| {
        return None;
      }
      var src := chunks[pos];
      pos := pos + 1;
      var columns, k := [], 0;
      while k < |projection|
        invariant k <= |projection| && |columns| == k && forall j :: 0 <= j < k ==>
          columns[j] == src.columns[projection[j]]
      {
        columns := columns + [src.columns[projection[k]]];
        k := k + 1;
      }
      SelectIs(src.columns, projection, columns);
      ChunkRows(projection, columns, src.rowCount);
      ChunkRows(src.columnIds, src.columns, src.rowCount);
      SelectProjects(src.columns, src.rowCount, projection);
      return Some(Chunk(projection, columns, src.rowCount));
    }
  }

  lemma SelectIs(cols: seq<Column>, projection: seq<int>, out: seq<Column>)
    requires InRange(projection, |cols|) && |out| == |projection|
    requires forall j :: 0 <= j < |out| ==> out[j] == cols[projection[j]]
    ensures out == Select(cols, projection)
  {
  }

  // ----------------------------------------------------------- composite

  class CompositeBatchCursor {
    const indexed: ColumnarCursor
    const wal: SnapshotWalCursor
    var readingIndexed: bool

    ghost predicate Valid()
      reads this, indexed, wal
    {
      indexed.Valid() && wal.Valid() && (!readingIndexed ==> indexed.Remaining() == [])
    }

    ghost function Remaining(): seq<Row>
      requires Valid()
      reads this, indexed, wal
    {
      indexed.Remaining() + wal.Remaining()
    }

    constructor (data: ColumnarCursor, tail: SnapshotWalCursor)
      requires data.Valid() && tail.Valid()
      ensures Valid() && indexed == data && wal == tail && Remaining() == data.Remaining() + tail.Remaining()
    {
      indexed, wal, readingIndexed := data, tail, true;
    }

    /** Every row of the data files before any row of the WAL; nothing is lost or repeated at the seam. */
    method Next() returns (out: Option<Chunk>)
      requires Valid()
      modifies this, indexed, wal
      ensures Valid()
      ensures out.Some? ==> old(Remaining()) == Rows(out.value) + Remaining()
      ensures out.None? ==> old(Remaining()) == [] == Remaining()
    {
      hide Rows, RowsFrom, ChunkRowsFrom, FileRows;
      if readingIndexed {
        out := indexed.Next();
        if out.Some? {
          assert Rows(out.value) + indexed.Remaining() + wal.Remaining() ==
            Rows(out.value) + (indexed.Remaining() + wal.Remaining());
          return;
        }
        readingIndexed := false;
      }
      out := wal.Next();
      assert [] + wal.Remaining() == wal.Remaining();
    }
  }

  // ----------------------------------------------------- what a scan yields

  function Paths(list: seq<St.DataFile>): (ps: seq<Key>)
    ensures |ps| == |list| && forall i :: 0 <= i < |list| ==> ps[i] == list[i].path
  {
    seq(|list|, i requires 0 <= i < |list| => list[i].path)
  }

  lemma {:induction false} ListedIs(files: map<Key, seq<Row>>, list: seq<St.DataFile>)
    ensures St.FileRows(files, list) == RowsListed(files, Paths(list))
  {
    if list != [] {
      var n := |list| - 1;
      ListedIs(files, list[..n]);
      assert Paths(list)[..n] == Paths(list[..n]);
    }
  }

  lemma {:induction false} WalRowsAre(chunks: seq<Chunk>, projection: seq<int>, k: nat)
    requires k <= |chunks|
    ensures ProjectAll(ConcatRows(chunks[..k]), projection) + ChunkRowsFrom(chunks, k, projection)
      == ChunkRowsFrom(chunks, 0, projection)
  {
    hide ProjectAll, Rows;
    if k == 0 {
      NoRows(projection);
    } else {
      WalRowsAre(chunks, projection, k - 1);
      assert chunks[..k][..k - 1] == chunks[..k - 1];
      ProjectAppend(ConcatRows(chunks[..k - 1]), Rows(chunks[k - 1]), projection);
      Reassociate(ProjectAll(ConcatRows(chunks[..k - 1]), projection), ProjectAll(Rows(chunks[k - 1]), projection),
                  ChunkRowsFrom(chunks, k, projection));
    }
  }

  // ------------------------------------------- what every run's snapshots hold

  lemma FromChunksTyped(schema: Schema, rows: seq<Row>)
    requires Inv.FromChunks(schema, rows)
    ensures RowsTyped(schema, rows)
  {
    hide AllFull, ConcatRows, RowsTyped;
    var chunks :| AllFull(chunks, schema) && rows == ConcatRows(chunks);
    ConcatFits(schema, chunks);
  }

  lemma SchemaStays(schema: Schema, events: seq<Sys.Event>)
    requires Sys.Run(schema, events).Some?
    ensures Sys.Run(schema, events).value.store.schema == schema
  {
    hide Inv.SubMap;
    assert [] + events == events && Sys.Run(schema, []) == Some(Sys.Init(schema));
    hide Sys.Run;
    SS.RunGrows(schema, [], events);
  }

  /** In every run a snapshot's chunks are full chunks of the table and its files exist and hold rows of the table. */
  lemma SnapshotFits(schema: Schema, events: seq<Sys.Event>, n: R.Snapshot)
    requires Sys.Run(schema, events).Some? && n in Sys.Run(schema, events).value.snapshots
    ensures forall i :: 0 <= i < |n.chunks| ==> Fits(n.chunks[i], schema)
    ensures var st := Sys.Run(schema, events).value.store;
      forall i :: 0 <= i < |n.files| ==> n.files[i].path in st.files && RowsTyped(schema, st.files[n.files[i].path])
  {
    hide Sys.Run, Inv.SlotsOk, Inv.HistoryOk, Inv.RequestsOk, Inv.GoodManifest, SS.ActorsOk, St.LogRows, RowsTyped,
      AllFull, Inv.FromChunks, Inv.AllEncodable, ConcatRows;
    SS.Safety(schema, events);
    SchemaStays(schema, events);
    var s := Sys.Run(schema, events).value;
    assert RS.SnapOk(s.store, n);
    forall i | 0 <= i < |n.files|
      ensures n.files[i].path in s.store.files && RowsTyped(schema, s.store.files[n.files[i].path])
    {
      assert Inv.FileOk(s.store.files, n.state.indexed, n.files[i]);
      FromChunksTyped(schema, s.store.files[n.files[i].path]);
    }
    forall i | 0 <= i < |n.chunks|
      ensures Fits(n.chunks[i], schema)
    {
      assert n.chunks[i] in n.chunks && RS.InLog(s.store.slots, n.chunks[i]);
      var k :| k in s.store.slots && n.chunks[i] in s.store.slots[k].chunks;
      FullFits(s.store.slots[k].chunks, n.chunks[i], schema);
    }
  }

  lemma FullFits(chunks: seq<Chunk>, c: Chunk, schema: Schema)
    requires AllFull(chunks, schema) && c in chunks
    ensures Fits(c, schema)
  {
    var i :| 0 <= i < |chunks| && chunks[i] == c;
  }

  /** In every run each data file holds the rows of full chunks: it is what `WriteFile` makes of them. */
  lemma FilesAreWritten(schema: Schema, events: seq<Sys.Event>, path: Key)
    requires Sys.Run(schema, events).Some? && path in Sys.Run(schema, events).value.store.files
    ensures var rows := Sys.Run(schema, events).value.store.files[path];
      exists chunks :: AllFull(chunks, schema) && rows == ConcatRows(chunks)
  {
    hide Sys.Run, Inv.SlotsOk, Inv.HistoryOk, Inv.RequestsOk, Inv.GoodManifest, SS.ActorsOk, AllFull, ConcatRows;
    SS.Safety(schema, events);
    SchemaStays(schema, events);
    assert Inv.FromChunks(schema, Sys.Run(schema, events).value.store.files[path]);
  }

  // ----------------------------------------------------------------- scanning

  /** The file store holds the data file that the writer made of each listed file's rows, within the size limits. */
  ghost predicate Written(s: Scheme, schema: Schema, store: map<Key, Bytes>, files: map<Key, seq<Row>>,
                          list: seq<St.DataFile>)
  {
    forall i :: 0 <= i < |list| && list[i].path in files ==>
      && list[i].path in store && store[list[i].path] == DataFile(s, schema, files[list[i].path])
      && Sized(s, schema, files[list[i].path])
  }

  lemma WrittenHolds(s: Scheme, schema: Schema, store: map<Key, Bytes>, files: map<Key, seq<Row>>,
                     list: seq<St.DataFile>)
    requires Written(s, schema, store, files, list)
    requires forall i :: 0 <= i < |list| ==> list[i].path in files && RowsTyped(schema, files[list[i].path])
    ensures Holds(s, schema, store, Paths(list), files)
  {
    hide Sized, DataFile, RowsTyped;
  }

  /**
   * Open a scan over a snapshot of any run: what the cursor yields, window by window and chunk by chunk, are the
   * projected rows of the log prefix that the snapshot stands for.
   */
  method Scan(s: Scheme, schema: Schema, store: map<Key, Bytes>, n: R.Snapshot, projection: seq<int>, batch: nat,
              ghost events: seq<Sys.Event>) returns (c: CompositeBatchCursor)
    requires SchemeOk(s) && schema != [] && InRange(projection, |schema|)
    requires Sys.Run(schema, events).Some? && n in Sys.Run(schema, events).value.snapshots
    requires Written(s, schema, store, Sys.Run(schema, events).value.store.files, n.files)
    ensures fresh(c) && fresh(c.indexed) && fresh(c.wal) && c.Valid()
    ensures var st := Sys.Run(schema, events).value.store;
      c.Remaining() == ProjectAll(St.LogRows(st.slots, n.state.published + n.probed), projection)
  {
    hide Sys.Run, RowsFrom, ChunkRowsFrom, ProjectAll, R.ScanRows, St.LogRows, Written, Holds, SchemeOk, Fits,
      TablesOf, FilesOf, RowsTyped, RowsListed;
    ghost var st := Sys.Run(schema, events).value.store;
    SnapshotFits(schema, events, n);
    WrittenHolds(s, schema, store, st.files, n.files);
    HoldsFiles(s, schema, store, Paths(n.files), st.files);
    ScanIsListed(s, schema, store, Paths(n.files), st.files, projection);
    var data := new ColumnarCursor(s, schema, store, Paths(n.files), projection, batch, TablesOf(schema, st.files));
    var wal := new SnapshotWalCursor(n.chunks, projection, schema);
    c := new CompositeBatchCursor(data, wal);
    SnapshotRows(schema, events, n, projection);
  }

  lemma SnapshotRows(schema: Schema, events: seq<Sys.Event>, n: R.Snapshot, projection: seq<int>)
    requires Sys.Run(schema, events).Some? && n in Sys.Run(schema, events).value.snapshots
    ensures var st := Sys.Run(schema, events).value.store;
      ProjectAll(RowsListed(st.files, Paths(n.files)), projection) + ChunkRowsFrom(n.chunks, 0, projection)
        == ProjectAll(St.LogRows(st.slots, n.state.published + n.probed), projection)
  {
    hide Sys.Run, ProjectAll, RowsListed, ConcatRows, St.FileRows, St.LogRows;
    var st := Sys.Run(schema, events).value.store;
    Promises.SnapshotIsLogPrefix(schema, events, n);
    ListedIs(st.files, n.files);
    WalRowsAre(n.chunks, projection, |n.chunks|);
    assert n.chunks[..|n.chunks|] == n.chunks;
    ProjectAppend(St.FileRows(st.files, n.files), ConcatRows(n.chunks), projection);
  }
}
