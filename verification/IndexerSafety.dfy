/** Every indexer step keeps the store invariant; published manifests lose and repeat nothing. */
module IndexerSafety {
  import opened Table
  import opened Store
  import opened Invariant
  import opened Indexer
  import W = Writer
  import WS = WriterSafety

  // ------------------------------------------------------- what a pass has

  /** The run covers slots cur.indexed+1..end: their rows, row count, and all entries of 1..end. */
  ghost predicate RunOk(st: Store, cur: State, run: Run) {
    && cur.indexed <= run.end <= |st.slots|
    && run.end - cur.indexed <= MAX_WAL_PER_PASS
    && LogRows(st.slots, run.end) == LogRows(st.slots, cur.indexed) + ConcatRows(run.chunks)
    && run.rows == |ConcatRows(run.chunks)|
    && (run.chunks != [] ==> run.rows != 0)
    && EntriesExact(st.slots, run.end, run.entries)
    && AllFull(run.chunks, st.schema)
  }

  ghost predicate BaseOk(st: Store, cur: State, base: Manifest) {
    cur in st.history && base.covered == cur.indexed && GoodManifest(st, base)
  }

  ghost predicate FullOk(st: Store, cur: State, full: Manifest) {
    cur in st.history && cur.indexed < full.covered <= |st.slots| && FilesOk(st, full.covered, full.files)
  }

  ghost predicate PcOk(st: Store, pc: Pc) {
    match pc
    case LoadManifest(_, cur) => cur in st.history
    case LoadIndex(_, cur, base, k, entries) =>
      && BaseOk(st, cur, base) && k <= |base.indexKeys|
      && entries == IndexEntries(st.indexes, base.indexKeys[..k])
    case Collect(_, cur, base, run) => BaseOk(st, cur, base) && RunOk(st, cur, run)
    case WriteData(_, cur, base, run) =>
      BaseOk(st, cur, base) && RunOk(st, cur, run) && cur.indexed < run.end && run.chunks != []
    case PutDedup(_, cur, grown, run) =>
      RunOk(st, cur, run) && FullOk(st, cur, grown.(covered := run.end))
    case DedupWait(_, cur, full, key, entries, rid) =>
      && FullOk(st, cur, full) && HasPrefix(key, MANIFEST_PREFIX) && full.indexKeys == [DedupKey(key)]
      && EntriesExact(st.slots, full.covered, entries)
      && rid < |st.requests| && st.requests[rid].op == PutIndex(DedupKey(key), entries)
    case ManifestWait(_, cur, full, key, rid) =>
      && FullOk(st, cur, full) && HasPrefix(key, MANIFEST_PREFIX)
      && rid < |st.requests| && st.requests[rid].op == PutManifest(key, full)
    case CasWait(_, cur, next, rid) => rid < |st.requests| && st.requests[rid].op == Cas(cur, next)
    case _ => true
  }

  lemma RunGrows(a: Store, b: Store, cur: State, run: Run)
    requires Ext(a, b) && Contiguous(a.slots) && Contiguous(b.slots)
    requires RunOk(a, cur, run)
    ensures RunOk(b, cur, run)
  {
    LogRowsSame(a.slots, b.slots, run.end);
    LogRowsSame(a.slots, b.slots, cur.indexed);
    EntriesExactGrows(a.slots, b.slots, run.end, run.entries);
  }

  lemma PcGrows(a: Store, b: Store, pc: Pc)
    requires Ext(a, b) && Contiguous(a.slots) && Contiguous(b.slots)
    requires PcOk(a, pc)
    ensures PcOk(b, pc)
  {
    hide FilesOk, EntriesExact, RunOk, Contiguous;
    match pc
    case LoadIndex(_, _, base, k, _) =>
      GoodManifestGrows(a, b, base);
      IndexEntriesSame(a.indexes, b.indexes, base.indexKeys[..k]);
    case Collect(_, cur, base, run) =>
      GoodManifestGrows(a, b, base);
      RunGrows(a, b, cur, run);
    case WriteData(_, cur, base, run) =>
      GoodManifestGrows(a, b, base);
      RunGrows(a, b, cur, run);
    case PutDedup(_, cur, grown, run) =>
      RunGrows(a, b, cur, run);
      FilesOkGrows(a, b, run.end, grown.files);
    case DedupWait(_, _, full, _, entries, _) =>
      FilesOkGrows(a, b, full.covered, full.files);
      EntriesExactGrows(a.slots, b.slots, full.covered, entries);
    case ManifestWait(_, _, full, _, _) => FilesOkGrows(a, b, full.covered, full.files);
    case _ =>
  }

  // -------------------------------------------------- entries of one more WAL

  lemma {:induction false} DistinctCount<T(!new)>(s: seq<T>)
    requires W.Distinct(s)
    ensures forall x :: x in s ==> multiset(s)[x] == 1
  {
    if s != [] {
      var init, last := s[..|s| - 1], s[|s| - 1];
      assert s == init + [last];
      DistinctCount(init);
      assert last !in init;
    }
  }

  lemma WalEntriesDistinct(w: Wal)
    requires W.Distinct(w.ids)
    ensures forall e :: e in WalEntries(w, w.ids) ==> multiset(WalEntries(w, w.ids))[e] == 1
  {
    var es := WalEntries(w, w.ids);
    forall i, j | 0 <= i < j < |es|
      ensures es[i] != es[j]
    {
      assert es[i].id == w.ids[i] && es[j].id == w.ids[j];
    }
    DistinctCount(es);
  }

  lemma EntriesNext(slots: map<nat, Wal>, n: nat, entries: seq<Entry>)
    requires SlotsOk(slots) && EntriesExact(slots, n, entries) && n + 1 in slots
    ensures EntriesExact(slots, n + 1, entries + WalEntries(slots[n + 1], slots[n + 1].ids))
  {
    hide ExactlyOnce, Contiguous, WalEntries;
    var wal := slots[n + 1];
    var new_ := WalEntries(wal, wal.ids);
    WS.WalEntriesMeaning(wal);
    assert W.Distinct(wal.ids);
    WalEntriesDistinct(wal);
    var all := entries + new_;
    assert multiset(all) == multiset(entries) + multiset(new_);
    forall e | e in all
      ensures multiset(all)[e] == 1
    {
      assert e in entries ==> e.slot <= n;
      assert e in new_ ==> e.slot == n + 1;
    }
    forall k, id | k in slots && k <= n + 1 && id in slots[k].ids
      ensures WalEntry(slots[k], id) in all
    {
      if k <= n {
        assert WalEntry(slots[k], id) in entries;
      }
    }
  }

  lemma FenceAddsNothing(slots: map<nat, Wal>, n: nat, entries: seq<Entry>)
    requires SlotsOk(slots) && EntriesExact(slots, n, entries) && n + 1 in slots && slots[n + 1].kind == Fence
    ensures EntriesExact(slots, n + 1, entries)
  {
    EntriesNext(slots, n, entries);
    assert slots[n + 1].ids == [];
    assert entries + WalEntries(slots[n + 1], []) == entries;
  }

  // ----------------------------------------------------- sort and unique

  lemma IdInOneSlot(slots: map<nat, Wal>, j: nat, k: nat, id: Id)
    requires ExactlyOnce(slots) && j in slots && k in slots && id in slots[j].ids && id in slots[k].ids
    ensures j == k
  {
  }

  lemma SameIdSameEntry(slots: map<nat, Wal>, n: nat, e: Entry, f: Entry)
    requires ExactlyOnce(slots) && EntrySound(slots, n, e) && EntrySound(slots, n, f) && e.id == f.id
    ensures e == f
  {
    hide ExactlyOnce;
    IdInOneSlot(slots, e.slot, f.slot, e.id);
  }

  lemma TwiceCounted<T>(s: seq<T>, i: nat)
    requires 0 < i < |s| && s[i - 1] == s[i]
    ensures multiset(s)[s[i]] >= 2
  {
    assert s == s[..i] + s[i..];
    assert s[i - 1] in s[..i] && s[i] in s[i..];
  }

  lemma {:induction false} UniqueOfAllDifferent(s: seq<Entry>)
    requires forall i :: 0 < i < |s| ==> s[i - 1].id != s[i].id
    ensures Unique(s) == s
  {
    if |s| >= 2 {
      var init := s[..|s| - 1];
      UniqueOfAllDifferent(init);
      assert init[|init| - 1] == s[|s| - 2];
      assert s[|s| - 2].id != s[|s| - 1].id;
      assert s == init + [s[|s| - 1]];
    }
  }

  /** Sorting and deduplicating the entries of a prefix drops none of them. */
  lemma SortUniqueDropsNothing(slots: map<nat, Wal>, n: nat, entries: seq<Entry>, sorted: seq<Entry>)
    requires ExactlyOnce(slots) && EntriesExact(slots, n, entries)
    requires multiset(sorted) == multiset(entries)
    ensures EntriesExact(slots, n, sorted) && Unique(sorted) == sorted
  {
    hide ExactlyOnce, EntrySound;
    assert forall e :: e in sorted <==> e in multiset(sorted);
    assert forall e :: e in entries <==> e in multiset(entries);
    forall i | 0 < i < |sorted|
      ensures sorted[i - 1].id != sorted[i].id
    {
      assert sorted[i] in entries && sorted[i - 1] in entries;
      if sorted[i - 1].id == sorted[i].id {
        SameIdSameEntry(slots, n, sorted[i - 1], sorted[i]);
        TwiceCounted(sorted, i);
      }
    }
    UniqueOfAllDifferent(sorted);
  }

  // --------------------------------------------------------- rows and files

  lemma {:induction false} RowSumCounts(chunks: seq<Chunk>)
    ensures RowSum(chunks) == |ConcatRows(chunks)|
    ensures chunks != [] && (forall i :: 0 <= i < |chunks| ==> chunks[i].rowCount != 0) ==> RowSum(chunks) != 0
  {
    if chunks != [] {
      RowSumCounts(chunks[..|chunks| - 1]);
    }
  }

  lemma LogRowsNext(slots: map<nat, Wal>, n: nat)
    requires n + 1 in slots
    ensures LogRows(slots, n + 1) == LogRows(slots, n) + WalRows(slots[n + 1])
  {
  }

  lemma WalHasRows(w: Wal)
    requires WalOk(w) && w.kind == Append
    ensures RowSum(w.chunks) == |ConcatRows(w.chunks)| != 0
  {
    RowSumCounts(w.chunks);
  }

  lemma ExtendKeepsRun(st: Store, cur: State, run: Run)
    requires SlotsOk(st.slots) && ObjectsOk(st) && RunOk(st, cur, run) && run.end + 1 in st.slots
    requires run.end - cur.indexed < MAX_WAL_PER_PASS
    ensures RunOk(st, cur, Extend(run, st.slots[run.end + 1]))
  {
    hide ExactlyOnce, EntriesExact, WalEntries, LogRows, ConcatRows, RowSum, WalOk, IsFullSchemaChunk, Typed,
      FromChunks, AllEncodable;
    var wal := st.slots[run.end + 1];
    LogRowsNext(st.slots, run.end);
    if wal.kind == Append {
      EntriesNext(st.slots, run.end, run.entries);
      ConcatRowsAppend(run.chunks, wal.chunks);
      WalHasRows(wal);
    } else {
      FenceAddsNothing(st.slots, run.end, run.entries);
    }
  }

  lemma FileOkLater(a: Store, b: Store, covered: nat, later: nat, list: seq<DataFile>)
    requires FilesOk(a, covered, list) && covered <= later && SubMap(a.files, b.files)
    ensures forall i :: 0 <= i < |list| ==>
              FileOk(b.files, later, list[i]) && list[i].path in a.files && list[i].last <= covered
    ensures FileRows(b.files, list) == LogRows(a.slots, covered)
  {
    hide LogRows, FileRows;
    forall i | 0 <= i < |list|
      ensures FileOk(b.files, later, list[i]) && list[i].path in a.files && list[i].last <= covered
    {
      assert FileOk(a.files, covered, list[i]);
    }
    FileRowsSame(a.files, b.files, list);
  }

  lemma FileRowsAppend(files: map<Key, seq<Row>>, list: seq<DataFile>, f: DataFile)
    requires f.path in files
    ensures FileRows(files, list + [f]) == FileRows(files, list) + files[f.path]
  {
    assert (list + [f])[..|list|] == list;
  }

  lemma FileAddsRun(st: Store, cur: State, base: Manifest, run: Run, path: Key)
    requires BaseOk(st, cur, base) && RunOk(st, cur, run)
    requires cur.indexed < run.end && run.chunks != [] && path !in st.files && path != []
    ensures FilesOk(AddFile(st, path, ConcatRows(run.chunks)), run.end,
                    base.files + [DataFile(path, cur.indexed + 1, run.end, run.rows)])
  {
    hide EntriesExact, LogRows, ConcatRows, FileRows, IndexEntries;
    var b := AddFile(st, path, ConcatRows(run.chunks));
    var last := DataFile(path, cur.indexed + 1, run.end, run.rows);
    FileOkLater(st, b, cur.indexed, run.end, base.files);
    FileRowsAppend(b.files, base.files, last);
    forall i, j | 0 <= i < j < |base.files + [last]|
      ensures (base.files + [last])[i].last < (base.files + [last])[j].first
    {
      assert (base.files + [last])[i] == base.files[i];
    }
  }

  lemma NoFileNeeded(st: Store, cur: State, base: Manifest, run: Run)
    requires BaseOk(st, cur, base) && RunOk(st, cur, run) && run.chunks == []
    ensures FilesOk(st, run.end, base.files)
  {
    hide EntriesExact;
    forall i | 0 <= i < |base.files|
      ensures FileOk(st.files, run.end, base.files[i])
    {
      assert FileOk(st.files, base.covered, base.files[i]);
    }
  }

  // ------------------------------------------------------------------ steps

  ghost predicate OutOk(st: Store, out: Out) {
    StoreInv(out.store) && Ext(st, out.store) && PcOk(out.store, out.indexer.pc)
  }

  lemma LocalKeeps(st: Store, x: Indexer)
    requires StoreInv(st) && PcOk(st, x.pc)
    ensures OutOk(st, Out(st, x))
  {
    hide StoreInv, PcOk;
    WS.ExtReflexive(st);
  }

  lemma SendKeeps(id: nat, st: Store, op: Op, x: Indexer, pc: Pc)
    requires StoreInv(st) && OpOk(st, op) && PcOk(Issue(st, IndexerId(id), 0, op), pc)
    ensures OutOk(st, Send(st, id, op, x, pc).value)
  {
    hide StoreInv, OpOk, PcOk;
    IssueKeeps(st, IndexerId(id), 0, op);
  }

  lemma LoadIndexKeeps(st: Store, x: Indexer)
    requires StoreInv(st) && PcOk(st, x.pc) && x.pc.LoadIndex? && ReadGo(st, x).Some?
    ensures OutOk(st, ReadGo(st, x).value)
  {
    hide StoreInv, OutOk, FilesOk, EntriesExact;
    var LoadIndex(_, cur, base, k, entries) := x.pc;
    if k < |base.indexKeys| {
      assert base.indexKeys[..k + 1][..k] == base.indexKeys[..k];
    } else {
      assert base.indexKeys[..k] == base.indexKeys;
    }
    LocalKeeps(st, ReadGo(st, x).value.indexer);
  }

  lemma CollectKeeps(st: Store, x: Indexer)
    requires StoreInv(st) && PcOk(st, x.pc) && x.pc.Collect? && ReadGo(st, x).Some?
    ensures OutOk(st, ReadGo(st, x).value)
  {
    hide StoreInv, OutOk, FilesOk, EntriesExact, ExactlyOnce, WalOk, ObjectsOk, AllFull;
    WS.ContiguousOf(st);
    ObjectsOf(st);
    var Collect(_, cur, base, run) := x.pc;
    if run.end < MAX_U64 && run.end - cur.indexed < MAX_WAL_PER_PASS && run.end + 1 in st.slots {
      ExtendKeepsRun(st, cur, run);
    } else if run.chunks == [] {
      NoFileNeeded(st, cur, base, run);
    }
    LocalKeeps(st, ReadGo(st, x).value.indexer);
  }

  lemma ReadGoKeeps(st: Store, x: Indexer)
    requires StoreInv(st) && PcOk(st, x.pc) && ReadGo(st, x).Some?
    ensures OutOk(st, ReadGo(st, x).value)
  {
    hide StoreInv, OutOk, FilesOk, EntriesExact;
    match x.pc
    case Load(_) =>
      if HasCurrent(st) {
        WS.CurrentIsGood(st);
      }
      LocalKeeps(st, ReadGo(st, x).value.indexer);
    case LoadManifest(_, cur) =>
      WS.InHistoryIsGood(st, cur);
      LocalKeeps(st, ReadGo(st, x).value.indexer);
    case LoadIndex(_, _, _, _, _) => LoadIndexKeeps(st, x);
    case Collect(_, _, _, _) => CollectKeeps(st, x);
  }

  lemma RunIsFull(st: Store, cur: State, run: Run)
    requires RunOk(st, cur, run)
    ensures FromChunks(st.schema, ConcatRows(run.chunks))
  {
  }

  lemma ObjectsOf(st: Store)
    requires StoreInv(st)
    ensures ObjectsOk(st)
  {
  }

  lemma DataKeyNotEmpty(path: Key)
    requires HasPrefix(path, DATA_PREFIX)
    ensures path != []
  {
  }

  lemma WriteGoKeeps(st: Store, x: Indexer, path: Key)
    requires StoreInv(st) && PcOk(st, x.pc) && WriteGo(st, x, path).Some?
    ensures OutOk(st, WriteGo(st, x, path).value)
  {
    hide StoreInv, FilesOk, GoodManifest, RunOk, Ext, Contiguous;
    var WriteData(_, cur, base, run) := x.pc;
    if !HasPrefix(path, DATA_PREFIX) {
      LocalKeeps(st, WriteGo(st, x, path).value.indexer);
      return;
    }
    var b := AddFile(st, path, ConcatRows(run.chunks));
    DataKeyNotEmpty(path);
    RunIsFull(st, cur, run);
    AddFileKeeps(st, path, ConcatRows(run.chunks));
    WS.ContiguousOf(st);
    WS.ContiguousOf(b);
    RunGrows(st, b, cur, run);
    FileAddsRun(st, cur, base, run, path);
    RunBounds(b, cur, run);
  }

  lemma RunBounds(st: Store, cur: State, run: Run)
    requires RunOk(st, cur, run)
    ensures cur.indexed <= run.end <= |st.slots|
  {
  }

  lemma DedupGoKeeps(id: nat, st: Store, x: Indexer, key: Key, sorted: seq<Entry>)
    requires StoreInv(st) && PcOk(st, x.pc) && DedupGo(id, st, x, key, sorted).Some?
    ensures OutOk(st, DedupGo(id, st, x, key, sorted).value)
  {
    hide StoreInv, OutOk, FilesOk, EntriesExact, SortedById, Ascii, DedupKey, HasPrefix;
    var PutDedup(attempt, cur, grown, run) := x.pc;
    if !HasPrefix(key, MANIFEST_PREFIX) {
      LocalKeeps(st, DedupGo(id, st, x, key, sorted).value.indexer);
    } else {
      WS.ContiguousOf(st);
      SortUniqueDropsNothing(st.slots, run.end, run.entries, sorted);
      EntriesEncode(st.slots, run.end, sorted);
      var full := grown.(indexKeys := [DedupKey(key)], covered := run.end);
      FilesOkGrows(st, Issue(st, IndexerId(id), 0, PutIndex(DedupKey(key), sorted)), run.end, full.files);
      SendKeeps(id, st, PutIndex(DedupKey(key), sorted), x,
                DedupWait(attempt, cur, full, key, sorted, |st.requests|));
    }
  }

  lemma DedupKeyPrefix(key: Key)
    requires HasPrefix(key, MANIFEST_PREFIX)
    ensures HasPrefix(DedupKey(key), DEDUP_PREFIX)
  {
    hide Ascii;
  }

  /** The dedup encoder's validity checks never fire. */
  lemma EntriesEncode(slots: map<nat, Wal>, n: nat, entries: seq<Entry>)
    requires SlotsOk(slots) && EntriesExact(slots, n, entries)
    ensures AllEncodable(entries)
  {
    hide ExactlyOnce, Contiguous;
    forall i | 0 <= i < |entries|
      ensures EntryEncodable(entries[i])
    {
      assert EntrySound(slots, n, entries[i]);
      assert WalOk(slots[entries[i].slot]);
    }
  }

  lemma DedupGotKeeps(id: nat, st: Store, x: Indexer, r: Reply)
    requires StoreInv(st) && PcOk(st, x.pc) && x.pc.DedupWait? && WriteGot(id, st, x, r).Some?
    ensures OutOk(st, WriteGot(id, st, x, r).value)
  {
    hide StoreInv, OutOk, FilesOk, EntriesExact, DedupKey, HasPrefix;
    var DedupWait(attempt, cur, full, key, entries, rid) := x.pc;
    if r.Applied? {
      WS.LandedIs(st, rid);
      assert full.indexKeys[..|full.indexKeys| - 1] == [];
      assert IndexEntries(st.indexes, []) == [];
      assert IndexEntries(st.indexes, full.indexKeys) == [] + entries == entries;
      DedupKeyPrefix(key);
      assert GoodManifest(st, full);
      var b := Issue(st, IndexerId(id), 0, PutManifest(key, full));
      WS.ContiguousOf(st);
      FilesOkGrows(st, b, full.covered, full.files);
      SendKeeps(id, st, PutManifest(key, full), x, ManifestWait(attempt, cur, full, key, |st.requests|));
    } else {
      LocalKeeps(st, WriteGot(id, st, x, r).value.indexer);
    }
  }

  lemma ManifestGotKeeps(id: nat, st: Store, x: Indexer, r: Reply)
    requires StoreInv(st) && PcOk(st, x.pc) && x.pc.ManifestWait? && WriteGot(id, st, x, r).Some?
    ensures OutOk(st, WriteGot(id, st, x, r).value)
  {
    hide StoreInv, OutOk, FilesOk, GoodManifest;
    var ManifestWait(attempt, cur, full, key, rid) := x.pc;
    if r.Applied? {
      WS.LandedIs(st, rid);
      WS.InHistoryIsGood(st, cur);
      var next := NextState(cur, full, key);
      SendKeeps(id, st, Cas(cur, next), x, CasWait(attempt, cur, next, |st.requests|));
    } else {
      LocalKeeps(st, WriteGot(id, st, x, r).value.indexer);
    }
  }

  lemma WriteGotKeeps(id: nat, st: Store, x: Indexer, r: Reply)
    requires StoreInv(st) && PcOk(st, x.pc) && WriteGot(id, st, x, r).Some?
    ensures OutOk(st, WriteGot(id, st, x, r).value)
  {
    hide StoreInv, OutOk;
    match x.pc
    case DedupWait(_, _, _, _, _, _) => DedupGotKeeps(id, st, x, r);
    case ManifestWait(_, _, _, _, _) => ManifestGotKeeps(id, st, x, r);
    case CasWait(_, _, _, _) => LocalKeeps(st, WriteGot(id, st, x, r).value.indexer);
  }

  /** Whatever an indexer does next, manifests and CURRENT stay sound. */
  lemma IndexerKeeps(id: nat, st: Store, x: Indexer, inp: Input)
    requires StoreInv(st) && PcOk(st, x.pc) && Next(id, st, x, inp).Some?
    ensures OutOk(st, Next(id, st, x, inp).value)
  {
    hide StoreInv, OutOk, ReadGo, WriteGo, DedupGo, WriteGot;
    match inp
    case CallIndex => LocalKeeps(st, x.(pc := Load(0)));
    case Throw => LocalKeeps(st, Raise(st, x).value.indexer);
    case Go => ReadGoKeeps(st, x);
    case GoPath(path) => WriteGoKeeps(st, x, path);
    case GoKey(key, sorted) => DedupGoKeeps(id, st, x, key, sorted);
    case Got(r) => WriteGotKeeps(id, st, x, r);
  }
}
