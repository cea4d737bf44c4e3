/** What every step of the protocol keeps about the shared stores. */
module Invariant {
  import opened Table
  import opened Store
  import opened Writer

  // ---------------------------------------------------------------- the log

  /** Existing WAL numbers are exactly 1..n. */
  ghost predicate Contiguous(slots: map<nat, Wal>) {
    forall k: nat :: k in slots <==> 1 <= k <= |slots|
  }

  ghost predicate Disjoint(a: seq<Id>, b: seq<Id>) {
    forall i, j :: 0 <= i < |a| && 0 <= j < |b| ==> a[i] != b[j]
  }

  /** Each batch id occurs in at most one entry. */
  ghost predicate ExactlyOnce(slots: map<nat, Wal>) {
    forall j, k :: j in slots && k in slots && j < k ==> Disjoint(slots[j].ids, slots[k].ids)
  }

  ghost predicate WalOk(w: Wal) {
    && 1 <= w.slot
    && (match w.kind
        case Fence => w.ids == [] && w.chunks == []
        case Append =>
          && w.ids != [] && w.chunks != [] && w.op == w.ids[0]
          && Distinct(w.ids)
          && (forall i :: 0 <= i < |w.ids| ==> w.ids[i] != [])
          && (forall i :: 0 <= i < |w.chunks| ==> w.chunks[i].rowCount != 0))
  }

  ghost predicate SlotsOk(slots: map<nat, Wal>) {
    && Contiguous(slots)
    && ExactlyOnce(slots)
    && (forall k :: k in slots ==> slots[k].slot == k && WalOk(slots[k]))
  }

  /** A create for slot `w.slot` was issued after the prefix before it had been read and checked. */
  ghost predicate ChecksPrefix(slots: map<nat, Wal>, w: Wal) {
    && (w.slot == 1 || w.slot - 1 in slots)
    && (forall k :: k in slots && k < w.slot ==> Disjoint(slots[k].ids, w.ids))
  }

  // ------------------------------------------------------- dedup entries

  /** `e` describes a batch id of slot `e.slot`, and that slot is among 1..n. */
  ghost predicate EntrySound(slots: map<nat, Wal>, n: nat, e: Entry) {
    && 1 <= e.slot <= n
    && e.slot in slots
    && e.id in slots[e.slot].ids
    && e == WalEntry(slots[e.slot], e.id)
  }

  /** The entries are those of slots 1..n: every one correct, none missing, none twice. */
  ghost predicate EntriesExact(slots: map<nat, Wal>, n: nat, entries: seq<Entry>) {
    && (forall e :: e in entries ==> EntrySound(slots, n, e))
    && (forall k, id :: k in slots && k <= n && id in slots[k].ids ==> WalEntry(slots[k], id) in entries)
    && (forall e :: e in entries ==> multiset(entries)[e] == 1)
  }

  ghost predicate KnownExact(slots: map<nat, Wal>, n: nat, known: map<Id, Entry>) {
    && (forall id :: id in known ==> known[id].id == id && EntrySound(slots, n, known[id]))
    && (forall k, id :: k in slots && k <= n && id in slots[k].ids ==> id in known)
  }

  // ------------------------------------------------- manifests and CURRENT

  ghost predicate FileOk(files: map<Key, seq<Row>>, covered: nat, f: DataFile) {
    && f.path != [] && 1 <= f.first <= f.last <= covered && f.rows != 0
    && f.path in files && |files[f.path]| == f.rows
  }

  /** Data files lie in 1..covered in ascending disjoint ranges and hold that prefix's rows. */
  ghost predicate FilesOk(st: Store, covered: nat, list: seq<DataFile>) {
    && (forall i :: 0 <= i < |list| ==> FileOk(st.files, covered, list[i]))
    && (forall i, j :: 0 <= i < j < |list| ==> list[i].last < list[j].first)
    && FileRows(st.files, list) == LogRows(st.slots, covered)
  }

  ghost predicate GoodManifest(st: Store, m: Manifest) {
    && m.covered <= |st.slots|
    && FilesOk(st, m.covered, m.files)
    && (forall i :: 0 <= i < |m.indexKeys| ==> m.indexKeys[i] in st.indexes && HasPrefix(m.indexKeys[i], DEDUP_PREFIX))
    && EntriesExact(st.slots, m.covered, IndexEntries(st.indexes, m.indexKeys))
  }

  ghost predicate GoodState(st: Store, s: State) {
    && s.indexed <= s.published <= |st.slots|
    && s.manifest in st.manifests && HasPrefix(s.manifest, MANIFEST_PREFIX)
    && st.manifests[s.manifest].covered == s.indexed
  }

  /** What SequentialStateStore::CompareExchange demands of a new CURRENT. */
  ghost predicate ValidTransition(e: State, n: State) {
    && n.version == e.version + 1
    && e.epoch <= n.epoch <= e.epoch + 1
    && e.indexed <= n.indexed && e.published <= n.published && n.indexed <= n.published
  }

  ghost predicate NotBefore(a: State, b: State) {
    a.version <= b.version && a.epoch <= b.epoch && a.indexed <= b.indexed && a.published <= b.published
  }

  ghost predicate HistoryOk(st: Store) {
    && (forall i :: 0 <= i < |st.history| ==> st.history[i].version == i && GoodState(st, st.history[i]))
    && (forall i, j :: 0 <= i <= j < |st.history| ==> NotBefore(st.history[i], st.history[j]))
  }

  // ----------------------------------------------------------- requests

  ghost predicate EntryEncodable(e: Entry) {
    e.id != [] && e.slot != 0 && e.op != []
  }

  ghost predicate AllEncodable(es: seq<Entry>) {
    forall i :: 0 <= i < |es| ==> EntryEncodable(es[i])
  }

  ghost predicate OpOk(st: Store, op: Op) {
    match op
    case PutWal(w) => WalOk(w) && ChecksPrefix(st.slots, w) && AllFull(w.chunks, st.schema)
    case PutManifest(_, m) => GoodManifest(st, m)
    case PutIndex(_, es) => AllEncodable(es)
    case PutCurrent(s) =>
      s == INITIAL_STATE && INITIAL_KEY in st.manifests && st.manifests[INITIAL_KEY] == INITIAL_MANIFEST
    case Cas(e, n) => e in st.history && ValidTransition(e, n) && GoodState(st, n)
  }

  ghost predicate LandedOk(st: Store, op: Op) {
    match op
    case PutWal(w) => w.slot in st.slots && st.slots[w.slot] == w
    case PutManifest(k, m) => k in st.manifests && st.manifests[k] == m
    case PutIndex(k, es) => k in st.indexes && st.indexes[k] == es
    case PutCurrent(_) => HasCurrent(st)
    case Cas(_, n) => n in st.history
  }

  ghost predicate RequestsOk(st: Store) {
    && (forall i :: 0 <= i < |st.requests| ==> OpOk(st, st.requests[i].op))
    && (forall i :: i in st.landed ==> i < |st.requests| && LandedOk(st, st.requests[i].op))
  }

  /** Rows that came from chunks of the table's columns: what a data file is written from. */
  ghost predicate FromChunks(schema: Schema, rows: seq<Row>) {
    exists chunks :: AllFull(chunks, schema) && rows == ConcatRows(chunks)
  }

  /** Stored WALs and data files carry chunks of the table's columns, stored indexes entries the encoder takes. */
  ghost predicate ObjectsOk(st: Store) {
    && (forall k :: k in st.slots ==> AllFull(st.slots[k].chunks, st.schema))
    && (forall k :: k in st.indexes ==> AllEncodable(st.indexes[k]))
    && (forall k :: k in st.files ==> FromChunks(st.schema, st.files[k]))
  }

  ghost predicate StoreInv(st: Store) {
    && SlotsOk(st.slots) && ObjectsOk(st)
    && (forall k :: k in st.manifests ==> GoodManifest(st, st.manifests[k]))
    && HistoryOk(st)
    && RequestsOk(st)
  }

  // ------------------------------------------------------------ growth

  ghost predicate SubMap<K, V>(a: map<K, V>, b: map<K, V>) {
    forall k :: k in a ==> k in b && a[k] == b[k]
  }

  /** Objects are immutable and CURRENT only moves on: later stores extend earlier ones. */
  ghost predicate Ext(a: Store, b: Store) {
    && a.schema == b.schema
    && SubMap(a.slots, b.slots) && SubMap(a.files, b.files)
    && SubMap(a.manifests, b.manifests) && SubMap(a.indexes, b.indexes)
    && a.history <= b.history
    && a.requests <= b.requests
    && a.landed <= b.landed
    && |a.slots| <= |b.slots|
  }

  lemma {:induction false} LogRowsSame(a: map<nat, Wal>, b: map<nat, Wal>, n: nat)
    requires Contiguous(a) && SubMap(a, b) && n <= |a|
    ensures LogRows(a, n) == LogRows(b, n)
  {
    if n != 0 {
      LogRowsSame(a, b, n - 1);
      assert n in a;
    }
  }

  lemma {:induction false} FileRowsSame(a: map<Key, seq<Row>>, b: map<Key, seq<Row>>, list: seq<DataFile>)
    requires SubMap(a, b)
    requires forall i :: 0 <= i < |list| ==> list[i].path in a
    ensures FileRows(a, list) == FileRows(b, list)
  {
    if list != [] {
      FileRowsSame(a, b, list[..|list| - 1]);
      assert list[|list| - 1].path in a;
    }
  }

  lemma {:induction false} IndexEntriesSame(a: map<Key, seq<Entry>>, b: map<Key, seq<Entry>>, keys: seq<Key>)
    requires SubMap(a, b)
    requires forall i :: 0 <= i < |keys| ==> keys[i] in a
    ensures IndexEntries(a, keys) == IndexEntries(b, keys)
  {
    if keys != [] {
      IndexEntriesSame(a, b, keys[..|keys| - 1]);
      assert keys[|keys| - 1] in a;
    }
  }

  lemma EntriesExactGrows(a: map<nat, Wal>, b: map<nat, Wal>, n: nat, entries: seq<Entry>)
    requires Contiguous(a) && SubMap(a, b) && n <= |a| && Contiguous(b)
    requires EntriesExact(a, n, entries)
    ensures EntriesExact(b, n, entries)
  {
    forall k, id | k in b && k <= n && id in b[k].ids
      ensures WalEntry(b[k], id) in entries
    {
      assert k in a;
    }
  }

  lemma KnownExactGrows(a: map<nat, Wal>, b: map<nat, Wal>, n: nat, known: map<Id, Entry>)
    requires Contiguous(a) && SubMap(a, b) && n <= |a| && Contiguous(b)
    requires KnownExact(a, n, known)
    ensures KnownExact(b, n, known)
  {
    forall k, id | k in b && k <= n && id in b[k].ids
      ensures id in known
    {
      assert k in a;
    }
  }

  lemma FilesOkGrows(a: Store, b: Store, covered: nat, list: seq<DataFile>)
    requires Ext(a, b) && Contiguous(a.slots) && covered <= |a.slots|
    requires FilesOk(a, covered, list)
    ensures FilesOk(b, covered, list)
  {
    forall i | 0 <= i < |list|
      ensures FileOk(b.files, covered, list[i])
    {
      assert FileOk(a.files, covered, list[i]);
    }
    forall i | 0 <= i < |list|
      ensures list[i].path in a.files
    {
      assert FileOk(a.files, covered, list[i]);
    }
    FileRowsSame(a.files, b.files, list);
    LogRowsSame(a.slots, b.slots, covered);
  }

  lemma GoodManifestGrows(a: Store, b: Store, m: Manifest)
    requires Ext(a, b) && Contiguous(a.slots) && Contiguous(b.slots)
    requires GoodManifest(a, m)
    ensures GoodManifest(b, m)
  {
    FilesOkGrows(a, b, m.covered, m.files);
    IndexEntriesSame(a.indexes, b.indexes, m.indexKeys);
    EntriesExactGrows(a.slots, b.slots, m.covered, IndexEntries(a.indexes, m.indexKeys));
  }

  lemma ChecksPrefixGrows(a: map<nat, Wal>, b: map<nat, Wal>, w: Wal)
    requires Contiguous(a) && SubMap(a, b) && Contiguous(b)
    requires ChecksPrefix(a, w)
    ensures ChecksPrefix(b, w)
  {
    forall k | k in b && k < w.slot
      ensures Disjoint(b[k].ids, w.ids)
    {
      assert k in a;
    }
  }

  lemma OpOkGrows(a: Store, b: Store, op: Op)
    requires Ext(a, b) && Contiguous(a.slots) && Contiguous(b.slots)
    requires OpOk(a, op)
    ensures OpOk(b, op)
  {
    match op
    case PutWal(w) => ChecksPrefixGrows(a.slots, b.slots, w);
    case PutManifest(_, m) => GoodManifestGrows(a, b, m);
    case _ =>
  }

  // -------------------------------------- the three ways a store can change

  lemma RequestsOkGrows(a: Store, b: Store)
    requires Ext(a, b) && Contiguous(a.slots) && Contiguous(b.slots)
    requires RequestsOk(a)
    ensures forall i :: 0 <= i < |a.requests| ==> OpOk(b, b.requests[i].op)
    ensures forall i :: i in a.landed ==> i < |b.requests| && LandedOk(b, b.requests[i].op)
  {
    hide OpOk;
    forall i | 0 <= i < |a.requests|
      ensures OpOk(b, b.requests[i].op)
    {
      assert b.requests[i] == a.requests[i];
      OpOkGrows(a, b, a.requests[i].op);
    }
    forall i | i in a.landed
      ensures i < |b.requests| && LandedOk(b, b.requests[i].op)
    {
      assert b.requests[i] == a.requests[i];
      assert LandedOk(a, a.requests[i].op);
    }
  }

  lemma ManifestsGrow(a: Store, b: Store)
    requires Ext(a, b) && Contiguous(a.slots) && Contiguous(b.slots)
    requires forall k :: k in a.manifests ==> GoodManifest(a, a.manifests[k])
    ensures forall k :: k in a.manifests ==> GoodManifest(b, a.manifests[k])
  {
    forall k | k in a.manifests
      ensures GoodManifest(b, a.manifests[k])
    {
      GoodManifestGrows(a, b, a.manifests[k]);
    }
  }

  lemma IssueKeeps(st: Store, from: Actor, own: nat, op: Op)
    requires StoreInv(st) && OpOk(st, op)
    ensures StoreInv(Issue(st, from, own, op)) && Ext(st, Issue(st, from, own, op))
  {
    hide GoodManifest, OpOk, LandedOk, ExactlyOnce, WalOk, AllFull, AllEncodable, FromChunks;
    var b := Issue(st, from, own, op);
    ManifestsGrow(st, b);
    RequestsOkGrows(st, b);
    OpOkGrows(st, b, op);
    assert HistoryOk(b) by {
      forall i | 0 <= i < |b.history|
        ensures b.history[i].version == i && GoodState(b, b.history[i])
      {
        assert GoodState(st, st.history[i]);
      }
    }
  }

  ghost function AddFile(st: Store, path: Key, rows: seq<Row>): Store {
    st.(files := st.files[path := rows])
  }

  lemma AddFileKeeps(st: Store, path: Key, rows: seq<Row>)
    requires StoreInv(st) && path !in st.files && FromChunks(st.schema, rows)
    ensures StoreInv(AddFile(st, path, rows)) && Ext(st, AddFile(st, path, rows))
  {
    hide GoodManifest, OpOk, LandedOk, ExactlyOnce, WalOk, AllFull, AllEncodable, FromChunks;
    var b := AddFile(st, path, rows);
    ManifestsGrow(st, b);
    RequestsOkGrows(st, b);
    forall i | 0 <= i < |b.history|
      ensures b.history[i].version == i && GoodState(b, b.history[i])
    {
      assert GoodState(st, st.history[i]);
    }
  }

  lemma InsertSize<K, V>(m: map<K, V>, k: K, v: V)
    requires k !in m
    ensures |m[k := v]| == |m| + 1
  {
    assert m[k := v].Keys == m.Keys + {k};
    assert |m[k := v]| == |m[k := v].Keys| && |m| == |m.Keys|;
  }

  /** A create that lands always fills the first empty slot: the prefix it checked is the whole log. */
  lemma LandingSlot(slots: map<nat, Wal>, w: Wal)
    requires Contiguous(slots) && ChecksPrefix(slots, w) && WalOk(w) && w.slot !in slots
    ensures w.slot == |slots| + 1
    ensures Contiguous(slots[w.slot := w]) && |slots[w.slot := w]| == |slots| + 1
  {
    hide Disjoint, Distinct;
    InsertSize(slots, w.slot, w);
    assert w.slot == |slots| + 1;
    var b := slots[w.slot := w];
    forall k: nat
      ensures k in b <==> 1 <= k <= |b|
    {
      assert k in b <==> k in slots || k == w.slot;
    }
  }

  lemma LandWalKeepsSlots(slots: map<nat, Wal>, w: Wal)
    requires SlotsOk(slots) && ChecksPrefix(slots, w) && WalOk(w) && w.slot !in slots
    ensures SlotsOk(slots[w.slot := w]) && SubMap(slots, slots[w.slot := w])
    ensures |slots[w.slot := w]| == |slots| + 1
  {
    LandingSlot(slots, w);
    var b := slots[w.slot := w];
    forall j, k | j in b && k in b && j < k
      ensures Disjoint(b[j].ids, b[k].ids)
    {
      if k == w.slot {
        assert j in slots;
      } else {
        assert k in slots && j in slots;
      }
    }
  }

  lemma GoodStateGrows(a: Store, b: Store, s: State)
    requires Ext(a, b) && GoodState(a, s)
    ensures GoodState(b, s)
  {
  }

  lemma HistoryGrows(a: Store, b: Store)
    requires Ext(a, b) && HistoryOk(a) && a.history == b.history
    ensures HistoryOk(b)
  {
    forall i | 0 <= i < |b.history|
      ensures GoodState(b, b.history[i])
    {
      GoodStateGrows(a, b, a.history[i]);
    }
  }

  lemma LandCasKeepsHistory(a: Store, b: Store, e: State, n: State)
    requires Ext(a, b) && HistoryOk(a) && HasCurrent(a) && Current(a) == e
    requires ValidTransition(e, n) && GoodState(a, n)
    requires b.history == a.history + [n]
    ensures HistoryOk(b)
  {
    var last := |a.history| - 1;
    forall i | 0 <= i < |b.history|
      ensures b.history[i].version == i && GoodState(b, b.history[i])
    {
      if i <= last {
        assert b.history[i] == a.history[i];
        GoodStateGrows(a, b, a.history[i]);
      } else {
        assert a.history[last].version == last;
        GoodStateGrows(a, b, n);
      }
    }
    forall i, j | 0 <= i <= j < |b.history|
      ensures NotBefore(b.history[i], b.history[j])
    {
      if i <= last {
        assert NotBefore(a.history[i], a.history[last]);
      }
    }
  }

  /** The part of the argument that all landings share. */
  lemma LandingKeeps(a: Store, b: Store, rid: nat)
    requires StoreInv(a) && rid < |a.requests|
    requires Ext(a, b) && SlotsOk(b.slots) && ObjectsOk(b) && HistoryOk(b)
    requires b.requests == a.requests && b.landed == a.landed + {rid}
    requires LandedOk(b, b.requests[rid].op)
    requires forall k :: k in b.manifests && k !in a.manifests ==> GoodManifest(b, b.manifests[k])
    ensures StoreInv(b)
  {
    hide GoodManifest, OpOk, LandedOk, HistoryOk, ExactlyOnce, WalOk, ObjectsOk;
    ManifestsGrow(a, b);
    RequestsOkGrows(a, b);
    forall k | k in b.manifests
      ensures GoodManifest(b, b.manifests[k])
    {
      if k in a.manifests {
        assert GoodManifest(b, a.manifests[k]);
      }
    }
  }

  lemma LandWalKeeps(st: Store, rid: nat, w: Wal)
    requires StoreInv(st) && CanLand(st, rid) && st.requests[rid].op == PutWal(w)
    ensures StoreInv(LandWal(st, rid, w)) && Ext(st, LandWal(st, rid, w))
  {
    hide GoodManifest, HistoryOk, ExactlyOnce, Contiguous, AllFull, AllEncodable, FromChunks;
    assert OpOk(st, PutWal(w));
    LandWalKeepsSlots(st.slots, w);
    HistoryGrows(st, LandWal(st, rid, w));
    LandingKeeps(st, LandWal(st, rid, w), rid);
  }

  lemma LandManifestKeeps(st: Store, rid: nat, k: Key, m: Manifest)
    requires StoreInv(st) && CanLand(st, rid) && st.requests[rid].op == PutManifest(k, m)
    ensures StoreInv(LandManifest(st, rid, k, m)) && Ext(st, LandManifest(st, rid, k, m))
  {
    hide GoodManifest, HistoryOk, ExactlyOnce, Contiguous, AllFull, AllEncodable, FromChunks;
    var b := LandManifest(st, rid, k, m);
    assert OpOk(st, PutManifest(k, m));
    HistoryGrows(st, b);
    GoodManifestGrows(st, b, m);
    LandingKeeps(st, b, rid);
  }

  lemma LandIndexKeeps(st: Store, rid: nat, k: Key, es: seq<Entry>)
    requires StoreInv(st) && CanLand(st, rid) && st.requests[rid].op == PutIndex(k, es)
    ensures StoreInv(LandIndex(st, rid, k, es)) && Ext(st, LandIndex(st, rid, k, es))
  {
    hide GoodManifest, HistoryOk, ExactlyOnce, Contiguous, AllFull, AllEncodable, FromChunks;
    var b := LandIndex(st, rid, k, es);
    assert OpOk(st, PutIndex(k, es));
    HistoryGrows(st, b);
    LandingKeeps(st, b, rid);
  }

  lemma InitialPrefix()
    ensures HasPrefix(INITIAL_KEY, MANIFEST_PREFIX)
  {
    assert |MANIFEST_PREFIX| == 9 && |INITIAL_KEY| == 21;
    assert forall i :: 0 <= i < 9 ==> "manifest/initial.meta"[i] == "manifest/"[i];
  }

  lemma LandCurrentKeeps(st: Store, rid: nat, s: State)
    requires StoreInv(st) && CanLand(st, rid) && st.requests[rid].op == PutCurrent(s)
    ensures StoreInv(LandState(st, rid, s)) && Ext(st, LandState(st, rid, s))
  {
    hide GoodManifest, ExactlyOnce, Contiguous, Ascii, AllFull, AllEncodable, FromChunks;
    var b := LandState(st, rid, s);
    assert OpOk(st, PutCurrent(s));
    InitialPrefix();
    assert b.history == [INITIAL_STATE] && GoodState(b, INITIAL_STATE);
    assert HistoryOk(b);
    LandingKeeps(st, b, rid);
  }

  /** A swap that lands, whatever else it records. */
  lemma SwapKeeps(st: Store, b: Store, rid: nat, e: State, n: State)
    requires StoreInv(st) && CanLand(st, rid) && st.requests[rid].op == Cas(e, n)
    requires b == st.(landed := st.landed + {rid}, history := st.history + [n], owner := b.owner, lenAt := b.lenAt)
    ensures StoreInv(b) && Ext(st, b)
  {
    hide GoodManifest, GoodState, HistoryOk, ExactlyOnce, Contiguous, AllFull, AllEncodable, FromChunks;
    assert OpOk(st, Cas(e, n));
    LandCasKeepsHistory(st, b, e, n);
    LandingKeeps(st, b, rid);
  }

  lemma LandCasKeeps(st: Store, rid: nat, e: State, n: State)
    requires StoreInv(st) && CanLand(st, rid) && st.requests[rid].op == Cas(e, n)
    ensures StoreInv(LandState(st, rid, n)) && Ext(st, LandState(st, rid, n))
    ensures StoreInv(LandEpoch(st, rid, n, st.requests[rid].from))
    ensures Ext(st, LandEpoch(st, rid, n, st.requests[rid].from))
  {
    hide StoreInv, Ext;
    SwapKeeps(st, LandState(st, rid, n), rid, e, n);
    SwapKeeps(st, LandEpoch(st, rid, n, st.requests[rid].from), rid, e, n);
  }

  lemma LandKeeps(st: Store, rid: nat)
    requires StoreInv(st) && CanLand(st, rid)
    ensures StoreInv(Land(st, rid)) && Ext(st, Land(st, rid))
  {
    hide StoreInv, Ext;
    match st.requests[rid].op
    case PutWal(w) => LandWalKeeps(st, rid, w);
    case PutManifest(k, m) => LandManifestKeeps(st, rid, k, m);
    case PutIndex(k, es) => LandIndexKeeps(st, rid, k, es);
    case PutCurrent(s) => LandCurrentKeeps(st, rid, s);
    case Cas(e, n) => LandCasKeeps(st, rid, e, n);
  }
}
