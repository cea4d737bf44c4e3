/** Every writer step keeps the store invariant, and a writer answers only what the log supports. */
module WriterSafety {
  import opened Table
  import opened Store
  import opened Writer
  import opened Invariant

  /** The batch is the content of the Append entry in `slot`. */
  ghost predicate Stored(st: Store, b: Batch, slot: nat) {
    && slot in st.slots
    && st.slots[slot].kind == Append
    && st.slots[slot].ids == b.ids
    && st.slots[slot].chunks == b.chunks
  }

  ghost predicate AckOk(st: Store, a: Ack) {
    && Stored(st, a.batch, a.slot)
    && (a.visible ==> HasCurrent(st) && a.slot <= Current(st).published)
  }

  ghost predicate AfterPrefix(st: Store, slot: nat) {
    slot == 1 || (1 < slot && slot - 1 in st.slots)
  }

  ghost predicate Sent(st: Store, rid: nat, op: Op) {
    rid < |st.requests| && st.requests[rid].op == op
  }

  ghost predicate IndexLoaded(st: Store, latest: State, keys: seq<Key>, k: nat, entries: seq<Entry>) {
    && latest.manifest in st.manifests
    && keys == st.manifests[latest.manifest].indexKeys
    && k <= |keys|
    && entries == IndexEntries(st.indexes, keys[..k])
  }

  /** Facts a writer holds while it is in Start. */
  ghost predicate StartPcOk(st: Store, pc: Pc) {
    match pc
    case InitCurrent => INITIAL_KEY in st.manifests && st.manifests[INITIAL_KEY] == INITIAL_MANIFEST
    case InitManifestWait(rid) => Sent(st, rid, PutManifest(INITIAL_KEY, INITIAL_MANIFEST))
    case InitCurrentWait(rid) => Sent(st, rid, PutCurrent(INITIAL_STATE))
    case StartReload => HasCurrent(st)
    case AcquireReload(_) => HasCurrent(st)
    case Acquire(seen, _) => seen in st.history
    case AcquireWait(seen, next, _, rid) => seen in st.history && Sent(st, rid, Cas(seen, next))
    case ScanCheck(_, slot) => AfterPrefix(st, slot)
    case ScanProbe(_, slot) => AfterPrefix(st, slot)
    case PlantFence(_, slot) => AfterPrefix(st, slot)
    case PlantWait(acquired, slot, rid) =>
      AfterPrefix(st, slot) && Sent(st, rid, PutWal(FenceWal(acquired.epoch, slot)))
    case PlantResolve(_, slot, _) => AfterPrefix(st, slot)
    case Confirm(_, slot) => slot in st.slots
    case _ => true
  }

  /** Facts a writer holds while it is in Import. */
  ghost predicate ImportPcOk(st: Store, w: Writer) {
    match w.pc
    case ImportLoad(b) => w.current.Some? && IsValidBatch(b, st.schema)
    case ImportManifest(b, latest) => w.current.Some? && IsValidBatch(b, st.schema) && latest in st.history
    case ImportIndex(b, latest, keys, k, entries) =>
      w.current.Some? && IsValidBatch(b, st.schema) && latest in st.history && IndexLoaded(st, latest, keys, k, entries)
    case ImportScan(b, latest, known, slot) =>
      && w.current.Some? && IsValidBatch(b, st.schema) && latest in st.history
      && 1 <= slot <= |st.slots| + 1 && KnownExact(st.slots, slot - 1, known)
    case ImportWait(b, wal, rid) =>
      && w.current.Some? && IsValidBatch(b, st.schema)
      && wal == AppendWal(b, wal.epoch, w.nextSlot) && Sent(st, rid, PutWal(wal))
    case ImportResolve(b, wal) =>
      w.current.Some? && IsValidBatch(b, st.schema) && wal == AppendWal(b, wal.epoch, w.nextSlot)
    case Publishing(b, slot, _, _) => w.current.Some? && Stored(st, b, slot)
    case PublishWait(b, slot, _, _, next, rid) =>
      && w.current.Some? && Stored(st, b, slot) && next.published == slot
      && rid < |st.requests| && st.requests[rid].op.Cas? && st.requests[rid].op.next == next
    case _ => true
  }

  ghost predicate WriterInv(st: Store, w: Writer) {
    && (w.current.Some? ==> 2 <= w.nextSlot && w.nextSlot - 1 in st.slots)
    && StartPcOk(st, w.pc)
    && ImportPcOk(st, w)
  }

  lemma CurrentOnlyAdvances(a: Store, b: Store)
    requires Ext(a, b) && HistoryOk(b) && HasCurrent(a)
    ensures HasCurrent(b) && NotBefore(Current(a), Current(b))
  {
    assert a.history[|a.history| - 1] == b.history[|a.history| - 1];
  }

  lemma AckGrows(a: Store, b: Store, ack: Ack)
    requires Ext(a, b) && HistoryOk(b) && AckOk(a, ack)
    ensures AckOk(b, ack)
  {
    if ack.visible {
      CurrentOnlyAdvances(a, b);
    }
  }

  lemma ImportPcGrows(a: Store, b: Store, w: Writer)
    requires Ext(a, b) && Contiguous(a.slots) && Contiguous(b.slots)
    requires forall k :: k in a.manifests ==> GoodManifest(a, a.manifests[k])
    requires ImportPcOk(a, w)
    ensures ImportPcOk(b, w)
  {
    hide IsValidBatch, KnownExact, FilesOk, EntriesExact;
    match w.pc
    case ImportIndex(_, latest, keys, k, _) =>
      assert GoodManifest(a, a.manifests[latest.manifest]);
      IndexEntriesSame(a.indexes, b.indexes, keys[..k]);
    case ImportScan(_, _, known, slot) => KnownExactGrows(a.slots, b.slots, slot - 1, known);
    case _ =>
  }

  lemma StartPcGrows(a: Store, b: Store, pc: Pc)
    requires Ext(a, b) && StartPcOk(a, pc)
    ensures StartPcOk(b, pc)
  {
    hide Ascii, Decimal;
  }

  lemma WriterGrows(a: Store, b: Store, w: Writer)
    requires Ext(a, b) && Contiguous(a.slots) && Contiguous(b.slots)
    requires forall k :: k in a.manifests ==> GoodManifest(a, a.manifests[k])
    requires WriterInv(a, w)
    ensures WriterInv(b, w)
  {
    hide StartPcOk, ImportPcOk, GoodManifest;
    StartPcGrows(a, b, w.pc);
    ImportPcGrows(a, b, w);
  }

  // ------------------------------------------------------------ dedup

  lemma {:induction false} EmplaceMeaning(known: map<Id, Entry>, entries: seq<Entry>)
    ensures var r := Emplace(known, entries);
      && (forall id :: id in known ==> id in r && r[id] == known[id])
      && (forall e :: e in entries ==> e.id in r)
      && (forall id :: id in r && id !in known ==> r[id] in entries && r[id].id == id)
  {
    if entries != [] {
      EmplaceMeaning(known, entries[..|entries| - 1]);
    }
  }

  lemma KnownFromIndex(slots: map<nat, Wal>, n: nat, entries: seq<Entry>)
    requires EntriesExact(slots, n, entries)
    ensures KnownExact(slots, n, Emplace(map[], entries))
  {
    EmplaceMeaning(map[], entries);
    var r := Emplace(map[], entries);
    forall k, id | k in slots && k <= n && id in slots[k].ids
      ensures id in r
    {
      assert WalEntry(slots[k], id) in entries;
    }
  }

  lemma WalEntriesMeaning(w: Wal)
    ensures forall e :: e in WalEntries(w, w.ids) ==> e.id in w.ids && e == WalEntry(w, e.id)
    ensures forall id :: id in w.ids ==> WalEntry(w, id) in WalEntries(w, w.ids)
  {
    forall id | id in w.ids
      ensures WalEntry(w, id) in WalEntries(w, w.ids)
    {
      var i :| 0 <= i < |w.ids| && w.ids[i] == id;
      assert WalEntries(w, w.ids)[i] == WalEntry(w, id);
    }
  }

  lemma KnownNext(slots: map<nat, Wal>, n: nat, known: map<Id, Entry>)
    requires SlotsOk(slots) && KnownExact(slots, n, known) && n + 1 in slots
    ensures KnownExact(slots, n + 1, Emplace(known, WalEntries(slots[n + 1], slots[n + 1].ids)))
  {
    hide ExactlyOnce, WalOk, Contiguous, Emplace, WalEntries;
    var wal := slots[n + 1];
    WalEntriesMeaning(wal);
    EmplaceMeaning(known, WalEntries(wal, wal.ids));
    var r := Emplace(known, WalEntries(wal, wal.ids));
    forall k, id | k in slots && k <= n + 1 && id in slots[k].ids
      ensures id in r
    {
      if k == n + 1 {
        assert WalEntry(wal, id).id in r;
      }
    }
  }

  /** No known id among `ids`, or all known ones sit in one slot with the request's op and digest. */
  lemma {:induction false} CheckKnownMeaning(known: map<Id, Entry>, ids: seq<Id>, op: Id, digest: Digest)
    requires forall id :: id in known ==> 1 <= known[id].slot
    ensures var r := CheckKnown(known, ids, op, digest);
      r.Seen? ==>
        && r.already <= |ids|
        && (r.already == 0 ==> r.prior == 0 && forall id :: id in ids ==> id !in known)
        && (r.already != 0 ==> r.prior != 0)
        && (r.already == |ids| ==> forall id :: id in ids ==> id in known)
        && (forall id :: id in ids && id in known ==>
              known[id].slot == r.prior && known[id].op == op && known[id].digest == digest)
  {
    if ids != [] {
      CheckKnownMeaning(known, ids[..|ids| - 1], op, digest);
    }
  }

  lemma AllKnownIsStored(st: Store, n: nat, known: map<Id, Entry>, b: Batch)
    requires SlotsOk(st.slots) && KnownExact(st.slots, n, known) && b.ids != []
    requires var r := CheckKnown(known, b.ids, b.ids[0], Digest(b.ids, b.chunks)); r.Seen? && r.already == |b.ids|
    ensures Stored(st, b, CheckKnown(known, b.ids, b.ids[0], Digest(b.ids, b.chunks)).prior)
  {
    hide ExactlyOnce, Contiguous, Distinct;
    CheckKnownMeaning(known, b.ids, b.ids[0], Digest(b.ids, b.chunks));
    assert b.ids[0] in b.ids;
    assert EntrySound(st.slots, n, known[b.ids[0]]);
  }

  lemma NoneKnownIsNew(slots: map<nat, Wal>, n: nat, known: map<Id, Entry>, b: Batch, epoch: nat, slot: nat)
    requires KnownExact(slots, n, known) && b.ids != []
    requires CheckKnown(known, b.ids, b.ids[0], Digest(b.ids, b.chunks)) == Seen(0, 0)
    requires 2 <= slot <= n + 1 && slot - 1 in slots
    ensures ChecksPrefix(slots, AppendWal(b, epoch, slot))
  {
    CheckKnownMeaning(known, b.ids, b.ids[0], Digest(b.ids, b.chunks));
    forall k | k in slots && k < slot
      ensures Disjoint(slots[k].ids, b.ids)
    {
      forall i, j | 0 <= i < |slots[k].ids| && 0 <= j < |b.ids|
        ensures slots[k].ids[i] != b.ids[j]
      {
        assert slots[k].ids[i] in known;
        assert b.ids[j] in b.ids;
      }
    }
  }

  // ------------------------------------------------------------ steps

  ghost predicate OutOk(st: Store, out: Out) {
    && StoreInv(out.store) && Ext(st, out.store)
    && WriterInv(out.store, out.writer)
    && (out.ack.Some? ==> AckOk(out.store, out.ack.value))
  }

  lemma ExtReflexive(st: Store)
    ensures Ext(st, st)
  {
  }

  lemma SendKeeps(id: nat, st: Store, w: Writer, own: nat, op: Op, pc: Pc)
    requires StoreInv(st) && WriterInv(st, w) && OpOk(st, op)
    requires WriterInv(Issue(st, WriterId(id), own, op), w.(pc := pc))
    ensures OutOk(st, Out(Issue(st, WriterId(id), own, op), w.(pc := pc), None, false))
  {
    hide StoreInv, WriterInv, OpOk;
    IssueKeeps(st, WriterId(id), own, op);
  }

  /** A step that leaves the store alone. */
  lemma LocalKeeps(st: Store, w: Writer, ack: Option<Ack>, adopted: bool)
    requires StoreInv(st) && WriterInv(st, w)
    requires ack.Some? ==> AckOk(st, ack.value)
    ensures OutOk(st, Out(st, w, ack, adopted))
  {
    hide StoreInv, WriterInv;
    ExtReflexive(st);
  }

  lemma CurrentIsGood(st: Store)
    requires StoreInv(st) && HasCurrent(st)
    ensures Current(st) in st.history && GoodState(st, Current(st))
  {
    hide GoodManifest, RequestsOk, SlotsOk;
    assert Current(st) == st.history[|st.history| - 1];
  }

  lemma InHistoryIsGood(st: Store, s: State)
    requires StoreInv(st) && s in st.history
    ensures GoodState(st, s) && GoodManifest(st, st.manifests[s.manifest])
  {
    hide RequestsOk, SlotsOk;
  }

  lemma LandedIs(st: Store, rid: nat)
    requires StoreInv(st) && rid in st.landed
    ensures rid < |st.requests| && LandedOk(st, st.requests[rid].op)
  {
    hide GoodManifest, SlotsOk, HistoryOk;
  }

  lemma InitSendKeeps(id: nat, st: Store, w: Writer)
    requires StoreInv(st) && WriterInv(st, w) && (w.pc.InitManifest? || w.pc.InitCurrent?)
    ensures OutOk(st, StartGo(id, st, w).value)
  {
    hide StoreInv, OutOk, Ascii, GoodManifest;
    if w.pc.InitManifest? {
      InitialManifestIsGood(st);
      SendKeeps(id, st, w, w.own, PutManifest(INITIAL_KEY, INITIAL_MANIFEST), InitManifestWait(|st.requests|));
    } else {
      SendKeeps(id, st, w, w.own, PutCurrent(INITIAL_STATE), InitCurrentWait(|st.requests|));
    }
  }

  lemma AcquireKeeps(id: nat, st: Store, w: Writer)
    requires StoreInv(st) && WriterInv(st, w) && w.pc.Acquire? && StartGo(id, st, w).Some?
    ensures OutOk(st, StartGo(id, st, w).value)
  {
    hide StoreInv, OutOk, GoodManifest;
    var Acquire(seen, attempt) := w.pc;
    if attempt < w.maxAttempts && seen.epoch != MAX_U64 {
      var next := seen.(epoch := seen.epoch + 1, version := seen.version + 1);
      InHistoryIsGood(st, seen);
      SendKeeps(id, st, w, w.own, Cas(seen, next), AcquireWait(seen, next, attempt, |st.requests|));
    } else {
      LocalKeeps(st, StartGo(id, st, w).value.writer, None, false);
    }
  }

  lemma StartGoKeeps(id: nat, st: Store, w: Writer)
    requires StoreInv(st) && WriterInv(st, w) && StartGo(id, st, w).Some?
    ensures OutOk(st, StartGo(id, st, w).value)
  {
    hide StoreInv, OutOk, Ascii;
    if w.pc.InitManifest? || w.pc.InitCurrent? {
      InitSendKeeps(id, st, w);
    } else if w.pc.Acquire? {
      AcquireKeeps(id, st, w);
    } else {
      if HasCurrent(st) {
        CurrentIsGood(st);
      }
      LocalKeeps(st, StartGo(id, st, w).value.writer, None, false);
    }
  }

  lemma InitialManifestIsGood(st: Store)
    requires StoreInv(st)
    ensures GoodManifest(st, INITIAL_MANIFEST)
  {
    hide HistoryOk, RequestsOk, ExactlyOnce;
    assert FileRows(st.files, []) == LogRows(st.slots, 0);
    assert IndexEntries(st.indexes, []) == [];
  }

  lemma StartGotKeeps(st: Store, w: Writer, r: Reply)
    requires StoreInv(st) && WriterInv(st, w) && StartGot(st, w, r).Some?
    ensures OutOk(st, StartGot(st, w, r).value)
  {
    hide StoreInv, OutOk, Ascii, GoodManifest;
    var out := StartGot(st, w, r).value;
    match w.pc
    case InitManifestWait(rid) =>
      if r.Applied? {
        LandedIs(st, rid);
      }
      LocalKeeps(st, out.writer, None, false);
    case InitCurrentWait(rid) =>
      if r.Applied? {
        LandedIs(st, rid);
      }
      LocalKeeps(st, out.writer, None, false);
    case AcquireWait(seen, next, _, rid) =>
      if r.Applied? {
        LandedIs(st, rid);
        InHistoryIsGood(st, next);
        ContiguousOf(st);
      }
      LocalKeeps(st, out.writer, None, false);
    case _ => LocalKeeps(st, out.writer, None, false);
  }

  lemma ContiguousOf(st: Store)
    requires StoreInv(st)
    ensures SlotsOk(st.slots)
  {
  }

  lemma PlantKeeps(id: nat, st: Store, w: Writer)
    requires StoreInv(st) && WriterInv(st, w) && w.pc.PlantFence?
    ensures OutOk(st, ScanGo(id, st, w).value)
  {
    hide StoreInv, OutOk, ExactlyOnce, Decimal, Ascii, Contiguous;
    var PlantFence(acquired, slot) := w.pc;
    var fence := FenceWal(acquired.epoch, slot);
    assert WalOk(fence) && ChecksPrefix(st.slots, fence);
    SendKeeps(id, st, w, acquired.epoch, PutWal(fence), PlantWait(acquired, slot, |st.requests|));
  }

  lemma ScanGoKeeps(id: nat, st: Store, w: Writer)
    requires StoreInv(st) && WriterInv(st, w) && ScanGo(id, st, w).Some?
    ensures OutOk(st, ScanGo(id, st, w).value)
  {
    hide StoreInv, OutOk, ExactlyOnce, WalOk, Decimal, Ascii;
    if w.pc.PlantFence? {
      PlantKeeps(id, st, w);
    } else {
      ContiguousOf(st);
      if HasCurrent(st) {
        CurrentIsGood(st);
      }
      LocalKeeps(st, ScanGo(id, st, w).value.writer, None, false);
    }
  }

  lemma ScanGotKeeps(st: Store, w: Writer, r: Reply)
    requires StoreInv(st) && WriterInv(st, w) && ScanGot(st, w, r).Some?
    ensures OutOk(st, ScanGot(st, w, r).value)
  {
    hide StoreInv, OutOk;
    match w.pc
    case PlantWait(_, _, rid) =>
      if r.Applied? {
        LandedIs(st, rid);
      }
      LocalKeeps(st, ScanGot(st, w, r).value.writer, None, false);
  }

  /** The manifest that a pinned CURRENT names is there and matches it. */
  lemma ManifestMatches(st: Store, s: State)
    requires StoreInv(st) && s in st.history
    ensures s.manifest in st.manifests && st.manifests[s.manifest].covered == s.indexed
    ensures forall i :: 0 <= i < |st.manifests[s.manifest].indexKeys| ==>
              st.manifests[s.manifest].indexKeys[i] in st.indexes
  {
    hide StoreInv, FilesOk, EntriesExact;
    InHistoryIsGood(st, s);
  }

  lemma ImportIndexKeeps(st: Store, w: Writer)
    requires StoreInv(st) && WriterInv(st, w) && w.pc.ImportIndex? && ImportGo(st, w).Some?
    ensures OutOk(st, ImportGo(st, w).value)
  {
    hide StoreInv, OutOk, IsValidBatch, KnownExact, EntriesExact, FilesOk, Emplace;
    var ImportIndex(_, latest, keys, k, entries) := w.pc;
    ManifestMatches(st, latest);
    InHistoryIsGood(st, latest);
    if k < |keys| {
      assert keys[..k + 1][..k] == keys[..k];
    } else {
      assert keys[..k] == keys;
      KnownFromIndex(st.slots, latest.indexed, entries);
    }
    LocalKeeps(st, ImportGo(st, w).value.writer, None, false);
  }

  lemma ImportScanKeeps(st: Store, w: Writer)
    requires StoreInv(st) && WriterInv(st, w) && w.pc.ImportScan? && ImportGo(st, w).Some?
    ensures OutOk(st, ImportGo(st, w).value)
  {
    hide StoreInv, OutOk, IsValidBatch, KnownExact, Emplace, ExactlyOnce, WalOk;
    ContiguousOf(st);
    var ImportScan(_, _, known, slot) := w.pc;
    if slot in st.slots {
      KnownNext(st.slots, slot - 1, known);
    }
    LocalKeeps(st, ImportGo(st, w).value.writer, None, false);
  }

  lemma ImportGoKeeps(st: Store, w: Writer)
    requires StoreInv(st) && WriterInv(st, w) && ImportGo(st, w).Some?
    ensures OutOk(st, ImportGo(st, w).value)
  {
    hide StoreInv, OutOk, IsValidBatch, KnownExact, Emplace;
    match w.pc
    case ImportLoad(_) =>
      if HasCurrent(st) {
        CurrentIsGood(st);
      }
      LocalKeeps(st, ImportGo(st, w).value.writer, None, false);
    case ImportManifest(_, latest) =>
      ManifestMatches(st, latest);
      LocalKeeps(st, ImportGo(st, w).value.writer, None, false);
    case ImportIndex(_, _, _, _, _) => ImportIndexKeeps(st, w);
    case ImportScan(_, _, _, _) => ImportScanKeeps(st, w);
  }

  lemma AppendKeeps(id: nat, st: Store, w: Writer)
    requires StoreInv(st) && WriterInv(st, w) && w.pc.ImportScan? && w.pc.slot >= w.nextSlot
    requires var b := w.pc.batch; CheckKnown(w.pc.known, b.ids, b.ids[0], Digest(b.ids, b.chunks)) == Seen(0, 0)
    ensures var wal := AppendWal(w.pc.batch, w.current.value.epoch, w.nextSlot);
      OutOk(st, Send(st, id, w.own, PutWal(wal), w, ImportWait(w.pc.batch, wal, |st.requests|)).value)
  {
    hide StoreInv, OutOk, KnownExact, CheckKnown, ChecksPrefix;
    var b := w.pc.batch;
    var wal := AppendWal(b, w.current.value.epoch, w.nextSlot);
    NoneKnownIsNew(st.slots, w.pc.slot - 1, w.pc.known, b, w.current.value.epoch, w.nextSlot);
    assert WalOk(wal);
    SendKeeps(id, st, w, w.own, PutWal(wal), ImportWait(b, wal, |st.requests|));
  }

  lemma DecideKeeps(id: nat, st: Store, w: Writer)
    requires StoreInv(st) && WriterInv(st, w) && Decide(id, st, w).Some?
    ensures OutOk(st, Decide(id, st, w).value)
  {
    hide StoreInv, OutOk, KnownExact, CheckKnown, SlotsOk, IsValidBatch;
    var out := Decide(id, st, w).value;
    var ImportScan(b, latest, known, slot) := w.pc;
    ContiguousOf(st);
    match CheckKnown(known, b.ids, b.ids[0], Digest(b.ids, b.chunks))
    case Mismatch => LocalKeeps(st, out.writer, None, false);
    case Seen(already, prior) =>
      KnownSlots(st.slots, slot - 1, known);
      CheckKnownMeaning(known, b.ids, b.ids[0], Digest(b.ids, b.chunks));
      if already == |b.ids| {
        AllKnownIsStored(st, slot - 1, known, b);
        HistoryBelowCurrent(st, latest);
        LocalKeeps(st, out.writer, out.ack, false);
      } else if already != 0 || w.nextSlot == MAX_U64 {
        LocalKeeps(st, out.writer, None, false);
      } else {
        AppendKeeps(id, st, w);
      }
  }

  lemma KnownSlots(slots: map<nat, Wal>, n: nat, known: map<Id, Entry>)
    requires KnownExact(slots, n, known)
    ensures forall id :: id in known ==> 1 <= known[id].slot
  {
  }

  lemma HistoryBelowCurrent(st: Store, s: State)
    requires StoreInv(st) && s in st.history
    ensures HasCurrent(st) && NotBefore(s, Current(st))
  {
    hide GoodManifest, RequestsOk, SlotsOk;
    var i :| 0 <= i < |st.history| && st.history[i] == s;
    assert NotBefore(st.history[i], st.history[|st.history| - 1]);
  }

  lemma ImportDoneKeeps(st: Store, w: Writer, b: Batch, wal: Wal)
    requires StoreInv(st) && w.current.Some? && IsValidBatch(b, st.schema)
    requires wal == AppendWal(b, wal.epoch, w.nextSlot)
    requires w.nextSlot >= 1 && wal.slot in st.slots && st.slots[wal.slot] == wal
    ensures OutOk(st, ImportDone(st, w, b, wal).value)
  {
    hide StoreInv, OutOk;
    var out := ImportDone(st, w, b, wal).value;
    LocalKeeps(st, out.writer, out.ack, false);
  }

  lemma ImportGotKeeps(st: Store, w: Writer, r: Reply)
    requires StoreInv(st) && WriterInv(st, w) && ImportGot(st, w, r).Some?
    ensures OutOk(st, ImportGot(st, w, r).value)
  {
    hide StoreInv, OutOk, IsValidBatch;
    var ImportWait(b, wal, rid) := w.pc;
    if r.Applied? {
      LandedIs(st, rid);
      ImportDoneKeeps(st, w, b, wal);
    } else {
      LocalKeeps(st, ImportGot(st, w, r).value.writer, None, false);
    }
  }

  lemma ResolveKeeps(st: Store, w: Writer)
    requires StoreInv(st) && WriterInv(st, w) && Resolve(st, w).Some?
    ensures OutOk(st, Resolve(st, w).value)
  {
    hide StoreInv, OutOk, IsValidBatch;
    var ImportResolve(b, wal) := w.pc;
    if wal.slot in st.slots && st.slots[wal.slot] == wal {
      ImportDoneKeeps(st, w, b, wal);
    } else {
      LocalKeeps(st, Resolve(st, w).value.writer, None, false);
    }
  }

  lemma PublishGoKeeps(id: nat, st: Store, w: Writer)
    requires StoreInv(st) && WriterInv(st, w) && PublishGo(id, st, w).Some?
    ensures OutOk(st, PublishGo(id, st, w).value)
  {
    hide StoreInv, OutOk, GoodManifest, ExactlyOnce, WalOk;
    var out := PublishGo(id, st, w).value;
    var Publishing(b, slot, epoch, attempt) := w.pc;
    if attempt < w.maxAttempts && HasCurrent(st) && Current(st).published < slot && Current(st).epoch == epoch {
      var latest := Current(st);
      var next := latest.(published := slot, version := latest.version + 1);
      CurrentIsGood(st);
      ContiguousOf(st);
      SendKeeps(id, st, w, w.own, Cas(latest, next), PublishWait(b, slot, epoch, attempt, next, |st.requests|));
    } else {
      LocalKeeps(st, out.writer, out.ack, out.adopted);
    }
  }

  lemma PublishGotKeeps(st: Store, w: Writer, r: Reply)
    requires StoreInv(st) && WriterInv(st, w) && PublishGot(st, w, r).Some?
    ensures OutOk(st, PublishGot(st, w, r).value)
  {
    hide StoreInv, OutOk;
    var out := PublishGot(st, w, r).value;
    var PublishWait(_, _, _, _, next, rid) := w.pc;
    if r.Applied? {
      LandedIs(st, rid);
      HistoryBelowCurrent(st, next);
    }
    LocalKeeps(st, out.writer, out.ack, false);
  }

  lemma CallKeeps(st: Store, w: Writer, inp: Input)
    requires StoreInv(st) && WriterInv(st, w) && Call(st, w, inp).Some?
    ensures OutOk(st, Call(st, w, inp).value)
  {
    hide StoreInv, OutOk, IsValidBatch;
    LocalKeeps(st, Call(st, w, inp).value.writer, None, false);
  }

  lemma RaiseKeeps(st: Store, w: Writer)
    requires StoreInv(st) && WriterInv(st, w)
    ensures OutOk(st, Raise(st, w).value)
  {
    hide StoreInv, OutOk;
    LocalKeeps(st, Raise(st, w).value.writer, None, false);
  }

  /** Whatever a writer does next, the log and CURRENT stay sound and its answers are true. */
  lemma WriterKeeps(id: nat, st: Store, w: Writer, inp: Input)
    requires StoreInv(st) && WriterInv(st, w) && Next(id, st, w, inp).Some?
    ensures OutOk(st, Next(id, st, w, inp).value)
  {
    hide StoreInv, OutOk, WriterInv;
    hide StartGo, ScanGo, ImportGo, Decide, Resolve, PublishGo, StartGot, ScanGot, ImportGot, PublishGot, Call;
    match inp
    case CallStart => CallKeeps(st, w, inp);
    case CallImport(_) => CallKeeps(st, w, inp);
    case Throw => RaiseKeeps(st, w);
    case Go =>
      if StartGo(id, st, w).Some? { StartGoKeeps(id, st, w); }
      else if ScanGo(id, st, w).Some? { ScanGoKeeps(id, st, w); }
      else if ImportGo(st, w).Some? { ImportGoKeeps(st, w); }
      else if Decide(id, st, w).Some? { DecideKeeps(id, st, w); }
      else if Resolve(st, w).Some? { ResolveKeeps(st, w); }
      else { PublishGoKeeps(id, st, w); }
    case Got(r) =>
      if StartGot(st, w, r).Some? { StartGotKeeps(st, w, r); }
      else if ScanGot(st, w, r).Some? { ScanGotKeeps(st, w, r); }
      else if ImportGot(st, w, r).Some? { ImportGotKeeps(st, w, r); }
      else { PublishGotKeeps(st, w, r); }
  }
}
