/** Start and Import with nobody in the way: the whole outcome, for every good store and every batch. */
module WriterPass {
  import opened Table
  import opened Store
  import opened Writer
  import opened Invariant
  import opened BatchLookup
  import WS = WriterSafety
  import XS = IndexerSafety

  ghost predicate Going(st: Store, w: Writer) {
    StoreInv(st) && WS.WriterInv(st, w)
  }

  /** One step of the writer. */
  method Do(id: nat, st: Store, w: Writer, inp: Input) returns (out: Out)
    requires Going(st, w) && Next(id, st, w, inp).Some?
    ensures out == Next(id, st, w, inp).value && Going(out.store, out.writer)
  {
    hide StoreInv, WS.WriterInv, Next;
    WS.WriterKeeps(id, st, w, inp);
    out := Next(id, st, w, inp).value;
  }

  lemma ManifestsGood(st: Store)
    requires StoreInv(st)
    ensures Contiguous(st.slots) && forall k :: k in st.manifests ==> GoodManifest(st, st.manifests[k])
  {
  }

  /** The store takes the request at once. */
  method Take(st: Store, w: Writer, rid: nat) returns (r: Store)
    requires Going(st, w) && CanLand(st, rid)
    ensures r == Land(st, rid) && Going(r, w)
  {
    hide StoreInv, WS.WriterInv, Ext, CanLand, Land;
    LandKeeps(st, rid);
    r := Land(st, rid);
    ManifestsGood(st);
    ManifestsGood(r);
    hide Contiguous, GoodManifest;
    WS.WriterGrows(st, r, w);
  }

  lemma Unlanded(st: Store, rid: nat)
    requires StoreInv(st) && rid >= |st.requests|
    ensures rid !in st.landed
  {
  }

  lemma LogEnds(st: Store, n: nat)
    requires StoreInv(st)
    ensures n in st.slots <==> 1 <= n <= |st.slots|
  {
  }

  lemma NextNew(st: Store, wal: Wal)
    requires StoreInv(st) && wal.slot == |st.slots| + 1
    ensures wal.slot !in st.slots && |st.slots[wal.slot := wal]| == |st.slots| + 1
  {
    hide StoreInv;
    LogEnds(st, wal.slot);
    assert st.slots[wal.slot := wal].Keys == st.slots.Keys + {wal.slot};
    assert |st.slots.Keys| == |st.slots|;
    assert |st.slots[wal.slot := wal].Keys| == |st.slots[wal.slot := wal]|;
  }

  /** All of two stores but log, CURRENT and requests is the same. */
  ghost predicate SameObjects(a: Store, b: Store) {
    a.schema == b.schema && a.files == b.files && a.manifests == b.manifests && a.indexes == b.indexes
  }

  // ----------------------------------------------------------------- Start

  /** CURRENT after the next epoch has been acquired. */
  function Acquired(s: State): State {
    s.(epoch := s.epoch + 1, version := s.version + 1)
  }

  /** Send the swap that acquires the epoch after that of CURRENT. */
  method SendAcquire(id: nat, st: Store, w: Writer) returns (r: Store, y: Writer)
    requires Going(st, w) && HasCurrent(st) && Current(st).epoch != MAX_U64
    requires w.pc.Idle? && w.current.None? && w.maxAttempts > 0
    ensures Going(r, y) && r == Issue(st, WriterId(id), w.own, Cas(Current(st), Acquired(Current(st))))
    ensures y == w.(pc := AcquireWait(Current(st), Acquired(Current(st)), 0, |st.requests|))
  {
    hide Going;
    var out := Do(id, st, w, CallStart);
    out := Do(id, st, out.writer, Go);
    out := Do(id, st, out.writer, Go);
    r, y := out.store, out.writer;
  }

  /** The swap is taken at once. */
  method AcquireEpoch(id: nat, st: Store, w: Writer) returns (r: Store, y: Writer)
    requires Going(st, w) && HasCurrent(st) && Current(st).epoch != MAX_U64
    requires w.pc.Idle? && w.current.None? && w.maxAttempts > 0
    ensures Going(r, y) && SameObjects(st, r) && r.slots == st.slots
    ensures r.history == st.history + [Acquired(Current(st))]
    ensures y.pc == ScanCheck(Current(r), Current(r).indexed + 1) && y.maxAttempts == w.maxAttempts
  {
    hide Going;
    Fits(st, w);
    r, y := SendAcquire(id, st, w);
    r := Take(r, y, |st.requests|);
    var out := Do(id, r, y, Got(Applied));
    y := out.writer;
  }

  lemma IndexedWithin(st: Store)
    requires StoreInv(st) && HasCurrent(st)
    ensures Current(st).indexed <= Current(st).published <= |st.slots|
  {
  }

  /** Walk to the end of the log. */
  method FindEnd(id: nat, st: Store, w: Writer) returns (y: Writer)
    requires Going(st, w) && HasCurrent(st) && w.pc == ScanCheck(Current(st), Current(st).indexed + 1)
    ensures Going(st, y) && y.pc == PlantFence(Current(st), |st.slots| + 1) && y.maxAttempts == w.maxAttempts
  {
    hide StoreInv, WS.WriterInv;
    y := w;
    IndexedWithin(st);
    while true
      invariant Going(st, y) && y.pc.ScanCheck? && y.pc.acquired == Current(st) && y.maxAttempts == w.maxAttempts
      invariant Current(st).indexed < y.pc.slot <= |st.slots| + 1
      decreases |st.slots| + 1 - y.pc.slot
    {
      LogEnds(st, y.pc.slot);
      var out := Do(id, st, y, Go);
      out := Do(id, st, out.writer, Go);
      y := out.writer;
      if y.pc.PlantFence? {
        break;
      }
    }
  }

  /** Plant the fence behind the log. */
  method Plant(id: nat, st: Store, w: Writer) returns (r: Store, y: Writer)
    requires Going(st, w) && w.pc.PlantFence? && w.pc.slot == |st.slots| + 1
    ensures Going(r, y) && SameObjects(st, r) && r.history == st.history && y == w.(pc := y.pc)
    ensures r.slots == st.slots[w.pc.slot := FenceWal(w.pc.acquired.epoch, w.pc.slot)]
    ensures y.pc == PlantWait(w.pc.acquired, w.pc.slot, |st.requests|) && ReplyOk(r, y.pc.rid, Applied)
  {
    hide StoreInv, WS.WriterInv, Ascii, Decimal;
    Unlanded(st, |st.requests|);
    LogEnds(st, w.pc.slot);
    var out := Do(id, st, w, Go);
    y := out.writer;
    r := Take(out.store, y, |st.requests|);
  }

  /** Plant the fence and confirm the epoch. */
  method PlantAndConfirm(id: nat, st: Store, w: Writer) returns (r: Store, y: Writer)
    requires Going(st, w) && HasCurrent(st) && w.pc == PlantFence(Current(st), |st.slots| + 1)
    ensures Going(r, y) && SameObjects(st, r) && r.history == st.history && y.maxAttempts == w.maxAttempts
    ensures r.slots == st.slots[|st.slots| + 1 := FenceWal(Current(st).epoch, |st.slots| + 1)]
    ensures y.pc.Idle? && y.current == Some(Current(st)) && y.nextSlot == |st.slots| + 2
    ensures y.answer == StartAnswer(Started, Current(st).epoch)
    ensures y.own == Current(st).epoch && y.fenceSlot == |st.slots| + 1
  {
    hide Going, FenceWal, Ascii;
    r, y := Plant(id, st, w);
    var out := Do(id, r, y, Got(Applied));
    out := Do(id, r, out.writer, Go);
    y := out.writer;
  }

  /** Start has nothing to do for a started writer, and nothing it can do when epochs have run out. */
  method StartEnds(id: nat, st: Store, w: Writer) returns (y: Writer)
    requires Going(st, w) && HasCurrent(st) && w.pc.Idle? && w.maxAttempts > 0
    requires w.current.Some? || Current(st).epoch == MAX_U64
    ensures Going(st, y) && y == w.(answer := y.answer)
    ensures y.answer ==
      if w.current.Some? then StartAnswer(Started, w.current.value.epoch) else StartAnswer(InvalidTable, 0)
  {
    hide StoreInv, WS.WriterInv;
    var out := Do(id, st, w, CallStart);
    if !out.writer.pc.Idle? {
      out := Do(id, st, out.writer, Go);
      out := Do(id, st, out.writer, Go);
    }
    y := out.writer;
  }

  /**
   * A writer that is not started and meets nobody acquires the epoch after that of CURRENT, plants its fence right
   * behind the log, and answers Started with that epoch; its next slot is the one behind the fence. When there is no
   * further epoch it answers InvalidTable, and a writer that is started already names the epoch it has.
   */
  method Start(id: nat, st: Store, w: Writer) returns (r: Store, y: Writer)
    requires StoreInv(st) && WS.WriterInv(st, w) && HasCurrent(st) && w.pc.Idle? && w.maxAttempts > 0
    ensures StoreInv(r) && WS.WriterInv(r, y) && y.pc.Idle? && y.maxAttempts == w.maxAttempts && SameObjects(st, r)
    ensures y.answer ==
      if w.current.Some? then StartAnswer(Started, w.current.value.epoch)
      else if Current(st).epoch == MAX_U64 then StartAnswer(InvalidTable, 0)
      else StartAnswer(Started, Current(st).epoch + 1)
    ensures w.current.Some? || Current(st).epoch == MAX_U64 ==> r == st && y == w.(answer := y.answer)
    ensures w.current.None? && Current(st).epoch != MAX_U64 ==>
      && |r.slots| == |st.slots| + 1
      && r.slots == st.slots[|r.slots| := FenceWal(Current(st).epoch + 1, |r.slots|)]
      && r.history == st.history + [Acquired(Current(st))]
      && y.current == Some(Current(r)) && y.nextSlot == |r.slots| + 1
      && y.own == Current(st).epoch + 1 && y.fenceSlot == |r.slots|
  {
    hide StoreInv, WS.WriterInv, FenceWal;
    if w.current.Some? || Current(st).epoch == MAX_U64 {
      r := st;
      y := StartEnds(id, st, w);
    } else {
      r, y := AcquireEpoch(id, st, w);
      y := FindEnd(id, r, y);
      FenceFits(st, Current(r).epoch);
      r, y := PlantAndConfirm(id, r, y);
    }
  }

  lemma FenceFits(st: Store, epoch: nat)
    requires StoreInv(st)
    ensures |st.slots[|st.slots| + 1 := FenceWal(epoch, |st.slots| + 1)]| == |st.slots| + 1
  {
    hide StoreInv, Ascii, Decimal;
    NextNew(st, FenceWal(epoch, |st.slots| + 1));
  }

  // ---------------------------------------------------------------- Import

  /** The batch has the floor: its writer is started under the epoch of CURRENT and its next slot is the log's. */
  ghost predicate Ready(st: Store, w: Writer) {
    && Going(st, w) && HasCurrent(st) && w.maxAttempts > 0 && w.nextSlot == |st.slots| + 1
    && w.current.Some? && w.current.value.epoch == Current(st).epoch
  }

  lemma ManifestThere(st: Store)
    requires StoreInv(st) && HasCurrent(st)
    ensures var cur := Current(st); cur.manifest in st.manifests && st.manifests[cur.manifest].covered == cur.indexed
    ensures forall i :: 0 <= i < |st.manifests[Current(st).manifest].indexKeys| ==>
              st.manifests[Current(st).manifest].indexKeys[i] in st.indexes
  {
    hide StoreInv;
    WS.CurrentIsGood(st);
    WS.ManifestMatches(st, Current(st));
  }

  /** Read CURRENT and the dedup entries of its manifest. */
  method ReadIndex(id: nat, st: Store, w: Writer, b: Batch) returns (y: Writer)
    requires Ready(st, w) && w.pc.Idle? && IsValidBatch(b, st.schema)
    ensures Going(st, y) && y.pc.ImportScan? && y.pc.batch == b && y.pc.latest == Current(st)
    ensures y.pc.slot == Current(st).indexed + 1
    ensures y == w.(current := Some(Current(st)), pc := y.pc)
  {
    hide StoreInv, WS.WriterInv, IsValidBatch, Emplace;
    var out := Do(id, st, w, CallImport(b));
    out := Do(id, st, out.writer, Go);
    ManifestThere(st);
    out := Do(id, st, out.writer, Go);
    y := out.writer;
    ghost var keys := y.pc.keys;
    while y.pc.ImportIndex?
      invariant Going(st, y) && (y.pc.ImportIndex? || y.pc.ImportScan?) && y.pc.batch == b && y.pc.latest == Current(st)
      invariant y == w.(current := Some(Current(st)), pc := y.pc)
      invariant y.pc.ImportIndex? ==> y.pc.keys == keys && y.pc.k <= |keys|
      invariant y.pc.ImportScan? ==> y.pc.slot == Current(st).indexed + 1
      decreases if y.pc.ImportIndex? then |keys| - y.pc.k + 1 else 0
    {
      out := Do(id, st, y, Go);
      y := out.writer;
    }
  }

  /** Read the WALs that the index does not cover. */
  method ReadTail(id: nat, st: Store, w: Writer) returns (y: Writer)
    requires Going(st, w) && w.pc.ImportScan? && 0 < w.pc.slot <= w.nextSlot == |st.slots| + 1
    ensures Going(st, y) && y.pc.ImportScan? && y == w.(pc := y.pc)
    ensures y.pc == w.pc.(known := y.pc.known, slot := w.nextSlot)
  {
    hide StoreInv, WS.WriterInv, Emplace, WalEntries;
    y := w;
    while y.pc.slot < y.nextSlot
      invariant Going(st, y) && y.pc.ImportScan? && y == w.(pc := y.pc) && 0 < y.pc.slot <= y.nextSlot
      invariant y.pc == w.pc.(known := y.pc.known, slot := y.pc.slot)
      decreases y.nextSlot - y.pc.slot
    {
      LogEnds(st, y.pc.slot);
      var out := Do(id, st, y, Go);
      y := out.writer;
    }
  }

  lemma KnowsAll(st: Store, w: Writer)
    requires Going(st, w) && w.pc.ImportScan? && w.pc.slot == |st.slots| + 1
    ensures SlotsOk(st.slots) && KnownExact(st.slots, |st.slots|, w.pc.known) && IsValidBatch(w.pc.batch, st.schema)
  {
    hide KnownExact, SlotsOk, IsValidBatch;
  }

  lemma HasIds(b: Batch, schema: Schema)
    requires IsValidBatch(b, schema)
    ensures b.ids != []
  {
  }

  /** The batch is in the log as a whole. */
  ghost predicate InLog(st: Store, b: Batch) {
    exists k :: WS.Stored(st, b, k)
  }

  ghost predicate InConflict(st: Store, b: Batch) {
    Conflicts(st.slots, |st.slots|, b)
  }

  /** The batch clashes with another one, or is new and the numbers have run out. */
  ghost predicate Unfit(st: Store, b: Batch) {
    InConflict(st, b) || (!InLog(st, b) && |st.slots| + 1 == MAX_U64)
  }

  /** What the lookup says when the whole log has been read. */
  lemma LookedUp(st: Store, w: Writer)
    requires Going(st, w) && w.pc.ImportScan? && w.pc.slot == |st.slots| + 1
    ensures w.pc.batch.ids != []
    ensures var b := w.pc.batch;
      var d := CheckKnown(w.pc.known, b.ids, b.ids[0], Digest(b.ids, b.chunks));
      && (d.Mismatch? <==> InConflict(st, b))
      && (d.Seen? && InLog(st, b) ==> d.already == |b.ids| && WS.Stored(st, b, d.prior))
      && (d.Seen? && !InLog(st, b) ==> d == Seen(0, 0))
  {
    hide StoreInv, WS.WriterInv, CheckKnown, Conflicts, SlotsOk, KnownExact, IsValidBatch, WS.Stored, Disjoint;
    KnowsAll(st, w);
    var b := w.pc.batch;
    HasIds(b, st.schema);
    MismatchExactly(st.slots, |st.slots|, w.pc.known, b);
    if !InConflict(st, b) {
      SeenExactly(st, |st.slots|, w.pc.known, b);
      if k :| WS.Stored(st, b, k) {
        NotDisjoint(st, b, k);
      }
    }
  }

  lemma NotDisjoint(st: Store, b: Batch, k: nat)
    requires StoreInv(st) && WS.Stored(st, b, k) && b.ids != []
    ensures k in st.slots && k <= |st.slots| && !Disjoint(st.slots[k].ids, b.ids)
  {
    LogEnds(st, k);
    hide StoreInv;
    assert st.slots[k].ids[0] == b.ids[0];
  }

  /** CURRENT after `slot` has been published. */
  function Published(s: State, slot: nat): State {
    s.(published := slot, version := s.version + 1)
  }

  /** Send the swap that publishes the slot of a stored batch; the store takes it at once. */
  method SendPublish(id: nat, st: Store, w: Writer) returns (r: Store, y: Writer)
    requires Going(st, w) && HasCurrent(st) && w.pc.Publishing? && w.pc.attempt < w.maxAttempts
    requires w.pc.pubEpoch == Current(st).epoch && Current(st).published < w.pc.slot
    ensures Going(r, y) && SameObjects(st, r) && r.slots == st.slots
    ensures r.history == st.history + [Published(Current(st), w.pc.slot)]
    ensures y.pc.PublishWait? && y == w.(pc := y.pc) && y.pc.slot == w.pc.slot && y.pc.next == Current(r)
    ensures y.pc.rid < |r.requests| && y.pc.rid in r.landed
  {
    hide StoreInv, WS.WriterInv;
    var n := |st.requests|;
    Unlanded(st, n);
    var out := Do(id, st, w, Go);
    y := out.writer;
    r := Take(out.store, y, n);
  }

  method Publish(id: nat, st: Store, w: Writer) returns (r: Store, y: Writer)
    requires Going(st, w) && HasCurrent(st) && w.pc.Publishing? && w.pc.attempt < w.maxAttempts
    requires w.pc.pubEpoch == Current(st).epoch && Current(st).published < w.pc.slot
    ensures Going(r, y) && SameObjects(st, r) && r.slots == st.slots && y.pc.Idle?
    ensures r.history == st.history + [Published(Current(st), w.pc.slot)]
    ensures y == w.(pc := Idle, current := Some(Current(r)), answer := y.answer)
    ensures y.answer == ImportAnswer(Committed, Current(st).epoch, w.pc.slot, w.pc.slot)
  {
    hide Going;
    r, y := SendPublish(id, st, w);
    var out := Do(id, r, y, Got(Applied));
    y := out.writer;
  }

  /** The slot an Import of `b` ends with, when it ends well. */
  ghost predicate SlotOf(st: Store, b: Batch, slot: nat) {
    if InLog(st, b) then WS.Stored(st, b, slot) else slot == |st.slots| + 1
  }

  /** The log after an Import of `b` that ends well. */
  ghost function LogAfter(st: Store, b: Batch): map<nat, Wal>
    requires HasCurrent(st) && b.ids != []
  {
    if InLog(st, b) then st.slots
    else st.slots[|st.slots| + 1 := AppendWal(b, Current(st).epoch, |st.slots| + 1)]
  }

  function Code(st: Store, b: Batch, slot: nat): ImportCode
    requires HasCurrent(st)
  {
    if slot <= Current(st).published then AlreadyCommitted else if b.immediate then Committed else Durable
  }

  /** The whole log has been looked at, and nothing in it conflicts with the batch. */
  ghost predicate Looked(st: Store, w: Writer, b: Batch) {
    && Going(st, w) && HasCurrent(st) && w.maxAttempts > 0 && w.current == Some(Current(st))
    && w.pc.ImportScan? && w.pc.batch == b && w.pc.latest == Current(st) && w.pc.slot == w.nextSlot
    && w.nextSlot == |st.slots| + 1
  }

  /** A batch the log has is answered for, or published first. */
  lemma FoundStep(id: nat, st: Store, w: Writer, b: Batch)
    requires Looked(st, w, b) && !Unfit(st, b) && InLog(st, b)
    ensures Next(id, st, w, Go).Some?
    ensures var out := Next(id, st, w, Go).value;
      exists slot :: WS.Stored(st, b, slot) && out.store == st &&
        if Code(st, b, slot) == Committed then out.writer == w.(pc := Publishing(b, slot, Current(st).epoch, 0))
        else out.writer == w.(pc := Idle, answer := ImportResult(w, Code(st, b, slot), slot))
  {
    hide Going, CheckKnown, InConflict, InLog, WS.Stored;
    LookedUp(st, w);
  }

  /** A batch the log has not is sent to the slot behind it. */
  lemma NewStep(id: nat, st: Store, w: Writer, b: Batch)
    requires Looked(st, w, b) && !Unfit(st, b) && !InLog(st, b)
    ensures b.ids != [] && Next(id, st, w, Go).Some?
    ensures var wal := AppendWal(b, Current(st).epoch, |st.slots| + 1);
      && Next(id, st, w, Go).value.store == Issue(st, WriterId(id), w.own, PutWal(wal))
      && Next(id, st, w, Go).value.writer == w.(pc := ImportWait(b, wal, |st.requests|))
  {
    hide Going, CheckKnown, InConflict, InLog, WS.Stored;
    LookedUp(st, w);
  }

  lemma UnfitStep(id: nat, st: Store, w: Writer, b: Batch)
    requires Looked(st, w, b) && Unfit(st, b)
    ensures Next(id, st, w, Go).Some? && Next(id, st, w, Go).value.store == st
    ensures Next(id, st, w, Go).value.writer == w.(pc := Idle, answer := ImportResult(w, InvalidRequest, 0))
  {
    hide Going, CheckKnown, InConflict, InLog, WS.Stored;
    LookedUp(st, w);
  }

  /** The request of a new batch has been sent: the store takes it, and the writer counts its slot. */
  method Append(id: nat, st: Store, w: Writer, rid: nat, b: Batch, wal: Wal) returns (r: Store, y: Writer)
    requires Going(st, w) && w.pc == ImportWait(b, wal, rid) && rid < |st.requests| && rid !in st.landed
    requires st.requests[rid].op == PutWal(wal) && wal.slot == w.nextSlot == |st.slots| + 1
    ensures Going(r, y) && SameObjects(st, r) && r.history == st.history && r.slots == st.slots[wal.slot := wal]
    ensures |r.slots| == |st.slots| + 1
    ensures if b.immediate then y == w.(nextSlot := w.nextSlot + 1, pc := Publishing(b, wal.slot, wal.epoch, 0))
      else y == w.(nextSlot := w.nextSlot + 1, pc := Idle, answer := ImportResult(w, Durable, wal.slot))
  {
    hide StoreInv, WS.WriterInv;
    NextNew(st, wal);
    r := Take(st, w, rid);
    var out := Do(id, r, w, Got(Applied));
    y := out.writer;
  }

  lemma Fits(st: Store, w: Writer)
    requires Going(st, w)
    ensures |st.requests| !in st.landed && (HasCurrent(st) ==> Current(st).published <= |st.slots|)
  {
    Unlanded(st, |st.requests|);
    if HasCurrent(st) {
      IndexedWithin(st);
    }
  }

  /** What an Import of `b` from `st` leaves and answers; `slot` is where the batch is. */
  ghost predicate Imported(st: Store, b: Batch, r: Store, y: Writer)
    requires HasCurrent(st) && b.ids != []
  {
    && Ready(r, y) && y.pc.Idle? && SameObjects(st, r) && y.current == Some(Current(r))
    && y.answer.ImportAnswer? && y.answer.epoch == Current(r).epoch && y.answer.published == Current(r).published
    && if Unfit(st, b) then
         y.answer.code == InvalidRequest && y.answer.slot == 0 && r.slots == st.slots && r.history == st.history
       else
         && SlotOf(st, b, y.answer.slot) && y.answer.code == Code(st, b, y.answer.slot) && r.slots == LogAfter(st, b)
         && r.history ==
              st.history + if y.answer.code == Committed then [Published(Current(st), y.answer.slot)] else []
  }

  ghost predicate SameWriter(w: Writer, y: Writer) {
    y.maxAttempts == w.maxAttempts && y.own == w.own && y.fenceSlot == w.fenceSlot
  }

  /** A batch of the log that is to be published. */
  method ConcludeFound(id: nat, st: Store, w: Writer, b: Batch) returns (r: Store, y: Writer)
    requires Ready(st, w) && w.pc.Publishing? && w.pc.attempt == 0 && w.pc.pubEpoch == Current(st).epoch && b.ids != []
    requires !Unfit(st, b) && InLog(st, b) && WS.Stored(st, b, w.pc.slot) && Code(st, b, w.pc.slot) == Committed
    ensures Imported(st, b, r, y) && SameWriter(w, y)
  {
    hide Going, Unfit, InLog, WS.Stored;
    r, y := Publish(id, st, w);
  }

  /** A new batch that has been sent. */
  method ConcludeNew(id: nat, st: Store, w: Writer, sent: Store, x: Writer, b: Batch) returns (r: Store, y: Writer)
    requires Looked(st, w, b) && !Unfit(st, b) && !InLog(st, b) && b.ids != [] && Going(sent, x)
    requires var wal := AppendWal(b, Current(st).epoch, |st.slots| + 1);
      && sent == Issue(st, WriterId(id), w.own, PutWal(wal)) && x == w.(pc := ImportWait(b, wal, |st.requests|))
    ensures Imported(st, b, r, y) && SameWriter(w, y)
  {
    hide Going, Unfit, InLog, WS.Stored;
    Fits(st, w);
    r, y := Append(id, sent, x, |st.requests|, b, x.pc.wal);
    if y.pc.Publishing? {
      r, y := Publish(id, r, y);
    }
  }

  method Conclude(id: nat, st: Store, w: Writer, b: Batch) returns (r: Store, y: Writer)
    requires Looked(st, w, b) && b.ids != []
    ensures Imported(st, b, r, y) && SameWriter(w, y)
  {
    hide Going, Unfit, InLog, WS.Stored, Next, Imported;
    if Unfit(st, b) {
      UnfitStep(id, st, w, b);
    } else if InLog(st, b) {
      FoundStep(id, st, w, b);
    } else {
      NewStep(id, st, w, b);
    }
    var out := Do(id, st, w, Go);
    r, y := out.store, out.writer;
    if y.pc.ImportWait? {
      r, y := ConcludeNew(id, st, w, r, y, b);
    } else if y.pc.Publishing? {
      r, y := ConcludeFound(id, st, y, b);
    } else {
      Answered(st, w, b, y);
    }
  }

  predicate AnsweredFor(st: Store, w: Writer, b: Batch, y: Writer, slot: nat)
    requires HasCurrent(st)
  {
    Code(st, b, slot) != Committed && y == w.(pc := Idle, answer := ImportResult(w, Code(st, b, slot), slot))
  }

  /** Nothing is left to do but the answer. */
  lemma Answered(st: Store, w: Writer, b: Batch, y: Writer)
    requires Looked(st, w, b) && b.ids != [] && Going(st, y)
    requires
      || (Unfit(st, b) && y == w.(pc := Idle, answer := ImportResult(w, InvalidRequest, 0)))
      || (!Unfit(st, b) && InLog(st, b) && exists k :: WS.Stored(st, b, k) && AnsweredFor(st, w, b, y, k))
    ensures Imported(st, b, st, y) && SameWriter(w, y)
  {
    hide Going, Unfit, InLog, WS.Stored;
  }

  /**
   * A started writer that meets nobody decides every valid batch by the log alone. A batch that shares an id with
   * another one, or is new when no number is left, is refused; one that the log has is answered for in its own slot,
   * and published if it was to be and is not yet; any other is stored behind the log. The writer is ready for more.
   */
  method Import(id: nat, st: Store, w: Writer, b: Batch) returns (r: Store, y: Writer)
    requires Ready(st, w) && w.pc.Idle? && IsValidBatch(b, st.schema)
    ensures b.ids != [] && Imported(st, b, r, y)
    ensures SameWriter(w, y)
  {
    hide Going, IsValidBatch, Imported;
    HasIds(b, st.schema);
    y := ReadIndex(id, st, w, b);
    Fits(st, y);
    IndexBelow(st, y);
    y := ReadTail(id, st, y);
    r, y := Conclude(id, st, y, b);
  }

  lemma IndexBelow(st: Store, w: Writer)
    requires Going(st, w) && HasCurrent(st)
    ensures Current(st).indexed <= |st.slots|
  {
    IndexedWithin(st);
  }

  // --------------------------------------------------------------- retries

  lemma StoredAfter(st: Store, b: Batch, r: Store, y: Writer)
    requires HasCurrent(st) && b.ids != [] && Imported(st, b, r, y) && !Unfit(st, b)
    ensures WS.Stored(r, b, y.answer.slot)
  {
    hide Ready, Unfit, InLog;
  }

  /** A batch is in one slot, and nothing else clashes with it. */
  lemma OnlyThere(st: Store, b: Batch, slot: nat)
    requires SlotsOk(st.slots) && WS.Stored(st, b, slot) && b.ids != []
    ensures !InConflict(st, b)
    ensures forall k :: WS.Stored(st, b, k) ==> k == slot
  {
    hide Contiguous, WalOk;
    forall k | k in st.slots && !Disjoint(st.slots[k].ids, b.ids)
      ensures k == slot
    {
      var id := SharedId(st.slots[k], b);
      XS.IdInOneSlot(st.slots, k, slot, id);
    }
    forall k | WS.Stored(st, b, k)
      ensures k == slot
    {
      assert b.ids[0] in st.slots[k].ids && b.ids[0] in b.ids;
      SharesId(st.slots[k], b, b.ids[0]);
    }
  }

  /**
   An Import may be retried: whatever the log was, importing the same ids and rows once more leaves the log as it is
   and names the same slot, with AlreadyCommitted once that slot is published.
  */
  lemma RetryIsIdempotent(st: Store, b: Batch, mid: Store, x: Writer, c: Batch, r: Store, y: Writer)
    requires HasCurrent(st) && b.ids != [] && Imported(st, b, mid, x) && !Unfit(st, b)
    requires c.ids == b.ids && c.chunks == b.chunks && HasCurrent(mid) && Imported(mid, c, r, y)
    ensures r.slots == mid.slots && y.answer.slot == x.answer.slot
    ensures x.answer.code != Durable ==> y.answer.code == AlreadyCommitted && r.history == mid.history
    ensures x.answer.code == Durable ==> y.answer.code == (if c.immediate then Committed else Durable)
  {
    hide Ready, Unfit, InLog, WS.Stored;
    StoredAfter(st, b, mid, x);
    SameStored(mid, b, c, x.answer.slot);
    ReadySlots(mid, x);
    OnlyThere(mid, c, x.answer.slot);
    FitAfter(mid, c, x.answer.slot);
  }

  lemma SameStored(st: Store, b: Batch, c: Batch, slot: nat)
    requires WS.Stored(st, b, slot) && c.ids == b.ids && c.chunks == b.chunks
    ensures WS.Stored(st, c, slot)
  {
  }

  lemma ReadySlots(st: Store, w: Writer)
    requires Ready(st, w)
    ensures SlotsOk(st.slots) && HasCurrent(st)
  {
    hide SlotsOk, WS.WriterInv;
  }

  lemma FitAfter(st: Store, b: Batch, slot: nat)
    requires WS.Stored(st, b, slot) && !InConflict(st, b)
    ensures InLog(st, b) && !Unfit(st, b)
  {
    hide InConflict;
  }
}
