/** Every snapshot a reader hands out is a prefix of the log, however its reads interleave. */
module ReaderSafety {
  import opened Table
  import opened Store
  import opened Invariant
  import opened Reader
  import W = Writer
  import WS = WriterSafety

  /** Every visible answer in `acked` is covered by the pinned CURRENT. */
  ghost predicate AckedOk(st: Store, cur: State, acked: set<W.Ack>) {
    forall a :: a in acked ==> WS.Stored(st, a.batch, a.slot) && (a.visible ==> a.slot <= cur.published)
  }

  /** `c` is a chunk of some entry of the log. */
  ghost predicate InLog(slots: map<nat, Wal>, c: Chunk) {
    exists k :: k in slots && c in slots[k].chunks
  }

  /** The part read so far is the log through `slot`: data files, then the chunks of the replayed WALs. */
  ghost predicate PartOk(st: Store, part: Snapshot, slot: nat) {
    && part.state in st.history
    && part.state.indexed <= slot <= |st.slots|
    && FilesOk(st, part.state.indexed, part.files)
    && LogRows(st.slots, slot) == LogRows(st.slots, part.state.indexed) + ConcatRows(part.chunks)
    && |part.walSlots| == slot - part.state.indexed
    && (forall i :: 0 <= i < |part.walSlots| ==> part.walSlots[i] == part.state.indexed + 1 + i)
    && (forall c :: c in part.chunks ==> InLog(st.slots, c))
    && AckedOk(st, part.state, part.acked)
  }

  ghost predicate SnapOk(st: Store, s: Snapshot) {
    && PartOk(st, s, s.state.published + s.probed)
    && s.probed <= s.limit && (s.limitReached <==> s.limit > 0 && s.probed == s.limit)
  }

  ghost predicate PcOk(st: Store, pc: Pc) {
    match pc
    case Idle => true
    case Load(_, attempt) => attempt == 0
    case LoadManifest(_, attempt, cur, acked) => attempt == 0 && cur in st.history && AckedOk(st, cur, acked)
    case Required(limit, attempt, part, slot) =>
      && attempt == 0 && PartOk(st, part, slot) && slot <= part.state.published
      && part.probed == 0 && part.limit == limit
    case Probing(limit, part, slot) =>
      PartOk(st, part, slot) && slot == part.state.published + part.probed && part.probed <= limit == part.limit
    case Failed => false
  }

  lemma PartGrows(a: Store, b: Store, part: Snapshot, slot: nat)
    requires Ext(a, b) && Contiguous(a.slots) && PartOk(a, part, slot)
    ensures PartOk(b, part, slot)
  {
    hide FilesOk;
    forall c | c in part.chunks
      ensures InLog(b.slots, c)
    {
      var k :| k in a.slots && c in a.slots[k].chunks;
      assert k in b.slots;
    }
    FilesOkGrows(a, b, part.state.indexed, part.files);
    LogRowsSame(a.slots, b.slots, slot);
    LogRowsSame(a.slots, b.slots, part.state.indexed);
  }

  lemma PcGrows(a: Store, b: Store, pc: Pc)
    requires Ext(a, b) && Contiguous(a.slots) && PcOk(a, pc)
    ensures PcOk(b, pc)
  {
    hide PartOk;
    match pc
    case Required(_, _, part, slot) => PartGrows(a, b, part, slot);
    case Probing(_, part, slot) => PartGrows(a, b, part, slot);
    case _ =>
  }

  lemma ReplayNext(st: Store, part: Snapshot, slot: nat)
    requires SlotsOk(st.slots) && PartOk(st, part, slot) && slot + 1 in st.slots
    ensures PartOk(st, Replay(part, st.slots[slot + 1]), slot + 1)
  {
    hide FilesOk, ExactlyOnce, WalOk, ConcatRows, AckedOk;
    var wal := st.slots[slot + 1];
    ConcatRowsAppend(part.chunks, wal.chunks);
    forall c | c in part.chunks + wal.chunks
      ensures InLog(st.slots, c)
    {
      assert c in wal.chunks ==> InLog(st.slots, c);
    }
  }

  lemma PinKeeps(st: Store, acks: set<W.Ack>, pc: Pc)
    requires StoreInv(st) && PcOk(st, pc) && (pc.Load? || pc.LoadManifest?)
    requires forall a :: a in acks ==> WS.AckOk(st, a)
    ensures Step(st, acks, pc).Some? && PcOk(st, Step(st, acks, pc).value.pc) && Step(st, acks, pc).value.done.None?
  {
    hide StoreInv, FilesOk, EntriesExact;
    if pc.Load? {
      if HasCurrent(st) {
        WS.CurrentIsGood(st);
      }
    } else {
      WS.InHistoryIsGood(st, pc.cur);
      assert ConcatRows([]) == [];
    }
  }

  lemma RequiredKeeps(st: Store, acks: set<W.Ack>, pc: Pc)
    requires StoreInv(st) && PcOk(st, pc) && pc.Required?
    ensures PcOk(st, Step(st, acks, pc).value.pc) && Step(st, acks, pc).value.done.None?
  {
    hide StoreInv, FilesOk, ExactlyOnce, WalOk, GoodManifest, LogRows, Replay;
    WS.ContiguousOf(st);
    WS.InHistoryIsGood(st, pc.part.state);
    if pc.slot < pc.part.state.published {
      ReplayNext(st, pc.part, pc.slot);
      ReplayHeader(pc.part, st.slots[pc.slot + 1]);
    }
  }

  lemma ReplayHeader(part: Snapshot, wal: Wal)
    ensures Replay(part, wal).state == part.state && Replay(part, wal).probed == part.probed
    ensures Replay(part, wal).limit == part.limit
  {
  }

  lemma ProbingKeeps(st: Store, acks: set<W.Ack>, pc: Pc)
    requires StoreInv(st) && PcOk(st, pc) && pc.Probing?
    ensures PcOk(st, Step(st, acks, pc).value.pc)
    ensures var done := Step(st, acks, pc).value.done; done.Some? ==> SnapOk(st, done.value)
  {
    hide StoreInv, FilesOk, ExactlyOnce, WalOk, LogRows, Replay;
    WS.ContiguousOf(st);
    if pc.slot + 1 in st.slots {
      ReplayNext(st, pc.part, pc.slot);
      ReplayHeader(pc.part, st.slots[pc.slot + 1]);
    }
  }

  lemma StepKeeps(st: Store, acks: set<W.Ack>, pc: Pc)
    requires StoreInv(st) && PcOk(st, pc) && Step(st, acks, pc).Some?
    requires forall a :: a in acks ==> WS.AckOk(st, a)
    ensures PcOk(st, Step(st, acks, pc).value.pc)
    ensures var done := Step(st, acks, pc).value.done; done.Some? ==> SnapOk(st, done.value)
  {
    hide StoreInv, PcOk, SnapOk, WS.AckOk;
    if pc.Load? || pc.LoadManifest? {
      PinKeeps(st, acks, pc);
    } else if pc.Required? {
      RequiredKeeps(st, acks, pc);
    } else {
      ProbingKeeps(st, acks, pc);
    }
  }

  lemma ReaderKeeps(st: Store, acks: set<W.Ack>, pc: Pc, inp: Input)
    requires StoreInv(st) && PcOk(st, pc) && Next(st, acks, pc, inp).Some?
    requires forall a :: a in acks ==> WS.AckOk(st, a)
    ensures PcOk(st, Next(st, acks, pc, inp).value.pc)
    ensures var done := Next(st, acks, pc, inp).value.done; done.Some? ==> SnapOk(st, done.value)
  {
    hide StoreInv, PartOk, SnapOk;
    if inp.Go? {
      StepKeeps(st, acks, pc);
    }
  }

  lemma SnapshotRows(st: Store, s: Snapshot)
    requires SnapOk(st, s)
    ensures ScanRows(st, s) == LogRows(st.slots, s.state.published + s.probed)
  {
  }
}
