/** What the caller of a writer is told: every code means what it says, after every step. */
module Answers {
  import opened Table
  import opened Store
  import opened Writer
  import opened Invariant
  import opened BatchLookup
  import WS = WriterSafety
  import Sys = System

  // ------------------------------------------------------- what answers mean

  predicate InStart(pc: Pc) {
    || pc.StartLoad? || pc.InitManifest? || pc.InitManifestWait? || pc.InitCheck? || pc.InitCurrent?
    || pc.InitCurrentWait? || pc.StartReload? || pc.Acquire? || pc.AcquireWait? || pc.AcquireReload? || pc.ScanCheck?
    || pc.ScanProbe? || pc.PlantFence? || pc.PlantWait? || pc.PlantResolve? || pc.Confirm?
  }

  function BatchIn(pc: Pc): Option<Batch> {
    if pc.Idle? || InStart(pc) then None else Some(pc.batch)
  }

  /** What a writer knows at each point of a call, besides what the store shows. */
  ghost predicate PcTrue(w: Writer) {
    match w.pc
    case Idle => true
    case ImportLoad(_) => w.current.Some?
    case ImportManifest(_, latest) => w.current == Some(latest)
    case ImportIndex(_, latest, _, _, _) => w.current == Some(latest)
    case ImportScan(_, latest, _, _) => w.current == Some(latest)
    case ImportWait(_, wal, _) => w.current.Some? && wal.epoch == w.current.value.epoch
    case ImportResolve(_, wal) => w.current.Some? && wal.epoch == w.current.value.epoch
    case Publishing(b, _, epoch, _) => b.immediate && w.current.Some? && epoch == w.current.value.epoch
    case PublishWait(b, slot, epoch, _, next, _) =>
      b.immediate && w.current.Some? && epoch == w.current.value.epoch == next.epoch && next.published == slot
    case _ => w.current.None?
  }

  /** The batch cannot be taken: it is malformed, one of its ids belongs to another batch, or numbers have run out. */
  ghost predicate Refused(st: Store, w: Writer, b: Batch) {
    !IsValidBatch(b, st.schema) || w.nextSlot == MAX_U64 || exists n :: Conflicts(st.slots, n, b)
  }

  /** What an Import of `b` was told, and what is recorded of it. */
  ghost predicate ImportTrue(st: Store, acks: set<Ack>, w: Writer, b: Batch)
    requires w.answer.ImportAnswer?
  {
    var ImportAnswer(code, epoch, published, slot) := w.answer;
    && (w.current.Some? ==> epoch == w.current.value.epoch && published == w.current.value.published)
    && (w.current.None? ==> epoch == 0 && published == 0 && !Positive(w.answer))
    && match code
       case Committed => b.immediate && WS.Stored(st, b, slot) && slot <= published && Ack(b, slot, true) in acks
       case AlreadyCommitted => WS.Stored(st, b, slot) && slot <= published && Ack(b, slot, true) in acks
       case Durable => !b.immediate && WS.Stored(st, b, slot) && Ack(b, slot, false) in acks
       case NotStarted => w.current.None? && slot == 0
       case Fenced => w.current.None? && slot == 0
       case InvalidRequest => slot == 0 && Refused(st, w, b)
       case ImportRetry => slot != 0 ==> b.immediate && WS.Stored(st, b, slot)
  }

  /** What a Start was told: its epoch is the one it writes under, and without an epoch it has not started. */
  ghost predicate StartTrue(w: Writer)
    requires w.answer.StartAnswer?
  {
    if w.answer.startCode == Started then w.current.Some? && w.current.value.epoch == w.answer.epoch
    else w.current.None? && w.answer.epoch == 0
  }

  /** `last` is the batch of the latest Import. */
  ghost predicate AnswerInv(st: Store, acks: set<Ack>, w: Writer, last: Option<Batch>) {
    && (w.current.Some? ==> w.current.value in st.history && w.own <= w.current.value.epoch)
    && PcTrue(w)
    && (BatchIn(w.pc).Some? ==> last == BatchIn(w.pc))
    && (w.answer.StartAnswer? ==> StartTrue(w))
    && (w.answer.ImportAnswer? && w.pc.Idle? ==> last.Some? && ImportTrue(st, acks, w, last.value))
  }

  predicate Positive(a: Answer) {
    a.ImportAnswer? && (a.code == Committed || a.code == AlreadyCommitted || a.code == Durable)
  }

  /** What a step adds to the record of answers: exactly the positive answer it gives. */
  function Recorded(w: Writer, last: Option<Batch>): Option<Ack> {
    if w.pc.Idle? && Positive(w.answer) && last.Some?
    then Some(Ack(last.value, w.answer.slot, w.answer.code != Durable)) else None
  }

  ghost predicate OutTrue(st: Store, acks: set<Ack>, out: Out, last: Option<Batch>) {
    AnswerInv(out.store, Sys.AddAck(acks, out.ack), out.writer, last) && out.ack == Recorded(out.writer, last)
  }

  // -------------------------------------------------------------- growth

  lemma StoredGrows(a: Store, b: Store, x: Batch, slot: nat)
    requires SubMap(a.slots, b.slots) && WS.Stored(a, x, slot)
    ensures WS.Stored(b, x, slot)
  {
  }

  lemma RefusedGrows(a: Store, b: Store, w: Writer, x: Batch)
    requires SubMap(a.slots, b.slots) && a.schema == b.schema && Refused(a, w, x)
    ensures Refused(b, w, x)
  {
    hide IsValidBatch, Conflict;
    if n :| Conflicts(a.slots, n, x) {
      var k :| k in a.slots && k <= n && Conflict(a.slots[k], x);
      assert Conflicts(b.slots, n, x);
    }
  }

  /** Answers stay true while the log grows and more is answered. */
  lemma AnswerGrows(a: Store, b: Store, acks: set<Ack>, more: set<Ack>, w: Writer, last: Option<Batch>)
    requires SubMap(a.slots, b.slots) && a.schema == b.schema && a.history <= b.history && acks <= more
    requires AnswerInv(a, acks, w, last)
    ensures AnswerInv(b, more, w, last)
  {
    hide Refused, PcTrue, StartTrue, BatchIn, SubMap;
    if w.answer.ImportAnswer? && w.pc.Idle? {
      if WS.Stored(a, last.value, w.answer.slot) {
        StoredGrows(a, b, last.value, w.answer.slot);
      }
      if Refused(a, w, last.value) {
        RefusedGrows(a, b, w, last.value);
      }
    }
  }

  // ----------------------------------------------------------------- steps

  lemma CallTrue(st: Store, acks: set<Ack>, w: Writer, inp: Input, last: Option<Batch>)
    requires AnswerInv(st, acks, w, last) && Call(st, w, inp).Some?
    ensures OutTrue(st, acks, Call(st, w, inp).value, if inp.CallImport? then Some(inp.batch) else last)
  {
    hide IsValidBatch, Conflicts;
  }

  lemma RaiseTrue(st: Store, acks: set<Ack>, w: Writer, last: Option<Batch>)
    requires AnswerInv(st, acks, w, last)
    ensures OutTrue(st, acks, Raise(st, w).value, last)
  {
  }

  lemma StartGoTrue(id: nat, st: Store, acks: set<Ack>, w: Writer, last: Option<Batch>)
    requires AnswerInv(st, acks, w, last) && StartGo(id, st, w).Some?
    ensures OutTrue(st, acks, StartGo(id, st, w).value, last)
  {
    hide Ascii, ImportTrue;
  }

  lemma StartGotTrue(st: Store, acks: set<Ack>, w: Writer, r: Reply, last: Option<Batch>)
    requires AnswerInv(st, acks, w, last) && StartGot(st, w, r).Some?
    ensures OutTrue(st, acks, StartGot(st, w, r).value, last)
  {
    hide ImportTrue;
  }

  lemma ScanGoTrue(id: nat, st: Store, acks: set<Ack>, w: Writer, last: Option<Batch>)
    requires StoreInv(st) && AnswerInv(st, acks, w, last) && ScanGo(id, st, w).Some?
    ensures OutTrue(st, acks, ScanGo(id, st, w).value, last)
  {
    hide StoreInv, ImportTrue, Ascii, Decimal;
  }

  lemma ScanGotTrue(st: Store, acks: set<Ack>, w: Writer, r: Reply, last: Option<Batch>)
    requires AnswerInv(st, acks, w, last) && ScanGot(st, w, r).Some?
    ensures OutTrue(st, acks, ScanGot(st, w, r).value, last)
  {
    hide ImportTrue;
  }

  lemma ImportGoTrue(st: Store, acks: set<Ack>, w: Writer, last: Option<Batch>)
    requires StoreInv(st) && AnswerInv(st, acks, w, last) && ImportGo(st, w).Some?
    ensures OutTrue(st, acks, ImportGo(st, w).value, last)
  {
    hide StoreInv, Emplace, IndexEntries, Refused;
  }

  lemma DecideTrue(id: nat, st: Store, acks: set<Ack>, w: Writer, last: Option<Batch>)
    requires StoreInv(st) && WS.WriterInv(st, w) && AnswerInv(st, acks, w, last) && Decide(id, st, w).Some?
    ensures OutTrue(st, acks, Decide(id, st, w).value, last)
  {
    hide StoreInv, KnownExact, CheckKnown, SlotsOk, IsValidBatch, Conflicts;
    var ImportScan(b, latest, known, slot) := w.pc;
    WS.ContiguousOf(st);
    MismatchExactly(st.slots, slot - 1, known, b);
    if !Conflicts(st.slots, slot - 1, b) {
      SeenExactly(st, slot - 1, known, b);
    }
  }

  lemma ImportDoneTrue(st: Store, acks: set<Ack>, w: Writer, b: Batch, wal: Wal)
    requires AnswerInv(st, acks, w, Some(b)) && w.current.Some? && WS.Stored(st, b, wal.slot)
    requires wal.epoch == w.current.value.epoch
    ensures OutTrue(st, acks, ImportDone(st, w, b, wal).value, Some(b))
  {
    hide Refused;
  }

  lemma ImportGotTrue(st: Store, acks: set<Ack>, w: Writer, r: Reply, last: Option<Batch>)
    requires StoreInv(st) && WS.WriterInv(st, w) && AnswerInv(st, acks, w, last) && ImportGot(st, w, r).Some?
    ensures OutTrue(st, acks, ImportGot(st, w, r).value, last)
  {
    hide StoreInv, IsValidBatch, ImportTrue;
    var ImportWait(b, wal, rid) := w.pc;
    if r.Applied? {
      WS.LandedIs(st, rid);
      hide AnswerInv, OutTrue;
      AnswerParts(st, acks, w, last);
      ImportDoneTrue(st, acks, w, b, wal);
    }
  }

  lemma AnswerParts(st: Store, acks: set<Ack>, w: Writer, last: Option<Batch>)
    requires AnswerInv(st, acks, w, last)
    ensures BatchIn(w.pc).Some? ==> last == BatchIn(w.pc)
    ensures PcTrue(w)
  {
  }

  lemma ResolveTrue(st: Store, acks: set<Ack>, w: Writer, last: Option<Batch>)
    requires StoreInv(st) && WS.WriterInv(st, w) && AnswerInv(st, acks, w, last) && Resolve(st, w).Some?
    ensures OutTrue(st, acks, Resolve(st, w).value, last)
  {
    hide StoreInv, IsValidBatch, Refused;
    var ImportResolve(b, wal) := w.pc;
    if wal.slot in st.slots && st.slots[wal.slot] == wal {
      hide AnswerInv, OutTrue;
      AnswerParts(st, acks, w, last);
      ImportDoneTrue(st, acks, w, b, wal);
    }
  }

  lemma PublishGoTrue(id: nat, st: Store, acks: set<Ack>, w: Writer, last: Option<Batch>)
    requires StoreInv(st) && WS.WriterInv(st, w) && AnswerInv(st, acks, w, last) && PublishGo(id, st, w).Some?
    ensures OutTrue(st, acks, PublishGo(id, st, w).value, last)
  {
    hide StoreInv, Refused, IsValidBatch;
    WS.HistoryBelowCurrent(st, w.current.value);
    WS.CurrentIsGood(st);
  }

  lemma PublishGotTrue(st: Store, acks: set<Ack>, w: Writer, r: Reply, last: Option<Batch>)
    requires StoreInv(st) && WS.WriterInv(st, w) && AnswerInv(st, acks, w, last) && PublishGot(st, w, r).Some?
    ensures OutTrue(st, acks, PublishGot(st, w, r).value, last)
  {
    hide StoreInv, Refused, IsValidBatch;
    if r.Applied? {
      WS.LandedIs(st, w.pc.rid);
    }
  }

  /** Whatever a writer does next, what it tells its caller is true and recorded. */
  lemma StepTrue(id: nat, st: Store, acks: set<Ack>, w: Writer, inp: Input, last: Option<Batch>)
    requires StoreInv(st) && WS.WriterInv(st, w) && AnswerInv(st, acks, w, last) && Next(id, st, w, inp).Some?
    ensures OutTrue(st, acks, Next(id, st, w, inp).value, if inp.CallImport? then Some(inp.batch) else last)
  {
    hide StoreInv, OutTrue, AnswerInv, WS.WriterInv;
    hide StartGo, ScanGo, ImportGo, Decide, Resolve, PublishGo, StartGot, ScanGot, ImportGot, PublishGot, Call;
    match inp
    case CallStart => CallTrue(st, acks, w, inp, last);
    case CallImport(_) => CallTrue(st, acks, w, inp, last);
    case Throw => RaiseTrue(st, acks, w, last);
    case Go =>
      if StartGo(id, st, w).Some? { StartGoTrue(id, st, acks, w, last); }
      else if ScanGo(id, st, w).Some? { ScanGoTrue(id, st, acks, w, last); }
      else if ImportGo(st, w).Some? { ImportGoTrue(st, acks, w, last); }
      else if Decide(id, st, w).Some? { DecideTrue(id, st, acks, w, last); }
      else if Resolve(st, w).Some? { ResolveTrue(st, acks, w, last); }
      else { PublishGoTrue(id, st, acks, w, last); }
    case Got(r) =>
      if StartGot(st, w, r).Some? { StartGotTrue(st, acks, w, r, last); }
      else if ScanGot(st, w, r).Some? { ScanGotTrue(st, acks, w, r, last); }
      else if ImportGot(st, w, r).Some? { ImportGotTrue(st, acks, w, r, last); }
      else { PublishGotTrue(st, acks, w, r, last); }
  }
}
