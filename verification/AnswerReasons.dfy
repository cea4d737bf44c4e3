/** Why a call ends as it does: what the log, CURRENT or a reply showed at the step that ended it. */
module AnswerReasons {
  import opened Table
  import opened Store
  import opened Writer
  import opened Invariant
  import opened Answers
  import opened Fencing
  import opened WriterFencing
  import opened ScanRounds
  import WS = WriterSafety

  /** A Start that went through the protocol: its epoch is the newest, acquired by itself, with its fence in the log. */
  ghost predicate Fresh(st: Store, v: Writer, e: nat) {
    && v.own == e == CurrentEpoch(st) && v.nextSlot == v.fenceSlot + 1
    && v.fenceSlot in st.slots && st.slots[v.fenceSlot].kind == Fence && st.slots[v.fenceSlot].epoch == e
  }

  /** The step `inp` of `w` in `st` has ended a Start with the answer of `v`. */
  ghost predicate StartReason(st: Store, w: Writer, inp: Input, v: Writer)
    requires v.answer.StartAnswer?
  {
    match v.answer.startCode
    case Started => w.current.None? ==> Fresh(st, v, v.answer.epoch)
    case Contended =>
      || (Scanning(w.pc) && w.pc.acquired.epoch < CurrentEpoch(st))
      || (w.pc.Acquire? && w.pc.attempt >= w.maxAttempts)
    case StartRetry =>
      || inp == Got(Unknown)
      || (w.pc.PlantResolve? &&
          (w.pc.slot !in st.slots || st.slots[w.pc.slot] != FenceWal(w.pc.acquired.epoch, w.pc.slot)))
    case InvalidTable =>
      w.pc.Acquire? && w.pc.attempt < w.maxAttempts && w.pc.seen in st.history && w.pc.seen.epoch == MAX_U64
  }

  /** The step of `w` in `st` has refused the Import of `b` with the answer of `v`. */
  ghost predicate RefusalReason(st: Store, w: Writer, v: Writer, b: Batch)
    requires v.answer.ImportAnswer?
  {
    var slot := v.answer.slot;
    match v.answer.code
    case NotStarted => w.current.None?
    case Fenced =>
      && w.current.Some?
      && (|| w.current.value.epoch < CurrentEpoch(st)
          || (w.nextSlot in st.slots && st.slots[w.nextSlot].epoch != w.current.value.epoch))
    case ImportRetry =>
      && w.current.Some?
      && (if slot == 0 then
            && b.ids != []
            && (w.nextSlot in st.slots ==>
                  && st.slots[w.nextSlot].epoch == w.current.value.epoch
                  && st.slots[w.nextSlot] != AppendWal(b, w.current.value.epoch, w.nextSlot))
          else
            && w.pc.Publishing?
            && (|| w.pc.attempt >= w.maxAttempts
                || (HasCurrent(st) && Current(st).published < slot && w.current.value.epoch < Current(st).epoch)))
    case _ => true
  }

  ghost predicate Reason(st: Store, w: Writer, inp: Input, v: Writer, last: Option<Batch>) {
    && (v.answer.StartAnswer? ==> StartReason(st, w, inp, v))
    && (v.answer.ImportAnswer? && last.Some? ==> RefusalReason(st, w, v, last.value))
  }

  lemma StartGoReason(id: nat, st: Store, acks: set<Ack>, w: Writer, last: Option<Batch>)
    requires StoreInv(st) && WS.WriterInv(st, w) && AnswerInv(st, acks, w, last) && StartGo(id, st, w).Some?
    requires StartGo(id, st, w).value.writer.pc.Idle?
    ensures Reason(st, w, Go, StartGo(id, st, w).value.writer, last)
  {
    hide StoreInv, Ascii, ImportTrue, IsValidBatch;
  }

  lemma StartGotReason(st: Store, w: Writer, r: Reply, last: Option<Batch>)
    requires StartGot(st, w, r).Some? && StartGot(st, w, r).value.writer.pc.Idle?
    ensures Reason(st, w, Got(r), StartGot(st, w, r).value.writer, last)
  {
  }

  lemma EpochStands(id: nat, st: Store, w: Writer)
    requires StoreFence(st) && WriterFence(id, st, w) && Scanning(w.pc)
    ensures HasCurrent(st) && 1 <= w.pc.acquired.epoch <= Current(st).epoch
  {
    hide StoreFence;
    OwnedIsPositive(id, st, w.pc.acquired.epoch);
  }

  lemma ScanGoReason(id: nat, st: Store, w: Writer, last: Option<Batch>)
    requires StoreFence(st) && WriterFence(id, st, w) && ScanGo(id, st, w).Some?
    requires ScanGo(id, st, w).value.writer.pc.Idle?
    ensures Reason(st, w, Go, ScanGo(id, st, w).value.writer, last)
  {
    hide StoreFence, Ascii, Decimal, FreshExcept;
    EpochStands(id, st, w);
  }

  /** A started writer has seen a CURRENT, and nothing it needs is ever missing. */
  lemma Standing(st: Store, acks: set<Ack>, w: Writer, last: Option<Batch>)
    requires StoreInv(st) && WS.WriterInv(st, w) && AnswerInv(st, acks, w, last)
    ensures w.current.Some? ==> HasCurrent(st) && w.current.value.epoch <= Current(st).epoch
    ensures PcTrue(w) && (BatchIn(w.pc).Some? ==> w.current.Some?)
    ensures w.pc.ImportScan? && w.pc.slot < w.nextSlot ==> w.pc.slot in st.slots
    ensures w.pc.Publishing? ==> w.pc.slot != 0
  {
    hide StoreInv, ImportTrue, KnownExact, IsValidBatch, ExactlyOnce, WalOk;
    WS.ContiguousOf(st);
    if w.current.Some? {
      WS.HistoryBelowCurrent(st, w.current.value);
    }
  }

  lemma ImportGoReason(st: Store, acks: set<Ack>, w: Writer, last: Option<Batch>)
    requires StoreInv(st) && WS.WriterInv(st, w) && AnswerInv(st, acks, w, last) && ImportGo(st, w).Some?
    requires ImportGo(st, w).value.writer.pc.Idle?
    ensures Reason(st, w, Go, ImportGo(st, w).value.writer, last)
  {
    hide StoreInv, WS.WriterInv, AnswerInv, Emplace;
    Standing(st, acks, w, last);
  }

  lemma ResolveReason(st: Store, acks: set<Ack>, w: Writer, last: Option<Batch>)
    requires WS.WriterInv(st, w) && AnswerInv(st, acks, w, last) && Resolve(st, w).Some?
    requires Resolve(st, w).value.writer.pc.Idle?
    ensures Reason(st, w, Go, Resolve(st, w).value.writer, last)
  {
    hide ImportTrue, IsValidBatch;
    IdsOf(w.pc.batch, st.schema);
  }

  lemma IdsOf(b: Batch, schema: Schema)
    ensures IsValidBatch(b, schema) ==> b.ids != []
  {
  }

  lemma PublishGoReason(id: nat, st: Store, acks: set<Ack>, w: Writer, last: Option<Batch>)
    requires StoreInv(st) && WS.WriterInv(st, w) && AnswerInv(st, acks, w, last) && PublishGo(id, st, w).Some?
    requires PublishGo(id, st, w).value.writer.pc.Idle?
    ensures Reason(st, w, Go, PublishGo(id, st, w).value.writer, last)
  {
    hide StoreInv, WS.WriterInv, AnswerInv;
    Standing(st, acks, w, last);
  }

  lemma CallReason(st: Store, acks: set<Ack>, w: Writer, inp: Input, last: Option<Batch>)
    requires AnswerInv(st, acks, w, last) && Call(st, w, inp).Some? && Call(st, w, inp).value.writer.pc.Idle?
    ensures Reason(st, w, inp, Call(st, w, inp).value.writer, if inp.CallImport? then Some(inp.batch) else last)
  {
    hide ImportTrue, IsValidBatch;
  }

  /** Every call that ends does so for the reason its code stands for. */
  lemma StepReason(id: nat, st: Store, acks: set<Ack>, w: Writer, inp: Input, last: Option<Batch>)
    requires StoreInv(st) && StoreFence(st) && WS.WriterInv(st, w) && WriterFence(id, st, w)
    requires AnswerInv(st, acks, w, last) && Next(id, st, w, inp).Some? && Next(id, st, w, inp).value.writer.pc.Idle?
    ensures Reason(st, w, inp, Next(id, st, w, inp).value.writer, if inp.CallImport? then Some(inp.batch) else last)
  {
    hide StoreInv, StoreFence, WriterFence, AnswerInv, WS.WriterInv, Reason;
    hide StartGo, ScanGo, ImportGo, Decide, Resolve, PublishGo, StartGot, ScanGot, ImportGot, PublishGot, Call;
    match inp
    case CallStart => CallReason(st, acks, w, inp, last);
    case CallImport(_) => CallReason(st, acks, w, inp, last);
    case Throw => NoReason(st, w, inp, Raise(st, w).value.writer, last);
    case Go =>
      if StartGo(id, st, w).Some? { StartGoReason(id, st, acks, w, last); }
      else if ScanGo(id, st, w).Some? { ScanGoReason(id, st, w, last); }
      else if ImportGo(st, w).Some? { ImportGoReason(st, acks, w, last); }
      else if Decide(id, st, w).Some? { DecideReason(id, st, w, last); }
      else if Resolve(st, w).Some? { ResolveReason(st, acks, w, last); }
      else { PublishGoReason(id, st, acks, w, last); }
    case Got(r) =>
      if StartGot(st, w, r).Some? { StartGotReason(st, w, r, last); }
      else if ScanGot(st, w, r).Some? { ScanGotGoesOn(st, w, r); }
      else if ImportGot(st, w, r).Some? { ImportGotReason(st, w, r, last); }
      else { PublishGotReason(st, w, r, last); }
  }

  lemma NoReason(st: Store, w: Writer, inp: Input, v: Writer, last: Option<Batch>)
    requires v.answer.NoAnswer?
    ensures Reason(st, w, inp, v, last)
  {
  }

  lemma ScanGotGoesOn(st: Store, w: Writer, r: Reply)
    requires ScanGot(st, w, r).Some?
    ensures !ScanGot(st, w, r).value.writer.pc.Idle?
  {
  }

  lemma DecideReason(id: nat, st: Store, w: Writer, last: Option<Batch>)
    requires Decide(id, st, w).Some? && Decide(id, st, w).value.writer.pc.Idle?
    ensures Reason(st, w, Go, Decide(id, st, w).value.writer, last)
  {
    hide CheckKnown;
  }

  lemma ImportGotReason(st: Store, w: Writer, r: Reply, last: Option<Batch>)
    requires ImportGot(st, w, r).Some? && ImportGot(st, w, r).value.writer.pc.Idle?
    ensures Reason(st, w, Got(r), ImportGot(st, w, r).value.writer, last)
  {
  }

  lemma PublishGotReason(st: Store, w: Writer, r: Reply, last: Option<Batch>)
    requires PublishGot(st, w, r).Some? && PublishGot(st, w, r).value.writer.pc.Idle?
    ensures Reason(st, w, Got(r), PublishGot(st, w, r).value.writer, last)
  {
  }
}
