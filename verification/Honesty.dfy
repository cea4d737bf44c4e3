/** Writers that never adopt another writer's CURRENT stamp their own epoch. */
module Honesty {
  import opened Table
  import opened Store
  import opened Writer
  import opened Invariant
  import opened Fencing
  import opened WriterFencing

  /** Every create is stamped with the epoch its sender had acquired. */
  ghost predicate HonestStore(st: Store) {
    forall i :: 0 <= i < |st.requests| && st.requests[i].op.PutWal? ==>
      st.requests[i].op.wal.epoch == st.requests[i].own
  }

  ghost predicate HonestWriter(w: Writer) {
    && (w.current.Some? ==> w.current.value.epoch == w.own)
    && (match w.pc
        case ImportWait(_, wal, _) => wal.epoch == w.own
        case ImportResolve(_, wal) => wal.epoch == w.own
        case Publishing(_, _, epoch, _) => epoch == w.own
        case PublishWait(_, _, epoch, _, next, _) => epoch == w.own && next.epoch == w.own
        case _ => true)
  }

  ghost predicate OutHonest(out: Out) {
    HonestStore(out.store) && HonestWriter(out.writer)
  }

  lemma SendHonest(id: nat, st: Store, own: nat, op: Op, w: Writer, pc: Pc)
    requires HonestStore(st) && HonestWriter(w.(pc := pc)) && (op.PutWal? ==> op.wal.epoch == own)
    ensures OutHonest(Send(st, id, own, op, w, pc).value)
  {
  }

  lemma StartGoHonest(id: nat, st: Store, w: Writer)
    requires HonestStore(st) && HonestWriter(w) && StartGo(id, st, w).Some?
    ensures OutHonest(StartGo(id, st, w).value)
  {
    hide Ascii, HonestStore;
    match w.pc
    case InitManifest =>
      SendHonest(id, st, w.own, PutManifest(INITIAL_KEY, INITIAL_MANIFEST), w, InitManifestWait(|st.requests|));
    case InitCurrent => SendHonest(id, st, w.own, PutCurrent(INITIAL_STATE), w, InitCurrentWait(|st.requests|));
    case Acquire(seen, attempt) =>
      if attempt < w.maxAttempts && seen.epoch != MAX_U64 {
        var next := seen.(epoch := seen.epoch + 1, version := seen.version + 1);
        SendHonest(id, st, w.own, Cas(seen, next), w, AcquireWait(seen, next, attempt, |st.requests|));
      }
    case _ =>
  }

  lemma ScanGoHonest(id: nat, st: Store, w: Writer)
    requires HonestStore(st) && HonestWriter(w) && ScanGo(id, st, w).Some?
    ensures OutHonest(ScanGo(id, st, w).value)
  {
    hide Ascii, Decimal;
  }

  lemma ImportGoHonest(st: Store, w: Writer)
    requires HonestStore(st) && HonestWriter(w)
    ensures ImportGo(st, w).Some? ==> OutHonest(ImportGo(st, w).value)
    ensures Resolve(st, w).Some? ==> OutHonest(Resolve(st, w).value)
  {
    hide Emplace, IndexEntries;
  }

  lemma PublishGoHonest(id: nat, st: Store, w: Writer)
    requires HonestStore(st) && HonestWriter(w) && PublishGo(id, st, w).Some? && !PublishGo(id, st, w).value.adopted
    ensures OutHonest(PublishGo(id, st, w).value)
  {
  }

  lemma GoHonest(id: nat, st: Store, w: Writer)
    requires HonestStore(st) && HonestWriter(w) && WriterFence(id, st, w)
    requires Next(id, st, w, Go).Some? && !Next(id, st, w, Go).value.adopted
    ensures OutHonest(Next(id, st, w, Go).value)
  {
    hide OutHonest, HonestStore, HonestWriter, WriterFence, StartGo, ScanGo, ImportGo, Decide, Resolve, PublishGo;
    ImportGoHonest(st, w);
    if StartGo(id, st, w).Some? { StartGoHonest(id, st, w); }
    else if ScanGo(id, st, w).Some? { ScanGoHonest(id, st, w); }
    else if ImportGo(st, w).Some? { }
    else if Decide(id, st, w).Some? { DecideHonest(id, st, w); }
    else if Resolve(st, w).Some? { }
    else { PublishGoHonest(id, st, w); }
  }

  lemma DecideHonest(id: nat, st: Store, w: Writer)
    requires HonestStore(st) && HonestWriter(w) && WriterFence(id, st, w) && Decide(id, st, w).Some?
    ensures OutHonest(Decide(id, st, w).value)
  {
    hide FenceRun, StartFence, CheckKnown, Window;
  }

  lemma GotHonest(st: Store, w: Writer, r: Reply, out: Out)
    requires HonestStore(st) && HonestWriter(w)
    requires StartGot(st, w, r) == Some(out) || ScanGot(st, w, r) == Some(out) || ImportGot(st, w, r) == Some(out) ||
             PublishGot(st, w, r) == Some(out)
    ensures OutHonest(out)
  {
  }

  /** A look at CURRENT while publishing leaves the writer its own epoch exactly when the branch
   "already published" is not taken under another writer's epoch. */
  lemma KeepsOwnEpochExactly(id: nat, st: Store, w: Writer)
    requires w.pc.Publishing? && HonestWriter(w) && w.current.Some? && PublishGo(id, st, w).Some?
    requires w.pc.attempt < w.maxAttempts && HasCurrent(st)
    ensures HonestWriter(PublishGo(id, st, w).value.writer) <==>
            !(Current(st).published >= w.pc.slot && Current(st).epoch != w.own)
    ensures PublishGo(id, st, w).value.adopted <==> !HonestWriter(PublishGo(id, st, w).value.writer)
  {
  }

  lemma StepHonest(id: nat, st: Store, w: Writer, inp: Input)
    requires HonestStore(st) && HonestWriter(w) && WriterFence(id, st, w)
    requires Next(id, st, w, inp).Some? && !Next(id, st, w, inp).value.adopted
    ensures OutHonest(Next(id, st, w, inp).value)
  {
    var out := Next(id, st, w, inp).value;
    match inp
    case CallStart =>
    case CallImport(_) => hide IsValidBatch;
    case Throw =>
    case Go =>
      hide OutHonest, HonestStore, HonestWriter, WriterFence, StartGo, ScanGo, ImportGo, Decide, Resolve, PublishGo;
      GoHonest(id, st, w);
    case Got(r) =>
      hide HonestStore, HonestWriter, StartGot, ScanGot, ImportGot, PublishGot;
      GotHonest(st, w, r, out);
  }
}
