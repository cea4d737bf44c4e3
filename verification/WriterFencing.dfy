/** What a writer knows about its epoch, its fence and the slots it may still fill. */
module WriterFencing {
  import opened Table
  import opened Store
  import opened Writer
  import opened Invariant
  import opened Fencing
  import WS = WriterSafety

  ghost predicate Owns(id: nat, st: Store, e: nat) {
    e in st.owner && st.owner[e] == WriterId(id)
  }

  ghost predicate DeadIfOf(st: Store, i: nat, e: nat)
    requires i < |st.requests|
  {
    st.requests[i].op.PutWal? && st.requests[i].own == e ==>
      i !in st.landed && st.requests[i].op.wal.slot in st.slots
  }

  /** No create sent under epoch e has landed or can land any more, except perhaps request `x`. */
  ghost predicate FreshExcept(st: Store, e: nat, x: int) {
    forall i {:trigger DeadIfOf(st, i, e)} :: 0 <= i < |st.requests| && i != x ==> DeadIfOf(st, i, e)
  }

  ghost predicate NoneOf(st: Store, e: nat) {
    forall i :: 0 <= i < |st.requests| && st.requests[i].op.PutWal? ==> st.requests[i].own != e
  }

  ghost predicate AcquireFact(id: nat, st: Store, pc: Pc)
    requires pc.AcquireWait?
  {
    && pc.rid < |st.requests| && st.requests[pc.rid].from == WriterId(id)
    && st.requests[pc.rid].op == Cas(pc.seen, pc.next) && pc.next.epoch == pc.seen.epoch + 1
    && (pc.rid in st.landed ==> Owns(id, st, pc.next.epoch) && NoneOf(st, pc.next.epoch))
  }

  /** The epoch check has been passed: the slot below holds no newer epoch, and `slot` is in the window. */
  ghost predicate Checked(st: Store, e: nat, slot: nat) {
    && (slot == 1 || (slot - 1 in st.slots && st.slots[slot - 1].epoch <= e))
    && Window(st, e, slot)
  }

  ghost predicate FenceSent(st: Store, acquired: State, slot: nat, rid: nat) {
    && rid < |st.requests| && st.requests[rid].own == acquired.epoch
    && st.requests[rid].op == PutWal(FenceWal(acquired.epoch, slot))
  }

  ghost predicate StartFence(id: nat, st: Store, pc: Pc) {
    match pc
    case AcquireWait(_, _, _, _) => AcquireFact(id, st, pc)
    case ScanCheck(acquired, slot) => Owns(id, st, acquired.epoch) && FreshExcept(st, acquired.epoch, -1)
    case ScanProbe(acquired, slot) =>
      Owns(id, st, acquired.epoch) && FreshExcept(st, acquired.epoch, -1) && Checked(st, acquired.epoch, slot)
    case PlantFence(acquired, slot) =>
      Owns(id, st, acquired.epoch) && FreshExcept(st, acquired.epoch, -1) && Checked(st, acquired.epoch, slot)
    case PlantWait(acquired, slot, rid) =>
      Owns(id, st, acquired.epoch) && FreshExcept(st, acquired.epoch, rid) && FenceSent(st, acquired, slot, rid)
    case PlantResolve(acquired, slot, rid) =>
      Owns(id, st, acquired.epoch) && FreshExcept(st, acquired.epoch, rid) && FenceSent(st, acquired, slot, rid)
    case Confirm(acquired, slot) =>
      Owns(id, st, acquired.epoch) && slot in st.slots && st.slots[slot].kind == Fence
      && st.slots[slot].epoch == acquired.epoch
    case _ => true
  }

  ghost predicate ImportFence(st: Store, w: Writer) {
    match w.pc
    case ImportManifest(_, latest) =>
      w.current == Some(latest) && Window(st, latest.epoch, w.nextSlot)
    case ImportIndex(_, latest, _, _, _) =>
      w.current == Some(latest) && Window(st, latest.epoch, w.nextSlot)
    case ImportScan(_, latest, _, _) =>
      w.current == Some(latest) && Window(st, latest.epoch, w.nextSlot)
    case PublishWait(_, _, _, _, next, _) => 1 <= next.epoch
    case _ => true
  }

  ghost predicate WriterFence(id: nat, st: Store, w: Writer) {
    && (w.current.Some? ==>
          && Owns(id, st, w.own) && FenceRun(st.slots, w.own, w.fenceSlot, w.nextSlot)
          && 1 <= w.current.value.epoch <= CurrentEpoch(st))
    && StartFence(id, st, w.pc)
    && ImportFence(st, w)
  }

  // ------------------------------------------------ what others may change

  lemma CheckedGrows(a: Store, b: Store, e: nat, slot: nat)
    requires FenceExt(a, b) && Contiguous(a.slots) && Checked(a, e, slot)
    ensures Checked(b, e, slot)
  {
    hide Window;
    assert slot <= |a.slots| + 1;
    WindowGrows(a, b, e, slot);
  }

  lemma StartGrows(id: nat, a: Store, b: Store, pc: Pc)
    requires FenceExt(a, b) && Contiguous(a.slots) && StartFence(id, a, pc)
    requires forall e, x {:trigger FreshExcept(a, e, x)} :: Owns(id, a, e) && FreshExcept(a, e, x) ==>
      FreshExcept(b, e, x)
    requires pc.AcquireWait? ==> AcquireFact(id, b, pc)
    ensures StartFence(id, b, pc)
  {
    hide FreshExcept, Checked, Contiguous;
    match pc
    case ScanProbe(acquired, slot) => CheckedGrows(a, b, acquired.epoch, slot);
    case PlantFence(acquired, slot) => CheckedGrows(a, b, acquired.epoch, slot);
    case _ =>
  }

  lemma ImportGrows(a: Store, b: Store, w: Writer)
    requires FenceExt(a, b) && Contiguous(a.slots) && ImportFence(a, w) && WS.WriterInv(a, w)
    ensures ImportFence(b, w)
  {
    hide FenceExt, Window, KnownExact, IsValidBatch;
    if w.current.Some? {
      assert w.nextSlot <= |a.slots| + 1;
      if w.pc.ImportManifest? || w.pc.ImportIndex? || w.pc.ImportScan? {
        WindowGrows(a, b, w.pc.latest.epoch, w.nextSlot);
      }
    }
  }

  lemma WriterGrows(id: nat, a: Store, b: Store, w: Writer)
    requires FenceExt(a, b) && Contiguous(a.slots) && WriterFence(id, a, w) && WS.WriterInv(a, w)
    requires forall e, x {:trigger FreshExcept(a, e, x)} :: Owns(id, a, e) && FreshExcept(a, e, x) ==>
      FreshExcept(b, e, x)
    requires w.pc.AcquireWait? ==> AcquireFact(id, b, w.pc)
    ensures WriterFence(id, b, w)
  {
    hide FreshExcept, StartFence, ImportFence, AcquireFact, WS.WriterInv, Contiguous, Ext;
    StartGrows(id, a, b, w.pc);
    ImportGrows(a, b, w);
    if w.current.Some? {
      FenceRunGrows(a, b, w.own, w.fenceSlot, w.nextSlot);
    }
  }

  lemma FreshAfterIssue(a: Store, from: Actor, own: nat, op: Op, e: nat, x: int)
    requires FreshExcept(a, e, x) && (op.PutWal? ==> own != e || x == |a.requests|)
    ensures FreshExcept(Issue(a, from, own, op), e, x)
  {
    var b := Issue(a, from, own, op);
    forall i | 0 <= i < |b.requests| && i != x
      ensures DeadIfOf(b, i, e)
    {
      if i < |a.requests| {
        assert DeadIfOf(a, i, e);
      }
    }
  }

  lemma IssueKeepsWriter(id: nat, a: Store, from: Actor, own: nat, op: Op, w: Writer)
    requires FenceExt(a, Issue(a, from, own, op)) && Contiguous(a.slots)
    requires WriterFence(id, a, w) && WS.WriterInv(a, w)
    requires op.PutWal? ==> !Owns(id, a, own)
    ensures WriterFence(id, Issue(a, from, own, op), w)
  {
    var b := Issue(a, from, own, op);
    hide FenceExt, Contiguous, WS.WriterInv, ImportFence, FenceRun;
    forall e, x | Owns(id, a, e) && FreshExcept(a, e, x)
      ensures FreshExcept(b, e, x)
    {
      FreshAfterIssue(a, from, own, op, e, x);
    }
    WriterGrows(id, a, b, w);
  }

  lemma FreshAfterLand(a: Store, rid: nat, e: nat, x: int)
    requires CanLand(a, rid) && FreshExcept(a, e, x) && SubMap(a.slots, Land(a, rid).slots)
    ensures FreshExcept(Land(a, rid), e, x)
  {
    hide Land;
    var b := Land(a, rid);
    forall i | 0 <= i < |b.requests| && i != x
      ensures DeadIfOf(b, i, e)
    {
      assert DeadIfOf(a, i, e);
    }
  }

  lemma AcquireAfterLand(id: nat, a: Store, rid: nat, pc: Pc)
    requires StoreInv(a) && StoreFence(a) && CanLand(a, rid) && pc.AcquireWait? && AcquireFact(id, a, pc)
    requires FenceExt(a, Land(a, rid))
    ensures AcquireFact(id, Land(a, rid), pc)
  {
    hide Ext, GoodManifest, SlotsOk, HistoryOk, WalRequestOk, CreatorsOk;
    if pc.rid == rid {
      forall i | 0 <= i < |a.requests| && a.requests[i].op.PutWal?
        ensures a.requests[i].own != pc.next.epoch
      {
        assert RequestOk(a, i);
        OwnInOwner(a, i);
      }
    }
  }

  lemma OwnInOwner(a: Store, i: nat)
    requires StoreFence(a) && i < |a.requests| && a.requests[i].op.PutWal?
    ensures a.requests[i].own in a.owner && a.requests[i].own <= CurrentEpoch(a)
  {
    assert RequestOk(a, i);
  }

  lemma LandKeepsWriter(id: nat, a: Store, rid: nat, w: Writer)
    requires StoreInv(a) && StoreFence(a) && CanLand(a, rid) && FenceExt(a, Land(a, rid))
    requires WriterFence(id, a, w) && WS.WriterInv(a, w)
    ensures WriterFence(id, Land(a, rid), w)
  {
    var b := Land(a, rid);
    assert SubMap(a.slots, b.slots);
    WS.ContiguousOf(a);
    hide StoreInv, StoreFence, FenceExt, SlotsOk, WS.WriterInv, ImportFence, FenceRun, Land, CanLand, AcquireFact,
      SubMap;
    hide FreshExcept;
    SlotsContiguous(a.slots);
    if w.pc.AcquireWait? {
      AcquireAfterLand(id, a, rid, w.pc);
    }
    forall e, x | Owns(id, a, e) && FreshExcept(a, e, x)
      ensures FreshExcept(b, e, x)
    {
      FreshAfterLand(a, rid, e, x);
    }
    WriterGrows(id, a, b, w);
  }

  lemma SlotsContiguous(slots: map<nat, Wal>)
    requires SlotsOk(slots)
    ensures Contiguous(slots)
  {
  }

  lemma AddFileKeepsWriter(id: nat, a: Store, path: Key, rows: seq<Row>, w: Writer)
    requires FenceExt(a, AddFile(a, path, rows)) && Contiguous(a.slots)
    requires WriterFence(id, a, w) && WS.WriterInv(a, w)
    ensures WriterFence(id, AddFile(a, path, rows), w)
  {
    var b := AddFile(a, path, rows);
    hide FenceExt, Contiguous, WS.WriterInv, ImportFence, FenceRun;
    forall e, x | FreshExcept(a, e, x)
      ensures FreshExcept(b, e, x)
    {
      forall i | 0 <= i < |b.requests| && i != x
        ensures DeadIfOf(b, i, e)
      {
        assert DeadIfOf(a, i, e);
      }
    }
    WriterGrows(id, a, b, w);
  }

  // -------------------------------------------------------- a writer's step

  ghost predicate OutFence(id: nat, st: Store, out: Out) {
    StoreFence(out.store) && FenceExt(st, out.store) && WriterFence(id, out.store, out.writer)
  }

  lemma FenceExtReflexive(st: Store)
    ensures FenceExt(st, st)
  {
  }

  lemma LocalFence(id: nat, st: Store, w: Writer, ack: Option<Ack>, adopted: bool)
    requires StoreFence(st) && WriterFence(id, st, w)
    ensures OutFence(id, st, Out(st, w, ack, adopted))
  {
    hide StoreFence, WriterFence, FenceExt;
    FenceExtReflexive(st);
  }

  /** The part of WriterFence that does not look at the program counter. */
  lemma StandingGrows(id: nat, a: Store, b: Store, w: Writer)
    requires FenceExt(a, b) && WriterFence(id, a, w) && w.current.Some?
    ensures Owns(id, b, w.own) && FenceRun(b.slots, w.own, w.fenceSlot, w.nextSlot)
    ensures 1 <= w.current.value.epoch <= CurrentEpoch(b)
  {
    hide StartFence, ImportFence, Ext, FenceRun;
    FenceRunGrows(a, b, w.own, w.fenceSlot, w.nextSlot);
  }

  lemma SendFence(id: nat, st: Store, w: Writer, own: nat, op: Op, pc: Pc)
    requires StoreInv(st) && StoreFence(st) && WriterFence(id, st, w)
    requires op.PutWal? ==> WalRequestOk(st, own, op.wal) && op.wal.slot <= |st.slots| + 1
    requires StartFence(id, Issue(st, WriterId(id), own, op), pc)
    requires ImportFence(Issue(st, WriterId(id), own, op), w.(pc := pc))
    ensures OutFence(id, st, Send(st, id, own, op, w, pc).value)
  {
    hide StoreInv, StoreFence, FenceExt, StartFence, ImportFence, WalRequestOk;
    IssueFence(st, WriterId(id), own, op);
    if w.current.Some? {
      StandingGrows(id, st, Issue(st, WriterId(id), own, op), w);
    }
  }

  lemma AcquireFences(id: nat, st: Store, w: Writer)
    requires StoreInv(st) && StoreFence(st) && WriterFence(id, st, w) && w.pc.Acquire? && StartGo(id, st, w).Some?
    ensures OutFence(id, st, StartGo(id, st, w).value)
  {
    hide StoreInv, OutFence, CreatorsOk, RequestOk, FenceRun;
    var Acquire(seen, attempt) := w.pc;
    if attempt < w.maxAttempts && seen.epoch != MAX_U64 {
      var next := seen.(epoch := seen.epoch + 1, version := seen.version + 1);
      SendFence(id, st, w, w.own, Cas(seen, next), AcquireWait(seen, next, attempt, |st.requests|));
    } else {
      LocalFence(id, st, StartGo(id, st, w).value.writer, None, false);
    }
  }

  lemma StartGoFences(id: nat, st: Store, w: Writer)
    requires StoreInv(st) && StoreFence(st) && WriterFence(id, st, w) && StartGo(id, st, w).Some?
    ensures OutFence(id, st, StartGo(id, st, w).value)
  {
    hide StoreInv, StoreFence, OutFence, FenceRun, Ascii;
    var out := StartGo(id, st, w).value;
    match w.pc
    case Acquire(_, _) => AcquireFences(id, st, w);
    case InitManifest =>
      SendFence(id, st, w, w.own, PutManifest(INITIAL_KEY, INITIAL_MANIFEST), InitManifestWait(|st.requests|));
    case InitCurrent => SendFence(id, st, w, w.own, PutCurrent(INITIAL_STATE), InitCurrentWait(|st.requests|));
    case _ => LocalFence(id, st, out.writer, None, false);
  }

  lemma NoneIsFresh(st: Store, e: nat)
    requires NoneOf(st, e)
    ensures FreshExcept(st, e, -1)
  {
  }

  lemma StartGotFences(id: nat, st: Store, w: Writer, r: Reply)
    requires StoreFence(st) && WriterFence(id, st, w) && StartGot(st, w, r).Some?
    ensures OutFence(id, st, StartGot(st, w, r).value)
  {
    hide StoreFence, OutFence, FenceRun, NoneOf, FreshExcept;
    if w.pc.AcquireWait? && r.Applied? {
      NoneIsFresh(st, w.pc.next.epoch);
    }
    LocalFence(id, st, StartGot(st, w, r).value.writer, None, false);
  }

  lemma SlotEpochBound(st: Store, k: nat)
    requires StoreFence(st) && k in st.slots
    ensures 1 <= st.slots[k].epoch <= CurrentEpoch(st)
  {
    hide StoreFence;
    CreatedBy(st, k);
  }

  /** Passing the epoch check: no newer epoch exists at this moment. */
  lemma CheckPasses(st: Store, e: nat, slot: nat)
    requires StoreFence(st) && CurrentEpoch(st) == e && (slot == 1 || (1 < slot && slot - 1 in st.slots))
    ensures Checked(st, e, slot)
  {
    hide CreatorsOk, RequestOk, CurrentEpoch;
    if slot != 1 {
      SlotEpochBound(st, slot - 1);
    }
  }

  lemma WindowAtCurrent(st: Store, slot: nat)
    requires StoreFence(st)
    ensures Window(st, CurrentEpoch(st), slot)
  {
    hide CreatorsOk, RequestOk, CurrentEpoch;
  }

  lemma PriorIsForeign(st: Store, e: nat, slot: nat)
    requires StoreFence(st) && FreshExcept(st, e, -1) && Checked(st, e, slot)
    ensures FencePrior(st, e, slot)
  {
    hide EpochsOk, Window, RequestOk;
    if slot != 1 {
      assert CreatorOk(st, slot - 1);
      assert DeadIfOf(st, st.creator[slot - 1], e);
    }
  }

  lemma PlantFences(id: nat, st: Store, w: Writer)
    requires StoreInv(st) && StoreFence(st) && WriterFence(id, st, w) && w.pc.PlantFence? && ScanGo(id, st, w).Some?
    requires WS.WriterInv(st, w)
    ensures OutFence(id, st, ScanGo(id, st, w).value)
  {
    hide OutFence, CreatorsOk, RequestOk, FenceRun, Decimal, Ascii, FreshExcept, FencePrior, Window;
    hide GoodManifest, HistoryOk, RequestsOk, ExactlyOnce, WalOk;
    var PlantFence(acquired, slot) := w.pc;
    var e := acquired.epoch;
    PriorIsForeign(st, e, slot);
    assert WalRequestOk(st, e, FenceWal(e, slot));
    FreshMinus(st, e, |st.requests|);
    FreshAfterIssue(st, WriterId(id), e, PutWal(FenceWal(e, slot)), e, |st.requests|);
    SendFence(id, st, w, e, PutWal(FenceWal(e, slot)), PlantWait(acquired, slot, |st.requests|));
  }

  lemma FreshMinus(st: Store, e: nat, x: int)
    requires FreshExcept(st, e, -1)
    ensures FreshExcept(st, e, x)
  {
  }

  lemma ScanGoFences(id: nat, st: Store, w: Writer)
    requires StoreInv(st) && StoreFence(st) && WriterFence(id, st, w) && ScanGo(id, st, w).Some?
    requires WS.WriterInv(st, w)
    ensures OutFence(id, st, ScanGo(id, st, w).value)
  {
    hide StoreInv, StoreFence, OutFence, FreshExcept, Decimal, Ascii, Checked;
    var out := ScanGo(id, st, w).value;
    match w.pc
    case PlantFence(_, _) => PlantFences(id, st, w);
    case ScanCheck(acquired, slot) =>
      if HasCurrent(st) && Current(st).epoch == acquired.epoch {
        var from := if slot <= Current(st).indexed then Current(st).indexed + 1 else slot;
        IndexedIsThere(st);
        CheckPasses(st, acquired.epoch, from);
      }
      LocalFence(id, st, out.writer, None, false);
    case Confirm(acquired, slot) =>
      OwnedIsPositive(id, st, acquired.epoch);
      LocalFence(id, st, out.writer, None, false);
    case _ => LocalFence(id, st, out.writer, None, false);
  }

  lemma OwnedIsPositive(id: nat, st: Store, e: nat)
    requires StoreFence(st) && Owns(id, st, e)
    ensures 1 <= e <= CurrentEpoch(st)
  {
  }

  lemma IndexedIsThere(st: Store)
    requires StoreInv(st) && HasCurrent(st)
    ensures Current(st).indexed == 0 || Current(st).indexed in st.slots
  {
    hide StoreInv, ExactlyOnce, WalOk;
    WS.CurrentIsGood(st);
    WS.ContiguousOf(st);
  }

  lemma ScanGotFences(id: nat, st: Store, w: Writer, r: Reply)
    requires StoreInv(st) && StoreFence(st) && WriterFence(id, st, w) && ScanGot(st, w, r).Some?
    ensures OutFence(id, st, ScanGot(st, w, r).value)
  {
    hide StoreInv, StoreFence, OutFence, FenceRun, Decimal, Ascii;
    var PlantWait(acquired, slot, rid) := w.pc;
    if r.Applied? {
      WS.LandedIs(st, rid);
    } else if r.Rejected? {
      forall i | 0 <= i < |st.requests|
        ensures DeadIfOf(st, i, acquired.epoch)
      {
        if i != rid {
          assert DeadIfOf(st, i, acquired.epoch);
        }
      }
    }
    LocalFence(id, st, ScanGot(st, w, r).value.writer, None, false);
  }

  lemma ImportGoFences(id: nat, st: Store, w: Writer)
    requires StoreFence(st) && WriterFence(id, st, w) && ImportGo(st, w).Some?
    ensures OutFence(id, st, ImportGo(st, w).value)
  {
    hide StoreFence, OutFence, FenceRun, Emplace, IndexEntries;
    if w.pc.ImportLoad? && HasCurrent(st) {
      WindowAtCurrent(st, w.nextSlot);
    }
    LocalFence(id, st, ImportGo(st, w).value.writer, None, false);
  }

  lemma DecideFences(id: nat, st: Store, w: Writer)
    requires StoreInv(st) && StoreFence(st) && WriterFence(id, st, w) && Decide(id, st, w).Some?
    requires WS.WriterInv(st, w)
    ensures OutFence(id, st, Decide(id, st, w).value)
  {
    hide StoreInv, StoreFence, OutFence, FenceRun, CheckKnown, IsValidBatch, KnownExact, Window;
    var out := Decide(id, st, w).value;
    if out.writer.pc.ImportWait? {
      var wal := out.writer.pc.wal;
      assert wal == AppendWal(w.pc.batch, w.current.value.epoch, w.nextSlot);
      assert FenceRun(st.slots, w.own, w.fenceSlot, wal.slot);
      assert WalRequestOk(st, w.own, wal);
      NextSlotBound(st, w);
      SendFence(id, st, w, w.own, PutWal(wal), ImportWait(w.pc.batch, wal, |st.requests|));
    } else {
      LocalFence(id, st, out.writer, out.ack, false);
    }
  }

  lemma NextSlotBound(st: Store, w: Writer)
    requires StoreInv(st) && WS.WriterInv(st, w) && w.current.Some?
    ensures w.nextSlot <= |st.slots| + 1
  {
    hide GoodManifest, HistoryOk, RequestsOk, ExactlyOnce, WalOk, WS.StartPcOk, WS.ImportPcOk;
  }

  lemma ImportDoneFences(id: nat, st: Store, w: Writer, b: Batch, wal: Wal)
    requires StoreFence(st) && WriterFence(id, st, w) && w.current.Some?
    requires wal.slot == w.nextSlot && wal.kind == Append && wal.slot in st.slots && st.slots[wal.slot] == wal
    ensures OutFence(id, st, ImportDone(st, w, b, wal).value)
  {
    hide StoreFence, OutFence;
    LocalFence(id, st, ImportDone(st, w, b, wal).value.writer, ImportDone(st, w, b, wal).value.ack, false);
  }

  lemma ImportGotFences(id: nat, st: Store, w: Writer, r: Reply)
    requires StoreInv(st) && StoreFence(st) && WriterFence(id, st, w) && ImportGot(st, w, r).Some?
    requires WS.WriterInv(st, w)
    ensures OutFence(id, st, ImportGot(st, w, r).value)
  {
    hide StoreInv, StoreFence, OutFence, FenceRun, IsValidBatch;
    var ImportWait(b, wal, rid) := w.pc;
    if r.Applied? {
      WS.LandedIs(st, rid);
      ImportDoneFences(id, st, w, b, wal);
    } else {
      LocalFence(id, st, ImportGot(st, w, r).value.writer, None, false);
    }
  }

  lemma ResolveFences(id: nat, st: Store, w: Writer)
    requires StoreFence(st) && WriterFence(id, st, w) && Resolve(st, w).Some? && WS.WriterInv(st, w)
    ensures OutFence(id, st, Resolve(st, w).value)
  {
    hide StoreFence, OutFence, FenceRun, IsValidBatch;
    var ImportResolve(b, wal) := w.pc;
    if wal.slot in st.slots && st.slots[wal.slot] == wal {
      ImportDoneFences(id, st, w, b, wal);
    } else {
      LocalFence(id, st, Resolve(st, w).value.writer, None, false);
    }
  }

  lemma PublishGoFences(id: nat, st: Store, w: Writer)
    requires StoreInv(st) && StoreFence(st) && WriterFence(id, st, w) && PublishGo(id, st, w).Some?
    requires WS.WriterInv(st, w)
    ensures OutFence(id, st, PublishGo(id, st, w).value)
  {
    hide StoreInv, StoreFence, OutFence, FenceRun;
    var out := PublishGo(id, st, w).value;
    var Publishing(b, slot, epoch, attempt) := w.pc;
    if out.writer.pc.PublishWait? {
      var latest := Current(st);
      var next := latest.(published := slot, version := latest.version + 1);
      SendFence(id, st, w, w.own, Cas(latest, next), PublishWait(b, slot, epoch, attempt, next, |st.requests|));
    } else {
      LocalFence(id, st, out.writer, out.ack, out.adopted);
    }
  }

  lemma PublishGotFences(id: nat, st: Store, w: Writer, r: Reply)
    requires StoreInv(st) && StoreFence(st) && WriterFence(id, st, w) && PublishGot(st, w, r).Some?
    requires WS.WriterInv(st, w)
    ensures OutFence(id, st, PublishGot(st, w, r).value)
  {
    hide StoreInv, StoreFence, OutFence, FenceRun;
    var out := PublishGot(st, w, r).value;
    if r.Applied? {
      WS.LandedIs(st, w.pc.rid);
      WS.HistoryBelowCurrent(st, w.pc.next);
    }
    LocalFence(id, st, out.writer, out.ack, false);
  }

  lemma CallFences(id: nat, st: Store, w: Writer, inp: Input)
    requires StoreFence(st) && WriterFence(id, st, w)
    requires Call(st, w, inp).Some? || inp.Throw?
    ensures OutFence(id, st, if inp.Throw? then Raise(st, w).value else Call(st, w, inp).value)
  {
    hide StoreFence, OutFence, FenceRun, IsValidBatch;
    LocalFence(id, st, (if inp.Throw? then Raise(st, w).value else Call(st, w, inp).value).writer, None, false);
  }

  /** Every step of a writer keeps what fencing rests on. */
  lemma WriterStepFences(id: nat, st: Store, w: Writer, inp: Input)
    requires StoreInv(st) && StoreFence(st) && WriterFence(id, st, w) && WS.WriterInv(st, w)
    requires Next(id, st, w, inp).Some?
    ensures OutFence(id, st, Next(id, st, w, inp).value)
  {
    hide StoreInv, StoreFence, OutFence, WriterFence, WS.WriterInv;
    hide StartGo, ScanGo, ImportGo, Decide, Resolve, PublishGo, StartGot, ScanGot, ImportGot, PublishGot, Call;
    match inp
    case CallStart => CallFences(id, st, w, inp);
    case CallImport(_) => CallFences(id, st, w, inp);
    case Throw => CallFences(id, st, w, inp);
    case Go =>
      if StartGo(id, st, w).Some? { StartGoFences(id, st, w); }
      else if ScanGo(id, st, w).Some? { ScanGoFences(id, st, w); }
      else if ImportGo(st, w).Some? { ImportGoFences(id, st, w); }
      else if Decide(id, st, w).Some? { DecideFences(id, st, w); }
      else if Resolve(st, w).Some? { ResolveFences(id, st, w); }
      else { PublishGoFences(id, st, w); }
    case Got(r) =>
      if StartGot(st, w, r).Some? { StartGotFences(id, st, w, r); }
      else if ScanGot(st, w, r).Some? { ScanGotFences(id, st, w, r); }
      else if ImportGot(st, w, r).Some? { ImportGotFences(id, st, w, r); }
      else { PublishGotFences(id, st, w, r); }
  }
}
