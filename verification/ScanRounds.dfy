/** How long Start can scan: the slots it passes are those of the old log, one late entry, and borrowed ones. */
module ScanRounds {
  import opened Table
  import opened Store
  import opened Writer
  import opened Invariant
  import opened Fencing
  import opened WriterFencing
  import WS = WriterSafety

  /** Start has an epoch and looks for the slot of its fence. */
  ghost predicate Scanning(pc: Pc) {
    pc.ScanCheck? || pc.ScanProbe? || pc.PlantFence? || pc.PlantWait? || pc.PlantResolve? || pc.Confirm?
  }

  /** The entries that carry epoch e although their creator had not acquired it. */
  ghost function BorrowedAs(st: Store, e: nat): set<nat> {
    set k | k in st.slots && Borrowed(st, k) && st.slots[k].epoch == e
  }

  lemma {:induction false} RangeFits(lo: nat, hi: nat, s: set<nat>)
    requires forall k: nat :: lo <= k <= hi ==> k in s
    ensures hi - lo + 1 <= |s|
    decreases hi
  {
    if lo <= hi && hi != 0 {
      assert |s - {hi}| == |s| - 1;
      RangeFits(lo, hi - 1, s - {hi});
    } else if lo <= hi {
      assert 0 in s;
    }
  }

  lemma SubsetFits(a: set<nat>, b: set<nat>)
    requires a <= b
    ensures |a| <= |b|
  {
    assert a + (b - a) == b && a * (b - a) == {};
  }

  lemma BorrowedGrow(a: Store, b: Store, e: nat)
    requires FenceExt(a, b)
    ensures |BorrowedAs(a, e)| <= |BorrowedAs(b, e)|
  {
    SubsetFits(BorrowedAs(a, e), BorrowedAs(b, e));
  }

  /** The last slot a scan under epoch e can come to. */
  ghost function ScanLimit(st: Store, e: nat): nat
    requires e in st.lenAt
  {
    st.lenAt[e] + 2 + |BorrowedAs(st, e)|
  }

  /** Rounds of the scan loop never outrun the slots passed, and the slots passed are bounded. */
  ghost predicate ScanBound(st: Store, w: Writer) {
    match w.pc
    case ScanCheck(acquired, slot) =>
      acquired.epoch in st.lenAt && w.rounds + acquired.indexed + 1 <= slot <= ScanLimit(st, acquired.epoch) + 1
    case ScanProbe(acquired, slot) => InScan(st, w, acquired, slot)
    case PlantFence(acquired, slot) => InScan(st, w, acquired, slot)
    case PlantWait(acquired, slot, _) => InScan(st, w, acquired, slot)
    case PlantResolve(acquired, slot, _) => InScan(st, w, acquired, slot)
    case Confirm(acquired, slot) => InScan(st, w, acquired, slot)
    case AcquireWait(_, next, _, rid) =>
      rid in st.landed ==> next.epoch in st.lenAt && next.indexed <= st.lenAt[next.epoch]
    case _ => true
  }

  ghost predicate InScan(st: Store, w: Writer, acquired: State, slot: nat) {
    acquired.epoch in st.lenAt && w.rounds + acquired.indexed <= slot <= ScanLimit(st, acquired.epoch)
  }

  lemma ScanBoundGrows(a: Store, b: Store, w: Writer)
    requires FenceExt(a, b) && ScanBound(a, w) && (w.pc.AcquireWait? ==> ScanBound(b, w))
    ensures ScanBound(b, w)
  {
    hide BorrowedAs, Ext;
    if Scanning(w.pc) {
      BorrowedGrow(a, b, w.pc.acquired.epoch);
    }
  }

  lemma LandKeepsScanBound(id: nat, a: Store, rid: nat, w: Writer)
    requires StoreInv(a) && CanLand(a, rid) && FenceExt(a, Land(a, rid)) && ScanBound(a, w) && WriterFence(id, a, w)
    ensures ScanBound(Land(a, rid), w)
  {
    hide StoreInv, Ext, WriterFence, Land, BorrowedAs, CanLand;
    if w.pc.AcquireWait? && w.pc.rid == rid {
      AcquireShape(id, a, w);
      AcquireLands(a, rid);
    } else {
      ScanBoundGrows(a, Land(a, rid), w);
    }
  }

  /** An epoch is installed over a log at least as long as the indexed prefix. */
  lemma AcquireLands(a: Store, rid: nat)
    requires StoreInv(a) && CanLand(a, rid) && IsBump(a.requests[rid].op)
    ensures var n := a.requests[rid].op.next;
      n.epoch in Land(a, rid).lenAt && n.indexed <= Land(a, rid).lenAt[n.epoch]
  {
    hide GoodManifest, SlotsOk, HistoryOk, ObjectsOk;
    assert OpOk(a, a.requests[rid].op);
  }

  lemma AcquireShape(id: nat, a: Store, w: Writer)
    requires w.pc.AcquireWait? && WriterFence(id, a, w)
    ensures w.pc.rid < |a.requests| && a.requests[w.pc.rid].op == Cas(w.pc.seen, w.pc.next)
    ensures w.pc.next.epoch == w.pc.seen.epoch + 1
  {
  }

  // ------------------------------------------------------------- scan bound

  /** While its holder has planted nothing, an entry that carries epoch e carries it borrowed. */
  lemma StampedIsBorrowed(st: Store, e: nat, k: nat)
    requires StoreFence(st) && FreshExcept(st, e, -1) && k in st.slots && st.slots[k].epoch == e
    ensures k in BorrowedAs(st, e)
  {
    hide EpochsOk, RequestOk;
    assert CreatorOk(st, k);
    assert DeadIfOf(st, st.creator[k], e);
  }

  /** While epoch e is current and its holder has planted nothing, all but one of the later entries borrow e. */
  lemma LogIsShort(st: Store, e: nat)
    requires SlotsOk(st.slots) && StoreFence(st)
    requires CurrentEpoch(st) == e && e in st.lenAt && FreshExcept(st, e, -1)
    ensures |st.slots| <= st.lenAt[e] + 1 + |BorrowedAs(st, e)|
  {
    hide StoreFence, FreshExcept, ExactlyOnce, WalOk, CurrentEpoch, BorrowedAs;
    var lo, n := st.lenAt[e] + 2, |st.slots|;
    if lo <= n {
      forall k: nat | lo <= k <= n
        ensures k in BorrowedAs(st, e)
      {
        assert k in st.slots;
        SlotEpochBound(st, k);
        AtMostOneLateEntry(st, e, k);
        StampedIsBorrowed(st, e, k);
      }
      RangeFits(lo, n, BorrowedAs(st, e));
    }
  }

  lemma ScanCheckBound(id: nat, st: Store, w: Writer)
    requires StoreInv(st) && StoreFence(st) && WriterFence(id, st, w) && WS.WriterInv(st, w)
    requires ScanBound(st, w) && w.pc.ScanCheck? && ScanGo(id, st, w).Some?
    ensures ScanBound(st, ScanGo(id, st, w).value.writer)
  {
    hide StoreInv, StoreFence, FreshExcept, ExactlyOnce, WalOk, ImportFence, FenceRun;
    var ScanCheck(acquired, slot) := w.pc;
    if HasCurrent(st) && Current(st).epoch == acquired.epoch {
      WS.ContiguousOf(st);
      WS.CurrentIsGood(st);
      LogIsShort(st, acquired.epoch);
    }
  }

  lemma OtherScanBound(id: nat, st: Store, w: Writer)
    requires ScanBound(st, w) && !w.pc.ScanCheck? && ScanGo(id, st, w).Some?
    requires FenceExt(st, ScanGo(id, st, w).value.store)
    ensures ScanBound(ScanGo(id, st, w).value.store, ScanGo(id, st, w).value.writer)
  {
    hide Ascii, Decimal, BorrowedAs;
    if w.pc.PlantFence? {
      BorrowedGrow(st, ScanGo(id, st, w).value.store, w.pc.acquired.epoch);
    }
  }

  lemma GotScanBound(id: nat, st: Store, w: Writer, r: Reply, out: Out)
    requires ScanBound(st, w)
    requires StartGot(st, w, r) == Some(out) || ScanGot(st, w, r) == Some(out) || ImportGot(st, w, r) == Some(out) ||
             PublishGot(st, w, r) == Some(out)
    ensures ScanBound(out.store, out.writer)
  {
  }

  lemma PlainScanBound(id: nat, st: Store, w: Writer, out: Out)
    requires StoreFence(st)
    requires StartGo(id, st, w) == Some(out) || ImportGo(st, w) == Some(out) || Resolve(st, w) == Some(out) ||
             PublishGo(id, st, w) == Some(out) || Decide(id, st, w) == Some(out)
    ensures ScanBound(out.store, out.writer)
  {
    hide CreatorsOk, RequestOk, Ascii, CheckKnown, Emplace, IndexEntries, BorrowedAs, InScan;
  }

  lemma StepScanBound(id: nat, st: Store, w: Writer, inp: Input)
    requires StoreInv(st) && StoreFence(st) && WriterFence(id, st, w) && WS.WriterInv(st, w)
    requires ScanBound(st, w) && Next(id, st, w, inp).Some? && FenceExt(st, Next(id, st, w, inp).value.store)
    ensures ScanBound(Next(id, st, w, inp).value.store, Next(id, st, w, inp).value.writer)
  {
    hide StoreInv, StoreFence, WriterFence, WS.WriterInv, FenceExt;
    var out := Next(id, st, w, inp).value;
    match inp
    case CallStart =>
    case CallImport(_) => hide IsValidBatch;
    case Throw =>
    case Go =>
      hide ScanBound, StartGo, ScanGo, ImportGo, Decide, Resolve, PublishGo;
      if StartGo(id, st, w).None? && ScanGo(id, st, w).Some? {
        ScanGoBound(id, st, w);
      } else {
        PlainScanBound(id, st, w, out);
      }
    case Got(r) =>
      hide ScanBound, StartGot, ScanGot, ImportGot, PublishGot;
      GotScanBound(id, st, w, r, out);
  }

  lemma ScanGoBound(id: nat, st: Store, w: Writer)
    requires StoreInv(st) && StoreFence(st) && WriterFence(id, st, w) && WS.WriterInv(st, w)
    requires ScanBound(st, w) && ScanGo(id, st, w).Some? && FenceExt(st, ScanGo(id, st, w).value.store)
    ensures ScanBound(ScanGo(id, st, w).value.store, ScanGo(id, st, w).value.writer)
  {
    hide StoreInv, StoreFence, WriterFence, WS.WriterInv, FenceExt, ScanBound;
    if w.pc.ScanCheck? {
      ScanCheckBound(id, st, w);
    } else {
      OtherScanBound(id, st, w);
    }
  }
}
