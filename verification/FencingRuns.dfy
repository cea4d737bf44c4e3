/** Fencing over whole runs: when the log's epochs are in order, and how long a Start can scan. */
module FencingRuns {
  import opened Table
  import opened Store
  import opened Invariant
  import opened Fencing
  import opened WriterFencing
  import opened Honesty
  import opened ScanRounds
  import opened System
  import W = Writer
  import X = Indexer
  import WS = WriterSafety
  import SS = SystemSafety

  ghost predicate FenceInv(s: System) {
    && StoreFence(s.store)
    && (forall id :: id in s.writers ==> WriterFence(id, s.store, s.writers[id]) && ScanBound(s.store, s.writers[id]))
  }

  ghost predicate HonestInv(s: System) {
    && HonestStore(s.store)
    && (forall id :: id in s.writers ==> HonestWriter(s.writers[id]))
  }

  ghost predicate Both(s: System) {
    SS.Inv(s) && FenceInv(s) && (!s.adopted ==> HonestInv(s))
  }

  // ------------------------------------------ how one step changes the store

  /** A writer's step leaves the store alone or sends one request, a create only under its own epoch. */
  ghost predicate WriterEffect(id: nat, a: Store, b: Store) {
    || b == a
    || (exists own: nat, op :: b == Issue(a, WriterId(id), own, op) && (op.PutWal? ==> Owns(id, a, own)))
  }

  lemma SendEffect(id: nat, a: Store, own: nat, op: Op)
    requires op.PutWal? ==> Owns(id, a, own)
    ensures WriterEffect(id, a, Issue(a, WriterId(id), own, op))
  {
  }

  lemma WriterGoEffect(id: nat, st: Store, w: W.Writer)
    requires WriterFence(id, st, w) && W.Next(id, st, w, W.Go).Some?
    ensures WriterEffect(id, st, W.Next(id, st, w, W.Go).value.store)
  {
    hide FenceRun, FreshExcept, Window, Checked, NoneOf, WriterEffect, Issue, Ascii, W.Decimal, W.CheckKnown,
      W.Emplace;
    var b := W.Next(id, st, w, W.Go).value.store;
    match w.pc
    case InitManifest => SendEffect(id, st, w.own, PutManifest(INITIAL_KEY, INITIAL_MANIFEST));
    case InitCurrent => SendEffect(id, st, w.own, PutCurrent(INITIAL_STATE));
    case Acquire(seen, _) =>
      SendEffect(id, st, w.own, Cas(seen, seen.(epoch := seen.epoch + 1, version := seen.version + 1)));
      SameEffect(id, st);
    case PlantFence(acquired, slot) => SendEffect(id, st, acquired.epoch, PutWal(W.FenceWal(acquired.epoch, slot)));
    case ImportScan(batch, _, _, _) =>
      if w.current.Some? && batch.ids != [] {
        SendEffect(id, st, w.own, PutWal(W.AppendWal(batch, w.current.value.epoch, w.nextSlot)));
      }
      SameEffect(id, st);
    case Publishing(_, slot, _, _) =>
      if HasCurrent(st) {
        var latest := Current(st);
        SendEffect(id, st, w.own, Cas(latest, latest.(published := slot, version := latest.version + 1)));
      }
      SameEffect(id, st);
    case _ => SameEffect(id, st);
  }

  lemma SameEffect(id: nat, st: Store)
    ensures WriterEffect(id, st, st)
  {
  }

  lemma WriterStepEffect(id: nat, st: Store, w: W.Writer, inp: W.Input)
    requires WriterFence(id, st, w) && W.Next(id, st, w, inp).Some?
    ensures WriterEffect(id, st, W.Next(id, st, w, inp).value.store)
  {
    hide WriterEffect, WriterFence, W.IsValidBatch;
    if inp.Go? {
      WriterGoEffect(id, st, w);
    } else {
      SameEffect(id, st);
    }
  }

  /** An indexer's step leaves the store alone, sends a request that is no create, or adds a data file. */
  ghost predicate IndexerEffect(id: nat, a: Store, b: Store) {
    || b == a
    || (exists op :: b == Issue(a, IndexerId(id), 0, op) && !op.PutWal?)
    || (exists path, rows :: b == AddFile(a, path, rows) && path !in a.files)
  }

  lemma IndexerStepEffect(id: nat, st: Store, x: X.Indexer, inp: X.Input)
    requires X.Next(id, st, x, inp).Some?
    ensures IndexerEffect(id, st, X.Next(id, st, x, inp).value.store)
  {
    hide X.SortedById, X.Unique, X.DedupKey, HasPrefix, ConcatRows;
    if inp.GoPath? && HasPrefix(inp.path, DATA_PREFIX) {
      var run := x.pc.run;
      assert X.Next(id, st, x, inp).value.store == AddFile(st, inp.path, ConcatRows(run.chunks));
    }
  }

  // --------------------------------------------------------------- steps

  lemma OtherWriterIssue(s: System, b: Store, id: nat, other: nat)
    requires SS.Inv(s) && FenceInv(s) && WriterEffect(id, s.store, b) && FenceExt(s.store, b)
    requires other in s.writers && other != id
    ensures WriterFence(other, b, s.writers[other])
  {
    hide StoreFence, WriterFence, FenceExt, SS.RecordsOk, Contiguous, ExactlyOnce, GoodManifest, HistoryOk, RequestsOk,
      WS.WriterInv;
    var a := s.store;
    assert Contiguous(a.slots);
    if b != a {
      var own: nat, op :| b == Issue(a, WriterId(id), own, op) && (op.PutWal? ==> Owns(id, a, own));
      IssueKeepsWriter(other, a, WriterId(id), own, op, s.writers[other]);
    }
  }

  lemma EffectKeepsLanded(id: nat, a: Store, b: Store)
    requires WriterEffect(id, a, b)
    ensures b.landed == a.landed
  {
  }

  lemma WriterStepBoth(s: System, id: nat, inp: W.Input)
    requires Both(s) && StepWriter(s, id, inp).Some?
    ensures Both(StepWriter(s, id, inp).value)
  {
    hide SS.Inv, StoreFence, WriterFence, FenceExt, HonestStore, HonestWriter, ScanBound, W.Next, WriterEffect,
      WS.WriterInv, StoreInv;
    var w, a := s.writers[id], s.store;
    InvParts(s, id);
    SS.WriterStepKeeps(s, id, inp);
    var out := W.Next(id, a, w, inp).value;
    WriterStepFences(id, a, w, inp);
    WriterStepEffect(id, a, w, inp);
    EffectKeepsLanded(id, a, out.store);
    StepScanBound(id, a, w, inp);
    var t := StepWriter(s, id, inp).value;
    forall other | other in t.writers && other != id
      ensures WriterFence(other, out.store, t.writers[other]) && ScanBound(out.store, t.writers[other])
    {
      OtherWriterIssue(s, out.store, id, other);
      SameLanded(a, out.store, t.writers[other]);
    }
    if !t.adopted {
      StepHonest(id, a, w, inp);
    }
  }

  lemma SameLanded(a: Store, b: Store, w: W.Writer)
    requires a.landed == b.landed && FenceExt(a, b) && ScanBound(a, w)
    ensures ScanBound(b, w)
  {
    hide BorrowedAs, Ext;
    ScanBoundGrows(a, b, w);
  }

  lemma InvParts(s: System, id: nat)
    requires SS.Inv(s)
    ensures StoreInv(s.store) && Contiguous(s.store.slots)
    ensures id in s.writers ==> WS.WriterInv(s.store, s.writers[id])
  {
    hide WS.WriterInv, SS.RecordsOk, GoodManifest, HistoryOk, RequestsOk, ExactlyOnce, WalOk;
  }

  lemma HonestAfterIssue(a: Store, from: Actor, own: nat, op: Op)
    requires HonestStore(a) && !op.PutWal?
    ensures HonestStore(Issue(a, from, own, op))
  {
  }

  lemma HonestAfterIndexer(id: nat, a: Store, b: Store)
    requires HonestStore(a) && IndexerEffect(id, a, b)
    ensures HonestStore(b)
  {
    hide HonestStore;
    if b != a {
      if op: Op :| b == Issue(a, IndexerId(id), 0, op) && !op.PutWal? {
        HonestAfterIssue(a, IndexerId(id), 0, op);
      } else {
        SameRequests(a, b);
      }
    }
  }

  lemma SameRequests(a: Store, b: Store)
    requires HonestStore(a) && b.requests == a.requests
    ensures HonestStore(b)
  {
  }

  lemma IndexerStoreFence(id: nat, a: Store, b: Store)
    requires StoreInv(a) && StoreFence(a) && IndexerEffect(id, a, b)
    ensures StoreFence(b) && FenceExt(a, b) && b.landed == a.landed
  {
    hide StoreInv, StoreFence, FenceExt;
    if b == a {
      FenceExtReflexive(a);
    } else if op: Op :| b == Issue(a, IndexerId(id), 0, op) && !op.PutWal? {
      IssueFence(a, IndexerId(id), 0, op);
    } else {
      var path, rows :| b == AddFile(a, path, rows) && path !in a.files;
      AddFileFence(a, path, rows);
    }
  }

  lemma IndexerLeavesWriter(id: nat, a: Store, b: Store, wid: nat, w: W.Writer)
    requires Contiguous(a.slots) && IndexerEffect(id, a, b) && FenceExt(a, b)
    requires WriterFence(wid, a, w) && WS.WriterInv(a, w)
    ensures WriterFence(wid, b, w)
  {
    hide FenceExt, WriterFence, WS.WriterInv, Contiguous;
    if b != a {
      if op: Op :| b == Issue(a, IndexerId(id), 0, op) && !op.PutWal? {
        IssueKeepsWriter(wid, a, IndexerId(id), 0, op, w);
      } else {
        var path, rows :| b == AddFile(a, path, rows) && path !in a.files;
        AddFileKeepsWriter(wid, a, path, rows, w);
      }
    }
  }

  lemma IndexerStepBoth(s: System, id: nat, inp: X.Input)
    requires Both(s) && StepIndexer(s, id, inp).Some?
    ensures Both(StepIndexer(s, id, inp).value)
  {
    hide SS.Inv, StoreFence, WriterFence, FenceExt, HonestStore, HonestWriter, ScanBound, X.Next, IndexerEffect,
      WS.WriterInv, StoreInv, Contiguous;
    var a := s.store;
    SS.IndexerStepKeeps(s, id, inp);
    IndexerStepEffect(id, a, s.indexers[id], inp);
    var t := StepIndexer(s, id, inp).value;
    InvParts(s, 0);
    IndexerStoreFence(id, a, t.store);
    if !t.adopted {
      HonestAfterIndexer(id, a, t.store);
    }
    forall wid | wid in t.writers
      ensures WriterFence(wid, t.store, t.writers[wid]) && ScanBound(t.store, t.writers[wid])
    {
      InvParts(s, wid);
      IndexerLeavesWriter(id, a, t.store, wid, t.writers[wid]);
      SameLanded(a, t.store, t.writers[wid]);
    }
  }

  lemma LandStepBoth(s: System, rid: nat)
    requires Both(s) && CanLand(s.store, rid)
    ensures Both(s.(store := Land(s.store, rid)))
  {
    hide SS.Inv, StoreFence, WriterFence, FenceExt, HonestWriter, ScanBound, WS.WriterInv, StoreInv, Contiguous, Land,
      CanLand;
    var a, b := s.store, Land(s.store, rid);
    SS.LandStepKeeps(s, rid);
    InvParts(s, 0);
    LandFence(a, rid);
    forall id | id in s.writers
      ensures WriterFence(id, b, s.writers[id]) && ScanBound(b, s.writers[id])
    {
      InvParts(s, id);
      LandKeepsWriter(id, a, rid, s.writers[id]);
      LandKeepsScanBound(id, a, rid, s.writers[id]);
    }
    assert !s.adopted ==> HonestStore(b);
  }

  lemma AddStepBoth(s: System, ev: Event)
    requires Both(s) && Step(s, ev).Some? && (ev.AddWriter? || ev.AddIndexer? || ev.AddReader?)
    ensures Both(Step(s, ev).value)
  {
    hide SS.Inv, StoreFence, HonestStore, FreshExcept;
    SS.StepKeeps(s, ev);
  }

  lemma ReaderStepBoth(s: System, ev: Event)
    requires Both(s) && Step(s, ev).Some? && ev.ReaderStep?
    ensures Both(Step(s, ev).value)
  {
    hide SS.Inv, StoreFence, HonestStore, WriterFence, HonestWriter, ScanBound;
    SS.StepKeeps(s, ev);
  }

  lemma StepBoth(s: System, ev: Event)
    requires Both(s) && Step(s, ev).Some?
    ensures Both(Step(s, ev).value)
  {
    hide Both, StepWriter, StepIndexer, StepReader, Land, CanLand;
    match ev
    case LandRequest(rid) => LandStepBoth(s, rid);
    case WriterStep(id, inp) => WriterStepBoth(s, id, inp);
    case IndexerStep(id, inp) => IndexerStepBoth(s, id, inp);
    case ReaderStep(id, inp) => ReaderStepBoth(s, ev);
    case _ => AddStepBoth(s, ev);
  }

  lemma InitBoth(schema: Schema)
    ensures Both(Init(schema))
  {
    hide SS.Inv;
    SS.InitOk(schema);
  }

  lemma {:induction false} RunBoth(schema: Schema, events: seq<Event>)
    requires Run(schema, events).Some?
    ensures Both(Run(schema, events).value)
    decreases |events|
  {
    hide Both, Step, Init;
    if events == [] {
      InitBoth(schema);
    } else {
      var init := events[..|events| - 1];
      RunBoth(schema, init);
      StepBoth(Run(schema, init).value, events[|events| - 1]);
    }
  }

  // ------------------------------------------------------------- theorems

  /** In every run the fencing grammar holds exactly when no entry carries a borrowed epoch. */
  lemma FencingExactly(schema: Schema, events: seq<Event>)
    requires Run(schema, events).Some?
    ensures var st := Run(schema, events).value.store;
      Grammar(st.slots) <==> forall k :: k in st.slots ==> !Borrowed(st, k)
  {
    hide Run, Borrowed, Grammar, SS.Inv, StoreFence, StoreInv, SlotsOk, HonestInv;
    RunBoth(schema, events);
    InvParts(Run(schema, events).value, 0);
    WS.ContiguousOf(Run(schema, events).value.store);
    GrammarIffNothingBorrowed(Run(schema, events).value.store);
  }

  /** A run in which no Publish adopts another writer's CURRENT keeps the fencing grammar. */
  lemma FencingWithoutAdoption(schema: Schema, events: seq<Event>)
    requires Run(schema, events).Some? && !Run(schema, events).value.adopted
    ensures Grammar(Run(schema, events).value.store.slots)
  {
    hide Run, Grammar, SS.Inv;
    RunBoth(schema, events);
    FencingExactly(schema, events);
    var st := Run(schema, events).value.store;
    forall k | k in st.slots
      ensures !Borrowed(st, k)
    {
      hide StoreFence, HonestInv;
      CreatedBy(st, k);
      HonestRequest(Run(schema, events).value, st.creator[k]);
    }
  }

  lemma HonestRequest(s: System, i: nat)
    requires HonestInv(s) && i < |s.store.requests| && s.store.requests[i].op.PutWal?
    ensures s.store.requests[i].op.wal.epoch == s.store.requests[i].own
  {
  }

  /** After an epoch is installed at log length n, only slot n+1 can still go to an older epoch. */
  lemma LateEntries(schema: Schema, events: seq<Event>, e: nat, k: nat)
    requires Run(schema, events).Some?
    requires var st := Run(schema, events).value.store; e in st.lenAt && k in st.slots && k > st.lenAt[e] + 1
    ensures Run(schema, events).value.store.slots[k].epoch >= e
  {
    hide Run, SS.Inv, StoreFence, StoreInv, HonestInv, SlotsOk;
    RunBoth(schema, events);
    InvParts(Run(schema, events).value, 0);
    WS.ContiguousOf(Run(schema, events).value.store);
    AtMostOneLateEntry(Run(schema, events).value.store, e, k);
  }

  /**
   Start's unbounded loop goes round at most (tail at the moment the epoch e was installed) + 2 times, plus once
   for each entry that another writer has stamped with e.
  */
  lemma ScanRoundsBounded(schema: Schema, events: seq<Event>, id: nat)
    requires Run(schema, events).Some? && id in Run(schema, events).value.writers
    requires Scanning(Run(schema, events).value.writers[id].pc)
    ensures var s := Run(schema, events).value;
      var w := s.writers[id];
      && w.pc.acquired.epoch in s.store.lenAt
      && w.rounds + w.pc.acquired.indexed <=
           s.store.lenAt[w.pc.acquired.epoch] + 2 + |BorrowedAs(s.store, w.pc.acquired.epoch)|
  {
    hide Run, SS.Inv, StoreFence, WriterFence, HonestInv, BorrowedAs;
    RunBoth(schema, events);
    assert ScanBound(Run(schema, events).value.store, Run(schema, events).value.writers[id]);
  }

  /** Without adoption nothing is borrowed, and the loop ends after the old tail and two more rounds. */
  lemma ScanRoundsWithoutAdoption(schema: Schema, events: seq<Event>, id: nat)
    requires Run(schema, events).Some? && !Run(schema, events).value.adopted
    requires id in Run(schema, events).value.writers && Scanning(Run(schema, events).value.writers[id].pc)
    ensures var s := Run(schema, events).value;
      var w := s.writers[id];
      && w.pc.acquired.epoch in s.store.lenAt
      && w.rounds + w.pc.acquired.indexed <= s.store.lenAt[w.pc.acquired.epoch] + 2
  {
    hide Run, Borrowed, Grammar;
    ScanRoundsBounded(schema, events, id);
    FencingWithoutAdoption(schema, events);
    FencingExactly(schema, events);
    assert BorrowedAs(Run(schema, events).value.store, Run(schema, events).value.writers[id].pc.acquired.epoch) == {};
  }
}
