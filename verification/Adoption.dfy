/**
 A run in which fencing fails. Writer 0 (epoch 1) appends a batch and loses the reply to its publishing
 compare-and-swap; writer 1 acquires epoch 2; writer 0 looks again, finds its slot published, and stores
 the CURRENT it has just read, epoch 2, as its own. Its next import is then stamped with an epoch that
 belongs to writer 1 and lands ahead of writer 1's fence.
*/
module Adoption {
  import opened Table
  import opened Store
  import opened Invariant
  import opened Fencing
  import opened System
  import W = Writer
  import WS = WriterSafety

  const S1 := State(1, 1, 0, 0, INITIAL_KEY)
  const S2 := State(2, 1, 0, 2, INITIAL_KEY)
  const S3 := State(3, 2, 0, 2, INITIAL_KEY)

  ghost predicate Reachable(schema: Schema, s: System) {
    exists events :: Run(schema, events) == Some(s)
  }

  lemma Do(schema: Schema, s: System, ev: Event) returns (t: System)
    requires Reachable(schema, s) && Step(s, ev).Some?
    ensures Reachable(schema, t) && Step(s, ev) == Some(t)
  {
    var events :| Run(schema, events) == Some(s);
    t := Step(s, ev).value;
    assert (events + [ev])[..|events|] == events;
    assert Run(schema, events + [ev]) == Some(t);
  }

  /** One step of a writer, given what it does. */
  lemma DoWriter(schema: Schema, s: System, id: nat, inp: W.Input, out: W.Out) returns (t: System)
    requires Reachable(schema, s) && id in s.writers && W.Next(id, s.store, s.writers[id], inp) == Some(out)
    ensures Reachable(schema, t)
    ensures t == s.(store := out.store, writers := s.writers[id := out.writer],
                    acks := AddAck(s.acks, out.ack), adopted := s.adopted || out.adopted)
  {
    hide W.Next, Reachable;
    t := Do(schema, s, WriterStep(id, inp));
  }

  function Out(st: Store, w: W.Writer): W.Out {
    W.Out(st, w, None, false)
  }

  /** What matters of a state: log, history of CURRENT, the two writers. */
  ghost predicate At(schema: Schema, s: System, slots: map<nat, Wal>, history: seq<State>, w: W.Writer, v: W.Writer) {
    && Reachable(schema, s) && s.store.schema == schema
    && s.store.slots == slots && s.store.history == history
    && (forall i :: i in s.store.landed ==> i < |s.store.requests|)
    && s.writers == map[0 := w, 1 := v]
  }

  ghost predicate Manifested(s: System) {
    s.store.manifests == map[INITIAL_KEY := INITIAL_MANIFEST]
  }

  /** A writer sends a request, which lands at once. */
  lemma SendAndLand(schema: Schema, s: System, id: nat, own: nat, op: Op, w: W.Writer) returns (t: System)
    requires Reachable(schema, s) && id in s.writers && Precondition(s.store, op)
    requires forall i :: i in s.store.landed ==> i < |s.store.requests|
    requires W.Next(id, s.store, s.writers[id], W.Go) == Some(Out(Issue(s.store, WriterId(id), own, op), w))
    ensures Reachable(schema, t)
    ensures CanLand(Issue(s.store, WriterId(id), own, op), |s.store.requests|)
    ensures t == s.(store := Land(Issue(s.store, WriterId(id), own, op), |s.store.requests|),
      writers := s.writers[id := w])
    ensures |t.store.requests| == |s.store.requests| + 1
    ensures forall i :: i in t.store.landed ==> i < |t.store.requests|
    ensures |s.store.requests| in t.store.landed
  {
    hide W.Next, Reachable;
    t := DoWriter(schema, s, id, W.Go, Out(Issue(s.store, WriterId(id), own, op), w));
    t := Do(schema, t, LandRequest(|s.store.requests|));
  }

  function Idle0(): W.Writer {
    W.NewWriter(2)
  }

  lemma TwoWriters(schema: Schema) returns (s: System)
    ensures At(schema, s, map[], [], Idle0(), Idle0()) && s == Init(schema).(writers := map[0 := Idle0(), 1 := Idle0()])
  {
    assert Run(schema, []) == Some(Init(schema));
    hide Reachable;
    s := Do(schema, Init(schema), AddWriter(0, 2));
    s := Do(schema, s, AddWriter(1, 2));
  }

  lemma Initialized(schema: Schema) returns (s: System)
    ensures At(schema, s, map[], [INITIAL_STATE], Idle0().(pc := W.Acquire(INITIAL_STATE, 0)), Idle0())
    ensures Manifested(s) && !s.adopted
  {
    hide Reachable, Ascii;
    var i := Idle0();
    s := TwoWriters(schema);
    s := DoWriter(schema, s, 0, W.CallStart, Out(s.store, i.(pc := W.StartLoad)));
    s := DoWriter(schema, s, 0, W.Go, Out(s.store, i.(pc := W.InitManifest)));
    s := SendAndLand(schema, s, 0, 0, PutManifest(INITIAL_KEY, INITIAL_MANIFEST), i.(pc := W.InitManifestWait(0)));
    s := DoWriter(schema, s, 0, W.Got(Applied), Out(s.store, i.(pc := W.InitCurrent)));
    s := SendAndLand(schema, s, 0, 0, PutCurrent(INITIAL_STATE), i.(pc := W.InitCurrentWait(1)));
    s := DoWriter(schema, s, 0, W.Got(Applied), Out(s.store, i.(pc := W.StartReload)));
    s := DoWriter(schema, s, 0, W.Go, Out(s.store, i.(pc := W.Acquire(INITIAL_STATE, 0))));
  }

  /** Writer 0 has started under epoch 1: its fence is in slot 1. */
  function Started(): W.Writer {
    W.Writer(2, Some(S1), 2, W.Idle, W.StartAnswer(W.Started, 1), 1, 1, 1)
  }

  /** As SendAndLand, for a compare-and-swap of CURRENT. */
  lemma SendCas(schema: Schema, s: System, id: nat, own: nat, n: State, w: W.Writer) returns (t: System)
    requires Reachable(schema, s) && id in s.writers && HasCurrent(s.store)
    requires forall i :: i in s.store.landed ==> i < |s.store.requests|
    requires W.Next(id, s.store, s.writers[id], W.Go) ==
             Some(Out(Issue(s.store, WriterId(id), own, Cas(Current(s.store), n)), w))
    ensures Reachable(schema, t) && t.store.schema == s.store.schema
    ensures t.store.history == s.store.history + [n] && t.store.slots == s.store.slots
    ensures t.store.manifests == s.store.manifests && t.adopted == s.adopted
    ensures t.writers == s.writers[id := w] && |t.store.requests| == |s.store.requests| + 1
    ensures t.store.lenAt ==
      if n.epoch > Current(s.store).epoch then s.store.lenAt[n.epoch := |s.store.slots|] else s.store.lenAt
    ensures forall i :: i in t.store.landed ==> i < |t.store.requests|
    ensures |s.store.requests| in t.store.landed
  {
    hide W.Next, Reachable;
    t := SendAndLand(schema, s, id, own, Cas(Current(s.store), n), w);
  }

  /** As SendAndLand, for the creation of a WAL. */
  lemma SendWal(schema: Schema, s: System, id: nat, own: nat, wal: Wal, w: W.Writer) returns (t: System)
    requires Reachable(schema, s) && id in s.writers && wal.slot !in s.store.slots
    requires forall i :: i in s.store.landed ==> i < |s.store.requests|
    requires W.Next(id, s.store, s.writers[id], W.Go) == Some(Out(Issue(s.store, WriterId(id), own, PutWal(wal)), w))
    ensures Reachable(schema, t) && t.store.schema == s.store.schema
    ensures t.store.history == s.store.history && t.store.slots == s.store.slots[wal.slot := wal]
    ensures t.store.manifests == s.store.manifests && t.adopted == s.adopted
    ensures t.writers == s.writers[id := w] && |t.store.requests| == |s.store.requests| + 1
    ensures t.store.lenAt == s.store.lenAt
    ensures forall i :: i in t.store.landed ==> i < |t.store.requests|
    ensures |s.store.requests| in t.store.landed
  {
    hide W.Next, Reachable;
    t := SendAndLand(schema, s, id, own, PutWal(wal), w);
  }

  lemma OldAcquires(schema: Schema) returns (s: System)
    ensures At(schema, s, map[], [INITIAL_STATE, S1], Idle0().(pc := W.ScanCheck(S1, 1)), Idle0())
    ensures Manifested(s) && !s.adopted
  {
    hide Reachable, Ascii;
    s := Initialized(schema);
    var n := |s.store.requests|;
    s := SendCas(schema, s, 0, 0, S1, Idle0().(pc := W.AcquireWait(INITIAL_STATE, S1, 0, n)));
    s := DoWriter(schema, s, 0, W.Got(Applied), Out(s.store, Idle0().(pc := W.ScanCheck(S1, 1))));
  }

  lemma OldPlants(schema: Schema) returns (s: System, rid: nat)
    ensures At(schema, s, map[1 := W.FenceWal(1, 1)], [INITIAL_STATE, S1],
               Idle0().(rounds := 1, pc := W.PlantWait(S1, 1, rid)), Idle0())
    ensures Manifested(s) && !s.adopted && rid in s.store.landed
  {
    hide Reachable, Ascii, W.Decimal;
    var i := Idle0().(rounds := 1);
    s := OldAcquires(schema);
    rid := |s.store.requests|;
    s := DoWriter(schema, s, 0, W.Go, Out(s.store, i.(pc := W.ScanProbe(S1, 1))));
    s := DoWriter(schema, s, 0, W.Go, Out(s.store, i.(pc := W.PlantFence(S1, 1))));
    s := SendWal(schema, s, 0, 1, W.FenceWal(1, 1), i.(pc := W.PlantWait(S1, 1, rid)));
  }

  lemma OldStarts(schema: Schema) returns (s: System)
    ensures At(schema, s, map[1 := W.FenceWal(1, 1)], [INITIAL_STATE, S1], Started(), Idle0())
    ensures Manifested(s) && !s.adopted
  {
    hide Reachable, Ascii, W.Decimal;
    var rid;
    s, rid := OldPlants(schema);
    s := DoWriter(schema, s, 0, W.Got(Applied), Out(s.store, Idle0().(rounds := 1, pc := W.Confirm(S1, 1))));
    s := DoWriter(schema, s, 0, W.Go, Out(s.store, Started()));
  }

  /** A first import finds nothing known. */
  lemma {:induction false} NothingKnown(known: map<Id, Entry>, ids: seq<Id>, op: Id, digest: Digest)
    requires forall i :: 0 <= i < |ids| ==> ids[i] !in known
    ensures W.CheckKnown(known, ids, op, digest) == W.Seen(0, 0)
  {
    if ids != [] {
      NothingKnown(known, ids[..|ids| - 1], op, digest);
    }
  }

  /** A writer whose CURRENT names the initial manifest gets as far as the scan of the WAL tail. */
  lemma LoadsManifest(schema: Schema, s: System, w: W.Writer, b: W.Batch) returns (t: System)
    requires Reachable(schema, s) && Manifested(s) && 0 in s.writers && s.writers[0] == w && s.store.schema == schema
    requires w.pc.Idle? && HasCurrent(s.store) && w.current == Some(Current(s.store))
    requires W.IsValidBatch(b, schema) && Current(s.store).manifest == INITIAL_KEY && Current(s.store).indexed == 0
    ensures Reachable(schema, t)
    ensures t == s.(writers := s.writers[0 := w.(pc := W.ImportManifest(b, Current(s.store)))])
  {
    hide Reachable, Ascii, W.IsValidBatch;
    t := DoWriter(schema, s, 0, W.CallImport(b), Out(s.store, w.(pc := W.ImportLoad(b))));
    t := DoWriter(schema, t, 0, W.Go, Out(s.store, w.(pc := W.ImportManifest(b, Current(s.store)))));
  }

  lemma ReadsIndex(schema: Schema, s: System, w: W.Writer, b: W.Batch) returns (t: System)
    requires Reachable(schema, s) && Manifested(s) && 0 in s.writers && s.writers[0] == w && s.store.schema == schema
    requires w.pc.Idle? && HasCurrent(s.store) && w.current == Some(Current(s.store))
    requires W.IsValidBatch(b, schema) && Current(s.store).manifest == INITIAL_KEY && Current(s.store).indexed == 0
    ensures Reachable(schema, t)
    ensures t == s.(writers := s.writers[0 := w.(pc := W.ImportScan(b, Current(s.store), map[], 1))])
  {
    hide Reachable, Ascii, W.IsValidBatch;
    var c := Current(s.store);
    t := LoadsManifest(schema, s, w, b);
    t := DoWriter(schema, t, 0, W.Go, Out(s.store, w.(pc := W.ImportIndex(b, c, [], 0, []))));
    t := DoWriter(schema, t, 0, W.Go, Out(s.store, w.(pc := W.ImportScan(b, c, map[], 1))));
  }

  function Wal1(b: W.Batch): Wal
    requires b.ids != []
  {
    W.AppendWal(b, 1, 2)
  }

  lemma OldSends(schema: Schema, b: W.Batch) returns (s: System, rid: nat)
    requires W.IsValidBatch(b, schema) && b.immediate
    ensures b.ids != []
    ensures At(schema, s, map[1 := W.FenceWal(1, 1), 2 := Wal1(b)], [INITIAL_STATE, S1],
               Started().(pc := W.ImportWait(b, Wal1(b), rid)), Idle0())
    ensures Manifested(s) && !s.adopted && rid in s.store.landed
  {
    hide Reachable, Ascii, W.Decimal, W.IsValidBatch, W.CheckKnown, W.Emplace, WalEntries;
    BatchHasIds(b, schema);
    s := OldStarts(schema);
    s := ReadsIndex(schema, s, Started(), b);
    rid := |s.store.requests|;
    NoIdsOfFence();
    s := DoWriter(schema, s, 0, W.Go, Out(s.store, Started().(pc := W.ImportScan(b, S1, map[], 2))));
    NothingKnown(map[], b.ids, b.ids[0], Digest(b.ids, b.chunks));
    s := SendWal(schema, s, 0, 1, Wal1(b), Started().(pc := W.ImportWait(b, Wal1(b), rid)));
  }

  lemma OldImports(schema: Schema, b: W.Batch) returns (s: System)
    requires W.IsValidBatch(b, schema) && b.immediate
    ensures b.ids != []
    ensures At(schema, s, map[1 := W.FenceWal(1, 1), 2 := Wal1(b)], [INITIAL_STATE, S1],
               Started().(nextSlot := 3, pc := W.Publishing(b, 2, 1, 0)), Idle0())
    ensures Manifested(s) && !s.adopted
  {
    hide Reachable, Ascii, W.Decimal, W.IsValidBatch;
    var rid;
    s, rid := OldSends(schema, b);
    s := DoWriter(schema, s, 0, W.Got(Applied),
                  Out(s.store, Started().(nextSlot := 3, pc := W.Publishing(b, 2, 1, 0))));
  }

  lemma BatchHasIds(b: W.Batch, schema: Schema)
    requires W.IsValidBatch(b, schema)
    ensures b.ids != [] && b.chunks != []
  {
  }

  lemma OldPublishSent(schema: Schema, b: W.Batch) returns (s: System, rid: nat)
    requires W.IsValidBatch(b, schema) && b.immediate
    ensures b.ids != []
    ensures At(schema, s, map[1 := W.FenceWal(1, 1), 2 := Wal1(b)], [INITIAL_STATE, S1, S2],
               Started().(nextSlot := 3, pc := W.PublishWait(b, 2, 1, 0, S2, rid)), Idle0())
    ensures Manifested(s) && !s.adopted && rid < |s.store.requests| && rid in s.store.landed
  {
    hide Reachable, Ascii, W.Decimal, W.IsValidBatch;
    s := OldImports(schema, b);
    rid := |s.store.requests|;
    s := SendCas(schema, s, 0, 1, S2, Started().(nextSlot := 3, pc := W.PublishWait(b, 2, 1, 0, S2, rid)));
  }

  /**
   With nobody in the way, a fresh table takes any valid batch to be published at once: Start plants its fence in
   slot 1, Import stores the batch in slot 2, publishes it and answers Committed.
  */
  lemma ImportCommits(schema: Schema, b: W.Batch)
    requires W.IsValidBatch(b, schema) && b.immediate
    ensures exists events ::
      && Run(schema, events).Some?
      && W.Ack(b, 2, true) in Run(schema, events).value.acks
      && Run(schema, events).value.store.slots == map[1 := W.FenceWal(1, 1), 2 := W.AppendWal(b, 1, 2)]
      && HasCurrent(Run(schema, events).value.store) && Current(Run(schema, events).value.store).published == 2
  {
    hide Ascii, W.Decimal, W.IsValidBatch;
    var s, rid := OldPublishSent(schema, b);
    var w := s.writers[0];
    var out := W.FinishImport(s.store, w.(current := Some(S2)), W.Committed, 2, Some(W.Ack(b, 2, true)));
    s := DoWriter(schema, s, 0, W.Got(Applied), out.value);
    var events :| Run(schema, events) == Some(s);
  }

  /** The publishing compare-and-swap lands, but its reply is lost. */
  lemma OldPublishes(schema: Schema, b: W.Batch) returns (s: System)
    requires W.IsValidBatch(b, schema) && b.immediate
    ensures b.ids != []
    ensures At(schema, s, map[1 := W.FenceWal(1, 1), 2 := Wal1(b)], [INITIAL_STATE, S1, S2],
               Started().(nextSlot := 3, pc := W.Publishing(b, 2, 1, 1)), Idle0())
    ensures Manifested(s) && !s.adopted
  {
    hide Reachable, Ascii, W.Decimal, W.IsValidBatch;
    var rid;
    s, rid := OldPublishSent(schema, b);
    s := DoWriter(schema, s, 0, W.Got(Unknown),
                  Out(s.store, Started().(nextSlot := 3, pc := W.Publishing(b, 2, 1, 1))));
  }

  lemma NewAcquires(schema: Schema, b: W.Batch) returns (s: System, rid: nat)
    requires W.IsValidBatch(b, schema) && b.immediate
    ensures b.ids != []
    ensures At(schema, s, map[1 := W.FenceWal(1, 1), 2 := Wal1(b)], [INITIAL_STATE, S1, S2, S3],
               Started().(nextSlot := 3, pc := W.Publishing(b, 2, 1, 1)), Idle0().(pc := W.AcquireWait(S2, S3, 0, rid)))
    ensures Manifested(s) && !s.adopted && rid in s.store.landed && 2 in s.store.lenAt && s.store.lenAt[2] == 2
  {
    hide Reachable, Ascii, W.Decimal, W.IsValidBatch;
    s := OldPublishes(schema, b);
    TwoSlots(s.store.slots);
    s := DoWriter(schema, s, 1, W.CallStart, Out(s.store, Idle0().(pc := W.StartLoad)));
    s := DoWriter(schema, s, 1, W.Go, Out(s.store, Idle0().(pc := W.Acquire(S2, 0))));
    rid := |s.store.requests|;
    s := SendCas(schema, s, 1, 0, S3, Idle0().(pc := W.AcquireWait(S2, S3, 0, rid)));
  }

  lemma TwoSlots(slots: map<nat, Wal>)
    requires slots.Keys == {1, 2}
    ensures |slots| == 2
  {
    assert |slots| == |slots.Keys|;
  }

  /** Writer 0 after it has stored epoch 2 as its own. */
  function Adopted(): W.Writer {
    Started().(nextSlot := 3, current := Some(S3), answer := W.ImportAnswer(W.Committed, 2, 2, 2))
  }

  lemma OldAdopts(schema: Schema, b: W.Batch) returns (s: System, rid: nat)
    requires W.IsValidBatch(b, schema) && b.immediate
    ensures b.ids != []
    ensures At(schema, s, map[1 := W.FenceWal(1, 1), 2 := Wal1(b)], [INITIAL_STATE, S1, S2, S3],
               Adopted(), Idle0().(pc := W.AcquireWait(S2, S3, 0, rid)))
    ensures Manifested(s) && s.adopted && rid in s.store.landed && 2 in s.store.lenAt && s.store.lenAt[2] == 2
  {
    hide Reachable, Ascii, W.Decimal, W.IsValidBatch;
    s, rid := NewAcquires(schema, b);
    s := DoWriter(schema, s, 0, W.Go, W.Out(s.store, Adopted(), Some(W.Ack(b, 2, true)), true));
  }

  /**
   So there is a run in which a writer asked to start again answers Started with an epoch it never acquired and whose
   fence is nowhere in the log: Start hands out the epoch of the CURRENT the writer has stored.
  */
  lemma RestartNamesAnotherEpoch(schema: Schema, b: W.Batch)
    requires W.IsValidBatch(b, schema) && b.immediate
    ensures exists events ::
      && Run(schema, events).Some? && 0 in Run(schema, events).value.writers
      && Run(schema, events).value.writers[0].answer == W.StartAnswer(W.Started, 2)
      && Run(schema, events).value.writers[0].own == 1
      && forall n :: n in Run(schema, events).value.store.slots ==> Run(schema, events).value.store.slots[n].epoch == 1
  {
    hide Ascii, W.Decimal, W.IsValidBatch;
    var s, rid := OldAdopts(schema, b);
    s := DoWriter(schema, s, 0, W.CallStart, Out(s.store, Adopted().(answer := W.StartAnswer(W.Started, 2))));
    var events :| Run(schema, events) == Some(s);
  }

  lemma OldScans(schema: Schema, b: W.Batch, c: W.Batch) returns (s: System, known: map<Id, Entry>)
    requires W.IsValidBatch(b, schema) && b.immediate && W.IsValidBatch(c, schema) && Disjoint(b.ids, c.ids)
    ensures b.ids != []
    ensures Reachable(schema, s) && s.store.schema == schema && s.adopted
    ensures s.store.slots == map[1 := W.FenceWal(1, 1), 2 := Wal1(b)]
    ensures forall i :: i in s.store.landed ==> i < |s.store.requests|
    ensures 0 in s.writers && s.writers[0] == Adopted().(pc := W.ImportScan(c, S3, known, 3))
    ensures forall i :: 0 <= i < |c.ids| ==> c.ids[i] !in known
  {
    hide Reachable, Ascii, W.Decimal, W.IsValidBatch, W.Emplace, WalEntries, Disjoint;
    var rid;
    s, rid := OldAdopts(schema, b);
    s := ReadsIndex(schema, s, Adopted(), c);
    known := W.Emplace(map[], WalEntries(Wal1(b), b.ids));
    NoIdsOfFence();
    s := DoWriter(schema, s, 0, W.Go, Out(s.store, Adopted().(pc := W.ImportScan(c, S3, map[], 2))));
    s := DoWriter(schema, s, 0, W.Go, Out(s.store, Adopted().(pc := W.ImportScan(c, S3, known, 3))));
    OnlyTheseIds(b, c, known);
  }

  lemma NoIdsOfFence()
    ensures W.Emplace(map[], WalEntries(W.FenceWal(1, 1), W.FenceWal(1, 1).ids)) == map[]
  {
  }

  lemma OnlyTheseIds(b: W.Batch, c: W.Batch, known: map<Id, Entry>)
    requires b.ids != [] && Disjoint(b.ids, c.ids) && known == W.Emplace(map[], WalEntries(Wal1(b), b.ids))
    ensures forall i :: 0 <= i < |c.ids| ==> c.ids[i] !in known
  {
    WS.EmplaceMeaning(map[], WalEntries(Wal1(b), b.ids));
    WS.WalEntriesMeaning(Wal1(b));
  }

  /**
   For any two valid batches without a common id there is a run that adopts another writer's epoch and
   leaves an Append of epoch 2 right behind an Append of epoch 1: the fencing grammar fails.
  */
  lemma AdoptionBreaksFencing(schema: Schema, b: W.Batch, c: W.Batch)
    requires W.IsValidBatch(b, schema) && b.immediate && W.IsValidBatch(c, schema) && Disjoint(b.ids, c.ids)
    ensures exists events ::
      Run(schema, events).Some? && Run(schema, events).value.adopted && !Grammar(Run(schema, events).value.store.slots)
  {
    hide Ascii, W.Decimal, W.IsValidBatch;
    assert c.ids != [] by { BatchHasIds(c, schema); }
    var s, known := OldScans(schema, b, c);
    var wal := W.AppendWal(c, 2, 3);
    NothingKnown(known, c.ids, c.ids[0], Digest(c.ids, c.chunks));
    hide W.CheckKnown, Run;
    s := SendWal(schema, s, 0, 1, wal, Adopted().(pc := W.ImportWait(c, wal, |s.store.requests|)));
    assert s.store.slots[2].epoch == 1 && s.store.slots[3] == wal;
    assert !Follows(s.store.slots, 3);
    var events :| Run(schema, events) == Some(s);
  }
}
