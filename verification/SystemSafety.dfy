/** The protocol invariant holds after every run; the promises of the design follow from it. */
module SystemSafety {
  import opened Table
  import opened Store
  import opened Invariant
  import opened System
  import W = Writer
  import X = Indexer
  import R = Reader
  import WS = WriterSafety
  import XS = IndexerSafety
  import RS = ReaderSafety

  ghost predicate ActorsOk(s: System) {
    && (forall id :: id in s.writers ==> WS.WriterInv(s.store, s.writers[id]))
    && (forall id :: id in s.indexers ==> XS.PcOk(s.store, s.indexers[id].pc))
    && (forall id :: id in s.readers ==> RS.PcOk(s.store, s.readers[id]))
  }

  ghost predicate RecordsOk(s: System) {
    && (forall a :: a in s.acks ==> WS.AckOk(s.store, a))
    && (forall n :: n in s.snapshots ==> RS.SnapOk(s.store, n))
  }

  ghost predicate Inv(s: System) {
    StoreInv(s.store) && ActorsOk(s) && RecordsOk(s)
  }

  /** Nothing stored, answered or handed out is ever taken back. */
  ghost predicate Grows(a: System, b: System) {
    Ext(a.store, b.store) && a.acks <= b.acks && a.snapshots <= b.snapshots
  }

  lemma ActorsKeep(s: System, b: Store)
    requires Inv(s) && StoreInv(b) && Ext(s.store, b)
    ensures ActorsOk(s.(store := b))
  {
    var a := s.store;
    assert Contiguous(a.slots) && Contiguous(b.slots) && HistoryOk(b);
    hide StoreInv, HistoryOk, Contiguous, Ext, WS.WriterInv, XS.PcOk, RS.PcOk, RecordsOk;
    forall id | id in s.writers
      ensures WS.WriterInv(b, s.writers[id])
    {
      ManifestsAreGood(a);
      WS.WriterGrows(a, b, s.writers[id]);
    }
    forall id | id in s.indexers
      ensures XS.PcOk(b, s.indexers[id].pc)
    {
      XS.PcGrows(a, b, s.indexers[id].pc);
    }
    forall id | id in s.readers
      ensures RS.PcOk(b, s.readers[id])
    {
      RS.PcGrows(a, b, s.readers[id]);
    }
  }

  lemma RecordsKeep(s: System, b: Store)
    requires Inv(s) && StoreInv(b) && Ext(s.store, b)
    ensures RecordsOk(s.(store := b))
  {
    var a := s.store;
    assert Contiguous(a.slots) && Contiguous(b.slots) && HistoryOk(b);
    hide StoreInv, HistoryOk, Contiguous, Ext, WS.AckOk, RS.SnapOk, ActorsOk;
    forall x | x in s.acks
      ensures WS.AckOk(b, x)
    {
      WS.AckGrows(a, b, x);
    }
    forall n | n in s.snapshots
      ensures RS.SnapOk(b, n)
    {
      SnapGrows(a, b, n);
    }
  }

  lemma SnapGrows(a: Store, b: Store, n: R.Snapshot)
    requires Ext(a, b) && Contiguous(a.slots) && RS.SnapOk(a, n)
    ensures RS.SnapOk(b, n)
  {
    hide Ext, Contiguous, RS.PartOk;
    RS.PartGrows(a, b, n, n.state.published + n.probed);
  }

  /** A store step of anyone leaves everyone else's facts and all records intact. */
  lemma OthersKeep(s: System, b: Store)
    requires Inv(s) && StoreInv(b) && Ext(s.store, b)
    ensures Inv(s.(store := b))
  {
    hide StoreInv, Ext, ActorsOk, RecordsOk;
    ActorsKeep(s, b);
    RecordsKeep(s, b);
  }

  lemma ManifestsAreGood(st: Store)
    requires StoreInv(st)
    ensures forall k :: k in st.manifests ==> GoodManifest(st, st.manifests[k])
  {
  }

  lemma WriterStepKeeps(s: System, id: nat, inp: W.Input)
    requires Inv(s) && StepWriter(s, id, inp).Some?
    ensures Inv(StepWriter(s, id, inp).value) && Grows(s, StepWriter(s, id, inp).value)
  {
    hide StoreInv, WS.WriterInv, XS.PcOk, RS.PcOk, WS.AckOk, RS.SnapOk, Ext, W.Next;
    WS.WriterKeeps(id, s.store, s.writers[id], inp);
    var out := W.Next(id, s.store, s.writers[id], inp).value;
    OthersKeep(s, out.store);
  }

  lemma IndexerStepKeeps(s: System, id: nat, inp: X.Input)
    requires Inv(s) && StepIndexer(s, id, inp).Some?
    ensures Inv(StepIndexer(s, id, inp).value) && Grows(s, StepIndexer(s, id, inp).value)
  {
    hide StoreInv, WS.WriterInv, XS.PcOk, RS.PcOk, WS.AckOk, RS.SnapOk, Ext, X.Next;
    XS.IndexerKeeps(id, s.store, s.indexers[id], inp);
    OthersKeep(s, X.Next(id, s.store, s.indexers[id], inp).value.store);
  }

  lemma ReaderStepKeeps(s: System, id: nat, inp: R.Input)
    requires Inv(s) && StepReader(s, id, inp).Some?
    ensures Inv(StepReader(s, id, inp).value) && Grows(s, StepReader(s, id, inp).value)
  {
    hide StoreInv, WS.WriterInv, XS.PcOk, RS.PcOk, WS.AckOk, RS.SnapOk, R.Next;
    RS.ReaderKeeps(s.store, s.acks, s.readers[id], inp);
    WS.ExtReflexive(s.store);
  }

  lemma StepKeeps(s: System, ev: Event)
    requires Inv(s) && Step(s, ev).Some?
    ensures Inv(Step(s, ev).value) && Grows(s, Step(s, ev).value)
  {
    hide Inv, Grows, StepWriter, StepIndexer, StepReader, Land, CanLand;
    match ev
    case LandRequest(rid) => LandStepKeeps(s, rid);
    case WriterStep(id, inp) => WriterStepKeeps(s, id, inp);
    case IndexerStep(id, inp) => IndexerStepKeeps(s, id, inp);
    case ReaderStep(id, inp) => ReaderStepKeeps(s, id, inp);
    case _ => NewActorKeeps(s, ev);
  }

  lemma LandStepKeeps(s: System, rid: nat)
    requires Inv(s) && CanLand(s.store, rid)
    ensures Inv(s.(store := Land(s.store, rid))) && Grows(s, s.(store := Land(s.store, rid)))
  {
    hide StoreInv, ActorsOk, RecordsOk, Ext, Land, CanLand;
    LandKeeps(s.store, rid);
    OthersKeep(s, Land(s.store, rid));
  }

  lemma NewActorKeeps(s: System, ev: Event)
    requires Inv(s) && Step(s, ev).Some? && (ev.AddWriter? || ev.AddIndexer? || ev.AddReader?)
    ensures Inv(Step(s, ev).value) && Grows(s, Step(s, ev).value)
  {
    hide StoreInv, WS.AckOk, RS.SnapOk, Ext;
    WS.ExtReflexive(s.store);
  }

  lemma InitOk(schema: Schema)
    ensures Inv(Init(schema))
  {
  }

  /** The invariant holds after every run, whatever the interleaving. */
  lemma {:induction false} Safety(schema: Schema, events: seq<Event>)
    requires Run(schema, events).Some?
    ensures Inv(Run(schema, events).value)
    decreases |events|
  {
    hide Inv, Step, Init;
    if events == [] {
      InitOk(schema);
    } else {
      var init := events[..|events| - 1];
      Safety(schema, init);
      StepKeeps(Run(schema, init).value, events[|events| - 1]);
    }
  }

  lemma {:induction false} RunGrows(schema: Schema, first: seq<Event>, rest: seq<Event>)
    requires Run(schema, first + rest).Some?
    ensures Run(schema, first).Some? && Grows(Run(schema, first).value, Run(schema, first + rest).value)
    decreases |rest|
  {
    hide Inv, Step, Init;
    if rest == [] {
      assert first + rest == first;
    } else {
      var run := first + rest;
      var init := rest[..|rest| - 1];
      assert run[..|run| - 1] == first + init;
      RunGrows(schema, first, init);
      Safety(schema, first + init);
      StepKeeps(Run(schema, first + init).value, run[|run| - 1]);
    }
  }
}
