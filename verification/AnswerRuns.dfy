/** Answers over whole runs: what writers tell their callers, when they refuse, and what later loads show. */
module AnswerRuns {
  import opened Table
  import opened Store
  import opened Invariant
  import opened BatchLookup
  import opened Answers
  import opened AnswerReasons
  import opened Fencing
  import opened WriterFencing
  import opened ScanRounds
  import opened System
  import W = Writer
  import R = Reader
  import WS = WriterSafety
  import SS = SystemSafety
  import FR = FencingRuns
  import Honesty
  import Promises

  /** The batch of the latest Import that writer `id` was called with. */
  function LastBatch(events: seq<Event>, id: nat): Option<W.Batch> {
    if events == [] then None
    else
      var ev := events[|events| - 1];
      if ev.WriterStep? && ev.id == id && ev.winp.CallImport? then Some(ev.winp.batch)
      else LastBatch(events[..|events| - 1], id)
  }

  ghost predicate AllTrue(s: System, events: seq<Event>) {
    forall id :: id in s.writers ==> AnswerInv(s.store, s.acks, s.writers[id], LastBatch(events, id))
  }

  lemma LastAfter(events: seq<Event>, id: nat)
    requires events != []
    ensures var ev := events[|events| - 1];
      LastBatch(events, id) ==
        if ev.WriterStep? && ev.id == id && ev.winp.CallImport? then Some(ev.winp.batch)
        else LastBatch(events[..|events| - 1], id)
  {
  }

  lemma ExtParts(a: Store, b: Store)
    requires Ext(a, b)
    ensures SubMap(a.slots, b.slots) && a.schema == b.schema && a.history <= b.history
  {
  }

  lemma OtherTrue(s: System, t: System, init: seq<Event>, events: seq<Event>, id: nat)
    requires SS.Grows(s, t) && AllTrue(s, init) && id in s.writers && id in t.writers && t.writers[id] == s.writers[id]
    requires LastBatch(events, id) == LastBatch(init, id)
    ensures AnswerInv(t.store, t.acks, t.writers[id], LastBatch(events, id))
  {
    hide AnswerInv, Ext, LastBatch;
    ExtParts(s.store, t.store);
    AnswerGrows(s.store, t.store, s.acks, t.acks, s.writers[id], LastBatch(init, id));
  }

  lemma WriterStepTrue(s: System, init: seq<Event>, id: nat, inp: W.Input)
    requires SS.Inv(s) && AllTrue(s, init) && StepWriter(s, id, inp).Some?
    ensures AllTrue(StepWriter(s, id, inp).value, init + [WriterStep(id, inp)])
    ensures var t := StepWriter(s, id, inp).value;
      t.acks == AddAck(s.acks, Recorded(t.writers[id], LastBatch(init + [WriterStep(id, inp)], id)))
  {
    hide SS.Inv, AnswerInv, W.Next, WS.WriterInv, StoreInv, LastBatch, SS.Grows, Recorded;
    var t, events := StepWriter(s, id, inp).value, init + [WriterStep(id, inp)];
    FR.InvParts(s, id);
    SS.WriterStepKeeps(s, id, inp);
    StepTrue(id, s.store, s.acks, s.writers[id], inp, LastBatch(init, id));
    assert events[..|events| - 1] == init;
    forall x | x in t.writers
      ensures AnswerInv(t.store, t.acks, t.writers[x], LastBatch(events, x))
    {
      LastAfter(events, x);
      if x != id {
        OtherTrue(s, t, init, events, x);
      }
    }
    LastAfter(events, id);
  }

  lemma NewWriterTrue(st: Store, acks: set<W.Ack>, m: nat, last: Option<W.Batch>)
    ensures AnswerInv(st, acks, W.NewWriter(m), last)
  {
  }

  lemma StepAllTrue(s: System, init: seq<Event>, ev: Event)
    requires SS.Inv(s) && AllTrue(s, init) && Step(s, ev).Some?
    ensures AllTrue(Step(s, ev).value, init + [ev])
  {
    hide SS.Inv, AnswerInv, LastBatch, SS.Grows, W.NewWriter;
    var t, events := Step(s, ev).value, init + [ev];
    SS.StepKeeps(s, ev);
    if ev.WriterStep? {
      WriterStepTrue(s, init, ev.id, ev.winp);
    } else {
      assert events[..|events| - 1] == init;
      forall x | x in t.writers
        ensures AnswerInv(t.store, t.acks, t.writers[x], LastBatch(events, x))
      {
        LastAfter(events, x);
        if x in s.writers {
          OtherTrue(s, t, init, events, x);
        } else {
          NewWriterTrue(t.store, t.acks, ev.maxAttempts, LastBatch(events, x));
        }
      }
    }
  }

  lemma InitTrue(schema: Schema)
    ensures AllTrue(Init(schema), [])
  {
  }

  lemma {:induction false} RunTrue(schema: Schema, events: seq<Event>)
    requires Run(schema, events).Some?
    ensures AllTrue(Run(schema, events).value, events)
    decreases |events|
  {
    hide AllTrue, Step, SS.Inv, Init;
    if events == [] {
      InitTrue(schema);
    } else {
      var init := events[..|events| - 1];
      RunTrue(schema, init);
      SS.Safety(schema, init);
      StepAllTrue(Run(schema, init).value, init, events[|events| - 1]);
      assert init + [events[|events| - 1]] == events;
    }
  }

  // ---------------------------------------------------------------- Import

  /**
   What an Import answers is so, in every run and ever after: Committed and AlreadyCommitted name a slot that holds
   the batch and that CURRENT publishes, Durable one that holds a batch not to be published at once; the epoch and
   the published number are those of a CURRENT that the writer has seen, or 0 if it is not started.
  */
  lemma ImportAnswersTrue(schema: Schema, events: seq<Event>, id: nat)
    requires Run(schema, events).Some? && id in Run(schema, events).value.writers
    requires var w := Run(schema, events).value.writers[id]; w.pc.Idle? && w.answer.ImportAnswer?
    ensures LastBatch(events, id).Some?
    ensures var s := Run(schema, events).value;
      var w, b := s.writers[id], LastBatch(events, id).value;
      var code, slot := w.answer.code, w.answer.slot;
      && (code == W.Committed || code == W.AlreadyCommitted ==>
            && WS.Stored(s.store, b, slot) && W.Ack(b, slot, true) in s.acks
            && HasCurrent(s.store) && slot <= w.answer.published <= Current(s.store).published)
      && (code == W.Committed ==> b.immediate)
      && (code == W.Durable ==> WS.Stored(s.store, b, slot) && !b.immediate && W.Ack(b, slot, false) in s.acks)
      && (code == W.ImportRetry && slot != 0 ==> WS.Stored(s.store, b, slot) && b.immediate)
      && (code == W.InvalidRequest ==> slot == 0 && Refused(s.store, w, b))
      && (code == W.NotStarted || code == W.Fenced ==> w.current.None? && slot == 0)
      && (w.current.Some? ==>
            && w.current.value in s.store.history
            && w.answer.epoch == w.current.value.epoch && w.answer.published == w.current.value.published)
      && (w.current.None? ==> w.answer.epoch == 0 && w.answer.published == 0)
  {
    hide Run, LastBatch, SS.Inv, Refused;
    RunTrue(schema, events);
    SS.Safety(schema, events);
    var s := Run(schema, events).value;
    assert AnswerInv(s.store, s.acks, s.writers[id], LastBatch(events, id));
    if s.writers[id].current.Some? {
      InvStore(s);
      hide StoreInv;
      WS.HistoryBelowCurrent(s.store, s.writers[id].current.value);
    }
  }

  lemma InvStore(s: System)
    requires SS.Inv(s)
    ensures StoreInv(s.store)
  {
  }

  /** A step of a writer records an answer exactly when it ends an Import with a positive one, and that one. */
  lemma AcksAreAnswers(schema: Schema, events: seq<Event>, id: nat, inp: W.Input)
    requires Run(schema, events + [WriterStep(id, inp)]).Some?
    ensures Run(schema, events).Some? && id in Run(schema, events + [WriterStep(id, inp)]).value.writers
    ensures var s, t := Run(schema, events).value, Run(schema, events + [WriterStep(id, inp)]).value;
      var w, b := t.writers[id], LastBatch(events + [WriterStep(id, inp)], id);
      t.acks == s.acks +
        if w.pc.Idle? && b.Some? && w.answer.ImportAnswer? &&
           w.answer.code in {W.Committed, W.AlreadyCommitted, W.Durable}
        then {W.Ack(b.value, w.answer.slot, w.answer.code != W.Durable)} else {}
  {
    var run := events + [WriterStep(id, inp)];
    assert run[..|run| - 1] == events;
    var s := Run(schema, events).value;
    hide SS.Inv, AllTrue, W.Next, LastBatch;
    assert Run(schema, run) == StepWriter(s, id, inp);
    hide Run, Recorded, AddAck, StepWriter;
    RunTrue(schema, events);
    SS.Safety(schema, events);
    WriterStepTrue(s, events, id, inp);
    RecordedIs(s.acks, StepWriter(s, id, inp).value.writers[id], LastBatch(run, id));
  }

  lemma RecordedIs(acks: set<W.Ack>, w: W.Writer, b: Option<W.Batch>)
    ensures AddAck(acks, Recorded(w, b)) == acks +
      if w.pc.Idle? && b.Some? && w.answer.ImportAnswer? &&
         w.answer.code in {W.Committed, W.AlreadyCommitted, W.Durable}
      then {W.Ack(b.value, w.answer.slot, w.answer.code != W.Durable)} else {}
  {
  }

  // ----------------------------------------------------------------- Start

  /**
   A writer that was told Started with epoch e writes under e, and the fence it planted is in the log under the epoch
   it acquired itself; that is e exactly when its fence carries e, and always in a run without a takeover in Publish.
   Any other code comes with no epoch and leaves the writer not started.
  */
  lemma StartAnswersTrue(schema: Schema, events: seq<Event>, id: nat)
    requires Run(schema, events).Some? && id in Run(schema, events).value.writers
    requires Run(schema, events).value.writers[id].answer.StartAnswer?
    ensures var s := Run(schema, events).value;
      var w := s.writers[id];
      && (w.answer.startCode == W.Started ==>
            && w.current.Some? && w.current.value in s.store.history && w.answer.epoch == w.current.value.epoch
            && Owns(id, s.store, w.own) && w.own <= w.answer.epoch
            && w.fenceSlot in s.store.slots && s.store.slots[w.fenceSlot].kind == Fence
            && (w.answer.epoch == w.own <==> s.store.slots[w.fenceSlot].epoch == w.answer.epoch)
            && (!s.adopted ==> w.answer.epoch == w.own))
      && (w.answer.startCode != W.Started ==> w.current.None? && w.answer.epoch == 0)
  {
    hide Run, LastBatch, SS.Inv, StoreFence;
    RunTrue(schema, events);
    FR.RunBoth(schema, events);
    var s := Run(schema, events).value;
    assert AnswerInv(s.store, s.acks, s.writers[id], LastBatch(events, id));
    assert WriterFence(id, s.store, s.writers[id]);
    if !s.adopted {
      assert Honesty.HonestWriter(s.writers[id]);
    }
  }

  /**
   Every call of a writer ends for the reason its code stands for: a first Started with the newest epoch and its own
   fence in the log, Contended and Fenced when another epoch is newer or holds the slot, a retry only after a lost
   reply, a slot that went to another entry, or a publication that did not come through.
  */
  lemma CallsEndForReason(schema: Schema, events: seq<Event>, id: nat, inp: W.Input)
    requires Run(schema, events + [WriterStep(id, inp)]).Some?
    ensures Run(schema, events).Some? && id in Run(schema, events).value.writers
    ensures id in Run(schema, events + [WriterStep(id, inp)]).value.writers
    ensures var s, t := Run(schema, events).value, Run(schema, events + [WriterStep(id, inp)]).value;
      var last := LastBatch(events + [WriterStep(id, inp)], id);
      t.writers[id].pc.Idle? ==> Reason(s.store, s.writers[id], inp, t.writers[id], last)
  {
    var run := events + [WriterStep(id, inp)];
    assert run[..|run| - 1] == events;
    var s := Run(schema, events).value;
    hide SS.Inv, AnswerInv, W.Next, LastBatch, Reason, StoreInv, StoreFence, WriterFence, WS.WriterInv;
    assert Run(schema, run) == StepWriter(s, id, inp);
    hide Run;
    RunTrue(schema, events);
    FR.RunBoth(schema, events);
    FR.InvParts(s, id);
    LastAfter(run, id);
    if W.Next(id, s.store, s.writers[id], inp).value.writer.pc.Idle? {
      StepReason(id, s.store, s.acks, s.writers[id], inp, LastBatch(events, id));
    }
  }

  // ----------------------------------------------------------- later loads

  /** The reader has not read CURRENT yet, or had these answers before it when it did. */
  ghost predicate Knows(pc: R.Pc, acks: set<W.Ack>) {
    match pc
    case LoadManifest(_, _, _, acked) => acks <= acked
    case Required(_, _, part, _) => acks <= part.acked
    case Probing(_, part, _) => acks <= part.acked
    case _ => true
  }

  lemma StepKnows(st: Store, now: set<W.Ack>, pc: R.Pc, inp: R.Input, acks: set<W.Ack>)
    requires Knows(pc, acks) && acks <= now && R.Next(st, now, pc, inp).Some?
    ensures var out := R.Next(st, now, pc, inp).value;
      Knows(out.pc, acks) && (out.done.Some? ==> acks <= out.done.value.acked)
  {
  }

  ghost predicate ReaderKnows(s: System, r: nat, acks: set<W.Ack>) {
    acks <= s.acks && (r in s.readers ==> Knows(s.readers[r], acks))
  }

  lemma SystemKnows(s: System, ev: Event, r: nat, acks: set<W.Ack>)
    requires ReaderKnows(s, r, acks) && Step(s, ev).Some?
    ensures ReaderKnows(Step(s, ev).value, r, acks)
  {
    hide Knows, R.Next, W.Next, Land, CanLand;
    if ev.ReaderStep? && ev.id == r {
      StepKnows(s.store, s.acks, s.readers[r], ev.rinp, acks);
    } else if ev.AddReader? {
      KnowsIdle(acks);
    }
  }

  lemma {:induction false} LaterKnows(schema: Schema, first: seq<Event>, rest: seq<Event>, r: nat)
    requires Run(schema, first + rest).Some? && Run(schema, first).Some?
    requires r in Run(schema, first).value.readers ==> Run(schema, first).value.readers[r].Idle?
    ensures ReaderKnows(Run(schema, first + rest).value, r, Run(schema, first).value.acks)
    decreases |rest|
  {
    hide Step;
    if rest == [] {
      assert first + rest == first;
    } else {
      hide ReaderKnows;
      var run, init := first + rest, rest[..|rest| - 1];
      assert run[..|run| - 1] == first + init;
      LaterKnows(schema, first, init, r);
      SystemKnows(Run(schema, first + init).value, run[|run| - 1], r, Run(schema, first).value.acks);
    }
  }

  lemma KnowsIdle(acks: set<W.Ack>)
    ensures Knows(R.Idle, acks)
  {
  }

  /**
   Committed means visible: when a writer has answered Committed or AlreadyCommitted for a batch, every snapshot of a
   load called after that has the batch, as the contiguous rows of the answered slot.
  */
  lemma CommittedIsVisible(schema: Schema, first: seq<Event>, rest: seq<Event>, id: nat, r: nat, n: R.Snapshot)
    requires Run(schema, first).Some? && id in Run(schema, first).value.writers
    requires var w := Run(schema, first).value.writers[id];
      w.pc.Idle? && w.answer.ImportAnswer? && (w.answer.code == W.Committed || w.answer.code == W.AlreadyCommitted)
    requires r in Run(schema, first).value.readers ==> Run(schema, first).value.readers[r].Idle?
    requires Run(schema, first + rest).Some? && r in Run(schema, first + rest).value.readers
    requires var s := Run(schema, first + rest).value;
      var out := R.Next(s.store, s.acks, s.readers[r], R.Go); out.Some? && out.value.done == Some(n)
    ensures LastBatch(first, id).Some?
    ensures var st := Run(schema, first + rest).value.store;
      var b, slot := LastBatch(first, id).value, Run(schema, first).value.writers[id].answer.slot;
      && 1 <= slot <= n.state.published
      && LogRows(st.slots, slot - 1) + ConcatRows(b.chunks) <= R.ScanRows(st, n)
  {
    hide Run, R.Next, LastBatch, R.ScanRows, LogRows, ConcatRows, Knows;
    var s := Run(schema, first + rest).value;
    LoadFinishes(schema, first + rest, r, n);
    ImportAnswersTrue(schema, first, id);
    LaterKnows(schema, first, rest, r);
    StepKnows(s.store, s.acks, s.readers[r], R.Go, Run(schema, first).value.acks);
    var b, slot := LastBatch(first, id).value, Run(schema, first).value.writers[id].answer.slot;
    Promises.CommitIsVisible(schema, first + rest + [ReaderStep(r, R.Go)], n, W.Ack(b, slot, true));
  }

  /** A load's last step hands its snapshot out and leaves the store. */
  lemma LoadFinishes(schema: Schema, events: seq<Event>, r: nat, n: R.Snapshot)
    requires Run(schema, events).Some? && r in Run(schema, events).value.readers
    requires var s := Run(schema, events).value;
      var out := R.Next(s.store, s.acks, s.readers[r], R.Go); out.Some? && out.value.done == Some(n)
    ensures Run(schema, events + [ReaderStep(r, R.Go)]).Some?
    ensures var t := Run(schema, events + [ReaderStep(r, R.Go)]).value;
      t.store == Run(schema, events).value.store && n in t.snapshots
  {
    hide R.Next;
    var run := events + [ReaderStep(r, R.Go)];
    assert run[..|run| - 1] == events;
  }
}
