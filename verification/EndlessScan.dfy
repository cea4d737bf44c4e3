/**
 Start's scan has no bound that depends only on the log it took over: writer 0, which has adopted epoch 2 as in
 `Adoption`, appends as many batches as it likes before writer 1 looks for its first free slot.
*/
module EndlessScan {
  import opened Table
  import opened Store
  import opened Invariant
  import opened System
  import opened Adoption
  import W = Writer
  import WS = WriterSafety

  function Name(n: nat): Id {
    seq(n, _ => 7)
  }

  /** A batch whose one id has the length of the slot it is meant for. */
  function Single(slot: nat, chunk: Chunk, immediate: bool): W.Batch {
    W.Batch([Name(slot)], [chunk], immediate)
  }

  ghost predicate ShortIds(ids: seq<Id>, m: nat) {
    forall i :: 0 <= i < |ids| ==> |ids[i]| <= m
  }

  /** Slots 1..m are full, and writer 0 holds epoch 2 for its own and is about to fill slot m+1. */
  ghost predicate Filled(schema: Schema, s: System, m: nat, v: W.Writer) {
    && Reachable(schema, s) && s.store.schema == schema && Manifested(s)
    && s.store.history == [INITIAL_STATE, S1, S2, S3]
    && (forall i :: i in s.store.landed ==> i < |s.store.requests|)
    && 2 in s.store.lenAt && s.store.lenAt[2] == 2
    && (forall k: nat :: k in s.store.slots <==> 1 <= k <= m)
    && (forall k :: k in s.store.slots ==> ShortIds(s.store.slots[k].ids, m))
    && 0 in s.writers && s.writers[0] == Adopter(m, s.writers[0].answer)
    && 1 in s.writers && s.writers[1] == v
    && (v.pc.AcquireWait? ==> v.pc.rid in s.store.landed)
  }

  function Adopter(m: nat, answer: W.Answer): W.Writer {
    Adopted().(nextSlot := m + 1, answer := answer)
  }

  ghost predicate KnowsShort(known: map<Id, Entry>, m: nat) {
    forall id :: id in known ==> |id| <= m
  }

  lemma EmplaceShort(known: map<Id, Entry>, wal: Wal, m: nat)
    requires KnowsShort(known, m) && ShortIds(wal.ids, m)
    ensures KnowsShort(W.Emplace(known, WalEntries(wal, wal.ids)), m)
  {
    WS.EmplaceMeaning(known, WalEntries(wal, wal.ids));
    WS.WalEntriesMeaning(wal);
  }

  /** Import reads the tail of the log up to its own next slot. */
  lemma {:induction false} ReadsTail(schema: Schema, s: System, w: W.Writer, c: W.Batch, known: map<Id, Entry>,
    slot: nat, m: nat)
    returns (t: System, all: map<Id, Entry>)
    requires Reachable(schema, s) && 0 in s.writers && 1 <= slot <= m + 1 && w.nextSlot == m + 1
    requires s.writers[0] == w.(pc := W.ImportScan(c, S3, known, slot)) && KnowsShort(known, m)
    requires forall k: nat :: 1 <= k <= m ==> k in s.store.slots && ShortIds(s.store.slots[k].ids, m)
    ensures Reachable(schema, t) && KnowsShort(all, m)
    ensures t == s.(writers := s.writers[0 := w.(pc := W.ImportScan(c, S3, all, m + 1))])
    decreases m + 1 - slot
  {
    hide Reachable, KnowsShort, ShortIds, W.Emplace, WalEntries;
    if slot == m + 1 {
      t, all := s, known;
    } else {
      var wal := s.store.slots[slot];
      var more := W.Emplace(known, WalEntries(wal, wal.ids));
      EmplaceShort(known, wal, m);
      t := DoWriter(schema, s, 0, W.Go, Out(s.store, w.(pc := W.ImportScan(c, S3, more, slot + 1))));
      t, all := ReadsTail(schema, t, w, c, more, slot + 1, m);
    }
  }

  lemma SingleIsValid(schema: Schema, slot: nat, chunk: Chunk, immediate: bool)
    requires AllFull([chunk], schema) && slot > 0
    ensures W.IsValidBatch(Single(slot, chunk, immediate), schema)
  {
    assert Name(slot)[0] == 7;
  }

  /** Import finds nothing of the new batch in the log. */
  lemma ImportReads(schema: Schema, s: System, m: nat, v: W.Writer, c: W.Batch)
    returns (t: System, known: map<Id, Entry>)
    requires Filled(schema, s, m, v) && W.IsValidBatch(c, schema) && |c.ids| == 1 && |c.ids[0]| == m + 1
    ensures Reachable(schema, t) && W.CheckKnown(known, c.ids, c.ids[0], Digest(c.ids, c.chunks)) == W.Seen(0, 0)
    ensures t == s.(writers := s.writers[0 := s.writers[0].(pc := W.ImportScan(c, S3, known, m + 1))])
  {
    hide Reachable, Ascii, W.IsValidBatch, W.CheckKnown, W.Emplace, WalEntries, ShortIds;
    t := ReadsIndex(schema, s, s.writers[0], c);
    t, known := ReadsTail(schema, t, s.writers[0], c, map[], 1, m);
    NothingKnown(known, c.ids, c.ids[0], Digest(c.ids, c.chunks));
  }

  /** The step of a writer that has found nothing: it sends its WAL. */
  lemma Decides(st: Store, w: W.Writer, c: W.Batch, known: map<Id, Entry>, m: nat)
    requires w.nextSlot == m + 1 < MAX_U64 && w.current == Some(S3) && |c.ids| == 1 && w.own == 1
    requires W.CheckKnown(known, c.ids, c.ids[0], Digest(c.ids, c.chunks)) == W.Seen(0, 0)
    ensures W.Next(0, st, w.(pc := W.ImportScan(c, S3, known, m + 1)), W.Go) ==
      Some(Out(Issue(st, WriterId(0), 1, PutWal(W.AppendWal(c, 2, m + 1))),
               w.(pc := W.ImportWait(c, W.AppendWal(c, 2, m + 1), |st.requests|))))
  {
    hide W.CheckKnown, Ascii;
  }

  lemma ImportSends(schema: Schema, s: System, m: nat, v: W.Writer, c: W.Batch) returns (t: System, rid: nat)
    requires Filled(schema, s, m, v) && W.IsValidBatch(c, schema) && |c.ids| == 1 && |c.ids[0]| == m + 1 &&
      m + 1 < MAX_U64
    ensures Reachable(schema, t) && rid in t.store.landed
    ensures t.store == s.store.(slots := s.store.slots[m + 1 := W.AppendWal(c, 2, m + 1)],
                                creator := t.store.creator, requests := t.store.requests, landed := t.store.landed)
    ensures forall i :: i in t.store.landed ==> i < |t.store.requests|
    ensures s.store.landed <= t.store.landed
    ensures t.writers == s.writers[0 := s.writers[0].(pc := W.ImportWait(c, W.AppendWal(c, 2, m + 1), rid))]
  {
    hide Reachable, Ascii, W.IsValidBatch, W.CheckKnown, W.Next, ShortIds;
    var w, wal := s.writers[0], W.AppendWal(c, 2, m + 1);
    var known;
    t, known := ImportReads(schema, s, m, v, c);
    rid := |t.store.requests|;
    Decides(t.store, w, c, known, m);
    t := SendAndLand(schema, t, 0, 1, PutWal(wal), w.(pc := W.ImportWait(c, wal, rid)));
  }

  /** Writer 0 appends one more batch under the epoch it has borrowed. */
  lemma Appends(schema: Schema, s: System, m: nat, v: W.Writer, chunk: Chunk) returns (t: System)
    requires Filled(schema, s, m, v) && AllFull([chunk], schema) && m + 1 < MAX_U64
    ensures Filled(schema, t, m + 1, v)
  {
    hide Reachable, Ascii, W.Decimal, W.IsValidBatch, AllFull;
    var c := Single(m + 1, chunk, false);
    SingleIsValid(schema, m + 1, chunk, false);
    var rid, w := 0, s.writers[0];
    t, rid := ImportSends(schema, s, m, v, c);
    var done := W.FinishImport(t.store, w.(nextSlot := m + 2), W.Durable, m + 1, Some(W.Ack(c, m + 1, false))).value;
    t := DoWriter(schema, t, 0, W.Got(Applied), done);
  }

  ghost predicate Acquiring(v: W.Writer) {
    v.pc.AcquireWait? && v == Idle0().(pc := W.AcquireWait(S2, S3, 0, v.pc.rid))
  }

  lemma TwoShort(b: W.Batch)
    requires b.ids == [Name(2)]
    ensures var slots := map[1 := W.FenceWal(1, 1), 2 := Wal1(b)];
      (forall k: nat :: k in slots <==> 1 <= k <= 2) && (forall k :: k in slots ==> ShortIds(slots[k].ids, 2))
  {
    hide Ascii, W.Decimal;
  }

  lemma TwoFilled(schema: Schema, chunk: Chunk) returns (s: System, v: W.Writer)
    requires AllFull([chunk], schema)
    ensures Filled(schema, s, 2, v) && Acquiring(v)
  {
    var b := Single(2, chunk, true);
    SingleIsValid(schema, 2, chunk, true);
    hide Reachable, Ascii, W.Decimal, W.IsValidBatch, AllFull, ShortIds, W.FenceWal;
    var rid;
    s, rid := OldAdopts(schema, b);
    v := s.writers[1];
    TwoShort(b);
  }

  lemma {:induction false} AppendsUpTo(schema: Schema, m: nat, chunk: Chunk) returns (s: System, v: W.Writer)
    requires 2 <= m < MAX_U64 && AllFull([chunk], schema)
    ensures Filled(schema, s, m, v) && Acquiring(v)
  {
    hide AllFull, Filled, Acquiring;
    if m == 2 {
      s, v := TwoFilled(schema, chunk);
    } else {
      s, v := AppendsUpTo(schema, m - 1, chunk);
      s := Appends(schema, s, m - 1, v, chunk);
    }
  }

  /** Writer 1 goes round once for every full slot. */
  lemma {:induction false} Scans(schema: Schema, s: System, m: nat, slot: nat) returns (t: System)
    requires 1 <= slot <= m + 1
    requires Filled(schema, s, m, Idle0().(rounds := slot - 1, pc := W.ScanCheck(S3, slot)))
    ensures Filled(schema, t, m, Idle0().(rounds := m, pc := W.ScanCheck(S3, m + 1)))
    decreases m + 1 - slot
  {
    hide Reachable, Ascii, W.Decimal, ShortIds;
    t := s;
    if slot <= m {
      t := DoWriter(schema, t, 1, W.Go, Out(t.store, Idle0().(rounds := slot, pc := W.ScanProbe(S3, slot))));
      t := DoWriter(schema, t, 1, W.Go, Out(t.store, Idle0().(rounds := slot, pc := W.ScanCheck(S3, slot + 1))));
      t := Scans(schema, t, m, slot + 1);
    }
  }

  /**
   For every number m of rounds there is a run in which writer 1 installs epoch 2 over a log of two entries, the
   older writer adopts that epoch, and writer 1 is still scanning after m rounds.
  */
  lemma ScanOutlastsAnyBound(schema: Schema, chunk: Chunk, m: nat)
    requires 2 <= m < MAX_U64 && AllFull([chunk], schema)
    ensures exists events ::
      && Run(schema, events).Some? && 1 in Run(schema, events).value.writers
      && Run(schema, events).value.writers[1].pc == W.ScanCheck(S3, m + 1)
      && Run(schema, events).value.writers[1].rounds == m
      && 2 in Run(schema, events).value.store.lenAt && Run(schema, events).value.store.lenAt[2] == 2
  {
    hide Run, Ascii, W.Decimal, ShortIds, AllFull;
    var s, v := AppendsUpTo(schema, m, chunk);
    s := DoWriter(schema, s, 1, W.Got(Applied), Out(s.store, Idle0().(pc := W.ScanCheck(S3, 1))));
    s := Scans(schema, s, m, 1);
    var events :| Run(schema, events) == Some(s);
  }
}
