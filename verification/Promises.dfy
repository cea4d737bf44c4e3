/** What the design promises, proved of every run of the system. */
module Promises {
  import opened Table
  import opened Store
  import opened Invariant
  import opened System
  import W = Writer
  import R = Reader
  import WS = WriterSafety
  import XS = IndexerSafety
  import RS = ReaderSafety
  import SS = SystemSafety

  lemma {:induction false} LogRowsPrefix(slots: map<nat, Wal>, m: nat, n: nat)
    requires m <= n
    ensures LogRows(slots, m) <= LogRows(slots, n)
    decreases n
  {
    if m < n {
      LogRowsPrefix(slots, m, n - 1);
    }
  }

  /** Existing WAL numbers are 1..n, watermarks are ordered and never move back. */
  lemma WatermarksHold(schema: Schema, events: seq<Event>)
    requires Run(schema, events).Some?
    ensures var st := Run(schema, events).value.store;
      && Contiguous(st.slots)
      && (forall i :: 0 <= i < |st.history| ==>
            && st.history[i].version == i
            && st.history[i].indexed <= st.history[i].published <= |st.slots|)
      && (forall i, j :: 0 <= i <= j < |st.history| ==> NotBefore(st.history[i], st.history[j]))
  {
    hide Run;
    SS.Safety(schema, events);
  }

  /** The hard errors of the protocol cannot happen: bad transition, missing manifest, index or WAL. */
  lemma HardErrorsUnreachable(schema: Schema, events: seq<Event>)
    requires Run(schema, events).Some?
    ensures var s := Run(schema, events).value;
      && (forall i :: 0 <= i < |s.store.requests| && s.store.requests[i].op.Cas? ==>
            ValidTransition(s.store.requests[i].op.expected, s.store.requests[i].op.next))
      && (forall c :: c in s.store.history ==>
            && c.manifest in s.store.manifests && s.store.manifests[c.manifest].covered == c.indexed
            && (forall i :: 0 <= i < |s.store.manifests[c.manifest].indexKeys| ==>
                  s.store.manifests[c.manifest].indexKeys[i] in s.store.indexes))
      && (forall id :: id in s.readers ==> s.readers[id] != R.Failed)
      && (forall id :: id in s.writers && s.writers[id].pc.ImportScan? ==>
            s.writers[id].pc.slot < s.writers[id].nextSlot ==> s.writers[id].pc.slot in s.store.slots)
  {
    hide Run, KnownExact, FilesOk, EntriesExact, ExactlyOnce;
    SS.Safety(schema, events);
    var s := Run(schema, events).value;
    forall i | 0 <= i < |s.store.requests| && s.store.requests[i].op.Cas?
      ensures ValidTransition(s.store.requests[i].op.expected, s.store.requests[i].op.next)
    {
      assert OpOk(s.store, s.store.requests[i].op);
    }
    forall c | c in s.store.history
      ensures c.manifest in s.store.manifests && s.store.manifests[c.manifest].covered == c.indexed
      ensures forall i :: 0 <= i < |s.store.manifests[c.manifest].indexKeys| ==>
                s.store.manifests[c.manifest].indexKeys[i] in s.store.indexes
    {
      WS.ManifestMatches(s.store, c);
    }
    forall id | id in s.writers && s.writers[id].pc.ImportScan? && s.writers[id].pc.slot < s.writers[id].nextSlot
      ensures s.writers[id].pc.slot in s.store.slots
    {
      assert WS.WriterInv(s.store, s.writers[id]);
    }
  }

  /**
   A create lands only when the log is exactly the prefix its writer has read and checked: its slot is the first
   free one, and every id of the log was compared with its own.
  */
  lemma LandingSeesWholeLog(schema: Schema, events: seq<Event>, rid: nat)
    requires Run(schema, events).Some?
    requires var st := Run(schema, events).value.store; CanLand(st, rid) && st.requests[rid].op.PutWal?
    ensures var st := Run(schema, events).value.store;
      var w := st.requests[rid].op.wal;
      && w.slot == |st.slots| + 1 && ChecksPrefix(st.slots, w)
      && (forall k :: k in st.slots ==> k < w.slot && Disjoint(st.slots[k].ids, w.ids))
  {
    hide Run, GoodManifest, HistoryOk;
    SS.Safety(schema, events);
    var st := Run(schema, events).value.store;
    assert OpOk(st, st.requests[rid].op);
    LandingSlot(st.slots, st.requests[rid].op.wal);
  }

  /**
   Exactly-once import: no id is in two entries, and an id that was answered for is in the answered
   slot alone, which holds the very batch of that answer.
  */
  lemma ImportedExactlyOnce(schema: Schema, events: seq<Event>)
    requires Run(schema, events).Some?
    ensures var s := Run(schema, events).value;
      && ExactlyOnce(s.store.slots)
      && (forall a, k, id :: a in s.acks && k in s.store.slots && id in a.batch.ids && id in s.store.slots[k].ids ==>
            k == a.slot && s.store.slots[k].ids == a.batch.ids && s.store.slots[k].chunks == a.batch.chunks)
  {
    hide Run, GoodManifest, HistoryOk, RequestsOk, WalOk, Contiguous;
    SS.Safety(schema, events);
    var s := Run(schema, events).value;
    forall a, k, id | a in s.acks && k in s.store.slots && id in a.batch.ids && id in s.store.slots[k].ids
      ensures k == a.slot && s.store.slots[k].ids == a.batch.ids && s.store.slots[k].chunks == a.batch.chunks
    {
      assert WS.AckOk(s.store, a);
      XS.IdInOneSlot(s.store.slots, k, a.slot, id);
    }
  }

  /**
   A snapshot, scanned at any later time, yields the Append rows of a prefix of the log, in order. The prefix ends at
   most `limit` entries past what CURRENT published.
  */
  lemma SnapshotIsLogPrefix(schema: Schema, events: seq<Event>, n: R.Snapshot)
    requires Run(schema, events).Some? && n in Run(schema, events).value.snapshots
    ensures var st := Run(schema, events).value.store;
      && n.state.published + n.probed <= |st.slots|
      && n.probed <= n.limit && (n.limitReached <==> n.limit > 0 && n.probed == n.limit)
      && R.ScanRows(st, n) == LogRows(st.slots, n.state.published + n.probed)
      && |n.walSlots| == n.state.published + n.probed - n.state.indexed
      && (forall i :: 0 <= i < |n.walSlots| ==> n.walSlots[i] == n.state.indexed + 1 + i)
  {
    hide Run, StoreInv, SS.ActorsOk, LogRows;
    SS.Safety(schema, events);
    var s := Run(schema, events).value;
    assert RS.SnapOk(s.store, n);
    RS.SnapshotRows(s.store, n);
  }

  /** Of two strict snapshots the one with the older CURRENT is a prefix of the other. */
  lemma StrictSnapshotsExtend(schema: Schema, events: seq<Event>, n: R.Snapshot, m: R.Snapshot)
    requires Run(schema, events).Some?
    requires n in Run(schema, events).value.snapshots && m in Run(schema, events).value.snapshots
    requires n.probed == 0 && m.probed == 0 && n.state.version <= m.state.version
    ensures var st := Run(schema, events).value.store; R.ScanRows(st, n) <= R.ScanRows(st, m)
  {
    hide Run, R.ScanRows, LogRows, GoodManifest, RequestsOk, SlotsOk, SS.ActorsOk;
    SS.Safety(schema, events);
    SnapshotIsLogPrefix(schema, events, n);
    SnapshotIsLogPrefix(schema, events, m);
    var s := Run(schema, events).value;
    assert RS.SnapOk(s.store, n) && RS.SnapOk(s.store, m);
    var i :| 0 <= i < |s.store.history| && s.store.history[i] == n.state;
    var j :| 0 <= j < |s.store.history| && s.store.history[j] == m.state;
    assert s.store.history[i].version == i && s.store.history[j].version == j;
    assert NotBefore(s.store.history[i], s.store.history[j]);
    LogRowsPrefix(s.store.slots, n.state.published, m.state.published);
  }

  /**
   Commit means visible: a batch answered Committed or AlreadyCommitted before a reader read CURRENT is
   in that reader's snapshot, as the contiguous rows of its own slot.
  */
  lemma CommitIsVisible(schema: Schema, events: seq<Event>, n: R.Snapshot, a: W.Ack)
    requires Run(schema, events).Some? && n in Run(schema, events).value.snapshots
    requires a in n.acked && a.visible
    ensures var st := Run(schema, events).value.store;
      && 1 <= a.slot <= n.state.published
      && LogRows(st.slots, a.slot - 1) + ConcatRows(a.batch.chunks) <= R.ScanRows(st, n)
  {
    hide Run, R.ScanRows, FilesOk, GoodManifest, RequestsOk, HistoryOk, ExactlyOnce, SS.ActorsOk, ConcatRows;
    SS.Safety(schema, events);
    SnapshotIsLogPrefix(schema, events, n);
    var s := Run(schema, events).value;
    assert RS.SnapOk(s.store, n);
    assert WS.Stored(s.store, a.batch, a.slot);
    LogRowsPrefix(s.store.slots, a.slot, n.state.published + n.probed);
  }

  /** An answer, once given, stays true: a later CURRENT still publishes it and the slot still holds it. */
  lemma AnswersStayTrue(schema: Schema, first: seq<Event>, rest: seq<Event>, a: W.Ack)
    requires Run(schema, first + rest).Some?
    requires Run(schema, first).Some? && a in Run(schema, first).value.acks
    ensures var st := Run(schema, first + rest).value.store;
      && WS.Stored(st, a.batch, a.slot)
      && (a.visible ==> HasCurrent(st) && a.slot <= Current(st).published)
  {
    hide Run, StoreInv, SS.ActorsOk, Ext;
    SS.RunGrows(schema, first, rest);
    SS.Safety(schema, first + rest);
    assert WS.AckOk(Run(schema, first + rest).value.store, a);
  }

  function SumRows(files: seq<DataFile>): nat {
    if files == [] then 0 else SumRows(files[..|files| - 1]) + files[|files| - 1].rows
  }

  lemma {:induction false} SumRowsCounts(st: Store, covered: nat, files: seq<DataFile>)
    requires forall i :: 0 <= i < |files| ==> FileOk(st.files, covered, files[i])
    ensures SumRows(files) == |FileRows(st.files, files)|
  {
    if files != [] {
      SumRowsCounts(st, covered, files[..|files| - 1]);
      assert FileOk(st.files, covered, files[|files| - 1]);
    }
  }

  /**
   Indexer conservation: every manifest ever stored lists ascending disjoint file ranges within its
   prefix, whose rows and row counts are that prefix's, and dedup entries that are exactly that prefix's.
  */
  lemma ManifestsConserve(schema: Schema, events: seq<Event>, key: Key)
    requires Run(schema, events).Some? && key in Run(schema, events).value.store.manifests
    ensures var st := Run(schema, events).value.store;
      var m := st.manifests[key];
      && m.covered <= |st.slots|
      && FileRows(st.files, m.files) == LogRows(st.slots, m.covered)
      && SumRows(m.files) == |LogRows(st.slots, m.covered)|
      && (forall i :: 0 <= i < |m.files| ==>
            1 <= m.files[i].first <= m.files[i].last <= m.covered && m.files[i].path != [] && m.files[i].rows != 0)
      && (forall i, j :: 0 <= i < j < |m.files| ==> m.files[i].last < m.files[j].first)
      && EntriesExact(st.slots, m.covered, IndexEntries(st.indexes, m.indexKeys))
  {
    hide Run, RequestsOk, HistoryOk, SlotsOk, SS.ActorsOk, EntriesExact, LogRows;
    SS.Safety(schema, events);
    var st := Run(schema, events).value.store;
    var m := st.manifests[key];
    assert GoodManifest(st, m);
    forall i | 0 <= i < |m.files|
      ensures 1 <= m.files[i].first <= m.files[i].last <= m.covered && m.files[i].path != [] && m.files[i].rows != 0
    {
      assert FileOk(st.files, m.covered, m.files[i]);
    }
    SumRowsCounts(st, m.covered, m.files);
  }
}
