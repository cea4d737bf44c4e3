/** What a writer finds when it looks a batch up in the log: the batch as a whole, a conflict, or nothing. */
module BatchLookup {
  import opened Table
  import opened Store
  import opened Writer
  import opened Invariant
  import WS = WriterSafety
  import XS = IndexerSafety

  /** The entry shares an id with the batch without being the batch. */
  ghost predicate Conflict(w: Wal, b: Batch) {
    !Disjoint(w.ids, b.ids) && !(w.ids == b.ids && w.chunks == b.chunks)
  }

  ghost predicate Conflicts(slots: map<nat, Wal>, n: nat, b: Batch) {
    exists k :: k in slots && k <= n && Conflict(slots[k], b)
  }

  lemma {:induction false} AllAgree(known: map<Id, Entry>, ids: seq<Id>, op: Id, digest: Digest, s: nat)
    requires forall id :: id in ids && id in known ==>
      known[id].op == op && known[id].digest == digest && known[id].slot == s
    ensures var r := CheckKnown(known, ids, op, digest);
      r.Seen? && (r.prior == 0 || r.prior == s) && ((forall id :: id in ids ==> id in known) ==> r.already == |ids|)
  {
    if ids != [] {
      var init := ids[..|ids| - 1];
      AllAgree(known, init, op, digest, s);
      assert ids[|ids| - 1] in ids;
    }
  }

  lemma SharesId(w: Wal, b: Batch, id: Id)
    requires id in w.ids && id in b.ids
    ensures !Disjoint(w.ids, b.ids)
  {
    var i :| 0 <= i < |w.ids| && w.ids[i] == id;
    var j :| 0 <= j < |b.ids| && b.ids[j] == id;
  }

  lemma SharedId(w: Wal, b: Batch) returns (id: Id)
    requires !Disjoint(w.ids, b.ids)
    ensures id in w.ids && id in b.ids
  {
    var i, j :| 0 <= i < |w.ids| && 0 <= j < |b.ids| && w.ids[i] == b.ids[j];
    id := w.ids[i];
  }

  /** An id of the batch that is known, when nothing conflicts: its slot holds the whole batch. */
  lemma KnownIsWhole(slots: map<nat, Wal>, n: nat, known: map<Id, Entry>, b: Batch, id: Id)
    requires SlotsOk(slots) && KnownExact(slots, n, known) && b.ids != [] && !Conflicts(slots, n, b)
    requires id in b.ids && id in known
    ensures var k := known[id].slot;
      && 1 <= k <= n && k in slots && slots[k].ids == b.ids && slots[k].chunks == b.chunks && slots[k].kind == Append
      && known[id].op == b.ids[0] && known[id].digest == Digest(b.ids, b.chunks)
  {
    hide ExactlyOnce, Contiguous, Disjoint, Distinct;
    var k := known[id].slot;
    assert EntrySound(slots, n, known[id]);
    SharesId(slots[k], b, id);
    assert !Conflict(slots[k], b);
  }

  /** The lookup finds a conflict exactly when the prefix has one. */
  lemma MismatchExactly(slots: map<nat, Wal>, n: nat, known: map<Id, Entry>, b: Batch)
    requires SlotsOk(slots) && KnownExact(slots, n, known) && b.ids != []
    ensures CheckKnown(known, b.ids, b.ids[0], Digest(b.ids, b.chunks)).Mismatch? <==> Conflicts(slots, n, b)
  {
    hide CheckKnown, Contiguous, WalOk, Conflict, Disjoint, ExactlyOnce;
    var op, digest := b.ids[0], Digest(b.ids, b.chunks);
    if Conflicts(slots, n, b) {
      var k :| k in slots && k <= n && Conflict(slots[k], b);
      ConflictSeen(slots, n, known, b, k);
    } else if id :| id in b.ids && id in known {
      hide KnownExact, Conflicts;
      var s := known[id].slot;
      KnownIsWhole(slots, n, known, b, id);
      forall x | x in b.ids && x in known
        ensures known[x].op == op && known[x].digest == digest && known[x].slot == s
      {
        KnownIsWhole(slots, n, known, b, x);
        XS.IdInOneSlot(slots, known[x].slot, s, id);
      }
      AllAgree(known, b.ids, op, digest, s);
    } else {
      AllAgree(known, b.ids, op, digest, 0);
    }
  }

  lemma ConflictSeen(slots: map<nat, Wal>, n: nat, known: map<Id, Entry>, b: Batch, k: nat)
    requires SlotsOk(slots) && KnownExact(slots, n, known) && b.ids != []
    requires k in slots && k <= n && Conflict(slots[k], b)
    ensures CheckKnown(known, b.ids, b.ids[0], Digest(b.ids, b.chunks)).Mismatch?
  {
    hide CheckKnown, Contiguous, WalOk, Disjoint, ExactlyOnce;
    var id := SharedId(slots[k], b);
    assert id in known && EntrySound(slots, n, known[id]);
    XS.IdInOneSlot(slots, known[id].slot, k, id);
    WS.KnownSlots(slots, n, known);
    WS.CheckKnownMeaning(known, b.ids, b.ids[0], Digest(b.ids, b.chunks));
  }

  /** Without a conflict the batch is in the prefix as a whole, in the slot reported, or none of its ids is. */
  lemma SeenExactly(st: Store, n: nat, known: map<Id, Entry>, b: Batch)
    requires SlotsOk(st.slots) && KnownExact(st.slots, n, known) && b.ids != [] && !Conflicts(st.slots, n, b)
    ensures var r := CheckKnown(known, b.ids, b.ids[0], Digest(b.ids, b.chunks));
      || (r == Seen(0, 0) && forall k :: k in st.slots && k <= n ==> Disjoint(st.slots[k].ids, b.ids))
      || (r.Seen? && r.already == |b.ids| && 1 <= r.prior <= n && WS.Stored(st, b, r.prior))
  {
    hide CheckKnown, Contiguous, WalOk, Conflict, Disjoint, ExactlyOnce, Conflicts;
    var op, digest := b.ids[0], Digest(b.ids, b.chunks);
    MismatchExactly(st.slots, n, known, b);
    WS.KnownSlots(st.slots, n, known);
    WS.CheckKnownMeaning(known, b.ids, op, digest);
    var r := CheckKnown(known, b.ids, op, digest);
    if id :| id in b.ids && id in known {
      KnownIsWhole(st.slots, n, known, b, id);
      var s := known[id].slot;
      forall x | x in b.ids
        ensures x in known && known[x].op == op && known[x].digest == digest && known[x].slot == s
      {
        assert x in known;
        KnownIsWhole(st.slots, n, known, b, x);
      }
      AllAgree(known, b.ids, op, digest, s);
    } else {
      assert b.ids[0] in b.ids;
      AllAgree(known, b.ids, op, digest, 0);
      NoneShared(st.slots, n, known, b);
      NoneSeen(known, b.ids, op, digest);
    }
  }

  lemma {:induction false} NoneSeen(known: map<Id, Entry>, ids: seq<Id>, op: Id, digest: Digest)
    requires forall id :: id in ids ==> id !in known
    ensures CheckKnown(known, ids, op, digest) == Seen(0, 0)
  {
    if ids != [] {
      NoneSeen(known, ids[..|ids| - 1], op, digest);
      assert ids[|ids| - 1] in ids;
    }
  }

  lemma NoneShared(slots: map<nat, Wal>, n: nat, known: map<Id, Entry>, b: Batch)
    requires KnownExact(slots, n, known) && forall id :: id in b.ids ==> id !in known
    ensures forall k :: k in slots && k <= n ==> Disjoint(slots[k].ids, b.ids)
  {
    forall k | k in slots && k <= n
      ensures Disjoint(slots[k].ids, b.ids)
    {
      forall i, j | 0 <= i < |slots[k].ids| && 0 <= j < |b.ids|
        ensures slots[k].ids[i] != b.ids[j]
      {
        assert slots[k].ids[i] in known;
        assert b.ids[j] in b.ids;
      }
    }
  }
}
