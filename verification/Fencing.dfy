/** Epochs and fences: what the log's order of epochs depends on. */
module Fencing {
  import opened Table
  import opened Store
  import opened Writer
  import opened Invariant

  // ------------------------------------------------------------ the grammar

  /** Entry k continues the log rightly: a Fence opens a higher epoch, an Append continues the present one. */
  ghost predicate Follows(slots: map<nat, Wal>, k: nat)
    requires k in slots
  {
    match slots[k].kind
    case Fence => k == 1 || (k - 1 in slots && slots[k - 1].epoch < slots[k].epoch)
    case Append => k > 1 && k - 1 in slots && slots[k - 1].epoch == slots[k].epoch
  }

  /** The log reads Fence(e1) Append(e1)* Fence(e2) Append(e2)* ... with e1 < e2 < ... */
  ghost predicate Grammar(slots: map<nat, Wal>) {
    forall k {:trigger Follows(slots, k)} :: k in slots ==> Follows(slots, k)
  }

  lemma {:induction false} EpochsAscend(slots: map<nat, Wal>, j: nat, k: nat)
    requires Contiguous(slots) && Grammar(slots) && j in slots && k in slots && j <= k
    ensures slots[j].epoch <= slots[k].epoch
    ensures j < k && slots[k].kind == Fence ==> slots[j].epoch < slots[k].epoch
    decreases k
  {
    if j < k {
      assert Follows(slots, k);
      assert k - 1 in slots;
      EpochsAscend(slots, j, k - 1);
    }
  }

  /** One fence per epoch, and nothing of an older epoch after it. */
  lemma FenceSeparates(slots: map<nat, Wal>, f: nat)
    requires Contiguous(slots) && Grammar(slots) && f in slots && slots[f].kind == Fence
    ensures forall k :: k in slots && k > f ==> slots[k].epoch >= slots[f].epoch
    ensures forall k :: k in slots && k < f ==> slots[k].epoch < slots[f].epoch
    ensures forall k :: k in slots && k != f && slots[k].kind == Fence ==> slots[k].epoch != slots[f].epoch
  {
    forall k | k in slots && k != f
      ensures k > f ==> slots[k].epoch >= slots[f].epoch
      ensures k < f ==> slots[k].epoch < slots[f].epoch
      ensures slots[k].kind == Fence ==> slots[k].epoch != slots[f].epoch
    {
      if k < f {
        EpochsAscend(slots, k, f);
      } else {
        EpochsAscend(slots, f, k);
      }
    }
  }

  // ------------------------------------------------- what every run keeps

  ghost predicate IsBump(op: Op) {
    op.Cas? && op.next.epoch > op.expected.epoch
  }

  ghost predicate EpochsOk(st: Store) {
    && (forall e: nat :: e in st.owner <==> 1 <= e <= CurrentEpoch(st))
    && (forall e :: e in st.lenAt <==> e in st.owner)
    && (forall i :: i in st.landed ==> i < |st.requests|)
    && (forall i :: i in st.landed && IsBump(st.requests[i].op) ==>
          st.requests[i].op.next.epoch in st.owner && st.owner[st.requests[i].op.next.epoch] == st.requests[i].from)
  }

  ghost predicate CreatorOk(st: Store, k: nat)
    requires k in st.slots
  {
    && k in st.creator && st.creator[k] in st.landed && st.creator[k] < |st.requests|
    && st.requests[st.creator[k]].op == PutWal(st.slots[k])
  }

  ghost predicate CreatorsOk(st: Store) {
    && (forall k {:trigger CreatorOk(st, k)} :: k in st.slots ==> CreatorOk(st, k))
    && (forall k :: k in st.creator ==> k in st.slots)
  }

  /** Slot f holds the fence of epoch `own`, and only appends follow it up to `slot`. */
  ghost predicate FenceRun(slots: map<nat, Wal>, own: nat, f: nat, slot: nat) {
    && f < slot && f in slots && slots[f].kind == Fence && slots[f].epoch == own
    && (forall k :: f < k < slot ==> k in slots && slots[k].kind == Append)
  }

  /** When a newer epoch e was installed, the log was at most one entry short of `slot`. */
  ghost predicate Window(st: Store, epoch: nat, slot: nat) {
    forall e :: e in st.lenAt && e > epoch ==> slot <= st.lenAt[e] + 1
  }

  ghost predicate CreatedByOther(st: Store, k: nat, own: nat) {
    k in st.creator && st.creator[k] < |st.requests| && st.requests[st.creator[k]].own != own
  }

  ghost predicate FencePrior(st: Store, own: nat, slot: nat) {
    slot == 1 ||
    (&& slot - 1 in st.slots && st.slots[slot - 1].epoch <= own
     && (st.slots[slot - 1].epoch == own ==> CreatedByOther(st, slot - 1, own)))
  }

  ghost predicate WalRequestOk(st: Store, own: nat, w: Wal) {
    && 1 <= w.epoch <= CurrentEpoch(st)
    && own in st.owner
    && Window(st, w.epoch, w.slot)
    && (w.kind == Fence ==> w.epoch == own && FencePrior(st, own, w.slot))
    && (w.kind == Append ==> exists f: nat :: FenceRun(st.slots, own, f, w.slot))
  }

  ghost predicate RequestOk(st: Store, i: nat)
    requires i < |st.requests|
  {
    st.requests[i].op.PutWal? ==> WalRequestOk(st, st.requests[i].own, st.requests[i].op.wal)
  }

  ghost predicate StoreFence(st: Store) {
    && EpochsOk(st) && CreatorsOk(st)
    && (forall i {:trigger RequestOk(st, i)} :: 0 <= i < |st.requests| ==> RequestOk(st, i))
  }

  /** Entry k carries an epoch that the writer who created it had not acquired. */
  ghost predicate Borrowed(st: Store, k: int) {
    k in st.slots && k in st.creator && st.creator[k] < |st.requests| &&
    st.slots[k].epoch != st.requests[st.creator[k]].own
  }

  // ------------------------------------------- grammar iff nothing borrowed

  lemma NearestFence(slots: map<nat, Wal>, e: nat, d: nat, f: nat, g: nat, slot: nat, later: nat)
    requires FenceRun(slots, e, f, slot) && FenceRun(slots, d, g, later) && f < slot <= later && g < slot
    ensures f == g && e == d
  {
  }

  lemma {:induction false} RunHasOneEpoch(slots: map<nat, Wal>, own: nat, f: nat, k: nat)
    requires Grammar(slots) && FenceRun(slots, own, f, k + 1) && k in slots
    ensures slots[k].epoch == own
    decreases k
  {
    if f < k {
      assert Follows(slots, k);
      RunHasOneEpoch(slots, own, f, k - 1);
    }
  }

  lemma CreatedBy(st: Store, k: nat)
    requires StoreFence(st) && k in st.slots
    ensures k in st.creator && st.creator[k] < |st.requests|
    ensures st.requests[st.creator[k]].op == PutWal(st.slots[k])
    ensures WalRequestOk(st, st.requests[st.creator[k]].own, st.slots[k])
  {
    hide WalRequestOk;
    assert CreatorOk(st, k);
    assert RequestOk(st, st.creator[k]);
  }

  lemma GrammarForbidsBorrowing(st: Store, k: nat)
    requires SlotsOk(st.slots) && StoreFence(st) && Grammar(st.slots) && k in st.slots
    ensures !Borrowed(st, k)
  {
    hide StoreFence, Grammar, ExactlyOnce, Contiguous, WalOk, Window;
    CreatedBy(st, k);
    var own := st.requests[st.creator[k]].own;
    assert st.slots[k].slot == k;
    if st.slots[k].kind == Append {
      var f: nat :| FenceRun(st.slots, own, f, k);
      RunHasOneEpoch(st.slots, own, f, k);
    }
  }

  lemma AppendFollows(st: Store, k: nat)
    requires SlotsOk(st.slots) && StoreFence(st) && k in st.slots && st.slots[k].kind == Append
    requires !Borrowed(st, k) && !Borrowed(st, k - 1)
    ensures Follows(st.slots, k)
  {
    hide StoreFence, ExactlyOnce, WalOk, Window, FencePrior;
    CreatedBy(st, k);
    assert st.slots[k].slot == k;
    var own := st.slots[k].epoch;
    var f: nat :| FenceRun(st.slots, own, f, k);
    if f < k - 1 {
      assert k - 1 in st.slots && st.slots[k - 1].kind == Append && st.slots[k - 1].slot == k - 1;
      CreatedBy(st, k - 1);
      var g: nat :| FenceRun(st.slots, st.slots[k - 1].epoch, g, k - 1);
      NearestFence(st.slots, st.slots[k - 1].epoch, own, g, f, k - 1, k);
    }
  }

  lemma FenceFollows(st: Store, k: nat)
    requires SlotsOk(st.slots) && StoreFence(st) && k in st.slots && st.slots[k].kind == Fence
    requires !Borrowed(st, k) && !Borrowed(st, k - 1)
    ensures Follows(st.slots, k)
  {
    hide StoreFence, ExactlyOnce, Contiguous, WalOk, Window;
    CreatedBy(st, k);
    assert st.slots[k].slot == k;
    if k > 1 && k - 1 in st.slots {
      CreatedBy(st, k - 1);
    }
  }

  /** The fencing grammar holds exactly when no entry carries a borrowed epoch. */
  lemma GrammarIffNothingBorrowed(st: Store)
    requires SlotsOk(st.slots) && StoreFence(st)
    ensures Grammar(st.slots) <==> forall k :: k in st.slots ==> !Borrowed(st, k)
  {
    hide SlotsOk, StoreFence;
    if Grammar(st.slots) {
      forall k | k in st.slots
        ensures !Borrowed(st, k)
      {
        GrammarForbidsBorrowing(st, k);
      }
    }
    if forall k :: k in st.slots ==> !Borrowed(st, k) {
      forall k | k in st.slots
        ensures Follows(st.slots, k)
      {
        if st.slots[k].kind == Append {
          AppendFollows(st, k);
        } else {
          FenceFollows(st, k);
        }
      }
    }
  }

  /** After epoch e was installed at log length n, at most slot n+1 still goes to a smaller epoch. */
  lemma AtMostOneLateEntry(st: Store, e: nat, k: nat)
    requires SlotsOk(st.slots) && StoreFence(st) && e in st.lenAt && k in st.slots && k > st.lenAt[e] + 1
    ensures st.slots[k].epoch >= e
  {
    CreatedBy(st, k);
  }

  // --------------------------------------------------------------- growth

  ghost predicate FenceExt(a: Store, b: Store) {
    && Ext(a, b)
    && SubMap(a.creator, b.creator) && SubMap(a.owner, b.owner) && SubMap(a.lenAt, b.lenAt)
    && CurrentEpoch(a) <= CurrentEpoch(b)
    && (forall e :: e in b.lenAt && e !in a.lenAt ==> b.lenAt[e] >= |a.slots|)
  }

  lemma WindowGrows(a: Store, b: Store, epoch: nat, slot: nat)
    requires FenceExt(a, b) && Window(a, epoch, slot) && slot <= |a.slots| + 1
    ensures Window(b, epoch, slot)
  {
    forall e | e in b.lenAt && e > epoch
      ensures slot <= b.lenAt[e] + 1
    {
      if e in a.lenAt {
        assert b.lenAt[e] == a.lenAt[e];
      }
    }
  }

  lemma FenceRunGrows(a: Store, b: Store, own: nat, f: nat, slot: nat)
    requires Ext(a, b) && FenceRun(a.slots, own, f, slot)
    ensures FenceRun(b.slots, own, f, slot)
  {
    forall k | f < k < slot
      ensures k in b.slots && b.slots[k].kind == Append
    {
      assert k in a.slots;
    }
  }

  lemma WalRequestGrows(a: Store, b: Store, own: nat, w: Wal)
    requires FenceExt(a, b) && WalRequestOk(a, own, w) && w.slot <= |a.slots| + 1
    ensures WalRequestOk(b, own, w)
  {
    hide Ext, FenceRun;
    WindowGrows(a, b, w.epoch, w.slot);
    if w.kind == Append {
      var f: nat :| FenceRun(a.slots, own, f, w.slot);
      FenceRunGrows(a, b, own, f, w.slot);
    } else if w.slot != 1 {
      PriorGrows(a, b, own, w.slot);
    }
  }

  lemma PriorGrows(a: Store, b: Store, own: nat, slot: nat)
    requires FenceExt(a, b) && FencePrior(a, own, slot)
    ensures FencePrior(b, own, slot)
  {
  }

  lemma RequestsKeepFence(a: Store, b: Store)
    requires StoreInv(a) && StoreFence(a) && FenceExt(a, b)
    ensures forall i {:trigger RequestOk(b, i)} :: 0 <= i < |a.requests| ==> RequestOk(b, i)
  {
    hide GoodManifest, HistoryOk, ExactlyOnce, WalRequestOk, EpochsOk, CreatorsOk, WalOk;
    forall i | 0 <= i < |a.requests|
      ensures RequestOk(b, i)
    {
      assert a.requests[i] == b.requests[i];
      assert RequestOk(a, i);
      if a.requests[i].op.PutWal? {
        assert OpOk(a, a.requests[i].op);
        WalRequestGrows(a, b, a.requests[i].own, a.requests[i].op.wal);
      }
    }
  }

  lemma CreatorsKeep(a: Store, b: Store)
    requires CreatorsOk(a) && a.slots == b.slots && a.creator == b.creator
    requires a.requests <= b.requests && a.landed <= b.landed
    ensures CreatorsOk(b)
  {
    forall k | k in b.slots
      ensures CreatorOk(b, k)
    {
      assert CreatorOk(a, k);
    }
  }

  // ---------------------------------------------------- the store's changes

  lemma IssueFence(a: Store, from: Actor, own: nat, op: Op)
    requires StoreInv(a) && StoreFence(a)
    requires op.PutWal? ==> WalRequestOk(a, own, op.wal) && op.wal.slot <= |a.slots| + 1
    ensures StoreFence(Issue(a, from, own, op)) && FenceExt(a, Issue(a, from, own, op))
  {
    hide StoreInv, WalRequestOk, CreatorsOk;
    var b := Issue(a, from, own, op);
    CreatorsKeep(a, b);
    RequestsKeepFence(a, b);
    if op.PutWal? {
      WalRequestGrows(a, b, own, op.wal);
    }
    assert RequestOk(b, |a.requests|);
  }

  lemma AddFileFence(a: Store, path: Key, rows: seq<Row>)
    requires StoreInv(a) && StoreFence(a) && path !in a.files
    ensures StoreFence(AddFile(a, path, rows)) && FenceExt(a, AddFile(a, path, rows))
  {
    hide StoreInv, WalRequestOk, CreatorsOk;
    CreatorsKeep(a, AddFile(a, path, rows));
    RequestsKeepFence(a, AddFile(a, path, rows));
  }

  lemma LandWalFence(a: Store, rid: nat, w: Wal)
    requires StoreInv(a) && StoreFence(a) && CanLand(a, rid) && a.requests[rid].op == PutWal(w)
    ensures StoreFence(LandWal(a, rid, w)) && FenceExt(a, LandWal(a, rid, w))
  {
    hide StoreInv, WalRequestOk, Ext, RequestOk;
    var b := LandWal(a, rid, w);
    LandWalKeeps(a, rid, w);
    assert w.slot !in a.creator;
    assert FenceExt(a, b);
    RequestsKeepFence(a, b);
    forall k | k in b.slots
      ensures CreatorOk(b, k)
    {
      if k != w.slot {
        assert CreatorOk(a, k);
      }
    }
  }

  lemma LandEpochOk(a: Store, rid: nat, n: State)
    requires EpochsOk(a) && rid < |a.requests| && IsBump(a.requests[rid].op) && a.requests[rid].op.next == n
    requires n.epoch == CurrentEpoch(a) + 1
    ensures EpochsOk(LandEpoch(a, rid, n, a.requests[rid].from))
    ensures SubMap(a.owner, LandEpoch(a, rid, n, a.requests[rid].from).owner)
    ensures SubMap(a.lenAt, LandEpoch(a, rid, n, a.requests[rid].from).lenAt)
  {
    var b := LandEpoch(a, rid, n, a.requests[rid].from);
    assert CurrentEpoch(b) == n.epoch && n.epoch !in a.owner;
    hide CurrentEpoch;
    forall i | i in b.landed && IsBump(b.requests[i].op)
      ensures b.requests[i].op.next.epoch in b.owner && b.owner[b.requests[i].op.next.epoch] == b.requests[i].from
    {
      if i != rid {
        assert a.requests[i].op.next.epoch in a.owner;
      }
    }
  }

  lemma LandEpochFence(a: Store, rid: nat, e: State, n: State)
    requires StoreInv(a) && StoreFence(a) && CanLand(a, rid) && a.requests[rid].op == Cas(e, n) && n.epoch > e.epoch
    ensures StoreFence(LandEpoch(a, rid, n, a.requests[rid].from))
    ensures FenceExt(a, LandEpoch(a, rid, n, a.requests[rid].from))
  {
    hide StoreInv, WalRequestOk, Ext, RequestOk, CreatorsOk, EpochsOk;
    var b := LandEpoch(a, rid, n, a.requests[rid].from);
    LandCasKeeps(a, rid, e, n);
    CasIsValid(a, rid);
    LandEpochOk(a, rid, n);
    CreatorsKeep(a, b);
    RequestsKeepFence(a, b);
  }

  lemma CasIsValid(a: Store, rid: nat)
    requires StoreInv(a) && rid < |a.requests| && a.requests[rid].op.Cas?
    ensures ValidTransition(a.requests[rid].op.expected, a.requests[rid].op.next)
  {
    hide GoodManifest, SlotsOk, HistoryOk;
    assert OpOk(a, a.requests[rid].op);
  }

  lemma LandStateFence(a: Store, rid: nat, n: State)
    requires StoreInv(a) && StoreFence(a) && CanLand(a, rid)
    requires a.requests[rid].op == PutCurrent(n) || (a.requests[rid].op.Cas? && a.requests[rid].op.next == n &&
      !IsBump(a.requests[rid].op))
    requires Ext(a, LandState(a, rid, n)) && CurrentEpoch(LandState(a, rid, n)) == CurrentEpoch(a)
    ensures StoreFence(LandState(a, rid, n)) && FenceExt(a, LandState(a, rid, n))
  {
    hide StoreInv, WalRequestOk, Ext, RequestOk, CreatorsOk, CurrentEpoch;
    var b := LandState(a, rid, n);
    assert FenceExt(a, b);
    CreatorsKeep(a, b);
    RequestsKeepFence(a, b);
  }

  lemma LandCurrentFence(a: Store, rid: nat, n: State)
    requires StoreInv(a) && StoreFence(a) && CanLand(a, rid) && a.requests[rid].op == PutCurrent(n)
    ensures StoreFence(LandState(a, rid, n)) && FenceExt(a, LandState(a, rid, n))
  {
    LandCurrentKeeps(a, rid, n);
    assert n.epoch == 0 by { assert OpOk(a, PutCurrent(n)); }
    hide StoreInv, StoreFence, FenceExt, Ext;
    LandStateFence(a, rid, n);
  }

  lemma LandCasFence(a: Store, rid: nat, e: State, n: State)
    requires StoreInv(a) && StoreFence(a) && CanLand(a, rid) && a.requests[rid].op == Cas(e, n) && n.epoch <= e.epoch
    ensures StoreFence(LandState(a, rid, n)) && FenceExt(a, LandState(a, rid, n))
  {
    hide StoreInv, StoreFence, FenceExt, Ext;
    LandCasKeeps(a, rid, e, n);
    CasIsValid(a, rid);
    LandStateFence(a, rid, n);
  }

  lemma LandObjectFence(a: Store, b: Store, rid: nat)
    requires StoreInv(a) && StoreFence(a) && rid < |a.requests| && !IsBump(a.requests[rid].op) && Ext(a, b)
    requires b.slots == a.slots && b.creator == a.creator && b.history == a.history
    requires b.owner == a.owner && b.lenAt == a.lenAt
    requires b.requests == a.requests && b.landed == a.landed + {rid}
    ensures StoreFence(b) && FenceExt(a, b)
  {
    hide StoreInv, WalRequestOk, Ext, RequestOk, CreatorsOk;
    assert FenceExt(a, b);
    CreatorsKeep(a, b);
    RequestsKeepFence(a, b);
  }

  lemma LandFence(a: Store, rid: nat)
    requires StoreInv(a) && StoreFence(a) && CanLand(a, rid)
    ensures StoreFence(Land(a, rid)) && FenceExt(a, Land(a, rid))
  {
    hide StoreInv, StoreFence, FenceExt, Ext;
    LandKeeps(a, rid);
    match a.requests[rid].op
    case PutWal(w) => LandWalFence(a, rid, w);
    case PutCurrent(s) => LandCurrentFence(a, rid, s);
    case Cas(e, n) => if n.epoch > e.epoch { LandEpochFence(a, rid, e, n); } else { LandCasFence(a, rid, e, n); }
    case PutManifest(_, _) => LandObjectFence(a, Land(a, rid), rid);
    case PutIndex(_, _) => LandObjectFence(a, Land(a, rid), rid);
  }
}
