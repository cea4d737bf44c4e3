/**
 * Calls end: whatever the other actors do and whichever replies are lost, an indexing pass, an Import and the
 * acquisition of an epoch each take a bounded number of their own steps.
 */
module CallBounds {
  import opened Table
  import opened Store
  import opened System
  import W = Writer
  import X = Indexer

  // ---------------------------------------------------------- one index key

  predicate OneKey(m: Manifest) {
    |m.indexKeys| <= 1
  }

  /** No manifest lists more than one dedup index, stored or on its way. */
  ghost predicate Small(st: Store) {
    && (forall k :: k in st.manifests ==> OneKey(st.manifests[k]))
    && (forall i :: 0 <= i < |st.requests| && st.requests[i].op.PutManifest? ==> OneKey(st.requests[i].op.manifest))
  }

  lemma LandSmall(st: Store, rid: nat)
    requires Small(st) && CanLand(st, rid)
    ensures Small(Land(st, rid))
  {
    hide OneKey, Small;
    match st.requests[rid].op
    case PutManifest(k, m) => ManifestSmall(st, rid, k, m);
    case PutWal(w) => SmallFiles(st, LandWal(st, rid, w));
    case PutIndex(k, es) => SmallFiles(st, LandIndex(st, rid, k, es));
    case PutCurrent(s) => SmallFiles(st, LandState(st, rid, s));
    case Cas(_, n) =>
      SmallFiles(st, LandState(st, rid, n));
      SmallFiles(st, LandEpoch(st, rid, n, st.requests[rid].from));
  }

  lemma ManifestSmall(st: Store, rid: nat, k: Key, m: Manifest)
    requires Small(st) && rid < |st.requests| && st.requests[rid].op == PutManifest(k, m)
    ensures Small(LandManifest(st, rid, k, m))
  {
    hide OneKey;
    assert OneKey(m);
  }

  lemma IssueSmall(st: Store, from: Actor, own: nat, op: Op)
    requires Small(st) && (op.PutManifest? ==> OneKey(op.manifest))
    ensures Small(Issue(st, from, own, op))
  {
    hide OneKey;
  }

  // ------------------------------------------------------------- indexers

  ghost predicate PassInv(x: X.Indexer) {
    && (!x.pc.Idle? ==> if x.pc.Load? then x.pc.attempt <= x.maxAttempts else x.pc.attempt < x.maxAttempts)
    && match x.pc
       case LoadIndex(_, _, base, _, _) => OneKey(base)
       case Collect(_, cur, _, run) => cur.indexed <= run.end <= cur.indexed + 256
       case DedupWait(_, _, full, _, _, _) => OneKey(full)
       case ManifestWait(_, _, full, _, _) => OneKey(full)
       case _ => true
  }

  /** How many steps are left of the attempt a pass is in. */
  function AttemptLeft(pc: X.Pc): int {
    match pc
    case LoadManifest(_, _) => 265
    case LoadIndex(_, _, base, k, _) => 263 + if k < |base.indexKeys| then |base.indexKeys| - k else 0
    case Collect(_, cur, _, run) => 262 + cur.indexed - run.end
    case WriteData(_, _, _, _) => 5
    case PutDedup(_, _, _, _) => 4
    case DedupWait(_, _, _, _, _, _) => 3
    case ManifestWait(_, _, _, _, _) => 2
    case CasWait(_, _, _, _) => 1
    case _ => 0
  }

  /** How many steps are left of a pass. */
  function PassLeft(x: X.Indexer): int {
    if x.pc.Idle? then 0
    else if x.pc.Load? then 1 + 266 * (x.maxAttempts - x.pc.attempt)
    else 1 + 266 * (x.maxAttempts - x.pc.attempt - 1) + AttemptLeft(x.pc)
  }

  /** What a step of a pass comes to: it is over, or nearer to its end. */
  ghost predicate PassNearer(x: X.Indexer, out: X.Out) {
    && Small(out.store) && PassInv(out.indexer) && out.indexer.maxAttempts == x.maxAttempts
    && (out.indexer.pc.Idle? || 0 < PassLeft(out.indexer) < PassLeft(x))
  }

  lemma ReadNearer(st: Store, x: X.Indexer)
    requires Small(st) && PassInv(x) && X.ReadGo(st, x).Some?
    ensures PassNearer(x, X.ReadGo(st, x).value)
  {
    hide Small, ConcatRows, WalEntries;
    SmallHas(st, x.pc);
  }

  lemma WriteNearer(st: Store, x: X.Indexer, path: Key)
    requires Small(st) && PassInv(x) && X.WriteGo(st, x, path).Some?
    ensures PassNearer(x, X.WriteGo(st, x, path).value)
  {
    hide Small, Ascii, ConcatRows;
    SmallFiles(st, X.WriteGo(st, x, path).value.store);
  }

  lemma DedupNearer(id: nat, st: Store, x: X.Indexer, key: Key, sorted: seq<Entry>)
    requires Small(st) && PassInv(x) && X.DedupGo(id, st, x, key, sorted).Some?
    ensures PassNearer(x, X.DedupGo(id, st, x, key, sorted).value)
  {
    hide Small, Ascii, X.Unique, X.SortedById, X.DedupKey;
    if HasPrefix(key, MANIFEST_PREFIX) {
      IssueSmall(st, IndexerId(id), 0, PutIndex(X.DedupKey(key), X.Unique(sorted)));
    }
  }

  lemma GotNearer(id: nat, st: Store, x: X.Indexer, r: Reply)
    requires Small(st) && PassInv(x) && X.WriteGot(id, st, x, r).Some?
    ensures PassNearer(x, X.WriteGot(id, st, x, r).value)
  {
    hide Small, X.NextState;
    if x.pc.DedupWait? {
      IssueSmall(st, IndexerId(id), 0, PutManifest(x.pc.manifestKey, x.pc.full));
    } else if x.pc.ManifestWait? {
      IssueSmall(st, IndexerId(id), 0, Cas(x.pc.cur, X.NextState(x.pc.cur, x.pc.full, x.pc.manifestKey)));
    }
  }

  lemma PassStep(id: nat, st: Store, x: X.Indexer, inp: X.Input)
    requires Small(st) && PassInv(x) && X.Next(id, st, x, inp).Some? && !inp.CallIndex?
    ensures PassNearer(x, X.Next(id, st, x, inp).value)
  {
    hide Small, PassLeft, X.ReadGo, X.WriteGo, X.DedupGo, X.WriteGot;
    match inp
    case Go => ReadNearer(st, x);
    case GoPath(path) => WriteNearer(st, x, path);
    case GoKey(key, sorted) => DedupNearer(id, st, x, key, sorted);
    case Got(r) => GotNearer(id, st, x, r);
    case Throw =>
  }

  lemma PassBegins(id: nat, st: Store, x: X.Indexer)
    requires X.Next(id, st, x, X.CallIndex).Some?
    ensures var out := X.Next(id, st, x, X.CallIndex).value;
      && out.store == st && PassInv(out.indexer) && out.indexer.maxAttempts == x.maxAttempts
      && PassLeft(out.indexer) == 1 + 266 * x.maxAttempts
  {
  }

  lemma SmallHas(st: Store, pc: X.Pc)
    requires Small(st)
    ensures pc.LoadManifest? && pc.cur.manifest in st.manifests ==> OneKey(st.manifests[pc.cur.manifest])
  {
  }

  lemma SmallFiles(st: Store, r: Store)
    requires Small(st) && r.manifests == st.manifests && r.requests == st.requests
    ensures Small(r)
  {
  }

  // -------------------------------------------------------------- writers

  predicate Importing(pc: W.Pc) {
    || pc.ImportLoad? || pc.ImportManifest? || pc.ImportIndex? || pc.ImportScan? || pc.ImportWait? || pc.ImportResolve?
    || pc.Publishing? || pc.PublishWait?
  }

  predicate Acquiring(pc: W.Pc) {
    || pc.StartLoad? || pc.InitManifest? || pc.InitManifestWait? || pc.InitCheck? || pc.InitCurrent?
    || pc.InitCurrentWait? || pc.StartReload? || pc.Acquire? || pc.AcquireWait? || pc.AcquireReload?
  }

  ghost predicate CallInv(w: W.Writer) {
    match w.pc
    case ImportIndex(_, _, keys, _, _) => |keys| <= 1
    case Publishing(_, _, _, attempt) => attempt <= w.maxAttempts
    case PublishWait(_, _, _, attempt, _, _) => attempt < w.maxAttempts
    case Acquire(_, attempt) => attempt <= w.maxAttempts
    case AcquireWait(_, _, attempt, _) => attempt < w.maxAttempts
    case AcquireReload(attempt) => attempt < w.maxAttempts
    case _ => true
  }

  /** How many steps are left of an Import, or of a Start until its epoch is acquired. */
  function CallLeft(w: W.Writer): int {
    var m := w.maxAttempts;
    match w.pc
    case ImportLoad(_) => 2 * m + 8 + w.nextSlot
    case ImportManifest(_, _) => 2 * m + 7 + w.nextSlot
    case ImportIndex(_, _, keys, k, _) => 2 * m + 5 + w.nextSlot + if k < |keys| then |keys| - k else 0
    case ImportScan(_, _, _, slot) => 2 * m + 4 + if slot < w.nextSlot then w.nextSlot - slot else 0
    case ImportWait(_, _, _) => 2 * m + 3
    case ImportResolve(_, _) => 2 * m + 2
    case Publishing(_, _, _, attempt) => 2 * (m - attempt) + 1
    case PublishWait(_, _, _, attempt, _, _) => 2 * (m - attempt)
    case StartLoad => 3 * m + 8
    case InitManifest => 3 * m + 7
    case InitManifestWait(_) => 3 * m + 6
    case InitCheck => 3 * m + 5
    case InitCurrent => 3 * m + 4
    case InitCurrentWait(_) => 3 * m + 3
    case StartReload => 3 * m + 2
    case Acquire(_, attempt) => 3 * (m - attempt) + 1
    case AcquireWait(_, _, attempt, _) => 3 * (m - attempt)
    case AcquireReload(attempt) => 3 * (m - attempt) - 1
    case _ => 0
  }

  /** What a step of a call comes to: it is over, or scanning for its fence's slot, or nearer to its end. */
  ghost predicate Nearer(w: W.Writer, out: W.Out) {
    && Small(out.store) && CallInv(out.writer) && out.writer.maxAttempts == w.maxAttempts
    && (Importing(w.pc) ==>
          out.writer.pc.Idle? ||
          (Importing(out.writer.pc) && 0 < CallLeft(out.writer) < CallLeft(w) && w.nextSlot <= out.writer.nextSlot))
    && (Acquiring(w.pc) ==> !Importing(out.writer.pc))
    && (Acquiring(out.writer.pc) ==> Acquiring(w.pc) && 0 < CallLeft(out.writer) < CallLeft(w))
    && (Importing(out.writer.pc) ==> Importing(w.pc))
  }

  lemma StartGoNearer(id: nat, st: Store, w: W.Writer)
    requires Small(st) && CallInv(w) && W.StartGo(id, st, w).Some?
    ensures Nearer(w, W.StartGo(id, st, w).value)
  {
    hide Small, Ascii;
    match w.pc
    case InitManifest => IssueSmall(st, WriterId(id), w.own, PutManifest(INITIAL_KEY, INITIAL_MANIFEST));
    case InitCurrent => IssueSmall(st, WriterId(id), w.own, PutCurrent(INITIAL_STATE));
    case Acquire(seen, _) =>
      IssueSmall(st, WriterId(id), w.own, Cas(seen, seen.(epoch := seen.epoch + 1, version := seen.version + 1)));
    case _ =>
  }

  lemma StartGotNearer(st: Store, w: W.Writer, r: Reply)
    requires Small(st) && CallInv(w) && W.StartGot(st, w, r).Some?
    ensures Nearer(w, W.StartGot(st, w, r).value)
  {
    hide Small;
  }

  lemma ScanGoNearer(id: nat, st: Store, w: W.Writer)
    requires Small(st) && CallInv(w) && W.ScanGo(id, st, w).Some?
    ensures Nearer(w, W.ScanGo(id, st, w).value)
  {
    hide Small, W.FenceWal;
    if w.pc.PlantFence? {
      IssueSmall(st, WriterId(id), w.pc.acquired.epoch, PutWal(W.FenceWal(w.pc.acquired.epoch, w.pc.slot)));
    }
  }

  lemma ScanGotNearer(st: Store, w: W.Writer, r: Reply)
    requires Small(st) && CallInv(w) && W.ScanGot(st, w, r).Some?
    ensures Nearer(w, W.ScanGot(st, w, r).value)
  {
    hide Small;
  }

  lemma KeysSmall(st: Store, k: Key)
    requires Small(st) && k in st.manifests
    ensures |st.manifests[k].indexKeys| <= 1
  {
  }

  lemma ImportGoNearer(st: Store, w: W.Writer)
    requires Small(st) && CallInv(w) && W.ImportGo(st, w).Some?
    ensures Nearer(w, W.ImportGo(st, w).value)
  {
    hide Small, W.Emplace, WalEntries;
    if w.pc.ImportManifest? && w.pc.latest.manifest in st.manifests {
      KeysSmall(st, w.pc.latest.manifest);
    }
  }

  lemma DecideNearer(id: nat, st: Store, w: W.Writer)
    requires Small(st) && CallInv(w) && W.Decide(id, st, w).Some?
    ensures Nearer(w, W.Decide(id, st, w).value)
  {
    hide Small, W.CheckKnown;
    var out := W.Decide(id, st, w).value;
    if out.writer.pc.ImportWait? {
      IssueSmall(st, WriterId(id), w.own, PutWal(out.writer.pc.wal));
    }
  }

  lemma StoredNearer(st: Store, w: W.Writer, r: Reply)
    requires Small(st) && CallInv(w)
    ensures W.ImportGot(st, w, r).Some? ==> Nearer(w, W.ImportGot(st, w, r).value)
    ensures W.Resolve(st, w).Some? ==> Nearer(w, W.Resolve(st, w).value)
  {
    hide Small;
  }

  lemma PublishNearer(id: nat, st: Store, w: W.Writer)
    requires Small(st) && CallInv(w) && W.PublishGo(id, st, w).Some?
    ensures Nearer(w, W.PublishGo(id, st, w).value)
  {
    hide Small;
    var out := W.PublishGo(id, st, w).value;
    if out.writer.pc.PublishWait? {
      IssueSmall(st, WriterId(id), w.own, Cas(Current(st), out.writer.pc.next));
    }
  }

  lemma PublishGotNearer(st: Store, w: W.Writer, r: Reply)
    requires Small(st) && CallInv(w) && W.PublishGot(st, w, r).Some?
    ensures Nearer(w, W.PublishGot(st, w, r).value)
  {
    hide Small;
  }

  lemma CallStep(id: nat, st: Store, w: W.Writer, inp: W.Input)
    requires Small(st) && CallInv(w) && W.Next(id, st, w, inp).Some? && !inp.CallStart? && !inp.CallImport?
    ensures Nearer(w, W.Next(id, st, w, inp).value)
  {
    hide W.StartGo, W.ScanGo, W.ImportGo, W.Decide, W.Resolve, W.PublishGo;
    hide W.StartGot, W.ScanGot, W.ImportGot, W.PublishGot;
    if inp == W.Throw {
      return;
    }
    hide Nearer, Small, CallInv;
    match inp
    case Go =>
      if W.StartGo(id, st, w).Some? { StartGoNearer(id, st, w); }
      else if W.ScanGo(id, st, w).Some? { ScanGoNearer(id, st, w); }
      else if W.ImportGo(st, w).Some? { ImportGoNearer(st, w); }
      else if W.Decide(id, st, w).Some? { DecideNearer(id, st, w); }
      else if W.Resolve(st, w).Some? { StoredNearer(st, w, Applied); }
      else { PublishNearer(id, st, w); }
    case Got(r) =>
      if W.StartGot(st, w, r).Some? { StartGotNearer(st, w, r); }
      else if W.ScanGot(st, w, r).Some? { ScanGotNearer(st, w, r); }
      else if W.ImportGot(st, w, r).Some? { StoredNearer(st, w, r); }
      else { PublishGotNearer(st, w, r); }
  }

  lemma CallBegins(id: nat, st: Store, w: W.Writer, inp: W.Input)
    requires Small(st) && CallInv(w) && W.Next(id, st, w, inp).Some? && (inp.CallStart? || inp.CallImport?)
    ensures var out := W.Next(id, st, w, inp).value;
      && out.store == st && CallInv(out.writer) && out.writer.maxAttempts == w.maxAttempts
      && (Importing(out.writer.pc) ==> CallLeft(out.writer) == 2 * w.maxAttempts + 8 + out.writer.nextSlot)
      && (Acquiring(out.writer.pc) ==> CallLeft(out.writer) == 3 * w.maxAttempts + 8)
  {
    hide Small, W.IsValidBatch;
  }

  // ------------------------------------------------------------------ runs

  /** How many steps indexer `id` has made since its latest call. */
  function PassSteps(events: seq<Event>, id: nat): nat {
    if events == [] then 0
    else
      var init, ev := events[..|events| - 1], events[|events| - 1];
      if !ev.IndexerStep? || ev.id != id then PassSteps(init, id)
      else if ev.xinp.CallIndex? then 0 else PassSteps(init, id) + 1
  }

  /** How many steps writer `id` has made since its latest call. */
  function CallSteps(events: seq<Event>, id: nat): nat {
    if events == [] then 0
    else
      var init, ev := events[..|events| - 1], events[|events| - 1];
      if !ev.WriterStep? || ev.id != id then CallSteps(init, id)
      else if ev.winp.CallStart? || ev.winp.CallImport? then 0 else CallSteps(init, id) + 1
  }

  ghost predicate PassBound(x: X.Indexer, steps: nat) {
    PassInv(x) && (!x.pc.Idle? ==> steps + PassLeft(x) <= 1 + 266 * x.maxAttempts)
  }

  ghost predicate CallBound(w: W.Writer, steps: nat) {
    && CallInv(w)
    && (Importing(w.pc) ==> steps + CallLeft(w) <= 2 * w.maxAttempts + 8 + w.nextSlot)
    && (Acquiring(w.pc) ==> steps + CallLeft(w) <= 3 * w.maxAttempts + 8)
  }

  ghost predicate Bounded(s: System, events: seq<Event>) {
    && Small(s.store)
    && (forall id :: id in s.indexers ==> PassBound(s.indexers[id], PassSteps(events, id)))
    && (forall id :: id in s.writers ==> CallBound(s.writers[id], CallSteps(events, id)))
  }

  lemma StepsAfter(events: seq<Event>, ev: Event, id: nat)
    ensures PassSteps(events + [ev], id) ==
      if !ev.IndexerStep? || ev.id != id then PassSteps(events, id)
      else if ev.xinp.CallIndex? then 0 else PassSteps(events, id) + 1
    ensures CallSteps(events + [ev], id) ==
      if !ev.WriterStep? || ev.id != id then CallSteps(events, id)
      else if ev.winp.CallStart? || ev.winp.CallImport? then 0 else CallSteps(events, id) + 1
  {
    assert (events + [ev])[..|events|] == events;
  }

  lemma PassBoundStep(id: nat, st: Store, x: X.Indexer, inp: X.Input, steps: nat)
    requires Small(st) && PassBound(x, steps) && X.Next(id, st, x, inp).Some?
    ensures Small(X.Next(id, st, x, inp).value.store)
    ensures PassBound(X.Next(id, st, x, inp).value.indexer, if inp.CallIndex? then 0 else steps + 1)
  {
    hide Small, PassInv, X.Next, PassLeft;
    if inp.CallIndex? {
      PassBegins(id, st, x);
    } else {
      NotIdle(id, st, x, inp);
      PassStep(id, st, x, inp);
    }
  }

  lemma NotIdle(id: nat, st: Store, x: X.Indexer, inp: X.Input)
    requires X.Next(id, st, x, inp).Some? && !inp.CallIndex?
    ensures !x.pc.Idle?
  {
  }

  lemma CallBoundStep(id: nat, st: Store, w: W.Writer, inp: W.Input, steps: nat)
    requires Small(st) && CallBound(w, steps) && W.Next(id, st, w, inp).Some?
    ensures Small(W.Next(id, st, w, inp).value.store)
    ensures CallBound(W.Next(id, st, w, inp).value.writer, if inp.CallStart? || inp.CallImport? then 0 else steps + 1)
  {
    hide Small, CallInv, W.Next, CallLeft;
    if inp.CallStart? || inp.CallImport? {
      CallBegins(id, st, w, inp);
    } else {
      CallStep(id, st, w, inp);
    }
  }

  lemma NewBounds(m: nat)
    ensures PassBound(X.NewIndexer(m), 0) && CallBound(W.NewWriter(m), 0)
    ensures forall n :: PassBound(X.NewIndexer(m), n) && CallBound(W.NewWriter(m), n)
  {
  }

  lemma SystemBounded(s: System, events: seq<Event>, ev: Event)
    requires Bounded(s, events) && Step(s, ev).Some?
    ensures Bounded(Step(s, ev).value, events + [ev])
  {
    hide Small, PassBound, CallBound, PassSteps, CallSteps, W.Next, X.Next, W.NewWriter, X.NewIndexer, Land, CanLand;
    var t := Step(s, ev).value;
    match ev {
      case LandRequest(rid) => LandSmall(s.store, rid);
      case WriterStep(id, inp) => CallBoundStep(id, s.store, s.writers[id], inp, CallSteps(events, id));
      case IndexerStep(id, inp) => PassBoundStep(id, s.store, s.indexers[id], inp, PassSteps(events, id));
      case AddWriter(_, m) => NewBounds(m);
      case AddIndexer(_, m) => NewBounds(m);
      case _ =>
    }
    forall id | id in t.indexers
      ensures PassBound(t.indexers[id], PassSteps(events + [ev], id))
    {
      StepsAfter(events, ev, id);
    }
    forall id | id in t.writers
      ensures CallBound(t.writers[id], CallSteps(events + [ev], id))
    {
      StepsAfter(events, ev, id);
    }
  }

  lemma InitBounded(schema: Schema)
    ensures Bounded(Init(schema), [])
  {
  }

  lemma {:induction false} RunBounded(schema: Schema, events: seq<Event>)
    requires Run(schema, events).Some?
    ensures Bounded(Run(schema, events).value, events)
    decreases |events|
  {
    hide Bounded, Step, Init;
    if events == [] {
      InitBounded(schema);
    } else {
      var init, ev := events[..|events| - 1], events[|events| - 1];
      RunBounded(schema, init);
      SystemBounded(Run(schema, init).value, init, ev);
      assert init + [ev] == events;
    }
  }

  /** In every run, a pass that has made 266 steps per attempt is in its last one. */
  lemma PassesEnd(schema: Schema, events: seq<Event>, id: nat)
    requires Run(schema, events).Some? && id in Run(schema, events).value.indexers
    ensures var x := Run(schema, events).value.indexers[id];
      !x.pc.Idle? ==> PassSteps(events, id) <= 266 * x.maxAttempts
  {
    hide Run, PassSteps;
    RunBounded(schema, events);
  }

  /**
   In every run, an Import is over after as many steps as there are slots before its own, two for each attempt to
   publish and eight more, and a Start has its epoch or is over after three for each attempt and eight more.
  */
  lemma CallsEnd(schema: Schema, events: seq<Event>, id: nat)
    requires Run(schema, events).Some? && id in Run(schema, events).value.writers
    ensures var w := Run(schema, events).value.writers[id];
      && (Importing(w.pc) ==> CallSteps(events, id) < 2 * w.maxAttempts + 8 + w.nextSlot)
      && (Acquiring(w.pc) ==> CallSteps(events, id) < 3 * w.maxAttempts + 8)
  {
    hide Run, CallSteps;
    RunBounded(schema, events);
    var w := Run(schema, events).value.writers[id];
    assert CallBound(w, CallSteps(events, id));
    if Importing(w.pc) || Acquiring(w.pc) {
      SomeLeft(w);
    }
  }

  lemma SomeLeft(w: W.Writer)
    requires CallInv(w) && (Importing(w.pc) || Acquiring(w.pc))
    ensures CallLeft(w) > 0
  {
  }
}
