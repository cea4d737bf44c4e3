/** What an indexing pass reports, in every run: the watermarks of a CURRENT, and its own when it says Indexed. */
module IndexAnswers {
  import opened Table
  import opened Store
  import opened Invariant
  import opened Indexer
  import XS = IndexerSafety
  import SS = SystemSafety
  import Sys = System
  import WS = WriterSafety

  /** Some CURRENT has had these watermarks. */
  ghost predicate Watermarks(st: Store, indexed: nat, published: nat) {
    exists c :: c in st.history && c.indexed == indexed && c.published == published
  }

  /** A swap of this indexer took effect and left CURRENT with these watermarks, indexed further than before. */
  ghost predicate SwappedIn(id: nat, st: Store, indexed: nat, published: nat) {
    exists i :: i in st.landed && i < |st.requests| && Swap(id, st.requests[i], indexed, published)
  }

  predicate Swap(id: nat, r: Request, indexed: nat, published: nat) {
    && r.from == IndexerId(id) && r.op.Cas? && r.op.expected.indexed < r.op.next.indexed
    && r.op.next.indexed == indexed && r.op.next.published == published
  }

  ghost predicate IndexInv(id: nat, st: Store, x: Indexer) {
    && (match x.pc
        case LoadManifest(_, cur) => cur in st.history
        case CasWait(_, cur, next, rid) =>
          && rid < |st.requests| && st.requests[rid] == Request(IndexerId(id), 0, Cas(cur, next))
          && cur.indexed < next.indexed
        case _ => true)
    && (x.code == Indexed ==> SwappedIn(id, st, x.indexed, x.published) && Watermarks(st, x.indexed, x.published))
    && (x.code != NoCode ==> Watermarks(st, x.indexed, x.published) || (x.indexed == 0 && x.published == 0))
  }

  lemma WatermarksOf(st: Store, c: State)
    requires c in st.history
    ensures Watermarks(st, c.indexed, c.published)
  {
  }

  lemma IndexGrows(id: nat, a: Store, b: Store, x: Indexer)
    requires a.history <= b.history && a.requests <= b.requests && a.landed <= b.landed && IndexInv(id, a, x)
    ensures IndexInv(id, b, x)
  {
    hide Swap;
    if Watermarks(a, x.indexed, x.published) {
      var c :| c in a.history && c.indexed == x.indexed && c.published == x.published;
      assert c in b.history;
    }
    if SwappedIn(id, a, x.indexed, x.published) {
      var i :| i in a.landed && i < |a.requests| && Swap(id, a.requests[i], x.indexed, x.published);
      assert b.requests[i] == a.requests[i];
    }
  }

  lemma ReadTrue(id: nat, st: Store, x: Indexer)
    requires StoreInv(st) && XS.PcOk(st, x.pc) && IndexInv(id, st, x) && ReadGo(st, x).Some?
    ensures ReadGo(st, x).value.store == st && IndexInv(id, st, ReadGo(st, x).value.indexer)
  {
    hide StoreInv, GoodManifest, XS.RunOk, Watermarks, SwappedIn;
    if HasCurrent(st) {
      WS.CurrentIsGood(st);
      WatermarksOf(st, Current(st));
    }
    if x.pc.Collect? {
      WatermarksOf(st, x.pc.cur);
    }
  }

  lemma WriteTrue(id: nat, st: Store, x: Indexer, path: Key)
    requires XS.PcOk(st, x.pc) && IndexInv(id, st, x) && WriteGo(st, x, path).Some?
    ensures IndexInv(id, WriteGo(st, x, path).value.store, WriteGo(st, x, path).value.indexer)
  {
    hide Watermarks, SwappedIn, XS.RunOk, GoodManifest, ConcatRows;
    if HasPrefix(path, DATA_PREFIX) {
      IndexGrows(id, st, WriteGo(st, x, path).value.store, x);
    } else {
      WatermarksOf(st, x.pc.cur);
    }
  }

  lemma DedupTrue(id: nat, st: Store, x: Indexer, key: Key, sorted: seq<Entry>)
    requires XS.PcOk(st, x.pc) && IndexInv(id, st, x) && DedupGo(id, st, x, key, sorted).Some?
    ensures IndexInv(id, DedupGo(id, st, x, key, sorted).value.store, DedupGo(id, st, x, key, sorted).value.indexer)
  {
    hide Watermarks, SwappedIn, XS.RunOk, FilesOk, DedupKey, Unique, SortedById, Ascii;
    var out := DedupGo(id, st, x, key, sorted).value;
    if out.store != st {
      IndexGrows(id, st, out.store, x);
    } else {
      WatermarksOf(st, x.pc.cur);
    }
  }

  lemma GotTrue(id: nat, st: Store, x: Indexer, r: Reply)
    requires StoreInv(st) && XS.PcOk(st, x.pc) && IndexInv(id, st, x) && WriteGot(id, st, x, r).Some?
    ensures IndexInv(id, WriteGot(id, st, x, r).value.store, WriteGot(id, st, x, r).value.indexer)
  {
    hide StoreInv, Watermarks, SwappedIn, FilesOk, EntriesExact, DedupKey, Ascii;
    if x.pc.CasWait? {
      if r.Applied? {
        Swapped(id, st, x.pc.cur, x.pc.next, x.pc.rid);
      }
    } else {
      var out := WriteGot(id, st, x, r).value;
      IndexGrows(id, st, out.store, x);
    }
  }

  lemma Swapped(id: nat, st: Store, cur: State, next: State, rid: nat)
    requires StoreInv(st) && rid in st.landed && rid < |st.requests|
    requires st.requests[rid] == Request(IndexerId(id), 0, Cas(cur, next)) && cur.indexed < next.indexed
    ensures Watermarks(st, next.indexed, next.published) && SwappedIn(id, st, next.indexed, next.published)
  {
    hide StoreInv;
    WS.LandedIs(st, rid);
    WatermarksOf(st, next);
    SwapIs(id, st, rid);
  }

  lemma SwapIs(id: nat, st: Store, rid: nat)
    requires rid in st.landed && rid < |st.requests|
    requires st.requests[rid].from == IndexerId(id) && st.requests[rid].op.Cas?
    requires st.requests[rid].op.expected.indexed < st.requests[rid].op.next.indexed
    ensures SwappedIn(id, st, st.requests[rid].op.next.indexed, st.requests[rid].op.next.published)
  {
    assert Swap(id, st.requests[rid], st.requests[rid].op.next.indexed, st.requests[rid].op.next.published);
  }

  lemma StepTrue(id: nat, st: Store, x: Indexer, inp: Input)
    requires StoreInv(st) && XS.PcOk(st, x.pc) && IndexInv(id, st, x) && Next(id, st, x, inp).Some?
    ensures IndexInv(id, Next(id, st, x, inp).value.store, Next(id, st, x, inp).value.indexer)
  {
    hide StoreInv, XS.PcOk, Watermarks, SwappedIn, ReadGo, WriteGo, DedupGo, WriteGot;
    match inp
    case Go => ReadTrue(id, st, x);
    case GoKey(key, sorted) => DedupTrue(id, st, x, key, sorted);
    case Got(r) => GotTrue(id, st, x, r);
    case GoPath(path) => WriteTrue(id, st, x, path);
    case _ =>
  }

  // --------------------------------------------------------------- reasons

  /** The step `inp` of `x` in `st` has ended the pass with the report of `y`. */
  ghost predicate Reason(st: Store, x: Indexer, inp: Input, y: Indexer) {
    match y.code
    case NothingToDo => !HasCurrent(st) || y.indexed == |st.slots| || y.indexed >= MAX_U64
    case Indexed => inp == Got(Applied)
    case IndexRetry =>
      && x.pc.Load? && x.pc.attempt >= x.maxAttempts
      && (HasCurrent(st) ==> y.indexed == Current(st).indexed && y.published == Current(st).published)
    case InvalidState =>
      || (inp.GoKey? && !HasPrefix(inp.key, MANIFEST_PREFIX))
      || (inp.GoPath? && x.pc.WriteData? && !HasPrefix(inp.path, DATA_PREFIX))
    case NoCode => inp == Throw || inp == Go
  }

  lemma StepReason(id: nat, st: Store, x: Indexer, inp: Input)
    requires StoreInv(st) && XS.PcOk(st, x.pc) && Next(id, st, x, inp).Some?
    requires Next(id, st, x, inp).value.indexer.pc.Idle?
    ensures Reason(st, x, inp, Next(id, st, x, inp).value.indexer)
  {
    hide StoreInv, GoodManifest, FilesOk, EntriesExact, DedupKey, Unique, SortedById, Ascii, LogRows, ConcatRows,
      ExactlyOnce, WalOk;
    WS.ContiguousOf(st);
  }

  // ------------------------------------------------------------------ runs

  ghost predicate AllTrue(s: Sys.System) {
    forall id :: id in s.indexers ==> IndexInv(id, s.store, s.indexers[id])
  }

  lemma ExtParts(a: Store, b: Store)
    requires Ext(a, b)
    ensures a.history <= b.history && a.requests <= b.requests && a.landed <= b.landed
  {
  }

  lemma IndexerPart(s: Sys.System, id: nat)
    requires SS.Inv(s) && id in s.indexers
    ensures StoreInv(s.store) && XS.PcOk(s.store, s.indexers[id].pc)
  {
    hide StoreInv, XS.PcOk, WS.WriterInv, SS.RecordsOk;
  }

  lemma NewTrue(st: Store, id: nat, m: nat)
    ensures IndexInv(id, st, NewIndexer(m))
  {
  }

  lemma SystemTrue(s: Sys.System, ev: Sys.Event)
    requires SS.Inv(s) && AllTrue(s) && Sys.Step(s, ev).Some?
    ensures AllTrue(Sys.Step(s, ev).value)
  {
    hide SS.Inv, IndexInv, Next, Ext, NewIndexer, Land, CanLand;
    var t := Sys.Step(s, ev).value;
    SS.StepKeeps(s, ev);
    ExtParts(s.store, t.store);
    forall id | id in t.indexers
      ensures IndexInv(id, t.store, t.indexers[id])
    {
      if id !in s.indexers {
        NewTrue(t.store, id, ev.maxAttempts);
      } else if ev.IndexerStep? && ev.id == id {
        IndexerPart(s, id);
        StepTrue(id, s.store, s.indexers[id], ev.xinp);
      } else {
        IndexGrows(id, s.store, t.store, s.indexers[id]);
      }
    }
  }

  lemma {:induction false} RunTrue(schema: Schema, events: seq<Sys.Event>)
    requires Sys.Run(schema, events).Some?
    ensures AllTrue(Sys.Run(schema, events).value)
    decreases |events|
  {
    hide Sys.Step, SS.Inv;
    if events != [] {
      hide AllTrue;
      var init := events[..|events| - 1];
      RunTrue(schema, init);
      SS.Safety(schema, init);
      SystemTrue(Sys.Run(schema, init).value, events[|events| - 1]);
    }
  }

  /**
   In every run a pass that ended with a code reports the watermarks of a CURRENT the table has had, zeros if there
   was none; one that says Indexed those of the CURRENT its own swap installed, indexed further than the one before.
  */
  lemma ReportsTrue(schema: Schema, events: seq<Sys.Event>, id: nat)
    requires Sys.Run(schema, events).Some? && id in Sys.Run(schema, events).value.indexers
    ensures var st, x := Sys.Run(schema, events).value.store, Sys.Run(schema, events).value.indexers[id];
      && (x.code != NoCode ==> Watermarks(st, x.indexed, x.published) || (x.indexed == 0 && x.published == 0))
      && (x.code == Indexed ==> SwappedIn(id, st, x.indexed, x.published) && Watermarks(st, x.indexed, x.published))
  {
    hide Sys.Run, Watermarks, SwappedIn;
    RunTrue(schema, events);
  }

  /** Every pass ends for the reason its code stands for; NothingToDo when the whole log was indexed. */
  lemma PassesEndForReason(schema: Schema, events: seq<Sys.Event>, id: nat, inp: Input)
    requires Sys.Run(schema, events + [Sys.IndexerStep(id, inp)]).Some?
    ensures Sys.Run(schema, events).Some? && id in Sys.Run(schema, events).value.indexers
    ensures id in Sys.Run(schema, events + [Sys.IndexerStep(id, inp)]).value.indexers
    ensures var s, t := Sys.Run(schema, events).value, Sys.Run(schema, events + [Sys.IndexerStep(id, inp)]).value;
      t.indexers[id].pc.Idle? ==> Reason(s.store, s.indexers[id], inp, t.indexers[id])
  {
    var run := events + [Sys.IndexerStep(id, inp)];
    assert run[..|run| - 1] == events;
    var s := Sys.Run(schema, events).value;
    hide SS.Inv, Next, Reason, StoreInv, XS.PcOk;
    assert Sys.Run(schema, run) == Sys.StepIndexer(s, id, inp);
    hide Sys.Run;
    SS.Safety(schema, events);
    IndexerPart(s, id);
    if Next(id, s.store, s.indexers[id], inp).value.indexer.pc.Idle? {
      StepReason(id, s.store, s.indexers[id], inp);
    }
  }
}
