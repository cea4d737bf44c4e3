/** An indexing pass nobody contends with: what it publishes, and how many passes make everything visible. */
module IndexPass {
  import opened Table
  import opened Store
  import opened Invariant
  import opened Indexer
  import opened IndexerSafety
  import WS = WriterSafety

  // --------------------------------------------------------------- sorting

  lemma {:induction false} LexAsymmetric(a: Bytes, b: Bytes)
    ensures LexLess(a, b) ==> !LexLess(b, a)
  {
    if a != [] && b != [] {
      LexAsymmetric(a[1..], b[1..]);
    }
  }

  lemma {:induction false} NotLessTransitive(a: Bytes, b: Bytes, c: Bytes)
    requires !LexLess(b, a) && !LexLess(c, b)
    ensures !LexLess(c, a)
    decreases |a|
  {
    if a != [] && b != [] && c != [] {
      if a[0] == b[0] == c[0] {
        NotLessTransitive(a[1..], b[1..], c[1..]);
      }
    }
  }

  /** Put one entry into a sorted list, after those that are not greater. */
  function Insert(es: seq<Entry>, e: Entry): seq<Entry> {
    if es == [] || !LexLess(e.id, es[|es| - 1].id) then es + [e]
    else Insert(es[..|es| - 1], e) + [es[|es| - 1]]
  }

  lemma {:induction false} InsertKeeps(es: seq<Entry>, e: Entry)
    requires SortedById(es)
    ensures SortedById(Insert(es, e)) && multiset(Insert(es, e)) == multiset(es) + multiset{e}
  {
    if es == [] {
    } else if !LexLess(e.id, es[|es| - 1].id) {
      forall i | 0 <= i < |es|
        ensures !LexLess(e.id, es[i].id)
      {
        if i < |es| - 1 {
          NotLessTransitive(es[i].id, es[|es| - 1].id, e.id);
        }
      }
    } else {
      var init, last := es[..|es| - 1], es[|es| - 1];
      InsertKeeps(init, e);
      assert es == init + [last];
      LexAsymmetric(e.id, last.id);
      var r := Insert(init, e);
      forall i | 0 <= i < |r|
        ensures !LexLess(last.id, r[i].id)
      {
        assert r[i] in multiset(r);
        assert r[i] in multiset(init) || r[i] == e;
        assert r[i] in init || r[i] == e;
      }
    }
  }

  /** What std::sort is used for: the same entries, ascending by id. */
  method Sort(es: seq<Entry>) returns (r: seq<Entry>)
    ensures SortedById(r) && multiset(r) == multiset(es)
  {
    hide SortedById;
    r := [];
    EmptySorted();
    var i := 0;
    while i < |es|
      invariant i <= |es| && SortedById(r) && multiset(r) == multiset(es[..i])
    {
      InsertKeeps(r, es[i]);
      assert es[..i + 1] == es[..i] + [es[i]];
      r := Insert(r, es[i]);
      i := i + 1;
    }
    assert es[..|es|] == es;
  }

  lemma EmptySorted()
    ensures SortedById([])
  {
  }

  // -------------------------------------------------------------- the pass

  ghost predicate Going(st: Store, x: Indexer) {
    StoreInv(st) && PcOk(st, x.pc)
  }

  /** One step of the indexer. */
  method Do(id: nat, st: Store, x: Indexer, inp: Input) returns (out: Out)
    requires Going(st, x) && Next(id, st, x, inp).Some?
    ensures out == Next(id, st, x, inp).value && Going(out.store, out.indexer) && Ext(st, out.store)
  {
    hide StoreInv, PcOk, Next, Ext;
    IndexerKeeps(id, st, x, inp);
    out := Next(id, st, x, inp).value;
  }

  /** The store takes the request at once. */
  method Take(st: Store, x: Indexer, rid: nat) returns (r: Store)
    requires Going(st, x) && CanLand(st, rid)
    ensures r == Land(st, rid) && Going(r, x) && Ext(st, r)
  {
    hide StoreInv, PcOk, Ext, CanLand;
    LandKeeps(st, rid);
    r := Land(st, rid);
    Contiguities(st);
    Contiguities(r);
    PcGrows(st, r, x.pc);
  }

  lemma Contiguities(st: Store)
    requires StoreInv(st)
    ensures Contiguous(st.slots)
  {
  }

  lemma CurrentIsGood(st: Store)
    requires StoreInv(st) && HasCurrent(st)
    ensures GoodState(st, Current(st)) && Current(st) in st.history
  {
  }

  /** Read CURRENT, its manifest and its dedup entries. */
  method Open(id: nat, st: Store, x: Indexer) returns (y: Indexer)
    requires Going(st, x) && HasCurrent(st) && x.pc == Idle && x.maxAttempts > 0
    ensures Going(st, y) && y.maxAttempts == x.maxAttempts && y.pc.Collect?
    ensures y.pc.attempt == 0 && y.pc.cur == Current(st) && y.pc.run.end == Current(st).indexed
  {
    hide StoreInv, PcOk, Ext;
    var out := Do(id, st, x, CallIndex);
    out := Do(id, st, out.indexer, Go);
    ManifestThere(st);
    out := Do(id, st, out.indexer, Go);
    y := out.indexer;
    while y.pc.LoadIndex?
      invariant Going(st, y) && y.maxAttempts == x.maxAttempts
      invariant (y.pc.LoadIndex? || y.pc.Collect?) && y.pc.attempt == 0 && y.pc.cur == Current(st)
      invariant y.pc.LoadIndex? ==> y.pc.base == st.manifests[Current(st).manifest]
      invariant y.pc.Collect? ==> y.pc.run.end == Current(st).indexed
      decreases if y.pc.LoadIndex? then |y.pc.base.indexKeys| - y.pc.k + 1 else 0
    {
      IndexThere(st, y);
      out := Do(id, st, y, Go);
      y := out.indexer;
    }
  }

  lemma ManifestThere(st: Store)
    requires StoreInv(st) && HasCurrent(st)
    ensures var cur := Current(st); cur.manifest in st.manifests && st.manifests[cur.manifest].covered == cur.indexed
    ensures forall i :: 0 <= i < |st.manifests[Current(st).manifest].indexKeys| ==>
              st.manifests[Current(st).manifest].indexKeys[i] in st.indexes
  {
    hide StoreInv;
    CurrentIsGood(st);
    WS.ManifestMatches(st, Current(st));
  }

  lemma IndexThere(st: Store, x: Indexer)
    requires Going(st, x) && HasCurrent(st) && x.pc.LoadIndex? && x.pc.base == st.manifests[Current(st).manifest]
    ensures x.pc.k <= |x.pc.base.indexKeys|
    ensures x.pc.k < |x.pc.base.indexKeys| ==> x.pc.base.indexKeys[x.pc.k] in st.indexes
  {
    hide StoreInv;
    ManifestThere(st);
  }

  function Least(a: nat, b: nat): nat {
    if a < b then a else b
  }

  /** Collect WALs until the limit of a pass or the end of the log. */
  method Gather(id: nat, st: Store, x: Indexer) returns (y: Indexer)
    requires Going(st, x) && x.pc.Collect? && x.pc.run.end == x.pc.cur.indexed && |st.slots| < MAX_U64
    ensures Going(st, y) && y.maxAttempts == x.maxAttempts && y.pc.Collect?
    ensures y.pc.attempt == x.pc.attempt && y.pc.cur == x.pc.cur && y.pc.base == x.pc.base
    ensures y.pc.run.end == Least(|st.slots|, x.pc.cur.indexed + MAX_WAL_PER_PASS)
  {
    hide StoreInv, PcOk, Ext;
    y := x;
    RunIn(st, y);
    while y.pc.run.end - y.pc.cur.indexed < MAX_WAL_PER_PASS && y.pc.run.end + 1 in st.slots
      invariant Going(st, y) && y.maxAttempts == x.maxAttempts && y.pc.Collect?
      invariant y.pc.attempt == x.pc.attempt && y.pc.cur == x.pc.cur && y.pc.base == x.pc.base
      invariant y.pc.cur.indexed <= y.pc.run.end <= Least(|st.slots|, x.pc.cur.indexed + MAX_WAL_PER_PASS)
      decreases |st.slots| - y.pc.run.end
    {
      var out := Do(id, st, y, Go);
      y := out.indexer;
      RunIn(st, y);
    }
    LogEnds(st, y.pc.run.end);
  }

  lemma RunIn(st: Store, x: Indexer)
    requires Going(st, x) && x.pc.Collect?
    ensures x.pc.cur.indexed <= x.pc.run.end <= |st.slots| && x.pc.run.end - x.pc.cur.indexed <= MAX_WAL_PER_PASS
  {
    hide StoreInv;
  }

  lemma LogEnds(st: Store, n: nat)
    requires StoreInv(st) && n <= |st.slots|
    ensures n + 1 in st.slots <==> n < |st.slots|
  {
    Contiguities(st);
    hide StoreInv;
  }

  /** Write the data file, if there are rows for one. */
  method WriteFile(id: nat, st: Store, x: Indexer, path: Key) returns (r: Store, y: Indexer)
    requires Going(st, x) && x.pc.Collect? && x.pc.cur.indexed < x.pc.run.end && |st.slots| < MAX_U64
    requires x.pc.run.end == Least(|st.slots|, x.pc.cur.indexed + MAX_WAL_PER_PASS)
    requires path !in st.files && HasPrefix(path, DATA_PREFIX)
    ensures Going(r, y) && Ext(st, r) && y.maxAttempts == x.maxAttempts && y.pc.PutDedup?
    ensures y.pc.attempt == x.pc.attempt && y.pc.cur == x.pc.cur && y.pc.run.end == x.pc.run.end
    ensures r == st.(files := r.files) && r.files.Keys <= st.files.Keys + {path}
  {
    hide StoreInv, PcOk;
    LogEnds(st, x.pc.run.end);
    var out := Do(id, st, x, Go);
    r, y := st, out.indexer;
    if y.pc.WriteData? {
      out := Do(id, st, y, GoPath(path));
      r, y := out.store, out.indexer;
    }
  }

  /** Sort and deduplicate the entries, and write them. */
  method SendIndex(id: nat, st: Store, x: Indexer, key: Key) returns (r: Store, y: Indexer)
    requires Going(st, x) && x.pc.PutDedup? && HasPrefix(key, MANIFEST_PREFIX) && DedupKey(key) !in st.indexes
    ensures Going(r, y) && y.pc.DedupWait? && y.pc.cur == x.pc.cur && y.pc.full.covered == x.pc.run.end
    ensures y.pc.manifestKey == key && y.pc.rid + 1 == |r.requests| && y.pc.rid in r.landed &&
      y.maxAttempts == x.maxAttempts
    ensures r == st.(indexes := r.indexes, requests := r.requests, landed := r.landed)
    ensures r.indexes.Keys == st.indexes.Keys + {DedupKey(key)}
  {
    hide StoreInv, PcOk, Ext, DedupKey, Unique, SortedById;
    var n := |st.requests|;
    Unlanded(st, n);
    var sorted := Sort(x.pc.run.entries);
    var out := Do(id, st, x, GoKey(key, sorted));
    y := out.indexer;
    r := Take(out.store, y, n);
  }

  /** The dedup index is written: go on with the manifest. */
  method WriteIndex(id: nat, st: Store, x: Indexer, key: Key) returns (r: Store, y: Indexer)
    requires Going(st, x) && x.pc.PutDedup? && HasPrefix(key, MANIFEST_PREFIX) && DedupKey(key) !in st.indexes
    ensures Going(r, y) && y.pc.ManifestWait? && y.pc.cur == x.pc.cur && y.pc.full.covered == x.pc.run.end
    ensures y.pc.manifestKey == key && y.pc.rid + 1 == |r.requests| && y.pc.rid !in r.landed &&
      y.maxAttempts == x.maxAttempts
    ensures r.requests[y.pc.rid].op == PutManifest(key, y.pc.full)
    ensures r == st.(indexes := r.indexes, requests := r.requests, landed := r.landed)
    ensures r.indexes.Keys == st.indexes.Keys + {DedupKey(key)}
  {
    hide StoreInv, PcOk, Ext, DedupKey, Land;
    r, y := SendIndex(id, st, x, key);
    Unlanded(r, |r.requests|);
    var out := Do(id, r, y, Got(Applied));
    r, y := out.store, out.indexer;
  }

  /** Write the manifest and go on with CURRENT. */
  method WriteManifest(id: nat, st: Store, x: Indexer) returns (r: Store, y: Indexer)
    requires Going(st, x) && x.pc.ManifestWait? && x.pc.rid + 1 == |st.requests| && x.pc.rid !in st.landed
    requires st.requests[x.pc.rid].op == PutManifest(x.pc.manifestKey, x.pc.full) && x.pc.manifestKey !in st.manifests
    ensures Going(r, y) && y.pc.CasWait? && y.pc.cur == x.pc.cur && y.maxAttempts == x.maxAttempts
    ensures y.pc.next == NextState(x.pc.cur, x.pc.full, x.pc.manifestKey)
    ensures y.pc.rid + 1 == |r.requests| && y.pc.rid !in r.landed && r.requests[y.pc.rid].op == Cas(y.pc.cur, y.pc.next)
    ensures r == st.(manifests := r.manifests, requests := r.requests, landed := r.landed)
    ensures r.manifests.Keys == st.manifests.Keys + {x.pc.manifestKey}
  {
    hide StoreInv, PcOk, Ext, NextState;
    r := Take(st, x, x.pc.rid);
    Unlanded(r, |st.requests|);
    var out := Do(id, r, x, Got(Applied));
    r, y := out.store, out.indexer;
  }

  /** Swap CURRENT. */
  method Swap(id: nat, st: Store, x: Indexer) returns (r: Store, y: Indexer)
    requires Going(st, x) && x.pc.CasWait? && x.pc.rid < |st.requests| && x.pc.rid !in st.landed
    requires st.requests[x.pc.rid].op == Cas(x.pc.cur, x.pc.next) && HasCurrent(st) && Current(st) == x.pc.cur
    requires x.pc.next.epoch == x.pc.cur.epoch
    ensures Going(r, y) && y.pc == Idle && y.code == Indexed && y.maxAttempts == x.maxAttempts
    ensures y.indexed == x.pc.next.indexed && y.published == x.pc.next.published
    ensures r == st.(history := st.history + [x.pc.next], landed := r.landed)
  {
    hide StoreInv, PcOk, Ext;
    r := Take(st, x, x.pc.rid);
    var out := Do(id, r, x, Got(Applied));
    y := out.indexer;
  }

  /** Publish: dedup index, manifest, CURRENT, each taken by the store at once. */
  method Publish(id: nat, st: Store, x: Indexer, key: Key) returns (r: Store, y: Indexer)
    requires Going(st, x) && x.pc.PutDedup? && HasCurrent(st) && x.pc.cur == Current(st)
    requires HasPrefix(key, MANIFEST_PREFIX) && key !in st.manifests && DedupKey(key) !in st.indexes
    ensures Going(r, y) && y.pc == Idle && y.code == Indexed && y.maxAttempts == x.maxAttempts && r.slots == st.slots
    ensures HasCurrent(r) && r.history == st.history + [Current(r)] && r.files == st.files
    ensures y.indexed == Current(r).indexed && y.published == Current(r).published
    ensures Current(r).indexed == x.pc.run.end && Current(r).manifest == key
    ensures Current(r).epoch == Current(st).epoch && Current(r).version == Current(st).version + 1
    ensures Current(r).published == if Current(st).published < x.pc.run.end then x.pc.run.end else Current(st).published
    ensures r.manifests.Keys == st.manifests.Keys + {key} && r.indexes.Keys == st.indexes.Keys + {DedupKey(key)}
  {
    hide Going, DedupKey;
    r, y := WriteIndex(id, st, x, key);
    r, y := WriteManifest(id, r, y);
    r, y := Swap(id, r, y);
  }

  lemma Unlanded(st: Store, rid: nat)
    requires StoreInv(st) && rid >= |st.requests|
    ensures rid !in st.landed
  {
  }

  /** Names the key generator hands out: well-formed, and never used before. */
  predicate Unused(st: Store, path: Key, key: Key) {
    && path !in st.files && HasPrefix(path, DATA_PREFIX)
    && HasPrefix(key, MANIFEST_PREFIX) && key !in st.manifests && DedupKey(key) !in st.indexes
  }

  /**
   * One pass with nobody in the way: nothing to do exactly when the log is indexed to its end, else one new CURRENT,
   * the index further by up to 256 WALs and the published sequence raised to it if it was below. The answer carries
   * the watermarks of the CURRENT that the pass leaves.
   */
  method Index(id: nat, st: Store, x: Indexer, path: Key, key: Key) returns (r: Store, y: Indexer)
    requires StoreInv(st) && HasCurrent(st) && x.pc == Idle && x.maxAttempts > 0 && |st.slots| < MAX_U64
    requires Unused(st, path, key)
    ensures StoreInv(r) && HasCurrent(r) && r.slots == st.slots && y.pc == Idle && y.maxAttempts == x.maxAttempts
    ensures y.code == if Current(st).indexed == |st.slots| then NothingToDo else Indexed
    ensures y.indexed == Current(r).indexed && y.published == Current(r).published
    ensures Current(r).indexed == Least(|st.slots|, Current(st).indexed + 256)
    ensures Current(r).published ==
      if Current(st).published < Current(r).indexed then Current(r).indexed else Current(st).published
    ensures Current(r).epoch == Current(st).epoch
    ensures Current(r).version == Current(st).version + |r.history| - |st.history|
    ensures |r.history| - |st.history| == if y.code == Indexed then 1 else 0
    ensures r.files.Keys <= st.files.Keys + {path} && r.manifests.Keys <= st.manifests.Keys + {key}
    ensures r.indexes.Keys <= st.indexes.Keys + {DedupKey(key)}
  {
    hide StoreInv, Going, DedupKey, Next;
    Start(st, x);
    CurrentIsGood(st);
    y := Open(id, st, x);
    y := Gather(id, st, y);
    if y.pc.run.end == y.pc.cur.indexed {
      y := Stop(id, st, y);
      r := st;
    } else {
      r, y := WriteFile(id, st, y, path);
      r, y := Publish(id, r, y, key);
      Done(r, y);
    }
  }

  lemma Start(st: Store, x: Indexer)
    requires StoreInv(st) && x.pc == Idle
    ensures Going(st, x)
  {
  }

  lemma Done(st: Store, x: Indexer)
    requires Going(st, x)
    ensures StoreInv(st)
  {
  }

  /** Nothing was collected: the pass ends where it began. */
  method Stop(id: nat, st: Store, x: Indexer) returns (y: Indexer)
    requires Going(st, x) && x.pc.Collect? && x.pc.run.end == x.pc.cur.indexed && |st.slots| < MAX_U64
    requires x.pc.run.end == Least(|st.slots|, x.pc.cur.indexed + MAX_WAL_PER_PASS)
    ensures y.pc == Idle && y.code == NothingToDo && y.maxAttempts == x.maxAttempts
    ensures y.indexed == x.pc.cur.indexed && y.published == x.pc.cur.published
  {
    hide StoreInv, PcOk, Ext;
    RunIn(st, x);
    LogEnds(st, x.pc.run.end);
    var out := Do(id, st, x, Go);
    y := out.indexer;
  }

  /** A supply of names none of which was used, in the store or earlier in the list. */
  predicate Supply(st: Store, paths: seq<Key>, keys: seq<Key>) {
    && |paths| == |keys|
    && (forall i :: 0 <= i < |keys| ==> Unused(st, paths[i], keys[i]))
    && (forall i, j :: 0 <= i < j < |keys| ==> paths[i] != paths[j] && keys[i] != keys[j])
  }

  lemma DedupKeyTells(a: Key, b: Key)
    requires HasPrefix(a, MANIFEST_PREFIX) && HasPrefix(b, MANIFEST_PREFIX)
    ensures DedupKey(a) == DedupKey(b) ==> a == b
  {
    var n := |MANIFEST_PREFIX|;
    var x, y := a[n..], b[n..];
    assert a == a[..n] + x && b == b[..n] + y;
    if DedupKey(a) == DedupKey(b) {
      var p, q := Ascii("dedup/"), Ascii(".idx");
      assert |x| == |y|;
      assert (p + x + q)[|p|..|p| + |x|] == x && (p + y + q)[|p|..|p| + |y|] == y;
    }
  }

  lemma SupplyLasts(st: Store, r: Store, paths: seq<Key>, keys: seq<Key>)
    requires Supply(st, paths, keys) && keys != []
    requires r.files.Keys <= st.files.Keys + {paths[0]} && r.manifests.Keys <= st.manifests.Keys + {keys[0]}
    requires r.indexes.Keys <= st.indexes.Keys + {DedupKey(keys[0])}
    ensures Supply(r, paths[1..], keys[1..])
  {
    hide DedupKey;
    forall i | 0 <= i < |keys| - 1
      ensures Unused(r, paths[1..][i], keys[1..][i])
    {
      assert Unused(st, paths[i + 1], keys[i + 1]) && Unused(st, paths[0], keys[0]);
      DedupKeyTells(keys[0], keys[i + 1]);
    }
  }

  /**
   * Pass after pass: after as many passes as there are blocks of 256 unindexed WALs, every WAL is indexed and
   * published, so every strict snapshot loaded from then on shows the whole log.
   */
  method IndexAll(id: nat, st: Store, x: Indexer, paths: seq<Key>, keys: seq<Key>) returns (r: Store, y: Indexer)
    requires StoreInv(st) && HasCurrent(st) && x.pc == Idle && x.maxAttempts > 0 && |st.slots| < MAX_U64
    requires Supply(st, paths, keys)
    ensures StoreInv(r) && HasCurrent(r) && r.slots == st.slots
    ensures Current(r).indexed == Least(|st.slots|, Current(st).indexed + 256 * |keys|)
    ensures 256 * |keys| >= |st.slots| - Current(st).indexed ==>
      Current(r).indexed == Current(r).published == |r.slots|
  {
    hide StoreInv, Unused, Supply, DedupKey, Least;
    r, y := st, x;
    Below(st);
    SupplySized(st, paths, keys);
    LeastNext(|st.slots|, Current(st).indexed, 0);
    assert paths[0..] == paths && keys[0..] == keys;
    var i := 0;
    while i < |keys|
      invariant i <= |keys| == |paths| && StoreInv(r) && HasCurrent(r) && r.slots == st.slots
      invariant Supply(r, paths[i..], keys[i..]) && y.pc == Idle && y.maxAttempts == x.maxAttempts
      invariant Current(r).indexed == Least(|st.slots|, Current(st).indexed + 256 * i)
    {
      r, y := Advance(id, r, y, paths[i..], keys[i..]);
      assert paths[i..][1..] == paths[i + 1..] && keys[i..][1..] == keys[i + 1..];
      LeastNext(|st.slots|, Current(st).indexed, i);
      i := i + 1;
    }
    LeastIs(|st.slots|, Current(st).indexed + 256 * |keys|);
    Below(r);
  }

  /** One pass with the first of the names still unused. */
  method Advance(id: nat, st: Store, x: Indexer, paths: seq<Key>, keys: seq<Key>) returns (r: Store, y: Indexer)
    requires StoreInv(st) && HasCurrent(st) && x.pc == Idle && x.maxAttempts > 0 && |st.slots| < MAX_U64
    requires Supply(st, paths, keys) && keys != [] && |paths| == |keys|
    ensures StoreInv(r) && HasCurrent(r) && r.slots == st.slots && y.pc == Idle && y.maxAttempts == x.maxAttempts
    ensures Current(r).indexed == Least(|st.slots|, Current(st).indexed + 256) && Supply(r, paths[1..], keys[1..])
  {
    hide StoreInv, Unused, Supply, DedupKey, Least;
    FirstUnused(st, paths, keys);
    KeyPrefixed(st, paths[0], keys[0]);
    r, y := Index(id, st, x, paths[0], keys[0]);
    SupplyLasts(st, r, paths, keys);
  }

  lemma KeyPrefixed(st: Store, path: Key, key: Key)
    requires Unused(st, path, key)
    ensures HasPrefix(key, MANIFEST_PREFIX)
  {
  }

  lemma Below(st: Store)
    requires StoreInv(st) && HasCurrent(st)
    ensures Current(st).indexed <= Current(st).published <= |st.slots|
  {
  }

  lemma LeastNext(n: nat, from: nat, i: nat)
    requires from <= n
    ensures Least(n, from) == from && Least(n, Least(n, from + 256 * i) + 256) == Least(n, from + 256 * (i + 1))
  {
  }

  lemma LeastIs(n: nat, m: nat)
    ensures m >= n ==> Least(n, m) == n
  {
  }

  lemma SupplySized(st: Store, paths: seq<Key>, keys: seq<Key>)
    requires Supply(st, paths, keys)
    ensures |paths| == |keys|
  {
  }

  lemma FirstUnused(st: Store, paths: seq<Key>, keys: seq<Key>)
    requires Supply(st, paths, keys) && keys != []
    ensures Unused(st, paths[0], keys[0])
  {
  }
}
