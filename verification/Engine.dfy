/** The key-value engine: a B+Tree from encoded keys to locators, and a tuple store from locators to values. */
module Engine {
  import opened Table
  import opened ByteFormat
  import T = TreeShape
  import I = TreeInsert
  import P = TreePages
  import B = BPlusTree
  import S = TupleStore
  import opened TreeScan
  import opened KeyCodec
  import opened PageFile
  import BP = BufferPool

  const KEY_SIZE: nat := 8

  datatype Outcome<+X> = Threw | Done(value: X)

  // --------------------------------------------------- the map they make

  /** The value behind an entry. */
  function ValueOf(p: S.Pages, e: T.Entry): Bytes {
    match S.Stored(p, e.value)
    case Some(v) => v
    case None => []
  }

  function ViewOf(es: seq<T.Entry>, p: S.Pages): map<int, Bytes> {
    if es == [] then map[] else ViewOf(es[..|es| - 1], p)[es[|es| - 1].key := ValueOf(p, es[|es| - 1])]
  }

  lemma {:induction false} ViewHas(es: seq<T.Entry>, p: S.Pages, k: int)
    ensures k in ViewOf(es, p) <==> exists e :: e in es && e.key == k
  {
    if es != [] {
      ViewHas(es[..|es| - 1], p, k);
      if e :| e in es && e.key == k {
        assert e in es[..|es| - 1] || e == es[|es| - 1];
      }
      if k in ViewOf(es, p) && k != es[|es| - 1].key {
        var e :| e in es[..|es| - 1] && e.key == k;
        assert e in es;
      }
    }
  }

  lemma {:induction false} ViewAt(es: seq<T.Entry>, p: S.Pages, e: T.Entry)
    requires T.Sorted(es) && e in es
    ensures e.key in ViewOf(es, p) && ViewOf(es, p)[e.key] == ValueOf(p, e)
  {
    var n := |es| - 1;
    if e != es[n] {
      assert e in es[..n];
      ViewAt(es[..n], p, e);
      var i :| 0 <= i < n && es[i] == e;
      assert e.key < es[n].key;
    }
  }

  /** A new entry for an absent key, every old value as it was: the map gains one pair. */
  lemma ViewInsert(es: seq<T.Entry>, p: S.Pages, q: S.Pages, e: T.Entry)
    requires T.Sorted(es) && (forall x :: x in es ==> x.key != e.key)
    requires forall x :: x in es ==> ValueOf(q, x) == ValueOf(p, x)
    ensures ViewOf(I.InsertAt(es, e), q) == ViewOf(es, p)[e.key := ValueOf(q, e)]
  {
    var fs := I.InsertAt(es, e);
    I.FindIs(es, e.key);
    I.InsertAtSorted(es, e);
    I.InsertAtHas(es, e);
    hide I.InsertAt, ViewOf, ValueOf, T.Sorted;
    var a, b := ViewOf(fs, q), ViewOf(es, p)[e.key := ValueOf(q, e)];
    forall k
      ensures k in a <==> k in b
      ensures k in a ==> a[k] == b[k]
    {
      SameAt(es, fs, p, q, e, k);
    }
  }

  lemma SameAt(es: seq<T.Entry>, fs: seq<T.Entry>, p: S.Pages, q: S.Pages, e: T.Entry, k: int)
    requires T.Sorted(es) && T.Sorted(fs) && (forall x :: x in fs <==> x in es || x == e)
    requires forall x :: x in es ==> x.key != e.key && ValueOf(q, x) == ValueOf(p, x)
    ensures var a, b := ViewOf(fs, q), ViewOf(es, p)[e.key := ValueOf(q, e)];
      (k in a <==> k in b) && (k in a ==> a[k] == b[k])
  {
    hide ViewOf, ValueOf, T.Sorted;
    ViewHas(fs, q, k);
    ViewHas(es, p, k);
    if k == e.key {
      assert e in fs;
      ViewAt(fs, q, e);
    } else if x :| x in es && x.key == k {
      assert x in fs;
      ViewAt(fs, q, x);
      ViewAt(es, p, x);
    }
  }

  /** Every index entry leads to a value. */
  predicate Backed(es: seq<T.Entry>, p: S.Pages) {
    forall e :: e in es ==> S.Stored(p, e.value).Some?
  }

  // -------------------------------------------------------------- the file

  /** How a tree and a chain of value pages lie in numbered pages. */
  datatype Layout = Layout(tree: T.Tree, height: nat, indexPages: P.Pages, valuePages: S.Pages, chain: seq<int>,
    count: nat)

  function EntriesUnder(root: int, t: T.Tree): seq<T.Entry> {
    if root == T.INVALID then [] else T.Entries(t)
  }

  /** The pages show the layout from the entry points on page 0, all of them numbered below `next`. */
  ghost predicate Laid(logical: map<int, Content>, next: nat, m: I.Limits, l: Layout) {
    && Of(logical, 0).Meta?
    && var root, first := logical[0].rootPageId, logical[0].tupleFirstPageId;
    && B.Mirrors(l.indexPages, logical) && S.Mirrors(l.valuePages, logical)
    && (root != T.INVALID ==>
          && root == l.tree.id && T.Ordered(l.tree, l.height) && I.RootFilled(m, l.tree)
          && P.Shows(l.indexPages, T.Top, l.tree) && P.Once(T.Top, l.tree, next))
    && l.count <= next && S.Chained(l.valuePages, l.chain, first, l.count)
    && Backed(EntriesUnder(root, l.tree), l.valuePages)
  }

  /** The map that laid-out pages show. */
  ghost function LaidView(logical: map<int, Content>, l: Layout): map<int, Bytes>
    requires Of(logical, 0).Meta?
  {
    ViewOf(EntriesUnder(logical[0].rootPageId, l.tree), l.valuePages)
  }

  lemma {:induction false} IdsHeld(p: P.Pages, t: T.Tree, parent: int, next: int)
    requires P.Holds(p, t, parent, next)
    ensures forall x :: x in P.Ids(t) ==> x in p
    decreases t
  {
    if t.Node? {
      forall i | 0 <= i < |t.kids|
        ensures forall x :: x in P.Ids(t.kids[i]) ==> x in p
      {
        IdsHeld(p, t.kids[i], t.id, P.NextOf(t.kids, i, next));
      }
    }
  }

  /** A tree whose pages all lie below `m` uses each page once below `m`. */
  lemma OnceBelow(p: P.Pages, t: T.Tree, n: nat, m: nat)
    requires P.Shows(p, T.Top, t) && P.Once(T.Top, t, n) && forall id :: id in p ==> 0 <= id < m
    ensures P.Once(T.Top, t, m)
  {
    hide P.Holds, P.Ids, P.Distinct;
    IdsHeld(p, t, T.INVALID, T.INVALID);
  }

  /** A page that holds anything is inside a file that shows it: numbers past the end are free. */
  lemma LiveBelowEnd(logical: map<int, Content>, file: File, id: int)
    requires OnDisk(file, id) == Of(logical, id) && !Of(logical, id).Blank?
    ensures 0 <= id < |file| && PagesOf(file)[id] == logical[id]
  {
    assert Of(PagesOf(file), id) == OnDisk(file, id);
  }

  lemma MirrorsFile(logical: map<int, Content>, file: File, l: Layout)
    requires (forall id :: OnDisk(file, id) == Of(logical, id)) && B.Mirrors(l.indexPages, logical)
    requires S.Mirrors(l.valuePages, logical)
    ensures B.Mirrors(l.indexPages, PagesOf(file)) && S.Mirrors(l.valuePages, PagesOf(file))
    ensures forall id :: id in l.indexPages || id in l.valuePages ==> 0 <= id < |file|
  {
    forall id | id in l.indexPages || id in l.valuePages
      ensures 0 <= id < |file| && PagesOf(file)[id] == logical[id]
    {
      LiveBelowEnd(logical, file, id);
    }
  }

  /** The chain inside a shorter page count. */
  lemma ChainedDown(p: S.Pages, chain: seq<int>, first: int, n: nat, m: nat)
    requires S.Chained(p, chain, first, n) && m <= n && forall id :: id in p ==> 0 <= id < m
    ensures S.Chained(p, chain, first, m)
  {
  }

  /** The layout with the page count of a file. */
  ghost function FileLayout(l: Layout, file: File): Layout {
    l.(count := if l.count <= |file| then l.count else |file|)
  }

  /**
   * A file that shows every page of the pool shows the same layout by itself: the page count it implies is above
   * every page reachable from its entry points.
   */
  lemma FileLaid(logical: map<int, Content>, next: nat, file: File, m: I.Limits, l: Layout)
    requires Laid(logical, next, m, l) && forall id :: OnDisk(file, id) == Of(logical, id)
    ensures Laid(PagesOf(file), |file|, m, FileLayout(l, file))
    ensures LaidView(PagesOf(file), FileLayout(l, file)) == LaidView(logical, l)
  {
    hide P.Shows, P.Once, S.Chained, T.Ordered, I.RootFilled, Backed, B.Mirrors, S.Mirrors, ViewOf, T.Entries;
    MirrorsFile(logical, file, l);
    LiveBelowEnd(logical, file, 0);
    if logical[0].rootPageId != T.INVALID {
      OnceBelow(l.indexPages, l.tree, next, |file|);
    }
    if l.count > |file| {
      ChainedDown(l.valuePages, l.chain, logical[0].tupleFirstPageId, l.count, |file|);
    }
  }

  // ------------------------------------------------------------ the engine

  /** Index, values and catalog in one page file, behind one pool; page 0 is the catalog. */
  class Engine {
    const pool: BP.BufferPool
    const index: B.BPlusTree
    const tuples: S.TupleStore
    const keyType: nat
    const valueType: nat

    ghost predicate Valid()
      reads this, pool, pool.replacer, index, tuples
    {
      && index.pool == pool && tuples.pool == pool && index.Valid() && tuples.Valid()
      && Catalog(pool.logical, keyType, valueType)
      && Backed(index.Contents(), tuples.pages)
    }

    /** What the engine stores: numbers of encoded keys to values. */
    ghost function View(): map<int, Bytes>
      reads this, index, tuples
    {
      ViewOf(index.Contents(), tuples.pages)
    }

    ghost function Shape(): Layout
      reads this, index, tuples
    {
      Layout(index.tree, index.height, index.pages, tuples.pages, tuples.chain, tuples.bound)
    }

    /** Join an index and a tuple store that share a pool. */
    constructor (b: B.BPlusTree, s: S.TupleStore, k: nat, v: nat)
      requires s.pool == b.pool && b.Valid() && s.Valid() && Catalog(b.pool.logical, k, v)
      requires Backed(b.Contents(), s.pages)
      ensures Valid() && index == b && tuples == s && pool == b.pool && keyType == k && valueType == v
    {
      pool, index, tuples, keyType, valueType := b.pool, b, s, k, v;
    }

    /**
     * Insert if absent. A key of the wrong size, or a value too large for a page, throws and changes nothing;
     * a key already present changes nothing.
     */
    method Insert(key: Bytes, value: Bytes) returns (r: Outcome<bool>)
      requires Valid() && pool.nextId < S.MAX_PAGES
      modifies index, tuples, pool, pool.replacer
      ensures Valid()
      ensures r == if |key| != KEY_SIZE then Threw
                   else if FromBe(key) in old(View()) then Done(false)
                   else if |value| > S.MAX_VALUE then Threw
                   else Done(true)
      ensures View() == if r == Done(true) then old(View())[FromBe(key) := value] else old(View())
    {
      hide ViewOf, ValueOf, I.InsertAt, S.Held, S.Stored, S.Chained, T.Entries, T.Ordered, I.RootFilled, P.Shows,
        P.Once, FromBe, T.Sorted, Backed, Catalog, B.Mirrors, S.Mirrors, BP.BufferPool.Ready;
      if |key| != KEY_SIZE {
        return Threw;
      }
      var k := FromBe(key);
      ghost var es, p := index.Contents(), tuples.pages;
      ViewHas(es, p, k);
      var existing := index.GetValue(k);
      if existing.Some? {
        return Done(false);
      }
      ContentsSorted(index);
      var rid := PutValue(value);
      if rid.None? {
        return Threw;
      }
      StillBacked(es, p, tuples.pages, rid.value);
      ViewInsert(es, p, tuples.pages, T.Entry(k, rid.value));
      IndexValue(k, rid.value);
      ValueIs(tuples.pages, T.Entry(k, rid.value), value);
      return Done(true);
    }

    /** Store a value: the index keeps its pages. */
    method PutValue(value: Bytes) returns (r: Option<T.Rid>)
      requires Valid() && pool.nextId < S.MAX_PAGES
      modifies tuples, pool, pool.replacer
      ensures index.Valid() && tuples.Valid() && Catalog(pool.logical, keyType, valueType)
      ensures (r.None? <==> |value| > S.MAX_VALUE) && (r.None? ==> tuples.pages == old(tuples.pages))
      ensures r.Some? ==>
        && !old(S.Held(tuples.pages, r.value)) && S.Stored(tuples.pages, r.value) == Some(value)
        && forall x :: x != r.value ==> S.Stored(tuples.pages, x) == old(S.Stored(tuples.pages, x))
    {
      hide S.Held, S.Stored, S.Chained, T.Entries, T.Ordered, I.RootFilled, P.Shows, P.Once, BP.BufferPool.Ready,
        Backed;
      ghost var before, n := pool.logical, pool.nextId;
      ghost var old_ := tuples.pages;
      r := tuples.Put(value);
      IndexStays(index.pages, old_, before, tuples.pages, pool.logical);
      CatalogStays(old_, before, tuples.pages, pool.logical, keyType, valueType);
      if index.root != T.INVALID {
        OnceUp(index.tree, n, pool.nextId);
      }
    }

    /** Enter a locator under an absent key: the values keep their pages. */
    method IndexValue(k: int, rid: T.Rid)
      requires index.pool == pool && tuples.pool == pool && index.Valid() && tuples.Valid()
      requires Catalog(pool.logical, keyType, valueType) && S.Stored(tuples.pages, rid).Some?
      requires Backed(index.Contents(), tuples.pages) && forall e :: e in index.Contents() ==> e.key != k
      modifies index, pool, pool.replacer
      ensures Valid() && index.Contents() == I.InsertAt(old(index.Contents()), T.Entry(k, rid))
    {
      hide S.Held, S.Stored, S.Chained, T.Entries, T.Ordered, I.RootFilled, P.Shows, P.Once, BP.BufferPool.Ready,
        I.InsertAt;
      ghost var before, es := pool.logical, index.Contents();
      ghost var old_ := index.pages;
      var ok := index.Insert(k, rid);
      assert ok;
      I.InsertAtHas(es, T.Entry(k, rid));
      ValuesStay(tuples.pages, old_, before, index.pages, pool.logical);
      CatalogKept(old_, before, index.pages, pool.logical, keyType, valueType);
    }

    method Get(key: Bytes) returns (r: Outcome<Option<Bytes>>)
      requires Valid()
      modifies pool, pool.replacer
      ensures Valid() && View() == old(View())
      ensures r == if |key| != KEY_SIZE then Threw
                   else Done(if FromBe(key) in View() then Some(View()[FromBe(key)]) else None)
    {
      hide ViewOf, S.Chained, T.Entries, T.Ordered, I.RootFilled, P.Shows, P.Once, T.Sorted, FromBe, B.Mirrors,
        S.Mirrors, BP.BufferPool.Ready, S.Stored, ValueOf;
      if |key| != KEY_SIZE {
        return Threw;
      }
      var k := FromBe(key);
      ViewHas(index.Contents(), tuples.pages, k);
      ContentsSorted(index);
      var rid := index.GetValue(k);
      if rid.None? {
        return Done(None);
      }
      ViewAt(index.Contents(), tuples.pages, T.Entry(k, rid.value));
      HasPage(tuples.pages, rid.value);
      var v := tuples.Get(rid.value);
      ValueIs(tuples.pages, T.Entry(k, rid.value), v.value);
      return Done(v);
    }

    /**
     * Record the entry points in the catalog through the pool, then write every page out. The file by itself, its
     * size included, then shows the engine's map.
     */
    method Flush()
      requires Valid()
      modifies pool, pool.replacer
      ensures Valid() && View() == old(View())
      ensures var l := FileLayout(Shape(), pool.disk);
        Laid(PagesOf(pool.disk), |pool.disk|, index.limits, l) && LaidView(PagesOf(pool.disk), l) == View()
      ensures Catalog(PagesOf(pool.disk), keyType, valueType)
    {
      hide ViewOf, S.Chained, T.Entries, T.Ordered, I.RootFilled, P.Shows, P.Once, BP.BufferPool.Valid, Backed;
      BP.PoolNumbers(pool);
      var meta := pool.Read(0);
      ghost var before := pool.logical;
      pool.Write(0, meta.(rootPageId := index.root, tupleFirstPageId := tuples.first));
      MetaApart(index.pages, tuples.pages, before, pool.logical);
      pool.FlushAllPages();
      FileLaid(pool.logical, pool.nextId, pool.disk, index.limits, Shape());
      LiveBelowEnd(pool.logical, pool.disk, 0);
    }
  }

  ghost predicate Catalog(logical: map<int, Content>, keyType: nat, valueType: nat) {
    0 in logical && logical[0].Meta? && logical[0].keyType == keyType && logical[0].valueType == valueType
  }

  /** Pages of the index are none of the tuple store's, which alone has changed. */
  lemma IndexStays(p: P.Pages, q: S.Pages, a: map<int, Content>, r: S.Pages, b: map<int, Content>)
    requires B.Mirrors(p, a) && S.Mirrors(q, a) && S.Mirrors(r, b) && a - q.Keys == b - r.Keys
    ensures B.Mirrors(p, b)
  {
    forall id | id in p
      ensures id in b && b[id] == Index(p[id])
    {
      assert id in a - q.Keys;
    }
  }

  lemma CatalogStays(q: S.Pages, a: map<int, Content>, r: S.Pages, b: map<int, Content>, keyType: nat, valueType: nat)
    requires S.Mirrors(q, a) && a - q.Keys == b - r.Keys && Catalog(a, keyType, valueType)
    ensures Catalog(b, keyType, valueType)
  {
    assert 0 in a - q.Keys;
  }

  lemma ValuesStay(p: S.Pages, q: P.Pages, a: map<int, Content>, r: P.Pages, b: map<int, Content>)
    requires S.Mirrors(p, a) && B.Mirrors(q, a) && B.Mirrors(r, b) && a - q.Keys == b - r.Keys
    ensures S.Mirrors(p, b)
  {
    forall id | id in p
      ensures id in b && b[id] == Value(p[id])
    {
      assert id in a - q.Keys;
    }
  }

  lemma CatalogKept(q: P.Pages, a: map<int, Content>, r: P.Pages, b: map<int, Content>, keyType: nat, valueType: nat)
    requires B.Mirrors(q, a) && a - q.Keys == b - r.Keys && Catalog(a, keyType, valueType)
    ensures Catalog(b, keyType, valueType)
  {
    assert 0 in a - q.Keys;
  }

  /** The catalog's page is nobody else's. */
  lemma MetaApart(p: P.Pages, q: S.Pages, a: map<int, Content>, b: map<int, Content>)
    requires B.Mirrors(p, a) && S.Mirrors(q, a) && 0 in a && a[0].Meta? && 0 in b && b == a[0 := b[0]]
    ensures B.Mirrors(p, b) && S.Mirrors(q, b)
  {
  }

  lemma OnceUp(t: T.Tree, n: nat, m: nat)
    requires P.Once(T.Top, t, n) && n <= m
    ensures P.Once(T.Top, t, m)
  {
  }

  lemma HasPage(p: S.Pages, x: T.Rid)
    requires S.Stored(p, x).Some?
    ensures x.pageId in p
  {
  }

  lemma ContentsSorted(b: B.BPlusTree)
    requires b.Valid()
    ensures T.Sorted(b.Contents())
  {
    if b.root != T.INVALID {
      T.OrderedIsSorted(b.tree, b.height);
    }
  }

  lemma ValueIs(p: S.Pages, e: T.Entry, v: Bytes)
    requires S.Stored(p, e.value) == Some(v)
    ensures ValueOf(p, e) == v
  {
  }

  lemma StillBacked(es: seq<T.Entry>, p: S.Pages, q: S.Pages, r: T.Rid)
    requires Backed(es, p) && !S.Held(p, r) && forall x :: x != r ==> S.Stored(q, x) == S.Stored(p, x)
    ensures Backed(es, q) && forall x :: x in es ==> ValueOf(q, x) == ValueOf(p, x)
  {
    forall e | e in es
      ensures e.value != r
    {
      StoredIsHeld(p, e.value);
    }
  }

  lemma StoredIsHeld(p: S.Pages, x: T.Rid)
    requires S.Stored(p, x).Some?
    ensures S.Held(p, x)
  {
  }

  // ------------------------------------------------------ making and reopening

  /** A new database: the catalog must get page 0. */
  method Create(pool: BP.BufferPool, limits: I.Limits, keyType: nat, valueType: nat) returns (r: Outcome<Engine>)
    requires pool.Ready() && I.LimitsOk(limits)
    modifies pool, pool.replacer
    ensures r.Done? <==> old(pool.nextId) == 0
    ensures r.Done? ==>
      && r.value.Valid() && r.value.pool == pool && r.value.View() == map[] && fresh(r.value)
      && fresh(r.value.index) && fresh(r.value.tuples) && r.value.index.limits == limits
      && r.value.keyType == keyType && r.value.valueType == valueType && Catalog(pool.logical, keyType, valueType)
  {
    if pool.nextId != 0 {
      var _ := pool.NewPage();
      return Threw;
    }
    var _ := pool.Allocate(Meta(keyType, valueType, T.INVALID, T.INVALID));
    hide BP.BufferPool.Ready;
    var index := new B.BPlusTree(limits, pool);
    var tuples := new S.TupleStore(pool);
    var e := new Engine(index, tuples, keyType, valueType);
    return Done(e);
  }

  /** Open what a pool's file holds: entry points from the catalog, everything else from the pages they lead to. */
  method Open(pool: BP.BufferPool, limits: I.Limits, ghost l: Layout) returns (r: Outcome<Engine>)
    requires pool.Ready() && I.LimitsOk(limits)
    requires Of(pool.logical, 0).Meta? ==> Laid(pool.logical, pool.nextId, limits, l)
    modifies pool, pool.replacer
    ensures pool.logical == old(pool.logical) && pool.nextId == old(pool.nextId)
    ensures r.Done? <==> Of(pool.logical, 0).Meta?
    ensures r.Done? ==>
      && r.value.Valid() && r.value.pool == pool && r.value.View() == LaidView(pool.logical, l) && fresh(r.value)
      && fresh(r.value.index) && fresh(r.value.tuples) && r.value.index.limits == limits
      && Catalog(pool.logical, r.value.keyType, r.value.valueType)
  {
    hide P.Shows, P.Once, S.Chained, T.Ordered, I.RootFilled, Backed, B.Mirrors, S.Mirrors, ViewOf, T.Entries,
      BP.BufferPool.Valid;
    BP.PoolNumbers(pool);
    if pool.nextId == 0 {
      return Threw;
    }
    var meta := pool.Read(0);
    if !meta.Meta? {
      return Threw;
    }
    var index := new B.BPlusTree.Open(limits, pool, meta.rootPageId, l.indexPages, l.tree, l.height);
    var tuples := new S.TupleStore.Open(pool, meta.tupleFirstPageId, l.valuePages, l.chain, l.count);
    var e := new Engine(index, tuples, meta.keyType, meta.valueType);
    return Done(e);
  }

  /**
   * Flush, then open the file again over a pool of any size: the same map. Page numbers go on from the size of the
   * file, and everything the map needs lies below.
   */
  method Reopen(e: Engine, slots: nat) returns (f: Engine)
    requires e.Valid() && slots > 0
    modifies e.pool, e.pool.replacer
    ensures e.Valid() && e.View() == old(e.View())
    ensures f.Valid() && f.View() == old(e.View()) && fresh(f) && fresh(f.pool)
    ensures f.pool.nextId == |e.pool.disk| && f.keyType == e.keyType && f.valueType == e.valueType
    ensures forall id :: id in f.index.pages || id in f.tuples.pages ==> 0 <= id < f.pool.nextId
  {
    hide P.Shows, P.Once, S.Chained, T.Ordered, I.RootFilled, Backed, ViewOf, T.Entries, BP.BufferPool.Valid, Laid;
    e.Flush();
    var pool := new BP.BufferPool(slots, e.pool.disk);
    var r := Open(pool, e.index.limits, FileLayout(e.Shape(), e.pool.disk));
    f := r.value;
    BP.PoolNumbers(pool);
  }

  // -------------------------------------------------------------- cursor

  /**
   * The ordered cursor: one leaf's entries at a time, the current pair copied out. `before` holds the entries of
   * the leaves already left behind, `leaves` how many leaves were read.
   */
  class KvCursor {
    const index: B.BPlusTree
    const tuples: S.TupleStore
    var entries: seq<T.Entry>
    var pos: nat
    var nextLeaf: int
    var valid: bool
    var key: int
    var value: Bytes
    ghost var before: seq<T.Entry>
    ghost var leaves: nat

    /** What the cursor runs over. */
    ghost predicate Over()
      reads this, index, index.pool, index.pool.replacer, tuples
    {
      tuples.pool == index.pool && index.Valid() && tuples.Valid() && Backed(index.Contents(), tuples.pages)
    }

    /** The cursor stands between the entries passed and those to come, in the order of the index. */
    ghost predicate Valid()
      reads this, index, index.pool, index.pool.replacer, tuples
    {
      && Over()
      && (index.root == T.INVALID ==> !valid && before == entries == [] && pos == 0)
      && (index.root != T.INVALID ==>
            && leaves <= Leaves(index.tree)
            && Walk(index.pages, P.FirstLeaf(index.tree), leaves) == Read(before + entries, nextLeaf))
      && (if valid then pos < |entries| && Current() else entries == [] && pos == 0 && before == index.Contents())
    }

    ghost predicate Current()
      requires pos < |entries|
      reads this, tuples
    {
      key == entries[pos].key && S.Stored(tuples.pages, entries[pos].value) == Some(value)
    }

    /** How many entries were passed. */
    ghost function Position(): nat
      reads this
    {
      |before| + pos
    }

    /** The pair at the cursor's position, or the end of the index. */
    ghost predicate Stands()
      reads this, index, tuples
    {
      && (valid <==> Position() < |index.Contents()|)
      && (valid ==>
            && key == index.Contents()[Position()].key
            && S.Stored(tuples.pages, index.Contents()[Position()].value) == Some(value))
    }

    /** The map the cursor runs over. */
    ghost function View(): map<int, Bytes>
      reads this, index, tuples
    {
      ViewOf(index.Contents(), tuples.pages)
    }

    constructor (b: B.BPlusTree, s: S.TupleStore)
      ensures index == b && tuples == s && before == entries == [] && leaves == 0
    {
      index, tuples := b, s;
      entries, pos, nextLeaf, valid, key, value := [], 0, T.INVALID, false, 0, [];
      before, leaves := [], 0;
    }

    /** Load the first leaf that has entries. */
    method Start()
      requires Over() && before == entries == [] && leaves == 0
      modifies this, index.pool, index.pool.replacer
      ensures Valid() && Stands() && Position() == 0
      ensures index.pool.logical == old(index.pool.logical) && index.pool.nextId == old(index.pool.nextId)
      ensures valid <==> View() != map[]
      ensures valid ==> key in View() && View()[key] == value && forall k :: k in View() ==> key <= k
    {
      hide Walk, Leaves, P.FirstLeaf, T.Entries, S.Stored, S.Chained, T.Ordered, I.RootFilled, P.Shows, P.Once,
        T.Sorted, Backed, ViewOf, B.Mirrors, S.Mirrors, BP.BufferPool.Ready;
      var first := FirstLeafPageId(index);
      if index.root != T.INVALID {
        WalkNone(index.pages, first);
      }
      LoadLeaf(first);
      ContentsSorted(index);
      ViewFirst(index.Contents(), tuples.pages);
    }

    /** Along the chain from `id` to the first leaf that has entries, if any is left. */
    method SkipEmpty(id: int)
      requires index.Valid() && index.root != T.INVALID && entries == [] && leaves <= Leaves(index.tree)
      requires Walk(index.pages, P.FirstLeaf(index.tree), leaves) == Read(before, id)
      modifies `entries, `nextLeaf, `leaves, index.pool, index.pool.replacer
      ensures index.Valid() && index.pool.logical == old(index.pool.logical) &&
        index.pool.nextId == old(index.pool.nextId)
      ensures leaves <= Leaves(index.tree)
      ensures Walk(index.pages, P.FirstLeaf(index.tree), leaves) == Read(before + entries, nextLeaf)
      ensures before + entries <= index.Contents() && (entries == [] ==> before == index.Contents())
    {
      hide Walk, Leaves, P.FirstLeaf, T.Entries, T.Ordered, I.RootFilled, P.Shows, P.Once, T.Sorted, B.Mirrors,
        BP.BufferPool.Ready;
      ghost var total, first := Leaves(index.tree), P.FirstLeaf(index.tree);
      ChainIsContents(index.pages, index.tree, index.height);
      nextLeaf := id;
      assert before + [] == before;
      while nextLeaf != T.INVALID
        invariant index.Mirrored() && index.pool.logical == old(index.pool.logical)
        invariant index.pool.nextId == old(index.pool.nextId)
        invariant entries == [] && leaves <= total && Walk(index.pages, first, leaves) == Read(before, nextLeaf)
        decreases total - leaves
      {
        WalkStep(index.pages, first, leaves, total, before, nextLeaf);
        var page := index.GetPage(nextLeaf);
        entries, nextLeaf, leaves := page.entries, page.next, leaves + 1;
        if entries != [] {
          WalkInside(index.pages, first, leaves, total, before + entries, nextLeaf);
          return;
        }
        assert before + [] == before;
      }
      WalkStep(index.pages, first, leaves, total, before, nextLeaf);
    }

    /** Buffer the next leaf that has entries, or mark the cursor exhausted. */
    method LoadLeaf(id: int)
      requires Over()
      requires index.root == T.INVALID ==> id == T.INVALID && before + entries == []
      requires index.root != T.INVALID ==>
        && leaves <= Leaves(index.tree)
        && Walk(index.pages, P.FirstLeaf(index.tree), leaves) == Read(before + entries, id)
      modifies this, index.pool, index.pool.replacer
      ensures Valid() && Stands() && Position() == old(|before + entries|)
      ensures index.pool.logical == old(index.pool.logical) && index.pool.nextId == old(index.pool.nextId)
    {
      hide Walk, Leaves, P.FirstLeaf, T.Entries, S.Stored, S.Chained, T.Ordered, I.RootFilled, P.Shows, P.Once,
        T.Sorted, Backed, B.Mirrors, S.Mirrors, BP.BufferPool.Ready;
      before, entries, pos := before + entries, [], 0;
      if index.root != T.INVALID {
        SkipEmpty(id);
      }
      Settle();
    }

    /** At the first of the entries buffered, or at the end. */
    method Settle()
      requires Over() && pos == 0 && before + entries <= index.Contents() &&
        (entries == [] ==> before == index.Contents())
      modifies `valid, `key, `value, index.pool, index.pool.replacer
      ensures Over() && Stands() && valid == (entries != []) && (valid ==> Current())
      ensures index.pool.logical == old(index.pool.logical) && index.pool.nextId == old(index.pool.nextId)
    {
      hide T.Entries, S.Stored, S.Chained, T.Ordered, I.RootFilled, P.Shows, P.Once, Backed, B.Mirrors, S.Mirrors,
        BP.BufferPool.Ready;
      valid := entries != [];
      if valid {
        InPrefix(before, entries, 0, index.Contents());
        BackedAt(index.Contents(), tuples.pages, |before|);
        Materialize();
      }
    }

    /** Copy the current pair out. */
    method Materialize()
      requires tuples.Valid() && pos < |entries| && S.Stored(tuples.pages, entries[pos].value).Some?
      modifies `key, `value, tuples.pool, tuples.pool.replacer
      ensures tuples.Valid() && tuples.pool.logical == old(tuples.pool.logical)
      ensures tuples.pool.nextId == old(tuples.pool.nextId) && Current()
    {
      hide S.Stored, S.Chained, S.Mirrors, BP.BufferPool.Ready;
      key := entries[pos].key;
      HasPage(tuples.pages, entries[pos].value);
      var v := tuples.Get(entries[pos].value);
      value := v.value;
    }

    /** On to the next larger key of the map; past the largest, the end. */
    method Next()
      requires Valid() && Stands()
      modifies this, index.pool, index.pool.replacer
      ensures Valid() && Stands() && Position() == old(Position()) + if old(valid) then 1 else 0
      ensures index.pool.logical == old(index.pool.logical) && View() == old(View())
      ensures valid ==> key in View() && View()[key] == value
      ensures old(valid) && valid ==> old(key) < key && forall k :: k in View() ==> k <= old(key) || key <= k
      ensures old(valid) && !valid ==> forall k :: k in View() ==> k <= old(key)
      ensures !old(valid) ==> !valid
    {
      hide Walk, Leaves, P.FirstLeaf, T.Entries, S.Stored, S.Chained, T.Ordered, I.RootFilled, P.Shows, P.Once,
        T.Sorted, Backed, ViewOf, B.Mirrors, S.Mirrors, BP.BufferPool.Ready;
      if !valid {
        return;
      }
      ContentsSorted(index);
      ViewNext(index.Contents(), tuples.pages, Position());
      Advance();
    }

    method Advance()
      requires Valid() && Stands() && valid
      modifies this, index.pool, index.pool.replacer
      ensures Valid() && Stands() && Position() == old(Position()) + 1
      ensures index.pool.logical == old(index.pool.logical) && index.pool.nextId == old(index.pool.nextId)
    {
      hide Walk, Leaves, P.FirstLeaf, T.Entries, S.Stored, S.Chained, T.Ordered, I.RootFilled, P.Shows, P.Once,
        T.Sorted, Backed, B.Mirrors, S.Mirrors, BP.BufferPool.Ready;
      ghost var all := index.Contents();
      ChainIsContents(index.pages, index.tree, index.height);
      WalkInside(index.pages, P.FirstLeaf(index.tree), leaves, Leaves(index.tree), before + entries, nextLeaf);
      if pos + 1 >= |entries| {
        LoadLeaf(nextLeaf);
        return;
      }
      pos := pos + 1;
      InPrefix(before, entries, pos, all);
      BackedAt(all, tuples.pages, |before| + pos);
      Materialize();
    }
  }

  /** A cursor at the smallest key of the map. */
  method NewCursor(e: Engine) returns (c: KvCursor)
    requires e.Valid()
    modifies e.pool, e.pool.replacer
    ensures e.Valid() && e.View() == old(e.View())
    ensures fresh(c) && c.index == e.index && c.tuples == e.tuples && c.Valid() && c.Stands() && c.View() == e.View()
    ensures c.valid <==> e.View() != map[]
    ensures c.valid ==> c.key in e.View() && e.View()[c.key] == c.value && forall k :: k in e.View() ==> c.key <= k
  {
    hide Walk, Leaves, P.FirstLeaf, T.Entries, S.Stored, S.Chained, T.Ordered, I.RootFilled, P.Shows, P.Once, T.Sorted,
      Backed, ViewOf, B.Mirrors, S.Mirrors, BP.BufferPool.Ready, KvCursor.Stands, Catalog;
    c := new KvCursor(e.index, e.tuples);
    c.Start();
  }

  /** Between two neighbours of the sorted entries the map has no key. */
  lemma ViewNext(es: seq<T.Entry>, p: S.Pages, i: nat)
    requires T.Sorted(es) && i < |es|
    ensures i + 1 < |es| ==>
      && es[i].key < es[i + 1].key && es[i + 1].key in ViewOf(es, p)
      && ViewOf(es, p)[es[i + 1].key] == ValueOf(p, es[i + 1])
      && forall k :: k in ViewOf(es, p) ==> k <= es[i].key || es[i + 1].key <= k
    ensures i + 1 == |es| ==> forall k :: k in ViewOf(es, p) ==> k <= es[i].key
  {
    hide ViewOf, ValueOf;
    forall k | k in ViewOf(es, p)
      ensures k <= es[i].key || (i + 1 < |es| && es[i + 1].key <= k)
    {
      ViewHas(es, p, k);
      var e :| e in es && e.key == k;
      var j :| 0 <= j < |es| && es[j] == e;
    }
    if i + 1 < |es| {
      ViewAt(es, p, es[i + 1]);
    }
  }

  lemma ViewFirst(es: seq<T.Entry>, p: S.Pages)
    requires T.Sorted(es)
    ensures es == [] <==> ViewOf(es, p) == map[]
    ensures es != [] ==>
      && es[0].key in ViewOf(es, p) && ViewOf(es, p)[es[0].key] == ValueOf(p, es[0])
      && forall k :: k in ViewOf(es, p) ==> es[0].key <= k
  {
    if es != [] {
      ViewAt(es, p, es[0]);
      hide ViewOf, ValueOf;
      forall k | k in ViewOf(es, p)
        ensures es[0].key <= k
      {
        ViewHas(es, p, k);
        var e :| e in es && e.key == k;
        var j :| 0 <= j < |es| && es[j] == e;
      }
    }
  }

  /** With int64 keys the next larger key of the map is the next larger integer that was stored. */
  lemma IntegersInOrder(view: map<int, Bytes>, v: int, w: int, u: int)
    requires -HALF <= v < HALF && -HALF <= w < HALF && -HALF <= u < HALF
    requires FromBe(EncodeInt(v)) < FromBe(EncodeInt(w))
    requires forall k :: k in view ==> k <= FromBe(EncodeInt(v)) || FromBe(EncodeInt(w)) <= k
    ensures v < w && (v < u < w ==> FromBe(EncodeInt(u)) !in view)
  {
    IntNumber(v);
    IntNumber(w);
    IntNumber(u);
  }

  lemma BackedAt(es: seq<T.Entry>, p: S.Pages, i: nat)
    requires Backed(es, p) && i < |es|
    ensures S.Stored(p, es[i].value).Some?
  {
    assert es[i] in es;
  }

  lemma InPrefix(a: seq<T.Entry>, b: seq<T.Entry>, i: nat, all: seq<T.Entry>)
    requires a + b <= all && i < |b|
    ensures |a| + i < |all| && all[|a| + i] == b[i]
  {
    assert (a + b)[|a| + i] == b[i];
  }

  /** What was read so far is a prefix of what there is to read. */
  lemma {:induction false} WalkInside(p: P.Pages, id: int, n: nat, total: nat, es: seq<T.Entry>, at: int)
    requires n <= total && Walk(p, id, n) == Read(es, at) && Walk(p, id, total).Read?
    ensures es <= Walk(p, id, total).entries
    decreases total
  {
    if n < total {
      WalkPrefix(p, id, total - 1, total);
      WalkInside(p, id, n, total - 1, es, at);
    }
  }
}
