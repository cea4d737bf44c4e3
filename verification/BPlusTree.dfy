/** The B+Tree over pages, as it runs: search loops, splits, parent updates climbing through parent links. */
module BPlusTree {
  import opened Table
  import opened TreeShape
  import opened TreeInsert
  import opened TreePages
  import opened TreeSteps
  import opened PageFile
  import opened BufferPool

  // ------------------------------------------------------- searching pages

  /** Binary search for the first entry whose key is not below `k`. */
  method LowerBound(es: seq<Entry>, k: Key) returns (r: nat)
    requires Sorted(es)
    ensures r == KeyIndex(es, k)
  {
    var lo, hi := 0, |es|;
    while lo < hi
      invariant lo <= hi <= |es|
      invariant forall i :: 0 <= i < lo ==> es[i].key < k
      invariant forall i :: hi <= i < |es| ==> k <= es[i].key
    {
      var mid := (lo + hi) / 2;
      if es[mid].key < k {
        lo := mid + 1;
      } else {
        hi := mid;
      }
    }
    r := lo;
    KeyIndexUnique(es, k, r);
  }

  /** The child whose range holds `k`: linear scan from the second slot. */
  method LookupChild(slots: seq<Slot>, ghost keys: seq<Key>, k: Key) returns (child: int, ghost i: nat)
    requires |slots| == |keys| > 0 && forall j :: 0 <= j < |keys| ==> slots[j].key == keys[j]
    ensures i == ChildFrom(keys, k, 1) && child == slots[i].child
  {
    var j := 1;
    while j < |slots|
      invariant 1 <= j <= |slots| && ChildFrom(keys, k, 1) == ChildFrom(keys, k, j)
    {
      if k < slots[j].key {
        return slots[j - 1].child, j - 1;
      }
      j := j + 1;
    }
    return slots[|slots| - 1].child, |slots| - 1;
  }

  function RootOf(c: Path, id: nat): nat {
    if c.Top? then id else RootOf(c.up, c.id)
  }

  lemma {:induction false} PlugRoot(c: Path, t: Tree)
    ensures Plug(c, t).id == RootOf(c, t.id)
    decreases c
  {
    if c.In? {
      PlugRoot(c.up, Closed(c, t));
    }
  }

  /** A place on the search path of `k`, in the pages and in the tree. */
  ghost predicate Place(m: Limits, p: Pages, c: Path, t: Tree, h: nat, n: nat, k: Key) {
    && At(c, t, h) && Routes(c, k) && PathFilled(m, c) && HoleFilled(m, c, t) && Shows(p, c, t) && Once(c, t, n)
  }

  lemma PlaceDown(m: Limits, p: Pages, c: Path, t: Tree, h: nat, n: nat, k: Key)
    requires t.Node? && Place(m, p, c, t, h, n, k)
    ensures h > 0 && |t.keys| == |t.kids| > 0 && t.id in p && p[t.id] == InnerPage(ParentOf(c), Slots(t.keys, t.kids))
    ensures var i := ChildFrom(t.keys, k, 1);
      && Place(m, p, Down(c, t, i), t.kids[i], h - 1, n, k)
      && Plug(Down(c, t, i), t.kids[i]) == Plug(c, t) && RootOf(Down(c, t, i), t.kids[i].id) == RootOf(c, t.id)
  {
    NodeHolds(p, t, ParentOf(c), NextAfter(c));
    assert h > 0;
    var i := ChildFrom(t.keys, k, 1);
    DownAt(c, t, h, i);
    DownRoutes(c, t, h, k);
    DownFilled(m, c, t, i);
    DownShows(p, c, t, i);
    OnceDown(c, t, i, n);
  }

  // ------------------------------------------------ contents along a path

  lemma KeyIndexUnique(es: seq<Entry>, k: Key, r: nat)
    requires r <= |es| && (forall i :: 0 <= i < r ==> es[i].key < k) && (r < |es| ==> k <= es[r].key)
    ensures r == KeyIndex(es, k)
  {
  }

  lemma IndexOnRoute(a: seq<Entry>, es: seq<Entry>, b: seq<Entry>, k: Key)
    requires (forall x :: x in a ==> x.key < k) && (forall x :: x in b ==> k < x.key)
    ensures KeyIndex(a + es + b, k) == |a| + KeyIndex(es, k)
  {
    var i := KeyIndex(es, k);
    var all := a + es + b;
    var r := |a| + i;
    forall j | 0 <= j < r
      ensures all[j].key < k
    {
      if j < |a| {
        assert all[j] == a[j];
      } else {
        assert all[j] == es[j - |a|];
      }
    }
    if r < |all| {
      assert all[r] == if i < |es| then es[i] else b[0];
    }
    KeyIndexUnique(all, k, r);
  }

  /** Inserting into the leaf a search reaches is inserting into the whole sorted sequence. */
  lemma InsertOnRoute(a: seq<Entry>, es: seq<Entry>, b: seq<Entry>, e: Entry)
    requires (forall x :: x in a ==> x.key < e.key) && (forall x :: x in b ==> e.key < x.key)
    ensures a + InsertAt(es, e) + b == InsertAt(a + es + b, e)
  {
    hide KeyIndex;
    IndexOnRoute(a, es, b, e.key);
    SliceAround(a, es, b, KeyIndex(es, e.key), e);
  }

  lemma SliceAround<T>(a: seq<T>, es: seq<T>, b: seq<T>, i: nat, e: T)
    requires i <= |es|
    ensures a + (es[..i] + [e] + es[i..]) + b == (a + es + b)[..|a| + i] + [e] + (a + es + b)[|a| + i..]
  {
    assert (a + es + b)[..|a| + i] == a + es[..i];
    assert (a + es + b)[|a| + i..] == es[i..] + b;
  }

  lemma LeafDecides(m: Limits, p: Pages, c: Path, t: Tree, h: nat, n: nat, k: Key)
    requires Place(m, p, c, t, h, n, k) && t.Leaf?
    ensures Sorted(t.entries) && Entries(Plug(c, t)) == LeftOf(c) + t.entries + RightOf(c) &&
      Sorted(Entries(Plug(c, t)))
    ensures (forall e :: e in LeftOf(c) ==> e.key < k) && (forall e :: e in RightOf(c) ==> k < e.key)
  {
    hide Plug, LeftOf, RightOf, Routes, PathFilled, HoleFilled, Shows, Once, OrderedPath, Fits, Depth;
    PlugEntries(c, t);
    FoundOnRoute(c, t, h, k);
    PlugOrdered(c, t, h);
    OrderedIsSorted(Plug(c, t), h + Depth(c));
  }

  // ---------------------------------------------------------- the tree

  /** These pages are what the pool shows under their numbers. */
  ghost predicate Mirrors(p: Pages, logical: map<int, Content>) {
    forall id :: id in p ==> id in logical && logical[id] == Index(p[id])
  }

  /** `pages` are the tree's own pages of the pool; every access goes through the pool. */
  class BPlusTree {
    const limits: Limits
    const pool: BufferPool
    var root: int
    ghost var pages: Pages
    ghost var tree: Tree
    ghost var height: nat

    ghost predicate Mirrored()
      reads this, pool, pool.replacer
    {
      pool.Ready() && Mirrors(pages, pool.logical)
    }

    /** The pages of the pool that are not the tree's. */
    ghost function Others(): map<int, Content>
      reads this, pool
    {
      pool.logical - pages.Keys
    }

    /** The pages show one ordered, balanced tree within its page limits, each page in one place. */
    ghost predicate Valid()
      reads this, pool, pool.replacer
    {
      && LimitsOk(limits) && Mirrored()
      && (root != INVALID ==>
            && root == tree.id && Ordered(tree, height) && RootFilled(limits, tree)
            && Shows(pages, Top, tree) && Once(Top, tree, pool.nextId))
    }

    /** What is stored, in key order. */
    ghost function Contents(): seq<Entry>
      reads this
    {
      if root == INVALID then [] else Entries(tree)
    }

    constructor (m: Limits, over: BufferPool)
      requires LimitsOk(m) && over.Ready()
      ensures Valid() && Contents() == [] && limits == m && pool == over && root == INVALID && pages == map[]
    {
      limits, pool, root := m, over, INVALID;
      pages, tree, height := map[], Leaf(0, []), 0;
    }

    /** A tree whose root was read back; its pages are in the pool. */
    constructor Open(m: Limits, over: BufferPool, rootId: int, ghost stored: Pages, ghost t: Tree, ghost h: nat)
      requires LimitsOk(m) && over.Ready() && Mirrors(stored, over.logical)
      requires rootId != INVALID ==>
        rootId == t.id && Ordered(t, h) && RootFilled(m, t) && Shows(stored, Top, t) && Once(Top, t, over.nextId)
      ensures Valid() && Contents() == (if rootId == INVALID then [] else Entries(t)) && limits == m && pool == over
      ensures pages == stored && root == rootId
    {
      limits, pool, root := m, over, rootId;
      pages, tree, height := stored, t, h;
    }

    // ------------------------------------------------ pages through the pool

    method GetPage(id: int) returns (page: Page)
      requires Mirrored() && id in pages
      modifies pool, pool.replacer
      ensures Mirrored() && page == pages[id] && pool.logical == old(pool.logical) && pool.nextId == old(pool.nextId)
    {
      PoolNumbers(pool);
      var c := pool.Read(id);
      page := c.page;
    }

    method PutPage(id: int, page: Page)
      requires Mirrored() && id in pages
      modifies `pages, pool, pool.replacer
      ensures Mirrored() && pages == old(pages)[id := page] && pool.nextId == old(pool.nextId) &&
        Others() == old(Others())
    {
      PoolNumbers(pool);
      pool.Write(id, Index(page));
      pages := pages[id := page];
    }

    method NewPage(page: Page) returns (id: nat)
      requires Mirrored()
      modifies `pages, pool, pool.replacer
      ensures Mirrored() && pages == old(pages)[id := page] && Others() == old(Others())
      ensures id == old(pool.nextId) && pool.nextId == id + 1
    {
      id := pool.Allocate(Index(page));
      pages := pages[id := page];
    }

    // ------------------------------------------------------------ searching

    /** Down from the root to the leaf whose range holds `k`. */
    method FindLeafPage(k: Key) returns (id: int, page: Page, ghost c: Path, ghost t: Tree)
      requires Valid() && root != INVALID
      modifies pool, pool.replacer
      ensures Valid() && pool.logical == old(pool.logical) && pool.nextId == old(pool.nextId)
      ensures t.Leaf? && id == t.id && Place(limits, pages, c, t, 0, pool.nextId, k)
      ensures Plug(c, t) == tree && RootOf(c, t.id) == root
      ensures id in pages && page == pages[id] == LeafPage(ParentOf(c), t.entries, NextAfter(c))
    {
      hide Place, Plug, RootOf, Shows, Ordered, RootFilled, Once, Slots, ChildFrom, Mirrors, BufferPool.Ready;
      id, c, t := root, Top, tree;
      ghost var h := height;
      StartPlace(limits, pages, tree, h, pool.nextId, k);
      page := GetPage(id);
      while page.InnerPage?
        invariant Mirrored() && pool.logical == old(pool.logical) && pool.nextId == old(pool.nextId)
        invariant Place(limits, pages, c, t, h, pool.nextId, k) && id == t.id && id in pages && page == pages[id]
        invariant Plug(c, t) == tree && RootOf(c, t.id) == root
        decreases h
      {
        PlacePage(limits, pages, c, t, h, pool.nextId, k);
        PlaceDown(limits, pages, c, t, h, pool.nextId, k);
        SlotsAre(t);
        ghost var i;
        id, i := LookupChild(page.slots, t.keys, k);
        c, t, h := Down(c, t, i), t.kids[i], h - 1;
        PlacePage(limits, pages, c, t, h, pool.nextId, k);
        page := GetPage(id);
      }
      LeafHolds(limits, pages, c, t, h, pool.nextId, k);
    }

    method GetValue(k: Key) returns (r: Option<Rid>)
      requires Valid()
      modifies pool, pool.replacer
      ensures Valid() && pool.logical == old(pool.logical) && pool.nextId == old(pool.nextId)
      ensures r.Some? ==> Entry(k, r.value) in Contents()
      ensures r.None? ==> forall e :: e in Contents() ==> e.key != k
    {
      if root == INVALID {
        return None;
      }
      hide Mirrors, BufferPool.Ready, Shows, Once, Ordered, RootFilled, Place, Plug, RootOf, LeftOf, RightOf;
      var id, page, c, t := FindLeafPage(k);
      LeafDecides(limits, pages, c, t, 0, pool.nextId, k);
      var es := page.entries;
      var i := LowerBound(es, k);
      FindIs(es, k);
      if i < |es| && es[i].key == k {
        assert es[i] in Entries(tree);
        return Some(es[i].value);
      }
      return None;
    }

    // ------------------------------------------------------------ inserting

    /** Move the upper half of a full leaf to a new page and link it in to the right. */
    method SplitLeaf(id: int) returns (newId: nat)
      requires Mirrored() && id in pages && pages[id].LeafPage? && |pages[id].entries| == limits.leafMax >= 2
      requires id < pool.nextId
      modifies `pages, pool, pool.replacer
      ensures Mirrored() && Others() == old(Others()) && newId == old(pool.nextId) && pool.nextId == newId + 1
      ensures pages == SplitLeafPages(old(pages), id, (limits.leafMax + 1) / 2, newId)
    {
      hide Mirrors, BufferPool.Ready;
      var page := GetPage(id);
      newId := NewPage(LeafPage(page.parent, [], INVALID));
      var start := (|page.entries| + 1) / 2;
      assert |page.entries| - start <= limits.leafMax - 1;
      var right := LeafPage(page.parent, page.entries[start..], INVALID);
      PutPage(newId, right);
      PutPage(id, page.(entries := page.entries[..start]));
      PutPage(newId, right.(next := page.next));
      PutPage(id, page.(entries := page.entries[..start], next := newId));
    }

    /** Copy slots into a new page one by one; each child copied gets the new page for its parent. */
    method CopyAndAdopt(newId: nat, page: Page, start: nat)
      requires page.InnerPage? && start <= |page.slots| && newId in pages && pages[newId] == InnerPage(page.parent, [])
      requires forall i :: 0 <= i < |page.slots| ==> page.slots[i].child in pages && page.slots[i].child != newId
      requires Mirrored()
      modifies `pages, pool, pool.replacer
      ensures Mirrored() && Others() == old(Others()) && pool.nextId == old(pool.nextId)
      ensures pages ==
        Adopted(old(pages)[newId := InnerPage(page.parent, page.slots[start..])], page.slots[start..], newId)
    {
      hide Mirrors, BufferPool.Ready;
      ghost var p := pages;
      var i := start;
      AdoptNone(p, page, newId, start);
      while i < |page.slots|
        invariant start <= i <= |page.slots|
        invariant Mirrored() && Others() == old(Others()) && pool.nextId == old(pool.nextId)
        invariant pages == Adopted(p[newId := InnerPage(page.parent, page.slots[start..i])], page.slots[start..i],
          newId)
      {
        hide Adopted;
        var slot := page.slots[i];
        AdoptNext(p, page, newId, start, i);
        var copy := GetPage(newId);
        PutPage(newId, copy.(slots := copy.slots + [slot]));
        var child := GetPage(slot.child);
        PutPage(slot.child, child.(parent := newId));
        i := i + 1;
      }
      assert page.slots[start..i] == page.slots[start..];
    }

    /** Move the upper half of an overfull inner page to a new page, which adopts the children that come along. */
    method SplitInner(id: int) returns (newId: nat)
      requires Mirrored() && id in pages && pages[id].InnerPage? && id < pool.nextId
      requires forall i :: 0 <= i < |pages[id].slots| ==>
        var x := pages[id].slots[i].child; x in pages && x != id && x != pool.nextId
      modifies `pages, pool, pool.replacer
      ensures Mirrored() && Others() == old(Others()) && newId == old(pool.nextId) && pool.nextId == newId + 1
      ensures pages == SplitInnerPages(old(pages), id, (|old(pages)[id].slots| + 1) / 2, newId)
    {
      hide Adopted, Mirrors, BufferPool.Ready;
      var page := GetPage(id);
      ghost var p := pages;
      var start := (|page.slots| + 1) / 2;
      newId := NewPage(InnerPage(page.parent, []));
      CopyAndAdopt(newId, page, start);
      AdoptElsewhere(p[newId := InnerPage(page.parent, page.slots[start..])], page.slots[start..], newId, id,
                     page.(slots := page.slots[..start]));
      assert p[newId := InnerPage(page.parent, [])][newId := InnerPage(page.parent, page.slots[start..])] ==
             p[newId := InnerPage(page.parent, page.slots[start..])];
      AdoptKeeps(p[newId := InnerPage(page.parent, page.slots[start..])], page.slots[start..], newId, id);
      PutPage(id, page.(slots := page.slots[..start]));
    }

    /** A new root over the two halves of the old one. */
    method NewRoot(oldId: int, key: Key, newId: int)
      requires Mirrored() && oldId in pages && newId in pages
      requires oldId < newId < pool.nextId
      modifies `pages, `root, pool, pool.replacer
      ensures Mirrored() && Others() == old(Others()) && root == old(pool.nextId) && pool.nextId == root + 1
      ensures pages == NewRootPages(old(pages), oldId, key, newId, root)
    {
      hide Mirrors, BufferPool.Ready;
      var slots := if oldId <= newId then [Slot(0, oldId), Slot(key, newId)] else [Slot(0, newId), Slot(key, oldId)];
      root := NewPage(InnerPage(INVALID, slots));
      var low := GetPage(oldId);
      PutPage(oldId, low.(parent := root));
      var high := GetPage(newId);
      PutPage(newId, high.(parent := root));
    }

    /** Record a split child in its parent; an overfull parent splits and is recorded in turn. */
    method InsertIntoParent(oldId: int, key: Key, newId: int, ghost c: Path, ghost left: Tree, ghost right: Tree)
      requires Mirrored() && LimitsOk(limits) && oldId == left.id && newId == right.id && left.id < right.id
      requires PathSized(c) && PathFilled(limits, c) && ShowsPair(pages, c, left, right)
      requires OncePair(c, left, right, pool.nextId) && root == RootOf(c, left.id)
      modifies this, pool, pool.replacer
      ensures Mirrored() && Others() == old(Others()) && pool.nextId >= old(pool.nextId)
      ensures tree == Climb(limits, c, left, key, right, old(pool.nextId)) && root == tree.id
      ensures Shows(pages, Top, tree) && Once(Top, tree, pool.nextId)
      decreases c
    {
      hide ShowsPair, OncePair, Shows, Once, Climb, PathFilled, RootOf, Plug, Widen, LowHalf, HighHalf, MiddleKey,
        Slots, SplitInnerPages, InsertAfter, ValueIndex, Mirrors, BufferPool.Ready;
      PairPages(pages, c, left, right);
      PairBelow(c, left, right, pool.nextId);
      var child := GetPage(oldId);
      if child.parent == INVALID {
        NewRootShows(pages, left, key, right, pool.nextId);
        NewRootOnce(left, key, right, pool.nextId);
        tree := ClimbAtTop(limits, c, left, key, right, pool.nextId);
        NewRoot(oldId, key, newId);
      } else {
        WidenShows(pages, c, left, key, right, pool.nextId);
        WidenOnce(c, left, key, right, pool.nextId);
        ghost var n, at := ClimbStep(limits, c, left, key, right, pool.nextId);
        var parent := child.parent;
        var above := GetPage(parent);
        var i := ValueIndex(above.slots, oldId);
        var slots := InsertAfter(above.slots, i, Slot(key, newId));
        PutPage(parent, InnerPage(above.parent, slots));
        WidenedPage(pages, c, left, key, right);
        RootAbove(c, left.id);
        if |slots| == limits.innerMax + 1 {
          ChildrenApart(pages, c.up, n, pool.nextId);
          SplitInnerShows(pages, c.up, n, at, pool.nextId);
          SplitOnce(c.up, n, at, pool.nextId);
          HalvesAre(n, at, pool.nextId);
          PathAbove(limits, c);
          var newParent := SplitInner(parent);
          FirstKey(pages, c.up, n, at, newParent);
          var moved := GetPage(newParent);
          InsertIntoParent(parent, moved.slots[0].key, newParent, c.up, LowHalf(n, at), HighHalf(n, at, newParent));
        } else {
          PathLimit(limits, c);
          tree := Plug(c.up, n);
          ShowsWhole(pages, c.up, n);
          OnceWhole(c.up, n, pool.nextId);
          PlugRoot(c.up, n);
        }
      }
    }

    method StartNewTree(e: Entry)
      requires Valid() && root == INVALID
      modifies this, pool, pool.replacer
      ensures Valid() && root != INVALID && Contents() == [e]
      ensures Others() == old(Others()) && pool.nextId >= old(pool.nextId)
    {
      root := NewPage(LeafPage(INVALID, [e], INVALID));
      tree, height := Leaf(root, [e]), 0;
    }

    /**
     * True exactly when the key was absent; then the entry takes its place in the sorted contents. A key already
     * there changes nothing. No page of the pool that is not the tree's changes.
     */
    method Insert(k: Key, v: Rid) returns (ok: bool)
      requires Valid()
      modifies this, pool, pool.replacer
      ensures Valid() && Others() == old(Others()) && pool.nextId >= old(pool.nextId)
      ensures ok <==> forall e :: e in old(Contents()) ==> e.key != k
      ensures Contents() == if ok then InsertAt(old(Contents()), Entry(k, v)) else old(Contents())
      ensures !ok ==> pages == old(pages) && root == old(root) && pool.nextId == old(pool.nextId)
    {
      hide Place, Plug, RootOf, Shows, Once, KeyIndex, Ordered, RootFilled, LeftOf, RightOf, Mirrors, BufferPool.Ready,
        InsertAt, Entries, Sorted;
      var e := Entry(k, v);
      if root == INVALID {
        InsertFirst(e);
        StartNewTree(e);
        return true;
      }
      var id, page, c, t := FindLeafPage(k);
      LeafDecides(limits, pages, c, t, 0, pool.nextId, k);
      FindIs(t.entries, k);
      var i := LowerBound(page.entries, k);
      if i < |page.entries| && page.entries[i].key == k {
        InMiddle(LeftOf(c), t.entries, RightOf(c), i);
        return false;
      }
      NowhereElse(LeftOf(c), t.entries, RightOf(c), k);
      InsertOnRoute(LeftOf(c), t.entries, RightOf(c), e);
      InsertIntoFound(id, page, e, c, t);
      return true;
    }

    /** Write the entry into the leaf found for it; a leaf at its limit splits. */
    method InsertIntoFound(id: int, page: Page, e: Entry, ghost c: Path, ghost t: Tree)
      requires Valid() && root != INVALID && t.Leaf? && id == t.id && Place(limits, pages, c, t, 0, pool.nextId, e.key)
      requires id in pages && page == pages[id] == LeafPage(ParentOf(c), t.entries, NextAfter(c)) &&
        RootOf(c, t.id) == root
      requires Find(t.entries, e.key) < 0
      modifies this, pool, pool.replacer
      ensures Valid() && root != INVALID && Entries(tree) == LeftOf(c) + InsertAt(t.entries, e) + RightOf(c)
      ensures Others() == old(Others()) && pool.nextId >= old(pool.nextId)
    {
      hide Place, Plug, RootOf, Shows, Once, PathFilled, Climb, SplitLeafPages, KeyIndex, Ordered, RootFilled, LeftOf,
        RightOf, InsertAt, OncePair, ShowsPair, At, HoleFilled, Find, PathSized, Depth, LowHalf, HighHalf, MiddleKey,
        Mirrors, BufferPool.Ready;
      LeafInserted(limits, pages, c, t, pool.nextId, e);
      ghost var grown := Leaf(t.id, InsertAt(t.entries, e));
      var entries := InsertAt(page.entries, e);
      PutPage(id, page.(entries := entries));
      if |entries| == limits.leafMax {
        ghost var at := (limits.leafMax + 1) / 2;
        ghost var right := HighHalf(grown, at, pool.nextId);
        SplitGrown(limits, pages, c, grown, pool.nextId);
        ghost var first := pool.nextId;
        var newId := SplitLeaf(id);
        LeafFirstKey(pages, c, grown, at, newId);
        var moved := GetPage(newId);
        InsertIntoParent(id, moved.entries[0].key, newId, c, LowHalf(grown, at), right);
        height := Climbed(limits, c, grown, first);
      } else {
        PlugGrown(limits, pages, c, grown, pool.nextId);
        tree, height := Plug(c, grown), Depth(c);
      }
    }
  }

  lemma PairBelow(c: Path, left: Tree, right: Tree, n: nat)
    requires OncePair(c, left, right, n)
    ensures left.id < n && right.id < n
  {
    OwnId(left);
    OwnId(right);
  }

  lemma InsertFirst(e: Entry)
    ensures InsertAt([], e) == [e]
  {
  }

  lemma InMiddle(a: seq<Entry>, es: seq<Entry>, b: seq<Entry>, i: nat)
    requires i < |es|
    ensures es[i] in a + es + b
  {
    assert (a + es + b)[|a| + i] == es[i];
  }

  lemma NowhereElse(a: seq<Entry>, es: seq<Entry>, b: seq<Entry>, k: Key)
    requires (forall e :: e in a ==> e.key < k) && (forall e :: e in b ==> k < e.key) && Find(es, k) < 0 && Sorted(es)
    ensures forall e :: e in a + es + b ==> e.key != k
  {
    FindIs(es, k);
  }

  lemma PlugGrown(m: Limits, p: Pages, c: Path, t: Tree, n: nat)
    requires At(c, t, 0) && PathFilled(m, c) && HoleFilled(m, c, t) && Shows(p, c, t) && Once(c, t, n)
    ensures Ordered(Plug(c, t), Depth(c)) && RootFilled(m, Plug(c, t)) && Shows(p, Top, Plug(c, t)) &&
      Once(Top, Plug(c, t), n)
    ensures Plug(c, t).id == RootOf(c, t.id) && Entries(Plug(c, t)) == LeftOf(c) + Entries(t) + RightOf(c)
  {
    hide Plug, Ordered, Entries, RootFilled, Shows, Once, LeftOf, RightOf, PathFilled, HoleFilled, OrderedPath, Fits,
      RootOf;
    PlugOrdered(c, t, 0);
    PlugFilled(m, c, t);
    ShowsWhole(p, c, t);
    OnceWhole(c, t, n);
    PlugRoot(c, t);
    PlugEntries(c, t);
  }

  /** An overfull leaf splits into two halves ready for the parent. */
  lemma SplitGrown(m: Limits, p: Pages, c: Path, t: Tree, newId: nat)
    requires LimitsOk(m) && t.Leaf? && |t.entries| == m.leafMax && At(c, t, 0) && Shows(p, c, t) && Once(c, t, newId)
    ensures var at := (m.leafMax + 1) / 2;
      && t.id in p && p[t.id].LeafPage? && p[t.id].entries == t.entries && t.id < newId && PathSized(c)
      && LowHalf(t, at).id == t.id && HighHalf(t, at, newId).id == newId
      && ShowsPair(SplitLeafPages(p, t.id, at, newId), c, LowHalf(t, at), HighHalf(t, at, newId))
      && OncePair(c, LowHalf(t, at), HighHalf(t, at, newId), newId + 1)
  {
    var at := (m.leafMax + 1) / 2;
    OwnId(t);
    OrderedPathSized(c, 0);
    SplitLeafShows(p, c, t, at, newId);
    SplitOnce(c, t, at, newId);
  }

  lemma LeafFirstKey(p: Pages, c: Path, t: Tree, at: nat, newId: nat)
    requires t.Leaf? && at < |t.entries| && ShowsPair(p, c, LowHalf(t, at), HighHalf(t, at, newId))
    ensures newId in p && p[newId].LeafPage? && |p[newId].entries| > 0 && p[newId].entries[0].key == MiddleKey(t, at)
  {
  }

  /** The tree that results is in order, within limits, and holds what the overfull leaf held. */
  lemma Climbed(m: Limits, c: Path, t: Tree, newId: nat) returns (height: nat)
    requires LimitsOk(m) && t.Leaf? && |t.entries| == m.leafMax && At(c, t, 0) && PathFilled(m, c) && PathSized(c)
    ensures var at := (m.leafMax + 1) / 2;
      var r := Climb(m, c, LowHalf(t, at), MiddleKey(t, at), HighHalf(t, at, newId), newId + 1);
      Ordered(r, height) && RootFilled(m, r) && Entries(r) == LeftOf(c) + t.entries + RightOf(c)
  {
    var at := (m.leafMax + 1) / 2;
    var low, high := LowHalf(t, at), HighHalf(t, at, newId);
    SplitReady(c, t, 0, at, newId);
    HalvesFilled(m, t, newId);
    hide Climb, Ready, Filled, Ordered, RootFilled;
    height := ClimbOrdered(m, c, low, MiddleKey(t, at), high, 0, newId + 1);
    ClimbFilled(m, c, low, MiddleKey(t, at), high, newId + 1);
    Regroup(LeftOf(c), Entries(low), Entries(high), RightOf(c));
  }

  /** The leaf with the new entry still stands in order at the end of its path. */
  lemma LeafInserted(m: Limits, p: Pages, c: Path, t: Tree, n: nat, e: Entry)
    requires t.Leaf? && Place(m, p, c, t, 0, n, e.key) && Find(t.entries, e.key) < 0
    ensures var t' := Leaf(t.id, InsertAt(t.entries, e));
      && t.id in p && p[t.id] == LeafPage(ParentOf(c), t.entries, NextAfter(c))
      && At(c, t', 0) && PathFilled(m, c) && Shows(p[t.id := p[t.id].(entries := InsertAt(t.entries, e))], c, t')
      && Once(c, t', n) && t.id < n && |InsertAt(t.entries, e)| == |t.entries| + 1
      && (|t.entries| + 1 < m.leafMax ==> HoleFilled(m, c, t'))
      && |t.entries| < m.leafMax
  {
    InsertAtSorted(t.entries, e);
    InsertAtHas(t.entries, e);
    hide Sorted, KeyIndex, HoldsPath, Shows, PathApart, PathIds, OrderedPath, Fits, PathFilled, Routes;
    FitsRouted(c, t.entries, e.key, InsertAt(t.entries, e));
    LeafWrite(p, c, t, InsertAt(t.entries, e), n);
    OwnId(t);
  }

  lemma WidenedPage(p: Pages, c: Path, left: Tree, key: Key, right: Tree)
    requires c.In? && |c.keys| == |c.before| + 1 + |c.after| && Shows(p, c.up, Widen(c, left, key, right))
    ensures var n := Widen(c, left, key, right);
      n.id == c.id && c.id in p && p[c.id].InnerPage? && |p[c.id].slots| == |n.kids|
  {
  }

  lemma RootAbove(c: Path, id: nat)
    requires c.In?
    ensures RootOf(c, id) == RootOf(c.up, c.id)
  {
  }

  lemma PathAbove(m: Limits, c: Path)
    requires c.In? && PathFilled(m, c)
    ensures PathFilled(m, c.up)
  {
  }

  lemma PathLimit(m: Limits, c: Path)
    requires c.In? && PathFilled(m, c)
    ensures |c.keys| <= m.innerMax
  {
  }

  lemma HalvesAre(t: Tree, at: nat, newId: nat)
    requires t.Node? && at <= |t.kids| == |t.keys|
    ensures LowHalf(t, at).id == t.id && HighHalf(t, at, newId).id == newId
  {
  }

  /** Children of a shown node are pages of their own. */
  lemma ChildrenApart(p: Pages, c: Path, t: Tree, n: nat)
    requires t.Node? && Shows(p, c, t) && Once(c, t, n)
    ensures t.id in p && p[t.id].InnerPage? && t.id < n
    ensures forall i :: 0 <= i < |p[t.id].slots| ==>
      var x := p[t.id].slots[i].child; x in p && x != t.id && x != n
  {
    NodeHolds(p, t, ParentOf(c), NextAfter(c));
    OwnId(t);
    forall i | 0 <= i < |t.kids|
      ensures t.kids[i].id in p && t.kids[i].id != t.id && t.kids[i].id < n
    {
      OwnId(t.kids[i]);
      KidLacks(t, i);
      assert t.kids[i].id in Ids(t);
    }
  }

  lemma FirstKey(p: Pages, c: Path, t: Tree, at: nat, newId: nat)
    requires t.Node? && at < |t.kids| == |t.keys| && ShowsPair(p, c, LowHalf(t, at), HighHalf(t, at, newId))
    ensures newId in p && p[newId].InnerPage? && |p[newId].slots| > 0 && p[newId].slots[0].key == MiddleKey(t, at)
  {
  }

  lemma ClimbAtTop(m: Limits, c: Path, left: Tree, key: Key, right: Tree, newId: nat) returns (t: Tree)
    requires LimitsOk(m) && c.Top?
    ensures PathSized(c) && t == Climb(m, c, left, key, right, newId) == Node(newId, [0, key], [left, right])
  {
    t := Climb(m, c, left, key, right, newId);
  }

  lemma PairPages(p: Pages, c: Path, left: Tree, right: Tree)
    requires ShowsPair(p, c, left, right)
    ensures left.id in p && right.id in p && p[left.id].parent == ParentOf(c)
  {
  }

  lemma AdoptNone(p: Pages, page: Page, newId: int, start: nat)
    requires page.InnerPage? && start <= |page.slots| && newId in p && p[newId] == InnerPage(page.parent, [])
    ensures p == Adopted(p[newId := InnerPage(page.parent, page.slots[start..start])], page.slots[start..start], newId)
  {
    assert page.slots[start..start] == [];
  }

  lemma AdoptKeeps(p: Pages, moved: seq<Slot>, parent: int, id: int)
    requires id in p
    ensures id in Adopted(p, moved, parent)
  {
  }

  lemma AdoptElsewhere(p: Pages, moved: seq<Slot>, parent: int, id: int, page: Page)
    requires id in p && !HasChild(moved, id)
    ensures Adopted(p, moved, parent)[id := page] == Adopted(p[id := page], moved, parent)
  {
  }

  lemma AdoptNext(p: Pages, page: Page, newId: int, start: nat, i: nat)
    requires page.InnerPage? && start <= i < |page.slots|
    requires forall j :: 0 <= j < |page.slots| ==> page.slots[j].child in p && page.slots[j].child != newId
    ensures var slot := page.slots[i];
      var q := Adopted(p[newId := InnerPage(page.parent, page.slots[start..i])], page.slots[start..i], newId);
      && newId in q && q[newId].InnerPage? && slot.child in q
      && var r := q[newId := q[newId].(slots := q[newId].slots + [slot])];
      slot.child in r &&
      r[slot.child := r[slot.child].(parent := newId)] ==
        Adopted(p[newId := InnerPage(page.parent, page.slots[start..i + 1])], page.slots[start..i + 1], newId)
  {
    var s, t := page.slots[start..i], page.slots[start..i + 1];
    assert t == s + [page.slots[i]];
    forall x
      ensures HasChild(t, x) <==> HasChild(s, x) || x == page.slots[i].child
    {
      if HasChild(s, x) {
        var j :| 0 <= j < |s| && s[j].child == x;
        assert t[j].child == x;
      }
      assert t[|s|] == page.slots[i];
    }
  }

  lemma StartPlace(m: Limits, p: Pages, t: Tree, h: nat, n: nat, k: Key)
    requires Ordered(t, h) && RootFilled(m, t) && Shows(p, Top, t) && Once(Top, t, n)
    ensures Place(m, p, Top, t, h, n, k) && Plug(Top, t) == t && RootOf(Top, t.id) == t.id && t.id in p
  {
  }

  lemma SlotsAre(t: Tree)
    requires t.Node? && |t.keys| == |t.kids|
    ensures forall i :: 0 <= i < |t.kids| ==> Slots(t.keys, t.kids)[i] == Slot(t.keys[i], t.kids[i].id)
  {
  }

  lemma PlacePage(m: Limits, p: Pages, c: Path, t: Tree, h: nat, n: nat, k: Key)
    requires Place(m, p, c, t, h, n, k)
    ensures t.id in p && (p[t.id].InnerPage? <==> t.Node?)
  {
  }

  lemma LeafHolds(m: Limits, p: Pages, c: Path, t: Tree, h: nat, n: nat, k: Key)
    requires Place(m, p, c, t, h, n, k) && t.id in p && !p[t.id].InnerPage?
    ensures t.Leaf? && h == 0 && t.id in p && p[t.id] == LeafPage(ParentOf(c), t.entries, NextAfter(c))
  {
  }
}
