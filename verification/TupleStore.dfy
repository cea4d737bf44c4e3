/** A chain of slotted pages behind stable locators: a map from locators to byte strings. */
module TupleStore {
  import opened Table
  import opened ByteFormat
  import opened ValuePage
  import opened TreeShape
  import opened PageFile
  import opened BufferPool

  /** Page ids are signed 32-bit numbers. */
  const MAX_PAGES: nat := 0x7FFF_FFFF
  const MAX_VALUE: nat := PAGE_SIZE - HEADER_SIZE - SLOT_SIZE

  function Link(id: int): u32
    requires INVALID <= id < MAX_PAGES
  {
    if id == INVALID then 0xFFFF_FFFF else id
  }

  function Linked(n: u32): int {
    if n < 0x8000_0000 then n else n - 0x1_0000_0000
  }

  type Pages = map<int, Bytes>

  function LinkOf(b: Bytes): int {
    if |b| == PAGE_SIZE then Linked(Next(b)) else INVALID
  }

  predicate Held(p: Pages, x: Rid) {
    x.pageId in p && PageOk(p[x.pageId]) && x.slot < NumSlots(p[x.pageId])
  }

  function Stored(p: Pages, x: Rid): Option<Bytes> {
    if x.pageId in p && PageOk(p[x.pageId]) then ValueAt(p[x.pageId], x.slot) else None
  }

  /** The pages from `first` along the links, each once, all of them in order. */
  predicate Chained(p: Pages, chain: seq<int>, first: int, n: nat) {
    && n <= MAX_PAGES
    && first == NextIn(chain, -1)
    && (forall i :: 0 <= i < |chain| ==> chain[i] in p && 0 <= chain[i] < n)
    && (forall i, j :: 0 <= i < j < |chain| ==> chain[i] != chain[j])
    && (forall id :: id in p ==> id in chain && PageOk(p[id]))
    && (forall i :: 0 <= i < |chain| ==> LinkOf(p[chain[i]]) == NextIn(chain, i))
  }

  function NextIn(chain: seq<int>, i: int): int
    requires -1 <= i
  {
    if i + 1 < |chain| then chain[i + 1] else INVALID
  }

  function EmptyPage(next: int): (b: Bytes)
    requires INVALID <= next < MAX_PAGES
    ensures |b| == PAGE_SIZE
  {
    Put32(Put32(Put32(seq(PAGE_SIZE, _ => 0), 0, Link(next)), 4, 0), 8, PAGE_SIZE)
  }

  lemma EmptyPageIs(next: int)
    requires INVALID <= next < MAX_PAGES
    ensures var b := EmptyPage(next);
      PageOk(b) && NumSlots(b) == 0 && LinkOf(b) == next && FreeSpace(b) == PAGE_SIZE - HEADER_SIZE
  {
    hide Get32, Write;
    var b0: Bytes := seq(PAGE_SIZE, _ => 0);
    var b1 := Put32(b0, 0, Link(next));
    var b2 := Put32(b1, 4, 0);
    GetPut(b0, 0, Link(next));
    GetPut(b1, 4, 0);
    GetPut(b2, 8, PAGE_SIZE);
    FieldKeeps(b1, 4, U32(0), 0);
    FieldKeeps(b2, 8, U32(PAGE_SIZE), 0);
    FieldKeeps(b2, 8, U32(PAGE_SIZE), 4);
  }

  /** One page rewritten without touching its link keeps the chain. */
  lemma ChainKeeps(p: Pages, chain: seq<int>, first: int, n: nat, id: int, b: Bytes)
    requires Chained(p, chain, first, n) && id in p && PageOk(b) && LinkOf(b) == LinkOf(p[id])
    ensures Chained(p[id := b], chain, first, n)
  {
    hide PageOk, LinkOf;
  }

  lemma ChainGrows(p: Pages, chain: seq<int>, first: int, n: nat, b: Bytes)
    requires Chained(p, chain, first, n) && n < MAX_PAGES && PageOk(b) && LinkOf(b) == first
    ensures Chained(p[n := b], [n as int] + chain, n, n + 1) && n !in p
  {
    hide PageOk, LinkOf;
    var q, links := p[n := b], [n as int] + chain;
    assert n !in chain;
    forall i | 0 <= i < |links|
      ensures links[i] in q && 0 <= links[i] < n + 1 && LinkOf(q[links[i]]) == NextIn(links, i)
    {
      if i > 0 {
        assert links[i] == chain[i - 1] && LinkOf(p[chain[i - 1]]) == NextIn(chain, i - 1);
      }
    }
    assert forall i :: 0 <= i < |chain| ==> links[i + 1] == chain[i];
    forall i, j | 0 <= i < j < |links|
      ensures links[i] != links[j]
    {
      assert links[j] == chain[j - 1];
      assert i > 0 ==> links[i] == chain[i - 1];
    }
    forall id | id in q
      ensures id in links
    {
      if id != n {
        assert id in chain;
      }
    }
  }

  /** A higher page count keeps the chain. */
  lemma ChainedUp(p: Pages, chain: seq<int>, first: int, n: nat, m: nat)
    requires Chained(p, chain, first, n) && n <= m <= MAX_PAGES
    ensures Chained(p, chain, first, m)
  {
    hide PageOk, LinkOf;
  }

  /** These pages are what the pool shows under their numbers. */
  ghost predicate Mirrors(p: Pages, logical: map<int, Content>) {
    forall id :: id in p ==> id in logical && logical[id] == Value(p[id])
  }

  /** `pages` are the store's own pages of the pool; every access goes through the pool. */
  class TupleStore {
    const pool: BufferPool
    var first: int
    ghost var pages: Pages
    ghost var chain: seq<int>
    ghost var bound: nat

    ghost predicate Mirrored()
      reads this, pool, pool.replacer
    {
      pool.Ready() && Mirrors(pages, pool.logical)
    }

    /** The pages of the pool that are not the store's. */
    ghost function Others(): map<int, Content>
      reads this, pool
    {
      pool.logical - pages.Keys
    }

    ghost predicate Valid()
      reads this, pool, pool.replacer
    {
      Mirrored() && bound <= pool.nextId && Chained(pages, chain, first, bound)
    }

    constructor (over: BufferPool)
      requires over.Ready()
      ensures Valid() && pages == map[] && pool == over && first == INVALID && chain == []
    {
      pool, first := over, INVALID;
      pages, chain, bound := map[], [], 0;
    }

    /** A store whose chain head was read back; its pages are in the pool. */
    constructor Open(over: BufferPool, firstId: int, ghost stored: Pages, ghost links: seq<int>, ghost count: nat)
      requires over.Ready() && Mirrors(stored, over.logical) && count <= over.nextId &&
        Chained(stored, links, firstId, count)
      ensures Valid() && pages == stored && pool == over && first == firstId && chain == links
    {
      pool, first := over, firstId;
      pages, chain, bound := stored, links, count;
    }

    // ------------------------------------------------ pages through the pool

    method GetPage(id: int) returns (b: Bytes)
      requires Mirrored() && id in pages
      modifies pool, pool.replacer
      ensures Mirrored() && b == pages[id] && pool.logical == old(pool.logical) && pool.nextId == old(pool.nextId)
    {
      PoolNumbers(pool);
      var c := pool.Read(id);
      b := c.bytes;
    }

    method PutPage(id: int, b: Bytes)
      requires Mirrored() && id in pages
      modifies `pages, pool, pool.replacer
      ensures Mirrored() && pages == old(pages)[id := b] && pool.nextId == old(pool.nextId) && Others() == old(Others())
    {
      PoolNumbers(pool);
      pool.Write(id, Value(b));
      pages := pages[id := b];
    }

    method NewPage(b: Bytes) returns (id: nat)
      requires Mirrored()
      modifies `pages, pool, pool.replacer
      ensures Mirrored() && pages == old(pages)[id := b] && Others() == old(Others())
      ensures id == old(pool.nextId) && pool.nextId == id + 1
    {
      id := pool.Allocate(Value(b));
      pages := pages[id := b];
    }

    /** A locator leads to a page of values or to no written page at all. */
    ghost predicate Addressable(x: Rid)
      reads this, pool
    {
      0 <= x.pageId < pool.nextId && x.pageId !in pages ==> Of(pool.logical, x.pageId).Blank?
    }

    /** The page behind a locator; a page never written reads as one without slots. */
    method FetchValues(x: Rid) returns (r: Option<Bytes>)
      requires Mirrored() && Addressable(x)
      modifies pool, pool.replacer
      ensures Mirrored() && pool.logical == old(pool.logical) && pool.nextId == old(pool.nextId)
      ensures r == if x.pageId in pages then Some(pages[x.pageId]) else None
    {
      PoolNumbers(pool);
      if x.pageId < 0 || x.pageId >= pool.nextId {
        return None;
      }
      var c := pool.Read(x.pageId);
      if c.Blank? {
        return None;
      }
      return Some(c.bytes);
    }

    // ---------------------------------------------------------------- values

    /** The first page of the chain with room. */
    method FindPageWithSpace(need: nat) returns (id: int)
      requires Valid()
      modifies pool, pool.replacer
      ensures Valid() && pool.logical == old(pool.logical) && pool.nextId == old(pool.nextId)
      ensures id != INVALID ==> id in pages && PageOk(pages[id]) && need <= FreeSpace(pages[id])
    {
      hide PageOk, FreeSpace, LinkOf, Mirrors, BufferPool.Ready;
      id := first;
      ghost var i := 0;
      while id != INVALID
        invariant Mirrored() && pool.logical == old(pool.logical) && pool.nextId == old(pool.nextId)
        invariant 0 <= i <= |chain| && id == NextIn(chain, i - 1)
        decreases |chain| - i
      {
        var b := GetPage(id);
        PageBounds(b);
        if FreeSpace(b) >= need {
          return;
        }
        assert LinkOf(pages[chain[i]]) == NextIn(chain, i);
        LinkIs(b);
        id := Linked(Next(b));
        i := i + 1;
      }
    }

    /** A page of the chain with room, or a new one at its head. */
    method FindOrCreatePageWithSpace(need: nat) returns (id: int)
      requires Valid() && need <= PAGE_SIZE - HEADER_SIZE && pool.nextId < MAX_PAGES
      modifies this, pool, pool.replacer
      ensures Valid() && id in pages && PageOk(pages[id]) && need <= FreeSpace(pages[id])
      ensures Others() == old(Others()) && pool.nextId >= old(pool.nextId)
      ensures forall x :: Stored(pages, x) == old(Stored(pages, x)) && (Held(pages, x) <==> old(Held(pages, x)))
    {
      hide PageOk, FreeSpace, LinkOf, Chained, Stored, Held, EmptyPage, Mirrors, BufferPool.Ready;
      id := FindPageWithSpace(need);
      if id != INVALID {
        return;
      }
      ghost var n := pool.nextId;
      ChainedUp(pages, chain, first, bound, n);
      FirstBounds(pages, chain, first, n);
      EmptyPageIs(first);
      ChainGrows(pages, chain, first, n, EmptyPage(first));
      PageBounds(EmptyPage(first));
      EmptyStored(pages, n, EmptyPage(first));
      id := NewPage(EmptyPage(first));
      chain, bound := [id] + chain, n + 1;
      first := id;
    }

    /**
     * Store a value under a locator that was never handed out; no other locator changes, nor any page that is not the
     * store's. A value too large for one page is refused and nothing changes.
     */
    method Put(v: Bytes) returns (r: Option<Rid>)
      requires Valid() && pool.nextId < MAX_PAGES
      modifies this, pool, pool.replacer
      ensures Valid() && (r.None? <==> |v| > MAX_VALUE)
      ensures r.None? ==> pages == old(pages) && pool.logical == old(pool.logical) && first == old(first)
      ensures Others() == old(Others()) && pool.nextId >= old(pool.nextId)
      ensures r.Some? ==>
        && !old(Held(pages, r.value)) && Stored(pages, r.value) == Some(v)
        && (forall x :: x != r.value ==> Stored(pages, x) == old(Stored(pages, x)))
        && (forall x :: Held(pages, x) <==> x == r.value || old(Held(pages, x)))
    {
      hide PageOk, NumSlots, FreeSpace, Appended, Chained, Stored, Held, LinkOf, Mirrors, BufferPool.Ready;
      if |v| > MAX_VALUE {
        return None;
      }
      var id := FindOrCreatePageWithSpace(SLOT_SIZE + |v|);
      var b := GetPage(id);
      PageBounds(b);
      AppendStored(pages, id, v);
      ChainKeeps(pages, chain, first, bound, id, Appended(b, v));
      PutPage(id, Appended(b, v));
      return Some(Rid(id, NumSlots(b)));
    }

    method Get(x: Rid) returns (r: Option<Bytes>)
      requires Valid() && Addressable(x)
      modifies pool, pool.replacer
      ensures Valid() && pool.logical == old(pool.logical) && pool.nextId == old(pool.nextId)
      ensures r == Stored(pages, x)
    {
      hide PageOk, NumSlots, Length, Offset, FreePtr, Chained, Stored, LinkOf, Mirrors, BufferPool.Ready;
      var page := FetchValues(x);
      if page.None? {
        NoPage(pages, x);
        return None;
      }
      var b := page.value;
      PageIn(pages, chain, first, bound, x.pageId);
      PageBounds(b);
      StoredIs(pages, x);
      if x.slot < NumSlots(b) && Length(b, x.slot) != TOMBSTONE {
        return Some(b[Offset(b, x.slot)..Offset(b, x.slot) + Length(b, x.slot)]);
      }
      return None;
    }

    /** Tombstone a locator: true exactly when it held a value; every other locator keeps its own. */
    method Delete(x: Rid) returns (removed: bool)
      requires Valid() && Addressable(x)
      modifies `pages, pool, pool.replacer
      ensures Valid() && removed == old(Stored(pages, x)).Some? && Stored(pages, x) == None
      ensures Others() == old(Others()) && pool.nextId == old(pool.nextId)
      ensures forall y :: y != x ==> Stored(pages, y) == old(Stored(pages, y))
      ensures forall y :: Held(pages, y) <==> old(Held(pages, y))
    {
      hide PageOk, NumSlots, Deleted, Length, Chained, Stored, Held, LinkOf, Mirrors, BufferPool.Ready;
      var page := FetchValues(x);
      if page.None? {
        NoPage(pages, x);
        return false;
      }
      var b := page.value;
      PageIn(pages, chain, first, bound, x.pageId);
      PageBounds(b);
      StoredMeans(pages, x);
      if x.slot >= NumSlots(b) || Length(b, x.slot) == TOMBSTONE {
        return false;
      }
      DeleteStored(pages, x);
      ChainKeeps(pages, chain, first, bound, x.pageId, Deleted(b, x.slot));
      PutPage(x.pageId, Deleted(b, x.slot));
      return true;
    }

    /**
     * Overwrite in place when the new bytes fit, else delete and store anew. A value too large for one page makes
     * the second step fail after the first: the old value is gone.
     */
    method Update(x: Rid, v: Bytes) returns (r: Option<Rid>)
      requires Valid() && Addressable(x) && pool.nextId < MAX_PAGES
      modifies this, pool, pool.replacer
      ensures Valid() && (r.None? <==> |v| > MAX_VALUE) && Others() == old(Others()) && pool.nextId >= old(pool.nextId)
      ensures r.Some? ==>
        && Stored(pages, r.value) == Some(v)
        && (r.value != x ==> !old(Held(pages, r.value)) && Stored(pages, x) == None)
        && (old(Stored(pages, x)).Some? && |v| <= |old(Stored(pages, x)).value| ==> r.value == x)
        && (r.value == x && old(Held(pages, x)) ==> old(Stored(pages, x)).Some? && |v| <= |old(Stored(pages, x)).value|)
        && forall y :: y != x && y != r.value ==> Stored(pages, y) == old(Stored(pages, y))
      ensures r.None? ==> Stored(pages, x) == None && forall y :: y != x ==> Stored(pages, y) == old(Stored(pages, y))
    {
      hide PageOk, NumSlots, Overwritten, Length, Stored, Held, Chained, LinkOf, Mirrors, BufferPool.Ready;
      var page := FetchValues(x);
      if page.Some? {
        var b := page.value;
        PageIn(pages, chain, first, bound, x.pageId);
        PageBounds(b);
        StoredMeans(pages, x);
        if x.slot < NumSlots(b) && Length(b, x.slot) != TOMBSTONE && |v| <= Length(b, x.slot) {
          OverwriteStored(pages, x, v);
          ChainKeeps(pages, chain, first, bound, x.pageId, Overwritten(b, x.slot, v));
          PutPage(x.pageId, Overwritten(b, x.slot, v));
          return Some(x);
        }
      } else {
        NoPage(pages, x);
      }
      var _ := Delete(x);
      r := Put(v);
    }
  }

  lemma LiveMeans(b: Bytes, i: nat)
    requires PageOk(b)
    ensures Live(b, i) <==> ValueAt(b, i).Some?
    ensures i < NumSlots(b) ==> (Length(b, i) != TOMBSTONE <==> Live(b, i))
    ensures ValueAt(b, i).Some? ==> |ValueAt(b, i).value| == Length(b, i) <= MAX_VALUE
  {
    if Live(b, i) {
      assert Inside(b, i);
    }
  }

  lemma StoredMeans(p: Pages, x: Rid)
    requires x.pageId in p && PageOk(p[x.pageId])
    ensures var b := p[x.pageId];
      && (Stored(p, x).Some? <==> x.slot < NumSlots(b) && Length(b, x.slot) != TOMBSTONE)
      && (Stored(p, x).Some? ==> |Stored(p, x).value| == Length(b, x.slot) <= MAX_VALUE && Live(b, x.slot))
  {
    LiveMeans(p[x.pageId], x.slot);
  }

  lemma StoredIs(p: Pages, x: Rid)
    requires x.pageId in p && PageOk(p[x.pageId])
    ensures var b := p[x.pageId];
      Stored(p, x) ==
        if Live(b, x.slot) && Inside(b, x.slot) then Some(b[Offset(b, x.slot)..Offset(b, x.slot) + Length(b, x.slot)])
        else None
    ensures Inside(p[x.pageId], x.slot)
  {
  }

  lemma NoPage(p: Pages, x: Rid)
    requires x.pageId !in p
    ensures Stored(p, x).None?
  {
  }

  lemma AppendStored(p: Pages, id: int, v: Bytes)
    requires id in p && PageOk(p[id]) && SLOT_SIZE + |v| <= FreeSpace(p[id])
    ensures var q := p[id := Appended(p[id], v)]; var at := Rid(id, NumSlots(p[id]));
      && PageOk(Appended(p[id], v)) && LinkOf(Appended(p[id], v)) == LinkOf(p[id])
      && !Held(p, at) && Stored(q, at) == Some(v)
      && (forall x :: x != at ==> Stored(q, x) == Stored(p, x))
      && (forall x :: Held(q, x) <==> x == at || Held(p, x))
  {
    AppendKeeps(p[id], v);
    LinkIs(p[id]);
    LinkIs(Appended(p[id], v));
    hide PageOk, Appended;
    PastEnd(p[id]);
    PastEnd(Appended(p[id], v));
  }

  lemma PastEnd(b: Bytes)
    requires PageOk(b)
    ensures forall i: nat :: i >= NumSlots(b) ==> ValueAt(b, i) == None
  {
  }

  lemma DeleteStored(p: Pages, x: Rid)
    requires x.pageId in p && PageOk(p[x.pageId]) && Live(p[x.pageId], x.slot)
    ensures var q := p[x.pageId := Deleted(p[x.pageId], x.slot)];
      && PageOk(Deleted(p[x.pageId], x.slot)) && LinkOf(Deleted(p[x.pageId], x.slot)) == LinkOf(p[x.pageId])
      && Stored(q, x) == None && Stored(p, x).Some? && (forall y :: y != x ==> Stored(q, y) == Stored(p, y))
      && (forall y :: Held(q, y) <==> Held(p, y))
  {
    DeleteKeeps(p[x.pageId], x.slot);
    LiveMeans(p[x.pageId], x.slot);
    LinkIs(p[x.pageId]);
    LinkIs(Deleted(p[x.pageId], x.slot));
    hide PageOk, Deleted;
    PastEnd(p[x.pageId]);
    PastEnd(Deleted(p[x.pageId], x.slot));
  }

  lemma OverwriteStored(p: Pages, x: Rid, v: Bytes)
    requires x.pageId in p && PageOk(p[x.pageId]) && Live(p[x.pageId], x.slot) && |v| <= Length(p[x.pageId], x.slot)
    ensures var q := p[x.pageId := Overwritten(p[x.pageId], x.slot, v)];
      && PageOk(Overwritten(p[x.pageId], x.slot, v))
      && LinkOf(Overwritten(p[x.pageId], x.slot, v)) == LinkOf(p[x.pageId])
      && Stored(q, x) == Some(v) && (forall y :: y != x ==> Stored(q, y) == Stored(p, y))
  {
    OverwriteKeeps(p[x.pageId], x.slot, v);
    LinkIs(p[x.pageId]);
    LinkIs(Overwritten(p[x.pageId], x.slot, v));
    hide PageOk, Overwritten;
    PastEnd(p[x.pageId]);
    PastEnd(Overwritten(p[x.pageId], x.slot, v));
  }

  lemma LinkIs(b: Bytes)
    requires PageOk(b)
    ensures |b| == PAGE_SIZE && LinkOf(b) == Linked(Next(b))
  {
  }

  lemma PageBounds(b: Bytes)
    requires PageOk(b)
    ensures Bounds(b)
  {
  }

  lemma EmptyStored(p: Pages, id: int, b: Bytes)
    requires id !in p && PageOk(b) && NumSlots(b) == 0
    ensures forall x :: Stored(p[id := b], x) == Stored(p, x) && (Held(p[id := b], x) <==> Held(p, x))
  {
    hide PageOk;
    PastEnd(b);
  }

  lemma PageIn(p: Pages, chain: seq<int>, first: int, n: nat, id: int)
    requires Chained(p, chain, first, n) && id in p
    ensures PageOk(p[id])
  {
  }

  lemma FirstBounds(p: Pages, chain: seq<int>, first: int, n: nat)
    requires Chained(p, chain, first, n) && n < MAX_PAGES
    ensures INVALID <= first < MAX_PAGES
  {
  }
}
