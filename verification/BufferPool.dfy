/** The LRU replacer and the buffer pool: a bounded set of frames that shows every page's last content. */
module BufferPool {
  import opened Table
  import opened PageFile
  import opened TreeShape

  function UpTo(n: nat): (r: seq<nat>)
    ensures |r| == n && (forall i :: 0 <= i < n ==> r[i] == i) && (forall i: nat :: i in r <==> i < n)
  {
    if n == 0 then [] else UpTo(n - 1) + [n - 1]
  }

  predicate NoRepeats(xs: seq<nat>) {
    forall i, j :: 0 <= i < j < |xs| ==> xs[i] != xs[j]
  }

  function Without(xs: seq<nat>, x: nat): (r: seq<nat>)
    ensures forall y :: y in r <==> y in xs && y != x
  {
    if xs == [] then []
    else if xs[|xs| - 1] == x then Without(xs[..|xs| - 1], x)
    else Without(xs[..|xs| - 1], x) + [xs[|xs| - 1]]
  }

  lemma {:induction false} WithoutNoRepeats(xs: seq<nat>, x: nat)
    requires NoRepeats(xs)
    ensures NoRepeats(Without(xs, x)) && |Without(xs, x)| == |xs| - (if x in xs then 1 else 0)
  {
    if xs != [] {
      var init, last := xs[..|xs| - 1], xs[|xs| - 1];
      WithoutNoRepeats(init, x);
      assert last !in init;
      var r := Without(init, x);
      forall i | 0 <= i < |r|
        ensures r[i] != last
      {
        assert r[i] in r;
      }
    }
  }

  lemma {:induction false} AtMost(xs: seq<nat>, n: nat)
    requires NoRepeats(xs) && forall y :: y in xs ==> y < n
    ensures |xs| <= n
    decreases n
  {
    if xs != [] {
      assert xs[0] in xs;
      WithoutNoRepeats(xs, n - 1);
      AtMost(Without(xs, n - 1), n - 1);
    }
  }

  /** Distinct numbers below n that miss one of them are fewer than n. */
  lemma Fewer(xs: seq<nat>, x: nat, n: nat)
    requires NoRepeats(xs) && (forall y :: y in xs ==> y < n) && x < n && x !in xs
    ensures |xs| < n
  {
    AtMost(xs + [x], n);
  }

  // -------------------------------------------------------------- replacer

  ghost function Stamp(released: map<nat, nat>, f: nat): nat {
    if f in released then released[f] else 0
  }

  ghost predicate Oldest(xs: seq<nat>, released: map<nat, nat>) {
    forall i, j :: 0 <= i < j < |xs| ==> Stamp(released, xs[i]) < Stamp(released, xs[j])
  }

  /** Frames nobody uses, least recently released first. */
  class LRUReplacer {
    const capacity: nat
    var unpinned: seq<nat>
    var pinned: seq<nat>
    ghost var clock: nat
    ghost var released: map<nat, nat>

    /** Each frame once, and the list in the order of release. */
    ghost predicate Valid()
      reads this
    {
      && NoRepeats(unpinned) && NoRepeats(pinned)
      && (forall f :: f in unpinned ==> Stamp(released, f) < clock)
      && Oldest(unpinned, released)
    }

    constructor (numPages: nat)
      ensures Valid() && unpinned == [] && pinned == [] && capacity == numPages
    {
      capacity, unpinned, pinned, clock, released := numPages, [], [], 0, map[];
    }

    /** Give up the frame released longest ago. */
    method Victim() returns (r: Option<nat>)
      requires Valid()
      modifies this
      ensures Valid() && (r.None? <==> old(unpinned) == []) && (r.None? ==> unpinned == old(unpinned))
      ensures r.Some? ==>
        && old(unpinned) == [r.value] + unpinned && r.value !in unpinned
        && forall g :: g in unpinned ==> Stamp(old(released), r.value) < Stamp(old(released), g)
    {
      if unpinned == [] {
        return None;
      }
      r := Some(unpinned[0]);
      assert unpinned == [unpinned[0]] + unpinned[1..];
      unpinned := unpinned[1..];
    }

    method Pin(f: nat)
      requires Valid()
      modifies this
      ensures Valid() && unpinned == Without(old(unpinned), f)
    {
      if f !in unpinned {
        WithoutAbsent(unpinned, f);
        return;
      }
      WithoutOrdered(unpinned, f, released);
      WithoutNoRepeats(unpinned, f);
      unpinned := Without(unpinned, f);
      if f !in pinned {
        pinned := pinned + [f];
      }
    }

    /** A frame already listed keeps its place; a new one goes to the end, if there is room. */
    method Unpin(f: nat)
      requires Valid()
      modifies this
      ensures Valid()
      ensures unpinned ==
        if f in old(unpinned) || |old(unpinned)| >= capacity then old(unpinned) else old(unpinned) + [f]
    {
      if f in pinned {
        WithoutNoRepeats(pinned, f);
        pinned := Without(pinned, f);
      }
      if f in unpinned || |unpinned| >= capacity {
        return;
      }
      released := released[f := clock];
      clock := clock + 1;
      unpinned := unpinned + [f];
    }

    method Size() returns (n: nat)
      ensures n == |unpinned|
    {
      n := |unpinned|;
    }
  }

  lemma {:induction false} WithoutAbsent(xs: seq<nat>, x: nat)
    requires x !in xs
    ensures Without(xs, x) == xs
  {
    if xs != [] {
      WithoutAbsent(xs[..|xs| - 1], x);
    }
  }

  lemma {:induction false} WithoutOrdered(xs: seq<nat>, x: nat, released: map<nat, nat>)
    requires Oldest(xs, released)
    ensures Oldest(Without(xs, x), released)
  {
    if xs != [] {
      var init, last := xs[..|xs| - 1], xs[|xs| - 1];
      WithoutOrdered(init, x, released);
      var r := Without(init, x);
      forall i | 0 <= i < |r|
        ensures Stamp(released, r[i]) < Stamp(released, last)
      {
        assert r[i] in r;
        var k :| 0 <= k < |init| && init[k] == r[i];
        assert xs[k] == init[k];
      }
    }
  }

  // ------------------------------------------------------------------ pool

  datatype Frame = Frame(data: Content, pageId: int, pins: nat, dirty: bool)

  predicate Free(f: Frame) {
    f.pageId == INVALID && f.pins == 0 && !f.dirty && f.data == Blank
  }

  /** Frame i is free and listed so, or holds the one page the table maps to it. */
  predicate FrameOk(frames: seq<Frame>, table: map<int, nat>, free: seq<nat>, i: nat)
    requires i < |frames|
  {
    if i in free then Free(frames[i]) else frames[i].pageId in table && table[frames[i].pageId] == i
  }

  predicate FramesOk(frames: seq<Frame>, table: map<int, nat>, free: seq<nat>) {
    && NoRepeats(free) && (forall i :: i in free ==> i < |frames|)
    && (forall i :: 0 <= i < |frames| ==> FrameOk(frames, table, free, i))
    && (forall id :: id in table ==> id != INVALID && table[id] < |frames| && frames[table[id]].pageId == id)
  }

  /** The replacer lists every page that may be evicted, and besides only free frames. */
  predicate ListOk(frames: seq<Frame>, free: seq<nat>, lru: seq<nat>) {
    && NoRepeats(lru)
    && (forall i :: i in lru ==> i < |frames| && frames[i].pins == 0)
    && (forall i :: 0 <= i < |frames| && i !in free && frames[i].pins == 0 ==> i in lru)
  }

  /** Page `id` shows its last content; what is not marked dirty is on disk as well. */
  predicate Shown(f: Frame, id: int, disk: File, logical: map<int, Content>, pending: set<int>) {
    && f.data == Of(logical, id)
    && (f.dirty || id in pending || OnDisk(disk, id) == f.data)
    && (id in pending ==> f.pins > 0)
  }

  ghost predicate Coherent(frames: seq<Frame>, table: map<int, nat>, disk: File, logical: map<int, Content>,
                     pending: set<int>)
  {
    && (forall id :: id in table && table[id] < |frames| ==> Shown(frames[table[id]], id, disk, logical, pending))
    && (forall id :: id !in table ==> id !in pending && OnDisk(disk, id) == Of(logical, id))
  }

  predicate Numbered(table: map<int, nat>, disk: File, logical: map<int, Content>, next: nat) {
    && (forall id :: id in table ==> 0 <= id < next)
    && |disk| <= next
    && (forall id :: id in logical ==> 0 <= id < next)
  }

  /** Everything the pool keeps, with the last content given to each page and the pages changed since. */
  datatype State = State(frames: seq<Frame>, table: map<int, nat>, free: seq<nat>, lru: seq<nat>, disk: File,
                         next: nat, logical: map<int, Content>, pending: set<int>)

  ghost predicate Ok(v: State) {
    && FramesOk(v.frames, v.table, v.free) && ListOk(v.frames, v.free, v.lru)
    && Coherent(v.frames, v.table, v.disk, v.logical, v.pending) && Numbered(v.table, v.disk, v.logical, v.next)
  }

  // Each change of the pool, and that it keeps the pool coherent.

  function Evicted(v: State, i: nat): State
    requires i < |v.frames|
  {
    var f := v.frames[i];
    v.(frames := v.frames[i := Frame(Blank, INVALID, f.pins, false)], table := v.table - {f.pageId},
       free := v.free + [i],
       lru := Without(v.lru, i), disk := if f.dirty then WriteAt(v.disk, f.pageId, f.data) else v.disk)
  }

  lemma EvictFrames(v: State, i: nat)
    requires Ok(v) && i < |v.frames| && i !in v.free && v.frames[i].pins == 0
    ensures var w := Evicted(v, i); FramesOk(w.frames, w.table, w.free)
  {
    var w := Evicted(v, i);
    assert FrameOk(v.frames, v.table, v.free, i);
    forall j | 0 <= j < |w.frames|
      ensures FrameOk(w.frames, w.table, w.free, j)
    {
      assert FrameOk(v.frames, v.table, v.free, j);
    }
  }

  lemma EvictOk(v: State, i: nat)
    requires Ok(v) && i < |v.frames| && i !in v.free && v.frames[i].pins == 0
    ensures Ok(Evicted(v, i))
  {
    EvictFrames(v, i);
    EvictCoherent(v, i);
    WithoutNoRepeats(v.lru, i);
    assert FrameOk(v.frames, v.table, v.free, i);
    hide FramesOk, Coherent, FrameOk;
  }

  lemma EvictCoherent(v: State, i: nat)
    requires Ok(v) && i < |v.frames| && i !in v.free && v.frames[i].pins == 0
    ensures var w := Evicted(v, i); Coherent(w.frames, w.table, w.disk, w.logical, w.pending)
  {
    hide ListOk, NoRepeats, Without;
    var w, id := Evicted(v, i), v.frames[i].pageId;
    assert FrameOk(v.frames, v.table, v.free, i) && Shown(v.frames[i], id, v.disk, v.logical, v.pending);
    forall x | x in w.table
      ensures Shown(w.frames[w.table[x]], x, w.disk, w.logical, w.pending)
    {
      assert Shown(v.frames[v.table[x]], x, v.disk, v.logical, v.pending);
    }
  }

  /** A free frame taken for page `id`, with the content found on disk. */
  function Taken(v: State, i: nat, id: int, pins: nat): State
    requires i < |v.frames|
  {
    v.(frames := v.frames[i := Frame(OnDisk(v.disk, id), id, pins, false)], table := v.table[id := i],
       free := Without(v.free, i),
       lru := Without(v.lru, i))
  }

  lemma TakeOk(v: State, i: nat, id: int)
    requires Ok(v) && i in v.free && id !in v.table && 0 <= id < v.next
    ensures Ok(Taken(v, i, id, 1))
  {
    WithoutNoRepeats(v.lru, i);
    WithoutNoRepeats(v.free, i);
    var w := Taken(v, i, id, 1);
    assert FrameOk(v.frames, v.table, v.free, i);
    forall j | 0 <= j < |w.frames|
      ensures FrameOk(w.frames, w.table, w.free, j)
    {
      assert FrameOk(v.frames, v.table, v.free, j);
    }
    forall x | x in w.table
      ensures Shown(w.frames[w.table[x]], x, w.disk, w.logical, w.pending)
      ensures w.frames[w.table[x]].pageId == x
    {
      if x != id {
        assert Shown(v.frames[v.table[x]], x, v.disk, v.logical, v.pending);
        assert v.table[x] != i;
      }
    }
  }

  /** One mapped frame changed: its pins and flags, and perhaps its place in the replacer. */
  lemma TouchOk(v: State, w: State, id: int)
    requires Ok(v) && id in v.table && |w.frames| == |v.frames|
    requires w.frames == v.frames[v.table[id] := w.frames[v.table[id]]]
    requires w.table == v.table && w.free == v.free && w.next == v.next
    requires w.frames[w.table[id]].pageId == id && ListOk(w.frames, w.free, w.lru)
    requires Shown(w.frames[w.table[id]], id, w.disk, w.logical, w.pending)
    requires forall x :: x != id ==>
      OnDisk(w.disk, x) == OnDisk(v.disk, x) && Of(w.logical, x) == Of(v.logical, x) &&
        (x in w.pending <==> x in v.pending)
    requires |w.disk| <= w.next && (forall x :: x in w.logical ==> 0 <= x < w.next)
    ensures Ok(w)
  {
    var i := v.table[id];
    assert v.frames[i].pageId == id;
    assert FrameOk(v.frames, v.table, v.free, i);
    forall j | 0 <= j < |w.frames|
      ensures FrameOk(w.frames, w.table, w.free, j)
    {
      assert FrameOk(v.frames, v.table, v.free, j);
      assert j != i ==> w.frames[j] == v.frames[j];
    }
    forall x | x in w.table
      ensures w.frames[w.table[x]].pageId == x && Shown(w.frames[w.table[x]], x, w.disk, w.logical, w.pending)
    {
      if x != id {
        assert v.frames[v.table[x]].pageId == x && v.table[x] != i;
        assert Shown(v.frames[v.table[x]], x, v.disk, v.logical, v.pending);
      }
    }
  }

  /** A deleted page: its frame is free again, its content whatever the disk still holds. */
  function Dropped(v: State, i: nat, lru: seq<nat>): State
    requires i < |v.frames|
  {
    var f := v.frames[i];
    v.(frames := v.frames[i := Frame(Blank, INVALID, f.pins, false)], table := v.table - {f.pageId},
       free := v.free + [i],
       lru := lru,
       logical := v.logical[f.pageId := OnDisk(v.disk, f.pageId)])
  }

  lemma DropOk(v: State, i: nat, lru: seq<nat>)
    requires Ok(v) && i < |v.frames| && i !in v.free && v.frames[i].pins == 0
    requires NoRepeats(lru) && forall j :: j in lru <==> j in v.lru || j == i
    ensures Ok(Dropped(v, i, lru))
  {
    assert FrameOk(v.frames, v.table, v.free, i);
    EvictFrames(v, i);
    DropCoherent(v, i, lru);
    hide FramesOk, Coherent, FrameOk;
  }

  lemma DropCoherent(v: State, i: nat, lru: seq<nat>)
    requires Ok(v) && i < |v.frames| && i !in v.free && v.frames[i].pins == 0
    ensures var w := Dropped(v, i, lru); Coherent(w.frames, w.table, w.disk, w.logical, w.pending)
  {
    hide ListOk, NoRepeats;
    var w, id := Dropped(v, i, lru), v.frames[i].pageId;
    assert FrameOk(v.frames, v.table, v.free, i) && Shown(v.frames[i], id, v.disk, v.logical, v.pending);
    forall x | x in w.table
      ensures Shown(w.frames[w.table[x]], x, w.disk, w.logical, w.pending)
    {
      assert Shown(v.frames[v.table[x]], x, v.disk, v.logical, v.pending);
    }
  }

  /** Deleting a mapped page keeps the pool in order exactly when nobody holds the page pinned. */
  lemma DropExactly(v: State, i: nat, lru: seq<nat>)
    requires Ok(v) && i < |v.frames| && i !in v.free
    requires NoRepeats(lru) && forall j :: j in lru <==> j in v.lru || j == i
    ensures Ok(Dropped(v, i, lru)) <==> v.frames[i].pins == 0
  {
    if v.frames[i].pins == 0 {
      DropOk(v, i, lru);
    } else {
      var w := Dropped(v, i, lru);
      assert i in w.free && !FrameOk(w.frames, w.table, w.free, i);
    }
  }

  function Take(v: State, i: nat, id: int): Option<(State, nat)> {
    if i < |v.frames| then Some((Taken(v, i, id, v.frames[i].pins + 1), i)) else None
  }

  /**
   * FetchPage, on any pool: a mapped page gets one more pin; any other goes to the free frame listed last, or to the
   * frame released longest ago. The frame's pin count is raised by one, whatever it was.
   */
  function Fetched(v: State, id: int): Option<(State, nat)> {
    if id in v.table then (if v.table[id] < |v.frames| then Some((Pinned(v, id), v.table[id])) else None)
    else if v.free != [] then Take(v, v.free[|v.free| - 1], id)
    else if v.lru != [] && v.lru[0] < |v.frames| then Take(Evicted(v, v.lru[0]), v.lru[0], id)
    else None
  }

  /**
   * What a deleted page leaves behind: the next page fetched from the file gets the frame with all the pins of the
   * deleted one and one more, so that the holder's release does not make it evictable.
   */
  lemma LeftoverPins(v: State, i: nat, lru: seq<nat>, id: int)
    requires Ok(v) && i < |v.frames| && i !in v.free && (id in v.table ==> id == v.frames[i].pageId)
    ensures var (w, j) := Fetched(Dropped(v, i, lru), id).value;
      && j == i && id in w.table && w.table[id] == i && w.frames[i].pins == v.frames[i].pins + 1
      && (v.frames[i].pins > 0 ==> Released(w, id, true).frames[i].pins > 0 && i !in Released(w, id, true).lru)
  {
    var w := Fetched(Dropped(v, i, lru), id).value.0;
    assert w == Taken(Dropped(v, i, lru), i, id, v.frames[i].pins + 1);
    hide Ok;
  }

  class BufferPool {
    const replacer: LRUReplacer
    var frames: seq<Frame>
    var table: map<int, nat>
    var free: seq<nat>
    var disk: File
    var nextId: nat
    ghost var logical: map<int, Content>
    ghost var pending: set<int>

    ghost function Now(): State
      reads this, replacer
    {
      State(frames, table, free, replacer.unpinned, disk, nextId, logical, pending)
    }

    ghost predicate Valid()
      reads this, replacer
    {
      replacer.Valid() && replacer.capacity == |frames| && Ok(Now())
    }

    /** A pool over a file; page numbers go on from the size of the file. */
    constructor (slots: nat, file: File)
      ensures Valid() && |frames| == slots && logical == PagesOf(file) && nextId == |file| && fresh(replacer)
      ensures disk == file && pending == {} && forall i :: 0 <= i < |frames| ==> frames[i].pins == 0
    {
      frames := seq(slots, _ => Frame(Blank, INVALID, 0, false));
      free, table, disk, nextId, logical, pending := UpTo(slots), map[], file, |file|, PagesOf(file), {};
      replacer := new LRUReplacer(slots);
    }

    /** Make a frame free by evicting the page released longest ago; false if every frame is in use. */
    method Evict() returns (ok: bool)
      requires Valid() && free == []
      modifies this, replacer
      ensures Valid() && logical == old(logical) && pending == old(pending) && nextId == old(nextId)
      ensures |frames| == old(|frames|) && (ok <==> free != [])
      ensures !ok ==> Now() == old(Now()) && forall i :: 0 <= i < |frames| ==> frames[i].pins > 0
      ensures ok <==> old(replacer.unpinned) != []
      ensures ok ==> old(replacer.unpinned)[0] < |frames| && Now() == Evicted(old(Now()), old(replacer.unpinned)[0])
      ensures forall id :: id in table ==> id in old(table) && table[id] == old(table)[id]
      ensures forall i :: 0 <= i < |frames| && old(frames)[i].pins > 0 ==> frames[i] == old(frames)[i]
    {
      ghost var v := Now();
      var victim := replacer.Victim();
      if victim.None? {
        return false;
      }
      var i := victim.value;
      assert i in v.lru;
      assert FrameOk(v.frames, v.table, v.free, i);
      EvictOk(v, i);
      assert v.lru == [i] + replacer.unpinned;
      WithoutHead(i, replacer.unpinned);
      hide Ok;
      var f := frames[i];
      if f.dirty {
        disk := WriteAt(disk, f.pageId, f.data);
      }
      table := table - {f.pageId};
      frames := frames[i := Frame(Blank, INVALID, f.pins, false)];
      free := free + [i];
      assert Now() == Evicted(v, i);
      return true;
    }

    method PinMapped(id: int) returns (i: nat)
      requires Valid() && id in table
      modifies this, replacer
      ensures Valid() && old(table)[id] == i < |old(frames)| && Now() == Pinned(old(Now()), id)
      ensures frames[i].data == Of(logical, id)
    {
      ghost var v := Now();
      PinOk(v, id);
      hide Ok, Without, NoRepeats, Oldest, Of, Stamp;
      i := table[id];
      replacer.Pin(i);
      frames := frames[i := frames[i].(pins := frames[i].pins + 1)];
    }

    /** Put a page into a free frame: `i` leaves the free list and the replacer. */
    method TakeFrame(id: int, i: nat, pins: nat)
      requires Valid() && i in free && id !in table && 0 <= id < nextId && pins == 1
      modifies this, replacer
      ensures Valid() && i < |old(frames)| && Now() == Taken(old(Now()), i, id, pins)
      ensures frames[i].data == Of(logical, id)
    {
      ghost var v := Now();
      FreeFrame(v, i);
      TakeOk(v, i, id);
      TakenShows(v, i, id);
      hide Ok, Without, NoRepeats, Oldest, Of, Stamp;
      free := Without(free, i);
      frames := frames[i := Frame(OnDisk(disk, id), id, pins, false)];
      replacer.Pin(i);
      table := table[id := i];
    }

    /**
     * Pin a page into a frame. It shows the page's last content; null only when every frame is pinned. No pinned
     * frame changes but the page's own pin count.
     */
    method FetchPage(id: int) returns (r: Option<nat>)
      requires Valid() && 0 <= id < nextId
      modifies this, replacer
      ensures Valid() && logical == old(logical) && pending == old(pending) && nextId == old(nextId)
      ensures |frames| == old(|frames|)
      ensures r.None? ==> id !in old(table) && Now() == old(Now()) && forall i :: 0 <= i < |frames| ==>
        frames[i].pins > 0
      ensures r.Some? ==>
        && id in table && table[id] == r.value < |frames| && frames[r.value].data == Of(logical, id)
        && frames[r.value].pins == (if id in old(table) then old(frames)[r.value].pins else 0) + 1
      ensures Fetched(old(Now()), id) == if r.Some? then Some((Now(), r.value)) else None
      ensures forall i :: 0 <= i < |frames| && old(frames)[i].pins > 0 && r != Some(i) ==> frames[i] == old(frames)[i]
    {
      hide Ok, Oldest, Stamp, NoRepeats, Without, OnDisk, Of;
      if id in table {
        var i := PinMapped(id);
        return Some(i);
      }
      if free == [] {
        var ok := Evict();
        if !ok {
          return None;
        }
      }
      var i := free[|free| - 1];
      FreeFrame(Now(), i);
      TakeFrame(id, i, frames[i].pins + 1);
      return Some(i);
    }

    /** A page with a number never used before, all zeros, pinned. */
    method NewPage() returns (r: Option<(int, nat)>)
      requires Valid()
      modifies this, replacer
      ensures Valid() && pending == old(pending) && |frames| == old(|frames|)
      ensures r.None? ==> Now() == old(Now()) && forall i :: 0 <= i < |frames| ==> frames[i].pins > 0
      ensures r.Some? ==>
        var (id, i) := r.value;
        && id == old(nextId) && nextId == id + 1 && id !in old(table) && id in table && table[id] == i < |frames|
        && frames[i] == Frame(Blank, id, 1, false) && Of(logical, id) == Blank
        && forall j :: 0 <= j < |frames| && j != i ==> frames[j] == old(frames)[j]
      ensures logical == old(logical)
      ensures forall i :: 0 <= i < |frames| && old(frames)[i].pins > 0 ==> frames[i] == old(frames)[i]
    {
      if free == [] {
        var size := replacer.Size();
        if size == 0 {
          AllPinned(Now());
          return None;
        }
        var ok := Evict();
        if !ok {
          return None;
        }
      }
      var i := free[0];
      var id := nextId;
      FreeFrame(Now(), i);
      AllocateOk(Now());
      nextId := nextId + 1;
      hide Ok;
      TakeFrame(id, i, 1);
      return Some((id, i));
    }

    /** The caller writes into a page it holds pinned. */
    method WriteData(id: int, data: Content)
      requires Valid() && id in table && frames[table[id]].pins > 0
      modifies this
      ensures Valid() && logical == old(logical)[id := data] && pending == old(pending) + {id}
      ensures Now() == Written(old(Now()), id, data)
    {
      WriteOk(Now(), id, data);
      hide Ok;
      var i := table[id];
      frames := frames[i := frames[i].(data := data)];
      logical, pending := logical[id := data], pending + {id};
    }

    /**
     * Release one pin, remembering whether the page was changed. The last pin of a changed page must be released
     * as dirty, here or before.
     */
    method UnpinPage(id: int, isDirty: bool) returns (ok: bool)
      requires Valid()
      requires id in table && frames[table[id]].pins == 1 && id in pending ==> isDirty || frames[table[id]].dirty
      modifies this, replacer
      ensures Valid() && (ok <==> id in old(table) && old(frames)[old(table)[id]].pins > 0)
      ensures Now() == if id in old(table) then Released(old(Now()), id, isDirty) else old(Now())
    {
      if id !in table {
        return false;
      }
      ghost var v := Now();
      UnpinOk(v, id, isDirty);
      hide Ok, NoRepeats, Oldest, Stamp;
      var i := table[id];
      var f := frames[i];
      if f.pins == 1 {
        replacer.Unpin(i);
      }
      frames := frames[i := Frame(f.data, f.pageId, if f.pins == 0 then 0 else f.pins - 1, f.dirty || isDirty)];
      pending := Released(v, id, isDirty).pending;
      return f.pins > 0;
    }

    /** Write one page to disk if it is in a frame. */
    method FlushPage(id: int) returns (ok: bool)
      requires Valid()
      modifies this
      ensures Valid() && logical == old(logical) && table == old(table) && nextId == old(nextId)
      ensures ok <==> id in table
      ensures ok ==> OnDisk(disk, id) == Of(logical, id)
      ensures (forall x :: x != id ==> OnDisk(disk, x) == old(OnDisk(disk, x))) && |frames| == |old(frames)|
      ensures Now() == if ok then Flushed(old(Now()), id) else old(Now())
    {
      if id !in table {
        return false;
      }
      FlushOk(Now(), id);
      hide Ok;
      var i := table[id];
      disk := WriteAt(disk, id, frames[i].data);
      frames := frames[i := frames[i].(dirty := false)];
      return true;
    }

    /** Write every page in a frame to disk, frame by frame: the file then shows the last content of every page. */
    method FlushAllPages()
      requires Valid()
      modifies this
      ensures Valid() && logical == old(logical) && table == old(table) && nextId == old(nextId)
      ensures forall id :: OnDisk(disk, id) == Of(logical, id)
      ensures pending == old(pending) && |frames| == old(|frames|)
      ensures forall i :: 0 <= i < |frames| ==> frames[i].pins == old(frames)[i].pins
    {
      hide Ok, Of, Oldest, NoRepeats;
      var i := 0;
      while i < |frames|
        invariant i <= |frames| && Valid() && logical == old(logical) && table == old(table) && nextId == old(nextId)
        invariant pending == old(pending) && |frames| == old(|frames|)
        invariant forall j :: 0 <= j < |frames| ==> frames[j].pins == old(frames)[j].pins
        invariant forall id :: id in table && table[id] < i ==> OnDisk(disk, id) == Of(logical, id)
      {
        FrameMapped(Now(), i);
        if frames[i].pageId in table {
          var _ := FlushPage(frames[i].pageId);
        }
        i := i + 1;
      }
      Unmapped(Now());
    }

    /** No page is held: every frame can be evicted and nothing changed is unmarked. */
    ghost predicate Ready()
      reads this, replacer
    {
      Valid() && 0 < |frames| && pending == {} && forall i :: 0 <= i < |frames| ==> frames[i].pins == 0
    }

    /** A pool nobody holds a page of always has a frame to give. */
    method FetchOne(id: int) returns (i: nat)
      requires Ready() && 0 <= id < nextId
      modifies this, replacer
      ensures Valid() && logical == old(logical) && pending == old(pending) && nextId == old(nextId)
      ensures |frames| == old(|frames|) && id in table && table[id] == i < |frames| && frames[i].data == Of(logical, id)
      ensures frames[i].pins == 1 && forall j :: 0 <= j < |frames| && j != i ==> frames[j].pins == 0
    {
      hide Ok;
      SomeUnpinned(frames);
      ghost var v := Now();
      var r := FetchPage(id);
      i := r.value;
      FetchedElsewhere(v, id);
      assert id in v.table ==> v.frames[i].pins == 0;
    }

    /** Fetch a page, copy it out and release it. */
    method Read(id: int) returns (c: Content)
      requires Ready() && 0 <= id < nextId
      modifies this, replacer
      ensures Ready() && logical == old(logical) && nextId == old(nextId) && c == Of(logical, id)
    {
      hide Ok;
      var i := FetchOne(id);
      c := frames[i].data;
      var _ := UnpinPage(id, false);
    }

    /** Fetch a page, change it and release it as dirty. */
    method Write(id: int, c: Content)
      requires Ready() && 0 <= id < nextId
      modifies this, replacer
      ensures Ready() && logical == old(logical)[id := c] && nextId == old(nextId)
    {
      hide Ok;
      var _ := FetchOne(id);
      WriteData(id, c);
      var _ := UnpinPage(id, true);
    }

    /** A new page with this content. */
    method Allocate(c: Content) returns (id: nat)
      requires Ready()
      modifies this, replacer
      ensures Ready() && id == old(nextId) && nextId == id + 1 && logical == old(logical)[id := c] &&
        id !in old(logical)
    {
      hide Ok, Oldest, Stamp, NoRepeats, Without, OnDisk;
      PoolNumbers(this);
      SomeUnpinned(frames);
      var r := NewPage();
      id := r.value.0;
      WriteData(id, c);
      var _ := UnpinPage(id, true);
    }

    /**
     * Give a page up, pinned or not: the frame goes back to the free list with the pins it has. The pool stays in
     * order exactly when nobody held the page pinned.
     */
    method DeletePage(id: int) returns (ok: bool)
      requires Valid()
      modifies this, replacer
      ensures ok && id !in table && disk == old(disk) && nextId == old(nextId) && pending == old(pending)
      ensures Valid() <==> (id in old(table) ==> old(frames)[old(table)[id]].pins == 0)
      ensures forall x :: x != id ==> Of(logical, x) == old(Of(logical, x)) && (x in table <==> x in old(table))
      ensures id in old(table) ==> Now() == Dropped(old(Now()), old(table)[id], replacer.unpinned)
    {
      if id !in table {
        return true;
      }
      ghost var v := Now();
      DeletedFrame(v, id);
      var i := table[id];
      replacer.Unpin(i);
      DropExactly(v, i, replacer.unpinned);
      hide Ok;
      frames := frames[i := Frame(Blank, INVALID, frames[i].pins, false)];
      table := table - {id};
      free := free + [i];
      logical := logical[id := OnDisk(disk, id)];
      assert Now() == Dropped(v, i, replacer.unpinned);
      return true;
    }
  }

  /** A pool of one frame, its page deleted while pinned: the frame it gives out next is never free again. */
  method DeleteWhilePinned() returns (pool: BufferPool)
    ensures !pool.Valid() && fresh(pool) && fresh(pool.replacer)
    ensures var r := Fetched(pool.Now(), 0); r.Some? && r.value.0.frames[0].pins == 2
  {
    pool := new BufferPool(1, []);
    ghost var v := pool.Now();
    var r := pool.NewPage();
    assert r.Some? by { assert v.frames[0].pins == 0; }
    ghost var w := pool.Now();
    var _ := pool.DeletePage(0);
    DeletedFrame(w, 0);
    LeftoverPins(w, 0, pool.replacer.unpinned, 0);
  }

  /** Fetching touches one frame. */
  lemma FetchedElsewhere(v: State, id: int)
    requires Fetched(v, id).Some?
    ensures var (w, i) := Fetched(v, id).value;
      |w.frames| == |v.frames| && forall j :: 0 <= j < |v.frames| && j != i ==> w.frames[j] == v.frames[j]
  {
  }

  lemma SomeUnpinned(frames: seq<Frame>)
    requires 0 < |frames| && forall i :: 0 <= i < |frames| ==> frames[i].pins == 0
    ensures !forall i :: 0 <= i < |frames| ==> frames[i].pins > 0
  {
    assert frames[0].pins == 0;
  }

  lemma Unmapped(v: State)
    requires Ok(v)
    ensures forall id :: id !in v.table ==> OnDisk(v.disk, id) == Of(v.logical, id)
    ensures forall id :: id in v.table ==> v.table[id] < |v.frames|
  {
  }

  /** The page in a frame is the one the table maps there. */
  lemma FrameMapped(v: State, i: nat)
    requires Ok(v) && i < |v.frames|
    ensures forall id :: id in v.table && v.table[id] == i ==> v.frames[i].pageId == id
  {
  }

  /** With no free frame, the replacer lists exactly the frames whose pages nobody holds pinned. */
  lemma ReplacerExact(v: State, i: nat)
    requires Ok(v) && v.free == []
    ensures i in v.lru <==> i < |v.frames| && v.frames[i].pins == 0
    ensures i < |v.frames| ==> v.frames[i].pageId in v.table && v.table[v.frames[i].pageId] == i
  {
    assert i < |v.frames| ==> FrameOk(v.frames, v.table, v.free, i);
  }

  function Written(v: State, id: int, data: Content): State
    requires id in v.table && v.table[id] < |v.frames|
  {
    var i := v.table[id];
    v.(frames := v.frames[i := v.frames[i].(data := data)], logical := v.logical[id := data],
       pending := v.pending + {id})
  }

  lemma WriteOk(v: State, id: int, data: Content)
    requires Ok(v) && id in v.table && v.frames[v.table[id]].pins > 0
    ensures v.table[id] < |v.frames| && Ok(Written(v, id, data))
  {
    var w := Written(v, id, data);
    TouchOk(v, w, id);
  }

  function Flushed(v: State, id: int): State
    requires id in v.table && v.table[id] < |v.frames|
  {
    var i := v.table[id];
    v.(frames := v.frames[i := v.frames[i].(dirty := false)], disk := WriteAt(v.disk, id, v.frames[i].data))
  }

  lemma FlushOk(v: State, id: int)
    requires Ok(v) && id in v.table
    ensures v.table[id] < |v.frames| && Ok(Flushed(v, id)) && v.frames[v.table[id]].data == Of(v.logical, id)
  {
    assert Shown(v.frames[v.table[id]], id, v.disk, v.logical, v.pending);
    TouchOk(v, Flushed(v, id), id);
  }

  /** The pool after a release; a page at no pins left joins the replacer. */
  function Released(v: State, id: int, isDirty: bool): State
    requires id in v.table && v.table[id] < |v.frames|
  {
    var i := v.table[id];
    var f := v.frames[i];
    var flagged := f.(dirty := f.dirty || isDirty);
    if f.pins == 0 then v.(frames := v.frames[i := flagged])
    else
      v.(frames := v.frames[i := flagged.(pins := f.pins - 1)],
         pending := if f.dirty || isDirty then v.pending - {id} else v.pending,
         lru := if f.pins == 1 then v.lru + [i] else v.lru)
  }

  lemma UnpinOk(v: State, id: int, isDirty: bool)
    requires Ok(v) && id in v.table
    requires v.frames[v.table[id]].pins == 1 && id in v.pending ==> isDirty || v.frames[v.table[id]].dirty
    ensures v.table[id] < |v.frames| && Ok(Released(v, id, isDirty))
    ensures v.frames[v.table[id]].pins == 1 ==> v.table[id] !in v.lru && |v.lru| < |v.frames|
  {
    var i := v.table[id];
    var w := Released(v, id, isDirty);
    assert Shown(v.frames[i], id, v.disk, v.logical, v.pending);
    if v.frames[i].pins == 1 {
      assert i !in v.lru;
      Fewer(v.lru, i, |v.frames|);
    }
    assert FrameOk(v.frames, v.table, v.free, i);
    TouchOk(v, w, id);
  }

  lemma DeletedFrame(v: State, id: int)
    requires Ok(v) && id in v.table
    ensures var i := v.table[id];
      && i < |v.frames| && i !in v.free && v.frames[i].pageId == id && (i !in v.lru ==> |v.lru| < |v.frames|)
  {
    var i := v.table[id];
    assert FrameOk(v.frames, v.table, v.free, i);
    if i !in v.lru {
      Fewer(v.lru, i, |v.frames|);
    }
  }

  /** The next number is on no page yet. */
  lemma AllocateOk(v: State)
    requires Ok(v)
    ensures Ok(v.(next := v.next + 1)) && v.next !in v.table && |v.disk| <= v.next && v.next !in v.logical
  {
  }

  lemma FreeFrame(v: State, i: nat)
    requires Ok(v) && i in v.free
    ensures i < |v.frames| && v.frames[i].pins == 0
  {
    assert FrameOk(v.frames, v.table, v.free, i);
  }

  lemma AllPinned(v: State)
    requires Ok(v) && v.free == [] && v.lru == []
    ensures forall i :: 0 <= i < |v.frames| ==> v.frames[i].pins > 0
  {
  }

  function Pinned(v: State, id: int): State
    requires id in v.table && v.table[id] < |v.frames|
  {
    var i := v.table[id];
    v.(frames := v.frames[i := v.frames[i].(pins := v.frames[i].pins + 1)], lru := Without(v.lru, i))
  }

  lemma PinOk(v: State, id: int)
    requires Ok(v) && id in v.table
    ensures v.table[id] < |v.frames| && Ok(Pinned(v, id)) && v.frames[v.table[id]].data == Of(v.logical, id)
  {
    var w := Pinned(v, id);
    WithoutNoRepeats(v.lru, v.table[id]);
    assert Shown(v.frames[v.table[id]], id, v.disk, v.logical, v.pending);
    TouchOk(v, w, id);
  }

  lemma TakenShows(v: State, i: nat, id: int)
    requires Ok(v) && id !in v.table && i < |v.frames|
    ensures Taken(v, i, id, 1).frames[i].data == Of(v.logical, id)
  {
  }

  lemma {:induction false} WithoutHead(x: nat, xs: seq<nat>)
    requires x !in xs
    ensures Without([x] + xs, x) == xs
  {
    if xs != [] {
      var ys := [x] + xs;
      assert ys[..|ys| - 1] == [x] + xs[..|xs| - 1];
      WithoutHead(x, xs[..|xs| - 1]);
    }
  }

  /** Every page of the pool has a number below the next one. */
  lemma PoolNumbers(pool: BufferPool)
    requires pool.Ready()
    ensures forall id :: id in pool.logical ==> 0 <= id < pool.nextId
    ensures pool.nextId !in pool.logical
  {
  }
}
