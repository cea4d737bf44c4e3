/** The leaf chain: following right links from the first leaf reads the whole tree in key order. */
module TreeScan {
  import opened TreeShape
  import opened TreeInsert
  import opened TreePages
  import opened BPlusTree
  import BP = BufferPool

  function Sum(xs: seq<nat>): nat {
    if xs == [] then 0 else Sum(xs[..|xs| - 1]) + xs[|xs| - 1]
  }

  function Leaves(t: Tree): nat
    decreases t
  {
    match t
    case Leaf(_, _) => 1
    case Node(_, _, kids) => Sum(seq(|kids|, i requires 0 <= i < |kids| => Leaves(kids[i])))
  }

  function Counts(kids: seq<Tree>): (ns: seq<nat>)
    ensures |ns| == |kids| && forall i :: 0 <= i < |kids| ==> ns[i] == Leaves(kids[i])
  {
    seq(|kids|, i requires 0 <= i < |kids| => Leaves(kids[i]))
  }

  lemma NodeLeaves(t: Tree)
    requires t.Node?
    ensures Leaves(t) == Sum(Counts(t.kids))
  {
    assert Counts(t.kids) == seq(|t.kids|, i requires 0 <= i < |t.kids| => Leaves(t.kids[i]));
  }

  datatype Reading = Broken | Read(entries: seq<Entry>, link: int)

  /** Reading `n` leaves along the chain from page `id`: the entries met, and the link that follows. */
  function Walk(p: Pages, id: int, n: nat): Reading {
    if n == 0 then Read([], id)
    else
      match Walk(p, id, n - 1)
      case Broken => Broken
      case Read(es, at) =>
        if at != INVALID && at in p && p[at].LeafPage? then Read(es + p[at].entries, p[at].next) else Broken
  }

  lemma {:induction false} WalkOn(p: Pages, id: int, a: nat, mid: int, b: nat, x: seq<Entry>, y: seq<Entry>, end: int)
    requires Walk(p, id, a) == Read(x, mid) && Walk(p, mid, b) == Read(y, end)
    ensures Walk(p, id, a + b) == Read(x + y, end)
    decreases b
  {
    if b == 0 {
      assert x + [] == x;
    } else {
      var before := Walk(p, mid, b - 1);
      WalkOn(p, id, a, mid, b - 1, x, before.entries, before.link);
      assert x + (before.entries + p[before.link].entries) == x + before.entries + p[before.link].entries;
    }
  }

  lemma WalkLeaf(p: Pages, t: Tree, parent: int, next: int)
    requires t.Leaf? && Holds(p, t, parent, next)
    ensures Walk(p, t.id, 1) == Read(t.entries, next)
  {
    assert Walk(p, t.id, 0) == Read([], t.id);
    assert [] + t.entries == t.entries;
  }

  /** A held tree is read off in order, whatever its height, ending at its right neighbour. */
  lemma {:induction false} WalkTree(p: Pages, t: Tree, parent: int, next: int)
    requires Holds(p, t, parent, next)
    ensures Walk(p, FirstLeaf(t), Leaves(t)) == Read(Entries(t), next)
    decreases t
  {
    if t.Leaf? {
      WalkLeaf(p, t, parent, next);
    } else {
      NodeHolds(p, t, parent, next);
      forall i | 0 <= i < |t.kids|
        ensures KidReads(p, t.kids, next, i)
      {
        WalkTree(p, t.kids[i], t.id, NextOf(t.kids, i, next));
      }
      NodeEntries(t);
      NodeLeaves(t);
      hide Walk, Entries, Leaves;
      WalkKids(p, t.kids, next, |t.kids|);
      assert Lists(t.kids)[..|t.kids|] == Lists(t.kids) && Counts(t.kids)[..|t.kids|] == Counts(t.kids);
    }
  }

  predicate KidReads(p: Pages, kids: seq<Tree>, next: int, i: nat)
    requires i < |kids|
  {
    Walk(p, FirstLeaf(kids[i]), Leaves(kids[i])) == Read(Entries(kids[i]), NextOf(kids, i, next))
  }

  lemma {:induction false} WalkKids(p: Pages, kids: seq<Tree>, next: int, n: nat)
    requires 1 <= n <= |kids| && forall i :: 0 <= i < |kids| ==> KidReads(p, kids, next, i)
    ensures Walk(p, FirstLeaf(kids[0]), Sum(Counts(kids)[..n])) ==
      Read(Concat(Lists(kids)[..n]), NextOf(kids, n - 1, next))
  {
    var counts, lists := Counts(kids), Lists(kids);
    assert counts[..n][..n - 1] == counts[..n - 1] && lists[..n][..n - 1] == lists[..n - 1];
    assert KidReads(p, kids, next, n - 1);
    hide Walk, Entries, Leaves, FirstLeaf;
    if n == 1 {
      assert Sum(counts[..0]) == 0 && Concat(lists[..0]) == [];
      assert Concat(lists[..1]) == [] + lists[0] == lists[0];
    } else {
      WalkKids(p, kids, next, n - 1);
      assert NextOf(kids, n - 2, next) == FirstLeaf(kids[n - 1]);
      WalkOn(p, FirstLeaf(kids[0]), Sum(counts[..n - 1]), FirstLeaf(kids[n - 1]), counts[n - 1],
             Concat(lists[..n - 1]), lists[n - 1], NextOf(kids, n - 1, next));
    }
  }

  /** The chain of a whole tree holds every entry once, in ascending key order, and ends. */
  lemma ChainIsContents(p: Pages, t: Tree, h: nat)
    requires Shows(p, Top, t) && Ordered(t, h)
    ensures Walk(p, FirstLeaf(t), Leaves(t)) == Read(Entries(t), INVALID) && Sorted(Entries(t))
  {
    hide Walk, Leaves, Entries, Sorted;
    WalkTree(p, t, INVALID, INVALID);
    OrderedIsSorted(t, h);
  }

  lemma {:induction false} WalkPrefix(p: Pages, id: int, k: nat, n: nat)
    requires k <= n && Walk(p, id, n).Read?
    ensures Walk(p, id, k).Read?
    ensures k < n ==> Walk(p, id, k + 1).Read?
    decreases n
  {
    if k + 1 < n {
      WalkPrefix(p, id, k, n - 1);
    }
  }

  /** Leftmost child after leftmost child, down to a leaf. */
  method FirstLeafPageId(b: BPlusTree) returns (id: int)
    requires b.Valid()
    modifies b.pool, b.pool.replacer
    ensures b.Valid() && b.pool.logical == old(b.pool.logical) && b.pool.nextId == old(b.pool.nextId)
    ensures id == if b.root == INVALID then INVALID else FirstLeaf(b.tree)
  {
    if b.root == INVALID {
      return INVALID;
    }
    hide Mirrors, BP.BufferPool.Ready, Once, Ordered, RootFilled;
    id := b.root;
    ghost var t, parent, next := b.tree, INVALID, INVALID;
    var page := b.GetPage(id);
    while page.InnerPage?
      invariant b.Mirrored() && b.pool.logical == old(b.pool.logical) && b.pool.nextId == old(b.pool.nextId)
      invariant id == t.id && FirstLeaf(t) == FirstLeaf(b.tree) && Holds(b.pages, t, parent, next)
      invariant id in b.pages && page == b.pages[id]
      decreases t
    {
      NodeHolds(b.pages, t, parent, next);
      assert Slots(t.keys, t.kids)[0].child == t.kids[0].id;
      id := page.slots[0].child;
      t, parent, next := t.kids[0], t.id, NextOf(t.kids, 0, next);
      page := b.GetPage(id);
    }
  }

  /** The ordered cursor's walk: leaf after leaf, each leaf's entries in turn. */
  method Scan(b: BPlusTree) returns (all: seq<Entry>)
    requires b.Valid()
    modifies b.pool, b.pool.replacer
    ensures b.Valid() && b.pool.logical == old(b.pool.logical) && b.pool.nextId == old(b.pool.nextId)
    ensures all == b.Contents() && Sorted(all)
  {
    hide Walk, Leaves, Entries, Sorted, FirstLeaf, Ordered, Shows, RootFilled, Once, Mirrors, BP.BufferPool.Ready;
    all := [];
    var leaf := FirstLeafPageId(b);
    if b.root == INVALID {
      NoneSorted();
      return;
    }
    ghost var n, first, total := 0, leaf, Leaves(b.tree);
    ChainIsContents(b.pages, b.tree, b.height);
    WalkNone(b.pages, first);
    while leaf != INVALID
      invariant b.Mirrored() && b.pool.logical == old(b.pool.logical) && b.pool.nextId == old(b.pool.nextId)
      invariant n <= total && Walk(b.pages, first, n) == Read(all, leaf)
      decreases total - n
    {
      WalkStep(b.pages, first, n, total, all, leaf);
      var page := b.GetPage(leaf);
      all, leaf, n := all + page.entries, page.next, n + 1;
    }
    WalkStep(b.pages, first, n, total, all, leaf);
  }

  lemma NoneSorted()
    ensures Sorted([])
  {
  }

  lemma WalkNone(p: Pages, id: int)
    ensures Walk(p, id, 0) == Read([], id)
  {
  }

  /** The chain ends where the tree does, and not before. */
  lemma WalkStep(p: Pages, id: int, n: nat, total: nat, es: seq<Entry>, at: int)
    requires n <= total && Walk(p, id, n) == Read(es, at)
    requires Walk(p, id, total).Read? && Walk(p, id, total).link == INVALID
    ensures at == INVALID <==> n == total
    ensures n < total ==> at in p && p[at].LeafPage? && Walk(p, id, n + 1) == Read(es + p[at].entries, p[at].next)
  {
    WalkPrefix(p, id, n, total);
  }
}
