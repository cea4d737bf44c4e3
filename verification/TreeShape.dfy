/** B+Trees as values: order, balance, occupancy, and the path (zipper) an insertion climbs back along. */
module TreeShape {
  /** The page id that stands for no page. */
  const INVALID: int := -1

  type Key = int
  datatype Rid = Rid(pageId: int, slot: nat)
  datatype Entry = Entry(key: Key, value: Rid)

  /** `keys[0]` of an inner node is never looked at. */
  datatype Tree =
    | Leaf(id: nat, entries: seq<Entry>)
    | Node(id: nat, keys: seq<Key>, kids: seq<Tree>)

  // ---------------------------------------------------------- contents

  function Concat<T>(xss: seq<seq<T>>): seq<T> {
    if xss == [] then [] else Concat(xss[..|xss| - 1]) + xss[|xss| - 1]
  }

  function Entries(t: Tree): seq<Entry>
    decreases t
  {
    match t
    case Leaf(_, es) => es
    case Node(_, _, kids) => Concat(seq(|kids|, i requires 0 <= i < |kids| => Entries(kids[i])))
  }

  function Lists(kids: seq<Tree>): (xss: seq<seq<Entry>>)
    ensures |xss| == |kids| && forall i :: 0 <= i < |kids| ==> xss[i] == Entries(kids[i])
  {
    seq(|kids|, i requires 0 <= i < |kids| => Entries(kids[i]))
  }

  function All(kids: seq<Tree>): seq<Entry> {
    Concat(Lists(kids))
  }

  lemma NodeEntries(t: Tree)
    requires t.Node?
    ensures Entries(t) == All(t.kids)
  {
    assert Lists(t.kids) == seq(|t.kids|, i requires 0 <= i < |t.kids| => Entries(t.kids[i]));
  }

  lemma {:induction false} ConcatAppend<T>(a: seq<seq<T>>, b: seq<seq<T>>)
    ensures Concat(a + b) == Concat(a) + Concat(b)
  {
    if b == [] {
      assert a + b == a;
    } else {
      ConcatAppend(a, b[..|b| - 1]);
      assert (a + b)[..|a + b| - 1] == a + b[..|b| - 1];
    }
  }

  lemma AllAppend(a: seq<Tree>, b: seq<Tree>)
    ensures All(a + b) == All(a) + All(b)
  {
    ConcatAppend(Lists(a), Lists(b));
    assert Lists(a + b) == Lists(a) + Lists(b);
  }

  lemma AllOne(t: Tree)
    ensures All([t]) == Entries(t)
  {
    assert Lists([t]) == [Entries(t)];
    assert Concat([Entries(t)]) == Concat([]) + Entries(t) by {
      assert [Entries(t)][..0] == [];
    }
  }

  lemma AllAround(a: seq<Tree>, t: Tree, b: seq<Tree>)
    ensures All(a + [t] + b) == All(a) + Entries(t) + All(b)
  {
    AllAppend(a + [t], b);
    AllAppend(a, [t]);
    AllOne(t);
  }

  lemma {:induction false} InConcat<T>(xss: seq<seq<T>>, x: T)
    ensures x in Concat(xss) <==> exists i :: 0 <= i < |xss| && x in xss[i]
  {
    if xss != [] {
      InConcat(xss[..|xss| - 1], x);
    }
  }

  // ------------------------------------------------------------- order

  predicate Sorted(es: seq<Entry>) {
    forall i, j :: 0 <= i < j < |es| ==> es[i].key < es[j].key
  }

  predicate Below(es: seq<Entry>, k: Key) {
    forall e :: e in es ==> e.key < k
  }

  predicate AtLeast(es: seq<Entry>, k: Key) {
    forall e :: e in es ==> k <= e.key
  }

  /** Separator i stands between the subtrees before it and those from it on. */
  predicate Parts(es: seq<Entry>, j: int, i: int, k: Key) {
    if j < i then Below(es, k) else AtLeast(es, k)
  }

  predicate Separated(keys: seq<Key>, kids: seq<Tree>)
    requires |keys| == |kids|
  {
    forall i, j {:trigger keys[i], kids[j]} :: 1 <= i < |kids| && 0 <= j < |kids| ==>
      Parts(Entries(kids[j]), j, i, keys[i])
  }

  /** Sorted leaves, separated subtrees, every leaf at the same depth. */
  predicate Ordered(t: Tree, h: nat)
    decreases t
  {
    match t
    case Leaf(_, es) => h == 0 && es != [] && Sorted(es)
    case Node(_, keys, kids) =>
      && h > 0 && |keys| == |kids| > 0 && Separated(keys, kids)
      && forall i :: 0 <= i < |kids| ==> Ordered(kids[i], h - 1)
  }

  lemma {:induction false} SortedConcat(xss: seq<seq<Entry>>)
    requires forall i :: 0 <= i < |xss| ==> Sorted(xss[i])
    requires forall i, j, x, y :: 0 <= i < j < |xss| && x in xss[i] && y in xss[j] ==> x.key < y.key
    ensures Sorted(Concat(xss))
  {
    if xss != [] {
      var init, last := xss[..|xss| - 1], xss[|xss| - 1];
      SortedConcat(init);
      var es := Concat(init);
      forall x, y | x in es && y in last
        ensures x.key < y.key
      {
        InConcat(init, x);
      }
      SortedAppend(es, last);
    }
  }

  lemma SortedAppend(a: seq<Entry>, b: seq<Entry>)
    requires Sorted(a) && Sorted(b) && forall x, y :: x in a && y in b ==> x.key < y.key
    ensures Sorted(a + b)
  {
  }

  /** The whole tree reads in strictly ascending key order. */
  lemma {:induction false} OrderedIsSorted(t: Tree, h: nat)
    requires Ordered(t, h)
    ensures Sorted(Entries(t)) && Entries(t) != []
    decreases h
  {
    if t.Node? {
      NodeEntries(t);
      var xss := Lists(t.kids);
      forall i | 0 <= i < |xss|
        ensures Sorted(xss[i]) && xss[i] != []
      {
        OrderedIsSorted(t.kids[i], h - 1);
      }
      forall i, j, x: Entry, y: Entry | 0 <= i < j < |xss| && x in xss[i] && y in xss[j]
        ensures x.key < y.key
      {
        assert Parts(Entries(t.kids[i]), i, j, t.keys[j]) && Parts(Entries(t.kids[j]), j, j, t.keys[j]);
      }
      SortedConcat(xss);
      var e := xss[0][0];
      InConcat(xss, e);
    }
  }

  // ----------------------------------------------------------- zippers

  /** The way from a subtree to the root: at each level, the node left behind and the siblings around the hole. */
  datatype Path = Top | In(up: Path, id: nat, keys: seq<Key>, before: seq<Tree>, after: seq<Tree>)

  function Plug(c: Path, t: Tree): Tree {
    match c
    case Top => t
    case In(up, id, keys, before, after) => Plug(up, Node(id, keys, before + [t] + after))
  }

  function Depth(c: Path): nat {
    match c
    case Top => 0
    case In(up, _, _, _, _) => 1 + Depth(up)
  }

  function LeftOf(c: Path): seq<Entry> {
    match c
    case Top => []
    case In(up, _, _, before, _) => LeftOf(up) + All(before)
  }

  function RightOf(c: Path): seq<Entry> {
    match c
    case Top => []
    case In(up, _, _, _, after) => All(after) + RightOf(up)
  }

  lemma {:induction false} PlugEntries(c: Path, t: Tree)
    ensures Entries(Plug(c, t)) == LeftOf(c) + Entries(t) + RightOf(c)
    decreases c
  {
    match c
    case Top =>
    case In(up, id, keys, before, after) =>
      var n := Node(id, keys, before + [t] + after);
      PlugEntries(up, n);
      NodeEntries(n);
      AllAround(before, t, after);
      assert LeftOf(up) + (All(before) + Entries(t) + All(after)) + RightOf(up) ==
             (LeftOf(up) + All(before)) + Entries(t) + (All(after) + RightOf(up));
  }

  /** The path leads where a search for `k` goes. */
  predicate Routes(c: Path, k: Key) {
    match c
    case Top => true
    case In(up, _, keys, before, after) =>
      && |keys| == |before| + 1 + |after|
      && (forall i :: 1 <= i <= |before| ==> keys[i] <= k)
      && (forall i :: |before| < i < |keys| ==> k < keys[i])
      && Routes(up, k)
  }

  /** Each level of the path is in order around a subtree of height `h`; the hole itself is left open. */
  predicate OrderedPath(c: Path, h: nat) {
    match c
    case Top => true
    case In(up, _, keys, before, after) =>
      && |keys| == |before| + 1 + |after|
      && (forall i :: 0 <= i < |before| ==> Ordered(before[i], h))
      && (forall i :: 0 <= i < |after| ==> Ordered(after[i], h))
      && SiblingsSeparated(keys, before, after)
      && Fits(up, All(before)) && Fits(up, All(after))
      && OrderedPath(up, h + 1)
  }

  predicate SiblingsSeparated(keys: seq<Key>, before: seq<Tree>, after: seq<Tree>)
    requires |keys| == |before| + 1 + |after|
  {
    && (forall i, j {:trigger keys[i], before[j]} :: 1 <= i < |keys| && 0 <= j < |before| ==>
          Parts(Entries(before[j]), j, i, keys[i]))
    && (forall i, j {:trigger keys[i], after[j]} :: 1 <= i < |keys| && 0 <= j < |after| ==>
          Parts(Entries(after[j]), |before| + 1 + j, i, keys[i]))
  }

  /** What the hole may hold: entries inside the separators on its way up. */
  predicate Fits(c: Path, es: seq<Entry>) {
    match c
    case Top => true
    case In(up, _, keys, before, after) =>
      && |keys| == |before| + 1 + |after|
      && (forall i :: 1 <= i < |keys| ==> Parts(es, |before|, i, keys[i]))
      && Fits(up, es)
  }

  lemma {:induction false} FitsSubset(c: Path, es: seq<Entry>, fs: seq<Entry>)
    requires Fits(c, es) && forall e :: e in fs ==> e in es
    ensures Fits(c, fs)
    decreases c
  {
    if c.In? {
      FitsSubset(c.up, es, fs);
    }
  }

  lemma {:induction false} FitsRouted(c: Path, es: seq<Entry>, k: Key, fs: seq<Entry>)
    requires Fits(c, es) && Routes(c, k) && forall e :: e in fs ==> e in es || e.key == k
    ensures Fits(c, fs)
    decreases c
  {
    if c.In? {
      FitsRouted(c.up, es, k, fs);
    }
  }

  /** A level in order around the hole, with something fitting in the hole, is a node in order. */
  lemma FilledLevel(id: nat, keys: seq<Key>, before: seq<Tree>, t: Tree, after: seq<Tree>, h: nat)
    requires |keys| == |before| + 1 + |after| && SiblingsSeparated(keys, before, after) && Ordered(t, h)
    requires forall i :: 0 <= i < |before| ==> Ordered(before[i], h)
    requires forall i :: 0 <= i < |after| ==> Ordered(after[i], h)
    requires forall i :: 1 <= i < |keys| ==> Parts(Entries(t), |before|, i, keys[i])
    ensures Ordered(Node(id, keys, before + [t] + after), h + 1)
  {
    hide Parts, Entries;
    var kids := before + [t] + after;
    forall i, j | 1 <= i < |kids| && 0 <= j < |kids|
      ensures Parts(Entries(kids[j]), j, i, keys[i])
    {
      if j < |before| {
        assert kids[j] == before[j];
      } else if j > |before| {
        assert kids[j] == after[j - |before| - 1];
      }
    }
  }

  lemma OpenedLevel(id: nat, keys: seq<Key>, before: seq<Tree>, t: Tree, after: seq<Tree>, h: nat)
    requires Ordered(Node(id, keys, before + [t] + after), h + 1)
    ensures |keys| == |before| + 1 + |after| && SiblingsSeparated(keys, before, after) && Ordered(t, h)
    ensures forall i :: 0 <= i < |before| ==> Ordered(before[i], h)
    ensures forall i :: 0 <= i < |after| ==> Ordered(after[i], h)
    ensures forall i :: 1 <= i < |keys| ==> Parts(Entries(t), |before|, i, keys[i])
  {
    hide Parts, Entries;
    var kids := before + [t] + after;
    assert kids[|before|] == t;
    assert forall j :: 0 <= j < |before| ==> kids[j] == before[j];
    assert forall j :: 0 <= j < |after| ==> kids[|before| + 1 + j] == after[j];
  }

  /** Whatever is in order and fits may stand in the hole. */
  lemma {:induction false} PlugOrdered(c: Path, t: Tree, h: nat)
    requires OrderedPath(c, h) && Ordered(t, h) && Fits(c, Entries(t))
    ensures Ordered(Plug(c, t), h + Depth(c))
    decreases c
  {
    if c.In? {
      var n := Node(c.id, c.keys, c.before + [t] + c.after);
      FilledLevel(c.id, c.keys, c.before, t, c.after, h);
      NodeFits(c, t);
      hide Ordered, Fits;
      PlugOrdered(c.up, n, h + 1);
    }
  }

  /** The siblings fit wherever the hole's own contents do: they lie inside the same outer separators. */
  lemma NodeFits(c: Path, t: Tree)
    requires c.In? && Fits(c, Entries(t)) && Fits(c.up, All(c.before)) && Fits(c.up, All(c.after))
    ensures Fits(c.up, Entries(Node(c.id, c.keys, c.before + [t] + c.after)))
  {
    AllAround(c.before, t, c.after);
    NodeEntries(Node(c.id, c.keys, c.before + [t] + c.after));
    FitsUnion(c.up, All(c.before), Entries(t), All(c.after));
  }

  lemma {:induction false} FitsUnion(c: Path, x: seq<Entry>, y: seq<Entry>, z: seq<Entry>)
    requires Fits(c, x) && Fits(c, y) && Fits(c, z)
    ensures Fits(c, x + y + z)
    decreases c
  {
    if c.In? {
      FitsUnion(c.up, x, y, z);
    }
  }
}
