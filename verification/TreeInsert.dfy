/** Insertion on tree values: descent, leaf insertion, splits climbing back to the root. */
module TreeInsert {
  import opened TreeShape

  /** Page limits; every use takes leaves of at least 2 and inner nodes of at least 3. */
  datatype Limits = Limits(leafMax: nat, innerMax: nat)

  predicate LimitsOk(m: Limits) {
    m.leafMax >= 2 && m.innerMax >= 3
  }

  // ----------------------------------------------------------- descent

  function ChildFrom(keys: seq<Key>, k: Key, i: nat): (r: nat)
    requires 1 <= i <= |keys|
    ensures i - 1 <= r < |keys|
    decreases |keys| - i
  {
    if i == |keys| then |keys| - 1 else if k < keys[i] then i - 1 else ChildFrom(keys, k, i + 1)
  }

  lemma {:induction false} ChildFromIs(keys: seq<Key>, k: Key, i: nat)
    requires 1 <= i <= |keys|
    ensures var r := ChildFrom(keys, k, i);
      (forall j :: i <= j <= r ==> keys[j] <= k) && (r + 1 < |keys| ==> k < keys[r + 1])
    decreases |keys| - i
  {
    if i < |keys| && keys[i] <= k {
      ChildFromIs(keys, k, i + 1);
    }
  }

  lemma KeysAscend(keys: seq<Key>, kids: seq<Tree>, h: nat, i: nat, j: nat)
    requires |keys| == |kids| && Separated(keys, kids) && 1 <= i < j < |keys|
    requires forall n :: 0 <= n < |kids| ==> Ordered(kids[n], h)
    ensures keys[i] < keys[j]
  {
    OrderedIsSorted(kids[i], h);
    var e := Entries(kids[i])[0];
    assert e in Entries(kids[i]);
    assert Parts(Entries(kids[i]), i, i, keys[i]) && Parts(Entries(kids[i]), i, j, keys[j]);
  }

  function Down(c: Path, t: Tree, i: nat): Path
    requires t.Node? && i < |t.kids|
  {
    In(c, t.id, t.keys, t.kids[..i], t.kids[i + 1..])
  }

  /** A position in a tree in order: what a search path knows at every level. */
  predicate At(c: Path, t: Tree, h: nat) {
    OrderedPath(c, h) && Ordered(t, h) && Fits(c, Entries(t))
  }

  lemma KidsAround(kids: seq<Tree>, i: nat)
    requires i < |kids|
    ensures kids[..i] + [kids[i]] + kids[i + 1..] == kids
  {
  }

  lemma KidFits(c: Path, t: Tree, i: nat)
    requires t.Node? && i < |t.kids| && Fits(c, Entries(t))
    ensures Fits(c, Entries(t.kids[i])) && Fits(c, All(t.kids[..i])) && Fits(c, All(t.kids[i + 1..]))
  {
    KidsAround(t.kids, i);
    NodeEntries(t);
    AllAround(t.kids[..i], t.kids[i], t.kids[i + 1..]);
    hide Entries, All, Fits;
    FitsSubset(c, Entries(t), Entries(t.kids[i]));
    FitsSubset(c, Entries(t), All(t.kids[..i]));
    FitsSubset(c, Entries(t), All(t.kids[i + 1..]));
  }

  lemma DownAt(c: Path, t: Tree, h: nat, i: nat)
    requires t.Node? && h > 0 && At(c, t, h) && i < |t.kids|
    ensures At(Down(c, t, i), t.kids[i], h - 1)
    ensures Plug(Down(c, t, i), t.kids[i]) == Plug(c, t)
  {
    var before, kid, after := t.kids[..i], t.kids[i], t.kids[i + 1..];
    hide Ordered, Parts, Entries, All, SiblingsSeparated;
    KidsAround(t.kids, i);
    OpenedLevel(t.id, t.keys, before, kid, after, h - 1);
    KidFits(c, t, i);
  }

  lemma DownRoutes(c: Path, t: Tree, h: nat, k: Key)
    requires t.Node? && h > 0 && Ordered(t, h) && Routes(c, k)
    ensures Routes(Down(c, t, ChildFrom(t.keys, k, 1)), k)
  {
    var r := ChildFrom(t.keys, k, 1);
    ChildFromIs(t.keys, k, 1);
    forall i | r < i < |t.keys|
      ensures k < t.keys[i]
    {
      if r + 1 < i {
        KeysAscend(t.keys, t.kids, h - 1, r + 1, i);
      }
    }
  }

  /** A key is in the tree only if it is in the subtree its search reaches. */
  lemma {:induction false} FoundOnRoute(c: Path, t: Tree, h: nat, k: Key)
    requires At(c, t, h) && Routes(c, k)
    ensures forall e :: e in LeftOf(c) ==> e.key < k
    ensures forall e :: e in RightOf(c) ==> k < e.key
    decreases c
  {
    if c.In? {
      FilledLevel(c.id, c.keys, c.before, t, c.after, h);
      NodeFits(c, t);
      hide Ordered, Entries, All, Fits;
      FoundOnRoute(c.up, Node(c.id, c.keys, c.before + [t] + c.after), h + 1, k);
      SiblingHasNot(c, k);
    }
  }

  lemma SiblingHasNot(c: Path, k: Key)
    requires c.In? && Routes(c, k)
    requires |c.keys| == |c.before| + 1 + |c.after| && SiblingsSeparated(c.keys, c.before, c.after)
    ensures forall e :: e in All(c.before) ==> e.key < k
    ensures forall e :: e in All(c.after) ==> k < e.key
  {
    var b := |c.before|;
    forall e | e in All(c.before)
      ensures e.key < k
    {
      InConcat(Lists(c.before), e);
      var j :| 0 <= j < b && e in Lists(c.before)[j];
      assert Parts(Entries(c.before[j]), j, b, c.keys[b]);
    }
    forall e | e in All(c.after)
      ensures k < e.key
    {
      InConcat(Lists(c.after), e);
      var j :| 0 <= j < |c.after| && e in Lists(c.after)[j];
      assert Parts(Entries(c.after[j]), b + 1 + j, b + 1, c.keys[b + 1]);
    }
  }

  // ------------------------------------------------------------ leaves

  /** The first position whose key is not below `k`. */
  function KeyIndex(es: seq<Entry>, k: Key): (r: nat)
    ensures r <= |es|
    ensures forall i :: 0 <= i < r ==> es[i].key < k
    ensures r < |es| ==> k <= es[r].key
  {
    if es == [] then 0
    else
      var r := KeyIndex(es[..|es| - 1], k);
      if r < |es| - 1 then r else if es[|es| - 1].key < k then |es| else |es| - 1
  }

  function Find(es: seq<Entry>, k: Key): (r: int)
    ensures -1 <= r < |es|
  {
    var i := KeyIndex(es, k);
    if i < |es| && es[i].key == k then i else -1
  }

  lemma FindIs(es: seq<Entry>, k: Key)
    requires Sorted(es)
    ensures Find(es, k) >= 0 ==> es[Find(es, k)].key == k
    ensures Find(es, k) < 0 ==> forall e :: e in es ==> e.key != k
  {
    var i := KeyIndex(es, k);
    if i < |es| {
      assert forall j :: i < j < |es| ==> es[i].key < es[j].key;
    }
  }

  function InsertAt(es: seq<Entry>, e: Entry): seq<Entry> {
    var i := KeyIndex(es, e.key);
    es[..i] + [e] + es[i..]
  }

  lemma InsertAtSorted(es: seq<Entry>, e: Entry)
    requires Sorted(es) && Find(es, e.key) < 0
    ensures Sorted(InsertAt(es, e))
  {
    var i := KeyIndex(es, e.key);
    var low, high := es[..i], es[i..];
    assert Sorted(low) && Sorted(high);
    forall y | y in high
      ensures e.key < y.key
    {
      assert es[i].key != e.key;
      assert es[i].key <= y.key;
    }
    hide Sorted, KeyIndex;
    OneSorted(e);
    SortedAppend(low, [e]);
    SortedAppend(low + [e], high);
  }

  lemma OneSorted(e: Entry)
    ensures Sorted([e])
  {
  }

  lemma InsertAtHas(es: seq<Entry>, e: Entry)
    ensures forall x :: x in InsertAt(es, e) <==> x in es || x == e
  {
    var i := KeyIndex(es, e.key);
    assert es == es[..i] + es[i..];
  }

  // ------------------------------------------------------------ splits

  /** A split child on its way into its parent: two subtrees and the key between them. */
  predicate Ready(c: Path, left: Tree, key: Key, right: Tree, h: nat) {
    && OrderedPath(c, h) && Ordered(left, h) && Ordered(right, h)
    && Below(Entries(left), key) && AtLeast(Entries(right), key)
    && Fits(c, Entries(left)) && Fits(c, Entries(right))
  }

  function Widen(c: Path, left: Tree, key: Key, right: Tree): Tree
    requires c.In? && |c.keys| == |c.before| + 1 + |c.after|
  {
    var b := |c.before|;
    Node(c.id, c.keys[..b + 1] + [key] + c.keys[b + 1..], c.before + [left] + [right] + c.after)
  }

  /** Kid j of the widened node, as it stood (the two halves standing for the hole). */
  lemma OldKidParts(c: Path, left: Tree, key: Key, right: Tree, h: nat, i: nat, j: nat)
    requires c.In? && Ready(c, left, key, right, h) && 1 <= i < |c.keys| && j <= |c.keys|
    ensures var kids := Widen(c, left, key, right).kids; var b := |c.before|;
      |kids| == |c.keys| + 1 && Parts(Entries(kids[j]), if j <= b then j else j - 1, i, c.keys[i])
  {
    hide Ordered, Entries, Parts, Below, AtLeast;
    var kids, b := Widen(c, left, key, right).kids, |c.before|;
    if j < b {
      assert kids[j] == c.before[j];
    } else if j > b + 1 {
      assert kids[j] == c.after[j - b - 2];
    }
  }

  lemma NewKeyParts(c: Path, left: Tree, key: Key, right: Tree, h: nat, j: nat)
    requires c.In? && Ready(c, left, key, right, h) && j <= |c.keys|
    ensures var kids := Widen(c, left, key, right).kids;
      |kids| == |c.keys| + 1 && Parts(Entries(kids[j]), j, |c.before| + 1, key)
  {
    var kids, b := Widen(c, left, key, right).kids, |c.before|;
    OrderedIsSorted(left, h);
    OrderedIsSorted(right, h);
    var x, y := Entries(left)[0], Entries(right)[0];
    assert x in Entries(left) && y in Entries(right) && kids[b] == left && kids[b + 1] == right;
    hide Ordered, Entries, OrderedPath, Fits;
    if j < b {
      OldKidParts(c, left, key, right, h, b, j);
      OldKidParts(c, left, key, right, h, b, b);
    } else if j > b + 1 {
      OldKidParts(c, left, key, right, h, b + 1, j);
      OldKidParts(c, left, key, right, h, b + 1, b + 1);
    }
  }

  lemma WidenOrdered(c: Path, left: Tree, key: Key, right: Tree, h: nat)
    requires c.In? && Ready(c, left, key, right, h)
    ensures Ordered(Widen(c, left, key, right), h + 1)
  {
    var n := Widen(c, left, key, right);
    var b := |c.before|;
    forall i, j | 1 <= i < |n.kids| && 0 <= j < |n.kids|
      ensures Parts(Entries(n.kids[j]), j, i, n.keys[i])
    {
      hide Ordered, Entries, Ready;
      if i == b + 1 {
        NewKeyParts(c, left, key, right, h, j);
      } else {
        OldKidParts(c, left, key, right, h, if i <= b then i else i - 1, j);
      }
    }
    forall j | 0 <= j < |n.kids|
      ensures Ordered(n.kids[j], h)
    {
      hide Entries, Parts, Below, AtLeast, Fits;
      if j < b {
        assert n.kids[j] == c.before[j];
      } else if j > b + 1 {
        assert n.kids[j] == c.after[j - b - 2];
      }
    }
  }

  lemma WidenEntries(c: Path, left: Tree, key: Key, right: Tree)
    requires c.In? && |c.keys| == |c.before| + 1 + |c.after|
    ensures Entries(Widen(c, left, key, right)) == All(c.before) + Entries(left) + Entries(right) + All(c.after)
  {
    NodeEntries(Widen(c, left, key, right));
    AllAround(c.before + [left], right, c.after);
    AllAppend(c.before, [left]);
    AllOne(left);
  }

  lemma WidenAt(c: Path, left: Tree, key: Key, right: Tree, h: nat)
    requires c.In? && Ready(c, left, key, right, h)
    ensures At(c.up, Widen(c, left, key, right), h + 1)
    ensures LeftOf(c.up) + Entries(Widen(c, left, key, right)) + RightOf(c.up) ==
      LeftOf(c) + Entries(left) + Entries(right) + RightOf(c)
  {
    WidenOrdered(c, left, key, right, h);
    WidenEntries(c, left, key, right);
    hide Ordered, Entries, All;
    FitsUnion(c.up, All(c.before), Entries(left), Entries(right));
    FitsSubset(c.up, Entries(left), []);
    FitsUnion(c.up, All(c.before) + Entries(left) + Entries(right), All(c.after), []);
    assert All(c.before) + Entries(left) + Entries(right) + All(c.after) + [] ==
      All(c.before) + Entries(left) + Entries(right) + All(c.after);
    assert LeftOf(c.up) + (All(c.before) + Entries(left) + Entries(right) + All(c.after)) + RightOf(c.up) ==
      (LeftOf(c.up) + All(c.before)) + Entries(left) + Entries(right) + (All(c.after) + RightOf(c.up));
  }

  // Moving the upper half of a node into a new one. The first key moved goes up.

  function LowHalf(t: Tree, m: nat): Tree
    requires t.Node? ==> m <= |t.kids| && |t.keys| == |t.kids|
    requires t.Leaf? ==> m <= |t.entries|
  {
    match t
    case Leaf(id, es) => Leaf(id, es[..m])
    case Node(id, keys, kids) => Node(id, keys[..m], kids[..m])
  }

  function HighHalf(t: Tree, m: nat, newId: nat): Tree
    requires t.Node? ==> m <= |t.kids| && |t.keys| == |t.kids|
    requires t.Leaf? ==> m <= |t.entries|
  {
    match t
    case Leaf(_, es) => Leaf(newId, es[m..])
    case Node(_, keys, kids) => Node(newId, keys[m..], kids[m..])
  }

  function Size(t: Tree): nat {
    match t
    case Leaf(_, es) => |es|
    case Node(_, _, kids) => |kids|
  }

  function MiddleKey(t: Tree, m: nat): Key
    requires m < Size(t) && (t.Node? ==> |t.keys| == |t.kids|)
  {
    match t
    case Leaf(_, es) => es[m].key
    case Node(_, keys, _) => keys[m]
  }

  lemma NodeHalves(t: Tree, m: nat, newId: nat)
    requires t.Node? && m <= |t.kids| == |t.keys|
    ensures Entries(LowHalf(t, m)) + Entries(HighHalf(t, m, newId)) == Entries(t)
  {
    hide Entries, All;
    NodeEntries(t);
    NodeEntries(LowHalf(t, m));
    NodeEntries(HighHalf(t, m, newId));
    AllAppend(t.kids[..m], t.kids[m..]);
    assert t.kids[..m] + t.kids[m..] == t.kids;
  }

  lemma HalvesSplit(t: Tree, m: nat, newId: nat)
    requires m <= Size(t) && (t.Node? ==> |t.keys| == |t.kids|)
    ensures Entries(LowHalf(t, m)) + Entries(HighHalf(t, m, newId)) == Entries(t)
  {
    if t.Node? {
      NodeHalves(t, m, newId);
    } else {
      assert t.entries[..m] + t.entries[m..] == t.entries;
    }
  }

  lemma LowOrdered(t: Tree, h: nat, m: nat)
    requires Ordered(t, h) && 1 <= m <= Size(t)
    ensures Ordered(LowHalf(t, m), h)
  {
    if t.Node? {
      var n := LowHalf(t, m);
      forall i, j | 1 <= i < |n.kids| && 0 <= j < |n.kids|
        ensures Parts(Entries(n.kids[j]), j, i, n.keys[i])
      {
        assert t.keys[i] == n.keys[i] && t.kids[j] == n.kids[j];
      }
    }
  }

  lemma HighOrdered(t: Tree, h: nat, m: nat, newId: nat)
    requires Ordered(t, h) && m < Size(t)
    ensures Ordered(HighHalf(t, m, newId), h)
  {
    if t.Node? {
      var n := HighHalf(t, m, newId);
      forall i, j | 1 <= i < |n.kids| && 0 <= j < |n.kids|
        ensures Parts(Entries(n.kids[j]), j, i, n.keys[i])
      {
        assert t.keys[m + i] == n.keys[i] && t.kids[m + j] == n.kids[j];
        assert Parts(Entries(t.kids[m + j]), m + j, m + i, t.keys[m + i]);
      }
    }
  }

  lemma MiddleSeparates(t: Tree, h: nat, m: nat, newId: nat)
    requires Ordered(t, h) && 1 <= m < Size(t)
    ensures Below(Entries(LowHalf(t, m)), MiddleKey(t, m)) && AtLeast(Entries(HighHalf(t, m, newId)), MiddleKey(t, m))
  {
    if t.Node? {
      var k := MiddleKey(t, m);
      NodeEntries(LowHalf(t, m));
      NodeEntries(HighHalf(t, m, newId));
      forall e | e in All(t.kids[..m])
        ensures e.key < k
      {
        InConcat(Lists(t.kids[..m]), e);
        var j :| 0 <= j < m && e in Lists(t.kids[..m])[j];
        assert Parts(Entries(t.kids[j]), j, m, t.keys[m]);
      }
      forall e | e in All(t.kids[m..])
        ensures k <= e.key
      {
        InConcat(Lists(t.kids[m..]), e);
        var j :| 0 <= j < |t.kids| - m && e in Lists(t.kids[m..])[j];
        assert Parts(Entries(t.kids[m + j]), m + j, m, t.keys[m]);
      }
    }
  }

  /** Splitting a node anywhere inside leaves two halves ready for its parent. */
  lemma SplitReady(c: Path, t: Tree, h: nat, m: nat, newId: nat)
    requires At(c, t, h) && 1 <= m < Size(t)
    ensures Ready(c, LowHalf(t, m), MiddleKey(t, m), HighHalf(t, m, newId), h)
    ensures Entries(LowHalf(t, m)) + Entries(HighHalf(t, m, newId)) == Entries(t)
  {
    LowOrdered(t, h, m);
    HighOrdered(t, h, m, newId);
    MiddleSeparates(t, h, m, newId);
    HalvesSplit(t, m, newId);
    hide Ordered, Entries, OrderedPath, LowHalf, HighHalf;
    FitsSubset(c, Entries(t), Entries(LowHalf(t, m)));
    FitsSubset(c, Entries(t), Entries(HighHalf(t, m, newId)));
  }

  // ------------------------------------------------------------- climb

  predicate PathSized(c: Path) {
    c.In? ==> |c.keys| == |c.before| + 1 + |c.after| && PathSized(c.up)
  }

  /**
   * Put the two halves of a split child into the parent; a parent that grows past its limit splits in turn,
   * and a split root gets a new root above it. New pages are numbered upwards from `newId`.
   */
  function Climb(m: Limits, c: Path, left: Tree, key: Key, right: Tree, newId: nat): Tree
    requires LimitsOk(m) && PathSized(c)
    decreases c
  {
    match c
    case Top => Node(newId, [0, key], [left, right])
    case In(up, _, _, _, _) =>
      var n := Widen(c, left, key, right);
      if |n.kids| <= m.innerMax then Plug(up, n)
      else
        var at := (|n.kids| + 1) / 2;
        Climb(m, up, LowHalf(n, at), MiddleKey(n, at), HighHalf(n, at, newId), newId + 1)
  }

  /** The parent after taking the halves in, and what happens next. */
  lemma ClimbStep(m: Limits, c: Path, left: Tree, key: Key, right: Tree, newId: nat) returns (n: Tree, at: nat)
    requires LimitsOk(m) && PathSized(c) && c.In?
    ensures n == Widen(c, left, key, right) && n.Node? && |n.kids| == |n.keys| == |c.keys| + 1 && Size(n) == |n.kids|
    ensures at == (|n.kids| + 1) / 2 && PathSized(c.up)
    ensures |n.kids| <= m.innerMax ==> Climb(m, c, left, key, right, newId) == Plug(c.up, n)
    ensures |n.kids| > m.innerMax ==>
      && 1 <= at < |n.kids|
      && Climb(m, c, left, key, right, newId) ==
         Climb(m, c.up, LowHalf(n, at), MiddleKey(n, at), HighHalf(n, at, newId), newId + 1)
  {
    n := Widen(c, left, key, right);
    at := (|n.kids| + 1) / 2;
  }

  lemma {:induction false} OrderedPathSized(c: Path, h: nat)
    requires OrderedPath(c, h)
    ensures PathSized(c)
    decreases c
  {
    if c.In? {
      OrderedPathSized(c.up, h + 1);
    }
  }

  lemma NewRoot(left: Tree, key: Key, right: Tree, h: nat, newId: nat)
    requires Ordered(left, h) && Ordered(right, h) && Below(Entries(left), key) && AtLeast(Entries(right), key)
    ensures Ordered(Node(newId, [0, key], [left, right]), h + 1)
    ensures Entries(Node(newId, [0, key], [left, right])) == Entries(left) + Entries(right)
  {
    var kids := [left] + [right];
    assert kids == [left, right];
    NodeEntries(Node(newId, [0, key], kids));
    AllAppend([left], [right]);
    AllOne(left);
    AllOne(right);
    hide Entries, All;
    assert Separated([0, key], kids);
  }

  /** Wherever the splitting stops, the tree is in order and holds the same entries. */
  lemma {:induction false} ClimbOrdered(m: Limits, c: Path, left: Tree, key: Key, right: Tree, h: nat, newId: nat)
    returns (height: nat)
    requires LimitsOk(m) && Ready(c, left, key, right, h) && PathSized(c)
    ensures Ordered(Climb(m, c, left, key, right, newId), height)
    ensures Entries(Climb(m, c, left, key, right, newId)) == LeftOf(c) + Entries(left) + Entries(right) + RightOf(c)
    decreases c
  {
    hide Ordered, Entries, OrderedPath, Fits, Below, AtLeast, Climb, Widen, LowHalf, HighHalf, MiddleKey, Plug, LeftOf,
      RightOf, Depth;
    if c.Top? {
      height := h + 1;
      ClimbTop(m, c, left, key, right, h, newId);
    } else {
      var n, at := ClimbStep(m, c, left, key, right, newId);
      WidenAt(c, left, key, right, h);
      if |n.kids| <= m.innerMax {
        height := h + 1 + Depth(c.up);
        PlugOrdered(c.up, n, h + 1);
        PlugEntries(c.up, n);
      } else {
        var low, high := LowHalf(n, at), HighHalf(n, at, newId);
        SplitReady(c.up, n, h + 1, at, newId);
        height := ClimbOrdered(m, c.up, low, MiddleKey(n, at), high, h + 1, newId + 1);
        Regroup(LeftOf(c.up), Entries(low), Entries(high), RightOf(c.up));
      }
    }
  }

  lemma ClimbTop(m: Limits, c: Path, left: Tree, key: Key, right: Tree, h: nat, newId: nat)
    requires LimitsOk(m) && c.Top? && Ready(c, left, key, right, h)
    ensures Ordered(Climb(m, c, left, key, right, newId), h + 1)
    ensures Entries(Climb(m, c, left, key, right, newId)) == LeftOf(c) + Entries(left) + Entries(right) + RightOf(c)
  {
    hide Ordered, Entries, Below, AtLeast;
    NewRoot(left, key, right, h, newId);
    assert LeftOf(c) + Entries(left) + Entries(right) + RightOf(c) == Entries(left) + Entries(right);
  }

  lemma Regroup<T>(a: seq<T>, b: seq<T>, c: seq<T>, d: seq<T>)
    ensures a + b + c + d == a + (b + c) + d
  {
  }

  // --------------------------------------------------------- occupancy

  function MinSize(m: Limits, t: Tree): nat {
    if t.Leaf? then m.leafMax / 2 else (m.innerMax + 1) / 2
  }

  function MaxSize(m: Limits, t: Tree): int {
    if t.Leaf? then m.leafMax - 1 else m.innerMax
  }

  /** Every page below the root is at least half full and none is over its limit. */
  predicate Filled(m: Limits, t: Tree)
    decreases t
  {
    && MinSize(m, t) <= Size(t) <= MaxSize(m, t)
    && (t.Node? ==> forall i :: 0 <= i < |t.kids| ==> Filled(m, t.kids[i]))
  }

  /** The root may hold less: one entry, or two children. */
  predicate RootFilled(m: Limits, t: Tree) {
    && (if t.Leaf? then 1 else 2) <= Size(t) <= MaxSize(m, t)
    && (t.Node? ==> forall i :: 0 <= i < |t.kids| ==> Filled(m, t.kids[i]))
  }

  predicate PathFilled(m: Limits, c: Path) {
    match c
    case Top => true
    case In(up, _, keys, before, after) =>
      && |keys| == |before| + 1 + |after| <= m.innerMax
      && (if up.Top? then 2 else (m.innerMax + 1) / 2) <= |keys|
      && (forall i :: 0 <= i < |before| ==> Filled(m, before[i]))
      && (forall i :: 0 <= i < |after| ==> Filled(m, after[i]))
      && PathFilled(m, up)
  }

  /** What stands in the hole: any filled tree, or at the top a filled root. */
  predicate HoleFilled(m: Limits, c: Path, t: Tree) {
    if c.Top? then RootFilled(m, t) else Filled(m, t)
  }

  lemma DownFilled(m: Limits, c: Path, t: Tree, i: nat)
    requires t.Node? && i < |t.kids| == |t.keys| && PathFilled(m, c) && HoleFilled(m, c, t)
    ensures PathFilled(m, Down(c, t, i)) && Filled(m, t.kids[i])
  {
    var before, after := t.kids[..i], t.kids[i + 1..];
    assert forall j :: 0 <= j < |after| ==> after[j] == t.kids[i + 1 + j];
  }

  lemma {:induction false} PlugFilled(m: Limits, c: Path, t: Tree)
    requires PathFilled(m, c) && HoleFilled(m, c, t)
    ensures RootFilled(m, Plug(c, t))
    decreases c
  {
    if c.In? {
      var kids := c.before + [t] + c.after;
      forall j | 0 <= j < |kids|
        ensures Filled(m, kids[j])
      {
        assert kids[j] == if j < |c.before| then c.before[j] else if j == |c.before| then t
          else c.after[j - |c.before| - 1];
      }
      PlugFilled(m, c.up, Node(c.id, c.keys, kids));
    }
  }

  /** A node one over its limit splits into two that are both filled. */
  lemma HalvesFilled(m: Limits, t: Tree, newId: nat)
    requires LimitsOk(m) && Size(t) == MaxSize(m, t) + 1 && (t.Node? ==> |t.keys| == |t.kids|)
    requires t.Node? ==> forall i :: 0 <= i < |t.kids| ==> Filled(m, t.kids[i])
    ensures var at := (Size(t) + 1) / 2; Filled(m, LowHalf(t, at)) && Filled(m, HighHalf(t, at, newId))
  {
    var at := (Size(t) + 1) / 2;
    if t.Node? {
      assert forall j :: 0 <= j < |t.kids| - at ==> t.kids[at..][j] == t.kids[at + j];
    }
  }

  lemma WidenFilled(m: Limits, c: Path, left: Tree, key: Key, right: Tree)
    requires c.In? && PathFilled(m, c) && Filled(m, left) && Filled(m, right)
    ensures var n := Widen(c, left, key, right);
      && |n.kids| == |n.keys| == |c.keys| + 1 && forall i :: 0 <= i < |n.kids| ==> Filled(m, n.kids[i])
  {
    var b := |c.before|;
    var n := Widen(c, left, key, right);
    forall j | 0 <= j < |n.kids|
      ensures Filled(m, n.kids[j])
    {
      assert n.kids[j] == if j < b then c.before[j] else if j == b then left else if j == b + 1 then right
        else c.after[j - b - 2];
    }
  }

  lemma TopFilled(m: Limits, left: Tree, key: Key, right: Tree, newId: nat)
    requires LimitsOk(m) && Filled(m, left) && Filled(m, right)
    ensures RootFilled(m, Climb(m, Top, left, key, right, newId))
  {
  }

  lemma WidenedFills(m: Limits, c: Path, n: Tree)
    requires c.In? && PathFilled(m, c) && n.Node? && |n.kids| == |c.keys| + 1 <= m.innerMax
    requires forall i :: 0 <= i < |n.kids| ==> Filled(m, n.kids[i])
    ensures HoleFilled(m, c.up, n)
  {
  }

  /** Splits keep every page within its limits, for every leaf limit from 2 and inner limit from 3 up. */
  lemma {:induction false} ClimbFilled(m: Limits, c: Path, left: Tree, key: Key, right: Tree, newId: nat)
    requires LimitsOk(m) && PathSized(c) && PathFilled(m, c) && Filled(m, left) && Filled(m, right)
    ensures RootFilled(m, Climb(m, c, left, key, right, newId))
    decreases c
  {
    hide Climb, Widen, LowHalf, HighHalf, MiddleKey, Plug, Filled, RootFilled;
    if c.Top? {
      TopFilled(m, left, key, right, newId);
    } else {
      WidenFilled(m, c, left, key, right);
      var n, at := ClimbStep(m, c, left, key, right, newId);
      if |n.kids| <= m.innerMax {
        WidenedFills(m, c, n);
        PlugFilled(m, c.up, n);
      } else {
        HalvesFilled(m, n, newId);
        ClimbFilled(m, c.up, LowHalf(n, at), MiddleKey(n, at), HighHalf(n, at, newId), newId + 1);
      }
    }
  }
}
