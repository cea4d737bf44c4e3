/** What each page write of an insertion does to the tree the pages show. */
module TreeSteps {
  import opened TreeShape
  import opened TreeInsert
  import opened TreePages

  /** Two halves of a split child, the parent still knowing only the left one. */
  predicate ShowsPair(p: Pages, c: Path, left: Tree, right: Tree) {
    && HoldsPath(p, c, left.id, FirstLeaf(left)) && Holds(p, left, ParentOf(c), FirstLeaf(right))
    && Holds(p, right, ParentOf(c), NextAfter(c))
  }

  // ------------------------------------------------------------ leaves

  lemma LeafWrite(p: Pages, c: Path, t: Tree, es: seq<Entry>, n: nat)
    requires t.Leaf? && Shows(p, c, t) && Once(c, t, n)
    ensures t.id in p && p[t.id] == LeafPage(ParentOf(c), t.entries, NextAfter(c))
    ensures Shows(p[t.id := p[t.id].(entries := es)], c, Leaf(t.id, es))
  {
    var q := p[t.id := p[t.id].(entries := es)];
    PathIdsApart(c, Ids(t));
    PathFrame(p, q, c, t.id, t.id);
  }

  function SplitLeafPages(p: Pages, id: int, m: nat, newId: int): Pages
    requires id in p && p[id].LeafPage? && m <= |p[id].entries|
  {
    p[newId := LeafPage(p[id].parent, p[id].entries[m..], p[id].next)]
     [id := LeafPage(p[id].parent, p[id].entries[..m], newId)]
  }

  lemma SplitLeafShows(p: Pages, c: Path, t: Tree, m: nat, newId: nat)
    requires t.Leaf? && Shows(p, c, t) && Once(c, t, newId) && m <= |t.entries|
    ensures ShowsPair(SplitLeafPages(p, t.id, m, newId), c, LowHalf(t, m), HighHalf(t, m, newId))
  {
    var q := SplitLeafPages(p, t.id, m, newId);
    assert t.id in Ids(t);
    PathIdsApart(c, Ids(t));
    PathFrame(p, q, c, t.id, t.id);
  }

  // ------------------------------------------------------------ parents

  /** The first slot holding a page; -1 if none does. */
  function ValueIndex(slots: seq<Slot>, child: int): (r: int)
    ensures -1 <= r < |slots|
    ensures r >= 0 ==> slots[r].child == child && forall i :: 0 <= i < r ==> slots[i].child != child
    ensures r < 0 ==> forall i :: 0 <= i < |slots| ==> slots[i].child != child
  {
    if slots == [] then -1
    else
      var r := ValueIndex(slots[..|slots| - 1], child);
      if r >= 0 then r else if slots[|slots| - 1].child == child then |slots| - 1 else -1
  }

  function InsertAfter(slots: seq<Slot>, i: int, s: Slot): seq<Slot>
    requires -1 <= i < |slots|
  {
    slots[..i + 1] + [s] + slots[i + 1..]
  }

  lemma HoleIndex(c: Path, left: Tree, hole: set<int>)
    requires c.In? && |c.keys| == |c.before| + 1 + |c.after| && PathApart(c, hole) && left.id in hole
    ensures ValueIndex(Around(c, left.id), left.id) == |c.before|
  {
    var slots, b := Around(c, left.id), |c.before|;
    ForestHas(c.before, c.after);
    forall i | 0 <= i < b
      ensures slots[i].child != left.id
    {
      OwnId(c.before[i]);
    }
    assert slots[b].child == left.id;
  }

  lemma OwnId(t: Tree)
    ensures t.id in Ids(t)
  {
  }

  lemma WidenedSlots(c: Path, left: Tree, key: Key, right: Tree)
    requires c.In? && |c.keys| == |c.before| + 1 + |c.after|
    ensures var n := Widen(c, left, key, right);
      && |n.keys| == |n.kids| == |c.keys| + 1
      && InsertAfter(Around(c, left.id), |c.before|, Slot(key, right.id)) == Slots(n.keys, n.kids)
  {
    var n, b := Widen(c, left, key, right), |c.before|;
    var s := InsertAfter(Around(c, left.id), b, Slot(key, right.id));
    forall i | 0 <= i < |s|
      ensures s[i] == Slot(n.keys[i], n.kids[i].id)
    {
      if i <= b {
        assert s[i] == Around(c, left.id)[i];
      } else if i > b + 1 {
        assert s[i] == Around(c, left.id)[i - 1];
      }
    }
  }

  /** Kid j of the widened node, wherever it came from, with its right neighbour. */
  lemma WidenedKid(p: Pages, c: Path, left: Tree, key: Key, right: Tree, j: nat)
    requires c.In? && ShowsPair(p, c, left, right) && j <= |c.keys|
    ensures var kids := Widen(c, left, key, right).kids;
      Holds(p, kids[j], c.id, NextOf(kids, j, NextAfter(c.up)))
  {
    hide Holds, FirstLeaf;
    var kids, b := Widen(c, left, key, right).kids, |c.before|;
    if j < b {
      assert kids[j] == c.before[j];
      assert kids[j + 1] == if j + 1 < b then c.before[j + 1] else left;
    } else if j == b {
      assert kids[j] == left && kids[j + 1] == right;
    } else if j == b + 1 {
      assert kids[j] == right;
      assert j + 1 < |kids| ==> kids[j + 1] == c.after[0];
    } else {
      assert kids[j] == c.after[j - b - 2];
      assert j + 1 < |kids| ==> kids[j + 1] == c.after[j - b - 1];
    }
  }

  lemma WidenShows(p: Pages, c: Path, left: Tree, key: Key, right: Tree, n: nat)
    requires c.In? && ShowsPair(p, c, left, right) && OncePair(c, left, right, n)
    ensures c.id in p && p[c.id].InnerPage? && ValueIndex(p[c.id].slots, left.id) == |c.before| < |p[c.id].slots|
    ensures var slots := InsertAfter(p[c.id].slots, |c.before|, Slot(key, right.id));
      Shows(p[c.id := InnerPage(p[c.id].parent, slots)], c.up, Widen(c, left, key, right))
  {
    OwnId(left);
    HoleIndex(c, left, Ids(left) + Ids(right));
    WidenedSlots(c, left, key, right);
    var w := Widen(c, left, key, right);
    var q := p[c.id := InnerPage(p[c.id].parent, Slots(w.keys, w.kids))];
    WidenOnce(c, left, key, right, n);
    hide Holds, Distinct, Apart;
    forall j | 0 <= j < |w.kids|
      ensures Holds(q, w.kids[j], c.id, NextOf(w.kids, j, NextAfter(c.up)))
    {
      WidenedKid(p, c, left, key, right, j);
      KidLacks(w, j);
      HoldsFrame(p, q, w.kids[j], c.id, NextOf(w.kids, j, NextAfter(c.up)));
    }
    OwnId(w);
    PathIdsApart(c.up, Ids(w));
    hide Ids, PathIds;
    PathFrame(p, q, c.up, c.id, FirstWith(c.before, FirstLeaf(left)));
    assert w.kids[0] == if c.before == [] then left else c.before[0];
    assert FirstLeaf(w) == FirstWith(c.before, FirstLeaf(left));
    NodeShows(q, w, ParentOf(c.up), NextAfter(c.up));
  }

  lemma KidLacks(t: Tree, j: nat)
    requires t.Node? && Distinct(t) && j < |t.kids|
    ensures t.id !in Ids(t.kids[j])
  {
  }

  lemma NodeShows(q: Pages, t: Tree, parent: int, next: int)
    requires t.Node? && |t.keys| == |t.kids| > 0 && t.id in q && q[t.id] == InnerPage(parent, Slots(t.keys, t.kids))
    requires forall j :: 0 <= j < |t.kids| ==> Holds(q, t.kids[j], t.id, NextOf(t.kids, j, next))
    ensures Holds(q, t, parent, next)
  {
  }

  // -------------------------------------------------------- inner splits

  /** Every page in `moved` gets a new parent. */
  function Adopted(p: Pages, moved: seq<Slot>, parent: int): Pages {
    map x | x in p :: if HasChild(moved, x) then p[x].(parent := parent) else p[x]
  }

  predicate HasChild(slots: seq<Slot>, x: int) {
    exists i :: 0 <= i < |slots| && slots[i].child == x
  }

  function SplitInnerPages(p: Pages, id: int, m: nat, newId: int): Pages
    requires id in p && p[id].InnerPage? && m <= |p[id].slots|
  {
    var page := p[id];
    Adopted(p[newId := InnerPage(page.parent, page.slots[m..])][id := InnerPage(page.parent, page.slots[..m])],
            page.slots[m..], newId)
  }

  lemma HalfSlots(keys: seq<Key>, kids: seq<Tree>, m: nat)
    requires |keys| == |kids| && m <= |kids|
    ensures Slots(keys, kids)[..m] == Slots(keys[..m], kids[..m])
    ensures Slots(keys, kids)[m..] == Slots(keys[m..], kids[m..])
  {
  }

  lemma MovedAre(t: Tree, m: nat, x: int)
    requires t.Node? && |t.keys| == |t.kids| && m <= |t.kids|
    ensures HasChild(Slots(t.keys, t.kids)[m..], x) <==> exists j :: m <= j < |t.kids| && t.kids[j].id == x
  {
    var moved := Slots(t.keys, t.kids)[m..];
    if HasChild(moved, x) {
      var i :| 0 <= i < |moved| && moved[i].child == x;
      assert t.kids[m + i].id == x;
    }
    if j :| m <= j < |t.kids| && t.kids[j].id == x {
      assert moved[j - m].child == x;
    }
  }

  /** What the split leaves on each page. */
  lemma SplitInnerAt(p: Pages, t: Tree, c: Path, m: nat, newId: nat, x: int)
    requires t.Node? && Shows(p, c, t) && Once(c, t, newId) && m <= |t.kids|
    ensures t.id in p && p[t.id] == InnerPage(ParentOf(c), Slots(t.keys, t.kids))
    ensures var q := SplitInnerPages(p, t.id, m, newId);
      && t.id in q && q[t.id] == InnerPage(ParentOf(c), Slots(t.keys[..m], t.kids[..m]))
      && newId in q && q[newId] == InnerPage(ParentOf(c), Slots(t.keys[m..], t.kids[m..]))
      && (x in p && x != t.id && x != newId ==>
            x in q && q[x] ==
              if exists j :: m <= j < |t.kids| && t.kids[j].id == x then p[x].(parent := newId) else p[x])
  {
    NodeHolds(p, t, ParentOf(c), NextAfter(c));
    HalfSlots(t.keys, t.kids, m);
    MovedAre(t, m, t.id);
    MovedAre(t, m, newId);
    MovedAre(t, m, x);
    forall j | 0 <= j < |t.kids|
      ensures t.kids[j].id != t.id && t.kids[j].id != newId
    {
      OwnId(t.kids[j]);
      KidLacks(t, j);
      assert t.kids[j].id in Ids(t);
    }
  }

  lemma SplitInnerKid(p: Pages, t: Tree, c: Path, m: nat, newId: nat, j: nat, next: int)
    requires t.Node? && Shows(p, c, t) && Once(c, t, newId) && m <= |t.kids| && j < |t.kids|
    requires t.id in p && p[t.id] == InnerPage(ParentOf(c), Slots(t.keys, t.kids))
    requires Holds(p, t.kids[j], t.id, next)
    ensures Holds(SplitInnerPages(p, t.id, m, newId), t.kids[j], if j < m then t.id else newId, next)
  {
    var q, kid := SplitInnerPages(p, t.id, m, newId), t.kids[j];
    OwnId(kid);
    hide SplitInnerPages, Shows, Once;
    forall x | x in Ids(kid) && x in p
      ensures x in q && q[x] == if x == kid.id && j >= m then p[x].(parent := newId) else p[x]
    {
      SplitInnerAt(p, t, c, m, newId, x);
      OnlyRoot(t, c, newId, j, x);
    }
    if j < m {
      HoldsFrame(p, q, kid, t.id, next);
    } else {
      KidOnce(t, c, newId, j);
      ReparentHolds(p, q, kid, t.id, newId, next);
    }
  }

  lemma KidOnce(t: Tree, c: Path, n: nat, j: nat)
    requires t.Node? && Once(c, t, n) && j < |t.kids|
    ensures Distinct(t.kids[j])
  {
  }

  /** Of the pages under kid j, only its own is the root of a kid. */
  lemma OnlyRoot(t: Tree, c: Path, n: nat, j: nat, x: int)
    requires t.Node? && Once(c, t, n) && j < |t.kids| && x in Ids(t.kids[j])
    ensures x != t.id && x != n
    ensures forall i :: 0 <= i < |t.kids| && t.kids[i].id == x ==> i == j
  {
    forall i | 0 <= i < |t.kids| && t.kids[i].id == x
      ensures i == j
    {
      OwnId(t.kids[i]);
    }
    assert x in Ids(t);
  }

  lemma SplitInnerShows(p: Pages, c: Path, t: Tree, m: nat, newId: nat)
    requires t.Node? && Shows(p, c, t) && Once(c, t, newId) && 1 <= m < |t.kids|
    ensures t.id in p && p[t.id] == InnerPage(ParentOf(c), Slots(t.keys, t.kids)) && |t.keys| == |t.kids|
    ensures ShowsPair(SplitInnerPages(p, t.id, m, newId), c, LowHalf(t, m), HighHalf(t, m, newId))
  {
    NodeHolds(p, t, ParentOf(c), NextAfter(c));
    var q, low, high := SplitInnerPages(p, t.id, m, newId), LowHalf(t, m), HighHalf(t, m, newId);
    SplitInnerAt(p, t, c, m, newId, t.id);
    assert FirstLeaf(low) == FirstLeaf(t);
    SplitInnerPath(p, c, t, m, newId);
    hide Holds, SplitInnerPages, Once;
    forall j | 0 <= j < |t.kids|
      ensures Holds(q, t.kids[j], if j < m then t.id else newId, NextOf(t.kids, j, NextAfter(c)))
    {
      SplitInnerKid(p, t, c, m, newId, j, NextOf(t.kids, j, NextAfter(c)));
    }
    hide Shows;
    forall j | 0 <= j < |low.kids|
      ensures Holds(q, low.kids[j], low.id, NextOf(low.kids, j, FirstLeaf(high)))
    {
      assert low.kids[j] == t.kids[j];
      assert NextOf(low.kids, j, FirstLeaf(high)) ==
        NextOf(t.kids, j, NextAfter(c)) by { NextInLow(t, m, newId, j, NextAfter(c)); }
    }
    NodeShows(q, low, ParentOf(c), FirstLeaf(high));
    forall j | 0 <= j < |high.kids|
      ensures Holds(q, high.kids[j], high.id, NextOf(high.kids, j, NextAfter(c)))
    {
      assert high.kids[j] == t.kids[m + j];
      assert NextOf(high.kids, j, NextAfter(c)) == NextOf(t.kids, m + j, NextAfter(c));
    }
    NodeShows(q, high, ParentOf(c), NextAfter(c));
  }

  lemma NextInLow(t: Tree, m: nat, newId: nat, j: nat, next: int)
    requires t.Node? && |t.keys| == |t.kids| && j < m < |t.kids|
    ensures NextOf(t.kids[..m], j, FirstLeaf(HighHalf(t, m, newId))) == NextOf(t.kids, j, next)
  {
    assert t.kids[m..][0] == t.kids[m];
  }

  lemma SplitInnerPath(p: Pages, c: Path, t: Tree, m: nat, newId: nat)
    requires t.Node? && Shows(p, c, t) && Once(c, t, newId) && m <= |t.kids|
    requires t.id in p && p[t.id] == InnerPage(ParentOf(c), Slots(t.keys, t.kids))
    ensures HoldsPath(SplitInnerPages(p, t.id, m, newId), c, t.id, FirstLeaf(t))
  {
    var q := SplitInnerPages(p, t.id, m, newId);
    PathIdsApart(c, Ids(t));
    OwnId(t);
    hide SplitInnerPages;
    forall x | x in PathIds(c) && x in p
      ensures x in q && q[x] == p[x]
    {
      SplitInnerAt(p, t, c, m, newId, x);
      forall j | 0 <= j < |t.kids|
        ensures t.kids[j].id != x
      {
        OwnId(t.kids[j]);
        assert t.kids[j].id in Ids(t);
      }
    }
    PathFrame(p, q, c, t.id, FirstLeaf(t));
  }

  // ------------------------------------------------------------ new root

  function NewRootPages(p: Pages, left: int, key: Key, right: int, newId: int): Pages
    requires left in p && right in p
  {
    var q := p[newId := InnerPage(INVALID, [Slot(0, left), Slot(key, right)])];
    var r := q[left := q[left].(parent := newId)];
    r[right := r[right].(parent := newId)]
  }

  lemma NewRootOnce(left: Tree, key: Key, right: Tree, newId: nat)
    requires OncePair(Top, left, right, newId)
    ensures Once(Top, Node(newId, [0, key], [left, right]), newId + 1)
  {
    var t := Node(newId, [0, key], [left, right]);
    NodeIds(t);
    ForestHas([left], [right]);
    assert [left] + [right] == t.kids;
    hide Ids, Distinct;
    forall x | x in ForestIds(t.kids)
      ensures x in Ids(left) + Ids(right)
    {
      var i :| 0 <= i < |t.kids| && x in Ids(t.kids[i]);
      assert i == 0 || i == 1;
    }
    NodeDistinct(t);
  }

  lemma NewRootShows(p: Pages, left: Tree, key: Key, right: Tree, newId: nat)
    requires ShowsPair(p, Top, left, right) && OncePair(Top, left, right, newId)
    ensures left.id in p && right.id in p
    ensures Shows(NewRootPages(p, left.id, key, right.id, newId), Top, Node(newId, [0, key], [left, right]))
  {
    RootIds(p, left, INVALID, FirstLeaf(right));
    RootIds(p, right, INVALID, INVALID);
    var q := NewRootPages(p, left.id, key, right.id, newId);
    var t := Node(newId, [0, key], [left, right]);
    hide Holds, Ids, Distinct;
    ReparentHolds(p, q, left, INVALID, newId, FirstLeaf(right));
    ReparentHolds(p, q, right, INVALID, newId, INVALID);
    assert Slots(t.keys, t.kids) == [Slot(0, left.id), Slot(key, right.id)];
    assert NextOf(t.kids, 0, INVALID) == FirstLeaf(right) && NextOf(t.kids, 1, INVALID) == INVALID;
    NodeShows(q, t, INVALID, INVALID);
  }

  lemma RootIds(p: Pages, t: Tree, parent: int, next: int)
    requires Holds(p, t, parent, next)
    ensures t.id in p && t.id in Ids(t)
  {
  }
}
