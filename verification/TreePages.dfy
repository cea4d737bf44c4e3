/** How a tree lies in pages: slots, parent links and the leaf chain, and what survives a change of some pages. */
module TreePages {
  import opened TreeShape
  import opened TreeInsert

  datatype Slot = Slot(key: Key, child: int)

  datatype Page =
    | LeafPage(parent: int, entries: seq<Entry>, next: int)
    | InnerPage(parent: int, slots: seq<Slot>)

  type Pages = map<int, Page>

  function FirstLeaf(t: Tree): int {
    if t.Node? && t.kids != [] then FirstLeaf(t.kids[0]) else t.id
  }

  function NextOf(kids: seq<Tree>, i: nat, next: int): int {
    if i + 1 < |kids| then FirstLeaf(kids[i + 1]) else next
  }

  function Slots(keys: seq<Key>, kids: seq<Tree>): (s: seq<Slot>)
    requires |keys| == |kids|
    ensures |s| == |kids|
  {
    seq(|kids|, i requires 0 <= i < |kids| => Slot(keys[i], kids[i].id))
  }

  /** The pages of a tree: entries and slots, the parent of every page, the right neighbour of every leaf. */
  predicate Holds(p: Pages, t: Tree, parent: int, next: int)
    decreases t
  {
    && t.id in p
    && match t
       case Leaf(id, es) => p[id] == LeafPage(parent, es, next)
       case Node(id, keys, kids) =>
         && |keys| == |kids| > 0 && p[id] == InnerPage(parent, Slots(keys, kids))
         && forall i :: 0 <= i < |kids| ==> Holds(p, kids[i], id, NextOf(kids, i, next))
  }

  function Ids(t: Tree): set<int>
    decreases t
  {
    match t
    case Leaf(id, _) => {id}
    case Node(id, _, kids) => {id} + set i, x | 0 <= i < |kids| && x in Ids(kids[i]) :: x
  }

  function ForestIds(ts: seq<Tree>): set<int> {
    set i, x | 0 <= i < |ts| && x in Ids(ts[i]) :: x
  }

  predicate Apart(ts: seq<Tree>) {
    forall i, j :: 0 <= i < j < |ts| ==> Ids(ts[i]) !! Ids(ts[j])
  }

  /** No page belongs to two places. */
  predicate Distinct(t: Tree)
    decreases t
  {
    t.Node? ==>
      && (forall i :: 0 <= i < |t.kids| ==> Distinct(t.kids[i]) && t.id !in Ids(t.kids[i]))
      && Apart(t.kids)
  }

  // ------------------------------------------------------------ paths

  function ParentOf(c: Path): int {
    if c.Top? then INVALID else c.id
  }

  function NextAfter(c: Path): int {
    if c.Top? then INVALID
    else if c.after != [] then FirstLeaf(c.after[0])
    else NextAfter(c.up)
  }

  function FirstWith(before: seq<Tree>, first: int): int {
    if before == [] then first else FirstLeaf(before[0])
  }

  /** The slots of the node around the hole: only the number of the page in the hole matters. */
  function Around(c: Path, hole: nat): seq<Slot>
    requires c.In? && |c.keys| == |c.before| + 1 + |c.after|
  {
    Slots(c.keys, c.before + [Leaf(hole, [])] + c.after)
  }

  /** The pages of everything around the hole; `first` is the first leaf under it. */
  predicate HoldsPath(p: Pages, c: Path, hole: nat, first: int)
    decreases c
  {
    c.In? ==>
      && |c.keys| == |c.before| + 1 + |c.after|
      && c.id in p && p[c.id] == InnerPage(ParentOf(c.up), Around(c, hole))
      && (forall i :: 0 <= i < |c.before| ==> Holds(p, c.before[i], c.id, NextOf(c.before, i, first)))
      && (forall i :: 0 <= i < |c.after| ==> Holds(p, c.after[i], c.id, NextOf(c.after, i, NextAfter(c.up))))
      && HoldsPath(p, c.up, c.id, FirstWith(c.before, first))
  }

  function PathIds(c: Path): set<int> {
    if c.Top? then {} else {c.id as int} + ForestIds(c.before + c.after) + PathIds(c.up)
  }

  /** No page around the hole is among those in the hole, and none belongs to two places. */
  predicate PathApart(c: Path, hole: set<int>)
    decreases c
  {
    c.In? ==>
      && c.id !in hole && c.id !in ForestIds(c.before + c.after) && ForestIds(c.before + c.after) !! hole
      && Apart(c.before + c.after) && (forall i :: 0 <= i < |c.before + c.after| ==> Distinct((c.before + c.after)[i]))
      && PathApart(c.up, hole + {c.id as int} + ForestIds(c.before + c.after))
  }

  lemma {:induction false} PathIdsApart(c: Path, hole: set<int>)
    requires PathApart(c, hole)
    ensures PathIds(c) !! hole
    decreases c
  {
    if c.In? {
      PathIdsApart(c.up, hole + {c.id as int} + ForestIds(c.before + c.after));
    }
  }

  lemma {:induction false} PathApartShrinks(c: Path, hole: set<int>, less: set<int>)
    requires PathApart(c, hole) && less <= hole
    ensures PathApart(c, less)
    decreases c
  {
    if c.In? {
      PathApartShrinks(c.up, hole + {c.id as int} + ForestIds(c.before + c.after),
                       less + {c.id as int} + ForestIds(c.before + c.after));
    }
  }

  /** A page nobody has may join the hole. */
  lemma {:induction false} PathApartGrows(c: Path, hole: set<int>, x: int)
    requires PathApart(c, hole) && x !in PathIds(c)
    ensures PathApart(c, hole + {x})
    decreases c
  {
    if c.In? {
      var f := ForestIds(c.before + c.after);
      PathApartGrows(c.up, hole + {c.id as int} + f, x);
      assert hole + {c.id as int} + f + {x} == hole + {x} + {c.id as int} + f;
    }
  }

  // ------------------------------------------------------------ frames

  predicate Agree(p: Pages, q: Pages, ids: set<int>) {
    forall x :: x in ids && x in p ==> x in q && q[x] == p[x]
  }

  lemma {:induction false} HoldsFrame(p: Pages, q: Pages, t: Tree, parent: int, next: int)
    requires Holds(p, t, parent, next) && Agree(p, q, Ids(t))
    ensures Holds(q, t, parent, next)
    decreases t
  {
    if t.Node? {
      forall i | 0 <= i < |t.kids|
        ensures Holds(q, t.kids[i], t.id, NextOf(t.kids, i, next))
      {
        HoldsFrame(p, q, t.kids[i], t.id, NextOf(t.kids, i, next));
      }
    }
  }

  lemma {:induction false} PathFrame(p: Pages, q: Pages, c: Path, hole: nat, first: int)
    requires HoldsPath(p, c, hole, first) && Agree(p, q, PathIds(c))
    ensures HoldsPath(q, c, hole, first)
    decreases c
  {
    if c.In? {
      hide Holds;
      ForestHas(c.before, c.after);
      forall i | 0 <= i < |c.before|
        ensures Holds(q, c.before[i], c.id, NextOf(c.before, i, first))
      {
        HoldsFrame(p, q, c.before[i], c.id, NextOf(c.before, i, first));
      }
      forall i | 0 <= i < |c.after|
        ensures Holds(q, c.after[i], c.id, NextOf(c.after, i, NextAfter(c.up)))
      {
        HoldsFrame(p, q, c.after[i], c.id, NextOf(c.after, i, NextAfter(c.up)));
      }
      PathFrame(p, q, c.up, c.id, FirstWith(c.before, first));
    }
  }

  lemma ForestHas(a: seq<Tree>, b: seq<Tree>)
    ensures forall i :: 0 <= i < |a| ==> Ids(a[i]) <= ForestIds(a + b)
    ensures forall i :: 0 <= i < |b| ==> Ids(b[i]) <= ForestIds(a + b)
  {
    forall i | 0 <= i < |a|
      ensures Ids(a[i]) <= ForestIds(a + b)
    {
      assert (a + b)[i] == a[i];
    }
    forall i | 0 <= i < |b|
      ensures Ids(b[i]) <= ForestIds(a + b)
    {
      assert (a + b)[|a| + i] == b[i];
    }
  }

  /** Changing only a page's parent link moves the subtree under another parent. */
  lemma ReparentHolds(p: Pages, q: Pages, t: Tree, parent: int, other: int, next: int)
    requires Holds(p, t, parent, next) && Distinct(t)
    requires t.id in q && q[t.id] == p[t.id].(parent := other) && Agree(p, q, Ids(t) - {t.id as int})
    ensures Holds(q, t, other, next)
  {
    if t.Node? {
      forall i | 0 <= i < |t.kids|
        ensures Holds(q, t.kids[i], t.id, NextOf(t.kids, i, next))
      {
        HoldsFrame(p, q, t.kids[i], t.id, NextOf(t.kids, i, next));
      }
    }
  }

  // ------------------------------------------------ positions in pages

  /** The pages show subtree `t` at the end of path `c`. */
  predicate Shows(p: Pages, c: Path, t: Tree) {
    HoldsPath(p, c, t.id, FirstLeaf(t)) && Holds(p, t, ParentOf(c), NextAfter(c))
  }

  function Closed(c: Path, t: Tree): Tree
    requires c.In?
  {
    Node(c.id, c.keys, c.before + [t] + c.after)
  }

  lemma ClosedSlots(c: Path, t: Tree)
    requires c.In? && |c.keys| == |c.before| + 1 + |c.after|
    ensures Slots(c.keys, Closed(c, t).kids) == Around(c, t.id)
  {
  }

  /** Kid i of the closed level: its tree and its right neighbour. */
  lemma ClosedKid(p: Pages, c: Path, t: Tree, i: nat)
    requires c.In? && Shows(p, c, t) && i < |c.keys|
    ensures Holds(p, Closed(c, t).kids[i], c.id, NextOf(Closed(c, t).kids, i, NextAfter(c.up)))
  {
    hide Holds, FirstLeaf;
    var kids, b := Closed(c, t).kids, |c.before|;
    if i < b {
      assert kids[i] == c.before[i];
      assert kids[i + 1] == if i + 1 < b then c.before[i + 1] else t;
    } else if i > b {
      assert kids[i] == c.after[i - b - 1];
      assert i + 1 < |kids| ==> kids[i + 1] == c.after[i - b];
    } else {
      assert kids[i] == t;
      assert i + 1 < |kids| ==> kids[i + 1] == c.after[0];
    }
  }

  lemma ShowsLevel(p: Pages, c: Path, t: Tree)
    requires c.In? && Shows(p, c, t)
    ensures Shows(p, c.up, Closed(c, t))
  {
    var n := Closed(c, t);
    ClosedSlots(c, t);
    forall i | 0 <= i < |n.kids|
      ensures Holds(p, n.kids[i], n.id, NextOf(n.kids, i, NextAfter(c.up)))
    {
      ClosedKid(p, c, t, i);
    }
    assert n.kids[0] == if c.before == [] then t else c.before[0];
    assert FirstLeaf(n) == FirstWith(c.before, FirstLeaf(t));
  }

  lemma {:induction false} ShowsWhole(p: Pages, c: Path, t: Tree)
    requires Shows(p, c, t)
    ensures Shows(p, Top, Plug(c, t))
    decreases c
  {
    if c.In? {
      ShowsLevel(p, c, t);
      hide Shows;
      ShowsWhole(p, c.up, Closed(c, t));
    }
  }

  lemma DownShows(p: Pages, c: Path, t: Tree, i: nat)
    requires t.Node? && Shows(p, c, t) && i < |t.kids|
    ensures Shows(p, Down(c, t, i), t.kids[i])
  {
    var d, kid := Down(c, t, i), t.kids[i];
    KidsAround(t.kids, i);
    ClosedSlots(d, kid);
    hide Holds;
    NodeHolds(p, t, ParentOf(c), NextAfter(c));
    forall j | 0 <= j < |d.before|
      ensures Holds(p, d.before[j], d.id, NextOf(d.before, j, FirstLeaf(kid)))
    {
      assert t.kids[j] == d.before[j] && NextOf(t.kids, j, NextAfter(c)) == NextOf(d.before, j, FirstLeaf(kid));
    }
    forall j | 0 <= j < |d.after|
      ensures Holds(p, d.after[j], d.id, NextOf(d.after, j, NextAfter(c)))
    {
      assert t.kids[i + 1 + j] == d.after[j];
      assert NextOf(t.kids, i + 1 + j, NextAfter(c)) == NextOf(d.after, j, NextAfter(c));
    }
    assert FirstWith(d.before, FirstLeaf(kid)) == FirstLeaf(t);
    assert NextAfter(d) == NextOf(t.kids, i, NextAfter(c));
  }

  lemma NodeHolds(p: Pages, t: Tree, parent: int, next: int)
    requires t.Node? && Holds(p, t, parent, next)
    ensures |t.keys| == |t.kids| > 0 && t.id in p && p[t.id] == InnerPage(parent, Slots(t.keys, t.kids))
    ensures forall i :: 0 <= i < |t.kids| ==> Holds(p, t.kids[i], t.id, NextOf(t.kids, i, next))
  {
  }

  // --------------------------------------------------- each page once

  predicate Within(ids: set<int>, n: nat) {
    forall x :: x in ids ==> 0 <= x < n
  }

  /** Subtree `t` at path `c` uses each page once, all of them below `n`. */
  predicate Once(c: Path, t: Tree, n: nat) {
    Distinct(t) && PathApart(c, Ids(t)) && Within(Ids(t), n) && Within(PathIds(c), n)
  }

  lemma NodeIds(t: Tree)
    requires t.Node?
    ensures Ids(t) == {t.id as int} + ForestIds(t.kids)
  {
  }

  lemma ForestUnion(a: seq<Tree>, b: seq<Tree>)
    ensures ForestIds(a + b) == ForestIds(a) + ForestIds(b)
  {
    hide Ids;
    ForestHas(a, b);
    forall x | x in ForestIds(a + b)
      ensures x in ForestIds(a) + ForestIds(b)
    {
      var i :| 0 <= i < |a + b| && x in Ids((a + b)[i]);
      if i >= |a| {
        assert (a + b)[i] == b[i - |a|];
      }
    }
  }

  lemma ForestOne(t: Tree)
    ensures ForestIds([t]) == Ids(t)
  {
    hide Ids;
    var ts := [t];
    forall x | x in Ids(t)
      ensures x in ForestIds(ts)
    {
      assert x in Ids(ts[0]);
    }
  }

  lemma ForestAround(a: seq<Tree>, t: Tree, b: seq<Tree>)
    ensures ForestIds(a + [t] + b) == ForestIds(a + b) + Ids(t)
  {
    hide ForestIds, Ids;
    ForestUnion(a, b);
    ForestUnion(a + [t], b);
    ForestUnion(a, [t]);
    ForestOne(t);
  }

  lemma ApartInsert(a: seq<Tree>, t: Tree, b: seq<Tree>)
    requires Apart(a + b) && ForestIds(a + b) !! Ids(t)
    ensures Apart(a + [t] + b)
  {
    var ts := a + [t] + b;
    ForestHas(a, b);
    hide Ids, ForestIds;
    forall i, j | 0 <= i < j < |ts|
      ensures Ids(ts[i]) !! Ids(ts[j])
    {
      var n := |a|;
      assert i < n ==> ts[i] == (a + b)[i] == a[i];
      assert i > n ==> ts[i] == (a + b)[i - 1];
      assert j < n ==> ts[j] == (a + b)[j];
      assert j > n ==> ts[j] == (a + b)[j - 1] == b[j - 1 - n];
    }
  }

  lemma ApartRemove(a: seq<Tree>, t: Tree, b: seq<Tree>)
    requires Apart(a + [t] + b)
    ensures Apart(a + b) && ForestIds(a + b) !! Ids(t)
  {
    var ts := a + [t] + b;
    hide Ids;
    assert ts[|a|] == t;
    forall i | 0 <= i < |a + b|
      ensures (a + b)[i] == ts[if i < |a| then i else i + 1] && Ids((a + b)[i]) !! Ids(t)
    {
      assert (a + b)[i] == ts[if i < |a| then i else i + 1];
    }
  }

  predicate AllDistinct(ts: seq<Tree>) {
    forall i :: 0 <= i < |ts| ==> Distinct(ts[i])
  }

  lemma DistinctAround(a: seq<Tree>, t: Tree, b: seq<Tree>)
    ensures AllDistinct(a + [t] + b) <==> AllDistinct(a + b) && Distinct(t)
  {
    var ts := a + [t] + b;
    hide Distinct;
    assert ts[|a|] == t;
    assert forall i :: 0 <= i < |a + b| ==> (a + b)[i] == ts[if i < |a| then i else i + 1];
    if AllDistinct(a + b) && Distinct(t) {
      forall i | 0 <= i < |ts|
        ensures Distinct(ts[i])
      {
        assert i < |a| ==> ts[i] == (a + b)[i];
        assert i > |a| ==> ts[i] == (a + b)[i - 1];
      }
    }
  }

  lemma NodeDistinct(t: Tree)
    requires t.Node?
    ensures Distinct(t) <==> AllDistinct(t.kids) && t.id !in ForestIds(t.kids) && Apart(t.kids)
  {
    hide Ids, Apart;
  }

  lemma OnceLevel(c: Path, t: Tree, n: nat)
    requires c.In? && Once(c, t, n)
    ensures Once(c.up, Closed(c, t), n)
  {
    var m := Closed(c, t);
    ForestAround(c.before, t, c.after);
    ApartInsert(c.before, t, c.after);
    DistinctAround(c.before, t, c.after);
    NodeDistinct(m);
    NodeIds(m);
    hide Ids, ForestIds, Distinct, Apart;
    assert Ids(m) == Ids(t) + {c.id as int} + ForestIds(c.before + c.after);
  }

  lemma {:induction false} OnceWhole(c: Path, t: Tree, n: nat)
    requires Once(c, t, n)
    ensures Once(Top, Plug(c, t), n)
    decreases c
  {
    if c.In? {
      OnceLevel(c, t, n);
      hide Once;
      OnceWhole(c.up, Closed(c, t), n);
    }
  }

  lemma OnceDown(c: Path, t: Tree, i: nat, n: nat)
    requires t.Node? && i < |t.kids| && Once(c, t, n)
    ensures Once(Down(c, t, i), t.kids[i], n)
  {
    var a, kid, b := t.kids[..i], t.kids[i], t.kids[i + 1..];
    KidsAround(t.kids, i);
    ForestAround(a, kid, b);
    ApartRemove(a, kid, b);
    DistinctAround(a, kid, b);
    NodeDistinct(t);
    NodeIds(t);
    hide Ids, ForestIds, Distinct, Apart;
    assert Ids(t) == Ids(kid) + {t.id as int} + ForestIds(a + b);
  }

  /** A split child on its way up uses each page once. */
  predicate OncePair(c: Path, left: Tree, right: Tree, n: nat) {
    && Distinct(left) && Distinct(right) && Ids(left) !! Ids(right) && PathApart(c, Ids(left) + Ids(right))
    && Within(Ids(left), n) && Within(Ids(right), n) && Within(PathIds(c), n)
  }

  lemma WidenOnce(c: Path, left: Tree, key: Key, right: Tree, n: nat)
    requires c.In? && |c.keys| == |c.before| + 1 + |c.after| && OncePair(c, left, right, n)
    ensures Once(c.up, Widen(c, left, key, right), n)
  {
    var m := Widen(c, left, key, right);
    var after := [right] + c.after;
    assert c.before + [right] + c.after == c.before + after;
    assert m.kids == c.before + [left] + after;
    ForestAround(c.before, right, c.after);
    ApartInsert(c.before, right, c.after);
    DistinctAround(c.before, right, c.after);
    ForestAround(c.before, left, after);
    ApartInsert(c.before, left, after);
    DistinctAround(c.before, left, after);
    NodeDistinct(m);
    NodeIds(m);
    hide Ids, ForestIds, Distinct, Apart;
    assert Ids(m) == Ids(left) + Ids(right) + {c.id as int} + ForestIds(c.before + c.after);
  }

  lemma HalfForests(ts: seq<Tree>, m: nat)
    requires m <= |ts|
    ensures ForestIds(ts[..m]) + ForestIds(ts[m..]) == ForestIds(ts)
    ensures Apart(ts) ==> Apart(ts[..m]) && Apart(ts[m..]) && ForestIds(ts[..m]) !! ForestIds(ts[m..])
    ensures AllDistinct(ts) ==> AllDistinct(ts[..m]) && AllDistinct(ts[m..])
  {
    hide Ids, Distinct;
    assert forall i :: 0 <= i < |ts| - m ==> ts[m..][i] == ts[m + i];
    forall x | x in ForestIds(ts)
      ensures x in ForestIds(ts[..m]) + ForestIds(ts[m..])
    {
      var i :| 0 <= i < |ts| && x in Ids(ts[i]);
      assert i < m ==> ts[..m][i] == ts[i];
      assert i >= m ==> ts[m..][i - m] == ts[i];
    }
  }

  lemma SplitOnce(c: Path, t: Tree, m: nat, newId: nat)
    requires m <= Size(t) && (t.Node? ==> |t.keys| == |t.kids|) && Once(c, t, newId)
    ensures OncePair(c, LowHalf(t, m), HighHalf(t, m, newId), newId + 1)
  {
    var low, high := LowHalf(t, m), HighHalf(t, m, newId);
    if t.Node? {
      HalfForests(t.kids, m);
      NodeDistinct(t);
      NodeDistinct(low);
      NodeDistinct(high);
      NodeIds(t);
      NodeIds(low);
      NodeIds(high);
    }
    assert newId !in Ids(t);
    PathApartGrows(c, Ids(t), newId);
    hide Ids, ForestIds, Distinct, Apart, PathApart;
    assert Ids(low) + Ids(high) == Ids(t) + {newId};
  }
}
