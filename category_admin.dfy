/**
  The admin categories page (categories.js): `buildCategoryHierarchy`, which
  files the listed categories into a tree exactly as `buildCategoryTree` does
  and then flattens the tree with `flattenTree` into a pre-order list of
  entries, each with its depth; and `getParentCategoryName`.

  The depth of a category is told by its parent chain: the category, its
  parent, its grandparent and so on up to a category with no parent.
*/
module CategoryAdmin {
  import opened Wrappers
  import opened CategoryService

  /** `{ category, level }`, one line of the admin table. */
  datatype Entry = Entry(category: CategoryView, level: nat)

  // ----- parent chains -----

  /** Indices that are pairwise different. */
  predicate Distinct(s: seq<nat>) {
    forall i, j :: 0 <= i < j < |s| ==> s[i] != s[j]
  }

  /**
    idx names a category cats[idx[0]], then its parent, its grandparent and so
    on: each next category's id is the previous one's parent id, the last one
    has no parent, and no category is named twice.
  */
  ghost predicate Chain(cats: seq<CategoryView>, idx: seq<nat>) {
    && |idx| > 0
    && (forall i :: 0 <= i < |idx| ==> idx[i] < |cats|)
    && (forall i :: 0 <= i < |idx| - 1 ==> LinkedAt(cats, idx, i))
    && cats[idx[|idx| - 1]].parentId.None?
    && Distinct(idx)
  }

  /** The (i+1)-th category named by idx is the parent of the i-th. */
  ghost predicate LinkedAt(cats: seq<CategoryView>, idx: seq<nat>, i: nat) {
    i + 1 < |idx| && idx[i] < |cats| && idx[i + 1] < |cats| && cats[idx[i]].parentId == Some(cats[idx[i + 1]].id)
  }

  /** The category with id x sits `level` parent links below a root. */
  ghost predicate HasChain(cats: seq<CategoryView>, x: string, level: nat) {
    exists idx :: Chain(cats, idx) && |idx| == level + 1 && cats[idx[0]].id == x
  }

  /** Every id of the list is chained at depth `level`. */
  ghost predicate AllChained(cats: seq<CategoryView>, ids: seq<string>, level: nat) {
    forall i :: 0 <= i < |ids| ==> HasChain(cats, ids[i], level)
  }

  /** With unique ids, the id tells the position. */
  lemma SameIdSameIndex(cats: seq<CategoryView>, a: nat, b: nat)
    requires UniqueIds(cats) && a < |cats| && b < |cats| && cats[a].id == cats[b].id
    ensures a == b
  {
  }

  /** Pigeonhole: pairwise different indices below n are at most n. */
  lemma {:induction false} DistinctBelow(s: seq<nat>, n: nat)
    requires Distinct(s)
    requires forall i :: 0 <= i < |s| ==> s[i] < n
    ensures |s| <= n
    decreases n
  {
    if s != [] {
      assert s[0] < n;
      var e := s[|s| - 1];
      var s0 := s[..|s| - 1];
      var s1 := seq(|s0|, i requires 0 <= i < |s0| => if s0[i] == n - 1 then e else s0[i]);
      forall i | 0 <= i < |s1| ensures s1[i] < n - 1 {
        assert s0[i] == s[i] && s[i] != e;
      }
      forall i, j | 0 <= i < j < |s1| ensures s1[i] != s1[j] {
        assert s0[i] == s[i] && s0[j] == s[j];
        assert s[i] != e && s[j] != e;
      }
      DistinctBelow(s1, n - 1);
    }
  }

  /** A chained category is in the list, and its depth is less than the number of categories. */
  lemma Chained(cats: seq<CategoryView>, x: string, level: nat)
    requires HasChain(cats, x, level)
    ensures Known(cats, x)
    ensures level < |cats|
  {
    var idx :| Chain(cats, idx) && |idx| == level + 1 && cats[idx[0]].id == x;
    DistinctBelow(idx, |cats|);
  }

  /** Adding a child in front of its parent's chain gives the child's chain. */
  lemma ChainExtends(cats: seq<CategoryView>, idx: seq<nat>, j: nat)
    requires UniqueIds(cats) && Chain(cats, idx)
    requires j < |cats| && cats[j].parentId == Some(cats[idx[0]].id)
    ensures Chain(cats, [j] + idx)
  {
    var ext := [j] + idx;
    forall k | 0 <= k < |idx| ensures idx[k] != j {
      if k < |idx| - 1 {
        assert LinkedAt(cats, idx, k);
      }
    }
    forall a, b | 0 <= a < b < |ext| ensures ext[a] != ext[b] {
      if a > 0 {
        assert ext[a] == idx[a - 1] && ext[b] == idx[b - 1];
      } else {
        assert ext[b] == idx[b - 1];
      }
    }
    forall i | 0 <= i < |ext| - 1 ensures LinkedAt(cats, ext, i) {
      if i > 0 {
        assert LinkedAt(cats, idx, i - 1);
        assert ext[i] == idx[i - 1] && ext[i + 1] == idx[i];
      }
    }
  }

  /** The children of a category at depth `level` are at depth `level + 1`. */
  lemma ChildrenHaveChains(cats: seq<CategoryView>, x: string, level: nat)
    requires UniqueIds(cats) && HasChain(cats, x, level)
    ensures AllChained(cats, ChildIds(cats, x), level + 1)
  {
    var idx :| Chain(cats, idx) && |idx| == level + 1 && cats[idx[0]].id == x;
    forall i | 0 <= i < |ChildIds(cats, x)| ensures HasChain(cats, ChildIds(cats, x)[i], level + 1) {
      var c := ChildIds(cats, x)[i];
      assert c in ChildIds(cats, x);
      var j :| 0 <= j < |cats| && cats[j].id == c && cats[j].parentId == Some(x);
      ChainExtends(cats, idx, j);
      assert ([j] + idx)[0] == j;
    }
  }

  /** The roots are at depth 0. */
  lemma RootsHaveChains(cats: seq<CategoryView>)
    ensures AllChained(cats, RootIds(cats), 0)
  {
    forall k | 0 <= k < |RootIds(cats)| ensures HasChain(cats, RootIds(cats)[k], 0) {
      var x := RootIds(cats)[k];
      assert x in RootIds(cats);
      var i :| 0 <= i < |cats| && cats[i].id == x && cats[i].parentId.None?;
      assert Chain(cats, [i]);
    }
  }

  /** The dropped first category of a chain leaves the parent's chain. */
  lemma ChainTail(cats: seq<CategoryView>, idx: seq<nat>)
    requires Chain(cats, idx) && |idx| > 1
    ensures Chain(cats, idx[1..])
  {
    var t := idx[1..];
    forall i | 0 <= i < |t| - 1 ensures LinkedAt(cats, t, i) {
      assert LinkedAt(cats, idx, i + 1);
      assert t[i] == idx[i + 1] && t[i + 1] == idx[i + 2];
    }
    forall a, b | 0 <= a < b < |t| ensures t[a] != t[b] {
      assert t[a] == idx[a + 1] && t[b] == idx[b + 1];
    }
  }

  /** With unique ids a category has one chain only, so its depth is determined. */
  lemma {:induction false} ChainsAgree(cats: seq<CategoryView>, a: seq<nat>, b: seq<nat>)
    requires UniqueIds(cats) && Chain(cats, a) && Chain(cats, b)
    requires cats[a[0]].id == cats[b[0]].id
    ensures |a| == |b|
    ensures a == b
    decreases |a|
  {
    SameIdSameIndex(cats, a[0], b[0]);
    assert |a| > 1 ==> LinkedAt(cats, a, 0);
    assert |b| > 1 ==> LinkedAt(cats, b, 0);
    if |a| == 1 || |b| == 1 {
      assert a == [a[0]] && b == [b[0]];
    } else {
      ChainTail(cats, a);
      ChainTail(cats, b);
      assert LinkedAt(cats, a, 0) && LinkedAt(cats, b, 0);
      ChainsAgree(cats, a[1..], b[1..]);
      assert a == [a[0]] + a[1..] && b == [b[0]] + b[1..];
    }
  }

  /** The level of a category is its depth: no category sits at two depths. */
  lemma DepthUnique(cats: seq<CategoryView>, x: string, l1: nat, l2: nat)
    requires UniqueIds(cats) && HasChain(cats, x, l1) && HasChain(cats, x, l2)
    ensures l1 == l2
  {
    var a :| Chain(cats, a) && |a| == l1 + 1 && cats[a[0]].id == x;
    var b :| Chain(cats, b) && |b| == l2 + 1 && cats[b[0]].id == x;
    ChainsAgree(cats, a, b);
  }

  // ----- the flattened list -----

  /** The category the map holds for a listed id: the one with that id. */
  function CatOf(cats: seq<CategoryView>, x: string): (c: CategoryView)
    requires Known(cats, x)
    ensures c.id == x && c in cats
  {
    LastWithId(cats, x).value
  }

  /**
    `flattenTree(ids, level)`: for each id in order, its entry and then its
    subtree one level deeper.
  */
  function Walk(cats: seq<CategoryView>, ids: seq<string>, level: nat): seq<Entry>
    decreases |cats| - level, |ids|
  {
    if ids == [] then [] else Visit(cats, ids[0], level) + Walk(cats, ids[1..], level)
  }

  /**
    The entry of one category followed by its subtree. A listed category is
    known and sits at a depth below the number of categories (lemma Chained),
    so the two empty cases are never reached from the roots; they only bound
    the recursion.
  */
  function Visit(cats: seq<CategoryView>, x: string, level: nat): seq<Entry>
    decreases |cats| - level, 0
  {
    if level >= |cats| then []
    else
      match LastWithId(cats, x)
      case None => []
      case Some(c) => [Entry(c, level)] + Walk(cats, ChildIds(cats, x), level + 1)
  }

  /**
    What `buildCategoryHierarchy` returns: the walk from the roots at level
    0; every entry is one of the categories, at a level below their number.
  */
  function Hierarchy(cats: seq<CategoryView>): (r: seq<Entry>)
    ensures forall i :: 0 <= i < |r| ==> r[i].category in cats && r[i].level < |cats|
  {
    WalkBounded(cats, RootIds(cats), 0);
    Walk(cats, RootIds(cats), 0)
  }

  /** The entries of a walk are categories of the list, at its level or deeper, below the number of categories. */
  lemma {:induction false} WalkBounded(cats: seq<CategoryView>, ids: seq<string>, level: nat)
    ensures forall e :: e in Walk(cats, ids, level) ==> e.category in cats && level <= e.level < |cats|
    decreases |cats| - level, |ids|
  {
    if ids != [] {
      VisitBounded(cats, ids[0], level);
      WalkBounded(cats, ids[1..], level);
    }
  }

  lemma {:induction false} VisitBounded(cats: seq<CategoryView>, x: string, level: nat)
    ensures forall e :: e in Visit(cats, x, level) ==> e.category in cats && level <= e.level < |cats|
    decreases |cats| - level, 0
  {
    if level < |cats| && LastWithId(cats, x).Some? {
      WalkBounded(cats, ChildIds(cats, x), level + 1);
    }
  }

  /** Walking one more sibling appends its subtree. */
  lemma {:induction false} WalkSnoc(cats: seq<CategoryView>, ids: seq<string>, x: string, level: nat)
    ensures Walk(cats, ids + [x], level) == Walk(cats, ids, level) + Visit(cats, x, level)
    decreases |ids|
  {
    if ids == [] {
      assert [x][1..] == [];
    } else {
      var t := ids[1..];
      var ext := ids + [x];
      assert ext[1..] == t + [x];
      assert ext[0] == ids[0];
      WalkSnoc(cats, t, x, level);
      var v, w, u := Visit(cats, ids[0], level), Walk(cats, t, level), Visit(cats, x, level);
      assert Walk(cats, ext, level) == v + Walk(cats, t + [x], level);
      assert Walk(cats, ids, level) == v + w;
      Regrouped(v, w, u);
    }
  }

  /** A listed category at a depth below the number of categories: its entry, then its children one level deeper. */
  lemma VisitOf(cats: seq<CategoryView>, x: string, level: nat)
    requires level < |cats| && Known(cats, x)
    ensures Visit(cats, x, level) == [Entry(CatOf(cats, x), level)] + Walk(cats, ChildIds(cats, x), level + 1)
  {
  }

  lemma TailChained(cats: seq<CategoryView>, ids: seq<string>, level: nat)
    requires AllChained(cats, ids, level) && ids != []
    ensures AllChained(cats, ids[1..], level) && HasChain(cats, ids[0], level)
  {
    forall i | 0 <= i < |ids[1..]| ensures HasChain(cats, ids[1..][i], level) {
      assert ids[1..][i] == ids[i + 1];
    }
  }

  /** The map of nodes `buildCategoryTree` leaves behind. */
  ghost predicate NodesOf(cats: seq<CategoryView>, categoryMap: map<string, TreeNode>) {
    forall x :: (x in categoryMap <==> Known(cats, x))
      && (Known(cats, x) ==> Some(categoryMap[x].cat) == LastWithId(cats, x) && categoryMap[x].children == ChildIds(cats, x))
  }

  /** `flattenTree(categories, level)`: appends the walk over the given nodes to `result`. */
  method FlattenTree(ghost cats: seq<CategoryView>, categoryMap: map<string, TreeNode>, ids: seq<string>, level: nat, result: seq<Entry>)
    returns (r: seq<Entry>)
    requires UniqueIds(cats) && NodesOf(cats, categoryMap)
    requires AllChained(cats, ids, level)
    ensures r == result + Walk(cats, ids, level)
    decreases |cats| - level, 1
  {
    r := result;
    var k := 0;
    assert ids[..0] == [] && result + [] == result;
    while k < |ids|
      invariant 0 <= k <= |ids|
      invariant r == result + Walk(cats, ids[..k], level)
    {
      SiblingAppended(cats, ids, k, level);
      r := FlattenOne(cats, categoryMap, ids[k], level, r);
      Regrouped(result, Walk(cats, ids[..k], level), Visit(cats, ids[k], level));
      k := k + 1;
    }
    assert ids[..k] == ids;
  }

  /** The callback of `forEach` in `flattenTree`: push the entry, then flatten the children one level deeper. */
  method FlattenOne(ghost cats: seq<CategoryView>, categoryMap: map<string, TreeNode>, x: string, level: nat, result: seq<Entry>)
    returns (r: seq<Entry>)
    requires UniqueIds(cats) && NodesOf(cats, categoryMap) && HasChain(cats, x, level)
    ensures r == result + Visit(cats, x, level)
    decreases |cats| - level, 0
  {
    NodeOf(cats, categoryMap, x, level);
    var node := categoryMap[x];
    r := result + [Entry(node.cat, level)];
    if |node.children| > 0 {
      r := FlattenTree(cats, categoryMap, node.children, level + 1, r);
    } else {
      assert Walk(cats, node.children, level + 1) == [];
    }
    Regrouped(result, [Entry(node.cat, level)], Walk(cats, node.children, level + 1));
  }

  /** The node the map holds for a chained id: its category, its children, and the children chained one level deeper. */
  lemma NodeOf(cats: seq<CategoryView>, categoryMap: map<string, TreeNode>, x: string, level: nat)
    requires UniqueIds(cats) && NodesOf(cats, categoryMap) && HasChain(cats, x, level)
    ensures level < |cats| && x in categoryMap
    ensures AllChained(cats, categoryMap[x].children, level + 1)
    ensures Visit(cats, x, level) == [Entry(categoryMap[x].cat, level)] + Walk(cats, categoryMap[x].children, level + 1)
  {
    Chained(cats, x, level);
    ChildrenHaveChains(cats, x, level);
  }

  lemma Regrouped(a: seq<Entry>, b: seq<Entry>, c: seq<Entry>)
    ensures a + b + c == a + (b + c)
  {
  }

  /** The loop's step over the k-th sibling. */
  lemma SiblingAppended(cats: seq<CategoryView>, ids: seq<string>, k: nat, level: nat)
    requires k < |ids|
    ensures Walk(cats, ids[..k + 1], level) == Walk(cats, ids[..k], level) + Visit(cats, ids[k], level)
  {
    assert ids[..k + 1] == ids[..k] + [ids[k]];
    WalkSnoc(cats, ids[..k], ids[k], level);
  }

  /** `buildCategoryHierarchy(categories)` for a list with pairwise different ids, as the server sends it. */
  method BuildCategoryHierarchy(cats: seq<CategoryView>) returns (result: seq<Entry>)
    requires UniqueIds(cats)
    ensures result == Hierarchy(cats)
  {
    var rootCategories, categoryMap := BuildCategoryTree(cats);
    RootsHaveChains(cats);
    result := FlattenTree(cats, categoryMap, rootCategories, 0, []);
    assert [] + Walk(cats, rootCategories, 0) == Walk(cats, rootCategories, 0);
  }

  // ----- what the flattened list holds -----

  /** An entry of the walk from ids at `level` is in the subtree of one of them. */
  lemma {:induction false} WalkMember(cats: seq<CategoryView>, ids: seq<string>, level: nat, e: Entry)
    requires e in Walk(cats, ids, level)
    ensures exists i :: 0 <= i < |ids| && e in Visit(cats, ids[i], level)
    decreases |ids|
  {
    if e !in Visit(cats, ids[0], level) {
      WalkMember(cats, ids[1..], level, e);
      var i :| 0 <= i < |ids[1..]| && e in Visit(cats, ids[1..][i], level);
      assert ids[1..][i] == ids[i + 1];
    }
  }

  /**
    e has a chain as long as its level, and x is on that chain at depth
    `level`: e is x or below x.
  */
  ghost predicate Descends(cats: seq<CategoryView>, e: Entry, x: string, level: nat) {
    e.level >= level
    && exists ch :: Chain(cats, ch) && |ch| == e.level + 1 && cats[ch[0]].id == e.category.id && cats[ch[e.level - level]].id == x
  }

  /** An entry of the subtree of x, for x at depth `level`, descends from x. */
  lemma {:induction false} VisitDescends(cats: seq<CategoryView>, x: string, level: nat, e: Entry)
    requires UniqueIds(cats) && HasChain(cats, x, level)
    requires e in Visit(cats, x, level)
    ensures Descends(cats, e, x, level)
    decreases |cats| - level
  {
    if e == Entry(CatOf(cats, x), level) {
      SelfDescends(cats, x, level);
    } else {
      var c, j := KidWith(cats, x, level, e);
      VisitDescends(cats, c, level + 1, e);
      ChildDescends(cats, e, x, j, level);
    }
  }

  /** An entry below the head of x's subtree is in the subtree of a child c of x, the category at j. */
  lemma KidWith(cats: seq<CategoryView>, x: string, level: nat, e: Entry) returns (c: string, j: nat)
    requires UniqueIds(cats) && HasChain(cats, x, level)
    requires e in Visit(cats, x, level) && e != Entry(CatOf(cats, x), level)
    ensures e in Visit(cats, c, level + 1) && HasChain(cats, c, level + 1)
    ensures j < |cats| && cats[j].id == c && cats[j].parentId == Some(x)
  {
    var kids := ChildIds(cats, x);
    BelowHead(cats, x, level, e);
    WalkMember(cats, kids, level + 1, e);
    var i :| 0 <= i < |kids| && e in Visit(cats, kids[i], level + 1);
    c := kids[i];
    ChildHasChain(cats, x, level, i);
    j := ChildIndex(cats, x, i);
  }

  /** Past its head, the subtree of x is the walk over x's children. */
  lemma BelowHead(cats: seq<CategoryView>, x: string, level: nat, e: Entry)
    requires HasChain(cats, x, level)
    requires e in Visit(cats, x, level) && e != Entry(CatOf(cats, x), level)
    ensures e in Walk(cats, ChildIds(cats, x), level + 1)
  {
    Chained(cats, x, level);
  }

  lemma ChildHasChain(cats: seq<CategoryView>, x: string, level: nat, i: nat)
    requires UniqueIds(cats) && HasChain(cats, x, level) && i < |ChildIds(cats, x)|
    ensures HasChain(cats, ChildIds(cats, x)[i], level + 1)
  {
    ChildrenHaveChains(cats, x, level);
  }

  /** A category descends from itself. */
  lemma SelfDescends(cats: seq<CategoryView>, x: string, level: nat)
    requires HasChain(cats, x, level)
    ensures Known(cats, x) && Descends(cats, Entry(CatOf(cats, x), level), x, level)
  {
    Chained(cats, x, level);
    var ch :| Chain(cats, ch) && |ch| == level + 1 && cats[ch[0]].id == x;
    assert cats[ch[0]].id == CatOf(cats, x).id;
  }

  /** Where the i-th child of p sits in the input. */
  lemma ChildIndex(cats: seq<CategoryView>, p: string, i: nat) returns (j: nat)
    requires i < |ChildIds(cats, p)|
    ensures j < |cats| && cats[j].id == ChildIds(cats, p)[i] && cats[j].parentId == Some(p)
  {
    assert ChildIds(cats, p)[i] in ChildIds(cats, p);
    j :| 0 <= j < |cats| && cats[j].id == ChildIds(cats, p)[i] && cats[j].parentId == Some(p);
  }

  /** Below a child of x is below x. */
  lemma ChildDescends(cats: seq<CategoryView>, e: Entry, x: string, j: nat, level: nat)
    requires UniqueIds(cats) && j < |cats| && cats[j].parentId == Some(x)
    requires Descends(cats, e, cats[j].id, level + 1)
    ensures Descends(cats, e, x, level)
  {
    var c := cats[j].id;
    var ch :| Chain(cats, ch) && |ch| == e.level + 1 && cats[ch[0]].id == e.category.id && cats[ch[e.level - level - 1]].id == c;
    var d := e.level - level - 1;
    assert LinkedAt(cats, ch, d);
    SameIdSameIndex(cats, ch[d], j);
    assert cats[ch[e.level - level]].id == x;
  }

  /** Every entry of the list is a category of the input, at a level equal to its depth. */
  lemma HierarchyLevelsAreDepths(cats: seq<CategoryView>)
    requires UniqueIds(cats)
    ensures forall e :: e in Hierarchy(cats) ==> e.category in cats && HasChain(cats, e.category.id, e.level)
  {
    RootsHaveChains(cats);
    forall e | e in Hierarchy(cats) ensures e.category in cats && HasChain(cats, e.category.id, e.level) {
      WalkMember(cats, RootIds(cats), 0, e);
      var i :| 0 <= i < |RootIds(cats)| && e in Visit(cats, RootIds(cats)[i], 0);
      VisitDescends(cats, RootIds(cats)[i], 0, e);
      var ch :| Chain(cats, ch) && |ch| == e.level + 1 && cats[ch[0]].id == e.category.id && cats[ch[e.level]].id == RootIds(cats)[i];
      CategoryListed(cats, RootIds(cats)[i], 0, e);
    }
  }

  /** The entries of a subtree carry categories of the input. */
  lemma {:induction false} CategoryListed(cats: seq<CategoryView>, x: string, level: nat, e: Entry)
    requires e in Visit(cats, x, level)
    ensures e.category in cats
    decreases |cats| - level
  {
    assert level < |cats| && Known(cats, x);
    VisitOf(cats, x, level);
    var kids := ChildIds(cats, x);
    if e != Entry(CatOf(cats, x), level) {
      assert e in Walk(cats, kids, level + 1);
      WalkMember(cats, kids, level + 1, e);
      var i :| 0 <= i < |kids| && e in Visit(cats, kids[i], level + 1);
      CategoryListed(cats, kids[i], level + 1, e);
    }
  }

  /** Every entry of a is an entry of b. */
  predicate Within(a: seq<Entry>, b: seq<Entry>) {
    forall e :: e in a ==> e in b
  }

  lemma WithinLeft(a: seq<Entry>, b: seq<Entry>)
    ensures Within(a, a + b)
  {
  }

  lemma WithinRight(a: seq<Entry>, b: seq<Entry>)
    ensures Within(b, a + b)
  {
  }

  lemma WithinTrans(a: seq<Entry>, b: seq<Entry>, c: seq<Entry>)
    requires Within(a, b) && Within(b, c)
    ensures Within(a, c)
  {
  }

  /** A subtree is contained in the walk over a list of siblings that includes its root. */
  lemma {:induction false} VisitInWalk(cats: seq<CategoryView>, ids: seq<string>, level: nat, k: nat)
    requires k < |ids|
    ensures Within(Visit(cats, ids[k], level), Walk(cats, ids, level))
    decreases k
  {
    var v, w := Visit(cats, ids[0], level), Walk(cats, ids[1..], level);
    assert Walk(cats, ids, level) == v + w;
    if k == 0 {
      WithinLeft(v, w);
    } else {
      var t := ids[1..];
      VisitInWalk(cats, t, level, k - 1);
      assert t[k - 1] == ids[k];
      WithinRight(v, w);
      WithinTrans(Visit(cats, t[k - 1], level), w, v + w);
    }
  }

  /** Where a child of p sits among p's children. */
  lemma ChildPosition(cats: seq<CategoryView>, p: string, j: nat) returns (k: nat)
    requires j < |cats| && cats[j].parentId == Some(p)
    ensures k < |ChildIds(cats, p)| && ChildIds(cats, p)[k] == cats[j].id
  {
    assert cats[j].id in ChildIds(cats, p);
    k :| 0 <= k < |ChildIds(cats, p)| && ChildIds(cats, p)[k] == cats[j].id;
  }

  /** Where a root sits among the roots. */
  lemma RootPosition(cats: seq<CategoryView>, i: nat) returns (k: nat)
    requires i < |cats| && cats[i].parentId.None?
    ensures k < |RootIds(cats)| && RootIds(cats)[k] == cats[i].id
  {
    assert cats[i].id in RootIds(cats);
    k :| 0 <= k < |RootIds(cats)| && RootIds(cats)[k] == cats[i].id;
  }

  /** The category x sits at depth `level` and its whole subtree is in the list. */
  ghost predicate SubtreeIn(cats: seq<CategoryView>, x: string, level: nat) {
    HasChain(cats, x, level) && Within(Visit(cats, x, level), Hierarchy(cats))
  }

  /** The subtree of a root is in the list. */
  lemma RootListed(cats: seq<CategoryView>, i: nat)
    requires UniqueIds(cats) && i < |cats| && cats[i].parentId.None?
    requires HasChain(cats, cats[i].id, 0)
    ensures SubtreeIn(cats, cats[i].id, 0)
  {
    RootsHaveChains(cats);
    var k := RootPosition(cats, i);
    VisitInWalk(cats, RootIds(cats), 0, k);
  }

  /** The subtree of a child is in the list when the subtree of its parent is. */
  lemma KidListed(cats: seq<CategoryView>, j: nat, p: string, level: nat)
    requires UniqueIds(cats) && SubtreeIn(cats, p, level)
    requires j < |cats| && cats[j].parentId == Some(p) && HasChain(cats, cats[j].id, level + 1)
    ensures SubtreeIn(cats, cats[j].id, level + 1)
  {
    Chained(cats, p, level);
    ChildrenHaveChains(cats, p, level);
    var kids := ChildIds(cats, p);
    var k := ChildPosition(cats, p, j);
    VisitInWalk(cats, kids, level + 1, k);
    var head := [Entry(CatOf(cats, p), level)];
    var w := Walk(cats, kids, level + 1);
    assert Visit(cats, p, level) == head + w;
    WithinRight(head, w);
    WithinTrans(Visit(cats, cats[j].id, level + 1), w, Visit(cats, p, level));
    WithinTrans(Visit(cats, cats[j].id, level + 1), Visit(cats, p, level), Hierarchy(cats));
  }

  /** The whole subtree of a category with a chain is in the list. */
  lemma {:induction false} SubtreeListed(cats: seq<CategoryView>, ch: seq<nat>)
    requires UniqueIds(cats) && Chain(cats, ch)
    ensures SubtreeIn(cats, cats[ch[0]].id, |ch| - 1)
    decreases |ch|
  {
    var level := |ch| - 1;
    assert HasChain(cats, cats[ch[0]].id, level);
    if |ch| == 1 {
      RootListed(cats, ch[0]);
    } else {
      var up := ParentChain(cats, ch);
      SubtreeListed(cats, up);
      KidListed(cats, ch[0], cats[up[0]].id, level - 1);
    }
  }

  /** Dropping the first link of a chain of two or more gives the chain of the parent. */
  lemma ParentChain(cats: seq<CategoryView>, ch: seq<nat>) returns (up: seq<nat>)
    requires UniqueIds(cats) && Chain(cats, ch) && |ch| >= 2
    ensures up == ch[1..] && Chain(cats, up) && |up| == |ch| - 1
    ensures cats[ch[0]].parentId == Some(cats[up[0]].id)
    ensures HasChain(cats, cats[ch[0]].id, |ch| - 1)
  {
    ChainTail(cats, ch);
    up := ch[1..];
    assert up[0] == ch[1];
    assert LinkedAt(cats, ch, 0);
  }

  /** Every category with a chain, that is every category whose parents lead up to a root, is listed at its depth. */
  lemma HierarchyComplete(cats: seq<CategoryView>, x: string, level: nat)
    requires UniqueIds(cats) && HasChain(cats, x, level)
    ensures Known(cats, x) && Entry(CatOf(cats, x), level) in Hierarchy(cats)
  {
    var ch :| Chain(cats, ch) && |ch| == level + 1 && cats[ch[0]].id == x;
    SubtreeListed(cats, ch);
    Chained(cats, x, level);
    ChildrenHaveChains(cats, x, level);
    assert Entry(CatOf(cats, x), level) in Visit(cats, x, level);
  }

  /** The parent of a chained category is in the list. */
  lemma ChainedParentKnown(cats: seq<CategoryView>, i: nat, level: nat)
    requires UniqueIds(cats) && i < |cats| && cats[i].parentId.Some?
    requires HasChain(cats, cats[i].id, level)
    ensures Known(cats, cats[i].parentId.value)
  {
    var ch :| Chain(cats, ch) && |ch| == level + 1 && cats[ch[0]].id == cats[i].id;
    SameIdSameIndex(cats, ch[0], i);
    assert |ch| > 1;
    assert LinkedAt(cats, ch, 0);
  }

  /** A category whose parent id names no category is not listed, and neither is anything below it. */
  lemma UnknownParentOmitted(cats: seq<CategoryView>, i: nat)
    requires UniqueIds(cats) && i < |cats|
    requires cats[i].parentId.Some? && !Known(cats, cats[i].parentId.value)
    ensures forall level: nat :: !HasChain(cats, cats[i].id, level)
    ensures forall e :: e in Hierarchy(cats) ==> e.category.id != cats[i].id
  {
    forall level: nat ensures !HasChain(cats, cats[i].id, level) {
      if HasChain(cats, cats[i].id, level) {
        ChainedParentKnown(cats, i, level);
      }
    }
    HierarchyLevelsAreDepths(cats);
  }

  // ----- parent cycles -----

  /**
    cyc names categories each of which has the next as its parent, the last
    one having the first as its parent.
  */
  ghost predicate Cycle(cats: seq<CategoryView>, cyc: seq<nat>) {
    && |cyc| > 0
    && (forall i :: 0 <= i < |cyc| ==> cyc[i] < |cats|)
    && (forall i :: 0 <= i < |cyc| - 1 ==> LinkedAt(cats, cyc, i))
    && cats[cyc[|cyc| - 1]].parentId == Some(cats[cyc[0]].id)
  }

  /** Following parent links from a category on a cycle stays on the cycle. */
  lemma {:induction false} OnCycle(cats: seq<CategoryView>, cyc: seq<nat>, ch: seq<nat>, k0: nat, n: nat) returns (k: nat)
    requires UniqueIds(cats) && Cycle(cats, cyc) && Chain(cats, ch)
    requires k0 < |cyc| && ch[0] == cyc[k0] && n < |ch|
    ensures k < |cyc| && ch[n] == cyc[k]
    decreases n
  {
    if n == 0 {
      k := k0;
    } else {
      var m := OnCycle(cats, cyc, ch, k0, n - 1);
      assert LinkedAt(cats, ch, n - 1);
      if m < |cyc| - 1 {
        assert LinkedAt(cats, cyc, m);
        SameIdSameIndex(cats, ch[n], cyc[m + 1]);
        k := m + 1;
      } else {
        SameIdSameIndex(cats, ch[n], cyc[0]);
        k := 0;
      }
    }
  }

  /** Every category on a cycle has a parent. */
  lemma CycleHasParents(cats: seq<CategoryView>, cyc: seq<nat>, k: nat)
    requires Cycle(cats, cyc) && k < |cyc|
    ensures cats[cyc[k]].parentId.Some?
  {
    if k < |cyc| - 1 {
      assert LinkedAt(cats, cyc, k);
    }
  }

  /** A category on a parent cycle has no chain up to a root, so it is never listed. */
  lemma CycleOmitted(cats: seq<CategoryView>, cyc: seq<nat>, k0: nat)
    requires UniqueIds(cats) && Cycle(cats, cyc) && k0 < |cyc|
    ensures forall level: nat :: !HasChain(cats, cats[cyc[k0]].id, level)
    ensures forall e :: e in Hierarchy(cats) ==> e.category.id != cats[cyc[k0]].id
  {
    forall level: nat ensures !HasChain(cats, cats[cyc[k0]].id, level) {
      if HasChain(cats, cats[cyc[k0]].id, level) {
        var ch :| Chain(cats, ch) && |ch| == level + 1 && cats[ch[0]].id == cats[cyc[k0]].id;
        SameIdSameIndex(cats, ch[0], cyc[k0]);
        var k := OnCycle(cats, cyc, ch, k0, |ch| - 1);
        CycleHasParents(cats, cyc, k);
      }
    }
    HierarchyLevelsAreDepths(cats);
  }

  // ----- each category at most once -----

  /** No two entries carry categories with the same id. */
  predicate OncePerCategory(s: seq<Entry>) {
    forall i, j :: 0 <= i < j < |s| ==> s[i].category.id != s[j].category.id
  }

  /** No id repeats. */
  predicate DistinctIds(ids: seq<string>) {
    forall i, j :: 0 <= i < j < |ids| ==> ids[i] != ids[j]
  }

  lemma ConcatOnce(a: seq<Entry>, b: seq<Entry>)
    requires OncePerCategory(a) && OncePerCategory(b)
    requires forall x, y :: x in a && y in b ==> x.category.id != y.category.id
    ensures OncePerCategory(a + b)
  {
    var c := a + b;
    forall i, j | 0 <= i < j < |c| ensures c[i].category.id != c[j].category.id {
      if j < |a| {
        assert c[i] == a[i] && c[j] == a[j];
      } else if i >= |a| {
        assert c[i] == b[i - |a|] && c[j] == b[j - |a|];
      } else {
        assert c[i] == a[i] && c[j] == b[j - |a|];
        assert a[i] in a && b[j - |a|] in b;
      }
    }
  }

  /** Two entries with the same category have the same ancestor at any depth. */
  lemma SameIdSameAncestor(cats: seq<CategoryView>, e1: Entry, e2: Entry, x: string, y: string, level: nat)
    requires UniqueIds(cats) && e1.category.id == e2.category.id
    requires Descends(cats, e1, x, level) && Descends(cats, e2, y, level)
    ensures x == y
  {
    var a := ChainOf(cats, e1, x, level);
    var b := ChainOf(cats, e2, y, level);
    assert |a| - (e1.level - level) == |b| - (e2.level - level);
    assert cats[a[0]].id == cats[b[0]].id;
    AncestorsAgree(cats, a, b, e1.level - level, e2.level - level, x, y);
  }

  /** The chain that makes e descend from x. */
  lemma ChainOf(cats: seq<CategoryView>, e: Entry, x: string, level: nat) returns (ch: seq<nat>)
    requires Descends(cats, e, x, level)
    ensures Chain(cats, ch) && |ch| == e.level + 1 && e.level >= level
    ensures cats[ch[0]].id == e.category.id && cats[ch[e.level - level]].id == x
  {
    ch :| Chain(cats, ch) && |ch| == e.level + 1 && cats[ch[0]].id == e.category.id && cats[ch[e.level - level]].id == x;
  }

  /** Two chains of one category name the same ancestor the same number of links up. */
  lemma AncestorsAgree(cats: seq<CategoryView>, a: seq<nat>, b: seq<nat>, ka: nat, kb: nat, x: string, y: string)
    requires UniqueIds(cats) && Chain(cats, a) && Chain(cats, b)
    requires cats[a[0]].id == cats[b[0]].id
    requires ka < |a| && kb < |b| && |a| - ka == |b| - kb
    requires cats[a[ka]].id == x && cats[b[kb]].id == y
    ensures x == y
  {
    ChainsAgree(cats, a, b);
  }

  /** An entry strictly below x does not carry x itself. */
  lemma DeeperIsOther(cats: seq<CategoryView>, e: Entry, x: string, y: string, level: nat)
    requires UniqueIds(cats) && HasChain(cats, x, level) && Descends(cats, e, y, level + 1)
    ensures e.category.id != x
  {
    var a :| Chain(cats, a) && |a| == e.level + 1 && cats[a[0]].id == e.category.id && cats[a[e.level - level - 1]].id == y;
    if e.category.id == x {
      DepthUnique(cats, x, level, e.level);
    }
  }

  /** An entry of the children's walk does not carry x itself. */
  lemma BelowIsOther(cats: seq<CategoryView>, x: string, level: nat, e: Entry)
    requires UniqueIds(cats) && HasChain(cats, x, level)
    requires AllChained(cats, ChildIds(cats, x), level + 1)
    requires e in Walk(cats, ChildIds(cats, x), level + 1)
    ensures e.category.id != x
  {
    var kids := ChildIds(cats, x);
    WalkMember(cats, kids, level + 1, e);
    var i :| 0 <= i < |kids| && e in Visit(cats, kids[i], level + 1);
    VisitDescends(cats, kids[i], level + 1, e);
    DeeperIsOther(cats, e, x, kids[i], level);
  }

  /** The subtrees of two different siblings share no category. */
  lemma SiblingsApart(cats: seq<CategoryView>, ids: seq<string>, level: nat, e1: Entry, e2: Entry)
    requires UniqueIds(cats) && AllChained(cats, ids, level) && DistinctIds(ids) && ids != []
    requires e1 in Visit(cats, ids[0], level) && e2 in Walk(cats, ids[1..], level)
    ensures e1.category.id != e2.category.id
  {
    TailChained(cats, ids, level);
    var y := LaterSibling(cats, ids, level, e2);
    VisitDescends(cats, ids[0], level, e1);
    if e1.category.id == e2.category.id {
      SameIdSameAncestor(cats, e1, e2, ids[0], y, level);
    }
  }

  /** An entry of the walk over the later siblings descends from one of them, which is not the first. */
  lemma LaterSibling(cats: seq<CategoryView>, ids: seq<string>, level: nat, e: Entry) returns (y: string)
    requires UniqueIds(cats) && AllChained(cats, ids, level) && DistinctIds(ids) && ids != []
    requires AllChained(cats, ids[1..], level)
    requires e in Walk(cats, ids[1..], level)
    ensures y != ids[0] && Descends(cats, e, y, level)
  {
    WalkMember(cats, ids[1..], level, e);
    var i :| 0 <= i < |ids[1..]| && e in Visit(cats, ids[1..][i], level);
    VisitDescends(cats, ids[1..][i], level, e);
    assert ids[1..][i] == ids[i + 1];
    y := ids[i + 1];
  }

  lemma {:induction false} WalkOnce(cats: seq<CategoryView>, ids: seq<string>, level: nat)
    requires UniqueIds(cats) && AllChained(cats, ids, level) && DistinctIds(ids)
    ensures OncePerCategory(Walk(cats, ids, level))
    decreases |cats| - level, |ids|
  {
    if ids != [] {
      TailChained(cats, ids, level);
      VisitOnce(cats, ids[0], level);
      assert DistinctIds(ids[1..]) by {
        forall i, j | 0 <= i < j < |ids[1..]| ensures ids[1..][i] != ids[1..][j] {
          assert ids[1..][i] == ids[i + 1] && ids[1..][j] == ids[j + 1];
        }
      }
      WalkOnce(cats, ids[1..], level);
      forall e1, e2 | e1 in Visit(cats, ids[0], level) && e2 in Walk(cats, ids[1..], level)
        ensures e1.category.id != e2.category.id
      {
        SiblingsApart(cats, ids, level, e1, e2);
      }
      ConcatOnce(Visit(cats, ids[0], level), Walk(cats, ids[1..], level));
    }
  }

  lemma {:induction false} VisitOnce(cats: seq<CategoryView>, x: string, level: nat)
    requires UniqueIds(cats) && HasChain(cats, x, level)
    ensures OncePerCategory(Visit(cats, x, level))
    decreases |cats| - level, 0
  {
    Chained(cats, x, level);
    ChildrenHaveChains(cats, x, level);
    var kids := ChildIds(cats, x);
    ChildIdsUnique(cats, x);
    WalkOnce(cats, kids, level + 1);
    var first := [Entry(CatOf(cats, x), level)];
    forall e1, e2 | e1 in first && e2 in Walk(cats, kids, level + 1)
      ensures e1.category.id != e2.category.id
    {
      BelowIsOther(cats, x, level, e2);
    }
    ConcatOnce(first, Walk(cats, kids, level + 1));
  }

  /** Where a category sits in the input. */
  ghost function IndexIn(cats: seq<CategoryView>, c: CategoryView): (j: nat)
    requires c in cats
    ensures j < |cats| && cats[j] == c
  {
    var j :| 0 <= j < |cats| && cats[j] == c; j
  }

  /** Entries of different input categories are at most as many as the input. */
  lemma OnceBounded(cats: seq<CategoryView>, s: seq<Entry>)
    requires OncePerCategory(s) && forall e :: e in s ==> e.category in cats
    ensures |s| <= |cats|
  {
    var idx := seq(|s|, i requires 0 <= i < |s| => assert s[i] in s; IndexIn(cats, s[i].category));
    forall i, j | 0 <= i < j < |idx| ensures idx[i] != idx[j] {
      assert cats[idx[i]] == s[i].category && cats[idx[j]] == s[j].category;
    }
    DistinctBelow(idx, |cats|);
  }

  /**
    Each category is listed at most once, so the list is no longer than the
    input: categories left out (unknown parent, cycle) only shorten it.
  */
  lemma HierarchyOnce(cats: seq<CategoryView>)
    requires UniqueIds(cats)
    ensures OncePerCategory(Hierarchy(cats))
    ensures |Hierarchy(cats)| <= |cats|
  {
    RootsHaveChains(cats);
    RootIdsUnique(cats);
    WalkOnce(cats, RootIds(cats), 0);
    HierarchyLevelsAreDepths(cats);
    OnceBounded(cats, Hierarchy(cats));
  }

  // ----- the parent column -----

  const RootLabel := "<em style=\"color: #6c757d;\">Danh mục gốc</em>"
  const MissingLabel := "<em style=\"color: #dc3545;\">Không tìm thấy</em>"

  /** `categories.find(c => c.id === p)`: the first category with id p. */
  function FindById(categories: seq<CategoryView>, p: string): (r: Option<CategoryView>)
    ensures r.Some? <==> Known(categories, p)
    ensures r.Some? ==> exists i :: 0 <= i < |categories| && categories[i] == r.value && r.value.id == p
                                     && forall k :: 0 <= k < i ==> categories[k].id != p
  {
    if categories == [] then None
    else if categories[0].id == p then Some(categories[0])
    else
      var r := FindById(categories[1..], p);
      assert Known(categories, p) ==> Known(categories[1..], p) by {
        if Known(categories, p) {
          var i :| 0 <= i < |categories| && categories[i].id == p;
          assert categories[1..][i - 1] == categories[i];
        }
      }
      assert r.Some? ==> exists i :: 0 <= i < |categories| && categories[i] == r.value && r.value.id == p
                                     && forall k :: 0 <= k < i ==> categories[k].id != p by {
        if r.Some? {
          var i :| 0 <= i < |categories[1..]| && categories[1..][i] == r.value && r.value.id == p
                   && forall k :: 0 <= k < i ==> categories[1..][k].id != p;
          assert categories[i + 1] == r.value;
          assert forall k :: 1 <= k < i + 1 ==> categories[k] == categories[1..][k - 1];
        }
      }
      r
  }

  /**
    `getParentCategoryName(parentId)`: the root label for a category without a
    parent, the name of the first category with that id, or the not-found
    label. A parent whose name is null gives null, here None.
  */
  function ParentCategoryName(parentId: Option<string>, categories: seq<CategoryView>): (r: Option<string>)
    ensures parentId.None? ==> r == Some(RootLabel)
    ensures parentId.Some? && Known(categories, parentId.value) ==>
              exists i :: 0 <= i < |categories| && categories[i].id == parentId.value && r == categories[i].name
                          && forall k :: 0 <= k < i ==> categories[k].id != parentId.value
    ensures parentId.Some? && !Known(categories, parentId.value) ==> r == Some(MissingLabel)
  {
    if parentId.None? then Some(RootLabel)
    else
      match FindById(categories, parentId.value)
      case Some(parent) => parent.name
      case None => Some(MissingLabel)
  }
}
