/**
  `CategoryService` (category.service.js): categories as the frontend sees
  them (ids as text), the admin-only create, update and remove, and
  `buildCategoryTree`, which files every category either as a root or under
  its parent.

  The tree `buildCategoryTree` returns is a graph of shared objects: one
  object per category id, held in `categoryMap`, each with a `children` array
  into which the loop pushes the objects of the categories naming it as their
  parent, and the `tree` array of root objects. The model keeps that graph as
  id lists: `tree` holds root ids, and `categoryMap[id]` the category and the
  ids of its children.
*/
module CategoryService {
  import opened Wrappers
  import opened Text
  import opened Database

  const AdminOnlyCreate := "Chỉ Admin mới có thể tạo danh mục"
  const AdminOnlyUpdate := "Chỉ Admin mới có thể sửa danh mục"
  const AdminOnlyRemove := "Chỉ Admin mới có thể xóa danh mục"
  const CategoryNotFound := "Không tìm thấy danh mục"
  /** PostgreSQL's refusal of a NULL name, when the column is declared NOT NULL. */
  const NullNameRefused := "null value in column \"name\" of relation \"categories\" violates not-null constraint"

  // ----- formatting -----

  /** A category for the frontend; a parent id that is null (or 0) stays falsy, here None. */
  datatype CategoryView = CategoryView(id: string, parentId: Option<string>, name: Option<string>, imageUrl: Option<string>)

  /** `formatCategoryForFrontend(category)`: the id as text, the parent id as text when it is truthy. */
  function Format(id: int, c: Category): (v: CategoryView)
    ensures v.parentId.Some? <==> c.parentId.Some? && c.parentId.value != 0
    ensures v.name == c.name && v.imageUrl == c.imageUrl
  {
    var parentId := if c.parentId.Some? && c.parentId.value != 0 then Some(IntToString(c.parentId.value)) else None;
    CategoryView(IntToString(id), parentId, c.name, c.imageUrl)
  }

  /** The ids of a formatted category read back, with `parseInt`, as the numbers they came from. */
  lemma FormatReadsBack(id: int, c: Category)
    ensures ParseInt(Format(id, c).id) == Some(id)
    ensures Format(id, c).parentId.Some? ==> ParseInt(Format(id, c).parentId.value) == c.parentId
  {
    ParseIntOfIntToString(id);
    if c.parentId.Some? {
      ParseIntOfIntToString(c.parentId.value);
    }
  }

  /** Different ids give different texts, so formatted ids are as unique as the row ids. */
  lemma FormatKeepsIdsApart(a: int, b: int, c: Category, d: Category)
    requires a != b
    ensures Format(a, c).id != Format(b, d).id
  {
    FormatReadsBack(a, c);
    FormatReadsBack(b, d);
  }

  /** `findMany({})` on categories: the rows in ascending id order, at most 100. */
  function FindMany(t: Tables): (ids: seq<int>)
    ensures forall i :: 0 <= i < |ids| ==> ids[i] in t.categories
    ensures forall i, j :: 0 <= i < j < |ids| ==> ids[i] < ids[j]
  {
    var all := Select(t.categories, (c: Category) => true, t.nextId);
    if |all| <= 100 then all else all[..100]
  }

  /** `list()`: every listed category, formatted, in order. */
  function List(t: Tables): (r: seq<CategoryView>)
    ensures |r| == |FindMany(t)|
    ensures forall i :: 0 <= i < |r| ==> r[i] == Format(FindMany(t)[i], t.categories[FindMany(t)[i]])
  {
    var ids := FindMany(t);
    seq(|ids|, i requires 0 <= i < |ids| => Format(ids[i], t.categories[ids[i]]))
  }

  /** The listed categories have pairwise different ids. */
  lemma ListIdsUnique(t: Tables)
    ensures UniqueIds(List(t))
  {
    var ids := FindMany(t);
    var r := List(t);
    forall i, j | 0 <= i < j < |r| ensures r[i].id != r[j].id {
      FormatKeepsIdsApart(ids[i], ids[j], t.categories[ids[i]], t.categories[ids[j]]);
    }
  }

  /** `findById(id)`: the row id, None for an id parseInt cannot read or a missing row. */
  function Found(t: Tables, id: string): (r: Option<int>)
    ensures r.Some? <==> ParseInt(id).Some? && ParseInt(id).value in t.categories
    ensures r.Some? ==> r == ParseInt(id)
  {
    match ParseInt(id)
    case None => None
    case Some(n) => if n in t.categories then Some(n) else None
  }

  /** `detail(id)`: throws for a missing category. */
  function Detail(t: Tables, id: string): (r: Result<CategoryView>)
    ensures r.Failure? <==> Found(t, id).None?
    ensures r.Failure? ==> r.error == CategoryNotFound
    ensures r.Success? ==> ParseInt(r.value.id) == ParseInt(id)
  {
    match Found(t, id)
    case None => Failure(CategoryNotFound)
    case Some(n) =>
      FormatReadsBack(n, t.categories[n]);
      Success(Format(n, t.categories[n]))
  }

  // ----- create, update, remove -----

  /** The create payload: `parent_id || null` and `image_url || null`, so 0 and "" count as missing. */
  datatype NewCategory = NewCategory(name: string, parentId: Option<int>, imageUrl: Option<string>)

  /** The row `create` inserts. */
  function RowOf(n: NewCategory): (c: Category)
    ensures c.parentId.Some? <==> n.parentId.Some? && n.parentId.value != 0
    ensures c.imageUrl.Some? <==> n.imageUrl.Some? && n.imageUrl.value != ""
  {
    Category(Some(n.name),
             if n.parentId.Some? && n.parentId.value != 0 then n.parentId else None,
             if n.imageUrl.Some? && n.imageUrl.value != "" then n.imageUrl else None)
  }

  lemma MessagesDiffer()
    ensures AdminOnlyUpdate != CategoryNotFound && AdminOnlyRemove != CategoryNotFound
    ensures NullNameRefused != AdminOnlyUpdate && NullNameRefused != CategoryNotFound
  {
    assert |AdminOnlyUpdate| == 33 && |AdminOnlyRemove| == 33 && |CategoryNotFound| == 23;
    assert |NullNameRefused| == 81;
  }

  /**
    `create(currentUser, payload)`: a user who is not an admin gets an error
    and nothing is written; otherwise one categories row is inserted and
    returned formatted.
  */
  function Created(t: Tables, user: Principal, n: NewCategory): (r: (Result<CategoryView>, Tables))
    requires WellFormed(t)
    ensures WellFormed(r.1)
    ensures r.0.Failure? <==> user.role != ADMIN
    ensures r.0.Failure? ==> r.0.error == AdminOnlyCreate && r.1 == t
    ensures r.0.Success? ==>
              && r.0.value == Format(t.nextId, RowOf(n))
              && r.1 == t.(categories := t.categories[t.nextId := RowOf(n)], nextId := t.nextId + 1)
  {
    if user.role != ADMIN then (Failure(AdminOnlyCreate), t)
    else
      var id := t.nextId;
      (Success(Format(id, RowOf(n))), t.(categories := t.categories[id := RowOf(n)], nextId := id + 1))
  }

  method Create(db: Db, user: Principal, n: NewCategory) returns (r: Result<CategoryView>)
    modifies db
    requires db.Valid()
    ensures db.Valid()
    ensures (r, db.Snapshot()) == Created(old(db.Snapshot()), user, n)
  {
    if user.role != ADMIN {
      return Failure(AdminOnlyCreate);
    }
    var id := db.FreshId();
    db.categories := db.categories[id := RowOf(n)];
    r := Success(Format(id, RowOf(n)));
  }

  /**
    The update payload. The service always passes all three keys to
    `updateById`, and node-postgres binds a key the request body left out
    (None here) as NULL.
  */
  datatype CategoryPatch = CategoryPatch(name: Option<string>, parentId: Option<int>, imageUrl: Option<string>)

  /**
    `update(currentUser, id, patch)`: a user who is not an admin, then a
    missing category, get an error with nothing written; otherwise the row's
    three columns are replaced by the patch's. The table definition is not
    part of this model, so `nameNotNull` says whether `categories.name`
    refuses NULL: if it does, a patch without a name fails in PostgreSQL with
    nothing written; if not, the name becomes NULL.
  */
  function Updated(t: Tables, user: Principal, id: string, q: CategoryPatch, nameNotNull: bool): (r: (Result<CategoryView>, Tables))
    ensures user.role != ADMIN ==> r == (Failure(AdminOnlyUpdate), t)
    ensures r.0 == Failure(CategoryNotFound) <==> user.role == ADMIN && Found(t, id).None?
    ensures r.0 == Failure(NullNameRefused) <==> user.role == ADMIN && Found(t, id).Some? && q.name.None? && nameNotNull
    ensures r.0.Failure? ==> r.1 == t
    ensures r.0.Success? ==>
              var n := ParseInt(id).value;
              var c := Category(q.name, q.parentId, q.imageUrl);
              && n in t.categories
              && r.0.value == Format(n, c)
              && r.1 == t.(categories := t.categories[n := c])
  {
    MessagesDiffer();
    if user.role != ADMIN then (Failure(AdminOnlyUpdate), t)
    else
      match Found(t, id)
      case None => (Failure(CategoryNotFound), t)
      case Some(n) =>
        if q.name.None? && nameNotNull then (Failure(NullNameRefused), t)
        else
          var c := Category(q.name, q.parentId, q.imageUrl);
          (Success(Format(n, c)), t.(categories := t.categories[n := c]))
  }

  /**
    A patch without a parent id or an image takes them away from the
    category, and one without a name takes the name away too unless the
    column refuses NULL.
  */
  lemma UpdateClearsOmittedFields(t: Tables, user: Principal, id: string, name: Option<string>, nameNotNull: bool)
    requires user.role == ADMIN && Found(t, id).Some?
    ensures var r := Updated(t, user, id, CategoryPatch(name, None, None), nameNotNull);
            var n := ParseInt(id).value;
            if name.None? && nameNotNull then r == (Failure(NullNameRefused), t)
            else r.1.categories[n] == Category(name, None, None) && r.0.Success? && r.0.value.name == name
  {
  }

  method Update(db: Db, user: Principal, id: string, q: CategoryPatch, nameNotNull: bool) returns (r: Result<CategoryView>)
    modifies db
    requires db.Valid()
    ensures db.Valid()
    ensures (r, db.Snapshot()) == Updated(old(db.Snapshot()), user, id, q, nameNotNull)
  {
    if user.role != ADMIN {
      return Failure(AdminOnlyUpdate);
    }
    var found := Found(db.Snapshot(), id);
    if found.None? {
      return Failure(CategoryNotFound);
    }
    if q.name.None? && nameNotNull {
      return Failure(NullNameRefused);
    }
    var c := Category(q.name, q.parentId, q.imageUrl);
    db.categories := db.categories[found.value := c];
    r := Success(Format(found.value, c));
  }

  /**
    `remove(currentUser, id)`: a user who is not an admin, then a missing
    category, get an error with nothing written; otherwise the row goes.
  */
  function Removed(t: Tables, user: Principal, id: string): (r: (Result<bool>, Tables))
    ensures user.role != ADMIN ==> r == (Failure(AdminOnlyRemove), t)
    ensures r.0 == Failure(CategoryNotFound) <==> user.role == ADMIN && Found(t, id).None?
    ensures r.0.Failure? ==> r.1 == t
    ensures r.0.Success? ==> r.0.value && r.1 == t.(categories := t.categories - {ParseInt(id).value})
  {
    MessagesDiffer();
    if user.role != ADMIN then (Failure(AdminOnlyRemove), t)
    else
      match Found(t, id)
      case None => (Failure(CategoryNotFound), t)
      case Some(n) => (Success(true), t.(categories := t.categories - {n}))
  }

  method Remove(db: Db, user: Principal, id: string) returns (r: Result<bool>)
    modifies db
    requires db.Valid()
    ensures db.Valid()
    ensures (r, db.Snapshot()) == Removed(old(db.Snapshot()), user, id)
  {
    if user.role != ADMIN {
      return Failure(AdminOnlyRemove);
    }
    var found := Found(db.Snapshot(), id);
    if found.None? {
      return Failure(CategoryNotFound);
    }
    db.categories := db.categories - {found.value};
    r := Success(true);
  }

  /** A user who is not an admin is turned away before the category is looked up: the answer is the same whether it exists or not. */
  lemma NonAdminBeforeLookup(t: Tables, t': Tables, user: Principal, id: string, q: CategoryPatch, nameNotNull: bool)
    requires user.role != ADMIN
    ensures Updated(t, user, id, q, nameNotNull).0 == Updated(t', user, id, q, nameNotNull).0
    ensures Removed(t, user, id).0 == Removed(t', user, id).0
  {
  }

  // ----- the tree -----

  /** Ids that are pairwise different. */
  predicate UniqueIds(cats: seq<CategoryView>) {
    forall i, j :: 0 <= i < j < |cats| ==> cats[i].id != cats[j].id
  }

  /** Some category has id x. */
  predicate Known(cats: seq<CategoryView>, x: string) {
    exists i :: 0 <= i < |cats| && cats[i].id == x
  }

  /** The ids of the categories with no (truthy) parent, in input order. */
  function RootIds(cats: seq<CategoryView>): (r: seq<string>)
    ensures |r| <= |cats|
    ensures forall x :: x in r <==> exists i :: 0 <= i < |cats| && cats[i].id == x && cats[i].parentId.None?
  {
    if cats == [] then []
    else
      var init := cats[..|cats| - 1];
      var last := cats[|cats| - 1];
      assert forall i :: 0 <= i < |init| ==> init[i] == cats[i];
      RootIds(init) + (if last.parentId.None? then [last.id] else [])
  }

  /** The ids of the categories whose parent id is p, in input order. */
  function ChildIds(cats: seq<CategoryView>, p: string): (r: seq<string>)
    ensures |r| <= |cats|
    ensures forall x :: x in r <==> exists i :: 0 <= i < |cats| && cats[i].id == x && cats[i].parentId == Some(p)
  {
    if cats == [] then []
    else
      var init := cats[..|cats| - 1];
      var last := cats[|cats| - 1];
      assert forall i :: 0 <= i < |init| ==> init[i] == cats[i];
      ChildIds(init, p) + (if last.parentId == Some(p) then [last.id] else [])
  }

  /** The last category with id x: the one `categoryMap[x]` ends up holding. */
  function LastWithId(cats: seq<CategoryView>, x: string): (r: Option<CategoryView>)
    ensures r.Some? <==> Known(cats, x)
    ensures r.Some? ==> r.value.id == x && r.value in cats
  {
    if cats == [] then None
    else
      var init := cats[..|cats| - 1];
      var last := cats[|cats| - 1];
      if last.id == x then Some(last)
      else
        var r := LastWithId(init, x);
        assert Known(cats, x) ==> Known(init, x) by {
          if Known(cats, x) {
            var i :| 0 <= i < |cats| && cats[i].id == x;
            assert init[i] == cats[i];
          }
        }
        assert Known(init, x) ==> Known(cats, x) by {
          if Known(init, x) {
            var i :| 0 <= i < |init| && init[i].id == x;
            assert cats[i] == init[i];
          }
        }
        r
  }

  /** An object of `categoryMap`: `{ ...cat, children: [] }`, with the ids of its children pushed so far. */
  datatype TreeNode = TreeNode(cat: CategoryView, children: seq<string>)

  /**
    `buildCategoryTree(categories)`: the first loop makes one object per id,
    the second files each category under its parent when that parent is in
    the map, or among the roots when it has no parent.
  */
  method BuildCategoryTree(cats: seq<CategoryView>) returns (tree: seq<string>, categoryMap: map<string, TreeNode>)
    ensures tree == RootIds(cats)
    ensures forall x :: x in categoryMap <==> Known(cats, x)
    ensures forall x :: x in categoryMap ==>
              Some(categoryMap[x].cat) == LastWithId(cats, x) && categoryMap[x].children == ChildIds(cats, x)
  {
    var nodes := MakeNodes(cats);
    tree, categoryMap := FileUnderParents(cats, nodes);
    assert cats[..|cats|] == cats;
  }

  /** `categories.forEach(cat => { categoryMap[cat.id] = { ...cat, children: [] } })` */
  method MakeNodes(cats: seq<CategoryView>) returns (categoryMap: map<string, TreeNode>)
    ensures forall x :: x in categoryMap <==> Known(cats, x)
    ensures forall x :: x in categoryMap ==> Some(categoryMap[x].cat) == LastWithId(cats, x) && categoryMap[x].children == []
  {
    categoryMap := map[];
    var k := 0;
    while k < |cats|
      invariant 0 <= k <= |cats|
      invariant forall x :: x in categoryMap <==> Known(cats[..k], x)
      invariant forall x :: x in categoryMap ==> Some(categoryMap[x].cat) == LastWithId(cats[..k], x) && categoryMap[x].children == []
    {
      KnownStep(cats, k);
      LastStep(cats, k);
      categoryMap := categoryMap[cats[k].id := TreeNode(cats[k], [])];
      k := k + 1;
    }
    assert cats[..k] == cats;
  }

  /** The second loop: a category with a parent goes under it when the parent is in the map, one without goes among the roots. */
  method FileUnderParents(cats: seq<CategoryView>, nodes: map<string, TreeNode>) returns (tree: seq<string>, categoryMap: map<string, TreeNode>)
    requires forall x :: x in nodes ==> nodes[x].children == []
    ensures tree == RootIds(cats)
    ensures Filed(cats, |cats|, nodes, categoryMap)
  {
    categoryMap := nodes;
    tree := [];
    var k := 0;
    assert Filed(cats, 0, nodes, categoryMap);
    while k < |cats|
      invariant 0 <= k <= |cats|
      invariant tree == RootIds(cats[..k])
      invariant Filed(cats, k, nodes, categoryMap)
    {
      RootStep(cats, k);
      var cat := cats[k];
      ghost var before := categoryMap;
      if cat.parentId.Some? {
        var p := cat.parentId.value;
        if p in categoryMap {
          categoryMap := categoryMap[p := categoryMap[p].(children := categoryMap[p].children + [cat.id])];
        }
      } else {
        tree := tree + [cat.id];
      }
      FileStep(cats, k, nodes, before, categoryMap);
      k := k + 1;
    }
    assert cats[..k] == cats;
  }

  /** After k categories: the same keys and categories as `nodes`, and each child list holds the children among the first k. */
  ghost predicate Filed(cats: seq<CategoryView>, k: nat, nodes: map<string, TreeNode>, m: map<string, TreeNode>)
    requires k <= |cats|
  {
    (forall x :: x in m <==> x in nodes)
    && (forall x :: x in m ==> m[x].cat == nodes[x].cat && m[x].children == ChildIds(cats[..k], x))
  }

  /** One step of the second loop keeps `Filed`. */
  lemma FileStep(cats: seq<CategoryView>, k: nat, nodes: map<string, TreeNode>, m: map<string, TreeNode>, m': map<string, TreeNode>)
    requires k < |cats|
    requires Filed(cats, k, nodes, m)
    requires cats[k].parentId.Some? && cats[k].parentId.value in m ==>
               m' == m[cats[k].parentId.value := m[cats[k].parentId.value].(children := m[cats[k].parentId.value].children + [cats[k].id])]
    requires !(cats[k].parentId.Some? && cats[k].parentId.value in m) ==> m' == m
    ensures Filed(cats, k + 1, nodes, m')
  {
    ChildStep(cats, k);
    forall x | x in m' ensures m'[x].children == ChildIds(cats[..k + 1], x) {
      assert ChildIds(cats[..k + 1], x) == ChildIds(cats[..k], x) + (if cats[k].parentId == Some(x) then [cats[k].id] else []);
    }
  }

  /** How the roots of a prefix grow by one category. */
  lemma RootStep(cats: seq<CategoryView>, k: nat)
    requires k < |cats|
    ensures RootIds(cats[..k + 1]) == RootIds(cats[..k]) + (if cats[k].parentId.None? then [cats[k].id] else [])
  {
    assert cats[..k + 1][..k] == cats[..k];
  }

  /** How the children of a prefix grow by one category. */
  lemma ChildStep(cats: seq<CategoryView>, k: nat)
    requires k < |cats|
    ensures forall p :: ChildIds(cats[..k + 1], p) == ChildIds(cats[..k], p) + (if cats[k].parentId == Some(p) then [cats[k].id] else [])
  {
    assert cats[..k + 1][..k] == cats[..k];
  }

  /** How the last category with an id changes over a prefix grown by one category. */
  lemma LastStep(cats: seq<CategoryView>, k: nat)
    requires k < |cats|
    ensures forall x :: LastWithId(cats[..k + 1], x) == if cats[k].id == x then Some(cats[k]) else LastWithId(cats[..k], x)
  {
    var c := cats[..k + 1];
    assert c[..|c| - 1] == cats[..k];
    assert c[|c| - 1] == cats[k];
    forall x ensures LastWithId(c, x) == if cats[k].id == x then Some(cats[k]) else LastWithId(cats[..k], x) {
    }
  }

  /** Adding one category to the prefix adds its id to the known ids. */
  lemma KnownStep(cats: seq<CategoryView>, k: nat)
    requires k < |cats|
    ensures forall x :: Known(cats[..k + 1], x) <==> Known(cats[..k], x) || x == cats[k].id
  {
    var a := cats[..k];
    var b := cats[..k + 1];
    forall x ensures Known(b, x) <==> Known(a, x) || x == cats[k].id {
      if Known(a, x) {
        var i :| 0 <= i < |a| && a[i].id == x;
        assert b[i] == a[i];
      }
      if x == cats[k].id {
        assert b[k].id == x;
      }
      if Known(b, x) && x != cats[k].id {
        var i :| 0 <= i < |b| && b[i].id == x;
        assert a[i] == b[i];
      }
    }
  }

  /**
    Where a category ends up: a root exactly when it has no parent, under its
    parent exactly when it names one that is in the list; a category whose
    parent is not in the list is nowhere.
  */
  lemma TreePlacement(cats: seq<CategoryView>, i: nat)
    requires i < |cats| && UniqueIds(cats)
    ensures cats[i].id in RootIds(cats) <==> cats[i].parentId.None?
    ensures forall p :: cats[i].id in ChildIds(cats, p) <==> cats[i].parentId == Some(p)
    ensures cats[i].parentId.Some? && !Known(cats, cats[i].parentId.value) ==>
              cats[i].id !in RootIds(cats) && forall p :: Known(cats, p) ==> cats[i].id !in ChildIds(cats, p)
  {
  }

  /** With unique ids no id is filed twice in the root list or in one child list. */
  lemma {:induction false} RootIdsUnique(cats: seq<CategoryView>)
    requires UniqueIds(cats)
    ensures forall i, j :: 0 <= i < j < |RootIds(cats)| ==> RootIds(cats)[i] != RootIds(cats)[j]
  {
    if cats != [] {
      var init := cats[..|cats| - 1];
      var last := cats[|cats| - 1];
      assert UniqueIds(init) by {
        forall i, j | 0 <= i < j < |init| ensures init[i].id != init[j].id {
          assert init[i] == cats[i] && init[j] == cats[j];
        }
      }
      RootIdsUnique(init);
      if last.parentId.None? {
        forall i | 0 <= i < |RootIds(init)| ensures RootIds(init)[i] != last.id {
          var x := RootIds(init)[i];
          assert x in RootIds(init);
          var k :| 0 <= k < |init| && init[k].id == x && init[k].parentId.None?;
          assert cats[k] == init[k];
        }
      }
    }
  }

  lemma {:induction false} ChildIdsUnique(cats: seq<CategoryView>, p: string)
    requires UniqueIds(cats)
    ensures forall i, j :: 0 <= i < j < |ChildIds(cats, p)| ==> ChildIds(cats, p)[i] != ChildIds(cats, p)[j]
  {
    if cats != [] {
      var init := cats[..|cats| - 1];
      var last := cats[|cats| - 1];
      assert UniqueIds(init) by {
        forall i, j | 0 <= i < j < |init| ensures init[i].id != init[j].id {
          assert init[i] == cats[i] && init[j] == cats[j];
        }
      }
      ChildIdsUnique(init, p);
      if last.parentId == Some(p) {
        forall i | 0 <= i < |ChildIds(init, p)| ensures ChildIds(init, p)[i] != last.id {
          var x := ChildIds(init, p)[i];
          assert x in ChildIds(init, p);
          var k :| 0 <= k < |init| && init[k].id == x && init[k].parentId == Some(p);
          assert cats[k] == init[k];
        }
      }
    }
  }

  /** `getTree()`: the listed categories, formatted, then filed into the tree. */
  method GetTree(t: Tables) returns (tree: seq<string>, categoryMap: map<string, TreeNode>)
    ensures tree == RootIds(List(t))
    ensures forall x :: x in categoryMap <==> Known(List(t), x)
    ensures forall x :: x in categoryMap ==> categoryMap[x].children == ChildIds(List(t), x)
  {
    tree, categoryMap := BuildCategoryTree(List(t));
  }
}
