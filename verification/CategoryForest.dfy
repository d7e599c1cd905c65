/**
 * The category forest of the categories service: a flat list of categories, whose parent links may
 * name missing rows or form cycles, becomes a list of nested nodes built in place by two passes over
 * shared objects and a clean-up that deletes empty child arrays.
 */
module CategoryForest {
  import opened Common
  import opened ParentChains
  import opened Forest

  datatype Category = Category(id: string, name: string, parentId: Option<string>)

  function Ids(categories: seq<Category>): set<string> {
    set c | c in categories :: c.id
  }

  /** The parent a category is nested under: present, not the empty string, and in the list. */
  function ParentIn(ids: set<string>, c: Category): Option<string> {
    if c.parentId.Some? && c.parentId.value != "" && c.parentId.value in ids then c.parentId else None
  }

  function InListParent(categories: seq<Category>, c: Category): Option<string> {
    ParentIn(Ids(categories), c)
  }

  function Rows(categories: seq<Category>): (rows: seq<Row>)
    ensures |rows| == |categories|
    ensures forall i :: 0 <= i < |rows| ==>
              rows[i].id == categories[i].id && rows[i].parent == InListParent(categories, categories[i])
  {
    seq(|categories|, i requires 0 <= i < |categories| =>
      Row(categories[i].id, InListParent(categories, categories[i])))
  }

  /** Ids of the rows that are nobody's child, in list order. */
  function Roots(rows: seq<Row>): seq<string> {
    if rows == [] then []
    else
      var last := rows[|rows| - 1];
      Roots(rows[..|rows| - 1]) + if last.parent.None? then [last.id] else []
  }

  lemma {:induction false} RootsMember(rows: seq<Row>, y: string)
    ensures y in Roots(rows) <==> Row(y, None) in rows
  {
    if rows != [] {
      assert rows == rows[..|rows| - 1] + [rows[|rows| - 1]];
      RootsMember(rows[..|rows| - 1], y);
    }
  }

  /** The roots keep the order of the list, and none is listed twice. */
  lemma {:induction false} RootsInOrder(rows: seq<Row>)
    requires DistinctIds(rows)
    ensures InRowOrder(rows, Roots(rows)) && Distinct(Roots(rows))
  {
    if rows != [] {
      var front, last := rows[..|rows| - 1], rows[|rows| - 1];
      RootsInOrder(front);
      forall y | y in Roots(front)
        ensures InRows(front, y)
      {
        RootsMember(front, y);
        var p :| 0 <= p < |front| && front[p] == Row(y, None);
      }
      OrderExtends(rows, Roots(front), if last.parent.None? then [last.id] else []);
    }
  }

  lemma {:induction false} RootsAtTop(categories: seq<Category>)
    requires DistinctIds(Rows(categories))
    ensures AtLevel(Rows(categories), Roots(Rows(categories)), 1)
  {
    var rows := Rows(categories);
    forall x | x in Roots(rows)
      ensures x !in LinksOf(rows)
    {
      RootsMember(rows, x);
    }
    forall x | x in Roots(rows) { HeightTop(LinksOf(rows), x); }
  }

  /** The ids of the returned forest, in the order a depth-first reader meets them. */
  ghost function FlatForest(categories: seq<Category>): seq<string>
    requires DistinctIds(Rows(categories))
  {
    RootsAtTop(categories);
    PreorderAll(Rows(categories), Roots(Rows(categories)), 1)
  }

  lemma {:induction false} LinkedIsListed(categories: seq<Category>, x: string)
    requires DistinctIds(Rows(categories)) && x in LinksOf(Rows(categories))
    ensures x in Ids(categories) && LinksOf(Rows(categories))[x] in Ids(categories)
  {
  }

  lemma {:induction false} UnlinkedIsRoot(categories: seq<Category>, x: string)
    requires DistinctIds(Rows(categories)) && x in Ids(categories)
    ensures x in Roots(Rows(categories)) <==> x !in LinksOf(Rows(categories))
  {
    var i :| 0 <= i < |categories| && categories[i].id == x;
    RootsMember(Rows(categories), x);
    RowDecides(Rows(categories), i);
  }

  /** The last id of a chain that ends is a root of the list the chain started in. */
  lemma {:induction false} ChainTop(categories: seq<Category>, y: string) returns (root: string)
    requires DistinctIds(Rows(categories))
    requires y in Ids(categories) && Ends(LinksOf(Rows(categories)), y)
    ensures root in Roots(Rows(categories)) && Reaches(LinksOf(Rows(categories)), y, root)
    decreases Height(LinksOf(Rows(categories)), y)
  {
    var links := LinksOf(Rows(categories));
    UnlinkedIsRoot(categories, y);
    if y in links {
      LinkedIsListed(categories, y);
      HeightStep(links, y);
      root := ChainTop(categories, links[y]);
      var k: nat :| Up(links, links[y], k) == Some(root);
      assert Up(links, y, k + 1) == Some(root);
    } else {
      root := y;
      assert Up(links, y, 0) == Some(root);
    }
  }

  /** A category is in the forest if and only if its parent chain does not run into a cycle. */
  lemma {:induction false} ForestContains(categories: seq<Category>, y: string)
    requires DistinctIds(Rows(categories))
    ensures y in FlatForest(categories) <==>
              y in Ids(categories) && !RunsIntoCycle(LinksOf(Rows(categories)), y)
  {
    var rows := Rows(categories);
    var links := LinksOf(rows);
    RootsAtTop(categories);
    PreorderAllMember(rows, Roots(rows), 1, y);
    EndsOrCycles(links, y);
    if root :| root in Roots(rows) && Reaches(links, y, root) {
      var k: nat :| Up(links, y, k) == Some(root);
      HeightAbove(links, y, k);
      RootsInList(categories);
      if k > 0 { LinkedIsListed(categories, y); }
    }
    if y in Ids(categories) && Ends(links, y) {
      var root := ChainTop(categories, y);
    }
  }

  /** No category appears twice. */
  lemma {:induction false} ForestOnce(categories: seq<Category>)
    requires DistinctIds(Rows(categories))
    ensures Distinct(FlatForest(categories))
  {
    RootsAtTop(categories);
    RootsInOrder(Rows(categories));
    PreorderAllDistinct(Rows(categories), Roots(Rows(categories)), 1);
  }

  function IdList(categories: seq<Category>): seq<string> {
    seq(|categories|, i requires 0 <= i < |categories| => categories[i].id)
  }

  /** Without cycles nothing is lost: the flattened forest is a permutation of the input. */
  lemma {:induction false} ForestConserves(categories: seq<Category>)
    requires DistinctIds(Rows(categories))
    ensures Acyclic(LinksOf(Rows(categories))) <==>
              multiset(FlatForest(categories)) == multiset(IdList(categories))
  {
    var rows, ids, flat := Rows(categories), IdList(categories), FlatForest(categories);
    var links := LinksOf(rows);
    ForestOnce(categories);
    assert Distinct(ids) by {
      forall i, j | 0 <= i < j < |ids| ensures ids[i] != ids[j] { assert rows[i].id != rows[j].id; }
    }
    forall y
      ensures y in ids <==> y in Ids(categories)
    {
      if y in Ids(categories) {
        var i :| 0 <= i < |categories| && categories[i].id == y;
        assert ids[i] == y;
      }
    }
    if Acyclic(links) {
      forall y
        ensures y in flat <==> y in ids
      {
        ForestContains(categories, y);
        AcyclicEnds(links, y);
        EndsOrCycles(links, y);
      }
      SameElementsPermute(flat, ids);
    }
    if multiset(flat) == multiset(ids) {
      forall x | x in links
        ensures Ends(links, x)
      {
        LinkedIsListed(categories, x);
        assert x in multiset(ids);
        ForestContains(categories, x);
        EndsOrCycles(links, x);
      }
    }
  }

  /** A node as the caller receives it; a `Leaf` is a node whose `children` field was deleted. */
  datatype Tree = Leaf(category: Category) | Branch(category: Category, children: seq<Tree>)

  function Flatten(t: Tree): seq<string> {
    [t.category.id] + if t.Leaf? then [] else FlattenAll(t.children)
  }

  function FlattenAll(ts: seq<Tree>): seq<string> {
    if ts == [] then [] else Flatten(ts[0]) + FlattenAll(ts[1..])
  }

  /** A list of children is never left empty. */
  predicate NoEmptyLists(t: Tree) {
    t.Branch? ==> t.children != [] && forall c | c in t.children :: NoEmptyLists(c)
  }

  /** The category of the list that has this id. */
  ghost function Lookup(categories: seq<Category>, id: string): (c: Category)
    requires id in Ids(categories)
    ensures c in categories && c.id == id
  {
    var c :| c in categories && c.id == id;
    c
  }

  lemma {:induction false} KidsInList(categories: seq<Category>, x: string)
    ensures forall y :: y in Kids(Rows(categories), x) ==> y in Ids(categories)
  {
    forall y | y in Kids(Rows(categories), x)
      ensures y in Ids(categories)
    {
      KidsMember(Rows(categories), x, y);
      var i :| 0 <= i < |categories| && Rows(categories)[i] == Row(y, Some(x));
      assert categories[i].id == y;
    }
  }

  ghost function TreeOf(categories: seq<Category>, x: string): Tree
    requires DistinctIds(Rows(categories))
    requires x in Ids(categories) && Ends(LinksOf(Rows(categories)), x)
    decreases Below(Rows(categories), Height(LinksOf(Rows(categories)), x)), 0
  {
    var rows := Rows(categories);
    KidsBelow(rows, x);
    KidsInList(categories, x);
    HeightBound(LinksOf(rows), x);
    var kids := Kids(rows, x);
    if kids == [] then Leaf(Lookup(categories, x))
    else Branch(Lookup(categories, x), TreesOf(categories, kids, Height(LinksOf(rows), x) + 1))
  }

  ghost function TreesOf(categories: seq<Category>, xs: seq<string>, level: nat): (ts: seq<Tree>)
    requires DistinctIds(Rows(categories)) && AtLevel(Rows(categories), xs, level)
    requires forall x :: x in xs ==> x in Ids(categories)
    ensures |ts| == |xs|
    decreases Below(Rows(categories), level), |xs|
  {
    if xs == [] then [] else [TreeOf(categories, xs[0])] + TreesOf(categories, xs[1..], level)
  }

  lemma {:induction false} TreesAt(categories: seq<Category>, xs: seq<string>, level: nat, i: nat)
    requires DistinctIds(Rows(categories)) && AtLevel(Rows(categories), xs, level)
    requires forall x :: x in xs ==> x in Ids(categories)
    requires i < |xs|
    ensures TreesOf(categories, xs, level)[i] == TreeOf(categories, xs[i])
    decreases i
  {
    if i > 0 { TreesAt(categories, xs[1..], level, i - 1); }
  }

  ghost function ForestOf(categories: seq<Category>): seq<Tree>
    requires DistinctIds(Rows(categories))
  {
    RootsAtTop(categories);
    RootsInList(categories);
    TreesOf(categories, Roots(Rows(categories)), 1)
  }

  lemma {:induction false} RootsInList(categories: seq<Category>)
    ensures forall y :: y in Roots(Rows(categories)) ==> y in Ids(categories)
  {
    forall y | y in Roots(Rows(categories))
      ensures y in Ids(categories)
    {
      RootsMember(Rows(categories), y);
      var i :| 0 <= i < |categories| && Rows(categories)[i] == Row(y, None);
      assert categories[i].id == y;
    }
  }

  lemma {:induction false} FlattenTreeOf(categories: seq<Category>, x: string)
    requires DistinctIds(Rows(categories))
    requires x in Ids(categories) && Ends(LinksOf(Rows(categories)), x)
    ensures Flatten(TreeOf(categories, x)) == Preorder(Rows(categories), x)
    ensures NoEmptyLists(TreeOf(categories, x))
    decreases Below(Rows(categories), Height(LinksOf(Rows(categories)), x)), 0
  {
    KidsBelow(Rows(categories), x);
    KidsInList(categories, x);
    HeightBound(LinksOf(Rows(categories)), x);
    FlattenTreesOf(categories, Kids(Rows(categories), x), Height(LinksOf(Rows(categories)), x) + 1);
  }

  lemma {:induction false} FlattenTreesOf(categories: seq<Category>, xs: seq<string>, level: nat)
    requires DistinctIds(Rows(categories)) && AtLevel(Rows(categories), xs, level)
    requires forall x :: x in xs ==> x in Ids(categories)
    ensures FlattenAll(TreesOf(categories, xs, level)) == PreorderAll(Rows(categories), xs, level)
    ensures forall t :: t in TreesOf(categories, xs, level) ==> NoEmptyLists(t)
    decreases Below(Rows(categories), level), |xs|
  {
    if xs != [] {
      FlattenTreeOf(categories, xs[0]);
      FlattenTreesOf(categories, xs[1..], level);
    }
  }

  /** The nested trees hold the flattened forest, and no empty child list remains. */
  lemma {:induction false} ForestFlattens(categories: seq<Category>)
    requires DistinctIds(Rows(categories))
    ensures FlattenAll(ForestOf(categories)) == FlatForest(categories)
    ensures forall t :: t in ForestOf(categories) ==> NoEmptyLists(t)
  {
    RootsAtTop(categories);
    RootsInList(categories);
    FlattenTreesOf(categories, Roots(Rows(categories)), 1);
  }

  // ---- Who is nested under whom ---------------------------------------------------------------------

  /** Some category of the list has this id. */
  ghost predicate Listed(categories: seq<Category>, id: string) {
    exists d :: d in categories && d.id == id
  }

  /** The category names no parent, the empty one, or one that is not listed. */
  ghost predicate Parentless(categories: seq<Category>, c: Category) {
    c.parentId == None || c.parentId == Some("") || !Listed(categories, c.parentId.value)
  }

  /** The categories nested under a listed `p` are those that name it as their parent, in list order. */
  lemma {:induction false} NestedPick(categories: seq<Category>, p: string) returns (at: seq<nat>)
    ensures Picks(IdList(categories), at, Kids(Rows(categories), p))
    ensures forall i: nat :: i in at <==>
              i < |categories| && categories[i].parentId == Some(p) && p != "" && Listed(categories, p)
  {
    at := KidsPick(Rows(categories), p);
    assert RowIds(Rows(categories)) == IdList(categories);
    forall i: nat | i < |categories|
      ensures i in at <==> categories[i].parentId == Some(p) && p != "" && Listed(categories, p)
    {
      ParentIsNamed(categories, i, p);
    }
  }

  lemma {:induction false} RootsPickNext(rows: seq<Row>, at: seq<nat>)
    requires rows != [] && Picks(RowIds(rows[..|rows| - 1]), at, Roots(rows[..|rows| - 1]))
    ensures Picks(RowIds(rows), Taken(at, |rows| - 1, rows[|rows| - 1].parent == None), Roots(rows))
  {
    var front, last := rows[..|rows| - 1], rows[|rows| - 1];
    RowIdsFront(rows);
    PicksAppend(RowIds(front), last.id, at, Roots(front), last.parent.None?);
  }

  lemma {:induction false} RootsPick(rows: seq<Row>) returns (at: seq<nat>)
    ensures Picks(RowIds(rows), at, Roots(rows)) && Naming(rows, None, at)
  {
    at := [];
    if rows != [] {
      at := RootsPick(rows[..|rows| - 1]);
      NamingNext(rows, None, at);
      RootsPickNext(rows, at);
      at := Taken(at, |rows| - 1, rows[|rows| - 1].parent == None);
    }
  }

  /** At the top stand the categories without a listed parent. */
  lemma {:induction false} TopPick(categories: seq<Category>) returns (at: seq<nat>)
    ensures Picks(IdList(categories), at, Roots(Rows(categories)))
    ensures forall i: nat :: i in at <==> i < |categories| && Parentless(categories, categories[i])
  {
    at := RootsPick(Rows(categories));
    assert RowIds(Rows(categories)) == IdList(categories);
    forall i: nat | i < |categories|
      ensures i in at <==> Parentless(categories, categories[i])
    {
      if categories[i].parentId.Some? { ParentIsNamed(categories, i, categories[i].parentId.value); }
    }
  }

  lemma {:induction false} ParentIsNamed(categories: seq<Category>, i: nat, p: string)
    requires i < |categories|
    ensures Rows(categories)[i].parent == Some(p) <==>
              categories[i].parentId == Some(p) && p != "" && Listed(categories, p)
    ensures Rows(categories)[i].parent.Some? ==> categories[i].parentId == Rows(categories)[i].parent
  {
  }

  function CategoriesOf(ts: seq<Tree>): (cs: seq<Category>)
    ensures |cs| == |ts| && forall i :: 0 <= i < |ts| ==> cs[i] == ts[i].category
  {
    seq(|ts|, i requires 0 <= i < |ts| => ts[i].category)
  }

  /** `s` is the tree `t` or lies somewhere in it. */
  ghost predicate Within(t: Tree, s: Tree) {
    s == t || (t.Branch? && exists c :: c in t.children && Within(c, s))
  }

  lemma {:induction false} TreesCarry(categories: seq<Category>, xs: seq<string>, level: nat, at: seq<nat>)
    requires DistinctIds(Rows(categories)) && AtLevel(Rows(categories), xs, level)
    requires forall x :: x in xs ==> x in Ids(categories)
    requires Picks(IdList(categories), at, xs)
    ensures Picks(categories, at, CategoriesOf(TreesOf(categories, xs, level)))
  {
    var ts := TreesOf(categories, xs, level);
    forall i | 0 <= i < |xs|
      ensures ts[i].category == categories[at[i]]
    {
      TreesAt(categories, xs, level, i);
      SameId(categories, Lookup(categories, xs[i]), categories[at[i]]);
    }
  }

  lemma {:induction false} WithinIsTreeOf(categories: seq<Category>, x: string, s: Tree)
    requires DistinctIds(Rows(categories))
    requires x in Ids(categories) && Ends(LinksOf(Rows(categories)), x)
    requires Within(TreeOf(categories, x), s)
    ensures s.category in categories && Ends(LinksOf(Rows(categories)), s.category.id)
    ensures s == TreeOf(categories, s.category.id)
    decreases Below(Rows(categories), Height(LinksOf(Rows(categories)), x))
  {
    var t := TreeOf(categories, x);
    if s != t {
      var c :| c in t.children && Within(c, s);
      var kid := ChildIsTreeOf(categories, x, c);
      WithinIsTreeOf(categories, kid, s);
    }
  }

  lemma {:induction false} ChildIsTreeOf(categories: seq<Category>, x: string, c: Tree) returns (kid: string)
    requires DistinctIds(Rows(categories))
    requires x in Ids(categories) && Ends(LinksOf(Rows(categories)), x)
    requires TreeOf(categories, x).Branch? && c in TreeOf(categories, x).children
    ensures kid in Ids(categories) && Ends(LinksOf(Rows(categories)), kid)
    ensures Below(Rows(categories), Height(LinksOf(Rows(categories)), kid))
          < Below(Rows(categories), Height(LinksOf(Rows(categories)), x))
    ensures c == TreeOf(categories, kid)
  {
    var kids, level := Kids(Rows(categories), x), Height(LinksOf(Rows(categories)), x) + 1;
    KidsBelow(Rows(categories), x);
    KidsInList(categories, x);
    TreeParts(categories, x);
    var i :| 0 <= i < |kids| && TreesOf(categories, kids, level)[i] == c;
    TreesAt(categories, kids, level, i);
    kid := kids[i];
    assert kid in kids;
    LowerIsBelow(Rows(categories), x, kid);
  }

  lemma {:induction false} LowerIsBelow(rows: seq<Row>, x: string, kid: string)
    requires DistinctIds(rows) && Ends(LinksOf(rows), x) && Ends(LinksOf(rows), kid)
    requires Height(LinksOf(rows), kid) == Height(LinksOf(rows), x) + 1
    ensures Below(rows, Height(LinksOf(rows), kid)) < Below(rows, Height(LinksOf(rows), x))
  {
    HeightBound(LinksOf(rows), x);
  }

  /**
   * Below every node of the returned forest stand exactly the categories that name it as their
   * parent, in the order of the list; a node below which there are none has no `children` field.
   */
  lemma {:induction false} ForestNests(categories: seq<Category>, t: Tree, s: Tree) returns (at: seq<nat>)
    requires DistinctIds(Rows(categories))
    requires t in ForestOf(categories) && Within(t, s)
    ensures s.category in categories
    ensures Picks(categories, at, if s.Branch? then CategoriesOf(s.children) else [])
    ensures forall i: nat :: i in at <==>
              i < |categories| && categories[i].parentId == Some(s.category.id) && s.category.id != ""
    ensures s.Leaf? <==> at == []
  {
    var rows := Rows(categories);
    RootsAtTop(categories);
    RootsInList(categories);
    var k :| 0 <= k < |ForestOf(categories)| && ForestOf(categories)[k] == t;
    TreesAt(categories, Roots(rows), 1, k);
    assert Roots(rows)[k] in Roots(rows);
    WithinIsTreeOf(categories, Roots(rows)[k], s);
    at := TreeNests(categories, s.category.id);
    assert Listed(categories, s.category.id);
  }

  lemma {:induction false} TreeNests(categories: seq<Category>, x: string) returns (at: seq<nat>)
    requires DistinctIds(Rows(categories))
    requires x in Ids(categories) && Ends(LinksOf(Rows(categories)), x)
    ensures var s := TreeOf(categories, x);
            && Picks(categories, at, if s.Branch? then CategoriesOf(s.children) else [])
            && (s.Leaf? <==> at == [])
    ensures forall i: nat :: i in at <==>
              i < |categories| && categories[i].parentId == Some(x) && x != "" && Listed(categories, x)
  {
    KidsBelow(Rows(categories), x);
    KidsInList(categories, x);
    TreeParts(categories, x);
    at := NestedPick(categories, x);
    TreesCarry(categories, Kids(Rows(categories), x), Height(LinksOf(Rows(categories)), x) + 1, at);
  }

  /** The returned list itself holds the categories without a listed parent, in the order of the list. */
  lemma {:induction false} ForestTops(categories: seq<Category>) returns (at: seq<nat>)
    requires DistinctIds(Rows(categories))
    ensures Picks(categories, at, CategoriesOf(ForestOf(categories)))
    ensures forall i: nat :: i in at <==> i < |categories| && Parentless(categories, categories[i])
  {
    RootsAtTop(categories);
    RootsInList(categories);
    at := TopPick(categories);
    TreesCarry(categories, Roots(Rows(categories)), 1, at);
  }

  /** The links along which cycles are looked for: from a category to the listed parent it names. */
  lemma {:induction false} LinksAreParents(categories: seq<Category>, x: string, p: string)
    requires DistinctIds(Rows(categories))
    ensures x in LinksOf(Rows(categories)) && LinksOf(Rows(categories))[x] == p <==>
              p != "" && Listed(categories, p) && exists c :: c in categories && c.id == x && c.parentId == Some(p)
  {
    var rows := Rows(categories);
    KidsAreLinked(rows, p);
    KidsMember(rows, p, x);
    if c :| c in categories && c.id == x && c.parentId == Some(p) {
      var i :| 0 <= i < |categories| && categories[i] == c;
      ParentIsNamed(categories, i, p);
      assert Listed(categories, p) && p != "" ==> rows[i] == Row(x, Some(p));
    }
    if Row(x, Some(p)) in rows {
      var i :| 0 <= i < |rows| && rows[i] == Row(x, Some(p));
      ParentIsNamed(categories, i, p);
      assert categories[i] in categories;
    }
  }

  /** The shared mutable copy of a category; `children` is `None` once the field is deleted. */
  class CategoryNode {
    const category: Category
    var children: Option<seq<CategoryNode>>

    constructor (c: Category)
      ensures category == c && children == Some([])
    {
      category := c;
      children := Some([]);
    }
  }

  /** The object graph below `n` shows the tree `t`. */
  ghost predicate Shows(n: CategoryNode, t: Tree, nodes: set<CategoryNode>)
    reads nodes
    decreases t
  {
    && n in nodes
    && n.category == t.category
    && match n.children
       case None => t.Leaf?
       case Some(ns) =>
         && t.Branch? && |ns| == |t.children|
         && forall i :: 0 <= i < |ns| ==> Shows(ns[i], t.children[i], nodes)
  }

  /** What the caller can read off a node: its category, and its children one by one or no `children` at all. */
  lemma {:induction false} ShownNode(n: CategoryNode, t: Tree, nodes: set<CategoryNode>)
    requires Shows(n, t, nodes)
    ensures n.category == t.category && (n.children == None <==> t.Leaf?)
    ensures n.children != None ==>
              && |n.children.value| == |t.children|
              && forall i :: 0 <= i < |t.children| ==> Shows(n.children.value[i], t.children[i], nodes)
  {
  }

  /** Child ids of every category and the ids of the roots, as the second pass collects them. */
  datatype Shape = Shape(kids: map<string, seq<string>>, roots: seq<string>)

  /** Push `id` onto its parent's list, or onto the list of roots. */
  ghost function Attach(s: Shape, id: string, parent: Option<string>): Shape
    requires parent.Some? ==> parent.value in s.kids
  {
    match parent
    case None => s.(roots := s.roots + [id])
    case Some(p) => s.(kids := s.kids[p := s.kids[p] + [id]])
  }

  /** What the second pass has collected after the first `i` categories. */
  ghost function ShapeAfter(categories: seq<Category>, i: nat): (s: Shape)
    requires i <= |categories|
    ensures s.kids.Keys == Ids(categories)
    decreases i
  {
    if i == 0 then Shape(map x | x in Ids(categories) :: [], [])
    else Attach(ShapeAfter(categories, i - 1), categories[i - 1].id, InListParent(categories, categories[i - 1]))
  }

  lemma {:induction false} ShapeAfterIs(categories: seq<Category>, i: nat)
    requires i <= |categories|
    ensures ShapeAfter(categories, i).roots == Roots(Rows(categories)[..i])
    ensures forall x :: x in Ids(categories) ==> ShapeAfter(categories, i).kids[x] == Kids(Rows(categories)[..i], x)
    decreases i
  {
    if i > 0 {
      ShapeAfterIs(categories, i - 1);
      AttachIs(categories, ShapeAfter(categories, i - 1), i - 1);
    }
  }

  lemma {:induction false} AttachIs(categories: seq<Category>, s: Shape, i: nat)
    requires i < |categories| && s.kids.Keys == Ids(categories)
    requires s.roots == Roots(Rows(categories)[..i])
    requires forall x :: x in Ids(categories) ==> s.kids[x] == Kids(Rows(categories)[..i], x)
    ensures var s' := Attach(s, categories[i].id, InListParent(categories, categories[i]));
            && s'.roots == Roots(Rows(categories)[..i + 1])
            && forall x :: x in Ids(categories) ==> s'.kids[x] == Kids(Rows(categories)[..i + 1], x)
  {
    assert Rows(categories)[..i + 1][..i] == Rows(categories)[..i];
  }

  /** Child lists name nodes only. */
  ghost predicate Closed(shape: Shape) {
    && (forall x :: x in shape.kids ==> forall y :: y in shape.kids[x] ==> y in shape.kids)
    && (forall y :: y in shape.roots ==> y in shape.kids)
  }

  lemma {:induction false} ShapeClosed(categories: seq<Category>, i: nat)
    requires i <= |categories|
    ensures Closed(ShapeAfter(categories, i))
    decreases i
  {
    if i > 0 {
      ShapeClosed(categories, i - 1);
      assert categories[i - 1] in categories;
    }
  }

  /** `t` branches as `shape` does. */
  ghost predicate Follows(t: Tree, shape: Shape) {
    && t.category.id in shape.kids
    && match t
       case Leaf(_) => shape.kids[t.category.id] == []
       case Branch(_, ts) =>
         && ts != [] && shape.kids[t.category.id] == IdsOf(ts)
         && forall c | c in ts :: Follows(c, shape)
  }

  ghost function IdsOf(ts: seq<Tree>): (ids: seq<string>)
    ensures |ids| == |ts|
    ensures forall i :: 0 <= i < |ts| ==> ids[i] == ts[i].category.id
  {
    seq(|ts|, i requires 0 <= i < |ts| => ts[i].category.id)
  }

  /** The shape has the child lists of the whole table. */
  ghost predicate Complete(categories: seq<Category>, shape: Shape) {
    && shape.kids.Keys == Ids(categories)
    && forall x :: x in Ids(categories) ==> shape.kids[x] == Kids(Rows(categories), x)
  }

  lemma {:induction false} TreeFollows(categories: seq<Category>, shape: Shape, x: string)
    requires DistinctIds(Rows(categories)) && Complete(categories, shape)
    requires x in Ids(categories) && Ends(LinksOf(Rows(categories)), x)
    ensures Follows(TreeOf(categories, x), shape)
    decreases Below(Rows(categories), Height(LinksOf(Rows(categories)), x)), 0
  {
    var rows := Rows(categories);
    KidsBelow(rows, x);
    KidsInList(categories, x);
    HeightBound(LinksOf(rows), x);
    TreesFollow(categories, shape, Kids(rows, x), Height(LinksOf(rows), x) + 1);
    TreeParts(categories, x);
    assert shape.kids[x] == Kids(rows, x);
  }

  lemma {:induction false} TreesFollow(categories: seq<Category>, shape: Shape, xs: seq<string>, level: nat)
    requires DistinctIds(Rows(categories)) && AtLevel(Rows(categories), xs, level) && Complete(categories, shape)
    requires forall x :: x in xs ==> x in Ids(categories)
    ensures IdsOf(TreesOf(categories, xs, level)) == xs
    ensures forall t | t in TreesOf(categories, xs, level) :: Follows(t, shape)
    decreases Below(Rows(categories), level), |xs|
  {
    var ts := TreesOf(categories, xs, level);
    forall i | 0 <= i < |xs|
      ensures ts[i].category.id == xs[i] && Follows(ts[i], shape)
    {
      TreesAt(categories, xs, level, i);
      TreeFollows(categories, shape, xs[i]);
    }
  }

  ghost function NodesOf(nodes: map<string, CategoryNode>, ids: seq<string>): (ns: seq<CategoryNode>)
    requires forall x :: x in ids ==> x in nodes
    ensures |ns| == |ids|
    ensures forall i :: 0 <= i < |ns| ==> ns[i] == nodes[ids[i]]
  {
    seq(|ids|, i requires 0 <= i < |ids| => nodes[ids[i]])
  }

  /** One node per category, each under its own id. */
  ghost predicate Indexed(shape: Shape, nodes: map<string, CategoryNode>) {
    && Closed(shape) && nodes.Keys == shape.kids.Keys
    && forall x :: x in nodes ==> nodes[x].category.id == x
  }

  /**
   * Every node holds the children the shape gives it, except that an empty child list is gone from
   * the nodes in `pruned`.
   */
  ghost predicate Linked(shape: Shape, nodes: map<string, CategoryNode>, pruned: set<string>)
    requires Indexed(shape, nodes)
    reads nodes.Values
  {
    forall x :: x in nodes ==>
      nodes[x].children ==
        (if x in pruned && shape.kids[x] == [] then None else Some(NodesOf(nodes, shape.kids[x])))
  }

  ghost function TreeIds(t: Tree): set<string> {
    {t.category.id} + if t.Leaf? then {} else TreeIdsAll(t.children)
  }

  ghost function TreeIdsAll(ts: seq<Tree>): set<string> {
    if ts == [] then {} else TreeIdsAll(ts[..|ts| - 1]) + TreeIds(ts[|ts| - 1])
  }

  lemma {:induction false} TreeIdsMember(ts: seq<Tree>, i: nat)
    requires i < |ts|
    ensures TreeIds(ts[i]) <= TreeIdsAll(ts)
  {
    if i < |ts| - 1 { TreeIdsMember(ts[..|ts| - 1], i); }
  }

  /** The categories the nodes carry are those of the tree. */
  ghost predicate Carries(t: Tree, nodes: map<string, CategoryNode>) {
    && t.category.id in nodes && nodes[t.category.id].category == t.category
    && (t.Branch? ==> forall c | c in t.children :: Carries(c, nodes))
  }

  lemma {:induction false} LinkedShows(t: Tree, shape: Shape, nodes: map<string, CategoryNode>, pruned: set<string>)
    requires Indexed(shape, nodes) && Linked(shape, nodes, pruned)
    requires Follows(t, shape) && Carries(t, nodes) && TreeIds(t) <= pruned
    ensures Shows(nodes[t.category.id], t, nodes.Values)
    decreases t
  {
    if t.Branch? {
      forall i | 0 <= i < |t.children|
        ensures Shows(nodes[t.children[i].category.id], t.children[i], nodes.Values)
      {
        TreeIdsMember(t.children, i);
        LinkedShows(t.children[i], shape, nodes, pruned);
      }
    }
  }

  method RemoveEmptyChildren(cat: CategoryNode, ghost t: Tree, ghost shape: Shape,
                             ghost nodes: map<string, CategoryNode>, ghost pruned: set<string>)
    requires Indexed(shape, nodes) && Linked(shape, nodes, pruned)
    requires Follows(t, shape) && nodes[t.category.id] == cat
    modifies nodes.Values
    ensures Linked(shape, nodes, pruned + TreeIds(t))
    decreases t
  {
    if cat.children.Some? && |cat.children.value| == 0 {
      cat.children := None;
    } else if cat.children.Some? && |cat.children.value| > 0 {
      assert t.Branch?;
      RemoveFromAll(cat.children.value, t.children, shape, nodes, pruned + {t.category.id});
      assert pruned + {t.category.id} + TreeIdsAll(t.children) == pruned + TreeIds(t);
    } else {
      assert t.Leaf?;
    }
  }

  /** The `forEach(removeEmptyChildren)` loop, over the roots or over a node's children. */
  method RemoveFromAll(cats: seq<CategoryNode>, ghost ts: seq<Tree>, ghost shape: Shape,
                       ghost nodes: map<string, CategoryNode>, ghost pruned: set<string>)
    requires Indexed(shape, nodes) && Linked(shape, nodes, pruned)
    requires forall c | c in ts :: Follows(c, shape)
    requires |cats| == |ts|
    requires forall i :: 0 <= i < |ts| ==> ts[i].category.id in nodes && cats[i] == nodes[ts[i].category.id]
    modifies nodes.Values
    ensures Linked(shape, nodes, pruned + TreeIdsAll(ts))
    decreases ts
  {
    ghost var walked := pruned;
    for i := 0 to |cats|
      invariant walked == pruned + TreeIdsAll(ts[..i])
      invariant Linked(shape, nodes, walked)
    {
      RemoveEmptyChildren(cats[i], ts[i], shape, nodes, walked);
      assert ts[..i + 1][..i] == ts[..i];
      walked := walked + TreeIds(ts[i]);
    }
    assert ts[..|cats|] == ts;
  }

  /** First pass: a fresh node for every category, filed under its id. */
  method CreateNodes(categories: seq<Category>) returns (categoryMap: map<string, CategoryNode>)
    ensures categoryMap.Keys == Ids(categories)
    ensures fresh(categoryMap.Values)
    ensures forall x :: x in categoryMap ==>
              && categoryMap[x].category in categories && categoryMap[x].category.id == x
              && categoryMap[x].children == Some([])
  {
    categoryMap := map[];
    for i := 0 to |categories|
      invariant categoryMap.Keys == Ids(categories[..i])
      invariant forall x :: x in categoryMap ==>
        categoryMap[x].category in categories && categoryMap[x].category.id == x && categoryMap[x].children == Some([])
      invariant forall x :: x in categoryMap ==> fresh(categoryMap[x])
    {
      var node := new CategoryNode(categories[i]);
      assert categories[..i + 1] == categories[..i] + [categories[i]];
      categoryMap := categoryMap[categories[i].id := node];
    }
    assert categories[..|categories|] == categories;
  }

  method PushChild(parent: CategoryNode, child: CategoryNode, ghost shape: Shape,
      ghost nodes: map<string, CategoryNode>,
                   ghost p: string, ghost id: string)
    requires Indexed(shape, nodes) && Linked(shape, nodes, {})
    requires p in nodes && nodes[p] == parent && id in nodes && nodes[id] == child
    modifies parent
    ensures Indexed(Attach(shape, id, Some(p)), nodes) && Linked(Attach(shape, id, Some(p)), nodes, {})
  {
    assert NodesOf(nodes, shape.kids[p] + [id]) == NodesOf(nodes, shape.kids[p]) + [child];
    parent.children := Some(parent.children.value + [child]);
  }

  /** One turn of the second pass. */
  method PlaceNode(category: Category, categoryMap: map<string, CategoryNode>, roots: seq<CategoryNode>,
      ghost shape: Shape)
    returns (rootCategories: seq<CategoryNode>)
    requires Indexed(shape, categoryMap) && Linked(shape, categoryMap, {})
    requires category.id in categoryMap && roots == NodesOf(categoryMap, shape.roots)
    modifies categoryMap.Values
    ensures Indexed(Attach(shape, category.id, ParentIn(categoryMap.Keys, category)), categoryMap)
    ensures Linked(Attach(shape, category.id, ParentIn(categoryMap.Keys, category)), categoryMap, {})
    ensures rootCategories
         == NodesOf(categoryMap, Attach(shape, category.id, ParentIn(categoryMap.Keys, category)).roots)
  {
    rootCategories := roots;
    var categoryWithChildren := categoryMap[category.id];
    assert NodesOf(categoryMap, shape.roots + [category.id]) == roots + [categoryWithChildren];
    if category.parentId.Some? && category.parentId.value != "" {
      if category.parentId.value in categoryMap {
        var parent := categoryMap[category.parentId.value];
        PushChild(parent, categoryWithChildren, shape, categoryMap, category.parentId.value, category.id);
      } else {
        rootCategories := rootCategories + [categoryWithChildren];
      }
    } else {
      rootCategories := rootCategories + [categoryWithChildren];
    }
  }

  /** The shapes the second pass goes through, from no links to all of them. */
  ghost predicate ShapeRun(categories: seq<Category>, ids: set<string>, shapes: seq<Shape>) {
    && |shapes| == |categories| + 1
    && shapes[0].roots == [] && shapes[0].kids.Keys == ids && (forall x :: x in ids ==> shapes[0].kids[x] == [])
    && (forall i :: 0 <= i < |categories| ==> categories[i].id in ids)
    && (forall i :: 0 <= i <= |categories| ==> Closed(shapes[i]) && shapes[i].kids.Keys == ids)
    && forall i :: 0 < i <= |categories| ==>
         shapes[i] == Attach(shapes[i - 1], categories[i - 1].id, ParentIn(ids, categories[i - 1]))
  }

  lemma {:induction false} ShapeRunExists(categories: seq<Category>) returns (shapes: seq<Shape>)
    ensures ShapeRun(categories, Ids(categories), shapes)
    ensures shapes[|categories|] == ShapeAfter(categories, |categories|)
  {
    var n := |categories|;
    shapes := ShapesUpTo(categories, n);
    ShapesAt(categories, n, 0);
    ShapesAt(categories, n, n);
    forall i | 0 <= i <= n
      ensures Closed(shapes[i]) && shapes[i].kids.Keys == Ids(categories)
    {
      ShapesAt(categories, n, i);
      ShapeClosed(categories, i);
    }
    forall i | 0 < i <= n
      ensures shapes[i] == Attach(shapes[i - 1], categories[i - 1].id, ParentIn(Ids(categories), categories[i - 1]))
    {
      ShapesAt(categories, n, i);
      ShapesAt(categories, n, i - 1);
    }
  }

  lemma {:induction false} ShapesAt(categories: seq<Category>, n: nat, i: nat)
    requires i <= n <= |categories|
    ensures ShapesUpTo(categories, n)[i] == ShapeAfter(categories, i)
    decreases n
  {
    if i < n { ShapesAt(categories, n - 1, i); }
  }

  ghost function ShapesUpTo(categories: seq<Category>, n: nat): (shapes: seq<Shape>)
    requires n <= |categories|
    ensures |shapes| == n + 1
    decreases n
  {
    if n == 0 then [ShapeAfter(categories, 0)] else ShapesUpTo(categories, n - 1) + [ShapeAfter(categories, n)]
  }

  /** Second pass: every node is pushed into its parent's list, or into the list of roots. */
  method LinkNodes(categories: seq<Category>, categoryMap: map<string, CategoryNode>, ghost shapes: seq<Shape>)
    returns (rootCategories: seq<CategoryNode>)
    requires ShapeRun(categories, categoryMap.Keys, shapes)
    requires forall x :: x in categoryMap ==> categoryMap[x].category.id == x && categoryMap[x].children == Some([])
    modifies categoryMap.Values
    ensures Indexed(shapes[|categories|], categoryMap)
    ensures Linked(shapes[|categories|], categoryMap, {})
    ensures rootCategories == NodesOf(categoryMap, shapes[|categories|].roots)
  {
    rootCategories := [];
    for i := 0 to |categories|
      invariant Indexed(shapes[i], categoryMap) && Linked(shapes[i], categoryMap, {})
      invariant rootCategories == NodesOf(categoryMap, shapes[i].roots)
    {
      rootCategories := PlaceNode(categories[i], categoryMap, rootCategories, shapes[i]);
    }
  }

  lemma {:induction false} ForestCarried(categories: seq<Category>, x: string, nodes: map<string, CategoryNode>)
    requires DistinctIds(Rows(categories))
    requires x in Ids(categories) && Ends(LinksOf(Rows(categories)), x)
    requires nodes.Keys == Ids(categories)
    requires forall y :: y in nodes ==> nodes[y].category in categories && nodes[y].category.id == y
    ensures Carries(TreeOf(categories, x), nodes)
    decreases Below(Rows(categories), Height(LinksOf(Rows(categories)), x))
  {
    var kids, level := Kids(Rows(categories), x), Height(LinksOf(Rows(categories)), x) + 1;
    KidsBelow(Rows(categories), x);
    KidsInList(categories, x);
    HeightBound(LinksOf(Rows(categories)), x);
    SameId(categories, nodes[x].category, Lookup(categories, x));
    var ts := TreesOf(categories, kids, level);
    forall c | c in ts
      ensures Carries(c, nodes)
    {
      var i :| 0 <= i < |ts| && ts[i] == c;
      assert kids[i] in kids && Height(LinksOf(Rows(categories)), kids[i]) == level;
      ForestCarried(categories, kids[i], nodes);
      TreesAt(categories, kids, level, i);
    }
    TreeParts(categories, x);
  }

  lemma {:induction false} TreeParts(categories: seq<Category>, x: string)
    requires DistinctIds(Rows(categories))
    requires x in Ids(categories) && Ends(LinksOf(Rows(categories)), x)
    requires AtLevel(Rows(categories), Kids(Rows(categories), x), Height(LinksOf(Rows(categories)), x) + 1)
    requires forall y :: y in Kids(Rows(categories), x) ==> y in Ids(categories)
    ensures TreeOf(categories, x).category == Lookup(categories, x)
    ensures TreeOf(categories, x).Leaf? <==> Kids(Rows(categories), x) == []
    ensures TreeOf(categories, x).Branch? ==>
              TreeOf(categories, x).children ==
                TreesOf(categories, Kids(Rows(categories), x), Height(LinksOf(Rows(categories)), x) + 1)
  {
  }

  lemma {:induction false} SameId(categories: seq<Category>, c: Category, d: Category)
    requires DistinctIds(Rows(categories))
    requires c in categories && d in categories && c.id == d.id
    ensures c == d
  {
  }

  /** The roots of the shape are those of the forest, and its trees branch as the shape does. */
  lemma {:induction false} ForestFollows(categories: seq<Category>, nodes: map<string, CategoryNode>)
    requires DistinctIds(Rows(categories))
    requires nodes.Keys == Ids(categories)
    requires forall y :: y in nodes ==> nodes[y].category in categories && nodes[y].category.id == y
    ensures IdsOf(ForestOf(categories)) == ShapeAfter(categories, |categories|).roots
    ensures forall t | t in ForestOf(categories) ::
              Follows(t, ShapeAfter(categories, |categories|)) && Carries(t, nodes)
  {
    var roots := Roots(Rows(categories));
    RootsAtTop(categories);
    RootsInList(categories);
    ShapeAfterIs(categories, |categories|);
    assert Rows(categories)[..|categories|] == Rows(categories);
    TreesFollow(categories, ShapeAfter(categories, |categories|), roots, 1);
    forall i | 0 <= i < |roots|
      ensures Carries(TreesOf(categories, roots, 1)[i], nodes)
    {
      ForestCarried(categories, roots[i], nodes);
      TreesAt(categories, roots, 1, i);
    }
  }

  /** The second pass and the clean-up, over the roots `ts` stands for. */
  method LinkAndPrune(categories: seq<Category>, categoryMap: map<string, CategoryNode>,
                      ghost shapes: seq<Shape>, ghost ts: seq<Tree>)
    returns (rootCategories: seq<CategoryNode>)
    requires ShapeRun(categories, categoryMap.Keys, shapes)
    requires forall x :: x in categoryMap ==> categoryMap[x].category.id == x && categoryMap[x].children == Some([])
    requires IdsOf(ts) == shapes[|categories|].roots
    requires forall c | c in ts :: Follows(c, shapes[|categories|]) && Carries(c, categoryMap)
    modifies categoryMap.Values
    ensures |rootCategories| == |ts|
    ensures forall i :: 0 <= i < |ts| ==> Shows(rootCategories[i], ts[i], categoryMap.Values)
  {
    rootCategories := LinkNodes(categories, categoryMap, shapes);
    ghost var shape := shapes[|categories|];
    assert forall i :: 0 <= i < |ts| ==> ts[i].category.id == shape.roots[i];
    RemoveFromAll(rootCategories, ts, shape, categoryMap, {});
    forall i | 0 <= i < |ts|
      ensures Shows(rootCategories[i], ts[i], categoryMap.Values)
    {
      TreeIdsMember(ts, i);
      LinkedShows(ts[i], shape, categoryMap, {} + TreeIdsAll(ts));
    }
  }

  /** The nodes handed back show exactly the forest of the input. */
  method BuildCategoryHierarchy(categories: seq<Category>)
    returns (rootCategories: seq<CategoryNode>, ghost nodes: map<string, CategoryNode>)
    requires DistinctIds(Rows(categories))
    ensures fresh(nodes.Values)
    ensures |rootCategories| == |ForestOf(categories)|
    ensures forall i :: 0 <= i < |rootCategories| ==>
              Shows(rootCategories[i], ForestOf(categories)[i], nodes.Values)
  {
    var categoryMap := CreateNodes(categories);
    nodes := categoryMap;
    ForestFollows(categories, nodes);
    ghost var shapes := ShapeRunExists(categories);
    rootCategories := LinkAndPrune(categories, categoryMap, shapes, ForestOf(categories));
  }
}
