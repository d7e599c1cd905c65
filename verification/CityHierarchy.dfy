/**
 * The city hierarchy service: a recursive descent through active children, an upward walk that
 * ignores `isActive`, and the closure of a set of cities under the descent. The table is a list of
 * rows in the order the database returns them.
 */
module CityHierarchy {
  import opened Common
  import opened ParentChains
  import opened Forest

  datatype City = City(id: string, name: string, parentCityId: Option<string>, isActive: bool)

  function Rows(cities: seq<City>): seq<Row> {
    if cities == [] then []
    else
      var last := cities[|cities| - 1];
      Rows(cities[..|cities| - 1]) + [Row(last.id, last.parentCityId)]
  }

  /** The rows the descent sees: inactive cities are filtered out by the query. */
  function ActiveRows(cities: seq<City>): seq<Row> {
    if cities == [] then []
    else
      var last := cities[|cities| - 1];
      ActiveRows(cities[..|cities| - 1]) + if last.isActive then [Row(last.id, last.parentCityId)] else []
  }

  ghost predicate UniqueIds(cities: seq<City>) {
    forall i, j :: 0 <= i < j < |cities| ==> cities[i].id != cities[j].id
  }

  /** The primary key holds and no city is its own ancestor. */
  ghost predicate ValidTable(cities: seq<City>) {
    && UniqueIds(cities)
    && DistinctIds(Rows(cities)) && DistinctIds(ActiveRows(cities))
    && Acyclic(LinksOf(Rows(cities)))
  }

  lemma {:induction false} RowsAre(cities: seq<City>)
    ensures |Rows(cities)| == |cities|
    ensures forall i :: 0 <= i < |cities| ==> Rows(cities)[i] == Row(cities[i].id, cities[i].parentCityId)
  {
    if cities != [] { RowsAre(cities[..|cities| - 1]); }
  }

  lemma {:induction false} ActiveRowsAre(cities: seq<City>)
    ensures forall r :: r in ActiveRows(cities) <==>
              exists c :: c in cities && c.isActive && r == Row(c.id, c.parentCityId)
    ensures UniqueIds(cities) ==> DistinctIds(ActiveRows(cities))
  {
    if cities != [] {
      var n := |cities| - 1;
      var front := cities[..n];
      ActiveRowsAre(front);
      assert cities == front + [cities[n]];
      if UniqueIds(cities) {
        forall i | 0 <= i < |ActiveRows(front)|
          ensures ActiveRows(front)[i].id != cities[n].id
        {
          assert ActiveRows(front)[i] in ActiveRows(front);
          var c :| c in front && c.isActive && ActiveRows(front)[i] == Row(c.id, c.parentCityId);
          var k :| 0 <= k < n && front[k] == c;
        }
      }
    }
  }

  /** The primary key and the absence of cycles are all that `ValidTable` asks. */
  lemma {:induction false} ValidTableMeans(cities: seq<City>)
    requires UniqueIds(cities)
    ensures DistinctIds(Rows(cities)) && DistinctIds(ActiveRows(cities))
    ensures ValidTable(cities) <==> Acyclic(LinksOf(Rows(cities)))
  {
    RowsAre(cities);
    ActiveRowsAre(cities);
  }

  ghost predicate Listed(cities: seq<City>, id: string) {
    exists c :: c in cities && c.id == id
  }

  ghost function Find(cities: seq<City>, id: string): (c: City)
    requires Listed(cities, id)
    ensures c in cities && c.id == id
  {
    var c :| c in cities && c.id == id;
    c
  }

  lemma {:induction false} FindUnique(cities: seq<City>, c: City)
    requires UniqueIds(cities) && c in cities
    ensures Listed(cities, c.id) && Find(cities, c.id) == c
  {
  }

  lemma {:induction false} LinkIs(cities: seq<City>, id: string)
    requires ValidTable(cities)
    ensures id in LinksOf(Rows(cities)) <==> Listed(cities, id) && Find(cities, id).parentCityId.Some?
    ensures id in LinksOf(Rows(cities)) ==> LinksOf(Rows(cities))[id] == Find(cities, id).parentCityId.value
  {
    var rows := Rows(cities);
    RowsAre(cities);
    if id in LinksOf(rows) {
      var r :| r in rows && r.parent.Some? && r.id == id && r.parent.value == LinksOf(rows)[id];
      var i :| 0 <= i < |rows| && rows[i] == r;
      FindUnique(cities, cities[i]);
    }
    if Listed(cities, id) && Find(cities, id).parentCityId.Some? {
      var i :| 0 <= i < |cities| && cities[i] == Find(cities, id);
      assert rows[i] in rows;
    }
  }

  lemma {:induction false} ActiveLinkIs(cities: seq<City>, id: string)
    requires ValidTable(cities)
    ensures id in LinksOf(ActiveRows(cities)) <==>
              Listed(cities, id) && Find(cities, id).isActive && Find(cities, id).parentCityId.Some?
    ensures id in LinksOf(ActiveRows(cities)) ==>
              LinksOf(ActiveRows(cities))[id] == Find(cities, id).parentCityId.value
  {
    var rows := ActiveRows(cities);
    ActiveRowsAre(cities);
    if id in LinksOf(rows) {
      var r :| r in rows && r.parent.Some? && r.id == id && r.parent.value == LinksOf(rows)[id];
      var c :| c in cities && c.isActive && r == Row(c.id, c.parentCityId);
      FindUnique(cities, c);
    }
    if Listed(cities, id) && Find(cities, id).isActive && Find(cities, id).parentCityId.Some? {
      assert Row(id, Find(cities, id).parentCityId) in rows;
    }
  }

  lemma {:induction false} ActiveAcyclic(cities: seq<City>)
    requires ValidTable(cities)
    ensures Acyclic(LinksOf(ActiveRows(cities)))
    ensures forall x :: Ends(LinksOf(ActiveRows(cities)), x) && Ends(LinksOf(Rows(cities)), x)
  {
    forall y | y in LinksOf(ActiveRows(cities))
      ensures y in LinksOf(Rows(cities)) && LinksOf(Rows(cities))[y] == LinksOf(ActiveRows(cities))[y]
    {
      ActiveLinkIs(cities, y);
      LinkIs(cities, y);
    }
    AcyclicSub(LinksOf(ActiveRows(cities)), LinksOf(Rows(cities)));
    forall x
      ensures Ends(LinksOf(ActiveRows(cities)), x) && Ends(LinksOf(Rows(cities)), x)
    {
      AcyclicEnds(LinksOf(ActiveRows(cities)), x);
      AcyclicEnds(LinksOf(Rows(cities)), x);
    }
  }

  // ---- The descent ----------------------------------------------------------------------------

  /** What `getChildCities(cityId, true)` collects: everything below `cityId`, depth first. */
  ghost function Descendants(cities: seq<City>, cityId: string): seq<string>
    requires ValidTable(cities)
  {
    ActiveAcyclic(cities);
    Beneath(ActiveRows(cities), cityId)
  }

  /** `k` steps up from `d` lie on `c`, and every city strictly below `c` on the way is active. */
  ghost predicate ActiveChain(cities: seq<City>, d: string, c: string, k: nat)
    requires ValidTable(cities)
  {
    && Up(LinksOf(Rows(cities)), d, k) == Some(c)
    && forall j: nat :: j < k ==> ActiveAt(cities, d, j)
  }

  ghost predicate ActiveAt(cities: seq<City>, d: string, j: nat)
    requires ValidTable(cities)
  {
    var x := Up(LinksOf(Rows(cities)), d, j);
    x.Some? && Listed(cities, x.value) && Find(cities, x.value).isActive
  }

  ghost function ActiveIds(cities: seq<City>): set<string> {
    set c | c in cities && c.isActive :: c.id
  }

  lemma {:induction false} ActiveIdsAre(cities: seq<City>, x: string)
    requires ValidTable(cities)
    ensures x in ActiveIds(cities) <==> Listed(cities, x) && Find(cities, x).isActive
  {
    if c :| c in cities && c.isActive && c.id == x { FindUnique(cities, c); }
  }

  lemma {:induction false} ActiveLinkKept(cities: seq<City>, y: string)
    requires ValidTable(cities)
    ensures var sub, links := LinksOf(ActiveRows(cities)), LinksOf(Rows(cities));
            && (y in sub <==> y in links && y in ActiveIds(cities))
            && (y in sub ==> y in links && sub[y] == links[y])
  {
    LinkIs(cities, y);
    ActiveLinkIs(cities, y);
    ActiveIdsAre(cities, y);
  }

  lemma {:induction false} ActiveIsRestricted(cities: seq<City>)
    requires ValidTable(cities)
    ensures Restricted(LinksOf(ActiveRows(cities)), LinksOf(Rows(cities)), ActiveIds(cities))
    ensures forall x :: x in ActiveIds(cities) <==> Listed(cities, x) && Find(cities, x).isActive
  {
    var sub, links, kept := LinksOf(ActiveRows(cities)), LinksOf(Rows(cities)), ActiveIds(cities);
    forall y
      ensures y in sub <==> y in links && y in kept
    {
      ActiveLinkKept(cities, y);
    }
    forall y | y in sub
      ensures sub[y] == links[y]
    {
      ActiveLinkKept(cities, y);
    }
    forall x
      ensures x in ActiveIds(cities) <==> Listed(cities, x) && Find(cities, x).isActive
    {
      ActiveIdsAre(cities, x);
    }
  }

  lemma {:induction false} ActiveChainIsUp(cities: seq<City>, d: string, c: string, k: nat)
    requires ValidTable(cities)
    ensures ActiveChain(cities, d, c, k) <==> Up(LinksOf(ActiveRows(cities)), d, k) == Some(c)
  {
    var all, active := LinksOf(Rows(cities)), LinksOf(ActiveRows(cities));
    ActiveIsRestricted(cities);
    UpRestricted(active, all, ActiveIds(cities), d, c, k);
    assert forall j: nat :: ActiveAt(cities, d, j) <==> KeptAt(all, ActiveIds(cities), d, j);
  }

  /** The descent finds exactly the cities tied to `c` by a nonempty chain of active children. */
  lemma {:induction false} DescendantsExactly(cities: seq<City>, c: string, d: string)
    requires ValidTable(cities)
    ensures d in Descendants(cities, c) <==> exists k: nat :: k > 0 && ActiveChain(cities, d, c, k)
  {
    var rows, links := ActiveRows(cities), LinksOf(ActiveRows(cities));
    ActiveAcyclic(cities);
    PreorderMember(rows, c, d);
    PreorderDistinct(rows, c);
    var walk := Preorder(rows, c);
    assert walk[0] == c;
    if d in walk[1..] {
      var i :| 1 <= i < |walk| && walk[i] == d;
      assert d != c;
      var k: nat :| Up(links, d, k) == Some(c);
      ActiveChainIsUp(cities, d, c, k);
    }
    if k: nat :| k > 0 && ActiveChain(cities, d, c, k) {
      ActiveChainIsUp(cities, d, c, k);
      AcyclicMeansNoCycle(links);
      assert d != c;
    }
  }

  /** The descent lists no city twice, and never the city it starts from. */
  lemma {:induction false} DescendantsDistinct(cities: seq<City>, c: string)
    requires ValidTable(cities)
    ensures Distinct(Descendants(cities, c)) && c !in Descendants(cities, c)
  {
    ActiveAcyclic(cities);
    PreorderDistinct(ActiveRows(cities), c);
    var walk := Preorder(ActiveRows(cities), c);
    assert walk[0] == c;
  }

  /** Depth first: the cities below any city found stand right after it, as one block. */
  lemma {:induction false} DescendantsDepthFirst(cities: seq<City>, c: string, d: string)
    returns (a: seq<string>, b: seq<string>)
    requires ValidTable(cities)
    requires d in Descendants(cities, c)
    ensures Descendants(cities, c) == a + [d] + Descendants(cities, d) + b
  {
    var rows := ActiveRows(cities);
    ActiveAcyclic(cities);
    DescendantsDistinct(cities, c);
    a, b := SubtreeIsBlock(rows, c, d);
    assert Preorder(rows, d) == [d] + Descendants(cities, d);
    var walk := a + Preorder(rows, d) + b;
    assert walk[0] == c && d != c;
    a := a[1..];
    assert walk[1..] == a + [d] + Descendants(cities, d) + b;
  }

  /** `at` are the places of the active cities directly below `p`. */
  ghost predicate ChildrenAt(cities: seq<City>, p: string, at: seq<nat>) {
    forall i: nat :: i in at <==> i < |cities| && cities[i].isActive && cities[i].parentCityId == Some(p)
  }

  lemma {:induction false} ChildrenAtNext(cities: seq<City>, p: string, at: seq<nat>)
    requires cities != [] && ChildrenAt(cities[..|cities| - 1], p, at)
    ensures var last := cities[|cities| - 1];
            ChildrenAt(cities, p, Taken(at, |cities| - 1, last.isActive && last.parentCityId == Some(p)))
  {
  }

  function CityIds(cities: seq<City>): (ids: seq<string>)
    ensures |ids| == |cities| && forall i :: 0 <= i < |cities| ==> ids[i] == cities[i].id
  {
    seq(|cities|, i requires 0 <= i < |cities| => cities[i].id)
  }

  lemma {:induction false} ChildrenNext(cities: seq<City>, p: string)
    requires cities != []
    ensures var front, last := cities[..|cities| - 1], cities[|cities| - 1];
            && CityIds(cities) == CityIds(front) + [last.id]
            && Kids(ActiveRows(cities), p) == Kids(ActiveRows(front), p)
                 + if last.isActive && last.parentCityId == Some(p) then [last.id] else []
  {
    ActiveKidsNext(cities, |cities| - 1, p);
    assert cities[..|cities|] == cities;
  }

  /** `at` are the places of the active cities directly below `p`, and `ids` are their ids. */
  ghost predicate ChildrenPicked(cities: seq<City>, p: string, ids: seq<string>, at: seq<nat>) {
    Picks(CityIds(cities), at, ids) && ChildrenAt(cities, p, at)
  }

  lemma {:induction false} ChildrenPickedNext(cities: seq<City>, p: string, ids: seq<string>, at: seq<nat>)
    requires cities != [] && ChildrenPicked(cities[..|cities| - 1], p, ids, at)
    requires CityIds(cities) == CityIds(cities[..|cities| - 1]) + [cities[|cities| - 1].id]
    ensures var last := cities[|cities| - 1];
            var takes := last.isActive && last.parentCityId == Some(p);
            ChildrenPicked(cities, p, if takes then ids + [last.id] else ids, Taken(at, |cities| - 1, takes))
  {
    var last := cities[|cities| - 1];
    ChildrenAtNext(cities, p, at);
    PicksAppend(CityIds(cities[..|cities| - 1]), last.id, at, ids, last.isActive && last.parentCityId == Some(p));
  }

  /** Without recursion: the active cities that name `p` as their parent, in table order. */
  lemma {:induction false} DirectChildren(cities: seq<City>, p: string) returns (at: seq<nat>)
    ensures ChildrenPicked(cities, p, Kids(ActiveRows(cities), p), at)
  {
    at := [];
    if cities != [] {
      var front, last := cities[..|cities| - 1], cities[|cities| - 1];
      at := DirectChildren(front, p);
      ChildrenNext(cities, p);
      ChildrenPickedNext(cities, p, Kids(ActiveRows(front), p), at);
      at := Taken(at, |front|, last.isActive && last.parentCityId == Some(p));
    }
  }

  /** Each of these cities, followed by everything below it. */
  ghost function Blocks(cities: seq<City>, xs: seq<string>): seq<string>
    requires ValidTable(cities)
  {
    if xs == [] then []
    else Blocks(cities, xs[..|xs| - 1]) + [xs[|xs| - 1]] + Descendants(cities, xs[|xs| - 1])
  }

  lemma {:induction false} GatheredIsBlocks(cities: seq<City>, xs: seq<string>, n: nat)
    requires ValidTable(cities) && n <= |xs|
    requires forall x :: x in xs ==> Ends(LinksOf(ActiveRows(cities)), x)
    ensures Gathered(ActiveRows(cities), xs, n) == Blocks(cities, xs[..n])
    decreases n
  {
    if n > 0 {
      GatheredIsBlocks(cities, xs, n - 1);
      assert xs[..n][..n - 1] == xs[..n - 1];
    }
  }

  /** With recursion: the direct children in table order, each followed by everything below it. */
  lemma {:induction false} DescendantsByChild(cities: seq<City>, c: string)
    requires ValidTable(cities)
    ensures Descendants(cities, c) == Blocks(cities, Kids(ActiveRows(cities), c))
  {
    var rows, kids := ActiveRows(cities), Kids(ActiveRows(cities), c);
    ActiveAcyclic(cities);
    GatheredAll(rows, c);
    GatheredIsBlocks(cities, kids, |kids|);
    assert kids[..|kids|] == kids;
  }

  lemma {:induction false} ActiveKidsNext(cities: seq<City>, i: nat, p: string)
    requires i < |cities|
    ensures Kids(ActiveRows(cities[..i + 1]), p) == Kids(ActiveRows(cities[..i]), p)
              + if cities[i].isActive && cities[i].parentCityId == Some(p) then [cities[i].id] else []
  {
    var before, after := ActiveRows(cities[..i]), ActiveRows(cities[..i + 1]);
    assert cities[..i + 1][..i] == cities[..i];
    assert cities[..i + 1][i] == cities[i];
    if cities[i].isActive {
      assert after == before + [Row(cities[i].id, cities[i].parentCityId)];
      assert after[..|after| - 1] == before;
    } else {
      assert after == before;
    }
  }

  /** What one call of the closure adds. */
  ghost function Found(rows: seq<Row>, x: string, recursive: bool): seq<string>
    requires DistinctIds(rows) && Ends(LinksOf(rows), x)
  {
    if recursive then Beneath(rows, x) else Kids(rows, x)
  }

  /** What `n` turns of its loop add. */
  ghost function Collected(rows: seq<Row>, xs: seq<string>, n: nat, recursive: bool): seq<string>
    requires DistinctIds(rows) && n <= |xs|
    requires forall x :: x in xs ==> Ends(LinksOf(rows), x)
  {
    if recursive then Gathered(rows, xs, n) else xs[..n]
  }

  lemma {:induction false} CollectedNext(before: seq<string>, rows: seq<Row>, xs: seq<string>, n: nat, recursive: bool)
    requires DistinctIds(rows) && n < |xs|
    requires forall x :: x in xs ==> Ends(LinksOf(rows), x)
    ensures before + Collected(rows, xs, n, recursive) + [xs[n]] + (if recursive then Beneath(rows, xs[n]) else [])
         == before + Collected(rows, xs, n + 1, recursive)
  {
  }

  lemma {:induction false} CollectedAll(rows: seq<Row>, x: string, recursive: bool)
    requires DistinctIds(rows) && Ends(LinksOf(rows), x)
    requires forall y :: y in Kids(rows, x) ==> Ends(LinksOf(rows), y)
    ensures Collected(rows, Kids(rows, x), |Kids(rows, x)|, recursive) == Found(rows, x, recursive)
  {
    if recursive { GatheredAll(rows, x); }
  }

  /** The array a call of `getChildCities` closes over. */
  class ChildCollector {
    const cities: seq<City>
    var childCityIds: seq<string>

    constructor (cities: seq<City>)
      ensures this.cities == cities && childCityIds == []
    {
      this.cities := cities;
      childCityIds := [];
    }

    /** The query of one level: active rows with this parent. */
    method FindMany(parentId: string) returns (children: seq<string>)
      ensures children == Kids(ActiveRows(cities), parentId)
    {
      children := [];
      for i := 0 to |cities|
        invariant children == Kids(ActiveRows(cities[..i]), parentId)
      {
        ActiveKidsNext(cities, i, parentId);
        if cities[i].isActive && cities[i].parentCityId == Some(parentId) {
          children := children + [cities[i].id];
        }
      }
      assert cities[..|cities|] == cities;
    }

    method GetChildren(parentId: string, recursive: bool, ghost rows: seq<Row>)
      requires rows == ActiveRows(cities)
      requires DistinctIds(rows) && Ends(LinksOf(rows), parentId)
      modifies this
      ensures childCityIds == old(childCityIds) + Found(rows, parentId, recursive)
      decreases Below(rows, Height(LinksOf(rows), parentId)), 0
    {
      KidsBelow(rows, parentId);
      HeightBound(LinksOf(rows), parentId);
      var children := FindMany(parentId);
      for i := 0 to |children|
        invariant childCityIds == old(childCityIds) + Collected(rows, children, i, recursive)
      {
        assert children[i] in children;
        VisitChild(children[i], recursive, rows);
        CollectedNext(old(childCityIds), rows, children, i, recursive);
      }
      CollectedAll(rows, parentId, recursive);
    }

    /** One turn of the loop over the children. */
    method VisitChild(child: string, recursive: bool, ghost rows: seq<Row>)
      requires rows == ActiveRows(cities)
      requires DistinctIds(rows) && Ends(LinksOf(rows), child)
      modifies this
      ensures childCityIds == old(childCityIds) + [child] + if recursive then Beneath(rows, child) else []
      decreases Below(rows, Height(LinksOf(rows), child)), 1
    {
      childCityIds := childCityIds + [child];
      if recursive {
        GetChildren(child, recursive, rows);
      }
    }
  }

  method GetChildCities(cities: seq<City>, cityId: string, recursive: bool := true) returns (childCityIds: seq<string>)
    requires ValidTable(cities)
    ensures childCityIds == if recursive then Descendants(cities, cityId) else Kids(ActiveRows(cities), cityId)
  {
    ActiveAcyclic(cities);
    var collector := new ChildCollector(cities);
    collector.GetChildren(cityId, recursive, ActiveRows(cities));
    childCityIds := collector.childCityIds;
  }

  // ---- The upward walk ------------------------------------------------------------------------

  /** What `getCityPath` returns: the listed part of the parent chain, top first. */
  ghost function PathTo(cities: seq<City>, cityId: Option<string>): seq<City>
    requires ValidTable(cities)
    decreases StepsLeft(cities, cityId)
  {
    if cityId.None? || cityId.value == "" || !Listed(cities, cityId.value) then []
    else
      var city := Find(cities, cityId.value);
      StepsShrink(cities, city);
      PathTo(cities, city.parentCityId) + [city]
  }

  ghost function StepsLeft(cities: seq<City>, cityId: Option<string>): nat
    requires ValidTable(cities)
  {
    match cityId
    case None => 0
    case Some(x) =>
      ActiveAcyclic(cities);
      Height(LinksOf(Rows(cities)), x)
  }

  lemma {:induction false} StepsShrink(cities: seq<City>, city: City)
    requires ValidTable(cities) && city in cities
    ensures StepsLeft(cities, city.parentCityId) < StepsLeft(cities, Some(city.id))
  {
    FindUnique(cities, city);
    LinkIs(cities, city.id);
    ActiveAcyclic(cities);
    if city.parentCityId.Some? { HeightStep(LinksOf(Rows(cities)), city.id); }
  }

  method FindUniqueCity(cities: seq<City>, id: string) returns (city: Option<City>)
    requires UniqueIds(cities)
    ensures city == if Listed(cities, id) then Some(Find(cities, id)) else None
  {
    for i := 0 to |cities|
      invariant forall k :: 0 <= k < i ==> cities[k].id != id
    {
      if cities[i].id == id {
        FindUnique(cities, cities[i]);
        return Some(cities[i]);
      }
    }
    return None;
  }

  lemma {:induction false} PathUnfold(cities: seq<City>, x: string)
    requires ValidTable(cities) && x != "" && Listed(cities, x)
    ensures PathTo(cities, Some(x)) == PathTo(cities, Find(cities, x).parentCityId) + [Find(cities, x)]
  {
  }

  lemma {:induction false} PathStep(cities: seq<City>, x: string, path: seq<City>)
    requires ValidTable(cities) && x != "" && Listed(cities, x)
    ensures var city := Find(cities, x);
            PathTo(cities, city.parentCityId) + ([city] + path) == PathTo(cities, Some(x)) + path
  {
    var city := Find(cities, x);
    PathUnfold(cities, x);
    ConcatAssoc(PathTo(cities, city.parentCityId), [city], path);
  }

  method GetCityPath(cities: seq<City>, cityId: string) returns (path: seq<City>)
    requires ValidTable(cities)
    ensures path == PathTo(cities, Some(cityId))
  {
    path := [];
    var currentCityId := Some(cityId);
    while currentCityId.Some? && currentCityId.value != ""
      invariant PathTo(cities, currentCityId) + path == PathTo(cities, Some(cityId))
      decreases StepsLeft(cities, currentCityId)
    {
      var city := FindUniqueCity(cities, currentCityId.value);
      if city.None? { break; }
      StepsShrink(cities, city.value);
      PathStep(cities, currentCityId.value, path);
      path := [city.value] + path;
      currentCityId := city.value.parentCityId;
    }
  }

  /** Counted from its end, the path shows the parent chain; it stops where the chain leaves the table. */
  lemma {:induction false} PathShowsChain(cities: seq<City>, d: string, k: nat)
    requires ValidTable(cities) && !Listed(cities, "")
    ensures k < |PathTo(cities, Some(d))| <==>
              Up(LinksOf(Rows(cities)), d, k).Some? && Listed(cities, Up(LinksOf(Rows(cities)), d, k).value)
    ensures k < |PathTo(cities, Some(d))| ==>
              PathTo(cities, Some(d))[|PathTo(cities, Some(d))| - 1 - k]
              == Find(cities, Up(LinksOf(Rows(cities)), d, k).value)
    decreases k
  {
    LinkIs(cities, d);
    if Listed(cities, d) {
      var city := Find(cities, d);
      PathUnfold(cities, d);
      if k > 0 && city.parentCityId.Some? {
        PathShowsChain(cities, city.parentCityId.value, k - 1);
      }
    }
  }

  lemma {:induction false} AncestorsDiffer(links: Links, d: string, m: nat, n: nat)
    requires Ends(links, d) && m != n && Up(links, d, m).Some? && Up(links, d, n).Some?
    ensures Up(links, d, m) != Up(links, d, n)
  {
    HeightAbove(links, d, m);
    HeightAbove(links, d, n);
  }

  /** Counted from its end, the path is a piece of the parent chain. */
  lemma {:induction false} PathIsUp(cities: seq<City>, d: string, k: nat)
    requires ValidTable(cities) && k < |PathTo(cities, Some(d))|
    ensures Up(LinksOf(Rows(cities)), d, k) == Some(PathTo(cities, Some(d))[|PathTo(cities, Some(d))| - 1 - k].id)
    decreases k
  {
    LinkIs(cities, d);
    PathUnfold(cities, d);
    if k > 0 { PathIsUp(cities, Find(cities, d).parentCityId.value, k - 1); }
  }

  lemma {:induction false} PathPlacesDiffer(cities: seq<City>, d: string, i: nat, j: nat)
    requires ValidTable(cities) && i < j < |PathTo(cities, Some(d))|
    ensures PathTo(cities, Some(d))[i].id != PathTo(cities, Some(d))[j].id
  {
    var ki, kj := |PathTo(cities, Some(d))| - 1 - i, |PathTo(cities, Some(d))| - 1 - j;
    PathIsUp(cities, d, ki);
    PathIsUp(cities, d, kj);
    ActiveAcyclic(cities);
    AncestorsDiffer(LinksOf(Rows(cities)), d, ki, kj);
  }

  /** The path climbs by `parentCityId`, and up to a city whose parent is absent, empty or not listed. */
  ghost predicate Climbs(cities: seq<City>, path: seq<City>) {
    && (forall i :: 0 < i < |path| ==> path[i].parentCityId == Some(path[i - 1].id))
    && (path != [] ==> path[0].parentCityId in {None, Some("")} || !Listed(cities, path[0].parentCityId.value))
    && forall i :: 0 <= i < |path| ==> path[i] in cities && path[i].id != ""
  }

  lemma {:induction false} PathClimbs(cities: seq<City>, d: Option<string>)
    requires ValidTable(cities)
    ensures PathTo(cities, d) == [] <==> d in {None, Some("")} || !Listed(cities, d.value)
    ensures PathTo(cities, d) != [] ==> PathTo(cities, d)[|PathTo(cities, d)| - 1].id == d.value
    ensures Climbs(cities, PathTo(cities, d))
    decreases StepsLeft(cities, d)
  {
    if d.Some? && d.value != "" && Listed(cities, d.value) {
      var city := Find(cities, d.value);
      StepsShrink(cities, city);
      PathClimbs(cities, city.parentCityId);
    }
  }

  /**
   * The path of a listed city ends at it, climbs by `parentCityId` as far as there are listed
   * parents, and repeats nothing; a city that is not listed, or has no id, has no path.
   */
  lemma {:induction false} PathIsChain(cities: seq<City>, d: string)
    requires ValidTable(cities)
    ensures PathTo(cities, Some(d)) != [] <==> Listed(cities, d) && d != ""
    ensures PathTo(cities, Some(d)) != [] ==> PathTo(cities, Some(d))[|PathTo(cities, Some(d))| - 1].id == d
    ensures Climbs(cities, PathTo(cities, Some(d)))
    ensures Distinct(PathTo(cities, Some(d)))
  {
    PathClimbs(cities, Some(d));
    forall i, j | 0 <= i < j < |PathTo(cities, Some(d))|
      ensures PathTo(cities, Some(d))[i] != PathTo(cities, Some(d))[j]
    {
      PathPlacesDiffer(cities, d, i, j);
    }
  }

  /** `c` stands at `i` on the path of `d`, before its end, and everything after it is active. */
  ghost predicate AboveActive(cities: seq<City>, c: string, d: string, i: nat)
    requires ValidTable(cities)
  {
    var path := PathTo(cities, Some(d));
    i + 1 < |path| && path[i].id == c && forall j :: i < j < |path| ==> path[j].isActive
  }

  /** The two walks are adjoint: going down from `c` meets `d` iff going up from `d` meets `c`. */
  lemma {:induction false} WalksAreAdjoint(cities: seq<City>, c: string, d: string)
    requires ValidTable(cities) && !Listed(cities, "") && Listed(cities, c)
    ensures d in Descendants(cities, c) <==> exists i: nat :: AboveActive(cities, c, d, i)
  {
    DescendantsExactly(cities, c, d);
    if k: nat :| k > 0 && ActiveChain(cities, d, c, k) {
      ChainIsOnPath(cities, c, d, k);
    }
    if i: nat :| AboveActive(cities, c, d, i) {
      PathIsActiveChain(cities, c, d, i);
    }
  }

  lemma {:induction false} ChainIsOnPath(cities: seq<City>, c: string, d: string, k: nat)
    requires ValidTable(cities) && !Listed(cities, "") && Listed(cities, c)
    requires k > 0 && ActiveChain(cities, d, c, k)
    ensures k < |PathTo(cities, Some(d))| && AboveActive(cities, c, d, |PathTo(cities, Some(d))| - 1 - k)
  {
    var path := PathTo(cities, Some(d));
    PathShowsChain(cities, d, k);
    forall j | |path| - 1 - k < j < |path|
      ensures path[j].isActive
    {
      PathShowsChain(cities, d, |path| - 1 - j);
      assert ActiveAt(cities, d, |path| - 1 - j);
    }
  }

  lemma {:induction false} PathIsActiveChain(cities: seq<City>, c: string, d: string, i: nat)
    requires ValidTable(cities) && !Listed(cities, "") && AboveActive(cities, c, d, i)
    ensures ActiveChain(cities, d, c, |PathTo(cities, Some(d))| - 1 - i)
  {
    var path := PathTo(cities, Some(d));
    var k := |path| - 1 - i;
    PathShowsChain(cities, d, k);
    forall j: nat | j < k
      ensures ActiveAt(cities, d, j)
    {
      PathShowsChain(cities, d, j);
      assert path[|path| - 1 - j].isActive;
    }
  }

  // ---- The closure ----------------------------------------------------------------------------

  /** What `getAllManagedCities` returns, as a set. */
  ghost function Managed(cities: seq<City>, ids: set<string>): set<string>
    requires ValidTable(cities)
  {
    ids + set c, d | c in ids && d in Descendants(cities, c) :: d
  }

  ghost function SetOf(s: seq<string>): set<string> {
    set x | x in s
  }

  method GetAllManagedCities(cities: seq<City>, cityIds: seq<string>) returns (managedCityIds: set<string>)
    requires ValidTable(cities)
    ensures managedCityIds == Managed(cities, SetOf(cityIds))
  {
    managedCityIds := set x | x in cityIds;
    for i := 0 to |cityIds|
      invariant managedCityIds ==
                SetOf(cityIds) + set c, d | c in SetOf(cityIds[..i]) && d in Descendants(cities, c) :: d
    {
      var childCities := GetChildCities(cities, cityIds[i]);
      assert SetOf(cityIds[..i + 1]) == SetOf(cityIds[..i]) + {cityIds[i]};
      managedCityIds := managedCityIds + set x | x in childCities;
    }
    assert cityIds[..|cityIds|] == cityIds;
  }

  /** Being a descendant is being linked upwards, along active links, in one or more steps. */
  lemma {:induction false} DescendantIsLinked(cities: seq<City>, c: string, d: string)
    requires ValidTable(cities)
    ensures d in Descendants(cities, c) <==> exists k: nat :: k > 0 && Up(LinksOf(ActiveRows(cities)), d, k) == Some(c)
  {
    DescendantsExactly(cities, c, d);
    if k: nat :| k > 0 && ActiveChain(cities, d, c, k) { ActiveChainIsUp(cities, d, c, k); }
    if k: nat :| k > 0 && Up(LinksOf(ActiveRows(cities)), d, k) == Some(c) { ActiveChainIsUp(cities, d, c, k); }
  }

  lemma {:induction false} DescendTransitive(cities: seq<City>, a: string, b: string, c: string)
    requires ValidTable(cities)
    requires b in Descendants(cities, a) && c in Descendants(cities, b)
    ensures c in Descendants(cities, a)
  {
    DescendantIsLinked(cities, a, b);
    DescendantIsLinked(cities, b, c);
    DescendantIsLinked(cities, a, c);
    LinkedTransitive(LinksOf(ActiveRows(cities)), a, b, c);
  }

  lemma {:induction false} LinkedTransitive(links: Links, a: string, b: string, c: string)
    requires exists i: nat :: i > 0 && Up(links, b, i) == Some(a)
    requires exists j: nat :: j > 0 && Up(links, c, j) == Some(b)
    ensures exists k: nat :: k > 0 && Up(links, c, k) == Some(a)
  {
    var i: nat :| i > 0 && Up(links, b, i) == Some(a);
    var j: nat :| j > 0 && Up(links, c, j) == Some(b);
    UpCompose(links, c, j, i);
  }

  /** A set of cities that holds the active children of its members. */
  ghost predicate ClosedDownwards(cities: seq<City>, ids: set<string>) {
    forall c :: c in cities && c.isActive && c.parentCityId.Some? && c.parentCityId.value in ids ==> c.id in ids
  }

  lemma {:induction false} ClosedHoldsChains(cities: seq<City>, ids: set<string>, c: string, d: string, k: nat)
    requires ValidTable(cities) && ClosedDownwards(cities, ids)
    requires c in ids && Up(LinksOf(ActiveRows(cities)), d, k) == Some(c)
    ensures d in ids
    decreases k
  {
    if k > 0 {
      ActiveLinkIs(cities, d);
      ClosedHoldsChains(cities, ids, c, LinksOf(ActiveRows(cities))[d], k - 1);
    }
  }

  /** `getAllManagedCities` is the least set above its input that is closed under active children. */
  lemma {:induction false} ManagedIsLeast(cities: seq<City>, ids: set<string>)
    requires ValidTable(cities)
    ensures ids <= Managed(cities, ids) && ClosedDownwards(cities, Managed(cities, ids))
    ensures forall t: set<string> :: ids <= t && ClosedDownwards(cities, t) ==> Managed(cities, ids) <= t
  {
    forall x | x in cities && x.isActive && x.parentCityId.Some? && x.parentCityId.value in Managed(cities, ids)
      ensures x.id in Managed(cities, ids)
    {
      var p := x.parentCityId.value;
      var links := LinksOf(ActiveRows(cities));
      FindUnique(cities, x);
      ActiveLinkIs(cities, x.id);
      assert Up(links, x.id, 1) == Up(links, p, 0);
      ActiveChainIsUp(cities, x.id, p, 1);
      DescendantsExactly(cities, p, x.id);
      if p !in ids {
        var c :| c in ids && p in Descendants(cities, c);
        DescendTransitive(cities, c, p, x.id);
      }
    }
    forall t: set<string>, d | ids <= t && ClosedDownwards(cities, t) && d in Managed(cities, ids)
      ensures d in t
    {
      if d !in ids {
        var c :| c in ids && d in Descendants(cities, c);
        DescendantsExactly(cities, c, d);
        var k: nat :| k > 0 && ActiveChain(cities, d, c, k);
        ActiveChainIsUp(cities, d, c, k);
        ClosedHoldsChains(cities, t, c, d, k);
      }
    }
  }

  /** Extensive, monotone and idempotent. */
  lemma {:induction false} ManagedIsClosure(cities: seq<City>, s: set<string>, t: set<string>)
    requires ValidTable(cities)
    ensures s <= Managed(cities, s)
    ensures s <= t ==> Managed(cities, s) <= Managed(cities, t)
    ensures Managed(cities, Managed(cities, s)) == Managed(cities, s)
  {
    ManagedIsLeast(cities, s);
    ManagedIsLeast(cities, t);
    ManagedIsLeast(cities, Managed(cities, s));
  }

  // ---- The viewing scope of a city --------------------------------------------------------------

  method GetHierarchicalCities(cities: seq<City>, cityId: string) returns (cityIds: set<string>)
    requires ValidTable(cities)
    ensures forall x :: x in cityIds <==>
              || x == cityId
              || x in Descendants(cities, cityId)
              || exists c :: c in PathTo(cities, Some(cityId)) && c.id == x
  {
    cityIds := {cityId};
    var path := GetCityPath(cities, cityId);
    cityIds := cityIds + set c | c in path :: c.id;
    var childCities := GetChildCities(cities, cityId);
    cityIds := cityIds + set x | x in childCities;
  }
}
