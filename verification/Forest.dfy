/**
 * Trees read off a list of rows by their parent column: children in list order, depth-first
 * preorder, and what a preorder walk visits. Cities and categories are both walked this way.
 */
module Forest {
  import opened Common
  import opened ParentChains

  datatype Row = Row(id: string, parent: Option<string>)

  ghost predicate DistinctIds(rows: seq<Row>) {
    forall i, j :: 0 <= i < j < |rows| ==> rows[i].id != rows[j].id
  }

  ghost function LinksOf(rows: seq<Row>): Links
    requires DistinctIds(rows)
  {
    map r | r in rows && r.parent.Some? :: r.id := r.parent.value
  }

  /** Ids of the rows whose parent is `x`, in list order. */
  function Kids(rows: seq<Row>, x: string): seq<string> {
    if rows == [] then []
    else
      var last := rows[|rows| - 1];
      Kids(rows[..|rows| - 1], x) + if last.parent == Some(x) then [last.id] else []
  }

  lemma {:induction false} KidsMember(rows: seq<Row>, x: string, y: string)
    ensures y in Kids(rows, x) <==> Row(y, Some(x)) in rows
  {
    if rows != [] {
      assert rows == rows[..|rows| - 1] + [rows[|rows| - 1]];
      KidsMember(rows[..|rows| - 1], x, y);
    }
  }

  /** With distinct ids a row alone decides whether its id is linked, and whether it is a root. */
  lemma {:induction false} RowDecides(rows: seq<Row>, i: nat)
    requires DistinctIds(rows) && i < |rows|
    ensures rows[i].id in LinksOf(rows) <==> rows[i].parent.Some?
    ensures Row(rows[i].id, None) in rows <==> rows[i].parent.None?
  {
    assert rows[i] in rows;
    if Row(rows[i].id, None) in rows {
      var j :| 0 <= j < |rows| && rows[j] == Row(rows[i].id, None);
      assert j == i;
    }
  }

  lemma {:induction false} KidsAreLinked(rows: seq<Row>, x: string)
    requires DistinctIds(rows)
    ensures forall y :: y in Kids(rows, x) <==> y in LinksOf(rows) && LinksOf(rows)[y] == x
  {
    forall y
      ensures y in Kids(rows, x) <==> y in LinksOf(rows) && LinksOf(rows)[y] == x
    {
      KidsMember(rows, x, y);
    }
  }

  /** The ids of `xs` stand in the order of their rows. */
  ghost predicate InRowOrder(rows: seq<Row>, xs: seq<string>) {
    forall i, j, p, q | 0 <= i < j < |xs| && 0 <= p < |rows| && 0 <= q < |rows| ::
      rows[p].id == xs[i] && rows[q].id == xs[j] ==> p < q
  }

  ghost predicate InRows(rows: seq<Row>, id: string) {
    exists p :: 0 <= p < |rows| && rows[p].id == id
  }

  /** Ids of earlier rows, in row order, with or without the id of the last row at the end. */
  lemma {:induction false} OrderExtends(rows: seq<Row>, xs: seq<string>, more: seq<string>)
    requires DistinctIds(rows) && rows != []
    requires InRowOrder(rows[..|rows| - 1], xs) && Distinct(xs)
    requires forall x :: x in xs ==> InRows(rows[..|rows| - 1], x)
    requires more == [] || more == [rows[|rows| - 1].id]
    ensures InRowOrder(rows, xs + more) && Distinct(xs + more)
  {
    var n, all := |rows| - 1, xs + more;
    forall x | x in xs
      ensures exists p :: 0 <= p < n && rows[p].id == x
    {
      var p :| 0 <= p < |rows[..n]| && rows[..n][p].id == x;
      assert rows[p].id == x;
    }
    forall i, j, p, q | 0 <= i < j < |all| && 0 <= p < |rows| && 0 <= q < |rows|
      && rows[p].id == all[i] && rows[q].id == all[j]
      ensures p < q
    {
      assert all[i] == xs[i] && xs[i] in xs;
      if j < |xs| {
        assert all[j] == xs[j] && xs[j] in xs;
        assert rows[..n][p] == rows[p] && rows[..n][q] == rows[q];
      }
    }
  }

  /** Children stand in list order, and none is listed twice. */
  lemma {:induction false} KidsInOrder(rows: seq<Row>, x: string)
    requires DistinctIds(rows)
    ensures InRowOrder(rows, Kids(rows, x)) && Distinct(Kids(rows, x))
  {
    if rows != [] {
      var front, last := rows[..|rows| - 1], rows[|rows| - 1];
      KidsInOrder(front, x);
      forall y | y in Kids(front, x)
        ensures InRows(front, y)
      {
        KidsMember(front, x, y);
        var p :| 0 <= p < |front| && front[p] == Row(y, Some(x));
      }
      OrderExtends(rows, Kids(front, x), if last.parent == Some(x) then [last.id] else []);
    }
  }

  function RowIds(rows: seq<Row>): (ids: seq<string>)
    ensures |ids| == |rows| && forall i :: 0 <= i < |rows| ==> ids[i] == rows[i].id
  {
    seq(|rows|, i requires 0 <= i < |rows| => rows[i].id)
  }

  lemma {:induction false} RowIdsFront(rows: seq<Row>)
    requires rows != []
    ensures RowIds(rows) == RowIds(rows[..|rows| - 1]) + [rows[|rows| - 1].id]
  {
  }

  /** `at` are the places of the rows with this parent. */
  ghost predicate Naming(rows: seq<Row>, parent: Option<string>, at: seq<nat>) {
    forall i: nat :: i in at <==> i < |rows| && rows[i].parent == parent
  }

  lemma {:induction false} NamingNext(rows: seq<Row>, parent: Option<string>, at: seq<nat>)
    requires rows != [] && Naming(rows[..|rows| - 1], parent, at)
    ensures Naming(rows, parent, Taken(at, |rows| - 1, rows[|rows| - 1].parent == parent))
  {
  }

  lemma {:induction false} KidsPickNext(rows: seq<Row>, x: string, at: seq<nat>)
    requires rows != [] && Picks(RowIds(rows[..|rows| - 1]), at, Kids(rows[..|rows| - 1], x))
    ensures Picks(RowIds(rows), Taken(at, |rows| - 1, rows[|rows| - 1].parent == Some(x)), Kids(rows, x))
  {
    var front, last := rows[..|rows| - 1], rows[|rows| - 1];
    RowIdsFront(rows);
    PicksAppend(RowIds(front), last.id, at, Kids(front, x), last.parent == Some(x));
  }

  /** The children are the ids of the rows that name the parent, by the places of those rows. */
  lemma {:induction false} KidsPick(rows: seq<Row>, x: string) returns (at: seq<nat>)
    ensures Picks(RowIds(rows), at, Kids(rows, x)) && Naming(rows, Some(x), at)
  {
    at := [];
    if rows != [] {
      at := KidsPick(rows[..|rows| - 1], x);
      NamingNext(rows, Some(x), at);
      KidsPickNext(rows, x, at);
      at := Taken(at, |rows| - 1, rows[|rows| - 1].parent == Some(x));
    }
  }

  lemma {:induction false} KidsBelow(rows: seq<Row>, x: string)
    requires DistinctIds(rows) && Ends(LinksOf(rows), x)
    ensures forall y :: y in Kids(rows, x) ==>
              Ends(LinksOf(rows), y) && Height(LinksOf(rows), y) == Height(LinksOf(rows), x) + 1
  {
    KidsAreLinked(rows, x);
    forall y | y in Kids(rows, x)
      ensures Ends(LinksOf(rows), y) && Height(LinksOf(rows), y) == Height(LinksOf(rows), x) + 1
    {
      HeightStep(LinksOf(rows), y);
    }
  }

  /** All ids of `xs` have chains of length `level`. */
  ghost predicate AtLevel(rows: seq<Row>, xs: seq<string>, level: nat)
    requires DistinctIds(rows)
  {
    forall x :: x in xs ==> Ends(LinksOf(rows), x) && Height(LinksOf(rows), x) == level
  }

  /** Levels still below `level`; it bounds every recursive descent. */
  ghost function Below(rows: seq<Row>, level: nat): nat
    requires DistinctIds(rows)
  {
    var bound := |LinksOf(rows)| + 2;
    if level < bound then bound - level else 0
  }

  ghost function Preorder(rows: seq<Row>, x: string): seq<string>
    requires DistinctIds(rows) && Ends(LinksOf(rows), x)
    decreases Below(rows, Height(LinksOf(rows), x)), 0
  {
    KidsBelow(rows, x);
    HeightBound(LinksOf(rows), x);
    [x] + PreorderAll(rows, Kids(rows, x), Height(LinksOf(rows), x) + 1)
  }

  ghost function PreorderAll(rows: seq<Row>, xs: seq<string>, level: nat): seq<string>
    requires DistinctIds(rows) && AtLevel(rows, xs, level)
    decreases Below(rows, level), |xs|
  {
    if xs == [] then [] else Preorder(rows, xs[0]) + PreorderAll(rows, xs[1..], level)
  }

  /** `y` is `x` or lies below it. */
  ghost predicate Reaches(links: Links, y: string, x: string) {
    exists k: nat :: Up(links, y, k) == Some(x)
  }

  lemma {:induction false} ReachesViaChild(links: Links, x: string, z: string, y: string)
    requires z in links && links[z] == x && Reaches(links, y, z)
    ensures Reaches(links, y, x)
  {
    var k: nat :| Up(links, y, k) == Some(z);
    UpCompose(links, y, k, 1);
    assert Up(links, z, 1) == Up(links, x, 0);
    assert Up(links, y, k + 1) == Some(x);
  }

  lemma {:induction false} ChildOnTheWay(links: Links, x: string, y: string) returns (z: string)
    requires y != x && Reaches(links, y, x)
    ensures z in links && links[z] == x && Reaches(links, y, z)
  {
    var k: nat :| Up(links, y, k) == Some(x);
    KeysBeforeEnd(links, y, k);
    UpCompose(links, y, k - 1, 1);
    z := Up(links, y, k - 1).value;
    assert Up(links, z, 1) == Up(links, links[z], 0);
  }

  /** The walk from `x` visits exactly the ids whose chain passes through `x`. */
  lemma {:induction false} PreorderMember(rows: seq<Row>, x: string, y: string)
    requires DistinctIds(rows) && Ends(LinksOf(rows), x)
    ensures y in Preorder(rows, x) <==> Reaches(LinksOf(rows), y, x)
    decreases Below(rows, Height(LinksOf(rows), x)), 0
  {
    KidsBelow(rows, x);
    HeightBound(LinksOf(rows), x);
    PreorderAllMember(rows, Kids(rows, x), Height(LinksOf(rows), x) + 1, y);
    KidsAreLinked(rows, x);
    if y == x {
      assert Up(LinksOf(rows), x, 0) == Some(x);
    } else if Reaches(LinksOf(rows), y, x) {
      var z := ChildOnTheWay(LinksOf(rows), x, y);
    } else if z :| z in Kids(rows, x) && Reaches(LinksOf(rows), y, z) {
      ReachesViaChild(LinksOf(rows), x, z, y);
    }
  }

  lemma {:induction false} PreorderAllMember(rows: seq<Row>, xs: seq<string>, level: nat, y: string)
    requires DistinctIds(rows) && AtLevel(rows, xs, level)
    ensures y in PreorderAll(rows, xs, level) <==> exists x :: x in xs && Reaches(LinksOf(rows), y, x)
    decreases Below(rows, level), |xs|
  {
    if xs != [] {
      PreorderMember(rows, xs[0], y);
      PreorderAllMember(rows, xs[1..], level, y);
      assert forall x :: x in xs <==> x == xs[0] || x in xs[1..];
    }
  }

  /** A chain passes through at most one id of each level. */
  lemma {:induction false} OneAncestorPerLevel(links: Links, y: string, a: string, b: string)
    requires Reaches(links, y, a) && Reaches(links, y, b)
    requires Ends(links, a) && Ends(links, b) && Height(links, a) == Height(links, b)
    ensures a == b
  {
    var i: nat :| Up(links, y, i) == Some(a);
    var j: nat :| Up(links, y, j) == Some(b);
    HeightAbove(links, y, i);
    HeightAbove(links, y, j);
  }

  lemma {:induction false} NotBelowItself(links: Links, x: string, z: string)
    requires Ends(links, x) && Ends(links, z) && Height(links, z) == Height(links, x) + 1
    ensures !Reaches(links, x, z)
  {
    if k: nat :| Up(links, x, k) == Some(z) {
      HeightAbove(links, x, k);
      assert false;
    }
  }

  lemma {:induction false} RootNotInRest(rows: seq<Row>, x: string)
    requires DistinctIds(rows) && Ends(LinksOf(rows), x)
    requires AtLevel(rows, Kids(rows, x), Height(LinksOf(rows), x) + 1)
    ensures x !in PreorderAll(rows, Kids(rows, x), Height(LinksOf(rows), x) + 1)
  {
    PreorderAllMember(rows, Kids(rows, x), Height(LinksOf(rows), x) + 1, x);
    forall z | z in Kids(rows, x)
      ensures !Reaches(LinksOf(rows), x, z)
    {
      NotBelowItself(LinksOf(rows), x, z);
    }
  }

  /** No id is visited twice. */
  lemma {:induction false} PreorderDistinct(rows: seq<Row>, x: string)
    requires DistinctIds(rows) && Ends(LinksOf(rows), x)
    ensures Distinct(Preorder(rows, x))
    decreases Below(rows, Height(LinksOf(rows), x)), 0
  {
    var level := Height(LinksOf(rows), x) + 1;
    KidsBelow(rows, x);
    HeightBound(LinksOf(rows), x);
    KidsInOrder(rows, x);
    PreorderAllDistinct(rows, Kids(rows, x), level);
    RootNotInRest(rows, x);
    DistinctConcat([x], PreorderAll(rows, Kids(rows, x), level));
  }

  lemma {:induction false} PreorderAllDistinct(rows: seq<Row>, xs: seq<string>, level: nat)
    requires DistinctIds(rows) && AtLevel(rows, xs, level) && Distinct(xs)
    ensures Distinct(PreorderAll(rows, xs, level))
    decreases Below(rows, level), |xs|
  {
    if xs != [] {
      var first, rest := Preorder(rows, xs[0]), PreorderAll(rows, xs[1..], level);
      PreorderDistinct(rows, xs[0]);
      PreorderAllDistinct(rows, xs[1..], level);
      forall y | y in first && y in rest
        ensures false
      {
        PreorderMember(rows, xs[0], y);
        PreorderAllMember(rows, xs[1..], level, y);
        var x :| x in xs[1..] && Reaches(LinksOf(rows), y, x);
        OneAncestorPerLevel(LinksOf(rows), y, xs[0], x);
      }
      DistinctConcat(first, rest);
    }
  }

  lemma {:induction false} PreorderAllAppend(rows: seq<Row>, xs: seq<string>, ys: seq<string>, level: nat)
    requires DistinctIds(rows) && AtLevel(rows, xs, level) && AtLevel(rows, ys, level)
    ensures AtLevel(rows, xs + ys, level)
    ensures PreorderAll(rows, xs + ys, level) == PreorderAll(rows, xs, level) + PreorderAll(rows, ys, level)
    decreases |xs|
  {
    if xs == [] {
      assert xs + ys == ys;
    } else {
      PreorderAllAppend(rows, xs[1..], ys, level);
      assert (xs + ys)[1..] == xs[1..] + ys && (xs + ys)[0] == xs[0];
      ConcatAssoc(Preorder(rows, xs[0]), PreorderAll(rows, xs[1..], level), PreorderAll(rows, ys, level));
    }
  }

  lemma {:induction false} PrependBlock(before: seq<string>, a: seq<string>, block: seq<string>, b: seq<string>)
    ensures before + (a + block + b) == (before + a) + block + b
  {
  }

  lemma {:induction false} AppendBlock(a: seq<string>, block: seq<string>, b: seq<string>, after: seq<string>)
    ensures (a + block + b) + after == a + block + (b + after)
  {
  }

  /** Depth first: the subtree of every visited id is one contiguous block of the walk. */
  lemma {:induction false} SubtreeIsBlock(rows: seq<Row>, x: string, y: string) returns (a: seq<string>, b: seq<string>)
    requires DistinctIds(rows) && Ends(LinksOf(rows), x)
    requires y in Preorder(rows, x)
    ensures Ends(LinksOf(rows), y)
    ensures Preorder(rows, x) == a + Preorder(rows, y) + b
    decreases Below(rows, Height(LinksOf(rows), x)), 0
  {
    if y == x {
      a, b := [], [];
    } else {
      KidsBelow(rows, x);
      HeightBound(LinksOf(rows), x);
      a, b := SubtreeIsBlockAll(rows, Kids(rows, x), Height(LinksOf(rows), x) + 1, y);
      PrependBlock([x], a, Preorder(rows, y), b);
      a := [x] + a;
    }
  }

  lemma {:induction false} SubtreeIsBlockAll(rows: seq<Row>, xs: seq<string>, level: nat, y: string)
    returns (a: seq<string>, b: seq<string>)
    requires DistinctIds(rows) && AtLevel(rows, xs, level)
    requires y in PreorderAll(rows, xs, level)
    ensures Ends(LinksOf(rows), y)
    ensures PreorderAll(rows, xs, level) == a + Preorder(rows, y) + b
    decreases Below(rows, level), |xs|
  {
    if y in Preorder(rows, xs[0]) {
      a, b := SubtreeIsBlock(rows, xs[0], y);
      AppendBlock(a, Preorder(rows, y), b, PreorderAll(rows, xs[1..], level));
      b := b + PreorderAll(rows, xs[1..], level);
    } else {
      a, b := SubtreeIsBlockAll(rows, xs[1..], level, y);
      PrependBlock(Preorder(rows, xs[0]), a, Preorder(rows, y), b);
      a := Preorder(rows, xs[0]) + a;
    }
  }

  /** The walk from `x` without `x` itself. */
  ghost function Beneath(rows: seq<Row>, x: string): seq<string>
    requires DistinctIds(rows) && Ends(LinksOf(rows), x)
  {
    Preorder(rows, x)[1..]
  }

  /** What `n` turns of a loop over `xs` visit: each element, then everything beneath it. */
  ghost function Gathered(rows: seq<Row>, xs: seq<string>, n: nat): seq<string>
    requires DistinctIds(rows) && n <= |xs|
    requires forall x :: x in xs ==> Ends(LinksOf(rows), x)
    decreases n
  {
    if n == 0 then [] else Gathered(rows, xs, n - 1) + [xs[n - 1]] + Beneath(rows, xs[n - 1])
  }

  lemma {:induction false} PreorderAllNext(rows: seq<Row>, xs: seq<string>, level: nat, n: nat)
    requires DistinctIds(rows) && n < |xs| && AtLevel(rows, xs, level)
    ensures PreorderAll(rows, xs[..n + 1], level) == PreorderAll(rows, xs[..n], level) + [xs[n]] + Beneath(rows, xs[n])
  {
    PreorderAllAppend(rows, xs[..n], [xs[n]], level);
    assert xs[..n + 1] == xs[..n] + [xs[n]];
    assert PreorderAll(rows, [xs[n]], level) == Preorder(rows, xs[n]) == [xs[n]] + Beneath(rows, xs[n]);
  }

  lemma {:induction false} GatheredIs(rows: seq<Row>, xs: seq<string>, level: nat, n: nat)
    requires DistinctIds(rows) && n <= |xs| && AtLevel(rows, xs, level)
    ensures Gathered(rows, xs, n) == PreorderAll(rows, xs[..n], level)
    decreases n
  {
    if n > 0 {
      GatheredIs(rows, xs, level, n - 1);
      PreorderAllNext(rows, xs, level, n - 1);
    }
  }

  lemma {:induction false} GatheredAll(rows: seq<Row>, x: string)
    requires DistinctIds(rows) && Ends(LinksOf(rows), x)
    requires forall y :: y in Kids(rows, x) ==> Ends(LinksOf(rows), y)
    ensures Gathered(rows, Kids(rows, x), |Kids(rows, x)|) == Beneath(rows, x)
  {
    var kids := Kids(rows, x);
    KidsBelow(rows, x);
    GatheredIs(rows, kids, Height(LinksOf(rows), x) + 1, |kids|);
    assert kids[..|kids|] == kids;
  }
}
