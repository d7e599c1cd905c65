/**
 * Chains of parent links. A table of rows with a nullable parent column is seen as a finite map
 * from a row to its parent. A chain either ends or runs into a cycle; which of the two happens
 * decides what the category forest contains, and acyclic tables are what makes the city walks stop.
 */
module ParentChains {
  import opened Common

  type Links = map<string, string>

  /** The id reached from `x` after `k` parent steps, if the chain is that long. */
  ghost function Up(links: Links, x: string, k: nat): Option<string>
    decreases k
  {
    if k == 0 then Some(x)
    else if x in links then Up(links, links[x], k - 1)
    else None
  }

  ghost predicate Ends(links: Links, x: string) {
    exists k: nat :: Up(links, x, k) == None
  }

  /** After `i` steps the chain of `x` stands on an id it meets again `j` steps later. */
  ghost predicate ReturnsAfter(links: Links, x: string, i: nat, j: nat) {
    j > 0 && Up(links, x, i).Some? && Up(links, x, i + j) == Up(links, x, i)
  }

  ghost predicate RunsIntoCycle(links: Links, x: string) {
    exists i: nat, j: nat :: ReturnsAfter(links, x, i, j)
  }

  lemma {:induction false} UpCompose(links: Links, x: string, i: nat, j: nat)
    ensures Up(links, x, i + j) == (match Up(links, x, i)
                                    case None => None
                                    case Some(y) => Up(links, y, j))
    decreases i
  {
    if i > 0 && x in links {
      UpCompose(links, links[x], i - 1, j);
    }
  }

  lemma {:induction false} UpStays(links: Links, x: string, i: nat, j: nat)
    requires i <= j
    requires Up(links, x, i) == None
    ensures Up(links, x, j) == None
  {
    UpCompose(links, x, i, j - i);
  }

  lemma {:induction false} CycleNeverEnds(links: Links, y: string, j: nat, k: nat)
    requires j > 0 && Up(links, y, j) == Some(y)
    ensures Up(links, y, k).Some?
    decreases k
  {
    if k < j {
      if Up(links, y, k) == None { UpStays(links, y, k, j); }
    } else {
      UpCompose(links, y, j, k - j);
      CycleNeverEnds(links, y, j, k - j);
    }
  }

  /** The first `n` ids of a chain that is at least that long. */
  ghost function Prefix(links: Links, x: string, n: nat): (s: seq<string>)
    requires forall k: nat :: k < n ==> Up(links, x, k).Some?
    ensures |s| == n
    ensures forall k: nat :: k < n ==> s[k] == Up(links, x, k).value
  {
    seq(n, k requires 0 <= k < n => Up(links, x, k).value)
  }

  lemma {:induction false} KeysBeforeEnd(links: Links, x: string, n: nat)
    requires Up(links, x, n).Some?
    ensures forall k: nat :: k < n ==> Up(links, x, k).Some? && Up(links, x, k).value in links
  {
    forall k: nat | k < n
      ensures Up(links, x, k).Some? && Up(links, x, k).value in links
    {
      UpCompose(links, x, k, n - k);
    }
  }

  /** A chain ends exactly when it does not run into a cycle. */
  lemma {:induction false} EndsOrCycles(links: Links, x: string)
    ensures Ends(links, x) <==> !RunsIntoCycle(links, x)
  {
    if Ends(links, x) && RunsIntoCycle(links, x) {
      var k: nat :| Up(links, x, k) == None;
      var i: nat, j: nat :| ReturnsAfter(links, x, i, j);
      UpCompose(links, x, i, j);
      CycleNeverEnds(links, Up(links, x, i).value, j, k);
      UpCompose(links, x, i, k);
      UpStays(links, x, k, i + k);
      assert false;
    }
    if !Ends(links, x) {
      var n := |links| + 1;
      KeysBeforeEnd(links, x, n);
      var s := Prefix(links, x, n);
      if Distinct(s) {
        Pigeonhole(s, links.Keys);
        assert false;
      }
      var i, j :| 0 <= i < j < n && s[i] == s[j];
      assert ReturnsAfter(links, x, i, j - i);
    }
  }

  /** The number of ids on the chain of `x`. */
  ghost function Height(links: Links, x: string): (h: nat)
    requires Ends(links, x)
    ensures h > 0 && Up(links, x, h) == None && Up(links, x, h - 1).Some?
  {
    var k: nat :| Up(links, x, k) == None;
    HeightWithin(links, x, k)
  }

  ghost function HeightWithin(links: Links, x: string, k: nat): (h: nat)
    requires Up(links, x, k) == None
    ensures h > 0 && Up(links, x, h) == None && Up(links, x, h - 1).Some?
    decreases k
  {
    if x !in links then 1 else 1 + HeightWithin(links, links[x], k - 1)
  }

  lemma {:induction false} HeightUnique(links: Links, x: string, h: nat)
    requires h > 0 && Up(links, x, h) == None && Up(links, x, h - 1).Some?
    ensures Ends(links, x) && Height(links, x) == h
  {
    var g := Height(links, x);
    if g < h { UpStays(links, x, g, h - 1); }
    if h < g { UpStays(links, x, h, g - 1); }
  }

  /** Along a chain the height drops by one per step. */
  lemma {:induction false} HeightStep(links: Links, x: string)
    requires x in links
    ensures Ends(links, x) <==> Ends(links, links[x])
    ensures Ends(links, x) ==> Height(links, x) == 1 + Height(links, links[x])
  {
    if Ends(links, x) {
      var h := Height(links, x);
      assert h > 1;
      HeightUnique(links, links[x], h - 1);
    }
    if Ends(links, links[x]) {
      HeightUnique(links, x, Height(links, links[x]) + 1);
    }
  }

  lemma {:induction false} HeightTop(links: Links, x: string)
    requires x !in links
    ensures Ends(links, x) && Height(links, x) == 1
  {
    assert Up(links, x, 1) == None;
    HeightUnique(links, x, 1);
  }

  lemma {:induction false} HeightAbove(links: Links, x: string, k: nat)
    requires Up(links, x, k).Some?
    ensures Ends(links, x) <==> Ends(links, Up(links, x, k).value)
    ensures Ends(links, x) ==> Height(links, x) == k + Height(links, Up(links, x, k).value)
    decreases k
  {
    if k > 0 {
      HeightStep(links, x);
      HeightAbove(links, links[x], k - 1);
    }
  }

  lemma {:induction false} HeightBound(links: Links, x: string)
    requires Ends(links, x)
    ensures Height(links, x) <= |links| + 1
  {
    var n := Height(links, x) - 1;
    KeysBeforeEnd(links, x, n);
    var s := Prefix(links, x, n);
    forall i, j | 0 <= i < j < n
      ensures s[i] != s[j]
    {
      HeightAbove(links, x, i);
      HeightAbove(links, x, j);
    }
    Pigeonhole(s, links.Keys);
  }

  ghost predicate Acyclic(links: Links) {
    forall x :: x in links ==> Ends(links, x)
  }

  /** Acyclicity says what it should: no id is reached again from itself. */
  lemma {:induction false} AcyclicMeansNoCycle(links: Links)
    ensures Acyclic(links) <==> forall x, j: nat :: j > 0 ==> Up(links, x, j) != Some(x)
  {
    if Acyclic(links) {
      forall x, j: nat | j > 0
        ensures Up(links, x, j) != Some(x)
      {
        if Up(links, x, j) == Some(x) {
          assert ReturnsAfter(links, x, 0, j);
          EndsOrCycles(links, x);
        }
      }
    }
    if !Acyclic(links) {
      var x :| x in links && !Ends(links, x);
      EndsOrCycles(links, x);
      var i: nat, j: nat :| ReturnsAfter(links, x, i, j);
      UpCompose(links, x, i, j);
    }
  }

  lemma {:induction false} AcyclicEnds(links: Links, x: string)
    requires Acyclic(links)
    ensures Ends(links, x)
  {
    if x !in links { HeightTop(links, x); }
  }

  /** Dropping links keeps every chain a prefix of what it was. */
  lemma {:induction false} UpInSub(sub: Links, links: Links, x: string, k: nat)
    requires forall y :: y in sub ==> y in links && links[y] == sub[y]
    requires Up(sub, x, k).Some?
    ensures Up(links, x, k) == Up(sub, x, k)
    decreases k
  {
    if k > 0 { UpInSub(sub, links, sub[x], k - 1); }
  }

  lemma {:induction false} AcyclicSub(sub: Links, links: Links)
    requires forall y :: y in sub ==> y in links && links[y] == sub[y]
    requires Acyclic(links)
    ensures Acyclic(sub)
  {
    forall x | x in sub
      ensures Ends(sub, x)
    {
      var k := Height(links, x);
      if Up(sub, x, k).Some? { UpInSub(sub, links, x, k); }
      assert Up(sub, x, k) == None;
    }
  }

  /** `sub` is what is left of `links` when only the rows in `kept` keep their link. */
  ghost predicate Restricted(sub: Links, links: Links, kept: set<string>) {
    && (forall y :: y in sub <==> y in links && y in kept)
    && (forall y :: y in sub ==> sub[y] == links[y])
  }

  ghost predicate KeptAt(links: Links, kept: set<string>, x: string, j: nat) {
    Up(links, x, j).Some? && Up(links, x, j).value in kept
  }

  /** A chain survives the restriction as far as the rows it climbs from are kept. */
  lemma {:induction false} UpRestricted(sub: Links, links: Links, kept: set<string>, x: string, c: string, k: nat)
    requires Restricted(sub, links, kept)
    ensures Up(sub, x, k) == Some(c) <==>
              Up(links, x, k) == Some(c) && forall j: nat :: j < k ==> KeptAt(links, kept, x, j)
    decreases k
  {
    if k > 0 {
      assert KeptAt(links, kept, x, 0) <==> x in kept;
      if x in sub {
        UpRestricted(sub, links, kept, sub[x], c, k - 1);
        forall j: nat
          ensures KeptAt(links, kept, x, j + 1) <==> KeptAt(links, kept, links[x], j)
        {
        }
        if forall j: nat :: j < k - 1 ==> KeptAt(links, kept, links[x], j) {
          forall j: nat | j < k
            ensures KeptAt(links, kept, x, j)
          {
            if j > 0 { assert KeptAt(links, kept, links[x], j - 1); }
          }
        }
        if forall j: nat :: j < k ==> KeptAt(links, kept, x, j) {
          forall j: nat | j < k - 1 ensures KeptAt(links, kept, links[x], j) { assert KeptAt(links, kept, x, j + 1); }
        }
      }
    }
  }
}
