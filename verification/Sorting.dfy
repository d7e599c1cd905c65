/** The stable sort of JavaScript arrays, as insertion behind everything that goes before or ties. */
module Sorting {
  import opened Common

  ghost predicate TotalPreorder<T(!new)>(le: (T, T) -> bool) {
    && (forall x, y :: le(x, y) || le(y, x))
    && forall x, y, z :: le(x, y) && le(y, z) ==> le(x, z)
  }

  ghost predicate Sorted<T>(le: (T, T) -> bool, s: seq<T>) {
    forall i, j :: 0 <= i < j < |s| ==> le(s[i], s[j])
  }

  function Insert<T>(le: (T, T) -> bool, s: seq<T>, x: T): seq<T> {
    if s == [] then [x]
    else if le(s[0], x) then [s[0]] + Insert(le, s[1..], x)
    else [x] + s
  }

  function Sort<T>(le: (T, T) -> bool, s: seq<T>): seq<T> {
    if s == [] then [] else Insert(le, Sort(le, s[..|s| - 1]), s[|s| - 1])
  }

  lemma {:induction false} InsertElements<T>(le: (T, T) -> bool, s: seq<T>, x: T)
    ensures multiset(Insert(le, s, x)) == multiset(s) + multiset{x}
    ensures forall y :: y in Insert(le, s, x) <==> y == x || y in s
  {
    if s != [] {
      assert s == [s[0]] + s[1..];
      if le(s[0], x) { InsertElements(le, s[1..], x); }
    }
  }

  lemma {:induction false} SortedCons<T>(le: (T, T) -> bool, x: T, s: seq<T>)
    requires Sorted(le, s) && forall y :: y in s ==> le(x, y)
    ensures Sorted(le, [x] + s)
  {
  }

  lemma {:induction false} InsertSorted<T(!new)>(le: (T, T) -> bool, s: seq<T>, x: T)
    requires TotalPreorder(le) && Sorted(le, s)
    ensures Sorted(le, Insert(le, s, x))
  {
    if s != [] {
      forall y | y in s[1..]
        ensures le(s[0], y)
      {
        var k :| 0 <= k < |s[1..]| && s[1..][k] == y;
        assert s[k + 1] == y;
      }
      if le(s[0], x) {
        InsertSorted(le, s[1..], x);
        InsertElements(le, s[1..], x);
        SortedCons(le, s[0], Insert(le, s[1..], x));
      } else {
        assert s == [s[0]] + s[1..];
        SortedCons(le, x, s);
      }
    }
  }

  /** The result is a sorted permutation. */
  lemma {:induction false} SortSorts<T(!new)>(le: (T, T) -> bool, s: seq<T>)
    requires TotalPreorder(le)
    ensures Sorted(le, Sort(le, s)) && multiset(Sort(le, s)) == multiset(s)
    ensures |Sort(le, s)| == |s| && forall y :: y in Sort(le, s) <==> y in s
  {
    if s != [] {
      var front := s[..|s| - 1];
      assert s == front + [s[|s| - 1]];
      SortSorts(le, front);
      InsertSorted(le, Sort(le, front), s[|s| - 1]);
      InsertElements(le, Sort(le, front), s[|s| - 1]);
      assert |multiset(Sort(le, s))| == |multiset(s)|;
    }
  }

  predicate Tie<T>(le: (T, T) -> bool, x: T, y: T) {
    le(x, y) && le(y, x)
  }

  /** The elements that tie with `k`, in their order. */
  function TiesWith<T>(le: (T, T) -> bool, s: seq<T>, k: T): seq<T> {
    if s == [] then [] else (if Tie(le, s[0], k) then [s[0]] else []) + TiesWith(le, s[1..], k)
  }

  lemma {:induction false} NoTies<T(!new)>(le: (T, T) -> bool, s: seq<T>, k: T)
    requires forall y :: y in s ==> !Tie(le, y, k)
    ensures TiesWith(le, s, k) == []
  {
    if s != [] { NoTies(le, s[1..], k); }
  }

  /** Nothing in a sorted list ties with what goes before its first element. */
  lemma {:induction false} NoneTiesAhead<T(!new)>(le: (T, T) -> bool, s: seq<T>, x: T, k: T)
    requires TotalPreorder(le) && Sorted(le, s) && s != [] && !le(s[0], x) && Tie(le, x, k)
    ensures TiesWith(le, s, k) == []
  {
    forall y | y in s
      ensures !Tie(le, y, k)
    {
      assert s[0] == y || le(s[0], y);
    }
    NoTies(le, s, k);
  }

  lemma {:induction false} InsertStable<T(!new)>(le: (T, T) -> bool, s: seq<T>, x: T, k: T)
    requires TotalPreorder(le) && Sorted(le, s)
    ensures TiesWith(le, Insert(le, s, x), k) == TiesWith(le, s, k) + if Tie(le, x, k) then [x] else []
  {
    if s != [] {
      if le(s[0], x) {
        InsertStable(le, s[1..], x, k);
        TiesOfFirst(le, s[0], Insert(le, s[1..], x), k);
      } else {
        TiesOfFirst(le, x, s, k);
        if Tie(le, x, k) { NoneTiesAhead(le, s, x, k); }
      }
    }
  }

  lemma {:induction false} TiesOfFirst<T>(le: (T, T) -> bool, x: T, s: seq<T>, k: T)
    ensures TiesWith(le, [x] + s, k) == (if Tie(le, x, k) then [x] else []) + TiesWith(le, s, k)
  {
    assert ([x] + s)[1..] == s;
  }

  lemma {:induction false} TiesAppend<T>(le: (T, T) -> bool, s: seq<T>, x: T, k: T)
    ensures TiesWith(le, s + [x], k) == TiesWith(le, s, k) + if Tie(le, x, k) then [x] else []
  {
    if s == [] {
      assert s + [x] == [x];
    } else {
      TiesAppend(le, s[1..], x, k);
      ConcatAssoc([s[0]], s[1..], [x]);
      assert [s[0]] + s[1..] == s;
      TiesOfFirst(le, s[0], s[1..] + [x], k);
      TiesOfFirst(le, s[0], s[1..], k);
    }
  }

  lemma {:induction false} SortKeepsTies<T(!new)>(le: (T, T) -> bool, s: seq<T>, k: T)
    requires TotalPreorder(le)
    ensures TiesWith(le, Sort(le, s), k) == TiesWith(le, s, k)
  {
    if s != [] {
      var front, last := s[..|s| - 1], s[|s| - 1];
      assert s == front + [last];
      SortKeepsTies(le, front, k);
      SortSorts(le, front);
      InsertStable(le, Sort(le, front), last, k);
      TiesAppend(le, front, last, k);
    }
  }

  /** `at` are the places of the elements that tie with `k`. */
  ghost predicate TiesAt<T>(le: (T, T) -> bool, s: seq<T>, k: T, at: seq<nat>) {
    forall i: nat :: i in at <==> i < |s| && Tie(le, s[i], k)
  }

  lemma {:induction false} TiesPickFirst<T>(le: (T, T) -> bool, s: seq<T>, k: T, rest: seq<nat>)
    requires s != [] && Picks(s[1..], rest, TiesWith(le, s[1..], k))
    ensures Picks(s, if Tie(le, s[0], k) then [0] + Shifted(rest) else Shifted(rest), TiesWith(le, s, k))
  {
    PicksPrepend(s[0], s[1..], rest, TiesWith(le, s[1..], k));
    assert [s[0]] + s[1..] == s;
  }

  lemma {:induction false} TiesPick<T>(le: (T, T) -> bool, s: seq<T>, k: T) returns (at: seq<nat>)
    ensures Picks(s, at, TiesWith(le, s, k)) && TiesAt(le, s, k, at)
  {
    at := [];
    if s != [] {
      var rest := TiesPick(le, s[1..], k);
      TiesPickFirst(le, s, k, rest);
      at := if Tie(le, s[0], k) then [0] + Shifted(rest) else Shifted(rest);
      TiesAtPrepend(le, s, k, rest, at);
    }
  }

  lemma {:induction false} TiesAtPrepend<T>(le: (T, T) -> bool, s: seq<T>, k: T, rest: seq<nat>, at: seq<nat>)
    requires s != [] && TiesAt(le, s[1..], k, rest)
    requires at == if Tie(le, s[0], k) then [0] + Shifted(rest) else Shifted(rest)
    ensures TiesAt(le, s, k, at)
  {
  }

  /** Lists with the same ties have them in the same order. */
  lemma {:induction false} SameTies<T>(le: (T, T) -> bool, s: seq<T>, t: seq<T>, i: nat, j: nat)
    returns (p: nat, q: nat)
    requires i < j < |t| && Tie(le, t[i], t[j]) && Tie(le, t[j], t[j])
    requires TiesWith(le, t, t[j]) == TiesWith(le, s, t[j])
    ensures p < q < |s| && s[p] == t[i] && s[q] == t[j]
  {
    var after := TiesPick(le, t, t[j]);
    var before := TiesPick(le, s, t[j]);
    assert i in after && j in after;
    var a :| 0 <= a < |after| && after[a] == i;
    var b :| 0 <= b < |after| && after[b] == j;
    p, q := before[a], before[b];
  }

  /** The sort is stable: of two elements that tie, the one that comes first came first before. */
  lemma {:induction false} SortStable<T(!new)>(le: (T, T) -> bool, s: seq<T>, i: nat, j: nat)
    returns (p: nat, q: nat)
    requires TotalPreorder(le) && i < j < |Sort(le, s)| && Tie(le, Sort(le, s)[i], Sort(le, s)[j])
    ensures p < q < |s| && s[p] == Sort(le, s)[i] && s[q] == Sort(le, s)[j]
  {
    SortKeepsTies(le, s, Sort(le, s)[j]);
    p, q := SameTies(le, s, Sort(le, s), i, j);
  }
}
