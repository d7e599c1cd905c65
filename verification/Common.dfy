/** Small notions shared by every other module. */
module Common {

  datatype Option<+T> = None | Some(value: T)

  datatype Result<+T, +E> = Ok(value: T) | Err(error: E)

  lemma {:induction false} ConcatAssoc<T>(a: seq<T>, b: seq<T>, c: seq<T>)
    ensures (a + b) + c == a + (b + c)
  {
  }

  ghost predicate Distinct<T>(s: seq<T>) {
    forall i, j :: 0 <= i < j < |s| ==> s[i] != s[j]
  }

  /** Distinct elements drawn from a finite set cannot outnumber it. */
  lemma {:induction false} Pigeonhole<T>(s: seq<T>, bag: set<T>)
    requires Distinct(s)
    requires forall x :: x in s ==> x in bag
    ensures |s| <= |bag|
  {
    if s != [] {
      var last := s[|s| - 1];
      var front := s[..|s| - 1];
      assert last in bag && last !in front;
      Pigeonhole(front, bag - {last});
    }
  }

  /** Two duplicate-free sequences with the same elements are permutations of each other. */
  lemma {:induction false} SameElementsPermute<T>(a: seq<T>, b: seq<T>)
    requires Distinct(a) && Distinct(b)
    requires forall x :: x in a <==> x in b
    ensures multiset(a) == multiset(b)
  {
    forall x
      ensures multiset(a)[x] == multiset(b)[x]
    {
      CountDistinct(a, x);
      CountDistinct(b, x);
    }
  }

  lemma {:induction false} CountDistinct<T>(s: seq<T>, x: T)
    requires Distinct(s)
    ensures multiset(s)[x] == if x in s then 1 else 0
  {
    if s != [] {
      assert s == s[..|s| - 1] + [s[|s| - 1]];
      CountDistinct(s[..|s| - 1], x);
    }
  }

  lemma {:induction false} DistinctConcat<T>(a: seq<T>, b: seq<T>)
    requires Distinct(a) && Distinct(b)
    requires forall x :: x in a ==> x !in b
    ensures Distinct(a + b)
  {
    forall i, j | 0 <= i < j < |a + b|
      ensures (a + b)[i] != (a + b)[j]
    {
      if i < |a| <= j {
        assert a[i] in a && b[j - |a|] in b;
      }
    }
  }

  /** `r` holds the elements of `s` at the indices `at`, which increase. */
  ghost predicate Picks<T>(s: seq<T>, at: seq<nat>, r: seq<T>) {
    && |at| == |r|
    && (forall i, j :: 0 <= i < j < |at| ==> at[i] < at[j])
    && forall i :: 0 <= i < |at| ==> at[i] < |s| && r[i] == s[at[i]]
  }

  /** One more element at the end, taken or not. */
  ghost function Taken(at: seq<nat>, n: nat, takes: bool): (more: seq<nat>)
    ensures forall k: nat :: k in more <==> k in at || (takes && k == n)
  {
    if takes then at + [n] else at
  }

  lemma {:induction false} PicksAppend<T>(s: seq<T>, x: T, at: seq<nat>, r: seq<T>, takes: bool)
    requires Picks(s, at, r)
    ensures Picks(s + [x], Taken(at, |s|, takes), if takes then r + [x] else r)
    ensures |s| !in at
  {
  }

  /** Indices into a list that got one more element in front. */
  ghost function Shifted(at: seq<nat>): (moved: seq<nat>)
    ensures |moved| == |at| && forall i :: 0 <= i < |at| ==> moved[i] == at[i] + 1
    ensures forall k: nat :: k in moved <==> k > 0 && k - 1 in at
  {
    if at == [] then [] else Shifted(at[..|at| - 1]) + [at[|at| - 1] + 1]
  }

  lemma {:induction false} PicksPrepend<T>(x: T, s: seq<T>, at: seq<nat>, r: seq<T>)
    requires Picks(s, at, r)
    ensures Picks([x] + s, Shifted(at), r) && Picks([x] + s, [0] + Shifted(at), [x] + r)
  {
  }
}
