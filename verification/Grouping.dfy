/**
 * Grouping by a key with the groups in order of first appearance, as a Map or an object filled in a
 * loop keeps them.
 */
module Grouping {
  import opened Common

  datatype Group<K, T> = Group(key: K, items: seq<T>)

  function Keys<K, T>(groups: seq<Group<K, T>>): seq<K> {
    if groups == [] then [] else [groups[0].key] + Keys(groups[1..])
  }

  predicate DistinctKeys<K(==), T>(groups: seq<Group<K, T>>) {
    groups == [] || (groups[0].key !in Keys(groups[1..]) && DistinctKeys(groups[1..]))
  }

  predicate NoneEmpty<K, T>(groups: seq<Group<K, T>>) {
    groups == [] || (|groups[0].items| > 0 && NoneEmpty(groups[1..]))
  }

  /** What is filed under `k`; nothing when the key is absent. */
  function ItemsOf<K(==), T>(groups: seq<Group<K, T>>, k: K): seq<T> {
    if groups == [] then [] else if groups[0].key == k then groups[0].items else ItemsOf(groups[1..], k)
  }

  /** Append the item to its group, or open a new group at the end. */
  function Put<K(==), T>(groups: seq<Group<K, T>>, key: K, item: T): seq<Group<K, T>> {
    if groups == [] then [Group(key, [item])]
    else if groups[0].key == key then [Group(key, groups[0].items + [item])] + groups[1..]
    else [groups[0]] + Put(groups[1..], key, item)
  }

  function GroupBy<K(==), T>(items: seq<T>, key: T -> K): seq<Group<K, T>> {
    if items == [] then []
    else
      var last := items[|items| - 1];
      Put(GroupBy(items[..|items| - 1], key), key(last), last)
  }

  /** The items with this key, in their order. */
  function WithKey<K(==), T>(items: seq<T>, key: T -> K, k: K): seq<T> {
    if items == [] then []
    else
      var last := items[|items| - 1];
      WithKey(items[..|items| - 1], key, k) + if key(last) == k then [last] else []
  }

  /** Number of items in all groups together: the sum of the counts per group. */
  function Total<K, T>(groups: seq<Group<K, T>>): nat {
    if groups == [] then 0 else |groups[0].items| + Total(groups[1..])
  }

  lemma {:induction false} PutKeys<K, T>(groups: seq<Group<K, T>>, key: K, item: T)
    ensures forall k :: k in Keys(Put(groups, key, item)) <==> k in Keys(groups) || k == key
    ensures DistinctKeys(groups) ==> DistinctKeys(Put(groups, key, item))
    ensures NoneEmpty(groups) ==> NoneEmpty(Put(groups, key, item))
  {
    if groups != [] {
      PutTail(groups, key, item);
      if groups[0].key != key { PutKeys(groups[1..], key, item); }
    }
  }

  lemma {:induction false} PutTail<K, T>(groups: seq<Group<K, T>>, key: K, item: T)
    requires groups != []
    ensures Put(groups, key, item)[1..] == if groups[0].key == key then groups[1..] else Put(groups[1..], key, item)
  {
  }

  lemma {:induction false} PutTotal<K, T>(groups: seq<Group<K, T>>, key: K, item: T)
    ensures Total(Put(groups, key, item)) == Total(groups) + 1
  {
    if groups != [] {
      if groups[0].key == key {
        assert ([Group(key, groups[0].items + [item])] + groups[1..])[1..] == groups[1..];
      } else {
        PutTotal(groups[1..], key, item);
        assert ([groups[0]] + Put(groups[1..], key, item))[1..] == Put(groups[1..], key, item);
      }
    }
  }

  /** Putting an item extends its own group and no other. */
  lemma {:induction false} PutItems<K, T>(groups: seq<Group<K, T>>, key: K, item: T, k: K)
    ensures ItemsOf(Put(groups, key, item), k) == ItemsOf(groups, k) + if k == key then [item] else []
  {
    if groups != [] {
      PutTail(groups, key, item);
      if groups[0].key != key { PutItems(groups[1..], key, item, k); }
    }
  }

  /** Grouping partitions: one group per key that occurs, holding that key's items in order. */
  lemma {:induction false} GroupByPartitions<K, T>(items: seq<T>, key: T -> K)
    ensures DistinctKeys(GroupBy(items, key)) && NoneEmpty(GroupBy(items, key))
    ensures forall k :: ItemsOf(GroupBy(items, key), k) == WithKey(items, key, k)
    ensures forall k :: k in Keys(GroupBy(items, key)) <==> WithKey(items, key, k) != []
    ensures Total(GroupBy(items, key)) == |items|
  {
    if items != [] {
      var front, last := items[..|items| - 1], items[|items| - 1];
      var groups := GroupBy(front, key);
      GroupByPartitions(front, key);
      PutKeys(groups, key(last), last);
      PutTotal(groups, key(last), last);
      forall k
        ensures ItemsOf(GroupBy(items, key), k) == WithKey(items, key, k)
      {
        PutItems(groups, key(last), last, k);
      }
    }
  }

  /** In a list of groups with distinct keys, a group is found under its own key. */
  lemma {:induction false} GroupIsFiled<K, T>(groups: seq<Group<K, T>>, g: Group<K, T>)
    requires DistinctKeys(groups) && g in groups
    ensures g.key in Keys(groups) && ItemsOf(groups, g.key) == g.items
  {
    if groups[0] != g {
      GroupIsFiled(groups[1..], g);
    }
  }

  lemma {:induction false} KeyHasGroup<K, T>(groups: seq<Group<K, T>>, k: K)
    requires k in Keys(groups)
    ensures Group(k, ItemsOf(groups, k)) in groups
  {
    if groups[0].key != k { KeyHasGroup(groups[1..], k); }
  }

  lemma {:induction false} WithKeyMember<K, T>(items: seq<T>, key: T -> K, k: K, x: T)
    ensures x in WithKey(items, key, k) <==> x in items && key(x) == k
  {
    if items != [] {
      assert items == items[..|items| - 1] + [items[|items| - 1]];
      WithKeyMember(items[..|items| - 1], key, k, x);
    }
  }

  lemma {:induction false} WithKeyNext<K, T>(items: seq<T>, x: T, key: T -> K, k: K)
    ensures WithKey(items + [x], key, k) == WithKey(items, key, k) + if key(x) == k then [x] else []
  {
    assert (items + [x])[..|items|] == items;
  }

  /** `at` are the places of the items with this key. */
  ghost predicate Keyed<K, T>(items: seq<T>, key: T -> K, k: K, at: seq<nat>) {
    forall i: nat :: i in at <==> i < |items| && key(items[i]) == k
  }

  lemma {:induction false} KeyedNext<K, T>(items: seq<T>, key: T -> K, k: K, at: seq<nat>)
    requires items != [] && Keyed(items[..|items| - 1], key, k, at)
    ensures Keyed(items, key, k, Taken(at, |items| - 1, key(items[|items| - 1]) == k))
  {
  }

  lemma {:induction false} WithKeyPicksNext<K, T>(items: seq<T>, key: T -> K, k: K, at: seq<nat>)
    requires items != [] && Picks(items[..|items| - 1], at, WithKey(items[..|items| - 1], key, k))
    ensures Picks(items, Taken(at, |items| - 1, key(items[|items| - 1]) == k), WithKey(items, key, k))
  {
    var front, last := items[..|items| - 1], items[|items| - 1];
    assert items == front + [last];
    PicksAppend(front, last, at, WithKey(front, key, k), key(last) == k);
  }

  /** The items with a key, by their places, which increase. */
  lemma {:induction false} WithKeyPicks<K, T>(items: seq<T>, key: T -> K, k: K) returns (at: seq<nat>)
    ensures Picks(items, at, WithKey(items, key, k)) && Keyed(items, key, k, at)
  {
    at := [];
    if items != [] {
      at := WithKeyPicks(items[..|items| - 1], key, k);
      KeyedNext(items, key, k, at);
      WithKeyPicksNext(items, key, k, at);
      at := Taken(at, |items| - 1, key(items[|items| - 1]) == k);
    }
  }

  /** The key `k` occurs, and `l` does not occur before it. */
  ghost predicate AppearsBefore<K, T>(items: seq<T>, key: T -> K, k: K, l: K) {
    exists p :: 0 <= p < |items| && key(items[p]) == k && forall q :: 0 <= q <= p ==> key(items[q]) != l
  }

  ghost predicate InAppearance<K, T>(items: seq<T>, key: T -> K, keys: seq<K>) {
    forall i, j :: 0 <= i < j < |keys| ==> AppearsBefore(items, key, keys[i], keys[j])
  }

  lemma {:induction false} PutOrder<K, T>(groups: seq<Group<K, T>>, key: K, item: T)
    ensures Keys(Put(groups, key, item)) == if key in Keys(groups) then Keys(groups) else Keys(groups) + [key]
  {
    if groups != [] {
      PutTail(groups, key, item);
      if groups[0].key != key { PutOrder(groups[1..], key, item); }
    }
  }

  lemma {:induction false} AppearanceExtends<K, T>(items: seq<T>, key: T -> K, k: K, l: K)
    requires items != [] && AppearsBefore(items[..|items| - 1], key, k, l)
    ensures AppearsBefore(items, key, k, l)
  {
    var front := items[..|items| - 1];
    var p :| 0 <= p < |front| && key(front[p]) == k && forall q :: 0 <= q <= p ==> key(front[q]) != l;
    assert items[p] == front[p];
    forall q | 0 <= q <= p ensures key(items[q]) != l { assert items[q] == front[q]; }
  }

  lemma {:induction false} NewComesLast<K, T>(items: seq<T>, key: T -> K, k: K)
    requires items != [] && WithKey(items[..|items| - 1], key, k) != []
    requires WithKey(items[..|items| - 1], key, key(items[|items| - 1])) == []
    ensures AppearsBefore(items, key, k, key(items[|items| - 1]))
  {
    var front, l := items[..|items| - 1], key(items[|items| - 1]);
    WithKeyMember(front, key, k, WithKey(front, key, k)[0]);
    var p :| 0 <= p < |front| && front[p] == WithKey(front, key, k)[0];
    forall q | 0 <= q <= p
      ensures key(items[q]) != l
    {
      WithKeyMember(front, key, l, front[q]);
    }
  }

  /** The groups stand in the order in which their keys first appear. */
  lemma {:induction false} GroupsInAppearance<K, T>(items: seq<T>, key: T -> K)
    ensures InAppearance(items, key, Keys(GroupBy(items, key)))
  {
    if items != [] {
      var front, last := items[..|items| - 1], items[|items| - 1];
      var before, after := Keys(GroupBy(front, key)), Keys(GroupBy(items, key));
      GroupsInAppearance(front, key);
      GroupByPartitions(front, key);
      PutOrder(GroupBy(front, key), key(last), last);
      forall i, j | 0 <= i < j < |after|
        ensures AppearsBefore(items, key, after[i], after[j])
      {
        assert after[i] == before[i] && before[i] in before;
        if j < |before| {
          AppearanceExtends(items, key, before[i], before[j]);
        } else {
          assert key(last) !in before && WithKey(front, key, key(last)) == [];
          assert WithKey(front, key, before[i]) != [];
          NewComesLast(items, key, before[i]);
        }
      }
    }
  }

  lemma {:induction false} KeysAt<K, T>(groups: seq<Group<K, T>>, i: nat)
    requires i < |groups|
    ensures |Keys(groups)| == |groups| && Keys(groups)[i] == groups[i].key
  {
    if |groups| > 1 { KeysAt(groups[1..], if i > 0 then i - 1 else 0); }
  }

  lemma {:induction false} KeysDiffer<K, T>(groups: seq<Group<K, T>>, i: nat, j: nat)
    requires DistinctKeys(groups) && i < j < |groups|
    ensures groups[i].key != groups[j].key
    decreases i
  {
    if i > 0 {
      KeysDiffer(groups[1..], i - 1, j - 1);
    } else {
      KeysAt(groups[1..], j - 1);
      assert Keys(groups[1..])[j - 1] in Keys(groups[1..]);
    }
  }
}
