/** Grouping a list by a text key into an insertion-ordered dictionary of lists:
    Python's `defaultdict(list)` filled by `append`, and the JavaScript
    `reduce` that pushes into `acc[key]`. */
module Grouping {

  /** The distinct keys in order of first appearance. */
  function Keys<T>(xs: seq<T>, key: T -> string): (r: seq<string>)
    ensures |r| <= |xs|
    decreases |xs|
  {
    if xs == [] then []
    else
      var init := Keys(xs[..|xs| - 1], key);
      if key(xs[|xs| - 1]) in init then init else init + [key(xs[|xs| - 1])]
  }

  /** The elements with key `k`, in their original order. */
  function Group<T>(xs: seq<T>, key: T -> string, k: string): (r: seq<T>)
    ensures |r| <= |xs|
    decreases |xs|
  {
    if xs == [] then []
    else Group(xs[..|xs| - 1], key, k) + (if key(xs[|xs| - 1]) == k then [xs[|xs| - 1]] else [])
  }

  predicate Distinct<T(==)>(s: seq<T>) {
    forall i, j :: 0 <= i < j < |s| ==> s[i] != s[j]
  }

  /** Each key appears once, and exactly the keys of the elements appear. */
  lemma {:induction false} KeysExactly<T>(xs: seq<T>, key: T -> string)
    ensures Distinct(Keys(xs, key))
    ensures forall k :: k in Keys(xs, key) <==> exists i :: 0 <= i < |xs| && key(xs[i]) == k
    decreases |xs|
  {
    if xs != [] {
      var init := xs[..|xs| - 1];
      KeysExactly(init, key);
      forall k ensures k in Keys(xs, key) <==> exists i :: 0 <= i < |xs| && key(xs[i]) == k {
        if exists i :: 0 <= i < |xs| && key(xs[i]) == k {
          var i :| 0 <= i < |xs| && key(xs[i]) == k;
          if i < |xs| - 1 {
            assert init[i] == xs[i];
          }
        }
        if k in Keys(init, key) {
          var i :| 0 <= i < |init| && key(init[i]) == k;
          assert xs[i] == init[i];
        }
      }
    }
  }

  /** An element belongs to exactly the group of its own key, and each group
      keeps the order of the original list. */
  lemma {:induction false} GroupExactly<T>(xs: seq<T>, key: T -> string, k: string, x: T)
    ensures x in Group(xs, key, k) <==> x in xs && key(x) == k
    decreases |xs|
  {
    if xs != [] {
      var init := xs[..|xs| - 1];
      GroupExactly(init, key, k, x);
      assert xs == init + [xs[|xs| - 1]];
    }
  }

  /** Grouping loses nothing: the groups' sizes add up to the list's size. */
  lemma {:induction false} GroupsPartition<T>(xs: seq<T>, key: T -> string)
    ensures SumSizes(xs, key, Keys(xs, key)) == |xs|
    decreases |xs|
  {
    if xs != [] {
      var init := xs[..|xs| - 1];
      var last := xs[|xs| - 1];
      assert xs == init + [last] && xs[..|xs| - 1] == init;
      GroupsPartition(init, key);
      KeysExactly(init, key);
      SumSizesStep(init, last, key, Keys(init, key));
      if key(last) !in Keys(init, key) {
        assert Keys(xs, key) == Keys(init, key) + [key(last)];
        SumSizesAppend(xs, key, Keys(init, key), key(last));
        GroupEmpty(init, key, key(last));
        assert |Group(xs, key, key(last))| == 1;
      } else {
        assert Keys(xs, key) == Keys(init, key);
      }
    }
  }

  function SumSizes<T>(xs: seq<T>, key: T -> string, ks: seq<string>): nat
    decreases |ks|
  {
    if ks == [] then 0 else SumSizes(xs, key, ks[..|ks| - 1]) + |Group(xs, key, ks[|ks| - 1])|
  }

  lemma {:induction false} SumSizesAppend<T>(xs: seq<T>, key: T -> string, ks: seq<string>, k: string)
    ensures SumSizes(xs, key, ks + [k]) == SumSizes(xs, key, ks) + |Group(xs, key, k)|
  {
    assert (ks + [k])[..|ks|] == ks;
  }

  /** Appending one element grows exactly its key's group when that key is
      already listed, and no other group. */
  lemma {:induction false} SumSizesStep<T>(init: seq<T>, last: T, key: T -> string, ks: seq<string>)
    requires Distinct(ks)
    ensures SumSizes(init + [last], key, ks) == SumSizes(init, key, ks) + (if key(last) in ks then 1 else 0)
    decreases |ks|
  {
    var xs := init + [last];
    assert xs[..|xs| - 1] == init;
    if ks != [] {
      var front := ks[..|ks| - 1];
      assert Distinct(front);
      SumSizesStep(init, last, key, front);
      assert key(last) in ks <==> key(last) in front || key(last) == ks[|ks| - 1];
      if key(last) == ks[|ks| - 1] {
        assert key(last) !in front;
      }
    }
  }

  /** The grouping loop: `groups[key(x)].append(x)` for each element. */
  method GroupBy<T>(xs: seq<T>, key: T -> string) returns (order: seq<string>, groups: map<string, seq<T>>)
    ensures order == Keys(xs, key)
    ensures groups.Keys == set k | k in order
    ensures forall k :: k in groups ==> groups[k] == Group(xs, key, k)
  {
    order := [];
    groups := map[];
    var i := 0;
    while i < |xs|
      invariant 0 <= i <= |xs|
      invariant order == Keys(xs[..i], key)
      invariant groups.Keys == set k | k in order
      invariant forall k :: k in groups ==> groups[k] == Group(xs[..i], key, k)
    {
      var x := xs[i];
      assert xs[..i + 1][..i] == xs[..i] && xs[..i + 1][i] == x;
      var k := key(x);
      if k in groups {
        groups := groups[k := groups[k] + [x]];
      } else {
        order := order + [k];
        groups := groups[k := [x]];
        assert Group(xs[..i], key, k) == [] by {
          GroupEmpty(xs[..i], key, k);
        }
      }
      i := i + 1;
    }
    assert xs[..|xs|] == xs;
  }

  lemma {:induction false} GroupEmpty<T>(xs: seq<T>, key: T -> string, k: string)
    requires k !in Keys(xs, key)
    ensures Group(xs, key, k) == []
  {
    KeysExactly(xs, key);
    if Group(xs, key, k) != [] {
      var x := Group(xs, key, k)[0];
      GroupExactly(xs, key, k, x);
      assert false;
    }
  }

  /** `Object.entries` of the grouped dictionary: one entry per key in order
      of first appearance, holding that key's elements in list order. */
  function Entries<T>(xs: seq<T>, key: T -> string): (r: seq<(string, seq<T>)>)
    ensures |r| == |Keys(xs, key)|
    ensures forall i :: 0 <= i < |r| ==> r[i].0 == Keys(xs, key)[i] && r[i].1 == Group(xs, key, r[i].0)
  {
    var ks := Keys(xs, key);
    seq(|ks|, i requires 0 <= i < |ks| => (ks[i], Group(xs, key, ks[i])))
  }

  /** Each key has one entry, every element sits in exactly the entry of its
      own key, and the entries' sizes add up to the list's size. */
  lemma {:induction false} EntriesPartition<T>(xs: seq<T>, key: T -> string)
    ensures forall i, j :: 0 <= i < j < |Entries(xs, key)| ==> Entries(xs, key)[i].0 != Entries(xs, key)[j].0
    ensures forall x, i :: x in xs && 0 <= i < |Entries(xs, key)| ==>
      (x in Entries(xs, key)[i].1 <==> Entries(xs, key)[i].0 == key(x))
    ensures forall x :: x in xs ==> exists i :: 0 <= i < |Entries(xs, key)| && Entries(xs, key)[i].0 == key(x)
    ensures SumSizes(xs, key, Keys(xs, key)) == |xs|
  {
    var r := Entries(xs, key);
    var ks := Keys(xs, key);
    KeysExactly(xs, key);
    GroupsPartition(xs, key);
    forall x, i | x in xs && 0 <= i < |r|
      ensures x in r[i].1 <==> r[i].0 == key(x)
    {
      GroupExactly(xs, key, r[i].0, x);
    }
    forall x | x in xs
      ensures exists i :: 0 <= i < |r| && r[i].0 == key(x)
    {
      var j :| 0 <= j < |xs| && xs[j] == x;
      assert key(xs[j]) in ks;
      var i :| 0 <= i < |ks| && ks[i] == key(x);
      assert r[i].0 == key(x);
    }
  }
}
