/** Sorting by a comparator, standing in for Python's `list.sort(key=…)` and
    SQL `ORDER BY`. `less(a, b)` says that `a` goes strictly before `b`. */
module Sorting {

  /** No element is followed by one that goes strictly before it. */
  predicate SortedBy<T>(s: seq<T>, less: (T, T) -> bool) {
    forall i, j :: 0 <= i < j < |s| ==> !less(s[j], s[i])
  }

  /** `less` is irreflexive and transitive. */
  ghost predicate StrictOrder<T(!new)>(less: (T, T) -> bool) {
    && (forall a :: !less(a, a))
    && (forall a, b, c :: less(a, b) && less(b, c) ==> less(a, c))
  }

  /** A strict order whose incomparability is transitive, as every order by
      a sort key is: if `a` goes before `c`, any `b` goes after `a` or before
      `c`. */
  ghost predicate StrictWeakOrder<T(!new)>(less: (T, T) -> bool) {
    && StrictOrder(less)
    && (forall a, b, c :: less(a, c) ==> less(a, b) || less(b, c))
  }

  /** Neither of `a` and `b` goes before the other: they have equal keys. */
  predicate Tied<T>(a: T, b: T, less: (T, T) -> bool) {
    !less(a, b) && !less(b, a)
  }

  /** The elements of `s` tied with `x`, in their order in `s`. */
  function TiedWith<T>(s: seq<T>, x: T, less: (T, T) -> bool): (r: seq<T>)
    ensures |r| <= |s|
    ensures forall i :: 0 <= i < |r| ==> Tied(r[i], x, less)
    decreases |s|
  {
    if s == [] then []
    else TiedWith(s[..|s| - 1], x, less) + (if Tied(s[|s| - 1], x, less) then [s[|s| - 1]] else [])
  }

  lemma {:induction false} TiedWithAppend<T>(a: seq<T>, b: seq<T>, x: T, less: (T, T) -> bool)
    ensures TiedWith(a + b, x, less) == TiedWith(a, x, less) + TiedWith(b, x, less)
    decreases |b|
  {
    if b == [] {
      assert a + b == a;
    } else {
      var init := b[..|b| - 1];
      assert (a + b)[..|a + b| - 1] == a + init;
      TiedWithAppend(a, init, x, less);
    }
  }

  /** Insert `x` before the first element it goes strictly before. */
  function Insert<T>(x: T, s: seq<T>, less: (T, T) -> bool): (r: seq<T>)
    ensures |r| == |s| + 1
    decreases |s|
  {
    if s == [] then [x]
    else if less(x, s[0]) then [x] + s
    else [s[0]] + Insert(x, s[1..], less)
  }

  /** Insertion sort, inserting the elements from the last one backwards so
      that an element lands after the equal elements before it. */
  function Sort<T>(s: seq<T>, less: (T, T) -> bool): (r: seq<T>)
    ensures |r| == |s|
    decreases |s|
  {
    if s == [] then [] else Insert(s[|s| - 1], Sort(s[..|s| - 1], less), less)
  }

  lemma {:induction false} InsertPermutes<T>(x: T, s: seq<T>, less: (T, T) -> bool)
    ensures multiset(Insert(x, s, less)) == multiset(s) + multiset{x}
    decreases |s|
  {
    if s != [] && !less(x, s[0]) {
      InsertPermutes(x, s[1..], less);
      assert s == [s[0]] + s[1..];
    }
  }

  lemma {:induction false} InsertSorted<T(!new)>(x: T, s: seq<T>, less: (T, T) -> bool)
    requires StrictOrder(less) && SortedBy(s, less)
    ensures SortedBy(Insert(x, s, less), less)
    decreases |s|
  {
    if s == [] {
    } else if less(x, s[0]) {
      var r := [x] + s;
      forall i, j | 0 <= i < j < |r| ensures !less(r[j], r[i]) {
        if i == 0 {
          assert r[j] == s[j - 1];
        } else {
          assert r[i] == s[i - 1] && r[j] == s[j - 1];
        }
      }
    } else {
      var t := Insert(x, s[1..], less);
      InsertSorted(x, s[1..], less);
      InsertPermutes(x, s[1..], less);
      var r := [s[0]] + t;
      forall i, j | 0 <= i < j < |r| ensures !less(r[j], r[i]) {
        if i == 0 {
          assert r[j] == t[j - 1];
          assert r[j] in multiset(t);
          if r[j] != x {
            assert r[j] in multiset(s[1..]);
            assert r[j] in s[1..];
            var k :| 0 <= k < |s[1..]| && s[1..][k] == r[j];
            assert s[k + 1] == r[j];
          }
        } else {
          assert r[i] == t[i - 1] && r[j] == t[j - 1];
        }
      }
    }
  }

  /** `Sort` orders the list and returns a permutation of it. */
  lemma {:induction false} SortCorrect<T(!new)>(s: seq<T>, less: (T, T) -> bool)
    requires StrictOrder(less)
    ensures SortedBy(Sort(s, less), less)
    ensures multiset(Sort(s, less)) == multiset(s)
    decreases |s|
  {
    if s != [] {
      var init := s[..|s| - 1];
      SortCorrect(init, less);
      InsertSorted(s[|s| - 1], Sort(init, less), less);
      InsertPermutes(s[|s| - 1], Sort(init, less), less);
      assert s == init + [s[|s| - 1]];
    }
  }

  /** In a sorted list, nothing after an element that `y` goes before is
      tied with anything `y` is tied with. */
  lemma NothingTiedAfter<T(!new)>(y: T, r: seq<T>, x: T, less: (T, T) -> bool)
    requires StrictWeakOrder(less) && SortedBy(r, less)
    requires r != [] && less(y, r[0]) && Tied(y, x, less)
    ensures forall i :: 0 <= i < |r| ==> !Tied(r[i], x, less)
  {
    assert less(y, x) || less(x, r[0]);
    forall i | 0 <= i < |r| ensures !Tied(r[i], x, less) {
      if i > 0 {
        assert !less(r[i], r[0]);
      }
    }
  }

  lemma {:induction false} NoneTied<T>(s: seq<T>, x: T, less: (T, T) -> bool)
    requires forall i :: 0 <= i < |s| ==> !Tied(s[i], x, less)
    ensures TiedWith(s, x, less) == []
    decreases |s|
  {
    if s != [] {
      NoneTied(s[..|s| - 1], x, less);
    }
  }

  lemma InsertFrontTied<T(!new)>(y: T, r: seq<T>, x: T, less: (T, T) -> bool)
    requires StrictWeakOrder(less) && SortedBy(r, less)
    requires r != [] && less(y, r[0])
    ensures TiedWith([y] + r, x, less) == TiedWith(r, x, less) + TiedWith([y], x, less)
  {
    assert [y][..0] == [];
    TiedWithAppend([y], r, x, less);
    if Tied(y, x, less) {
      NothingTiedAfter(y, r, x, less);
      NoneTied(r, x, less);
    }
  }

  /** An inserted element comes after every element it is tied with. */
  lemma {:induction false} InsertTied<T(!new)>(y: T, r: seq<T>, x: T, less: (T, T) -> bool)
    requires StrictWeakOrder(less) && SortedBy(r, less)
    ensures TiedWith(Insert(y, r, less), x, less) == TiedWith(r, x, less) + TiedWith([y], x, less)
    decreases |r|
  {
    assert [y][..0] == [];
    if r == [] {
    } else if less(y, r[0]) {
      InsertFrontTied(y, r, x, less);
    } else {
      var rest := r[1..];
      assert SortedBy(rest, less) by {
        forall i, j | 0 <= i < j < |rest| ensures !less(rest[j], rest[i]) {
          assert rest[i] == r[i + 1] && rest[j] == r[j + 1];
        }
      }
      var t := Insert(y, rest, less);
      assert Insert(y, r, less) == [r[0]] + t;
      InsertTied(y, rest, x, less);
      TiedWithAppend([r[0]], t, x, less);
      TiedWithAppend([r[0]], rest, x, less);
      assert r == [r[0]] + rest;
    }
  }

  /** The sort is stable: elements with equal keys keep their relative
      order, as with Python's `list.sort`. */
  lemma {:induction false} SortStable<T(!new)>(s: seq<T>, x: T, less: (T, T) -> bool)
    requires StrictWeakOrder(less)
    ensures TiedWith(Sort(s, less), x, less) == TiedWith(s, x, less)
    decreases |s|
  {
    if s != [] {
      var init := s[..|s| - 1];
      SortStable(init, x, less);
      SortCorrect(init, less);
      InsertTied(s[|s| - 1], Sort(init, less), x, less);
      assert [s[|s| - 1]][..0] == [];
    }
  }

  /** Elements of a permutation are the elements of the original. */
  lemma SortSameElements<T(!new)>(s: seq<T>, less: (T, T) -> bool, x: T)
    requires StrictOrder(less)
    ensures x in Sort(s, less) <==> x in s
  {
    SortCorrect(s, less);
    assert x in Sort(s, less) <==> x in multiset(Sort(s, less));
    assert x in s <==> x in multiset(s);
  }
}
