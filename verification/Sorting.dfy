/**
 * A stable sort by a real-valued key, standing for the library sort that the
 * sources call. `pos` names the original positions, so that stability can be
 * stated as a strict order.
 */
module Sorting {

  ghost predicate Sorted<T>(xs: seq<T>, key: T -> real) {
    forall i, j | 0 <= i < j < |xs| :: key(xs[i]) <= key(xs[j])
  }

  /** Equal keys keep the order of their original positions. */
  ghost predicate StablySorted<T>(xs: seq<T>, key: T -> real, pos: T -> int) {
    forall i, j | 0 <= i < j < |xs| ::
      key(xs[i]) < key(xs[j]) || (key(xs[i]) == key(xs[j]) && pos(xs[i]) < pos(xs[j]))
  }

  function Insert<T>(x: T, xs: seq<T>, key: T -> real): (r: seq<T>)
    ensures multiset(r) == multiset([x]) + multiset(xs)
    ensures |r| == |xs| + 1
  {
    if xs == [] then [x]
    else if key(x) <= key(xs[0]) then [x] + xs
    else
      assert xs == [xs[0]] + xs[1..];
      [xs[0]] + Insert(x, xs[1..], key)
  }

  /** Ascending by `key`; equal keys keep their order. */
  function SortBy<T>(xs: seq<T>, key: T -> real): (r: seq<T>)
    ensures multiset(r) == multiset(xs)
    ensures |r| == |xs|
  {
    if xs == [] then [] else
      assert xs == [xs[0]] + xs[1..];
      Insert(xs[0], SortBy(xs[1..], key), key)
  }

  lemma {:induction false} SameElement<T>(xs: seq<T>, ys: seq<T>, x: T)
    requires multiset(xs) == multiset(ys)
    ensures x in xs <==> x in ys
  {
    assert x in xs <==> x in multiset(xs);
    assert x in ys <==> x in multiset(ys);
  }

  lemma {:induction false} InsertElement<T>(x: T, xs: seq<T>, key: T -> real, y: T)
    ensures y in Insert(x, xs, key) <==> y == x || y in xs
  {
    assert y in Insert(x, xs, key) <==> y in multiset(Insert(x, xs, key));
    assert y in xs <==> y in multiset(xs);
  }

  lemma {:induction false} InsertSorted<T>(x: T, xs: seq<T>, key: T -> real)
    requires Sorted(xs, key)
    ensures Sorted(Insert(x, xs, key), key)
  {
    if xs != [] && key(x) > key(xs[0]) {
      var rest := Insert(x, xs[1..], key);
      InsertSorted(x, xs[1..], key);
      forall j | 0 <= j < |rest| ensures key(xs[0]) <= key(rest[j]) {
        InsertElement(x, xs[1..], key, rest[j]);
      }
    }
  }

  /** The result is ascending in the key. */
  lemma {:induction false} SortBySorted<T>(xs: seq<T>, key: T -> real)
    ensures Sorted(SortBy(xs, key), key)
  {
    if xs != [] {
      SortBySorted(xs[1..], key);
      InsertSorted(xs[0], SortBy(xs[1..], key), key);
    }
  }

  lemma {:induction false} InsertStable<T>(x: T, xs: seq<T>, key: T -> real, pos: T -> int)
    requires StablySorted(xs, key, pos)
    requires forall y | y in xs :: pos(x) < pos(y)
    ensures StablySorted(Insert(x, xs, key), key, pos)
  {
    if xs != [] && key(x) > key(xs[0]) {
      var rest := Insert(x, xs[1..], key);
      InsertStable(x, xs[1..], key, pos);
      forall j | 0 <= j < |rest|
        ensures key(xs[0]) < key(rest[j]) || (key(xs[0]) == key(rest[j]) && pos(xs[0]) < pos(rest[j]))
      {
        InsertElement(x, xs[1..], key, rest[j]);
      }
    }
  }

  /** Entries that start in position order end ordered by key, then position. */
  lemma {:induction false} SortByStable<T>(xs: seq<T>, key: T -> real, pos: T -> int)
    requires forall i, j | 0 <= i < j < |xs| :: pos(xs[i]) < pos(xs[j])
    ensures StablySorted(SortBy(xs, key), key, pos)
  {
    if xs != [] {
      SortByStable(xs[1..], key, pos);
      forall y | y in SortBy(xs[1..], key) ensures pos(xs[0]) < pos(y) {
        SameElement(SortBy(xs[1..], key), xs[1..], y);
      }
      InsertStable(xs[0], SortBy(xs[1..], key), key, pos);
    }
  }
}
