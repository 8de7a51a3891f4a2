/**
 * The relational operations the store's queries are built from: filtering
 * (`WHERE`), ordering by a key, newest or largest first (`ORDER BY … DESC`),
 * and summing a column (`SUM`).
 */
module Sequences {

  /** The elements of `xs` that satisfy `p`, in their original order: each
      satisfying element as often as it occurs in `xs`, no other element. */
  function Filter<T(!new)>(xs: seq<T>, p: T -> bool): (r: seq<T>)
    ensures |r| <= |xs|
    ensures forall x :: multiset(r)[x] == if p(x) then multiset(xs)[x] else 0
    ensures forall x :: x in r <==> x in xs && p(x)
    ensures (forall i :: 0 <= i < |xs| ==> p(xs[i])) ==> r == xs
    decreases |xs|
  {
    if xs == [] then []
    else
      assert xs == [xs[0]] + xs[1..];
      var rest := Filter(xs[1..], p);
      var r := (if p(xs[0]) then [xs[0]] else []) + rest;
      assert multiset(xs) == multiset{xs[0]} + multiset(xs[1..]);
      r
  }

  /** `xs` is ordered by `key`, largest first; ties in any order. */
  ghost predicate SortedDesc<T>(xs: seq<T>, key: T -> int) {
    forall i, j :: 0 <= i < j < |xs| ==> key(xs[i]) >= key(xs[j])
  }

  /** Puts `x` before the first element whose key is not larger than its own. */
  function Insert<T>(x: T, ys: seq<T>, key: T -> int): (r: seq<T>)
    requires SortedDesc(ys, key)
    ensures SortedDesc(r, key)
    ensures multiset(r) == multiset(ys) + multiset{x}
    ensures |r| == |ys| + 1 && (r[0] == x || (ys != [] && r[0] == ys[0]))
    decreases |ys|
  {
    if ys == [] || key(x) >= key(ys[0]) then [x] + ys
    else
      var rest := Insert(x, ys[1..], key);
      assert ys == [ys[0]] + ys[1..];
      assert key(ys[0]) >= key(rest[0]);
      var r := [ys[0]] + rest;
      assert SortedDesc(r, key) by {
        forall i, j | 0 <= i < j < |r| ensures key(r[i]) >= key(r[j]) {
          if i == 0 && j > 1 {
            assert key(rest[0]) >= key(rest[j - 1]);
          }
        }
      }
      r
  }

  /** Insertion sort, largest key first: a sorted permutation of `xs`. */
  function SortDesc<T>(xs: seq<T>, key: T -> int): (r: seq<T>)
    ensures SortedDesc(r, key)
    ensures multiset(r) == multiset(xs)
    decreases |xs|
  {
    if xs == [] then []
    else
      assert xs == [xs[0]] + xs[1..];
      Insert(xs[0], SortDesc(xs[1..], key), key)
  }

  /** No element occurs twice. */
  ghost predicate Distinct<T>(xs: seq<T>) {
    forall i, j :: 0 <= i < j < |xs| ==> xs[i] != xs[j]
  }

  lemma {:induction false} InsertDistinct<T>(x: T, ys: seq<T>, key: T -> int)
    requires SortedDesc(ys, key) && Distinct(ys) && x !in ys
    ensures Distinct(Insert(x, ys, key))
    decreases |ys|
  {
    if !(ys == [] || key(x) >= key(ys[0])) {
      var rest := Insert(x, ys[1..], key);
      assert ys == [ys[0]] + ys[1..];
      InsertDistinct(x, ys[1..], key);
      assert ys[0] !in ys[1..] by {
        forall k | 0 <= k < |ys[1..]| ensures ys[1..][k] != ys[0] {
          assert ys[1..][k] == ys[k + 1];
        }
      }
      assert multiset(rest)[ys[0]] == 0;
      var r := [ys[0]] + rest;
      forall i, j | 0 <= i < j < |r| ensures r[i] != r[j] {
        if i == 0 {
          assert r[j] in rest;
        } else {
          assert r[i] == rest[i - 1] && r[j] == rest[j - 1];
        }
      }
    }
  }

  /** Sorting keeps a list free of duplicates. */
  lemma {:induction false} SortDescDistinct<T>(xs: seq<T>, key: T -> int)
    requires Distinct(xs)
    ensures Distinct(SortDesc(xs, key))
    decreases |xs|
  {
    if xs != [] {
      assert Distinct(xs[1..]) by {
        forall i, j | 0 <= i < j < |xs[1..]| ensures xs[1..][i] != xs[1..][j] {
          assert xs[1..][i] == xs[i + 1] && xs[1..][j] == xs[j + 1];
        }
      }
      SortDescDistinct(xs[1..], key);
      var sorted := SortDesc(xs[1..], key);
      assert xs[0] !in xs[1..] by {
        forall k | 0 <= k < |xs[1..]| ensures xs[1..][k] != xs[0] {
          assert xs[1..][k] == xs[k + 1];
        }
      }
      assert multiset(sorted)[xs[0]] == 0;
      InsertDistinct(xs[0], sorted, key);
    }
  }

  /** The sum of `f` over `xs`. */
  function SumBy<T>(xs: seq<T>, f: T -> int): int
    decreases |xs|
  {
    if xs == [] then 0 else f(xs[0]) + SumBy(xs[1..], f)
  }

  lemma {:induction false} SumByInsert<T>(x: T, ys: seq<T>, key: T -> int, f: T -> int)
    requires SortedDesc(ys, key)
    ensures SumBy(Insert(x, ys, key), f) == f(x) + SumBy(ys, f)
    decreases |ys|
  {
    if !(ys == [] || key(x) >= key(ys[0])) {
      SumByInsert(x, ys[1..], key, f);
    }
  }

  /** Reordering a list does not change its sum. */
  lemma {:induction false} SumBySortDesc<T>(xs: seq<T>, key: T -> int, f: T -> int)
    ensures SumBy(SortDesc(xs, key), f) == SumBy(xs, f)
    decreases |xs|
  {
    if xs != [] {
      SumBySortDesc(xs[1..], key, f);
      SumByInsert(xs[0], SortDesc(xs[1..], key), key, f);
    }
  }
}
