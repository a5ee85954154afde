/** Sorting by a given order: what the library sort promises. */
module Sorting {

  ghost predicate TotalPreorder<T(!new)>(leq: (T, T) -> bool) {
    && (forall a, b :: leq(a, b) || leq(b, a))
    && (forall a, b, c :: leq(a, b) && leq(b, c) ==> leq(a, c))
  }

  ghost predicate Sorted<T>(xs: seq<T>, leq: (T, T) -> bool) {
    forall i, j :: 0 <= i < j < |xs| ==> leq(xs[i], xs[j])
  }

  /** Sorted, and only equal elements could change places. */
  ghost predicate Rigid<T>(xs: seq<T>, leq: (T, T) -> bool) {
    Sorted(xs, leq) && forall i, j :: 0 <= i < j < |xs| && leq(xs[j], xs[i]) ==> xs[i] == xs[j]
  }

  function Insert<T>(x: T, xs: seq<T>, leq: (T, T) -> bool): seq<T> {
    if xs == [] || !leq(xs[0], x) then [x] + xs else [xs[0]] + Insert(x, xs[1..], leq)
  }

  function Sort<T>(xs: seq<T>, leq: (T, T) -> bool): seq<T> {
    if xs == [] then [] else Insert(xs[|xs| - 1], Sort(xs[..|xs| - 1], leq), leq)
  }

  lemma {:induction false} InsertKeeps<T>(x: T, xs: seq<T>, leq: (T, T) -> bool)
    ensures multiset(Insert(x, xs, leq)) == multiset(xs) + multiset{x}
  {
    if xs != [] && leq(xs[0], x) {
      InsertKeeps(x, xs[1..], leq);
      assert xs == [xs[0]] + xs[1..];
    }
  }

  lemma {:induction false} InsertSorts<T(!new)>(x: T, xs: seq<T>, leq: (T, T) -> bool)
    requires TotalPreorder(leq) && Sorted(xs, leq)
    ensures Sorted(Insert(x, xs, leq), leq)
  {
    if xs != [] && leq(xs[0], x) {
      InsertSorts(x, xs[1..], leq);
      InsertKeeps(x, xs[1..], leq);
      var later := Insert(x, xs[1..], leq);
      forall j | 0 <= j < |later| ensures leq(xs[0], later[j]) {
        assert later[j] in multiset(xs[1..]) + multiset{x};
      }
    } else if xs != [] {
      assert leq(x, xs[0]);
      forall j | 0 <= j < |xs| ensures leq(x, xs[j]) {
        assert j > 0 ==> leq(xs[0], xs[j]);
      }
    }
  }

  /** A sort rearranges its input into order. */
  lemma {:induction false} SortKeeps<T(!new)>(xs: seq<T>, leq: (T, T) -> bool)
    requires TotalPreorder(leq)
    ensures multiset(Sort(xs, leq)) == multiset(xs) && Sorted(Sort(xs, leq), leq)
  {
    if xs != [] {
      var n := |xs| - 1;
      SortKeeps(xs[..n], leq);
      InsertKeeps(xs[n], Sort(xs[..n], leq), leq);
      InsertSorts(xs[n], Sort(xs[..n], leq), leq);
      assert xs == xs[..n] + [xs[n]];
    }
  }

  lemma FirstAgrees<T(!new)>(a: seq<T>, b: seq<T>, leq: (T, T) -> bool)
    requires Rigid(a, leq) && Sorted(b, leq) && multiset(a) == multiset(b) && a != []
    ensures b != [] && a[0] == b[0]
  {
    assert a[0] in multiset(b);
    var i :| 0 <= i < |b| && b[i] == a[0];
    assert b[0] in multiset(a);
    var j :| 0 <= j < |a| && a[j] == b[0];
    if i > 0 {
      assert leq(b[0], b[i]);
    }
  }

  lemma RestAgrees<T>(a: seq<T>, b: seq<T>)
    requires a != [] && b != [] && a[0] == b[0] && multiset(a) == multiset(b)
    ensures multiset(a[1..]) == multiset(b[1..])
  {
    assert a == [a[0]] + a[1..] && b == [b[0]] + b[1..];
    assert multiset(a[1..]) == multiset(a) - multiset{a[0]} && multiset(b[1..]) == multiset(b) - multiset{b[0]};
  }

  /** A rigid arrangement is the only sorted one, whatever sorting algorithm found it. */
  lemma {:induction false} SortedIsUnique<T(!new)>(a: seq<T>, b: seq<T>, leq: (T, T) -> bool)
    requires Rigid(a, leq) && Sorted(b, leq) && multiset(a) == multiset(b)
    ensures a == b
    decreases |a|
  {
    if a == [] {
      assert |multiset(b)| == 0;
    } else {
      FirstAgrees(a, b, leq);
      RestAgrees(a, b);
      SortedIsUnique(a[1..], b[1..], leq);
      assert a == [a[0]] + a[1..] && b == [b[0]] + b[1..];
    }
  }

  ghost predicate Distinct<T, K>(xs: seq<T>, key: T -> K) {
    forall i, j :: 0 <= i < j < |xs| ==> key(xs[i]) != key(xs[j])
  }

  lemma {:induction false} InsertKeepsDistinct<T, K>(x: T, xs: seq<T>, leq: (T, T) -> bool, key: T -> K)
    requires Distinct(xs, key) && forall i :: 0 <= i < |xs| ==> key(xs[i]) != key(x)
    ensures Distinct(Insert(x, xs, leq), key)
  {
    if xs != [] && leq(xs[0], x) {
      InsertKeepsDistinct(x, xs[1..], leq, key);
      InsertKeeps(x, xs[1..], leq);
      var later := Insert(x, xs[1..], leq);
      forall j | 0 <= j < |later| ensures key(later[j]) != key(xs[0]) {
        assert later[j] in multiset(xs[1..]) + multiset{x};
      }
    }
  }

  /** Sorting does not repeat anything. */
  lemma {:induction false} SortKeepsDistinct<T(!new), K>(xs: seq<T>, leq: (T, T) -> bool, key: T -> K)
    requires TotalPreorder(leq) && Distinct(xs, key)
    ensures Distinct(Sort(xs, leq), key)
  {
    if xs != [] {
      var n := |xs| - 1;
      SortKeepsDistinct(xs[..n], leq, key);
      SortKeeps(xs[..n], leq);
      var sorted := Sort(xs[..n], leq);
      forall i | 0 <= i < |sorted| ensures key(sorted[i]) != key(xs[n]) {
        assert sorted[i] in multiset(xs[..n]);
      }
      InsertKeepsDistinct(xs[n], sorted, leq, key);
    }
  }

  /** An inserted element stands behind everything not greater. */
  lemma {:induction false} InsertPlace<T>(x: T, xs: seq<T>, leq: (T, T) -> bool) returns (k: nat)
    ensures k <= |xs| && Insert(x, xs, leq) == xs[..k] + [x] + xs[k..]
    ensures (forall i :: 0 <= i < k ==> leq(xs[i], x)) && (k < |xs| ==> !leq(xs[k], x))
  {
    if xs == [] || !leq(xs[0], x) {
      k := 0;
      assert xs[..0] + [x] + xs[0..] == [x] + xs;
    } else {
      var j := InsertPlace(x, xs[1..], leq);
      k := j + 1;
      assert xs[..k] == [xs[0]] + xs[1..][..j] && xs[k..] == xs[1..][j..];
    }
  }

  /** Takes one occurrence of an element out of a sequence. */
  lemma TakeOut<T>(xs: seq<T>, y: T) returns (before: seq<T>, behind: seq<T>)
    requires y in multiset(xs)
    ensures xs == before + [y] + behind && multiset(before + behind) == multiset(xs) - multiset{y}
  {
    var k :| 0 <= k < |xs| && xs[k] == y;
    before, behind := xs[..k], xs[k + 1..];
    assert xs == before + [y] + behind;
    assert multiset(xs) == multiset(before) + multiset{y} + multiset(behind);
  }
}
