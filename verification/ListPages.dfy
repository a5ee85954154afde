/** Shallow listings: a bounded heap gives the same page as sorting everything, and pages chain without gaps or repeats. */
module ListPages {
  import opened Ordering
  import opened Sorting

  const DEFAULT_LIMIT := 100
  const MAX_LIMIT := 500

  predicate ByPosition(a: Position, b: Position) {
    ComparePosition(a, b) <= 0
  }

  lemma ByPositionIsOrder()
    ensures TotalPreorder(ByPosition)
    ensures forall a, b :: ByPosition(a, b) && ByPosition(b, a) ==> a == b
  {
    forall a, b ensures ByPosition(a, b) || ByPosition(b, a) {
      BeforeAsymmetric(b, a);
    }
    forall a, b, c | ByPosition(a, b) && ByPosition(b, c) ensures ByPosition(a, c) {
      if Before(a, b) && Before(b, c) {
        BeforeTransitive(a, b, c);
      }
    }
    forall a, b | ByPosition(a, b) && ByPosition(b, a) ensures a == b {
      BeforeAsymmetric(a, b);
    }
  }

  predicate Past(after: Option<Position>, p: Position) {
    after.None? || ComparePosition(p, after.value) > 0
  }

  /** The entries behind the boundary. */
  function Eligible(names: seq<Position>, after: Option<Position>): seq<Position> {
    if names == [] then []
    else Eligible(names[..|names| - 1], after) + if Past(after, names[|names| - 1]) then [names[|names| - 1]] else []
  }

  function Arranged(names: seq<Position>, after: Option<Position>): seq<Position> {
    Sort(Eligible(names, after), ByPosition)
  }

  function Top(xs: seq<Position>, n: nat): seq<Position> {
    if |xs| <= n then xs else xs[..n]
  }

  datatype Page = Page(entries: seq<Position>, hasMore: bool, boundaryFound: bool) | LimitExceeded

  /** Filter, sort, take the limit. */
  function PageOf(names: seq<Position>, after: Option<Position>, limit: nat): Page {
    var sorted := Arranged(names, after);
    if after.Some? && after.value !in names then Page([], false, false) else Page(Top(sorted, limit), |sorted| > limit, true)
  }

  // ---- the bounded heap -------------------------------------------------------------------------

  /** A greatest element, which is what a max-heap has at its root. */
  method Greatest(kept: seq<Position>) returns (k: nat)
    requires kept != []
    ensures k < |kept| && forall j :: 0 <= j < |kept| ==> ByPosition(kept[j], kept[k])
  {
    ByPositionIsOrder();
    k := 0;
    for i := 1 to |kept|
      invariant k < |kept| && forall j :: 0 <= j < i ==> ByPosition(kept[j], kept[k])
    {
      if !ByPosition(kept[i], kept[k]) {
        k := i;
      }
    }
  }

  lemma TopOfLonger(a: seq<Position>, b: seq<Position>, n: nat)
    requires |a| >= n
    ensures Top(a + b, n) == a[..n]
  {
  }

  /** A greater element does not change the first n. */
  lemma TopUnchanged(x: Position, xs: seq<Position>, n: nat)
    requires Sorted(xs, ByPosition) && 0 < n <= |xs| && ByPosition(xs[n - 1], x)
    ensures Top(Insert(x, xs, ByPosition), n) == xs[..n]
  {
    ByPositionIsOrder();
    var k := InsertPlace(x, xs, ByPosition);
    forall i | 0 <= i < n ensures ByPosition(xs[i], x) {
      assert i == n - 1 || ByPosition(xs[i], xs[n - 1]);
    }
    assert xs[..k] + [x] + xs[k..] == xs[..k] + ([x] + xs[k..]);
    TopOfLonger(xs[..k], [x] + xs[k..], n);
  }

  lemma Exchange(a: seq<Position>, b: seq<Position>, x: Position, y: Position)
    ensures multiset(a + [x] + b) == multiset(a + b + [y]) - multiset{y} + multiset{x}
  {
  }

  lemma SplitAt(xs: seq<Position>, k: nat, n: nat)
    requires k <= n - 1 < |xs|
    ensures xs[k..] == xs[k..n - 1] + xs[n - 1..] && xs[..n] == xs[..k] + xs[k..n - 1] + [xs[n - 1]]
  {
  }

  /** A smaller one takes the place of the n-th. */
  lemma TopReplaced(x: Position, xs: seq<Position>, n: nat)
    requires Sorted(xs, ByPosition) && 0 < n <= |xs| && !ByPosition(xs[n - 1], x)
    ensures multiset(Top(Insert(x, xs, ByPosition), n)) == multiset(xs[..n]) - multiset{xs[n - 1]} + multiset{x}
  {
    var k := InsertPlace(x, xs, ByPosition);
    SplitAt(xs, k, n);
    var a, b, c := xs[..k], xs[k..n - 1], xs[n - 1..];
    Regroup(a, [x], b, c);
    TopOfLonger(a + [x] + b, c, n);
    Exchange(a, b, x, xs[n - 1]);
  }

  lemma Regroup(a: seq<Position>, b: seq<Position>, c: seq<Position>, d: seq<Position>)
    ensures a + b + (c + d) == a + b + c + d && (a + b + c)[..|a| + |b| + |c|] == a + b + c
  {
  }

  /** What the heap holds: the first of the entries seen so far. */
  ghost predicate Holds(kept: seq<Position>, sorted: seq<Position>, capacity: nat) {
    multiset(kept) == multiset(Top(sorted, capacity))
  }

  lemma SameSize(a: seq<Position>, b: seq<Position>)
    requires multiset(a) == multiset(b)
    ensures |a| == |b|
  {
    assert |multiset(a)| == |a| && |multiset(b)| == |b|;
  }

  /** The root of a full heap is the last of what it holds. */
  lemma GreatestIsLast(kept: seq<Position>, top: seq<Position>, k: nat)
    requires Sorted(top, ByPosition) && multiset(kept) == multiset(top) && k < |kept|
    requires forall j :: 0 <= j < |kept| ==> ByPosition(kept[j], kept[k])
    ensures top != [] && kept[k] == top[|top| - 1]
  {
    ByPositionIsOrder();
    SameSize(kept, top);
    assert kept[k] in multiset(top);
    var i :| 0 <= i < |top| && top[i] == kept[k];
    assert top[|top| - 1] in multiset(kept);
    var j :| 0 <= j < |kept| && kept[j] == top[|top| - 1];
    assert i == |top| - 1 || ByPosition(top[i], top[|top| - 1]);
  }

  lemma HoldsMore(kept: seq<Position>, x: Position, capacity: nat, sorted: seq<Position>)
    requires Holds(kept, sorted, capacity) && |kept| < capacity
    ensures Holds(kept + [x], Insert(x, sorted, ByPosition), capacity)
  {
    SameSize(kept, Top(sorted, capacity));
    InsertKeeps(x, sorted, ByPosition);
    assert multiset(sorted + [x]) == multiset(Insert(x, sorted, ByPosition));
    SameSize(Insert(x, sorted, ByPosition), sorted + [x]);
  }

  lemma Removed(kept: seq<Position>, k: nat, x: Position)
    requires k < |kept|
    ensures multiset(kept[..k] + kept[k + 1..] + [x]) == multiset(kept) - multiset{kept[k]} + multiset{x}
  {
    assert kept == kept[..k] + [kept[k]] + kept[k + 1..];
    Exchange(kept[..k], kept[k + 1..], kept[k], x);
  }

  /** Offers one more entry to the heap. */
  method Offer(kept: seq<Position>, x: Position, capacity: nat, ghost sorted: seq<Position>) returns (next: seq<Position>)
    requires capacity > 0 && Sorted(sorted, ByPosition) && Holds(kept, sorted, capacity)
    ensures Holds(next, Insert(x, sorted, ByPosition), capacity)
  {
    hide Insert, ComparePosition, Holds;
    if |kept| < capacity {
      HoldsMore(kept, x, capacity, sorted);
      next := kept + [x];
      return;
    }
    HoldsAll(kept, capacity, sorted);
    var k := Greatest(kept);
    GreatestIsLast(kept, sorted[..capacity], k);
    BeforeAsymmetric(x, kept[k]);
    if ComparePosition(x, kept[k]) < 0 {
      TopReplaced(x, sorted, capacity);
      Removed(kept, k, x);
      next := kept[..k] + kept[k + 1..] + [x];
    } else {
      TopUnchanged(x, sorted, capacity);
      next := kept;
    }
    assert Holds(next, Insert(x, sorted, ByPosition), capacity) by {
      HoldsWhen(next, Insert(x, sorted, ByPosition), capacity);
    }
  }

  lemma HoldsAll(kept: seq<Position>, capacity: nat, sorted: seq<Position>)
    requires Holds(kept, sorted, capacity) && |kept| >= capacity
    ensures |sorted| >= capacity && multiset(kept) == multiset(sorted[..capacity])
  {
    SameSize(kept, Top(sorted, capacity));
    assert |sorted| == capacity ==> sorted[..capacity] == sorted;
  }

  lemma HoldsWhen(kept: seq<Position>, sorted: seq<Position>, capacity: nat)
    requires multiset(kept) == multiset(Top(sorted, capacity))
    ensures Holds(kept, sorted, capacity)
  {
  }

  lemma ArrangedNext(names: seq<Position>, after: Option<Position>, i: nat)
    requires i < |names|
    ensures Arranged(names[..i + 1], after) == if Past(after, names[i]) then Insert(names[i], Arranged(names[..i], after), ByPosition) else Arranged(names[..i], after)
  {
    var seen := Eligible(names[..i], after);
    assert names[..i + 1][..i] == names[..i] && (seen + [names[i]])[..|seen|] == seen;
    assert seen + [] == seen;
  }

  /** The scan: filters against the boundary and keeps a bounded heap. */
  method Collect(names: seq<Position>, after: Option<Position>, capacity: nat) returns (kept: seq<Position>, found: bool)
    requires capacity > 0
    ensures Holds(kept, Arranged(names, after), capacity)
    ensures found <==> after.None? || after.value in names
  {
    hide Arranged, Holds, ComparePosition;
    kept, found := [], after.None?;
    var i := 0;
    NothingHeld(after, capacity);
    assert names[..0] == [];
    while i < |names|
      invariant 0 <= i <= |names| && Holds(kept, Arranged(names[..i], after), capacity)
      invariant found <==> after.None? || after.value in names[..i]
    {
      var position := names[i];
      ArrangedNext(names, after, i);
      assert names[..i + 1] == names[..i] + [position];
      if after.Some? && ComparePosition(position, after.value) == 0 {
        found := true;
      }
      if after.None? || ComparePosition(position, after.value) > 0 {
        ArrangedIsSorted(names[..i], after);
        kept := Offer(kept, position, capacity, Arranged(names[..i], after));
      }
      i := i + 1;
    }
    assert names[..i] == names;
  }

  /** One listing: scans, sorts what the heap kept, and reports one entry more as a flag. */
  method ListPage(names: seq<Position>, after: Option<Position>, requested: nat) returns (page: Page)
    ensures requested > MAX_LIMIT ==> page == LimitExceeded
    ensures requested <= MAX_LIMIT ==> page == PageOf(names, after, if requested == 0 then DEFAULT_LIMIT else requested)
  {
    hide Arranged, Holds, ComparePosition, Sort;
    var limit := if requested == 0 then DEFAULT_LIMIT else requested;
    if limit > MAX_LIMIT {
      return LimitExceeded;
    }
    var kept, found := Collect(names, after, limit + 1);
    if !found {
      return Page([], false, false);
    }
    var selected := Sort(kept, ByPosition);
    SelectedIsTop(kept, names, after, limit + 1);
    var hasMore := |selected| > limit;
    page := Page(if hasMore then selected[..limit] else selected, hasMore, true);
  }

  lemma NothingHeld(after: Option<Position>, capacity: nat)
    ensures Holds([], Arranged([], after), capacity)
  {
  }

  lemma ArrangedIsSorted(names: seq<Position>, after: Option<Position>)
    ensures Sorted(Arranged(names, after), ByPosition) && multiset(Arranged(names, after)) == multiset(Eligible(names, after))
  {
    ByPositionIsOrder();
    SortKeeps(Eligible(names, after), ByPosition);
  }

  lemma SelectedIsTop(kept: seq<Position>, names: seq<Position>, after: Option<Position>, capacity: nat)
    requires Holds(kept, Arranged(names, after), capacity)
    ensures Sort(kept, ByPosition) == Top(Arranged(names, after), capacity)
  {
    ByPositionIsOrder();
    SortKeeps(kept, ByPosition);
    SortKeeps(Eligible(names, after), ByPosition);
    SortedIsUnique(Top(Arranged(names, after), capacity), Sort(kept, ByPosition), ByPosition);
  }

  // ---- chained pages ----------------------------------------------------------------------------

  ghost predicate AllDifferent(names: seq<Position>) {
    forall i, j :: 0 <= i < j < |names| ==> names[i] != names[j]
  }

  lemma {:induction false} EligibleMembers(names: seq<Position>, after: Option<Position>, p: Position)
    ensures multiset(Eligible(names, after))[p] == if Past(after, p) then multiset(names)[p] else 0
  {
    if names != [] {
      var n := |names| - 1;
      EligibleMembers(names[..n], after, p);
      assert names == names[..n] + [names[n]];
    }
  }

  /** Two boundaries filter one after the other as the later one does alone. */
  lemma EligibleTwice(names: seq<Position>, after: Option<Position>, b: Position)
    requires Past(after, b)
    ensures multiset(Eligible(names, Some(b))) == multiset(Eligible(Eligible(names, after), Some(b)))
  {
    forall p ensures multiset(Eligible(names, Some(b)))[p] == multiset(Eligible(Eligible(names, after), Some(b)))[p] {
      EligibleMembers(names, Some(b), p);
      EligibleMembers(names, after, p);
      EligibleMembers(Eligible(names, after), Some(b), p);
      if after.Some? && Past(Some(b), p) {
        BeforeAsymmetric(after.value, b);
        BeforeAsymmetric(b, p);
        BeforeTransitive(after.value, b, p);
        BeforeAsymmetric(after.value, p);
      }
    }
  }

  lemma {:induction false} EligibleConcat(a: seq<Position>, b: seq<Position>, after: Option<Position>)
    ensures Eligible(a + b, after) == Eligible(a, after) + Eligible(b, after)
    decreases |b|
  {
    if b == [] {
      assert a + b == a;
    } else {
      assert (a + b)[..|a + b| - 1] == a + b[..|b| - 1];
      EligibleConcat(a, b[..|b| - 1], after);
    }
  }

  lemma {:induction false} AllEligible(xs: seq<Position>, after: Option<Position>, past: bool)
    requires forall i :: 0 <= i < |xs| ==> Past(after, xs[i]) == past
    ensures Eligible(xs, after) == if past then xs else []
  {
    if xs != [] {
      AllEligible(xs[..|xs| - 1], after, past);
    }
  }

  lemma {:induction false} SortedDiffers(xs: seq<Position>)
    requires Distinct(xs, (p: Position) => p) && Sorted(xs, ByPosition)
    ensures Increasing(xs)
  {
    forall i, j | 0 <= i < j < |xs| ensures Before(xs[i], xs[j]) {
      assert ByPosition(xs[i], xs[j]);
      assert ((p: Position) => p)(xs[i]) != ((p: Position) => p)(xs[j]);
    }
  }

  ghost predicate Increasing(sorted: seq<Position>) {
    forall i, j :: 0 <= i < j < |sorted| ==> Before(sorted[i], sorted[j])
  }

  lemma PastTheLast(sorted: seq<Position>, k: nat, i: nat)
    requires Increasing(sorted) && 0 < k <= |sorted| && i < |sorted|
    ensures Past(Some(sorted[k - 1]), sorted[i]) == (i >= k)
  {
    BeforeAsymmetric(sorted[k - 1], sorted[i]);
    BeforeAsymmetric(sorted[i], sorted[k - 1]);
    if i > k - 1 {
      assert Before(sorted[k - 1], sorted[i]);
    } else if i < k - 1 {
      assert Before(sorted[i], sorted[k - 1]);
    }
  }

  lemma EarlyAndLate(sorted: seq<Position>, k: nat)
    requires 0 < k <= |sorted| && Increasing(sorted)
    ensures forall i :: 0 <= i < |sorted[..k]| ==> Past(Some(sorted[k - 1]), sorted[..k][i]) == false
    ensures forall i :: 0 <= i < |sorted[k..]| ==> Past(Some(sorted[k - 1]), sorted[k..][i]) == true
  {
    hide Increasing, Past;
    forall i | 0 <= i < |sorted[..k]| ensures Past(Some(sorted[k - 1]), sorted[..k][i]) == false {
      PastTheLast(sorted, k, i);
    }
    forall i | 0 <= i < |sorted[k..]| ensures Past(Some(sorted[k - 1]), sorted[k..][i]) == true {
      PastTheLast(sorted, k, k + i);
    }
  }

  /** Behind the k-th entry stand exactly the later ones. */
  lemma BehindTheLast(sorted: seq<Position>, k: nat)
    requires 0 < k <= |sorted| && Increasing(sorted)
    ensures Eligible(sorted, Some(sorted[k - 1])) == sorted[k..]
  {
    hide Increasing, Past, Eligible;
    EarlyAndLate(sorted, k);
    AllEligible(sorted[..k], Some(sorted[k - 1]), false);
    AllEligible(sorted[k..], Some(sorted[k - 1]), true);
    EligibleConcat(sorted[..k], sorted[k..], Some(sorted[k - 1]));
    assert sorted[..k] + sorted[k..] == sorted;
    assert [] + sorted[k..] == sorted[k..];
  }

  /** The next page's entries are the ones this page left. */
  lemma NextArranged(names: seq<Position>, after: Option<Position>, k: nat)
    requires AllDifferent(names) && 0 < k <= |Arranged(names, after)|
    ensures var sorted := Arranged(names, after); Arranged(names, Some(sorted[k - 1])) == sorted[k..]
  {
    hide Arranged, Eligible, Past, ComparePosition, Increasing, ByPosition;
    var sorted := Arranged(names, after);
    var b := sorted[k - 1];
    ArrangedIsSorted(names, after);
    ArrangedStrict(names, after);
    ArrangedIsPast(names, after, k - 1);
    EligibleTwice(names, after, b);
    BehindTheLast(sorted, k);
    SameEligible(Eligible(names, after), sorted, Some(b));
    ArrangedIsSorted(names, Some(b));
    SortedIsRigid(sorted[k..]);
    SortedIsUnique(sorted[k..], Arranged(names, Some(b)), ByPosition);
  }

  lemma SortedIsRigid(xs: seq<Position>)
    requires Sorted(xs, ByPosition)
    ensures Rigid(xs, ByPosition)
  {
    ByPositionIsOrder();
  }

  lemma SameEligible(a: seq<Position>, b: seq<Position>, after: Option<Position>)
    requires multiset(a) == multiset(b)
    ensures multiset(Eligible(a, after)) == multiset(Eligible(b, after))
  {
    forall p ensures multiset(Eligible(a, after))[p] == multiset(Eligible(b, after))[p] {
      EligibleMembers(a, after, p);
      EligibleMembers(b, after, p);
    }
  }

  lemma ArrangedIsPast(names: seq<Position>, after: Option<Position>, i: nat)
    requires i < |Arranged(names, after)|
    ensures Past(after, Arranged(names, after)[i])
  {
    var p := Arranged(names, after)[i];
    ArrangedIsSorted(names, after);
    assert p in multiset(Arranged(names, after));
    EligibleMembers(names, after, p);
  }

  lemma {:induction false} EligibleDistinct(names: seq<Position>, after: Option<Position>)
    requires AllDifferent(names)
    ensures Distinct(Eligible(names, after), (p: Position) => p)
  {
    if names != [] {
      var n := |names| - 1;
      EligibleDistinct(names[..n], after);
      var rest := Eligible(names[..n], after);
      forall i | 0 <= i < |rest| ensures rest[i] != names[n] {
        assert rest[i] in multiset(rest);
        EligibleMembers(names[..n], after, rest[i]);
        assert rest[i] in names[..n];
      }
    }
  }

  lemma ArrangedStrict(names: seq<Position>, after: Option<Position>)
    requires AllDifferent(names)
    ensures Increasing(Arranged(names, after))
  {
    ByPositionIsOrder();
    EligibleDistinct(names, after);
    SortKeepsDistinct(Eligible(names, after), ByPosition, (p: Position) => p);
    ArrangedIsSorted(names, after);
    SortedDiffers(Arranged(names, after));
  }

  /** All entries of the pages that follow one another from a boundary, the last entry of each being the next boundary. */
  function Listing(names: seq<Position>, after: Option<Position>, limit: nat, pages: nat): seq<Position>
    decreases pages
  {
    if pages == 0 then []
    else
      var page := PageOf(names, after, limit);
      if page.LimitExceeded? || !page.hasMore || page.entries == [] then (if page.Page? then page.entries else [])
      else page.entries + Listing(names, Some(page.entries[|page.entries| - 1]), limit, pages - 1)
  }

  /** Chained pages list every entry behind the first boundary exactly once, in order. */
  lemma {:induction false} PagesListEverything(names: seq<Position>, after: Option<Position>, limit: nat, pages: nat)
    requires AllDifferent(names) && limit > 0 && (after.Some? ==> after.value in names) && pages * limit >= |Arranged(names, after)| && pages > 0
    ensures Listing(names, after, limit, pages) == Arranged(names, after)
    decreases pages
  {
    hide Arranged;
    var sorted := Arranged(names, after);
    if |sorted| > limit {
      var last := sorted[limit - 1];
      assert Top(sorted, limit)[limit - 1] == last;
      NextArranged(names, after, limit);
      ArrangedFromNames(names, after, limit - 1);
      LaterPages(pages, limit, |sorted|);
      PagesListEverything(names, Some(last), limit, pages - 1);
      assert sorted == sorted[..limit] + sorted[limit..];
    }
  }

  lemma LaterPages(pages: nat, limit: nat, size: nat)
    requires pages * limit >= size > limit
    ensures pages > 1 && (pages - 1) * limit >= size - limit
  {
    if pages <= 1 {
      AtMostOne(pages, limit);
    }
  }

  lemma AtMostOne(pages: nat, limit: nat)
    requires pages <= 1
    ensures pages * limit <= limit
  {
  }

  lemma ArrangedFromNames(names: seq<Position>, after: Option<Position>, i: nat)
    requires i < |Arranged(names, after)|
    ensures Arranged(names, after)[i] in names
  {
    var p := Arranged(names, after)[i];
    ArrangedIsSorted(names, after);
    assert p in multiset(Arranged(names, after));
    EligibleMembers(names, after, p);
  }
}
