/**
 * The streaming matcher for lines too long to hold: whatever the chunks it is fed, it reports what the whole line
 * would.
 */
module OversizedScan {
  import opened Ordering
  import opened Bytes
  import opened Utf8
  import opened ByteSearch
  import opened LineEvidence

  const OVERLAP := EVIDENCE_BYTES / 2 + 4 * MAX_PATTERN_BYTES + 4
  const CR: byte := 13

  // ---- facts about valid texts and windows on them ----------------------------------------------

  lemma FirstIsStart(d: seq<byte>)
    requires Valid(d) && d != []
    ensures RuneStart(d[0])
  {
    InsideRune(d, 0);
  }

  /** A valid suffix leaves a valid beginning, and runes add up. */
  lemma CutBeforeValid(a: seq<byte>, b: seq<byte>)
    requires Valid(a + b) && Valid(b)
    ensures Valid(a) && RuneCount(a + b) == RuneCount(a) + RuneCount(b)
  {
    if b != [] {
      FirstIsStart(b);
    }
    CutAtStart(a, b);
    ValidConcat(a, b);
  }

  lemma CutInside(d: seq<byte>, k: nat)
    requires Valid(d) && k <= |d| && (k == |d| || RuneStart(d[k]))
    ensures Valid(d[..k]) && Valid(d[k..])
  {
    assert d[..k] + d[k..] == d;
    CutAtStart(d[..k], d[k..]);
  }

  /** An excerpt starts at a rune at most the lead before its match. */
  lemma ExcerptStartsNear(p: seq<byte>, d: seq<byte>, first: nat)
    requires p != [] && Valid(p) && Valid(d) && OccursAt(p, d, first)
    ensures var s := ExcerptStart(d, first); s <= first && first - s <= LEAD_BYTES && Valid(d[..s]) && Valid(d[s..])
  {
    LiteralStartsRune(p, d, first);
    CutInside(d, ExcerptStart(d, first));
  }

  /** No match that fits in the part already searched is found again behind the last counted one. */
  lemma NothingMissed(p: seq<byte>, d: seq<byte>, e: seq<byte>, k: nat)
    requires p != [] && After(p, Matches(p, d, 0), 0) <= k && k + |p| <= |d|
    ensures !OccursAt(p, d + e, k)
  {
    MatchesExtend(p, d, e, 0);
    OccursInPrefix(p, d, e, k);
  }

  /** Searching on from where the last match ended, or from the window's start, finds what a search of the whole text would. */
  lemma SearchFrom(p: seq<byte>, d: seq<byte>, e: seq<byte>, w: nat)
    requires p != [] && |p| <= MAX_PATTERN_BYTES && w <= |d| && (w == 0 || |d| - w >= OVERLAP - 3)
    ensures var done := Matches(p, d, 0);
            done + Matches(p, d + e, Max(w, After(p, done, 0))) == Matches(p, d + e, 0)
  {
    var from := After(p, Matches(p, d, 0), 0);
    MatchesExtend(p, d, e, 0);
    if from < w {
      forall k | from <= k < w ensures !OccursAt(p, d + e, k) {
        NothingMissed(p, d, e, k);
      }
      MatchesSkip(p, d + e, from, w);
    }
  }

  /** The next match in a window is the next match of the text. */
  lemma FoundInWindow(p: seq<byte>, t: seq<byte>, w: nat, i: nat)
    requires p != [] && w <= |t|
    ensures match Find(p, t[w..], i)
            case None => Matches(p, t, w + i) == []
            case Some(j) => OccursAt(p, t[w..], j) && OccursAt(p, t, w + j) && w + i <= w + j && Matches(p, t, w + i) == [w + j] + Matches(p, t, w + j + |p|)
  {
    hide OccursAt, Find, Matches;
    FindInWindow(p, t, w, i);
    MatchesUnfold(p, t, w + i);
    if Find(p, t[w..], i).Some? {
      FoundInside(p, t[w..], i);
      FoundInside(p, t, w + i);
    }
  }

  lemma MatchesUnfold(p: seq<byte>, t: seq<byte>, i: nat)
    requires p != []
    ensures match Find(p, t, i)
            case None => Matches(p, t, i) == []
            case Some(j) => Matches(p, t, i) == [j] + Matches(p, t, j + |p|)
  {
    hide OccursAt, Find;
  }

  lemma SplitConcat(d: seq<byte>, e: seq<byte>, w: nat)
    requires w <= |d|
    ensures (d + e)[..w] == d[..w] && (d + e)[w..] == d[w..] + e && d[..w] + d[w..] == d
  {
  }

  lemma SliceContinues(d: seq<byte>, e: seq<byte>, s: nat, n: nat, take: nat)
    requires s <= n && |d| <= n && n + take <= |d| + |e|
    ensures (d + e)[s..n] + e[n - |d|..n - |d| + take] == (d + e)[s..n + take]
  {
    assert e[n - |d|..n - |d| + take] == (d + e)[n..n + take];
  }

  /** Before the new data is added the excerpt is a stretch of the text from its start. */
  lemma ExcerptUpTo(d: seq<byte>, e: seq<byte>, matched: bool, wasMatched: bool, excerpt: seq<byte>, start: int, good: bool)
    requires good && matched ==> if wasMatched then Shows(d, matched, excerpt, start) else ShowsFirst(d + e, excerpt, start) && start + |excerpt| >= |d|
    ensures good && matched ==> 0 <= start && start + |excerpt| <= |d + e| && excerpt == (d + e)[start..start + |excerpt|] && |excerpt| <= EVIDENCE_BYTES
                                && (start + |excerpt| >= |d| || |excerpt| == EVIDENCE_BYTES)
  {
    if good && matched && wasMatched {
      SplitConcat(d, e, |d|);
    }
  }

  /** A text cut before its kept tail, with new data behind it. */
  lemma WindowBehind(a: seq<byte>, tail: seq<byte>, e: seq<byte>)
    requires Valid(a + tail) && Valid(tail) && Valid(e) && (a == [] || |tail| >= OVERLAP - 3)
    ensures WindowOn(a + tail + e, |a| + |tail|, tail + e, |a|, RuneCount(a + tail) - RuneCount(tail) + 1) && Valid(tail + e)
    ensures Valid(a + tail + e) && RuneCount(a + tail + e) == RuneCount(a + tail) + RuneCount(e)
  {
    hide Valid, RuneCount;
    CutBeforeValid(a, tail);
    ValidConcat(a + tail, e);
    ValidConcat(tail, e);
    var t := a + tail + e;
    assert t == a + (tail + e);
    assert t[|a|..] == tail + e && t[..|a|] == a;
  }

  ghost predicate Tailed(d: seq<byte>, tail: seq<byte>) {
    |tail| <= |d| && tail == d[|d| - |tail|..] && Valid(tail) && (|tail| == |d| || |tail| >= OVERLAP - 3)
  }

  ghost predicate Prefixed(d: seq<byte>, prefix: seq<byte>) {
    prefix == d[..Min(|d|, EVIDENCE_BYTES)]
  }

  /** The kept tail and the new data make a window that reaches back far enough. */
  lemma WindowIsOn(d: seq<byte>, e: seq<byte>, tail: seq<byte>)
    requires Valid(d) && Valid(e) && Tailed(d, tail)
    ensures |tail| <= |d| && WindowOn(d + e, |d|, tail + e, |d| - |tail|, RuneCount(d) - RuneCount(tail) + 1) && Valid(tail + e)
    ensures Valid(d + e) && RuneCount(d + e) == RuneCount(d) + RuneCount(e)
  {
    hide Valid, RuneCount, WindowOn;
    var a := d[..|d| - |tail|];
    assert d == a + tail;
    WindowBehind(a, tail, e);
  }

  /** What is kept of a window for the next chunk starts at a rune and is long enough. */
  lemma TailKept(t: seq<byte>, n: nat, window: seq<byte>, w: nat, column: int)
    requires WindowOn(t, n, window, w, column) && n < |t| && Valid(window)
    ensures var start := NextStart(window, |window| - Min(|window|, OVERLAP)); Tailed(t, window[start..])
  {
    hide Valid, NextStart;
    var from := |window| - Min(|window|, OVERLAP);
    var start := NextStart(window, from);
    NextStartIsNear(window, from);
    CutInside(window, start);
    FirstIsStart(window);
    assert window[start..] == t[w + start..];
  }

  lemma ValidMiddle(d: seq<byte>, e: seq<byte>, s: nat)
    requires Valid(d) && s <= |d| && Valid((d + e)[..s])
    ensures Valid((d + e)[s..|d|])
  {
    assert d == (d + e)[..s] + (d + e)[s..|d|];
    ValidConcat((d + e)[..s], (d + e)[s..|d|]);
  }

  lemma FoundPastEnd(p: seq<byte>, t: seq<byte>, i: nat)
    requires p != [] && i >= |t|
    ensures Matches(p, t, i) == []
  {
  }

  /** The text at F[k..] is a complete encoding error, whatever follows. */
  predicate BrokenAt(f: seq<byte>, k: nat) {
    k < |f| && Valid(f[..k]) && FullRune(f[k..]) && Decode(f[k..]).None?
  }

  lemma BrokenStaysInvalid(f: seq<byte>, k: nat, e: seq<byte>)
    requires BrokenAt(f, k)
    ensures !Valid(f + e) && BrokenAt(f + e, k)
  {
    assert f + e == f[..k] + (f[k..] + e);
    ValidConcat(f[..k], f[k..] + e);
    FullRuneIsFinal(f[k..], e);
    assert (f + e)[..k] == f[..k] && (f + e)[k..] == f[k..] + e;
  }

  /** A window on the text t, of which the first n bytes have been searched, that reaches back far enough. */
  ghost predicate WindowOn(t: seq<byte>, n: nat, window: seq<byte>, start: int, column: int) {
    && Valid(t) && 0 <= start <= n <= |t| && window == t[start..] && (start == 0 || n - start >= OVERLAP - 3)
    && Valid(t[..start]) && column == RuneCount(t[..start]) + 1
  }

  // ---- what the fields say about the text searched ----------------------------------------------

  ghost predicate Counts(p: seq<byte>, d: seq<byte>, occurrences: nat, lastMatchEnd: int, matched: bool)
    requires p != []
  {
    var starts := Matches(p, d, 0);
    occurrences == |starts| && lastMatchEnd == After(p, starts, 0) && matched == (starts != [])
  }

  /** The first match of d, and where its excerpt starts. */
  ghost predicate Places(p: seq<byte>, d: seq<byte>, column: int, start: int, startColumn: int)
    requires p != []
  {
    var starts := Matches(p, d, 0);
    starts != [] ==>
      && OccursAt(p, d, starts[0]) && column == RuneCount(d[..starts[0]]) + 1
      && start == ExcerptStart(d, starts[0]) && startColumn == RuneCount(d[..start]) + 1
  }

  ghost predicate Shows(d: seq<byte>, matched: bool, excerpt: seq<byte>, start: int) {
    if matched then 0 <= start <= |d| && excerpt == d[start..Min(|d|, start + EVIDENCE_BYTES)] else excerpt == []
  }

  /** The first match's excerpt, before more text is added to it. */
  ghost predicate ShowsFirst(d: seq<byte>, excerpt: seq<byte>, start: int) {
    0 <= start <= |d| && excerpt == d[start..PreviousEnd(d, start, Min(|d|, start + EVIDENCE_BYTES))]
  }

  /** The matches found so far and those still ahead make up all of t's. */
  ghost predicate Counting(p: seq<byte>, t: seq<byte>, done: seq<nat>, from: int, occurrences: nat, lastMatchEnd: int, matched: bool)
    requires p != []
  {
    && occurrences == |done| && lastMatchEnd == After(p, done, 0) && matched == (done != []) && lastMatchEnd <= from
    && done + Matches(p, t, from) == Matches(p, t, 0)
  }

  lemma CountedAtEnd(p: seq<byte>, t: seq<byte>, done: seq<nat>, from: nat, occurrences: nat, lastMatchEnd: int, matched: bool)
    requires p != [] && Counting(p, t, done, from, occurrences, lastMatchEnd, matched) && Matches(p, t, from) == []
    ensures Counts(p, t, occurrences, lastMatchEnd, matched)
  {
    hide Matches;
  }

  /** A first match found earlier stays the first, with its excerpt where it was. */
  lemma PlaceKept(p: seq<byte>, d: seq<byte>, e: seq<byte>, column: int, start: int, startColumn: int)
    requires p != [] && Valid(p) && Valid(d) && Matches(p, d, 0) != [] && Places(p, d, column, start, startColumn)
    ensures Places(p, d + e, column, start, startColumn)
  {
    hide Valid, NextStart, Find, RuneCount;
    MatchesExtend(p, d, e, 0);
    var first := Matches(p, d, 0)[0];
    assert Matches(p, d + e, 0)[0] == first;
    ExcerptStartsNear(p, d, first);
    OccursInPrefix(p, d, e, first);
    NextStartInPrefix(d, e, Max(0, first - LEAD_BYTES));
    assert (d + e)[..first] == d[..first] && (d + e)[..start] == d[..start];
  }

  /** A first match that the searched text did not have ends in the new data, and so does its excerpt. */
  lemma NewExcerptReaches(p: seq<byte>, d: seq<byte>, e: seq<byte>, column: int, start: int, startColumn: int, excerpt: seq<byte>)
    requires p != [] && Valid(p) && |p| <= MAX_PATTERN_BYTES && Valid(d) && Valid(d + e) && Matches(p, d, 0) == [] && Matches(p, d + e, 0) != []
    requires Places(p, d + e, column, start, startColumn) && ShowsFirst(d + e, excerpt, start)
    ensures start + |excerpt| >= |d|
  {
    hide Valid, NextStart, Find, Matches, RuneCount;
    var t, first := d + e, Matches(p, d + e, 0)[0];
    if first + |p| <= |d| {
      NothingMissed(p, d, e, first);
    }
    ExcerptStartsNear(p, t, first);
    if start <= |d| {
      ValidMiddle(d, e, start);
      PreviousEndKeeps(t, start, |d|, Min(|t|, start + EVIDENCE_BYTES));
    }
  }

  // ---- the scanner ------------------------------------------------------------------------------

  class OversizedLiteralScanner {
    const pattern: seq<byte>
    var tail: seq<byte>
    var totalBytes: nat
    var totalRunes: int
    var lastMatchEnd: int
    var matched: bool
    var matchColumn: int
    var occurrences: nat
    var prefix: seq<byte>
    var excerpt: seq<byte>
    var excerptStart: int
    var excerptStartColumn: int
    var decodeCarry: seq<byte>
    var rawHold: seq<byte>
    var invalid: bool
    /** What has been searched, and everything written. */
    ghost var searched: seq<byte>
    ghost var raw: seq<byte>

    ghost predicate Literal() {
      pattern != [] && Utf8.Valid(pattern) && |pattern| <= MAX_PATTERN_BYTES
    }

    ghost predicate Windowed(d: seq<byte>)
      reads this`totalBytes, this`totalRunes, this`prefix, this`tail
    {
      totalBytes == |d| && totalRunes == RuneCount(d) && Prefixed(d, prefix) && Tailed(d, tail)
    }

    /** The state after searching a valid text d, however it was cut. */
    ghost predicate Scanned(d: seq<byte>)
      reads this`tail, this`totalBytes, this`totalRunes, this`prefix, this`occurrences, this`lastMatchEnd, this`matched,
            this`matchColumn, this`excerpt, this`excerptStart, this`excerptStartColumn
    {
      Literal() && Utf8.Valid(d) && Windowed(d) && Counts(pattern, d, occurrences, lastMatchEnd, matched)
      && Places(pattern, d, matchColumn, excerptStart, excerptStartColumn) && Shows(d, matched, excerpt, excerptStart)
    }

    ghost predicate Valid()
      reads this
    {
      && Literal() && |rawHold| <= 1 && (rawHold == [] ==> raw == []) && searched + decodeCarry + rawHold == raw
      && Settled(searched, decodeCarry)
    }

    constructor (pattern: seq<byte>)
      requires pattern != [] && Utf8.Valid(pattern) && |pattern| <= MAX_PATTERN_BYTES
      ensures Valid() && raw == [] && this.pattern == pattern
    {
      this.pattern := pattern;
      tail, prefix, excerpt, decodeCarry, rawHold := [], [], [], [], [];
      totalBytes, totalRunes, lastMatchEnd, matchColumn, occurrences, excerptStart, excerptStartColumn := 0, 0, 0, 0, 0, 0, 0;
      matched, invalid := false, false;
      searched, raw := [], [];
    }

    /** Finds every further match in a window that reaches back far enough. */
    method Search(window: seq<byte>, windowStart: int, windowStartColumn: int, previousBytes: int, ghost d: seq<byte>, ghost e: seq<byte>, ghost good: bool)
      requires Literal()
      requires good ==> Counts(pattern, d, occurrences, lastMatchEnd, matched) && (!matched ==> excerpt == []) && previousBytes == |d| && WindowOn(d + e, |d|, window, windowStart, windowStartColumn)
      modifies this`occurrences, this`lastMatchEnd, this`matched, this`matchColumn, this`excerpt, this`excerptStart, this`excerptStartColumn
      ensures good && old(matched) ==> matched && excerpt == old(excerpt) && excerptStart == old(excerptStart)
                                       && excerptStartColumn == old(excerptStartColumn) && matchColumn == old(matchColumn)
      ensures good ==> Counts(pattern, d + e, occurrences, lastMatchEnd, matched)
      ensures good && !old(matched) && matched ==> Places(pattern, d + e, matchColumn, excerptStart, excerptStartColumn) && ShowsFirst(d + e, excerpt, excerptStart)
      ensures good && !matched ==> excerpt == []
    {
      hide OccursAt, Find, Matches, NextStart, PreviousEnd, RuneCount, Utf8.Valid, Places, ShowsFirst, Valid;
      ghost var t := d + e;
      ghost var done: seq<nat> := Matches(pattern, d, 0);
      ghost var known := After(pattern, done, 0);
      var searchStart := Max(0, lastMatchEnd - windowStart);
      if good {
        SearchFrom(pattern, d, e, windowStart);
      }
      while searchStart < |window|
        invariant 0 <= searchStart
        invariant good ==> Counting(pattern, t, done, windowStart + searchStart, occurrences, lastMatchEnd, matched) && known <= windowStart + searchStart
        invariant good && old(matched) ==> matched && excerpt == old(excerpt) && excerptStart == old(excerptStart)
                                           && excerptStartColumn == old(excerptStartColumn) && matchColumn == old(matchColumn)
        invariant good && !old(matched) && matched ==> Places(pattern, t, matchColumn, excerptStart, excerptStartColumn) && ShowsFirst(t, excerpt, excerptStart)
        invariant good && !matched ==> excerpt == []
        decreases |window| - searchStart
      {
        var found := Find(pattern, window, searchStart);
        if good {
          FoundInWindow(pattern, t, windowStart, searchStart);
        }
        if found.None? {
          if good {
            CountedAtEnd(pattern, t, done, windowStart + searchStart, occurrences, lastMatchEnd, matched);
          }
          return;
        }
        var first := found.value;
        FoundInside(pattern, window, searchStart);
        ghost var from := windowStart + searchStart;
        searchStart := first + |pattern|;
        var absoluteStart, absoluteEnd := windowStart + first, windowStart + first + |pattern|;
        if good && absoluteEnd <= previousBytes {
          NothingMissed(pattern, d, e, absoluteStart);
        }
        if absoluteEnd <= previousBytes || absoluteStart < lastMatchEnd {
          continue;
        }
        occurrences, lastMatchEnd := occurrences + 1, absoluteEnd;
        if good {
          assert done + Matches(pattern, t, from) == done + [absoluteStart] + Matches(pattern, t, absoluteEnd);
          done := done + [absoluteStart];
        }
        if !matched {
          FirstMatch(window, windowStart, windowStartColumn, first, t, |d|, good);
        }
      }
      if good {
        FoundPastEnd(pattern, t, windowStart + searchStart);
        CountedAtEnd(pattern, t, done, windowStart + searchStart, occurrences, lastMatchEnd, matched);
      }
    }

    /** Records where the first match is and what is shown of it so far. */
    method FirstMatch(window: seq<byte>, windowStart: int, windowStartColumn: int, first: nat, ghost t: seq<byte>, ghost n: nat, ghost good: bool)
      requires Literal() && OccursAt(pattern, window, first) && first + |pattern| <= |window|
      requires good ==> WindowOn(t, n, window, windowStart, windowStartColumn) && excerpt == [] && windowStart + first + |pattern| > n
      requires good ==> Matches(pattern, t, 0) != [] && Matches(pattern, t, 0)[0] == windowStart + first
      modifies this`matched, this`matchColumn, this`excerpt, this`excerptStart, this`excerptStartColumn
      ensures matched && (good ==> Places(pattern, t, matchColumn, excerptStart, excerptStartColumn) && ShowsFirst(t, excerpt, excerptStart))
    {
      hide OccursAt, Utf8.Valid, RuneCount, NextStart, PreviousEnd, Matches, Find, WindowOn, Places, ShowsFirst;
      matched := true;
      matchColumn := windowStartColumn + RuneCount(window[..first]);
      var start := NextStart(window, Max(0, first - LEAD_BYTES));
      // The lead and the longest literal fit in an excerpt, so no match is cut off and the excerpt need not start at it.
      var end := PreviousEnd(window, start, Min(|window|, start + EVIDENCE_BYTES));
      excerpt := excerpt + window[start..end];
      excerptStart := windowStart + start;
      excerptStartColumn := windowStartColumn + RuneCount(window[..start]);
      if good {
        FirstMatchPlaced(pattern, t, n, window, windowStart, windowStartColumn, first);
        assert [] + window[start..end] == window[start..end];
      }
    }

    /** Adds to the excerpt what the new data continues it with. */
    method ExtendExcerpt(data: seq<byte>, previousBytes: int, ghost d: seq<byte>, ghost wasMatched: bool, ghost good: bool)
      requires good ==> previousBytes == |d| && (!matched ==> excerpt == [])
      requires good && matched ==> if wasMatched then Shows(d, matched, excerpt, excerptStart) else ShowsFirst(d + data, excerpt, excerptStart) && excerptStart + |excerpt| >= |d|
      modifies this`excerpt
      ensures good ==> Shows(d + data, matched, excerpt, excerptStart)
    {
      hide Utf8.Valid, PreviousEnd;
      ghost var t := d + data;
      ExcerptUpTo(d, data, matched, wasMatched, excerpt, excerptStart, good);
      if matched && |excerpt| < EVIDENCE_BYTES {
        var nextAbsolute, dataStart := excerptStart + |excerpt|, previousBytes;
        if nextAbsolute >= dataStart && nextAbsolute < dataStart + |data| {
          var start := nextAbsolute - dataStart;
          var take := Min(|data| - start, EVIDENCE_BYTES - |excerpt|);
          if good {
            SliceContinues(d, data, excerptStart, nextAbsolute, take);
          }
          excerpt := excerpt + data[start..start + take];
        }
      }
    }

    method TakePrefix(data: seq<byte>, ghost d: seq<byte>)
      modifies this`prefix
      ensures old(Prefixed(d, prefix)) ==> Prefixed(d + data, prefix)
    {
      if |prefix| < EVIDENCE_BYTES {
        var take := Min(|data|, EVIDENCE_BYTES - |prefix|);
        prefix := prefix + data[..take];
      }
    }

    /** Searches data that ends at a rune, and brings every field up to date. */
    method ProcessValid(data: seq<byte>)
      requires Literal()
      modifies this`tail, this`totalBytes, this`totalRunes, this`prefix, this`searched, this`occurrences, this`lastMatchEnd, this`matched,
               this`matchColumn, this`excerpt, this`excerptStart, this`excerptStartColumn
      ensures searched == old(searched) + data
      ensures old(Scanned(searched)) && Utf8.Valid(data) ==> Scanned(searched)
    {
      ghost var good := Scanned(searched) && Utf8.Valid(data);
      ghost var d, t := searched, searched + data;
      hide Utf8.Valid, RuneCount, NextStart, PreviousEnd, Matches, Find, OccursAt, ExcerptStart, Places, ShowsFirst, FullRune, WindowOn, Tailed, Prefixed;
      searched := searched + data;
      if |data| == 0 {
        assert t == d;
        return;
      }
      var previousBytes := totalBytes;
      TakePrefix(data, d);
      var window := tail + data;
      var windowStart, windowStartColumn := previousBytes - |tail|, totalRunes - RuneCount(tail) + 1;
      ghost var wasMatched := matched;
      if good {
        WindowIsOn(d, data, tail);
        PlaceKeptIf(pattern, d, data, matchColumn, excerptStart, excerptStartColumn, matched);
      }
      Search(window, windowStart, windowStartColumn, previousBytes, d, data, good);
      if good && matched && !wasMatched {
        NewExcerptReaches(pattern, d, data, matchColumn, excerptStart, excerptStartColumn, excerpt);
      }
      ExtendExcerpt(data, previousBytes, d, wasMatched, good);
      totalBytes, totalRunes := totalBytes + |data|, totalRunes + RuneCount(data);
      var keep := Min(|window|, OVERLAP);
      var start := NextStart(window, |window| - keep);
      tail := window[start..];
      if good {
        TailKept(t, |d|, window, windowStart, windowStartColumn);
        UnmatchedIsPlaced(pattern, t, matchColumn, excerptStart, excerptStartColumn, occurrences, lastMatchEnd, matched);
      }
    }

    /** Takes the bytes that make whole runes, and keeps an unfinished rune for the next call. */
    method FeedUtf8(data: seq<byte>)
      requires Literal() && Settled(searched, decodeCarry)
      modifies this`tail, this`totalBytes, this`totalRunes, this`prefix, this`searched, this`occurrences, this`lastMatchEnd, this`matched,
               this`matchColumn, this`excerpt, this`excerptStart, this`excerptStartColumn, this`decodeCarry, this`invalid
      ensures searched + decodeCarry == old(searched + decodeCarry) + data
      ensures Settled(searched, decodeCarry)
    {
      hide Utf8.Valid, Decode, FullRune, Windowed, Counts, Places, Shows, Width;
      ghost var f := searched + decodeCarry + data;
      var buffer := decodeCarry + data;
      assert f == searched + buffer;
      var i := 0;
      if !invalid {
        NothingIsValid();
      } else {
        ghost var k :| BrokenAt(searched + decodeCarry, k);
        BrokenStaysInvalid(searched + decodeCarry, k, data);
      }
      while i < |buffer|
        invariant 0 <= i <= |buffer|
        invariant if invalid then exists k :: BrokenAt(f, k) else old(!invalid) && Utf8.Valid(buffer[..i])
        modifies this`invalid
        decreases |buffer| - i
      {
        if !FullRune(buffer[i..]) {
          break;
        }
        var width := Decode(buffer[i..]);
        if width.None? {
          if !invalid {
            BrokenHere(searched, buffer, i);
          }
          invalid := true;
        } else if !invalid {
          OneMoreRune(buffer, i);
        }
        i := i + Width(buffer[i..]);
      }
      ghost var before := searched;
      if i > 0 {
        ProcessValid(buffer[..i]);
      }
      decodeCarry := buffer[i..];
      assert searched == before + buffer[..i];
      assert searched + decodeCarry == f;
      if !invalid {
        EmptyIsNoRune(decodeCarry);
      }
    }

    /** Holds back the last byte: it may be the carriage return of the line's end. */
    method WriteRaw(data: seq<byte>)
      requires Valid()
      modifies this
      ensures Valid() && raw == old(raw) + data
    {
      if |data| == 0 {
        return;
      }
      hide Utf8.Valid, Settled, Scanned;
      ghost var fed := searched + decodeCarry;
      var combined := rawHold + data;
      Regroup(fed, rawHold, data);
      raw := raw + data;
      if |combined| == 1 {
        rawHold := combined;
        return;
      }
      var body, last := combined[..|combined| - 1], combined[|combined| - 1..];
      HoldLast(fed, combined, body, last);
      FeedUtf8(body);
      rawHold := last;
    }

    /** Ends the line: a carriage return before the newline is not part of it, an unfinished rune makes it invalid. */
    method Finish(newline: bool)
      requires Valid()
      modifies this
      ensures raw == old(raw) && Literal()
      ensures var text := LineText(raw, newline); if invalid then !Utf8.Valid(text) else searched == text && Scanned(text)
    {
      hide Utf8.Valid, Decode, FullRune, Windowed, Counts, Places, Shows;
      ghost var text := LineText(raw, newline);
      if |rawHold| > 0 && !(newline && rawHold[0] == CR) {
        FeedUtf8(rawHold);
      }
      if old(|rawHold|) > 0 && !(newline && old(rawHold)[0] == CR) {
        assert searched + decodeCarry == raw;
      } else {
        assert raw == searched + decodeCarry + rawHold;
      }
      assert searched + decodeCarry == text;
      rawHold := [];
      if invalid {
        ghost var k :| BrokenAt(text, k);
        BrokenStaysInvalid(text, k, []);
        assert text + [] == text;
      } else if |decodeCarry| > 0 {
        UnfinishedIsInvalid(searched, decodeCarry);
      }
      if |decodeCarry| > 0 {
        invalid := true;
      }
    }

    /** The evidence for the finished line; None for a line that is not UTF-8. */
    method Line() returns (evidence: Option<Evidence>)
      requires Literal() && (!invalid ==> Scanned(searched))
      ensures evidence == if invalid then None else Some(EvidenceOf(pattern, searched))
    {
      hide Utf8.Valid, RuneCount, NextStart, PreviousEnd, Matches, Find, OccursAt, ExcerptStart;
      if invalid {
        return None;
      }
      var text := if matched then excerpt else prefix;
      var startColumn := if matched then excerptStartColumn else 1;
      text := text[..PreviousEnd(text, 0, |text|)];
      var context := prefix[..PreviousEnd(prefix, 0, |prefix|)];
      var shown := Excerpt(text, startColumn, startColumn + RuneCount(text) - 1);
      FinishedPrefix(searched, prefix);
      if matched {
        FinishedMatch(pattern, searched, matchColumn, excerptStart, excerptStartColumn, excerpt);
      }
      evidence := Some(Evidence(matched, if matched then matchColumn else 0, occurrences, shown, Excerpt(context, 1, RuneCount(context)), totalBytes));
    }

    /** Either the text so far can never become valid, or all of it but an unfinished rune has been searched. */
    ghost predicate Settled(d: seq<byte>, carry: seq<byte>)
      reads this`invalid, this`tail, this`totalBytes, this`totalRunes, this`prefix, this`occurrences, this`lastMatchEnd, this`matched,
            this`matchColumn, this`excerpt, this`excerptStart, this`excerptStartColumn
    {
      if invalid then exists k :: BrokenAt(d + carry, k) else Scanned(d) && !FullRune(carry)
    }
  }

  lemma PlaceKeptIf(p: seq<byte>, d: seq<byte>, e: seq<byte>, column: int, start: int, startColumn: int, matched: bool)
    requires p != [] && Valid(p) && Valid(d) && (matched ==> Matches(p, d, 0) != []) && Places(p, d, column, start, startColumn)
    ensures matched ==> Places(p, d + e, column, start, startColumn)
  {
    if matched {
      PlaceKept(p, d, e, column, start, startColumn);
    }
  }

  lemma UnmatchedIsPlaced(p: seq<byte>, t: seq<byte>, column: int, start: int, startColumn: int, occurrences: nat, lastMatchEnd: int, matched: bool)
    requires p != [] && Counts(p, t, occurrences, lastMatchEnd, matched)
    ensures !matched ==> Places(p, t, column, start, startColumn)
  {
  }

  lemma ColumnInWindow(t: seq<byte>, w: nat, i: nat)
    requires w + i <= |t| && Valid(t[..w])
    ensures RuneCount(t[..w]) + RuneCount(t[w..][..i]) == RuneCount(t[..w + i])
  {
    assert t[..w + i] == t[..w] + t[w..][..i];
    ValidConcat(t[..w], t[w..][..i]);
  }

  /** In a window that reaches back far enough, the first match and its excerpt start where the whole text has them. */
  lemma FirstMatchStarts(p: seq<byte>, t: seq<byte>, n: nat, w: nat, first: nat)
    requires p != [] && Valid(p) && |p| <= MAX_PATTERN_BYTES && Valid(t) && w <= n <= |t| && (w == 0 || n - w >= OVERLAP - 3)
    requires OccursAt(p, t[w..], first) && first + |p| <= |t| - w && w + first + |p| > n
    ensures OccursAt(p, t, w + first)
    ensures var start := NextStart(t[w..], Max(0, first - LEAD_BYTES));
            w + start == ExcerptStart(t, w + first) && first + |p| <= Min(|t| - w, start + EVIDENCE_BYTES)
  {
    hide OccursAt, Valid, NextStart;
    OccursInWindow(p, t, w, first);
    ExcerptStartsNear(p, t, w + first);
    var lead := Max(0, first - LEAD_BYTES);
    assert w + lead == Max(0, w + first - LEAD_BYTES);
    NextStartInWindow(t, w, lead);
  }

  lemma WindowSlice(t: seq<byte>, w: nat, a: nat, b: nat)
    requires a <= b && w + b <= |t|
    ensures t[w..][a..b] == t[w + a..w + b]
  {
  }

  lemma FirstMatchColumns(p: seq<byte>, t: seq<byte>, n: nat, window: seq<byte>, w: int, column: int, first: nat)
    requires p != [] && Valid(p) && |p| <= MAX_PATTERN_BYTES && WindowOn(t, n, window, w, column)
    requires OccursAt(p, window, first) && first + |p| <= |window| && w + first + |p| > n
    requires Matches(p, t, 0) != [] && Matches(p, t, 0)[0] == w + first
    ensures var start := NextStart(window, Max(0, first - LEAD_BYTES));
            Places(p, t, column + RuneCount(window[..first]), w + start, column + RuneCount(window[..start]))
  {
    hide Valid, RuneCount, NextStart, PreviousEnd, Matches, Find, OccursAt, ExcerptStart;
    FirstMatchStarts(p, t, n, w, first);
    ColumnInWindow(t, w, first);
    ColumnInWindow(t, w, NextStart(window, Max(0, first - LEAD_BYTES)));
  }

  lemma FirstMatchShown(t: seq<byte>, window: seq<byte>, w: nat, start: nat)
    requires w <= |t| && window == t[w..] && start <= |window|
    ensures ShowsFirst(t, window[start..PreviousEnd(window, start, Min(|window|, start + EVIDENCE_BYTES))], w + start)
  {
    hide PreviousEnd;
    var end := Min(|window|, start + EVIDENCE_BYTES);
    assert w + end == Min(|t|, w + start + EVIDENCE_BYTES);
    PreviousEndInWindow(t, w, start, end);
    WindowSlice(t, w, start, PreviousEnd(window, start, end));
  }

  lemma FirstMatchPlaced(p: seq<byte>, t: seq<byte>, n: nat, window: seq<byte>, w: int, column: int, first: nat)
    requires p != [] && Valid(p) && |p| <= MAX_PATTERN_BYTES && WindowOn(t, n, window, w, column)
    requires OccursAt(p, window, first) && first + |p| <= |window| && w + first + |p| > n
    requires Matches(p, t, 0) != [] && Matches(p, t, 0)[0] == w + first
    ensures var start := NextStart(window, Max(0, first - LEAD_BYTES));
            var end := PreviousEnd(window, start, Min(|window|, start + EVIDENCE_BYTES));
            && Places(p, t, column + RuneCount(window[..first]), w + start, column + RuneCount(window[..start]))
            && ShowsFirst(t, window[start..end], w + start)
  {
    hide Valid, RuneCount, NextStart, PreviousEnd, Matches, Find, OccursAt, Places, ShowsFirst;
    FirstMatchColumns(p, t, n, window, w, column, first);
    FirstMatchShown(t, window, w, NextStart(window, Max(0, first - LEAD_BYTES)));
  }

  lemma NothingIsValid()
    ensures Valid([])
  {
  }

  lemma EmptyIsNoRune(d: seq<byte>)
    ensures d == [] ==> !FullRune(d)
  {
  }

  lemma OneMoreRune(b: seq<byte>, i: nat)
    requires i < |b| && Valid(b[..i]) && Decode(b[i..]).Some?
    ensures Valid(b[..i + Width(b[i..])])
  {
    var w := Width(b[i..]);
    var rune := b[i..][..w];
    assert b[..i + w] == b[..i] + rune;
    DecodeIsChar(b[i..], w);
    assert rune[..w] == rune;
    DecodeIsChar(rune, w);
    assert rune[w..] == [];
    ValidConcat(b[..i], rune);
  }

  lemma SplitBehind(d: seq<byte>, b: seq<byte>, i: nat)
    requires i <= |b|
    ensures (d + b)[..|d| + i] == d + b[..i] && (d + b)[|d| + i..] == b[i..]
  {
  }

  lemma BrokenHere(d: seq<byte>, b: seq<byte>, i: nat)
    requires Valid(d) && i < |b| && Valid(b[..i]) && FullRune(b[i..]) && Decode(b[i..]).None?
    ensures BrokenAt(d + b, |d| + i)
  {
    hide Valid, Decode, FullRune;
    SplitBehind(d, b, i);
    ValidConcat(d, b[..i]);
  }

  lemma Regroup(a: seq<byte>, b: seq<byte>, c: seq<byte>)
    ensures a + b + c == a + (b + c)
  {
  }

  lemma HoldLast(fed: seq<byte>, combined: seq<byte>, body: seq<byte>, last: seq<byte>)
    requires combined != [] && body == combined[..|combined| - 1] && last == combined[|combined| - 1..]
    ensures fed + body + last == fed + combined
  {
  }

  /** A line's text: without its newline, and without a carriage return just before one. */
  function LineText(raw: seq<byte>, newline: bool): seq<byte> {
    if newline && |raw| > 0 && raw[|raw| - 1] == CR then raw[..|raw| - 1] else raw
  }

  lemma UnfinishedIsInvalid(d: seq<byte>, carry: seq<byte>)
    requires Valid(d) && carry != [] && !FullRune(carry)
    ensures !Valid(d + carry)
  {
    PartRuneIsInvalid(carry);
    ValidConcat(d, carry);
  }

  lemma FinishedPrefix(d: seq<byte>, prefix: seq<byte>)
    requires Prefixed(d, prefix)
    ensures prefix[..PreviousEnd(prefix, 0, |prefix|)] == PrefixExcerpt(d).text
  {
    hide PreviousEnd;
    PreviousEndOfPart(d, 0, Min(|d|, EVIDENCE_BYTES));
  }

  lemma FinishedExcerpt(d: seq<byte>, start: nat, startColumn: int, excerpt: seq<byte>)
    requires start <= |d| && excerpt == d[start..Min(|d|, start + EVIDENCE_BYTES)] && startColumn == RuneCount(d[..start]) + 1
    ensures var text := excerpt[..PreviousEnd(excerpt, 0, |excerpt|)]; ExcerptAt(d, start) == Excerpt(text, startColumn, startColumn + RuneCount(text) - 1)
  {
    hide PreviousEnd, RuneCount;
    PreviousEndOfPart(d, start, Min(|d|, start + EVIDENCE_BYTES));
  }

  /** What the fields say about a finished line's first match is what the whole line says. */
  lemma FinishedMatch(p: seq<byte>, d: seq<byte>, column: int, start: int, startColumn: int, excerpt: seq<byte>)
    requires p != [] && Valid(p) && |p| <= MAX_PATTERN_BYTES && Valid(d) && Matches(p, d, 0) != []
    requires Places(p, d, column, start, startColumn) && Shows(d, true, excerpt, start)
    ensures startColumn >= 1 && var text := excerpt[..PreviousEnd(excerpt, 0, |excerpt|)]; var first := Matches(p, d, 0)[0];
            first + |p| <= |d| && GrepExcerpt(d, first, first + |p|) == Excerpt(text, startColumn, startColumn + RuneCount(text) - 1)
  {
    hide Valid, RuneCount, NextStart, Matches, Find, OccursAt, PreviousEnd, ExcerptAt, ExcerptStart, GrepExcerpt;
    var first := Matches(p, d, 0)[0];
    ExcerptStartsNear(p, d, first);
    OccursInside(p, d, first);
    NotCut(d, first, first + |p|);
    FinishedExcerpt(d, start, startColumn, excerpt);
  }

  lemma NotCut(d: seq<byte>, first: nat, end: nat)
    requires first <= end <= |d| && end <= ExcerptStart(d, first) + EVIDENCE_BYTES
    ensures GrepExcerpt(d, first, end) == ExcerptAt(d, ExcerptStart(d, first))
  {
    hide ExcerptStart, ExcerptAt, NextStart;
  }

  lemma OccursInside(p: seq<byte>, d: seq<byte>, i: nat)
    requires OccursAt(p, d, i)
    ensures i + |p| <= |d|
  {
  }

  /**
   * What is shown of a long line is a stretch of whole runes of it that holds the whole first match, begins at most the
   * lead before it, is no longer than the limit, and knows its own columns.
   */
  lemma ExcerptHoldsMatch(p: seq<byte>, d: seq<byte>, first: nat)
    requires p != [] && Valid(p) && |p| <= MAX_PATTERN_BYTES && Valid(d) && OccursAt(p, d, first)
    ensures var e, s := GrepExcerpt(d, first, first + |p|), ExcerptStart(d, first);
            && s <= first && first - s <= LEAD_BYTES && first + |p| <= s + |e.text| <= |d| && |e.text| <= EVIDENCE_BYTES
            && e.text == d[s..s + |e.text|] && Valid(e.text)
            && e.startColumn == RuneCount(d[..s]) + 1 && e.endColumn == e.startColumn + RuneCount(e.text) - 1
  {
    hide Valid, RuneCount, NextStart, PreviousEnd, OccursAt, ExcerptStart, ExcerptAt;
    OccursInside(p, d, first);
    ExcerptStartsNear(p, d, first);
    var s, end := ExcerptStart(d, first), first + |p|;
    MatchIsWhole(p, d, s, first);
    StretchShown(d, s, end);
  }

  /** What is shown of a line as context is the longest beginning of whole runes within the limit, so all of a short line. */
  lemma ContextIsBeginning(d: seq<byte>)
    ensures var e := PrefixExcerpt(d);
            && |e.text| <= |d| && |e.text| <= EVIDENCE_BYTES && e.text == d[..|e.text|] && Valid(e.text)
            && (forall k: nat :: |e.text| < k <= |d| && k <= EVIDENCE_BYTES ==> !Valid(d[..k]))
            && (Valid(d) && |d| <= EVIDENCE_BYTES ==> e.text == d)
            && e.startColumn == 1 && e.endColumn == RuneCount(e.text)
  {
    hide Valid, RuneCount;
    var n := PreviousEnd(d, 0, Min(|d|, EVIDENCE_BYTES));
    forall k: nat | n < k <= |d| && k <= EVIDENCE_BYTES ensures !Valid(d[..k]) {
      assert d[0..k] == d[..k];
    }
    assert d[0..n] == d[..n];
    if Valid(d) && |d| <= EVIDENCE_BYTES {
      assert d[0..|d|] == d;
    }
  }

  lemma StretchShown(d: seq<byte>, s: nat, end: nat)
    requires s <= end <= |d| && end <= s + EVIDENCE_BYTES && Valid(d[s..end])
    ensures var e := ExcerptAt(d, s);
            && end <= s + |e.text| <= |d| && |e.text| <= EVIDENCE_BYTES && e.text == d[s..s + |e.text|] && Valid(e.text)
            && e.startColumn == RuneCount(d[..s]) + 1 && e.endColumn == e.startColumn + RuneCount(e.text) - 1
  {
    hide RuneCount, Valid, PreviousEnd;
    PreviousEndKeeps(d, s, end, Min(|d|, s + EVIDENCE_BYTES));
  }

  /** From a rune start before a match to the match's end there are only whole runes. */
  lemma MatchIsWhole(p: seq<byte>, d: seq<byte>, s: nat, first: nat)
    requires p != [] && Valid(p) && Valid(d) && OccursAt(p, d, first) && s <= first && Valid(d[s..])
    ensures first + |p| <= |d| && Valid(d[s..first + |p|])
  {
    hide Valid, OccursAt, RuneStart;
    OccursHere(p, d, first);
    LiteralStartsRune(p, d, first);
    var front, rest := d[s..first], d[first..];
    assert front + rest == d[s..];
    CutAtStart(front, rest);
    assert d[s..first + |p|] == front + d[first..first + |p|];
    ValidConcat(front, p);
  }

  lemma OccursHere(p: seq<byte>, d: seq<byte>, i: nat)
    requires OccursAt(p, d, i)
    ensures i + |p| <= |d| && d[i..i + |p|] == p
  {
  }

  /** Cutting a stretch back to whole runes does not depend on what surrounds it. */
  lemma PreviousEndOfPart(d: seq<byte>, a: nat, e: nat)
    requires a <= e <= |d|
    ensures PreviousEnd(d, a, e) == a + PreviousEnd(d[a..e], 0, e - a)
    ensures d[a..PreviousEnd(d, a, e)] == d[a..e][..PreviousEnd(d[a..e], 0, e - a)]
  {
    hide PreviousEnd, Valid;
    PreviousEndInWindow(d, a, 0, e - a);
    PreviousEndCut(d[a..], e - a, e - a);
    WindowSlice(d, a, 0, e - a);
    assert d[a..][0..e - a] == d[a..][..e - a];
    SliceOfSlice(d, a, e, PreviousEnd(d[a..e], 0, e - a));
  }

  lemma SliceOfSlice(d: seq<byte>, a: nat, e: nat, n: nat)
    requires a <= e <= |d| && n <= e - a
    ensures d[a..a + n] == d[a..e][..n]
  {
  }

  lemma {:induction false} PreviousEndCut(d: seq<byte>, n: nat, e: nat)
    requires e <= n <= |d|
    ensures PreviousEnd(d[..n], 0, e) == PreviousEnd(d, 0, e)
    decreases e
  {
    assert d[..n][0..e] == d[0..e];
    if e > 0 && !Valid(d[0..e]) {
      PreviousEndCut(d, n, e - 1);
    }
  }

  // ---- a whole line -----------------------------------------------------------------------------

  function Joined(chunks: seq<seq<byte>>): seq<byte> {
    if chunks == [] then [] else Joined(chunks[..|chunks| - 1]) + chunks[|chunks| - 1]
  }

  /** Scanning a long line in any chunks gives the evidence of the whole line, or finds it is not UTF-8. */
  method ScanLine(pattern: seq<byte>, chunks: seq<seq<byte>>, newline: bool) returns (evidence: Option<Evidence>)
    requires pattern != [] && Utf8.Valid(pattern) && |pattern| <= MAX_PATTERN_BYTES
    ensures var text := LineText(Joined(chunks), newline);
            evidence == if Octets(text) then Some(EvidenceOf(pattern, text)) else None
  {
    hide Utf8.Valid, Octets, EvidenceOf, LineText, OversizedLiteralScanner.Valid;
    var scanner := new OversizedLiteralScanner(pattern);
    var i := 0;
    while i < |chunks|
      invariant 0 <= i <= |chunks| && fresh(scanner) && scanner.Valid() && scanner.pattern == pattern && scanner.raw == Joined(chunks[..i])
    {
      scanner.WriteRaw(chunks[i]);
      assert chunks[..i + 1][..i] == chunks[..i];
      i := i + 1;
    }
    assert chunks[..i] == chunks;
    scanner.Finish(newline);
    evidence := scanner.Line();
    ValidIsOctets(LineText(Joined(chunks), newline));
  }
}
