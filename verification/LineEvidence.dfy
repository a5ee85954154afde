/** What grep reports about one whole line: greedy occurrences, the first column, and an excerpt cut at rune boundaries. */
module LineEvidence {
  import opened Ordering
  import opened Bytes
  import opened Utf8
  import opened ByteSearch

  const EVIDENCE_BYTES := 8192
  const LEAD_BYTES := EVIDENCE_BYTES / 4
  const MAX_PATTERN_BYTES := 4096

  // ---- occurrences of a literal -----------------------------------------------------------------

  /** Where the occurrences counted from the left without overlap start. */
  function Matches(p: seq<byte>, d: seq<byte>, i: nat): (starts: seq<nat>)
    requires p != []
    decreases |d| - i
  {
    match Find(p, d, i)
    case None => []
    case Some(j) => [j] + Matches(p, d, j + |p|)
  }

  /** Where the search goes on after those matches. */
  function After(p: seq<byte>, starts: seq<nat>, i: nat): nat {
    if starts == [] then i else starts[|starts| - 1] + |p|
  }

  /** More text after a line's beginning adds matches behind the ones already counted, and changes none of them. */
  lemma {:induction false} MatchesExtend(p: seq<byte>, d: seq<byte>, e: seq<byte>, i: nat)
    requires p != []
    ensures Matches(p, d + e, i) == Matches(p, d, i) + Matches(p, d + e, After(p, Matches(p, d, i), i))
    ensures Find(p, d, After(p, Matches(p, d, i), i)).None?
    decreases |d| - i
  {
    hide OccursAt, Matches, Find, After;
    if Find(p, d, i).None? {
      MatchesNone(p, d, i);
      assert [] + Matches(p, d + e, i) == Matches(p, d + e, i);
    } else {
      var next := Find(p, d, i).value + |p|;
      FindInPrefix(p, d, e, i);
      FoundInside(p, d, i);
      MatchesExtend(p, d, e, next);
      MatchesFirst(p, d, i);
      MatchesFirst(p, d + e, i);
      AfterFirst(p, Find(p, d, i).value, Matches(p, d, next), i, Matches(p, d + e, After(p, Matches(p, d, next), next)));
    }
  }

  lemma MatchesNone(p: seq<byte>, d: seq<byte>, i: nat)
    requires p != [] && Find(p, d, i).None?
    ensures Matches(p, d, i) == [] && After(p, [], i) == i
  {
  }

  lemma AfterFirst(p: seq<byte>, j: nat, later: seq<nat>, i: nat, rest: seq<nat>)
    ensures After(p, [j] + later, i) == After(p, later, j + |p|) && [j] + later + rest == [j] + (later + rest)
  {
  }

  lemma MatchesFirst(p: seq<byte>, d: seq<byte>, i: nat)
    requires p != [] && Find(p, d, i).Some?
    ensures Matches(p, d, i) == [Find(p, d, i).value] + Matches(p, d, Find(p, d, i).value + |p|)
  {
  }

  /** Starting the search later makes no difference when nothing starts in between. */
  lemma MatchesSkip(p: seq<byte>, d: seq<byte>, i: nat, j: nat)
    requires p != [] && i <= j && forall k :: i <= k < j ==> !OccursAt(p, d, k)
    ensures Matches(p, d, i) == Matches(p, d, j)
  {
    hide OccursAt;
    FindSkips(p, d, i, j);
  }

  /** The literal occurs at the place, inside one of the counted occurrences or as one. */
  ghost predicate Covered(p: seq<byte>, starts: seq<nat>, i: nat) {
    exists k :: 0 <= k < |starts| && starts[k] <= i < starts[k] + |p|
  }

  lemma CoveredBehind(p: seq<byte>, j: nat, starts: seq<nat>, i: nat)
    requires Covered(p, starts, i)
    ensures Covered(p, [j] + starts, i)
  {
    var k :| 0 <= k < |starts| && starts[k] <= i < starts[k] + |p|;
    assert ([j] + starts)[k + 1] == starts[k];
  }

  /**
   * The occurrences counted are real, lie apart, and leave none out that does not begin inside one of them: they are
   * the ones found from the left.
   */
  lemma {:induction false} MatchesAreLeftmost(p: seq<byte>, d: seq<byte>, i: nat)
    requires p != []
    ensures var starts := Matches(p, d, i);
            && (forall k :: 0 <= k < |starts| ==> i <= starts[k] && OccursAt(p, d, starts[k]))
            && (forall j, k :: 0 <= j < k < |starts| ==> starts[j] + |p| <= starts[k])
            && (forall x: nat :: i <= x && OccursAt(p, d, x) ==> Covered(p, starts, x))
    decreases |d| - i
  {
    hide OccursAt, Matches, Find;
    if Find(p, d, i).None? {
      MatchesNone(p, d, i);
    } else {
      var j := Find(p, d, i).value;
      FoundInside(p, d, i);
      MatchesFirst(p, d, i);
      MatchesAreLeftmost(p, d, j + |p|);
      var later := Matches(p, d, j + |p|);
      var starts := [j] + later;
      forall x: nat | i <= x && OccursAt(p, d, x) ensures Covered(p, starts, x) {
        if x >= j + |p| {
          CoveredBehind(p, j, later, x);
        } else {
          assert starts[0] <= x < starts[0] + |p|;
        }
      }
      assert forall k :: 0 < k < |starts| ==> starts[k] == later[k - 1];
    }
  }

  lemma OccursInWindow(p: seq<byte>, d: seq<byte>, w: nat, i: nat)
    requires w <= |d|
    ensures OccursAt(p, d[w..], i) == OccursAt(p, d, w + i)
  {
    if i + |p| <= |d| - w {
      assert d[w..][i..i + |p|] == d[w + i..w + i + |p|];
    }
  }

  lemma FindInWindow(p: seq<byte>, d: seq<byte>, w: nat, i: nat)
    requires w <= |d|
    ensures match Find(p, d[w..], i)
            case None => Find(p, d, w + i).None?
            case Some(j) => Find(p, d, w + i) == Some(w + j)
  {
    forall k: nat ensures OccursAt(p, d[w..], k) == OccursAt(p, d, w + k) {
      OccursInWindow(p, d, w, k);
    }
    match Find(p, d[w..], i) {
      case None =>
        forall j | w + i <= j ensures !OccursAt(p, d, j) {
          assert !OccursAt(p, d[w..], j - w);
        }
      case Some(j) =>
        forall k | w + i <= k < w + j ensures !OccursAt(p, d, k) {
          assert !OccursAt(p, d[w..], k - w);
        }
        FindUnique(p, d, w + i, w + j);
    }
  }

  // ---- excerpts ---------------------------------------------------------------------------------

  function NextStart(d: seq<byte>, i: nat): (r: nat)
    requires i <= |d|
    ensures i <= r <= |d| && (r == |d| || RuneStart(d[r])) && forall k :: i <= k < r ==> !RuneStart(d[k])
    decreases |d| - i
  {
    if i < |d| && !RuneStart(d[i]) then NextStart(d, i + 1) else i
  }

  /** The longest whole-rune text from a that ends at or before e. */
  function PreviousEnd(d: seq<byte>, a: nat, e: nat): (r: nat)
    requires a <= e <= |d|
    ensures a <= r <= e && Valid(d[a..r]) && forall k :: r < k <= e ==> !Valid(d[a..k])
    decreases e - a
  {
    if e > a && !Valid(d[a..e]) then PreviousEnd(d, a, e - 1) else (assert e == a ==> d[a..e] == []; e)
  }

  function Min(a: int, b: int): int { if a < b then a else b }

  function Max(a: int, b: int): int { if a < b then b else a }

  datatype Excerpt = Excerpt(text: seq<byte>, startColumn: nat, endColumn: int)

  /** The start of the text shown for a match. */
  function ExcerptStart(d: seq<byte>, first: nat): (s: nat)
    requires first <= |d|
    ensures s <= |d|
  {
    NextStart(d, Max(0, first - LEAD_BYTES))
  }

  function ExcerptAt(d: seq<byte>, s: nat): Excerpt
    requires s <= |d|
  {
    var text := d[s..PreviousEnd(d, s, Min(|d|, s + EVIDENCE_BYTES))];
    var column := RuneCount(d[..s]) + 1;
    Excerpt(text, column, column + RuneCount(text) - 1)
  }

  /** A match is shown with some text before it; a match that would be cut off is shown from its own start. */
  function GrepExcerpt(d: seq<byte>, first: nat, end: nat): Excerpt
    requires first <= end <= |d|
  {
    var s := ExcerptStart(d, first);
    if end > Min(|d|, s + EVIDENCE_BYTES) then ExcerptAt(d, NextStart(d, first)) else ExcerptAt(d, s)
  }

  function PrefixExcerpt(d: seq<byte>): Excerpt {
    var text := d[..PreviousEnd(d, 0, Min(|d|, EVIDENCE_BYTES))];
    Excerpt(text, 1, RuneCount(text))
  }

  /** Everything grep reports about a long line. */
  datatype Evidence = Evidence(matched: bool, column: nat, occurrences: nat, shown: Excerpt, context: Excerpt, lineBytes: nat)

  function EvidenceOf(p: seq<byte>, d: seq<byte>): Evidence
    requires p != []
  {
    var starts := Matches(p, d, 0);
    if starts == [] then Evidence(false, 0, 0, PrefixExcerpt(d), PrefixExcerpt(d), |d|)
    else (assert OccursAt(p, d, starts[0]);
          Evidence(true, RuneCount(d[..starts[0]]) + 1, |starts|, GrepExcerpt(d, starts[0], starts[0] + |p|), PrefixExcerpt(d), |d|))
  }

  // ---- what a window on the line shows ----------------------------------------------------------

  lemma {:induction false} NextStartInWindow(d: seq<byte>, w: nat, i: nat)
    requires w <= |d| && i <= |d| - w
    ensures w + NextStart(d[w..], i) == NextStart(d, w + i)
    decreases |d| - w - i
  {
    if i < |d| - w && !RuneStart(d[w..][i]) {
      NextStartInWindow(d, w, i + 1);
    }
  }

  lemma {:induction false} NextStartInPrefix(d: seq<byte>, e: seq<byte>, i: nat)
    requires i <= |d| && NextStart(d, i) < |d|
    ensures NextStart(d + e, i) == NextStart(d, i)
    decreases |d| - i
  {
    if !RuneStart(d[i]) {
      NextStartInPrefix(d, e, i + 1);
    }
  }

  lemma {:induction false} PreviousEndInWindow(d: seq<byte>, w: nat, a: nat, e: nat)
    requires w <= |d| && a <= e <= |d| - w
    ensures w + PreviousEnd(d[w..], a, e) == PreviousEnd(d, w + a, w + e)
    decreases e
  {
    assert d[w..][a..e] == d[w + a..w + e];
    if e > a && !Valid(d[w..][a..e]) {
      PreviousEndInWindow(d, w, a, e - 1);
    }
  }

  /** A whole number of runes is never cut away. */
  lemma PreviousEndKeeps(d: seq<byte>, a: nat, k: nat, e: nat)
    requires a <= k <= e <= |d| && Valid(d[a..k])
    ensures PreviousEnd(d, a, e) >= k
  {
  }

  /** At most three continuation bytes stand before the next rune start. */
  lemma {:induction false} NextStartIsNear(d: seq<byte>, i: nat)
    requires Valid(d) && i <= |d|
    ensures NextStart(d, i) <= i + 3
    decreases |d|
  {
    if i < |d| {
      var n := Decode(d).value;
      if i < n {
        if i > 0 {
          NextStartAtMost(d, i, n);
        } else {
          InsideRune(d, 0);
        }
      } else {
        NextStartInWindow(d, n, i - n);
        NextStartIsNear(d[n..], i - n);
      }
    }
  }

  lemma NextStartAtMost(d: seq<byte>, i: nat, n: nat)
    requires Valid(d) && d != [] && Decode(d) == Some(n) && 0 < i <= n
    ensures NextStart(d, i) <= n
  {
    if n < |d| {
      InsideRune(d[n..], 0);
      assert RuneStart(d[n]);
    }
  }

  /** A valid literal starts at a rune start. */
  lemma LiteralStartsRune(p: seq<byte>, d: seq<byte>, i: nat)
    requires p != [] && Valid(p) && OccursAt(p, d, i)
    ensures RuneStart(d[i])
  {
    InsideRune(p, 0);
    assert d[i..i + |p|][0] == d[i];
  }
}
