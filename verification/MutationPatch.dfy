/** Exact-context replacements, all located in the original source and applied together. */
module MutationPatch {
  import opened Ordering
  import opened Bytes
  import opened ByteSearch
  import opened Sorting

  const MAX_REPLACEMENTS := 64
  const MAX_VALUE_BYTES := 512 * 1024
  const MAX_FILE_BYTES := 8 * 1024 * 1024

  /** A replacement after decoding; a value that does not decode is None. */
  datatype Replacement = Replacement(context: Option<seq<byte>>, value: Option<seq<byte>>)

  datatype Span = Span(start: nat, end: nat, value: seq<byte>)

  datatype Outcome = Patched(result: seq<byte>) | BadPatch | TooLarge

  // ---- locating ---------------------------------------------------------------------------------

  /** The context occurs exactly once, overlapping occurrences included. */
  ghost predicate OccursOnce(source: seq<byte>, context: seq<byte>) {
    exists i :: OccursAt(context, source, i) && forall j :: OccursAt(context, source, j) ==> j == i
  }

  predicate Decoded(r: Replacement) {
    r.context.Some? && r.value.Some? && 0 < |r.context.value| <= MAX_VALUE_BYTES && |r.value.value| <= MAX_VALUE_BYTES
  }

  ghost predicate Usable(source: seq<byte>, r: Replacement) {
    Decoded(r) && OccursOnce(source, r.context.value)
  }

  function SpanOf(source: seq<byte>, r: Replacement): (s: Span)
  {
    if Decoded(r) && Find(r.context.value, source, 0).Some?
    then Span(Find(r.context.value, source, 0).value, Find(r.context.value, source, 0).value + |r.context.value|, r.value.value)
    else Span(0, 0, [])
  }

  lemma SearchDecidesOnce(source: seq<byte>, context: seq<byte>)
    ensures OccursOnce(source, context) <==> Find(context, source, 0).Some? && Find(context, source, Find(context, source, 0).value + 1).None?
  {
    hide OccursAt, Find;
    match Find(context, source, 0) {
      case None =>
      case Some(i) =>
        if OccursOnce(source, context) {
          var k :| OccursAt(context, source, k) && forall j :: OccursAt(context, source, j) ==> j == k;
          assert k == i;
        } else {
          assert Find(context, source, i + 1).None? ==> forall j :: OccursAt(context, source, j) ==> j == i;
        }
    }
  }

  function Spans(source: seq<byte>, rs: seq<Replacement>): (spans: seq<Span>)
    ensures |spans| == |rs|
  {
    if rs == [] then [] else Spans(source, rs[..|rs| - 1]) + [SpanOf(source, rs[|rs| - 1])]
  }

  function Size(r: Replacement): nat {
    if Decoded(r) then |r.context.value| + |r.value.value| else 0
  }

  function Total(rs: seq<Replacement>): nat {
    if rs == [] then 0 else Total(rs[..|rs| - 1]) + Size(rs[|rs| - 1])
  }

  predicate ByStart(s: Span, t: Span) { s.start <= t.start }

  lemma ByStartIsOrder()
    ensures TotalPreorder(ByStart)
  {
  }

  // ---- the patch as a whole ---------------------------------------------------------------------

  /** Each span starts where the previous one has ended or later, and none is empty. */
  predicate Chained(spans: seq<Span>, cursor: nat, size: nat) {
    if spans == [] then cursor <= size
    else cursor <= spans[0].start < spans[0].end && Chained(spans[1..], spans[0].end, size)
  }

  function FinalLength(size: int, spans: seq<Span>): int {
    if spans == [] then size else FinalLength(size, spans[1..]) + |spans[0].value| - (spans[0].end - spans[0].start)
  }

  function Substitute(source: seq<byte>, spans: seq<Span>, cursor: nat): seq<byte>
    requires Chained(spans, cursor, |source|)
    decreases |spans|
  {
    if spans == [] then source[cursor..]
    else (ChainedInside(spans, cursor, |source|);
          source[cursor..spans[0].start] + spans[0].value + Substitute(source, spans[1..], spans[0].end))
  }

  lemma {:induction false} ChainedInside(spans: seq<Span>, cursor: nat, size: nat)
    requires Chained(spans, cursor, size)
    ensures cursor <= size && forall i :: 0 <= i < |spans| ==> cursor <= spans[i].start < spans[i].end <= size
    ensures forall i, j :: 0 <= i < j < |spans| ==> spans[i].end <= spans[j].start
    decreases |spans|
  {
    if spans != [] {
      ChainedInside(spans[1..], spans[0].end, size);
      forall i | 0 <= i < |spans| ensures cursor <= spans[i].start < spans[i].end <= size {
        assert i > 0 ==> spans[i] == spans[1..][i - 1];
      }
      forall i, j | 0 <= i < j < |spans| ensures spans[i].end <= spans[j].start {
        assert spans[j] == spans[1..][j - 1] && (i > 0 ==> spans[i] == spans[1..][i - 1]);
      }
    }
  }

  ghost predicate Accepted(source: seq<byte>, rs: seq<Replacement>) {
    && 1 <= |rs| <= MAX_REPLACEMENTS && Total(rs) <= MAX_VALUE_BYTES
    && (forall i :: 0 <= i < |rs| ==> Usable(source, rs[i]))
    && Chained(Sort(Spans(source, rs), ByStart), 0, |source|)
  }

  /** What a patch gives: an error that does not say which replacement was wrong, or the source with every span replaced. */
  ghost function Patch(source: seq<byte>, rs: seq<Replacement>): Outcome {
    if !Accepted(source, rs) then BadPatch
    else
      var spans := Sort(Spans(source, rs), ByStart);
      if FinalLength(|source|, spans) > MAX_FILE_BYTES then TooLarge else Patched(Substitute(source, spans, 0))
  }

  // ---- the algorithm ----------------------------------------------------------------------------

  lemma {:induction false} TotalGrows(rs: seq<Replacement>, k: nat)
    requires k <= |rs|
    ensures Total(rs[..k]) <= Total(rs)
    decreases |rs| - k
  {
    if k == |rs| {
      assert rs[..k] == rs;
    } else {
      assert rs[..k + 1][..k] == rs[..k];
      TotalGrows(rs, k + 1);
    }
  }

  /** Locates every replacement, or finds one that makes the patch unusable. */
  method Locate(source: seq<byte>, rs: seq<Replacement>) returns (spans: Option<seq<Span>>)
    ensures spans.None? ==> !Accepted(source, rs)
    ensures spans.Some? ==> spans.value == Spans(source, rs) && 1 <= |rs| <= MAX_REPLACEMENTS && Total(rs) <= MAX_VALUE_BYTES
                            && forall i :: 0 <= i < |rs| ==> Usable(source, rs[i])
  {
    hide OccursOnce, OccursAt, Find;
    if |rs| < 1 || |rs| > MAX_REPLACEMENTS {
      return None;
    }
    var located: seq<Span> := [];
    var total := 0;
    var i := 0;
    while i < |rs|
      invariant 0 <= i <= |rs| && located == Spans(source, rs[..i]) && total == Total(rs[..i]) <= MAX_VALUE_BYTES
      invariant forall j :: 0 <= j < i ==> Usable(source, rs[j])
    {
      var r := rs[i];
      if r.context.None? || |r.context.value| > MAX_VALUE_BYTES || |r.context.value| == 0 || r.value.None? || |r.value.value| > MAX_VALUE_BYTES {
        return None;
      }
      assert rs[..i + 1][..i] == rs[..i];
      TotalGrows(rs, i + 1);
      total := total + |r.context.value| + |r.value.value|;
      if total > MAX_VALUE_BYTES {
        return None;
      }
      SearchDecidesOnce(source, r.context.value);
      var start := Find(r.context.value, source, 0);
      if start.None? || Find(r.context.value, source, start.value + 1).Some? {
        return None;
      }
      located := located + [Span(start.value, start.value + |r.context.value|, r.value.value)];
      i := i + 1;
    }
    assert rs[..i] == rs;
    spans := Some(located);
  }

  ghost predicate Inside(spans: seq<Span>, size: nat) {
    forall i :: 0 <= i < |spans| ==> spans[i].start < spans[i].end <= size
  }

  /** Checks that sorted spans do not overlap, and what length the result will have. */
  method Measure(size: nat, spans: seq<Span>) returns (finalLen: Option<int>)
    requires Inside(spans, size)
    ensures finalLen.Some? <==> Chained(spans, 0, size)
    ensures finalLen.Some? ==> finalLen.value == FinalLength(size, spans)
  {
    var n, cursor: nat := size as int, 0;
    var i := 0;
    while i < |spans|
      invariant 0 <= i <= |spans| && cursor <= size
      invariant Chained(spans, 0, size) <==> Chained(spans[i..], cursor, size)
      invariant FinalLength(n, spans[i..]) == FinalLength(size, spans)
    {
      var span := spans[i];
      assert spans[i..][1..] == spans[i + 1..];
      if span.start < cursor {
        return None;
      }
      cursor := span.end;
      FinalLengthShifts(n, spans[i + 1..], |span.value| - (span.end - span.start));
      n := n + |span.value| - (span.end - span.start);
      i := i + 1;
    }
    finalLen := Some(n);
  }

  lemma {:induction false} FinalLengthShifts(size: int, spans: seq<Span>, delta: int)
    ensures FinalLength(size + delta, spans) == FinalLength(size, spans) + delta
  {
    if spans != [] {
      FinalLengthShifts(size, spans[1..], delta);
    }
  }

  method Splice(source: seq<byte>, spans: seq<Span>) returns (result: seq<byte>)
    requires Chained(spans, 0, |source|)
    ensures result == Substitute(source, spans, 0)
  {
    result := [];
    var cursor, i := 0, 0;
    while i < |spans|
      invariant 0 <= i <= |spans| && 0 <= cursor && Chained(spans[i..], cursor, |source|)
      invariant result + Substitute(source, spans[i..], cursor) == Substitute(source, spans, 0)
    {
      var span := spans[i];
      assert spans[i..][1..] == spans[i + 1..];
      ChainedInside(spans[i..], cursor, |source|);
      assert spans[i..][0] == span;
      result := result + source[cursor..span.start];
      result := result + span.value;
      cursor := span.end;
      i := i + 1;
    }
    result := result + source[cursor..];
  }

  /** Applies all replacements, or none: every failure but an oversized result is the same error. */
  method ApplyMutationPatch(source: seq<byte>, rs: seq<Replacement>) returns (outcome: Outcome)
    ensures outcome == Patch(source, rs)
  {
    hide Usable, Sort, Spans, Chained, FinalLength, Total, Inside;
    var located := Locate(source, rs);
    if located.None? {
      return BadPatch;
    }
    var spans := Sort(located.value, ByStart);
    SortedInside(source, rs);
    var finalLen := Measure(|source|, spans);
    if finalLen.None? {
      return BadPatch;
    }
    LengthIsFinal(source, spans, 0);
    if finalLen.value < 0 || finalLen.value > MAX_FILE_BYTES {
      return TooLarge;
    }
    var result := Splice(source, spans);
    outcome := Patched(result);
  }

  lemma SortedInside(source: seq<byte>, rs: seq<Replacement>)
    requires forall i :: 0 <= i < |rs| ==> Usable(source, rs[i])
    ensures Inside(Sort(Spans(source, rs), ByStart), |source|)
  {
    var located, spans := Spans(source, rs), Sort(Spans(source, rs), ByStart);
    SpansInside(source, rs);
    ByStartIsOrder();
    SortKeeps(located, ByStart);
    forall i | 0 <= i < |spans| ensures spans[i].start < spans[i].end <= |source| {
      assert spans[i] in multiset(located);
    }
  }

  lemma {:induction false} SpansInside(source: seq<byte>, rs: seq<Replacement>)
    requires forall i :: 0 <= i < |rs| ==> Usable(source, rs[i])
    ensures forall i :: 0 <= i < |rs| ==> Spans(source, rs)[i].start < Spans(source, rs)[i].end <= |source|
  {
    if rs != [] {
      SpansInside(source, rs[..|rs| - 1]);
      SearchDecidesOnce(source, rs[|rs| - 1].context.value);
    }
  }

  predicate Overlap(s: Span, t: Span) {
    s.start < t.end && t.start < s.end
  }

  /** What the pass over the sorted spans decides is whether any two of them overlap, neighbours or not. */
  lemma {:induction false} ChainedMeansDisjoint(spans: seq<Span>, cursor: nat, size: nat)
    requires Sorted(spans, ByStart) && Inside(spans, size) && cursor <= size && (spans != [] ==> cursor <= spans[0].start)
    ensures Chained(spans, cursor, size) <==> forall i, j :: 0 <= i < j < |spans| ==> !Overlap(spans[i], spans[j])
    decreases |spans|
  {
    if spans != [] {
      var rest := spans[1..];
      if rest == [] || spans[0].end <= rest[0].start {
        ChainedMeansDisjoint(rest, spans[0].end, size);
        if Chained(spans, cursor, size) {
          ChainedInside(spans, cursor, size);
        } else {
          var i, j :| 0 <= i < j < |rest| && Overlap(rest[i], rest[j]);
          assert Overlap(spans[i + 1], spans[j + 1]);
        }
      } else {
        assert rest[0] == spans[1] && Overlap(spans[0], spans[1]);
      }
    }
  }

  // ---- what a patch means -----------------------------------------------------------------------

  /** The result has the length computed before it was built, which is never negative. */
  lemma {:induction false} LengthIsFinal(source: seq<byte>, spans: seq<Span>, cursor: nat)
    requires Chained(spans, cursor, |source|)
    ensures |Substitute(source, spans, cursor)| == FinalLength(|source| - cursor, spans)
    decreases |spans|
  {
    ChainedInside(spans, cursor, |source|);
    if spans != [] {
      LengthIsFinal(source, spans[1..], spans[0].end);
      FinalLengthShifts(|source| - spans[0].end, spans[1..], spans[0].end - cursor);
    }
  }

  function ReplaceOne(source: seq<byte>, s: Span): seq<byte>
    requires s.start <= s.end <= |source|
  {
    source[..s.start] + s.value + source[s.end..]
  }

  /** One replacement after the other, the last one in the text first, so that no place moves before its turn. */
  function OneByOne(source: seq<byte>, spans: seq<Span>, cursor: nat): (result: seq<byte>)
    requires Chained(spans, cursor, |source|)
    ensures |result| >= cursor
    decreases |spans|
  {
    if spans == [] then source
    else
      (ChainedInside(spans, cursor, |source|);
       ReplaceOne(OneByOne(source, spans[1..], spans[0].end), spans[0]))
  }

  lemma Regroup(a: seq<byte>, b: seq<byte>, c: seq<byte>, d: seq<byte>)
    ensures a + (b + c + d) == a + b + c + d
  {
  }

  lemma ReplaceFront(source: seq<byte>, later: seq<byte>, s: Span, cursor: nat, rest: seq<byte>)
    requires cursor <= s.start <= s.end <= |source| && later == source[..s.end] + rest
    ensures ReplaceOne(later, s) == source[..cursor] + (source[cursor..s.start] + s.value + rest)
  {
    assert later[..s.start] == source[..cursor] + source[cursor..s.start] && later[s.end..] == rest;
    Regroup(source[..cursor], source[cursor..s.start], s.value, rest);
  }

  /** Replacing all at once is replacing one by one from the back. */
  lemma {:induction false} TogetherIsOneByOne(source: seq<byte>, spans: seq<Span>, cursor: nat)
    requires cursor <= |source| && Chained(spans, cursor, |source|)
    ensures OneByOne(source, spans, cursor) == source[..cursor] + Substitute(source, spans, cursor)
    decreases |spans|
  {
    ChainedInside(spans, cursor, |source|);
    if spans != [] {
      var s := spans[0];
      TogetherIsOneByOne(source, spans[1..], s.end);
      ReplaceFront(source, OneByOne(source, spans[1..], s.end), s, cursor, Substitute(source, spans[1..], s.end));
    }
  }

  /** The spans of the result that hold the new values, each with the old value to put back. */
  function Inverse(source: seq<byte>, spans: seq<Span>, cursor: nat, shifted: nat): seq<Span>
    requires Chained(spans, cursor, |source|)
    decreases |spans|
  {
    if spans == [] then []
    else
      ChainedInside(spans, cursor, |source|);
      var s := spans[0];
      var start := shifted + s.start - cursor;
      [Span(start, start + |s.value|, source[s.start..s.end])] + Inverse(source, spans[1..], s.end, start + |s.value|)
  }

  /** Substitution where the replaced spans may also be empty. */
  predicate Ordered(spans: seq<Span>, cursor: nat, size: nat) {
    if spans == [] then cursor <= size else cursor <= spans[0].start <= spans[0].end <= size && Ordered(spans[1..], spans[0].end, size)
  }

  function Restore(result: seq<byte>, spans: seq<Span>, cursor: nat): seq<byte>
    requires Ordered(spans, cursor, |result|)
    decreases |spans|
  {
    if spans == [] then result[cursor..] else result[cursor..spans[0].start] + spans[0].value + Restore(result, spans[1..], spans[0].end)
  }

  lemma Pieces(result: seq<byte>, before: seq<byte>, kept: seq<byte>, value: seq<byte>, rest: seq<byte>, ahead: seq<byte>)
    requires result == before + (kept + value + rest) && ahead == before + kept + value
    ensures result == ahead + rest && |before| + |kept| <= |ahead| <= |result| && result[|before|..|before| + |kept|] == kept
  {
  }

  lemma RestoreStep(result: seq<byte>, s: Span, back: seq<Span>, cursor: nat)
    requires cursor <= s.start <= s.end <= |result| && Ordered(back, s.end, |result|)
    ensures Ordered([s] + back, cursor, |result|)
    ensures Restore(result, [s] + back, cursor) == result[cursor..s.start] + s.value + Restore(result, back, s.end)
  {
    assert ([s] + back)[1..] == back;
  }

  lemma InverseStep(source: seq<byte>, spans: seq<Span>, cursor: nat, shifted: nat)
    requires Chained(spans, cursor, |source|) && spans != []
    ensures var s := spans[0]; var start := shifted + s.start - cursor;
            && cursor <= s.start < s.end <= |source|
            && Inverse(source, spans, cursor, shifted)
               == [Span(start, start + |s.value|, source[s.start..s.end])] + Inverse(source, spans[1..], s.end, start + |s.value|)
            && Substitute(source, spans, cursor) == source[cursor..s.start] + s.value + Substitute(source, spans[1..], s.end)
  {
    ChainedInside(spans, cursor, |source|);
  }

  /** Putting the old values back where the new ones are recovers the source. */
  lemma {:induction false} InverseRecovers(source: seq<byte>, spans: seq<Span>, cursor: nat, before: seq<byte>, result: seq<byte>)
    requires cursor <= |source| && Chained(spans, cursor, |source|) && result == before + Substitute(source, spans, cursor)
    ensures var back := Inverse(source, spans, cursor, |before|);
            Ordered(back, |before|, |result|) && Restore(result, back, |before|) == source[cursor..]
    decreases |spans|
  {
    hide Restore, Ordered, Inverse, Substitute, Chained;
    if spans == [] {
      InverseOfNothing(source, cursor, before, result);
    } else {
      InverseStep(source, spans, cursor, |before|);
      ChainedRest(spans, cursor, |source|);
      var s := spans[0];
      var kept, rest := source[cursor..s.start], Substitute(source, spans[1..], s.end);
      var ahead := before + kept + s.value;
      Pieces(result, before, kept, s.value, rest, ahead);
      InverseRecovers(source, spans[1..], s.end, ahead, result);
      RestoreStep(result, Span(|before| + |kept|, |ahead|, source[s.start..s.end]), Inverse(source, spans[1..], s.end, |ahead|), |before|);
      SourceSplits(source, cursor, s);
    }
  }

  lemma InverseOfNothing(source: seq<byte>, cursor: nat, before: seq<byte>, result: seq<byte>)
    requires cursor <= |source| && Chained([], cursor, |source|) && result == before + Substitute(source, [], cursor)
    ensures var back := Inverse(source, [], cursor, |before|); Ordered(back, |before|, |result|) && Restore(result, back, |before|) == source[cursor..]
  {
  }

  lemma ChainedRest(spans: seq<Span>, cursor: nat, size: nat)
    requires Chained(spans, cursor, size) && spans != []
    ensures Chained(spans[1..], spans[0].end, size)
  {
  }

  lemma SourceSplits(source: seq<byte>, cursor: nat, s: Span)
    requires cursor <= s.start <= s.end <= |source|
    ensures source[cursor..] == source[cursor..s.start] + source[s.start..s.end] + source[s.end..]
  {
  }

  // ---- the order of the replacements does not matter --------------------------------------------

  lemma {:induction false} SpansConcat(source: seq<byte>, a: seq<Replacement>, b: seq<Replacement>)
    ensures Spans(source, a + b) == Spans(source, a) + Spans(source, b) && Total(a + b) == Total(a) + Total(b)
    decreases |b|
  {
    if b == [] {
      assert a + b == a;
    } else {
      var n := |b| - 1;
      assert (a + b)[..|a + b| - 1] == a + b[..n];
      SpansConcat(source, a, b[..n]);
    }
  }

  lemma SpansMiddle(source: seq<byte>, x: seq<Replacement>, y: Replacement, z: seq<Replacement>)
    ensures multiset(Spans(source, x + [y] + z)) == multiset(Spans(source, x + z)) + multiset{SpanOf(source, y)}
    ensures Total(x + [y] + z) == Total(x + z) + Size(y)
  {
    SpansConcat(source, x + [y], z);
    SpansConcat(source, x, [y]);
    SpansConcat(source, x, z);
    assert [y][..0] == [];
    assert Spans(source, [y]) == [SpanOf(source, y)] && Total([y]) == Size(y);
    hide Spans, Total;
  }

  /** Replacements in another order locate the same spans and weigh the same. */
  lemma {:induction false} ReorderedSpans(source: seq<byte>, a: seq<Replacement>, b: seq<Replacement>)
    requires multiset(a) == multiset(b)
    ensures multiset(Spans(source, a)) == multiset(Spans(source, b)) && Total(a) == Total(b)
    decreases |a|
  {
    hide Spans, Total;
    if a == [] {
      assert |multiset(b)| == 0;
    } else {
      var y := a[|a| - 1];
      var x, z := TakeOut(a, y);
      var x', z' := TakeOut(b, y);
      SpansMiddle(source, x, y, z);
      SpansMiddle(source, x', y, z');
      ReorderedSpans(source, x + z, x' + z');
    }
  }

  lemma ChainedIsRigid(spans: seq<Span>, size: nat)
    requires Chained(spans, 0, size)
    ensures Rigid(spans, ByStart)
  {
    ChainedInside(spans, 0, size);
  }

  /** Two arrangements of the same replacements are accepted alike and give the same sorted spans. */
  lemma ReorderedAccepted(source: seq<byte>, a: seq<Replacement>, b: seq<Replacement>)
    requires multiset(a) == multiset(b) && Accepted(source, a)
    ensures Accepted(source, b) && Sort(Spans(source, b), ByStart) == Sort(Spans(source, a), ByStart)
  {
    ReorderedSpans(source, a, b);
    ByStartIsOrder();
    SortKeeps(Spans(source, a), ByStart);
    SortKeeps(Spans(source, b), ByStart);
    ChainedIsRigid(Sort(Spans(source, a), ByStart), |source|);
    SortedIsUnique(Sort(Spans(source, a), ByStart), Sort(Spans(source, b), ByStart), ByStart);
    assert |multiset(a)| == |a| && |multiset(b)| == |b|;
    hide Usable, Sort, Spans, Total;
    forall i | 0 <= i < |b| ensures Usable(source, b[i]) {
      assert b[i] in multiset(a);
    }
  }

  /** Neither the result nor the kind of failure depends on the order in which replacements are given. */
  lemma OrderDoesNotMatter(source: seq<byte>, a: seq<Replacement>, b: seq<Replacement>)
    requires multiset(a) == multiset(b)
    ensures Patch(source, a) == Patch(source, b)
  {
    hide Accepted, Sort, Spans;
    if Accepted(source, a) {
      ReorderedAccepted(source, a, b);
    } else if Accepted(source, b) {
      ReorderedAccepted(source, b, a);
    }
  }
}
