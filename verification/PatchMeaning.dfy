/** What a patch does, said of its replacements alone: which it accepts, where each new value stands, and what stays. */
module PatchMeaning {
  import opened Ordering
  import opened Bytes
  import opened ByteSearch
  import opened Sorting
  import opened MutationPatch

  // ---- said of the replacements -----------------------------------------------------------------

  /** Where the context of a replacement is. */
  function Place(source: seq<byte>, r: Replacement): nat {
    if r.context.Some? && Find(r.context.value, source, 0).Some? then Find(r.context.value, source, 0).value else 0
  }

  /** By how much a replacement makes the text longer. */
  function Growth(r: Replacement): int {
    if r.context.Some? && r.value.Some? then |r.value.value| - |r.context.value| else 0
  }

  /** How far the replacements before an offset move it. */
  function Shift(source: seq<byte>, rs: seq<Replacement>, x: int): int {
    if rs == [] then 0 else Shift(source, rs[..|rs| - 1], x) + if Place(source, rs[|rs| - 1]) < x then Growth(rs[|rs| - 1]) else 0
  }

  function AllGrowth(rs: seq<Replacement>): int {
    if rs == [] then 0 else AllGrowth(rs[..|rs| - 1]) + Growth(rs[|rs| - 1])
  }

  /** The bytes the caller sends. */
  function AllSizes(rs: seq<Replacement>): nat {
    if rs == [] then 0
    else AllSizes(rs[..|rs| - 1])
         + (if rs[|rs| - 1].context.Some? then |rs[|rs| - 1].context.value| else 0) + (if rs[|rs| - 1].value.Some? then |rs[|rs| - 1].value.value| else 0)
  }

  /** Both texts decode, are of bounded size, and the context is in the source exactly once. */
  ghost predicate Unique(source: seq<byte>, r: Replacement) {
    && r.context.Some? && r.value.Some? && 0 < |r.context.value| <= MAX_VALUE_BYTES && |r.value.value| <= MAX_VALUE_BYTES
    && exists p: nat :: OccursAt(r.context.value, source, p) && forall o: nat :: OccursAt(r.context.value, source, o) ==> o == p
  }

  /** The offset is in none of the contexts. */
  ghost predicate Untouched(source: seq<byte>, rs: seq<Replacement>, x: int) {
    forall i :: 0 <= i < |rs| && rs[i].context.Some? ==> x < Place(source, rs[i]) || Place(source, rs[i]) + |rs[i].context.value| <= x
  }

  ghost predicate Apart(source: seq<byte>, r: Replacement, t: Replacement) {
    forall p: nat, q: nat :: r.context.Some? && t.context.Some? && OccursAt(r.context.value, source, p) && OccursAt(t.context.value, source, q) ==>
      p + |r.context.value| <= q || q + |t.context.value| <= p
  }

  // ---- the same of spans ------------------------------------------------------------------------

  function SpanGrowth(s: Span): int {
    |s.value| - (s.end - s.start)
  }

  function Moved(s: Span, x: int): int {
    if s.start < x then SpanGrowth(s) else 0
  }

  function SpanShift(spans: seq<Span>, x: int): int {
    if spans == [] then 0 else Moved(spans[0], x) + SpanShift(spans[1..], x)
  }

  lemma {:induction false} ShiftConcat(a: seq<Span>, b: seq<Span>, x: int)
    ensures SpanShift(a + b, x) == SpanShift(a, x) + SpanShift(b, x)
  {
    if a == [] {
      assert a + b == b;
    } else {
      assert (a + b)[1..] == a[1..] + b;
      ShiftConcat(a[1..], b, x);
    }
  }

  lemma ShiftMiddle(a: seq<Span>, y: Span, b: seq<Span>, x: int)
    ensures SpanShift(a + [y] + b, x) == SpanShift(a + b, x) + Moved(y, x)
  {
    ShiftConcat(a + [y], b, x);
    ShiftConcat(a, [y], x);
    ShiftConcat(a, b, x);
    assert [y][1..] == [];
  }

  /** Spans in another order shift alike. */
  lemma {:induction false} ShiftPermutes(a: seq<Span>, b: seq<Span>, x: int)
    requires multiset(a) == multiset(b)
    ensures SpanShift(a, x) == SpanShift(b, x)
    decreases |a|
  {
    hide SpanShift, Moved;
    if a == [] {
      assert |multiset(b)| == 0;
      assert b == [];
    } else {
      var y := a[0];
      var p, q := TakeOut(a, y);
      var p', q' := TakeOut(b, y);
      ShiftMiddle(p, y, q, x);
      ShiftMiddle(p', y, q', x);
      ShiftPermutes(p + q, p' + q', x);
    }
  }

  lemma {:induction false} ShiftOfSpans(source: seq<byte>, rs: seq<Replacement>, x: int)
    requires forall i :: 0 <= i < |rs| ==> Usable(source, rs[i])
    ensures SpanShift(Spans(source, rs), x) == Shift(source, rs, x)
  {
    if rs != [] {
      var n := |rs| - 1;
      ShiftOfSpans(source, rs[..n], x);
      SearchDecidesOnce(source, rs[n].context.value);
      ShiftConcat(Spans(source, rs[..n]), [SpanOf(source, rs[n])], x);
      assert [SpanOf(source, rs[n])][1..] == [];
      hide OccursOnce, Find, OccursAt;
    }
  }

  lemma {:induction false} SpansAt(source: seq<byte>, rs: seq<Replacement>, i: nat)
    requires i < |rs|
    ensures Spans(source, rs)[i] == SpanOf(source, rs[i])
  {
    if i < |rs| - 1 {
      SpansAt(source, rs[..|rs| - 1], i);
    }
  }

  lemma SpanTold(source: seq<byte>, r: Replacement)
    requires Usable(source, r)
    ensures SpanOf(source, r) == Span(Place(source, r), Place(source, r) + |r.context.value|, r.value.value)
    ensures OccursAt(r.context.value, source, Place(source, r)) && forall p: nat :: OccursAt(r.context.value, source, p) ==> p == Place(source, r)
  {
    SearchDecidesOnce(source, r.context.value);
  }

  // ---- where things are in the result -----------------------------------------------------------

  lemma {:induction false} NothingBefore(spans: seq<Span>, x: int)
    requires forall i :: 0 <= i < |spans| ==> x <= spans[i].start
    ensures SpanShift(spans, x) == 0
  {
    if spans != [] {
      NothingBefore(spans[1..], x);
    }
  }

  lemma ResultParts(source: seq<byte>, spans: seq<Span>, cursor: nat)
    requires Chained(spans, cursor, |source|) && spans != []
    ensures cursor <= spans[0].start < spans[0].end <= |source| && Chained(spans[1..], spans[0].end, |source|)
    ensures Substitute(source, spans, cursor) == source[cursor..spans[0].start] + spans[0].value + Substitute(source, spans[1..], spans[0].end)
    ensures forall i :: 0 < i < |spans| ==> spans[0].end <= spans[i].start && spans[i] == spans[1..][i - 1]
  {
    ChainedInside(spans, cursor, |source|);
  }

  /** Each new value stands at the shifted place of its span. */
  lemma {:induction false} ValueStands(source: seq<byte>, spans: seq<Span>, cursor: nat, i: nat)
    requires Chained(spans, cursor, |source|) && i < |spans|
    ensures var at := spans[i].start - cursor + SpanShift(spans, spans[i].start); var result := Substitute(source, spans, cursor);
            0 <= at && at + |spans[i].value| <= |result| && result[at..at + |spans[i].value|] == spans[i].value
    decreases |spans|
  {
    hide Substitute, Chained;
    ResultParts(source, spans, cursor);
    var s, rest := spans[0], Substitute(source, spans[1..], spans[0].end);
    var front := source[cursor..s.start] + s.value;
    if i == 0 {
      NothingBefore(spans, s.start);
      assert (front + rest)[s.start - cursor..s.start - cursor + |s.value|] == s.value;
    } else {
      ValueStands(source, spans[1..], s.end, i - 1);
      var at := spans[i].start - s.end + SpanShift(spans[1..], spans[i].start);
      assert (front + rest)[|front| + at..|front| + at + |spans[i].value|] == rest[at..at + |spans[i].value|];
    }
  }

  /** Each byte outside the spans is found at its shifted place. */
  lemma {:induction false} ByteStays(source: seq<byte>, spans: seq<Span>, cursor: nat, x: nat)
    requires Chained(spans, cursor, |source|) && cursor <= x < |source| && forall i :: 0 <= i < |spans| ==> x < spans[i].start || spans[i].end <= x
    ensures var at := x - cursor + SpanShift(spans, x); var result := Substitute(source, spans, cursor);
            0 <= at < |result| && result[at] == source[x]
    decreases |spans|
  {
    if spans != [] {
      hide Substitute, Chained;
      ResultParts(source, spans, cursor);
      var s, rest := spans[0], Substitute(source, spans[1..], spans[0].end);
      var front := source[cursor..s.start] + s.value;
      if x < s.start {
        NothingBefore(spans, x);
      } else {
        ByteStays(source, spans[1..], s.end, x);
        var at := x - s.end + SpanShift(spans[1..], x);
        assert (front + rest)[|front| + at] == rest[at];
      }
    }
  }

  lemma {:induction false} LengthByShift(size: int, spans: seq<Span>, x: int)
    requires forall i :: 0 <= i < |spans| ==> spans[i].start < x
    ensures FinalLength(size, spans) == size + SpanShift(spans, x)
  {
    if spans != [] {
      LengthByShift(size, spans[1..], x);
    }
  }

  lemma {:induction false} GrowthByShift(source: seq<byte>, rs: seq<Replacement>, x: int)
    requires forall i :: 0 <= i < |rs| ==> Place(source, rs[i]) < x
    ensures Shift(source, rs, x) == AllGrowth(rs)
  {
    if rs != [] {
      GrowthByShift(source, rs[..|rs| - 1], x);
    }
  }

  // ---- the patch as a whole ---------------------------------------------------------------------

  /** What the proofs below work with: the sorted spans of an accepted patch. */
  lemma AcceptedSpans(source: seq<byte>, rs: seq<Replacement>) returns (spans: seq<Span>)
    requires Accepted(source, rs)
    ensures spans == Sort(Spans(source, rs), ByStart) && Chained(spans, 0, |source|) && multiset(spans) == multiset(Spans(source, rs))
    ensures forall x: int :: SpanShift(spans, x) == Shift(source, rs, x)
  {
    hide Sort, Chained, SpanShift, Shift, Usable;
    spans := Sort(Spans(source, rs), ByStart);
    ByStartIsOrder();
    SortKeeps(Spans(source, rs), ByStart);
    forall x: int ensures SpanShift(spans, x) == Shift(source, rs, x) {
      ShiftOfSpans(source, rs, x);
      ShiftPermutes(spans, Spans(source, rs), x);
    }
  }

  lemma PlacesInside(source: seq<byte>, rs: seq<Replacement>, i: nat)
    requires i < |rs| && Usable(source, rs[i])
    ensures Place(source, rs[i]) + |rs[i].context.value| <= |source| && |rs[i].context.value| > 0
  {
    SpanTold(source, rs[i]);
  }

  /** The length of the result, and with it whether it is too large, is that of the source and what each replacement adds. */
  lemma PatchedLength(source: seq<byte>, rs: seq<Replacement>)
    requires Accepted(source, rs)
    ensures Patch(source, rs) == TooLarge <==> |source| + AllGrowth(rs) > MAX_FILE_BYTES
    ensures Patch(source, rs).Patched? ==> |Patch(source, rs).result| == |source| + AllGrowth(rs)
  {
    hide Sort, Shift, SpanShift, Find, OccursAt, OccursOnce;
    var spans := AcceptedSpans(source, rs);
    forall i | 0 <= i < |rs| ensures Place(source, rs[i]) < |source| {
      PlacesInside(source, rs, i);
    }
    GrowthByShift(source, rs, |source|);
    ChainedInside(spans, 0, |source|);
    LengthByShift(|source|, spans, |source|);
    LengthIsFinal(source, spans, 0);
  }

  /** The new value of every replacement stands in the result, where the replacements before it have moved its place. */
  lemma NewValuesStand(source: seq<byte>, rs: seq<Replacement>, k: nat)
    requires Patch(source, rs).Patched? && k < |rs|
    ensures rs[k].context.Some? && rs[k].value.Some?
    ensures var at := Place(source, rs[k]) + Shift(source, rs, Place(source, rs[k])); var v := rs[k].value.value; var result := Patch(source, rs).result;
            0 <= at && at + |v| <= |result| && result[at..at + |v|] == v
  {
    hide Sort, Shift, SpanShift, Find, OccursAt, OccursOnce, Chained;
    assert Usable(source, rs[k]);
    var spans := AcceptedSpans(source, rs);
    SpansAt(source, rs, k);
    SpanTold(source, rs[k]);
    assert SpanOf(source, rs[k]) in multiset(Spans(source, rs));
    assert SpanOf(source, rs[k]) in multiset(spans);
    var i :| 0 <= i < |spans| && spans[i] == SpanOf(source, rs[k]);
    ValueStands(source, spans, 0, i);
  }

  /** Every byte of the source outside the contexts stands in the result, moved alike. */
  lemma OtherBytesStay(source: seq<byte>, rs: seq<Replacement>, x: nat)
    requires Patch(source, rs).Patched? && x < |source| && Untouched(source, rs, x)
    ensures var at := x + Shift(source, rs, x); var result := Patch(source, rs).result; 0 <= at < |result| && result[at] == source[x]
  {
    hide Sort, Shift, SpanShift, Find, OccursAt, OccursOnce, Chained, Place;
    var spans := AcceptedSpans(source, rs);
    forall i | 0 <= i < |spans| ensures x < spans[i].start || spans[i].end <= x {
      assert spans[i] in multiset(Spans(source, rs));
      var k :| 0 <= k < |rs| && Spans(source, rs)[k] == spans[i];
      SpansAt(source, rs, k);
      assert Usable(source, rs[k]);
      SpanTold(source, rs[k]);
    }
    ByteStays(source, spans, 0, x);
  }

  /** One usable replacement, in full. */
  lemma PatchOfOne(source: seq<byte>, context: seq<byte>, value: seq<byte>, i: nat)
    requires 0 < |context| && |context| + |value| <= MAX_VALUE_BYTES
    requires OccursAt(context, source, i) && forall j: nat :: OccursAt(context, source, j) ==> j == i
    ensures Patch(source, [Replacement(Some(context), Some(value))])
         == if |source| - |context| + |value| > MAX_FILE_BYTES then TooLarge else Patched(source[..i] + value + source[i + |context|..])
  {
    var r := Replacement(Some(context), Some(value));
    var rs := [r];
    assert OccursOnce(source, context);
    SpanTold(source, r);
    assert rs[..0] == [];
    assert Spans(source, rs) == [Span(i, i + |context|, value)] && Total(rs) == |context| + |value|;
    SortOfOne(Span(i, i + |context|, value));
    assert i + |context| <= |source| && Usable(source, r);
    hide Find, OccursAt, OccursOnce, Usable, Spans, Sort, Total;
    var spans := [Span(i, i + |context|, value)];
    assert FinalLength(|source|, spans) == |source| - |context| + |value| by {
      assert spans[1..] == [];
    }
    assert spans[1..] == [];
    assert Chained(spans, 0, |source|);
    assert Substitute(source, spans, 0) == source[..i] + value + source[i + |context|..];
  }

  lemma SortOfOne(s: Span)
    ensures Sort([s], ByStart) == [s]
  {
    ByStartIsOrder();
    SortKeeps([s], ByStart);
    var sorted := Sort([s], ByStart);
    assert |multiset(sorted)| == |sorted| == 1;
    assert sorted[0] in multiset([s]);
  }

  // ---- which patches are accepted ---------------------------------------------------------------

  ghost predicate AllApart(spans: seq<Span>) {
    forall i, j :: 0 <= i < j < |spans| ==> !Overlap(spans[i], spans[j])
  }

  lemma {:induction false} TwoPlaces(a: seq<Span>, y: Span) returns (i: nat, j: nat)
    requires multiset(a)[y] >= 2
    ensures i < j < |a| && a[i] == y && a[j] == y
  {
    var n := |a| - 1;
    assert a == a[..n] + [a[n]];
    if a[n] == y {
      assert y in multiset(a[..n]);
      i :| 0 <= i < n && a[..n][i] == y;
      j := n;
    } else {
      i, j := TwoPlaces(a[..n], y);
    }
  }

  /** Whether any two overlap does not depend on the order. */
  lemma ApartPermutes(a: seq<Span>, b: seq<Span>)
    requires multiset(a) == multiset(b) && AllApart(a)
    ensures AllApart(b)
  {
    forall i, j | 0 <= i < j < |b| ensures !Overlap(b[i], b[j]) {
      if b[i] == b[j] {
        var front := b[..j];
        assert b == front + [b[j]] + b[j + 1..] && front[i] == b[i];
        assert b[i] in multiset(front);
        var p, q := TwoPlaces(a, b[i]);
      } else {
        assert b[i] in multiset(a) && b[j] in multiset(a);
        var p :| 0 <= p < |a| && a[p] == b[i];
        var q :| 0 <= q < |a| && a[q] == b[j];
      }
    }
  }

  lemma AcceptedApart(source: seq<byte>, rs: seq<Replacement>)
    ensures Patch(source, rs) != BadPatch <==>
              && 1 <= |rs| <= MAX_REPLACEMENTS && Total(rs) <= MAX_VALUE_BYTES && (forall i :: 0 <= i < |rs| ==> Usable(source, rs[i]))
              && forall i, j :: 0 <= i < j < |rs| ==> Apart(source, rs[i], rs[j])
  {
    hide Sort, Spans, Total, Usable, Chained, Overlap;
    if 1 <= |rs| <= MAX_REPLACEMENTS && Total(rs) <= MAX_VALUE_BYTES && forall i :: 0 <= i < |rs| ==> Usable(source, rs[i]) {
      var located, sorted := Spans(source, rs), Sort(Spans(source, rs), ByStart);
      ByStartIsOrder();
      SortKeeps(located, ByStart);
      SortedInside(source, rs);
      ChainedMeansDisjoint(sorted, 0, |source|);
      forall i, j | 0 <= i < j < |rs| ensures Apart(source, rs[i], rs[j]) <==> !Overlap(located[i], located[j]) {
        SpansAt(source, rs, i);
        SpansAt(source, rs, j);
        ApartMeans(source, rs[i], rs[j]);
      }
      if AllApart(located) {
        ApartPermutes(located, sorted);
      } else if AllApart(sorted) {
        ApartPermutes(sorted, located);
      }
    }
  }

  /**
   * A patch is taken if and only if it has between one and sixty-four replacements of bounded size together, each
   * with a context that occurs exactly once, and no two contexts overlap in the source.
   */
  lemma AcceptedIff(source: seq<byte>, rs: seq<Replacement>)
    ensures Patch(source, rs) != BadPatch <==>
              && 1 <= |rs| <= MAX_REPLACEMENTS && AllSizes(rs) <= MAX_VALUE_BYTES && (forall i :: 0 <= i < |rs| ==> Unique(source, rs[i]))
              && forall i, j :: 0 <= i < j < |rs| ==> Apart(source, rs[i], rs[j])
  {
    hide Unique, AllSizes, Total, Usable, Apart, Patch;
    AcceptedApart(source, rs);
    forall i | 0 <= i < |rs| ensures Unique(source, rs[i]) <==> Usable(source, rs[i]) {
      UniqueMeans(source, rs[i]);
    }
    if forall i :: 0 <= i < |rs| ==> Usable(source, rs[i]) {
      SizesMean(source, rs);
    }
  }

  lemma UniqueMeans(source: seq<byte>, r: Replacement)
    ensures Unique(source, r) <==> Usable(source, r)
  {
    hide OccursAt;
    if Usable(source, r) {
      var p :| OccursAt(r.context.value, source, p) && forall o :: OccursAt(r.context.value, source, o) ==> o == p;
    }
  }

  lemma {:induction false} SizesMean(source: seq<byte>, rs: seq<Replacement>)
    requires forall i :: 0 <= i < |rs| ==> Usable(source, rs[i])
    ensures AllSizes(rs) == Total(rs)
  {
    if rs != [] {
      SizesMean(source, rs[..|rs| - 1]);
    }
  }

  lemma ApartMeans(source: seq<byte>, r: Replacement, t: Replacement)
    requires Usable(source, r) && Usable(source, t)
    ensures Apart(source, r, t) <==> !Overlap(SpanOf(source, r), SpanOf(source, t))
  {
    SpanTold(source, r);
    SpanTold(source, t);
    hide Find, OccursOnce, SpanOf, OccursAt;
  }
}
