/** Physical lines of a source: the offset table, the search in it, and the reader that finds the same lines in any chunks. */
module PhysicalLines {
  import opened Ordering
  import opened Bytes

  const NEWLINE: byte := 10
  const RETURN: byte := 13

  /** Byte ranges of one line: its text, and where the next line starts. */
  datatype PhysicalLine = PhysicalLine(start: nat, contentEnd: nat, end: nat)

  /** Where the line that starts at s ends: behind its newline, or with the source. */
  function LineEnd(d: seq<byte>, s: nat): (e: nat)
    requires s <= |d|
    ensures s <= e <= |d| && (s < |d| ==> s < e)
    ensures forall k :: s <= k < e - 1 ==> d[k] != NEWLINE
    ensures e == |d| || d[e - 1] == NEWLINE
    decreases |d| - s
  {
    if s == |d| then s else if d[s] == NEWLINE then s + 1 else LineEnd(d, s + 1)
  }

  predicate Terminated(d: seq<byte>, s: nat, e: nat) {
    s < e <= |d| && d[e - 1] == NEWLINE
  }

  /** The text leaves out the newline, and a carriage return just before one. */
  function ContentEnd(d: seq<byte>, s: nat, e: nat): (c: nat)
    requires s < e <= |d|
    ensures s <= c <= e
  {
    if !Terminated(d, s, e) then e
    else if e - 1 > s && d[e - 2] == RETURN then e - 2
    else e - 1
  }

  function LineAt(d: seq<byte>, s: nat): PhysicalLine
    requires s < |d|
  {
    PhysicalLine(s, ContentEnd(d, s, LineEnd(d, s)), LineEnd(d, s))
  }

  /** All lines from s on. */
  function LinesFrom(d: seq<byte>, s: nat): seq<PhysicalLine>
    requires s <= |d|
    decreases |d| - s
  {
    if s == |d| then [] else [LineAt(d, s)] + LinesFrom(d, LineEnd(d, s))
  }

  // ---- the table --------------------------------------------------------------------------------

  /** Lines that follow one another without gaps from s to the end of the source. */
  ghost predicate Partitions(d: seq<byte>, s: nat, lines: seq<PhysicalLine>) {
    && (lines == [] <==> s == |d|)
    && (lines != [] ==> lines[0].start == s && lines[|lines| - 1].end == |d|)
    && (forall i :: 0 <= i < |lines| ==> lines[i].start < |d| && lines[i].start < lines[i].end <= |d|)
    && (forall i :: 0 <= i < |lines| - 1 ==> lines[i].end == lines[i + 1].start && d[lines[i].end - 1] == NEWLINE)
  }

  lemma PartitionsFront(d: seq<byte>, s: nat, line: PhysicalLine, rest: seq<PhysicalLine>)
    requires line.start == s < line.end <= |d| && Partitions(d, line.end, rest) && (rest != [] ==> d[line.end - 1] == NEWLINE)
    ensures Partitions(d, s, [line] + rest)
  {
    var lines := [line] + rest;
    forall i | 0 <= i < |lines| ensures lines[i].start < |d| && lines[i].start < lines[i].end <= |d| {
      assert i == 0 || lines[i] == rest[i - 1];
    }
    forall i | 0 <= i < |lines| - 1 ensures lines[i].end == lines[i + 1].start && d[lines[i].end - 1] == NEWLINE {
      assert lines[i + 1] == rest[i] && (i == 0 || lines[i] == rest[i - 1]);
    }
  }

  /**
   * A line is its text and what ends it: a newline, a carriage return and a newline, or nothing at the end of the
   * source. The text holds no newline, and only a return that stands right before the newline is left out of it.
   */
  lemma LineIsTextAndEnd(d: seq<byte>, s: nat)
    requires s < |d|
    ensures var l := LineAt(d, s); var text, ending := d[l.start..l.contentEnd], d[l.contentEnd..l.end];
            && l.start == s < l.end <= |d| && l.start <= l.contentEnd <= l.end && NEWLINE !in text
            && (ending == [] || ending == [NEWLINE] || ending == [RETURN, NEWLINE])
            && (ending == [] ==> l.end == |d|) && (ending == [NEWLINE] ==> text == [] || text[|text| - 1] != RETURN)
  {
    var l := LineAt(d, s);
    var text := d[l.start..l.contentEnd];
    assert forall k :: 0 <= k < |text| ==> text[k] == d[s + k];
    hide LineEnd;
  }

  /** The lines partition the source. */
  lemma {:induction false} LinesPartition(d: seq<byte>, s: nat)
    requires s <= |d|
    ensures Partitions(d, s, LinesFrom(d, s))
    decreases |d| - s
  {
    if s < |d| {
      LinesPartition(d, LineEnd(d, s));
      assert LinesFrom(d, LineEnd(d, s)) == [] || LineEnd(d, s) < |d|;
      hide LinesFrom, Partitions;
      PartitionsFront(d, s, LineAt(d, s), LinesFrom(d, LineEnd(d, s)));
      assert LinesFrom(d, s) == [LineAt(d, s)] + LinesFrom(d, LineEnd(d, s)) by {
        FirstLine(d, s);
      }
    }
  }

  lemma FirstLine(d: seq<byte>, s: nat)
    requires s < |d|
    ensures LinesFrom(d, s) == [LineAt(d, s)] + LinesFrom(d, LineEnd(d, s))
  {
  }

  function Newlines(d: seq<byte>, s: nat): nat
    requires s <= |d|
    decreases |d| - s
  {
    if s == |d| then 0 else (if d[s] == NEWLINE then 1 else 0) + Newlines(d, s + 1)
  }

  /** Newlines up to the end of a line are at its end only. */
  lemma {:induction false} NewlinesInLine(d: seq<byte>, s: nat)
    requires s < |d|
    ensures Newlines(d, s) == (if d[LineEnd(d, s) - 1] == NEWLINE then 1 else 0) + Newlines(d, LineEnd(d, s))
    decreases |d| - s
  {
    if d[s] != NEWLINE && s + 1 < |d| {
      NewlinesInLine(d, s + 1);
    }
  }

  /** The number of lines is that of the newlines, and one more for an unterminated last line. */
  lemma {:induction false} LineCount(d: seq<byte>, s: nat)
    requires s <= |d|
    ensures |LinesFrom(d, s)| == Newlines(d, s) + if s < |d| && d[|d| - 1] != NEWLINE then 1 else 0
    decreases |d| - s
  {
    if s < |d| {
      NewlinesInLine(d, s);
      LineCount(d, LineEnd(d, s));
    }
  }

  method CountNewlines(d: seq<byte>) returns (n: nat)
    ensures n == Newlines(d, 0)
  {
    n := 0;
    var i := |d|;
    while i > 0
      invariant 0 <= i <= |d| && n == Newlines(d, i)
    {
      i := i - 1;
      if d[i] == NEWLINE {
        n := n + 1;
      }
    }
  }

  /** Builds the table in one pass, unless there are too many lines. */
  method IndexPhysicalLines(d: seq<byte>, maximum: nat) returns (lines: seq<PhysicalLine>, ok: bool)
    ensures ok <==> |LinesFrom(d, 0)| <= maximum
    ensures ok ==> lines == LinesFrom(d, 0)
  {
    var lineCount := CountNewlines(d);
    if |d| > 0 && d[|d| - 1] != NEWLINE {
      lineCount := lineCount + 1;
    }
    LineCount(d, 0);
    if lineCount > maximum {
      return [], false;
    }
    lines := BuildLines(d);
    ok := true;
  }

  method BuildLines(d: seq<byte>) returns (lines: seq<PhysicalLine>)
    ensures lines == LinesFrom(d, 0)
  {
    hide LinesFrom, LineEnd;
    lines := [];
    var start := 0;
    assert [] + LinesFrom(d, 0) == LinesFrom(d, 0);
    for i := 0 to |d|
      invariant 0 <= start <= i && (forall k :: start <= k < i ==> d[k] != NEWLINE)
      invariant lines + LinesFrom(d, start) == LinesFrom(d, 0)
    {
      if d[i] == NEWLINE {
        FoundLine(d, start, i);
        var contentEnd := i;
        if contentEnd > start && d[contentEnd - 1] == RETURN {
          contentEnd := contentEnd - 1;
        }
        Regroup(lines, PhysicalLine(start, contentEnd, i + 1), LinesFrom(d, i + 1));
        lines := lines + [PhysicalLine(start, contentEnd, i + 1)];
        start := i + 1;
      }
    }
    LastLine(d, start);
    if start < |d| {
      lines := lines + [PhysicalLine(start, |d|, |d|)];
    }
  }

  lemma Regroup(lines: seq<PhysicalLine>, line: PhysicalLine, rest: seq<PhysicalLine>)
    ensures lines + ([line] + rest) == lines + [line] + rest
  {
  }

  lemma FoundLine(d: seq<byte>, s: nat, i: nat)
    requires s <= i < |d| && d[i] == NEWLINE && forall k :: s <= k < i ==> d[k] != NEWLINE
    ensures LinesFrom(d, s) == [PhysicalLine(s, if i > s && d[i - 1] == RETURN then i - 1 else i, i + 1)] + LinesFrom(d, i + 1)
  {
    LineEndsAt(d, s, i);
  }

  lemma LastLine(d: seq<byte>, s: nat)
    requires s <= |d| && forall k :: s <= k < |d| ==> d[k] != NEWLINE
    ensures LinesFrom(d, s) == if s < |d| then [PhysicalLine(s, |d|, |d|)] else []
  {
    NoNewlineLeft(d, s);
    assert LinesFrom(d, |d|) == [];
  }

  lemma {:induction false} LineEndsAt(d: seq<byte>, s: nat, i: nat)
    requires s <= i < |d| && d[i] == NEWLINE && forall k :: s <= k < i ==> d[k] != NEWLINE
    ensures LineEnd(d, s) == i + 1
    decreases i - s
  {
    if s < i {
      LineEndsAt(d, s + 1, i);
    }
  }

  lemma {:induction false} NoNewlineLeft(d: seq<byte>, s: nat)
    requires s <= |d| && forall k :: s <= k < |d| ==> d[k] != NEWLINE
    ensures LineEnd(d, s) == |d|
    decreases |d| - s
  {
    if s < |d| {
      NoNewlineLeft(d, s + 1);
    }
  }

  // ---- finding a line ---------------------------------------------------------------------------

  lemma {:induction false} EndsIncrease(d: seq<byte>, lines: seq<PhysicalLine>, i: nat, j: nat)
    requires lines == LinesFrom(d, 0) && i < j < |lines|
    ensures lines[i].end <= lines[j].start < lines[j].end
    decreases j - i
  {
    LinesPartition(d, 0);
    if i < j - 1 {
      EndsIncrease(d, lines, i, j - 1);
    }
  }

  /** The first line that ends behind the offset, by halving. */
  method Search(d: seq<byte>, lines: seq<PhysicalLine>, offset: int) returns (i: nat)
    requires lines == LinesFrom(d, 0)
    ensures i <= |lines| && (i < |lines| ==> lines[i].end > offset) && forall j :: 0 <= j < i ==> lines[j].end <= offset
  {
    var low, high := 0, |lines|;
    while low < high
      invariant 0 <= low <= high <= |lines|
      invariant forall j :: 0 <= j < low ==> lines[j].end <= offset
      invariant high < |lines| ==> lines[high].end > offset
    {
      var middle := (low + high) / 2;
      if lines[middle].end > offset {
        high := middle;
      } else {
        forall j | 0 <= j < middle ensures lines[j].end <= offset {
          EndsIncrease(d, lines, j, middle);
        }
        low := middle + 1;
      }
    }
    i := low;
  }

  /** The index of the line an offset is in; offsets outside the source go to the nearest line, and no line is -1. */
  method LineIndexAt(d: seq<byte>, lines: seq<PhysicalLine>, offset: int) returns (i: int)
    requires lines == LinesFrom(d, 0)
    ensures lines == [] ==> i == -1
    ensures lines != [] ==> 0 <= i < |lines|
    ensures lines != [] && 0 <= offset < |d| ==> lines[i].start <= offset < lines[i].end
    ensures lines != [] && offset < 0 ==> i == 0
    ensures lines != [] && offset >= |d| ==> i == |lines| - 1
  {
    LinesPartition(d, 0);
    if |lines| == 0 {
      return -1;
    }
    if offset < 0 {
      return 0;
    }
    if offset >= |d| {
      return |lines| - 1;
    }
    i := Search(d, lines, offset);
    if i == |lines| {
      return |lines| - 1;
    }
    assert i > 0 ==> lines[i - 1].end <= offset;
  }

  /** Only one line holds an offset. */
  lemma LineIsUnique(d: seq<byte>, lines: seq<PhysicalLine>, offset: int, i: nat, j: nat)
    requires lines == LinesFrom(d, 0) && i < |lines| && j < |lines|
    requires lines[i].start <= offset < lines[i].end && lines[j].start <= offset < lines[j].end
    ensures i == j
  {
    if i < j {
      EndsIncrease(d, lines, i, j);
    } else if j < i {
      EndsIncrease(d, lines, j, i);
    }
  }

  /** The one-based lines a selection touches: those of its first and of its last byte. */
  method SelectionLines(d: seq<byte>, lines: seq<PhysicalLine>, start: int, end: int) returns (first: int, last: int)
    requires lines == LinesFrom(d, 0)
    ensures lines == [] ==> first == 1 && last == 0
    ensures lines != [] && 0 <= start < end <= |d| ==>
              && 1 <= first <= last <= |lines|
              && lines[first - 1].start <= start < lines[first - 1].end && lines[last - 1].start < end <= lines[last - 1].end
    ensures lines != [] && end <= start ==>
              && first == last && 1 <= first <= |lines| && (start < 0 ==> first == 1) && (start >= |d| ==> first == |lines|)
              && (0 <= start < |d| ==> lines[first - 1].start <= start < lines[first - 1].end)
  {
    if |lines| == 0 {
      return 1, 0;
    }
    first := LineIndexAt(d, lines, start);
    first := first + 1;
    if end <= start {
      return first, first;
    }
    last := LineIndexAt(d, lines, end - 1);
    last := last + 1;
    if 0 <= start && end <= |d| && last < first {
      EndsIncrease(d, lines, last - 1, first - 1);
    }
  }

  // ---- the line reader --------------------------------------------------------------------------

  const MAX_LINE_BYTES := 1024 * 1024
  const HEAP_LINE_BYTES := 64 * 1024
  const READ_BYTES := 32 * 1024
  const FAST_FILE_BYTES := 256 * 1024

  datatype ReadLine =
    | Line(number: nat, range: PhysicalLine, text: seq<byte>, large: bool)
    | EndOfFile
    | LineBudget
    | LineTooLarge
    | SourceChanged
    | Oversized(number: nat, start: nat, head: seq<byte>, terminated: bool)

  /** What asking for the line that starts at s must give when bytes before `budget` may be read. */
  function Expected(d: seq<byte>, s: nat, number: nat, budget: nat, literal: bool): ReadLine
    requires s <= |d|
  {
    if s == |d| then EndOfFile
    else
      var line := LineAt(d, s);
      var size := line.end - s;
      if size > MAX_LINE_BYTES then
        if s + MAX_LINE_BYTES + 1 > budget then LineBudget
        else if literal then Oversized(number, s, d[s..s + MAX_LINE_BYTES + 1], size == MAX_LINE_BYTES + 1 && d[line.end - 1] == NEWLINE)
        else LineTooLarge
      else if line.end > budget then LineBudget
      else Line(number, line, d[s..line.contentEnd], size > HEAP_LINE_BYTES)
  }

  class GrepLineReader {
    const data: seq<byte>
    const literal: bool
    const script: nat -> nat
    var clock: nat
    var offset: nat
    var line: nat
    var remaining: nat
    var pending: seq<byte>
    var newBytes: nat
    ghost var budget: nat

    /** Unread bytes are the ones behind the offset; what may still be read ends at the budget. */
    ghost predicate Valid()
      reads this
    {
      && offset + |pending| <= |data| && pending == data[offset..offset + |pending|] && |pending| <= FAST_FILE_BYTES
      && budget == offset + |pending| + remaining
    }

    constructor (data: seq<byte>, offset: nat, line: nat, remaining: nat, literal: bool, script: nat -> nat)
      requires offset <= |data|
      ensures Valid() && this.data == data && this.offset == offset && this.line == line && this.literal == literal && budget == offset + remaining && newBytes == 0
    {
      this.data, this.literal, this.script, this.offset, this.line, this.remaining := data, literal, script, offset, line, remaining;
      pending, newBytes, clock, budget := [], 0, 0, offset + remaining;
    }

    /** A reader that has been handed the whole of a small file. */
    constructor Buffered(data: seq<byte>, line: nat, remaining: nat, literal: bool, script: nat -> nat)
      requires |data| <= remaining && |data| <= FAST_FILE_BYTES
      ensures Valid() && this.data == data && offset == 0 && this.line == line && this.literal == literal && budget == remaining && newBytes == |data|
    {
      this.data, this.literal, this.script, this.line, this.remaining := data, literal, script, line, remaining - |data|;
      pending, newBytes, clock, budget, offset := data, |data|, 0, remaining, 0;
    }

    /** One read: any number of the bytes asked for, but some. */
    method Read(size: nat)
      requires Valid() && pending == [] && 0 < size <= READ_BYTES && size <= remaining && offset + size <= |data|
      modifies this`clock, this`pending, this`remaining, this`newBytes
      ensures Valid() && 0 < |pending| <= size && newBytes == old(newBytes) + |pending|
    {
      var n := script(clock);
      if n > size || n == 0 {
        n := size;
      }
      clock := clock + 1;
      pending, remaining, newBytes := data[offset..offset + n], remaining - n, newBytes + n;
    }

    /** Moves pending bytes to the line being put together, up to its newline if there is one. */
    method Gather(held: seq<byte>, start: nat) returns (more: seq<byte>, found: bool)
      requires Valid() && pending != [] && start <= offset && held == data[start..offset] && Clean(data, start, offset)
      modifies this`offset, this`pending
      ensures Valid() && offset > old(offset) && remaining == old(remaining) && offset + |pending| == old(offset + |pending|) && more == data[start..offset]
      ensures if found then data[offset - 1] == NEWLINE && Clean(data, start, offset - 1) else pending == [] && Clean(data, start, offset)
    {
      var newline := IndexByte(pending);
      var n := if newline.Some? then newline.value + 1 else |pending|;
      ghost var before, unread := offset, pending;
      var fragment := Take(n);
      Joined(data, start, before, offset);
      more, found := held + fragment, newline.Some?;
      assert forall k :: before <= k < offset ==> data[k] == unread[k - before];
    }

    /** The next line, whatever sizes reads return. */
    method Next() returns (r: ReadLine)
      requires Valid()
      modifies this
      ensures Valid() && budget == old(budget) && offset >= old(offset)
      ensures r == Expected(data, old(offset), old(line), budget, literal)
      ensures r.Line? ==> offset == r.range.end && line == old(line) + 1
      ensures r.Oversized? ==> r.head != [] && r.terminated == (r.head[|r.head| - 1] == NEWLINE) && offset == r.start + |r.head| && line == old(line)
                               && r.head == data[r.start..offset] && Clean(data, r.start, offset - 1)
    {
      hide LineEnd, Expected, Clean, ContentEnd;
      var start, number := offset, line;
      var held: seq<byte> := [];
      assert data[start..start] == [];
      NothingHeld(data, start);
      while true
        invariant Valid() && budget == old(budget) && start == old(offset) && line == number == old(line) && start <= offset
        invariant held == data[start..offset] && Clean(data, start, offset) && |held| <= MAX_LINE_BYTES && |held| + |pending| <= MAX_LINE_BYTES + 1
        decreases |data| - offset, if pending == [] then 1 else 0
      {
        if |pending| > 0 {
          // A read never asks for more than the one byte that shows a line to be too long, so no line is cut here.
          var found;
          held, found := Gather(held, start);
          if |held| > MAX_LINE_BYTES {
            TooLong(data, start, offset, number, budget, literal, found);
            return if literal then Oversized(number, start, held, found) else LineTooLarge;
          }
          if found {
            line := line + 1;
            r := Ended(data, held, start, offset, number, budget, literal);
            return;
          }
        }
        if offset >= |data| {
          if |held| == 0 {
            assert Expected(data, start, number, budget, literal) == EndOfFile by {
              NothingLeft(data, start, number, budget, literal);
            }
            return EndOfFile;
          }
          UnterminatedLine(data, start, number, budget, literal);
          line := line + 1;
          return Line(number, PhysicalLine(start, offset, offset), held, |held| > HEAP_LINE_BYTES);
        }
        if remaining == 0 {
          OutOfBudget(data, start, offset, number, literal);
          return LineBudget;
        }
        Read(Smallest(READ_BYTES, remaining, |data| - offset, MAX_LINE_BYTES + 1 - |held|));
      }
    }

    /** Moves bytes from the pending ones to the line being put together. */
    method Take(n: nat) returns (fragment: seq<byte>)
      requires Valid() && n <= |pending|
      modifies this`offset, this`pending
      ensures Valid() && offset == old(offset) + n && |pending| == old(|pending|) - n && pending == old(pending)[n..]
      ensures fragment == data[old(offset)..offset] && remaining == old(remaining)
    {
      fragment := pending[..n];
      pending, offset := pending[n..], offset + n;
    }
  }

  lemma PartOf(d: seq<byte>, a: nat, b: nat, n: nat)
    requires a + n <= b <= |d|
    ensures d[a..b][..n] == d[a..a + n]
  {
  }

  /** A line with its newline: without it, and without a carriage return before it. */
  method Ended(ghost d: seq<byte>, held: seq<byte>, start: nat, end: nat, number: nat, ghost budget: nat, ghost literal: bool) returns (r: ReadLine)
    requires start < end <= |d| && end <= budget && held == d[start..end] && |held| <= MAX_LINE_BYTES && Clean(d, start, end - 1) && d[end - 1] == NEWLINE
    ensures r == Expected(d, start, number, budget, literal) && r.Line? && r.range.end == end
  {
    var text := held[..|held| - 1];
    if |text| > 0 && text[|text| - 1] == RETURN {
      text := text[..|text| - 1];
    }
    TerminatedLine(d, start, end, number, budget, literal);
    assert text == held[..|text|];
    PartOf(d, start, end, |text|);
    r := Line(number, PhysicalLine(start, start + |text|, end), text, |held| > HEAP_LINE_BYTES);
  }

  ghost predicate Clean(d: seq<byte>, a: nat, b: nat) {
    b <= |d| && forall k :: a <= k < b ==> d[k] != NEWLINE
  }

  lemma NothingHeld(d: seq<byte>, s: nat)
    requires s <= |d|
    ensures Clean(d, s, s)
  {
  }

  /** A line without a newline so far goes on. */
  lemma {:induction false} LineGoesOn(d: seq<byte>, s: nat, o: nat)
    requires s <= o <= |d| && Clean(d, s, o)
    ensures LineEnd(d, s) == LineEnd(d, o)
    decreases o - s
  {
    if s < o {
      LineGoesOn(d, s + 1, o);
    }
  }

  lemma TooLong(d: seq<byte>, s: nat, o: nat, number: nat, budget: nat, literal: bool, found: bool)
    requires o == s + MAX_LINE_BYTES + 1 <= |d| && o <= budget && Clean(d, s, if found then o - 1 else o) && (found ==> d[o - 1] == NEWLINE)
    ensures Expected(d, s, number, budget, literal) == if literal then Oversized(number, s, d[s..o], found) else LineTooLarge
    ensures Clean(d, s, o - 1) && found == (d[o - 1] == NEWLINE)
  {
    LineGoesOn(d, s, if found then o - 1 else o);
  }

  lemma TerminatedLine(d: seq<byte>, s: nat, o: nat, number: nat, budget: nat, literal: bool)
    requires s < o <= |d| && o <= budget && o - s <= MAX_LINE_BYTES && Clean(d, s, o - 1) && d[o - 1] == NEWLINE
    ensures var c := if o - 1 > s && d[o - 2] == RETURN then o - 2 else o - 1;
            Expected(d, s, number, budget, literal) == Line(number, PhysicalLine(s, c, o), d[s..c], o - s > HEAP_LINE_BYTES)
  {
    LineEndsAt(d, s, o - 1);
  }

  lemma UnterminatedLine(d: seq<byte>, s: nat, number: nat, budget: nat, literal: bool)
    requires s < |d| <= budget && |d| - s <= MAX_LINE_BYTES && Clean(d, s, |d|)
    ensures Expected(d, s, number, budget, literal) == Line(number, PhysicalLine(s, |d|, |d|), d[s..|d|], |d| - s > HEAP_LINE_BYTES)
  {
    NoNewlineLeft(d, s);
  }

  lemma NothingLeft(d: seq<byte>, s: nat, number: nat, budget: nat, literal: bool)
    requires s == |d|
    ensures Expected(d, s, number, budget, literal) == EndOfFile
  {
  }

  lemma OutOfBudget(d: seq<byte>, s: nat, o: nat, number: nat, literal: bool)
    requires s <= o < |d| && o - s <= MAX_LINE_BYTES && Clean(d, s, o)
    ensures Expected(d, s, number, o, literal) == LineBudget
  {
    LineGoesOn(d, s, o);
  }

  /** The first newline of a fragment. */
  method IndexByte(fragment: seq<byte>) returns (i: Option<nat>)
    ensures i.None? ==> NEWLINE !in fragment
    ensures i.Some? ==> i.value < |fragment| && fragment[i.value] == NEWLINE && forall k :: 0 <= k < i.value ==> fragment[k] != NEWLINE
  {
    for k := 0 to |fragment|
      invariant forall j :: 0 <= j < k ==> fragment[j] != NEWLINE
    {
      if fragment[k] == NEWLINE {
        return Some(k);
      }
    }
    i := None;
  }

  function Smallest(a: nat, b: nat, c: nat, d: nat): (m: nat)
    ensures m <= a && m <= b && m <= c && m <= d && (m == a || m == b || m == c || m == d)
  {
    var x := if a < b then a else b;
    var y := if c < d then c else d;
    if x < y then x else y
  }

  lemma Joined(d: seq<byte>, a: nat, b: nat, c: nat)
    requires a <= b <= c <= |d|
    ensures d[a..b] + d[b..c] == d[a..c]
  {
  }

  lemma {:induction false} TableHoldsLines(d: seq<byte>, s: nat, i: nat)
    requires s <= |d| && i < |LinesFrom(d, s)|
    ensures LinesFrom(d, s)[i].start < |d| && LinesFrom(d, s)[i] == LineAt(d, LinesFrom(d, s)[i].start)
    decreases i
  {
    if i > 0 {
      TableHoldsLines(d, LineEnd(d, s), i - 1);
    }
  }

  /**
   * Reading from where line i starts, with budget for the rest of the file, gives the table's line i with its text
   * and number, and leaves the reader where line i + 1 starts.
   */
  lemma ReaderAgreesWithTable(d: seq<byte>, i: nat, budget: nat, literal: bool)
    requires i < |LinesFrom(d, 0)| && budget >= |d| && LinesFrom(d, 0)[i].end - LinesFrom(d, 0)[i].start <= MAX_LINE_BYTES
    ensures var line := LinesFrom(d, 0)[i];
            && line.contentEnd <= |d| && line.start <= line.contentEnd
            && Expected(d, line.start, i + 1, budget, literal)
               == Line(i + 1, line, d[line.start..line.contentEnd], line.end - line.start > HEAP_LINE_BYTES)
            && line.end == if i + 1 < |LinesFrom(d, 0)| then LinesFrom(d, 0)[i + 1].start else |d|
  {
    LinesPartition(d, 0);
    TableHoldsLines(d, 0, i);
    hide LinesFrom, LineEnd;
  }
}
