/**
 * From bytes to lines: a Markdown file read line by line, long lines by the streaming scanner, is exactly the list of
 * lines that a scan of it is modelled on, for a case-sensitive literal.
 */
module GrepFile {
  import opened Ordering
  import opened Bytes
  import opened ByteSearch
  import opened LineEvidence
  import U = Utf8
  import P = PhysicalLines
  import O = OversizedScan
  import G = GrepScan
  import GrepPage
  import GrepContext
  import GrepPaging
  import GrepMatches

  /** How a line's evidence is shown in a response. */
  type Display = Evidence -> string

  predicate Literal(pattern: seq<byte>) {
    pattern != [] && U.Valid(pattern) && |pattern| <= MAX_PATTERN_BYTES
  }

  /** What the whole text of a line says: nothing if it is not UTF-8. */
  function Judged(pattern: seq<byte>, text: seq<byte>): Option<Evidence>
    requires pattern != []
  {
    if U.Valid(text) then Some(EvidenceOf(pattern, text)) else None
  }

  function LineOf(size: nat, show: Display, judged: Option<Evidence>): G.Line {
    match judged
    case None => G.Line(size, "", 0, false)
    case Some(evidence) => G.Line(size, show(evidence), evidence.occurrences, true)
  }

  function Text(d: seq<byte>, l: P.PhysicalLine): seq<byte>
    requires l.start <= l.contentEnd <= |d|
  {
    d[l.start..l.contentEnd]
  }

  /** The lines of a file from byte s on. */
  function LinesFrom(d: seq<byte>, pattern: seq<byte>, show: Display, s: nat): seq<G.Line>
    requires s <= |d| && pattern != []
    decreases |d| - s
  {
    if s == |d| then []
    else
      var l := P.LineAt(d, s);
      [LineOf(l.end - s, show, Judged(pattern, Text(d, l)))] + LinesFrom(d, pattern, show, l.end)
  }

  function FileLines(d: seq<byte>, pattern: seq<byte>, show: Display): seq<G.Line>
    requires pattern != []
  {
    LinesFrom(d, pattern, show, 0)
  }

  /** Line i of the list is line i of the table: same start, same size, and what its text says. */
  lemma {:induction false} LinesAreTable(d: seq<byte>, pattern: seq<byte>, show: Display, s: nat, i: nat)
    requires s <= |d| && pattern != []
    ensures var ls, table := LinesFrom(d, pattern, show, s), P.LinesFrom(d, s);
            && |ls| == |table| && (i <= |ls| ==> s + G.Start(ls, i) == (if i < |ls| then table[i].start else |d|))
            && (i < |ls| ==> table[i].start < |d| && table[i] == P.LineAt(d, table[i].start)
                             && ls[i] == LineOf(table[i].end - table[i].start, show, Judged(pattern, Text(d, table[i]))))
    decreases |d| - s
  {
    hide EvidenceOf, U.Valid, Judged, P.LineEnd, P.ContentEnd;
    var ls, table := LinesFrom(d, pattern, show, s), P.LinesFrom(d, s);
    if s < |d| {
      var l := P.LineAt(d, s);
      var rest := LinesFrom(d, pattern, show, l.end);
      assert ls == [LineOf(l.end - s, show, Judged(pattern, Text(d, l)))] + rest;
      LinesAreTable(d, pattern, show, l.end, if i > 0 then i - 1 else 0);
      if 0 < i <= |ls| {
        StartBehindFirst(ls[0], rest, i - 1);
      }
    }
  }

  lemma {:induction false} StartBehindFirst(first: G.Line, rest: seq<G.Line>, i: nat)
    requires i <= |rest|
    ensures G.Start([first] + rest, i + 1) == first.size + G.Start(rest, i)
  {
    if i > 0 {
      StartBehindFirst(first, rest, i - 1);
    } else {
      assert G.Start([first] + rest, 0) == 0;
    }
  }

  /** The lines add up to the file, and none is without bytes: a file has no lines if and only if it is empty. */
  lemma LinesMakeTheFile(d: seq<byte>, pattern: seq<byte>, show: Display)
    requires pattern != []
    ensures var ls := FileLines(d, pattern, show);
            G.Solid(ls) && G.Start(ls, |ls|) == |d| && (ls == [] <==> d == [])
  {
    var ls := FileLines(d, pattern, show);
    LinesAreTable(d, pattern, show, 0, |ls|);
    P.LinesPartition(d, 0);
    hide LinesFrom, P.LinesFrom, P.LineEnd, P.ContentEnd, Judged;
    forall i | 0 <= i < |ls| ensures ls[i].size >= 1 {
      LinesAreTable(d, pattern, show, 0, i);
    }
  }

  // ---- a line too long to hold ------------------------------------------------------------------

  lemma TextOfTerminated(d: seq<byte>, s: nat, e: nat)
    requires s < e <= |d| && d[e - 1] == P.NEWLINE && P.Clean(d, s, e - 1)
    ensures P.LineEnd(d, s) == e && O.LineText(d[s..e - 1], true) == Text(d, P.LineAt(d, s))
  {
    P.LineEndsAt(d, s, e - 1);
  }

  lemma TextOfLast(d: seq<byte>, s: nat)
    requires s < |d| && P.Clean(d, s, |d|)
    ensures P.LineEnd(d, s) == |d| && O.LineText(d[s..], false) == Text(d, P.LineAt(d, s))
  {
    P.NoNewlineLeft(d, s);
  }

  lemma GoesOn(d: seq<byte>, s: nat, o: nat)
    requires s <= o < |d| && P.Clean(d, s, o)
    ensures P.LineEnd(d, s) > o
  {
    P.LineGoesOn(d, s, o);
  }

  lemma CleanOn(d: seq<byte>, a: nat, b: nat, c: nat)
    requires P.Clean(d, a, b) && a <= b <= c <= |d| && P.NEWLINE !in d[b..c]
    ensures P.Clean(d, a, c) && d[a..b] + d[b..c] == d[a..c]
  {
    forall k | b <= k < c ensures d[k] != P.NEWLINE {
      assert d[k] == d[b..c][k - b] && d[b..c][k - b] in d[b..c];
    }
  }

  /** Scans what has been read of a long line, up to its newline. */
  method Feed(reader: P.GrepLineReader, scanner: O.OversizedLiteralScanner, ghost start: nat) returns (ended: bool)
    requires reader.Valid() && reader.pending != [] && start <= reader.offset && P.Clean(reader.data, start, reader.offset)
    requires scanner.Valid() && scanner.raw == reader.data[start..reader.offset]
    modifies reader`offset, reader`pending, scanner
    ensures reader.Valid() && reader.offset > old(reader.offset) && scanner.Valid()
    ensures if ended then reader.data[reader.offset - 1] == P.NEWLINE && P.Clean(reader.data, start, reader.offset - 1) && scanner.raw == reader.data[start..reader.offset - 1]
            else reader.pending == [] && P.Clean(reader.data, start, reader.offset) && scanner.raw == reader.data[start..reader.offset]
  {
    hide P.Clean, O.OversizedLiteralScanner.Valid, U.Valid;
    ghost var d, before, unread := reader.data, reader.offset, reader.pending;
    var newline := P.IndexByte(reader.pending);
    ended := newline.Some?;
    var n := if ended then newline.value else |reader.pending|;
    scanner.WriteRaw(reader.pending[..n]);
    var taken := reader.Take(if ended then n + 1 else n);
    assert unread[..n] == d[before..before + n];
    assert P.NEWLINE !in unread[..n];
    CleanOn(d, start, before, before + n);
    if ended {
      assert d[reader.offset - 1] == unread[n];
    }
  }

  /** What the scanner has seen of the line at start: up to its newline, or all that has been read. */
  ghost predicate Seen(d: seq<byte>, start: nat, offset: nat, ended: bool, raw: seq<byte>) {
    && start < offset <= |d|
    && if ended then d[offset - 1] == P.NEWLINE && P.Clean(d, start, offset - 1) && raw == d[start..offset - 1]
       else P.Clean(d, start, offset) && raw == d[start..offset]
  }

  /** The rest of a long line is read in pieces and scanned as it comes, until its end or the end of the budget. */
  method ReadOn(reader: P.GrepLineReader, scanner: O.OversizedLiteralScanner, ghost start: nat, terminated: bool) returns (done: bool, ended: bool)
    requires reader.Valid() && scanner.Valid() && Seen(reader.data, start, reader.offset, terminated, scanner.raw)
    modifies reader`offset, reader`pending, reader`clock, reader`remaining, reader`newBytes, scanner
    ensures reader.Valid() && scanner.Valid() && Seen(reader.data, start, reader.offset, ended, scanner.raw)
    ensures if done then ended || reader.offset == |reader.data| else !ended && reader.offset == reader.budget < |reader.data|
  {
    hide P.Clean, O.OversizedLiteralScanner.Valid;
    ended := terminated;
    while !ended && (reader.pending != [] || reader.offset < |reader.data|)
      invariant reader.Valid() && scanner.Valid() && Seen(reader.data, start, reader.offset, ended, scanner.raw)
      decreases |reader.data| - reader.offset, if reader.pending == [] then 1 else 0
    {
      if |reader.pending| > 0 {
        ended := Feed(reader, scanner, start);
      } else if reader.remaining == 0 {
        return false, false;
      } else {
        reader.Read(P.Smallest(P.READ_BYTES, reader.remaining, |reader.data| - reader.offset, P.READ_BYTES));
      }
    }
    done := true;
  }

  /** A long line is judged by its whole text, of which only the beginning was held, unless the budget ends inside it. */
  method FinishOversizedLiteral(reader: P.GrepLineReader, pattern: seq<byte>, start: nat, held: seq<byte>, terminated: bool)
    returns (done: bool, evidence: Option<Evidence>)
    requires reader.Valid() && Literal(pattern) && start < reader.offset && held == reader.data[start..reader.offset]
    requires P.Clean(reader.data, start, reader.offset - 1) && terminated == (reader.data[reader.offset - 1] == P.NEWLINE)
    modifies reader
    ensures reader.Valid() && reader.budget == old(reader.budget)
    ensures done <==> P.LineEnd(reader.data, start) <= reader.budget
    ensures done ==> evidence == Judged(pattern, Text(reader.data, P.LineAt(reader.data, start)))
                     && reader.offset == P.LineEnd(reader.data, start) && reader.line == old(reader.line) + 1
  {
    hide P.LineEnd, P.Clean, P.ContentEnd, P.LineAt, U.Valid, EvidenceOf, Judged, Text, O.LineText, O.OversizedLiteralScanner.Valid, Seen, Literal;
    var scanner := Begin(reader.data, pattern, start, reader.offset, held, terminated);
    var ended;
    done, ended := ReadOn(reader, scanner, start, terminated);
    SeenSoFar(reader.data, start, reader.offset, ended, scanner.raw, done);
    if done {
      reader.line := reader.line + 1;
      evidence := Conclude(scanner, ended);
    } else {
      evidence := None;
    }
  }

  /** A scanner that has seen what was held of the line. */
  method Begin(ghost d: seq<byte>, pattern: seq<byte>, ghost start: nat, ghost offset: nat, held: seq<byte>, terminated: bool) returns (scanner: O.OversizedLiteralScanner)
    requires Literal(pattern) && start < offset <= |d| && held == d[start..offset]
    requires P.Clean(d, start, offset - 1) && terminated == (d[offset - 1] == P.NEWLINE)
    ensures fresh(scanner) && scanner.Valid() && scanner.pattern == pattern && Seen(d, start, offset, terminated, scanner.raw)
  {
    hide P.Clean, O.OversizedLiteralScanner.Valid, U.Valid;
    scanner := new O.OversizedLiteralScanner(pattern);
    var initial := if terminated then held[..|held| - 1] else held;
    scanner.WriteRaw(initial);
    assert scanner.raw == initial == d[start..if terminated then offset - 1 else offset];
    if !terminated {
      assert d[offset - 1..offset] == [d[offset - 1]];
      CleanOn(d, start, offset - 1, offset);
    }
  }

  /** A line seen to its end has been scanned whole; one not seen to its end goes on behind what has been read. */
  lemma SeenSoFar(d: seq<byte>, start: nat, offset: nat, ended: bool, raw: seq<byte>, done: bool)
    requires Seen(d, start, offset, ended, raw) && (if done then ended || offset == |d| else !ended && offset < |d|)
    ensures start < |d|
    ensures if done then P.LineEnd(d, start) == offset && O.LineText(raw, ended) == Text(d, P.LineAt(d, start)) else P.LineEnd(d, start) > offset
  {
    hide P.LineEnd, P.Clean, P.ContentEnd;
    if !done {
      GoesOn(d, start, offset);
    } else if ended {
      TextOfTerminated(d, start, offset);
    } else {
      TextOfLast(d, start);
      assert d[start..] == d[start..offset];
    }
  }

  /** The scanner has seen the whole line. */
  method Conclude(scanner: O.OversizedLiteralScanner, newline: bool) returns (evidence: Option<Evidence>)
    requires scanner.Valid()
    modifies scanner
    ensures evidence == Judged(scanner.pattern, O.LineText(old(scanner.raw), newline))
  {
    hide U.Valid, EvidenceOf;
    scanner.Finish(newline);
    evidence := scanner.Line();
  }

  // ---- one line ---------------------------------------------------------------------------------

  datatype Read = End | OutOfBudget | Taken(line: G.GrepLine)

  function Shown(number: nat, start: nat, end: nat, show: Display, judged: Option<Evidence>, large: bool): G.GrepLine
    requires start <= end
  {
    var line := LineOf(end - start, show, judged);
    G.GrepLine(number, start, end, line.text, large, line.utf8, line.hits)
  }

  /** What the reader must give for the line at byte s, in the terms of a scan. */
  lemma ReadsAgree(d: seq<byte>, pattern: seq<byte>, show: Display, q: G.Query, i: nat, budget: nat)
    requires Literal(pattern) && !q.regex && i <= |FileLines(d, pattern, show)|
    ensures var ls := FileLines(d, pattern, show);
            var s := G.Start(ls, i);
            && s <= |d|
            && (i == |ls| <==> s == |d|)
            && (i < |ls| ==> var l := P.LineAt(d, s);
                             && G.Start(ls, i + 1) == l.end
                             && G.LineAt(ls, i) == Shown(i + 1, s, l.end, show, Judged(pattern, Text(d, l)), l.end - s > G.HEAP_LINE_BYTES)
                             && G.ReadLine(q, ls, i, budget) == (if l.end <= budget then G.GotLine else G.LineBudget))
            && (i == |ls| ==> G.ReadLine(q, ls, i, budget) == G.Eof)
  {
    hide P.LineEnd, U.Valid, EvidenceOf, P.ContentEnd, Judged, FileLines, Text;
    LineIsThere(d, pattern, show, i);
  }

  lemma LineIsThere(d: seq<byte>, pattern: seq<byte>, show: Display, i: nat)
    requires pattern != [] && i <= |FileLines(d, pattern, show)|
    ensures var ls := FileLines(d, pattern, show);
            var s := G.Start(ls, i);
            && s <= |d| && (i == |ls| <==> s == |d|)
            && (i < |ls| ==> var l := P.LineAt(d, s); ls[i] == LineOf(l.end - s, show, Judged(pattern, Text(d, l))))
  {
    hide P.LineEnd, U.Valid, EvidenceOf, P.ContentEnd, Judged, LinesFrom, P.LinesFrom, G.Start, LineOf, Text, P.LineAt;
    LinesAreTable(d, pattern, show, 0, i);
  }

  lemma ReaderTells(d: seq<byte>, s: nat, number: nat, budget: nat)
    requires s <= |d|
    ensures var r := P.Expected(d, s, number, budget, true);
            match r
            case EndOfFile => s == |d|
            case LineBudget => s < |d| && P.LineEnd(d, s) > budget
            case Line(n, range, text, large) =>
              s < |d| && n == number && range == P.LineAt(d, s) && text == Text(d, range) && large == (range.end - s > G.HEAP_LINE_BYTES) && range.end <= budget
            case Oversized(n, start, head, terminated) => s < |d| && n == number && start == s && P.LineEnd(d, s) - s > G.HEAP_LINE_BYTES
            case _ => false
  {
    hide P.LineEnd, P.ContentEnd;
  }

  /**
   * Asking for the next line, whatever sizes reads return, gives what the model of a scan says of line i: the end, the
   * end of the budget, or the line with its offsets, text, validity and occurrences.
   */
  method NextLine(reader: P.GrepLineReader, pattern: seq<byte>, show: Display, q: G.Query, ghost i: nat) returns (r: Read)
    requires reader.Valid() && Literal(pattern) && reader.literal && !q.regex
    requires var ls := FileLines(reader.data, pattern, show); i <= |ls| && reader.offset == G.Start(ls, i) && reader.line == i + 1
    modifies reader
    ensures reader.Valid() && reader.budget == old(reader.budget)
    ensures var ls := FileLines(reader.data, pattern, show);
            match G.ReadLine(q, ls, i, reader.budget)
            case Eof => r == End
            case GotLine => r == Taken(G.LineAt(ls, i)) && reader.offset == G.Start(ls, i + 1) && reader.line == i + 2
            case _ => r == OutOfBudget
  {
    ghost var d := reader.data;
    ReadsAgree(d, pattern, show, q, i, reader.budget);
    ReaderTells(d, reader.offset, reader.line, reader.budget);
    hide P.LineEnd, P.Clean, P.Expected, U.Valid, EvidenceOf, P.ContentEnd, FileLines, Judged, G.ReadLine, G.Start, G.LineAt, LineOf, Text;
    var next := reader.Next();
    match next {
      case EndOfFile => r := End;
      case Line(number, range, text, large) =>
        var judged := WholeLine(pattern, text);
        r := Taken(Shown(number, range.start, range.end, show, judged, large));
      case Oversized(number, s, head, terminated) =>
        var done, evidence := FinishOversizedLiteral(reader, pattern, s, head, terminated);
        r := if done then Taken(Shown(number, s, reader.offset, show, evidence, true)) else OutOfBudget;
      case _ => r := OutOfBudget;
    }
  }

  /** A short line is judged by its whole text. */
  method WholeLine(pattern: seq<byte>, text: seq<byte>) returns (judged: Option<Evidence>)
    requires pattern != []
    ensures judged == Judged(pattern, text)
  {
    judged := if U.Valid(text) then Some(EvidenceOf(pattern, text)) else None;
  }

  // ---- the search of a whole small file ---------------------------------------------------------

  /** A literal that is nowhere in the file is in none of its parts. */
  lemma NowhereInPart(d: seq<byte>, pattern: seq<byte>, a: nat, b: nat)
    requires Literal(pattern) && a <= b <= |d| && forall j: nat :: !OccursAt(pattern, d, j)
    ensures Matches(pattern, d[a..b], 0) == []
  {
    forall j: nat | OccursAt(pattern, d[a..b], j) ensures false {
      assert d[a..b] + d[b..] == d[a..];
      OccursInPrefix(pattern, d[a..b], d[b..], j);
      OccursInWindow(pattern, d, a, j);
    }
  }

  lemma AsciiFirst(b: byte, d: seq<byte>)
    requires b < 0x80
    ensures U.Valid([b] + d) == U.Valid(d) && U.RuneStart(b)
  {
    assert ([b] + d)[1..] == d;
    assert U.Decode([b] + d) == Some(1);
  }

  lemma EndBytes(d: seq<byte>, s: nat)
    requires s < |d|
    ensures var l := P.LineAt(d, s); l.end <= l.contentEnd + 2 && forall k :: l.contentEnd <= k < l.end ==> d[k] < 0x80
    ensures var l := P.LineAt(d, s); l.contentEnd == l.end ==> l.end == |d|
  {
    hide P.LineEnd;
  }

  /** The one or two bytes that end a line are runes of their own. */
  lemma ValidBehind(d: seq<byte>, c: nat, e: nat)
    requires c <= e <= |d| && e <= c + 2 && (c == e ==> e == |d|) && forall k :: c <= k < e ==> d[k] < 0x80
    ensures U.Valid(d[c..]) == U.Valid(d[e..]) && (c < |d| ==> U.RuneStart(d[c]))
  {
    hide U.Valid, U.RuneStart;
    if c < e {
      assert d[c..] == [d[c]] + d[c + 1..];
      AsciiFirst(d[c], d[c + 1..]);
      if c + 1 < e {
        assert d[c + 1..] == [d[c + 1]] + d[e..];
        AsciiFirst(d[c + 1], d[e..]);
      }
    }
  }

  /** A line's end is no part of any rune: the text before it and the rest behind it are valid by themselves. */
  lemma ValidAroundLine(d: seq<byte>, s: nat)
    requires s < |d|
    ensures var l := P.LineAt(d, s); U.Valid(d[s..]) <==> U.Valid(Text(d, l)) && U.Valid(d[l.end..])
  {
    var l := P.LineAt(d, s);
    var text, rest := Text(d, l), d[l.contentEnd..];
    EndBytes(d, s);
    ValidBehind(d, l.contentEnd, l.end);
    hide U.Valid, P.LineEnd, P.ContentEnd, U.RuneStart;
    assert d[s..] == text + rest;
    if U.Valid(d[s..]) {
      U.CutAtStart(text, rest);
    } else if U.Valid(text) {
      U.ValidConcat(text, rest);
    }
  }

  /** A file is valid UTF-8 if and only if each of its lines is. */
  lemma {:induction false} ValidIffLines(d: seq<byte>, pattern: seq<byte>, show: Display, s: nat)
    requires s <= |d| && pattern != []
    ensures U.Valid(d[s..]) <==> forall i :: 0 <= i < |LinesFrom(d, pattern, show, s)| ==> LinesFrom(d, pattern, show, s)[i].utf8
    decreases |d| - s
  {
    hide EvidenceOf, P.LineEnd, P.ContentEnd, U.Valid, Judged;
    if s == |d| {
      assert d[s..] == [];
      O.NothingIsValid();
    } else {
      var l := P.LineAt(d, s);
      ValidAroundLine(d, s);
      FirstUtf8(d, pattern, show, s);
      ValidIffLines(d, pattern, show, l.end);
      hide LinesFrom, Text;
      AllBehindFirst(LinesFrom(d, pattern, show, s), LinesFrom(d, pattern, show, l.end));
    }
  }

  lemma FirstUtf8(d: seq<byte>, pattern: seq<byte>, show: Display, s: nat)
    requires s < |d| && pattern != []
    ensures var ls, l := LinesFrom(d, pattern, show, s), P.LineAt(d, s);
            ls != [] && ls[0].utf8 == U.Valid(Text(d, l)) && ls == [ls[0]] + LinesFrom(d, pattern, show, l.end)
  {
    hide EvidenceOf, P.LineEnd, P.ContentEnd, U.Valid;
  }

  lemma AllBehindFirst(ls: seq<G.Line>, rest: seq<G.Line>)
    requires ls != [] && ls == [ls[0]] + rest
    ensures (forall i :: 0 <= i < |ls| ==> ls[i].utf8) <==> ls[0].utf8 && forall i :: 0 <= i < |rest| ==> rest[i].utf8
  {
    if ls[0].utf8 && forall i :: 0 <= i < |rest| ==> rest[i].utf8 {
      forall i | 0 <= i < |ls| ensures ls[i].utf8 {
        assert i > 0 ==> ls[i] == rest[i - 1];
      }
    } else if forall i :: 0 <= i < |ls| ==> ls[i].utf8 {
      forall i | 0 <= i < |rest| ensures rest[i].utf8 {
        assert ls[i + 1] == rest[i];
      }
    }
  }

  lemma {:induction false} LinesWithout(d: seq<byte>, pattern: seq<byte>, show: Display, s: nat)
    requires s <= |d| && Literal(pattern) && forall j: nat :: !OccursAt(pattern, d, j)
    ensures forall i :: 0 <= i < |LinesFrom(d, pattern, show, s)| ==> LinesFrom(d, pattern, show, s)[i].hits == 0 && LinesFrom(d, pattern, show, s)[i].size >= 1
    decreases |d| - s
  {
    var ls := LinesFrom(d, pattern, show, s);
    hide U.Valid, P.LineEnd, P.ContentEnd, Matches, OccursAt;
    if s < |d| {
      var l := P.LineAt(d, s);
      NowhereInPart(d, pattern, l.start, l.contentEnd);
      LinesWithout(d, pattern, show, l.end);
      forall i | 0 <= i < |ls| ensures ls[i].hits == 0 && ls[i].size >= 1 {
        assert i > 0 ==> ls[i] == LinesFrom(d, pattern, show, l.end)[i - 1];
      }
    }
  }

  lemma {:induction false} StopsAtBadLine(q: G.Query, f: G.SourceFile, z: nat, i: nat)
    requires G.Solid(f.lines) && !q.regex && i <= z < |f.lines| && !f.lines[z].utf8 && forall j :: 0 <= j < z ==> f.lines[j].utf8
    ensures G.StopLine(q, GrepContext.WholeJob(f), i) == z
    decreases z - i
  {
    var job, n := GrepContext.WholeJob(f), |f.lines|;
    assert G.FirstWanted(job) == 0;
    GrepPage.StartGrows(f.lines, i + 1, n);
    if i < z {
      StopsAtBadLine(q, f, z, i + 1);
    }
  }

  /**
   * A small file that does not hold the literal anywhere is decided by one search of its bytes: a scan of its lines
   * would send the same single event, the end of the file, or an error if the file is not UTF-8.
   */
  lemma FastMissIsScan(q: G.Query, f: G.SourceFile, d: seq<byte>, pattern: seq<byte>, show: Display, upto: G.Reads)
    requires Literal(pattern) && !q.regex && f.lines == FileLines(d, pattern, show) && forall j: nat :: !OccursAt(pattern, d, j)
    ensures var e := G.StopLine(q, GrepContext.WholeJob(f), 0);
            G.Events(q, GrepContext.WholeJob(f), upto) == [if U.Valid(d) then G.FullEvent(upto(e)) else G.ErrorEvent(upto(e), G.InvalidUTF8)]
  {
    hide U.Valid, P.LineEnd, P.ContentEnd, Matches, OccursAt, LinesFrom;
    var job := GrepContext.WholeJob(f);
    ValidIffLines(d, pattern, show, 0);
    LinesWithout(d, pattern, show, 0);
    assert d[0..] == d && f.lines == LinesFrom(d, pattern, show, 0);
    assert G.Solid(f.lines);
    if U.Valid(d) {
      GrepContext.WholeScanReaches(q, f, 0);
      GrepContext.SilentScan(q, f, upto);
    } else {
      var bad :| 0 <= bad < |f.lines| && !f.lines[bad].utf8;
      var z := FirstBad(f.lines, bad);
      StopsAtBadLine(q, f, z, 0);
      GrepPage.StartGrows(f.lines, z + 1, |f.lines|);
      assert forall i :: 0 <= i < |f.lines| ==> !G.Hit(f.lines, i);
      assert G.ReadLine(q, f.lines, z, G.BudgetEnd(job)) == G.GotLine && G.Judge(q, job, 0, z) == G.BadUTF8;
      GrepContext.NoCandidates(q, job, upto, z, G.FirstWanted(job), G.Delivered(q, job, z));
    }
  }

  lemma {:induction false} FirstBad(ls: seq<G.Line>, bad: nat) returns (z: nat)
    requires bad < |ls| && !ls[bad].utf8
    ensures z <= bad && !ls[z].utf8 && forall j :: 0 <= j < z ==> ls[j].utf8
    decreases bad
  {
    z := bad;
    if j :| 0 <= j < bad && !ls[j].utf8 {
      z := FirstBad(ls, j);
    }
  }

  // ---- what is reported of a file's bytes -------------------------------------------------------

  /** The literal is somewhere in the text. */
  ghost predicate Holds(pattern: seq<byte>, text: seq<byte>) {
    exists j: nat :: OccursAt(pattern, text, j)
  }

  lemma CountedIffHeld(pattern: seq<byte>, text: seq<byte>)
    requires pattern != []
    ensures |Matches(pattern, text, 0)| > 0 <==> Holds(pattern, text)
  {
    MatchesAreLeftmost(pattern, text, 0);
    hide OccursAt, Matches;
    if |Matches(pattern, text, 0)| > 0 {
      assert OccursAt(pattern, text, Matches(pattern, text, 0)[0]);
    }
  }

  /**
   * From bytes to matches: a line that is valid UTF-8 is reported if and only if the literal occurs in its text, and
   * with as many occurrences as are found from the left.
   */
  lemma ReportedIffHeld(q: G.Query, f: G.SourceFile, d: seq<byte>, pattern: seq<byte>, show: Display, i: nat)
    requires Literal(pattern) && f.lines == FileLines(d, pattern, show) && i < |f.lines|
    ensures |P.LinesFrom(d, 0)| == |f.lines| && P.LinesFrom(d, 0)[i].start <= P.LinesFrom(d, 0)[i].contentEnd <= |d|
    ensures var text, ms := Text(d, P.LinesFrom(d, 0)[i]), GrepPaging.FileMatches(q, f, 0, |f.lines|);
            U.Valid(text) ==>
              && (GrepMatches.HasLine(ms, i + 1) <==> Holds(pattern, text))
              && f.lines[i].hits == |Matches(pattern, text, 0)| && f.lines[i].text == show(EvidenceOf(pattern, text))
  {
    hide P.LineEnd, P.LinesFrom, LinesFrom, Matches, U.Valid, GrepMatches.HasLine, GrepPaging.FileMatches, Text, OccursAt, P.ContentEnd, GrepMatches.Rising,
         GrepMatches.Right, G.Start;
    LinesAreTable(d, pattern, show, 0, i);
    var l := P.LinesFrom(d, 0)[i];
    GrepMatches.FileMatchesAre(q, f);
    CountedIffHeld(pattern, Text(d, l));
  }
}
