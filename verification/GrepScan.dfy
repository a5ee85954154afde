/** One worker's scan of one Markdown file: which events it sends, for any start, budget and context size. */
module GrepScan {
  import opened Ordering

  const MAX_LINE_BYTES := 1024 * 1024
  const HEAP_LINE_BYTES := 64 * 1024

  /** A physical line: its bytes with the terminator, its text, how often the pattern occurs, and UTF-8 validity. */
  datatype Line = Line(size: nat, text: string, hits: nat, utf8: bool)

  datatype SourceFile = SourceFile(position: Position, path: string, fingerprint: nat, lines: seq<Line>)

  datatype Query = Query(regex: bool, contextLines: nat, limit: nat, maxFiles: nat, maxBytes: nat)

  datatype GrepError = CursorStale | InvalidUTF8 | InputTooLarge | SourceChanged | LimitExceeded | ResponseTooLarge | OpenFailed | Canceled

  datatype Coords = Coords(resumeOffset: nat, resumeLine: nat, contextOffset: nat, contextLine: nat)

  datatype ContextLine = ContextLine(line: nat, text: string)

  datatype Match = Match(path: string, line: nat, text: string, occurrences: nat,
                         before: seq<ContextLine>, after: seq<ContextLine>, fingerprint: nat)

  /** A match on its way to the reducer. `counted` is the occurrence count the reducer fills in when not `ready`. */
  datatype Candidate = Candidate(found: Match, ready: bool, counted: nat, emission: Coords, retry: Coords)

  datatype Event =
    | CandidateEvent(bytes: nat, candidate: Candidate)
    | FullEvent(bytes: nat)
    | PartialEvent(bytes: nat, checkpoint: Coords, advanced: bool)
    | UnfitEvent(bytes: nat)
    | ErrorEvent(bytes: nat, error: GrepError)

  /** One scan: a file, the line its context starts at, the offset matches are wanted from, and its byte allowance. */
  datatype Job = Job(file: SourceFile, start: nat, resumeOffset: nat, allowance: nat)
  {
    ghost predicate Valid() {
      Solid(file.lines) && start <= |file.lines|
    }
  }

  /** No physical line is empty: each holds at least its terminator or one byte. */
  ghost predicate Solid(ls: seq<Line>) {
    forall i :: 0 <= i < |ls| ==> ls[i].size >= 1
  }

  /** Byte offset at which line i starts. */
  function Start(ls: seq<Line>, i: nat): nat
    requires i <= |ls|
  {
    if i == 0 then 0 else Start(ls, i - 1) + ls[i - 1].size
  }

  lemma {:induction false} StartIncreases(ls: seq<Line>, i: nat, j: nat)
    requires Solid(ls) && i < j <= |ls|
    ensures Start(ls, i) < Start(ls, j)
  {
    if i < j - 1 {
      StartIncreases(ls, i, j - 1);
    }
  }

  lemma StartInjective(ls: seq<Line>, i: nat, j: nat)
    requires Solid(ls) && i <= |ls| && j <= |ls|
    ensures Start(ls, i) < Start(ls, j) <==> i < j
    ensures Start(ls, i) == Start(ls, j) <==> i == j
  {
    if i < j {
      StartIncreases(ls, i, j);
    } else if j < i {
      StartIncreases(ls, j, i);
    }
  }

  /** The first line at or after s that does not start before the offset. */
  function ResumeLine(ls: seq<Line>, s: nat, offset: nat): (r: nat)
    requires s <= |ls|
    ensures s <= r <= |ls|
    ensures forall i :: s <= i < r ==> Start(ls, i) < offset
    ensures r < |ls| ==> Start(ls, r) >= offset
    decreases |ls| - s
  {
    if s == |ls| || Start(ls, s) >= offset then s else ResumeLine(ls, s + 1, offset)
  }

  /** First line of the context of line i, when the scan began at line s. */
  function ContextStart(s: nat, c: nat, i: nat): nat {
    if i >= s + c then i - c else if i < s then i else s
  }

  function ContextLines(ls: seq<Line>, a: nat, b: nat): seq<ContextLine>
    requires b <= |ls|
    decreases b
  {
    if a >= b then [] else ContextLines(ls, a, b - 1) + [ContextLine(b, ls[b - 1].text)]
  }

  /** The coordinates of a restart at line p: where matches resume, and where their context begins. */
  function At(ls: seq<Line>, s: nat, c: nat, p: nat): Coords
    requires p <= |ls|
  {
    Coords(Start(ls, p), p + 1, Start(ls, ContextStart(s, c, p)), ContextStart(s, c, p) + 1)
  }

  function Min(a: nat, b: nat): nat { if a < b then a else b }

  /** The match for line i with its whole context window, clipped to the file. */
  function MatchAt(q: Query, f: SourceFile, s: nat, i: nat): Match
    requires i < |f.lines|
  {
    var c := q.contextLines;
    Match(f.path, i + 1, f.lines[i].text, if q.regex then 1 else f.lines[i].hits,
          ContextLines(f.lines, ContextStart(s, c, i), i),
          ContextLines(f.lines, i + 1, Min(i + 1 + c, |f.lines|)), f.fingerprint)
  }

  function CandidateAt(q: Query, f: SourceFile, s: nat, i: nat): Candidate
    requires i < |f.lines|
  {
    Candidate(MatchAt(q, f, s, i), !q.regex, f.lines[i].hits,
              At(f.lines, s, q.contextLines, i + 1), At(f.lines, s, q.contextLines, i))
  }

  // ---- what reading and judging one line does -------------------------------------------------

  datatype ReadResult = Eof | LineBudget | LineTooLarge | GotLine

  /** Outcome of asking the reader for line i when bytes up to budgetEnd may be read. */
  function ReadLine(q: Query, ls: seq<Line>, i: nat, budgetEnd: nat): ReadResult
    requires i <= |ls|
  {
    if i == |ls| then Eof
    else if q.regex && ls[i].size > MAX_LINE_BYTES && Start(ls, i) + MAX_LINE_BYTES + 1 <= budgetEnd then LineTooLarge
    else if Start(ls, i + 1) <= budgetEnd then GotLine
    else LineBudget
  }

  predicate Hit(ls: seq<Line>, i: nat) {
    i < |ls| && ls[i].hits > 0
  }

  predicate Large(ls: seq<Line>, i: nat) {
    i < |ls| && ls[i].size > HEAP_LINE_BYTES
  }

  predicate AnyHit(ls: seq<Line>, a: nat, b: nat) {
    exists i :: a <= i < b && Hit(ls, i)
  }

  predicate AnyLarge(ls: seq<Line>, a: nat, b: nat) {
    exists i :: a <= i < b && Large(ls, i)
  }

  function Max(a: nat, b: nat): nat { if a < b then b else a }

  /** First line whose match may still be waiting for context when line i is read. */
  function Waiting(r: nat, c: nat, i: nat): nat {
    if i >= r + c then i - c else r
  }

  datatype Verdict = Proceed | BadUTF8 | Stale | UnfitContext | UnfitMatch

  function Judge(q: Query, job: Job, r: nat, i: nat): Verdict
    requires r <= |job.file.lines| && i < |job.file.lines|
  {
    var ls := job.file.lines;
    if !ls[i].utf8 then BadUTF8
    else if i < r then Proceed
    else if i == r && Start(ls, r) != job.resumeOffset then Stale
    else if q.regex && Large(ls, i) && AnyHit(ls, Waiting(r, q.contextLines, i), i) then UnfitContext
    else if Hit(ls, i) && q.regex && (Large(ls, i) || AnyLarge(ls, ContextStart(job.start, q.contextLines, i), i)) then UnfitMatch
    else Proceed
  }

  function BudgetEnd(job: Job): nat
    requires job.start <= |job.file.lines|
  {
    Start(job.file.lines, job.start) + job.allowance
  }

  function FirstWanted(job: Job): (r: nat)
    requires job.start <= |job.file.lines|
    ensures job.start <= r <= |job.file.lines|
  {
    ResumeLine(job.file.lines, job.start, job.resumeOffset)
  }

  /** The line at which a scan that has reached line i ends. */
  function StopLine(q: Query, job: Job, i: nat): (e: nat)
    requires job.start <= i <= |job.file.lines|
    ensures i <= e <= |job.file.lines|
    decreases |job.file.lines| - i
  {
    if ReadLine(q, job.file.lines, i, BudgetEnd(job)) != GotLine || Judge(q, job, FirstWanted(job), i) != Proceed then i
    else StopLine(q, job, i + 1)
  }

  // ---- the event stream of a scan -------------------------------------------------------------

  /** Bytes read by the time line i has been delivered; any function of the line, since read sizes vary. */
  type Reads = nat -> nat

  function CandidateEventAt(q: Query, job: Job, upto: Reads, e: nat, i: nat): Event
    requires i < |job.file.lines|
  {
    CandidateEvent(upto(Min(i + q.contextLines, e)), CandidateAt(q, job.file, job.start, i))
  }

  function CandidateEvents(q: Query, job: Job, upto: Reads, e: nat, a: nat, b: nat): seq<Event>
    requires b <= |job.file.lines|
    decreases b
  {
    if a >= b then []
    else CandidateEvents(q, job, upto, e, a, b - 1)
         + if Hit(job.file.lines, b - 1) then [CandidateEventAt(q, job, upto, e, b - 1)] else []
  }

  /** Matches on lines before this one have left the scan when it stops at line e. */
  function Delivered(q: Query, job: Job, e: nat): nat
    requires job.start <= e <= |job.file.lines|
  {
    var r := FirstWanted(job);
    match ReadLine(q, job.file.lines, e, BudgetEnd(job))
    case Eof => e
    case GotLine => if Judge(q, job, r, e) == UnfitMatch then Min(Waiting(r, q.contextLines, e + 1), e) else Min(Waiting(r, q.contextLines, e), e)
    case _ => Min(Waiting(r, q.contextLines, e), e)
  }

  function FirstHit(ls: seq<Line>, a: nat, b: nat): (p: nat)
    requires a <= b <= |ls|
    ensures a <= p <= b
    ensures p < b ==> Hit(ls, p)
    ensures forall i :: a <= i < p ==> !Hit(ls, i)
    decreases b - a
  {
    if a == b || Hit(ls, a) then a else FirstHit(ls, a + 1, b)
  }

  /** Where a scan that ran out of budget at line e must restart, and whether it passed any wanted line. */
  function BudgetEvent(q: Query, job: Job, upto: Reads, e: nat): Event
    requires job.start <= e <= |job.file.lines|
  {
    var ls, r := job.file.lines, FirstWanted(job);
    if e <= r then
      PartialEvent(upto(e), Coords(Start(ls, job.start), job.start + 1, Start(ls, job.start), job.start + 1), false)
    else
      PartialEvent(upto(e), At(ls, job.start, q.contextLines, FirstHit(ls, Min(Waiting(r, q.contextLines, e), e), e)), true)
  }

  function LastEvent(q: Query, job: Job, upto: Reads, e: nat): Event
    requires job.start <= e <= |job.file.lines|
  {
    match ReadLine(q, job.file.lines, e, BudgetEnd(job))
    case Eof => FullEvent(upto(e))
    case LineTooLarge => ErrorEvent(upto(e), InputTooLarge)
    case LineBudget => BudgetEvent(q, job, upto, e)
    case GotLine =>
      match Judge(q, job, FirstWanted(job), e)
      case BadUTF8 => ErrorEvent(upto(e), InvalidUTF8)
      case Stale => ErrorEvent(upto(e), CursorStale)
      case _ => UnfitEvent(upto(e))
  }

  /** Everything a scan sends: one candidate for each delivered matching line, in order, then one closing event. */
  function Events(q: Query, job: Job, upto: Reads): seq<Event>
    requires job.start <= |job.file.lines|
  {
    var e := StopLine(q, job, job.start);
    CandidateEvents(q, job, upto, e, FirstWanted(job), Delivered(q, job, e)) + [LastEvent(q, job, upto, e)]
  }

  // ---- the scan loop --------------------------------------------------------------------------

  /** A line as the loop holds it. */
  datatype GrepLine = GrepLine(number: nat, start: nat, end: nat, text: string, large: bool, utf8: bool, hits: nat)

  function LineAt(ls: seq<Line>, i: nat): GrepLine
    requires i < |ls|
  {
    GrepLine(i + 1, Start(ls, i), Start(ls, i + 1), ls[i].text, Large(ls, i), ls[i].utf8, ls[i].hits)
  }

  function LinesOf(ls: seq<Line>, a: nat, b: nat): seq<GrepLine>
    requires b <= |ls|
    decreases b
  {
    if a >= b then [] else LinesOf(ls, a, b - 1) + [LineAt(ls, b - 1)]
  }

  lemma {:induction false} LinesOfAt(ls: seq<Line>, a: nat, b: nat, i: nat)
    requires a <= b <= |ls|
    ensures |LinesOf(ls, a, b)| == b - a
    ensures i < b - a ==> LinesOf(ls, a, b)[i] == LineAt(ls, a + i)
    decreases b
  {
    if a < b {
      LinesOfAt(ls, a, b - 1, i);
    }
  }

  lemma LinesOfIndex(ls: seq<Line>, a: nat, b: nat)
    requires a <= b <= |ls|
    ensures |LinesOf(ls, a, b)| == b - a
    ensures forall i :: 0 <= i < b - a ==> LinesOf(ls, a, b)[i] == LineAt(ls, a + i)
  {
    LinesOfAt(ls, a, b, 0);
    forall i | 0 <= i < b - a ensures LinesOf(ls, a, b)[i] == LineAt(ls, a + i) {
      LinesOfAt(ls, a, b, i);
    }
  }

  /** A found match still collecting the lines after it. */
  datatype Pending = Pending(candidate: Candidate, remaining: int)

  /** The pending match of line j when lines before i have been read. */
  function PendingAt(q: Query, job: Job, i: nat, j: nat): Pending
    requires j < i <= |job.file.lines|
  {
    var done := CandidateAt(q, job.file, job.start, j);
    Pending(done.(found := done.found.(after := ContextLines(job.file.lines, j + 1, i))), q.contextLines - (i - 1 - j))
  }

  function PendingsOf(q: Query, job: Job, i: nat, a: nat, b: nat): seq<Pending>
    requires b <= i <= |job.file.lines|
    decreases b
  {
    if a >= b then []
    else PendingsOf(q, job, i, a, b - 1) + if Hit(job.file.lines, b - 1) then [PendingAt(q, job, i, b - 1)] else []
  }

  lemma {:induction false} PendingsSplit(q: Query, job: Job, i: nat, a: nat, b: nat)
    requires a < b <= i <= |job.file.lines|
    ensures PendingsOf(q, job, i, a, b)
         == (if Hit(job.file.lines, a) then [PendingAt(q, job, i, a)] else []) + PendingsOf(q, job, i, a + 1, b)
    decreases b
  {
    hide PendingAt, Hit;
    if a < b - 1 {
      PendingsSplit(q, job, i, a, b - 1);
    } else {
      assert PendingsOf(q, job, i, a, a) == [] && PendingsOf(q, job, i, b, b) == [];
    }
  }

  lemma {:induction false} PendingsNone(q: Query, job: Job, i: nat, a: nat, b: nat)
    requires a <= b <= i <= |job.file.lines|
    ensures |PendingsOf(q, job, i, a, b)| == 0 <==> !AnyHit(job.file.lines, a, b)
    decreases b
  {
    if a < b {
      PendingsNone(q, job, i, a, b - 1);
      if Hit(job.file.lines, b - 1) {
        assert AnyHit(job.file.lines, a, b);
      }
    }
  }

  lemma {:induction false} PendingsHead(q: Query, job: Job, i: nat, a: nat, b: nat)
    requires a <= b <= i <= |job.file.lines|
    requires |PendingsOf(q, job, i, a, b)| > 0
    ensures var p := FirstHit(job.file.lines, a, b);
            p < b && PendingsOf(q, job, i, a, b)[0] == PendingAt(q, job, i, p)
            && PendingsOf(q, job, i, a, b)[1..] == PendingsOf(q, job, i, p + 1, b)
    decreases b - a
  {
    PendingsSplit(q, job, i, a, b);
    if !Hit(job.file.lines, a) {
      PendingsHead(q, job, i, a + 1, b);
    }
  }

  /** A pending match that has collected one more line after it. */
  function Grow(p: Pending, line: GrepLine): Pending {
    var found := p.candidate.found;
    Pending(p.candidate.(found := found.(after := found.after + [ContextLine(line.number, line.text)])), p.remaining - 1)
  }

  lemma {:induction false} PendingsGrow(q: Query, job: Job, i: nat, a: nat, b: nat)
    requires b <= i < |job.file.lines|
    ensures |PendingsOf(q, job, i + 1, a, b)| == |PendingsOf(q, job, i, a, b)|
    ensures forall k :: 0 <= k < |PendingsOf(q, job, i, a, b)| ==>
              PendingsOf(q, job, i + 1, a, b)[k] == Grow(PendingsOf(q, job, i, a, b)[k], LineAt(job.file.lines, i))
    decreases b
  {
    if a < b {
      PendingsGrow(q, job, i, a, b - 1);
    }
  }

  method AppendAfter(line: GrepLine, waiting: seq<Pending>) returns (grown: seq<Pending>)
    ensures |grown| == |waiting|
    ensures forall k :: 0 <= k < |waiting| ==> grown[k] == Grow(waiting[k], line)
  {
    grown := waiting;
    var k := 0;
    while k < |grown|
      invariant 0 <= k <= |grown| == |waiting|
      invariant forall j :: 0 <= j < k ==> grown[j] == Grow(waiting[j], line)
      invariant forall j :: k <= j < |grown| ==> grown[j] == waiting[j]
    {
      grown := grown[k := Grow(grown[k], line)];
      k := k + 1;
    }
  }

  lemma {:induction false} PendingsRemaining(q: Query, job: Job, i: nat, a: nat, b: nat)
    requires b <= i <= |job.file.lines|
    ensures forall k :: 0 <= k < |PendingsOf(q, job, i, a, b)| ==>
              PendingsOf(q, job, i, a, b)[k].remaining >= q.contextLines - (i - 1 - (b - 1)) - (b - 1 - a)
    decreases b
  {
    if a < b {
      PendingsRemaining(q, job, i, a, b - 1);
    }
  }

  lemma {:induction false} CandidatesSkip(q: Query, job: Job, upto: Reads, e: nat, a: nat, b: nat, d: nat)
    requires b <= d <= |job.file.lines| && (a <= b || d <= a)
    requires !AnyHit(job.file.lines, b, d)
    ensures CandidateEvents(q, job, upto, e, a, b) == CandidateEvents(q, job, upto, e, a, d)
    decreases d
  {
    if b < d {
      assert !Hit(job.file.lines, d - 1);
      CandidatesSkip(q, job, upto, e, a, b, d - 1);
    }
  }

  /** A complete pending match is exactly the candidate of its line. */
  lemma PendingComplete(q: Query, job: Job, i: nat, j: nat)
    requires j < i <= |job.file.lines|
    requires i == Min(j + 1 + q.contextLines, |job.file.lines|)
    ensures PendingAt(q, job, i, j).candidate == CandidateAt(q, job.file, job.start, j)
  {
  }

  /** Once line i has joined the windows, a match on line i - c is complete and at the head; all others still wait. */
  lemma DuePending(q: Query, job: Job, upto: Reads, e: nat, r: nat, i: nat)
    requires r + q.contextLines <= i < |job.file.lines| && i <= e && q.contextLines > 0
    requires Hit(job.file.lines, i - q.contextLines)
    ensures var w := i - q.contextLines;
            var ps := PendingsOf(q, job, i + 1, w, i);
            && |ps| > 0 && ps[0].remaining == 0
            && CandidateEvent(upto(i), ps[0].candidate) == CandidateEventAt(q, job, upto, e, w)
            && ps[1..] == PendingsOf(q, job, i + 1, w + 1, i)
            && (forall k :: 0 <= k < |ps[1..]| ==> ps[1..][k].remaining > 0)
  {
    var w := i - q.contextLines;
    var tail := PendingsOf(q, job, i + 1, w + 1, i);
    assert PendingsOf(q, job, i + 1, w, i) == [PendingAt(q, job, i + 1, w)] + tail by {
      PendingsSplit(q, job, i + 1, w, i);
    }
    assert PendingsOf(q, job, i + 1, w, i)[1..] == tail;
    assert forall k :: 0 <= k < |tail| ==> tail[k].remaining > 0 by {
      PendingsRemaining(q, job, i + 1, w + 1, i);
    }
    PendingComplete(q, job, i + 1, w);
  }

  lemma NonePending(q: Query, job: Job, r: nat, i: nat)
    requires r <= i < |job.file.lines|
    requires i < r + q.contextLines || q.contextLines == 0 || !Hit(job.file.lines, i - q.contextLines)
    ensures var w, w2 := Waiting(r, q.contextLines, i), Waiting(r, q.contextLines, i + 1);
            var ps := PendingsOf(q, job, i + 1, w, i);
            && ps == PendingsOf(q, job, i + 1, w2, i)
            && (forall k :: 0 <= k < |ps| ==> ps[k].remaining > 0)
  {
    var w, w2 := Waiting(r, q.contextLines, i), Waiting(r, q.contextLines, i + 1);
    if w < w2 <= i {
      PendingsSplit(q, job, i + 1, w, i);
    }
    PendingsRemaining(q, job, i + 1, w2, i);
  }

  /** Sends the complete matches at the head of the queue. */
  method Flush(pending: seq<Pending>, bytes: nat) returns (sent: seq<Event>, rest: seq<Pending>)
    ensures |sent| <= |pending| && rest == pending[|sent|..]
    ensures forall k :: 0 <= k < |sent| ==> pending[k].remaining == 0 && sent[k] == CandidateEvent(bytes, pending[k].candidate)
    ensures |rest| > 0 ==> rest[0].remaining != 0
  {
    sent, rest := [], pending;
    while |rest| > 0 && rest[0].remaining == 0
      invariant |sent| <= |pending| && rest == pending[|sent|..]
      invariant forall k :: 0 <= k < |sent| ==> pending[k].remaining == 0 && sent[k] == CandidateEvent(bytes, pending[k].candidate)
    {
      sent, rest := sent + [CandidateEvent(bytes, rest[0].candidate)], rest[1..];
    }
  }

  /** Sends every match still waiting when the file ends. */
  method FlushAtEof(q: Query, job: Job, upto: Reads, sofar: seq<Event>, waiting: seq<Pending>, ghost w: nat) returns (events: seq<Event>)
    requires job.start <= |job.file.lines| && FirstWanted(job) <= w <= |job.file.lines|
    requires w < |job.file.lines| ==> |job.file.lines| <= w + q.contextLines
    requires waiting == PendingsOf(q, job, |job.file.lines|, w, |job.file.lines|)
    requires sofar == CandidateEvents(q, job, upto, |job.file.lines|, FirstWanted(job), w)
    ensures events == CandidateEvents(q, job, upto, |job.file.lines|, FirstWanted(job), |job.file.lines|)
  {
    ghost var n, r := |job.file.lines|, FirstWanted(job);
    ghost var p := w;
    var pending := waiting;
    events := sofar;
    while |pending| > 0
      invariant r <= p <= n && (p < n ==> n <= p + q.contextLines)
      invariant pending == PendingsOf(q, job, n, p, n)
      invariant events == CandidateEvents(q, job, upto, n, r, p)
    {
      ghost var h := FirstHit(job.file.lines, p, n);
      PendingsHead(q, job, n, p, n);
      CandidatesSkip(q, job, upto, n, r, p, h);
      PendingComplete(q, job, n, h);
      assert CandidateEvent(upto(|job.file.lines|), pending[0].candidate) == CandidateEventAt(q, job, upto, n, h);
      events := events + [CandidateEvent(upto(|job.file.lines|), pending[0].candidate)];
      pending := pending[1..];
      p := h + 1;
    }
    PendingsNone(q, job, n, p, n);
    CandidatesSkip(q, job, upto, n, r, p, n);
  }

  function AppendRing(ring: seq<GrepLine>, line: GrepLine, capacity: nat): seq<GrepLine> {
    if capacity == 0 then []
    else if |ring| == capacity then ring[1..] + [line]
    else ring + [line]
  }

  /** The ring always holds the last c lines since the scan's first line. */
  lemma RingIsWindow(ls: seq<Line>, s: nat, c: nat, i: nat)
    requires s <= i < |ls|
    ensures AppendRing(LinesOf(ls, ContextStart(s, c, i), i), LineAt(ls, i), c) == LinesOf(ls, ContextStart(s, c, i + 1), i + 1)
  {
    var a, a2 := ContextStart(s, c, i), ContextStart(s, c, i + 1);
    LinesOfIndex(ls, a, i);
    LinesOfIndex(ls, a2, i + 1);
  }

  /** Offset and line at which the context of a restart after `current` begins. */
  function ResumeContext(before: seq<GrepLine>, current: GrepLine, c: nat): (nat, nat) {
    if c == 0 then (current.end, current.number + 1)
    else
      var combined := before + [current];
      var kept := if |combined| > c then combined[|combined| - c..] else combined;
      (kept[0].start, kept[0].number)
  }

  lemma ResumeContextIsWindow(ls: seq<Line>, s: nat, c: nat, a: nat, i: nat)
    requires s <= a <= i < |ls| && (a == ContextStart(s, c, i) || (c > 0 && a == ContextStart(s, c, i + 1)))
    ensures var ctx := ResumeContext(LinesOf(ls, a, i), LineAt(ls, i), c);
            ctx.0 == Start(ls, ContextStart(s, c, i + 1)) && ctx.1 == ContextStart(s, c, i + 1) + 1
  {
    LinesOfIndex(ls, a, i);
  }

  method HasLarge(ring: seq<GrepLine>) returns (found: bool)
    ensures found <==> exists k :: 0 <= k < |ring| && ring[k].large
  {
    for k := 0 to |ring|
      invariant forall j :: 0 <= j < k ==> !ring[j].large
    {
      if ring[k].large {
        return true;
      }
    }
    return false;
  }

  method ContextOf(ghost ls: seq<Line>, ghost a: nat, ghost b: nat, ring: seq<GrepLine>) returns (context: seq<ContextLine>)
    requires a <= b <= |ls| && ring == LinesOf(ls, a, b)
    ensures context == ContextLines(ls, a, b)
  {
    LinesOfIndex(ls, a, b);
    context := [];
    for k := 0 to |ring|
      invariant context == ContextLines(ls, a, a + k)
    {
      context := context + [ContextLine(ring[k].number, ring[k].text)];
    }
  }

  /** Line i, wanted or not yet large enough to stop the scan, joins every waiting window; complete matches leave. */
  method JoinWindows(q: Query, job: Job, upto: Reads, i: nat, line: GrepLine, waiting: seq<Pending>, sofar: seq<Event>, ghost e: nat)
    returns (pending: seq<Pending>, events: seq<Event>)
    requires job.start <= i < |job.file.lines| && FirstWanted(job) <= i <= e <= |job.file.lines|
    requires line == LineAt(job.file.lines, i)
    requires waiting == PendingsOf(q, job, i, Waiting(FirstWanted(job), q.contextLines, i), i)
    requires sofar == CandidateEvents(q, job, upto, e, FirstWanted(job), Min(Waiting(FirstWanted(job), q.contextLines, i), i))
    ensures pending == PendingsOf(q, job, i + 1, Waiting(FirstWanted(job), q.contextLines, i + 1), i)
    ensures events == CandidateEvents(q, job, upto, e, FirstWanted(job), Min(Waiting(FirstWanted(job), q.contextLines, i + 1), i))
  {
    hide FirstWanted, LineAt, CandidateEventAt;
    ghost var r, c := FirstWanted(job), q.contextLines;
    ghost var w, w2 := Waiting(r, c, i), Waiting(r, c, i + 1);
    var grown := AppendAfter(line, waiting);
    PendingsGrow(q, job, i, w, i);
    assert grown == PendingsOf(q, job, i + 1, w, i);
    var sent;
    sent, pending := Flush(grown, upto(i));
    events := sofar + sent;
    if c > 0 && i >= r + c && Hit(job.file.lines, i - c) {
      DuePending(q, job, upto, e, r, i);
      assert w == i - c && w2 == w + 1;
      assert |grown| > 1 ==> grown[1..][0].remaining > 0;
      assert sent == [CandidateEventAt(q, job, upto, e, w)];
    } else {
      NonePending(q, job, r, i);
      assert |grown| > 0 ==> grown[0].remaining > 0;
      if w < w2 <= i {
        assert forall k :: w <= k < w2 ==> !Hit(job.file.lines, k);
        CandidatesSkip(q, job, upto, e, r, w, w2);
      }
    }
  }

  lemma StartOfWanted(job: Job, i: nat)
    requires job.Valid() && job.start <= i < |job.file.lines|
    ensures Start(job.file.lines, i) < job.resumeOffset <==> i < FirstWanted(job)
  {
    var r := FirstWanted(job);
    if r <= i {
      StartInjective(job.file.lines, r, i);
    }
  }

  lemma LargeInRing(ls: seq<Line>, a: nat, b: nat, ring: seq<GrepLine>)
    requires a <= b <= |ls| && ring == LinesOf(ls, a, b)
    ensures (exists k :: 0 <= k < |ring| && ring[k].large) <==> AnyLarge(ls, a, b)
  {
    LinesOfIndex(ls, a, b);
    if k :| 0 <= k < |ring| && ring[k].large {
      assert Large(ls, a + k);
    }
    if AnyLarge(ls, a, b) {
      var i :| a <= i < b && Large(ls, i);
      assert ring[i - a].large;
    }
  }

  lemma CheckpointIsWindow(ls: seq<Line>, s: nat, c: nat, i: nat)
    requires s <= i < |ls|
    ensures var ring := LinesOf(ls, ContextStart(s, c, i + 1), i + 1);
            var ctx := ResumeContext(ring[..Max(|ring|, 1) - 1], LineAt(ls, i), c);
            Coords(Start(ls, i + 1), i + 2, ctx.0, ctx.1) == At(ls, s, c, i + 1)
  {
    var a := ContextStart(s, c, i + 1);
    LinesOfIndex(ls, a, i + 1);
    if c > 0 {
      assert LinesOf(ls, a, i + 1)[..i - a] == LinesOf(ls, a, i);
      ResumeContextIsWindow(ls, s, c, a, i);
    }
  }

  /** A fresh match queues up with its context so far and its two restart points. */
  method NewPending(q: Query, job: Job, i: nat, line: GrepLine, before: seq<GrepLine>, waiting: seq<Pending>) returns (pending: seq<Pending>)
    requires job.start <= i < |job.file.lines| && line == LineAt(job.file.lines, i)
    requires before == LinesOf(job.file.lines, ContextStart(job.start, q.contextLines, i), i)
    ensures pending == waiting + [PendingAt(q, job, i + 1, i)]
  {
    ghost var ls, s, c := job.file.lines, job.start, q.contextLines;
    var context := ContextOf(ls, ContextStart(s, c, i), i, before);
    LinesOfIndex(ls, ContextStart(s, c, i), i);
    var retry := Coords(line.start, line.number, line.start, line.number);
    if |before| > 0 {
      retry := Coords(line.start, line.number, before[0].start, before[0].number);
    }
    var resume := ResumeContext(before, line, q.contextLines);
    ResumeContextIsWindow(ls, s, c, ContextStart(s, c, i), i);
    var found := Match(job.file.path, line.number, line.text, if q.regex then 1 else line.hits, context, [], job.file.fingerprint);
    pending := waiting + [Pending(Candidate(found, !q.regex, line.hits, Coords(line.end, line.number + 1, resume.0, resume.1), retry), q.contextLines)];
  }

  lemma FlushWithoutContext(q: Query, job: Job, upto: Reads, e: nat, i: nat)
    requires q.contextLines == 0 && i < |job.file.lines| && i <= e
    ensures var p := PendingAt(q, job, i + 1, i);
            p.remaining == 0 && CandidateEvent(upto(i), p.candidate) == CandidateEventAt(q, job, upto, e, i)
  {
    PendingComplete(q, job, i + 1, i);
  }

  /** The variables of the scan loop. */
  datatype ScanState = ScanState(before: seq<GrepLine>, pending: seq<Pending>, checkpoint: Coords, advanced: bool, events: seq<Event>)

  /** What they hold when lines before i have been processed by a scan that will stop at line e. */
  ghost predicate ScanInvariant(q: Query, job: Job, upto: Reads, e: nat, i: nat, st: ScanState) {
    var ls, s, c := job.file.lines, job.start, q.contextLines;
    && s <= i <= e <= |ls|
    && var r := FirstWanted(job);
    && st.before == LinesOf(ls, ContextStart(s, c, i), i)
    && (st.advanced <==> i > r)
    && st.pending == PendingsOf(q, job, i, Waiting(r, c, i), i)
    && st.events == CandidateEvents(q, job, upto, e, r, Min(Waiting(r, c, i), i))
    && st.checkpoint == if i > r then At(ls, s, c, i) else Coords(Start(ls, s), s + 1, Start(ls, s), s + 1)
  }

  /** One line at or after the resume offset: either it ends the scan with an event, or it is absorbed. */
  method WantedLine(q: Query, job: Job, upto: Reads, i: nat, line: GrepLine, st: ScanState, ghost e: nat)
    returns (stop: Option<Event>, next: ScanState)
    requires job.Valid() && ScanInvariant(q, job, upto, e, i, st)
    requires FirstWanted(job) <= i < |job.file.lines| && line == LineAt(job.file.lines, i) && line.utf8
    ensures stop.None? <==> Judge(q, job, FirstWanted(job), i) == Proceed
    ensures stop.None? && i < e ==> ScanInvariant(q, job, upto, e, i + 1, next)
    ensures stop.Some? ==> stop.value == (if Judge(q, job, FirstWanted(job), i) == Stale then ErrorEvent(upto(i), CursorStale) else UnfitEvent(upto(i)))
    ensures stop.Some? && e == i ==>
              next.events == CandidateEvents(q, job, upto, e, FirstWanted(job),
                Min(Waiting(FirstWanted(job), q.contextLines, if Judge(q, job, FirstWanted(job), i) == UnfitMatch then i + 1 else i), i))
  {
    var ls, s, c, r := job.file.lines, job.start, q.contextLines, FirstWanted(job);
    if line.start != job.resumeOffset && !st.advanced {
      return Some(ErrorEvent(upto(i), CursorStale)), st;
    }
    PendingsNone(q, job, i, Waiting(r, c, i), i);
    StartOfWanted(job, i);
    if q.regex && line.large && |st.pending| > 0 {
      return Some(UnfitEvent(upto(i))), st;
    }
    var pending, events := JoinWindows(q, job, upto, i, line, st.pending, st.events, e);
    if line.hits > 0 {
      var ringLarge := HasLarge(st.before);
      LargeInRing(ls, ContextStart(s, c, i), i, st.before);
      if q.regex && (line.large || ringLarge) {
        return Some(UnfitEvent(upto(i))), st.(events := events);
      }
      pending := NewPending(q, job, i, line, st.before, pending);
    }
    stop := None;
    next := Absorb(q, job, upto, i, line, st.before, pending, events, e);
  }

  /** Without context a match is whole as soon as it is found, and leaves at once. */
  method SendWhole(q: Query, job: Job, upto: Reads, i: nat, waiting: seq<Pending>, sofar: seq<Event>, ghost e: nat)
    returns (pending: seq<Pending>, events: seq<Event>)
    requires job.start <= i < |job.file.lines| && FirstWanted(job) <= i <= e <= |job.file.lines|
    requires waiting == PendingsOf(q, job, i + 1, Waiting(FirstWanted(job), q.contextLines, i + 1), i)
                        + if Hit(job.file.lines, i) then [PendingAt(q, job, i + 1, i)] else []
    requires sofar == CandidateEvents(q, job, upto, e, FirstWanted(job), Min(Waiting(FirstWanted(job), q.contextLines, i + 1), i))
    ensures var w := Waiting(FirstWanted(job), q.contextLines, i + 1);
            pending == PendingsOf(q, job, i + 1, w, i + 1) && events == CandidateEvents(q, job, upto, e, FirstWanted(job), Min(w, i + 1))
  {
    hide PendingAt, CandidateEventAt, FirstWanted;
    pending, events := waiting, sofar;
    if q.contextLines == 0 {
      assert PendingsOf(q, job, i + 1, i + 1, i) == [];
      FlushWithoutContext(q, job, upto, e, i);
      var sent;
      sent, pending := Flush(waiting, upto(i));
      assert sent == if Hit(job.file.lines, i) then [CandidateEventAt(q, job, upto, e, i)] else [];
      events := events + sent;
    }
  }

  /** The end of the loop body: ring, checkpoint, and the immediate send of a match without context. */
  method Absorb(q: Query, job: Job, upto: Reads, i: nat, line: GrepLine, ring: seq<GrepLine>, waiting: seq<Pending>, sofar: seq<Event>, ghost e: nat)
    returns (next: ScanState)
    requires job.Valid() && job.start <= i < |job.file.lines| && FirstWanted(job) <= i <= e <= |job.file.lines|
    requires line == LineAt(job.file.lines, i)
    requires ring == LinesOf(job.file.lines, ContextStart(job.start, q.contextLines, i), i)
    requires waiting == PendingsOf(q, job, i + 1, Waiting(FirstWanted(job), q.contextLines, i + 1), i)
                        + if Hit(job.file.lines, i) then [PendingAt(q, job, i + 1, i)] else []
    requires sofar == CandidateEvents(q, job, upto, e, FirstWanted(job), Min(Waiting(FirstWanted(job), q.contextLines, i + 1), i))
    ensures i < e ==> ScanInvariant(q, job, upto, e, i + 1, next)
  {
    hide AppendRing, ResumeContext, LinesOf, PendingsOf, PendingAt, CandidateEvents, Hit, At, FirstWanted, ContextStart;
    var ls, s, c := job.file.lines, job.start, q.contextLines;
    RingIsWindow(ls, s, c, i);
    var before := AppendRing(ring, line, c);
    var context := ResumeContext(before[..Max(|before|, 1) - 1], line, c);
    CheckpointIsWindow(ls, s, c, i);
    var pending, events := SendWhole(q, job, upto, i, waiting, sofar, e);
    next := ScanState(before, pending, Coords(line.end, line.number + 1, context.0, context.1), true, events);
  }

  /** One line the reader delivered. */
  method TakeLine(q: Query, job: Job, upto: Reads, i: nat, line: GrepLine, st: ScanState, ghost e: nat)
    returns (stop: Option<Event>, next: ScanState)
    requires job.Valid() && ScanInvariant(q, job, upto, e, i, st)
    requires i < |job.file.lines| && line == LineAt(job.file.lines, i)
    requires ReadLine(q, job.file.lines, i, BudgetEnd(job)) == GotLine
    ensures stop.None? <==> Judge(q, job, FirstWanted(job), i) == Proceed
    ensures stop.None? && i < e ==> ScanInvariant(q, job, upto, e, i + 1, next)
    ensures stop.Some? && e == i ==>
              next.events == CandidateEvents(q, job, upto, e, FirstWanted(job), Delivered(q, job, e))
              && stop.value == LastEvent(q, job, upto, e)
  {
    if !line.utf8 {
      return Some(ErrorEvent(upto(i), InvalidUTF8)), st;
    }
    StartOfWanted(job, i);
    if line.start < job.resumeOffset {
      RingIsWindow(job.file.lines, job.start, q.contextLines, i);
      return None, st.(before := AppendRing(st.before, line, q.contextLines));
    }
    stop, next := WantedLine(q, job, upto, i, line, st, e);
  }

  /** A scan without budget restarts at its first waiting match, or else at the line it could not read. */
  method OutOfBudget(q: Query, job: Job, upto: Reads, i: nat, st: ScanState) returns (last: Event)
    requires job.Valid() && ScanInvariant(q, job, upto, i, i, st)
    ensures last == BudgetEvent(q, job, upto, i)
  {
    ghost var w := Waiting(FirstWanted(job), q.contextLines, i);
    var checkpoint := st.checkpoint;
    if |st.pending| > 0 {
      PendingsHead(q, job, i, w, i);
      checkpoint := st.pending[0].candidate.retry;
    } else {
      PendingsNone(q, job, i, Min(w, i), i);
    }
    last := PartialEvent(upto(i), checkpoint, st.advanced);
  }

  /** The scan loop, proved to send exactly the specified stream. */
  method Scan(q: Query, job: Job, upto: Reads) returns (events: seq<Event>)
    requires job.Valid()
    ensures events == Events(q, job, upto)
  {
    var ls, c, budgetEnd := job.file.lines, q.contextLines, BudgetEnd(job);
    ghost var e, r := StopLine(q, job, job.start), FirstWanted(job);
    var i := job.start;
    var st := ScanState([], [], Coords(Start(ls, i), i + 1, Start(ls, i), i + 1), false, []);
    while true
      invariant ScanInvariant(q, job, upto, e, i, st) && StopLine(q, job, i) == e
      decreases |ls| - i
    {
      match ReadLine(q, ls, i, budgetEnd)
      case Eof =>
        events := FlushAtEof(q, job, upto, st.events, st.pending, Waiting(r, c, i));
        return events + [FullEvent(upto(i))];
      case LineTooLarge =>
        return st.events + [ErrorEvent(upto(i), InputTooLarge)];
      case LineBudget =>
        var last := OutOfBudget(q, job, upto, i, st);
        return st.events + [last];
      case GotLine =>
        var stop, next := TakeLine(q, job, upto, i, LineAt(ls, i), st, e);
        if stop.Some? {
          return next.events + [stop.value];
        }
        st := next;
        i := i + 1;
    }
  }
}
