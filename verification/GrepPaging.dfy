/** Following cursors loses nothing and repeats nothing: the paging theorem, its progress measure and its exact limit. */
module GrepPaging {
  import opened Ordering
  import opened GrepScan
  import opened GrepPage

  // ---- the matches a tree has, whatever the pages -----------------------------------------------

  /** The match of a line as a page reports it, with the context window of the whole file. */
  function Reported(q: Query, f: SourceFile, i: nat): Match
    requires i < |f.lines|
  {
    MatchAt(q, f, 0, i).(occurrences := f.lines[i].hits)
  }

  function FileMatches(q: Query, f: SourceFile, a: nat, b: nat): seq<Match>
    requires b <= |f.lines|
    decreases b - a
  {
    if a >= b then []
    else (if Hit(f.lines, a) then [Reported(q, f, a)] else []) + FileMatches(q, f, a + 1, b)
  }

  /** All matches from line r of file k on. */
  function MatchesFrom(q: Query, fs: seq<SourceFile>, k: nat, r: nat): seq<Match>
    decreases |fs| - k
  {
    if k >= |fs| then [] else FileMatches(q, fs[k], r, |fs[k].lines|) + MatchesFrom(q, fs, k + 1, 0)
  }

  ghost predicate InOrder(fs: seq<SourceFile>, i: nat, j: nat)
    requires i < |fs| && j < |fs|
  {
    Before(fs[i].position, fs[j].position)
  }

  /** Markdown files in strict walk order. */
  ghost predicate Tree(fs: seq<SourceFile>) {
    && (forall k :: 0 <= k < |fs| ==> Solid(fs[k].lines))
    && (forall i, j {:trigger InOrder(fs, i, j)} :: 0 <= i < j < |fs| ==> InOrder(fs, i, j))
  }

  ghost predicate NoneEmpty(fs: seq<SourceFile>) {
    forall k :: 0 <= k < |fs| ==> |fs[k].lines| > 0
  }

  ghost predicate ValidQuery(q: Query) {
    q.limit >= 1 && q.maxFiles >= 1 && q.maxBytes >= 1
  }

  function Digest(fs: seq<SourceFile>, k: nat): seq<(Position, nat)>
    requires k <= |fs|
  {
    if k == 0 then [] else Digest(fs, k - 1) + [(fs[k - 1].position, fs[k - 1].fingerprint)]
  }

  lemma PositionOrder(fs: seq<SourceFile>, i: nat, j: nat)
    requires Tree(fs) && i < |fs| && j < |fs|
    ensures ComparePosition(fs[i].position, fs[j].position) > 0 <==> i > j
    ensures ComparePosition(fs[i].position, fs[j].position) == 0 <==> i == j
  {
    BeforeAsymmetric(fs[i].position, fs[j].position);
    BeforeAsymmetric(fs[j].position, fs[i].position);
    if i < j {
      assert InOrder(fs, i, j);
    } else if j < i {
      assert InOrder(fs, j, i);
    }
  }

  // ---- what a cursor stands for -----------------------------------------------------------------

  function PartialAt(q: Query, f: SourceFile, r: nat): Partial
    requires r <= |f.lines|
  {
    Partial(f.fingerprint, At(f.lines, 0, q.contextLines, r))
  }

  /** The cursor continues at line r of file k. */
  ghost predicate Stands(q: Query, fs: seq<SourceFile>, cursor: Option<Cursor>, k: nat, r: nat) {
    match cursor
    case None => k == 0 && r == 0
    case Some(c) =>
      match c.partial
      case None => 1 <= k <= |fs| && r == 0 && c.boundary == fs[k - 1].position && c.prefix == Digest(fs, k)
      case Some(p) => k < |fs| && r <= |fs[k].lines| && c.boundary == fs[k].position && c.prefix == Digest(fs, k) && p == PartialAt(q, fs[k], r)
  }

  /** Places before file k, counting for each file its lines, its end and its full boundary. */
  function Offset(fs: seq<SourceFile>, k: nat): nat
    requires k <= |fs|
  {
    if k == 0 then 0 else Offset(fs, k - 1) + |fs[k - 1].lines| + 2
  }

  lemma {:induction false} OffsetIncreases(fs: seq<SourceFile>, j: nat, k: nat)
    requires j < k <= |fs|
    ensures Offset(fs, j) + |fs[j].lines| + 2 <= Offset(fs, k)
  {
    if j < k - 1 {
      OffsetIncreases(fs, j, k - 1);
    }
  }

  /** How far a cursor that continues at line r of file k has come: by file, then by offset, then to the full boundary. */
  function Weight(fs: seq<SourceFile>, cursor: Option<Cursor>, k: nat, r: nat): nat
    requires k <= |fs|
  {
    if cursor.None? then 0 else if cursor.value.partial.None? then Offset(fs, k) else Offset(fs, k) + r + 1
  }

  /**
   * What one page must achieve: report a prefix of `all`, and end, if not complete, at a cursor that continues
   * exactly there, no later than file `bound` and heavier than `weight`.
   */
  datatype Aim = Aim(q: Query, fs: seq<SourceFile>, all: seq<Match>, weight: int, bound: nat)

  ghost predicate StandsFor(aim: Aim, reported: seq<Match>, cursor: Cursor, k: nat, r: nat) {
    && k <= |aim.fs| && k <= aim.bound && (cursor.partial.Some? ==> k < aim.bound)
    && Stands(aim.q, aim.fs, Some(cursor), k, r)
    && reported + MatchesFrom(aim.q, aim.fs, k, r) == aim.all
    && Weight(aim.fs, Some(cursor), k, r) > aim.weight
  }

  ghost predicate Resumable(aim: Aim, reported: seq<Match>, cursor: Cursor) {
    exists k: nat, r: nat :: StandsFor(aim, reported, cursor, k, r)
  }

  /** The page was asked to continue at line r0 of file k0. */
  ghost predicate Asked(aim: Aim, resume: Option<Cursor>, k0: nat, r0: nat) {
    && Tree(aim.fs) && ValidQuery(aim.q)
    && k0 <= |aim.fs| && Stands(aim.q, aim.fs, resume, k0, r0)
    && aim.weight <= Weight(aim.fs, resume, k0, r0)
  }

  /** What the reducer holds when line a of file k is the next to be reported. */
  ghost predicate Midway(aim: Aim, k: nat, a: nat, run: Run) {
    && k <= |aim.fs| && k <= aim.bound && (if k < |aim.fs| then a <= |aim.fs[k].lines| else a == 0)
    && run.stop.None?
    && run.prefix == Digest(aim.fs, k)
    && run.matches + MatchesFrom(aim.q, aim.fs, k, a) == aim.all
    && |run.states| == |run.matches| < aim.q.limit
    && (|run.states| > 0 ==> Resumable(aim, run.matches, run.states[|run.states| - 1]))
    && (run.lastFull.Some? ==> k > 0 && run.lastFull.value == aim.fs[k - 1].position)
  }

  ghost predicate StoppedWell(aim: Aim, run: Run) {
    run.stop.Some? && Resumable(aim, run.matches, run.stop.value.state)
  }

  ghost predicate PageWell(aim: Aim, ending: Ending) {
    ending.Broken? || StoppedWell(aim, ending.run) || (ending.run.stop.None? && ending.run.matches == aim.all)
  }

  // ---- candidate streams, front to back ---------------------------------------------------------

  lemma {:induction false} CandidatesSplit(q: Query, job: Job, upto: Reads, e: nat, a: nat, b: nat)
    requires a < b <= |job.file.lines|
    ensures CandidateEvents(q, job, upto, e, a, b)
         == (if Hit(job.file.lines, a) then [CandidateEventAt(q, job, upto, e, a)] else []) + CandidateEvents(q, job, upto, e, a + 1, b)
    decreases b
  {
    if a < b - 1 {
      CandidatesSplit(q, job, upto, e, a, b - 1);
    }
  }

  lemma {:induction false} NoMatches(q: Query, f: SourceFile, a: nat, p: nat, b: nat)
    requires a <= p <= b <= |f.lines|
    requires forall i :: a <= i < p ==> !Hit(f.lines, i)
    ensures FileMatches(q, f, a, b) == FileMatches(q, f, p, b)
    decreases p - a
  {
    if a < p {
      NoMatches(q, f, a + 1, p, b);
    }
  }

  lemma MatchesSkip(q: Query, fs: seq<SourceFile>, k: nat, d: nat, p: nat)
    requires k < |fs| && d <= p <= |fs[k].lines|
    requires forall i :: d <= i < p ==> !Hit(fs[k].lines, i)
    ensures MatchesFrom(q, fs, k, d) == MatchesFrom(q, fs, k, p)
  {
    NoMatches(q, fs[k], d, p, |fs[k].lines|);
  }

  /** The job that continues file f at line r, with its context starting where a whole-file scan would have it. */
  ghost predicate Canonical(q: Query, f: SourceFile, r: nat, job: Job) {
    && job.file == f && r <= |f.lines|
    && job.start == ContextStart(0, q.contextLines, r)
    && job.resumeOffset == Start(f.lines, r)
  }

  lemma CanonicalResumes(q: Query, f: SourceFile, r: nat, job: Job)
    requires Solid(f.lines) && Canonical(q, f, r, job)
    ensures job.start <= r && FirstWanted(job) == r
  {
    var w := FirstWanted(job);
    StartInjective(f.lines, w, r);
  }

  // ---- one candidate ----------------------------------------------------------------------------

  lemma EmitReports(env: Env, aim: Aim, k: nat, i: nat, run: Run)
    requires k < |aim.fs| && k < aim.bound && Midway(aim, k, i, run) && Hit(aim.fs[k].lines, i) && aim.weight <= Offset(aim.fs, k) + i + 1
    ensures var f, q := aim.fs[k], aim.q;
            var (next, outcome) := Emit(env, q, run, CandidateAt(q, f, 0, i), PartialState(run, f, At(f.lines, 0, q.contextLines, i + 1)));
            && (outcome.JobDone? ==> StoppedWell(aim, next))
            && (outcome.More? ==> Midway(aim, k, i + 1, next) && next.lastFull == run.lastFull)
  {
    var f, q := aim.fs[k], aim.q;
    var state := PartialState(run, f, At(f.lines, 0, q.contextLines, i + 1));
    var (next, outcome) := Emit(env, q, run, CandidateAt(q, f, 0, i), state);
    if |next.matches| > |run.matches| {
      assert next.matches == run.matches + [Reported(q, f, i)];
      MatchReported(q, aim.fs, k, i, run.matches);
      assert StandsFor(aim, next.matches, state, k, i + 1);
    }
  }

  lemma MatchReported(q: Query, fs: seq<SourceFile>, k: nat, i: nat, reported: seq<Match>)
    requires k < |fs| && Hit(fs[k].lines, i)
    ensures reported + MatchesFrom(q, fs, k, i) == reported + [Reported(q, fs[k], i)] + MatchesFrom(q, fs, k, i + 1)
  {
    assert FileMatches(q, fs[k], i, |fs[k].lines|) == [Reported(q, fs[k], i)] + FileMatches(q, fs[k], i + 1, |fs[k].lines|);
  }

  lemma MidwaySkips(aim: Aim, k: nat, a: nat, run: Run)
    requires k < |aim.fs| && a < |aim.fs[k].lines| && Midway(aim, k, a, run) && !Hit(aim.fs[k].lines, a)
    ensures Midway(aim, k, a + 1, run)
  {
    MatchesSkip(aim.q, aim.fs, k, a, a + 1);
    hide MatchesFrom, Resumable, Digest;
  }

  /** The run after the work counters have taken note of an event. */
  function CountedRun(run: Run, head: Head, event: Event): Run {
    var work := run.work.(files := run.work.files + if head.started then 0 else 1);
    run.(work := work.(bytes := if event.bytes < head.accepted then work.bytes else work.bytes + event.bytes - head.accepted))
  }

  lemma CountingKeeps(aim: Aim, k: nat, a: nat, run: Run, head: Head, event: Event)
    requires Midway(aim, k, a, run)
    ensures Midway(aim, k, a, CountedRun(run, head, event))
  {
  }

  lemma CandidateReduces(env: Env, aim: Aim, resume: Option<Cursor>, k: nat, r: nat, job: Job, upto: Reads, e: nat, a: nat, run: Run, head: Head)
    requires k < |aim.fs| && k < aim.bound && Canonical(aim.q, aim.fs[k], r, job) && r <= a
    requires Midway(aim, k, a, run) && aim.weight <= Offset(aim.fs, k) + a + 1 && Hit(aim.fs[k].lines, a)
    ensures var (next, head', outcome) := Reduce(env, aim.q, resume, run, head, ScanItem(job), CandidateEventAt(aim.q, job, upto, e, a));
            && (outcome.JobDone? ==> StoppedWell(aim, next))
            && (outcome.More? ==> Midway(aim, k, a + 1, next) && next.lastFull == run.lastFull)
  {
    hide Midway, StoppedWell, Emit;
    var event := CandidateEventAt(aim.q, job, upto, e, a);
    assert CandidateAt(aim.q, aim.fs[k], job.start, a) == CandidateAt(aim.q, aim.fs[k], 0, a);
    CountingKeeps(aim, k, a, run, head, event);
    EmitReports(env, aim, k, a, CountedRun(run, head, event));
  }

  /**
   * The candidates of lines a to b leave the reducer at line b with everything reported, unless the page
   * stops or fails on the way.
   */
  lemma {:induction false} CandidatesReduce(env: Env, aim: Aim, resume: Option<Cursor>, k: nat, r: nat, job: Job, upto: Reads, e: nat,
                                            a: nat, b: nat, run: Run, head: Head, last: Event)
    returns (run2: Run, head2: Head, stopped: bool)
    requires k < |aim.fs| && k < aim.bound && Canonical(aim.q, aim.fs[k], r, job) && r <= a <= b <= |aim.fs[k].lines|
    requires Midway(aim, k, a, run) && aim.weight <= Offset(aim.fs, k) + r + 1
    ensures var (next, outcome) := ReduceStream(env, aim.q, resume, run, head, ScanItem(job), CandidateEvents(aim.q, job, upto, e, a, b) + [last]);
            if stopped then outcome.Failed? || StoppedWell(aim, next)
            else Midway(aim, k, b, run2) && run2.lastFull == run.lastFull
                 && (next, outcome) == ReduceStream(env, aim.q, resume, run2, head2, ScanItem(job), [last])
    decreases b - a
  {
    hide Midway, Resumable, Offset, Reduce;
    var q, f := aim.q, aim.fs[k];
    var events := CandidateEvents(q, job, upto, e, a, b);
    if a == b {
      assert events + [last] == [last];
      return run, head, false;
    }
    var event, rest := CandidateEventAt(q, job, upto, e, a), CandidateEvents(q, job, upto, e, a + 1, b);
    CandidatesSplit(q, job, upto, e, a, b);
    if !Hit(f.lines, a) {
      assert events == rest;
      MidwaySkips(aim, k, a, run);
      run2, head2, stopped := CandidatesReduce(env, aim, resume, k, r, job, upto, e, a + 1, b, run, head, last);
    } else {
      assert events + [last] == [event] + (rest + [last]);
      ReduceFirst(env, q, resume, run, head, ScanItem(job), event, rest + [last]);
      CandidateReduces(env, aim, resume, k, r, job, upto, e, a, run, head);
      var (next, head', outcome) := Reduce(env, q, resume, run, head, ScanItem(job), event);
      if !outcome.More? {
        return run, head, true;
      }
      run2, head2, stopped := CandidatesReduce(env, aim, resume, k, r, job, upto, e, a + 1, b, next, head', last);
    }
  }

  // ---- the closing event of a scan --------------------------------------------------------------

  /** The reducer's own test that a full boundary moves forward is the measure's. */
  lemma FullBoundaryGains(aim: Aim, resume: Option<Cursor>, k0: nat, r0: nat, k: nat)
    requires Asked(aim, resume, k0, r0) && 0 < k <= |aim.fs|
    requires FullBoundaryAdvances(resume, aim.fs[k - 1].position)
    ensures Offset(aim.fs, k) > aim.weight
  {
    var fs := aim.fs;
    if resume.Some? {
      PositionOrder(fs, k - 1, if resume.value.partial.None? then k0 - 1 else k0);
      if k0 < k {
        OffsetIncreases(fs, k0, k);
      }
    } else {
      OffsetIncreases(fs, 0, k);
    }
  }

  /** So is its test that a checkpoint moves forward. */
  lemma CheckpointGains(aim: Aim, resume: Option<Cursor>, k0: nat, r0: nat, k: nat, p: nat, run: Run)
    requires Asked(aim, resume, k0, r0) && k < |aim.fs| && p <= |aim.fs[k].lines|
    requires CheckpointAdvances(resume, run, PartialState(run, aim.fs[k], At(aim.fs[k].lines, 0, aim.q.contextLines, p)))
    ensures Offset(aim.fs, k) + p + 1 > aim.weight
  {
    var fs := aim.fs;
    if resume.Some? {
      PositionOrder(fs, k, if resume.value.partial.None? then k0 - 1 else k0);
      if k0 < k {
        OffsetIncreases(fs, k0, k);
      }
      if resume.value.partial.Some? && k == k0 {
        StartInjective(fs[k].lines, r0, p);
      }
    }
  }

  /** Between two files: file k fully reported. */
  ghost predicate FileDone(aim: Aim, k: nat, run: Run) {
    k < |aim.fs| && run.stop.None? && Midway(aim, k + 1, 0, run) && run.lastFull == Some(aim.fs[k].position)
  }

  lemma FullReduces(env: Env, aim: Aim, resume: Option<Cursor>, k: nat, job: Job, run: Run, bytes: nat)
    requires k < |aim.fs| && k < aim.bound && job.file == aim.fs[k] && Midway(aim, k, |aim.fs[k].lines|, run)
    ensures FileDone(aim, k, Apply(env, aim.q, resume, run, ScanItem(job), FullEvent(bytes)).0)
  {
    assert Digest(aim.fs, k + 1) == Digest(aim.fs, k) + [(aim.fs[k].position, aim.fs[k].fingerprint)];
  }

  /** A scan that passed wanted lines before its budget ended stops the page at its checkpoint, or fails it. */
  lemma CheckpointReduces(env: Env, aim: Aim, resume: Option<Cursor>, k0: nat, r0: nat, k: nat, d: nat, p: nat, job: Job, run: Run, bytes: nat)
    requires Asked(aim, resume, k0, r0) && k < |aim.fs| && k < aim.bound && job.file == aim.fs[k] && d <= p <= |aim.fs[k].lines|
    requires Midway(aim, k, d, run) && forall i :: d <= i < p ==> !Hit(aim.fs[k].lines, i)
    ensures var (next, outcome) := Apply(env, aim.q, resume, run, ScanItem(job), PartialEvent(bytes, At(aim.fs[k].lines, 0, aim.q.contextLines, p), true));
            outcome.Failed? || StoppedWell(aim, next)
  {
    var checkpoint := PartialState(run, aim.fs[k], At(aim.fs[k].lines, 0, aim.q.contextLines, p));
    if CheckpointAdvances(resume, run, checkpoint) {
      MatchesSkip(aim.q, aim.fs, k, d, p);
      CheckpointGains(aim, resume, k0, r0, k, p, run);
      assert StandsFor(aim, run.matches, checkpoint, k, p);
    }
  }

  /** A scan that could not reach a wanted line stops the page at the last full boundary, or fails it. */
  lemma StuckReduces(env: Env, aim: Aim, resume: Option<Cursor>, k0: nat, r0: nat, k: nat, r: nat, job: Job, run: Run, bytes: nat, coords: Coords)
    requires Asked(aim, resume, k0, r0) && k < |aim.fs| && job.file == aim.fs[k]
    requires Midway(aim, k, r, run) && (run.lastFull.Some? ==> r == 0)
    ensures var (next, outcome) := Apply(env, aim.q, resume, run, ScanItem(job), PartialEvent(bytes, coords, false));
            outcome.Failed? || StoppedWell(aim, next)
  {
    if run.lastFull.Some? && FullBoundaryAdvances(resume, run.lastFull.value) {
      FullBoundaryGains(aim, resume, k0, r0, k);
      assert StandsFor(aim, run.matches, FullState(run, run.lastFull.value), k, 0);
    }
  }

  ghost predicate NoHitBefore(ls: seq<Line>, d: nat, p: nat) {
    d <= p <= |ls| && forall i :: d <= i < p ==> !Hit(ls, i)
  }

  /** What the closing event of a scan from line r says about d, the line before which everything was delivered. */
  ghost predicate Closes(q: Query, f: SourceFile, r: nat, d: nat, last: Event) {
    && r <= d <= |f.lines|
    && match last
       case CandidateEvent(_, _) => false
       case FullEvent(_) => d == |f.lines|
       case PartialEvent(_, coords, advanced) =>
         if advanced then exists p :: NoHitBefore(f.lines, d, p) && coords == At(f.lines, 0, q.contextLines, p) else d == r
       case _ => true
  }

  lemma ScanCloses(q: Query, f: SourceFile, r: nat, job: Job, upto: Reads)
    requires Solid(f.lines) && Canonical(q, f, r, job)
    ensures var e := StopLine(q, job, job.start);
            Closes(q, f, r, Max(r, Delivered(q, job, e)), LastEvent(q, job, upto, e))
  {
    var e, c := StopLine(q, job, job.start), q.contextLines;
    CanonicalResumes(q, f, r, job);
    if ReadLine(q, f.lines, e, BudgetEnd(job)).LineBudget? && e > r {
      var d := Min(Waiting(r, c, e), e);
      var p := FirstHit(f.lines, d, e);
      assert At(f.lines, job.start, c, p) == At(f.lines, 0, c, p);
      assert NoHitBefore(f.lines, d, p);
    }
  }

  lemma LastReduces(env: Env, aim: Aim, resume: Option<Cursor>, k0: nat, r0: nat, k: nat, r: nat, d: nat, job: Job, run: Run, head: Head, last: Event)
    requires Asked(aim, resume, k0, r0) && k < |aim.fs| && k < aim.bound && job.file == aim.fs[k]
    requires Closes(aim.q, aim.fs[k], r, d, last) && Midway(aim, k, d, run) && (run.lastFull.Some? ==> r == 0)
    ensures var (next, outcome) := ReduceStream(env, aim.q, resume, run, head, ScanItem(job), [last]);
            outcome.Failed? || StoppedWell(aim, next) || FileDone(aim, k, next)
  {
    hide Midway, Resumable, Asked;
    assert [last] == [last] + [];
    ReduceFirst(env, aim.q, resume, run, head, ScanItem(job), last, []);
    var counted := CountedRun(run, head, last);
    CountingKeeps(aim, k, d, run, head, last);
    match last
    case FullEvent(bytes) => FullReduces(env, aim, resume, k, job, counted, bytes);
    case PartialEvent(bytes, coords, advanced) =>
      if advanced {
        var p :| NoHitBefore(aim.fs[k].lines, d, p) && coords == At(aim.fs[k].lines, 0, aim.q.contextLines, p);
        CheckpointReduces(env, aim, resume, k0, r0, k, d, p, job, counted, bytes);
      } else {
        StuckReduces(env, aim, resume, k0, r0, k, r, job, counted, bytes, coords);
      }
    case _ =>
  }

  /** File k, continued at line r: all of it reported, or the page stopped well inside it, or it failed. */
  lemma FileReduces(env: Env, aim: Aim, resume: Option<Cursor>, k0: nat, r0: nat, k: nat, r: nat, job: Job, upto: Reads, run: Run)
    requires Asked(aim, resume, k0, r0) && k < |aim.fs| && k < aim.bound && Canonical(aim.q, aim.fs[k], r, job)
    requires aim.weight <= Offset(aim.fs, k) + r + 1 && Midway(aim, k, r, run) && (run.lastFull.Some? ==> r == 0)
    ensures var (next, outcome) := ReduceStream(env, aim.q, resume, run, FRESH, ScanItem(job), Events(aim.q, job, upto));
            outcome.Failed? || StoppedWell(aim, next) || FileDone(aim, k, next)
  {
    hide Midway, Resumable, FileDone;
    var q, f := aim.q, aim.fs[k];
    var e := StopLine(q, job, job.start);
    var d, last := Delivered(q, job, e), LastEvent(q, job, upto, e);
    CanonicalResumes(q, f, r, job);
    ScanCloses(q, f, r, job, upto);
    assert d < r ==> CandidateEvents(q, job, upto, e, r, d) == CandidateEvents(q, job, upto, e, r, r);
    var run2, head2, stopped := CandidatesReduce(env, aim, resume, k, r, job, upto, e, r, Max(r, d), run, FRESH, last);
    if !stopped {
      LastReduces(env, aim, resume, k0, r0, k, r, Max(r, d), job, run2, head2, last);
    }
  }

  // ---- a whole page -----------------------------------------------------------------------------

  /** The partial cursor a file is scheduled with asks for line r. */
  ghost predicate Wants(q: Query, f: SourceFile, partial: Option<Partial>, r: nat) {
    if partial.None? then r == 0 else r <= |f.lines| && partial.value == PartialAt(q, f, r)
  }

  lemma AdmittedIsCanonical(env: Env, q: Query, f: SourceFile, partial: Option<Partial>, r: nat, files: nat, bytes: nat)
    requires Solid(f.lines) && Wants(q, f, partial, r)
    ensures var a := Admit(env, q, f, partial, files, bytes);
            && (a.EmptyFile? ==> |f.lines| == 0 && partial.None?)
            && (a.Admitted? ==> a.item.ScanItem? && Canonical(q, f, r, a.item.job) && (|f.lines| > 0 || partial.Some?))
  {
    var n, s := |f.lines|, ContextStart(0, q.contextLines, r);
    StartInjective(f.lines, 0, n);
    StartInjective(f.lines, s, n);
    StartInjective(f.lines, r, n);
    var w := ResumeLine(f.lines, 0, Start(f.lines, s));
    StartInjective(f.lines, w, s);
  }

  lemma LimitStops(aim: Aim, k: nat, run: Run, reason: StopReason)
    requires Midway(aim, k, 0, run) && run.lastFull.Some? && Offset(aim.fs, k) > aim.weight
    ensures LimitStop(run, reason).Ended? && StoppedWell(aim, LimitStop(run, reason).run)
  {
    assert StandsFor(aim, run.matches, FullState(run, run.lastFull.value), k, 0);
  }

  lemma AllReported(aim: Aim, run: Run)
    requires Midway(aim, |aim.fs|, 0, run)
    ensures run.stop.None? && run.matches == aim.all
  {
    assert run.matches + [] == aim.all;
  }

  /** What holds when a page comes to file k, having admitted `files` files and `bytes` bytes. */
  ghost predicate Arrived(aim: Aim, resume: Option<Cursor>, k0: nat, r0: nat, k: nat, r: nat, partial: Option<Partial>, run: Run, files: nat, bytes: nat) {
    && Asked(aim, resume, k0, r0)
    && Midway(aim, k, r, run) && aim.weight <= Offset(aim.fs, k) + r + 1
    && (if k < |aim.fs| then Wants(aim.q, aim.fs[k], partial, r) else partial.None? && r == 0)
    && (partial.Some? ==> run.lastFull.None? && files == 0)
    && (files == 0 ==> bytes == 0)
    && (files > 0 ==> run.lastFull.Some? && Offset(aim.fs, k) > aim.weight)
    // An empty file may be met only if standing still is allowed, or by a run that has no full boundary at all.
    && (NoneEmpty(aim.fs) || run.lastFull.None? || Offset(aim.fs, k) > aim.weight)
    // The bound is the end of the tree or an empty file no scan gets past.
    && (aim.bound >= |aim.fs| || (|aim.fs[aim.bound].lines| == 0 && (k == aim.bound ==> partial.None?)))
  }

  lemma AdmittedReduces(env: Env, aim: Aim, resume: Option<Cursor>, k0: nat, r0: nat, k: nat, r: nat, partial: Option<Partial>,
                        run: Run, files: nat, bytes: nat, item: Item, cost: nat)
    requires k < |aim.fs| && Arrived(aim, resume, k0, r0, k, r, partial, run, files, bytes)
    requires Admit(env, aim.q, aim.fs[k], partial, files, bytes) == Admitted(item, cost)
    ensures item.ScanItem? && item.job.start <= |item.job.file.lines|
    ensures var (next, outcome) := ReduceStream(env, aim.q, resume, run, FRESH, item, Stream(env, aim.q, item));
            outcome.Failed? || StoppedWell(aim, next)
            || (next.stop.None? && Arrived(aim, resume, k0, r0, k + 1, 0, None, next, files + 1, bytes + cost))
  {
    hide Resumable, Admit, Midway, ReduceStream;
    AdmittedIsCanonical(env, aim.q, aim.fs[k], partial, r, files, bytes);
    MidwayBounds(aim, k, r, run);
    FileReduces(env, aim, resume, k0, r0, k, r, item.job, ReadsOf(env, item.job), run);
    OffsetIncreases(aim.fs, k, k + 1);
  }

  lemma MidwayBounds(aim: Aim, k: nat, a: nat, run: Run)
    requires Midway(aim, k, a, run)
    ensures k <= |aim.fs| && k <= aim.bound && (k < |aim.fs| ==> a <= |aim.fs[k].lines|)
  {
  }

  lemma LimitReachedStops(env: Env, aim: Aim, resume: Option<Cursor>, k0: nat, r0: nat, k: nat, r: nat, partial: Option<Partial>,
                          run: Run, files: nat, bytes: nat)
    requires k < |aim.fs| && Arrived(aim, resume, k0, r0, k, r, partial, run, files, bytes)
    ensures var a := Admit(env, aim.q, aim.fs[k], partial, files, bytes);
            a.LimitReached? ==> PageWell(aim, LimitStop(run, a.reason))
  {
    hide Midway, Resumable, Admit;
    AdmittedIsCanonical(env, aim.q, aim.fs[k], partial, r, files, bytes);
    if run.lastFull.Some? && Offset(aim.fs, k) > aim.weight {
      var a := Admit(env, aim.q, aim.fs[k], partial, files, bytes);
      if a.LimitReached? {
        LimitStops(aim, k, run, a.reason);
      }
    }
  }

  lemma {:induction false} NoEmptyAhead(env: Env, q: Query, fs: seq<SourceFile>, k: nat, partial: Option<Partial>, files: nat, bytes: nat, room: int)
    requires NoneEmpty(fs) && forall i :: 0 <= i < |fs| ==> Solid(fs[i].lines)
    ensures !EmptyAhead(env, q, fs, k, partial, files, bytes, room)
    decreases |fs| - k
  {
    hide Scanned;
    if k < |fs| {
      StartIncreases(fs[k].lines, 0, |fs[k].lines|);
      var a := Admit(env, q, fs[k], partial, files, bytes);
      if a.Admitted? {
        NoEmptyAhead(env, q, fs, k + 1, None, files + 1, bytes + a.cost, room - 1);
      }
    }
  }

  /** Stopping at an empty file ahead loses nothing: the cursor stands at the last full boundary reduced. */
  lemma EmptyAheadStops(env: Env, aim: Aim, resume: Option<Cursor>, k0: nat, r0: nat, k: nat, r: nat, partial: Option<Partial>,
                        run: Run, files: nat, bytes: nat, room: int)
    requires k < |aim.fs| && Arrived(aim, resume, k0, r0, k, r, partial, run, files, bytes) && run.lastFull.Some?
    requires EmptyAhead(env, aim.q, aim.fs, k, partial, files, bytes, room)
    ensures PageWell(aim, LimitStop(run, ByteLimit))
  {
    hide EmptyAhead, Midway;
    if NoneEmpty(aim.fs) {
      NoEmptyAhead(env, aim.q, aim.fs, k, partial, files, bytes, room);
    }
    LimitStops(aim, k, run, ByteLimit);
  }

  lemma {:induction false} ScanPages(env: Env, aim: Aim, resume: Option<Cursor>, k0: nat, r0: nat, k: nat, r: nat, partial: Option<Partial>,
                                     run: Run, files: nat, bytes: nat, failed: bool, ending: Ending)
    requires k <= |aim.fs| && Arrived(aim, resume, k0, r0, k, r, partial, run, files, bytes)
    requires ending == ScanFrom(env, aim.q, resume, aim.fs, k, partial, run, files, bytes, failed)
    ensures PageWell(aim, ending)
    decreases |aim.fs| - k, 1
  {
    hide EmptyAhead, Admit, ReduceStream, Stream, PageWell;
    if k == |aim.fs| {
      AllReported(aim, run);
      assert PageWell(aim, ending) by {
        Completed(aim, ending);
      }
    } else if !failed && EmptyAhead(env, aim.q, aim.fs, k, partial, files, bytes, WORKER_CEILING - 1) {
      if run.lastFull.Some? {
        EmptyAheadStops(env, aim, resume, k0, r0, k, r, partial, run, files, bytes, WORKER_CEILING - 1);
      } else {
        ScanPagesStep(env, aim, resume, k0, r0, k, r, partial, run, files, bytes, true, ending);
      }
    } else {
      ScanPagesStep(env, aim, resume, k0, r0, k, r, partial, run, files, bytes, failed, ending);
    }
  }

  lemma Completed(aim: Aim, ending: Ending)
    requires ending.Ended? && ending.run.stop.None? && ending.run.matches == aim.all
    ensures PageWell(aim, ending)
  {
  }

  lemma {:induction false} ScanPagesStep(env: Env, aim: Aim, resume: Option<Cursor>, k0: nat, r0: nat, k: nat, r: nat, partial: Option<Partial>,
                                     run: Run, files: nat, bytes: nat, failed: bool, ending: Ending)
    requires k < |aim.fs| && Arrived(aim, resume, k0, r0, k, r, partial, run, files, bytes)
    requires failed || !EmptyAhead(env, aim.q, aim.fs, k, partial, files, bytes, WORKER_CEILING - 1)
    requires ending == ScanFrom(env, aim.q, resume, aim.fs, k, partial, run, files, bytes, failed)
    ensures PageWell(aim, ending)
    decreases |aim.fs| - k, 0
  {
    hide Arrived, Resumable, Admit, ReduceStream, Stream, EmptyAhead;
    LimitReachedStops(env, aim, resume, k0, r0, k, r, partial, run, files, bytes);
    var a := Admit(env, aim.q, aim.fs[k], partial, files, bytes);
    if a.Admitted? {
      AdmittedReduces(env, aim, resume, k0, r0, k, r, partial, run, files, bytes, a.item, a.cost);
      var (next, outcome) := ReduceStream(env, aim.q, resume, run, FRESH, a.item, Stream(env, aim.q, a.item));
      if !outcome.Failed? && next.stop.None? {
        ScanPages(env, aim, resume, k0, r0, k + 1, 0, None, next, files + 1, bytes + a.cost, failed, ending);
      }
    }
  }

  /** The file a cursor's boundary names. */
  function BoundaryFile(cursor: Cursor, k0: nat): int {
    if cursor.partial.None? then k0 - 1 else k0
  }

  /** A page's aim: everything from the asked place on, ending at a heavier cursor or, if allowed, an equally heavy one. */
  function PageAim(q: Query, fs: seq<SourceFile>, resume: Option<Cursor>, k0: nat, r0: nat, slack: nat, bound: nat): Aim
    requires k0 <= |fs|
  {
    Aim(q, fs, MatchesFrom(q, fs, k0, r0), Weight(fs, resume, k0, r0) - slack, bound)
  }

  /** Where a page may be asked to start, and what an empty file does to its aim. */
  ghost predicate PageAsked(q: Query, fs: seq<SourceFile>, resume: Option<Cursor>, k0: nat, r0: nat, slack: nat, bound: nat) {
    && Tree(fs) && ValidQuery(q) && k0 <= |fs| && k0 <= bound && Stands(q, fs, resume, k0, r0)
    && (NoneEmpty(fs) || slack > 0)
    && (bound >= |fs| || (|fs[bound].lines| == 0 && (k0 == bound && resume.Some? ==> resume.value.partial.None?)))
  }

  /** The page has just revalidated the file at its cursor's boundary. */
  lemma BoundaryPages(env: Env, q: Query, fs: seq<SourceFile>, from: Cursor, k0: nat, r0: nat, slack: nat, bound: nat, run: Run, ending: Ending)
    requires PageAsked(q, fs, Some(from), k0, r0, slack, bound)
    requires if from.partial.None? then run == NEW_RUN.(work := run.work, prefix := Digest(fs, k0), lastFull := Some(fs[k0 - 1].position))
             else run == NEW_RUN.(work := run.work, prefix := Digest(fs, k0))
    requires ending == ScanFrom(env, q, Some(from), fs, k0, from.partial, run, 0, 0, false)
    ensures PageWell(PageAim(q, fs, Some(from), k0, r0, slack, bound), ending)
  {
    hide ScanFrom, MatchesFrom, PageWell, Tree;
    var aim := PageAim(q, fs, Some(from), k0, r0, slack, bound);
    assert [] + aim.all == aim.all;
    ScanPages(env, aim, Some(from), k0, r0, k0, if from.partial.None? then 0 else r0, from.partial, run, 0, 0, false, ending);
  }

  lemma {:induction false} ResumePages(env: Env, q: Query, fs: seq<SourceFile>, from: Cursor, k0: nat, r0: nat, slack: nat, bound: nat, k: nat, run: Run, ending: Ending)
    requires PageAsked(q, fs, Some(from), k0, r0, slack, bound)
    requires k <= BoundaryFile(from, k0) && k <= |fs|
    requires run == NEW_RUN.(work := run.work, prefix := Digest(fs, k))
    requires ending == ScanEntry(env, q, fs, Some(from), Enter(env, from, fs, k, run))
    ensures PageWell(PageAim(q, fs, Some(from), k0, r0, slack, bound), ending)
    decreases |fs| - k
  {
    hide ScanFrom, MatchesFrom, PageAim, StoppedWell, Weight;
    var b := BoundaryFile(from, k0);
    PositionOrder(fs, k, b);
    PositionOrder(fs, b, k);
    BeforeAsymmetric(fs[k].position, fs[b].position);
    var seen := run.(work := run.work.(validated := run.work.validated + 1));
    var passed := seen.(prefix := seen.prefix + [(fs[k].position, fs[k].fingerprint)]);
    if env.opens(fs[k].position).Some? {
    } else if k < b {
      ResumePages(env, q, fs, from, k0, r0, slack, bound, k + 1, passed, ending);
    } else if from.partial.None? {
      BoundaryPages(env, q, fs, from, k0, r0, slack, bound, passed.(lastFull := Some(fs[k].position)), ending);
    } else {
      BoundaryPages(env, q, fs, from, k0, r0, slack, bound, seen, ending);
    }
  }

  /** One page, asked for any place a cursor can stand. */
  lemma WalkPages(env: Env, q: Query, fs: seq<SourceFile>, resume: Option<Cursor>, k0: nat, r0: nat, slack: nat, bound: nat)
    requires PageAsked(q, fs, resume, k0, r0, slack, bound)
    ensures PageWell(PageAim(q, fs, resume, k0, r0, slack, bound), Walk(env, q, fs, resume))
  {
    var aim, ending := PageAim(q, fs, resume, k0, r0, slack, bound), Walk(env, q, fs, resume);
    if resume.None? {
      assert [] + aim.all == aim.all;
      ScanPages(env, aim, None, 0, 0, 0, 0, None, NEW_RUN, 0, 0, false, ending);
    } else {
      ResumePages(env, q, fs, resume.value, k0, r0, slack, bound, 0, NEW_RUN, ending);
    }
  }

  // ---- when a page has come further -------------------------------------------------------------

  /**
   * A checkpoint at line p of file k lets a page end there if and only if it is ahead of where the page was asked to
   * begin: behind some boundary or line of a fresh page, or in a later file or at a later line than the cursor.
   */
  lemma CheckpointAdvancesIffAhead(q: Query, fs: seq<SourceFile>, resume: Option<Cursor>, k0: nat, r0: nat, run: Run, k: nat, p: nat)
    requires Tree(fs) && Stands(q, fs, resume, k0, r0) && k < |fs| && p <= |fs[k].lines|
    ensures CheckpointAdvances(resume, run, PartialState(run, fs[k], At(fs[k].lines, 0, q.contextLines, p))) <==>
              if resume.None? then run.lastFull.Some? || p > 0
              else k > BoundaryFile(resume.value, k0) || (k == BoundaryFile(resume.value, k0) && resume.value.partial.Some? && p > r0)
  {
    StartInjective(fs[k].lines, 0, p);
    if resume.Some? {
      PositionOrder(fs, k, BoundaryFile(resume.value, k0));
      if k == k0 && resume.value.partial.Some? {
        StartInjective(fs[k].lines, r0, p);
      }
    }
  }

  /** The full boundary of file k lets a page end there if and only if the page was not asked to begin behind it. */
  lemma BoundaryAdvancesIffAhead(q: Query, fs: seq<SourceFile>, resume: Option<Cursor>, k0: nat, r0: nat, k: nat)
    requires Tree(fs) && Stands(q, fs, resume, k0, r0) && k < |fs|
    ensures FullBoundaryAdvances(resume, fs[k].position) <==>
              resume.None? || k > BoundaryFile(resume.value, k0) || (k == BoundaryFile(resume.value, k0) && resume.value.partial.Some?)
  {
    if resume.Some? {
      PositionOrder(fs, k, BoundaryFile(resume.value, k0));
    }
  }

  // ---- chains of pages --------------------------------------------------------------------------

  /** Where a caller who follows cursors is after n pages; page i meets environment envs(i). */
  datatype Progress = Asking(cursor: Option<Cursor>, reported: seq<Match>) | Complete(reported: seq<Match>) | Aborted

  function Follow(envs: nat -> Env, q: Query, fs: seq<SourceFile>, n: nat): Progress {
    if n == 0 then Asking(None, [])
    else
      match Follow(envs, q, fs, n - 1)
      case Asking(cursor, reported) =>
        (match PageOf(envs(n - 1), q, fs, cursor)
         case PageError(_) => Aborted
         case Page(matches, None) => Complete(reported + matches)
         case Page(matches, Some(next)) => Asking(Some(next), reported + matches))
      case other => other
  }

  /** A chain that is still asking has reported everything before its cursor, which weighs at least as many units as pages. */
  ghost predicate OnTrack(q: Query, fs: seq<SourceFile>, n: nat, bound: nat, progress: Progress) {
    match progress
    case Asking(cursor, reported) =>
      exists k: nat, r: nat :: k <= |fs| && Standing(q, fs, cursor, k, r, reported) && (NoneEmpty(fs) ==> Weight(fs, cursor, k, r) >= n)
        && k <= bound && (cursor.Some? && cursor.value.partial.Some? ==> k < bound)
    case Complete(reported) => reported == MatchesFrom(q, fs, 0, 0)
    case Aborted => true
  }

  ghost predicate Standing(q: Query, fs: seq<SourceFile>, cursor: Option<Cursor>, k: nat, r: nat, reported: seq<Match>) {
    Stands(q, fs, cursor, k, r) && reported + MatchesFrom(q, fs, k, r) == MatchesFrom(q, fs, 0, 0)
  }

  /** No scan gets past an empty file: a page whose walk must meet one does not complete. */
  lemma {:induction false} ScanNeverPast(env: Env, q: Query, resume: Option<Cursor>, fs: seq<SourceFile>, k: nat, partial: Option<Partial>,
                                         run: Run, files: nat, bytes: nat, failed: bool, z: nat, ending: Ending)
    requires k <= z < |fs| && |fs[z].lines| == 0 && (k == z ==> partial.None?)
    requires ending == ScanFrom(env, q, resume, fs, k, partial, run, files, bytes, failed)
    ensures ending.Ended? ==> ending.run.stop.Some?
    decreases |fs| - k, if failed then 0 else 1
  {
    hide ReduceStream, Stream, Scanned, EmptyAhead;
    var a := Admit(env, q, fs[k], partial, files, bytes);
    if !failed && EmptyAhead(env, q, fs, k, partial, files, bytes, WORKER_CEILING - 1) {
      if run.lastFull.None? {
        ScanNeverPast(env, q, resume, fs, k, partial, run, files, bytes, true, z, ending);
      }
    } else if k < z && a.Admitted? {
      var (next, outcome) := ReduceStream(env, q, resume, run, FRESH, a.item, Stream(env, q, a.item));
      if !outcome.Failed? && next.stop.None? {
        ScanNeverPast(env, q, resume, fs, k + 1, None, next, files + 1, bytes + a.cost, failed, z, ending);
      }
    }
  }

  lemma {:induction false} ResumeNeverPast(env: Env, q: Query, fs: seq<SourceFile>, from: Cursor, k0: nat, z: nat, k: nat, run: Run, ending: Ending)
    requires Tree(fs) && z < |fs| && |fs[z].lines| == 0 && 0 <= BoundaryFile(from, k0) < |fs|
    requires fs[BoundaryFile(from, k0)].position == from.boundary && k <= BoundaryFile(from, k0)
    requires k0 <= z && (from.partial.Some? ==> k0 < z)
    requires ending == ScanEntry(env, q, fs, Some(from), Enter(env, from, fs, k, run))
    ensures ending.Ended? ==> ending.run.stop.Some?
    decreases |fs| - k
  {
    hide ScanFrom;
    var b := BoundaryFile(from, k0);
    PositionOrder(fs, k, b);
    PositionOrder(fs, b, k);
    BeforeAsymmetric(fs[k].position, fs[b].position);
    var seen := run.(work := run.work.(validated := run.work.validated + 1));
    var passed := seen.(prefix := seen.prefix + [(fs[k].position, fs[k].fingerprint)]);
    if env.opens(fs[k].position).Some? {
    } else if k < b {
      ResumeNeverPast(env, q, fs, from, k0, z, k + 1, passed, ending);
    } else if ending.Ended? {
      if from.partial.None? {
        ScanNeverPast(env, q, Some(from), fs, k + 1, None, passed.(lastFull := Some(fs[k].position)), 0, 0, false, z, ending);
      } else {
        ScanNeverPast(env, q, Some(from), fs, k, from.partial, seen, 0, 0, false, z, ending);
      }
    }
  }

  lemma NeverPast(env: Env, q: Query, fs: seq<SourceFile>, cursor: Option<Cursor>, k: nat, r: nat, z: nat)
    requires Tree(fs) && Stands(q, fs, cursor, k, r) && k <= z < |fs| && |fs[z].lines| == 0
    requires cursor.Some? && cursor.value.partial.Some? ==> k < z
    ensures Walk(env, q, fs, cursor).Ended? ==> Walk(env, q, fs, cursor).run.stop.Some?
  {
    if cursor.None? {
      ScanNeverPast(env, q, None, fs, 0, None, NEW_RUN, 0, 0, false, z, Walk(env, q, fs, None));
    } else {
      ResumeNeverPast(env, q, fs, cursor.value, k, z, 0, NEW_RUN, Walk(env, q, fs, cursor));
    }
  }

  lemma PageContinues(env: Env, q: Query, fs: seq<SourceFile>, bound: nat, cursor: Option<Cursor>, k: nat, r: nat, reported: seq<Match>)
    returns (k2: nat, r2: nat)
    requires Tree(fs) && ValidQuery(q) && k <= |fs| && k <= bound && Standing(q, fs, cursor, k, r, reported)
    requires bound >= |fs| || |fs[bound].lines| == 0
    requires cursor.Some? && cursor.value.partial.Some? ==> k < bound
    ensures var page := PageOf(env, q, fs, cursor);
            page.Page? ==>
              if page.next.None? then bound >= |fs| && reported + page.matches == MatchesFrom(q, fs, 0, 0)
              else k2 <= |fs| && Standing(q, fs, page.next, k2, r2, reported + page.matches)
                   && (NoneEmpty(fs) ==> Weight(fs, page.next, k2, r2) > Weight(fs, cursor, k, r))
                   && k2 <= bound && (page.next.value.partial.Some? ==> k2 < bound)
  {
    hide Tree, ValidQuery, Stands, MatchesFrom, Weight, Walk, NoneEmpty;
    k2, r2 := 0, 0;
    var slack := if NoneEmpty(fs) then 0 else 1;
    var aim := PageAim(q, fs, cursor, k, r, slack, bound);
    WalkPages(env, q, fs, cursor, k, r, slack, bound);
    var ending := Walk(env, q, fs, cursor);
    if ending.Ended? {
      var matches := ending.run.matches;
      if ending.run.stop.Some? {
        k2, r2 :| StandsFor(aim, matches, ending.run.stop.value.state, k2, r2);
        assert reported + matches + MatchesFrom(q, fs, k2, r2) == reported + (matches + MatchesFrom(q, fs, k2, r2));
      } else if bound < |fs| {
        NeverPast(env, q, fs, cursor, k, r, bound);
      }
    }
  }

  lemma PageKeepsTrack(envs: nat -> Env, q: Query, fs: seq<SourceFile>, n: nat, bound: nat)
    requires Tree(fs) && ValidQuery(q) && n > 0
    requires bound >= |fs| || |fs[bound].lines| == 0
    requires OnTrack(q, fs, n - 1, bound, Follow(envs, q, fs, n - 1))
    ensures OnTrack(q, fs, n, bound, Follow(envs, q, fs, n))
    ensures bound < |fs| && Follow(envs, q, fs, n - 1).Asking? ==> !Follow(envs, q, fs, n).Complete?
  {
    hide Tree, ValidQuery, Standing, MatchesFrom, Weight, PageOf, NoneEmpty;
    var before := Follow(envs, q, fs, n - 1);
    if before.Asking? {
      var cursor, reported := before.cursor, before.reported;
      var k: nat, r: nat :| k <= |fs| && Standing(q, fs, cursor, k, r, reported) && (NoneEmpty(fs) ==> Weight(fs, cursor, k, r) >= n - 1)
        && k <= bound && (cursor.Some? && cursor.value.partial.Some? ==> k < bound);
      var k2, r2 := PageContinues(envs(n - 1), q, fs, bound, cursor, k, r, reported);
    }
  }

  lemma {:induction false} FollowKeepsTrack(envs: nat -> Env, q: Query, fs: seq<SourceFile>, n: nat, bound: nat)
    requires Tree(fs) && ValidQuery(q) && (bound >= |fs| || |fs[bound].lines| == 0)
    ensures OnTrack(q, fs, n, bound, Follow(envs, q, fs, n))
    ensures bound < |fs| ==> !Follow(envs, q, fs, n).Complete?
  {
    if n == 0 {
      assert Standing(q, fs, None, 0, 0, []);
    } else {
      FollowKeepsTrack(envs, q, fs, n - 1, bound);
      PageKeepsTrack(envs, q, fs, n, bound);
    }
  }

  /**
   * Paging equivalence. However many pages it takes, and whatever limits, budgets, context size and response
   * capacities cut them, a chain of accepted pages that completes has reported exactly the matches of the tree,
   * in order, each once, each with its whole context window.
   */
  lemma PagingEquivalence(envs: nat -> Env, q: Query, fs: seq<SourceFile>, n: nat)
    requires Tree(fs) && ValidQuery(q) && Follow(envs, q, fs, n).Complete?
    ensures Follow(envs, q, fs, n).reported == MatchesFrom(q, fs, 0, 0)
  {
    FollowKeepsTrack(envs, q, fs, n, |fs|);
  }

  /** Nothing is reported early either: an unfinished chain has reported a prefix of them. */
  lemma PagingPrefix(envs: nat -> Env, q: Query, fs: seq<SourceFile>, n: nat)
    requires Tree(fs) && ValidQuery(q) && Follow(envs, q, fs, n).Asking?
    ensures Follow(envs, q, fs, n).reported <= MatchesFrom(q, fs, 0, 0)
  {
    FollowKeepsTrack(envs, q, fs, n, |fs|);
  }

  /** Progress: in a tree without empty files, the cursor a page returns is strictly ahead of the one it was given. */
  lemma CursorAdvances(env: Env, q: Query, fs: seq<SourceFile>, cursor: Option<Cursor>, k: nat, r: nat) returns (k2: nat, r2: nat)
    requires Tree(fs) && NoneEmpty(fs) && ValidQuery(q) && k <= |fs| && Stands(q, fs, cursor, k, r)
    requires PageOf(env, q, fs, cursor).Page? && PageOf(env, q, fs, cursor).next.Some?
    ensures k2 <= |fs| && Stands(q, fs, PageOf(env, q, fs, cursor).next, k2, r2)
    ensures Weight(fs, PageOf(env, q, fs, cursor).next, k2, r2) > Weight(fs, cursor, k, r)
    ensures PageOf(env, q, fs, cursor).matches + MatchesFrom(q, fs, k2, r2) == MatchesFrom(q, fs, k, r)
  {
    WalkPages(env, q, fs, cursor, k, r, 0, |fs|);
    var aim := PageAim(q, fs, cursor, k, r, 0, |fs|);
    var run := Walk(env, q, fs, cursor).run;
    k2, r2 :| StandsFor(aim, run.matches, run.stop.value.state, k2, r2);
  }

  lemma WeightBounded(q: Query, fs: seq<SourceFile>, cursor: Option<Cursor>, k: nat, r: nat)
    requires k <= |fs| && Stands(q, fs, cursor, k, r)
    ensures Weight(fs, cursor, k, r) <= Offset(fs, |fs|)
  {
    if k < |fs| {
      OffsetIncreases(fs, k, |fs|);
    }
  }

  /** So a chain cannot outlast the places of its tree. */
  lemma PagingTerminates(envs: nat -> Env, q: Query, fs: seq<SourceFile>, n: nat)
    requires Tree(fs) && NoneEmpty(fs) && ValidQuery(q) && n > Offset(fs, |fs|)
    ensures !Follow(envs, q, fs, n).Asking?
  {
    FollowKeepsTrack(envs, q, fs, n, |fs|);
    if Follow(envs, q, fs, n).Asking? {
      var cursor, reported := Follow(envs, q, fs, n).cursor, Follow(envs, q, fs, n).reported;
      var k: nat, r: nat :| k <= |fs| && Standing(q, fs, cursor, k, r, reported) && Weight(fs, cursor, k, r) >= n;
      WeightBounded(q, fs, cursor, k, r);
    }
  }

  /** In a tree with an empty file no chain ever completes. */
  lemma NeverCompletes(envs: nat -> Env, q: Query, fs: seq<SourceFile>, n: nat)
    requires Tree(fs) && ValidQuery(q) && !NoneEmpty(fs)
    ensures !Follow(envs, q, fs, n).Complete?
  {
    var z :| 0 <= z < |fs| && |fs[z].lines| == 0;
    FollowKeepsTrack(envs, q, fs, n, z);
  }

  /** The exact limit of paging: a caller none of whose pages is refused finishes if and only if no file is empty. */
  lemma CompletesIffNoneEmpty(envs: nat -> Env, q: Query, fs: seq<SourceFile>)
    requires Tree(fs) && ValidQuery(q)
    requires forall n: nat :: !Follow(envs, q, fs, n).Aborted?
    ensures (exists n: nat :: Follow(envs, q, fs, n).Complete?) <==> NoneEmpty(fs)
  {
    if NoneEmpty(fs) {
      var n := Offset(fs, |fs|) + 1;
      PagingTerminates(envs, q, fs, n);
      assert Follow(envs, q, fs, n).Complete?;
    } else {
      forall n: nat ensures !Follow(envs, q, fs, n).Complete? {
        NeverCompletes(envs, q, fs, n);
      }
    }
  }

  /** How an empty file holds a chain: asked to continue right before it, a page returns the cursor it was given. */
  lemma EmptyFileHoldsCursor(env: Env, q: Query, fs: seq<SourceFile>, from: Cursor, k: nat)
    requires Tree(fs) && ValidQuery(q) && Stands(q, fs, Some(from), k, 0) && from.partial.None?
    requires k < |fs| && |fs[k].lines| == 0 && (forall i :: 0 <= i <= k ==> env.opens(fs[i].position).None?)
    ensures var ending := Walk(env, q, fs, Some(from));
            ending.Ended? && ending.run.matches == [] && ending.run.stop == Some(Stop(ByteLimit, from))
  {
    HeldAt(env, q, fs, from, k, 0, NEW_RUN);
  }

  lemma {:induction false} HeldAt(env: Env, q: Query, fs: seq<SourceFile>, from: Cursor, k: nat, i: nat, run: Run)
    requires Tree(fs) && ValidQuery(q) && Stands(q, fs, Some(from), k, 0) && from.partial.None?
    requires k < |fs| && |fs[k].lines| == 0 && (forall i :: 0 <= i <= k ==> env.opens(fs[i].position).None?)
    requires i < k && run == NEW_RUN.(work := run.work, prefix := Digest(fs, i))
    ensures var ending := ScanEntry(env, q, fs, Some(from), Enter(env, from, fs, i, run));
            ending.Ended? && ending.run.matches == [] && ending.run.stop == Some(Stop(ByteLimit, from))
    decreases k - i
  {
    PositionOrder(fs, i, k - 1);
    PositionOrder(fs, k - 1, i);
    BeforeAsymmetric(fs[i].position, fs[k - 1].position);
    if i < k - 1 {
      HeldAt(env, q, fs, from, k, i + 1, run.(work := run.work.(validated := run.work.validated + 1), prefix := Digest(fs, i + 1)));
    }
  }
}
