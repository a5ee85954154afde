/** Context windows: what a match carries, and that a restart at any checkpoint continues the scan exactly. */
module GrepContext {
  import opened Ordering
  import opened GrepScan
  import opened GrepPage
  import opened GrepPaging

  lemma {:induction false} ContextLinesAt(ls: seq<Line>, a: nat, b: nat, k: nat)
    requires a <= b <= |ls|
    ensures |ContextLines(ls, a, b)| == b - a
    ensures a <= k < b ==> ContextLines(ls, a, b)[k - a] == ContextLine(k + 1, ls[k].text)
    decreases b
  {
    if a < b {
      ContextLinesAt(ls, a, b - 1, k);
    }
  }

  /** A reported match shows the lines just before and just after its own, as many as asked for and as the file has. */
  lemma WindowIsClipped(q: Query, f: SourceFile, i: nat)
    requires i < |f.lines|
    ensures var m, c := Reported(q, f, i), q.contextLines;
            && m.line == i + 1 && |m.before| == Min(c, i) && |m.after| == Min(c, |f.lines| - i - 1)
            && (forall j: nat :: j < |m.before| ==> m.before[j] == ContextLine(i - |m.before| + j + 1, f.lines[i - |m.before| + j].text))
            && (forall j: nat :: j < |m.after| ==> m.after[j] == ContextLine(i + j + 2, f.lines[i + 1 + j].text))
  {
    var m, c := Reported(q, f, i), q.contextLines;
    var a, b := ContextStart(0, c, i), Min(i + 1 + c, |f.lines|);
    ContextLinesAt(f.lines, a, i, a);
    ContextLinesAt(f.lines, i + 1, b, i + 1);
    forall j: nat | j < |m.before| ensures m.before[j] == ContextLine(i - |m.before| + j + 1, f.lines[i - |m.before| + j].text) {
      ContextLinesAt(f.lines, a, i, a + j);
    }
    forall j: nat | j < |m.after| ensures m.after[j] == ContextLine(i + j + 2, f.lines[i + 1 + j].text) {
      ContextLinesAt(f.lines, i + 1, b, i + 1 + j);
    }
  }

  /** Where a scan stops does not depend on the line it is looked at from. */
  lemma {:induction false} StopsAlike(q: Query, job: Job, i: nat, j: nat)
    requires job.start <= i <= j <= |job.file.lines| && j <= StopLine(q, job, i)
    ensures StopLine(q, job, j) == StopLine(q, job, i)
    ensures j < StopLine(q, job, i) ==> ReadLine(q, job.file.lines, j, BudgetEnd(job)).GotLine? && Judge(q, job, FirstWanted(job), j).Proceed?
    decreases j - i
  {
    if i < j {
      StopsAlike(q, job, i + 1, j);
    }
  }

  /** With budget for the whole file, reading a line does not depend on how much more there is. */
  lemma ReadAgrees(q: Query, ls: seq<Line>, i: nat, b1: nat, b2: nat)
    requires i <= |ls| && b1 >= Start(ls, |ls|) && b2 >= Start(ls, |ls|)
    ensures ReadLine(q, ls, i, b1) == ReadLine(q, ls, i, b2) && !ReadLine(q, ls, i, b1).LineBudget?
  {
    if i < |ls| {
      StartGrows(ls, i + 1, |ls|);
    }
  }

  /** A line a whole scan passes is passed by a restart too. */
  lemma JudgeAgrees(q: Query, f: SourceFile, whole: Job, job: Job, p: nat, i: nat)
    requires Solid(f.lines) && Canonical(q, f, 0, whole) && Canonical(q, f, p, job) && job.start <= i < |f.lines|
    requires Judge(q, whole, 0, i).Proceed?
    ensures Judge(q, job, p, i).Proceed?
  {
    var ls, c := f.lines, q.contextLines;
    assert AnyHit(ls, Waiting(p, c, i), i) ==> AnyHit(ls, Waiting(0, c, i), i);
    assert AnyLarge(ls, ContextStart(job.start, c, i), i) ==> AnyLarge(ls, ContextStart(0, c, i), i);
  }

  /** A line that stops a whole scan stops a restart from before the matches still waiting there, for the same reason. */
  lemma JudgeStops(q: Query, f: SourceFile, whole: Job, job: Job, p: nat, e: nat)
    requires Solid(f.lines) && Canonical(q, f, 0, whole) && Canonical(q, f, p, job) && e < |f.lines|
    requires ReadLine(q, f.lines, e, BudgetEnd(whole)).GotLine? && FirstWanted(whole) == 0
    requires !Judge(q, whole, 0, e).Proceed? && p <= Delivered(q, whole, e)
    ensures job.start <= p <= e && Judge(q, job, p, e) == Judge(q, whole, 0, e)
  {
    var ls, c := f.lines, q.contextLines;
    assert e + 1 >= p + c || p == 0;
    assert ContextStart(job.start, c, e) == ContextStart(0, c, e);
    if Waiting(p, c, e) != Waiting(0, c, e) {
      assert AnyHit(ls, Waiting(p, c, e), e) ==> AnyHit(ls, Waiting(0, c, e), e);
    }
  }

  lemma {:induction false} RestartStops(q: Query, f: SourceFile, whole: Job, job: Job, p: nat, i: nat)
    requires Solid(f.lines) && Canonical(q, f, 0, whole) && Canonical(q, f, p, job) && FirstWanted(whole) == 0 && FirstWanted(job) == p
    requires BudgetEnd(whole) >= Start(f.lines, |f.lines|) && BudgetEnd(job) >= Start(f.lines, |f.lines|)
    requires var e := StopLine(q, whole, 0); job.start <= i <= e && p <= Delivered(q, whole, e)
    ensures StopLine(q, job, i) == StopLine(q, whole, 0)
    decreases |f.lines| - i
  {
    var e := StopLine(q, whole, 0);
    ReadAgrees(q, f.lines, i, BudgetEnd(whole), BudgetEnd(job));
    StopsAlike(q, whole, 0, i);
    hide StopLine, Judge, ReadLine, Delivered, FirstWanted;
    if i < e {
      JudgeAgrees(q, f, whole, job, p, i);
      RestartStops(q, f, whole, job, p, i + 1);
      StopUnfolds(q, job, i);
    } else {
      StopUnfolds(q, whole, e);
      if ReadLine(q, f.lines, e, BudgetEnd(whole)).GotLine? && e < |f.lines| {
        JudgeStops(q, f, whole, job, p, e);
      }
      StopUnfolds(q, job, e);
      assert e == |f.lines| ==> ReadLine(q, f.lines, e, BudgetEnd(job)) == Eof by {
        AtEof(q, f.lines, BudgetEnd(job));
      }
    }
  }

  lemma AtEof(q: Query, ls: seq<Line>, budget: nat)
    ensures ReadLine(q, ls, |ls|, budget) == Eof
  {
  }

  lemma StopUnfolds(q: Query, job: Job, i: nat)
    requires job.start <= i <= |job.file.lines|
    ensures StopLine(q, job, i) == (if !ReadLine(q, job.file.lines, i, BudgetEnd(job)).GotLine? || i == |job.file.lines| then i
                                    else if Judge(q, job, FirstWanted(job), i).Proceed? then StopLine(q, job, i + 1) else i)
  {
  }

  lemma {:induction false} SameCandidates(q: Query, f: SourceFile, whole: Job, job: Job, p: nat, upto: Reads, e: nat, b: nat)
    requires Canonical(q, f, 0, whole) && Canonical(q, f, p, job) && p <= b <= |f.lines|
    ensures CandidateEvents(q, whole, upto, e, 0, b) == CandidateEvents(q, whole, upto, e, 0, p) + CandidateEvents(q, job, upto, e, p, b)
    decreases b
  {
    if p < b {
      SameCandidates(q, f, whole, job, p, upto, e, b - 1);
    }
  }

  /** A restart delivers as far as the whole scan, and closes with the same event. */
  lemma RestartCloses(q: Query, f: SourceFile, whole: Job, job: Job, p: nat, upto: Reads, e: nat)
    requires Solid(f.lines) && Canonical(q, f, 0, whole) && Canonical(q, f, p, job) && FirstWanted(whole) == 0 && FirstWanted(job) == p
    requires BudgetEnd(whole) >= Start(f.lines, |f.lines|) && BudgetEnd(job) >= Start(f.lines, |f.lines|)
    requires e == StopLine(q, whole, 0) && job.start <= p <= Delivered(q, whole, e) && p <= e
    ensures Delivered(q, job, e) == Delivered(q, whole, e) && LastEvent(q, job, upto, e) == LastEvent(q, whole, upto, e)
  {
    ReadAgrees(q, f.lines, e, BudgetEnd(whole), BudgetEnd(job));
    if e < |f.lines| && ReadLine(q, f.lines, e, BudgetEnd(whole)).GotLine? {
      StopsAlike(q, whole, 0, e);
      StopUnfolds(q, whole, e);
      JudgeStops(q, f, whole, job, p, e);
      hide Judge, ReadLine;
    } else {
      hide Judge;
    }
  }

  /**
   * Restarting at any line up to which a scan of the whole file has delivered its matches, so at any candidate's
   * emission or retry checkpoint, sends exactly the events the whole scan sends from there on, whether it gets to the
   * end or is stopped by a line: the same matches, context windows, checkpoints and closing event.
   */
  lemma RestartContinues(q: Query, f: SourceFile, whole: Job, job: Job, p: nat, upto: Reads)
    requires Solid(f.lines) && Canonical(q, f, 0, whole) && Canonical(q, f, p, job)
    requires BudgetEnd(whole) >= Start(f.lines, |f.lines|) && BudgetEnd(job) >= Start(f.lines, |f.lines|)
    requires p <= Delivered(q, whole, StopLine(q, whole, whole.start))
    ensures Events(q, whole, upto) == CandidateEvents(q, whole, upto, StopLine(q, whole, whole.start), 0, p) + Events(q, job, upto)
  {
    CanonicalResumes(q, f, 0, whole);
    CanonicalResumes(q, f, p, job);
    var e := StopLine(q, whole, 0);
    assert p <= Delivered(q, whole, e) <= e <= |f.lines|;
    RestartStops(q, f, whole, job, p, job.start);
    RestartCloses(q, f, whole, job, p, upto, e);
    SameCandidates(q, f, whole, job, p, upto, e, Delivered(q, whole, e));
    hide CandidateEvents, LastEvent, Delivered, StopLine;
  }

  /** The job a page schedules from a candidate's checkpoint is the canonical restart behind or at that candidate. */
  lemma CheckpointsRestart(env: Env, q: Query, f: SourceFile, i: nat, bytes: nat, retry: bool)
    requires Solid(f.lines) && i < |f.lines| && bytes < q.maxBytes && q.maxFiles > 0 && env.opens(f.position).None?
    ensures var candidate := CandidateAt(q, f, 0, i);
            var a := Admit(env, q, f, Some(Partial(f.fingerprint, if retry then candidate.retry else candidate.emission)), 0, bytes);
            a.Admitted? && a.item.ScanItem? && Canonical(q, f, if retry then i else i + 1, a.item.job)
  {
    var p := if retry then i else i + 1;
    var coords := At(f.lines, 0, q.contextLines, p);
    var s, n := ContextStart(0, q.contextLines, p), |f.lines|;
    StartInjective(f.lines, s, n);
    StartInjective(f.lines, p, n);
    StartInjective(f.lines, ResumeLine(f.lines, 0, coords.contextOffset), s);
  }

  // ---- scans that nothing cuts short ------------------------------------------------------------

  /** Every line is valid UTF-8 and, for a regular expression, small enough to be held and shown. */
  ghost predicate Readable(q: Query, f: SourceFile) {
    Solid(f.lines) && forall i :: 0 <= i < |f.lines| ==> f.lines[i].utf8 && (q.regex ==> f.lines[i].size <= HEAP_LINE_BYTES)
  }

  function WholeJob(f: SourceFile): Job {
    Job(f, 0, 0, Start(f.lines, |f.lines|))
  }

  lemma {:induction false} WholeScanReaches(q: Query, f: SourceFile, i: nat)
    requires Readable(q, f) && i <= |f.lines|
    ensures StopLine(q, WholeJob(f), i) == |f.lines|
    decreases |f.lines| - i
  {
    if i < |f.lines| {
      if i + 1 < |f.lines| {
        StartIncreases(f.lines, i + 1, |f.lines|);
      }
      WholeScanReaches(q, f, i + 1);
    }
  }

  lemma {:induction false} NoCandidates(q: Query, job: Job, upto: Reads, e: nat, a: nat, b: nat)
    requires b <= |job.file.lines| && forall i :: a <= i < b ==> !Hit(job.file.lines, i)
    ensures CandidateEvents(q, job, upto, e, a, b) == []
    decreases b
  {
    if a < b {
      NoCandidates(q, job, upto, e, a, b - 1);
    }
  }

  /** A whole valid file without a match sends one event. */
  lemma SilentScan(q: Query, f: SourceFile, upto: Reads)
    requires Readable(q, f) && forall j :: 0 <= j < |f.lines| ==> f.lines[j].hits == 0
    ensures Events(q, WholeJob(f), upto) == [FullEvent(upto(|f.lines|))]
  {
    WholeScanReaches(q, f, 0);
    NoCandidates(q, WholeJob(f), upto, |f.lines|, FirstWanted(WholeJob(f)), |f.lines|);
  }

  // ---- what is too large, and what is misplaced -------------------------------------------------

  lemma {:induction false} PassedLines(q: Query, job: Job, i: nat, j: nat)
    requires job.start <= i <= j < |job.file.lines| && j < StopLine(q, job, i)
    ensures Judge(q, job, FirstWanted(job), j).Proceed?
    decreases j - i
  {
    if i < j {
      PassedLines(q, job, i + 1, j);
    }
  }

  /**
   * For a regular expression nothing large is ever shown: neither the line of a delivered match nor any line of its
   * window is.
   */
  lemma NothingLargeIsShown(q: Query, job: Job, i: nat, j: nat)
    requires q.regex && job.start <= |job.file.lines| && FirstWanted(job) <= i < Delivered(q, job, StopLine(q, job, job.start))
    requires job.file.lines[i].hits > 0
    requires ContextStart(job.start, q.contextLines, i) <= j < |job.file.lines| && j <= i + q.contextLines
    ensures job.file.lines[j].size <= 65536
  {
    var ls, c, r, e := job.file.lines, q.contextLines, FirstWanted(job), StopLine(q, job, job.start);
    assert i < e;
    PassedLines(q, job, job.start, i);
    if j > i {
      assert j < e || !ReadLine(q, ls, e, BudgetEnd(job)).GotLine? || Judge(q, job, r, e).UnfitMatch?;
      if j < e {
        PassedLines(q, job, job.start, j);
        assert Hit(ls, i) && Waiting(r, c, j) <= i < j;
      } else {
        assert Hit(ls, i) && Waiting(r, c, e) <= i < e;
      }
    } else if j < i {
      assert Large(ls, j) ==> AnyLarge(ls, ContextStart(job.start, c, i), i);
    }
  }

  /** A literal is never unfit, and a regular expression only for a large line. */
  lemma {:induction false} UnfitOnlyForLarge(q: Query, job: Job, upto: Reads)
    requires job.start <= |job.file.lines|
    ensures LastEvent(q, job, upto, StopLine(q, job, job.start)).UnfitEvent? ==>
              q.regex && exists k :: 0 <= k < |job.file.lines| && job.file.lines[k].size > 65536
  {
    var ls, e := job.file.lines, StopLine(q, job, job.start);
    StopUnfoldsAt(q, job, job.start);
    if LastEvent(q, job, upto, e).UnfitEvent? {
      assert Large(ls, e) || AnyLarge(ls, ContextStart(job.start, q.contextLines, e), e);
      if Large(ls, e) {
        assert ls[e].size > 65536;
      } else {
        var k :| ContextStart(job.start, q.contextLines, e) <= k < e && Large(ls, k);
        assert ls[k].size > 65536;
      }
    }
  }

  lemma {:induction false} StopUnfoldsAt(q: Query, job: Job, i: nat)
    requires job.start <= i <= |job.file.lines|
    ensures var e := StopLine(q, job, i);
            e == |job.file.lines| || !ReadLine(q, job.file.lines, e, BudgetEnd(job)).GotLine? || !Judge(q, job, FirstWanted(job), e).Proceed?
    decreases |job.file.lines| - i
  {
    StopUnfolds(q, job, i);
    hide ReadLine, Judge;
    if StopLine(q, job, i) != i {
      StopUnfoldsAt(q, job, i + 1);
    }
  }

  /** A resume offset at which no line of the file begins is found out at the line behind it, and nothing is reported. */
  lemma MisplacedIsStale(q: Query, job: Job, upto: Reads)
    requires Readable(q, job.file) && job.start <= |job.file.lines| && BudgetEnd(job) >= Start(job.file.lines, |job.file.lines|)
    requires var r := FirstWanted(job); r < |job.file.lines| && Start(job.file.lines, r) != job.resumeOffset
    ensures Events(q, job, upto) == [ErrorEvent(upto(FirstWanted(job)), CursorStale)]
  {
    StopsWhenMisplaced(q, job, job.start);
    var r := FirstWanted(job);
    StartGrows(job.file.lines, r + 1, |job.file.lines|);
    assert Delivered(q, job, r) <= r;
    NoCandidates(q, job, upto, r, r, Delivered(q, job, r));
  }

  lemma {:induction false} StopsWhenMisplaced(q: Query, job: Job, i: nat)
    requires Readable(q, job.file) && job.start <= |job.file.lines| && BudgetEnd(job) >= Start(job.file.lines, |job.file.lines|)
    requires var r := FirstWanted(job); job.start <= i <= r < |job.file.lines| && Start(job.file.lines, r) != job.resumeOffset
    ensures StopLine(q, job, i) == FirstWanted(job)
    decreases FirstWanted(job) - i
  {
    StartGrows(job.file.lines, i + 1, |job.file.lines|);
    StopUnfolds(q, job, i);
    if i < FirstWanted(job) {
      StopsWhenMisplaced(q, job, i + 1);
    }
  }
}
