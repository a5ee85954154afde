/**
 * Exactly when the interleaving does not matter. An error reduced while the walk goes on cancels the workers before
 * everything pending is reduced: such a run can wait for ever. Every other run ends with the page of one file at a time.
 */
module GrepExposure {
  import opened Ordering
  import opened GrepScan
  import opened GrepPage
  import opened GrepPaging
  import opened GrepContext
  import opened GrepConcurrent

  // ---- what can fail a job ----------------------------------------------------------------------

  ghost predicate Ascends(events: seq<Event>) {
    forall i, j :: 0 <= i <= j < |events| ==> events[i].bytes <= events[j].bytes
  }

  lemma {:induction false} CandidatesAscend(env: Env, q: Query, job: Job, e: nat, a: nat, b: nat)
    requires b <= |job.file.lines|
    ensures var events := CandidateEvents(q, job, ReadsOf(env, job), e, a, b);
            Ascends(events) && forall i :: 0 <= i < |events| ==> events[i].bytes <= UpTo(env, job, Min(b + q.contextLines, e))
    decreases b
  {
    if a < b {
      CandidatesAscend(env, q, job, e, a, b - 1);
      UpToGrows(env, job, Min(b - 1 + q.contextLines, e), Min(b + q.contextLines, e));
    }
  }

  /** The byte count a worker sends never goes down. */
  lemma StreamAscends(env: Env, q: Query, item: Item)
    ensures Ascends(Stream(env, q, item))
  {
    if item.ScanItem? {
      var job := item.job;
      var e := StopLine(q, job, job.start);
      var d := Delivered(q, job, e);
      CandidatesAscend(env, q, job, e, FirstWanted(job), d);
      UpToGrows(env, job, Min(d + q.contextLines, e), e);
    }
  }

  function Last(events: seq<Event>): Event
    requires |events| > 0
  {
    events[|events| - 1]
  }

  /** A response with one match always fits. */
  ghost predicate OneFits(env: Env) {
    forall ms, reason, state, work :: |ms| <= 1 ==> env.fits(ms, reason, state, work)
  }

  /** A job fails only for its response, or at its closing event. */
  lemma {:induction false} StreamFails(c: Config, run: Run, head: Head, item: Item, events: seq<Event>)
    requires Closing(events) && Ascends(events) && head.accepted <= events[0].bytes
    requires item.FailedItem? ==> |events| == 1 && events[0].ErrorEvent?
    ensures var outcome := ReduceStream(c.env, c.q, c.resume, run, head, item, events).1;
            outcome.Failed? ==>
              || (outcome.error == ResponseTooLarge && !(OneFits(c.env) && !Last(events).UnfitEvent? && |run.matches| == |run.states|))
              || (outcome.error == LimitExceeded && Last(events).PartialEvent?)
              || (Last(events) == ErrorEvent(Last(events).bytes, outcome.error))
    decreases |events|
  {
    var (next, head', outcome) := Reduce(c.env, c.q, c.resume, run, head, item, events[0]);
    if outcome.More? {
      assert events[0].CandidateEvent?;
      var rest := events[1..];
      assert forall i :: 0 <= i < |rest| ==> rest[i] == events[i + 1];
      assert Last(rest) == Last(events);
      StreamFails(c, next, head', item, rest);
    }
  }

  predicate Cause(error: GrepError) {
    error == ResponseTooLarge || error == InputTooLarge || error == InvalidUTF8 || error == CursorStale
  }

  lemma LastOfStream(env: Env, q: Query, job: Job)
    requires job.start <= |job.file.lines|
    ensures Last(Stream(env, q, ScanItem(job))) == LastEvent(q, job, ReadsOf(env, job), StopLine(q, job, job.start))
    ensures Last(Stream(env, q, ScanItem(job))).ErrorEvent? ==> Cause(Last(Stream(env, q, ScanItem(job))).error)
  {
  }

  lemma PartialIsCut(env: Env, q: Query, job: Job)
    requires job.start <= |job.file.lines| && Last(Stream(env, q, ScanItem(job))).PartialEvent?
    ensures Start(job.file.lines, job.start) + job.allowance < Start(job.file.lines, |job.file.lines|)
  {
    var ls, e := job.file.lines, StopLine(q, job, job.start);
    LastOfStream(env, q, job);
    hide StopLine, Judge, BudgetEvent, Stream;
    assert ReadLine(q, ls, e, BudgetEnd(job)).LineBudget?;
    StartGrows(ls, e + 1, |ls|);
  }

  /** A scan that its allowance cuts short has the last of the page's budget: nothing is scheduled behind it. */
  lemma CutIsLast(c: Config, k: nat, partial: Option<Partial>, files: nat, bytes: nat, item: Item, cost: nat)
    requires k < |c.fs| && Admit(c.env, c.q, c.fs[k], partial, files, bytes) == Admitted(item, cost)
    requires item.ScanItem? && Last(Stream(c.env, c.q, item)).PartialEvent?
    ensures !WalksOn(c, k + 1, None, files + 1, bytes + cost, 0)
  {
    hide Stream;
    PartialIsCut(c.env, c.q, item.job);
    StaleIffNotThere(c.fs[k], partial, if partial.Some? then partial.value.coords.contextOffset else 0, cost);
    assert bytes + cost >= c.q.maxBytes;
  }

  lemma JobFails(c: Config, run: Run, k: nat, partial: Option<Partial>, files: nat, bytes: nat, item: Item, cost: nat)
    requires k < |c.fs| && Admit(c.env, c.q, c.fs[k], partial, files, bytes) == Admitted(item, cost)
    ensures var outcome := ReduceStream(c.env, c.q, c.resume, run, FRESH, item, Stream(c.env, c.q, item)).1;
            outcome.Failed? && WalksOn(c, k + 1, None, files + 1, bytes + cost, 0) ==> Cause(outcome.error)
  {
    hide WalksOn, ReduceStream;
    StreamCloses(c, item);
    StreamAscends(c.env, c.q, item);
    StreamFails(c, run, FRESH, item, Stream(c.env, c.q, item));
    if item.ScanItem? {
      LastOfStream(c.env, c.q, item.job);
      if Last(Stream(c.env, c.q, item)).PartialEvent? {
        CutIsLast(c, k, partial, files, bytes, item, cost);
      }
    }
  }

  /** An exposed run is one that reduces an error which cancels the request. */
  lemma {:induction false} ExposedCause(c: Config, run: Run, k: nat, partial: Option<Partial>, files: nat, bytes: nat, failed: bool)
    requires k <= |c.fs|
    ensures var f := Foresee(c, run, k, partial, files, bytes, failed); f.exposed ==> Cause(f.ending.error)
    decreases |c.fs| - k, if failed then 0 else 1
  {
    hide Admit, EmptyAhead, ReduceStream, Stream, WalksOn, LimitStop, Cause;
    if k < |c.fs| {
      if !failed && EmptyAhead(c.env, c.q, c.fs, k, partial, files, bytes, WORKER_CEILING - 1) {
        ExposedCause(c, run, k, partial, files, bytes, true);
      } else {
        var a := Admit(c.env, c.q, c.fs[k], partial, files, bytes);
        if a.Admitted? {
          JobFails(c, run, k, partial, files, bytes, a.item, a.cost);
          var (next, outcome) := ReduceStream(c.env, c.q, c.resume, run, FRESH, a.item, Stream(c.env, c.q, a.item));
          ExposedCause(c, next, k + 1, None, files + 1, bytes + a.cost, failed);
        }
      }
    }
  }

  lemma CausesCancel(c: Config, s: State)
    requires s.base < |s.jobs| == |s.channels| && s.channels[s.base] != [] && !s.canceled
    ensures var (next, outcome) := ReduceOldest(c, s).value; outcome.Failed? && Cause(outcome.error) ==> next.canceled
  {
  }

  // ---- a run that waits for ever ----------------------------------------------------------------

  lemma {:induction false} NoWalkNotExposed(c: Config, run: Run, items: seq<Item>, tail: Tail)
    requires tail.NoMore? || tail.Failing?
    ensures !Rest(c, run, items, tail).exposed
    decreases |items|
  {
    hide ReduceStream, Stream;
    if items != [] {
      var (next, outcome) := ReduceStream(c.env, c.q, c.resume, run, FRESH, items[0], Stream(c.env, c.q, items[0]));
      NoWalkNotExposed(c, next, items[1..], tail);
    }
  }

  /** While a run can still be exposed, its walk is not over. */
  lemma ExposedStillWalks(c: Config, s: State, m: Memory, reference: Forecast)
    requires Live(c, s, m, reference) && reference.exposed
    ensures s.control.Visiting? || s.control.MakingRoom? || (s.control.Draining? && s.base < |s.jobs|)
  {
    hide ReduceStream, Stream, Closing, TakenJobs, QueuedJobs;
    if s.control.Finishing? || s.control.Done? {
      if s.base < |s.jobs| {
        var items := s.jobs[s.base..];
        var (next, outcome) := ReduceStream(c.env, c.q, c.resume, s.run, s.head, items[0], m.left[s.base]);
        NoWalkNotExposed(c, next, items[1..], TailOf(s));
      }
    }
  }

  /** Only the oldest job has been taken by a worker. */
  predicate Lazy(s: State) {
    forall id :: s.base < id < |s.jobs| ==> id in s.queue
  }

  /** The request is canceled, and the visitor waits for a job that no worker has taken. */
  ghost predicate Caught(s: State) {
    && s.canceled && s.control.Finishing? && s.run.stop.None?
    && s.base < |s.jobs| == |s.channels| && s.channels[s.base] == [] && s.base in s.queue
  }

  lemma LazyVisit(c: Config, s: State, m: Memory, reference: Forecast) returns (m': Memory)
    requires ValidConfig(c) && Live(c, s, m, reference) && reference.exposed && Lazy(s) && s.control.Visiting?
    ensures var next := Visit(c, s, s.control.k, s.control.partial); Live(c, next, m', reference) && Lazy(next)
  {
    m' := VisitKeeps(c, s, m, reference);
    hide Admit, EnsureWorkers, LimitStop, Remaining, TakenJobs, QueuedJobs, Reduced;
    ExposedStillWalks(c, Visit(c, s, s.control.k, s.control.partial), m', reference);
  }

  lemma LazyReduction(c: Config, s: State, m: Memory, reference: Forecast) returns (s': State, m': Memory)
    requires ValidConfig(c) && Live(c, s, m, reference) && reference.exposed && Cause(reference.ending.error) && Lazy(s)
    requires !s.control.Visiting? && s.base < |s.jobs| && s.channels[s.base] != []
    ensures VisitorNext(c, s) == Some(s') && (Caught(s') || (Live(c, s', m', reference) && Lazy(s')))
  {
    ExposedStillWalks(c, s, m, reference);
    VisitorMoves(c, s, m, reference);
    s' := VisitorNext(c, s).value;
    AfterReduction(c, s, s');
    ReduceKeeps(c, s, m, reference);
    ReductionBounded(c, s);
    CausesCancel(c, s);
    m' := m.(left := m.left[s.base := m.left[s.base][1..]]);
    var (next, outcome) := ReduceOldest(c, s).value;
    SameQueue(c, s);
    hide ReduceOldest, VisitorNext, Remaining, TakenJobs, Reduce;
    if outcome.Failed? {
      LazyNext(c, s, m);
      assert GrepConcurrent.Pending(s) > 1;
    }
  }

  lemma SameQueue(c: Config, s: State)
    requires s.base < |s.jobs| == |s.channels| && ReduceOldest(c, s).Some?
    ensures var (next, outcome) := ReduceOldest(c, s).value;
            next.queue == s.queue && |next.channels| == |s.channels| && forall id :: s.base < id < |s.channels| ==> next.channels[id] == s.channels[id]
  {
    hide Reduce;
  }

  /** The job behind the oldest has sent nothing. */
  lemma LazyNext(c: Config, s: State, m: Memory)
    requires QueuedJobs(c, s, m) && Lazy(s)
    ensures s.base + 1 < |s.jobs| ==> s.base + 1 in s.queue && s.channels[s.base + 1] == []
  {
    hide Stream;
  }

  lemma LazyTake(s: State, s': State)
    requires Lazy(s) && |s.queue| > 0 && s.queue[0] == s.base && s'.queue == s.queue[1..] && s'.base == s.base && s'.jobs == s.jobs
    ensures Lazy(s')
  {
    assert s.queue == [s.queue[0]] + s.queue[1..];
    forall id | s.base < id < |s.jobs| ensures id in s'.queue {
      assert id in s.queue;
    }
  }

  lemma LazyWorker(c: Config, s: State, m: Memory, reference: Forecast) returns (s': State, m': Memory)
    requires Live(c, s, m, reference) && Lazy(s) && s.base < |s.jobs| && s.channels[s.base] == []
    ensures Step(c, s, s') && Live(c, s', m', reference) && Lazy(s')
  {
    HeadIsServed(c, s, m, reference);
    m' := m;
    if w :| 0 <= w < |s.workers| && s.workers[w].Scanning? && s.workers[w].id == s.base && s.workers[w].todo != [] {
      var todo := s.workers[w].todo;
      s' := s.(channels := s.channels[s.base := [todo[0]]], workers := s.workers[w := Scanning(s.base, todo[1..])]);
      SendKeeps(c, s, m, reference, w);
      assert WorkerStep(c, s, w, s');
    } else if s.workers[0].Idle? {
      s' := s.(queue := s.queue[1..], workers := s.workers[0 := Scanning(s.queue[0], Stream(c.env, c.q, s.jobs[s.queue[0]]))]);
      m' := m.(front := m.front + 1);
      TakeKeeps(c, s, m, reference, 0);
      LazyTake(s, s');
      assert WorkerStep(c, s, 0, s');
    } else {
      s' := s.(workers := s.workers[0 := Idle]);
      FinishKeeps(c, s, m, reference, 0);
      assert WorkerStep(c, s, 0, s');
    }
  }

  lemma LazyStep(c: Config, s: State, m: Memory, reference: Forecast) returns (s': State, m': Memory)
    requires ValidConfig(c) && Live(c, s, m, reference) && reference.exposed && Cause(reference.ending.error) && Lazy(s)
    ensures Step(c, s, s') && (Caught(s') || (Live(c, s', m', reference) && Lazy(s')))
  {
    ExposedStillWalks(c, s, m, reference);
    if s.control.Visiting? {
      m' := LazyVisit(c, s, m, reference);
      s' := Visit(c, s, s.control.k, s.control.partial);
      hide Visit;
      assert VisitorNext(c, s) == Some(s');
    } else if s.channels[s.base] == [] {
      s', m' := LazyWorker(c, s, m, reference);
    } else {
      s', m' := LazyReduction(c, s, m, reference);
    }
  }

  lemma Extend(c: Config, states: seq<State>, s': State)
    requires Execution(c, states) && Step(c, states[|states| - 1], s')
    ensures Execution(c, states + [s'])
  {
    hide Step, Begin;
  }

  /** Served one job at a time, an exposed run comes to its error with the next job still in the queue. */
  lemma {:induction false} LazyRun(c: Config, states: seq<State>, m: Memory) returns (longer: seq<State>)
    requires ValidConfig(c) && Execution(c, states) && Expected(c).exposed && Cause(Expected(c).ending.error)
    requires Live(c, states[|states| - 1], m, Expected(c)) && Lazy(states[|states| - 1])
    ensures Execution(c, longer) && Caught(longer[|longer| - 1])
    decreases ControlWeight(c, states[|states| - 1].control), GrepConcurrent.Pending(states[|states| - 1]),
              if states[|states| - 1].control.Visiting? then 1 else 0, EventWeight(c, states[|states| - 1])
  {
    var s := states[|states| - 1];
    var s', m' := LazyStep(c, s, m, Expected(c));
    Extend(c, states, s');
    StepDecreases(c, s, s');
    longer := states + [s'];
    hide Execution, Live, Step, Expected, EventWeight, ControlWeight, Lazy;
    if !Caught(s') {
      PendingNat(c, s', m');
      longer := LazyRun(c, longer, m');
    }
  }

  lemma PendingNat(c: Config, s: State, m: Memory)
    requires EnterPage(c.env, c.fs, c.resume).Entry? && Live(c, s, m, Expected(c))
    ensures GrepConcurrent.Pending(s) >= 0
  {
  }

  /** Once the request is canceled every worker may leave, and then nothing moves. */
  lemma {:induction false} AllLeave(c: Config, states: seq<State>) returns (longer: seq<State>)
    requires Execution(c, states) && Caught(states[|states| - 1])
    ensures Execution(c, longer) && Stuck(c, longer[|longer| - 1]) && longer[|longer| - 1].control.Finishing?
    decreases WorkersWeight(states[|states| - 1].workers)
  {
    var s := states[|states| - 1];
    if w :| 0 <= w < |s.workers| && !s.workers[w].Gone? {
      var to := if s.workers[w].Idle? then Gone else Idle;
      var s' := s.(workers := s.workers[w := to]);
      assert WorkerStep(c, s, w, s');
      Extend(c, states, s');
      WorkersUpdate(s.workers, w, to);
      hide Execution;
      longer := AllLeave(c, states + [s']);
    } else {
      assert VisitorNext(c, s).None?;
      longer := states;
    }
  }

  /** A page that reduces an error while its walk goes on may never end. */
  lemma ExposedRunHangs(c: Config) returns (states: seq<State>)
    requires ValidConfig(c) && EnterPage(c.env, c.fs, c.resume).Entry? && Expected(c).exposed
    ensures Execution(c, states) && Stuck(c, states[|states| - 1]) && !states[|states| - 1].control.Done?
  {
    var entry := EnterPage(c.env, c.fs, c.resume);
    states := [Begin(entry)];
    BeginLive(c);
    ExposedCause(c, entry.run, entry.k, entry.partial, 0, 0, false);
    states := LazyRun(c, states, Memory([], 0));
    states := AllLeave(c, states);
  }

  /**
   * The exact condition. All runs of a page, however the workers and the visitor interleave, end with the page of one
   * file at a time if and only if no error is reduced while the walk waits for room or drains at a limit with another
   * job pending.
   */
  lemma ScheduleIndependence(c: Config)
    requires ValidConfig(c) && EnterPage(c.env, c.fs, c.resume).Entry?
    ensures (forall states: seq<State> :: Execution(c, states) && Stuck(c, states[|states| - 1]) ==> states[|states| - 1].control == Done(Expected(c).ending))
            <==> !Expected(c).exposed
  {
    if Expected(c).exposed {
      var states := ExposedRunHangs(c);
    } else {
      forall states: seq<State> | Execution(c, states) && Stuck(c, states[|states| - 1])
        ensures states[|states| - 1].control == Done(Expected(c).ending)
      {
        UnexposedRunsAgree(c, states);
      }
    }
  }

  // ---- vaults no run of which is exposed --------------------------------------------------------

  /** In a readable file, a scan from a place a cursor can stand ends at the end of the file or of its budget. */
  lemma ReadableLast(q: Query, f: SourceFile, r: nat, job: Job, upto: Reads)
    requires Readable(q, f) && Canonical(q, f, r, job)
    ensures var last := LastEvent(q, job, upto, StopLine(q, job, job.start)); last.FullEvent? || last.PartialEvent?
  {
    CanonicalResumes(q, f, r, job);
    StopsShort(q, job, job.start);
  }

  lemma {:induction false} StopsShort(q: Query, job: Job, i: nat)
    requires job.start <= i <= |job.file.lines|
    ensures var e := StopLine(q, job, i);
            ReadLine(q, job.file.lines, e, BudgetEnd(job)) != GotLine || Judge(q, job, FirstWanted(job), e) != Proceed
    decreases |job.file.lines| - i
  {
    hide Judge;
    if StopLine(q, job, i) != i {
      StopsShort(q, job, i + 1);
    }
  }

  lemma ReadableJobPasses(c: Config, run: Run, k: nat, partial: Option<Partial>, r: nat, files: nat, bytes: nat, item: Item, cost: nat)
    requires k < |c.fs| && Admit(c.env, c.q, c.fs[k], partial, files, bytes) == Admitted(item, cost)
    requires Readable(c.q, c.fs[k]) && Wants(c.q, c.fs[k], partial, r) && OneFits(c.env) && |run.matches| == |run.states|
    ensures var (next, outcome) := ReduceStream(c.env, c.q, c.resume, run, FRESH, item, Stream(c.env, c.q, item));
            (outcome.Failed? ==> !WalksOn(c, k + 1, None, files + 1, bytes + cost, 0)) && |next.matches| == |next.states|
  {
    hide WalksOn, ReduceStream, Readable, Wants, Admit;
    assert Solid(c.fs[k].lines) by {
      ReadableSolid(c.q, c.fs[k]);
    }
    AdmittedIsCanonical(c.env, c.q, c.fs[k], partial, r, files, bytes);
    StreamCloses(c, item);
    StreamAscends(c.env, c.q, item);
    StreamFails(c, run, FRESH, item, Stream(c.env, c.q, item));
    LastOfStream(c.env, c.q, item.job);
    ReadableLast(c.q, c.fs[k], r, item.job, ReadsOf(c.env, item.job));
    if Last(Stream(c.env, c.q, item)).PartialEvent? {
      CutIsLast(c, k, partial, files, bytes, item, cost);
    }
    StatesFollow(c, run, FRESH, item, Stream(c.env, c.q, item));
  }

  lemma ReadableSolid(q: Query, f: SourceFile)
    requires Readable(q, f)
    ensures Solid(f.lines)
  {
  }

  /** Every match is stored with the cursor behind it. */
  lemma {:induction false} StatesFollow(c: Config, run: Run, head: Head, item: Item, events: seq<Event>)
    requires |run.matches| == |run.states|
    ensures var (next, outcome) := ReduceStream(c.env, c.q, c.resume, run, head, item, events); |next.matches| == |next.states|
    decreases |events|
  {
    if events != [] {
      var (next, head', outcome) := Reduce(c.env, c.q, c.resume, run, head, item, events[0]);
      StatesFollow(c, next, head', item, events[1..]);
    }
  }

  ghost predicate AllReadable(c: Config) {
    forall k :: 0 <= k < |c.fs| ==> Readable(c.q, c.fs[k])
  }

  lemma {:induction false} ReadableNotExposed(c: Config, run: Run, k: nat, partial: Option<Partial>, r: nat, files: nat, bytes: nat, failed: bool)
    requires k <= |c.fs| && AllReadable(c) && OneFits(c.env) && |run.matches| == |run.states|
    requires if k < |c.fs| then Wants(c.q, c.fs[k], partial, r) else partial.None?
    ensures !Foresee(c, run, k, partial, files, bytes, failed).exposed
    decreases |c.fs| - k, if failed then 0 else 1
  {
    hide Admit, EmptyAhead, ReduceStream, Stream, WalksOn, LimitStop, Readable, OneFits;
    if k < |c.fs| {
      if !failed && EmptyAhead(c.env, c.q, c.fs, k, partial, files, bytes, WORKER_CEILING - 1) {
        ReadableNotExposed(c, run, k, partial, r, files, bytes, true);
      } else {
        var a := Admit(c.env, c.q, c.fs[k], partial, files, bytes);
        if a.Admitted? {
          ReadableJobPasses(c, run, k, partial, r, files, bytes, a.item, a.cost);
          var (next, outcome) := ReduceStream(c.env, c.q, c.resume, run, FRESH, a.item, Stream(c.env, c.q, a.item));
          ReadableNotExposed(c, next, k + 1, None, 0, files + 1, bytes + a.cost, failed);
        }
      }
    }
  }

  lemma {:induction false} EnteredAt(env: Env, from: Cursor, fs: seq<SourceFile>, k: nat, run: Run)
    requires k <= |fs| && |run.matches| == |run.states|
    ensures var entry := Enter(env, from, fs, k, run);
            && (entry.Entry? ==> |entry.run.matches| == |entry.run.states|)
            && (entry.Entry? && entry.partial.Some? ==>
                  entry.k < |fs| && entry.partial == from.partial && ComparePosition(fs[entry.k].position, from.boundary) == 0)
    decreases |fs| - k
  {
    if k < |fs| {
      var seen := run.(work := run.work.(validated := run.work.validated + 1));
      EnteredAt(env, from, fs, k + 1, seen.(prefix := seen.prefix + [(fs[k].position, fs[k].fingerprint)]));
    }
  }

  /**
   * What a caller can look at before asking: in a vault of valid UTF-8 whose lines, for a regular expression, are small
   * enough to be held, with responses that fit, every run of a fresh page, and of a page asked to continue at any place
   * a cursor can stand, ends alike.
   */
  lemma ReadableVaultsAgree(c: Config, k0: nat, r0: nat, states: seq<State>)
    requires ValidConfig(c) && Tree(c.fs) && AllReadable(c) && OneFits(c.env) && Stands(c.q, c.fs, c.resume, k0, r0)
    requires Execution(c, states) && Stuck(c, states[|states| - 1])
    ensures states[|states| - 1].control == Done(Walk(c.env, c.q, c.fs, c.resume))
  {
    var entry := EnterPage(c.env, c.fs, c.resume);
    assert entry.Entry?;
    hide Execution, Stuck, Foresee, AllReadable, Enter;
    if c.resume.Some? {
      EnteredAt(c.env, c.resume.value, c.fs, 0, NEW_RUN);
      if entry.partial.Some? {
        PositionOrder(c.fs, entry.k, k0);
      }
    }
    ReadableNotExposed(c, entry.run, entry.k, entry.partial, if entry.partial.Some? then r0 else 0, 0, 0, false);
    UnexposedRunsAgree(c, states);
  }
}
