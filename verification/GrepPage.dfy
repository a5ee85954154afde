/** One page of grep, reducing one file at a time in walk order: the reference the concurrent scheduler must meet. */
module GrepPage {
  import opened Ordering
  import opened GrepScan

  datatype Partial = Partial(fingerprint: nat, coords: Coords)

  /** The digests of a cursor are modelled by what they digest: the validated files before the boundary. */
  datatype Cursor = Cursor(boundary: Position, prefix: seq<(Position, nat)>, partial: Option<Partial>)

  datatype StopReason = ResultLimit | ResponseLimit | FileLimit | ByteLimit

  datatype Stop = Stop(reason: StopReason, state: Cursor)

  datatype Work = Work(files: nat, bytes: nat, validated: nat)

  /** The fields of grepRun that the reducer updates. */
  datatype Run = Run(work: Work, matches: seq<Match>, states: seq<Cursor>, prefix: seq<(Position, nat)>,
                     lastFull: Option<Position>, stop: Option<Stop>)

  /**
   * What a page does not decide itself: whether a response fits, how many bytes are read ahead for each line of a
   * scan, and whether a file opens. Pages of one chain may differ in all of it.
   */
  datatype Env = Env(fits: (seq<Match>, StopReason, Cursor, Work) -> bool,
                     fitsComplete: (seq<Match>, Work) -> bool,
                     fetched: (Job, nat) -> nat,
                     opens: Position -> Option<GrepError>)

  datatype Outcome = More | JobDone | Failed(error: GrepError)

  // ---- reducing one event ---------------------------------------------------------------------

  function PartialState(run: Run, f: SourceFile, coords: Coords): Cursor {
    Cursor(f.position, run.prefix, Some(Partial(f.fingerprint, coords)))
  }

  function FullState(run: Run, p: Position): Cursor {
    Cursor(p, run.prefix, None)
  }

  function StopUnfit(run: Run): (Run, Outcome) {
    if |run.matches| == 0 || |run.states| == 0 then (run, Failed(ResponseTooLarge))
    else (run.(stop := Some(Stop(ResponseLimit, run.states[|run.states| - 1]))), JobDone)
  }

  function Emit(env: Env, q: Query, run: Run, candidate: Candidate, state: Cursor): (Run, Outcome) {
    var reason := if |run.matches| + 1 >= q.limit then ResultLimit else ResponseLimit;
    var final := if candidate.ready then candidate.found else candidate.found.(occurrences := candidate.counted);
    if !env.fits(run.matches + [candidate.found], reason, state, run.work) then StopUnfit(run)
    else if !env.fits(run.matches + [final], reason, state, run.work) then StopUnfit(run)
    else
      var next := run.(matches := run.matches + [final], states := run.states + [state]);
      if |next.matches| >= q.limit then (next.(stop := Some(Stop(ResultLimit, state))), JobDone) else (next, More)
  }

  predicate CheckpointAdvances(resume: Option<Cursor>, run: Run, checkpoint: Cursor)
    requires checkpoint.partial.Some?
  {
    var offset := checkpoint.partial.value.coords.resumeOffset;
    match resume
    case None => run.lastFull.Some? || offset > 0
    case Some(from) =>
      var order := ComparePosition(checkpoint.boundary, from.boundary);
      order > 0 || (order == 0 && from.partial.Some? && offset > from.partial.value.coords.resumeOffset)
  }

  predicate FullBoundaryAdvances(resume: Option<Cursor>, position: Position) {
    match resume
    case None => true
    case Some(from) =>
      var order := ComparePosition(position, from.boundary);
      if order != 0 then order > 0 else from.partial.Some?
  }

  /** A scheduled entry: a scan, or an entry whose only event is an error. */
  datatype AnyItem = ScanItem(job: Job) | FailedItem(readable: bool, error: GrepError)

  type Item = item: AnyItem | item.ScanItem? ==> item.job.start <= |item.job.file.lines| witness FailedItem(false, CursorStale)

  /** What the reducer remembers about the job at the head of its queue. */
  datatype Head = Head(started: bool, accepted: nat)

  const FRESH := Head(false, 0)

  function Reduce(env: Env, q: Query, resume: Option<Cursor>, run0: Run, head: Head, item: AnyItem, event: Event): (Run, Head, Outcome) {
    var readable := item.ScanItem? || item.readable;
    var run1 := if head.started || !readable then run0 else run0.(work := run0.work.(files := run0.work.files + 1));
    if event.bytes < head.accepted then (run1, Head(true, head.accepted), Failed(SourceChanged))
    else
      var run := run1.(work := run1.work.(bytes := run1.work.bytes + event.bytes - head.accepted));
      var (next, outcome) := Apply(env, q, resume, run, item, event);
      (next, Head(true, event.bytes), outcome)
  }

  function Apply(env: Env, q: Query, resume: Option<Cursor>, run: Run, item: AnyItem, event: Event): (Run, Outcome) {
    match (event, item)
    case (CandidateEvent(_, candidate), ScanItem(job)) =>
      Emit(env, q, run, candidate, PartialState(run, job.file, candidate.emission))
    case (FullEvent(_), ScanItem(job)) =>
      (run.(prefix := run.prefix + [(job.file.position, job.file.fingerprint)], lastFull := Some(job.file.position)), JobDone)
    case (PartialEvent(_, coords, advanced), ScanItem(job)) =>
      var checkpoint := PartialState(run, job.file, coords);
      if !advanced then
        if run.lastFull.Some? && FullBoundaryAdvances(resume, run.lastFull.value)
        then (run.(stop := Some(Stop(ByteLimit, FullState(run, run.lastFull.value)))), JobDone)
        else (run, Failed(LimitExceeded))
      else if !CheckpointAdvances(resume, run, checkpoint) then (run, Failed(LimitExceeded))
      else (run.(stop := Some(Stop(ByteLimit, checkpoint))), JobDone)
    case (UnfitEvent(_), _) => StopUnfit(run)
    case (ErrorEvent(_, error), _) => (run, Failed(error))
    case _ => (run, Failed(SourceChanged))
  }

  /** Reducing the rest of one job's stream; a stream that ends early is a changed source. */
  function ReduceStream(env: Env, q: Query, resume: Option<Cursor>, run: Run, head: Head, item: AnyItem, events: seq<Event>): (Run, Outcome)
    decreases |events|
  {
    if events == [] then (run, Failed(SourceChanged))
    else
      var (next, head', outcome) := Reduce(env, q, resume, run, head, item, events[0]);
      if outcome.More? then ReduceStream(env, q, resume, next, head', item, events[1..]) else (next, outcome)
  }

  lemma ReduceFirst(env: Env, q: Query, resume: Option<Cursor>, run: Run, head: Head, item: AnyItem, event: Event, rest: seq<Event>)
    ensures ReduceStream(env, q, resume, run, head, item, [event] + rest)
         == var (next, head', outcome) := Reduce(env, q, resume, run, head, item, event);
            if outcome.More? then ReduceStream(env, q, resume, next, head', item, rest) else (next, outcome)
  {
    assert ([event] + rest)[1..] == rest;
  }

  /** Bytes read by the time line i of a scan has been delivered: a counter, so it never goes down. */
  function UpTo(env: Env, job: Job, i: nat): nat {
    env.fetched(job, i) + if i == 0 then 0 else UpTo(env, job, i - 1)
  }

  lemma {:induction false} UpToGrows(env: Env, job: Job, i: nat, j: nat)
    requires i <= j
    ensures UpTo(env, job, i) <= UpTo(env, job, j)
    decreases j - i
  {
    if i < j {
      UpToGrows(env, job, i, j - 1);
    }
  }

  function ReadsOf(env: Env, job: Job): Reads {
    i => UpTo(env, job, i)
  }

  function Stream(env: Env, q: Query, item: Item): (events: seq<Event>)
    ensures |events| > 0
  {
    match item
    case ScanItem(job) => Events(q, job, ReadsOf(env, job))
    case FailedItem(_, error) => [ErrorEvent(0, error)]
  }

  // ---- admitting one file ---------------------------------------------------------------------

  datatype Admission = LimitReached(reason: StopReason) | EmptyFile | Admitted(item: Item, cost: nat) | Refused(item: Item)

  function Admit(env: Env, q: Query, f: SourceFile, partial: Option<Partial>, files: nat, bytes: nat): (a: Admission)
    ensures a.Refused? ==> a.item.FailedItem?
    ensures a.LimitReached? <==> files >= q.maxFiles || bytes >= q.maxBytes
    ensures a.LimitReached? ==> a.reason == if files >= q.maxFiles then FileLimit else ByteLimit
    ensures a.Admitted? ==> a.cost <= q.maxBytes - bytes && files < q.maxFiles
  {
    if files >= q.maxFiles then LimitReached(FileLimit)
    else if bytes >= q.maxBytes then LimitReached(ByteLimit)
    else
      match env.opens(f.position)
      case Some(error) => Refused(FailedItem(false, if partial.Some? && error == SourceChanged then CursorStale else error))
      case None =>
        var size := Start(f.lines, |f.lines|);
        var offset := if partial.Some? then partial.value.coords.contextOffset else 0;
        if offset > size then Refused(FailedItem(false, CursorStale))
        else
          var allowance := Min(size - offset, q.maxBytes - bytes);
          if allowance == 0 && partial.None? then EmptyFile
          else Admitted(Scanned(f, partial, offset, allowance), allowance)
  }

  function Scanned(f: SourceFile, partial: Option<Partial>, offset: nat, allowance: nat): (item: Item)
    ensures item.ScanItem? ==> item.job.start <= |f.lines| && item.job.file == f && item.job.allowance == allowance
    ensures item.ScanItem? && partial.None? ==> item.job.resumeOffset == 0
    ensures item.FailedItem? ==> item == FailedItem(true, CursorStale)
  {
    var start := ResumeLine(f.lines, 0, offset);
    if partial.Some? && (partial.value.fingerprint != f.fingerprint || partial.value.coords.resumeOffset > Start(f.lines, |f.lines|)
                         || Start(f.lines, start) != offset)
    then FailedItem(true, CursorStale)
    else ScanItem(Job(f, start, if partial.Some? then partial.value.coords.resumeOffset else 0, allowance))
  }

  lemma {:induction false} StartGrows(ls: seq<Line>, i: nat, j: nat)
    requires i <= j <= |ls|
    ensures Start(ls, i) <= Start(ls, j)
  {
    if i < j {
      StartGrows(ls, i, j - 1);
    }
  }

  /**
   * A resumed file is refused as stale if and only if it is another file, or too short for the cursor, or has no line
   * at the offset where the context was to begin; a fresh file never is. Otherwise the scan begins at that offset.
   */
  lemma StaleIffNotThere(f: SourceFile, partial: Option<Partial>, offset: nat, allowance: nat)
    requires partial.None? ==> offset == 0
    ensures var item := Scanned(f, partial, offset, allowance);
            && (item.FailedItem? <==>
                partial.Some?
                && ( || partial.value.fingerprint != f.fingerprint
                     || partial.value.coords.resumeOffset > Start(f.lines, |f.lines|)
                     || forall i: nat :: i <= |f.lines| ==> Start(f.lines, i) != offset))
            && (item.ScanItem? ==> Start(f.lines, item.job.start) == offset)
  {
    var start := ResumeLine(f.lines, 0, offset);
    if i: nat :| i <= |f.lines| && Start(f.lines, i) == offset {
      StartGrows(f.lines, start, i);
    }
  }

  // ---- a whole page ---------------------------------------------------------------------------

  /** How a page's walk ends: with the run it leaves (stopped or complete), or with an error. */
  datatype Ending = Ended(run: Run) | Broken(error: GrepError)

  function LimitStop(run: Run, reason: StopReason): Ending {
    match run.lastFull
    case None => Broken(LimitExceeded)
    case Some(p) => Ended(run.(stop := Some(Stop(reason, FullState(run, p)))))
  }

  /** How many jobs may be pending. */
  const WORKER_CEILING := 16

  /** Behind at most `room` more files to schedule, the walk meets an empty one. */
  predicate EmptyAhead(env: Env, q: Query, fs: seq<SourceFile>, k: nat, partial: Option<Partial>, files: nat, bytes: nat, room: int)
    decreases |fs| - k
  {
    room >= 0 && k < |fs| &&
    match Admit(env, q, fs[k], partial, files, bytes)
    case EmptyFile => true
    case Admitted(_, cost) => EmptyAhead(env, q, fs, k + 1, None, files + 1, bytes + cost, room - 1)
    case _ => false
  }

  /**
   * The walk goes ahead of the reducer by up to a window of jobs. An empty file that it meets there ends the page at
   * the last full boundary reduced so far, and no pending job is reduced; before the first boundary the walk has
   * failed, and what is still pending is reduced before the failure is reported.
   */
  function ScanFrom(env: Env, q: Query, resume: Option<Cursor>, fs: seq<SourceFile>, k: nat, partial: Option<Partial>,
                    run: Run, files: nat, bytes: nat, failed: bool): Ending
    requires k <= |fs|
    decreases |fs| - k, if failed then 0 else 1
  {
    if k == |fs| then Ended(run)
    else if !failed && EmptyAhead(env, q, fs, k, partial, files, bytes, WORKER_CEILING - 1) then
      if run.lastFull.Some? then LimitStop(run, ByteLimit) else ScanFrom(env, q, resume, fs, k, partial, run, files, bytes, true)
    else
      match Admit(env, q, fs[k], partial, files, bytes)
      case LimitReached(reason) => LimitStop(run, reason)
      case EmptyFile => Broken(LimitExceeded)
      case Refused(item) => Broken(item.error)
      case Admitted(item, cost) =>
        var (next, outcome) := ReduceStream(env, q, resume, run, FRESH, item, Stream(env, q, item));
        if outcome.Failed? then Broken(outcome.error)
        else if next.stop.Some? then Ended(next)
        else ScanFrom(env, q, resume, fs, k + 1, None, next, files + 1, bytes + cost, failed)
  }

  /** Where a page starts scanning, once the files up to its cursor's boundary have been revalidated. */
  datatype Entry = Entry(k: nat, partial: Option<Partial>, run: Run) | NoEntry(error: GrepError)

  function Enter(env: Env, from: Cursor, fs: seq<SourceFile>, k: nat, run: Run): (entry: Entry)
    requires k <= |fs|
    ensures entry.Entry? ==> entry.k <= |fs|
    decreases |fs| - k
  {
    if k == |fs| then NoEntry(CursorStale)
    else
      var f := fs[k];
      var order := ComparePosition(f.position, from.boundary);
      if order > 0 then NoEntry(CursorStale)
      else if env.opens(f.position).Some? then NoEntry(env.opens(f.position).value)
      else
        var seen := run.(work := run.work.(validated := run.work.validated + 1));
        var passed := seen.(prefix := seen.prefix + [(f.position, f.fingerprint)]);
        if order < 0 then Enter(env, from, fs, k + 1, passed)
        else if from.partial.None? then
          if passed.prefix != from.prefix then NoEntry(CursorStale)
          else Entry(k + 1, None, passed.(lastFull := Some(f.position)))
        else if seen.prefix != from.prefix || f.fingerprint != from.partial.value.fingerprint then NoEntry(CursorStale)
        else Entry(k, from.partial, seen)
  }

  function EnterPage(env: Env, fs: seq<SourceFile>, resume: Option<Cursor>): (entry: Entry)
    ensures entry.Entry? ==> entry.k <= |fs|
  {
    match resume
    case None => Entry(0, None, NEW_RUN)
    case Some(from) => Enter(env, from, fs, 0, NEW_RUN)
  }

  const NEW_RUN := Run(Work(0, 0, 0), [], [], [], None, None)

  function ScanEntry(env: Env, q: Query, fs: seq<SourceFile>, resume: Option<Cursor>, entry: Entry): Ending
    requires entry.Entry? ==> entry.k <= |fs|
  {
    match entry
    case NoEntry(error) => Broken(error)
    case Entry(k, partial, run) => ScanFrom(env, q, resume, fs, k, partial, run, 0, 0, false)
  }

  function Walk(env: Env, q: Query, fs: seq<SourceFile>, resume: Option<Cursor>): Ending {
    ScanEntry(env, q, fs, resume, EnterPage(env, fs, resume))
  }

  datatype Page = Page(matches: seq<Match>, next: Option<Cursor>) | PageError(error: GrepError)

  function Output(env: Env, ending: Ending): Page {
    match ending
    case Broken(error) => PageError(error)
    case Ended(run) =>
      match run.stop
      case Some(stop) => if env.fits(run.matches, stop.reason, stop.state, run.work) then Page(run.matches, Some(stop.state)) else PageError(ResponseTooLarge)
      case None => if env.fitsComplete(run.matches, run.work) then Page(run.matches, None) else PageError(ResponseTooLarge)
  }

  function PageOf(env: Env, q: Query, fs: seq<SourceFile>, resume: Option<Cursor>): Page {
    Output(env, Walk(env, q, fs, resume))
  }
}
