/**
 * The concurrent scheduler as a state machine: a visitor that admits and reduces, up to sixteen workers that scan
 * ahead, and one bounded channel per job. Every interleaving that no error interrupts is shown to compute the page of
 * one file at a time.
 */
module GrepConcurrent {
  import opened Ordering
  import opened GrepScan
  import opened GrepPage

  datatype Config = Config(env: Env, q: Query, fs: seq<SourceFile>, resume: Option<Cursor>)

  /** Where the visitor's goroutine is. */
  datatype Control =
    | Visiting(k: nat, partial: Option<Partial>)
    | MakingRoom(k: nat, partial: Option<Partial>)
    | Draining(reason: StopReason)
    | Finishing
    | Done(ending: Ending)

  datatype Worker = Idle | Scanning(id: nat, todo: seq<Event>) | Gone

  /**
   * Jobs are numbered in the order they were admitted; those from `base` on are pending, in reducer order.
   * `queue` is the jobs channel, `channels[id]` the event channel of job id.
   */
  datatype State = State(control: Control, run: Run, head: Head, jobs: seq<Item>, base: nat, queue: seq<nat>,
                         channels: seq<seq<Event>>, workers: seq<Worker>, files: nat, bytes: nat,
                         walkError: Option<GrepError>, canceled: bool)

  function Pending(s: State): int {
    |s.jobs| - s.base
  }

  function Begin(entry: Entry): State
    requires entry.Entry?
  {
    State(Visiting(entry.k, entry.partial), entry.run, FRESH, [], 0, [], [], [], 0, 0, None, false)
  }

  // ---- the visitor ------------------------------------------------------------------------------

  function EndWalk(s: State, ending: Ending): State {
    match ending
    case Broken(error) => s.(walkError := Some(error), control := Finishing)
    case Ended(run) => s.(run := run, control := Finishing)
  }

  /** Workers are started only as the window needs them. */
  function EnsureWorkers(workers: seq<Worker>, pending: int): seq<Worker>
    decreases pending - |workers|
  {
    if |workers| < pending && |workers| < WORKER_CEILING then EnsureWorkers(workers + [Idle], pending) else workers
  }

  function Schedule(s: State, item: Item, cost: nat, k: nat): State {
    var id := |s.jobs|;
    s.(control := Visiting(k + 1, None), jobs := s.jobs + [item], channels := s.channels + [[]], queue := s.queue + [id],
       workers := EnsureWorkers(s.workers, Pending(s) + 1), files := s.files + 1, bytes := s.bytes + cost)
  }

  function Visit(c: Config, s: State, k: nat, partial: Option<Partial>): State
    requires k <= |c.fs|
  {
    if k == |c.fs| then s.(control := Finishing)
    else if Pending(s) == WORKER_CEILING then s.(control := MakingRoom(k, partial))
    else
      match Admit(c.env, c.q, c.fs[k], partial, s.files, s.bytes)
      case LimitReached(reason) => s.(control := Draining(reason))
      case EmptyFile => EndWalk(s, LimitStop(s.run, ByteLimit))
      case Refused(item) =>
        s.(control := Finishing, jobs := s.jobs + [item], channels := s.channels + [[ErrorEvent(0, item.error)]])
      case Admitted(item, cost) => Schedule(s, item, cost, k)
  }

  predicate Served(s: State, id: nat) {
    exists w :: 0 <= w < |s.workers| && s.workers[w].Scanning? && s.workers[w].id == id
  }

  /** A worker closes the channel of the job it leaves, finished or not. */
  predicate Closed(s: State, id: nat) {
    id !in s.queue && !Served(s, id)
  }

  function Pop(s: State): State {
    s.(base := s.base + 1, head := FRESH)
  }

  /** Reducing a match or an error that ends the job cancels the request; a spent budget does not. */
  predicate Cancels(head: Head, event: Event, outcome: Outcome) {
    !outcome.More? && event.bytes >= head.accepted && (event.CandidateEvent? || event.UnfitEvent? || event.ErrorEvent?)
  }

  /** Taking one event of the oldest job; None while its channel is open and empty. */
  function ReduceOldest(c: Config, s: State): Option<(State, Outcome)>
    requires s.base < |s.jobs| && s.base < |s.channels|
  {
    var channel := s.channels[s.base];
    if channel == [] then
      if Closed(s, s.base) then Some((Pop(s), Failed(if s.canceled then Canceled else SourceChanged))) else None
    else if s.canceled && channel[0].CandidateEvent? then Some((Pop(s), Failed(Canceled)))
    else
      var (run, head, outcome) := Reduce(c.env, c.q, c.resume, s.run, s.head, s.jobs[s.base], channel[0]);
      var taken := s.(run := run, head := head, channels := s.channels[s.base := channel[1..]]);
      if outcome.More? then Some((taken, outcome))
      else Some((Pop(taken).(canceled := s.canceled || Cancels(s.head, channel[0], outcome)), outcome))
  }

  /** The visitor's next step; None while it waits for the oldest job. */
  function VisitorNext(c: Config, s: State): Option<State>
    requires s.control.Visiting? ==> s.control.k <= |c.fs|
    requires s.base <= |s.jobs| == |s.channels|
  {
    match s.control
    case Visiting(k, partial) => Some(Visit(c, s, k, partial))
    case MakingRoom(k, partial) =>
      if s.base == |s.jobs| then None
      else
        (match ReduceOldest(c, s)
         case None => None
         case Some((next, outcome)) =>
           if outcome.Failed? then Some(next.(walkError := Some(outcome.error), control := Finishing))
           else if outcome.More? then Some(next)
           else if next.run.stop.Some? then Some(next.(control := Finishing))
           else Some(next.(control := Visiting(k, partial))))
    case Draining(reason) =>
      if s.base == |s.jobs| then Some(EndWalk(s, LimitStop(s.run, reason)))
      else
        (match ReduceOldest(c, s)
         case None => None
         case Some((next, outcome)) =>
           if outcome.Failed? then Some(next.(walkError := Some(outcome.error), control := Finishing))
           else if next.run.stop.Some? then Some(next.(control := Finishing))
           else Some(next))
    case Finishing =>
      if s.base == |s.jobs| || s.run.stop.Some? then
        Some(s.(control := Done(if s.run.stop.Some? || s.walkError.None? then Ended(s.run) else Broken(s.walkError.value))))
      else
        (match ReduceOldest(c, s)
         case None => None
         case Some((next, outcome)) =>
           if outcome.Failed? then Some(next.(control := Done(Broken(outcome.error)))) else Some(next))
    case Done(_) => None
  }

  // ---- the workers ------------------------------------------------------------------------------

  ghost predicate WorkerStep(c: Config, s: State, w: nat, s': State) {
    w < |s.workers| &&
    match s.workers[w]
    case Idle =>
      // Take the next queued job, or leave if the request was canceled.
      || (|s.queue| > 0 && s.queue[0] < |s.jobs|
          && s' == s.(queue := s.queue[1..], workers := s.workers[w := Scanning(s.queue[0], Stream(c.env, c.q, s.jobs[s.queue[0]]))]))
      || (s.canceled && s' == s.(workers := s.workers[w := Gone]))
    case Scanning(id, todo) =>
      // Send one event when the channel has room; finish; or give up if the request was canceled.
      || (|todo| > 0 && id < |s.channels| && s.channels[id] == []
          && s' == s.(channels := s.channels[id := [todo[0]]], workers := s.workers[w := Scanning(id, todo[1..])]))
      || (todo == [] && s' == s.(workers := s.workers[w := Idle]))
      || (s.canceled && s' == s.(workers := s.workers[w := Idle]))
    case Gone => false
  }

  /** The visitor may move whenever it does not wait, and any worker may move whenever it can. */
  ghost predicate Step(c: Config, s: State, s': State) {
    && (s.control.Visiting? ==> s.control.k <= |c.fs|) && s.base <= |s.jobs| == |s.channels|
    && (VisitorNext(c, s) == Some(s') || exists w: nat :: WorkerStep(c, s, w, s'))
  }

  // ---- what is left to compute ------------------------------------------------------------------

  /**
   * How the rest of a run must end, and whether it is exposed: whether an error is reduced while the walk still waits
   * for room, or drains at a limit with another job pending.
   */
  datatype Forecast = Forecast(ending: Ending, exposed: bool)

  /** With n jobs pending behind the one being reduced, the walk is not over: it is out of room, or drains at a limit. */
  predicate WalksOn(c: Config, k: nat, partial: Option<Partial>, files: nat, bytes: nat, n: nat)
    decreases |c.fs| - k
  {
    k < |c.fs|
    && (n >= WORKER_CEILING - 1 ||
        match Admit(c.env, c.q, c.fs[k], partial, files, bytes)
        case LimitReached(_) => n >= 1
        case Admitted(_, cost) => WalksOn(c, k + 1, None, files + 1, bytes + cost, n + 1)
        case _ => false)
  }

  /** The page scanned one file at a time, and whether its concurrent runs are exposed. */
  function Foresee(c: Config, run: Run, k: nat, partial: Option<Partial>, files: nat, bytes: nat, failed: bool): (f: Forecast)
    requires k <= |c.fs|
    ensures f.exposed ==> f.ending.Broken?
    decreases |c.fs| - k, if failed then 0 else 1
  {
    if k == |c.fs| then Forecast(Ended(run), false)
    else if !failed && EmptyAhead(c.env, c.q, c.fs, k, partial, files, bytes, WORKER_CEILING - 1) then
      if run.lastFull.Some? then Forecast(LimitStop(run, ByteLimit), false) else Foresee(c, run, k, partial, files, bytes, true)
    else
      match Admit(c.env, c.q, c.fs[k], partial, files, bytes)
      case LimitReached(reason) => Forecast(LimitStop(run, reason), false)
      case EmptyFile => Forecast(Broken(LimitExceeded), false)
      case Refused(item) => Forecast(Broken(item.error), false)
      case Admitted(item, cost) =>
        var (next, outcome) := ReduceStream(c.env, c.q, c.resume, run, FRESH, item, Stream(c.env, c.q, item));
        if outcome.Failed? then Forecast(Broken(outcome.error), !failed && WalksOn(c, k + 1, None, files + 1, bytes + cost, 0))
        else if next.stop.Some? then Forecast(Ended(next), false)
        else Foresee(c, next, k + 1, None, files + 1, bytes + cost, failed)
  }

  lemma {:induction false} ForeseeScans(c: Config, run: Run, k: nat, partial: Option<Partial>, files: nat, bytes: nat, failed: bool)
    requires k <= |c.fs|
    ensures Foresee(c, run, k, partial, files, bytes, failed).ending == ScanFrom(c.env, c.q, c.resume, c.fs, k, partial, run, files, bytes, failed)
    decreases |c.fs| - k, if failed then 0 else 1
  {
    hide Admit, EmptyAhead, ReduceStream, Stream, WalksOn, LimitStop;
    if k == |c.fs| {
    } else if !failed && EmptyAhead(c.env, c.q, c.fs, k, partial, files, bytes, WORKER_CEILING - 1) {
      ForeseeScans(c, run, k, partial, files, bytes, true);
    } else {
      var a := Admit(c.env, c.q, c.fs[k], partial, files, bytes);
      if a.Admitted? {
        var (next, outcome) := ReduceStream(c.env, c.q, c.resume, run, FRESH, a.item, Stream(c.env, c.q, a.item));
        ForeseeScans(c, next, k + 1, None, files + 1, bytes + a.cost, failed);
      }
    }
  }

  /** What follows the pending jobs. A walk that has `failed` will end at an empty file ahead, before any full boundary. */
  datatype Tail =
    | FromFile(k: nat, partial: Option<Partial>, files: nat, bytes: nat, failed: bool)
    | AtLimit(reason: StopReason)
    | NoMore
    | Failing(error: GrepError)

  predicate Sound(c: Config, tail: Tail) {
    tail.FromFile? ==> tail.k <= |c.fs|
  }

  function TailForecast(c: Config, run: Run, tail: Tail): (f: Forecast)
    requires Sound(c, tail)
    ensures f.exposed ==> f.ending.Broken?
  {
    match tail
    case FromFile(k, partial, files, bytes, failed) => Foresee(c, run, k, partial, files, bytes, failed)
    case AtLimit(reason) => Forecast(LimitStop(run, reason), false)
    case NoMore => Forecast(Ended(run), false)
    case Failing(error) => Forecast(Broken(error), false)
  }

  /** Whether the walk meets an empty file within this many more jobs. */
  predicate Ahead(c: Config, tail: Tail, room: int) {
    tail.FromFile? && !tail.failed && EmptyAhead(c.env, c.q, c.fs, tail.k, tail.partial, tail.files, tail.bytes, room)
  }

  /** Whether an error reduced with n more jobs pending finds the walk going on. */
  predicate Exposure(c: Config, tail: Tail, n: nat) {
    match tail
    case FromFile(k, partial, files, bytes, failed) => !failed && WalksOn(c, k, partial, files, bytes, n)
    case AtLimit(_) => n >= 1
    case _ => false
  }

  function Doomed(tail: Tail): Tail {
    if tail.FromFile? then tail.(failed := true) else tail
  }

  /** Reducing whole pending jobs one after the other, then the tail. */
  function Rest(c: Config, run: Run, items: seq<Item>, tail: Tail): (f: Forecast)
    requires Sound(c, tail)
    ensures f.exposed ==> f.ending.Broken?
    decreases |items|, if tail.FromFile? && !tail.failed then 2 else 1
  {
    if items == [] then TailForecast(c, run, tail)
    else if Ahead(c, tail, WORKER_CEILING - 1 - |items|) then
      if run.lastFull.Some? then Forecast(LimitStop(run, ByteLimit), false) else Rest(c, run, items, Doomed(tail))
    else Resting(c, run, FRESH, Stream(c.env, c.q, items[0]), items, tail)
  }

  /** The same when some events of the first pending job have been reduced already. */
  function Resting(c: Config, run: Run, head: Head, left: seq<Event>, items: seq<Item>, tail: Tail): (f: Forecast)
    requires Sound(c, tail)
    requires |items| > 0
    ensures f.exposed ==> f.ending.Broken?
    decreases |items|, 0
  {
    var (next, outcome) := ReduceStream(c.env, c.q, c.resume, run, head, items[0], left);
    if outcome.Failed? then Forecast(Broken(outcome.error), Exposure(c, tail, |items| - 1))
    else if next.stop.Some? then Forecast(Ended(next), false)
    else Rest(c, next, items[1..], tail)
  }

  /** Two tails that end alike, expose alike and have no empty file ahead may be exchanged. */
  ghost predicate Alike(c: Config, t1: Tail, t2: Tail) {
    && Sound(c, t1) && Sound(c, t2)
    && (forall run :: TailForecast(c, run, t1) == TailForecast(c, run, t2))
    && (forall n: nat :: Exposure(c, t1, n) == Exposure(c, t2, n))
    && (forall room :: !Ahead(c, t1, room) && !Ahead(c, t2, room))
  }

  lemma {:induction false} TailExchange(c: Config, run: Run, items: seq<Item>, t1: Tail, t2: Tail)
    requires Alike(c, t1, t2)
    ensures Rest(c, run, items, t1) == Rest(c, run, items, t2)
    decreases |items|
  {
    hide TailForecast, Stream, ReduceStream, Exposure, Ahead;
    if items != [] {
      var (next, outcome) := ReduceStream(c.env, c.q, c.resume, run, FRESH, items[0], Stream(c.env, c.q, items[0]));
      TailExchange(c, next, items[1..], t1, t2);
    }
  }

  /** The first tail does the same as one more job before the second. */
  ghost predicate Unrolls(c: Config, t1: Tail, item: Item, t2: Tail) {
    && Sound(c, t1) && Sound(c, t2)
    && (forall run :: TailForecast(c, run, t1) == Rest(c, run, [item], t2))
    && (forall n: nat :: n < WORKER_CEILING - 1 ==> Exposure(c, t1, n) == Exposure(c, t2, n + 1))
    && (forall room: int :: Ahead(c, t1, room) == Ahead(c, t2, room - 1))
  }

  lemma {:induction false} TailUnroll(c: Config, run: Run, items: seq<Item>, item: Item, t1: Tail, t2: Tail)
    requires Unrolls(c, t1, item, t2) && |items| < WORKER_CEILING
    requires (exists room :: Ahead(c, t1, room)) ==> Unrolls(c, Doomed(t1), item, Doomed(t2))
    ensures Rest(c, run, items + [item], t2) == Rest(c, run, items, t1)
    decreases |items|, if t1.FromFile? && !t1.failed then 2 else 1
  {
    hide TailForecast, Stream, ReduceStream, Exposure;
    if items == [] {
      assert items + [item] == [item];
    } else {
      var room := WORKER_CEILING - 1 - |items|;
      assert Ahead(c, t1, room) == Ahead(c, t2, room - 1);
      if Ahead(c, t1, room) {
        TailUnroll(c, run, items, item, Doomed(t1), Doomed(t2));
      } else {
        var (next, outcome) := ReduceStream(c.env, c.q, c.resume, run, FRESH, items[0], Stream(c.env, c.q, items[0]));
        assert (items + [item])[1..] == items[1..] + [item];
        assert Exposure(c, t1, |items| - 1) == Exposure(c, t2, |items| - 1 + 1);
        TailUnroll(c, next, items[1..], item, t1, t2);
      }
    }
  }

  // ---- the invariant ----------------------------------------------------------------------------

  ghost predicate ValidConfig(c: Config) {
    c.q.maxFiles >= 1 && c.q.maxBytes >= 1
  }

  /** What no interleaving exceeds: the window, the workers, both kinds of channel, and the reserved budgets. */
  ghost predicate Bounded(c: Config, s: State) {
    && s.base <= |s.jobs| == |s.channels|
    && Pending(s) <= WORKER_CEILING && |s.queue| <= WORKER_CEILING && |s.workers| <= WORKER_CEILING
    && (forall id :: 0 <= id < |s.channels| ==> |s.channels[id]| <= 1)
    && s.bytes <= c.q.maxBytes && s.files <= c.q.maxFiles
    && (s.control.Visiting? ==> s.control.k <= |c.fs|)
    && (s.control.MakingRoom? ==> s.control.k < |c.fs|)
  }

  /** The proof's own memory: the events of each job not reduced yet, and the first job no worker has taken. */
  datatype Memory = Memory(left: seq<seq<Event>>, front: nat)

  /** The last event of a stream, and only that, is other than a candidate. */
  ghost predicate Closing(events: seq<Event>) {
    && |events| > 0 && !events[|events| - 1].CandidateEvent?
    && forall i :: 0 <= i < |events| - 1 ==> events[i].CandidateEvent?
  }

  ghost predicate TakenJobs(c: Config, s: State, m: Memory) {
    && m.front <= |s.channels| == |m.left|
    && (forall w :: 0 <= w < |s.workers| && s.workers[w].Scanning? ==>
          s.workers[w].id < m.front && s.channels[s.workers[w].id] + s.workers[w].todo == m.left[s.workers[w].id])
    && (forall v, w :: 0 <= v < w < |s.workers| && s.workers[v].Scanning? && s.workers[w].Scanning? ==> s.workers[v].id != s.workers[w].id)
    && (forall id :: 0 <= id < m.front ==> s.channels[id] == m.left[id] || Served(s, id))
  }

  ghost predicate QueuedJobs(c: Config, s: State, m: Memory) {
    && |m.left| == |s.jobs| == |s.channels|
    && m.front + |s.queue| <= |s.jobs| <= m.front + |s.queue| + 1
    && (|s.queue| > 0 ==> s.base <= m.front && |s.workers| > 0)
    && (forall i :: 0 <= i < |s.queue| ==> s.queue[i] == m.front + i)
    && (forall id :: m.front <= id < m.front + |s.queue| ==> s.channels[id] == [] && m.left[id] == Stream(c.env, c.q, s.jobs[id]))
    && (forall id :: m.front + |s.queue| <= id < |s.jobs| ==> s.channels[id] == m.left[id])
    && (m.front + |s.queue| < |s.jobs| ==> s.control.Finishing? || s.control.Done?)
    && (forall w :: 0 <= w < |s.workers| ==> !s.workers[w].Gone?)
  }

  ghost predicate Reduced(c: Config, s: State, m: Memory) {
    && |m.left| == |s.jobs|
    && (forall id :: 0 <= id < s.base && id < |s.jobs| ==> m.left[id] == [])
    && (forall id :: s.base < id < |s.jobs| ==> m.left[id] == Stream(c.env, c.q, s.jobs[id]))
    && (forall id :: s.base <= id < |s.jobs| ==> Closing(m.left[id]))
    && (s.base == |s.jobs| ==> s.head == FRESH)
    && (s.control.MakingRoom? ==> Pending(s) == WORKER_CEILING)
    && (s.control.Visiting? ==> s.head == FRESH && (s.base < |s.jobs| ==> m.left[s.base] == Stream(c.env, c.q, s.jobs[s.base])))
  }

  function TailOf(s: State): Tail {
    match s.control
    case Visiting(k, partial) => FromFile(k, partial, s.files, s.bytes, false)
    case MakingRoom(k, partial) => FromFile(k, partial, s.files, s.bytes, false)
    case Draining(reason) => AtLimit(reason)
    case _ => if s.walkError.Some? then Failing(s.walkError.value) else NoMore
  }

  /** What sequential reduction of everything still pending would end with. */
  function Remaining(c: Config, s: State, m: Memory): Forecast
    requires Bounded(c, s) && |m.left| == |s.jobs|
  {
    if s.base == |s.jobs| then TailForecast(c, s.run, TailOf(s))
    else if s.control.Visiting? then Rest(c, s.run, s.jobs[s.base..], TailOf(s))
    else Resting(c, s.run, s.head, m.left[s.base], s.jobs[s.base..], TailOf(s))
  }

  /** A run that has not stopped still computes the reference; its walk may have failed at an empty file. */
  ghost predicate Live(c: Config, s: State, m: Memory, reference: Forecast) {
    && s.run.stop.None? && !s.canceled && (s.walkError.Some? ==> s.control.Finishing? || s.control.Done?)
    && Bounded(c, s) && TakenJobs(c, s, m) && QueuedJobs(c, s, m) && Reduced(c, s, m)
    && Remaining(c, s, m) == reference
    && (s.control.Done? ==> s.control.ending == reference.ending)
  }

  /** A run that has stopped holds the reference's result. */
  ghost predicate Stopped(s: State, reference: Forecast) {
    && s.run.stop.Some? && reference.ending == Ended(s.run)
    && (s.control.Finishing? || s.control == Done(reference.ending))
  }

  /** The reference's error is the answer: it was reduced with nothing else pending, or after the walk was over. */
  ghost predicate Answered(s: State, reference: Forecast) {
    && reference.ending.Broken?
    && (|| s.control == Done(reference.ending)
        || (s.control.Finishing? && s.walkError == Some(reference.ending.error) && s.base == |s.jobs| && s.run.stop.None?))
  }

  /** An error reduced while the walk went on: the run knows it, but may do anything next. */
  ghost predicate Spoiled(s: State, reference: Forecast) {
    reference.exposed && reference.ending.Broken? && s.walkError == Some(reference.ending.error) && (s.control.Finishing? || s.control.Done?)
  }

  ghost predicate Invariant(c: Config, s: State, m: Memory, reference: Forecast) {
    Bounded(c, s) && (Live(c, s, m, reference) || Stopped(s, reference) || Answered(s, reference) || Spoiled(s, reference))
  }

  // ---- every step keeps it: workers -------------------------------------------------------------

  /** What a worker's move can affect. */
  lemma WorkerFrame(c: Config, s: State, next: State, m: Memory, m': Memory, reference: Forecast)
    requires Live(c, s, m, reference) && s == next.(queue := s.queue, channels := s.channels, workers := s.workers)
    requires m'.left == m.left && |next.queue| <= |s.queue| && |next.workers| == |s.workers| && |next.channels| == |s.channels|
    requires forall id :: 0 <= id < |next.channels| ==> |next.channels[id]| <= 1
    requires TakenJobs(c, next, m') && QueuedJobs(c, next, m')
    ensures Live(c, next, m', reference)
  {
    hide Stream, Resting, Rest, TailForecast, Closing, TakenJobs, QueuedJobs;
  }

  lemma TakeKeeps(c: Config, s: State, m: Memory, reference: Forecast, w: nat)
    requires Live(c, s, m, reference) && w < |s.workers| && s.workers[w].Idle? && |s.queue| > 0 && s.queue[0] < |s.jobs|
    ensures var next := s.(queue := s.queue[1..], workers := s.workers[w := Scanning(s.queue[0], Stream(c.env, c.q, s.jobs[s.queue[0]]))]);
            Live(c, next, m.(front := m.front + 1), reference)
  {
    hide Stream, Closing, Remaining;
    var id := s.queue[0];
    var next := s.(queue := s.queue[1..], workers := s.workers[w := Scanning(id, Stream(c.env, c.q, s.jobs[id]))]);
    assert id == m.front;
    forall j | 0 <= j < m.front + 1 ensures next.channels[j] == m.left[j] || Served(next, j) {
      if j == id {
        assert next.workers[w].id == j;
      } else if Served(s, j) {
        var v :| 0 <= v < |s.workers| && s.workers[v].Scanning? && s.workers[v].id == j;
        assert next.workers[v].id == j;
      }
    }
    WorkerFrame(c, s, next, m, m.(front := m.front + 1), reference);
  }

  lemma SendKeeps(c: Config, s: State, m: Memory, reference: Forecast, w: nat)
    requires Live(c, s, m, reference) && w < |s.workers| && s.workers[w].Scanning?
    requires |s.workers[w].todo| > 0 && s.workers[w].id < |s.channels| && s.channels[s.workers[w].id] == []
    ensures var id, todo := s.workers[w].id, s.workers[w].todo;
            Live(c, s.(channels := s.channels[id := [todo[0]]], workers := s.workers[w := Scanning(id, todo[1..])]), m, reference)
  {
    hide Stream, Closing, Remaining;
    var id, todo := s.workers[w].id, s.workers[w].todo;
    var next := s.(channels := s.channels[id := [todo[0]]], workers := s.workers[w := Scanning(id, todo[1..])]);
    assert [] + todo == [todo[0]] + todo[1..];
    forall j | 0 <= j < m.front ensures next.channels[j] == m.left[j] || Served(next, j) {
      if j == id {
        assert next.workers[w].id == j;
      } else if Served(s, j) {
        var v :| 0 <= v < |s.workers| && s.workers[v].Scanning? && s.workers[v].id == j;
        assert next.workers[v].id == j;
      }
    }
    WorkerFrame(c, s, next, m, m, reference);
  }

  lemma FinishKeeps(c: Config, s: State, m: Memory, reference: Forecast, w: nat)
    requires Live(c, s, m, reference) && w < |s.workers| && s.workers[w].Scanning? && s.workers[w].todo == []
    ensures Live(c, s.(workers := s.workers[w := Idle]), m, reference)
  {
    hide Stream, Closing, Remaining;
    var id := s.workers[w].id;
    var next := s.(workers := s.workers[w := Idle]);
    assert s.channels[id] + s.workers[w].todo == s.channels[id];
    forall j | 0 <= j < m.front ensures next.channels[j] == m.left[j] || Served(next, j) {
      if j != id && Served(s, j) {
        var v :| 0 <= v < |s.workers| && s.workers[v].Scanning? && s.workers[v].id == j;
        assert next.workers[v].id == j;
      }
    }
    WorkerFrame(c, s, next, m, m, reference);
  }

  lemma WorkerKeeps(c: Config, s: State, m: Memory, reference: Forecast, w: nat, s': State) returns (m': Memory)
    requires Invariant(c, s, m, reference) && WorkerStep(c, s, w, s')
    ensures Invariant(c, s', m', reference)
  {
    m' := m;
    if Live(c, s, m, reference) {
      match s.workers[w] {
        case Idle =>
          TakeKeeps(c, s, m, reference, w);
          m' := m.(front := m.front + 1);
        case Scanning(id, todo) =>
          if |todo| > 0 {
            SendKeeps(c, s, m, reference, w);
          } else {
            FinishKeeps(c, s, m, reference, w);
          }
      }
    }
  }

  // ---- every step keeps it: the visitor reduces -------------------------------------------------

  lemma CancelingStops(c: Config, run: Run, head: Head, item: Item, event: Event)
    ensures var (next, head', outcome) := Reduce(c.env, c.q, c.resume, run, head, item, event);
            && (outcome.JobDone? && (Cancels(head, event, outcome) || event.CandidateEvent?) ==> next.stop.Some?)
            && (outcome.Failed? ==> next.stop == run.stop)
  {
  }

  lemma OthersEndJobs(c: Config, run: Run, head: Head, item: Item, event: Event)
    ensures Reduce(c.env, c.q, c.resume, run, head, item, event).2.More? ==> event.CandidateEvent?
  {
  }

  lemma MoreDoesNotStop(c: Config, run: Run, head: Head, item: Item, event: Event)
    requires run.stop.None?
    ensures var (next, head', outcome) := Reduce(c.env, c.q, c.resume, run, head, item, event);
            outcome.More? ==> next.stop.None?
  {
  }

  /** How much of the reference one reduced event accounts for. */
  lemma RestingStep(c: Config, run: Run, head: Head, left: seq<Event>, items: seq<Item>, tail: Tail)
    requires Sound(c, tail) && |items| > 0 && |left| > 0
    ensures var (next, head', outcome) := Reduce(c.env, c.q, c.resume, run, head, items[0], left[0]);
            Resting(c, run, head, left, items, tail) ==
              if outcome.Failed? then Forecast(Broken(outcome.error), Exposure(c, tail, |items| - 1))
              else if outcome.More? then Resting(c, next, head', left[1..], items, tail)
              else if next.stop.Some? then Forecast(Ended(next), false)
              else Rest(c, next, items[1..], tail)
  {
    hide TailForecast, Rest, Reduce, Exposure;
    assert left == [left[0]] + left[1..];
    ReduceFirst(c.env, c.q, c.resume, run, head, items[0], left[0], left[1..]);
  }

  /** The state after one event, with the visitor back to visiting if it had only been making room. */
  function Settled(next: State, outcome: Outcome): State {
    if outcome.JobDone? && next.control.MakingRoom? then next.(control := Visiting(next.control.k, next.control.partial)) else next
  }

  lemma HeadOfChannel(c: Config, s: State, m: Memory, reference: Forecast)
    requires Live(c, s, m, reference) && s.base < |s.jobs| && s.channels[s.base] != []
    ensures |m.left[s.base]| > 0 && m.left[s.base][0] == s.channels[s.base][0] && s.channels[s.base] == [m.left[s.base][0]]
    ensures s.base < m.front + |s.queue| ==> s.base < m.front
  {
    hide Stream, Resting, Rest, TailForecast;
    if s.base < m.front && s.channels[s.base] != m.left[s.base] {
      var w :| 0 <= w < |s.workers| && s.workers[w].Scanning? && s.workers[w].id == s.base;
    }
  }

  lemma ReducedRemaining(c: Config, s: State, m: Memory, reference: Forecast)
    requires Live(c, s, m, reference) && s.base < |s.jobs| && s.channels[s.base] != [] && !s.control.Visiting? && !s.control.Done?
    ensures var (next, outcome) := ReduceOldest(c, s).value;
            var m' := m.(left := m.left[s.base := m.left[s.base][1..]]);
            && (outcome.Failed? ==> next.run.stop.None? && reference == Forecast(Broken(outcome.error), Exposure(c, TailOf(s), Pending(s) - 1)))
            && (!outcome.Failed? && next.run.stop.Some? ==> reference == Forecast(Ended(next.run), false))
            && (outcome.More? ==> next.run.stop.None? && |m'.left[s.base]| > 0)
            && (outcome.JobDone? && next.run.stop.None? ==> m'.left[s.base] == [])
            && (!outcome.Failed? && next.run.stop.None? ==>
                  !next.canceled && Bounded(c, Settled(next, outcome)) && Remaining(c, Settled(next, outcome), m') == reference)
  {
    hide TailForecast, Reduce, Resting, Stream, Exposure, EmptyAhead;
    HeadOfChannel(c, s, m, reference);
    var left, items, tail := m.left[s.base], s.jobs[s.base..], TailOf(s);
    var (next, outcome) := ReduceOldest(c, s).value;
    var m' := m.(left := m.left[s.base := left[1..]]);
    RestingStep(c, s.run, s.head, left, items, tail);
    CancelingStops(c, s.run, s.head, items[0], left[0]);
    OthersEndJobs(c, s.run, s.head, items[0], left[0]);
    MoreDoesNotStop(c, s.run, s.head, items[0], left[0]);
    var settled := Settled(next, outcome);
    assert TailOf(settled) == tail;
    if outcome.More? {
      assert left[0].CandidateEvent?;
    } else if next.run.stop.None? && !outcome.Failed? {
      assert items[1..] == s.jobs[s.base + 1..];
      if |left| > 1 {
        assert false;
      }
    }
  }

  /** What one reduction that neither stops nor fails does to the state and to the proof's memory. */
  ghost predicate Reduction(s: State, m: Memory, next: State, m': Memory) {
    && s.base < |s.jobs| == |s.channels| == |m.left| && |m.left[s.base]| > 0
    && m' == m.(left := m.left[s.base := m.left[s.base][1..]])
    && next.jobs == s.jobs && next.queue == s.queue && next.workers == s.workers
    && next.channels == s.channels[s.base := []]
    && ((next.base == s.base && m'.left[s.base] != []) || (next.base == s.base + 1 && m'.left[s.base] == [] && next.head == FRESH))
    && (next.control == s.control || (next.control.Visiting? && s.control.MakingRoom?))
    && (next.control.MakingRoom? ==> next.base == s.base)
    && (next.control.Visiting? ==> next.base == s.base + 1)
  }

  lemma ReductionTaken(c: Config, s: State, m: Memory, next: State, m': Memory)
    requires TakenJobs(c, s, m) && Reduction(s, m, next, m') && s.channels[s.base] == [m.left[s.base][0]]
    ensures TakenJobs(c, next, m')
  {
    assert [] == s.channels[s.base][1..];
    forall w | 0 <= w < |next.workers| && next.workers[w].Scanning?
      ensures next.channels[next.workers[w].id] + next.workers[w].todo == m'.left[next.workers[w].id]
    {
      var id := s.workers[w].id;
      assert s.channels[id] + s.workers[w].todo == m.left[id];
      if id == s.base {
        assert [] + s.workers[w].todo == m.left[id][1..];
      }
    }
    forall id | 0 <= id < m'.front ensures next.channels[id] == m'.left[id] || Served(next, id) {
      if Served(s, id) {
        var w :| 0 <= w < |s.workers| && s.workers[w].Scanning? && s.workers[w].id == id;
        assert next.workers[w].id == id;
      }
    }
  }

  lemma ReductionQueued(c: Config, s: State, m: Memory, next: State, m': Memory)
    requires QueuedJobs(c, s, m) && Reduction(s, m, next, m') && s.channels[s.base] == [m.left[s.base][0]]
    requires s.base < m.front + |s.queue| ==> s.base < m.front
    ensures QueuedJobs(c, next, m')
  {
    hide Stream;
  }

  lemma ReductionReduced(c: Config, s: State, m: Memory, next: State, m': Memory)
    requires Reduced(c, s, m) && Reduction(s, m, next, m')
    ensures Reduced(c, next, m')
  {
    hide Stream;
    forall id | next.base <= id < |next.jobs| ensures Closing(m'.left[id]) {
      assert Closing(m.left[id]);
      if id == s.base {
        forall i | 0 <= i < |m'.left[id]| - 1 ensures m'.left[id][i].CandidateEvent? {
          assert m.left[id][i + 1].CandidateEvent?;
        }
      }
    }
  }

  lemma ReduceKeeps(c: Config, s: State, m: Memory, reference: Forecast)
    requires Live(c, s, m, reference) && s.base < |s.jobs| && s.channels[s.base] != [] && !s.control.Visiting? && !s.control.Done?
    ensures var (next, outcome) := ReduceOldest(c, s).value;
            && (outcome.Failed? ==> next.run.stop.None? && reference == Forecast(Broken(outcome.error), Exposure(c, TailOf(s), Pending(s) - 1)))
            && (!outcome.Failed? && next.run.stop.Some? ==> reference == Forecast(Ended(next.run), false))
            && (!outcome.Failed? && next.run.stop.None? ==> Live(c, Settled(next, outcome), m.(left := m.left[s.base := m.left[s.base][1..]]), reference))
  {
    ReducedRemaining(c, s, m, reference);
    HeadOfChannel(c, s, m, reference);
    var (next, outcome) := ReduceOldest(c, s).value;
    var m' := m.(left := m.left[s.base := m.left[s.base][1..]]);
    if !outcome.Failed? && next.run.stop.None? {
      hide TailForecast, Reduce, Resting, Rest, Stream, TakenJobs, QueuedJobs, Reduced, Remaining, Exposure;
      var settled := Settled(next, outcome);
      assert s.channels[s.base][1..] == [];
      assert Reduction(s, m, settled, m');
      ReductionTaken(c, s, m, settled, m');
      ReductionQueued(c, s, m, settled, m');
      ReductionReduced(c, s, m, settled, m');
    }
  }

  lemma ReductionBounded(c: Config, s: State)
    requires Bounded(c, s) && s.base < |s.jobs| && ReduceOldest(c, s).Some?
    ensures var (next, outcome) := ReduceOldest(c, s).value;
            Bounded(c, next) && Bounded(c, Settled(next, outcome)) && next.control == s.control && next.walkError == s.walkError
            && next.jobs == s.jobs && (!outcome.More? ==> next.base == s.base + 1)
  {
    hide Reduce;
  }

  /** While a run computes the reference, a closed channel is never found empty. */
  lemma HeadStaysOpen(c: Config, s: State, m: Memory, reference: Forecast)
    requires Live(c, s, m, reference) && s.base < |s.jobs| && s.channels[s.base] == []
    ensures ReduceOldest(c, s).None?
  {
    hide Stream, Remaining;
    assert Closing(m.left[s.base]);
    if s.base >= m.front && |s.queue| > 0 {
      assert s.queue[0] == m.front;
    }
  }

  // ---- every step keeps it: the visitor schedules -----------------------------------------------

  lemma StreamCloses(c: Config, item: Item)
    ensures Closing(Stream(c.env, c.q, item))
  {
    if item.ScanItem? {
      var job, upto := item.job, ReadsOf(c.env, item.job);
      var e := StopLine(c.q, job, job.start);
      CandidatesAreCandidates(c.q, job, upto, e, FirstWanted(job), Delivered(c.q, job, e));
    }
  }

  lemma {:induction false} CandidatesAreCandidates(q: Query, job: Job, upto: Reads, e: nat, a: nat, b: nat)
    requires b <= |job.file.lines|
    ensures forall i :: 0 <= i < |CandidateEvents(q, job, upto, e, a, b)| ==> CandidateEvents(q, job, upto, e, a, b)[i].CandidateEvent?
    decreases b
  {
    if a < b {
      CandidatesAreCandidates(q, job, upto, e, a, b - 1);
    }
  }

  lemma {:induction false} WorkersEnsured(workers: seq<Worker>, pending: int)
    ensures var more := EnsureWorkers(workers, pending);
            && |workers| <= |more| && more[..|workers|] == workers
            && (|workers| <= WORKER_CEILING ==> |more| <= WORKER_CEILING)
            && (|more| >= pending || |more| >= WORKER_CEILING)
            && forall w :: |workers| <= w < |more| ==> more[w].Idle?
    decreases pending - |workers|
  {
    if |workers| < pending && |workers| < WORKER_CEILING {
      WorkersEnsured(workers + [Idle], pending);
      var more := EnsureWorkers(workers + [Idle], pending);
      assert more[..|workers|] == more[..|workers| + 1][..|workers|];
      assert more[|workers|] == more[..|workers| + 1][|workers|];
    }
  }

  /** A change of control whose tail ends alike keeps the run computing the reference. */
  lemma ControlKeeps(c: Config, s: State, next: State, m: Memory, reference: Forecast)
    requires Live(c, s, m, reference) && s.control.Visiting? && next == s.(control := next.control)
    requires next.control.Draining? || next.control.Finishing?
    requires Alike(c, TailOf(s), TailOf(next))
    ensures Live(c, next, m, reference)
  {
    hide TailForecast, Resting, Stream, Closing, Ahead, Exposure;
    if s.base < |s.jobs| {
      TailExchange(c, s.run, s.jobs[s.base..], TailOf(s), TailOf(next));
    }
  }

  /** Out of room, the visitor turns to the oldest job. */
  lemma MakingRoomKeeps(c: Config, s: State, m: Memory, reference: Forecast)
    requires Live(c, s, m, reference) && s.control.Visiting? && s.control.k < |c.fs| && Pending(s) == WORKER_CEILING
    ensures Live(c, s.(control := MakingRoom(s.control.k, s.control.partial)), m, reference)
  {
    hide TailForecast, Resting, Stream, Closing, Exposure;
  }

  /** What appending one job to the pending ones looks like. */
  ghost predicate Appended(c: Config, s: State, m: Memory, next: State, m': Memory, item: Item) {
    && next.jobs == s.jobs + [item] && next.base == s.base && next.run == s.run && next.head == s.head
    && m' == m.(left := m.left + [Stream(c.env, c.q, item)])
  }

  lemma AppendedRemaining(c: Config, s: State, m: Memory, next: State, m': Memory, item: Item)
    requires Bounded(c, s) && Bounded(c, next) && Reduced(c, s, m) && Appended(c, s, m, next, m', item)
    requires s.control.Visiting? && Pending(s) < WORKER_CEILING && Unrolls(c, TailOf(s), item, TailOf(next))
    requires (exists room :: Ahead(c, TailOf(s), room)) ==> Unrolls(c, Doomed(TailOf(s)), item, Doomed(TailOf(next)))
    requires !next.control.Visiting? ==> next.control.Finishing?
    ensures Remaining(c, next, m') == Remaining(c, s, m)
  {
    hide TailForecast, Resting, Stream, Closing, Ahead, Exposure;
    var items := s.jobs[s.base..];
    assert next.jobs[s.base..] == items + [item];
    TailUnroll(c, s.run, items, item, TailOf(s), TailOf(next));
    if items == [] {
      assert items + [item] == [item];
    }
    NoneAheadWithoutWalk(c, TailOf(next));
  }

  lemma NoneAheadWithoutWalk(c: Config, tail: Tail)
    ensures !tail.FromFile? ==> forall room :: !Ahead(c, tail, room)
  {
  }

  lemma AppendedReduced(c: Config, s: State, m: Memory, next: State, m': Memory, item: Item)
    requires Reduced(c, s, m) && s.base <= |s.jobs| && Appended(c, s, m, next, m', item)
    requires s.control.Visiting? && !next.control.MakingRoom?
    ensures Reduced(c, next, m')
  {
    hide Stream, Closing;
    StreamCloses(c, item);
  }

  lemma ScheduledTaken(c: Config, s: State, m: Memory, next: State, m': Memory, item: Item, cost: nat, k: nat)
    requires TakenJobs(c, s, m) && |s.jobs| == |s.channels| && s.base <= |s.jobs| && next == Schedule(s, item, cost, k) && Appended(c, s, m, next, m', item)
    ensures TakenJobs(c, next, m')
  {
    hide Stream, EnsureWorkers;
    WorkersEnsured(s.workers, Pending(s) + 1);
    assert forall w :: 0 <= w < |s.workers| ==> next.workers[w] == next.workers[..|s.workers|][w];
    forall id | 0 <= id < m'.front ensures next.channels[id] == m'.left[id] || Served(next, id) {
      if Served(s, id) {
        var w :| 0 <= w < |s.workers| && s.workers[w].Scanning? && s.workers[w].id == id;
        assert next.workers[w].id == id;
      }
    }
  }

  lemma ScheduledQueued(c: Config, s: State, m: Memory, next: State, m': Memory, item: Item, cost: nat, k: nat)
    requires QueuedJobs(c, s, m) && s.control.Visiting? && s.base <= |s.jobs|
    requires next == Schedule(s, item, cost, k) && Appended(c, s, m, next, m', item)
    ensures QueuedJobs(c, next, m')
  {
    hide Stream, EnsureWorkers;
    WorkersEnsured(s.workers, Pending(s) + 1);
    assert forall w :: 0 <= w < |s.workers| ==> next.workers[w] == next.workers[..|s.workers|][w];
  }

  /** Scheduling stays inside the window and the budgets, and the jobs channel has room for the new job. */
  lemma ScheduleBounded(c: Config, s: State, m: Memory, item: Item, cost: nat)
    requires Bounded(c, s) && QueuedJobs(c, s, m) && s.control.Visiting? && s.control.k < |c.fs| && Pending(s) < WORKER_CEILING
    requires Admit(c.env, c.q, c.fs[s.control.k], s.control.partial, s.files, s.bytes) == Admitted(item, cost)
    ensures var next := Schedule(s, item, cost, s.control.k);
            Bounded(c, next) && next.control.Visiting? && s.(control := next.control, workers := next.workers, jobs := next.jobs,
            queue := next.queue, channels := next.channels, files := next.files, bytes := next.bytes) == next
            && next.jobs == s.jobs + [item] && TailOf(next) == FromFile(s.control.k + 1, None, s.files + 1, s.bytes + cost, false)
    ensures |s.queue| < WORKER_CEILING && |s.jobs| == |s.channels| && s.base <= |s.jobs|
  {
    hide Stream, EnsureWorkers;
    WorkersEnsured(s.workers, Pending(s) + 1);
  }

  lemma ScheduleKeeps(c: Config, s: State, m: Memory, reference: Forecast, item: Item, cost: nat)
    requires Live(c, s, m, reference) && s.control.Visiting? && s.control.k < |c.fs| && Pending(s) < WORKER_CEILING
    requires Admit(c.env, c.q, c.fs[s.control.k], s.control.partial, s.files, s.bytes) == Admitted(item, cost)
    ensures Live(c, Schedule(s, item, cost, s.control.k), m.(left := m.left + [Stream(c.env, c.q, item)]), reference)
  {
    hide Stream, EnsureWorkers, TailForecast, Rest, Remaining, TakenJobs, QueuedJobs, Reduced, Bounded, Schedule, Admit, Unrolls;
    var next, m' := Schedule(s, item, cost, s.control.k), m.(left := m.left + [Stream(c.env, c.q, item)]);
    TailTakesItem(c, s.control.k, s.control.partial, s.files, s.bytes, item, cost, false);
    TailTakesItem(c, s.control.k, s.control.partial, s.files, s.bytes, item, cost, true);
    ScheduleBounded(c, s, m, item, cost);
    ScheduledTaken(c, s, m, next, m', item, cost, s.control.k);
    ScheduledQueued(c, s, m, next, m', item, cost, s.control.k);
    AppendedReduced(c, s, m, next, m', item);
    AppendedRemaining(c, s, m, next, m', item);
  }

  /** Scheduling the next file takes it from the front of what is still to be walked. */
  lemma TailTakesItem(c: Config, k: nat, partial: Option<Partial>, files: nat, bytes: nat, item: Item, cost: nat, failed: bool)
    requires k < |c.fs| && Admit(c.env, c.q, c.fs[k], partial, files, bytes) == Admitted(item, cost)
    ensures Unrolls(c, FromFile(k, partial, files, bytes, failed), item, FromFile(k + 1, None, files + 1, bytes + cost, failed))
  {
    var t1, t2 := FromFile(k, partial, files, bytes, failed), FromFile(k + 1, None, files + 1, bytes + cost, failed);
    forall run ensures TailForecast(c, run, t1) == Rest(c, run, [item], t2) {
      TailTakesWhole(c, run, k, partial, files, bytes, item, cost, failed);
    }
    hide TailForecast, Rest, Stream, ReduceStream;
    forall room: int ensures Ahead(c, t1, room) == Ahead(c, t2, room - 1) {
    }
  }

  lemma TailTakesWhole(c: Config, run: Run, k: nat, partial: Option<Partial>, files: nat, bytes: nat, item: Item, cost: nat, failed: bool)
    requires k < |c.fs| && Admit(c.env, c.q, c.fs[k], partial, files, bytes) == Admitted(item, cost)
    ensures TailForecast(c, run, FromFile(k, partial, files, bytes, failed))
         == Rest(c, run, [item], FromFile(k + 1, None, files + 1, bytes + cost, failed))
    decreases if failed then 0 else 1
  {
    hide Stream, ReduceStream, Admit, WalksOn;
    var t2 := FromFile(k + 1, None, files + 1, bytes + cost, failed);
    assert EmptyAhead(c.env, c.q, c.fs, k, partial, files, bytes, WORKER_CEILING - 1)
        == EmptyAhead(c.env, c.q, c.fs, k + 1, None, files + 1, bytes + cost, WORKER_CEILING - 2);
    hide EmptyAhead;
    if Ahead(c, t2, WORKER_CEILING - 2) {
      TailTakesWhole(c, run, k, partial, files, bytes, item, cost, true);
    } else {
      assert [item][1..] == [];
      var (next, outcome) := ReduceStream(c.env, c.q, c.resume, run, FRESH, item, Stream(c.env, c.q, item));
      assert Rest(c, run, [item], t2) == Resting(c, run, FRESH, Stream(c.env, c.q, item), [item], t2);
      assert Rest(c, next, [], t2) == TailForecast(c, next, t2);
    }
  }

  lemma TailRefuses(c: Config, k: nat, partial: Option<Partial>, files: nat, bytes: nat, item: Item)
    requires k < |c.fs| && Admit(c.env, c.q, c.fs[k], partial, files, bytes) == Refused(item)
    ensures Unrolls(c, FromFile(k, partial, files, bytes, false), item, NoMore)
    ensures forall room :: !Ahead(c, FromFile(k, partial, files, bytes, false), room)
  {
    var t1 := FromFile(k, partial, files, bytes, false);
    forall run ensures TailForecast(c, run, t1) == Rest(c, run, [item], NoMore) {
      var events := Stream(c.env, c.q, item);
      assert events == [events[0]] + events[1..];
      hide EmptyAhead;
      assert !EmptyAhead(c.env, c.q, c.fs, k, partial, files, bytes, WORKER_CEILING - 1) by {
        NotAhead(c, k, partial, files, bytes, WORKER_CEILING - 1);
      }
    }
    forall room: int ensures !Ahead(c, t1, room) {
      NotAhead(c, k, partial, files, bytes, room);
    }
  }

  lemma NotAhead(c: Config, k: nat, partial: Option<Partial>, files: nat, bytes: nat, room: int)
    requires k < |c.fs| ==> var a := Admit(c.env, c.q, c.fs[k], partial, files, bytes); a.Refused? || a.LimitReached?
    ensures !EmptyAhead(c.env, c.q, c.fs, k, partial, files, bytes, room)
  {
  }

  ghost predicate RefusedNext(c: Config, s: State, m: Memory, next: State, m': Memory, item: Item) {
    && |s.jobs| == |s.channels| == |m.left| && s.base <= |s.jobs|
    && next == s.(control := Finishing, jobs := s.jobs + [item], channels := s.channels + [Stream(c.env, c.q, item)])
    && m' == m.(left := m.left + [Stream(c.env, c.q, item)])
  }

  lemma RefusedTaken(c: Config, s: State, m: Memory, next: State, m': Memory, item: Item)
    requires TakenJobs(c, s, m) && RefusedNext(c, s, m, next, m', item)
    ensures TakenJobs(c, next, m')
  {
    hide Stream;
    forall id | 0 <= id < m'.front ensures next.channels[id] == m'.left[id] || Served(next, id) {
      if Served(s, id) {
        var w :| 0 <= w < |s.workers| && s.workers[w].Scanning? && s.workers[w].id == id;
        assert next.workers[w].id == id;
      }
    }
  }

  lemma RefusedQueued(c: Config, s: State, m: Memory, next: State, m': Memory, item: Item)
    requires QueuedJobs(c, s, m) && s.control.Visiting? && RefusedNext(c, s, m, next, m', item)
    ensures QueuedJobs(c, next, m')
  {
    hide Stream;
  }

  lemma RefusedKeeps(c: Config, s: State, m: Memory, reference: Forecast, item: Item)
    requires Live(c, s, m, reference) && s.control.Visiting? && s.control.k < |c.fs| && Pending(s) < WORKER_CEILING
    requires Admit(c.env, c.q, c.fs[s.control.k], s.control.partial, s.files, s.bytes) == Refused(item)
    ensures var next := s.(control := Finishing, jobs := s.jobs + [item], channels := s.channels + [[ErrorEvent(0, item.error)]]);
            Live(c, next, m.(left := m.left + [Stream(c.env, c.q, item)]), reference)
  {
    var next := s.(control := Finishing, jobs := s.jobs + [item], channels := s.channels + [[ErrorEvent(0, item.error)]]);
    var m' := m.(left := m.left + [Stream(c.env, c.q, item)]);
    TailRefuses(c, s.control.k, s.control.partial, s.files, s.bytes, item);
    assert Stream(c.env, c.q, item) == [ErrorEvent(0, item.error)];
    hide Stream, TailForecast, Rest, Remaining, TakenJobs, QueuedJobs, Reduced, Unrolls, Ahead, Admit;
    AppendedReduced(c, s, m, next, m', item);
    AppendedRemaining(c, s, m, next, m', item);
    RefusedTaken(c, s, m, next, m', item);
    RefusedQueued(c, s, m, next, m', item);
  }

  /** At the end of the tree, and at a limit, the walk goes over to reducing what is pending. */
  lemma TailTurns(c: Config, k: nat, partial: Option<Partial>, files: nat, bytes: nat)
    requires k <= |c.fs|
    ensures k == |c.fs| ==> Alike(c, FromFile(k, partial, files, bytes, false), NoMore)
    ensures k < |c.fs| ==> var a := Admit(c.env, c.q, c.fs[k], partial, files, bytes);
                           a.LimitReached? ==> Alike(c, FromFile(k, partial, files, bytes, false), AtLimit(a.reason))
  {
    hide Admit, ReduceStream;
    if k == |c.fs| || Admit(c.env, c.q, c.fs[k], partial, files, bytes).LimitReached? {
      forall room: int ensures !EmptyAhead(c.env, c.q, c.fs, k, partial, files, bytes, room) {
        NotAhead(c, k, partial, files, bytes, room);
      }
    }
  }

  /** A walk that fails at an empty file leaves what is pending to be reduced before its failure. */
  lemma TailFails(c: Config, k: nat, partial: Option<Partial>, files: nat, bytes: nat)
    requires k < |c.fs| && Admit(c.env, c.q, c.fs[k], partial, files, bytes).EmptyFile?
    ensures Alike(c, FromFile(k, partial, files, bytes, true), Failing(LimitExceeded))
  {
    hide Admit, ReduceStream;
  }

  /** At an empty file the page ends at the last full boundary, or the walk has failed. */
  lemma EmptyKeeps(c: Config, s: State, m: Memory, reference: Forecast)
    requires Live(c, s, m, reference) && s.control.Visiting? && s.control.k < |c.fs| && Pending(s) < WORKER_CEILING
    requires Admit(c.env, c.q, c.fs[s.control.k], s.control.partial, s.files, s.bytes).EmptyFile?
    ensures var next := EndWalk(s, LimitStop(s.run, ByteLimit)); Bounded(c, next) && (Live(c, next, m, reference) || Stopped(next, reference))
  {
    var k, partial, tail := s.control.k, s.control.partial, TailOf(s);
    var items, next := s.jobs[s.base..], EndWalk(s, LimitStop(s.run, ByteLimit));
    assert Ahead(c, tail, WORKER_CEILING - 1 - |items|) && Ahead(c, tail, WORKER_CEILING - 1);
    if s.run.lastFull.None? {
      TailFails(c, k, partial, s.files, s.bytes);
      hide Ahead, Admit, Alike, Resting, Stream, Closing, Exposure, EmptyAhead;
      assert Remaining(c, s, m) == Rest(c, s.run, items, Doomed(tail)) by {
        hide TakenJobs, QueuedJobs, Reduced;
      }
      hide Rest, TailForecast;
      TailExchange(c, s.run, items, Doomed(tail), Failing(LimitExceeded));
      FailingRest(c, s, items, m, reference);
    }
  }

  lemma FailingRest(c: Config, s: State, items: seq<Item>, m: Memory, reference: Forecast)
    requires Live(c, s, m, reference) && s.control.Visiting? && items == s.jobs[s.base..]
    ensures var next := s.(walkError := Some(LimitExceeded), control := Finishing);
            Bounded(c, next) && Remaining(c, next, m) == Rest(c, s.run, items, Failing(LimitExceeded))
            && TakenJobs(c, next, m) && QueuedJobs(c, next, m) && Reduced(c, next, m)
  {
    hide Resting, Stream, Closing;
  }

  lemma VisitKeeps(c: Config, s: State, m: Memory, reference: Forecast) returns (m': Memory)
    requires ValidConfig(c) && Live(c, s, m, reference) && s.control.Visiting?
    ensures var next := Visit(c, s, s.control.k, s.control.partial); Bounded(c, next) && (Live(c, next, m', reference) || Stopped(next, reference))
  {
    var k, partial := s.control.k, s.control.partial;
    m' := m;
    hide Stream, Remaining, TakenJobs, QueuedJobs, Reduced, Admit, Alike, Schedule, LimitStop;
    if k == |c.fs| {
      TailTurns(c, k, partial, s.files, s.bytes);
      ControlKeeps(c, s, Visit(c, s, k, partial), m, reference);
    } else if Pending(s) == WORKER_CEILING {
      MakingRoomKeeps(c, s, m, reference);
    } else {
      var admission := Admit(c.env, c.q, c.fs[k], partial, s.files, s.bytes);
      if admission.LimitReached? {
        TailTurns(c, k, partial, s.files, s.bytes);
        ControlKeeps(c, s, Visit(c, s, k, partial), m, reference);
      } else if admission.EmptyFile? {
        EmptyKeeps(c, s, m, reference);
      } else {
        m' := m.(left := m.left + [Stream(c.env, c.q, admission.item)]);
        if admission.Refused? {
          RefusedKeeps(c, s, m, reference, admission.item);
        } else {
          ScheduleKeeps(c, s, m, reference, admission.item, admission.cost);
        }
      }
    }
  }

  // ---- every run --------------------------------------------------------------------------------

  /** The visitor's state after one reduction. */
  lemma AfterReduction(c: Config, s: State, s': State)
    requires s.base < |s.jobs| == |s.channels| && !s.control.Visiting? && !s.control.Done? && VisitorNext(c, s) == Some(s') && s.run.stop.None?
    ensures ReduceOldest(c, s).Some?
    ensures var (next, outcome) := ReduceOldest(c, s).value;
            || (outcome.Failed? && s.control.Finishing? && s' == next.(control := Done(Broken(outcome.error))))
            || (outcome.Failed? && !s.control.Finishing? && s' == next.(walkError := Some(outcome.error), control := Finishing))
            || (!outcome.Failed? && next.run.stop.Some? && s' == next.(control := Finishing))
            || (!outcome.Failed? && next.run.stop.None? && next.control == s.control && s' == Settled(next, outcome))
  {
    ReductionAlwaysMoreOrStops(c, s);
    hide ReduceOldest;
  }

  lemma ReductionAlwaysMoreOrStops(c: Config, s: State)
    requires s.base < |s.jobs| == |s.channels| && ReduceOldest(c, s).Some? && s.run.stop.None?
    ensures var (next, outcome) := ReduceOldest(c, s).value;
            next.control == s.control && (outcome.More? ==> next.run.stop.None?)
  {
  }

  lemma ReducingKeeps(c: Config, s: State, m: Memory, reference: Forecast, s': State) returns (m': Memory)
    requires Live(c, s, m, reference) && s.base < |s.jobs| && !s.control.Visiting? && VisitorNext(c, s) == Some(s')
    ensures Invariant(c, s', m', reference)
  {
    hide Reduce, Remaining, TakenJobs, QueuedJobs, ReduceOldest, VisitorNext, Exposure;
    if s.control.Done? {
      NoStepAfterDone(c, s);
      assert false;
    }
    if s.channels[s.base] == [] {
      HeadStaysOpen(c, s, m, reference);
    }
    AfterReduction(c, s, s');
    HeadOfChannel(c, s, m, reference);
    ReduceKeeps(c, s, m, reference);
    ReductionBounded(c, s);
    ExposedByWalk(c, s);
    m' := m.(left := m.left[s.base := m.left[s.base][1..]]);
  }

  /** An error met while the visitor makes room, or drains at a limit with more pending, is met in an exposed run. */
  lemma ExposedByWalk(c: Config, s: State)
    requires Bounded(c, s) && s.base < |s.jobs| && (s.control.MakingRoom? ==> Pending(s) == WORKER_CEILING)
    ensures s.control.MakingRoom? || (s.control.Draining? && Pending(s) > 1) ==> Exposure(c, TailOf(s), Pending(s) - 1)
  {
  }

  lemma NoStepAfterDone(c: Config, s: State)
    requires s.control.Done? && s.base <= |s.jobs| == |s.channels|
    ensures VisitorNext(c, s).None?
  {
  }

  lemma EndingKeeps(c: Config, s: State, m: Memory, reference: Forecast, s': State)
    requires Live(c, s, m, reference) && s.base == |s.jobs| && !s.control.Visiting? && VisitorNext(c, s) == Some(s')
    ensures Invariant(c, s', m, reference)
  {
    hide Reduce, ReduceOldest, Visit, Stream, Closing;
  }

  lemma VisitorKeeps(c: Config, s: State, m: Memory, reference: Forecast, s': State) returns (m': Memory)
    requires ValidConfig(c) && Invariant(c, s, m, reference) && VisitorNext(c, s) == Some(s')
    ensures Invariant(c, s', m', reference)
  {
    hide Reduce, TakenJobs, QueuedJobs, ReduceOldest, Visit;
    m' := m;
    if Live(c, s, m, reference) {
      if s.control.Visiting? {
        m' := VisitKeeps(c, s, m, reference);
      } else if s.base < |s.jobs| {
        m' := ReducingKeeps(c, s, m, reference, s');
      } else {
        EndingKeeps(c, s, m, reference, s');
      }
    } else if s.base < |s.jobs| && ReduceOldest(c, s).Some? {
      ReductionBounded(c, s);
    }
  }

  lemma StepKeeps(c: Config, s: State, m: Memory, reference: Forecast, s': State) returns (m': Memory)
    requires ValidConfig(c) && Invariant(c, s, m, reference) && Step(c, s, s')
    ensures Invariant(c, s', m', reference)
  {
    hide Invariant, WorkerStep, VisitorNext;
    if VisitorNext(c, s) == Some(s') {
      m' := VisitorKeeps(c, s, m, reference, s');
    } else {
      var w: nat :| WorkerStep(c, s, w, s');
      m' := WorkerKeeps(c, s, m, reference, w, s');
    }
  }

  /** The page reduced one file at a time, and whether its concurrent runs are exposed. */
  function Expected(c: Config): (f: Forecast)
    requires EnterPage(c.env, c.fs, c.resume).Entry?
    ensures f.ending == Walk(c.env, c.q, c.fs, c.resume)
  {
    ForeseeScans(c, EnterPage(c.env, c.fs, c.resume).run, EnterPage(c.env, c.fs, c.resume).k, EnterPage(c.env, c.fs, c.resume).partial, 0, 0, false);
    var entry := EnterPage(c.env, c.fs, c.resume);
    Foresee(c, entry.run, entry.k, entry.partial, 0, 0, false)
  }

  /** Any interleaving, from the state in which the boundary of the cursor has just been found. */
  ghost predicate Execution(c: Config, states: seq<State>) {
    && EnterPage(c.env, c.fs, c.resume).Entry?
    && |states| > 0 && states[0] == Begin(EnterPage(c.env, c.fs, c.resume))
    && forall i :: 0 <= i < |states| - 1 ==> Step(c, states[i], states[i + 1])
  }

  lemma {:induction false} EnteredRunning(env: Env, from: Cursor, fs: seq<SourceFile>, k: nat, run: Run)
    requires k <= |fs| && run.stop.None?
    ensures Enter(env, from, fs, k, run).Entry? ==> Enter(env, from, fs, k, run).run.stop.None?
    decreases |fs| - k
  {
    if k < |fs| {
      var seen := run.(work := run.work.(validated := run.work.validated + 1));
      EnteredRunning(env, from, fs, k + 1, seen.(prefix := seen.prefix + [(fs[k].position, fs[k].fingerprint)]));
    }
  }

  lemma BeginLive(c: Config)
    requires ValidConfig(c) && EnterPage(c.env, c.fs, c.resume).Entry?
    ensures Live(c, Begin(EnterPage(c.env, c.fs, c.resume)), Memory([], 0), Expected(c))
  {
    if c.resume.Some? {
      EnteredRunning(c.env, c.resume.value, c.fs, 0, NEW_RUN);
    }
  }

  lemma {:induction false} ExecutionKeeps(c: Config, states: seq<State>) returns (m: Memory)
    requires ValidConfig(c) && Execution(c, states)
    ensures Invariant(c, states[|states| - 1], m, Expected(c))
    decreases |states|
  {
    hide Invariant, Step, Begin, Expected;
    if |states| == 1 {
      BeginLive(c);
      m := Memory([], 0);
      LiveInvariant(c, states[0], m, Expected(c));
    } else {
      var before := states[..|states| - 1];
      m := ExecutionKeeps(c, before);
      assert states[|states| - 2] == before[|before| - 1];
      m := StepKeeps(c, states[|states| - 2], m, Expected(c), states[|states| - 1]);
    }
  }

  lemma LiveInvariant(c: Config, s: State, m: Memory, reference: Forecast)
    requires Live(c, s, m, reference)
    ensures Invariant(c, s, m, reference)
  {
  }

  /** No interleaving leaves the window, the channels or the budgets. */
  lemma WindowBound(c: Config, states: seq<State>)
    requires ValidConfig(c) && Execution(c, states)
    ensures Bounded(c, states[|states| - 1])
  {
    hide Bounded, Live;
    var m := ExecutionKeeps(c, states);
  }

  // ---- progress ---------------------------------------------------------------------------------

  /**
   * The job the visitor waits for has an event ready, or is being scanned by a worker that may send, or is next in
   * the queue of a worker that is idle or has just finished.
   */
  lemma HeadIsServed(c: Config, s: State, m: Memory, reference: Forecast)
    requires Live(c, s, m, reference) && s.base < |s.jobs|
    ensures s.channels[s.base] != []
            || (exists w :: 0 <= w < |s.workers| && s.workers[w].Scanning? && s.workers[w].id == s.base && s.workers[w].todo != [])
            || (|s.queue| > 0 && s.queue[0] == s.base && |s.workers| > 0
                && forall w :: 0 <= w < |s.workers| ==> s.workers[w].Idle? || (s.workers[w].Scanning? && s.workers[w].todo == []))
  {
    hide Stream, Remaining;
    assert Closing(m.left[s.base]);
    if s.channels[s.base] == [] {
      if s.base < m.front {
        assert Served(s, s.base);
        var w :| 0 <= w < |s.workers| && s.workers[w].Scanning? && s.workers[w].id == s.base;
        assert [] + s.workers[w].todo == m.left[s.base];
      } else {
        forall w | 0 <= w < |s.workers| ensures s.workers[w].Idle? || (s.workers[w].Scanning? && s.workers[w].todo == []) {
          if s.workers[w].Scanning? {
            assert s.channels[s.workers[w].id] + s.workers[w].todo == [];
          }
        }
      }
    }
  }

  /** A run that has not stopped can always take a step: no reachable state is a deadlock. */
  lemma NoDeadlock(c: Config, s: State, m: Memory, reference: Forecast) returns (s': State)
    requires Live(c, s, m, reference) && !s.control.Done?
    ensures Step(c, s, s')
  {
    if s.control.Visiting? || s.base == |s.jobs| || s.channels[s.base] != [] {
      VisitorMoves(c, s, m, reference);
      s' := VisitorNext(c, s).value;
    } else {
      HeadIsServed(c, s, m, reference);
      hide TakenJobs, QueuedJobs, Remaining, Reduced;
      if w :| 0 <= w < |s.workers| && s.workers[w].Scanning? && s.workers[w].id == s.base && s.workers[w].todo != [] {
        var id, todo := s.base, s.workers[w].todo;
        s' := s.(channels := s.channels[id := [todo[0]]], workers := s.workers[w := Scanning(id, todo[1..])]);
        assert WorkerStep(c, s, w, s');
      } else {
        if s.workers[0].Idle? {
          s' := s.(queue := s.queue[1..], workers := s.workers[0 := Scanning(s.queue[0], Stream(c.env, c.q, s.jobs[s.queue[0]]))]);
        } else {
          s' := s.(workers := s.workers[0 := Idle]);
        }
        assert WorkerStep(c, s, 0, s');
      }
    }
  }

  lemma VisitorMoves(c: Config, s: State, m: Memory, reference: Forecast)
    requires Live(c, s, m, reference) && !s.control.Done?
    requires s.control.Visiting? || s.base == |s.jobs| || s.channels[s.base] != []
    ensures VisitorNext(c, s).Some?
  {
    hide Reduce, Stream, Remaining, TakenJobs, QueuedJobs, Visit;
  }

  function Weighed(w: Worker): nat {
    match w
    case Idle => 1
    case Scanning(_, todo) => 2 + 2 * |todo|
    case Gone => 0
  }

  function WorkersWeight(ws: seq<Worker>): nat {
    if ws == [] then 0 else WorkersWeight(ws[..|ws| - 1]) + Weighed(ws[|ws| - 1])
  }

  function QueueWeight(c: Config, jobs: seq<Item>, queue: seq<nat>): nat {
    if queue == [] then 0
    else (if queue[0] < |jobs| then 2 + 2 * |Stream(c.env, c.q, jobs[queue[0]])| else 0) + QueueWeight(c, jobs, queue[1..])
  }

  function ChannelsWeight(channels: seq<seq<Event>>): nat {
    if channels == [] then 0 else ChannelsWeight(channels[..|channels| - 1]) + |channels[|channels| - 1]|
  }

  lemma {:induction false} WorkersUpdate(ws: seq<Worker>, w: nat, to: Worker)
    requires w < |ws|
    ensures WorkersWeight(ws[w := to]) + Weighed(ws[w]) == WorkersWeight(ws) + Weighed(to)
  {
    var n := |ws| - 1;
    if w < n {
      assert ws[w := to][..n] == ws[..n][w := to];
      WorkersUpdate(ws[..n], w, to);
    } else {
      assert ws[w := to][..n] == ws[..n];
    }
  }

  lemma {:induction false} ChannelsUpdate(channels: seq<seq<Event>>, id: nat, to: seq<Event>)
    requires id < |channels|
    ensures ChannelsWeight(channels[id := to]) + |channels[id]| == ChannelsWeight(channels) + |to|
  {
    var n := |channels| - 1;
    if id < n {
      assert channels[id := to][..n] == channels[..n][id := to];
      ChannelsUpdate(channels[..n], id, to);
    } else {
      assert channels[id := to][..n] == channels[..n];
    }
  }

  /** How far the visitor still has to go. */
  function ControlWeight(c: Config, control: Control): nat {
    match control
    case Visiting(k, _) => 3 + (if k <= |c.fs| then |c.fs| - k else 0)
    case MakingRoom(k, _) => 3 + (if k <= |c.fs| then |c.fs| - k else 0)
    case Draining(_) => 2
    case Finishing => 1
    case Done(_) => 0
  }

  function EventWeight(c: Config, s: State): nat {
    QueueWeight(c, s.jobs, s.queue) + WorkersWeight(s.workers) + ChannelsWeight(s.channels)
  }

  /** A measure on states: files to visit, then jobs to reduce, then whether to make room, then events to move. */
  ghost predicate Smaller(c: Config, s': State, s: State) {
    var (a', a) := (ControlWeight(c, s'.control), ControlWeight(c, s.control));
    || a' < a
    || (a' == a && Pending(s') < Pending(s))
    || (a' == a && Pending(s') == Pending(s) && s.control.Visiting? && !s'.control.Visiting?)
    || (a' == a && Pending(s') == Pending(s) && s.control.Visiting? == s'.control.Visiting? && EventWeight(c, s') < EventWeight(c, s))
  }

  lemma WorkerStepDecreases(c: Config, s: State, w: nat, s': State)
    requires WorkerStep(c, s, w, s')
    ensures Smaller(c, s', s)
  {
    hide Stream;
    var to := s'.workers[w];
    assert s'.workers == s.workers[w := to];
    WorkersUpdate(s.workers, w, to);
    if s'.channels != s.channels {
      ChannelsUpdate(s.channels, s.workers[w].id, [s.workers[w].todo[0]]);
    }
  }

  lemma VisitDecreases(c: Config, s: State, k: nat, partial: Option<Partial>)
    requires s.control == Visiting(k, partial) && k <= |c.fs| && s.base <= |s.jobs| == |s.channels|
    ensures Smaller(c, Visit(c, s, k, partial), s)
  {
    hide Admit, EnsureWorkers, LimitStop;
  }

  lemma ReduceDecreases(c: Config, s: State)
    requires s.base < |s.jobs| == |s.channels| && ReduceOldest(c, s).Some?
    ensures var (next, outcome) := ReduceOldest(c, s).value;
            && next.control == s.control && next.jobs == s.jobs
            && (if outcome.More? then next.base == s.base && EventWeight(c, next) < EventWeight(c, s) else next.base == s.base + 1)
  {
    hide Reduce, Stream;
    if s.channels[s.base] != [] {
      ChannelsUpdate(s.channels, s.base, s.channels[s.base][1..]);
    }
  }

  /** Every step of every run, stopped or canceled ones included, makes the state smaller: no run is infinite. */
  lemma StepDecreases(c: Config, s: State, s': State)
    requires Step(c, s, s')
    ensures Smaller(c, s', s)
  {
    hide Visit, Reduce, Stream, EventWeight;
    if VisitorNext(c, s) == Some(s') {
      if s.control.Visiting? {
        VisitDecreases(c, s, s.control.k, s.control.partial);
      } else {
        if s.base < |s.jobs| && ReduceOldest(c, s).Some? {
          ReduceDecreases(c, s);
        }
        hide ReduceOldest, EventWeight, LimitStop;
      }
    } else {
      var w: nat :| WorkerStep(c, s, w, s');
      WorkerStepDecreases(c, s, w, s');
    }
  }

  ghost predicate Stuck(c: Config, s: State) {
    forall s' :: !Step(c, s, s')
  }

  /** However the workers and the visitor interleave, a run that is not exposed ends with the page of one file at a time. */
  lemma UnexposedRunsAgree(c: Config, states: seq<State>)
    requires ValidConfig(c) && Execution(c, states) && !Expected(c).exposed
    ensures var last := states[|states| - 1];
            (last.control.Done? ==> last.control.ending == Expected(c).ending) && (Stuck(c, last) ==> last.control.Done?)
  {
    var last := states[|states| - 1];
    var m := ExecutionKeeps(c, states);
    if Stuck(c, last) && !last.control.Done? {
      if Live(c, last, m, Expected(c)) {
        var s' := NoDeadlock(c, last, m, Expected(c));
      } else {
        var s' := VisitorNext(c, last).value;
        assert Step(c, last, s');
      }
    }
  }
}
