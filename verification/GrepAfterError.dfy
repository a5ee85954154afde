/**
 * What a run may do after the walk itself has reduced an error: the visitor drains the pending jobs although the
 * workers are being canceled. A schedule of one small vault shows that the error can even be lost.
 */
module GrepAfterError {
  import opened Ordering
  import opened GrepScan
  import opened GrepPage
  import opened GrepConcurrent
  import opened GrepExposure

  const ENV := Env((_, _, _, _) => true, (_, _) => true, (_, _) => 0, _ => None)
  const BAD := SourceFile(Position("a", "a"), "a", 0, [Line(1, "a", 0, false)])
  const LONG := SourceFile(Position("b", "b"), "b", 1, [Line(2, "b", 0, true), Line(2, "c", 0, true)])
  const LAST := SourceFile(Position("c", "c"), "c", 2, [Line(1, "d", 0, true)])

  /** An invalid file, one the byte budget cuts short, and one the budget does not reach. */
  const VAULT := Config(ENV, Query(false, 0, 10, 10, 3), [BAD, LONG, LAST], None)

  const FIRST: Item := ScanItem(Job(BAD, 0, 0, 1))
  const SECOND: Item := ScanItem(Job(LONG, 0, 0, 2))
  const FAILURE := ErrorEvent(0, InvalidUTF8)
  const CUT := PartialEvent(0, Coords(2, 2, 2, 2), true)

  lemma VaultIsValid()
    ensures ValidConfig(VAULT) && EnterPage(ENV, VAULT.fs, None) == Entry(0, None, NEW_RUN)
    ensures Expected(VAULT) == Forecast(Broken(InvalidUTF8), true)
    ensures Admit(ENV, VAULT.q, BAD, None, 0, 0) == Admitted(FIRST, 1) && Stream(ENV, VAULT.q, FIRST) == [FAILURE]
    ensures Admit(ENV, VAULT.q, LONG, None, 1, 1) == Admitted(SECOND, 2) && Stream(ENV, VAULT.q, SECOND) == [CUT]
    ensures Admit(ENV, VAULT.q, LAST, None, 2, 3) == LimitReached(ByteLimit)
  {
    hide *;
    FirstFacts();
    SecondFacts();
    VaultWalks();
    VaultFails();
    VaultForeseen();
  }

  lemma VaultFails()
    ensures ReduceStream(ENV, VAULT.q, None, NEW_RUN, FRESH, FIRST, [FAILURE]).1 == Failed(InvalidUTF8)
  {
    assert [FAILURE] + [] == [FAILURE];
    ReduceFirst(ENV, VAULT.q, None, NEW_RUN, FRESH, FIRST, FAILURE, []);
  }

  lemma VaultForeseen()
    requires Admit(ENV, VAULT.q, BAD, None, 0, 0) == Admitted(FIRST, 1) && Stream(ENV, VAULT.q, FIRST) == [FAILURE]
    requires ReduceStream(ENV, VAULT.q, None, NEW_RUN, FRESH, FIRST, [FAILURE]).1 == Failed(InvalidUTF8)
    requires !EmptyAhead(ENV, VAULT.q, VAULT.fs, 0, None, 0, 0, WORKER_CEILING - 1) && WalksOn(VAULT, 1, None, 1, 1, 0)
    ensures ValidConfig(VAULT) && EnterPage(ENV, VAULT.fs, None) == Entry(0, None, NEW_RUN)
    ensures Expected(VAULT) == Forecast(Broken(InvalidUTF8), true)
  {
    hide Admit, Stream, ReduceStream, WalksOn, EmptyAhead, ScanFrom, Enter;
  }

  /** The walk goes on behind the failing file: it drains at its byte limit with the second file pending. */
  lemma VaultWalks()
    requires Admit(ENV, VAULT.q, BAD, None, 0, 0) == Admitted(FIRST, 1) && Admit(ENV, VAULT.q, LONG, None, 1, 1) == Admitted(SECOND, 2)
    ensures !EmptyAhead(ENV, VAULT.q, VAULT.fs, 0, None, 0, 0, WORKER_CEILING - 1) && WalksOn(VAULT, 1, None, 1, 1, 0)
    ensures Admit(ENV, VAULT.q, LAST, None, 2, 3) == LimitReached(ByteLimit)
  {
    var last := Admit(ENV, VAULT.q, LAST, None, 2, 3);
    assert last == LimitReached(ByteLimit);
    hide Admit;
    assert WalksOn(VAULT, 2, None, 2, 3, 1);
    assert !EmptyAhead(ENV, VAULT.q, VAULT.fs, 2, None, 2, 3, WORKER_CEILING - 3);
    assert !EmptyAhead(ENV, VAULT.q, VAULT.fs, 1, None, 1, 1, WORKER_CEILING - 2);
  }

  lemma FirstFacts()
    ensures Start(BAD.lines, 1) == 1
    ensures Admit(ENV, VAULT.q, BAD, None, 0, 0) == Admitted(FIRST, 1) && Stream(ENV, VAULT.q, FIRST) == [FAILURE]
  {
    assert Start(BAD.lines, 1) == 1 && Start(BAD.lines, 0) == 0;
    assert FirstWanted(FIRST.job) == 0;
    assert StopLine(VAULT.q, FIRST.job, 0) == 0;
    assert Delivered(VAULT.q, FIRST.job, 0) == 0;
  }

  lemma SecondFacts()
    ensures Start(LONG.lines, 2) == 4
    ensures Admit(ENV, VAULT.q, LONG, None, 1, 1) == Admitted(SECOND, 2) && Stream(ENV, VAULT.q, SECOND) == [CUT]
  {
    var ls, job := LONG.lines, SECOND.job;
    assert Start(ls, 1) == 2 && Start(ls, 0) == 0 && Start(ls, 2) == 4;
    assert FirstWanted(job) == 0;
    assert StopLine(VAULT.q, job, 1) == 1;
    assert StopLine(VAULT.q, job, 0) == 1;
    assert Delivered(VAULT.q, job, 1) == 1;
    assert CandidateEvents(VAULT.q, job, ReadsOf(ENV, job), 1, 0, 1) == [];
  }

  /** Both files scheduled, the walk at its byte limit, no worker started yet. */
  const SCHEDULED := State(Draining(ByteLimit), NEW_RUN, FRESH, [FIRST, SECOND], 0, [0, 1], [[], []], [Idle, Idle], 2, 3, None, false)

  lemma WorkersStarted()
    ensures EnsureWorkers([], 1) == [Idle] && EnsureWorkers([Idle], 2) == [Idle, Idle]
  {
    assert EnsureWorkers([Idle], 1) == [Idle] && EnsureWorkers([Idle, Idle], 2) == [Idle, Idle];
    assert [] + [Idle] == [Idle] && [Idle] + [Idle] == [Idle, Idle];
  }

  lemma BothScheduled() returns (states: seq<State>)
    ensures Execution(VAULT, states) && states[|states| - 1] == SCHEDULED
  {
    VaultIsValid();
    WorkersStarted();
    hide Expected, Stream, Admit, EnsureWorkers;
    var s0 := Begin(Entry(0, None, NEW_RUN));
    var s1 := s0.(control := Visiting(1, None), jobs := [FIRST], queue := [0], channels := [[]], workers := [Idle], files := 1, bytes := 1);
    var s2 := s1.(control := Visiting(2, None), jobs := [FIRST, SECOND], queue := [0, 1], channels := [[], []], workers := [Idle, Idle],
                  files := 2, bytes := 3);
    assert Visit(VAULT, s0, 0, None) == Schedule(s0, FIRST, 1, 0) && Visit(VAULT, s1, 1, None) == Schedule(s1, SECOND, 2, 1);
    assert s0.jobs + [FIRST] == [FIRST] && s0.channels + [[]] == [[]] && s0.queue + [0] == [0];
    assert s1.jobs + [SECOND] == s2.jobs && s1.channels + [[]] == s2.channels && s1.queue + [1] == s2.queue;
    assert VisitorNext(VAULT, s0) == Some(s1);
    assert VisitorNext(VAULT, s1) == Some(s2);
    assert VisitorNext(VAULT, s2) == Some(SCHEDULED);
    Extend(VAULT, [s0], s1);
    Extend(VAULT, [s0] + [s1], s2);
    Extend(VAULT, [s0] + [s1] + [s2], SCHEDULED);
    states := [s0] + [s1] + [s2] + [SCHEDULED];
  }

  /** The first worker has taken its job and sent the error. */
  const SENT := SCHEDULED.(queue := [1], channels := [[FAILURE], []], workers := [Scanning(0, []), Idle])

  lemma ErrorSent() returns (states: seq<State>)
    ensures Execution(VAULT, states) && states[|states| - 1] == SENT
  {
    states := BothScheduled();
    VaultIsValid();
    hide Expected, Stream, Admit;
    assert [FAILURE][1..] == [] && [0, 1][1..] == [1];
    var s1 := SCHEDULED.(queue := [1], workers := [Scanning(0, [FAILURE]), Idle]);
    assert WorkerStep(VAULT, SCHEDULED, 0, s1);
    Extend(VAULT, states, s1);
    states := states + [s1];
    assert s1.channels[0 := [FAILURE]] == SENT.channels && s1.workers[0 := Scanning(0, [])] == SENT.workers;
    assert WorkerStep(VAULT, s1, 0, SENT);
    Extend(VAULT, states, SENT);
    states := states + [SENT];
  }

  /** Both workers have sent, and the visitor has reduced the error. */
  const BOTH_SENT := State(Finishing, NEW_RUN.(work := Work(1, 0, 0)), FRESH, [FIRST, SECOND], 1, [], [[], [CUT]],
                           [Scanning(0, []), Scanning(1, [])], 2, 3, Some(InvalidUTF8), true)

  lemma VisitorFails()
    ensures VisitorNext(VAULT, SENT.(queue := [], channels := [[FAILURE], [CUT]], workers := [Scanning(0, []), Scanning(1, [])])) == Some(BOTH_SENT)
  {
    assert [[FAILURE], [CUT]][0 := []] == [[], [CUT]] && [FAILURE][1..] == [];
  }

  /** The same when the second worker has already sent its own event. */
  lemma ErrorReducedLate() returns (states: seq<State>)
    ensures Execution(VAULT, states) && states[|states| - 1] == BOTH_SENT
  {
    states := ErrorSent();
    VaultIsValid();
    hide Expected, Stream, Admit, VisitorNext;
    assert [CUT][1..] == [] && [FAILURE][1..] == [] && [1][1..] == [];
    var s1 := SENT.(queue := [], workers := [Scanning(0, []), Scanning(1, [CUT])]);
    assert WorkerStep(VAULT, SENT, 1, s1);
    Extend(VAULT, states, s1);
    states := states + [s1];
    var s2 := SENT.(queue := [], channels := [[FAILURE], [CUT]], workers := [Scanning(0, []), Scanning(1, [])]);
    assert s1.channels[1 := [CUT]] == s2.channels && s1.workers[1 := Scanning(1, [])] == s2.workers;
    assert WorkerStep(VAULT, s1, 1, s2);
    Extend(VAULT, states, s2);
    states := states + [s2];
    VisitorFails();
    Extend(VAULT, states, BOTH_SENT);
    states := states + [BOTH_SENT];
  }

  /** The page can succeed although the one-at-a-time page is an error: its cursor lies past the file that failed. */
  lemma ErrorCanBeLost() returns (states: seq<State>)
    ensures Execution(VAULT, states) && Expected(VAULT).ending == Broken(InvalidUTF8)
    ensures states[|states| - 1].control ==
            Done(Ended(NEW_RUN.(work := Work(2, 0, 0), stop := Some(Stop(ByteLimit, Cursor(LONG.position, [], Some(Partial(1, Coords(2, 2, 2, 2)))))))))
  {
    VaultIsValid();
    states := ErrorReducedLate();
    hide Expected, Stream, Admit;
    var s := states[|states| - 1];
    var stopped := s.run.(work := Work(2, 0, 0), stop := Some(Stop(ByteLimit, Cursor(LONG.position, [], Some(Partial(1, Coords(2, 2, 2, 2)))))));
    var s1 := s.(run := stopped, base := 2, channels := [[], []]);
    assert s.channels[1 := []] == s1.channels && [CUT][1..] == [];
    assert VisitorNext(VAULT, s) == Some(s1);
    Extend(VAULT, states, s1);
    states := states + [s1];
    var s2 := s1.(control := Done(Ended(stopped)));
    assert VisitorNext(VAULT, s1) == Some(s2);
    Extend(VAULT, states, s2);
    states := states + [s2];
  }
}
