/** What happens when nothing goes wrong: the mutation succeeds. */
module MutationSuccess {
  import opened Ordering
  import opened Bytes
  import opened MutationProtocol
  import opened MutationSystem

  /** Nothing stands in the way from the start: the name is free to create, or holds the expected file to replace. */
  ghost predicate Suitable(c: Config) {
    if c.op.Create? then c.target !in c.initial else c.target in c.initial && c.initial[c.target].stamp == c.expected
  }

  /** A regular step in which the helper, if it reports its executable, is the launcher's own. */
  ghost predicate QuietStep(c: Config, s: State, s': State) {
    Regular(c, s, s') && (|s'.replies| > 0 ==> s'.replies[0].executable == c.executable)
  }

  ghost predicate Undisturbed(c: Config, s: State) {
    && (s.mode.Talking? || (s.mode.Waiting? && s.mode.terminal.Some?) || (s.mode.Settling? && s.mode.terminal.Some? && s.mode.exited)
        || (s.mode.Returned? && ReportOf(s.mode.result).Success?))
    && (s.helper.Working? || s.helper == Exited(true))
    && (s.verdict.Some? ==> s.completed && s.verdict.value.terminal.Committed?)
    && (|s.replies| > 0 ==> s.replies[0].executable == c.executable)
    && s.foreign == At(c.initial, c.target)
  }

  ghost predicate Fair(c: Config, s: State) {
    Inv(c, s) && Undisturbed(c, s)
  }

  lemma OldTarget(c: Config, s: State)
    requires Inv(c, s) && Undisturbed(c, s) && Suitable(c) && !s.completed
    ensures if c.op.Create? then c.target !in s.dir else c.op.Replace? ==> c.target in s.dir && s.dir[c.target].stamp == c.expected
  {
    hide Wires, Files, Judged, Modes;
  }

  lemma ParentKeepsFair(c: Config, s: State, s': State)
    requires ValidConfig(c) && Fair(c, s) && ParentReceives(c, s, s')
    ensures Undisturbed(c, s')
  {
    ParentHears(c, s);
    ParentReceivesEither(c, s, s');
    LastReply(c, s);
    hide Wires, Disk, Accepts, Received, ReadFrame, ValidConfig;
  }

  /** A helper that is done has sent everything, and its first reply names its executable. */
  lemma LastReply(c: Config, s: State)
    requires Inv(c, s)
    ensures s.helper == Exited(true) ==> s.b == 8
    ensures s.a == 1 && s.a < s.b ==> |s.replies| > 0 && s.a / 2 == 0
    ensures s.helper.Working? ==> !s.mode.Returned? && !s.mode.Cleaning? && !s.mode.Settling?
    ensures s.mode.Talking? ==> s.a <= 7
  {
    hide DownStream, UpStream, Replied, Disk;
  }

  lemma TerminalSucceeds(c: Config, s: State)
    requires Inv(c, s) && Undisturbed(c, s) && s.mode.Settling?
    ensures s.mode.terminal == s.verdict && MapTerminal(s.mode.terminal.value).Success?
  {
    hide Wires, Files, Target;
  }

  lemma FinishKeepsFair(c: Config, s: State, s': State)
    requires ValidConfig(c) && Fair(c, s) && (ParentWaits(s, s') || ParentSettles(c, s, s') || ParentReaps(s, s') || ParentCleans(c, s, s') || ParentSends(c, s, s'))
    ensures Undisturbed(c, s')
  {
    if s.mode.Settling? {
      TerminalSucceeds(c, s);
    }
    hide Inv, ValidConfig, Cleanup, MapTerminal, Sends, Down;
  }

  lemma HelperHearsFair(c: Config, s: State, s': State)
    requires ValidConfig(c) && Fair(c, s) && Suitable(c) && HelperReceives(c, s, s')
    ensures Undisturbed(c, s')
  {
    HelperHears(c, s);
    LastReply(c, s);
    if s.b == 0 {
      NotYetDone(c, s);
      OldTarget(c, s);
    }
    hide Inv, ReadFrame, Accepts, Received, ValidConfig, Suitable;
  }

  lemma NotYetDone(c: Config, s: State)
    requires Inv(c, s)
    ensures s.b < 7 ==> !s.completed
    ensures s.helper.Working? && s.b == 1 && s.made.None? ==> c.stage !in s.dir
    ensures s.b == 4 ==> s.ha == HelperAt(c, 4)
  {
    hide DownStream, UpStream, Replied, Modes;
  }

  lemma HelperWorksFair(c: Config, s: State, s': State)
    requires ValidConfig(c) && Fair(c, s) && (HelperTakesPayload(s, s') || HelperCreates(c, s, s') || HelperWrites(c, s, s') || HelperLeaves(c, s, s'))
    ensures Undisturbed(c, s')
  {
    LastReply(c, s);
    NotYetDone(c, s);
    hide Inv, ValidConfig, Cleanup;
  }

  lemma HelperSendsFair(c: Config, s: State, s': State)
    requires ValidConfig(c) && Fair(c, s) && HelperSends(c, s, s') && (|s'.replies| > 0 ==> s'.replies[0].executable == c.executable)
    ensures Undisturbed(c, s')
  {
    hide Inv, ValidConfig, Sends, Ready, Frame;
  }

  lemma HelperJudgesFair(c: Config, s: State, s': State)
    requires ValidConfig(c) && Fair(c, s) && Suitable(c) && (HelperChecks(c, s, s') || HelperRenames(c, s, s') || HelperSweeps(c, s, s'))
    ensures Undisturbed(c, s')
  {
    if !s.completed {
      OldTarget(c, s);
    }
    DoneHasVerdict(c, s);
    hide Inv, Suitable, Cleanup;
  }

  lemma DoneHasVerdict(c: Config, s: State)
    requires Inv(c, s)
    ensures s.completed ==> s.verdict.Some?
  {
    hide Wires, Files, Target, Modes;
  }

  lemma QuietStepKeeps(c: Config, s: State, s': State)
    requires ValidConfig(c) && Suitable(c) && Fair(c, s) && QuietStep(c, s, s')
    ensures Fair(c, s')
  {
    StepKeeps(c, s, s');
    hide Inv, Undisturbed, ParentSends, ParentReceives, ParentReaps, ParentCleans, ParentWaits, ParentSettles, HelperReceives, HelperTakesPayload,
         HelperCreates, HelperWrites, HelperSends, HelperChecks, HelperRenames, HelperSweeps, HelperLeaves, ValidConfig, Suitable;
    if ParentReceives(c, s, s') {
      ParentKeepsFair(c, s, s');
    } else if HelperReceives(c, s, s') {
      HelperHearsFair(c, s, s');
    } else if HelperTakesPayload(s, s') || HelperCreates(c, s, s') || HelperWrites(c, s, s') || HelperLeaves(c, s, s') {
      HelperWorksFair(c, s, s');
    } else if HelperSends(c, s, s') {
      HelperSendsFair(c, s, s');
    } else if HelperChecks(c, s, s') || HelperRenames(c, s, s') || HelperSweeps(c, s, s') {
      HelperJudgesFair(c, s, s');
    } else {
      FinishKeepsFair(c, s, s');
    }
  }

  ghost predicate QuietRun(c: Config, states: seq<State>) {
    |states| > 0 && states[0] == Begin(c) && forall i :: 0 <= i < |states| - 1 ==> QuietStep(c, states[i], states[i + 1])
  }

  lemma {:induction false} QuietRunKeeps(c: Config, states: seq<State>)
    requires ValidConfig(c) && Suitable(c) && QuietRun(c, states)
    ensures Fair(c, states[|states| - 1])
    decreases |states|
  {
    hide Inv, QuietStep;
    if |states| == 1 {
      BeginKeeps(c);
    } else {
      hide Undisturbed, Begin;
      QuietRunKeeps(c, states[..|states| - 1]);
      QuietStepKeeps(c, states[|states| - 2], states[|states| - 1]);
    }
  }

  /** An undisturbed run of a suitable mutation that has returned has succeeded, and the target holds the payload. */
  lemma UndisturbedSucceeds(c: Config, states: seq<State>)
    requires ValidConfig(c) && Suitable(c) && QuietRun(c, states) && states[|states| - 1].mode.Returned?
    ensures var s := states[|states| - 1];
            ReportOf(s.mode.result).Success? && c.target in s.dir && s.dir[c.target].content == c.payload && c.stage !in s.dir
  {
    QuietRunKeeps(c, states);
    hide Wires, Judged, QuietStep, ReportOf;
  }

  /** There is such a run: an undisturbed mutation can always go on until it has returned. */
  lemma SomeRunSucceeds(c: Config) returns (states: seq<State>)
    requires ValidConfig(c) && Suitable(c)
    ensures QuietRun(c, states) && states[|states| - 1].mode.Returned? && ReportOf(states[|states| - 1].mode.result).Success?
  {
    states := [Begin(c)];
    QuietRunKeeps(c, states);
    states := RunOn(c, states);
  }

  lemma {:induction false} RunOn(c: Config, states: seq<State>) returns (longer: seq<State>)
    requires ValidConfig(c) && Suitable(c) && QuietRun(c, states) && Fair(c, states[|states| - 1])
    ensures QuietRun(c, longer) && longer[|longer| - 1].mode.Returned? && ReportOf(longer[|longer| - 1].mode.result).Success?
    decreases |c.payload| + 25 - Progress(states[|states| - 1])
  {
    hide ValidConfig, Suitable, Fair, Begin, QuietStep, Progress, ReportOf;
    var s := states[|states| - 1];
    longer := states;
    if (s.mode.Returned? || s.mode.Crashed?) && s.helper.Exited? {
      NeverCrashed(c, s);
      UndisturbedSucceeds(c, states);
    } else {
      var next := Onward(c, s);
      longer := RunOn(c, states + [next]);
    }
  }

  lemma NeverCrashed(c: Config, s: State)
    requires Fair(c, s)
    ensures !s.mode.Crashed?
  {
    hide Inv;
  }

  lemma Onward(c: Config, s: State) returns (next: State)
    requires ValidConfig(c) && Suitable(c) && Fair(c, s) && !((s.mode.Returned? || s.mode.Crashed?) && s.helper.Exited?)
    ensures QuietStep(c, s, next) && Fair(c, next) && Progress(s) < Progress(next) <= |c.payload| + 25
  {
    next := NoDeadlock(c, s);
    assert QuietStep(c, s, next) by {
      hide Inv, Regular, ValidConfig;
    }
    QuietStepKeeps(c, s, next);
    hide Inv, Regular, Undisturbed, ValidConfig, Suitable, Progress;
    RegularStepsAreBounded(c, s, next);
  }
}
