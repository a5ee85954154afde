/** What the caller of a mutation is told, and what each answer says about what was found and what was done. */
module MutationAnswers {
  import opened Ordering
  import opened Bytes
  import opened MutationProtocol
  import opened MutationSystem

  /** The entry to replace is the version the caller saw. */
  predicate Expects(c: Config, e: Option<Entry>) {
    e.Some? && e.value.stamp == c.expected
  }

  function Exists(c: Config): Control {
    Verdict(c.op, Refused, DestinationExistsCode)
  }

  function Changed(c: Config): Control {
    Verdict(c.op, Refused, SourceChangedCode)
  }

  /** What the helper's verdict says about what it found at the target. */
  ghost predicate Found(c: Config, s: State) {
    && (s.verdict.Some? ==> s.verdict.value.phase.Terminal? && ValidTerminal(s.verdict.value.terminal, s.verdict.value.code))
    && (s.verdict.Some? && s.verdict.value.code.CanceledCode? ==> false)
    && (c.op.Replace? && (s.checked || s.completed) ==> Expects(c, s.foreign))
    && (c.op.Replace? && s.verdict.Some? && !s.checked ==> s.verdict.value == Changed(c) && !Expects(c, s.foreign))
    && (s.verdict.Some? && s.verdict.value.code.SourceChangedCode? ==> c.op.Replace? && !s.checked)
    && (s.verdict.Some? && s.verdict.value.code.DestinationExistsCode? ==> c.op.Create? && s.foreign.Some?)
    && (c.op.Create? && s.verdict.Some? && !s.checked ==> s.verdict.value == Exists(c))
    && (c.op.Create? && s.completed ==> s.foreign.None?)
    && (c.op.Create? && c.target in c.initial ==> s.foreign.Some? && !s.checked)
    && (s.verdict.Some? && s.verdict.value.code.UnsupportedCode? ==> c.op.Create?)
    && (s.completed ==> s.verdict.Some?)
  }

  /** What the launcher returned says about the exchange. */
  ghost predicate Told(c: Config, s: State) {
    match s.mode
    case Waiting(t) => t.None? ==> s.a == 7
    case Settling(t, _) => t.None? ==> s.a == 7
    case Returned(Ran(t)) => s.a == 8 && s.verdict == Some(t)
    case Returned(RunFailed(UncertainOutcome)) => s.a == 7
    case Returned(RunFailed(UncertainCleanup)) => c.stage in s.dir
    case Returned(RunFailed(_)) => s.a <= 6
    case _ => true
  }

  lemma FoundKept(c: Config, s: State, s': State)
    requires Found(c, s) && s'.verdict == s.verdict && s'.checked == s.checked && s'.completed == s.completed && s'.foreign == s.foreign
    ensures Found(c, s')
  {
  }

  ghost predicate SameFindings(s: State, s': State) {
    s'.verdict == s.verdict && s'.checked == s.checked && s'.completed == s.completed && s'.foreign == s.foreign
  }

  lemma ParentTalkJudgesNothing(c: Config, s: State, s': State)
    requires ParentSends(c, s, s') || ParentReceives(c, s, s')
    ensures SameFindings(s, s')
  {
    if ParentReceives(c, s, s') {
      ParentReceivesEither(c, s, s');
    }
    hide ParentReceives, ReadFrame, Frame, Sends, Outgoing, Down, Fits, Received;
  }

  lemma HelperTalkJudgesNothing(c: Config, s: State, s': State)
    requires HelperReceives(c, s, s') || HelperTakesPayload(s, s') || HelperSends(c, s, s')
    ensures SameFindings(s, s')
  {
    if HelperReceives(c, s, s') {
      HelperReceivesEither(c, s, s');
    }
    hide HelperReceives, ReadFrame, Frame, Sends, Fits, Ready, Received;
  }

  lemma FailingJudgesNothing(c: Config, s: State, s': State)
    requires ParentFails(c, s, s') || ParentDies(c, s, s') || HelperFails(c, s, s')
    ensures SameFindings(s, s')
  {
    hide Unsent, Unreplied;
  }

  /** Steps that judge nothing. */
  lemma TalkJudgesNothing(c: Config, s: State, s': State)
    requires ParentSends(c, s, s') || ParentReceives(c, s, s') || HelperReceives(c, s, s') || HelperTakesPayload(s, s') || HelperSends(c, s, s')
             || ParentFails(c, s, s') || ParentDies(c, s, s') || HelperFails(c, s, s')
    ensures SameFindings(s, s')
  {
    hide ParentSends, ParentReceives, HelperReceives, HelperTakesPayload, HelperSends, ParentFails, ParentDies, HelperFails, SameFindings;
    if ParentSends(c, s, s') || ParentReceives(c, s, s') {
      ParentTalkJudgesNothing(c, s, s');
    } else if HelperReceives(c, s, s') || HelperTakesPayload(s, s') || HelperSends(c, s, s') {
      HelperTalkJudgesNothing(c, s, s');
    } else {
      FailingJudgesNothing(c, s, s');
    }
  }

  lemma SettlingJudgesNothing(c: Config, s: State, s': State)
    requires ParentSettles(c, s, s')
    ensures SameFindings(s, s') && s'.b == s.b
  {
    hide Cleanup;
  }

  lemma EndingJudgesNothing(c: Config, s: State, s': State)
    requires ParentReaps(s, s') || ParentCleans(c, s, s') || ParentWaits(s, s') || ParentSettles(c, s, s') || ParentKills(s, s')
    ensures SameFindings(s, s') && s'.b == s.b
  {
    hide Cleanup, ParentSettles;
    if ParentSettles(c, s, s') {
      SettlingJudgesNothing(c, s, s');
    }
  }

  lemma FileWorkJudgesNothing(c: Config, s: State, s': State)
    requires HelperCreates(c, s, s') || HelperWrites(c, s, s') || HelperSweeps(c, s, s') || HelperLeaves(c, s, s') || HelperKilled(s, s')
    ensures SameFindings(s, s') && s'.b == s.b
  {
    hide Cleanup, WroteStamp, ValidStamp;
  }

  lemma WorkJudgesNothing(c: Config, s: State, s': State)
    requires ParentReaps(s, s') || ParentCleans(c, s, s') || ParentWaits(s, s') || ParentSettles(c, s, s') || HelperCreates(c, s, s')
             || HelperWrites(c, s, s') || HelperSweeps(c, s, s') || HelperLeaves(c, s, s') || ParentKills(s, s') || HelperKilled(s, s')
    ensures SameFindings(s, s') && s'.b == s.b
  {
    hide ParentReaps, ParentCleans, ParentWaits, ParentSettles, ParentKills, HelperCreates, HelperWrites, HelperSweeps, HelperLeaves, HelperKilled, SameFindings;
    if ParentReaps(s, s') || ParentCleans(c, s, s') || ParentWaits(s, s') || ParentSettles(c, s, s') || ParentKills(s, s') {
      EndingJudgesNothing(c, s, s');
    } else {
      FileWorkJudgesNothing(c, s, s');
    }
  }

  lemma TargetSeen(c: Config, s: State)
    requires Inv(c, s)
    ensures !s.completed ==> At(s.dir, c.target) == s.foreign
    ensures s.verdict.None? ==> !s.completed
    ensures s.checked ==> s.b >= 7
    ensures s.completed ==> c.target in s.dir && s.verdict.Some?
  {
    hide Wires, Files, Modes;
  }

  lemma CheckFinds(c: Config, s: State, s': State)
    requires (c.op.Create? || c.op.Replace?) && Found(c, s) && HelperChecks(c, s, s') && At(s.dir, c.target) == s.foreign && !s.completed
    requires (c.target in c.initial && c.op.Create? ==> s.foreign.Some?)
    ensures Found(c, s')
  {
  }

  lemma RenameFinds(c: Config, s: State, s': State)
    requires Found(c, s) && HelperRenames(c, s, s') && At(s.dir, c.target) == s.foreign && !s.completed && (c.op.Create? || c.op.Replace?)
    ensures Found(c, s')
  {
  }

  lemma FailedRenameFinds(c: Config, s: State, s': State)
    requires Found(c, s) && RenameFails(c, s, s') && At(s.dir, c.target) == s.foreign && !s.completed && (c.op.Create? || c.op.Replace?)
    ensures Found(c, s')
  {
  }

  lemma OutsiderFinds(c: Config, s: State, s': State)
    requires Found(c, s) && Outsider(c, s, s') && (s.completed ==> s.verdict.Some?) && (!s.completed ==> At(s.dir, c.target) == s.foreign)
    requires s.completed ==> c.target in s.dir
    ensures Found(c, s')
  {
  }

  lemma JudgingFinds(c: Config, s: State, s': State)
    requires ValidConfig(c) && Inv(c, s) && Found(c, s) && (HelperChecks(c, s, s') || HelperRenames(c, s, s') || RenameFails(c, s, s') || Outsider(c, s, s'))
    ensures Found(c, s')
  {
    TargetSeen(c, s);
    assert c.op.Create? || c.op.Replace?;
    hide Inv, ValidConfig, Outsider;
    if Outsider(c, s, s') {
      hide HelperChecks, HelperRenames, RenameFails;
      OutsiderFinds(c, s, s');
    } else {
      assert s.verdict.None? && (c.target in c.initial && c.op.Create? ==> s.foreign.Some?);
      hide HelperChecks, HelperRenames, RenameFails, Found;
      if HelperChecks(c, s, s') {
        CheckFinds(c, s, s');
      } else if HelperRenames(c, s, s') {
        RenameFinds(c, s, s');
      } else {
        FailedRenameFinds(c, s, s');
      }
    }
  }

  lemma StepFinds(c: Config, s: State, s': State)
    requires ValidConfig(c) && Inv(c, s) && Found(c, s) && Step(c, s, s')
    ensures Found(c, s')
  {
    hide Inv, Found, ParentSends, ParentReceives, ParentReaps, ParentCleans, ParentWaits, ParentSettles, HelperReceives, HelperTakesPayload, HelperCreates,
         HelperWrites, HelperSends, HelperChecks, HelperRenames, HelperSweeps, HelperLeaves, ParentFails, ParentDies, ParentKills, HelperFails,
         HelperKilled, RenameFails, Outsider, ValidConfig;
    if HelperChecks(c, s, s') || HelperRenames(c, s, s') || RenameFails(c, s, s') || Outsider(c, s, s') {
      JudgingFinds(c, s, s');
    } else {
      if ParentSends(c, s, s') || ParentReceives(c, s, s') || HelperReceives(c, s, s') || HelperTakesPayload(s, s') || HelperSends(c, s, s')
         || ParentFails(c, s, s') || ParentDies(c, s, s') || HelperFails(c, s, s') {
        TalkJudgesNothing(c, s, s');
      } else {
        WorkJudgesNothing(c, s, s');
      }
      FoundKept(c, s, s');
    }
  }

  // ---- what the launcher returns ----------------------------------------------------------------

  /** A launcher that waits for the helper's end has its terminal record, or has taken none; one that has it knows of a good end. */
  lemma SettlesKnowing(c: Config, s: State)
    requires Inv(c, s)
    ensures s.mode.Settling? && s.mode.terminal.Some? ==> s.a == 8 && s.verdict == s.mode.terminal && s.mode.exited
    ensures s.mode.Cleaning? ==> s.a <= 6 && (s.mode.error.Deadline? || s.mode.error.ContextCanceled? || s.mode.error.Other?)
    ensures s.mode.Returned? ==> s.helper.Exited?
    ensures s.mode.Talking? ==> s.a <= 7
  {
    hide DownStream, UpStream, Replied, Disk, Honest;
  }

  lemma ParentTellsReceiving(c: Config, s: State, s': State)
    requires Told(c, s) && s.mode.Talking? && s.a <= 7 && ParentReceives(c, s, s')
    ensures Told(c, s')
  {
    ParentReceivesEither(c, s, s');
    hide ParentReceives, ReadFrame, Received;
  }

  lemma ParentTellsTalking(c: Config, s: State, s': State)
    requires Inv(c, s) && Told(c, s) && (ParentSends(c, s, s') || ParentReceives(c, s, s') || ParentFails(c, s, s') || ParentDies(c, s, s'))
    ensures Told(c, s')
  {
    SettlesKnowing(c, s);
    hide Inv;
    if ParentReceives(c, s, s') {
      ParentReceivesEither(c, s, s');
      ParentTellsReceiving(c, s, s');
    } else {
      hide ParentReceives, Frame, Sends, Outgoing, Down, Fits, Unsent;
    }
  }

  /** A cleanup fails only with the stage still there. */
  lemma FailedCleanupLeaves(c: Config, dir: Dir, expected: Option<Stamp>, dir': Dir)
    requires Cleanup(c, dir, expected, dir', false)
    ensures c.stage in dir'
  {
  }

  lemma ParentTellsCleaning(c: Config, s: State, s': State)
    requires s.mode.Cleaning? && s.a <= 6 && (s.mode.error.Deadline? || s.mode.error.ContextCanceled? || s.mode.error.Other?) && ParentCleans(c, s, s')
    ensures Told(c, s')
  {
    var ok: bool :| Cleanup(c, s.dir, s.known, s'.dir, ok) && s' == s.(dir := s'.dir, mode := Returned(RunFailed(if ok then s.mode.error else UncertainCleanup)));
    if !ok {
      FailedCleanupLeaves(c, s.dir, s.known, s'.dir);
    }
    hide Cleanup;
  }

  lemma ParentTellsSettling(c: Config, s: State, s': State)
    requires Told(c, s) && s.mode.Settling? && ParentSettles(c, s, s')
    requires s.mode.terminal.Some? ==> s.a == 8 && s.verdict == s.mode.terminal && s.mode.exited
    ensures Told(c, s')
  {
    if s.mode.terminal.Some? && !s.mode.terminal.value.terminal.Committed? && !s.mode.terminal.value.terminal.Uncertain? {
      var ok: bool :| Cleanup(c, s.dir, s.known, s'.dir, ok)
                      && s' == s.(dir := s'.dir, mode := Returned(if ok then Ran(s.mode.terminal.value) else RunFailed(UncertainCleanup)));
      if !ok {
        FailedCleanupLeaves(c, s.dir, s.known, s'.dir);
      }
    }
    hide Cleanup;
  }

  lemma ParentTellsEnding(c: Config, s: State, s': State)
    requires Inv(c, s) && Told(c, s)
    requires ParentReaps(s, s') || ParentCleans(c, s, s') || ParentWaits(s, s') || ParentSettles(c, s, s') || ParentKills(s, s')
    ensures Told(c, s')
  {
    SettlesKnowing(c, s);
    hide Inv, Cleanup;
    if ParentCleans(c, s, s') {
      ParentTellsCleaning(c, s, s');
    } else if ParentSettles(c, s, s') {
      ParentTellsSettling(c, s, s');
    } else {
      hide ParentCleans, ParentSettles;
    }
  }

  lemma HelperTellsNothing(c: Config, s: State, s': State)
    requires Inv(c, s) && Told(c, s) && s'.mode == s.mode && s'.a == s.a
    requires s.mode.Returned? ==> s'.verdict == s.verdict && (c.stage in s.dir ==> c.stage in s'.dir)
    ensures Told(c, s')
  {
  }

  lemma TalkKeepsMode(c: Config, s: State, s': State)
    requires HelperReceives(c, s, s') || HelperTakesPayload(s, s') || HelperSends(c, s, s') || HelperFails(c, s, s')
    ensures s'.mode == s.mode && s'.a == s.a && !s.helper.Exited?
  {
    hide Accepts, Received, ReadFrame, Frame, Sends, Outgoing, Down, Fits, Ready, Unreplied;
  }

  lemma WorkKeepsMode(c: Config, s: State, s': State)
    requires HelperCreates(c, s, s') || HelperWrites(c, s, s') || HelperChecks(c, s, s') || HelperRenames(c, s, s') || HelperSweeps(c, s, s')
             || HelperLeaves(c, s, s') || HelperKilled(s, s') || RenameFails(c, s, s')
    ensures s'.mode == s.mode && s'.a == s.a && !s.helper.Exited?
  {
    hide Cleanup;
  }

  lemma OutsiderKeepsMode(c: Config, s: State, s': State)
    requires ValidConfig(c) && Outsider(c, s, s')
    ensures s'.mode == s.mode && s'.a == s.a && s'.verdict == s.verdict && (c.stage in s.dir ==> c.stage in s'.dir)
  {
    NamesDiffer(c);
  }

  lemma StepTells(c: Config, s: State, s': State)
    requires ValidConfig(c) && Inv(c, s) && Told(c, s) && Step(c, s, s')
    ensures Told(c, s')
  {
    hide Inv, Told, ParentSends, ParentReceives, ParentReaps, ParentCleans, ParentWaits, ParentSettles, HelperReceives, HelperTakesPayload, HelperCreates,
         HelperWrites, HelperSends, HelperChecks, HelperRenames, HelperSweeps, HelperLeaves, ParentFails, ParentDies, ParentKills, HelperFails,
         HelperKilled, RenameFails, Outsider, ValidConfig;
    SettlesKnowing(c, s);
    if ParentSends(c, s, s') || ParentReceives(c, s, s') || ParentFails(c, s, s') || ParentDies(c, s, s') {
      ParentTellsTalking(c, s, s');
    } else if ParentReaps(s, s') || ParentCleans(c, s, s') || ParentWaits(s, s') || ParentSettles(c, s, s') || ParentKills(s, s') {
      ParentTellsEnding(c, s, s');
    } else {
      if HelperReceives(c, s, s') || HelperTakesPayload(s, s') || HelperSends(c, s, s') || HelperFails(c, s, s') {
        TalkKeepsMode(c, s, s');
      } else if Outsider(c, s, s') {
        OutsiderKeepsMode(c, s, s');
      } else {
        WorkKeepsMode(c, s, s');
      }
      HelperTellsNothing(c, s, s');
    }
  }

  // ---- every answer -----------------------------------------------------------------------------

  lemma {:induction false} RunTells(c: Config, states: seq<State>)
    requires ValidConfig(c) && Run(c, states)
    ensures Inv(c, states[|states| - 1]) && Found(c, states[|states| - 1]) && Told(c, states[|states| - 1])
    decreases |states|
  {
    RunKeeps(c, states);
    if |states| > 1 {
      hide Inv, Found, Told, Step;
      var n := |states| - 1;
      RunTells(c, states[..n]);
      assert states[..n][n - 1] == states[n - 1];
      StepFinds(c, states[n - 1], states[n]);
      StepTells(c, states[n - 1], states[n]);
    } else {
      hide Inv;
    }
  }

  /**
   * `uncertain` is the answer only if a stage file is left behind, or the commit was sent and no terminal record came
   * back, or the terminal record says so itself.
   */
  lemma UncertainWhen(c: Config, states: seq<State>)
    requires ValidConfig(c) && Run(c, states) && states[|states| - 1].mode.Returned?
    ensures var s := states[|states| - 1];
            ReportOf(s.mode.result).UncertainReport? ==>
              c.stage in s.dir || s.a == 7 || (s.a == 8 && s.verdict.Some? && s.verdict.value.terminal.Uncertain?)
  {
    RunTells(c, states);
    hide Inv, Run;
  }

  /** Before the commit was sent, the answer is that of the failure met, unless the stage could not be removed. */
  lemma EarlyFailureIsNamed(c: Config, states: seq<State>)
    requires ValidConfig(c) && Run(c, states) && states[|states| - 1].mode.Returned? && states[|states| - 1].mode.result.RunFailed?
    ensures var s := states[|states| - 1]; var report := ReportOf(s.mode.result);
            && (report.UncertainReport? || report.Timeout? || report.Canceled? || report.PathDenied?)
            && (s.a <= 6 && c.stage !in s.dir ==> !report.UncertainReport?)
            && (report.Timeout? <==> s.mode.result.error.Deadline?) && (report.Canceled? <==> s.mode.result.error.ContextCanceled?)
  {
    RunTells(c, states);
    hide Inv, Run;
  }

  /**
   * An accepted terminal record is answered by what it says: success if and only if the payload was put in place and
   * confirmed; for a replace, that the source changed if and only if the target was not the expected version when the
   * helper last looked; for a create, that the destination exists if and only if the helper refused, so always if it was there
   * from the start. A replace never finds a destination in its way, a create never finds its source changed.
   */
  lemma TerminalIsAnswered(c: Config, states: seq<State>)
    requires ValidConfig(c) && Run(c, states) && states[|states| - 1].mode.Returned? && states[|states| - 1].mode.result.Ran?
    ensures var s := states[|states| - 1]; var report := ReportOf(s.mode.result); var t := s.mode.result.terminal;
            && s.verdict == Some(t)
            && (report.Success? <==> s.completed && !t.terminal.Uncertain?) && (report.UncertainReport? <==> t.terminal.Uncertain?)
            && (c.op.Replace? ==> !report.DestinationExists? && (report.SourceChanged? <==> !Expects(c, s.foreign)))
            && (c.op.Create? ==> !report.SourceChanged? && (report.DestinationExists? <==> t.terminal.Refused?)
                                 && (report.DestinationExists? ==> s.foreign.Some?) && (c.target in c.initial ==> report.DestinationExists?))
            && (report.PathDenied? || report.Unsupported? <==> t.terminal.Failure?) && (report.Unsupported? <==> t.code.UnsupportedCode?)
            && (report.Unsupported? ==> c.op.Create?)
  {
    var s := states[|states| - 1];
    RunTells(c, states);
    TerminalMeans(c, s);
    hide Inv, Run;
  }

  lemma TerminalMeans(c: Config, s: State)
    requires Inv(c, s)
    ensures s.verdict.Some? ==> (s.completed <==> s.verdict.value.terminal.Committed? || s.verdict.value.terminal.Uncertain?)
  {
    hide Wires, Files, Target, Modes;
  }

  /** A successful replace has replaced the version the caller saw; a successful create has found the name free. */
  lemma SuccessMeans(c: Config, states: seq<State>)
    requires ValidConfig(c) && Run(c, states) && states[|states| - 1].mode.Returned? && ReportOf(states[|states| - 1].mode.result).Success?
    ensures var s := states[|states| - 1];
            && (if c.op.Replace? then Expects(c, s.foreign) else s.foreign.None? && c.target !in c.initial)
            && (c.op.Replace? && Alone(c, states) ==> c.target in c.initial && c.initial[c.target].stamp == c.expected)
  {
    RunTells(c, states);
    if Alone(c, states) {
      AloneKeepsTarget(c, states);
    }
    SuccessCompletes(c, states[|states| - 1]);
    hide Inv, Run, Alone;
  }

  lemma SuccessCompletes(c: Config, s: State)
    requires Inv(c, s) && s.mode.Returned? && ReportOf(s.mode.result).Success?
    ensures s.completed && !c.op.BadOperation? ==> c.op.Create? || c.op.Replace?
    ensures s.completed
  {
    hide Wires, Disk;
  }

  /** What a regular verdict says is what the helper found at that moment, in all three cases. */
  lemma VerdictTells(c: Config, s: State, s': State)
    requires ValidConfig(c) && Inv(c, s) && Found(c, s) && Regular(c, s, s') && s.verdict.None? && s'.verdict.Some?
    ensures var there := At(s.dir, c.target);
            && (s'.verdict.value == Exists(c) <==> c.op.Create? && there.Some?)
            && (s'.verdict.value == Changed(c) <==> c.op.Replace? && !Expects(c, there))
            && (s'.completed <==> if c.op.Create? then there.None? else Expects(c, there))
  {
    TargetSeen(c, s);
    hide Inv, ParentSends, ParentReceives, ParentReaps, ParentCleans, ParentWaits, ParentSettles, HelperReceives, HelperTakesPayload, HelperCreates,
         HelperWrites, HelperSends, HelperSweeps, HelperLeaves;
    if ParentSends(c, s, s') || ParentReceives(c, s, s') || HelperReceives(c, s, s') || HelperTakesPayload(s, s') || HelperSends(c, s, s') {
      TalkJudgesNothing(c, s, s');
    } else if !HelperChecks(c, s, s') && !HelperRenames(c, s, s') {
      WorkJudgesNothing(c, s, s');
    }
  }

  // ---- a replace of another version -------------------------------------------------------------

  lemma RequestAccepted(c: Config, s: State, s': State)
    requires ValidConfig(c) && Inv(c, s) && Step(c, s, s') && s.b == 0 && s'.b > 0 && c.op.Replace?
    ensures Expects(c, s.foreign)
  {
    TargetSeen(c, s);
    RequestStep(c, s, s');
    hide Inv, ReadFrame, Accepts, Received, ValidConfig, Step;
  }

  lemma ParentKeepsRequest(c: Config, s: State, s': State)
    requires ParentSends(c, s, s') || ParentReceives(c, s, s')
    ensures s'.b == s.b
  {
    hide ReadFrame, Frame, Sends, Accepts, Outgoing, Down, Fits, Received;
  }

  lemma FailingKeepsRequest(c: Config, s: State, s': State)
    requires ParentFails(c, s, s') || ParentDies(c, s, s') || HelperFails(c, s, s') || HelperChecks(c, s, s') || HelperRenames(c, s, s')
             || RenameFails(c, s, s') || Outsider(c, s, s')
    ensures s'.b == s.b
  {
    hide Unsent, Unreplied;
  }

  lemma RequestStep(c: Config, s: State, s': State)
    requires Step(c, s, s') && s.b == 0 && s'.b > 0
    ensures HelperReceives(c, s, s')
  {
    hide ParentSends, ParentReceives, ParentReaps, ParentCleans, ParentWaits, ParentSettles, HelperReceives, HelperCreates, HelperWrites, HelperChecks,
         HelperRenames, HelperSweeps, HelperLeaves, ParentFails, ParentDies, ParentKills, HelperFails, HelperKilled, RenameFails, Outsider, Frame, Sends, Fits;
    if ParentSends(c, s, s') || ParentReceives(c, s, s') {
      ParentKeepsRequest(c, s, s');
    } else if ParentFails(c, s, s') || ParentDies(c, s, s') || HelperFails(c, s, s') || HelperChecks(c, s, s') || HelperRenames(c, s, s')
              || RenameFails(c, s, s') || Outsider(c, s, s') {
      FailingKeepsRequest(c, s, s');
    } else if !HelperReceives(c, s, s') && !HelperTakesPayload(s, s') && !HelperSends(c, s, s') {
      WorkJudgesNothing(c, s, s');
    }
  }

  lemma AloneBefore(c: Config, states: seq<State>)
    requires Run(c, states) && Alone(c, states) && |states| > 1
    ensures var n := |states| - 1; Run(c, states[..n]) && Alone(c, states[..n]) && Step(c, states[n - 1], states[n])
  {
    hide Step, Outsider, Begin;
    var before := states[..|states| - 1];
    forall i | 0 <= i < |before| - 1 ensures !Outsider(c, before[i], before[i + 1]) && Step(c, before[i], before[i + 1]) {
      assert before[i] == states[i] && before[i + 1] == states[i + 1];
    }
  }

  /** Of a version that is not the expected one nothing is even staged, and no answer is a success. */
  lemma {:induction false} OtherVersionIsLeft(c: Config, states: seq<State>)
    requires |states| > 0 && ValidConfig(c) && Run(c, states) && Alone(c, states) && c.op.Replace? && !Expects(c, At(c.initial, c.target))
    ensures var s := states[|states| - 1]; s.b == 0 && s.made.None?
    ensures var s := states[|states| - 1]; s.mode.Returned? ==> !ReportOf(s.mode.result).Success?
    decreases |states|
  {
    hide *;
    var n := |states| - 1;
    if n > 0 {
      AloneBefore(c, states);
      OtherVersionIsLeft(c, states[..n]);
      StillOther(c, states);
    } else {
      BeginsAtNothing(c, states);
    }
    RunTells(c, states);
    NothingMade(c, states[n]);
    if states[n].mode.Returned? && ReportOf(states[n].mode.result).Success? {
      SuccessMeans(c, states);
      OtherInitially(c);
    }
  }

  lemma OtherInitially(c: Config)
    requires !Expects(c, At(c.initial, c.target))
    ensures !(c.target in c.initial && c.initial[c.target].stamp == c.expected)
  {
  }

  lemma BeginsAtNothing(c: Config, states: seq<State>)
    requires Run(c, states)
    ensures |states| > 0 && states[0].b == 0
  {
    hide Step;
  }

  lemma StillOther(c: Config, states: seq<State>)
    requires |states| > 1 && ValidConfig(c) && c.op.Replace? && !Expects(c, At(c.initial, c.target)) && states[|states| - 2].b == 0
    requires var n := |states| - 1; Run(c, states[..n]) && Alone(c, states[..n]) && Step(c, states[n - 1], states[n])
    ensures states[|states| - 1].b == 0
  {
    hide Inv, Found, Told, Run, Alone, Step, Expects;
    var n := |states| - 1;
    RunTells(c, states[..n]);
    AloneKeepsTarget(c, states[..n]);
    assert states[..n][n - 1] == states[n - 1];
    if states[n].b > 0 {
      RequestAccepted(c, states[n - 1], states[n]);
    }
  }

  lemma NothingMade(c: Config, s: State)
    requires Inv(c, s)
    ensures s.b == 0 ==> s.made.None?
  {
    hide Wires, Target, Judged, Modes;
  }

  // ---- whose helper it is -----------------------------------------------------------------------

  /** Once its first reply has been taken, the helper is known to run the launcher's own executable. */
  ghost predicate Trusted(c: Config, s: State) {
    s.a >= 2 ==> |s.replies| > 0 && s.replies[0].executable == c.executable
  }

  lemma TakingTrusts(c: Config, s: State, s': State)
    requires ValidConfig(c) && Inv(c, s) && Trusted(c, s) && ParentReceives(c, s, s')
    ensures Trusted(c, s')
  {
    ParentHears(c, s);
    ParentReceivesEither(c, s, s');
    LockstepReplies(c, s);
    hide Inv, Accepts, Received, ReadFrame, ValidConfig;
  }

  lemma LockstepReplies(c: Config, s: State)
    requires Inv(c, s)
    ensures s.mode.Talking? && s.a == 1 && s.a < s.b ==> |s.replies| > 0
    ensures s.mode.Talking? && s.a % 2 == 0 && s.a >= 2 ==> |s.replies| > 0
  {
    hide DownStream, UpStream, Replied, Disk, Modes;
  }

  lemma ParentStepsTrust(c: Config, s: State, s': State)
    requires Trusted(c, s) && Inv(c, s)
    requires ParentSends(c, s, s') || ParentFails(c, s, s') || ParentDies(c, s, s') || HelperFails(c, s, s') || HelperTakesPayload(s, s')
    ensures Trusted(c, s')
  {
    LockstepReplies(c, s);
    hide Inv, Frame, Sends, Outgoing, Down, Fits, Unsent, Unreplied;
  }

  lemma HelperTalkTrusts(c: Config, s: State, s': State)
    requires Trusted(c, s) && (HelperReceives(c, s, s') || HelperSends(c, s, s'))
    ensures Trusted(c, s')
  {
    if HelperReceives(c, s, s') {
      HelperReceivesEither(c, s, s');
    }
    hide HelperReceives, Frame, Sends, Fits, Ready, Received, ReadFrame;
  }

  lemma WorkTrusts(c: Config, s: State, s': State)
    requires Trusted(c, s)
    requires ParentReaps(s, s') || ParentWaits(s, s') || HelperCreates(c, s, s') || HelperWrites(c, s, s') || HelperChecks(c, s, s')
             || HelperRenames(c, s, s') || HelperSweeps(c, s, s') || HelperLeaves(c, s, s') || ParentKills(s, s') || HelperKilled(s, s')
    ensures Trusted(c, s')
  {
    hide HelperWrites, HelperChecks, HelperRenames, Cleanup;
    if HelperWrites(c, s, s') || HelperChecks(c, s, s') || HelperRenames(c, s, s') {
      FileWorkTrusts(c, s, s');
    }
  }

  lemma FileWorkTrusts(c: Config, s: State, s': State)
    requires Trusted(c, s) && (HelperWrites(c, s, s') || HelperChecks(c, s, s') || HelperRenames(c, s, s'))
    ensures Trusted(c, s')
  {
    hide WroteStamp, Verdict;
  }

  lemma EndTrusts(c: Config, s: State, s': State)
    requires Trusted(c, s) && (ParentCleans(c, s, s') || ParentSettles(c, s, s') || RenameFails(c, s, s') || Outsider(c, s, s'))
    ensures Trusted(c, s')
  {
    hide Cleanup;
  }

  lemma StepTrusts(c: Config, s: State, s': State)
    requires ValidConfig(c) && Inv(c, s) && Trusted(c, s) && Step(c, s, s')
    ensures Trusted(c, s')
  {
    hide Inv, Trusted, ParentSends, ParentReceives, ParentReaps, ParentCleans, ParentWaits, ParentSettles, HelperReceives, HelperTakesPayload, HelperCreates,
         HelperWrites, HelperSends, HelperChecks, HelperRenames, HelperSweeps, HelperLeaves, ParentFails, ParentDies, ParentKills, HelperFails,
         HelperKilled, RenameFails, Outsider, ValidConfig;
    if ParentReceives(c, s, s') {
      TakingTrusts(c, s, s');
    } else if ParentSends(c, s, s') || ParentFails(c, s, s') || ParentDies(c, s, s') || HelperFails(c, s, s') || HelperTakesPayload(s, s') {
      ParentStepsTrust(c, s, s');
    } else if HelperReceives(c, s, s') || HelperSends(c, s, s') {
      HelperTalkTrusts(c, s, s');
    } else if ParentCleans(c, s, s') || ParentSettles(c, s, s') || RenameFails(c, s, s') || Outsider(c, s, s') {
      EndTrusts(c, s, s');
    } else {
      WorkTrusts(c, s, s');
    }
  }

  /** No helper that runs another executable gets past its first reply, so none is ever sent payload or commit. */
  lemma {:induction false} HelperIsTrusted(c: Config, states: seq<State>)
    requires ValidConfig(c) && Run(c, states)
    ensures Trusted(c, states[|states| - 1])
    decreases |states|
  {
    if |states| > 1 {
      var n := |states| - 1;
      RunKeeps(c, states[..n]);
      hide Inv, Trusted, Step;
      HelperIsTrusted(c, states[..n]);
      assert states[..n][n - 1] == states[n - 1];
      StepTrusts(c, states[n - 1], states[n]);
    }
  }
}
