/**
 * Launcher and helper run together: two programs, two byte streams and one directory, with an I/O failure, a timeout,
 * a kill or a crash possible at every step.
 */
module MutationSystem {
  import opened Ordering
  import opened Bytes
  import opened MutationProtocol

  datatype Entry = Entry(stamp: Stamp, content: seq<byte>)

  type Dir = map<string, Entry>

  datatype Config = Config(codec: Codec, op: Operation, payload: seq<byte>, target: string, stage: string,
                           expected: Stamp, executable: Stamp, token: string, initial: Dir)

  datatype RunError = Deadline | ContextCanceled | Other | UncertainOutcome | UncertainCleanup

  datatype RunResult = Ran(terminal: Control) | RunFailed(error: RunError)

  /** What the caller of a staged mutation is told. */
  datatype Report = Success | Timeout | Canceled | PathDenied | SourceChanged | DestinationExists | Unsupported | UncertainReport

  function MapError(e: RunError): Report {
    match e
    case UncertainOutcome => UncertainReport
    case UncertainCleanup => UncertainReport
    case Deadline => Timeout
    case ContextCanceled => Canceled
    case Other => PathDenied
  }

  function MapTerminal(t: Control): Report {
    if t.terminal.Committed? && t.code.CommittedCode? then Success
    else
      match t.code
      case SourceChangedCode => SourceChanged
      case DestinationExistsCode => DestinationExists
      case UnsupportedCode => Unsupported
      case CanceledCode => Canceled
      case UncertainCode => UncertainReport
      case _ => PathDenied
  }

  function ReportOf(r: RunResult): Report {
    match r
    case Ran(t) => MapTerminal(t)
    case RunFailed(e) => MapError(e)
  }

  // ---- states -----------------------------------------------------------------------------------

  datatype ParentMode =
    | Talking
    | Failing(error: RunError)
    | Cleaning(error: RunError)
    | Waiting(terminal: Option<Control>)
    | Settling(terminal: Option<Control>, exited: bool)
    | Returned(result: RunResult)
    | Crashed

  datatype HelperMode = Working | Leaving | Exited(ok: bool)

  /**
   * `sent` and `got` count the messages of the exchange each side has completed: 1 request, 2 stage created, 3 stage
   * ack, 4 stage announced, 5 the raw payload, 6 payload complete, 7 commit, 8 terminal; odd ones go down to the
   * helper, even ones up to the launcher. `replies` holds the records the helper has sent, `foreign` what the target
   * holds but for this mutation.
   */
  datatype State = State(mode: ParentMode, helper: HelperMode, a: nat, b: nat, pa: Automaton, ha: Automaton,
                         down: seq<byte>, up: seq<byte>, replies: seq<Control>, dir: Dir, known: Option<Stamp>,
                         made: Option<Stamp>, received: seq<byte>, wrote: nat, checked: bool, verdict: Option<Control>,
                         completed: bool, swept: bool, foreign: Option<Entry>)

  function At(dir: Dir, name: string): Option<Entry> {
    if name in dir then Some(dir[name]) else None
  }

  function RolesFor(op: Operation): Roles {
    Roles(true, true, true, op.Replace?, false)
  }

  function Begin(c: Config): State {
    State(Talking, Working, 0, 0, Automaton(Parent, c.op, RolesFor(c.op), Begun, 0), Automaton(Helper, BadOperation, NO_ROLES, Begun, 0),
          [], [], [], c.initial, None, None, [], 0, false, None, false, false, At(c.initial, c.target))
  }

  predicate SameIdentity(s: Stamp, t: Stamp) {
    s.device == t.device && s.inode == t.inode && s.mode == t.mode && s.uid == t.uid && s.nlink == t.nlink
  }

  /** Unlinks the stage if it still is the announced file; an unusable or unremovable name is reported. */
  ghost predicate Cleanup(c: Config, dir: Dir, expected: Option<Stamp>, dir': Dir, ok: bool) {
    if c.stage !in dir then dir' == dir && ok
    else if !ok then dir' == dir
    else if expected.Some? && !SameIdentity(dir[c.stage].stamp, expected.value) then dir' == dir
    else dir' == dir - {c.stage}
  }

  /** What of a message a failed or killed writer may have delivered. */
  predicate Partial(p: seq<byte>, message: seq<byte>) {
    p == [] || StrictPrefix(p, message)
  }

  // ---- the launcher -----------------------------------------------------------------------------

  function Outgoing(c: Config, k: nat): Control {
    if k == 1 then Bare(c.op, Request).(roles := RolesFor(c.op), payloadBytes := |c.payload|, targetLeaf := c.target, stageLeaf := c.stage,
                                        expected := c.expected)
    else if k == 3 then Bare(c.op, StageAck)
    else Bare(c.op, Commit).(token := c.token)
  }

  /** The records this mutation's exchange can hold: nobody but the launcher names anything, and only its own names. */
  predicate Carried(c: Config, r: Control) {
    && r.version == PROTOCOL_VERSION && r.payloadBytes <= MAX_PAYLOAD_BYTES
    && (r.targetLeaf == "" || r.targetLeaf == c.target) && (r.stageLeaf == "" || r.stageLeaf == c.stage) && (r.token == "" || r.token == c.token)
  }

  /** What launching a mutation demands of its parts. */
  predicate Proper(c: Config) {
    && !c.op.BadOperation? && |c.payload| <= MAX_PAYLOAD_BYTES
    && ValidTargetLeaf(c.target) && ValidStageLeaf(c.stage) && ValidExpected(c.op, c.expected) && ValidStamp(c.executable) && ValidToken(c.token)
    && c.stage !in c.initial
  }

  ghost predicate ValidConfig(c: Config) {
    Proper(c) && forall r: Control :: Carried(c, r) ==> Carries(c.codec, r)
  }

  function Down(c: Config, k: nat): seq<byte>
  {
    if k == 5 then c.payload else Frame(c.codec, Outgoing(c, k))
  }

  ghost predicate ParentSends(c: Config, s: State, s': State) {
    && s.mode.Talking? && (s.a == 0 || s.a == 2 || s.a == 4 || s.a == 6)
    && (s.a != 4 ==> Fits(c.codec, Outgoing(c, s.a + 1)) && Sends(s.pa, Outgoing(c, s.a + 1)))
    && (s.a == 4 ==> MovesPayload(s.pa, Parent, |c.payload|))
    && s' == s.(a := s.a + 1, down := s.down + Down(c, s.a + 1),
                pa := if s.a == 4 then s.pa.(phase := PayloadComplete) else Advance(s.pa, Outgoing(c, s.a + 1)))
  }

  function Rejecting(s: State, up: seq<byte>): State {
    s.(up := up, mode := if s.a < 7 then Failing(Other) else Waiting(None))
  }

  function Taking(s: State, r: Control, rest: seq<byte>): State {
    s.(a := s.a + 1, pa := Received(s.pa, r), up := rest, known := if s.a == 3 || s.a == 5 then Some(r.stage) else s.known,
       mode := if s.a == 7 then Waiting(Some(r)) else Talking)
  }

  /** A frame is taken if the protocol accepts it; a closed stream without one is an error. */
  ghost predicate ParentReceives(c: Config, s: State, s': State) {
    && s.mode.Talking? && (s.a == 1 || s.a == 3 || s.a == 5 || s.a == 7)
    && match ReadFrame(c.codec, s.up)
       case Short => s.helper.Exited? && s' == Rejecting(s, [])
       case Invalid => s' == Rejecting(s, [])
       case Got(r, rest) =>
         s' == if Accepts(s.pa, r) && (s.a == 1 ==> r.executable == c.executable) then Taking(s, r, rest) else Rejecting(s, rest)
  }

  /** Kills the helper and waits for it before looking at the stage. */
  ghost predicate ParentReaps(s: State, s': State) {
    && s.mode.Failing?
    && s' == s.(mode := Cleaning(s.mode.error), helper := if s.helper.Exited? then s.helper else Exited(false))
  }

  ghost predicate ParentCleans(c: Config, s: State, s': State) {
    && s.mode.Cleaning?
    && (exists ok: bool ::
          && Cleanup(c, s.dir, s.known, s'.dir, ok)
          && s' == s.(dir := s'.dir, mode := Returned(RunFailed(if ok then s.mode.error else UncertainCleanup))))
  }

  ghost predicate ParentWaits(s: State, s': State) {
    s.mode.Waiting? && s.helper.Exited? && s' == s.(mode := Settling(s.mode.terminal, s.helper.ok))
  }

  ghost predicate ParentSettles(c: Config, s: State, s': State) {
    && s.mode.Settling?
    && if s.mode.terminal.None? || !s.mode.exited then
         exists ok: bool :: Cleanup(c, s.dir, s.known, s'.dir, ok) && s' == s.(dir := s'.dir, mode := Returned(RunFailed(UncertainOutcome)))
       else if s.mode.terminal.value.terminal.Committed? || s.mode.terminal.value.terminal.Uncertain? then
         s' == s.(mode := Returned(Ran(s.mode.terminal.value)))
       else
         exists ok: bool :: Cleanup(c, s.dir, s.known, s'.dir, ok)
           && s' == s.(dir := s'.dir, mode := Returned(if ok then Ran(s.mode.terminal.value) else RunFailed(UncertainCleanup)))
  }

  // ---- the helper -------------------------------------------------------------------------------

  ghost predicate HelperReceives(c: Config, s: State, s': State) {
    && s.helper.Working? && (s.b == 0 || s.b == 2 || s.b == 6)
    && match ReadFrame(c.codec, s.down)
       case Short => !s.mode.Talking? && !s.mode.Waiting? && !s.mode.Settling? && s' == s.(helper := Leaving)
       case Invalid => s' == s.(helper := Leaving)
       case Got(r, rest) =>
         if Accepts(s.ha, r) && (s.b == 0 && c.op.Replace? ==> c.target in s.dir && s.dir[c.target].stamp == c.expected)
         then s' == s.(b := s.b + 1, ha := Received(s.ha, r), down := rest)
         else s' == s.(helper := Leaving, down := rest)
  }

  ghost predicate HelperTakesPayload(s: State, s': State) {
    && s.helper.Working? && s.b == 4 && MovesPayload(s.ha, Helper, s.ha.payload)
    && if |s.down| >= s.ha.payload
       then s' == s.(b := 5, ha := s.ha.(phase := PayloadComplete), received := s.down[..s.ha.payload], down := s.down[s.ha.payload..])
       else !s.mode.Talking? && !s.mode.Waiting? && !s.mode.Settling? && s' == s.(helper := Leaving)
  }

  ghost predicate HelperCreates(c: Config, s: State, s': State) {
    && s.helper.Working? && s.b == 1 && s.made.None?
    && (exists stamp: Stamp ::
          && ValidStamp(stamp) && stamp.size == 0
          && s' == if c.stage in s.dir then s.(helper := Exited(false))
                   else s.(dir := s.dir[c.stage := Entry(stamp, [])], made := Some(stamp)))
  }

  /** Some more bytes of the payload reach the stage file. */
  ghost predicate HelperWrites(c: Config, s: State, s': State) {
    && s.helper.Working? && s.b == 5 && c.stage in s.dir && s.wrote < |s.received|
    && (exists n: nat, stamp: Stamp ::
          && s.wrote < n <= |s.received| && WroteStamp(s.dir[c.stage].stamp, stamp, n)
          && s' == s.(wrote := n, dir := s.dir[c.stage := Entry(stamp, s.received[..n])]))
  }

  predicate WroteStamp(before: Stamp, after: Stamp, size: nat) {
    ValidStamp(after) && after.size == size && SameIdentity(before, after)
  }

  /** The record the helper sends next, once its work for it is done. */
  ghost predicate Ready(c: Config, s: State, r: Control) {
    && s.made.Some?
    && if s.b == 1 then ValidStamp(r.executable) && r == Bare(c.op, StageCreated).(executable := r.executable)
       else if s.b == 3 then r == Bare(c.op, StageAnnounced).(stage := s.made.value)
       else if s.b == 5 then
         s.wrote == |s.received| && c.stage in s.dir && r == Bare(c.op, PayloadComplete).(stage := s.dir[c.stage].stamp)
       else s.b == 7 && s.verdict == Some(r) && (s.completed || s.swept)
  }

  ghost predicate HelperSends(c: Config, s: State, s': State) {
    && s.helper.Working?
    && (exists r: Control ::
          && Ready(c, s, r) && Fits(c.codec, r) && Sends(s.ha, r)
          && s' == s.(b := s.b + 1, ha := Advance(s.ha, r), up := s.up + Frame(c.codec, r), replies := s.replies + [r],
                      made := if s.b == 5 then Some(r.stage) else s.made, helper := if s.b == 7 then Exited(true) else Working))
  }

  function Verdict(op: Operation, kind: TerminalKind, code: TerminalCode): Control {
    Bare(op, Terminal).(terminal := kind, code := code)
  }

  /** The last look at the target before the rename. */
  ghost predicate HelperChecks(c: Config, s: State, s': State) {
    && s.helper.Working? && s.b == 7 && s.verdict.None? && !s.checked
    && s' == if c.op.Replace?
             then if c.target in s.dir && s.dir[c.target].stamp == c.expected then s.(checked := true)
                  else s.(verdict := Some(Verdict(c.op, Refused, SourceChangedCode)))
             else if c.target in s.dir then s.(verdict := Some(Verdict(c.op, Refused, DestinationExistsCode)))
                  else s.(checked := true)
  }

  /** An exclusive rename for create, a replacing one for replace; both move the whole stage file at once. */
  ghost predicate HelperRenames(c: Config, s: State, s': State) {
    && s.helper.Working? && s.b == 7 && s.verdict.None? && s.checked && c.stage in s.dir
    && if c.op.Create? && c.target in s.dir
       then s' == s.(verdict := Some(Verdict(c.op, Refused, DestinationExistsCode)))
       else
         exists stamp: Stamp ::
           && ValidStamp(stamp)
           && s' == s.(dir := (s.dir - {c.stage})[c.target := Entry(stamp, s.dir[c.stage].content)], completed := true,
                       verdict := Some(Verdict(c.op, Committed, CommittedCode).(stage := stamp)))
  }

  ghost predicate HelperSweeps(c: Config, s: State, s': State) {
    && s.helper.Working? && s.b == 7 && s.verdict.Some? && !s.completed && !s.swept
    && exists ok: bool :: Cleanup(c, s.dir, s.made, s'.dir, ok) && s' == s.(dir := s'.dir, swept := ok, helper := if ok then Working else Leaving)
  }

  ghost predicate HelperLeaves(c: Config, s: State, s': State) {
    && s.helper.Leaving?
    && (exists ok: bool ::
          && (if s.completed || s.made.None? then s'.dir == s.dir else Cleanup(c, s.dir, s.made, s'.dir, ok))
          && s' == s.(dir := s'.dir, helper := Exited(false)))
  }

  // ---- failures ---------------------------------------------------------------------------------

  /** A send or receive fails, or the deadline passes; after the commit only the outcome is lost. */
  ghost predicate ParentFails(c: Config, s: State, s': State) {
    && s.mode.Talking? && s.a < 8
    && (exists e: RunError, p: seq<byte> ::
          && (e.Deadline? || e.ContextCanceled? || e.Other?) && Unsent(c, s.a, p)
          && s' == s.(down := s.down + p, mode := if s.a < 7 then Failing(e) else Waiting(None)))
  }

  ghost predicate Unsent(c: Config, a: nat, p: seq<byte>) {
    p == [] || ((a == 0 || a == 2 || a == 4 || a == 6) && (a == 4 || Fits(c.codec, Outgoing(c, a + 1))) && StrictPrefix(p, Down(c, a + 1)))
  }

  ghost predicate ParentDies(c: Config, s: State, s': State) {
    !s.mode.Returned? && !s.mode.Crashed? && exists p: seq<byte> :: (s.mode.Talking? || p == []) && Unsent(c, s.a, p) && s' == s.(down := s.down + p, mode := Crashed)
  }

  ghost predicate ParentKills(s: State, s': State) {
    s.mode.Waiting? && !s.helper.Exited? && s' == s.(helper := Exited(false))
  }

  /** The helper fails or is killed, perhaps in the middle of a reply. */
  ghost predicate HelperFails(c: Config, s: State, s': State) {
    && s.helper.Working?
    && exists p: seq<byte>, to: HelperMode :: (to.Leaving? || to == Exited(false)) && Unreplied(c, p) && s' == s.(up := s.up + p, helper := to)
  }

  ghost predicate Unreplied(c: Config, p: seq<byte>) {
    p == [] || exists r: Control :: Fits(c.codec, r) && StrictPrefix(p, Frame(c.codec, r))
  }

  ghost predicate HelperKilled(s: State, s': State) {
    s.helper.Leaving? && s' == s.(helper := Exited(false))
  }

  /** The rename fails and changes nothing, or what it did cannot be confirmed. */
  ghost predicate RenameFails(c: Config, s: State, s': State) {
    && s.helper.Working? && s.b == 7 && s.verdict.None? && s.checked && c.stage in s.dir
    && ( || s' == s.(verdict := Some(Verdict(c.op, Failure, IoCode)))
         || (c.op.Create? && s' == s.(verdict := Some(Verdict(c.op, Failure, UnsupportedCode))))
         || ((c.op.Create? ==> c.target !in s.dir)
             && (exists stamp: Stamp ::
                   s' == s.(dir := (s.dir - {c.stage})[c.target := Entry(stamp, s.dir[c.stage].content)], completed := true,
                            verdict := Some(Verdict(c.op, Uncertain, UncertainCode))))))
  }

  /**
   * Somebody else writes the target: for create, makes it first, at any time; for replace, changes or removes it before
   * the helper's last look.
   */
  ghost predicate Outsider(c: Config, s: State, s': State) {
    && (if c.op.Create? then c.target !in s.dir else !s.checked && s.verdict.None?)
    && (|| (exists e: Entry :: s' == s.(dir := s.dir[c.target := e], foreign := Some(e)))
        || (c.op.Replace? && s' == s.(dir := s.dir - {c.target}, foreign := None)))
  }

  ghost predicate Regular(c: Config, s: State, s': State) {
    || ParentSends(c, s, s') || ParentReceives(c, s, s') || ParentReaps(s, s') || ParentCleans(c, s, s') || ParentWaits(s, s') || ParentSettles(c, s, s')
    || HelperReceives(c, s, s') || HelperTakesPayload(s, s') || HelperCreates(c, s, s') || HelperWrites(c, s, s') || HelperSends(c, s, s')
    || HelperChecks(c, s, s') || HelperRenames(c, s, s') || HelperSweeps(c, s, s') || HelperLeaves(c, s, s')
  }

  ghost predicate Fault(c: Config, s: State, s': State) {
    || ParentFails(c, s, s') || ParentDies(c, s, s') || ParentKills(s, s') || HelperFails(c, s, s') || HelperKilled(s, s') || RenameFails(c, s, s')
    || Outsider(c, s, s')
  }

  ghost predicate Step(c: Config, s: State, s': State) {
    Regular(c, s, s') || Fault(c, s, s')
  }

  // ---- the invariant ----------------------------------------------------------------------------

  function PhaseAt(k: nat): Phase {
    match k
    case 0 => Begun
    case 1 => Request
    case 2 => StageCreated
    case 3 => StageAck
    case 4 => StageAnnounced
    case 5 => PayloadComplete
    case 6 => PayloadComplete
    case 7 => Commit
    case _ => Terminal
  }

  function ParentAt(c: Config, k: nat): Automaton {
    Automaton(Parent, c.op, RolesFor(c.op), PhaseAt(k), if k == 0 then 0 else |c.payload|)
  }

  function HelperAt(c: Config, k: nat): Automaton {
    if k == 0 then Automaton(Helper, BadOperation, NO_ROLES, Begun, 0) else Automaton(Helper, c.op, RolesFor(c.op), PhaseAt(k), |c.payload|)
  }

  /** The two sides are at most one message apart, except that nothing holds the helper back on an empty payload. */
  ghost predicate Lockstep(c: Config, s: State) {
    && s.a <= 8 && s.b <= 8
    && (if s.a % 2 == 0 then s.a <= s.b else s.a <= s.b + 1)
    && ((if s.b % 2 == 1 then s.b <= s.a else s.b <= s.a + 1) || (c.payload == [] && 3 <= s.a && s.b <= 6))
    && |s.replies| == s.b / 2
    && s.pa == ParentAt(c, s.a) && s.ha == HelperAt(c, s.b)
  }

  ghost predicate DownStream(c: Config, s: State) {
    s.helper.Working? ==>
      if s.a % 2 == 1 && s.b + 1 == s.a then s.down == Down(c, s.a)
      else if s.a % 2 == 0 && s.a < 8 then s.down == [] || (!s.mode.Talking? && StrictPrefix(s.down, Down(c, s.a + 1)))
      else s.down == []
  }

  function Frames(codec: Codec, rs: seq<Control>): seq<byte>
  {
    if rs == [] then [] else Frame(codec, rs[0]) + Frames(codec, rs[1..])
  }

  /** What the launcher has not read yet: whole replies and, from a helper that is gone, perhaps part of one more. */
  ghost predicate UpStream(c: Config, s: State) {
    && (forall i :: 0 <= i < |s.replies| ==> Carries(c.codec, s.replies[i]))
    && s.a / 2 <= |s.replies|
    && (s.mode.Talking? ==> UpHolds(c, s.up, s.replies[s.a / 2..], s.helper.Working?))
  }

  ghost predicate UpHolds(c: Config, up: seq<byte>, rs: seq<Control>, whole: bool) {
    var f := Frames(c.codec, rs);
    |f| <= |up| && up[..|f|] == f && (|up| == |f| || (!whole && Unreplied(c, up[|f|..])))
  }

  ghost predicate Replied(c: Config, s: State) {
    && (|s.replies| >= 1 ==> ValidStamp(s.replies[0].executable) && s.replies[0] == Bare(c.op, StageCreated).(executable := s.replies[0].executable))
    && (|s.replies| >= 2 ==> Announces(c, s, StageAnnounced, s.replies[1]))
    && (|s.replies| >= 3 ==> Announces(c, s, PayloadComplete, s.replies[2]))
    && (|s.replies| >= 4 ==> s.verdict == Some(s.replies[3]))
  }

  ghost predicate Announces(c: Config, s: State, phase: Phase, r: Control) {
    ValidStamp(r.stage) && r == Bare(c.op, phase).(stage := r.stage) && s.made.Some? && SameIdentity(r.stage, s.made.value)
  }

  /** The stage file is the helper's own and holds what it has written; the target is old or complete. */
  ghost predicate Files(c: Config, s: State) {
    && (s.made.Some? ==> s.b >= 1 && ValidStamp(s.made.value)) && (s.b >= 2 ==> s.made.Some?)
    && (c.stage in s.dir ==> s.made.Some? && SameIdentity(s.dir[c.stage].stamp, s.made.value) && !s.completed && !s.swept)
    && (s.helper.Working? && s.made.Some? && !s.completed && !s.swept ==> c.stage in s.dir && StageHolds(s, s.dir[c.stage]))
    && s.wrote <= |s.received| && (if s.b >= 5 then s.received == c.payload else s.received == []) && (s.b >= 6 ==> s.wrote == |s.received|)
  }

  ghost predicate StageHolds(s: State, e: Entry) {
    s.wrote <= |s.received| && e.content == s.received[..s.wrote] && ValidStamp(e.stamp)
  }

  ghost predicate Target(c: Config, s: State) {
    && (if s.completed then s.b >= 7 && c.target in s.dir && s.dir[c.target].content == c.payload else At(s.dir, c.target) == s.foreign)
    && (s.swept ==> !s.completed)
    && (forall n :: n != c.stage && n != c.target ==> At(s.dir, n) == At(c.initial, n))
  }

  ghost predicate Judged(c: Config, s: State) {
    && (s.checked ==> s.b >= 7)
    && (s.completed ==> s.verdict.Some?)
    && (s.verdict.Some? ==> s.b >= 7 && Bound(HelperAt(c, 7), s.verdict.value) && s.verdict.value.phase.Terminal?
                            && (s.verdict.value.terminal.Committed? || s.verdict.value.terminal.Uncertain? <==> s.completed))
    && (s.b == 8 ==> s.verdict.Some? && (s.completed || s.swept))
    && (s.swept ==> s.verdict.Some?)
  }

  ghost predicate Modes(c: Config, s: State) {
    && (s.known.Some? <==> s.a >= 4) && (s.known.Some? ==> s.made.Some? && SameIdentity(s.known.value, s.made.value))
    && (s.helper == Exited(true) <==> s.b == 8)
    && match s.mode
       case Talking => s.a <= 7
       case Failing(e) => s.a <= 6 && (e.Deadline? || e.ContextCanceled? || e.Other?)
       case Cleaning(e) => s.a <= 6 && (e.Deadline? || e.ContextCanceled? || e.Other?) && s.helper.Exited?
       case Waiting(t) => s.a >= 7 && (t.Some? ==> s.a == 8 && s.verdict == t)
       case Settling(t, exited) => s.a >= 7 && (t.Some? ==> s.a == 8 && s.verdict == t) && s.helper == Exited(exited)
       case Returned(r) => s.helper.Exited? && Honest(c, s, r)
       case Crashed => true
  }

  /** Success means the payload is in place; any other answer but `uncertain` means nothing of the mutation is. */
  ghost predicate Honest(c: Config, s: State, r: RunResult) {
    && (ReportOf(r).Success? ==> s.completed && c.stage !in s.dir)
    && (!ReportOf(r).Success? && !ReportOf(r).UncertainReport? ==> !s.completed && c.stage !in s.dir)
  }

  ghost predicate Wires(c: Config, s: State) {
    Lockstep(c, s) && DownStream(c, s) && UpStream(c, s) && Replied(c, s)
  }

  ghost predicate Disk(c: Config, s: State) {
    Files(c, s) && Target(c, s) && Judged(c, s)
  }

  ghost predicate Inv(c: Config, s: State) {
    Wires(c, s) && Disk(c, s) && Modes(c, s)
  }

  /** Steps that send and receive nothing. */
  lemma WiresKept(c: Config, s: State, s': State)
    requires Wires(c, s) && s'.a == s.a && s'.b == s.b && s'.pa == s.pa && s'.ha == s.ha && s'.down == s.down && s'.up == s.up && s'.replies == s.replies
    requires (s'.mode.Talking? ==> s.mode.Talking?) && (s'.helper.Working? ==> s.helper.Working?)
    requires (s.made.Some? ==> s'.made == s.made) && (s.verdict.Some? ==> s'.verdict == s.verdict)
    ensures Wires(c, s')
  {
  }

  /** Steps that leave the directory and the helper's work alone. */
  lemma DiskKept(c: Config, s: State, s': State)
    requires Disk(c, s) && s'.b == s.b && s'.dir == s.dir && s'.made == s.made && s'.received == s.received && s'.wrote == s.wrote
    requires s'.checked == s.checked && s'.verdict == s.verdict && s'.completed == s.completed && s'.swept == s.swept && s'.foreign == s.foreign
    requires s'.helper.Working? ==> s.helper.Working?
    ensures Disk(c, s')
  {
  }

  // ---- every step keeps it: the launcher --------------------------------------------------------

  lemma FramesAppend(codec: Codec, rs: seq<Control>, r: Control)
    ensures Frames(codec, rs + [r]) == Frames(codec, rs) + Frame(codec, r)
  {
    if rs == [] {
      assert rs + [r] == [r] && [r][1..] == [];
    } else {
      assert (rs + [r])[1..] == rs[1..] + [r];
      FramesAppend(codec, rs[1..], r);
    }
  }

  lemma ParentSendsWires(c: Config, s: State, s': State)
    requires ValidConfig(c) && Wires(c, s) && ParentSends(c, s, s')
    ensures Wires(c, s')
  {
    hide Frame, Frames, Bound, StrictPrefix;
    assert s.down == [] ==> [] + Down(c, s.a + 1) == Down(c, s.a + 1);
  }

  lemma ParentSendsKeeps(c: Config, s: State, s': State)
    requires ValidConfig(c) && Inv(c, s) && ParentSends(c, s, s')
    ensures Inv(c, s')
  {
    ParentSendsWires(c, s, s');
    hide Lockstep, DownStream, UpStream, Replied, Files, Target, Judged;
    DiskKept(c, s, s');
  }

  lemma ParentReapsKeeps(c: Config, s: State, s': State)
    requires ValidConfig(c) && Inv(c, s) && ParentReaps(s, s')
    ensures Inv(c, s')
  {
    hide Lockstep, DownStream, UpStream, Replied, Files, Target, Judged;
    WiresKept(c, s, s');
    DiskKept(c, s, s');
  }

  /** A cleanup removes the stage and nothing else, or says that it could not. */
  lemma CleanupClears(c: Config, s: State, s': State, expected: Option<Stamp>, ok: bool)
    requires Disk(c, s) && !s.helper.Working? && !s'.helper.Working? && Cleanup(c, s.dir, expected, s'.dir, ok)
    requires expected.Some? ==> s.made.Some? && SameIdentity(expected.value, s.made.value)
    requires s == s'.(dir := s.dir, mode := s.mode, helper := s.helper) && !(c.target == c.stage)
    ensures Disk(c, s') && (ok ==> c.stage !in s'.dir) && (c.stage !in s.dir ==> c.stage !in s'.dir)
  {
    hide Bound;
  }

  lemma NamesDiffer(c: Config)
    requires ValidConfig(c)
    ensures c.target != c.stage
  {
    assert c.stage[..|STAGE_PREFIX|][0] == '.';
  }

  lemma ParentCleansKeeps(c: Config, s: State, s': State)
    requires ValidConfig(c) && Inv(c, s) && ParentCleans(c, s, s')
    ensures Inv(c, s')
  {
    NamesDiffer(c);
    var ok: bool :| Cleanup(c, s.dir, s.known, s'.dir, ok) && s' == s.(dir := s'.dir, mode := Returned(RunFailed(if ok then s.mode.error else UncertainCleanup)));
    assert !s.completed by {
      assert Lockstep(c, s);
    }
    CleanupClears(c, s, s', s.known, ok);
    hide Lockstep, DownStream, UpStream, Replied, Files, Target, Judged, Cleanup;
    WiresKept(c, s, s');
  }

  lemma ParentWaitsKeeps(c: Config, s: State, s': State)
    requires ValidConfig(c) && Inv(c, s) && ParentWaits(s, s')
    ensures Inv(c, s')
  {
    hide Lockstep, DownStream, UpStream, Replied, Files, Target, Judged;
    WiresKept(c, s, s');
    DiskKept(c, s, s');
  }

  lemma TerminalIsHonest(c: Config, s: State, t: Control)
    requires Disk(c, s) && s.verdict == Some(t)
    requires t.terminal.Committed? || t.terminal.Uncertain? || c.stage !in s.dir
    ensures Honest(c, s, Ran(t))
  {
  }

  lemma SettledWithoutCleanup(c: Config, s: State, s': State, t: Control)
    requires Inv(c, s) && s.mode == Settling(Some(t), true) && (t.terminal.Committed? || t.terminal.Uncertain?) && s' == s.(mode := Returned(Ran(t)))
    ensures Inv(c, s')
  {
    hide Lockstep, DownStream, UpStream, Replied, Files, Target, Judged, Honest;
    WiresKept(c, s, s');
    DiskKept(c, s, s');
    TerminalIsHonest(c, s', t);
  }

  lemma SettledWithCleanup(c: Config, s: State, s': State, ok: bool)
    requires ValidConfig(c) && Inv(c, s) && s.mode.Settling? && Cleanup(c, s.dir, s.known, s'.dir, ok)
    requires var t := s.mode.terminal;
             s' == s.(dir := s'.dir, mode := Returned(RunFailed(UncertainOutcome)))
             || (t.Some? && s' == s.(dir := s'.dir, mode := Returned(if ok then Ran(t.value) else RunFailed(UncertainCleanup))))
    ensures Inv(c, s')
  {
    NamesDiffer(c);
    hide Lockstep, DownStream, UpStream, Replied, Files, Target, Judged, Cleanup, ValidConfig;
    WiresKept(c, s, s');
    CleanupClears(c, s, s', s.known, ok);
    if s'.mode.result.Ran? {
      hide Honest;
      TerminalIsHonest(c, s', s.mode.terminal.value);
    }
  }

  lemma ParentSettlesKeeps(c: Config, s: State, s': State)
    requires ValidConfig(c) && Inv(c, s) && ParentSettles(c, s, s')
    ensures Inv(c, s')
  {
    hide Inv, Cleanup;
    if s.mode.terminal.Some? && s.mode.exited && (s.mode.terminal.value.terminal.Committed? || s.mode.terminal.value.terminal.Uncertain?) {
      SettledWithoutCleanup(c, s, s', s.mode.terminal.value);
    } else {
      var ok: bool :| Cleanup(c, s.dir, s.known, s'.dir, ok)
                      && (s' == s.(dir := s'.dir, mode := Returned(RunFailed(UncertainOutcome)))
                          || (s.mode.terminal.Some? && s' == s.(dir := s'.dir, mode := Returned(if ok then Ran(s.mode.terminal.value) else RunFailed(UncertainCleanup)))));
      SettledWithCleanup(c, s, s', ok);
    }
  }

  /** While the launcher waits for a reply, what it reads is the next honest reply and its automaton accepts it. */
  lemma ParentHears(c: Config, s: State)
    requires ValidConfig(c) && Inv(c, s) && s.mode.Talking? && s.a % 2 == 1
    ensures if s.a < s.b
            then s.a / 2 < |s.replies| &&
              var r := s.replies[s.a / 2];
              && (s.a == 7 ==> s.verdict == Some(r)) && (s.a == 3 || s.a == 5 ==> s.made.Some? && SameIdentity(r.stage, s.made.value))
              && Accepts(s.pa, r) && Received(s.pa, r) == ParentAt(c, s.a + 1)
              && exists rest :: ReadFrame(c.codec, s.up) == Got(r, rest) && UpHolds(c, rest, s.replies[(s.a + 1) / 2..], s.helper.Working?)
            else ReadFrame(c.codec, s.up) == Short
  {
    var rs := s.replies[s.a / 2..];
    var f := Frames(c.codec, rs);
    var tail := s.up[|f|..];
    assert s.up == f + tail;
    if s.a < s.b {
      ReplyAccepted(c, s);
      FirstFrame(c, s.up, rs, s.helper.Working?);
      assert rs[1..] == s.replies[(s.a + 1) / 2..];
    } else {
      assert rs == [] && s.up == tail;
      CutReplyIsShort(c, s.up);
    }
  }

  lemma FirstFrame(c: Config, up: seq<byte>, rs: seq<Control>, whole: bool)
    requires |rs| > 0 && Carries(c.codec, rs[0]) && UpHolds(c, up, rs, whole)
    ensures exists rest :: ReadFrame(c.codec, up) == Got(rs[0], rest) && UpHolds(c, rest, rs[1..], whole)
  {
    var first, later := Frame(c.codec, rs[0]), Frames(c.codec, rs[1..]);
    var f := first + later;
    var tail := up[|f|..];
    assert up == first + (later + tail);
    FrameRoundTrip(c.codec, rs[0], later + tail);
    assert (later + tail)[|later|..] == tail;
    assert UpHolds(c, later + tail, rs[1..], whole);
  }

  lemma CutReplyIsShort(c: Config, p: seq<byte>)
    requires p == [] || Unreplied(c, p)
    ensures ReadFrame(c.codec, p) == Short
  {
    if p != [] {
      var r: Control :| Fits(c.codec, r) && StrictPrefix(p, Frame(c.codec, r));
      CutFrameIsShort(c.codec, r, p);
    }
  }

  lemma ReplyAccepted(c: Config, s: State)
    requires Wires(c, s) && Judged(c, s) && s.a % 2 == 1 && s.a < s.b && ValidConfig(c)
    ensures var r := s.replies[s.a / 2];
            && (s.a == 7 ==> s.verdict == Some(r)) && (s.a == 3 || s.a == 5 ==> s.made.Some? && SameIdentity(r.stage, s.made.value))
            && Accepts(s.pa, r) && Received(s.pa, r) == ParentAt(c, s.a + 1)
  {
    hide UpStream, DownStream;
  }

  lemma RejectingKeeps(c: Config, s: State, up: seq<byte>)
    requires Inv(c, s) && s.mode.Talking? && s.a % 2 == 1
    ensures Inv(c, Rejecting(s, up))
  {
    var s' := Rejecting(s, up);
    assert Wires(c, s') by {
      hide Frame, Frames, Bound, Disk, Modes, UpHolds;
      ReplaceKeepsReplied(c, s, s');
    }
    hide Lockstep, DownStream, UpStream, Replied, Files, Target, Judged;
    DiskKept(c, s, s');
  }

  lemma TakingKeeps(c: Config, s: State, r: Control, rest: seq<byte>)
    requires Inv(c, s) && s.mode.Talking? && s.a % 2 == 1 && s.a < s.b && r == s.replies[s.a / 2] && Received(s.pa, r) == ParentAt(c, s.a + 1)
    requires UpHolds(c, rest, s.replies[(s.a + 1) / 2..], s.helper.Working?)
    requires s.a == 7 ==> s.verdict == Some(r)
    requires s.a == 3 || s.a == 5 ==> s.made.Some? && SameIdentity(r.stage, s.made.value)
    ensures Inv(c, Taking(s, r, rest))
  {
    var s' := Taking(s, r, rest);
    assert Wires(c, s') by {
      hide Frame, Frames, Bound, Disk, Modes, UpHolds, Received, StrictPrefix;
      ReplaceKeepsReplied(c, s, s');
    }
    hide Wires, Files, Target, Judged, Received;
    DiskKept(c, s, s');
  }

  lemma ParentReceivesEither(c: Config, s: State, s': State)
    requires ParentReceives(c, s, s')
    ensures s.mode.Talking? && s.a % 2 == 1
    ensures s' == Rejecting(s, s'.up)
            || (ReadFrame(c.codec, s.up).Got? && s' == Taking(s, ReadFrame(c.codec, s.up).control, ReadFrame(c.codec, s.up).rest))
  {
    hide ReadFrame, Accepts, Received;
  }

  lemma ParentReceivesKeeps(c: Config, s: State, s': State)
    requires ValidConfig(c) && Inv(c, s) && ParentReceives(c, s, s')
    ensures Inv(c, s')
  {
    hide Inv, ReadFrame, Accepts, Received, Outgoing, HelperAt, ParentAt, ParentReceives, Rejecting, Taking, ValidConfig;
    ParentReceivesEither(c, s, s');
    ParentHears(c, s);
    if s' == Rejecting(s, s'.up) {
      RejectingKeeps(c, s, s'.up);
    } else {
      TakingKeeps(c, s, s.replies[s.a / 2], ReadFrame(c.codec, s.up).rest);
    }
  }

  // ---- every step keeps it: the helper ----------------------------------------------------------

  /** While the helper waits for a record, what it reads is exactly the next one sent to it, or nothing yet. */
  lemma HelperHears(c: Config, s: State)
    requires ValidConfig(c) && Inv(c, s) && s.helper.Working? && (s.b == 0 || s.b == 2 || s.b == 6)
    ensures if s.a == s.b + 1
            then ReadFrame(c.codec, s.down) == Got(Outgoing(c, s.a), []) && Accepts(s.ha, Outgoing(c, s.a))
                 && Received(s.ha, Outgoing(c, s.a)) == HelperAt(c, s.b + 1)
            else ReadFrame(c.codec, s.down) == Short
  {
    if s.a == s.b + 1 {
      assert Carried(c, Outgoing(c, s.a));
      assert Frame(c.codec, Outgoing(c, s.a)) + [] == s.down;
      FrameRoundTrip(c.codec, Outgoing(c, s.a), []);
    } else if s.down != [] {
      assert Carried(c, Outgoing(c, s.a + 1));
      CutFrameIsShort(c.codec, Outgoing(c, s.a + 1), s.down);
    }
  }

  lemma LeavingKeeps(c: Config, s: State, s': State)
    requires Inv(c, s) && s.helper.Working? && s' == s.(helper := Leaving, down := s'.down)
    ensures Inv(c, s')
  {
    assert Wires(c, s') by {
      hide Frame, Frames, Bound, Disk, Modes;
      ReceivingKeepsReplies(c, s, s');
    }
    hide Lockstep, DownStream, UpStream, Replied, Files, Target, Judged;
    DiskKept(c, s, s');
  }

  lemma HearingKeeps(c: Config, s: State, s': State)
    requires ValidConfig(c) && Inv(c, s) && s.helper.Working? && (s.b == 0 || s.b == 2 || s.b == 6) && s.a == s.b + 1
    requires s' == s.(b := s.b + 1, ha := HelperAt(c, s.b + 1), down := [])
    ensures Inv(c, s')
  {
    assert Wires(c, s') by {
      hide Frame, Frames, Bound, Disk, Modes, UpHolds;
      ReceivingKeepsReplies(c, s, s');
    }
    hide Wires, Honest, Bound;
  }

  lemma HelperReceivesEither(c: Config, s: State, s': State)
    requires HelperReceives(c, s, s')
    ensures s.helper.Working? && (s.b == 0 || s.b == 2 || s.b == 6)
    ensures s' == s.(helper := Leaving, down := s'.down)
            || (ReadFrame(c.codec, s.down).Got? && var read := ReadFrame(c.codec, s.down); s' == s.(b := s.b + 1, ha := Received(s.ha, read.control), down := read.rest))
  {
    hide ReadFrame, Accepts, Received;
  }

  lemma HelperReceivesKeeps(c: Config, s: State, s': State)
    requires ValidConfig(c) && Inv(c, s) && HelperReceives(c, s, s')
    ensures Inv(c, s')
  {
    hide Inv, ReadFrame, Accepts, Received, Outgoing, HelperAt, HelperReceives, ValidConfig;
    HelperReceivesEither(c, s, s');
    HelperHears(c, s);
    if s'.helper.Leaving? {
      LeavingKeeps(c, s, s');
    } else {
      HearingKeeps(c, s, s');
    }
  }

  lemma ReceivingKeepsReplies(c: Config, s: State, s': State)
    requires UpStream(c, s) && Replied(c, s) && s'.a == s.a && s'.up == s.up && s'.replies == s.replies && s'.mode == s.mode
    requires (s'.helper.Working? ==> s.helper.Working?) && s'.made == s.made && s'.verdict == s.verdict
    ensures UpStream(c, s') && Replied(c, s')
  {
  }

  lemma PayloadKeeps(c: Config, s: State, s': State)
    requires ValidConfig(c) && Inv(c, s) && s.helper.Working? && s.b == 4 && |s.down| >= |c.payload|
    requires s' == s.(b := 5, ha := HelperAt(c, 5), received := s.down[..|c.payload|], down := s.down[|c.payload|..])
    ensures Inv(c, s')
  {
    assert s'.received == c.payload && s'.down == [] && Wires(c, s') by {
      hide Disk, Modes, Frame, Frames, UpHolds, Bound;
      ReceivingKeepsReplies(c, s, s');
    }
    hide Wires, Bound, Honest;
  }

  lemma HelperTakesPayloadKeeps(c: Config, s: State, s': State)
    requires ValidConfig(c) && Inv(c, s) && HelperTakesPayload(s, s')
    ensures Inv(c, s')
  {
    assert s.ha == HelperAt(c, s.b) by {
      hide Disk, Modes, DownStream, UpStream, Replied;
    }
    hide Inv, ValidConfig;
    if s'.helper.Leaving? {
      LeavingKeeps(c, s, s');
    } else {
      PayloadKeeps(c, s, s');
    }
  }

  lemma HelperCreatesKeeps(c: Config, s: State, s': State)
    requires ValidConfig(c) && Inv(c, s) && HelperCreates(c, s, s')
    ensures Inv(c, s')
  {
    NamesDiffer(c);
    hide Lockstep, DownStream, UpStream, Replied;
    WiresKept(c, s, s');
  }

  lemma HelperWritesKeeps(c: Config, s: State, s': State)
    requires ValidConfig(c) && Inv(c, s) && HelperWrites(c, s, s')
    ensures Inv(c, s')
  {
    NamesDiffer(c);
    hide Lockstep, DownStream, UpStream, Replied;
    WiresKept(c, s, s');
  }

  /** Whatever the helper's automaton lets out is a record of this exchange. */
  lemma ReplyCarried(c: Config, a: Automaton, r: Control)
    requires ValidConfig(c) && a.side.Helper? && Sends(a, r)
    ensures Carries(c.codec, r)
  {
    assert Carried(c, r);
  }

  lemma HelperSendsUp(c: Config, s: State, s': State)
    requires ValidConfig(c) && Wires(c, s) && HelperSends(c, s, s')
    ensures UpStream(c, s')
  {
    hide DownStream, Replied, Frame, Frames, Unreplied, Bound, Ready, Sends, ValidConfig;
    var r := s'.replies[|s.replies|];
    assert Carries(c.codec, r) by {
      assert s.ha.side.Helper? && Sends(s.ha, r);
      ReplyCarried(c, s.ha, r);
    }
    assert s' == s.(b := s'.b, ha := s'.ha, up := s.up + Frame(c.codec, r), replies := s.replies + [r], made := s'.made, helper := s'.helper) && Fits(c.codec, r);
    hide HelperSends, Advance, Lockstep;
    if s.mode.Talking? {
      UpHoldsMore(c, s.up, s.replies, s.a / 2, r, s'.helper.Working?);
    }
  }

  lemma UpHoldsMore(c: Config, up: seq<byte>, replies: seq<Control>, from: nat, r: Control, whole: bool)
    requires from <= |replies| && UpHolds(c, up, replies[from..], true)
    ensures UpHolds(c, up + Frame(c.codec, r), (replies + [r])[from..], whole)
  {
    hide Frame, Frames, Unreplied;
    assert (replies + [r])[from..] == replies[from..] + [r];
    FramesAppend(c.codec, replies[from..], r);
  }

  lemma HelperSendsReplied(c: Config, s: State, s': State)
    requires ValidConfig(c) && Wires(c, s) && Files(c, s) && HelperSends(c, s, s')
    ensures Lockstep(c, s') && DownStream(c, s') && Replied(c, s')
  {
    hide UpStream, Frame, Frames, StageHolds;
  }

  lemma HelperSendsDisk(c: Config, s: State, s': State)
    requires ValidConfig(c) && Inv(c, s) && HelperSends(c, s, s')
    ensures Disk(c, s') && Modes(c, s')
  {
    hide DownStream, UpStream, Replied, Frame, Honest, Bound;
  }

  lemma HelperSendsKeeps(c: Config, s: State, s': State)
    requires ValidConfig(c) && Inv(c, s) && HelperSends(c, s, s')
    ensures Inv(c, s')
  {
    hide Lockstep, DownStream, UpStream, Replied, Disk, Modes, Files;
    assert Files(c, s) by {
      DiskHasFiles(c, s);
    }
    HelperSendsUp(c, s, s');
    HelperSendsReplied(c, s, s');
    HelperSendsDisk(c, s, s');
  }

  lemma DiskHasFiles(c: Config, s: State)
    requires Disk(c, s)
    ensures Files(c, s) && Judged(c, s)
  {
  }

  lemma HelperChecksKeeps(c: Config, s: State, s': State)
    requires ValidConfig(c) && Inv(c, s) && HelperChecks(c, s, s')
    ensures Inv(c, s')
  {
    hide DownStream, UpStream, Replied;
    WiresKept(c, s, s');
  }

  lemma HelperRenamesKeeps(c: Config, s: State, s': State)
    requires ValidConfig(c) && Inv(c, s) && HelperRenames(c, s, s')
    ensures Inv(c, s')
  {
    NamesDiffer(c);
    assert Wires(c, s') by {
      hide Lockstep, DownStream, UpStream, Replied, Disk, Modes;
      WiresKept(c, s, s');
    }
    assert s.b == 7;
    hide Wires, Honest;
  }

  lemma HelperSweepsKeeps(c: Config, s: State, s': State)
    requires ValidConfig(c) && Inv(c, s) && HelperSweeps(c, s, s')
    ensures Inv(c, s')
  {
    NamesDiffer(c);
    assert Wires(c, s') by {
      hide Lockstep, DownStream, UpStream, Replied, Disk, Modes;
      WiresKept(c, s, s');
    }
    hide DownStream, UpStream, Replied;
  }

  lemma HelperLeavesKeeps(c: Config, s: State, s': State)
    requires ValidConfig(c) && Inv(c, s) && HelperLeaves(c, s, s')
    ensures Inv(c, s')
  {
    NamesDiffer(c);
    var ok: bool :| (if s.completed || s.made.None? then s'.dir == s.dir else Cleanup(c, s.dir, s.made, s'.dir, ok))
                    && s' == s.(dir := s'.dir, helper := Exited(false));
    hide Lockstep, DownStream, UpStream, Replied, Files, Target, Judged, Cleanup, ValidConfig, Honest;
    WiresKept(c, s, s');
    if s.completed || s.made.None? {
      DiskKept(c, s, s');
    } else {
      CleanupClears(c, s, s', s.made, ok);
    }
    KilledEarly(c, s);
  }

  // ---- every step keeps it: failures ------------------------------------------------------------

  lemma ParentFailsKeeps(c: Config, s: State, s': State)
    requires ValidConfig(c) && Inv(c, s) && ParentFails(c, s, s')
    ensures Inv(c, s')
  {
    ParentCutWires(c, s, s');
    hide DownStream, UpStream, Replied, Files, Target, Judged;
    DiskKept(c, s, s');
  }

  lemma ParentCutWires(c: Config, s: State, s': State)
    requires Wires(c, s) && !s'.mode.Talking? && s' == s.(mode := s'.mode, down := s'.down)
    requires s'.down == s.down || (s.mode.Talking? && exists p :: Unsent(c, s.a, p) && s'.down == s.down + p)
    ensures Wires(c, s')
  {
    hide Replied, Frame, Frames;
    if s'.down != s.down {
      var p :| Unsent(c, s.a, p) && s'.down == s.down + p;
      assert p == [] ==> s.down + p == s.down;
      assert s.down == [] ==> s.down + p == p;
    }
    assert Replied(c, s') by {
      ReplaceKeepsReplied(c, s, s');
    }
  }

  lemma ReplaceKeepsReplied(c: Config, s: State, s': State)
    requires Replied(c, s) && s'.replies == s.replies && s'.made == s.made && s'.verdict == s.verdict
    ensures Replied(c, s')
  {
  }

  lemma ParentDiesKeeps(c: Config, s: State, s': State)
    requires ValidConfig(c) && Inv(c, s) && ParentDies(c, s, s')
    ensures Inv(c, s')
  {
    var p: seq<byte> :| (s.mode.Talking? || p == []) && Unsent(c, s.a, p) && s' == s.(down := s.down + p, mode := Crashed);
    assert p == [] ==> s.down + p == s.down;
    ParentCutWires(c, s, s');
    hide Lockstep, DownStream, UpStream, Replied, Files, Target, Judged, Unsent;
    DiskKept(c, s, s');
  }

  lemma KillsKeep(c: Config, s: State, s': State)
    requires ValidConfig(c) && Inv(c, s) && (ParentKills(s, s') || HelperKilled(s, s'))
    ensures Inv(c, s')
  {
    hide Lockstep, DownStream, UpStream, Replied, Files, Target, Judged;
    WiresKept(c, s, s');
    DiskKept(c, s, s');
    KilledEarly(c, s);
  }

  lemma KilledEarly(c: Config, s: State)
    requires Inv(c, s) && !s.helper.Exited?
    ensures s.b < 8
  {
    hide DownStream, UpStream, Replied, Files, Target, Judged;
  }

  lemma HelperFailsKeeps(c: Config, s: State, s': State)
    requires ValidConfig(c) && Inv(c, s) && HelperFails(c, s, s')
    ensures Inv(c, s')
  {
    HelperCutWires(c, s, s');
    hide Lockstep, DownStream, UpStream, Replied, Files, Target, Judged, Unreplied;
    DiskKept(c, s, s');
  }

  lemma HelperCutWires(c: Config, s: State, s': State)
    requires Wires(c, s) && s.helper.Working? && !s'.helper.Working? && s' == s.(helper := s'.helper, up := s'.up)
    requires exists p :: Unreplied(c, p) && s'.up == s.up + p
    ensures Wires(c, s')
  {
    hide Replied, Frame, Frames;
    var p :| Unreplied(c, p) && s'.up == s.up + p;
    if s.mode.Talking? {
      var f := Frames(c.codec, s.replies[s.a / 2..]);
      assert s'.up[|f|..] == p;
    }
    ReplaceKeepsReplied(c, s, s');
  }

  lemma RenameFailsKeeps(c: Config, s: State, s': State)
    requires ValidConfig(c) && Inv(c, s) && RenameFails(c, s, s')
    ensures Inv(c, s')
  {
    NamesDiffer(c);
    assert Wires(c, s') by {
      hide Lockstep, DownStream, UpStream, Replied, Disk, Modes;
      WiresKept(c, s, s');
    }
    hide Wires, Honest;
    if s'.dir == s.dir && !s'.completed {
      NotRenamedKeeps(c, s, s');
    }
  }

  lemma NotRenamedKeeps(c: Config, s: State, s': State)
    requires Disk(c, s) && s.b == 7 && s.verdict.None? && s' == s.(verdict := s'.verdict)
    requires s'.verdict == Some(Verdict(c.op, Failure, IoCode)) || s'.verdict == Some(Verdict(c.op, Failure, UnsupportedCode))
    ensures Disk(c, s')
  {
  }

  lemma OutsiderKeeps(c: Config, s: State, s': State)
    requires ValidConfig(c) && Inv(c, s) && Outsider(c, s, s')
    ensures Inv(c, s')
  {
    OutsiderSparesDisk(c, s, s');
    hide Lockstep, DownStream, UpStream, Replied, Disk, Outsider, ReportOf;
    WiresKept(c, s, s');
  }

  lemma OutsiderSparesDisk(c: Config, s: State, s': State)
    requires ValidConfig(c) && Disk(c, s) && Outsider(c, s, s')
    ensures Disk(c, s') && s' == s.(dir := s'.dir, foreign := s'.foreign) && (c.stage in s'.dir <==> c.stage in s.dir)
  {
    NamesDiffer(c);
    hide Bound;
  }

  // ---- every run --------------------------------------------------------------------------------

  lemma StepKeeps(c: Config, s: State, s': State)
    requires ValidConfig(c) && Inv(c, s) && Step(c, s, s')
    ensures Inv(c, s')
  {
    hide Inv, ParentSends, ParentReceives, ParentReaps, ParentCleans, ParentWaits, ParentSettles, HelperReceives, HelperTakesPayload, HelperCreates,
         HelperWrites, HelperSends, HelperChecks, HelperRenames, HelperSweeps, HelperLeaves, ParentFails, ParentDies, ParentKills, HelperFails,
         HelperKilled, RenameFails, Outsider, ValidConfig;
    if {
      case ParentSends(c, s, s') => ParentSendsKeeps(c, s, s');
      case ParentReceives(c, s, s') => ParentReceivesKeeps(c, s, s');
      case ParentReaps(s, s') => ParentReapsKeeps(c, s, s');
      case ParentCleans(c, s, s') => ParentCleansKeeps(c, s, s');
      case ParentWaits(s, s') => ParentWaitsKeeps(c, s, s');
      case ParentSettles(c, s, s') => ParentSettlesKeeps(c, s, s');
      case HelperReceives(c, s, s') => HelperReceivesKeeps(c, s, s');
      case HelperTakesPayload(s, s') => HelperTakesPayloadKeeps(c, s, s');
      case HelperCreates(c, s, s') => HelperCreatesKeeps(c, s, s');
      case HelperWrites(c, s, s') => HelperWritesKeeps(c, s, s');
      case HelperSends(c, s, s') => HelperSendsKeeps(c, s, s');
      case HelperChecks(c, s, s') => HelperChecksKeeps(c, s, s');
      case HelperRenames(c, s, s') => HelperRenamesKeeps(c, s, s');
      case HelperSweeps(c, s, s') => HelperSweepsKeeps(c, s, s');
      case HelperLeaves(c, s, s') => HelperLeavesKeeps(c, s, s');
      case ParentFails(c, s, s') => ParentFailsKeeps(c, s, s');
      case ParentDies(c, s, s') => ParentDiesKeeps(c, s, s');
      case ParentKills(s, s') => KillsKeep(c, s, s');
      case HelperFails(c, s, s') => HelperFailsKeeps(c, s, s');
      case HelperKilled(s, s') => KillsKeep(c, s, s');
      case RenameFails(c, s, s') => RenameFailsKeeps(c, s, s');
      case Outsider(c, s, s') => OutsiderKeeps(c, s, s');
    }
  }

  /** A run: any steps, regular or failing, of either program. */
  ghost predicate Run(c: Config, states: seq<State>) {
    |states| > 0 && states[0] == Begin(c) && forall i :: 0 <= i < |states| - 1 ==> Step(c, states[i], states[i + 1])
  }

  lemma BeginKeeps(c: Config)
    requires ValidConfig(c)
    ensures Inv(c, Begin(c))
  {
  }

  lemma {:induction false} RunKeeps(c: Config, states: seq<State>)
    requires ValidConfig(c) && Run(c, states)
    ensures Inv(c, states[|states| - 1])
    decreases |states|
  {
    hide Inv, Step, Begin;
    if |states| == 1 {
      BeginKeeps(c);
    } else {
      RunKeeps(c, states[..|states| - 1]);
      StepKeeps(c, states[|states| - 2], states[|states| - 1]);
    }
  }

  /** A create leaves an entry at the target alone, and only somebody else changes what it holds but for this mutation. */
  ghost predicate Spares(c: Config, s: State, s': State) {
    && (c.op.Create? && c.target in s.dir ==> c.target in s'.dir && s'.dir[c.target] == s.dir[c.target])
    && (s'.foreign != s.foreign ==> Outsider(c, s, s'))
  }

  lemma ParentTalkSpares(c: Config, s: State, s': State)
    requires ParentSends(c, s, s') || ParentReceives(c, s, s')
    ensures Spares(c, s, s')
  {
    ParentTalkKeepsFiles(c, s, s');
  }

  lemma ParentTalkKeepsFiles(c: Config, s: State, s': State)
    requires ParentSends(c, s, s') || ParentReceives(c, s, s')
    ensures s'.dir == s.dir && s'.foreign == s.foreign
  {
    hide Accepts, Received, ReadFrame, Frame, Sends, Outgoing, Down, Fits;
  }

  lemma HelperTalkSpares(c: Config, s: State, s': State)
    requires HelperReceives(c, s, s') || HelperTakesPayload(s, s') || HelperSends(c, s, s')
    ensures Spares(c, s, s')
  {
    hide Accepts, Received, ReadFrame, Frame, Sends, Ready, Outsider;
  }

  lemma QuietSpares(c: Config, s: State, s': State)
    requires ParentReaps(s, s') || ParentWaits(s, s') || HelperChecks(c, s, s') || ParentFails(c, s, s') || ParentDies(c, s, s')
             || ParentKills(s, s') || HelperFails(c, s, s') || HelperKilled(s, s')
    ensures Spares(c, s, s')
  {
    hide Unsent, Unreplied, Outsider;
  }

  lemma CleanupSpares(c: Config, s: State, s': State)
    requires c.target != c.stage
    requires ParentCleans(c, s, s') || ParentSettles(c, s, s') || HelperSweeps(c, s, s') || HelperLeaves(c, s, s')
    ensures Spares(c, s, s')
  {
  }

  lemma FileStepSpares(c: Config, s: State, s': State)
    requires c.target != c.stage
    requires HelperCreates(c, s, s') || HelperWrites(c, s, s') || HelperRenames(c, s, s') || RenameFails(c, s, s') || Outsider(c, s, s')
    ensures Spares(c, s, s')
  {
  }

  lemma StepSpares(c: Config, s: State, s': State)
    requires ValidConfig(c) && Step(c, s, s')
    ensures Spares(c, s, s')
  {
    NamesDiffer(c);
    hide ParentSends, ParentReceives, ParentReaps, ParentCleans, ParentWaits, ParentSettles, HelperReceives, HelperTakesPayload, HelperCreates,
         HelperWrites, HelperSends, HelperChecks, HelperRenames, HelperSweeps, HelperLeaves, ParentFails, ParentDies, ParentKills, HelperFails,
         HelperKilled, RenameFails, Outsider, ValidConfig;
    if ParentSends(c, s, s') || ParentReceives(c, s, s') {
      ParentTalkSpares(c, s, s');
    } else if HelperReceives(c, s, s') || HelperTakesPayload(s, s') || HelperSends(c, s, s') {
      HelperTalkSpares(c, s, s');
    } else if ParentCleans(c, s, s') || ParentSettles(c, s, s') || HelperSweeps(c, s, s') || HelperLeaves(c, s, s') {
      CleanupSpares(c, s, s');
    } else if HelperCreates(c, s, s') || HelperWrites(c, s, s') || HelperRenames(c, s, s') || RenameFails(c, s, s') || Outsider(c, s, s') {
      FileStepSpares(c, s, s');
    } else {
      QuietSpares(c, s, s');
    }
  }

  /** Creating never overwrites: an entry once at the target name stays, whoever made it and whenever. */
  lemma CreateNeverOverwrites(c: Config, s: State, s': State)
    requires ValidConfig(c) && Step(c, s, s') && c.op.Create? && c.target in s.dir
    ensures c.target in s'.dir && s'.dir[c.target] == s.dir[c.target]
  {
    hide Step;
    StepSpares(c, s, s');
  }

  /** Nobody else writes the target during the run. */
  ghost predicate Alone(c: Config, states: seq<State>) {
    forall i :: 0 <= i < |states| - 1 ==> !Outsider(c, states[i], states[i + 1])
  }

  lemma {:induction false} AloneKeepsTarget(c: Config, states: seq<State>)
    requires ValidConfig(c) && Run(c, states) && Alone(c, states)
    ensures states[|states| - 1].foreign == At(c.initial, c.target)
    decreases |states|
  {
    hide Step, Outsider;
    if |states| > 1 {
      var n := |states| - 1;
      var before := states[..n];
      forall i | 0 <= i < |before| - 1 ensures !Outsider(c, before[i], before[i + 1]) {
        assert before[i] == states[i] && before[i + 1] == states[i + 1];
      }
      AloneKeepsTarget(c, before);
      StepSpares(c, states[n - 1], states[n]);
    }
  }

  /**
   * The outcome is honest after every run: success means the target holds exactly the payload; any other answer but
   * `uncertain` means the target is as it was, or as somebody else made it, and no stage file is left.
   */
  lemma HonestOutcome(c: Config, states: seq<State>)
    requires ValidConfig(c) && Run(c, states) && states[|states| - 1].mode.Returned?
    ensures var s := states[|states| - 1]; var report := ReportOf(s.mode.result);
            && (report.Success? ==> c.target in s.dir && s.dir[c.target].content == c.payload && c.stage !in s.dir)
            && (!report.Success? && !report.UncertainReport? ==>
                  At(s.dir, c.target) == s.foreign && c.stage !in s.dir && (Alone(c, states) ==> At(s.dir, c.target) == At(c.initial, c.target)))
  {
    RunKeeps(c, states);
    if Alone(c, states) {
      AloneKeepsTarget(c, states);
    }
    hide Lockstep, DownStream, UpStream, Replied, Judged, Step, Outsider;
  }

  /** At every moment the target shows the whole old contents or the whole new ones, and no other name changes. */
  lemma AlwaysWhole(c: Config, states: seq<State>)
    requires ValidConfig(c) && Run(c, states)
    ensures var s := states[|states| - 1];
            && (At(s.dir, c.target) == s.foreign || (c.target in s.dir && s.dir[c.target].content == c.payload))
            && (Alone(c, states) ==> s.foreign == At(c.initial, c.target))
            && forall n :: n != c.stage && n != c.target ==> At(s.dir, n) == At(c.initial, n)
  {
    RunKeeps(c, states);
    if Alone(c, states) {
      AloneKeepsTarget(c, states);
    }
    hide Lockstep, DownStream, UpStream, Replied, Judged, Step, Outsider;
  }

  /** The rename happens only after the commit was sent, and the commit only after the helper confirmed the payload. */
  lemma CommitOrder(c: Config, states: seq<State>)
    requires ValidConfig(c) && Run(c, states)
    ensures var s := states[|states| - 1];
            && (s.completed ==> s.a >= 7 && s.b >= 7)
            && (s.a >= 7 ==> s.b >= 6 && s.received == c.payload && s.wrote == |c.payload| && |s.replies| >= 3 && s.replies[2].phase.PayloadComplete?)
  {
    RunKeeps(c, states);
    hide DownStream, UpStream, Modes, Step;
  }

  predicate Welcome(a: Automaton, read: FrameRead) {
    read.Short? || (read.Got? && Accepts(a, read.control))
  }

  /** Neither side ever refuses what the other honestly sent, and the payload is delivered once, byte for byte. */
  lemma NothingIsRejected(c: Config, states: seq<State>)
    requires ValidConfig(c) && Run(c, states)
    ensures var s := states[|states| - 1];
            && (s.mode.Talking? && s.a % 2 == 1 ==> Welcome(s.pa, ReadFrame(c.codec, s.up)))
            && (s.helper.Working? && (s.b == 0 || s.b == 2 || s.b == 6) ==> Welcome(s.ha, ReadFrame(c.codec, s.down)))
            && (s.b >= 5 ==> s.received == c.payload)
  {
    var s := states[|states| - 1];
    RunKeeps(c, states);
    assert s.b >= 5 ==> s.received == c.payload by {
      hide Wires, Step, Modes;
    }
    hide Inv, Step, Accepts, ReadFrame, Received;
    if s.mode.Talking? && s.a % 2 == 1 {
      ParentHears(c, s);
    }
    if s.helper.Working? && (s.b == 0 || s.b == 2 || s.b == 6) {
      HelperHears(c, s);
    }
  }

  // ---- progress ---------------------------------------------------------------------------------

  function HelperRank(h: HelperMode): nat {
    match h
    case Working => 0
    case Leaving => 1
    case Exited(_) => 2
  }

  function ParentRank(m: ParentMode): nat {
    match m
    case Talking => 0
    case Failing(_) => 1
    case Waiting(_) => 1
    case Cleaning(_) => 2
    case Settling(_, _) => 2
    case _ => 3
  }

  function One(b: bool): nat {
    if b then 1 else 0
  }

  function Progress(s: State): nat {
    s.a + s.b + s.wrote + One(s.made.Some?) + One(s.checked) + One(s.verdict.Some?) + One(s.swept) + HelperRank(s.helper) + ParentRank(s.mode)
  }

  /** Every regular step gets further, and there is an end: no run has more than |payload| + 25 of them. */
  lemma RegularStepsAreBounded(c: Config, s: State, s': State)
    requires ValidConfig(c) && Inv(c, s) && Step(c, s, s')
    ensures Progress(s') >= Progress(s) && Progress(s') <= |c.payload| + 25
    ensures Regular(c, s, s') ==> Progress(s') > Progress(s)
  {
    StepKeeps(c, s, s');
    ProgressBounded(c, s');
    hide ParentSends, ParentReceives, ParentReaps, ParentCleans, ParentWaits, ParentSettles, HelperReceives, HelperTakesPayload, HelperCreates,
         HelperWrites, HelperSends, HelperChecks, HelperRenames, HelperSweeps, HelperLeaves, ParentFails, ParentDies, ParentKills, HelperFails,
         HelperKilled, RenameFails, Outsider, ValidConfig, Inv, Progress;
    if ParentSends(c, s, s') {
      ParentSendsProgress(c, s, s');
    } else if ParentReceives(c, s, s') {
      ParentReceivesProgress(c, s, s');
    } else if ParentSettles(c, s, s') {
      SettlingProgress(c, s, s');
    } else if ParentReaps(s, s') || ParentCleans(c, s, s') || ParentWaits(s, s') {
      ParentProgress(c, s, s');
    } else if HelperReceives(c, s, s') {
      HelperReceivesProgress(c, s, s');
    } else if HelperTakesPayload(s, s') {
      PayloadProgress(s, s');
    } else if HelperWrites(c, s, s') {
      WriteProgress(c, s, s');
    } else if HelperCreates(c, s, s') || HelperSends(c, s, s') {
      HelperReplyProgress(c, s, s');
    } else if HelperChecks(c, s, s') || HelperRenames(c, s, s') {
      VerdictProgress(c, s, s');
    } else if HelperSweeps(c, s, s') || HelperLeaves(c, s, s') {
      SweepProgress(c, s, s');
    } else if RenameFails(c, s, s') || Outsider(c, s, s') {
      FileFaultProgress(c, s, s');
    } else {
      FaultProgress(c, s, s');
    }
  }

  lemma ProgressBounded(c: Config, s: State)
    requires Inv(c, s)
    ensures Progress(s) <= |c.payload| + 25
  {
    hide DownStream, UpStream, Replied, Target, Judged, Modes;
  }

  lemma ParentReceivesProgress(c: Config, s: State, s': State)
    requires ParentReceives(c, s, s')
    ensures Progress(s') > Progress(s)
  {
    ParentReceivesEither(c, s, s');
    hide ParentReceives, Received, ReadFrame, One, HelperRank;
  }

  lemma ParentSendsProgress(c: Config, s: State, s': State)
    requires ParentSends(c, s, s')
    ensures Progress(s') > Progress(s)
  {
    hide Sends, Outgoing, Down, One, HelperRank, MovesPayload, ParentRank;
  }

  lemma ParentProgress(c: Config, s: State, s': State)
    requires ParentReaps(s, s') || ParentCleans(c, s, s') || ParentWaits(s, s')
    ensures Progress(s') > Progress(s)
  {
    hide Cleanup, One;
  }

  lemma SettlingEnds(c: Config, s: State, s': State)
    requires ParentSettles(c, s, s')
    ensures s.mode.Settling? && s'.mode.Returned? && s' == s.(dir := s'.dir, mode := s'.mode)
  {
    hide Cleanup;
  }

  lemma SettlingProgress(c: Config, s: State, s': State)
    requires ParentSettles(c, s, s')
    ensures Progress(s') > Progress(s)
  {
    SettlingEnds(c, s, s');
    hide ParentSettles, HelperRank, One;
  }

  lemma HelperReceivesProgress(c: Config, s: State, s': State)
    requires HelperReceives(c, s, s')
    ensures Progress(s') > Progress(s)
  {
    HelperReceivesEither(c, s, s');
    hide HelperReceives, Received, ReadFrame, One, ParentRank;
  }

  lemma PayloadProgress(s: State, s': State)
    requires HelperTakesPayload(s, s')
    ensures Progress(s') > Progress(s)
  {
    hide One, ParentRank, MovesPayload;
  }

  lemma WriteProgress(c: Config, s: State, s': State)
    requires HelperWrites(c, s, s')
    ensures Progress(s') > Progress(s)
  {
    hide One, ParentRank, HelperRank, WroteStamp;
  }

  lemma HelperReplyProgress(c: Config, s: State, s': State)
    requires HelperCreates(c, s, s') || HelperSends(c, s, s')
    ensures Progress(s') > Progress(s)
  {
    hide Sends, Ready, Frame, ParentRank;
  }

  lemma VerdictProgress(c: Config, s: State, s': State)
    requires HelperChecks(c, s, s') || HelperRenames(c, s, s')
    ensures Progress(s') > Progress(s)
  {
    hide Verdict, ParentRank, HelperRank;
  }

  lemma SweepProgress(c: Config, s: State, s': State)
    requires HelperSweeps(c, s, s') || HelperLeaves(c, s, s')
    ensures Progress(s') > Progress(s)
  {
    hide Cleanup, ParentRank;
  }

  lemma FaultProgress(c: Config, s: State, s': State)
    requires ParentFails(c, s, s') || ParentDies(c, s, s') || ParentKills(s, s') || HelperFails(c, s, s') || HelperKilled(s, s')
    ensures Progress(s') >= Progress(s)
  {
    hide Unsent, Unreplied, One;
  }

  lemma FileFaultProgress(c: Config, s: State, s': State)
    requires RenameFails(c, s, s') || Outsider(c, s, s')
    ensures Progress(s') >= Progress(s)
  {
    hide Verdict, HelperRank, ParentRank;
  }

  /** The helper's first reply, if it is sent now, names the launcher's own executable. */
  ghost predicate NamesExecutable(c: Config, s: State, s': State) {
    |s'.replies| > 0 ==> s'.replies[0].executable == if |s.replies| > 0 then s.replies[0].executable else c.executable
  }

  /** A helper with nothing to wait for can always do its next piece of work. */
  lemma HelperMoves(c: Config, s: State) returns (s': State)
    requires ValidConfig(c) && Inv(c, s) && s.helper.Working? && s.b % 2 == 1
    ensures Regular(c, s, s') && NamesExecutable(c, s, s')
  {
    var stamp := Stamp(1, 1, 1, 0, 1, 0, 0, 0, 0, 0);
    if s.made.None? {
      s' := if c.stage in s.dir then s.(helper := Exited(false)) else s.(dir := s.dir[c.stage := Entry(stamp, [])], made := Some(stamp));
      assert HelperCreates(c, s, s');
    } else if s.b == 5 && s.wrote < |s.received| {
      s' := s.(wrote := |s.received|,
               dir := s.dir[c.stage := Entry(s.dir[c.stage].stamp.(size := |s.received|), s.received[..|s.received|])]);
      assert HelperWrites(c, s, s');
    } else if s.b < 7 {
      s' := HelperReplies(c, s, if s.b == 1 then Bare(c.op, StageCreated).(executable := c.executable)
                               else if s.b == 3 then Bare(c.op, StageAnnounced).(stage := s.made.value)
                               else Bare(c.op, PayloadComplete).(stage := s.dir[c.stage].stamp));
    } else {
      s' := HelperConcludes(c, s);
    }
  }

  lemma HelperReplies(c: Config, s: State, r: Control) returns (s': State)
    requires ValidConfig(c) && s.helper.Working? && Ready(c, s, r) && Sends(s.ha, r) && s.ha.side.Helper?
    requires |s.replies| == 0 ==> r.executable == c.executable
    ensures Regular(c, s, s') && NamesExecutable(c, s, s')
  {
    s' := s.(b := s.b + 1, ha := Advance(s.ha, r), up := s.up + Frame(c.codec, r), replies := s.replies + [r],
             made := if s.b == 5 then Some(r.stage) else s.made, helper := if s.b == 7 then Exited(true) else Working);
    ReplyCarried(c, s.ha, r);
    assert HelperSends(c, s, s');
  }

  lemma HelperConcludes(c: Config, s: State) returns (s': State)
    requires ValidConfig(c) && Inv(c, s) && s.helper.Working? && s.b == 7
    ensures Regular(c, s, s') && NamesExecutable(c, s, s')
  {
    var stamp := Stamp(1, 1, 1, 0, 1, 0, 0, 0, 0, 0);
    if s.verdict.Some? && (s.completed || s.swept) {
      s' := HelperReplies(c, s, s.verdict.value);
    } else if s.verdict.Some? {
      s' := s.(helper := Leaving);
      assert Cleanup(c, s.dir, s.made, s.dir, false);
      assert HelperSweeps(c, s, s');
    } else if !s.checked {
      s' := if c.op.Replace?
            then if c.target in s.dir && s.dir[c.target].stamp == c.expected then s.(checked := true)
                 else s.(verdict := Some(Verdict(c.op, Refused, SourceChangedCode)))
            else if c.target in s.dir then s.(verdict := Some(Verdict(c.op, Refused, DestinationExistsCode)))
                 else s.(checked := true);
      assert HelperChecks(c, s, s');
    } else {
      s' := if c.op.Create? && c.target in s.dir then s.(verdict := Some(Verdict(c.op, Refused, DestinationExistsCode)))
            else s.(dir := (s.dir - {c.stage})[c.target := Entry(stamp, s.dir[c.stage].content)], completed := true,
                    verdict := Some(Verdict(c.op, Committed, CommittedCode).(stage := stamp)));
      assert HelperRenames(c, s, s');
    }
  }

  /** A helper waiting for the launcher finds its next record, or finds the stream closed. */
  lemma HelperListens(c: Config, s: State) returns (s': State)
    requires ValidConfig(c) && Inv(c, s) && s.helper.Working? && s.b % 2 == 0
    requires s.a == s.b + 1 || s.mode.Crashed?
    ensures Regular(c, s, s') && NamesExecutable(c, s, s')
  {
    if s.b == 4 {
      s' := if |s.down| >= s.ha.payload
            then s.(b := 5, ha := s.ha.(phase := PayloadComplete), received := s.down[..s.ha.payload], down := s.down[s.ha.payload..])
            else s.(helper := Leaving);
      assert HelperTakesPayload(s, s') by {
        hide UpStream, Replied, Disk;
      }
    } else {
      assert s.b < 8 by {
        KilledEarly(c, s);
      }
      HelperHears(c, s);
      s' := match ReadFrame(c.codec, s.down)
            case Short => s.(helper := Leaving)
            case Invalid => s.(helper := Leaving)
            case Got(r, rest) =>
              if Accepts(s.ha, r) && (s.b == 0 && c.op.Replace? ==> c.target in s.dir && s.dir[c.target].stamp == c.expected)
              then s.(b := s.b + 1, ha := Received(s.ha, r), down := rest)
              else s.(helper := Leaving, down := rest);
      hide Inv, ReadFrame, Accepts, Received;
      assert HelperReceives(c, s, s');
    }
  }

  lemma ParentSpeaks(c: Config, s: State) returns (s': State)
    requires ValidConfig(c) && Inv(c, s) && s.mode.Talking? && s.a % 2 == 0
    ensures Regular(c, s, s') && NamesExecutable(c, s, s')
  {
    hide DownStream, UpStream, Replied, Disk, Frame;
    s' := s.(a := s.a + 1, down := s.down + Down(c, s.a + 1),
             pa := if s.a == 4 then s.pa.(phase := PayloadComplete) else Advance(s.pa, Outgoing(c, s.a + 1)));
    assert s.a != 4 ==> Carried(c, Outgoing(c, s.a + 1));
    assert ParentSends(c, s, s');
  }

  lemma ParentListens(c: Config, s: State) returns (s': State)
    requires ValidConfig(c) && Inv(c, s) && s.mode.Talking? && s.a % 2 == 1 && (s.a < s.b || s.helper.Exited?)
    ensures Regular(c, s, s') && NamesExecutable(c, s, s')
  {
    ParentHears(c, s);
    hide Wires, Disk, Accepts, Received, ReadFrame, Rejecting, Taking, ValidConfig;
    s' := match ReadFrame(c.codec, s.up)
          case Short => Rejecting(s, [])
          case Invalid => Rejecting(s, [])
          case Got(r, rest) =>
            if Accepts(s.pa, r) && (s.a == 1 ==> r.executable == c.executable) then Taking(s, r, rest) else Rejecting(s, rest);
    assert ParentReceives(c, s, s');
  }

  lemma ParentFinishes(c: Config, s: State) returns (s': State)
    requires s.mode.Failing? || s.mode.Cleaning? || s.mode.Settling? || (s.mode.Waiting? && s.helper.Exited?)
    ensures Regular(c, s, s') && NamesExecutable(c, s, s')
  {
    var ok := c.stage !in s.dir;
    assert Cleanup(c, s.dir, s.known, s.dir, ok);
    match s.mode {
      case Failing(e) =>
        s' := s.(mode := Cleaning(e), helper := if s.helper.Exited? then s.helper else Exited(false));
        assert ParentReaps(s, s');
      case Cleaning(e) =>
        s' := s.(mode := Returned(RunFailed(if ok then e else UncertainCleanup)));
        assert ParentCleans(c, s, s');
      case Waiting(t) =>
        s' := s.(mode := Settling(t, s.helper.ok));
        assert ParentWaits(s, s');
      case Settling(t, exited) =>
        s' := s.(mode := Returned(if t.None? || !exited then RunFailed(UncertainOutcome)
                                  else if t.value.terminal.Committed? || t.value.terminal.Uncertain? || ok then Ran(t.value)
                                  else RunFailed(UncertainCleanup)));
        assert ParentSettles(c, s, s');
      case _ =>
    }
  }

  /** No deadlock, even after failures: until the launcher has returned or died and the helper is gone, some program can go on. */
  lemma NoDeadlock(c: Config, s: State) returns (s': State)
    requires ValidConfig(c) && Inv(c, s) && !((s.mode.Returned? || s.mode.Crashed?) && s.helper.Exited?)
    ensures Regular(c, s, s') && NamesExecutable(c, s, s')
  {
    if s.helper.Working? {
      WaitsInTurn(c, s);
    }
    hide Wires, Disk;
    if s.mode.Failing? || s.mode.Cleaning? || s.mode.Settling? || (s.mode.Waiting? && s.helper.Exited?) {
      s' := ParentFinishes(c, s);
    } else if s.mode.Talking? && s.a % 2 == 0 {
      s' := ParentSpeaks(c, s);
    } else if s.mode.Talking? && (s.a < s.b || s.helper.Exited?) {
      s' := ParentListens(c, s);
    } else if s.helper.Leaving? {
      s' := s.(helper := Exited(false));
      assert Cleanup(c, s.dir, s.made, s.dir, c.stage !in s.dir);
      assert HelperLeaves(c, s, s');
    } else if s.b % 2 == 1 {
      s' := HelperMoves(c, s);
    } else {
      s' := HelperListens(c, s);
    }
  }

  /** A launcher that waits for a reply has left the next move to the helper. */
  lemma WaitsInTurn(c: Config, s: State)
    requires Inv(c, s) && s.helper.Working?
    ensures s.mode.Talking? && s.a % 2 == 1 && s.a >= s.b && s.b % 2 == 0 ==> s.a == s.b + 1
    ensures s.mode.Waiting? && s.b % 2 == 0 ==> s.a == s.b + 1
    ensures !s.mode.Returned? && !s.mode.Cleaning? && !s.mode.Settling?
  {
    hide DownStream, UpStream, Replied, Disk;
  }
}
