/** The pure release decision: one event applied to one snapshot of the release slot. */
module ReleaseModel {
  import opened Ordering

  const MANIFEST_VERSION := 4
  const MAX_READY_TIMEOUT_SECONDS := 600
  const MAX_READY_POLL_MILLISECONDS := 30000

  /** Fingerprints are modelled by what they identify, so equal fingerprints mean equal contents. */
  type Fingerprint = string

  datatype State = Prepared | Pending | Accepting | RollingBack | Clear

  datatype ReleaseEvent = PrepareEvent | ResumeEvent | ReadyEvent | AcceptEvent | RollbackEvent | UnknownEvent

  /** The supervision paths and fingerprints recorded for one service. */
  datatype Binding = Binding(agent: string, plistPath: string, plist: Fingerprint, wrapperPath: string, wrapper: Fingerprint,
                             mcpWrapperPath: string, mcpWrapper: Fingerprint, stdoutPath: string, stderrPath: string,
                             environmentPath: string, environment: Fingerprint, healthUrlFile: string)

  datatype Service = Service(server: string, binding: Binding)

  datatype Manifest = Manifest(version: int, state: State, id: string, commit: string, dependency: Fingerprint,
                               candidateFile: string, candidate: Fingerprint, authorityFile: string, authority: Fingerprint,
                               previousPresent: bool, previousFile: string, previous: Fingerprint,
                               targetPath: string, effectiveUid: int, binding: Binding,
                               readyTimeout: int, readyPoll: int, services: seq<Service>)

  datatype Observed = Observed(candidate: Fingerprint, authorityArtifact: Fingerprint, controller: Fingerprint, previous: Fingerprint,
                               installedPresent: bool, installed: Fingerprint, plist: Fingerprint, wrapper: Fingerprint,
                               mcpWrapper: Fingerprint, environment: Fingerprint, runtimeReady: bool, supervisorUnloaded: bool)

  datatype Context = Context(releaseId: string, prepared: Option<Manifest>, observed: Observed, rollbackReady: bool)

  datatype Command = PublishPrepared | PersistState | ResumeDeployment | ResumeRollback | ClearTransaction

  datatype ErrorCode =
    | NoPending | Busy | IdentityMismatch | AuthorityMismatch | InstalledMismatch | StateMalformed | ArtifactMismatch
    | RuntimeDrift | StateConflict | RecoveryUnconfirmed | HostEffectFailed | RolledBack

  datatype Decision = Decision(current: Option<Manifest>, next: Option<Manifest>, commands: seq<Command>, applied: bool, err: Option<ErrorCode>)

  // ---- validation -------------------------------------------------------------------------------

  predicate ValidFingerprint(value: string) { |value| == 64 && LowerHex(value) }

  predicate ValidCommit(value: string) { (|value| == 40 || |value| == 64) && LowerHex(value) }

  predicate Absolute(path: string) { |path| > 0 && path[0] == '/' }

  predicate AlphaNumeric(c: char) { 'a' <= c <= 'z' || 'A' <= c <= 'Z' || '0' <= c <= '9' }

  /** Dot-separated segments of letters, digits, dashes and underscores, each with a letter or digit at both ends. */
  predicate ValidLabel(name: string) {
    && 0 < |name| <= 255 && AlphaNumeric(name[0]) && AlphaNumeric(name[|name| - 1])
    && forall i :: 0 <= i < |name| ==>
         AlphaNumeric(name[i]) || name[i] == '-' || name[i] == '_'
         || (name[i] == '.' && 0 < i < |name| - 1 && AlphaNumeric(name[i - 1]) && AlphaNumeric(name[i + 1]))
  }

  const CANONICAL_SERVICES := ["obsidian", "ynab", "obsidian-http", "ynab-http"]

  function ServiceIndex(server: string): int {
    if server == CANONICAL_SERVICES[0] then 0
    else if server == CANONICAL_SERVICES[1] then 1
    else if server == CANONICAL_SERVICES[2] then 2
    else if server == CANONICAL_SERVICES[3] then 3
    else -1
  }

  predicate Increasing(services: seq<Service>, cursor: int, maxIndex: int) {
    services == []
    || (var index := ServiceIndex(services[0].server);
        0 <= index <= maxIndex && index > cursor && Increasing(services[1..], index, maxIndex))
  }

  predicate ValidServiceOrder(services: seq<Service>, maxIndex: int) {
    services != [] && services[0].server == CANONICAL_SERVICES[0] && Increasing(services, -1, maxIndex)
  }

  predicate AbsolutePaths(b: Binding) {
    Absolute(b.plistPath) && Absolute(b.wrapperPath) && Absolute(b.stdoutPath) && Absolute(b.stderrPath)
    && Absolute(b.environmentPath) && Absolute(b.healthUrlFile)
  }

  predicate ValidBinding(b: Binding) {
    ValidLabel(b.agent) && AbsolutePaths(b) && ValidFingerprint(b.plist) && ValidFingerprint(b.wrapper) && ValidFingerprint(b.environment)
  }

  /** Tunnel services carry a second wrapper; services that speak HTTP directly must not. */
  predicate ValidService(s: Service) {
    ValidBinding(s.binding) &&
    if s.server == "obsidian" || s.server == "ynab" then Absolute(s.binding.mcpWrapperPath) && ValidFingerprint(s.binding.mcpWrapper)
    else (s.server == "obsidian-http" || s.server == "ynab-http") && s.binding.mcpWrapperPath == "" && s.binding.mcpWrapper == ""
  }

  predicate ValidServices(version: int, services: seq<Service>) {
    services != [] ==>
      && (version == 3 || version == MANIFEST_VERSION)
      && ValidServiceOrder(services, if version == 3 then 1 else |CANONICAL_SERVICES| - 1)
      && forall i :: 0 <= i < |services| ==> ValidService(services[i])
  }

  predicate ValidManifest(m: Manifest) {
    && (m.version == 2 || m.version == 3 || m.version == MANIFEST_VERSION) && !m.state.Clear?
    && ValidFingerprint(m.id) && ValidCommit(m.commit) && ValidFingerprint(m.dependency)
    && m.candidateFile != "" && ValidFingerprint(m.candidate) && m.authorityFile != "" && ValidFingerprint(m.authority)
    && Absolute(m.targetPath) && m.effectiveUid >= 0 && ValidBinding(m.binding)
    && Absolute(m.binding.mcpWrapperPath) && ValidFingerprint(m.binding.mcpWrapper)
    && 0 < m.readyTimeout <= MAX_READY_TIMEOUT_SECONDS && 0 < m.readyPoll <= MAX_READY_POLL_MILLISECONDS
    && ValidServices(m.version, m.services)
    && (if m.previousPresent then m.previousFile != "" && ValidFingerprint(m.previous) else m.previousFile == "" && m.previous == "")
  }

  predicate ValidSnapshot(snapshot: Option<Manifest>) {
    snapshot.Some? ==> ValidManifest(snapshot.value)
  }

  // ---- observations -----------------------------------------------------------------------------

  function Installed(o: Observed): Option<Fingerprint> {
    if o.installedPresent then Some(o.installed) else None
  }

  /** What the target held when the release was prepared. */
  function Original(m: Manifest): Option<Fingerprint> {
    if m.previousPresent then Some(m.previous) else None
  }

  function CheckArtifacts(m: Manifest, o: Observed): Option<ErrorCode> {
    if o.controller != m.authority then Some(AuthorityMismatch)
    else if o.authorityArtifact != m.authority || o.candidate != m.candidate || (m.previousPresent && o.previous != m.previous)
    then Some(ArtifactMismatch)
    else None
  }

  function CheckRuntime(b: Binding, o: Observed): Option<ErrorCode> {
    if o.plist != b.plist || o.wrapper != b.wrapper || o.mcpWrapper != b.mcpWrapper || o.environment != b.environment
    then Some(RuntimeDrift) else None
  }

  function CheckAcceptance(m: Manifest, o: Observed): Option<ErrorCode> {
    if CheckRuntime(m.binding, o).Some? then CheckRuntime(m.binding, o)
    else if !o.installedPresent || o.installed != m.candidate then Some(InstalledMismatch)
    else if o.supervisorUnloaded || !o.runtimeReady then Some(RecoveryUnconfirmed)
    else None
  }

  function CheckPrepare(m: Manifest, o: Observed): Option<ErrorCode> {
    if CheckArtifacts(m, o).Some? then CheckArtifacts(m, o)
    else if m.previousPresent && (!o.installedPresent || o.installed != m.previous) then Some(InstalledMismatch)
    else if !m.previousPresent && o.installedPresent then Some(InstalledMismatch)
    else CheckRuntime(m.binding, o)
  }

  predicate TargetAllowed(m: Manifest, o: Observed) {
    if !o.installedPresent then !m.previousPresent
    else o.installed == m.candidate || (m.previousPresent && o.installed == m.previous)
  }

  predicate RecoveryConfirmed(m: Manifest, o: Observed, rollbackReady: bool) {
    if m.previousPresent then rollbackReady && o.installedPresent && o.installed == m.previous && o.runtimeReady
    else !o.installedPresent && o.supervisorUnloaded
  }

  // ---- the decision -----------------------------------------------------------------------------

  predicate EventAllowed(state: State, event: ReleaseEvent) {
    match state
    case Prepared => event.ResumeEvent? || event.ReadyEvent? || event.RollbackEvent?
    case Pending => event.AcceptEvent? || event.RollbackEvent?
    case Accepting => event.AcceptEvent?
    case RollingBack => event.RollbackEvent?
    case Clear => false
  }

  function Reject(current: Option<Manifest>, code: ErrorCode): Decision {
    Decision(current, current, [], false, Some(code))
  }

  function Perform(current: Option<Manifest>, next: Option<Manifest>, command: Command): Decision {
    Decision(current, next, [command], true, None)
  }

  function Transition(m: Manifest, state: State): Decision {
    Perform(Some(m), Some(m.(state := state)), PersistState)
  }

  function Decide(snapshot: Option<Manifest>, event: ReleaseEvent, context: Context): Decision {
    if !ValidSnapshot(snapshot) then Reject(snapshot, StateMalformed)
    else if event.UnknownEvent? then Reject(snapshot, StateConflict)
    else
      match snapshot
      case None => if !event.PrepareEvent? then Reject(None, NoPending) else DecidePrepare(context)
      case Some(m) =>
        if event.PrepareEvent? then Reject(snapshot, StateConflict)
        else if context.releaseId != m.id then Reject(snapshot, IdentityMismatch)
        else if !EventAllowed(m.state, event) then Reject(snapshot, StateConflict)
        else if CheckArtifacts(m, context.observed).Some? then Reject(snapshot, CheckArtifacts(m, context.observed).value)
        else DecideActive(m, event, context)
  }

  function DecidePrepare(context: Context): Decision {
    match context.prepared
    case None => Reject(None, StateMalformed)
    case Some(m) =>
      if !m.state.Prepared? || (context.releaseId != "" && context.releaseId != m.id) then Reject(None, IdentityMismatch)
      else if !ValidManifest(m) then Reject(None, StateMalformed)
      else if CheckPrepare(m, context.observed).Some? then Reject(None, CheckPrepare(m, context.observed).value)
      else Perform(None, Some(m), PublishPrepared)
  }

  function DecideActive(m: Manifest, event: ReleaseEvent, context: Context): Decision {
    match m.state
    case Prepared => DecidePrepared(m, event, context.observed)
    case Pending => DecidePending(m, event, context.observed)
    case Accepting =>
      (match CheckAcceptance(m, context.observed)
       case Some(code) => Reject(Some(m), code)
       case None => Perform(Some(m), None, ClearTransaction))
    case RollingBack => DecideRollingBack(m, context.observed, context.rollbackReady)
    case Clear => Reject(Some(m), StateMalformed)
  }

  function DecidePrepared(m: Manifest, event: ReleaseEvent, o: Observed): Decision {
    if !event.ResumeEvent? && !event.ReadyEvent? && !event.RollbackEvent? then Reject(Some(m), StateConflict)
    else if CheckRuntime(m.binding, o).Some? then Reject(Some(m), RuntimeDrift)
    else if event.ReadyEvent? then
      if !o.installedPresent || o.installed != m.candidate then Reject(Some(m), InstalledMismatch)
      else if !o.runtimeReady then Reject(Some(m), RecoveryUnconfirmed)
      else Transition(m, Pending)
    else if !TargetAllowed(m, o) then Reject(Some(m), InstalledMismatch)
    else if event.ResumeEvent? then Perform(Some(m), Some(m), ResumeDeployment)
    else Transition(m, RollingBack)
  }

  function DecidePending(m: Manifest, event: ReleaseEvent, o: Observed): Decision {
    if !o.installedPresent || o.installed != m.candidate then Reject(Some(m), InstalledMismatch)
    else if event.AcceptEvent? then
      match CheckAcceptance(m, o)
      case Some(code) => Reject(Some(m), code)
      case None => Transition(m, Accepting)
    else if event.RollbackEvent? then
      if CheckRuntime(m.binding, o).Some? then Reject(Some(m), RuntimeDrift) else Transition(m, RollingBack)
    else Reject(Some(m), StateConflict)
  }

  function DecideRollingBack(m: Manifest, o: Observed, rollbackReady: bool): Decision {
    if CheckRuntime(m.binding, o).Some? then Reject(Some(m), RuntimeDrift)
    else if !TargetAllowed(m, o) then Reject(Some(m), InstalledMismatch)
    else if RecoveryConfirmed(m, o, rollbackReady) then Perform(Some(m), None, ClearTransaction)
    else Perform(Some(m), Some(m), ResumeRollback)
  }

  // ---- what a decision guarantees ---------------------------------------------------------------

  /** A decision either rejects and keeps everything, or asks for exactly one command. */
  lemma DecideRejectsOrActs(snapshot: Option<Manifest>, event: ReleaseEvent, context: Context)
    ensures var d := Decide(snapshot, event, context);
            && d.current == snapshot
            && (d.err.Some? <==> !d.applied) && (d.err.Some? <==> d.commands == [])
            && (d.err.Some? ==> d.next == snapshot) && (d.err.None? ==> |d.commands| == 1)
  {
    hide ValidManifest, CheckArtifacts, CheckRuntime, CheckAcceptance, CheckPrepare, TargetAllowed, RecoveryConfirmed;
  }

  /** What the target must hold for a command to be given, and what the slot becomes. */
  predicate Warranted(snapshot: Option<Manifest>, event: ReleaseEvent, target: Option<Fingerprint>, command: Command, next: Option<Manifest>) {
    match command
    case PublishPrepared => snapshot.None? && next.Some? && next.value.state.Prepared? && target == Original(next.value)
    case PersistState =>
      && snapshot.Some? && next.Some? && next.value == snapshot.value.(state := next.value.state)
      && (match (snapshot.value.state, event, next.value.state)
          case (Prepared, ReadyEvent, Pending) => target == Some(snapshot.value.candidate)
          case (Prepared, RollbackEvent, RollingBack) => target == Some(snapshot.value.candidate) || target == Original(snapshot.value)
          case (Pending, RollbackEvent, RollingBack) => target == Some(snapshot.value.candidate)
          case (Pending, AcceptEvent, Accepting) => target == Some(snapshot.value.candidate)
          case _ => false)
    case ResumeDeployment =>
      snapshot.Some? && snapshot.value.state.Prepared? && event.ResumeEvent? && next == snapshot
      && (target == Some(snapshot.value.candidate) || target == Original(snapshot.value))
    case ResumeRollback =>
      snapshot.Some? && snapshot.value.state.RollingBack? && event.RollbackEvent? && next == snapshot
      && (target == Some(snapshot.value.candidate) || target == Original(snapshot.value))
    case ClearTransaction =>
      snapshot.Some? && next.None?
      && ((snapshot.value.state.Accepting? && event.AcceptEvent? && target == Some(snapshot.value.candidate))
          || (snapshot.value.state.RollingBack? && event.RollbackEvent? && target == Original(snapshot.value)))
  }

  /** Every command is warranted by the observed target: the direction of a release never turns, only its state changes. */
  lemma DecideIsWarranted(snapshot: Option<Manifest>, event: ReleaseEvent, context: Context)
    requires Decide(snapshot, event, context).err.None?
    ensures var d := Decide(snapshot, event, context);
            |d.commands| == 1 && Warranted(snapshot, event, Installed(context.observed), d.commands[0], d.next)
  {
    hide ValidManifest;
  }

  lemma ValidAfterDecide(snapshot: Option<Manifest>, event: ReleaseEvent, context: Context)
    requires Decide(snapshot, event, context).err.None?
    ensures ValidSnapshot(snapshot) && ValidSnapshot(Decide(snapshot, event, context).next)
  {
    if snapshot.Some? {
      DecideIsWarranted(snapshot, event, context);
      forall state: State | !state.Clear? && ValidManifest(snapshot.value) ensures ValidManifest(snapshot.value.(state := state)) {
      }
    }
  }

  /** The slot is cleared exactly when the recorded direction has demonstrably been reached. */
  lemma DecideClears(m: Manifest, event: ReleaseEvent, context: Context)
    ensures var d := Decide(Some(m), event, context); var o := context.observed;
            (d.err.None? && d.next.None?) <==>
              (&& ValidManifest(m) && context.releaseId == m.id && CheckArtifacts(m, o).None? && CheckRuntime(m.binding, o).None?
               && ((m.state.Accepting? && event.AcceptEvent? && Installed(o) == Some(m.candidate) && o.runtimeReady && !o.supervisorUnloaded)
                   || (m.state.RollingBack? && event.RollbackEvent? && Installed(o) == Original(m)
                       && (if m.previousPresent then context.rollbackReady && o.runtimeReady else o.supervisorUnloaded))))
  {
  }

  /** What an observation must show for a rollback to go ahead. */
  predicate Matches(m: Manifest, o: Observed) {
    CheckArtifacts(m, o).None? && CheckRuntime(m.binding, o).None?
  }

  /** With matching fingerprints a rollback is never refused before acceptance, wherever the deployment stopped. */
  lemma RollbackProceeds(m: Manifest, context: Context)
    requires ValidManifest(m) && context.releaseId == m.id && Matches(m, context.observed)
    requires m.state.Prepared? || m.state.Pending? || m.state.RollingBack?
    requires Installed(context.observed) == Some(m.candidate) || (!m.state.Pending? && Installed(context.observed) == Original(m))
    ensures var d := Decide(Some(m), RollbackEvent, context);
            d.err.None? && if m.state.RollingBack? then d.commands[0] == (if RecoveryConfirmed(m, context.observed, context.rollbackReady)
                                                                            then ClearTransaction else ResumeRollback)
                           else d.commands[0].PersistState? && d.next == Some(m.(state := RollingBack))
  {
  }

  // ---- each event, decided exactly --------------------------------------------------------------

  /** The controller and the recorded artifacts are the ones the release was prepared from. */
  predicate SameArtifacts(m: Manifest, o: Observed) {
    o.controller == m.authority && o.authorityArtifact == m.authority && o.candidate == m.candidate && (m.previousPresent ==> o.previous == m.previous)
  }

  /** The supervision files are the recorded ones. */
  predicate SameRuntime(m: Manifest, o: Observed) {
    o.plist == m.binding.plist && o.wrapper == m.binding.wrapper && o.mcpWrapper == m.binding.mcpWrapper && o.environment == m.binding.environment
  }

  /** A request for this release, made by its controller with its artifacts in place. */
  predicate Addressed(m: Manifest, context: Context) {
    ValidManifest(m) && context.releaseId == m.id && SameArtifacts(m, context.observed)
  }

  /** Acceptance goes ahead exactly when the candidate is installed under the recorded supervision, ready, and not unloaded. */
  lemma AcceptDecided(m: Manifest, context: Context)
    ensures var d := Decide(Some(m), AcceptEvent, context); var o := context.observed;
            && (d.err.None? <==> Addressed(m, context) && (m.state.Pending? || m.state.Accepting?) && SameRuntime(m, o)
                                 && Installed(o) == Some(m.candidate) && o.runtimeReady && !o.supervisorUnloaded)
            && (d.err.None? && m.state.Pending? ==> d.commands == [PersistState] && d.next == Some(m.(state := Accepting)))
            && (d.err.None? && m.state.Accepting? ==> d.commands == [ClearTransaction] && d.next == None)
            && (Addressed(m, context) && (m.state.Pending? || m.state.Accepting?) ==>
                  && (SameRuntime(m, o) && Installed(o) != Some(m.candidate) ==> d.err == Some(InstalledMismatch))
                  && (!SameRuntime(m, o) && Installed(o) == Some(m.candidate) ==> d.err == Some(RuntimeDrift))
                  && (SameRuntime(m, o) && Installed(o) == Some(m.candidate) && d.err.Some? ==> d.err == Some(RecoveryUnconfirmed)))
  {
    hide ValidManifest;
  }

  /** A prepared release becomes pending exactly when its candidate is installed under the recorded supervision and ready. */
  lemma ReadyDecided(m: Manifest, context: Context)
    ensures var d := Decide(Some(m), ReadyEvent, context); var o := context.observed;
            && (d.err.None? <==> Addressed(m, context) && m.state.Prepared? && SameRuntime(m, o) && Installed(o) == Some(m.candidate) && o.runtimeReady)
            && (d.err.None? ==> d.commands == [PersistState] && d.next == Some(m.(state := Pending)))
            && (Addressed(m, context) && m.state.Prepared? ==>
                  && (!SameRuntime(m, o) ==> d.err == Some(RuntimeDrift))
                  && (SameRuntime(m, o) && Installed(o) != Some(m.candidate) ==> d.err == Some(InstalledMismatch))
                  && (SameRuntime(m, o) && Installed(o) == Some(m.candidate) && !o.runtimeReady ==> d.err == Some(RecoveryUnconfirmed)))
  {
    hide ValidManifest;
  }

  /** A deployment is resumed exactly while prepared, with the recorded supervision and the old or the new file installed. */
  lemma ResumeDecided(m: Manifest, context: Context)
    ensures var d := Decide(Some(m), ResumeEvent, context); var o := context.observed;
            && (d.err.None? <==> Addressed(m, context) && m.state.Prepared? && SameRuntime(m, o)
                                 && (Installed(o) == Some(m.candidate) || Installed(o) == Original(m)))
            && (d.err.None? ==> d.commands == [ResumeDeployment] && d.next == Some(m))
            && (Addressed(m, context) && m.state.Prepared? && d.err.Some? ==>
                  d.err == Some(if SameRuntime(m, o) then InstalledMismatch else RuntimeDrift))
  {
    hide ValidManifest;
  }

  /** Rolling back has been reached: the previous file is back and came up, or there was none and nothing is supervised. */
  predicate Restored(m: Manifest, context: Context) {
    && Installed(context.observed) == Original(m)
    && if m.previousPresent then context.rollbackReady && context.observed.runtimeReady else context.observed.supervisorUnloaded
  }

  /** A rollback goes ahead exactly before acceptance, with the recorded supervision and a file the release knows. */
  lemma RollbackDecided(m: Manifest, context: Context)
    ensures var d := Decide(Some(m), RollbackEvent, context); var o := context.observed;
            && (d.err.None? <==> Addressed(m, context) && SameRuntime(m, o)
                                 && ( || (Installed(o) == Some(m.candidate) && (m.state.Prepared? || m.state.Pending? || m.state.RollingBack?))
                                      || (Installed(o) == Original(m) && (m.state.Prepared? || m.state.RollingBack?))))
            && (d.err.None? && !m.state.RollingBack? ==> d.commands == [PersistState] && d.next == Some(m.(state := RollingBack)))
            && (d.err.None? && m.state.RollingBack? ==>
                  if Restored(m, context) then d.commands == [ClearTransaction] && d.next == None else d.commands == [ResumeRollback] && d.next == Some(m))
  {
    hide ValidManifest;
  }

  predicate Publishable(m: Manifest, context: Context) {
    && m.state.Prepared? && ValidManifest(m) && (context.releaseId == "" || context.releaseId == m.id)
    && SameArtifacts(m, context.observed) && SameRuntime(m, context.observed) && Installed(context.observed) == Original(m)
  }

  /** A release is published exactly into a clear slot, valid and freshly prepared, over what its manifest says is installed. */
  lemma PrepareDecided(context: Context)
    ensures var d := Decide(None, PrepareEvent, context);
            && (d.err.None? <==> context.prepared.Some? && Publishable(context.prepared.value, context))
            && (d.err.None? ==> d.commands == [PublishPrepared] && d.next == context.prepared)
  {
    hide ValidManifest;
  }

  /** Why a request is turned away before the observed files are looked at. */
  lemma RefusalsAreNamed(snapshot: Option<Manifest>, event: ReleaseEvent, context: Context)
    ensures var d := Decide(snapshot, event, context);
            && (snapshot.Some? && !ValidManifest(snapshot.value) ==> d.err == Some(StateMalformed))
            && (snapshot.None? && !event.PrepareEvent? && !event.UnknownEvent? ==> d.err == Some(NoPending))
            && (event.UnknownEvent? ==> d.err.Some?)
            && (snapshot.Some? && ValidManifest(snapshot.value) ==>
                  var m := snapshot.value;
                  && (event.PrepareEvent? || event.UnknownEvent? ==> d.err == Some(StateConflict))
                  && (!event.PrepareEvent? && !event.UnknownEvent? && context.releaseId != m.id ==> d.err == Some(IdentityMismatch))
                  && (!event.PrepareEvent? && !event.UnknownEvent? && context.releaseId == m.id && !Fits(m.state, event) ==> d.err == Some(StateConflict))
                  && (context.releaseId == m.id && Fits(m.state, event) && context.observed.controller != m.authority ==> d.err == Some(AuthorityMismatch))
                  && (context.releaseId == m.id && Fits(m.state, event) && context.observed.controller == m.authority && !SameArtifacts(m, context.observed) ==>
                        d.err == Some(ArtifactMismatch)))
  {
    hide ValidManifest;
  }

  /** The events of each state. */
  predicate Fits(state: State, event: ReleaseEvent) {
    || (event.AcceptEvent? && (state.Pending? || state.Accepting?))
    || (event.RollbackEvent? && (state.Prepared? || state.Pending? || state.RollingBack?))
    || ((event.ResumeEvent? || event.ReadyEvent?) && state.Prepared?)
  }

  // ---- service order ----------------------------------------------------------------------------

  function Servers(services: seq<Service>): seq<string> {
    if services == [] then [] else [services[0].server] + Servers(services[1..])
  }

  /** The canonical services from `low` up to `high` that belong to a chosen set, in canonical order. */
  function Picked(chosen: set<string>, low: nat, high: nat): seq<string>
    requires high <= |CANONICAL_SERVICES|
    decreases high - low
  {
    if low >= high then []
    else (if CANONICAL_SERVICES[low] in chosen then [CANONICAL_SERVICES[low]] else []) + Picked(chosen, low + 1, high)
  }

  lemma IndexInverts(server: string, index: nat)
    requires index < |CANONICAL_SERVICES|
    ensures ServiceIndex(server) == index <==> server == CANONICAL_SERVICES[index]
  {
    assert CANONICAL_SERVICES[0][0] == 'o' && CANONICAL_SERVICES[1][0] == 'y' && |CANONICAL_SERVICES[0]| == 8 && |CANONICAL_SERVICES[1]| == 4;
    assert |CANONICAL_SERVICES[2]| == 13 && |CANONICAL_SERVICES[3]| == 9;
  }

  function Chosen(services: seq<Service>): set<string> {
    set i | 0 <= i < |services| :: services[i].server
  }

  lemma {:induction false} IncreasingServers(services: seq<Service>, cursor: int, maxIndex: int, i: nat)
    requires Increasing(services, cursor, maxIndex) && i < |services|
    ensures cursor < ServiceIndex(services[i].server) <= maxIndex
  {
    if i > 0 {
      IncreasingServers(services[1..], ServiceIndex(services[0].server), maxIndex, i - 1);
    }
  }

  /** Leaving out what is not chosen, picking starts at the first chosen service. */
  lemma {:induction false} PickedSkips(chosen: set<string>, low: nat, first: nat, high: nat)
    requires low <= first <= high <= |CANONICAL_SERVICES|
    requires forall i :: low <= i < first ==> CANONICAL_SERVICES[i] !in chosen
    ensures Picked(chosen, low, high) == Picked(chosen, first, high)
    decreases first - low
  {
    if low < first {
      PickedSkips(chosen, low + 1, first, high);
    }
  }

  lemma {:induction false} PickedAgrees(a: set<string>, b: set<string>, low: nat, high: nat)
    requires high <= |CANONICAL_SERVICES|
    requires forall i :: low <= i < high ==> (CANONICAL_SERVICES[i] in a <==> CANONICAL_SERVICES[i] in b)
    ensures Picked(a, low, high) == Picked(b, low, high)
    decreases high - low
  {
    if low < high {
      PickedAgrees(a, b, low + 1, high);
    }
  }

  lemma {:induction false} PickedIndices(chosen: set<string>, low: nat, high: nat, i: nat)
    requires high <= |CANONICAL_SERVICES| && i < |Picked(chosen, low, high)|
    ensures low <= ServiceIndex(Picked(chosen, low, high)[i]) < high && Picked(chosen, low, high)[i] in chosen
    decreases high - low
  {
    if low < high {
      IndexInverts(CANONICAL_SERVICES[low], low);
      var here := if CANONICAL_SERVICES[low] in chosen then 1 else 0;
      if i >= here {
        PickedIndices(chosen, low + 1, high, i - here);
      }
    }
  }

  lemma NoneBefore(services: seq<Service>, cursor: int, maxIndex: int)
    requires -1 <= cursor && maxIndex < |CANONICAL_SERVICES| && services != [] && Increasing(services, cursor, maxIndex)
    ensures forall i :: cursor + 1 <= i < ServiceIndex(services[0].server) ==> CANONICAL_SERVICES[i] !in Chosen(services)
  {
    var index := ServiceIndex(services[0].server);
    forall i | cursor + 1 <= i < index ensures CANONICAL_SERVICES[i] !in Chosen(services) {
      if j :| 0 <= j < |services| && services[j].server == CANONICAL_SERVICES[i] {
        IndexInverts(services[j].server, i);
        hide ServiceIndex;
        if j > 0 {
          IncreasingServers(services[1..], index, maxIndex, j - 1);
        }
      }
    }
  }

  lemma BehindFirst(services: seq<Service>, i: nat)
    requires services != [] && ServiceIndex(services[0].server) < i < |CANONICAL_SERVICES|
    ensures CANONICAL_SERVICES[i] in Chosen(services) <==> CANONICAL_SERVICES[i] in Chosen(services[1..])
  {
    IndexInverts(services[0].server, i);
    hide ServiceIndex;
    if j :| 0 <= j < |services| && services[j].server == CANONICAL_SERVICES[i] {
      assert services[1..][j - 1].server == CANONICAL_SERVICES[i];
    }
    if j :| 0 <= j < |services[1..]| && services[1..][j].server == CANONICAL_SERVICES[i] {
      assert services[j + 1].server == CANONICAL_SERVICES[i];
    }
  }

  /** An accepted order is the canonical order restricted to the chosen services, with nothing repeated. */
  lemma {:induction false} IncreasingIsPicked(services: seq<Service>, cursor: int, maxIndex: int)
    requires -1 <= cursor && maxIndex < |CANONICAL_SERVICES| && Increasing(services, cursor, maxIndex) && cursor <= maxIndex
    ensures Servers(services) == Picked(Chosen(services), cursor + 1, maxIndex + 1)
  {
    var chosen := Chosen(services);
    if services == [] {
      PickedSkips(chosen, cursor + 1, maxIndex + 1, maxIndex + 1);
    } else {
      var index := ServiceIndex(services[0].server);
      IndexInverts(services[0].server, index);
      hide ServiceIndex;
      NoneBefore(services, cursor, maxIndex);
      PickedSkips(chosen, cursor + 1, index, maxIndex + 1);
      assert services[0].server in chosen;
      IncreasingIsPicked(services[1..], index, maxIndex);
      forall i | index + 1 <= i < maxIndex + 1 ensures CANONICAL_SERVICES[i] in chosen <==> CANONICAL_SERVICES[i] in Chosen(services[1..]) {
        BehindFirst(services, i);
      }
      hide Chosen;
      PickedAgrees(chosen, Chosen(services[1..]), index + 1, maxIndex + 1);
    }
  }

  lemma {:induction false} PickedIsIncreasing(services: seq<Service>, chosen: set<string>, cursor: int, maxIndex: int)
    requires -1 <= cursor <= maxIndex < |CANONICAL_SERVICES| && Servers(services) == Picked(chosen, cursor + 1, maxIndex + 1)
    ensures Increasing(services, cursor, maxIndex)
    decreases maxIndex - cursor
  {
    if services != [] {
      var low, high := cursor + 1, maxIndex + 1;
      if low < high {
        IndexInverts(CANONICAL_SERVICES[low], low);
        if CANONICAL_SERVICES[low] in chosen {
          assert Servers(services)[1..] == Picked(chosen, low, high)[1..];
          PickedIsIncreasing(services[1..], chosen, low, maxIndex);
        } else {
          PickedIsIncreasing(services, chosen, low, maxIndex);
          PickedIndices(chosen, low + 1, high, 0);
        }
      }
    }
  }

  /** Services are accepted exactly when they are the canonical order restricted to a set that has the required first one. */
  lemma ServiceOrderIsCanonical(services: seq<Service>, maxIndex: int)
    requires 0 <= maxIndex < |CANONICAL_SERVICES|
    ensures ValidServiceOrder(services, maxIndex) <==>
            CANONICAL_SERVICES[0] in Chosen(services) && Servers(services) == Picked(Chosen(services), 0, maxIndex + 1)
  {
    if ValidServiceOrder(services, maxIndex) {
      IncreasingIsPicked(services, -1, maxIndex);
    }
    if CANONICAL_SERVICES[0] in Chosen(services) && Servers(services) == Picked(Chosen(services), 0, maxIndex + 1) {
      PickedIsIncreasing(services, Chosen(services), -1, maxIndex);
      assert Servers(services)[0] == CANONICAL_SERVICES[0];
    }
  }
}
