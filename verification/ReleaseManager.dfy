/**
 * The lifecycle interpreter: it observes, decides, persists and drives host effects, any of which may fail or kill
 * the process. Every change it makes to the slot or to the target is one step of a small durable protocol.
 */
module ReleaseManager {
  import opened Ordering
  import opened ReleaseModel
  import opened ReleaseStore

  // ---- the durable protocol ---------------------------------------------------------------------

  /** What survives a crash: the slot and what is installed at the target path. */
  datatype Durable = Durable(slot: Slot, target: Option<Fingerprint>)

  function Holding(m: Manifest, target: Option<Fingerprint>): Durable {
    Durable(Slot(Some(m)), target)
  }

  /** The first recorded service is the one the manifest itself describes, as Prepare records it. */
  predicate HeadsAgree(m: Manifest) {
    m.services != [] ==> m.services[0].binding == m.binding
  }

  /** One durable change at a time, each warranted by what is on disk. */
  ghost predicate LegalStep(a: Durable, b: Durable) {
    || a == b
    || (exists m :: Prepares(a, b, m))
    || (exists m :: Moves(a, b, m))
  }

  ghost predicate Prepares(a: Durable, b: Durable, m: Manifest) {
    a.slot == Slot(None) && b == Holding(m, a.target) && m.state.Prepared? && a.target == Original(m) && HeadsAgree(m)
  }

  ghost predicate Moves(a: Durable, b: Durable, m: Manifest) {
    a.slot == Slot(Some(m)) &&
    ( || (b == Holding(m, Some(m.candidate)) && m.state.Prepared?)
      || (b == Holding(m, Original(m)) && m.state.RollingBack?)
      || (b == Holding(m.(state := Pending), a.target) && m.state.Prepared? && a.target == Some(m.candidate))
      || (b == Holding(m.(state := RollingBack), a.target) && (m.state.Prepared? || m.state.Pending?))
      || (b == Holding(m.(state := Accepting), a.target) && m.state.Pending? && a.target == Some(m.candidate))
      || (b == Durable(Slot(None), a.target) && m.state.Accepting? && a.target == Some(m.candidate))
      || (b == Durable(Slot(None), a.target) && m.state.RollingBack? && a.target == Original(m)))
  }

  ghost predicate LegalHistory(h: seq<Durable>) {
    |h| > 0 && forall i :: 0 <= i < |h| - 1 ==> LegalStep(h[i], h[i + 1])
  }

  // ---- the host ---------------------------------------------------------------------------------

  datatype Status = Fine | Error(code: ErrorCode) | Crashed

  function StatusOf(o: Outcome): Status {
    if o.Done? then Fine else if Dead(o) then Crashed else Error(HostEffectFailed)
  }

  function StatusOfStore(r: StoreResult): Status {
    match r
    case Stored => Fine
    case Refused(code) => Error(code)
    case Broke => Error(HostEffectFailed)
    case Killed => Crashed
  }

  class Host {
    const script: nat -> Outcome
    /** What observation n reports apart from the target, when it is not the recorded state. */
    const noise: nat -> Option<Observed>
    var clock: nat
    var target: Option<Fingerprint>
    var running: set<string>
    var stopped: set<string>

    constructor (script: nat -> Outcome, noise: nat -> Option<Observed>, target: Option<Fingerprint>)
      ensures this.script == script && this.noise == noise && this.target == target && clock == 0
    {
      this.script, this.noise, this.target := script, noise, target;
      clock, running, stopped := 0, {}, {};
    }

    /** From here on every effect succeeds and every observation matches what the manifest recorded. */
    ghost predicate Quiet()
      reads this
    {
      forall n :: n >= clock ==> script(n) == Done && noise(n).None?
    }

    function Truth(m: Manifest, controller: Fingerprint): Observed
      reads this
    {
      Observed(m.candidate, m.authority, controller, m.previous, target.Some?, if target.Some? then target.value else "",
               m.binding.plist, m.binding.wrapper, m.binding.mcpWrapper, m.binding.environment,
               m.binding.agent in running, m.binding.agent in stopped)
    }

    /** Nothing but this host changes the target, so every successful observation reports it as it is. */
    method Observe(m: Manifest, controller: Fingerprint) returns (s: Status, o: Observed)
      modifies this`clock
      ensures clock > old(clock)
      ensures s.Fine? ==> Installed(o) == target
      ensures old(Quiet()) ==> Quiet() && s.Fine? && o == Truth(m, controller) && CheckRuntime(m.binding, o).None?
    {
      var outcome := script(clock);
      var seen := noise(clock);
      clock := clock + 1;
      s, o := StatusOf(outcome), Truth(m, controller);
      if seen.Some? {
        o := seen.value.(installedPresent := o.installedPresent, installed := o.installed);
      }
    }

    method Effect() returns (o: Outcome)
      modifies this`clock
      ensures o == script(old(clock)) && clock == old(clock) + 1
    {
      o := script(clock);
      clock := clock + 1;
    }

    method InstallCandidate(m: Manifest) returns (s: Status)
      modifies this`clock, this`target
      ensures target == old(target) || target == Some(m.candidate)
      ensures s.Fine? ==> target == Some(m.candidate)
      ensures old(Quiet()) ==> Quiet() && s.Fine?
    {
      var o := Effect();
      if Happens(o) {
        target := Some(m.candidate);
      }
      s := StatusOf(o);
    }

    method RestorePrevious(m: Manifest) returns (s: Status)
      modifies this`clock, this`target
      ensures target == old(target) || (m.previousPresent && target == Original(m))
      ensures s.Fine? ==> m.previousPresent && target == Original(m)
      ensures old(Quiet()) ==> Quiet() && (m.previousPresent ==> s.Fine?)
    {
      if !m.previousPresent {
        return Error(HostEffectFailed);
      }
      var o := Effect();
      if Happens(o) {
        target := Some(m.previous);
      }
      s := StatusOf(o);
    }

    method RemoveTarget() returns (s: Status)
      modifies this`clock, this`target
      ensures target == old(target) || target == None
      ensures s.Fine? ==> target == None
      ensures old(Quiet()) ==> Quiet() && s.Fine?
    {
      var o := Effect();
      if Happens(o) {
        target := None;
      }
      s := StatusOf(o);
    }

    method Restart(service: Manifest) returns (s: Status)
      modifies this`clock, this`running, this`stopped
      ensures running == old(running) - {service.binding.agent}
      ensures old(Quiet()) ==> Quiet() && s.Fine?
    {
      var o := Effect();
      running, stopped := running - {service.binding.agent}, stopped - {service.binding.agent};
      s := StatusOf(o);
    }

    method WaitReady(service: Manifest) returns (s: Status)
      modifies this`clock, this`running
      ensures running == old(running) || running == old(running) + {service.binding.agent}
      ensures s.Fine? ==> service.binding.agent in running
      ensures old(Quiet()) ==> Quiet() && s.Fine?
    {
      var o := Effect();
      if Happens(o) {
        running := running + {service.binding.agent};
      }
      s := StatusOf(o);
    }

    method Bootout(service: Manifest) returns (s: Status)
      modifies this`clock, this`running, this`stopped
      ensures stopped == old(stopped) || stopped == old(stopped) + {service.binding.agent}
      ensures s.Fine? ==> service.binding.agent in stopped
      ensures old(Quiet()) ==> Quiet() && s.Fine?
    {
      var o := Effect();
      if Happens(o) {
        running, stopped := running - {service.binding.agent}, stopped + {service.binding.agent};
      }
      s := StatusOf(o);
    }

    method ConfirmUnloaded(service: Manifest) returns (s: Status, unloaded: bool)
      modifies this`clock
      ensures old(Quiet()) ==> Quiet() && s.Fine? && unloaded == (service.binding.agent in stopped)
    {
      var o := Effect();
      s, unloaded := StatusOf(o), service.binding.agent in stopped;
    }
  }

  // ---- the services of a release ----------------------------------------------------------------

  function ServiceManifests(m: Manifest): (services: seq<Manifest>)
    ensures |services| > 0
  {
    if m.services == [] then [m] else Bound(m, m.services)
  }

  function Bound(m: Manifest, services: seq<Service>): (bound: seq<Manifest>)
    ensures |bound| == |services|
    ensures forall i :: 0 <= i < |services| ==> bound[i] == m.(binding := services[i].binding)
  {
    if services == [] then [] else [m.(binding := services[0].binding)] + Bound(m, services[1..])
  }

  /** What Prepare is asked for, with the contents and fingerprints it finds behind the paths. */
  datatype Request = Request(commit: string, candidate: Fingerprint, authority: Fingerprint, dependency: Fingerprint,
                             candidateContent: Option<Fingerprint>, authorityContent: Option<Fingerprint>, targetPath: string,
                             effectiveUid: int, binding: Binding, readyTimeout: int, readyPoll: int, captured: seq<Service>)

  function Draft(request: Request, id: string, target: Option<Fingerprint>): Manifest {
    Manifest(MANIFEST_VERSION, State.Prepared, id, request.commit, request.dependency, CANDIDATE_FILE, request.candidate, AUTHORITY_FILE,
             request.authority, target.Some?, if target.Some? then PREVIOUS_FILE else "", if target.Some? then target.value else "",
             request.targetPath, request.effectiveUid, request.binding, request.readyTimeout, request.readyPoll,
             [Service("obsidian", request.binding)] + request.captured)
  }

  class Manager {
    const store: Store
    const host: Host
    const controller: Fingerprint
    ghost var history: seq<Durable>

    constructor (store: Store, host: Host, controller: Fingerprint)
      ensures this.store == store && this.host == host && this.controller == controller
      ensures history == [Durable(store.Load(), host.target)]
    {
      this.store, this.host, this.controller := store, host, controller;
      history := [Durable(store.Load(), host.target)];
    }

    ghost function Now(): Durable
      reads store, host
    {
      Durable(store.Load(), host.target)
    }

    /** Everything so far was legal and is recorded. */
    ghost predicate Valid()
      reads this, store, host
    {
      LegalHistory(history) && history[|history| - 1] == Now()
    }

    ghost predicate Quiet()
      reads this, store, host
    {
      store.Quiet() && host.Quiet()
    }

    /** Records the durable state after one call into the store or the host. */
    ghost method Note()
      requires LegalHistory(history) && LegalStep(history[|history| - 1], Now())
      modifies this`history
      ensures Valid() && history == old(history) + [Now()]
    {
      history := history + [Now()];
    }

    /** The release's own service and the next ones up to the n-th are ready. */
    ghost predicate ReadyTo(m: Manifest, n: nat)
      reads host
    {
      m.binding.agent in host.running && forall i :: 1 <= i < n && i < |m.services| ==> m.services[i].binding.agent in host.running
    }

    ghost predicate StoppedTo(m: Manifest, n: nat)
      reads host
    {
      m.binding.agent in host.stopped && forall i :: 1 <= i < n && i < |m.services| ==> m.services[i].binding.agent in host.stopped
    }

    ghost predicate AllReady(m: Manifest)
      reads host
    {
      ReadyTo(m, |m.services|)
    }

    ghost predicate AllStopped(m: Manifest)
      reads host
    {
      StoppedTo(m, |m.services|)
    }

    /** The observation shows the recorded state, and readiness of all services together. */
    ghost predicate Reports(m: Manifest, o: Observed)
      reads this, host
    {
      && o.candidate == m.candidate && o.authorityArtifact == m.authority && o.previous == m.previous && o.controller == controller
      && CheckRuntime(m.binding, o).None? && o.runtimeReady == AllReady(m) && o.supervisorUnloaded == AllStopped(m)
    }

    /** Observes the release and, beyond the first, each of its services. */
    method Observe(m: Manifest) returns (s: Status, o: Observed)
      modifies host`clock
      ensures s.Fine? ==> Installed(o) == host.target
      ensures old(host.Quiet()) ==> host.Quiet() && s.Fine? && Reports(m, o)
    {
      s, o := host.Observe(m, controller);
      if !s.Fine? || |m.services| < 2 {
        return;
      }
      var ready, unloaded;
      s, ready, unloaded := ObserveServices(m, o.runtimeReady, o.supervisorUnloaded);
      o := o.(runtimeReady := ready, supervisorUnloaded := unloaded);
    }

    /** Readiness of the first service joined with that of the others. */
    method ObserveServices(m: Manifest, firstReady: bool, firstUnloaded: bool) returns (s: Status, ready: bool, unloaded: bool)
      requires |m.services| >= 2
      modifies host`clock
      ensures old(host.Quiet()) ==> host.Quiet() && s.Fine?
      ensures old(host.Quiet()) && firstReady == ReadyTo(m, 1) && firstUnloaded == StoppedTo(m, 1) ==> ready == AllReady(m) && unloaded == AllStopped(m)
    {
      var services := ServiceManifests(m);
      s, ready, unloaded := Fine, firstReady, firstUnloaded;
      var i := 1;
      while i < |services|
        invariant 1 <= i <= |services| && s.Fine?
        invariant old(host.Quiet()) ==> host.Quiet()
        invariant old(host.Quiet()) && firstReady == ReadyTo(m, 1) && firstUnloaded == StoppedTo(m, 1) ==>
                    ready == ReadyTo(m, i) && unloaded == StoppedTo(m, i)
      {
        var up, out;
        s, up, out := ObserveService(services[i]);
        if !s.Fine? {
          return;
        }
        ready, unloaded := ready && up, unloaded && out;
        i := i + 1;
      }
    }

    method ObserveService(service: Manifest) returns (s: Status, ready: bool, unloaded: bool)
      modifies host`clock
      ensures old(host.Quiet()) ==> host.Quiet() && s.Fine?
      ensures old(host.Quiet()) ==> ready == (service.binding.agent in host.running) && unloaded == (service.binding.agent in host.stopped)
    {
      var seen;
      s, seen := host.Observe(service, controller);
      ready, unloaded := seen.runtimeReady, seen.supervisorUnloaded;
      if s.Fine? && CheckRuntime(service.binding, seen).Some? {
        s := Error(RuntimeDrift);
      }
    }

    method RestartAll(m: Manifest) returns (s: Status)
      modifies host`clock, host`running, host`stopped
      ensures old(host.Quiet()) ==> host.Quiet() && s.Fine?
      ensures s.Fine? && HeadsAgree(m) ==> AllReady(m)
    {
      var services := ServiceManifests(m);
      s := Fine;
      var i := 0;
      while i < |services|
        invariant 0 <= i <= |services| && s.Fine?
        invariant old(host.Quiet()) ==> host.Quiet()
        invariant forall j :: 0 <= j < i ==> services[j].binding.agent in host.running
      {
        s := host.Restart(services[i]);
        if !s.Fine? {
          return;
        }
        s := host.WaitReady(services[i]);
        if !s.Fine? {
          return;
        }
        i := i + 1;
      }
      assert services[0].binding == m.binding || !HeadsAgree(m);
    }

    method StopAll(m: Manifest) returns (s: Status)
      modifies host`clock, host`running, host`stopped
      ensures old(host.Quiet()) ==> host.Quiet() && s.Fine?
      ensures s.Fine? && HeadsAgree(m) ==> AllStopped(m)
    {
      var services := ServiceManifests(m);
      s := Fine;
      var i := 0;
      while i < |services|
        invariant 0 <= i <= |services| && s.Fine?
        invariant old(host.Quiet()) ==> host.Quiet()
        invariant forall j :: 0 <= j < i ==> services[j].binding.agent in host.stopped
      {
        s := host.Bootout(services[i]);
        if !s.Fine? {
          return;
        }
        var unloaded;
        s, unloaded := host.ConfirmUnloaded(services[i]);
        if s.Crashed? {
          return;
        }
        if !s.Fine? || !unloaded {
          return Error(RecoveryUnconfirmed);
        }
        i := i + 1;
      }
      assert services[0].binding == m.binding || !HeadsAgree(m);
    }

    /** Rewrites the recorded state; the slot then holds the old state or the new one. */
    method Persist(m: Manifest, state: State) returns (s: Status)
      requires Valid() && Now().slot == Slot(Some(m)) && Moves(Now(), Holding(m.(state := state), host.target), m)
      modifies this`history, store
      ensures Valid() && old(history) <= history
      ensures s.Fine? ==> Now().slot == Slot(Some(m.(state := state)))
      ensures s != Error(RolledBack)
      ensures old(store.Quiet()) ==> store.Quiet() && (!state.Clear? ==> s.Fine?)
    {
      ghost var before := Now();
      var r := store.Rewrite(m.(state := state));
      s := StatusOfStore(r);
      assert LegalStep(before, Now());
      Note();
    }

    method ClearSlot(m: Manifest) returns (s: Status)
      requires Valid() && Now().slot == Slot(Some(m)) && Moves(Now(), Durable(Slot(None), host.target), m)
      modifies this`history, store
      ensures Valid() && old(history) <= history
      ensures s.Fine? ==> Now().slot == Slot(None)
      ensures old(store.Quiet()) ==> store.Quiet() && s.Fine?
    {
      ghost var before := Now();
      var r := store.Clear(m.id);
      s := StatusOfStore(r);
      assert LegalStep(before, Now());
      Note();
    }

    /** Puts the target back as it was; `ready` is the receipt that the previous runtime came up. */
    method ResumeRollback(m: Manifest, o: Observed) returns (s: Status, ready: bool)
      requires Valid() && Now().slot == Slot(Some(m)) && m.state.RollingBack? && Installed(o) == host.target
      modifies this`history, host
      ensures Valid() && old(history) <= history && Now().slot == Slot(Some(m))
      ensures s.Fine? ==> ready == m.previousPresent
      ensures old(host.Quiet()) && HeadsAgree(m) ==>
                host.Quiet() && s.Fine? && host.target == Original(m) && (if m.previousPresent then AllReady(m) else AllStopped(m))
    {
      ready := false;
      if m.previousPresent {
        if !o.installedPresent || o.installed != m.previous {
          ghost var before := Now();
          s := host.RestorePrevious(m);
          assert Now() == before || Moves(before, Now(), m);
          Note();
          if !s.Fine? {
            return;
          }
        }
        s := RestartAll(m);
        ready := s.Fine?;
        return;
      }
      s := StopAll(m);
      if s.Fine? && o.installedPresent {
        ghost var before := Now();
        s := host.RemoveTarget();
        assert Now() == before || Moves(before, Now(), m);
        Note();
      }
    }

    /** Carries a rollback that is already recorded to its end. */
    method FinishRollback(m: Manifest, seen: Observed) returns (s: Status)
      requires Valid() && Now().slot == Slot(Some(m)) && m.state.RollingBack? && Installed(seen) == host.target
      modifies this`history, host, store
      ensures Valid() && old(history) <= history
      ensures s.Fine? ==> Now() == Durable(Slot(None), Original(m))
      ensures old(Quiet()) && HeadsAgree(m) && old(ValidManifest(m) && m.authority == controller && Matches(m, seen) && TargetKnown(m)) ==> Quiet() && s.Fine?
    {
      hide LegalHistory, LoadRoot, ValidManifest, LegalStep;
      var d := Decide(Some(m), RollbackEvent, Context(m.id, None, seen, false));
      if d.err.Some? {
        return Error(RecoveryUnconfirmed);
      }
      DecideIsWarranted(Some(m), RollbackEvent, Context(m.id, None, seen, false));
      if d.commands[0].ClearTransaction? {
        s := ClearSlot(m);
        return;
      }
      var ready;
      s, ready := ResumeRollback(m, seen);
      if !s.Fine? {
        return if s.Crashed? then s else Error(RecoveryUnconfirmed);
      }
      var again;
      s, again := Observe(m);
      if !s.Fine? {
        return if s.Crashed? then s else Error(RecoveryUnconfirmed);
      }
      d := Decide(Some(m), RollbackEvent, Context(m.id, None, again, ready));
      if d.err.Some? || !d.commands[0].ClearTransaction? {
        return Error(RecoveryUnconfirmed);
      }
      DecideIsWarranted(Some(m), RollbackEvent, Context(m.id, None, again, ready));
      s := ClearSlot(m);
    }

    /** The target is one of the two the release knows; once pending, it is the candidate. */
    ghost predicate TargetKnown(m: Manifest)
      reads host
    {
      host.target == Some(m.candidate) || (host.target == Original(m) && !m.state.Pending? && !m.state.Accepting?)
    }

    method FinishAccept(m: Manifest, id: string) returns (s: Status)
      requires Valid() && Now().slot == Slot(Some(m)) && m.state.Accepting?
      modifies this`history, host, store
      ensures Valid() && old(history) <= history
      ensures s.Fine? ==> Now() == Durable(Slot(None), Some(m.candidate))
      ensures old(Quiet() && ValidManifest(m) && id == m.id && m.authority == controller && host.target == Some(m.candidate) && Serving(m)) ==>
                Quiet() && s.Fine?
    {
      var again;
      s, again := Observe(m);
      if !s.Fine? {
        return;
      }
      var d := Decide(Some(m), AcceptEvent, Context(id, None, again, false));
      if d.err.Some? {
        return Error(d.err.value);
      }
      DecideIsWarranted(Some(m), AcceptEvent, Context(id, None, again, false));
      if !d.commands[0].ClearTransaction? {
        return Error(RecoveryUnconfirmed);
      }
      s := ClearSlot(m);
    }

    ghost predicate Serving(m: Manifest)
      reads host
    {
      AllReady(m) && !AllStopped(m)
    }

    /** Turns a failed deployment into a rollback and carries it out; never reports success. */
    method RollbackDeploymentFailure(m: Manifest) returns (s: Status)
      requires Valid() && Now().slot == Slot(Some(m)) && m.state.Prepared?
      modifies this`history, host, store
      ensures Valid() && old(history) <= history && !s.Fine?
      ensures s == Error(RolledBack) ==> Now() == Durable(Slot(None), Original(m))
    {
      var seen;
      s, seen := Observe(m);
      if !s.Fine? {
        return if s.Crashed? then s else Error(RecoveryUnconfirmed);
      }
      var d := Decide(Some(m), RollbackEvent, Context(m.id, None, seen, false));
      if d.err.Some? {
        return Error(RecoveryUnconfirmed);
      }
      DecideIsWarranted(Some(m), RollbackEvent, Context(m.id, None, seen, false));
      s := Persist(m, RollingBack);
      if !s.Fine? {
        return;
      }
      s := FinishRollback(m.(state := RollingBack), seen);
      if s.Crashed? {
        return;
      }
      s := if s.Fine? then Error(RolledBack) else Error(RecoveryUnconfirmed);
    }

    /** Installs the candidate unless it is installed, and restarts every service; a failure turns into a rollback. */
    method ResumeDeployment(m: Manifest, seen: Observed) returns (s: Status)
      requires Valid() && Now().slot == Slot(Some(m)) && m.state.Prepared? && Installed(seen) == host.target
      modifies this`history, host, store
      ensures Valid() && old(history) <= history
      ensures s.Fine? ==> Now() == Holding(m, Some(m.candidate))
      ensures s == Error(RolledBack) ==> Now() == Durable(Slot(None), Original(m))
      ensures s.Fine? && HeadsAgree(m) ==> AllReady(m)
      ensures old(Quiet()) ==> s.Fine? && Quiet()
    {
      if !seen.installedPresent || seen.installed != m.candidate {
        ghost var before := Now();
        s := host.InstallCandidate(m);
        assert Now() == before || Moves(before, Now(), m);
        Note();
        if s.Crashed? {
          return;
        }
        if !s.Fine? {
          s := RollbackDeploymentFailure(m);
          return;
        }
        var again;
        s, again := Observe(m);
        if s.Crashed? {
          return;
        }
        if !s.Fine? || !again.installedPresent || again.installed != m.candidate {
          s := RollbackDeploymentFailure(m);
          return;
        }
      }
      s := RestartAll(m);
      if !s.Fine? && !s.Crashed? {
        s := RollbackDeploymentFailure(m);
      }
    }

    /** What a run that reports success has achieved. */
    ghost predicate Achieved(event: ReleaseEvent, m: Manifest)
      reads store, host
    {
      match event
      case ResumeEvent => Now() == Holding(m.(state := Pending), Some(m.candidate))
      case AcceptEvent => Now() == Durable(Slot(None), Some(m.candidate))
      case RollbackEvent => Now() == Durable(Slot(None), Original(m))
      case _ => false
    }

    ghost function Held(): Option<Manifest>
      reads store
    {
      if store.Load().Slot? then store.Load().manifest else None
    }

    /** The request names the release in the slot, comes from its controller, and suits its state. */
    ghost predicate Due(event: ReleaseEvent, id: string)
      reads this, store, host
    {
      Held().Some? &&
      var m := Held().value;
      && m.authority == controller && id == m.id && HeadsAgree(m) && TargetKnown(m)
      && match event
         case ResumeEvent => m.state.Prepared?
         case AcceptEvent => (m.state.Pending? || m.state.Accepting?) && Serving(m)
         case RollbackEvent => m.state.Prepared? || m.state.Pending? || m.state.RollingBack?
         case _ => false
    }

    /** A pending release that is not serving. */
    ghost predicate Unready()
      reads store, host
    {
      Held().Some? && Held().value.state.Pending? && !Serving(Held().value)
    }

    /** One request against the release in the slot. */
    method Run(event: ReleaseEvent, requested: string, allowCurrentId: bool) returns (s: Status)
      requires Valid()
      modifies this`history, host, store
      ensures Valid() && old(history) <= history
      ensures s.Fine? ==> old(Held()).Some? && Achieved(event, old(Held()).value)
      ensures event.ResumeEvent? && s == Error(RolledBack) ==>
                old(Held()).Some? && Now() == Durable(Slot(None), Original(old(Held()).value))
      ensures old(Quiet() && Due(event, requested)) ==> s.Fine?
      ensures event.AcceptEvent? && old(Quiet() && Unready()) ==> !s.Fine? && Now() == old(Now())
    {
      hide LegalHistory, LoadRoot, CheckRuntime;
      var slot := store.Load();
      if slot.Malformed? {
        return Error(StateMalformed);
      }
      if slot.manifest.None? {
        return Error(NoPending);
      }
      var m := slot.manifest.value;
      var o := host.Effect();
      if Dead(o) {
        return Crashed;
      }
      if controller != m.authority || !o.Done? {
        return Error(AuthorityMismatch);
      }
      var id := if allowCurrentId && requested == "" && event.ResumeEvent? && m.state.Prepared? then m.id else requested;
      if !EventAllowed(m.state, event) || event.ReadyEvent? || event.PrepareEvent? {
        return Error(StateConflict);
      }
      if id != m.id {
        return Error(IdentityMismatch);
      }
      var r := store.CleanupOrphans();
      if !r.Stored? {
        return if r.Killed? then Crashed else Error(HostEffectFailed);
      }
      var seen;
      s, seen := Observe(m);
      if !s.Fine? {
        return if s == Error(RolledBack) then Error(HostEffectFailed) else s;
      }
      s := Interpret(event, m, seen);
    }

    /** Carries out the one command the decision gives. */
    method Interpret(event: ReleaseEvent, m: Manifest, seen: Observed) returns (s: Status)
      requires Valid() && Now().slot == Slot(Some(m)) && Installed(seen) == host.target
      requires event.ResumeEvent? || event.AcceptEvent? || event.RollbackEvent?
      modifies this`history, host, store
      ensures Valid() && old(history) <= history
      ensures s.Fine? ==> Achieved(event, m)
      ensures event.ResumeEvent? && s == Error(RolledBack) ==> Now() == Durable(Slot(None), Original(m))
      ensures old(Quiet() && Due(event, m.id) && Reports(m, seen)) ==> s.Fine?
      ensures event.AcceptEvent? && m.state.Pending? && old(!Serving(m) && Reports(m, seen)) ==> !s.Fine? && Now() == old(Now())
    {
      hide LegalHistory, LegalStep, DecidePrepare, CheckPrepare, ValidBinding, ValidServices;
      if event.AcceptEvent? {
        AcceptDecided(m, Context(m.id, None, seen, false));
      }
      var d := Decide(Some(m), event, Context(m.id, None, seen, false));
      if d.err.Some? {
        return Error(d.err.value);
      }
      DecideIsWarranted(Some(m), event, Context(m.id, None, seen, false));
      match d.commands[0] {
        case ResumeDeployment => s := Deploy(m, seen);
        case PersistState =>
          var next := d.next.value;
          s := Persist(m, next.state);
          if s.Fine? {
            if next.state.RollingBack? {
              s := FinishRollback(next, seen);
            } else {
              s := FinishAccept(next, m.id);
            }
          }
        case ResumeRollback => s := FinishRollback(m, seen);
        case ClearTransaction => s := ClearSlot(m);
      }
    }

    /** Deploys the candidate and, once it is installed and ready, records the release as pending. */
    method Deploy(m: Manifest, seen: Observed) returns (s: Status)
      requires Valid() && Now().slot == Slot(Some(m)) && m.state.Prepared? && Installed(seen) == host.target
      modifies this`history, host, store
      ensures Valid() && old(history) <= history
      ensures s.Fine? ==> Achieved(ResumeEvent, m)
      ensures s == Error(RolledBack) ==> Now() == Durable(Slot(None), Original(m))
      ensures s.Fine? && HeadsAgree(m) ==> AllReady(m)
      ensures old(Quiet()) && ValidManifest(m) && m.authority == controller && HeadsAgree(m) ==> s.Fine?
    {
      s := ResumeDeployment(m, seen);
      if !s.Fine? {
        return;
      }
      var again;
      s, again := Observe(m);
      if s.Crashed? {
        return;
      }
      var ready := Decide(Some(m), ReadyEvent, Context(m.id, None, again, false));
      if !s.Fine? || ready.err.Some? {
        s := RollbackDeploymentFailure(m);
        return;
      }
      DecideIsWarranted(Some(m), ReadyEvent, Context(m.id, None, again, false));
      s := Persist(m, Pending);
    }

    /** Whatever has happened since the slot was last clear, a rollback of the release it holds is due until acceptance. */
    lemma RollbackIsDue(h: seq<Durable>)
      requires Valid() && h == history && h[0].slot == Slot(None) && Held().Some?
      requires Held().value.authority == controller && !Held().value.state.Accepting?
      ensures Due(RollbackEvent, Held().value.id)
    {
      var m := Held().value;
      assert ValidManifest(m);
      var p := ActiveTargetIsKnown(h, |h| - 1, m);
    }

    /** Resumes the prepared deployment; an empty identity means the one in the slot. */
    method Resume(id: string) returns (s: Status)
      requires Valid()
      modifies this`history, host, store
      ensures Valid() && old(history) <= history
      ensures s.Fine? ==> old(Held()).Some? && Achieved(ResumeEvent, old(Held()).value)
      ensures old(Quiet() && Due(ResumeEvent, id)) ==> s.Fine?
    {
      s := Run(ResumeEvent, id, true);
    }

    method Accept(id: string) returns (s: Status)
      requires Valid()
      modifies this`history, host, store
      ensures Valid() && old(history) <= history
      ensures s.Fine? ==> old(Held()).Some? && Achieved(AcceptEvent, old(Held()).value)
      ensures old(Quiet() && Due(AcceptEvent, id)) ==> s.Fine?
      ensures old(Quiet() && Unready()) ==> !s.Fine? && Now() == old(Now())
    {
      if id == "" {
        assert Held().Some? ==> ValidFingerprint(Held().value.id);
        return Error(IdentityMismatch);
      }
      s := Run(AcceptEvent, id, false);
    }

    /** From wherever a deployment stopped, one undisturbed rollback restores the target and clears the slot. */
    method Rollback(id: string) returns (s: Status)
      requires Valid()
      modifies this`history, host, store
      ensures Valid() && old(history) <= history
      ensures s.Fine? ==> old(Held()).Some? && Achieved(RollbackEvent, old(Held()).value)
      ensures old(Quiet() && Due(RollbackEvent, id)) ==> s.Fine? && Now() == Durable(Slot(None), old(Original(Held().value)))
    {
      if id == "" {
        assert Held().Some? ==> ValidFingerprint(Held().value.id);
        return Error(IdentityMismatch);
      }
      s := Run(RollbackEvent, id, false);
    }

    lemma PartsAreValid(m: Manifest)
      requires ValidManifest(m)
      ensures ValidLabel(m.binding.agent) && ValidCommit(m.commit) && ValidFingerprint(m.candidate) && ValidFingerprint(m.authority)
              && ValidFingerprint(m.dependency) && ValidFingerprint(m.id) && (m.previousPresent ==> ValidFingerprint(m.previous))
    {
    }

    /** Everything a preparation asks for is in order. */
    ghost predicate Preparable(request: Request, id: string)
      reads this, store, host
    {
      var m := Draft(request, id, host.target);
      && store.Load() == Slot(None) && request.effectiveUid == store.uid && ValidManifest(m)
      && controller == request.authority && request.candidateContent == Some(request.candidate) && request.authorityContent == Some(request.authority)
      && store.prepareTopology(m) && store.topology(m)
    }

    /** Records a new transaction for what is installed now; the target itself is not touched. */
    method Prepare(request: Request, id: string) returns (s: Status)
      requires Valid()
      modifies this`history, host, store
      ensures Valid() && old(history) <= history && host.target == old(host.target)
      ensures s.Fine? ==> old(Now().slot) == Slot(None) && Now().slot.Slot? && Now().slot.manifest.Some?
      ensures s.Fine? ==> var m := Now().slot.manifest.value;
                m.id == id && m.state.Prepared? && Original(m) == host.target && m.candidate == request.candidate && m.authority == controller && HeadsAgree(m)
                && m.commit == request.commit && m.dependency == request.dependency && m.binding == request.binding
                && m.services == [Service("obsidian", request.binding)] + request.captured && m.targetPath == request.targetPath
                && m.effectiveUid == request.effectiveUid == store.uid && m.readyTimeout == request.readyTimeout && m.readyPoll == request.readyPoll
      ensures old(Quiet() && Preparable(request, id)) ==> s.Fine?
    {
      if ValidManifest(Draft(request, id, host.target)) {
        PartsAreValid(Draft(request, id, host.target));
      }
      hide ValidManifest, LegalHistory, LegalStep;
      var slot := store.Load();
      if slot.Malformed? {
        return Error(StateMalformed);
      }
      if slot.manifest.Some? {
        return Error(StateConflict);
      }
      if request.effectiveUid != store.uid || !ValidLabel(request.binding.agent) || !ValidCommit(request.commit) || !ValidFingerprint(request.candidate)
         || !ValidFingerprint(request.authority) || !ValidFingerprint(request.dependency) {
        return Error(StateMalformed);
      }
      if controller != request.authority {
        return Error(AuthorityMismatch);
      }
      // Looking up the target and hashing the inputs changes nothing, but can fail.
      var o := host.Effect();
      if !o.Done? {
        return StatusOf(o);
      }
      if request.candidateContent != Some(request.candidate) {
        return Error(ArtifactMismatch);
      }
      if request.authorityContent != Some(request.authority) {
        return Error(AuthorityMismatch);
      }
      var m := Draft(request, id, host.target);
      s := PrepareDraft(request, m);
    }

    /** Checks the paths, looks at what is there, decides, and publishes. */
    method PrepareDraft(request: Request, m: Manifest) returns (s: Status)
      requires Valid() && Now().slot == Slot(None) && m == Draft(request, m.id, host.target) && request.effectiveUid == store.uid
      requires request.candidateContent == Some(request.candidate) && request.authorityContent == Some(request.authority)
      modifies this`history, host, store
      ensures Valid() && old(history) <= history && host.target == old(host.target)
      ensures s.Fine? ==> Now().slot == Slot(Some(m))
      ensures old(Quiet() && controller == request.authority && ValidManifest(m) && store.prepareTopology(m) && store.topology(m)) ==> s.Fine?
    {
      if ValidManifest(m) {
        PartsAreValid(m);
      }
      hide ValidManifest, LegalHistory, LegalStep, Decide, CheckRuntime;
      if !store.prepareTopology(m) {
        return Error(StateMalformed);
      }
      var r := store.CleanupOrphans();
      if !r.Stored? {
        return StatusOfStore(r);
      }
      var seen;
      s, seen := host.Observe(m, controller);
      if !s.Fine? {
        return;
      }
      var d := Decide(None, PrepareEvent, Context("", Some(m), seen, false));
      PrepareDecided(Context("", Some(m), seen, false));
      if d.err.Some? {
        return Error(d.err.value);
      }
      DecideIsWarranted(None, PrepareEvent, Context("", Some(m), seen, false));
      s := Publish(m, Sources(request.candidateContent, request.authorityContent, if m.previousPresent then Some(host.target) else None));
    }

    method Publish(m: Manifest, sources: Sources) returns (s: Status)
      requires Valid() && Now().slot == Slot(None) && m.state.Prepared? && Original(m) == host.target && HeadsAgree(m)
      modifies this`history, store
      ensures Valid() && old(history) <= history
      ensures s.Fine? ==> Now().slot == Slot(Some(Recorded(m, store.uid)))
      ensures old(store.Quiet() && store.Storable(m, sources)) ==> s.Fine?
    {
      ghost var before := Now();
      var r := store.Prepare(m, sources);
      s := StatusOfStore(r);
      assert Now() == before || Prepares(before, Now(), Recorded(m, store.uid));
      Note();
    }
  }

  // ---- whole histories --------------------------------------------------------------------------

  predicate SameRelease(a: Manifest, b: Manifest) {
    a == b.(state := a.state)
  }

  /** What the target holds while a release is in the slot. */
  predicate Known(m: Manifest, target: Option<Fingerprint>) {
    target == Some(m.candidate) || (target == Original(m) && (m.state.Prepared? || m.state.RollingBack?))
  }

  /** The release in the slot at i was prepared right after p, and has held the slot since. */
  ghost predicate Since(h: seq<Durable>, p: nat, i: nat, m: Manifest) {
    && p < i < |h| && h[p].slot == Slot(None) && h[p].target == Original(m)
    && forall j :: p < j <= i ==> h[j].slot.Slot? && h[j].slot.manifest.Some? && SameRelease(h[j].slot.manifest.value, m)
                                  && Known(h[j].slot.manifest.value, h[j].target)
  }

  /** While a release is active the target is its candidate or what was installed before it was prepared. */
  lemma {:induction false} ActiveTargetIsKnown(h: seq<Durable>, i: nat, m: Manifest) returns (p: nat)
    requires LegalHistory(h) && h[0].slot == Slot(None) && i < |h| && h[i].slot == Slot(Some(m))
    ensures Since(h, p, i, m) && Known(m, h[i].target) && HeadsAgree(m)
    decreases i
  {
    var a, b := h[i - 1], h[i];
    assert LegalStep(a, b);
    if a == b {
      p := ActiveTargetIsKnown(h, i - 1, m);
    } else if n :| Prepares(a, b, n) {
      p := i - 1;
    } else {
      var n :| Moves(a, b, n);
      p := ActiveTargetIsKnown(h, i - 1, n);
    }
  }

  /**
   * A slot that becomes clear leaves the candidate installed, if it was accepted, or exactly what was installed when
   * the release was prepared.
   */
  lemma AllOrNothing(h: seq<Durable>, i: nat, m: Manifest) returns (p: nat)
    requires LegalHistory(h) && h[0].slot == Slot(None) && i + 1 < |h| && h[i].slot == Slot(Some(m)) && h[i + 1].slot == Slot(None)
    ensures Since(h, p, i, m)
    ensures (m.state.Accepting? && h[i + 1].target == Some(m.candidate)) || (m.state.RollingBack? && h[i + 1].target == h[p].target)
  {
    p := ActiveTargetIsKnown(h, i, m);
    assert LegalStep(h[i], h[i + 1]);
  }

  /** Accepting and rolling back are only ever left by clearing the slot. */
  lemma {:induction false} DirectionIsKept(h: seq<Durable>, i: nat, j: nat, m: Manifest)
    requires LegalHistory(h) && i <= j < |h| && h[i].slot == Slot(Some(m)) && (m.state.Accepting? || m.state.RollingBack?)
    ensures h[j].slot == Slot(Some(m)) || exists k :: i < k <= j && h[k].slot == Slot(None)
    decreases j
  {
    if i < j {
      DirectionIsKept(h, i, j - 1, m);
      assert LegalStep(h[j - 1], h[j]);
      if h[j - 1].slot == Slot(Some(m)) && h[j].slot != h[j - 1].slot {
        assert h[j].slot == Slot(None);
      }
    }
  }

  /** Remark, read off the legal steps: the target changes only to the candidate while prepared, and only to the original while rolling back. */
  lemma TargetFollowsDirection(h: seq<Durable>, i: nat)
    requires LegalHistory(h) && i + 1 < |h| && h[i + 1].target != h[i].target
    ensures h[i].slot.Slot? && h[i].slot.manifest.Some? && h[i + 1].slot == h[i].slot
    ensures var m := h[i].slot.manifest.value;
            (m.state.Prepared? && h[i + 1].target == Some(m.candidate)) || (m.state.RollingBack? && h[i + 1].target == Original(m))
  {
    assert LegalStep(h[i], h[i + 1]);
  }
}
