/** The crash-atomic release slot on disk: active/, active.next.<id> and cleanup.<id>, with a stop possible at every step. */
module ReleaseStore {
  import opened Ordering
  import opened ReleaseModel

  const CANDIDATE_FILE := "candidate"
  const AUTHORITY_FILE := "authority"
  const PREVIOUS_FILE := "previous"

  /** What one step of a script does: it succeeds, fails or kills the process, the last two before or after its effect. */
  datatype Outcome = Done | Failed | FailedLate | Died | DiedLate

  predicate Happens(o: Outcome) {
    o.Done? || o.FailedLate? || o.DiedLate?
  }

  predicate Dead(o: Outcome) {
    o.Died? || o.DiedLate?
  }

  /** A file being written is torn until its last byte is in place. Temporary files have random names that never collide. */
  datatype ManifestFile = Whole(manifest: Manifest) | Torn

  datatype Dir = Dir(manifest: Option<ManifestFile>, temps: seq<ManifestFile>,
                     candidate: Option<Fingerprint>, authority: Option<Fingerprint>, previous: Option<Fingerprint>)

  const EMPTY := Dir(None, [], None, None, None)

  datatype EntryName = Active | Next(id: string) | Cleanup(id: string) | Foreign(name: string)

  type Root = map<EntryName, Dir>

  datatype Slot = Slot(manifest: Option<Manifest>) | Malformed

  /** The contents found behind the source paths; a path that cannot be read gives None. */
  datatype Sources = Sources(candidate: Option<Fingerprint>, authority: Option<Fingerprint>, previous: Option<Option<Fingerprint>>)

  datatype StoreResult = Stored | Refused(code: ErrorCode) | Broke | Killed

  function ResultOf(o: Outcome): StoreResult {
    if o.Done? then Stored else if Dead(o) then Killed else Broke
  }

  predicate ValidStored(m: Manifest, uid: int) {
    && m.version == MANIFEST_VERSION && !m.state.Clear? && ValidFingerprint(m.id) && m.effectiveUid == uid
    && m.candidateFile == CANDIDATE_FILE && m.authorityFile == AUTHORITY_FILE
    && (if m.previousPresent then m.previousFile == PREVIOUS_FILE && ValidFingerprint(m.previous) else m.previousFile == "" && m.previous == "")
    && ValidManifest(m)
  }

  /** The directory holds exactly the artifacts its manifest names. */
  predicate HoldsArtifacts(d: Dir, m: Manifest) {
    d.candidate == Some(m.candidate) && d.authority == Some(m.authority) && (m.previousPresent ==> d.previous == Some(m.previous))
  }

  /** The path checks do not look at the state. */
  predicate Placed(topology: Manifest -> bool, m: Manifest) {
    topology(m.(state := Prepared))
  }

  function LoadDir(d: Dir, uid: int, topology: Manifest -> bool): Slot {
    if d.manifest.None? || d.manifest.value.Torn? then Malformed
    else
      var m := d.manifest.value.manifest;
      if ValidStored(m, uid) && HoldsArtifacts(d, m) && Placed(topology, m) then Slot(Some(m)) else Malformed
  }

  function LoadRoot(root: Root, uid: int, topology: Manifest -> bool): Slot {
    if Active in root then LoadDir(root[Active], uid, topology) else Slot(None)
  }

  /**
   * A load shows a release if and only if the active directory holds one whole manifest of this user and version that
   * is valid and well placed, and beside it exactly the artifacts it names; anything else there is malformed.
   */
  lemma LoadsOnlyWhole(root: Root, uid: int, topology: Manifest -> bool, m: Manifest)
    ensures LoadRoot(root, uid, topology) == Slot(Some(m)) <==>
              && Active in root && root[Active].manifest == Some(Whole(m)) && ValidManifest(m) && m.version == MANIFEST_VERSION && m.effectiveUid == uid
              && m.candidateFile == "candidate" && m.authorityFile == "authority" && m.previousFile == (if m.previousPresent then "previous" else "")
              && root[Active].candidate == Some(m.candidate) && root[Active].authority == Some(m.authority)
              && (m.previousPresent ==> root[Active].previous == Some(m.previous)) && topology(m.(state := Prepared))
    ensures LoadRoot(root, uid, topology) == Slot(None) <==> Active !in root
  {
    hide ValidServices, ValidBinding;
  }

  /** The manifest as Prepare records it. */
  function Recorded(m: Manifest, uid: int): Manifest {
    var r := m.(version := MANIFEST_VERSION, effectiveUid := uid, candidateFile := CANDIDATE_FILE, authorityFile := AUTHORITY_FILE);
    if m.previousPresent then r.(previousFile := PREVIOUS_FILE) else r.(previousFile := "", previous := "")
  }

  class Store {
    const uid: int
    const prepareTopology: Manifest -> bool
    const topology: Manifest -> bool
    const script: nat -> Outcome
    var clock: nat
    var root: Root

    constructor (uid: int, prepareTopology: Manifest -> bool, topology: Manifest -> bool, script: nat -> Outcome, root: Root)
      ensures this.uid == uid && this.prepareTopology == prepareTopology && this.topology == topology && this.script == script
      ensures this.root == root && clock == 0
    {
      this.uid, this.prepareTopology, this.topology, this.script := uid, prepareTopology, topology, script;
      this.root, clock := root, 0;
    }

    function Load(): Slot
      reads this
    {
      LoadRoot(root, uid, topology)
    }

    /** From here on every step succeeds. */
    ghost predicate Quiet()
      reads this
    {
      forall n :: n >= clock ==> script(n) == Done
    }

    /** The slot is taken and only its state would change. */
    ghost predicate Rewritable(m: Manifest)
      reads this
    {
      Load().Slot? && Load().manifest.Some? && !m.state.Clear? && m == Load().manifest.value.(state := m.state)
    }

    /** The next step of the script, with no effect on disk: a check, a sync or a hook. */
    method Step() returns (o: Outcome)
      modifies this`clock
      ensures o == script(old(clock)) && clock == old(clock) + 1
    {
      o := script(clock);
      clock := clock + 1;
    }

    method Put(name: EntryName, d: Dir) returns (o: Outcome)
      modifies this`clock, this`root
      ensures o == script(old(clock)) && clock == old(clock) + 1
      ensures root == if Happens(o) then old(root)[name := d] else old(root)
    {
      o := Step();
      if Happens(o) {
        root := root[name := d];
      }
    }

    method Remove(name: EntryName) returns (o: Outcome)
      modifies this`clock, this`root
      ensures o == script(old(clock)) && clock == old(clock) + 1
      ensures root == if o.Done? then old(root) - {name} else if Happens(o) && name in old(root) then old(root)[name := EMPTY] else old(root)
    {
      o := Step();
      if o.Done? {
        root := root - {name};
      } else if Happens(o) && name in root {
        // A removal that stops half-way leaves some part of the tree.
        root := root[name := EMPTY];
      }
    }

    method Rename(from: EntryName, dest: EntryName) returns (o: Outcome)
      requires from in root && from != dest
      modifies this`clock, this`root
      ensures o == script(old(clock)) && clock == old(clock) + 1
      ensures root == if Happens(o) then (old(root) - {from})[dest := old(root)[from]] else old(root)
    {
      o := Step();
      if Happens(o) {
        root := (root - {from})[dest := root[from]];
      }
    }

    /** Replaces the manifest of a directory through a temporary file; one step stands for hooks and syncs in a row. */
    method WriteManifestAtomic(name: EntryName, m: Manifest) returns (o: Outcome)
      requires name in root
      modifies this`clock, this`root
      ensures name in root && root == old(root)[name := root[name]]
      ensures root[name] == old(root)[name].(manifest := root[name].manifest, temps := root[name].temps)
      ensures root[name].manifest == old(root)[name].manifest || root[name].manifest == Some(Whole(m))
      ensures o.Done? ==> root[name].manifest == Some(Whole(m)) && root[name].temps == old(root)[name].temps
      ensures old(Quiet()) ==> Quiet() && o.Done?
    {
      var d := root[name];
      o := WriteTemp(name, m);
      var published := false;
      if o.Done? {
        o := Put(name, d.(manifest := Some(Whole(m))));
        published := Happens(o);
      }
      if o.Done? {
        o := Step();
      }
      if !o.Done? && !Dead(o) && !published {
        var ignored := Put(name, d);
      }
    }

    /** Writes and syncs the temporary file; a stop leaves it torn, whole or absent. */
    method WriteTemp(name: EntryName, m: Manifest) returns (o: Outcome)
      requires name in root
      modifies this`clock, this`root
      ensures name in root && root == old(root)[name := old(root)[name].(temps := root[name].temps)]
      ensures o.Done? ==> root[name].temps == old(root)[name].temps + [Whole(m)]
      ensures old(Quiet()) ==> Quiet() && o.Done?
    {
      var d := root[name];
      o := Put(name, d.(temps := d.temps + [Torn]));
      if o.Done? {
        o := Step();
      }
      if o.Done? {
        o := Put(name, d.(temps := d.temps + [Whole(m)]));
      }
      if o.Done? {
        o := Step();
      }
    }

    /** The sources hold what the manifest names, and the manifest as it would be recorded may be loaded again. */
    predicate Fillable(m: Manifest, sources: Sources) {
      && sources.candidate == Some(m.candidate) && sources.authority == Some(m.authority)
      && (m.previousPresent ==> sources.previous == Some(Some(m.previous)))
      && Placed(topology, Recorded(m, uid)) && ValidStored(Recorded(m, uid), uid)
    }

    /** A new transaction may be published. */
    predicate Storable(m: Manifest, sources: Sources)
      reads this
    {
      && Active !in root && Next(m.id) !in root && prepareTopology(m) && ValidFingerprint(m.id) && m.state.Prepared?
      && m.previousPresent == sources.previous.Some? && Fillable(m, sources)
    }

    /**
     * Publishes a new transaction: whatever stops it, the slot is then still clear or holds the whole manifest with
     * its artifacts.
     */
    method Prepare(m: Manifest, sources: Sources) returns (r: StoreResult)
      modifies this`clock, this`root
      ensures Load() == old(Load()) || (Active !in old(root) && Load() == Slot(Some(Recorded(m, uid))))
      ensures r.Stored? ==> Active !in old(root) && Load() == Slot(Some(Recorded(m, uid))) && m.state.Prepared?
      ensures r.Stored? ==> sources.candidate == Some(m.candidate) && (m.previousPresent ==> sources.previous == Some(Some(m.previous)))
      ensures r.Refused? ==> Load() == old(Load())
      ensures old(Quiet()) ==> Quiet() && (r.Stored? <==> old(Storable(m, sources)))
    {
      var o := Step();
      if !o.Done? {
        return ResultOf(o);
      }
      if Active in root {
        return Refused(StateConflict);
      }
      if !prepareTopology(m) || !ValidFingerprint(m.id) || !m.state.Prepared? || m.previousPresent != sources.previous.Some? {
        return Refused(StateMalformed);
      }
      var next := Next(m.id);
      if next in root {
        return Broke;
      }
      r := Stage(next, m, sources);
      var published := false;
      if r.Stored? {
        o := Rename(next, Active);
        r, published := ResultOf(o), Happens(o);
      }
      if r.Stored? {
        o := Step();
        r := ResultOf(o);
      }
      if !r.Stored? && !r.Killed? && !published {
        var ignored := Remove(next);
      }
    }

    /** Fills active.next.<id>: nothing else on disk changes, and on success it loads as the recorded manifest. */
    method Stage(next: EntryName, m: Manifest, sources: Sources) returns (r: StoreResult)
      requires next !in root && next != Active && m.state.Prepared? && (m.previousPresent == sources.previous.Some?)
      modifies this`clock, this`root
      ensures root - {next} == old(root)
      ensures r.Stored? ==> next in root && LoadDir(root[next], uid, topology) == Slot(Some(Recorded(m, uid)))
      ensures r.Stored? ==> sources.candidate == Some(m.candidate) && (m.previousPresent ==> sources.previous == Some(Some(m.previous)))
      ensures old(Quiet()) ==> Quiet() && (r.Stored? <==> Fillable(m, sources))
    {
      hide ValidStored, Placed;
      var o := Put(next, EMPTY);
      if !o.Done? {
        return ResultOf(o);
      }
      var copied := EMPTY.(candidate := sources.candidate, authority := sources.authority);
      o := Put(next, copied);
      if !o.Done? {
        return ResultOf(o);
      }
      if sources.candidate.None? || sources.authority.None? {
        return Broke;
      }
      if sources.candidate.value != m.candidate || sources.authority.value != m.authority {
        return Refused(ArtifactMismatch);
      }
      if m.previousPresent {
        copied := copied.(previous := sources.previous.value);
        o := Put(next, copied);
        if !o.Done? {
          return ResultOf(o);
        }
        if sources.previous.value.None? {
          return Broke;
        }
        if sources.previous.value.value != m.previous {
          return Refused(ArtifactMismatch);
        }
      }
      var recorded := Recorded(m, uid);
      if !Placed(topology, recorded) || !ValidStored(recorded, uid) {
        return Refused(StateMalformed);
      }
      o := WriteManifestAtomic(next, recorded);
      r := ResultOf(o);
    }

    /** Replaces the recorded state: the old manifest or the new one is there, whole, whatever happens. */
    method Rewrite(m: Manifest) returns (r: StoreResult)
      modifies this`clock, this`root
      ensures Load() == old(Load())
              || (old(Load()).Slot? && old(Load()).manifest.Some? && m == old(Load()).manifest.value.(state := m.state) && Load() == Slot(Some(m)))
      ensures r.Stored? ==> Load() == Slot(Some(m)) && old(Load()).Slot? && old(Load()).manifest.Some?
      ensures r.Refused? ==> root == old(root) && !r.code.RolledBack?
      ensures forall e :: e != Active ==> (e in root <==> e in old(root)) && (e in root ==> root[e] == old(root)[e])
      ensures old(Quiet()) ==> Quiet()
      ensures old(Quiet()) && old(Rewritable(m)) ==> r.Stored?
    {
      var o := Step();
      if !o.Done? {
        return ResultOf(o);
      }
      var slot := Load();
      if slot.Malformed? {
        return Refused(StateMalformed);
      }
      if slot.manifest.None? {
        return Refused(StateConflict);
      }
      if m.(state := slot.manifest.value.state) != slot.manifest.value {
        return Refused(StateConflict);
      }
      if !ValidStored(m, uid) {
        return Refused(StateMalformed);
      }
      o := WriteManifestAtomic(Active, m);
      r := ResultOf(o);
    }

    /** Clears the slot by renaming active/ away; failures after the rename leave it clear and are only warnings. */
    method Clear(id: string) returns (r: StoreResult)
      modifies this`clock, this`root
      ensures Load() == old(Load()) || (old(Load()).Slot? && old(Load()).manifest.Some? && old(Load()).manifest.value.id == id && Load() == Slot(None))
      ensures r.Stored? ==> Load() == Slot(None)
      ensures r.Refused? ==> root == old(root)
      ensures old(Quiet()) ==> Quiet() && (old(Load()).Slot? && old(Load()).manifest.Some? && old(Load()).manifest.value.id == id ==> r.Stored?)
    {
      var o := Step();
      if !o.Done? {
        return ResultOf(o);
      }
      var slot := Load();
      if slot.Malformed? {
        return Refused(StateMalformed);
      }
      if slot.manifest.None? || slot.manifest.value.id != id {
        return Refused(StateConflict);
      }
      var cleanup := Cleanup(id);
      if cleanup in root {
        o := Remove(cleanup);
        if !o.Done? {
          return ResultOf(o);
        }
      }
      o := Step();
      if !o.Done? {
        return ResultOf(o);
      }
      o := Rename(Active, cleanup);
      if !o.Done? {
        return ResultOf(o);
      }
      o := Step();
      if !o.Done? {
        return ResultOf(o);
      }
      // The slot is clear; what follows can only warn, or die.
      o := Step();
      if !Dead(o) {
        o := Remove(cleanup);
      }
      r := if Dead(o) then Killed else Stored;
    }

    /** Removes what no load looks at, and changes nothing any load sees. */
    method CleanupOrphans() returns (r: StoreResult)
      modifies this`clock, this`root
      ensures Load() == old(Load())
      ensures forall name :: (Foreign(name) in root <==> Foreign(name) in old(root)) && (Foreign(name) in root ==> root[Foreign(name)] == old(root)[Foreign(name)])
      ensures r.Stored? ==> forall e :: e in root ==> (e.Active? && root[e].temps == []) || e.Foreign?
      ensures Active in root <==> Active in old(root)
      ensures old(Quiet()) ==> Quiet() && r.Stored?
    {
      var o := Step();
      if !o.Done? {
        return ResultOf(o);
      }
      if Active in root {
        r := CleanupTemps();
        if !r.Stored? {
          return;
        }
      }
      var names := set e | e in root && (e.Next? || e.Cleanup?);
      while names != {}
        invariant forall e: EntryName :: e in root && (e.Next? || e.Cleanup?) ==> e in names
        invariant forall e: EntryName :: e in names ==> e in root && (e.Next? || e.Cleanup?)
        invariant forall e: EntryName :: e.Active? || e.Foreign? ==> (e in root <==> e in old(root))
        invariant forall e: EntryName :: e.Foreign? && e in root ==> root[e] == old(root)[e]
        invariant Active in root ==> root[Active] == old(root)[Active].(temps := [])
        invariant old(Quiet()) ==> Quiet()
        decreases names
      {
        var e :| e in names;
        o := Remove(e);
        if !o.Done? {
          return ResultOf(o);
        }
        names := names - {e};
      }
      o := Step();
      r := ResultOf(o);
    }

    method CleanupTemps() returns (r: StoreResult)
      requires Active in root
      modifies this`clock, this`root
      ensures Active in root && root == old(root)[Active := old(root)[Active].(temps := root[Active].temps)]
      ensures r.Stored? ==> root[Active].temps == []
      ensures old(Quiet()) ==> Quiet() && r.Stored?
    {
      while root[Active].temps != []
        invariant Active in root && root == old(root)[Active := old(root)[Active].(temps := root[Active].temps)]
        invariant old(Quiet()) ==> Quiet()
        decreases |root[Active].temps|
      {
        var o := Step();
        if Happens(o) {
          root := root[Active := root[Active].(temps := root[Active].temps[1..])];
        }
        if !o.Done? {
          return ResultOf(o);
        }
      }
      r := Stored;
    }
  }
}
