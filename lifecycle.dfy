/**
 * The decision logic of install, update and uninstall: the database primitives they
 * delegate to, the collision candidates they collect, and the outcome of one call given the
 * outcome of each timed lock attempt and the answer of the collision hook.
 */
module Lifecycle {
  import opened Wrappers
  import opened Lists
  import opened Graph

  /** What a module revision builder describes: symbolic name (possibly absent), version, type. */
  datatype Descriptor = Descriptor(name: Option<string>, version: Version, isFragment: bool)

  /**
   * The bundle context an install comes from: its own bundle and the modules it can see
   * (the ids for which its getBundle answers non-null).
   */
  datatype Origin = Origin(bundle: ModuleId, visible: set<ModuleId>)

  /** How a five-second tryLock ends: the lock is obtained, the wait times out, or it is interrupted. */
  datatype LockOutcome = Acquired | TimedOut | Interrupted

  /** The BundleException kinds the container raises. */
  datatype BundleError = StateChange | RejectedByHook | DuplicateBundle

  datatype CollisionOp = Installing | Updating

  /**
   * A collision hook, given the operation, the target bundle and the candidates, answers the
   * candidates it removes from the collection.
   */
  type CollisionHook = (CollisionOp, ModuleId, seq<ModuleId>) -> set<ModuleId>

  /**
   * The outcome of one call: its result, the database afterwards, and whether it re-raised
   * the thread's interrupt flag.
   */
  datatype Outcome<T> = Outcome(result: Result<T, BundleError>, db: Database, interrupted: bool)

  // ---------------------------------------------------------------------------------------
  // The database primitives

  /** Installs a new module with a fresh id and one fresh revision, indexed by location and name. */
  function DbInstall(db: Database, location: string, desc: Descriptor): Database {
    var m := db.nextModuleId;
    var r := db.nextRevisionId;
    db.(modules := db.modules[m := Module(location, [r], false, true)],
        revisions := db.revisions[r := Revision(m, desc.name, desc.version, desc.isFragment)],
        locations := db.locations[location := m],
        capabilities := db.capabilities + {r},
        nextModuleId := m + 1,
        nextRevisionId := r + 1)
  }

  /** Adds a fresh revision in front of the module's history, making it the current one. */
  function DbUpdate(db: Database, m: ModuleId, desc: Descriptor): Database {
    if m !in db.modules then db
    else
      var r := db.nextRevisionId;
      db.(modules := db.modules[m := db.modules[m].(revisions := [r] + db.modules[m].revisions)],
          revisions := db.revisions[r := Revision(m, desc.name, desc.version, desc.isFragment)],
          capabilities := db.capabilities + {r},
          nextRevisionId := r + 1)
  }

  /**
   * Removes the module from the location index and its revisions from the capability index
   * and marks its history uninstalled; wirings that still reference its revisions stay.
   */
  function DbUninstall(db: Database, m: ModuleId): Database {
    if m !in db.modules then db
    else
      db.(modules := db.modules[m := db.modules[m].(uninstalled := true)],
          locations := map l | l in db.locations && db.locations[l] != m :: db.locations[l],
          capabilities := db.capabilities - Elements(db.modules[m].revisions))
  }

  // ---------------------------------------------------------------------------------------
  // Collision candidates

  /** The indexed revisions with the given name and version, in ascending order. */
  function NamedRevisions(db: Database, name: string, version: Version): seq<RevisionId> {
    SortedIds(set r | r in db.capabilities && r in db.revisions && db.revisions[r].name == Some(name) && db.revisions[r].version == version)
  }

  /** The bundle of a revision: its module's, when the module has one. */
  function BundleOf(db: Database, r: RevisionId): Option<ModuleId> {
    if r in db.revisions && db.revisions[r].owner in db.modules && db.modules[db.revisions[r].owner].hasBundle then
      Some(db.revisions[r].owner)
    else
      None
  }

  /** The bundle of a module, when it has one. */
  function ModuleBundle(db: Database, m: ModuleId): Option<ModuleId> {
    if m in db.modules && db.modules[m].hasBundle then Some(m) else None
  }

  /**
   * The distinct non-null bundles of `revs`, each in the position of its first occurrence:
   * a bundle occurs once even when several of its revisions are listed.
   */
  function DistinctBundles(db: Database, revs: seq<RevisionId>): (r: seq<ModuleId>)
    ensures NoDup(r)
    ensures forall b :: b in r <==> exists x :: x in revs && BundleOf(db, x) == Some(b)
  {
    if revs == [] then []
    else
      var init := revs[..|revs| - 1];
      var last := revs[|revs| - 1];
      var before := DistinctBundles(db, init);
      assert forall x :: x in revs <==> x in init || x == last;
      match BundleOf(db, last)
      case Some(b) =>
        if b in before then before
        else
          NoDupSnoc(before, b);
          before + [b]
      case None => before
  }

  /** The collision candidates for a name and version: the distinct bundles of its revisions. */
  function Candidates(db: Database, name: string, version: Version): seq<ModuleId> {
    DistinctBundles(db, NamedRevisions(db, name, version))
  }

  /**
   * The loop that builds the candidate collection, skipping null bundles and bundles
   * already collected.
   */
  method CollectCandidates(db: Database, revs: seq<RevisionId>) returns (candidates: seq<ModuleId>)
    ensures candidates == DistinctBundles(db, revs)
  {
    candidates := [];
    var i := 0;
    while i < |revs|
      invariant 0 <= i <= |revs|
      invariant candidates == DistinctBundles(db, revs[..i])
    {
      var b := BundleOf(db, revs[i]);
      assert revs[..i + 1][..i] == revs[..i];
      if b.Some? && b.value !in candidates {
        candidates := candidates + [b.value];
      }
      i := i + 1;
    }
    assert revs[..i] == revs;
  }

  /** A module is a candidate exactly when it has a bundle and an indexed revision of that name and version. */
  lemma CandidatesIff(db: Database, name: string, version: Version, b: ModuleId)
    ensures b in Candidates(db, name, version) <==>
      exists x :: x in db.capabilities && x in db.revisions && db.revisions[x].name == Some(name)
        && db.revisions[x].version == version && BundleOf(db, x) == Some(b)
  {
    var revs := NamedRevisions(db, name, version);
    if b in Candidates(db, name, version) {
      var x :| x in revs && BundleOf(db, x) == Some(b);
    }
    if exists x :: x in db.capabilities && x in db.revisions && db.revisions[x].name == Some(name)
        && db.revisions[x].version == version && BundleOf(db, x) == Some(b) {
      var x :| x in db.capabilities && x in db.revisions && db.revisions[x].name == Some(name)
        && db.revisions[x].version == version && BundleOf(db, x) == Some(b);
      assert x in revs;
    }
  }

  /** Whether candidates remain after the hook has filtered them. */
  predicate Collides(db: Database, hook: CollisionHook, op: CollisionOp, target: ModuleId, name: string, version: Version) {
    CollidesAmong(hook, op, target, Candidates(db, name, version))
  }

  /** Whether some of a non-empty candidate collection survive the hook's filtering. */
  predicate CollidesAmong(hook: CollisionHook, op: CollisionOp, target: ModuleId, candidates: seq<ModuleId>) {
    candidates != [] && RemoveAll(candidates, hook(op, target, candidates)) != []
  }

  // ---------------------------------------------------------------------------------------
  // install and update

  /**
   * install: an installed location is returned unchanged, or rejected when the origin cannot
   * see it; otherwise both locks must be obtained (an interrupt re-raises the flag), the
   * hook must leave no candidate when there is an origin, and the database installs.
   */
  function InstallOutcome(db: Database, hook: CollisionHook, origin: Option<Origin>, location: string,
                          desc: Descriptor, locationTry: LockOutcome, nameTry: LockOutcome): Outcome<ModuleId>
  {
    if location in db.locations then
      var existing := db.locations[location];
      if origin.Some? && existing !in origin.value.visible then Outcome(Err(RejectedByHook), db, false)
      else Outcome(Ok(existing), db, false)
    else if locationTry == Interrupted then Outcome(Err(StateChange), db, true)
    else if desc.name.Some? && nameTry == Interrupted then Outcome(Err(StateChange), db, true)
    else if locationTry == TimedOut || desc.name.None? || nameTry == TimedOut then Outcome(Err(StateChange), db, false)
    else if origin.Some? && Collides(db, hook, Installing, origin.value.bundle, desc.name.value, desc.version) then
      Outcome(Err(DuplicateBundle), db, false)
    else
      Outcome(Ok(db.nextModuleId), DbInstall(db, location, desc), false)
  }

  /**
   * update: the name lock must be obtained (a null name never is); when the module has a
   * bundle, the hook must leave no candidate; then the database updates.
   */
  function UpdateOutcome(db: Database, hook: CollisionHook, m: ModuleId, desc: Descriptor, nameTry: LockOutcome): Outcome<()>
  {
    if desc.name.None? then Outcome(Err(StateChange), db, false)
    else if nameTry == Interrupted then Outcome(Err(StateChange), db, true)
    else if nameTry == TimedOut then Outcome(Err(StateChange), db, false)
    else if ModuleBundle(db, m).Some? && Collides(db, hook, Updating, m, desc.name.value, desc.version) then
      Outcome(Err(DuplicateBundle), db, false)
    else
      Outcome(Ok(()), DbUpdate(db, m, desc), false)
  }

  // ---------------------------------------------------------------------------------------
  // What install, update and uninstall guarantee

  /**
   * An installed location short-circuits: nothing is written, no lock attempt, hook or
   * descriptor matters, and the existing module is returned unless the origin cannot see it.
   */
  lemma InstallExistingLocation(db: Database, hook: CollisionHook, other: CollisionHook, origin: Option<Origin>,
                                location: string, desc: Descriptor, other_desc: Descriptor,
                                locationTry: LockOutcome, nameTry: LockOutcome, otherLocationTry: LockOutcome, otherNameTry: LockOutcome)
    requires location in db.locations
    ensures InstallOutcome(db, hook, origin, location, desc, locationTry, nameTry) ==
            InstallOutcome(db, other, origin, location, other_desc, otherLocationTry, otherNameTry)
    ensures InstallOutcome(db, hook, origin, location, desc, locationTry, nameTry).db == db
    ensures InstallOutcome(db, hook, origin, location, desc, locationTry, nameTry).result ==
      if origin.None? || db.locations[location] in origin.value.visible then Ok(db.locations[location]) else Err(RejectedByHook)
  {
  }

  /** A failing install writes nothing. */
  lemma InstallErrorWritesNothing(db: Database, hook: CollisionHook, origin: Option<Origin>, location: string,
                                  desc: Descriptor, locationTry: LockOutcome, nameTry: LockOutcome)
    ensures InstallOutcome(db, hook, origin, location, desc, locationTry, nameTry).result.Err? ==>
      InstallOutcome(db, hook, origin, location, desc, locationTry, nameTry).db == db
  {
  }

  /**
   * Lock failure, an interrupt or a null name is a state-change error; only an interrupt
   * re-raises the interrupt flag.
   */
  lemma InstallLockFailure(db: Database, hook: CollisionHook, origin: Option<Origin>, location: string,
                           desc: Descriptor, locationTry: LockOutcome, nameTry: LockOutcome)
    requires location !in db.locations
    requires locationTry != Acquired || desc.name.None? || nameTry != Acquired
    ensures InstallOutcome(db, hook, origin, location, desc, locationTry, nameTry).result == Err(StateChange)
    ensures InstallOutcome(db, hook, origin, location, desc, locationTry, nameTry).interrupted <==>
      locationTry == Interrupted || (desc.name.Some? && nameTry == Interrupted)
  {
  }

  /**
   * An update whose name lock is not obtained, or whose bundle has no name, is a
   * state-change error that writes nothing and re-raises the interrupt flag exactly when
   * the attempt was interrupted.
   */
  lemma UpdateLockFailure(db: Database, hook: CollisionHook, m: ModuleId, desc: Descriptor, nameTry: LockOutcome)
    requires desc.name.None? || nameTry != Acquired
    ensures UpdateOutcome(db, hook, m, desc, nameTry).result == Err(StateChange)
    ensures UpdateOutcome(db, hook, m, desc, nameTry).db == db
    ensures UpdateOutcome(db, hook, m, desc, nameTry).interrupted <==> desc.name.Some? && nameTry == Interrupted
  {
  }

  /**
   * With an origin, a candidate the hook leaves is a duplicate error raised before any
   * write; without an origin the hook is never consulted.
   */
  lemma InstallCollision(db: Database, hook: CollisionHook, origin: Option<Origin>, location: string,
                         desc: Descriptor, name: string)
    requires location !in db.locations && desc.name == Some(name)
    ensures origin.Some? && Collides(db, hook, Installing, origin.value.bundle, name, desc.version) ==>
      InstallOutcome(db, hook, origin, location, desc, Acquired, Acquired) == Outcome(Err(DuplicateBundle), db, false)
    ensures origin.None? ==>
      InstallOutcome(db, hook, origin, location, desc, Acquired, Acquired) == Outcome(Ok(db.nextModuleId), DbInstall(db, location, desc), false)
  {
  }

  /**
   * A newly installed module gets the next id, greater than every existing one, and is
   * indexed at its location with a single current revision.
   */
  lemma InstallFreshModule(db: Database, hook: CollisionHook, origin: Option<Origin>, location: string,
                           desc: Descriptor, locationTry: LockOutcome, nameTry: LockOutcome)
    requires WellFormed(db)
    requires location !in db.locations
    requires InstallOutcome(db, hook, origin, location, desc, locationTry, nameTry).result.Ok?
    ensures var o := InstallOutcome(db, hook, origin, location, desc, locationTry, nameTry);
      && o.result.value == db.nextModuleId
      && (forall m :: m in db.modules ==> m < o.result.value)
      && o.db.locations[location] == o.result.value
      && o.db.nextModuleId == o.result.value + 1
      && CurrentRevision(o.db, o.result.value) == Some(db.nextRevisionId)
      && o.db.revisions[db.nextRevisionId] == Revision(o.result.value, desc.name, desc.version, desc.isFragment)
  {
  }

  /** Installing at the same location again returns the same module and writes nothing. */
  lemma InstallTwice(db: Database, hook: CollisionHook, origin: Option<Origin>, location: string, desc: Descriptor,
                     locationTry: LockOutcome, nameTry: LockOutcome,
                     again: Option<Origin>, desc': Descriptor, locationTry': LockOutcome, nameTry': LockOutcome)
    requires InstallOutcome(db, hook, origin, location, desc, locationTry, nameTry).result.Ok?
    requires var o := InstallOutcome(db, hook, origin, location, desc, locationTry, nameTry);
      again.None? || o.result.value in again.value.visible
    ensures var o := InstallOutcome(db, hook, origin, location, desc, locationTry, nameTry);
      InstallOutcome(o.db, hook, again, location, desc', locationTry', nameTry') == Outcome(o.result, o.db, false)
  {
  }

  /**
   * Module ids strictly increase: a later install that creates a module returns a greater
   * id than an earlier one.
   */
  lemma InstallIdsIncrease(db: Database, hook: CollisionHook, origin: Option<Origin>, location: string, desc: Descriptor,
                           locationTry: LockOutcome, nameTry: LockOutcome,
                           origin': Option<Origin>, location': string, desc': Descriptor, locationTry': LockOutcome, nameTry': LockOutcome)
    requires WellFormed(db)
    requires location !in db.locations
    requires InstallOutcome(db, hook, origin, location, desc, locationTry, nameTry).result.Ok?
    requires var o := InstallOutcome(db, hook, origin, location, desc, locationTry, nameTry);
      location' !in o.db.locations && InstallOutcome(o.db, hook, origin', location', desc', locationTry', nameTry').result.Ok?
    ensures var o := InstallOutcome(db, hook, origin, location, desc, locationTry, nameTry);
      o.result.value < InstallOutcome(o.db, hook, origin', location', desc', locationTry', nameTry').result.value
  {
  }

  /** A hook that filters nothing. */
  ghost predicate FiltersNothing(hook: CollisionHook) {
    forall op, t, c :: hook(op, t, c) == {}
  }

  /**
   * Installing the same name and version at a second location, from an origin, with a hook
   * that filters nothing, fails with a duplicate error and leaves the database unchanged.
   */
  lemma InstallDuplicate(db: Database, hook: CollisionHook, origin: Option<Origin>, location: string, desc: Descriptor,
                         origin': Origin, location': string, desc': Descriptor)
    requires location !in db.locations && location' !in db.locations && location' != location
    requires desc.name.Some? && desc'.name == desc.name && desc'.version == desc.version
    requires FiltersNothing(hook)
    requires InstallOutcome(db, hook, origin, location, desc, Acquired, Acquired).result.Ok?
    ensures var o := InstallOutcome(db, hook, origin, location, desc, Acquired, Acquired);
      InstallOutcome(o.db, hook, Some(origin'), location', desc', Acquired, Acquired) == Outcome(Err(DuplicateBundle), o.db, false)
  {
    var o := InstallOutcome(db, hook, origin, location, desc, Acquired, Acquired);
    assert o.db == DbInstall(db, location, desc);
    CollidesWith(o.db, hook, Installing, origin'.bundle, desc.name.value, desc.version, db.nextRevisionId);
  }

  /** With a hook that filters nothing, a single indexed revision of the name and version with a bundle collides. */
  lemma CollidesWith(db: Database, hook: CollisionHook, op: CollisionOp, target: ModuleId, name: string, version: Version, x: RevisionId)
    requires FiltersNothing(hook)
    requires x in db.capabilities && x in db.revisions && db.revisions[x].name == Some(name) && db.revisions[x].version == version
    requires BundleOf(db, x).Some?
    ensures Collides(db, hook, op, target, name, version)
  {
    var candidates := Candidates(db, name, version);
    CandidatesIff(db, name, version, BundleOf(db, x).value);
    assert BundleOf(db, x).value in candidates;
    RemoveAllEmpty(candidates);
    assert hook(op, target, candidates) == {};
  }

  /** A failing update writes nothing. */
  lemma UpdateErrorWritesNothing(db: Database, hook: CollisionHook, m: ModuleId, desc: Descriptor, nameTry: LockOutcome)
    ensures UpdateOutcome(db, hook, m, desc, nameTry).result.Err? ==> UpdateOutcome(db, hook, m, desc, nameTry).db == db
  {
  }

  /**
   * A successful update puts a fresh revision in front of the history, where it becomes the
   * current revision, and keeps the earlier revisions behind it.
   */
  lemma UpdateNewCurrent(db: Database, hook: CollisionHook, m: ModuleId, desc: Descriptor, nameTry: LockOutcome)
    requires m in db.modules
    requires UpdateOutcome(db, hook, m, desc, nameTry).result.Ok?
    ensures var u := UpdateOutcome(db, hook, m, desc, nameTry).db;
      && u.modules[m].revisions == [db.nextRevisionId] + db.modules[m].revisions
      && (!db.modules[m].uninstalled ==> CurrentRevision(u, m) == Some(db.nextRevisionId))
      && db.nextRevisionId in u.capabilities
  {
  }

  /**
   * The candidates of an update are not filtered to exclude the module itself: when the
   * module's own current revision has the same name and version and the hook filters
   * nothing, the update fails with a duplicate error.
   */
  lemma UpdateSelfCollision(db: Database, hook: CollisionHook, m: ModuleId, desc: Descriptor, r: RevisionId)
    requires m in db.modules && db.modules[m].hasBundle && CurrentRevision(db, m) == Some(r)
    requires r in db.capabilities && r in db.revisions && db.revisions[r].owner == m
    requires desc.name.Some? && db.revisions[r].name == desc.name && db.revisions[r].version == desc.version
    requires FiltersNothing(hook)
    ensures UpdateOutcome(db, hook, m, desc, Acquired) == Outcome(Err(DuplicateBundle), db, false)
  {
    CollidesWith(db, hook, Updating, m, desc.name.value, desc.version, r);
    assert ModuleBundle(db, m).Some? && Collides(db, hook, Updating, m, desc.name.value, desc.version);
  }

  /** Uninstall unindexes the module and leaves every other location and every wiring in place. */
  lemma UninstallUnindexes(db: Database, m: ModuleId)
    requires m in db.modules
    ensures var u := DbUninstall(db, m);
      && m !in u.locations.Values
      && (forall l :: l in db.locations && db.locations[l] != m ==> l in u.locations && u.locations[l] == db.locations[l])
      && (forall r :: r in db.modules[m].revisions ==> r !in u.capabilities)
      && u.modules[m].uninstalled && CurrentRevision(u, m) == None
      && u.wiring == db.wiring && u.wirings == db.wirings
  {
  }

  // ---------------------------------------------------------------------------------------
  // The database primitives keep the database well formed

  lemma DbInstallWellFormed(db: Database, location: string, desc: Descriptor)
    requires WellFormed(db)
    ensures WellFormed(DbInstall(db, location, desc))
  {
    var u := DbInstall(db, location, desc);
    var m, r := db.nextModuleId, db.nextRevisionId;
    assert m !in db.modules && r !in db.revisions;
    forall k, x | k in u.modules && x in u.modules[k].revisions ensures x in u.revisions && u.revisions[x].owner == k {
      if k != m {
        assert x in db.modules[k].revisions;
      }
    }
    assert NoDup(u.modules[m].revisions);
  }

  lemma DbUpdateWellFormed(db: Database, m: ModuleId, desc: Descriptor)
    requires WellFormed(db)
    ensures WellFormed(DbUpdate(db, m, desc))
  {
    if m in db.modules {
      var u := DbUpdate(db, m, desc);
      var r := db.nextRevisionId;
      assert r !in db.revisions;
      assert r !in db.modules[m].revisions;
      forall k, x | k in u.modules && x in u.modules[k].revisions ensures x in u.revisions && u.revisions[x].owner == k {
        if k != m || x != r {
          assert x in db.modules[k].revisions;
        }
      }
      NoDupCons(db.modules[m].revisions, r);
      forall x | x in u.wiring ensures x in u.modules[u.revisions[x].owner].revisions {
        assert x in db.modules[db.revisions[x].owner].revisions;
      }
    }
  }

  lemma DbUninstallWellFormed(db: Database, m: ModuleId)
    requires WellFormed(db)
    ensures WellFormed(DbUninstall(db, m))
  {
  }

  /** Each primitive keeps the database well formed, so every outcome does. */
  lemma InstallPreservesWellFormed(db: Database, hook: CollisionHook, origin: Option<Origin>, location: string,
                                   desc: Descriptor, locationTry: LockOutcome, nameTry: LockOutcome)
    requires WellFormed(db)
    ensures WellFormed(InstallOutcome(db, hook, origin, location, desc, locationTry, nameTry).db)
  {
    DbInstallWellFormed(db, location, desc);
  }

  lemma UpdatePreservesWellFormed(db: Database, hook: CollisionHook, m: ModuleId, desc: Descriptor, nameTry: LockOutcome)
    requires WellFormed(db)
    ensures WellFormed(UpdateOutcome(db, hook, m, desc, nameTry).db)
  {
    DbUpdateWellFormed(db, m, desc);
  }
}
