/**
 * The module container: the database it guards, the read holds of the calling thread on its
 * monitor, the per-location and per-name locks held, and the thread's interrupt flag.  Its
 * operations install, update, uninstall, resolve, unresolve and refresh, and the framework
 * wiring adapter that works on bundles.
 */
module Container {
  import opened Wrappers
  import opened Lists
  import opened Graph
  import opened Closure
  import opened Unresolve
  import opened Resolve
  import opened Lifecycle

  /** The IllegalStateException and ResolutionException the container lets through. */
  datatype ContainerError = IllegalState | ResolutionFailed

  /** The contract the container relies on from its resolver: a delta names only listed revisions. */
  ghost predicate ResolverFits(resolver: Resolver) {
    forall t, c, d :: WellFormed(d) && resolver(t, c, d).Delta? ==> DeltaFits(d, resolver(t, c, d).wirings)
  }

  /** A bundle adapts to its module when the module is known; a bundle is named by its module's id. */
  method AdaptBundles(db: Database, bundles: seq<ModuleId>) returns (r: Result<seq<ModuleId>, ContainerError>)
    ensures r.Ok? <==> forall b :: b in bundles ==> b in db.modules
    ensures r.Ok? ==> r.value == bundles
    ensures r.Err? ==> r.error == IllegalState
  {
    var modules: seq<ModuleId> := [];
    var i := 0;
    while i < |bundles|
      invariant 0 <= i <= |bundles|
      invariant modules == bundles[..i]
      invariant forall b :: b in bundles[..i] ==> b in db.modules
    {
      if bundles[i] !in db.modules {
        return Err(IllegalState);
      }
      assert bundles[..i + 1] == bundles[..i] + [bundles[i]];
      modules := modules + [bundles[i]];
      i := i + 1;
    }
    assert bundles[..i] == bundles;
    return Ok(modules);
  }

  /** The bundles of the closure modules, in ascending module order; a module without a bundle gives None. */
  method ClosureBundles(db: Database, closure: set<ModuleId>) returns (result: seq<Option<ModuleId>>)
    ensures |result| == |closure|
    ensures forall i :: 0 <= i < |result| ==> result[i] == ModuleBundle(db, SortedIds(closure)[i])
  {
    var order := SortedIds(closure);
    result := [];
    var i := 0;
    while i < |order|
      invariant 0 <= i <= |order|
      invariant |result| == i
      invariant forall k :: 0 <= k < i ==> result[k] == ModuleBundle(db, order[k])
    {
      result := result + [ModuleBundle(db, order[i])];
      i := i + 1;
    }
  }

  /**
   * The outcome of the lock attempts of install or update: which locks were obtained, the
   * failure they cause, and whether an interrupt was caught.
   */
  datatype LockAttempt = LockAttempt(locationLocked: bool, nameLocked: bool, failure: Option<BundleError>, interrupt: bool)

  /**
   * The lock attempts of install, made only for a new location: the location lock first,
   * then the name lock when there is a name; an interrupt stops the attempts, and a lock
   * not obtained is a state change failure.
   */
  function TryInstallLocks(db: Database, location: string, name: Option<string>,
                           locationTry: LockOutcome, nameTry: LockOutcome): (a: LockAttempt)
    ensures a.nameLocked ==> name.Some?
    ensures a.failure.None? && location !in db.locations ==> a.locationLocked && a.nameLocked
    ensures a.interrupt ==> a.failure == Some(StateChange)
    ensures location in db.locations ==> a == LockAttempt(false, false, None, false)
  {
    if location in db.locations then LockAttempt(false, false, None, false)
    else if locationTry == Interrupted then LockAttempt(false, false, Some(StateChange), true)
    else
      var locationLocked := locationTry == Acquired;
      if name.Some? && nameTry == Interrupted then LockAttempt(locationLocked, false, Some(StateChange), true)
      else
        var nameLocked := name.Some? && nameTry == Acquired;
        LockAttempt(locationLocked, nameLocked, if locationLocked && nameLocked then None else Some(StateChange), false)
  }

  /**
   * The decision install takes once the read hold is released: a failed lock attempt, an
   * existing location (rejected when the origin cannot see it), a collision that the hook
   * leaves standing, or the database install.
   */
  method InstallDecision(db: Database, hook: CollisionHook, origin: Option<Origin>, location: string, desc: Descriptor,
                         locationTry: LockOutcome, nameTry: LockOutcome, attempt: LockAttempt, candidates: seq<ModuleId>)
    returns (r: Result<ModuleId, BundleError>, next: Database)
    requires attempt == TryInstallLocks(db, location, desc.name, locationTry, nameTry)
    requires candidates == if attempt.failure.None? && location !in db.locations
      then Candidates(db, desc.name.value, desc.version) else []
    ensures var o := InstallOutcome(db, hook, origin, location, desc, locationTry, nameTry);
      r == o.result && next == o.db && attempt.interrupt == o.interrupted
    ensures next == db || next == DbInstall(db, location, desc)
  {
    if attempt.failure.Some? {
      assert InstallOutcome(db, hook, origin, location, desc, locationTry, nameTry)
        == Outcome(Err(StateChange), db, attempt.interrupt);
      return Err(attempt.failure.value), db;
    }
    if location in db.locations {
      var existing := db.locations[location];
      if origin.Some? && existing !in origin.value.visible {
        return Err(RejectedByHook), db;
      }
      return Ok(existing), db;
    }
    if origin.Some? && CollidesAmong(hook, Installing, origin.value.bundle, candidates) {
      assert InstallOutcome(db, hook, origin, location, desc, locationTry, nameTry) == Outcome(Err(DuplicateBundle), db, false);
      return Err(DuplicateBundle), db;
    }
    assert InstallOutcome(db, hook, origin, location, desc, locationTry, nameTry)
      == Outcome(Ok(db.nextModuleId), DbInstall(db, location, desc), false);
    return Ok(db.nextModuleId), DbInstall(db, location, desc);
  }

  /**
   * The lock attempt of update: a missing name, an interrupt, or a name lock not obtained is
   * a state change failure.
   */
  function TryUpdateLock(name: Option<string>, nameTry: LockOutcome): (a: LockAttempt)
    ensures !a.locationLocked
    ensures a.nameLocked <==> name.Some? && nameTry == Acquired
    ensures a.failure.None? <==> a.nameLocked
    ensures a.interrupt <==> name.Some? && nameTry == Interrupted
  {
    if name.None? then LockAttempt(false, false, Some(StateChange), false)
    else if nameTry == Interrupted then LockAttempt(false, false, Some(StateChange), true)
    else if nameTry == Acquired then LockAttempt(false, true, None, false)
    else LockAttempt(false, false, Some(StateChange), false)
  }

  /**
   * The decision update takes once the read hold is released: a failed lock attempt, a
   * collision the hook leaves standing from the perspective of the module's bundle, or the
   * database update.
   */
  method UpdateDecision(db: Database, hook: CollisionHook, m: ModuleId, desc: Descriptor, nameTry: LockOutcome,
                        attempt: LockAttempt, candidates: seq<ModuleId>)
    returns (r: Result<(), BundleError>, next: Database)
    requires attempt == TryUpdateLock(desc.name, nameTry)
    requires candidates == if attempt.failure.None? then Candidates(db, desc.name.value, desc.version) else []
    ensures var o := UpdateOutcome(db, hook, m, desc, nameTry);
      r == o.result && next == o.db && attempt.interrupt == o.interrupted
    ensures next == db || next == DbUpdate(db, m, desc)
  {
    if attempt.failure.Some? {
      assert UpdateOutcome(db, hook, m, desc, nameTry) == Outcome(Err(StateChange), db, attempt.interrupt);
      return Err(attempt.failure.value), db;
    }
    var origin := ModuleBundle(db, m);
    if origin.Some? && CollidesAmong(hook, Updating, m, candidates) {
      assert UpdateOutcome(db, hook, m, desc, nameTry) == Outcome(Err(DuplicateBundle), db, false);
      return Err(DuplicateBundle), db;
    }
    assert UpdateOutcome(db, hook, m, desc, nameTry) == Outcome(Ok(()), DbUpdate(db, m, desc), false);
    return Ok(()), DbUpdate(db, m, desc);
  }

  /** Whichever way install decides, the database it leaves is well formed. */
  lemma InstallDecisionWellFormed(db: Database, next: Database, location: string, desc: Descriptor)
    requires WellFormed(db)
    requires next == db || next == DbInstall(db, location, desc)
    ensures WellFormed(next)
  {
    DbInstallWellFormed(db, location, desc);
  }

  /** Whichever way update decides, the database it leaves is well formed. */
  lemma UpdateDecisionWellFormed(db: Database, next: Database, m: ModuleId, desc: Descriptor)
    requires WellFormed(db)
    requires next == db || next == DbUpdate(db, m, desc)
    ensures WellFormed(next)
  {
    DbUpdateWellFormed(db, m, desc);
  }

  /** The holds after a lock attempt: one more hold of `key` when it was obtained. */
  function Acquire(held: multiset<string>, key: string, locked: bool): (after: multiset<string>)
  {
    if locked then held + multiset{key} else held
  }

  /** The holds after the release in a finally block: one hold of `key` fewer when it was obtained. */
  function Release(held: multiset<string>, key: string, locked: bool): (after: multiset<string>)
  {
    if locked then held - multiset{key} else held
  }

  /** Releasing what an attempt obtained gives back the holds from before. */
  lemma ReleaseAcquire(held: multiset<string>, key: string, locked: bool)
    ensures Release(Acquire(held, key, locked), key, locked) == held
  {
    if locked {
      assert Release(Acquire(held, key, locked), key, locked) == held + multiset{key} - multiset{key};
    }
  }

  /** A set of per-key reentrant locks: the holds of the calling thread, counted per key. */
  class LockSet {
    var held: multiset<string>

    constructor()
      ensures held == multiset{}
    {
      held := multiset{};
    }

    /** The hold a tryLock attempt leaves: one more hold of `key` when the attempt obtained it. */
    method Hold(key: string, locked: bool)
      modifies this
      ensures held == Acquire(old(held), key, locked)
    {
      if locked {
        held := held + multiset{key};
      }
    }

    /** unlock in a finally block, done only when the lock was obtained. */
    method UnlockIf(key: string, locked: bool)
      modifies this
      ensures held == Release(old(held), key, locked)
    {
      if locked {
        held := held - multiset{key};
      }
    }
  }

  class ModuleContainer {
    /** The hook that filters collision candidates. */
    const collisionHook: CollisionHook
    /** The resolver collaborator. */
    const resolver: Resolver
    /** The install location locks and the symbolic name locks. */
    const locationLocks: LockSet
    const nameLocks: LockSet
    /** The module database; None until it is set. */
    var db: Option<Database>
    /** How many read holds the calling thread has on the monitor. */
    var readHolds: nat
    /** The interrupt flag of the calling thread. */
    var interrupted: bool

    ghost predicate Valid()
      reads this
    {
      ResolverFits(resolver) && locationLocks != nameLocks && (db.Some? ==> WellFormed(db.value))
    }

    constructor(collisionHook: CollisionHook, resolver: Resolver)
      requires ResolverFits(resolver)
      ensures Valid()
      ensures this.collisionHook == collisionHook && this.resolver == resolver
      ensures db == None && readHolds == 0 && !interrupted
      ensures locationLocks.held == multiset{} && nameLocks.held == multiset{}
    {
      this.collisionHook := collisionHook;
      this.resolver := resolver;
      locationLocks := new LockSet();
      nameLocks := new LockSet();
      db := None;
      readHolds := 0;
      interrupted := false;
    }

    /** setModuleDataBase: fails when a database is already set. */
    method SetModuleDataBase(moduleDataBase: Database) returns (r: Result<(), ContainerError>)
      requires Valid() && WellFormed(moduleDataBase)
      modifies this
      ensures Valid()
      ensures old(db).Some? ==> r == Err(IllegalState) && db == old(db)
      ensures old(db).None? ==> r == Ok(()) && db == Some(moduleDataBase)
      ensures readHolds == old(readHolds) && interrupted == old(interrupted)
    {
      if db.Some? {
        return Err(IllegalState);
      }
      db := Some(moduleDataBase);
      return Ok(());
    }

    /** getModules: the installed modules, sorted by id. */
    method GetModules() returns (modules: seq<ModuleId>)
      requires db.Some?
      ensures StrictlyIncreasing(modules)
      ensures forall m :: m in modules <==> m in db.value.locations.Values
    {
      modules := SortedIds(db.value.locations.Values);
    }

    /** The holds the lock attempts leave. */
    method HoldLocks(location: string, name: string, attempt: LockAttempt)
      requires locationLocks != nameLocks
      modifies locationLocks, nameLocks
      ensures locationLocks.held == Acquire(old(locationLocks.held), location, attempt.locationLocked)
      ensures nameLocks.held == Acquire(old(nameLocks.held), name, attempt.nameLocked)
    {
      locationLocks.Hold(location, attempt.locationLocked);
      nameLocks.Hold(name, attempt.nameLocked);
    }

    /** The finally block: every lock the attempts obtained is released. */
    method ReleaseLocks(location: string, name: string, attempt: LockAttempt,
                        ghost locationsBefore: multiset<string>, ghost namesBefore: multiset<string>)
      requires locationLocks != nameLocks
      requires locationLocks.held == Acquire(locationsBefore, location, attempt.locationLocked)
      requires nameLocks.held == Acquire(namesBefore, name, attempt.nameLocked)
      modifies locationLocks, nameLocks
      ensures locationLocks.held == locationsBefore && nameLocks.held == namesBefore
    {
      ReleaseAcquire(locationsBefore, location, attempt.locationLocked);
      ReleaseAcquire(namesBefore, name, attempt.nameLocked);
      locationLocks.UnlockIf(location, attempt.locationLocked);
      nameLocks.UnlockIf(name, attempt.nameLocked);
    }

    /**
     * install: looks up the location and, when it is new, attempts both locks and collects
     * the collision candidates under a read hold; an existing location is returned or
     * rejected; with an origin the hook filters the candidates and any left is a duplicate;
     * then the database installs.  Every lock obtained is released on every exit.
     */
    method Install(origin: Option<Origin>, location: string, desc: Descriptor,
                   locationTry: LockOutcome, nameTry: LockOutcome) returns (r: Result<ModuleId, BundleError>)
      requires Valid() && db.Some?
      modifies this, locationLocks, nameLocks
      ensures Valid()
      ensures var o := InstallOutcome(old(db.value), collisionHook, origin, location, desc, locationTry, nameTry);
        r == o.result && db == Some(o.db) && interrupted == (old(interrupted) || o.interrupted)
      ensures readHolds == old(readHolds)
      ensures locationLocks.held == old(locationLocks.held) && nameLocks.held == old(nameLocks.held)
    {
      ghost var before := db.value;
      var name := if desc.name.Some? then desc.name.value else "";
      var attempt := TryInstallLocks(db.value, location, desc.name, locationTry, nameTry);
      HoldLocks(location, name, attempt);
      r := InstallUnderLocks(origin, location, desc, locationTry, nameTry, attempt);
      ReleaseLocks(location, name, attempt, old(locationLocks.held), old(nameLocks.held));
      InstallDecisionWellFormed(before, db.value, location, desc);
    }

    /** The steps of install taken while the lock attempts stand. */
    method InstallUnderLocks(origin: Option<Origin>, location: string, desc: Descriptor,
                             locationTry: LockOutcome, nameTry: LockOutcome, attempt: LockAttempt)
      returns (r: Result<ModuleId, BundleError>)
      requires db.Some? && attempt == TryInstallLocks(db.value, location, desc.name, locationTry, nameTry)
      modifies this
      ensures var o := InstallOutcome(old(db.value), collisionHook, origin, location, desc, locationTry, nameTry);
        r == o.result && db == Some(o.db) && interrupted == (old(interrupted) || o.interrupted)
      ensures db.value == old(db.value) || db.value == DbInstall(old(db.value), location, desc)
      ensures readHolds == old(readHolds)
    {
      var current := db.value;
      readHolds := readHolds + 1;
      var candidates: seq<ModuleId> := [];
      if attempt.failure.None? && location !in current.locations {
        candidates := CollectCandidates(current, NamedRevisions(current, desc.name.value, desc.version));
      }
      readHolds := readHolds - 1;
      var next;
      r, next := InstallDecision(current, collisionHook, origin, location, desc, locationTry, nameTry, attempt, candidates);
      db, interrupted := Some(next), interrupted || attempt.interrupt;
    }

    /**
     * update: attempts the name lock and collects the collision candidates under a read
     * hold; when the module has a bundle the hook filters the candidates from its
     * perspective and any left is a duplicate; then the database updates.  The name lock is
     * released on every exit.
     */
    method Update(m: ModuleId, desc: Descriptor, nameTry: LockOutcome) returns (r: Result<(), BundleError>)
      requires Valid() && db.Some?
      modifies this, locationLocks, nameLocks
      ensures Valid()
      ensures var o := UpdateOutcome(old(db.value), collisionHook, m, desc, nameTry);
        r == o.result && db == Some(o.db) && interrupted == (old(interrupted) || o.interrupted)
      ensures readHolds == old(readHolds)
      ensures locationLocks.held == old(locationLocks.held) && nameLocks.held == old(nameLocks.held)
    {
      ghost var before := db.value;
      var name := if desc.name.Some? then desc.name.value else "";
      var attempt := TryUpdateLock(desc.name, nameTry);
      HoldLocks("", name, attempt);
      r := UpdateUnderLock(m, desc, nameTry, attempt);
      ReleaseLocks("", name, attempt, old(locationLocks.held), old(nameLocks.held));
      UpdateDecisionWellFormed(before, db.value, m, desc);
    }

    /** The steps of update taken while the lock attempt stands. */
    method UpdateUnderLock(m: ModuleId, desc: Descriptor, nameTry: LockOutcome, attempt: LockAttempt)
      returns (r: Result<(), BundleError>)
      requires db.Some? && attempt == TryUpdateLock(desc.name, nameTry)
      modifies this
      ensures var o := UpdateOutcome(old(db.value), collisionHook, m, desc, nameTry);
        r == o.result && db == Some(o.db) && interrupted == (old(interrupted) || o.interrupted)
      ensures db.value == old(db.value) || db.value == DbUpdate(old(db.value), m, desc)
      ensures readHolds == old(readHolds)
    {
      var current := db.value;
      readHolds := readHolds + 1;
      var candidates: seq<ModuleId> := [];
      if attempt.failure.None? {
        candidates := CollectCandidates(current, NamedRevisions(current, desc.name.value, desc.version));
      }
      readHolds := readHolds - 1;
      var next;
      r, next := UpdateDecision(current, collisionHook, m, desc, nameTry, attempt, candidates);
      db, interrupted := Some(next), interrupted || attempt.interrupt;
    }

    /** uninstall: the database uninstalls the module under the write lock. */
    method Uninstall(m: ModuleId)
      requires Valid() && db.Some?
      modifies this
      ensures Valid()
      ensures db == Some(DbUninstall(old(db.value), m))
      ensures readHolds == old(readHolds) && interrupted == old(interrupted)
    {
      DbUninstallWellFormed(db.value, m);
      db := Some(DbUninstall(db.value, m));
    }

    /**
     * resolve: under a read hold, reduces the triggers to their current revisions and asks
     * the resolver for a delta against a snapshot of the wiring map; a failure or an empty
     * delta writes nothing; otherwise the delta is merged under the write lock.
     */
    method Resolve(triggers: seq<ModuleId>) returns (r: Result<(), ContainerError>)
      requires Valid() && db.Some?
      modifies this
      ensures Valid() && db.Some?
      ensures var before := old(db.value);
        match resolver(CurrentRevisions(before, triggers), before.wiring, before)
        case Failed => r == Err(ResolutionFailed) && db == old(db)
        case Delta(delta) =>
          && r == Ok(())
          && (delta == map[] ==> db == old(db))
          && (delta != map[] ==> DeltaApplied(before, delta, db.value))
      ensures readHolds == old(readHolds) && interrupted == old(interrupted)
    {
      readHolds := readHolds + 1;
      var current := db.value;
      var wiringCopy := current.wiring;
      var triggerRevisions := TriggerRevisions(current, triggers);
      var resolution := resolver(triggerRevisions, wiringCopy, current);
      if resolution.Failed? {
        readHolds := readHolds - 1;
        return Err(ResolutionFailed);
      }
      if resolution.wirings == map[] {
        readHolds := readHolds - 1;
        return Ok(());
      }
      var merged := ApplyDelta(current, resolution.wirings);
      DeltaAppliedWellFormed(current, resolution.wirings, merged);
      db := Some(merged);
      readHolds := readHolds - 1;
      return Ok(());
    }

    /**
     * unresolve: fails unless the calling thread holds the monitor for reading; otherwise
     * unresolves the refresh closure of `initial` and returns that closure.
     */
    method Unresolve(initial: seq<ModuleId>) returns (r: Result<set<ModuleId>, ContainerError>)
      requires Valid() && db.Some?
      modifies this
      ensures Valid() && db.Some?
      ensures old(readHolds) == 0 ==> r == Err(IllegalState) && db == old(db)
      ensures old(readHolds) > 0 ==>
        && r == Ok(RefreshClosureSet(old(db.value), initial))
        && db == Some(UnresolveResult(old(db.value), r.value))
      ensures readHolds == old(readHolds) && interrupted == old(interrupted)
    {
      if readHolds == 0 {
        return Err(IllegalState);
      }
      var current := db.value;
      var unresolved, closure := UnresolveDatabase(current, initial);
      UnresolvePreservesWellFormed(current, closure);
      db := Some(unresolved);
      return Ok(closure);
    }

    /**
     * refresh: under a read hold, unresolves the refresh closure of `initial` and resolves
     * the closure modules again (in ascending id order).  A resolution failure leaves the
     * closure unresolved.
     */
    method Refresh(initial: seq<ModuleId>) returns (r: Result<(), ContainerError>)
      requires Valid() && db.Some?
      modifies this
      ensures Valid() && db.Some?
      ensures var closure := RefreshClosureSet(old(db.value), initial);
        var unresolved := UnresolveResult(old(db.value), closure);
        match resolver(CurrentRevisions(unresolved, SortedIds(closure)), unresolved.wiring, unresolved)
        case Failed => r == Err(ResolutionFailed) && db == Some(unresolved)
        case Delta(delta) =>
          && r == Ok(())
          && (delta == map[] ==> db == Some(unresolved))
          && (delta != map[] ==> DeltaApplied(unresolved, delta, db.value))
      ensures readHolds == old(readHolds) && interrupted == old(interrupted)
    {
      readHolds := readHolds + 1;
      var unresolved := Unresolve(initial);
      r := Resolve(SortedIds(unresolved.value));
      readHolds := readHolds - 1;
    }

    /**
     * resolveBundles: adapts the bundles, resolves them, and answers whether the resolution
     * succeeded and every module's current revision ended up with a wiring.
     */
    method ResolveBundles(bundles: seq<ModuleId>) returns (r: Result<bool, ContainerError>)
      requires Valid() && db.Some?
      modifies this
      ensures Valid() && db.Some?
      ensures (exists b :: b in bundles && b !in old(db.value).modules) ==> r == Err(IllegalState) && db == old(db)
      ensures (forall b :: b in bundles ==> b in old(db.value).modules) ==>
        && r.Ok?
        && (r.value <==> resolver(CurrentRevisions(old(db.value), bundles), old(db.value).wiring, old(db.value)).Delta?
                         && AllResolved(db.value, bundles))
      ensures readHolds == old(readHolds) && interrupted == old(interrupted)
    {
      var modules := AdaptBundles(db.value, bundles);
      if modules.Err? {
        return Err(modules.error);
      }
      var resolved := Resolve(modules.value);
      if resolved.Err? {
        return Ok(false);
      }
      var ok := CheckResolved(db.value, modules.value);
      return Ok(ok);
    }

    /**
     * getDependencyClosure of the framework wiring: adapts the bundles and answers the
     * bundles of their refresh closure.
     */
    method DependencyClosureBundles(bundles: seq<ModuleId>) returns (r: Result<seq<Option<ModuleId>>, ContainerError>)
      requires db.Some?
      ensures (exists b :: b in bundles && b !in db.value.modules) ==> r == Err(IllegalState)
      ensures (forall b :: b in bundles ==> b in db.value.modules) ==>
        && r.Ok?
        && |r.value| == |RefreshClosureSet(db.value, bundles)|
        && forall i :: 0 <= i < |r.value| ==> r.value[i] == ModuleBundle(db.value, SortedIds(RefreshClosureSet(db.value, bundles))[i])
    {
      var modules := AdaptBundles(db.value, bundles);
      if modules.Err? {
        return Err(modules.error);
      }
      var closure := RefreshClosure(db.value, modules.value);
      var result := ClosureBundles(db.value, closure);
      return Ok(result);
    }
  }
}
