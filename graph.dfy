/**
 * The objects the module container works on (modules, their revision histories, revisions,
 * wirings and wires) as an arena of integer handles, together with the state of the module
 * database that indexes them.  A handle stands for Java object identity: two wirings are the
 * same object exactly when their handles are equal.
 */
module Graph {
  import opened Wrappers
  import opened Lists

  type ModuleId = nat
  type RevisionId = nat
  type WiringId = nat

  /** The namespace of the wire that attaches a fragment to its host. */
  const HostNamespace: string := "osgi.wiring.host"

  datatype Version = Version(major: nat, minor: nat, micro: nat, qualifier: string)

  /**
   * A wire from a requirer revision to a provider revision in some namespace; it also records
   * the provider's wiring object.  `id` makes distinct wire objects distinct values, so value
   * equality is the identity the Java collections use.
   */
  datatype Wire = Wire(id: nat, requirer: RevisionId, provider: RevisionId, providerWiring: WiringId, namespace: string)

  /** A wiring object: the wires it provides and requires, and whether it has been invalidated. */
  datatype Wiring = Wiring(revision: RevisionId, provided: seq<Wire>, required: seq<Wire>, valid: bool)

  /** An immutable revision description. */
  datatype Revision = Revision(owner: ModuleId, name: Option<string>, version: Version, isFragment: bool)

  /**
   * A module object with its revision history (the current revision listed first), the
   * uninstalled mark of that history, and whether it has a bundle object.
   */
  datatype Module = Module(location: string, revisions: seq<RevisionId>, uninstalled: bool, hasBundle: bool)

  /**
   * The module database: the arenas of module, revision and wiring objects, the location
   * index of installed modules, the wiring map (revision to its wiring), the revisions whose
   * capabilities are indexed by name and version, and the next handles to assign (a fresh
   * handle models the allocation of a new Java object).
   */
  datatype Database = Database(
    modules: map<ModuleId, Module>,
    revisions: map<RevisionId, Revision>,
    wirings: map<WiringId, Wiring>,
    locations: map<string, ModuleId>,
    wiring: map<RevisionId, WiringId>,
    capabilities: set<RevisionId>,
    nextModuleId: nat,
    nextRevisionId: nat,
    nextWiringId: nat)

  /** A revision is resolved when the wiring map gives it a wiring object. */
  predicate Wired(db: Database, r: RevisionId) {
    r in db.wiring && db.wiring[r] in db.wirings
  }

  /** The wires provided by the wiring of `r` (none when `r` is unresolved). */
  function Provided(db: Database, r: RevisionId): seq<Wire> {
    if Wired(db, r) then db.wirings[db.wiring[r]].provided else []
  }

  /** The wires required by the wiring of `r` (none when `r` is unresolved). */
  function Required(db: Database, r: RevisionId): seq<Wire> {
    if Wired(db, r) then db.wirings[db.wiring[r]].required else []
  }

  predicate IsFragment(db: Database, r: RevisionId) {
    r in db.revisions && db.revisions[r].isFragment
  }

  /** The module that owns revision `r`, if `r` is known. */
  function ModuleOf(db: Database, r: RevisionId): Option<ModuleId> {
    if r in db.revisions then Some(db.revisions[r].owner) else None
  }

  /** The modules that own some known revision. */
  function RevisionModules(db: Database): set<ModuleId> {
    set r | r in db.revisions :: db.revisions[r].owner
  }

  /**
   * The current revision of a module: the first one of its history, and none once the
   * history is marked uninstalled.
   */
  function CurrentRevision(db: Database, m: ModuleId): (c: Option<RevisionId>)
    ensures c.Some? ==> m in db.modules && c.value in db.modules[m].revisions
    ensures c.None? <==> m !in db.modules || db.modules[m].uninstalled || db.modules[m].revisions == []
  {
    if m in db.modules && !db.modules[m].uninstalled && db.modules[m].revisions != [] then
      Some(db.modules[m].revisions[0])
    else
      None
  }

  /**
   * The structural facts Java's object references give for free: a listed revision knows
   * its module, a resolved revision is listed in its module's history, and every index names
   * existing objects.
   */
  ghost predicate WellFormed(db: Database) {
    HistoriesWellFormed(db) && WiringMapWellFormed(db) && IndexesWellFormed(db)
  }

  /** Every listed revision knows its module, and no history lists a revision twice. */
  ghost predicate HistoriesWellFormed(db: Database) {
    && (forall m, r :: m in db.modules && r in db.modules[m].revisions ==> r in db.revisions && db.revisions[r].owner == m)
    && (forall m :: m in db.modules ==> NoDup(db.modules[m].revisions))
  }

  /**
   * A resolved revision has an existing wiring object of its own and is listed in its
   * module's history.
   */
  ghost predicate WiringMapWellFormed(db: Database) {
    && (forall r :: r in db.wiring ==> db.wiring[r] in db.wirings && db.wirings[db.wiring[r]].revision == r)
    && (forall r :: r in db.wiring ==>
          && r in db.revisions && db.revisions[r].owner in db.modules
          && r in db.modules[db.revisions[r].owner].revisions)
  }

  /** The location index and the capability index name existing objects; handles are fresh. */
  ghost predicate IndexesWellFormed(db: Database) {
    && (forall loc :: loc in db.locations ==> db.locations[loc] in db.modules)
    && (forall m :: m in db.modules ==> m < db.nextModuleId)
    && (forall r :: r in db.revisions ==> r < db.nextRevisionId)
    && (forall h :: h in db.wirings ==> h < db.nextWiringId)
    && db.capabilities <= db.revisions.Keys
  }

  /**
   * Bidirectional wire consistency: every required wire of a resolved revision is in the
   * provided list of its provider's wiring, and every provided wire is in the required list
   * of its requirer's wiring.
   */
  ghost predicate Consistent(db: Database) {
    RequiredConsistent(db) && ProvidedConsistent(db)
  }

  ghost predicate RequiredConsistent(db: Database) {
    forall r, w :: w in Required(db, r) ==> RequiredWireHolds(db, r, w)
  }

  /** A wire `r` requires names `r`, and its provider is wired, under that wiring, and lists it. */
  ghost predicate RequiredWireHolds(db: Database, r: RevisionId, w: Wire) {
    w.requirer == r && Wired(db, w.provider) && w.providerWiring == db.wiring[w.provider]
    && w in Provided(db, w.provider)
  }

  ghost predicate ProvidedConsistent(db: Database) {
    forall r, w :: w in Provided(db, r) ==> ProvidedWireHolds(db, r, w)
  }

  /** A wire `r` provides names `r` and `r`'s wiring, and its requirer is wired and lists it. */
  ghost predicate ProvidedWireHolds(db: Database, r: RevisionId, w: Wire)
    requires r in db.wiring
  {
    w.provider == r && w.providerWiring == db.wiring[r] && Wired(db, w.requirer)
    && w in Required(db, w.requirer)
  }

  predicate StrictlyIncreasing(s: seq<nat>) {
    forall i, j :: 0 <= i < j < |s| ==> s[i] < s[j]
  }

  lemma {:induction false} MinExists(s: set<nat>)
    requires s != {}
    ensures exists m :: m in s && forall x :: x in s ==> m <= x
  {
    var y :| y in s;
    var least := y;
    if s - {y} != {} {
      MinExists(s - {y});
      var m :| m in s - {y} && forall x :: x in s - {y} ==> m <= x;
      least := if y < m then y else m;
    }
    forall x | x in s ensures least <= x {
      if x != y {
        assert x in s - {y};
      }
    }
    assert least in s;
  }

  /** The least element of a non-empty finite set of handles. */
  function Least(s: set<nat>): (m: nat)
    requires s != {}
    ensures m in s && forall x :: x in s ==> m <= x
  {
    MinExists(s);
    var m :| m in s && forall x :: x in s ==> m <= x;
    m
  }

  /** The elements of a finite set of handles in ascending order. */
  function SortedIds(s: set<nat>): (r: seq<nat>)
    ensures StrictlyIncreasing(r)
    ensures forall x :: x in r <==> x in s
    ensures |r| == |s|
    decreases |s|
  {
    if s == {} then []
    else
      var m := Least(s);
      var rest := SortedIds(s - {m});
      assert forall x :: x in rest ==> m < x;
      [m] + rest
  }
}
