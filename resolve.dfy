/**
 * Applying a resolution: the triggers are reduced to their current revisions, the resolver
 * computes a delta from a snapshot of the wiring map, and the delta is merged: a revision
 * that already had a wiring keeps that wiring object with its wires replaced, a newly
 * resolved revision gets a new wiring object, and the wiring map takes every delta entry.
 */
module Resolve {
  import opened Wrappers
  import opened Lists
  import opened Graph

  /** The wires the resolver computed for one revision. */
  datatype DeltaWiring = DeltaWiring(provided: seq<Wire>, required: seq<Wire>)

  /** The resolver's answer: a ResolutionException, or the delta of new wirings. */
  datatype Resolution = Failed | Delta(wirings: map<RevisionId, DeltaWiring>)

  /**
   * The resolver collaborator: given the trigger revisions, the snapshot of the wiring map
   * and the database, it computes the resolution.
   */
  type Resolver = (seq<RevisionId>, map<RevisionId, WiringId>, Database) -> Resolution

  /** The current revisions of the triggers, in trigger order, skipping modules without one. */
  function CurrentRevisions(db: Database, triggers: seq<ModuleId>): (revs: seq<RevisionId>)
    ensures |revs| <= |triggers|
    ensures forall x :: x in revs <==> exists m :: m in triggers && CurrentRevision(db, m) == Some(x)
  {
    if triggers == [] then []
    else
      var init := triggers[..|triggers| - 1];
      var last := triggers[|triggers| - 1];
      assert forall m :: m in triggers <==> m in init || m == last;
      var before := CurrentRevisions(db, init);
      match CurrentRevision(db, last)
      case Some(r) => before + [r]
      case None => before
  }

  /** The loop that collects the trigger revisions. */
  method TriggerRevisions(db: Database, triggers: seq<ModuleId>) returns (revs: seq<RevisionId>)
    ensures revs == CurrentRevisions(db, triggers)
  {
    revs := [];
    var i := 0;
    while i < |triggers|
      invariant 0 <= i <= |triggers|
      invariant revs == CurrentRevisions(db, triggers[..i])
    {
      assert triggers[..i + 1][..i] == triggers[..i];
      var current := CurrentRevision(db, triggers[i]);
      if current.Some? {
        revs := revs + [current.value];
      }
      i := i + 1;
    }
    assert triggers[..i] == triggers;
  }

  /** The delta only names revisions listed in their module's history, as the resolver's do. */
  ghost predicate DeltaFits(db: Database, delta: map<RevisionId, DeltaWiring>) {
    forall x :: x in delta ==>
      x in db.revisions && db.revisions[x].owner in db.modules && x in db.modules[db.revisions[x].owner].revisions
  }

  /** A wiring handle that the merge reuses: the wiring of a delta revision that was resolved. */
  predicate Reused(db: Database, delta: map<RevisionId, DeltaWiring>, h: WiringId) {
    h in db.wirings && db.wirings[h].revision in delta && db.wirings[h].revision in db.wiring
    && db.wiring[db.wirings[h].revision] == h
  }

  /**
   * The wiring arena `wirings` with next handle `next` is the arena of `db` grown by the
   * fresh handles `db.nextWiringId <= h < next`.
   */
  ghost predicate ArenaGrown(db: Database, wirings: map<WiringId, Wiring>, next: nat) {
    && db.nextWiringId <= next
    && (forall h :: h in wirings <==> h in db.wirings || db.nextWiringId <= h < next)
  }

  /**
   * The delta entry for `x` is applied in `wirings` with the handle `h`: a revision resolved
   * before keeps its wiring object, which takes the new wires; a newly resolved revision
   * gets a new valid wiring object holding them.
   */
  ghost predicate EntryApplied(db: Database, delta: map<RevisionId, DeltaWiring>, wirings: map<WiringId, Wiring>,
                               next: nat, x: RevisionId, h: WiringId)
    requires x in delta
  {
    if x in db.wiring then
      h == db.wiring[x] && h in wirings
      && (h in db.wirings ==> wirings[h] == db.wirings[h].(provided := delta[x].provided, required := delta[x].required))
    else
      db.nextWiringId <= h < next && h in wirings
      && wirings[h] == Wiring(x, delta[x].provided, delta[x].required, true)
  }

  /** The wiring objects no entry of `done` reuses are untouched. */
  ghost predicate OthersUntouched(db: Database, delta: map<RevisionId, DeltaWiring>, done: set<RevisionId>,
                                  wirings: map<WiringId, Wiring>) {
    forall h :: h in db.wirings && !(Reused(db, delta, h) && db.wirings[h].revision in done) ==>
      h in wirings && wirings[h] == db.wirings[h]
  }

  /**
   * The database `r` is `db` with `delta` merged: every delta entry is applied
   * (EntryApplied), the wiring map keeps its other entries, the other wiring objects are
   * untouched, and nothing else changes.
   */
  ghost predicate DeltaApplied(db: Database, delta: map<RevisionId, DeltaWiring>, r: Database) {
    && r.modules == db.modules && r.revisions == db.revisions && r.locations == db.locations
    && r.capabilities == db.capabilities
    && r.nextModuleId == db.nextModuleId && r.nextRevisionId == db.nextRevisionId
    && ArenaGrown(db, r.wirings, r.nextWiringId)
    && r.wiring.Keys == db.wiring.Keys + delta.Keys
    && (forall x :: x in db.wiring && x !in delta ==> r.wiring[x] == db.wiring[x])
    && (forall x :: x in delta ==> EntryApplied(db, delta, r.wirings, r.nextWiringId, x, r.wiring[x]))
    && OthersUntouched(db, delta, delta.Keys, r.wirings)
  }

  /** What the merge loop has done once the delta revisions `done` are processed. */
  ghost predicate Merging(db: Database, delta: map<RevisionId, DeltaWiring>, done: set<RevisionId>,
                          wirings: map<WiringId, Wiring>, next: nat, merged: map<RevisionId, WiringId>) {
    && done <= delta.Keys
    && merged.Keys == done
    && ArenaGrown(db, wirings, next)
    && (forall x :: x in done ==> EntryApplied(db, delta, wirings, next, x, merged[x]))
    && OthersUntouched(db, delta, done, wirings)
  }

  /**
   * The write section of resolve: each delta entry whose revision had a wiring in the
   * snapshot gets its wires copied onto that wiring object, which replaces the entry's
   * value; any other entry is a new wiring object; then the wiring map merges the delta.
   * Entries are taken in ascending revision order.
   */
  method ApplyDelta(db: Database, delta: map<RevisionId, DeltaWiring>) returns (r: Database)
    requires WiringMapWellFormed(db) && IndexesWellFormed(db)
    ensures DeltaApplied(db, delta, r)
  {
    var keys := SortedIds(delta.Keys);
    var wirings, next := db.wirings, db.nextWiringId;
    var merged: map<RevisionId, WiringId> := map[];
    var i := 0;
    MergingStart(db, delta, keys);
    while i < |keys|
      invariant 0 <= i <= |keys|
      invariant Merging(db, delta, Elements(keys[..i]), wirings, next, merged)
    {
      wirings, next, merged := MergeEntry(db, delta, keys, i, wirings, next, merged);
      i := i + 1;
    }
    MergingDone(delta, keys);
    r := db.(wirings := wirings, nextWiringId := next, wiring := db.wiring + merged);
    MergedIsApplied(db, delta, wirings, next, merged);
  }

  lemma MergingStart(db: Database, delta: map<RevisionId, DeltaWiring>, keys: seq<RevisionId>)
    ensures Merging(db, delta, Elements(keys[..0]), db.wirings, db.nextWiringId, map[])
  {
    assert Elements(keys[..0]) == {};
  }

  lemma MergingDone(delta: map<RevisionId, DeltaWiring>, keys: seq<RevisionId>)
    requires forall x :: x in keys <==> x in delta
    ensures Elements(keys[..|keys|]) == delta.Keys
  {
    assert keys[..|keys|] == keys;
  }

  /** Once every entry is processed, merging the handles into the wiring map completes the delta. */
  lemma MergedIsApplied(db: Database, delta: map<RevisionId, DeltaWiring>,
                        wirings: map<WiringId, Wiring>, next: nat, merged: map<RevisionId, WiringId>)
    requires Merging(db, delta, delta.Keys, wirings, next, merged)
    ensures DeltaApplied(db, delta, db.(wirings := wirings, nextWiringId := next, wiring := db.wiring + merged))
  {
    var r := db.(wirings := wirings, nextWiringId := next, wiring := db.wiring + merged);
    forall x | x in delta ensures EntryApplied(db, delta, r.wirings, r.nextWiringId, x, r.wiring[x]) {
      assert r.wiring[x] == merged[x];
    }
  }

  /** One iteration of the merge loop, on the entry of `keys[i]`. */
  method MergeEntry(db: Database, delta: map<RevisionId, DeltaWiring>, keys: seq<RevisionId>, i: nat,
                    wirings: map<WiringId, Wiring>, next: nat, merged: map<RevisionId, WiringId>)
    returns (wirings': map<WiringId, Wiring>, next': nat, merged': map<RevisionId, WiringId>)
    requires WiringMapWellFormed(db) && IndexesWellFormed(db)
    requires StrictlyIncreasing(keys) && i < |keys| && keys[i] in delta
    requires Merging(db, delta, Elements(keys[..i]), wirings, next, merged)
    ensures Merging(db, delta, Elements(keys[..i + 1]), wirings', next', merged')
  {
    var x := keys[i];
    ghost var done := Elements(keys[..i]);
    SortedNotEarlier(keys, i);
    assert keys[..i + 1] == keys[..i] + [x];
    ElementsAppend(keys[..i], x);
    if x in db.wiring {
      wirings', merged' := ReuseWiring(db, delta, done, wirings, next, merged, x);
      next' := next;
    } else {
      wirings', next', merged' := NewWiring(db, delta, done, wirings, next, merged, x);
    }
  }

  lemma SortedNotEarlier(keys: seq<nat>, i: nat)
    requires StrictlyIncreasing(keys) && i < |keys|
    ensures keys[i] !in Elements(keys[..i])
  {
    assert forall k :: 0 <= k < i ==> keys[..i][k] == keys[k] && keys[k] < keys[i];
  }

  /** A revision resolved before: its wiring object takes the new wires. */
  method ReuseWiring(db: Database, delta: map<RevisionId, DeltaWiring>, ghost done: set<RevisionId>,
                     wirings: map<WiringId, Wiring>, next: nat, merged: map<RevisionId, WiringId>, x: RevisionId)
    returns (wirings': map<WiringId, Wiring>, merged': map<RevisionId, WiringId>)
    requires WiringMapWellFormed(db) && IndexesWellFormed(db)
    requires Merging(db, delta, done, wirings, next, merged)
    requires x in delta && x !in done && x in db.wiring
    ensures Merging(db, delta, done + {x}, wirings', next, merged')
  {
    var h := db.wiring[x];
    assert Reused(db, delta, h);
    var current := wirings[h];
    wirings' := wirings[h := current.(provided := delta[x].provided, required := delta[x].required)];
    merged' := merged[x := h];
    ReuseKeepsEntries(db, delta, done, wirings, next, merged, x);
    forall y | y in done ensures EntryApplied(db, delta, wirings', next, y, merged'[y]) {
      assert EntryApplied(db, delta, wirings, next, y, merged[y]);
    }
    assert EntryApplied(db, delta, wirings', next, x, merged'[x]);
  }

  lemma ReuseKeepsEntries(db: Database, delta: map<RevisionId, DeltaWiring>, done: set<RevisionId>,
                          wirings: map<WiringId, Wiring>, next: nat, merged: map<RevisionId, WiringId>, x: RevisionId)
    requires WiringMapWellFormed(db) && IndexesWellFormed(db)
    requires Merging(db, delta, done, wirings, next, merged)
    requires x in delta && x !in done && x in db.wiring
    ensures forall y :: y in done ==> merged[y] != db.wiring[x]
  {
    forall y | y in done ensures merged[y] != db.wiring[x] {
      assert EntryApplied(db, delta, wirings, next, y, merged[y]);
      if y in db.wiring {
        assert db.wirings[db.wiring[y]].revision == y;
      }
    }
  }

  /** A newly resolved revision: a new wiring object with the new wires. */
  method NewWiring(db: Database, delta: map<RevisionId, DeltaWiring>, ghost done: set<RevisionId>,
                   wirings: map<WiringId, Wiring>, next: nat, merged: map<RevisionId, WiringId>, x: RevisionId)
    returns (wirings': map<WiringId, Wiring>, next': nat, merged': map<RevisionId, WiringId>)
    requires IndexesWellFormed(db)
    requires Merging(db, delta, done, wirings, next, merged)
    requires x in delta && x !in done && x !in db.wiring
    ensures Merging(db, delta, done + {x}, wirings', next', merged')
  {
    var h := next;
    assert h !in wirings;
    wirings' := wirings[h := Wiring(x, delta[x].provided, delta[x].required, true)];
    next' := h + 1;
    merged' := merged[x := h];
    forall y | y in done ensures EntryApplied(db, delta, wirings', next', y, merged'[y]) {
      assert EntryApplied(db, delta, wirings, next, y, merged[y]);
    }
  }

  /** After the merge every delta revision is resolved by a wiring that holds the delta's wires. */
  lemma DeltaAppliedResolves(db: Database, delta: map<RevisionId, DeltaWiring>, r: Database, x: RevisionId)
    requires WiringMapWellFormed(db) && IndexesWellFormed(db) && DeltaApplied(db, delta, r)
    requires x in delta
    ensures Wired(r, x) && Provided(r, x) == delta[x].provided && Required(r, x) == delta[x].required
    ensures x in db.wiring ==> r.wiring[x] == db.wiring[x]
    ensures x !in db.wiring ==> r.wiring[x] !in db.wirings
  {
    assert EntryApplied(db, delta, r.wirings, r.nextWiringId, x, r.wiring[x]);
  }

  /** Merging a delta that fits keeps the database well formed. */
  lemma DeltaAppliedWellFormed(db: Database, delta: map<RevisionId, DeltaWiring>, r: Database)
    requires WellFormed(db) && DeltaFits(db, delta) && DeltaApplied(db, delta, r)
    ensures WellFormed(r)
  {
    assert HistoriesWellFormed(r);
    forall x | x in r.wiring ensures r.wiring[x] in r.wirings && r.wirings[r.wiring[x]].revision == x {
      if x in delta {
        assert EntryApplied(db, delta, r.wirings, r.nextWiringId, x, r.wiring[x]);
      } else {
        assert !Reused(db, delta, db.wiring[x]);
      }
    }
  }

  /** resolveBundles succeeds when every module's current revision has a wiring. */
  predicate AllResolved(db: Database, modules: seq<ModuleId>) {
    forall m :: m in modules ==> CurrentRevision(db, m).Some? && Wired(db, CurrentRevision(db, m).value)
  }

  /** The loop of resolveBundles that looks for a module whose current revision has no wiring. */
  method CheckResolved(db: Database, modules: seq<ModuleId>) returns (ok: bool)
    ensures ok <==> AllResolved(db, modules)
  {
    var i := 0;
    while i < |modules|
      invariant 0 <= i <= |modules|
      invariant AllResolved(db, modules[..i])
    {
      var current := CurrentRevision(db, modules[i]);
      if current.None? || !Wired(db, current.value) {
        assert modules[i] in modules;
        return false;
      }
      assert modules[..i + 1] == modules[..i] + [modules[i]];
      i := i + 1;
    }
    assert modules[..i] == modules;
    return true;
  }
}
