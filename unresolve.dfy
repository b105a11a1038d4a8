/**
 * Unresolving a refresh closure: every revision listed by a closure module loses its entry
 * in the wiring map, the wirings so removed are invalidated, the wires they required are
 * pruned from the provided lists of their providers' wirings, and each closure module's
 * history shrinks to its current revision (to nothing once the history is uninstalled),
 * the dropped revisions leaving the capability index.
 */
module Unresolve {
  import opened Wrappers
  import opened Lists
  import opened Graph
  import opened Closure

  /** The revision history of `m` (none for an unknown module). */
  function History(db: Database, m: ModuleId): seq<RevisionId> {
    if m in db.modules then db.modules[m].revisions else []
  }

  predicate HistoryUninstalled(db: Database, m: ModuleId) {
    m in db.modules && db.modules[m].uninstalled
  }

  /**
   * The revisions of one module that unresolve drops: every one but the current revision,
   * or all of them once the history is marked uninstalled.
   */
  function DroppedRevisions(db: Database, m: ModuleId): set<RevisionId> {
    var h := History(db, m);
    if HistoryUninstalled(db, m) then Elements(h) else if h == [] then {} else Elements(h[1..])
  }

  /** The part of DroppedRevisions that the first `j` entries of the history contribute. */
  function DroppedPrefix(db: Database, m: ModuleId, j: nat): set<RevisionId>
    requires j <= |History(db, m)|
  {
    var h := History(db, m);
    if HistoryUninstalled(db, m) then Elements(h[..j]) else if j == 0 then {} else Elements(h[1..j])
  }

  /** Every revision listed in the history of some closure module. */
  function ClosureRevisions(db: Database, closure: set<ModuleId>): set<RevisionId> {
    set m, r | m in closure && r in History(db, m) :: r
  }

  /** The revisions dropped from the histories of the closure modules. */
  function DroppedIn(db: Database, closure: set<ModuleId>): set<RevisionId> {
    set m, r | m in closure && r in DroppedRevisions(db, m) :: r
  }

  /** The wiring objects the wiring map gives to `revs`. */
  function WiringsOf(db: Database, revs: set<RevisionId>): set<WiringId> {
    set r | r in revs && r in db.wiring :: db.wiring[r]
  }

  /** The wires required by the wirings of `revs`. */
  function RequiredWiresOf(db: Database, revs: set<RevisionId>): set<Wire> {
    set r, w | r in revs && w in Required(db, r) :: w
  }

  /** The wires of `wires` whose provider side is the wiring `h`. */
  function WiresInto(wires: set<Wire>, h: WiringId): set<Wire> {
    set w | w in wires && w.providerWiring == h
  }

  /** The revisions of `revs` that belong to module `k`. */
  function OwnedBy(db: Database, revs: set<RevisionId>, k: ModuleId): set<RevisionId> {
    set r | r in revs && r in db.revisions && db.revisions[r].owner == k
  }

  /** Each module's history without the revisions of `revs` it owns. */
  function HistoriesWithout(db: Database, revs: set<RevisionId>): map<ModuleId, Module> {
    map k | k in db.modules :: db.modules[k].(revisions := RemoveAll(db.modules[k].revisions, OwnedBy(db, revs, k)))
  }

  /** Each module's history without the dropped revisions it owns. */
  function UnresolvedModules(db: Database, closure: set<ModuleId>): map<ModuleId, Module> {
    HistoriesWithout(db, DroppedIn(db, closure))
  }

  /** Each wiring without the provided wires the removed wirings required; removed wirings invalid. */
  function UnresolvedWirings(db: Database, closure: set<ModuleId>): map<WiringId, Wiring> {
    var revs := ClosureRevisions(db, closure);
    var wires := RequiredWiresOf(db, revs);
    var removedWirings := WiringsOf(db, revs);
    map h | h in db.wirings ::
      db.wirings[h].(provided := RemoveAll(db.wirings[h].provided, WiresInto(wires, h)),
                     valid := db.wirings[h].valid && h !in removedWirings)
  }

  /** The wiring map without the entries of closure revisions. */
  function UnresolvedWiringMap(db: Database, closure: set<ModuleId>): map<RevisionId, WiringId> {
    var revs := ClosureRevisions(db, closure);
    map r | r in db.wiring && r !in revs :: db.wiring[r]
  }

  /** The database after unresolving the modules of `closure`. */
  function UnresolveResult(db: Database, closure: set<ModuleId>): Database {
    db.(modules := UnresolvedModules(db, closure),
        wirings := UnresolvedWirings(db, closure),
        wiring := UnresolvedWiringMap(db, closure),
        capabilities := db.capabilities - DroppedIn(db, closure))
  }

  // ---------------------------------------------------------------------------------------
  // How the sets above grow one module, one revision at a time

  lemma ClosureRevisionsAdd(db: Database, s: set<ModuleId>, m: ModuleId)
    ensures ClosureRevisions(db, s + {m}) == ClosureRevisions(db, s) + Elements(History(db, m))
  {
  }

  lemma DroppedInAdd(db: Database, s: set<ModuleId>, m: ModuleId)
    ensures DroppedIn(db, s + {m}) == DroppedIn(db, s) + DroppedRevisions(db, m)
  {
  }

  lemma DroppedPrefixStep(db: Database, m: ModuleId, j: nat)
    requires j < |History(db, m)|
    ensures DroppedPrefix(db, m, j + 1) ==
      DroppedPrefix(db, m, j) + (if j > 0 || HistoryUninstalled(db, m) then {History(db, m)[j]} else {})
  {
    var h := History(db, m);
    assert h[..j + 1] == h[..j] + [h[j]];
    ElementsAppend(h[..j], h[j]);
    if j > 0 {
      assert h[1..j + 1] == h[1..j] + [h[j]];
      ElementsAppend(h[1..j], h[j]);
    }
  }

  lemma DroppedPrefixAll(db: Database, m: ModuleId)
    ensures DroppedPrefix(db, m, |History(db, m)|) == DroppedRevisions(db, m)
  {
    var h := History(db, m);
    assert h[..|h|] == h;
  }

  lemma WiringsOfAdd(db: Database, revs: set<RevisionId>, r: RevisionId)
    ensures WiringsOf(db, revs + {r}) == WiringsOf(db, revs) + (if r in db.wiring then {db.wiring[r]} else {})
  {
  }

  lemma RequiredWiresOfAdd(db: Database, revs: set<RevisionId>, r: RevisionId)
    ensures RequiredWiresOf(db, revs + {r}) == RequiredWiresOf(db, revs) + Elements(Required(db, r))
  {
  }

  lemma OwnedByAdd(db: Database, revs: set<RevisionId>, r: RevisionId, k: ModuleId)
    ensures OwnedBy(db, revs + {r}, k) == OwnedBy(db, revs, k) + OwnedBy(db, {r}, k)
  {
  }

  // ---------------------------------------------------------------------------------------
  // The two phases of unresolve

  /** The per-wiring wire lists hold exactly `wires`, each listed under its provider's wiring. */
  ghost predicate ListsHold(lists: map<WiringId, seq<Wire>>, wires: set<Wire>) {
    && (forall h, w :: h in lists && w in lists[h] ==> w.providerWiring == h && w in wires)
    && (forall w :: w in wires ==> w.providerWiring in lists && w in lists[w.providerWiring])
  }

  /**
   * What the read phase has collected once the revisions `doneRevs` are processed: the
   * wiring-map copy has lost exactly them, the drop list holds `dropped`, the removed-wiring
   * list their wirings and the per-wiring lists the wires those wirings required.
   */
  ghost predicate Collected(db: Database, doneRevs: set<RevisionId>, dropped: set<RevisionId>,
                            wiringCopy: map<RevisionId, WiringId>, toRemoveRevisions: seq<RevisionId>,
                            toRemoveWirings: seq<WiringId>, toRemoveWireLists: map<WiringId, seq<Wire>>) {
    && (forall r :: r in wiringCopy <==> r in db.wiring && r !in doneRevs)
    && (forall r :: r in wiringCopy ==> wiringCopy[r] == db.wiring[r])
    && (forall r :: r in toRemoveRevisions <==> r in dropped)
    && (forall h :: h in toRemoveWirings <==> h in WiringsOf(db, doneRevs))
    && ListsHold(toRemoveWireLists, RequiredWiresOf(db, doneRevs))
  }

  /** Appends each wire of `removedWires` to the list of its provider wiring. */
  method AddRemovedWires(lists: map<WiringId, seq<Wire>>, removedWires: seq<Wire>, ghost wires: set<Wire>)
    returns (lists': map<WiringId, seq<Wire>>)
    requires ListsHold(lists, wires)
    ensures ListsHold(lists', wires + Elements(removedWires))
  {
    lists' := lists;
    var k := 0;
    while k < |removedWires|
      invariant 0 <= k <= |removedWires|
      invariant ListsHold(lists', wires + Elements(removedWires[..k]))
    {
      var wire := removedWires[k];
      var providerWires := if wire.providerWiring in lists' then lists'[wire.providerWiring] else [];
      lists' := lists'[wire.providerWiring := providerWires + [wire]];
      assert removedWires[..k + 1] == removedWires[..k] + [wire];
      ElementsAppend(removedWires[..k], wire);
      k := k + 1;
    }
    assert removedWires[..k] == removedWires;
  }

  /**
   * One revision of a closure module: take it out of the wiring-map copy; if it had a wiring,
   * record that wiring and the wires it requires; record the revision itself when `drop`.
   */
  method CollectRevision(db: Database, revision: RevisionId, drop: bool,
                         ghost doneRevs: set<RevisionId>, ghost dropped: set<RevisionId>,
                         wiringCopy: map<RevisionId, WiringId>, toRemoveRevisions: seq<RevisionId>,
                         toRemoveWirings: seq<WiringId>, toRemoveWireLists: map<WiringId, seq<Wire>>)
    returns (wiringCopy': map<RevisionId, WiringId>, toRemoveRevisions': seq<RevisionId>,
             toRemoveWirings': seq<WiringId>, toRemoveWireLists': map<WiringId, seq<Wire>>)
    requires Collected(db, doneRevs, dropped, wiringCopy, toRemoveRevisions, toRemoveWirings, toRemoveWireLists)
    ensures Collected(db, doneRevs + {revision}, if drop then dropped + {revision} else dropped,
                      wiringCopy', toRemoveRevisions', toRemoveWirings', toRemoveWireLists')
  {
    wiringCopy', toRemoveRevisions', toRemoveWirings', toRemoveWireLists' :=
      wiringCopy, toRemoveRevisions, toRemoveWirings, toRemoveWireLists;
    WiringsOfAdd(db, doneRevs, revision);
    RequiredWiresOfAdd(db, doneRevs, revision);
    if revision in wiringCopy {
      var removedWiring := wiringCopy[revision];
      wiringCopy' := wiringCopy - {revision};
      toRemoveWirings' := toRemoveWirings + [removedWiring];
      var removedWires := if removedWiring in db.wirings then db.wirings[removedWiring].required else [];
      toRemoveWireLists' := AddRemovedWires(toRemoveWireLists, removedWires, RequiredWiresOf(db, doneRevs));
    } else {
      assert revision in db.wiring ==> revision in doneRevs;
    }
    if drop {
      toRemoveRevisions' := toRemoveRevisions + [revision];
    }
  }

  /** The bookkeeping of one step of CollectModule. */
  lemma CollectedStep(db: Database, m: ModuleId, j: nat, doneRevs: set<RevisionId>, dropped: set<RevisionId>,
                      doneNow: set<RevisionId>, droppedNow: set<RevisionId>, drop: bool)
    requires j < |History(db, m)|
    requires doneNow == doneRevs + Elements(History(db, m)[..j])
    requires droppedNow == dropped + DroppedPrefix(db, m, j)
    requires drop == (j > 0 || HistoryUninstalled(db, m))
    ensures doneNow + {History(db, m)[j]} == doneRevs + Elements(History(db, m)[..j + 1])
    ensures (if drop then droppedNow + {History(db, m)[j]} else droppedNow) == dropped + DroppedPrefix(db, m, j + 1)
  {
    var h := History(db, m);
    DroppedPrefixStep(db, m, j);
    assert h[..j + 1] == h[..j] + [h[j]];
    ElementsAppend(h[..j], h[j]);
  }

  /** One closure module: every revision of its history, dropping all but the first unless uninstalled. */
  method CollectModule(db: Database, m: ModuleId,
                       ghost doneRevs: set<RevisionId>, ghost dropped: set<RevisionId>,
                       wiringCopy: map<RevisionId, WiringId>, toRemoveRevisions: seq<RevisionId>,
                       toRemoveWirings: seq<WiringId>, toRemoveWireLists: map<WiringId, seq<Wire>>)
    returns (wiringCopy': map<RevisionId, WiringId>, toRemoveRevisions': seq<RevisionId>,
             toRemoveWirings': seq<WiringId>, toRemoveWireLists': map<WiringId, seq<Wire>>)
    requires Collected(db, doneRevs, dropped, wiringCopy, toRemoveRevisions, toRemoveWirings, toRemoveWireLists)
    ensures Collected(db, doneRevs + Elements(History(db, m)), dropped + DroppedRevisions(db, m),
                      wiringCopy', toRemoveRevisions', toRemoveWirings', toRemoveWireLists')
  {
    wiringCopy', toRemoveRevisions', toRemoveWirings', toRemoveWireLists' :=
      wiringCopy, toRemoveRevisions, toRemoveWirings, toRemoveWireLists;
    var revisions := History(db, m);
    var uninstalled := HistoryUninstalled(db, m);
    var first := true;
    var j := 0;
    ghost var doneNow, droppedNow := doneRevs, dropped;
    assert Elements(revisions[..0]) == {};
    while j < |revisions|
      invariant 0 <= j <= |revisions|
      invariant first <==> j == 0
      invariant doneNow == doneRevs + Elements(revisions[..j])
      invariant droppedNow == dropped + DroppedPrefix(db, m, j)
      invariant Collected(db, doneNow, droppedNow, wiringCopy', toRemoveRevisions', toRemoveWirings', toRemoveWireLists')
    {
      var revision := revisions[j];
      var drop := !first || uninstalled;
      wiringCopy', toRemoveRevisions', toRemoveWirings', toRemoveWireLists' :=
        CollectRevision(db, revision, drop, doneNow, droppedNow,
                        wiringCopy', toRemoveRevisions', toRemoveWirings', toRemoveWireLists');
      CollectedStep(db, m, j, doneRevs, dropped, doneNow, droppedNow, drop);
      doneNow := doneNow + {revision};
      droppedNow := if drop then droppedNow + {revision} else droppedNow;
      first := false;
      j := j + 1;
    }
    assert revisions[..j] == revisions;
    DroppedPrefixAll(db, m);
  }

  /**
   * The read phase: walks the closure modules and their histories, taking every listed
   * revision out of a copy of the wiring map, and collects the removed wirings, the wires
   * they required (grouped by provider wiring) and the revisions to drop.
   */
  method CollectRemovals(db: Database, closure: set<ModuleId>)
    returns (wiringCopy: map<RevisionId, WiringId>, toRemoveRevisions: seq<RevisionId>,
             toRemoveWirings: seq<WiringId>, toRemoveWireLists: map<WiringId, seq<Wire>>)
    ensures Collected(db, ClosureRevisions(db, closure), DroppedIn(db, closure),
                      wiringCopy, toRemoveRevisions, toRemoveWirings, toRemoveWireLists)
  {
    wiringCopy := db.wiring;
    toRemoveRevisions, toRemoveWirings, toRemoveWireLists := [], [], map[];
    var remaining := closure;
    assert closure - remaining == {};
    while remaining != {}
      invariant remaining <= closure
      invariant Collected(db, ClosureRevisions(db, closure - remaining), DroppedIn(db, closure - remaining),
                          wiringCopy, toRemoveRevisions, toRemoveWirings, toRemoveWireLists)
      decreases remaining
    {
      var m :| m in remaining;
      ghost var before := closure - remaining;
      wiringCopy, toRemoveRevisions, toRemoveWirings, toRemoveWireLists :=
        CollectModule(db, m, ClosureRevisions(db, before), DroppedIn(db, before),
                      wiringCopy, toRemoveRevisions, toRemoveWirings, toRemoveWireLists);
      ClosureRevisionsAdd(db, before, m);
      DroppedInAdd(db, before, m);
      assert closure - (remaining - {m}) == before + {m};
      remaining := remaining - {m};
    }
  }

  /** The set of wires listed for the wiring `h`. */
  function ListedFor(lists: map<WiringId, seq<Wire>>, h: WiringId): set<Wire> {
    if h in lists then Elements(lists[h]) else {}
  }

  /** Removes the listed wires from the provided list of each listed wiring. */
  method PruneProvidedWires(wirings: map<WiringId, Wiring>, toRemoveWireLists: map<WiringId, seq<Wire>>)
    returns (wirings': map<WiringId, Wiring>)
    ensures wirings'.Keys == wirings.Keys
    ensures forall h :: h in wirings ==>
      wirings'[h] == wirings[h].(provided := RemoveAll(wirings[h].provided, ListedFor(toRemoveWireLists, h)))
  {
    wirings' := wirings;
    var keys := toRemoveWireLists.Keys;
    forall h | h in wirings && h !in toRemoveWireLists
      ensures RemoveAll(wirings[h].provided, ListedFor(toRemoveWireLists, h)) == wirings[h].provided
    {
      RemoveAllEmpty(wirings[h].provided);
    }
    while keys != {}
      invariant keys <= toRemoveWireLists.Keys
      invariant wirings'.Keys == wirings.Keys
      invariant forall h :: h in wirings && h !in keys ==>
        wirings'[h] == wirings[h].(provided := RemoveAll(wirings[h].provided, ListedFor(toRemoveWireLists, h)))
      invariant forall h :: h in wirings && h in keys ==> wirings'[h] == wirings[h]
      decreases keys
    {
      var h :| h in keys;
      if h in wirings' {
        assert wirings'[h] == wirings[h] && ListedFor(toRemoveWireLists, h) == Elements(toRemoveWireLists[h]);
        var provided := RemoveAll(wirings'[h].provided, Elements(toRemoveWireLists[h]));
        wirings' := wirings'[h := wirings'[h].(provided := provided)];
      }
      keys := keys - {h};
    }
  }

  lemma HistoriesWithoutNothing(db: Database)
    ensures HistoriesWithout(db, {}) == db.modules
  {
    forall k | k in db.modules ensures RemoveAll(db.modules[k].revisions, OwnedBy(db, {}, k)) == db.modules[k].revisions {
      assert OwnedBy(db, {}, k) == {};
      RemoveAllEmpty(db.modules[k].revisions);
    }
  }

  /** Removing one more revision from one history. */
  lemma HistoryWithoutStep(db: Database, revs: set<RevisionId>, removed: RevisionId, k: ModuleId)
    requires k in db.modules
    ensures RemoveAll(db.modules[k].revisions, OwnedBy(db, revs + {removed}, k)) ==
      if ModuleOf(db, removed) == Some(k) then RemoveAll(RemoveAll(db.modules[k].revisions, OwnedBy(db, revs, k)), {removed})
      else RemoveAll(db.modules[k].revisions, OwnedBy(db, revs, k))
  {
    var h := db.modules[k].revisions;
    OwnedByAdd(db, revs, removed, k);
    RemoveAllTwice(h, OwnedBy(db, revs, k), OwnedBy(db, {removed}, k));
    if ModuleOf(db, removed) == Some(k) {
      assert OwnedBy(db, {removed}, k) == {removed};
    } else {
      assert OwnedBy(db, {removed}, k) == {};
      RemoveAllEmpty(RemoveAll(h, OwnedBy(db, revs, k)));
    }
  }

  /** Removing one more revision touches only the history of its owner. */
  lemma HistoriesWithoutStep(db: Database, revs: set<RevisionId>, removed: RevisionId)
    ensures HistoriesWithout(db, revs + {removed}) ==
      if removed in db.revisions && db.revisions[removed].owner in db.modules then
        var k := db.revisions[removed].owner;
        var before := HistoriesWithout(db, revs);
        before[k := before[k].(revisions := RemoveAll(before[k].revisions, {removed}))]
      else
        HistoriesWithout(db, revs)
  {
    var before := HistoriesWithout(db, revs);
    var after := HistoriesWithout(db, revs + {removed});
    var expected := if removed in db.revisions && db.revisions[removed].owner in db.modules then
        var k := db.revisions[removed].owner;
        before[k := before[k].(revisions := RemoveAll(before[k].revisions, {removed}))]
      else
        before;
    assert after.Keys == expected.Keys;
    forall k | k in after ensures after[k] == expected[k] {
      HistoryWithoutStep(db, revs, removed, k);
    }
  }

  /** Removes each collected revision from its module's history and from the capability index. */
  method DropRevisions(db: Database, toRemoveRevisions: seq<RevisionId>)
    returns (modules: map<ModuleId, Module>, capabilities: set<RevisionId>)
    ensures modules == HistoriesWithout(db, Elements(toRemoveRevisions))
    ensures capabilities == db.capabilities - Elements(toRemoveRevisions)
  {
    modules := db.modules;
    capabilities := db.capabilities;
    HistoriesWithoutNothing(db);
    assert Elements(toRemoveRevisions[..0]) == {};
    var i := 0;
    while i < |toRemoveRevisions|
      invariant 0 <= i <= |toRemoveRevisions|
      invariant modules == HistoriesWithout(db, Elements(toRemoveRevisions[..i]))
      invariant capabilities == db.capabilities - Elements(toRemoveRevisions[..i])
    {
      var removed := toRemoveRevisions[i];
      HistoriesWithoutStep(db, Elements(toRemoveRevisions[..i]), removed);
      assert toRemoveRevisions[..i + 1] == toRemoveRevisions[..i] + [removed];
      ElementsAppend(toRemoveRevisions[..i], removed);
      if removed in db.revisions && db.revisions[removed].owner in modules {
        var k := db.revisions[removed].owner;
        modules := modules[k := modules[k].(revisions := RemoveAll(modules[k].revisions, {removed}))];
      }
      capabilities := capabilities - {removed};
      i := i + 1;
    }
    assert toRemoveRevisions[..i] == toRemoveRevisions;
  }

  /** Marks the listed wiring objects invalid. */
  method InvalidateWirings(wirings: map<WiringId, Wiring>, toRemoveWirings: seq<WiringId>)
    returns (wirings': map<WiringId, Wiring>)
    ensures wirings'.Keys == wirings.Keys
    ensures forall h :: h in wirings ==> wirings'[h] == wirings[h].(valid := wirings[h].valid && h !in toRemoveWirings)
  {
    wirings' := wirings;
    var j := 0;
    while j < |toRemoveWirings|
      invariant 0 <= j <= |toRemoveWirings|
      invariant wirings'.Keys == wirings.Keys
      invariant forall h :: h in wirings ==> wirings'[h] == wirings[h].(valid := wirings[h].valid && h !in toRemoveWirings[..j])
    {
      var h := toRemoveWirings[j];
      if h in wirings' {
        wirings' := wirings'[h := wirings'[h].(valid := false)];
      }
      assert toRemoveWirings[..j + 1] == toRemoveWirings[..j] + [h];
      j := j + 1;
    }
    assert toRemoveWirings[..j] == toRemoveWirings;
  }

  /**
   * The write phase: prunes the listed wires, drops the collected revisions from their
   * histories and from the capability index, invalidates the removed wirings and installs
   * the wiring-map copy; nothing else changes.
   */
  method ApplyRemovals(db: Database, wiringCopy: map<RevisionId, WiringId>, toRemoveRevisions: seq<RevisionId>,
                       toRemoveWirings: seq<WiringId>, toRemoveWireLists: map<WiringId, seq<Wire>>)
    returns (r: Database)
    ensures r.modules == HistoriesWithout(db, Elements(toRemoveRevisions))
    ensures r.wirings.Keys == db.wirings.Keys
    ensures forall h :: h in db.wirings ==>
      r.wirings[h] == db.wirings[h].(provided := RemoveAll(db.wirings[h].provided, ListedFor(toRemoveWireLists, h)),
                                     valid := db.wirings[h].valid && h !in toRemoveWirings)
    ensures r.wiring == wiringCopy
    ensures r.capabilities == db.capabilities - Elements(toRemoveRevisions)
    ensures r.revisions == db.revisions && r.locations == db.locations
    ensures r.nextModuleId == db.nextModuleId && r.nextRevisionId == db.nextRevisionId && r.nextWiringId == db.nextWiringId
  {
    var wirings := PruneProvidedWires(db.wirings, toRemoveWireLists);
    var modules, capabilities := DropRevisions(db, toRemoveRevisions);
    wirings := InvalidateWirings(wirings, toRemoveWirings);
    r := db.(modules := modules, wirings := wirings, wiring := wiringCopy, capabilities := capabilities);
  }

  /**
   * unresolve on the database value: computes the refresh closure of `initial` and
   * unresolves it.  The result is UnresolveResult of that closure.
   */
  method UnresolveDatabase(db: Database, initial: seq<ModuleId>) returns (r: Database, closure: set<ModuleId>)
    ensures closure == RefreshClosureSet(db, initial)
    ensures r == UnresolveResult(db, closure)
  {
    closure := RefreshClosure(db, initial);
    var wiringCopy, toRemoveRevisions, toRemoveWirings, toRemoveWireLists := CollectRemovals(db, closure);
    r := ApplyRemovals(db, wiringCopy, toRemoveRevisions, toRemoveWirings, toRemoveWireLists);
    UnresolveMatches(db, closure, r, wiringCopy, toRemoveRevisions, toRemoveWirings, toRemoveWireLists);
  }

  /** What the two phases produce together is UnresolveResult. */
  lemma UnresolveMatches(db: Database, closure: set<ModuleId>, r: Database,
                         wiringCopy: map<RevisionId, WiringId>, toRemoveRevisions: seq<RevisionId>,
                         toRemoveWirings: seq<WiringId>, toRemoveWireLists: map<WiringId, seq<Wire>>)
    requires Collected(db, ClosureRevisions(db, closure), DroppedIn(db, closure),
                       wiringCopy, toRemoveRevisions, toRemoveWirings, toRemoveWireLists)
    requires r.modules == HistoriesWithout(db, Elements(toRemoveRevisions))
    requires r.wirings.Keys == db.wirings.Keys
    requires forall h :: h in db.wirings ==>
      r.wirings[h] == db.wirings[h].(provided := RemoveAll(db.wirings[h].provided, ListedFor(toRemoveWireLists, h)),
                                     valid := db.wirings[h].valid && h !in toRemoveWirings)
    requires r.wiring == wiringCopy
    requires r.capabilities == db.capabilities - Elements(toRemoveRevisions)
    requires r.revisions == db.revisions && r.locations == db.locations
    requires r.nextModuleId == db.nextModuleId && r.nextRevisionId == db.nextRevisionId && r.nextWiringId == db.nextWiringId
    ensures r == UnresolveResult(db, closure)
  {
    assert Elements(toRemoveRevisions) == DroppedIn(db, closure);
    WiringsMatch(db, closure, r.wirings, toRemoveWirings, toRemoveWireLists);
    WiringMapMatch(db, closure, wiringCopy);
  }

  lemma WiringsMatch(db: Database, closure: set<ModuleId>, wirings: map<WiringId, Wiring>,
                     toRemoveWirings: seq<WiringId>, toRemoveWireLists: map<WiringId, seq<Wire>>)
    requires ListsHold(toRemoveWireLists, RequiredWiresOf(db, ClosureRevisions(db, closure)))
    requires forall h :: h in toRemoveWirings <==> h in WiringsOf(db, ClosureRevisions(db, closure))
    requires wirings.Keys == db.wirings.Keys
    requires forall h :: h in db.wirings ==>
      wirings[h] == db.wirings[h].(provided := RemoveAll(db.wirings[h].provided, ListedFor(toRemoveWireLists, h)),
                                   valid := db.wirings[h].valid && h !in toRemoveWirings)
    ensures wirings == UnresolvedWirings(db, closure)
  {
    var wires := RequiredWiresOf(db, ClosureRevisions(db, closure));
    forall h | h in db.wirings ensures ListedFor(toRemoveWireLists, h) == WiresInto(wires, h) {
    }
  }

  lemma WiringMapMatch(db: Database, closure: set<ModuleId>, wiringCopy: map<RevisionId, WiringId>)
    requires forall r :: r in wiringCopy <==> r in db.wiring && r !in ClosureRevisions(db, closure)
    requires forall r :: r in wiringCopy ==> wiringCopy[r] == db.wiring[r]
    ensures wiringCopy == UnresolvedWiringMap(db, closure)
  {
  }

  // ---------------------------------------------------------------------------------------
  // What unresolve guarantees

  lemma DroppedRevisionsListed(db: Database, m: ModuleId)
    ensures DroppedRevisions(db, m) <= Elements(History(db, m))
  {
    var h := History(db, m);
    if h != [] {
      assert forall x :: x in h[1..] ==> x in h;
    }
  }

  lemma DroppedWithinHistory(db: Database, closure: set<ModuleId>)
    ensures DroppedIn(db, closure) <= ClosureRevisions(db, closure)
  {
    forall m | m in closure ensures DroppedRevisions(db, m) <= Elements(History(db, m)) {
      DroppedRevisionsListed(db, m);
    }
  }

  /** In a well-formed database the closure revisions are owned by closure modules. */
  lemma ClosureRevisionsOwned(db: Database, closure: set<ModuleId>)
    requires WellFormed(db)
    ensures forall x :: x in ClosureRevisions(db, closure) ==> x in db.revisions && db.revisions[x].owner in closure
    ensures forall x :: x in DroppedIn(db, closure) ==> x in db.revisions && db.revisions[x].owner in closure
  {
    forall x | x in ClosureRevisions(db, closure) ensures x in db.revisions && db.revisions[x].owner in closure {
      var m :| m in closure && x in History(db, m);
    }
    DroppedWithinHistory(db, closure);
  }

  /** Unresolved histories list only revisions of their own module, without duplicates. */
  lemma UnresolvedHistoriesWellFormed(db: Database, closure: set<ModuleId>)
    requires HistoriesWellFormed(db)
    ensures HistoriesWellFormed(UnresolveResult(db, closure))
  {
    var revs := DroppedIn(db, closure);
    HistoriesWithoutOwned(db, revs);
    HistoriesWithoutNoDup(db, revs);
    var r := UnresolveResult(db, closure);
    assert r.modules == HistoriesWithout(db, revs) && r.revisions == db.revisions;
    HistoriesFrame(db.(modules := HistoriesWithout(db, revs)), r);
  }

  /** HistoriesWellFormed looks only at the modules and the revisions. */
  lemma HistoriesFrame(a: Database, b: Database)
    requires HistoriesWellFormed(a)
    requires a.modules == b.modules && a.revisions == b.revisions
    ensures HistoriesWellFormed(b)
  {
  }

  /** Removing revisions from histories keeps each listed revision's owner. */
  lemma HistoriesWithoutOwned(db: Database, revs: set<RevisionId>)
    requires HistoriesWellFormed(db)
    ensures forall m, r :: m in HistoriesWithout(db, revs) && r in HistoriesWithout(db, revs)[m].revisions ==>
      r in db.revisions && db.revisions[r].owner == m
  {
    var modules := HistoriesWithout(db, revs);
    forall m, r | m in modules && r in modules[m].revisions ensures r in db.revisions && db.revisions[r].owner == m {
      assert r in db.modules[m].revisions;
    }
  }

  /** Removing revisions from histories keeps them free of duplicates. */
  lemma HistoriesWithoutNoDup(db: Database, revs: set<RevisionId>)
    requires HistoriesWellFormed(db)
    ensures forall m :: m in HistoriesWithout(db, revs) ==> NoDup(HistoriesWithout(db, revs)[m].revisions)
  {
    var modules := HistoriesWithout(db, revs);
    forall k | k in modules ensures NoDup(modules[k].revisions) {
      RemoveAllNoDup(db.modules[k].revisions, OwnedBy(db, revs, k));
    }
  }

  /** A revision that keeps its wiring stays listed in its module's history. */
  lemma UnresolvedWiringMapWellFormed(db: Database, closure: set<ModuleId>)
    requires WellFormed(db)
    ensures WiringMapWellFormed(UnresolveResult(db, closure))
  {
    DroppedWithinHistory(db, closure);
    forall x | x in UnresolvedWiringMap(db, closure)
      ensures x in UnresolvedModules(db, closure)[db.revisions[x].owner].revisions
    {
      var k := db.revisions[x].owner;
      assert x !in OwnedBy(db, DroppedIn(db, closure), k);
    }
  }

  /** Unresolve keeps the database well formed. */
  lemma UnresolvePreservesWellFormed(db: Database, closure: set<ModuleId>)
    requires WellFormed(db)
    ensures WellFormed(UnresolveResult(db, closure))
  {
    UnresolvedHistoriesWellFormed(db, closure);
    UnresolvedWiringMapWellFormed(db, closure);
  }

  /** A wire required by an unresolved wiring has its requirer among the closure revisions. */
  lemma RemovedWireRequirer(db: Database, closure: set<ModuleId>, w: Wire)
    requires Consistent(db)
    ensures w in RequiredWiresOf(db, ClosureRevisions(db, closure)) ==> w.requirer in ClosureRevisions(db, closure)
  {
  }

  /**
   * Closedness at work: a wire provided by a closure revision has its requirer among the
   * closure revisions too.
   */
  lemma ClosedPullsRequirer(db: Database, closure: set<ModuleId>, p: RevisionId, w: Wire)
    requires WellFormed(db)
    requires forall m, n :: m in closure && DependentEdge(db, m, n) ==> n in closure
    requires w in Provided(db, p) && w.requirer in db.wiring
    ensures p in ClosureRevisions(db, closure) ==> w.requirer in ClosureRevisions(db, closure)
  {
    if p in ClosureRevisions(db, closure) {
      var m :| m in closure && p in History(db, m);
      var q := w.requirer;
      var n := db.revisions[q].owner;
      assert RevisionContributes(db, p, n);
      assert DependentEdge(db, m, n);
      assert q in History(db, n);
    }
  }

  /** Which revisions are resolved after unresolve, and what their wirings hold. */
  lemma WiringAfter(db: Database, closure: set<ModuleId>, x: RevisionId)
    ensures Wired(UnresolveResult(db, closure), x) <==> Wired(db, x) && x !in ClosureRevisions(db, closure)
    ensures Wired(UnresolveResult(db, closure), x) ==>
      && UnresolveResult(db, closure).wiring[x] == db.wiring[x]
      && Required(UnresolveResult(db, closure), x) == Required(db, x)
      && Provided(UnresolveResult(db, closure), x) ==
           RemoveAll(Provided(db, x), WiresInto(RequiredWiresOf(db, ClosureRevisions(db, closure)), db.wiring[x]))
    ensures !Wired(UnresolveResult(db, closure), x) ==>
      Required(UnresolveResult(db, closure), x) == [] && Provided(UnresolveResult(db, closure), x) == []
  {
  }

  /** A required wire that survives unresolve still reaches a resolved provider that lists it. */
  lemma RequiredWireSurvives(db: Database, closure: set<ModuleId>, x: RevisionId, w: Wire)
    requires WellFormed(db) && Consistent(db)
    requires forall m, n :: m in closure && DependentEdge(db, m, n) ==> n in closure
    requires w in Required(UnresolveResult(db, closure), x)
    ensures w.requirer == x && Wired(UnresolveResult(db, closure), w.provider)
    ensures w.providerWiring == UnresolveResult(db, closure).wiring[w.provider]
    ensures w in Provided(UnresolveResult(db, closure), w.provider)
  {
    var revs := ClosureRevisions(db, closure);
    WiringAfter(db, closure, x);
    assert w in Required(db, x) && x !in revs;
    var p := w.provider;
    assert w in Provided(db, p);
    ClosedPullsRequirer(db, closure, p, w);
    WiringAfter(db, closure, p);
    RemovedWireRequirer(db, closure, w);
    assert w !in WiresInto(RequiredWiresOf(db, revs), db.wiring[p]);
  }

  /** A provided wire that survives unresolve still comes from a resolved requirer that lists it. */
  lemma ProvidedWireSurvives(db: Database, closure: set<ModuleId>, x: RevisionId, w: Wire)
    requires Consistent(db)
    requires w in Provided(UnresolveResult(db, closure), x)
    ensures var r := UnresolveResult(db, closure);
      w.provider == x && w.providerWiring == r.wiring[x] && Wired(r, w.requirer) && w in Required(r, w.requirer)
  {
    var revs := ClosureRevisions(db, closure);
    WiringAfter(db, closure, x);
    assert w in Provided(db, x) && w !in WiresInto(RequiredWiresOf(db, revs), db.wiring[x]);
    var q := w.requirer;
    assert w in Required(db, q);
    assert q in revs ==> w in RequiredWiresOf(db, revs);
    WiringAfter(db, closure, q);
  }

  /**
   * Unresolving a closed set of modules keeps the wires consistent: the wires that remain
   * connect two resolved revisions and are listed on both sides.
   */
  lemma UnresolvePreservesConsistency(db: Database, closure: set<ModuleId>)
    requires WellFormed(db) && Consistent(db)
    requires forall m, n :: m in closure && DependentEdge(db, m, n) ==> n in closure
    ensures Consistent(UnresolveResult(db, closure))
  {
    RequiredSideConsistent(db, closure);
    ProvidedSideConsistent(db, closure);
  }

  lemma RequiredSideConsistent(db: Database, closure: set<ModuleId>)
    requires WellFormed(db) && Consistent(db)
    requires forall m, n :: m in closure && DependentEdge(db, m, n) ==> n in closure
    ensures RequiredConsistent(UnresolveResult(db, closure))
  {
    var r := UnresolveResult(db, closure);
    forall x, w | w in Required(r, x) ensures RequiredWireHolds(r, x, w) {
      RequiredWireSurvives(db, closure, x, w);
    }
  }

  lemma ProvidedSideConsistent(db: Database, closure: set<ModuleId>)
    requires Consistent(db)
    ensures ProvidedConsistent(UnresolveResult(db, closure))
  {
    var r := UnresolveResult(db, closure);
    forall x, w | w in Provided(r, x) ensures ProvidedWireHolds(r, x, w) {
      ProvidedWireSurvives(db, closure, x, w);
    }
  }

  /** After unresolve no revision listed by a closure module is resolved. */
  lemma ClosureUnwired(db: Database, closure: set<ModuleId>, m: ModuleId, x: RevisionId)
    requires m in closure && x in History(db, m)
    ensures !Wired(UnresolveResult(db, closure), x)
  {
    WiringAfter(db, closure, x);
  }

  /**
   * A closure module's history keeps only its current revision, or nothing once it is
   * uninstalled.
   */
  lemma ClosureHistoryAfter(db: Database, closure: set<ModuleId>, m: ModuleId)
    requires WellFormed(db)
    requires m in closure && m in db.modules
    ensures UnresolveResult(db, closure).modules[m].revisions ==
      if db.modules[m].uninstalled || db.modules[m].revisions == [] then [] else [db.modules[m].revisions[0]]
  {
    var h := db.modules[m].revisions;
    var own := OwnedBy(db, DroppedIn(db, closure), m);
    ClosureRevisionsOwned(db, closure);
    forall x | x in h ensures x in own <==> x in DroppedRevisions(db, m) {
      if x in own {
        var m2 :| m2 in closure && x in DroppedRevisions(db, m2);
        assert x in History(db, m2);
      }
    }
    RemoveAllOnlyPresent(h, own, DroppedRevisions(db, m));
    if db.modules[m].uninstalled {
      RemoveAllEverything(h, DroppedRevisions(db, m));
    } else if h != [] {
      RemoveAllTail(h);
    }
  }

  /** The history of a module outside the closure is unchanged. */
  lemma OtherHistoryAfter(db: Database, closure: set<ModuleId>, m: ModuleId)
    requires WellFormed(db)
    requires m !in closure && m in db.modules
    ensures UnresolveResult(db, closure).modules[m].revisions == db.modules[m].revisions
  {
    ClosureRevisionsOwned(db, closure);
    RemoveAllNothing(db.modules[m].revisions, OwnedBy(db, DroppedIn(db, closure), m));
  }
}
