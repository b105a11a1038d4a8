/**
 * The refresh closure (module granularity) and the dependency closure (revision
 * granularity): everything reachable from a start set along "dependent" edges, that is from
 * a provider to the requirers of the wires it provides, and from a fragment to the hosts its
 * host wires attach it to.  The recursive traversal with a shared visited set becomes a
 * worklist with a visited set.
 */
module Closure {
  import opened Wrappers
  import opened Graph

  /** `p` is a non-empty path along `succ`. */
  ghost predicate IsPath<T(!new)>(succ: T -> seq<T>, p: seq<T>) {
    |p| > 0 && forall i :: 0 <= i < |p| - 1 ==> p[i + 1] in succ(p[i])
  }

  /** `n` lies on a path along `succ` that starts in `initial`. */
  ghost predicate Reachable<T(!new)>(succ: T -> seq<T>, initial: seq<T>, n: T) {
    exists p :: IsPath(succ, p) && p[0] in initial && p[|p| - 1] == n
  }

  lemma ReachableStep<T(!new)>(succ: T -> seq<T>, initial: seq<T>, m: T, n: T)
    requires Reachable(succ, initial, m) && n in succ(m)
    ensures Reachable(succ, initial, n)
  {
    var p :| IsPath(succ, p) && p[0] in initial && p[|p| - 1] == m;
    var q := p + [n];
    assert IsPath(succ, q);
    assert q[0] == p[0] && q[|q| - 1] == n;
  }

  lemma {:induction false} PathStaysInClosedSet<T(!new)>(succ: T -> seq<T>, s: set<T>, p: seq<T>)
    requires IsPath(succ, p) && p[0] in s
    requires forall x, y :: x in s && y in succ(x) ==> y in s
    ensures p[|p| - 1] in s
    decreases |p|
  {
    if |p| > 1 {
      var q := p[..|p| - 1];
      assert IsPath(succ, q) by {
        forall i | 0 <= i < |q| - 1 ensures q[i + 1] in succ(q[i]) {
          assert q[i] == p[i] && q[i + 1] == p[i + 1];
        }
      }
      PathStaysInClosedSet(succ, s, q);
      assert p[|p| - 1] in succ(p[|p| - 2]);
    }
  }

  /** Every set that contains the start set and is closed under `succ` contains what is reachable. */
  lemma ClosedSetContainsReachable<T(!new)>(succ: T -> seq<T>, initial: seq<T>, s: set<T>, n: T)
    requires forall x :: x in initial ==> x in s
    requires forall x, y :: x in s && y in succ(x) ==> y in s
    requires Reachable(succ, initial, n)
    ensures n in s
  {
    var p :| IsPath(succ, p) && p[0] in initial && p[|p| - 1] == n;
    PathStaysInClosedSet(succ, s, p);
  }

  /** The members of the finite set `big` that are reachable from `initial`. */
  ghost function ReachableWithin<T(!new)>(succ: T -> seq<T>, initial: seq<T>, big: set<T>): set<T> {
    set n | n in big && Reachable(succ, initial, n)
  }

  /** Within a closed superset of the start set, the reachable part is itself closed. */
  lemma ReachableWithinClosed<T(!new)>(succ: T -> seq<T>, initial: seq<T>, big: set<T>)
    requires forall x :: x in initial ==> x in big
    requires forall x, y :: x in big && y in succ(x) ==> y in big
    ensures forall x :: x in initial ==> x in ReachableWithin(succ, initial, big)
    ensures forall x, y :: x in ReachableWithin(succ, initial, big) && y in succ(x) ==> y in ReachableWithin(succ, initial, big)
  {
    forall x | x in initial ensures x in ReachableWithin(succ, initial, big) {
      assert IsPath(succ, [x]);
    }
    forall x, y | x in ReachableWithin(succ, initial, big) && y in succ(x) ensures y in ReachableWithin(succ, initial, big) {
      ReachableStep(succ, initial, x, y);
    }
  }

  /** Within a closed superset of the start set, the reachable part is everything reachable. */
  lemma ReachableWithinExact<T(!new)>(succ: T -> seq<T>, initial: seq<T>, big: set<T>)
    requires forall x :: x in initial ==> x in big
    requires forall x, y :: x in big && y in succ(x) ==> y in big
    ensures forall n :: n in ReachableWithin(succ, initial, big) <==> Reachable(succ, initial, n)
  {
    forall n | Reachable(succ, initial, n) ensures n in big {
      ClosedSetContainsReachable(succ, initial, big, n);
    }
  }

  /**
   * The worklist traversal: the result holds the start set, is closed under `succ` and stays
   * inside `universe`, a closed set holding the start set.  A node is expanded only when it is
   * not yet visited, so the loop ends within the finite `universe`.
   */
  method Reach<T(==,!new)>(succ: T -> seq<T>, ghost universe: set<T>, initial: seq<T>) returns (visited: set<T>)
    requires forall x :: x in initial ==> x in universe
    requires forall x, y :: x in universe && y in succ(x) ==> y in universe
    ensures forall x :: x in initial ==> x in visited
    ensures forall x, y :: x in visited && y in succ(x) ==> y in visited
    ensures visited <= universe
  {
    visited := {};
    var work := initial;
    while work != []
      invariant visited <= universe
      invariant forall x :: x in work ==> x in universe
      invariant forall x :: x in initial ==> x in visited || x in work
      invariant forall x, y :: x in visited && y in succ(x) ==> y in visited || y in work
      decreases universe - visited, |work|
    {
      var m := work[0];
      work := work[1..];
      if m !in visited {
        visited := visited + {m};
        work := succ(m) + work;
      }
    }
  }

  /**
   * The traversal from `initial` inside the closed finite set `big` finds exactly the
   * reachable nodes.
   */
  method ReachAll<T(==,!new)>(succ: T -> seq<T>, ghost big: set<T>, initial: seq<T>) returns (visited: set<T>)
    requires forall x :: x in initial ==> x in big
    requires forall x, y :: x in big && y in succ(x) ==> y in big
    ensures forall x :: x in initial ==> x in visited
    ensures forall x, y :: x in visited && y in succ(x) ==> y in visited
    ensures visited == ReachableWithin(succ, initial, big)
    ensures forall y :: y in visited <==> Reachable(succ, initial, y)
  {
    ReachableWithinClosed(succ, initial, big);
    visited := Reach(succ, ReachableWithin(succ, initial, big), initial);
    forall y | Reachable(succ, initial, y) ensures y in visited {
      ClosedSetContainsReachable(succ, initial, visited, y);
    }
  }

  // ---------------------------------------------------------------------------------------
  // Module granularity: getRefreshClosure and addDependents(Module, ...)

  /** The modules owning the requirers of `wires`, in order. */
  function RequirerModules(db: Database, wires: seq<Wire>): (r: seq<ModuleId>)
    ensures forall n :: n in r ==> n in RevisionModules(db)
  {
    if wires == [] then []
    else
      var w := wires[0];
      (if w.requirer in db.revisions then [db.revisions[w.requirer].owner] else []) + RequirerModules(db, wires[1..])
  }

  /** The modules owning the providers of the host-namespace wires among `wires`, in order. */
  function HostModules(db: Database, wires: seq<Wire>): (r: seq<ModuleId>)
    ensures forall n :: n in r ==> n in RevisionModules(db)
  {
    if wires == [] then []
    else
      var w := wires[0];
      (if w.namespace == HostNamespace && w.provider in db.revisions then [db.revisions[w.provider].owner] else [])
        + HostModules(db, wires[1..])
  }

  /** The modules one revision contributes: requirers of what it provides, hosts if it is a fragment. */
  function RevisionDependentModules(db: Database, r: RevisionId): (ms: seq<ModuleId>)
    ensures forall n :: n in ms ==> n in RevisionModules(db)
  {
    RequirerModules(db, Provided(db, r)) + (if IsFragment(db, r) then HostModules(db, Required(db, r)) else [])
  }

  function RevisionsDependentModules(db: Database, revs: seq<RevisionId>): (ms: seq<ModuleId>)
    ensures forall n :: n in ms ==> n in RevisionModules(db)
  {
    if revs == [] then [] else RevisionDependentModules(db, revs[0]) + RevisionsDependentModules(db, revs[1..])
  }

  /** The modules addDependents recurses into from module `m`, over every revision of its history. */
  function ModuleDependents(db: Database, m: ModuleId): seq<ModuleId> {
    if m in db.modules then RevisionsDependentModules(db, db.modules[m].revisions) else []
  }

  function DependentsOf(db: Database): ModuleId -> seq<ModuleId> {
    m => ModuleDependents(db, m)
  }

  lemma {:induction false} RequirerModulesIff(db: Database, wires: seq<Wire>, n: ModuleId)
    ensures n in RequirerModules(db, wires) <==> exists w :: w in wires && ModuleOf(db, w.requirer) == Some(n)
  {
    if wires != [] {
      RequirerModulesIff(db, wires[1..], n);
      if exists w :: w in wires && ModuleOf(db, w.requirer) == Some(n) {
        var w :| w in wires && ModuleOf(db, w.requirer) == Some(n);
        if w != wires[0] {
          assert w in wires[1..];
        }
      }
    }
  }

  lemma {:induction false} HostModulesIff(db: Database, wires: seq<Wire>, n: ModuleId)
    ensures n in HostModules(db, wires) <==>
      exists w :: w in wires && w.namespace == HostNamespace && ModuleOf(db, w.provider) == Some(n)
  {
    if wires != [] {
      HostModulesIff(db, wires[1..], n);
      if exists w :: w in wires && w.namespace == HostNamespace && ModuleOf(db, w.provider) == Some(n) {
        var w :| w in wires && w.namespace == HostNamespace && ModuleOf(db, w.provider) == Some(n);
        if w != wires[0] {
          assert w in wires[1..];
        }
      }
    }
  }

  ghost predicate RevisionContributes(db: Database, r: RevisionId, n: ModuleId) {
    exists w :: (w in Provided(db, r) && ModuleOf(db, w.requirer) == Some(n)) ||
      (IsFragment(db, r) && w in Required(db, r) && w.namespace == HostNamespace && ModuleOf(db, w.provider) == Some(n))
  }

  lemma RevisionDependentModulesIff(db: Database, r: RevisionId, n: ModuleId)
    ensures n in RevisionDependentModules(db, r) <==> RevisionContributes(db, r, n)
  {
    RequirerModulesIff(db, Provided(db, r), n);
    HostModulesIff(db, Required(db, r), n);
  }

  lemma {:induction false} RevisionsDependentModulesIff(db: Database, revs: seq<RevisionId>, n: ModuleId)
    ensures n in RevisionsDependentModules(db, revs) <==> exists r :: r in revs && RevisionContributes(db, r, n)
  {
    if revs != [] {
      RevisionDependentModulesIff(db, revs[0], n);
      RevisionsDependentModulesIff(db, revs[1..], n);
      if exists r :: r in revs && RevisionContributes(db, r, n) {
        var r :| r in revs && RevisionContributes(db, r, n);
        if r != revs[0] {
          assert r in revs[1..];
        }
      }
    }
  }

  /**
   * The dependent edge: some revision in the history of `m` provides a wire whose requirer
   * belongs to `n`, or is a fragment attached by a host wire to a revision of `n`.
   */
  ghost predicate DependentEdge(db: Database, m: ModuleId, n: ModuleId) {
    m in db.modules && exists r :: r in db.modules[m].revisions && RevisionContributes(db, r, n)
  }

  /** The successors the traversal pushes are exactly the targets of dependent edges. */
  lemma ModuleDependentsIff(db: Database, m: ModuleId, n: ModuleId)
    ensures n in ModuleDependents(db, m) <==> DependentEdge(db, m, n)
  {
    if m in db.modules {
      RevisionsDependentModulesIff(db, db.modules[m].revisions, n);
    }
  }

  /** A finite set of modules, closed under the traversal, that holds the start set. */
  function ModuleUniverse(db: Database, initial: seq<ModuleId>): set<ModuleId> {
    db.modules.Keys + RevisionModules(db) + (set m | m in initial)
  }

  lemma ModuleUniverseClosed(db: Database, initial: seq<ModuleId>)
    ensures forall x :: x in initial ==> x in ModuleUniverse(db, initial)
    ensures forall x, y :: x in ModuleUniverse(db, initial) && y in DependentsOf(db)(x) ==> y in ModuleUniverse(db, initial)
  {
  }

  /** The refresh closure as a set: the modules reachable from `initial` along dependent edges. */
  ghost function RefreshClosureSet(db: Database, initial: seq<ModuleId>): set<ModuleId> {
    ReachableWithin(DependentsOf(db), initial, ModuleUniverse(db, initial))
  }

  /**
   * The refresh closure holds every initial module, the requirer module of every wire
   * provided by a resolved revision of a member, and the host module of every host wire of a
   * member's fragment revision; and it holds only modules reachable that way.
   */
  lemma RefreshClosureSetIsClosure(db: Database, initial: seq<ModuleId>)
    ensures forall m :: m in initial ==> m in RefreshClosureSet(db, initial)
    ensures forall m, n :: m in RefreshClosureSet(db, initial) && DependentEdge(db, m, n) ==> n in RefreshClosureSet(db, initial)
    ensures forall n :: n in RefreshClosureSet(db, initial) <==> Reachable(DependentsOf(db), initial, n)
  {
    var succ, u := DependentsOf(db), ModuleUniverse(db, initial);
    ModuleUniverseClosed(db, initial);
    ReachableWithinClosed(succ, initial, u);
    ReachableWithinExact(succ, initial, u);
    forall m, n | m in RefreshClosureSet(db, initial) && DependentEdge(db, m, n) ensures n in RefreshClosureSet(db, initial) {
      ModuleDependentsIff(db, m, n);
      assert n in succ(m);
    }
  }

  /** getRefreshClosure with addDependents(Module, ...): the traversal computes the refresh closure. */
  method RefreshClosure(db: Database, initial: seq<ModuleId>) returns (closure: set<ModuleId>)
    ensures closure == RefreshClosureSet(db, initial)
    ensures forall m :: m in initial ==> m in closure
    ensures forall m, n :: m in closure && DependentEdge(db, m, n) ==> n in closure
  {
    ModuleUniverseClosed(db, initial);
    closure := ReachAll(DependentsOf(db), ModuleUniverse(db, initial), initial);
    RefreshClosureSetIsClosure(db, initial);
  }

  // ---------------------------------------------------------------------------------------
  // Revision granularity: getDependencyClosure and addDependents(ModuleRevision, ...)

  function RequirerRevisions(wires: seq<Wire>): (r: seq<RevisionId>)
    ensures forall s :: s in r <==> exists w :: w in wires && w.requirer == s
  {
    if wires == [] then []
    else
      var rest := RequirerRevisions(wires[1..]);
      assert forall w :: w in wires[1..] ==> w in wires;
      assert forall w :: w in wires ==> w == wires[0] || w in wires[1..];
      [wires[0].requirer] + rest
  }

  function HostProviders(wires: seq<Wire>): (r: seq<RevisionId>)
    ensures forall s :: s in r <==> exists w :: w in wires && w.namespace == HostNamespace && w.provider == s
  {
    if wires == [] then []
    else
      var rest := HostProviders(wires[1..]);
      assert forall w :: w in wires[1..] ==> w in wires;
      assert forall w :: w in wires ==> w == wires[0] || w in wires[1..];
      (if wires[0].namespace == HostNamespace then [wires[0].provider] else []) + rest
  }

  /** The revisions addDependents recurses into from revision `r`. */
  function RevisionDependents(db: Database, r: RevisionId): seq<RevisionId> {
    RequirerRevisions(Provided(db, r)) + (if IsFragment(db, r) then HostProviders(Required(db, r)) else [])
  }

  function RevisionDependentsOf(db: Database): RevisionId -> seq<RevisionId> {
    r => RevisionDependents(db, r)
  }

  /** The dependent edge between revisions, stated directly. */
  ghost predicate RevisionEdge(db: Database, r: RevisionId, s: RevisionId) {
    (exists w :: w in Provided(db, r) && w.requirer == s) ||
    (IsFragment(db, r) && exists w :: w in Required(db, r) && w.namespace == HostNamespace && w.provider == s)
  }

  /** Every revision a wire of the arena names. */
  ghost function WireEnds(db: Database): set<RevisionId> {
    (set h, w | h in db.wirings && w in db.wirings[h].provided :: w.requirer) +
    (set h, w | h in db.wirings && w in db.wirings[h].required :: w.provider)
  }

  lemma RevisionDependentsInWireEnds(db: Database, r: RevisionId)
    ensures forall s :: s in RevisionDependents(db, r) ==> s in WireEnds(db)
  {
    forall s | s in RevisionDependents(db, r) ensures s in WireEnds(db) {
      if s in RequirerRevisions(Provided(db, r)) {
        var w :| w in Provided(db, r) && w.requirer == s;
        assert w in db.wirings[db.wiring[r]].provided;
      } else {
        var w :| w in Required(db, r) && w.namespace == HostNamespace && w.provider == s;
        assert w in db.wirings[db.wiring[r]].required;
      }
    }
  }

  /** The successors the traversal pushes are exactly the targets of revision edges. */
  lemma RevisionEdgeIff(db: Database, r: RevisionId, s: RevisionId)
    ensures s in RevisionDependents(db, r) <==> RevisionEdge(db, r, s)
  {
  }

  /** A set closed under the traversal's successors is closed under revision edges. */
  lemma RevisionEdgeClosed(db: Database, c: set<RevisionId>)
    requires forall x, y :: x in c && y in RevisionDependentsOf(db)(x) ==> y in c
    ensures forall r, s :: r in c && RevisionEdge(db, r, s) ==> s in c
  {
    forall r, s | r in c && RevisionEdge(db, r, s) ensures s in c {
      RevisionEdgeIff(db, r, s);
    }
  }

  lemma WireEndsClosed(db: Database, initial: RevisionId)
    ensures forall x, y :: x in WireEnds(db) + {initial} && y in RevisionDependentsOf(db)(x) ==> y in WireEnds(db) + {initial}
  {
    forall x, y | x in WireEnds(db) + {initial} && y in RevisionDependentsOf(db)(x) ensures y in WireEnds(db) {
      RevisionDependentsInWireEnds(db, x);
    }
  }

  /**
   * getDependencyClosure: the closure holds the start revision, is closed under the
   * revision-level dependent edge and holds only reachable revisions; a revision without a
   * wiring contributes only itself.
   */
  method DependencyClosure(db: Database, initial: RevisionId) returns (closure: set<RevisionId>)
    ensures initial in closure
    ensures forall r, s :: r in closure && RevisionEdge(db, r, s) ==> s in closure
    ensures forall s :: s in closure ==> Reachable(RevisionDependentsOf(db), [initial], s)
    ensures !Wired(db, initial) ==> closure == {initial}
  {
    if Wired(db, initial) {
      WireEndsClosed(db, initial);
      closure := ReachAll(RevisionDependentsOf(db), WireEnds(db) + {initial}, [initial]);
    } else {
      // An unresolved revision has no successors, so {initial} is already a closed universe.
      UnwiredHasNoDependents(db, initial);
      closure := ReachAll(RevisionDependentsOf(db), {initial}, [initial]);
      assert closure <= {initial};
    }
    RevisionEdgeClosed(db, closure);
  }

  lemma UnwiredHasNoDependents(db: Database, r: RevisionId)
    requires !Wired(db, r)
    ensures RevisionDependentsOf(db)(r) == []
  {
  }
}
