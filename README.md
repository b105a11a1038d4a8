# Equinox module container and Eclipse launcher: a verified model

This project models two parts of the Eclipse Equinox OSGi framework and proves properties of them.

**The module container** (`ModuleContainer`). It keeps the module database. It installs, updates
and uninstalls modules, under per-location and per-name locks. It resolves modules by merging a
resolver's delta of wirings into the database. It unresolves and refreshes the *refresh closure*
of a set of modules. That closure is every module reachable along "dependent" edges: from a
provider to the requirers of the wires it provides, and from a fragment to its hosts. It also
offers the framework-wiring adapter, which works on bundles rather than modules.

**The launcher** (`EclipseStarter`). This part models:

- command-line processing: framework options become framework property settings and are taken
  out of the arguments;
- the search of a directory listing for the highest version of a bundle;
- parsing and comparing version strings;
- the hand-written URL decoding of a location;
- merging property tables and applying the initial properties;
- splitting the installed bundles into initial and other bundles.

Java objects whose identity matters (modules, revisions, wirings) live in an arena of integer
handles inside one `Database` value (module `Graph`). A fresh handle stands for a new object.
The container is a Dafny class with these fields:

- the database;
- the calling thread's read holds on the monitor;
- the two lock sets;
- the thread's interrupt flag.

Loops of the source are methods with loop invariants. Each is proved against a reference
function, and the lemmas state what the source promises about that function.

Collaborators outside the modelled files are parameters:

- the resolver, as a function from trigger revisions, wiring map and database to a delta or a
  failure;
- the collision hook, as a function answering the candidates it filters out;
- the outcome of each timed `tryLock`, as a value: acquired, timed out or interrupted;
- the directory listing, `File.isFile` and `File.getAbsolutePath`;
- the bundle context's list of bundles.

The database primitives (`install`, `update`, `uninstall`, `getRevisions`, `removeRevision`,
`removeCapabilities`, `setWiring`, current revision) are not part of the modelled files. They
are given definitions that follow the container's expectations.

## Model

| member | source | states |
|---|---|---|
| Container.ModuleContainer.constructor | bundles/org.eclipse.equinox.framework/impl/org/eclipse/osgi/container/ModuleContainer.java:70-73 | a new container has no database, no read hold, no lock held, and keeps the given hook and resolver |
| Container.ModuleContainer.SetModuleDataBase | bundles/org.eclipse.equinox.framework/impl/org/eclipse/osgi/container/ModuleContainer.java:75-85 | a second call fails with IllegalState and keeps the first database; the first call installs the database |
| Container.ModuleContainer.GetModules | bundles/org.eclipse.equinox.framework/impl/org/eclipse/osgi/container/ModuleContainer.java:91-106 | the result lists exactly the installed modules, strictly ascending by id |
| Container.TryInstallLocks | bundles/org.eclipse.equinox.framework/impl/org/eclipse/osgi/container/ModuleContainer.java:147-159 | an existing location attempts no lock; otherwise success means both locks are held; a name lock is held only for a named bundle; an interrupt is a state-change failure |
| Container.InstallDecision | bundles/org.eclipse.equinox.framework/impl/org/eclipse/osgi/container/ModuleContainer.java:176-208 | the result, the database and the interrupt flag are those of the install outcome; the database is either unchanged or the one the database install gives |
| Container.ModuleContainer.Install | bundles/org.eclipse.equinox.framework/impl/org/eclipse/osgi/container/ModuleContainer.java:138-215 | result, database and interrupt flag follow the install outcome; the database stays well formed; every lock obtained is released, so the lock holds and read holds end as they began |
| Container.TryUpdateLock | bundles/org.eclipse.equinox.framework/impl/org/eclipse/osgi/container/ModuleContainer.java:222-232 | the name lock is held exactly for a named bundle whose attempt succeeds; failure exactly when it is not held; the interrupt flag is raised exactly when the attempt was interrupted |
| Container.UpdateDecision | bundles/org.eclipse.equinox.framework/impl/org/eclipse/osgi/container/ModuleContainer.java:251-265 | the result and database are those of the update outcome; the database is unchanged or the one the database update gives |
| Container.ModuleContainer.Update | bundles/org.eclipse.equinox.framework/impl/org/eclipse/osgi/container/ModuleContainer.java:217-270 | result, database and interrupt flag follow the update outcome; well-formedness is kept; the name lock is released on every exit |
| Container.ReleaseAcquire | bundles/org.eclipse.equinox.framework/impl/org/eclipse/osgi/container/ModuleContainer.java:209-214 | releasing in the finally block exactly what the attempt obtained restores the earlier lock holds |
| Container.ModuleContainer.ReleaseLocks | bundles/org.eclipse.equinox.framework/impl/org/eclipse/osgi/container/ModuleContainer.java:209-214 | after the finally block both lock sets hold what they held before the attempts |
| Container.ModuleContainer.Uninstall | bundles/org.eclipse.equinox.framework/impl/org/eclipse/osgi/container/ModuleContainer.java:272-282 | the database becomes the database uninstall of the module and stays well formed |
| Container.ModuleContainer.Resolve | bundles/org.eclipse.equinox.framework/impl/org/eclipse/osgi/container/ModuleContainer.java:297-337 | a resolver failure is a ResolutionFailed error that writes nothing; an empty delta writes nothing; otherwise the delta is applied; well-formedness is kept |
| Container.ModuleContainer.Unresolve | bundles/org.eclipse.equinox.framework/impl/org/eclipse/osgi/container/ModuleContainer.java:339-397 | without a read hold it fails with IllegalState and writes nothing; otherwise it returns the refresh closure and leaves the unresolved database |
| Container.ModuleContainer.Refresh | bundles/org.eclipse.equinox.framework/impl/org/eclipse/osgi/container/ModuleContainer.java:399-410 | the closure is unresolved and then resolved again; a resolution failure leaves the closure unresolved; the read holds are restored |
| Container.AdaptBundles | bundles/org.eclipse.equinox.framework/impl/org/eclipse/osgi/container/ModuleContainer.java:542-556 | fails with IllegalState exactly when some bundle has no module; otherwise answers the modules in bundle order |
| Container.ModuleContainer.ResolveBundles | bundles/org.eclipse.equinox.framework/impl/org/eclipse/osgi/container/ModuleContainer.java:496-509 | an unknown bundle is IllegalState with nothing written; otherwise true exactly when the resolver succeeds and every module's current revision ends with a wiring |
| Container.ClosureBundles | bundles/org.eclipse.equinox.framework/impl/org/eclipse/osgi/container/ModuleContainer.java:532-535 | one entry per closure module, in ascending id order, each the bundle of that module |
| Container.ModuleContainer.DependencyClosureBundles | bundles/org.eclipse.equinox.framework/impl/org/eclipse/osgi/container/ModuleContainer.java:526-540 | an unknown bundle is IllegalState; otherwise the bundles of exactly the refresh closure of the given modules |
| Closure.ReachAll | bundles/org.eclipse.equinox.framework/impl/org/eclipse/osgi/container/ModuleContainer.java:419-441 | the visited set contains the start elements, is closed under the edges, and holds exactly the elements reachable from the start |
| Closure.ReachableWithinExact | bundles/org.eclipse.equinox.framework/impl/org/eclipse/osgi/container/ModuleContainer.java:412-441 | inside any closed superset, the reachable set is exactly what a path from the start reaches |
| Closure.ModuleDependentsIff | bundles/org.eclipse.equinox.framework/impl/org/eclipse/osgi/container/ModuleContainer.java:423-440 | a module is a direct dependent exactly when it requires a wire provided by some revision's wiring, or hosts a fragment revision |
| Closure.RefreshClosure | bundles/org.eclipse.equinox.framework/impl/org/eclipse/osgi/container/ModuleContainer.java:412-441 | the result is the refresh closure: it contains the initial modules and is closed under the dependent edges |
| Closure.RefreshClosureSetIsClosure | bundles/org.eclipse.equinox.framework/impl/org/eclipse/osgi/container/ModuleContainer.java:412-441 | the refresh closure contains the initial modules, is closed under the dependent edges, and holds exactly the modules reachable from them |
| Closure.RevisionEdgeIff | bundles/org.eclipse.equinox.framework/impl/org/eclipse/osgi/container/ModuleContainer.java:449-468 | a revision is a direct dependent exactly when it requires a wire the revision's wiring provides, or is the host of that fragment wiring |
| Closure.DependencyClosure | bundles/org.eclipse.equinox.framework/impl/org/eclipse/osgi/container/ModuleContainer.java:443-468 | the closure contains the initial revision, is closed under the dependent edges, and holds only revisions reachable from it; an unwired revision's closure is itself alone |
| Closure.UnwiredHasNoDependents | bundles/org.eclipse.equinox.framework/impl/org/eclipse/osgi/container/ModuleContainer.java:453-455 | a revision without a wiring has no dependent |
| Unresolve.CollectRemovals | bundles/org.eclipse.equinox.framework/impl/org/eclipse/osgi/container/ModuleContainer.java:348-371 | it collects the wirings of every closure revision (removed from the wiring copy), the wires they require (grouped by provider wiring), and the revisions to drop |
| Unresolve.PruneProvidedWires | bundles/org.eclipse.equinox.framework/impl/org/eclipse/osgi/container/ModuleContainer.java:376-380 | every listed provider wiring loses exactly the wires listed for it, and nothing else changes |
| Unresolve.DropRevisions | bundles/org.eclipse.equinox.framework/impl/org/eclipse/osgi/container/ModuleContainer.java:382-385 | the histories lose the dropped revisions, and those revisions leave the capability index |
| Unresolve.InvalidateWirings | bundles/org.eclipse.equinox.framework/impl/org/eclipse/osgi/container/ModuleContainer.java:387-389 | exactly the removed wirings become invalid |
| Unresolve.ApplyRemovals | bundles/org.eclipse.equinox.framework/impl/org/eclipse/osgi/container/ModuleContainer.java:373-391 | under the write lock the histories lose the dropped revisions, which also leave the capability index; the listed provider wirings lose exactly their listed wires; exactly the removed wirings become invalid; the wiring-map copy is installed; nothing else changes |
| Unresolve.UnresolveDatabase | bundles/org.eclipse.equinox.framework/impl/org/eclipse/osgi/container/ModuleContainer.java:339-397 | it returns the refresh closure of the initial modules and the unresolved database of that closure |
| Unresolve.WiringAfter | bundles/org.eclipse.equinox.framework/impl/org/eclipse/osgi/container/ModuleContainer.java:351 | after unresolve a revision is wired exactly when it was wired before and is not a closure revision; it keeps its wiring object |
| Unresolve.ClosureUnwired | bundles/org.eclipse.equinox.framework/impl/org/eclipse/osgi/container/ModuleContainer.java:350-352 | every revision of a closure module is unwired afterwards |
| Unresolve.ClosureHistoryAfter | bundles/org.eclipse.equinox.framework/impl/org/eclipse/osgi/container/ModuleContainer.java:364-366 | a closure module's history shrinks to its current revision, or to nothing once uninstalled |
| Unresolve.OtherHistoryAfter | bundles/org.eclipse.equinox.framework/impl/org/eclipse/osgi/container/ModuleContainer.java:348-385 | a module outside the closure keeps its history |
| Unresolve.UnresolvePreservesWellFormed | bundles/org.eclipse.equinox.framework/impl/org/eclipse/osgi/container/ModuleContainer.java:339-397 | unresolving keeps the database well formed |
| Unresolve.UnresolvePreservesConsistency | bundles/org.eclipse.equinox.framework/impl/org/eclipse/osgi/container/ModuleContainer.java:376-390 | for a closed set, every remaining wire is listed on both of its ends afterwards, each pointing at a live wiring |
| Resolve.TriggerRevisions | bundles/org.eclipse.equinox.framework/impl/org/eclipse/osgi/container/ModuleContainer.java:305-310 | the result holds exactly the current revisions of the triggers, skipping modules without one |
| Resolve.ApplyDelta | bundles/org.eclipse.equinox.framework/impl/org/eclipse/osgi/container/ModuleContainer.java:317-330 | the delta is applied: an already-wired revision keeps its wiring object with the new wires, a newly resolved one gets a fresh wiring, and every other entry is untouched |
| Resolve.DeltaAppliedResolves | bundles/org.eclipse.equinox.framework/impl/org/eclipse/osgi/container/ModuleContainer.java:317-330 | every delta revision ends wired, with exactly the delta's provided and required wires; it reuses a wiring object it had and otherwise gets a new one |
| Resolve.DeltaAppliedWellFormed | bundles/org.eclipse.equinox.framework/impl/org/eclipse/osgi/container/ModuleContainer.java:317-330 | applying a delta that names only known revisions keeps the database well formed |
| Resolve.CheckResolved | bundles/org.eclipse.equinox.framework/impl/org/eclipse/osgi/container/ModuleContainer.java:505-508 | true exactly when every module has a current revision with a wiring |
| Lifecycle.DistinctBundles | bundles/org.eclipse.equinox.framework/impl/org/eclipse/osgi/container/ModuleContainer.java:163-171 | the candidates are duplicate-free and are exactly the non-null bundles of the revisions |
| Lifecycle.CollectCandidates | bundles/org.eclipse.equinox.framework/impl/org/eclipse/osgi/container/ModuleContainer.java:162-171 | the loop collects the distinct bundles of the revisions, in order |
| Lifecycle.CandidatesIff | bundles/org.eclipse.equinox.framework/impl/org/eclipse/osgi/container/ModuleContainer.java:162-171 | a bundle is a candidate exactly when it is the bundle of an indexed revision with that name and version |
| Lifecycle.InstallExistingLocation | bundles/org.eclipse.equinox.framework/impl/org/eclipse/osgi/container/ModuleContainer.java:176-185 | an installed location writes nothing and ignores locks, hook and descriptor; it answers the existing module, or RejectedByHook when the origin cannot see it |
| Lifecycle.InstallErrorWritesNothing | bundles/org.eclipse.equinox.framework/impl/org/eclipse/osgi/container/ModuleContainer.java:138-215 | a failing install leaves the database unchanged |
| Lifecycle.InstallLockFailure | bundles/org.eclipse.equinox.framework/impl/org/eclipse/osgi/container/ModuleContainer.java:150-159 | a lock not obtained, or a null name, is a state-change error; the interrupt flag is raised exactly when an attempt was interrupted |
| Lifecycle.UpdateLockFailure | bundles/org.eclipse.equinox.framework/impl/org/eclipse/osgi/container/ModuleContainer.java:218-232 | a name lock not obtained, or a null name, is a state-change error that writes nothing; the interrupt flag is raised exactly when the attempt was interrupted |
| Lifecycle.InstallCollision | bundles/org.eclipse.equinox.framework/impl/org/eclipse/osgi/container/ModuleContainer.java:186-193 | with an origin, a candidate the hook leaves is a duplicate error that writes nothing; without an origin the hook is not consulted |
| Lifecycle.InstallFreshModule | bundles/org.eclipse.equinox.framework/impl/org/eclipse/osgi/container/ModuleContainer.java:194-197 | a new module gets the next id, greater than every existing one, is indexed at its location, and has the new revision as its current one |
| Lifecycle.InstallTwice | bundles/org.eclipse.equinox.framework/impl/org/eclipse/osgi/container/ModuleContainer.java:177-184 | installing the same location again, visibly, returns the same module and writes nothing |
| Lifecycle.InstallIdsIncrease | bundles/org.eclipse.equinox.framework/impl/org/eclipse/osgi/container/ModuleContainer.java:194-197 | a later install of a new location returns a greater module id |
| Lifecycle.InstallDuplicate | bundles/org.eclipse.equinox.framework/impl/org/eclipse/osgi/container/ModuleContainer.java:160-193 | with a hook that filters nothing, the same name and version at a second location is a duplicate error and writes nothing |
| Lifecycle.UpdateErrorWritesNothing | bundles/org.eclipse.equinox.framework/impl/org/eclipse/osgi/container/ModuleContainer.java:217-270 | a failing update leaves the database unchanged |
| Lifecycle.UpdateNewCurrent | bundles/org.eclipse.equinox.framework/impl/org/eclipse/osgi/container/ModuleContainer.java:260-265 | a successful update puts a fresh revision, indexed, at the front of the history, where it is the current revision |
| Lifecycle.UpdateSelfCollision | bundles/org.eclipse.equinox.framework/impl/org/eclipse/osgi/container/ModuleContainer.java:236-259 | the module's own current revision with the same name and version collides: with a hook that filters nothing, the update is a duplicate error |
| Lifecycle.UninstallUnindexes | bundles/org.eclipse.equinox.framework/impl/org/eclipse/osgi/container/ModuleContainer.java:272-282 | the module leaves the location index and its revisions leave the capability index; other locations and every wiring stay |
| Lifecycle.InstallPreservesWellFormed | bundles/org.eclipse.equinox.framework/impl/org/eclipse/osgi/container/ModuleContainer.java:138-215 | every install outcome leaves a well-formed database |
| Lifecycle.UpdatePreservesWellFormed | bundles/org.eclipse.equinox.framework/impl/org/eclipse/osgi/container/ModuleContainer.java:217-270 | every update outcome leaves a well-formed database |
| CommandLine.RecognizeIff | bundles/org.eclipse.osgi/eclipseAdaptor/src/org/eclipse/core/runtime/adaptor/EclipseStarter.java:769-880 | an argument is read as an option exactly when it equals that option's spelling ignoring case, so at most one option matches |
| CommandLine.ProcessCommandLine | bundles/org.eclipse.osgi/eclipseAdaptor/src/org/eclipse/core/runtime/adaptor/EclipseStarter.java:751-912 | no arguments leave everything to the application; otherwise the application and framework arguments are the unmarked and marked arguments in order, with the reading's settings and flags |
| CommandLine.RecordFrameworkArgs | bundles/org.eclipse.osgi/eclipseAdaptor/src/org/eclipse/core/runtime/adaptor/EclipseStarter.java:758-888 | the first loop makes the reading's settings and flags and records, in ascending order, the positions of the framework arguments; the rest of the array stays zero |
| CommandLine.SplitArgs | bundles/org.eclipse.osgi/eclipseAdaptor/src/org/eclipse/core/runtime/adaptor/EclipseStarter.java:897-909 | walking the recorded positions sends each argument to exactly the list its mark selects, in order |
| CommandLine.SelectElement | bundles/org.eclipse.osgi/eclipseAdaptor/src/org/eclipse/core/runtime/adaptor/EclipseStarter.java:897-909 | argument k is at the index "how many before it have its mark" in the list its mark selects, so no argument is lost or reordered |
| CommandLine.SelectSplits | bundles/org.eclipse.osgi/eclipseAdaptor/src/org/eclipse/core/runtime/adaptor/EclipseStarter.java:894-896 | the two lists together are as long as the arguments |
| CommandLine.DebugIffDebugSetting | bundles/org.eclipse.osgi/eclipseAdaptor/src/org/eclipse/core/runtime/adaptor/EclipseStarter.java:769-773 | the debug flag is raised exactly when an osgi.debug setting is made |
| CommandLine.SettingValuesFromArgs | bundles/org.eclipse.osgi/eclipseAdaptor/src/org/eclipse/core/runtime/adaptor/EclipseStarter.java:769-882 | every setting's value is "", "true", or one of the arguments |
| CommandLine.PlainCommandLine | bundles/org.eclipse.osgi/eclipseAdaptor/src/org/eclipse/core/runtime/adaptor/EclipseStarter.java:890-894 | without any argument starting with '-', every argument goes to the application in order, none is a framework argument, and nothing is set |
| CommandLine.UnrecognisedIff | bundles/org.eclipse.osgi/eclipseAdaptor/src/org/eclipse/core/runtime/adaptor/EclipseStarter.java:769-880 | an argument matches none of the options' spellings, ignoring case, exactly when the option reading finds no option in it |
| CommandLine.NothingRecognised | bundles/org.eclipse.osgi/eclipseAdaptor/src/org/eclipse/core/runtime/adaptor/EclipseStarter.java:815-909 | when no argument is an option every argument goes to the application in order, no argument is a framework argument, nothing is set and no flag is raised |
| CommandLine.ReadingSplitsAt | bundles/org.eclipse.osgi/eclipseAdaptor/src/org/eclipse/core/runtime/adaptor/EclipseStarter.java:758-888 | a position where the loop examines an argument splits the reading into the steps before it, exactly as many marks as positions before it, and the reading from it on |
| CommandLine.ValueOptionStep | bundles/org.eclipse.osgi/eclipseAdaptor/src/org/eclipse/core/runtime/adaptor/EclipseStarter.java:769-856 | -debug, -dev or -console followed by nothing or by an argument starting with '-' marks itself alone and sets its property to ""; otherwise it marks itself and the next argument and sets the property to that argument |
| CommandLine.BareValueOptionRule | bundles/org.eclipse.osgi/eclipseAdaptor/src/org/eclipse/core/runtime/adaptor/EclipseStarter.java:769-814 | where the loop examines -debug, -dev or -console that is last or followed by an argument starting with '-', that argument alone is a framework argument and its property is set to "" |
| CommandLine.PairedValueOptionRule | bundles/org.eclipse.osgi/eclipseAdaptor/src/org/eclipse/core/runtime/adaptor/EclipseStarter.java:815-888 | where the loop examines -debug, -dev or -console followed by an argument without a leading '-', both are framework arguments, the property is set to that argument, and the loop never examines that argument as an option |
| CommandLine.UnrecognisedPairRule | bundles/org.eclipse.osgi/eclipseAdaptor/src/org/eclipse/core/runtime/adaptor/EclipseStarter.java:815-888 | where the loop examines an unrecognised argument followed by one without a leading '-', both stay application arguments, nothing is set, and the loop skips the second one |
| StartupBundles.GetCurrentBundles | bundles/org.eclipse.osgi/eclipseAdaptor/src/org/eclipse/core/runtime/adaptor/EclipseStarter.java:981-993 | the loop returns the selected bundles in list order |
| StartupBundles.FilterSelectedMembers | bundles/org.eclipse.osgi/eclipseAdaptor/src/org/eclipse/core/runtime/adaptor/EclipseStarter.java:985-990 | a bundle is returned exactly when it is installed and selected: initial with the flag, or neither initial nor the system bundle without it |
| StartupBundles.FilterSelectedOrdered | bundles/org.eclipse.osgi/eclipseAdaptor/src/org/eclipse/core/runtime/adaptor/EclipseStarter.java:983-992 | the returned bundles keep the installed order |
| StartupBundles.CurrentBundlesPartition | bundles/org.eclipse.osgi/eclipseAdaptor/src/org/eclipse/core/runtime/adaptor/EclipseStarter.java:985-990 | every installed bundle other than a non-initial system bundle is returned by exactly one of the two calls |
| StartupBundles.SystemBundleNeverCurrent | bundles/org.eclipse.osgi/eclipseAdaptor/src/org/eclipse/core/runtime/adaptor/EclipseStarter.java:989 | a non-initial bundle is returned only when it is not the system bundle |
| StarterProperties.Properties.GetProperty | bundles/org.eclipse.osgi/eclipseAdaptor/src/org/eclipse/core/runtime/adaptor/EclipseStarter.java:1194-1195 | the value of a present key, None for a missing one |
| StarterProperties.MergeProperties | bundles/org.eclipse.osgi/eclipseAdaptor/src/org/eclipse/core/runtime/adaptor/EclipseStarter.java:1191-1198 | the destination becomes the merge of its own entries with the source's, whatever the key order |
| StarterProperties.MergedEntries | bundles/org.eclipse.osgi/eclipseAdaptor/src/org/eclipse/core/runtime/adaptor/EclipseStarter.java:1191-1198 | the merge keeps every destination entry, adds every missing source entry, and has no other key |
| StarterProperties.MergedIdempotent | bundles/org.eclipse.osgi/eclipseAdaptor/src/org/eclipse/core/runtime/adaptor/EclipseStarter.java:1191-1198 | merging the same source twice changes nothing the second time, and a table merged into itself is unchanged |
| StarterProperties.FrameworkProperties.SetInitialProperties | bundles/org.eclipse.osgi/eclipseAdaptor/src/org/eclipse/core/runtime/adaptor/EclipseStarter.java:1498-1508 | a missing or empty map changes nothing; otherwise the properties become the applied values, whatever the key order |
| StarterProperties.AppliedEntries | bundles/org.eclipse.osgi/eclipseAdaptor/src/org/eclipse/core/runtime/adaptor/EclipseStarter.java:1501-1507 | a key with a value has it, a key mapped to null is cleared, every other key is as it was |
| StarterProperties.AppliedIdempotent | bundles/org.eclipse.osgi/eclipseAdaptor/src/org/eclipse/core/runtime/adaptor/EclipseStarter.java:1498-1508 | applying the same initial values twice is the same as once |
| Search.Classify | bundles/org.eclipse.osgi/eclipseAdaptor/src/org/eclipse/core/runtime/adaptor/EclipseStarter.java:1264-1276 | a candidate starts with the target; a plain jar is the target plus four characters ending ".jar"; a version comes after "target_"; the target itself is a candidate without a version |
| Search.Render | bundles/org.eclipse.osgi/eclipseAdaptor/src/org/eclipse/core/runtime/adaptor/EclipseStarter.java:1288 | the separators become '/', and a '/' is appended |
| Search.SearchFor | bundles/org.eclipse.osgi/eclipseAdaptor/src/org/eclipse/core/runtime/adaptor/EclipseStarter.java:1251-1289 | None exactly when there is no listing or no entry is accepted; otherwise the rendered path of the first accepted entry with the greatest version |
| Search.ConsiderEntry | bundles/org.eclipse.osgi/eclipseAdaptor/src/org/eclipse/core/runtime/adaptor/EclipseStarter.java:1263-1284 | one turn of the loop keeps its invariant: nothing found exactly when no entry so far is accepted, and otherwise the kept path and version are those of the first accepted entry with the greatest version so far |
| Search.FirstGreatestUnique | bundles/org.eclipse.osgi/eclipseAdaptor/src/org/eclipse/core/runtime/adaptor/EclipseStarter.java:1278-1284 | the first entry with the greatest version is unique, so the result is determined |
| Versions.TokensPartition | bundles/org.eclipse.osgi/eclipseAdaptor/src/org/eclipse/core/runtime/adaptor/EclipseStarter.java:1303-1306 | the tokens of the "." tokenizer are non-empty, free of '.', and together spell the input without its dots |
| Versions.ParseInt | bundles/org.eclipse.osgi/eclipseAdaptor/src/org/eclipse/core/runtime/adaptor/EclipseStarter.java:1309-1316 | a parsed token lies in the 32-bit range, and the empty token does not parse |
| Versions.GetVersionElements | bundles/org.eclipse.osgi/eclipseAdaptor/src/org/eclipse/core/runtime/adaptor/EclipseStarter.java:1301-1323 | the tokenizer loop gives the reference reading of the version |
| Versions.VersionNullIff | bundles/org.eclipse.osgi/eclipseAdaptor/src/org/eclipse/core/runtime/adaptor/EclipseStarter.java:1309-1314 | the result is null exactly when the first token is not an integer |
| Versions.EmptyVersion | bundles/org.eclipse.osgi/eclipseAdaptor/src/org/eclipse/core/runtime/adaptor/EclipseStarter.java:1302-1304 | a version without tokens gives the defaults -1, -1, -1 and "" |
| Versions.VersionSlots | bundles/org.eclipse.osgi/eclipseAdaptor/src/org/eclipse/core/runtime/adaptor/EclipseStarter.java:1305-1321 | slots beyond the tokens stay -1; a bad second number leaves the rest at their defaults; the qualifier is "" or the fourth token |
| Versions.ParseDecimalString | bundles/org.eclipse.osgi/eclipseAdaptor/src/org/eclipse/core/runtime/adaptor/EclipseStarter.java:1310 | the decimal spelling of a non-negative integer parses back to it |
| Versions.ParseNegativeDecimalString | bundles/org.eclipse.osgi/eclipseAdaptor/src/org/eclipse/core/runtime/adaptor/EclipseStarter.java:1310 | a minus sign followed by a decimal spelling parses to the negative value |
| Versions.CompareVersion | bundles/org.eclipse.osgi/eclipseAdaptor/src/org/eclipse/core/runtime/adaptor/EclipseStarter.java:1332-1348 | a null left version compares as -1, whatever the right one |
| Versions.CompareVersionLexicographic | bundles/org.eclipse.osgi/eclipseAdaptor/src/org/eclipse/core/runtime/adaptor/EclipseStarter.java:1335-1347 | the result is negative exactly when the left version is lexicographically smaller on major, minor, service and then the qualifier string |
| Versions.CompareVersionZero | bundles/org.eclipse.osgi/eclipseAdaptor/src/org/eclipse/core/runtime/adaptor/EclipseStarter.java:1332-1348 | comparing gives 0 exactly for equal versions |
| Versions.CompareVersionAntisymmetric | bundles/org.eclipse.osgi/eclipseAdaptor/src/org/eclipse/core/runtime/adaptor/EclipseStarter.java:1332-1348 | swapping the operands flips the sign |
| Versions.CompareVersionTransitive | bundles/org.eclipse.osgi/eclipseAdaptor/src/org/eclipse/core/runtime/adaptor/EclipseStarter.java:1332-1348 | "less than" is transitive |
| Versions.CompareVersionMajorFirst | bundles/org.eclipse.osgi/eclipseAdaptor/src/org/eclipse/core/runtime/adaptor/EclipseStarter.java:1335-1337 | a smaller major number decides the comparison, whatever follows |
| UrlDecode.HexToByte | bundles/org.eclipse.osgi/eclipseAdaptor/src/org/eclipse/core/runtime/adaptor/EclipseStarter.java:1441-1484 | a hexadecimal digit of either case gives its value below 16; anything else is an IllegalArgumentException |
| UrlDecode.HexToByteInverse | bundles/org.eclipse.osgi/eclipseAdaptor/src/org/eclipse/core/runtime/adaptor/EclipseStarter.java:1441-1484 | hexToByte inverts both the upper-case and the lower-case digit of every value below 16 |
| UrlDecode.Decode | bundles/org.eclipse.osgi/eclipseAdaptor/src/org/eclipse/core/runtime/adaptor/EclipseStarter.java:1417-1439 | the manual branch gives the reference decoding's error when it fails; otherwise the input itself exactly when it has no '%', else the decoded bytes |
| UrlDecode.DecodeWithoutEscapes | bundles/org.eclipse.osgi/eclipseAdaptor/src/org/eclipse/core/runtime/adaptor/EclipseStarter.java:1424-1431 | bytes without '%' decode to themselves |
| UrlDecode.DecodeShrinks | bundles/org.eclipse.osgi/eclipseAdaptor/src/org/eclipse/core/runtime/adaptor/EclipseStarter.java:1420-1422 | decoding never produces more bytes than it reads, so the output array is large enough |
| UrlDecode.DecodeEncode | bundles/org.eclipse.osgi/eclipseAdaptor/src/org/eclipse/core/runtime/adaptor/EclipseStarter.java:1424-1431 | decoding undoes percent-encoding every byte |

## Left out

- Locks: the monitor's upgrade reservation and its write lock, and the lock sets' waiting and timeouts, are not modelled. A `tryLock` is an input telling its outcome, and the monitor is the count of the calling thread's read holds.
- The read lock is held while install and update wait on `tryLock`. That concurrency hazard is outside a single-thread model.
- Events (the "fire ... event" TODOs), `doPrivileged`, `refreshBundles` and `getRemovalPendingBundles` are not modelled. They are not part of this model's operations.
- Container.ModuleContainer.DependencyClosureBundles, Container.ModuleContainer.Refresh: the refresh closure is a Java `HashSet`, whose iteration order is unspecified. The model visits it in ascending module id.
- Resolve.ApplyDelta: delta entries are merged in ascending revision order, not the `HashMap` order. The resolver's wire objects are taken as given. The `newlyResolved` list only feeds the resolved events, which are left out, so it is not built.
- Unresolve.DropRevisions: `removeRevision` removes every occurrence of the revision from its history.
- Lifecycle.UpdateSelfCollision: the code does not exclude the module's own revisions from the update's collision candidates, so a hook that filters nothing rejects an update to the same name and version. The model follows the code.
- The module database (`ModuleDataBase`, `ModuleRevisions`) is not part of this model. Its install, update, uninstall, `getRevisions`, `removeCapabilities` and current revision are defined to match how the container uses them. The current revision is the first listed one unless the history is uninstalled.
- CommandLine.ProcessCommandLine: `equalsIgnoreCase` is modelled on ASCII letters only.
- The keys the location manager uses for `-configuration`, `-user` and `-data` are not part of this model. They are kept as the abstract keys ConfigArea, UserArea and InstanceArea.
- The `EclipseEnvironmentInfo` setters and the static debug and initialize flags are outputs. `setFrameworkArgs` and `setAppArgs` are the two returned lists. `setAllArgs` receives the arguments themselves, so it is not an output.
- CommandLine.ProcessCommandLine: for no arguments the source calls only `setFrameworkArgs` and `setAllArgs` and leaves the application arguments unset. The model still returns the (empty) arguments as the application arguments.
- The `FrameworkProperties.setProperty` calls are returned as a list of settings.
- A parameter option's test of `args[i - 1]` after the increment is the test of the same string already read, so the model reuses that recognition.
- Versions.StringCompare: `String.compareTo` is modelled on characters as code units, without UTF-16 surrogate handling.
- `new Integer(token)` accepts only ASCII digits in the model, with an optional sign and a 32-bit range. Java's `Character.digit` also accepts other Unicode digits.
- UrlDecode.Decode: the `URLDecoder` path, reached by reflection, and its '+' pre-encoding are not modelled; only the manual branch is.
- The decoded bytes are returned as bytes. The UTF-8 `String` construction and `getBytes`' platform encoding are not modelled.
- Search.SearchFor: the `searchCandidates` cache is not modelled. `File.list`, `isFile` and `getAbsolutePath` are inputs.
- StarterProperties: `Properties` defaults and non-String values are not modelled.
- `FrameworkProperties` is a class with a map of values, not the system properties.
