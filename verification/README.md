# Cargo's build-graph analyses, locks, configuration and text formats, in Dafny

This project models the parts of Cargo whose logic is a fixpoint, a memoised traversal, a protocol
or a merge, and proves what they promise for every input, every order and every run. `dafny verify
dfyconfig.toml` checks all of it.

| Area | Modules | Main results |
|---|---|---|
| LTO propagation | `Lto.dfy`, `LtoSolution.dfy`, `LtoValues.dfy` | the map is the least solution of the propagation rules and, on acyclic graphs, the only exact one; every value has an exact description in terms of profiles, crate types and neighbours; root and dependency order do not matter; the recursion ends on cyclic graphs too |
| Unit graph | `UnitDependencies.dfy`, `UnitLists.dfy`, `UnitGraph.dfy`, `ScriptLinks.dfy`, `BuildUnitGraph.dfy`, `DocCycle.dfy`, `Interning.dfy` | each unit depends on exactly what its package, the resolve and the scripts beside it call for; the finished graph is closed and, under an exact condition, acyclic; a workspace for which it is not; the collision panic of the standard library cannot be reached |
| Build scripts | `BuildScripts.dfy`, `LinkSets.dfy`, `BuildRun.dfy`, `BuildPlan.dfy`, `NativeDeps.dfy` | the memoised link sets equal the unmemoised recursion, and hold exactly the scripts along linked paths, in a stated order; on a graph that was built and is acyclic, with distinct metadata, none of the three panics can be reached, while on a cyclic one `build` recurses without end; over a whole run no output is stored under an occupied key |
| Job queue | `DependencyQueue.dfy`, `JobOrder.dfy` | a job is handed out exactly when all it waits for was produced, the queue's panics and its getting stuck have exact conditions, and a job that starts finds the output of every script it links unless the script stored none |
| Directives | `RustcFlags.dfy`, `DirectiveLines.dfy`, `Directives.dfy`, `DirectiveRoundTrip.dfy`, `DirectiveMeaning.dfy` | which lines are which directive; rewriting `cargo:` to `cargo::` preserves the parse exactly when the minimum Rust version permits it or nothing is at stake; printing and parsing round-trip; flags are accepted exactly if they are renderings |
| Locking | `Locking.dfy`, `LockRuns.dfy`, `LockManager.dfy` | in every interleaving of any number of processes, each with any set of build directories, exactly when two can compile a unit at once, when a reader's files can change under its lock, and when a coarse build is disturbed; the lock manager's operations are the protocol's steps |
| Configuration | `ConfigValues.dfy`, `ConfigMerge.dfy`, `ConfigSources.dfy`, `ConfigLoad.dfy`, `ConfigFiles.dfy`, `ConfigPrecedence.dfy`, `ConfigEnv.dfy`, `ConfigReach.dfy`, `ConfigTrees.dfy`, `ConfigExact.dfy`, `ConfigPanic.dfy`, `ConfigOrder.dfy` | scalars come from the text of the file or argument with the highest precedence and lists from all of them, for every hash-map order; exactly when a list is replaced or appended under every order, over all merges of a load; loading succeeds exactly when no file is opened twice and no two sources clash |
| Other | `Sbom.dfy`, `CleanMarks.dfy`, `LockText.dfy`, `LockfileWriter.dfy`, `LockWrites.dfy`, `LockRead.dfy` | SBOM graph and indices, removal marks, lock file text that settles and reads back |

`Graphs.dfy`, `Units.dfy` and `Sorting.dfy` hold the shared vocabulary: paths, reachability, ranks
of acyclic graphs, the unit data, and a stable sort.

## How the model reads

- A unit is its contents. Cargo compares units by pointer; `Interning` shows why that is the same.
- Profile choice, feature resolution, the package resolve and `UnitFor` are functions in a `World`
  about which only consistency is assumed (`WellFormedWorld`, `Inputs`).
- `ghost` parameters such as `all`, and out-parameters such as `tree`, carry the finite universe or
  the witness a result is stated with; they do not take part in the computation.
- Hash maps that are iterated hand out their entries in an arbitrary order (`Order`), a new one for
  each merge of a load (`Merger`), and every result about configuration holds for every order. Cargo's
  maps are `rustc_hash::FxHashMap` (`src/util/data_structures.rs`), whose order is fixed by the names,
  the capacity and the insertions, so `Order` ranges over more than this hasher produces: what holds
  under every order holds for Cargo, and what happens under some order is possible for the code,
  not always for the hasher it is built with.
- Rejected input is a value (`Option`, `LoadResult`, `Failed`, `Refused`), not a precondition.

## Where code and documentation differ

The model follows the code.

- The comment at `src/compiler/custom_build.rs:198-203` speaks of topological order for `to_link`.
  The code gives first-occurrence preorder over dependencies sorted by package (`Entry`,
  `EntryMeaning`).
- Documenting a package does not record dev edges the way compiling does
  (`src/compiler/unit_dependencies.rs:356-366` has no counterpart in `compute_deps_doc`), so two
  scripts can wait for each other: `DocumentExample` is an instance of the construction that
  shows it, `AcyclicExactly` says exactly when it happens, and documenting no test or example as a
  root is enough to rule it out. On a cyclic graph `build` (`src/compiler/custom_build.rs:1289`)
  recurses without end; `PlanBuild` reports such a graph as `Cyclic`.
- `merge_helper` pushes the key at `src/context/config_value.rs:183` and never pops it, so the fate
  of a list can depend on hash-map order: `PathsLost`, `PathsKept` and `BrowserMerged` are concrete
  inputs, `ReplacedExactly` and `AppendedExactly` the exact conditions. For the same reason the
  assertion at `src/context/mod.rs:1079-1085` can fail: `BrowserPanics`, `PanicsExactly` and, for a
  whole load, `LoadedPanicsExactly`.
- The comment at `src/util/flock.rs:369-383` says that file locks are skipped entirely on NFS. That
  is so for opening a lock file, but `LockManager::lock`, `downgrade_to_shared` and `unlock` ask the
  operating system on NFS too. The model takes such a request to exclude other processes where it
  is granted, on NFS as elsewhere; the comment warns that it may block forever there.
- `cargo clean` of a whole directory takes no lock (`src/ops/cargo_clean.rs:115-130`) and deletes
  the lock files, so what the locks promise holds only as long as it is not used.
- `ConfigKey::matches` lets `*` accept a part that is not there, so the key `credential-alias` alone
  counts as a non-mergeable list.
- `write_pkg_lockfile` compares line by line, which hides one carriage return: the written text is
  stable if no kept comment ends in `\r`, and the second write is a no-op if none ends in `\r\r`.
- The minimum-version test for `cargo::` is a caret requirement, so a minimum version of 2.0 would
  be refused the new syntax.

## Model

| member | source | states |
|---|---|---|
| `LtoPropagation.Generate` | src/compiler/lto.rs:46-71 | the returned map is the least one that gives every root at least its own demand and every dependency at least what the transfer function asks at its parent's value; what that map holds is said by `StandaloneValue`, `FollowingValue` and `OffExactly`, which do not use that function |
| `LtoPropagation.Propagation.Calculate` | src/compiler/lto.rs:92-195 | one call propagates a demand as far as it changes anything, stays below every solution that meets the demand, and ends on any finite graph because the summed headroom falls |
| `LtoPropagation.MergeIsJoin` | src/compiler/lto.rs:144-182 | on the values one unit can carry, merging is the least upper bound, and a changed result is strictly higher |
| `LtoPropagation.TransferMonotone` | src/compiler/lto.rs:100-140 | a larger parent value never asks less of the dependency |
| `LtoPropagation.TransferFeasible` | src/compiler/lto.rs:100-140 | only units whose value is constant ever get `Run` |
| `LtoPropagation.HeadroomShrinks` | src/compiler/lto.rs:144-193 | raising one value lowers the measure that bounds the recursion, cyclic graph or not |
| `LtoSolution.LeastDomain` | src/compiler/mod.rs:1731-1750 | the map is defined exactly on the units reachable from the roots, so the later lookup is total on them |
| `LtoSolution.LeastIsJoin` | src/compiler/lto.rs:144-182 | each value is the join of what roots and parents require at their final values |
| `LtoSolution.LeastIsExact` | src/compiler/lto.rs:46-195 | the least solution solves the equations exactly, with nothing above the join |
| `LtoSolution.UniqueOnAcyclic` | src/compiler/lto.rs:46-195 | on an acyclic graph there is only one exact solution |
| `LtoSolution.OrderIrrelevant` | src/compiler/lto.rs:46-71 | permuting or repeating roots and dependencies leaves the map unchanged |
| `LtoSolution.OffComesFromProfiles` | src/compiler/lto.rs:46-140 | `Off` appears only if some profile says `Off` |
| `LtoSolution.DependencyServesParent` | src/compiler/lto.rs:73-193 | without `Off` profiles a dependency carries object code if its parent does or it needs it, and bitcode if its parent runs LTO or carries bitcode, unless all its types are dylib |
| `LtoSolution.NothingInVain` | src/compiler/lto.rs:100-182 | the converse: bitcode only for a parent that runs LTO or carries bitcode, object code only for a parent that carries it or for the unit's own types |
| `LtoSolution.RootIsServed` | src/compiler/lto.rs:46-71 | what a root that may be linked into something carries, given its profile and types |
| `LtoSolution.RunExactly` | src/compiler/lto.rs:112-128 | LTO runs exactly in target units whose types all allow it and whose profile asks for it, with that flavour; host units get object code only |
| `LtoValues.StandaloneValue` | src/compiler/lto.rs:104-128 | a host unit carries object code; a target unit that is linked into nothing else (a test or doctest, or a target all of whose types are bin, staticlib or cdylib) carries `Off` for a profile that says off, object code for `false`, and runs LTO for `true` or a name |
| `LtoValues.FollowingValue` | src/compiler/lto.rs:46-195 | any other unit is `Off` if and only if it is a root with that profile or a parent is `Off`; otherwise it has object code if and only if one of its types is made of it, it is a root with `false`, or a parent has it, and bitcode if and only if a parent has both, or it is not all dylib and is asked for it by its own profile as a root, a parent that runs LTO or one with bitcode only |
| `LtoValues.PlainBuild` | src/compiler/lto.rs:46-195 | where every profile in reach says `false`, every unit has object code and nothing else |
| `LtoValues.OffExactly` | src/compiler/lto.rs:92-195 | a unit is `Off` if and only if a chain of units that follow their parents leads to it from a unit whose own profile, as a root or a standalone unit, says off |
| `Interning.UnitInterner.InternInner` | src/compiler/unit.rs:306-314 | one handle per contents; contents already there add nothing |
| `Interning.UnitInterner.Intern` | src/compiler/unit.rs:249-304 | the handle holds the requested unit, with a standard library's dylib turned into an rlib, and nothing else about it changed |
| `Interning.InternAll` | src/compiler/unit.rs:175-186 | over a session two handles are the same pointer exactly if what is stored is equal; std and user units never coincide |
| `UnitDependencies.ComputedEdgeFacts` | src/compiler/unit_dependencies.rs:287-836 | every edge computed for a unit of any mode descends a tier, stays in the package one layer down, follows a non-dev package dependency, or is a dev edge that is recorded unless the parent is documented |
| `UnitDependencies.ResolvedFacts` | src/compiler/unit_dependencies.rs:312-381 | the same for the dependencies taken from the resolve, including artifact dependencies |
| `UnitDependencies.OwnPackageFacts` | src/compiler/unit_dependencies.rs:383-440 | the same for a package's own script, library and binaries |
| `UnitDependencies.ScriptArtifactFacts` | src/compiler/unit_dependencies.rs:493-581 | the same for what a script run needs, which is built and never a script run |
| `UnitLists.ListExactly` | src/compiler/unit_dependencies.rs:287-836 | the list of a unit holds exactly: the first linkable library of each resolved package with an applicable dependency that is not artifact-only, each selected artifact, the run of its script, its own library, the binaries of an integration test or benchmark, what documenting adds, the units to scrape, and for a script run that is not overridden the compiled script and its build artifacts; each with its mode, kind, profile, features and dependency name |
| `UnitLists.RecordedExactly` | src/compiler/unit_dependencies.rs:356-366 | an edge is recorded as a dev edge if and only if it leads to a library or artifact that all the applicable dependencies name for development only |
| `UnitGraphs.State.DepsOf` | src/compiler/unit_dependencies.rs:267-285 | the memoised traversal only adds entries; each is what `compute_deps` gives on some visit, with exactly its dev edges recorded, and has all its dependencies in the graph; it ends because each insertion uses up one unit, and fails only if a helper does; every entry it adds is computed for a purpose that this visit leads to, step by step along the dependencies |
| `UnitGraphs.State.DepsOfEach` | src/compiler/unit_dependencies.rs:280-284 | the same for a list of units, with failure passed on |
| `UnitGraphs.State.DepsOfRoots` | src/compiler/unit_dependencies.rs:228-265 | the roots are in the graph and everything added is closed |
| `UnitGraphs.State.CalcDepsOfStd` | src/compiler/unit_dependencies.rs:174-189 | the std graph is closed, holds the std roots, has only std units with their computed dependencies, and leaves the user graph empty |
| `UnitGraphs.State.AttachStdDeps` | src/compiler/unit_dependencies.rs:191-226 | every non-host unit that is not a script run gets the std roots of its kind, std units are added, and no insertion collides |
| `UnitGraphs.StdIsDisjoint` | src/compiler/unit_dependencies.rs:215-225 | a user graph and a std graph share no unit, since equality includes `is_std` |
| `UnitGraphs.AttachedClosed` | src/compiler/unit_dependencies.rs:191-226 | attaching keeps the graph closed |
| `UnitGraphs.AttachedKnown` | src/compiler/unit_dependencies.rs:191-226 | after attaching, every edge is a computed one or leads into the standard library |
| `UnitGraphs.AttachedListed` | src/compiler/unit_dependencies.rs:191-226 | after attaching, each list is the computed one, followed by the std roots of its kind where they are due |
| `UnitGraphs.RulesStayIn` | src/compiler/unit_dependencies.rs:287-440 | `compute_deps` stays in the same build and does not start documenting |
| `ScriptLinks.ConnectRunCustomBuildDeps` | src/compiler/unit_dependencies.rs:957-1070 | each script run gets, after its own edges, exactly the script runs of its parents' linkable `links` siblings that are not host or dev-only, all computed from the graph before any addition; and in raw terms: with metadata off, a run gets a new edge to x if and only if some unit depends on it and on a unit of another package that has a linkable target and `links`, is no docscrape unit and is not reached by a recorded dev edge, whose list has x as its first script run; the edge is named after that dependency |
| `ScriptLinks.ScriptDepsExactly` | src/compiler/unit_dependencies.rs:957-1070 | the script edges computed for a run are exactly those, with metadata from any script on or off |
| `ScriptLinks.ConnectedIsLinked` | src/compiler/unit_dependencies.rs:957-1070 | so the finished lists keep what was there, add each such edge once, and change no unit that is not a script run |
| `ScriptLinks.ConnectedIsClosed` | src/compiler/unit_dependencies.rs:957-1070 | the added edges keep the graph closed |
| `ScriptLinks.AddedEdge` | src/compiler/unit_dependencies.rs:957-1070 | every edge that was not there before leads from one script run to another |
| `ScriptLinks.LinksAreNormal` | src/compiler/unit_dependencies.rs:957-1070 | script edges follow non-dev package dependencies if and only if no dev-only `links` dependency is reached by documenting a test or an example |
| `ScriptLinks.AcyclicExactly` | src/compiler/unit_dependencies.rs:957-1070 | if the packages' non-dev dependencies are acyclic, the finished graph is acyclic if and only if, along the dependencies and the script edges to be added to the graph before linking, no script run waits against the package order for one that leads back to it; metadata from any script may be on or off |
| `ScriptLinks.EdgeIsLinkStep` | src/compiler/unit_dependencies.rs:957-1070 | the edges of the finished graph are exactly the dependencies before linking and the script edges computed from them |
| `ScriptLinks.OddIsDevDocumented` | src/compiler/unit_dependencies.rs:957-1070 | with metadata from any script off, a link against the package order comes from a dev-only `links` dependency of a documented test or example |
| `ScriptLinks.FinishedGraphIsAcyclic` | src/compiler/unit_dependencies.rs:957-1070 | without such links the finished graph is acyclic |
| `BuildUnitGraph.TraverseAndAttach` | src/compiler/unit_dependencies.rs:88-150 | before script edges the graph is closed, holds the roots, stays in every set of units that `compute_deps` does not leave, and has exactly the computed lists with the standard library where it is due; each list was computed for a purpose that a chain of visits from a root leads to |
| `BuildUnitGraph.BuildUnitDependencies` | src/compiler/unit_dependencies.rs:88-172 | the returned graph is the traversed one with the script edges added; it is closed, holds the roots, and is empty for no roots; with acyclic non-dev packages it is acyclic if and only if in the graph before linking no script run waits for itself, and it is acyclic whenever no root is a test or example to be documented and metadata from any script is off; it is missing only if a helper fails; before linking, each unit is reached from a root and its list is exactly what it needs, in the sense of `ListExactly`, for a purpose it is visited for, with the standard library where it is due |
| `BuildUnitGraph.TracedIsVisited` | src/compiler/unit_dependencies.rs:228-285 | the purpose a list was computed for is the last one of a chain that starts at a root with the purpose of a root and goes on, each time, to a dependency with the purpose it was given or to a unit scraped for a documented one |
| `BuildUnitGraph.FirstScriptExactly` | src/compiler/unit_dependencies.rs:779-836 | of several scripts the first run in a unit's list, which is the one others are linked with, is that of the first script among its package's targets |
| `DocCycle.DocumentExample` | src/compiler/unit_dependencies.rs:642-743 | on a workspace of two packages with acyclic non-dev dependencies, documenting an example, the construction succeeds and returns a cyclic graph |
| `DocCycle.DocInputs` | src/compiler/unit_dependencies.rs:287-440 | that workspace is an input the construction accepts, over eight units that `compute_deps` does not leave |
| `DocCycle.DocumentedExampleCycle` | src/compiler/unit_dependencies.rs:957-1070 | whatever graph the traversal makes of it, its two scripts wait for each other |
| `DocCycle.MutualWaitIsCycle` | src/compiler/unit_dependencies.rs:957-1070 | siblings kept in both directions close a cycle |
| `BuildScriptMap.BuildMap` | src/compiler/custom_build.rs:1277-1358 | the map is defined exactly on the reachable units, each entry is that of the unmemoised recursion whatever the root order, and the output table holds exactly the overrides of visited script runs; it panics over a missing script run if and only if a reachable unit lacks one |
| `BuildScriptMap.ScriptMap.Build` | src/compiler/custom_build.rs:1289-1358 | one call fills the entries below a unit with the specified sets, keeps earlier ones, and never meets the cyclic-dependency panic |
| `BuildScriptMap.ScriptMap.InsertOutput` | src/compiler/custom_build.rs:1414-1428 | stores under a vacant key; vacancy is proved at every call |
| `BuildScriptMap.AddToLinkCollects` | src/compiler/custom_build.rs:1361-1365 | pushing keeps the list equal to the first occurrences of all that was pushed and the lookup set equal to its members |
| `BuildScriptMap.FirstOccurrencesNested` | src/compiler/custom_build.rs:1341-1351 | absorbing a dependency's de-duplicated list is the same as absorbing its full preorder |
| `BuildScriptMap.PreorderOfAnyRank` | src/compiler/custom_build.rs:1289-1358 | the specification does not depend on the topological rank used to define it |
| `LinkSets.EntryMeaning` | src/compiler/custom_build.rs:1341-1365 | `to_link` has no repeats, agrees with `seen_to_link`, and holds a key if and only if a path in the unit graph, on which every unit after the first is not for the host and has a linkable target, ends at a unit that depends on that script run of its own package; `plugins` holds exactly what the dependencies for the host link |
| `LinkSets.OwnScriptsFirst` | src/compiler/custom_build.rs:1317-1351 | the scripts of a unit's own package come before all others |
| `LinkSets.OwnScriptsInOrder` | src/compiler/custom_build.rs:1317-1333 | among themselves in the order of the dependency list |
| `LinkSets.DependenciesInOrder` | src/compiler/custom_build.rs:1335-1351 | what one dependency brings comes before what only later ones bring: those with a larger package id, or further down the list in the same package |
| `LinkSets.InsideDependency` | src/compiler/custom_build.rs:1341-1351 | and what one dependency brings first keeps the order of its own link set |
| `LinkSets.OutputsExactly` | src/compiler/custom_build.rs:1301-1311 | after the pass the output table holds what the configuration says of every reached script run whose package has `links` with an override, and nothing else |
| `LinkSets.LacksExactly` | src/compiler/custom_build.rs:1317-1325 | the pass misses a script run exactly where a unit other than a script belongs to a package with a script and depends on no run of it |
| `BuildRun.JobBuilder.Compile` | src/compiler/mod.rs:184-266 | visits each unit once, enqueues it unless skipped, and reaches all its dependencies |
| `BuildRun.Enqueue` | src/compiler/mod.rs:184-266 | the queue holds each reachable unit that is not skipped exactly once |
| `BuildRun.NeverOccupied` | src/compiler/custom_build.rs:651-706 | in any finishing order of jobs that run at most once, no output meets an occupied key, and the table holds overrides and stored outputs and nothing else |
| `BuildRun.WholeRun` | src/compiler/custom_build.rs:282-295 | from the overrides to the end of any run: overridden scripts keep their override, every other script that stored an output is found with it |
| `BuildPlan.ScriptRunsAlwaysPresent` | src/compiler/custom_build.rs:1317-1325 | on every graph the construction returns, each unit of a package with a build script depends on a run of it, so the lookup that expects one never fails |
| `BuildPlan.PlanBuild` | src/compiler/unit_dependencies.rs:88-172 | unit graph, LTO map, link sets and job queue in sequence, for all packages and roots: nothing panics, failure comes only from a helper, and unless the graph is cyclic the plan has the properties of all four; for acyclic packages it is cyclic if and only if a script run waits for itself, and never if no test or example is documented and metadata from any script is off |
| `BuildPlan.PlanRuns` | src/compiler/custom_build.rs:1414-1428 | in any order in which the jobs of a plan finish, no output meets an occupied key |
| `BuildPlan.PlanLinks` | src/compiler/mod.rs:535-553 | in any run of the job queue over a plan, a job that starts finds the output of every script it links if and only if each of those script runs was overridden or stored an output |
| `DependencyQueues.DependencyQueue.Queue` | src/util/dependency_queue.rs:75-97 | records what a node waits for in both directions; panics exactly if the node is there already |
| `DependencyQueues.DependencyQueue.Dequeue` | src/util/dependency_queue.rs:152-161 | hands out a node of the highest priority among those whose every awaited output was produced, and nothing exactly if there is none |
| `DependencyQueues.DependencyQueue.Finish` | src/util/dependency_queue.rs:181-198 | strikes the output off every list it is on and returns the nodes set free; panics exactly if the output was reported before and somebody waits for it |
| `DependencyQueues.NotStuck` | src/compiler/job_queue/mod.rs:895-912 | with everything waited for queued and nobody waiting in a circle, a queue whose handed-out nodes are all at their end is empty or has a node to hand out |
| `JobOrder.QueueDeps` | src/compiler/job_queue/mod.rs:401-476 | a job waits for exactly its dependencies in the job graph and, if it needs object files, everything beneath its dependencies; for the metadata only where parent and dependency are both built and are rlibs and nothing else, so a proc macro is awaited in full; a binary or an integration test is not awaited unless it is an artifact or scraped |
| `JobOrder.DependOnDepsOfDeps` | src/compiler/job_queue/mod.rs:458-468 | adds only what lies beneath a unit, with all its dependencies, and ends on cyclic graphs too |
| `JobOrder.QueueJobs` | src/compiler/job_queue/mod.rs:401-476 | the queue made of the units to compile has each of them once, with what it waits for |
| `JobOrder.LinkedRunEnded` | src/compiler/job_queue/mod.rs:401-476 | in any run of the queue, pipelined or not, the script runs behind any chain of linked dependencies have ended before a job starts |
| `JobOrder.LinkedOutputsExactly` | src/compiler/mod.rs:535-553 | when a job starts, every key it links is in the table if and only if each linked script run was overridden or stored an output, so the error about a missing output is never one of order |
| `JobOrder.NativeArgs` | src/compiler/mod.rs:535-600 | so the linker arguments of a job that starts are found under that condition and no other |
| `JobOrder.JobsNotStuck` | src/compiler/job_queue/mod.rs:895-912 | on an acyclic graph with every needed job queued, the error about jobs left in the queue is never reported |
| `NativeDeps.AddNativeDeps` | src/compiler/mod.rs:535-600 | fails exactly if an output is missing; otherwise search paths inside the build directory precede all others, each kind in linking order, followed by each script's link arguments |
| `NativeDeps.AppliesExactly` | src/compiler/custom_build.rs:266-277 | an argument reaches exactly its kind of target: cdylibs outside tests, binaries, the binary named, integration tests, benchmarks, executable examples, or everything |
| `NativeDeps.ArgumentsExactly` | src/compiler/mod.rs:565-600 | an argument is on the command line if and only if a linked script has it among its linker arguments, it is for the target at hand, and the script is the package's own or the argument is for cdylibs, or it is a library of the package's own script and libraries are passed |
| `NativeDeps.CommandLineExactly` | src/compiler/mod.rs:541-563 | the search paths are exactly those of the linked scripts, inside and outside the build directory |
| `NativeDeps.TwoClasses` | src/compiler/mod.rs:555-563 | the stable sort by kind is one kind followed by the other, each in its order |
| `RustcFlags.ParseRustcFlags` | src/compiler/custom_build.rs:1147-1190 | accepts exactly the word lists that render some list of `-l`/`-L` flags, attached or not, and returns the values of that list in order |
| `RustcFlags.ReadRender` | src/compiler/custom_build.rs:1147-1190 | reading undoes rendering |
| `RustcFlags.RenderRead` | src/compiler/custom_build.rs:1147-1190 | rendering undoes reading |
| `RustcFlags.SplitAtFirst` | src/compiler/custom_build.rs:887-906 | a key without `=` and any value are recovered from `KEY=VALUE` |
| `DirectiveLines.RewritePreservesParse` | src/compiler/custom_build.rs:934-962 | rewriting a whole output to the new syntax keeps all lists, or the failing line and reason, if and only if the new syntax is permitted or the first directive is new already |
| `DirectiveLines.RewriteKeepsSuccess` | src/compiler/custom_build.rs:934-962 | rewriting never mends a failing output, and breaks a good one exactly when it has an old line and the new syntax is not permitted |
| `DirectiveLines.ParseConcat` | src/compiler/custom_build.rs:934-1127 | parsing two outputs in a row joins every list, and the first failure counts with its line number |
| `DirectiveLines.FirstRefusal` | src/compiler/custom_build.rs:934-1127 | the first refused line decides the result |
| `Directives.ParseOutput` | src/compiler/custom_build.rs:797-1141 | the parser's loop gives the lists, or the first refusal, of the specification |
| `Directives.CargoIsSyntaxBlind` | src/compiler/custom_build.rs:982-1127 | what a key and a value add does not depend on the syntax they came in, message text aside |
| `Directives.RewriteToNewSyntax` | src/compiler/custom_build.rs:826-1127 | the two rewriting results for Cargo's own keys, for every package and output |
| `DirectiveRoundTrip.PrintedComesBack` | src/compiler/custom_build.rs:982-1127 | entries printed as directive lines, in any order and mixture, are parsed into exactly the lists they were taken from |
| `DirectiveRoundTrip.TextComesBack` | src/compiler/custom_build.rs:934-1141 | the same for the whole text, split at its line feeds |
| `DirectiveRoundTrip.DirectiveIsRead` | src/compiler/custom_build.rs:982-1127 | each kind of directive adds its value to its own list and to no other |
| `DirectiveMeaning.KeysExactly` | src/compiler/custom_build.rs:982-1120 | each directive has one spelling, and the cdylib argument an older one too |
| `DirectiveMeaning.ReservedExactly` | src/compiler/custom_build.rs:826-845 | a line of the old syntax is read as a directive if and only if its key is one that the old syntax knows, which is all but `error` and `metadata`; the prefix table has no effect beyond that |
| `DirectiveMeaning.OldDirectiveIsRead` | src/compiler/custom_build.rs:934-1127 | every entry the old syntax can say, metadata under any other key included, comes back from it |
| `DirectiveMeaning.OutputIsAllowed` | src/compiler/custom_build.rs:1000-1110 | no output sets `RUSTC_BOOTSTRAP`, or has an argument for a kind of target the package does not have |
| `DirectiveMeaning.FlagsAreRead` | src/compiler/custom_build.rs:982-992 | `rustc-flags` adds the paths and libraries of the flags it renders, in order |
| `DirectiveMeaning.FlagsRefused` | src/compiler/custom_build.rs:982-992 | and is refused if and only if it renders none |
| `DirectiveMeaning.RefusedExactly` | src/compiler/custom_build.rs:908-1127 | a known directive is refused exactly for a kind of target or a binary the package does not have, a value without `=` where one is needed, flags that render nothing, or `RUSTC_BOOTSTRAP` where it is not tolerated, each with its own reason |
| `DirectiveMeaning.UnknownExactly` | src/compiler/custom_build.rs:1112-1127 | a key is unknown if and only if it is no directive's spelling |
| `DirectiveMeaning.NewSyntaxExactly` | src/compiler/custom_build.rs:846-886 | a line is refused for its syntax if and only if it begins with `cargo::` and the package's minimum Rust version is older than 1.77 or of another major version |
| `DirectiveMeaning.MessagesExactly` | src/compiler/custom_build.rs:993-1127 | what is reported: the script's own errors and warnings, an argument for cdylibs where the package has none, and a tolerated attempt to set `RUSTC_BOOTSTRAP` |
| `Locking.StepKeepsInv` | src/compiler/mod.rs:191-253 | every step of every process (opening a directory, preparing, queueing, locking, compiling, sharing, running a script, cleaning packages, deleting a directory, leaving) keeps the lock table coherent and each process's locks and handles in line with what it is doing |
| `Locking.RunKeepsInv` | src/compiler/mod.rs:191-253 | so does every interleaved run of any number of processes |
| `Locking.LockByStatus` | src/compiler/mod.rs:191-253 | in every run, a fine-grained build holds a unit's lock shared while it is prepared (off NFS) and once it is done, not at all while the job waits or gives the lock back, and exclusively while the job runs and after it failed; and never another generation of it |
| `Locking.LockIsFound` | src/compiler/locking.rs:64-85 | in every run, deletions of the directory included, a job that asks to lock or downgrade finds its handle, so the error about a lock missing from the manager is never reported |
| `Locking.ExclusionInEveryRun` | src/compiler/mod.rs:195-253 | in every run in which nobody deletes the directory: while one process compiles a unit, no other compiles it or holds its lock, off NFS or between fine-grained builds; and off NFS none cleans its package |
| `LockRuns.BothCompileExactly` | src/compiler/layout.rs:262-279 | two builds, with whatever build directories, can compile the same unit at once if and only if at every directory they share no lock is taken, both take it shared or some `cargo clean` may delete it, and, where both lock finely, the unit's own directory may be deleted |
| `LockRuns.OneDirectory` | src/compiler/layout.rs:262-279 | with one directory: if and only if it is on NFS and one of them locks coarsely, or it may be deleted |
| `LockRuns.BothGetThere` | src/ops/cargo_clean.rs:115-130 | the run that shows it: the first build compiles, a clean of whole directories takes the lock files away where it has to, and the second build gets to compile the same unit |
| `LockRuns.ReaderDisturbedExactly` | src/compiler/locking.rs:31-62 | while a fine-grained build holds a unit's shared lock, another process can change the unit's files if and only if the unit can be read at all (a script run on NFS cannot) and some process deletes the directory, or uses it, gets past the reader at every directory they share and is no fine-grained build or runs the unit as a script |
| `LockRuns.ReaderIsStable` | src/compiler/mod.rs:235-250 | with no such process and script runs apart, a unit stays as it is over any run in which some process keeps its shared lock |
| `LockRuns.OwnerDisturbedExactly` | src/compiler/layout.rs:262-279 | while a coarse build or a package clean is at work, another process can change its units if and only if one deletes the directory, or uses it and gets past the owner at every directory they share |
| `LockManagers.PrepareUnit` | src/compiler/locking.rs:38-62 | taking the shared lock at the start of `compile` succeeds exactly when the protocol's step is possible, and leaves manager and lock table as that step does |
| `LockManagers.EnqueueDirty` | src/compiler/locking.rs:87-94 | giving up the lock of a dirty job is the protocol's step |
| `LockManagers.LockForJob` | src/compiler/locking.rs:64-75 | the job's exclusive lock is granted exactly when the step is possible, and its handle is never missing |
| `LockManagers.ShareAfterJob` | src/compiler/locking.rs:77-85 | the downgrade after a job is the two steps of dropping the exclusive lock and taking the shared one, or the first of them and a wait |
| `LockManagers.ShareAgain` | src/compiler/locking.rs:77-85 | a job that waited for its shared lock gets it exactly when the step is possible |
| `ConfigValues.PriorityIsRank` | src/context/value.rs:91-128 | priority is a comparison of ranks: built-in and files, environment, command line |
| `ConfigValues.NonMergeableExactly` | src/context/config_value.rs:298-311 | which keys are lists that are not merged, spelt out |
| `ConfigValues.MergeInPlace` | src/context/config_value.rs:152-221 | the merge with early exit equals the recursive specification, including the key path that is never popped |
| `ConfigMerge.MergeLookup` | src/context/config_value.rs:152-221 | at every key path and for every hash-map order: one side's value where only one has it, the stronger scalar, a list merged under one of the keys that the collisions of the two values make reachable, and no mixture of classes |
| `ConfigMerge.FailureIsClash` | src/context/config_value.rs:198-212 | a merge fails only at a path that is a table or a list on one side and not on the other |
| `ConfigMerge.MergePushes` | src/context/config_value.rs:176-197 | what a merge leaves pushed is one of the sequences that the collisions make possible |
| `ConfigReach.SucceedsExactly` | src/context/config_value.rs:152-221 | a merge succeeds under an order if and only if nothing clashes |
| `ConfigReach.RealiseKey` | src/context/config_value.rs:176-197 | every reachable key is the key a list is merged under for some order of the hash maps |
| `ConfigReach.ReplacedExactly` | src/context/config_value.rs:160-175 | a list is replaced under every order if and only if every reachable key is a non-mergeable list, or replacing and appending come to the same |
| `ConfigReach.AppendedExactly` | src/context/config_value.rs:160-175 | a list is appended under every order if and only if no reachable key is a non-mergeable list, or the two come to the same |
| `ConfigReach.SameOnlyIfEmpty` | src/context/config_value.rs:160-175 | the two come to the same only if one of the lists is empty |
| `ConfigReach.OneCollisionPerLevel` | src/context/config_value.rs:160-197 | where only one entry collides at each level, the path decides: replaced if it is a non-mergeable list, appended if not |
| `ConfigTrees.ListsExactly` | src/context/config_value.rs:152-221 | for any tree of merges, each under an order of its own, and a list that is empty in no source: it always has the items of all sources if and only if no merge of the tree can come to replace it, and always those of the first source if and only if every merge on the way to it replaces |
| `ConfigTrees.YieldAgrees` | src/context/config_value.rs:152-221 | whatever a tree of merges can yield agrees with its sources in the order of their precedence |
| `ConfigTrees.SomethingLost` | src/context/config_value.rs:152-221 | orders under which an item is lost, wherever in the tree a merge can come to replace |
| `ConfigTrees.SomethingAdded` | src/context/config_value.rs:152-221 | orders under which there is an item too many, wherever on the way to the first source a merge can come to append |
| `ConfigExact.LoadedListsExactly` | src/context/mod.rs:1351-1639 | both equivalences for the merges that loading performs: includes, files, arguments and the final merge |
| `ConfigExact.LoadedPanicsExactly` | src/context/mod.rs:1078-1086 | a loaded configuration can fail the assertion at a non-mergeable list, read with its variable set, if and only if merging the command line into the files can come to append it |
| `ConfigSources.Compose` | src/context/config_value.rs:152-221 | merging what stands for two lists of sources stands for their concatenation, in front with force and behind without |
| `ConfigSources.FailedIsInconsistent` | src/context/config_value.rs:198-212 | a failing merge shows two sources that clash |
| `ConfigSources.AgreedIsConsistent` | src/context/config_value.rs:152-221 | sources behind a merged value never clash |
| `ConfigSources.TwoSources` | src/context/config_value.rs:152-221 | for two sources the keys considered are exactly those their merge can reach |
| `ConfigSources.PathDecides` | src/context/config_value.rs:298-311 | for any number of sources that share no other entry on the way, a non-mergeable list is the strongest source's and any other has the items of all |
| `ConfigSources.PlainListIsSafe` | src/context/config_value.rs:298-311 | a list that no pattern ends like is always appended below the top level, and at the top level where at most one source has aliases |
| `ConfigLoad.Loader.LoadFile` | src/context/mod.rs:1386-1426 | loads exactly when the include tree unfolds, visits no file twice (so diamonds are refused like cycles) and has no clashing sources; the value then stands for the tree's sources; a reported cycle means that every unfolding visits some file twice; it ends for every finite set of files |
| `ConfigLoad.Loader.LoadIncludes` | src/context/mod.rs:1429-1457 | the same for a list of includes: in order, later over earlier, and the file's own values over all of them; which files those are, `TreeFollowsDocument` says from the text |
| `ConfigLoad.UnfoldsUnique` | src/context/mod.rs:1429-1457 | a file unfolds to one include tree at most |
| `ConfigFiles.TomlRoundTrip` | src/context/config_value.rs:73-138 | a document is accepted if and only if nothing in it is a float or a date, and what it is read as turns back into it |
| `ConfigFiles.ValueRoundTrip` | src/context/config_value.rs:73-138 | a value that is defined in one place throughout is what its text is read as |
| `ConfigFiles.IncludesExactly` | src/context/mod.rs:1429-1545 | the files to load are, in the order of the `include` array, the resolved paths of its items, leaving out exactly the optional ones that do not exist; a malformed item is refused |
| `ConfigFiles.TreeFollowsDocument` | src/context/mod.rs:1386-1457 | every node of an unfolded tree has a document, the document's own values without `include`, and below it exactly the files that its `include` names, in that order |
| `ConfigFiles.DocumentsUnfold` | src/context/mod.rs:1386-1457 | conversely, a tree that follows its documents is the one that loading unfolds |
| `ConfigFiles.FirstIsDecided` | src/context/mod.rs:1429-1457 | at every path the sources of a file give what the file's own text says, or else the text of the last of its includes that says anything |
| `ConfigFiles.ItemsFromText` | src/context/mod.rs:1429-1457 | the items of a list are those of the texts, include by include in order and the file's own at the end |
| `ConfigFiles.ScalarFromText` | src/context/mod.rs:1351-1639 | a loaded configuration has a value at a path if and only if some document says something there, and a scalar is the text of the last argument that does, or else of the closest file that does, with the place it stands in |
| `ConfigPrecedence.LoadValuesFrom` | src/context/mod.rs:1351-1370 | the discovered files, closest first, stand for their trees' sources in that order of precedence; fails exactly if no unfolding of all of them is free of repeats and clashes |
| `ConfigPrecedence.CliArgsAsTable` | src/context/mod.rs:1552-1623 | the `--config` arguments stand for their sources, later over earlier; file arguments share one record of opened files; fails exactly if no unfolding is free of repeats and clashes |
| `ConfigPrecedence.LoadConfig` | src/context/mod.rs:1625-1639 | loading succeeds if and only if everything unfolds without repeats and no two sources clash; then every path is defined if a source defines it, scalars are the highest-precedence source's, a list whose reachable keys are all mergeable has the items of all sources, lowest precedence first, and one whose reachable keys are all non-mergeable has those of the highest-precedence source; and the value is one that the tree of merges yields, for which `LoadedListsExactly` has the exact conditions |
| `ConfigPrecedence.LoadableUnique` | src/context/mod.rs:1351-1639 | what there is to load determines its include trees |
| `ConfigEnv.GetEnvList` | src/context/mod.rs:1070-1125 | what the environment makes of a list: merged in, replaced, kept, an error, or the failed assertion that a non-mergeable list comes from one kind of place |
| `ConfigEnv.VariableReplaces` | src/context/mod.rs:1078-1112 | a list that is not merged becomes the words of the variable alone, or stays as it is where the command line has set it |
| `ConfigEnv.VariableAdds` | src/context/mod.rs:1088-1123 | to any other list the words are added behind the items of their own rank; the result goes up in rank and keeps every other item and its order |
| `ConfigEnv.ListFromAllSources` | src/context/mod.rs:1070-1125 | a list outside the non-mergeable set whose reachable keys are all mergeable is the files' items from farthest to closest, then environment words, then command-line items in argument order |
| `ConfigEnv.SortedBetween` | src/context/mod.rs:1123-1123 | the stable sort puts environment items between those of files and command line |
| `ConfigEnv.TypedAgreesWithUntyped` | src/context/mod.rs:889-964 | a typed lookup that succeeds takes its value from the source that is reported and that the untyped lookup uses, which fails exactly for a bracketed variable under advanced-env that meets a scalar or is no array |
| `ConfigEnv.TypedExactly` | src/context/mod.rs:140-162 | a typed lookup fails if and only if the variable or the configured value is of another kind, and otherwise finds what the variable says unless the command line has set the key, and else what is configured |
| `ConfigEnv.UntypedExactly` | src/context/mod.rs:889-964 | an untyped lookup of anything but a list finds the same, read as the first of boolean, integer and string that fits |
| `ConfigPanic.PanicsExactly` | src/context/mod.rs:1078-1086 | merging stronger settings and reading a non-mergeable list with its variable set fails the assertion under some order if and only if both sides have items, of different rank, and some reachable key is mergeable |
| `ConfigPanic.LoadedDoesNotPanic` | src/context/mod.rs:1078-1086 | a loaded configuration never fails the assertion at a list whose reachable keys are all non-mergeable |
| `ConfigOrder.BrowserPanics` | src/context/mod.rs:1078-1086 | a file and a `--config` argument with the same two tables, and an order, for which the assertion fails |
| `ConfigOrder.PathsLost` | src/context/config_value.rs:176-197 | a file pair and an order for which the farther file's `paths` are lost |
| `ConfigOrder.PathsKept` | src/context/config_value.rs:176-197 | the same pair in the other order, where both contribute |
| `ConfigOrder.BrowserMerged` | src/context/config_value.rs:176-197 | a browser list, which must be replaced, is merged after another colliding table |
| `Sbom.BuildSbomGraph` | src/compiler/output_sbom.rs:142-182 | the keys are the reachable units other than script runs, each with all direct dependencies; every other edge is witnessed by a path through script runs; what script runs need is folded into a unit they were reached from |
| `Sbom.ListCrates` | src/compiler/output_sbom.rs:111-139 | each crate is listed once and every index names the crate of the edge it stands for |
| `Sbom.BuildSbom` | src/compiler/output_sbom.rs:100-139 | both of these, and the root index names the root |
| `CleanMarks.DirectoriesToClean.Mark` | src/ops/cargo_clean.rs:443-467 | one call moves the matching entries of the cached or first listing to the removal set and keeps the others in order |
| `CleanMarks.DirectoriesToClean.MarkUtf` | src/ops/cargo_clean.rs:469-476 | the same for names that are UTF-8, and other names stay |
| `CleanMarks.MarksSplitListing` | src/ops/cargo_clean.rs:443-467 | after any calls the first listing of a directory splits exactly into what is cached and what is to be removed |
| `CleanMarks.RemovalIsUnion` | src/ops/cargo_clean.rs:443-467 | the removal set is the union of what the calls match in the listing |
| `CleanMarks.OrderOfCallsIrrelevant` | src/ops/cargo_clean.rs:443-467 | the same calls in any order and number give the same removal set |
| `LockText.CommentsSurvive` | src/ops/lockfile.rs:140-161 | the comments kept from a file are kept again from the output, in order, each without one trailing carriage return |
| `LockText.ReserialiseIsIdentity` | src/ops/lockfile.rs:127-204 | serialising against one's own output is the identity if and only if no kept comment ends in a carriage return |
| `LockText.ReserialiseHasSameLines` | src/ops/lockfile.rs:206-226 | the line comparison sees no difference if and only if none ends in two |
| `LockText.SecondWrite` | src/ops/lockfile.rs:45-108 | after a write that changed the file, with or without a version bump, the next write is a no-op under that condition and otherwise succeeds once more |
| `LockText.WritesSettle` | src/ops/lockfile.rs:45-108 | if no kept comment ends in more than n carriage returns, n writes leave nothing to do |
| `LockfileWriter.SerializeResolve` | src/ops/lockfile.rs:127-204 | the text the serialiser builds step by step: standing lines, kept comments, version, packages, unused patches, metadata, trimmed from V2 on |
| `LockfileWriter.CargoFormatIsSound` | src/ops/lockfile.rs:127-204 | Cargo's standing lines are comments without line ends, and what follows the comments never looks like one |
| `LockfileWriter.LockedResolve.WritePkgLockfile` | src/ops/lockfile.rs:45-108 | outcome, version and file after a write, including both refusals |
| `LockfileWriter.SecondLockfileWrite` | src/ops/lockfile.rs:45-108 | the second-write result for every resolve, flag and file |
| `LockfileWriter.ResolveTextIsStable` | src/ops/lockfile.rs:127-204 | the identity result for every resolve, encoding and earlier file |
| `LockWrites.WrittenLines` | src/ops/lockfile.rs:127-204 | the lines of the written file are the two standing lines, the comments at the top of the old file that are not standing lines in their places, each without one carriage return, and the body |
| `LockWrites.WriteOutcomes` | src/ops/lockfile.rs:45-108 | nothing is written if and only if the lines, or under `--locked` the resolves, are equal; otherwise `--locked` refuses, the unstable version needs its flag, and the file is written in its own version or a higher one that the workspace's Rust can read; a refusal changes nothing |
| `LockWrites.VersionExactly` | src/resolver/resolve.rs:123-150 | a workspace gets the highest stable version whose minimum Rust (1.41, 1.53, 1.83) its oldest Rust reaches |
| `LockRead.PackageIsRead` | src/ops/lockfile.rs:228-255 | a reader of `key = value` lines gets back every field of a package: name, version, source, checksum, and its dependencies or its replacement |
| `LockRead.LockfileIsRead` | src/ops/lockfile.rs:127-255 | the written file reads back: the version number from V3 on, every package and every unused patch in order with all its fields, and the metadata, whatever comments were kept and blank lines trimmed |

## Left out

- Compiling itself: process building, flags other than the native link arguments, diagnostics, fingerprints.
- Of the job queue: job tokens, messages, the computation of priorities (any priorities are admitted) and what a failed job stops. `NeverOccupied` and `PlanRuns` hold for any order, dependencies first or not.
- `DependencyQueues.DependencyQueue.Finish`: the map from a node and an output to those waiting for it is one map, where the source nests two.
- Profiles, features, `UnitFor`, target data and the resolver are functions of the `World`; `validate_links`, the final sort of each dependency list and the later sharing pass over the unit graph are not modelled.
- Metadata hashes are assumed distinct for distinct script-run units.
- Unit graphs are taken over a finite universe of units, which is what makes the traversal end.
- Deadlock freedom across processes is not claimed: a process keeps shared locks on finished units while it waits for an exclusive one.
- Build-script runs take only the shared unit lock, so exclusion is stated for rustc and rustdoc jobs; that they write under it is part of the model.
- Compilers that outlive a Cargo that was killed are not modelled: leaving the process gives up its locks and its jobs together.
- The artifact-directory lock, NFS detection, file systems without locks, fingerprint files, and a process that waits on a lock file that is deleted meanwhile are not modelled.
- `ConfigPrecedence.LoadConfig`: its own list conditions consider every pair of neighbouring groups of sources, which is sufficient and exact for two; those of `ConfigExact.LoadedListsExactly` are exact for any number. There a list that is empty in some source is left aside, since replacing and appending can then come to the same.
- `JobOrder.LinkedOutputsExactly`: is about `to_link`; the plugins of `add_plugin_deps` are not covered.
- TOML and JSON parsing, serde visitors, key case warnings, `ConfigKey`'s environment name and sensitive parts, and path normalisation: configuration starts from parsed values and normalised paths.
- `ConfigValues.MergeInPlace`: works on values and returns the merged one, so a half-merged table after an error is not visible; the source drops it too.
- Reopening of lock files and the blocking message are not modelled; waiting is a result.
- `LockfileWriter.LockedResolve.WritePkgLockfile`: read and write errors of the file system are not modelled; a file that cannot be read is absent.
- `LockRead.LockfileIsRead`: values are taken to be rendered on one line each, and the reader is one for this shape of file, not a TOML parser.
- `LockfileWriter.SerializeResolve`: how a resolve becomes a table (`src/resolver/encode.rs`) is a function of the version; values are rendered TOML.
- `Directives.ParseOutput`: replacing the old output directory and testing whether a path lies in it are functions; the wording of messages is reduced to what distinguishes them.
- `CleanMarks.DirectoriesToClean.Mark`: the path of an entry is the pair of directory and name, so two spellings of one path count as two.
- Error texts, shell output, progress bars, credentials, registries, and the `install`, `run`, `doc` and `fetch` commands.
