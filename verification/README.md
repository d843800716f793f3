# Verified models of pkgcraft

pkgcraft is a set of libraries and tools for Gentoo package repositories.  These Dafny modules model
the parts of it where state, concurrency or recursion make the behaviour hard to see from the code, and
prove what callers rely on.  `dafny verify dfyconfig.toml` checks everything.

**The scan pipeline** (`crates/pkgcruft/src/iter.rs`).  A scan has a producer, `jobs` workers, three
bounded channels, a wait group between a main and a finish phase, and a consumer, `ReportIter`, that
regroups and reorders the reports.  `ScanConsumer` has the consumer as a class with the source's loops,
`ScanThreads` the threads as a labelled step system, `ScanPipeline` the two together.  A schedule is a
sequence of labels, and every theorem holds for all work lists, all job counts from one up and all
schedules.  `ScanHistory` holds the invariants, `ScanResults` and `ScanProgress` the results,
`ScanReplay` shows that the class and the step system return the same reports, and `ScanPlan` derives
the work lists from the producers' and workers' code, which `ScanCalls` says call by call.  Checks are deterministic functions from a task to
its reports.  `ReportOrder` has the order reports are sorted by.

**The ordered parallel map** (`crates/pkgcraft/src/traits.rs`).  `ParallelMap` is the smaller protocol of
the same kind: enumerate, fan out, reorder.  `ParallelReplay` shows that its class and its step system
return the same values.

**Dependency trees** (`crates/pkgcraft/src/dep/`).  `DependencyTree` has the trees and the recursions
that say what each traversal should give; `DependencyIter` and `DependencyEval` have the worklist
iterators as classes proved against them, and `DependencyPaths` what those recursions are, by the paths
of leaves and nodes; `DependencySort` has in-place sorting by any order, and
`DependencyOrder` the derived order of dependencies, which sorts as it compares; `DependencyMeaning` has
what a tree asks for, after section 8.2 of the Package Manager Specification, and when evaluation keeps
it, and `DependencySplice` exactly when it does for choice groups.  Sets are sequences in insertion order, compared as the source compares them: without order for
all-of and conditional groups, with order for choice groups.

**Walkers, caches and guards.**  `BashWalk` is the tree-cursor walk of `crates/pkgcraft/src/bash.rs`,
`Ignore` and `IgnoreCache` the ignore directives of `crates/pkgcruft/src/ignore.rs`, `ErrorCapture` the
nested capture of bash errors in `crates/scallop/src/error.rs` and `crates/scallop/src/shell.rs`,
`ScopedBuiltins` and `ScopedOptions` the guards of `crates/scallop/src/builtins.rs`, and `Collapse` the
report targets of `crates/pkgcruft/src/report.rs`.  `Relpath` has the relative paths of
`crates/pkgcraft/src/utils.rs`, `RelpathExact` when they lead where they should, and `RelpathFewest` when
they climb no more than needed.

Where the code does not keep what its documentation or its name promises, the model follows the code, a
lemma gives an input, and another says exactly when the promise holds:

- A repository's ignore directives override a package's or a category's own, although the comment at
  `crates/pkgcruft/src/ignore.rs:225-229` promises the opposite (`IgnoreCache.RepoOverridesPackage`,
  `IgnoreCache.MoreSpecificWins`).
- An ignore directive in an ebuild that did ignore a report is still listed as unused when the report
  points to a line, or when another kind of the directive's set had no report
  (`IgnoreCache.LocatedUseIsMissed`, `IgnoreCache.HalfUsedSetIsUnused`, `IgnoreCache.EbuildUnused`).
- A scoped option that was off, is enabled and then disabled through one guard ends on; and of several
  options of `set` a guard turned on or off, the drop undoes one, since it passes all names to a single
  `set -o` or `set +o`, which take one name (section 4.3.1 of the Bash Reference Manual); and an option
  that the shell does not let it turn off again stays on, and the drop panics
  (`ScopedOptions.EnableThenDisableStaysOn`, `ScopedOptions.SecondSetOptionStays`,
  `ScopedOptions.StuckStaysOn`, `ScopedOptions.DropRestores`).
- A guard whose creation fails leaves the builtins it already toggled
  (`ScopedBuiltins.FailedCreationLeaks`).
- Appending a relative path to a base with `.` or `..` need not lead back
  (`Relpath.CurrentDirectoryAsBase`, `RelpathExact.LeadsBackExactly`).
- A relative path to a path with dots can have more `..` than needed
  (`RelpathFewest.DottedPathCostsMore`, `RelpathFewest.FewestExactly`).
- Evaluation can change what a tree asks for when conditionals stand in choice groups
  (`DependencyMeaning.SplicingIntoChoiceChangesMeaning` and the lemmas after it;
  `DependencySplice.SplicingExactly`, `DependencySplice.UntakenExactly`,
  `DependencySplice.EmptiedGroupExactly` and `DependencySplice.TwinsExactly`).

## Model

| member | source | states |
|---|---|---|
| ScanConsumer.ReportIter.Flush | crates/pkgcruft/src/iter.rs:328-332 | The last thread's end moves every cached report into the ready queue, sorted, whatever order the cache is walked in, and leaves empty entries. |
| ScanConsumer.ReportIter.Receive | crates/pkgcruft/src/iter.rs:304-335 | One item: reports are cached by target, a processed target's reports go out as one sorted block or wait under their id, a finish notice joins its thread and may flush; it fails exactly on a disconnected channel. |
| ScanConsumer.ProcessTakes | crates/pkgcruft/src/iter.rs:306-316 | Processing a package takes out of the cache, sorted, exactly the reports on it and on its versions; a category its own, the repository those on any repository, a version none. |
| ScanConsumer.ReportIter.Next | crates/pkgcruft/src/iter.rs:341-359 | The loop ends and does what the reference consumer does with the same items: skip empty blocks, hand out the queue's head, receive, or return `None`. |
| ScanConsumer.ProcessMirrors | crates/pkgcruft/src/iter.rs:312-320 | Processing a target keeps caches, queue and output in step with everything sent so far, sorted mode or not. |
| ScanConsumer.SettleMirrors | crates/pkgcruft/src/iter.rs:343-351 | Releasing the next package's block keeps them in step. |
| ScanConsumer.FlushMirrors | crates/pkgcruft/src/iter.rs:328-332 | So does the final flush, after which the output has a sorted tail. |
| ScanThreads.TakeControl | crates/pkgcruft/src/iter.rs:129-149 | A worker that takes an item takes the oldest one not yet taken, over both channels, and no other worker holds it. |
| ScanThreads.WorkerControl | crates/pkgcruft/src/iter.rs:111-154 | Every worker step keeps channels, phases and held jobs consistent: bounds, first-in first-out, nothing in both channels, sent items only of jobs taken. |
| ScanThreads.ProducerControl | crates/pkgcruft/src/iter.rs:46-108 | So does every producer step, the wait for the barrier included. |
| ScanThreads.MainIsOver | crates/pkgcruft/src/iter.rs:90-92 | Once no worker is in the main phase, every main-phase job was taken, has sent all its items and is held by nobody. |
| ScanHistory.LegalMeans | crates/pkgcruft/src/iter.rs:90-103 | What the history invariant says of any position: jobs begin once, end once and on the worker that began them, and a finish-phase job finds every main-phase job ended. |
| ScanHistory.WorkerInv | crates/pkgcruft/src/iter.rs:111-154 | All history invariants, the call history, finish notices, processed packages, sums of reports, own blocks, survive every worker step. |
| ScanHistory.ProducerInv | crates/pkgcruft/src/iter.rs:46-108 | And every producer step. |
| ScanPipeline.ExecInv | crates/pkgcruft/src/iter.rs:249-301 | Every state of every schedule satisfies the invariant of threads and consumer together. |
| ScanPipeline.LastJoin | crates/pkgcruft/src/iter.rs:321-332 | When the last thread is joined, everything sent has been received, so the flush misses nothing. |
| ScanResults.ReportsAreConserved | crates/pkgcruft/src/iter.rs:304-359 | In every state of every schedule the reports sent are exactly those in the channel, the two caches, the ready queue and already yielded, counted with multiplicity. |
| ScanResults.EveryReportOnce | crates/pkgcruft/src/iter.rs:304-359 | When `next` returns `None`, every report of every job has been yielded exactly once, sorted or not. |
| ScanResults.SortedOutput | crates/pkgcruft/src/iter.rs:312-351 | If packages are distinct and only a package's own job emits reports on it or its versions before the finish phase, a sorted scan yields these reports of each package, sorted, in package order, then all other reports, sorted. |
| ScanResults.ScheduleIndependence | crates/pkgcruft/src/iter.rs:249-359 | Two sorted scans of the same work yield the same sequence, whatever their interleavings and job counts. |
| ScanResults.UnsortedOutput | crates/pkgcruft/src/iter.rs:317-319 | An unsorted scan yields every package's main-phase reports as one contiguous sorted block, blocks in the order in which the packages' processed items were sent, then the rest sorted. |
| ScanResults.PhaseBarrier | crates/pkgcruft/src/iter.rs:90-103 | No finish-phase call begins before every main-phase call has returned. |
| ScanResults.RunsAtMostOnce | crates/pkgcruft/src/iter.rs:129-149 | Two events of one job are its begin and its end, on the same worker, and there is no third. |
| ScanResults.EveryJobRuns | crates/pkgcruft/src/iter.rs:54-103 | When `next` returns `None`, every enqueued job has run to its end. |
| ScanProgress.NoDeadlock | crates/pkgcruft/src/iter.rs:251-290 | As long as `next` has not returned `None`, some step is enabled: no schedule gets stuck on the bounded channels, the barrier or the joins. |
| ScanProgress.Terminates | crates/pkgcruft/src/iter.rs:45-359 | A measure falls with every step, so a schedule is never longer than the work at the start. |
| ScanReplay.Collect | crates/pkgcruft/src/iter.rs:341-359 | Calling the class's `next` until `None` returns what draining the item sequence returns. |
| ScanReplay.IteratorAgrees | crates/pkgcruft/src/iter.rs:304-359 | For every finished schedule, the class fed with the items sent returns exactly what the step system yielded, and every finish notice names a thread it still knows, so the panic cannot happen. |
| ScanPlan.PkgPlanMatches | crates/pkgcruft/src/iter.rs:54-153 | The work list of a package-level scan is what the producer enqueues, message for job and job for message: repository checks, category checks, packages with ids in order, then the finish channel; each message's worker sends exactly that job's items. |
| ScanPlan.SortedPkgScan | crates/pkgcruft/src/iter.rs:54-153 | If packages are distinct and, of the calls the scan makes before the finish phase, only `run_checks` on a package reports on that package, a sorted package-level scan has the output above; a scan without package-level checks always has. |
| ScanPlan.VersionScanIsSorted | crates/pkgcruft/src/iter.rs:157-234 | A version-level scan yields all reports of all checks, sorted, whether or not sorting was asked for. |
| ScanCalls.MessagesAre | crates/pkgcruft/src/iter.rs:54-88 | A package-level scan sends exactly: each check from the repository source with the repository; each check from the category source with each category; and each package, with its place as id, when some check is of version or package scope. |
| ScanCalls.MessagesOrder | crates/pkgcruft/src/iter.rs:54-88 | In this order: repository, categories one by one with their checks in turn, packages by id. |
| ScanCalls.PkgFinishIs | crates/pkgcruft/src/iter.rs:94-103 | After the barrier it finishes each category target of each category check that asks for it, and each check that asks for it as a whole. |
| ScanCalls.PkgFinishOrder | crates/pkgcruft/src/iter.rs:94-103 | Categories one by one first, then the checks. |
| ScanCalls.VersionMainIs | crates/pkgcruft/src/iter.rs:164-177 | A version-level scan runs each check of version scope on each version and each check of package scope on each package, and nothing else. |
| ScanCalls.VersionMainOrder | crates/pkgcruft/src/iter.rs:164-177 | Versions one by one with their checks in turn, then packages. |
| ScanCalls.VersionFinishIs | crates/pkgcruft/src/iter.rs:183-193 | Then it finishes each version and each package for each check that asks for it. |
| ScanCalls.VersionFinishOrder | crates/pkgcruft/src/iter.rs:183-193 | In the same order. |
| ScanCalls.PkgScanYields | crates/pkgcruft/src/iter.rs:46-154 | A finished package-level scan has yielded a report exactly when one of the calls above emitted it. |
| ScanCalls.VersionScanYields | crates/pkgcruft/src/iter.rs:157-234 | The same for a version-level scan. |
| ReportOrder.ReportLaws | crates/pkgcruft/src/report.rs:941-960 | The hand-written order is total, transitive, and equal only for equal reports. |
| ReportOrder.ReportsInOrder | crates/pkgcruft/src/report.rs:941-998 | Which of two reports comes first: by package before categories before repositories; packages by name; in a package by version, then no location, line, column, and the package itself last; in one place by kind, then no message first, then by message. |
| ReportOrder.SortedMeans | crates/pkgcruft/src/report.rs:994-999 | Sorted means that no report stands behind one it comes before. |
| ReportOrder.SortOfTwo | crates/pkgcruft/src/iter.rs:314-314 | What sorting two reports gives. |
| ReportOrder.PackagesAreContiguous | crates/pkgcruft/src/report.rs:950-957 | Between two reports of a package and its versions only reports of that package sort. |
| ReportOrder.SortIsCanonical | crates/pkgcruft/src/iter.rs:314-314 | Sorting depends only on which reports there are and how often. |
| ParallelMap.OrderedIter.Next | crates/pkgcraft/src/traits.rs:464-479 | The loop ends, keeps the cache consistent and does what the reference consumer does with the same results. |
| ParallelMap.NextIsInOrder | crates/pkgcraft/src/traits.rs:464-479 | Whatever order the results arrive in, the next one returned is the one for the next id. |
| ParallelMap.ReturnsPrefix | crates/pkgcraft/src/traits.rs:408-479 | In every state of every schedule the values returned are a prefix of the function mapped over the input. |
| ParallelMap.NothingLostOrDuplicated | crates/pkgcraft/src/traits.rs:434-471 | Every id pulled from the input and not returned is in exactly one place: in hand, a channel, a worker or the cache. |
| ParallelMap.ExhaustionIsComplete | crates/pkgcraft/src/traits.rs:472-477 | `None` means the whole mapped input was returned. |
| ParallelMap.InFlightBound | crates/pkgcraft/src/traits.rs:414-419 | Items pulled from the input but not yet received by the consumer never exceed three times the jobs plus one. |
| ParallelMap.Progress | crates/pkgcraft/src/traits.rs:414-479 | Until `None` some step is enabled. |
| ParallelMap.Terminates | crates/pkgcraft/src/traits.rs:408-479 | Every schedule is at most six steps per item, plus jobs, plus two long. |
| ParallelReplay.Collect | crates/pkgcraft/src/traits.rs:464-479 | Calling the class's `next` until `None` returns what draining the results returns. |
| ParallelReplay.IteratorAgrees | crates/pkgcraft/src/traits.rs:408-479 | For every finished schedule, the class fed with the results the workers sent returns exactly what the step system returned, the function mapped over the input. |
| DependencyTree.DedupCovers | crates/pkgcraft/src/types/sorted_set.rs:94-128 | Collecting into a set drops a dependency only when an equal one stays. |
| DependencyTree.DedupKeepsFirsts | crates/pkgcraft/src/dep/dependency.rs:42-46 | Of equal dependencies the first stays, and what stays keeps its order. |
| DependencyIter.IterFlatten.Next | crates/pkgcraft/src/dep/dependency_iter.rs:60-77 | Takes the first of the remaining leaves and leaves the others in order; ends. |
| DependencyIter.IterFlatten.NextBack | crates/pkgcraft/src/dep/dependency_iter.rs:79-94 | Takes the last of the remaining leaves; ends. |
| DependencyIter.Interleave | crates/pkgcraft/src/dep/dependency_iter.rs:60-94 | For any mix of calls at both ends: what came out in front, what is left and the reversed output at the back make up the leaf list. |
| DependencyIter.IterConditionalFlatten.Next | crates/pkgcraft/src/dep/dependency_iter.rs:155-184 | Yields the leaves in order, each with exactly the guards on its path. |
| DependencyIter.IterRecursive.Next | crates/pkgcraft/src/dep/dependency_iter.rs:240-259 | Yields every node, parents first, left to right. |
| DependencyIter.IterConditionals.Next | crates/pkgcraft/src/dep/dependency_iter.rs:300-320 | Yields the guards of the conditionals among those nodes, in node order. |
| DependencyPaths.GuardedListsLeaves | crates/pkgcraft/src/dep/dependency_iter.rs:155-184 | The list these iterators return has every leaf of the tree once, left to right by its path, with the guards of the conditionals around it, outermost first. |
| DependencyPaths.LeavesAreValues | crates/pkgcraft/src/dep/dependency_iter.rs:60-77 | Flattening lists the same leaves in the same order without guards. |
| DependencyPaths.PreorderListsNodes | crates/pkgcraft/src/dep/dependency_iter.rs:240-259 | The recursive list has every node once, each before those under it, left to right. |
| DependencyPaths.GuardsAreOf | crates/pkgcraft/src/dep/dependency_iter.rs:300-320 | The list of guards has those of exactly the conditionals, in node order. |
| DependencyEval.IterEvaluate.Next | crates/pkgcraft/src/dep/dependency_iter.rs:368-410 | The worklist, with its nested evaluations, yields the structural evaluation of the queued trees in order; ends. |
| DependencyEval.EvaluateTree | crates/pkgcraft/src/dep/dependency.rs:361-391 | `evaluate` is that evaluation collected into a set, with options or forced. |
| DependencyEval.EvaluationFollowsGuards | crates/pkgcraft/src/dep/dependency_iter.rs:155-184 | A value is among the leaves of the evaluation exactly when it is a leaf all of whose guards are taken, for every tree and every test. |
| DependencyPaths.EvaluationUnderOptions | crates/pkgcraft/src/dep/use_dep.rs:95-101 | Under options, a value is among the leaves of the evaluation exactly when it is a leaf around which every `u?` has its flag on and every `!u?` has its flag off. |
| DependencyPaths.Polarity | crates/pkgcraft/src/dep/use_dep.rs:95-101 | `u? ( .. )` gives its evaluated members when u is on and nothing when it is off, `!u? ( .. )` the reverse. |
| DependencyPaths.EvaluationForced | crates/pkgcraft/src/dep/dependency_iter.rs:483-505 | Forced on, all leaves stay; forced off, exactly those outside conditionals. |
| DependencyPaths.EvaluationKeepsOrder | crates/pkgcraft/src/dep/dependency_iter.rs:368-410 | The leaves that stay keep their order. |
| DependencyEval.EvaluationIsMonotone | crates/pkgcraft/src/dep/dependency_iter.rs:401-405 | Taking more conditionals never loses a leaf. |
| DependencyEval.ForceBounds | crates/pkgcraft/src/dep/dependency_iter.rs:483-505 | Forcing off gives a subset, forcing on a superset, of the leaves under any options. |
| DependencyEval.EvaluateIsNormal | crates/pkgcraft/src/dep/dependency_iter.rs:377-405 | The result has no conditional, no empty group and no set with equal members, at any depth. |
| DependencyEval.EvaluateIsIdempotent | crates/pkgcraft/src/dep/dependency_iter.rs:368-410 | Evaluating the result again, under any options, gives the same result. |
| DependencyMeaning.EvaluationPreservesMeaning | crates/pkgcraft/src/dep/dependency_iter.rs:368-410 | For regular trees, a selection satisfies the tree under the options exactly when it satisfies every evaluated dependency, duplicates dropped. |
| DependencyMeaning.PlainIsRegular | crates/pkgcraft/src/dep/dependency_iter.rs:368-410 | Trees whose choice groups are non-empty sets without conditionals and empty groups inside are regular, under all options and whatever an empty choice counts as. |
| DependencySplice.SplicingExactly | crates/pkgcraft/src/dep/dependency_iter.rs:401-405 | Evaluating a choice of `u? ( xs )` and ys with u on keeps the meaning exactly when, for `\|\|`, xs is one value or all of it occurs in ys; for `^^`, xs is one value not in ys or several all in ys; for `??` also when xs is two values of which one makes up ys. |
| DependencySplice.UntakenExactly | crates/pkgcraft/src/dep/dependency_iter.rs:383-394 | With u off, exactly when there is a y, an empty choice counts as satisfied, or the choice is `??`. |
| DependencySplice.EmptiedGroupExactly | crates/pkgcraft/src/dep/dependency_iter.rs:377-394 | A choice with a group that evaluation empties keeps its meaning exactly when nothing stands beside the group. |
| DependencySplice.TwinsExactly | crates/pkgcraft/src/dep/dependency_iter.rs:377-394 | A choice of two groups that evaluate to the same one keeps its meaning exactly when it is `\|\|`. |
| DependencyMeaning.SplicingIntoChoiceChangesMeaning | crates/pkgcraft/src/dep/dependency_iter.rs:401-405 | A taken conditional with two values in a choice group: satisfied by one of them only after evaluation. |
| DependencyMeaning.DroppingEmptyGroupChangesMeaning | crates/pkgcraft/src/dep/dependency_iter.rs:377-382 | A group emptied by evaluation was a satisfied alternative before. |
| DependencyMeaning.CollapsingDuplicatesChangesMeaning | crates/pkgcraft/src/dep/dependency_iter.rs:389-394 | Two satisfied members of an exactly-one-of that evaluate to the same one fall together. |
| DependencyMeaning.DroppingEmptyChoiceChangesMeaning | crates/pkgcraft/src/dep/dependency_iter.rs:383-388 | A choice group emptied by evaluation disappears, also where an empty one does not count as satisfied. |
| DependencySort.SortIsSame | crates/pkgcraft/src/dep/dependency.rs:257-264 | A sorted tree compares equal to the one it came from. |
| DependencySort.SortOrders | crates/pkgcraft/src/dep.rs:107-114 | All-of and conditional groups outside choice groups end in order at every depth. |
| DependencySort.SortIsIdempotent | crates/pkgcraft/src/dep/dependency.rs:257-264 | Sorting twice is sorting once. |
| DependencySort.SortKeepsBlocks | crates/pkgcraft/src/dep/dependency.rs:257-264 | No leaf and no choice group is lost or copied, and every choice group stays exactly as it was. |
| DependencySort.SortKeepsLeaves | crates/pkgcraft/src/dep/dependency.rs:257-264 | The values in the leaves, with multiplicity, stay the same. |
| DependencyOrder.CmpIsLex | crates/pkgcraft/src/types/sorted_set.rs:107-128 | Comparing sorted members, which are themselves compared by sorting, is comparing member by member trees that were sorted throughout once. |
| DependencyOrder.DerivedLaws | crates/pkgcraft/src/types/sorted_set.rs:107-128 | Given a lawful order of values, the derived order is total and transitive, for all trees. |
| DependencyOrder.StringsAreLawful | crates/pkgcraft/src/dep/dependency.rs:128-146 | Strings, the values of license and similar dependencies, have such an order. |
| DependencyOrder.EqualExactly | crates/pkgcraft/src/types/sorted_set.rs:129-137 | Dependencies built of sets compare equal exactly when they are equal up to the order of members in all-of and conditional groups. |
| DependencyOrder.DependencyOrders | crates/pkgcraft/src/dep/dependency.rs:128-146 | Which of two dependencies comes first: by variant as declared, then leaves by value, groups by guard and then by the first member that differs. |
| DependencyOrder.GuardOrder | crates/pkgcraft/src/dep/use_dep.rs:22-30 | Guards go by flag, `!u?` before `u?`, and no default before off before on. |
| DependencyOrder.ListedMeans | crates/pkgcraft/src/types/sorted_set.rs:107-111 | Members are compared as they stand in choice groups and in ascending order in the others. |
| DependencyOrder.SortedIsArrange | crates/pkgcraft/src/dep.rs:107-114 | The order a comparison puts members in is the one sorting by it gives. |
| DependencyOrder.SortByDerived | crates/pkgcraft/src/dep/dependency.rs:257-264 | Under the crate's own order, sorting puts every all-of and conditional group outside choices in order, and sorting again changes nothing. |
| BashWalk.IterRecursive.Next | crates/pkgcraft/src/bash.rs:273-291 | Returns the first node still to be walked, or `None` exactly when there is none; the loop ends. |
| BashWalk.Nodes | crates/pkgcraft/src/bash.rs:270-292 | All calls together return the pruned preorder without the root, no node twice. |
| BashWalk.UpMoves | crates/pkgcraft/src/bash.rs:284-285 | Going up and remembering the parent skips nothing and repeats nothing. |
| BashWalk.WalkIsReachable | crates/pkgcraft/src/bash.rs:260-282 | The walk has exactly the nodes without a node of a skipped kind above them. |
| BashWalk.WalkInOrder | crates/pkgcraft/src/bash.rs:270-292 | It goes through the tree by ascending paths: every node before those under it, left to right. |
| Ignore.LoadData | crates/pkgcruft/src/ignore.rs:83-145 | The nested loops build, for every kind, the directives whose sets contain it, in file order, and collect the places that do not parse; ebuilds are read up to their first line of code. |
| Ignore.ValuesAre | crates/pkgcruft/src/ignore.rs:120-142 | Which values are read, by line and place: in an ebuild those of tagged comments with no line of code in front, elsewhere whole lines of text. |
| Ignore.ValuesInOrder | crates/pkgcruft/src/ignore.rs:89-98 | They are read line by line and left to right. |
| Ignore.InvalidAre | crates/pkgcruft/src/ignore.rs:107-116 | The places reported as invalid are exactly those of values that do not parse. |
| Ignore.GroupMeans | crates/pkgcruft/src/ignore.rs:100-106 | The entry has a kind exactly when something was pushed for it, and then all of that in order. |
| Ignore.GroupOrder | crates/pkgcruft/src/ignore.rs:44-44 | The kinds of an entry stand in the order in which the file first names them. |
| IgnoreCache.IgnoreScopes.Next | crates/pkgcruft/src/ignore.rs:246-278 | Yields the next scope and moves on; ends. |
| IgnoreCache.VisitsAre | crates/pkgcruft/src/ignore.rs:246-278 | The four scopes visited for each kind of target, with the repository again wherever the step is finer than the target. |
| IgnoreCache.ReplayMarks | crates/pkgcruft/src/ignore.rs:172-178 | Consulting an entry changes nothing but the marks, and those only to used, for exactly the kinds consulted. |
| IgnoreCache.IgnoreData.Ignored | crates/pkgcruft/src/ignore.rs:169-182 | Keeps the cache equal to the files up to marks, loads and marks exactly the visited scopes, and answers by the last directive. |
| IgnoreCache.Serve | crates/pkgcruft/src/ignore.rs:153-182 | Along any run every answer is the one the files give by themselves, and the cache stays coherent. |
| IgnoreCache.VersionRule | crates/pkgcruft/src/ignore.rs:165-182 | For a version the last matching directive in repository, category, package, ebuild order decides. |
| IgnoreCache.FileDecides | crates/pkgcruft/src/ignore.rs:172-178 | What a scope's file says about a kind: nothing when no value read from it names a set with the kind, else ignored exactly when the last such value in the file is not inverted. |
| IgnoreCache.MoreSpecificWins | crates/pkgcruft/src/ignore.rs:225-278 | More specific directives win exactly for versions, or when the repository or the scopes below it have no directive for the kind, or their last ones agree. |
| IgnoreCache.RepoOverridesPackage | crates/pkgcruft/src/ignore.rs:264-264 | A package's un-ignore directive loses to the repository's. |
| IgnoreCache.IgnoreData.Unused | crates/pkgcruft/src/ignore.rs:185-198 | Lists exactly the sets written in a loaded scope's file with a kind never consulted there, each once, ordered by the place in the file where the first such kind was first named, and within a kind in file order. |
| IgnoreCache.MarksAfter | crates/pkgcruft/src/ignore.rs:153-182 | After any run from an empty cache, a scope's kind is marked exactly when some report of that kind visited the scope. |
| IgnoreCache.EbuildUnused | crates/pkgcruft/src/check/ignore.rs:14-25 | A set in an ebuild is reported as unused exactly when one of its kinds had no report for the version without a location. |
| IgnoreCache.LocatedUseIsMissed | crates/pkgcruft/src/check/ignore.rs:14-25 | A directive that ignored a report with a line number is reported as unused. |
| IgnoreCache.HalfUsedSetIsUnused | crates/pkgcruft/src/check/ignore.rs:14-25 | A directive for a set of two kinds that ignored a report of one kind is reported as unused for want of the other. |
| ErrorCapture.Shell.BashError | crates/scallop/src/error.rs:62-80 | Records the message, without its shell name, at the current level unless nothing is left of it. |
| ErrorCapture.RecordedText | crates/scallop/src/error.rs:65-78 | A message is recorded without `scallop: ` in front, taken off once, and not at all when nothing is left; as a bail exactly with the bail status. |
| ErrorCapture.PrefixIs | crates/scallop/src/error.rs:67-67 | The bytes taken off spell `scallop: `. |
| ErrorCapture.Shell.SetShmError | crates/scallop/src/shell.rs:208-226 | Leaves the first 4094 bytes at most of the message waiting, with its bail flag; an empty message clears the buffer. |
| ErrorCapture.KeptBytes | crates/scallop/src/shell.rs:208-226 | The part of a message that is kept, and its status byte, in numbers. |
| ErrorCapture.Shell.RaiseShmError | crates/scallop/src/shell.rs:229-240 | Records what waits at the current level and empties the buffer. |
| ErrorCapture.Shell.OkOrError | crates/scallop/src/error.rs:50-59 | For every tree of nested calls: the result is the last error of the call's own level, shared memory last, else the function's; level and stored errors are as before the call. |
| ErrorCapture.Shell.Run | crates/scallop/src/error.rs:50-80 | All calls in a sequence of events return what is expected of each, in order. |
| ErrorCapture.Shell.RunAfterReset | crates/scallop/src/error.rs:42-45 | After a reset, calls return what they would in a new shell, whatever was recorded before; only a message waiting in shared memory survives the reset. |
| ErrorCapture.NestedErrorsStayInside | crates/scallop/src/error.rs:50-59 | Without shared memory, a call's result depends only on the messages at its own level. |
| ErrorCapture.LeftForTheNextCall | crates/scallop/src/error.rs:53-53 | A message waiting when a nested call begins is returned by that call, not by the one around it. |
| ErrorCapture.SharedErrorIsLast | crates/scallop/src/error.rs:50-59 | A subprocess's error that comes last is the result, whatever was recorded before. |
| ErrorCapture.LaterErrorWins | crates/scallop/src/error.rs:50-59 | So is a bash error that comes last, when nothing waits in shared memory. |
| ErrorCapture.BailFlagSurvives | crates/scallop/src/shell.rs:208-240 | Through the buffer, an error is a bail on the way out exactly when it was on the way in. |
| ScopedBuiltins.Shell.ToggleStatus | crates/scallop/src/builtins.rs:186-214 | Flips the status of the named builtins up to the first unknown one, and returns each changed name once when all are known. |
| ScopedBuiltins.ChangedLaws | crates/scallop/src/builtins.rs:199-206 | The returned names are exactly those whose status differed, none twice. |
| ScopedBuiltins.TogglingBack | crates/scallop/src/builtins.rs:311-319 | Dropping right after creating restores every flag, and cannot fail. |
| ScopedBuiltins.Nested | crates/scallop/src/builtins.rs:282-319 | Any nested run of guards, early ends included, drops without failing, succeeds exactly when all names are known, and then restores every flag. |
| ScopedBuiltins.FailedCreationLeaks | crates/scallop/src/builtins.rs:209-210 | A failed creation leaves the flags as they were exactly when the names before the unknown one had the status already. |
| ScopedOptions.ScopedOptions.Enable | crates/scallop/src/builtins.rs:332-356 | Turns on, and remembers in order by builtin, the options that were off when the call began, up to the first one that is unknown or that the shell refuses; succeeds exactly when there is none. |
| ScopedOptions.ScopedOptions.Disable | crates/scallop/src/builtins.rs:359-383 | The same for turning off. |
| ScopedOptions.ScopedOptions.Drop | crates/scallop/src/builtins.rs:386-404 | Undoes what is remembered, of `set` only the first option in each direction; panics exactly when one of these cannot be changed back, and then leaves what the calls up to the refused one left. |
| ScopedOptions.Session | crates/scallop/src/builtins.rs:323-404 | A guard's whole life, panicking drop included, ends in the options that its history determines; it panics exactly when its history leaves something that cannot be changed back, and restores the options exactly under the condition of `ScopedOptions.DropRestores`. |
| ScopedOptions.DropLeaves | crates/scallop/src/builtins.rs:386-404 | Of `shopt`, on after a drop that goes through are the options on at first, and those off at first that one call enabled and a later one disabled; of `set`, the first option the guard disabled, and those on but for the first it enabled. |
| ScopedOptions.DropRestores | crates/scallop/src/builtins.rs:386-404 | A guard's life, panicking drop included, restores the options exactly when nothing it has to change back is refused, no `shopt` option off at first was enabled and later disabled, every `set` option left changed is the first changed in its direction, and undoing these first ones changes no other. |
| ScopedOptions.StuckForGood | crates/scallop/src/builtins.rs:332-383 | An option the guard changed and the shell does not let be changed back was as the guard found it before, and is changed ever since. |
| ScopedOptions.StuckStaysOn | crates/scallop/src/builtins.rs:386-390 | An option that can be turned on but not off stays on: the drop panics. |
| ScopedOptions.EnableThenDisableStaysOn | crates/scallop/src/builtins.rs:386-404 | The shortest history that does not restore. |
| ScopedOptions.SecondSetOptionStays | crates/scallop/src/builtins.rs:397-403 | Of two `set` options that were off, are not refused and are enabled by one call, the second stays on, and the first too when it cannot be turned off. |
| Relpath.Relpath | crates/pkgcraft/src/utils.rs:84-125 | The two-iterator loop computes the reference recursion on all paths and bases, errors included. |
| Relpath.RestIs | crates/pkgcraft/src/utils.rs:101-121 | For a base without `.`: one `..` per base component not shared, then the rest of the path, and no result exactly when a `..` of the base would have to be undone. |
| Relpath.RelpathLeadsBack | crates/pkgcraft/src/utils.rs:72-125 | From a base without dots there is a result unless only the base is absolute, and appending it to the base leads to the path. |
| RelpathExact.LeadsBackExactly | crates/pkgcraft/src/utils.rs:84-125 | For every path and base with a result, appending it to the base leads to the path exactly when: the path alone is absolute; or the base has only names after what it shares with the path; or both are absolute and the path resolves to the root from there on; with the cases of a base that begins with `.` apart. |
| RelpathExact.NoAnswerExactly | crates/pkgcraft/src/utils.rs:84-121 | There is no result exactly when only the base is absolute, or the loop meets a `..` of the base that it would have to undo. |
| Relpath.CurrentDirectoryAsBase | crates/pkgcraft/src/utils.rs:109-109 | From `.` the result leads one directory too far up. |
| RelpathFewest.FewestBound | crates/pkgcraft/src/utils.rs:101-121 | Every relative path from a base to where a path leads, whatever the two, has at least as many `..` as the base's resolved place has components not shared with the path's, plus those in the rest of the path's. |
| RelpathFewest.BestLeads | crates/pkgcraft/src/utils.rs:101-121 | Wherever any relative path leads from a base to a path, that number is attained by one. |
| RelpathFewest.FewestExactly | crates/pkgcraft/src/utils.rs:84-125 | For every path and base with a result, it is a relative path with the fewest `..` exactly when path and base are of one kind, it leads to the path at all, and the `..` it has, counted from what path and base do not share, are the ones that resolving both leaves. |
| RelpathFewest.FewestUps | crates/pkgcraft/src/utils.rs:101-121 | In particular, between a path and a base without dots no relative path has fewer. |
| RelpathFewest.DottedPathCostsMore | crates/pkgcraft/src/utils.rs:101-121 | To a path with dots there can be one with fewer. |
| Collapse.Collapse | crates/pkgcruft/src/report.rs:312-359 | Fails exactly when nothing is enabled; otherwise returns, ascending, the defaults (unless a target is neutral) and all named or added kinds without the removed ones, and the selected kinds. |
| Collapse.SwapRemoveLaws | crates/pkgcruft/src/report.rs:345-347 | Removal from an index set drops exactly that element and keeps elements distinct. |
| Collapse.AscendingIsUnique | crates/pkgcruft/src/report.rs:354-356 | The returned lists are determined by their elements, so the order of targets does not matter. |

## Left out

- DependencyEval.IterEvaluate.Next: borrowed and owned iterators are one class, as are evaluation with options and forced evaluation; values have no owner here, and `to_ref` and `into_owned` would be the identity.
- DependencyMeaning.EvaluationPreservesMeaning: the condition for general trees is sufficient, not necessary; whether two trees ask for the same in every selection is as hard as equivalence of propositional formulas, so exact conditions are given for flat families (`DependencySplice`) and each part of the general one is shown to be needed by an input.
- DependencySort.SortIsSame: the order of dependencies is a parameter, required to be total and transitive only where that is used; `DependencyOrder` supplies the derived one.
- DependencyOrder.DerivedLaws: the order of the values in the leaves is a parameter that must be lawful; comparing borrowed with owned dependencies is the same comparison here.
- DependencyTree.Matches: USE dependencies other than conditionals are not implemented in the source either.
- The unordered parallel map iterator: it is the ordered one without ids and cache.
- Dropping an iterator before it is exhausted, panics in worker threads, and errors of `send` on a disconnected channel, which the source ignores.
- Thread ids and hash order: threads are numbered, and a flush takes the cached targets in any order.
- ScanThreads.WorkerControl: threads are a step system, one step per channel operation or call boundary; running a check is a list of sends, and its effects other than reports are not modelled.
- Versions are compared by rank; parsing and comparing versions is not part of this model.
- Ignore.LoadData: files are lists of classified lines, with directive values already parsed; a changed file is never reread, as in the source.
- IgnoreCache.IgnoreData.Ignored: calls are taken one at a time; concurrent calls meet only in the atomic access to one entry.  The list of scopes is computed before the entries are loaded, not lazily.
- ErrorCapture.Shell.OkOrError: one thread; messages are bytes, so replacing invalid UTF-8 after truncation is not modelled, nor are panics and long jumps out of a call.
- ScopedOptions.ScopedOptions.Drop: options are taken as independent: turning one on or off changes no other, although in bash the `compatNN` options of `shopt`, and `emacs` and `vi` of `set`, exclude each other and `posix` brings others along, so that a guard that touches such options may not restore even under the stated condition.  Which options the shell refuses to change is a parameter that stays the same, and a refusal is an error; bash also leaves some options, such as `login_shell`, unchanged without an error.  Nobody else changes options meanwhile, and the positional parameters that `set -o` with several names overwrites are not modelled.
- Report set expansion is a parameter of `Collapse` and `Ignore`: report levels, scopes and checks are static tables.
- Relpath.Relpath: paths are lists of components as the standard library splits them; joining them back into a string is not part of this model.
- The parsers, `DependencySet`, restrictions, metadata, file system, git and network code.
