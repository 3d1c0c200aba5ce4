# Verified models of the build tooling

Dafny models of the parts of the Go build tooling that coordinate concurrent
work, resolve packages, and print text that other code reads back. Each model
follows its Go file branch by branch; loops and objects that change in place
are methods and classes, proved against specifications that do not mention
them. `dafny verify dfyconfig.toml` checks everything.

- **Release gates** (`ReleaseSlots`, `ReleaseTrace`, `ReleaseLane`,
  `ReleaseSchedule`, `ReleaseGates`). The scheduler loop and the goroutines of
  the running gates. `ReleaseTrace` says what a run may look like from outside,
  without lanes, counters or queues; the scheduler class is proved to produce
  only such runs, whatever the goroutines do between its steps. Capacities are
  arbitrary: the repository's README speaks of three Docker slots where
  `magefiles/tag.go:62-66` has two, and nothing here depends on the number.
- **Bounded parallel runs** (`BoundedRun`). The smaller sibling: any limit, any
  completion order, the result of the sequential loop.
- **Release tags** (`ReleaseTags`, `ReleaseTagParts`). Two searches for the newest release that
  compare dates as numbers and as strings, merging of tag lists, and the choice
  of the next revision, with the wrap-around of a 64-bit increment.
- **Image leases** (`OwnerNames`, `LeaseProtocol`, `LeaseSafety`,
  `LeaseOrigin`, `LeaseManager`). Many processes share lease records on disk under lock
  directories. `LeaseProtocol` is a transition system of small steps (lock, read,
  look at the tag, resolve, record, drop, inspect, list containers, untag, write, delete,
  unlock, and what others do with docker); `LeaseSafety` holds the theorems about
  all its runs, `LeaseOrigin` those about whose tags are removed; `LeaseManager` is the code of one process, with arbitrary steps of
  the others between any two of its own.
- **Image build** (`ImageBuild`). The double-checked build under a lock.
- **Package closure** (`ClosureWorld`, `Closure`, `ClosureExact`,
  `ClosureTrails`, `ClosureFirst`, `ClosurePaths`, `ClosureRefusals`,
  `ClosureLineage`, `ClosureShortest`, `ClosureCycles`, `ClosureResolver`,
  `RuntimeSources`). The worklist over a
  reference graph, against a definition of the closure by trails: `ClosureTrails`
  says, without a worklist, on which trail a source is first reached, and
  `ClosureFirst` proves that the worklist visits exactly there. `ClosurePaths`
  says which paths follow from the entries and references on the way,
  `ClosureRefusals` why a run is refused. The lookup of
  declared runtime sources is proved against an order-free rule.
- **Image references** (`ImageRef`, `ImageParts`), **stats documents**
  (`JsonGrammar`, `JsonSyntax`, `JsonDocuments`, `JsonLayout`, `JsonDecoder`,
  `StatsFormat`, `StatsDocuments`) and **shell commands** (`ShellWords`). Printers
  and the parsers that undo them. `ImageParts`, `JsonSyntax` and `JsonDocuments`
  put texts together from their parts and prove that the parsers accept exactly
  these. The JSON grammar is
  that of sections 2 to 7 of RFC 8259, read as the Go decoder reads it: the text
  after the first value is not looked at, and a repeated key keeps its first place
  and its last value. Word splitting follows sections 2.2.1 (Escape Character) and
  2.2.2 (Single-Quotes) of the POSIX Shell Command Language.

Five properties one might expect do not hold of the code, and the models say so:

- An upstream version that ends in `-recipe` passes validation but prints to a
  reference that does not parse (`ImageRef.PrintParses` gives the exact condition,
  `ImageRef.AmbiguousImage` an image).
- A local image without an operating system or an architecture is always refused:
  the attempt at `magefiles/kindrig/imageref.go:151-155` to fill the missing half in
  never succeeds (`ImageRef.HalfPlatform`, and `ImageRef.NormalIsSpelled` for what an
  image is normalised to).
- The last owner of a lease is to delete only a tag that did not exist before the
  lease. A `docker image inspect` that fails counts as an absent tag: if the first
  acquirer's does, a tag that was there before, and that nobody moved, is removed
  (`LeaseOrigin.MissedTagIsRemoved` is a run). For a lease group started in the run
  the property holds exactly when that look did not miss the tag
  (`LeaseOrigin.RemovedTagWasAbsent`).
- A comment at `magefiles/appmanifest/closure.go:371-373` says cycles outside REST
  remain invalid. Two sources that refer to each other are accepted if a third one
  queued both first (`ClosureCycles.CrossedCycleIsAccepted`). A run that meets no
  other error is refused as cyclic exactly when some source refers to another one
  on the lineage of the first trail to itself, neither of them a REST source
  (`ClosureFirst.RefusedExactly`); with one runtime path for each source that is the
  shortest trail, ties broken by the order of starts, entries and references
  (`ClosureShortest.RefusedOnShortestTrails`).
- A listed revision at the top of the 64-bit range makes the next one wrap around;
  `ReleaseTags.NextRevisionExceedsAll` is the exact condition,
  `ReleaseTags.TopRevisionWraps` a list.

Assumptions, all visible in the models: the outcome of a release gate or a bounded
item is fixed per item; between looking at a leased tag and removing it nobody
outside the lease protocol moves that tag; process numbers are not reused within a
run; an inspection during an image build shows what the tag names or fails, and
nobody outside the builders changes the tag; a lease's image builder answers with the reference
it was given (`magefiles/kindrig/buildimage.go:306-309`).

## Model

| member | source | states |
|---|---|---|
| ReleaseSlots.ValidateReleaseResources | magefiles/tag.go:487-503 | finds the first gate whose own request exceeds the capacities, and none exactly when every gate fits alone |
| ReleaseSlots.BlockingReleaseResources | magefiles/tag.go:505-524 | lists exactly the classes whose free slots fall short of the request, and none exactly when it fits |
| ReleaseLane.ReleaseLanes | magefiles/tag.go:446-466 | the lanes partition the scheduled gates by lane name, each in input order |
| ReleaseLane.RunnableReleaseLanes | magefiles/tag.go:468-485 | exactly the idle lanes with a gate left, ordered by priority and then by canonical index |
| ReleaseLane.NameIsLane | magefiles/tag.go:449-454 | two gates fall into one lane exactly when their lane fields are the same, or both among none and `serial` |
| ReleaseTrace.EveryMomentIsSafe | magefiles/tag.go:363-430 | at every point of a legal run the active gates' requests stay within capacity, a lane has at most one gate in flight, and a gate starts only after its lane's earlier gates passed |
| ReleaseTrace.EachGateOnce | magefiles/tag.go:363-430 | no gate is started or received twice |
| ReleaseTrace.LaneOrder | magefiles/tag.go:446-485 | a lane starts its gates in input order |
| ReleaseTrace.LaunchesByPriority | magefiles/tag.go:468-485 | in terms of the gates' own fields: a gate is started only when every waiting gate of higher priority, or of the same priority and earlier in the list, asks for more slots of a class than the running gates leave |
| ReleaseTrace.LanesRunApart | magefiles/tag.go:446-466 | two gates that run at one time have different lane fields, and not one none and the other `serial` |
| ReleaseTrace.LaunchIsChecked | magefiles/tag.go:361-409 | each start has a look at the failure flag of its own before it, at which no gate had raised the flag |
| ReleaseTrace.AtMostOneLaunchAfterFailure | magefiles/tag.go:361-409 | after a gate raised the failure flag at most one more gate starts |
| ReleaseTrace.NeverIdleWithRoom | magefiles/tag.go:363-412 | whenever a result is awaited without a failure, the launch pass before left every ready gate blocked by capacity |
| ReleaseTrace.NoStall | magefiles/tag.go:363-440 | with nothing in flight and no failure, a settled pass means every scheduled gate was launched, so the scheduler never runs out of launchable gates early |
| ReleaseSchedule.ReleaseScheduler.InUseIsDemand | magefiles/tag.go:552-568 | the scheduler's slot counters equal the active gates' requests, class by class, and overdraw no class |
| ReleaseSchedule.ReleaseScheduler.Launch | magefiles/tag.go:363-405 | launching a candidate is a legal step: its slots are booked and its lane is busy |
| ReleaseSchedule.ReleaseScheduler.LaunchPass | magefiles/tag.go:363-412 | a pass launches in priority order what fits, until the flag shows or every idle lane was considered |
| ReleaseSchedule.ReleaseScheduler.Receive | magefiles/tag.go:413-430 | takes one result, returns its slots and frees its lane; the counters stay those of the gates in flight |
| ReleaseSchedule.ReleaseScheduler.LowestFailure | magefiles/tag.go:431-443 | the failure reported is that of the failed gate with the lowest canonical index |
| ReleaseSchedule.ReleaseScheduler.ExecuteReleaseSchedule | magefiles/tag.go:341-444 | for every interleaving the trace is legal, everything launched is awaited, and the result is all passed, the lowest failure, or the first gate asking too much; no failing gate means no error, so the error for a gate that cannot launch is unreachable |
| ReleaseGates.StageRunsAlone | magefiles/tag.go:293-312 | appending a stage keeps the leading exclusive gates alone while they run |
| ReleaseGates.ExecuteReleaseGates | magefiles/tag.go:293-312 | the log is that of legal stages, one after another; leading exclusive gates run alone and before the rest; success means every gate ran once and passed, and an error is explained by the log |
| ReleaseGates.EveryMomentOfRun | magefiles/tag.go:293-312 | at every point of such a log, across its stages, the gates in flight stay within capacity and one a lane, and every started gate's lane and all leading exclusive gates before it have passed |
| ReleaseGates.OneLaunchAfterFailure | magefiles/tag.go:293-312 | after a gate raised the failure flag at most one more gate starts in the whole run |
| BoundedRun.FirstFailureIs | magefiles/parallel.go:15-52 | the sequential loop's result is the first failing item's error |
| BoundedRun.RunBounded | magefiles/parallel.go:15-52 | for every limit and completion order the sequential result; what is launched is a prefix, never more than the limit runs, nothing starts after a failure was received, and everything started is awaited |
| ReleaseTags.NewestReleaseTag | magefiles/tag_release.go:93-111 | returns the newest release among the lines, or nothing when there is none |
| ReleaseTags.LatestReleaseTag | agent-core/magefiles/release.go:99-121 | the same, though it compares dates as strings |
| ReleaseTags.NewestIsUnique | magefiles/tag_release.go:93-111 | both searches return the same tag for every list |
| ReleaseTags.NextRevisionFromTags | magefiles/tag.go:613-631 | one more than the highest listed revision of the date that fits an int, wrapping at the top |
| ReleaseTags.NextRevisionExceedsAll | magefiles/tag.go:613-631 | the chosen revision exceeds every listed one exactly when none has reached the top of the range |
| ReleaseTags.TopRevisionWraps | magefiles/tag.go:613-631 | a list holding the top revision gets the lowest int next, and a tag with a minus sign |
| ReleaseTags.NewTagIsFresh | magefiles/tag.go:613-631 | below that bound the new tag is not among the listed ones |
| ReleaseTags.NewTagIsNewest | magefiles/tag.go:613-631 | below that bound the new tag is the newest exactly when no listed release has a later date |
| ReleaseTags.KeepMeaning | magefiles/tag.go:659-673 | merging keeps every non-empty trimmed line once and adds nothing |
| ReleaseTags.MergedListsAll | magefiles/tag.go:659-673 | the merged lines list exactly the revisions the sets list |
| ReleaseTags.ChooseReleaseTag | magefiles/tag.go:158-168 | the tag chosen from local and remote lines is fresh, and newest exactly when no listed release has a later date |
| ReleaseTagParts.ReleaseIs | magefiles/tag_release.go:93-111 | a line is a release of a date and revision exactly when it is `v0.`, eight digits, a dot and digits that fit an int, but for white space around it |
| ReleaseTagParts.LineListsExactly | magefiles/tag.go:613-631 | a line lists a revision of a date exactly when it is any number of path segments with slashes, `v0.`, the date, a dot and digits of the revision |
| OwnerNames.HintIsPrefix | magefiles/kindrig/imagelease.go:455-460 | the prefix is read back from every generated owner name, `-p` inside it or not |
| OwnerNames.NameIsHint | magefiles/kindrig/imagelease.go:455-460 | an owner name without `-p` behind its start is its own hint |
| OwnerNames.NamesDiffer | magefiles/kindrig/imagelease.go:285-287 | names made from different prefix, process, time or sequence number differ |
| OwnerNames.OwnerClusterIsLive | magefiles/kindrig/imagelease.go:462-472 | an owner is dead exactly when its hint starts with `da-` and is not a listed cluster |
| OwnerNames.DropDeadOwners | magefiles/kindrig/imagelease.go:522-529 | whatever the visiting order, the kept owners are the live ones, and `changed` says whether any was dropped |
| OwnerNames.DroppedExactly | magefiles/kindrig/imagelease.go:512-537 | a generated owner is dropped exactly when its prefix names an unlisted rig cluster |
| LeaseProtocol.SectionsAreApart | magefiles/kindrig/imagelease.go:572-594 | processes in critical sections are on different record files, and so on different references even under collisions |
| LeaseSafety.StepKeepsSound | magefiles/kindrig/imagelease.go:223-293 | every step of anybody keeps: locks held, local copies equal to disk, live leases recorded with the promised image |
| LeaseSafety.RunIsSound | magefiles/kindrig/imagelease.go:191-293 | that invariant after every legal run of any number of processes |
| LeaseSafety.RemovalIsSafe | magefiles/kindrig/imagelease.go:539-570 | `docker image rm` runs only with no live lease, no recorded owner but those just dropped, a managed class, a record that does not say the tag pre-existed, the leased image ID, and no container at the listing just before |
| LeaseOrigin.RecordHasOrigin | magefiles/kindrig/imagelease.go:251-293 | every record was there before the run, or was started in it by an acquirer that held the lock and found none, and ever since carries what that acquirer's look at the tag had shown |
| LeaseOrigin.RemovedTagWasNotSeen | magefiles/kindrig/imagelease.go:539-570 | a tag is removed only for a record that was there before the run without the flag, or that was started by an acquirer whose look showed no tag |
| LeaseOrigin.RemovedTagWasAbsent | magefiles/kindrig/imagelease.go:332-346 | the tag removed for a lease group started in the run was absent at its first acquirer's look exactly when that look did not miss it |
| LeaseOrigin.MissedTagIsRemoved | magefiles/kindrig/imagelease.go:332-346 | one failed look is enough: a tag that was there, and that nobody moved, is removed when the only owner releases it |
| LeaseOrigin.DeletedLeavesNoTag | magefiles/kindrig/imagelease.go:539-570 | a record is deleted only when none of its owners holds a lease, and, if its tag is the lease group's to delete, only after docker showed no tag or removed it |
| LeaseSafety.LeasesAgree | magefiles/kindrig/imagelease.go:251-293 | all live leases of a reference hold the image ID in the record, which lists them |
| LeaseSafety.OtherRecordsUntouched | magefiles/kindrig/imagelease.go:572-647 | no step changes, replaces or deletes the record of a reference its process is not working on, even if both hash to one file |
| LeaseSafety.LockIsNeverStolen | magefiles/kindrig/imagelease.go:572-589 | a lock is taken only while nobody is in a critical section on its file |
| LeaseSafety.LeaseEnds | magefiles/kindrig/imagelease.go:362-380 | a lease ends only by its holder's release or by a reconciliation that does not list its cluster |
| LeaseSafety.NameIsNew | magefiles/kindrig/imagelease.go:285-287 | no process records an owner name that was given out before |
| LeaseManager.OthersLeaveAlone | magefiles/kindrig/imagelease.go:572-589 | no step of another process touches what a process relies on in its critical section |
| LeaseManager.LeaseManager.Lock | magefiles/kindrig/imagelease.go:572-589 | waits for a lock that is there and gives up rather than remove it, by a timeout only while the lock is there |
| LeaseManager.LeaseManager.ReadRecord | magefiles/kindrig/imagelease.go:596-623 | missing, broken (unreadable, or with another reference or an unknown version in the file) or the normalised record |
| LeaseManager.LeaseManager.Write | magefiles/kindrig/imagelease.go:625-640 | the file holds the new record, or on failure what it held |
| LeaseManager.LeaseManager.ResolveLocal | magefiles/kindrig/imagelease.go:295-330 | a result names a present image whose platform and kind of identity are those its reference spells out; whether the tag pre-existed is what the look, taken under the lock, showed |
| LeaseManager.LeaseManager.Resolve | magefiles/kindrig/imagelease.go:332-346 | an upstream image must be present; another one is whatever the builder answers for that reference; whether the tag pre-existed is what the look before showed, an absent tag and a failed look alike |
| LeaseManager.LeaseManager.RecordAcquire | magefiles/kindrig/imagelease.go:251-293 | adds one owner to a record of the same reference, image ID, revision, recipe and platform or starts one, keeping the other owners and whether the tag pre-existed; it refuses only an unclassified reference, a blank image ID, a record that differs in one of these fields or a failed write, and then this process holds no new lease |
| LeaseManager.LeaseManager.Acquire | magefiles/kindrig/imagelease.go:223-249 | a lease returned is held, recorded on disk with its image ID, and named after the caller's prefix; none is returned only for an unclassified image, a blank prefix, a lock given up, a record that cannot be read or is foreign, an upstream image the look did not show, a failed build, or for what recording refuses |
| LeaseManager.LeaseManager.AcquireLocal | magefiles/kindrig/imagelease.go:191-221 | the same for derived and cache images only, where a look that shows no image of the platform and kind the reference spells out is the one more cause |
| LeaseManager.LeaseManager.ReleaseWithoutOwner | magefiles/kindrig/imagelease.go:539-570 | success leaves no record; failure leaves a record, as it was or with the failure noted, and has a cause: a tag that names another image, containers that use it or cannot be listed, a tag or record that cannot be removed |
| LeaseManager.LeaseManager.Release | magefiles/kindrig/imagelease.go:362-380 | success means the owner is gone and the other owners stay, or the record is gone with the last one; it fails only for an unknown owner, a foreign record or a step that failed, and then a record is kept |
| LeaseManager.LeaseManager.ReconcileReference | magefiles/kindrig/imagelease.go:512-537 | exactly the owners of unlisted rig clusters are dropped, and the record goes if none is left; it fails only for a foreign record or a step that failed |
| LeaseManager.LeaseManager.Reconcile | magefiles/kindrig/imagelease.go:480-510 | every reference is visited whether or not others fail, each at some point of the run has lost its dead owners or kept its record, and the failures are counted |
| ImageBuild.AtMostOneBuild | magefiles/kindrig/buildimage.go:257-362 | however many processes ensure one image from one checkout, at most one build succeeds, unless an inspection under the lock fails after a build succeeded |
| ImageBuild.ResultMatched | magefiles/kindrig/buildimage.go:257-312 | every successful return names the image of the process's last inspection, which carried a sha256 ID and the revision, recipe, platform and platform label asked for |
| ImageBuild.FailureHasCause | magefiles/kindrig/buildimage.go:257-292 | whoever ends without an image gave up the lock, failed to build, or did not find what it had built |
| ImageBuild.MissedBuildBuildsAgain | magefiles/kindrig/buildimage.go:294-312 | one such failed inspection is enough for a second build |
| ImageBuild.TwoCheckoutsBuildTwice | magefiles/kindrig/buildimage.go:339-362 | with two checkout paths, whose locks differ, two builds can succeed |
| ImageBuild.ImageBuilder.Ensure | magefiles/kindrig/buildimage.go:257-292 | a refused request does nothing; otherwise it keeps to the protocol, a result's ID is that of its last inspection, which carried all that was asked for, a reused result built nothing and a built one built once, and no result has one of the causes above |
| Closure.StepDescends | magefiles/appmanifest/closure.go:218-262 | each iteration visits a new key under the work bound or shortens the queue, so the loop ends on every graph |
| ClosureExact.RunIsExact | magefiles/appmanifest/closure.go:218-388 | on success everything visited is in the closure, everything it owes is visited under the same root, its references were acceptable, the inventory lists exactly the visited files with their roots and least source names, and runtime and package paths are one to one with one checksum |
| ClosureExact.ListedIsReachable | magefiles/appmanifest/closure.go:285-315 | a file is listed under a root only if references lead there from that root, with that file's checksum |
| ClosureTrails.FirstIsUnique | magefiles/appmanifest/closure.go:224-230 | each source, runtime path and root is first reached on one trail only |
| ClosureTrails.FirstIsShortest | magefiles/appmanifest/closure.go:224-230 | no other trail that goes on from first trails reaches it in fewer steps or by earlier choices |
| ClosureTrails.FirstExists | magefiles/appmanifest/closure.go:224-230 | whatever such a trail reaches has a first trail, no later |
| ClosureFirst.RunTracks | magefiles/appmanifest/closure.go:218-262 | step by step the queue holds the trails in their order, and the run ends with all of them taken or at the first refusal |
| ClosureFirst.ProcessedOnFirstTrails | magefiles/appmanifest/closure.go:218-262 | on success the processed items are exactly the ends of first trails, with the lineages these gather |
| ClosureFirst.VisitedOnFirstTrails | magefiles/appmanifest/closure.go:218-262 | on success the visited set is exactly what first trails reach |
| ClosureFirst.CyclicErrorIsOnLineage | magefiles/appmanifest/closure.go:363-387 | a run refused as cyclic names a reference to another source on the lineage of a first trail, neither end a REST source |
| ClosureFirst.RefusedExactly | magefiles/appmanifest/closure.go:363-387 | a run that meets no other error is refused as cyclic if and only if there is such a reference |
| ClosurePaths.ReachedByHops | magefiles/appmanifest/closure.go:264-283 | the item at the end of a trail has the source, runtime path, package path, root and lineage that follow from the start and the entries and references on the way, each offered by the disk where the ones before lead |
| ClosurePaths.ProcessedIsEnd | magefiles/appmanifest/closure.go:218-262 | every processed item is such an end of a first trail |
| ClosurePaths.ListedIsPackagedOnTrail | magefiles/appmanifest/closure.go:285-315 | a listed file has the package path, checksum and source name that a first trail to its runtime path leads to |
| ClosureRefusals.RefusalHasCause | magefiles/appmanifest/closure.go:218-388 | each error names what calls for it at the end of a first trail: a broken source, a symbolic link, two files that clash in destination or package path, more files than allowed, an unresolvable reference, a cycle, or as many visits as the work bound |
| ClosureRefusals.RefusedForCause | magefiles/appmanifest/closure.go:218-388 | a run that the work bound does not stop is refused if and only if there is such a cause |
| ClosureWorld.RestExactly | magefiles/appmanifest/closure.go:371-379 | REST sources are the files named `rest.yaml` and those whose path ends in `-rest.yaml` |
| ClosureShortest.FirstIsLeast | magefiles/appmanifest/closure.go:218-262 | where references back to a lineage repeat nodes of the trail, the first trail is the one of fewest steps, ties broken step by step, among all trails |
| ClosureShortest.RefusedOnShortestTrails | magefiles/appmanifest/closure.go:363-387 | with one runtime path for each source, the refusal is decided by the lineages of shortest trails |
| ClosureLineage.LineageIsEntered | magefiles/appmanifest/closure.go:380-387 | a lineage is the start of the trail and the sources it refers to on the way |
| ClosureLineage.DominatingCycleIsRefused | magefiles/appmanifest/closure.go:363-387 | after success every reference between non-REST sources leaves a trail to its source that avoids its target, so references back to what every trail passes are refused |
| ClosureLineage.VisitedIsClosure | magefiles/appmanifest/closure.go:218-262 | where no reference with a REST end closes a cycle, the visited set is exactly the closure by trails |
| ClosureLineage.AcyclicIsNotRefused | magefiles/appmanifest/closure.go:363-387 | a closure is never refused as cyclic when every reference of it that closes a cycle has a REST source at one end, whatever lies outside the closure |
| ClosureLineage.RootCycleIsRefused | magefiles/appmanifest/closure.go:363-387 | in particular nothing visited refers back to its root's only start, except to itself or around a REST source |
| ClosureCycles.DirectCycleIsRefused | magefiles/appmanifest/closure.go:363-387 | two files that refer to each other are refused |
| ClosureCycles.CrossedCycleIsAccepted | magefiles/appmanifest/closure.go:224-230 | two files that refer to each other are accepted when a third queued both first |
| ClosureCycles.CrossedLetters | magefiles/appmanifest/closure.go:224-230 | such a package exists: `a.yaml`, `b.yaml` and `c.yaml` |
| ClosureResolver.Resolver.ExpandDirectory | magefiles/appmanifest/closure.go:264-283 | queues the entries in order behind the queue, or refuses a symbolic link |
| ClosureResolver.Resolver.AddItemFile | magefiles/appmanifest/closure.go:285-315 | updates the two maps as one inventory addition, conflicts and limit included |
| ClosureResolver.Resolver.EnqueueReference | magefiles/appmanifest/closure.go:348-388 | queues what following the reference on values gives, or its error |
| ClosureResolver.Resolver.Resolve | magefiles/appmanifest/closure.go:218-262 | the loop over the fields ends in the state, or with the error, of the run on values |
| RuntimeSources.SortedDeclarations | magefiles/appmanifest/closure.go:121-154 | the declared sources of the roots that are not only planned, once each, deepest directories first |
| RuntimeSources.DeclaredRuntimeSource | magefiles/appmanifest/closure.go:557-588 | the two passes over any so sorted list give the answer of the order-free rule |
| RuntimeSources.AnswerIsUnique | magefiles/appmanifest/closure.go:557-588 | the rule has one answer, whatever the order of the declarations: exact match first, else the deepest containing directory, ambiguous exactly when it belongs to two trees |
| RuntimeSources.ResolveRuntimeSource | magefiles/appmanifest/closure.go:121-154 | sorting and looking up together give the rule's answer on the declarations as written |
| RuntimeSources.CoversExactly | magefiles/appmanifest/closure.go:557-588 | a declared directory contains itself and what is behind it and a slash |
| RuntimeSources.CarriedExactly | magefiles/appmanifest/closure.go:557-588 | what is behind the directory and its slash is joined to the source directory |
| ImageRef.PrintParses | magefiles/kindrig/imageref.go:87-133 | a valid image parses back from its print exactly when its upstream version does not end like the recipe delimiter |
| ImageRef.AmbiguousImage | magefiles/kindrig/imageref.go:200-205 | a derived image with upstream version `1-recipe` is valid and its print is refused |
| ImageRef.ParsedIsUnambiguous | magefiles/kindrig/imageref.go:87-115 | what the parser accepts is valid and outside that family |
| ImageRef.ParsePrintParse | magefiles/kindrig/imageref.go:87-133 | any accepted reference reparses from its canonical print to the same image |
| ImageRef.DelimiterFirst | magefiles/kindrig/imageref.go:212-248 | where the parser's first cut at the recipe delimiter falls, version by version |
| ImageRef.NormalIsSpelled | magefiles/kindrig/imageref.go:135-160 | an image is normalised to v exactly when v is valid and the image spells it: up to case and surrounding space, with hashes of 12 to 64 digits cut to 12, and with its platform given |
| ImageRef.HalfPlatform | magefiles/kindrig/imageref.go:265-279 | text with an empty half before or behind its slash is no platform |
| ImageRef.ValidIsNormal | magefiles/kindrig/imageref.go:135-210 | a valid image is its own normal form |
| ImageRef.FormatParses | magefiles/kindrig/imageref.go:78-85 | a formatted image parses to its normal form exactly outside that family, and formatting the normal form changes nothing |
| ImageParts.ValidatesExactly | magefiles/kindrig/imageref.go:162-210 | an image is valid exactly when its role is one of four, its component is runs of small letters and digits with single dots, underscores or hyphens between them and no `-smoke` at its end, its platform is linux and letters and digits, and it carries the hash or version of its identity and nothing else |
| ImageParts.PlatformExactly | magefiles/kindrig/imageref.go:265-279 | a text is the platform of an architecture exactly when it is, trimmed and in either case, `linux/` or `linux-` and the architecture |
| ImageParts.ParsesExactly | magefiles/kindrig/imageref.go:86-115 | a reference is read as an image exactly when the image is valid and the reference, trimmed, is its name in either case, a colon and a tag of its identity, hash and platform in either case, with at most an empty digest behind it |
| JsonGrammar.ParsedIsWellFormed | magefiles/stats_format.go:42-93 | a decoded tree has distinct keys in every object and numbers kept as valid number text |
| JsonGrammar.NumberStops | magefiles/stats_format.go:28-40 | the longest number at the start of a text is the same whatever a document puts behind it |
| JsonGrammar.DistinctIsCollected | magefiles/stats_format.go:67-79 | members with distinct keys are kept in the order they were read |
| JsonSyntax.NumberReads | magefiles/stats_format.go:28-40 | every number put together from a sign, a whole part, a fraction and an exponent is read whole |
| JsonSyntax.NumberHasParts | magefiles/stats_format.go:28-40 | every number has such parts |
| JsonSyntax.GlyphsRead | magefiles/stats_format.go:42-53 | every string put together from plain characters, escapes of one letter, four hexadecimal digits and surrogate pairs is read as what these mean |
| JsonSyntax.TextHasGlyphs | magefiles/stats_format.go:42-53 | every string read is put together so |
| JsonDocuments.DocReads | magefiles/stats_format.go:42-93 | every document put together from values, brackets, commas, colons and blanks between any of them is read as its tree |
| JsonDocuments.ValueHasDoc | magefiles/stats_format.go:42-93 | whatever is read is such a document of the tree that is read |
| JsonDocuments.ReadsExactlyDocs | magefiles/stats_format.go:42-93 | both together, where the text goes on with what cannot continue a number |
| JsonLayout.TextReads | magefiles/stats_format.go:204-210 | every string, escaped as the encoder does, is read back |
| JsonLayout.CompactReads | magefiles/stats_format.go:159-194 | a tree is read back from its one-line form |
| JsonLayout.LayoutReads | magefiles/stats_format.go:113-155 | a tree is read back from its layout at every depth and indentation |
| JsonDecoder.TokenOfValue | magefiles/stats_format.go:42-53 | in front of a value, the decoder's next token says what the grammar says |
| StatsFormat.FormatPreserves | magefiles/stats_format.go:95-111 | formatting fails exactly on what does not parse, and the formatted text parses to the same tree |
| StatsDocuments.DocumentIsFormatted | magefiles/stats_format.go:95-111 | every document is formatted, whatever follows it, to a text that denotes the document's tree |
| StatsDocuments.FormattedIsDocument | magefiles/stats_format.go:95-111 | what is formatted starts with a document of the tree that the text denotes |
| StatsDocuments.EncodedAs | magefiles/stats_format.go:204-210 | which characters are written as they are, which with an escape of one letter and which with hexadecimal digits |
| StatsDocuments.WidthCountsBytes | magefiles/stats_format.go:113-121 | the width compared with the limit is the length in bytes of UTF-8 |
| StatsFormat.FormatIsIdempotent | magefiles/stats_format.go:95-111 | formatting twice is formatting once |
| StatsFormat.FormatSeparates | magefiles/stats_format.go:95-111 | two documents are formatted alike exactly when they denote one tree |
| StatsFormat.OneLineWhenItFits | magefiles/stats_format.go:95-121 | a value is on one line exactly when that line fits the width or the value is not a container |
| StatsFormat.StoringPuts | magefiles/stats_format.go:74-77 | the key list and value map together hold the members with a repeated key in its first place and with its last value |
| StatsFormat.DecodeOrderedValue | magefiles/stats_format.go:42-93 | reading through tokens gives the tree of the grammar and leaves the decoder behind it, or fails with the grammar |
| StatsFormat.CompactValue | magefiles/stats_format.go:159-194 | the loop builds the one-line form |
| StatsFormat.WriteValue | magefiles/stats_format.go:113-155 | appends the layout to the builder |
| StatsFormat.FormatJson | magefiles/stats_format.go:95-111 | decoding and writing together are the format whose properties are above |
| ShellWords.ShellCommand | agent-core/magefiles/docker.go:141-147 | the printed command splits back into the argument list |
| ShellWords.ScanQuoted | agent-core/magefiles/docker.go:149-162 | one quoted argument, wherever it stands, is read as that one word |
| ShellWords.CommandSplitsBack | agent-core/magefiles/docker.go:141-162 | splitting gives back every list of strings, empty strings and quotes included |
| ShellWords.CommandsDiffer | agent-core/magefiles/docker.go:141-162 | different argument lists print different commands |
| ShellWords.PrintedPlainly | agent-core/magefiles/docker.go:149-162 | an argument is printed as it is exactly when it is ASCII letters, digits and ten marks, and else in quotes |
| Strings.TrimSplits | magefiles/tag_release.go:96-98 | trimming takes white space off both ends of a text and nothing else |
| Strings.SpaceExactly | magefiles/tag_release.go:96-98 | which characters are white space |
| Strings.LowerExactly | magefiles/kindrig/imageref.go:135-141 | lower case adds 32 to an ASCII capital and leaves other characters, but for two that become `i` and `k` |
| Strings.LessExactly | magefiles/appmanifest/closure.go:285-300 | a text is less than its extensions, and where the first difference is less |

## Left out

- Subprocesses, git, docker, kubectl and HTTP calls: their outcomes are arbitrary results or abstract state.
- Wall-clock time, log lines, wait notices and most error wording; lock timeouts count only as giving up.
- Release gates: the start and wait times of a gate and the `blockedBy` notices; a lane's `next` and `active` are parallel sequences of the scheduler.
- Goroutines act at the scheduler's reads of the flag and at its receives, where their actions become visible; finer interleavings with its local steps commute.
- Crashes inside a critical section, and the explicit recovery of a lease, which ignores owners by design.
- Lease records hold process numbers of owners, not the times of acquisition; a record that does not decode counts as unreadable.
- LeaseManager.LeaseManager.Reconcile: does not collect the errors, only how many references failed; listing the lease directory, at `magefiles/kindrig/imagelease.go:480-503`, is its parameter.
- The status report of a lease and the retry of a release that failed once: a lease object's own owner field is not modelled.
- Classification of lease references and the identity spelled out by a local image name are given functions here; the name grammar itself is in `ImageRef`.
- Image build: the model follows one image's tag; builders of other images do not touch it. The build context, the build arguments and a lock directory that cannot be removed are left out.
- ImageBuild.ImageBuilder.Ensure: how a checkout's identity is resolved and checked against the image name is one given answer.
- LeaseManager.LeaseManager.Ensure: the builder a lease calls is any answer for its reference; `ImageBuild` models it on its own.
- SHA-256 of lock and record names is an arbitrary function, so collisions are allowed.
- ClosureResolver.Resolver.EnqueueReference: takes a reference already resolved, because YAML decoding, templates, library roots and runtime-owned prefixes are given functions here; symbolic links in root paths are not modelled.
- Visit keys and source keys, which the code joins with separators, are records here.
- The inventory's final sorting, and its root lists, which are sets here.
- Library sorts are insertion sorts here; only their order is relied on.
- RuntimeSources.DeclaredRuntimeSource: directory lengths are counted in characters, which orders the directories containing one path as bytes do; cleaning a joined path is a given function.
- ImageRef: parsing of upstream references, whose round trip needs side conditions on odd inputs; lower-casing outside ASCII except for the two characters whose lower case is ASCII.
- JSON text is a sequence of Unicode characters: invalid UTF-8 in documents is not modelled.
- Website rendering, chart rules, provisioning, statistics counting and document audits.
