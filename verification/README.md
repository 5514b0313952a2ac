# Verified models of the repository's hard cores

This project models, in Dafny, the parts of the repository whose correctness cannot be read off one function, and proves what they promise.

- **Calibration registry** (`Calibrators`, `RegistryStore`, `RegistryProtocol`, `RegistryLoads`, `RegistryClear`, `RegistryRaces`, `RegistryKeys`, `Ordering`, `Registry`). Trainers, readers, rollbacks, crashes, cache clears and the clock form one transition system over an object store and a shared cache. A reader's loads are several separate reads, and results hold over every interleaving. `Registry` is the registry object itself, with its dictionary, its writes and its listings.
- **Overlay filesystem over a git branch** (`Text`, `RepoPaths`, `OverlayFs`, `OverlayRuns`, `OverlayFlush`, `GitHubFs`). The snapshot, the edit overlay with tombstones, the blob cache and the virtual directories are shown to behave like one plain map from path to content, told only which names are directories, through every sequence of operations; `flush` is shown to commit exactly that map. `GitHubFs` is the provider object, proved method by method against the value model.
- **Calibration arithmetic** (`Numeric`, `BinFitting`, `GoldenSection`, `Classification`). Numeric bins, golden-section search, softmax with temperature, and isotonic curves with renormalisation, over the reals.
- **Live sessions** (`EventLog`, `PermissionModes`, `SessionProtocol`, `SessionReplay`, `SessionRequests`, `Sessions`). Every event-loop turn is a step; results hold over every run. `Sessions` is the manager object, whose methods are proved to be those turns.
- **Licence expressions** (`SpdxText`, `Spdx`, `SpdxCanonical`, `SpdxParser`). The tokeniser, the recursive-descent parser over one cursor, the grammar it accepts (the AND-over-OR part of Annex D.4 of the SPDX Specification 2.3), and the joining of several files' expressions.
- **Mutation traversal** (`Mutation`, `Mutators`). The counter-threaded tree transformer against an independent, compositional list of a tree's mutants.
- **Unified diff** (`UnifiedDiff`) and **review copies** (`ReviewTree`, `ReviewCounts`, `Review`).

Code that works by changing things is a class or a method with loops, proved against specification functions; lemmas then prove the promises about those functions and about runs of them.

## What differs from the source's intent

The code is kept as it is, and each difference is stated with its exact condition.

- After `flush` the settled `loadingTree` promise is kept although the tree is dropped, so reads agree with the committed state exactly when no earlier operation had loaded the snapshot (`OverlayFlush.ReadsAfterFlushIff`); appending to an uncached file then replaces it (`OverlayFlush.AppendAfterFlushReplaces`).
- Even with the promise forgotten, reads agree exactly when no cached blob lies under a pending edit (`OverlayFlush.FreshReadsAgreeIff`). Only directory removals and renames leave such blobs.
- A name can be a live file and a directory at once (`OverlayRuns.MadeThenWritten`). A rename moves a live file exactly when its name is no directory and differs from the new one (`OverlayRuns.RenameMovesFileIff`), and a removal without `recursive` is refused exactly for a directory, file or not (`OverlayFs.RmIsWithout`).
- A recursive removal that succeeds empties what it names exactly when that is not the root, or the root had no files (`OverlayFs.RmEmptiesIff`).
- The source of a directory rename stays a directory exactly when the snapshot has it, or a directory in it, that no edit buried (`OverlayFs.RenamedSourceIsDirIff`).
- A file renamed to its own name is deleted (`OverlayFs.RenameFileKeepsContentIff`), and a directory renamed to its own name loses every file under it (`OverlayFs.RenameSelfEmpties`).
- The files of a directory renamed to the root are at names no path reaches (`OverlayFlush.RenamedReachableIff`), and a rename of the root moves nothing (`OverlayRuns.StepMatches`). What a rename into or out of the directory's own inside leaves depends on the order of the keys (`OverlayRuns.NestedRenameDependsOnOrder`).
- `clear_cache` promises that the next decision reads the new version. It does exactly when no load younger than the TTL carries a superseded version at that moment (`RegistryClear.ClearIsEffectiveIff`), and under every positive TTL some run has one (`RegistryRaces.ClearCanFail`).
- A reconnecting client that stays served is never sent an event above its number exactly when, as its backlog was answered, that event was committed more than 500 above its number, its fan-out was already over, and it had not reached the socket by that (`SessionReplay.MissedIff`). For every client number some run loses an event (`SessionReplay.SomeRunLosesOne`).
- Across a row that collapsed and was made uniform, calibrated P(true) may fall as the logit difference grows, under an exact condition (`Classification.TrueProbabilityMonotoneIff`), so a threshold is then no single cut-off (`Classification.OneCutOff`).
- Joining licence expressions with AND can ask for less than all of its parts (`SpdxCanonical.JoinCanLoseAPart`), never for more (`SpdxCanonical.PartsGrantJoin`). It asks for all of them exactly when each group of alternatives that the join puts together is enough for every part (`SpdxCanonical.JoinKeepsPartsIff`), which holds for one part and for parts without a top-level OR (`SpdxCanonical.JoinGrantsAll`) and can hold with one (`SpdxCanonical.OrCanKeepParts`).
- A text that normalises to a lone newline prints like the empty file in a diff (`UnifiedDiff.RecoversIff`).
- An error while the review directory is being reset leaves that directory behind, empty, exactly when the disk fails at the marker file; the cleanup covers only what follows the reset (`Review.WriteReview`).

## Model

| member | source | states |
|---|---|---|
| Calibrators.TemperatureRoundTrip | jev-byom/app/calibration.py:83-106 | a valid temperature read back from its JSON is the same temperature |
| Calibrators.IsotonicRoundTrip | jev-byom/app/calibration.py:300-305 | a valid isotonic curve read back from its JSON is the same curve |
| Calibrators.NumericRoundTrip | jev-byom/app/calibration.py:421-446 | a valid numeric calibrator read back from its JSON is the same calibrator, counts and flags included |
| Calibrators.CalibratorsRoundTrip | jev-byom/app/calibration_registry.py:279-297 | the per-class list, with nulls for classes without a curve, is read back as it was written |
| Calibrators.ValidMeans | jev-byom/app/calibration.py:381-389 | what the constructors accept |
| Json.TruthyMeans | jev-byom/app/calibration_registry.py:398-452 | exactly null, false, zero and the empty values read as false |
| Json.NumbersRead | jev-byom/app/calibration.py:303-305 | a number is kept as a float and cut off towards zero as an int, and a flag counts as zero or one |
| Calibrators.OlderPayloadInterpolates | jev-byom/app/calibration.py:434-446 | a numeric payload without the flag reads as interpolating, everything else as written |
| RegistryStore.AssembleRestoresFit | jev-byom/app/calibration_registry.py:398-452 | decoding the objects one training run stored yields that fit: every artifact round trip composed with the manifest's and the artifact's precedence rules |
| RegistryStore.CommitThenLoad | jev-byom/app/calibration_registry.py:311-345 | the four writes of a fit into fresh keys make an unpinned load return that fit and change no other key |
| RegistryStore.CompleteLoads | jev-byom/app/calibration_registry.py:398-452 | a store holding exactly a fit's objects loads as that fit, pinned |
| RegistryStore.ManifestMeans | jev-byom/app/calibration_registry.py:311-345 | a manifest names the fit's pair, version, class count and stored artifacts, a pointer the version and its time |
| RegistryStore.OlderIsotonicObject | jev-byom/app/calibration_registry.py:423-433 | an isotonic object without count and names takes the manifest's, and without a manifest counts its curves |
| RegistryStore.CheckedFit | jev-byom/app/calibration_registry.py:388-396 | a fit is served to a request for its own class count or for any and refused to one for another; untrained is refused to none |
| RegistryProtocol.LatestIsCompleteAndFrozen | jev-byom/app/calibration_registry.py:311-345 | in every run, whenever `latest` exists it names a version whose manifest and artifacts are all stored and are one fit's, and in every later state no object of that version has changed, appeared or gone |
| RegistryProtocol.StoreInvKept | jev-byom/app/engine.py:375-421 | every step of trainers, readers, crashes, rollbacks and clears keeps the write-order invariant: manifests only over complete artifacts, pointers only at manifests |
| RegistryProtocol.CommittedInRun | jev-byom/app/calibration_registry.py:262-345 | once a version is complete it is complete, object for object, in every later state of the run |
| RegistryProtocol.InsertKeepsSize | jev-byom/app/calibration_registry.py:376-384 | an insert, with its eviction, keeps the cache within its maximum |
| RegistryProtocol.FinishedLoadIsStored | jev-byom/app/calibration_registry.py:376-385 | a finished load is stored for one TTL from its own clock reading; only in a full cache does an entry go for it, one that expires no later than any other |
| RegistryProtocol.StartedCall | jev-byom/app/calibration_registry.py:361-375 | a call finishes at once exactly with a live entry of its own slot, and otherwise goes to the store |
| RegistryProtocol.StepsArePossible | jev-byom/app/calibration_registry.py:311-345 | time, new fits and calls, next steps, crashes before any write, rollbacks to any version with a manifest and clears may happen at any moment |
| RegistryProtocol.ClearedMeans | jev-byom/app/calibration_registry.py:547-565 | a clear drops all entries, a scenario's, or a pair's, pinned ones included, and changes no other |
| RegistryLoads.LoadsAreRecentSnapshots | jev-byom/app/calibration_registry.py:348-385 | a finished call returned what one uninterrupted load would have returned at some instant later than its clock reading minus the TTL, whatever was interleaved with its reads |
| RegistryLoads.CacheNeverOverflows | jev-byom/app/calibration_registry.py:376-384 | in every state of every run the cache holds at most its maximum number of entries |
| RegistryLoads.LoadsReturnOneFit | jev-byom/app/calibration_registry.py:348-452 | every bundle any call returns is exactly one trainer's fit; a pinned call gets the pinned version; no call finds the store inconsistent or an artifact unreadable |
| RegistryLoads.ServedForItsClasses | jev-byom/app/calibration_registry.py:348-396 | in every run a bundle is served only to a call that named no class count or the fit's own, and a mismatch is raised only because at one recent instant the load found a fit of another count |
| RegistryClear.ClearedMeansFresh | jev-byom/app/calibration_registry.py:547-565 | with no stale load in flight at a clear, every unpinned call that starts later answers with something that was current after the clear |
| RegistryClear.StaleLoadIsServed | jev-byom/app/calibration_registry.py:547-565 | with a stale load in flight at a clear, some continuation serves a superseded bundle to a call that starts after it |
| RegistryClear.ClearIsEffectiveIff | jev-byom/app/calibration_registry.py:547-565 | the clear does what it is called for if and only if no load younger than the TTL carries a superseded version |
| RegistryRaces.ClearCanFail | jev-byom/app/calibration_registry.py:361-385 | for every pair, positive TTL and two fits some run ends with the slot cleared, a stale load in flight and the clear not effective |
| RegistryKeys.RenderInjective | jev-byom/app/calibration_registry.py:255-259 | two keys built from slash-free names never share a string |
| RegistryKeys.KeysAre | jev-byom/app/calibration_registry.py:255-259 | the stored names of a pair's pointer and of a version's manifest and artifacts |
| RegistryKeys.PointerKeyParses | jev-byom/app/calibration_registry.py:454-490 | the listing's parse of a pointer key finds its pair, and no other key passes for a pointer |
| RegistryKeys.ManifestKeyParses | jev-byom/app/calibration_registry.py:492-521 | the listing's parse of a manifest key finds its version, and no other key passes for one |
| Registry.ExactlyOneCurrent | jev-byom/app/calibration_registry.py:492-521 | in every reachable store a pair with a pointer has exactly one current version among those listed |
| Registry.CalibrationRegistry.Publish | jev-byom/app/engine.py:375-421 | the write sequence of a training run: afterwards an unpinned load returns that fit, every other key is as it was, and the pair's cache entries are gone |
| Registry.CalibrationRegistry.ReadBundle | jev-byom/app/calibration_registry.py:398-452 | the reads, one object at a time, give the reference load |
| Registry.CalibrationRegistry.ClosestEntry | jev-byom/app/calibration_registry.py:376-384 | the eviction victim is an entry closest to expiry |
| Registry.CalibrationRegistry.LoadCalibration | jev-byom/app/calibration_registry.py:348-396 | a live entry is served without a read; otherwise the reference load is returned and, when caching is on, stored with one entry closest to expiry evicted; errors are not cached; either way a bundle fitted for other classes than the call names is refused, and no other |
| Registry.CalibrationRegistry.ClearCache | jev-byom/app/calibration_registry.py:547-565 | exactly the selected entries, pinned ones included, are dropped and counted |
| Registry.CalibrationRegistry.ListVersions | jev-byom/app/calibration_registry.py:492-521 | every version with a manifest once, by descending id, each marked current or not |
| Registry.CalibrationRegistry.ListScenarios | jev-byom/app/calibration_registry.py:454-490 | exactly the pairs with a pointer, once each, ordered by name, each with its version count |
| Registry.ExistsIff | jev-byom/app/calibration_registry.py:523-528 | a pair exists exactly when its pointer names a version, which is exactly when an unpinned load is not told untrained |
| Registry.CandidatesDiffer | jev-byom/app/calibration_registry.py:530-544 | candidates begin with the name and are all different |
| Registry.CalibrationRegistry.NextFreeScenario | jev-byom/app/calibration_registry.py:530-544 | the name itself exactly when no pointer of it names a version, otherwise the first numbered sibling without one, or none when all up to the limit have one |
| Registry.ResolvesOnce | jev-byom/app/engine.py:201-225 | what a policy may answer is one answer: a free name kept, a taken one refused or turned into its least free sibling |
| Registry.CalibrationRegistry.ResolveScenario | jev-byom/app/engine.py:201-225 | the policy's answer: a name without a pointer is kept, one with a pointer is refused or turned into a sibling without one, of a thousand |
| Registry.CalibrationRegistry.Train | jev-byom/app/engine.py:375-421 | the resolved name gets the fit and serves it and no other pair changes; a new_scenario fit goes to a pair that was untrained, and every pair that served something keeps all its objects and serves the same; reject is a conflict exactly for a pair that serves something |
| RepoPaths.NormalizeBySegments | src/server/github-fs.ts:57-68 | a path means its non-empty, non-dot segments however its slashes are written, and is refused exactly when one of them is ".." |
| RepoPaths.NormalizeIdempotent | src/server/github-fs.ts:57-68 | normalising a normalised path changes nothing |
| RepoPaths.NormalIff | src/server/github-fs.ts:57-68 | exactly the root and the paths without empty, "." or ".." segments are normal |
| RepoPaths.ParentDirsMeans | src/server/github-fs.ts:70-75 | the parents of a path are exactly the directories it lies under |
| OverlayFs.FreshIsBranch | src/server/github-fs.ts:100-132 | a fresh provider shows the branch's files |
| OverlayFs.ReadIsLookup | src/server/github-fs.ts:150-174 | a read answers what the plain map holds and changes nothing it shows |
| OverlayFs.WriteIsUpdate | src/server/github-fs.ts:176-181 | a write is a map update |
| OverlayFs.AppendIsConcat | src/server/github-fs.ts:183-191 | an append concatenates to what is there, or to nothing |
| OverlayFs.DirExistsMeans | src/server/github-fs.ts:138-148 | a directory is the root, one made or in the snapshot and not buried, or what lies above a path that is there |
| OverlayFs.RmIsWithout | src/server/github-fs.ts:267-287 | a removal takes away the path and every key that begins with it and a slash, or fails and takes away nothing; it is refused exactly for a directory without recursive, and reports a missing path exactly for a name that is neither file nor directory, unless forced |
| OverlayFs.RmEmptiesIff | src/server/github-fs.ts:271-279 | a recursive removal that succeeds leaves nothing in what it names exactly when that is not the root, or the root had no files |
| OverlayFs.RemovedIsNoDir | src/server/github-fs.ts:271-279 | a recursively removed name is no directory any more, the root excepted |
| OverlayFs.RmWithoutTree | src/server/github-fs.ts:267-287 | after a flush of a loaded session a removal always fails, with the refusal of a known directory or the missing tree |
| OverlayFs.MovedFiles | src/server/github-fs.ts:294-307 | a directory rename, also to the root, puts each live file at the destination plus its suffix, leaves none under the source and changes no other path |
| OverlayFs.MovedCount | src/server/github-fs.ts:294-307 | with no collision the number of live files stays the same |
| OverlayFs.RenameDirIsMoved | src/server/github-fs.ts:294-307 | the rename loop, in whatever order it meets the keys, yields that moved map |
| OverlayFs.RenameSelfEmpties | src/server/github-fs.ts:294-307 | a directory renamed to its own name loses every file under it, in whatever order |
| OverlayFs.RenameDirsMade | src/server/github-fs.ts:294-307 | a directory rename makes the new name and the directories above the moved files, and unmakes the old name |
| OverlayFs.RenamedSourceIsDirIff | src/server/github-fs.ts:294-307 | the old name stays a directory exactly when the snapshot has it, or a directory in it, unburied |
| OverlayFs.RenameFileIsUpdate | src/server/github-fs.ts:310-313 | a file rename moves one path's content, or reports a missing file |
| OverlayFs.RenameFileKeepsContentIff | src/server/github-fs.ts:310-313 | the content survives under the new name exactly when the names differ |
| OverlayRuns.StepMatches | src/server/github-fs.ts:150-314 | one operation's answer and next state are those of the plain map that is told whether the path is a directory |
| OverlayRuns.TraceMatchesPlainMap | src/server/github-fs.ts:150-314 | the same through every sequence of reads, writes, appends, mkdirs, removals and renames between flushes |
| OverlayRuns.RenameMovesFileIff | src/server/github-fs.ts:289-314 | a rename of a live file succeeds, and moves the file exactly when its name is no directory and differs from the new one; of a directory of that name the file stays |
| OverlayRuns.MadeThenWritten | src/server/github-fs.ts:228-233 | on any branch a directory made and a file written at its name are both there, and the file cannot be removed without recursive |
| OverlayRuns.NestedRenameDependsOnOrder | src/server/github-fs.ts:294-307 | a directory renamed into itself leaves different files for different key orders |
| OverlayRuns.TraceIsGood | src/server/github-fs.ts:100-314 | in every such sequence each cached blob equals the snapshot's blob at its path, and every known path is normal as long as no directory was renamed to the root |
| OverlayFlush.FlushCommitsTheEdits | src/server/github-fs.ts:329-411 | the target branch becomes its base with exactly the non-reserved edits applied, other branches are untouched, the overlay keeps exactly the reserved entries, and a refused flush changes nothing |
| OverlayFlush.FlushKeepsReservedBack | src/server/github-fs.ts:96-98 | by the text of the reserved prefix: the prefix and what begins with it and a slash stay out of the commit and pending, every other pending path is committed and pending no more, without a prefix all are; success exactly when something is not kept back |
| OverlayFlush.CommittableKeys | src/server/github-fs.ts:316-333 | the pending changes by the same condition |
| OverlayFlush.CommitIsTheView | src/server/github-fs.ts:329-411 | on the own branch at the snapshot, the committed files are the map the session saw, with reserved paths as the branch had them |
| OverlayFlush.ReadsAfterFlushIff | src/server/github-fs.ts:100-132 | reads after a flush agree with the map seen before it exactly when the snapshot had never been loaded |
| OverlayFlush.FreshReadsAgreeIff | src/server/github-fs.ts:160-173 | with the promise forgotten too, they agree exactly when no stale cached blob is left |
| OverlayFlush.FileOperationsLeaveNothingStale | src/server/github-fs.ts:176-181 | a session without directory removals or renames leaves no stale blob |
| OverlayFlush.RemovalLeavesStale | src/server/github-fs.ts:272-279 | a recursive removal of a directory with a file that was read leaves one |
| OverlayFlush.AppendAfterFlushReplaces | src/server/github-fs.ts:183-191 | after a flush of a loaded session, appending to an uncached file replaces it, and the next flush commits that |
| OverlayFlush.RenamedReachableIff | src/server/github-fs.ts:294-307 | after a directory rename each live file is at its target and is read from every path that means it; there is such a path exactly when the destination is not the root |
| GitHubFs.GitHubFsProvider.EnsureTree | src/server/github-fs.ts:100-132 | loads once, remembers a rejection, and yields the missing tree after a flush |
| GitHubFs.GitHubFsProvider.ReadFile | src/server/github-fs.ts:150-174 | answer and new state of the value model |
| GitHubFs.GitHubFsProvider.ListParentDirs | src/server/github-fs.ts:70-75 | the loop yields exactly the proper directory prefixes of a path |
| GitHubFs.GitHubFsProvider.WriteFile | src/server/github-fs.ts:176-181 | answer and new state of the value model |
| GitHubFs.GitHubFsProvider.AppendFile | src/server/github-fs.ts:183-191 | answer and new state of the value model |
| GitHubFs.GitHubFsProvider.MakeDir | src/server/github-fs.ts:228-233 | answer and new state of the value model |
| GitHubFs.GitHubFsProvider.DirectoryExists | src/server/github-fs.ts:138-148 | found exactly when virtual, in the tree, or above a live key |
| GitHubFs.GitHubFsProvider.Remove | src/server/github-fs.ts:267-287 | answer and new state of the value model |
| GitHubFs.GitHubFsProvider.RenamePath | src/server/github-fs.ts:289-314 | answer and new state of the value model, for some order of the keys |
| GitHubFs.GitHubFsProvider.PendingChanges | src/server/github-fs.ts:330 | exactly the overlay entries outside the reserved prefix |
| GitHubFs.GitHubFsProvider.PendingChangeCount | src/server/github-fs.ts:316-320 | the number of pending paths that are neither the reserved prefix nor begin with it and a slash |
| GitHubFs.GitHubFsProvider.Flush | src/server/github-fs.ts:329-411 | answer, new state and new branch heads of the value model |
| Numeric.InterpMonotone | jev-byom/app/calibration.py:292-298 | interpolation through non-decreasing knots is non-decreasing, repeated knots included |
| Numeric.InterpAtKnot | jev-byom/app/calibration.py:403-410 | interpolation through strictly increasing knots passes through them |
| Numeric.InterpMeans | jev-byom/app/calibration.py:403-411 | interpolation is constant outside the knots and between two of them at the same fraction in value as in place |
| Numeric.ClipMeans | jev-byom/app/calibration.py:399-413 | clipping gives the nearest value in the interval |
| BinFitting.MergeThinBins | jev-byom/app/calibration.py:496-525 | the merging loop keeps bins cut from the raw ones, each with at least the minimum count and with the statistics of its own samples, each cut as early as it can be and none left to cut at the end |
| BinFitting.LookupFindsMergedBin | jev-byom/app/calibration.py:391-397 | lookup among the kept edges finds exactly the kept bin that a score's raw bin was merged into |
| BinFitting.EarlyCutsAgree | jev-byom/app/calibration.py:496-514 | the samples and the minimum leave one choice of early cuts |
| BinFitting.EarliestBinsAgree | jev-byom/app/calibration.py:496-548 | for given raw edges, what a fit promises of its edges and centers fixes them |
| BinFitting.FitEdges | jev-byom/app/calibration.py:487-494 | neither setting the end edges nor the second width check changes the quantile edges of the capped bin count |
| BinFitting.LargestAllowedOnce | jev-byom/app/calibration.py:485-487 | only one number of bins is the largest allowed |
| BinFitting.EveryRawBinKept | jev-byom/app/calibration.py:496-560 | when every raw bin holds the minimum the calibrator has the raw edges and one bin for each |
| BinFitting.EvenQuantilesFillEveryBin | jev-byom/app/calibration.py:485-560 | a fit whose quantile bins all hold the minimum has exactly the largest allowed number of bins |
| BinFitting.CoverageCounts | jev-byom/app/calibration.py:515-524 | coverage times the sample count is the number of labels in the band |
| BinFitting.RefusalMeans | jev-byom/app/calibration.py:464-483 | when a fit is refused and why; a label range is never the reason |
| BinFitting.WidthMeans | jev-byom/app/calibration.py:475-483 | the tolerance as given, or as a share of the label range unless that is degenerate |
| BinFitting.BinsAllowedFit | jev-byom/app/calibration.py:485-487 | the number of quantile bins is the largest that was asked for and gives every bin its minimum, or one |
| BinFitting.MergedMean | jev-byom/app/calibration.py:527-534 | averaging the leftovers with the old mean repeated gives the mean of the whole |
| BinFitting.FitNumericBins | jev-byom/app/calibration.py:449-560 | a fit is refused for the stated reasons only; otherwise it is cut from the quantiles of the largest allowed number of bins, lookup sends every training sample to the bin that counted it, counts sum to the samples, every bin but a single fallback meets the minimum, values are mean labels, centers strictly increase and, like the edges, are those of the earliest possible cuts, and coverage is exact except in a last bin with folded leftovers |
| BinFitting.ClipsChangeNothing | jev-byom/app/calibration.py:399-413 | for any score the clips of a fitted calibrator do nothing, and the value lies in the label range |
| BinFitting.PredictsTheMeanLabel | jev-byom/app/calibration.py:399-413 | at a bin's center, and without interpolation anywhere in it, the prediction is the mean label of the samples looked up there |
| GoldenSection.Search | jev-byom/app/calibration.py:149-166 | the result lies within the bounds and its logarithm misses a unimodal loss's minimum by at most half the larger of 1e-6 and the bracket shrunk once per round, with one evaluation a round |
| GoldenSection.ProbeReused | jev-byom/app/calibration.py:155-163 | whichever side is cut off, the surviving probe is exactly the one the new bracket needs |
| GoldenSection.MinimumKept | jev-byom/app/calibration.py:155-163 | the comparison of the probes never cuts off the minimum |
| GoldenSection.ShrunkIsPower | jev-byom/app/calibration.py:149-166 | the bracket after n rounds is the n-th power of the ratio times the first |
| Classification.SoftmaxRanks | jev-byom/app/calibration.py:57-62 | a softmax row is positive, sums to one and ranks classes as the logits do |
| Classification.TemperatureKeepsArgmax | jev-byom/app/calibration.py:93-99 | no temperature changes the most probable class, first-of-ties included |
| Classification.CooledMeans | jev-byom/app/calibration.py:93-99 | cooling divides every logit, and so every difference, by the temperature |
| Classification.SoftmaxMeans | jev-byom/app/calibration.py:57-62 | softmax entries are to each other as the exponentials of their logits taken from the greatest |
| Classification.CurveMonotone | jev-byom/app/calibration.py:292-298 | a fitted curve maps into [0, 1] and preserves order |
| Classification.MapClassMeans | jev-byom/app/calibration.py:292-298 | a class without a curve keeps its probability; with one it gets the curve's interpolation cut to the unit interval |
| Classification.RenormalisedMeans | jev-byom/app/calibration.py:349-354 | renormalising keeps proportions, or makes a row that collapsed uniform |
| Classification.CalibratedSumsToOne | jev-byom/app/calibration.py:349-354 | whatever the curves do, a calibrated row sums to one |
| Classification.TrueProbabilityMonotoneIff | jev-byom/app/calibration.py:331-354 | calibrated P(true) does not fall as the logit difference grows, except exactly in the stated collapsed cases |
| Classification.OneCutOff | jev-byom/app/engine.py:656-662 | for two rows every threshold gives one cut-off on the logit difference, exactly when no row collapsed on the wrong side |
| Classification.CollapseBreaksMonotony | jev-byom/app/calibration.py:349-354 | for every exponential there are curves for which a larger difference gets a smaller probability |
| Classification.ApplyIsotonic | jev-byom/app/calibration.py:331-354 | refused exactly when the curve count differs; otherwise every row of the copied batch is its calibrated form |
| EventLog.PageIsConsecutive | src/server/event-log.ts:29-36 | a page of the log is the next consecutive numbers, all of them or the first limit of them |
| PermissionModes.GrantIff | src/server/permission-modes.ts:61-94 | outside auto mode a permission is granted exactly when a client granted it |
| PermissionModes.PlanApprovedIff | src/server/permission-modes.ts:96-109 | a planning session leaves plan mode exactly when a client approved |
| PermissionModes.AutoDecides | src/server/permission-modes.ts:76-87 | auto mode refuses exactly a non-empty shell command that looks destructive, and approves the rest once |
| PermissionModes.NothingToAsk | src/server/permission-modes.ts:96-120 | only planning mode holds a plan back, and auto mode has no questions |
| SessionProtocol.LinkedInRun | src/server/session-manager.ts:90-101 | in every state of every run live sessions know their objects, objects have their session's mode and no eviction timer is armed for an auto session |
| SessionProtocol.ModesInRun | src/server/session-manager.ts:90-101 | a session keeps the mode it was created with in every later state |
| SessionProtocol.DetachMeans | src/server/session-manager.ts:90-101 | a detach takes the socket out; the last one of a session that is not auto arms the timer, and nothing else does |
| SessionProtocol.FireMeans | src/server/session-manager.ts:340-345 | a timer that fires takes its session out of the live map exactly when nobody is attached |
| SessionProtocol.AttachMeans | src/server/session-manager.ts:80-88 | attaching to a live session adds the socket and cancels the timer |
| SessionProtocol.AttachMakes | src/server/session-manager.ts:173-179 | attaching to another makes its object, with one idle session evicted exactly at the limit of eight when there is one |
| SessionProtocol.DeleteMeans | src/server/session-manager.ts:155-171 | a deletion touches only what its live session is asked, then drops the live object, then the row |
| SessionProtocol.TurnsArePossible | src/server/session-manager.ts:103-171 | closing, detaching, committing and fanning out, asking, answering, timers and deletions may happen at any moment |
| SessionReplay.SequenceIsExact | src/server/event-log.ts:11-27 | in every state of every run a session's numbers are exactly 1 to lastEventSeq |
| SessionReplay.ReachChange | src/server/session-manager.ts:340-357 | an attached socket stays served through every turn but its own close or detach and its session's deletion, and nothing else makes it served |
| SessionReplay.NoEventLost | src/server/session-manager.ts:80-88 | an attached socket whose backlog fitted the limit has been sent every committed event above its number whose fan-out has run |
| SessionReplay.BacklogMeans | src/server/event-log.ts:29-36 | a backlog answer sends the committed numbers above the client's, five hundred at most, and nothing else changes |
| SessionReplay.PageIsWholeIff | src/server/event-log.ts:29-36 | a backlog holds all committed events exactly when at most 500 follow the client's number |
| SessionReplay.LostForGood | src/server/session-manager.ts:326-338 | an event missed by the backlog and already fanned out is never sent to that socket |
| SessionReplay.MissedIff | src/server/session-manager.ts:80-88 | for every run and every committed, fanned-out number above the client's: a socket that is still served is never sent it if and only if, when its backlog was answered, it was beyond the page, its fan-out was over and it had not been sent |
| SessionReplay.SomeRunLosesOne | src/server/event-log.ts:29-36 | for every client number there is a run in which a served socket misses the event one past its page |
| SessionRequests.SettlesOnce | src/server/session-manager.ts:205-233 | every request settles at most once, its outcome never changes, and while unsettled it is in its map with its timer armed |
| SessionRequests.AnswerSettles | src/server/session-manager.ts:114-145 | a matching answer to a pending request of the live object settles it to that answer, takes it out of its map and touches no other |
| SessionRequests.StrayAnswerDoesNothing | src/server/session-manager.ts:114-145 | an answer to another object's request, of another kind or no longer pending, changes nothing |
| SessionRequests.AnswerIsTheResult | src/server/session-manager.ts:114-145 | in every run, what a matching answer settled its request to is its outcome in every later state, and the handler returns what the client said |
| SessionRequests.SilenceSettles | src/server/session-manager.ts:205-233 | the timer or a deletion settles a request to silence, which grants, approves and says nothing |
| SessionRequests.OutcomeIsExplained | src/server/session-manager.ts:114-145 | whatever a request settled to was brought by one turn that found it unsettled: its own answer, its timer, or a deletion |
| SessionRequests.GrantWasAnswered | src/server/permission-modes.ts:89-94 | a planning or interactive grant follows a client's grant of exactly that request, handled before anything else settled it |
| SessionRequests.PlanWasApproved | src/server/permission-modes.ts:96-109 | leaving plan mode follows a client's approval of exactly that plan, handled before anything else settled it |
| SessionRequests.QuestionWasAnswered | src/server/permission-modes.ts:113-120 | an answer other than the empty free-form one is a client's reply to exactly that question, handled before anything else settled it |
| SessionRequests.EvictionSparesSockets | src/server/session-manager.ts:340-357 | in every run only a deletion that was asked for removes a session with an attached socket, or an auto session |
| Sessions.SessionManager.EnsureLive | src/server/session-manager.ts:173-179 | the live object found or made, with an idle session evicted at the limit |
| Sessions.SessionManager.EvictLeastRecentlyUsedIdle | src/server/session-manager.ts:347-357 | evicts some socketless non-auto session, or there is none |
| Sessions.SessionManager.Attach | src/server/session-manager.ts:80-88 | is the attach turn |
| Sessions.SessionManager.SendBacklog | src/server/ws.ts:67-72 | is the backlog turn |
| Sessions.SessionManager.Detach | src/server/session-manager.ts:90-101 | is the detach turn |
| Sessions.SessionManager.HandleAnswer | src/server/session-manager.ts:103-147 | is the answer turn; refused exactly when the session is not live |
| Sessions.SessionManager.RequestTimer | src/server/session-manager.ts:211-213 | is the expiry turn |
| Sessions.SessionManager.ResolvePending | src/server/session-manager.ts:155-163 | is the first turn of a deletion: all that is pending is resolved and stays in its map |
| Sessions.SessionManager.EvictionTimer | src/server/session-manager.ts:340-345 | is the eviction turn |
| Sessions.SessionManager.AppendEvent | src/server/event-log.ts:11-27 | is the commit turn and returns the next number |
| Sessions.SessionManager.FanOut | src/server/session-manager.ts:326-338 | is the broadcast turn: exactly the open sockets of the live object get the event |
| SpdxText.TokensAppend | foundry-doctor/scripts/dependency_audit.py:59-65 | text that tokenises, followed by a breaking character, has the tokens of both parts |
| SpdxText.CharactersAre | foundry-doctor/scripts/dependency_audit.py:30 | the characters of identifiers and of word boundaries |
| Spdx.ParsesIff | foundry-doctor/scripts/dependency_audit.py:70-118 | the parser accepts exactly the token lists the grammar spells and finds the tree they spell |
| Spdx.OneTree | foundry-doctor/scripts/dependency_audit.py:70-118 | no token list spells two trees |
| Spdx.PrimaryRefusals | foundry-doctor/scripts/dependency_audit.py:70-97 | which of the errors a primary that is none gets |
| Spdx.ExpressionRefusals | foundry-doctor/scripts/dependency_audit.py:66-118 | only a text without tokens is empty; trailing tokens and an open bracket are malformed |
| SpdxCanonical.CanonicalReparses | foundry-doctor/scripts/dependency_audit.py:57-118 | every tree's canonical text tokenises and parses back to that tree |
| SpdxCanonical.CanonicalIsFixed | foundry-doctor/scripts/dependency_audit.py:57-118 | the canonical text of an accepted expression is accepted with the same tree |
| SpdxCanonical.ApprovedParse | foundry-doctor/scripts/dependency_audit.py:23 | the approved identifiers by their text, each of which parses to itself |
| SpdxCanonical.JoinIsConjunctionIff | foundry-doctor/scripts/dependency_audit.py:174-177 | the joined text always parses; its tree has no top-level OR exactly when no part has one |
| SpdxCanonical.JoinGrantsAll | foundry-doctor/scripts/dependency_audit.py:174-177 | for one part, or parts without a top-level OR, the join asks for all of its parts |
| SpdxCanonical.JoinCanLoseAPart | foundry-doctor/scripts/dependency_audit.py:174-177 | MIT or ISC joined with Apache-2.0 is satisfied by MIT alone |
| SpdxCanonical.PartsGrantJoin | foundry-doctor/scripts/dependency_audit.py:174-177 | licences that satisfy every part always satisfy the join |
| SpdxCanonical.JoinAsksForAGroup | foundry-doctor/scripts/dependency_audit.py:174-177 | what satisfies the join: all of one of the groups that AND makes of the parts' alternatives |
| SpdxCanonical.JoinKeepsPartsIff | foundry-doctor/scripts/dependency_audit.py:174-177 | the join asks for all of its parts, whatever is accepted, if and only if each licence set that spells out a group satisfies every part |
| SpdxCanonical.WholeGroupCovers | foundry-doctor/scripts/dependency_audit.py:174-177 | a group with an alternative of every part always does |
| SpdxCanonical.OrCanKeepParts | foundry-doctor/scripts/dependency_audit.py:174-177 | MIT or ISC joined with MIT asks for exactly both parts |
| SpdxParser.Parser.Primary | foundry-doctor/scripts/dependency_audit.py:70-97 | canonical text, tree and cursor, or the error, of the grammar's parse from the cursor |
| SpdxParser.Parser.Conjunction | foundry-doctor/scripts/dependency_audit.py:99-105 | canonical text, tree and cursor, or the error, of the grammar's parse from the cursor |
| SpdxParser.Parser.Disjunction | foundry-doctor/scripts/dependency_audit.py:107-113 | canonical text, tree and cursor, or the error, of the grammar's parse from the cursor |
| SpdxParser.Tokenise | foundry-doctor/scripts/dependency_audit.py:59-65 | the token loop finds the tokens, or that there are none |
| SpdxParser.ParseSpdx | foundry-doctor/scripts/dependency_audit.py:57-118 | the canonical text of an accepted expression, or why it is refused |
| Mutation.DryRunListsMutants | hosted-agent-kit/scripts/mutation_check.py:187-190 | the dry traversal lists the site of every mutant of the tree, in order |
| Mutation.MutatesTheNumberedSite | hosted-agent-kit/scripts/mutation_check.py:193-198 | for every tree and enumerated index the applying traversal makes exactly that one mutant, never the source tree, and the two runs' site lists agree through the index |
| Mutation.OutOfRangeChangesNothing | hosted-agent-kit/scripts/mutation_check.py:193-198 | any other index leaves the tree as it is |
| Mutation.ApplyingCanListMore | hosted-agent-kit/scripts/mutation_check.py:130-134 | the applying run can list more sites than the dry one |
| Mutation.MutantsDiffer | hosted-agent-kit/scripts/mutation_check.py:115-184 | no mutant equals the source tree |
| Mutation.FlippedMeans | hosted-agent-kit/scripts/mutation_check.py:72-76 | an order is flipped at the boundary alone, any other comparison into its opposite, and flipping twice changes nothing |
| Mutation.OperatorsNamed | hosted-agent-kit/scripts/mutation_check.py:115-121 | the sites' wording for the operators |
| Mutation.IntsShown | hosted-agent-kit/scripts/mutation_check.py:145-152 | a number is shown by its digits, after a minus sign if it is negative |
| Mutation.OwnMeans | hosted-agent-kit/scripts/mutation_check.py:115-184 | a change that a node offers is the one of its class |
| Mutation.OwnCount | hosted-agent-kit/scripts/mutation_check.py:115-184 | a comparison offers one change per operator, any other node one or none, and exactly which offer none |
| Mutators.Mutator.Hit | hosted-agent-kit/scripts/mutation_check.py:109-113 | counts and lists one site, and hits exactly at the wanted number |
| Mutators.Mutator.VisitCompare | hosted-agent-kit/scripts/mutation_check.py:115-121 | one site per operator, and at most the wanted one flipped |
| Mutators.Mutator.VisitNode | hosted-agent-kit/scripts/mutation_check.py:101-184 | tree and sites of the value traversal, with the counter equal to the sites listed |
| Mutators.EnumerateSites | hosted-agent-kit/scripts/mutation_check.py:187-190 | one entry per mutant of the tree |
| Mutators.Mutate | hosted-agent-kit/scripts/mutation_check.py:193-198 | the numbered mutant, which differs from the tree exactly when the number is in range |
| UnifiedDiff.Unified | foundry-doctor/internal/diff/diff.go:16-29 | nothing for equal inputs, otherwise the header, one hunk and both sides |
| UnifiedDiff.RecoversIff | foundry-doctor/internal/diff/diff.go:16-57 | each normalised side, final newline included, is read back from the diff alone, exactly when it is not a lone newline |
| UnifiedDiff.RangesCountLines | foundry-doctor/internal/diff/diff.go:31-37 | the hunk ranges are the numbers of '-' and '+' lines |
| UnifiedDiff.RangesDiffer | foundry-doctor/internal/diff/diff.go:31-37 | different line counts print different ranges |
| UnifiedDiff.NormalisedMeans | foundry-doctor/internal/diff/diff.go:16-29 | text without CRLF is kept, and of other text each CRLF in turn becomes a newline |
| UnifiedDiff.SideMeans | foundry-doctor/internal/diff/diff.go:39-57 | a side is its marked lines, and the note of a missing final newline exactly when it is missing |
| UnifiedDiff.RangeMeans | foundry-doctor/internal/diff/diff.go:31-37 | an empty side has the range 0,0 and any other starts at line one |
| ReviewCounts.AllLand | foundry-doctor/internal/annotate/review.go:129-153 | every inline entry of a commentable kind becomes one comment in one copied file |
| ReviewCounts.CommentsAreInlineIff | foundry-doctor/internal/annotate/review.go:177-216 | comments number as many as inline entries exactly when each inline entry's file takes comments |
| ReviewCounts.EligibleIsCommentable | foundry-doctor/internal/annotate/model.go:175-193 | what makes an entry inline also makes its file commentable |
| ReviewCounts.EligibilityMeans | foundry-doctor/internal/annotate/model.go:175-193 | when a finding may be inline, and which reason it is told otherwise |
| ReviewCounts.StyleMeans | foundry-doctor/internal/annotate/review.go:146-152 | which comments a file takes, by how its name ends in any letter case |
| ReviewCounts.ExtMeans | foundry-doctor/internal/annotate/review.go:146-152 | the extension is what follows the last dot, with the dot, or nothing |
| ReviewCounts.DemotedMeans | foundry-doctor/internal/annotate/review.go:133-144 | demotion touches inline entries of files not copied, and of those only the flag and a missing reason |
| ReviewTree.Root.MkdirAll | foundry-doctor/internal/annotate/review.go:395-397 | makes missing ancestors only, and on success all of them |
| ReviewTree.DirsToMakeCounts | foundry-doctor/internal/annotate/output.go:255-257 | the directories to make are the missing ancestors, the path included |
| Review.OverlapMeans | foundry-doctor/internal/annotate/output.go:40-50 | places overlap when one is the other or lies in it, and always with the project directory |
| Review.PlacedMeans | foundry-doctor/internal/annotate/output.go:52-62 | the output may be placed where it overlaps neither input |
| Review.ReplaceableMeans | foundry-doctor/internal/annotate/output.go:205-252 | what may be replaced: nothing, an empty directory, one with the marker file, or one whose manifest is this tool's |
| Review.AcceptedMeans | foundry-doctor/internal/annotate/review.go:92-122 | accepted exactly when placed, replaceable and below no file |
| Review.CopySetMeans | foundry-doctor/internal/annotate/review.go:279-360 | which files a review copies |
| Review.ReviewNameMeans | foundry-doctor/internal/annotate/review.go:268-277 | azd project files get another name in the copy, and no other file does |
| Review.FinishedMeans | foundry-doctor/internal/annotate/review.go:167-208 | which copies are commented, in which style, and which keep their text |
| Review.FiledMeans | foundry-doctor/internal/annotate/review.go:212-233 | the manifest, the diff, the ignore file and the marker by their names and texts |
| Review.ResetReviewDir | foundry-doctor/internal/annotate/output.go:236-263 | replaces only what is owned; a refusal changes nothing; success, exactly when the writes hold out, leaves an empty directory with the marker; a failure leaves the directory exactly when the marker's write failed |
| Review.CopyFile | foundry-doctor/internal/annotate/review.go:374-402 | the copy holds the source's content where nothing was, nothing outside the output changes, nothing is overwritten |
| Review.CopyTree | foundry-doctor/internal/annotate/review.go:312-360 | exactly the walk's files that are outside the output, not yet copied and not left out are copied, to distinct places with their content, 256 MiB of them at most, and exactly the left-out ones are reported |
| Review.CopyInputs | foundry-doctor/internal/annotate/review.go:279-310 | the project file and every eligible file of the infra tree are copied, nothing else, and nothing outside the output changes |
| Review.SortEntries | foundry-doctor/internal/annotate/review.go:133-153 | uncopied inline entries demoted, and each file's comments collected in order |
| Review.Annotate | foundry-doctor/internal/annotate/review.go:167-208 | every copy gets its finished text, commented with exactly its comments or left as it is, nothing else changes, and the manifest lists the commented ones with their counts |
| Review.FillReview | foundry-doctor/internal/annotate/review.go:124-237 | everything after the reset stays within the output and loses nothing there; the finished copies, the manifest, the diff and the ignore file are there, and the entries are the requested ones, demoted where their file was not copied |
| Review.EligibleRequestsAccount | foundry-doctor/internal/annotate/model.go:175-193 | for entries made inline by the eligibility rule the manifest's comment counts add up to exactly the inline entries, which are the requested ones whose file was copied |
| Review.WriteReview | foundry-doctor/internal/annotate/review.go:92-237 | whichever write fails: nothing outside the output changes but made ancestors, only an owned output is replaced, an error after the reset leaves nothing there, an error in it an empty directory exactly when the marker failed; success holds the finished copies of exactly the files to copy and accounts for every entry, and may be replaced by the next run |

## Left out

- RegistryLoads.LoadsAreRecentSnapshots: version ids are strings without structure and fresh per fit; the wall clock, uuid and lock are steps of the model.
- Registry.CalibrationRegistry.ListVersions: the rows' metadata columns (creation time, description, class counts, artifacts) are not modelled.
- Registry.CalibrationRegistry.ListScenarios: the rows' metadata columns are not modelled.
- RegistryProtocol.LatestIsCompleteAndFrozen: failed or partial writes other than a trainer's crash between writes are not modelled.
- OverlayFs.ReadIsLookup: a blob's content stands for its sha, and UTF-8 decoding, base64 and file sizes are not modelled.
- OverlayFs.RenameDirIsMoved: neither directory lies in the other, because what is left then depends on the key order (OverlayRuns.NestedRenameDependsOnOrder); equal names and the root as source have their own results.
- OverlayRuns.TraceMatchesPlainMap: nested directory renames are left out for the same reason, and renames of the root once a directory was renamed to it.
- OverlayFlush.FlushCommitsTheEdits: failing API calls, commit history, file modes, pull requests and GitHub's refusal to delete a path that is not on the target are not modelled.
- GitHubFs.GitHubFsProvider.RenamePath: the key order is arbitrary instead of the maps' insertion order; overlapping asynchronous operations on one provider are not modelled.
- `exists`, `stat` and `readdir`: their answers differ from each other when a tombstoned directory has live descendants, and they change no state.
- BinFitting.FitNumericBins: the quantile edges are a parameter that is strictly increasing from the least to the greatest score; scores and labels are reals, so rounding and non-finite values are not modelled.
- GoldenSection.Search: over the reals, with the ratio given by its equation and the exponential by being increasing; the LBFGS path is not modelled.
- Classification.TrueProbabilityMonotoneIff: over the reals; fitting the curves is not modelled, only that fitted curves are non-decreasing.
- The metrics, the stratified split, the request handlers and the model backends of the calibration service.
- SessionProtocol.LinkedInRun: timers may fire at any moment while armed, so the length of the grace period, which a timer left by an evicted object can cut short, is not stated; attach is one turn up to adding the socket, and the eviction victim is any idle session.
- Sessions.SessionManager.EvictLeastRecentlyUsedIdle: the victim is any idle session, because the order of the map is not modelled.
- SessionReplay.NoEventLost: order of delivery, failed database writes, sockets closed before their backlog was sent, and authorisation are not modelled.
- PermissionModes.PermissionResult: the destructive-command pattern is a parameter, and the runtime's own approval is taken as approve-once.
- SpdxText.Tokens: ASCII letters and the space, tab and newline characters only.
- Spdx.ParsePrimary: the prohibited and the unapproved identifier are one error, because no approved identifier matches the prohibited pattern.
- The file reading, the licence text patterns and the removal of repeated expressions around the join, and the inventory and notice checks.
- Mutation.MutantsDiffer: float constants are reals, so a constant that absorbs the added one is not covered.
- Mutation.Own: parsing and unparsing of source text, the location of new nodes and the wording for float constants are not modelled, and adding one to a float never rounds.
- Review.WriteReview: paths are cleaned component lists and the tree has no links, so path cleaning, case folding, identity checks and permissions are not modelled; the comment inserters, the credential and size filter and the JSON encoder are parameters; the order of copied files is not modelled, and removals of directories, in the reset and in the final cleanup, do not fail.
- WriteOutputFile, RemoveReview, Collect and the text redaction of annotations.
