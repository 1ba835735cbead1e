# Verified models of the tooling protocols and algorithms

This project models the protocols and algorithms of the application's tooling and proves what
they promise:

- the **admission gate** that keeps the sandbox runs of a whole host within a budget
  (`AdmissionProtocol`, `AdmissionSafety`, `AdmissionExactness`, `AdmissionRecovery`,
  `AdmissionConduct`, `AdmissionRefinement`, `SlotGate`, with `RunTokens`, `Occupancy` and
  `CapacityPlan`);
- the **interlock** that clears the Docker engine off a host before a virtual machine starts
  (`EngineInterlock`, `InterlockSafety`);
- the **diff splitter and packer** (`DiffSplitter`, `DiffPacker`, `LargestFirst`) and the
  **latency forecaster** (`LatencyCurve`, `RobustFit`, `LatencyModel`, `LatencyEvidence`) behind the commit-message generator;
- the **graph and tree algorithms**: bounded shortest path and grid layout of the architecture page
  (`ShortestPath`, `GridLayout`), the flat directory table and its search (`TreeTable`,
  `TreeSearch`), the dependency split (`MlSplit`) and argfile expansion (`Argfiles`);
- the **icon writer** (`ByteLayout`, `Bitmap`, `IconFile`).

`Wrappers`, `Arithmetic`, `Characters`, `Sequences`, `Sets`, `Sorting` and `Clocks` hold what several
of these share. Code the program writes as loops over changing state is modelled by methods and
classes whose contracts name a specification; the theorems about that specification are lemmas
beside them. Clocks, sleeps, locks, unlinks and probes are adversaries: they may answer anything
their contract allows. For one driver on its own the liveness listings may answer anything at all;
in the protocol of many drivers a listing of containers may miss any of them, while a listing of
process ids is exact when made.

## What is proved, in short

**Admission.** A host is a state machine over twenty kinds of step of any number of driver
processes: each attempt takes its lock, its two snapshots, its two directory scans, every unlink,
its decision and its unlock as separate steps, and other drivers may start, be killed, launch, start
and lose containers and reuse process ids between any two of them. A container may appear after
the driver that launched it has died, and a listing of containers may miss any of them, as it does
when the query fails. In every reachable state at most `budget` runs are in flight, as long as no
step *overlooks* a run: no attempt snapshots the pids while a run in flight is missing from its
listing and has no live driver, or no file, to show for it, and none loses the file it counts on to
a release made too early (`BudgetIsNeverExceeded`).

That condition is met by orderly conduct, which is stated in terms of what drivers, kills and
listings do and needs no knowledge of any attempt's snapshots: listings of containers succeed, no
driver dies while a container of its own is yet to appear nor between the two snapshots of another
driver's attempt, and a slot is released once its container is gone. Any other kill, crash, failed
unlink or reuse of a pid is allowed. Under orderly conduct the budget always holds
(`OrderlyHostStaysInBudget`). Where moreover every container is gated, no pid of a file left behind
is reused and every release unlinks its file, a waiting run that is not interrupted is admitted
exactly when fewer than `budget` others are in flight (`OrderlyAdmissionIsExact`).

The condition is also exact, for the budget itself. Of all steps from a state within the budget, the
ones after which the budget can be exceeded without another such step are exactly those that make a
full host look free (`ExactlyUndercountsExceed`), and on a full host with only runs in flight in
view these are exactly the ones that overlook a run (`ExactlyOverlookedRunsExceed`). The code does
meet such steps: `KillBetweenSnapshotsExceedsBudget` and `OrphanExceedsBudget` are executions from
an empty host with one slot to two runs, by a kill between the two snapshots, by a failed listing,
and by a container that appears after its driver's death, each of which breaks one clause of orderly
conduct. What an attempt counts after any crashes is stated exactly, and one driver's `TryAdmit`,
proved on its own as an imperative method, is a path of the protocol.

**Packing.** The documentation of `_split_diff_on_file_boundaries` promises every chunk within the
piece limit. The code does not keep that promise. `PackIsBounded` proves the bound the code does
give, `max(limit, total/n + longest*(n-1)/n)`, below twice the limit when no piece exceeds it, and
`BoundIsAttained` attains it for every number of bins. For files of one size `EqualFilesFitIff` tells
from their number and size exactly when the promise holds; for arbitrary files `LimitHoldsIffAllFit`
does so by the guard of the packing itself. That the largest go first shows in the result:
`LargestFirstIsNearlyBest` proves that unsplit files never make a chunk longer than `4/3 - 1/(3n)` times
the longest in any other way of putting them into `n` bins. `LimitInUseIsExceeded` is an input for the limit in use.
Likewise `_subsplit_large_file_diff` promises every sub-chunk within the limit, and
`SubsplitLargeFileDiff` states exactly when that holds. The models follow the code.

**Capacity.** `plan_capacity` budgets a pin at its whole part but passes it on verbatim, so pinned
runs need not fit. They fit on every host exactly when a CPU pin is below one or whole
(`CpuPinFitsIff`) and a memory pin is below 3 GiB or a whole number of GiB (`MemoryPinFitsIff`),
whatever else is pinned; `FractionalPinOvercommits` is an input, 2 runs of 4.5 CPUs on 8. The memory
reserve survives exactly on hosts of 20 GiB or more (`ReserveHoldsExactlyFrom20Gib`), and the CPU
headroom exactly on hosts of 6 CPUs or more (`HeadroomHoldsExactlyFrom6Cpus`).

**Interlock.** Sleeps are events of the trace beside the calls. Every wait of `EnsureQuiesced` looks
again after each sleep of one poll interval, so a condition met between two polls ends the wait there,
and a wait that fails has looked once more past its deadline.

**Search.** The ancestor walk of `performSearch` stops early; that it is exact is proved for every
table whose parent indices are in range, which is more than the numbering `scan_directory` produces.

## Model

| member | source | states |
|---|---|---|
| RunTokens.PidRoundTrip | scripts/sandbox/admission.py:236-255 | The pid written into a run token is read back from it, whatever the stem before the run id |
| RunTokens.PidIsReadExactly | scripts/sandbox/admission.py:236-255 | A name carries a pid exactly when it ends as composed tokens do, and then the pid written there |
| RunTokens.DocumentedTokenIsRead | scripts/sandbox/admission.py:236-255 | The token the documentation gives as an example is read as it says |
| RunTokens.TokensOfDistinctPidsDiffer | scripts/sandbox/test_types.py:71-84 | Drivers with different pids never draw the same token |
| Occupancy.ReapKeepsOccupied | scripts/sandbox/admission.py:570-583 | Whichever unlinks fail, reaping changes neither the occupied set nor any active run's file |
| AdmissionSafety.StepKeepsStructInv | scripts/sandbox/admission.py:585-614 | Whatever happens, every step keeps one lock holder, files for held slots, and true snapshots and scans |
| AdmissionSafety.StepKeepsInvIff | scripts/sandbox/admission.py:585-614 | A step keeps the budget and every count under way exactly when it does not make a full host look free |
| AdmissionSafety.StepKeepsShown | scripts/sandbox/admission.py:585-614 | A step that overlooks no run keeps every run in flight counted by the attempt under way, and the budget |
| AdmissionSafety.DecisionCountsAll | scripts/sandbox/admission.py:605-608 | In every execution that overlooks no run, an attempt about to decide counts every run then in flight, although its snapshots and scans are older |
| AdmissionSafety.GrantFits | scripts/sandbox/admission.py:606-611 | A grant leaves at most `budget` tenants, foreign containers the attempt saw included |
| AdmissionSafety.UnlinkSparesHeldSlots | scripts/sandbox/admission.py:570-583 | In every reachable state the reaper spares the files of runs whose drivers hold a slot, however much moved since it read the directory |
| AdmissionSafety.UnlinkSparesLiveRuns | scripts/sandbox/admission.py:570-583 | While no run has been overlooked, the reaper spares the file of every run in flight, its driver dead or alive |
| AdmissionExactness.UndercountExceeds | scripts/sandbox/admission.py:601-612 | A full host that an attempt undercounts goes over the budget if the attempt is merely left to run |
| AdmissionExactness.ExactlyUndercountsExceed | scripts/sandbox/admission.py:601-612 | Of all steps within the budget, those after which it can be exceeded without another such step are exactly those that make a full host look free |
| AdmissionExactness.ExactlyOverlookedRunsExceed | scripts/sandbox/admission.py:601-612 | On a full host with only runs in flight in view, the steps that let the budget be exceeded are exactly those that overlook a run |
| AdmissionSafety.BudgetHoldsUnlessUndercounted | scripts/sandbox/admission.py:489-497 | The budget holds in every state of every execution that never makes a full host look free |
| AdmissionSafety.BudgetIsNeverExceeded | scripts/sandbox/admission.py:489-497 | In every state of every execution that overlooks no run at most `budget` runs hold a slot or have a container running or launching, and all tenants exceed it only by foreign containers |
| AdmissionSafety.GatedHostStaysInBudget | scripts/sandbox/admission.py:489-497 | With every container gated, all containers and held slots together stay within the budget |
| AdmissionConduct.OrderlyOverlooksNone | scripts/sandbox/admission.py:601-602 | Orderly conduct of drivers, kills and listings never makes an attempt overlook a run |
| AdmissionConduct.OrderlyHostStaysInBudget | scripts/sandbox/admission.py:489-497 | Under orderly conduct, with any other kills, crashes, failed unlinks and reuse of pids, the budget holds in every reachable state |
| AdmissionConduct.OrderlyRecoveryIsExact | scripts/sandbox/admission.py:327-363 | Under orderly and tidy conduct an attempt with a complete listing counts exactly the other runs in flight and the containers, whichever stale files it removed |
| AdmissionConduct.OrderlyAdmissionIsExact | scripts/sandbox/admission.py:598-614 | Under orderly and tidy conduct with every container gated, an uninterrupted attempt is admitted exactly when fewer than `budget` others are in flight |
| AdmissionRecovery.OccupancyIsExact | scripts/sandbox/admission.py:327-363 | With any listing, an attempt counts the runs in flight less those it cannot see, its listing and the ghosts of reused pids, without the caller |
| AdmissionRecovery.RecoveryIsExact | scripts/sandbox/admission.py:489-497 | After any tidy execution an attempt counts the runs in flight it can see and its listing, and nothing else, so a dead driver without a container holds no slot |
| AdmissionRecovery.AdmissionIsExact | scripts/sandbox/admission.py:598-614 | In every reachable state an uninterrupted attempt is admitted exactly when fewer than `budget` other tenants are in its view |
| AdmissionRecovery.KillBetweenSnapshotsExceedsBudget | scripts/sandbox/admission.py:601-602 | An execution in which a kill between the two snapshots lets two runs onto a host with one slot |
| AdmissionRecovery.OrphanExceedsBudget | scripts/sandbox/docker_sandbox.py:1088-1114 | Executions in which a failed listing, or a container that appears after its driver's death, lets two runs onto a host with one slot |
| AdmissionRefinement.AttemptRunsThrough | scripts/sandbox/admission.py:598-614 | An uninterrupted attempt takes the protocol from a free lock to a free lock, whatever its listing misses and whichever stale files it removes |
| AdmissionRefinement.TryAdmitRefinesProtocol | scripts/sandbox/admission.py:585-614 | Whatever outcome the gate's attempt may have, the protocol reaches it, with the same directory and verdict |
| SlotGate.ReadingIsFaithful | scripts/sandbox/admission.py:553-568 | Over a reading of the directory the code's active, stale and occupied reservations are those of the protocol |
| SlotGate.SelectStale | scripts/sandbox/admission.py:283-299 | Selects exactly the reservations with neither a running container nor a live pid |
| SlotGate.CountOccupiedSlots | scripts/sandbox/admission.py:327-363 | Counts the distinct union of running containers and active reservations, without the caller's own |
| SlotGate.CrossProcessLock.Acquire | scripts/sandbox/admission.py:384-407 | Holds the lock on one more open handle, or gives up past the deadline with every handle closed, after a bounded number of tries |
| SlotGate.CrossProcessLock.Release | scripts/sandbox/admission.py:430-446 | Closes the one handle and drops the lock; harmless when the lock is not held |
| SlotGate.SlotHandle.Release | scripts/sandbox/admission.py:471-486 | The first call removes exactly this run's file unless the system refuses; later calls change nothing |
| SlotGate.SlotGate.ReapStale | scripts/sandbox/admission.py:570-583 | Removes exactly the stale files the system lets go |
| SlotGate.SlotGate.TryAdmit | scripts/sandbox/admission.py:553-614 | On whatever directory the others left when the lock was taken, admits exactly when fewer than `budget` others occupy a slot; the new directory is stated in full, the lock file and whatever is no file stay as they are, and the lock is free whatever happens |
| SlotGate.SlotGate.Acquire | scripts/sandbox/admission.py:616-647 | The verdict is that of the last attempt, timeouts are never early, and the attempts are bounded by wait and poll |
| CapacityPlan.SlotsAreMaximal | scripts/sandbox/admission.py:195-206 | The slots lie in 1..4, fit when there are several, and no larger fitting count under the cap exists |
| CapacityPlan.ReserveIsLeast | scripts/sandbox/admission.py:195-197 | The reserve is the least whole number of GiB of at least 8 and at least 15% of the total |
| CapacityPlan.UsableHostIsRest | scripts/sandbox/admission.py:195-198 | Usable is what the reserves leave of the host's whole GiB and CPUs, or a run's floors when they leave less |
| CapacityPlan.BudgetIsWholePart | scripts/sandbox/admission.py:200-203 | A pin is budgeted at its whole GiB or whole CPUs, at one GiB at least, and at the floor below one CPU |
| CapacityPlan.UnpinnedShareIsLargest | scripts/sandbox/admission.py:207-216 | Under any pin of the other, an unpinned share is the largest whole number that fits, never below its floor |
| CapacityPlan.UnpinnedSharesFit | scripts/sandbox/admission.py:195-216 | Unpinned shares fit the usable host, are the largest whole shares that do, and respect the floors |
| CapacityPlan.ReserveHoldsExactlyFrom20Gib | scripts/sandbox/admission.py:195-211 | The memory reserve survives exactly when the host has 20 GiB or more |
| CapacityPlan.HeadroomHoldsExactlyFrom6Cpus | scripts/sandbox/admission.py:198-212 | The CPU headroom survives exactly when the host has 6 CPUs or more |
| CapacityPlan.PinnedSharesFit | scripts/sandbox/admission.py:200-216 | For every combination of pins, pins are kept verbatim and every share but an unsafe pin's fits unless one slot is left |
| CapacityPlan.CpuPinFitsIff | scripts/sandbox/admission.py:203-216 | A CPU pin overcommits no host on which several runs are admitted exactly when it is below one or whole |
| CapacityPlan.MemoryPinFitsIff | scripts/sandbox/admission.py:202-216 | A memory pin overcommits no host on which several runs are admitted exactly when it is below 3 GiB or a whole number of GiB |
| CapacityPlan.SlotsAreMonotone | scripts/sandbox/admission.py:195-206 | More memory or more CPUs never mean fewer slots |
| EngineInterlock.WaitUntil | scripts/sandbox/hcs_interlock.py:325-349 | Polls, sleeps one interval and polls again until a poll succeeds or the deadline is past, when one last poll decides: every sleep is followed at once by a poll; at most ceil(timeout/interval)+1 polls, and a failed wait is never early |
| EngineInterlock.Quiesce | scripts/sandbox/hcs_interlock.py:406-455 | For every environment the calls made and the verdict are those of a transcript |
| InterlockSafety.VerdictIsTheLastObservation | scripts/sandbox/hcs_interlock.py:406-455 | The host is reported clear exactly when the last observation of the engine was "not running" |
| InterlockSafety.ShutdownSparesContainers | scripts/sandbox/hcs_interlock.py:411-428 | At most one shutdown, and only when the latest container observation was empty |
| InterlockSafety.EnsureQuiesced | scripts/sandbox/hcs_interlock.py:458-479 | On the calls and sleeps alone, for every environment: every sleep is of one poll interval and ends in a look; clear exactly when the engine was last seen gone; one shutdown at most, with the containers last seen gone; one service stop at most, elevated and after a wait in vain; blocked only after a whole timeout; boundedly many calls |
| DiffSplitter.SplitTextByLines | scripts/generate_commit_message.py:1728-1768 | The pieces join to the text, are within the limit, and every cut is called for by the next line or an oversized one |
| DiffSplitter.LinesEndInBreaks | scripts/generate_commit_message.py:1748 | A line has a break only at its end, every line but the last ends in one, and a carriage return keeps its line feed |
| DiffSplitter.SubsplitLargeFileDiff | scripts/generate_commit_message.py:1771-1837 | The body survives once and in order: a single hunk is split on its lines in the room its header leaves, several are grouped whole; every chunk is within the limit exactly under a stated condition on hunks and header |
| DiffSplitter.OversizedHunkStaysWhole | scripts/generate_commit_message.py:1821-1834 | For a diff of two hunks of which the first is over the limit, the splitter returns one chunk each, the first over the limit |
| DiffPacker.FillBins | scripts/generate_commit_message.py:1885-1904 | The packing loops over the heap of bins compute the specified packing |
| DiffPacker.PackConserves | scripts/generate_commit_message.py:1861-1904 | The bins hold every piece exactly once, and each counts what it holds |
| DiffPacker.BinsAreFewest | scripts/generate_commit_message.py:1871-1874 | The bins are as few as could hold the total within the limit, or one for each piece if that is fewer |
| LargestFirst.GroupsAreTakenLargestFirst | scripts/generate_commit_message.py:1876-1888 | The groups are packed in non-increasing size, those of one size in the order they came in |
| LargestFirst.GroupStaysTogetherIfItFits | scripts/generate_commit_message.py:1888-1904 | A group goes whole and in order into the first least loaded bin exactly when some bin has room for it; otherwise what each bin takes of it is in non-increasing length |
| LargestFirst.LongestFirstIsNearlyBest | scripts/generate_commit_message.py:1896-1904 | The pieces of a spread group fill empty bins to at most 4/3 - 1/(3n) of the fullest bin of any other packing |
| LargestFirst.LargestFirstIsNearlyBest | scripts/generate_commit_message.py:1871-1904 | For unsplit files no chunk exceeds 4/3 - 1/(3n) of the longest in any other packing into the n bins, and each chunk holds its files largest first |
| DiffPacker.PackIsBounded | scripts/generate_commit_message.py:1871-1904 | With n bins each is within the limit or at most total/n + longest*(n-1)/n |
| DiffPacker.ChunksStayBelowTwiceTheLimit | scripts/generate_commit_message.py:1871-1904 | When no piece is over the limit, every bin stays below twice the limit |
| DiffPacker.ChunksFitWithSlack | scripts/generate_commit_message.py:1871-1904 | The limit holds when the total leaves a longest piece of room in all bins but one |
| DiffPacker.LimitHoldsIffAllFit | scripts/generate_commit_message.py:1888-1904 | The promised limit holds exactly when no piece is ever put into a bin without room for it |
| DiffPacker.EqualFilesFitIff | scripts/generate_commit_message.py:1840-1904 | For files of one size the promised limit holds exactly when the fullest bin's share of them, told from their number and size, is within it |
| DiffPacker.BoundIsAttained | scripts/generate_commit_message.py:1871-1904 | For every number of bins there are files of one size that attain the bound of the packing |
| DiffPacker.LimitInUseIsExceeded | scripts/generate_commit_message.py:1716-1725 | Three files of a million characters make a chunk over the limit in use |
| DiffPacker.SplitDiffOnFileBoundaries | scripts/generate_commit_message.py:1840-1912 | Blank input comes back whole; otherwise every file becomes its group of pieces and the chunks are the packing of the groups |
| DiffPacker.CutsRunBetweenStarts | scripts/generate_commit_message.py:1854 | The text is cut at every file start and nowhere else |
| DiffPacker.KeptInOrder | scripts/generate_commit_message.py:1855 | Exactly the parts that are not blank are kept, in order |
| DiffPacker.ChunksAreFilledBins | scripts/generate_commit_message.py:1906 | The chunks are the bins that hold anything, by number, each the text of its pieces in order |
| DiffPacker.ChunksAreBalanced | scripts/generate_commit_message.py:1906-1912 | The chunks carry all the pieces' characters and each is within the bound |
| DiffPacker.SplitIsBounded | scripts/generate_commit_message.py:1840-1912 | When every file splits within the limit no chunk reaches twice the limit; small files are carried whole, each once |
| LatencyCurve.ForecastCoversObservation | scripts/generate_commit_message.py:734-755 | A forecast is never below what has been observed |
| LatencyCurve.ForecastIsMonotone | scripts/generate_commit_message.py:734-755 | Observing more never lowers the forecast, also where the tail runs out |
| LatencyCurve.TailMeanIsMonotone | scripts/generate_commit_message.py:753-755 | Conditioning on a longer run never lowers the mean of the runs that got as far |
| LatencyCurve.NoHistoryForecast | scripts/generate_commit_message.py:748-751 | Without history the forecast is the largest of the line, the least value and the observation stretched by 15% |
| LatencyCurve.ForecastIsMeanOfReached | scripts/generate_commit_message.py:752-755 | With history it is the mean outcome of exactly the runs that got at least as far, or the stretched observation when none did |
| RobustFit.FitIsNonNegative | scripts/generate_commit_message.py:689-707 | A fit exists only over two distinct sizes, and neither of its terms is negative |
| RobustFit.MedianIsInMajority | scripts/generate_commit_message.py:703-704 | A median lies in every range that holds more than half of the values |
| RobustFit.MedianIsMiddle | scripts/generate_commit_message.py:703-704 | In any rising order the median is the middle value, or halfway between the middle two |
| RobustFit.FitResistsOutliers | scripts/generate_commit_message.py:689-707 | The slope lies in every non-negative range that holds more than half of the pairwise slopes |
| RobustFit.FitIgnoresOutliers | scripts/generate_commit_message.py:689-707 | Over distinct sizes, the fit is the very line whose points make more than half of all pairs, wherever the others are |
| RobustFit.FitRecoversLine | scripts/generate_commit_message.py:689-707 | Points on a non-negative line over two sizes are fitted by that line |
| RobustFit.SingleObservationCalibrates | scripts/generate_commit_message.py:758-786 | A single positive observation is reproduced by the scaled prior |
| RobustFit.ResidualsAreRatios | scripts/generate_commit_message.py:783-786 | One ratio, in order, for each point over which the line is positive; times the line it is the point |
| RobustFit.OneSizeFitsItsMedian | scripts/generate_commit_message.py:776-782 | Samples of one size put the curve through their median |
| LatencyModel.RecordKeepsNewest | scripts/generate_commit_message.py:843-848 | A record keeps exactly the newest 48 samples of its kind and model, in order, and all others |
| LatencyModel.RemovalDropsNext | scripts/generate_commit_message.py:846-847 | Removing by value equality removes the very sample that is the next oldest |
| LatencyModel.Model.Record | scripts/generate_commit_message.py:837-851 | The new samples are stated in full, no cached answer goes stale, and the file holds the new samples unless it cannot be written |
| LatencyModel.Model.GetCurve | scripts/generate_commit_message.py:853-869 | A cached or fresh curve is the one fitted to the current samples, of which `LatencyEvidence` says which count and how |
| LatencyModel.Model.DecodeRate | scripts/generate_commit_message.py:871-890 | A cached or fresh rate is that of the current samples, of which `LatencyEvidence` says which count and how |
| LatencyModel.Replay | scripts/generate_commit_message.py:837-890 | Every call of any sequence is answered as by a model that caches nothing |
| LatencyEvidence.MatchingInOrder | scripts/generate_commit_message.py:915 | A profile's samples are exactly those of its kind and model, oldest first |
| LatencyEvidence.OwnSamplesDecide | scripts/generate_commit_message.py:915-916 | Histories with the same samples of a profile, and at least one, give the same curves and rate, whatever else they hold |
| LatencyEvidence.KindDecidesOtherwise | scripts/generate_commit_message.py:915-916 | Without a sample of its own a profile is answered as if every sample of its kind were its own |
| LatencyEvidence.ObservationsInOrder | scripts/generate_commit_message.py:929-945 | A metric's points are its samples' input sizes with what each measured, in order |
| LatencyEvidence.OneSampleIsReproduced | scripts/generate_commit_message.py:918-945 | One sample puts each metric's curve through what it measured |
| LatencyEvidence.OneSampleGivesItsRate | scripts/generate_commit_message.py:883-889 | One sample that streamed long enough gives the rate that reproduces its streaming time, any other the prior rate |
| LatencyEvidence.RatesOfParts | scripts/generate_commit_message.py:883-887 | The rates are taken sample by sample, in order |
| LatencyEvidence.RateIsMiddle | scripts/generate_commit_message.py:883-889 | The rate is the middle of the rates of the samples that streamed, or halfway between the middle two |
| LatencyEvidence.NothingRecorded | scripts/generate_commit_message.py:918-945 | Without samples each curve is its prior line without ratios, and the rate the prior rate |
| ShortestPath.BuildConnIndex | scripts/knowledge-graph/visualize_architecture.py:1141-1146 | The index holds exactly the edges, in both directions |
| ShortestPath.FindShortestPath | scripts/knowledge-graph/visualize_architecture.py:1094-1104 | A walk of minimum hop count within the limit, or null exactly when there is none; ends on every graph |
| ShortestPath.PathBetween | scripts/knowledge-graph/visualize_architecture.py:1094-1146 | Indexing the edges and searching the index answers for the graph of those edges |
| ShortestPath.AnswersReverse | scripts/knowledge-graph/visualize_architecture.py:1094-1104 | The search back answers with a path of the same length, or with none |
| GridLayout.HierarchicalLayout | scripts/knowledge-graph/visualize_architecture.py:454-493 | Every node stands in the slot its level and the rank of its name in it give |
| GridLayout.DotsAreOccurrences | scripts/knowledge-graph/visualize_architecture.py:467 | Dots are counted as often as they occur |
| GridLayout.ScopesAreOccurrences | scripts/knowledge-graph/visualize_architecture.py:467 | Scopes are the occurrences of `::` found one after another without overlap |
| GridLayout.KindsAreOrdered | scripts/knowledge-graph/visualize_architecture.py:464-469 | Within a depth modules and unknown kinds stand first, then classes and structs, functions, and externals |
| GridLayout.DeeperNamesStandLower | scripts/knowledge-graph/visualize_architecture.py:464-469 | A deeper name never stands above a shallower one, and on its level only where an external meets a module |
| GridLayout.SlotsRunInRows | scripts/knowledge-graph/visualize_architecture.py:479-490 | The slots of a level start at the left edge of a centred grid and run 40 apart, 150 to a row |
| GridLayout.LevelsAreSetApart | scripts/knowledge-graph/visualize_architecture.py:479-490 | The next level starts 120 units below the last row of a level with nodes |
| GridLayout.GridIsLaidOut | scripts/knowledge-graph/visualize_architecture.py:472-490 | In the grid any two nodes are 40 units apart along an axis, levels stand below one another, and names read in order |
| GridLayout.Positions.Normalize | scripts/knowledge-graph/visualize_architecture.py:592-605 | All nodes end in the square against its edges, shifted and stretched by one positive scale |
| GridLayout.LayOutNormalized | scripts/knowledge-graph/visualize_architecture.py:454-605 | After layout and normalisation all nodes are in the square and no two are merged |
| TreeTable.ScanDirectory | scripts/generate_tree.py:158-210 | The table decodes to the tree, is well formed, and the counters count its records |
| TreeTable.Scanner.Walk | scripts/generate_tree.py:179-207 | The walk appends exactly the encoding of the entry, and the counters grow by its files and folders |
| TreeTable.DecodeEncoded | scripts/generate_tree.py:179-207 | The encoding of a tree, wherever it stands in a table, decodes to the tree |
| TreeTable.EncodedIsLinked | scripts/generate_tree.py:183-197 | Parent indices are below their children's, and child lists and parent pointers are mutual inverses |
| TreeTable.EncodingIsInjective | scripts/generate_tree.py:158-210 | Trees with the same table are the same tree |
| TreeSearch.MarkPaths | scripts/generate_tree.py:894-903 | Exactly the matches and their ancestors are marked, and a record is marked a match exactly when its name matches |
| TreeSearch.HitIffQueryStands | scripts/generate_tree.py:888-896 | A name matches exactly when the query stands somewhere in it, whatever the case |
| TreeSearch.Page.AncestorChain | scripts/generate_tree.py:855-860 | The chain leads from the root to the record, parent by parent |
| TreeSearch.Page.EnsureAncestorsRendered | scripts/generate_tree.py:854-872 | Gives the record and everything above it an item inside open folders |
| TreeSearch.Page.PerformSearch | scripts/generate_tree.py:888-923 | Shows exactly the matches and their ancestors inside open folders, and highlights exactly the matches |
| MlSplit.CanonicalIsIdempotent | packaging/ml_split.py:104 | A canonical name is its own canonical name (PEP 503, section "Normalized Names") |
| MlSplit.CanonicalForm | packaging/ml_split.py:104 | A canonical name has no upper-case letter, no separator but '-', and no two of them in a row |
| MlSplit.SameCanonicalIffAlike | packaging/ml_split.py:104 | Two names have one canonical name exactly when they are equal but for case and what their runs of separators are made of |
| MlSplit.DependencyClosure | packaging/ml_split.py:87-117 | The least set that holds the canonical roots and is closed under active requirements, also on cyclic graphs |
| MlSplit.TopLevelNameIsExact | packaging/ml_split.py:48-66 | Says exactly which top-level entry a path names, whichever slashes it uses |
| MlSplit.DistributionEntries | packaging/ml_split.py:120-145 | The entries any of the distributions owns, or a failure exactly when one lacks its demanded record |
| MlSplit.ComputeMlOnlyEntries | packaging/ml_split.py:148-172 | Exactly the entries owned by an ML-only distribution and by no core one, or a failure exactly for a missing record |
| MlSplit.SplitIsExact | packaging/ml_split.py:167-172 | A split moves nothing that a core-reachable distribution owns and all that only ML-reachable ones own, and fails exactly when one of the latter has no record |
| MlSplit.SplitShrinksWithCoreRoots | packaging/ml_split.py:167-172 | Adding core roots only shrinks what is moved and introduces no failure |
| Argfiles.Expand | scripts/sandbox/argfiles.py:47-76 | The recursive expansion computes the specified one and ends on every finite set of files |
| Argfiles.SourceIsBehindPrefix | scripts/sandbox/test_types.py:340-356 | A line is a reference to a source exactly when it is '@' followed by that source |
| Argfiles.FailureReports | scripts/sandbox/argfiles.py:62-70 | A failure comes with a walk of references that shows the cycle or the missing file |
| Argfiles.FailsExactlyOnBadWalks | scripts/sandbox/argfiles.py:62-76 | Expansion fails exactly when a walk from the source meets a missing file or closes a cycle |
| Argfiles.FailsExactlyOnCycles | scripts/sandbox/argfiles.py:62-76 | Over existing files it fails exactly when a cycle can be reached; shared references are accepted |
| Argfiles.ExpansionFlattens | scripts/sandbox/argfiles.py:69-76 | A successful expansion is the plain in-order flattening |
| Argfiles.NoReferenceIsLeft | scripts/sandbox/argfiles.py:70-75 | A successful expansion leaves no reference |
| Argfiles.ReadArgfile | scripts/sandbox/argfiles.py:79-94 | The flattening without a reference left, or a walk that shows why there is none |
| ByteLayout.PackRoundTrip | scripts/make_hexbench_icon.py:55-57 | Little-endian fields that fit are read back, and the rest of the bytes follow |
| Bitmap.MaskStrideIsLeast | scripts/make_hexbench_icon.py:236 | The mask stride is the least multiple of four bytes that holds one bit per column |
| Bitmap.PixelStandsAtItsOffset | scripts/make_hexbench_icon.py:226-234 | Pixel (x, y) stands at its bottom-up offset, as blue, green, red, alpha |
| Bitmap.DibBytes | scripts/make_hexbench_icon.py:207-252 | Every header field stands at its byte offset with the value it must have, every pixel from byte 40 on, and the mask after them |
| IconFile.PayloadsAreContiguous | scripts/make_hexbench_icon.py:273-280 | Each payload begins where those before it end, and its entry says so |
| IconFile.EntriesRoundTrip | scripts/make_hexbench_icon.py:276-280 | Entries over payloads that stand back to back lead to exactly those payloads |
| IconFile.AssembleIco | scripts/make_hexbench_icon.py:273-281 | Type, count and every field of every entry stand at their byte offsets; a reader following them recovers every payload, and the payloads fill the file |
| Bitmap.IconSizesAreRepresentable | scripts/make_hexbench_icon.py:49-61 | Every square image up to 256 pixels can be encoded |
| IconFile.BuildIco | scripts/make_hexbench_icon.py:255-281 | The whole icon, byte by byte: the directory as it must be, PNGs as they are for 256, and every header field and pixel of every other image |

## Left out

- Atomic steps: in the protocol each listing of containers, each listing of pids and each file operation is one step; the listing of containers may miss any of them, the listing of pids is exact.
- Differing budgets: all drivers of a host use one budget; the code lets each driver compute its own.
- Failing writes: exceptions from creating the directory or writing the reservation are not modelled.
- SlotGate.SlotGate.TryAdmit: states one driver's view, in which others move while it waits for the lock but not between its steps under it; what holds when they do is proved over the interleaved protocol.
- AdmissionSafety.BudgetIsNeverExceeded: is stated for executions that overlook no run, because it is false otherwise; `OrderlyOverlooksNone` gives conduct that ensures it, and `ExactlyUndercountsExceed` and `ExactlyOverlookedRunsExceed` show that the condition is exact.
- AdmissionSafety.GatedHostStaysInBudget: has the same condition.
- AdmissionRecovery.RecoveryIsExact: is stated without reuse of a pid whose file is left behind and without a failed unlink on release, because either leaves a ghost that is counted; `OccupancyIsExact` and `AdmissionIsExact` count the ghosts and need no such condition. Runs in flight its listing misses stay as a term; under orderly conduct with a complete listing `OrderlyRecoveryIsExact` has none.
- AdmissionRecovery.AdmissionIsExact: is about an attempt that no other process interrupts; interrupted ones are covered by the step theorems.
- RunTokens.PidRoundTrip: decimal digits are ASCII; other Unicode digits, which the code accepts, are not modelled.
- CapacityPlan: sizes and CPU counts are given as numbers; parsing the strings, float rounding of the 15% reserve and not-a-number values are not modelled.
- Clocks and polling: a sleep takes at least some tick, however short, even with a poll interval of zero; negative intervals, which sleeping refuses, are excluded.
- DiffSplitter: hunk starts are given positions; the regular expression that finds them is not modelled.
- DiffPacker.LimitHoldsIffAllFit: states the condition for arbitrary pieces by the guard the packing meets at each of them, which takes as long to check as packing does.
- DiffPacker: file starts are given positions, and bins are indexed by their number with the first least loaded one taken, which is what the heap yields; the heap's own array is not modelled, nor are the log lines.
- LatencyCurve.ForecastCoversObservation: is over exact reals and non-negative observations; floating-point rounding and infinities are not modelled.
- LatencyModel: decoding and writing the calibration file, its lock and the calibration note are left out; a file write either takes effect or does not.
- ShortestPath: property names that every JavaScript object inherits are not special; the copy of the search in the page's worker is the same loop.
- GridLayout: coordinates are exact reals; the radial and force layouts are left out.
- TreeTable: the file system is a finite tree of entries already listed in order; sizes are given and symbolic links are left out.
- TreeSearch: of the page only items, open folders, hiding and highlighting are modelled; case folding is ASCII, and selection, previews and shell commands are left out.
- MlSplit: requirement parsing and marker evaluation are given as names and truth values, and lower-casing is ASCII.
- Argfiles: files are given as their lines and references as a resolving function; encodings and path resolution are not modelled.
- Bitmap, IconFile: an image is its pixels and a PNG is opaque bytes; drawing and PNG encoding are left out, and an image or payload whose header fields overflow is refused as packing it would be an error.
- Line parsers, changelog and lint tools, launchers and the remaining scripts are left out; they would only add easy members.
