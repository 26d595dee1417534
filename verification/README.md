# Proofs about the model router

The router chooses a model for every prompt. This project models the parts of it that keep state, merge state or do
arithmetic that is easy to get wrong, and proves what those parts keep over every input and every run:

* the scan cache and the per-project state file shared by several Pi processes (`CacheProtocol`, `ProjectProtocol`,
  `InstanceLog`, `CapOrder`, `CapRuns`, `CopyRuns`, the values of the global file in `GlobalValues`, and
  the class itself in `CacheManagement`);
* the greedy pairing of decision-log records (`PairStats`);
* the resync of a generated config with the static layers, the canonical text behind its fingerprint, and the two
  deduplications of a generated group (`DynamicConfig`, `DynamicResync`, `CanonicalJson`, `CanonicalText`, `GroupModels`);
* the layered config merge and the validators around it (`ConfigLoader`, `ConfigLaws`);
* the session escalation with its asynchronous verdicts (`Escalation`, `EscalationRuns`);
* budget windows, pace and reset times over one proleptic Gregorian calendar, and the usage log the budgets are counted
  from (`Calendar`, `BudgetPacing`, `BudgetLog`, `Detection`);
* the classification cache, the order of the classifier's legs, and overlapping classifications (`ClassifyCache`,
  `ClassifierChain`, `ClassifierAnswers`, `ClassifierRuns`);
* the round-robin candidate selection and the local re-probe loop (`FallbackProbe`, `LocalProbe`,
  `LocalProbeLaws`, `LocalProbeRuns`).

`Seqs`, `Refs` and `JsonValues` hold what several modules share: options, the stable sort of ECMA-262 (section
23.1.3.30), the two ways a ref is split, and parsed configuration values. `dafny verify dfyconfig.toml` checks everything.

Code that updates objects is modelled as classes and methods whose contracts give the whole new state as a function of
the old one; the theorems are lemmas about those functions and about sequences of them. A JavaScript Map or Set whose
order matters is a sequence in insertion order (ECMA-262, section 24.1). The network, the daemon, the registry, the
clock and regular expressions are arguments.

## What the proofs found

* `saveCache` merges the project file into what it writes, marks the file as synced, and does not take the merged arrays
  into memory. The comment at src/cache.ts:289-291 ("memory already contains everything we persisted") is therefore an
  assumption about the caller: two saves in a row drop what other processes recorded (`SecondSaveForgets`,
  `TwoSavesLoseAnEntry`). `SaveKeepsEntriesIff` and `RunKeepsFileIff` are the exact conditions for one save and for whole
  runs. A run whose saves are made in sync with the file keeps the key of every live entry (`SyncedRunsKeepKeys`); loading
  before each save is one way to be in sync, having the project to oneself after one load is another
  (`OneProcessKeepsKeys`).
* Two real events of one millisecond can have one key, and the comment at src/cache.ts:78-85 promises that both survive,
  collisions across processes aside. A load of news, however, sets the copies in memory to those of the file. A process
  that records an event, saves, and records its twin after another process has saved keeps only one of them, although
  the other process recorded neither (`SecondRealEventIsLost`). `RunKeepsCopiesIff` says exactly which runs keep every
  copy; the file itself never loses one in a run that saves in sync (`SyncedRunsKeepFileCopies`), nor does a process that
  has the project to itself (`OneProcessKeepsCopies`).
* The instance join is associative even across timestamp ties, because the sort is stable. Capping is not: a burst of more
  entries of one millisecond than the cap keeps shows it for every cap (`CapTieReordersEntries`), the 50 of the error ring
  among them (`RingReordersTies`). `CapThenJoinIff` says exactly when the order of capping and joining shows.
* In the global file memory wins key by key. A plain value in memory over a record on disk drops that record's sub-keys
  (`ShapeClashDropsSubKeys`); `SaveKeepsKeysIff` and `GlobalRunKeepsKeysIff` are the exact conditions for a save and for
  whole runs.
* A field the scan wrote and a static layer declared for a while goes when that layer drops it (`OverlapLosesAScanField`).
  `EntryResyncIff` and `RunsKeepScanPlusStaticIff` say exactly which resyncs and which runs lose nothing.
* `canonicalJson` prints a field that holds undefined as `null`, so it shares a fingerprint with an explicit null and not
  with an absent field (`UndefinedFieldReadsAsNull`); up to that the text determines the value.
* The Date constructor and Date.UTC read a year from 0 to 99 as 1900 to 1999. The next midnight is wrong for every instant
  of these years and exact for all others (`NextMidnightIff`). So are the window functions, which are also wrong for the
  first days of the year 100, before the reset day, whose window opens in the year 99 (`WindowHoldsNowIff`).
* `parseInformalZonedReset` does not check its minutes. "11:60pm" to "11:99pm" spill over midnight and can name an instant
  more than a day away; `InformalIsNextIff` says exactly when the answer is still the next occurrence.
* The usage log is cut to 30 days and a budget window can have 31. On the last day of such a window the spend counter can
  miss what was spent on the first; `CounterOutlivesTheLogIff` is the exact condition.
* A cached classification that is stored again while it is still held keeps its old place in the map, so that it can be
  evicted before entries used earlier. `EvictsLeastRecentlyUsedIff` says exactly when eviction is by use. Two overlapping
  classifications of one prompt produce the other case (`OverlapEvictsEarly`), and only they can: a prompt whose calls
  never overlap is never evicted before an entry used earlier (`EvictionIsByUse`).
* Repeated refs can end the round-robin early, with other refs never offered (`DuplicatesEndTheLoop`);
  `SelectionIsCompleteIff` says exactly when the selection is as long as it can be.
* The local probe's branch for an empty candidate list empties the stored list but leaves the fingerprint. A model that is
  removed and comes back within a day meets a matching fingerprint and an empty list, which is reused
  (`EmptiedListIsReused`), although the documentation at src/classifier-local-probe.ts:251-257 expects a probe when the
  candidate set changes. Over all sequences of catalogues and scans this is the only way a reused list can differ from
  what the last probe found (`ReuseIsLastProbeIff`).
* Merging a layer twice differs from merging it once exactly when the layer brings an exclude list with repeated items
  that the base did not have (`MergeTwiceIff`).

## Model

| member | source | states |
|---|---|---|
| PairStats.PairRecords | scripts/laya-pair-stats.ts:56-93 | the pairs are the greedy join of the sorted records, and both unpaired counts are the numbers of records left over |
| PairStats.JoinIsLegal | scripts/laya-pair-stats.ts:78-88 | the join is one-to-one, same-hash, inside the window and keeps the order of repeated prompts |
| PairStats.GreedyKeepsOrder | scripts/laya-pair-stats.ts:50-55 | among pairs of one hash an earlier laya record has an earlier comparator |
| PairStats.Exchange | scripts/laya-pair-stats.ts:78-88 | any matching can be rearranged to agree with one greedy choice at the cost of at most one pair |
| PairStats.GreedyIsMaximum | scripts/laya-pair-stats.ts:78-88 | no matching of what is left has more pairs than the greedy loop will make |
| PairStats.JoinIsMaximum | scripts/laya-pair-stats.ts:56-93 | no legal join of the log, chosen in any way, has more pairs than pairRecords |
| PairStats.CountsAreExact | scripts/laya-pair-stats.ts:89-93 | the two counts equal the numbers of acted laya records and comparators in no pair |
| PairStats.EachTakesTheFirst | scripts/laya-pair-stats.ts:78-88 | for every acted laya record and comparator of the log that may pair, the record gets that comparator or an earlier one, or an earlier record gets it |
| PairStats.SameShaSuffices | scripts/laya-pair-stats.ts:68-80 | searching only the list of the record's own hash finds the same comparator as searching all |
| InstanceLog.AppendInstanceArray | src/cache.ts:86-96 | the loop and the sort compute the join of disk and memory |
| InstanceLog.JoinCounts | src/cache.ts:75-96 | the join is sorted and each key occurs as often as on disk, or, if new, as often as in memory |
| InstanceLog.JoinKeys | src/cache.ts:75-96 | the join holds the keys of both sides and no others |
| InstanceLog.JoinAssociative | src/cache.ts:86-96 | which process merges first does not matter, ties included |
| InstanceLog.JoinAbsorbs | src/cache.ts:79-83 | a sorted file that already holds every memory key is left exactly as it is |
| InstanceLog.JoinIdempotent | src/cache.ts:79-83 | joining a sorted array with itself changes nothing |
| InstanceLog.CutThenJoin | src/cache.ts:234-239 | applying the 30-day cut before a join loses nothing a later cut would have kept |
| CapOrder.CapThenJoinIff | src/cache.ts:294-298 | keeping the newest n of (newest n of disk joined with memory) is keeping the newest n of the full join exactly when no memory entry at the boundary timestamp repeats a key that was cut, or at least n entries sort behind the last such entry |
| InstanceLog.JoinThenCap | src/cache.ts:227-231 | with one entry per timestamp, capping memory before the join costs nothing after the cap |
| InstanceLog.JoinRespectsNewest | src/cache.ts:227-231 | the capped join depends only on the newest entries of either side |
| InstanceLog.CapTieReordersEntries | src/cache.ts:294-298 | for every cap n and every n + 1 entries of one millisecond with different keys, written by two processes within the cap, capping in between keeps other entries than capping once |
| InstanceLog.RingReordersTies | src/cache.ts:227-231 | such a burst at the cap of 50 |
| CacheProtocol.StepKeepsGlobalInv | src/cache.ts:190-278 | every load, save, push and addition keeps "memory covers the file at its last-seen version" and removes no key from the file |
| CacheProtocol.GlobalFileNeverLosesKeys | src/cache.ts:248-278 | over every interleaving by any number of processes no key or sub-key leaves the global file |
| CacheProtocol.FreshWorldIsFine | src/cache.ts:190-204 | processes that have not loaded yet start in the invariant whatever the file holds |
| CacheProtocol.SaveKeepsKeysIff | src/cache.ts:248-278 | a save keeps every key and sub-key of the global file exactly when it reads the file into matching shapes, or skips the read and memory covers the file |
| CacheProtocol.GlobalRunKeepsKeysIff | src/cache.ts:248-278 | over a run no step drops a key or sub-key from the global file exactly when each save reads it into matching shapes or covers it |
| GlobalValues.LoadLetsMemoryWin | src/cache.ts:98-114 | a load that finds the global file changed keeps every value and shape of memory, takes from the file exactly the keys and record sub-keys memory lacks, and nothing else; another load changes no key |
| GlobalValues.MemoryWinsIsUnique | src/cache.ts:98-114 | these laws leave exactly one table |
| GlobalValues.SaveLetsMemoryWin | src/cache.ts:264-284 | after a save the global file holds exactly the values of memory without the volatile key, and memory has won against the file it read |
| GlobalValues.SavedLogs | src/cache.ts:274-287 | with a project the two logs leave the global file; without one they are written to it whole, memory's before the file's |
| GlobalValues.SavedValue | src/cache.ts:264-284 | the value a save leaves at any place, from memory and file before it |
| GlobalValues.RunKeepsValueIff | src/cache.ts:98-114 | no step of a run changes a value of the global file exactly when each saver holds that very value, or nothing of its own there and reads the file |
| GlobalValues.ValuesComeFromSavers | src/cache.ts:98-114 | a value in the file at the end of a run was there at the start or was held by a process that saved |
| GlobalValues.AddedValuesComeFromSavers | src/cache.ts:98-114 | in a run of additions a value of the file stays and changes only to one a saver held |
| CacheProtocol.ShapeClashDropsSubKeys | src/cache.ts:107-113 | a run of two fresh processes after which a save drops sub-keys: a plain value in memory over a record on disk |
| ProjectProtocol.SaveWrites | src/cache.ts:286-307 | the keys a save writes: those of memory, joined with the file's only if the file changed since the last sync |
| ProjectProtocol.SaveKeepsEntriesIff | src/cache.ts:286-307 | a save keeps the key of every live entry of the project file exactly when the file changed or memory covers it |
| ProjectProtocol.RunKeepsFileIff | src/cache.ts:248-307 | over a run no step drops the key of a live entry from the project file exactly when each save reads the file or covers it |
| ProjectProtocol.SecondSaveForgets | src/cache.ts:288-307 | a second save in a row writes only what the process itself holds |
| ProjectProtocol.TwoSavesLoseAnEntry | src/cache.ts:288-307 | a run from the first loads in which an entry in the file is lost by a second save |
| ProjectProtocol.BothLoadedIsReachable | src/cache.ts:190-242 | the starting point of that run is reached by two fresh processes loading |
| ProjectProtocol.SyncedRunsKeepKeys | src/cache.ts:206-307 | every run whose saves are made in sync keeps the key of each live entry of the file and of every memory |
| ProjectProtocol.LoadingBeforeSavingIsInSync | src/cache.ts:206-242 | a run that loads directly before each save makes every save in sync |
| ProjectProtocol.OneProcessKeepsKeys | src/cache.ts:28-34 | one process per project that loads once loses no key, however it pushes and saves afterwards |
| ProjectProtocol.RecordedKeysReachTheFile | src/cache.ts:248-307 | the key of an entry a process records and later saves is in the file at the end of every run that saves in sync, until the 30-day cut |
| CopyRuns.SaveCopies | src/cache.ts:286-307 | the copies of a live key a save writes: those of the file if the save reads it and finds some, else those of memory |
| CopyRuns.LoadCopies | src/cache.ts:206-242 | a load of news sets the copies in memory to those of the file if it has any, and leaves them alone otherwise |
| CopyRuns.StepKeepsCopiesIff | src/cache.ts:75-96 | a step loses a copy of a live key, from the file or a memory, exactly when a load meets news with fewer copies than memory has or a save that skips the read has fewer than the file |
| CopyRuns.RunKeepsCopiesIff | src/cache.ts:75-96 | no step of a run loses a copy exactly when none meets that condition |
| CopyRuns.SyncedRunsKeepFileCopies | src/cache.ts:206-307 | a run that saves in sync never lowers the copies of a live key in the file |
| CopyRuns.RecordedCopiesReachTheFile | src/cache.ts:78-83 | in a run that saves in sync and drops no copy, a recorded and later saved entry adds a copy of its own to the file |
| CopyRuns.OneProcessKeepsCopies | src/cache.ts:28-34 | one process per project that loads once loses no copy afterwards |
| CopyRuns.SecondRealEventIsLost | src/cache.ts:78-85 | a run, in sync throughout, in which one of two real events with one key is lost although the other process recorded neither |
| CapRuns.CappedFileIsNewestOfUncapped | src/cache.ts:220-307 | in every interleaving the capped error file is the newest entries of the file of a run that never caps |
| CapRuns.FreshWorldAgrees | src/cache.ts:220-242 | processes that have recorded nothing yet meet the starting condition, whatever errors of one per millisecond the file holds |
| CapRuns.DisciplinedErrorFile | src/cache.ts:220-307 | with saves in sync the error file is the newest entries of a log that lost neither an error of the file at the start nor one recorded and saved during the run |
| CacheManagement.CacheManager.LoadCache | src/cache.ts:190-204 | the memory, the sync marks and the object's identity after a load equal the protocol's load step |
| CacheManagement.CacheManager.LoadInstanceState | src/cache.ts:220-242 | the overlay of both instance logs, or nothing when the file is unchanged |
| CacheManagement.CacheManager.MergeExternalInto | src/cache.ts:104-114 | the loop over disk keys computes the merge in which memory wins and records are filled up |
| CacheManagement.CacheManager.SaveCache | src/cache.ts:264-307 | both files and the marks after a save equal the protocol's save step |
| CacheManagement.CacheManager.AddUsageLogEntry | src/cache.ts:420-427 | an append with the 30-day cut, then a save |
| CanonicalJson.CanonicalJsonIsInjective | src/dynamic-config.ts:395-405 | two values print the same text exactly when they are equal up to key order and undefined reading as null |
| CanonicalJson.ParsedValuesPrintApart | src/dynamic-config.ts:379-405 | parsed values print the same text exactly when they are equal |
| CanonicalJson.Unambiguous | src/dynamic-config.ts:395-405 | a printed value followed by a delimiter can be read back in one way only, through nesting and escapes |
| CanonicalJson.EscapeUnambiguous | src/dynamic-config.ts:400-402 | an escaped string followed by its closing quote can be read back in one way only |
| CanonicalJson.KeysAreSorted | src/dynamic-config.ts:399-401 | the keys are printed in code-unit order, each once |
| CanonicalJson.UndefinedFieldReadsAsNull | src/dynamic-config.ts:399-404 | a field that holds undefined shares its record's text with an explicit null, and never with a record that lacks the field |
| CanonicalText.LiteralsAre | src/dynamic-config.ts:395-405 | the texts of null, booleans, numbers, strings and empty arrays and objects |
| CanonicalText.ArrayGrows | src/dynamic-config.ts:396 | one more item is printed at the end, behind a comma unless it is the first |
| CanonicalText.ObjectGrows | src/dynamic-config.ts:397-403 | a field whose key follows all others is printed last, as quoted key, colon and value |
| CanonicalText.EscapedReadsBack | src/dynamic-config.ts:401-404 | a reader of JSON strings gets every escaped string back |
| CanonicalText.FormsAre | src/dynamic-config.ts:401-404 | which units take a short escape, which four lower-case digits, and which stand for themselves, surrogate pairs included |
| DynamicConfig.FieldLaw | src/dynamic-config.ts:577-671 | static values win field by field, dropped and undeclared authoritative fields disappear, all others are untouched |
| DynamicConfig.ScalarLaw | src/dynamic-config.ts:593-667 | exactly when an entry is a scalar after the resync |
| DynamicConfig.UnknownProvenancePrunesNothing | src/dynamic-config.ts:547-568 | without provenance only authoritative fields are pruned |
| DynamicConfig.MalformedPrunesNothing | src/dynamic-config.ts:547-617 | provenance that is missing, not an object or not a readable list for an entry prunes none of its fields but the authoritative one |
| DynamicConfig.ResyncIsPointwise | src/dynamic-config.ts:649-671 | a resync treats every entry on its own |
| DynamicConfig.ResyncIdempotent | src/dynamic-config.ts:635-673 | a second resync against the same layers changes nothing, with or without recorded provenance |
| DynamicConfig.StubsAreNotStatic | src/dynamic-config.ts:629-638 | a provider stub the scan put into the layers stays after the next resync because the snapshot was taken before; recorded as static it would be pruned |
| DynamicConfig.EntryResyncIff | src/dynamic-config.ts:577-671 | what the old static section gave an entry is replaced by what the new one gives, with nothing of the scan's lost, exactly when the new one still declares what the old one took over |
| DynamicConfig.RunsKeepScanPlusStaticIff | src/dynamic-config.ts:619-673 | over a run of scan additions and resyncs the section is at every point the scan's additions overlaid with the latest static section exactly when every resync still declares what it takes over and every addition agrees with the static section |
| DynamicConfig.ScanOnlyStart | src/dynamic-config.ts:619-673 | a file the scan just wrote, with no provenance yet, is a valid start of such a run |
| DynamicConfig.OverlapLosesAScanField | src/dynamic-config.ts:577-617 | a scan field that an earlier static section also declared is lost when that section drops it |
| DynamicResync.DynamicFile.PruneRemovedStaticEntries | src/dynamic-config.ts:577-617 | the two pruning loops compute the entry-wise pruning and report the entries removed |
| DynamicConfig.DroppedAreGone | src/dynamic-config.ts:577-617 | the entries reported as removed are gone, and every entry that is gone is reported |
| DynamicResync.DynamicFile.ResyncFromStatic | src/dynamic-config.ts:635-673 | the settings, sections and provenance after a resync with any snapshot of contributions, and the providers it dropped |
| DynamicResync.DynamicFile.ResyncOnLoad | src/dynamic-config.ts:638 | the same with the snapshot of the static config itself |
| DynamicConfig.RememberedRoundTrip | src/dynamic-config.ts:531-568 | a recorded contribution is read back as it was, through the checks for malformed provenance |
| GroupModels.CollapseSameSlugClusters | src/dynamic-config.ts:107-146 | one model per cluster in order of first appearance: its first canonical one, else its first |
| GroupModels.KeysAreTheClusters | src/dynamic-config.ts:134-145 | the kept models are one for each cluster that occurs |
| GroupModels.CollectGroupModels | src/dynamic-config.ts:261-318 | the admitted hand-listed refs followed by the chosen candidates |
| GroupModels.GroupIsDeduplicated | src/dynamic-config.ts:249-318 | every admitted hand-listed ref is kept, the rest is a subsequence of the candidates with one ref per free identity, every identity is represented, and by a canonical ref if there is one |
| GroupModels.SelectSwapped | src/dynamic-config.ts:305-309 | deleting the alias and appending the canonical ref is choosing anew among all candidates seen |
| GroupModels.AliasesGiveWay | src/dynamic-config.ts:271-309 | no alias of a slug is generated if some candidate bears the slug's own name |
| GroupModels.OnePerSlug | src/dynamic-config.ts:261-318 | generated refs have different slugs or signatures, none of them a hand-listed one's, and every other slug or signature of the candidates is represented |
| GroupModels.ClustersAre | src/dynamic-config.ts:134-145 | models of one provider and slug fall into one cluster, unmatched models of different refs never, nor do models of different slugs or providers without colons |
| GroupModels.KeptForCluster | src/dynamic-config.ts:134-145 | the model kept bears its slug's own name if any model of the cluster does, and is the first such, else the first |
| Refs.ModelIdIs | src/dynamic-config.ts:131 | the id is what stands after the last slash, or all of a ref without one |
| ConfigLoader.DeepMergeConfig | src/config-loader.ts:35-60 | the recursive loop computes the merge |
| ConfigLoader.PathLaw | src/config-loader.ts:35-60 | at every path outside the exclude block the override's value counts if it decides the path, else the base's, siblings untouched |
| ConfigLoader.LastLayerWins | src/config-loader.ts:91-125 | over any number of layers the last one that decides a path gives its value |
| ConfigLoader.UnionIs | src/config-loader.ts:42-44 | the union of two lists holds what either holds, base order first, no primitive twice |
| ConfigLoader.UnionGrows | src/config-loader.ts:42-44 | the union is built item by item, base first, each appended unless it is a primitive already there |
| ConfigLoader.ExcludeIsUnion | src/config-loader.ts:14-18 | every exclude list of the result is the union of that list over all layers, and absent only if all lack it |
| ConfigLoader.MergeTwiceIff | src/config-loader.ts:35-60 | merging a well-typed layer twice is merging it once exactly when no exclude list new to the base repeats an item |
| ConfigLoader.ConfigLayer.ValidateRemovedGroups | src/config-loader.ts:157-196 | the layer after the three loops, in place |
| ConfigLoader.CleanListIs | src/config-loader.ts:175-196 | a cleaned list holds exactly the known names and is deleted rather than emptied |
| ConfigLoader.LoadLayeredConfig | src/config-loader.ts:91-125 | at every path outside the exclude block and the validated blocks the config has the cleaned project file's value if it decides the path, else the cleaned global file's, else the defaults' |
| ConfigLoader.ProjectOverGlobalOverDefaults | src/config-loader.ts:91-125 | the same for every pair of files, readable or not, and every path |
| ConfigLoader.ExclusionsAddUp | src/config-loader.ts:14-18 | every exclude list of the loaded config is the union of those of the defaults, the global and the project file |
| ConfigLaws.CleanedAt | src/config-loader.ts:157-200 | in a cleaned layer removed groups are gone, fallback and expensive lists have lost the removed names or, with the last of them, themselves, and all other paths are untouched |
| ConfigLaws.LayaSettings | src/config-loader.ts:223-287 | the exact value of every setting of the Laya block after validation |
| ConfigLaws.MappingIs | src/config-loader.ts:297-315 | a category mapping keeps an entry exactly if it names one of the seven categories and a group of the config |
| ConfigLoader.LayaIsReadyOrOff | src/config-loader.ts:223-287 | after validation the stage is on exactly if it was on with a checkpoint and a loopback endpoint, then with every setting usable, and validating again changes nothing |
| ConfigLoader.CategoriesAreKnown | src/config-loader.ts:297-315 | the category mapping of the validated config keeps exactly the entries that name a known category and a group of that config |
| ConfigLoader.RemovedNamesLeaveTheDefault | src/config-loader.ts:146-154 | an expensive_groups list of removed names only leaves the list below standing |
| ConfigLoader.RemovedGroupsComeFromDefaults | src/config-loader.ts:140-174 | after loading, a removed group is a model group only if the shipped defaults have it |
| Escalation.SessionEscalation.RecordTurn | src/escalation.ts:231-276 | the fields after a turn and the call it dispatched |
| Escalation.SessionEscalation.CheckAndEscalate | src/escalation.ts:288-310 | at most one call in flight; dispatching consumes the pending flag and captures level and session |
| Escalation.SessionEscalation.OnVerdict | src/escalation.ts:311-321 | a verdict applies only to the level and session it was asked for |
| Escalation.SessionEscalation.OnFailure | src/escalation.ts:322-325 | a failed call clears the in-flight flag and nothing else |
| Escalation.SessionEscalation.Reset | src/escalation.ts:216-223 | everything but the in-flight flag is cleared and the session changes |
| Escalation.AtMostOneCallInFlight | src/escalation.ts:297-327 | in every interleaving at most one call is outstanding, and the flag says so |
| Escalation.StaleVerdictIsIgnored | src/escalation.ts:310-321 | a verdict on a call from before a reset leaves the level alone |
| Escalation.LlmEscalationsAreFresh | src/escalation.ts:253-321 | an LLM escalation comes from a call of the same session, dispatched after the latest streak escalation and not the first one after it |
| Escalation.LevelOnlyRises | src/escalation.ts:216-321 | between resets the level rises by at most one rank an event, by a streak or an LLM escalation only |
| Escalation.LevelIsPaidFor | src/escalation.ts:245-321 | the level never exceeds frustrated turns div 3 plus positive verdicts since the reset |
| EscalationRuns.StreakEscalatesIff | src/escalation.ts:245-268 | in every run a turn raises the level exactly when it is frustrated, has text, the level is not the highest, and the frustrated turns in a row up to it number 3, 6, 9 ...; a clean turn with text or a reset ends the row, other events do not |
| EscalationRuns.VerdictEscalatesIff | src/escalation.ts:297-321 | in every run a verdict raises the level exactly when it is positive, the level is not the highest, and since the dispatch there was no reset and no streak escalation, and the call was not the first after one |
| EscalationRuns.DispatchesIff | src/escalation.ts:270-310 | a turn dispatches a call exactly when a model is there, none is in flight and it is turn 2, 5, 8 ... of its session |
| Escalation.CallSeesLastTwoTurns | src/escalation.ts:231-289 | the history is the last ten turns and a dispatched call sees the last two, at turn counts 2, 5, 8 and so on |
| Calendar.NextMonth | src/budget-pacing.ts:82-83 | month lengths, leap years included, tile the day line (ECMA-262, section 21.4.1) |
| Calendar.FirstDayIsMarchCount | src/budget-pacing.ts:82-83 | the day of the first of every month equals a count of years that begin in March, with months of 153 days to five and the leap day last |
| Calendar.MonthLengthsAre | src/budget-pacing.ts:82-83 | the lengths of the twelve months |
| Calendar.FieldsRoundTrip | src/budget-pacing.ts:82-90 | a real date, with any month overflow, is read back from its day |
| BudgetPacing.WindowHoldsNowIff | src/budget-pacing.ts:78-115 | start ≤ now < end exactly when no year 0 to 99 is involved |
| BudgetPacing.WindowIsBetweenResets | src/budget-pacing.ts:73-115 | the start is the latest and the end the earliest midnight of the clamped reset day around now |
| BudgetPacing.WindowsTile | src/budget-pacing.ts:94-115 | every instant of a window maps to it and its end opens the next one, whatever months are short |
| BudgetPacing.TargetGrows | src/budget-pacing.ts:117-131 | the pace target is 0 exactly at the start, grows strictly and stays below the amount |
| BudgetPacing.ProviderSpend | src/budget-pacing.ts:137-156 | the loop sums exactly the charges of the provider since the window start |
| BudgetPacing.EntryAdds | src/budget-pacing.ts:137-156 | what one entry adds to the counter: nothing, its tokens, or its tokens at the price per million |
| Refs.ProviderIs | src/budget-pacing.ts:147 | the provider is what stands before the first slash, or all of a ref without one |
| BudgetPacing.PacedIs | src/budget-pacing.ts:117-188 | a provider is paced exactly when it has spent more than the share of its amount that matches the share of the window passed |
| BudgetPacing.IdleProviderStaysBehind | src/budget-pacing.ts:124-156 | a provider not ahead of pace stays so until the window ends if it spends nothing |
| BudgetPacing.NextWindowOpensEven | src/budget-pacing.ts:124-156 | at the end of a window nothing counts as spent and nobody is ahead |
| BudgetPacing.Pacer.PacedProviders | src/budget-pacing.ts:165-188 | the memo's set while it is usable, else the loop's exact set, and the memo afterwards |
| BudgetPacing.AnswerIsRecent | src/budget-pacing.ts:158-188 | in every run each answer is the exact set of a call with the same objects less than 30 seconds before, however the log grew |
| BudgetPacing.MemoSpares | src/budget-pacing.ts:165-188 | a call with the same objects less than 30 seconds after the memo was filled gets its answer |
| BudgetLog.CutIsHarmlessIff | src/budget-pacing.ts:137-156 | the counter over a cut log equals the counter over the full one for every log exactly when the cut lies before the window start or no ref of the provider is charged |
| BudgetLog.WindowLength | src/budget-pacing.ts:78-115 | a window has 31 days or at most 30, and the length of its first month for reset days up to 28 |
| BudgetLog.CounterOutlivesTheLogIff | src/cache.ts:420-427 | with the 30-day cut the counter is right for every log exactly until the last day of a 31-day window begins, or always if nothing is charged |
| Detection.ZonedReadsBack | src/detection.ts:237-280 | the instant found shows the requested date and time in the zone |
| Detection.InformalIsNextIff | src/detection.ts:347-392 | the result always exists, and is the next instant showing the reading, within a day, exactly when the minutes do not spill past midnight or the clock is past the spill |
| Detection.TimeOnlyIsNext | src/detection.ts:394-432 | a bare time resolves exactly when it is a clock reading, to the next instant showing it, within a day |
| Detection.TwelveHourClock | src/detection.ts:409-413 | 12 AM is midnight, 12 PM noon, the other marked hours as on a twelve-hour clock, unmarked ones as they stand |
| Detection.NextMidnightIff | src/detection.ts:497-506 | the candidate is always later than now, and is the least midnight after it exactly outside the years 0 to 99 |
| ClassifyCache.Cache.ClassifyCacheGet | src/content-classifier.ts:329-342 | the entry returned and the map afterwards: moved to the end, deleted if expired |
| ClassifyCache.Cache.ClassifyCacheSet | src/content-classifier.ts:344-363 | the map afterwards: unchanged for barred results, else evicted if full and written |
| ClassifyCache.HitIsLatestWrite | src/content-classifier.ts:200-208 | after every run a hit is the latest result stored for that prompt, at most five minutes old, and at most 64 entries are held |
| ClassifyCache.MissIff | src/content-classifier.ts:329-338 | a get misses exactly when the prompt is not held or its latest result has expired |
| ClassifyCache.RecentlyPlacedIsHeld | src/content-classifier.ts:339-356 | a prompt placed by one of the last 64 operations is still held unless a later get found it expired |
| ClassifyCache.EvictedWasPlacedFirst | src/content-classifier.ts:350-354 | a full map evicts the entry placed longest ago, never one placed by the last 63 operations |
| ClassifyCache.EvictsLeastRecentlyUsedIff | src/content-classifier.ts:200-208 | the entry evicted next was used before another held entry exactly when no operation since that entry's last use overwrote it in place |
| ClassifyCache.OverwrittenKeyIsEvictedEarly | src/content-classifier.ts:350-362 | a run of gets and sets after which the full map would evict an entry used later than another |
| ClassifierChain.Classifier.CloudCandidates | src/content-classifier.ts:1076-1114 | the list built step by step is the first non-empty source with the pin moved to the front and excluded refs removed |
| ClassifierChain.CandidatesAre | src/content-classifier.ts:1096-1114 | exactly the offered or pinned refs that are not excluded are asked, an allowed pin first and once |
| ClassifierAnswers.CandidatesInOrder | src/content-classifier.ts:1076-1114 | the candidates in order: an allowed pin, then the probed list, else the discovered, else the free one, without pin and excluded refs |
| ClassifierChain.Classifier.TryCloud | src/content-classifier.ts:1071-1290 | the loop over the candidates computes the cloud leg |
| ClassifierChain.CloudLegIsFirst | src/content-classifier.ts:1132-1290 | the cloud leg answers with the first candidate that has a usable answer, and fails only if none has |
| ClassifierChain.ExcludedNeverAnswers | src/content-classifier.ts:1105-1114 | no excluded ref ever answers, from whichever list it came |
| ClassifierChain.Classifier.TryOllama | src/content-classifier.ts:964-1055 | the answer of the primary or the retry target, and the model newly marked |
| ClassifierChain.Classifier.BeginCall | src/content-classifier.ts:785-875 | the result found before the first await, and the cache after the read |
| ClassifierChain.Classifier.FinishCall | src/content-classifier.ts:1305-1455 | the result of the first leg that answers, and the cache after the write, whatever the cache has become in between |
| ClassifierChain.Classifier.ClassifyPrompt | src/content-classifier.ts:592-618 | both halves without another call in between, with a continue replaced by the previous category |
| ClassifierChain.StoredIsContextFree | src/content-classifier.ts:371-405 | what a call writes is its models' answer to the prompt alone, never a function of the previous category, and nothing with a context block |
| ClassifierChain.ConversationsStoreTheSame | src/content-classifier.ts:371-405 | two calls that differ in the previous category leave the same cache behind, once both go to the models |
| ClassifierAnswers.ModelAnswerIsFirst | src/content-classifier.ts:1128-1340 | the models' answer is made of the first usable reply in the order cloud candidates, primary, fallback |
| ClassifierAnswers.FirstUsableReplyDecides | src/content-classifier.ts:391-405 | a valid reply without a confidence or with one of at least 0.5 is the result and, without a context block, what the cache answers for five minutes; one below is replaced by the previous category or continue and leaves the cache alone |
| ClassifierAnswers.NoUsableReplyFallsBack | src/content-classifier.ts:1320-1345 | without a usable reply the static result or continue, and no cache write |
| ClassifierAnswers.LayaDecides | src/content-classifier.ts:1409-1448 | an acting Laya stage decides before any model and is cached |
| ClassifierAnswers.EarlyLegs | src/content-classifier.ts:785-856 | a hint, a compaction and a prompt of at most four words after a category are answered in this order without cache or model |
| ClassifierAnswers.CacheBeforeModels | src/content-classifier.ts:859-875 | past those legs a cached result is used as it stands |
| ClassifierAnswers.ContinueIsReplaced | src/content-classifier.ts:673-696 | a continue takes over a previous category other than continue, and every other result is returned as it is |
| ClassifierAnswers.MarksOnlyItsPrimary | src/content-classifier.ts:1003-1055 | the one model newly marked is the primary that was asked and rejected structured output |
| ClassifierRuns.StepsAreCalls | src/content-classifier.ts:867-875 | the events of a run do to the cache what the two halves of a call do |
| ClassifierRuns.CacheHoldsOnlyModelAnswers | src/content-classifier.ts:344-363 | however calls overlap, each cached result is what the models of some begun call said about that very prompt |
| ClassifierRuns.EvictionIsByUse | src/content-classifier.ts:200-208 | if calls for the prompt to be evicted next never overlapped, every other entry was used after it, however other calls overlapped |
| ClassifierRuns.OverlapEvictsEarly | src/content-classifier.ts:350-362 | two overlapping calls for one prompt, in a run of 65 calls for any turn an active Laya answers, make the full map evict an entry used later than another |
| ClassifierChain.NeverContinueAgain | src/content-classifier.ts:673-696 | in a conversation that feeds its categories back, continue never returns after another category |
| FallbackProbe.SelectClassifierCandidates | src/classifier-fallback-probe.ts:223-331 | the tiers, the sorts and the loops compute the deduplicated round-robin, cut to the maximum |
| FallbackProbe.RoundRobin | src/classifier-fallback-probe.ts:297-330 | for every input, duplicates included: whole rounds up to the first that brings nothing new, first occurrences only, cut to the maximum |
| FallbackProbe.SelectionIsComplete | src/classifier-fallback-probe.ts:297-330 | without duplicates it returns min(maximum, total) distinct refs, all of them ranked |
| FallbackProbe.StallsIff | src/classifier-fallback-probe.ts:317-328 | a round brings nothing new exactly when each provider's list that long repeats an earlier place of itself |
| FallbackProbe.SelectionIsCompleteIff | src/classifier-fallback-probe.ts:297-330 | for every input the loop stops at the first place where each list repeats itself, and as many distinct refs as there are, up to the maximum, come back exactly when the places before it hold the maximum or every later place is a repeat |
| FallbackProbe.SelectionIsFair | src/classifier-fallback-probe.ts:285-330 | at every point each provider has given a prefix of its list, and one with refs left is at most one pick behind any other |
| FallbackProbe.SelectionInOrder | src/classifier-fallback-probe.ts:297-330 | of two selected refs the first stands at an earlier place of its provider's list, or at the same place with its provider earlier |
| FallbackProbe.ProvidersInOrder | src/classifier-fallback-probe.ts:286-296 | a provider is earlier if one of its refs precedes all of the other's |
| FallbackProbe.PicksAre | src/classifier-fallback-probe.ts:286-296 | a provider's list is its refs in their order |
| FallbackProbe.RoundsPermute | src/classifier-fallback-probe.ts:297-330 | all rounds together are the ranked refs rearranged, with their multiplicities |
| FallbackProbe.RankedIsDistinct | src/classifier-fallback-probe.ts:236-314 | a catalogue without repeats puts every model in exactly one tier, or none, and ranks it once |
| FallbackProbe.RankedIs | src/classifier-fallback-probe.ts:223-296 | the ranked refs are the affordable models of a known low score by price and score, then the other affordable ones by price, then those free of charge in catalogue order; local, barred and dearer models are not ranked |
| FallbackProbe.DuplicatesEndTheLoop | src/classifier-fallback-probe.ts:317-328 | a catalogue of three free models, one of them twice, for which the loop stops before a ref it never offered |
| LocalProbe.LocalProbeCache.ProbeLocalClassifierCandidates | src/classifier-local-probe.ts:138-221 | the list returned and the marks, working list and fingerprint afterwards, for every branch |
| LocalProbeLaws.WorkingListIs | src/classifier-local-probe.ts:178-210 | after a probe the working list is the first three candidates of the shortlist that get every case right |
| LocalProbeLaws.MarksAre | src/classifier-local-probe.ts:178-205 | a candidate that is asked loses its mark if it passes, is marked if it refuses structured output before any wrong answer, and keeps its mark otherwise, as does every model not asked |
| LocalProbeLaws.FingerprintIs | src/classifier-local-probe.ts:207-220 | the fingerprint names the end of the probe and the candidates unmarked by then |
| LocalProbeLaws.ShortlistIs | src/classifier-local-probe.ts:95-118 | the shortlist is the first six selectable models, sized ones first and smaller before larger, then by name |
| LocalProbeLaws.ListIsYoung | src/classifier-local-probe.ts:44-55 | over every sequence of catalogues and scans, a scan with candidates and the daemon up probes, or is unforced and relies on a probe of these candidates that ended less than a day before |
| LocalProbeLaws.YoungListIsReused | src/classifier-local-probe.ts:150-159 | such a list spares an unforced scan the probe |
| LocalProbeLaws.NobodyAsked | src/classifier-local-probe.ts:160-176 | a scan with the daemon down changes nothing, one without candidates empties the list and nothing else |
| LocalProbeRuns.ProbesPerDay | src/classifier-local-probe.ts:48-55 | within a day unforced scans probe at most once, plus once per newly marked model and per lapsed mark; without live marks at the start at most once more than there are eligible models |
| LocalProbeRuns.SmallCatalogueReuses | src/classifier-local-probe.ts:207-215 | with at most six eligible models the scan after a probe reuses it, whatever the probe marked |
| LocalProbeRuns.SmallCatalogueProbes | src/classifier-local-probe.ts:207-215 | so then only lapsed marks cost a further probe |
| LocalProbeRuns.FilterSort | src/classifier-local-probe.ts:100-115 | filtering before or after the candidate sort gives the same order |
| LocalProbeRuns.ReuseIsLastProbeIff | src/classifier-local-probe.ts:138-221 | over every sequence of catalogues and scans a reusing scan gets the last probe's list exactly when that list is empty or no scan in between found no candidate |
| LocalProbeRuns.EmptiedListIsReused | src/classifier-local-probe.ts:150-166 | a run from the empty state: a model is probed and works, is removed, and comes back within a day, and the empty list is reused without a probe |

## Left out

- PairRecords: does not model timestamps or windows that parse to NaN, for which the comparisons of the sort and of the window are all false.
- SaveCache: takes the read and the two writes as one step; another process writing between the version check and the rename is not modelled.
- LoadCache: takes an unreadable or torn file as empty content at its version; JSON parsing is not part of this model.
- GlobalFileNeverLosesKeys: covers runs without deletions and with one value shape per key; deletions and resetCache void it by design.
- CappedFileIsNewestOfUncapped: needs one error per millisecond, because ties at the cap boundary can change which entry stays.
- RunKeepsCopiesIff: counts errors in a run without the cap, which removes copies by design; entries that share a key are not told apart by the fields the key leaves out.
- RunsKeepScanPlusStaticIff: is about scan entries as the scan writes them, records without the authoritative field.
- CanonicalJsonIsInjective: takes a number as its printed token; that different numbers have different tokens is ECMA-262's Number::toString.
- ZonedReadsBack: takes a constant offset in whole seconds; the hour of a DST transition, which the code itself calls approximate, is not modelled.
- InformalIsNextIff: starts from the matched numbers; the regular expressions, and parseDatedZonedReset with its month names, are not part of this model.
- TargetGrows: computes over exact numbers, without the rounding of doubles; instants beyond the range of a Date are not modelled.
- ProviderSpend: takes effective prices as a function of the ref.
- PacedProviders: takes the valid budgets of a config as given; validBudget checks single fields.
- ClassifyPrompt: takes the answers of cloud, local and Laya models as part of the turn, and the previous category as one snapshot per call; timers, traces, the decision log and the detached comparator, which neither reads nor writes the cache, are not modelled.
- CloudCandidates: takes the three lists and the exclusion rules' verdicts as given; an exception while a list is built ends the leg and is not modelled.
- EvictsLeastRecentlyUsedIff: counts a stored result that overwrites a held one as a use, and a get that finds its entry expired as none.
- ProbeLocalClassifierCandidates: takes each reply as right, wrong or rejected with 501; the fingerprint comparison is on the lists, not on their joined text.
- DeepMergeConfig: does not model the order of an object's keys.
- LoadLayeredConfig: takes the URL check of the Laya endpoint and the number comparisons as given, and an endpoint that is not a text as invalid.
- ExcludeIsUnion: is about layers whose exclude block holds lists of primitives; objects in a Set are compared by identity and never deduplicated.
- SelectClassifierCandidates: takes health, blocklist, exclusion and price lookups as facts about a model.
- GroupIsDeduplicated: takes slug matching, normalisation, token signatures and the group gates as functions.
- The wall clock of a scan, sha1 and its truncation, frustration wording and trimming: passed in or replaced by the text that is hashed.
- Fallback groups, registry provider stubs, local pins and chain resolution: short branch code without a property across functions.
- Commands, footer, cost report, context budget and compaction, rate-limit wording: formatting and string tables.
