# Verification of the bookkeeping in sai3-bench

sai3-bench drives object stores and file systems with a configured load and reports what happened.
This project models the bookkeeping around the I/O and proves what it promises: which object writes a
crash can lose, when a checkpoint brings a run back, when a LIST may be skipped, that a prefetch
pipeline delivers every URI once, that n agents clean up every file once, that results of many workers
add up, and that configurations are read and rewritten without changing their meaning.

| module | file | part of the program |
|---|---|---|
| FlushProtocol | flush_protocol.dfy | concurrent writers, `maybe_flush` and `force_flush` as atomic steps |
| Recovery | recovery.dfy | crash, checkpoint and restore histories of one endpoint's caches |
| ObjectCache | object_cache.dfy | `EndpointCache`: the key-formatted store and its scans |
| Coverage | coverage.dfy | `MetadataCache`: routing over endpoints and the LIST-skip test |
| SequentialPrepare | sequential_prepare.dfy | the LIST-skip test asked by a prepare of several pools |
| Prefetch | prefetch.dfy | the metadata prefetch pipeline |
| DirectoryTrees | directory_tree.dfy | the width^depth directory tree |
| TreeManifests | tree_manifest.dfy | file ranges, the O(1) index-to-path lookup, file names |
| Cleanup | cleanup.dfy | who deletes what, and what n agents deleting at once add up to |
| Histograms | histograms.dfy | size-bucketed latency histograms |
| Summaries | summaries.dfy | splitting work over workers and merging their results |
| LiveStats | live_stats.dfy | concurrent counters with lossy sampling |
| Stages | stages.dfy | stage validation, ordering and barrier defaults |
| ConfigConverter | converter.dfy | stages for legacy configurations |
| ConfigText | config_text.dfy | inserting a block into a configuration's text |
| Namespaces | namespaces.dfy | per-agent URI prefixes |
| Autotune | autotune.dfy | trial numbers and the objects each trial writes |
| Text, Sequences, Arithmetic | text.dfy, sequences.dfy, arithmetic.dfy | decimal text, searches, bags of elements, quotients |

Concurrency is modelled as a state machine over atomic steps: a run is a sequence of steps, each
enabled when its turn comes, and a theorem about runs covers every interleaving. Objects the program
updates in place are classes (`EndpointCache`, `MetadataCache`, `DirectoryTree`, `TreeManifest`,
`Config`) or arrays (histogram storage, which clones of a summary share); their methods are proved
against specification functions and the theorems are about those functions. Strings are sequences of
characters, machine words are `usize` where a number is parsed or indexes a file, and every other
counter is unbounded.

What is assumed of the libraries: the key-value store is an insert/get map; `persist` makes all earlier
inserts durable; archiving and unpacking a directory are inverse; channels are bounded FIFO queues; a
histogram is the bag of the values it recorded, drops a value it cannot hold, and refuses to add a
histogram with such a value.

## Where the code does not do what its text says

Each of these is a theorem below: the exact condition under which the code does what is meant, or, for
flushing, a bound that is reached.

- A restore replaces a local cache even when that cache is newer, although the comment at
  `src/metadata_cache.rs:534-540` says otherwise: flushed writes survive a crash only if the stored
  archive already contains them (`Recovery.FlushedWritesSurvive`, `Recovery.NewerFlushIsRolledBack`).
- A checkpoint for a cloud URI without a trailing slash is written where no restore looks for it
  (`Recovery.UploadIsFound`, `Recovery.CheckpointIsRecoverable`).
- The default policy, `AsyncInterval`, has no flusher behind it: without a forced flush nothing is ever
  persisted (`FlushProtocol.AsyncNeverPersists`). A failed `persist` forgets the writes it was to cover
  (`FlushProtocol.FailedPersistsForget`).
- A periodic archive that lands after the final checkpoint replaces it: the checkpoint is restored in
  all continuations exactly when every archive still in flight holds the same state
  (`Recovery.FinalCheckpointIsExact`, `Recovery.LateUploadRollsBack`). Prepare aborts the periodic task
  first, which drops a cloud upload but does not stop a file write that a blocking thread has begun
  (`src/metadata_cache.rs:1951-2025`), so on file:// and direct:// endpoints the condition can fail.
- The LIST-skip test can be trusted exactly when no index beyond the expected range can have been
  recorded (`Coverage.StrayIndexFoolsTheTest`).
- All pools of a prepare share the cache entries of one configuration hash, so sequential prepare skips
  a pool when at least as many objects were uploaded for earlier ones, and leaves its objects out; with
  separate read-only and deletable pools of one size that is the second, on empty storage (`SequentialPrepare.PreparesAllIff`,
  `SequentialPrepare.TwoPoolsRiseIff`).
- A consumer that drops its receiver can leave the prefetch pipeline waiting forever, exactly when
  there are more than three URIs per worker (`Prefetch.LeakIffManyUris`).
- A directory mask without two `%d` gives different directories the same path
  (`DirectoryTrees.PathsDistinctIff`, `TreeManifests.RangesFoundIff`), and a mask with a slash hides the bottom level from the manifest
  (`TreeManifests.BottomIsLastLevelIff`).
- A file name with a dot before its first dash makes flat-mode cleanup panic
  (`Cleanup.DotBeforeDashPanics`). Tolerant cleanup returns Ok even when the store refused deletes
  (`Cleanup.AllAgentsOkIff`).
- One operation past the 60-second bound (which the histogram library rounds up) on any of several
  worker threads makes the merge of all results fail, because the histogram behind the percentiles cannot hold it; over processes it does not
  (`Summaries.MergeSummaries`, `Summaries.SlowSamples`).
- Merging over threads does not add the metadata bytes of all but the first worker
  (`Summaries.MetaBytesOverThreads`).
- A second line that starts with `distributed:` after the end of the first such section gets the stages
  block a second time (`ConfigText.InsertedOnceIff`, `ConfigText.SecondHeaderDuplicates`).
- The stages block is written at indent two whatever the section's own indent is, and belongs to the
  section only when that is two as well (`ConfigText.BlockLandsInside`).
- The hours branch of the duration formatter is never taken (`ConfigConverter.DurationRoundTrip`).
- With a target that does not end in a slash and an agent prefix that does, or the other way round,
  per-agent data is prepared under one path and read under another (`Namespaces.PreparedWhereReadIff`).

## Model

| member | source | states |
|---|---|---|
| FlushProtocol.StepStaysAccounted | src/metadata_cache.rs:1331-1373 | Every atomic step of any thread keeps the ledger: a write that is not durable is still counted, or in the hands of a thread that has yet to count it or to persist |
| FlushProtocol.RunStaysAccounted | src/metadata_cache.rs:1331-1373 | The ledger holds after any interleaving of any number of writers and force-flush callers |
| FlushProtocol.AtMostThresholdMinusOneLost | src/metadata_cache.rs:1331-1373 | From a flushed start under a fixed Immediate or BatchSize(t) policy, whenever no call is in progress and the last persist succeeded, at most t-1 completed writes (none for Immediate) are not durable, although fetch_add, store(0) and persist interleave |
| FlushProtocol.LostAfterUncountedStart | src/metadata_cache.rs:1378-1381 | After a change of policy, which zeroes the count and flushes nothing, at most t-1 writes besides the ones then unflushed are not durable in any quiescent state, and none of those once a flush has covered them |
| FlushProtocol.PolicyChangeBoundIsReached | src/metadata_cache.rs:1378-1381 | That bound is tight: the writes counted under the old policy stay behind with t-1 new ones |
| FlushProtocol.ForceFlushCovers | src/metadata_cache.rs:1364-1375 | When a forced flush returns without an error, everything recorded before the call is durable, whatever other threads did in between and do afterwards |
| FlushProtocol.UncountedWrites | src/metadata_cache.rs:857-868 | Below the threshold any number of writes complete without a persist |
| FlushProtocol.BoundIsReached | src/metadata_cache.rs:1338-1349 | The bound is tight: some run leaves exactly t-1 completed writes behind |
| FlushProtocol.AsyncNeverPersists | src/metadata_cache.rs:1350-1358 | Under AsyncInterval no run without a forced flush makes anything durable |
| FlushProtocol.AsyncLossIsUnbounded | src/metadata_cache.rs:1350-1358 | Hence under the default policy any number of completed writes can be lost |
| FlushProtocol.FailedPersistsForget | src/metadata_cache.rs:1340-1347 | The counter is reset before persist is tried: n failed persists leave n*t writes behind with the counter at 0, so the bound needs the last persist to succeed |
| Recovery.ArchiveNameInjective | src/metadata_cache.rs:1446-1475 | Different agent ids, and no id, have different archive names |
| Recovery.CheckpointLocationInjective | src/metadata_cache.rs:685-760 | Two (endpoint, agent) pairs have the same archive location if and only if they are the same agent on endpoints that differ at most by a final slash |
| Recovery.LocationsDistinct | src/metadata_cache.rs:1660-1705 | On one endpoint no two agents share the location they write to or the one they read from |
| Recovery.SchemesDecide | src/metadata_cache.rs:1536-1705 | s3, az and gs URIs are concatenated with the archive name as they are; file and direct URIs get a slash in between |
| Recovery.UploadIsFound | src/metadata_cache.rs:1660-1705 | A restore looks where the checkpoint was written if and only if the URI is local or ends in a slash; otherwise it looks where no agent ever writes |
| Recovery.StepKeepsConsistent | src/metadata_cache.rs:542-628 | Every step (open, write, flush, crash, any number of periodic captures landing in any order, final checkpoint) keeps all that is stored or about to be stored a prefix of the agent's own history |
| Recovery.RunKeepsConsistent | src/metadata_cache.rs:542-628 | The same over whole histories of any number of agents |
| Recovery.ReopenedIsPrefix | src/metadata_cache.rs:542-628 | After any history a reopened cache is a prefix of what the agent recorded: the stored archive if there is one, taken by a capture or checkpoint of that agent and holding everything that was durable just before it, else everything that is durable |
| Recovery.CaptureHoldsDurable | src/metadata_cache.rs:1951-1975 | A periodic capture puts one archive in flight that has everything durable at that moment and nothing that was not recorded |
| Recovery.EverythingWasTaken | src/metadata_cache.rs:1840-1948 | In every run all that is stored or in flight for an agent was taken by a step of that agent, with everything durable just before that step |
| Recovery.FlushedStaysDurable | src/metadata_cache.rs:1364-1375 | What was recorded before a flush stays in the log and durable until the session ends, whatever any agent does |
| Recovery.CaptureCoversFlush | src/metadata_cache.rs:1840-1948 | A capture any time after a flush of the same session archives everything recorded before the flush |
| Recovery.LastLandedIsRestored | src/metadata_cache.rs:685-828 | The archive that landed last is what the next open restores |
| Recovery.FlushedWritesSurvive | src/metadata_cache.rs:685-828 | The flushed writes of a crashed session come back if and only if storage holds no archive or one that contains them all |
| Recovery.NewerFlushIsRolledBack | src/metadata_cache.rs:685-828 | After any checkpoint one more flushed write and a crash: reopening yields the checkpoint without that write |
| Recovery.OtherAgentsUntouched | src/metadata_cache.rs:1446-1533 | No step of another agent changes an agent's session or archive, nor does a step of its own other than an upload |
| Recovery.ArchiveIsSealed | src/metadata_cache.rs:1446-1533 | After the final checkpoint, when every archive in flight holds the same content, no step short of a reopen changes what the agent's archive holds |
| Recovery.FinalCheckpointIsExact | src/metadata_cache.rs:1446-1533 | After a successful write_checkpoint the next open restores exactly the checkpointed state, whatever follows short of a reopen, if and only if every periodic archive still in flight holds that state too |
| Recovery.LateUploadRollsBack | src/metadata_cache.rs:1840-1948 | Any captured archive that lands after the final checkpoint replaces it, and the next open restores what was captured |
| Recovery.LateUploadHappens | src/metadata_cache.rs:1840-1948 | From every open session a capture, one more write and a flush lead to a final checkpoint that is not always restored |
| Recovery.CheckpointIsRecoverable | src/metadata_cache.rs:1446-1533 | A final checkpoint can be restored if and only if its URI is local or ends in a slash, or there was nothing to restore |
| ObjectCache.KeyBelongsToOneHash | src/metadata_cache.rs:993-1022 | For colon-free hashes a key starts with a hash's prefix if and only if it is of that hash, and its rest parses back to the index, however many digits it has |
| ObjectCache.KeyInjective | src/metadata_cache.rs:857-868 | For colon-free hashes different (hash, index) pairs have different keys |
| ObjectCache.ColonHashesCollide | src/metadata_cache.rs:993-1022 | A hash with a colon in it breaks the separation |
| ObjectCache.RunStaysWellTimed | src/metadata_cache.rs:857-978 | After any sequence of plan, mark and record calls created entries carry a timestamp and planned entries neither timestamp nor checksum |
| ObjectCache.OpEffects | src/metadata_cache.rs:856-977 | Field by field, what each of the six operations leaves at its slot: path, size, state, endpoint, timestamp and checksum set or kept; a missing slot stays missing where the call needs one; no other slot changes |
| ObjectCache.BatchIsPlanned | src/metadata_cache.rs:1122-1145 | After a batch of different indices each is planned with its own path and size, and nothing else changed |
| ObjectCache.PutRepresents | src/metadata_cache.rs:857-868 | Inserting under the formatted key is inserting at (hash, index) in the abstract table |
| ObjectCache.LookupAgrees | src/metadata_cache.rs:980-990 | A key is present exactly when the table has the entry |
| ObjectCache.TalliesStep | src/metadata_cache.rs:1058-1112 | One key of a scan is counted, with its size, under its state if it is of the hash, and not at all otherwise |
| ObjectCache.ListsStep | src/metadata_cache.rs:993-1022 | One key of a scan is listed under its parsed index if it is of the hash and state, and not otherwise |
| ObjectCache.WriteIsProtocolRun | src/metadata_cache.rs:1331-1361 | A write with no other thread about is a run of the concurrent protocol with the effect the class method states |
| ObjectCache.EndpointCache.MaybeFlush | src/metadata_cache.rs:1331-1361 | What becomes durable and what stays pending, for each policy |
| ObjectCache.EndpointCache.GetObject | src/metadata_cache.rs:980-990 | Returns the table's entry for (hash, index) |
| ObjectCache.EndpointCache.PlanObject | src/metadata_cache.rs:856-868 | The table gets a planned entry at (hash, index) and the write is followed by the policy's flush |
| ObjectCache.EndpointCache.MarkCreating | src/metadata_cache.rs:871-884 | An existing entry becomes Creating with everything else kept; a missing one stays missing; no other entry changes; the flush policy runs either way |
| ObjectCache.EndpointCache.MarkCreated | src/metadata_cache.rs:887-909 | An existing entry becomes Created with a timestamp (now unless given) and the given checksum; a missing one changes nothing |
| ObjectCache.EndpointCache.MarkFailed | src/metadata_cache.rs:912-921 | An existing entry becomes Failed with everything else kept; a missing one stays missing; no other entry changes |
| ObjectCache.EndpointCache.MarkDeleted | src/metadata_cache.rs:924-933 | An existing entry becomes Deleted with everything else kept; a missing one stays missing; no other entry changes |
| ObjectCache.EndpointCache.RecordCreated | src/metadata_cache.rs:946-977 | The entry is Created with a timestamp, keeping an existing entry's path, size and endpoint |
| ObjectCache.EndpointCache.PlanObjectsBatch | src/metadata_cache.rs:1122-1155 | The table is as after planning the objects one by one, and everything is durable |
| ObjectCache.EndpointCache.GetObjectsByState | src/metadata_cache.rs:993-1022 | Returns exactly the entries of the hash in that state, each index once |
| ObjectCache.EndpointCache.CountAndBytesByState | src/metadata_cache.rs:1058-1112 | Counts and byte totals per state equal those of the table's entries of the hash; states without entries are absent |
| ObjectCache.EndpointCache.CountByState | src/metadata_cache.rs:1026-1050 | The same counts as the combined scan |
| Coverage.CountIsIndices | src/metadata_cache.rs:2512-2538 | When all writes were routed, the summed per-endpoint counts equal the number of indices created on their owning endpoint |
| Coverage.CoverageIsExact | src/metadata_cache.rs:2694-2715 | When all writes were routed, at least N created entries in total if and only if every index below N is created on its owning endpoint |
| Coverage.RouteAllStaysRouted | src/metadata_cache.rs:2400-2403 | Every sequence of operations through endpoint_for_file with indices below N keeps all entries below N and on their owners |
| Coverage.ListSkipIsSound | src/metadata_cache.rs:2841-2854 | Over every run of routed operations from empty caches the coverage test passes if and only if every object is created where it belongs |
| Coverage.StrayIndexFoolsTheTest | src/metadata_cache.rs:2841-2854 | For every set of indices that includes the expected range: in all routed runs over the set a passing test means every object is created where it belongs, if and only if the set has no index beyond the range |
| Coverage.StrayRun | src/metadata_cache.rs:2841-2854 | For every stray index a run over the expected range and that index whose test passes while an expected object is missing |
| Coverage.HoldsCount | src/metadata_cache.rs:2512-2538 | When a set of indices is created on its owners, the summed count is its size |
| Coverage.SumsStep | src/metadata_cache.rs:2512-2538 | Adding one endpoint's scan to the running totals gives the totals over one endpoint more, for every state |
| Coverage.TrackedAnywhere | src/metadata_cache.rs:2841-2854 | The aggregated map is empty exactly when no endpoint has an entry of the hash |
| Coverage.ReportIsExact | src/metadata_cache.rs:2694-2715 | The created, planned and failed counts are those of the endpoints' entries in these states, and the tracked count is the number of all entries of the hash |
| Coverage.MetadataCache.AggregateCoverage | src/metadata_cache.rs:2512-2538 | Counts and byte totals per state are the sums over all endpoints |
| Coverage.MetadataCache.RecordCreated | src/prepare/sequential.rs:589-600 | After an upload the owning endpoint records the object and no other endpoint changes: the routed operation the run theorems are about |
| Coverage.MetadataCache.CheckListingCoverage | src/metadata_cache.rs:2841-2854 | None exactly when nothing is tracked; otherwise the counts by state and in all are those of the endpoints' entries and, when writes were routed, covers_all holds exactly when N is positive and every index below N is created on its owner |
| SequentialPrepare.PreparePool | src/prepare/sequential.rs:120-345 | One pool: with enough created entries nothing is listed or uploaded, otherwise every missing index is uploaded and recorded |
| SequentialPrepare.PrepareSequential | src/prepare/sequential.rs:48-345 | The loop over all pools on one cache computes the outcome the following theorems are about |
| SequentialPrepare.RisingIsComplete | src/prepare/sequential.rs:120-345 | When every non-empty pool is larger than all before it, every pool ends up with all its objects, whatever storage held |
| SequentialPrepare.SmallerIsSkipped | src/prepare/sequential.rs:120-345 | On empty storage a pool no larger than an earlier one is skipped and stays empty |
| SequentialPrepare.PreparesAllIff | src/prepare/sequential.rs:48-345 | Every pool ends up with all its objects, for all contents of storage, if and only if every non-empty pool is larger than all pools before it |
| SequentialPrepare.TwoPoolsRiseIff | src/prepare/sequential.rs:50-55 | With separate read-only and deletable pools of equal size that is so only when nothing is to be prepared |
| SequentialPrepare.RecordedAreUploads | src/prepare/sequential.rs:589-600 | What is recorded as created is exactly what the run uploaded: listed objects are not recorded |
| Prefetch.StepConserves | src/metadata_prefetch.rs:75-132 | Every step of feeder, workers, pipeline task or consumer leaves the bag of URIs over all places the same |
| Prefetch.LocalSchemes | src/metadata_prefetch.rs:288-291 | Local are exactly file:// and direct:// URIs |
| Prefetch.ResultsWereFetched | src/metadata_prefetch.rs:296-334 | Every result carries the URI a worker took, the size its fetch returned and the right locality |
| Prefetch.RunKeepsInvariants | src/metadata_prefetch.rs:75-132 | In every reachable state channels are within their bounds, at most one worker holds the lock, sizes are only those a fetch returned, and the input URIs equal, as a bag, unsent + queued + held + in the output channel + received + lost |
| Prefetch.StepDecreases | src/metadata_prefetch.rs:75-132 | Every step lowers an explicit measure |
| Prefetch.RunIsBounded | src/metadata_prefetch.rs:75-132 | So every run is finite, its length bounded by the measure of its start |
| Prefetch.StuckIsFinishedOrLeaked | src/metadata_prefetch.rs:75-132 | A state without a step is either completely finished, or the consumer is gone, all workers have stopped and the feeder waits on a full queue |
| Prefetch.DeliversExactlyOnce | src/metadata_prefetch.rs:75-132 | While the consumer keeps receiving, a run that can go no further has delivered exactly one result per input URI and closed the stream |
| Prefetch.LeakNeedsManyUris | src/metadata_prefetch.rs:75-132 | A leaked pipeline had more than three URIs per worker |
| Prefetch.LeakIffManyUris | src/metadata_prefetch.rs:75-132 | Some run that drops the consumer leaks if and only if there are more than three URIs per worker |
| Prefetch.SmallRunsAlwaysFinish | src/metadata_prefetch.rs:152-224 | With at most three URIs per worker the pipeline winds down whatever the consumer does |
| DirectoryTrees.PathIsDigits | src/directory_tree.rs:205-255 | The path at (level, G) is the sequence of base-width digits of G-1, each plus one, rendered through the mask |
| DirectoryTrees.DirNameRenders | src/directory_tree.rs:205-222 | For a mask with two placeholders the first is replaced by the level and the second by the number among the siblings |
| DirectoryTrees.NodeNumber | src/directory_tree.rs:205-255 | The number of a node among its siblings lies between 1 and the width and, with the parent's index, gives back the node's own |
| DirectoryTrees.NodeName | src/directory_tree.rs:205-255 | A node's path ends in its name |
| DirectoryTrees.AfterFirst | src/directory_tree.rs:205-222 | Replacing the first placeholder makes no new one: the second becomes the first, shifted by the number's length |
| DirectoryTrees.DirNameInjective | src/directory_tree.rs:205-222 | With two placeholders, siblings with different numbers have different names |
| DirectoryTrees.DirNameConstant | src/directory_tree.rs:205-222 | With fewer, all siblings have the same name |
| DirectoryTrees.PathSlashes | src/directory_tree.rs:205-255 | A path on level l has l-1 separators plus l times the slashes of the mask |
| DirectoryTrees.SuffixSameSlashes | src/directory_tree.rs:224-240 | Two joined paths whose last parts have equally many slashes are equal only part by part |
| DirectoryTrees.PathInjective | src/directory_tree.rs:205-255 | On one level a mask with two placeholders names every directory differently, whatever slashes it has |
| DirectoryTrees.AllPathsLength | src/directory_tree.rs:150-182 | The list of paths has as many entries as the sum of width^l over the levels |
| DirectoryTrees.AllPathsAt | src/directory_tree.rs:150-182 | Directory G of level l stands at position Offset(l) + G - 1 |
| DirectoryTrees.PathsDistinctIff | src/directory_tree.rs:150-182 | No path occurs twice if and only if the mask has two placeholders or the width is 1, for every mask |
| DirectoryTrees.ParentListedFirst | src/directory_tree.rs:150-182 | Every directory below the top level is listed after its parent and extends the parent's path |
| DirectoryTrees.ChildrenAreABlock | src/directory_tree.rs:205-236 | A directory's children are exactly the width indices (G-1)*width+1 .. G*width of the next level |
| DirectoryTrees.NodeKeyInjective | src/directory_tree.rs:205-236 | Memo keys of different nodes differ |
| DirectoryTrees.DirectoryTree.CreateNode | src/directory_tree.rs:205-255 | Whether the parent is memoised or rebuilt by recursion, the node is the same |
| DirectoryTrees.DirectoryTree.AddLevel | src/directory_tree.rs:150-182 | One pass of the loop appends exactly the paths of its level |
| DirectoryTrees.DirectoryTree.Generate | src/directory_tree.rs:126-203 | All paths in level order, the per-level index, the totals, and the error for an unknown distribution |
| DirectoryTrees.NewTree | src/directory_tree.rs:101-124 | Zero width or depth is refused; otherwise the generated tree |
| TreeManifests.FileNameRoundTrip | src/directory_tree.rs:798-834 | The number in a generated file name is recovered by the tree-mode parser of cleanup and by extract_file_index_from_path, with or without a directory, also beyond eight digits |
| TreeManifests.FlatNameRoundTrip | src/metadata_cache.rs:273-290 | The same for the prepared- and deletable- names of flat mode |
| TreeManifests.ExtractWithoutIndex | src/metadata_cache.rs:273-290 | A name without an underscore and a dash has no index |
| TreeManifests.BottomIsLastLevelIff | src/directory_tree.rs:771-776 | Counting slashes finds exactly the bottom level if and only if the mask has no slash |
| TreeManifests.FileDirsAre | src/directory_tree.rs:760-795 | For every slash-free mask, and for any mask when all levels hold files, the loop gives files to the bottom level, or to all, and they add up to the closed form of generation |
| TreeManifests.MarkedHoldFiles | src/directory_tree.rs:240-246 | The tree marks as holding files exactly the directories the manifest gives files to |
| TreeManifests.FileDirsDistinct | src/directory_tree.rs:760-795 | When the mask keeps siblings apart no directory gets two ranges, for every distribution and every slash |
| TreeManifests.RangesFoundIff | src/directory_tree.rs:804-834 | Every index is found in the range of the directory it is divided into if and only if the mask keeps siblings apart |
| TreeManifests.RangesTile | src/directory_tree.rs:760-795 | The ranges start at 0, follow each other without gap or overlap, and end at the closed-form total |
| TreeManifests.FileDirAt | src/directory_tree.rs:814-834 | Where the k-th directory with files stands in the list of all directories |
| TreeManifests.FilePathAt | src/directory_tree.rs:814-834 | The O(1) lookup yields the file in the directory the ranges divide its index into, also when directories share a name |
| TreeManifests.FilePathIff | src/directory_tree.rs:814-834 | A path comes back exactly for the indices of the tree's files |
| TreeManifests.FilePathAgrees | src/directory_tree.rs:804-834 | The O(1) path of an index lies in the one directory whose range contains the index, for both distributions |
| TreeManifests.ManifestLookups | src/directory_tree.rs:804-834 | The lookups of a manifest object of a generated tree are the ones proved to agree |
| TreeManifests.MaxLevel | src/directory_tree.rs:745-748 | The greatest level of the per-level index |
| TreeManifests.TreeManifest.FromTree | src/directory_tree.rs:725-757 | The manifest of a tree has its paths, its ranges, its totals and the position where the bottom level starts |
| TreeManifests.TreeManifest.ComputeFileRanges | src/directory_tree.rs:760-795 | The loop lays out consecutive ranges over the directories that hold files and counts the files |
| Cleanup.ListTree | src/cleanup.rs:80-116 | The tree-mode loop collects, in order, the parseable files of this agent as full URIs |
| Cleanup.ShareIsNamed | src/cleanup.rs:80-159 | Both loops: a share has a URI exactly when the agent takes a listed path that is that URI, if it contains ://, or that follows the list base, if it does not |
| Cleanup.TreeFileIndexIff | src/cleanup.rs:84-89 | The tree-mode parser takes exactly the names file_, a number and .dat, and reads that number |
| Cleanup.TakesIndex | src/cleanup.rs:89-94 | A generated tree file is taken by the agent with number index modulo agents |
| Cleanup.TreeOwner | src/cleanup.rs:80-96 | A parseable file belongs to exactly one of n agents, any other to none |
| Cleanup.TreeSharesPartition | src/cleanup.rs:80-116 | n agents filtering the same listing together take every parseable file once: the shares sum, as bags, to the parseable files |
| Cleanup.ListingOrderIrrelevant | src/cleanup.rs:80-116 | What an agent picks does not depend on the order in which the store lists |
| Cleanup.TreeShareInIndexOrder | src/directory_tree.rs:887-906 | From a listing in index order it picks, in order, what the manifest assigns to it |
| Cleanup.TreeShareMatchesManifest | src/directory_tree.rs:887-906 | From any listing of a prepared tree, in any order and with any other objects beside the files, an agent picks, as a bag, what the manifest assigns to it |
| Cleanup.ListFlat | src/cleanup.rs:117-159 | The flat-mode loop collects the files of this agent, and panics exactly when two or more agents meet a name with a dot before its first dash |
| Cleanup.FlatOwners | src/cleanup.rs:117-141 | Without such a name every file is taken by some agent, and by exactly one if and only if its index parses |
| Cleanup.FlatIndexReads | src/cleanup.rs:122-136 | The flat filter reads the number between the first dash and the first dot |
| Cleanup.FlatOtherNames | src/cleanup.rs:122-136 | Without a dash or a dot there is no number; a dash that comes only after the first dot panics |
| Cleanup.FlatNameOwner | src/cleanup.rs:122-136 | A generated flat name is taken by the agent with number index modulo agents, the one that prepared it |
| Cleanup.DotBeforeDashPanics | src/cleanup.rs:122-129 | A concrete name that panics |
| Cleanup.DeletesAddUp | src/cleanup.rs:240-299 | In every interleaving exactly the reached targets are gone, the successes add up to the distinct targets that existed, and every delete is counted once |
| Cleanup.Summarize | src/cleanup.rs:301-318 | Counts successes, missing objects and refusals; fails exactly in strict mode with anything but success |
| Cleanup.AllAgentsOkIff | src/cleanup.rs:240-318 | Tolerant and best-effort agents always return Ok; strict agents all do if and only if no object is assigned twice, all exist and none is refused, in whatever interleaving |
| Cleanup.CleanupIsComplete | src/cleanup.rs:80-318 | n agents listing the same storage and deleting their shares, interleaved in any way, remove exactly the prepared files and their successes sum to the distinct objects removed, in both modes |
| Cleanup.CleanupRemovesOwnFiles | src/cleanup.rs:80-318 | A store listed with full or with relative paths loses exactly its own prepared objects (flat mode: all), and the successes are as many |
| Cleanup.AssignedAreNamed | src/cleanup.rs:97-101 | What is deleted is what was listed: a path with :// under exactly that URI, any other under the list base |
| Cleanup.RelativeWithSchemeStays | src/cleanup.rs:97-101 | A relative path that itself contains :// is taken for a URI, and its object stays |
| Histograms.BucketIsLeast | src/metrics.rs:13-33 | The cascade of comparisons finds the least bucket whose boundary admits the size |
| Histograms.Record | src/metrics.rs:57-61 | Adds the latency to the bucket of its size, or drops it when out of range |
| Histograms.AddInto | src/metrics.rs:97-103 | Bucketwise bag sum in place, the source unchanged |
| Histograms.CombinedHistogram | src/metrics.rs:106-117 | The bag of all buckets: after recording any stream it holds each latency as often as in-range samples of it were recorded, whatever their size |
| Histograms.FlatIsExact | src/metrics.rs:106-117 | The combined histogram of any recording counts each latency exactly |
| Histograms.FlatPlus | src/metrics.rs:106-117 | Combining after merging equals merging after combining |
| Histograms.RecordedIsExact | src/metrics.rs:57-61 | A bucket holds a latency as often as in-range samples of that latency and of a size in the bucket's boundary interval were recorded |
| Histograms.RecordedConcat | src/metrics.rs:97-103 | Recording one stream after another equals merging what each records alone |
| Histograms.ShardingRefines | src/metrics.rs:97-103 | Splitting a stream over any number of histogram sets and merging them equals recording it all in one |
| Histograms.RecordingCommutes | src/metrics.rs:57-61 | Only the bag of samples matters, not their order |
| Summaries.SpawnWorkers | src/multiruntime.rs:62-94 | The per-worker concurrencies sum exactly to the configured total, differ by at most one, and workers that would get none are not spawned |
| Summaries.ProcessSplit | src/multiprocess.rs:37-43 | Over processes the rounded-up shares exceed the total by less than one per process, and not at all exactly when it divides |
| Summaries.MergeFrom | src/workload.rs:1401-1408 | Size bins are added key by key, in whatever order the hash map yields them |
| Summaries.CombineCommutes | src/multiruntime.rs:189-238 | Merging two results does not depend on their order |
| Summaries.CombineAssociates | src/multiruntime.rs:189-238 | Nor on the grouping |
| Summaries.ArrivalOrderIrrelevant | src/multiruntime.rs:138-145 | The merged result is the same for every arrival order of the workers' results |
| Summaries.MergeIsSum | src/multiruntime.rs:189-238 | Every merged counter, size bin and histogram cell is the plain sum over the workers: no double counting |
| Summaries.ViewIsFaithful | src/multiruntime.rs:189-238 | Every counter, bin and histogram cell of a summary's abstract value is read off the summary's own field |
| Summaries.WallIsLongest | src/multiruntime.rs:197-198 | The merged wall time is that of the longest worker |
| Summaries.MergeSummaries | src/multiruntime.rs:174-252 | None if and only if there are no summaries, or several and one of them holds a latency above the combined bound; otherwise, although the result shares the first summary's histogram storage, its values are the merge of all original values, the other summaries keep theirs, and its metadata bytes are right if and only if only the first summary has any |
| Summaries.RecalculatePercentiles | src/multiruntime.rs:254-345 | Refuses if and only if some merged bucket holds a latency above the combined bound; otherwise the overall histogram holds each latency as often as it was recorded over all kinds, and each kind's own as often as over that kind |
| Summaries.WorkersHold | src/multiruntime.rs:189-238 | Merged over any number of workers, the histograms are those of one recording of all workers' samples |
| Summaries.SlowMerged | src/multiruntime.rs:254-285 | The merged histograms hold a refused latency if and only if some worker's do |
| Summaries.RefusalOrderIrrelevant | src/multiruntime.rs:254-285 | The refusal does not depend on the order of arrival |
| Summaries.SlowSamples | src/multiruntime.rs:272-285 | A worker is refused if and only if it recorded a latency above the combined bound that its own histogram still keeps |
| Summaries.OneSlowGetRefusesAll | src/multiruntime.rs:272-285 | One operation of just over 60 seconds by either of two workers leaves the run without a result |
| Summaries.MergeInto | src/multiruntime.rs:189-238 | One pass of the merge loop, in place in the shared storage |
| Summaries.MergeOp | src/multiruntime.rs:200-238 | Counters, size bins and histograms of one kind of operation: the target's storage receives the sum, the result shares it |
| Summaries.GatherAndMerge | src/multiruntime.rs:138-168 | A missing result is an error, and so is a refused latency among several results; otherwise the merge of what arrived |
| Summaries.MergeIpc | src/multiprocess.rs:143-238 | Fails exactly for no summaries or a histogram list longer than the first; otherwise the merge of all onto empty histograms |
| Summaries.MergeIpcAll | src/multiprocess.rs:167-191 | The loop adds every child's values onto the start values and fails exactly at a list that does not fit |
| Summaries.MergeIpcInto | src/multiprocess.rs:167-191 | One pass of the loop over child processes, with the length error |
| Histograms.AddList | src/multiprocess.rs:262-289 | Adds a list of deserialized histograms in place; fails exactly when the list is longer than the target |
| Summaries.ProcessesAgreeWithThreads | src/multiprocess.rs:143-191 | For the same workers, folding their serialized reports from empty histograms gives the same values as merging over threads, and the true sum of metadata bytes |
| Summaries.MetaBytesOverThreads | src/multiruntime.rs:227-232 | The first summary's metadata bytes, which merging over threads reports, are those of all workers if and only if the others have none |
| LiveStats.StepStaysAccounted | src/live_stats.rs:159-187 | Every atomic step of record_get, record_put, record_meta or a snapshot keeps counters, calls in progress and samples in step with the calls begun |
| LiveStats.RunStaysAccounted | src/live_stats.rs:159-187 | The same in every interleaving |
| LiveStats.SamplesNeverExceedOps | src/live_stats.rs:159-187 | A histogram never has more samples than its operation counter says |
| LiveStats.QuiescentIsExact | src/live_stats.rs:159-187 | When all calls are done the counters are the exact number and byte sum of the calls, whatever samples were dropped |
| LiveStats.WeighIsSum | src/live_stats.rs:159-187 | The reference sums add each call's size once, and its latency once if it is in range |
| LiveStats.LoadsAreTrue | src/live_stats.rs:312-322 | A load reports the number of calls begun so far and, when no call is in progress, the sum of their sizes |
| LiveStats.UncontendedIsExact | src/live_stats.rs:150-167 | In a run where no try_lock fails the histogram holds exactly the in-range latencies of the finished calls |
| LiveStats.SnapshotsAreMonotone | src/live_stats.rs:312-330 | Successive snapshots never see a counter go down |
| LiveStats.LanesAreIndependent | src/live_stats.rs:159-187 | Whatever all threads do, the GET, PUT and metadata parts each behave as if their own steps had run alone |
| Stages.ValidateStages | src/config.rs:2538-2626 | Accepts exactly the non-empty lists with distinct names, distinct orders and fitting completion criteria; an error names a real fault with no earlier kind of fault present |
| Stages.MatchesByCompletion | src/config.rs:2569-2622 | Read by completion: which kinds of stages each criterion fits |
| Stages.SortIsSorted | src/config.rs:2513-2514 | The sort arranges the same stages in order |
| Stages.IncreasingIsUnique | src/config.rs:2513-2514 | A bag of stages has at most one strictly increasing arrangement, so any sort gives this one |
| Stages.GetSortedStages | src/config.rs:2506-2535 | Ok exactly for valid lists, with the sorted stages; a stage without its own barrier gets its phase's, or the all-or-nothing barrier with the section's defaults |
| Stages.SortedStagesRun | src/config.rs:2506-2535 | Strictly increasing orders and the same stages, each unchanged but for a barrier: its own, or with barriers on that of its phase (custom and hybrid stages that of execute), or the all-or-nothing barrier with the section's defaults |
| Stages.BarrierOfPhase | src/config.rs:2478-2535 | Which configured barrier each kind of stage gets, and the default when that is absent |
| Stages.FileOrderIrrelevant | src/config.rs:2506-2535 | Every permutation of the list in the file is valid alike and gives the same result |
| Stages.OrderedStays | src/config.rs:2513-2514 | A list already in order is not rearranged |
| ConfigConverter.Config.GenerateStages | src/config_converter.rs:52-141 | The generated stages always validate, are numbered 1..k, and are preflight, prepare if configured, execute with the configured duration, and cleanup if requested, under these names, with the number of objects to expect |
| ConfigConverter.TotalAdds | src/config_converter.rs:71-82 | The expected number of objects counts every entry once |
| ConfigConverter.Config.ConvertConfig | src/config_converter.rs:149-181 | Afterwards the configuration has stages and needs no conversion; a present section keeps everything else, an absent one gets the defaults |
| ConfigConverter.ConvertedRuns | src/config_converter.rs:149-181 | The generated stages run in the order generated |
| ConfigConverter.DurationRoundTrip | src/config_converter.rs:343-352 | The written number and unit letter denote the configured seconds, and never in hours |
| ConfigConverter.DurationText | src/config_converter.rs:343-352 | Whole minutes are written as minutes, everything else as seconds |
| ConfigText.InsertWithHints | src/config_converter.rs:445-464 | After each type line come three hint lines, the first time with the longer heading |
| ConfigText.HintsFollowTypes | src/config_converter.rs:445-464 | Between type lines everything is copied; right after each comes its hint |
| ConfigText.HintText | src/config_converter.rs:450-462 | The three comment lines of a hint, the first with a longer heading the first time |
| ConfigText.TypeLine | src/config_converter.rs:451-458 | Blanks, type: and a value make a type line |
| ConfigText.OtherLine | src/config_converter.rs:451-458 | No other text does |
| ConfigText.HintsAddOnlyComments | src/config_converter.rs:445-464 | Hints add only comment lines: the content is the same |
| ConfigText.AdviceAddsOnlyComments | src/config_converter.rs:414-442 | The block for several agents has the same content as the block for one |
| ConfigText.BlockContent | src/config_converter.rs:414-442 | The content of the block is the stages key and the given stages |
| ConfigText.InsertStages | src/config_converter.rs:355-411 | The line loop with its flags computes the output function the following theorems are about |
| ConfigText.LineRoles | src/config_converter.rs:368-395 | In terms of a line's blanks and text: which lines are headers, comments, and ends of a section |
| ConfigText.BlankLine | src/config_converter.rs:384-389 | A blank line is none of these |
| ConfigText.InsertSection | src/config_converter.rs:414-442 | Appends exactly the block, with advice and hints only for several agents |
| ConfigText.OutputLength | src/config_converter.rs:355-411 | The output has the original lines plus one block per insertion |
| ConfigText.FirstInsertion | src/config_converter.rs:368-400 | A file with a section gets the block at the first exit, and from there on is scanned outside any section |
| ConfigText.InsertedOnceIff | src/config_converter.rs:355-411 | The output is lines [0,k), the block, lines [k,end) if and only if no header line follows the end of the first section; with a header there is always at least one insertion |
| ConfigText.BlockEndsTheSection | src/config_converter.rs:368-400 | With one header line the block goes before the first later line that is neither blank nor a comment nor deeper than the header, or to the end |
| ConfigText.BlockLandsInside | src/config_converter.rs:368-442 | The inserted stages key becomes a key of the distributed mapping if and only if the header is indented by less than two and the section's own keys by two |
| ConfigText.OwnSectionAppended | src/config_converter.rs:403-408 | A file without a header is kept whole and gets a section of its own at the end |
| ConfigText.SecondHeaderDuplicates | src/config_converter.rs:368-400 | A concrete file that gets the block twice |
| Namespaces.JoinIsSlashed | src/config.rs:1052-1087 | With or without a scheme, joining puts exactly one slash between base and suffix; an empty suffix changes nothing |
| Namespaces.TrimsLeadingSlashes | src/config.rs:1072-1085 | Of a suffix all leading slashes go, and nothing else |
| Namespaces.ResolveCases | src/config.rs:793-813 | An absolute URI, and any path without a target, stands for itself; a relative path stands below the target with one slash in between |
| Namespaces.ResolveInSpace | src/config.rs:793-813 | A relative path of an agent resolves to the agent's namespace followed by the path |
| Namespaces.NamespacesDisjointIff | src/config.rs:941-988 | Two agents never resolve relative paths to the same URI, for any target, if and only if neither namespace is reached from the other by a relative path |
| Namespaces.NumberedAgentsDisjointIff | src/bin/controller.rs:3190 | For every template, agents with different numbers never resolve relative paths to the same URI if and only if the template contains the {id} placeholder; agent-1 and agent-10 included |
| Namespaces.Config.ApplyAgentPrefix | src/config.rs:941-988 | The target gets the prefix; prepare URIs are rewritten on per-agent storage and unchanged on shared storage or without a target |
| Namespaces.RewriteStaysUnder | src/config.rs:966-980 | Every base URI under the old target keeps its place under the new one |
| Namespaces.RewriteOutside | src/config.rs:976-980 | A base outside the target gets the prefix at its own end; an empty prefix changes nothing |
| Namespaces.PreparedDisjointIff | src/config.rs:966-980 | Prepared data of two agents is apart for all base URIs under the target if and only if neither prefix begins the other |
| Namespaces.PreparedWhereReadIff | src/config.rs:966-980 | An agent's prepared data is where its workload looks for it if and only if target and prefix agree on ending in a slash |
| Autotune.ObjectUrisDistinct | src/main.rs:2034-2066 | One upload never writes an object twice, for every shape of URI and any number of digits |
| Autotune.ObjectUrisCount | src/main.rs:2041-2063 | A pattern or a directory gets as many objects as asked for; a single URI is always written, even for none asked, with numbered ones beside it |
| Autotune.TrialUriShape | src/main.rs:1010-1018 | In each shape the trial URI is a fixed head, the trial number, a separator that is no digit, and a star |
| Autotune.TrialUriCases | src/main.rs:1010-1018 | The trial URI of each shape of base, spelled out |
| Autotune.PatternIsOwn | src/main.rs:1010-1018 | An object of one trial begins like another trial's pattern only if the trials are the same |
| Autotune.TrialsAreDisjoint | src/main.rs:2041-2063 | The objects of different trials are disjoint for all three shapes of base URI |
| Autotune.Sweep | src/main.rs:1297-1304 | The sweep uses the trial numbers 0 .. cases*trials-1 once each, in order |
| Autotune.TrialNumberUnique | src/main.rs:1304 | The trial number determines case and repetition |
| Autotune.TrialNumberReached | src/main.rs:1304 | Every number below cases*trials is the number of a case and repetition |

## Left out

- The libraries themselves (key-value store, tar, zstd, HDR histograms, serde, tokio) and all network, object-store and file-system calls, logging, progress bars and command-line parsing: assumed as stated above or outside the model.
- Integer overflow: operation, byte and pending-write counters and `width^depth` are unbounded here.
- The order in which a hash map or a keyspace yields its entries: scans are proved for every order, so the order of a scan's result is not stated; aggregation visits endpoints in index order.
- FlushProtocol: `plan_objects_batch` among concurrent writers is not a step of the machine, and a change of policy starts a new run rather than happening between the steps of a write; mark calls that race on one object (read, change, write back) are single inserts.
- Recovery: a restore that fails half-way, a download error taken for a missing archive, one checkpoint shared by several endpoints, a reopen in the same process while a file write is still under way, and a final checkpoint concurrent with other writers of the same cache are not steps of the machine.
- ObjectCache.EndpointCache.PlanObjectsBatch: states the table and durability after the call, not what intermediate flushes made durable, because the final flush covers it.
- Cache hashes with a colon: the methods require colon-free hashes, which is what the hash function produces; `ObjectCache.ColonHashesCollide` shows why.
- SequentialPrepare: one agent, flat names, uploads that all succeed, and a listing that finds of each pool only indices below its count; two entries with the same base URI and prefix, whose objects coincide, are counted as different pools here.
- Prefetch: the cache lookup before a fetch and the contents of fetched metadata other than local sizes, because workers are spawned without a cache.
- Cleanup.CleanupRemovesOwnFiles: a relative path with :// in it names no object of the store here; `Cleanup.RelativeWithSchemeStays` shows what happens to one.
- Tree manifests: `assign_agents`, `get_agent_dirs`, `hash_config` and JSON, which would add easy members.
- Cleanup: the directory-marker sweep of agent 0, and the sort of a flat listing before filtering (no theorem depends on the order).
- Summaries: the percentiles and means read from the combined histograms, error counts and rates, endpoint statistics, and the PUT setup and I/O histograms, which merging over threads takes from the first summary; HDR rounding of values and of the upper bound.
- Summaries.MergeSummaries: counters of one kind of operation are grouped in one record; the three kinds are merged one after the other, while the source merges all histograms first.
- LiveStats: resets, stages and progress, and the percentiles of a snapshot.
- Stages: the warning about gaps in the order, and deserialization.
- ConfigText: YAML beyond block mappings with indentation by spaces; a text is its lines, so the loss of carriage returns and of a missing final newline is not modelled; white space is space, tab and carriage return.
- ConfigConverter.DurationRoundTrip: reads one number with one unit letter, the form the formatter writes; the library that reads durations is not part of this model.
- Namespaces: `get_base_uri` and the choice of an empty prefix for shared storage by the controller.
- Autotune: parsing of sizes, measurement, scoring and number formatting, and matching of glob patterns beyond their fixed part.
