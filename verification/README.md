# A model of the sample library

The library catalogs tracker modules and the samples inside them, groups near-duplicate samples, describes each
sample by a feature vector, lays the samples out as a cloud, and serves the catalog with a morph between any two
samples. This project models the parts of it that keep state over many steps, or whose arithmetic promises something
over a whole run, and proves what they promise.

| file | what it models |
|---|---|
| `Options.dfy` | a value that may be missing |
| `RealArithmetic.dfy` | sums, quotients and bounds of real numbers |
| `Sorting.dfy` | a stable sort and filter, used wherever the program sorts |
| `EquivalenceClasses.dfy` | grouping samples by union-find over a parent map with path compression |
| `OrderedLocking.dfy` | concurrent ingest transactions taking shared rows in hash order |
| `ConcurrentPasses.dfy` | extraction passes sharing one catalog, and their summaries |
| `CompletionRecord.dfy` | extraction, prune and the record of a complete pass, stopped at any step |
| `Discovery.dfy` | the walk over a module collection whose folders may link in cycles |
| `FeatureExtraction.dfy` | the read-ahead queue, batches, checkpoints, and passes that stop and resume |
| `Waveform.dfy` | triangular averaging against linear interpolation |
| `NearestNeighbors.dfy` | neighbor search by partition against sorting every row |
| `TokenBudget.dfy` | the laws of refilling budgets in a bounded table, over whole runs of calls |
| `Forgetting.dfy` | what a budget's bounded table loses by forgetting its idlest keys |
| `MorphGate.dfy` | the budget and the morph gate as objects, and the morph route as interleaved requests |
| `DensityField.dfy` | counting nodes into cells, box blur, and the glow painted from it |
| `MorphHistory.dfy` | the undo line, the columns of samples, and the store behind the morph strip |
| `Densify.dfy` | the cloud densifier: generator, apportionment, shuffle |

Objects the program changes in place are classes here, and its loops are loops; each such method is tied to a
function of its inputs or of the state before it, and the properties are proved of those functions. Interleavings
are state machines whose moves are the transactions or the stretches between two awaits.

## Assumptions

- Hashes are natural numbers. The class hash and the collection digest are parameters. A digest is a function of each
  path's stamp, its size and write time, and of nothing else; where two sets, or two listings' stamps, must not share
  a value, the statement requires the function to be injective. Equal stamps need not mean equal content.
- Tokens, times, coordinates, vectors, weights and colour sums are real numbers; slider weights are whole
  hundredths; the generator's state is an exact integer, with its products bounded below 2^53.
- A clock never runs back. `take` reads it twice and `admit` four times, and every reading is its own parameter.
- The logarithm behind the glow is any strictly increasing function with value 0 at 0. The square root is any
  function of the squared distance.
- A listing of a collection and its digest are taken at one moment. `ChangesShow` says of a pass that, where its second
  listing digests as its first, every file it read was as first listed. `FreshRun` says that a file, once changed, never
  carries a stamp its path had before; `ChangesShow` then follows.
- Which batches the extractor answers, which checkpoints the database takes, and which files can be read are given, so
  each may fail at any point.
- One ingest is atomic in `ConcurrentPasses` and `CompletionRecord`; its steps are the subject of `OrderedLocking`.

## What turned out to hold only under a condition

- A refusal's wait is one that suffices exactly when the cost is at most the capacity
  (`BudgetLaws.WaitsAreExact`). The configuration does not keep `whole_catalog_weight` within `burst`
  (src/samplecore/config.py:161-163).
- A pass that ends at once leaves what a full pruned pass would exactly when every module that ingests is cataloged and
  none but those present (`PruningPasses.EarlyReturnsLeaveWhatAFullPassWould`); whatever the catalog, exactly when
  nothing ingests that did not when recorded and all that was present still is
  (`Collections.RecordsHoldExactlyWhenNothingIsMissed`), as where each recorded stamp still tells its content.
  A file restored under the stamp it had breaks this (`PruningPasses.ARestoredFileGoesUnread`), and so does one changed
  and changed back while a pass reads it (`PruningPasses.AChangeUndoneInBetweenGoesUnseen`), for any digest of the
  stamps (src/samplecore/digests.py:25-42).
- Records stay true over every run exactly when there is at most one pass at a time
  (`PruningPasses.RecordsStayTrueExactlyAlone`): with two, the record and the prune both lose their guarantee
  (`PruningPasses.TwoPassesAtOnceBreakTheRecord`), since the gone modules are named before the lock is claimed
  (src/sampleextract/prune.py:55-56).
- An extraction pass stopped anywhere loses at most 500 samples of those it heard, and 500 exactly where it stops
  inside the sample that fills a checkpoint, before the commit (`ExtractionPasses.StoppedPassesDescribe`).
- A forgotten key starts full again. One touch reveals the forgetting exactly when the bucket would not have refilled
  (`Forgetting.OneTouchTellsNothing`). Over every run in which any stretch shorter than a full refill brings at most m
  keys, every key keeps to the rate in every window, if and only if m is at most what the table holds
  (`Forgetting.TakesKeepTheRateExactlyForFewKeys`, and with debts `Forgetting.TheRateIsKeptExactlyForFewKeys`); the
  morph gate's visitors keep to theirs in the same way (`MorphRoute.FewVisitorsKeepTheRate`).
- Densifying reaches its target exactly when there is one point, or the first state drawn is not negative and some
  weight is not zero (`Densifier.TheCloudIsAsAskedFor`). Otherwise every share is no number and the points given come
  back alone: with no weight, 0/0; with a negative first draw, which seed -1000 gives
  (`Densifier.ASeedMayGrowNothing`), the first weight is made of a negative number's root.
- Every draw lies in [0, 1) exactly after the seeds whose remainder by 2^32 is at least -609, and one more
  (`CongruentialGenerator.DrawsStayInTheUnitInterval`).
- Nothing is drawn while a morph end is missing exactly when `markRendered` fires only with both ends chosen
  (`MorphStores.DrawnWholeExactlyWhenMarkedWhole`).
- A redo after an undo restores the columns exactly when they still held the pair undone to
  (`MorphStores.RedoAfterUndo`); the pair and both stacks come back always.
- Averaging is interpolation for every series exactly when the points are at least as many as the frames, the frames
  are at most two, or there are no points (`Waveform.AveragingIsInterpolatingExactly`).
- A node on the domain's right or bottom edge is not counted (`DensityField.CountedExactlyInTheDomain`).
- `prefetched` yields nothing at depth 0 (`Prefetch.Prefetched.Next`).
- What `_laid_out` does with a run that describes nothing new is not part of this model.

## Model

| member | source | states |
|---|---|---|
| Relations.MergingKeepsThePartition | src/samplecore/equivalence_classes.py:46-55 | one more relation, its two classes merged under one root, and two hashes still share a root only if a path of relations joins them |
| Relations.SameRootIsConnected | src/samplecore/equivalence_classes.py:28-35 | under a partition, two hashes share a root if and only if a path of relations joins them |
| Relations.PathsStayUnderOneRoot | src/samplecore/equivalence_classes.py:28-35 | no path of relations leaves its root |
| ParentMap.Compressing | src/samplecore/equivalence_classes.py:42-43 | pointing a hash at its root keeps the parents a forest with the very same roots, and its old parent stands nearer that root, so the walk ends |
| ParentMap.Joining | src/samplecore/equivalence_classes.py:49-52 | hanging one root under another keeps the parents acyclic and moves exactly the first root's hashes, without ranks |
| ParentMap.Adopting | src/samplecore/equivalence_classes.py:47-48 | a hash met first stands alone as its own root, the rest of the forest as it was |
| ParentMap.RootsAreTheirOwn | src/samplecore/equivalence_classes.py:38-41 | what a walk up the parents ends at is its own root |
| ParentMap.Parents.constructor | src/samplecore/equivalence_classes.py:36 | an empty forest |
| ParentMap.Parents.Find | src/samplecore/equivalence_classes.py:38-44 | terminates on every forest, answers the root, changes no root, and leaves each parent as it was or at its root |
| ParentMap.Parents.Union | src/samplecore/equivalence_classes.py:46-52 | exactly the two endpoints' classes are merged, every other root untouched |
| ParentMap.Parents.Attach | src/samplecore/equivalence_classes.py:51-52 | the first root's class is rerooted at the second and nothing else moves |
| ParentMap.Parents.Adopt | src/samplecore/equivalence_classes.py:47-48 | a hash joins as its own root unless it is there already |
| EquivalenceClasses.MembersByRoot | src/samplecore/equivalence_classes.py:57-59 | every hash is gathered under its root and nowhere else, with parents compressed meanwhile |
| EquivalenceClasses.SortedMembers | src/samplecore/equivalence_classes.py:63 | a class's members, each once, ascending |
| EquivalenceClasses.GatheredAreTheClasses | src/samplecore/equivalence_classes.py:57-67 | classes gathered from a partition are the connected components: disjoint, covering every endpoint, ordered by class hash |
| EquivalenceClasses.ClassesInOrder | src/samplecore/equivalence_classes.py:61-67 | from the members by root, the sequence of components in order of class hash |
| EquivalenceClasses.ComputeEquivalenceClasses | src/samplecore/equivalence_classes.py:27-67 | the classes are exactly the connected components of the relations, each endpoint in exactly one, members ascending, classes ascending by hash |
| EquivalenceClasses.RelationsDecideTheClasses | src/samplecore/equivalence_classes.py:28-35 | reordering, repeating or flipping relations leaves the returned sequence unchanged, given an injective class hash |
| EquivalenceClasses.EveryClassHasTwoMembers | src/samplecore/equivalence_classes.py:30-33 | no class is one sample alone while relations join distinct hashes |
| EquivalenceClasses.IndexFindsAMembersClass | src/samplecore/equivalence_classes.py:70-76 | the index finds a class for a hash if and only if one holds it, and that class does hold it |
| EquivalenceClasses.MembersAreTheConnected | src/sampleserver/equivalence.py:9-18 | a sample is listed beside another if and only if it is that sample or a path of relations joins them |
| EquivalenceClasses.MembershipIsAnEquivalence | src/sampleserver/equivalence.py:9-18 | being listed beside a sample is reflexive, symmetric and transitive |
| OrderedLocking.DistinctSamples | src/sampleextract/ingest.py:163-174 | each sample hash the occurrences reach, once, strictly ascending |
| OrderedLocking.RowsTaken | src/sampleextract/ingest.py:107-168 | the rows an ingest takes: its module's first, then exactly the samples reached, by ascending hash, each one's sample row before its thumbnail row, so a plan `IngestsAlwaysEnd` speaks of |
| OrderedLocking.ContentRowsAscend | src/sampleextract/ingest.py:164-168 | taking both rows of each ascending hash never steps back in that order |
| OrderedLocking.MovesKeepTheInvariant | src/sampleextract/ingest.py:93-116 | over every step, abort and commit, no row is held twice, an ended transaction holds none, and no module lands twice |
| OrderedLocking.NoDeadlock | src/sampleextract/ingest.py:154-158 | no cycle of transactions each waiting for the next, in any state |
| OrderedLocking.SomeTransactionAdvances | src/sampleextract/ingest.py:154-158 | while any transaction runs, some transaction can step without waiting |
| OrderedLocking.EveryRunEnds | src/sampleextract/ingest.py:70-79 | every run is bounded by the steps planned, and one that cannot go on has ended every transaction |
| OrderedLocking.PlansStartSound | src/sampleextract/ingest.py:107-168 | transactions that have planned their rows and taken none satisfy what every step keeps |
| OrderedLocking.IngestsAlwaysEnd | src/sampleextract/ingest.py:70-116 | from any ingests' own plans, every interleaving of steps, stops and failures is bounded, waits in no cycle, and cannot halt while one still runs |
| OrderedLocking.CommitsAreWholePlans | src/sampleextract/ingest.py:93-151 | over every interleaving the rows committed are those there before and the whole plans of the transactions that committed, each once, in the order their modules landed; an ended transaction committed if and only if it took every row and one step more, one stopped or failed commits nothing, and any other was turned back at its first step by its module committed |
| OrderedLocking.ACommitAddsItsPlan | src/sampleextract/ingest.py:93-116 | a commit adds exactly the rows of its plan, and lands its module |
| OrderedLocking.AStopFreesItsRows | src/sampleextract/ingest.py:70-79 | a running transaction can be stopped at any point, committing nothing, moving no other, and leaving nobody waiting for it |
| OrderedLocking.CrosswisePlansDeadlock | src/sampleextract/ingest.py:154-158 | without the order, two transactions taking two rows crosswise come to wait for each other |
| ExtractionPass.EveryFileIsCounted | src/sampleextract/run.py:97-119 | discovered is ingested plus skipped plus ingested elsewhere plus failed, whatever happened to each file |
| ExtractionPass.CoveringIsHonest | src/sampleextract/run.py:97-151 | after any number of files, whatever the others land: the catalog is the start, their landings and what was ingested, no module ingested twice or that was there, and each outcome but a failure has its module in it |
| ExtractionPass.OutcomesAreRight | src/sampleextract/run.py:97-151 | after any number of files, whatever the others land: each file's outcome is the right one, said of the start, what the others landed by its look and by its insert, and what this pass ingested before, and a pass breaks off exactly where a constraint does |
| ExtractionPass.CoveringExplains | src/sampleextract/run.py:68-151 | a module that can land lands and is counted; a file is skipped if and only if its module is there at its look, ingested elsewhere if and only if it is absent then and there at its insert with nothing against it before the row, and failed at a stage only for that stage's own reason |
| ExtractionPass.SummariesTell | src/sampleextract/run.py:97-119 | a summary's counts, ingested hashes, present hashes and failures are those of the outcomes, each in file order |
| ExtractionPass.CombiningAddsUp | src/sampleextract/run.py:38-49 | shares combine field by field, in any grouping |
| ExtractionPass.CombiningKeepsTheAccount | src/sampleextract/run.py:38-49 | combined shares still account for every file, and a hash is present or ingested exactly if some share has it so |
| ExtractionPass.RunExtraction | src/sampleextract/run.py:68-151 | the loop, with other passes changing the catalog before each look and each ingest: the catalog, the summary and where it stops are explained by one right outcome at each file, skipped, ingested, ingested elsewhere or failed at a stage for its own reason; every file accounted for, and the catalog its start with what the others landed and what was ingested |
| ConcurrentPasses.MovesKeepTheInvariant | src/sampleextract/run.py:97-151 | every look, ingest and stop keeps the catalog its start plus what landed, each landing recorded by one pass at one file |
| ConcurrentPasses.MovesSettle | src/sampleextract/run.py:97-151 | a look settles its file or goes on to try it, an insert settles it by what the catalog holds then, or stops the pass where a constraint breaks, and no other pass moves |
| ConcurrentPasses.UnfinishedPassesGoOn | src/sampleextract/run.py:97-119 | a pass neither stopped nor at its share's end can go on, whatever the others do |
| ConcurrentPasses.EveryRunCanFinish | src/sampleextract/run.py:97-119 | wherever the passes stand in any interleaving, it goes on to where each has settled every file of its share, or stopped at one where a constraint broke |
| ConcurrentPasses.OutcomesHaveTheirMoves | src/sampleextract/run.py:83-90 | in every interleaving each outcome of each pass is the right one over the catalog as it was at that pass's look for the file, and at its insert where it came to one |
| ConcurrentPasses.RunsKeepTheInvariant | src/sampleextract/run.py:83-90 | the same over every interleaving, each pass's share unchanged |
| ConcurrentPasses.EachModuleLandsOnce | src/sampleextract/run.py:83-90 | in every interleaving a module is in the catalog at the end exactly if it was at the start or one pass ingested it, and never do two |
| ConcurrentPasses.CoveredFilesAreCataloged | src/sampleextract/run.py:103-108 | in every interleaving a file skipped, ingested or ingested elsewhere has its module in the catalog, and a finished pass accounts for its share |
| Collections.FullPassesSettle | src/sampleextract/cli.py:28-31 | a second full pruned pass changes nothing; a catalog is left as it is exactly when it lies between what ingests and what is present |
| Collections.RecordsHoldExactlyWhenNothingIsMissed | src/sampleextract/cli.py:41-43 | a full pruned pass over the files there now leaves every catalog a record may stand beside if and only if no more ingests than when recorded and all present then still is |
| ExtractionCommand.Library.constructor | src/sampleextract/cli.py:71-79 | a catalog with no record |
| ExtractionCommand.Library.Extract | src/sampleextract/run.py:97-119 | a pass alone adds what ingests and nothing else, reports as present every file it read, and says whether it missed one it could not |
| ExtractionCommand.Library.Run | src/sampleextract/cli.py:25-50 | ends early exactly when not forced over a recorded digest, changing nothing; a prune is refused if and only if some file or a folder could not be read, or no file is listed over a catalog that holds modules; no module a listed file holds, read or not, is removed, and none at all while something went unread or nothing is listed, nor is a record left then; what is cataloged afterwards is told module by module |
| PruningPasses.PrunesSpareWhatWasRead | src/sampleextract/prune.py:25-58 | whatever other passes do, a prune removes no module whose file its pass read |
| PruningPasses.PrunesHaveReadEverything | src/sampleextract/prune.py:25-58 | in every run, a pass that comes to remove modules has read every file it listed since, none of them of a module it removes, with every folder readable and at least one file |
| PruningPasses.OnlyReadsAndPrunesChangeTheCatalog | src/sampleextract/prune.py:48-58 | a module enters the catalog where a pass reads a file of it that ingests, and leaves it where a pass prunes while none is extracting; nothing else changes it, and no pass moves another |
| PruningPasses.OnlyDecidingAndRecordingChangeTheRecord | src/sampleextract/cli.py:60-90 | a pass ends at once exactly if not forced and the record is of its listing, and otherwise drops the record; one is left exactly where the collection, once pruned, still digests as listed |
| PruningPasses.EveryPassCanGoOn | src/sampleextract/cli.py:25-50 | wherever a pass stands its next step can be taken, and it can be stopped |
| PruningPasses.MovesKeepTheInvariant | src/sampleextract/cli.py:41-50 | every step of one pass, every stop and every change of the collection keeps a record true of the files it stands for, and gone once a pass goes ahead |
| PruningPasses.MovingKeepsTheRecord | src/sampleextract/cli.py:71-90 | after any step a record, if there is one, stands for files whose full pruned pass leaves the catalog as it is |
| PruningPasses.SoloRunsKeepTheInvariant | src/sampleextract/cli.py:25-50 | the same over whole runs with one pass going at a time |
| PruningPasses.EarlyReturnsLeaveWhatAFullPassWould | src/sampleextract/cli.py:41-43 | one pass at a time, stopped anywhere: whenever a pass would end at once, the stamps recorded are those there now, and a full pruned pass would leave the catalog as it is if and only if all that ingests is in it and nothing that is not present; so wherever nothing recorded is missed, and so wherever each stamp still tells its content |
| PruningPasses.FreshRunsAreFollowed | src/sampleextract/cli.py:71-90 | where a changed file never carries an earlier stamp of its path, every change during a pass shows in its second listing |
| PruningPasses.FreshStampsMakeEarlyReturnsExact | src/sampleextract/cli.py:41-43 | under the same condition on the files alone, whenever a pass would end at once a full pruned pass would leave the catalog exactly as it is |
| PruningPasses.ARestoredFileGoesUnread | src/samplecore/digests.py:25-42 | for any digest of stamps, a run of one pass and one file restored under its stamp, after which a pass ends at once over a catalog a full pruned pass would change |
| PruningPasses.AChangeUndoneInBetweenGoesUnseen | src/sampleextract/cli.py:71-90 | the same for a file changed and changed back while the one pass reads it |
| PruningPasses.TwoPassesAtOnceBreakTheRecord | src/sampleextract/prune.py:48-58 | a run of two passes, among any number, after which the record stands for a catalog missing a module whose file is there |
| PruningPasses.RecordsStayTrueExactlyAlone | src/sampleextract/prune.py:48-58 | over every run of n pass slots whose changes show, records stay true if and only if n is at most one |
| ModuleDiscovery.VisitsKeepTheInvariant | src/sampleextract/discovery.py:46-59 | every visit keeps the walk's account of what it found, refused and still has to visit, and makes progress whatever cycles the links form |
| ModuleDiscovery.NothingReachableIsMissed | src/sampleextract/discovery.py:28-33 | once nothing waits, every folder a path of readable folders reaches was walked, or refused |
| ModuleDiscovery.TheWalkFindsTheModules | src/sampleextract/discovery.py:43-59 | when the walk ends, each module of each reachable readable folder is named exactly once, and every refusal is named |
| ModuleDiscovery.ModulesAreTheFiles | src/sampleextract/discovery.py:55-59 | a folder gives exactly its ordinary files of a module's suffix, each once, under the folder's path |
| ModuleDiscovery.ModulesEndInTheirSuffix | src/sampleextract/discovery.py:9-14 | a module is an ordinary file whose name ends, behind one character at least, in `.xm`, `.it`, `.mod` or `.s3m`, in capital or small letters |
| ModuleDiscovery.ReorderedKeepsTheModules | src/sampleextract/discovery.py:61 | sorting the paths loses and repeats no module |
| ModuleDiscovery.DiscoverModules | src/sampleextract/discovery.py:25-75 | terminates on any finite graph with cycles; sorted paths naming each reachable module once and none else; every folder that cannot be listed named; a missing source or a file refused, an unset one empty |
| Prefetch.Prefetched.constructor | src/samplecore/prefetch.py:18-22 | the work on the first `depth` items is queued, in order |
| Prefetch.Prefetched.Next | src/samplecore/prefetch.py:23-31 | each item once and in order with its own result, at most `depth` queued ahead; an error reaches the consumer at its item and ends the reading |
| PendingSamples.DescribedHolds | src/samplecloud/features.py:92-93 | describing samples replaces exactly their vectors and loses no other |
| PendingSamples.PendingAreTheFirst | src/samplecloud/features.py:73-99 | the pending samples are those without a vector or with one heard at another rate, in hash order; a limit keeps as many of the first as it counts and leaves out only later ones |
| FeatureExtraction.VectorTable.constructor | src/samplecloud/features.py:91 | the vectors an experiment holds |
| FeatureExtraction.VectorTable.Commit | src/samplecloud/features.py:235-248 | one transaction: it breaks exactly when a vector meets one of its sample, and then changes nothing |
| FeatureExtraction.StoringBreaksNoKey | src/samplecloud/features.py:244-248 | no checkpoint ever meets a vector of its own sample, and what it deletes it also stores anew |
| FeatureExtraction.InsertingIsDescribing | src/samplecloud/features.py:244-247 | deleting the moved and inserting the checkpoint is describing its samples anew |
| FeatureExtraction.BatchesOfOneMore | src/samplecloud/features.py:187-196 | a sample more is described exactly when it fills its batch or its checkpoint, the batches of a checkpoint whole ones and a last one that ends with it |
| FeatureExtraction.Extraction.constructor | src/samplecloud/features.py:167-185 | a pass that has gathered nothing |
| FeatureExtraction.Extraction.Take | src/samplecloud/features.py:187-196 | after each sample, whole batches of what was gathered are described and whole checkpoints of 500 committed, in order, every batch and checkpoint filled so far having gone through; an error is of the batch or checkpoint this sample fills, the first not to go through |
| FeatureExtraction.Extraction.Finish | src/samplecloud/features.py:198-202 | everything gathered is described and committed, the last batch and the last commit short ones; an error is of one of these two, what was filled before having gone through |
| FeatureExtraction.Extraction.DescribeBatch | src/samplecloud/features.py:204-222 | a batch answered is described, and committed with its checkpoint at exactly 500 where it fills it; one the extractor raises on is not described, and one whose commit fails leaves the table as it was |
| FeatureExtraction.Extraction.Store | src/samplecloud/features.py:224-232 | all that was gathered is committed in one commit of the checkpoint's size, or, where the database fails, nothing |
| ExtractionPasses.TakeNext | src/samplecloud/features.py:143-144 | one sample taken from the read-ahead keeps the pass's account, or stops it where the extractor or the database raises |
| ExtractionPasses.FinishPass | src/samplecloud/features.py:145 | the pass ends with every heard sample described, every batch answered and every checkpoint taken, or stops at the batch or checkpoint left over |
| ExtractionPasses.StoppedHere | src/samplecloud/features.py:126-130 | a pass stopped by a reading has described whole batches and committed whole checkpoints of what it heard, and nothing in part |
| ExtractionPasses.ExtractFeatures | src/samplecloud/features.py:117-152 | completes only if every reading, batch and checkpoint goes through, having described every heard sample and counted the others; otherwise it names the first that did not, reading, batch or checkpoint, and where, with exactly the samples described and committed before it |
| ExtractionPasses.StopsLoseLittle | src/samplecloud/features.py:126-130 | of what a stopped pass described less than a checkpoint is lost, and a whole one exactly where its commit failed inside a sample |
| ExtractionPasses.StoppedPassesDescribe | src/samplecloud/features.py:126-130 | a stop anywhere loses at most one checkpoint of the samples heard, and a whole one if and only if it falls inside the sample that fills it |
| ExtractionPasses.APassTakesUpWhereTheLastStopped | src/samplecloud/features.py:122-124 | after a stop, what is pending is what was pending without what was committed: nothing twice, nothing left out |
| ExtractionPasses.AFinishedPassLeavesNothingReadablePending | src/samplecloud/features.py:102-114 | a finished pass without a limit leaves the readable pending count at zero |
| ExtractionPasses.NothingIsPendingWhereAllIsHeld | src/samplecloud/features.py:102-114 | nothing readable is counted pending if and only if each readable sample is held at the rate it is heard at now, and all of them are where nothing is held |
| ExtractionPasses.OneVisitDescribes | src/samplecloud/features.py:73-99 | a pass, limited or not, stopped or not, describes only cataloged samples that were pending and could be heard |
| ExtractionPasses.AVisitCommitsItsFirst | src/samplecloud/features.py:73-152 | a pass leaves described, of the pending samples it took, those it heard: all of them where it ran to its end, and otherwise whole checkpoints of 500, the sample it was stopped inside not counted |
| ExtractionPasses.VisitsInTurn | src/samplecloud/features.py:122-124 | each pass begins with what those before it left |
| ExtractionPasses.VectorsAreReplacedNeverLost | src/samplecloud/features.py:128-130 | over any passes, each stopped anywhere, a described sample stays described and its vector changes only to the rate of a pass that hears it |
| Waveform.RowsCanBeNormalized | src/samplecore/waveform.py:169-173 | every target draws on some source, so its weights have a positive sum |
| Waveform.EveryPointIsAnAverage | src/samplecore/waveform.py:158-203 | at any two resolutions each row of weights is nonnegative and sums to one, and every point lies between the series' bounds |
| Waveform.EveryPointWeighsItsFrames | src/samplecore/waveform.py:158-203 | every point is the frames' weighted sum over the sum of their weights, which is positive, and of one frame alone that frame |
| Waveform.FramesWeighInTheWiderSteps | src/samplecore/waveform.py:171-197 | a frame weighs for a point by how far short of one step of the wider spacing, of frames or of points, they stand apart |
| Waveform.WeighingIsInterpolating | src/samplecore/waveform.py:166-170 | at the source spacing the weights sum to one already, and the weighted sum is the linear interpolation at any position |
| Waveform.AveragedPointsAreInterpolated | src/samplecore/waveform.py:190-203 | a series read onto points no further apart than its frames is its interpolation, point by point |
| Waveform.WideAveragesDiffer | src/samplecore/waveform.py:195-200 | where points stand further apart than frames, some series is averaged to something else |
| Waveform.AveragingIsInterpolatingExactly | src/samplecore/waveform.py:137-203 | averaging is interpolation for every series of a length if and only if no points, at most two frames, or at least as many points as frames |
| SpectralDistance.NormsExpandTheDistance | src/samplecore/spectral_distance.py:62-65 | in any number of dimensions the norms and one product give the squared distance, never negative |
| SpectralDistance.SquaredDistancesAddUp | src/samplecore/spectral_distance.py:39-48 | a squared distance is the sum of the coordinates' squared differences |
| SpectralDistance.CandidatesSuffice | src/samplecore/spectral_distance.py:71-72 | at least as many rows lie within the threshold as are kept, ties included |
| SpectralDistance.TheFirstCandidatesAreTheNearest | src/samplecore/spectral_distance.py:71-75 | sorting only the rows within the threshold gives the same first rows as sorting every row in reach |
| SpectralDistance.OthersAreTheNear | src/samplecore/spectral_distance.py:66 | putting the target out of reach leaves exactly the other rows in reach |
| SpectralDistance.NearestAreTheNearest | src/samplecore/spectral_distance.py:51-75 | as many entries as the limit asks for and other rows there are, each another row once with its own distance, nearer before farther and a lower hash before a higher at the same distance, and every row left out farther than each one kept, or as far with a higher hash |
| SpectralDistance.NearestNeighbors | src/samplecore/spectral_distance.py:51-75 | nothing found exactly for an unknown hash; otherwise the nearest other rows, as many as asked for and there are, nearest first and by hash at the same distance, none nearer left out |
| Budgets.TouchingKeepsTheTable | src/sampleserver/visitors.py:101-109 | a touch keeps the table within its maximum, one bucket per key, ordered by last use, no bucket past capacity |
| Budgets.TouchedBuckets | src/sampleserver/visitors.py:101-109 | a touch changes only its key's bucket, and lets go of the first key alone |
| Budgets.TheIdlestIsForgotten | src/sampleserver/visitors.py:75-76 | a call forgets at most one key, and none held was used longer ago |
| BudgetLaws.BalancesRefill | src/sampleserver/visitors.py:101-109 | a key not held holds the capacity, and one held what its last use left and what came in since at the refill's rate, up to the capacity |
| BudgetLaws.AnswersArePlain | src/sampleserver/visitors.py:85-99 | asking and taking are granted exactly while the balance reaches what is needed, and otherwise answered with the time the refill takes to make up the difference; a charge is never refused |
| BudgetLaws.AnswersInTurn | src/sampleserver/visitors.py:85-99 | a run's answers are its calls' own, each over the table the calls before it left |
| BudgetLaws.SpendingComesOutOfTheBalance | src/sampleserver/visitors.py:85-109 | over any run of calls, what a remembered key spends and what it holds at the end stay within what it held and what refilled |
| BudgetLaws.TakesLeaveNoDebt | src/sampleserver/visitors.py:85-90 | a balance spent by `take` alone never goes below zero |
| BudgetLaws.GrantsStayWithinTheRate | src/sampleserver/visitors.py:72-90 | over any window a remembered key is granted at most the capacity and what refills in the window |
| BudgetLaws.QuietRunsMoveNoBalance | src/sampleserver/visitors.py:92-95 | calls that spend nothing of a key's leave its later balance as it would have been |
| BudgetLaws.WaitsAreExact | src/sampleserver/visitors.py:92-95 | with nothing spent in between, asking again is granted if and only if the cost fits the capacity and the wait has passed |
| BudgetLaws.AnswersAreExact | src/sampleserver/visitors.py:85-95 | the same whether or not the first answer was a grant |
| BudgetLaws.RetryAfterSuffices | src/sampleserver/visitors.py:132-138 | the whole seconds of `Retry-After` (section 10.2.3 of RFC 9110) are enough, and not a second too many |
| Forgetting.OneTouchTellsNothing | src/sampleserver/visitors.py:101-109 | a touch finds the bucket an unbounded table would find if and only if the key returns full |
| Forgetting.ForgettingTellsNothing | src/sampleserver/visitors.py:101-109 | over whole runs the bounded table answers as one that forgets no one, when each forgotten key returns only after it would have refilled |
| Forgetting.FullReturnsKeepTheRate | src/sampleserver/visitors.py:72-90 | under the same condition a key, forgotten however often, is granted at most the capacity and what refills in the window |
| Forgetting.TouchingKeepsTheLatest | src/sampleserver/visitors.py:101-109 | a bounded table holds the latest keys of the unbounded one, in the same order |
| Forgetting.ForgottenKeysReturnFull | src/sampleserver/visitors.py:107-108 | a key forgotten comes back full when no stretch of calls shorter than its refill from the deepest debt brings more keys than the table holds |
| Forgetting.FewKeysKeepTheRate | src/sampleserver/visitors.py:72-109 | with so few keys at once and no call leaving more than a given debt, every answer from an empty table on is the unbounded table's, and in any window every key is granted and charged at most the capacity, what refills and that debt |
| Forgetting.TakesOweNothing | src/sampleserver/visitors.py:85-90 | where every call takes or asks, no call leaves any key in debt |
| Forgetting.TheRateIsKeptExactlyForFewKeys | src/sampleserver/visitors.py:72-109 | for any debt allowed and any m: every run with at most m keys within a full refill keeps the rate in every window if and only if the table holds m keys |
| Forgetting.TakesKeepTheRateExactlyForFewKeys | src/sampleserver/visitors.py:72-109 | the same for runs that only take and ask, without any debt |
| Forgetting.AForgottenKeySpendsPastTheRate | src/sampleserver/visitors.py:107-108 | for a table of any size, a run of as many other keys in which one key is granted twice its capacity at one moment |
| Forgetting.AForgottenKeyIsChargedPastTheRate | src/sampleserver/visitors.py:97-109 | for a table of any size and any debt allowed, a run of as many other keys in which one key is charged twice its capacity and that debt at one moment |
| TokenBudgets.TokenBudget.constructor | src/sampleserver/visitors.py:79-83 | an empty table bounded at 65536 keys |
| TokenBudgets.TokenBudget.Refilled | src/sampleserver/visitors.py:101-109 | the table in place becomes the touched table, and the bucket answered is the key's as it stands now |
| TokenBudgets.TokenBudget.WaitFor | src/sampleserver/visitors.py:92-95 | the wait the key's balance calls for, spending nothing |
| TokenBudgets.TokenBudget.Charge | src/sampleserver/visitors.py:97-99 | the cost leaves the key's bucket, into debt where it must |
| TokenBudgets.TokenBudget.Take | src/sampleserver/visitors.py:85-90 | one call of the runs above: granted and charged, or refused with its wait and nothing spent |
| MorphGates.MorphGate.constructor | src/sampleserver/visitors.py:155-193 | a gate with every place free, and neither budget or both, empty, each holding a minute's morphs and refilling them over a minute |
| MorphGates.MorphGate.Enter | src/sampleserver/visitors.py:245-247 | a place is taken exactly while one is free |
| MorphGates.MorphGate.Leave | src/sampleserver/visitors.py:250-251 | the place is given back |
| MorphGates.MorphGate.Admit | src/sampleserver/visitors.py:198-226 | a request naming a render is admitted if and only if neither balance is below zero, and a new render if and only if both are at least one; one of both is spent only for a new render admitted; refused with the longer wait rounded up |
| MorphGates.GrantsArePlain | src/sampleserver/visitors.py:210-226 | both budgets grant a named render exactly while neither balance is below zero, and a new one exactly while both are at least one |
| MorphGates.AdmissionsSpend | src/sampleserver/visitors.py:210-233 | an admission spends one of its key's budget for a new render that both grant and otherwise nothing, and nothing of any other key |
| MorphGates.AskingAgain | src/sampleserver/visitors.py:198-226 | with nothing spent of either budget in between, both grant on asking again if and only if neither's capacity is below what is needed and both waits have passed; the whole seconds named suffice |
| MorphGates.MorphGate.ChargeBoth | src/sampleserver/visitors.py:228-233 | one morph of both budgets |
| MorphRoute.AdmissionCovers | src/sampleserver/visitors.py:201-226 | an admission leaves a balance covering what it lets owe, whatever is granted |
| MorphRoute.StepKeepsTheInvariant | src/sampleserver/routers/morph.py:141-178 | every arrival and finish keeps places within their number and both budgets covering the renders still owed |
| MorphRoute.StepsAreExact | src/sampleserver/routers/morph.py:141-178 | what one arrival or finish does: who is in flight from then on, and one render off the visitor's budget and everyone's exactly if a new render is admitted or a named one turns out new |
| MorphRoute.DebtStaysWithinThePlaces | src/sampleserver/visitors.py:180-187 | in every interleaving the renders in flight stay within the places and no balance falls below minus their number |
| MorphRoute.TheFirstState | src/sampleserver/visitors.py:189-193 | the gate before any request satisfies what every step keeps |
| MorphRoute.RendersStayWithinTheRate | src/sampleserver/visitors.py:169-173 | over any window all renders charged are at most capacity, refill and the places |
| MorphRoute.EveryRenderIsPaidFor | src/sampleserver/routers/morph.py:141-178 | over every run both budgets are charged exactly one for each render delivered anew, and each visitor for its own |
| MorphRoute.AVisitorStaysWithinTheRate | src/sampleserver/visitors.py:164-168 | the same for one remembered visitor |
| MorphRoute.EventsAreCalls | src/sampleserver/routers/morph.py:141-178 | what a run of arrivals and finishes does to the visitors' table and charges a visitor is what its calls do in turn, none leaving more debt than the places |
| MorphRoute.FewVisitorsKeepTheRate | src/sampleserver/visitors.py:164-168 | the same for every visitor in any window, forgotten or not, while no stretch shorter than a refill of capacity and places brings more visitors than the table holds |
| MorphRoute.RefusalsSpendNothing | src/sampleserver/visitors.py:198-226 | a request turned away leaves every later balance as it would have been |
| Grids.SumsSwap | frontend/src/cloud/densityField.ts:74-85 | a double sum over a window comes out the same rows first or columns first |
| BoxBlur.PassesCommute | frontend/src/cloud/densityField.ts:89-95 | a row pass and a column pass give the same field in either order, edges included |
| BoxBlur.EveryCellIsItsWindowsMean | frontend/src/cloud/densityField.ts:67-87 | a pass makes every cell the mean of itself and `radius` cells to either side along its row or its column, the edge cell standing in past the end |
| BoxBlur.TheBlurIsRowsThenColumns | frontend/src/cloud/densityField.ts:89-95 | the alternating blur is all row passes and then all column passes |
| BoxBlur.APassKeepsBounds | frontend/src/cloud/densityField.ts:67-87 | a pass keeps every colour sum between any two multiples of its count |
| BoxBlur.TheBlurKeepsBounds | frontend/src/cloud/densityField.ts:97-101 | so does the whole blur, whatever the radius and the number of passes |
| BoxBlur.BoxBlurPass | frontend/src/cloud/densityField.ts:71-87 | the nested loops leave in every cell the mean of its window, the edge standing in past the end |
| BoxBlur.BlurChannel | frontend/src/cloud/densityField.ts:89-95 | the passes in turn, a channel returned as it is for none |
| DensityField.CellsCoverTheSpan | frontend/src/cloud/densityField.ts:52-53 | a place along an axis is a cell exactly from the span's start up to, without, its end |
| DensityField.CountedExactlyInTheDomain | frontend/src/cloud/densityField.ts:48-56 | a node is counted if and only if it is outside the excluded slot and inside the domain, right and bottom edges left out |
| DensityField.NodesAreCountedWhereTheyLie | frontend/src/cloud/densityField.ts:46-57 | a node is counted in the cell of a row and a column if and only if it is not left out and lies in that part of the domain's width, from the left, and of its height, from the top, whichever way the domain runs |
| DensityField.PartsRunUpOrDown | frontend/src/cloud/densityField.ts:52-53 | a column runs from its left edge up to its right one, a row from its top edge down to its bottom one, the right and bottom edges left out |
| DensityField.ColorsAreQuadruples | frontend/src/cloud/densityField.ts:58-62 | a slot's colour is its quadruple of the palette, and nothing for a slot past it |
| DensityField.AccumulateDensity | frontend/src/cloud/densityField.ts:30-65 | every cell holds how many nodes lie in its part of the domain and are not left out, and the sums of their colours' red, green and blue |
| DensityField.CountsAddUp | frontend/src/cloud/densityField.ts:48-59 | the counts add up to the nodes counted |
| DensityField.TalliesKeepBounds | frontend/src/cloud/densityField.ts:57-62 | a cell's colour sum lies between its nodes' least and greatest colour times its count |
| DensityField.BlurDensity | frontend/src/cloud/densityField.ts:102-110 | count and colours blur alike, into buffers that stay apart |
| DensityField.AveragesStayAmongTheirNodes | frontend/src/cloud/densityField.ts:97-101 | from the nodes to the last pass, a painted cell's average lies between the counted nodes' least and greatest colour, so within 0 to 255 |
| DensityField.FindDensest | frontend/src/cloud/densityField.ts:120 | the greatest count, and zero when none is above it |
| DensityField.OpacityRisesToItsBound | frontend/src/cloud/densityField.ts:112-117 | opacity rises with the count, reaches `opacity` at the densest cell, and never passes it |
| DensityField.ToByteKeepsOrder | frontend/src/cloud/densityField.ts:130-133 | a larger value is stored as no smaller a byte |
| DensityField.ACellShowsItsAverages | frontend/src/cloud/densityField.ts:122-134 | a painted cell's bytes are nearest to its average red, green and blue and to 255 times `opacity` in the share its count's logarithm is of the densest's; an empty one's are zero |
| DensityField.GlowPixels | frontend/src/cloud/densityField.ts:118-136 | every cell painted with its average colours and opacity, empty cells and an empty field left transparent |
| MorphHistories.RememberingKeepsTheColumns | frontend/src/morph/morphHistory.ts:49-66 | remembering any pair keeps both columns distinct and within 50, and puts the pair's samples in them |
| MorphHistories.ArrivalsGoOnTop | frontend/src/morph/morphHistory.ts:49-58 | a new arrival goes on top of its column above the latest 49, and one that stands there already, or none, changes nothing |
| MorphHistories.AtMostAHundredStayBehind | frontend/src/morph/morphHistory.ts:68-79 | a change leaves behind it what lay there and the snapshot changed away from, the latest hundred of them, and nothing ahead |
| MorphHistories.UndoMovesTheCursorBack | frontend/src/morph/morphHistory.ts:81-95 | undo leaves the whole line as it is and moves one back along it |
| MorphHistories.RedoMovesTheCursorForward | frontend/src/morph/morphHistory.ts:97-111 | redo leaves the whole line as it is and moves one forward along it |
| MorphHistories.AChangeCutsAndAppends | frontend/src/morph/morphHistory.ts:68-79 | a change cuts what lies ahead, appends, and keeps the last hundred behind it |
| MorphHistories.TheLineTellsTheStacks | frontend/src/morph/morphHistory.ts:18-24 | the line and the cursor determine the present and both stacks |
| MorphStores.MirroredWeightsAreExact | frontend/src/morph/morphStore.ts:31-34 | mirroring a weight of the grid is exact, and snapping leaves the grid alone |
| MorphStores.ActionsKeepTheInvariant | frontend/src/morph/morphStore.ts:138-206 | every action keeps the stacks within a hundred together, the columns sound and holding both ends, and the ends different in the present and in every snapshot |
| MorphStores.RunsKeepTheInvariant | frontend/src/morph/morphStore.ts:138-206 | the same over every visit, from any sound saved columns |
| MorphStores.AnEndTakesItsSample | frontend/src/morph/morphStore.ts:88-168 | the end named takes the sample; where the other end held it, that end takes what the first held and the weight is mirrored; the change is recorded, drawn at the slider where the pair is whole |
| MorphStores.TheEndsTrade | frontend/src/morph/morphStore.ts:169-171 | a swap trades the ends and mirrors the weight, recorded in the same way |
| MorphStores.TheSelectedEndTakesASample | frontend/src/morph/morphStore.ts:181-191 | a sample at neither end goes to the selected one, the selection moving on while the other is empty; one at an end changes nothing |
| MorphStores.OtherActionsMoveOneThing | frontend/src/morph/morphStore.ts:172-205 | the slider, the mark, the selection and forgetting the columns each change one thing and nothing else |
| MorphStores.SwappingTwiceRestores | frontend/src/morph/morphStore.ts:107-110 | two swaps restore the ends and the weight, a whole pair drawn at the slider |
| MorphStores.DrawnWholeExactlyWhenMarkedWhole | frontend/src/morph/morphStore.ts:39-43 | at every moment nothing is drawn while an end is missing, if and only if every mark falls with both ends chosen |
| MorphStores.AMarkMayDrawNothing | frontend/src/morph/morphStore.ts:175-177 | a mark on a fresh visit draws a point of no pair |
| MorphStores.ThePastIsWhatWasChanged | frontend/src/morph/morphStore.ts:139-150 | over any actions but undo and redo, the past gains the pairs changed away from, in order, and keeps the last hundred |
| MorphStores.UndosMoveTheCursorBack | frontend/src/morph/morphStore.ts:152-160 | any number of undos leaves the line and moves the cursor back by as many |
| MorphStores.RedosMoveTheCursorForward | frontend/src/morph/morphStore.ts:152-160 | any number of redos leaves the line and moves the cursor forward by as many |
| MorphStores.UndosShowThePriors | frontend/src/morph/morphHistory.ts:81-95 | after a run of up to a hundred changes, the k-th undo shows the pair the k-th last change was made from |
| MorphStores.UndosReturnToTheStart | frontend/src/morph/morphStore.ts:130-136 | a run that starts with a change and makes at most a hundred is brought back by as many undos to the pair, drawn point and weight it started from |
| MorphStores.RedosRestoreTheRun | frontend/src/morph/morphHistory.ts:97-111 | as many redos as undos bring a run of up to a hundred changes back, pair, past and future |
| MorphStores.RedoAfterUndo | frontend/src/morph/morphHistory.ts:81-111 | redo after undo restores pair and stacks, and the columns if and only if they held the pair undone to |
| MorphStores.MorphStore.constructor | frontend/src/morph/morphStore.ts:162-164 | a fresh visit over the saved columns |
| MorphStores.MorphStore.Commit | frontend/src/morph/morphStore.ts:139-150 | a change is recorded once, an unchanged pair not at all, and what is saved stays what the columns hold |
| MorphStores.MorphStore.Restore | frontend/src/morph/morphStore.ts:152-160 | the restored pair and history, with the columns saved |
| MorphStores.MorphStore.SetEnd | frontend/src/morph/morphStore.ts:165-168 | the step of the state machine for naming an end, trading places where the other end holds the sample |
| MorphStores.MorphStore.Swap | frontend/src/morph/morphStore.ts:169-171 | the step for a swap |
| MorphStores.MorphStore.SetWeight | frontend/src/morph/morphStore.ts:172-174 | the step for the slider, recorded nowhere |
| MorphStores.MorphStore.MarkRendered | frontend/src/morph/morphStore.ts:175-177 | the step for a mark, whatever the ends |
| MorphStores.MorphStore.SelectEnd | frontend/src/morph/morphStore.ts:178-180 | the step for a selection |
| MorphStores.MorphStore.TakeSample | frontend/src/morph/morphStore.ts:181-191 | the step for a picked sample, the selection moving on while the other end is empty |
| MorphStores.MorphStore.Undo | frontend/src/morph/morphStore.ts:192-194 | the step for an undo, nothing without a past |
| MorphStores.MorphStore.Redo | frontend/src/morph/morphStore.ts:195-197 | the step for a redo, nothing without a future |
| MorphStores.MorphStore.ForgetHeld | frontend/src/morph/morphStore.ts:198-205 | both columns left with the ends' samples alone |
| CongruentialGenerator.Random.constructor | frontend/dev/densifyCloud.ts:47-48 | the whole seed's remainder by the modulus, negative for a negative seed |
| CongruentialGenerator.Random.Draw | frontend/dev/densifyCloud.ts:49-52 | the next state over the modulus, in [0, 1) from a state that is not negative, its product below 2^53 whatever its sign |
| CongruentialGenerator.StepsAreIterations | frontend/dev/densifyCloud.ts:46-53 | from a state that is not negative the draws are those of the generator over its 2^32 states |
| CongruentialGenerator.DrawsStayInTheUnitInterval | frontend/dev/densifyCloud.ts:46-53 | every draw after a seed lies in [0, 1) if and only if the seed's remainder by 2^32 is at least -609 or the one state below that is led to 0 |
| CongruentialGenerator.IterateClosedForm | frontend/dev/densifyCloud.ts:50 | after n draws the state has moved by a fixed odd drift times the sum of the multiplier's first n powers |
| CongruentialGenerator.ReturnsExactlyEveryModulus | frontend/dev/densifyCloud.ts:46-53 | a state returns after n draws if and only if n is a multiple of 2^32 |
| CongruentialGenerator.FullPeriod | frontend/dev/densifyCloud.ts:46-53 | two draws leave the same state if and only if they stand a whole number of 2^32 draws apart |
| CongruentialGenerator.NextIsABijection | frontend/dev/densifyCloud.ts:50 | on the states below 2^32 different states step to different ones, and each is stepped to by one of them, `Previous` undoing a step |
| CongruentialGenerator.DrawsFollowTheFirst | frontend/dev/densifyCloud.ts:46-53 | whatever the state, every draw lies in [0, 1) if and only if the first does, and the first is negative exactly if its state is |
| CongruentialGenerator.ASeedMayDrawBelowNothing | frontend/dev/densifyCloud.ts:46-53 | seed -1000 draws the state -650620777, below zero, first |
| Apportionment.CloneCounts | frontend/dev/densifyCloud.ts:95-106 | the running loop gives each cluster the difference of its rounded prefix shares, the last taking the remainder |
| Apportionment.CountsAreAProportionalSplit | frontend/dev/densifyCloud.ts:91-94 | where the shares are numbers, counts are nonnegative and add up exactly, and every prefix stays within one of its share |
| Apportionment.CountsAddUpUnlessShareless | frontend/dev/densifyCloud.ts:95-106 | the counts add up to what was asked if and only if the shares are numbers, which neither 0/0 nor anything made of a weight that is no number is, and to nothing otherwise |
| Shuffle.ShuffledIsAPermutation | frontend/dev/densifyCloud.ts:137-149 | whatever is drawn, no item is lost or repeated |
| Shuffle.ShuffleIsABijection | frontend/dev/densifyCloud.ts:137-149 | of the choices the draws can make, exactly one gives each order of distinct items |
| Shuffle.DrawnChoicesAreChoices | frontend/dev/densifyCloud.ts:140 | a draw in [0, 1) chooses a place up to its index |
| Shuffle.PlacesShareTheUnit | frontend/dev/densifyCloud.ts:140 | of the places up to a position a draw names the one whose equal part of the unit interval it falls in |
| Shuffle.EachPositionHasItsDraw | frontend/dev/densifyCloud.ts:137-149 | the last position takes the first draw, the one before it the second, and so on down to the second position |
| Shuffle.TheLastIsChosenFirst | frontend/dev/densifyCloud.ts:137-149 | the item chosen for the last position ends there, and the others are shuffled in turn, the last standing in for it |
| Shuffle.Shuffled | frontend/dev/densifyCloud.ts:137-149 | the loop makes the swaps its draws choose, one draw a place but the first |
| Densifier.AsManyClonesAsAskedFor | frontend/dev/densifyCloud.ts:169-179 | as many clones are made as asked for if there is one point, or the first state drawn is not negative and some point weighs something, and none otherwise |
| Densifier.ClustersWeighAsTheirPoints | frontend/dev/densifyCloud.ts:79-86 | from a first state that is not negative every weight is a number and the clusters weigh nothing if and only if the points do; from a negative one the first weight is no number, and so no share of two clusters or more |
| Densifier.ClustersAreDrawn | frontend/dev/densifyCloud.ts:55-86 | a point's cluster is made of its own six draws: a pair for the number that spreads its weight, and one for each reach |
| Densifier.ClonesAreTheirClusters | frontend/dev/densifyCloud.ts:126-179 | the clones stand one cluster after another, each cluster's as many as counted, each clone from the draws behind the one before it: an outlier of three where the first lies below a hundredth, and otherwise one near its parent of five |
| Densifier.ClusterOf | frontend/dev/densifyCloud.ts:79-86 | a point's cluster from the next six draws, two for its weight and two for each reach |
| Densifier.Clusters | frontend/dev/densifyCloud.ts:72-87 | each point's cluster in turn, six draws a point |
| Densifier.CloneOf | frontend/dev/densifyCloud.ts:126-135 | an outlier from three draws or a clone near its parent from five |
| Densifier.Clones | frontend/dev/densifyCloud.ts:173-179 | each cluster's clones in turn, as many as its count, drawn from the generator's state on |
| Densifier.DensifyPoints | frontend/dev/densifyCloud.ts:159-181 | the cloud as a function of the points, the seed and the target: clusters, counts, clones and shuffle drawn in turn from one generator |
| Densifier.TheCloudIsAsAskedFor | frontend/dev/densifyCloud.ts:159-181 | the given points first and unchanged, then a permutation of the clones; exactly `targetCount` in all if and only if there is one point, or the first state drawn is not negative and some weight is not zero, and the given points alone otherwise |
| Densifier.ASeedMayGrowNothing | frontend/dev/densifyCloud.ts:55-58 | with seed -1000 two points or more get no clone, whatever they weigh and however many are asked for |

## Left out

- Postgres, SQLAlchemy, files and their contents, TrackMod parsing, UMAP, librosa and torch: the catalog is a set or a
  map changed by atomic commits, and what a file holds and how its content would ingest are inputs.
- SHA-256, and how a digest is computed from paths, sizes and write times.
- Floating-point rounding, and 32-bit floats in the density buffers.
- The prune of samples and stored objects no remaining module holds, and of annotations.
- Worker processes splitting a share: `ExtractionPass.CombiningKeepsTheAccount` covers what their summaries combine to.
- Whether the cloud keeps its layout (`_laid_out`), and everything after the vectors are stored.
- A directory that changes during the walk, or whose status cannot be read after it was listed.
- `Prefetch.Prefetched.Next`: the thread is folded into the queue, so an item counts as worked on once queued, and
  shutting the executor down is not modelled.
- `Densifier.DensifyPoints`: the exponentials, logarithms, roots, cosines and rounding that make weights, reaches and
  coordinates of the draws are parameters, but for where they give no number.
- `CongruentialGenerator.Random.constructor`: a seed that is not a whole number is not modelled, because its products
  lie between doubles and are rounded.
- `SpectralDistance.NearestNeighbors`: `np.partition` is taken to put the value a full sort would put at its index
  there; vectors of unequal length, which `euclidean_distance` refuses, do not occur.
- `MorphStores.MorphStore.Set`: storage is taken to accept what is saved; a weight that is not a number is not modelled.
- `DensityField.AccumulateDensity`: a NaN coordinate is modelled as a missing one; slots are whole numbers.
- Other axes than the frames' in `average_to_fraction_points` and `resample_to_fraction_points`, and the resampling by
  rate or semitones beside them.
- Visitors' address parsing, the middleware's path rules, serving policy, configuration and command-line parsing.
- Progress bars, logging, thumbnails' content, React components, WebGL, and the schema files generated from the API.
