# AnimeManager: a model of its stores, queues and sessions

AnimeManager keeps an anime catalogue that many providers feed at once. This project models the
parts of it that change shared state step by step, and proves what holds over whole runs of them.

- **Catalogue** (`CatalogIdentity`, `CatalogModel`, `CatalogIndex`, `CatalogRepair`, `CatalogOrder`,
  `CatalogStore`).
  An index row gives one internal id up to four external ids; satellite tables (torrents, synonyms,
  genres, pictures, relations, broadcasts) and link tables hang off the internal id. `CatalogStore` is
  the store as a class, with the loops of lookup, allocation, merge and repair. `CatalogModel` defines
  one merge (`Fold`), a run of merges over a log (`Run`) and where an id ends up (`Resolve`).
  `CatalogRepair` proves that repair by provider id makes every column injective in whatever order the
  columns are visited, that the title pass does not undo this, and when a title merge loses external
  ids. `CatalogOrder` proves what the column order can and cannot change.
- **Connection pool** (`ConnectionPool`). The created counter drifts from the connections that exist;
  the true invariant has a slack term, the resulting bound is tight, and the drift is computed exactly;
  so is what a pool can still serve when no connection ever passes the validity test.
  Validity and factory success are arbitrary answers of the environment.
- **Persistence queue** (`PersistenceQueue`, `QueueWorker`). Producers, worker, `flush_now` and stop as
  interleaved steps; and the worker's own loop against an explicit clock.
- **Transcoding** (`TranscodeSeek`, `Transcoder`). Seek arithmetic over `real`, and the bounded table of
  live encoder processes.
- **Search** (`SearchStream`, `JobPool`). Deduper, bounded stream and close sentinel under any schedule,
  and the job threads with their semaphore.
- **Collections** (`Ordering`, `SortedDict`, `SortedList`, `ItemMerge`). The comparison, merge sort,
  binary insertion and search, and the merge of provider results.
- **Row stores** (`Metadata`, `UserTags`). Two ways of saving metadata, and the user-tag upserts.

Methods follow the source's loops and are proved against functions; the laws are lemmas about these
functions. `dafny verify dfyconfig.toml` checks everything.

Where the code does something its names or comments would not suggest, the model follows the code:

- The columns are visited in the iteration order of a frozenset, and this order can decide which rows
  survive a repair (`CatalogOrder.ColumnOrderMatters`); so can the order of the rows in a result set
  (`CatalogOrder.RowOrderMatters`). Neither can in an anchored catalogue
  (`CatalogOrder.AnchorsAreLeft`), and columns are injective at the end in any case.
- A title merge may fold a row with external ids into an anime that has no `indexList` row; its ids are
  then lost (`CatalogRepair.TitlePassMayLoseIds`).
- The validity test returns nothing for connections with a `ping` method, so they always read as
  invalid. They are never queued again, and every first connection that a get meets inflates the
  counter: such a pool may refuse gets with only size less first connections out
  (`ConnectionPool.RefusalLevels`). It starves for good only if it has at most five places, all
  filled at the start (`ConnectionPool.StarvesOnlyIfMadeFull`).
- Only a discard stops the pool's counter at zero; an invalid connection returned after a drain takes
  it below (`ConnectionPool.CounterMayBeNegative`).
- The list-removal `save_metadata` deletes a requested value that is stored more often than it is
  requested (`Metadata.ListSaveIsExact`).
- Entering the watching tag opts in by default, but not when the tag carries surrounding blanks
  (`UserTags.OptInNeedsABareTag`).
- Reading a `SortedDict` sorts it, and the sort reverses equal items, so reading is not idempotent
  (`SortedDict.SortingAgain`).

## Model

| member | source | states |
|---|---|---|
| `CatalogIdentity.PreferredIsLeast` | domain/catalog.py:17-28 | `preferred_catalog_id` is the least element of one total order (positive ids ascending, before the others ascending); it refuses exactly the empty list |
| `CatalogModel.FoldSlotsAt` | adapters/persistence/catalog_repository.py:182-358 | one merge, slot by slot: the canonical row wins a clash, otherwise the duplicate's row moves with its columns, the duplicate keeps nothing, every other owner is untouched |
| `CatalogModel.MergeKeepsLookups` | adapters/persistence/catalog_repository.py:111-133 | an external id can still be looked up after a merge if and only if it could before and it is not the case that only the duplicate held it while the canonical row was missing or already held another value there |
| `CatalogModel.MergeLosesALookup` | adapters/persistence/catalog_repository.py:111-133 | a concrete merge of two rows with different MAL ids after which one of them answers no lookup |
| `CatalogModel.MergeKeepsInjective` | adapters/persistence/catalog_repository.py:360-411 | a merge never makes two rows share a column value that were distinct before |
| `CatalogModel.RunKeys` | adapters/persistence/catalog_repository.py:392-400 | over a whole run exactly the folded ids leave `indexList` and `anime`, and no id appears |
| `CatalogModel.RunTitles` | adapters/persistence/catalog_repository.py:392-400 | a surviving anime row keeps its title over a whole run |
| `CatalogModel.RunKeepsInjective` | adapters/persistence/catalog_repository.py:423-446 | a column that is injective stays so over any run of merges |
| `CatalogModel.RunUnitesSlots` | adapters/persistence/catalog_repository.py:182-358 | at the end an id owns a satellite value if and only if some id that was redirected to it owned it at the start, and the other columns come, unmixed, from one such row |
| `CatalogModel.RunCanonicalWins` | adapters/persistence/catalog_repository.py:262-285 | a row of an id that is never folded keeps its own columns over a whole run (pictures, relations, broadcasts) |
| `CatalogModel.RunConservesPlaces` | adapters/persistence/catalog_repository.py:182-216 | the overall set of torrent hashes, synonyms, genres and other satellite values is the same before and after a run |
| `CatalogModel.RunRedirectsLinks` | adapters/persistence/catalog_repository.py:377-390 | every `characterRelations` and `user_tags` row is kept, in order, with its anime id replaced by the surviving id; none is lost or merged |
| `CatalogModel.RunUnitesIndex` | adapters/persistence/catalog_repository.py:366-375 | for every strategy: a surviving row has a column set if and only if some row redirected to it had, with one of their values, and what it had set itself is never overwritten |
| `CatalogModel.ResolveDescends` | adapters/persistence/catalog_repository.py:438-444 | ids are only redirected to strictly preferred ids, and a positive id never to a provisional one |
| `CatalogModel.ResolveSettles` | adapters/persistence/catalog_repository.py:438-444 | redirect chains end in an unfolded id, an id is its own end exactly when it was never folded, and resolving twice is resolving once |
| `CatalogModel.FoldedOwnNothing` | adapters/persistence/catalog_repository.py:360-411 | a folded id owns no index row, title, satellite row or link at the end |
| `CatalogModel.LiveCount` | adapters/persistence/catalog_repository.py:423-446 | the number of `indexList` rows falls by exactly one per merge of a run that merges rows of the table |
| `CatalogModel.MostPreferredSurvives` | domain/catalog.py:17-28 | for every strategy: the most preferred of all index and anime ids is never folded away and stays in each table it is in |
| `CatalogRepair.PassDuplicates` | adapters/persistence/catalog_repository.py:430-445 | a pass over any grouping folds exactly the ids that are not the preferred one of their group, each once, into a preferred id that is not folded itself |
| `CatalogRepair.PassIsOrderly` | adapters/persistence/catalog_repository.py:430-445 | the log of a pass satisfies everything the laws about whole runs ask for |
| `CatalogRepair.PassResolves` | adapters/persistence/catalog_repository.py:430-445 | after a pass every grouped id resolves to the preferred id of its own group, and no other id moves |
| `CatalogRepair.PassOverInjective` | adapters/persistence/catalog_repository.py:430-445 | a pass merges nothing if and only if no two ids share a key |
| `CatalogRepair.InjectiveKeys` | adapters/persistence/catalog_repository.py:428-436 | an index column is injective exactly when the grouping by that column has no clash (NULLs group with nothing) |
| `CatalogRepair.ColumnPassRepairs` | adapters/persistence/catalog_repository.py:426-446 | one column pass makes its column injective and keeps every other injective column injective, although it rewrites those columns |
| `CatalogRepair.ProviderRunIsLive` | adapters/persistence/catalog_repository.py:423-446 | for any list of columns in any order, every merge folds a present row into a present, strictly preferred one, and the count returned is the drop in rows |
| `CatalogRepair.ProviderRunRepairs` | adapters/persistence/catalog_repository.py:423-446 | for any list of columns in any order, every visited column is injective at the end |
| `CatalogRepair.ProviderRunOverRepaired` | adapters/persistence/catalog_repository.py:423-446 | a repair merges nothing if and only if every visited column was injective already |
| `CatalogRepair.ProviderRepair` | adapters/persistence/catalog_repository.py:423-446 | over all four columns: all injective at the end, count equal to the drop in rows, and no merges exactly on a repaired catalogue |
| `CatalogRepair.TitlePassRepairs` | adapters/persistence/catalog_repository.py:448-476 | the title pass leaves no two rows with the same normalised non-empty title, keeps every injective column injective, and counts the anime rows lost |
| `CatalogRepair.TitlePassMergesNamesakes` | adapters/persistence/catalog_repository.py:452-475 | every merge of a title pass is of two rows whose titles are not blank and equal when trimmed and lower-cased |
| `CatalogRepair.TitlePassOverDistinct` | adapters/persistence/catalog_repository.py:452-475 | a title pass merges nothing if and only if no two rows share such a title |
| `CatalogRepair.TitlePassLeaves` | adapters/persistence/catalog_repository.py:452-475 | exactly the anime rows without a preferred namesake are left |
| `CatalogRepair.TitlePassMayLoseIds` | adapters/persistence/catalog_repository.py:448-476 | a column set in a row is set at its survivor after a title pass if and only if the preferred id of the title group has an index row; otherwise a value only this row held is lost to every lookup |
| `CatalogRepair.TitleMergeLosesAnId` | adapters/persistence/catalog_repository.py:448-476 | a concrete catalogue in which the title pass folds the only row with a MAL id into an anime without an index row |
| `CatalogRepair.FullRepair` | adapters/persistence/catalog_repository.py:413-421 | provider pass then title pass: one orderly run (strictly preferring, no id folded twice, what lands on an id without an index row stays there), all columns injective and all titles distinct at the end |
| `CatalogOrder.MergesRelatives` | adapters/persistence/catalog_repository.py:423-446 | in every column order, rows are only ever merged within a family: rows connected by chains of shared values |
| `CatalogOrder.HeadsSurvive` | adapters/persistence/catalog_repository.py:423-446 | in every column order the preferred row of every family survives |
| `CatalogOrder.SurvivorsShareNothing` | adapters/persistence/catalog_repository.py:423-446 | in every column order, two rows that shared a value do not both survive |
| `CatalogOrder.SureRelativesMeet` | adapters/persistence/catalog_repository.py:423-446 | in every column order, rows connected by values that no relative contradicts end as one row |
| `CatalogOrder.OneRowPerFamily` | adapters/persistence/catalog_repository.py:423-446 | in a coherent catalogue (what uncontested values hold together is led by the head of the family or by a row sharing a value with it) exactly the preferred row of each family survives, for every column order and row order |
| `CatalogOrder.ColumnOrderDoesNotMatter` | shared/contracts.py:108 | in an anchored catalogue, so in every coherent one, any two iteration orders of the columns, and any orders of the rows, leave the same ids and merge equally often |
| `CatalogOrder.ClashesInOneColumnCohere` | adapters/persistence/catalog_repository.py:423-446 | a catalogue in which no row shares values with other rows in two columns is coherent |
| `CatalogOrder.OneClashingColumnCoheres` | adapters/persistence/catalog_repository.py:423-446 | so is one in which all columns but one are injective |
| `CatalogOrder.LookupsKept` | adapters/persistence/catalog_repository.py:423-446 | a full repair of a coherent catalogue keeps every external id of a family in a column answerable if and only if the family has no two values there |
| `CatalogOrder.AnchorsSurvive` | adapters/persistence/catalog_repository.py:423-446 | in every catalogue and order, a row that no preferred relative can come to share a value with survives |
| `CatalogOrder.AnchorsAreLeft` | adapters/persistence/catalog_repository.py:423-446 | in an anchored catalogue (what uncontested values hold together is led by an anchor or by a row sharing a value with one) exactly the anchors survive, possibly several of a family, for every column order and row order |
| `CatalogOrder.CoherentIsAnchored` | adapters/persistence/catalog_repository.py:423-446 | every coherent catalogue is anchored, by the heads of its families |
| `CatalogOrder.SeveralMayStay` | adapters/persistence/catalog_repository.py:423-446 | a concrete anchored, incoherent family of which every order leaves the same two rows |
| `CatalogOrder.ColumnOrderMatters` | shared/contracts.py:108 | a concrete catalogue, not anchored, and two full repairs of it over all four columns, one leaving rows 1 and 3, the other row 1 alone |
| `CatalogOrder.RowOrderMatters` | adapters/persistence/catalog_repository.py:428-445 | a concrete catalogue and two full repairs of it with the same column order, differing in the order in which one group is folded, that leave different rows |
| `CatalogOrder.AnchorsAreNotNeeded` | adapters/persistence/catalog_repository.py:423-446 | a concrete catalogue, not anchored, of which every full repair leaves the same single row: the condition is sufficient, not necessary |
| `CatalogIndex.NormalizedSnoc` | adapters/persistence/catalog_repository.py:135-142 | an entry contributes its column to the normalised ids exactly when its key is a column and its value is not NULL |
| `CatalogIndex.NormalizeKeepsOrder` | adapters/persistence/catalog_repository.py:136-142 | the normalised ids are the usable entries, in the caller's order, and nothing else |
| `CatalogIndex.FirstMatchIsFirstKnown` | adapters/persistence/catalog_repository.py:144-148 | the pair that decides which row is reused is the first entry of the dictionary that any row answers |
| `CatalogIndex.AllocatedCompletes` | adapters/persistence/catalog_repository.py:135-168 | after `allocate` the returned row holds what it held and, in its free columns, exactly the offered values; no other row changes |
| `CatalogIndex.AnswersAgree` | adapters/persistence/catalog_repository.py:64-95 | single and batch lookup are bound to give the same answer for every external id if and only if the column is injective |
| `CatalogIndex.AllocatedHolders` | adapters/persistence/catalog_repository.py:135-168 | after `allocate` a row holds a pair if and only if it did before, or it is the returned row, the pair was offered and its column was free |
| `CatalogIndex.AllocateTwice` | adapters/persistence/catalog_repository.py:135-168 | a second `allocate` with the same ids is bound to return the same id and write nothing if and only if the row was found through a pair no other row holds, or has taken an earlier pair |
| `CatalogIndex.AllocateTwiceInjective` | adapters/persistence/catalog_repository.py:135-168 | on an injective index that condition always holds |
| `CatalogIndex.AllocateKeepsInjective` | adapters/persistence/catalog_repository.py:135-168 | `allocate` keeps the index injective if and only if no offered value is held by a row other than the returned one, unless the returned row already had that column set |
| `CatalogIndex.SetIdsNeverChange` | adapters/persistence/catalog_repository.py:111-168 | along any run of allocations and backfills an external id, once set, never changes |
| `CatalogStore.Enumerate` | adapters/persistence/catalog_repository.py:428-436 | a result set lists each row once, in no promised order |
| `CatalogStore.GroupByKey` | adapters/persistence/catalog_repository.py:433-436 | `groups` partitions the rows: every keyed id, alone or not, is in the list of its key exactly once |
| `CatalogStore.GroupFolds` | adapters/persistence/catalog_repository.py:437-445 | merging one group folds exactly its non-preferred ids and no id already folded |
| `CatalogStore.NothingLeft` | adapters/persistence/catalog_repository.py:392-400 | after repointing, the closing deletes find no satellite row of the duplicate left to lose |
| `CatalogStore.AppendColumn` | adapters/persistence/catalog_repository.py:97-109 | reading one more set column adds exactly that column to the row's external ids |
| `CatalogStore.PrimaryKey` | adapters/persistence/catalog_repository.py:150 | the key a new row is inserted with is the alphabetically first of the offered columns |
| `CatalogStore.CatalogStore.FindColumn` | adapters/persistence/catalog_repository.py:64-72 | returns a row holding the value if there is one and None exactly if there is none |
| `CatalogStore.CatalogStore.FindByExternal` | adapters/persistence/catalog_repository.py:64-72 | as above, and fails exactly on a key that is none of the four columns |
| `CatalogStore.CatalogStore.FindByExternalBatch` | adapters/persistence/catalog_repository.py:74-95 | answers every requested pair correctly and no other; the whole batch fails exactly when some key is none of the four columns |
| `CatalogStore.CatalogStore.GetExternalIds` | adapters/persistence/catalog_repository.py:97-109 | returns the row's set columns under distinct names, empty when there is no row |
| `CatalogStore.CatalogStore.BackfillEntry` | adapters/persistence/catalog_repository.py:119-133 | one entry fills the row's column exactly when its key is a column, its value is not NULL and the column is |
| `CatalogStore.CatalogStore.BackfillExternalIds` | adapters/persistence/catalog_repository.py:111-133 | the row gains exactly the offered columns it did not have; every set column and every other row is unchanged |
| `CatalogStore.CatalogStore.GetId` | adapters/persistence/embeddedMariaDB.py:1270-1316 | finds the row of the pair and writes nothing, or inserts one row with only that column |
| `CatalogStore.CatalogStore.AllocateNew` | adapters/persistence/catalog_repository.py:150-157 | when no pair is known, one row appears holding exactly the offered ids |
| `CatalogStore.CatalogStore.Allocate` | adapters/persistence/catalog_repository.py:135-168 | fails, writing nothing, exactly when no entry is usable; reuses the row of the first usable entry that any row answers, makes a new row if none is answered, and fills exactly the free columns with what is offered |
| `CatalogStore.CatalogStore.SelectPlaces` | adapters/persistence/catalog_repository.py:183-191 | lists exactly the values the id owns in the table |
| `CatalogStore.CatalogStore.RepointRow` | adapters/persistence/catalog_repository.py:192-216 | one dedupe key: dropped when the canonical id has it, else moved with its columns; nothing else changes |
| `CatalogStore.CatalogStore.Repoint` | adapters/persistence/catalog_repository.py:182-253 | the row-by-row loop as a whole: in this table canonical wins clashes and the rest moves; other tables and owners unchanged |
| `CatalogStore.CatalogStore.RepointBroadcasts` | adapters/persistence/catalog_repository.py:288-314 | the same for broadcasts: moved only when the canonical id has none, else dropped |
| `CatalogStore.CatalogStore.RepointAll` | adapters/persistence/catalog_repository.py:360-376 | the sequence of repoint calls equals one fold of all satellite tables |
| `CatalogStore.CatalogStore.MergeIndex` | adapters/persistence/catalog_repository.py:366-375 | the canonical row's NULL columns are filled from the duplicate; the duplicate's own row and the rest of the index are unchanged |
| `CatalogStore.CatalogStore.DeleteId` | adapters/persistence/catalog_repository.py:392-400 | removes everything still stored under the id and nothing else |
| `CatalogStore.CatalogStore.Merge` | adapters/persistence/catalog_repository.py:360-411 | the whole new store is one fold of the old one, the identity when both ids are equal; the canonical id is returned |
| `CatalogStore.CatalogStore.DeleteMerged` | adapters/persistence/catalog_repository.py:392-411 | the closing deletes remove only the title and the index row of the duplicate: repointing has left nothing else under its id |
| `CatalogStore.CatalogStore.MergeMember` | adapters/persistence/catalog_repository.py:440-444 | one loop round adds that member's merge to the run, skipping the canonical id, and counts it |
| `CatalogStore.CatalogStore.MergeGroup` | adapters/persistence/catalog_repository.py:437-445 | merges all members of a group into its preferred id and counts the merges |
| `CatalogStore.CatalogStore.MergeGroups` | adapters/persistence/catalog_repository.py:437-445 | the new store is a run of one complete pass over the grouping, and the count its length |
| `CatalogStore.CatalogStore.RepairColumn` | adapters/persistence/catalog_repository.py:426-446 | one column pass over the rows as they are when the column's turn comes |
| `CatalogStore.CatalogStore.RepairNext` | adapters/persistence/catalog_repository.py:426-446 | extends a repair that began earlier by one more column |
| `CatalogStore.CatalogStore.RepairColumns` | adapters/persistence/catalog_repository.py:426-446 | the nested loops are one provider run over the columns in the given order |
| `CatalogStore.CatalogStore.RepairByProviderId` | adapters/persistence/catalog_repository.py:423-446 | whatever the column order: every column injective, count equal to the drop in rows, zero exactly on a repaired index; on a coherent index exactly the family heads survive, on an anchored one exactly the anchors |
| `CatalogStore.CatalogStore.RepairByTitle` | adapters/persistence/catalog_repository.py:448-476 | merges only rows with one normalised, non-blank title, nothing exactly when titles are distinct, and leaves exactly the rows without a preferred namesake; injective columns stay injective; count equal to the anime rows lost |
| `CatalogStore.CatalogStore.RepairAll` | adapters/persistence/catalog_repository.py:413-421 | `ALL`: columns injective and titles distinct, by a run that folds each id at most once into a preferred one, and only relatives by external ids or namesakes |
| `CatalogStore.CatalogStore.RepairDuplicates` | adapters/persistence/catalog_repository.py:413-421 | the guarantees of each strategy; in all of them the store is the result of the logged merges, whose number is returned, the log is orderly, and every merge has the reason of its strategy |
| `ConnectionPool.OneHolderStep` | adapters/persistence/base.py:51-137 | every step keeps: each connection ever made is idle once, with exactly one caller, or closed |
| `ConnectionPool.OneHolderRun` | adapters/persistence/base.py:51-212 | the same over every run of gets, returns, discards, health checks and drains |
| `ConnectionPool.GetIsExclusive` | adapters/persistence/base.py:51-96 | a connection handed out was with no caller, and afterwards is neither idle nor closed |
| `ConnectionPool.BoundedStep` | adapters/persistence/base.py:41-137 | every step keeps the counter inequality with its slack term; a drain turns the checkouts in flight into slack |
| `ConnectionPool.BoundedRun` | adapters/persistence/base.py:41-212 | after any run with d drains the slack is at most d pool sizes, and none without a drain |
| `ConnectionPool.PoolNeverOverflows` | adapters/persistence/base.py:41-212 | idle plus checked-out connections never exceed (d+1) times the pool size, d the number of drains; without drains never the created counter |
| `ConnectionPool.CounterHasAFloor` | adapters/persistence/base.py:98-137 | after d drains the counter is at least -(d * size); without a drain it is never negative |
| `ConnectionPool.CounterMayBeNegative` | adapters/persistence/base.py:98-137 | a concrete run with one drain that ends with the counter at -1 |
| `ConnectionPool.BoundIsReached` | adapters/persistence/base.py:98-110 | the bound is tight: from every pool its constructor may leave, and for every d, a run of d drains reaches it |
| `ConnectionPool.LeakIsExact` | adapters/persistence/base.py:63-69 | without drains the counter exceeds the live connections by exactly the number of gets that met an invalid connection |
| `ConnectionPool.InvalidGetsStarve` | adapters/persistence/base.py:63-69 | with nothing idle or out and no drain, the counter has reached the limit if and only if gets have met at least as many invalid connections as the pool is large |
| `ConnectionPool.StarvedForever` | adapters/persistence/base.py:51-96 | a starved pool refuses every later get and never changes until it is drained |
| `ConnectionPool.OverdraftRun` | adapters/persistence/base.py:139-151 | when every validity test fails, as it does for connections with a `ping` method, the counter never exceeds the checked-out connections by more than the pool was made with, drains or not |
| `ConnectionPool.InvalidPoolServes` | adapters/persistence/base.py:51-96 | such a pool refuses no get while fewer connections are out than its size less those it was made with |
| `ConnectionPool.RefusalLevels` | adapters/persistence/base.py:51-151 | without drains such a pool can refuse with k connections out if and only if size - first connections <= k <= size; every such k is reached by a run in which the factory never fails |
| `ConnectionPool.StarvesOnlyIfMadeFull` | adapters/persistence/base.py:41-49 | such a pool can refuse with nothing out if and only if it has at most five places and every initial factory call worked |
| `ConnectionPool.OldestFirst` | adapters/persistence/base.py:51-63 | a get of a valid connection hands out the one idle longest, without the factory and the counter |
| `ConnectionPool.ReturnedIsReused` | adapters/persistence/base.py:112-130 | a valid connection given back while there is room is the youngest idle one, and a lone one is handed out again at the next get, leaving the pool as it was |
| `ConnectionPool.ReturnedOrClosed` | adapters/persistence/base.py:112-137 | which returns are queued and which are closed, and what each does to the counter |
| `ConnectionPool.HealthyAreKept` | adapters/persistence/base.py:159-198 | a health check keeps exactly the idle connections that pass the test and are not overdue |
| `ConnectionPool.HealthyPoolStays` | adapters/persistence/base.py:159-198 | a health check of healthy connections changes nothing |
| `ConnectionPool.KeptAndShut` | adapters/persistence/base.py:159-198 | a health check splits the idle connections into kept and closed ones, losing and repeating none |
| `ConnectionPool.ConnectionPool.constructor` | adapters/persistence/base.py:23-39 | a new pool holds one idle connection for each of the first min(5, size) factory calls that worked |
| `ConnectionPool.ConnectionPool.InitializePool` | adapters/persistence/base.py:41-49 | exactly the successful ones of the first min(5, size) factory calls are idle and counted |
| `ConnectionPool.ConnectionPool.GetConnection` | adapters/persistence/base.py:51-96 | all branches: reuse, replace an invalid one, create below the limit, else nothing |
| `ConnectionPool.ConnectionPool.ReturnConnection` | adapters/persistence/base.py:112-137 | queued when valid, wanted and there is room; otherwise closed and uncounted; only the discard branch stops the counter at zero |
| `ConnectionPool.ConnectionPool.PerformHealthCheck` | adapters/persistence/base.py:159-198 | the double loop closes exactly the invalid and overdue connections and lowers the counter by their number |
| `ConnectionPool.ConnectionPool.DrainPool` | adapters/persistence/base.py:98-110 | every idle connection is closed, the counter is zeroed, checkouts in flight stay out |
| `PersistenceQueue.ConservedStep` | adapters/persistence/queue.py:65-138 | every step of any thread keeps: the accepted records are, with multiplicities, those in queue, worker batch, `flush_now` hands, flushes, or among the None records the worker ignores |
| `PersistenceQueue.ConservedRun` | adapters/persistence/queue.py:65-138 | the same for every interleaving |
| `PersistenceQueue.TicketsInOrder` | adapters/persistence/queue.py:65-73 | acceptances are numbered in the order in which they happen |
| `PersistenceQueue.ExactlyOnce` | adapters/persistence/queue.py:65-138 | every accepted non-None record is in exactly one of these places, so it is flushed at most once |
| `PersistenceQueue.BatchesFit` | adapters/persistence/queue.py:94-127 | a flushed batch is never empty and a worker batch never larger than the batch size |
| `PersistenceQueue.FlushedInOrder` | adapters/persistence/queue.py:94-127 | without `flush_now` the flushed records, then the batch, then the queue are the accepted records in order |
| `PersistenceQueue.StaysEmpty` | adapters/persistence/queue.py:120-127 | after the worker's exit loop, with no further puts, the queue stays empty |
| `PersistenceQueue.StopFlushesEverything` | adapters/persistence/queue.py:120-127 | then, once no `flush_now` holds records, every accepted record other than None has been flushed exactly once |
| `PersistenceQueue.StoppingIff` | adapters/persistence/queue.py:53-54 | the stop event is set if and only if stop was called |
| `PersistenceQueue.LeavesOnlyWhenStopped` | adapters/persistence/queue.py:97 | the worker leaves its loop only after a stop |
| `PersistenceQueue.CheckObeysStop` | adapters/persistence/queue.py:97 | at the head of its loop the worker leaves if stop was called and goes on if not |
| `PersistenceQueue.StepsAreBounded` | adapters/persistence/queue.py:97-127 | after the first stop, without further puts, the worker takes at most four steps and one per record queued at the stop |
| `PersistenceQueue.StoppedIsNotStuck` | adapters/persistence/queue.py:97-127 | a worker that has not come to its end can always take a step |
| `PersistenceQueue.StopDrains` | adapters/persistence/queue.py:97-127 | so it comes to its end within these steps, with an empty queue, and every accepted record other than None has been flushed exactly once |
| `PersistenceQueue.PutIsAccepted` | adapters/persistence/queue.py:65-73 | a put is accepted at the end of the queue if and only if there is no limit or room below it; otherwise it is counted as dropped |
| `PersistenceQueue.CallersMayAlways` | adapters/persistence/queue.py:65-73 | only a blocking put on a full queue has to wait |
| `PersistenceQueue.PutsAreCounted` | adapters/persistence/queue.py:65-73 | every put is accepted or counted as dropped, and an unlimited queue drops nothing |
| `PersistenceQueue.WaitingWorkerTakes` | adapters/persistence/queue.py:98-110 | a waiting worker can take the head of the queue |
| `PersistenceQueue.LoopFlushes` | adapters/persistence/queue.py:106-118 | in its loop the worker flushes its batch if and only if it is full, or overdue and not empty |
| `PersistenceQueue.FlushNowFlushesAll` | adapters/persistence/queue.py:83-92 | an undisturbed `flush_now` flushes everything queued, as one batch, and nothing when the queue is empty |
| `QueueWorker.TimelyRound` | adapters/persistence/queue.py:94-119 | one round of the loop keeps: flushed batches were in time and the open one still can be |
| `QueueWorker.FlushedBeforeTwiceTheLatency` | adapters/persistence/queue.py:94-119 | with an ideal clock every batch is flushed less than twice the latency after its first record was taken, whatever arrives |
| `QueueWorker.OpenBatchIsFlushed` | adapters/persistence/queue.py:94-119 | with no assumption on time, an open batch is flushed within batch size minus its length rounds that deliver a record |
| `QueueWorker.FlushedOnlyWhenDue` | adapters/persistence/queue.py:97-119 | with no assumption on time, the loop flushes no batch that is neither full nor as old as the latency |
| `QueueWorker.RoundIsShort` | adapters/persistence/queue.py:97-105 | a round lasts at most the latency, or a quarter of a second while no batch is open |
| `QueueWorker.BatchesKeepOrder` | adapters/persistence/queue.py:94-127 | the flushed batches followed by the open one are exactly the records taken, in order |
| `QueueWorker.Loop` | adapters/persistence/queue.py:97-119 | the loop with its local batch and deadline computes the rounds the laws are about |
| `QueueWorker.LoopBody` | adapters/persistence/queue.py:97-119 | one round: take, open a deadline with the first record, flush when full or overdue |
| `QueueWorker.Run` | adapters/persistence/queue.py:94-127 | all records are flushed in order, each batch non-empty, within the batch size and in time; none but the last, at exit, before it is full or old enough |
| `TranscodeSeek.LastSegment` | adapters/media/ffmpeg_transcoder.py:200-210 | ceil(d/s) is the number of segments: the last one starts before the end of the file and ends no earlier |
| `TranscodeSeek.PlanStart` | adapters/media/ffmpeg_transcoder.py:195-210 | the clamped start begins inside the file, is at most the requested index, and is lowered only to the segment that contains the end |
| `TranscodeSeek.SeekSeconds` | adapters/media/ffmpeg_transcoder.py:627-630 | the seek lies between 0, start*s and max(0, d-s); it is start*s except in a final partial segment, where less than s is missing |
| `Transcoder.LiveAtMost` | adapters/media/ffmpeg_transcoder.py:528-583 | never more live encoders than tabled sessions, nor tabled sessions than the limit |
| `Transcoder.OpenedIsReused` | adapters/media/ffmpeg_transcoder.py:58-77 | after a successful ensure the same request is answered with the same session exactly as long as its process lives |
| `Transcoder.VictimByActivity` | adapters/media/ffmpeg_transcoder.py:546-567 | with an activity hook the victim is the oldest idle session, or if none is idle a least active one, the oldest of these |
| `Transcoder.VictimByAge` | adapters/media/ffmpeg_transcoder.py:546-567 | without a hook the victim is the oldest session |
| `Transcoder.DropSound` | adapters/media/ffmpeg_transcoder.py:356-363 | dropping a session together with its process keeps the table sound |
| `Transcoder.ReapSound` | adapters/media/ffmpeg_transcoder.py:528-544 | reaping keeps the table sound |
| `Transcoder.AddSound` | adapters/media/ffmpeg_transcoder.py:314-325 | registering a new process under a free session with room keeps the table sound |
| `Transcoder.Transcoder.constructor` | adapters/media/ffmpeg_transcoder.py:118 | an empty table with a limit of at least one |
| `Transcoder.Transcoder.ProcessExits` | adapters/media/ffmpeg_transcoder.py:528-544 | an exit at any moment keeps the table sound |
| `Transcoder.Transcoder.Terminate` | adapters/media/ffmpeg_transcoder.py:938-949 | exactly that process stops |
| `Transcoder.Transcoder.ReapFinished` | adapters/media/ffmpeg_transcoder.py:528-544 | exactly the sessions whose process has ended leave the table |
| `Transcoder.Transcoder.EvictOldest` | adapters/media/ffmpeg_transcoder.py:546-583 | the victim has the least rank (activity, start time) of all but the excluded session, and leaves with its process; None exactly when there is no other session |
| `Transcoder.Transcoder.MakeRoom` | adapters/media/ffmpeg_transcoder.py:276-280 | evicts exactly one session when the table is full and none otherwise; it cannot fail |
| `Transcoder.Transcoder.EvictOne` | adapters/media/ffmpeg_transcoder.py:276-280 | in a full table there is a victim, and after one round there is room |
| `Transcoder.Transcoder.Spawn` | adapters/media/ffmpeg_transcoder.py:314-325 | the table gains exactly the new session with its live process |
| `Transcoder.Transcoder.SpawnAndWait` | adapters/media/ffmpeg_transcoder.py:314-345 | the table after the process was opened, failed to spawn, or exited early |
| `Transcoder.Transcoder.OpenSession` | adapters/media/ffmpeg_transcoder.py:276-345 | the table after every outcome: opened, failed to spawn, died early; never refused as busy |
| `Transcoder.Transcoder.EnsureHlsSession` | adapters/media/ffmpeg_transcoder.py:225-354 | a live session with the same source, audio track, start and segment length is reused, and what is returned always has these; any other session of the id is stopped and replaced, with at most one eviction; dead sessions are reaped, soundness is kept and "server is busy" is unreachable |
| `Transcoder.Transcoder.StopHlsSession` | adapters/media/ffmpeg_transcoder.py:356-363 | that session and its process are gone, the others stay |
| `SearchStream.SameFingerprint` | adapters/search/dedupe.py:24-36 | when two results count as one: by hash up to case if they have one, regardless of all other fields; a result with a hash is never the same as one without |
| `SearchStream.DeliversStep` | adapters/search/facade.py:82-122 | every step keeps: output then queue is what was put, minus at most the one item a close threw away |
| `SearchStream.SentinelStep` | adapters/search/facade.py:93-122 | every step keeps: the sentinel is the last entry of a closed stream, and stays there until the consumer takes it |
| `SearchStream.TalliedStep` | adapters/search/facade.py:82-91 | every step keeps: each accepted result is in flight, was put or was dropped, with multiplicities |
| `SearchStream.ScreenedStep` | adapters/search/facade.py:207-222 | every step keeps: accepted results have distinct, registered fingerprints and are allowed |
| `SearchStream.GoodRun` | adapters/search/facade.py:207-222 | these invariants over every schedule of producers, close and consumer |
| `SearchStream.OutputIsWhatWasPut` | adapters/search/facade.py:82-122 | output then queue is an order-preserving subsequence of what was put, with at most one item missing; what the sink accepted is in flight, was put, or was dropped |
| `SearchStream.OutputIsClean` | adapters/search/facade.py:207-222 | the output has pairwise distinct fingerprints and no adult result when those are off |
| `SearchStream.OfferIsAccepted` | adapters/search/facade.py:207-222 | a result is accepted and put on its way if and only if the request was not cancelled, the result is allowed, and no accepted result has its fingerprint; otherwise nothing changes |
| `SearchStream.PutOrDrop` | adapters/search/facade.py:82-91 | a registered result is put if and only if the stream is open and below its capacity, and dropped otherwise |
| `SearchStream.NobodyIsBlocked` | adapters/search/facade.py:82-122 | producers, close, deadline and cancel act at any time; the consumer whenever something is queued and it has not finished |
| `SearchStream.EndIsFinal` | adapters/search/facade.py:93-122 | after a close nothing more is put, after the deadline nothing more is read |
| `SearchStream.OnlyRefusalsDrop` | adapters/search/facade.py:82-91 | nothing is dropped as long as no put meets a full or closed stream |
| `SearchStream.ConsumerEnds` | adapters/search/facade.py:93-122 | in every schedule a closed stream ends in the sentinel until the consumer has finished, and taking what is queued finishes it with exactly the queued results added |
| `SearchStream.CloseFull` | adapters/search/facade.py:93-109 | closing a full stream loses its oldest item and nothing else |
| `SearchStream.ResultStream.constructor` | adapters/search/facade.py:77-80 | an open, empty stream |
| `SearchStream.ResultStream.PutEntry` | adapters/search/facade.py:82-91 | appends, or leaves the queue alone exactly when it is full |
| `SearchStream.ResultStream.Put` | adapters/search/facade.py:82-91 | a closed or full stream drops the item |
| `SearchStream.ResultStream.Close` | adapters/search/facade.py:93-109 | puts one sentinel, making room by dropping the oldest item; a second close changes nothing |
| `SearchStream.ResultDeduper.Register` | adapters/search/dedupe.py:51-57 | a fingerprint is accepted the first time only, and recorded |
| `JobPool.BalancedStep` | adapters/search/facade.py:400-430 | every step of a job thread keeps: free permits plus holders are all permits; and brings the job one step nearer its end |
| `JobPool.BalancedRun` | adapters/search/facade.py:383-430 | the same over every interleaving, with the number of steps left |
| `JobPool.RunningJobsAreBounded` | adapters/search/facade.py:394-430 | at most max(1, max_concurrent_jobs) jobs run, and the bounded semaphore is never released too often |
| `JobPool.EveryJobIsReleased` | adapters/search/facade.py:400-430 | no run gets stuck; after three steps a job, skipped jobs included, every job is done and every permit is back |
| `JobPool.JobsLiveOnce` | adapters/search/facade.py:400-430 | every job takes a permit once, then is run or skipped, one of these and once, then gives the permit back once |
| `JobPool.NothingElseIsAwaited` | adapters/search/facade.py:400-430 | a waiting job can begin whenever a permit is free, and one with a permit can be run |
| `Ordering.StrictWeakOrder` | adapters/persistence/models.py:1051-1073 | the lexicographic comparison with per-key reverse is antisymmetric, transitive, and its ties are an equivalence |
| `Ordering.SortedByOneKey` | adapters/persistence/models.py:1051-1073 | under one key a sorted list has ascending key values, descending if the key is reversed |
| `Ordering.FirstDifferenceDecides` | adapters/persistence/models.py:1051-1073 | an element is above another if and only if it is greater, or lesser under a reversed key, at the first key on which they differ; they tie if they differ on none |
| `Ordering.FlipOpposes` | adapters/persistence/models.py:1197-1216 | flipping every key's direction turns every comparison around and keeps ties |
| `Ordering.SortedUnique` | adapters/persistence/models.py:1051-1073 | a sorted list is determined by its tie classes |
| `SortedDict.MergeSorts` | adapters/persistence/models.py:1281-1304 | merging two sorted halves gives a sorted list |
| `SortedDict.MergeTies` | adapters/persistence/models.py:1281-1304 | among equal items those of the right half come first |
| `SortedDict.SortIsSortedPermutation` | adapters/persistence/models.py:1262-1310 | in both directions the result is a sorted permutation, each class of equal items in reversed order |
| `SortedDict.SortingAgain` | adapters/persistence/models.py:1173-1183 | sorting a second time changes nothing if and only if every class of equal items is a palindrome |
| `SortedDict.WithoutKeysEveryReadReverses` | adapters/persistence/models.py:1173-1183 | with no sort keys each read turns the data around |
| `SortedDict.SortedDict.MergeRuns` | adapters/persistence/models.py:1281-1304 | the while loop over two halves is the merge |
| `SortedDict.SortedDict.Iterate` | adapters/persistence/models.py:1265-1304 | the recursive generator, drained, is the sort of its interval |
| `SortedDict.SortedDict.QuickSort` | adapters/persistence/models.py:1306-1310 | the data list becomes its sort |
| `SortedList.InsertedKeepsSorted` | adapters/persistence/models.py:1075-1088 | an insertion anywhere the order allows keeps the list sorted and adds exactly the element |
| `SortedList.InsertedTies` | adapters/persistence/models.py:1075-1088 | a later equal element goes in front of the earlier ones |
| `SortedList.InsertedIsInsertOne` | adapters/persistence/models.py:1075-1088 | the position is unique: binary insertion equals a linear reference insertion |
| `SortedList.InsertAllArranges` | adapters/persistence/models.py:1039-1042 | inserting elements one by one gives a sorted permutation with each tie class reversed |
| `SortedList.InsertAllEqualsSort` | adapters/persistence/models.py:1022-1088 | inserting one by one gives exactly the list `SortedDict`'s merge sort gives |
| `SortedList.SearchIsExact` | adapters/persistence/models.py:1090-1123 | the binary search finds an equal element if and only if the sorted list has one |
| `SortedList.SortedList.BinaryInsert` | adapters/persistence/models.py:1075-1088 | the recursion on a shrinking interval inserts at a position between not-above and above |
| `SortedList.SortedList.Append` | adapters/persistence/models.py:1031-1037 | the list stays sorted and gains exactly the element, at its unique place |
| `SortedList.SortedList.Extend` | adapters/persistence/models.py:1039-1042 | the list stays sorted and gains exactly the elements |
| `SortedList.SortedList.Contains` | adapters/persistence/models.py:1044-1049 | `in` is true exactly when some element compares equal |
| `ItemMerge.AddSummarises` | adapters/persistence/models.py:164-186 | merging pairs into an empty item raises if and only if two non-None values of a key differ in type; else each key holds a maximum of its values |
| `ItemMerge.MergedValue` | adapters/persistence/models.py:164-186 | each key ends with the greatest of its scalars or one of the longest of its sized values, None only if it has no other |
| `ItemMerge.RaisesOnAClash` | adapters/persistence/models.py:170-178 | the merge raises if and only if some key has two values, neither None, of different types |
| `ItemMerge.OrderDoesNotMatter` | adapters/persistence/models.py:164-186 | arrival order and repetition change neither whether it raises nor the result (up to equally long values) |
| `ItemMerge.MergingAgainChangesNothing` | adapters/persistence/models.py:164-186 | merging any of the values again changes nothing |
| `ItemMerge.Item.Add` | adapters/persistence/models.py:135-186 | the loop is the fold; a type error leaves exactly the pairs before it merged |
| `ItemMerge.FoldResults` | adapters/api/__init__.py:272-285 | the fold over provider results raises exactly on a type clash among all results, else summarises them all |
| `Metadata.ListSaveIsExact` | adapters/persistence/dbManager.py:695-722 | the list-removal save stores exactly the requested values if and only if no requested value is stored more often than it is requested; otherwise such a value vanishes |
| `Metadata.ListSaveLosesAValue` | adapters/persistence/dbManager.py:708-722 | a value stored twice and requested once is gone after the save |
| `Metadata.SetSaveTwice` | adapters/persistence/embeddedMariaDB.py:1526-1558 | a repeated set-difference save finds nothing to edit |
| `Metadata.ListSaveTwice` | adapters/persistence/dbManager.py:695-722 | a repeated list-removal save finds nothing to edit if and only if the first was exact; in any case the second save stores the request |
| `Metadata.BothSaveTheRequest` | adapters/persistence/embeddedMariaDB.py:1526-1558 | without duplicates and empty values both versions leave exactly the requested values for the id and every other id alone |
| `Metadata.CountSelect` | adapters/persistence/dbManager.py:695-704 | the stored values of an id are its rows, as often as stored |
| `Metadata.CountDelete` | adapters/persistence/embeddedMariaDB.py:1543-1549 | a delete removes every copy of that row and nothing else |
| `Metadata.RemoveFirst` | adapters/persistence/dbManager.py:708-714 | one occurrence is removed |
| `Metadata.CrossOff` | adapters/persistence/dbManager.py:708-714 | the loop leaves each value's surplus on the side that has it more often |
| `Metadata.MetadataTable.SaveBySets` | adapters/persistence/embeddedMariaDB.py:1526-1558 | the exact count of every row afterwards; no edit exactly when the stored set is the requested one |
| `Metadata.MetadataTable.SaveByLists` | adapters/persistence/dbManager.py:695-722 | the exact count of every row afterwards; no edit exactly when the counts agree already |
| `UserTags.OverlayIsRow` | adapters/persistence/user_actions_repository.py:138-185 | with one row per pair the overlay of rows is that row |
| `UserTags.UpsertIsOneWrite` | adapters/persistence/user_actions_repository.py:49-88 | an upsert keeps one row per (anime, user), writes the pair's row and no other |
| `UserTags.TaggedRow` | adapters/persistence/user_actions_repository.py:90-100 | what tagging does to the pair's row for every earlier choice (opted out, opted in, none) and every tag, and that it touches no other row |
| `UserTags.OptInNeedsABareTag` | adapters/persistence/user_actions_repository.py:90-100 | a pair without a choice is opted in by a watching tag if and only if the tag has no surrounding blanks |
| `UserTags.BlankTagIsNotOptedIn` | adapters/persistence/user_actions_repository.py:90-100 | a concrete tag with a leading blank that is recognised and leaves the row without an opt-in |
| `UserTags.SeenIsOneWrite` | adapters/persistence/user_actions_repository.py:120-136 | marking as seen writes the tag of the pair's row and nothing else |
| `UserTags.LikeIsReadBack` | adapters/persistence/user_actions_repository.py:111-118 | a like is read back; nothing else of the pair's state and no other pair's changes |
| `UserTags.AutoDownloadIsReadBack` | adapters/persistence/user_actions_repository.py:102-109 | the auto-download choice is read back; nothing else changes |
| `UserTags.TagIsReadBack` | adapters/persistence/user_actions_repository.py:90-100 | a tag is read back, an empty one as NONE; the like and other pairs do not change |
| `UserTags.WatchingThenSeen` | adapters/persistence/user_actions_repository.py:90-136 | concretely, WATCHING opts a new pair in, and marking it as seen reads SEEN |
| `UserTags.OneRowAlways` | adapters/persistence/user_actions_repository.py:49-185 | every run of actions from an empty table keeps at most one row per pair |
| `UserTags.OptOutIsKept` | adapters/persistence/user_actions_repository.py:90-118 | an explicit opt-out survives every later action until auto-download is set on |
| `UserTags.EligibleIffStateSaysSo` | adapters/persistence/user_actions_repository.py:217-248 | an id is listed as eligible if and only if its user state reads watching with auto-download on |
| `UserTags.UserActions.UpsertColumn` | adapters/persistence/user_actions_repository.py:49-88 | the new table is the upsert of the old one |
| `UserTags.UserActions.SetTag` | adapters/persistence/user_actions_repository.py:90-100 | the tag action with its conditional opt-in |
| `UserTags.UserActions.SetAutoDownload` | adapters/persistence/user_actions_repository.py:102-109 | only the auto-download column of the pair is written |
| `UserTags.UserActions.SetLike` | adapters/persistence/user_actions_repository.py:111-118 | only the like column of the pair is written |
| `UserTags.UserActions.MarkSeen` | adapters/persistence/user_actions_repository.py:120-136 | only the tag column of the pair is written |
| `UserTags.UserActions.GetUserState` | adapters/persistence/user_actions_repository.py:138-185 | the loop over the rows computes the overlay, NULL auto-download reading as on for watching |
| `UserTags.UserActions.ListAutoDownloadEligible` | adapters/persistence/user_actions_repository.py:217-248 | the list holds each eligible id once and nothing else |

## Left out

- SQL text, drivers, failing statements and rollback: statements are taken to succeed, on one store that sees its own writes. NULL keys and the physical row order of satellite tables: every statement names owner and key, so rows are grouped by these.
- CatalogStore.CatalogStore.Merge: covers the tables the source repoints; incoming `animeRelations.rel_id`, episode progress, download preferences and disabled titles still name the duplicate, as in the source. `user_tags` and `characterRelations` rows are moved without dedupe, so a pair may own two rows afterwards.
- CatalogStore.CatalogStore.RepairByTitle: trimming and lower-casing are arbitrary total functions; the length limit of GROUP_CONCAT is not modelled.
- CatalogStore.CatalogStore.GetId: the key the database assigns to a new row is a parameter that is not in use yet.
- CatalogOrder.AnchorsAreLeft: being anchored suffices for the order not to matter and is not necessary (`CatalogOrder.AnchorsAreNotNeeded`); no condition is given that is both, because what other families keep depends on which of their values happen to be overshadowed, and when.
- `purge_provisional_anime_rows`: one filtered delete.
- Query result caching: invalidation looks for table names in hashed keys, so there is no coherence to state.
- ConnectionPool.ConnectionPool.GetConnection: the blocking wait is a timeout, because it holds the lock every return needs; the thread that starts health checks is not modelled, the check itself is.
- PersistenceQueue: one worker, started once; a start after a stop, which clears the stop event, and a second worker beside an abandoned one are not modelled.
- QueueWorker.Run: the flush callable takes no time; that each timed wait ends within its timeout is its precondition. A failing flush counts as flushed, as in the source.
- Transcoder.Transcoder.EnsureHlsSession: one call at a time; files, playlists, the purge of old segments and a process that survives being killed are outside the model.
- SearchStream: put and close are atomic; races inside them, the `results_emitted` counter, ranking, deadlines and the engines themselves are left out.
- SearchStream.ResultDeduper.Register: name normalisation and lower-casing are arbitrary total functions.
- JobPool.EveryJobIsReleased: the SubsPlease thread, which takes no permit, and the time limits of the joins.
- SortedList.SortedList.Append: sort keys are total functions to integers; a key that raises and is skipped is not modelled.
- `SortedDict.__setitem__` and `SortedDict.binary_search`: insertion positions do not keep the order, so only the sort has a law.
- ItemMerge.Item.Add: a value's type is a tag; subclasses (bool and int) and NaN are not modelled.
- Metadata.MetadataTable.SaveByLists: the loop over the metadata tables, table-name checks and value pre-processing.
- UserTags.UserActions.MarkSeen: the `anime.last_seen` update; and the schema migrations before a write. One `upper` stands for the upper-casing of both Python and SQL.
- Provider HTTP, XML and RSS parsing, process launching, file managers, settings, telemetry and user interfaces: input/output or thin forwarding.
