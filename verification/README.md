# TimeLakeDB, modelled and proved in Dafny

TimeLakeDB keeps time series as Parquet files in an object store. Several processes share
one store: each ingests line protocol into an in-memory buffer, flushes the buffer into
files per UTC hour, compacts those files, and answers SQL over the buffer and the files.
This project models the parts of it where correctness is hard and proves what they promise.
`dafny verify dfyconfig.toml` checks everything.

**The catalog.** The file list of a database is the replay of a log of manifest objects,
one per sequence number, created by compare-and-swap. `CatalogProtocol` is the protocol as a
transition system over any number of processes that boot, catch up, race, retry, crash, hit
I/O errors and lose acknowledgements; its invariant is proved step by step and then used for
theorems about every run. `Lineage` says what a log has to look like for flushed data to be
live exactly once, `Records` what a landed entry says and does, `Unfenced` exactly when a replacement that bypasses the fence breaks that,
and `Reapplied` exactly when folding an entry in twice is harmless. `CatalogReplica` is the
code of one process, as a class over a store class, against a schedule of what other writers
do in between; `CatalogRefinement` proves that each of its calls extends a run of the protocol
to a run of the protocol, so that the theorems about runs hold of the code.

**Last write wins.** `LastWrite` is the specification: the last row per (time, tags) of a
write history. `TableBuffer`, `Snapshot`, `Flush`, `Merge` and `MergeTree` are the columnar
buffer, its snapshot, the sort-sweep-split pass, the cross-file merge, and any bracketing of
merges; all are proved to agree with that specification. `Ingest` is one table of the engine,
from bodies of lines through the buffer, the schema registry and flushes to settled files.

**The scan.** `Pruning` and `Scan` skip files, row groups and rows; `Prefetch` turns row
groups into coalesced range reads; `Loader` decodes files on concurrent workers;
`Restrictions` and `Projection` enforce row visibility and targeted deletes under any
projection, with `Windows` on where a delete ends; `ScanRuns` puts them together, and `Sessions` follows a session's query from its
authorizations to the rows it gets. Each is a fast form of a simple one.

**Text and logs.** `Escapes`, `LineProtocol`, `LineRoundTrip` and `LineBodies` are the line
protocol parser and printer and the exact set of rows on which they are inverse, and
`LineStamps` is what timestamps, numerals and silent lines mean; `Visibility`,
`LabelRoundTrip` and `Labels` are the label evaluator and what labels grant; `Audit` the hash chain of the audit
trail and `AuditSink` the files and the process that write it; `Overlap` the compaction
trigger; `SeriesKeys`, `LastValue` and `Recency` the bounded last-value cache; `Calendar` and `Names` the
dates and padded numbers that order partitions, manifests and segments; `Sorting` the stable
sort they share.

## How to read the model

- Loops that mutate are methods with invariants, objects whose methods update fields are
  classes, and both are specified by functions on values; what the source promises is then
  proved about those functions. Integers are unbounded except where a machine range matters,
  and there the range is written out.
- Threads and processes are interleaved at the granularity of their shared accesses. The
  store is strongly consistent and manifest objects are immutable.
- Clocks, I/O outcomes, hash and float conversions, file contents, rival writers and worker
  schedules are inputs, quantified over.

Where the code does something its documentation or a reader would not expect, the model
follows the code and a lemma says exactly when:

- `ResourceBusy` can follow 99 commits of other writers, not 100, when the caller's replica
  was already behind: the first lost race is then its own staleness. All losing schedules
  hold 100 landings if and only if the replica was current (`CatalogReplica.HundredIff`).
- The tombstone rewrite pass replaces files with a plain, unfenced commit. Where nothing is
  discarded, that keeps exactly-once accounting if and only if the input is still listed,
  which is what the fence would have asked (`Unfenced.UnfencedSwapLiveIff`); a concrete history
  breaks it (`Unfenced.UnfencedSwapDuplicates`). After a drop of its table it brings dropped
  data back if and only if its input was committed by then
  (`Unfenced.UnfencedSwapResurrectsIff`, with a history in `Unfenced.UnfencedSwapResurrects`).
- Applying a manifest entry twice is not the no-op a comment calls it. It changes nothing if
  and only if the entry removes every file it adds and leaves standing, and frees no
  tombstone id (`Reapplied.ReapplyIff`); a flush's entry lists its file twice
  (`Reapplied.FlushTwice`). That each entry is applied once follows from the head and the
  commit lock (`CatalogProtocol.ReplicaIsLogPrefix`).
- Filter extraction looks through every cast, to text included. A time comparison prunes
  soundly on every file if and only if it is true of no instant beyond the literal lifted out
  of it (`Scan.TimePruningIff`); where casts only change resolution, evaluating it one
  nanosecond beyond decides (`Scan.ResolutionPruningIff`). Comparing by day or as text loses
  rows (`Scan.CoarseCastLosesRows`, `Scan.TextCastLosesRows`). A tag comparison prunes soundly
  if and only if it is true of no text but its literal (`Scan.TagPruningIff`); comparing a tag
  through a number loses rows (`Scan.NumberCastLosesRows`). A text literal against a column
  stored as something else fails the load if and only if some row carries every literal
  before it (`Scan.DecodeFailsIff`, and `Scan.NumberAsTextFails` for a number compared through
  its text).
- Names are printed without escaping backslashes, so not every name survives printing and
  parsing. The condition depends on the place: a comma may follow a backslash in a key, an
  equals sign may follow one in a tag value, neither may in a measurement
  (`Escapes.NameSurvivesIff`).
- Tombstone windows are enforced inclusive at both ends although described as half-open. A
  batch keeps the rows it would under the description if and only if each of its rows at the
  end of a window is inside another delete (`Windows.WindowIff`, `Windows.EndInstantGoes`).
- A key used both as a tag and as a field gives a snapshot two columns of one name
  (`Snapshot.SchemaIff`; the line `m,x=1 x=2 0` is an instance of `Snapshot.KeyTwice`).
- A value for a key that a table's files carry as a tag is accepted when it is text, and the
  buffer that holds it can then never be flushed (`Ingest.TagKeyAsField`). A flush goes through
  if and only if no column changes its type and no key changes sides (`Ingest.RegistrableIff`).
- A buffer is swapped out before its columns are registered, so writes that overlap a flush
  can give a new key another type, or use it on the other side. Their buffer can be flushed
  afterwards if and only if they did neither (`Ingest.OverlappedWritesIff`).
- A body whose k-th line is rejected leaves the lines before it in the buffer
  (`Ingest.Table.Apply`).
- Quoted label tokens are compared byte by byte as if bytes were characters, so what grants a
  non-ASCII token is the authorization its bytes spell, never the token itself
  (`LabelRoundTrip.QuotedTokenGrantsIff`).
- An audit append that fails at the final sync leaves its record in the file. The trail
  verifies if and only if nothing was written after such a failure by the same process; a
  break is for good, and reopening before the next append avoids it (`AuditSink.IntactIff`).
- A series key does not always determine its tags. Among names without NUL it does if and only
  if no key and no value of the list holds an equals sign (`SeriesKeys.SeriesKeyIff`); among
  all names only for an empty list and a single tag without one
  (`SeriesKeys.DeterminedAmongAllIff`).
- Zero-padded names order the log and the audit segments only below 10^12
  (`CatalogReplica.ManifestInOrderIff`).

## Model

| member | source | states |
|---|---|---|
| `Manifest.ApplyAt` | crates/catalog/src/lib.rs:220-264 | one entry, seen from one table: a dropped table ends empty, any other keeps what was not removed, in order, followed by its own additions in order |
| `Manifest.FoldPrefix` | crates/catalog/src/lib.rs:292-312 | replaying the first n log entries gives the view of the first n commits |
| `Manifest.FoldUniqueIds` | crates/catalog/src/lib.rs:246-253 | in every replayed view tombstone ids are unique, however often an id was recorded |
| `Reapplied.ReapplyIff` | crates/catalog/src/lib.rs:220-264 | in a view with unique tombstone ids, folding an entry in a second time changes nothing if and only if the entry removes every file it adds to a table it does not drop, and gives no table a tombstone id that a dropped table's tombstone held |
| `Reapplied.TombstonesSettleIff` | crates/catalog/src/lib.rs:246-253 | the same for the tombstones alone: recording them again is a no-op unless such an id was freed |
| `Reapplied.FlushTwice` | crates/catalog/src/lib.rs:237-245 | a flush's entry applied twice lists its file twice |
| `Records.LogRecords` | crates/catalog/src/lib.rs:426-442 | entry n of a log has number n and the n-th commit's format, files, removals, declarations and drops, and as many tombstones, each the commit's but stamped n |
| `Records.TombstonesAt` | crates/catalog/src/lib.rs:246-263 | a view's tombstones after an entry: of tables the entry does not drop, those that were there and the entry's first of each id that was not |
| `Records.DeleteHoldsUntilDropped` | crates/catalog/src/lib.rs:246-263 | over a log, such a delete is in the fold of every longer prefix exactly until a drop of its table lands |
| `Records.DeclaredAt` | crates/catalog/src/lib.rs:226-231 | a table's declaration after an entry: gone if the entry drops the table, else the entry's last one for it, columns and all, else the one before |
| `Lineage.ExactlyOnce` | crates/catalog/src/lib.rs:205-218 | in every well-formed history live files have pairwise disjoint sets of flushed ancestors |
| `Lineage.NothingLost` | crates/catalog/src/lib.rs:370-383 | without drops and plain removals every flushed id is carried by a live file |
| `Lineage.Conservation` | crates/catalog/src/lib.rs:370-383 | the ids carried by live files are exactly the ids ever flushed |
| `Lineage.GoneForever` | crates/catalog/src/lib.rs:205-218 | once a committed path is no longer live it stays so, through every later entry, and no fenced replacement that lands later names it as an input |
| `Lineage.NoResurrection` | crates/catalog/src/lib.rs:554-567 | after a drop lands, no live file of that table descends from anything committed at or before it |
| `Unfenced.UnfencedSwapIff` | crates/server/src/lib.rs:1963-1986 | a rewrite committed without the fence keeps lineages disjoint if and only if its input is the sole live carrier of its data |
| `Unfenced.LiveSwapKeeps` | crates/server/src/lib.rs:1963-1986 | on any well-formed history a rewrite whose input is still listed keeps lineages disjoint |
| `Unfenced.UnfencedSwapLiveIff` | crates/server/src/lib.rs:1963-1986 | where nothing was discarded it does so if and only if its input is still listed |
| `Unfenced.UnfencedSwapResurrectsIff` | crates/server/src/lib.rs:1963-1986 | landing after a drop of its table, such a rewrite leaves the table purged of everything the drop covered if and only if its input was committed after the drop |
| `Unfenced.UnfencedSwapResurrects` | crates/server/src/lib.rs:1963-1986 | a flush, a drop of its table and a lagging rewrite of the flushed file bring dropped rows back |
| `Unfenced.UnfencedSwapDuplicates` | crates/server/src/lib.rs:1963-1986 | a lagging rewriter of a merged file makes that file's rows live twice |
| `Unfenced.FlushThenMerge` | crates/catalog/src/lib.rs:370-383 | the history such a rewriter meets exists: after two flushes and their merge the merged file carries the first and the first is gone |
| `CatalogProtocol.StepKeeps` | crates/catalog/src/lib.rs:399-470 | every step of every process keeps the whole invariant: views are log prefixes, calls know their races, new paths are unlogged, the log is well formed |
| `CatalogProtocol.FenceHoldsAtPut` | crates/catalog/src/lib.rs:409-425 | at the instant the compare-and-swap succeeds every input of a replacement is live in the output's table |
| `CatalogProtocol.RunKeeps` | crates/catalog/src/lib.rs:399-470 | the invariant holds at every point of every interleaving |
| `CatalogProtocol.LogIsAppendOnly` | crates/catalog/src/lib.rs:444-452 | in every run each earlier log is a prefix of each later one |
| `CatalogProtocol.ReplicaIsLogPrefix` | crates/catalog/src/lib.rs:508-533 | in every run each replica's files, tombstones and declarations are the fold of the log up to its head, each entry once |
| `CatalogProtocol.ExactlyOnceInEveryRun` | crates/catalog/src/lib.rs:205-218 | in every run, in the log and in every replica's view, flushed data is live at most once |
| `CatalogProtocol.ConservedInEveryRun` | crates/catalog/src/lib.rs:370-383 | in every run without drops and plain removals exactly the flushed data is live |
| `CatalogProtocol.DropIsFinalInEveryRun` | crates/catalog/src/lib.rs:554-567 | in every run, after a drop nothing committed up to it is ever live again in that table |
| `CatalogProtocol.StaleMergeNeverLands` | crates/catalog/src/lib.rs:410-425 | in every run, once a path is gone no entry that lands later names it as an input |
| `CatalogProtocol.CallBegan` | crates/catalog/src/lib.rs:399-409 | a call in progress began at an earlier step whose head and log length it remembers |
| `CatalogProtocol.BusyIsContention` | crates/catalog/src/lib.rs:463-469 | giving up means at least 100 entries past the head the call began with, at least 99 of them landed during the call, none of those by the caller |
| `CatalogProtocol.SuccessIsExact` | crates/catalog/src/lib.rs:426-452 | a commit that returns s left at s an entry with its number, format, files, removals, declarations and drops and with each of its tombstones stamped s; its replica is the fold of the log up to s, and its fresh deletes are in that view |
| `CatalogProtocol.DeleteHoldsInEveryRun` | crates/catalog/src/lib.rs:246-263 | in every run a delete that landed at n under a fresh id is in the view of every replica past n exactly until a drop of its table lands |
| `CatalogReplica.ManifestPathInjective` | crates/catalog/src/lib.rs:287-289 | distinct sequence numbers have distinct object names |
| `CatalogReplica.ManifestPathReads` | crates/catalog/src/lib.rs:287-289 | the name is `catalog/manifest/`, the number in digits, twelve of them while it fits, and `.json` |
| `CatalogReplica.ManifestInOrderIff` | crates/catalog/src/lib.rs:287-289 | object names sort in sequence order if and only if there are fewer than 10^12 |
| `CatalogReplica.ListingOrderIsLogOrder` | crates/catalog/src/lib.rs:298-302 | a sorted listing of an ordered store names the log entry by entry |
| `CatalogReplica.ManifestStore.PutIfAbsent` | crates/store/src/lib.rs:145-173 | the object is created exactly when its number is the next one, and then the log grows by that entry |
| `CatalogReplica.ManifestStore.ReadNewer` | crates/catalog/src/lib.rs:509-524 | listing, reading and sorting gives exactly the log after the head, or fails on an entry of a newer format |
| `CatalogReplica.Catalog.ApplyEntry` | crates/catalog/src/lib.rs:220-264 | the in-place updates of files, tombstones and declarations compute the entry's effect on the view |
| `CatalogReplica.Catalog.FirstAbsent` | crates/catalog/src/lib.rs:205-218 | None exactly when every path is listed, else a path that is not |
| `CatalogReplica.Catalog.CatchUpLocked` | crates/catalog/src/lib.rs:508-533 | the replica becomes the fold of the whole log, or is unchanged when an entry cannot be read |
| `CatalogReplica.Catalog.Load` | crates/catalog/src/lib.rs:293-312 | the replica is the replay of the listing in name order, without sorting it, head at the largest number; below 10^12 entries that is the fold of the whole log |
| `CatalogReplica.Catalog.CommitGuarded` | crates/catalog/src/lib.rs:399-470 | against any schedule of rivals: success leaves exactly the caller's entry at the returned number and passed the fence there, every refusal leaves the log to the rivals, busy means every round was lost; the final log and head are a function of the schedule and the number of lost rounds; the entry at the returned number is the commit field by field with its tombstones stamped, and its fresh deletes are in the winner's view |
| `CatalogRefinement.CallRuns` | crates/catalog/src/lib.rs:399-470 | given a run of the protocol that shows the process as a call finds it, and rivals that plan on fresh paths and pass their fence where they land, there is a longer run that shows process and log as the call leaves them, however it ends |
| `CatalogRefinement.CallKeepsExactlyOnce` | crates/catalog/src/lib.rs:399-470 | so after every such call of the code flushed data is live at most once, in the log and in the process's own view |
| `CatalogRefinement.OthersOnlyLand` | crates/catalog/src/lib.rs:399-470 | whatever step another process takes, this one sees at most a longer log |
| `CatalogReplica.LossesAreLandings` | crates/catalog/src/lib.rs:409-469 | losing n rounds takes n landings of others, one fewer if the replica was stale |
| `CatalogReplica.StaleCallLosesToNinetyNine` | crates/catalog/src/lib.rs:31 | that bound is met: a stale replica loses all 100 rounds to 99 commits |
| `CatalogReplica.HundredIff` | crates/catalog/src/lib.rs:463-469 | every schedule that makes a call give up holds at least 100 commits of others if and only if the replica was not behind when the call began |
| `Names.NumberedOrderIff` | crates/catalog/src/lib.rs:287-289 | zero-padded names order 1..n as numbers if and only if n has at most as many digits as the padding |
| `Names.NumberedInjective` | crates/audit/src/lib.rs:326-328 | a padded name determines its number |
| `Names.SortedListingUnique` | crates/store/src/lib.rs:26-28 | a set of names has one sorted listing |
| `Calendar.CivilSteps` | crates/buffer/src/lib.rs:547-558 | for every day the date formula of the next day is the next Gregorian date |
| `Calendar.CivilValid` | crates/buffer/src/lib.rs:547-558 | every day's date is a valid proleptic Gregorian date |
| `Calendar.Epoch` | crates/buffer/src/lib.rs:547-558 | day 0 is 1970-01-01, which with the step law fixes every date |
| `Calendar.CivilOrder` | crates/audit/src/lib.rs:661-672 | later days have later dates, so the day count is recoverable from the date |
| `Calendar.PartitionsAreHours` | crates/buffer/src/lib.rs:539-545 | for every i64 nanosecond timestamp: equal partition text if and only if same UTC hour, and text order is time order |
| `Calendar.PartitionReads` | crates/buffer/src/lib.rs:539-545 | the text is ten digits that read as the year, month, day and hour of the instant in UTC |
| `LastWrite.LastWinsAppend` | crates/buffer/src/lib.rs:403-417 | the last writes of two histories in a row are those of the first overridden by those of the second |
| `LastWrite.LastWinsIsLast` | crates/buffer/src/lib.rs:403-417 | the table's row for a key is the write that no later write of the key follows |
| `LastWrite.PrepareIsLastWins` | crates/buffer/src/lib.rs:403-417 | a stable sort by key and one sweep keep exactly the last write of each key, once, in key order |
| `LastWrite.PrepareOnePartIff` | crates/buffer/src/lib.rs:419-431 | the pass yields one part if and only if its input, duplicates included, is of one hour |
| `Batches.AlignKeepsRow` | crates/query/src/lib.rs:880-893 | aligning a row to a wider schema does not change what it says |
| `Batches.UnionIff` | crates/query/src/lib.rs:857-878 | the union schema exists if and only if no name is carried with two types, and has exactly the columns of the inputs |
| `Batches.Align` | crates/query/src/lib.rs:851-896 | the learned schema is the union, or an error, and every batch is rewritten to it |
| `Batches.SortKeyIff` | crates/buffer/src/lib.rs:377-390 | whichever tag leads, sort keys are equal if and only if time and all tags are |
| `Flush.KeysOrdered` | crates/buffer/src/lib.rs:391-405 | the sort order, whichever tag leads, is a strict order of primary keys |
| `Flush.PrepareOrdered` | crates/buffer/src/lib.rs:369-446 | the loops compute the sorted, swept rows grouped by hour |
| `Flush.PartHolds` | crates/buffer/src/lib.rs:369-446 | each hour part holds, once each, exactly the last writes of that hour, and an hour without a part has none |
| `Flush.TimeBounds` | crates/buffer/src/lib.rs:449-462 | the bounds contain every row's time and are attained |
| `Merge.CombinedReads` | crates/compact/src/lib.rs:31-32 | aligned, concatenated inputs read as the concatenated history |
| `Merge.Cluster` | crates/compact/src/lib.rs:39-57 | the clustering tag is a tag column of largest cardinality, absent only if there are no tags |
| `Merge.MergeFiles` | crates/compact/src/lib.rs:26-74 | the composed steps return the merge or its error, with bounds that are attained |
| `Merge.MergeExact` | crates/compact/src/lib.rs:26-74 | a merge succeeds if and only if its input is type-compatible and of one hour (so not empty), and then holds the last write per key of all inputs, whatever tag it clusters by |
| `MergeTree.AnyBracketing` | crates/compact/src/lib.rs:1-9 | any bracketing of contiguous merges holds the last write per key, and all columns, of the files at its leaves |
| `MergeTree.BracketingIff` | crates/compact/src/lib.rs:31 | a bracketing of one hour's files goes through if and only if no two of them disagree on a column's type |
| `MergeTree.FlushAndCompact` | crates/compact/src/lib.rs:1-9 | flushing any buffers and compacting an hour in any bracketing leaves, once each, exactly that hour of the last write per key of everything buffered |
| `Pruning.Extraction.Walk` | crates/query/src/provider.rs:284-313 | the walk notes, left to right, every conjunct and nothing under any other operator |
| `Pruning.ExtractPruning` | crates/query/src/provider.rs:276-282 | a filter list yields what its conjuncts yield |
| `Pruning.ExtractExact` | crates/query/src/provider.rs:276-348 | the bounds are the tightest time literals among the conjuncts and the tag literals are all of them |
| `Pruning.PassesBounds` | crates/query/src/provider.rs:290-304 | if each time comparison is true of no instant beyond its literal, a row that passes the filters lies within the extracted bounds |
| `Pruning.PassesTags` | crates/query/src/provider.rs:305-309 | if each tag comparison is true of no text but its literal, a row that passes the filters carries every extracted tag literal |
| `Pruning.TextOnlyPins` | crates/query/src/provider.rs:315-348 | under casts to text alone every tag comparison is true of no text but its literal |
| `Pruning.PreservingExcludes` | crates/query/src/provider.rs:315-332 | under value-preserving casts every time comparison is true of no instant beyond its literal |
| `Pruning.TightIff` | crates/query/src/provider.rs:284-332 | where casts only change resolution, monotonically, that holds if and only if the comparison is false at the one nearest instant beyond |
| `Pruning.WithinNames` | crates/query/src/provider.rs:315-332 | filters whose columns are among some names decide a row by those columns alone |
| `Scan.StatsKeepRowGroups` | crates/query/src/provider.rs:631-660 | the loop keeps exactly the groups whose statistics admit every literal |
| `Scan.SkippedGroup` | crates/query/src/provider.rs:587-660 | a group with a passing row is skipped neither by statistics nor by blooms |
| `Scan.SkipsOutside` | crates/query/src/provider.rs:667-690 | a file that ends before a lower time bound, or starts after an upper one, is not read |
| `Scan.SkipsAbsentTag` | crates/query/src/provider.rs:691-729 | nor is one none of whose row groups can hold the tag asked for |
| `Scan.PruningKeepsAnswers` | crates/query/src/provider.rs:667-807 | filtering what a pruned load returns gives, in order, what filtering the whole file gives |
| `Scan.TimePruningIff` | crates/query/src/provider.rs:284-332 | a time comparison under any casts prunes soundly on every file if and only if it is true of no instant beyond the literal lifted out of it |
| `Scan.ResolutionPruningIff` | crates/query/src/provider.rs:284-332 | where casts only change resolution it prunes soundly on every file if and only if it is false one nanosecond beyond its literal |
| `Scan.CoarseCastLosesRows` | crates/query/src/provider.rs:315-332 | a comparison through a coarser resolution prunes a file whose row passes |
| `Scan.TextCastLosesRows` | crates/query/src/provider.rs:315-332 | a comparison as text prunes a file whose row passes, wherever a later instant's text sorts first |
| `Scan.TagPruningIff` | crates/query/src/provider.rs:305-348 | a tag comparison under any casts prunes soundly on every file that has its column as text or not at all if and only if it is true of no text but its literal |
| `Scan.NumberCastLosesRows` | crates/query/src/provider.rs:315-321 | a tag compared through a number loses the rows whose text is another spelling of it |
| `Scan.DecodeFailsIff` | crates/query/src/provider.rs:753-782 | decoding fails if and only if some row carries every literal, all on text columns, before one that meets a non-text column |
| `Scan.NumberAsTextFails` | crates/query/src/provider.rs:753-782 | a number compared through its text: the row passes the filter and loading its file fails |
| `Scan.TextNeverFails` | crates/query/src/provider.rs:753-782 | literals on text columns, or on columns a file lacks, never fail a load |
| `Scan.Load` | crates/query/src/provider.rs:667-807 | loading a file returns its pruned rows and counts every row group once |
| `Loader.StepKeeps` | crates/query/src/provider.rs:881-918 | every step of every worker keeps: files below the counter are stored, held by one worker, or a failure is recorded |
| `Loader.RefinesSerial` | crates/query/src/provider.rs:872-930 | in every interleaving, without a recorded failure the result is the buffer and then each file's batches in file order, and otherwise an error |
| `Loader.ClaimedOnce` | crates/query/src/provider.rs:887-888 | in every run no two claims take the same file |
| `Loader.FailureIff` | crates/query/src/provider.rs:892-915 | a run fails if and only if some worker hit the deadline or recorded an error |
| `Loader.GroupsConserved` | crates/query/src/provider.rs:705-729 | whenever no worker is mid-count, groups considered = stats-pruned + bloom-pruned + scanned |
| `Loader.RunsEnd` | crates/query/src/provider.rs:881-918 | no run is longer than 11 steps a file and 2 a worker |
| `Loader.NeverStuck` | crates/query/src/provider.rs:881-918 | a worker that has not returned can always move |
| `ScanRuns.ScanAnswers` | crates/query/src/provider.rs:831-944 | in every interleaving that ends without a failure, restricting and filtering the pruned scan equals restricting and filtering the buffer and every whole file, in order and however rows are then read |
| `Sessions.Query` | crates/query/src/provider.rs:977-1107 | restricting, projecting and filtering what was loaded fails if and only if some restriction is blocked on a loaded batch, and otherwise returns the projection of exactly the permitted, passing rows |
| `Sessions.QueryAnswers` | crates/query/src/provider.rs:831-1107 | in every interleaving that loads without a failure, pruning never makes that query fail where the unpruned one would not, and for every projection that has the filters' columns it gives the same rows in the same order |
| `Sessions.AuthorizationsOnlyReveal` | crates/query/src/visibility.rs:9-15 | of two sessions running one query, each in any interleaving, the one with fewer authorizations succeeds if the other does and gets the other's rows with some left out |
| `Restrictions.ApplyVisibility` | crates/query/src/lib.rs:599-693 | deciding each distinct label once keeps exactly the rows whose label shows; a label column that is not text is an error |
| `Restrictions.ApplyTombstone` | crates/query/src/lib.rs:700-763 | the mask loops drop exactly the rows some delete matches, and fail on the first delete that names a non-text tag |
| `Restrictions.MatchTags` | crates/query/src/lib.rs:722-741 | a delete's tags all hold, or it is unsatisfiable because a column is missing, or it meets a non-text column first |
| `Windows.WindowIff` | crates/catalog/src/lib.rs:47-54 | the enforced deletes leave a batch the rows the described half-open windows would if and only if every row at the end instant of a window is inside another delete |
| `Windows.EndInstantGoes` | crates/query/src/lib.rs:742-763 | a row exactly at the end of a window is deleted, and its description keeps it |
| `Projection.AppliedKept` | crates/query/src/lib.rs:535-552 | with its required columns read, a restriction acts on a projected batch as on the whole one |
| `Projection.AppliedAllIsLets` | crates/query/src/lib.rs:587-595 | restrictions in sequence keep exactly the rows each lets through, missing columns reading as null |
| `Projection.ScannedExact` | crates/query/src/provider.rs:977-1107 | for every projection, the empty one included, a batch's output is the projection of exactly the permitted rows |
| `Projection.ProjectedCells` | crates/query/src/provider.rs:977-1107 | column j of the output is the j-th the query asked for and holds each kept row's cell of that name, null where the batch has none |
| `Projection.ScanTable` | crates/query/src/provider.rs:977-1107 | the scan over all batches returns that for each, and fails if and only if restricting some whole batch fails |
| `Projection.AppliedFailsIff` | crates/query/src/lib.rs:587-763 | restricting a batch fails if and only if its label column is not text, or a delete names a column that is not and some row got past the restrictions before it |
| `Projection.MandatoryExact` | crates/query/src/lib.rs:559-582 | leaving out the label restriction on an unlabelled table, or the empty delete list, never shows a row it would hide |
| `Prefetch.GroupSpan` | crates/query/src/provider.rs:132-143 | a group's span covers its chunks and has their edges |
| `Prefetch.Coalesce` | crates/query/src/provider.rs:144-158 | the in-place merge computes the coalescing of the sorted spans |
| `Prefetch.CoalescedSeparated` | crates/query/src/provider.rs:151-158 | merged spans are sorted and more than 64 KiB apart |
| `Prefetch.CoalescedCovers` | crates/query/src/provider.rs:151-158 | every span lies within a merged one |
| `Prefetch.CoalescedTotal` | crates/query/src/provider.rs:151-158 | at most 64 KiB more is fetched per request saved |
| `Prefetch.OnlyGapsExtra` | crates/query/src/provider.rs:151-158 | every fetched byte belongs to a kept group or lies less than 64 KiB past one |
| `Prefetch.StoreFile.PrefetchRowGroups` | crates/query/src/provider.rs:127-169 | exactly the coalesced spans of the kept groups are fetched and joined, sorted, to the blocks already held; on a fresh handle every chunk of theirs is then served whole |
| `Prefetch.StoreFile.GetBytes` | crates/query/src/provider.rs:202-222 | always equals the object's own range |
| `Prefetch.StoreFile.GetRead` | crates/query/src/provider.rs:188-200 | yields a prefix of the object from `start` that is complete for any served chunk, and the whole rest outside the blocks |
| `Prefetch.RangeReader.Read` | crates/query/src/provider.rs:247-264 | returns the next bytes, and none only at the end |
| `Prefetch.RangeReader.ReadToEnd` | crates/query/src/provider.rs:246-264 | repeated reads reproduce everything that was left |
| `Escapes.TakeEscaped` | crates/ingest/src/lib.rs:191-210 | the cursor loop computes the unescaped name and the rest |
| `Escapes.EscapeInto` | crates/ingest/src/lib.rs:329-336 | the printer appends the escaped name |
| `Escapes.NameSurvivesIff` | crates/ingest/src/lib.rs:191-210 | a name survives printing and parsing if and only if every backslash is followed by a character that, in that place, is either nothing special or escaped and no delimiter |
| `LineProtocol.TakeFieldValue` | crates/ingest/src/lib.rs:212-267 | quoted strings, booleans, integers and floats, with each error, as the grammar says |
| `LineProtocol.ParseOne` | crates/ingest/src/lib.rs:77-151 | the cursor-driven line parser computes the grammar's result, error cases included; `LineStamps.LineScales`, `LineDefaults` and `LineRefused` say what its timestamp is |
| `LineProtocol.ParseAll` | crates/ingest/src/lib.rs:56-75 | blank lines and comments are skipped and the first bad line is reported by number; `LineStamps.BodyScales` and `NoiseIgnored` say what comes out |
| `LineProtocol.ToLineProtocol` | crates/ingest/src/lib.rs:279-324 | the nested loops print every row |
| `LineRoundTrip.ValueReads` | crates/ingest/src/lib.rs:296-316 | every field value, whatever its characters, reads back as itself |
| `LineRoundTrip.LineReadsIff` | crates/ingest/src/lib.rs:77-151 | a printed line parses to its row if and only if its names survive, no key is `time`, and it has a measurement and a field |
| `LineBodies.RoundTripIff` | crates/ingest/src/lib.rs:269-278 | parsing what was printed gives the rows back if and only if each row's line does, no name or string holds a line break, and no measurement starts a comment |
| `LineStamps.LineScales` | crates/ingest/src/lib.rs:136-145 | a printed row read at any precision is the row with its timestamp multiplied, or an overflow if and only if the product is no i64 |
| `LineStamps.LineDefaults` | crates/ingest/src/lib.rs:131-148 | the same row without its stamp, or with blanks for it, is stamped with the default |
| `LineStamps.LineRefused` | crates/ingest/src/lib.rs:136-141 | with anything but an i64 numeral for its stamp it is a bad timestamp |
| `LineStamps.StampScales` | crates/ingest/src/lib.rs:131-148 | a numeral counts units of the precision however it is signed, zero-padded or surrounded by blanks |
| `LineStamps.BodyScales` | crates/ingest/src/lib.rs:56-75 | a printed body read at any precision gives all its rows scaled, or stops at the first that overflows and names its line |
| `LineStamps.NoiseIgnored` | crates/ingest/src/lib.rs:61-66 | blank lines, comments and carriage returns, wherever they stand, change no row |
| `LineStamps.LinesAre` | crates/ingest/src/lib.rs:61-62 | every line break ends a line, and what follows the last one is a line unless it is empty |
| `LineStamps.SuffixedMeans` | crates/ingest/src/lib.rs:252-263 | a number with a suffix is its value if and only if it is a numeral of the suffix's range, and an error otherwise |
| `LineStamps.BooleansAre` | crates/ingest/src/lib.rs:247-251 | exactly ten tokens are booleans |
| `LineStamps.PrecisionsAre` | crates/ingest/src/lib.rs:44-51 | the six precision names and their nanoseconds |
| `Visibility.Parser.Term` | crates/query/src/visibility.rs:93-147 | the recursive descent evaluates the term the grammar parses, or fails as it does |
| `Visibility.Parser.Expression` | crates/query/src/visibility.rs:71-91 | one operator per level; the accumulated value is the value of the parsed label |
| `Visibility.Evaluate` | crates/query/src/visibility.rs:25-43 | a blank label is public, trailing input is malformed, otherwise the label's value; `Labels.BlankIsPublic`, `NameGrantsIff` and `LabelGrantsIff` say who sees it |
| `Visibility.VisibilityLaws` | crates/query/src/visibility.rs:9-15 | malformedness does not depend on who asks, malformed labels are visible to nobody, and authorizations only reveal |
| `Visibility.SatMonotone` | crates/query/src/visibility.rs:71-91 | adding authorizations never makes a label unsatisfied |
| `LabelRoundTrip.LabelRoundTrips` | crates/query/src/visibility.rs:68-147 | every well-formed label's printed form parses to it, and whatever parses is well formed and prints to a form that parses the same |
| `LabelRoundTrip.QuotedTokenGrantsIff` | crates/query/src/visibility.rs:104-131 | a session is granted a quoted token if and only if it holds the authorization spelled by the token's UTF-8 bytes, which is the token itself if and only if the token is ASCII |
| `Labels.LabelGrantsIff` | crates/query/src/visibility.rs:71-147 | the printed form of an ASCII label is visible to a session if and only if the session meets it: its token, all parts of a conjunction, some part of a disjunction |
| `Labels.NameGrantsIff` | crates/query/src/visibility.rs:132-147 | an unquoted token of letters, digits and `_-.:/`, padded or not, is visible to exactly the sessions that hold it |
| `Labels.PairGrantsIff` | crates/query/src/visibility.rs:71-91 | two tokens joined by an ampersand ask for both, joined by a bar for either |
| `Labels.MixedIsHidden` | crates/query/src/visibility.rs:78-84 | both operators on one level are visible to nobody |
| `Labels.BlankIsPublic` | crates/query/src/visibility.rs:26-28 | a label of nothing but white space, the empty one included, is visible to everybody |
| `Labels.Utf8CharReads` | crates/query/src/visibility.rs:104-131 | a character's bytes are its UTF-8 encoding |
| `Sessions.LabelledRowIff` | crates/query/src/lib.rs:559-582 | a row whose label is missing, null or blank is hidden from a session by a delete alone; one labelled with a plain token also if the session lacks it |
| `Columns.AppendedRow` | crates/buffer/src/lib.rs:212-253 | appending a row to even columns leaves them even, old rows as they were, and the new row with the last value of each key |
| `TableBuffer.PushTagOk` | crates/buffer/src/lib.rs:39-46 | interning stays a bijection, keys stay in range, and the pushed value reads back |
| `TableBuffer.LearnIff` | crates/buffer/src/lib.rs:181-210 | a line is rejected if and only if one of its values is neither of the type its column has, was established with, or takes from the line itself, nor an integer for a float column |
| `TableBuffer.ColForIff` | crates/buffer/src/lib.rs:116-130 | each field type has its storage type, text four of them, and no other type is a field's |
| `TableBuffer.Buffer.Validate` | crates/buffer/src/lib.rs:181-210 | validation decides exactly that and touches nothing |
| `TableBuffer.Buffer.Append` | crates/buffer/src/lib.rs:176-254 | a rejected line changes nothing; an accepted one appends one row with the line's time, the last value of each of its tags and fields and nothing else, values unchanged but for integers converted in a float column; new names follow the known ones in the order the line first mentions them |
| `Snapshot.TakeSnapshot` | crates/buffer/src/lib.rs:287-327 | the batch has `time`, the tags and the fields in order of appearance, and one row per time |
| `Snapshot.SnapshotReads` | crates/buffer/src/lib.rs:287-327 | the snapshot is a well-formed batch whose rows read as the rows appended, in order |
| `Snapshot.EncodeSays` | crates/buffer/src/lib.rs:287-327 | a cell tells its value apart from every other and is of its column's kind |
| `Snapshot.EncodeRowSays` | crates/buffer/src/lib.rs:287-327 | so rows that snapshot alike are the same row |
| `Snapshot.SchemaIff` | crates/buffer/src/lib.rs:287-327 | it has a proper schema if and only if no key is both tag and field and none is `time` |
| `Snapshot.KeyTwice` | crates/buffer/src/lib.rs:287-327 | a line that uses one key as tag and field is accepted and its snapshot has no proper schema |
| `Ingest.Table.Apply` | crates/server/src/lib.rs:1372-1466 | for a body over any tables, this table's buffer gains exactly its rows among the lines before the first that it or another table rejects; while keys and types are undisturbed only a rejection or another table makes the call fail |
| `Ingest.Table.Swap` | crates/server/src/lib.rs:1571-1611 | the buffer starts empty and its rows, types and keys are sealed in its snapshot; writes may follow before it is registered |
| `Ingest.Table.Finish` | crates/server/src/lib.rs:1677-1690 | the sealed rows are written, in order, if and only if their columns agree with the registry; they always do while no key is both tag and field and no overlapping write changed a type, and that is kept if the writes in between agreed |
| `Ingest.LearnAgrees` | crates/buffer/src/lib.rs:176-210 | a column re-created after a flush takes the type the registry has for it, whatever value comes first |
| `Ingest.RegistrableIff` | crates/query/src/lib.rs:378-412 | a buffer can be registered if and only if its types are the registry's and no key is a tag in one and a field in the other |
| `Ingest.TagKeyAsField` | crates/server/src/lib.rs:1677-1690 | a value for a key that files carry as a tag is accepted if and only if it is text, and the buffer can then never be registered |
| `Ingest.OverlappedWritesIff` | crates/server/src/lib.rs:1571-1690 | of any two buffers, one swapped out and one filled meanwhile, the second can be registered after the first if and only if they give no key two types and no key is a tag on one side and a field on another |
| `Ingest.Table.Settles` | crates/compact/src/lib.rs:1-9 | end to end: while no key is both tag and field and no write overlapping a flush changed a type, compacting an hour's files in any bracketing succeeds and leaves, once each, that hour of the last write per key of every row flushed |
| `Audit.VerifyRecords` | crates/audit/src/lib.rs:210-238 | Ok if and only if the chain is unbroken, else the first break after an intact prefix |
| `Audit.SameHeadSameChain` | crates/audit/src/lib.rs:180-205 | two unbroken chains with the same head hash are the same chain |
| `Audit.TamperingDetected` | crates/audit/src/lib.rs:207-238 | against a known head, only the chain itself verifies |
| `Audit.DeletionDetectedIff` | crates/audit/src/lib.rs:207-238 | deleting a run of records goes undetected if and only if it is the tail |
| `AuditSink.RetriedIff` | crates/audit/src/lib.rs:384-428 | a run writes after a torn record if and only if some append follows a failed sync with no reopening in between |
| `AuditSink.IntactIff` | crates/audit/src/lib.rs:384-428 | over every run of appends that write a whole line or none, and of reopenings, the disk verifies if and only if that never happened, so a break lasts and reopening first avoids it |
| `AuditSink.TrailIsAcknowledged` | crates/audit/src/lib.rs:387-428 | without failed syncs the trail is exactly the acknowledged events, in order |
| `AuditSink.ListingIsChainOrder` | crates/audit/src/lib.rs:599-622 | below 10^12 records rotated segments list in chain order |
| `AuditSink.SegmentNameReads` | crates/audit/src/lib.rs:326-328 | a segment's name is `audit.`, its last number in digits, twelve of them while it fits, and `.jsonl` |
| `AuditSink.Sink.Rotate` | crates/audit/src/lib.rs:326-346 | rotation moves the live records under a fresh name and keeps the trail |
| `AuditSink.Sink.Append` | crates/audit/src/lib.rs:302-428 | in every state, torn ones included, the sink ends where one more append takes the run; only a synced append is acknowledged; the live segment is closed first if and only if it is not empty and is overdue or the record would take it past the limit |
| `AuditSink.Sink.ReadAll` | crates/audit/src/lib.rs:448-454 | reading segments in name order returns the whole trail below 10^12 records |
| `AuditSink.Sink.Verify` | crates/audit/src/lib.rs:457-459 | verification of the files reports a break if and only if some write followed a failed sync in one process |
| `AuditSink.Sink.Reopen` | crates/audit/src/lib.rs:273-299 | reopening recovers number and head from the whole trail, a torn record included |
| `Overlap.HasOverlap` | crates/server/src/compaction.rs:112-130 | the sweep answers yes if and only if two distinct files, ordered by (min, max), have the later start before the earlier ends |
| `LastValue.PlainIsFirstLatest` | crates/lastvalue/src/lib.rs:116-152 | the unbounded cache keeps, per series, the first reading with the largest timestamp since it (re)appeared |
| `LastValue.RunBounded` | crates/lastvalue/src/lib.rs:11-14 | the cache never holds more than its cap |
| `LastValue.EntryIsLatest` | crates/lastvalue/src/lib.rs:8-14 | every resident entry is the latest reading of its series since it was last admitted, whatever was evicted |
| `LastValue.FittingIsPlain` | crates/lastvalue/src/lib.rs:120-152 | while all series ever cached fit the cap the cache is exactly the unbounded one |
| `LastValue.SnapshotIsLatest` | crates/lastvalue/src/lib.rs:120-164 | while every series ever cached fits the cap, and names are free of NUL and tag keys of `=`, a table's snapshot has exactly one reading per tag set observed since the table was last disabled, and it is the first with the largest timestamp |
| `LastValue.Cache.Enable` | crates/lastvalue/src/lib.rs:78-86 | the table's rows count from now on |
| `LastValue.Cache.Observe` | crates/lastvalue/src/lib.rs:120-152 | a row of an enabled table is one observation of the key of its database, table and sorted tags, of any other table none; `Recency` says which series it evicts |
| `Recency.OrderIsRecency` | crates/lastvalue/src/lib.rs:130-136 | entries stand in the order of their last observation, ignored older readings included, through evictions and drops |
| `Recency.EvictsOldest` | crates/lastvalue/src/lib.rs:130-150 | an observation evicts nothing while its series is there or there is room, and otherwise exactly the resident series whose last observation is the oldest |
| `Recency.ResidentIff` | crates/lastvalue/src/lib.rs:120-152 | without drops a series is in the cache if and only if it was observed and fewer than `cap` other series were observed after its last observation |
| `Recency.EnabledIff` | crates/lastvalue/src/lib.rs:78-102 | a table is enabled if and only if its last switch was on |
| `Recency.EventIs` | crates/lastvalue/src/lib.rs:120-134 | exactly the writes to a table while it is enabled are observations |
| `LastValue.Cache.Disable` | crates/lastvalue/src/lib.rs:87-102 | disabling stops a table's rows from counting and forgets exactly the keys with its prefix |
| `LastValue.Cache.Snapshot` | crates/lastvalue/src/lib.rs:155-164 | exactly the resident readings of the table, each once, most recently used first; the latest per series under the conditions above |
| `SeriesKeys.SeriesKeyInjective` | crates/lastvalue/src/lib.rs:199-210 | without NUL in names and `=` in tag keys a series key determines table and tags |
| `SeriesKeys.PrefixSelectsTable` | crates/lastvalue/src/lib.rs:191-195 | a table's prefix selects that table's keys and no other's |
| `SeriesKeys.SortTagsIff` | crates/lastvalue/src/lib.rs:132-134 | two tag lists sort to the same list if and only if they are permutations of each other |
| `SeriesKeys.SeriesKeyIff` | crates/lastvalue/src/lib.rs:199-210 | among names without NUL, a series key belongs to one database, table and tag list alone if and only if no key and no value of the list holds an equals sign |
| `SeriesKeys.DeterminedAmongAllIff` | crates/lastvalue/src/lib.rs:199-210 | among all tag lists, one is the only one with its key if and only if it is empty or a single tag without an equals sign |

## Left out

- The engine around one table and one query: databases, the write-ahead log, replication, routing, retention and garbage collection.
- Parquet encoding, bloom filter internals, Arrow kernels, DataFusion planning and the memory pool: a bloom is a predicate without false negatives, row-group statistics are bounds, a batch is rows of cells under named columns, and a load may fail at any point.
- HTTP and Flight handlers, TLS, service discovery, metrics, configuration, authentication and the SQL read-only walk.
- Serialisation of manifests and audit records, which is taken as the identity; SHA-256, which is a free constructor; float formatting and parsing, where a float is its canonical text.
- UTF-8 decoding in the line protocol parser: names are sequences of characters, which is equivalent because every delimiter is ASCII.
- 64-bit overflow of byte offsets, sequence numbers and row counts, and 32-bit overflow of dictionary keys.
- Audit segment pruning, which deliberately leaves a chain that does not start at genesis, and a rotation that fails between the rename and the reopening of the live file.
- The order of the columns of a projected batch: a scan resolves columns by name, and `Projection.ScannedExact` holds for every order, while `Projection.ScanTable` keeps the file's.
- `trigger_for`, partition and rollup ownership, table listings and storage summaries, which would only add easy members.
- Ingest.Table.Swap: one flush of a table at a time; two overlapping flushes are not modelled.
- AuditSink.Sink.Append: a write that fails midway and leaves part of a line, to which the next record is glued; reading the segment then fails.
- AuditSink.Sink.Verify: says nothing from 10^12 records on, where segments no longer list in chain order, and AuditSink.Sink.Reopen and AuditSink.Sink.ReadAll likewise.
