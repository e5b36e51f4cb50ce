# Planar catalog: a verified model

Planar keeps table metadata in a SQL database. Every table is a chain of transactions; files carry the
transaction that added them and the one that removed them, schemas carry the interval of transactions they are
in force, and readers ask for a table as of any transaction of its history. The same history is therefore
represented twice, as a parent chain that is walked and as id intervals that are filtered, over rows that later
commits keep updating, and readers run several queries without an enclosing database transaction while any number
of writers commit.

This project models that catalog in Dafny and proves that it works:

- **State.** `CatalogTypes.Db` is the database: five tables with their primary keys and unique constraints. A
  database transaction is a private write set over it (`Over`), published at once or dropped.
- **Writing.** `Statements` gives what `commit` and `create_table` write, as functions; `Mutations` and
  `Catalogs.Catalog` are the loops and the stateful operations, proved against those functions; `Meaning` says what
  a mutation means without rows or chunks, `Acceptance` when a commit or a creation succeeds, in terms of the request and
  the published rows alone, and `Faults` which error it reports otherwise.
- **History.** `History` and `Commits` hold the invariant of every reachable state (one simple chain per table, file
  and schema intervals on it, stored columns, evolution) and show that every commit extends history and
  rewrites none of it.
- **Reading.** `Views`, `Readers`, `Events`, `Listings`, `Diff` and `Queries` cover snapshots, event listings and
  diffs. A `Schedule` gives the state each single query sees, so commits may fall between any two of them.
  `Answers` says what a view, a listing and a diff tell, in terms of the history alone, and `Effects` when they fail and
  that a read after a creation or a commit returns what it means; `Outcomes` says which errors a reader can meet and that
  its queries always end; `Framing` shows that readers of one table never notice another.
- **Protocol.** `Protocol` has any number of writers, each on a catalog instance of its own, that lock, check the base,
  run one statement at a time against a private buffer and publish or roll back; `Runs` draws the consequences for
  readers of every run and holds concrete runs; `Reach` shows that runs realize every atomic commit and every history.

SQLite and Postgres run the same algorithm. SQLite's global write lock admits only runs with one active writer at a
time, Postgres' row lock admits one per table; the protocol allows the latter, so both are covered. Chunk sizes and
placeholder styles are parameters of the backend.

Ids, UUIDs and the outcome of the JSON size and format checks are parameters. Transaction ids are natural numbers.
That they grow along a chain (`History.Increasing`) is a hypothesis of the theorems about interval filters and reads
only; for runs it is stated on the id source (`Protocol.IdSource`: a fresh id exceeds the base it is drawn for). The
chain walks, the event listings, the file part of diffs, the commit protocol and the invariant do not use it.

Where the code does less than a reader might expect, the exact condition is proved:

- **Order of ids.** Over all tables that runs produce, each of the two interval filters is right at every transaction
  of every table with a given history if and only if ids grow along that history (`Reach.FiltersRightIffIdsGrow`). Out
  of order, a commit can succeed and leave the head of its table unreadable (`Runs.ReadAfterOutOfOrderCommit`).
- **Listings.** An event listing equals an atomic listing of the state its *existence check* sees. The state of its
  first query serves too if and only if the target is not published between the two
  (`Listings.FirstQueryLinearizesIff`); `Runs.MissedPublication` is a run in which it is.
- **Net delta.** For any log that adds only absent files and removes only present ones, the two-map loop computes the
  difference if and only if no file that was live is ever added again (`Delta.NetExactIff`). Two deltas compose if and
  only if no file stands in the way, for any two lists of changes (`Delta.DeltasComposeIff`). `Delta.ReAddIsMisreported`
  has an input on either wrong side. No listing yields such a log: in a reachable history every file is added at most
  once and removed at most once, in that order (`Diff.RangeChanges`).
- **Properties in diffs.** Properties are not versioned. A diff reports new ones if and only if the table row's
  properties differ between the first queries of the two reads it is made of, whatever `from` and `to` are
  (`Diff.DiffComparesTwoMoments`, `Runs.RunDiffsCompareMoments`). So a diff across a commit that only sets a property
  is Ok and empty (`Runs.DiffHidesPropertyChange`).
- **Empty range.** `diff_table` refuses `from == to` (`Diff.AtomicDiffOutcome`).

## Model

| member | source | states |
|---|---|---|
| `DataTypes.EvolvesByWidth` | src/catalog/data_type.rs:64-121 | the branch list allows an evolution exactly when both types are of one family (integers by sign, floats, dates, timestamps of one zone, decimals of one scale) and the width does not shrink |
| `DataTypes.EvolutionOrder` | src/catalog/data_type.rs:64-121 | the evolution relation is reflexive, transitive and antisymmetric, and any two evolutions of one type are comparable |
| `DataTypes.DaysFitMillis` | src/catalog/data_type.rs:84-85 | every 32-bit day count, in milliseconds, fits a 64-bit integer |
| `DataTypes.WideningPreservesValues` | src/catalog/data_type.rs:70-118 | every integer, date or decimal value storable under the old type is storable under the new one, and distinct values stay distinct |
| `DataTypes.WideningAcrossHistory` | src/catalog/data_type.rs:64-121 | widening step by step through any number of updates equals widening once and stays in range |
| `Limits.ChunksCover` | src/catalog/mod.rs:1125-1209 | splitting a list into chunks loses, repeats and reorders nothing |
| `Limits.ChunkPosition` | src/catalog/mod.rs:356-397 | element i of chunk c is element c * chunk + i of the list |
| `Limits.StatementsWithinBindLimit` | src/catalog/limits.rs:65-97 | every chunked file insert, delete and column insert stays within the backend's bind-parameter limit, on both backends |
| `Limits.ChunkCountExact` | src/catalog/mod.rs:1125-1209 | no more chunks than needed |
| `Limits.StatementShapes` | src/catalog/limits.rs:44-97 | the chunked statements in numbers: 100 files of 9 parameters, 500 deletes and two fixed parameters, 1000 columns of 6, none above 32766 |
| `Limits.LimitsFit` | src/catalog/limits.rs:105-133 | the values of the limits and the relations they are chosen to keep |
| `Limits.ValuePlaceholders` | src/catalog/mod.rs:2292-2311 | tuple r of the Postgres values holds r*width+1 to (r+1)*width, so together they use 1..rows*width in order |
| `Limits.DeletePlaceholders` | src/catalog/mod.rs:2349-2353 | the placeholders of a chunked delete continue after the two fixed ones, on both backends |
| `Validation.ValidateSchema` | src/catalog/models.rs:348-376 | accepts exactly 1 to 1000 columns with non-blank, pairwise distinct names, and otherwise reports the first violation |
| `Validation.BlankIffTrimmedEmpty` | src/catalog/models.rs:363 | a name is blank exactly when trimming both ends leaves nothing, that is, when no position holds anything but white space |
| `Validation.AsciiWhitespace` | src/catalog/models.rs:363 | of the ASCII characters, trimming strips tab, line feed, vertical tab, form feed, carriage return and space only |
| `Validation.CheckSchemaReports` | src/catalog/models.rs:348-376 | which error a rejected schema gets: none or too many columns, else that of the first column that is blank or repeats an earlier name |
| `Validation.CheckFileExact` | src/catalog/models.rs:431-464 | a file is accepted exactly when its path is not blank, no count is negative and every document present is accepted; otherwise the error is that of the first of these to fail |
| `Validation.ValidateMutation` | src/catalog/models.rs:469-516 | accepts exactly mutations in which no two positions hold a schema update, no two a property set, and no delete or key removal repeats itself; a rejection names an operation that offends after a valid beginning, and why |
| `Validation.ScanOpsReports` | src/catalog/models.rs:469-516 | the exact error of a rejected mutation: that of the first operation that offends, a repeated element being the first to occur a second time |
| `Statements.AppendChunksAtOnce` | src/catalog/mod.rs:1117-1176 | chunked inserts succeed exactly when every file has a path, no negative count and accepted documents only, and every UUID is new, and write the rows of one insert |
| `Statements.ChunkedOperationsAtOnce` | src/catalog/mod.rs:1117-1210 | appends by 100 and deletes by 500 leave the rows of a single statement |
| `Statements.ColumnsAtOnce` | src/catalog/mod.rs:1309-1357 | chunked column inserts equal one insert, with the same uniqueness verdict |
| `Mutations.AppendFiles` | src/catalog/mod.rs:1117-1176 | the append loops: success exactly for valid files under new UUIDs, and then the rows added are these files, live, with all their data, under the new transaction |
| `Mutations.DeleteFiles` | src/catalog/mod.rs:1177-1210 | the delete loop marks exactly the named files that are live in this table, changes nothing else of them, and ignores all other UUIDs |
| `Mutations.InsertSchemaColumns` | src/catalog/mod.rs:1309-1357 | the column loops with ordinal chunk_index * chunk + i + 1 store the specification at ordinals 1..n, or nothing |
| `Mutations.CheckSchemaEvolution` | src/catalog/mod.rs:1235-1284 | the check through a name map gives the verdict of the column-by-column relation |
| `Mutations.UpdateSchema` | src/catalog/mod.rs:1211-1360 | one schema update: validation, evolution check, next version opened, current one closed, columns inserted |
| `Mutations.RemoveProperties` | src/catalog/mod.rs:1361-1378 | the key loop removes exactly the named keys |
| `Mutations.Execute` | src/catalog/mod.rs:1113-1380 | one operation changes the buffer as the operation function says, with its limit errors |
| `History.EvolutionCheckExact` | src/catalog/mod.rs:1235-1284 | a schema update is accepted exactly when every current column is kept by name, with a reachable type and nullability only relaxed |
| `History.ChangeKeepsInvariant` | src/catalog/mod.rs:1099-1397 | a commit keeps the table invariant: simple chain, file and schema intervals, stored columns, evolution |
| `History.ChangeGrows` | src/catalog/mod.rs:1099-1397 | a commit extends the table's history and only fills in removals and schema ends at the new transaction |
| `History.GrowsTransitive` | src/catalog/mod.rs:1099-1397 | this growth is transitive; `Protocol.RunGrows` carries it through any number of steps |
| `History.LinearHistory` | src/catalog/mod.rs:1092-1111 | one root, no transaction with two children, none without its parent, and only the head is childless |
| `Commits.FoldInstallsChange` | src/catalog/mod.rs:1113-1380 | after any number of operations the buffer is that of one legal change of the commit's own table |
| `Commits.CommitIsChange` | src/catalog/mod.rs:1059-1397 | an Ok commit writes one legal change, with one new transaction whose parent is the base, and that base was the head |
| `Commits.CommitSteps` | src/catalog/mod.rs:1038-1403 | an Ok commit replaces its table's rows by the changed ones, leaves every other table's rows alone and keeps the invariant of all tables |
| `Commits.CreateSteps` | src/catalog/mod.rs:281-414 | an Ok creation adds exactly one table with its first transaction and schema and leaves all other tables alone |
| `Meaning.CommitMeaning` | src/catalog/mod.rs:1113-1397 | live files and properties after an Ok commit are the in-order meaning of all operations (append, delete if live, set, remove), under one new head |
| `Meaning.AppendsArePublished` | src/catalog/mod.rs:1117-1176 | every appended file is in the table afterwards, was not before, and carries the format, path, counts and documents it was given |
| `Acceptance.CommitOkIff` | src/catalog/mod.rs:1044-1397 | a commit succeeds if and only if its operations are 1 to 1000 and valid, its base is the head and its id new, every list is within its limit, each file appended at each position is valid under a UUID not stored and not used at any other position, the schema update evolves the current specification under ids not stored, and the resulting properties fit |
| `Acceptance.CreateOkIff` | src/catalog/mod.rs:281-414 | a creation succeeds if and only if its schema is valid, no table has this namespace and name, its properties fit, and all its ids are new |
| `Acceptance.CreateReports` | src/catalog/mod.rs:281-414 | which error a refused creation gets: the schema's, else the taken name, else the properties, else the taken id |
| `Acceptance.CommitKeepsRowsValid` | src/catalog/models.rs:431-464 | commits leave only valid files stored |
| `Faults.BeginReports` | src/catalog/mod.rs:1059-1111 | which error a commit that cannot start gets: missing table, writer too old, no head, another base, a used id, in this order |
| `Faults.AppendReports` | src/catalog/mod.rs:1117-1176 | a refused append fails in the first chunk that cannot be stored on top of the chunks before it: on its first invalid file, else on a taken UUID |
| `Faults.EvolutionReports` | src/catalog/mod.rs:1235-1284 | a refused evolution reports a dropped column first, else the first new column with an unreachable type or, after that, narrowed nullability |
| `Faults.UpdateReports` | src/catalog/mod.rs:1211-1360 | a refused schema update reports the specification, else the missing current schema, else the evolution, else a taken id |
| `Faults.CommitReports` | src/catalog/mod.rs:1038-1403 | the exact error of a refused commit: the mutation's, else why it cannot start, else the first failing operation's, else the size of the properties |
| `Catalogs.Catalog.Commit` | src/catalog/mod.rs:1038-1403 | succeeds exactly under the condition of `Acceptance.CommitOkIff`; then publishes exactly the write set, and live files and properties are those the operations mean; any error, also midway, leaves the database unchanged |
| `Catalogs.Catalog.CreateTable` | src/catalog/mod.rs:281-414 | succeeds exactly under the condition of `Acceptance.CreateOkIff`, and answers that a table exists whenever the name is taken and the schema valid; then publishes exactly the write set with every other table as it was; any error leaves the database unchanged |
| `Catalogs.Catalog.PrepareTable` | src/catalog/mod.rs:281-414 | the rows of a new table, stored only under a valid schema, a free name and a new id, or the first check that fails |
| `Catalogs.Catalog.BeginCommit` | src/catalog/mod.rs:1059-1111 | a commit starts if and only if the table exists, the writer version suffices, the base is the head and the id is new |
| `Catalogs.Catalog.Read` | src/catalog/mod.rs:779-998 | where ids grow along the table, an undisturbed read returns, by the history alone, the schema in force at the target with its columns in order and exactly the files live there, row by row; it fails exactly for a reader too old, a target outside the history or too many files; its properties are those of the table row |
| `Catalogs.Catalog.List` | src/catalog/mod.rs:507-777 | an undisturbed listing reports, by the history alone, the transactions after the boundary up to the target, each with exactly its file changes and the schema that starts there, if one does; an unknown table or target is refused |
| `Catalogs.Catalog.Diff` | src/catalog/mod.rs:1000-1036 | an undisturbed diff reports exactly the files live at `to` and not at `from` and the other way round, no properties, and refuses `from == to`; where ids grow it succeeds exactly for a proper ancestor within the limits and reports the schema in force at `to` exactly if another is in force at `from` |
| `Views.SchemasTile` | src/catalog/mod.rs:343-354 | at every transaction exactly one schema is in force, versions are 1..n in chain order, and the open interval is the current schema's |
| `Views.SchemaFilterExact` | src/catalog/mod.rs:854-872 | with growing ids the schema filter matches exactly the schema in force, so LIMIT 1 is unambiguous |
| `Views.FileFilterExact` | src/catalog/mod.rs:922-929 | with growing ids the file filter returns exactly the files live at that position of the chain |
| `Views.VisibleIsReplay` | src/catalog/mod.rs:922-929 | the files live at a position are those left by replaying additions and removals from genesis |
| `Views.ActiveIsLastChange` | src/catalog/mod.rs:854-872 | the schema in force is the last schema change on the chain |
| `Views.OrderedIsListed` | src/catalog/mod.rs:876-907 | any ordinal-ordered result of the stored column rows is the specification, with ordinals 1..n |
| `Views.SchemaRoundTrip` | src/catalog/mod.rs:876-907 | an accepted specification, stored in chunks under a new schema among any other columns and read back in order, is unchanged and within the read limit |
| `Views.SnapshotStable` | src/catalog/mod.rs:1197-1200 | the snapshot at a transaction keeps its files, their data, schema and columns under any later commits |
| `Views.EvolutionSafety` | src/catalog/mod.rs:1245-1284 | every column visible at a is visible by name at any later b, its type reached by allowed evolutions and nullability only relaxed |
| `Views.ValuesSurviveHistory` | src/catalog/mod.rs:1259-1272 | a value storable under a column's type at a is storable, widened, under its type at any later b |
| `Readers.WalkExact` | src/catalog/mod.rs:814-852 | along a chain the read walk finds exactly the transactions of the chain; cycle and broken-chain errors cannot occur |
| `Readers.InterleavedReadIsAtomic` | src/catalog/mod.rs:779-998 | where ids grow, whatever commits fall between its queries, a read returns an atomic read of the state of its first query, properties included |
| `Readers.AtomicReadExact` | src/catalog/mod.rs:779-998 | where ids grow, a read of an unchanging state is the history's snapshot in every field, or the exact error |
| `Readers.AtomicReadExists` | src/catalog/mod.rs:779-998 | where ids grow, that answer is one the queries give |
| `Readers.ReadProperties` | src/catalog/mod.rs:784-812 | on any schedule, a read's properties are those its first query saw |
| `Answers.ReadTells` | src/catalog/mod.rs:779-998 | where ids grow, whatever commits interleave, an Ok read holds, of the history its first query saw, the schema version in force at the target with the columns of its specification in order, exactly the files added there or before and not removed by then, with their data, and the table row's properties |
| `Answers.AtomicReadTells` | src/catalog/mod.rs:779-998 | where ids grow, a read that nothing interleaves with says the same row by row, and each of its errors occurs exactly under its condition |
| `Effects.ReadAfterCreate` | src/catalog/mod.rs:281-414 | a read of a table just created fails exactly for a reader below the creator's reader version; otherwise it holds the first transaction, the given columns in order, the given properties and no files |
| `Effects.ReadAfterCommit` | src/catalog/mod.rs:1113-1397 | a read of the head after a commit: the new transaction, exactly the files the operations leave live, the properties they leave, and the columns of the schema update in order, or the schema before |
| `Outcomes.ReadErrors` | src/catalog/mod.rs:784-942 | whatever commits interleave, a read of an existing table meets only a reader too old, a target outside the history, the file limit, or, where ids do not grow, a missing schema: no cycle, broken chain, missing head or over-wide schema |
| `Outcomes.ReadHasOutcome` | src/catalog/mod.rs:779-998 | whatever commits interleave, the queries of a read come to an outcome |
| `Events.SegmentWalkExact` | src/catalog/mod.rs:544-596 | on any parent map, cyclic and dangling ones included, the walk succeeds exactly when a segment (from, to] within the limit exists, and returns that unique segment oldest first |
| `Listings.ChainWalkExact` | src/catalog/mod.rs:544-596 | along a chain the walk covers the positions after the boundary up to the target, or reports exactly why not |
| `Listings.ListingCovers` | src/catalog/mod.rs:507-777 | an undisturbed listing is the event list of the transactions after the boundary up to the target, or the exact error |
| `Listings.InterleavedListingIsAtomic` | src/catalog/mod.rs:507-777 | whatever commits fall between its queries, a listing equals an atomic listing of the state its existence check sees |
| `Listings.FirstQueryLinearizesIff` | src/catalog/mod.rs:512-542 | the state of the first query serves too if and only if the target was not published between it and the existence check |
| `Answers.ListingTells` | src/catalog/mod.rs:598-776 | whatever commits interleave, an Ok listing holds, of the history its existence check saw, one event per transaction after the boundary up to the target, oldest first: additions then removals, each file of that transaction once with its data, and a schema if and only if a version starts there, that version with its columns in order |
| `Answers.AtomicListingTells` | src/catalog/mod.rs:598-776 | the same of a listing that nothing interleaves with |
| `Answers.SchemaStartsWhereItChanges` | src/catalog/mod.rs:698-767 | after the first transaction, a schema starts exactly where the version in force changes |
| `Effects.AtomicListingReports` | src/catalog/mod.rs:507-777 | an undisturbed listing fails exactly for an unknown target, a boundary that is no proper ancestor, more than 50000 transactions, more than 10000 files added or removed, or more than 10000 schema changes, counted on the history |
| `Outcomes.OneSchemaPerTransaction` | src/catalog/mod.rs:698-718 | no two schemas of a table start at one transaction |
| `Outcomes.ListingErrors` | src/catalog/mod.rs:536-725 | whatever commits interleave, a listing of an existing table meets only an unknown target, a boundary that is no ancestor, or the transaction, file-event or schema-change limit: no cycle and no ambiguous or over-wide schema |
| `Outcomes.ListingHasOutcome` | src/catalog/mod.rs:507-777 | whatever commits interleave, the queries of a listing come to an outcome |
| `Delta.ProjectDeltaRange` | src/catalog/helpers.rs:101-139 | the two-map loop computes the net of the changes in order |
| `Delta.NetDisjoint` | src/catalog/helpers.rs:108-129 | the two maps never share a file, for any event list |
| `Delta.NetContents` | src/catalog/helpers.rs:108-129 | for any event list, each file is reported by its own changes alone: added with its last addition, removed with its last removal unless that cancels an addition directly before it |
| `Delta.NetExactIff` | src/catalog/helpers.rs:108-129 | for every log that adds absent files and removes present ones, the delta is the difference of the file sets if and only if no live file is ever added again |
| `Delta.NetAppliesIff` | src/catalog/helpers.rs:108-129 | for every such log, applying the delta leads to the replayed files if and only if every live file that is added again is live at the end |
| `Delta.NetIsDifference` | src/catalog/helpers.rs:108-129 | in particular, for logs with each file added and removed at most once, in that order, applying the delta equals replaying the events and the delta is the exact difference |
| `Delta.DeltasComposeIff` | src/catalog/helpers.rs:108-129 | for any two lists of changes, their deltas compose if and only if no file stands in the way: touched by the second and left unmarked or doubly removed by it although the first marks or adds it |
| `Delta.DeltasCompose` | src/catalog/helpers.rs:108-129 | in particular, the deltas of two consecutive ranges of a log with each file added and removed at most once, in that order, compose |
| `Delta.ReAddIsMisreported` | src/catalog/helpers.rs:112-117 | an input on the wrong side of each condition: a live file removed and added again, and a file one range removes and the next adds and removes again |
| `Diff.RangeChanges` | src/catalog/mod.rs:598-776 | the logged changes of any range of a reachable history add and remove each file at most once, in that order, and lead from the files live before the range to those live at its end |
| `Diff.RangeIsDifference` | src/catalog/mod.rs:1000-1036 | the net of the events between two positions is the difference of their snapshots |
| `Diff.GenesisReplay` | src/catalog/mod.rs:507-777 | replaying a listing from the beginning gives the files live at its target |
| `Diff.InterleavedDiffExact` | src/catalog/mod.rs:1000-1036 | an Ok diff has `from` properly before `to`, added = visible(to) minus visible(from) and removed = visible(from) minus visible(to), whatever commits interleave and however ids are ordered |
| `Diff.InterleavedDiffSchema` | src/catalog/mod.rs:1016-1022 | where ids grow, an Ok diff reports a new schema exactly when the schemas in force differ, namely that of `to`, whatever commits interleave |
| `Answers.DiffTells` | src/catalog/mod.rs:1000-1036 | whatever commits interleave and however ids are ordered, an Ok diff holds, of the history its existence check saw, exactly the files live at `to` and not at `from`, and those live at `from` and not at `to`, with their data |
| `Answers.DiffTellsSchema` | src/catalog/mod.rs:1016-1022 | where ids grow, it holds the schema version in force at `to`, with its columns in order, exactly if another one is in force at `from` |
| `Diff.DiffComparesTwoMoments` | src/catalog/mod.rs:1016-1027 | on any schedule, an Ok diff is the projection of one listing and two reads, and it reports properties if and only if the table row's properties differ between the first queries of these two reads, namely the later ones |
| `Diff.InterleavedDiffIsAtomic` | src/catalog/mod.rs:1000-1036 | where ids grow, whatever commits interleave, the whole outcome of a diff, errors included, is that of an atomic diff of the state its existence check sees, up to fields later commits fill in and properties |
| `Outcomes.DiffErrors` | src/catalog/mod.rs:1000-1036 | whatever commits interleave, a diff of an existing table meets only the errors of its listing and its reads |
| `Outcomes.DiffHasOutcome` | src/catalog/mod.rs:1000-1036 | whatever commits interleave, the queries of a diff come to an outcome |
| `Diff.AtomicDiffOutcome` | src/catalog/mod.rs:1000-1036 | on any table an undisturbed diff refuses `from == to` and reports no properties; where ids grow it is Ok exactly for a proper ancestor within all limits |
| `Effects.AtomicDiffReports` | src/catalog/mod.rs:1000-1036 | where ids grow, an undisturbed diff fails with its listing's error, else exactly for a reader too old, else exactly for more than 10000 files at either end |
| `Diff.DiffConserves` | src/catalog/helpers.rs:131-138 | any total of immutable file fields, such as records or bytes, at `to` is that at `from` plus the added minus the removed |
| `Diff.DifferencesCompose` | src/catalog/helpers.rs:101-139 | consecutive diffs of a history compose to the diff over both |
| `Queries.WalkToTarget` | src/catalog/mod.rs:814-852 | the read walk terminates on any parent map, cyclic and dangling ones included, and its outcome is that of a walk along parents from the head |
| `Queries.WalkToBoundary` | src/catalog/mod.rs:544-596 | the listing walk terminates on any parent map, and collects exactly the transactions of a walk along parents that reaches the boundary |
| `Queries.OrderByOrdinal` | src/catalog/mod.rs:876-907 | the column rows each once, by ordinal |
| `Queries.ReadTable` | src/catalog/mod.rs:779-998 | the queries of a read in order, with every error |
| `Queries.ListEvents` | src/catalog/mod.rs:598-776 | per transaction additions, then removals, then the schema change, with the running limits in the order the code checks them |
| `Queries.ListTransactionEvents` | src/catalog/mod.rs:507-777 | the queries of a listing in order, with every error |
| `Queries.DiffTable` | src/catalog/mod.rs:1000-1036 | a listing and two reads, projected to a delta |
| `Framing.CommitFramesOtherTables` | src/catalog/mod.rs:1192-1208 | a commit on one table, even one whose deletes name another table's files, changes no read, listing or diff of another table |
| `Protocol.OpAgrees` | src/catalog/mod.rs:1113-1380 | an operation applied to a buffer does not notice another table's publication |
| `Protocol.PartAgrees` | src/catalog/mod.rs:1117-1210 | the chunks of an append or delete under way have written what they would write after another table's publication |
| `Protocol.WriterAgrees` | src/catalog/mod.rs:1059-1397 | a commit in progress, its check of the base included, goes on as if another table's publication had been there all along |
| `Protocol.ProtocolRefinesAtomicCommits` | src/catalog/mod.rs:1059-1403 | every step of any number of writers, on catalog instances of their own, keeps the invariant and is either invisible or one whole atomic commit or creation |
| `Protocol.RunKeepsInvariant` | src/catalog/mod.rs:2178-2573 | every state of every run satisfies the invariant, and each table's history is its genesis followed by exactly the published commits |
| `Protocol.PublishedStaysLinked` | src/catalog/mod.rs:1099-1111 | no successful commit is lost: its transaction stays in the history directly after its base |
| `Protocol.OneWinnerPerBase` | src/catalog/mod.rs:1092-1097 | of all commits on one base of a table at most one succeeds |
| `Protocol.StaleBaseIsRefused` | src/catalog/mod.rs:2199-2238 | once a base has its winner every other commit on it fails the base check |
| `Protocol.PinnedBaseHolds` | src/catalog/models.rs:647-657 | a base pinned as the head is still the head later exactly when nothing was published to the table in between |
| `Protocol.RunGrows` | src/catalog/mod.rs:1099-1397 | along any run a table's history is only extended |
| `Protocol.RunIdsGrow` | src/catalog/helpers.rs:141-148 | if every commit's fresh id exceeds its base, ids grow along every history of the run |
| `Protocol.RunReadsAreAtomic` | src/catalog/mod.rs:779-998 | in every run with any number of writers whose ids are drawn above their bases, every read is an atomic read at the moment of its first query, properties included |
| `Runs.RunListingsAreAtomic` | src/catalog/mod.rs:507-777 | in every run every listing is an atomic listing at the moment of its existence check |
| `Runs.RunDiffsAreExact` | src/catalog/mod.rs:1000-1036 | in every run every Ok diff is the exact difference of the two snapshots' files, and, where ids are drawn above their bases, of their schemas |
| `Runs.RunReadsTell` | src/catalog/mod.rs:779-998 | `Answers.ReadTells` for every read of every run whose ids are drawn above their bases |
| `Runs.RunListingsTell` | src/catalog/mod.rs:507-777 | `Answers.ListingTells` for every listing of every run |
| `Runs.RunDiffsTell` | src/catalog/mod.rs:1000-1036 | `Answers.DiffTells` for every diff of every run, and its schema where ids are drawn above their bases |
| `Runs.RunFilesValid` | src/catalog/models.rs:431-464 | in every state of every run, every stored file has a path, no negative count and accepted documents only |
| `Runs.RunDiffsAreAtomic` | src/catalog/mod.rs:1000-1036 | in every run whose ids are drawn above their bases every diff, errors included, is an atomic diff at the moment of its existence check, or finds no table |
| `Runs.RunDiffsCompareMoments` | src/catalog/mod.rs:1023-1027 | in every run, an Ok diff reports properties if and only if those of the table row differ between the two moments of the run at which its two reads began, namely the later ones |
| `Runs.RunErrors` | src/catalog/mod.rs:507-998 | in every run, reads and listings of an existing table meet only the errors above, and no missing schema where ids are drawn above their bases |
| `Runs.RunQueriesEnd` | src/catalog/mod.rs:507-1036 | in every run, the queries of reads, listings and diffs come to an outcome |
| `Runs.FirstCommit` | src/catalog/mod.rs:281-414 | a concrete run of a creation and a commit: the hypotheses of the commit and reader theorems are met, the order of ids included when the commit's id is the larger |
| `Runs.MissedPublication` | src/catalog/mod.rs:512-542 | a concrete run of the protocol and a reader of it in which the state of the first query cannot stand for the listing |
| `Runs.ReadAfterOutOfOrderCommit` | src/catalog/mod.rs:854-872 | a creation and a commit whose id is below the creation's: both succeed and the read of the head fails for want of a schema |
| `Runs.DiffHidesPropertyChange` | src/catalog/mod.rs:1023-1027 | in a concrete run, the diff across a commit that only sets a property is Ok, empty and without properties |
| `Reach.AtomicCommitsAreRealized` | src/catalog/mod.rs:1059-1403 | the converse of refinement: every atomic commit, whatever its operations, is carried out by the statements of a writer in some run |
| `Reach.HistoryOccurs` | src/catalog/mod.rs:1099-1111 | for every list of distinct ids some run produces a table with that history, with a file and a schema version that came at any chosen later position |
| `Reach.FiltersRightIffIdsGrow` | src/catalog/helpers.rs:141-148 | over all tables that runs produce with a given history, the file filter is right everywhere if and only if ids grow along it, and so is the schema filter |

## Left out

- Protocol.ProtocolRefinesAtomicCommits: appends and deletes step chunk by chunk, but the few statements of a schema update, of taking the lock, and of a table creation are one step each; waiting for another transaction's uncommitted key is modelled as not taking the step.
- Properties of past transactions: they live on the table row, so a snapshot has the properties of the moment it is read, not of its transaction.
- `drop_table`: the schema has foreign keys without cascade, so its effect rests on the database engine; tables therefore live forever in the model.
- `list_tables`, `load_table`, `current_transaction_id` and handle wrappers: single lookups.
- `table_stats` and `file_column_stats`: never written by the catalog.
- Table location, creation times and transaction timestamps: stored and never read by the logic.
- SQL text, sqlx rows, pools, migrations and the async runtime: each statement is one map operation with the declared key constraints. A query returns its rows once each, in any order unless it is ordered.
- Foreign keys from transactions to their parents and from schema and file rows to transactions: not separate checks; the invariant implies them.
- Arrow IPC encoding of column types (`src/catalog/data_type.rs:10-41`): types are stored directly.
- JSON documents: their size, shape and format-option checks are one opaque verdict per document, and whether properties fit the size limit is a parameter.
- Integer widths: lengths are compared without the cast to 32 bits, schema versions do not overflow, record and byte counts are unbounded; day and value ranges in `DataTypes` do use their widths.
- Value ranges of floats and timestamps: both are in the evolution order but not in the value-preservation theorems, since floats need an IEEE model and refining a timestamp unit does not keep the 64-bit range.
- Storage readers and writers, and the designs under `docs/architecture` that the catalog code does not implement.
