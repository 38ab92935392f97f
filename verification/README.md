# Verified model of the Proto Iceberg read path

This project models, in Dafny 4.11, the read side of a DuckDB extension over Apache Iceberg catalogs, and proves what a
query can rely on. `dafny verify dfyconfig.toml` checks all of it.

* **Snapshots** (`Snapshots.dfy`): a table's metadata under appends, staged snapshots, rollbacks, schema changes, expiry
  and re-creation, and the version a transaction resolves.
* **Caches** (`SignedStores.dfy`, `TableCache.dfy`, `SchemaCache.dfy`): the tri-state store, a schema's table registry and
  a transaction's schemas. Each is a set of functions on values, and classes whose methods are proved against them. The
  classes compose: `Catalog.LookupTable` looks up a schema and then a table in it.
* **Threads** (`Interleaving.dfy`, `TransactionTheorems.dfy`, `SchemaScans.dfy`, `MovedTables.dfy`): any number of threads
  run lookups and scans, one step at a time, under three kinds of lock, while other writers commit to, create, move and
  drop tables at any moment. A log records what the threads did and were told, and a trail which schemas their scans went
  past. The theorems are about every reachable state. `Outcomes.dfy` says what an operation comes to when it runs alone.
* **Filters** (`Values.dfy`, `Filters.dfy`, `Planning.dfy`, `FileLists.dfy`): DuckDB's three-valued filters, their
  translation to Iceberg expressions, file pruning, and runs of pushdowns.
* **Queries** (`Queries.dfy`): all of the above together, down to the rows a query reads.
* **S3** (`S3Conversion.dfy`, `ScopedSecrets.dfy`): option conversion with exact round-trip conditions, and the names and
  lifetime of temporary secrets.
* **Columns** (`Columns.dfy`): type mapping and column definitions at every depth.

`Ordered.dfy`, `Text.dfy` and `Wrappers.dfy` hold shared vocabulary.

## What the model assumes

* Remote answers are parameters, or chosen by the interleaving: a table load returns the table as it is at that moment,
  or any failure.
* A step of a thread runs from one lock or catalog call to the next. Threads interleave between steps. The only data a
  critical section shares without its lock is a schema's missing flag, which only ever rises.
* A callback of a schema scan runs any finite sequence of table lookups and scans on the schema it is given. Callbacks
  of a table scan do not call back.
* Commits by other writers after the transaction's start are stamped after its start millisecond, and a table's
  timestamps never decrease. The snapshot log is truncated on expiry as the Iceberg table specification says of
  `snapshot-log`: the entries after the last one naming an expired snapshot are kept.
* A filter's constant has its column's type, as DuckDB binds it. A comparison across types is unknown. An optional filter
  means its child, since pruning by it relies on the query implying it.
* Filters other than comparisons, NULL tests, `IN`, conjunctions and optional filters have an arbitrary meaning.
* NaN data: row semantics rank NaN greatest, as DuckDB does, in both systems, and the sign of NaN is not modelled. For a
  planner that uses bounds which ignore NaN, `MetricsDropExactlyNaN` says exactly which files with a matching row it
  drops, and `MetricsScanEqualsFullScanExactly` exactly when a scan loses nothing.
* An unset planning filter plans as the constant true.
* A table's uuid identifies it, as the Iceberg table specification says of `table-uuid`: no two tables of the catalog share
  one, and a table created since the start gets a new one. Moving a table keeps it, and changes no metadata.
* A schema has at most 2^63 columns, which is where DuckDB's ids for virtual columns begin.
* The names of one level of a schema are distinct, as Iceberg requires.
* Entries are referred to by their position among all entries a schema's registry owns, which stands for their address.
* Names of S3 options are resolved up to letter case. DuckDB's cast from string to boolean is a parameter.

## Findings

* **A table left without snapshots after the start is read as it is now.** The code's comment admits this for a table
  that had none at the start; the same branch also catches one dropped and created again, or one whose every snapshot was
  removed. Exactly when: `IsolationFailsExactly`. Examples: `RecreatedTableEscapes`, `EmptiedTableEscapes`.
* **Isolation follows the table, not its name.** If the table of a name is dropped and another one moved to the name, the
  name is read as that other table was at the start. Exactly when: `IsolatedByNameExactly`. Never without such a move:
  `IsolatedUnlessMovedTo`. Example: `SwappedTableEscapes`.
* **Isolation has the grain of a millisecond.** Commits after the start, in the start's own millisecond, are read.
  Exactly when: `MicrosecondIsolationFailsExactly`. Example: `SameMillisecondIsRead`.
* **Expiring a later snapshot makes the start unreachable**, even when the start's own snapshot is live, because the log
  is cut. Exactly when: `ResolvesExactly`. Example: `ExpiringLaterSnapshotThrows`.
* **The endpoint conversion is not idempotent** when an endpoint carries two schemes. Exactly when:
  `ConversionStableExactly`. Example: `TwoSchemesNotStable`.
* **NaN data can be lost** with planners whose bounds ignore NaN: the guard covers constants only. Exactly when:
  `MetricsScanEqualsFullScanExactly`. Example: `NaNRowCanBeLost`.

## Model

| member | source | states |
|---|---|---|
| Snapshots.StartTimestampMs | src/proto_iceberg_transaction.cpp:14-16 | the start lies in its millisecond; before the epoch, rounding is toward zero |
| Snapshots.AsOfLiveSuffix | src/proto_iceberg_schema_entry.cpp:49-56 | truncating the log on expiry either keeps or forgets the snapshot current at a time, never uncovers an earlier one |
| Snapshots.SinceStartKept | src/proto_iceberg_schema_entry.cpp:43-72 | every commit after the start keeps what the table still knows of the snapshot current at the start, with its schema |
| Snapshots.ResolveIsolated | src/proto_iceberg_schema_entry.cpp:43-72 | a successful resolution is isolated; the only failure is the unreachable state |
| Snapshots.SnapshotIsolation | src/proto_iceberg_schema_entry.cpp:43-72 | over every history after the start, a table resolves to exactly its start snapshot, with its schema and files, or throws, unless it has no snapshots |
| Snapshots.ResolvesExactly | src/proto_iceberg_schema_entry.cpp:43-72 | the outcome for every table and history: current, pinned or thrown, decided by whether the table has snapshots and whether a commit recreated it or expired a snapshot current since the start |
| Snapshots.IsolationFailsExactly | src/proto_iceberg_schema_entry.cpp:68-71 | a snapshot other than the start's, by id or content, is delivered if and only if the table had one and is left without any |
| Snapshots.RecreatedTableEscapes | src/proto_iceberg_schema_entry.cpp:68-71 | a concrete table, dropped and created again after the start, that is read as the new one |
| Snapshots.EmptiedTableEscapes | src/proto_iceberg_schema_entry.cpp:68-71 | a concrete table whose every snapshot is removed after the start, read as it is now |
| Snapshots.SameMillisecondIsRead | src/proto_iceberg_transaction.cpp:14-16 | a concrete commit at 20900 microseconds that a transaction started at 20100 reads |
| Snapshots.ExpiringLaterSnapshotThrows | src/proto_iceberg_schema_entry.cpp:51-56 | a concrete history that expires a later snapshot: the start's snapshot is live, the read throws |
| Snapshots.IsolationIsPerMillisecond | src/proto_iceberg_schema_entry.cpp:49-56 | over every history of commits timed to the microsecond, the read is isolated at the end of the start's own millisecond, or throws |
| Snapshots.MicrosecondIsolationFailsExactly | src/proto_iceberg_schema_entry.cpp:49-56 | another snapshot than the start's, or another content under its id, is delivered if and only if the commits of the start's millisecond change it and the later ones leave it reachable, or no snapshots are left |
| SignedStores.SignedStore.Lookup | src/include/signed_store.hpp:24-33 | unknown, negative or positive as stored |
| SignedStores.SignedStore.Put | src/include/signed_store.hpp:35-39 | the key becomes positive, all else unchanged |
| SignedStores.SignedStore.PutMiss | src/include/signed_store.hpp:41-44 | the key becomes negative, all else unchanged |
| SignedStores.SignedStore.ForEachPositive | src/include/signed_store.hpp:46-53 | visits exactly the positive entries with their values, in key order |
| SchemaEntries.TableRegistry.Store | src/proto_iceberg_schema_entry.cpp:76-80 | the entry is owned last and indexed under its name |
| SchemaEntries.TableRegistry.MarkMissing | src/include/proto_iceberg_schema_entry.hpp:80-82 | the name becomes negative, owned entries stay |
| SchemaEntries.SchemaEntry.LoadTableEntry | src/proto_iceberg_schema_entry.cpp:82-109 | new registry, missing flag and answer for every reply, errors included; a table is answered exactly if its state is reachable and its columns are supported, with the resolved state, and each exception has its cause |
| SchemaEntries.SchemaEntry.LookupEntry | src/proto_iceberg_schema_entry.cpp:218-250 | calls the catalog exactly for a name not in the index or indexed as a placeholder, otherwise answers from the index unchanged; a loaded table is answered exactly if readable; keeps the registry sound and never answers with a placeholder |
| SchemaEntries.SchemaEntry.Scan | src/proto_iceberg_schema_entry.cpp:173-208 | lists at most once, then visits the positive entries in name order; each failure leaves the registry as it was |
| SchemaEntries.SchemaEntry.StoreListing | src/proto_iceberg_schema_entry.cpp:195-204 | placeholders exactly for the listed names not yet known |
| TableCache.AfterLoadOk | src/proto_iceberg_schema_entry.cpp:82-109 | a load keeps the registry sound and only adds knowledge; it settles the name, or throws and changes nothing |
| TableCache.LoadsExactly | src/proto_iceberg_schema_entry.cpp:28-109 | a table of the catalog is stored and answered if and only if its state is reachable and no column has an unsupported leaf; the entry holds exactly the resolved state |
| TableCache.AfterListingOk | src/proto_iceberg_schema_entry.cpp:195-204 | a listing keeps the registry sound, never resurrects an absent name nor downgrades a loaded one |
| TableCache.ConclusiveIsFinal | src/proto_iceberg_schema_entry.cpp:230-249 | a settled name keeps its answer, and the very same loaded entry |
| TableCache.PositivesAreListedOrLoaded | src/proto_iceberg_schema_entry.cpp:207 | after a listing, positive names are the listed ones not known absent and the loaded ones |
| TableCache.AtMostTwoEntries | src/include/proto_iceberg_schema_entry.hpp:59-88 | no name has three entries |
| Catalogs.Transaction.constructor | src/proto_iceberg_transaction.cpp:12-17 | starts with no schemas, unlisted, at the truncated start time |
| Catalogs.Transaction.Store | src/proto_iceberg_transaction.cpp:35-40 | stores a schema under the name, replacing any of that name and keeping every other; keeps names and ownership in order if the schema fits them |
| Catalogs.Transaction.CompleteListing | src/proto_iceberg_transaction.cpp:46-54 | marks missing exactly the schemas not listed, on top of those already missing, and touches nothing else of a schema |
| Catalogs.Transaction.ForEach | src/include/proto_iceberg_transaction.hpp:42-50 | visits exactly the schemas not missing, in name order |
| Catalogs.Catalog.LookupSchema | src/proto_iceberg_catalog.cpp:78-104 | "main" stands for the default schema and every other name for itself; a known schema is found unless missing, an unknown one is created until the root is listed; never replaces a schema; what it returns is sound |
| Catalogs.Catalog.StoreNamespaces | src/proto_iceberg_catalog.cpp:58-71 | new schemas exactly for the single-level children not yet known |
| Catalogs.Catalog.ScanSchemas | src/proto_iceberg_catalog.cpp:50-76 | lists at most once and visits the visible schemas in name order, each of them sound; keeps every schema's tables |
| SchemaCache.RedirectsMainExactly | src/proto_iceberg_catalog.cpp:83-86 | exactly "main" is redirected, to the default schema |
| SchemaCache.RootListingExactly | src/proto_iceberg_catalog.cpp:54-73 | exactly the single-level children become known, and exactly the schemas not among them are marked missing |
| SchemaCache.RootListingAdvances | src/proto_iceberg_catalog.cpp:54-73 | a root listing closes the world and never makes a missing schema visible |
| SchemaCache.LookupsAgreeWithListing | src/proto_iceberg_catalog.cpp:88-104 | once listed, lookups find exactly the listed schemas not missing, which are the ones a scan visits |
| SchemaCache.GoneIsFinal | src/proto_iceberg_catalog.cpp:91-104 | a schema not found is never found in any later state |
| Interleaving.StepEffectOk | src/proto_iceberg_schema_entry.cpp:173-250 | every step of every operation keeps the shared state sound, extends what is known and changes only what its locks protect |
| Interleaving.PcOkStays | src/include/mutex.hpp:9-20 | what a thread relies on under its locks survives every other thread's step |
| Interleaving.ExclusionStays | src/include/mutex.hpp:43-50 | taking a free lock keeps all held locks disjoint |
| Interleaving.RunKeepsInv | src/proto_iceberg_schema_entry.cpp:173-250 | the whole invariant holds after every interleaving of threads and remote changes |
| TransactionTheorems.LocksAreTakenInOrder | src/proto_iceberg_catalog.cpp:50-56 | schemas before tables before the catalog; no lock is waited for by its holder |
| TransactionTheorems.SomeoneRuns | src/include/mutex.hpp:62-67 | among any blocked threads some thread can run |
| TransactionTheorems.StepsFinish | src/proto_iceberg_schema_entry.cpp:173-250 | every step brings an operation strictly closer to its end |
| TransactionTheorems.DeadlockFree | src/proto_iceberg_catalog.cpp:50-104 | no reachable state with a busy thread is stuck |
| TransactionTheorems.CatalogCallsNeverOverlap | src/include/proto_iceberg_catalog.hpp:29-32 | no two threads are in a catalog call, among the schemas (callbacks of a scan included), or among one schema's tables at once |
| TransactionTheorems.RedirectSettles | src/proto_iceberg_catalog.cpp:83-89 | the redirect happens before any lock is held; the lookup that waits for the lock has the redirected name, which redirects no further |
| TransactionTheorems.OneConclusiveLoad | src/proto_iceberg_schema_entry.cpp:82-109 | at most one load settles a name in any interleaving, and none runs for a settled name |
| TransactionTheorems.OneListing | src/proto_iceberg_schema_entry.cpp:185-205 | each schema's tables, and the root, are listed successfully at most once |
| TransactionTheorems.RepeatableRead | src/proto_iceberg_schema_entry.cpp:224-249 | every lookup answering for a name gives the same owned, loaded entry, and none says it is absent |
| TransactionTheorems.ConsistentCut | src/proto_iceberg_schema_entry.cpp:43-72 | all tables answered, across schemas, are read as of the one start time, each as it was then under whatever name |
| MovedTables.IsolatedByNameExactly | src/proto_iceberg_schema_entry.cpp:82-109 | an answered entry is isolated by its name if and only if it has no snapshots or is the table that had the name at the start |
| MovedTables.IsolatedUnlessMovedTo | src/proto_iceberg_schema_entry.cpp:82-109 | in every run without a move to a name, every entry answered for it is isolated by name |
| MovedTables.SwappedTableEscapes | src/proto_iceberg_schema_entry.cpp:43-72 | a concrete swap of two tables after which a name is read as a snapshot it never had |
| TransactionTheorems.EntriesRetained | src/include/proto_iceberg_schema_entry.hpp:59-60 | an entry owned at any point of a run is owned unchanged ever after |
| TransactionTheorems.RegistriesOwnTheirEntries | src/proto_iceberg_schema_entry.cpp:76-80 | in every reachable registry each positive key points at the last entry of its name, and a name has at most two |
| TransactionTheorems.ScanVisitsExactly | src/proto_iceberg_schema_entry.cpp:173-208 | a scan visits in name order exactly the listed names not known absent, and the loaded ones |
| TransactionTheorems.SchemasClosedByListing | src/proto_iceberg_catalog.cpp:88-104 | after the root listing a lookup finds exactly the listed schemas not missing |
| SchemaScans.SchemaScanVisitsExactly | src/include/proto_iceberg_transaction.hpp:42-50 | in every run, a scan that ended visited listed schemas only, strictly ascending, and passed over every other listed schema, which is missing ever after |
| SchemaScans.VisitedUnlessMissing | src/include/proto_iceberg_transaction.hpp:42-50 | in every run, a scan calls back for a schema if and only if the schema is not missing at the moment the scan goes past it |
| SchemaScans.RunKeepsTrail | src/proto_iceberg_catalog.cpp:50-76 | while other threads find schemas missing, every scan under way stays in order and leaves no known schema out |
| TransactionTheorems.MissingSchemasStayMissing | src/proto_iceberg_catalog.cpp:91-104 | a schema once not found is never found later |
| Outcomes.SchemaIsLookedUp | src/proto_iceberg_catalog.cpp:78-104 | a schema lookup is logged as found or not found under the default schema's name for "main", under its own otherwise |
| Outcomes.KnownTableIsAnswered | src/proto_iceberg_schema_entry.cpp:230-249 | a lookup of a settled name answers with its entry, or absent, and changes nothing |
| Outcomes.LookupAsksTheCatalog | src/proto_iceberg_schema_entry.cpp:82-109 | a lookup of any other name answers with the table the catalog has, if readable, in its resolved state; throws if not; and says absent if there is none |
| Outcomes.LoadReplyExactly | src/proto_iceberg_schema_entry.cpp:82-109 | in any thread, what each answer of the catalog to a load comes to |
| Outcomes.KnownTablesAreScanned | src/proto_iceberg_schema_entry.cpp:173-208 | a scan visits nothing of a missing schema, and the positive names of a listed one, without a call |
| Outcomes.ListReplyExactly | src/proto_iceberg_schema_entry.cpp:185-207 | in any thread, what each answer of the catalog to a listing comes to |
| Outcomes.SchemasAreScanned | src/include/proto_iceberg_transaction.hpp:42-50 | a schema scan goes past every known schema in order, visits those not missing, and ends |
| Outcomes.RootIsListed | src/proto_iceberg_catalog.cpp:54-75 | a schema scan before the root listing lists it and goes on over what that makes known |
| Floats.GuardSufficient | src/conversion.cpp:165-175 | a constant neither NaN nor zero compares with every value alike under DuckDB's and Iceberg's orders |
| Floats.GuardSufficientForIn | src/conversion.cpp:165-213 | a value is in a list of guarded constants under one order if and only if under the other |
| Floats.ZeroConstantDisagreesExactly | src/conversion.cpp:165-175 | a zero constant disagrees exactly at the other zero, for four of the six comparisons |
| Floats.ZeroConstantLosesExactly | src/conversion.cpp:165-175 | the comparisons by zero that would lose rows without the guard |
| Wide.CombineIsSum | src/conversion.cpp:150-152 | shifting the upper and or-ing the lower word gives upper * 2^64 + lower, for negative values too |
| Literals.DecimalLiteralIsExact | src/conversion.cpp:149-156 | a decimal's literal holds its unscaled value, precision and scale |
| Literals.ConversionEmbedsOrder | src/conversion.cpp:119-175 | every comparison of a column value, as Iceberg stores it, with a pushed-down constant's literal comes out as DuckDB's |
| Literals.ConversionIsStoredForm | src/conversion.cpp:119-161 | a value's literal is the value as Iceberg stores it: same number, text, days, microseconds or unscaled decimal |
| Literals.ConstantsConvertExactly | src/conversion.cpp:165-175 | a constant converts if and only if its type has literals and it is neither NaN nor a zero |
| Literals.LiteralsHaveTheColumnType | src/conversion.cpp:65-161 | literal conversion inverts the type mapping: a column's values become literals of the column's own type |
| Filters.TranslateInFilter | src/conversion.cpp:201-213 | all literals in order, or true if one value cannot be converted |
| Filters.TranslateOrWidenFilters | src/conversion.cpp:237-251 | the conjunction of the columns' translations in column order, skipping columns outside the schema |
| Filters.TranslateInExactly | src/conversion.cpp:201-213 | for a value of the constants' type, a translated IN accepts exactly what the filter keeps |
| Filters.TranslateSound | src/conversion.cpp:253-278 | every value a filter keeps is accepted by its translation, by structural induction over three-valued logic |
| Filters.TranslateSetSound | src/conversion.cpp:237-251 | every row a filter set keeps is accepted by its translation |
| Filters.TranslateExactly | src/conversion.cpp:177-278 | a translation accepts exactly the values its filter asks for once untranslatable parts ask nothing: no operator weaker or stronger, no part missing |
| Filters.TranslateSetExactly | src/conversion.cpp:237-251 | the same of a filter set, column by column |
| Filters.TranslatedSetKeepsExactly | src/conversion.cpp:237-278 | where nothing widens, a set's translation accepts exactly the rows the set keeps |
| Filters.TranslationShape | src/conversion.cpp:177-278 | a translation is true, false, or free of both and of negation, decided by the filter's shape |
| Filters.CannotPruneExactly | src/proto_iceberg_multi_file_list.cpp:56-59 | a set cannot prune exactly when each of its filters on a schema column widens |
| Planning.PlanFiles | src/proto_iceberg_multi_file_list.cpp:72-111 | plans exactly the kept files of the pinned snapshot, or else of the current one, and their record count; or fails on the first unreadable one |
| Planning.RecordsAdd | src/proto_iceberg_multi_file_list.cpp:103-104 | the planned record count is the sum of the files' record counts |
| Planning.ResolvedCanBeScanned | src/proto_iceberg_multi_file_list.cpp:76-80 | the snapshot of a resolved scan exists in its table |
| Planning.PrunedScanEqualsFullScan | src/conversion.cpp:237-278 | for every sound planner, filtering the kept files' rows equals filtering all files' rows, in order |
| Planning.PruningKeepsRowsExactly | src/proto_iceberg_multi_file_list.cpp:82-89 | for any planner, pruning changes the rows read if and only if a dropped file holds a wanted row |
| Metrics.MeasuringPlannerSound | src/proto_iceberg_multi_file_list.cpp:82-89 | a concrete planner over measured bounds and null counts meets the planner contract |
| Metrics.MetricsLoseExactlyNaN | src/conversion.cpp:165-175 | bounds that ignore NaN rule out a matching row exactly when NaN passes > or >= and the upper bound does not |
| Metrics.MetricsDropExactlyNaN | src/conversion.cpp:165-175 | over whole expressions, such bounds drop a file with an accepted row if and only if NaN misleads them there |
| Metrics.MetricsScanEqualsFullScanExactly | src/conversion.cpp:165-175 | a scan pruned by such bounds equals the full scan if and only if NaN misleads no row the filters keep |
| Metrics.NaNRowCanBeLost | src/conversion.cpp:165-175 | a concrete file whose NaN row is lost |
| FileLists.CreateFilteredList | src/proto_iceberg_multi_file_list.cpp:148-159 | the old and new filters, and-ed column by column |
| FileLists.CanPrunePlanning | src/proto_iceberg_multi_file_list.cpp:56-59 | true exactly if some filter on a column of the schema does not widen |
| FileLists.ComplexFilterPushdown | src/proto_iceberg_multi_file_list.cpp:161-177 | a list if and only if some filter on a schema column does not widen; it keeps exactly what the old list and the pushdown keep |
| FileLists.DynamicFilterPushdown | src/proto_iceberg_multi_file_list.cpp:179-215 | a list if and only if some filter on a schema column does not widen and is not in the list yet; it keeps exactly what the old list and the pushdown keep; no virtual column gets into it |
| FileLists.FiltersAreConjunctionOfApplied | src/proto_iceberg_multi_file_list.cpp:148-215 | after any run a list's filters on the schema's columns keep exactly the rows its first filters and every applied pushdown keep |
| FileLists.RunLosesNoRow | src/proto_iceberg_multi_file_list.cpp:148-215 | no run drops a file holding a row that all pushed filters keep |
| FileLists.RunPlansEveryPushdown | src/proto_iceberg_multi_file_list.cpp:161-215 | the files planned after any run are those kept for every filter ever pushed on a column of the schema, skipped ones included |
| FileLists.RunPlansSubset | src/proto_iceberg_multi_file_list.cpp:148-159 | each list's files are among its parent's |
| FileLists.SkippedPushdownIsLossless | src/proto_iceberg_multi_file_list.cpp:169-172 | the set a skipped pushdown would have built translates to the very same expression |
| Queries.QueryReadsTheStart | src/proto_iceberg_multi_file_list.cpp:72-111 | under every interleaving, remote change and run of pushdowns, a query on a table with snapshots plans over the files of that table's start snapshot - the name's, unless a table was moved to it - and reads all its rows that the pushed filters keep, in order |
| S3Conversion.ToDuckDBEndpoint | src/s3_conversion.cpp:59-71 | one scheme and all trailing slashes removed (`EndpointExactly`) |
| S3Conversion.EndpointExactly | src/s3_conversion.cpp:59-71 | scheme, result and slashes make up the endpoint, and the result ends in no slash |
| S3Conversion.PropertiesExactly | src/s3_conversion.cpp:75-108 | what each property is, option by option |
| S3Conversion.SecretExactly | src/s3_conversion.cpp:110-137 | what each option is, property by property |
| S3Conversion.ConvertS3SecretToIcebergProperties | src/s3_conversion.cpp:75-108 | each property by its option, none empty; or the exception, exactly for a use_ssl text the cast rejects |
| S3Conversion.ConvertIcebergPropertiesToS3Secret | src/s3_conversion.cpp:110-137 | each option by its property, the endpoint's scheme going before the SSL property |
| S3Conversion.RoundTripExactly | src/s3_conversion.cpp:75-137 | a secret survives the round trip if and only if it is canonical |
| S3Conversion.ToSecretCanonicalExactly | src/s3_conversion.cpp:110-137 | converted properties are canonical if and only if the once-stripped endpoint has no scheme |
| S3Conversion.ConversionStableExactly | src/s3_conversion.cpp:75-137 | converting back and forth again is stable under exactly that condition |
| S3Conversion.TwoSchemesNotStable | src/s3_conversion.cpp:59-71 | a concrete endpoint with two schemes whose conversion is not stable |
| S3Conversion.EndpointMeaningPreserved | src/s3_conversion.cpp:48-71 | DuckDB's URL equals iceberg-cpp's up to trailing slashes, given a host and a settled scheme |
| ScopedSecrets.ScopeCoversExactlyBelow | src/proto_iceberg_table_entry.cpp:54-59 | a scope covers exactly the files below its path |
| ScopedSecrets.SecretCoversExactly | src/proto_iceberg_table_entry.cpp:47-75 | a table's secret covers exactly the files below its location and write.data.path, with the vended properties converted; there is none without a FileIO or location |
| ScopedSecrets.SecretNameSpelled | src/proto_iceberg_table_entry.cpp:89-92 | a concrete name as it is spelled |
| Text.DecimalParses | src/proto_iceberg_table_entry.cpp:89-92 | the digits in a name stand for the number they render |
| ScopedSecrets.SecretNameInjective | src/proto_iceberg_table_entry.cpp:89-92 | names determine catalog, transaction and index |
| ScopedSecrets.ConnectionSecrets.Create | src/proto_iceberg_table_entry.cpp:86-98 | the name and secret stored, or the error with nothing changed; the step that the run theorems are about |
| ScopedSecrets.ConnectionSecrets.DropAll | src/proto_iceberg_table_entry.cpp:108-131 | forgets all names, and removes exactly their secrets if the drop commits; the step that the run theorems are about |
| ScopedSecrets.ScannedEntry.GetScanFunction | src/proto_iceberg_table_entry.cpp:195-213 | one secret per entry, created by its first successful scan; a placeholder is refused |
| ScopedSecrets.CreateNeverReplaces | src/proto_iceberg_table_entry.cpp:86-98 | over any run of connections and transactions, no secret of the extension is ever overwritten |
| ScopedSecrets.DropLeavesExactlyTheOthers | src/proto_iceberg_table_entry.cpp:100-131 | a committed drop leaves none of its transaction's secrets and all of the other running ones' |
| Columns.BuildColumnDefinition | src/conversion.cpp:50-58 | the definition, or none where the code throws |
| Columns.AddChildColumns | src/conversion.cpp:23-46 | one child per component, in order |
| Columns.MapTypeFailsExactly | src/conversion.cpp:65-117 | mapping fails if and only if some nested leaf is unsupported |
| Columns.BuildFailsExactly | src/conversion.cpp:50-58 | building fails if and only if some nested leaf is unsupported |
| Columns.IdentifiersAreFieldIds | src/conversion.cpp:50-58 | preorder identifiers are the preorder field ids |
| Columns.DefinitionMirrorsType | src/conversion.cpp:23-58 | at every depth the type is the mapped type and the children are its components, in order |
| Columns.DefinitionExactly | src/conversion.cpp:23-58 | a definition's name, identifier and default, and its members, element, or key and value in this order |
| Columns.RenamingKeepsIdentifiers | src/conversion.cpp:50-58 | renaming fields at any depth changes neither success nor any identifier |

## Left out

- REST calls, Arrow and S3 initialisation, parquet reading and binding: foreign code; their answers are inputs here.
- DuckDB's filter combiner and iceberg-cpp's manifest reading: taken by contract, as any filter set and any sound planner.
- Attach options, extension registration, logging and operations a read-only catalog refuses: constant or straight-line.
- The transaction manager's map of transactions: an insert and an erase by identity.
- File-info options, the lazily cached plan, cardinality and the column list of a whole schema: thin wrappers.
- Column comments and the placeholder's single column: carried through without a decision.
- Memory ordering of the missing flag: treated as one atomic flag that only rises.
- NaN sign and payload: one NaN.
- Optional filter children that a query does not imply: outside what DuckDB builds.
- Reading files written under an older schema: a snapshot's rows are given as its schema reads them.
- Catalogs.Transaction.ForEach: returns what it visits instead of calling back, so no flag is raised in between; `SchemaScans` covers scans during which flags are raised.
- Catalogs.Catalog.ScanSchemas: visits as ForEach does, with no callback in between.
- SchemaEntries.SchemaEntry.Scan: returns what it visits instead of calling back.
- ScopedSecrets.ConnectionSecrets.Create: user secrets of the same name are not modelled, only the extension's.
