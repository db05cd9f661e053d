# BigQuery emulator: a verified model

A Dafny model of the parts of the emulator that do the hardest work, with proofs of what they promise.
`dafny verify dfyconfig.toml` checks everything.

- **Wildcard tables** (`Wildcard`, `WildcardRows`, `SuffixFilter`, `SuffixExact`, `WildcardTables`): a table id ending in `*`
  is the union of the tables it matches. Their schemas are unified, every row is placed by column name, and a
  filter on `_TABLE_SUFFIX` is turned into an allow-list so that other tables are not read. Proved: unification
  succeeds exactly when every column name has one skeleton, whatever the order; the union can be read back to the
  exact rows of the exact tables; which filters give an allow-list, and what is on it; and pruning keeps the query's
  answer exactly when a stated condition holds.
- **Schemas and types** (`Schema`, `TypeTranslation`, `DuckDbType`, `DuckDbShape`): columns, the wire schema, the analyzer's types
  and DuckDB's type text. Proved: the round trips between them, each with the exact inputs on which it is lossless,
  what the wire can hold, and that two columns of any nesting have one DuckDB text exactly when they have one shape.
- **Registries** (`Registry`, `RegistryRuns`): functions, table functions and views registered per project, replaced,
  dropped, and replayed into catalogs that also hold built-ins under alias keys. Proved over every run: nothing
  registered is ever freed, no catalog dangles, replay ends in agreement or exactly where a key is taken, and lookups
  agree with a simple reference map. The registry object, driven by any list of actions, goes through these runs.
- **Table lookup** (`CatalogLookup`): path spellings, the cache key, and the cache under interleaved lookups.
- **Row restrictions** (`RowRestriction`, `RestrictionLiterals`): the parser for `column = literal`, against a
  declarative meaning, and that against the texts that spell a column and a value of its type.
- **Conformance corpus** (`CorpusParser`, `CorpusPrinter`, `CorpusSpelling`): the recursive-descent parser for expected
  results, against a grammar, and then against syntax trees with their own space at every token: the parser accepts
  exactly the prints of well-formed trees, each with its meaning.
- **Result comparison** (`DiffEngine`, `DiffConverse`, `DiffReadings`, `UnixSeconds`): ordered and unordered row
  comparison, multiset differences, canonical rows, when each comparison implies the other, what each kind of cell
  equals, timestamps.
- **Diagnostics** (`LineColumn`): line and column to byte offset and back.

`Basics` and `Whitespace` hold what the rest shares.

## Properties that fail, and exactly when they hold

- Pruning by `_TABLE_SUFFIX` loses rows when a BETWEEN stands next to another conjunct: a conjunction intersects
  lists literally, so a BETWEEN's two bounds stand for the whole interval only if they are the list that remains
  (`SuffixFilter.BetweenConjunctLosesRows`, `SuffixFilter.KeptSuffixScannedIff`, `WildcardRows.PruningPreservesIff`).
- Two scans of one wildcard table, filtered or not, share one allow-list, the last one's; a scan is safe from it iff
  the list covers every suffix the scan can keep
  (`WildcardTables.SecondScanHidesFirst`, `WildcardTables.SharedListPreservesIff`).
- A table with two columns of one name, or one named `_TABLE_SUFFIX`, cannot be read back from the union
  (`WildcardTables.RowSurvivesIff`).
- A RANGE type does not survive reflection to the wire (`TypeTranslation.TypeWireColumnRoundTrip`).
- BIGNUMERIC and GEOGRAPHY are not recovered from their DuckDB text (`DuckDbType.HeadSurvivesIff`).
- A lookup right after a registration may return another routine: a view registered without a dataset shadows a later
  one, and an unqualified registration over two datasets replaces only the first, so the second still answers an
  unqualified lookup (`RegistryRuns.StaleViewAnswers`, `RegistryRuns.EmptyDatasetLeavesMatch`). The new routine is
  found iff no other live entry answers (`RegistryRuns.RegisteredIsFoundIff`, `RegistryRuns.UnobstructedMeans`).
- Replay ends the process when a routine's name is the alias of another routine in the catalog
  (`Registry.AliasBlocksReplay`); it gets through iff every live name is clear of aliases when its turn comes
  (`Registry.ProjectRegistry.ReplayIntoCatalog`, `Registry.FreeIffClear`).
- An `INFORMATION_SCHEMA` view and a table of its name share a cache entry (`CatalogLookup.InfoSchemaShadowsTable`);
  every lookup that is served gets the kind it wants iff no two served paths clash that way; refused lookups and
  registered views may come between (`CatalogLookup.KindsClashIff`, `CatalogLookup.RunKindsIff`).
- A table whose measure columns fail stays cached when another table was added meanwhile, and otherwise is taken from
  a lookup that shared it (`CatalogLookup.RefusedTableStays`, `CatalogLookup.SharedObjectDropped`); exact conditions
  are `CatalogLookup.RollbackRemovesIff` and `CatalogLookup.HandedOutOwnedIff`.
- A row that passes the ordered comparison fails the unordered one when the fixture omits a NULL column
  (`DiffEngine.OmittedColumnFailsUnordered`, `DiffEngine.OrderedImpliesUnorderedIff`).
- The unordered comparison passes rows that do not match: the text `<NULL>` for NULL, a text that is no number on both
  sides of a numeric column, rows told apart only by where `, ` falls, and a stray key for an extra cell
  (`DiffConverse.NullTextPassesUnordered`, `DiffConverse.UnreadableTextPassesUnordered`,
  `DiffConverse.SeparatorPassesUnordered`, `DiffConverse.StrayPassesUnordered`). When no cell text holds `, `, rows with
  one line match iff nothing is stray or extra and in every column both sides are NULL or both are values of its type
  (`DiffConverse.LineDeterminesRowIff`); lists are compared in `DiffConverse.UnorderedIffPermuted`.
- A negative `<seconds>.<fraction>` timestamp is off by twice its fraction (`UnixSeconds.NegativeFractionIff`).
- A diagnostic at the very end of the text ends one byte past it (`LineColumn.EndByteInsideIff`).

Where comments and code disagree the model follows the code: backtick-quoted names are said to be taken verbatim
(backend/storage/row_restriction.cc:89-92) but one that holds `=` or an open quote is refused
(`RowRestriction.BacktickStringRestriction`); registered views are said to win over stored tables
(backend/catalog/googlesql_catalog.cc:167-169) but a cached table wins over a view registered later
(`CatalogLookup.GoogleSqlCatalog.FindTable`).

## Model

| member | source | states |
|---|---|---|
| SuffixFilter.IntersectAllowLists | backend/catalog/wildcard_table_suffix_filter.cc:47-58 | two lists meet in the first one's order; no list on either side gives none |
| SuffixFilter.ExtractFromInCall | backend/catalog/wildcard_table_suffix_filter.cc:60-86 | an IN over suffix string literals gives those strings, anything else none |
| SuffixFilter.ExtractFromExpr | backend/catalog/wildcard_table_suffix_filter.cc:122-147 | the recursive extraction computes `AllowList`, which `SuffixExact.AllowListExact` pins by syntax |
| SuffixFilter.KeptSuffixListed | backend/catalog/wildcard_table_suffix_filter.cc:102-147 | a suffix the filter keeps, under SQL three-valued logic, is on the extracted list iff every BETWEEN in it sits at one of its bounds |
| SuffixFilter.KeptSuffixScannedIff | backend/catalog/wildcard_table_util.cc:184-192 | a kept suffix is scanned iff it is at the bounds or the list reads as an interval holding it |
| SuffixFilter.SafeShapeScansKept | backend/catalog/wildcard_table_suffix_filter.cc:122-147 | a filter without BETWEEN beside another conjunct never prunes a kept suffix |
| SuffixFilter.BetweenConjunctLosesRows | backend/catalog/wildcard_table_suffix_filter.cc:132-145 | a filter that keeps a suffix its allow-list excludes |
| SuffixExact.AllowListExact | backend/catalog/wildcard_table_suffix_filter.cc:60-147 | a filter gives a list iff, read from the left until no string is named by all, its conjuncts are comparisons of the suffix with string literals; the list holds exactly the strings all of them name, in the first one's order |
| SuffixExact.InGives | backend/catalog/wildcard_table_suffix_filter.cc:60-86 | an IN over an array gives a list iff all its elements are strings |
| SuffixExact.InStrings | backend/catalog/wildcard_table_suffix_filter.cc:60-86 | and then exactly those, in order |
| SuffixExact.EqualGives | backend/catalog/wildcard_table_suffix_filter.cc:102-120 | an equality gives its literal from either side |
| SuffixExact.ListIsFilter | backend/catalog/wildcard_table_suffix_filter.cc:122-147 | without BETWEEN a suffix is on the list iff the filter keeps its rows, whatever else they hold |
| SuffixExact.ScannedIff | backend/catalog/wildcard_table_util.cc:184-192 | so a table is scanned iff the filter keeps its suffix or the list is two ordered strings around it |
| SuffixExact.BetweenScans | backend/catalog/wildcard_table_util.cc:184-192 | a lone BETWEEN scans what it keeps, and its two bounds when they are reversed |
| Wildcard.CompatibleTransitive | backend/catalog/wildcard_table_util.cc:29-39 | column compatibility, over any nesting, is transitive |
| Wildcard.CompatibleSymmetric | backend/catalog/wildcard_table_util.cc:29-39 | and symmetric |
| Wildcard.CompatibleIff | backend/catalog/wildcard_table_util.cc:29-39 | columns are compatible iff their skeletons, type, mode and struct fields at every depth, are equal |
| Wildcard.PairwiseCompatibleIff | backend/catalog/wildcard_table_util.cc:103-118 | columns unify iff every name has one skeleton |
| Wildcard.WildcardMatchesIff | backend/catalog/wildcard_table_util.cc:62-85 | `p*` matches exactly the ids that start with `p`, and a name without a star nothing |
| Wildcard.FirstSeenDecides | backend/catalog/wildcard_table_util.cc:103-118 | comparing a column with the first of its name decides compatibility with all of them |
| Wildcard.GatherColumns | backend/catalog/wildcard_table_util.cc:99-119 | gathering succeeds iff every table exists and all same-named columns are pairwise compatible, and then holds each name's first definition; not-found iff the first thing wrong is a missing table |
| Wildcard.NewestFirst | backend/catalog/wildcard_table_util.cc:121-136 | the newest table's columns lead, in its order, with the first definition of each name |
| Wildcard.AppendOlder | backend/catalog/wildcard_table_util.cc:137-141 | every other name is appended exactly once |
| Wildcard.UnifyWildcardTableSchemas | backend/catalog/wildcard_table_util.cc:87-144 | succeeds iff there is a table, all exist and all are compatible; the result is the union: newest order, older names once, suffix last; not-found iff the first thing wrong is a missing table |
| Wildcard.UnificationOrderIndependent | backend/catalog/wildcard_table_util.cc:87-144 | success, the offered names and each name's type up to compatibility do not depend on the order of the tables |
| Wildcard.UnionNames | backend/catalog/wildcard_table_util.cc:121-144 | the union offers exactly the matched tables' names and the suffix |
| WildcardRows.BuildWildcardColumnMaps | backend/catalog/wildcard_table_util.cc:146-182 | succeeds iff every table exists; each union column maps to the table's first column of that name |
| WildcardRows.BuildUnionRow | backend/catalog/wildcard_table.cc:125-146 | places cells by the map, NULL where the table has none, the suffix last |
| WildcardRows.CollectUnionRows | backend/catalog/wildcard_table.cc:240-266 | scans the allowed tables in order and fails on the first failing scan |
| WildcardRows.PrunedScanIsListed | backend/catalog/wildcard_table.cc:240-266 | a scan under a list yields exactly the rows of the full scan whose suffix the list lets through |
| WildcardRows.ScanFailsIff | backend/catalog/wildcard_table.cc:240-266 | and fails iff a table the list lets through is missing or fails |
| WildcardRows.SkippingPreservesIff | backend/catalog/wildcard_table.cc:240-266 | for any allow-list, the filtered rows equal those of the full union iff no skipped table holds a kept row; otherwise they are strictly fewer |
| WildcardRows.PruningPreservesIff | backend/catalog/wildcard_table.cc:240-266 | pruning by the filter's own list preserves the filtered rows iff every table with a kept row is prune-safe |
| WildcardRows.PruningPreservesSafeShapes | backend/catalog/wildcard_table.cc:309-345 | pruning preserves the filtered rows for every filter of a safe shape, over any data |
| WildcardTables.MatchTables | backend/catalog/googlesql_catalog_wildcard.cc:40-58 | the ids that match the prefix, all of them, sorted |
| WildcardTables.SuffixSplits | backend/catalog/wildcard_table_util.cc:66-85 | prefix and suffix split a matched id without loss |
| WildcardTables.CompatibleTranslate | backend/catalog/googlesql_catalog_find_helpers.cc:110-173 | compatible columns translate together, to one analyzer type up to field names |
| WildcardTables.SameTypeIff | backend/catalog/googlesql_catalog_find_helpers.cc:110-173 | two columns that translate have one type up to field names iff their skeletons agree but for NULLABLE and REQUIRED |
| WildcardTables.UnionTranslatable | backend/catalog/googlesql_catalog_wildcard.cc:68-75 | the union translates iff every matched table's columns do |
| WildcardTables.TranslateColumns | backend/catalog/googlesql_catalog_wildcard.cc:68-75 | name and type of every column, or an error iff one does not translate |
| WildcardTables.MaterializeWildcardTable | backend/catalog/googlesql_catalog_wildcard.cc:25-96 | succeeds iff some listed table matches and the matched ones, in any order, exist, are compatible and translate; the result reads exactly those, sorted, with their union schema and column maps |
| WildcardTables.UnifiableAnyOrder | backend/catalog/googlesql_catalog_wildcard.cc:40-66 | whether tables can be read as one does not depend on the listing order |
| WildcardTables.RowSurvivesIff | backend/catalog/wildcard_table.cc:125-146 | every row of a table can be read back from the union iff its column names are distinct and none is the suffix column's |
| WildcardTables.CellsPlaced | backend/catalog/wildcard_table.cc:125-146 | every physical cell sits at the union position of its name and foreign columns are NULL |
| WildcardTables.UnionConservesData | backend/catalog/wildcard_table.cc:240-266 | read back row by row, the union is exactly the labelled physical rows in table-then-scan order; it fails iff a scan fails |
| WildcardTables.WildcardConservesData | backend/catalog/wildcard_table.cc:240-266 | so a materialised wildcard table of such tables loses, invents and reorders nothing, or fails with a failing scan |
| WildcardTables.CollectAllowList | backend/engine/duckdb/duckdb_executor_internal.h:94-121 | a query's list for a table is that of its last filtered scan |
| WildcardTables.LastListWins | backend/engine/duckdb/duckdb_executor_internal.h:94-121 | the list in force is the last one any scan gives; scans that give none leave it |
| WildcardTables.PreservedIff | backend/engine/duckdb/duckdb_executor_internal.h:94-121 | on given rows a scan, filtered or not, passes on what it would without the list iff every table it keeps a row of is scanned |
| WildcardTables.SharedListPreservesIff | backend/engine/duckdb/duckdb_executor_internal.h:94-121 | a scan, filtered or not, is preserved for every content of the matched tables iff the query's list lets through every matched suffix the scan can keep |
| WildcardTables.AgreeingScansPreserved | backend/engine/duckdb/duckdb_executor_internal.h:94-121 | scans that extract one list, from safe filters or none, are all preserved for every content |
| WildcardTables.AgreeingScans | backend/engine/duckdb/duckdb_executor_internal.h:94-121 | scans with equal lists keep that list |
| WildcardTables.SecondScanHidesFirst | backend/engine/duckdb/duckdb_executor_internal.h:94-121 | two scans whose shared list hides what the first keeps |
| Schema.TypeNamesParseBack | backend/schema/schema.cc:33-103 | every column type is parsed back from its name |
| Schema.ModeNamesParseBack | backend/schema/schema.cc:105-122 | every mode too, and the empty text is NULLABLE |
| Schema.TypeReadIff | backend/schema/schema.cc:71-103 | a type is read from its name and its alias, in any case, and from nothing else |
| Schema.ModeReadIff | backend/schema/schema.cc:105-122 | REQUIRED and REPEATED from their names in any case, and from nothing else |
| Schema.ColumnSchemaFromProto | backend/schema/schema.cc:124-151 | the recursive conversion computes `FromProto`, failing on an empty name at any depth |
| Schema.ColumnSchemaToProto | backend/schema/schema.cc:164-177 | the recursive conversion computes `ToProto` |
| Schema.ProtoRoundTripIff | backend/schema/schema.cc:124-177 | wire and back is the same column iff, at every depth, the name is non-empty and raw type text is held only by unknown types and spells no known one |
| Schema.FromProtoCanonical | backend/schema/schema.cc:124-151 | every column read from the wire is one that round-trips |
| TypeTranslation.ScalarOrStructType | backend/catalog/googlesql_catalog_find_helpers.cc:110-173 | the type under the mode, recursing into structs |
| TypeTranslation.ToGoogleSqlType | backend/catalog/googlesql_catalog.cc:54-66 | and an array of it for REPEATED columns |
| TypeTranslation.FillScalarOrStruct | backend/schema/googlesql_to_bq.cc:126-168 | scalars, structs and ranges to wire fields; arrays refused |
| TypeTranslation.FillStructFields | backend/schema/googlesql_to_bq.cc:89-119 | each field in order; an unnamed field refused |
| TypeTranslation.TypeToFieldSchema | backend/schema/googlesql_to_bq.cc:172-198 | one array layer becomes REPEATED mode |
| TypeTranslation.ColumnTypeWireRoundTrip | backend/schema/googlesql_to_bq.cc:62-198 | column to type to wire succeeds iff nested fields are named, and reads back as the column with names, types and modes intact |
| TypeTranslation.TypeWireColumnRoundTrip | backend/schema/googlesql_to_bq.cc:62-198 | type to wire to column to type is the identity iff no RANGE is inside, and an error otherwise |
| TypeTranslation.WireFormIff | backend/schema/googlesql_to_bq.cc:62-198 | a type has a wire form iff it is a scalar, a struct of named fields or a range of these, under at most one array layer |
| TypeTranslation.WireDeterminesType | backend/schema/googlesql_to_bq.cc:62-198 | the wire form determines the name and the type, a range's bound included |
| DuckDbType.ColumnSchemaToDuckDBTypeWithFn | backend/schema/schema.cc:375-408 | the imperative renderer computes the text of the lowered type, which `DuckDbShape.SameTextIff` reads off the column |
| DuckDbType.AppendFields | backend/schema/schema.cc:378-388 | fields appended in order with their separators |
| DuckDbType.QuotedUnique | backend/schema/schema.cc:364-367 | a quoted field name determines the name and where it ends |
| DuckDbType.ReadsUniquely | backend/schema/schema.cc:375-408 | type text followed by a delimiter parses in only one way, at any nesting |
| DuckDbType.RenderInjective | backend/schema/schema.cc:364-418 | two columns have the same DuckDB type text iff they lower to the same type |
| DuckDbShape.RepeatedAddsMarker | backend/schema/schema.cc:404-406 | a REPEATED column is its NULLABLE text and one list marker; REQUIRED changes nothing |
| DuckDbShape.ArrayAddsMarker | backend/schema/schema.cc:389-401 | an ARRAY is its element's text, or a string's, and one list marker |
| DuckDbShape.StructListsFields | backend/schema/schema.cc:378-388 | a struct lists each field's own quoted name and text once, in order |
| DuckDbShape.MarkersAreLayers | backend/schema/schema.cc:375-408 | the list markers at the end of the text are the REPEATED and ARRAY layers of the column |
| DuckDbShape.SameTextIff | backend/schema/schema.cc:364-418 | two columns have one text iff they have one shape: scalar class, list layers and fields, at every depth |
| DuckDbShape.NameReads | backend/schema/schema.cc:251-356 | every name of a DuckDB type, in any case and with any parameters, reads as that type |
| DuckDbType.StripSuffix | backend/schema/schema.cc:323-329 | strips brackets as the source does |
| DuckDbType.FindTypeHead | backend/schema/schema.cc:251-259 | the text before the first space, tab, parenthesis or bracket |
| DuckDbType.StripBrackets | backend/schema/schema.cc:323-329 | exactly one bracket pair is removed from any number of them |
| DuckDbType.HeadRecovery | backend/schema/schema.cc:345-356 | reading a column's own DuckDB text gives the type recorded for its innermost element |
| DuckDbType.HeadSurvivesIff | backend/schema/schema.cc:186-241 | that is the innermost type itself iff it is not BIGNUMERIC, GEOGRAPHY or unknown |
| Registry.SimpleCatalog.Replace | backend/catalog/udf_registry.cc:263-276 | points a name at a routine, removing by routine name; the Add meets a taken key iff the key is the alias of a routine of another name |
| Registry.FreeIffClear | backend/catalog/udf_registry.cc:263-276 | within a replay the Add finds its key free iff the key is absent after the sweep, holds a routine of that name, or is an alias already displaced |
| Registry.PointedStep | backend/catalog/udf_registry.cc:263-276 | one turn of the loop against the closed form of what each key must hold |
| Registry.NameKeyedReplays | backend/catalog/udf_registry.cc:245-278 | where every key is its routine's name, replay gets through and touches live names only |
| Registry.AliasBlocksReplay | backend/catalog/udf_registry.cc:273-276 | a routine whose name is another routine's alias cannot be replayed |
| Registry.ProjectRegistry.Register | backend/catalog/udf_registry.cc:57-95 | the first matching entry is retired and the routine appended; errors change nothing |
| Registry.ProjectRegistry.Drop | backend/catalog/udf_registry.cc:220-243 | the first entry of the name is retired; not found iff there is none |
| Registry.ProjectRegistry.Find | backend/catalog/udf_registry.cc:97-115 | the first live entry that answers |
| Registry.ProjectRegistry.ReplayIntoCatalog | backend/catalog/udf_registry.cc:245-278 | gets through iff every live name is clear of aliases in turn, and then the catalog is `Replayed`, defined by what each key must hold |
| RegistryRuns.OwnershipConserved | backend/catalog/udf_registry.cc:57-95 | over every run, live plus retired routines are exactly those ever registered, with multiplicity |
| RegistryRuns.CatalogsNeverDangle | backend/catalog/udf_registry.cc:245-278 | over every run, each catalog pointer is an original one or still owned, under its own name where keys were names |
| RegistryRuns.ReplayAgrees | backend/catalog/udf_registry.cc:245-278 | after replay every live name maps to its last live routine, nothing to a retired one, any other key keeps its routine unless swept or an alias of a displaced name, and replay is idempotent |
| RegistryRuns.ReplayEndsInAgreement | backend/catalog/udf_registry.cc:245-278 | the same from every reachable state, other catalogs being untouched |
| RegistryRuns.NeverDies | backend/catalog/udf_registry.cc:245-278 | over every run, catalogs whose keys are names never end the process |
| RegistryRuns.Drive | backend/catalog/udf_registry.cc:57-278 | the registry and catalog objects, driven by any list of actions, end in the state of that run, or stop where the run dies |
| RegistryRuns.BucketOfRun | backend/catalog/udf_registry.cc:57-95 | a project's entries depend on its own registrations and drops only |
| RegistryRuns.RegistryRefinesMap | backend/catalog/udf_registry.cc:57-95 | every run with qualified registrations simulates a map from case-folded pairs to their latest registration |
| RegistryRuns.DropSimulates | backend/catalog/udf_registry.cc:220-243 | a drop removes the oldest entry of its name from that map |
| RegistryRuns.ReferenceUnique | backend/catalog/udf_registry.cc:57-95 | the history determines that map |
| RegistryRuns.FindReturnsLatest | backend/catalog/udf_registry.cc:97-115 | so a qualified lookup returns the latest registration not since dropped, and no two entries share a key |
| RegistryRuns.RegisterKeepsDisjointIff | backend/catalog/view_registry.cc:50-94 | entries stay mutually non-matching after a registration iff it matched at most one |
| RegistryRuns.RegisteredIsFoundIff | backend/catalog/udf_registry.cc:57-115 | a lookup finds the routine just registered iff no live entry but the replaced one answers |
| RegistryRuns.RegisteredIsFoundInRunIff | backend/catalog/udf_registry.cc:57-115 | the same after every run, for a routine object not registered before |
| RegistryRuns.UnobstructedMeans | backend/catalog/view_registry.cc:79-109 | for functions that is matching at most one entry; for views also no entry of that name without a dataset |
| RegistryRuns.StaleViewAnswers | backend/catalog/view_registry.cc:79-109 | a view registered without a dataset answers for one registered later with it |
| RegistryRuns.EmptyDatasetLeavesMatch | backend/catalog/udf_registry.cc:57-95 | an unqualified registration over two datasets is found only under the first; the old routine still answers unqualified lookups and those of the second |
| CatalogLookup.SpellingsAgreeIff | backend/catalog/googlesql_catalog_find_helpers.cc:22-87 | all spellings of a table resolve to the same id iff its dataset is not INFORMATION_SCHEMA |
| CatalogLookup.FullNames | backend/catalog/googlesql_catalog_find_helpers.cc:22-87 | a full name carries its own project, in one segment or three |
| CatalogLookup.ViewPaths | backend/catalog/googlesql_catalog_find_helpers.cc:61-80 | what the paths through INFORMATION_SCHEMA resolve to |
| CatalogLookup.UnresolvedIff | backend/catalog/googlesql_catalog_find_helpers.cc:22-87 | a path is refused iff it has no or too many segments, or is a bare name without a default dataset |
| CatalogLookup.CacheKeyInjective | backend/catalog/googlesql_catalog.cc:113-120 | ids without the separator have equal keys iff they are equal |
| CatalogLookup.Step | backend/catalog/googlesql_catalog.cc:122-226 | every critical section keeps keys and tables parallel, keys and addresses distinct |
| CatalogLookup.CachedMeans | backend/catalog/googlesql_catalog.cc:159-165 | the cached object for an id is the one stored for that id |
| CatalogLookup.EntryIsStable | backend/catalog/googlesql_catalog.cc:122-226 | an entry keeps its object through any interleaving in which its own measures do not fail |
| CatalogLookup.RepeatedLookupSameObject | backend/catalog/googlesql_catalog.cc:122-226 | two lookups of a table give one object, whatever runs between them |
| CatalogLookup.RollbackRemovesIff | backend/catalog/googlesql_catalog.cc:205-212 | a failed lookup removes its entry iff nothing was added after it |
| CatalogLookup.RefusedTableStays | backend/catalog/googlesql_catalog.cc:205-212 | after another table was added a refused table stays and answers the next lookup |
| CatalogLookup.HandedOutOwnedIff | backend/catalog/googlesql_catalog.cc:205-212 | over every run an object handed out stays owned iff, by the ids cached at the start and the action list alone, no undo of its id comes when every id pushed after it has been undone |
| CatalogLookup.SharedObjectDropped | backend/catalog/googlesql_catalog.cc:205-212 | a second lookup is left with an object no longer owned when the first is undone |
| CatalogLookup.FailedLookupRestores | backend/catalog/googlesql_catalog.cc:205-212 | and alone leaves keys and tables as they were |
| CatalogLookup.KindsStayRight | backend/catalog/googlesql_catalog.cc:143-157 | without INFORMATION_SCHEMA lookups every cached object has the kind its id calls for |
| CatalogLookup.KindsClashIff | backend/catalog/googlesql_catalog.cc:335-369 | whatever runs between two served lookups of one entry, the second gets the kind it wants iff not exactly one of the two paths names an INFORMATION_SCHEMA view |
| CatalogLookup.RunKindsIff | backend/catalog/googlesql_catalog.cc:122-226 | from an empty cache, every served lookup of a sequence gets the kind it wants iff no two served paths clash, whatever is refused or answered by a view between |
| CatalogLookup.CacheFirstWins | backend/catalog/googlesql_catalog.cc:122-226 | no lookup that runs alone overwrites or loses an entry, a served one fills an absent entry with the kind it wants, and nothing else does |
| CatalogLookup.InfoSchemaShadowsTable | backend/catalog/googlesql_catalog.cc:335-369 | an INFORMATION_SCHEMA view looked up first answers for the table of its name |
| CatalogLookup.RefusedViewsAndWildcards | backend/catalog/googlesql_catalog.cc:143-157 | an INFORMATION_SCHEMA view is refused iff unknown, a wildcard id for its own error when not cached |
| CatalogLookup.RefusedTables | backend/catalog/googlesql_catalog.cc:159-212 | a plain table: the cache first, then a registered view, then storage's error, then the measures' |
| CatalogLookup.GoogleSqlCatalog.Search | backend/catalog/googlesql_catalog.cc:159-165 | the linear search finds the cached object |
| CatalogLookup.GoogleSqlCatalog.Materialize | backend/catalog/googlesql_catalog_wildcard.cc:25-96 | hit, refusal or new entry, and the state after each |
| CatalogLookup.GoogleSqlCatalog.FindPhysical | backend/catalog/googlesql_catalog.cc:181-226 | build, release the lock, undo on failure, with any steps of other lookups between |
| CatalogLookup.GoogleSqlCatalog.FindTable | backend/catalog/googlesql_catalog.cc:122-226 | the answer, the error code and the new cache in every case; a hit is the cached object, an answer is the requested id's entry, a refusal alone leaves no trace |
| RowRestriction.SplitOnTopLevelEquals | backend/storage/row_restriction.cc:41-72 | the first `=` outside quotes, not at either end, or none exists |
| RowRestriction.ExtractIdentifier | backend/storage/row_restriction.cc:97-136 | the bare or backtick-quoted name, or an error |
| RowRestriction.ParseStringLiteral | backend/storage/row_restriction.cc:141-172 | undoubles the quotes of a complete literal |
| RowRestriction.StringLiteralExact | backend/storage/row_restriction.cc:141-172 | a text is a literal for a string iff it is that string quoted in one of the two ways |
| RowRestriction.Int64RoundTrip | backend/storage/row_restriction.cc:194-209 | every 64-bit integer is read back from its decimal text |
| RowRestriction.ContainsBanned | backend/storage/row_restriction.cc:230-271 | whether a connective or relational operator occurs |
| RowRestriction.ParseRowRestriction | backend/storage/row_restriction.cc:213-362 | returns the meaning of the text when it has one, and fails only when it has none; `RestrictionLiterals.MeansIff` says what it is |
| RowRestriction.MeaningUnique | backend/storage/row_restriction.cc:213-362 | a text has at most one meaning |
| RowRestriction.BareStringRestriction | backend/storage/row_restriction.cc:213-362 | `name = 'value'`, with any space, means that equality iff it contains no banned word |
| RowRestriction.BacktickIdentifier | backend/storage/row_restriction.cc:103-117 | a backtick-quoted name reads back verbatim and only space may follow |
| RowRestriction.BacktickStringRestriction | backend/storage/row_restriction.cc:213-362 | with a backtick-quoted name it means that equality iff nothing is banned and the name neither holds a top-level `=` nor leaves a quote open; otherwise it is refused |
| RowRestriction.StringMeaningReencodes | backend/storage/row_restriction.cc:213-362 | a string meaning determines the literal up to quote choice, the column and its index |
| RestrictionLiterals.LiteralForIff | backend/storage/row_restriction.cc:138-209 | a column reads exactly the texts that spell a value of its type: signed digits in 64 bits, true or false in any case, quoted strings |
| RestrictionLiterals.Int64LiteralIff | backend/storage/row_restriction.cc:194-209 | an INT64 literal is exactly signed decimal digits that denote the number |
| RestrictionLiterals.MeansIff | backend/storage/row_restriction.cc:213-362 | a text means an equality iff nothing banned occurs and its first top-level `=` stands between a spelling of the column and one of the value |
| RestrictionLiterals.BareRestriction | backend/storage/row_restriction.cc:213-362 | a bare name and any spelling of a value, of any supported type and with any space, mean that equality iff nothing banned occurs |
| RestrictionLiterals.IdentifierIff | backend/storage/row_restriction.cc:97-136 | a column part is exactly a bare word, or a name without backticks between backticks, with space around |
| RestrictionLiterals.BannedIff | backend/storage/row_restriction.cc:230-271 | a text is banned iff it holds a spaced connective, a less or greater sign, or an unequal sign |
| RestrictionLiterals.QuotedHidesEquals | backend/storage/row_restriction.cc:41-72 | no `=` inside a string literal is a split |
| CorpusParser.ExpectedParser.SkipSpace | conformance/googlesqlcorpus/expected.go:265-274 | drops leading space |
| CorpusParser.ExpectedParser.Consume | conformance/googlesqlcorpus/expected.go:283-290 | takes a token after space, or moves only past the space |
| CorpusParser.ExpectedParser.ReadQuotedText | conformance/googlesqlcorpus/expected.go:225-241 | reads to the closing quote with escapes undone, or fails iff there is none |
| CorpusParser.ExpectedParser.ReadBareToken | conformance/googlesqlcorpus/expected.go:253-263 | reads and trims a bare token |
| CorpusParser.ExpectedParser.ParseTypedLiteral | conformance/googlesqlcorpus/expected.go:202-223 | DATE, TIMESTAMP, TIME and DATETIME literals |
| CorpusParser.ExpectedParser.ParseScalar | conformance/googlesqlcorpus/expected.go:142-200 | agrees with the grammar's scalar |
| CorpusParser.ExpectedParser.ParseValue | conformance/googlesqlcorpus/expected.go:142-179 | agrees with the grammar's value, nested rows included, and terminates |
| CorpusParser.ExpectedParser.ParseRow | conformance/googlesqlcorpus/expected.go:118-140 | agrees with the grammar's row |
| CorpusParser.ExpectedParser.ParseRows | conformance/googlesqlcorpus/expected.go:94-116 | agrees with the grammar's row list |
| CorpusParser.ExpectedParser.SkipTypeExpr | conformance/googlesqlcorpus/expected.go:72-92 | stops at the angle bracket that closes the outer ARRAY |
| CorpusParser.ExpectedParser.ParseTopArray | conformance/googlesqlcorpus/expected.go:45-70 | agrees with the grammar's top level |
| CorpusParser.ScalarAdvances | conformance/googlesqlcorpus/expected.go:142-200 | every scalar consumes at least one character |
| CorpusParser.ParseStanza | conformance/googlesqlcorpus/expected.go:24-38 | the whole text or nothing: trailing input is an error |
| CorpusPrinter.ParserInvertsPrinter | conformance/googlesqlcorpus/expected.go:24-290 | any rows of any nesting, in any spelling, with its own space at each token, after any balanced type, come back exactly with their order flag |
| CorpusPrinter.ValueReads | conformance/googlesqlcorpus/expected.go:142-179 | every printed value reads back, leaving what follows |
| CorpusPrinter.BareReads | conformance/googlesqlcorpus/expected.go:253-263 | a bare token reads back trimmed although space before the next delimiter is swallowed |
| CorpusPrinter.QuotedReads | conformance/googlesqlcorpus/expected.go:225-241 | a string with any choice of escapes reads back and stops at its own quote |
| CorpusPrinter.SpaceAfterComma | conformance/googlesqlcorpus/expected.go:118-140 | two cells with space after the comma alone are a print |
| CorpusSpelling.AcceptedIsPrinted | conformance/googlesqlcorpus/expected.go:24-290 | every accepted text is the print of a well-formed stanza that denotes the result |
| CorpusSpelling.ParserExact | conformance/googlesqlcorpus/expected.go:24-290 | a text parses to a result iff it is the print, between white space, of a stanza that denotes it |
| CorpusSpelling.PrintDeterminesMeaning | conformance/googlesqlcorpus/expected.go:24-290 | no text is the print of two stanzas of different meaning |
| CorpusSpelling.ValueSpelled | conformance/googlesqlcorpus/expected.go:142-179 | every accepted value is the print of one that denotes it, after space |
| DiffEngine.GroupLines | conformance/runner/diff.go:240-261 | counts the multiset of lines |
| DiffEngine.MultisetsEqual | conformance/runner/diff.go:265-275 | two counts are equal iff the multisets are |
| DiffEngine.DiffMultiset | conformance/runner/diff.go:281-293 | expected plus extra equals actual plus missing, the two are disjoint, and both are empty iff the sides are equal |
| DiffEngine.RowMatchesTyped | conformance/runner/diff.go:347-396 | every column agrees, nothing stray, no extra cell |
| DiffEngine.CanonicalExpectedRow | conformance/runner/diff.go:436-465 | columns in schema order, then stray keys sorted |
| DiffEngine.CanonicalActualRow | conformance/runner/diff.go:469-480 | cells in order under their column names |
| DiffEngine.SortedListing | conformance/runner/diff.go:454-464 | the sorted listing of the stray keys is unique, so the line does not depend on map order |
| DiffEngine.EqualCellsCanonical | conformance/runner/diff_scalars.go:25-55 | cells equal under an exact type have the same canonical text |
| DiffEngine.MatchingRowsCanonicalIff | conformance/runner/diff.go:436-480 | matching rows have the same canonical pairs iff both supply every column |
| DiffEngine.OrderedRowDiff | conformance/runner/diff.go:186-205 | passes iff the counts agree and every row matches its counterpart |
| DiffEngine.UnorderedRowDiff | conformance/runner/diff.go:218-235 | passes iff the canonical lines agree as multisets, iff nothing is missing or extra |
| DiffEngine.OrderedImpliesUnorderedIff | conformance/runner/diff.go:186-235 | an ordered pass is an unordered pass, under any permutation of either side, iff every row supplies every column |
| DiffEngine.OmittedColumnFailsUnordered | conformance/runner/diff.go:436-445 | a result that passes ordered and fails unordered |
| DiffConverse.NullTextPassesUnordered | conformance/runner/diff_scalars.go:389-392 | expected text `<NULL>` against NULL passes unordered and does not match |
| DiffConverse.UnreadableTextPassesUnordered | conformance/runner/diff_scalars.go:107-163 | text `abc` on both sides of an INT64 column passes unordered and does not match |
| DiffConverse.SeparatorPassesUnordered | conformance/runner/diff.go:436-480 | two different rows share a line because a cell holds the separator |
| DiffConverse.StrayPassesUnordered | conformance/runner/diff.go:454-480 | a stray key named like an extra cell passes unordered and does not match |
| DiffConverse.LineDeterminesPairs | conformance/runner/diff.go:436-480 | when no pair holds the separator, one line means the same pairs, and as many stray keys as extra cells |
| DiffConverse.RatTextDetermines | conformance/runner/diff_scalars.go:394-397 | different rationals have different texts |
| DiffConverse.CanonicalDeterminesCellIff | conformance/runner/diff_scalars.go:389-418 | cells with one canonical text are equal iff both are NULL or both are readable as the column's type |
| DiffConverse.JoinDeterminesTexts | conformance/runner/diff.go:436-480 | under known names, a line whose texts hold no separator determines them |
| DiffConverse.LineDeterminesRowIff | conformance/runner/diff.go:436-480 | when no cell text holds the separator, rows with one canonical line match iff they have the schema's columns, all alike on both sides |
| DiffConverse.ProperRowsMatch | conformance/runner/diff.go:436-480 | rows of readable cells that spell no marker or separator match when their lines are equal |
| DiffConverse.UnorderedImpliesOrdered | conformance/runner/diff.go:218-235 | on proper rows an unordered pass is an ordered pass of some permutation |
| DiffConverse.UnorderedIffPermuted | conformance/runner/diff.go:186-235 | on proper rows that supply every column, the unordered comparison passes iff some permutation matches row by row |
| DiffReadings.CellEqualsItsText | conformance/runner/diff_scalars.go:25-55 | with a library that reads what it writes, a value's canonical text equals exactly what the value equals, on every exact column |
| DiffReadings.NullCells | conformance/runner/diff_scalars.go:25-34 | NULL equals NULL and nothing else |
| DiffReadings.BoolCells | conformance/runner/diff_scalars.go:218-250 | what equals a boolean: itself, its words in any case, and integers by being nonzero |
| DiffReadings.NumberCells | conformance/runner/diff_scalars.go:107-163 | numbers compare by value, however each side writes them |
| DiffReadings.TimeCells | conformance/runner/diff_scalars.go:252-300 | times compare as instants; which numbers are times |
| DiffReadings.TextCells | conformance/runner/diff_scalars.go:48-54 | under any other type name cells compare as texts |
| DiffReadings.RepeatedCells | conformance/runner/diff_scalars.go:35-37 | a REPEATED mode, in any case, hands over to the element-wise comparison |
| DiffReadings.RatTextDenotes | conformance/runner/diff_scalars.go:394-397 | a rational's text is its numerator, and its denominator after a slash |
| UnixSeconds.ParseUnixSecondsString | conformance/runner/diff_scalars.go:334-355 | the instant of the text around its first dot, or none |
| UnixSeconds.NineDigitsFloor | conformance/runner/diff_scalars.go:343-349 | the nine digits kept are the fraction in nanoseconds rounded down, for any number of digits |
| UnixSeconds.NonNegativeIsFloor | conformance/runner/diff_scalars.go:334-355 | an unsigned text is its exact decimal value rounded down to a nanosecond |
| UnixSeconds.NegativeFractionIff | conformance/runner/diff_scalars.go:334-355 | a minus sign negates the instant iff the nine digits kept are zero |
| LineColumn.ByteOffsetFromLineAndColumn | backend/sqltools/sql_tools.cc:51-72 | the offset at that position, or -1 iff no offset has it |
| LineColumn.PositionsIncrease | backend/sqltools/sql_tools.cc:51-72 | later offsets have later positions |
| LineColumn.PositionCounts | backend/sqltools/sql_tools.cc:51-72 | the line counts the newlines before the offset, the column the bytes after the last of them |
| LineColumn.EndByteIs | backend/sqltools/sql_tools.cc:98-115 | the end byte is the end of the first token over the start, or one byte further |
| LineColumn.OffsetUndoesPosition | backend/sqltools/sql_tools.cc:51-72 | so an offset is recovered from its own position |
| LineColumn.DiagnosticRange | backend/sqltools/sql_tools.cc:76-136 | a range iff the position exists; its end position is that of its end byte, cut at the end of the text |
| LineColumn.EndByteInsideIff | backend/sqltools/sql_tools.cc:98-120 | the end byte stays within the text iff the start is before its end |

## Left out

- Query analysis and execution: the GoogleSQL analyzer, DuckDB, transpiled SQL, UDF bodies, the REST gateway and the CLI.
- Storage back ends: tables are values with a schema, rows and a failing flag; the only missing-table error is not-found.
- DiffEngine.OrderedImpliesUnorderedIff: says nothing of schemas with FLOAT64 or REPEATED columns, where ordered equality has a tolerance and the canonical text does not.
- DiffEngine.EqualCellsCanonical: parsing of numbers and times, and the printing of times and floats, are uninterpreted functions of the `Lib` value, as they are library code; rationals are kept in lowest terms and printed by the model; a float that has no rational value is not modelled.
- DiffConverse.UnorderedIffPermuted: asks that distinct instants print differently, which is the library's business and can be met (`DiffConverse.FaithfulExists`), and that cells are readable and avoid markers and separators, without which the claim is false.
- DiffReadings.CellEqualsItsText: asks that the library reads back the numbers and instants it writes, which can be met (`DiffReadings.ReadsBackExists`).
- DiffReadings.RepeatedCells: the element-wise comparison of arrays and the tolerance of floats are uninterpreted.
- UnixSeconds.ParseUnixSecondsString: an instant is its nanosecond count; the range in which Go's time type can hold it is not modelled.
- Registry.ProjectRegistry.ReplayIntoCatalog: a failed duplicate-key check is an outcome, after which nothing is said of the catalog; registered routines have no aliases of their own, and the retired-pointer sweep is one step.
- Registry.ProjectRegistry.Register: table functions and views are the same bucket with other matching rules (tvf_registry.cc, view_registry.cc); null sub-objects of a routine and building its signature are left out.
- WildcardTables.MatchTables: sorting is by insertion rather than by the library's sort, with the same result.
- Wildcard.AppendOlder: older columns come in an unspecified order, as the source iterates a hash map.
- SuffixFilter.ExtractFromExpr: expressions other than the recognised suffix predicates are opaque, and finding the filter above a scan through projections is left out.
- CatalogLookup.GoogleSqlCatalog.FindTable: a mutex section is one atomic step; what the measure analyzer looks up meanwhile is an arbitrary list of steps; why a wildcard or physical table is refused is a parameter.
- CatalogLookup.CacheKeyInjective: ids are assumed free of the separator, as the source assumes.
- RowRestriction.ParseRowRestriction: null output pointers, here and in FindTable, are not modelled.
- LineColumn.DiagnosticRange: tokens are a parameter, and a status without a location is a position that does not exist.
- Text is a sequence of characters standing for bytes; Go's Unicode space and case folding are limited to ASCII.
- Error values carry the status code only; messages are left out.
- 32-bit line, column and size arithmetic is unbounded; 64-bit literals are bounded where the source parses them.
- Procedures, models, INFORMATION_SCHEMA rows, row-access filters, script UDFs, ListProjectViews and path-based routine lookup would add members of the same kind.
- Conversion of parsed corpus cells to runner rows and the schema-only comparison.
