# DiversityService, modelled in Dafny

DiversityService is the web service that DiversityMobile clients talk to. It finds the
DiversityWorkbench module catalogs on a database server and hands out taxon lists,
projects, qualifiers and analysis hierarchies. It also stores collected field data:
event series, events, specimens, identification units and multimedia objects.

This project models the service's logic that lives outside the database. The model:
- discovers the module catalogs on a server and memoises the result in a cache with a time
  to live;
- enumerates, validates and merges taxon lists;
- flattens the analysis hierarchy of a project breadth-first;
- writes the well-known-text `POINT` and `LINESTRING` geography literals (OGC Simple Feature
  Access Part 1, section 7, in the WGS 84 reference system, SRID 4326);
- runs the upload transactions, stamping each dependent row with the key its parent row
  received;
- applies the exception policy of the multimedia upload;
- does the small lookups: repository by name, credential conversion, connection
  resolution, and the default texts of projects and qualifiers.

How the model is built:
- **The storage.** The database is an oracle: datatype `Storage.Backend` has one function
  per query or statement, and each may fail with an exception. The connection,
  `Storage.Connection`, is a class. Its `issued` field is the log of statements sent over
  it. Its `committed` field holds the statements a completed transaction made durable.
- **Upload transactions.** Each `Insert*` operation has a plan function. The plan is the
  parent row's insert, then, once that insert returned a key, the dependent statements
  built from the record stamped with that key. The method proves three things from the
  plan:
  - its result is the key, or else the first failure;
  - the log grows by exactly the statements of the plan up to and including the first
    failure;
  - the plan is committed only when every statement in it succeeded.
- **Code that works step by step.** The module scan, the taxon-list enumeration, the child
  enqueueing and the upload loops are `method`s with loops, each proved against a function.
  The BFS flattening is a method whose loop invariant yields the four properties of its
  result. The StringBuilder point serialiser and the two try blocks of the taxon-list merge
  are loop-free methods proved equal to functions. The LINQ read pipelines, including the
  LINESTRING serialiser, are functions.

Modules, one file each: `Wrappers`, `Text`, `Sequences`, `Configuration`, `Model`,
`Storage`, `ResultCache` (cache.dfy), `Credentials`, `ModuleDiscovery` (discovery.dfy),
`TaxonLists`, `Flattening`, `Geometry`, `Upload` and `Lookups`.

Where the code and its comments or names suggest different behaviour, the model follows the code:
- `enumerateTaxonListsFromServer` has no `try` block. A failing function probe or listing
  query in any taxon-name catalog therefore propagates out of the whole enumeration.
- `FindTaxonListIdIfNecessary` compares only the `Table` of the lists. The first list with
  an equal table supplies the id.
- `getDiversityModules` stores its result with `Cache.Add`. The cache type is not part of
  this model, so replacing any earlier entry under the key is the model's choice. It is
  indistinguishable from keeping a live entry, because `Add` is reached only after
  `Get` found no live entry under that key.

## Model

| member | source | states |
|---|---|---|
| Configuration.ToLogin | DiversityService/Configuration.cs:9-16 | the login takes the credentials' login name as user and their password, and nothing else |
| Configuration.RepositoryByName | DiversityService/Configuration.cs:56-59 | null exactly when no repository has the name; otherwise a repository with that name, and no earlier repository has it (the first match) |
| Credentials.GetConnection | DiversityService/DiversityService.cs:15-25 | ArgumentException exactly when no repository has the credentials' name; otherwise the first such repository's server, the given catalog or else the repository's catalog, and the credentials' login |
| Credentials.GetSectionConnection | DiversityService/DiversityService.cs:27-35 | a null server/login/catalog section is an ArgumentNullException; otherwise its login, server and catalog |
| Sequences.Distinct | DiversityService/DiversityService.Upload.cs:146-148 | the distinct elements of the input in first-seen order: no duplicates, every input element present, nothing else |
| ResultCache.LookupIn | DiversityService/DiversityService.Queries.cs:54-59 | a value is found exactly when the key has an entry that has not expired, and it is that entry's value |
| ResultCache.LookupAfterAdd | DiversityService/DiversityService.Queries.cs:54-59 | a value added under a key is found before its expiry and not after it |
| ResultCache.LookupOtherKey | DiversityService/DiversityService.Queries.cs:121 | adding under one key leaves the lookups of every other key unchanged |
| ResultCache.Cache.Get | DiversityService/DiversityService.Queries.cs:54 | returns the live entry under the key |
| ResultCache.Cache.Add | DiversityService/DiversityService.Queries.cs:121 | the entry under the key is the new value and expiry; every other entry is unchanged |
| ModuleDiscovery.CacheExpiration | DiversityService/DiversityService.Queries.cs:30-35 | the expiry lies exactly five minutes after now |
| ModuleDiscovery.CacheKeyAsWrittenCollides | DiversityService/DiversityService.Queries.cs:53 | the key as formatted is the same for server "a_b" with user "c" and for server "a" with user "b_c" |
| ModuleDiscovery.ModulesCacheKeyInjective | DiversityService/DiversityService.Queries.cs:44-53 | with escaped fields, equal keys imply the same server and the same rendered user: one entry per (serverId, userId) |
| ModuleDiscovery.HasAccessToDb | DiversityService/DiversityService.Queries.cs:126-129 | true exactly when HAS_DBACCESS answered 1; a failure propagates; one statement is sent and nothing is committed |
| ModuleDiscovery.FunctionExists | DiversityService/DiversityService.Queries.cs:131-139 | true exactly when the catalog holds a function of that name; a failure propagates; one statement is sent and nothing is committed |
| ModuleDiscovery.Classify | DiversityService/DiversityService.Queries.cs:79-112 | a catalog gets a module type exactly when it is accessible, has the marker function, and that function returns a non-blank type; the type is the function's answer |
| ModuleDiscovery.ProbeCatalog | DiversityService/DiversityService.Queries.cs:77-117 | one catalog's probe: the grouping gains the catalog under its type exactly when it classifies as a module, and is otherwise unchanged; the log grows by that catalog's probe statements; nothing is committed |
| ModuleDiscovery.EveryDatabaseProbed | DiversityService/DiversityService.Queries.cs:75-118 | every listed catalog is probed, whatever the probes of the other catalogs did |
| ModuleDiscovery.Selected | DiversityService/DiversityService.Queries.cs:103-111 | the catalogs of a type, in listing order: only catalogs of that type, and all of them |
| ModuleDiscovery.GroupIsSelection | DiversityService/DiversityService.Queries.cs:103-111 | a type is in the grouping exactly when some catalog has it, and its list is those catalogs in listing order |
| ModuleDiscovery.GroupedIff | DiversityService/DiversityService.Queries.cs:79-112 | a catalog appears under a type exactly when it classifies as that type |
| ModuleDiscovery.GetDiversityModules | DiversityService/DiversityService.Queries.cs:47-124 | a live cache entry is returned with nothing sent and the cache unchanged; a failing listing propagates, without caching; otherwise the grouping is returned and cached until now plus five minutes, after one listing and the probes of every catalog; nothing is committed |
| TaxonLists.TagAndValidate | DiversityService/DiversityService.Queries.cs:166-183 | every list kept carries the catalog and is valid (non-blank text and group, non-zero id); every list kept is a tagged row; every valid row is kept |
| TaxonLists.TagAndValidateOne | DiversityService/DiversityService.Queries.cs:166-183 | a single row is kept, tagged with the catalog, exactly when it is valid |
| TaxonLists.TagAndValidateAppend | DiversityService/DiversityService.Queries.cs:166-183 | tagging and validating distributes over concatenation, so the kept rows keep their order and multiplicity |
| TaxonLists.TaxonNameCatalogs | DiversityService/DiversityService.Queries.cs:149 | the catalogs of type DiversityTaxonNames; none when discovery found no such type |
| TaxonLists.CatalogLists | DiversityService/DiversityService.Queries.cs:153-185 | a catalog without the listing function yields no lists; a failing probe or query propagates; every list yielded is valid and tagged with the catalog |
| TaxonLists.ReadCatalogLists | DiversityService/DiversityService.Queries.cs:153-185 | the probe and listing query for one catalog give exactly that catalog's lists, or the first failure; the log grows by the function probe and, only when the function exists, the listing query; nothing is committed |
| TaxonLists.ReadAllCatalogLists | DiversityService/DiversityService.Queries.cs:151-186 | the loop over the catalogs gives their lists in catalog order, or the first failure; the log grows by each catalog's statements up to the failing catalog; nothing is committed |
| TaxonLists.ListingOnlyWithFunction | DiversityService/DiversityService.Queries.cs:153-166 | a listing query is sent only to an enumerated catalog that has the listing function, and only for the caller's login |
| TaxonLists.ListsTraceStops | DiversityService/DiversityService.Queries.cs:151-186 | after a failing catalog, the later catalogs send nothing |
| TaxonLists.EnumeratedListsValid | DiversityService/DiversityService.Queries.cs:151-186 | every enumerated list is valid and tagged with one of the catalogs enumerated |
| TaxonLists.EnumerationConcatenates | DiversityService/DiversityService.Queries.cs:151-186 | enumerating two runs of catalogs yields the first run's lists followed by the second's, and the first failure propagates |
| TaxonLists.EnumerateTaxonListsFromServer | DiversityService/DiversityService.Queries.cs:141-190 | a failing discovery propagates; otherwise the lists of the DiversityTaxonNames catalogs, catalog by catalog in order; the cache changes exactly as discovery changes it; the log grows by discovery's statements, then the enumeration's; nothing is committed |
| TaxonLists.MarkPublic | DiversityService/DiversityService.cs:157 | the same lists, in order, each with the public flag set as given |
| TaxonLists.ListsRead | DiversityService/DiversityService.cs:151-180 | one try block keeps every row its query delivered before any failure, in order, each carrying that block's public flag |
| TaxonLists.ReadPrivateLists | DiversityService/DiversityService.cs:151-164 | the caller's lists over the caller's connection, marked private; none when the connection fails, and those read before the failure when the query fails |
| TaxonLists.ReadPublicLists | DiversityService/DiversityService.cs:166-180 | the lists of the public-taxa login, marked public; none when that section is missing, and those read before the failure when the query fails |
| TaxonLists.GetTaxonListsForUser | DiversityService/DiversityService.cs:147-183 | the private lists, then the public ones; a failure in either source loses only the rest of that source's lists |
| TaxonLists.PublicAfterPrivate | DiversityService/DiversityService.cs:147-183 | private lists followed by public ones: a list is public exactly when its position is past the private part |
| TaxonLists.TaxonListsPublicIff | DiversityService/DiversityService.cs:147-183 | in what is handed out, a list is public exactly when it comes after the caller's private lists |
| TaxonLists.FirstIdWithTable | DiversityService/DiversityService.cs:221-230 | no id exactly when no list has the table; otherwise the id of the first list that has it |
| TaxonLists.FindTaxonListIdIfNecessary | DiversityService/DiversityService.cs:212-234 | a non-zero id is kept, with result true; a zero id becomes the first matching list's id, with result true, exactly when some list has the same table; otherwise the result is false and the list is unchanged |
| Flattening.ChildEntries | DiversityService/DiversityService.cs:101-108 | the entries enqueued for a parent: one for each child analysis, each with the child's id and the parent's taxonomic group, and no other |
| Flattening.DequeueKnown | DiversityService/DiversityService.cs:98-99 | dropping an entry whose analysis is already flattened, with no children enqueued, keeps the loop invariant |
| Flattening.DequeueNew | DiversityService/DiversityService.cs:98-109 | flattening a new entry and enqueueing its children keeps the loop invariant |
| Flattening.RemainingShrinks | DiversityService/DiversityService.cs:99 | each newly flattened id leaves one fewer id of the finite universe to flatten, so the traversal terminates |
| Flattening.Start | DiversityService/DiversityService.cs:92-93 | the invariant holds with the roots queued and nothing flattened |
| Flattening.RankedAfterStep | DiversityService/DiversityService.cs:98-108 | flattening a dequeued entry one level below the flattened entry that enqueued it (or at depth 0 for a root) keeps the ranking |
| Flattening.Finished | DiversityService/DiversityService.cs:96-111 | once the queue is empty, the flattened set has one entry per id, covers the roots, is closed under children, and is ranked from the roots: each non-root entry carries the group of an entry of smaller depth of which it is a child |
| Flattening.FinishedInherited | DiversityService/DiversityService.cs:101-108 | the loop's depths rank the flattened set from the roots: every entry is a root or a child of an entry of smaller depth whose group it carries |
| Flattening.EnqueueChildren | DiversityService/DiversityService.cs:101-108 | the queue afterwards is the queue followed by the parent's child entries |
| Flattening.Flatten | DiversityService/DiversityService.cs:92-111 | no two entries share an analysis id; every root is present; every child analysis of an entry is present; every entry descends from a root entry through a chain of entries of decreasing depth, each a child of the next and carrying its group |
| Flattening.RankedRootGroup | DiversityService/DiversityService.cs:101-108 | following a ranking down to depth 0 ends at a root entry with the same group |
| Flattening.InheritedRootGroup | DiversityService/DiversityService.cs:92-111 | every entry of the result carries the taxonomic group of a root entry of the result |
| Flattening.CyclesKeepRootGroup | DiversityService/DiversityService.cs:92-111 | a cycle below root 1 (group "A"), whether reachable from it or not, cannot carry a group other than "A" |
| Flattening.SharedSubtreeOnce | DiversityService/DiversityService.cs:92-111 | for a diamond (root 1 with children 2 and 3, both parents of 4), analysis 4 is present exactly once, with the root's group |
| Flattening.GetAnalysisTaxonomicGroupsForProject | DiversityService/DiversityService.cs:88-113 | a missing repository or failing query propagates; otherwise the flattening of the project's roots over its analyses, with the four properties above |
| Geometry.ReplaceChar | DiversityService/DiversityService.Upload.cs:170 | same length; every occurrence of the old character is the new one and every other character is kept |
| Geometry.WrittenAltitude | DiversityService/DiversityService.Upload.cs:176-182 | an altitude is written exactly when it has a value that is not NaN |
| Geometry.PointLiteral | DiversityService/DiversityService.Upload.cs:160-186 | empty exactly when latitude or longitude is missing or NaN; otherwise it starts with "POINT(" and ends with ")" |
| Geometry.SerializeLocalization | DiversityService/DiversityService.Upload.cs:160-186 | the string builder's result is the point literal |
| Geometry.PointRoundTrip | DiversityService/DiversityService.Upload.cs:166-185 | reading the literal back gives longitude first, then latitude, then the altitude if it is written |
| Geometry.PointHasAltitudeIff | DiversityService/DiversityService.Upload.cs:176-182 | the literal has three coordinates exactly when the altitude is written |
| Geometry.PairTexts | DiversityService/DiversityService.Upload.cs:154 | one "longitude latitude" text per localization, in order, without altitude |
| Geometry.LineStringBody | DiversityService/DiversityService.Upload.cs:153-155 | the text between the parentheses of a LINESTRING literal is its body |
| Geometry.SerializeLocalizations | DiversityService/DiversityService.Upload.cs:143-158 | empty exactly for no track or fewer than two distinct localizations; otherwise it starts with "LINESTRING(" and ends with ")" |
| Geometry.LineStringPieces | DiversityService/DiversityService.Upload.cs:153-155 | a LINESTRING literal over comma-free point texts reads back as those texts, in order, each split at its spaces |
| Geometry.LineStringRoundTrip | DiversityService/DiversityService.Upload.cs:146-155 | the literal reads back as one pair per distinct localization, in first-seen order, longitude first; there are as many pairs as distinct localizations |
| Upload.TransactionResult | DiversityService/DiversityService.Upload.cs:18-27 | a transaction returns its key exactly when every statement in it succeeds |
| Upload.GeographyUpdate | DiversityService/DiversityService.Upload.cs:22-24 | one UPDATE, of the given row in SRID 4326 with the literal, exactly when the literal is not blank |
| Upload.SetGeography | DiversityService/DiversityService.Upload.cs:43-46 | sends the geography update only for a non-blank literal and reports its failure |
| Upload.SeriesGeometry | DiversityService/DiversityService.Upload.cs:22-24 | the series' geography is written exactly when the track has two distinct points, as its LINESTRING |
| Upload.InsertEventSeries | DiversityService/DiversityService.Upload.cs:15-29 | returns the generated key, or the first failure; the log grows by the plan up to its first failure; the plan is committed only if all of it succeeded |
| Upload.LocalisationStatementsLength | DiversityService/DiversityService.Upload.cs:39-47 | one statement per localisation row, two when the literal is not blank |
| Upload.LocalisationRowsInserted | DiversityService/DiversityService.Upload.cs:39-42 | every localisation row is inserted |
| Upload.LocalisationUpdatesTargetRows | DiversityService/DiversityService.Upload.cs:43-46 | every geography update writes the event's literal in SRID 4326 to the row of one of the localisations |
| Upload.LocalisationStatementsShape | DiversityService/DiversityService.Upload.cs:39-47 | every localisation row is inserted, and every geography update writes the event's literal to the row of a localisation |
| Upload.LocalisationUpdatesIff | DiversityService/DiversityService.Upload.cs:39-47 | a localisation geography update is sent exactly when there is a row and a non-blank literal |
| Upload.InsertLocalisation | DiversityService/DiversityService.Upload.cs:41-46 | the row, then its geography; reports the first failure and sends nothing after it |
| Upload.InsertLocalisations | DiversityService/DiversityService.Upload.cs:39-47 | all localisation statements in order, up to the first failure, which is reported |
| Upload.PropertyStatements | DiversityService/DiversityService.Upload.cs:49-54 | one insert per property, in order, each stamped with the event's key; none for a null collection |
| Upload.InsertProperties | DiversityService/DiversityService.Upload.cs:49-54 | the property inserts in order, up to the first failure, which is reported |
| Upload.EventFollowUpStamped | DiversityService/DiversityService.Upload.cs:36-54 | after the localisation statements, each property is inserted with the event's key and otherwise as sent; geography is written exactly when the event has a position and localisation rows |
| Upload.InsertEventFollowUp | DiversityService/DiversityService.Upload.cs:38-54 | the localisation statements, then the properties, up to the first failure |
| Upload.InsertEvent | DiversityService/DiversityService.Upload.cs:31-60 | returns the generated key, or the first failure; the log grows by the plan up to its first failure; the plan is committed only if all of it succeeded |
| Upload.SpecimenStamped | DiversityService/DiversityService.Upload.cs:67-70 | after a successful insert of the specimen, its project row (with the caller's project) and agent row (with the caller's credentials) carry the specimen with the generated key |
| Upload.InsertSpecimen | DiversityService/DiversityService.Upload.cs:62-75 | returns the generated key, or the first failure; the log grows by the plan up to its first failure; the plan is committed only if all of it succeeded |
| Upload.AnalysisStatements | DiversityService/DiversityService.Upload.cs:93-99 | one insert per analysis, in order, each stamped with the unit's key and the unit's specimen key; none for a null collection |
| Upload.UnitFollowUpStamped | DiversityService/DiversityService.Upload.cs:82-99 | the stamped unit's identification and geo-analysis rows; the geography update exactly when the unit has a position, keyed by specimen and unit; then each analysis with the unit's and specimen's keys and otherwise as sent |
| Upload.InsertUnitRows | DiversityService/DiversityService.Upload.cs:83-91 | the identification, the geo-analysis and the geography, up to the first failure |
| Upload.InsertAnalyses | DiversityService/DiversityService.Upload.cs:93-99 | the analysis inserts in order, up to the first failure, which is reported |
| Upload.InsertIdentificationUnit | DiversityService/DiversityService.Upload.cs:77-105 | returns the generated key, or the first failure; the log grows by the plan up to its first failure; the plan is committed only if all of it succeeded |
| Upload.ImageTableFor | DiversityService/DiversityService.Upload.cs:113-133 | specimens and identification units share the specimen image table; series and events have their own; an undeclared owner type has none |
| Upload.MmoOutcome | DiversityService/DiversityService.Upload.cs:111-139 | an exception escapes exactly for an undeclared owner type (ArgumentException) or a failed insert whose exception is not a SqlException |
| Upload.InsertMMO | DiversityService/DiversityService.Upload.cs:107-141 | the outcome above; the image row is sent only for a declared owner type, and it is durable exactly when the insert succeeded |
| Lookups.WithDescription | DiversityService/DiversityService.cs:74-78 | a null project description becomes "No Description"; any other project is unchanged |
| Lookups.GetProjectsForUser | DiversityService/DiversityService.cs:65-86 | no projects for a blank repository name; an unknown repository escapes as ArgumentException, and only then is there an error; every project returned has a description |
| Lookups.ProjectsAsRead | DiversityService/DiversityService.cs:73-79 | when the query answers, one project per row in order: the description defaulted, the other columns as read |
| Lookups.WithQualifierText | DiversityService/DiversityService.cs:293-300 | a null or blank qualifier text becomes "no qualifier"; any other qualifier is unchanged; the result is never blank |
| Lookups.GetQualifications | DiversityService/DiversityService.cs:288-303 | fails exactly when the connection or the query fails; every qualifier returned has a non-blank text |
| Lookups.QualifierTextsIdempotent | DiversityService/DiversityService.cs:293-300 | defaulting the qualifier texts twice is the same as once |
| Lookups.GetRepositories | DiversityService/DiversityService.cs:309-317 | one entry per configured repository, in order, with its catalog as database and its name as display text |
| Lookups.ListedRepositoriesConnect | DiversityService/DiversityService.cs:309-317 | credentials naming any listed repository open a connection on the server of the first repository of that name |

## Left out

- SQL text, PetaPoco's `Query`/`ExecuteScalar`/`Insert`, and the `Diversity` connection
  are oracles. `Insert` is taken to return the generated key, which the model stamps into
  the inserted record. Opening a connection is the pure resolution `GetConnection`.
- The `Insert*` upload operations take the already opened connection. `login.GetConnection()`
  inside them is not modelled there; it is the same resolution `GetConnection` states.
- The conversions `GetLocalisations`, `GetProject`, `GetAgent`, `GetIdentification`,
  `GetGeoAnalysis` and the `To*Image` conversions are not part of this model. They are a
  parameter (`localisationsOf`) or row constructors carrying their inputs. `ToSpecimenImage`
  takes the connection, but the model does not record any query it issues.
- Formatting a double with "R" in the en-US culture is the uninterpreted parameter `fmt`.
  The `Replace(',', '.')` that follows it is modelled literally. The round-trip lemmas
  assume formatted coordinates contain no ' ' or ','.
- `Localization` equality in `Distinct` is equality of the coordinates' bit patterns, so
  `0.0` and `-0.0` count as different and a NaN equals itself.
- HashSet membership in the flattening is by analysis id, since `AnalysisTaxonomicGroup.Equals` is not part of this model.
- The two-argument `taxonListsForUser` of `GetTaxonListsForUser` is not part of this model.
  Its query is the oracle `taxonListsForLogin`, which returns the rows delivered before any
  failure, together with that failure. An eagerly read query delivers no rows before failing.
- The clock is the parameter `now`. Instants are 100-nanosecond ticks.
- Static configuration loading (XML, `MapPath`, static constructors), native assembly
  loading and all `Log()` calls are left out, as I/O and telemetry.
- `GetStandardVocabulary`, `DownloadTaxonList`, `ConnectToDBForList`, `GetUserInfo`,
  `ValidateLogin` and the other download and listing wrappers are left out. They are
  database plumbing with no logic beyond a query.
- Concurrency is left out: concurrent requests sharing the cache, and cache stampedes.
- `getDiversityModules`' contract precondition (a non-blank server id) is kept as a
  `requires`. The `db != null` precondition has no counterpart, since a connection
  object always exists here.
- `GetDiversityModules` runs the scan against the corrected cache key. The key as written
  is modelled separately, under Findings.

## Findings

| source | as written | input that shows it | evidently intended | confidence | as-written member | corrected member |
|---|---|---|---|---|---|---|
| DiversityService/DiversityService.Queries.cs:53 | the module cache key is `"{serverId}_{userId}_MODULES"`, joined by unescaped underscores | server "a_b" with user "c", and server "a" with user "b_c", both give "a_b_c_MODULES" and share one cache entry, so one user can be served the other's module map | one cache entry per (serverId, userId), as the comment at line 44 says | not executed; medium (needs an underscore in a server or user name) | ModuleDiscovery.CacheKeyAsWrittenCollides | ModuleDiscovery.ModulesCacheKeyInjective |
