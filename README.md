# Migration verification engine, modelled in Dafny

`verify_migration.py` checks that tenants and their users were migrated from a
source collection (`entity`) to a destination collection
(`provision-state-machine`, "PSM") for one environment and one cluster. The
script works in four stages:

1. It selects the provisioned source tenants of the environment and cluster,
   keeps their non-empty `tenant` ids and de-duplicates them in
   first-occurrence order.
2. For each tenant, it looks the tenant up in the destination, matching on
   `tenant_id` or `ftra_tenant_id`.
3. It turns every source user and every destination user into a
   `(kind, value)` key, using a different field-precedence rule on each side.
   It then compares the two key sets by size and lists the sorted source keys
   the destination lacks.
4. It emits one summary row per tenant and one row per missing user. It counts
   the tenants in error and exits with 0 when none is in error, or 2 otherwise.

The model replaces the database with in-memory sequences of documents. Each
document is a map from field name to an optional string; a source document is
represented by its `record` sub-document. The filters the script passes to
`find` and `find_one` become data (`Store.Query`): a filter is a conjunction of
equalities and of one OR of two equalities, with an explicit meaning
(`Store.Matches`). Modules:

- `Wrappers`: `Option`.
- `Store`: documents and field access. Also Python truthiness, `or` and
  `str()` of a field, the filter language, `find` (an order-preserving
  filter) and `find_one` (the first match). The order of a collection
  sequence stands for the order in which the server returns documents.
- `Text`: `strip`, `lower`, `bool_arg`, and the decimal rendering of counts.
- `Lex`: Python's code-point order on strings.
- `Keys`: the two key rules, key sets (also as the source's accumulating
  loop) and `sorted` on key tuples.
- `Queries`: the four filters the script builds.
- `Selection`: tenant id extraction and order-preserving de-duplication
  (also as a loop with a seen set).
- `Reconcile`: the per-tenant loop body and its properties.
- `Report`: the loop over tenants, the summary and missing-user rows, the
  error count and the exit code.

The model keeps the source's behaviour where it departs from its own comments
or from what a reader might expect:

- The email fallback kind is `"useremail"` for source users
  (verify_migration.py:95) and `"user_email"` for destination users
  (verify_migration.py:109). An email-keyed source user can therefore never be
  matched. The comment at verify_migration.py:137 says the kinds are `'id'` or
  `'email'`; the code never produces `'email'`. `Keys.SourceAndDestKeysMeetOnlyOnIds`
  and `Reconcile.EmailKeyedSourceUserIsMissing` state the consequence.
- `users_match` compares only the two counts (verify_migration.py:115). It can
  be YES while users are missing (`Reconcile.SameCountDifferentUsers`). The
  error rule still catches that case, so a tenant is free of errors exactly
  when it is found and both key sets are equal (`Reconcile.NoErrorIffSameKeys`).
- A missing email renders as the string `"None"` (`Store.Render`).

## Model

| member | source | states |
|---|---|---|
| Text.TrimStart | verify_migration.py:24 | the result is a suffix of the input, everything dropped is whitespace, and the result does not start with whitespace |
| Text.IsSpace | verify_migration.py:24 | definition: the characters `str.isspace()` accepts, which `strip()` removes |
| Text.TrimEnd | verify_migration.py:24 | the result is a prefix of the input, everything dropped is whitespace, and the result does not end with whitespace |
| Text.Strip | verify_migration.py:24 | neither end of a stripped string is whitespace, and it is empty exactly when the input is all whitespace |
| Text.Lower | verify_migration.py:24 | lower-casing keeps the length and maps every character through the ASCII lower-case map |
| Text.LowerChar | verify_migration.py:24 | definition: `lower()` of one character maps A-Z to a-z and leaves every other character as it is |
| Text.BoolArg | verify_migration.py:23-24 | definition: the flag is true exactly when its value, stripped and lower-cased, is one of "true", "1", "yes", "y" |
| Text.StripIgnoresPadding | verify_migration.py:24 | any whitespace added on either side of a string leaves its stripped form unchanged |
| Text.BoolArgIgnoresPadding | verify_migration.py:23-24 | the flag value reads the same with any surrounding whitespace |
| Text.BoolArgIgnoresCase | verify_migration.py:23-24 | the flag value reads the same after lower-casing its argument, so the accepted spellings are case-insensitive |
| Text.LowerIdempotent | verify_migration.py:24 | helper lemma: lower-casing twice equals lower-casing once |
| Text.DecimalString | verify_migration.py:126-127 | a rendered count is a non-empty digit string with no leading zero, and "0" for zero |
| Text.DecimalRoundTrip | verify_migration.py:126-127 | reading a rendered count back gives the count |
| Lex.Less | verify_migration.py:118 | definition: Python's `<` on strings, comparing code points from the left, with a proper prefix sorting first |
| Lex.LessIrreflexive | verify_migration.py:118 | no string sorts before itself |
| Lex.LessTransitive | verify_migration.py:118 | string order is transitive |
| Lex.LessTotal | verify_migration.py:118 | of two different strings one sorts before the other |
| Lex.LessAsymmetric | verify_migration.py:118 | two strings never sort before each other |
| Store.Truthy | verify_migration.py:92 | definition: a field value is truthy when it is present and not the empty string |
| Store.Render | verify_migration.py:95 | definition: `str()` of a field value is the string itself, or "None" when it is absent |
| Store.PyOr | verify_migration.py:92 | `a or b` is `a` when `a` is truthy and `b` otherwise, and it is truthy exactly when either operand is |
| Store.Get | verify_migration.py:92-93 | definition: reading a field gives its value, or None when the field is absent or null |
| Store.Holds | verify_migration.py:39-44 | definition: an equality condition holds when the field is present with that value, and an `$or` of two conditions when either holds |
| Store.Matches | verify_migration.py:64-72 | definition: a document matches a filter when every condition of the filter holds |
| Store.Find | verify_migration.py:85-88 | the found documents are exactly the documents of the collection that satisfy the filter |
| Store.FindOneDocument | verify_migration.py:85-88 | a single document is found exactly when it matches the filter |
| Store.FindAppend | verify_migration.py:85-88 | finding works document by document, so the found documents keep the collection's order |
| Store.FindOne | verify_migration.py:73-74 | a document comes back exactly when some document satisfies the filter, and it is one that does |
| Store.MatchesIgnoresUnmentioned | verify_migration.py:99-104 | changing a field that no condition of a filter mentions does not change whether a document matches |
| Queries.SourceTenantQuery | verify_migration.py:39-45 | a source document matches exactly when it is a tenant of the environment and cluster with status provisioned |
| Queries.DestTenantQuery | verify_migration.py:64-73 | a destination document matches exactly when it is a tenant of the environment and cluster whose `tenant_id` or `ftra_tenant_id` is the tenant |
| Queries.SourceUserQuery | verify_migration.py:77-83 | a source document matches exactly when it is a user of the environment and tenant and, only when the flag is on, of the cluster |
| Queries.DestUserQuery | verify_migration.py:99-103 | a destination document matches exactly when it is a user of the environment and tenant; the filter never mentions the cluster |
| Queries.IsProvisionedTenant | verify_migration.py:39-44 | definition: a source document is a tenant of the environment and cluster with status provisioned |
| Selection.TenantIdsOf | verify_migration.py:46 | the extracted ids are exactly the non-empty `tenant` values of the found documents |
| Selection.TenantIdsOfOne | verify_migration.py:46 | one document contributes its `tenant` when that is non-empty, and nothing otherwise |
| Selection.TenantIdsOfAppend | verify_migration.py:46 | extraction works document by document, so the ids follow the order of the found documents |
| Selection.CandidateIds | verify_migration.py:45-46 | definition: the non-empty tenant ids of the found provisioned source tenants, in found order, before de-duplication |
| Selection.Unique | verify_migration.py:47 | de-duplication yields a list without repetition and with the same members |
| Selection.FirstIndex | verify_migration.py:47 | the first position holding a value, with no earlier occurrence |
| Selection.UniqueKeepsFirstOccurrenceOrder | verify_migration.py:47 | the de-duplicated list orders its ids by their first occurrence in the input |
| Selection.Dedup | verify_migration.py:47 | the loop with a seen set computes the order-preserving de-duplication |
| Selection.SelectedTenants | verify_migration.py:39-47 | definition: the non-empty tenant ids of the found provisioned tenants, each once, in the order of first occurrence |
| Selection.SelectedTenantsExactly | verify_migration.py:39-47 | the selected ids have no repetition, are exactly the non-empty tenant ids of provisioned source tenants of the scope, and keep first-occurrence order |
| Keys.SourceKey | verify_migration.py:91-95 | the key is the `user` id if truthy, else the `username` id if truthy, else the rendered `useremail` under kind "useremail" |
| Keys.DestKey | verify_migration.py:107-109 | the key is the `user_id` id if truthy, else the rendered `user_email` under kind "user_email" |
| Keys.IdKeysAreNonEmpty | verify_migration.py:95 | an id-kind key always carries a non-empty value on either side |
| Keys.SourceAndDestKeysMeetOnlyOnIds | verify_migration.py:95 | an email-keyed source key equals no destination key, so source and destination keys can only agree as ids |
| Keys.KeySet | verify_migration.py:89-96 | the key set holds exactly the keys of the given documents and is no larger than their number |
| Keys.CollectKeys | verify_migration.py:105-110 | adding keys one document at a time yields the key set of all documents |
| Keys.KeyLessIrreflexive | verify_migration.py:118 | no key tuple sorts before itself |
| Keys.KeyLessTransitive | verify_migration.py:118 | tuple order is transitive |
| Keys.KeyLessTotal | verify_migration.py:118 | of two different key tuples one sorts before the other |
| Keys.KeyLess | verify_migration.py:118 | definition: Python's `<` on `(kind, value)` tuples, by kind first and then by value |
| Keys.LeastExists | verify_migration.py:118 | every non-empty key set has a least element |
| Keys.LeastUnique | verify_migration.py:118 | that least element is unique |
| Keys.SortedKeys | verify_migration.py:118 | sorting a key set yields a strictly ascending list of exactly its members, one per member |
| Reconcile.SourceUsers | verify_migration.py:77-88 | definition: the source documents matching the user filter of the tenant, with the cluster condition only when the flag is on |
| Reconcile.DestUsers | verify_migration.py:99-104 | definition: the destination documents matching the user filter of the tenant |
| Reconcile.SourceUserKeys | verify_migration.py:89-96 | definition: the set of source keys of those source users |
| Reconcile.DestUserKeys | verify_migration.py:105-110 | definition: the set of destination keys of those destination users |
| Reconcile.TenantInDest | verify_migration.py:73-74 | definition: the tenant is found when the destination tenant filter has a match |
| Reconcile.Reconciled | verify_migration.py:61-118 | definition: the tenant result holds the lookup, the two key-set sizes, their equality and the sorted difference of the key sets |
| Reconcile.HasError | verify_migration.py:142 | definition: a tenant is in error when it is not found, its counts differ or some source key is missing |
| Reconcile.ReconcileTenant | verify_migration.py:61-118 | the loop body yields the tenant lookup, both counts, the count comparison and the sorted difference for the tenant |
| Reconcile.TenantFoundIff | verify_migration.py:64-74 | the tenant is found exactly when some destination tenant document of the scope carries its id as `tenant_id` or `ftra_tenant_id` |
| Reconcile.MissingIsSortedDifference | verify_migration.py:113-118 | the missing list is ascending, holds exactly the source keys absent from the destination and is no longer than the source count |
| Reconcile.DifferenceBound | verify_migration.py:118 | helper lemma: a set difference is no larger than the set it is taken from |
| Reconcile.SubsetOfSameSize | verify_migration.py:113-118 | helper lemma: a subset as large as its superset equals it |
| Reconcile.NoErrorIffSameKeys | verify_migration.py:142 | a tenant is free of errors exactly when it is found and its source and destination key sets are equal |
| Reconcile.NoUsersOnEitherSide | verify_migration.py:113-118 | with no users on either side, both counts are zero, users match and nothing is missing |
| Reconcile.RequireClusterOnlyShrinks | verify_migration.py:82-83 | requiring the user cluster yields a subset of the source keys obtained without it, never a larger set |
| Reconcile.EmailKeyedSourceUserIsMissing | verify_migration.py:95-118 | every email-keyed source user is listed as missing and puts its tenant in error |
| Reconcile.DestUsersIgnoreCluster | verify_migration.py:99-103 | whether a destination user is counted does not depend on its `cluster_index` |
| Reconcile.SameCountDifferentUsers | verify_migration.py:115-118 | equal counts with different key sets give users_match YES yet a non-empty missing list and an error |
| Report.ErrorCount | verify_migration.py:141-143 | the error count is at most the number of tenants and is zero exactly when no tenant is in error |
| Report.ConfigOf | verify_migration.py:28-36 | definition: the run's scope is the environment and cluster given, and the user-cluster flag is `bool_arg` of its argument |
| Report.ResultsFor | verify_migration.py:61-118 | definition: one tenant result per selected id, in selection order |
| Report.Summaries | verify_migration.py:121-129 | definition: one summary row per tenant result, in the same order |
| Report.MissingRowsOf | verify_migration.py:131-139 | definition: one missing row per key of a tenant's missing list, in that list's order |
| Report.MissingRows | verify_migration.py:131-139 | definition: the missing rows of the tenants, tenant after tenant |
| Report.SummaryOf | verify_migration.py:121-129 | definition: a summary row carries the scope, the tenant, YES or NO for found, both counts in decimal and YES or NO for equal counts |
| Report.YesNo | verify_migration.py:125 | definition: a flag is written as "YES" when it holds and "NO" otherwise |
| Report.MissingRowOf | verify_migration.py:133-139 | definition: a missing row carries the scope, the tenant and the key's kind and value |
| Report.SummaryFields | verify_migration.py:157 | the dictionary of every summary row has exactly the summary header's columns as keys |
| Report.MissingFields | verify_migration.py:165-172 | the dictionary of every missing row has exactly the fixed empty-file header's columns as keys |
| Report.ErrorCountSnoc | verify_migration.py:142-143 | each further tenant adds one to the count exactly when it is in error |
| Report.SummariesSnoc | verify_migration.py:121-129 | each further tenant appends exactly its own summary row |
| Report.MissingRowsSnoc | verify_migration.py:131-139 | each further tenant appends exactly its own missing rows |
| Report.AppendMissing | verify_migration.py:132-139 | the inner loop appends one row per missing key, in the list's order |
| Report.Collect | verify_migration.py:61-143 | the tenant loop produces the summary rows, missing rows and error count of the tenants' results, in order |
| Report.NoErrorsIffAllReconciled | verify_migration.py:142-143 | the error count is zero exactly when every selected tenant is found and has equal key sets on both sides |
| Report.Run | verify_migration.py:45-182 | a run yields one summary row per selected tenant in order, the missing rows tenant by tenant, an error count bounded by the tenants, exit 2 on errors and 0 otherwise, and an empty outcome with exit 0 when nothing is selected |
| Report.SummaryDescribesTenant | verify_migration.py:121-129 | a summary row names its tenant, says YES or NO for found and for equal counts, and its counts read back as the key-set sizes |
| Report.MissingRowsConcat | verify_migration.py:131-139 | the missing rows of two tenant ranges are the rows of the first followed by those of the second |
| Report.MissingRowsMembers | verify_migration.py:131-139 | a row is a missing row exactly when it names a key of some tenant's missing list |
| Report.MissingRowsAreMissingUsers | verify_migration.py:131-139 | the missing rows are exactly the source keys of a selected tenant that the destination lacks, labelled with the scope and tenant |
| Report.MissingRowsOfTenantAscending | verify_migration.py:118-139 | one tenant's missing rows are in strictly ascending key order, one per missing key |

## Left out

- The MongoDB client, database and collection lookup (verify_migration.py:30-33). They become the `entity` and `psm` document sequences passed to `Report.Run`.
- The projections passed to `find` and `find_one` (verify_migration.py:45, 73, 87, 104). They are taken to choose only which fields come back. Server-side behaviour beyond that is not modelled; for instance, newer MongoDB servers reject a projection that names both `record` and a field inside it (lines 45 and 87).
- MongoDB matching of array-valued fields and of non-string values: fields hold strings or are absent.
- Failing store operations: the script has no handler, so an exception from the driver ends the run with a traceback and exit status 1. `Report.Run` assumes every query succeeds, and its exit code is only ever 0 or 2.
- Result order of `find`: a MongoDB `find` without a sort promises no order. The model takes the order of the collection sequence as the order the server returns, and the order of the selected tenants and of the summary rows follows it.
- Store.FindOne: returns the first matching document; the store may return any matching one, and only whether one exists is used.
- Store.Render: renders strings and absence ("None") only; `str()` of numbers or other values is not modelled.
- Source documents are their `record` sub-document. Every source filter is on `record.*` fields, so a document with no `record` never matches.
- Argument parsing (verify_migration.py:9-21). The arguments become the `Report.Args` value; connection string, database, collection and file names are not modelled.
- CSV writing (verify_migration.py:155-174). The rows, their dictionaries and the header columns (`Report.SummaryColumns`, `Report.MissingColumns`) are modelled, but no file is written and the order of dictionary keys is not kept.
- All console logging (verify_migration.py:50, 53, 146-152, 160, 168, 174, 178, 181).
- Text.Lower: lower-cases ASCII letters only. No other character lower-cases to a letter of the accepted words, so `bool_arg` is unaffected.
- The process exit through `sys.exit` (verify_migration.py:185): `Report.Run` returns the exit code in its outcome.
