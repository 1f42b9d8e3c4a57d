# Client listing and storage engine of mechanic-saas-core, in Dafny

This project models the part of the mechanic-saas-core API that lists, stores and validates clients:

- **Parsing the listing query.** `ListCriteriaParser` turns untyped query parameters into a `ListCriteria`. The allowed columns and page sizes come from `ListCriteriaConfig` and `ClientListCriteriaConfig`.
- **Value objects.** `ListCriteria`, `ListResult` and the `Client` entity.
- **The JSON client store.** `JsonClientRepository` is a class over an ordered id => row table:
  - `findById` looks a row up; `findByDocument`, which the class lacks (see Findings), is modelled as a stand-in from the interface's description;
  - `findAll` filters, searches, counts, sorts and slices;
  - `save` inserts with `max(id) + 1` or updates in place;
  - `delete` is a soft delete.
- **The MySQL listing text.** The `WHERE` / `ORDER BY` text and the bound parameters that `MySQLClientRepository::findAll` builds.
- **The service.** `ClientService` runs the use cases over the JSON repository and refuses a document already held by another active client.
- **Validators.** `ClientRequestValidator` and `LoginRequestValidator` check request bodies.
- **Users.** `JsonUserRepository` is the read-only user store, looked up by e-mail without regard to ASCII case.
- **CORS.** `CorsMiddleware` covers the origin check, the merged `Access-Control-Allow-Headers` list and the preflight branch.

PHP arrays are ordered maps. They are modelled as sequences of (key, value) pairs with distinct keys:

- `Put` is `$a[$k] = $v`: it replaces the value in place, or appends the pair.
- `PutAll` assigns a sequence of pairs in turn.
- `Dedup` is `array_unique`.
- `Slice` is `array_slice`.

The PHP string built-ins the code relies on are written out in `Strings`: `trim`, `strtolower`/`strtoupper`, `explode`/`implode`, the `(int)` cast, `preg_replace('/\D/', '', …)` and `strcmp`. Time is never read: every operation that stamps a time takes `now` as a parameter. The storage file is an input datatype (`StoreFile`: missing, undecodable, or a list of entries), and the repository keeps the decoded table in a field.

Modules:

| file | module | models |
|---|---|---|
| wrappers.dfy | Wrappers | `Option`, `Result` |
| sequences.dfy | Sequences | distinctness, first index, counting, `array_unique` |
| strings.dfy | Strings | PHP string built-ins |
| php_arrays.dfy | PhpArrays | ordered maps (PHP arrays), `array_slice`, `max` |
| domain_common.dfy | DomainCommon | `ListCriteria`, `ListResult` |
| criteria_config.dfy | CriteriaConfig | `ListCriteriaConfig` |
| client_criteria_config.dfy | ClientCriteriaConfig | `ClientListCriteriaConfig` |
| list_criteria_parser.dfy | ListCriteriaParser | `ListCriteriaParser` |
| domain_models.dfy | DomainModels | `Client`, `User` |
| json_store.dfy | JsonStore | `loadData` / `saveData` shared by the JSON repositories |
| json_client_repo.dfy | JsonClientRepo | `JsonClientRepository` |
| mysql_client_query.dfy | MySqlClientQuery | the query text of `MySQLClientRepository::findAll` |
| client_services.dfy | ClientServices | `ClientService` |
| request_body.dfy | RequestBody | the parsed JSON body, `isset`, the `(string)` cast |
| client_request_validator.dfy | ClientRequestValidator | `ClientRequestValidator` |
| login_request_validator.dfy | LoginRequestValidator | `LoginRequestValidator` |
| json_user_repo.dfy | JsonUserRepo | `JsonUserRepository` |
| cors.dfy | Cors | `CorsMiddleware` |

## Model

| member | source | states |
|---|---|---|
| CriteriaConfig.WithDefaults | src/Application/Request/ListCriteriaConfig.php:17-25 | With only the whitelists given, the limits are 200 and 10 and the default sort is `id` ascending, alone |
| CriteriaConfig.ConstructorChecksNothing | src/Application/Request/ListCriteriaConfig.php:17-25 | The constructor accepts a default page size above the maximum and a default sort on a non-sortable column |
| ClientCriteriaConfig.ClientConfig | src/Application/Request/ClientListCriteriaConfig.php:13-26 | Searchable columns are name, document, phone; `type` is the only filterable column; `deleted_at` is not sortable; limits 200/10; the configuration is consistent (default page size within the maximum, default sort sortable) |
| ClientCriteriaConfig.ClientSortable | src/Application/Request/ClientListCriteriaConfig.php:14 | A column is sortable iff it is one of the seven listed |
| DomainCommon.Offset | src/Domain/Common/ListCriteria.php:51-54 | The offset exists iff `page - 1` and `(page - 1) * perPage` fit in PHP's 64-bit int (otherwise the `int` return throws under strict types). It then fits, is non-negative for a page of at least 1, is a multiple of the page size, and divided by it gives `page - 1` |
| DomainCommon.OffsetOverflows | src/Domain/Common/ListCriteria.php:51-54 | Page 5·10^16 with 200 per page has no offset: the product leaves PHP's int range |
| DomainCommon.ResultToArray | src/Domain/Common/ListResult.php:43-51 | The array has exactly the keys items, total, page, per_page in that order, and `per_page` holds the page size |
| DomainCommon.ResultToArrayRoundTrip | src/Domain/Common/ListResult.php:43-51 | Every field of the result can be read back from its array form |
| DomainModels.NewClient | src/Domain/Models/Client.php:9-19 | A client built without timestamps has all three null |
| DomainModels.ToArray | src/Domain/Models/Client.php:61-73 | Exactly the eight keys in order; name, phone, type and document copied verbatim; each null field maps to null and only those |
| DomainModels.ToArrayRoundTrip | src/Domain/Models/Client.php:61-73 | The client can be read back from its array form |
| ListCriteriaParser.SortToken | src/Application/Request/ListCriteriaParser.php:47-57 | A token is dropped iff it is blank; a token without `:` is the column itself with `asc`; a kept token's direction is `asc` or `desc` |
| ListCriteriaParser.SortTokenSplit | src/Application/Request/ListCriteriaParser.php:52-54 | A token with a colon is split at its first colon; the column is the trimmed left part and the direction is read from the trimmed right part |
| ListCriteriaParser.Direction | src/Application/Request/ListCriteriaParser.php:54 | The direction is `desc` iff the given one lowercases to `desc`, and `asc` otherwise |
| ListCriteriaParser.SortPairs | src/Application/Request/ListCriteriaParser.php:46-61 | Every surviving pair has a sortable column and an `asc`/`desc` direction; there are never more pairs than tokens |
| ListCriteriaParser.SortPairsMembers | src/Application/Request/ListCriteriaParser.php:46-61 | A pair is produced iff some token, trimmed, is non-blank and names a sortable column, and it is that token's pair |
| ListCriteriaParser.SortPairsAppend | src/Application/Request/ListCriteriaParser.php:46-61 | The pairs of two runs of tokens are the pairs of the first run followed by those of the second, so pairs follow token order |
| ListCriteriaParser.SortPairsOne | src/Application/Request/ListCriteriaParser.php:47-60 | A single token yields its pair when it survives with a sortable column, and nothing otherwise |
| ListCriteriaParser.SortEntry | src/Application/Request/ListCriteriaParser.php:47-60 | One pass of the loop assigns the token's pair when the token survives with a sortable column, and leaves the map unchanged otherwise |
| ListCriteriaParser.ParseSort | src/Application/Request/ListCriteriaParser.php:40-63 | The loop builds the map obtained by assigning the surviving pairs one by one to an empty array |
| ListCriteriaParser.SplitToken | src/Application/Request/ListCriteriaParser.php:51-57 | The column and direction computed in place agree with the token reading |
| ListCriteriaParser.SortSpecSortable | src/Application/Request/ListCriteriaParser.php:40-63 | The sort map has each column once, every column sortable, every direction `asc` or `desc` |
| ListCriteriaParser.SortSpecOrder | src/Application/Request/ListCriteriaParser.php:46-61 | Columns appear in the order of their first token, and each carries the direction of its last token |
| ListCriteriaParser.SortSpecEmpty | src/Application/Request/ListCriteriaParser.php:42-62 | The sort map is empty iff the parameter is empty or no token survives |
| ListCriteriaParser.NestedPairs | src/Application/Request/ListCriteriaParser.php:70-80 | Every nested filter entry kept names a filterable column; there are never more pairs than entries |
| ListCriteriaParser.NestedPairsMembers | src/Application/Request/ListCriteriaParser.php:72-79 | A pair is kept iff some entry has a string key naming a filterable column and a scalar value, and it is that entry's key and value |
| ListCriteriaParser.NestedPairsAppend | src/Application/Request/ListCriteriaParser.php:72-79 | The pairs of two runs of entries are those of the first run followed by those of the second, so pairs follow entry order |
| ListCriteriaParser.FlatFoldGet | src/Application/Request/ListCriteriaParser.php:81-89 | The flat pass never overrides an existing entry and adds a column exactly when it is listed, not reserved and set as a scalar |
| ListCriteriaParser.FilterLookup | src/Application/Request/ListCriteriaParser.php:67-91 | A nested `filter[col]` entry wins (its last occurrence); otherwise a flat `col=` parameter of a filterable, non-reserved column; otherwise absent. A reserved name is only ever taken from the nested array |
| ListCriteriaParser.FilterKeysFilterable | src/Application/Request/ListCriteriaParser.php:67-91 | The filter map has each key once and every key is filterable |
| ListCriteriaParser.FlatFoldKeys | src/Application/Request/ListCriteriaParser.php:82-88 | The flat pass only adds keys from the filterable columns |
| ListCriteriaParser.FlatFoldIsMap | src/Application/Request/ListCriteriaParser.php:82-88 | The flat pass keeps each key once |
| ListCriteriaParser.ParseFilter | src/Application/Request/ListCriteriaParser.php:67-91 | The two loops build the filter map described by `FilterLookup` |
| ListCriteriaParser.Parse | src/Application/Request/ListCriteriaParser.php:16-37 | The criteria the parser returns are those of the specification function whose properties follow |
| ListCriteriaParser.Parsed | src/Application/Request/ListCriteriaParser.php:16-37 | The criteria have a page of at least 1, a page size of at most the maximum, and the filter map that `parseFilter` builds |
| ListCriteriaParser.ParsedPage | src/Application/Request/ListCriteriaParser.php:20 | The page is at least 1 and at most PHP_INT_MAX; a missing page gives 1; a page casting to 0 or less gives 1; a page casting to at least 1 is kept |
| ListCriteriaParser.ParsedPerPage | src/Application/Request/ListCriteriaParser.php:21-22 | The page size never exceeds the maximum and is at least 1 when the maximum is; a missing one gives the default (under a consistent configuration); one casting to 0 or less gives 1; one within range is kept; one above the maximum gives the maximum |
| ListCriteriaParser.UnparseablePerPage | src/Application/Request/ListCriteriaParser.php:21-22 | A page size of `abc` gives 1, not the default |
| ListCriteriaParser.ParsedSearch | src/Application/Request/ListCriteriaParser.php:24 | A missing search gives `''`; a string search gives that string trimmed; an array gives `Array`; the search never has surrounding whitespace |
| ListCriteriaParser.ParsedSort | src/Application/Request/ListCriteriaParser.php:26-32 | The sort is the map read from the trimmed `sort` parameter when that map is non-empty and the default otherwise, so a missing parameter gives the default; it is the default or a non-empty map of sortable columns with `asc`/`desc`, always the latter under a consistent configuration |
| ListCriteriaParser.ParsedFilter | src/Application/Request/ListCriteriaParser.php:34 | The filter has each key once and only filterable keys |
| JsonStore.LoadData | src/Infrastructure/Persistence/JsonClientRepository.php:26-44 | The loop builds the table obtained by assigning every entry that has an id, in file order; a missing or undecodable file gives an empty table |
| JsonStore.LoadedIsMap | src/Infrastructure/Persistence/JsonClientRepository.php:37-43 | A loaded table has each id once |
| JsonStore.LoadedLookup | src/Infrastructure/Persistence/JsonClientRepository.php:38-42 | The row stored for an id is that of its last entry; ids are listed in the order of their first entry |
| JsonStore.LoadWritten | src/Infrastructure/Persistence/JsonClientRepository.php:46-53 | Writing a table with `array_values` and loading it back gives the same table |
| JsonClientRepo.RowToClient | src/Infrastructure/Persistence/JsonClientRepository.php:164-176 | The client has the row's id, and a null deletion time exactly when the row is not soft-deleted |
| JsonClientRepo.Lookup | src/Infrastructure/Persistence/JsonClientRepository.php:55-63 | A client is found iff the id is stored and its row is not soft-deleted, and it is that row's client |
| JsonClientRepo.DocumentOwner | src/Domain/Repositories/ClientRepositoryInterface.php:15-16 | Nothing is found iff no active row has the document under another id; otherwise it is the client of the first such row in store order |
| JsonClientRepo.Select | src/Infrastructure/Persistence/JsonClientRepository.php:68-86 | A row is kept iff it is in the input and passes the test; never more rows than the input |
| JsonClientRepo.SelectAppend | src/Infrastructure/Persistence/JsonClientRepository.php:68-86 | Filtering two runs of rows gives the kept rows of the first followed by those of the second, so kept rows stay in input order |
| JsonClientRepo.FilterAll | src/Infrastructure/Persistence/JsonClientRepository.php:82-86 | Applying the filters keeps only input rows and never more of them |
| JsonClientRepo.FilterAllMembers | src/Infrastructure/Persistence/JsonClientRepository.php:82-86 | A row survives the filters iff every filter column is set and string-equal to its value |
| JsonClientRepo.MatchingMembers | src/Infrastructure/Persistence/JsonClientRepository.php:67-89 | A row is counted iff it is stored, not soft-deleted, matches the lowercased search in name, document or phone (when searching) and passes every filter |
| JsonClientRepo.Matching | src/Infrastructure/Persistence/JsonClientRepository.php:67-88 | The counted rows are stored rows that are not soft-deleted, never more than the table holds |
| JsonClientRepo.CompareByAntisymmetric | src/Infrastructure/Persistence/JsonClientRepository.php:93-103 | Swapping the two rows negates the comparison |
| JsonClientRepo.CompareValues | src/Infrastructure/Persistence/JsonClientRepository.php:95-97 | Two numeric cells compare by value: below, equal or above exactly as their numbers are. Any other pair compares as `strcmp` of the two texts. The result is -1, 0 or 1 |
| JsonClientRepo.SortValue | src/Infrastructure/Persistence/JsonClientRepository.php:95-96 | A row's sort value is its cell for the column, or the empty text when the column is missing |
| JsonClientRepo.CompareBy | src/Infrastructure/Persistence/JsonClientRepository.php:93-103 | Comparing two rows gives -1, 0 or 1 |
| JsonClientRepo.CompareByFirstDifference | src/Infrastructure/Persistence/JsonClientRepository.php:94-101 | The first sort key on which two rows differ decides, negated for `desc` |
| JsonClientRepo.CompareByTie | src/Infrastructure/Persistence/JsonClientRepository.php:94-102 | Two rows tie iff every sort key compares equal |
| JsonClientRepo.ComparisonCycle | src/Infrastructure/Persistence/JsonClientRepository.php:97 | The single-column comparison has a cycle (`9` < `10` < `1a` < `9`), so it is not an order |
| JsonClientRepo.InsertOrdered | src/Infrastructure/Persistence/JsonClientRepository.php:93-103 | Inserting a row into a sequence in comparator order keeps it in order |
| JsonClientRepo.Insert | src/Infrastructure/Persistence/JsonClientRepository.php:93-103 | Inserting adds exactly the one row: the result is the input plus the row as a multiset, and it ends with the row or with the input's last row |
| JsonClientRepo.SortRowsOrdered | src/Infrastructure/Persistence/JsonClientRepository.php:92-104 | The sorted rows are a permutation of the input, each comparing at most equal to the next |
| JsonClientRepo.SortRows | src/Infrastructure/Persistence/JsonClientRepository.php:92-104 | The sorted rows are a permutation of the input |
| JsonClientRepo.TotalIgnoresPage | src/Infrastructure/Persistence/JsonClientRepository.php:88-89 | Where both offsets fit, the total is the number of counted rows and does not depend on the page or page size |
| JsonClientRepo.FindAllSpec | src/Infrastructure/Persistence/JsonClientRepository.php:65-112 | The listing fails iff `(page - 1) * perPage` leaves PHP's int range; otherwise its total is the number of counted rows and it carries the page and page size asked for |
| JsonClientRepo.OverflowingPageFails | src/Infrastructure/Persistence/JsonClientRepository.php:108 | Page 5·10^16 with 200 per page makes the listing fail |
| JsonClientRepo.PageLength | src/Infrastructure/Persistence/JsonClientRepository.php:106-111 | Where the offset fits, the page holds `min(perPage, max(0, total - offset))` clients, taken in order from position `offset` of the sorted rows |
| JsonClientRepo.PageItemsCounted | src/Infrastructure/Persistence/JsonClientRepository.php:106-111 | Every listed client of a listing that does not fail comes from a counted row, has an id and no deletion time |
| JsonClientRepo.NextId | src/Infrastructure/Persistence/JsonClientRepository.php:120 | The new id is greater than every stored id, soft-deleted ones included, so it is fresh; it is 1 for an empty table and one more than a stored id otherwise |
| JsonClientRepo.AfterSave | src/Infrastructure/Persistence/JsonClientRepository.php:114-150 | A save keeps each id once, and the id saved under then holds the saved row |
| JsonClientRepo.SaveInsert | src/Infrastructure/Persistence/JsonClientRepository.php:119-134 | An insert appends one row under the new id, with both timestamps `now` and no deletion time; no other row changes |
| JsonClientRepo.SaveUpdate | src/Infrastructure/Persistence/JsonClientRepository.php:136-149 | An update overwrites the id's row in place, or appends it when absent. It keeps the stored creation time, or sets it to `now` when the row is absent or its creation time is null; it sets the update time to `now` and clears the deletion time. No other row changes |
| JsonClientRepo.SaveThenFind | src/Infrastructure/Persistence/JsonClientRepository.php:114-150 | After a save, the id saved under finds the saved row, even one that had been soft-deleted |
| JsonClientRepo.TimestampNotEmpty | src/Infrastructure/Persistence/JsonClientRepository.php:158 | A formatted time is never empty in PHP's sense |
| JsonClientRepo.DeleteEffect | src/Infrastructure/Persistence/JsonClientRepository.php:152-161 | A delete keeps every id and every other row; the row becomes the old row with deletion time `now`, is then no longer found, and cannot be deleted again |
| JsonClientRepo.AfterDelete | src/Infrastructure/Persistence/JsonClientRepository.php:152-161 | A delete keeps every id, and changes nothing when the row is missing or already deleted |
| JsonClientRepo.DefinedMethodsMissFindByDocument | src/Infrastructure/Persistence/JsonClientRepository.php:12-161 | The class defines `findById`, `findAll`, `save` and `delete` but not `findByDocument`, so it does not implement the interface it names |
| JsonClientRepo.JsonClientRepository.constructor | src/Infrastructure/Persistence/JsonClientRepository.php:26-44 | The table is the loaded file, each id once |
| JsonClientRepo.JsonClientRepository.FindById | src/Infrastructure/Persistence/JsonClientRepository.php:55-63 | Answers as `Lookup` |
| JsonClientRepo.JsonClientRepository.FindByDocument | src/Domain/Repositories/ClientRepositoryInterface.php:15-16 | The scan answers as `DocumentOwner`: the first accepted row in store order |
| JsonClientRepo.JsonClientRepository.FindAll | src/Infrastructure/Persistence/JsonClientRepository.php:65-112 | Fails exactly where the listing fails (the offset overflows); otherwise answers the page and total described by `MatchingMembers`, `SortRowsOrdered`, `TotalIgnoresPage` and `PageLength` |
| JsonClientRepo.JsonClientRepository.Save | src/Infrastructure/Persistence/JsonClientRepository.php:114-150 | The new table and the returned client are those of `SaveInsert` / `SaveUpdate`; ids stay distinct |
| JsonClientRepo.JsonClientRepository.Delete | src/Infrastructure/Persistence/JsonClientRepository.php:152-161 | Answers true iff the row is stored and not yet deleted, with the new table of `DeleteEffect` |
| MySqlClientQuery.WhereClause | src/Infrastructure/Persistence/MySQLClientRepository.php:31-48 | The two loops collect the conditions and parameters in order: not-deleted first, the search group, then one per filter entry |
| MySqlClientQuery.OrderClause | src/Infrastructure/Persistence/MySQLClientRepository.php:57-61 | The loop builds one `` `col` ASC/DESC `` part per sort entry, in order; `id ASC` for an empty sort |
| MySqlClientQuery.BuildQuery | src/Infrastructure/Persistence/MySQLClientRepository.php:29-67 | There is a query iff the offset fits PHP's int. The count query and the page query then share the `WHERE` text and parameters, and the page parameters end with the page size and the offset |
| MySqlClientQuery.WhereStartsWithNotDeleted | src/Infrastructure/Persistence/MySQLClientRepository.php:31 | The `WHERE` text always begins with `deleted_at IS NULL` |
| MySqlClientQuery.SearchGroupCount | src/Infrastructure/Persistence/MySQLClientRepository.php:34-41 | The search group has one `?` per search column |
| MySqlClientQuery.FilterConditionsCount | src/Infrastructure/Persistence/MySQLClientRepository.php:43-48 | The filter conditions have one `?` per filter entry when no column name holds a `?` |
| MySqlClientQuery.WherePlaceholders | src/Infrastructure/Persistence/MySQLClientRepository.php:31-50 | The `WHERE` text has exactly one `?` per `WHERE` parameter |
| MySqlClientQuery.OrderPlaceholders | src/Infrastructure/Persistence/MySQLClientRepository.php:57-61 | The `ORDER BY` list has no `?` |
| MySqlClientQuery.SelectPrefixCount | src/Infrastructure/Persistence/MySQLClientRepository.php:52 | The fixed heads of both statements have no `?` |
| MySqlClientQuery.PageCount | src/Infrastructure/Persistence/MySQLClientRepository.php:65-67 | The page statement's `?`s are those of its parts plus the two of `LIMIT ? OFFSET ?` |
| MySqlClientQuery.StatementCounts | src/Infrastructure/Persistence/MySQLClientRepository.php:52-66 | The count statement adds no `?` to the `WHERE` text; the page statement adds the two of `LIMIT ? OFFSET ?` |
| MySqlClientQuery.QueryPlaceholders | src/Infrastructure/Persistence/MySQLClientRepository.php:50-68 | Both statements have exactly as many `?` as parameters bound to them |
| ClientServices.ClientService.constructor | src/Domain/Services/ClientService.php:15-18 | The service works on the repository it is given |
| ClientServices.ClientService.GetById | src/Domain/Services/ClientService.php:20-23 | Answers as the repository's `findById` |
| ClientServices.ClientService.List | src/Domain/Services/ClientService.php:25-28 | Answers as the repository's `findAll`, failing where it fails |
| ClientServices.ClientService.Create | src/Domain/Services/ClientService.php:30-37 | The new table and the answer are those of `CreateEffect` |
| ClientServices.ClientService.Update | src/Domain/Services/ClientService.php:39-58 | The new table and the answer are those of `UpdateEffect` |
| ClientServices.ClientService.Delete | src/Domain/Services/ClientService.php:60-63 | Answers and changes the table as the repository's `delete` |
| ClientServices.CreateEffect | src/Domain/Services/ClientService.php:30-37 | Create fails iff an active client holds the document, and then nothing changes. Otherwise the client is stored under a fresh id with the given fields and both timestamps `now`, and is found by that id |
| ClientServices.UpdateEffect | src/Domain/Services/ClientService.php:39-58 | A missing or deleted client gives null and no change. A document held by another active client gives the exception and no change. Otherwise the same id is kept with the new fields, the stored creation time and update time `now` |
| ClientServices.CreateKeepsDocumentsUnique | src/Domain/Services/ClientService.php:30-37 | Create keeps every document held by at most one active client |
| ClientServices.UpdateKeepsDocumentsUnique | src/Domain/Services/ClientService.php:39-58 | Update keeps every document held by at most one active client |
| ClientServices.DeleteKeepsDocumentsUnique | src/Domain/Services/ClientService.php:60-63 | Delete keeps every document held by at most one active client |
| RequestBody.StringCast | src/Application/Request/ClientRequestValidator.php:62 | A string casts to itself; another value casts to `''` iff it is null or false |
| RequestBody.FieldText | src/Application/Request/ClientRequestValidator.php:62 | An unset or null field reads as `''`; a string field reads as itself |
| ClientRequestValidator.NameError | src/Application/Request/ClientRequestValidator.php:60-67 | The name is an error iff it is empty |
| ClientRequestValidator.PhoneError | src/Application/Request/ClientRequestValidator.php:70-82 | The phone passes iff it has 10 or 11 digits; the "required" message iff it is empty |
| ClientRequestValidator.TypeError | src/Application/Request/ClientRequestValidator.php:85-92 | The type passes iff it is exactly `PF` or `PJ` |
| ClientRequestValidator.DocumentError | src/Application/Request/ClientRequestValidator.php:95-108 | An empty document is always an error. Otherwise it needs 11 digits for `PF` and 14 for `PJ`, and passes for any other type |
| ClientRequestValidator.ValidateName | src/Application/Request/ClientRequestValidator.php:60-67 | Returns the trimmed name and appends its message, if any |
| ClientRequestValidator.ValidatePhone | src/Application/Request/ClientRequestValidator.php:70-82 | Returns the digits of the trimmed phone and appends its message, if any |
| ClientRequestValidator.ValidateType | src/Application/Request/ClientRequestValidator.php:85-92 | Returns the trimmed, upper-cased type and appends its message, if any |
| ClientRequestValidator.ValidateDocument | src/Application/Request/ClientRequestValidator.php:95-108 | Returns the digits of the document and appends its message, if any |
| ClientRequestValidator.Validate | src/Application/Request/ClientRequestValidator.php:35-57 | The answer is the one described by `ErrorsInFieldOrder` and `ValidData` |
| ClientRequestValidator.ValidateCreate | src/Application/Request/ClientRequestValidator.php:19-26 | A body that is not an array gives exactly the one "invalid body" error; an array is validated |
| ClientRequestValidator.ValidateUpdate | src/Application/Request/ClientRequestValidator.php:29-32 | The same answers as `ValidateCreate` |
| ClientRequestValidator.ErrorsInFieldOrder | src/Application/Request/ClientRequestValidator.php:35-57 | Valid iff every field check passes; otherwise 1 to 4 errors, at most one per field, in the order name, phone, type, document |
| ClientRequestValidator.MessagesInFieldOrder | src/Application/Request/ClientRequestValidator.php:39-42 | One optional message per field, appended in field order, are in strictly increasing field order |
| ClientRequestValidator.ValidData | src/Application/Request/ClientRequestValidator.php:48-56 | Valid data has a non-empty trimmed name, a phone of 10 or 11 digits, type `PF` or `PJ`, and a document of digits only, 11 long for `PF` and 14 for `PJ` |
| ClientRequestValidator.InvalidTypeChecksOnlyEmptiness | src/Application/Request/ClientRequestValidator.php:99-105 | With an invalid type the last error is the document-required one when the document is empty, and otherwise the type error |
| LoginRequestValidator.Validate | src/Application/Request/LoginRequestValidator.php:12-35 | The answer is the one described by `LoginOutcome` |
| LoginRequestValidator.LoginOutcome | src/Application/Request/LoginRequestValidator.php:12-35 | A non-array body gives exactly one error. Otherwise the answer is valid iff e-mail and password are both non-empty, and then carries the trimmed e-mail and the password as sent. Otherwise it has 1 or 2 errors, e-mail first, password last |
| JsonUserRepo.RowToUser | src/Infrastructure/Persistence/JsonUserRepository.php:54-62 | The user has the row's id, e-mail and hash; a creation time only when it is set and not empty |
| JsonUserRepo.EmailOwner | src/Infrastructure/Persistence/JsonUserRepository.php:42-51 | Nothing iff no row has the e-mail up to ASCII case; otherwise the user of the first such row |
| JsonUserRepo.JsonUserRepository.constructor | src/Infrastructure/Persistence/JsonUserRepository.php:22-40 | The table is the loaded file, each id once |
| JsonUserRepo.JsonUserRepository.FindByEmail | src/Infrastructure/Persistence/JsonUserRepository.php:42-51 | The scan answers as `EmailOwner` |
| JsonUserRepo.FoundUserMatches | src/Infrastructure/Persistence/JsonUserRepository.php:45-47 | The user found has the e-mail asked for up to ASCII case and is stored under its id |
| Cors.DefaultConfig | src/Application/Middleware/CorsMiddleware.php:15-39 | The default middleware allows the four local origins, no extra headers and a max age of 86400 |
| Cors.RequestOrigin | src/Application/Middleware/CorsMiddleware.php:43 | A missing or falsy `Origin` header counts as `*`; the origin is never empty |
| Cors.ResolveOrigin | src/Application/Middleware/CorsMiddleware.php:55-61 | `''` and `*` give `*`; any other origin is echoed iff it is on the allow-list, and `*` otherwise |
| Cors.TrimAll | src/Application/Middleware/CorsMiddleware.php:79 | Each header name is trimmed, in place |
| Cors.DropFalsy | src/Application/Middleware/CorsMiddleware.php:79 | Exactly the names that are neither `''` nor `'0'` are kept, never more names than given |
| Cors.DropFalsyAppend | src/Application/Middleware/CorsMiddleware.php:79 | Dropping from two runs of names gives the kept names of the first followed by those of the second, so kept names stay in order |
| Cors.AllowedHeaderList | src/Application/Middleware/CorsMiddleware.php:77-82 | The merged header list names each header once |
| Cors.AllowedHeaderListContents | src/Application/Middleware/CorsMiddleware.php:77-82 | Each header is named once. The list holds exactly the non-empty trimmed configured names and the extra ones. Configured names come before new extra ones |
| Cors.WithHeader | src/Application/Middleware/CorsMiddleware.php:66-71 | The header gets the value; the status and every other header are unchanged |
| Cors.HeaderNamesDistinct | src/Application/Middleware/CorsMiddleware.php:66-71 | The four CORS header names are pairwise different |
| Cors.WithCorsHeaders | src/Application/Middleware/CorsMiddleware.php:63-75 | The three Allow headers are set. Max-Age is set only on a preflight. The status and every other header are unchanged |
| Cors.Process | src/Application/Middleware/CorsMiddleware.php:41-53 | The handler runs iff the method is not `OPTIONS`. A preflight answers 200 with Max-Age and no header besides the four CORS ones. Every answer carries the resolved origin, the methods and the merged headers. A handled answer keeps its status and its other headers |
| Sequences.Dedup | src/Application/Middleware/CorsMiddleware.php:80 | `array_unique` keeps each value once, loses none and adds none |
| Sequences.DedupOrder | src/Application/Middleware/CorsMiddleware.php:80 | `array_unique` keeps the order of first occurrences |
| PhpArrays.Put | src/Application/Request/ListCriteriaParser.php:59 | Assigning a key replaces its value in place or appends it; every other key is unchanged |
| PhpArrays.PutAllGet | src/Application/Request/ListCriteriaParser.php:59 | After several assignments a key holds its last assigned value |
| PhpArrays.PutAllKeys | src/Application/Request/ListCriteriaParser.php:59 | After several assignments the keys are in the order of their first assignment |
| PhpArrays.Slice | src/Infrastructure/Persistence/JsonClientRepository.php:108 | `array_slice` takes up to `length` elements from `offset`, none past the end |
| PhpArrays.MaxOf | src/Infrastructure/Persistence/JsonClientRepository.php:120 | The maximum is one of the values and at least each of them |
| Strings.Trim | src/Application/Request/ClientRequestValidator.php:62 | The trimmed text is the input with its leading whitespace run and its trailing whitespace removed: it is the input's characters from the first non-whitespace one on, everything after it is whitespace, neither end is whitespace, and it is empty iff the input is all whitespace |
| Strings.TrimIdempotent | src/Application/Request/ListCriteriaParser.php:24 | Trimming twice is trimming once |
| Strings.DigitsOnly | src/Application/Request/ClientRequestValidator.php:73 | Only digits remain, never more characters than the input; a string of digits is kept whole and a string without digits becomes empty |
| Strings.DigitsOnlyAppend | src/Application/Request/ClientRequestValidator.php:73 | Stripping two pieces of a string strips each one and joins them, so every digit is kept in its place |
| Strings.Strcmp | src/Infrastructure/Persistence/JsonClientRepository.php:97 | `strcmp` is 0 iff the strings are equal, and negative iff the first is lexicographically smaller by character code: a proper prefix, or smaller at the first difference |
| Strings.LexLessFirst | src/Infrastructure/Persistence/JsonClientRepository.php:97 | Two non-empty strings are in lexicographic order iff their first characters are, or these are equal and the rests are in order |
| Strings.StrcmpAntisymmetric | src/Infrastructure/Persistence/JsonClientRepository.php:97 | Swapping the arguments of `strcmp` negates it |
| Strings.IntCastOfIntToString | src/Application/Request/ListCriteriaParser.php:20-21 | The `(int)` cast of the decimal text of any PHP int gives it back |
| Strings.IntCast | src/Application/Request/ListCriteriaParser.php:20-21 | The cast is a PHP int: the numeric prefix when it fits, PHP_INT_MAX above the range and PHP_INT_MIN below it |
| Strings.CountImplode | src/Infrastructure/Persistence/MySQLClientRepository.php:50 | Joining with a glue that lacks a character adds no occurrence of it |

## Findings

| source | as written | input that shows it | evidently intended | confidence | as-written member | corrected member |
|---|---|---|---|---|---|---|
| src/Infrastructure/Persistence/JsonClientRepository.php:12 | `JsonClientRepository` and `MySQLClientRepository` (MySQLClientRepository.php:13) declare `implements ClientRepositoryInterface` but define only `findById`, `findAll`, `save` and `delete`. PHP refuses to declare a class that leaves an interface method abstract, so `ClientService::create` and `update` (ClientService.php:32, 45) cannot run | loading either repository class | each repository defines `findByDocument(string $document, ?int $excludeId = null)` as the interface describes (ClientRepositoryInterface.php:15-16) | high; not executed | JsonClientRepo.DefinedMethodsMissFindByDocument | JsonClientRepo.JsonClientRepository.FindByDocument |

## Left out

- File and database I/O is not modelled. The JSON repositories hold the decoded table in a field. The source re-reads and rewrites the file on every call; the model does not.
- `saveData` is modelled only as `Written` and its round trip `LoadWritten`. Directory creation, JSON encoding options and `mkdir` are left out.
- PDO statement execution, SQL semantics and the rows MySQL returns are left out. Only the query text and the bound parameters are modelled. The other `MySQLClientRepository` operations (`findById`, `save`, `delete`) are left out.
- The `LIKE` pattern is the search term between two `%`. `%` and `_` in the term are not escaped, as in the source, so they act as wildcards. The model states the text and does not interpret it.
- The two repositories disagree on an empty sort map. MySQL orders by `id ASC`; the JSON repository keeps store order. Each is modelled as written.
- `findByDocument` is declared by `ClientRepositoryInterface` and called by `ClientService`, but neither repository defines it (see Findings). The model adds it to the JSON repository from the interface's description: the first active row with that exact document whose id is not the excluded one.
- `ClientService` is modelled over the JSON repository class only. Traits, the only way to abstract over both repositories, are not used.
- `ClientService.Update`: the service's own clock and the repository's are both `now`. The JSON `save` ignores the timestamps the service sets.
- Integers are PHP's 64-bit ints where the source can leave their range. `Strings.IntCast` saturates as PHP's `(int)` does on a numeric string. The listing's offset is `None` when `(page - 1) * perPage` overflows, where PHP gets a float and throws a `TypeError` under strict types. `JsonClientRepository.findAll`, `MySqlClientQuery.BuildQuery` and `ClientService.list` return `None` there; the exception itself is not modelled.
- NextId: ids are unbounded integers. When the largest stored id is PHP_INT_MAX, PHP's `max + 1` becomes a float key; the model does not capture that.
- Times are their `Y-m-d H:i:s` strings. `DateTimeImmutable` parsing and formatting are left out.
- `DomainModels.ToArray`: `format('Y-m-d H:i:s')` of a timestamp is the stored string itself.
- PHP casts are modelled for the values the code meets: strings, integers, booleans, null and arrays. Floats, exponents and `is_numeric`'s sign, decimal point and whitespace forms are left out. `JsonClientRepo.IsNumeric` accepts only an integer or a non-empty run of ASCII digits.
- Query-parameter values are strings or nested arrays, so "scalar" means a string. Filter values are strings in `ListCriteria`, as they arrive from a query string. `MySqlClientQuery.FilterParams` therefore binds text parameters only.
- `mb_strtolower` and `mb_strpos` are modelled on ASCII letters. Unicode case folding is left out.
- `JsonClientRepo.SortRowsOrdered`: only neighbouring rows are stated to be in comparator order, not global sortedness. The comparator is not transitive on columns that mix numeric and non-numeric values (`ComparisonCycle`). `usort` is modelled as a stable insertion sort. This agrees with PHP 8's stable `zend_sort` only where `CompareBy` is a total preorder on the rows being sorted. On rows with a comparison cycle PHP's hybrid sort may return a different order, which the model does not capture.
- Response headers are an ordered map with case-sensitive names. PSR-7's case-insensitive header names are left out, because Slim's `Headers` class is not part of this model. The response body is left out.
- `Cors.Process`: the next handler is the response it would answer (`handled`). Whether it runs is a result of the method.
- `JsonUserRepo.JsonUserRepository`: the store is loaded once, because the repository never writes it. Password hashing and verification belong to the login action, which is not part of this model.
- Actions, authentication middleware, routes, the container and `public/index.php` are not part of this model. Concurrency between requests is left out.
- The `Client` and `User` getters are the datatype fields. `ListCriteria` and `ListResult` getters are likewise fields, with no contracts of their own.
