# Repository searcher: a Dafny model of the search-fetch-reconcile core

The service searches GitHub for repositories and stores what it finds in a local table. It fetches one page of search results, maps each item to a repository record, and upserts the records into a table keyed by the GitHub repository id. It returns the stored records as transfer objects. It also lists the stored records, filtered by language and a minimum star count and ordered by stars, forks or last update.

The model has seven modules:

- `Wrappers`: `Option` stands for Java's `null`; `Result` stands for a thrown exception.
- `JavaText`: `String.trim()` (drops characters `<= ' '` at both ends), lower-casing, and the SQL `LOWER(a) = LOWER(b)` comparison.
- `Entity`: the `repositories` row as a value (`Record`) and the `Repository` entity as a class with its `prePersist`/`preUpdate` hooks. Also the NOT NULL column check the store applies on write.
- `Dto`: the `RepositoryDto` projection, the search request with its bean-validation rules, and the upstream response shape.
- `Queries`: the repository interface's native filtered query and its derived finders, over the table's rows in scan order.
- `GitHubApi`: query-string construction (a buffer-appending method), the fixed upstream parameters, and how the upstream outcome becomes a response or a `GitHubApiException`.
- `Service`: sort-word normalisation, item-to-entity mapping, the upsert and batch reconciliation as specification functions over a `Table`, and the `RepositoryService` class. That class owns the table and a clock, and each of its methods is proved against those functions.

The table is a map from key to row plus the order a full scan visits the keys. An insert appends its key to that order; an update keeps its place. Wall-clock reads (`LocalDateTime.now()`) read the service's `clock` field, which only moves forward. The HTTP exchange is a parameter, `HttpOutcome`: either a status with an optional decoded body, or a transport failure.

Where the code behaves differently from what one might expect of the design, the model follows the code:

- An upstream item with an owner object whose login is null gets a null owner name. `Unknown` is used only when the owner object itself is missing.
- The resulting record then violates the NOT NULL `owner_name` column, and the batch fails at that record.
- The sort pattern check accepts a null sort.
- A null query makes the query builder throw. The catch-all handler turns that into a `GitHubApiException`.
- The `GitHubApiException`s raised for 403, 422, 5xx and a missing body are thrown inside the `try`. The catch-all therefore wraps them again, with the prefix `Failed to search repositories: `.
- Other 4xx statuses reach the `WebClientResponseException` handler instead (prefix `GitHub API request failed: `).
- An update copies every data column from the incoming record, nulls included. It keeps the key and the creation time.
- The batch runs in input order, so a later record with the same key overwrites an earlier one.
- The persistence context keeps one managed entity per key, and the batch's result list holds those entities. An earlier record of a repeated key therefore shows the later record's data in the result, and in the transfer objects built from it.
- A record the store refuses stops the batch with the store's error.

## Model

| member | source | states |
|---|---|---|
| JavaText.Trim | src/main/java/com/github/repositorysearcher/service/RepositoryService.java:125 | The result is a prefix of what `TrimStart` keeps, and every character of that remainder after the result is `<= ' '`. Neither end of the result is a character `<= ' '`. It is empty exactly when every input character is `<= ' '`. |
| JavaText.TrimLowerCommute | src/main/java/com/github/repositorysearcher/service/RepositoryService.java:129 | Lower-casing then trimming equals trimming then lower-casing, so `toLowerCase().trim()` is the lower-cased trimmed input. |
| JavaText.TrimIdempotent | src/main/java/com/github/repositorysearcher/service/GitHubApiService.java:89-90 | Trimming twice is trimming once. A text is blank exactly when its trimmed form is. |
| JavaText.CanonicalIsFixed | src/main/java/com/github/repositorysearcher/service/RepositoryService.java:129-131 | A lower-case text with no trimmable character at either end is unchanged by lower-casing then trimming. |
| Entity.CheckColumns | src/main/java/com/github/repositorysearcher/entity/Repository.java:19-48 | The write is refused exactly when a NOT NULL column (key, name, owner, stars, forks, last update, both timestamps) is null. The refusal is "id not assigned" exactly when the key is null. |
| Entity.Persisted | src/main/java/com/github/repositorysearcher/entity/Repository.java:64-69 | The insert hook's effect: both timestamps set to the same instant, so the record is stamped; key and data unchanged. |
| Entity.Touched | src/main/java/com/github/repositorysearcher/entity/Repository.java:71-74 | The update hook's effect: `updatedAt` set to the instant; creation time, key and data unchanged. |
| Entity.LifecycleKeepsCreation | src/main/java/com/github/repositorysearcher/entity/Repository.java:64-74 | Take one insert at `t0` followed by updates at non-decreasing instants. `createdAt` stays `t0` and `updatedAt` is the last instant, never before `createdAt`. Key and data never change. |
| Entity.UpdatesKeepStamp | src/main/java/com/github/repositorysearcher/entity/Repository.java:71-74 | Start from any stamped record and replay updates at non-decreasing instants. The creation time, key and data are kept, and the record stays stamped. |
| Entity.Repository.Create | src/main/java/com/github/repositorysearcher/entity/Repository.java:50-62 | The eight-argument constructor stores its arguments and leaves both timestamps null. |
| Entity.Repository.PrePersist | src/main/java/com/github/repositorysearcher/entity/Repository.java:64-69 | The new field values are the old ones with `createdAt` and `updatedAt` both set to the current instant. |
| Entity.Repository.PreUpdate | src/main/java/com/github/repositorysearcher/entity/Repository.java:71-74 | Only `updatedAt` changes. `createdAt` and every data field are unchanged. |
| Dto.ToDtoForgetsOnlyTimestamps | src/main/java/com/github/repositorysearcher/dto/RepositoryDto.java:25-34 | Two records project to the same transfer object exactly when they agree on the key and all seven data columns. |
| Dto.ToDto | src/main/java/com/github/repositorysearcher/dto/RepositoryDto.java:25-34 | Rebuilding an entity with the eight-argument constructor from the projection gives the original record with its timestamps cleared: the projection loses the timestamps and nothing else. |
| Dto.ToDtoRoundTrip | src/main/java/com/github/repositorysearcher/dto/RepositoryDto.java:25-46 | Building an entity from a transfer object's fields and projecting it gives that transfer object back. |
| Dto.EmptySearchRequest | src/main/java/com/github/repositorysearcher/dto/GitHubSearchRequest.java:8-18 | A request built with no arguments has a null query and language, and sort `stars`. |
| Dto.NewSearchRequest | src/main/java/com/github/repositorysearcher/dto/GitHubSearchRequest.java:20-24 | Query and language are kept. A null sort becomes `stars`; any other sort is kept verbatim. |
| Dto.Violations | src/main/java/com/github/repositorysearcher/dto/GitHubSearchRequest.java:12-18 | There are no violations exactly when the query is non-blank and the sort is null or exactly `stars`, `forks` or `updated`. Each field's violation, with its fixed message, is reported exactly when that field fails. |
| Dto.DefaultSortIsValid | src/main/java/com/github/repositorysearcher/dto/GitHubSearchRequest.java:17-23 | The default sort always passes the pattern check. |
| Queries.OrderFieldOf | src/main/java/com/github/repositorysearcher/repository/RepositoryRepository.java:19-22 | Each of `stars`, `forks` and `updated` selects its own column, and no other word selects any. |
| Queries.Insert | src/main/java/com/github/repositorysearcher/repository/RepositoryRepository.java:19-22 | Inserting into a descending sequence keeps it descending and adds exactly one element. |
| Queries.SortDesc | src/main/java/com/github/repositorysearcher/repository/RepositoryRepository.java:19-22 | The result is a permutation of the input and is descending on the chosen column. |
| Queries.Select | src/main/java/com/github/repositorysearcher/repository/RepositoryRepository.java:16-18 | Each row is kept as often as it occurs when it satisfies the condition, and dropped otherwise. |
| Queries.SelectCongruent | src/main/java/com/github/repositorysearcher/repository/RepositoryRepository.java:16-18 | Conditions that agree on every row select the same rows in the same order. |
| Queries.FindRepositoriesWithFilters | src/main/java/com/github/repositorysearcher/repository/RepositoryRepository.java:16-28 | The result holds exactly the rows matching both optional filters, each as often as stored. A null filter imposes nothing. Language is compared ignoring case, and a null language column never matches. The result is descending on the column the sort word names. |
| Queries.FindByLanguageOrderByStars | src/main/java/com/github/repositorysearcher/repository/RepositoryRepository.java:30-34 | The result holds exactly the rows whose language equals the argument ignoring case, most stars first. |
| Queries.FindByMinStarsOrderByStars | src/main/java/com/github/repositorysearcher/repository/RepositoryRepository.java:36-40 | The result holds exactly the rows with at least that many stars, most stars first. |
| Queries.FindAllOrderBy | src/main/java/com/github/repositorysearcher/repository/RepositoryRepository.java:42-44 | The result holds every row, descending on the chosen column. |
| Queries.LanguageFinderAgrees | src/main/java/com/github/repositorysearcher/repository/RepositoryRepository.java:16-34 | The language finder equals the filtered query given only that language and `stars`. For a null language it returns nothing. |
| Queries.MinStarsFinderAgrees | src/main/java/com/github/repositorysearcher/repository/RepositoryRepository.java:16-40 | The star finder equals the filtered query given only that bound and `stars`. For a null bound it returns nothing. |
| Queries.FindAllAgrees | src/main/java/com/github/repositorysearcher/repository/RepositoryRepository.java:16-44 | Each ordered listing of all rows equals the filtered query with no filters and the matching sort word. |
| GitHubApi.BuildQueryString | src/main/java/com/github/repositorysearcher/service/GitHubApiService.java:86-94 | The buffer-appending construction computes the query string: the term, plus ` language:` and the trimmed language when the language is present and not blank. There is none when the term is null. |
| GitHubApi.QueryStringShape | src/main/java/com/github/repositorysearcher/service/GitHubApiService.java:86-94 | The query string exists exactly when the term does and always starts with the untrimmed term. Without a usable language it is just the term. Otherwise the qualifier follows, then a non-empty language value with no trimmable character at either end. |
| GitHubApi.UpstreamParams | src/main/java/com/github/repositorysearcher/service/GitHubApiService.java:43-50 | The call goes to `/search/repositories` with the query string, the request's sort unchanged, order `desc` and 30 per page. |
| GitHubApi.SearchRepositories | src/main/java/com/github/repositorysearcher/service/GitHubApiService.java:37-84 | A response comes back only for a non-null term and a status that is not 4xx or 5xx, and it is the body that arrived. |
| GitHubApi.ClassifiesOutcome | src/main/java/com/github/repositorysearcher/service/GitHubApiService.java:40-84 | A response comes back exactly when the term is present, the status is not 4xx/5xx and a body arrived, and it is that body. 403, 422, 5xx and a missing body fail with messages ending in their fixed texts. |
| GitHubApi.FailuresAreWrapped | src/main/java/com/github/repositorysearcher/service/GitHubApiService.java:52-83 | Every failure message starts with one of the two handler prefixes. Those for 403, 422 and 5xx carry the catch-all prefix. |
| Service.ValidateSortParameter | src/main/java/com/github/repositorysearcher/service/RepositoryService.java:124-134 | The result is always `stars`, `forks` or `updated`. A null or blank input gives `stars`. Any other result is the lower-cased, trimmed input. |
| Service.SortMatchedIgnoringCase | src/main/java/com/github/repositorysearcher/service/RepositoryService.java:124-134 | An input whose trimmed text equals a sort word ignoring case selects that word. With the contract above, a result other than `stars` occurs exactly for such inputs. |
| Service.ValidateSortIdempotent | src/main/java/com/github/repositorysearcher/service/RepositoryService.java:124-134 | Normalising an already normalised sort word gives it back. |
| Service.ConvertToEntity | src/main/java/com/github/repositorysearcher/service/RepositoryService.java:111-122 | Key, name, description, language and modification time are copied. The owner is the owner object's login, or `Unknown` when there is no owner object. Counts are never null: a null count becomes 0, and a present count is copied unclamped. No timestamps are set. |
| Service.FindByRepositoryId | src/main/java/com/github/repositorysearcher/repository/RepositoryRepository.java:14 | A row is found exactly when the key is non-null and stored, and it is the stored row, carrying that key. |
| Service.ScanYieldsEachRowOnce | src/main/java/com/github/repositorysearcher/repository/RepositoryRepository.java:16 | On a valid table a full scan yields every stored row exactly once, and nothing that is not a stored row under its own key. |
| Service.Write | src/main/java/com/github/repositorysearcher/entity/Repository.java:19-48 | The store refuses a value exactly when a NOT NULL column is null, and then writes nothing. Otherwise it replaces or adds the row under its key, appending new keys to the scan order. |
| Service.SaveEntity | src/main/java/com/github/repositorysearcher/service/RepositoryService.java:89-94 | A successful save had a key. It stores under that key the entity's data, with `updatedAt` = now, and with `createdAt` kept for a stored key or set to now for a new one. |
| Service.MergeFields | src/main/java/com/github/repositorysearcher/service/RepositoryService.java:100-109 | The merged row has the new record's seven data columns and the existing row's key and timestamps. |
| Service.UpsertOne | src/main/java/com/github/repositorysearcher/service/RepositoryService.java:82-98 | A successful upsert had a key. The row it leaves under that key has the incoming data, `updatedAt` = now, and a `createdAt` kept from the old row (or now for a new key). No other key changes, and only a new key extends the scan order. |
| Service.UpsertKeepsInvariant | src/main/java/com/github/repositorysearcher/service/RepositoryService.java:82-98 | On a valid table an upsert succeeds exactly when the record has a key and every NOT NULL data column, and the table stays valid. |
| Service.FirstRefused | src/main/java/com/github/repositorysearcher/service/RepositoryService.java:76-80 | Gives the position of the first record the store would refuse. Every record before it is acceptable. |
| Service.ReconcileAll | src/main/java/com/github/repositorysearcher/service/RepositoryService.java:76-80 | The upserts of the batch, left to right, stopping at the first refusal. A successful run yields one save result per input record. |
| Service.ReconcileInOrder | src/main/java/com/github/repositorysearcher/service/RepositoryService.java:76-98 | The value each `save` call returns at the moment of the call: in input order, with its input's key and data and `updatedAt` = now. |
| Service.ReconcileFrame | src/main/java/com/github/repositorysearcher/service/RepositoryService.java:76-98 | Rows whose key the batch does not mention are untouched and no row disappears. Every existing row keeps its creation time. |
| Service.ReconcileLastWriteWins | src/main/java/com/github/repositorysearcher/service/RepositoryService.java:76-98 | After a successful batch, the row under a key is the output of the last input record with that key. |
| Service.LastWithKey | src/main/java/com/github/repositorysearcher/service/RepositoryService.java:76-80 | Gives a position at or after `i` with the same key, and no later record has that key. |
| Service.ManagedView | src/main/java/com/github/repositorysearcher/service/RepositoryService.java:76-80 | Each element of the returned list, read after the batch, is the final row under its key. |
| Service.SaveAll | src/main/java/com/github/repositorysearcher/service/RepositoryService.java:76-80 | The table is the one `ReconcileAll` leaves. The batch succeeds exactly when `ReconcileAll` does, with one element per input record, and fails with the same error. |
| Service.BatchShowsLastRecordPerKey | src/main/java/com/github/repositorysearcher/service/RepositoryService.java:76-98 | After a successful batch, position `i` of the list is the final row under record `i`'s key. It has that key, the data of the last record with that key, and `updatedAt` = now. |
| Service.BatchWithoutRepeatsShowsOwnData | src/main/java/com/github/repositorysearcher/service/RepositoryService.java:76-98 | In a batch without repeated keys, every position shows its own record's data. |
| Service.ReconcileKeepsInvariant | src/main/java/com/github/repositorysearcher/service/RepositoryService.java:76-98 | On a valid table a batch succeeds exactly when every record is acceptable, and the table stays valid whatever the outcome. |
| Service.ReconcilePartialCommit | src/main/java/com/github/repositorysearcher/service/RepositoryService.java:76-98 | A batch leaves the table as the records before the first refused one would alone, and that prefix succeeds. |
| Service.ListingIsExactlyMatchingRows | src/main/java/com/github/repositorysearcher/service/RepositoryService.java:58-74 | On a valid table the listing has each stored row that matches the filters exactly once, and nothing else. It is descending on the normalised sort word's column. |
| Service.ListingWithoutFilters | src/main/java/com/github/repositorysearcher/service/RepositoryService.java:58-74 | With no filters and no sort word, the listing has every stored row once, most stars first. |
| Service.RepositoryService.AdvanceClock | src/main/java/com/github/repositorysearcher/entity/Repository.java:66 | The clock only moves forward, and the table stays valid as it does. |
| Service.RepositoryService.Save | src/main/java/com/github/repositorysearcher/service/RepositoryService.java:89-94 | Runs the update hook when the key is stored and the insert hook otherwise, then writes, exactly as `SaveEntity` specifies. |
| Service.RepositoryService.UpdateRepositoryFields | src/main/java/com/github/repositorysearcher/service/RepositoryService.java:100-109 | The entity's new value is `MergeFields` of its old value and the new data. |
| Service.RepositoryService.SaveOrUpdateRepository | src/main/java/com/github/repositorysearcher/service/RepositoryService.java:82-98 | Outcome and new table are those of `UpsertOne` at the current clock. The table stays valid. |
| Service.RepositoryService.SaveOrUpdateRepositories | src/main/java/com/github/repositorysearcher/service/RepositoryService.java:76-80 | The loop's final table is the one `ReconcileAll` gives at the current clock. The result is `SaveAll`'s: the managed entity of each record's key, or the first refusal. The table stays valid. |
| Service.RepositoryService.SearchAndSaveRepositories | src/main/java/com/github/repositorysearcher/service/RepositoryService.java:33-56 | An upstream failure is passed on and a null or empty item list gives an empty result, in both cases with the table unchanged. Otherwise the result is the projections of `SaveAll` over the mapped items (one per item, showing the final row of its key), or the store's error. |
| Service.RepositoryService.GetRepositories | src/main/java/com/github/repositorysearcher/service/RepositoryService.java:58-74 | The result is the projections of the filtered query over the table, using the normalised sort word. |

## Left out

- The HTTP transport, the reactive pipeline, the timeout and `block()`: the exchange is the `HttpOutcome` parameter.
- The transport's exception texts are abstract. `NoAnswer` carries the failure's text, `Answered` carries the library's status-exception text, and `NullQueryDetail` stands in for the JVM's `NullPointerException` message.
- `buildQueryParams` is not modelled: nothing calls it.
- Logging is not modelled.
- `LocalDateTime.now()` is the service's `clock` field; time zones and sub-second precision are not modelled.
- Service.ReconcilePartialCommit: transactions are not modelled. The class-level `@Transactional` rolls back the writes before a refused record. The model keeps those writes (partial commit) and does not model rollback.
- Service.RepositoryService.SaveOrUpdateRepositories: a refused record leaves the earlier records written, where the source's transaction rolls them back.
- The time at which the store reports a constraint violation (flush versus `save`) is not modelled: a refused write fails at `save`.
- Service.SaveEntity: JPA dirty checking is not modelled. The model's update always re-stamps `updatedAt`, whereas Hibernate runs the update hook only when a column changed.
- Service.ReconcileInOrder: the clock is read once per service call. Every hook in one batch reads the same instant, whereas each `LocalDateTime.now()` reads the time again. That is why every saved record has `updatedAt` = now.
- Service.ValidateSortParameter: lower-casing covers ASCII letters only, not Java's locale-sensitive Unicode case mapping.
- Queries.FindRepositoriesWithFilters: rows whose sort keys tie keep their scan order (a stable sort), whereas SQL leaves tie order unspecified. An unknown sort word keeps scan order.
- Queries.SortDesc: a null key ranks below every value. The stored columns used as keys are NOT NULL, so this does not arise for stored rows.
- The 32-bit `Integer` and 64-bit `Long` widths are not modelled: the model does no arithmetic on counts or keys.
- Dto.Violations lists the query violation before the sort violation; bean validation's report order is unspecified.
- The controller, the global exception handler and the JSON (de)serialisation and date formatting are not modelled; they are outside this core.
- Entity identity across the persistence context is modelled by value. The merged entity is a fresh object loaded from the stored row, and the batch's result re-reads the final row under each key instead of holding shared objects.
