# Movie catalogue: a verified model of the movie endpoints

This project models the movie-catalogue logic of the MovieLibraryAPI web service. The service keeps
one table of movie records. Each record has an id, a title, an optional director, a year and a rate.
Its endpoints read the table, create one record, add a list of records, update a record, delete one,
and ingest a list fetched from a remote catalogue. Each write endpoint guards itself with its own
duplicate check, and each check compares a different set of fields:

| endpoint | duplicate key | compared against |
|---|---|---|
| create | title, director | every saved record |
| bulk add | title, year | the records saved before the call, not the batch itself |
| update | title, director, year, rate | every saved record with a different id |
| ingestion | title, director, year | the table as it was before inserting |

Layout:

- `wrappers.dfy`: `Option`, standing for a value that may be null.
- `catalog.dfy` (module `Catalog`): the `Movie` value, the four keys (`SameCreateKey`, `SameBulkKey`,
  `SameUpdateKey`, `SameExternalKey`) and `Key`, which picks one of them. It also holds
  `IsDuplicate`, `ConflictsOnUpdate`, the batch filter `Unmatched`, the id assignment of a committed
  batch (`Placed`) and the lemmas about them.
- `controller.dfy` (module `Controller`): class `MovieController`. It holds the saved table
  (`movies: map<int, Movie>`) and the table's id counter (`nextId`). There is one method per endpoint.
  Each method's `ensures` gives the response and the whole new table for every branch.
- `scenarios.dfy` (module `Scenarios`): request sequences proved from the endpoint contracts alone.

Modelling decisions:

- A record's id is its key in the map. `Movie` holds only the four business fields.
- `Director` is `Option<string>`. Two records with no director match, as `null == null` does in C#.
- `Rate` is an `int`. The controller only ever compares rates with `==`.
- Ids come from the store. The model's store is an increasing counter that starts at 1, like an
  SQLite `AUTOINCREMENT` key. `Valid()` keeps every saved id positive and below the counter, so every
  id handed out is fresh.
- A whole endpoint's writes are committed together, as one save.
- Within one committed batch, the model hands out the consecutive fresh ids in list order: the j-th
  inserted item gets `start + j` (`Placed`). This is an assumption of the model. The controller only
  calls `Add` in a loop or `AddRange` and then saves (`MovieController.cs:70-74`, `173-174`), and it
  does not fix the order in which the save inserts the rows. The counter does make the ids
  consecutive and fresh; which item receives which of them is not something the source promises.
- Ingestion starts from the parsed payload. `None` stands for a failed fetch or a null payload.

Bulk add answers with the whole input list (`MovieController.cs:75`), not only with the records it
actually added; the model follows the code here. So posting `[m1, m2]` when `m1` already exists answers `[m1, m2]`, and only `m2` is saved.

## Model

| member | source | states |
|---|---|---|
| `Controller.MovieController.GetMovie` | MovieLibraryAPI/Controllers/MovieController.cs:25-34 | NotFound exactly when the id is absent; otherwise Ok with the stored record; nothing else is answered |
| `Controller.MovieController.AddMovie` | MovieLibraryAPI/Controllers/MovieController.cs:36-48 | a saved record with the same title and director gives BadRequest and leaves the table and counter unchanged, whatever the year and rate. Otherwise exactly one row is added, holding the candidate's four fields under a fresh id (the counter's value). No other row changes, the answer is Created with that id, and uniqueness of (title, director) is kept |
| `Controller.MovieController.AddMovies` | MovieLibraryAPI/Controllers/MovieController.cs:56-75 | a null or empty list gives BadRequest and leaves the table unchanged. Otherwise the table gains exactly `Unmatched(BulkKey, saved, list)` under consecutive fresh ids, and the answer is Ok with the whole input list |
| `Controller.StageBatch` | MovieLibraryAPI/Controllers/MovieController.cs:66-72 | the loop stages exactly `Unmatched(BulkKey, saved, list)`: the items with no title-and-year match among the saved records, in list order, repeats included |
| `Controller.MovieController.UpdateMovie` | MovieLibraryAPI/Controllers/MovieController.cs:83-117 | the checks run in the source's order: id mismatch gives BadRequest, then year 0 gives BadRequest, then a four-field match with another id gives Conflict (even when the id is absent), then an absent id gives NotFound. Every error leaves the table unchanged. On success only the target's four fields are replaced, its id is kept, the answer is Ok with the new fields, and uniqueness of the four-field key is kept |
| `Controller.MovieController.DeleteMovie` | MovieLibraryAPI/Controllers/MovieController.cs:120-131 | an absent id gives NotFound and the table is unchanged; a present id gives NoContent and exactly that id is removed |
| `Controller.MovieController.FetchExternalMovies` | MovieLibraryAPI/Controllers/MovieController.cs:153-177 | a missing payload gives BadRequest and leaves the table unchanged. Otherwise remote ids are dropped, and the items with no (title, director, year) match in the pre-insert table are answered and saved under consecutive fresh ids. When none are kept the table is unchanged |
| `Catalog.KeysNest` | MovieLibraryAPI/Controllers/MovieController.cs:96-98 | the update key is plain equality of the four fields; it implies the external key, which implies both the create key and the bulk key |
| `Catalog.ChecksReadOnlyTheirKey` | MovieLibraryAPI/Controllers/MovieController.cs:41-44 | the create check does not depend on year or rate, the bulk check does not depend on director or rate, and the external check does not depend on rate |
| `Catalog.Placed` | MovieLibraryAPI/Controllers/MovieController.cs:173-174 | a committed batch occupies exactly the ids `start .. start + n - 1`, the j-th item under `start + j`. The consecutive fresh ids follow from the counter; that the j-th item gets `start + j` is the model's assumption about the save's insertion order (see the modelling decisions) |
| `Catalog.Unmatched` | MovieLibraryAPI/Controllers/MovieController.cs:66-72 | every record's multiplicity in the kept list is 0 if the saved table has a match on the key, and otherwise its multiplicity in the batch. So repeated new items are all kept, and the kept list is no longer than the batch |
| `Catalog.KeptIffUnmatched` | MovieLibraryAPI/Controllers/MovieController.cs:68-71 | an item of the batch is inserted exactly when no saved record has its key |
| `Catalog.ToLocalIgnoresRemoteIds` | MovieLibraryAPI/Controllers/MovieController.cs:158-164 | two payloads that differ only in their remote ids map to the same local records, so the remote id never reaches the table |
| `Catalog.CommitThenRepeatKeepsNothing` | MovieLibraryAPI/Controllers/MovieController.cs:166-175 | after committing what a batch keeps, the same batch keeps nothing, for any key, so re-ingesting or re-posting a batch adds nothing |
| `Catalog.InsertKeepsUnique` | MovieLibraryAPI/Controllers/MovieController.cs:41-46 | inserting, under a fresh id, a record without a match on a key keeps that key unique across the table, if it was unique before |
| `Catalog.ReplaceKeepsUpdateKeyUnique` | MovieLibraryAPI/Controllers/MovieController.cs:96-114 | overwriting a record with values that conflict with no other record keeps the four-field key unique, if it was unique before |
| `Catalog.BulkAddMayRepeatCreateKey` | MovieLibraryAPI/Controllers/MovieController.cs:68-70 | bulk add saves a record that create would refuse (same title and director, other year), which breaks uniqueness of (title, director) |
| `Catalog.BatchRepeatsAreAllKept` | MovieLibraryAPI/Controllers/MovieController.cs:66-72 | on an empty table, a batch `[m, m]` keeps both items for every key, which leaves two identical records |
| `Catalog.CommitKeepsIdsBelowCounter` | MovieLibraryAPI/Controllers/MovieController.cs:173-174 | committing a batch from the counter leaves saved rows untouched and every id below the advanced counter |
| `Scenarios.CreateThenGet` | MovieLibraryAPI/Controllers/MovieController.cs:26-48 | a create that is accepted is followed by a get of the new id that answers the created fields; a refused create makes no get and leaves the table unchanged |
| `Scenarios.DuneScenario` | MovieLibraryAPI/Controllers/MovieController.cs:36-48 | on an empty table: "Dune" is Created(1), the same record again is BadRequest, "Dune 2" is Created(2), and both records are stored |
| `Scenarios.AddMoviesTwice` | MovieLibraryAPI/Controllers/MovieController.cs:56-75 | posting the same non-empty list twice answers the list both times, and only the first call saves anything |
| `Scenarios.IngestTwice` | MovieLibraryAPI/Controllers/MovieController.cs:158-177 | ingesting the same payload twice: the second run answers an empty list and the table is what the first run left |

## Left out

- `GetMovies` (list all, `MovieController.cs:19-23`) is not a separate method. It answers the whole table, which is the model's `movies` field; the order in which the database returns rows is not modelled.
- The HTTP request, the status-code check and the JSON parsing in `FetchExternalMovies` (`MovieController.cs:139-156`) are network I/O and a foreign library. Their failures collapse into the `None` payload.
- The `catch` blocks (`MovieController.cs:50-53`, `77-80`, `179-182`) are not modelled: a save that throws (a database error, a null title) is not a branch of the model.
- An id that a client puts in the body of a create or bulk-add request is not modelled. The model always lets the store assign the id.
- The `movie == null` test at `MovieController.cs:91` is not modelled. Line 86 has already read `movie.Id`, so a null body never reaches that test; the model's update body is always present.
- Response bodies carry only the four business fields. The ids that the database writes back into the returned objects are not modelled. For update the id is the path id. For ingestion every answered item was inserted, so its id is one of the batch's fresh ids. In the bulk-add answer, the inserted items get fresh ids, and the items that were not inserted keep whatever id the request gave them.
- Which fresh id each item of a bulk-add or ingestion batch receives is not promised by the source, since the save decides the insertion order. The model fixes it to list order (`Placed`).
- Check-then-insert races between concurrent requests, `async`/`await` and change tracking are not modelled: each request runs alone and saves atomically.
- `Rate` is an integer; no floating-point meaning (NaN, rounding) is modelled.
- Ids and years are unbounded integers; 32-bit overflow is not modelled.
- MovieLibraryAPI/Program.cs (hosting, CORS, database setup), MovieLibraryAPI/Data/MovieContext.cs (schema, including the 200-character title limit, which the controller never checks) and web/vue.config.js are not part of this model.
