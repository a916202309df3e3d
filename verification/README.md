# Movie watchlist — a Dafny model of its list logic

The application lets a user search an external movie database and keep a
personal watchlist, stored as one JSON file on the server. This project
models the parts of it that are logic rather than I/O:

- the watchlist routes of `backend/routes.js` (add, update, remove, list),
  as pure transitions over the sequence of stored entries, with the data file
  as an abstract state (`Missing`, `Unreadable`, `Holds(entries)`) and the
  outcome of `writeWatchlist` as a parameter;
- the search and detail routes of the same file, which rename the external
  database's fields, with the collaborator's reply as a parameter;
- the status filter and the empty-state choice of the watchlist page,
  `frontend/src/pages/WatchList.js`.

Modules, leaves first:

| file | module | contents |
|---|---|---|
| `wrappers.dfy` | `Wrappers` | `Option`, `Result` |
| `js_values.dfy` | `JsValues` | JavaScript values, truthiness, `===` |
| `errors.dfy` | `Errors` | every error response, its status and message |
| `entries.dfy` | `Entries` | the entry record, `findIndex`/`find` lookups, list invariants |
| `watchlist.dfy` | `Watchlist` | add / update / remove as list transitions, and their lemmas |
| `routes.dfy` | `Routes` | the same routes over the data file, with write success as a parameter |
| `lookup_proxy.dfy` | `LookupProxy` | search and details normalisation |
| `watchlist_view.dfy` | `WatchlistView` | client-side filter and empty-state message |

Request fields are `JsValue`s (`Undefined`, `Null`, `Bool`, `Num`, `Str`,
`Composite` for any object or array), so the code's tests keep their
JavaScript meaning. `!imdbID` is `!Truthy(imdbID)`. `typeof watched ===
'boolean'` is `IsBoolean(watched)`. `rating !== undefined` is
`!rating.Undefined?`. `movie.imdbID === imdbID` is `StrictEquals`, which is
never true for an object.

Parameters stand in for the environment. `freshId` is the result of
`generateID`. `now` is `new Date().toISOString()`. `writeOk` is the result of
`writeWatchlist`. `apiKey` is `process.env.OMDB_API_KEY`. `reply` is the
collaborator's answer, or `Unreachable` when the call fails.

Four facts about the code that the model keeps as they are:
- The update route accepts any rating, with no 1–5 check.
- The detail route does not check that the API key is configured.
- A search with no matches answers without the collaborator's message (see Findings).
- `GET /watchlist` cannot fail, because `readWatchlist` catches every error.

## Model

| member | source | states |
|---|---|---|
| `Entries.FirstIndexById` | backend/routes.js:182-186 | the position found is that of the first entry with the id, and there is none exactly when no entry has the id |
| `Entries.FindByImdbId` | backend/routes.js:144-145 | an entry is found exactly when some stored imdbID is `===` to the requested one, and the entry found is such an entry |
| `Watchlist.Add` | backend/routes.js:134-162 | a falsy imdbID or title is a validation error; otherwise an imdbID already present is a duplicate error; otherwise the list grows by exactly one entry at the end, earlier entries unchanged, and the new entry has the fresh id, the given fields, watched false, rating null and the given timestamp |
| `Watchlist.Update` | backend/routes.js:178-195 | an unknown id is not-found; otherwise only the first entry with that id changes, the length is kept, its id/imdbID/title/year/poster/plot/dateAdded are kept, watched is replaced only by a boolean and rating by any defined value |
| `Watchlist.Remove` | backend/routes.js:211-219 | an unknown id is not-found; otherwise the answer is the first entry with that id and the list loses exactly that entry, the others keeping their order |
| `Watchlist.AddPreservesConsistency` | backend/routes.js:141-162 | a successful add keeps imdbIDs pairwise distinct and every watched flag boolean |
| `Watchlist.AddKeepsIdsDistinct` | backend/routes.js:150-151 | ids stay pairwise distinct if the generated id is new, which the route does not check |
| `Watchlist.AddWithUsedIdBreaksDistinctIds` | backend/routes.js:150-162 | a successful add with a generated id already in use leaves two entries with that id |
| `Watchlist.UpdatePreservesConsistency` | backend/routes.js:188-195 | a successful update keeps imdbIDs pairwise distinct and every watched flag boolean |
| `Watchlist.RemovePreservesConsistency` | backend/routes.js:214-219 | a successful remove keeps imdbIDs pairwise distinct and every watched flag boolean |
| `Watchlist.AddedImdbIdOccursOnce` | backend/routes.js:144-162 | after an add exactly one entry has the new imdbID, or none when that imdbID is an object, which `===` never matches |
| `Watchlist.AddThenRemoveRestores` | backend/routes.js:214-219 | removing a just-added entry by its fresh id gives back the earlier list and answers with the added entry |
| `Watchlist.RemoveUndoneByReinsertion` | backend/routes.js:219 | putting the removed entry back at its index rebuilds the original list |
| `Watchlist.RemoveEliminatesId` | backend/routes.js:214-219 | when ids are distinct, the removed id no longer occurs |
| `Watchlist.UpdateIdempotent` | backend/routes.js:188-195 | sending the same update twice has the effect of sending it once |
| `Watchlist.UpdateWithoutFieldsChangesNothing` | backend/routes.js:189-195 | an update with a non-boolean watched and no rating succeeds on a known id and changes nothing |
| `Routes.GetWatchlist` | backend/routes.js:10-22 | the listed entries are the stored ones, or none when the file is missing or unreadable |
| `Routes.AddRoute` | backend/routes.js:141-168 | validation and duplicate errors as for the list transition; success exactly when both fields are truthy, the imdbID is new and the write succeeds, and then the file holds the old list plus the new entry; a failed write answers with the write error and leaves the file |
| `Routes.UpdateRoute` | backend/routes.js:181-201 | not-found exactly for an unknown id; success exactly for a known id with a successful write, answering the patched first matching entry and storing the list with only that index changed; a failed write on a known id answers with the write error and leaves the file |
| `Routes.RemoveRoute` | backend/routes.js:212-225 | not-found exactly for an unknown id; success exactly for a known id with a successful write, storing the list without the first matching entry and answering that entry with the confirmation message; a failed write answers with the write error and leaves the file |
| `Routes.AddThenListRoundTrip` | backend/routes.js:150-165 | a valid new add with a successful write answers with the created entry, and adding and then listing shows the earlier entries followed by the new entry with the requested imdbID and title, watched false, rating null and the given timestamp |
| `Routes.DuplicateAddKeepsList` | backend/routes.js:141-147 | adding a stored imdbID answers 400 with the message "Movie already in watchlist" and the listed entries stay the same |
| `Routes.RoutesPreserveConsistency` | backend/routes.js:132-230 | whatever the request and the write outcome, each route leaves a consistent stored list consistent |
| `LookupProxy.NormalizeAll` | backend/routes.js:70-76 | the result has the raw array's length and order, each element's id and imdbID being the raw imdbID and title/year/poster the raw Title/Year/Poster |
| `LookupProxy.Search` | backend/routes.js:44-83 | a falsy query is a 400 error; a missing key a 500; a failed call a 500; a `Response` of exactly "false" gives no movies and the collaborator's message; otherwise a missing array gives no movies, an array gives its normalised elements, a non-array a 500 |
| `LookupProxy.SearchIntended` | backend/routes.js:65-67 | with the collaborator's "False" marker a no-match search answers no movies and the collaborator's message; a falsy query or a missing key fails exactly as in the route as written; a lower-case "false" reply is treated like any other reply that carries no marker; on every reply whose Response is neither "False" nor "false" it agrees with the route as written |
| `LookupProxy.SearchDropsNoMatchMessage` | backend/routes.js:65-67 | on a "False" no-match reply the route as written answers with no message, the intended one with the collaborator's message |
| `LookupProxy.Details` | backend/routes.js:86-117 | a failed call is a 500; a `Response` of exactly "False" is a 404 carrying the collaborator's error; every other answered reply succeeds with the detail record renamed, id equal to imdbID |
| `LookupProxy.DetailsNotFoundIff` | backend/routes.js:99-113 | the route answers status 404 exactly on a "False" reply, with the collaborator's error as its message, and on every other answered reply gives the renamed record |
| `Errors.Status` | backend/routes.js:48-224 | missing query, missing fields and duplicate imdbID are 400; an unknown watchlist id and a not-found detail reply are 404; a missing key, a failed call and a failed write are 500 |
| `Errors.Message` | backend/routes.js:48-224 | a not-found detail reply passes on the collaborator's error text; every other error carries a non-empty message string of its own |
| `WatchlistView.Select` | frontend/src/pages/WatchList.js:29-32 | the result is a subsequence of the list, every element has the selected truthiness, and it holds each qualifying entry exactly as often as the list does |
| `WatchlistView.FilterWatchlist` | frontend/src/pages/WatchList.js:27-35 | 'watched' and 'unwatched' select by flag; every other key, 'all' included, returns the list unchanged |
| `WatchlistView.FilterPartitions` | frontend/src/pages/WatchList.js:29-32 | the watched and unwatched views together have the list's length and exactly its entries |
| `WatchlistView.FilterIdempotent` | frontend/src/pages/WatchList.js:27-35 | filtering an already filtered list with the same key changes nothing |
| `WatchlistView.SelectEmptyIff` | frontend/src/pages/WatchList.js:29-32 | a view is empty exactly when no entry has the selected flag |
| `WatchlistView.FilterOnBooleanFlags` | frontend/src/pages/WatchList.js:29-32 | on boolean flags the watched view holds exactly the entries marked true and the unwatched view those marked false |
| `WatchlistView.ToggledEntryChangesView` | frontend/src/components/WatchListItem.js:8-11 | after the toggle's update sets watched to a boolean, the entry is in the view that flag selects and not in the other |
| `WatchlistView.ShowWatchlist` | frontend/src/pages/WatchList.js:69-75 | the grid appears exactly when the filtered list is non-empty and shows it; otherwise an empty watchlist gives the "watchlist is empty" text, and a non-empty one "No <key> movies found.", with the key left blank under 'all' |
| `WatchlistView.EmptyWatchlistMessage` | frontend/src/pages/WatchList.js:69-72 | an empty watchlist shows the "watchlist is empty" text whatever the filter |
| `WatchlistView.UnfilteredNonEmptyShowsGrid` | frontend/src/pages/WatchList.js:69-75 | a non-empty watchlist under 'all' (or any key other than the two flags) shows the whole list, never the "No … movies found." text |
| `WatchlistView.NoMatchesMessage` | frontend/src/pages/WatchList.js:69-75 | under 'watched' or 'unwatched' the "No <key> movies found." text appears exactly when the watchlist is non-empty and no entry has the flag asked for |

## Left out

- File system and JSON (`existsSync`, `readFileSync`, `JSON.parse`, `JSON.stringify`, `mkdirSync`): the file is the abstract `FileState`. A failed write leaves it unchanged; partial writes are not modelled.
- A data file that parses to something other than an array of entry objects. The model's file only ever holds entries. In the code, `GET /watchlist` serves whatever the file parses to with status 200, a `{}` or `null` included. An array of other values, such as `[1]`, reads as entries whose fields are all `undefined`: add appends to it and answers 201, and update and remove answer 404. Only a non-array, or an array holding `null`, makes the three mutating routes throw and answer 500.
- `Entries.Entry`: `id` is a string, as `generateID` always produces and as route parameters always are; an id of another type read from a hand-edited file is not modelled.
- `generateID` and the clock: they are the parameters `freshId` and `now`. Id uniqueness is only claimed under the explicit precondition that the fresh id is unused.
- The HTTP calls to the external database, the API-key environment lookup and the Express status plumbing. The collaborator's reply and the key are parameters; failures are error variants with their status codes.
- Concurrent requests and lost updates: each route is modelled as one atomic read-modify-write.
- `GET /health` and the Express wiring in `backend/server.js`, and the axios wrapper in `frontend/src/services/api.js`.
- React rendering and component state: `App.js`, `Home.js`, `MovieCard.js`, `SearchBar.js`, `StatusFilter.js`, `WatchListItem.js`, and the timing of the effect that recomputes the filtered list.
- JavaScript numbers are modelled as exact reals. The data file is assumed to read back exactly what was written. Both assumptions fail for numerals that round to the same double (`9007199254740993` and `9007199254740992` are one number to `===`) and for non-finite values (`1e400` parses as `Infinity`, which is written back as `null`), and negative zero is not modelled.
- Watchlist.Add: its duplicate test compares numeric imdbIDs as exact reals, so two numerals that JavaScript rounds to the same double are not treated as duplicates in the model, although the route rejects the second one.
- Routes.RoutesPreserveConsistency: holds of the model's file, which reads back exactly what was written; two added imdbIDs like `1e400` both read back as `null` in the real file and break imdbID distinctness there.
- `Routes.AddRoute`: the 500 answer for an exception thrown outside the write (a non-object request body) is not modelled.

## Findings

| source | as written | input that shows it | evidently intended | confidence | as-written member | corrected member |
|---|---|---|---|---|---|---|
| backend/routes.js:65 | the no-results test compares `Response` with the lower-case string `'false'`, while the collaborator marks failures with `"False"` (the detail route at line 99 tests for that spelling) | a reply `{Response: "False", Error: "Movie not found!"}` with no `Search` array: the route answers `{movies: []}` without the message, so the page (frontend/src/pages/Home.js:29) shows its generic text | test for `"False"`, so a search with no matches answers `{movies: [], message: <collaborator's error>}` | medium, not executed | `LookupProxy.Search` (shown by `LookupProxy.SearchDropsNoMatchMessage`) | `LookupProxy.SearchIntended` |
