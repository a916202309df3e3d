/** The watchlist routes of backend/routes.js at the level of the data file:
    each reads the list (`readWatchlist`), runs the transition of module
    Watchlist and, when that succeeds, writes the new list
    (`writeWatchlist`). Whether the write succeeds is a parameter; the file
    changes only when it does. */
module Routes {
  import opened JsValues
  import opened Wrappers
  import opened Entries
  import opened Errors
  import opened Watchlist

  /** The data file: not created yet, unreadable or not valid JSON, or holding
      a list of entries. */
  datatype FileState = Missing | Unreadable | Holds(entries: seq<Entry>)

  /** What a route leaves in the data file, and what it responds with. */
  datatype Step<T> = Step(file: FileState, reply: Result<T, ApiError>)

  /** The body `DELETE /watchlist/:id` answers with. */
  datatype Removal = Removal(message: string, movie: Entry)

  const RemovedMessage := "Movie removed from watchlist"

  /** `readWatchlist`: a missing or unreadable file reads as the empty list. */
  function ReadWatchlist(file: FileState): seq<Entry>
  {
    if file.Holds? then file.entries else []
  }

  /** Persist a computed change: nothing is written after an error; after a
      computed change the file holds the new list only if `writeWatchlist`
      returned true, and the route answers with the write error otherwise. */
  function Commit(file: FileState, r: Result<Change, ApiError>, writeOk: bool, op: Mutation): Step<Entry>
  {
    match r
    case Failure(e) => Step(file, Failure(e))
    case Success(c) =>
      if writeOk then Step(Holds(c.list), Success(c.entry))
      else Step(file, Failure(WriteFailed(op)))
  }

  /** `GET /watchlist`: the stored list, empty when the file is missing or
      unreadable. */
  function GetWatchlist(file: FileState): (r: seq<Entry>)
    ensures file.Holds? ==> r == file.entries
    ensures !file.Holds? ==> r == []
  {
    ReadWatchlist(file)
  }

  /** `POST /watchlist` on the data file. */
  function AddRoute(file: FileState, req: AddRequest, freshId: string, now: string, writeOk: bool): (s: Step<Entry>)
    ensures !writeOk ==> s.file == file
    ensures s.reply.Failure? ==> s.file == file
    ensures s.reply.Success?
        <==> writeOk && Truthy(req.imdbID) && Truthy(req.title) && !ContainsImdbId(ReadWatchlist(file), req.imdbID)
    ensures s.reply.Success? ==>
      && writeOk
      && s.file == Holds(ReadWatchlist(file) + [s.reply.value])
      && s.reply.value == NewEntry(req, freshId, now)
    ensures s.reply == Failure(FieldsRequired) <==> !Truthy(req.imdbID) || !Truthy(req.title)
    ensures s.reply == Failure(AlreadyInWatchlist)
        <==> Truthy(req.imdbID) && Truthy(req.title) && ContainsImdbId(ReadWatchlist(file), req.imdbID)
    ensures s.reply == Failure(WriteFailed(AddMovie))
        <==> !writeOk && Truthy(req.imdbID) && Truthy(req.title) && !ContainsImdbId(ReadWatchlist(file), req.imdbID)
  {
    Commit(file, Add(ReadWatchlist(file), req, freshId, now), writeOk, AddMovie)
  }

  /** `PUT /watchlist/:id` on the data file. */
  function UpdateRoute(file: FileState, id: string, req: UpdateRequest, writeOk: bool): (s: Step<Entry>)
    ensures !writeOk ==> s.file == file
    ensures s.reply.Failure? ==> s.file == file
    ensures s.reply == Failure(NotInWatchlist) <==> !HasId(ReadWatchlist(file), id)
    ensures s.reply == Failure(WriteFailed(UpdateMovie)) <==> !writeOk && HasId(ReadWatchlist(file), id)
    ensures s.reply.Success? <==> writeOk && HasId(ReadWatchlist(file), id)
    ensures s.reply.Success? ==>
      && var list := ReadWatchlist(file);
      && var i := FirstIndexById(list, id).value;
      && s.reply.value == Patch(list[i], req)
      && s.file == Holds(list[i := s.reply.value])
      && SameIdentity(list[i], s.reply.value)
  {
    Commit(file, Update(ReadWatchlist(file), id, req), writeOk, UpdateMovie)
  }

  /** `DELETE /watchlist/:id` on the data file. */
  function RemoveRoute(file: FileState, id: string, writeOk: bool): (s: Step<Removal>)
    ensures !writeOk ==> s.file == file
    ensures s.reply.Failure? ==> s.file == file
    ensures s.reply == Failure(NotInWatchlist) <==> !HasId(ReadWatchlist(file), id)
    ensures s.reply == Failure(WriteFailed(RemoveMovie)) <==> !writeOk && HasId(ReadWatchlist(file), id)
    ensures s.reply.Success? <==> writeOk && HasId(ReadWatchlist(file), id)
    ensures s.reply.Success? ==>
      && var list := ReadWatchlist(file);
      && var i := FirstIndexById(list, id).value;
      && s.reply.value == Removal(RemovedMessage, list[i])
      && s.file == Holds(list[..i] + list[i + 1..])
  {
    var step := Commit(file, Remove(ReadWatchlist(file), id), writeOk, RemoveMovie);
    match step.reply
    case Failure(e) => Step(step.file, Failure(e))
    case Success(movie) => Step(step.file, Success(Removal(RemovedMessage, movie)))
  }

  /** Adding a movie and then listing the watchlist shows the earlier entries
      unchanged followed by the new entry, unwatched and unrated. */
  lemma AddThenListRoundTrip(file: FileState, req: AddRequest, freshId: string, now: string)
    requires Truthy(req.imdbID) && Truthy(req.title)
    requires !ContainsImdbId(ReadWatchlist(file), req.imdbID)
    ensures AddRoute(file, req, freshId, now, true).reply == Success(NewEntry(req, freshId, now))
    ensures var after := GetWatchlist(AddRoute(file, req, freshId, now, true).file);
      && |after| == |ReadWatchlist(file)| + 1
      && after[..|after| - 1] == ReadWatchlist(file)
      && after[|after| - 1].id == freshId
      && after[|after| - 1].imdbID == req.imdbID
      && after[|after| - 1].title == req.title
      && after[|after| - 1].watched == Bool(false)
      && after[|after| - 1].rating == Null
      && after[|after| - 1].dateAdded == now
  {
  }

  /** Adding an imdbID that is already stored fails and leaves the file,
      and so the listed length, as it was. */
  lemma DuplicateAddKeepsList(file: FileState, req: AddRequest, freshId: string, now: string, writeOk: bool)
    requires Truthy(req.imdbID) && Truthy(req.title)
    requires ContainsImdbId(ReadWatchlist(file), req.imdbID)
    ensures AddRoute(file, req, freshId, now, writeOk).reply == Failure(AlreadyInWatchlist)
    ensures Status(AddRoute(file, req, freshId, now, writeOk).reply.error) == 400
    ensures Message(AddRoute(file, req, freshId, now, writeOk).reply.error) == Str("Movie already in watchlist")
    ensures GetWatchlist(AddRoute(file, req, freshId, now, writeOk).file) == GetWatchlist(file)
  {
  }

  /** Every route keeps the stored list consistent: imdbIDs pairwise distinct
      and every `watched` flag boolean. */
  lemma RoutesPreserveConsistency(file: FileState, req: AddRequest, freshId: string, now: string,
                                  id: string, upd: UpdateRequest, writeOk: bool)
    requires Consistent(ReadWatchlist(file))
    ensures Consistent(ReadWatchlist(AddRoute(file, req, freshId, now, writeOk).file))
    ensures Consistent(ReadWatchlist(UpdateRoute(file, id, upd, writeOk).file))
    ensures Consistent(ReadWatchlist(RemoveRoute(file, id, writeOk).file))
  {
    var list := ReadWatchlist(file);
    AddPreservesConsistency(list, req, freshId, now);
    UpdatePreservesConsistency(list, id, upd);
    RemovePreservesConsistency(list, id);
  }
}
