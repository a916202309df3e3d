/** The watchlist routes of backend/routes.js as pure transitions over the
    list of entries read from the file: each returns either the error the
    route responds with, or the list it would write together with the entry
    it answers with. Whether the write succeeds is decided in module Routes. */
module Watchlist {
  import opened JsValues
  import opened Wrappers
  import opened Entries
  import opened Errors

  /** The body of `POST /watchlist`. */
  datatype AddRequest = AddRequest(imdbID: JsValue, title: JsValue, year: JsValue, poster: JsValue, plot: JsValue)

  /** The body of `PUT /watchlist/:id`; an absent field is `Undefined`. */
  datatype UpdateRequest = UpdateRequest(watched: JsValue, rating: JsValue)

  /** The list to write back and the entry the route answers with. */
  datatype Change = Change(list: seq<Entry>, entry: Entry)

  /** The entry `POST /watchlist` creates, given the generated id and the
      current time. */
  function NewEntry(req: AddRequest, freshId: string, now: string): Entry
  {
    Entry(freshId, req.imdbID, req.title, req.year, req.poster, req.plot, Bool(false), Null, now)
  }

  /** The fields an update leaves alone. */
  predicate SameIdentity(before: Entry, after: Entry)
  {
    && after.id == before.id
    && after.imdbID == before.imdbID
    && after.title == before.title
    && after.year == before.year
    && after.poster == before.poster
    && after.plot == before.plot
    && after.dateAdded == before.dateAdded
  }

  /** `POST /watchlist`: validate, reject a duplicate imdbID, append. */
  function Add(list: seq<Entry>, req: AddRequest, freshId: string, now: string): (r: Result<Change, ApiError>)
    ensures r == Failure(FieldsRequired) <==> !Truthy(req.imdbID) || !Truthy(req.title)
    ensures r == Failure(AlreadyInWatchlist)
        <==> Truthy(req.imdbID) && Truthy(req.title) && ContainsImdbId(list, req.imdbID)
    ensures r.Failure? ==> r.error == FieldsRequired || r.error == AlreadyInWatchlist
    ensures r.Success? ==>
      && |r.value.list| == |list| + 1
      && r.value.list[..|list|] == list
      && r.value.list[|list|] == r.value.entry
    ensures r.Success? ==>
      && r.value.entry.id == freshId
      && r.value.entry.imdbID == req.imdbID
      && r.value.entry.title == req.title
      && r.value.entry.year == req.year
      && r.value.entry.poster == req.poster
      && r.value.entry.plot == req.plot
      && r.value.entry.watched == Bool(false)
      && r.value.entry.rating == Null
      && r.value.entry.dateAdded == now
  {
    if !Truthy(req.imdbID) || !Truthy(req.title) then
      Failure(FieldsRequired)
    else if FindByImdbId(list, req.imdbID).Some? then
      Failure(AlreadyInWatchlist)
    else
      var e := NewEntry(req, freshId, now);
      Success(Change(list + [e], e))
  }

  /** The entry after `PUT /watchlist/:id`: `watched` is replaced only by a
      boolean, `rating` by any value that is not `undefined`. */
  function Patch(e: Entry, req: UpdateRequest): Entry
  {
    e.(watched := if IsBoolean(req.watched) then req.watched else e.watched,
       rating := if req.rating.Undefined? then e.rating else req.rating)
  }

  /** `PUT /watchlist/:id`: patch the first entry with that id. */
  function Update(list: seq<Entry>, id: string, req: UpdateRequest): (r: Result<Change, ApiError>)
    ensures r.Failure? <==> !HasId(list, id)
    ensures r.Failure? ==> r.error == NotInWatchlist
    ensures r.Success? ==>
      && FirstIndexById(list, id).Some?
      && var i := FirstIndexById(list, id).value;
      && |r.value.list| == |list|
      && r.value.list[i] == r.value.entry
      && (forall j :: 0 <= j < |list| && j != i ==> r.value.list[j] == list[j])
      && SameIdentity(list[i], r.value.entry)
      && (IsBoolean(req.watched) ==> r.value.entry.watched == req.watched)
      && (!IsBoolean(req.watched) ==> r.value.entry.watched == list[i].watched)
      && (!req.rating.Undefined? ==> r.value.entry.rating == req.rating)
      && (req.rating.Undefined? ==> r.value.entry.rating == list[i].rating)
  {
    match FirstIndexById(list, id)
    case None => Failure(NotInWatchlist)
    case Some(i) =>
      var e := Patch(list[i], req);
      Success(Change(list[i := e], e))
  }

  /** `DELETE /watchlist/:id`: splice out the first entry with that id. */
  function Remove(list: seq<Entry>, id: string): (r: Result<Change, ApiError>)
    ensures r.Failure? <==> !HasId(list, id)
    ensures r.Failure? ==> r.error == NotInWatchlist
    ensures r.Success? ==>
      && FirstIndexById(list, id).Some?
      && var i := FirstIndexById(list, id).value;
      && r.value.entry == list[i]
      && r.value.entry.id == id
      && |r.value.list| == |list| - 1
      && r.value.list == list[..i] + list[i + 1..]
  {
    match FirstIndexById(list, id)
    case None => Failure(NotInWatchlist)
    case Some(i) => Success(Change(list[..i] + list[i + 1..], list[i]))
  }

  // ---------------------------------------------------------------------
  // Invariants the transitions keep
  // ---------------------------------------------------------------------

  /** A successful add keeps imdbIDs pairwise distinct and every `watched`
      flag boolean. */
  lemma AddPreservesConsistency(list: seq<Entry>, req: AddRequest, freshId: string, now: string)
    requires Consistent(list)
    ensures Add(list, req, freshId, now).Success? ==> Consistent(Add(list, req, freshId, now).value.list)
  {
  }

  /** An add keeps ids distinct when the generated id is not already used:
      the route itself never checks this. */
  lemma AddKeepsIdsDistinct(list: seq<Entry>, req: AddRequest, freshId: string, now: string)
    requires DistinctIds(list)
    requires !HasId(list, freshId)
    ensures Add(list, req, freshId, now).Success? ==> DistinctIds(Add(list, req, freshId, now).value.list)
  {
  }

  /** Conversely, a generated id that is already in use leaves two entries
      with the same id after a successful add. */
  lemma AddWithUsedIdBreaksDistinctIds(list: seq<Entry>, req: AddRequest, freshId: string, now: string)
    requires HasId(list, freshId)
    ensures Add(list, req, freshId, now).Success? ==> !DistinctIds(Add(list, req, freshId, now).value.list)
  {
  }

  /** A successful update keeps imdbIDs pairwise distinct and every `watched`
      flag boolean. */
  lemma UpdatePreservesConsistency(list: seq<Entry>, id: string, req: UpdateRequest)
    requires Consistent(list)
    ensures Update(list, id, req).Success? ==> Consistent(Update(list, id, req).value.list)
  {
  }

  /** A successful remove keeps imdbIDs pairwise distinct and every `watched`
      flag boolean. */
  lemma RemovePreservesConsistency(list: seq<Entry>, id: string)
    requires Consistent(list)
    ensures Remove(list, id).Success? ==> Consistent(Remove(list, id).value.list)
  {
  }

  // ---------------------------------------------------------------------
  // Relations between the transitions
  // ---------------------------------------------------------------------

  /** After a successful add, exactly one entry carries the new imdbID,
      unless that imdbID is an object or array, which `===` never matches. */
  lemma AddedImdbIdOccursOnce(list: seq<Entry>, req: AddRequest, freshId: string, now: string)
    requires Add(list, req, freshId, now).Success?
    ensures CountImdbId(Add(list, req, freshId, now).value.list, req.imdbID)
         == (if req.imdbID.Composite? then 0 else 1)
  {
    var r := Add(list, req, freshId, now);
    assert r.value.list == list + [r.value.entry];
    CountImdbIdAppend(list, r.value.entry, req.imdbID);
    CountImdbIdZero(list, req.imdbID);
  }

  /** Removing the entry just added, by its fresh id, gives back the list as
      it was before the add, and answers with the added entry. */
  lemma AddThenRemoveRestores(list: seq<Entry>, req: AddRequest, freshId: string, now: string)
    requires !HasId(list, freshId)
    requires Add(list, req, freshId, now).Success?
    ensures Remove(Add(list, req, freshId, now).value.list, freshId)
         == Success(Change(list, NewEntry(req, freshId, now)))
  {
    var l := Add(list, req, freshId, now).value.list;
    var k := FirstIndexById(l, freshId).value;
    assert k == |list|;
    assert l[..k] == list;
    assert l[k + 1..] == [];
    assert list + [] == list;
  }

  /** A removal is undone by putting the removed entry back where it was. */
  lemma RemoveUndoneByReinsertion(list: seq<Entry>, id: string)
    requires Remove(list, id).Success?
    ensures var i := FirstIndexById(list, id).value;
            var c := Remove(list, id).value;
            c.list[..i] + [c.entry] + c.list[i..] == list
  {
  }

  /** When ids are distinct, the removed id no longer occurs in the list. */
  lemma RemoveEliminatesId(list: seq<Entry>, id: string)
    requires DistinctIds(list)
    requires Remove(list, id).Success?
    ensures !HasId(Remove(list, id).value.list, id)
  {
  }

  /** Sending the same update twice has the effect of sending it once. */
  lemma UpdateIdempotent(list: seq<Entry>, id: string, req: UpdateRequest)
    requires Update(list, id, req).Success?
    ensures Update(Update(list, id, req).value.list, id, req) == Update(list, id, req)
  {
    var c := Update(list, id, req).value;
    var k := FirstIndexById(list, id).value;
    var k' := FirstIndexById(c.list, id).value;
    assert k' == k;
    assert c.list[k := Patch(c.list[k], req)] == c.list;
  }

  /** An update carrying neither a boolean `watched` nor a defined `rating`
      finds its entry but changes nothing. */
  lemma UpdateWithoutFieldsChangesNothing(list: seq<Entry>, id: string, req: UpdateRequest)
    requires HasId(list, id)
    requires !IsBoolean(req.watched) && req.rating.Undefined?
    ensures Update(list, id, req).Success?
    ensures Update(list, id, req).value.list == list
  {
  }
}
