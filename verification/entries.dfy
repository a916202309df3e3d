/** Watchlist entries, the lookups the routes perform on the entry list, and
    the invariants the routes keep (backend/routes.js). */
module Entries {
  import opened JsValues
  import opened Wrappers

  /** One watchlist record, with the fields the add route writes. `id` comes
      from the identifier generator and `dateAdded` from the clock; every other
      field holds the JSON value a client sent, `Undefined` when it sent none. */
  datatype Entry = Entry(
    id: string,
    imdbID: JsValue,
    title: JsValue,
    year: JsValue,
    poster: JsValue,
    plot: JsValue,
    watched: JsValue,
    rating: JsValue,
    dateAdded: string)

  /** Some entry has primary key `id`. */
  predicate HasId(list: seq<Entry>, id: string)
  {
    exists i :: 0 <= i < |list| && list[i].id == id
  }

  /** Some entry's imdbID is `===` to `imdbID`. */
  predicate ContainsImdbId(list: seq<Entry>, imdbID: JsValue)
  {
    exists i :: 0 <= i < |list| && StrictEquals(list[i].imdbID, imdbID)
  }

  /** `list.findIndex(movie => movie.id === id)`, with `None` for -1: the
      position of the FIRST entry with that id. */
  function FirstIndexById(list: seq<Entry>, id: string): (r: Option<nat>)
    ensures r.None? <==> !HasId(list, id)
    ensures r.Some? ==> r.value < |list| && list[r.value].id == id
    ensures r.Some? ==> forall j :: 0 <= j < r.value ==> list[j].id != id
  {
    if |list| == 0 then None
    else if list[0].id == id then Some(0)
    else
      match FirstIndexById(list[1..], id)
      case None =>
        assert forall i :: 1 <= i < |list| ==> list[i] == list[1..][i - 1];
        None
      case Some(k) => Some(k + 1)
  }

  /** The truthiness of `list.find(movie => movie.imdbID === imdbID)`, which
      is all the add route uses: some entry whose imdbID is strictly equal to
      the one given, or `None` when there is none. */
  function FindByImdbId(list: seq<Entry>, imdbID: JsValue): (r: Option<Entry>)
    ensures r.None? <==> !ContainsImdbId(list, imdbID)
    ensures r.Some? ==> r.value in list && StrictEquals(r.value.imdbID, imdbID)
  {
    if |list| == 0 then None
    else if StrictEquals(list[0].imdbID, imdbID) then Some(list[0])
    else
      var rest := FindByImdbId(list[1..], imdbID);
      assert forall i :: 1 <= i < |list| ==> list[i] == list[1..][i - 1];
      rest
  }

  /** No two entries have strictly equal imdbIDs: what the add route's
      duplicate check keeps true. */
  predicate DistinctImdbIds(list: seq<Entry>)
  {
    forall i, j :: 0 <= i < j < |list| ==> !StrictEquals(list[i].imdbID, list[j].imdbID)
  }

  /** Every `watched` flag is a boolean: the add route writes `false` and the
      update route only ever writes a boolean. */
  predicate BooleanWatchedFlags(list: seq<Entry>)
  {
    forall i :: 0 <= i < |list| ==> IsBoolean(list[i].watched)
  }

  /** The invariants the routes maintain on the stored list. */
  predicate Consistent(list: seq<Entry>)
  {
    DistinctImdbIds(list) && BooleanWatchedFlags(list)
  }

  /** No two entries share an id. The routes never check this; it holds only
      as long as the identifier generator never repeats itself. */
  predicate DistinctIds(list: seq<Entry>)
  {
    forall i, j :: 0 <= i < j < |list| ==> list[i].id != list[j].id
  }

  /** How many entries have an imdbID `===` to `imdbID`. */
  function CountImdbId(list: seq<Entry>, imdbID: JsValue): nat
  {
    if |list| == 0 then 0
    else (if StrictEquals(list[0].imdbID, imdbID) then 1 else 0) + CountImdbId(list[1..], imdbID)
  }

  /** Appending one entry adds one to the count exactly when that entry
      matches. */
  lemma {:induction false} CountImdbIdAppend(list: seq<Entry>, e: Entry, imdbID: JsValue)
    ensures CountImdbId(list + [e], imdbID)
         == CountImdbId(list, imdbID) + (if StrictEquals(e.imdbID, imdbID) then 1 else 0)
  {
    if |list| == 0 {
      assert list + [e] == [e];
      assert [e][1..] == [];
    } else {
      assert (list + [e])[1..] == list[1..] + [e];
      CountImdbIdAppend(list[1..], e, imdbID);
    }
  }

  /** The count is zero exactly when no entry matches. */
  lemma {:induction false} CountImdbIdZero(list: seq<Entry>, imdbID: JsValue)
    ensures CountImdbId(list, imdbID) == 0 <==> !ContainsImdbId(list, imdbID)
  {
    if |list| != 0 {
      CountImdbIdZero(list[1..], imdbID);
      assert forall i :: 1 <= i < |list| ==> list[i] == list[1..][i - 1];
      if ContainsImdbId(list[1..], imdbID) {
        var i :| 0 <= i < |list[1..]| && StrictEquals(list[1..][i].imdbID, imdbID);
        assert StrictEquals(list[i + 1].imdbID, imdbID);
      }
    }
  }
}
