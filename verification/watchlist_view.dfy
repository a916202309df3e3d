/** The client-side part of the watchlist page
    (frontend/src/pages/WatchList.js): the status filter over the fetched
    list and the choice between the grid and the empty-state message. */
module WatchlistView {
  import opened JsValues
  import opened Entries
  import opened Watchlist

  /** `a` is a subsequence of `b`: `a` can be read off `b` left to right by
      skipping elements. */
  predicate IsSubsequence<T(==)>(a: seq<T>, b: seq<T>)
    decreases |b|
  {
    if |a| == 0 then true
    else if |b| == 0 then false
    else if a[0] == b[0] then IsSubsequence(a[1..], b[1..])
    else IsSubsequence(a, b[1..])
  }

  /** The entries whose `watched` flag has truthiness `watched`, in list
      order: `filter(movie => movie.watched)` for true and
      `filter(movie => !movie.watched)` for false. */
  function Select(list: seq<Entry>, watched: bool): (r: seq<Entry>)
    ensures |r| <= |list|
    ensures forall k :: 0 <= k < |r| ==> Truthy(r[k].watched) == watched
    ensures forall e :: multiset(r)[e] == if Truthy(e.watched) == watched then multiset(list)[e] else 0
    ensures IsSubsequence(r, list)
  {
    if |list| == 0 then []
    else
      assert list == [list[0]] + list[1..];
      var rest := Select(list[1..], watched);
      if Truthy(list[0].watched) == watched then
        assert ([list[0]] + rest)[1..] == rest;
        [list[0]] + rest
      else
        rest
  }

  /** `filterWatchlist`: 'watched' and 'unwatched' select by the flag, any
      other key leaves the list as it is. */
  function FilterWatchlist(list: seq<Entry>, currentFilter: string): (r: seq<Entry>)
    ensures currentFilter != "watched" && currentFilter != "unwatched" ==> r == list
    ensures currentFilter == "watched" ==> r == Select(list, true)
    ensures currentFilter == "unwatched" ==> r == Select(list, false)
  {
    if currentFilter == "watched" then Select(list, true)
    else if currentFilter == "unwatched" then Select(list, false)
    else list
  }

  /** What the page shows under its header. */
  datatype Panel = Grid(movies: seq<Entry>) | EmptyState(text: string)

  const EmptyWatchlistText := "Your watchlist is empty. Go search for some movies!"

  /** The grid when the filtered list has entries; otherwise the empty-state
      text, which blames the filter only when the watchlist itself is not
      empty. */
  function ShowWatchlist(watchlist: seq<Entry>, filtered: seq<Entry>, currentFilter: string): (p: Panel)
    ensures p.Grid? <==> |filtered| != 0
    ensures p.Grid? ==> p.movies == filtered
    ensures |filtered| == 0 && |watchlist| == 0 ==> p == EmptyState(EmptyWatchlistText)
    ensures |filtered| == 0 && |watchlist| != 0 && currentFilter == "all" ==> p == EmptyState("No  movies found.")
    ensures |filtered| == 0 && |watchlist| != 0 && currentFilter != "all"
        ==> p == EmptyState("No " + currentFilter + " movies found.")
  {
    if |filtered| != 0 then Grid(filtered)
    else if |watchlist| == 0 then EmptyState(EmptyWatchlistText)
    else EmptyState("No " + (if currentFilter == "all" then "" else currentFilter) + " movies found.")
  }

  // ---------------------------------------------------------------------
  // Properties of the filter
  // ---------------------------------------------------------------------

  /** The watched and the unwatched view split the list: their lengths add
      up to the list's length, and their contents to its contents. */
  lemma FilterPartitions(list: seq<Entry>)
    ensures |FilterWatchlist(list, "watched")| + |FilterWatchlist(list, "unwatched")| == |list|
    ensures multiset(FilterWatchlist(list, "watched")) + multiset(FilterWatchlist(list, "unwatched")) == multiset(list)
  {
  }

  /** Selecting from a list whose every entry already qualifies returns it
      unchanged. */
  lemma {:induction false} SelectKeepsQualifyingList(list: seq<Entry>, watched: bool)
    requires forall k :: 0 <= k < |list| ==> Truthy(list[k].watched) == watched
    ensures Select(list, watched) == list
  {
    if |list| != 0 {
      SelectKeepsQualifyingList(list[1..], watched);
      assert list == [list[0]] + list[1..];
    }
  }

  /** Filtering twice with the same key is filtering once. */
  lemma FilterIdempotent(list: seq<Entry>, currentFilter: string)
    ensures FilterWatchlist(FilterWatchlist(list, currentFilter), currentFilter)
         == FilterWatchlist(list, currentFilter)
  {
    if currentFilter == "watched" {
      SelectKeepsQualifyingList(Select(list, true), true);
    } else if currentFilter == "unwatched" {
      SelectKeepsQualifyingList(Select(list, false), false);
    }
  }

  /** The filtered view is empty exactly when no entry qualifies. */
  lemma SelectEmptyIff(list: seq<Entry>, watched: bool)
    ensures |Select(list, watched)| == 0 <==> forall k :: 0 <= k < |list| ==> Truthy(list[k].watched) != watched
  {
  }

  /** On a list whose flags are all booleans, the watched view holds exactly
      the entries marked `true` and the unwatched view those marked `false`. */
  lemma FilterOnBooleanFlags(list: seq<Entry>, e: Entry)
    requires BooleanWatchedFlags(list)
    ensures e in FilterWatchlist(list, "watched") <==> e in list && e.watched == Bool(true)
    ensures e in FilterWatchlist(list, "unwatched") <==> e in list && e.watched == Bool(false)
  {
  }

  /** The watched toggle of a watchlist item sends `{ watched: !watched }`:
      after that update the entry is in the view the new flag selects and
      not in the other one. */
  lemma ToggledEntryChangesView(list: seq<Entry>, id: string, watched: bool)
    requires HasId(list, id)
    ensures var c := Update(list, id, UpdateRequest(Bool(watched), Undefined)).value;
      && c.entry.watched == Bool(watched)
      && c.entry in FilterWatchlist(c.list, if watched then "watched" else "unwatched")
      && c.entry !in FilterWatchlist(c.list, if watched then "unwatched" else "watched")
  {
  }

  // ---------------------------------------------------------------------
  // Properties of the empty state
  // ---------------------------------------------------------------------

  /** An empty watchlist always shows the "watchlist is empty" text, whatever
      the filter. */
  lemma EmptyWatchlistMessage(currentFilter: string)
    ensures ShowWatchlist([], FilterWatchlist([], currentFilter), currentFilter) == EmptyState(EmptyWatchlistText)
  {
  }

  /** With a non-empty watchlist and a key other than 'watched' or
      'unwatched' (so in particular 'all'), the grid shows the whole list: the
      "No ... movies found." text cannot appear. */
  lemma UnfilteredNonEmptyShowsGrid(watchlist: seq<Entry>, currentFilter: string)
    requires |watchlist| != 0
    requires currentFilter != "watched" && currentFilter != "unwatched"
    ensures ShowWatchlist(watchlist, FilterWatchlist(watchlist, currentFilter), currentFilter) == Grid(watchlist)
  {
  }

  /** With key 'watched' or 'unwatched', the "No <key> movies found." text
      appears exactly when the watchlist has entries but none of them has
      the flag the key asks for. */
  lemma NoMatchesMessage(watchlist: seq<Entry>, currentFilter: string)
    requires currentFilter == "watched" || currentFilter == "unwatched"
    ensures ShowWatchlist(watchlist, FilterWatchlist(watchlist, currentFilter), currentFilter)
            == EmptyState("No " + currentFilter + " movies found.")
        <==> && |watchlist| != 0
             && forall k :: 0 <= k < |watchlist| ==> Truthy(watchlist[k].watched) != (currentFilter == "watched")
  {
  }
}
