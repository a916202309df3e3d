/** The two routes of backend/routes.js that forward to the external movie
    database: `GET /search` and `GET /movie/:imdbId`. The collaborator's reply
    is a parameter; `Unreachable` stands for any failure of the call itself
    (network error, timeout, non-2xx status), which the route catches. */
module LookupProxy {
  import opened JsValues
  import opened Wrappers
  import opened Errors

  /** The collaborator's answer, or the failure of the call. */
  datatype Upstream<T> = Unreachable | Answered(data: T)

  /** One element of the collaborator's `Search` array, in its own field names. */
  datatype RawMovie = RawMovie(Title: JsValue, Year: JsValue, Poster: JsValue, imdbID: JsValue)

  /** The collaborator's `Search` field: absent or any other falsy value, an
      array of results, or a truthy value that is not an array (which has no
      `map` and makes the route throw). */
  datatype SearchField = NoList | Results(raw: seq<RawMovie>) | NotAList

  /** The collaborator's search reply. */
  datatype SearchReply = SearchReply(Response: JsValue, Error: JsValue, Search: SearchField)

  /** The collaborator's detail reply. */
  datatype DetailsReply = DetailsReply(
    Response: JsValue, Error: JsValue,
    Title: JsValue, Year: JsValue, Poster: JsValue, Plot: JsValue, imdbID: JsValue)

  /** A search result in the backend's lower-case schema. */
  datatype Movie = Movie(id: JsValue, title: JsValue, year: JsValue, poster: JsValue, imdbID: JsValue)

  /** The detail record in the backend's lower-case schema. */
  datatype MovieDetails = MovieDetails(
    id: JsValue, title: JsValue, year: JsValue, poster: JsValue, plot: JsValue, imdbID: JsValue)

  /** The body of a successful search: `message` is `Undefined` when the
      route sends none. */
  datatype SearchAnswer = SearchAnswer(movies: seq<Movie>, message: JsValue)

  /** `process.env.OMDB_API_KEY` counts as missing when unset or empty. */
  predicate KeyConfigured(apiKey: Option<string>)
  {
    apiKey.Some? && apiKey.value != ""
  }

  /** One search result renamed to the lower-case schema, keyed by its imdbID. */
  function Normalize(m: RawMovie): Movie
  {
    Movie(m.imdbID, m.Title, m.Year, m.Poster, m.imdbID)
  }

  /** `raw.map(movie => ({ id: movie.imdbID, ... }))`. */
  function NormalizeAll(raw: seq<RawMovie>): (r: seq<Movie>)
    ensures |r| == |raw|
    ensures forall k :: 0 <= k < |r| ==>
      && r[k].id == raw[k].imdbID
      && r[k].imdbID == raw[k].imdbID
      && r[k].title == raw[k].Title
      && r[k].year == raw[k].Year
      && r[k].poster == raw[k].Poster
  {
    if |raw| == 0 then [] else [Normalize(raw[0])] + NormalizeAll(raw[1..])
  }

  /** The search route with the collaborator's "no results" marker as the
      literal it compares against. */
  function SearchWith(noResults: string, q: JsValue, apiKey: Option<string>, reply: Upstream<SearchReply>)
    : Result<SearchAnswer, ApiError>
  {
    if !Truthy(q) then Failure(QueryRequired)
    else if !KeyConfigured(apiKey) then Failure(ApiKeyNotConfigured)
    else match reply
      case Unreachable => Failure(SearchFailed)
      case Answered(data) =>
        if StrictEquals(data.Response, Str(noResults)) then Success(SearchAnswer([], data.Error))
        else match data.Search
          case NoList => Success(SearchAnswer([], Undefined))
          case Results(raw) => Success(SearchAnswer(NormalizeAll(raw), Undefined))
          case NotAList => Failure(SearchFailed)
  }

  /** `GET /search` as written: the no-results test compares `Response` with
      the lower-case string "false". */
  function Search(q: JsValue, apiKey: Option<string>, reply: Upstream<SearchReply>): (r: Result<SearchAnswer, ApiError>)
    ensures !Truthy(q) ==> r == Failure(QueryRequired)
    ensures Truthy(q) && !KeyConfigured(apiKey) ==> r == Failure(ApiKeyNotConfigured)
    ensures Truthy(q) && KeyConfigured(apiKey) && reply.Unreachable? ==> r == Failure(SearchFailed)
    ensures Truthy(q) && KeyConfigured(apiKey) && reply.Answered? ==>
      if reply.data.Response == Str("false") then
        r == Success(SearchAnswer([], reply.data.Error))
      else match reply.data.Search
        case NoList => r == Success(SearchAnswer([], Undefined))
        case NotAList => r == Failure(SearchFailed)
        case Results(raw) =>
          && r.Success?
          && r.value.message == Undefined
          && |r.value.movies| == |raw|
          && forall k :: 0 <= k < |raw| ==> r.value.movies[k] == Normalize(raw[k])
  {
    StrictEqualsString(if reply.Answered? then reply.data.Response else Undefined, "false");
    SearchWith("false", q, apiKey, reply)
  }

  /** `GET /search` with the no-results marker the collaborator sends, the
      capitalised "False" the detail route already tests for: a search with
      no matches then passes on the collaborator's message. */
  function SearchIntended(q: JsValue, apiKey: Option<string>, reply: Upstream<SearchReply>): (r: Result<SearchAnswer, ApiError>)
    ensures Truthy(q) && KeyConfigured(apiKey) && reply.Answered? && reply.data.Response == Str("False") ==>
      r == Success(SearchAnswer([], reply.data.Error))
    ensures reply.Answered? && reply.data.Response != Str("False") && reply.data.Response != Str("false") ==>
      r == Search(q, apiKey, reply)
    ensures !reply.Answered? ==> r == Search(q, apiKey, reply)
    ensures !(Truthy(q) && KeyConfigured(apiKey)) ==> r == Search(q, apiKey, reply)
    ensures reply.Answered? && reply.data.Response == Str("false")
        ==> r == Search(q, apiKey, Answered(reply.data.(Response := Undefined)))
  {
    StrictEqualsString(if reply.Answered? then reply.data.Response else Undefined, "False");
    StrictEqualsString(if reply.Answered? then reply.data.Response else Undefined, "false");
    SearchWith("False", q, apiKey, reply)
  }

  /** A collaborator reply announcing no matches in its own spelling. */
  const NoMatchReply := SearchReply(Str("False"), Str("Movie not found!"), NoList)

  /** As written, a search with no matches answers with an empty list and no
      message, so the collaborator's explanation is lost; the intended route
      passes it on. */
  lemma SearchDropsNoMatchMessage()
    ensures Search(Str("batman"), Some("key"), Answered(NoMatchReply)) == Success(SearchAnswer([], Undefined))
    ensures SearchIntended(Str("batman"), Some("key"), Answered(NoMatchReply))
         == Success(SearchAnswer([], Str("Movie not found!")))
  {
  }

  /** `GET /movie/:imdbId`. The route passes the API key on without checking
      it. */
  function Details(reply: Upstream<DetailsReply>): (r: Result<MovieDetails, ApiError>)
    ensures r == Failure(DetailsFailed) <==> reply.Unreachable?
    ensures r.Success? <==> reply.Answered? && reply.data.Response != Str("False")
    ensures r.Failure? && r.error.DetailsNotFound? <==> reply.Answered? && reply.data.Response == Str("False")
    ensures r.Failure? && r.error.DetailsNotFound? ==> r.error.upstream == reply.data.Error
    ensures r.Success? ==>
      && r.value.id == reply.data.imdbID
      && r.value.imdbID == reply.data.imdbID
      && r.value.title == reply.data.Title
      && r.value.year == reply.data.Year
      && r.value.poster == reply.data.Poster
      && r.value.plot == reply.data.Plot
  {
    match reply
    case Unreachable => Failure(DetailsFailed)
    case Answered(data) =>
      StrictEqualsString(data.Response, "False");
      if StrictEquals(data.Response, Str("False")) then Failure(DetailsNotFound(data.Error))
      else Success(MovieDetails(data.imdbID, data.Title, data.Year, data.Poster, data.Plot, data.imdbID))
  }

  /** The detail route answers 404 exactly when the collaborator's reply says
      "False", and then passes on the collaborator's error text; every other
      answered reply is a 200 with the renamed record. */
  lemma DetailsNotFoundIff(reply: Upstream<DetailsReply>)
    ensures Details(reply).Failure? && Status(Details(reply).error) == 404
        <==> reply.Answered? && reply.data.Response == Str("False")
    ensures Details(reply).Failure? && Status(Details(reply).error) == 404
        ==> Message(Details(reply).error) == reply.data.Error
    ensures reply.Answered? && reply.data.Response != Str("False")
        ==> Details(reply) == Success(MovieDetails(reply.data.imdbID, reply.data.Title, reply.data.Year,
                                                   reply.data.Poster, reply.data.Plot, reply.data.imdbID))
  {
  }
}
