/** The error responses of the backend routes: each variant is one
    `res.status(...).json({ error: ... })` of backend/routes.js. */
module Errors {
  import opened JsValues

  /** Which mutating route failed to persist the watchlist. */
  datatype Mutation = AddMovie | UpdateMovie | RemoveMovie

  datatype ApiError =
    | QueryRequired                       // search without a truthy `q`
    | ApiKeyNotConfigured                 // search without the collaborator key
    | SearchFailed                        // search: collaborator or mapping failure
    | DetailsNotFound(upstream: JsValue)  // details: collaborator said "False"
    | DetailsFailed                       // details: collaborator failure
    | FieldsRequired                      // add without a truthy imdbID or title
    | AlreadyInWatchlist                  // add of an imdbID already present
    | NotInWatchlist                      // update/remove of an unknown id
    | WriteFailed(op: Mutation)           // writeWatchlist returned false

  /** The HTTP status each error is sent with. */
  function Status(e: ApiError): (code: int)
    ensures code == 400 <==> e.QueryRequired? || e.FieldsRequired? || e.AlreadyInWatchlist?
    ensures code == 404 <==> e.DetailsNotFound? || e.NotInWatchlist?
    ensures code == 500 <==> e.ApiKeyNotConfigured? || e.SearchFailed? || e.DetailsFailed? || e.WriteFailed?
  {
    match e
    case QueryRequired => 400
    case FieldsRequired => 400
    case AlreadyInWatchlist => 400
    case DetailsNotFound(_) => 404
    case NotInWatchlist => 404
    case ApiKeyNotConfigured => 500
    case SearchFailed => 500
    case DetailsFailed => 500
    case WriteFailed(_) => 500
  }

  /** The `error` field of the JSON body each error is sent with. */
  function Message(e: ApiError): (m: JsValue)
    ensures e.DetailsNotFound? ==> m == e.upstream
    ensures !e.DetailsNotFound? ==> m.Str? && m.s != ""
  {
    match e
    case QueryRequired => Str("Query parameter \"q\" is required")
    case ApiKeyNotConfigured => Str("API key is not configured")
    case SearchFailed => Str("Internal server error")
    case DetailsNotFound(upstream) => upstream
    case DetailsFailed => Str("Failed to get movie details")
    case FieldsRequired => Str("imdbID and title are required")
    case AlreadyInWatchlist => Str("Movie already in watchlist")
    case NotInWatchlist => Str("Movie not found in watchlist")
    case WriteFailed(AddMovie) => Str("Failed to save movie to watchlist")
    case WriteFailed(UpdateMovie) => Str("Failed to update movie")
    case WriteFailed(RemoveMovie) => Str("Failed to remove movie from watchlist")
  }
}
