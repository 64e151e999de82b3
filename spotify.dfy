/**
 * The catalog client (src/utils/spotify.js) as written: a process-wide session holding the API
 * client's access token and the shared `retries` counter, a token refresh, and the search by
 * ISRC. The search's retry guard `getRetries > 0` compares the function `getRetries` itself, not
 * its result, with 0: the function converts to NaN, `NaN > 0` is false, and so after a 401 the
 * client refreshes the token once and gives up with no value. `useRetry` is never reached.
 */
module Spotify {
  import opened Wrappers
  import opened Catalog

  const MAX_RETRIES: int := 3

  const QUERY_PREFIX: string := "isrc:"

  /**
   * The session's state: whether `initSpotifyApi` has created the API client, the access token
   * the client holds, and the shared retry counter.
   */
  datatype Session = Session(apiReady: bool, accessToken: Option<string>, retries: int)

  /** The session at module load: no client yet, `retries = MAX_RETRIES`. */
  const INITIAL: Session := Session(false, None, MAX_RETRIES)

  /** `!response.access_token` is false: the body holds a non-empty token. */
  predicate CarriesToken(response: TokenResponse)
  {
    response.TokenJson? && response.accessToken.Token? && response.accessToken.value != ""
  }

  /**
   * `refreshToken`: the session afterwards, and whether the client's token was replaced. A fetch
   * or decoding failure, a body without a token, or a call before the client exists (where
   * `setAccessToken` throws) is caught and logged, and leaves the session as it was.
   */
  function Refresh(s: Session, response: TokenResponse): (r: (Session, bool))
    ensures r.1 <==> s.apiReady && CarriesToken(response)
    ensures r.1 ==> r.0 == s.(accessToken := Some(response.accessToken.value))
    ensures !r.1 ==> r.0 == s
  {
    if !CarriesToken(response) || !s.apiReady then (s, false)
    else (s.(accessToken := Some(response.accessToken.value)), true)
  }

  /**
   * `searchByISRC` for one upstream answer `response` to the query, with `token` the answer of the
   * token endpoint should a refresh happen: the session afterwards and the items, if any.
   */
  function Search(s: Session, response: SearchResponse, token: TokenResponse): (r: (Session, Option<seq<Candidate>>))
    ensures r.1.Some? <==> s.apiReady && response.Items? && |response.items| > 0
    ensures r.1.Some? ==> r.1.value == response.items && r.0 == s.(retries := MAX_RETRIES)
    ensures r.1.None? ==> r.0.retries == s.retries
    ensures r.0.apiReady == s.apiReady
    ensures r.0.accessToken != s.accessToken ==> response == Failure(Status(UNAUTHORIZED))
  {
    if !s.apiReady then
      (s, None)   // `SpotifyApi` is undefined: a TypeError without a status code
    else
      match response
      case Items(items) =>
        if |items| < 1 then (s, None)   // "Song not found" carries no status code
        else (s.(retries := MAX_RETRIES), Some(items))
      case Failure(code) =>
        if code == Status(UNAUTHORIZED) then (Refresh(s, token).0, None)   // the guard is false
        else (s, None)
  }

  /** A 401 refreshes the token exactly once and yields no value; the counter is untouched. */
  lemma UnauthorizedRefreshesOnce(s: Session, token: TokenResponse)
    requires s.apiReady
    ensures Search(s, Failure(Status(UNAUTHORIZED)), token) == (Refresh(s, token).0, None)
  {
  }

  /** An empty result yields no value and changes nothing: no refresh, no retry. */
  lemma EmptyResultChangesNothing(s: Session, token: TokenResponse)
    ensures Search(s, Items([]), token) == (s, None)
  {
  }

  /** The operations of the client that change the session, each with its upstream answers. */
  datatype Request =
    | InitApi(token: TokenResponse)
    | RefreshToken(token: TokenResponse)
    | SearchIsrc(response: SearchResponse, token: TokenResponse)

  /** The session after one request. */
  function Apply(s: Session, request: Request): Session
  {
    match request
    case InitApi(token) => Refresh(s.(apiReady := true, accessToken := None), token).0
    case RefreshToken(token) => Refresh(s, token).0
    case SearchIsrc(response, token) => Search(s, response, token).0
  }

  /** The session after a sequence of requests, in order. */
  function Run(s: Session, requests: seq<Request>): Session
    decreases |requests|
  {
    if requests == [] then s else Run(Apply(s, requests[0]), requests[1..])
  }

  /**
   * As written, `retries` is `MAX_RETRIES` forever: it starts there, a successful search resets
   * it there, and nothing that runs decrements it.
   */
  lemma {:induction false} RetriesStayAtMax(s: Session, requests: seq<Request>)
    requires s.retries == MAX_RETRIES
    ensures Run(s, requests).retries == MAX_RETRIES
    decreases |requests|
  {
    if requests != [] {
      RetriesStayAtMax(Apply(s, requests[0]), requests[1..]);
    }
  }

  /** The session from module load onwards: the counter never moves off `MAX_RETRIES`. */
  lemma RetriesFromLoad(requests: seq<Request>)
    ensures Run(INITIAL, requests).retries == MAX_RETRIES
  {
    RetriesStayAtMax(INITIAL, requests);
  }

  /** The module-level state of src/utils/spotify.js. */
  class SpotifySession {
    var apiReady: bool
    var accessToken: Option<string>
    var retries: int

    function State(): Session
      reads this
    {
      Session(apiReady, accessToken, retries)
    }

    /** Module load: `let retries = MAX_RETRIES`, and no API client yet. */
    constructor ()
      ensures State() == INITIAL
    {
      apiReady := false;
      accessToken := None;
      retries := MAX_RETRIES;
    }

    /** `getRetries`: the counter's current value. */
    function GetRetries(): int
      reads this
    {
      retries
    }

    /** `resetRetries`: the counter back to `MAX_RETRIES`. */
    method ResetRetries()
      modifies this
      ensures State() == old(State()).(retries := MAX_RETRIES)
    {
      retries := MAX_RETRIES;
    }

    /** `useRetry`: one retry spent. Only the unreachable retry branch calls it. */
    method UseRetry()
      modifies this
      ensures State() == old(State()).(retries := old(retries) - 1)
    {
      retries := retries - 1;
    }

    /**
     * `refreshToken`: exchanges the client credentials for a token (the endpoint's answer is
     * `response`) and installs it; `updated` says whether the token was replaced.
     */
    method RefreshToken(response: TokenResponse) returns (updated: bool)
      modifies this
      ensures (State(), updated) == Refresh(old(State()), response)
      ensures updated <==> old(apiReady) && CarriesToken(response)
      ensures !updated ==> State() == old(State())
    {
      if !CarriesToken(response) {
        // "Spotify Authorization Failed", caught and logged
        return false;
      }
      if !apiReady {
        // `SpotifyApi.setAccessToken` on undefined throws, caught and logged
        return false;
      }
      accessToken := Some(response.accessToken.value);
      updated := true;
    }

    /** `initSpotifyApi`: a new API client, which holds no token, then a token refresh. */
    method InitSpotifyApi(response: TokenResponse)
      modifies this
      ensures State() == Apply(old(State()), InitApi(response))
      ensures apiReady && retries == old(retries)
      ensures accessToken == if CarriesToken(response) then Some(response.accessToken.value) else None
    {
      apiReady := true;
      accessToken := None;
      var _ := RefreshToken(response);
    }

    /**
     * `searchByISRC`: asks the catalog (`catalog` answers each query string) for the tracks of
     * `isrc`, with `token` the token endpoint's answer should a refresh happen.
     */
    method SearchByISRC(isrc: string, catalog: string -> SearchResponse, token: TokenResponse)
      returns (items: Option<seq<Candidate>>)
      modifies this
      ensures (State(), items) == Search(old(State()), catalog(QUERY_PREFIX + isrc), token)
      ensures items.Some? ==> items.value == catalog(QUERY_PREFIX + isrc).items && |items.value| > 0
      ensures items.Some? ==> retries == MAX_RETRIES
      ensures items.None? ==> retries == old(retries)
    {
      if !apiReady {
        // `SpotifyApi.searchTracks` on undefined: a TypeError without a status code
        return None;
      }
      var query := QUERY_PREFIX + isrc;
      var response := catalog(query);
      match response {
        case Items(found) =>
          if |found| < 1 {
            // "Song not found": caught, no status code, nothing returned
            items := None;
          } else {
            ResetRetries();
            items := Some(found);
          }
        case Failure(code) =>
          items := None;
          if code == Status(UNAUTHORIZED) {
            var _ := RefreshToken(token);
            // `getRetries > 0` is `NaN > 0`, false: no retry, nothing returned
          }
      }
    }
  }
}
