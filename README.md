# Track ingestion core of umg-api-demo, modelled in Dafny

The service ingests a track by ISRC. It searches the Spotify catalog, picks the most popular
candidate, resolves the candidate's credited artists to stored artist documents (creating the
missing ones), and stores the track in FaunaDB unless a track with that ISRC is already there.
This project models that core and proves its properties:

- `catalog.dfy` (module `Catalog`): the catalog's answers. These are candidate tracks with popularity, images, ISRC and credited artists; search failures with or without an HTTP status; and token-endpoint answers.
- `store.dfy` (module `Store`): the two FaunaDB collections, `artists` and `tracks`.
  - Each collection is the sequence of its documents in creation order, and a reference is a position in it, so a create never touches an existing document.
  - The user-defined functions `getArtistBySpotifyId` and `getTrackByISRC` are modelled as "the first document whose natural key matches".
  - A failed query is caught by `printErrors`, which returns nothing. It is modelled as a per-step `Fault` input, and the caller sees no value.
- `popularity.dfy` (module `PopularitySort`): `tracks.sort((a, b) => b.popularity - a.popularity)`.
  - `Array.prototype.sort` is stable (ECMA-262, 2019 edition onwards). With this comparator a stable sort has exactly one result, defined as `SortDesc`.
  - The in-place array sort is proved equal to `SortDesc`.
  - `SortDesc` is proved to be a permutation, ordered, and stable. Its head is the first candidate of maximal popularity.
- `artists.dfy` (module `Artists`): `getArtistById`, `saveArtist` and the check-then-create loop `getArtistRefs`, with its specification `Resolve`.
- `tracks.dfy` (module `Tracks`): `errorFormatter`, `getTrackByISRC`, `saveTrack`, and `writeTrack`.
  - `writeTrack` is modelled without request validation and the response object.
  - Its specification is `Ingest`, with idempotence, canonical-candidate and uniqueness lemmas.
- `spotify.dfy` (module `Spotify`): the process-wide session (`apiReady`, the access token, the shared `retries` counter) as class `SpotifySession`. It has `initSpotifyApi`, `refreshToken`, `searchByISRC`, `resetRetries` and `useRetry`.
  - `getRetries` is the plain reader `GetRetries`.
  - The search is modelled AS WRITTEN. The guard `getRetries > 0` (src/utils/spotify.js:54) compares the function object with 0. The function converts to NaN and `NaN > 0` is false, so after a 401 the client refreshes the token once and yields no value.
  - `RetriesStayAtMax` proves that the counter never leaves `MAX_RETRIES` (3).
- `spotify_intended.dfy` (module `SpotifyIntendedRetry`): a separate variant, not used by the pipeline, with the guard read as `getRetries() > 0`.
  - It proves that retries are bounded and that a search recovers after two 401s.
  - It also shows that even this reading issues `retries + 1` requests (4 with the full budget) before giving up. The budget is shared across calls and is reset only by a success.

Upstream calls are parameters:
- The catalog is a function from query string to answer.
- The token endpoint's answer is a value.
- Store faults are a list indexed by step.

Where the design description and the code differ, the model follows the code:
- A catalog miss or an authorization failure does not surface as an error. `searchByISRC` returns nothing, and `writeTrack` then throws at `tracks.sort` before any write.
- There is no retry after a 401.
- `saveTrack` answers an existing ISRC with the message "Track for ISRC already exists.", not with the stored record.
- The existence check uses the ISRC of the chosen candidate (`tracks[0].external_ids.isrc`), not the requested one.

## Model

| member | source | states |
|---|---|---|
| `Store.ArtistIndex` | src/controllers/artists.js:5-11 | the lookup yields a stored artist with the requested catalog id, the first such; it yields none exactly when no stored artist has that id |
| `Store.TrackIndex` | src/controllers/tracks.js:88-94 | the lookup yields the first stored track with the requested ISRC; none exactly when no stored track has it |
| `PopularitySort.FirstMostPopular` | src/controllers/tracks.js:28-31 | the position of a candidate whose popularity is maximal, and no earlier candidate reaches that popularity |
| `PopularitySort.SortByPopularity` | src/controllers/tracks.js:28 | the array afterwards is the stable sort of its old contents by descending popularity |
| `PopularitySort.SortDescPermutes` | src/controllers/tracks.js:28 | the sorted list is a permutation of the search result |
| `PopularitySort.SortDescOrdered` | src/controllers/tracks.js:28 | the sorted list is ordered non-increasing by popularity |
| `PopularitySort.SortDescStable` | src/controllers/tracks.js:28 | for every popularity value, the candidates with that value keep their upstream order |
| `PopularitySort.SortDescHead` | src/controllers/tracks.js:28-39 | `tracks[0]` after the sort has maximal popularity and is the earliest such candidate upstream |
| `PopularitySort.TieBreakExample` | src/controllers/tracks.js:28-31 | with scores [70, 90, 90, 50] the first 90 is the canonical candidate |
| `Artists.GetArtistById` | src/controllers/artists.js:5-11 | yields the stored artist with the id; a failed query yields nothing, the same as "not found" |
| `Artists.SaveArtist` | src/controllers/artists.js:45-55 | a successful save appends one artist document with `spotify_id`, `name`, `url` and yields its fresh reference; a failed one writes nothing and yields nothing |
| `Artists.GetArtistRefs` | src/controllers/artists.js:18-39 | the loop's collection and references are exactly those of `Resolve`; tracks are untouched |
| `Artists.ResolveSucceeds` | src/controllers/artists.js:24-33 | the call rejects only when a create yields nothing (`newDoc.ref` of undefined) |
| `Artists.ResolveAppendOnly` | src/controllers/artists.js:20-36 | documents stored before the call are unchanged; the collection only grows |
| `Artists.ResolveRefsMatch` | src/controllers/artists.js:18-38 | one reference per credited artist, in credit order, each to a stored artist with that catalog id; every credited id is stored afterwards |
| `Artists.ResolveCreatesFromCredits` | src/controllers/artists.js:24-33 | every created document is `spotify_id`=id, `name`, `url`=`external_urls.spotify` of a credited artist |
| `Artists.ResolveOneDeduplicates` | src/controllers/artists.js:20-35 | one step keeps catalog ids unique, keeps earlier lookups' answers, and its reference is the stored artist for the id |
| `Artists.ResolveDeduplicates` | src/controllers/artists.js:18-38 | with lookups succeeding: at most one artist per catalog id stays true, stored artists are reused, and each reference is THE stored artist of its id, so a repeated credit gets the same reference twice |
| `Artists.ResolveAllStored` | src/controllers/artists.js:22-24 | when every credited id is stored already, the collection is left unchanged and the call succeeds |
| `Artists.FailedLookupDuplicates` | src/controllers/artists.js:5-8 | a failed lookup leads to a create, so a stored artist gets a second document with the same catalog id |
| `Tracks.ErrorFormatterRoundTrip` | src/controllers/tracks.js:10-12 | `location[param]: msg` is read back into the same location, parameter and message (location without `[`, parameter without `]`) |
| `Tracks.GetTrackByISRC` | src/controllers/tracks.js:88-94 | yields the stored track with the ISRC; a failed query yields nothing, the same as "not found" |
| `Tracks.SaveTrack` | src/controllers/tracks.js:100-121 | a found ISRC: no write and the message "Track for ISRC already exists."; otherwise exactly one document holding the track's five fields is appended, or nothing when the create fails |
| `Tracks.SaveTrackIdempotent` | src/controllers/tracks.js:100-121 | a second save of the same track after a successful one writes nothing and returns the message |
| `Tracks.SaveTrackKeepsIsrcsUnique` | src/controllers/tracks.js:102-116 | when the lookup succeeds, at most one stored track per ISRC stays true |
| `Tracks.FailedLookupWritesAgain` | src/controllers/tracks.js:127-132 | a failed lookup is treated as absent: the track is created even when its ISRC is stored |
| `Tracks.WriteTrack` | src/controllers/tracks.js:18-46 | the session changes as one search does; no value from the search means nothing written and nothing sent; otherwise both collections and the reply are those of `Ingest` on the found items |
| `Tracks.IngestStoresCanonical` | src/controllers/tracks.js:28-45 | a created track copies name, first album image, id and ISRC of the first most popular candidate, and its artist references point, in credit order, to stored artists with the credited ids |
| `Tracks.IngestIdempotent` | src/controllers/tracks.js:31-45 | ingesting the same result twice without faults stores the track once; the second run changes neither collection and sends the message |
| `Tracks.IngestResolvesBeforeCheck` | src/controllers/tracks.js:31-45 | when the ISRC is already stored, no track is written, yet an unstored credited artist is created |
| `Tracks.IngestKeepsKeysUnique` | src/controllers/tracks.js:31-45 | with lookups succeeding, one artist per catalog id and one track per ISRC stay true, so tracks sharing an artist share one artist document |
| `Spotify.Refresh` | src/utils/spotify.js:17-39 | the token is replaced exactly when the client exists and the answer carries a non-empty `access_token`; otherwise the session is unchanged |
| `Spotify.Search` | src/utils/spotify.js:41-61 | items come back exactly when the client exists and the answer is a non-empty list, unchanged and in upstream order, with `retries` reset to 3; with no value `retries` is unchanged; the token changes only after a 401 |
| `Spotify.UnauthorizedRefreshesOnce` | src/utils/spotify.js:51-60 | a 401 refreshes once and yields no value: the retry behind the always-false guard never runs |
| `Spotify.EmptyResultChangesNothing` | src/utils/spotify.js:46-60 | an empty result yields no value, with no refresh and no change to `retries` |
| `Spotify.RetriesStayAtMax` | src/utils/spotify.js:54-55 | over any sequence of init, refresh and search calls, `retries` stays at `MAX_RETRIES` |
| `Spotify.RetriesFromLoad` | src/utils/spotify.js:4-6 | from module load on, `retries` is always 3 |
| `Spotify.SpotifySession.constructor` | src/utils/spotify.js:4-6 | at module load there is no client and `retries` is `MAX_RETRIES` |
| `Spotify.SpotifySession.ResetRetries` | src/utils/spotify.js:67-69 | `retries` becomes 3, nothing else changes |
| `Spotify.SpotifySession.UseRetry` | src/utils/spotify.js:71-73 | `retries` drops by one, nothing else changes |
| `Spotify.SpotifySession.RefreshToken` | src/utils/spotify.js:17-39 | the token is installed only from an answer carrying `access_token` and only when the client exists; otherwise the session is unchanged |
| `Spotify.SpotifySession.InitSpotifyApi` | src/utils/spotify.js:8-15 | a fresh client without a token, then one refresh; `retries` untouched |
| `Spotify.SpotifySession.SearchByISRC` | src/utils/spotify.js:41-61 | queries `"isrc:" + isrc` and changes the session and yields the items as `Search` does for the catalog's answer to that query |
| `SpotifyIntendedRetry.SearchWithRetry` | src/utils/spotify.js:52-58 | with the guard read as `getRetries() > 0`: between 1 and `retries + 1` requests; items come back exactly when one attempt found some |
| `SpotifyIntendedRetry.RecoversAfterTwoRefreshes` | src/utils/spotify.js:52-58 | with the intended guard, 401, 401, then items yields the items after three requests |
| `SpotifyIntendedRetry.ExhaustsOnPersistentUnauthorized` | src/utils/spotify.js:52-58 | with the intended guard, persistent 401s yield no value after exactly `retries + 1` requests, leaving the counter at 0 |

## Left out

- Express request handling: `validationResult` and the 400 reply, `res.status/json/send` (the reply is modelled as the value handed to `res.send`), and the `getTrack` and `getTracks` handlers. The `|| res.json(...)` fallbacks are never reached.
- What Express does with a handler whose promise rejects (the request gets no reply): the model says only that nothing is sent.
- src/index.js (bootstrap and routing) and src/utils/validators.js (express-validator wrappers) are not part of this model.
- Network and encoding: the `fetch` to the token endpoint, `SpotifyWebApi.searchTracks` and the base64 Basic header. Their outcomes are inputs (`SearchResponse`, `TokenResponse`); the catalog answer is a function of the query string only.
- Inside `printErrors`: `JSON.parse` and `console.log` (and that it could itself throw on an unexpected error shape). Only its outcome, no value, is kept. Console logging elsewhere (the retry message at src/utils/spotify.js:56 included) is left out.
- The FaunaDB user-defined functions and `models/Track`, `models/Artist` are not part of this model. Lookups are assumed to return the first document with the key, and the models to copy fields.
- Races between concurrent requests and the unawaited refresh in `initSpotifyApi`. The model is single-threaded, and that refresh takes effect at once.
- Malformed catalog objects (a missing `external_urls` or `album`) and non-numeric popularity. Popularity is an integer, only compared.
- Spotify.SpotifySession.RefreshToken: returns whether the token was replaced. The source returns `setAccessToken`'s result (undefined) on success and false on failure, and no caller reads it.
- Spotify.SpotifySession.SearchByISRC: the retry branch (src/utils/spotify.js:55-57) is not modelled, because its guard is always false. The intended retry lives only in `SpotifyIntendedRetry`.
