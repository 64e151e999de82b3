/**
 * Shapes of the catalog provider's answers (the Spotify Web API), as the core reads them.
 * Only the fields the core touches are kept.
 */
module Catalog {

  /** An image descriptor from `album.images`; opaque to the core. */
  type Image = string

  /** A credited artist on a catalog track: `id`, `name` and `external_urls.spotify`. */
  datatype ArtistStub = ArtistStub(id: string, name: string, url: string)

  /**
   * One candidate track of a search result: `id`, `name`, `popularity` (only ever compared),
   * `album.images`, `external_ids.isrc` and the credited `artists` in credit order.
   */
  datatype Candidate = Candidate(
    id: string,
    name: string,
    popularity: int,
    images: seq<Image>,
    isrc: string,
    artists: seq<ArtistStub>)

  /**
   * What the upstream search call does: it answers with a list of items, or it fails with an
   * error that may carry an HTTP status code (`error.statusCode`).
   */
  datatype SearchResponse = Items(items: seq<Candidate>) | Failure(statusCode: StatusCode)

  /** An error's `statusCode`: a number, or absent (a thrown `Error` or `TypeError`). */
  datatype StatusCode = Status(code: int) | NoStatus

  const UNAUTHORIZED: int := 401

  /**
   * What the token endpoint does: the fetch or the JSON decoding fails, or a JSON body arrives whose
   * `access_token` field is present or absent.
   */
  datatype TokenResponse = FetchFailed | TokenJson(accessToken: TokenField)

  datatype TokenField = Missing | Token(value: string)
}
