/**
 * A separate variant, NOT used by the ingestion pipeline: `searchByISRC` with the retry guard
 * read as `getRetries() > 0`, the evident intent. After a 401 and a refresh, a positive shared
 * counter is decremented (`useRetry`) and the search is issued again. Attempt `k` of one call
 * meets the upstream answer `catalog(k)` and the token endpoint's answer `tokens(k)`.
 */
module SpotifyIntendedRetry {
  import opened Wrappers
  import opened Catalog
  import opened Spotify

  /**
   * The session afterwards, the items if any, and how many search requests were issued.
   * Each retry spends one unit of the shared counter, so at most `retries + 1` requests go out.
   */
  function SearchWithRetry(s: Session, catalog: nat -> SearchResponse, tokens: nat -> TokenResponse, attempt: nat)
    : (r: (Session, Option<seq<Candidate>>, nat))
    ensures 1 <= r.2 <= (if s.retries > 0 then s.retries else 0) + 1
    ensures r.1.Some? ==> r.0.retries == MAX_RETRIES && |r.1.value| > 0
    ensures r.1.Some? <==>
              exists k :: attempt <= k < attempt + r.2 && s.apiReady && catalog(k).Items? && |catalog(k).items| > 0
    decreases if s.retries > 0 then s.retries else 0
  {
    var (after, found) := Search(s, catalog(attempt), tokens(attempt));
    if found.None? && s.apiReady && catalog(attempt) == Failure(Status(UNAUTHORIZED)) && after.retries > 0 then
      var r := SearchWithRetry(after.(retries := after.retries - 1), catalog, tokens, attempt + 1);
      (r.0, r.1, r.2 + 1)
    else
      (after, found, 1)
  }

  /**
   * Two authorization failures and then a result: the call recovers after two refreshes and
   * yields the result.
   */
  lemma RecoversAfterTwoRefreshes(s: Session, catalog: nat -> SearchResponse, tokens: nat -> TokenResponse, items: seq<Candidate>)
    requires s.apiReady && s.retries == MAX_RETRIES
    requires catalog(0) == Failure(Status(UNAUTHORIZED)) && catalog(1) == Failure(Status(UNAUTHORIZED))
    requires catalog(2) == Items(items) && |items| > 0
    ensures SearchWithRetry(s, catalog, tokens, 0).1 == Some(items)
    ensures SearchWithRetry(s, catalog, tokens, 0).2 == 3
  {
    var s1 := Search(s, catalog(0), tokens(0)).0;
    assert s1.retries == 3 && s1.apiReady;
    var t1 := s1.(retries := 2);
    var s2 := Search(t1, catalog(1), tokens(1)).0;
    assert s2.retries == 2 && s2.apiReady;
    var t2 := s2.(retries := 1);
    assert Search(t2, catalog(2), tokens(2)).1 == Some(items);
    assert SearchWithRetry(t2, catalog, tokens, 2) == (Search(t2, catalog(2), tokens(2)).0, Some(items), 1);
    assert SearchWithRetry(t1, catalog, tokens, 1).1 == Some(items);
    assert SearchWithRetry(t1, catalog, tokens, 1).2 == 2;
  }

  /**
   * When every attempt is refused with 401, the call issues exactly `retries + 1` requests (one
   * more than the budget's size), exhausts the counter and yields no value.
   */
  lemma {:induction false} ExhaustsOnPersistentUnauthorized(s: Session, catalog: nat -> SearchResponse, tokens: nat -> TokenResponse, attempt: nat)
    requires s.apiReady && s.retries >= 0
    requires forall k :: attempt <= k ==> catalog(k) == Failure(Status(UNAUTHORIZED))
    ensures SearchWithRetry(s, catalog, tokens, attempt).1.None?
    ensures SearchWithRetry(s, catalog, tokens, attempt).0.retries == 0
    ensures SearchWithRetry(s, catalog, tokens, attempt).2 == s.retries + 1
    decreases s.retries
  {
    var after := Search(s, catalog(attempt), tokens(attempt)).0;
    assert after.retries == s.retries && after.apiReady;
    if s.retries > 0 {
      ExhaustsOnPersistentUnauthorized(after.(retries := after.retries - 1), catalog, tokens, attempt + 1);
    }
  }
}
