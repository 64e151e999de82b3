/**
 * The document store (FaunaDB) as the core sees it: two collections, `artists` and `tracks`.
 * A collection is the sequence of its documents in creation order, and a reference to a
 * document is its position there, so every create yields a fresh reference and never touches
 * an existing document. The user-defined functions `getArtistBySpotifyId` and
 * `getTrackByISRC` answer with the first document whose natural key equals the argument.
 */
module Store {
  import opened Wrappers
  import opened Catalog

  /** A document reference: the position of the document in its collection. */
  type Ref = nat

  /** A stored artist: `spotify_id`, `name`, `url`. */
  datatype ArtistDoc = ArtistDoc(spotifyId: string, name: string, url: string)

  /** A stored track: `spotify_id`, `name`, `artists` (references), `img`, `isrc`. */
  datatype TrackDoc = TrackDoc(
    spotifyId: string,
    name: string,
    artists: seq<Ref>,
    img: Option<Image>,
    isrc: string)

  /**
   * Which store queries fail for one step: a failed query is caught by `printErrors`, which
   * returns nothing, so the caller sees no value.
   */
  datatype Fault = Fault(lookupFails: bool, createFails: bool)

  const NO_FAULT := Fault(false, false)

  /** The fault for step `i`; steps beyond the given list run without faults. */
  function FaultAt(faults: seq<Fault>, i: nat): Fault
  {
    if i < |faults| then faults[i] else NO_FAULT
  }

  /** No lookup among the first `n` steps fails. */
  predicate LookupsSucceed(faults: seq<Fault>, n: nat)
  {
    forall i :: 0 <= i < n ==> !FaultAt(faults, i).lookupFails
  }

  /** No create among the first `n` steps fails. */
  predicate CreatesSucceed(faults: seq<Fault>, n: nat)
  {
    forall i :: 0 <= i < n ==> !FaultAt(faults, i).createFails
  }

  /** `getArtistBySpotifyId`: the first stored artist whose `spotify_id` is `id`, if any. */
  function ArtistIndex(docs: seq<ArtistDoc>, id: string): (r: Option<Ref>)
    ensures r.Some? ==> r.value < |docs| && docs[r.value].spotifyId == id
    ensures r.Some? ==> forall k :: 0 <= k < r.value ==> docs[k].spotifyId != id
    ensures r.None? <==> forall k :: 0 <= k < |docs| ==> docs[k].spotifyId != id
  {
    if docs == [] then None
    else if docs[0].spotifyId == id then Some(0)
    else match ArtistIndex(docs[1..], id)
      case None => None
      case Some(k) => Some(k + 1)
  }

  /** `getTrackByISRC`: the first stored track whose `isrc` is `isrc`, if any. */
  function TrackIndex(docs: seq<TrackDoc>, isrc: string): (r: Option<Ref>)
    ensures r.Some? ==> r.value < |docs| && docs[r.value].isrc == isrc
    ensures r.Some? ==> forall k :: 0 <= k < r.value ==> docs[k].isrc != isrc
    ensures r.None? <==> forall k :: 0 <= k < |docs| ==> docs[k].isrc != isrc
  {
    if docs == [] then None
    else if docs[0].isrc == isrc then Some(0)
    else match TrackIndex(docs[1..], isrc)
      case None => None
      case Some(k) => Some(k + 1)
  }

  /** The design's invariant for artists: at most one stored artist per catalog id. */
  ghost predicate UniqueArtistIds(docs: seq<ArtistDoc>)
  {
    forall i, j :: 0 <= i < j < |docs| ==> docs[i].spotifyId != docs[j].spotifyId
  }

  /** The design's invariant for tracks: at most one stored track per ISRC. */
  ghost predicate UniqueIsrcs(docs: seq<TrackDoc>)
  {
    forall i, j :: 0 <= i < j < |docs| ==> docs[i].isrc != docs[j].isrc
  }

  /** Appending documents never changes what a lookup that already succeeded finds. */
  lemma ArtistIndexAppend(docs: seq<ArtistDoc>, more: seq<ArtistDoc>, id: string)
    requires ArtistIndex(docs, id).Some?
    ensures ArtistIndex(docs + more, id) == ArtistIndex(docs, id)
  {
    var k := ArtistIndex(docs, id).value;
    var r := ArtistIndex(docs + more, id);
    assert (docs + more)[k] == docs[k];
    if r.None? {
      assert false;
    }
    assert r.value <= k;
  }

  /** A lookup for an id absent from `docs` finds the first matching appended document. */
  lemma ArtistIndexAppendNew(docs: seq<ArtistDoc>, doc: ArtistDoc)
    requires ArtistIndex(docs, doc.spotifyId).None?
    ensures ArtistIndex(docs + [doc], doc.spotifyId) == Some(|docs|)
  {
    var r := ArtistIndex(docs + [doc], doc.spotifyId);
    assert (docs + [doc])[|docs|] == doc;
  }

  /** The same two facts for the tracks collection. */
  lemma TrackIndexAppend(docs: seq<TrackDoc>, more: seq<TrackDoc>, isrc: string)
    requires TrackIndex(docs, isrc).Some?
    ensures TrackIndex(docs + more, isrc) == TrackIndex(docs, isrc)
  {
    var k := TrackIndex(docs, isrc).value;
    var r := TrackIndex(docs + more, isrc);
    assert (docs + more)[k] == docs[k];
    if r.None? {
      assert false;
    }
    assert r.value <= k;
  }

  lemma TrackIndexAppendNew(docs: seq<TrackDoc>, doc: TrackDoc)
    requires TrackIndex(docs, doc.isrc).None?
    ensures TrackIndex(docs + [doc], doc.isrc) == Some(|docs|)
  {
    var r := TrackIndex(docs + [doc], doc.isrc);
    assert (docs + [doc])[|docs|] == doc;
  }

  /** The document store: both collections, which the controllers query and append to. */
  class Database {
    var artists: seq<ArtistDoc>
    var tracks: seq<TrackDoc>

    constructor ()
      ensures artists == [] && tracks == []
    {
      artists := [];
      tracks := [];
    }
  }
}
