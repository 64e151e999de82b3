/**
 * The tracks controller: the validation error formatter, the ingestion of one ISRC (`writeTrack`
 * without its HTTP parts) and the idempotent save of a track.
 */
module Tracks {
  import opened Wrappers
  import opened Catalog
  import opened Store
  import opened PopularitySort
  import opened Artists
  import opened Spotify

  const ALREADY_EXISTS: string := "Track for ISRC already exists."

  /** `errorFormatter`: a validation error as `location[param]: msg`. */
  function ErrorFormatter(location: string, param: string, msg: string): string
  {
    location + "[" + param + "]: " + msg
  }

  /** The first position at or after `from` where `s` holds `c`, if any. */
  function IndexOf(s: string, c: char, from: nat): (r: Option<nat>)
    ensures r.Some? ==> from <= r.value < |s| && s[r.value] == c
    ensures r.Some? ==> forall k :: from <= k < r.value ==> s[k] != c
    ensures r.None? ==> forall k :: from <= k < |s| ==> s[k] != c
    decreases |s| - from
  {
    if from >= |s| then None
    else if s[from] == c then Some(from)
    else IndexOf(s, c, from + 1)
  }

  /**
   * Reads a formatted validation error back: the location up to the first `[`, the parameter up
   * to the next `]`, then `: ` and the message.
   */
  function ParseError(s: string): Option<(string, string, string)>
  {
    match IndexOf(s, '[', 0)
    case None => None
    case Some(open) =>
      match IndexOf(s, ']', open + 1)
      case None => None
      case Some(close) =>
        if close + 3 <= |s| && s[close + 1..close + 3] == ": "
        then Some((s[..open], s[open + 1..close], s[close + 3..]))
        else None
  }

  /**
   * The formatter loses nothing when the location has no `[` and the parameter no `]` (true of
   * express-validator's locations and of this API's parameter names).
   */
  lemma ErrorFormatterRoundTrip(location: string, param: string, msg: string)
    requires '[' !in location && ']' !in param
    ensures ParseError(ErrorFormatter(location, param, msg)) == Some((location, param, msg))
  {
    var s := ErrorFormatter(location, param, msg);
    var open := |location|;
    var close := |location| + 1 + |param|;
    assert s[open] == '[';
    forall k | 0 <= k < open ensures s[k] != '[' {
      assert s[k] == location[k];
    }
    assert IndexOf(s, '[', 0) == Some(open);
    assert s[close] == ']';
    forall k | open + 1 <= k < close ensures s[k] != ']' {
      assert s[k] == param[k - open - 1];
    }
    assert IndexOf(s, ']', open + 1) == Some(close);
    assert s[..open] == location;
    assert s[open + 1..close] == param;
    assert s[close + 1..close + 3] == ": ";
    assert s[close + 3..] == msg;
  }

  /** `album.images[0]`: the first image, or nothing when the album has none. */
  function FirstImage(images: seq<Image>): Option<Image>
  {
    if |images| == 0 then None else Some(images[0])
  }

  /** The record `writeTrack` assembles from the canonical candidate and its artist references. */
  function AssembleTrack(best: Candidate, artistRefs: seq<Ref>): TrackDoc
  {
    TrackDoc(best.id, best.name, artistRefs, FirstImage(best.images), best.isrc)
  }

  /** What `saveTrack` hands back: the created document, the message, or nothing. */
  datatype SaveResult = Created(ref: Ref) | Message(text: string) | NoValue

  /**
   * `saveTrack` over the tracks collection: a track whose ISRC is found is not written again; a
   * failed lookup counts as not found; a failed create yields nothing.
   */
  function SaveTrackStep(tracks: seq<TrackDoc>, track: TrackDoc, fault: Fault): (seq<TrackDoc>, SaveResult)
  {
    var found := if fault.lookupFails then None else TrackIndex(tracks, track.isrc);
    if found.Some? then (tracks, Message(ALREADY_EXISTS))
    else if fault.createFails then (tracks, NoValue)
    else (tracks + [track], Created(|tracks|))
  }

  /** `getTrackByISRC`: the stored track with this ISRC; a failed query yields nothing. */
  method GetTrackByISRC(db: Database, isrc: string, fails: bool) returns (doc: Option<Ref>)
    ensures doc.Some? ==> !fails && doc.value < |db.tracks| && db.tracks[doc.value].isrc == isrc
    ensures doc.None? <==> fails || forall k :: 0 <= k < |db.tracks| ==> db.tracks[k].isrc != isrc
    ensures doc == if fails then None else TrackIndex(db.tracks, isrc)
  {
    if fails {
      doc := None;
    } else {
      doc := TrackIndex(db.tracks, isrc);
    }
  }

  /**
   * `saveTrack`: writes the track's five fields as a new document unless a track with its ISRC
   * is already stored, in which case nothing is written and the message comes back.
   */
  method SaveTrack(db: Database, track: TrackDoc, fault: Fault) returns (result: SaveResult)
    modifies db
    ensures (db.tracks, result) == SaveTrackStep(old(db.tracks), track, fault)
    ensures db.artists == old(db.artists)
    ensures result == Message(ALREADY_EXISTS) <==> !fault.lookupFails && TrackIndex(old(db.tracks), track.isrc).Some?
    ensures result.Created? ==> result.ref == |old(db.tracks)| && db.tracks == old(db.tracks) + [track]
    ensures !result.Created? ==> db.tracks == old(db.tracks)
  {
    var doc := GetTrackByISRC(db, track.isrc, fault.lookupFails);
    if doc.None? {
      if fault.createFails {
        // the create fails; `printErrors` returns nothing
        result := NoValue;
      } else {
        result := Created(|db.tracks|);
        db.tracks := db.tracks + [track];
      }
    } else {
      result := Message(ALREADY_EXISTS);
    }
  }

  /**
   * Saving is idempotent: after a fault-free save, saving the same track again writes nothing
   * and answers with the message.
   */
  lemma SaveTrackIdempotent(tracks: seq<TrackDoc>, track: TrackDoc)
    ensures var once := SaveTrackStep(tracks, track, NO_FAULT).0;
      SaveTrackStep(once, track, NO_FAULT) == (once, Message(ALREADY_EXISTS))
  {
    if TrackIndex(tracks, track.isrc).None? {
      TrackIndexAppendNew(tracks, track);
    }
  }

  /** When the lookup succeeds, a save never stores a second track with the same ISRC. */
  lemma SaveTrackKeepsIsrcsUnique(tracks: seq<TrackDoc>, track: TrackDoc, fault: Fault)
    requires UniqueIsrcs(tracks)
    requires !fault.lookupFails
    ensures UniqueIsrcs(SaveTrackStep(tracks, track, fault).0)
  {
    var after := SaveTrackStep(tracks, track, fault).0;
    forall i, j | 0 <= i < j < |after| ensures after[i].isrc != after[j].isrc {
      if j == |tracks| {
        assert after[i] == tracks[i];
      }
    }
  }

  /** A failed lookup counts as "not found": the track is written again even when stored. */
  lemma FailedLookupWritesAgain(tracks: seq<TrackDoc>, track: TrackDoc)
    ensures SaveTrackStep(tracks, track, Fault(true, false)) == (tracks + [track], Created(|tracks|))
  {
  }

  /**
   * `writeTrack` after a search that found `items`: sort them by popularity, take the first,
   * resolve its artists, assemble the record and save it. The artists collection, the tracks
   * collection and what is sent back, with `None` when the handler rejects before sending.
   */
  function Ingest(artists: seq<ArtistDoc>, tracks: seq<TrackDoc>, items: seq<Candidate>, artistFaults: seq<Fault>, trackFault: Fault)
    : (seq<ArtistDoc>, seq<TrackDoc>, Option<SaveResult>)
    requires |items| > 0
  {
    var best := SortDesc(items)[0];
    var (resolved, refs) := Resolve(artists, best.artists, artistFaults);
    if refs.None? then (resolved, tracks, None)
    else
      var (saved, result) := SaveTrackStep(tracks, AssembleTrack(best, refs.value), trackFault);
      (resolved, saved, Some(result))
  }

  /**
   * `writeTrack` minus request validation and the response object: search the catalog, sort
   * the candidates in place, resolve the first one's artists, assemble and save the track.
   * `sent` is what `res.send` receives, or `None` when the handler throws before that.
   */
  method WriteTrack(session: SpotifySession, db: Database, isrc: string, catalog: string -> SearchResponse,
                    token: TokenResponse, artistFaults: seq<Fault>, trackFault: Fault)
    returns (sent: Option<SaveResult>)
    modifies session, db
    ensures var (s, found) := Search(old(session.State()), catalog(QUERY_PREFIX + isrc), token);
      && session.State() == s
      && (found.None? ==> db.artists == old(db.artists) && db.tracks == old(db.tracks) && sent.None?)
      && (found.Some? ==> |found.value| > 0)
      && (found.Some? ==>
            (db.artists, db.tracks, sent) == Ingest(old(db.artists), old(db.tracks), found.value, artistFaults, trackFault))
  {
    var found := session.SearchByISRC(isrc, catalog, token);
    if found.None? {
      // `tracks.sort` of undefined throws: nothing is written and nothing is sent
      return None;
    }
    var items := found.value;
    var tracks := new Candidate[|items|](i requires 0 <= i < |items| => items[i]);
    assert tracks[..] == items;
    SortByPopularity(tracks);
    var best := tracks[0];
    var artistRefs := GetArtistRefs(db, best.artists, artistFaults);
    if artistRefs.None? {
      // `newDoc.ref` of undefined threw inside `getArtistRefs`
      return None;
    }
    var track := AssembleTrack(best, artistRefs.value);
    var result := SaveTrack(db, track, trackFault);
    sent := Some(result);
  }

  /**
   * A created track is the canonical candidate's: the first, in upstream order, of maximal
   * popularity. It holds that candidate's id, name, first image and ISRC, and one reference per
   * credited artist, in credit order, to a stored artist with that artist's catalog id.
   */
  lemma IngestStoresCanonical(artists: seq<ArtistDoc>, tracks: seq<TrackDoc>, items: seq<Candidate>, artistFaults: seq<Fault>, trackFault: Fault)
    requires |items| > 0
    ensures var (artists', tracks', sent) := Ingest(artists, tracks, items, artistFaults, trackFault);
      var best := items[FirstMostPopular(items)];
      sent.Some? && sent.value.Created? ==>
        && tracks' == tracks + [tracks'[|tracks|]]
        && sent.value.ref == |tracks|
        && var doc := tracks'[|tracks|];
        && doc.spotifyId == best.id && doc.name == best.name && doc.isrc == best.isrc
        && doc.img == FirstImage(best.images)
        && |doc.artists| == |best.artists|
        && forall i :: 0 <= i < |best.artists| ==>
             doc.artists[i] < |artists'| && artists'[doc.artists[i]].spotifyId == best.artists[i].id
  {
    SortDescHead(items);
    var best := SortDesc(items)[0];
    ResolveRefsMatch(artists, best.artists, artistFaults);
  }

  /**
   * Ingestion is idempotent: ingesting the same search result twice without faults stores the
   * track once; the second run writes nothing, to either collection, and sends the message.
   */
  lemma IngestIdempotent(artists: seq<ArtistDoc>, tracks: seq<TrackDoc>, items: seq<Candidate>)
    requires |items| > 0
    ensures var (artists1, tracks1, sent1) := Ingest(artists, tracks, items, [], NO_FAULT);
      sent1.Some? &&
      Ingest(artists1, tracks1, items, [], NO_FAULT) == (artists1, tracks1, Some(Message(ALREADY_EXISTS)))
  {
    var best := SortDesc(items)[0];
    assert LookupsSucceed([], |best.artists|);
    ResolveRefsMatch(artists, best.artists, []);
    ResolveSucceeds(artists, best.artists, []);
    var (artists1, refs) := Resolve(artists, best.artists, []);
    forall i | 0 <= i < |best.artists| ensures ArtistIndex(artists1, best.artists[i].id).Some? {
      assert artists1[refs.value[i]].spotifyId == best.artists[i].id;
    }
    ResolveAllStored(artists1, best.artists, []);
    var track := AssembleTrack(best, refs.value);
    SaveTrackIdempotent(tracks, track);
    var track2 := AssembleTrack(best, Resolve(artists1, best.artists, []).1.value);
    assert track2.isrc == track.isrc;
  }

  /**
   * Artist resolution runs before the existence check: when the track's ISRC is already stored,
   * no track is written, yet a credited artist that was not stored is created anyway.
   */
  lemma IngestResolvesBeforeCheck(artists: seq<ArtistDoc>, tracks: seq<TrackDoc>, items: seq<Candidate>, artistFaults: seq<Fault>, trackFault: Fault, i: nat)
    requires |items| > 0
    requires !trackFault.lookupFails
    requires TrackIndex(tracks, SortDesc(items)[0].isrc).Some?
    requires i < |SortDesc(items)[0].artists| && ArtistIndex(artists, SortDesc(items)[0].artists[i].id).None?
    ensures var (artists', tracks', sent) := Ingest(artists, tracks, items, artistFaults, trackFault);
      && tracks' == tracks
      && (sent.Some? ==> sent.value == Message(ALREADY_EXISTS) && |artists'| > |artists|)
  {
    var best := SortDesc(items)[0];
    ResolveRefsMatch(artists, best.artists, artistFaults);
    ResolveAppendOnly(artists, best.artists, artistFaults);
    var (artists', refs) := Resolve(artists, best.artists, artistFaults);
    if refs.Some? {
      var k := refs.value[i];
      assert artists'[k].spotifyId == best.artists[i].id;
    }
  }

  /**
   * With every lookup succeeding, ingestion keeps both natural-key invariants: at most one
   * stored artist per catalog id and at most one stored track per ISRC. So two tracks that
   * share an artist end up referring to one artist document.
   */
  lemma IngestKeepsKeysUnique(artists: seq<ArtistDoc>, tracks: seq<TrackDoc>, items: seq<Candidate>, artistFaults: seq<Fault>, trackFault: Fault)
    requires |items| > 0
    requires UniqueArtistIds(artists) && UniqueIsrcs(tracks)
    requires LookupsSucceed(artistFaults, |SortDesc(items)[0].artists|) && !trackFault.lookupFails
    ensures var (artists', tracks', sent) := Ingest(artists, tracks, items, artistFaults, trackFault);
      UniqueArtistIds(artists') && UniqueIsrcs(tracks')
  {
    var best := SortDesc(items)[0];
    ResolveDeduplicates(artists, best.artists, artistFaults);
    var (artists', refs) := Resolve(artists, best.artists, artistFaults);
    if refs.Some? {
      SaveTrackKeepsIsrcsUnique(tracks, AssembleTrack(best, refs.value), trackFault);
    }
  }
}
