/**
 * The artists controller: look an artist up by catalog id, save a new artist, and resolve the
 * credited artists of a track to stored artist references, creating the missing ones.
 */
module Artists {
  import opened Wrappers
  import opened Catalog
  import opened Store

  /** The document `saveArtist` writes for a credited artist. */
  function NewArtistDoc(artist: ArtistStub): ArtistDoc
  {
    ArtistDoc(artist.id, artist.name, artist.url)
  }

  /**
   * `getArtistById`: the reference of the stored artist with catalog id `id`. A failed query goes
   * through `printErrors`, which returns nothing, so it looks exactly like "not found".
   */
  method GetArtistById(db: Database, id: string, fails: bool) returns (doc: Option<Ref>)
    ensures doc.Some? ==> !fails && doc.value < |db.artists| && db.artists[doc.value].spotifyId == id
    ensures doc.None? <==> fails || forall k :: 0 <= k < |db.artists| ==> db.artists[k].spotifyId != id
    ensures doc == if fails then None else ArtistIndex(db.artists, id)
  {
    if fails {
      doc := None;
    } else {
      doc := ArtistIndex(db.artists, id);
    }
  }

  /**
   * `saveArtist`: creates one artist document holding `spotify_id`, `name` and `url`, and yields its
   * reference; a failed create yields no value and writes nothing.
   */
  method SaveArtist(db: Database, artist: ArtistStub, fails: bool) returns (doc: Option<Ref>)
    modifies db
    ensures db.tracks == old(db.tracks)
    ensures fails ==> doc.None? && db.artists == old(db.artists)
    ensures !fails ==> doc == Some(|old(db.artists)|) && db.artists == old(db.artists) + [NewArtistDoc(artist)]
  {
    if fails {
      doc := None;
    } else {
      doc := Some(|db.artists|);
      db.artists := db.artists + [NewArtistDoc(artist)];
    }
  }

  /**
   * One iteration of `getArtistRefs`: reuse the stored artist with this id, or else create one.
   * `None` means the create yielded no value, so reading `.ref` of it throws.
   */
  function ResolveOne(docs: seq<ArtistDoc>, artist: ArtistStub, fault: Fault): (seq<ArtistDoc>, Option<Ref>)
  {
    var found := if fault.lookupFails then None else ArtistIndex(docs, artist.id);
    if found.Some? then (docs, found)
    else if fault.createFails then (docs, None)
    else (docs + [NewArtistDoc(artist)], Some(|docs|))
  }

  /**
   * `getArtistRefs` over the artists collection `docs`: the collection afterwards and the
   * references collected in credit order, or `None` when the call rejects. Step `i` meets the
   * faults `FaultAt(faults, i)`; a rejection keeps the artists created before it.
   */
  function Resolve(docs: seq<ArtistDoc>, artists: seq<ArtistStub>, faults: seq<Fault>): (seq<ArtistDoc>, Option<seq<Ref>>)
    decreases |artists|
  {
    if artists == [] then (docs, Some([]))
    else
      var n := |artists| - 1;
      var (before, refs) := Resolve(docs, artists[..n], faults);
      if refs.None? then (before, None)
      else
        var (after, ref) := ResolveOne(before, artists[n], FaultAt(faults, n));
        if ref.None? then (after, None) else (after, Some(refs.value + [ref.value]))
  }

  /** Once a prefix of the artists has rejected, the whole call has rejected in the same state. */
  lemma {:induction false} ResolveRejected(docs: seq<ArtistDoc>, artists: seq<ArtistStub>, faults: seq<Fault>, i: nat)
    requires i <= |artists|
    requires Resolve(docs, artists[..i], faults).1.None?
    ensures Resolve(docs, artists, faults) == Resolve(docs, artists[..i], faults)
  {
    if i < |artists| {
      var n := |artists| - 1;
      assert artists[..n][..i] == artists[..i];
      ResolveRejected(docs, artists[..n], faults, i);
    } else {
      assert artists[..i] == artists;
    }
  }

  /**
   * `getArtistRefs`: for each credited artist in order, looks it up by catalog id, creates it only
   * when the lookup yields nothing, and collects one reference per artist.
   */
  method GetArtistRefs(db: Database, artists: seq<ArtistStub>, faults: seq<Fault>) returns (refs: Option<seq<Ref>>)
    modifies db
    ensures (db.artists, refs) == Resolve(old(db.artists), artists, faults)
    ensures db.tracks == old(db.tracks)
  {
    var acc: seq<Ref> := [];
    var i := 0;
    while i < |artists|
      invariant 0 <= i <= |artists|
      invariant (db.artists, Some(acc)) == Resolve(old(db.artists), artists[..i], faults)
      invariant db.tracks == old(db.tracks)
    {
      var fault := FaultAt(faults, i);
      assert artists[..i + 1][..i] == artists[..i];
      var doc := GetArtistById(db, artists[i].id, fault.lookupFails);
      if doc.None? {
        var newDoc := SaveArtist(db, artists[i], fault.createFails);
        if newDoc.None? {
          // `newDoc.ref` of undefined throws: the call rejects here.
          ResolveRejected(old(db.artists), artists, faults, i + 1);
          return None;
        }
        doc := newDoc;
      }
      acc := acc + [doc.value];
      i := i + 1;
    }
    assert artists[..i] == artists;
    refs := Some(acc);
  }

  /** The call rejects only when some create fails. */
  lemma {:induction false} ResolveSucceeds(docs: seq<ArtistDoc>, artists: seq<ArtistStub>, faults: seq<Fault>)
    requires CreatesSucceed(faults, |artists|)
    ensures Resolve(docs, artists, faults).1.Some?
  {
    if artists != [] {
      var n := |artists| - 1;
      assert CreatesSucceed(faults, n);
      ResolveSucceeds(docs, artists[..n], faults);
      assert !FaultAt(faults, n).createFails;
    }
  }

  /** Existing artist documents are never changed: the collection only grows at its end. */
  lemma {:induction false} ResolveAppendOnly(docs: seq<ArtistDoc>, artists: seq<ArtistStub>, faults: seq<Fault>)
    ensures |docs| <= |Resolve(docs, artists, faults).0|
    ensures Resolve(docs, artists, faults).0[..|docs|] == docs
  {
    if artists != [] {
      ResolveAppendOnly(docs, artists[..|artists| - 1], faults);
    }
  }

  /**
   * One reference per credited artist, in credit order, each to a stored artist with that
   * artist's catalog id; so every credited id is stored afterwards.
   */
  lemma {:induction false} ResolveRefsMatch(docs: seq<ArtistDoc>, artists: seq<ArtistStub>, faults: seq<Fault>)
    ensures var (after, refs) := Resolve(docs, artists, faults);
      refs.Some? ==>
        && |refs.value| == |artists|
        && forall i :: 0 <= i < |artists| ==>
             refs.value[i] < |after| && after[refs.value[i]].spotifyId == artists[i].id
  {
    if artists != [] {
      var n := |artists| - 1;
      ResolveRefsMatch(docs, artists[..n], faults);
      ResolveAppendOnly(docs, artists[..n], faults);
      var (before, refs) := Resolve(docs, artists[..n], faults);
      var (after, ref) := ResolveOne(before, artists[n], FaultAt(faults, n));
      if refs.Some? && ref.Some? {
        assert after[..|before|] == before;
        forall i | 0 <= i < n
          ensures refs.value[i] < |after| && after[refs.value[i]].spotifyId == artists[i].id
        {
          assert artists[..n][i] == artists[i];
          assert after[refs.value[i]] == after[..|before|][refs.value[i]];
        }
      }
    }
  }

  /** Every artist document the call creates is built from one of the credited artists. */
  lemma {:induction false} ResolveCreatesFromCredits(docs: seq<ArtistDoc>, artists: seq<ArtistStub>, faults: seq<Fault>)
    ensures var after := Resolve(docs, artists, faults).0;
      forall k :: |docs| <= k < |after| ==>
        exists i :: 0 <= i < |artists| && after[k] == NewArtistDoc(artists[i])
  {
    if artists != [] {
      var n := |artists| - 1;
      ResolveCreatesFromCredits(docs, artists[..n], faults);
      ResolveAppendOnly(docs, artists[..n], faults);
      var (before, refs) := Resolve(docs, artists[..n], faults);
      var after := Resolve(docs, artists, faults).0;
      forall k | |docs| <= k < |after|
        ensures exists i :: 0 <= i < |artists| && after[k] == NewArtistDoc(artists[i])
      {
        if k < |before| {
          var i :| 0 <= i < n && before[k] == NewArtistDoc(artists[..n][i]);
          assert after[..|before|] == before by { ResolveAppendOnly(docs, artists, faults); }
          assert after[k] == NewArtistDoc(artists[i]);
        } else {
          assert after[k] == NewArtistDoc(artists[n]);
        }
      }
    }
  }

  /** One step of the dedup: the stored artists stay unique and earlier lookups keep their answer. */
  lemma ResolveOneDeduplicates(docs: seq<ArtistDoc>, artist: ArtistStub, fault: Fault)
    requires UniqueArtistIds(docs)
    requires !fault.lookupFails
    ensures var (after, ref) := ResolveOne(docs, artist, fault);
      && UniqueArtistIds(after)
      && (forall id :: ArtistIndex(docs, id).Some? ==> ArtistIndex(after, id) == ArtistIndex(docs, id))
      && (ref.Some? ==> ArtistIndex(after, artist.id) == ref)
  {
    var (after, ref) := ResolveOne(docs, artist, fault);
    if after != docs {
      var doc := NewArtistDoc(artist);
      assert after == docs + [doc];
      ArtistIndexAppendNew(docs, doc);
      forall id | ArtistIndex(docs, id).Some?
        ensures ArtistIndex(after, id) == ArtistIndex(docs, id)
      {
        ArtistIndexAppend(docs, [doc], id);
      }
      forall i, j | 0 <= i < j < |after| ensures after[i].spotifyId != after[j].spotifyId {
        if j == |docs| {
          assert after[i] == docs[i];
        }
      }
    }
  }

  /**
   * Deduplication on write, when no lookup fails: the call keeps at most one stored artist per
   * catalog id, and every reference it yields is THE stored artist for that id, so an artist
   * stored before the call is reused and a repeated credit gets the same reference twice.
   */
  lemma {:induction false} ResolveDeduplicates(docs: seq<ArtistDoc>, artists: seq<ArtistStub>, faults: seq<Fault>)
    requires UniqueArtistIds(docs)
    requires LookupsSucceed(faults, |artists|)
    ensures var (after, refs) := Resolve(docs, artists, faults);
      && UniqueArtistIds(after)
      && (forall id :: ArtistIndex(docs, id).Some? ==> ArtistIndex(after, id) == ArtistIndex(docs, id))
      && (refs.Some? ==> |refs.value| == |artists|)
      && (refs.Some? ==> forall i :: 0 <= i < |artists| ==> ArtistIndex(after, artists[i].id) == Some(refs.value[i]))
  {
    if artists != [] {
      var n := |artists| - 1;
      assert LookupsSucceed(faults, n);
      ResolveDeduplicates(docs, artists[..n], faults);
      var (before, refs) := Resolve(docs, artists[..n], faults);
      var (after, ref) := ResolveOne(before, artists[n], FaultAt(faults, n));
      ResolveOneDeduplicates(before, artists[n], FaultAt(faults, n));
      if refs.Some? && ref.Some? {
        var all := refs.value + [ref.value];
        forall i | 0 <= i < |artists| ensures ArtistIndex(after, artists[i].id) == Some(all[i]) {
          if i < n {
            assert artists[..n][i] == artists[i];
          }
        }
      }
    }
  }

  /**
   * With no lookup failures, a call whose credited artists are all stored already changes
   * nothing and succeeds unless a create is attempted.
   */
  lemma {:induction false} ResolveAllStored(docs: seq<ArtistDoc>, artists: seq<ArtistStub>, faults: seq<Fault>)
    requires LookupsSucceed(faults, |artists|)
    requires forall i :: 0 <= i < |artists| ==> ArtistIndex(docs, artists[i].id).Some?
    ensures Resolve(docs, artists, faults).0 == docs
    ensures Resolve(docs, artists, faults).1.Some?
  {
    if artists != [] {
      var n := |artists| - 1;
      forall i | 0 <= i < n ensures ArtistIndex(docs, artists[..n][i].id).Some? {
        assert artists[..n][i] == artists[i];
      }
      ResolveAllStored(docs, artists[..n], faults);
      assert !FaultAt(faults, n).lookupFails;
    }
  }

  /**
   * A failed lookup is indistinguishable from "not found": the artist is created again even when
   * it is stored, leaving two documents with the same catalog id.
   */
  lemma FailedLookupDuplicates(artist: ArtistStub)
    ensures var docs := [NewArtistDoc(artist)];
      var (after, refs) := Resolve(docs, [artist], [Fault(true, false)]);
      after == docs + [NewArtistDoc(artist)] && refs == Some([1]) && !UniqueArtistIds(after)
  {
    var docs := [NewArtistDoc(artist)];
    assert [artist][..0] == [];
    assert Resolve(docs, [], [Fault(true, false)]) == (docs, Some([]));
    assert ResolveOne(docs, artist, Fault(true, false)) == (docs + [NewArtistDoc(artist)], Some(1));
    assert [artist][..0] + [artist] == [artist];
    assert [] + [1] == [1];
    assert (docs + [NewArtistDoc(artist)])[0].spotifyId == (docs + [NewArtistDoc(artist)])[1].spotifyId;
  }
}
