/** The album routes under `/api/v1/albums`: list, create, rename and the
    cascading delete. Every handler runs after the identity check, so the
    caller's uid is given. The controller module has the same list, create
    and rename handlers word for word; they are modelled once, here. */
module AlbumsRoute {
  import opened Wrappers
  import opened JsStrings
  import opened Lists
  import opened Sorting
  import opened Models
  import opened Errors
  import opened Http
  import opened Store

  /** `GET /`: the caller's albums, most recently updated first. */
  method ListAlbums(b: Backend, uid: string, faults: set<Call>) returns (out: Outcome)
    ensures AlbumFind in faults ==> out == Respond(500, ErrorBody("Failed to fetch albums"))
    ensures AlbumFind !in faults ==> out.Respond? && out.status == 200 && out.body.AlbumsBody?
    ensures out.Respond? && out.body.AlbumsBody? ==>
      multiset(out.body.albums) == multiset(Filter(b.albums, AlbumOwnedBy(uid)))
      && SortedDesc(out.body.albums, UpdatedAt)
  {
    var found := b.FindAlbums(uid, AlbumFind in faults);
    if found.Err? {
      return Respond(500, ErrorBody("Failed to fetch albums"));
    }
    return Respond(200, AlbumsBody(SortDesc(found.value, UpdatedAt)));
  }

  /** `POST /` with body `{albumName}`: a blank or missing name is refused
      before anything is written; otherwise the trimmed name is stored under
      the caller's uid. */
  method CreateAlbum(b: Backend, uid: string, albumName: JsonValue, freshId: ObjectId, now: nat, faults: set<Call>)
    returns (out: Outcome)
    requires b.Valid()
    modifies b
    ensures b.Valid()
    ensures CheckName(albumName).Missing? ==>
      out == Respond(400, ErrorBody("albumName is required")) && b.State() == old(b.State())
    ensures CheckName(albumName).NotAString? ==>
      out == Respond(500, ErrorBody("Failed to create album")) && b.State() == old(b.State())
    ensures CheckName(albumName).Given? ==>
      var doc := NewAlbum(freshId, uid, CheckName(albumName).name, now);
      if doc.Ok? && AlbumCreate !in faults && FindOne(old(b.albums), AlbumIdIs(freshId)).None? then
        out == Respond(201, AlbumBody(Album(freshId, uid, Trim(albumName.s), now, now)))
        && b.albums == old(b.albums) + [Album(freshId, uid, Trim(albumName.s), now, now)]
        && b.log == old(b.log) + [AlbumInserted(freshId)]
      else
        out == Respond(500, ErrorBody("Failed to create album")) && b.albums == old(b.albums) && b.log == old(b.log)
    ensures b.media == old(b.media) && b.users == old(b.users)
  {
    var check := CheckName(albumName);
    if check.Missing? {
      return Respond(400, ErrorBody("albumName is required"));
    }
    if check.NotAString? {
      return Respond(500, ErrorBody("Failed to create album"));
    }
    TrimIdempotent(albumName.s);
    var created := b.CreateAlbum(freshId, uid, check.name, now, AlbumCreate in faults);
    if created.Err? {
      return Respond(500, ErrorBody("Failed to create album"));
    }
    return Respond(201, AlbumBody(created.value));
  }

  /** `PUT /:albumId` with body `{albumName}`: renames the album with that id
      owned by the caller, and no other. */
  method RenameAlbum(b: Backend, uid: string, albumId: string, albumName: JsonValue, now: nat, faults: set<Call>)
    returns (out: Outcome)
    requires b.Valid()
    modifies b
    ensures b.Valid()
    ensures CheckName(albumName).Missing? ==>
      out == Respond(400, ErrorBody("albumName is required")) && b.State() == old(b.State())
    ensures CheckName(albumName).NotAString? || (CheckName(albumName).Given? && CastObjectId(albumId).None?) ==>
      out == Respond(500, ErrorBody("Failed to rename album")) && b.State() == old(b.State())
    ensures CheckName(albumName).Given? && CastObjectId(albumId).Some? && AlbumFindOneAndUpdate in faults ==>
      out == Respond(500, ErrorBody("Failed to rename album")) && b.State() == old(b.State())
    ensures (CheckName(albumName).Given? && CastObjectId(albumId).Some? && AlbumFindOneAndUpdate !in faults
             && FirstWhere(old(b.albums), AlbumIs(CastObjectId(albumId).value, uid)).None?) ==>
      out == Respond(404, ErrorBody("Album not found")) && b.State() == old(b.State())
    ensures (CheckName(albumName).Given? && CastObjectId(albumId).Some? && AlbumFindOneAndUpdate !in faults
             && FirstWhere(old(b.albums), AlbumIs(CastObjectId(albumId).value, uid)).Some?) ==>
      var i := FirstWhere(old(b.albums), AlbumIs(CastObjectId(albumId).value, uid)).value;
      var renamed := old(b.albums)[i].(albumName := Trim(albumName.s), updatedAt := now);
      out == Respond(200, AlbumBody(renamed))
      && b.albums == old(b.albums)[i := renamed]
      && b.log == old(b.log) + [AlbumUpdated(CastObjectId(albumId).value)]
    ensures b.media == old(b.media) && b.users == old(b.users)
  {
    var check := CheckName(albumName);
    if check.Missing? {
      return Respond(400, ErrorBody("albumName is required"));
    }
    if check.NotAString? {
      return Respond(500, ErrorBody("Failed to rename album"));
    }
    var id := CastObjectId(albumId);
    if id.None? {
      return Respond(500, ErrorBody("Failed to rename album"));
    }
    TrimIdempotent(albumName.s);
    var updated := b.FindOneAndRenameAlbum(id.value, uid, check.name, now, AlbumFindOneAndUpdate in faults);
    if updated.Err? {
      return Respond(500, ErrorBody("Failed to rename album"));
    }
    if updated.value.None? {
      return Respond(404, ErrorBody("Album not found"));
    }
    return Respond(200, AlbumBody(updated.value.value));
  }

  /** What `DELETE /:albumId` does to the backend: after checking that the
      caller owns the album, it deletes the objects behind the album's media
      (only when there are any), then the media records, then the album.
      The steps are separate writes: a failure stops the sequence where it
      is and answers 500, leaving the earlier steps done. */
  function DeleteAlbumSpec(s: Snapshot, uid: string, albumId: string, faults: set<Call>): (Outcome, Snapshot) {
    match CastObjectId(albumId)
    case None => (DeleteFailed, s)
    case Some(id) =>
      if AlbumFindOne in faults then (DeleteFailed, s)
      else if FindOne(s.albums, AlbumIs(id, uid)).None? then (Respond(404, ErrorBody("Album not found")), s)
      else if MediaFind in faults then (DeleteFailed, s)
      else
        var urls := AlbumMediaUrls(s, id, uid);
        if urls != [] && StorageDelete in faults then (DeleteFailed, s)
        else RemoveAlbumRecords(if urls == [] then s else s.(log := s.log + [ObjectsDeleted(urls)]), uid, id, faults)
  }

  const DeleteFailed: Outcome := Respond(500, ErrorBody("Failed to delete album"))

  /** The two record deletions that follow the object-store step: the
      album's media, then the album. */
  function RemoveAlbumRecords(s: Snapshot, uid: string, id: ObjectId, faults: set<Call>): (Outcome, Snapshot) {
    if MediaDeleteMany in faults then (DeleteFailed, s)
    else
      var s1 := s.(media := Filter(s.media, MediaNotOf(id, uid)), log := s.log + [AlbumMediaRemoved(id, uid)]);
      if AlbumDeleteOne in faults then (DeleteFailed, s1)
      else
        (Respond(200, MessageBody("Album and its media deleted")),
         s1.(albums := Filter(s1.albums, AlbumIsNot(id, uid)), log := s1.log + [AlbumRemoved(id, uid)]))
  }

  /** `DELETE /:albumId`, step by step. */
  method DeleteAlbum(b: Backend, uid: string, albumId: string, faults: set<Call>) returns (out: Outcome)
    requires b.Valid()
    modifies b
    ensures b.Valid()
    ensures (out, b.State()) == DeleteAlbumSpec(old(b.State()), uid, albumId, faults)
  {
    var id := CastObjectId(albumId);
    if id.None? {
      return Respond(500, ErrorBody("Failed to delete album"));
    }
    var album := b.FindOneAlbum(id.value, uid, AlbumFindOne in faults);
    if album.Err? {
      return Respond(500, ErrorBody("Failed to delete album"));
    }
    if album.value.None? {
      return Respond(404, ErrorBody("Album not found"));
    }
    var items := b.FindMedia(id.value, uid, MediaFind in faults);
    if items.Err? {
      return Respond(500, ErrorBody("Failed to delete album"));
    }
    assert items.value == Filter(old(b.media), MediaOf(id.value, uid));
    var urls := MediaUrls(items.value);
    if urls != [] {
      var deleted := b.DeleteObjects(urls, StorageDelete in faults);
      if deleted.Err? {
        return Respond(500, ErrorBody("Failed to delete album"));
      }
    }
    var removed := b.DeleteManyMedia(id.value, uid, MediaDeleteMany in faults);
    if removed.Err? {
      return Respond(500, ErrorBody("Failed to delete album"));
    }
    var gone := b.DeleteOneAlbum(id.value, uid, AlbumDeleteOne in faults);
    if gone.Err? {
      return Respond(500, ErrorBody("Failed to delete album"));
    }
    return Respond(200, MessageBody("Album and its media deleted"));
  }

  /** The urls of the caller's media in an album, in natural order. */
  function AlbumMediaUrls(s: Snapshot, id: ObjectId, uid: string): seq<string> {
    MediaUrls(Filter(s.media, MediaOf(id, uid)))
  }

  /** An album the caller does not own, or that does not exist, is answered
      with 404 and nothing is written. */
  lemma DeleteAlbumNotOwned(s: Snapshot, uid: string, albumId: string, faults: set<Call>)
    requires CastObjectId(albumId).Some? && AlbumFindOne !in faults
    requires forall i | 0 <= i < |s.albums| :: s.albums[i].id != CastObjectId(albumId).value || s.albums[i].userId != uid
    ensures DeleteAlbumSpec(s, uid, albumId, faults) == (Respond(404, ErrorBody("Album not found")), s)
  {
  }

  /** A failed object-store step leaves the backend as it was: no media
      record and no album is removed before the objects are gone. */
  lemma StorageFailureDeletesNothing(s: Snapshot, uid: string, albumId: string, faults: set<Call>)
    requires CastObjectId(albumId).Some? && StorageDelete in faults
    requires AlbumMediaUrls(s, CastObjectId(albumId).value, uid) != []
    ensures DeleteAlbumSpec(s, uid, albumId, faults).1 == s
    ensures StatusOf(DeleteAlbumSpec(s, uid, albumId, faults).0) in {404, 500}
  {
  }

  /** Whatever the outcome, the delete keeps every album and media record of
      other users, every other album, and the media of every other album. */
  lemma DeleteAlbumScoped(s: Snapshot, uid: string, albumId: string, faults: set<Call>)
    ensures var r := DeleteAlbumSpec(s, uid, albumId, faults).1;
      && r.users == s.users
      && (forall a | a in s.albums && (a.userId != uid || CastObjectId(albumId) != Some(a.id)) :: a in r.albums)
      && (forall m | m in s.media && (m.userId != uid || CastObjectId(albumId) != Some(m.albumId)) :: m in r.media)
  {
    DeleteAlbumWrites(s, uid, albumId, faults);
    var cast := CastObjectId(albumId);
    if cast.Some? {
      var id := cast.value;
      AlbumRemovedExactly(s.albums, id, uid);
      AlbumMediaRemovedExactly(s.media, id, uid);
    }
  }

  /** The only writes a delete can make: the albums lose the matched album
      or stay, the media lose the album's media or stay, the users stay. */
  lemma DeleteAlbumWrites(s: Snapshot, uid: string, albumId: string, faults: set<Call>)
    ensures var r := DeleteAlbumSpec(s, uid, albumId, faults).1;
      && r.users == s.users
      && (r.albums == s.albums
          || (CastObjectId(albumId).Some? && r.albums == Filter(s.albums, AlbumIsNot(CastObjectId(albumId).value, uid))))
      && (r.media == s.media
          || (CastObjectId(albumId).Some? && r.media == Filter(s.media, MediaNotOf(CastObjectId(albumId).value, uid))))
  {
    if CastObjectId(albumId).Some? {
      var id := CastObjectId(albumId).value;
      var urls := AlbumMediaUrls(s, id, uid);
      var s1 := if urls == [] then s else s.(log := s.log + [ObjectsDeleted(urls)]);
      assert s1.users == s.users && s1.albums == s.albums && s1.media == s.media;
      RemoveRecordsWrites(s1, uid, id, faults);
    }
  }

  /** The checks a delete answering 200 has passed. */
  lemma DeleteAlbumGuards(s: Snapshot, uid: string, albumId: string, faults: set<Call>)
    requires StatusOf(DeleteAlbumSpec(s, uid, albumId, faults).0) == 200
    ensures CastObjectId(albumId).Some?
    ensures var id := CastObjectId(albumId).value;
      var urls := AlbumMediaUrls(s, id, uid);
      && AlbumFindOne !in faults && FindOne(s.albums, AlbumIs(id, uid)).Some? && MediaFind !in faults
      && !(urls != [] && StorageDelete in faults) && MediaDeleteMany !in faults && AlbumDeleteOne !in faults
      && DeleteAlbumSpec(s, uid, albumId, faults)
         == RemoveAlbumRecords(if urls == [] then s else s.(log := s.log + [ObjectsDeleted(urls)]), uid, id, faults)
  {
  }

  /** Both record deletions going through remove the media, then the
      album, and log both. */
  lemma RemoveRecordsSucceed(s: Snapshot, uid: string, id: ObjectId, faults: set<Call>)
    requires MediaDeleteMany !in faults && AlbumDeleteOne !in faults
    ensures RemoveAlbumRecords(s, uid, id, faults).1
         == s.(media := Filter(s.media, MediaNotOf(id, uid)), albums := Filter(s.albums, AlbumIsNot(id, uid)),
               log := s.log + [AlbumMediaRemoved(id, uid)] + [AlbumRemoved(id, uid)])
  {
  }

  /** The record deletions change only what they are asked to. */
  lemma RemoveRecordsWrites(s: Snapshot, uid: string, id: ObjectId, faults: set<Call>)
    ensures var r := RemoveAlbumRecords(s, uid, id, faults).1;
      && r.users == s.users
      && (r.albums == s.albums || r.albums == Filter(s.albums, AlbumIsNot(id, uid)))
      && (r.media == s.media || r.media == Filter(s.media, MediaNotOf(id, uid)))
  {
  }

  /** A delete that answers 200 has removed exactly the album and exactly
      its media, and has logged, in order, the object-store deletion (when
      the album had media), the media removal and the album removal. */
  lemma DeleteAlbumSucceeds(s: Snapshot, uid: string, albumId: string, faults: set<Call>)
    requires StatusOf(DeleteAlbumSpec(s, uid, albumId, faults).0) == 200
    ensures CastObjectId(albumId).Some?
    ensures var id := CastObjectId(albumId).value;
      var r := DeleteAlbumSpec(s, uid, albumId, faults).1;
      var urls := AlbumMediaUrls(s, id, uid);
      && FindOne(s.albums, AlbumIs(id, uid)).Some?
      && (forall a :: a in r.albums <==> a in s.albums && (a.id != id || a.userId != uid))
      && (forall m :: m in r.media <==> m in s.media && (m.albumId != id || m.userId != uid))
      && r.users == s.users
      && r.log == s.log + (if urls == [] then [] else [ObjectsDeleted(urls)])
                  + [AlbumMediaRemoved(id, uid), AlbumRemoved(id, uid)]
  {
    DeleteAlbumGuards(s, uid, albumId, faults);
    var id := CastObjectId(albumId).value;
    var urls := AlbumMediaUrls(s, id, uid);
    var s1 := if urls == [] then s else s.(log := s.log + [ObjectsDeleted(urls)]);
    assert s1.log == s.log + (if urls == [] then [] else [ObjectsDeleted(urls)]);
    RemoveRecordsSucceed(s1, uid, id, faults);
    AlbumRemovedExactly(s.albums, id, uid);
    AlbumMediaRemovedExactly(s.media, id, uid);
  }
}
