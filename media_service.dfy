/** The media service: the store operations behind the media routes. Each
    returns its result or the error it throws. */
module MediaService {
  import opened Wrappers
  import opened Lists
  import opened Sorting
  import opened Models
  import opened Errors
  import opened Store

  /** `createMedia({albumId, userId, mediaType, mediaUrl})`: inserts one
      record holding exactly the given fields. */
  method CreateMedia(b: Backend, albumId: string, uid: string, mediaType: string, mediaUrl: string,
                     freshId: ObjectId, now: nat, faults: set<Call>)
    returns (r: Result<Media, Thrown>)
    requires b.Valid()
    modifies b
    ensures b.Valid()
    ensures r.Ok? <==> (NewMedia(freshId, albumId, uid, mediaType, mediaUrl, now).Ok? && MediaCreate !in faults
                        && FindOne(old(b.media), MediaIdIs(freshId)).None?)
    ensures r.Ok? ==>
      && r.value == NewMedia(freshId, albumId, uid, mediaType, mediaUrl, now).value
      && r.value.albumId == CastObjectId(albumId).value && r.value.userId == uid
      && MediaTypeName(r.value.mediaType) == mediaType && r.value.mediaUrl == mediaUrl && !r.value.isFavorite
      && b.media == old(b.media) + [r.value] && b.log == old(b.log) + [MediaInserted(freshId)]
    ensures NewMedia(freshId, albumId, uid, mediaType, mediaUrl, now).Err? ==> r == Err(ValidationError)
    ensures NewMedia(freshId, albumId, uid, mediaType, mediaUrl, now).Ok? && MediaCreate in faults ==> r == Err(StoreFailure)
    ensures (NewMedia(freshId, albumId, uid, mediaType, mediaUrl, now).Ok? && MediaCreate !in faults
             && FindOne(old(b.media), MediaIdIs(freshId)).Some?) ==> r == Err(DuplicateKey)
    ensures r.Err? ==> b.State() == old(b.State())
    ensures b.albums == old(b.albums) && b.users == old(b.users)
  {
    r := b.CreateMedia(freshId, albumId, uid, mediaType, mediaUrl, now, MediaCreate in faults);
  }

  /** `getMediaByAlbum(userId, albumId)`: the user's media in that album,
      newest first. An album id that is not an identifier fails to cast. */
  method GetMediaByAlbum(b: Backend, uid: string, albumId: string, faults: set<Call>)
    returns (r: Result<seq<Media>, Thrown>)
    ensures CastObjectId(albumId).None? ==> r == Err(CastError)
    ensures CastObjectId(albumId).Some? && MediaFind in faults ==> r == Err(StoreFailure)
    ensures r.Ok? <==> CastObjectId(albumId).Some? && MediaFind !in faults
    ensures r.Ok? ==>
      multiset(r.value) == multiset(Filter(b.media, MediaOf(CastObjectId(albumId).value, uid)))
      && SortedDesc(r.value, CreatedAt)
  {
    var id := CastObjectId(albumId);
    if id.None? {
      return Err(CastError);
    }
    var found := b.FindMedia(id.value, uid, MediaFind in faults);
    if found.Err? {
      return Err(found.error);
    }
    return Ok(SortDesc(found.value, CreatedAt));
  }

  /** `deleteMediaById(userId, mediaId)`: a record the user does not own is
      an error with status 404; otherwise the stored object is deleted
      first and the record after it, so a failed object deletion leaves the
      record in place. */
  method DeleteMediaById(b: Backend, uid: string, mediaId: string, faults: set<Call>)
    returns (r: Result<(), Thrown>)
    requires b.Valid()
    modifies b
    ensures b.Valid()
    ensures CastObjectId(mediaId).None? ==> r == Err(CastError) && b.State() == old(b.State())
    ensures CastObjectId(mediaId).Some? && MediaFindOne in faults ==>
      r == Err(StoreFailure) && b.State() == old(b.State())
    ensures (CastObjectId(mediaId).Some? && MediaFindOne !in faults
             && FindOne(old(b.media), MediaIs(CastObjectId(mediaId).value, uid)).None?) ==>
      r == Err(StatusError(404, "Media not found")) && b.State() == old(b.State())
    ensures (CastObjectId(mediaId).Some? && MediaFindOne !in faults
             && FindOne(old(b.media), MediaIs(CastObjectId(mediaId).value, uid)).Some?) ==>
      var m := FindOne(old(b.media), MediaIs(CastObjectId(mediaId).value, uid)).value;
      && (StorageDelete in faults ==> r == Err(StorageFailure) && b.State() == old(b.State()))
      && (StorageDelete !in faults && MediaDeleteOne in faults ==>
            r == Err(StoreFailure) && b.media == old(b.media) && b.log == old(b.log) + [ObjectsDeleted([m.mediaUrl])])
      && (StorageDelete !in faults && MediaDeleteOne !in faults ==>
            r == Ok(()) && b.media == Filter(old(b.media), MediaIdIsNot(m.id))
            && b.log == old(b.log) + [ObjectsDeleted([m.mediaUrl]), MediaRemoved(m.id)])
    ensures b.albums == old(b.albums) && b.users == old(b.users)
  {
    var id := CastObjectId(mediaId);
    if id.None? {
      return Err(CastError);
    }
    var found := b.FindOneMedia(id.value, uid, MediaFindOne in faults);
    if found.Err? {
      return Err(found.error);
    }
    if found.value.None? {
      return Err(StatusError(404, "Media not found"));
    }
    var m := found.value.value;
    var deleted := b.DeleteObjects([m.mediaUrl], StorageDelete in faults);
    if deleted.Err? {
      return Err(deleted.error);
    }
    r := b.DeleteOneMedia(m.id, MediaDeleteOne in faults);
  }

  /** A successful delete removes exactly the one record: the user's media
      item with that id. */
  lemma DeleteRemovesOne(media: seq<Media>, m: Media)
    requires MediaOk(media) && m in media
    ensures forall x :: x in Filter(media, MediaIdIsNot(m.id)) <==> x in media && x != m
  {
    MediaRemovedExactly(media, m.id);
    forall x | x in media && x.id == m.id ensures x == m {
      var i :| 0 <= i < |media| && media[i] == x;
      var j :| 0 <= j < |media| && media[j] == m;
      assert MediaKey(media[i]) == MediaKey(media[j]);
    }
  }
}
