/** The media router: the same upload checks as the controller, with the
    store work delegated to the media service, and listing and delete
    delegated to it as well. Errors are handed on with `next(err)`. */
module MediaRoute {
  import opened Wrappers
  import opened Lists
  import opened Sorting
  import opened Hex
  import opened Models
  import opened Errors
  import opened Http
  import opened Store
  import opened UploadS3
  import MediaService
  import MediaController

  /** `POST /`: the upload stage, the file check, then the album id check,
      then `createMedia` with the type derived from the MIME type and the
      stored object's location. Its outcome is the controller's. */
  method UploadMedia(b: Backend, uid: string, uidDigest: seq<byte>, part: Option<FilePart>, albumId: Option<string>,
                     iso: string, millis: nat, location: string, freshId: ObjectId, now: nat, faults: set<Call>)
    returns (out: Outcome)
    requires b.Valid()
    modifies b
    ensures b.Valid()
    ensures (out, b.State())
         == MediaController.UploadSpec(old(b.State()), uid, uidDigest, part, albumId, iso, millis, location, freshId, now, faults)
  {
    var up := StoreUpload(b, part, uidDigest, iso, millis, location, faults);
    if up.Err? {
      return Forward(up.error);
    }
    var file := up.value;
    if file.None? {
      return Respond(400, ErrorBody("mediaFile is required"));
    }
    if Falsy(albumId) {
      return Respond(400, ErrorBody("albumId is required"));
    }
    var mediaType := MediaTypeOf(file.value.mimetype);
    var mediaUrl := file.value.location;
    var media := MediaService.CreateMedia(b, albumId.value, uid, mediaType, mediaUrl, freshId, now, faults);
    if media.Err? {
      return Forward(media.error);
    }
    return Respond(201, MediaBody(media.value));
  }

  /** `GET /:albumId`: the service's listing, answered with 200. */
  method GetMediaByAlbum(b: Backend, uid: string, albumId: string, faults: set<Call>) returns (out: Outcome)
    ensures CastObjectId(albumId).None? ==> out == Forward(CastError)
    ensures CastObjectId(albumId).Some? && MediaFind in faults ==> out == Forward(StoreFailure)
    ensures out.Respond? <==> CastObjectId(albumId).Some? && MediaFind !in faults
    ensures out.Respond? ==>
      && out.status == 200 && out.body.MediaListBody?
      && multiset(out.body.items) == multiset(Filter(b.media, MediaOf(CastObjectId(albumId).value, uid)))
      && SortedDesc(out.body.items, CreatedAt)
  {
    var items := MediaService.GetMediaByAlbum(b, uid, albumId, faults);
    if items.Err? {
      return Forward(items.error);
    }
    return Respond(200, MediaListBody(items.value));
  }

  /** `DELETE /:mediaId`: answers `Media deleted` only once the service's
      delete has completed; the service's errors, the 404 for a record the
      caller does not own among them, are handed on. */
  method DeleteMedia(b: Backend, uid: string, mediaId: string, faults: set<Call>) returns (out: Outcome)
    requires b.Valid()
    modifies b
    ensures b.Valid()
    ensures (CastObjectId(mediaId).None? || MediaFindOne in faults) ==> out.Forward? && b.State() == old(b.State())
    ensures (CastObjectId(mediaId).Some? && MediaFindOne !in faults
             && FindOne(old(b.media), MediaIs(CastObjectId(mediaId).value, uid)).None?) ==>
      out == Forward(StatusError(404, "Media not found")) && StatusOf(out) == 404 && b.State() == old(b.State())
    ensures (CastObjectId(mediaId).Some? && MediaFindOne !in faults
             && FindOne(old(b.media), MediaIs(CastObjectId(mediaId).value, uid)).Some?) ==>
      var m := FindOne(old(b.media), MediaIs(CastObjectId(mediaId).value, uid)).value;
      && (StorageDelete in faults ==> out == Forward(StorageFailure) && b.State() == old(b.State()))
      && (StorageDelete !in faults && MediaDeleteOne in faults ==>
            out == Forward(StoreFailure) && b.media == old(b.media) && b.log == old(b.log) + [ObjectsDeleted([m.mediaUrl])])
      && (StorageDelete !in faults && MediaDeleteOne !in faults ==>
            out == Respond(200, MessageBody("Media deleted")) && b.media == Filter(old(b.media), MediaIdIsNot(m.id))
            && b.log == old(b.log) + [ObjectsDeleted([m.mediaUrl]), MediaRemoved(m.id)])
    ensures out == Respond(200, MessageBody("Media deleted")) || out.Forward?
    ensures b.albums == old(b.albums) && b.users == old(b.users)
  {
    var done := MediaService.DeleteMediaById(b, uid, mediaId, faults);
    if done.Err? {
      return Forward(done.error);
    }
    return Respond(200, MessageBody("Media deleted"));
  }
}
