/** The media controller: upload (after the upload stage), listing by album
    and delete. Errors are handed on with `next(err)`. */
module MediaController {
  import opened Wrappers
  import opened JsStrings
  import opened Lists
  import opened Sorting
  import opened Models
  import opened Errors
  import opened Http
  import opened Store
  import opened Hex
  import opened UploadS3

  /** What `POST /` does, from the upload stage to the response: the file
      is checked before the album id, the media type comes from the
      client's MIME type, the URL is where the object was stored, and the
      album id is stored without looking the album up. */
  function UploadSpec(s: Snapshot, uid: string, uidDigest: seq<byte>, part: Option<FilePart>, albumId: Option<string>,
                      iso: string, millis: nat, location: string, freshId: ObjectId, now: nat, faults: set<Call>)
    : (Outcome, Snapshot)
  {
    if part.None? then (Respond(400, ErrorBody("mediaFile is required")), s)
    else if part.value.size > MaxFileSize then (Forward(Message("File too large")), s)
    else if StoragePut in faults then (Forward(StorageFailure), s)
    else
      RecordUpload(s.(log := s.log + [ObjectStored(BuildS3Key(uidDigest, iso, millis, part.value.originalname))]),
                   uid, part.value, albumId, location, freshId, now, faults)
  }

  /** The handler once the object is stored: the album id check, then
      the record built from the stored file and inserted. */
  function RecordUpload(s: Snapshot, uid: string, file: FilePart, albumId: Option<string>, location: string,
                        freshId: ObjectId, now: nat, faults: set<Call>)
    : (Outcome, Snapshot)
  {
    if Falsy(albumId) then (Respond(400, ErrorBody("albumId is required")), s)
    else match NewMedia(freshId, albumId.value, uid, MediaTypeOf(file.mimetype), location, now)
      case Err(e) => (Forward(e), s)
      case Ok(m) =>
        if MediaCreate in faults then (Forward(StoreFailure), s)
        else if FindOne(s.media, MediaIdIs(freshId)).Some? then (Forward(DuplicateKey), s)
        else (Respond(201, MediaBody(m)), s.(media := s.media + [m], log := s.log + [MediaInserted(freshId)]))
  }

  /** `uploadMedia`: the upload stage, then the handler. */
  method UploadMedia(b: Backend, uid: string, uidDigest: seq<byte>, part: Option<FilePart>, albumId: Option<string>,
                     iso: string, millis: nat, location: string, freshId: ObjectId, now: nat, faults: set<Call>)
    returns (out: Outcome)
    requires b.Valid()
    modifies b
    ensures b.Valid()
    ensures (out, b.State()) == UploadSpec(old(b.State()), uid, uidDigest, part, albumId, iso, millis, location, freshId, now, faults)
  {
    var up := StoreUpload(b, part, uidDigest, iso, millis, location, faults);
    if up.Err? {
      return Forward(up.error);
    }
    var file := up.value;
    if file.None? {
      return Respond(400, ErrorBody("mediaFile is required"));
    }
    if Falsy(albumId) {
      return Respond(400, ErrorBody("albumId is required"));
    }
    var mediaUrl := file.value.location;
    var mediaType := MediaTypeOf(file.value.mimetype);
    var created := b.CreateMedia(freshId, albumId.value, uid, mediaType, mediaUrl, now, MediaCreate in faults);
    if created.Err? {
      return Forward(created.error);
    }
    return Respond(201, MediaBody(created.value));
  }

  /** A request without a file is answered 400 whatever its album id, and
      nothing is stored. */
  lemma UploadNeedsFileFirst(s: Snapshot, uid: string, uidDigest: seq<byte>, albumId: Option<string>,
                             iso: string, millis: nat, location: string, freshId: ObjectId, now: nat, faults: set<Call>)
    ensures UploadSpec(s, uid, uidDigest, None, albumId, iso, millis, location, freshId, now, faults)
         == (Respond(400, ErrorBody("mediaFile is required")), s)
  {
  }

  /** A stored file with a missing or empty album id is answered 400 and
      no media record is written, although the object stays stored. */
  lemma UploadWithoutAlbumId(s: Snapshot, uid: string, uidDigest: seq<byte>, part: Option<FilePart>, albumId: Option<string>,
                             iso: string, millis: nat, location: string, freshId: ObjectId, now: nat, faults: set<Call>)
    requires part.Some? && part.value.size <= MaxFileSize && StoragePut !in faults && Falsy(albumId)
    ensures var r := UploadSpec(s, uid, uidDigest, part, albumId, iso, millis, location, freshId, now, faults);
      && r.0 == Respond(400, ErrorBody("albumId is required"))
      && r.1.media == s.media && r.1.albums == s.albums && r.1.users == s.users
      && r.1.log == s.log + [ObjectStored(BuildS3Key(uidDigest, iso, millis, part.value.originalname))]
  {
  }

  /** A created record is a `video` exactly when the client's MIME type
      starts with `video/`; its URL is the stored object's location, its
      album the cast album id and its owner the caller; it is appended to
      the media and nothing else is written besides the object. */
  lemma UploadCreates(s: Snapshot, uid: string, uidDigest: seq<byte>, part: Option<FilePart>, albumId: Option<string>,
                      iso: string, millis: nat, location: string, freshId: ObjectId, now: nat, faults: set<Call>)
    returns (m: Media)
    requires UploadSpec(s, uid, uidDigest, part, albumId, iso, millis, location, freshId, now, faults).0.Respond?
    requires UploadSpec(s, uid, uidDigest, part, albumId, iso, millis, location, freshId, now, faults).0.status == 201
    ensures part.Some? && !Falsy(albumId) && CastObjectId(albumId.value).Some?
    ensures UploadSpec(s, uid, uidDigest, part, albumId, iso, millis, location, freshId, now, faults)
         == (Respond(201, MediaBody(m)),
             s.(media := s.media + [m],
                log := s.log + [ObjectStored(BuildS3Key(uidDigest, iso, millis, part.value.originalname))] + [MediaInserted(freshId)]))
    ensures m.mediaType == Video <==> StartsWith(part.value.mimetype, "video/")
    ensures m.mediaUrl == location && m.albumId == CastObjectId(albumId.value).value && m.userId == uid
    ensures m.id == freshId && !m.isFavorite && m.createdAt == now
  {
    var nm := UploadCreatedGuards(s, uid, uidDigest, part, albumId, iso, millis, location, freshId, now, faults);
    m := nm.value;
    UploadCreatedResult(s, uid, uidDigest, part, albumId, iso, millis, location, freshId, now, faults, m);
    MediaTypeOfParsed(part.value.mimetype);
  }

  /** The checks a created upload passed, and the record it built. */
  lemma UploadCreatedGuards(s: Snapshot, uid: string, uidDigest: seq<byte>, part: Option<FilePart>, albumId: Option<string>,
                            iso: string, millis: nat, location: string, freshId: ObjectId, now: nat, faults: set<Call>)
    returns (nm: Result<Media, Thrown>)
    requires UploadSpec(s, uid, uidDigest, part, albumId, iso, millis, location, freshId, now, faults).0.Respond?
    requires UploadSpec(s, uid, uidDigest, part, albumId, iso, millis, location, freshId, now, faults).0.status == 201
    ensures part.Some? && part.value.size <= MaxFileSize && StoragePut !in faults && !Falsy(albumId)
    ensures nm == NewMedia(freshId, albumId.value, uid, MediaTypeOf(part.value.mimetype), location, now)
    ensures nm.Ok? && MediaCreate !in faults && FindOne(s.media, MediaIdIs(freshId)).None?
  {
    nm := NewMedia(freshId, albumId.value, uid, MediaTypeOf(part.value.mimetype), location, now);
  }

  /** What a created upload answers and writes. */
  lemma UploadCreatedResult(s: Snapshot, uid: string, uidDigest: seq<byte>, part: Option<FilePart>, albumId: Option<string>,
                            iso: string, millis: nat, location: string, freshId: ObjectId, now: nat, faults: set<Call>,
                            m: Media)
    requires part.Some? && part.value.size <= MaxFileSize && StoragePut !in faults && !Falsy(albumId)
    requires NewMedia(freshId, albumId.value, uid, MediaTypeOf(part.value.mimetype), location, now) == Ok(m)
    requires MediaCreate !in faults && FindOne(s.media, MediaIdIs(freshId)).None?
    ensures UploadSpec(s, uid, uidDigest, part, albumId, iso, millis, location, freshId, now, faults)
         == (Respond(201, MediaBody(m)),
             s.(media := s.media + [m],
                log := s.log + [ObjectStored(BuildS3Key(uidDigest, iso, millis, part.value.originalname))] + [MediaInserted(freshId)]))
  {
  }

  /** The media type derived from a MIME type parses back to the video
      type exactly for `video/` types. */
  lemma MediaTypeOfParsed(mimetype: string)
    ensures ParseMediaType(MediaTypeOf(mimetype)) == Some(if StartsWith(mimetype, "video/") then Video else Photo)
  {
  }

  /** The album id is never looked up: the outcome is the same whatever
      albums exist. */
  lemma UploadIgnoresAlbums(s: Snapshot, albums: seq<Album>, uid: string, uidDigest: seq<byte>, part: Option<FilePart>,
                            albumId: Option<string>, iso: string, millis: nat, location: string, freshId: ObjectId,
                            now: nat, faults: set<Call>)
    ensures UploadSpec(s.(albums := albums), uid, uidDigest, part, albumId, iso, millis, location, freshId, now, faults).0
         == UploadSpec(s, uid, uidDigest, part, albumId, iso, millis, location, freshId, now, faults).0
  {
    if part.Some? && part.value.size <= MaxFileSize && StoragePut !in faults {
      var entry := [ObjectStored(BuildS3Key(uidDigest, iso, millis, part.value.originalname))];
      var s1 := s.(log := s.log + entry);
      assert s.(albums := albums).(log := s.(albums := albums).log + entry) == s1.(albums := albums);
      RecordIgnoresAlbums(s1, albums, uid, part.value, albumId, location, freshId, now, faults);
    }
  }

  /** The handler's answer does not depend on the albums either. */
  lemma RecordIgnoresAlbums(s: Snapshot, albums: seq<Album>, uid: string, file: FilePart, albumId: Option<string>,
                            location: string, freshId: ObjectId, now: nat, faults: set<Call>)
    ensures RecordUpload(s.(albums := albums), uid, file, albumId, location, freshId, now, faults).0
         == RecordUpload(s, uid, file, albumId, location, freshId, now, faults).0
  {
  }

  /** `getMediaByAlbum`: `Media.find({albumId, userId}).sort('-createdAt')`. */
  method GetMediaByAlbum(b: Backend, uid: string, albumId: string, faults: set<Call>) returns (out: Outcome)
    ensures CastObjectId(albumId).None? ==> out == Forward(CastError)
    ensures CastObjectId(albumId).Some? && MediaFind in faults ==> out == Forward(StoreFailure)
    ensures out.Respond? <==> CastObjectId(albumId).Some? && MediaFind !in faults
    ensures out.Respond? ==>
      && out.status == 200 && out.body.MediaListBody?
      && multiset(out.body.items) == multiset(Filter(b.media, MediaOf(CastObjectId(albumId).value, uid)))
      && SortedDesc(out.body.items, CreatedAt)
  {
    var id := CastObjectId(albumId);
    if id.None? {
      return Forward(CastError);
    }
    var items := b.FindMedia(id.value, uid, MediaFind in faults);
    if items.Err? {
      return Forward(items.error);
    }
    return Respond(200, MediaListBody(SortDesc(items.value, CreatedAt)));
  }

  /** `deleteMedia`: a record the caller does not own is answered 404;
      otherwise the object is deleted, then the record; a failure at
      either step is handed on, and a failed object delete leaves the
      record in place. */
  method DeleteMedia(b: Backend, uid: string, mediaId: string, faults: set<Call>) returns (out: Outcome)
    requires b.Valid()
    modifies b
    ensures b.Valid()
    ensures CastObjectId(mediaId).None? ==> out == Forward(CastError) && b.State() == old(b.State())
    ensures CastObjectId(mediaId).Some? && MediaFindOne in faults ==>
      out == Forward(StoreFailure) && b.State() == old(b.State())
    ensures (CastObjectId(mediaId).Some? && MediaFindOne !in faults
             && FindOne(old(b.media), MediaIs(CastObjectId(mediaId).value, uid)).None?) ==>
      out == Respond(404, ErrorBody("Media not found")) && b.State() == old(b.State())
    ensures (CastObjectId(mediaId).Some? && MediaFindOne !in faults
             && FindOne(old(b.media), MediaIs(CastObjectId(mediaId).value, uid)).Some?) ==>
      var m := FindOne(old(b.media), MediaIs(CastObjectId(mediaId).value, uid)).value;
      && (StorageDelete in faults ==> out == Forward(StorageFailure) && b.State() == old(b.State()))
      && (StorageDelete !in faults && MediaDeleteOne in faults ==>
            out == Forward(StoreFailure) && b.media == old(b.media) && b.log == old(b.log) + [ObjectsDeleted([m.mediaUrl])])
      && (StorageDelete !in faults && MediaDeleteOne !in faults ==>
            out == Respond(200, MessageBody("Media deleted")) && b.media == Filter(old(b.media), MediaIdIsNot(m.id))
            && b.log == old(b.log) + [ObjectsDeleted([m.mediaUrl]), MediaRemoved(m.id)])
    ensures b.albums == old(b.albums) && b.users == old(b.users)
  {
    var id := CastObjectId(mediaId);
    if id.None? {
      return Forward(CastError);
    }
    var found := b.FindOneMedia(id.value, uid, MediaFindOne in faults);
    if found.Err? {
      return Forward(found.error);
    }
    if found.value.None? {
      return Respond(404, ErrorBody("Media not found"));
    }
    var m := found.value.value;
    var deleted := b.DeleteObjects([m.mediaUrl], StorageDelete in faults);
    if deleted.Err? {
      return Forward(deleted.error);
    }
    var removed := b.DeleteOneMedia(m.id, MediaDeleteOne in faults);
    if removed.Err? {
      return Forward(removed.error);
    }
    return Respond(200, MessageBody("Media deleted"));
  }
}
