/** The three document schemas of the backend — albums, media items and
    users — with the normalisation and validation the document store applies
    when a document is created: the `trim` setter, `required` validators, the
    `enum` on the media type, defaults and timestamps. */
module Models {
  import opened Wrappers
  import opened JsStrings
  import opened Hex
  import opened Errors

  /** A document identifier: twelve bytes. */
  type ObjectId = b: seq<byte> | |b| == 12 witness [0, 0, 0, 0, 0, 0, 0, 0, 0, 0, 0, 0]

  /** `ObjectId.prototype.toHexString()`. */
  function ToHexString(id: ObjectId): (s: string)
    ensures |s| == 24
    ensures forall i | 0 <= i < |s| :: IsLowerHex(s[i])
  {
    BytesToHex(id)
  }

  /** Casting a request string to an identifier, as the store does for an
      `ObjectId` field or an `_id` filter: exactly the 24-digit hexadecimal
      strings (either case) are accepted; anything else is a cast error. */
  function CastObjectId(s: string): (r: Option<ObjectId>)
    ensures r.Some? <==> |s| == 24 && forall i | 0 <= i < |s| :: HexValue(s[i]).Some?
  {
    HexToBytesDefined(s);
    if |s| != 24 then None
    else match HexToBytes(s)
      case None => None
      case Some(bs) => Some(bs)
  }

  /** Casting an identifier's hexadecimal form gives back the identifier. */
  lemma CastOfHexString(id: ObjectId)
    ensures CastObjectId(ToHexString(id)) == Some(id)
  {
    HexRoundTrip(id);
  }

  /** A lowercase 24-digit identifier string is the hexadecimal form of
      what it casts to. */
  lemma HexStringOfCast(s: string)
    requires |s| == 24
    requires forall i | 0 <= i < |s| :: IsLowerHex(s[i])
    ensures CastObjectId(s).Some? && ToHexString(CastObjectId(s).value) == s
  {
    HexRoundTripFromText(s);
  }

  /** Two identifiers with the same hexadecimal form are the same. */
  lemma ToHexStringInjective(a: ObjectId, b: ObjectId)
    requires ToHexString(a) == ToHexString(b)
    ensures a == b
  {
    HexInjective(a, b);
  }

  /** An album document. `userId` is the owner's identity-provider uid. */
  datatype Album = Album(id: ObjectId, userId: string, albumName: string, createdAt: nat, updatedAt: nat)
  {
    /** The `albumId` virtual: derived from `_id`, never stored. It is 24
        hexadecimal digits and casts back to `_id`. */
    function AlbumId(): (s: string)
      ensures |s| == 24
      ensures CastObjectId(s) == Some(id)
    {
      CastOfHexString(id);
      ToHexString(id)
    }
  }

  /** What the album schema guarantees of every stored album. */
  predicate ValidAlbum(a: Album) {
    a.userId != "" && a.albumName != "" && IsTrimmed(a.albumName)
  }

  /** The `timestamps` key for ordering albums. */
  function UpdatedAt(a: Album): nat {
    a.updatedAt
  }

  /** `Album.create({albumName, userId})` at time `now`: the `trim` setter
      normalises the name, then the `required` validators reject an empty
      owner or an empty name. */
  function NewAlbum(id: ObjectId, userId: string, albumName: string, now: nat): (r: Result<Album, Thrown>)
    ensures r.Ok? <==> userId != "" && !IsBlank(albumName)
    ensures r.Ok? ==> r.value == Album(id, userId, Trim(albumName), now, now) && ValidAlbum(r.value)
    ensures r.Err? ==> r.error == ValidationError
  {
    TrimIsTrimmed(albumName);
    var name := Trim(albumName);
    if userId == "" || name == "" then Err(ValidationError)
    else Ok(Album(id, userId, name, now, now))
  }

  datatype MediaType = Photo | Video

  /** The stored text of a media type. */
  function MediaTypeName(t: MediaType): string {
    match t
    case Photo => "photo"
    case Video => "video"
  }

  /** The `enum: ['photo', 'video']` validator. */
  function ParseMediaType(s: string): (r: Option<MediaType>)
    ensures r.Some? <==> s == "photo" || s == "video"
    ensures r.Some? ==> MediaTypeName(r.value) == s
  {
    if s == "photo" then Some(Photo)
    else if s == "video" then Some(Video)
    else None
  }

  lemma ParseMediaTypeName(t: MediaType)
    ensures ParseMediaType(MediaTypeName(t)) == Some(t)
  {
  }

  /** `file.mimetype.startsWith('video/') ? 'video' : 'photo'`. */
  function MediaTypeOf(mimetype: string): (r: string)
    ensures r == "video" <==> StartsWith(mimetype, "video/")
    ensures r == "photo" <==> !StartsWith(mimetype, "video/")
    ensures ParseMediaType(r).Some?
  {
    if StartsWith(mimetype, "video/") then "video" else "photo"
  }

  /** A media document. */
  datatype Media = Media(id: ObjectId, albumId: ObjectId, userId: string, mediaType: MediaType,
                         mediaUrl: string, isFavorite: bool, createdAt: nat, updatedAt: nat)
  {
    /** The `mediaId` virtual: 24 hexadecimal digits that cast back to
        `_id`. */
    function MediaId(): (s: string)
      ensures |s| == 24
      ensures CastObjectId(s) == Some(id)
    {
      CastOfHexString(id);
      ToHexString(id)
    }
  }

  /** What the media schema guarantees of every stored media item. */
  predicate ValidMedia(m: Media) {
    m.userId != "" && m.mediaUrl != ""
  }

  /** The `timestamps` key for ordering media. */
  function CreatedAt(m: Media): nat {
    m.createdAt
  }

  /** `Media.create({albumId, userId, mediaType, mediaUrl})` at time `now`:
      `albumId` is cast to an identifier, the media type must be one of the
      enum values, the other fields are required, and `isFavorite` defaults
      to false. A failed cast is reported as a validation error. */
  function NewMedia(id: ObjectId, albumId: string, userId: string, mediaType: string, mediaUrl: string, now: nat)
    : (r: Result<Media, Thrown>)
    ensures r.Ok? <==> CastObjectId(albumId).Some? && userId != "" && ParseMediaType(mediaType).Some? && mediaUrl != ""
    ensures r.Ok? ==> r.value == Media(id, CastObjectId(albumId).value, userId, ParseMediaType(mediaType).value,
                                       mediaUrl, false, now, now)
    ensures r.Ok? ==> ValidMedia(r.value) && MediaTypeName(r.value.mediaType) == mediaType
    ensures r.Err? ==> r.error == ValidationError
  {
    match (CastObjectId(albumId), ParseMediaType(mediaType))
    case (Some(aid), Some(t)) =>
      if userId == "" || mediaUrl == "" then Err(ValidationError)
      else Ok(Media(id, aid, userId, t, mediaUrl, false, now, now))
    case _ => Err(ValidationError)
  }

  /** A user document; `displayname` is optional. */
  datatype User = User(id: ObjectId, userId: string, email: string, displayname: Option<string>, createdAt: nat)

  /** What the user schema's `required` validators guarantee. */
  predicate ValidUser(u: User) {
    u.userId != "" && u.email != ""
  }

  /** `new User({userId, email, displayname})` as validated by `save()`:
      `createdAt` defaults to the current time; a missing or empty
      `userId` or `email` fails validation. */
  function NewUser(id: ObjectId, userId: string, email: Option<string>, displayname: Option<string>, now: nat)
    : (r: Result<User, Thrown>)
    ensures r.Ok? <==> userId != "" && email.Some? && email.value != ""
    ensures r.Ok? ==> r.value == User(id, userId, email.value, displayname, now) && ValidUser(r.value)
    ensures r.Err? ==> r.error == ValidationError
  {
    if userId == "" || email.None? || email.value == "" then Err(ValidationError)
    else Ok(User(id, userId, email.value, displayname, now))
  }
}
