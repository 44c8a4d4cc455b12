/** The document store's three collections and the object store, as seen by
    the route handlers: each store call the handlers make is one method here.
    A call may fail (the store is unreachable, the request is rejected); a
    failed call changes nothing. Successful writes and object-store deletes
    are recorded, in order, in an effect log. */
module Store {
  import opened Wrappers
  import opened JsStrings
  import opened Lists
  import opened Models
  import opened Errors

  /** The store calls a handler can make; a request's fault set names those
      that fail in it. */
  datatype Call =
    | AlbumFind | AlbumFindOne | AlbumCreate | AlbumFindOneAndUpdate | AlbumFindOneAndDelete
    | AlbumDeleteOne | MediaFind | MediaFindOne | MediaCreate | MediaDeleteMany
    | MediaDeleteOne | StoragePut | StorageDelete | UserFindOne | UserSave

  /** A completed write, in the order the handlers issued them. */
  datatype Effect =
    | AlbumInserted(id: ObjectId)
    | AlbumUpdated(id: ObjectId)
    | AlbumRemoved(id: ObjectId, userId: string)
    | MediaInserted(id: ObjectId)
    | AlbumMediaRemoved(albumId: ObjectId, userId: string)
    | MediaRemoved(id: ObjectId)
    | ObjectStored(key: string)
    | ObjectsDeleted(urls: seq<string>)
    | UserInserted(userId: string)

  // Query filters, as predicates on documents.

  /** `{userId}` on albums. */
  function AlbumOwnedBy(uid: string): Album -> bool {
    (a: Album) => a.userId == uid
  }

  /** `{_id, userId}` on albums. */
  function AlbumIs(id: ObjectId, uid: string): Album -> bool {
    (a: Album) => a.id == id && a.userId == uid
  }

  /** The albums a delete on `{_id, userId}` keeps. */
  function AlbumIsNot(id: ObjectId, uid: string): Album -> bool {
    (a: Album) => !(a.id == id && a.userId == uid)
  }

  function AlbumIdIs(id: ObjectId): Album -> bool {
    (a: Album) => a.id == id
  }

  /** `{albumId, userId}` on media. */
  function MediaOf(albumId: ObjectId, uid: string): Media -> bool {
    (m: Media) => m.albumId == albumId && m.userId == uid
  }

  /** The media a delete on `{albumId, userId}` keeps. */
  function MediaNotOf(albumId: ObjectId, uid: string): Media -> bool {
    (m: Media) => !(m.albumId == albumId && m.userId == uid)
  }

  /** `{_id, userId}` on media. */
  function MediaIs(id: ObjectId, uid: string): Media -> bool {
    (m: Media) => m.id == id && m.userId == uid
  }

  function MediaIdIs(id: ObjectId): Media -> bool {
    (m: Media) => m.id == id
  }

  /** The media a delete on `{_id}` keeps. */
  function MediaIdIsNot(id: ObjectId): Media -> bool {
    (m: Media) => m.id != id
  }

  /** `{userId}` on users. */
  function UserIdIs(uid: string): User -> bool {
    (u: User) => u.userId == uid
  }

  function UserKeyIs(id: ObjectId): User -> bool {
    (u: User) => u.id == id
  }

  function UserEmailIs(email: string): User -> bool {
    (u: User) => u.email == email
  }

  // Unique keys.

  function AlbumKey(a: Album): ObjectId { a.id }
  function MediaKey(m: Media): ObjectId { m.id }
  function UserKey(u: User): ObjectId { u.id }
  function UserUid(u: User): string { u.userId }
  function UserEmail(u: User): string { u.email }

  /** The first document matching a filter: what `findOne` returns. */
  function FindOne<T>(s: seq<T>, p: T -> bool): (r: Option<T>)
    ensures r.Some? ==> r.value in s && p(r.value)
    ensures r.None? ==> forall i | 0 <= i < |s| :: !p(s[i])
  {
    match FirstWhere(s, p)
    case None => None
    case Some(i) => Some(s[i])
  }

  /** `items.map(m => m.mediaUrl)`. */
  function MediaUrls(items: seq<Media>): (urls: seq<string>)
    ensures |urls| == |items|
    ensures forall i | 0 <= i < |items| :: urls[i] == items[i].mediaUrl
  {
    if items == [] then [] else [items[0].mediaUrl] + MediaUrls(items[1..])
  }

  /** The media an album delete on `{albumId, userId}` keeps are exactly the
      media of other albums or other users. */
  lemma AlbumMediaRemovedExactly(media: seq<Media>, albumId: ObjectId, uid: string)
    ensures forall m :: m in Filter(media, MediaNotOf(albumId, uid)) <==>
      m in media && (m.albumId != albumId || m.userId != uid)
  {
    forall m ensures m in Filter(media, MediaNotOf(albumId, uid)) <==>
      m in media && (m.albumId != albumId || m.userId != uid) {
      FilterMember(media, MediaNotOf(albumId, uid), m);
    }
  }

  /** A delete on `{_id, userId}` keeps every album but the one matched. */
  lemma AlbumRemovedExactly(albums: seq<Album>, id: ObjectId, uid: string)
    ensures forall a :: a in Filter(albums, AlbumIsNot(id, uid)) <==>
      a in albums && (a.id != id || a.userId != uid)
  {
    forall a ensures a in Filter(albums, AlbumIsNot(id, uid)) <==>
      a in albums && (a.id != id || a.userId != uid) {
      FilterMember(albums, AlbumIsNot(id, uid), a);
    }
  }

  /** A delete on `{_id}` keeps every media item but the one with that id. */
  lemma MediaRemovedExactly(media: seq<Media>, id: ObjectId)
    ensures forall m :: m in Filter(media, MediaIdIsNot(id)) <==> m in media && m.id != id
  {
    forall m ensures m in Filter(media, MediaIdIsNot(id)) <==> m in media && m.id != id {
      FilterMember(media, MediaIdIsNot(id), m);
    }
  }

  /** Albums listed for `uid` after a query: only that user's albums, and
      all of them. */
  lemma OwnedListing(albums: seq<Album>, listed: seq<Album>, uid: string)
    requires multiset(listed) == multiset(Filter(albums, AlbumOwnedBy(uid)))
    ensures forall a | a in listed :: a.userId == uid
    ensures forall a | a in albums && a.userId == uid :: a in listed
  {
    forall a | a in listed ensures a.userId == uid {
      assert a in multiset(listed);
      FilterMember(albums, AlbumOwnedBy(uid), a);
    }
    forall a | a in albums && a.userId == uid ensures a in listed {
      FilterMember(albums, AlbumOwnedBy(uid), a);
      assert a in multiset(Filter(albums, AlbumOwnedBy(uid)));
    }
  }

  /** Media listed for an album: only that user's media in that album, and
      all of them. */
  lemma AlbumMediaListing(media: seq<Media>, listed: seq<Media>, albumId: ObjectId, uid: string)
    requires multiset(listed) == multiset(Filter(media, MediaOf(albumId, uid)))
    ensures forall m | m in listed :: m.albumId == albumId && m.userId == uid
    ensures forall m | m in media && m.albumId == albumId && m.userId == uid :: m in listed
  {
    forall m | m in listed ensures m.albumId == albumId && m.userId == uid {
      assert m in multiset(listed);
      FilterMember(media, MediaOf(albumId, uid), m);
    }
    forall m | m in media && m.albumId == albumId && m.userId == uid ensures m in listed {
      FilterMember(media, MediaOf(albumId, uid), m);
      assert m in multiset(Filter(media, MediaOf(albumId, uid)));
    }
  }

  /** The album collection: unique `_id`s and schema-valid documents. */
  ghost predicate AlbumsOk(s: seq<Album>) {
    DistinctBy(s, AlbumKey) && forall i | 0 <= i < |s| :: ValidAlbum(s[i])
  }

  /** The media collection: unique `_id`s and schema-valid documents. */
  ghost predicate MediaOk(s: seq<Media>) {
    DistinctBy(s, MediaKey) && forall i | 0 <= i < |s| :: ValidMedia(s[i])
  }

  /** The user collection: unique `_id`, `userId` and `email`, and
      schema-valid documents. */
  ghost predicate UsersOk(s: seq<User>) {
    DistinctBy(s, UserKey) && DistinctBy(s, UserUid) && DistinctBy(s, UserEmail)
    && forall i | 0 <= i < |s| :: ValidUser(s[i])
  }

  lemma AlbumsAppend(s: seq<Album>, a: Album)
    requires AlbumsOk(s) && ValidAlbum(a) && FindOne(s, AlbumIdIs(a.id)).None?
    ensures AlbumsOk(s + [a])
  {
    AppendDistinct(s, a, AlbumKey);
    assert forall i | 0 <= i < |s| :: (s + [a])[i] == s[i];
  }

  lemma AlbumsUpdate(s: seq<Album>, i: nat, a: Album)
    requires AlbumsOk(s) && i < |s| && ValidAlbum(a) && a.id == s[i].id
    ensures AlbumsOk(s[i := a])
  {
    assert forall j | 0 <= j < |s| :: AlbumKey(s[i := a][j]) == AlbumKey(s[j]);
  }

  lemma AlbumsFilter(s: seq<Album>, p: Album -> bool)
    requires AlbumsOk(s)
    ensures AlbumsOk(Filter(s, p))
  {
    FilterDistinct(s, p, AlbumKey);
    var t := Filter(s, p);
    forall i | 0 <= i < |t| ensures ValidAlbum(t[i]) {
      FilterMember(s, p, t[i]);
    }
  }

  lemma MediaAppend(s: seq<Media>, m: Media)
    requires MediaOk(s) && ValidMedia(m) && FindOne(s, MediaIdIs(m.id)).None?
    ensures MediaOk(s + [m])
  {
    AppendDistinct(s, m, MediaKey);
    assert forall i | 0 <= i < |s| :: (s + [m])[i] == s[i];
  }

  lemma MediaFilter(s: seq<Media>, p: Media -> bool)
    requires MediaOk(s)
    ensures MediaOk(Filter(s, p))
  {
    FilterDistinct(s, p, MediaKey);
    var t := Filter(s, p);
    forall i | 0 <= i < |t| ensures ValidMedia(t[i]) {
      FilterMember(s, p, t[i]);
    }
  }

  lemma UsersAppend(s: seq<User>, u: User)
    requires UsersOk(s) && ValidUser(u)
    requires FindOne(s, UserKeyIs(u.id)).None? && FindOne(s, UserIdIs(u.userId)).None?
    requires FindOne(s, UserEmailIs(u.email)).None?
    ensures UsersOk(s + [u])
  {
    AppendDistinct(s, u, UserKey);
    AppendDistinct(s, u, UserUid);
    AppendDistinct(s, u, UserEmail);
    assert forall i | 0 <= i < |s| :: (s + [u])[i] == s[i];
  }

  /** A snapshot of the backend's state, for saying that a request left it as
      it was. */
  datatype Snapshot = Snapshot(albums: seq<Album>, media: seq<Media>, users: seq<User>, log: seq<Effect>)

  /** The backend's persistent state: the album, media and user collections,
      and the log of completed writes. */
  class Backend {
    var albums: seq<Album>
    var media: seq<Media>
    var users: seq<User>
    var log: seq<Effect>

    /** What the schemas and unique indexes guarantee of the collections. */
    ghost predicate Valid()
      reads this
    {
      AlbumsOk(albums) && MediaOk(media) && UsersOk(users)
    }

    function State(): Snapshot
      reads this
    {
      Snapshot(albums, media, users, log)
    }

    constructor ()
      ensures Valid()
      ensures albums == [] && media == [] && users == [] && log == []
    {
      albums, media, users, log := [], [], [], [];
    }

    /** `Album.find({userId})`. */
    method FindAlbums(uid: string, fail: bool) returns (r: Result<seq<Album>, Thrown>)
      ensures fail ==> r == Err(StoreFailure)
      ensures !fail ==> r == Ok(Filter(albums, AlbumOwnedBy(uid)))
    {
      if fail {
        return Err(StoreFailure);
      }
      return Ok(Filter(albums, AlbumOwnedBy(uid)));
    }

    /** `Album.findOne({_id, userId})`. */
    method FindOneAlbum(id: ObjectId, uid: string, fail: bool) returns (r: Result<Option<Album>, Thrown>)
      ensures fail ==> r == Err(StoreFailure)
      ensures !fail ==> r == Ok(FindOne(albums, AlbumIs(id, uid)))
    {
      if fail {
        return Err(StoreFailure);
      }
      return Ok(FindOne(albums, AlbumIs(id, uid)));
    }

    /** `Album.create({albumName, userId})`: the document is validated before
        it is sent; an `_id` already present violates the primary index. */
    method CreateAlbum(id: ObjectId, uid: string, albumName: string, now: nat, fail: bool)
      returns (r: Result<Album, Thrown>)
      requires Valid()
      modifies this
      ensures Valid()
      ensures NewAlbum(id, uid, albumName, now).Err? ==> r == Err(ValidationError)
      ensures NewAlbum(id, uid, albumName, now).Ok? && fail ==> r == Err(StoreFailure)
      ensures NewAlbum(id, uid, albumName, now).Ok? && !fail && FindOne(old(albums), AlbumIdIs(id)).Some?
        ==> r == Err(DuplicateKey)
      ensures r.Ok? <==> NewAlbum(id, uid, albumName, now).Ok? && !fail && FindOne(old(albums), AlbumIdIs(id)).None?
      ensures r.Ok? ==> (r.value == NewAlbum(id, uid, albumName, now).value
        && albums == old(albums) + [r.value] && log == old(log) + [AlbumInserted(id)])
      ensures r.Err? ==> albums == old(albums) && log == old(log)
      ensures media == old(media) && users == old(users)
    {
      var doc := NewAlbum(id, uid, albumName, now);
      if doc.Err? {
        return Err(ValidationError);
      }
      if fail {
        return Err(StoreFailure);
      }
      if FindOne(albums, AlbumIdIs(id)).Some? {
        return Err(DuplicateKey);
      }
      AlbumsAppend(albums, doc.value);
      albums := albums + [doc.value];
      log := log + [AlbumInserted(id)];
      return Ok(doc.value);
    }

    /** `Album.findOneAndUpdate({_id, userId}, {albumName}, {new: true})`.
        The `trim` setter runs on the update and `timestamps` sets
        `updatedAt`; update validators do not run, so the invariant relies
        on the name being non-blank, which every caller has checked. */
    method FindOneAndRenameAlbum(id: ObjectId, uid: string, albumName: string, now: nat, fail: bool)
      returns (r: Result<Option<Album>, Thrown>)
      requires Valid()
      requires !IsBlank(albumName)
      modifies this
      ensures Valid()
      ensures fail ==> r == Err(StoreFailure) && albums == old(albums) && log == old(log)
      ensures !fail && FirstWhere(old(albums), AlbumIs(id, uid)).None? ==>
        r == Ok(None) && albums == old(albums) && log == old(log)
      ensures !fail && FirstWhere(old(albums), AlbumIs(id, uid)).Some? ==>
        var i := FirstWhere(old(albums), AlbumIs(id, uid)).value;
        var renamed := old(albums)[i].(albumName := Trim(albumName), updatedAt := now);
        r == Ok(Some(renamed)) && albums == old(albums)[i := renamed] && log == old(log) + [AlbumUpdated(id)]
      ensures media == old(media) && users == old(users)
    {
      if fail {
        return Err(StoreFailure);
      }
      var found := FirstWhere(albums, AlbumIs(id, uid));
      if found.None? {
        return Ok(None);
      }
      var i := found.value;
      TrimIsTrimmed(albumName);
      var renamed := albums[i].(albumName := Trim(albumName), updatedAt := now);
      AlbumsUpdate(albums, i, renamed);
      albums := albums[i := renamed];
      log := log + [AlbumUpdated(id)];
      return Ok(Some(renamed));
    }

    /** `Album.deleteOne({_id, userId})`. */
    method DeleteOneAlbum(id: ObjectId, uid: string, fail: bool) returns (r: Result<(), Thrown>)
      requires Valid()
      modifies this
      ensures Valid()
      ensures fail ==> r == Err(StoreFailure) && albums == old(albums) && log == old(log)
      ensures !fail ==> (r == Ok(()) && albums == Filter(old(albums), AlbumIsNot(id, uid))
        && log == old(log) + [AlbumRemoved(id, uid)])
      ensures media == old(media) && users == old(users)
    {
      if fail {
        return Err(StoreFailure);
      }
      RemoveAlbums(id, uid);
      return Ok(());
    }

    /** `Album.findOneAndDelete({_id, userId})`: removes the matching album
        and returns it, or returns nothing when none matches. */
    method FindOneAndDeleteAlbum(id: ObjectId, uid: string, fail: bool) returns (r: Result<Option<Album>, Thrown>)
      requires Valid()
      modifies this
      ensures Valid()
      ensures fail ==> r == Err(StoreFailure) && albums == old(albums) && log == old(log)
      ensures !fail ==> r == Ok(FindOne(old(albums), AlbumIs(id, uid)))
      ensures !fail && r.value.None? ==> albums == old(albums) && log == old(log)
      ensures !fail && r.value.Some? ==> (albums == Filter(old(albums), AlbumIsNot(id, uid))
        && log == old(log) + [AlbumRemoved(id, uid)])
      ensures media == old(media) && users == old(users)
    {
      if fail {
        return Err(StoreFailure);
      }
      var found := FindOne(albums, AlbumIs(id, uid));
      if found.Some? {
        RemoveAlbums(id, uid);
      }
      return Ok(found);
    }

    /** Removes the albums matching `{_id, userId}` (there is at most one). */
    method RemoveAlbums(id: ObjectId, uid: string)
      requires Valid()
      modifies this
      ensures Valid()
      ensures albums == Filter(old(albums), AlbumIsNot(id, uid)) && log == old(log) + [AlbumRemoved(id, uid)]
      ensures media == old(media) && users == old(users)
    {
      AlbumsFilter(albums, AlbumIsNot(id, uid));
      albums := Filter(albums, AlbumIsNot(id, uid));
      log := log + [AlbumRemoved(id, uid)];
    }

    /** `Media.find({albumId, userId})`. */
    method FindMedia(albumId: ObjectId, uid: string, fail: bool) returns (r: Result<seq<Media>, Thrown>)
      ensures fail ==> r == Err(StoreFailure)
      ensures !fail ==> r == Ok(Filter(media, MediaOf(albumId, uid)))
    {
      if fail {
        return Err(StoreFailure);
      }
      return Ok(Filter(media, MediaOf(albumId, uid)));
    }

    /** `Media.findOne({_id, userId})`. */
    method FindOneMedia(id: ObjectId, uid: string, fail: bool) returns (r: Result<Option<Media>, Thrown>)
      ensures fail ==> r == Err(StoreFailure)
      ensures !fail ==> r == Ok(FindOne(media, MediaIs(id, uid)))
    {
      if fail {
        return Err(StoreFailure);
      }
      return Ok(FindOne(media, MediaIs(id, uid)));
    }

    /** `Media.create({albumId, userId, mediaType, mediaUrl})`. */
    method CreateMedia(id: ObjectId, albumId: string, uid: string, mediaType: string, mediaUrl: string,
                       now: nat, fail: bool)
      returns (r: Result<Media, Thrown>)
      requires Valid()
      modifies this
      ensures Valid()
      ensures NewMedia(id, albumId, uid, mediaType, mediaUrl, now).Err? ==> r == Err(ValidationError)
      ensures NewMedia(id, albumId, uid, mediaType, mediaUrl, now).Ok? && fail ==> r == Err(StoreFailure)
      ensures NewMedia(id, albumId, uid, mediaType, mediaUrl, now).Ok? && !fail && FindOne(old(media), MediaIdIs(id)).Some?
        ==> r == Err(DuplicateKey)
      ensures r.Ok? <==> (NewMedia(id, albumId, uid, mediaType, mediaUrl, now).Ok? && !fail
        && FindOne(old(media), MediaIdIs(id)).None?)
      ensures r.Ok? ==> (r.value == NewMedia(id, albumId, uid, mediaType, mediaUrl, now).value
        && media == old(media) + [r.value] && log == old(log) + [MediaInserted(id)])
      ensures r.Err? ==> media == old(media) && log == old(log)
      ensures albums == old(albums) && users == old(users)
    {
      var doc := NewMedia(id, albumId, uid, mediaType, mediaUrl, now);
      if doc.Err? {
        return Err(ValidationError);
      }
      if fail {
        return Err(StoreFailure);
      }
      if FindOne(media, MediaIdIs(id)).Some? {
        return Err(DuplicateKey);
      }
      MediaAppend(media, doc.value);
      media := media + [doc.value];
      log := log + [MediaInserted(id)];
      return Ok(doc.value);
    }

    /** `Media.deleteMany({albumId, userId})`. */
    method DeleteManyMedia(albumId: ObjectId, uid: string, fail: bool) returns (r: Result<(), Thrown>)
      requires Valid()
      modifies this
      ensures Valid()
      ensures fail ==> r == Err(StoreFailure) && media == old(media) && log == old(log)
      ensures !fail ==> (r == Ok(()) && media == Filter(old(media), MediaNotOf(albumId, uid))
        && log == old(log) + [AlbumMediaRemoved(albumId, uid)])
      ensures albums == old(albums) && users == old(users)
    {
      if fail {
        return Err(StoreFailure);
      }
      MediaFilter(media, MediaNotOf(albumId, uid));
      media := Filter(media, MediaNotOf(albumId, uid));
      log := log + [AlbumMediaRemoved(albumId, uid)];
      return Ok(());
    }

    /** `media.deleteOne()` on a loaded document: deletes by `_id`. */
    method DeleteOneMedia(id: ObjectId, fail: bool) returns (r: Result<(), Thrown>)
      requires Valid()
      modifies this
      ensures Valid()
      ensures fail ==> r == Err(StoreFailure) && media == old(media) && log == old(log)
      ensures !fail ==> (r == Ok(()) && media == Filter(old(media), MediaIdIsNot(id))
        && log == old(log) + [MediaRemoved(id)])
      ensures albums == old(albums) && users == old(users)
    {
      if fail {
        return Err(StoreFailure);
      }
      MediaFilter(media, MediaIdIsNot(id));
      media := Filter(media, MediaIdIsNot(id));
      log := log + [MediaRemoved(id)];
      return Ok(());
    }

    /** Storing an uploaded file in the object store under `key`; the
        step is abstract and either stores it or fails. */
    method PutObject(key: string, fail: bool) returns (r: Result<(), Thrown>)
      modifies this
      ensures fail ==> r == Err(StorageFailure) && log == old(log)
      ensures !fail ==> r == Ok(()) && log == old(log) + [ObjectStored(key)]
      ensures albums == old(albums) && media == old(media) && users == old(users)
    {
      if fail {
        return Err(StorageFailure);
      }
      log := log + [ObjectStored(key)];
      return Ok(());
    }

    /** Deleting objects from the object store by their URLs. The step is
        abstract: it either deletes them or fails as a whole. */
    method DeleteObjects(urls: seq<string>, fail: bool) returns (r: Result<(), Thrown>)
      modifies this
      ensures fail ==> r == Err(StorageFailure) && log == old(log)
      ensures !fail ==> r == Ok(()) && log == old(log) + [ObjectsDeleted(urls)]
      ensures albums == old(albums) && media == old(media) && users == old(users)
    {
      if fail {
        return Err(StorageFailure);
      }
      log := log + [ObjectsDeleted(urls)];
      return Ok(());
    }

    /** `User.findOne({userId})`. */
    method FindOneUser(uid: string, fail: bool) returns (r: Result<Option<User>, Thrown>)
      ensures fail ==> r == Err(StoreFailure)
      ensures !fail ==> r == Ok(FindOne(users, UserIdIs(uid)))
    {
      if fail {
        return Err(StoreFailure);
      }
      return Ok(FindOne(users, UserIdIs(uid)));
    }

    /** `new User({userId, email, displayname}).save()`: validation first,
        then the unique indexes on `_id`, `userId` and `email`. */
    method SaveUser(id: ObjectId, uid: string, email: Option<string>, displayname: Option<string>,
                    now: nat, fail: bool)
      returns (r: Result<User, Thrown>)
      requires Valid()
      modifies this
      ensures Valid()
      ensures NewUser(id, uid, email, displayname, now).Err? ==> r == Err(ValidationError)
      ensures r.Ok? <==> (NewUser(id, uid, email, displayname, now).Ok? && !fail
        && FindOne(old(users), UserKeyIs(id)).None? && FindOne(old(users), UserIdIs(uid)).None?
        && FindOne(old(users), UserEmailIs(email.value)).None?)
      ensures r.Ok? ==> (r.value == NewUser(id, uid, email, displayname, now).value
        && users == old(users) + [r.value] && log == old(log) + [UserInserted(uid)])
      ensures r.Err? ==> users == old(users) && log == old(log)
      ensures albums == old(albums) && media == old(media)
    {
      var doc := NewUser(id, uid, email, displayname, now);
      if doc.Err? {
        return Err(ValidationError);
      }
      if fail {
        return Err(StoreFailure);
      }
      if FindOne(users, UserKeyIs(id)).Some? || FindOne(users, UserIdIs(uid)).Some?
        || FindOne(users, UserEmailIs(email.value)).Some? {
        return Err(DuplicateKey);
      }
      UsersAppend(users, doc.value);
      users := users + [doc.value];
      log := log + [UserInserted(uid)];
      return Ok(doc.value);
    }
  }
}
