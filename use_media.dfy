/** The client's view of one album's media: the `items`, `loading` and
    `error` state cells of the media hook. Loading stores a failure in
    `error`; uploading and deleting hand a failure back to the caller and
    leave `error` alone. The API's answers are inputs. */
module UseMedia {
  import opened Wrappers
  import opened Lists
  import opened Models
  import opened Http

  const AlbumIdRequired: string := "albumId is required"

  /** `m => m.mediaId !== mediaId`. */
  function MediaIdIsNot(mediaId: string): Media -> bool {
    (m: Media) => m.MediaId() != mediaId
  }

  /** Removing drops exactly the items with that id and keeps the rest in
      their order. */
  lemma RemoveExactly(items: seq<Media>, mediaId: string, m: Media)
    ensures m in Filter(items, MediaIdIsNot(mediaId)) <==> m in items && m.MediaId() != mediaId
    ensures multiset(Filter(items, MediaIdIsNot(mediaId)))[m] == if m.MediaId() != mediaId then multiset(items)[m] else 0
  {
    FilterMember(items, MediaIdIsNot(mediaId), m);
    FilterMultiset(items, MediaIdIsNot(mediaId), m);
  }

  /** Removing an uploaded record's id right after the upload restores the
      list, when no item already had that id. */
  lemma RemoveAfterUpload(items: seq<Media>, created: Media)
    requires forall i | 0 <= i < |items| :: items[i].MediaId() != created.MediaId()
    ensures Filter([created] + items, MediaIdIsNot(created.MediaId())) == items
  {
    assert ([created] + items)[1..] == items;
    FilterKeepsAll(items, MediaIdIsNot(created.MediaId()));
  }

  /** The hook for the album `albumId` (absent or empty when none is
      chosen). */
  class MediaHook {
    const albumId: Option<string>
    var items: seq<Media>
    var loading: bool
    var error: Option<string>

    constructor (albumId: Option<string>)
      ensures this.albumId == albumId
      ensures items == [] && !loading && error == None
    {
      this.albumId := albumId;
      items, loading, error := [], false, None;
    }

    /** `load`: nothing at all without an album; otherwise clear the error,
        fetch, and end with `loading` false. */
    method Load(reply: Result<seq<Media>, string>)
      modifies this
      ensures Falsy(albumId) ==> items == old(items) && loading == old(loading) && error == old(error)
      ensures !Falsy(albumId) ==> !loading
      ensures !Falsy(albumId) && reply.Ok? ==> items == reply.value && error == None
      ensures !Falsy(albumId) && reply.Err? ==> items == old(items) && error == Some(reply.error)
    {
      if Falsy(albumId) {
        return;
      }
      loading := true;
      error := None;
      match reply {
        case Ok(data) => items := data;
        case Err(e) => error := Some(e);
      }
      loading := false;
    }

    /** `upload(file)`: throws before touching any state without an album;
        otherwise prepends and returns the new record, or rethrows. */
    method Upload(reply: Result<Media, string>) returns (r: Result<Media, string>)
      modifies this
      ensures Falsy(albumId) ==> r == Err(AlbumIdRequired)
      ensures Falsy(albumId) ==> items == old(items) && loading == old(loading)
      ensures !Falsy(albumId) ==> r == reply && !loading
      ensures !Falsy(albumId) && reply.Ok? ==> items == [reply.value] + old(items)
      ensures !Falsy(albumId) && reply.Err? ==> items == old(items)
      ensures error == old(error)
    {
      if Falsy(albumId) {
        return Err(AlbumIdRequired);
      }
      loading := true;
      match reply {
        case Ok(created) => items := [created] + items;
        case Err(_) =>
      }
      loading := false;
      r := reply;
    }

    /** `remove(mediaId)`: filters on success, rethrows on failure, and ends
        with `loading` false either way. */
    method Remove(mediaId: string, reply: Result<(), string>) returns (r: Result<(), string>)
      modifies this
      ensures r == reply && !loading
      ensures reply.Ok? ==> items == Filter(old(items), MediaIdIsNot(mediaId))
      ensures reply.Ok? ==> forall i | 0 <= i < |items| :: items[i].MediaId() != mediaId
      ensures reply.Err? ==> items == old(items)
      ensures error == old(error)
    {
      loading := true;
      if reply.Ok? {
        items := Filter(items, MediaIdIsNot(mediaId));
      }
      loading := false;
      r := reply;
    }
  }
}
