/** The client's album list: the `albums`, `loading` and `error` state
    cells of the albums hook and how loading, creating, renaming and
    deleting update them. The API's answers are inputs: a request either
    yields its value or fails with an error message. */
module UseAlbums {
  import opened Wrappers
  import opened Lists
  import opened Models

  /** `a => a.albumId === id`. */
  function IdIs(id: string): Album -> bool {
    (a: Album) => a.AlbumId() == id
  }

  /** `a => a.albumId !== id`. */
  function IdIsNot(id: string): Album -> bool {
    (a: Album) => a.AlbumId() != id
  }

  /** Removing after a rename is removing: the renamed albums keep their
      id, so the same ones go. */
  lemma {:induction false} RemoveAfterRename(albums: seq<Album>, id: string, updated: Album)
    requires updated.AlbumId() == id
    ensures Filter(ReplaceWhere(albums, IdIs(id), updated), IdIsNot(id)) == Filter(albums, IdIsNot(id))
  {
    if albums != [] {
      RemoveAfterRename(albums[1..], id, updated);
      assert ReplaceWhere(albums, IdIs(id), updated)[1..] == ReplaceWhere(albums[1..], IdIs(id), updated);
    }
  }

  /** Removing a just-created album's id undoes the creation, when no
      listed album already had that id. */
  lemma RemoveAfterAdd(albums: seq<Album>, created: Album)
    requires forall i | 0 <= i < |albums| :: albums[i].AlbumId() != created.AlbumId()
    ensures Filter([created] + albums, IdIsNot(created.AlbumId())) == albums
  {
    assert ([created] + albums)[1..] == albums;
    FilterKeepsAll(albums, IdIsNot(created.AlbumId()));
  }

  /** Removing drops exactly the albums with that id, keeping the rest in
      order, and removing again changes nothing. */
  lemma RemoveExactly(albums: seq<Album>, id: string, a: Album)
    ensures a in Filter(albums, IdIsNot(id)) <==> a in albums && a.AlbumId() != id
    ensures Filter(Filter(albums, IdIsNot(id)), IdIsNot(id)) == Filter(albums, IdIsNot(id))
    ensures multiset(Filter(albums, IdIsNot(id)))[a] == if a.AlbumId() != id then multiset(albums)[a] else 0
  {
    FilterMember(albums, IdIsNot(id), a);
    FilterIdempotent(albums, IdIsNot(id));
    FilterMultiset(albums, IdIsNot(id), a);
  }

  /** The hook's state. */
  class AlbumsHook {
    var albums: seq<Album>
    var loading: bool
    var error: Option<string>

    /** The initial state: empty, loading, no error. */
    constructor ()
      ensures albums == [] && loading && error == None
    {
      albums, loading, error := [], true, None;
    }

    /** `load`: clear the error, fetch, and end with `loading` false. */
    method Load(reply: Result<seq<Album>, string>)
      modifies this
      ensures !loading
      ensures reply.Ok? ==> albums == reply.value && error == None
      ensures reply.Err? ==> albums == old(albums) && error == Some(reply.error)
    {
      loading := true;
      error := None;
      match reply {
        case Ok(data) => albums := data;
        case Err(e) => error := Some(e);
      }
      loading := false;
    }

    /** `add(name)`; the created album is not handed back. */
    method Add(reply: Result<Album, string>)
      modifies this
      ensures reply.Ok? ==> albums == [reply.value] + old(albums) && error == old(error)
      ensures reply.Err? ==> albums == old(albums) && error == Some(reply.error)
      ensures loading == old(loading)
    {
      match reply {
        case Ok(created) => albums := [created] + albums;
        case Err(e) => error := Some(e);
      }
    }

    /** `rename(id, name)`: every album with that id becomes the server's
        answer; the length and every other album stay. */
    method Rename(id: string, reply: Result<Album, string>)
      modifies this
      ensures reply.Ok? ==> albums == ReplaceWhere(old(albums), IdIs(id), reply.value) && error == old(error)
      ensures reply.Ok? ==> |albums| == |old(albums)|
      ensures reply.Ok? ==> forall i | 0 <= i < |albums| ::
        albums[i] == if old(albums)[i].AlbumId() == id then reply.value else old(albums)[i]
      ensures reply.Err? ==> albums == old(albums) && error == Some(reply.error)
      ensures loading == old(loading)
    {
      match reply {
        case Ok(updated) => albums := ReplaceWhere(albums, IdIs(id), updated);
        case Err(e) => error := Some(e);
      }
    }

    /** `remove(id)`. */
    method Remove(id: string, reply: Result<(), string>)
      modifies this
      ensures reply.Ok? ==> albums == Filter(old(albums), IdIsNot(id)) && error == old(error)
      ensures reply.Ok? ==> forall i | 0 <= i < |albums| :: albums[i].AlbumId() != id
      ensures reply.Err? ==> albums == old(albums) && error == Some(reply.error)
      ensures loading == old(loading)
    {
      match reply {
        case Ok(_) => albums := Filter(albums, IdIsNot(id));
        case Err(e) => error := Some(e);
      }
    }
  }
}
