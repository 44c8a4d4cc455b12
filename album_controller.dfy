/** The album controller. Its list, create and rename handlers are the same
    code as the album routes' and are modelled there; its delete differs: it
    removes the album record alone and leaves the album's media in place. */
module AlbumController {
  import opened Wrappers
  import opened Lists
  import opened Models
  import opened Http
  import opened Store

  /** `deleteAlbum`: a single `findOneAndDelete` on `{_id, userId}`. */
  method DeleteAlbum(b: Backend, uid: string, albumId: string, faults: set<Call>) returns (out: Outcome)
    requires b.Valid()
    modifies b
    ensures b.Valid()
    ensures CastObjectId(albumId).None? || AlbumFindOneAndDelete in faults ==>
      out == Respond(500, ErrorBody("Failed to delete album")) && b.State() == old(b.State())
    ensures (CastObjectId(albumId).Some? && AlbumFindOneAndDelete !in faults
             && FindOne(old(b.albums), AlbumIs(CastObjectId(albumId).value, uid)).None?) ==>
      out == Respond(404, ErrorBody("Album not found")) && b.State() == old(b.State())
    ensures (CastObjectId(albumId).Some? && AlbumFindOneAndDelete !in faults
             && FindOne(old(b.albums), AlbumIs(CastObjectId(albumId).value, uid)).Some?) ==>
      out == Respond(200, MessageBody("Album deleted"))
      && b.albums == Filter(old(b.albums), AlbumIsNot(CastObjectId(albumId).value, uid))
      && b.log == old(b.log) + [AlbumRemoved(CastObjectId(albumId).value, uid)]
    ensures b.media == old(b.media) && b.users == old(b.users)
  {
    var id := CastObjectId(albumId);
    if id.None? {
      return Respond(500, ErrorBody("Failed to delete album"));
    }
    var album := b.FindOneAndDeleteAlbum(id.value, uid, AlbumFindOneAndDelete in faults);
    if album.Err? {
      return Respond(500, ErrorBody("Failed to delete album"));
    }
    if album.value.None? {
      return Respond(404, ErrorBody("Album not found"));
    }
    return Respond(200, MessageBody("Album deleted"));
  }
}
