# Photo albums: a verified model of the backend handlers and client state

The system is a photo and video album application in two parts:

- **Backend.** An Express server keeps three document collections (albums, media items, users) and stores files in S3.
  - Every route sits behind an identity-token middleware.
  - Uploads pass a multipart stage and a content-sniffing check.
  - Album deletion is meant to cascade to the album's media: the object-store step, then the media records, then the album.
- **Frontend.** A React client validates picked files and runs two sign-in / registration forms with password rules.
  - Hooks hold the album and media lists.
  - A drag-and-drop hook filters dropped files.
  - A theme context stores the dark-mode choice.

This project models that core in Dafny and proves what the code promises of it.

## Modelling choices

- **Backend state.** The backend is one `Store.Backend` object. It keeps:
  - the three collections as sequences in insertion order;
  - a log of completed writes and object-store calls, in the order they were issued.
- **Store calls.** Each store call is a method on `Backend`:
  - `find` and `findOne` answer from the current state;
  - writes change only their own collection and append a log entry.
- **Handlers.** Each route handler is a method that calls those store methods in the order the source does.
  - Its `ensures` ties the outcome and the new state to a specification function of the old state.
  - Lemmas prove the rules the handler promises: scoping to the owner, cascades, what fails writes nothing, and idempotence.
- **Failures.** A store call can throw a database error. Each handler takes a set `faults` naming the call sites that throw in this request, so every error path is modelled.
- **Outside inputs.** These are parameters, not modelled behaviour:
  - the identity provider's verdict;
  - the SHA-256 digest of the uid;
  - the clock (`toISOString()`, `Date.now()`);
  - a fresh document id;
  - the sniffed file type;
  - the object store's `location`;
  - the API answers the client hooks receive.
- **Identifiers.** A document identifier is twelve bytes. A route parameter is cast to one only when it is 24 hexadecimal digits; otherwise the store's cast error is raised.
- **String built-ins.** `trim`, `split`, `indexOf`, `startsWith`, `path.extname`, `toHexString` and `length` are written out as functions with their own contracts:
  - `trim` uses ECMAScript white space;
  - `length` counts UTF-16 code units.
- **Client state.** Each React state cell is a field of a class, and each handler is a method on it.
  - A `finally` reset is the last assignment of the method.
  - State that React would render in between (`loading` true) is an intermediate assignment.

## Model

| member | source | states |
|---|---|---|
| Store.Backend.constructor | backend/models/Album.js:3-22 | the collections start empty and satisfy the schema and unique-index invariant |
| Store.Backend.FindAlbums | backend/routes/albums.js:18-19 | `Album.find({userId})` yields exactly the caller's albums in store order, or the store error |
| Store.Backend.FindOneAlbum | backend/routes/albums.js:85 | `findOne({_id, userId})` yields the first album with that id and owner, or none |
| Store.Backend.CreateAlbum | backend/routes/albums.js:38-41 | validation first; on success exactly one album with the trimmed name and the caller's uid is appended and logged; on any failure nothing changes |
| Store.Backend.FindOneAndRenameAlbum | backend/routes/albums.js:60-64 | only the first album matching `{_id, userId}` takes the new name and update time; no match or a failure changes nothing |
| Store.Backend.DeleteOneAlbum | backend/routes/albums.js:99 | `deleteOne({_id, userId})` removes exactly the matching album and logs it |
| Store.Backend.FindOneAndDeleteAlbum | backend/controllers/albumController.js:74-77 | returns the matching album and removes exactly it; with no match nothing changes |
| Store.Backend.RemoveAlbums | backend/routes/albums.js:99 | the removal step: albums lose exactly the `{_id, userId}` match, one log entry, nothing else |
| Store.Backend.FindMedia | backend/services/mediaService.js:15 | `Media.find({userId, albumId})` yields exactly the caller's media of that album |
| Store.Backend.FindOneMedia | backend/services/mediaService.js:22 | `findOne({_id, userId})` on media: the first item with that id and owner, or none |
| Store.Backend.CreateMedia | backend/services/mediaService.js:8 | `Media.create`: schema validation, then exactly one insert with the given fields; a failure changes nothing |
| Store.Backend.DeleteManyMedia | backend/routes/albums.js:96 | `deleteMany({albumId, userId})` removes exactly the caller's media of that album |
| Store.Backend.DeleteOneMedia | backend/services/mediaService.js:30 | `media.deleteOne()` removes exactly the records with that `_id` |
| Store.Backend.PutObject | backend/utils/uploadMediaToS3.js:22-31 | the object store write under the built key: logged on success, nothing on failure, collections untouched |
| Store.Backend.DeleteObjects | backend/routes/albums.js:93-95 | the object store delete of a URL list: logged on success, nothing on failure, collections untouched |
| Store.Backend.FindOneUser | backend/routes/users.js:10 | `User.findOne({userId})`: the first user with that uid, or none |
| Store.Backend.SaveUser | backend/routes/users.js:13-19 | `save()`: validation, then the unique `userId`/`email` indexes; exactly one user appended on success, nothing on failure |
| Store.FindOne | backend/routes/albums.js:85 | a found document is in the collection and matches the filter; none found means no document matches |
| Store.MediaUrls | backend/routes/albums.js:92 | `mediaItems.map(m => m.mediaUrl)`: same length, position by position the record's URL |
| Store.AlbumMediaRemovedExactly | backend/routes/albums.js:96 | a media record survives the cascade exactly when it belongs to another album or another user |
| Store.AlbumRemovedExactly | backend/routes/albums.js:99 | an album survives `deleteOne({_id, userId})` exactly when it is not that id with that owner |
| Store.MediaRemovedExactly | backend/services/mediaService.js:30 | a media record survives a delete by `_id` exactly when its id differs |
| Store.OwnedListing | backend/routes/albums.js:18-20 | a listing that is a permutation of the owner filter holds only the caller's albums and all of them |
| Store.AlbumMediaListing | backend/services/mediaService.js:15 | a listing that is a permutation of the `{albumId, userId}` filter holds exactly the caller's media of that album |
| Store.AlbumsAppend | backend/models/Album.js:3-22 | appending a valid album with a fresh `_id` keeps the album collection invariant |
| Store.AlbumsUpdate | backend/models/Album.js:10-14 | replacing an album by a valid one with the same `_id` keeps the invariant |
| Store.AlbumsFilter | backend/models/Album.js:3-22 | deleting albums keeps the invariant |
| Store.MediaAppend | backend/models/Media.js:4-36 | appending a valid media record with a fresh `_id` keeps the media invariant |
| Store.MediaFilter | backend/models/Media.js:4-36 | deleting media keeps the invariant |
| Store.UsersAppend | backend/models/User.js:4-5 | appending a valid user whose `_id`, `userId` and `email` are all new keeps the three keys unique |
| Models.ToHexString | backend/models/Album.js:25-27 | `toHexString()`: exactly 24 lowercase hexadecimal digits |
| Models.CastObjectId | backend/routes/albums.js:85 | a request id casts exactly when it is 24 hexadecimal digits |
| Models.Album.AlbumId | backend/models/Album.js:25-27 | the `albumId` virtual is 24 characters and casts back to the album's `_id` |
| Models.Media.MediaId | backend/models/Media.js:38-40 | the `mediaId` virtual is 24 characters and casts back to the media item's `_id` |
| Models.CastOfHexString | backend/models/Album.js:25-27 | casting an `albumId`/`mediaId` virtual gives back the document's `_id` |
| Models.HexStringOfCast | backend/models/Media.js:38-40 | a lowercase 24-digit id string is the virtual of the id it casts to |
| Models.ToHexStringInjective | backend/models/Media.js:38-40 | two documents with the same virtual id have the same `_id` |
| Models.NewAlbum | backend/models/Album.js:5-14 | `Album.create`: valid exactly when `userId` is non-empty and the name is not blank; it then stores the trimmed name with both timestamps equal to now |
| Models.ParseMediaType | backend/models/Media.js:17-21 | the enum accepts exactly `photo` and `video`, and parses back to the same text |
| Models.ParseMediaTypeName | backend/models/Media.js:17-21 | the stored text of each media type passes the enum |
| Models.MediaTypeOf | backend/routes/media.js:31 | `video` exactly when the MIME type starts with `video/`, else `photo`; always passes the enum |
| Models.NewMedia | backend/models/Media.js:6-32 | valid exactly when the album id casts, `userId`, `mediaUrl` are non-empty and the type is in the enum; `isFavorite` is false and both timestamps are now |
| Models.NewUser | backend/models/User.js:3-8 | valid exactly when `userId` and `email` are given; `displayname` optional, `createdAt` is now |
| Errors.DefaultStatus | backend/services/mediaService.js:24-26 | an error carrying a 4xx/5xx `status` keeps it; any other error is answered 500 |
| Http.CheckName | backend/routes/albums.js:35 | `!albumName?.trim()`: missing exactly for absent, null or blank; a string name is given trimmed and non-blank |
| AlbumsRoute.ListAlbums | backend/routes/albums.js:16-26 | 500 on a store failure; otherwise 200 with a permutation of the caller's albums sorted by `updatedAt` newest first (the controller's `getAlbums`, albumController.js:7-17, is the same code) |
| AlbumsRoute.CreateAlbum | backend/routes/albums.js:32-47 | a blank or missing name gives 400 and no write; otherwise the created album with the trimmed name and the caller's uid, 201; a store failure gives 500 and no write (as `createAlbum`, albumController.js:23-38) |
| AlbumsRoute.RenameAlbum | backend/routes/albums.js:53-73 | blank name 400; a match on `{_id, userId}` is renamed to the trimmed name and returned, every other album unchanged; no match 404 with nothing changed; failure 500 (as `updateAlbum`, albumController.js:44-65) |
| AlbumsRoute.DeleteAlbum | backend/routes/albums.js:79-106 | outcome and new state equal `DeleteAlbumSpec`: 404 unless owned; then the object-store step only when there are URLs, then `deleteMany`, then `deleteOne`; any failure answers 500 with the earlier writes kept |
| AlbumsRoute.DeleteAlbumNotOwned | backend/routes/albums.js:85-88 | an album that is absent or owned by someone else gives 404 and leaves the backend unchanged |
| AlbumsRoute.StorageFailureDeletesNothing | backend/routes/albums.js:93-96 | when the object-store step fails, no record and no object is deleted and the answer is 404 or 500 |
| AlbumsRoute.DeleteAlbumScoped | backend/routes/albums.js:91-99 | whatever the outcome, the users, every other user's albums and media, and every other album's media survive |
| AlbumsRoute.DeleteAlbumWrites | backend/routes/albums.js:91-99 | the only writes are removing that album and removing its media; users never change |
| AlbumsRoute.DeleteAlbumSucceeds | backend/routes/albums.js:85-101 | a 200 means the album existed and was owned, its media and then the album were removed, and the log shows the storage step before both record deletions |
| AlbumController.DeleteAlbum | backend/controllers/albumController.js:71-87 | 404 with no change when not owned; otherwise 200 `Album deleted`, exactly that album removed and the media collection untouched (no cascade); failure 500 |
| MediaService.CreateMedia | backend/services/mediaService.js:7-9 | inserts exactly one record holding the given album id, user, type and URL; validation or store failure throws and writes nothing |
| MediaService.GetMediaByAlbum | backend/services/mediaService.js:14-16 | a permutation of exactly the user's media in that album, newest `createdAt` first; a bad id or store failure throws |
| MediaService.DeleteMediaById | backend/services/mediaService.js:21-31 | a record the user does not own throws an error with status 404 and changes nothing; the storage delete runs first and its failure keeps the record; success removes exactly that record |
| MediaService.DeleteRemovesOne | backend/services/mediaService.js:30 | with unique ids, the delete keeps every record except the one deleted |
| MediaController.UploadMedia | backend/controllers/mediaController.js:11-43 | the upload stage then the handler; outcome and new state are exactly `UploadSpec` |
| MediaController.UploadNeedsFileFirst | backend/controllers/mediaController.js:20-22 | with no file the answer is 400 whatever the album id, and nothing is written |
| MediaController.UploadWithoutAlbumId | backend/controllers/mediaController.js:23-25 | a stored file with a missing album id gives 400 with no record; the stored object remains |
| MediaController.UploadCreates | backend/controllers/mediaController.js:28-38 | a 201 creates one record: `video` iff the MIME type starts with `video/`, URL the object's location, the body's album id, the caller's uid, not a favourite |
| MediaController.MediaTypeOfParsed | backend/controllers/mediaController.js:29 | the derived type passes the enum as `Video` exactly for `video/` MIME types |
| MediaController.UploadIgnoresAlbums | backend/controllers/mediaController.js:31-36 | the album id is never looked up: the answer is the same whatever albums exist |
| MediaController.GetMediaByAlbum | backend/controllers/mediaController.js:48-61 | 200 with a permutation of the caller's media in that album, newest first; errors go to `next` |
| MediaController.DeleteMedia | backend/controllers/mediaController.js:66-87 | not owned 404 with no change; the storage delete runs before `deleteOne` and its failure goes to `next` with the record kept; success removes exactly that record |
| MediaRoute.UploadMedia | backend/routes/media.js:19-40 | file checked before album id, each missing one 400 with no insert; then `createMedia`; outcome and state equal the controller's |
| MediaRoute.GetMediaByAlbum | backend/routes/media.js:45-52 | the service's listing answered 200; its errors go to `next` |
| MediaRoute.DeleteMedia | backend/routes/media.js:57-64 | `Media deleted` only after the service's delete completes; its errors, including the 404, go to `next` |
| UsersRoute.SyncUser | backend/routes/users.js:6-25 | the handler's outcome and new state are exactly `SyncSpec` |
| UsersRoute.SyncOutcomes | backend/routes/users.js:10-23 | answers only 200, 201 or 500; 200 when the uid exists, writing nothing; only a 201 writes, one user with the uid, e-mail and display name |
| UsersRoute.SyncStoreFailure | backend/routes/users.js:21-23 | a failed `findOne` or `save` answers 500 and writes nothing |
| UsersRoute.AtMostOneWithUid | backend/models/User.js:4 | a unique `userId` index leaves at most one user per uid |
| UsersRoute.SyncLeavesOneUser | backend/routes/users.js:10-20 | after a 200 or a 201 exactly one user has the caller's uid |
| UsersRoute.SyncIdempotent | backend/routes/users.js:10-11 | a second sync after a successful one answers 200 and changes nothing |
| AuthMiddleware.BearerToken | backend/middlewares/authMiddleware.js:5 | `split("Bearer ")[1]`: defined exactly when the header holds the marker; then the text after its first occurrence, up to the next |
| AuthMiddleware.BearerTokenOfHeader | backend/middlewares/authMiddleware.js:5 | `Bearer <t>` yields `t` |
| AuthMiddleware.BearerTokenAfterPrefix | backend/middlewares/authMiddleware.js:5 | the marker need not start the header |
| AuthMiddleware.AuthRequest.constructor | backend/middlewares/authMiddleware.js:4 | a request starts with no user and no `next` call |
| AuthMiddleware.AuthRequest.Verify | backend/middlewares/authMiddleware.js:4-17 | no token: 401 without asking the verifier; refused: 403 without `next`; accepted: `req.user` is the claims and `next` is called once |
| AuthMiddleware.EmptyBearerRejected | backend/middlewares/authMiddleware.js:7 | `Bearer ` with nothing after it has no token |
| ValidateUpload.DetectedName | backend/middlewares/validateUploadFile.js:53 | the sniffed MIME type, or `unknown` when none |
| ValidateUpload.UploadRequest.constructor | backend/middlewares/validateUploadFile.js:21 | a request starts with no file and no `next` call |
| ValidateUpload.UploadRequest.Validate | backend/middlewares/validateUploadFile.js:21-63 | the outcome is the decision chain's; on acceptance the verified type and extension are set and `next` is called once; a rejection does not call `next` |
| ValidateUpload.Decide | backend/middlewares/validateUploadFile.js:23-61 | accepted exactly when no upload error, a file within 50 MB, a buffer, a detected type on the allow-list; every rejection is 400 |
| ValidateUpload.DecideIgnoresClientFields | backend/middlewares/validateUploadFile.js:45 | the client's declared MIME type and file name never change the decision |
| ValidateUpload.UndetectedRejected | backend/middlewares/validateUploadFile.js:45-54 | an undetectable type is rejected, reported as `unknown` |
| ValidateUpload.SizeLimitInclusive | backend/middlewares/validateUploadFile.js:14-18 | exactly 50 MB passes, one byte more is an upload error |
| UploadS3.DropTrailingSlashes | backend/utils/uploadMediaToS3.js:11 | removes exactly the trailing `/` characters |
| UploadS3.BaseName | backend/utils/uploadMediaToS3.js:11 | the last path segment, without `/` |
| UploadS3.ExtName | backend/utils/uploadMediaToS3.js:11 | `path.extname`: empty exactly when the base name has no `.`, has its last `.` first, or is `..`; otherwise the proper suffix of the base name from its last `.` |
| UploadS3.BaseNameOfPath | backend/utils/uploadMediaToS3.js:11 | the base name of `dir/name` is `name` for any directory part |
| UploadS3.ExtNameOfPath | backend/utils/uploadMediaToS3.js:11 | `dir/stem.ext` has extension `.ext` for any directory part |
| UploadS3.ExtNameOfFileName | backend/utils/uploadMediaToS3.js:11 | `stem.ext` has extension `.ext` |
| UploadS3.DatePart | backend/utils/uploadMediaToS3.js:12 | the first ten characters of the timestamp |
| UploadS3.BuildS3Key | backend/utils/uploadMediaToS3.js:10-20 | whenever the date has no `/`, the key splits on `/` into exactly the hex digest, the date and the millisecond stamp with the extension |
| UploadS3.KeyFolder | backend/utils/uploadMediaToS3.js:16 | the folder is 64 lowercase hex digits and is the same for two keys exactly when the digests are the same |
| UploadS3.StoreUpload | backend/utils/uploadMediaToS3.js:22-31 | no file part passes through; a part over 50 MB is an upload error; otherwise the object is put under the built key and the file carries its location |
| DeleteS3.SpanWhile | backend/utils/deleteMediaFromS3.js:12 | the longest prefix satisfying a character class |
| DeleteS3.PathnameOf | backend/utils/deleteMediaFromS3.js:12 | a pathname always starts with `/` |
| DeleteS3.ParseUrl | backend/utils/deleteMediaFromS3.js:12 | `new URL(url)`, simplified: a parsed path starts with `/` |
| DeleteS3.ParseUrlOfParts | backend/utils/deleteMediaFromS3.js:12 | a URL built from scheme, authority, path and query parses back to those parts |
| DeleteS3.ParsePlainUrl | backend/utils/deleteMediaFromS3.js:7-8 | `https://<host>/<key>` parses to that host and path |
| DeleteS3.KeyOf | backend/utils/deleteMediaFromS3.js:10-16 | the pathname less its `/` exactly when the URL parses; otherwise `Invalid S3 URL: <url>` |
| DeleteS3.KeyOfPlainUrl | backend/utils/deleteMediaFromS3.js:7-8 | the documented example: a plain object URL gives its key |
| DeleteS3.ToList | backend/utils/deleteMediaFromS3.js:25 | a single URL becomes a one-element list, a list stays as is |
| DeleteS3.BuildDeleteCommands | backend/utils/deleteMediaFromS3.js:26-29 | one command per URL, in order, all on the bucket; fails exactly when some URL does not parse, with the first bad URL's message |
| DeleteS3.DeleteImages | backend/utils/deleteMediaFromS3.js:24-33 | a bad URL throws before any command is sent; otherwise all commands are sent |
| DeleteS3.OneIsListOfOne | backend/utils/deleteMediaFromS3.js:25 | a single URL behaves exactly as a list of one |
| DeleteS3.EmptyListSendsNothing | backend/utils/deleteMediaFromS3.js:25-32 | an empty list sends no command |
| DeleteS3.BadUrlSendsNothing | backend/utils/deleteMediaFromS3.js:13-14 | a list with an unparsable URL sends no command and fails |
| SignedUrl.KeyFromMediaUrl | backend/utils/getSignedUrlFromS3.js:8-10 | defined exactly when the marker occurs with a non-empty text after it up to the next marker; else the `Invalid media URL` error |
| SignedUrl.SignedUrlRequest | backend/utils/getSignedUrlFromS3.js:6-18 | signs the bucket and the extracted key, for 3600 seconds unless told otherwise; extraction errors propagate |
| SignedUrl.MarkerAtEndRefused | backend/utils/getSignedUrlFromS3.js:10 | a URL ending in the marker gives an empty key and throws |
| SignedUrl.SignedKeyOfPlainUrl | backend/utils/getSignedUrlFromS3.js:8 | `https://<host>.amazonaws.com/<k>` gives `k` |
| SignedUrl.DeleteKeyOfPlainUrl | backend/utils/deleteMediaFromS3.js:12 | the delete path reads the same `k` from that URL |
| SignedUrl.KeysAgree | backend/utils/getSignedUrlFromS3.js:8 | for plain object URLs the signing key and the delete key are the same |
| JsStrings.TrimStart | backend/models/Album.js:13 | drops exactly the leading white space |
| JsStrings.TrimEnd | backend/models/Album.js:13 | drops exactly the trailing white space |
| JsStrings.TrimIsTrimmed | backend/models/Album.js:13 | a trimmed name neither starts nor ends with white space |
| JsStrings.TrimmedIsFixed | backend/models/Album.js:13 | the schema's trim setter leaves an already trimmed name alone |
| JsStrings.TrimIdempotent | backend/routes/albums.js:39 | trimming twice is trimming once |
| JsStrings.TrimEmptyIffBlank | backend/routes/albums.js:35 | trimming gives the empty string exactly for white-space-only names |
| JsStrings.IndexOf | backend/utils/getSignedUrlFromS3.js:8 | the first position where the separator occurs, or none |
| JsStrings.Split | backend/utils/getSignedUrlFromS3.js:8 | the first piece is the text before the first separator |
| JsStrings.JoinSplit | backend/utils/getSignedUrlFromS3.js:8 | joining the pieces with the separator gives back the string |
| JsStrings.SplitPiecesFree | backend/utils/getSignedUrlFromS3.js:8 | no piece contains the separator |
| JsStrings.SplitSecond | backend/utils/getSignedUrlFromS3.js:8 | `[1]` exists exactly when the separator occurs, and is the text between the first two occurrences |
| JsStrings.SplitSecondOfJoined | backend/middlewares/authMiddleware.js:5 | `prefix + sep + rest` has second piece `rest` |
| JsStrings.LastIndexOfChar | backend/utils/uploadMediaToS3.js:11 | the last position of the character, or none exactly when absent |
| JsStrings.SplitJoinChar | backend/utils/uploadMediaToS3.js:18 | splitting a `/`-joined key on `/` gives back its parts |
| JsStrings.Utf16Length | frontend/src/components/AuthFormHandler.jsx:46 | `length` counts between one and two units per character |
| Hex.BytesToHex | backend/utils/uploadMediaToS3.js:16 | `digest('hex')`: two lowercase digits per byte |
| Hex.HexToBytesDefined | backend/utils/uploadMediaToS3.js:16 | parsing succeeds exactly on even-length digit strings |
| Hex.HexRoundTrip | backend/utils/uploadMediaToS3.js:16 | parsing the hex form gives back the bytes |
| Hex.HexRoundTripFromText | backend/models/Album.js:26 | a lowercase hex string is the hex form of what it parses to |
| Hex.HexInjective | backend/utils/uploadMediaToS3.js:16 | different digests give different folders |
| Hex.NatToDecimal | backend/utils/uploadMediaToS3.js:18 | `${Date.now()}`: decimal digits with no leading zero |
| Hex.DecimalRoundTrip | backend/utils/uploadMediaToS3.js:18 | reading the stamp back gives the number |
| Hex.DecimalInjective | backend/utils/uploadMediaToS3.js:18 | different times give different stamps |
| Sorting.InsertDesc | backend/routes/albums.js:20 | inserting into a newest-first list keeps it sorted and adds exactly the element |
| Sorting.SortDesc | backend/routes/albums.js:20 | `sort('-updatedAt')`: a sorted permutation of the input |
| Lists.Filter | frontend/src/hooks/useAlbums.js:59 | every kept element satisfies the predicate |
| Lists.FilterMember | frontend/src/hooks/useAlbums.js:59 | an element is kept exactly when present and satisfying |
| Lists.FilterAppend | frontend/src/hooks/useDropUpload.js:21-23 | filtering keeps the relative order across concatenation |
| Lists.FilterKeepsAll | frontend/src/hooks/useAlbums.js:59 | nothing to drop means nothing changes |
| Lists.FilterDropsAll | frontend/src/hooks/useDropUpload.js:25 | nothing to keep gives the empty list |
| Lists.FilterMultiset | frontend/src/hooks/useMedia.js:47 | each kept element occurs as often as before |
| Lists.FilterIdempotent | frontend/src/hooks/useAlbums.js:59 | filtering twice is filtering once |
| Lists.FilterPartition | backend/routes/albums.js:96 | the deleted and the kept records together are the collection |
| Lists.ReplaceWhere | frontend/src/hooks/useAlbums.js:46-48 | `map` replacing the matches: same length, matches replaced, the rest unchanged |
| Lists.ReplaceWhereNoMatch | frontend/src/hooks/useAlbums.js:46-48 | with no match the list is unchanged |
| Lists.FirstWhere | backend/routes/albums.js:60 | the first position satisfying the filter, or none |
| Lists.FilterDistinct | backend/models/User.js:4 | with unique keys, deleting keeps them unique |
| Lists.AppendDistinct | backend/models/User.js:4 | appending a new key keeps the keys unique |
| ValidateFile.Validate | frontend/src/utils/validateFile.js:17-36 | no file, then too large, then unlisted type, each with its reason; otherwise valid |
| ValidateFile.ValidIff | frontend/src/utils/validateFile.js:17-35 | valid exactly when present, within the size limit and of a listed type |
| ValidateFile.SizeLimitInclusive | frontend/src/utils/validateFile.js:4-20 | exactly 50 MB is accepted, one byte more is refused |
| ValidateFile.SizeBeforeType | frontend/src/utils/validateFile.js:20-33 | an oversize file of a bad type reports the size |
| ValidateFile.ListsAgree | frontend/src/utils/validateFile.js:6-15 | the client list is the server's allow-list plus `video/x-matroska`, and the limits agree |
| ValidateFile.ClientAcceptedServerAccepts | frontend/src/utils/validateFile.js:26 | a file the client accepts, other than Matroska and sniffed as declared, passes the server check |
| ValidateFile.MatroskaRefusedByServer | frontend/src/utils/validateFile.js:14 | a Matroska file the client accepts is refused by the server |
| AuthForm.PasswordErrors | frontend/src/components/AuthFormHandler.jsx:44-51 | at most four messages, in the fixed rule order |
| AuthForm.PasswordErrorsIff | frontend/src/components/AuthFormHandler.jsx:46-50 | a rule's message is listed exactly when that rule fails |
| AuthForm.PasswordErrorsEmptyIff | frontend/src/components/AuthFormHandler.jsx:44-52 | the list is empty exactly when all four rules hold |
| AuthForm.CollectPasswordErrors | frontend/src/components/AuthFormHandler.jsx:45-50 | the pushes give exactly the rule list, empty exactly for a strong password |
| AuthForm.Fields.Set | frontend/src/components/AuthFormHandler.jsx:42 | `{...prev, [name]: value}`: the named field takes the value, every other field stays |
| AuthForm.AfterEdit | frontend/src/components/AuthFormHandler.jsx:44-73 | a password edit recomputes the rules and flags a mismatch exactly when the confirmation is non-empty and differs; a confirmation edit flags exactly when it differs from the password; other edits change nothing |
| AuthForm.EditKeepsConsistent | frontend/src/components/AuthFormHandler.jsx:22-73 | the initial state is consistent and every edit keeps the errors consistent with the fields |
| AuthForm.GateMeans | frontend/src/components/AuthFormHandler.jsx:79-82 | an open gate on a consistent form means the password is empty or strong and the confirmation empty or matching |
| AuthForm.FullName | frontend/src/components/AuthFormHandler.jsx:86 | first, a space, last |
| AuthForm.FullNameSplits | frontend/src/components/AuthFormHandler.jsx:86 | names without spaces can be read back |
| AuthForm.RedirectTarget | frontend/src/components/AuthFormHandler.jsx:105 | never `/login`; any other origin is kept |
| AuthForm.OnError | frontend/src/components/AuthFormHandler.jsx:108-118 | waits for verification exactly on the verify-first error with a current user; otherwise fails with the message |
| AuthForm.GoogleLogin | frontend/src/components/AuthFormHandler.jsx:121-130 | success navigates to the redirect target; a throw fails with its message |
| AuthForm.Form.constructor | frontend/src/components/AuthFormHandler.jsx:22-36 | empty fields, no errors, not pending |
| AuthForm.Form.HandleChange | frontend/src/components/AuthFormHandler.jsx:40-74 | the field is set and the errors become `AfterEdit` of the old state; consistency is kept |
| AuthForm.Form.HandleSubmit | frontend/src/components/AuthFormHandler.jsx:76-119 | refused without any call while errors exist; otherwise register or sign in with the form's fields; unverified users wait, verified ones navigate; a registration never navigates, whatever the provider answers |
| LoginRegister.CountUnits | frontend/src/pages/LoginRegisterPage.jsx:36-39 | a class count never exceeds the password's `length` |
| LoginRegister.CountUnitsWitness | frontend/src/pages/LoginRegisterPage.jsx:36-39 | a non-zero count means a character of that class is present |
| LoginRegister.ValidatePassword | frontend/src/pages/LoginRegisterPage.jsx:35-46 | an accepted password has at least 8 UTF-16 units, since the four class counts partition it (see `AcceptedMeetsFormRules` for the form rules it meets) |
| LoginRegister.ClassesPartition | frontend/src/pages/LoginRegisterPage.jsx:36-39 | the four class counts add up to the `length` |
| LoginRegister.AcceptedMeetsFormRules | frontend/src/pages/LoginRegisterPage.jsx:35-47 | an accepted password is at least 8 long and meets the other form's length, uppercase and digit rules |
| LoginRegister.OtherWiderThanSpecial | frontend/src/pages/LoginRegisterPage.jsx:39 | "other" covers the other form's special set and also the space |
| LoginRegister.Page.constructor | frontend/src/pages/LoginRegisterPage.jsx:17-25 | sign-in mode with empty fields |
| LoginRegister.Page.SyncRegisterFlag | frontend/src/pages/LoginRegisterPage.jsx:27-29 | register mode exactly when the parameter is `true`; the form stays |
| LoginRegister.Page.HandleChange | frontend/src/pages/LoginRegisterPage.jsx:31-33 | one field takes the value; the mode stays |
| LoginRegister.Page.HandleSubmit | frontend/src/pages/LoginRegisterPage.jsx:49-67 | sign-in checks nothing; registration reports a mismatch before a weak password; no alert exactly when both pass |
| LoginRegister.Page.ToggleMode | frontend/src/pages/LoginRegisterPage.jsx:69-71 | `/login` from register mode, `/login?register=true` otherwise |
| UseAlbums.RemoveAfterRename | frontend/src/hooks/useAlbums.js:46-59 | removing after a rename removes the same albums |
| UseAlbums.RemoveAfterAdd | frontend/src/hooks/useAlbums.js:35-59 | removing a just-added album with a new id undoes the add |
| UseAlbums.RemoveExactly | frontend/src/hooks/useAlbums.js:59 | removes exactly the albums with that id, keeps the others as often as before, and is idempotent |
| UseAlbums.AlbumsHook.constructor | frontend/src/hooks/useAlbums.js:6-8 | empty, loading, no error |
| UseAlbums.AlbumsHook.Load | frontend/src/hooks/useAlbums.js:11-24 | ends not loading; success replaces the list and clears the error; failure keeps the list and sets the error |
| UseAlbums.AlbumsHook.Add | frontend/src/hooks/useAlbums.js:32-40 | success prepends the new album; failure keeps the list and sets the error; nothing is returned |
| UseAlbums.AlbumsHook.Rename | frontend/src/hooks/useAlbums.js:43-53 | every album with that id becomes the answer, length and the others unchanged; failure keeps the list and sets the error |
| UseAlbums.AlbumsHook.Remove | frontend/src/hooks/useAlbums.js:56-64 | success leaves no album with that id and is the order-preserving filter; failure keeps the list and sets the error |
| UseMedia.RemoveExactly | frontend/src/hooks/useMedia.js:47 | removes exactly the items with that id, keeping the others as often as before |
| UseMedia.RemoveAfterUpload | frontend/src/hooks/useMedia.js:35-47 | removing an uploaded record with a new id restores the list |
| UseMedia.MediaHook.constructor | frontend/src/hooks/useMedia.js:5-7 | no items, not loading, no error |
| UseMedia.MediaHook.Load | frontend/src/hooks/useMedia.js:10-23 | no album: nothing changes; otherwise ends not loading, success replaces the items, failure stores the error |
| UseMedia.MediaHook.Upload | frontend/src/hooks/useMedia.js:30-40 | no album: throws `albumId is required` before any change; otherwise prepends and returns the record, or rethrows with the items kept; ends not loading; `error` untouched |
| UseMedia.MediaHook.Remove | frontend/src/hooks/useMedia.js:43-51 | success filters out exactly that id; failure rethrows with the items kept; ends not loading; `error` untouched |
| UseDropUpload.Accepted | frontend/src/hooks/useDropUpload.js:21-30 | `onDrop` is skipped exactly when no file is an image or video; otherwise it gets the non-empty filtered list |
| UseDropUpload.AcceptedNonEmpty | frontend/src/hooks/useDropUpload.js:25 | the filter keeps nothing exactly when no file qualifies |
| UseDropUpload.AcceptedExactly | frontend/src/hooks/useDropUpload.js:21-23 | a file is passed on exactly when it was dropped and qualifies, in the original order |
| UseDropUpload.ListedTypesPass | frontend/src/hooks/useDropUpload.js:22 | every type on the client's upload list passes the drop filter |
| UseDropUpload.PrefixOnly | frontend/src/hooks/useDropUpload.js:22 | an unlisted `image/` type passes the drop filter but fails `validateFile` |
| UseDropUpload.DropZone.constructor | frontend/src/hooks/useDropUpload.js:4 | not dragging |
| UseDropUpload.DropZone.DragOver | frontend/src/hooks/useDropUpload.js:7-10 | dragging |
| UseDropUpload.DropZone.DragLeave | frontend/src/hooks/useDropUpload.js:12 | not dragging |
| UseDropUpload.DropZone.Drop | frontend/src/hooks/useDropUpload.js:14-31 | not dragging, and `onDrop` receives exactly `Accepted(files)` |
| Theme.GetItem | frontend/src/context/ThemeContext.jsx:7 | the stored value exactly when the key is present |
| Theme.InitialDarkMode | frontend/src/context/ThemeContext.jsx:5-13 | stored `dark` gives true, `light` false, anything else the system preference |
| Theme.StoredAfter | frontend/src/context/ThemeContext.jsx:23-26 | the theme key holds the choice's name and every other key stays |
| Theme.ClassesAfter | frontend/src/context/ThemeContext.jsx:22-25 | the root has `dark` exactly when dark mode is on; other classes stay |
| Theme.StoredRoundTrip | frontend/src/context/ThemeContext.jsx:7-27 | after the effect the initial choice reads back the current one, whatever the system prefers |
| Theme.EffectIdempotent | frontend/src/context/ThemeContext.jsx:21-27 | running the effect twice changes nothing more |
| Theme.ThemeProvider.constructor | frontend/src/context/ThemeContext.jsx:16 | the initial choice comes from storage and the system preference |
| Theme.ThemeProvider.ApplyTheme | frontend/src/context/ThemeContext.jsx:18-28 | the effect applies the choice to classes and storage |
| Theme.ThemeProvider.SetDarkMode | frontend/src/context/ThemeContext.jsx:16-28 | the choice changes and the effect follows |

## Left out

- **External services.** These are inputs, not modelled behaviour:
  - identity-token verification by the identity provider;
  - SHA-256 hashing (the digest is a 32-byte input);
  - the clock;
  - document id generation;
  - `fileTypeFromBuffer` content sniffing;
  - the multipart parser's upload errors;
  - the object store's location URL;
  - the presigner (`SignedUrl.SignedUrlRequest` stops at the signing request).
- **Behaviour the model keeps as the code has it:**
  - the album listing returns bare album documents (`backend/routes/albums.js:18-21`), although `frontend/src/components/albums/AlbumCard.jsx:18-49` reads a `count` and a `coverUrl` from each; neither is computed;
  - an upload does not check that the album exists or belongs to the uploader (`backend/controllers/mediaController.js:16-38`);
  - a rejected file type is answered 400 (`backend/middlewares/validateUploadFile.js:51`);
  - an object-store failure during an album delete aborts it with 500 (`backend/routes/albums.js:93-104`), so the media and album records stay.
- **URL parsing.**
  - `DeleteS3.ParseUrl` is a simplified `scheme://authority/path` parser, not the full WHATWG URL parser. There is no percent-encoding, no host normalisation and no ports given special meaning.
  - URLs outside this shape are judged by the simplified grammar.
- **Object store calls.** `Store.Backend.DeleteObjects` is an abstract step that may fail. The delete routes name a function that `deleteMediaFromS3.js` does not export, and the service requires a file that is not in the repository. The model therefore does not connect the routes to `DeleteS3.DeleteImages`. As wired, that call always throws a `TypeError`: `backend/routes/albums.js:5` binds the module object `{ deleteImagesFromS3 }` and calls it at line 94, and `backend/controllers/mediaController.js:4` destructures a name the module does not export. So in the code as written, deleting an album that has media always answers 500 and removes nothing (`AlbumsRoute.StorageFailureDeletesNothing` is that case), and the controller's media delete always fails the same way. The media branch of `AlbumsRoute.DeleteAlbumSucceeds` describes the intended wiring.
- **Concurrency.**
  - `Promise.all` sends the delete commands in parallel; the model sends them as one step.
  - Racing requests are not modelled; every request runs to completion in sequence.
- **Sorting.**
  - `Sorting.SortDesc` stands for the store's sort. The store's order among documents with equal keys is not modelled.
  - Listings are specified only as sorted permutations of the matching documents.
- **Query casting.** Only a well-formed id string is cast. Other filter values a client could send (objects, arrays) are not modelled.
- **Timestamps.** Mongoose's automatic `updatedAt` maintenance on rename is modelled only as the caller's `now`.
- **Surviving orphans.** `MediaController.UploadWithoutAlbumId`: the object stored before the album id check remains. The model states this and does not repair it.
- **Storage key comment.** `UploadS3.BuildS3Key` follows the code, which separates the date and the timestamp with `/`. The doc comment above it says `_`.
- **Raw uid in the key.** `UploadS3.KeyFolder` states the folder property: 64 hex digits that are the same exactly when the digests are. The claim that the raw uid never appears in the key rests on SHA-256 and is not proved.
- **Media type.** `Models.MediaTypeOf` reads the client-declared MIME type, as the handlers do, not the sniffed one.
- **React rendering.** Re-rendering, toasts, alerts, the password visibility toggle, the e-mail verification notice and `navigate` calls are not modelled. `LoginRegister.Page.ToggleMode` returns the target instead of navigating. `AuthForm.Form.HandleSubmit` also ignores the browser's own form validation: the inputs at `frontend/src/components/AuthFormHandler.jsx:153-216` are `required` and the e-mail input has `type="email"`, so the browser blocks a submit with an empty required field or a malformed address before `handleSubmit` runs. The model lets such a submit reach the identity provider.
- **Query string.** The `register` query parameter arrives already parsed.
- **Network clients.** The frontend API clients, the auth service, the auth context and the protected route are not part of this model. The hooks receive the API's answer as an input.
- **Other code.** The camera and recorder hooks, configuration and server bootstrapping are not part of this model.
- **Auth middleware wiring.** `AuthMiddleware.AuthRequest.Verify` is stated on its own. The routes take the verified uid as a parameter rather than running the middleware first.
