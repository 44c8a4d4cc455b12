/** Requests and responses as the route handlers see them: the fields they
    read from a JSON or multipart body, the decoded identity token, and what
    they answer — a status with a JSON body, or an error handed on with
    `next(err)`. */
module Http {
  import opened Wrappers
  import opened JsStrings
  import opened Models
  import opened Errors

  /** A JSON response body. */
  datatype Body =
    | ErrorBody(error: string)
    | ErrorDetails(error: string, details: string)
    | ErrorDetected(error: string, detected: string)
    | MessageBody(message: string)
    | AlbumBody(album: Album)
    | AlbumsBody(albums: seq<Album>)
    | MediaBody(media: Media)
    | MediaListBody(items: seq<Media>)

  /** What a route handler does with a request. */
  datatype Outcome =
    | Respond(status: nat, body: Body)
    | Forward(err: Thrown)

  /** What a middleware does with a request: answer it and stop, or call
      `next()` to hand it to the route. */
  datatype Pass = Stop(status: nat, body: Body) | Continue

  /** The status the client finally receives. */
  function StatusOf(o: Outcome): nat {
    match o
    case Respond(s, _) => s
    case Forward(e) => DefaultStatus(e)
  }

  /** One field of a parsed JSON body. */
  datatype JsonValue = Absent | Null | JString(s: string) | NonString

  /** The claims of a verified identity token that the handlers read. */
  datatype Claims = Claims(uid: string, email: Option<string>, displayname: Option<string>)

  /** How `!albumName?.trim()` judges a body field: `undefined` and `null`
      short-circuit to a missing name, a value that is not a string has no
      `trim` method and throws, and a string is missing when it is blank. */
  datatype NameCheck = Missing | NotAString | Given(name: string)

  function CheckName(v: JsonValue): (r: NameCheck)
    ensures r.Missing? <==> v.Absent? || v.Null? || (v.JString? && IsBlank(v.s))
    ensures r.NotAString? <==> v.NonString?
    ensures r.Given? ==> v.JString? && r.name == Trim(v.s) && !IsBlank(r.name)
  {
    match v
    case Absent => Missing
    case Null => Missing
    case NonString => NotAString
    case JString(s) =>
      TrimIdempotent(s);
      if IsBlank(s) then Missing else Given(Trim(s))
  }

  /** A multipart text field such as `albumId`: absent, or a string. A
      field is falsy when it is absent or empty. */
  predicate Falsy(f: Option<string>) {
    f.None? || f.value == ""
  }
}
