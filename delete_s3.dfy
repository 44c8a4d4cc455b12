/** Deleting stored objects by their public URLs: each URL's key is its
    path without the leading `/`, and one delete command is built per URL
    before any is sent. URLs are parsed by a simplified
    `scheme://authority/path?query#fragment` reading. */
module DeleteS3 {
  import opened Wrappers
  import opened JsStrings
  import opened Lists
  import opened Errors

  /** The length of the longest prefix of `s` whose characters satisfy `p`. */
  function SpanWhile(s: string, p: char -> bool): (n: nat)
    ensures n <= |s|
    ensures forall i | 0 <= i < n :: p(s[i])
    ensures n < |s| ==> !p(s[n])
  {
    if s == [] || !p(s[0]) then 0 else 1 + SpanWhile(s[1..], p)
  }

  /** The span ends at the first character that does not satisfy `p`. */
  lemma SpanWhileAt(s: string, p: char -> bool, n: nat)
    requires n <= |s|
    requires forall i | 0 <= i < n :: p(s[i])
    requires n < |s| ==> !p(s[n])
    ensures SpanWhile(s, p) == n
  {
    var r := SpanWhile(s, p);
    assert !(r < n);
    assert !(r > n);
  }

  predicate IsAlpha(c: char) {
    ('a' <= c <= 'z') || ('A' <= c <= 'Z')
  }

  predicate IsSchemeChar(c: char) {
    IsAlpha(c) || ('0' <= c <= '9') || c == '+' || c == '-' || c == '.'
  }

  predicate IsAuthorityChar(c: char) {
    c != '/' && c != '?' && c != '#'
  }

  predicate IsPathChar(c: char) {
    c != '?' && c != '#'
  }

  /** The parts of a parsed URL that the key derivation reads. */
  datatype Url = Url(scheme: string, host: string, pathname: string)

  /** The path of what follows the authority: up to any query or
      fragment, and `/` when that is empty. */
  function PathnameOf(after: string): (p: string)
    requires after == [] || !IsAuthorityChar(after[0])
    ensures |p| >= 1 && p[0] == '/'
  {
    var n := SpanWhile(after, IsPathChar);
    if n == 0 then "/" else after[..n]
  }

  /** What follows `://`: a non-empty authority, then the path. */
  function ParseHierarchy(rest: string): Option<(string, string)> {
    var a := SpanWhile(rest, IsAuthorityChar);
    if a == 0 then None else Some((rest[..a], PathnameOf(rest[a..])))
  }

  /** `new URL(url)`, simplified: a scheme of letters, digits, `+`, `-` and
      `.` starting with a letter, then `://`, a non-empty authority, and a
      path up to any query or fragment; the path is `/` when empty. Anything
      else throws. */
  function ParseUrl(url: string): (r: Option<Url>)
    ensures r.Some? ==> |r.value.pathname| >= 1 && r.value.pathname[0] == '/'
  {
    var n := SpanWhile(url, IsSchemeChar);
    if n == 0 || !IsAlpha(url[0]) || !StartsWith(url[n..], "://") then None
    else match ParseHierarchy(url[n + 3..])
      case None => None
      case Some((host, path)) => Some(Url(url[..n], host, path))
  }

  /** `parseS3KeyFromUrl(url)`: the path without its leading `/`, or the
      error `Invalid S3 URL: <url>`. */
  function KeyOf(url: string): (r: Result<string, Thrown>)
    ensures r.Ok? <==> ParseUrl(url).Some?
    ensures r.Ok? ==> "/" + r.value == ParseUrl(url).value.pathname
    ensures r.Err? ==> r.error == Message("Invalid S3 URL: " + url)
  {
    match ParseUrl(url)
    case None => Err(Message("Invalid S3 URL: " + url))
    case Some(u) =>
      assert u.pathname == [u.pathname[0]] + u.pathname[1..];
      Ok(u.pathname[1..])
  }

  lemma PathnameOfParts(path: string, tail: string)
    requires path != [] && path[0] == '/' && forall i | 0 <= i < |path| :: IsPathChar(path[i])
    requires tail == [] || tail[0] == '?' || tail[0] == '#'
    ensures PathnameOf(path + tail) == path
  {
    var after := path + tail;
    assert forall i | 0 <= i < |path| :: after[i] == path[i];
    SpanWhileAt(after, IsPathChar, |path|);
    assert after[..|path|] == path;
  }

  lemma ParseHierarchyOfParts(authority: string, path: string, tail: string)
    requires authority != [] && forall i | 0 <= i < |authority| :: IsAuthorityChar(authority[i])
    requires path != [] && path[0] == '/' && forall i | 0 <= i < |path| :: IsPathChar(path[i])
    requires tail == [] || tail[0] == '?' || tail[0] == '#'
    ensures ParseHierarchy(authority + (path + tail)) == Some((authority, path))
  {
    var rest := authority + (path + tail);
    assert forall i | 0 <= i < |authority| :: rest[i] == authority[i];
    assert rest[|authority|] == '/';
    SpanWhileAt(rest, IsAuthorityChar, |authority|);
    assert rest[..|authority|] == authority;
    assert rest[|authority|..] == path + tail;
    PathnameOfParts(path, tail);
  }

  /** A URL built from a scheme, an authority, a path starting with `/`
      and a query or fragment (or nothing) parses back into those parts. */
  lemma ParseUrlOfParts(scheme: string, authority: string, path: string, tail: string)
    requires scheme != [] && IsAlpha(scheme[0]) && forall i | 0 <= i < |scheme| :: IsSchemeChar(scheme[i])
    requires authority != [] && forall i | 0 <= i < |authority| :: IsAuthorityChar(authority[i])
    requires path != [] && path[0] == '/' && forall i | 0 <= i < |path| :: IsPathChar(path[i])
    requires tail == [] || tail[0] == '?' || tail[0] == '#'
    ensures ParseUrl(scheme + ("://" + (authority + (path + tail)))) == Some(Url(scheme, authority, path))
  {
    var rest := authority + (path + tail);
    SchemeSpan(scheme, rest);
    ParseHierarchyOfParts(authority, path, tail);
  }

  lemma SchemeSpan(scheme: string, rest: string)
    requires forall i | 0 <= i < |scheme| :: IsSchemeChar(scheme[i])
    ensures var url := scheme + ("://" + rest);
      && SpanWhile(url, IsSchemeChar) == |scheme| && url[..|scheme|] == scheme
      && StartsWith(url[|scheme|..], "://") && url[|scheme| + 3..] == rest
  {
    var url := scheme + ("://" + rest);
    var n := |scheme|;
    assert forall i | 0 <= i < n :: url[i] == scheme[i];
    assert url[n] == ':';
    SpanWhileAt(url, IsSchemeChar, n);
    assert url[n..] == "://" + rest;
  }

  lemma ParsePlainUrl(host: string, key: string)
    requires host != []
    requires forall i | 0 <= i < |host| :: IsAuthorityChar(host[i])
    requires forall i | 0 <= i < |key| :: IsPathChar(key[i])
    ensures ParseUrl("https" + ("://" + (host + ("/" + key + "")))) == Some(Url("https", host, "/" + key))
  {
    var path := "/" + key;
    assert forall i | 1 <= i < |path| :: path[i] == key[i - 1];
    assert forall i | 0 <= i < 5 :: IsSchemeChar("https"[i]);
    ParseUrlOfParts("https", host, path, "");
  }

  /** A plain object URL `https://<host>/<key>`, with no `/`, `?` or `#` in
      the host and no `?` or `#` in the key, gives back the key. */
  lemma KeyOfPlainUrl(host: string, key: string)
    requires host != []
    requires forall i | 0 <= i < |host| :: IsAuthorityChar(host[i])
    requires forall i | 0 <= i < |key| :: IsPathChar(key[i])
    ensures KeyOf("https://" + host + "/" + key) == Ok(key)
  {
    var url := "https://" + host + "/" + key;
    assert url == "https" + ("://" + (host + ("/" + key + "")));
    ParsePlainUrl(host, key);
    assert ("/" + key)[1..] == key;
  }

  /** `deleteImagesFromS3(urls)` takes a single URL or a list of them. */
  datatype UrlArg = One(url: string) | Many(urls: seq<string>)

  /** `Array.isArray(urls) ? urls : [urls]`. */
  function ToList(arg: UrlArg): (list: seq<string>)
    ensures arg.One? ==> list == [arg.url]
    ensures arg.Many? ==> list == arg.urls
  {
    match arg
    case One(u) => [u]
    case Many(us) => us
  }

  /** A URL that `parseS3KeyFromUrl` rejects. */
  predicate IsBadUrl(url: string) {
    ParseUrl(url).None?
  }

  /** `new DeleteObjectCommand({ Bucket, Key })`. */
  datatype DeleteCommand = DeleteCommand(bucket: string, key: string)

  /** `list.map(url => new DeleteObjectCommand({ Bucket, Key: parseS3KeyFromUrl(url) }))`:
      one command per URL, in order, all for the same bucket; the first URL
      that does not parse stops the construction with its error. */
  function BuildDeleteCommands(bucket: string, list: seq<string>): (r: Result<seq<DeleteCommand>, Thrown>)
    ensures r.Ok? <==> forall i | 0 <= i < |list| :: KeyOf(list[i]).Ok?
    ensures r.Ok? ==> |r.value| == |list|
    ensures r.Ok? ==> forall i | 0 <= i < |list| :: r.value[i] == DeleteCommand(bucket, KeyOf(list[i]).value)
    ensures r.Err? ==> FirstWhere(list, IsBadUrl).Some?
    ensures r.Err? ==> r.error == Message("Invalid S3 URL: " + list[FirstWhere(list, IsBadUrl).value])
  {
    if list == [] then Ok([])
    else match KeyOf(list[0])
      case Err(e) =>
        assert IsBadUrl(list[0]);
        Err(e)
      case Ok(k) =>
        match BuildDeleteCommands(bucket, list[1..])
        case Err(e) =>
          FirstWhereTail(list, IsBadUrl);
          assert list[FirstWhere(list, IsBadUrl).value] == list[1..][FirstWhere(list[1..], IsBadUrl).value];
          Err(e)
        case Ok(cs) =>
          ConsIndex(list, DeleteCommand(bucket, k), cs);
          Ok([DeleteCommand(bucket, k)] + cs)
  }

  /** `deleteImagesFromS3(urls)`: the commands sent and the outcome. No
      command is sent when construction fails; otherwise every command is
      sent, and the step fails when any send fails. */
  function DeleteImages(bucket: string, arg: UrlArg, sendFails: bool): (r: (seq<DeleteCommand>, Result<(), Thrown>))
    ensures BuildDeleteCommands(bucket, ToList(arg)).Err? ==>
      r == ([], Err(BuildDeleteCommands(bucket, ToList(arg)).error))
    ensures BuildDeleteCommands(bucket, ToList(arg)).Ok? ==>
      && r.0 == BuildDeleteCommands(bucket, ToList(arg)).value
      && (r.1.Ok? <==> !sendFails)
  {
    match BuildDeleteCommands(bucket, ToList(arg))
    case Err(e) => ([], Err(e))
    case Ok(cs) => (cs, if sendFails then Err(StorageFailure) else Ok(()))
  }

  /** A single URL is treated as a list of one. */
  lemma OneIsListOfOne(bucket: string, url: string, sendFails: bool)
    ensures DeleteImages(bucket, One(url), sendFails) == DeleteImages(bucket, Many([url]), sendFails)
  {
  }

  /** An empty list sends nothing and succeeds unless sending fails. */
  lemma EmptyListSendsNothing(bucket: string, sendFails: bool)
    ensures DeleteImages(bucket, Many([]), sendFails).0 == []
  {
  }

  /** A list holding an unparsable URL sends no command at all. */
  lemma BadUrlSendsNothing(bucket: string, urls: seq<string>, i: nat, sendFails: bool)
    requires i < |urls| && ParseUrl(urls[i]).None?
    ensures DeleteImages(bucket, Many(urls), sendFails).0 == []
    ensures DeleteImages(bucket, Many(urls), sendFails).1.Err?
  {
    assert KeyOf(urls[i]).Err?;
  }
}
