/** Signing read access to a stored object: the key is the text after the
    object store's domain in the media URL, and the signature expires after
    an hour unless the caller says otherwise. The signing itself is left
    to the object store's client. */
module SignedUrl {
  import opened Wrappers
  import opened JsStrings
  import opened Errors
  import DeleteS3

  const Marker: string := ".amazonaws.com/"

  /** `expiresInSeconds = 3600`. */
  const DefaultExpiry: nat := 3600

  /** `mediaUrl.split(".amazonaws.com/")[1]`, checked with `if (!key)`: the
      text after the first marker, up to the next one, which must not be
      empty. */
  function KeyFromMediaUrl(url: string): (r: Result<string, Thrown>)
    ensures r.Ok? <==> Contains(url, Marker) && Before(url[IndexOf(url, Marker).value + |Marker|..], Marker) != ""
    ensures r.Ok? ==> r.value == Before(url[IndexOf(url, Marker).value + |Marker|..], Marker)
    ensures r.Err? ==> r.error == Message("Invalid media URL, could not extract S3 key")
  {
    SplitSecond(url, Marker);
    var parts := Split(url, Marker);
    if |parts| < 2 || parts[1] == "" then Err(Message("Invalid media URL, could not extract S3 key"))
    else Ok(parts[1])
  }

  /** `new GetObjectCommand({ Bucket, Key })` with the signing options. */
  datatype SignRequest = SignRequest(bucket: string, key: string, expiresIn: nat)

  /** `getSignedUrlFromS3(mediaUrl, expiresInSeconds)`, up to the signing
      call: an omitted expiry is one hour. */
  function SignedUrlRequest(bucket: string, mediaUrl: string, expiresIn: Option<nat>): (r: Result<SignRequest, Thrown>)
    ensures r.Ok? <==> KeyFromMediaUrl(mediaUrl).Ok?
    ensures r.Ok? ==> r.value.bucket == bucket && r.value.key == KeyFromMediaUrl(mediaUrl).value
    ensures r.Ok? ==> r.value.expiresIn == (if expiresIn.None? then DefaultExpiry else expiresIn.value)
    ensures r.Err? ==> r.error == KeyFromMediaUrl(mediaUrl).error
  {
    match KeyFromMediaUrl(mediaUrl)
    case Err(e) => Err(e)
    case Ok(key) => Ok(SignRequest(bucket, key, if expiresIn.None? then DefaultExpiry else expiresIn.value))
  }

  /** A URL that ends in the marker, with no earlier marker, has an empty
      key and is refused. */
  lemma MarkerAtEndRefused(prefix: string)
    requires forall j: nat | j < |prefix| :: !OccursAt(prefix + Marker, Marker, j)
    ensures KeyFromMediaUrl(prefix + Marker).Err?
  {
    assert prefix + Marker + "" == prefix + Marker;
    SplitSecondOfJoined(prefix, Marker, "");
  }

  /** In `https://<host>.amazonaws.com/...` with no `/` in the host, the
      marker cannot start before the domain. */
  lemma NoEarlyMarker(host: string, key: string)
    requires '/' !in host
    ensures forall j: nat | j < |"https://" + host| :: !OccursAt("https://" + host + Marker + key, Marker, j)
  {
    var prefix := "https://" + host;
    var s := prefix + Marker + key;
    forall j: nat | j < |prefix| ensures !OccursAt(s, Marker, j) {
      if j + |Marker| <= |s| {
        assert s[j..j + |Marker|][14] == s[j + 14];
        if j + 14 < |prefix| {
          assert s[j + 14] == host[j + 6];
        } else {
          assert s[j + 14] == Marker[j + 14 - |prefix|];
        }
      }
    }
  }

  /** Signing reads `k` from `https://<host>.amazonaws.com/<k>`. */
  lemma SignedKeyOfPlainUrl(host: string, k: string)
    requires '/' !in host
    requires k != [] && !Contains(k, Marker)
    ensures KeyFromMediaUrl("https://" + host + Marker + k) == Ok(k)
  {
    NoEarlyMarker(host, k);
    SplitSecondOfJoined("https://" + host, Marker, k);
  }

  /** The delete path reads `k` from the same URL. */
  lemma DeleteKeyOfPlainUrl(host: string, k: string)
    requires host != [] && '/' !in host && '?' !in host && '#' !in host
    requires '?' !in k && '#' !in k
    ensures DeleteS3.KeyOf("https://" + host + Marker + k) == Ok(k)
  {
    var authority := host + ".amazonaws.com";
    AuthorityOfHost(host);
    forall i | 0 <= i < |k| ensures DeleteS3.IsPathChar(k[i]) {
      assert k[i] in k;
    }
    DeleteS3.KeyOfPlainUrl(authority, k);
    PlainUrlShape(host, k);
  }

  /** `<host>.amazonaws.com` is read as the URL's authority. */
  lemma AuthorityOfHost(host: string)
    requires '/' !in host && '?' !in host && '#' !in host
    ensures forall i | 0 <= i < |host + ".amazonaws.com"| :: DeleteS3.IsAuthorityChar((host + ".amazonaws.com")[i])
  {
    var authority := host + ".amazonaws.com";
    forall i | 0 <= i < |authority| ensures DeleteS3.IsAuthorityChar(authority[i]) {
      if i >= |host| { assert authority[i] == ".amazonaws.com"[i - |host|]; } else { assert authority[i] == host[i]; }
    }
  }

  /** The marker is the authority's suffix followed by the path's slash. */
  lemma PlainUrlShape(host: string, k: string)
    ensures "https://" + (host + ".amazonaws.com") + "/" + k == "https://" + host + Marker + k
  {
    assert ".amazonaws.com" + "/" == Marker;
  }

  /** For a plain object URL `https://<host>.amazonaws.com/<k>` whose key
      holds no marker, signing and deleting address the same key `k`. */
  lemma KeysAgree(host: string, k: string)
    requires host != [] && '/' !in host && '?' !in host && '#' !in host
    requires k != [] && '?' !in k && '#' !in k && !Contains(k, Marker)
    ensures KeyFromMediaUrl("https://" + host + Marker + k) == Ok(k)
    ensures DeleteS3.KeyOf("https://" + host + Marker + k) == Ok(k)
  {
    SignedKeyOfPlainUrl(host, k);
    DeleteKeyOfPlainUrl(host, k);
  }
}
