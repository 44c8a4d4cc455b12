/** The upload stage in front of the media handlers: the multipart file is
    streamed to the object store under a key built from a hash of the
    uploader's uid, the date and the time, with the file's extension, and
    the stage refuses files over 50 MB. */
module UploadS3 {
  import opened Wrappers
  import opened JsStrings
  import opened Hex
  import opened Errors
  import opened Store

  /** `limits: { fileSize: 50 * 1024 * 1024 }`. */
  const MaxFileSize: nat := 50 * 1024 * 1024

  /** The path with its trailing `/` characters removed. */
  function DropTrailingSlashes(p: string): (r: string)
    ensures |r| <= |p| && r == p[..|r|]
    ensures r == [] || r[|r| - 1] != '/'
    ensures forall j | |r| <= j < |p| :: p[j] == '/'
  {
    if p != [] && p[|p| - 1] == '/' then DropTrailingSlashes(p[..|p| - 1]) else p
  }

  /** `path.basename(p)`: the last segment, ignoring trailing `/`. */
  function BaseName(p: string): (b: string)
    ensures '/' !in b
  {
    var t := DropTrailingSlashes(p);
    match LastIndexOfChar(t, '/')
    case None => t
    case Some(i) => t[i + 1..]
  }

  /** `path.extname(p)`: from the last `.` of the base name to its end,
      or empty when the base name has no `.`, starts with its only `.`,
      or is `..`. */
  function ExtName(p: string): (e: string)
    ensures '/' !in e
    ensures e == [] || (e[0] == '.' && '.' !in e[1..])
    ensures e != [] ==> |e| < |BaseName(p)| && BaseName(p)[|BaseName(p)| - |e|..] == e
    ensures e == [] <==>
      (LastIndexOfChar(BaseName(p), '.').None? || LastIndexOfChar(BaseName(p), '.') == Some(0) || BaseName(p) == "..")
  {
    var b := BaseName(p);
    match LastIndexOfChar(b, '.')
    case None => ""
    case Some(i) =>
      if i == 0 || b == ".." then ""
      else
        SuffixFromLastDot(b, i);
        b[i..]
  }

  /** The suffix from the last `.` of a segment holds no `/` and no other `.`. */
  lemma SuffixFromLastDot(b: string, i: nat)
    requires i < |b| && b[i] == '.' && '/' !in b
    requires forall j | i < j < |b| :: b[j] != '.'
    ensures '/' !in b[i..]
    ensures '.' !in b[i..][1..]
  {
    var e := b[i..];
    forall j | 0 <= j < |e| ensures e[j] != '/' {
      assert e[j] == b[i + j] && b[i + j] in b;
    }
    forall k | 0 <= k < |e[1..]| ensures e[1..][k] != '.' {
      assert e[1..][k] == b[i + 1 + k];
    }
  }

  /** A file name `stem.ext` with no `/`, a non-empty stem and no `.` in
      `ext` has the extension `.ext`. */
  lemma ExtNameOfFileName(stem: string, ext: string)
    requires '/' !in stem && '/' !in ext && '.' !in ext
    requires stem != [] && stem + "." + ext != ".."
    ensures ExtName(stem + "." + ext) == "." + ext
  {
    var name := stem + "." + ext;
    assert name[|name| - 1] != '/' by {
      if ext == [] { assert name[|name| - 1] == '.'; } else { assert name[|name| - 1] == ext[|ext| - 1]; }
    }
    assert DropTrailingSlashes(name) == name;
    assert '/' !in name by {
      forall j | 0 <= j < |name| ensures name[j] != '/' {
        if j < |stem| { assert name[j] == stem[j]; }
        else if j > |stem| { assert name[j] == ext[j - |stem| - 1]; }
      }
    }
    assert BaseName(name) == name;
    assert name[|stem|] == '.';
    var k := LastIndexOfChar(name, '.');
    assert k.Some?;
    assert k.value >= |stem|;
    assert k.value <= |stem|;
    assert name[|stem|..] == "." + ext;
  }

  /** A path `dir/name` whose last segment `name` is non-empty and free of
      `/` has the base name `name`, whatever the directory part. */
  lemma BaseNameOfPath(dir: string, name: string)
    requires name != [] && '/' !in name
    ensures BaseName(dir + "/" + name) == name
  {
    var full := dir + "/" + name;
    assert full[|full| - 1] == name[|name| - 1];
    assert DropTrailingSlashes(full) == full;
    assert full[|dir|] == '/';
    forall j | |dir| < j < |full| ensures full[j] != '/' {
      assert full[j] == name[j - |dir| - 1];
    }
    assert LastIndexOfChar(full, '/') == Some(|dir|);
    assert full[|dir| + 1..] == name;
  }

  /** The extension of `dir/stem.ext` is `.ext` for any directory part, as
      long as the file name has a non-empty stem and no other `/`. */
  lemma ExtNameOfPath(dir: string, stem: string, ext: string)
    requires '/' !in stem && '/' !in ext && '.' !in ext
    requires stem != [] && stem + "." + ext != ".."
    ensures ExtName(dir + "/" + stem + "." + ext) == "." + ext
  {
    var name := stem + "." + ext;
    ExtNameOfFileName(stem, ext);
    assert '/' !in name by {
      forall j | 0 <= j < |name| ensures name[j] != '/' {
        if j < |stem| { assert name[j] == stem[j]; }
        else if j > |stem| { assert name[j] == ext[j - |stem| - 1]; }
      }
    }
    assert dir + "/" + stem + "." + ext == dir + "/" + name;
    BaseNameOfPath(dir, name);
    assert BaseName(name) == name;
  }

  /** `new Date().toISOString().slice(0, 10)`: the `YYYY-MM-DD` part. */
  function DatePart(iso: string): (d: string)
    ensures |d| == if |iso| < 10 then |iso| else 10
    ensures d == iso[..|d|]
  {
    if |iso| < 10 then iso else iso[..10]
  }

  /** `buildS3Key`: `${hash}/${date}/${Date.now()}${ext}`, where the hash is
      the hexadecimal SHA-256 digest of the uid (an input here), and the
      date and the time come from two readings of the clock. The key has
      exactly three `/`-separated parts: the digest in hexadecimal, the
      date, and the time in milliseconds followed by the extension. */
  function BuildS3Key(uidDigest: seq<byte>, iso: string, millis: nat, originalname: string): (k: string)
    ensures '/' !in DatePart(iso) ==>
      Split(k, "/") == [BytesToHex(uidDigest), DatePart(iso), NatToDecimal(millis) + ExtName(originalname)]
  {
    var h, d, t := BytesToHex(uidDigest), DatePart(iso), NatToDecimal(millis) + ExtName(originalname);
    HexHasNoSlash(uidDigest);
    StampHasNoSlash(millis, originalname);
    if '/' in d then KeyPath(h, d, t)
    else SplitThree(h, d, t); KeyPath(h, d, t)
  }

  /** `` `${folder}/${date}/${name}` ``. */
  function KeyPath(folder: string, date: string, name: string): string {
    folder + "/" + date + "/" + name
  }

  lemma HexHasNoSlash(bs: seq<byte>)
    ensures '/' !in BytesToHex(bs)
  {
    var h := BytesToHex(bs);
    forall j | 0 <= j < |h| ensures h[j] != '/' { assert IsLowerHex(h[j]); }
  }

  lemma StampHasNoSlash(millis: nat, originalname: string)
    ensures '/' !in NatToDecimal(millis) + ExtName(originalname)
  {
    var n := NatToDecimal(millis);
    assert '/' !in n by {
      forall j | 0 <= j < |n| ensures n[j] != '/' { assert IsDigit(n[j]); }
    }
    NoSlashInConcat(n, ExtName(originalname));
  }

  lemma NoSlashInConcat(a: string, b: string)
    requires '/' !in a && '/' !in b
    ensures '/' !in a + b
  {
    forall j | 0 <= j < |a + b| ensures (a + b)[j] != '/' {
      if j < |a| { assert (a + b)[j] == a[j]; } else { assert (a + b)[j] == b[j - |a|]; }
    }
  }

  lemma SplitThree(a: string, b: string, c: string)
    requires '/' !in a && '/' !in b && '/' !in c
    ensures Split(KeyPath(a, b, c), "/") == [a, b, c]
  {
    JoinThree(a, b, c, "/");
    SplitJoinChar([a, b, c], '/');
  }

  lemma JoinThree(a: string, b: string, c: string, sep: string)
    ensures Join([a, b, c], sep) == a + sep + b + sep + c
  {
    assert [a, b, c][1..] == [b, c];
    assert [b, c][1..] == [c];
    assert Join([c], sep) == c;
    assert Join([b, c], sep) == b + sep + c;
  }

  /** A SHA-256 digest (32 bytes) gives a 64-character lowercase hexadecimal
      folder, and two uploads share a folder exactly when their digests are
      equal. */
  lemma KeyFolder(d1: seq<byte>, d2: seq<byte>, iso: string, m1: nat, m2: nat, n1: string, n2: string)
    requires |d1| == 32
    requires '/' !in DatePart(iso)
    ensures |Split(BuildS3Key(d1, iso, m1, n1), "/")[0]| == 64
    ensures forall j | 0 <= j < 64 :: IsLowerHex(Split(BuildS3Key(d1, iso, m1, n1), "/")[0][j])
    ensures Split(BuildS3Key(d1, iso, m1, n1), "/")[0] == Split(BuildS3Key(d2, iso, m2, n2), "/")[0] <==> d1 == d2
  {
    if BytesToHex(d1) == BytesToHex(d2) {
      HexInjective(d1, d2);
    }
  }

  /** The file part of a multipart request, as the client sent it. */
  datatype FilePart = FilePart(mimetype: string, originalname: string, size: nat)

  /** `req.file` after the upload stage: the client's fields, the object
      key and the object's URL as the object store reports it. */
  datatype StoredFile = StoredFile(mimetype: string, originalname: string, size: nat, key: string, location: string)

  /** `uploadMediaToS3.single('mediaFile')`: no file part passes through
      with no file; a file over the limit is refused with the upload
      layer's error; otherwise the file is stored under the built key (the
      key callback never reports an error) and described in `req.file`. */
  method StoreUpload(b: Backend, part: Option<FilePart>, uidDigest: seq<byte>, iso: string, millis: nat,
                     location: string, faults: set<Call>)
    returns (r: Result<Option<StoredFile>, Thrown>)
    modifies b
    ensures part.None? ==> r == Ok(None) && b.State() == old(b.State())
    ensures part.Some? && part.value.size > MaxFileSize ==>
      r == Err(Message("File too large")) && b.State() == old(b.State())
    ensures part.Some? && part.value.size <= MaxFileSize && StoragePut in faults ==>
      r == Err(StorageFailure) && b.State() == old(b.State())
    ensures part.Some? && part.value.size <= MaxFileSize && StoragePut !in faults ==>
      var key := BuildS3Key(uidDigest, iso, millis, part.value.originalname);
      && r == Ok(Some(StoredFile(part.value.mimetype, part.value.originalname, part.value.size, key, location)))
      && b.log == old(b.log) + [ObjectStored(key)]
    ensures b.albums == old(b.albums) && b.media == old(b.media) && b.users == old(b.users)
  {
    if part.None? {
      return Ok(None);
    }
    var f := part.value;
    if f.size > MaxFileSize {
      return Err(Message("File too large"));
    }
    var key := BuildS3Key(uidDigest, iso, millis, f.originalname);
    var stored := b.PutObject(key, StoragePut in faults);
    if stored.Err? {
      return Err(stored.error);
    }
    return Ok(Some(StoredFile(f.mimetype, f.originalname, f.size, key, location)));
  }
}
