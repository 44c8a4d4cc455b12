/** The server's upload validation middleware: it buffers the file in
    memory under the size limit, then accepts it only when the type sniffed
    from its content is on the allow-list. The content sniffing is an
    input here. */
module ValidateUpload {
  import opened Wrappers
  import opened JsStrings
  import opened Http
  import opened UploadS3

  /** `allowedMimeTypes`: four image and three video types, each starting
      with `image/` or `video/`. */
  const AllowedMimeTypes: seq<string> :=
    ["image/jpeg", "image/png", "image/webp", "image/gif", "video/mp4", "video/webm", "video/quicktime"]

  /** `MAX_SIZE_BYTES`: 50 MB. */
  const MaxSizeBytes: nat := 50 * 1024 * 1024

  /** `allowedMimeTypes.includes(mime)`. */
  predicate IsAllowed(mime: string) {
    mime in AllowedMimeTypes
  }

  /** What `fileTypeFromBuffer` yields: it throws, finds nothing, or finds
      a type with its MIME name and extension. */
  datatype Sniff = SniffThrows | Undetected | Detected(mime: string, ext: string)

  /** `req.file` from the memory storage: the client's fields, whether a
      buffer is present, and the verified type once accepted. */
  datatype MemFile = MemFile(mimetype: string, originalname: string, size: nat, hasBuffer: bool,
                             verifiedMime: Option<string>, verifiedExt: Option<string>)

  /** `type?.mime || 'unknown'`. */
  function DetectedName(s: Sniff): (d: string)
    ensures s.Detected? && s.mime != "" ==> d == s.mime
    ensures !s.Detected? || s.mime == "" ==> d == "unknown"
  {
    if s.Detected? && s.mime != "" then s.mime else "unknown"
  }

  /** The middleware's decision, in the order of its checks: an upload
      layer error (another multer error, or a file over the limit), no
      file, no buffer, a failed sniff, then a missing or disallowed type.
      A file is accepted exactly when no check fails, and every rejection
      is a 400. */
  function Decide(part: Option<FilePart>, multerError: Option<string>, hasBuffer: bool, sniff: Sniff): (p: Pass)
    ensures p.Continue? <==>
      (multerError.None? && part.Some? && part.value.size <= MaxSizeBytes && hasBuffer
       && sniff.Detected? && IsAllowed(sniff.mime))
    ensures p.Stop? ==> p.status == 400
  {
    if multerError.Some? then Stop(400, ErrorDetails("Upload failed", multerError.value))
    else if part.Some? && part.value.size > MaxSizeBytes then Stop(400, ErrorDetails("Upload failed", "File too large"))
    else if part.None? then Stop(400, ErrorBody("No file uploaded"))
    else if !hasBuffer then Stop(400, ErrorBody("File buffer is missing or invalid"))
    else if sniff.SniffThrows? then Stop(400, ErrorBody("Failed to analyze file content"))
    else if sniff.Undetected? || !IsAllowed(sniff.mime) then
      Stop(400, ErrorDetected("Unsupported or invalid file type", DetectedName(sniff)))
    else Continue
  }

  /** A request: its `file` as set by the middleware, and how often
      `next()` was called for it. */
  class UploadRequest {
    var file: Option<MemFile>
    var nextCalls: nat

    constructor ()
      ensures file == None && nextCalls == 0
    {
      file, nextCalls := None, 0;
    }

    /** `validateUploadFile(req, res, next)`; `multerError` is an upload
        layer error other than the size limit. */
    method Validate(part: Option<FilePart>, multerError: Option<string>, hasBuffer: bool, sniff: Sniff)
      returns (out: Pass)
      modifies this
      ensures out == Decide(part, multerError, hasBuffer, sniff)
      ensures out.Continue? ==>
        && file == Some(MemFile(part.value.mimetype, part.value.originalname, part.value.size, true,
                                Some(sniff.mime), Some(sniff.ext)))
        && nextCalls == old(nextCalls) + 1
      ensures out.Stop? ==> nextCalls == old(nextCalls)
      ensures out.Stop? && multerError.None? && part.Some? && part.value.size <= MaxSizeBytes ==>
        file == Some(MemFile(part.value.mimetype, part.value.originalname, part.value.size, hasBuffer, None, None))
      ensures out.Stop? && (multerError.Some? || part.None? || part.value.size > MaxSizeBytes) ==> file == old(file)
    {
      if multerError.Some? {
        return Stop(400, ErrorDetails("Upload failed", multerError.value));
      }
      if part.Some? && part.value.size > MaxSizeBytes {
        return Stop(400, ErrorDetails("Upload failed", "File too large"));
      }
      if part.None? {
        return Stop(400, ErrorBody("No file uploaded"));
      }
      var f := part.value;
      file := Some(MemFile(f.mimetype, f.originalname, f.size, hasBuffer, None, None));
      if !hasBuffer {
        return Stop(400, ErrorBody("File buffer is missing or invalid"));
      }
      if sniff.SniffThrows? {
        return Stop(400, ErrorBody("Failed to analyze file content"));
      }
      if sniff.Undetected? || !IsAllowed(sniff.mime) {
        return Stop(400, ErrorDetected("Unsupported or invalid file type", DetectedName(sniff)));
      }
      file := Some(file.value.(verifiedMime := Some(sniff.mime), verifiedExt := Some(sniff.ext)));
      nextCalls := nextCalls + 1;
      return Continue;
    }
  }

  /** The client's declared MIME type and file name are never consulted:
      any other values give the same decision. */
  lemma DecideIgnoresClientFields(part: FilePart, mimetype: string, originalname: string,
                                  multerError: Option<string>, hasBuffer: bool, sniff: Sniff)
    ensures Decide(Some(part.(mimetype := mimetype, originalname := originalname)), multerError, hasBuffer, sniff)
         == Decide(Some(part), multerError, hasBuffer, sniff)
  {
  }

  /** A file whose type cannot be detected is rejected and reported as
      `unknown`. */
  lemma UndetectedRejected(part: FilePart)
    requires part.size <= MaxSizeBytes
    ensures Decide(Some(part), None, true, Undetected)
         == Stop(400, ErrorDetected("Unsupported or invalid file type", "unknown"))
  {
  }

  /** The size limit is inclusive: a file of exactly 50 MB passes it. */
  lemma SizeLimitInclusive(part: FilePart, sniff: Sniff)
    requires part.size == MaxSizeBytes && sniff.Detected? && IsAllowed(sniff.mime)
    ensures Decide(Some(part), None, true, sniff) == Continue
    ensures Decide(Some(part.(size := MaxSizeBytes + 1)), None, true, sniff)
         == Stop(400, ErrorDetails("Upload failed", "File too large"))
  {
  }
}
