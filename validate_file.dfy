/** The client's pre-upload check of a picked file: it is refused when
    nothing is picked, when it is over the size limit, or when its declared
    type is not on the client's list. The toasts it shows are left out. */
module ValidateFile {
  import opened Wrappers
  import opened JsStrings
  import opened Http
  import opened UploadS3
  import ValidateUpload

  /** `MAX_SIZE_MB`. */
  const MaxSizeMb: nat := 50

  /** `MAX_SIZE_BYTES`. */
  const MaxSizeBytes: nat := MaxSizeMb * 1024 * 1024

  /** `ALLOWED_TYPES`. */
  const AllowedTypes: seq<string> :=
    ["image/jpeg", "image/png", "image/webp", "image/gif",
     "video/mp4", "video/webm", "video/quicktime", "video/x-matroska"]

  /** A browser `File`: its name, size in bytes and declared type. */
  datatype PickedFile = PickedFile(name: string, size: nat, mimeType: string)

  /** `{ valid: true }` or `{ valid: false, reason }`. */
  datatype Verdict = Valid | Invalid(reason: string)

  const NoFileReason: string := "No file selected"
  const SizeReason: string := "File size must be under 50MB"
  const TypeReason: string := "Unsupported file type. Allowed: " + Join(AllowedTypes, ", ")

  /** `validateFile(file)`: presence, then size, then type. */
  function Validate(file: Option<PickedFile>): (v: Verdict)
    ensures file.None? ==> v == Invalid(NoFileReason)
    ensures file.Some? && file.value.size > MaxSizeBytes ==> v == Invalid(SizeReason)
    ensures file.Some? && file.value.size <= MaxSizeBytes && file.value.mimeType !in AllowedTypes ==>
              v == Invalid(TypeReason)
  {
    if file.None? then Invalid(NoFileReason)
    else if file.value.size > MaxSizeBytes then Invalid(SizeReason)
    else if file.value.mimeType !in AllowedTypes then Invalid(TypeReason)
    else Valid
  }

  /** A file passes exactly when it is present, at most the limit and of a
      listed type. */
  lemma ValidIff(file: Option<PickedFile>)
    ensures Validate(file).Valid? <==>
      file.Some? && file.value.size <= MaxSizeBytes && file.value.mimeType in AllowedTypes
  {
  }

  /** The limit is inclusive: a file of exactly 50 MB passes the size check,
      one byte more does not, whatever its type. */
  lemma SizeLimitInclusive(f: PickedFile)
    requires f.size == MaxSizeBytes && f.mimeType in AllowedTypes
    ensures Validate(Some(f)) == Valid
    ensures Validate(Some(f.(size := MaxSizeBytes + 1))) == Invalid(SizeReason)
  {
  }

  /** The size reason wins over the type reason. */
  lemma SizeBeforeType(f: PickedFile)
    requires f.size > MaxSizeBytes && f.mimeType !in AllowedTypes
    ensures Validate(Some(f)) == Invalid(SizeReason)
  {
  }

  /** The client's list is the server's allow-list plus Matroska video,
      and both sides use the same size limit as the storage upload. */
  lemma ListsAgree()
    ensures AllowedTypes == ValidateUpload.AllowedMimeTypes + ["video/x-matroska"]
    ensures MaxSizeBytes == ValidateUpload.MaxSizeBytes == MaxFileSize
  {
  }

  /** A file the client accepts, whose content the server identifies as the
      declared type, passes the server's check too, unless that type is
      Matroska video. */
  lemma ClientAcceptedServerAccepts(f: PickedFile, ext: string)
    requires Validate(Some(f)).Valid? && f.mimeType != "video/x-matroska"
    ensures ValidateUpload.Decide(Some(FilePart(f.mimeType, f.name, f.size)), None, true,
                                  ValidateUpload.Detected(f.mimeType, ext)) == Continue
  {
    assert f.mimeType in ValidateUpload.AllowedMimeTypes by {
      ListsAgree();
      var i :| 0 <= i < |AllowedTypes| && AllowedTypes[i] == f.mimeType;
      assert i < 7;
      assert AllowedTypes[i] == ValidateUpload.AllowedMimeTypes[i];
    }
  }

  /** A Matroska file the client accepts, sniffed as what it declares, is
      always refused by the server. */
  lemma MatroskaRefusedByServer(f: PickedFile, ext: string)
    requires f.mimeType == "video/x-matroska" && f.size <= MaxSizeBytes
    ensures Validate(Some(f)) == Valid
    ensures ValidateUpload.Decide(Some(FilePart(f.mimeType, f.name, f.size)), None, true,
                                  ValidateUpload.Detected(f.mimeType, ext))
         == Stop(400, ErrorDetected("Unsupported or invalid file type", "video/x-matroska"))
  {
    assert AllowedTypes[7] == f.mimeType;
  }
}
