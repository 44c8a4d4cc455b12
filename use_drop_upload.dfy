/** Window-wide drag and drop: a dragging flag the handlers set and clear,
    and the filter that passes on only image and video files. */
module UseDropUpload {
  import opened Wrappers
  import opened JsStrings
  import opened Lists
  import ValidateFile

  /** `file.type.startsWith('image/') || file.type.startsWith('video/')`. */
  predicate IsMediaFile(f: ValidateFile.PickedFile) {
    StartsWith(f.mimeType, "image/") || StartsWith(f.mimeType, "video/")
  }

  /** The files handed to `onDrop`, if it is called at all. */
  function Accepted(files: seq<ValidateFile.PickedFile>): (r: Option<seq<ValidateFile.PickedFile>>)
    ensures r.None? <==> forall i | 0 <= i < |files| :: !IsMediaFile(files[i])
    ensures r.Some? ==> r.value == Filter(files, IsMediaFile) && r.value != []
  {
    AcceptedNonEmpty(files);
    var allowed := Filter(files, IsMediaFile);
    if allowed == [] then None else Some(allowed)
  }

  /** The filter keeps something exactly when some file qualifies. */
  lemma AcceptedNonEmpty(files: seq<ValidateFile.PickedFile>)
    ensures Filter(files, IsMediaFile) == [] <==> forall i | 0 <= i < |files| :: !IsMediaFile(files[i])
  {
    if Filter(files, IsMediaFile) == [] {
      forall i | 0 <= i < |files| ensures !IsMediaFile(files[i]) {
        FilterMember(files, IsMediaFile, files[i]);
      }
    } else {
      FilterMember(files, IsMediaFile, Filter(files, IsMediaFile)[0]);
    }
  }

  /** A file reaches `onDrop` exactly when it was dropped and qualifies,
      and qualifying files keep their order. */
  lemma AcceptedExactly(files: seq<ValidateFile.PickedFile>, f: ValidateFile.PickedFile, more: seq<ValidateFile.PickedFile>)
    requires Accepted(files).Some?
    ensures f in Accepted(files).value <==> f in files && IsMediaFile(f)
    ensures Filter(files + more, IsMediaFile) == Accepted(files).value + Filter(more, IsMediaFile)
  {
    FilterMember(files, IsMediaFile, f);
    FilterAppend(files, more, IsMediaFile);
  }

  /** Every type on the client's upload list passes the drop filter. */
  lemma ListedTypesPass(f: ValidateFile.PickedFile)
    requires f.mimeType in ValidateFile.AllowedTypes
    ensures IsMediaFile(f)
  {
  }

  /** The filter looks only at the prefix: a type that is not on the
      upload list still gets through. */
  lemma PrefixOnly(name: string, size: nat)
    ensures IsMediaFile(ValidateFile.PickedFile(name, size, "image/svg+xml"))
    ensures ValidateFile.Validate(Some(ValidateFile.PickedFile(name, size, "image/svg+xml"))).Invalid?
  {
    assert "image/svg+xml"[..6] == "image/";
  }

  /** The hook's state. */
  class DropZone {
    var isDragging: bool

    constructor ()
      ensures !isDragging
    {
      isDragging := false;
    }

    /** `handleDragOver`. */
    method DragOver()
      modifies this
      ensures isDragging
    {
      isDragging := true;
    }

    /** `handleDragLeave`. */
    method DragLeave()
      modifies this
      ensures !isDragging
    {
      isDragging := false;
    }

    /** `handleDrop`: clears the flag and returns what `onDrop` receives,
        `None` when it is not called. */
    method Drop(files: seq<ValidateFile.PickedFile>) returns (delivered: Option<seq<ValidateFile.PickedFile>>)
      modifies this
      ensures !isDragging
      ensures delivered == Accepted(files)
    {
      isDragging := false;
      var allowed := Filter(files, IsMediaFile);
      if allowed == [] {
        return None;
      }
      delivered := Some(allowed);
    }
  }
}
