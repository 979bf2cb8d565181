/**
 * The drop zone's client-side check and drop handler. The check looks at the
 * size before the type (the photo context tests them the other way round).
 * A drop keeps only its first file; reading that file into a data URL and
 * handing it on is represented by the file the handler would read.
 */
module DropZone {
  import opened Base
  import Photo

  const MaxFileSize: nat := 10 * 1024 * 1024
  const AcceptedTypes := ["image/jpeg", "image/png"]
  const SizeMessage := "File is too large. Maximum size is 10MB."
  const TypeMessage := "Unsupported file type. Please upload a JPEG or PNG image."
  const RejectedMessage := "File rejected. Please check file type and size."

  /** `validateFile(file)`: the size message, else the type message, else nothing. */
  function ValidateFile(f: Photo.FileInfo): (r: Option<string>)
    ensures r.None? <==> f.size <= MaxFileSize && f.mimeType in AcceptedTypes
    ensures f.size > MaxFileSize ==> r == Some(SizeMessage)
    ensures f.size <= MaxFileSize && f.mimeType !in AcceptedTypes ==> r == Some(TypeMessage)
  {
    if f.size > MaxFileSize then Some(SizeMessage)
    else if f.mimeType !in AcceptedTypes then Some(TypeMessage)
    else None
  }

  /** The component's state: the validation error shown, if any. */
  datatype DropState = DropState(validationError: Option<string>)

  /** What a drop leads to: the new state, and the file read and handed to `onImageSelect`, if any. */
  datatype Dropped = Dropped(state: DropState, read: Option<Photo.FileInfo>)

  /**
   * `onDrop(acceptedFiles)`: an empty list changes nothing; otherwise the
   * first file alone is checked, and either its message is shown and it is
   * not read, or the error is cleared and it is read.
   */
  function OnDrop(s: DropState, accepted: seq<Photo.FileInfo>): (r: Dropped)
    ensures |accepted| == 0 ==> r == Dropped(s, None)
    ensures |accepted| > 0 && ValidateFile(accepted[0]).Some? ==>
              r == Dropped(DropState(ValidateFile(accepted[0])), None)
    ensures |accepted| > 0 && ValidateFile(accepted[0]).None? ==>
              r == Dropped(DropState(None), Some(accepted[0]))
    ensures r.read.Some? ==> r.state.validationError.None?
  {
    if |accepted| == 0 then Dropped(s, None)
    else
      var file := accepted[0];
      match ValidateFile(file)
      case Some(message) => Dropped(DropState(Some(message)), None)
      case None => Dropped(DropState(None), Some(file))
  }

  /** `onDropRejected()`: the generic rejection message. */
  function OnDropRejected(s: DropState): (r: DropState)
    ensures r.validationError == Some(RejectedMessage)
  {
    DropState(Some(RejectedMessage))
  }

  /** Files after the first do not influence a drop. */
  lemma OnlyFirstFileCounts(s: DropState, f: Photo.FileInfo, rest1: seq<Photo.FileInfo>, rest2: seq<Photo.FileInfo>)
    ensures OnDrop(s, [f] + rest1) == OnDrop(s, [f] + rest2)
  {
    assert ([f] + rest1)[0] == f && ([f] + rest2)[0] == f;
  }

  /**
   * The drop zone and the photo context accept exactly the same files, but
   * an oversized file of the wrong type gets the size complaint here and the
   * type complaint there.
   */
  lemma AgreesWithPhotoContext(f: Photo.FileInfo)
    ensures ValidateFile(f).None? <==> Photo.ValidateFile(Some(f)).None?
    ensures f.size > MaxFileSize && f.mimeType !in AcceptedTypes ==>
              ValidateFile(f) == Some(SizeMessage) && Photo.ValidateFile(Some(f)) == Some(Photo.TypeMessage)
  {
  }
}
