/**
 * The uploader component's view decisions, as functions of the photo
 * context's state: which action button is offered, whether the loading
 * animation shows and with which message and progress, the container's
 * border, the secondary button, and the image the preview shows.
 *
 * The loading message is the one the uploader hands to the animation. The
 * animation copies it into its own state when it mounts and then only
 * replaces it with random microcopy, so a message that changes while the
 * animation stays mounted (a later 'Retrying upload (n)') is not shown.
 */
module Uploader {
  import opened Base
  import opened Photo

  /** The action button offered. */
  datatype Action = CreateMagic | TryAgain | CreateAnother | NoAction

  /** `renderActionButton()`: upload in IDLE with a file, retry in ERROR, reset in SUCCESS, nothing otherwise. */
  function ActionButton(s: PhotoState): (a: Action)
    ensures a == CreateMagic <==> s.uploadState == Idle && s.file.Some?
    ensures a == TryAgain <==> s.uploadState == Error
    ensures a == CreateAnother <==> s.uploadState == Success
    ensures s.uploadState in {Uploading, Processing, Validating} ==> a == NoAction
  {
    match s.uploadState
    case Idle => if s.file.Some? then CreateMagic else NoAction
    case Uploading => NoAction
    case Processing => NoAction
    case Error => TryAgain
    case Success => CreateAnother
    case Validating => NoAction
  }

  /** The loading animation shows while uploading or processing. */
  predicate IsLoading(s: PhotoState)
  {
    s.uploadState == Uploading || s.uploadState == Processing
  }

  /** `getLoadingMessage()` */
  function LoadingMessage(s: PhotoState): (m: string)
    ensures s.uploadState == Uploading && s.retryCount > 0 ==>
              m == "Retrying upload (" + NatToString(s.retryCount) + ")"
    ensures s.uploadState == Uploading && s.retryCount == 0 ==> m == "Uploading your image"
    ensures s.uploadState == Processing ==> m == "Processing your masterpiece"
    ensures !IsLoading(s) ==> m == "Loading"
  {
    if s.uploadState == Uploading then
      if s.retryCount > 0 then "Retrying upload (" + NatToString(s.retryCount) + ")" else "Uploading your image"
    else if s.uploadState == Processing then "Processing your masterpiece"
    else "Loading"
  }

  /** The retry count can be read back from a retry message: the digits between the parentheses. */
  lemma RetryCountReadable(s: PhotoState)
    requires s.uploadState == Uploading && s.retryCount > 0
    ensures var m := LoadingMessage(s);
            var digits := m[|"Retrying upload ("|..|m| - 1];
            && (forall i :: 0 <= i < |digits| ==> IsDigit(digits[i]))
            && ParseDigits(digits) == s.retryCount
  {
    var m := LoadingMessage(s);
    assert m[|"Retrying upload ("|..|m| - 1] == NatToString(s.retryCount);
    ParseNatToString(s.retryCount);
  }

  const ContainerBase := "image-uploader p-4 rounded-lg shadow-lg bg-white max-w-md mx-auto relative"
  const ErrorBorder := " border-2 border-red-300"
  const SuccessBorder := " border-2 border-green-300"

  /** `getContainerClass()`: the base classes, with a red border in ERROR and a green one in SUCCESS. */
  function ContainerClass(s: PhotoState): (c: string)
    ensures StartsWith(c, ContainerBase)
    ensures c[|ContainerBase|..] == ErrorBorder <==> s.uploadState == Error
    ensures c[|ContainerBase|..] == SuccessBorder <==> s.uploadState == Success
    ensures c == ContainerBase <==> s.uploadState !in {Error, Success}
  {
    assert ErrorBorder[17] != SuccessBorder[17];
    if s.uploadState == Error then ContainerBase + ErrorBorder
    else if s.uploadState == Success then ContainerBase + SuccessBorder
    else ContainerBase
  }

  /** The secondary button: shown with a file when not loading; 'New Image' in SUCCESS, else 'Cancel'. */
  function SecondaryButton(s: PhotoState): (shown: Option<string>)
    ensures shown.Some? <==> s.file.Some? && !IsLoading(s)
    ensures shown.Some? ==> (shown.value == "New Image" <==> s.uploadState == Success)
    ensures shown.Some? && s.uploadState != Success ==> shown.value == "Cancel"
  {
    if s.file.Some? && !IsLoading(s) then
      Some(if s.uploadState == Success then "New Image" else "Cancel")
    else None
  }

  /** The progress handed to the loading animation: the upload progress while uploading, else null. */
  function ProgressShown(s: PhotoState): (p: Option<int>)
    ensures p.Some? <==> s.uploadState == Uploading
    ensures p.Some? ==> p.value == s.uploadProgress
  {
    if s.uploadState == Uploading then Some(s.uploadProgress) else None
  }

  /** The preview image: the processed URL in SUCCESS with a result, otherwise the local preview. */
  function PreviewSource(s: PhotoState): (src: Option<string>)
    ensures s.uploadState == Success && s.processedImage.Some? ==> src == Some(s.processedImage.value.processedUrl)
    ensures !(s.uploadState == Success && s.processedImage.Some?) ==> src == s.preview
  {
    if s.uploadState == Success && s.processedImage.Some? then Some(s.processedImage.value.processedUrl)
    else s.preview
  }

  /** While loading, neither an action nor the secondary button is offered. */
  lemma LoadingHidesControls(s: PhotoState)
    requires IsLoading(s)
    ensures ActionButton(s) == NoAction && SecondaryButton(s).None?
    ensures LoadingMessage(s) != "Loading"
  {
    if s.uploadState == Uploading && s.retryCount > 0 {
      assert LoadingMessage(s)[0] != "Loading"[0];
    } else if s.uploadState == Uploading {
      assert LoadingMessage(s)[0] != "Loading"[0];
    } else {
      assert LoadingMessage(s)[0] != "Loading"[0];
    }
  }

  /** Every state an upload settles in offers a way on: retry after an error, reset after a success. */
  lemma SettledUploadOffersAction(s: PhotoState, selected: Option<FileInfo>, net: Network)
    ensures var v := UploadAndProcess(s, selected, net).step.visited;
            ActionButton(s.(uploadState := v[|v| - 1])) != NoAction
  {
    UploadStatesFollowNext(s, selected, net);
  }
}
