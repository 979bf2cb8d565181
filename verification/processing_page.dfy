/**
 * The processing page's elapsed-time counter, its `m:ss` display, and its
 * navigation guards. The page's status is taken over the photo context's
 * upload states; the one-second interval is one `Tick`, and the random
 * status messages are left out.
 */
module ProcessingPage {
  import opened Base
  import Photo

  /** `n.toString().padStart(2, '0')` */
  function PadTwo(n: nat): (s: string)
    ensures |s| >= 2
    ensures forall i :: 0 <= i < |s| ==> IsDigit(s[i])
    ensures ParseDigits(s) == n
    ensures n < 100 ==> |s| == 2
  {
    ParseNatToString(n);
    var digits := NatToString(n);
    if |digits| < 2 then
      var s := "0" + digits;
      assert s[..|s| - 1] == "0";
      assert ParseDigits("0") == 0 by { assert "0"[..0] == ""; }
      s
    else digits
  }

  /** `Math.floor(e / 60) + ':' + (e % 60)` padded to two digits. */
  function FormatElapsed(e: nat): (text: string)
    ensures ':' in text
  {
    var t := NatToString(e / 60) + ":" + PadTwo(e % 60);
    assert t[|NatToString(e / 60)|] == ':';
    t
  }

  /**
   * The display reads back: split at ':', the seconds field is two digits
   * worth less than 60, and minutes times 60 plus seconds is the elapsed time.
   */
  lemma ElapsedReadsBack(e: nat)
    ensures var parts := Split(FormatElapsed(e), ':');
            && |parts| == 2
            && |parts[1]| == 2
            && (forall i :: 0 <= i < |parts[0]| ==> IsDigit(parts[0][i]))
            && (forall i :: 0 <= i < |parts[1]| ==> IsDigit(parts[1][i]))
            && ParseDigits(parts[1]) < 60
            && ParseDigits(parts[0]) * 60 + ParseDigits(parts[1]) == e
  {
    var m, s := NatToString(e / 60), PadTwo(e % 60);
    assert ':' !in m by { assert forall i :: 0 <= i < |m| ==> IsDigit(m[i]); }
    assert ':' !in s by { assert forall i :: 0 <= i < |s| ==> IsDigit(s[i]); }
    SplitTwo(m, s, ':');
    assert FormatElapsed(e) == m + [':'] + s;
    ParseNatToString(e / 60);
  }

  /** The elapsed line is shown only once at least a second has passed. */
  function ElapsedLine(e: nat): (line: Option<string>)
    ensures line.Some? <==> e > 0
    ensures line.Some? ==> line.value == "Time elapsed: " + FormatElapsed(e)
  {
    if e > 0 then Some("Time elapsed: " + FormatElapsed(e)) else None
  }

  /** The counter runs while uploading or processing. */
  predicate Active(status: Photo.UploadState)
  {
    status == Photo.Uploading || status == Photo.Processing
  }

  /** The effect on a status change: an active status restarts the counter at 0; any other stops it where it is. */
  function OnStatus(status: Photo.UploadState, elapsed: nat): (e: nat)
    ensures Active(status) ==> e == 0
    ensures !Active(status) ==> e == elapsed
  {
    if Active(status) then 0 else elapsed
  }

  /** One tick of the interval, which only runs while the status is active. */
  function Tick(status: Photo.UploadState, elapsed: nat): (e: nat)
    ensures Active(status) ==> e == elapsed + 1
    ensures !Active(status) ==> e == elapsed
  {
    if Active(status) then elapsed + 1 else elapsed
  }

  /** The counter after entering `status` and `k` ticks. */
  function AfterTicks(status: Photo.UploadState, elapsed: nat, k: nat): nat
  {
    if k == 0 then OnStatus(status, elapsed) else Tick(status, AfterTicks(status, elapsed, k - 1))
  }

  /** After entering an active status, `k` ticks show exactly `k` seconds; an inactive status freezes the count. */
  lemma {:induction false} CountsTicks(status: Photo.UploadState, elapsed: nat, k: nat)
    ensures Active(status) ==> AfterTicks(status, elapsed, k) == k
    ensures !Active(status) ==> AfterTicks(status, elapsed, k) == elapsed
  {
    if k > 0 {
      CountsTicks(status, elapsed, k - 1);
    }
  }

  /** What the mount effect does. */
  datatype MountAction = GoToUpload | StartProcessing | Wait

  /** Without an original photo the page goes back to `/upload`; processing starts only from IDLE. */
  function OnMount(hasOriginal: bool, status: Photo.UploadState): (a: MountAction)
    ensures a == GoToUpload <==> !hasOriginal
    ensures a == StartProcessing <==> hasOriginal && status == Photo.Idle
  {
    if !hasOriginal then GoToUpload
    else if status == Photo.Idle then StartProcessing
    else Wait
  }

  /** The page moves on to `/result` once the status is SUCCESS and a processed photo exists. */
  function GoesToResult(status: Photo.UploadState, hasProcessed: bool): (b: bool)
    ensures b <==> status == Photo.Success && hasProcessed
  {
    status == Photo.Success && hasProcessed
  }

  /** The error view replaces the page when there is an error message or the status is ERROR. */
  function ShowsError(error: Option<string>, status: Photo.UploadState): (b: bool)
    ensures b <==> (error.Some? && error.value != "") || status == Photo.Error
  {
    (error.Some? && error.value != "") || status == Photo.Error
  }

  /**
   * However an upload ends, the page leaves the spinner: a success carries
   * the processed photo and moves on to the result, and every other ending
   * shows the error view.
   */
  lemma SettledUploadLeavesPage(s: Photo.PhotoState, selected: Option<Photo.FileInfo>, net: Photo.Network)
    ensures var f := Photo.UploadAndProcess(s, selected, net).step.final;
            && (f.uploadState == Photo.Success ==> GoesToResult(f.uploadState, f.processedImage.Some?))
            && (f.uploadState != Photo.Success ==> ShowsError(f.error, f.uploadState))
  {
    var r := Photo.UploadAndProcess(s, selected, net);
    if |r.legs| > 0 {
      assert r.Settled(r.LastOutcome());
    }
  }

  /** Processing is never started twice: once the status has left IDLE, mounting again waits. */
  lemma NoRestart(status: Photo.UploadState)
    requires status != Photo.Idle
    ensures OnMount(true, status) == Wait
  {
  }
}
