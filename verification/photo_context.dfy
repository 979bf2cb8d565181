/**
 * The photo upload context: the selected file and its preview, the upload
 * state machine, progress, the processed result, the error shown to the
 * user and the retry counter; and the handlers that change them.
 *
 * Each handler is one atomic step: it takes the state before it runs and
 * returns the state after all of its setters ran, the sequence of upload
 * states it set (in order), and whether it returned or threw. The network is
 * a parameter: how every attempt of every transport would settle.
 */
module Photo {
  import opened Base
  import opened Api
  import Retry

  /** `UPLOAD_STATES` */
  datatype UploadState = Idle | Validating | Uploading | Processing | Success | Error

  /** The string each state is published as. */
  function StateName(u: UploadState): string
  {
    match u
    case Idle => "idle"
    case Validating => "validating"
    case Uploading => "uploading"
    case Processing => "processing"
    case Success => "success"
    case Error => "error"
  }

  /** A browser `File`, as far as the context looks at it. */
  datatype FileInfo = FileInfo(name: string, mimeType: string, size: nat)

  /** The context's state variables. `null` is `None`. */
  datatype PhotoState = PhotoState(
    file: Option<FileInfo>,
    preview: Option<string>,
    uploadState: UploadState,
    uploadProgress: int,
    processedImage: Option<Document>,
    error: Option<string>,
    retryCount: nat)

  /** The state a fresh provider starts in. */
  const Initial := PhotoState(None, None, Idle, 0, None, None, 0)

  const MaxFileSize: nat := 10 * 1024 * 1024
  const AllowedTypes := ["image/jpeg", "image/png"]
  const NoFileMessage := "No file selected"
  const TypeMessage := "Invalid file type. Allowed types: " + SubtypeList(AllowedTypes)
  const SizeMessage := "File too large. Maximum size: " + NatToString(MaxFileSize / 1024 / 1024) + "MB"

  /** The size message states the limit in whole megabytes. */
  lemma SizeMessageText()
    ensures SizeMessage == "File too large. Maximum size: 10MB"
  {
    assert MaxFileSize / 1024 / 1024 == 10;
    assert NatToString(10) == "10";
  }

  /**
   * `resetState`: back to the initial state, whatever came before.
   */
  function ResetState(s: PhotoState): (r: PhotoState)
    ensures r.uploadState == Idle && r.uploadProgress == 0 && r.retryCount == 0
    ensures r.file.None? && r.preview.None? && r.processedImage.None? && r.error.None?
  {
    Initial
  }

  /**
   * `validateFile`: `None` when the file passes, else the message it throws.
   * The checks run in order: missing file, then type, then size.
   */
  function ValidateFile(f: Option<FileInfo>): (r: Option<string>)
    ensures r.None? <==> f.Some? && f.value.mimeType in AllowedTypes && f.value.size <= MaxFileSize
    ensures f.None? ==> r == Some(NoFileMessage)
    ensures f.Some? && f.value.mimeType !in AllowedTypes ==> r == Some(TypeMessage)
    ensures f.Some? && f.value.mimeType in AllowedTypes && f.value.size > MaxFileSize ==> r == Some(SizeMessage)
  {
    if f.None? then Some(NoFileMessage)
    else if f.value.mimeType !in AllowedTypes then Some(TypeMessage)
    else if f.value.size > MaxFileSize then Some(SizeMessage)
    else None
  }

  /** A file of exactly 10 MiB passes; one byte more does not. */
  lemma SizeBoundary(name: string, mimeType: string)
    requires mimeType in AllowedTypes
    ensures ValidateFile(Some(FileInfo(name, mimeType, MaxFileSize))).None?
    ensures ValidateFile(Some(FileInfo(name, mimeType, MaxFileSize + 1))) == Some(SizeMessage)
  {
  }

  /** An error a handler throws: its message and, for transport errors, its status. */
  datatype Completion<+T> = Returned(value: T) | Threw(error: ApiError)

  /** What a handler did: the upload states it set, in order, and the state and completion it left. */
  datatype Step<+T> = Step(visited: seq<UploadState>, final: PhotoState, completion: Completion<T>)

  /**
   * `handleFileSelect(file)`: enter `VALIDATING`, clear the error, and
   * validate. A valid file becomes the selection, with its preview URL, and
   * the state returns to `IDLE`. An invalid one leaves the previous selection
   * alone, shows the validation message in `ERROR`, and is rethrown.
   */
  function HandleFileSelect(s: PhotoState, f: Option<FileInfo>, previewUrl: string): (r: Step<(FileInfo, string)>)
    ensures |r.visited| == 2 && r.visited[0] == Validating
    ensures r.final.uploadProgress == s.uploadProgress && r.final.retryCount == s.retryCount
    ensures r.final.processedImage == s.processedImage
    ensures ValidateFile(f).None? ==>
              && r.visited[1] == Idle && r.final.uploadState == Idle
              && r.final.file == f && r.final.preview == Some(previewUrl) && r.final.error.None?
              && r.completion == Returned((f.value, previewUrl))
    ensures ValidateFile(f).Some? ==>
              && r.visited[1] == Error && r.final.uploadState == Error
              && r.final.file == s.file && r.final.preview == s.preview
              && r.final.error == ValidateFile(f)
              && r.completion == Threw(ApiError(ValidateFile(f).value, None))
  {
    var validating := s.(uploadState := Validating, error := None);
    match ValidateFile(f)
    case None =>
      Step([Validating, Idle], validating.(file := f, preview := Some(previewUrl), uploadState := Idle),
           Returned((f.value, previewUrl)))
    case Some(msg) =>
      Step([Validating, Error], validating.(error := Some(msg), uploadState := Error), Threw(ApiError(msg, None)))
  }

  /** The three transports of the fallback chain. */
  datatype Transport = Xhr | Fetch | Json

  /** One entry of the fallback chain: the transport, its endpoint and its retry options. */
  datatype TransportConfig = TransportConfig(transport: Transport, endpoint: string, policy: Retry.Policy)

  /**
   * The fallback chain, in order: XHR with progress (3 retries from 1000 ms),
   * then `fetch` (2 retries from 1500 ms), then JSON/base64 (1 retry from 2000 ms).
   */
  const Chain := [
    TransportConfig(Xhr, "/api/process", Retry.Policy(3, 1000)),
    TransportConfig(Fetch, "/api/process", Retry.Policy(2, 1500)),
    TransportConfig(Json, "/api/process-image", Retry.Policy(1, 2000))
  ]

  /** One XHR attempt: the upload progress events it fired, then how the request ended. */
  datatype XhrAttempt = XhrAttempt(progress: seq<ProgressEvent>, exchange: Exchange)

  /**
   * How attempt `k` of each transport goes, and which XHR handler settles a
   * request that got no response (`AsWritten` for the program as it is).
   */
  datatype Network = Network(xhr: nat -> XhrAttempt, fetch: nat -> Exchange, json: nat -> JsonAttempt,
                             handlers: XhrHandlers)

  /** How call `k` of a transport's retried function settles. */
  function Settle(net: Network, t: Transport): nat -> Outcome<Document>
  {
    match t
    case Xhr => (k: nat) => XhrSettleWith(net.handlers, net.xhr(k).exchange)
    case Fetch => (k: nat) => FetchSettle(net.fetch(k))
    case Json => (k: nat) => JsonSettle(net.json(k))
  }

  /** The progress after `onProgress` ran for each event in order, starting from `current`. */
  function AfterReports(events: seq<ProgressEvent>, current: int): int
  {
    if |events| == 0 then current
    else AfterReports(events[1..], match ProgressReport(events[0]) case Some(p) => p case None => current)
  }

  /** The progress after the first `n` XHR attempts reported theirs, starting from `current`. */
  function AfterAttempts(net: Network, n: nat, current: int): int
  {
    if n == 0 then current else AfterReports(net.xhr(n - 1).progress, AfterAttempts(net, n - 1, current))
  }

  /** No XHR progress event reports more bytes loaded than its total. */
  ghost predicate ProgressWithinTotals(net: Network)
  {
    forall k: nat, e :: e in net.xhr(k).progress ==> e.loaded <= e.total
  }

  /** Folding progress reports that stay within their totals keeps a percentage a percentage. */
  lemma {:induction false} AfterReportsInRange(events: seq<ProgressEvent>, current: int)
    requires 0 <= current <= 100
    requires forall e :: e in events ==> e.loaded <= e.total
    ensures 0 <= AfterReports(events, current) <= 100
  {
    if |events| > 0 {
      var next := match ProgressReport(events[0]) case Some(p) => p case None => current;
      assert events[0] in events;
      assert forall e :: e in events[1..] ==> e in events;
      AfterReportsInRange(events[1..], next);
    }
  }

  /** Whatever number of XHR attempts ran, the progress they leave is a percentage. */
  lemma {:induction false} AfterAttemptsInRange(net: Network, n: nat, current: int)
    requires 0 <= current <= 100
    requires ProgressWithinTotals(net)
    ensures 0 <= AfterAttempts(net, n, current) <= 100
  {
    if n > 0 {
      AfterAttemptsInRange(net, n - 1, current);
      AfterReportsInRange(net.xhr(n - 1).progress, AfterAttempts(net, n - 1, current));
    }
  }

  /** The run of the retry loop of transport `Chain[i]`. */
  function LegRun(net: Network, i: nat): Retry.Run<Document>
    requires i < |Chain|
  {
    Retry.WithRetry(Settle(net, Chain[i].transport), Chain[i].policy, DefaultShouldRetry)
  }

  /**
   * What transport `Chain[i]` did on its own: its retry loop, and the
   * progress value its `onProgress` calls left, counting from 0.
   */
  datatype Attempt = Attempt(run: Retry.Run<Document>, progress: int)

  /**
   * Run transport `Chain[i]`. Only the XHR transport reports progress, and
   * what it reports is a percentage; each retry's `onRetry` receives the
   * retry's number, so the last one received is the number of retries.
   */
  function TryTransport(net: Network, i: nat): (a: Attempt)
    requires i < |Chain|
    ensures a.run == LegRun(net, i)
    ensures Chain[i].transport != Xhr ==> a.progress == 0
    ensures ProgressWithinTotals(net) ==> 0 <= a.progress <= 100
    ensures |a.run.retries| > 0 ==> a.run.retries[|a.run.retries| - 1].attempt == |a.run.retries|
  {
    var run := LegRun(net, i);
    var n := |run.retries|;
    assert n > 0 ==> Retry.RetriedAfter(Settle(net, Chain[i].transport), Chain[i].policy, DefaultShouldRetry, n - 1, run.retries[n - 1]);
    if Chain[i].transport == Xhr then
      var progress := AfterAttempts(net, run.Calls(), 0);
      assert ProgressWithinTotals(net) ==> 0 <= progress <= 100 by {
        if ProgressWithinTotals(net) {
          AfterAttemptsInRange(net, run.Calls(), 0);
        }
      }
      Attempt(run, progress)
    else Attempt(run, 0)
  }

  /** Every transport of the chain, each run on its own. */
  function Attempts(net: Network): (r: seq<Attempt>)
    ensures |r| == |Chain|
    ensures forall j :: 0 <= j < |Chain| ==> r[j] == TryTransport(net, j)
    ensures CountRetries(r)
  {
    [TryTransport(net, 0), TryTransport(net, 1), TryTransport(net, 2)]
  }

  /** Each attempt's last `onRetry` call received the number of retries it made. */
  predicate CountRetries(attempts: seq<Attempt>)
  {
    forall j :: 0 <= j < |attempts| && |attempts[j].run.retries| > 0 ==>
      attempts[j].run.retries[|attempts[j].run.retries| - 1].attempt == |attempts[j].run.retries|
  }

  /** One transport's part of an upload: which transport, the state it started from, and its retry loop. */
  datatype Leg = Leg(transport: Transport, start: PhotoState, run: Retry.Run<Document>)

  /** The state after a transport's retry loop: its progress reports and its `onRetry` calls applied. */
  function AfterLeg(start: PhotoState, a: Attempt): PhotoState
  {
    var n := |a.run.retries|;
    start.(uploadProgress := a.progress, retryCount := if n == 0 then start.retryCount else a.run.retries[n - 1].attempt)
  }

  /** Consecutive upload states one upload can set. */
  predicate Next(a: UploadState, b: UploadState)
  {
    || (a == Uploading && b in {Uploading, Processing, Error})
    || (a == Processing && b == Success)
  }

  /** Every consecutive pair of `v` is a `Next` move. */
  predicate Moves(v: seq<UploadState>)
  {
    forall i :: 0 <= i < |v| - 1 ==> Next(v[i], v[i + 1])
  }

  /** A sequence of upload states that follows `Next` and ends in a terminal state. */
  predicate Path(v: seq<UploadState>)
  {
    |v| >= 1 && v[|v| - 1] in {Success, Error} && Moves(v)
  }

  /** The message shown when the chain gives up: the last error's, or `'Upload failed'`. */
  function TerminalMessage(e: ApiError): (m: string)
    ensures m != ""
    ensures e.message != "" ==> m == e.message
    ensures e.message == "" ==> m == UploadFailed
  {
    if e.message != "" then e.message else UploadFailed
  }

  /** What an upload did: one leg per transport tried, in order, and the step it made. */
  datatype UploadRun = UploadRun(legs: seq<Leg>, step: Step<Option<Document>>)
  {
    /** How the last transport tried settled. */
    function LastOutcome(): Outcome<Document>
      requires |legs| > 0
    {
      legs[|legs| - 1].run.outcome
    }

    /** The handler's effect once the last transport tried settled with `last`. */
    predicate Settled(last: Outcome<Document>)
    {
      match last
      case Ok(doc) =>
        && step.final.uploadState == Success
        && step.final.processedImage == Some(doc)
        && step.completion == Returned(Some(doc))
      case Fail(e) =>
        && step.final.uploadState == Error
        && step.final.error == Some(TerminalMessage(e))
        && step.completion == Threw(e)
    }
  }

  /**
   * `leg` is transport `Chain[j]`'s retry loop as `attempts` records it,
   * entered in `UPLOADING` with progress 0 and the given selection.
   */
  predicate LegOf(leg: Leg, attempts: seq<Attempt>, j: nat, file: Option<FileInfo>, preview: Option<string>)
  {
    && j < |Chain| && j < |attempts|
    && leg.transport == Chain[j].transport
    && leg.run == attempts[j].run
    && leg.start.uploadState == Uploading
    && leg.start.uploadProgress == 0
    && leg.start.file == file
    && leg.start.preview == preview
  }

  /**
   * The fallback chain from transport `Chain[i]` on, entered in state `s`
   * (already `UPLOADING` with progress 0). Each transport runs its own retry
   * loop; any rejection moves on to the next transport, back in `UPLOADING`
   * with progress 0; the first fulfilment ends in `SUCCESS`; a rejection of
   * the last transport ends in `ERROR` and is rethrown. The upload states
   * returned are the ones set from here on.
   */
  function Fallback(s: PhotoState, attempts: seq<Attempt>, i: nat): (r: UploadRun)
    requires |attempts| == |Chain| && i < |Chain|
    requires s.uploadState == Uploading && s.uploadProgress == 0
    ensures 1 <= |r.legs| <= |Chain| - i
    ensures forall j :: 0 <= j < |r.legs| ==> LegOf(r.legs[j], attempts, i + j, s.file, s.preview)
    ensures forall j :: 0 <= j < |r.legs| - 1 ==> r.legs[j].run.outcome.Fail?
    ensures r.legs[0].start == s
    ensures r.step.final.file == s.file && r.step.final.preview == s.preview
    ensures r.Settled(r.LastOutcome())
    ensures r.LastOutcome().Fail? ==> i + |r.legs| == |Chain|
    decreases |Chain| - i
  {
    var a := attempts[i];
    var leg := Leg(Chain[i].transport, s, a.run);
    var after := AfterLeg(s, a);
    match a.run.outcome
    case Ok(doc) =>
      UploadRun([leg], Step([Processing, Success], after.(uploadState := Success, processedImage := Some(doc)),
                            Returned(Some(doc))))
    case Fail(e) =>
      if i + 1 < |Chain| then
        var rest := Fallback(after.(uploadState := Uploading, uploadProgress := 0), attempts, i + 1);
        UploadRun([leg] + rest.legs, rest.step.(visited := [Uploading] + rest.step.visited))
      else
        UploadRun([leg], Step([Error], after.(uploadState := Error, error := Some(TerminalMessage(e))), Threw(e)))
  }

  /** Behind an `UPLOADING`, the upload states the fallback chain sets form a path. */
  lemma {:induction false} FallbackPath(s: PhotoState, attempts: seq<Attempt>, i: nat)
    requires |attempts| == |Chain| && i < |Chain|
    requires s.uploadState == Uploading && s.uploadProgress == 0
    ensures Path([Uploading] + Fallback(s, attempts, i).step.visited)
    decreases |Chain| - i
  {
    var a := attempts[i];
    if a.run.outcome.Fail? && i + 1 < |Chain| {
      var next := AfterLeg(s, a).(uploadState := Uploading, uploadProgress := 0);
      FallbackPath(next, attempts, i + 1);
      var v := Fallback(next, attempts, i + 1).step.visited;
      assert Fallback(s, attempts, i).step.visited == [Uploading] + v;
    }
  }

  /**
   * The progress and retry counter the chain leaves are the ones the last
   * transport tried left: an earlier transport's progress was reset to 0, and
   * an earlier retry counter survives only if the last transport made no retry.
   */
  lemma {:induction false} FallbackCounters(s: PhotoState, attempts: seq<Attempt>, i: nat)
    requires |attempts| == |Chain| && i < |Chain|
    requires s.uploadState == Uploading && s.uploadProgress == 0
    ensures var r := Fallback(s, attempts, i);
            var after := AfterLeg(r.legs[|r.legs| - 1].start, attempts[i + |r.legs| - 1]);
            r.step.final.uploadProgress == after.uploadProgress && r.step.final.retryCount == after.retryCount
    decreases |Chain| - i
  {
    var a := attempts[i];
    if a.run.outcome.Fail? && i + 1 < |Chain| {
      var next := AfterLeg(s, a).(uploadState := Uploading, uploadProgress := 0);
      FallbackCounters(next, attempts, i + 1);
      var rest := Fallback(next, attempts, i + 1);
      var r := Fallback(s, attempts, i);
      assert r.legs == [Leg(Chain[i].transport, s, a.run)] + rest.legs;
      assert r.legs[|r.legs| - 1] == rest.legs[|rest.legs| - 1];
    }
  }

  /** After a rejection with a transport left, the chain is that transport's leg followed by the chain from the next one. */
  lemma FallbackStep(s: PhotoState, attempts: seq<Attempt>, i: nat)
    requires |attempts| == |Chain| && i + 1 < |Chain|
    requires s.uploadState == Uploading && s.uploadProgress == 0
    requires attempts[i].run.outcome.Fail?
    ensures Fallback(s, attempts, i).legs ==
              [Leg(Chain[i].transport, s, attempts[i].run)]
              + Fallback(AfterLeg(s, attempts[i]).(uploadState := Uploading, uploadProgress := 0), attempts, i + 1).legs
  {
  }

  /** A fulfilment, or a rejection of the last transport, ends the chain with that transport's leg alone. */
  lemma FallbackEnds(s: PhotoState, attempts: seq<Attempt>, i: nat)
    requires |attempts| == |Chain| && i < |Chain|
    requires s.uploadState == Uploading && s.uploadProgress == 0
    requires attempts[i].run.outcome.Ok? || i + 1 == |Chain|
    ensures Fallback(s, attempts, i).legs == [Leg(Chain[i].transport, s, attempts[i].run)]
  {
  }

  /** If no leg of `[leg] + rest` retried, then `leg` made no retry, and what holds of `rest` without retries applies. */
  lemma NoRetriesCons(leg: Leg, rest: seq<Leg>, base: int)
    requires |rest| > 0
    requires (forall j :: 0 <= j < |rest| ==> |rest[j].run.retries| == 0) ==> rest[|rest| - 1].start.retryCount == base
    ensures var legs := [leg] + rest;
            (forall j :: 0 <= j < |legs| ==> |legs[j].run.retries| == 0) ==>
              |leg.run.retries| == 0 && legs[|legs| - 1].start.retryCount == base
  {
    var legs := [leg] + rest;
    if forall j :: 0 <= j < |legs| ==> |legs[j].run.retries| == 0 {
      assert legs[0] == leg;
      forall j | 0 <= j < |rest|
        ensures |rest[j].run.retries| == 0
      {
        assert rest[j] == legs[j + 1];
      }
    }
  }

  /**
   * `uploadAndProcess(selectedFile)`. Without a file: `ERROR` with
   * 'No file selected', no transport, no throw. With a file that fails
   * validation: `ERROR` with the validation message, no transport, rethrown.
   * Otherwise `UPLOADING` with progress 0 and the error cleared, then the
   * fallback chain: transports strictly in chain order, each with its own
   * retry loop and starting from progress 0, each later one only after the
   * one before rejected (whatever the error), the first fulfilment ending in
   * `SUCCESS` with that result, and a rejection of the last transport ending
   * in `ERROR` with its message (or 'Upload failed') and rethrown. The
   * selected file and preview are never changed.
   */
  function UploadAndProcess(s: PhotoState, selected: Option<FileInfo>, net: Network): (r: UploadRun)
    ensures r.step.final.file == s.file && r.step.final.preview == s.preview
    ensures selected.None? ==>
              && r.legs == [] && r.step.visited == [Error]
              && r.step.final == s.(uploadState := Error, error := Some(NoFileMessage))
              && r.step.completion == Returned(None)
    ensures selected.Some? && ValidateFile(selected).Some? ==>
              && r.legs == [] && r.step.visited == [Error]
              && r.step.final == s.(uploadState := Error, error := ValidateFile(selected))
              && r.step.completion == Threw(ApiError(ValidateFile(selected).value, None))
    ensures selected.Some? && ValidateFile(selected).None? ==>
              && 1 <= |r.legs| <= |Chain|
              && |r.step.visited| > 2 && r.step.visited[..2] == [Uploading, Uploading]
              && r.legs[0].start == s.(uploadState := Uploading, uploadProgress := 0, error := None)
    ensures forall j :: 0 <= j < |r.legs| ==>
              && r.legs[j].transport == Chain[j].transport
              && r.legs[j].run == LegRun(net, j)
              && r.legs[j].start.uploadState == Uploading
              && r.legs[j].start.uploadProgress == 0
    ensures forall j :: 0 <= j < |r.legs| - 1 ==> r.legs[j].run.outcome.Fail?
    ensures |r.legs| > 0 ==> r.Settled(r.LastOutcome())
    ensures |r.legs| > 0 && r.LastOutcome().Fail? ==> |r.legs| == |Chain|
  {
    if selected.None? then
      UploadRun([], Step([Error], s.(error := Some(NoFileMessage), uploadState := Error), Returned(None)))
    else match ValidateFile(selected)
      case Some(msg) =>
        UploadRun([], Step([Error], s.(error := Some(msg), uploadState := Error), Threw(ApiError(msg, None))))
      case None =>
        ValidUpload(s.(uploadState := Uploading, uploadProgress := 0, error := None), net)
  }

  /** The valid-file branch of `uploadAndProcess`: `UPLOADING` from progress 0, then the fallback chain. */
  function ValidUpload(start: PhotoState, net: Network): (r: UploadRun)
    requires start.uploadState == Uploading && start.uploadProgress == 0
    ensures r.step.final.file == start.file && r.step.final.preview == start.preview
    ensures 1 <= |r.legs| <= |Chain|
    ensures |r.step.visited| > 2 && r.step.visited[..2] == [Uploading, Uploading]
    ensures r.legs[0].start == start
    ensures forall j :: 0 <= j < |r.legs| ==>
              && r.legs[j].transport == Chain[j].transport
              && r.legs[j].run == LegRun(net, j)
              && r.legs[j].start.uploadState == Uploading
              && r.legs[j].start.uploadProgress == 0
    ensures forall j :: 0 <= j < |r.legs| - 1 ==> r.legs[j].run.outcome.Fail?
    ensures r.Settled(r.LastOutcome())
    ensures r.LastOutcome().Fail? ==> |r.legs| == |Chain|
  {
    var fb := Fallback(start, Attempts(net), 0);
    ChainLegs(start, net);
    UploadRun(fb.legs, fb.step.(visited := [Uploading, Uploading] + fb.step.visited))
  }

  /** Leg `j` of the fallback chain is transport `Chain[j]`'s own retry loop, entered in `UPLOADING` from progress 0. */
  lemma ChainLegs(start: PhotoState, net: Network)
    requires start.uploadState == Uploading && start.uploadProgress == 0
    ensures var fb := Fallback(start, Attempts(net), 0);
            forall j :: 0 <= j < |fb.legs| ==>
              && fb.legs[j].transport == Chain[j].transport
              && fb.legs[j].run == LegRun(net, j)
              && fb.legs[j].start.uploadState == Uploading
              && fb.legs[j].start.uploadProgress == 0
  {
    var attempts := Attempts(net);
    var fb := Fallback(start, attempts, 0);
    forall j | 0 <= j < |fb.legs|
      ensures fb.legs[j].run == LegRun(net, j)
    {
      assert LegOf(fb.legs[j], attempts, j, start.file, start.preview);
      assert attempts[j] == TryTransport(net, j);
    }
  }

  /** The upload states an upload sets follow `Next` and end in `SUCCESS` or `ERROR`. */
  lemma UploadStatesFollowNext(s: PhotoState, selected: Option<FileInfo>, net: Network)
    ensures Path(UploadAndProcess(s, selected, net).step.visited)
  {
    if selected.Some? && ValidateFile(selected).None? {
      var start := s.(uploadState := Uploading, uploadProgress := 0, error := None);
      FallbackPath(start, Attempts(net), 0);
      var v := Fallback(start, Attempts(net), 0).step.visited;
      assert UploadAndProcess(s, selected, net).step.visited == [Uploading] + ([Uploading] + v);
    }
  }

  /**
   * An upload of a valid file succeeds exactly when one of the three
   * transports fulfils on its own, and then with the first such result.
   */
  lemma {:induction false} SuccessIffSomeTransportFulfils(s: PhotoState, f: FileInfo, net: Network)
    requires ValidateFile(Some(f)).None?
    ensures var r := UploadAndProcess(s, Some(f), net);
            r.step.final.uploadState == Success <==> exists j :: 0 <= j < |Chain| && LegRun(net, j).outcome.Ok?
    ensures var r := UploadAndProcess(s, Some(f), net);
            r.step.final.uploadState == Success ==>
              r.step.final.processedImage == Some(LegRun(net, |r.legs| - 1).outcome.value)
              && forall j :: 0 <= j < |r.legs| - 1 ==> LegRun(net, j).outcome.Fail?
  {
    var start := s.(uploadState := Uploading, uploadProgress := 0, error := None);
    var attempts := Attempts(net);
    var fb := Fallback(start, attempts, 0);
    var r := UploadAndProcess(s, Some(f), net);
    assert r.legs == fb.legs && r.step.final == fb.step.final by {
      UploadIsFallback(s, f, net);
    }
    AttemptRuns(net);
    FallbackSuccess(start, attempts);
  }

  /** Each attempt's run is its transport's retry loop. */
  lemma AttemptRuns(net: Network)
    ensures forall j :: 0 <= j < |Chain| ==> Attempts(net)[j].run == LegRun(net, j)
  {
  }

  /**
   * The fallback chain succeeds exactly when one of the attempts fulfilled,
   * and then with the first such result after every earlier attempt rejected.
   */
  lemma FallbackSuccess(start: PhotoState, attempts: seq<Attempt>)
    requires |attempts| == |Chain|
    requires start.uploadState == Uploading && start.uploadProgress == 0
    ensures var fb := Fallback(start, attempts, 0);
            fb.step.final.uploadState == Success <==> exists j :: 0 <= j < |Chain| && attempts[j].run.outcome.Ok?
    ensures var fb := Fallback(start, attempts, 0);
            fb.step.final.uploadState == Success ==>
              && fb.step.final.processedImage == Some(attempts[|fb.legs| - 1].run.outcome.value)
              && forall j :: 0 <= j < |fb.legs| - 1 ==> attempts[j].run.outcome.Fail?
  {
    var fb := Fallback(start, attempts, 0);
    var n := |fb.legs|;
    assert forall j :: 0 <= j < n ==> fb.legs[j].run == attempts[j].run by {
      assert forall j :: 0 <= j < n ==> LegOf(fb.legs[j], attempts, 0 + j, start.file, start.preview);
    }
    if fb.LastOutcome().Ok? {
      assert attempts[n - 1].run.outcome.Ok?;
    } else {
      // the chain gave up only after every attempt rejected
      assert forall j :: 0 <= j < |Chain| ==> attempts[j].run.outcome.Fail?;
    }
  }

  /**
   * Any rejection of a transport, retryable or not, hands the upload over to
   * the next transport: when XHR rejects, `fetch` is tried, and when `fetch`
   * rejects too, JSON is tried.
   */
  lemma AnyRejectionFallsBack(s: PhotoState, f: FileInfo, net: Network)
    requires ValidateFile(Some(f)).None?
    ensures LegRun(net, 0).outcome.Fail? ==> |UploadAndProcess(s, Some(f), net).legs| >= 2
    ensures LegRun(net, 0).outcome.Fail? && LegRun(net, 1).outcome.Fail? ==> |UploadAndProcess(s, Some(f), net).legs| == 3
  {
  }

  /**
   * When every transport rejects, the upload ends in `ERROR` showing the JSON
   * transport's error (or 'Upload failed') and rethrows it.
   */
  lemma AllTransportsRejected(s: PhotoState, f: FileInfo, net: Network)
    requires ValidateFile(Some(f)).None?
    requires forall j :: 0 <= j < |Chain| ==> LegRun(net, j).outcome.Fail?
    ensures var r := UploadAndProcess(s, Some(f), net);
            && |r.legs| == |Chain|
            && r.step.final.uploadState == Error
            && r.step.final.error == Some(TerminalMessage(LegRun(net, 2).outcome.error))
            && r.step.completion == Threw(LegRun(net, 2).outcome.error)
  {
    var r := UploadAndProcess(s, Some(f), net);
    assert r.LastOutcome() == LegRun(net, |r.legs| - 1).outcome;
  }

  /**
   * Progress and the retry counter after an upload: whatever an earlier
   * transport reported is gone once a later one ran, and the counter is never
   * reset, so an upload that made no retry at all shows the counter of an
   * earlier upload.
   */
  lemma UploadCounters(s: PhotoState, f: FileInfo, net: Network)
    requires ValidateFile(Some(f)).None?
    ensures var r := UploadAndProcess(s, Some(f), net);
            |r.legs| >= 2 ==> r.step.final.uploadProgress == 0
    ensures var r := UploadAndProcess(s, Some(f), net);
            ProgressWithinTotals(net) ==> 0 <= r.step.final.uploadProgress <= 100
    ensures var r := UploadAndProcess(s, Some(f), net);
            (forall j :: 0 <= j < |r.legs| ==> |r.legs[j].run.retries| == 0) ==> r.step.final.retryCount == s.retryCount
    ensures var r := UploadAndProcess(s, Some(f), net);
            |r.legs[|r.legs| - 1].run.retries| > 0 ==> r.step.final.retryCount == |r.legs[|r.legs| - 1].run.retries|
  {
    UploadProgress(s, f, net);
    UploadRetryCount(s, f, net);
  }

  /** The progress an upload leaves is a percentage, and 0 once a transport without progress events ran. */
  lemma UploadProgress(s: PhotoState, f: FileInfo, net: Network)
    requires ValidateFile(Some(f)).None?
    ensures var r := UploadAndProcess(s, Some(f), net);
            |r.legs| >= 2 ==> r.step.final.uploadProgress == 0
    ensures var r := UploadAndProcess(s, Some(f), net);
            ProgressWithinTotals(net) ==> 0 <= r.step.final.uploadProgress <= 100
  {
    var start := s.(uploadState := Uploading, uploadProgress := 0, error := None);
    var attempts := Attempts(net);
    var fb := Fallback(start, attempts, 0);
    var r := UploadAndProcess(s, Some(f), net);
    assert r.legs == fb.legs && r.step.final == fb.step.final by {
      UploadIsFallback(s, f, net);
    }
    var n := |fb.legs|;
    var a := attempts[n - 1];
    assert fb.step.final.uploadProgress == a.progress by {
      FallbackLastLeg(start, attempts);
    }
    assert (n >= 2 ==> a.progress == 0) && (ProgressWithinTotals(net) ==> 0 <= a.progress <= 100) by {
      assert a == TryTransport(net, n - 1);
      assert n >= 2 ==> Chain[n - 1].transport != Xhr;
    }
  }

  /** The retry counter an upload leaves: the last transport's retries, or the earlier count when no transport retried. */
  lemma UploadRetryCount(s: PhotoState, f: FileInfo, net: Network)
    requires ValidateFile(Some(f)).None?
    ensures var r := UploadAndProcess(s, Some(f), net);
            (forall j :: 0 <= j < |r.legs| ==> |r.legs[j].run.retries| == 0) ==> r.step.final.retryCount == s.retryCount
    ensures var r := UploadAndProcess(s, Some(f), net);
            |r.legs[|r.legs| - 1].run.retries| > 0 ==> r.step.final.retryCount == |r.legs[|r.legs| - 1].run.retries|
  {
    var start := s.(uploadState := Uploading, uploadProgress := 0, error := None);
    UploadIsFallback(s, f, net);
    RetryCountOfFallback(UploadAndProcess(s, Some(f), net), start, Attempts(net));
  }

  /** The retry-counter facts of the fallback chain carry over to any run with its legs and final state. */
  lemma RetryCountOfFallback(r: UploadRun, start: PhotoState, attempts: seq<Attempt>)
    requires |attempts| == |Chain| && CountRetries(attempts)
    requires start.uploadState == Uploading && start.uploadProgress == 0
    requires r.legs == Fallback(start, attempts, 0).legs && r.step.final == Fallback(start, attempts, 0).step.final
    ensures (forall j :: 0 <= j < |r.legs| ==> |r.legs[j].run.retries| == 0) ==> r.step.final.retryCount == start.retryCount
    ensures |r.legs[|r.legs| - 1].run.retries| > 0 ==> r.step.final.retryCount == |r.legs[|r.legs| - 1].run.retries|
  {
    FallbackRetryCount(start, attempts);
  }

  lemma FallbackRetryCount(start: PhotoState, attempts: seq<Attempt>)
    requires |attempts| == |Chain| && CountRetries(attempts)
    requires start.uploadState == Uploading && start.uploadProgress == 0
    ensures var fb := Fallback(start, attempts, 0);
            var retries := fb.legs[|fb.legs| - 1].run.retries;
            && (|retries| > 0 ==> fb.step.final.retryCount == |retries|)
            && ((forall j :: 0 <= j < |fb.legs| ==> |fb.legs[j].run.retries| == 0) ==> fb.step.final.retryCount == start.retryCount)
  {
    FallbackLastLeg(start, attempts);
    FallbackStartCounters(start, attempts, 0);
    var n := |Fallback(start, attempts, 0).legs|;
    assert n - 1 < |attempts|;
  }

  /**
   * The counters the fallback chain leaves are those of its last transport:
   * its progress, and its last retry's number if it retried, else the
   * counter that transport started with.
   */
  lemma FallbackLastLeg(start: PhotoState, attempts: seq<Attempt>)
    requires |attempts| == |Chain|
    requires start.uploadState == Uploading && start.uploadProgress == 0
    ensures var fb := Fallback(start, attempts, 0);
            var a := attempts[|fb.legs| - 1];
            && fb.legs[|fb.legs| - 1].run == a.run
            && fb.step.final.uploadProgress == a.progress
            && fb.step.final.retryCount ==
                 (if |a.run.retries| == 0 then fb.legs[|fb.legs| - 1].start.retryCount
                  else a.run.retries[|a.run.retries| - 1].attempt)
  {
    FallbackCounters(start, attempts, 0);
    var fb := Fallback(start, attempts, 0);
    var n := |fb.legs|;
    assert LegOf(fb.legs[n - 1], attempts, n - 1, start.file, start.preview);
  }

  /** For a valid file, the legs and the final state are those of the fallback chain entered in `UPLOADING`. */
  lemma UploadIsFallback(s: PhotoState, f: FileInfo, net: Network)
    requires ValidateFile(Some(f)).None?
    ensures var r := UploadAndProcess(s, Some(f), net);
            var fb := Fallback(s.(uploadState := Uploading, uploadProgress := 0, error := None), Attempts(net), 0);
            r.legs == fb.legs && r.step.final == fb.step.final
  {
  }

  /**
   * Every leg of the chain starts with the retry counter the state it was
   * entered from had, unless an earlier leg retried.
   */
  lemma {:induction false} FallbackStartCounters(s: PhotoState, attempts: seq<Attempt>, i: nat)
    requires |attempts| == |Chain| && i < |Chain|
    requires s.uploadState == Uploading && s.uploadProgress == 0
    ensures var r := Fallback(s, attempts, i);
            (forall j :: 0 <= j < |r.legs| ==> |r.legs[j].run.retries| == 0) ==>
              r.legs[|r.legs| - 1].start.retryCount == s.retryCount
    decreases |Chain| - i
  {
    var a := attempts[i];
    if a.run.outcome.Fail? && i + 1 < |Chain| {
      var next := AfterLeg(s, a).(uploadState := Uploading, uploadProgress := 0);
      FallbackStartCounters(next, attempts, i + 1);
      FallbackStep(s, attempts, i);
      assert |a.run.retries| == 0 ==> next.retryCount == s.retryCount;
      NoRetriesCons(Leg(Chain[i].transport, s, a.run), Fallback(next, attempts, i + 1).legs, next.retryCount);
    } else {
      FallbackEnds(s, attempts, i);
    }
  }

  /**
   * As written, an XHR request that times out is settled by the ready-state
   * handler with 'Upload failed' and status 0, which the default predicate
   * refuses: one request, no wait and no `onRetry` call, so the retry
   * counter is untouched, and `fetch` is tried next from progress 0.
   */
  lemma XhrTimeoutsFallBackToFetch(s: PhotoState, f: FileInfo, net: Network)
    requires ValidateFile(Some(f)).None?
    requires net.handlers == AsWritten
    requires net.xhr(0).exchange == TimedOut
    ensures LegRun(net, 0).Calls() == 1 && LegRun(net, 0).retries == []
    ensures LegRun(net, 0).outcome == Fail(ApiError(UploadFailed, Some(0)))
    ensures var r := UploadAndProcess(s, Some(f), net);
            && |r.legs| >= 2 && r.legs[1].transport == Fetch
            && r.legs[1].start.uploadProgress == 0 && r.legs[1].start.retryCount == s.retryCount
  {
    var fn := Settle(net, Xhr);
    assert fn(0) == Fail(ApiError(UploadFailed, Some(0)));
    Retry.NonRetryableRethrown(fn, Chain[0].policy, DefaultShouldRetry, 0);
    var start := s.(uploadState := Uploading, uploadProgress := 0, error := None);
    UploadIsFallback(s, f, net);
    SecondLegStart(start, Attempts(net));
  }

  /** After a rejection of the first transport, the second one starts where the first left off, back in `UPLOADING` at 0. */
  lemma SecondLegStart(start: PhotoState, attempts: seq<Attempt>)
    requires |attempts| == |Chain|
    requires start.uploadState == Uploading && start.uploadProgress == 0
    requires attempts[0].run.outcome.Fail?
    ensures var fb := Fallback(start, attempts, 0);
            |fb.legs| >= 2 && fb.legs[1].start == AfterLeg(start, attempts[0]).(uploadState := Uploading, uploadProgress := 0)
  {
    var next := AfterLeg(start, attempts[0]).(uploadState := Uploading, uploadProgress := 0);
    var rest := Fallback(next, attempts, 1);
    assert Fallback(start, attempts, 0).legs == [Leg(Chain[0].transport, start, attempts[0].run)] + rest.legs;
  }

  /**
   * With the intended handlers, an XHR request that keeps timing out is
   * retried: four requests go out, 1000, 2000 and 4000 ms apart, and only
   * then is `fetch` tried, from progress 0.
   */
  lemma XhrTimeoutsRetriedAsIntended(s: PhotoState, f: FileInfo, net: Network)
    requires ValidateFile(Some(f)).None?
    requires net.handlers == AsIntended
    requires forall k :: net.xhr(k).exchange == TimedOut
    ensures LegRun(net, 0).Calls() == 4
    ensures LegRun(net, 0).outcome == Fail(ApiError("Request timed out", Some(408)))
    ensures [LegRun(net, 0).retries[0].delay, LegRun(net, 0).retries[1].delay, LegRun(net, 0).retries[2].delay] == [1000, 2000, 4000]
    ensures var r := UploadAndProcess(s, Some(f), net);
            |r.legs| >= 2 && r.legs[1].transport == Fetch && r.legs[1].start.uploadProgress == 0
  {
    var fn := Settle(net, Xhr);
    assert forall k :: 0 <= k <= 3 ==> fn(k).Fail? && DefaultShouldRetry(fn(k).error);
    Retry.ExhaustedBudget(fn, Chain[0].policy, DefaultShouldRetry);
    var run := LegRun(net, 0);
    assert Retry.RetriedAfter(fn, Chain[0].policy, DefaultShouldRetry, 0, run.retries[0]);
    assert Retry.RetriedAfter(fn, Chain[0].policy, DefaultShouldRetry, 1, run.retries[1]);
    assert Retry.RetriedAfter(fn, Chain[0].policy, DefaultShouldRetry, 2, run.retries[2]);
  }

  /**
   * `retryUpload()`: upload the selected file again; without one, show
   * 'No file to retry' and reject, leaving the upload state as it was.
   */
  function RetryUpload(s: PhotoState, net: Network): (r: UploadRun)
    ensures s.file.Some? ==> r == UploadAndProcess(s, s.file, net)
    ensures s.file.None? ==>
              && r.legs == [] && r.step.visited == []
              && r.step.final == s.(error := Some("No file to retry"))
              && r.step.completion == Threw(ApiError("No file to retry", None))
  {
    if s.file.Some? then UploadAndProcess(s, s.file, net)
    else UploadRun([], Step([], s.(error := Some("No file to retry")), Threw(ApiError("No file to retry", None))))
  }
}
