/**
 * The image controller: `processImage` (find the image in the request,
 * check it, hand it to the image service, store a record of the result and
 * answer), and the two read endpoints over the in-memory record store,
 * `getImageById` and `getAllImages`.
 *
 * The store is a value passed in and returned. The file system, the clock
 * and the image service's world are parameters.
 */
module ImageController {
  import opened Base
  import Validation
  import ImageService

  type Byte = ImageService.Byte

  /** A file multer put on `req.file`: its temp path ("" when none) and its in-memory buffer, if kept. */
  datatype MulterUpload = MulterUpload(path: string, buffer: Option<seq<Byte>>)

  /** The parts of the request `processImage` reads. */
  datatype Request = Request(
    file: Option<MulterUpload>,
    uploadedName: Option<string>,          // `req.files.image.name`, if present
    image: Validation.BodyValue,           // `req.body.image`
    filters: Option<seq<string>>,          // `req.body.filters`, if truthy
    rawFormat: bool)                       // `req.query.format === 'raw'`

  /** One record of the store. */
  datatype ImageRecord = ImageRecord(id: string, originalSize: nat, processedSize: nat, processedUrl: string, createdAt: string)

  /** A record as the read endpoints show it. */
  datatype ImageView = ImageView(id: string, url: string, createdAt: string)

  /** A response: JSON (with `message` at the top level, and `result.{id, processedUrl}` on success) or the raw image. */
  datatype Response =
    | Json(status: int, success: bool, message: string, result: Option<(string, string)>)
    | Raw(contentType: string, fileName: string, bytes: seq<Byte>)

  /** The world `processImage` runs in. */
  datatype Env = Env(
    uploadsDir: string,
    fileStamp: nat,                                   // `Date.now()` naming the saved upload
    idStamp: nat,                                     // `Date.now()` naming the record
    createdAt: string,                                // `new Date().toISOString()`
    moveError: Option<string>,                        // the error `file.mv` reports, if any
    readFile: string -> ImageService.Outcome<seq<Byte>>,  // `fs.readFileSync`
    service: ImageService.Env)

  /** What `processImage` did: its response, the store after it, and the temp file it removed, if any. */
  datatype Handled = Handled(response: Response, store: seq<ImageRecord>, removed: Option<string>)

  const MaxSizeBytes: nat := 10 * 1024 * 1024
  const ExampleUrl := "https://example.com/processed-image.jpg"

  function Rejection(message: string): Response
  {
    Json(400, false, message, None)
  }

  /** Where the image comes from, once found: its data and the path of a temp file holding it ("" when none). */
  datatype Found = Found(data: ImageService.ImageData, filePath: string)

  /** The image was found, or the request is refused with this response. */
  datatype Located = Image(found: Found) | Refused(response: Response)

  /**
   * The input precedence: `req.file` (its buffer, else the file read back
   * from its path), then `req.files.image` (moved under the uploads
   * directory, then read back), then a truthy `req.body.image`, which must be
   * a string passing `validateImage`. The outcome is the image found, a 400
   * response, or a failure message.
   */
  function FindImage(req: Request, env: Env): (r: ImageService.Outcome<Located>)
    ensures req.file.Some? && req.file.value.buffer.Some? ==>
              r == ImageService.Done(Image(Found(ImageService.Buffer(req.file.value.buffer.value), req.file.value.path)))
    ensures req.file.Some? && req.file.value.buffer.None? ==>
              var read := env.readFile(req.file.value.path);
              && (read.Done? ==> r == ImageService.Done(Image(Found(ImageService.Buffer(read.value), req.file.value.path))))
              && (read.Failed? ==> r == ImageService.Failed(read.message))
    ensures req.file.None? && req.uploadedName.Some? && env.moveError.Some? ==>
              r == ImageService.Failed(env.moveError.value)
    ensures req.file.None? && req.uploadedName.Some? && env.moveError.None? ==>
              var saved := env.uploadsDir + "/" + NatToString(env.fileStamp) + "-" + req.uploadedName.value;
              var read := env.readFile(saved);
              && (read.Done? ==> r == ImageService.Done(Image(Found(ImageService.Buffer(read.value), saved))))
              && (read.Failed? ==> r == ImageService.Failed(read.message))
    ensures req.file.None? && req.uploadedName.None? && req.image.Truthy() && !req.image.Text? ==>
              r == ImageService.Done(Refused(Rejection("Image data must be a base64 string")))
    ensures req.file.None? && req.uploadedName.None? && req.image.Truthy() && req.image.Text? ==>
              r == ImageService.Done(
                     if ImageService.ValidateImage(ImageService.Text(req.image.text))
                     then Image(Found(ImageService.Text(req.image.text), ""))
                     else Refused(Rejection("Invalid image data format")))
    ensures req.file.None? && req.uploadedName.None? && !req.image.Truthy() ==>
              r == ImageService.Done(Refused(Rejection("No image found in request")))
    ensures r.Done? && r.value.Refused? ==> req.file.None? && req.uploadedName.None?
  {
    if req.file.Some? then
      var f := req.file.value;
      match f.buffer
      case Some(bytes) => ImageService.Done(Image(Found(ImageService.Buffer(bytes), f.path)))
      case None =>
        match env.readFile(f.path)
        case Done(bytes) => ImageService.Done(Image(Found(ImageService.Buffer(bytes), f.path)))
        case Failed(m) => ImageService.Failed(m)
    else if req.uploadedName.Some? then
      var filePath := env.uploadsDir + "/" + NatToString(env.fileStamp) + "-" + req.uploadedName.value;
      if env.moveError.Some? then ImageService.Failed(env.moveError.value)
      else match env.readFile(filePath)
        case Done(bytes) => ImageService.Done(Image(Found(ImageService.Buffer(bytes), filePath)))
        case Failed(m) => ImageService.Failed(m)
    else if req.image.Truthy() then
      match req.image
      case Text(s) =>
        if ImageService.ValidateImage(ImageService.Text(s)) then ImageService.Done(Image(Found(ImageService.Text(s), "")))
        else ImageService.Done(Refused(Rejection("Invalid image data format")))
      case _ => ImageService.Done(Refused(Rejection("Image data must be a base64 string")))
    else ImageService.Done(Refused(Rejection("No image found in request")))
  }

  /** `imageData.length`: bytes of a buffer, characters of a string. */
  function DataLength(d: ImageService.ImageData): nat
  {
    match d
    case Buffer(bytes) => |bytes|
    case Text(s) => |s|
    case Other => 0
  }

  /** The temp file removed after the request, if it was saved and still exists. */
  function RemovedFile(filePath: string, env: Env): (r: Option<string>)
    ensures r.Some? <==> filePath != "" && env.service.fileExists(filePath)
    ensures r.Some? ==> r.value == filePath
  {
    if filePath != "" && env.service.fileExists(filePath) then Some(filePath) else None
  }

  const FailurePrefix := "Failed to process image: "

  /** The options handed to the image service: the request's filters, or `['auto-enhance']`. */
  function ServiceOptions(req: Request): (o: ImageService.ProcessOptions)
    ensures o.format == "" && o.filters.Some?
    ensures req.filters.Some? ==> o.filters.value == req.filters.value
    ensures req.filters.None? ==> o.filters.value == ["auto-enhance"]
  {
    ImageService.ProcessOptions("", Some(match req.filters case Some(f) => f case None => ["auto-enhance"]))
  }

  /**
   * `processImage(req, res)`. A request rejected by the input rules or the
   * 10 MiB limit gets a 400 and leaves the store alone; one the image
   * service processes appends exactly one record, whose URL falls back to
   * the example URL when the service gave none; any failure is a 500 whose
   * message carries the failure's after 'Failed to process image: '. The
   * temp file is removed after an oversized image and after a JSON success;
   * a raw response returns before the cleanup, and a failure skips it.
   */
  function ProcessImage(req: Request, store: seq<ImageRecord>, env: Env): (h: Handled)
    ensures h.store == store || (|h.store| == |store| + 1 && h.store[..|store|] == store)
    ensures h.response.Json? && h.response.status == 400 ==> h.store == store && !h.response.success
    ensures h.response.Json? ==> h.response.status in {200, 400, 500}
    ensures h.response.Json? && h.response.status == 500 ==>
              h.store == store && !h.response.success && StartsWith(h.response.message, FailurePrefix)
    ensures |h.store| == |store| + 1 <==> h.response.Raw? || h.response.status == 200
    ensures |h.store| == |store| + 1 ==>
              var rec := h.store[|store|];
              && rec.id == NatToString(env.idStamp)
              && rec.createdAt == env.createdAt
              && rec.processedUrl != ""
              && (h.response.Json? ==> h.response.result == Some((rec.id, rec.processedUrl)) && h.response.success)
              && (h.response.Raw? ==> h.response.fileName == "processed_" + rec.id + ".jpg")
    ensures FindImage(req, env).Failed? ==>
              h == Handled(Json(500, false, FailurePrefix + FindImage(req, env).message, None), store, None)
    ensures FindImage(req, env).Done? && FindImage(req, env).value.Refused? ==>
              h == Handled(FindImage(req, env).value.response, store, None)
    ensures FindImage(req, env).Done? && FindImage(req, env).value.Image? ==>
              var found := FindImage(req, env).value.found;
              var svc := ImageService.ProcessImage(found.data, ServiceOptions(req), env.service);
              && (DataLength(found.data) > MaxSizeBytes ==>
                    h == Handled(Rejection("Image size exceeds the maximum limit of 10MB"), store, RemovedFile(found.filePath, env)))
              && (DataLength(found.data) <= MaxSizeBytes && svc.Failed? ==>
                    h == Handled(Json(500, false, FailurePrefix + svc.message, None), store, None))
              && (DataLength(found.data) <= MaxSizeBytes && svc.Done? ==>
                    && h.store == store + [ImageRecord(NatToString(env.idStamp), svc.value.originalSize, svc.value.processedSize,
                                                       if svc.value.url != "" then svc.value.url else ExampleUrl, env.createdAt)]
                    && (h.response.Raw? <==> req.rawFormat)
                    && (req.rawFormat ==> h.response.contentType == "image/jpeg" && h.response.bytes == svc.value.buffer && h.removed.None?)
                    && (!req.rawFormat ==> h.response.status == 200 && h.removed == RemovedFile(found.filePath, env)))
  {
    match FindImage(req, env)
    case Failed(m) => Handled(Json(500, false, FailurePrefix + m, None), store, None)
    case Done(Refused(rejection)) => Handled(rejection, store, None)
    case Done(Image(found)) =>
      if DataLength(found.data) > MaxSizeBytes then
        Handled(Rejection("Image size exceeds the maximum limit of 10MB"), store, RemovedFile(found.filePath, env))
      else
        match ImageService.ProcessImage(found.data, ServiceOptions(req), env.service)
        case Failed(m) => Handled(Json(500, false, FailurePrefix + m, None), store, None)
        case Done(result) =>
          var id := NatToString(env.idStamp);
          var url := if result.url != "" then result.url else ExampleUrl;
          var rec := ImageRecord(id, result.originalSize, result.processedSize, url, env.createdAt);
          var response := if req.rawFormat then Raw("image/jpeg", "processed_" + id + ".jpg", result.buffer)
                          else Json(200, true, "Image processed successfully", Some((id, url)));
          Handled(response, store + [rec], if req.rawFormat then None else RemovedFile(found.filePath, env))
  }

  /**
   * A failure inside the image service reaches the client with the prefix
   * twice: the service adds it and the controller adds it again.
   */
  lemma ServiceFailureDoublePrefixed(req: Request, store: seq<ImageRecord>, env: Env, found: Found, m: string)
    requires FindImage(req, env) == ImageService.Done(Image(found))
    requires DataLength(found.data) <= MaxSizeBytes
    requires ImageService.ProcessImage(found.data, ServiceOptions(req), env.service) == ImageService.Failed(m)
    ensures var r := ProcessImage(req, store, env).response;
            r.Json? && r.status == 500 && StartsWith(r.message, FailurePrefix + FailurePrefix)
  {
    var r := ProcessImage(req, store, env).response;
    assert r.message == FailurePrefix + m;
    var rest := m[|FailurePrefix|..];
    assert m == FailurePrefix + rest;
    assert r.message == (FailurePrefix + FailurePrefix) + rest;
  }

  /** An oversized image is refused with a 400, and the temp file it was saved to, if any, is removed. */
  lemma OversizedRejected(req: Request, store: seq<ImageRecord>, env: Env, found: Found)
    requires FindImage(req, env) == ImageService.Done(Image(found))
    requires DataLength(found.data) > MaxSizeBytes
    ensures ProcessImage(req, store, env) ==
              Handled(Json(400, false, "Image size exceeds the maximum limit of 10MB", None), store,
                      if found.filePath != "" && env.service.fileExists(found.filePath) then Some(found.filePath) else None)
  {
  }

  /** `processedImages.find(img => img.id === id)`: the index of the first record with that id. */
  function FindFirst(store: seq<ImageRecord>, id: string): (r: Option<nat>)
    ensures r.Some? ==> r.value < |store| && store[r.value].id == id
    ensures r.Some? ==> forall j :: 0 <= j < r.value ==> store[j].id != id
    ensures r.None? <==> forall j :: 0 <= j < |store| ==> store[j].id != id
  {
    if |store| == 0 then None
    else if store[0].id == id then Some(0)
    else match FindFirst(store[1..], id)
      case None => None
      case Some(i) => Some(i + 1)
  }

  /** The view of a record. */
  function View(rec: ImageRecord): ImageView
  {
    ImageView(rec.id, rec.processedUrl, rec.createdAt)
  }

  /** What `getImageById` answers: the view of the record, or 404 'Image not found'. */
  datatype Lookup = FoundImage(image: ImageView) | NotFound(status: int, message: string)

  /** `getImageById`: the first record with an equal id, or 404 if there is none. */
  function GetImageById(store: seq<ImageRecord>, id: string): (r: Lookup)
    ensures r.FoundImage? <==> exists j :: 0 <= j < |store| && store[j].id == id
    ensures r.FoundImage? ==> r.image.id == id && exists j :: 0 <= j < |store| && r.image == View(store[j])
    ensures r.NotFound? ==> r == NotFound(404, "Image not found")
  {
    match FindFirst(store, id)
    case None => NotFound(404, "Image not found")
    case Some(i) => FoundImage(View(store[i]))
  }

  /** When ids repeat, the earliest record wins. */
  lemma EarliestRecordWins(store: seq<ImageRecord>, i: nat, id: string)
    requires i < |store| && store[i].id == id
    requires forall j :: 0 <= j < i ==> store[j].id != id
    ensures GetImageById(store, id) == FoundImage(View(store[i]))
  {
  }

  /** `getAllImages`: every record's view, in store order. */
  function GetAllImages(store: seq<ImageRecord>): (views: seq<ImageView>)
    ensures |views| == |store|
    ensures forall j :: 0 <= j < |store| ==> views[j] == View(store[j])
  {
    seq(|store|, j requires 0 <= j < |store| => View(store[j]))
  }

  /** A record appended by `processImage` is found by its id unless an earlier record has the same id. */
  lemma {:induction false} StoredRecordFound(req: Request, store: seq<ImageRecord>, env: Env)
    requires |ProcessImage(req, store, env).store| == |store| + 1
    requires forall j :: 0 <= j < |store| ==> store[j].id != NatToString(env.idStamp)
    ensures var s := ProcessImage(req, store, env).store;
            GetImageById(s, NatToString(env.idStamp)) == FoundImage(View(s[|store|]))
            && GetAllImages(s)[|store|] == View(s[|store|])
  {
    var s := ProcessImage(req, store, env).store;
    assert forall j :: 0 <= j < |store| ==> s[j] == store[j];
    EarliestRecordWins(s, |store|, NatToString(env.idStamp));
  }
}
