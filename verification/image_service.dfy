/**
 * The image service: `validateImage`, and everything `processImage` decides
 * around the Sharp pipeline: which kind of input it was given, the original
 * size, the output format and encoder options, the result record and its URL,
 * and the prefix on every failure.
 *
 * The Sharp pipeline is a parameter: given the input and the output format
 * and options, it either returns the encoded bytes or fails with a message.
 * The file system (whether a path exists, a file's size, whether writing the
 * output fails) and the clock are parameters too.
 */
module ImageService {
  import opened Base
  import opened DataUrl

  type Byte = bv8

  /** What `processImage` may be handed. */
  datatype ImageData = Buffer(bytes: seq<Byte>) | Text(text: string) | Other

  /** Where Sharp reads the image from. */
  datatype Source = FromBuffer(bytes: seq<Byte>) | FromBase64(payload: string) | FromPath(path: string)

  /** Encoder options for the output format. */
  datatype OutputOptions = Quality(quality: nat) | CompressionLevel(level: nat) | NoOptions

  /** The world `processImage` runs in. */
  datatype Env = Env(
    vercel: bool,                                             // `process.env.VERCEL` is set
    fileExists: string -> bool,                               // `fs.existsSync`
    fileSize: string -> nat,                                  // `fs.statSync(p).size`
    now: nat,                                                 // `Date.now()`
    render: (Source, string, OutputOptions) -> Outcome<seq<Byte>>,  // the Sharp pipeline
    writeError: Option<string>)                               // the error writing the output file raises, if any

  /** An outcome: a value, or a failure with its message. */
  datatype Outcome<+T> = Done(value: T) | Failed(message: string)

  /** The options `processImage` reads: the output format ("" when absent) and the filters. */
  datatype ProcessOptions = ProcessOptions(format: string, filters: Option<seq<string>>)

  /** What `processImage` resolves with (the buffer is returned alongside). */
  datatype ProcessResult = ProcessResult(
    processed: bool,
    originalSize: nat,
    processedSize: nat,
    filters: seq<string>,
    url: string,
    buffer: seq<Byte>)

  const AllowedImageTypes := ["image/jpeg", "image/png", "image/gif"]

  /**
   * `validateImage(imageData)`: a non-empty string that starts with
   * `data:image/` and declares JPEG, PNG or GIF. Anything else, including a
   * value without `startsWith` (the call throws and is caught), is invalid.
   */
  function ValidateImage(d: ImageData): (ok: bool)
    ensures ok <==> d.Text? && StartsWith(d.text, ImagePrefix)
                    && MediaType(d.text).Some? && MediaType(d.text).value in AllowedImageTypes
  {
    match d
    case Text(s) =>
      if s == "" then false
      else if StartsWith(s, ImagePrefix) then MediaType(s).Some? && MediaType(s).value in AllowedImageTypes
      else false
    case _ => false
  }

  /** A well-formed base64 data URL of an allowed type passes `validateImage`. */
  lemma ValidDataUrl(mime: string, payload: string)
    requires mime in AllowedImageTypes
    ensures ValidateImage(Text("data:" + mime + Base64Marker + payload))
  {
    var s := "data:" + mime + Base64Marker + payload;
    assert ';' !in mime && ':' !in mime;
    assert s == "data:" + mime + ";" + ("base64," + payload);
    MediaTypeOf(mime, "base64," + payload);
    assert mime[..6] == "image/";
    assert s[..|ImagePrefix|] == ImagePrefix;
  }

  /**
   * The input dispatch: a buffer is used as it is; a string starting with
   * `data:image/` is decoded from the text after its last `;base64,`; a
   * string naming an existing file is read from it; anything else is
   * 'Invalid image data format'.
   */
  function SourceOf(d: ImageData, env: Env): (r: Outcome<Source>)
    ensures d.Buffer? ==> r == Done(FromBuffer(d.bytes))
    ensures d.Text? && StartsWith(d.text, ImagePrefix) ==> r == Done(FromBase64(Base64Payload(d.text)))
    ensures d.Text? && !StartsWith(d.text, ImagePrefix) ==>
              (r.Done? <==> env.fileExists(d.text)) && (r.Done? ==> r.value == FromPath(d.text))
    ensures d.Other? ==> r == Failed("Invalid image data format")
    ensures r.Failed? ==> r.message == "Invalid image data format"
  {
    match d
    case Buffer(bytes) => Done(FromBuffer(bytes))
    case Text(s) =>
      if StartsWith(s, ImagePrefix) then Done(FromBase64(Base64Payload(s)))
      else if env.fileExists(s) then Done(FromPath(s))
      else Failed("Invalid image data format")
    case Other => Failed("Invalid image data format")
  }

  /**
   * The original size in bytes: a buffer's length, the size of the file a
   * string names when such a file exists (which a data URL, in practice,
   * never does), and 0 otherwise.
   */
  function OriginalSize(d: ImageData, env: Env): (n: nat)
    ensures d.Buffer? ==> n == |d.bytes|
    ensures d.Text? && env.fileExists(d.text) ==> n == env.fileSize(d.text)
    ensures !d.Buffer? && !(d.Text? && env.fileExists(d.text)) ==> n == 0
  {
    match d
    case Buffer(bytes) => |bytes|
    case Text(s) => if env.fileExists(s) then env.fileSize(s) else 0
    case Other => 0
  }

  /** `options.format || 'jpeg'` */
  function OutputFormat(o: ProcessOptions): (f: string)
    ensures f != ""
    ensures o.format != "" ==> f == o.format
  {
    if o.format != "" then o.format else "jpeg"
  }

  /** JPEG is encoded at quality 90, PNG at compression level 9, anything else with no options. */
  function EncoderOptions(format: string): (o: OutputOptions)
    ensures o.Quality? <==> format == "jpeg"
    ensures o.CompressionLevel? <==> format == "png"
    ensures o.Quality? ==> o.quality == 90
    ensures o.CompressionLevel? ==> o.level == 9
  {
    if format == "jpeg" then Quality(90)
    else if format == "png" then CompressionLevel(9)
    else NoOptions
  }

  /** The URL of the output: a virtual `/api/image/<ts>` on Vercel, else the saved file under `/uploads`. */
  function OutputUrl(vercel: bool, timestamp: nat, format: string): (url: string)
    ensures vercel ==> url == "/api/image/" + NatToString(timestamp)
    ensures !vercel ==> url == "/uploads/processed_" + NatToString(timestamp) + "." + format
  {
    if vercel then "/api/image/" + NatToString(timestamp)
    else "/uploads/" + ("processed_" + NatToString(timestamp) + "." + format)
  }

  /** Distinct timestamps give distinct URLs, in either environment. */
  lemma OutputUrlInjective(vercel: bool, t1: nat, t2: nat, format: string)
    requires OutputUrl(vercel, t1, format) == OutputUrl(vercel, t2, format)
    ensures t1 == t2
  {
    var a, b := NatToString(t1), NatToString(t2);
    if vercel {
      assert a == OutputUrl(vercel, t1, format)[|"/api/image/"|..];
      assert b == OutputUrl(vercel, t2, format)[|"/api/image/"|..];
    } else {
      var prefix := "/uploads/processed_";
      var u1, u2 := OutputUrl(vercel, t1, format), OutputUrl(vercel, t2, format);
      assert u1 == prefix + a + ("." + format) && u2 == prefix + b + ("." + format);
      // the digits end where the '.' before the format starts, so both have the same length
      assert |a| == |b| by {
        assert forall k :: 0 <= k < |a| ==> u1[|prefix| + k] == a[k];
        assert forall k :: 0 <= k < |b| ==> u2[|prefix| + k] == b[k];
        assert u1[|prefix| + |a|] == '.' && u2[|prefix| + |b|] == '.';
      }
      SliceOfConcat(prefix, a, "." + format);
      SliceOfConcat(prefix, b, "." + format);
    }
    NatToStringInjective(t1, t2);
  }

  /** The middle part of a concatenation is recovered by slicing. */
  lemma SliceOfConcat(p: string, x: string, rest: string)
    ensures (p + x + rest)[|p|..|p| + |x|] == x
  {
    var s := p + x + rest;
    assert forall k :: 0 <= k < |x| ==> s[|p| + k] == x[k];
  }

  /** The prefix every failure of `processImage` is rethrown with. */
  function Prefixed(message: string): (m: string)
    ensures StartsWith(m, "Failed to process image: ")
    ensures m[|"Failed to process image: "|..] == message
  {
    "Failed to process image: " + message
  }

  /**
   * `processImage(imageData, options)`: pick the source, run the pipeline
   * with the output format and its encoder options, save the output unless
   * on Vercel, and report it; every failure on the way is rethrown with
   * 'Failed to process image: ' in front of its message.
   */
  function ProcessImage(d: ImageData, o: ProcessOptions, env: Env): (r: Outcome<ProcessResult>)
    ensures r.Failed? ==> StartsWith(r.message, "Failed to process image: ")
    ensures SourceOf(d, env).Failed? ==> r == Failed(Prefixed("Invalid image data format"))
    ensures r.Done? ==>
              && SourceOf(d, env).Done?
              && env.render(SourceOf(d, env).value, OutputFormat(o), EncoderOptions(OutputFormat(o))) == Done(r.value.buffer)
              && r.value.processed
              && r.value.originalSize == OriginalSize(d, env)
              && r.value.processedSize == |r.value.buffer|
              && r.value.filters == (match o.filters case Some(f) => f case None => ["photo-booth"])
              && r.value.url == OutputUrl(env.vercel, env.now, OutputFormat(o))
    ensures r.Failed? && SourceOf(d, env).Done? ==>
              || env.render(SourceOf(d, env).value, OutputFormat(o), EncoderOptions(OutputFormat(o))).Failed?
              || (!env.vercel && env.writeError.Some?)
  {
    match SourceOf(d, env)
    case Failed(m) => Failed(Prefixed(m))
    case Done(source) =>
      var format := OutputFormat(o);
      match env.render(source, format, EncoderOptions(format))
      case Failed(m) => Failed(Prefixed(m))
      case Done(buffer) =>
        if !env.vercel && env.writeError.Some? then Failed(Prefixed(env.writeError.value))
        else
          var filters := match o.filters case Some(f) => f case None => ["photo-booth"];
          Done(ProcessResult(true, OriginalSize(d, env), |buffer|, filters, OutputUrl(env.vercel, env.now, format), buffer))
  }
}
