/**
 * The request validation middleware: `validateFileUpload`, which looks for
 * an image in three places (a multer file, an express-fileupload file, a
 * base64 data URL in the body) and rejects it with 400, 413 or 415; and
 * `validateBody`, which checks body fields against a schema.
 *
 * A middleware's outcome is what it passes to `next`: nothing (the request
 * goes on) or an error.
 */
module Validation {
  import opened Base
  import opened DataUrl

  /** `ValidationError`: a message and an HTTP status (400 unless given). */
  datatype ValidationError = ValidationError(message: string, statusCode: int)

  const BadRequest := 400
  const PayloadTooLarge := 413
  const UnsupportedMediaType := 415

  const MiB: nat := 1024 * 1024

  /** The options of `validateFileUpload`. The `minSize` option is read but never used. */
  datatype Options = Options(required: bool, allowedTypes: seq<string>, maxSize: nat, fieldName: string)

  const DefaultOptions := Options(true, ["image/jpeg", "image/png"], 10 * MiB, "image")

  /** A file multer put on `req.file`. */
  datatype MulterFile = MulterFile(mimetype: string, size: nat)

  /** A file express-fileupload put on `req.files`. */
  datatype UploadedFile = UploadedFile(name: string, mimetype: string, size: nat)

  /** A value read from `req.body`: `undefined`, `null`, a string, or anything else (and whether it is truthy). */
  datatype BodyValue = Undefined | Null | Text(text: string) | Other(truthy: bool)
  {
    /** JavaScript truthiness. */
    predicate Truthy()
    {
      match this
      case Undefined => false
      case Null => false
      case Text(s) => s != ""
      case Other(t) => t
    }

    /** `value === undefined || value === null || value === ''` */
    predicate Empty()
    {
      Undefined? || Null? || this == Text("")
    }
  }

  /** The parts of a request the middleware reads. A missing `req.files` or `req.body` is `None`. */
  datatype Request = Request(
    file: Option<MulterFile>,
    files: Option<map<string, UploadedFile>>,
    body: Option<map<string, BodyValue>>)

  /** `req.body[field]`, given that `req.body` exists. */
  function BodyField(body: map<string, BodyValue>, field: string): BodyValue
  {
    if field in body then body[field] else Undefined
  }

  function TypeMessage(types: seq<string>): string
  {
    "Invalid file type. Allowed types: " + SubtypeList(types)
  }

  /** The size limit as the messages state it: whole megabytes, rounded down. */
  function MegabytesText(maxSize: nat): (t: string)
    ensures forall i :: 0 <= i < |t| ==> IsDigit(t[i])
    ensures ParseDigits(t) * MiB <= maxSize < (ParseDigits(t) + 1) * MiB
  {
    ParseNatToString(maxSize / MiB);
    NatToString(maxSize / MiB)
  }

  /** The part of a name after its last '/': the longest suffix without a '/'. */
  function BaseName(name: string): (b: string)
    ensures |b| <= |name| && b == name[|name| - |b|..]
    ensures '/' !in b
    ensures |b| < |name| ==> name[|name| - |b| - 1] == '/'
  {
    match LastIndex(name, '/') case None => name case Some(i) => name[i + 1..]
  }

  /**
   * Node's `path.extname` of a file name: from the last `.` of the part
   * after the last `/`, or "" when that part has no dot, starts with its
   * only dot, or is `..`.
   */
  function ExtName(name: string): (ext: string)
    ensures ext == "" || (ext[0] == '.' && '.' !in ext[1..] && '/' !in ext)
    ensures ext != "" ==> exists i :: 0 < i < |name| && name[i..] == ext && name[i - 1] != '/'
  {
    var base := BaseName(name);
    match LastIndex(base, '.')
    case None => ""
    case Some(d) =>
      if d == 0 || base == ".." then ""
      else
        LastExtension(name, d);
        base[d..]
  }

  /** The text of a name's base from its last '.' on is an extension ending the name. */
  lemma LastExtension(name: string, d: nat)
    requires LastIndex(BaseName(name), '.') == Some(d) && d > 0
    ensures var ext := BaseName(name)[d..];
            && ext[0] == '.' && '.' !in ext[1..] && '/' !in ext
            && exists i :: 0 < i < |name| && name[i..] == ext && name[i - 1] != '/'
  {
    var base := BaseName(name);
    var i := |name| - |base| + d;
    assert base[d..] == name[i..] && name[i - 1] == base[d - 1];
    var rest := base[d..][1..];
    forall x | x in rest
      ensures x != '.'
    {
      var j :| 0 <= j < |rest| && rest[j] == x;
      assert rest[j] == base[d + 1 + j];
    }
  }

  /**
   * A name ending in one extension (a '.' and no further '.' or '/') has
   * exactly that extension, whatever directories and dots come before it,
   * as long as the part after the last '/' has a character other than '.'
   * before the extension: `my.photo.jpg`, `dir/a.png` and `.hidden.gif`
   * all qualify.
   */
  lemma ExtNameOfSuffix(stem: string, suffix: string)
    requires exists k :: 0 <= k < |stem| && stem[k] != '.' && stem[k] != '/' && '/' !in stem[k..]
    requires |suffix| >= 1 && suffix[0] == '.' && '.' !in suffix[1..] && '/' !in suffix
    ensures ExtName(stem + suffix) == suffix
  {
    var k :| 0 <= k < |stem| && stem[k] != '.' && stem[k] != '/' && '/' !in stem[k..];
    var name := stem + suffix;
    LastIndexAppend(stem, suffix, '/');
    NotInDrop(stem, k, '/');
    var start := match LastIndex(stem, '/') case None => 0 case Some(l) => l + 1;
    var tail := stem[start..];
    assert BaseName(name) == tail + suffix;
    assert tail[k - start] == stem[k];
    ExtNameOfBase(name, tail, suffix);
  }

  /** The extension of a name whose part after the last '/' is `tail + suffix`. */
  lemma ExtNameOfBase(name: string, tail: string, suffix: string)
    requires BaseName(name) == tail + suffix
    requires exists k :: 0 <= k < |tail| && tail[k] != '.'
    requires |suffix| >= 1 && suffix[0] == '.' && '.' !in suffix[1..]
    ensures ExtName(name) == suffix
  {
    var k :| 0 <= k < |tail| && tail[k] != '.';
    var base := BaseName(name);
    assert base == (tail + ['.']) + suffix[1..];
    LastIndexAppend(tail + ['.'], suffix[1..], '.');
    LastIndexIs(tail + ['.'], '.', |tail|);
    assert base[k] == tail[k];
    assert base[|tail|..] == suffix;
  }

  /** `lastIndexOf` is unaffected by text after the last occurrence that does not contain the character. */
  lemma LastIndexAppend(s: string, t: string, c: char)
    requires c !in t
    ensures LastIndex(s + t, c) == LastIndex(s, c)
  {
    var u := s + t;
    match LastIndex(s, c)
    case None =>
      assert c !in u;
    case Some(l) =>
      forall j | l < j < |u|
        ensures u[j] != c
      {
        if j >= |s| { assert u[j] == t[j - |s|]; }
      }
      LastIndexIs(u, c, l);
  }

  /** A character absent from `s[k..]` occurs at no index from `k` on. */
  lemma NotInDrop(s: string, k: nat, c: char)
    requires k <= |s| && c !in s[k..]
    ensures forall l :: k <= l < |s| ==> s[l] != c
  {
    forall l | k <= l < |s|
      ensures s[l] != c
    {
      assert s[k..][l - k] == s[l];
    }
  }

  /** An occurrence with none after it is the last one. */
  lemma LastIndexIs(s: string, c: char, i: nat)
    requires i < |s| && s[i] == c
    requires forall j :: i < j < |s| ==> s[j] != c
    ensures LastIndex(s, c) == Some(i)
  {
  }

  /**
   * The express-fileupload type test for one allowed type: the lower-cased
   * extension is `.<subtype>` (`.undefined` for a type without a `/`, as the
   * template literal writes it), or `.jpg` for `jpeg`, or the declared
   * mimetype is the type itself.
   */
  predicate MatchesType(fileExt: string, mimetype: string, t: string)
  {
    var ext := Field(t, '/', 1);
    || fileExt == "." + (match ext case Some(sub) => sub case None => "undefined")
    || (ext == Some("jpeg") && fileExt == ".jpg")
    || mimetype == t
  }

  /** `allowedTypes.some(...)`: an uploaded file matches one of the allowed types. */
  predicate ValidUploadType(file: UploadedFile, types: seq<string>)
  {
    exists i :: 0 <= i < |types| && MatchesType(ToLower(ExtName(file.name)), file.mimetype, types[i])
  }

  /**
   * `allowedTypes.some(...)` as the loop it is: the index of the first
   * matching type, if any.
   */
  method FindMatchingType(file: UploadedFile, types: seq<string>) returns (found: Option<nat>)
    ensures found.None? <==> !ValidUploadType(file, types)
    ensures found.Some? ==> found.value < |types|
    ensures found.Some? ==> MatchesType(ToLower(ExtName(file.name)), file.mimetype, types[found.value])
    ensures found.Some? ==> forall j :: 0 <= j < found.value ==>
              !MatchesType(ToLower(ExtName(file.name)), file.mimetype, types[j])
  {
    found := FirstMatch(ToLower(ExtName(file.name)), file.mimetype, types);
  }

  /** The index of the first type that an extension and a mimetype match, if any. */
  method FirstMatch(fileExt: string, mimetype: string, types: seq<string>) returns (found: Option<nat>)
    ensures found.None? <==> forall j :: 0 <= j < |types| ==> !MatchesType(fileExt, mimetype, types[j])
    ensures found.Some? ==> found.value < |types| && MatchesType(fileExt, mimetype, types[found.value])
    ensures found.Some? ==> forall j :: 0 <= j < found.value ==> !MatchesType(fileExt, mimetype, types[j])
  {
    var i := 0;
    while i < |types|
      invariant 0 <= i <= |types|
      invariant forall j :: 0 <= j < i ==> !MatchesType(fileExt, mimetype, types[j])
    {
      if MatchesType(fileExt, mimetype, types[i]) {
        return Some(i);
      }
      i := i + 1;
    }
    return None;
  }

  /** `Math.ceil(n * 3 / 4)`: the decoded size base64 text of length `n` is estimated at. */
  function ApproximateSize(n: nat): (size: nat)
    ensures 4 * size >= 3 * n && 4 * size < 3 * n + 4
  {
    (3 * n + 3) / 4
  }

  /** The check of a multer file: type, then size. */
  function CheckMulterFile(f: MulterFile, o: Options): (r: Option<ValidationError>)
    ensures r.None? <==> f.mimetype in o.allowedTypes && f.size <= o.maxSize
    ensures f.mimetype !in o.allowedTypes ==>
              r == Some(ValidationError(TypeMessage(o.allowedTypes), UnsupportedMediaType))
    ensures f.mimetype in o.allowedTypes && f.size > o.maxSize ==>
              r == Some(ValidationError("File too large. Maximum size: " + MegabytesText(o.maxSize) + "MB", PayloadTooLarge))
  {
    if f.mimetype !in o.allowedTypes then
      Some(ValidationError(TypeMessage(o.allowedTypes), UnsupportedMediaType))
    else if f.size > o.maxSize then
      Some(ValidationError("File too large. Maximum size: " + MegabytesText(o.maxSize) + "MB", PayloadTooLarge))
    else None
  }

  /** The check of an express-fileupload file: type by extension or mimetype, then size. */
  function CheckUploadedFile(f: UploadedFile, o: Options): (r: Option<ValidationError>)
    ensures r.None? <==> ValidUploadType(f, o.allowedTypes) && f.size <= o.maxSize
    ensures !ValidUploadType(f, o.allowedTypes) ==>
              r == Some(ValidationError(TypeMessage(o.allowedTypes), UnsupportedMediaType))
    ensures ValidUploadType(f, o.allowedTypes) && f.size > o.maxSize ==>
              r == Some(ValidationError("File too large. Maximum size: " + MegabytesText(o.maxSize) + "MB", PayloadTooLarge))
  {
    if !ValidUploadType(f, o.allowedTypes) then
      Some(ValidationError(TypeMessage(o.allowedTypes), UnsupportedMediaType))
    else if f.size > o.maxSize then
      Some(ValidationError("File too large. Maximum size: " + MegabytesText(o.maxSize) + "MB", PayloadTooLarge))
    else None
  }

  /** The check of a base64 data URL string in the body: prefix, media type, then estimated size. */
  function CheckDataUrl(s: string, o: Options): (r: Option<ValidationError>)
    ensures !StartsWith(s, ImagePrefix) ==>
              r == Some(ValidationError("Invalid image format. Must be a valid image data URL", UnsupportedMediaType))
    ensures r.None? <==>
              && StartsWith(s, ImagePrefix)
              && MediaType(s).Some? && MediaType(s).value in o.allowedTypes
              && ApproximateSize(|CommaPayload(s)|) <= o.maxSize
    ensures r.Some? ==> r.value.statusCode in {UnsupportedMediaType, PayloadTooLarge}
    ensures r.Some? && r.value.statusCode == PayloadTooLarge ==>
              && MediaType(s).Some? && MediaType(s).value in o.allowedTypes
              && 4 * o.maxSize < 3 * |CommaPayload(s)|
  {
    if !StartsWith(s, ImagePrefix) then
      Some(ValidationError("Invalid image format. Must be a valid image data URL", UnsupportedMediaType))
    else
      var mime := MediaType(s);
      if mime.None? || mime.value !in o.allowedTypes then
        Some(ValidationError("Invalid image type. Allowed types: " + SubtypeList(o.allowedTypes), UnsupportedMediaType))
      else if ApproximateSize(|CommaPayload(s)|) > o.maxSize then
        Some(ValidationError("Image too large. Maximum size: " + MegabytesText(o.maxSize) + "MB", PayloadTooLarge))
      else None
  }

  /** The fileupload file under the field name, if `req.files` has a truthy one. */
  function UploadedUnder(req: Request, field: string): Option<UploadedFile>
  {
    match req.files
    case None => None
    case Some(files) => if field in files then Some(files[field]) else None
  }

  /** The body value under the field name, if `req.body` has a truthy one. */
  function BodyUnder(req: Request, field: string): Option<BodyValue>
  {
    match req.body
    case None => None
    case Some(body) => if BodyField(body, field).Truthy() then Some(BodyField(body, field)) else None
  }

  /**
   * `validateFileUpload(options)` applied to a request. The first source
   * present decides alone: `req.file`, else `req.files[fieldName]`, else a
   * truthy `req.body[fieldName]` that is a string. With none of them (a
   * truthy non-string body value counts as none), a required image is a 400
   * 'No image file provided'.
   */
  function ValidateFileUpload(o: Options, req: Request): (r: Option<ValidationError>)
    ensures req.file.Some? ==> r == CheckMulterFile(req.file.value, o)
    ensures req.file.None? && UploadedUnder(req, o.fieldName).Some? ==>
              r == CheckUploadedFile(UploadedUnder(req, o.fieldName).value, o)
    ensures req.file.None? && UploadedUnder(req, o.fieldName).None? &&
            BodyUnder(req, o.fieldName).Some? && BodyUnder(req, o.fieldName).value.Text? ==>
              r == CheckDataUrl(BodyUnder(req, o.fieldName).value.text, o)
    ensures r.Some? ==> r.value.statusCode in {BadRequest, PayloadTooLarge, UnsupportedMediaType}
    ensures r.Some? && r.value.statusCode == BadRequest <==>
              && req.file.None? && UploadedUnder(req, o.fieldName).None?
              && (BodyUnder(req, o.fieldName).None? || !BodyUnder(req, o.fieldName).value.Text?)
              && o.required
    ensures r.Some? && r.value.statusCode == BadRequest ==> r.value.message == "No image file provided"
  {
    if req.file.Some? then CheckMulterFile(req.file.value, o)
    else if UploadedUnder(req, o.fieldName).Some? then CheckUploadedFile(UploadedUnder(req, o.fieldName).value, o)
    else if BodyUnder(req, o.fieldName).Some? && BodyUnder(req, o.fieldName).value.Text? then
      CheckDataUrl(BodyUnder(req, o.fieldName).value.text, o)
    else if o.required then Some(ValidationError("No image file provided", BadRequest))
    else None
  }

  /** With the default options an image is required, so a request without one never passes. */
  lemma DefaultRequiresImage(req: Request)
    requires req.file.None? && UploadedUnder(req, "image").None? && BodyUnder(req, "image").None?
    ensures ValidateFileUpload(DefaultOptions, req) == Some(ValidationError("No image file provided", BadRequest))
  {
  }

  /** A field's rules: whether it is required, and its validator, which returns `true` or the error to record. */
  datatype Rules = Rules(required: bool, validate: Option<BodyValue -> Option<string>>)

  /** What `validateBody` records for one field, if anything. */
  function FieldError(field: string, rules: Rules, value: BodyValue): (e: Option<string>)
    ensures rules.required && value.Empty() ==> e == Some(field + " is required")
    ensures !rules.required && value.Empty() ==> e.None?
    ensures !value.Empty() ==> e == (match rules.validate case None => None case Some(v) => v(value))
  {
    if rules.required && value.Empty() then Some(field + " is required")
    else if value.Empty() then None
    else match rules.validate
      case None => None
      case Some(v) => v(value)
  }

  /** The errors recorded for the schema's fields, in schema order. */
  function Errors(schema: seq<(string, Rules)>, body: map<string, BodyValue>): seq<string>
  {
    if |schema| == 0 then []
    else
      var (field, rules) := schema[|schema| - 1];
      Errors(schema[..|schema| - 1], body) + (match FieldError(field, rules, BodyField(body, field)) case None => [] case Some(e) => [e])
  }

  /** No errors are recorded exactly when every field passes. */
  lemma {:induction false} ErrorsEmptyIff(schema: seq<(string, Rules)>, body: map<string, BodyValue>)
    ensures Errors(schema, body) == [] <==>
              forall k :: 0 <= k < |schema| ==> FieldError(schema[k].0, schema[k].1, BodyField(body, schema[k].0)).None?
  {
    if |schema| > 0 {
      var init := schema[..|schema| - 1];
      ErrorsEmptyIff(init, body);
      assert forall k :: 0 <= k < |init| ==> init[k] == schema[k];
    }
  }

  /** At most one error per field. */
  lemma {:induction false} ErrorsBounded(schema: seq<(string, Rules)>, body: map<string, BodyValue>)
    ensures |Errors(schema, body)| <= |schema|
  {
    if |schema| > 0 {
      ErrorsBounded(schema[..|schema| - 1], body);
    }
  }

  /** How `validateBody` ends: the request goes on, it is rejected, or reading a field of a missing body throws. */
  datatype BodyOutcome = Pass | Reject(error: ValidationError) | ReadFailed

  /**
   * `validateBody(schema)` applied to a request: check every field in
   * schema order and reject once with 400 and all recorded messages joined
   * by ', '. Without `req.body`, reading the first field throws.
   */
  method ValidateBody(schema: seq<(string, Rules)>, body: Option<map<string, BodyValue>>) returns (r: BodyOutcome)
    ensures body.None? ==> (r.ReadFailed? <==> |schema| > 0)
    ensures body.Some? ==> !r.ReadFailed?
    ensures body.Some? ==> (r.Pass? <==> Errors(schema, body.value) == [])
    ensures body.Some? && r.Reject? ==>
              r.error == ValidationError("Validation failed: " + JoinWith(Errors(schema, body.value), ", "), BadRequest)
  {
    if body.None? {
      return if |schema| > 0 then ReadFailed else Pass;
    }
    var errors: seq<string> := [];
    var i := 0;
    while i < |schema|
      invariant 0 <= i <= |schema|
      invariant errors == Errors(schema[..i], body.value)
    {
      var (field, rules) := schema[i];
      match FieldError(field, rules, BodyField(body.value, field)) {
        case None =>
        case Some(e) => errors := errors + [e];
      }
      assert schema[..i + 1][..i] == schema[..i];
      i := i + 1;
    }
    assert schema[..i] == schema;
    if |errors| > 0 {
      return Reject(ValidationError("Validation failed: " + JoinWith(errors, ", "), BadRequest));
    }
    return Pass;
  }
}
