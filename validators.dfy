/**
 * The upload validation pipeline of utils/validators.py: extension, declared
 * MIME type, size, magic-number signature and image integrity, run in that
 * order, the first failing check deciding the error. The integrity step
 * (decoding with an imaging library) is a parameter of the model.
 */
module Validators {
  import opened Prelude
  import opened Config
  import opened Errors

  datatype Upload = Upload(filename: string, contentType: string, content: Bytes)

  datatype ImageMetadata = ImageMetadata(width: int, height: int, format: string, mode: string)

  /** What validation hands on: the (possibly repaired) bytes and the decoded metadata. */
  datatype ValidatedImage = ValidatedImage(content: Bytes, metadata: ImageMetadata)

  /**
   * The integrity step: decodes the bytes, possibly re-encoding them, and
   * either gives the metadata with the bytes to use or the reason it failed.
   */
  type IntegrityCheck = Bytes -> Result<(ImageMetadata, Bytes), string>

  const NO_FILENAME_MESSAGE := "No filename provided."
  const MIME_MESSAGE := "Unsupported file type. Please upload a valid image file (JPG, PNG, GIF, WebP, or BMP)."
  const EMPTY_FILE_MESSAGE := "File is empty. Please upload a valid image."
  const SIGNATURE_MESSAGE := "Invalid image file. Please upload a valid image (JPG, PNG, GIF, WebP, or BMP)."
  const OCTET_STREAM := "application/octet-stream"

  // ---------------------------------------------------------------------------
  // Extension

  function LowerChar(c: char): char {
    if 'A' <= c <= 'Z' then (c as int + 32) as char else c
  }

  /** `str.lower()` on ASCII letters; other characters are kept. */
  function ToLower(s: string): (r: string)
    ensures |r| == |s| && forall i :: 0 <= i < |s| ==> r[i] == LowerChar(s[i])
  {
    seq(|s|, i requires 0 <= i < |s| => LowerChar(s[i]))
  }

  /**
   * `s.split(sep)[-1]`: the longest suffix of `s` without `sep`, which is
   * either all of `s` or preceded by `sep`.
   */
  function AfterLast(s: string, sep: char): (r: string)
    ensures sep !in r
    ensures |r| <= |s| && r == s[|s| - |r|..]
    ensures |r| < |s| ==> s[|s| - |r| - 1] == sep
    decreases |s|
  {
    if |s| == 0 then s
    else if s[|s| - 1] == sep then []
    else AfterLast(s[..|s| - 1], sep) + [s[|s| - 1]]
  }

  /**
   * `filename.split('.')[-1].lower()`: the lower-cased text after the last
   * dot, or the whole lower-cased name when it has no dot.
   */
  function FileExtension(filename: string): (ext: string)
    ensures '.' !in ext
    ensures |ext| <= |filename| && ext == ToLower(filename)[|filename| - |ext|..]
    ensures |ext| < |filename| ==> filename[|filename| - |ext| - 1] == '.'
    ensures '.' !in filename ==> ext == ToLower(filename)
  {
    var lower := ToLower(filename);
    var ext := AfterLast(lower, '.');
    assert forall i :: 0 <= i < |filename| ==> (lower[i] == '.' <==> filename[i] == '.');
    ext
  }

  /** The extension of `stem.ext` is the lower-cased `ext`, whatever dots `stem` holds. */
  lemma ExtensionOfDottedName(stem: string, ext: string)
    requires '.' !in ext
    ensures FileExtension(stem + "." + ext) == ToLower(ext)
  {
    var name := ToLower(stem + "." + ext);
    var r := FileExtension(stem + "." + ext);
    var n := |name|;
    assert name[n - |ext| - 1] == '.';
    assert r == name[n - |ext|..];
  }

  /** A name without a dot is its own extension: "png" alone is accepted. */
  lemma DotlessNameIsItsOwnExtension(name: string)
    requires '.' !in name
    ensures FileExtension(name) == ToLower(name)
  {
  }

  function ValidateFileExtension(filename: string): (r: Result<string, ApiError>)
    ensures r.Success? <==> |filename| > 0 && FileExtension(filename) in ALLOWED_EXTENSIONS
    ensures r.Success? ==> r.value == FileExtension(filename)
    ensures r.Failure? ==> r.error.InvalidFileFormat?
  {
    if |filename| == 0 then
      Failure(InvalidFileFormat(NO_FILENAME_MESSAGE))
    else
      var extension := FileExtension(filename);
      if extension !in ALLOWED_EXTENSIONS then
        Failure(InvalidFileFormat("Unsupported file type '." + extension + "'. Supported: JPG, PNG, GIF, WebP, BMP"))
      else
        Success(extension)
  }

  // ---------------------------------------------------------------------------
  // MIME type and size

  function ValidateMimeType(contentType: string): (r: Outcome<ApiError>)
    ensures r.Pass? <==> contentType == OCTET_STREAM || contentType in ALLOWED_MIME_TYPES
    ensures r.Fail? ==> r == Fail(InvalidFileFormat(MIME_MESSAGE))
  {
    if contentType == OCTET_STREAM then Pass
    else if contentType !in ALLOWED_MIME_TYPES then Fail(InvalidFileFormat(MIME_MESSAGE))
    else Pass
  }

  const MEBIBYTE: int := 1048576

  /**
   * The size in tenths of a MiB, rounded to the nearest tenth with ties to
   * even (the quotient `size / 1024 / 1024` is exact in binary floating point).
   */
  function TenthsOfMebibyte(size: nat): (t: nat)
    ensures -MEBIBYTE <= 2 * (size * 10 - t * MEBIBYTE) <= MEBIBYTE
    ensures 2 * (size * 10 - t * MEBIBYTE) == MEBIBYTE ==> t % 2 == 0
    ensures 2 * (size * 10 - t * MEBIBYTE) == -MEBIBYTE ==> t % 2 == 0
  {
    var scaled := size * 10;
    var q, rem := scaled / MEBIBYTE, scaled % MEBIBYTE;
    if 2 * rem > MEBIBYTE || (2 * rem == MEBIBYTE && q % 2 == 1) then q + 1 else q
  }

  /**
   * `f"{size / 1024 / 1024:.1f}"`: whole MiB, a dot and one decimal digit,
   * reading back as the rounded number of tenths.
   */
  function MegabytesOneDecimal(size: nat): (text: string)
    ensures |text| >= 3 && text[|text| - 2] == '.'
    ensures forall i :: 0 <= i < |text| && i != |text| - 2 ==> IsDigit(text[i])
    ensures DecimalValue(text[..|text| - 2]) * 10 + DecimalValue(text[|text| - 1..]) == TenthsOfMebibyte(size)
  {
    var tenths := TenthsOfMebibyte(size);
    PointOneDecimal(tenths / 10, tenths % 10);
    NatToString(tenths / 10) + "." + NatToString(tenths % 10)
  }

  /** `w` and a single digit `d` joined by a dot read back as `10 * w + d`. */
  lemma PointOneDecimal(w: nat, d: nat)
    requires d < 10
    ensures var text := NatToString(w) + "." + NatToString(d);
      && |text| >= 3 && text[|text| - 2] == '.'
      && (forall i :: 0 <= i < |text| && i != |text| - 2 ==> IsDigit(text[i]))
      && DecimalValue(text[..|text| - 2]) * 10 + DecimalValue(text[|text| - 1..]) == 10 * w + d
  {
    var whole, decimal := NatToString(w), NatToString(d);
    NatToStringRoundTrip(w);
    NatToStringRoundTrip(d);
    var text := whole + "." + decimal;
    assert |decimal| == 1;
    assert text[..|text| - 2] == whole && text[|text| - 1..] == decimal;
  }

  function ValidateFileSize(size: nat): (r: Outcome<ApiError>)
    ensures r.Pass? <==> 0 < size <= MAX_FILE_SIZE_BYTES
    ensures size == 0 ==> r == Fail(InvalidFile(EMPTY_FILE_MESSAGE))
    ensures size > MAX_FILE_SIZE_BYTES ==> r.Fail? && r.error.FileSizeExceeded?
  {
    if size == 0 then
      Fail(InvalidFile(EMPTY_FILE_MESSAGE))
    else if size > MAX_FILE_SIZE_BYTES then
      Fail(FileSizeExceeded("File too large (" + MegabytesOneDecimal(size) + "MB). Maximum size is "
                            + NatToString(MAX_FILE_SIZE_MB) + "MB."))
    else
      Pass
  }

  // ---------------------------------------------------------------------------
  // Signature

  /** The index of the first entry of `table`, from `from` on, whose magic number starts `content`. */
  function FirstMatch(table: seq<(Bytes, string)>, content: Bytes, from: nat): (r: Option<nat>)
    requires from <= |table|
    ensures r.Some? ==> from <= r.value < |table| && table[r.value].0 <= content
    ensures r.Some? ==> forall j :: from <= j < r.value ==> !(table[j].0 <= content)
    ensures r.None? ==> forall j :: from <= j < |table| ==> !(table[j].0 <= content)
    decreases |table| - from
  {
    if from == |table| then None
    else if table[from].0 <= content then Some(from)
    else FirstMatch(table, content, from + 1)
  }

  function ValidateFileSignature(content: Bytes): (r: Result<string, ApiError>)
    ensures r.Success? ==>
      exists i :: 0 <= i < |FILE_SIGNATURES| && FILE_SIGNATURES[i].0 <= content && r.value == FILE_SIGNATURES[i].1
        && forall j :: 0 <= j < i ==> !(FILE_SIGNATURES[j].0 <= content)
    ensures r.Failure? ==> (r == Failure(InvalidFileFormat(SIGNATURE_MESSAGE))
      && forall j :: 0 <= j < |FILE_SIGNATURES| ==> !(FILE_SIGNATURES[j].0 <= content))
  {
    match FirstMatch(FILE_SIGNATURES, content, 0)
    case Some(i) => Success(FILE_SIGNATURES[i].1)
    case None => Failure(InvalidFileFormat(SIGNATURE_MESSAGE))
  }

  /** Every buffer that starts with "RIFF" is classified as WebP, whatever follows. */
  lemma RiffIsWebp(content: Bytes)
    requires [0x52, 0x49, 0x46, 0x46] <= content
    ensures ValidateFileSignature(content) == Success("webp")
  {
    assert content[0] == 0x52;
    var r := ValidateFileSignature(content);
    var i :| 0 <= i < |FILE_SIGNATURES| && FILE_SIGNATURES[i].0 <= content && r.value == FILE_SIGNATURES[i].1
      && forall j :: 0 <= j < i ==> !(FILE_SIGNATURES[j].0 <= content);
    assert FILE_SIGNATURES[i].0[0] == content[0];
    assert FILE_SIGNATURES[4].0 <= content;
  }

  /** A detected format is always one of the accepted extensions. */
  lemma DetectedFormatIsAllowed(content: Bytes)
    ensures ValidateFileSignature(content).Success? ==> ValidateFileSignature(content).value in ALLOWED_EXTENSIONS
  {
  }

  // ---------------------------------------------------------------------------
  // The whole pipeline

  function ValidateImageIntegrity(content: Bytes, check: IntegrityCheck): (r: Result<ValidatedImage, ApiError>)
    ensures r.Success? <==> check(content).Success?
    ensures r.Success? ==> r.value == ValidatedImage(check(content).value.1, check(content).value.0)
    ensures r.Failure? ==> r.error == InvalidFile(check(content).error)
  {
    match check(content)
    case Success((metadata, repaired)) => Success(ValidatedImage(repaired, metadata))
    case Failure(reason) => Failure(InvalidFile(reason))
  }

  function ResultOutcome<T>(r: Result<T, ApiError>): Outcome<ApiError> {
    match r
    case Success(_) => Pass
    case Failure(e) => Fail(e)
  }

  /** The five checks of an upload, in the order they run. */
  function Stages(u: Upload, check: IntegrityCheck): seq<Outcome<ApiError>> {
    [ ResultOutcome(ValidateFileExtension(u.filename)),
      ValidateMimeType(u.contentType),
      ValidateFileSize(|u.content|),
      ResultOutcome(ValidateFileSignature(u.content)),
      ResultOutcome(ValidateImageIntegrity(u.content, check)) ]
  }

  function ValidateUploadFile(u: Upload, check: IntegrityCheck): (r: Result<ValidatedImage, ApiError>)
    ensures r.Success? ==> r == ValidateImageIntegrity(u.content, check)
    ensures r.Failure? ==> r.error.IsValidationError()
  {
    match ValidateFileExtension(u.filename)
    case Failure(e) => Failure(e)
    case Success(_) =>
      match ValidateMimeType(u.contentType)
      case Fail(e) => Failure(e)
      case Pass =>
        match ValidateFileSize(|u.content|)
        case Fail(e) => Failure(e)
        case Pass =>
          match ValidateFileSignature(u.content)
          case Failure(e) => Failure(e)
          case Success(_) => ValidateImageIntegrity(u.content, check)
  }

  /** The position of the first failing check, or the number of checks when all pass. */
  function FirstFailure(stages: seq<Outcome<ApiError>>): (k: nat)
    ensures k <= |stages|
    ensures forall j :: 0 <= j < k ==> stages[j].Pass?
    ensures k < |stages| ==> stages[k].Fail?
  {
    if stages == [] then 0
    else if stages[0].Fail? then 0
    else 1 + FirstFailure(stages[1..])
  }

  /** Where the first failure of five checks sits, and which error it carries. */
  lemma FirstFailureOfFive(a: Outcome<ApiError>, b: Outcome<ApiError>, c: Outcome<ApiError>,
                           d: Outcome<ApiError>, e: Outcome<ApiError>)
    ensures var k := FirstFailure([a, b, c, d, e]);
      && (a.Fail? ==> k == 0)
      && (a.Pass? && b.Fail? ==> k == 1)
      && (a.Pass? && b.Pass? && c.Fail? ==> k == 2)
      && (a.Pass? && b.Pass? && c.Pass? && d.Fail? ==> k == 3)
      && (a.Pass? && b.Pass? && c.Pass? && d.Pass? && e.Fail? ==> k == 4)
      && (a.Pass? && b.Pass? && c.Pass? && d.Pass? && e.Pass? ==> k == 5)
  {
    assert FirstFailure([e]) == if e.Fail? then 0 else 1 by {
      assert [e][1..] == [];
    }
    assert FirstFailure([d, e]) == if d.Fail? then 0 else 1 + FirstFailure([e]) by {
      assert [d, e][1..] == [e];
    }
    assert FirstFailure([c, d, e]) == if c.Fail? then 0 else 1 + FirstFailure([d, e]) by {
      assert [c, d, e][1..] == [d, e];
    }
    assert FirstFailure([b, c, d, e]) == if b.Fail? then 0 else 1 + FirstFailure([c, d, e]) by {
      assert [b, c, d, e][1..] == [c, d, e];
    }
    assert [a, b, c, d, e][1..] == [b, c, d, e];
  }

  /**
   * The upload is accepted exactly when all five checks pass; otherwise its
   * error is that of the first check, in pipeline order, that fails.
   */
  lemma FirstFailingCheckDecides(u: Upload, check: IntegrityCheck)
    ensures var stages, r := Stages(u, check), ValidateUploadFile(u, check);
      var k := FirstFailure(stages);
      && (r.Success? <==> k == |stages|)
      && (r.Failure? ==> k < |stages| && stages[k] == Fail(r.error))
  {
    var e, m, z := ValidateFileExtension(u.filename), ValidateMimeType(u.contentType), ValidateFileSize(|u.content|);
    var g, i := ValidateFileSignature(u.content), ValidateImageIntegrity(u.content, check);
    var stages := [ResultOutcome(e), m, z, ResultOutcome(g), ResultOutcome(i)];
    assert Stages(u, check) == stages;
    FirstFailureOfFive(ResultOutcome(e), m, z, ResultOutcome(g), ResultOutcome(i));
    var r := ValidateUploadFile(u, check);
    var k := FirstFailure(stages);
    if e.Failure? {
      assert r == Failure(e.error) && k == 0;
    } else if m.Fail? {
      assert r == Failure(m.error) && k == 1;
    } else if z.Fail? {
      assert r == Failure(z.error) && k == 2;
    } else if g.Failure? {
      assert r == Failure(g.error) && k == 3;
    } else {
      assert r == i && k == (if i.Failure? then 4 else 5);
    }
  }

  /**
   * The detected format is never compared with the declared one: a ".jpg"
   * name with PNG bytes passes every check before integrity, and the outcome
   * is whatever the integrity step says.
   */
  lemma SpoofedExtensionReachesIntegrity(stem: string, rest: Bytes, check: IntegrityCheck)
    requires |rest| <= MAX_FILE_SIZE_BYTES - 8
    ensures var u := Upload(stem + ".jpg", "image/jpeg", FILE_SIGNATURES[1].0 + rest);
      && FileExtension(u.filename) == "jpg"
      && ValidateFileSignature(u.content) == Success("png")
      && ValidateUploadFile(u, check) == ValidateImageIntegrity(u.content, check)
  {
    var u := Upload(stem + ".jpg", "image/jpeg", FILE_SIGNATURES[1].0 + rest);
    ExtensionOfDottedName(stem, "jpg");
    assert stem + ".jpg" == stem + "." + "jpg";
    assert ToLower("jpg") == "jpg";
    PngSignatureDetected(u.content);
    assert ValidateFileExtension(u.filename) == Success("jpg");
    assert ValidateMimeType(u.contentType) == Pass;
    assert ValidateFileSize(|u.content|) == Pass;
  }

  /** Content that starts with the PNG signature is detected as PNG, whatever follows. */
  lemma PngSignatureDetected(content: Bytes)
    requires FILE_SIGNATURES[1].0 <= content
    ensures ValidateFileSignature(content) == Success("png")
  {
    assert content[0] == 0x89;
    var r := ValidateFileSignature(content);
    var i :| 0 <= i < |FILE_SIGNATURES| && FILE_SIGNATURES[i].0 <= content && r.value == FILE_SIGNATURES[i].1
      && forall j :: 0 <= j < i ==> !(FILE_SIGNATURES[j].0 <= content);
    assert FILE_SIGNATURES[i].0[0] == content[0];
  }

  /**
   * Format checks run before the size check: an empty file with an
   * unsupported extension is a format error (415), not an empty-file error (400).
   */
  lemma ExtensionCheckedBeforeSize(stem: string, contentType: string, check: IntegrityCheck)
    ensures var r := ValidateUploadFile(Upload(stem + ".txt", contentType, []), check);
      r.Failure? && r.error.StatusCode() == 415
  {
    ExtensionOfDottedName(stem, "txt");
    assert stem + ".txt" == stem + "." + "txt";
    assert ToLower("txt") == "txt";
  }

  /** A file of exactly the maximum size passes the size check; one byte more does not. */
  lemma SizeBoundary()
    ensures ValidateFileSize(MAX_FILE_SIZE_BYTES) == Pass
    ensures ValidateFileSize(MAX_FILE_SIZE_BYTES + 1).Fail?
    ensures MegabytesOneDecimal(MAX_FILE_SIZE_BYTES + 1) == "10.0"
    ensures MegabytesOneDecimal(11010048) == "10.5"
  {
  }
}
