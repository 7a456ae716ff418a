/**
 * The request handlers of main.py: `extract_text` (validate, key, cache
 * lookup, and on a miss OCR, post-processing and cache store) and
 * `batch_extract_text` with its per-item `process_single_image`.
 * SHA-256, the image decoder and the OCR engine are the parameters in
 * `Services`; the clock is `now`, one reading per request.
 */
module Orchestrator {
  import opened Prelude
  import Config
  import opened Errors
  import opened TextProcessor
  import opened Validators
  import opened CacheService

  /** What the OCR engine reports for one image. */
  datatype OcrResult = OcrResult(text: string, confidence: real, language: Option<string>,
                                 detectedLanguages: seq<string>, hasText: bool)

  datatype ResponseMetadata = ResponseMetadata(language: Option<string>, detectedLanguages: seq<string>,
                                               imageWidth: int, imageHeight: int, imageFormat: string,
                                               hasText: bool, cached: bool)

  /** The record stored in the cache after a successful recognition. */
  datatype CachedResult = CachedResult(text: string, confidence: real, metadata: ResponseMetadata)

  /** A successful single-image response (the `success: True` body). */
  datatype OcrResponse = OcrResponse(text: string, confidence: real, metadata: ResponseMetadata)

  /** Which way a request went: rejected by validation, served from the cache, or sent to OCR. */
  datatype Path = Rejected | Hit | Miss

  datatype Services = Services(sha256: Bytes -> Digest, checkIntegrity: IntegrityCheck,
                               recognize: Bytes -> Result<OcrResult, string>)

  /** The record built on a miss: cleaned text, OCR confidence and image metadata, not cached. */
  function FreshResult(ocr: OcrResult, image: ImageMetadata): (c: CachedResult)
    ensures IsClean(c.text) && '\r' !in c.text && |c.text| <= |ocr.text|
    ensures NonWhitespace(c.text) == NonWhitespace(ocr.text)
    ensures c.confidence == ocr.confidence
    ensures c.metadata.language == ocr.language && c.metadata.detectedLanguages == ocr.detectedLanguages
    ensures c.metadata.hasText == ocr.hasText
    ensures c.metadata.imageWidth == image.width && c.metadata.imageHeight == image.height
    ensures c.metadata.imageFormat == image.format
    ensures !c.metadata.cached
  {
    CachedResult(PreprocessText(ocr.text), ocr.confidence,
                 ResponseMetadata(ocr.language, ocr.detectedLanguages, image.width, image.height,
                                  image.format, ocr.hasText, false))
  }

  /** A stored record served again: the same text and confidence, flagged as cached. */
  function HitResponse(c: CachedResult): (r: OcrResponse)
    ensures r.text == c.text && r.confidence == c.confidence && r.metadata.cached
    ensures r.metadata.(cached := c.metadata.cached) == c.metadata
  {
    OcrResponse(c.text, c.confidence, c.metadata.(cached := true))
  }

  function MissResponse(c: CachedResult): OcrResponse {
    OcrResponse(c.text, c.confidence, c.metadata)
  }

  /** The cache key of an upload that passed validation (of the possibly repaired bytes). */
  function KeyOf(u: Upload, svc: Services): string
    requires ValidateUploadFile(u, svc.checkIntegrity).Success?
  {
    GenerateCacheKey(ValidateUploadFile(u, svc.checkIntegrity).value.content, svc.sha256)
  }

  /** What the OCR step answers for a validated image that missed the cache. */
  function MissOutcome(svc: Services, v: ValidatedImage): (r: Result<OcrResponse, ApiError>)
    ensures r.Success? <==> svc.recognize(v.content).Success?
    ensures r.Failure? ==> r.error == OcrProcessing(svc.recognize(v.content).error)
    ensures r.Success? ==> r.value == MissResponse(FreshResult(svc.recognize(v.content).value, v.metadata))
  {
    match svc.recognize(v.content)
    case Success(ocr) => Success(MissResponse(FreshResult(ocr, v.metadata)))
    case Failure(message) => Failure(OcrProcessing(message))
  }

  /**
   * What one validated image with content key `key` does to the whole cache,
   * from `before` to `after`. A live entry is served as is: it becomes the most recent key and
   * one hit is counted. Otherwise one miss is counted, an expired entry for the
   * key is dropped, and OCR runs. A failure is reported and nothing is stored.
   * A recognised image is cleaned and stored under its key as the most recent
   * entry, evicting the least recently used entry first when the cache is full,
   * and is returned uncached. A disabled cache is never touched.
   */
  ghost predicate Step(cache: LRUCache<CachedResult>, before: Snapshot<CachedResult>, after: Snapshot<CachedResult>,
                       svc: Services, v: ValidatedImage, key: string, now: int,
                       r: Result<OcrResponse, ApiError>, path: Path)
  {
    var live := cache.enabled && key in before.entries && !IsExpired(before.entries[key], now);
    && path != Rejected
    && (path == Hit <==> live)
    && (path == Hit ==>
          && r == Success(HitResponse(before.entries[key].value))
          && after.order == Remove(before.order, [key]) + [key]
          && after.entries == before.entries
          && after.hits == before.hits + 1 && after.misses == before.misses
          && after.evictions == before.evictions && after.sets == before.sets)
    && (path == Miss ==> r == MissOutcome(svc, v) && after.hits == before.hits)
    && (!cache.enabled ==>
          && after.order == before.order && after.entries == before.entries
          && after.misses == before.misses && after.evictions == before.evictions
          && after.sets == before.sets)
    && (path == Miss && cache.enabled ==> after.misses == before.misses + 1)
    && (path == Miss && cache.enabled && r.Failure? ==>
          && after.order == Remove(before.order, [key])
          && after.entries == before.entries - {key}
          && after.evictions == before.evictions && after.sets == before.sets)
    && (path == Miss && cache.enabled && r.Success? ==>
          var left := Remove(before.order, [key]);
          var entry := Entry(FreshResult(svc.recognize(v.content).value, v.metadata), now + cache.ttlSeconds, now);
          && key in after.entries && after.entries[key] == entry
          && after.sets == before.sets + 1
          && (|left| >= cache.maxSize && left != [] ==>
                && after.order == left[1..] + [key]
                && after.entries == (before.entries - {key} - {left[0]})[key := entry]
                && after.evictions == before.evictions + 1)
          && (!(|left| >= cache.maxSize && left != []) ==>
                && after.order == left + [key]
                && after.entries == (before.entries - {key})[key := entry]
                && after.evictions == before.evictions))
  }

  /** `Step` from the cache as it was before the request to the cache as it is now. */
  twostate predicate Served(cache: LRUCache<CachedResult>, svc: Services, v: ValidatedImage, key: string,
                            now: int, new r: Result<OcrResponse, ApiError>, path: Path)
    reads cache
  {
    Step(cache, old(Snapshot(cache.order, cache.entries, cache.hits, cache.misses, cache.evictions, cache.sets)),
         Snapshot(cache.order, cache.entries, cache.hits, cache.misses, cache.evictions, cache.sets),
         svc, v, key, now, r, path)
  }

  /** The part of `extract_text` after validation: cache lookup, then OCR and store on a miss. */
  method Serve(cache: LRUCache<CachedResult>, svc: Services, v: ValidatedImage, key: string, now: int)
    returns (r: Result<OcrResponse, ApiError>, path: Path)
    requires cache.Valid()
    modifies cache
    ensures cache.Valid()
    ensures Served(cache, svc, v, key, now, r, path)
  {
    if cache.enabled && key !in cache.entries {
      RemoveAbsent(cache.order, [key]);
      assert cache.entries - {key} == cache.entries;
    }
    var cached := cache.Get(key, now);
    if cached.Some? {
      return Success(HitResponse(cached.value)), Hit;
    }
    path := Miss;
    var ocr := svc.recognize(v.content);
    if ocr.Failure? {
      return Failure(OcrProcessing(ocr.error)), path;
    }
    var stored := FreshResult(ocr.value, v.metadata);
    cache.Set(key, stored, now);
    r := Success(MissResponse(stored));
  }

  /** `extract_text`: the single-image handler. Validation comes first, so a rejected upload never reaches the cache. */
  method ExtractText(cache: LRUCache<CachedResult>, svc: Services, image: Upload, now: int)
    returns (r: Result<OcrResponse, ApiError>, path: Path)
    requires cache.Valid()
    modifies cache
    ensures cache.Valid()
    ensures path == Rejected <==> ValidateUploadFile(image, svc.checkIntegrity).Failure?
    ensures path == Rejected ==>
      && r == Failure(ValidateUploadFile(image, svc.checkIntegrity).error)
      && unchanged(cache)
    ensures path != Rejected ==>
      Served(cache, svc, ValidateUploadFile(image, svc.checkIntegrity).value, KeyOf(image, svc), now, r, path)
  {
    var validated := ValidateUploadFile(image, svc.checkIntegrity);
    if validated.Failure? {
      return Failure(validated.error), Rejected;
    }
    var key := GenerateCacheKey(validated.value.content, svc.sha256);
    assert key == KeyOf(image, svc);
    r, path := Serve(cache, svc, validated.value, key, now);
  }

  /**
   * The same bytes sent again after a recognised, stored miss, before the
   * entry expires and with no other request in between, are served from the cache.
   */
  method RepeatedRequestIsHit(cache: LRUCache<CachedResult>, svc: Services, image: Upload, now1: int, now2: int)
    returns (first: Result<OcrResponse, ApiError>, path1: Path, second: Result<OcrResponse, ApiError>, path2: Path)
    requires cache.Valid() && cache.enabled
    requires now1 <= now2 <= now1 + cache.ttlSeconds
    modifies cache
    ensures cache.Valid()
    ensures path1 == Rejected <==> path2 == Rejected
    ensures path1 == Miss && first.Success? ==>
      && path2 == Hit
      && second == Success(first.value.(metadata := first.value.metadata.(cached := true)))
  {
    first, path1 := ExtractText(cache, svc, image, now1);
    ghost var recognisedMiss := path1 == Miss && first.Success?;
    ghost var stored: CachedResult;
    if recognisedMiss {
      var v := ValidateUploadFile(image, svc.checkIntegrity).value;
      stored := FreshResult(svc.recognize(v.content).value, v.metadata);
      assert first == Success(MissResponse(stored));
      assert cache.entries[KeyOf(image, svc)] == Entry(stored, now1 + cache.ttlSeconds, now1);
      assert cache.Peek(KeyOf(image, svc), now2) == Some(stored);
    }
    second, path2 := ExtractText(cache, svc, image, now2);
    if recognisedMiss {
      assert second == Success(HitResponse(stored));
    }
  }

  // ---------------------------------------------------------------------------
  // Batches

  datatype ItemResult = ItemResult(index: nat, filename: string, success: bool, text: string,
                                   confidence: real, metadata: Option<ResponseMetadata>,
                                   error: Option<string>)

  datatype BatchResponse = BatchResponse(results: seq<ItemResult>, totalImages: nat, failedCount: nat)

  const NO_IMAGES_MESSAGE := "No images provided. Please upload at least one image."

  function TooManyImagesMessage(n: nat): string {
    "Too many images (" + NatToString(n) + "). Maximum is " + NatToString(Config.MAX_BATCH_SIZE)
      + " images per batch."
  }

  /** The dictionary `process_single_image` returns, built from the outcome of one request. */
  function ItemOf(index: nat, filename: string, r: Result<OcrResponse, ApiError>): (item: ItemResult)
    ensures item.index == index && item.filename == filename
    ensures item.success <==> r.Success?
    ensures r.Failure? ==>
      item.text == "" && item.confidence == 0.0 && item.metadata == None && item.error == Some(r.error.message)
    ensures r.Success? ==>
      && item.text == r.value.text && item.confidence == r.value.confidence
      && item.metadata == Some(r.value.metadata) && item.error == None
  {
    match r
    case Success(resp) => ItemResult(index, filename, true, resp.text, resp.confidence, Some(resp.metadata), None)
    case Failure(e) => ItemResult(index, filename, false, "", 0.0, None, Some(e.ToString()))
  }

  /** `failed_count`: how many results report failure. */
  function FailedCount(results: seq<ItemResult>): (n: nat)
    ensures n <= |results|
    ensures n == 0 <==> forall i :: 0 <= i < |results| ==> results[i].success
    ensures n == |results| <==> forall i :: 0 <= i < |results| ==> !results[i].success
  {
    if results == [] then 0
    else (if results[0].success then 0 else 1) + FailedCount(results[1..])
  }

  function CountPaths(paths: seq<Path>, p: Path): (n: nat)
    ensures n <= |paths|
  {
    if paths == [] then 0
    else (if paths[0] == p then 1 else 0) + CountPaths(paths[1..], p)
  }

  /** Every path is exactly one of the three kinds. */
  lemma {:induction false} PathsPartition(paths: seq<Path>)
    ensures CountPaths(paths, Rejected) + CountPaths(paths, Hit) + CountPaths(paths, Miss) == |paths|
  {
    if paths != [] {
      PathsPartition(paths[1..]);
    }
  }

  /** Items that succeeded were never rejected, so they were either hits or OCR calls. */
  lemma {:induction false} SuccessesWereServed(results: seq<ItemResult>, paths: seq<Path>)
    requires |results| == |paths|
    requires forall i :: 0 <= i < |paths| ==> (paths[i] == Rejected ==> !results[i].success)
    ensures |results| - FailedCount(results) <= CountPaths(paths, Hit) + CountPaths(paths, Miss)
  {
    if results != [] {
      SuccessesWereServed(results[1..], paths[1..]);
    }
    PathsPartition(paths);
  }

  /**
   * `process_single_image`: one request whose failure is captured in the item.
   * The ghost `outcome` is what `extract_text` would have answered for the image.
   */
  method ProcessSingleImage(cache: LRUCache<CachedResult>, svc: Services, image: Upload, index: nat, now: int)
    returns (item: ItemResult, path: Path, ghost outcome: Result<OcrResponse, ApiError>)
    requires cache.Valid()
    modifies cache
    ensures cache.Valid()
    ensures item == ItemOf(index, image.filename, outcome)
    ensures item.index == index && item.filename == image.filename
    ensures path == Rejected <==> ValidateUploadFile(image, svc.checkIntegrity).Failure?
    ensures path == Rejected ==>
      && outcome == Failure(ValidateUploadFile(image, svc.checkIntegrity).error)
      && unchanged(cache)
    ensures path != Rejected ==>
      Served(cache, svc, ValidateUploadFile(image, svc.checkIntegrity).value, KeyOf(image, svc), now, outcome, path)
    ensures OutcomeFits(ValidateUploadFile(image, svc.checkIntegrity), svc, outcome, path)
    ensures path == Hit ==> item.success && item.metadata.Some? && item.metadata.value.cached
    ensures cache.hits == old(cache.hits) + (if path == Hit then 1 else 0)
    ensures cache.misses == old(cache.misses) + (if path == Miss && cache.enabled then 1 else 0)
    ensures cache.sets == old(cache.sets) + Stored(cache.enabled, path, outcome)
  {
    var r;
    r, path := ExtractText(cache, svc, image, now);
    outcome := r;
    item := ItemOf(index, image.filename, r);
  }

  /**
   * The outcome of one image, told without the cache: validation failure
   * exactly when rejected; a cached answer on a hit; and on a miss the OCR
   * step's answer.
   */
  ghost predicate OutcomeFits(validated: Result<ValidatedImage, ApiError>, svc: Services,
                              outcome: Result<OcrResponse, ApiError>, path: Path) {
    && (path == Rejected <==> validated.Failure?)
    && (path == Rejected ==> outcome == Failure(validated.error))
    && (path == Hit ==> outcome.Success? && outcome.value.metadata.cached)
    && (path == Miss ==> outcome == MissOutcome(svc, validated.value))
  }

  /** Whether one request stored a new entry: only a recognised miss on an enabled cache does. */
  function Stored(enabled: bool, path: Path, outcome: Result<OcrResponse, ApiError>): nat {
    if enabled && path == Miss && outcome.Success? then 1 else 0
  }

  /** How many requests of a batch stored a new entry. */
  function Stores(enabled: bool, paths: seq<Path>, outcomes: seq<Result<OcrResponse, ApiError>>): (n: nat)
    requires |paths| == |outcomes|
    ensures n <= CountPaths(paths, Miss)
    ensures !enabled ==> n == 0
    decreases |paths|
  {
    if paths == [] then 0
    else Stored(enabled, paths[0], outcomes[0]) + Stores(enabled, paths[1..], outcomes[1..])
  }

  lemma {:induction false} StoresAppend(enabled: bool, paths: seq<Path>, outcomes: seq<Result<OcrResponse, ApiError>>,
                                        p: Path, o: Result<OcrResponse, ApiError>)
    requires |paths| == |outcomes|
    ensures Stores(enabled, paths + [p], outcomes + [o]) == Stores(enabled, paths, outcomes) + Stored(enabled, p, o)
    decreases |paths|
  {
    if paths == [] {
      assert paths + [p] == [p] && outcomes + [o] == [o];
    } else {
      assert (paths + [p])[1..] == paths[1..] + [p];
      assert (outcomes + [o])[1..] == outcomes[1..] + [o];
      StoresAppend(enabled, paths[1..], outcomes[1..], p, o);
    }
  }

  /** Each result is the item built from its image's outcome, with its own index and filename. */
  ghost predicate ItemsOf(images: seq<Upload>, results: seq<ItemResult>, outcomes: seq<Result<OcrResponse, ApiError>>) {
    && |results| == |outcomes| <= |images|
    && forall j :: 0 <= j < |results| ==> results[j] == ItemOf(j, images[j].filename, outcomes[j])
  }

  /** The validation result of each image of a batch, in order. */
  function Validations(images: seq<Upload>, check: IntegrityCheck): (vs: seq<Result<ValidatedImage, ApiError>>)
    ensures |vs| == |images|
    ensures forall j :: 0 <= j < |images| ==> vs[j] == ValidateUploadFile(images[j], check)
  {
    seq(|images|, j requires 0 <= j < |images| => ValidateUploadFile(images[j], check))
  }

  /** Each outcome fits its image's validation result and the path its request took. */
  ghost predicate OutcomesFit(validations: seq<Result<ValidatedImage, ApiError>>, svc: Services, paths: seq<Path>,
                              outcomes: seq<Result<OcrResponse, ApiError>>) {
    && |paths| == |outcomes| <= |validations|
    && forall j :: 0 <= j < |paths| ==> OutcomeFits(validations[j], svc, outcomes[j], paths[j])
  }

  /** The results, paths and outcomes of the first |results| images of a batch. */
  ghost predicate Recorded(images: seq<Upload>, svc: Services, results: seq<ItemResult>, paths: seq<Path>,
                           outcomes: seq<Result<OcrResponse, ApiError>>) {
    ItemsOf(images, results, outcomes) && OutcomesFit(Validations(images, svc.checkIntegrity), svc, paths, outcomes)
  }

  lemma ItemsOfStep(images: seq<Upload>, results: seq<ItemResult>, outcomes: seq<Result<OcrResponse, ApiError>>,
                    item: ItemResult, outcome: Result<OcrResponse, ApiError>)
    requires ItemsOf(images, results, outcomes) && |results| < |images|
    requires item == ItemOf(|results|, images[|results|].filename, outcome)
    ensures ItemsOf(images, results + [item], outcomes + [outcome])
  {
    var results', outcomes' := results + [item], outcomes + [outcome];
    forall j | 0 <= j < |results'|
      ensures results'[j] == ItemOf(j, images[j].filename, outcomes'[j])
    {
      if j < |results| {
        assert results'[j] == results[j] && outcomes'[j] == outcomes[j];
      }
    }
  }

  lemma OutcomesFitStep(validations: seq<Result<ValidatedImage, ApiError>>, svc: Services, paths: seq<Path>,
                        outcomes: seq<Result<OcrResponse, ApiError>>, path: Path, outcome: Result<OcrResponse, ApiError>)
    requires OutcomesFit(validations, svc, paths, outcomes) && |paths| < |validations|
    requires OutcomeFits(validations[|paths|], svc, outcome, path)
    ensures OutcomesFit(validations, svc, paths + [path], outcomes + [outcome])
  {
    var paths', outcomes' := paths + [path], outcomes + [outcome];
    forall j | 0 <= j < |paths'|
      ensures OutcomeFits(validations[j], svc, outcomes'[j], paths'[j])
    {
      if j < |paths| {
        assert paths'[j] == paths[j] && outcomes'[j] == outcomes[j];
      }
    }
  }

  /**
   * What one image of a batch does to the cache: a rejected image leaves it as
   * it was, and any other image takes one `Step` with its validated bytes,
   * their content key and its outcome.
   */
  ghost predicate StepOrStay(cache: LRUCache<CachedResult>, validated: Result<ValidatedImage, ApiError>,
                             svc: Services, now: int, path: Path, outcome: Result<OcrResponse, ApiError>,
                             before: Snapshot<CachedResult>, after: Snapshot<CachedResult>) {
    && (path == Rejected ==> after == before)
    && (path != Rejected && validated.Success? ==>
          Step(cache, before, after, svc, validated.value,
               GenerateCacheKey(validated.value.content, svc.sha256), now, outcome, path))
  }

  /** `states` lists the cache before the first image and after each image of a batch, in order. */
  ghost predicate Transitions(cache: LRUCache<CachedResult>, validations: seq<Result<ValidatedImage, ApiError>>,
                              svc: Services, now: int, paths: seq<Path>, outcomes: seq<Result<OcrResponse, ApiError>>,
                              states: seq<Snapshot<CachedResult>>) {
    && |paths| == |outcomes| <= |validations|
    && |states| == |paths| + 1
    && forall j :: 0 <= j < |paths| ==>
         StepOrStay(cache, validations[j], svc, now, paths[j], outcomes[j], states[j], states[j + 1])
  }

  lemma TransitionsStep(cache: LRUCache<CachedResult>, validations: seq<Result<ValidatedImage, ApiError>>,
                        svc: Services, now: int, paths: seq<Path>, outcomes: seq<Result<OcrResponse, ApiError>>,
                        states: seq<Snapshot<CachedResult>>, path: Path, outcome: Result<OcrResponse, ApiError>,
                        after: Snapshot<CachedResult>)
    requires Transitions(cache, validations, svc, now, paths, outcomes, states) && |paths| < |validations|
    requires StepOrStay(cache, validations[|paths|], svc, now, path, outcome, states[|paths|], after)
    ensures Transitions(cache, validations, svc, now, paths + [path], outcomes + [outcome], states + [after])
  {
    var paths', outcomes', states' := paths + [path], outcomes + [outcome], states + [after];
    forall j | 0 <= j < |paths'|
      ensures StepOrStay(cache, validations[j], svc, now, paths'[j], outcomes'[j], states'[j], states'[j + 1])
    {
      if j < |paths| {
        assert paths'[j] == paths[j] && outcomes'[j] == outcomes[j];
        assert states'[j] == states[j] && states'[j + 1] == states[j + 1];
      } else {
        assert paths'[j] == path && outcomes'[j] == outcome;
        assert states'[j] == states[j] && states'[j + 1] == after;
      }
    }
  }

  /** Rejected items are failures carrying their validation error. */
  lemma RecordedRejectionsFail(images: seq<Upload>, svc: Services, results: seq<ItemResult>, paths: seq<Path>,
                               outcomes: seq<Result<OcrResponse, ApiError>>)
    requires Recorded(images, svc, results, paths, outcomes)
    ensures forall j :: 0 <= j < |paths| ==> (paths[j] == Rejected ==> !results[j].success)
    ensures forall j :: 0 <= j < |paths| && paths[j] == Rejected ==>
      results[j].error == Some(ValidateUploadFile(images[j], svc.checkIntegrity).error.message)
  {
    forall j | 0 <= j < |paths| && paths[j] == Rejected
      ensures !results[j].success
      ensures results[j].error == Some(ValidateUploadFile(images[j], svc.checkIntegrity).error.message)
    {
      assert OutcomeFits(ValidateUploadFile(images[j], svc.checkIntegrity), svc, outcomes[j], paths[j]);
    }
  }

  /** `batch_extract_text`: the size gate, then every image in index order. */
  method BatchExtractText(cache: LRUCache<CachedResult>, svc: Services, images: seq<Upload>, now: int)
    returns (r: Result<BatchResponse, ApiError>, cacheHits: nat, visionApiCalls: nat,
             ghost paths: seq<Path>, ghost outcomes: seq<Result<OcrResponse, ApiError>>,
             ghost states: seq<Snapshot<CachedResult>>)
    requires cache.Valid()
    modifies cache
    ensures cache.Valid()
    ensures |images| == 0 ==> r == Failure(BatchSizeExceeded(NO_IMAGES_MESSAGE)) && unchanged(cache)
    ensures |images| > Config.MAX_BATCH_SIZE ==>
      r == Failure(BatchSizeExceeded(TooManyImagesMessage(|images|))) && unchanged(cache)
    ensures 0 < |images| <= Config.MAX_BATCH_SIZE <==> r.Success?
    ensures r.Success? ==>
      && |r.value.results| == |images|
      && r.value.totalImages == |images|
      && r.value.failedCount == FailedCount(r.value.results)
      && Recorded(images, svc, r.value.results, paths, outcomes)
      && Transitions(cache, Validations(images, svc.checkIntegrity), svc, now, paths, outcomes, states)
      && states[0] == old(cache.State()) && states[|images|] == cache.State()
      && cacheHits == CountPaths(paths, Hit)
      && visionApiCalls == CountPaths(paths, Miss)
      && cacheHits + visionApiCalls <= |images|
      && |images| - r.value.failedCount <= cacheHits + visionApiCalls
      && cache.hits == old(cache.hits) + cacheHits
      && cache.misses == old(cache.misses) + (if cache.enabled then visionApiCalls else 0)
      && cache.sets == old(cache.sets) + Stores(cache.enabled, paths, outcomes)
  {
    paths, outcomes, states := [], [], [cache.State()];
    cacheHits, visionApiCalls := 0, 0;
    if |images| == 0 {
      return Failure(BatchSizeExceeded(NO_IMAGES_MESSAGE)), cacheHits, visionApiCalls, paths, outcomes, states;
    }
    if |images| > Config.MAX_BATCH_SIZE {
      return Failure(BatchSizeExceeded(TooManyImagesMessage(|images|))), cacheHits, visionApiCalls, paths, outcomes, states;
    }
    var results: seq<ItemResult> := [];
    var i := 0;
    while i < |images|
      invariant 0 <= i <= |images|
      invariant cache.Valid()
      invariant |results| == i
      invariant Recorded(images, svc, results, paths, outcomes)
      invariant Transitions(cache, Validations(images, svc.checkIntegrity), svc, now, paths, outcomes, states)
      invariant states[0] == old(cache.State()) && states[i] == cache.State()
      invariant cacheHits == CountPaths(paths, Hit) && visionApiCalls == CountPaths(paths, Miss)
      invariant cache.hits == old(cache.hits) + cacheHits
      invariant cache.misses == old(cache.misses) + (if cache.enabled then visionApiCalls else 0)
      invariant cache.sets == old(cache.sets) + Stores(cache.enabled, paths, outcomes)
    {
      var item, path, outcome := ProcessSingleImage(cache, svc, images[i], i, now);
      ghost var validations := Validations(images, svc.checkIntegrity);
      ghost var after := Snapshot(cache.order, cache.entries, cache.hits, cache.misses, cache.evictions, cache.sets);
      assert validations[i] == ValidateUploadFile(images[i], svc.checkIntegrity);
      TransitionsStep(cache, validations, svc, now, paths, outcomes, states, path, outcome, after);
      CountPathsAppend(paths, path);
      StoresAppend(cache.enabled, paths, outcomes, path, outcome);
      ItemsOfStep(images, results, outcomes, item, outcome);
      OutcomesFitStep(Validations(images, svc.checkIntegrity), svc, paths, outcomes, path, outcome);
      if path == Hit {
        cacheHits := cacheHits + 1;
      } else if path == Miss {
        visionApiCalls := visionApiCalls + 1;
      }
      results := results + [item];
      paths := paths + [path];
      outcomes := outcomes + [outcome];
      states := states + [after];
      i := i + 1;
    }
    PathsPartition(paths);
    RecordedRejectionsFail(images, svc, results, paths, outcomes);
    SuccessesWereServed(results, paths);
    r := Success(BatchResponse(results, |images|, FailedCount(results)));
  }

  lemma {:induction false} CountPathsAppend(paths: seq<Path>, p: Path)
    ensures forall q :: CountPaths(paths + [p], q) == CountPaths(paths, q) + (if p == q then 1 else 0)
  {
    if paths == [] {
      assert paths + [p] == [p];
    } else {
      assert (paths + [p])[1..] == paths[1..] + [p];
      CountPathsAppend(paths[1..], p);
    }
  }
}
