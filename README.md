# flexbone OCR API — a Dafny model of its core

flexbone is an HTTP service that extracts text from uploaded images. An upload
is validated, keyed by the SHA-256 of its bytes and looked up in an in-memory
LRU cache with per-entry expiry. On a miss the image goes to an OCR engine and
the recognised text is cleaned up. The cleaned result is stored in the cache
and returned. A batch endpoint does the same for up to ten images and captures
each item's failure in that item's result.

This project models that core in Dafny and proves properties of it:

- `prelude.dfy` (`Prelude`): `Option`, `Result`, `Outcome`, bytes, and the decimal
  rendering of integers used in error messages.
- `config.dfy` (`Config`): the constants of `config.py` — size limit, extension
  and MIME allowlists, the magic-number table in table order, cache and batch
  defaults.
- `errors.dfy` (`Errors`): the exception family of `utils/error_handlers.py` as
  one datatype, with its fixed HTTP status per kind.
- `text_processor.dfy` (`TextProcessor`): `clean_text`, `normalize_line_breaks`
  and `preprocess_text` as functions over strings. Each regular-expression pass
  is its own function. Python's `\s` and `str.strip()` use the `str.isspace`
  character set.
- `validators.dfy` (`Validators`): the upload pipeline. It runs extension, MIME
  type, size, signature and integrity checks, in that order.
- `cache_service.dfy` (`CacheService`): the `LRUCache` class. Its state is the
  key order (least recently used first), the entry map and four counters. The
  clock is an explicit `now` argument. The module also holds the content key.
- `main.dfy` (`Orchestrator`): `extract_text`, `process_single_image` and
  `batch_extract_text`. SHA-256, the image decoder and the OCR engine are
  parameters of the model (`Services`).

The upload checks run in the order extension, MIME type, size, signature and
integrity. Empty and corrupted files alike are reported with
`InvalidFileException` (status 400).

`process_single_image` repeats the steps of `extract_text` inside a
`try`/`except`. The model runs `ExtractText` and turns its outcome into the
item dictionary. A captured error becomes the item's `error` string.

The capacity `MAX_CACHE_SIZE` comes from the environment and may be zero or
negative. A new key stored at capacity first evicts the front entry, if there
is one, so the cache holds at most `max(MAX_CACHE_SIZE, 1)` entries (`Bound`).

## Model

| member | source | states |
|---|---|---|
| Prelude.NatToString | main.py:202-205 | renders a count as decimal digits, with no leading zero |
| Prelude.NatToStringRoundTrip | main.py:202-205 | reading the rendered digits back gives the number |
| Errors.ApiError.StatusCode | utils/error_handlers.py:1-36 | base kind uses its own status; 415 exactly for format errors, 413 exactly for size, 400 exactly for invalid file or batch size, 500 exactly for OCR processing |
| Errors.StatusIsFixedPerKind | utils/error_handlers.py:1-36 | the status depends on the kind only, never on the message; the string form is the message |
| Errors.ValidationStatusDistinguishesKind | utils/error_handlers.py:9-24 | every validation error is a 4xx, and its status identifies its kind |
| TextProcessor.CollapseSpaces | utils/text_processor.py:9-10 | output is a subsequence of the input, keeps the first character and has no two consecutive spaces |
| TextProcessor.CollapseSpacesRemovesOnlySpaces | utils/text_processor.py:10 | collapsing deletes only spaces: the text with spaces removed, the text with all whitespace removed and the number of space runs are all unchanged |
| TextProcessor.CollapseSpacesFixesClean | utils/text_processor.py:10 | text without double spaces is unchanged |
| TextProcessor.CapNewlineRuns | utils/text_processor.py:12-13 | output is a subsequence of the input, keeps its first character, and has no run of three newlines |
| TextProcessor.CapNewlineRunsRemovesOnlyNewlines | utils/text_processor.py:13 | capping deletes only newlines: the text without newlines, the text without whitespace, the number of newline runs and the number of runs of two or more are all unchanged |
| TextProcessor.CapNewlineRunsKeepsNoDoubleSpace | utils/text_processor.py:13 | capping newline runs cannot create a double space |
| TextProcessor.CapNewlineRunsFixesClean | utils/text_processor.py:13 | text without three-newline runs is unchanged |
| TextProcessor.DropWhitespaceBeforePunctuation | utils/text_processor.py:15-16 | output is a subsequence with no whitespace right before `. , ! ? ; :` |
| TextProcessor.DropSplits | utils/text_processor.py:16 | the pass works run by run: cut after any non-whitespace character, the two pieces are cleaned independently and concatenated |
| TextProcessor.DropRunBeforePunctuation | utils/text_processor.py:16 | a whitespace run followed by a punctuation mark becomes just the mark |
| TextProcessor.DropKeepsNoDoubleSpace | utils/text_processor.py:16 | dropping whitespace before punctuation cannot create a double space |
| TextProcessor.DropKeepsNoNewlineRunOfThree | utils/text_processor.py:16 | dropping whitespace before punctuation cannot create a three-newline run |
| TextProcessor.DropFixesClean | utils/text_processor.py:16 | text with no whitespace before punctuation is unchanged |
| TextProcessor.DropRemovesOnlyWhitespace | utils/text_processor.py:16 | the pass deletes only whitespace: the non-whitespace characters survive in order |
| TextProcessor.DropLeavesUnpunctuatedText | utils/text_processor.py:16 | text with no `. , ! ? ; :` is unchanged |
| TextProcessor.Strip | utils/text_processor.py:18-19 | output is the input minus its maximal leading and trailing whitespace |
| TextProcessor.StripKeepsShapes | utils/text_processor.py:19 | stripping keeps all three shape properties and yields a subsequence |
| TextProcessor.StripFixesTrimmed | utils/text_processor.py:19 | already-trimmed text is unchanged |
| TextProcessor.StripRemovesOnlyWhitespace | utils/text_processor.py:19 | stripping deletes only whitespace: the non-whitespace characters survive in order |
| TextProcessor.AsciiWhitespace | utils/text_processor.py:16-19 | below U+0080 the whitespace class of `\s` and `strip()` is exactly space, tab, LF, VT, FF, CR and U+001C..U+001F; no whitespace character is punctuation |
| TextProcessor.CleanText | utils/text_processor.py:4-21 | output has no double space, no three-newline run, no whitespace before punctuation, no outer whitespace; it is a subsequence of the input with exactly the same non-whitespace characters in the same order |
| TextProcessor.CleanTextIdempotent | utils/text_processor.py:4-21 | cleaning twice is cleaning once |
| TextProcessor.NormalizeLineBreaks | utils/text_processor.py:24-28 | `ReplaceCrLf` then `ReplaceCr`: output holds no carriage return, is no longer than the input and keeps its non-whitespace characters in order |
| TextProcessor.ReplaceCrLfDeletesOnlyCr | utils/text_processor.py:27 | `ReplaceCrLf`, the first `replace`, deletes only carriage returns: the output is a subsequence, and the text without CR and the text without whitespace are unchanged |
| TextProcessor.ReplaceCr | utils/text_processor.py:27 | each carriage return becomes a newline in place; every other character and the length are unchanged |
| TextProcessor.ReplaceCrKeepsText | utils/text_processor.py:27 | the non-whitespace characters survive the CR replacement |
| TextProcessor.NormalizeMatchesOnePass | utils/text_processor.py:27 | the two chained replacements equal one left-to-right pass mapping CRLF and lone CR to LF |
| TextProcessor.CrLfIsOneLineBreak | utils/text_processor.py:27 | a CRLF pair becomes a single newline, not two |
| TextProcessor.PreprocessText | utils/text_processor.py:31-35 | the result of normalising then cleaning is clean, has no carriage return, is no longer than the input and has the same non-whitespace characters in the same order |
| Validators.ToLower | utils/validators.py:29 | lower-cases letters position by position, keeping the length |
| Validators.AfterLast | utils/validators.py:29 | the last piece of a split on '.': a dot-free suffix that is the whole name or follows a dot |
| Validators.FileExtension | utils/validators.py:29 | a dot-free suffix of the lower-cased name that is the whole lower-cased name or follows its last dot |
| Validators.ExtensionOfDottedName | utils/validators.py:29 | the extension of `stem.ext` is the lower-cased `ext`, whatever dots the stem holds |
| Validators.DotlessNameIsItsOwnExtension | utils/validators.py:29 | a name without a dot is its own (lower-cased) extension |
| Validators.ValidateFileExtension | utils/validators.py:24-35 | accepts exactly a non-empty name whose extension is allowlisted, returning that extension; otherwise a format error |
| Validators.ValidateMimeType | utils/validators.py:38-47 | passes exactly `application/octet-stream` and the allowlisted types; otherwise a format error |
| Validators.ValidateFileSize | utils/validators.py:50-58 | passes exactly sizes in 1..10 MiB; 0 is an invalid-file error, checked before the bound; above the bound is a size error |
| Validators.TenthsOfMebibyte | utils/validators.py:57 | the size in tenths of a MiB, rounded to nearest with ties to even |
| Validators.MegabytesOneDecimal | utils/validators.py:57 | the `.1f` rendering: digits, a point and one digit whose value is the rounded size in tenths of a MiB |
| Validators.PointOneDecimal | utils/validators.py:57 | rendering a count of tenths as whole part, point and last digit reads back as that count |
| Validators.SizeBoundary | utils/validators.py:55-57 | exactly the maximum passes, one byte more fails; the message shows the size in MiB to one decimal |
| Validators.FirstMatch | utils/validators.py:15-17 | finds the first table entry, in table order, whose signature prefixes the content, or reports that none does |
| Validators.ValidateFileSignature | utils/validators.py:13-21 | returns the format of the first matching signature in table order; a format error exactly when none matches |
| Validators.RiffIsWebp | config.py:29-36 | every buffer starting with "RIFF" is classified as WebP |
| Validators.DetectedFormatIsAllowed | config.py:17-36 | every detected format is an allowlisted extension |
| Validators.ValidateImageIntegrity | utils/validators.py:60-96 | succeeds exactly when the image check does, returning its repaired bytes and metadata; a failed check is an invalid-file error carrying its message |
| Validators.ValidateUploadFile | utils/validators.py:99-120 | success is the integrity step's result (its repaired bytes and metadata); every failure is a validation error |
| Validators.FirstFailure | utils/validators.py:99-120 | the position of the first failing check: all before it pass |
| Validators.FirstFailingCheckDecides | utils/validators.py:99-120 | the upload passes exactly when all five checks pass; otherwise the error is that of the first failing check in pipeline order |
| Validators.SpoofedExtensionReachesIntegrity | utils/validators.py:114-118 | a ".jpg" name with PNG bytes passes every check before integrity; the detected "png" is never compared with the name |
| Validators.PngSignatureDetected | utils/validators.py:13-21 | content starting with the PNG signature is detected as PNG |
| Validators.ExtensionCheckedBeforeSize | utils/validators.py:102-111 | an empty ".txt" upload is a 415 format error, not the 400 empty-file error |
| CacheService.Bound | services/cache_service.py:67-68 | the capacity is the configured size when that is at least one, and one otherwise |
| CacheService.ExpiryIsInclusive | services/cache_service.py:23-25 | an entry is live up to and including its expiry time, expired one second later, and stays expired as time passes |
| CacheService.Remove | services/cache_service.py:81-85 | deleting keys keeps exactly the other keys, stays duplicate-free and never grows |
| CacheService.RemoveAt | services/cache_service.py:45-50 | deleting or moving one key leaves every other key in its relative order |
| CacheService.ExpiredKeys | services/cache_service.py:106 | lists exactly the keys whose entries are expired |
| CacheService.LiveKeys | services/cache_service.py:93-101 | lists exactly the keys whose entries are still live, in cache order |
| CacheService.RemoveExpiredIsLive | services/cache_service.py:106-108 | deleting the expired keys leaves exactly the live keys, in order |
| CacheService.LiveAndExpiredPartition | services/cache_service.py:103-113 | the live and the expired keys together account for every key |
| CacheService.DeleteEach | services/cache_service.py:107-108 | the deletion loop removes exactly the listed keys from order and map, and changes no other entry |
| CacheService.SweepComplete | services/cache_service.py:103-113 | after deleting every expired key, exactly the live entries remain, in order, with their values; the removed count plus the remaining count is the old count |
| CacheService.LRUCache.constructor | services/cache_service.py:13-21 | a new cache is empty with all counters at zero |
| CacheService.LRUCache.EvictLru | services/cache_service.py:27-31 | drops exactly the least recently used entry and counts one eviction; does nothing on an empty cache |
| CacheService.LRUCache.Get | services/cache_service.py:34-55 | returns the value of a live key, moves it to the most-recent end and counts a hit; deletes an expired key and counts a miss; counts a miss for an absent key; when disabled returns None and changes nothing |
| CacheService.LRUCache.Set | services/cache_service.py:57-79 | stores the value expiring `ttl` (default the configured TTL) from now, as the most recent key, and counts a set; the value is found exactly until its expiry time; a new key at capacity first evicts the front key; an overwrite never evicts; disabled is a no-op; the size never exceeds the capacity |
| CacheService.LRUCache.MoveToEnd | services/cache_service.py:49-50 | moves a present key to the most recent end; the entries and counters are unchanged |
| CacheService.LRUCache.Overwrite | services/cache_service.py:70-78 | a present key gets the new entry and becomes the most recent key; nothing is evicted |
| CacheService.LRUCache.Insert | services/cache_service.py:66-78 | a new key at capacity first evicts the front key, then is added as the most recent key; below capacity nothing is evicted |
| CacheService.LRUCache.Delete | services/cache_service.py:81-85 | removes only the named key, a no-op when absent; counters unchanged |
| CacheService.LRUCache.Clear | services/cache_service.py:87-91 | empties the cache; counters unchanged |
| CacheService.LRUCache.PurgeExpired | services/cache_service.py:103-113 | removes exactly the expired entries, keeps the survivors in order with their values, and returns how many went |
| CacheService.LRUCache.Size | services/cache_service.py:93-101 | purges the expired entries, then returns the remaining count, which is within capacity |
| CacheService.LRUCache.CleanupExpired | services/cache_service.py:103-113 | purges the expired entries and returns the number removed |
| CacheService.LRUCache.GetStats | services/cache_service.py:115-142 | reports the current size (within capacity, expired entries included), the four counters, capacity and TTL |
| CacheService.LRUCache.ResetStats | services/cache_service.py:144-152 | zeroes the counters and leaves the entries alone |
| CacheService.HexDigest | services/cache_service.py:157 | two lower-case hex digits per byte |
| CacheService.HexRoundTrip | services/cache_service.py:157 | the hex form decodes back to the digest |
| CacheService.GenerateCacheKey | services/cache_service.py:155-157 | the key is 64 lower-case hex characters |
| CacheService.CacheKeyMatchesDigest | services/cache_service.py:155-157 | two contents share a key exactly when their digests agree |
| Orchestrator.FreshResult | main.py:151-170 | the stored record holds the cleaned OCR text (clean, CR-free, no longer, with the same non-whitespace characters in order), the OCR confidence, language, detected languages and has-text flag, the image's width, height and format, and is marked as not cached |
| Orchestrator.HitResponse | main.py:137-146 | a cached record is served with its text, confidence and metadata, only the cached flag set |
| Orchestrator.MissOutcome | main.py:149-170 | OCR success gives the fresh, cleaned, uncached response; OCR failure is a processing error with the engine's message |
| Orchestrator.Serve | main.py:127-189 | a live entry is served as cached, moved to the most recent end and counted as a hit, with the entries unchanged; otherwise a miss is counted, an expired entry for the key is dropped and the OCR answer returned; a recognised image is stored under its key as the most recent entry, evicting the least recently used other key when full, and counted as a set; a failure stores nothing; a disabled cache changes nothing but the returned answer |
| Orchestrator.ExtractText | main.py:115-189 | a request is rejected exactly when validation fails, and then the cache is untouched; otherwise the content key of the validated bytes is served as above, with the whole new cache state stated |
| Orchestrator.RepeatedRequestIsHit | main.py:125-173 | the same bytes sent again after a recognised miss, within the TTL, are served from the cache with the same text |
| Orchestrator.ItemOf | main.py:226-279 | an item succeeds exactly when its request did; a successful item carries the response's text, confidence and metadata and no error; a failed item has empty text, confidence 0, no metadata and the error message |
| Orchestrator.FailedCount | main.py:285-286 | counts the failed results: 0 exactly when all succeed, all exactly when all fail |
| Orchestrator.PathsPartition | main.py:212-239 | every item was rejected, served from the cache or sent to OCR: one of the three |
| Orchestrator.SuccessesWereServed | main.py:224-239 | every successful item was a cache hit or an OCR call |
| Orchestrator.ProcessSingleImage | main.py:212-279 | one batch item, with its index and filename, built from the outcome `extract_text` gives: a validation failure when rejected, a cached success on a hit, the OCR answer on a miss; the hit, miss and set counters move by exactly this request's share |
| Orchestrator.Stores | main.py:259-260 | the number of stores in a batch is at most its OCR calls, and zero when the cache is disabled |
| Orchestrator.RecordedRejectionsFail | main.py:271-279 | every rejected item is a failure whose error is its validation message |
| Orchestrator.BatchExtractText | main.py:192-307 | 0 or more than 10 images is a batch-size error before any item runs, leaving the cache untouched; otherwise one result per image in index order, each built from its own outcome (validation error, cached success or OCR answer), the failed count, hit and OCR counts that are the numbers of hit and miss paths, and the cache counters advanced by exactly those hits, misses and stores; the list of cache states from before the first image to after the last gives each image's transition (unchanged when rejected, otherwise the lookup-and-store step of `Serve` for its key), and ends in the final cache |

## Left out

- I/O and plumbing: FastAPI routes, static files, the rate limiter, the exception-to-JSON handlers and logging.
- Configuration reading: environment variables and dotenv. `Config` holds the default values, and the cache takes enabled, capacity and TTL as constructor arguments.
- The periodic `cleanup_cache_periodically` task and the lifespan hook. `CleanupExpired` is the operation that task calls.
- Concurrency: `asyncio.gather` and the cache's re-entrant lock. Batch items run one after another in index order, on a single thread.
- Time: `time.time()` is a float read at each step. The model takes one integer `now` per request, so a request sees no time pass between its lookup and its store.
- `processing_time_ms` and the float statistics of `get_stats` (hit rate, memory estimate, oldest entry age).
- SHA-256 internals: the digest is a function parameter that returns 32 bytes.
- The imaging library: decoding, corruption detection and repair form the `IntegrityCheck` parameter. Its failure text is the whole error message.
- The OCR engine: Google Cloud Vision and its confidence averaging are the `recognize` parameter. It returns a result or the message of its failure.
- The pydantic response models and their confidence bounds.
- Validators.ToLower: lower-cases ASCII letters only, because Python's full Unicode `str.lower()` is not modelled.
- CacheService.LRUCache.GetStats: returns the integer fields only.
