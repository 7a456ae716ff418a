/**
 * The configuration constants the core reads (config.py), at their default
 * values. Reading them from environment variables is not modelled.
 */
module Config {
  import opened Prelude

  const MAX_FILE_SIZE_MB: nat := 10
  const MAX_FILE_SIZE_BYTES: nat := MAX_FILE_SIZE_MB * 1024 * 1024

  const ALLOWED_EXTENSIONS: set<string> := {"jpg", "jpeg", "png", "gif", "webp", "bmp"}

  const ALLOWED_MIME_TYPES: set<string> :=
    {"image/jpeg", "image/jpg", "image/png", "image/gif", "image/webp", "image/bmp"}

  /** Magic numbers and the format each one identifies, in the table's own order. */
  const FILE_SIGNATURES: seq<(Bytes, string)> := [
    ([0xFF, 0xD8, 0xFF], "jpg"),
    ([0x89, 0x50, 0x4E, 0x47, 0x0D, 0x0A, 0x1A, 0x0A], "png"),
    ([0x47, 0x49, 0x46, 0x38, 0x37, 0x61], "gif"),
    ([0x47, 0x49, 0x46, 0x38, 0x39, 0x61], "gif"),
    ([0x52, 0x49, 0x46, 0x46], "webp"),
    ([0x42, 0x4D], "bmp")
  ]

  const CACHE_TTL_SECONDS: int := 3600
  const CACHE_ENABLED: bool := true
  const MAX_CACHE_SIZE: int := 1000

  const MAX_BATCH_SIZE: nat := 10
}
