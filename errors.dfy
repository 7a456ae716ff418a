/**
 * The exception taxonomy of utils/error_handlers.py. Every exception carries
 * a message and an HTTP status; the base kind takes its status from the
 * caller (500 when none is given), every subclass fixes its own.
 */
module Errors {

  datatype ApiError =
    | OcrApi(message: string, status: int := 500)
    | InvalidFileFormat(message: string := "Unsupported file format. Please upload JPG, PNG, GIF, WebP, or BMP.")
    | FileSizeExceeded(message: string := "File too large. Maximum size is 10MB.")
    | InvalidFile(message: string := "Invalid or corrupted image file. Please try another image.")
    | OcrProcessing(message: string := "OCR processing failed")
    | BatchSizeExceeded(message: string := "Too many images. Maximum is 10 images per batch.")
  {
    /** The HTTP status the exception handler answers with. */
    function StatusCode(): (code: int)
      ensures OcrApi? ==> code == status
      ensures InvalidFileFormat? <==> !OcrApi? && code == 415
      ensures FileSizeExceeded? <==> !OcrApi? && code == 413
      ensures InvalidFile? || BatchSizeExceeded? <==> !OcrApi? && code == 400
      ensures OcrProcessing? <==> !OcrApi? && code == 500
    {
      match this
      case OcrApi(_, s) => s
      case InvalidFileFormat(_) => 415
      case FileSizeExceeded(_) => 413
      case InvalidFile(_) => 400
      case OcrProcessing(_) => 500
      case BatchSizeExceeded(_) => 400
    }

    /** `str(exc)`: the message the exception was raised with. */
    function ToString(): string {
      message
    }

    /** Raised by the upload validators (as opposed to the OCR call or the batch gate). */
    predicate IsValidationError() {
      InvalidFileFormat? || FileSizeExceeded? || InvalidFile?
    }
  }

  /**
   * The status of a subclass does not depend on the message; the base kind
   * defaults to 500; and the three validation kinds are told apart by status.
   */
  lemma StatusIsFixedPerKind(m1: string, m2: string)
    ensures InvalidFileFormat(m1).StatusCode() == InvalidFileFormat(m2).StatusCode() == 415
    ensures FileSizeExceeded(m1).StatusCode() == FileSizeExceeded(m2).StatusCode() == 413
    ensures InvalidFile(m1).StatusCode() == BatchSizeExceeded(m2).StatusCode() == 400
    ensures OcrProcessing(m1).StatusCode() == OcrApi(m2).StatusCode() == 500
    ensures OcrApi(m1).ToString() == m1 && InvalidFile(m2).ToString() == m2
  {
  }

  /** A validation error is a client error, and its status tells which check failed. */
  lemma ValidationStatusDistinguishesKind(e: ApiError)
    requires e.IsValidationError()
    ensures 400 <= e.StatusCode() < 500
    ensures e.StatusCode() == 415 ==> e.InvalidFileFormat?
    ensures e.StatusCode() == 413 ==> e.FileSizeExceeded?
    ensures e.StatusCode() == 400 ==> e.InvalidFile?
  {
  }
}
