/** Tool 1, `detect_menu`: OCR of the menu photo, then LLM filtering of the
    recognised lines into dish names; and the `/upload_menu/` endpoint that
    turns its error status into HTTP 500. The Vision and Gemini calls are not
    made here: their outcomes are parameters. */
module Menu {
  import opened Common
  import opened Text

  /** What the Vision `images:annotate` call produced. `OcrText` carries
      `textAnnotations[0].description`, which is "" when the response has no
      annotations. `OcrNetworkError` is a `requests.RequestException`: a
      non-2xx status, a connection failure, or (in current `requests`) a body
      that is not JSON. `OcrFailed` is any other exception, such as a missing
      `responses` key or an empty annotation list, or a JSON error that
      older `requests` versions raise as a plain `ValueError`. */
  datatype OcrReply =
    | OcrNetworkError(reason: string)
    | OcrFailed(reason: string)
    | OcrText(raw: string)

  /** The dict `detect_menu` returns, by its "status" field. */
  datatype MenuResult =
    | Success(items: seq<string>)
    | SuccessOcrOnly(items: seq<string>, message: string)
    | Error(message: string)

  const VisionKeyMissing := "VISION_API_KEY not set in environment"
  const FilteringSkipped := "LLM filtering skipped"
  const ParsingFailed := "LLM response parsing failed (detect_menu filtering) and not blocked by safety."

  /** The block reason the error message names: the model's own message if
      it gave one, else "safety filter". */
  function BlockReason(blockMessage: string): (r: string)
    ensures r != []
    ensures blockMessage != [] ==> r == blockMessage
    ensures blockMessage == [] ==> r == "safety filter"
  {
    if blockMessage != [] then blockMessage else "safety filter"
  }

  /** `detect_menu`, with the environment lookups `visionKey` and `geminiKey`
      (set and non-empty) and the two service replies as inputs. The LLM reply
      is only looked at when the OCR text has something in it and a Gemini key
      is set. The guard on line 76 is always true where it is reached, since a
      blocked reply is a different constructor from `TextFails`. */
  function DetectMenu(visionKey: bool, ocr: OcrReply, geminiKey: bool, llm: LlmReply): (r: MenuResult)
    ensures !r.Error? ==> forall k :: 0 <= k < |r.items| ==> r.items[k] != [] && IsStripped(r.items[k])
    ensures r.SuccessOcrOnly? ==> !geminiKey && r.message == FilteringSkipped
    ensures r.Success? && r.items != [] ==> visionKey && ocr.OcrText? && geminiKey && llm.ReplyText?
  {
    if !visionKey then Error(VisionKeyMissing)
    else match ocr
      case OcrNetworkError(reason) => Error("Network error: " + reason)
      case OcrFailed(reason) => Error(reason)
      case OcrText(raw) =>
        if Strip(raw) == [] then Success([])
        else if !geminiKey then SuccessOcrOnly(CleanLines(raw), FilteringSkipped)
        else match llm
          case CallFailed(reason) => Error(reason)
          case Blocked(blockMessage) => Error("LLM content generation blocked: " + BlockReason(blockMessage))
          case TextFails => Error(ParsingFailed)
          case ReplyText(out) => Success(CleanLines(out))
  }

  /** Whitespace-only OCR text gives `success` with no items, whatever the
      Gemini key and whatever the LLM would have said: the LLM is not consulted. */
  lemma BlankOcrSkipsLlm(raw: string, geminiKey: bool, llm: LlmReply, geminiKey': bool, llm': LlmReply)
    requires AllWhitespace(raw)
    ensures DetectMenu(true, OcrText(raw), geminiKey, llm) == Success([])
    ensures DetectMenu(true, OcrText(raw), geminiKey, llm) == DetectMenu(true, OcrText(raw), geminiKey', llm')
  {
  }

  /** Without a Gemini key the result is `success_ocr_only` carrying the
      cleaned OCR lines, never an error, and the LLM reply does not matter; the
      item list is non-empty because the text was not blank. */
  lemma NoGeminiKeyIsOcrOnly(raw: string, llm: LlmReply)
    requires !AllWhitespace(raw)
    ensures var r := DetectMenu(true, OcrText(raw), false, llm);
      && r == SuccessOcrOnly(CleanLines(raw), FilteringSkipped)
      && !r.Error?
      && r.items != []
      && forall k :: 0 <= k < |r.items| ==> r.items[k] != [] && IsStripped(r.items[k])
  {
  }

  /** With a Gemini key and non-blank OCR text, the outcome is decided by the
      LLM reply alone: blocked, a failing `.text` or a failing call is an error,
      and reply text gives `success` with its cleaned lines. */
  lemma FilteredOutcome(raw: string, llm: LlmReply)
    requires !AllWhitespace(raw)
    ensures var r := DetectMenu(true, OcrText(raw), true, llm);
      && (r.Error? <==> !llm.ReplyText?)
      && (llm.Blocked? ==> r == Error("LLM content generation blocked: " + BlockReason(llm.blockMessage)))
      && (llm.TextFails? ==> r == Error(ParsingFailed))
      && (llm.ReplyText? ==> r == Success(CleanLines(llm.text)))
      && !r.SuccessOcrOnly?
  {
  }

  /** Every outcome by status: `error` exactly on a missing Vision key, a failed
      OCR call, or (with a Gemini key and non-blank text) an LLM reply with no
      usable text; `success_ocr_only` exactly when the Gemini key is missing and
      the text is not blank. Every item of a successful result is a non-empty
      stripped line. */
  lemma DetectMenuStatus(visionKey: bool, ocr: OcrReply, geminiKey: bool, llm: LlmReply)
    ensures var r := DetectMenu(visionKey, ocr, geminiKey, llm);
      && (r.Error? <==>
            !visionKey || !ocr.OcrText?
            || (geminiKey && !AllWhitespace(ocr.raw) && !llm.ReplyText?))
      && (r.SuccessOcrOnly? <==> visionKey && ocr.OcrText? && !geminiKey && !AllWhitespace(ocr.raw))
      && (!r.Error? ==> forall k :: 0 <= k < |r.items| ==> r.items[k] != [] && IsStripped(r.items[k]))
  {
  }

  /** `/upload_menu/`. `readFailure` is the message of an exception raised
      while the upload is read or base64-encoded (line 165), which line 169
      turns into a 500; `result` is what `detect_menu` returned otherwise. */
  function UploadMenu(readFailure: Option<string>, result: MenuResult): (r: HttpReply<MenuResult>)
    ensures r.HttpError? ==> r.code == 500
  {
    if readFailure.Some? then HttpError(500, readFailure.value)
    else if result.Error? then HttpError(500, result.message)
    else Ok(result)
  }

  /** End to end: once the upload is read, the endpoint answers 500 with the
      tool's message exactly when `detect_menu` reports `error`; every other
      result, `success_ocr_only` included, reaches the client unchanged, so a
      missing Gemini key is never an HTTP error. An upload that cannot be
      read is a 500 with that failure's message, whatever the tool would say. */
  lemma UploadMenuStatus(visionKey: bool, ocr: OcrReply, geminiKey: bool, llm: LlmReply, failure: string)
    ensures var d := DetectMenu(visionKey, ocr, geminiKey, llm);
      var r := UploadMenu(None, d);
      && (r.HttpError? <==> d.Error?)
      && (r.HttpError? ==> r.code == 500 && r.detail == d.message)
      && (r.Ok? ==> r.body == d)
      && (visionKey && ocr.OcrText? && !geminiKey ==> r.Ok?)
      && UploadMenu(Some(failure), d) == HttpError(500, failure)
  {
  }
}
