/** Values shared by the tools and the HTTP endpoints of the menu analyzer. */
module Common {

  /** A JSON value that may be absent or `null`. */
  datatype Option<+T> = None | Some(value: T)

  /** What a FastAPI endpoint hands back: the tool's dict unchanged, or an
      `HTTPException` with a status code and a detail message. */
  datatype HttpReply<+T> = Ok(body: T) | HttpError(code: int, detail: string)

  /** What a Gemini `generate_content` call produced: the call itself raised,
      the prompt was blocked (with its `block_reason_message`, "" if none), the
      `.text` accessor raised `ValueError`, or the reply text. */
  datatype LlmReply =
    | CallFailed(reason: string)
    | Blocked(blockMessage: string)
    | TextFails
    | ReplyText(text: string)

  type byte = b: int | 0 <= b < 256
}
