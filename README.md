# SnapMenu menu analyzer, modelled in Dafny

SnapMenu's backend reads a photographed restaurant menu and finds a photo for
each dish. `adk_backend/multi_tool_agent/agent.py` has two tools and three
HTTP endpoints:

- `detect_menu` sends the image to Vision OCR. It cleans the recognised text
  into lines and, when a Gemini key is set, asks Gemini to keep only the dish
  names.
- `search_image` builds a search query (Gemini's, or the template
  `"<dish> meal photo"`), asks Custom Search for one image and takes a URL
  from the first hit.
- `/upload_menu/` and `/get_dish_image/` wrap the two tools. Their `error`
  status becomes HTTP 500, and `/get_dish_image/` rejects a blank dish first.
- `/proxy_image/` fetches a URL. It streams the response if it is an image.
  If it is an HTML page, it takes the page's `og:image` (else `twitter:image`)
  URL, makes it absolute, and fetches that URL one more time.

The model is pure: functions over values, plus lemmas. The Vision, Gemini,
Custom Search and HTTP calls are never made. Each call's outcome is an input:
a datatype value (`OcrReply`, `LlmReply`, `SearchReply`) or a function
parameter (the search provider `string -> SearchReply`, and in `Proxy.Web` the
HTTP client, the HTML parser, `urlparse` and `urljoin`). The HTTP client
answers a request number and a URL, so the proxy's second GET may be answered
differently from its first even for the same URL. Python's exceptions
become constructors of these datatypes, and the `except` clauses become a
mapping function (`Proxy.Handle`).

Files, one module each:

- `common.dfy` (`Common`): `Option`, the endpoint reply `HttpReply`, the Gemini reply `LlmReply`, `byte`.
- `text.dfy` (`Text`): `str.strip`, `str.split("\n")`, `str.lower`, `startswith`, `endswith`, and the line cleaning.
- `menu.dfy` (`Menu`): `detect_menu` and `/upload_menu/`.
- `search.dfy` (`ImageSearch`): the search term, the URL selection, `search_image` and `/get_dish_image/`.
- `proxy.dfy` (`Proxy`): `/proxy_image/` and `fetch_and_stream_image_content`.

Three points of `agent.py` that a reader might expect to behave otherwise:

- Line 139's `image.thumbnailLink` arm sits in the `else` of `if items`,
  where its own `if items` is false, so it never runs. `ImageSearch.PickUrl`
  keeps that dead arm, and `ImageSearch.ThumbnailNeverUsed` proves the
  thumbnail is never returned.
- Line 142 sets the URL to `cse_image[0].src` even when that entry has no
  `src`. A falsy-but-present `link` (`""`) is returned as it is when there is
  no `cse_image`.
- On the second hop, `raise_for_status` (line 190) runs before the
  media-type check, so an upstream error status takes precedence over 415.

## Model

| member | source | states |
|---|---|---|
| Text.Strip | adk_backend/multi_tool_agent/agent.py:42 | `strip()` leaves neither end whitespace, never grows the text, and is empty exactly when the text is all whitespace |
| Text.StripFrame | adk_backend/multi_tool_agent/agent.py:42 | the text is its stripped form with whitespace on either side: `strip()` removes only leading and trailing whitespace |
| Text.StripUnique | adk_backend/multi_tool_agent/agent.py:50 | whitespace around a stripped middle is exactly what `strip()` removes, which pins the function down completely |
| Text.StrippedIsFixed | adk_backend/multi_tool_agent/agent.py:123-124 | a text with no whitespace at either end is left unchanged by `strip()` |
| Text.StripIdempotent | adk_backend/multi_tool_agent/agent.py:117 | stripping an already stripped query again changes nothing |
| Text.Split | adk_backend/multi_tool_agent/agent.py:50 | `split("\n")` gives at least one piece, no piece holds a newline, and joining the pieces with newlines gives the text back |
| Text.SplitJoin | adk_backend/multi_tool_agent/agent.py:73 | the other round trip: splitting a newline join of newline-free pieces gives back those pieces |
| Text.JoinAllWhitespace | adk_backend/multi_tool_agent/agent.py:42-50 | a text is all whitespace exactly when each of its lines is, so the blank-text check and the line cleaning agree |
| Text.DropEmpty | adk_backend/multi_tool_agent/agent.py:50 | the `if l.strip()` part: never more strings than given, none of them empty, and nothing is left exactly when every string is empty |
| Text.Clean | adk_backend/multi_tool_agent/agent.py:50 | the comprehension never returns more items than there are lines |
| Text.CleanItems | adk_backend/multi_tool_agent/agent.py:50 | every cleaned item is a non-empty stripped line |
| Text.CleanEmpty | adk_backend/multi_tool_agent/agent.py:50 | nothing is left exactly when every line is blank |
| Text.KeptLength | adk_backend/multi_tool_agent/agent.py:50 | there is one kept position per string that survives the `if` filter |
| Text.DropEmptyAtKept | adk_backend/multi_tool_agent/agent.py:50 | the k-th surviving string is the input string at the k-th kept position |
| Text.KeptIncreasing | adk_backend/multi_tool_agent/agent.py:50 | the kept positions strictly increase, so input order is kept |
| Text.KeptComplete | adk_backend/multi_tool_agent/agent.py:50 | every non-empty string has its position kept, so nothing non-empty is dropped |
| Text.CleanInOrder | adk_backend/multi_tool_agent/agent.py:50 | the cleaned items are exactly the stripped non-blank lines, in input order: item k is the stripped line at the k-th kept position, the positions increase, and every non-blank line is kept |
| Text.CleanLines | adk_backend/multi_tool_agent/agent.py:50 | cleaned OCR or LLM text has no more items than lines; every item is non-empty and stripped; it is empty exactly when the text is all whitespace |
| Text.ToLower | adk_backend/multi_tool_agent/agent.py:187 | the lowered text has the same length and no capital letter left, only capitals are changed, and it equals the input up to case |
| Text.ToLowerIdempotent | adk_backend/multi_tool_agent/agent.py:215 | lowering an already lowered media type changes nothing |
| Text.ToLowerCaseInsensitive | adk_backend/multi_tool_agent/agent.py:215 | two headers lower to the same media type exactly when they differ only in the case of their letters |
| Menu.BlockReason | adk_backend/multi_tool_agent/agent.py:65 | the block reason is the model's own message when it has one, else "safety filter"; never empty |
| Menu.DetectMenu | adk_backend/multi_tool_agent/agent.py:29-86 | every returned item is a non-empty stripped line; `success_ocr_only` only without a Gemini key and with the skip message; a non-empty `success` only from reply text of a keyed LLM pass. The per-branch behaviour is stated by the four lemmas below |
| Menu.BlankOcrSkipsLlm | adk_backend/multi_tool_agent/agent.py:42-44 | whitespace-only OCR text gives `success` with no items; the result depends on neither the Gemini key nor the LLM reply |
| Menu.NoGeminiKeyIsOcrOnly | adk_backend/multi_tool_agent/agent.py:47-51 | without a Gemini key, non-blank OCR text gives `success_ocr_only` with the cleaned OCR lines and the skip message. It is never an error, and the item list is non-empty and made of stripped non-empty lines |
| Menu.FilteredOutcome | adk_backend/multi_tool_agent/agent.py:64-80 | with a Gemini key and non-blank OCR text, the result is an error exactly when the reply has no text. Blocked gives the "blocked: reason" error and a failing `.text` gives the parsing error (the line-76 guard always holds there). Reply text gives `success` with its cleaned lines, never `success_ocr_only` |
| Menu.DetectMenuStatus | adk_backend/multi_tool_agent/agent.py:29-86 | `error` exactly when the Vision key is missing, the OCR call failed, or a keyed LLM pass on non-blank text gave no text. `success_ocr_only` exactly when the Gemini key is missing and the text is not blank. Every returned item is a non-empty stripped line |
| Menu.UploadMenu | adk_backend/multi_tool_agent/agent.py:162-169 | the endpoint only ever fails with 500 |
| Menu.UploadMenuStatus | adk_backend/multi_tool_agent/agent.py:162-169 | once the upload is read, `/upload_menu/` answers 500 with the tool's message exactly when `detect_menu` reports `error`; every other result, `success_ocr_only` included, is returned unchanged. An upload that cannot be read is a 500 with that failure's message |
| ImageSearch.FallbackQuery | adk_backend/multi_tool_agent/agent.py:97 | the template query is the dish followed by " meal photo", so it is never empty |
| ImageSearch.QuoteTests | adk_backend/multi_tool_agent/agent.py:123-124 | the `startswith`/`endswith` tests hold exactly when the first and last characters are both that quote |
| ImageSearch.StripQuotes | adk_backend/multi_tool_agent/agent.py:121-124 | the quote handling; its behaviour is stated by QuoteTests, StripQuotesShape, StripQuotesEnclosed and StripQuotesOnePair |
| ImageSearch.StripQuotesShape | adk_backend/multi_tool_agent/agent.py:123-124 | a query not enclosed in one kind of quote is unchanged. An enclosed one gets strictly shorter and comes out stripped, and stripping is preserved |
| ImageSearch.StripQuotesEnclosed | adk_backend/multi_tool_agent/agent.py:123-124 | a query that starts and ends with the same quote becomes its inside, stripped |
| ImageSearch.StripQuotesOnePair | adk_backend/multi_tool_agent/agent.py:123-124 | exactly one pair of quotes is removed: a stripped text inside one pair of `"` or `'` comes back unchanged, even when it is itself quoted |
| ImageSearch.DoubleQuotedKeepsInnerPair | adk_backend/multi_tool_agent/agent.py:123 | a doubly quoted query keeps its inner pair of quotes |
| ImageSearch.MismatchedQuotesKept | adk_backend/multi_tool_agent/agent.py:123-124 | for instance `"kofta'`, whose two ends are different quotes, is not unquoted |
| ImageSearch.SearchTerm | adk_backend/multi_tool_agent/agent.py:97-131 | the search term is never empty. It is either the template or, with a Gemini key and reply text, the stripped and unquoted reply, which is then stripped |
| ImageSearch.SearchTermChoice | adk_backend/multi_tool_agent/agent.py:111-127 | the LLM query is used whenever the key is set and the reply's text is non-empty after stripping and unquoting. Otherwise the template is used, so a blocked reply, a failing `.text` or a raised call falls back |
| ImageSearch.EmptyQuotedFallsBack | adk_backend/multi_tool_agent/agent.py:121-126 | a reply that strips to a lone quote, or to one pair of quotes around blanks, is empty after unquoting, so the template is used |
| ImageSearch.LoneQuoteFallsBack | adk_backend/multi_tool_agent/agent.py:121-126 | for instance the replies `"` and ` ' ' ` give the template query |
| ImageSearch.PickUrl | adk_backend/multi_tool_agent/agent.py:138-143 | a returned URL is the first hit's `link` or its first `cse_image` `src`, never anything else |
| ImageSearch.PickUrlCases | adk_backend/multi_tool_agent/agent.py:138-143 | no hits gives `None`. Otherwise a truthy `link` wins; failing that, the first `cse_image` entry's `src` is used, even when absent; with no `cse_image` entry the falsy `link` itself is returned |
| ImageSearch.ThumbnailNeverUsed | adk_backend/multi_tool_agent/agent.py:139 | changing `thumbnailLink` never changes the URL. A returned URL is the first hit's `link` or its first `cse_image` `src` |
| ImageSearch.ThumbnailOnlyGivesNothing | adk_backend/multi_tool_agent/agent.py:139-143 | a hit that has only a thumbnail yields no URL |
| ImageSearch.SearchImage | adk_backend/multi_tool_agent/agent.py:89-151 | `search_image`; its behaviour is stated by SearchImageStatus and SearchImageAsksOnce |
| ImageSearch.SearchImageStatus | adk_backend/multi_tool_agent/agent.py:89-151 | `error` exactly when the search keys are missing or the search call failed. Otherwise the result is `success` with the selected URL, and no hits gives `success` with `None` |
| ImageSearch.SearchImageAsksOnce | adk_backend/multi_tool_agent/agent.py:133-136 | the provider is asked only for the (non-empty) search term: two providers that agree on that query give the same result |
| ImageSearch.GetDishImage | adk_backend/multi_tool_agent/agent.py:171-180 | the endpoint fails only with 400 or 500, and a success always carries the tool's `success` result |
| ImageSearch.InvalidDishRejected | adk_backend/multi_tool_agent/agent.py:174-175 | a dish that is missing, not a string, empty or blank gives 400. The tool is not called: any two tools give the same answer |
| ImageSearch.ValidDishSearched | adk_backend/multi_tool_agent/agent.py:176-178 | a valid dish calls the tool with `dish.strip()`, which is non-empty and stripped. An `error` result becomes 500 with its message; any other result is returned unchanged |
| ImageSearch.GetDishImageFallbackQuery | adk_backend/multi_tool_agent/agent.py:171-178 | end to end without a Gemini key, the provider is asked for the stripped dish plus " meal photo", and no hits is a 200 with a `None` URL |
| Proxy.Find | adk_backend/multi_tool_agent/agent.py:230 | `soup.find` returns the first meta tag the selector matches, or none when no tag matches |
| Proxy.MediaType | adk_backend/multi_tool_agent/agent.py:187 | the media type has no capital letter and equals the header up to case |
| Proxy.TagContent | adk_backend/multi_tool_agent/agent.py:230-231 | a tag's content is used only when it is non-empty and belongs to a tag the selector matches; the FIRST matching tag decides (its non-empty content, else nothing, whatever later matches hold); with no matching tag there is nothing |
| Proxy.ExtractImageUrl | adk_backend/multi_tool_agent/agent.py:229-239 | the meta-tag extraction; its behaviour is stated by ExtractionPriority and the three lemmas after it |
| Proxy.ExtractionPriority | adk_backend/multi_tool_agent/agent.py:229-239 | an extracted URL is the non-empty content of a page tag. `og:image` content wins when present; `twitter:image` is used only when it is not; with neither there is no URL |
| Proxy.OgImageWins | adk_backend/multi_tool_agent/agent.py:230-233 | when the first `og:image` tag has content, that content is the URL, wherever the `twitter:image` tags are |
| Proxy.TwitterImageFallback | adk_backend/multi_tool_agent/agent.py:235-238 | with no `og:image` tag, the first `twitter:image` name tag's content is the URL |
| Proxy.FirstTwitterImageDecides | adk_backend/multi_tool_agent/agent.py:230-238 | for every page whose first `og:image` tag has no or empty content, the URL is the content of the first `twitter:image` name tag when that is non-empty |
| Proxy.EmptyFirstOgImageIsSkipped | adk_backend/multi_tool_agent/agent.py:230-238 | only the first `og:image` tag is looked at: if its content is empty, a later `og:image` is ignored and `twitter:image` decides |
| Proxy.AbsolutizeRule | adk_backend/multi_tool_agent/agent.py:245-246 | a URL with both a scheme and a netloc is kept and `urljoin` is not consulted. A URL missing either is joined onto the page URL |
| Proxy.Absolutize | adk_backend/multi_tool_agent/agent.py:245-246 | the absolutizing step; its behaviour is stated by AbsolutizeRule |
| Proxy.SecondHop | adk_backend/multi_tool_agent/agent.py:182-196 | the second hop streams only `image/` media types, and its own error is always 415 |
| Proxy.FromPage | adk_backend/multi_tool_agent/agent.py:224-253 | the HTML branch streams only after a second URL was chosen, and then only an `image/` type |
| Proxy.FirstHop | adk_backend/multi_tool_agent/agent.py:210-256 | the `try` block streams only `image/` media types, raises only 404 or 415 itself, and goes on to a second URL only after a 2xx first answer |
| Proxy.Handle | adk_backend/multi_tool_agent/agent.py:258-269 | the `except` clauses stream exactly what was streamed (same media type and bytes), re-raise an `HTTPException` with its own status, and turn every other exception into a status in [400, 600) |
| Proxy.UnresolvableUrlIsInternalError | adk_backend/multi_tool_agent/agent.py:245-269 | when the extracted URL cannot be parsed or joined (`ValueError`), the generic `except` answers 500 and no second request is made |
| Proxy.ProxyImage | adk_backend/multi_tool_agent/agent.py:198-269 | a call fetches nothing exactly when the URL is empty, and otherwise its URL first and at most one more |
| Proxy.EmptyUrlRejected | adk_backend/multi_tool_agent/agent.py:200-201 | an empty `image_url` is a 400 and nothing is fetched |
| Proxy.AtMostTwoFetches | adk_backend/multi_tool_agent/agent.py:212-250 | a call fetches its URL first and at most one more. The second fetch happens exactly after a 2xx HTML page that yields a URL, and it fetches that URL made absolute |
| Proxy.UpstreamStatusFirst | adk_backend/multi_tool_agent/agent.py:214-218 | a non-2xx first response ends the call before the content type is used. The status is kept when it is in [400, 600), else the answer is 502 |
| Proxy.Upstream404Preserved | adk_backend/multi_tool_agent/agent.py:260-263 | an upstream 404 reaches the client as 404, not as 502 |
| Proxy.DirectImageStreamed | adk_backend/multi_tool_agent/agent.py:220-222 | a 2xx `image/` response is streamed with its lowered media type, after one fetch. The HTML parser is not used |
| Proxy.OtherTypeUnsupported | adk_backend/multi_tool_agent/agent.py:254-256 | a 2xx response that is neither an image nor HTML is a 415, after one fetch |
| Proxy.MissingContentTypeUnsupported | adk_backend/multi_tool_agent/agent.py:215 | a missing content-type header reads as "unknown", which is neither an image nor HTML |
| Proxy.NoMetaImageNotFound | adk_backend/multi_tool_agent/agent.py:251-253 | an HTML page without a usable `og:image` or `twitter:image` is a 404, after one fetch |
| Proxy.SecondHopNeverParses | adk_backend/multi_tool_agent/agent.py:182-196 | the second hop never uses the HTML parser, and a 2xx answer that is not an image (HTML included) is a 415 |
| Proxy.SecondHopOutcome | adk_backend/multi_tool_agent/agent.py:190-196 | after a second fetch: a 2xx image is streamed from it; a transport failure is 502 and any other exception 500; an upstream error keeps a [400, 600) status, else 502; any other type is 415 |
| Proxy.FirstFetchFailures | adk_backend/multi_tool_agent/agent.py:264-269 | a transport failure on the first fetch is 502 and any other exception is 500, with nothing more fetched |
| Proxy.ErrorCodesInRange | adk_backend/multi_tool_agent/agent.py:258-269 | every failure is a status in [400, 600). It is one of 400, 404, 415, 500 or 502, or the status of the answer to one of its requests |
| Proxy.StreamIsImage | adk_backend/multi_tool_agent/agent.py:192-196 | whatever is streamed has an `image/` media type, and it is the lowered type and 2xx body of the answer to the last request |
| Proxy.UpperCaseHeadersDispatched | adk_backend/multi_tool_agent/agent.py:215-225 | for instance `IMAGE/PNG` is an image and `Text/HTML; charset=UTF-8` is HTML |
| Proxy.HeaderCaseIgnored | adk_backend/multi_tool_agent/agent.py:187-225 | the whole call ignores the case of the `content-type` headers: answers that differ only there give the same run, media types included |

## Left out

- The Vision, Gemini, Custom Search and HTTP calls themselves, with their headers, timeouts, redirects and API keys in URLs. Their outcomes are inputs.
- Prompt text, model names and generation settings (temperature, candidate count). Only the reply's outcome is modelled, so nothing ties the LLM reply to the OCR text or the dish.
- BeautifulSoup/lxml parsing: the page is given as its list of meta tags. `urlparse` and `urljoin` are uninterpreted functions (RFC 3986 section 5.2 reference resolution is not modelled), so no concrete join result is stated.
- `requote_uri` encoding of the query, base64 encoding of the upload, `StreamingResponse` byte handling, logging, `load_dotenv`/`os.getenv` (a key is a boolean "set and non-empty"), CORS, routing, and the `Agent` wiring of the two tools.
- FastAPI's own 422 for a missing `image_url` query parameter or a malformed body. Only the empty-string check of line 200 is modelled.
- async/await: the code runs one step after another, so the coroutine aspect is dropped.
- Text.ToLower: lowers only the ASCII letters, while Python's `str.lower` also lowers other letters. This decides nothing about the `image/` and `text/html` prefixes. It can change the streamed media-type label when the header has non-ASCII capitals.
- Exception message texts that embed `str(e)` or the status number (`Network error: ...` for the proxy, `Upstream server error: 404`). The proxy model keeps status codes only; the tools keep their fixed messages and an abstract reason string.
- ImageSearch.PickUrl: a `cse_image` entry that is not a JSON object (the bare `except: pass` on line 143) is not modelled. Every entry is taken to be an object with an optional `src`.
- The outer `except Exception` of `/get_dish_image/` (line 180) is not modelled: in its `try`, `body.get`, `isinstance` and `strip` cannot raise and `search_image` catches every exception itself. The one of `/upload_menu/` (line 169) is modelled as `UploadMenu`'s `readFailure`; reading the upload itself is I/O and is left out.
