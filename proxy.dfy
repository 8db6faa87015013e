/** The `/proxy_image/` endpoint and its helper `fetch_and_stream_image_content`:
    fetch a URL; stream it if it is an image; if it is an HTML page, take its
    `og:image` (else `twitter:image`) meta URL, make it absolute, and fetch
    that once more, which must be an image. Every failure becomes an HTTP
    status code. HTTP, HTML parsing and URL parsing are parameters. */
module Proxy {
  import opened Common
  import opened Text

  /** The outcome of one `client.get`: a transport failure (`httpx.RequestError`:
      DNS, connection, timeout), any other exception the call raises, or a
      response with its status, its `content-type` header if it has one, and
      its body. */
  datatype Fetch =
    | NetworkError
    | Unexpected
    | Response(status: int, contentType: Option<string>, content: seq<byte>)

  /** A `<meta>` tag of the page, with its `property`, `name` and `content`
      attributes. */
  datatype Meta = Meta(property: Option<string>, name: Option<string>, content: Option<string>)

  /** The `scheme` and `netloc` of `urlparse(u)`. */
  datatype UrlParts = UrlParts(scheme: string, netloc: string)

  /** The outside world of one proxy call. `fetch(n, u)` is the shared
      client's answer to the call's request number `n` (0 for the first GET,
      1 for the second) for the URL `u`: the two GETs are separate requests,
      so even the same URL may be answered differently. `parseHtml` turns a
      body into its meta tags (BeautifulSoup with lxml), `urlParse` is
      `urlparse` (`None` where it raises `ValueError`), `urlJoin` is
      `urljoin(base, u)` (`None` where it raises). */
  datatype Web = Web(
    fetch: (nat, string) -> Fetch,
    parseHtml: seq<byte> -> seq<Meta>,
    urlParse: string -> Option<UrlParts>,
    urlJoin: (string, string) -> Option<string>)

  /** What the endpoint sends: the bytes with their media type, or an error status. */
  datatype Outcome = Stream(mediaType: string, content: seq<byte>) | Failed(code: int)

  /** An outcome together with the URLs fetched, in order. */
  datatype Run = Run(outcome: Outcome, fetched: seq<string>)

  /** What escapes the `try` block of `proxy_image`. */
  datatype Raised =
    | HttpException(code: int)
    | HttpStatusError(status: int)
    | RequestError
    | OtherException

  /** The `try` block's result: the bytes to stream with their media type, or
      the exception that escaped it. */
  datatype Attempt = Streamed(mediaType: string, content: seq<byte>) | Threw(exception: Raised)

  /** `raise_for_status` lets exactly the 2xx statuses through. */
  predicate IsSuccess(status: int) {
    200 <= status < 300
  }

  /** `headers.get("content-type", "unknown").lower()`. */
  function MediaType(contentType: Option<string>): (r: string)
    ensures forall i :: 0 <= i < |r| ==> !IsUpper(r[i])
    ensures contentType.Some? ==> EqualUpToCase(r, contentType.value)
  {
    ToLower(if contentType.Some? then contentType.value else "unknown")
  }

  predicate IsImage(mediaType: string) {
    StartsWith(mediaType, "image/")
  }

  predicate IsHtml(mediaType: string) {
    StartsWith(mediaType, "text/html")
  }

  // ------------------------------------------------------------- extraction

  /** How `soup.find("meta", ...)` selects: `property="og:image"` or
      `attrs={"name": "twitter:image"}`. */
  datatype Selector = ByProperty(value: string) | ByName(value: string)

  predicate Selects(sel: Selector, m: Meta) {
    match sel
    case ByProperty(v) => m.property == Some(v)
    case ByName(v) => m.name == Some(v)
  }

  /** `soup.find`: the first meta tag the selector matches, if any. */
  function Find(page: seq<Meta>, sel: Selector): (r: Option<nat>)
    ensures r.Some? ==> r.value < |page| && Selects(sel, page[r.value])
    ensures r.Some? ==> forall j :: 0 <= j < r.value ==> !Selects(sel, page[j])
    ensures r.None? ==> forall j :: 0 <= j < |page| ==> !Selects(sel, page[j])
  {
    if page == [] then None
    else if Selects(sel, page[0]) then Some(0)
    else
      var rest := Find(page[1..], sel);
      assert forall j :: 1 <= j < |page| ==> page[j] == page[1..][j - 1];
      if rest.Some? then Some(rest.value + 1) else None
  }

  /** The non-empty `content` of the first tag the selector matches, if any:
      a first match with no or empty content gives nothing, whatever later
      matches hold. */
  function TagContent(page: seq<Meta>, sel: Selector): (r: Option<string>)
    ensures r.Some? ==> r.value != [] && exists i :: 0 <= i < |page| && Selects(sel, page[i]) && page[i].content == r
    ensures forall i ::
              0 <= i < |page| && Selects(sel, page[i]) && (forall j :: 0 <= j < i ==> !Selects(sel, page[j]))
              ==> r == (if page[i].content.Some? && page[i].content.value != [] then page[i].content else None)
    ensures (forall i :: 0 <= i < |page| ==> !Selects(sel, page[i])) ==> r.None?
  {
    var i := Find(page, sel);
    if i.Some? && page[i.value].content.Some? && page[i.value].content.value != []
    then page[i.value].content
    else None
  }

  const OgImage := ByProperty("og:image")
  const TwitterImage := ByName("twitter:image")

  /** Lines 229-239: `og:image` first, `twitter:image` only when that gave no
      URL. */
  function ExtractImageUrl(page: seq<Meta>): Option<string> {
    var og := TagContent(page, OgImage);
    if og.Some? then og else TagContent(page, TwitterImage)
  }

  /** The extracted URL is the non-empty content of a matching tag; an
      `og:image` whose first tag has content always wins; `twitter:image` is
      used only when there is no such `og:image`; with neither there is no URL. */
  lemma ExtractionPriority(page: seq<Meta>)
    ensures var r := ExtractImageUrl(page);
      && (r.Some? ==> r.value != [] && exists i :: 0 <= i < |page| && page[i].content == r)
      && (TagContent(page, OgImage).Some? ==> r == TagContent(page, OgImage))
      && (TagContent(page, OgImage).None? ==> r == TagContent(page, TwitterImage))
      && (r.None? <==> TagContent(page, OgImage).None? && TagContent(page, TwitterImage).None?)
  {
    var r := ExtractImageUrl(page);
    if r.Some? {
      var sel := if TagContent(page, OgImage).Some? then OgImage else TwitterImage;
      var i := Find(page, sel);
      assert page[i.value].content == r;
    }
  }

  /** A page whose first `og:image` tag has content yields that content,
      whatever `twitter:image` tags follow or precede it. */
  lemma OgImageWins(page: seq<Meta>, i: nat)
    requires i < |page| && page[i].property == Some("og:image")
    requires page[i].content.Some? && page[i].content.value != []
    requires forall j :: 0 <= j < i ==> page[j].property != Some("og:image")
    ensures ExtractImageUrl(page) == page[i].content
  {
    assert Selects(OgImage, page[i]);
  }

  /** When the first `og:image` tag has no or empty content, the first
      `twitter:image` name tag decides, whatever later `og:image` tags hold. */
  lemma FirstTwitterImageDecides(page: seq<Meta>, o: nat, i: nat)
    requires o < |page| && page[o].property == Some("og:image")
    requires forall j :: 0 <= j < o ==> page[j].property != Some("og:image")
    requires page[o].content.None? || page[o].content.value == []
    requires i < |page| && page[i].name == Some("twitter:image")
    requires forall j :: 0 <= j < i ==> page[j].name != Some("twitter:image")
    requires page[i].content.Some? && page[i].content.value != []
    ensures ExtractImageUrl(page) == page[i].content
  {
    assert Selects(OgImage, page[o]);
    assert Selects(TwitterImage, page[i]);
  }

  /** A page with no `og:image` tag but a `twitter:image` name tag with
      content yields that content. */
  lemma TwitterImageFallback(page: seq<Meta>, i: nat)
    requires forall j :: 0 <= j < |page| ==> page[j].property != Some("og:image")
    requires i < |page| && page[i].name == Some("twitter:image")
    requires page[i].content.Some? && page[i].content.value != []
    requires forall j :: 0 <= j < i ==> page[j].name != Some("twitter:image")
    ensures ExtractImageUrl(page) == page[i].content
  {
    assert Selects(TwitterImage, page[i]);
  }

  /** `soup.find` stops at the first `og:image` tag: when it has no content,
      a later `og:image` tag is not considered and `twitter:image` decides. */
  lemma EmptyFirstOgImageIsSkipped(later: string, tw: string)
    requires later != [] && tw != []
    ensures ExtractImageUrl([
      Meta(Some("og:image"), None, Some("")),
      Meta(Some("og:image"), None, Some(later)),
      Meta(None, Some("twitter:image"), Some(tw))]) == Some(tw)
  {
    var page := [
      Meta(Some("og:image"), None, Some("")),
      Meta(Some("og:image"), None, Some(later)),
      Meta(None, Some("twitter:image"), Some(tw))];
    assert Find(page, OgImage) == Some(0);
    assert page[1..][1..] == [page[2]];
    assert Find(page[1..][1..], TwitterImage) == Some(0);
    assert Find(page, TwitterImage) == Some(2);
  }

  /** Lines 245-246: the extracted URL is joined onto the page URL when its
      scheme or its netloc is empty, and kept as it is when it has both.
      `None` stands for the `ValueError` `urlparse` or `urljoin` may raise. */
  function Absolutize(web: Web, pageUrl: string, u: string): Option<string> {
    var parts := web.urlParse(u);
    if parts.None? then None
    else if parts.value.scheme == [] || parts.value.netloc == [] then web.urlJoin(pageUrl, u)
    else Some(u)
  }

  /** A URL with both a scheme and a netloc is kept and `urljoin` is not
      consulted; a URL missing either is replaced by its join onto the page. */
  lemma AbsolutizeRule(web: Web, pageUrl: string, u: string, join: (string, string) -> Option<string>)
    requires web.urlParse(u).Some?
    ensures var p := web.urlParse(u).value;
      && (p.scheme != [] && p.netloc != [] ==>
            Absolutize(web, pageUrl, u) == Some(u)
            && Absolutize(web.(urlJoin := join), pageUrl, u) == Some(u))
      && (p.scheme == [] || p.netloc == [] ==> Absolutize(web, pageUrl, u) == web.urlJoin(pageUrl, u))
  {
  }

  // -------------------------------------------------------------- the fetches

  /** `fetch_and_stream_image_content`: one fetch, a status check, then the
      media type must be an image; HTML is never parsed here. */
  function SecondHop(web: Web, url: string): (r: Attempt)
    ensures r.Streamed? ==> IsImage(r.mediaType)
    ensures r.Threw? && r.exception.HttpException? ==> r.exception.code == 415
  {
    match web.fetch(1, url)
    case NetworkError => Threw(RequestError)
    case Unexpected => Threw(OtherException)
    case Response(status, contentType, content) =>
      if !IsSuccess(status) then Threw(HttpStatusError(status))
      else if IsImage(MediaType(contentType)) then Streamed(MediaType(contentType), content)
      else Threw(HttpException(415))
  }

  /** The HTML branch after the page is fetched: extract, absolutize, and
      hand over to the second hop. Returns the second URL if one is fetched. */
  function FromPage(web: Web, pageUrl: string, content: seq<byte>): (r: (Attempt, Option<string>))
    ensures r.0.Streamed? ==> r.1.Some? && IsImage(r.0.mediaType)
  {
    var extracted := ExtractImageUrl(web.parseHtml(content));
    if extracted.None? then (Threw(HttpException(404)), None)
    else
      var target := Absolutize(web, pageUrl, extracted.value);
      if target.None? then (Threw(OtherException), None)
      else (SecondHop(web, target.value), target)
  }

  /** The `try` block of `proxy_image`, with the second URL fetched, if any. */
  function FirstHop(web: Web, url: string): (r: (Attempt, Option<string>))
    ensures r.0.Streamed? ==> IsImage(r.0.mediaType)
    ensures r.0.Threw? && r.0.exception.HttpException? ==> r.0.exception.code in {404, 415}
    ensures r.1.Some? ==> web.fetch(0, url).Response? && IsSuccess(web.fetch(0, url).status)
  {
    match web.fetch(0, url)
    case NetworkError => (Threw(RequestError), None)
    case Unexpected => (Threw(OtherException), None)
    case Response(status, contentType, content) =>
      var mediaType := MediaType(contentType);
      if !IsSuccess(status) then (Threw(HttpStatusError(status)), None)
      else if IsImage(mediaType) then (Streamed(mediaType, content), None)
      else if IsHtml(mediaType) then FromPage(web, url, content)
      else (Threw(HttpException(415)), None)
  }

  /** The `except` clauses of `proxy_image`. */
  function Handle(a: Attempt): (r: Outcome)
    ensures r.Stream? <==> a.Streamed?
    ensures a.Streamed? ==> r == Stream(a.mediaType, a.content)
    ensures a.Threw? && a.exception.HttpException? ==> r == Failed(a.exception.code)
    ensures a.Threw? && !a.exception.HttpException? ==> r.Failed? && 400 <= r.code < 600
  {
    match a
    case Streamed(mediaType, content) => Stream(mediaType, content)
    case Threw(HttpException(code)) => Failed(code)
    case Threw(HttpStatusError(status)) =>
      Failed(if 400 <= status < 600 then status else 502)
    case Threw(RequestError) => Failed(502)
    case Threw(OtherException) => Failed(500)
  }

  /** `GET /proxy_image/?image_url=url`. */
  function ProxyImage(web: Web, url: string): (r: Run)
    ensures r.fetched == [] <==> url == []
    ensures |r.fetched| <= 2 && (r.fetched != [] ==> r.fetched[0] == url)
  {
    if url == [] then Run(Failed(400), [])
    else
      var (attempt, second) := FirstHop(web, url);
      Run(Handle(attempt), [url] + (if second.Some? then [second.value] else []))
  }

  // ------------------------------------------------------------- properties

  /** An empty URL is a 400 and nothing is fetched. */
  lemma EmptyUrlRejected(web: Web)
    ensures ProxyImage(web, "") == Run(Failed(400), [])
  {
  }

  /** At most two fetches: the URL itself first, and a second one only after a
      2xx HTML page from which a URL was extracted, that URL made absolute. */
  lemma AtMostTwoFetches(web: Web, url: string)
    requires url != []
    ensures var run := ProxyImage(web, url);
      && 1 <= |run.fetched| <= 2
      && run.fetched[0] == url
      && (|run.fetched| == 2 <==>
            && web.fetch(0, url).Response?
            && IsSuccess(web.fetch(0, url).status)
            && !IsImage(MediaType(web.fetch(0, url).contentType))
            && IsHtml(MediaType(web.fetch(0, url).contentType))
            && ExtractImageUrl(web.parseHtml(web.fetch(0, url).content)).Some?
            && Absolutize(web, url, ExtractImageUrl(web.parseHtml(web.fetch(0, url).content)).value).Some?)
      && (|run.fetched| == 2 ==>
            Some(run.fetched[1]) == Absolutize(web, url, ExtractImageUrl(web.parseHtml(web.fetch(0, url).content)).value))
  {
  }

  /** A non-2xx first response ends the call before its content type is looked
      at: the status is kept when it is in [400, 600), else 502. */
  lemma UpstreamStatusFirst(web: Web, url: string)
    requires url != [] && web.fetch(0, url).Response? && !IsSuccess(web.fetch(0, url).status)
    ensures var s := web.fetch(0, url).status;
      ProxyImage(web, url) == Run(Failed(if 400 <= s < 600 then s else 502), [url])
  {
  }

  /** An upstream 404 stays a 404 rather than becoming a generic 502. */
  lemma Upstream404Preserved(web: Web, url: string)
    requires url != [] && web.fetch(0, url).Response? && web.fetch(0, url).status == 404
    ensures ProxyImage(web, url).outcome == Failed(404)
  {
  }

  /** A 2xx image response is streamed as it is, with its lowered media type,
      and the page parser is never asked: any other parser gives the same run. */
  lemma DirectImageStreamed(web: Web, url: string, parser: seq<byte> -> seq<Meta>)
    requires url != [] && web.fetch(0, url).Response? && IsSuccess(web.fetch(0, url).status)
    requires IsImage(MediaType(web.fetch(0, url).contentType))
    ensures var f := web.fetch(0, url);
      && ProxyImage(web, url) == Run(Stream(MediaType(f.contentType), f.content), [url])
      && ProxyImage(web.(parseHtml := parser), url) == ProxyImage(web, url)
  {
  }

  /** A 2xx response that is neither an image nor HTML, a missing header
      (read as "unknown") included, is a 415. */
  lemma OtherTypeUnsupported(web: Web, url: string)
    requires url != [] && web.fetch(0, url).Response? && IsSuccess(web.fetch(0, url).status)
    requires var m := MediaType(web.fetch(0, url).contentType); !IsImage(m) && !IsHtml(m)
    ensures ProxyImage(web, url) == Run(Failed(415), [url])
  {
  }

  /** A missing `content-type` header reads as "unknown", neither an image nor HTML. */
  lemma MissingContentTypeUnsupported()
    ensures !IsImage(MediaType(None)) && !IsHtml(MediaType(None))
  {
    var m := MediaType(None);
    assert |m| == 7 && m[..6][0] == 'u';
  }

  /** An HTML page with no usable `og:image` or `twitter:image` is a 404. */
  lemma NoMetaImageNotFound(web: Web, url: string)
    requires url != [] && web.fetch(0, url).Response? && IsSuccess(web.fetch(0, url).status)
    requires var m := MediaType(web.fetch(0, url).contentType); !IsImage(m) && IsHtml(m)
    requires ExtractImageUrl(web.parseHtml(web.fetch(0, url).content)).None?
    ensures ProxyImage(web, url) == Run(Failed(404), [url])
  {
  }

  /** The second hop never recurses: an HTML (or any non-image) answer to it
      is a 415, whatever meta tags it holds. */
  lemma SecondHopNeverParses(web: Web, target: string, parser: seq<byte> -> seq<Meta>)
    ensures SecondHop(web.(parseHtml := parser), target) == SecondHop(web, target)
    ensures var f := web.fetch(1, target);
      f.Response? && IsSuccess(f.status) && !IsImage(MediaType(f.contentType))
      ==> SecondHop(web, target) == Threw(HttpException(415))
  {
  }

  /** What a call that fetched twice ends with: the second response's bytes
      when it is a 2xx image; otherwise the error that response or its fetch
      gives, mapped as for the first. */
  lemma SecondHopOutcome(web: Web, url: string)
    requires url != []
    requires |ProxyImage(web, url).fetched| == 2
    ensures var target := ProxyImage(web, url).fetched[1];
      var g := web.fetch(1, target);
      var r := ProxyImage(web, url).outcome;
      && (g == NetworkError ==> r == Failed(502))
      && (g == Unexpected ==> r == Failed(500))
      && (g.Response? && !IsSuccess(g.status) ==>
            r == Failed(if 400 <= g.status < 600 then g.status else 502))
      && (g.Response? && IsSuccess(g.status) && IsImage(MediaType(g.contentType)) ==>
            r == Stream(MediaType(g.contentType), g.content))
      && (g.Response? && IsSuccess(g.status) && !IsImage(MediaType(g.contentType)) ==>
            r == Failed(415))
  {
    AtMostTwoFetches(web, url);
  }

  /** An extracted URL that `urlparse` or `urljoin` rejects with a
      `ValueError` falls to the generic `except Exception`: a 500, with no
      second fetch. */
  lemma UnresolvableUrlIsInternalError(web: Web, url: string)
    requires url != [] && web.fetch(0, url).Response? && IsSuccess(web.fetch(0, url).status)
    requires var m := MediaType(web.fetch(0, url).contentType); !IsImage(m) && IsHtml(m)
    requires var e := ExtractImageUrl(web.parseHtml(web.fetch(0, url).content));
      e.Some? && Absolutize(web, url, e.value).None?
    ensures ProxyImage(web, url) == Run(Failed(500), [url])
  {
  }

  /** A first fetch that fails in transport is a 502; one that raises
      anything else is a 500. Nothing more is fetched. */
  lemma FirstFetchFailures(web: Web, url: string)
    requires url != []
    ensures web.fetch(0, url) == NetworkError ==> ProxyImage(web, url) == Run(Failed(502), [url])
    ensures web.fetch(0, url) == Unexpected ==> ProxyImage(web, url) == Run(Failed(500), [url])
  {
  }

  /** Every failure is an HTTP error status in [400, 600): one of the proxy's
      own codes (400, 404, 415, 500, 502) or the status of the answer to one
      of its requests. */
  lemma ErrorCodesInRange(web: Web, url: string)
    ensures var run := ProxyImage(web, url);
      run.outcome.Failed? ==>
        && 400 <= run.outcome.code < 600
        && (|| run.outcome.code in {400, 404, 415, 500, 502}
            || exists k :: 0 <= k < |run.fetched| && web.fetch(k, run.fetched[k]).Response?
                 && web.fetch(k, run.fetched[k]).status == run.outcome.code)
  {
    var run := ProxyImage(web, url);
    if url != [] && run.outcome.Failed? && run.outcome.code !in {400, 404, 415, 500, 502} {
      AtMostTwoFetches(web, url);
      var k := |run.fetched| - 1;
      assert web.fetch(k, run.fetched[k]).Response? && web.fetch(k, run.fetched[k]).status == run.outcome.code;
    }
  }

  /** A stream always carries an `image/` media type and the body of the
      answer to the last request. */
  lemma StreamIsImage(web: Web, url: string)
    ensures var run := ProxyImage(web, url);
      run.outcome.Stream? ==>
        && IsImage(run.outcome.mediaType)
        && |run.fetched| >= 1
        && var f := web.fetch(|run.fetched| - 1, run.fetched[|run.fetched| - 1]);
           f.Response? && IsSuccess(f.status) && run.outcome.content == f.content
           && run.outcome.mediaType == MediaType(f.contentType)
  {
  }

  // ------------------------------------------------------ header case

  /** Two answers that differ at most in the case of their `content-type`. */
  predicate SameUpToHeaderCase(f: Fetch, g: Fetch) {
    || f == g
    || (&& f.Response? && g.Response? && f.status == g.status && f.content == g.content
        && f.contentType.Some? && g.contentType.Some?
        && EqualUpToCase(f.contentType.value, g.contentType.value))
  }

  /** The header is lowered before it is looked at: an upper-case `IMAGE/...`
      or `TEXT/HTML` header dispatches as its lower-case form. */
  lemma UpperCaseHeadersDispatched()
    ensures IsImage(MediaType(Some("IMAGE/PNG")))
    ensures IsHtml(MediaType(Some("Text/HTML; charset=UTF-8")))
  {
    var m := MediaType(Some("IMAGE/PNG"));
    assert m[..6] == "image/";
    var h := MediaType(Some("Text/HTML; charset=UTF-8"));
    assert h[..9] == "text/html";
  }

  /** The whole call ignores the case of the `content-type` headers it is
      answered with: the same run, media types included. */
  lemma HeaderCaseIgnored(web: Web, fetch': (nat, string) -> Fetch, url: string)
    requires forall n, u :: SameUpToHeaderCase(web.fetch(n, u), fetch'(n, u))
    ensures ProxyImage(web.(fetch := fetch'), url) == ProxyImage(web, url)
  {
    if url != [] {
      FirstHopUpToCase(web, fetch', url);
    }
  }

  lemma FirstHopUpToCase(web: Web, fetch': (nat, string) -> Fetch, url: string)
    requires forall n, u :: SameUpToHeaderCase(web.fetch(n, u), fetch'(n, u))
    ensures FirstHop(web.(fetch := fetch'), url) == FirstHop(web, url)
  {
    var web' := web.(fetch := fetch');
    var f := web.fetch(0, url);
    MediaTypeUpToCase(f, fetch'(0, url));
    if f.Response? && IsSuccess(f.status) && IsHtml(MediaType(f.contentType)) {
      var e := ExtractImageUrl(web.parseHtml(f.content));
      if e.Some? {
        var t := Absolutize(web, url, e.value);
        assert Absolutize(web', url, e.value) == t;
        if t.Some? {
          SecondHopUpToCase(web, fetch', t.value);
        }
      }
    }
  }

  lemma SecondHopUpToCase(web: Web, fetch': (nat, string) -> Fetch, url: string)
    requires SameUpToHeaderCase(web.fetch(1, url), fetch'(1, url))
    ensures SecondHop(web.(fetch := fetch'), url) == SecondHop(web, url)
  {
    MediaTypeUpToCase(web.fetch(1, url), fetch'(1, url));
  }

  lemma MediaTypeUpToCase(f: Fetch, g: Fetch)
    requires SameUpToHeaderCase(f, g)
    ensures f.Response? ==> g.Response? && MediaType(f.contentType) == MediaType(g.contentType)
  {
    if f != g {
      ToLowerCaseInsensitive(f.contentType.value, g.contentType.value);
    }
  }
}
