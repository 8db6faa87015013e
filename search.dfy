/** Tool 2, `search_image`: an optional Gemini-generated search query with a
    fixed fallback, one Custom Search image query, and the URL taken from the
    first hit; and the `/get_dish_image/` endpoint that validates the dish
    name first. The Gemini and Custom Search calls are not made here: the LLM
    reply is a parameter and the search provider is a function from query to
    reply. */
module ImageSearch {
  import opened Common
  import opened Text

  // ------------------------------------------------------- choosing the query

  const FallbackSuffix := " meal photo"

  /** The template query used whenever the LLM gives nothing usable. */
  function FallbackQuery(dish: string): (r: string)
    ensures r != []
    ensures |r| == |dish| + |FallbackSuffix|
    ensures r[..|dish|] == dish && r[|dish|..] == FallbackSuffix
  {
    dish + FallbackSuffix
  }

  /** Python's `q[1:-1]`, which is "" for a one-character `q`. */
  function Inner(q: string): string {
    if |q| >= 2 then q[1..|q| - 1] else []
  }

  /** The quote handling on the stripped LLM query: one pair of matching
      double or single quotes around the whole query is removed and the rest
      stripped again; anything else is left as it is. */
  function StripQuotes(q: string): string {
    if StartsWith(q, "\"") && EndsWith(q, "\"") then Strip(Inner(q))
    else if StartsWith(q, "'") && EndsWith(q, "'") then Strip(Inner(q))
    else q
  }

  predicate IsQuote(c: char) {
    c == '"' || c == '\''
  }

  /** The query both starts and ends with the same quote character. */
  predicate Enclosed(q: string) {
    |q| > 0 && IsQuote(q[0]) && q[|q| - 1] == q[0]
  }

  /** The two tests of `StripQuotes` in terms of the query's first and last
      characters. */
  lemma QuoteTests(q: string)
    ensures StartsWith(q, "\"") && EndsWith(q, "\"") <==> |q| > 0 && q[0] == '"' && q[|q| - 1] == '"'
    ensures StartsWith(q, "'") && EndsWith(q, "'") <==> |q| > 0 && q[0] == '\'' && q[|q| - 1] == '\''
  {
    if |q| > 0 {
      assert q[..1] == [q[0]];
      assert q[|q| - 1..] == [q[|q| - 1]];
    }
  }

  /** A query that is not enclosed in one kind of quote is left untouched;
      an enclosed one loses both ends and so gets strictly shorter, and what
      is left is stripped. */
  lemma StripQuotesShape(q: string)
    ensures !Enclosed(q) ==> StripQuotes(q) == q
    ensures Enclosed(q) ==> |StripQuotes(q)| < |q| && IsStripped(StripQuotes(q))
    ensures IsStripped(q) ==> IsStripped(StripQuotes(q))
  {
    QuoteTests(q);
    if Enclosed(q) {
      StripQuotesEnclosed(q);
      var m := Strip(Inner(q));
      assert |m| <= |Inner(q)| && IsStripped(m);
    }
  }

  /** An enclosed query is the stripped inside of its quotes. */
  lemma StripQuotesEnclosed(q: string)
    requires Enclosed(q)
    ensures StripQuotes(q) == Strip(Inner(q))
  {
    QuoteTests(q);
  }

  /** Exactly one pair is removed: a stripped text inside one pair of quotes
      comes back as it was, even when it is itself quoted. */
  lemma StripQuotesOnePair(c: char, m: string)
    requires IsQuote(c) && IsStripped(m)
    ensures StripQuotes([c] + m + [c]) == m
  {
    var q := [c] + m + [c];
    assert q[0] == c && q[|q| - 1] == c;
    StripQuotesEnclosed(q);
    assert Inner(q) == m;
    StrippedIsFixed(m);
  }

  /** For instance `""kofta""` becomes `"kofta"`, not `kofta`. */
  lemma DoubleQuotedKeepsInnerPair()
    ensures StripQuotes("\"\"kofta\"\"") == "\"kofta\""
  {
    assert "\"\"kofta\"\"" == ['"'] + "\"kofta\"" + ['"'];
    StripQuotesOnePair('"', "\"kofta\"");
  }

  /** Mismatched quotes are not quotes: `"kofta'` is kept whole. */
  lemma MismatchedQuotesKept()
    ensures StripQuotes("\"kofta'") == "\"kofta'"
  {
    StripQuotesShape("\"kofta'");
  }

  /** The search term: the LLM's query when a Gemini key is set and its
      reply, stripped and with its quotes handled, is non-empty; the template
      otherwise. A blocked reply, a failing `.text` and a call that raised
      all fall back. */
  function SearchTerm(dish: string, geminiKey: bool, llm: LlmReply): (r: string)
    ensures r != []
    ensures r == FallbackQuery(dish)
         || (geminiKey && llm.ReplyText? && r == StripQuotes(Strip(llm.text)) && IsStripped(r))
  {
    var fallback := FallbackQuery(dish);
    if !geminiKey then fallback
    else
      var raw := if llm.ReplyText? then Strip(llm.text) else "";
      if raw == [] then fallback
      else
        var temp := StripQuotes(raw);
        StripQuotesShape(raw);
        if temp != [] then temp else fallback
  }

  /** The converse: the LLM's query is used whenever it is usable, and the
      template exactly when it is not (up to the LLM proposing the template
      text itself). */
  lemma SearchTermChoice(dish: string, geminiKey: bool, llm: LlmReply)
    ensures var usable := geminiKey && llm.ReplyText? && StripQuotes(Strip(llm.text)) != [];
      && (usable ==> SearchTerm(dish, geminiKey, llm) == StripQuotes(Strip(llm.text)))
      && (!usable ==> SearchTerm(dish, geminiKey, llm) == FallbackQuery(dish))
  {
    if geminiKey && llm.ReplyText? && Strip(llm.text) == [] {
      assert StripQuotes([]) == [];
    }
  }

  /** A reply that, once stripped, is a lone quote or a pair of quotes around
      blanks is empty after quote stripping, so the template is used. */
  lemma EmptyQuotedFallsBack(dish: string, text: string, c: char, w: string)
    requires IsQuote(c) && AllWhitespace(w)
    requires Strip(text) == [c] || Strip(text) == [c] + w + [c]
    ensures SearchTerm(dish, true, ReplyText(text)) == FallbackQuery(dish)
  {
    var q := Strip(text);
    StripQuotesEnclosed(q);
    if q == [c] {
      assert Inner(q) == [];
    } else {
      assert Inner(q) == w;
    }
    SearchTermChoice(dish, true, ReplyText(text));
  }

  /** For instance the replies `"` and ` ' ' `. */
  lemma LoneQuoteFallsBack(dish: string)
    ensures SearchTerm(dish, true, ReplyText("\"")) == FallbackQuery(dish)
    ensures SearchTerm(dish, true, ReplyText(" ' ' ")) == FallbackQuery(dish)
  {
    StrippedIsFixed("\"");
    EmptyQuotedFallsBack(dish, "\"", '"', []);
    assert " ' ' " == " " + "' '" + " ";
    StripUnique(" ", "' '", " ");
    assert "' '" == ['\''] + " " + ['\''];
    EmptyQuotedFallsBack(dish, " ' ' ", '\'', " ");
  }

  // ------------------------------------------------ picking the result's URL

  /** One `pagemap.cse_image` entry. */
  datatype CseImage = CseImage(src: Option<string>)

  /** The first search hit: its `link`, its `image.thumbnailLink`, and its
      `pagemap.cse_image` list (`None` when `pagemap` or `cse_image` is absent). */
  datatype SearchItem = SearchItem(link: Option<string>, thumbnailLink: Option<string>, cseImage: Option<seq<CseImage>>)

  /** Python truthiness of an optional string. */
  predicate Truthy(v: Option<string>) {
    v.Some? && v.value != []
  }

  function ThumbnailOf(items: seq<SearchItem>): Option<string> {
    if |items| > 0 then items[0].thumbnailLink else None
  }

  /** The URL selection of lines 139-143, as written: the thumbnail arm sits in
      the `else` of `if items`, where its own `if items` is false. */
  function PickUrl(items: seq<SearchItem>): (r: Option<string>)
    ensures r.Some? ==> items != [] && (r == items[0].link || (items[0].cseImage.Some? && items[0].cseImage.value != [] && r == items[0].cseImage.value[0].src))
  {
    var first := if |items| > 0 then items[0].link
                 else (if |items| > 0 then ThumbnailOf(items) else None);
    if |items| > 0 && !Truthy(first) && items[0].cseImage.Some? && |items[0].cseImage.value| > 0
    then items[0].cseImage.value[0].src
    else first
  }

  /** What the selection gives, case by case: nothing for no hits; the first
      hit's `link` when it is truthy; otherwise the first `cse_image` `src`
      (even when that is absent) if there is a `cse_image` entry; otherwise
      the falsy `link` itself. */
  lemma PickUrlCases(items: seq<SearchItem>)
    ensures items == [] ==> PickUrl(items) == None
    ensures items != [] && Truthy(items[0].link) ==> PickUrl(items) == items[0].link
    ensures items != [] && !Truthy(items[0].link) && items[0].cseImage.Some? && items[0].cseImage.value != []
      ==> PickUrl(items) == items[0].cseImage.value[0].src
    ensures items != [] && !Truthy(items[0].link) && (items[0].cseImage.None? || items[0].cseImage.value == [])
      ==> PickUrl(items) == items[0].link
  {
  }

  /** `thumbnailLink` is never read: changing it never changes the URL, so a
      URL that is returned is the first hit's `link` or its first `cse_image`
      source. */
  lemma ThumbnailNeverUsed(items: seq<SearchItem>, t: Option<string>)
    requires items != []
    ensures PickUrl(items[0 := items[0].(thumbnailLink := t)]) == PickUrl(items)
    ensures var r := PickUrl(items);
      r == items[0].link
      || (items[0].cseImage.Some? && items[0].cseImage.value != [] && r == items[0].cseImage.value[0].src)
  {
  }

  /** A hit with only a thumbnail gives no URL. */
  lemma ThumbnailOnlyGivesNothing(t: string)
    ensures PickUrl([SearchItem(None, Some(t), None)]) == None
  {
  }

  // ---------------------------------------------------------- the tool itself

  /** What the Custom Search request produced; a non-2xx status is raised by
      `raise_for_status` as a `requests.RequestException`. */
  datatype SearchReply =
    | SearchNetworkError(reason: string)
    | SearchFailed(reason: string)
    | SearchItems(items: seq<SearchItem>)

  /** The dict `search_image` returns: `success` with a URL or `None`, or `error`. */
  datatype SearchResult = Found(url: Option<string>) | SearchError(message: string)

  const KeysMissing := "CSE_API_KEY or CSE_CX not set in environment for image search."

  /** `search_image(dish)`: `cseConfigured` says that both `CSE_API_KEY` and
      `CSE_CX` are set, `search` is the provider answering a query. */
  function SearchImage(cseConfigured: bool, dish: string, geminiKey: bool, llm: LlmReply,
                       search: string -> SearchReply): SearchResult
  {
    if !cseConfigured then SearchError(KeysMissing)
    else match search(SearchTerm(dish, geminiKey, llm))
      case SearchNetworkError(reason) => SearchError("Network error: " + reason)
      case SearchFailed(reason) => SearchError(reason)
      case SearchItems(items) => Found(PickUrl(items))
  }

  /** The status of `search_image`: `error` exactly when the keys are missing
      or the search call failed, and `success` otherwise, even when there are
      no hits and the URL is `None`. */
  lemma SearchImageStatus(cseConfigured: bool, dish: string, geminiKey: bool, llm: LlmReply,
                          search: string -> SearchReply)
    ensures var reply := search(SearchTerm(dish, geminiKey, llm));
      var r := SearchImage(cseConfigured, dish, geminiKey, llm, search);
      && (r.SearchError? <==> !cseConfigured || !reply.SearchItems?)
      && (!cseConfigured ==> r == SearchError(KeysMissing))
      && (cseConfigured && reply.SearchItems? ==> r == Found(PickUrl(reply.items)))
      && (cseConfigured && reply == SearchItems([]) ==> r == Found(None))
  {
  }

  /** The one query sent to the provider is the chosen search term, never
      empty: two providers that agree on that query give the same result,
      and without the keys the provider is not asked at all. */
  lemma SearchImageAsksOnce(cseConfigured: bool, dish: string, geminiKey: bool, llm: LlmReply,
                            search: string -> SearchReply, search': string -> SearchReply)
    requires !cseConfigured || search(SearchTerm(dish, geminiKey, llm)) == search'(SearchTerm(dish, geminiKey, llm))
    ensures SearchImage(cseConfigured, dish, geminiKey, llm, search) == SearchImage(cseConfigured, dish, geminiKey, llm, search')
    ensures SearchTerm(dish, geminiKey, llm) != []
  {
  }

  // ----------------------------------------------------------- the endpoint

  /** The request body's `dish` field: missing or `null`, some other JSON
      value, or a string. */
  datatype DishField = Absent | NonString | Str(s: string)

  predicate ValidDish(dish: DishField) {
    dish.Str? && Strip(dish.s) != []
  }

  const DishRequired := "Valid 'dish' string required."

  /** `/get_dish_image/`, with `searchImage` standing for the tool. */
  function GetDishImage(dish: DishField, searchImage: string -> SearchResult): (r: HttpReply<SearchResult>)
    ensures r.HttpError? ==> r.code == 400 || r.code == 500
    ensures r.Ok? ==> r.body.Found?
  {
    if dish.Absent? || (dish.Str? && dish.s == []) || !dish.Str? || Strip(dish.s) == [] then
      HttpError(400, DishRequired)
    else
      var result := searchImage(Strip(dish.s));
      if result.SearchError? then HttpError(500, result.message) else Ok(result)
  }

  /** A dish that is missing, not a string, or blank is answered with 400 and
      the tool is not called: any two tools give the same answer. */
  lemma InvalidDishRejected(dish: DishField, searchImage: string -> SearchResult,
                            searchImage': string -> SearchResult)
    requires !ValidDish(dish)
    ensures GetDishImage(dish, searchImage) == HttpError(400, DishRequired)
    ensures GetDishImage(dish, searchImage) == GetDishImage(dish, searchImage')
  {
  }

  /** A valid dish calls the tool once, with the stripped name (non-empty and
      stripped); an `error` result becomes 500 with its message and any other
      result, a `None` URL included, is returned unchanged. */
  lemma ValidDishSearched(dish: DishField, searchImage: string -> SearchResult,
                          searchImage': string -> SearchResult)
    requires ValidDish(dish)
    ensures var name := Strip(dish.s);
      && name != [] && IsStripped(name)
      && (searchImage(name) == searchImage'(name) ==> GetDishImage(dish, searchImage) == GetDishImage(dish, searchImage'))
      && (searchImage(name).SearchError? ==> GetDishImage(dish, searchImage) == HttpError(500, searchImage(name).message))
      && (searchImage(name).Found? ==> GetDishImage(dish, searchImage) == Ok(searchImage(name)))
  {
  }

  /** End to end, without a Gemini key: the provider is asked for the stripped
      dish name followed by " meal photo". */
  lemma GetDishImageFallbackQuery(s: string, cseConfigured: bool, llm: LlmReply, search: string -> SearchReply)
    requires Strip(s) != [] && cseConfigured
    requires search(Strip(s) + " meal photo") == SearchItems([])
    ensures GetDishImage(Str(s), d => SearchImage(cseConfigured, d, false, llm, search)) == Ok(Found(None))
  {
  }
}
