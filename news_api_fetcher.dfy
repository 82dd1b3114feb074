/**
 * Fetching articles from the NewsAPI `everything` endpoint, optionally
 * backfilling each article's full text from its page.
 */
module NewsApiFetcher {
  import opened Php

  /** A decoded article: its string-valued fields by key. */
  type Fields = map<string, string>

  /** The outcome of the GET: a Guzzle exception with its message, or the response body. */
  datatype ApiResponse = ApiFailure(message: string) | ApiBody(body: string)

  /**
   * The services the fetcher calls: the GET with the query parameters, the
   * decoding of the body's `articles` list (None when the body is not JSON
   * or has no `articles`), and the page scraper, which never throws.
   */
  datatype ApiServices = ApiServices(get: map<string, string> -> ApiResponse,
                                     articlesOf: string -> Option<seq<Fields>>,
                                     scrape: string -> string)

  const FetchErrorPrefix := "Error fetching news: "

  /** The backfill of one article: `fullContent` is the scraped page when `url` is non-empty. */
  function Enrich(a: Fields, scrape: string -> string): (r: Fields)
    ensures forall k :: k != "fullContent" ==> (k in r <==> k in a) && (k in a ==> r[k] == a[k])
    ensures "url" in a && !Falsy(a["url"]) ==> "fullContent" in r && r["fullContent"] == scrape(a["url"])
    ensures !("url" in a && !Falsy(a["url"])) ==> r == a
  {
    if "url" in a && !Falsy(a["url"]) then a["fullContent" := scrape(a["url"])] else a
  }

  /** The decoded articles, `[]` when the key is missing. */
  function Decoded(body: string, svc: ApiServices): (r: seq<Fields>)
    ensures svc.articlesOf(body).None? ==> r == []
  {
    match svc.articlesOf(body)
    case None => []
    case Some(articles) => articles
  }

  /** The articles with `fullContent` backfilled, in order. */
  function EnrichAll(articles: seq<Fields>, scrape: string -> string): (r: seq<Fields>)
    ensures |r| == |articles|
    ensures forall i :: 0 <= i < |articles| ==> r[i] == Enrich(articles[i], scrape)
  {
    Map(articles, a => Enrich(a, scrape))
  }

  /**
   * What `fetchNews` returns: a failed request becomes an exception with the
   * prefixed message; otherwise the decoded articles, backfilled when asked
   * for and unchanged when not.
   */
  function NewsResult(svc: ApiServices, parameters: map<string, string>, fetchFullContent: bool)
    : (r: Result<seq<Fields>>)
    ensures svc.get(parameters).ApiFailure? <==> r.Err?
    ensures r.Err? ==> r.message == FetchErrorPrefix + svc.get(parameters).message
    ensures r.Ok? ==> |r.value| == |Decoded(svc.get(parameters).body, svc)|
    ensures r.Ok? && !fetchFullContent ==> r.value == Decoded(svc.get(parameters).body, svc)
  {
    match svc.get(parameters)
    case ApiFailure(message) => Err(FetchErrorPrefix + message)
    case ApiBody(body) =>
      var decoded := Decoded(body, svc);
      Ok(if fetchFullContent then EnrichAll(decoded, svc.scrape) else decoded)
  }

  /** `fetchNews`, with its in-place loop over the decoded articles. */
  method FetchNews(svc: ApiServices, parameters: map<string, string>, fetchFullContent: bool)
    returns (r: Result<seq<Fields>>)
    ensures r == NewsResult(svc, parameters, fetchFullContent)
  {
    var response := svc.get(parameters);
    if response.ApiFailure? {
      return Err(FetchErrorPrefix + response.message);
    }
    var articles := Decoded(response.body, svc);
    ghost var decoded := articles;
    if fetchFullContent {
      var i := 0;
      while i < |articles|
        invariant 0 <= i <= |articles| && |articles| == |decoded|
        invariant forall j :: 0 <= j < i ==> articles[j] == Enrich(decoded[j], svc.scrape)
        invariant forall j :: i <= j < |articles| ==> articles[j] == decoded[j]
      {
        var article := articles[i];
        if "url" in article && !Falsy(article["url"]) {
          articles := articles[i := article["fullContent" := svc.scrape(article["url"])]];
        }
        i := i + 1;
      }
      assert articles == EnrichAll(decoded, svc.scrape);
    }
    return Ok(articles);
  }

  /** Backfilling twice is backfilling once: a second pass finds the same URLs and writes the same text. */
  lemma EnrichIdempotent(a: Fields, scrape: string -> string)
    ensures Enrich(Enrich(a, scrape), scrape) == Enrich(a, scrape)
  {
  }

  /** The backfill touches only `fullContent`: every other field of every article reads as decoded. */
  lemma OnlyFullContentChanges(svc: ApiServices, parameters: map<string, string>, i: nat, k: string)
    requires NewsResult(svc, parameters, true).Ok?
    requires i < |Decoded(svc.get(parameters).body, svc)| && k != "fullContent"
    ensures var before := Decoded(svc.get(parameters).body, svc)[i];
      var after := NewsResult(svc, parameters, true).value[i];
      (k in after <==> k in before) && (k in before ==> after[k] == before[k])
  {
  }
}
