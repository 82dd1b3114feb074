/**
 * The Google Scholar snowball search: each step queries SerpApi, keeps the
 * complete results, and takes the first three words of the first result's
 * title as the next query; afterwards each article's content is replaced by
 * the scraped page when there is one.
 */
module Scholar {
  import opened Php
  import Cms
  import Publisher
  import RunReport

  /** One entry of `organic_results`; a missing or null field is None. */
  datatype ScholarResult = ScholarResult(title: Option<string>, snippet: Option<string>, link: Option<string>)

  /** The decoded response: its `error` field and its `organic_results` (empty when missing). */
  datatype ScholarPage = ScholarPage(error: Option<string>, results: seq<ScholarResult>)

  /** `wp_remote_get` of one search: a WordPress error message, or the decoded page. */
  datatype SearchReply = RequestFailed(message: string) | Answered(page: ScholarPage)

  /** The query string parameters of one search. */
  datatype Query = Query(q: string, apiKey: string, num: int, ylo: string, yhi: string)

  /** An article as collected: the result's title, its snippet as content, and its link. */
  datatype ScholarArticle = ScholarArticle(title: string, content: string, link: string)

  /** The settings of a search, besides the keywords. */
  datatype Settings = Settings(apiKey: string, maxSteps: int, perStep: int, mindate: string, maxdate: string)

  /**
   * How the search ends: with the articles, with an `Exception` that the
   * fetch catches, or with an `Error` that nothing in the plugin catches.
   */
  datatype Ending = Found(articles: seq<ScholarArticle>) | Thrown(message: string) | Fatal(message: string)

  /** The ending of the search and the number of search requests made. */
  datatype Search = Search(outcome: Ending, requests: nat)

  const NoApiKey := "Google Scholar API Key is not configured."
  const NoArticles := "No articles found for the given query."
  const FetchErrorPrefix := "Error fetching Google Scholar articles: "
  const ApiErrorPrefix := "Google Scholar API error: "
  /** The `TypeError` of `explode` (strict types) when the first result has no title. */
  const NullTitle := "explode(): Argument #2 ($string) must be of type string, null given"

  /** A result with title, snippet and link all set. */
  predicate Complete(r: ScholarResult)
  {
    r.title.Some? && r.snippet.Some? && r.link.Some?
  }

  /** The complete results as articles, in order. */
  function Collect(results: seq<ScholarResult>): (arts: seq<ScholarArticle>)
    ensures |arts| <= |results|
    ensures forall a :: a in arts <==>
      exists r :: r in results && Complete(r) && a == ScholarArticle(r.title.value, r.snippet.value, r.link.value)
  {
    if results == [] then []
    else
      var r := results[0];
      var rest := Collect(results[1..]);
      assert forall x :: x in results <==> x == r || x in results[1..];
      if Complete(r) then [ScholarArticle(r.title.value, r.snippet.value, r.link.value)] + rest else rest
  }

  /** Collecting from a concatenation collects from each part, in order. */
  lemma {:induction false} CollectAppend(xs: seq<ScholarResult>, ys: seq<ScholarResult>)
    ensures Collect(xs + ys) == Collect(xs) + Collect(ys)
  {
    if xs == [] {
      assert xs + ys == ys;
    } else {
      assert (xs + ys)[0] == xs[0];
      assert (xs + ys)[1..] == xs[1..] + ys;
      CollectAppend(xs[1..], ys);
    }
  }

  /** The first (at most) three space-separated words of a title, joined by spaces. */
  function FirstWords(title: string): string
  {
    var words := Explode(' ', title);
    Implode(" ", words[..if |words| < 3 then |words| else 3])
  }

  /** The next query is the start of the title and has at most two spaces: three words at most. */
  lemma FirstWordsShape(title: string)
    ensures StartsWith(title, FirstWords(title))
    ensures Count(FirstWords(title), ' ') <= 2
  {
    var words := Explode(' ', title);
    var k := if |words| < 3 then |words| else 3;
    ImplodeExplode(' ', title);
    ImplodePrefix(" ", words, k);
    assert forall w :: w in words[..k] ==> w in words;
    CountImplode(' ', words[..k]);
  }

  /** A title of up to three words is kept whole. */
  lemma ShortTitleKept(title: string)
    requires Count(title, ' ') <= 2
    ensures FirstWords(title) == title
  {
    var words := Explode(' ', title);
    ImplodeExplode(' ', title);
    CountImplode(' ', words);
    assert words[..|words|] == words;
  }

  function QueryFor(s: Settings, q: string): Query
  {
    Query(q, s.apiKey, s.perStep, s.mindate, s.maxdate)
  }

  /** How many search steps remain from `step`. */
  function Remaining(s: Settings, step: nat): nat
  {
    if step < s.maxSteps then s.maxSteps - step else 0
  }

  /**
   * The `while` loop from step `step` with query `q`, having collected `acc`:
   * a failed request or an `error` field ends it with an exception, an empty
   * page ends it quietly, otherwise the complete results are appended and the
   * next query is derived when another step follows.
   */
  function Steps(search: (nat, Query) -> SearchReply, s: Settings, step: nat, q: string,
                 acc: seq<ScholarArticle>): (r: Search)
    ensures r.requests <= Remaining(s, step)
    ensures r.outcome.Found? ==> acc <= r.outcome.articles
    decreases Remaining(s, step)
  {
    if step >= s.maxSteps then Search(Found(acc), 0)
    else
      match search(step, QueryFor(s, q))
      case RequestFailed(msg) => Search(Thrown(FetchErrorPrefix + msg), 1)
      case Answered(page) =>
        if page.error.Some? then Search(Thrown(ApiErrorPrefix + page.error.value), 1)
        else if page.results == [] then Search(Found(acc), 1)
        else
          var collected := acc + Collect(page.results);
          if step + 1 < s.maxSteps then
            if page.results[0].title.None? then Search(Fatal(NullTitle), 1)
            else
              var rest := Steps(search, s, step + 1, FirstWords(page.results[0].title.value), collected);
              Search(rest.outcome, rest.requests + 1)
          else Search(Found(collected), 1)
  }

  /** `fetchGoogleScholarArticles`. */
  function ScholarSearch(search: (nat, Query) -> SearchReply, s: Settings, keywords: string): (r: Search)
    ensures Falsy(s.apiKey) ==> r == Search(Thrown(NoApiKey), 0)
    ensures r.requests <= Remaining(s, 0)
    ensures r.outcome.Found? ==> r.outcome.articles != []
  {
    if Falsy(s.apiKey) then Search(Thrown(NoApiKey), 0)
    else
      var run := Steps(search, s, 0, keywords, []);
      if run.outcome.Found? && run.outcome.articles == [] then Search(Thrown(NoArticles), run.requests)
      else run
  }

  /** The search loop as the source runs it, counting its requests. */
  method FetchScholarArticles(search: (nat, Query) -> SearchReply, s: Settings, keywords: string)
    returns (r: Ending, requests: nat)
    ensures Search(r, requests) == ScholarSearch(search, s, keywords)
  {
    if Falsy(s.apiKey) {
      return Thrown(NoApiKey), 0;
    }
    var articles: seq<ScholarArticle> := [];
    var step: nat := 0;
    var q := keywords;
    requests := 0;
    while step < s.maxSteps
      invariant var rest := Steps(search, s, step, q, articles);
        Search(rest.outcome, rest.requests + requests) == Steps(search, s, 0, keywords, [])
      decreases Remaining(s, step)
    {
      var reply := search(step, QueryFor(s, q));
      requests := requests + 1;
      if reply.RequestFailed? {
        return Thrown(FetchErrorPrefix + reply.message), requests;
      }
      var page := reply.page;
      if page.error.Some? {
        return Thrown(ApiErrorPrefix + page.error.value), requests;
      }
      if page.results == [] {
        break;
      }
      articles := articles + Collect(page.results);
      step := step + 1;
      if step < s.maxSteps {
        if page.results[0].title.None? {
          return Fatal(NullTitle), requests;
        }
        q := FirstWords(page.results[0].title.value);
      }
    }
    if articles == [] {
      return Thrown(NoArticles), requests;
    }
    return Found(articles), requests;
  }

  /** With no steps to run nothing is requested and the search fails. */
  lemma NoStepsNoArticles(search: (nat, Query) -> SearchReply, s: Settings, keywords: string)
    requires s.maxSteps <= 0
    ensures ScholarSearch(search, s, keywords).requests == 0
    ensures ScholarSearch(search, s, keywords).outcome.Thrown?
  {
  }

  /** A step whose page is empty ends the search: later steps are never requested. */
  lemma EmptyPageStops(search: (nat, Query) -> SearchReply, s: Settings, step: nat, q: string,
                       acc: seq<ScholarArticle>)
    requires step < s.maxSteps
    requires search(step, QueryFor(s, q)) == Answered(ScholarPage(None, []))
    ensures Steps(search, s, step, q, acc) == Search(Found(acc), 1)
  {
  }

  /**
   * A step with results requests the next one with the first words of the
   * first result's title, whether or not that result was complete.
   */
  lemma NextQueryFromFirstTitle(search: (nat, Query) -> SearchReply, s: Settings, step: nat, q: string,
                                acc: seq<ScholarArticle>, page: ScholarPage)
    requires step + 1 < s.maxSteps
    requires search(step, QueryFor(s, q)) == Answered(page)
    requires page.error.None? && page.results != [] && page.results[0].title.Some?
    ensures var next := Steps(search, s, step + 1, FirstWords(page.results[0].title.value), acc + Collect(page.results));
      Steps(search, s, step, q, acc) == Search(next.outcome, next.requests + 1)
  {
  }

  /**
   * When every step answers with a page, the search makes exactly
   * `maxSteps` requests unless a page is empty, and collects the complete
   * results of every page in step order.
   */
  lemma {:induction false} AllStepsAnswered(search: (nat, Query) -> SearchReply, s: Settings, step: nat,
                                            q: string, acc: seq<ScholarArticle>)
    requires forall i, x :: step <= i < s.maxSteps && search(i, x).Answered? ==>
      search(i, x).page.error.None? && search(i, x).page.results != [] && search(i, x).page.results[0].title.Some?
    requires forall i, x :: step <= i < s.maxSteps ==> search(i, x).Answered?
    ensures Steps(search, s, step, q, acc).requests == Remaining(s, step)
    ensures Steps(search, s, step, q, acc).outcome.Found?
    decreases Remaining(s, step)
  {
    if step < s.maxSteps {
      var page := search(step, QueryFor(s, q)).page;
      if step + 1 < s.maxSteps {
        AllStepsAnswered(search, s, step + 1, FirstWords(page.results[0].title.value), acc + Collect(page.results));
      }
    }
  }

  // ---------------------------------------------------------------------
  // Replacing snippets by scraped pages.
  // ---------------------------------------------------------------------

  /** An article's content after scraping: the page text when the link and the text are both non-empty. */
  function WithScrape(a: ScholarArticle, scrape: string -> string): (r: ScholarArticle)
    ensures r.title == a.title && r.link == a.link
    ensures r.content == if !Falsy(a.link) && !Falsy(scrape(a.link)) then scrape(a.link) else a.content
  {
    if !Falsy(a.link) && !Falsy(scrape(a.link)) then a.(content := scrape(a.link)) else a
  }

  /** Every article after the scraping pass, in order. */
  function WithScrapes(articles: seq<ScholarArticle>, scrape: string -> string): (r: seq<ScholarArticle>)
    ensures |r| == |articles|
    ensures forall i :: 0 <= i < |articles| ==> r[i] == WithScrape(articles[i], scrape)
  {
    Map(articles, a => WithScrape(a, scrape))
  }

  /** The by-reference loop of `fetchAndProcessGoogleScholar` over the collected articles. */
  method ReplaceContents(articles: seq<ScholarArticle>, scrape: string -> string)
    returns (r: seq<ScholarArticle>)
    ensures r == WithScrapes(articles, scrape)
  {
    r := articles;
    var i := 0;
    while i < |r|
      invariant 0 <= i <= |r| && |r| == |articles|
      invariant forall j :: 0 <= j < i ==> r[j] == WithScrape(articles[j], scrape)
      invariant forall j :: i <= j < |r| ==> r[j] == articles[j]
    {
      if !Falsy(r[i].link) {
        var scraped := scrape(r[i].link);
        if !Falsy(scraped) {
          r := r[i := r[i].(content := scraped)];
        }
      }
      i := i + 1;
    }
  }

  // ---------------------------------------------------------------------
  // fetchAndProcessGoogleScholar.
  // ---------------------------------------------------------------------

  /** An article as handed to the publisher: its title, content and link. */
  function ToArticle(a: ScholarArticle): Publisher.Article
  {
    RunReport.LinkedArticle(a.title, a.content, a.link)
  }

  /**
   * `fetchAndProcessGoogleScholar` on a store in state `db`: a search that
   * throws records its error and publishes nothing, one that ends in the
   * uncaught `TypeError` aborts the request with no record; otherwise the
   * articles, their contents replaced by the scraped pages, are published as
   * `post`s.
   */
  function ScholarOutcome(db: Cms.Db, search: (nat, Query) -> SearchReply, s: Settings, keywords: string,
                          scrape: string -> string, categoryId: int, tags: seq<int>, postStatus: string,
                          debug: bool, trace: string, wp: Cms.Wp): (o: RunReport.Outcome)
    ensures ScholarSearch(search, s, keywords).outcome.Thrown? ==>
      o == RunReport.Outcome(RunReport.ErrorRecord(ScholarSearch(search, s, keywords).outcome.message, debug, trace), db)
    ensures ScholarSearch(search, s, keywords).outcome.Fatal? ==> o.report.Aborted? && o.db == db
    ensures ScholarSearch(search, s, keywords).outcome.Found? ==> o.report.Results?
  {
    match ScholarSearch(search, s, keywords).outcome
    case Thrown(msg) => RunReport.Outcome(RunReport.ErrorRecord(msg, debug, trace), db)
    case Fatal(msg) => RunReport.Outcome(RunReport.Aborted(msg), db)
    case Found(articles) =>
      RunReport.PublishOutcome(db, Map(WithScrapes(articles, scrape), ToArticle),
                               Publisher.Config(categoryId, tags, postStatus, "post"), wp)
  }

  /**
   * When the first page has results but its first result has no title and a
   * second step follows, the request aborts: nothing is published, even the
   * complete results of that page, and no record is written.
   */
  lemma MissingFirstTitleAborts(db: Cms.Db, search: (nat, Query) -> SearchReply, s: Settings, keywords: string,
                                scrape: string -> string, categoryId: int, tags: seq<int>, postStatus: string,
                                debug: bool, trace: string, wp: Cms.Wp, page: ScholarPage)
    requires !Falsy(s.apiKey) && 1 < s.maxSteps
    requires search(0, QueryFor(s, keywords)) == Answered(page)
    requires page.error.None? && page.results != [] && page.results[0].title.None?
    ensures ScholarOutcome(db, search, s, keywords, scrape, categoryId, tags, postStatus, debug, trace, wp)
            == RunReport.Outcome(RunReport.Aborted(NullTitle), db)
  {
  }

  /** `fetchAndProcessGoogleScholar`. */
  method FetchAndProcessGoogleScholar(store: Cms.Store, search: (nat, Query) -> SearchReply, s: Settings,
                                      keywords: string, scrape: string -> string, categoryId: int,
                                      tags: seq<int>, postStatus: string, debug: bool, trace: string)
    returns (report: RunReport.Report)
    modifies store
    ensures RunReport.Outcome(report, store.Snapshot())
      == ScholarOutcome(old(store.Snapshot()), search, s, keywords, scrape, categoryId, tags, postStatus,
                        debug, trace, store.wp)
  {
    var found, _ := FetchScholarArticles(search, s, keywords);
    if found.Thrown? {
      return RunReport.ErrorRecord(found.message, debug, trace);
    }
    if found.Fatal? {
      return RunReport.Aborted(found.message);
    }
    var articles := ReplaceContents(found.articles, scrape);
    var result := Publisher.PublishNews(store, Map(articles, ToArticle), categoryId, tags, postStatus, "post");
    report := RunReport.Results(result);
  }
}
