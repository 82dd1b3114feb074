/**
 * The blog scraper meta box's fetch: every configured page is handed to the
 * AI link discovery with the same `amount`, the articles found are
 * concatenated in page order, and all of them are published as posts.
 */
module BlogScraperBox {
  import opened Php
  import opened Cms
  import opened Publisher
  import opened GptScraper
  import opened RunReport

  /** The box's stored settings, as `get_post_meta` and the casts give them. */
  datatype BlogSettings = BlogSettings(categoryId: int, tags: seq<int>, urls: string, amount: int,
                                       postStatus: string)

  /** A scraped page as the publisher reads it: title, content and link. */
  function RecordArticle(r: NewsRecord): Article
  {
    LinkedArticle(r.title, r.content, r.link)
  }

  /** The articles of one page, converted; `Err` is the `Error` that ends the request. */
  function PageArticles(s: Services, url: string, amount: int, aiPrompt: string): (r: Result<seq<Article>>)
    ensures r.Ok? ==> |r.value| <= Cap(amount)
    ensures DiscoverUrls(s, url, aiPrompt).Caught? ==> r == Ok([])
    ensures r.Err? <==> DiscoverUrls(s, url, aiPrompt).Uncaught?
  {
    match ScrapedArticles(s, url, amount, aiPrompt)
    case Err(e) => Err(e)
    case Ok(records) => Ok(Map(records, RecordArticle))
  }

  /** The result of each page, in page order. */
  function PageReads(urls: seq<string>, s: Services, amount: int, aiPrompt: string): (pages: seq<Result<seq<Article>>>)
    ensures |pages| == |urls| && forall i :: 0 <= i < |urls| ==> pages[i] == PageArticles(s, urls[i], amount, aiPrompt)
  {
    Map(urls, url => PageArticles(s, url, amount, aiPrompt))
  }

  /** The pages' articles concatenated in order, or the first page's `Error`, which ends the loop. */
  function Joined(pages: seq<Result<seq<Article>>>): Result<seq<Article>>
  {
    if pages == [] then Ok([])
    else if pages[0].Err? then Err(pages[0].message)
    else
      match Joined(pages[1..])
      case Err(e) => Err(e)
      case Ok(rest) => Ok(pages[0].value + rest)
  }

  /** Two runs one after the other: the first `Error` wins, else the articles are concatenated. */
  function Then(a: Result<seq<Article>>, b: Result<seq<Article>>): Result<seq<Article>>
  {
    if a.Err? then a else if b.Err? then b else Ok(a.value + b.value)
  }

  lemma {:induction false} JoinedAppend(p: seq<Result<seq<Article>>>, q: seq<Result<seq<Article>>>)
    ensures Joined(p + q) == Then(Joined(p), Joined(q))
  {
    if p == [] {
      assert p + q == q;
      assert Joined(q).Ok? ==> [] + Joined(q).value == Joined(q).value;
    } else {
      assert (p + q)[0] == p[0];
      assert (p + q)[1..] == p[1..] + q;
      JoinedAppend(p[1..], q);
      var rest, tail := Joined(p[1..]), Joined(q);
      if p[0].Ok? && rest.Ok? && tail.Ok? {
        assert p[0].value + (rest.value + tail.value) == (p[0].value + rest.value) + tail.value;
      }
    }
  }

  /** The articles of all pages, in page order, with no overall cap, unless a page ends the request. */
  function BlogArticles(urls: seq<string>, s: Services, amount: int, aiPrompt: string): Result<seq<Article>>
  {
    Joined(PageReads(urls, s, amount, aiPrompt))
  }

  /** The pages `xs + ys` give the articles of `xs` followed by those of `ys`, or the first `Error`. */
  lemma BlogArticlesAppend(xs: seq<string>, ys: seq<string>, s: Services, amount: int, aiPrompt: string)
    ensures BlogArticles(xs + ys, s, amount, aiPrompt)
            == Then(BlogArticles(xs, s, amount, aiPrompt), BlogArticles(ys, s, amount, aiPrompt))
  {
    var f := url => PageArticles(s, url, amount, aiPrompt);
    MapAppend(xs, ys, f);
    JoinedAppend(Map(xs, f), Map(ys, f));
  }

  /** A page whose discovery throws an exception contributes nothing, and the pages after it are still scraped. */
  lemma FailingPageSkipped(xs: seq<string>, url: string, ys: seq<string>, s: Services, amount: int,
                           aiPrompt: string)
    requires DiscoverUrls(s, url, aiPrompt).Caught?
    ensures BlogArticles(xs + [url] + ys, s, amount, aiPrompt)
            == Then(BlogArticles(xs, s, amount, aiPrompt), BlogArticles(ys, s, amount, aiPrompt))
  {
    var one := PageReads([url], s, amount, aiPrompt);
    assert one == [Ok([])];
    assert one[1..] == [];
    assert Joined(one) == Ok([] + []);
    BlogArticlesAppend(xs + [url], ys, s, amount, aiPrompt);
    BlogArticlesAppend(xs, [url], s, amount, aiPrompt);
    var a := BlogArticles(xs, s, amount, aiPrompt);
    assert a.Ok? ==> a.value + [] == a.value;
  }

  /**
   * A page whose scraping raises an `Error` after pages that did not ends
   * the whole loop with that error, whatever the later pages hold.
   */
  lemma UncaughtPageEndsLoop(xs: seq<string>, url: string, ys: seq<string>, s: Services, amount: int,
                             aiPrompt: string)
    requires BlogArticles(xs, s, amount, aiPrompt).Ok?
    requires DiscoverUrls(s, url, aiPrompt).Uncaught?
    ensures BlogArticles(xs + [url] + ys, s, amount, aiPrompt) == Err(DiscoverUrls(s, url, aiPrompt).error)
  {
    var one := PageReads([url], s, amount, aiPrompt);
    assert one[0].Err?;
    BlogArticlesAppend(xs + [url], ys, s, amount, aiPrompt);
    BlogArticlesAppend(xs, [url], s, amount, aiPrompt);
  }

  function BlogConfig(box: BlogSettings): (cfg: Config)
    ensures cfg.postType == "post" && cfg.categoryId == box.categoryId && cfg.tagIds == box.tags
    ensures cfg.postStatus == box.postStatus
  {
    Config(box.categoryId, box.tags, box.postStatus, "post")
  }

  /**
   * `fetchAndProcessBlog` on a store in state `db`: the articles of all
   * pages are published and a results record is written, unless a page's
   * scraping raised an `Error`; then the request ends with nothing published
   * and no record written.
   */
  function BlogOutcome(db: Db, s: Services, box: BlogSettings, aiPrompt: string, wp: Wp): (o: Outcome)
    ensures o.report.Results? || o.report.Aborted?
    ensures o.report.Aborted? <==> BlogArticles(Lines(box.urls), s, box.amount, aiPrompt).Err?
    ensures o.report.Aborted? ==> o.db == db
    ensures o.report.Results? ==>
      o.report.result.count <= |BlogArticles(Lines(box.urls), s, box.amount, aiPrompt).value|
  {
    match BlogArticles(Lines(box.urls), s, box.amount, aiPrompt)
    case Err(e) => Outcome(Aborted(e), db)
    case Ok(arts) =>
      PublishedAtMost(db, arts, BlogConfig(box), wp);
      PublishOutcome(db, arts, BlogConfig(box), wp)
  }

  /** One turn of the page loop: page `i` either ends the loop with its `Error` or appends its articles. */
  lemma PageStep(urls: seq<string>, i: nat, s: Services, amount: int, aiPrompt: string)
    requires i < |urls| && BlogArticles(urls[..i], s, amount, aiPrompt).Ok?
    ensures var page := PageArticles(s, urls[i], amount, aiPrompt);
      (page.Err? ==> BlogArticles(urls, s, amount, aiPrompt) == Err(page.message))
      && (page.Ok? ==> BlogArticles(urls[..i + 1], s, amount, aiPrompt)
                       == Ok(BlogArticles(urls[..i], s, amount, aiPrompt).value + page.value))
  {
    var page := PageArticles(s, urls[i], amount, aiPrompt);
    OnePage(urls[i], s, amount, aiPrompt);
    assert urls[..i + 1] == urls[..i] + [urls[i]];
    BlogArticlesAppend(urls[..i], [urls[i]], s, amount, aiPrompt);
    if page.Err? {
      assert urls == urls[..i + 1] + urls[i + 1..];
      BlogArticlesAppend(urls[..i + 1], urls[i + 1..], s, amount, aiPrompt);
    }
  }

  /** A single page gives its own articles, or its own `Error`. */
  lemma OnePage(url: string, s: Services, amount: int, aiPrompt: string)
    ensures BlogArticles([url], s, amount, aiPrompt) == PageArticles(s, url, amount, aiPrompt)
  {
    var page := PageArticles(s, url, amount, aiPrompt);
    var one := PageReads([url], s, amount, aiPrompt);
    assert one == [page] && one[1..] == [];
    assert Joined(one[1..]) == Ok([]);
    assert page.Ok? ==> page.value + [] == page.value;
    assert BlogArticles([url], s, amount, aiPrompt) == Joined(one);
  }

  /** The `foreach` over the pages: each page's articles appended in order, until a page raises an `Error`. */
  method ScrapePages(s: Services, urls: seq<string>, amount: int, aiPrompt: string)
    returns (r: Result<seq<Article>>)
    ensures r == BlogArticles(urls, s, amount, aiPrompt)
  {
    var articles := [];
    var i := 0;
    while i < |urls|
      invariant 0 <= i <= |urls|
      invariant BlogArticles(urls[..i], s, amount, aiPrompt) == Ok(articles)
    {
      PageStep(urls, i, s, amount, aiPrompt);
      var fromUrl := ScrapeNewsFromUrl(s, urls[i], amount, aiPrompt);
      if fromUrl.Err? {
        return Err(fromUrl.message);
      }
      articles := articles + Map(fromUrl.value, RecordArticle);
      i := i + 1;
    }
    assert urls[..i] == urls;
    r := Ok(articles);
  }

  /** `fetchAndProcessBlog`. */
  method FetchAndProcessBlog(store: Store, s: Services, box: BlogSettings, aiPrompt: string)
    returns (report: Report)
    modifies store
    ensures Outcome(report, store.Snapshot()) == BlogOutcome(old(store.Snapshot()), s, box, aiPrompt, store.wp)
  {
    var articles := ScrapePages(s, Lines(box.urls), box.amount, aiPrompt);
    if articles.Err? {
      return Aborted(articles.message);
    }
    var result := PublishNews(store, articles.value, box.categoryId, box.tags, box.postStatus, "post");
    report := Results(result);
  }
}
