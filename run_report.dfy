/**
 * What a meta box's fetch leaves for the next page load: the publisher's
 * result, or the error record with the exception's message and, in debug
 * mode only, its stack trace. Also the pieces the meta boxes share: the
 * publish step as a function of the store, truncation with `array_slice`,
 * and the article shape of the sources that only give title, text and link.
 */
module RunReport {
  import opened Php
  import opened JsonEncode
  import opened Cms
  import opened Publisher

  /**
   * The transient a fetch writes: the publisher's result, or `{message[, trace]}`;
   * `Aborted` is an uncaught `Error` that ends the request and writes no transient.
   */
  datatype Report = Results(result: Published) | Failure(message: string, trace: Option<string>)
                  | Aborted(error: string)

  /** The error record of a caught exception; the trace (not modelled: a parameter) only in debug mode. */
  function ErrorRecord(message: string, debug: bool, trace: string): (r: Report)
    ensures r.Failure? && r.message == message
    ensures r.trace.Some? <==> debug
  {
    Failure(message, if debug then Some(trace) else None)
  }

  /** What a meta box's fetch leaves behind: the transient it writes and the store after it. */
  datatype Outcome = Outcome(report: Report, db: Db)

  /** The run of `publishNews` over `articles` on a store in state `db`. */
  function Publication(db: Db, articles: seq<Article>, cfg: Config, wp: Wp): Progress
  {
    Run(Progress(db, []), articles, cfg, wp)
  }

  /** The results record of a publish run: its count is the number of ids. */
  function ResultOf(p: Progress): (r: Report)
    ensures r.Results? && r.result.count == |r.result.postIds| && r.result.postIds == p.ids
  {
    Results(Published(|p.ids|, p.ids))
  }

  /** Publishing `articles` on a store in state `db`, and the results record written for it. */
  function PublishOutcome(db: Db, articles: seq<Article>, cfg: Config, wp: Wp): (o: Outcome)
    ensures o.report.Results?
  {
    var p := Publication(db, articles, cfg, wp);
    Outcome(ResultOf(p), p.db)
  }

  /** A run creates at most one post per article. */
  lemma {:induction false} RunIdsBound(pr: Progress, articles: seq<Article>, cfg: Config, wp: Wp)
    ensures |Run(pr, articles, cfg, wp).ids| <= |pr.ids| + |articles|
    decreases |articles|
  {
    if articles != [] {
      RunIdsBound(pr, articles[..|articles| - 1], cfg, wp);
    }
  }

  /** The count a publish run reports is at most the number of articles handed over. */
  lemma PublishedAtMost(db: Db, articles: seq<Article>, cfg: Config, wp: Wp)
    ensures PublishOutcome(db, articles, cfg, wp).report.result.count <= |articles|
  {
    RunIdsBound(Progress(db, []), articles, cfg, wp);
  }

  /** `array_slice($xs, 0, $n)` when `$n > 0` and the list is longer, the list itself otherwise. */
  function Truncated<T>(xs: seq<T>, n: int): (r: seq<T>)
    ensures r <= xs
    ensures n > 0 ==> |r| == if |xs| < n then |xs| else n
    ensures n <= 0 ==> r == xs
  {
    if n > 0 && |xs| > n then xs[..n] else xs
  }

  /**
   * An article that carries only a title, a text and a link, as the Scholar,
   * PubMed and blog sources hand them to the publisher: no description, no
   * full text, no date and no image.
   */
  function LinkedArticle(title: string, content: string, link: string): Article
  {
    Article(title, "", content, "", Str(link), Absent, Absent)
  }

  /**
   * Such an article's body is its text followed by the link note, and it is
   * looked up by its encoded link; an empty link ("" or "0") adds no note.
   */
  lemma LinkedArticleShape(title: string, content: string, link: string)
    ensures var a := LinkedArticle(title, content, link);
      ComposeBody(a) == content + (if Falsy(link) then "" else "<br>{\"source\":" + JsonString(link) + "}")
      && SourceKey(a) == StripSlashes(JsonString(link))
      && (IsEmpty(a.link) <==> Falsy(link))
  {
  }
}
