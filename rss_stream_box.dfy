/**
 * The RSS stream meta box's fetch: every configured feed is read in turn,
 * its articles appended, and reading stops once more than `maxSize`
 * articles were gathered, keeping the first `maxSize`; the gathered
 * articles are then published as posts, or the first exception is recorded.
 */
module RssStreamBox {
  import opened Php
  import opened JsonEncode
  import opened Cms
  import opened Publisher
  import opened RssReader
  import opened RunReport

  /** The stream's stored settings, as `get_post_meta` and the casts give them. */
  datatype RssSettings = RssSettings(categoryId: int, tags: seq<int>, feeds: string, amount: int,
                                     maxSize: int, postStatus: string)

  /**
   * `json_decode(json_encode($element), true)` of a `link` or `pubDate`
   * element, for an element with text only: a one-item list holding the
   * text, or the empty list when the text or the element is missing.
   */
  function NodeField(n: Option<Node>): (f: Field)
    ensures IsEmpty(f) <==> n.None? || n.value.text == ""
    ensures !IsEmpty(f) ==> f == List([n.value.text])
  {
    if n.None? || n.value.text == "" then List([]) else List([n.value.text])
  }

  /** A feed article after the round trip through JSON, as the publisher reads it. */
  function ToArticle(a: RssArticle): (r: Article)
    ensures r.title == a.title && r.content == a.content && r.fullContent == a.fullContent
    ensures r.description == "" && r.imageUrl == Absent
    ensures IsEmpty(r.link) <==> a.link.None? || a.link.value.text == ""
    ensures !IsEmpty(r.link) ==> ResolveLink(r.link) == a.link.value.text
  {
    Article(a.title, "", a.content, a.fullContent, NodeField(a.link), NodeField(a.pubDate), Absent)
  }

  /** `readUrl` of one feed, its articles converted: the exception's message, or the articles in order. */
  function FeedArticles(feed: string, svc: FeedServices): (r: Result<seq<Article>>)
    ensures FeedResult(feed, svc).Err? <==> r.Err?
    ensures r.Err? ==> r.message == FeedResult(feed, svc).message
    ensures r.Ok? ==> (|r.value| == |FeedResult(feed, svc).value|
      && forall i :: 0 <= i < |r.value| ==> r.value[i] == ToArticle(FeedResult(feed, svc).value[i]))
  {
    match FeedResult(feed, svc)
    case Err(msg) => Err(msg)
    case Ok(arts) => Ok(Map(arts, ToArticle))
  }

  /** The reads of the configured feeds, in order. */
  function FeedReads(feeds: seq<string>, svc: FeedServices): (rs: seq<Result<seq<Article>>>)
    ensures |rs| == |feeds| && forall i :: 0 <= i < |feeds| ==> rs[i] == FeedArticles(feeds[i], svc)
  {
    Map(feeds, f => FeedArticles(f, svc))
  }

  /** The outcome of the feed loop and the number of feeds read. */
  datatype Gathered = Gathered(outcome: Result<seq<Article>>, feedsRead: nat)

  /**
   * The `foreach` over the feeds' reads `rs` having gathered `acc`: a read
   * that throws ends it with that exception; otherwise the articles are
   * appended, and once there are more than `maxSize > 0` of them the first
   * `maxSize` are kept and the remaining feeds are not read.
   */
  function Gather(rs: seq<Result<seq<Article>>>, maxSize: int, acc: seq<Article>): (g: Gathered)
    requires maxSize <= 0 || |acc| <= maxSize
    ensures g.feedsRead <= |rs|
    ensures g.outcome.Ok? ==> acc <= g.outcome.value
    ensures g.outcome.Ok? && maxSize > 0 ==> |g.outcome.value| <= maxSize
    ensures g.outcome.Ok? && g.feedsRead < |rs| ==> maxSize > 0 && |g.outcome.value| == maxSize
    ensures g.outcome.Err? ==> 1 <= g.feedsRead && rs[g.feedsRead - 1] == Err(g.outcome.message)
    decreases |rs|
  {
    if rs == [] then Gathered(Ok(acc), 0)
    else
      match rs[0]
      case Err(msg) => Gathered(Err(msg), 1)
      case Ok(arts) =>
        var merged := acc + arts;
        if maxSize > 0 && |merged| > maxSize then Gathered(Ok(merged[..maxSize]), 1)
        else
          var rest := Gather(rs[1..], maxSize, merged);
          assert rest.outcome.Err? ==> rs[1..][rest.feedsRead - 1] == rs[rest.feedsRead];
          Gathered(rest.outcome, rest.feedsRead + 1)
  }

  /** The articles of all reads, concatenated in order (a failed read adds none). */
  function AllArticles(rs: seq<Result<seq<Article>>>): seq<Article>
  {
    if rs == [] then [] else (if rs[0].Ok? then rs[0].value else []) + AllArticles(rs[1..])
  }

  /** Without a cap every feed is read and the articles are those of all feeds, concatenated in order. */
  lemma {:induction false} UncappedGathersAll(rs: seq<Result<seq<Article>>>, maxSize: int, acc: seq<Article>)
    requires maxSize <= 0
    requires forall i :: 0 <= i < |rs| ==> rs[i].Ok?
    ensures Gather(rs, maxSize, acc) == Gathered(Ok(acc + AllArticles(rs)), |rs|)
    decreases |rs|
  {
    if rs != [] {
      assert rs[0].Ok?;
      assert forall i :: 0 <= i < |rs[1..]| ==> rs[1..][i] == rs[i + 1];
      var merged := acc + rs[0].value;
      UncappedGathersAll(rs[1..], maxSize, merged);
      assert merged + AllArticles(rs[1..]) == acc + AllArticles(rs);
    } else {
      assert acc + [] == acc;
    }
  }

  /**
   * With a cap and every feed readable, the outcome is the first
   * `min(maxSize, total)` articles of all feeds, in order.
   */
  lemma {:induction false} CappedKeepsFirst(rs: seq<Result<seq<Article>>>, maxSize: int, acc: seq<Article>)
    requires 0 < maxSize && |acc| <= maxSize
    requires forall i :: 0 <= i < |rs| ==> rs[i].Ok?
    ensures Gather(rs, maxSize, acc).outcome == Ok(Truncated(acc + AllArticles(rs), maxSize))
    decreases |rs|
  {
    if rs != [] {
      assert rs[0].Ok?;
      assert forall i :: 0 <= i < |rs[1..]| ==> rs[1..][i] == rs[i + 1];
      var merged := acc + rs[0].value;
      var all := acc + AllArticles(rs);
      assert all == merged + AllArticles(rs[1..]);
      if |merged| > maxSize {
        assert all[..maxSize] == merged[..maxSize];
      } else {
        CappedKeepsFirst(rs[1..], maxSize, merged);
      }
    } else {
      assert acc + [] == acc;
    }
  }

  /** Reaching exactly `maxSize` does not stop the loop: the next feed is still read. */
  lemma ExactlyFullKeepsReading(rs: seq<Result<seq<Article>>>, maxSize: int, acc: seq<Article>)
    requires 0 < maxSize && |acc| <= maxSize && |rs| >= 2
    requires rs[0].Ok? && |acc + rs[0].value| == maxSize
    ensures Gather(rs, maxSize, acc).feedsRead >= 2
  {
    var rest := Gather(rs[1..], maxSize, acc + rs[0].value);
    assert rs[1..] != [];
    assert rest.feedsRead >= 1;
  }

  /** The publisher settings of the box: posts of type `post` with the stored category, tags and status. */
  function RssConfig(box: RssSettings): (cfg: Config)
    ensures cfg.postType == "post" && cfg.categoryId == box.categoryId && cfg.tagIds == box.tags
    ensures cfg.postStatus == box.postStatus
  {
    Config(box.categoryId, box.tags, box.postStatus, "post")
  }

  /**
   * The `foreach` over the feeds inside `fetchAndProcessRSS`'s `try`: the
   * first exception, or the articles gathered.
   */
  method GatherFeeds(svc: FeedServices, feeds: seq<string>, amount: int, maxSize: int)
    returns (outcome: Result<seq<Article>>)
    ensures outcome == Gather(FeedReads(feeds, svc), maxSize, []).outcome
  {
    ghost var rs := FeedReads(feeds, svc);
    var articles: seq<Article> := [];
    var i := 0;
    while i < |feeds|
      invariant 0 <= i <= |feeds|
      invariant maxSize <= 0 || |articles| <= maxSize
      invariant var g := Gather(rs[i..], maxSize, articles);
        Gathered(g.outcome, g.feedsRead + i) == Gather(rs, maxSize, [])
    {
      assert rs[i..][0] == rs[i] && rs[i..][1..] == rs[i + 1..];
      var read := ReadUrl(svc, feeds[i], amount);
      if read.Err? {
        return Err(read.message);
      }
      var converted := Map(read.value, ToArticle);
      assert rs[i] == Ok(converted);
      articles := articles + converted;
      i := i + 1;
      if maxSize > 0 && |articles| > maxSize {
        articles := articles[..maxSize];
        break;
      }
    }
    outcome := Ok(articles);
  }

  /**
   * `fetchAndProcessRSS`: the feeds are the trimmed non-empty lines of the
   * setting; an exception records its error and publishes nothing, otherwise
   * the gathered articles are published as `post`s.
   */
  method FetchAndProcessRss(store: Store, svc: FeedServices, box: RssSettings, debug: bool, trace: string)
    returns (report: Report)
    modifies store
    ensures var g := Gather(FeedReads(Lines(box.feeds), svc), box.maxSize, []);
      (g.outcome.Err? ==> report == ErrorRecord(g.outcome.message, debug, trace)
                          && store.Snapshot() == old(store.Snapshot()))
      && (g.outcome.Ok? ==> var p := Publication(old(store.Snapshot()), g.outcome.value, RssConfig(box), store.wp);
                            store.Snapshot() == p.db && report == ResultOf(p))
  {
    var gathered := GatherFeeds(svc, Lines(box.feeds), box.amount, box.maxSize);
    if gathered.Err? {
      return ErrorRecord(gathered.message, debug, trace);
    }
    var result := PublishNews(store, gathered.value, box.categoryId, box.tags, box.postStatus, "post");
    report := Results(result);
  }
}
