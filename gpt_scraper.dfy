/**
 * Discovering article links on a web page with a language model: the page's
 * anchors are listed, the model is asked (with bounded retries) for a JSON
 * array of post URLs, the valid URLs are kept, and each is scraped until
 * enough articles are collected.
 */
module GptScraper {
  import opened Php
  import JsonFixer

  /**
   * The answer of one `/chat/completions` POST: the message content, a body
   * without a string at `choices[0].message.content` (not JSON, a missing
   * key, or `null`), or a transport exception.
   */
  datatype LlmReply = Reply(content: string) | NoContent | TransportError

  /** An `<a>` element: its `href` attribute and its text content. */
  datatype Anchor = Anchor(href: string, text: string)

  /** An element of the decoded model reply; only strings can be URLs. */
  datatype JsonItem = Text(s: string) | NonString

  /** What Readability extracts from a fetched page. */
  datatype Page = Page(title: string, content: string)

  /** The record `scrape` returns. */
  datatype NewsRecord = NewsRecord(title: string, content: string, url: string, link: string)

  /**
   * The services the scraper calls and whose behaviour is not part of this
   * model: the HTTP GET of a page (None when it throws), the `<body>`
   * extraction, the anchors of a document, the language model (given the
   * prompt, the attempt number and the system message), the array-of-strings
   * schema check, `JsonFixer::fixIncompleteJson` (see `FourFailuresReturnRepair`),
   * `json_decode` into an array (None
   * when the reply is not a JSON array or object), `FILTER_VALIDATE_URL`,
   * and fetch-plus-Readability of an article (None when either throws).
   */
  datatype Services = Services(
    fetchHtml: string -> Option<string>,
    bodyOf: string -> string,
    anchorsOf: string -> seq<Anchor>,
    llm: (string, nat, SystemKind) -> LlmReply,
    matchesSchema: string -> bool,
    fix: string -> Result<string>,
    decode: string -> Option<seq<JsonItem>>,
    isUrl: string -> bool,
    read: string -> Option<Page>)

  const SystemContent := "You extract only news headers urls from the given html"
  const ErrorContent := "You extract only news headers urls from the given html. "
    + "Your previous response is not a valid JSON. Reutrn only valid json string without \U{02D9}\U{02D9}\U{02D9} "
  /** The retry counter starts at 1 and the loop continues only below this value. */
  const CounterLimit := 5

  /** The `TypeError` of passing a missing reply content to `isValidJson(string)` under strict types. */
  const NullContentError := "NewsGPTScraper::isValidJson(): Argument #1 ($jsonString) must be of type string, null given"
  /** The `ValueError` PHP 8 raises when `DOMDocument::loadHTML` is given an empty string. */
  const EmptyHtmlError := "DOMDocument::loadHTML(): Argument #1 ($source) must not be empty"

  const InvalidJsonResponse := "Invalid JSON response from GPT."
  const NoValidUrls := "No valid URLs found in GPT's response."

  // ---------------------------------------------------------------------
  // sendToGpt: the retry loop.
  // ---------------------------------------------------------------------

  /** Which of the two system messages a POST carries. */
  datatype SystemKind = Plain | AfterInvalid

  /** The text of a system message. */
  function SystemText(k: SystemKind): string
  {
    match k
    case Plain => SystemContent
    case AfterInvalid => ErrorContent
  }

  /** The system message of an attempt: the plain one while the previous reply was valid. */
  function SystemMessage(valid: bool): SystemKind
  {
    if valid then Plain else AfterInvalid
  }

  /**
   * The system messages sent, one per POST, and the returned text, or
   * `Crashed` when a reply without content raised a `TypeError`, which the
   * `catch (\Exception)` of `sendToGpt` does not catch.
   */
  datatype Exchange = Exchange(text: string, messages: seq<SystemKind>) | Crashed(messages: seq<SystemKind>)

  /** An exchange preceded by one more POST with system message `msg`. */
  function After(msg: SystemKind, rest: Exchange): (e: Exchange)
    ensures e.Exchange? <==> rest.Exchange?
    ensures e.Exchange? ==> e.text == rest.text
    ensures e.messages == [msg] + rest.messages
  {
    rest.(messages := [msg] + rest.messages)
  }

  /**
   * The loop from the attempt with counter value `counter` on, where `valid`
   * says whether the previous reply passed the schema check and `last` is the
   * text kept so far (absent before the first reply).
   */
  function Converse(s: Services, prompt: string, counter: nat, valid: bool, last: Option<string>): (e: Exchange)
    requires 1 <= counter < CounterLimit
    decreases CounterLimit - counter
  {
    var msg := SystemMessage(valid);
    match s.llm(prompt, counter - 1, msg)
    case TransportError => Exchange(if last.Some? then last.value else "", [msg])
    case NoContent => Crashed([msg])
    case Reply(t) =>
      if s.matchesSchema(t) then Exchange(t, [msg])
      else
        match s.fix(t)
        case Err(_) => Exchange(t, [msg])
        case Ok(fixed) =>
          if counter + 1 < CounterLimit then
            After(msg, Converse(s, prompt, counter + 1, false, Some(fixed)))
          else Exchange(fixed, [msg])
  }

  /**
   * At most `CounterLimit - counter` POSTs are made from attempt `counter`
   * on: the first with the system message for `valid`, every later one with
   * the message for an invalid previous reply.
   */
  lemma {:induction false} ConverseMessages(s: Services, prompt: string, counter: nat, valid: bool,
                                            last: Option<string>)
    requires 1 <= counter < CounterLimit
    ensures var e := Converse(s, prompt, counter, valid, last);
      1 <= |e.messages| <= CounterLimit - counter
      && e.messages[0] == SystemMessage(valid)
      && forall i :: 1 <= i < |e.messages| ==> e.messages[i] == AfterInvalid
    decreases CounterLimit - counter
  {
    var msg := SystemMessage(valid);
    var reply := s.llm(prompt, counter - 1, msg);
    if reply.Reply? && !s.matchesSchema(reply.content) && s.fix(reply.content).Ok? && counter + 1 < CounterLimit {
      var fixed := s.fix(reply.content).value;
      ConverseMessages(s, prompt, counter + 1, false, Some(fixed));
    }
  }

  /** How one attempt ends: with the text to return, with a fixed reply to retry from, or with a `TypeError`. */
  datatype Turn = Done(text: string) | Again(fixed: string) | Crash

  /**
   * One pass of the loop body of `sendToGpt`: the POST with the system
   * message for `valid`, then the schema check, the fixer and the counter
   * check.
   */
  method TakeTurn(s: Services, prompt: string, counter: nat, valid: bool, last: Option<string>)
    returns (turn: Turn, msg: SystemKind)
    requires 1 <= counter < CounterLimit
    ensures msg == SystemMessage(valid)
    ensures turn.Done? ==> Converse(s, prompt, counter, valid, last) == Exchange(turn.text, [msg])
    ensures turn.Crash? ==> Converse(s, prompt, counter, valid, last) == Crashed([msg])
    ensures turn.Again? ==> counter + 1 < CounterLimit
    ensures turn.Again? ==>
      Converse(s, prompt, counter, valid, last) == After(msg, Converse(s, prompt, counter + 1, false, Some(turn.fixed)))
  {
    msg := SystemMessage(valid);
    var reply := s.llm(prompt, counter - 1, msg);
    if reply.TransportError? {
      return Done(if last.Some? then last.value else ""), msg;
    }
    if reply.NoContent? {
      return Crash, msg;
    }
    var t := reply.content;
    if s.matchesSchema(t) {
      return Done(t), msg;
    }
    var fixed := s.fix(t);
    if fixed.Err? {
      return Done(t), msg;
    }
    if counter + 1 >= CounterLimit {
      return Done(fixed.value), msg;
    }
    return Again(fixed.value), msg;
  }

  /** The exchange `rest` preceded by the passes that sent `sent`. */
  function Behind(sent: seq<SystemKind>, rest: Exchange): Exchange
  {
    rest.(messages := sent + rest.messages)
  }

  lemma BehindStep(sent: seq<SystemKind>, msg: SystemKind, next: Exchange)
    ensures Behind(sent + [msg], next) == Behind(sent, After(msg, next))
  {
    assert (sent + [msg]) + next.messages == sent + ([msg] + next.messages);
  }

  /**
   * `sendToGpt`: the system messages of the POSTs it made, and the text it
   * returns or the `TypeError` that escapes it.
   */
  method SendToGpt(s: Services, prompt: string) returns (e: Exchange)
    ensures e == Converse(s, prompt, 1, true, None)
  {
    var valid := true;
    var counter := 1;
    var last: Option<string> := None;
    var sent := [];
    ghost var whole := Converse(s, prompt, 1, true, None);
    assert Behind(sent, whole) == whole;
    while true
      invariant 1 <= counter < CounterLimit
      invariant Behind(sent, Converse(s, prompt, counter, valid, last)) == whole
      decreases CounterLimit - counter
    {
      var turn, msg := TakeTurn(s, prompt, counter, valid, last);
      if turn.Done? {
        e := Exchange(turn.text, sent + [msg]);
        return;
      }
      if turn.Crash? {
        e := Crashed(sent + [msg]);
        return;
      }
      BehindStep(sent, msg, Converse(s, prompt, counter + 1, false, Some(turn.fixed)));
      sent := sent + [msg];
      counter, valid, last := counter + 1, false, Some(turn.fixed);
    }
  }

  /** The reply to attempt `i` (0-based) of a run whose earlier replies were all invalid. */
  function ReplyAt(s: Services, prompt: string, i: nat): LlmReply
  {
    s.llm(prompt, i, SystemMessage(i == 0))
  }

  /** Attempt `i` gets a reply that fails the schema check but that the fixer accepts. */
  predicate Retried(s: Services, prompt: string, i: nat)
  {
    var r := ReplyAt(s, prompt, i);
    r.Reply? && !s.matchesSchema(r.content) && s.fix(r.content).Ok?
  }

  /** The first POST throwing makes `sendToGpt` return "". */
  lemma FirstPostFails(s: Services, prompt: string)
    requires ReplyAt(s, prompt, 0) == TransportError
    ensures Converse(s, prompt, 1, true, None) == Exchange("", [Plain])
  {
  }

  /**
   * The loop stops at the first reply that passes the schema check and
   * returns it, after one POST per earlier (fixable) invalid reply.
   */
  lemma {:induction false} StopsAtFirstValid(s: Services, prompt: string, counter: nat, last: Option<string>,
                                             n: nat, t: string)
    requires 1 <= counter <= n + 1 < CounterLimit
    requires forall i :: counter - 1 <= i < n ==> Retried(s, prompt, i)
    requires ReplyAt(s, prompt, n) == Reply(t) && s.matchesSchema(t)
    ensures var e := Converse(s, prompt, counter, counter == 1, last);
      e.Exchange? && e.text == t && |e.messages| == n - counter + 2
    decreases n - counter
  {
    if counter <= n {
      assert Retried(s, prompt, counter - 1);
      var r := ReplyAt(s, prompt, counter - 1);
      StopsAtFirstValid(s, prompt, counter + 1, Some(s.fix(r.content).value), n, t);
    }
  }

  /**
   * Fixed text is never re-checked: when every reply fails the schema check,
   * four POSTs are made and the fixer's output of the fourth reply is
   * returned, whether or not that output would pass.
   */
  lemma {:induction false} AllRepliesInvalid(s: Services, prompt: string, counter: nat, last: Option<string>)
    requires 1 <= counter < CounterLimit
    requires forall i :: counter - 1 <= i < CounterLimit - 1 ==> Retried(s, prompt, i)
    ensures Retried(s, prompt, CounterLimit - 2)
    ensures var e := Converse(s, prompt, counter, counter == 1, last);
      |e.messages| == CounterLimit - counter
      && e.Exchange? && e.text == s.fix(ReplyAt(s, prompt, CounterLimit - 2).content).value
    decreases CounterLimit - counter
  {
    assert Retried(s, prompt, counter - 1);
    if counter + 1 < CounterLimit {
      var r := ReplyAt(s, prompt, counter - 1);
      AllRepliesInvalid(s, prompt, counter + 1, Some(s.fix(r.content).value));
    }
  }

  /**
   * After four schema failures the returned text is the JSON repair of the
   * last reply, so it ends in `]` (possibly followed by whitespace) even
   * though nobody checked it against the schema; `isJson` is the JSON syntax
   * check the `fix` service is `JsonFixer::fixIncompleteJson` with.
   */
  lemma FourFailuresReturnRepair(s: Services, prompt: string, isJson: string -> bool)
    requires forall i :: 0 <= i < CounterLimit - 1 ==> Retried(s, prompt, i)
    requires Retried(s, prompt, CounterLimit - 2)
    requires var t := ReplyAt(s, prompt, CounterLimit - 2).content; s.fix(t) == JsonFixer.Fix(t, isJson)
    ensures Converse(s, prompt, 1, true, None).Exchange?
    ensures var text := Converse(s, prompt, 1, true, None).text;
      text == JsonFixer.Repair(ReplyAt(s, prompt, CounterLimit - 2).content) && JsonFixer.EndsInBracket(text)
  {
    AllRepliesInvalid(s, prompt, 1, None);
  }

  /** A reply the fixer rejects ends the loop with that raw reply. */
  lemma FixerFailureKeepsRawReply(s: Services, prompt: string, t: string)
    requires ReplyAt(s, prompt, 0) == Reply(t) && !s.matchesSchema(t) && s.fix(t).Err?
    ensures Converse(s, prompt, 1, true, None) == Exchange(t, [Plain])
  {
  }

  // ---------------------------------------------------------------------
  // parseGptResponse.
  // ---------------------------------------------------------------------

  /** The string elements that are valid URLs, in order. */
  function ValidUrls(items: seq<JsonItem>, isUrl: string -> bool): (urls: seq<string>)
    ensures |urls| <= |items|
    ensures forall u :: u in urls <==> Text(u) in items && isUrl(u)
  {
    if items == [] then []
    else
      var rest := ValidUrls(items[1..], isUrl);
      assert forall x :: x in items <==> x == items[0] || x in items[1..];
      if items[0].Text? && isUrl(items[0].s) then [items[0].s] + rest else rest
  }

  /** Filtering a concatenation filters each part, in order. */
  lemma {:induction false} ValidUrlsAppend(xs: seq<JsonItem>, ys: seq<JsonItem>, isUrl: string -> bool)
    ensures ValidUrls(xs + ys, isUrl) == ValidUrls(xs, isUrl) + ValidUrls(ys, isUrl)
  {
    if xs == [] {
      assert xs + ys == ys;
    } else {
      assert (xs + ys)[0] == xs[0];
      assert (xs + ys)[1..] == xs[1..] + ys;
      ValidUrlsAppend(xs[1..], ys, isUrl);
    }
  }

  /** `parseGptResponse`: the valid URLs of the decoded reply, or an exception. */
  function ParseGptResponse(response: string, decode: string -> Option<seq<JsonItem>>,
                            isUrl: string -> bool): (r: Result<seq<string>>)
    ensures decode(response).None? ==> r == Err(InvalidJsonResponse)
    ensures decode(response).Some? ==>
      (r.Ok? <==> exists u :: Text(u) in decode(response).value && isUrl(u))
    ensures decode(response).Some? && r.Err? ==> r.message == NoValidUrls
    ensures r.Ok? ==> r.value != [] && r.value == ValidUrls(decode(response).value, isUrl)
  {
    match decode(response)
    case None => Err(InvalidJsonResponse)
    case Some(items) =>
      var urls := ValidUrls(items, isUrl);
      if urls == [] then Err(NoValidUrls)
      else
        assert urls[0] in urls;
        Ok(urls)
  }

  // ---------------------------------------------------------------------
  // extractLinks.
  // ---------------------------------------------------------------------

  /** One anchor as a line of the summary, without its newline. */
  function AnchorText(a: Anchor): string
  {
    "<a href=\"" + a.href + "\">" + a.text + "</a>"
  }

  function AnchorLine(a: Anchor): string
  {
    AnchorText(a) + "\n"
  }

  /** The summary the model is shown: one line per anchor, in document order. */
  function LinkLines(anchors: seq<Anchor>): string
  {
    Flatten(Map(anchors, AnchorLine))
  }

  /** `extractLinks`, given the anchors of the document. */
  method ExtractLinks(anchors: seq<Anchor>) returns (content: string)
    ensures content == LinkLines(anchors)
  {
    content := "";
    var i := 0;
    while i < |anchors|
      invariant 0 <= i <= |anchors|
      invariant content == LinkLines(anchors[..i])
    {
      assert Map(anchors[..i + 1], AnchorLine) == Map(anchors[..i], AnchorLine) + [AnchorLine(anchors[i])];
      FlattenAppend(Map(anchors[..i], AnchorLine), AnchorLine(anchors[i]));
      content := content + AnchorLine(anchors[i]);
      i := i + 1;
    }
    assert anchors[..i] == anchors;
  }

  /**
   * When no href or text holds a newline, splitting the summary at newlines
   * gives back exactly one line per anchor, in order, and a final "".
   */
  lemma {:induction false} LinkLinesSplit(anchors: seq<Anchor>)
    requires forall a :: a in anchors ==> '\n' !in a.href && '\n' !in a.text
    ensures Explode('\n', LinkLines(anchors)) == Map(anchors, AnchorText) + [""]
  {
    if anchors != [] {
      var a := anchors[0];
      assert Map(anchors, AnchorLine) == [AnchorLine(a)] + Map(anchors[1..], AnchorLine);
      assert Map(anchors, AnchorText) == [AnchorText(a)] + Map(anchors[1..], AnchorText);
      assert '\n' !in AnchorText(a);
      LinkLinesSplit(anchors[1..]);
      ExplodeAfterPiece('\n', AnchorText(a), LinkLines(anchors[1..]));
    }
  }

  // ---------------------------------------------------------------------
  // scrape and scrapeNewsFromUrl.
  // ---------------------------------------------------------------------

  /** `scrape`: the page's title and content, with the requested URL as both `url` and `link`. */
  function Scrape(url: string, read: string -> Option<Page>): (r: Option<NewsRecord>)
    ensures r.Some? <==> read(url).Some?
    ensures r.Some? ==> (r.value.url == url && r.value.link == url
      && r.value.title == read(url).value.title && r.value.content == read(url).value.content)
  {
    match read(url)
    case None => None
    case Some(page) => Some(NewsRecord(page.title, page.content, url, url))
  }

  /** The prompt: the configured instruction, a marker, then the link summary. */
  function GptPrompt(aiPrompt: string, links: string): string
  {
    aiPrompt + " >>> " + links
  }

  /**
   * How the steps before the scraping loop end: with the URLs the model
   * proposes, with an exception that `scrapeNewsFromUrl` catches, or with an
   * `Error` that nothing in the plugin catches.
   */
  datatype Discovery = Proposed(urls: seq<string>) | Caught(message: string) | Uncaught(error: string)

  /**
   * Fetching the page, extracting its body and its anchors, and
   * `getNewsUrlsFromGpt`. An empty page, or a page without a `<body>`, makes
   * `loadHTML('')` raise a `ValueError`; a reply without content makes
   * `sendToGpt` raise a `TypeError`.
   */
  function DiscoverUrls(s: Services, url: string, aiPrompt: string): (d: Discovery)
    ensures s.fetchHtml(url).None? ==> d.Caught?
    ensures s.fetchHtml(url) == Some("") ==> d == Uncaught(EmptyHtmlError)
    ensures d.Proposed? ==> d.urls != [] && forall u :: u in d.urls ==> s.isUrl(u)
  {
    match s.fetchHtml(url)
    case None => Caught("transport")
    case Some(html) =>
      if html == "" then Uncaught(EmptyHtmlError)
      else
        var body := s.bodyOf(html);
        if body == "" then Uncaught(EmptyHtmlError)
        else
          var prompt := GptPrompt(aiPrompt, LinkLines(s.anchorsOf(body)));
          match Converse(s, prompt, 1, true, None)
          case Crashed(_) => Uncaught(NullContentError)
          case Exchange(text, _) =>
            match ParseGptResponse(text, s.decode, s.isUrl)
            case Err(m) => Caught(m)
            case Ok(urls) => Proposed(urls)
  }

  /**
   * A reply without content to the first POST, for a page with a body,
   * ends the request with the `TypeError`.
   */
  lemma NullContentIsUncaught(s: Services, url: string, aiPrompt: string, html: string)
    requires s.fetchHtml(url) == Some(html) && html != "" && s.bodyOf(html) != ""
    requires s.llm(GptPrompt(aiPrompt, LinkLines(s.anchorsOf(s.bodyOf(html)))), 0, Plain) == NoContent
    ensures DiscoverUrls(s, url, aiPrompt) == Uncaught(NullContentError)
  {
  }

  /** The most articles one call collects: the loop checks the count only after appending. */
  function Cap(amount: int): (c: nat)
    ensures c >= 1 && c >= amount
    ensures amount >= 1 ==> c == amount
    ensures amount < 1 ==> c == 1
  {
    if amount >= 1 then amount else 1
  }

  /**
   * The scraping loop over the discovered URLs with room for `cap` more
   * articles: it stops at the first scrape that throws, and after the
   * `cap`-th article.
   */
  function Harvest(urls: seq<string>, read: string -> Option<Page>, cap: nat): (arts: seq<NewsRecord>)
    ensures |arts| <= cap && |arts| <= |urls|
  {
    if urls == [] || cap == 0 then []
    else
      match Scrape(urls[0], read)
      case None => []
      case Some(r) => [r] + Harvest(urls[1..], read, cap - 1)
  }

  /**
   * The harvest is the scraped records of the first URLs, in order, and it
   * ends early only at a URL whose scrape throws.
   */
  lemma {:induction false} HarvestFacts(urls: seq<string>, read: string -> Option<Page>, cap: nat)
    ensures var arts := Harvest(urls, read, cap);
      (forall i :: 0 <= i < |arts| ==> Scrape(urls[i], read).Some? && arts[i] == Scrape(urls[i], read).value)
      && (|arts| < |urls| && |arts| < cap ==> Scrape(urls[|arts|], read).None?)
    decreases |urls|
  {
    if urls != [] && cap != 0 && Scrape(urls[0], read).Some? {
      HarvestFacts(urls[1..], read, cap - 1);
      var arts := Harvest(urls, read, cap);
      assert arts == [Scrape(urls[0], read).value] + Harvest(urls[1..], read, cap - 1);
      forall i | 1 <= i < |arts|
        ensures arts[i] == Scrape(urls[i], read).value
      {
        assert urls[1..][i - 1] == urls[i];
      }
      if |arts| < |urls| && |arts| < cap {
        assert urls[1..][|arts| - 1] == urls[|arts|];
      }
    }
  }

  /**
   * What `scrapeNewsFromUrl` returns: nothing when discovery throws an
   * exception, else the harvest of the URLs found; `Err` is the `Error` that
   * escapes it and ends the request.
   */
  function ScrapedArticles(s: Services, url: string, amount: int, aiPrompt: string): (r: Result<seq<NewsRecord>>)
    ensures r.Ok? ==> |r.value| <= Cap(amount)
    ensures r.Err? <==> DiscoverUrls(s, url, aiPrompt).Uncaught?
    ensures r.Err? ==> r.message == DiscoverUrls(s, url, aiPrompt).error
    ensures DiscoverUrls(s, url, aiPrompt).Caught? ==> r == Ok([])
    ensures r.Ok? ==> forall a :: a in r.value ==> a.url in DiscoverUrls(s, url, aiPrompt).urls
  {
    match DiscoverUrls(s, url, aiPrompt)
    case Caught(_) => Ok([])
    case Uncaught(e) => Err(e)
    case Proposed(urls) =>
      var arts := Harvest(urls, s.read, Cap(amount));
      HarvestFacts(urls, s.read, Cap(amount));
      assert forall a :: a in arts ==> a.url in urls by {
        forall a | a in arts
          ensures a.url in urls
        {
          var i :| 0 <= i < |arts| && arts[i] == a;
        }
      }
      Ok(arts)
  }

  /**
   * `scrapeNewsFromUrl`: every exception leaves what was collected so far;
   * the `TypeError` of a reply without content and the `ValueError` of an
   * empty page escape.
   */
  method ScrapeNewsFromUrl(s: Services, url: string, amount: int, aiPrompt: string)
    returns (r: Result<seq<NewsRecord>>)
    ensures r == ScrapedArticles(s, url, amount, aiPrompt)
  {
    r := Ok([]);
    var html := s.fetchHtml(url);
    if html.None? {
      return;
    }
    if html.value == "" {
      return Err(EmptyHtmlError);
    }
    var body := s.bodyOf(html.value);
    if body == "" {
      return Err(EmptyHtmlError);
    }
    var links := ExtractLinks(s.anchorsOf(body));
    var reply := SendToGpt(s, GptPrompt(aiPrompt, links));
    if reply.Crashed? {
      return Err(NullContentError);
    }
    var parsed := ParseGptResponse(reply.text, s.decode, s.isUrl);
    if parsed.Err? {
      return;
    }
    var articles := ScrapeEach(parsed.value, s.read, amount);
    r := Ok(articles);
  }

  /** One turn of the scraping loop at position `i`, as the harvest sees it. */
  lemma HarvestAt(urls: seq<string>, read: string -> Option<Page>, cap: nat, i: nat)
    requires i < |urls| && i < cap
    ensures Scrape(urls[i], read).None? ==> Harvest(urls[i..], read, cap - i) == []
    ensures Scrape(urls[i], read).Some? ==>
      Harvest(urls[i..], read, cap - i) == [Scrape(urls[i], read).value] + Harvest(urls[i + 1..], read, cap - (i + 1))
  {
    assert urls[i..][0] == urls[i];
    assert urls[i..][1..] == urls[i + 1..];
  }

  /** The `foreach` over the discovered URLs, with its count check after each append. */
  method ScrapeEach(urls: seq<string>, read: string -> Option<Page>, amount: int)
    returns (articles: seq<NewsRecord>)
    ensures articles == Harvest(urls, read, Cap(amount))
  {
    var cap := Cap(amount);
    articles := [];
    var i := 0;
    while i < |urls|
      invariant 0 <= i <= |urls| && |articles| == i && i < cap
      invariant articles + Harvest(urls[i..], read, cap - i) == Harvest(urls, read, cap)
    {
      HarvestAt(urls, read, cap, i);
      var record := Scrape(urls[i], read);
      if record.None? {
        assert articles + [] == articles;
        return;
      }
      ghost var next := Harvest(urls[i + 1..], read, cap - (i + 1));
      assert (articles + [record.value]) + next == articles + ([record.value] + next);
      articles := articles + [record.value];
      i := i + 1;
      if |articles| >= amount {
        assert cap - i == 0;
        assert articles + [] == articles;
        return;
      }
    }
    assert urls[i..] == [];
    assert articles + [] == articles;
  }
}
