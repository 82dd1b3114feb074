/**
 * Reading an RSS 2.0 or Atom feed into articles: one article per item, with
 * default title and content, and the full text scraped from the item's URL.
 */
module RssReader {
  import opened Php

  /**
   * A child element of an item as SimpleXML sees it: its own text, whether
   * it has child nodes other than that text, and its attributes.
   */
  datatype Node = Node(text: string, hasChildElements: bool, attrs: map<string, string>)

  /** An item or entry: its first child element of each name. */
  datatype Item = Item(children: map<string, Node>)

  /** A parsed document: the items of the first `channel`, and the top-level `entry` elements. */
  datatype Feed = Feed(channelItems: seq<Item>, entries: seq<Item>)

  /** `simplexml_load_string`: the document, or the parser's error messages. */
  datatype Parsed = Parsed(feed: Feed) | Malformed(errors: seq<string>)

  /** A completed HTTP exchange; 4xx/5xx answers and transport failures surface as Guzzle exceptions instead. */
  datatype Response = Response(status: int, contentType: string, body: string)

  /** The article array of an item; `link` and `pubDate` are the raw elements (absent when missing). */
  datatype RssArticle = RssArticle(title: string, content: string, fullContent: string,
                                   link: Option<Node>, pubDate: Option<Node>)

  /**
   * The services the reader calls: the HTTP GET (None for a Guzzle
   * exception), the XML parser, `FILTER_VALIDATE_URL`, the article scraper
   * (which never throws), `wp_strip_all_tags` and `wp_kses_post`.
   */
  datatype FeedServices = FeedServices(get: string -> Option<Response>, parse: string -> Parsed,
                                       isUrl: string -> bool, scrape: string -> string,
                                       stripTags: string -> string, kses: string -> string)

  const NoTitle := "No Title"
  const NoContent := "No Content"
  const NoItems := "No recognizable items found in the feed."

  /** `empty($item->name)`: missing, or without child nodes except a text that is "" or "0". */
  predicate EmptyChild(item: Item, name: string)
  {
    name !in item.children
    || (!item.children[name].hasChildElements && Falsy(item.children[name].text))
  }

  /** `(string) $item->name`: the element's text, "" when missing. */
  function ChildText(item: Item, name: string): (t: string)
    ensures name !in item.children ==> t == ""
  {
    if name in item.children then item.children[name].text else ""
  }

  /**
   * `getUrl`: the first non-empty of `link`, `url`, `guid` and `enclosure`.
   * A non-empty `guid` ends the search even when it is not a URL; an
   * enclosure counts only when the element is non-empty and has a `url`.
   */
  function GetUrl(item: Item, isUrl: string -> bool): (url: string)
    ensures !EmptyChild(item, "link") ==> url == ChildText(item, "link")
    ensures EmptyChild(item, "link") && !EmptyChild(item, "url") ==> url == ChildText(item, "url")
    ensures EmptyChild(item, "link") && EmptyChild(item, "url") && !EmptyChild(item, "guid") ==>
      url == (if isUrl(ChildText(item, "guid")) then ChildText(item, "guid") else "")
    ensures EmptyChild(item, "link") && EmptyChild(item, "url") && EmptyChild(item, "guid") ==>
      url == (if !EmptyChild(item, "enclosure") && "url" in item.children["enclosure"].attrs
              then item.children["enclosure"].attrs["url"] else "")
  {
    if !EmptyChild(item, "link") then ChildText(item, "link")
    else if !EmptyChild(item, "url") then ChildText(item, "url")
    else if !EmptyChild(item, "guid") then
      (if isUrl(ChildText(item, "guid")) then ChildText(item, "guid") else "")
    else if !EmptyChild(item, "enclosure") && "url" in item.children["enclosure"].attrs then
      item.children["enclosure"].attrs["url"]
    else ""
  }

  /** A `guid` that is present but not a URL hides an enclosure. */
  lemma GuidHidesEnclosure(item: Item, isUrl: string -> bool)
    requires EmptyChild(item, "link") && EmptyChild(item, "url")
    requires !EmptyChild(item, "guid") && !isUrl(ChildText(item, "guid"))
    ensures GetUrl(item, isUrl) == ""
  {
  }

  /** The URL found is one of the item's own values. */
  lemma GetUrlFromItem(item: Item, isUrl: string -> bool)
    ensures var u := GetUrl(item, isUrl);
      u == "" || (exists name :: name in item.children && item.children[name].text == u)
      || ("enclosure" in item.children && "url" in item.children["enclosure"].attrs
          && item.children["enclosure"].attrs["url"] == u)
  {
    var u := GetUrl(item, isUrl);
    if !EmptyChild(item, "link") {
      assert item.children["link"].text == u;
    } else if !EmptyChild(item, "url") {
      assert item.children["url"].text == u;
    } else if !EmptyChild(item, "guid") && u != "" {
      assert item.children["guid"].text == u;
    }
  }

  /** One item as an article: defaults for title and content, and the scraped page when a URL is found. */
  function ItemArticle(item: Item, svc: FeedServices): (a: RssArticle)
    ensures a.title == svc.stripTags(if "title" in item.children then item.children["title"].text else NoTitle)
    ensures a.content == svc.kses(
      if "content" in item.children then item.children["content"].text
      else if "description" in item.children then item.children["description"].text
      else NoContent)
    ensures var u := GetUrl(item, svc.isUrl); a.fullContent == if Falsy(u) then "" else svc.scrape(u)
    ensures a.link == (if "link" in item.children then Some(item.children["link"]) else None)
    ensures a.pubDate == (if "pubDate" in item.children then Some(item.children["pubDate"]) else None)
  {
    var title := if "title" in item.children then item.children["title"].text else NoTitle;
    var content := if "content" in item.children then item.children["content"].text
                   else if "description" in item.children then item.children["description"].text
                   else NoContent;
    var url := GetUrl(item, svc.isUrl);
    RssArticle(svc.stripTags(title), svc.kses(content), if Falsy(url) then "" else svc.scrape(url),
               if "link" in item.children then Some(item.children["link"]) else None,
               if "pubDate" in item.children then Some(item.children["pubDate"]) else None)
  }

  /** The articles of a list of items, in order. */
  function Articles(items: seq<Item>, svc: FeedServices): (r: seq<RssArticle>)
    ensures |r| == |items|
    ensures forall i :: 0 <= i < |items| ==> r[i] == ItemArticle(items[i], svc)
  {
    if items == [] then [] else Articles(items[..|items| - 1], svc) + [ItemArticle(items[|items| - 1], svc)]
  }

  /** RSS items when the first channel has any, else Atom entries, else none. */
  function SelectItems(feed: Feed): (r: Option<seq<Item>>)
    ensures r.None? <==> feed.channelItems == [] && feed.entries == []
    ensures r.Some? ==> r.value == if feed.channelItems != [] then feed.channelItems else feed.entries
  {
    if feed.channelItems != [] then Some(feed.channelItems)
    else if feed.entries != [] then Some(feed.entries)
    else None
  }

  function ErrorPart(e: string): string
  {
    e + "; "
  }

  function StatusError(status: int): string
  {
    "Failed to fetch RSS feed. HTTP Status Code: " + IntToString(status)
  }

  function ParseError(errors: seq<string>): string
  {
    "Failed to parse RSS feed. Errors: " + Flatten(Map(errors, ErrorPart))
  }

  /** What `readUrl` returns for `url`, or the exception it lets escape. */
  function FeedResult(url: string, svc: FeedServices): (r: Result<seq<RssArticle>>)
    ensures svc.get(url).None? ==> r == Ok([])
    ensures svc.get(url).Some? && svc.get(url).value.status != 200 ==>
      r == Err(StatusError(svc.get(url).value.status))
  {
    match svc.get(url)
    case None => Ok([])
    case Some(resp) =>
      if resp.status != 200 then Err(StatusError(resp.status))
      else
        match svc.parse(resp.body)
        case Malformed(errors) => Err(ParseError(errors))
        case Parsed(feed) =>
          match SelectItems(feed)
          case None => Err(NoItems)
          case Some(items) => Ok(Articles(items, svc))
  }

  /** `readUrl`; `amount` is accepted and, as in the source, never used. */
  method ReadUrl(svc: FeedServices, url: string, amount: int) returns (r: Result<seq<RssArticle>>)
    ensures r == FeedResult(url, svc)
  {
    var response := svc.get(url);
    if response.None? {
      return Ok([]);
    }
    var resp := response.value;
    if resp.status != 200 {
      return Err(StatusError(resp.status));
    }
    var parsed := svc.parse(resp.body);
    if parsed.Malformed? {
      return Err(ParseError(parsed.errors));
    }
    var selected := SelectItems(parsed.feed);
    if selected.None? {
      return Err(NoItems);
    }
    var articles := ReadItems(selected.value, svc);
    return Ok(articles);
  }

  /** The `foreach` over the selected items: one article per item, in order. */
  method ReadItems(items: seq<Item>, svc: FeedServices) returns (articles: seq<RssArticle>)
    ensures articles == Articles(items, svc)
  {
    articles := [];
    var i := 0;
    while i < |items|
      invariant 0 <= i <= |items|
      invariant articles == Articles(items[..i], svc)
    {
      assert items[..i + 1][..i] == items[..i];
      articles := articles + [ItemArticle(items[i], svc)];
      i := i + 1;
    }
    assert items[..i] == items;
  }

  /** A successful read yields exactly one article per selected item, in feed order. */
  lemma OneArticlePerItem(url: string, svc: FeedServices)
    requires FeedResult(url, svc).Ok? && svc.get(url).Some?
    ensures var resp := svc.get(url).value;
      svc.parse(resp.body).Parsed? && SelectItems(svc.parse(resp.body).feed).Some?
      && var items := SelectItems(svc.parse(resp.body).feed).value;
      var arts := FeedResult(url, svc).value;
      |arts| == |items| && forall i :: 0 <= i < |items| ==> arts[i] == ItemArticle(items[i], svc)
  {
  }

  /** The Content-Type header only gets logged: it never changes the outcome. */
  lemma ContentTypeIgnored(url: string, svc: FeedServices, contentType: string)
    requires svc.get(url).Some?
    ensures var other := svc.(get := (u: string) => if u == url then Some(svc.get(url).value.(contentType := contentType))
                                                  else svc.get(u));
      FeedResult(url, other) == FeedResult(url, svc)
  {
    var other := svc.(get := (u: string) => if u == url then Some(svc.get(url).value.(contentType := contentType))
                                          else svc.get(u));
    var resp := svc.get(url).value;
    assert other.get(url) == Some(resp.(contentType := contentType));
    if resp.status == 200 {
      match svc.parse(resp.body)
      case Malformed(_) =>
      case Parsed(feed) =>
        if SelectItems(feed).Some? {
          ArticlesIgnoreGet(SelectItems(feed).value, svc, other);
        }
    }
  }

  /** The article conversion does not use the HTTP GET. */
  lemma ArticlesIgnoreGet(items: seq<Item>, svc: FeedServices, other: FeedServices)
    requires other == svc.(get := other.get)
    ensures Articles(items, other) == Articles(items, svc)
  {
  }
}
