/**
 * Publishing collected articles as WordPress posts: each article is checked
 * against the `source_link` values already stored for the post type, its
 * body is composed from description, full text, content and link, and the
 * post with its meta fields and tags is inserted.
 */
module Publisher {
  import opened Php
  import opened JsonEncode
  import opened Cms

  /** An article as the sources hand it over; a missing text field is "". */
  datatype Article = Article(title: string, description: string, content: string,
                             fullContent: string, link: Field, pubDate: Field, imageUrl: Field)

  /** The settings a publish run is called with. */
  datatype Config = Config(categoryId: int, tagIds: seq<int>, postStatus: string, postType: string)

  /** `['count' => ..., 'post_ids' => ...]`. */
  datatype Published = Published(count: nat, postIds: seq<nat>)

  const Divider := "<br>"

  // ---------------------------------------------------------------------
  // Body composition.
  // ---------------------------------------------------------------------

  /** The description and a divider, when the description is not empty. */
  function DescriptionBlock(description: string): (b: string)
    ensures Falsy(description) ==> b == ""
    ensures !Falsy(description) ==> b == description + Divider
  {
    if Falsy(description) then "" else description + Divider
  }

  /** Full text and content joined by a divider when both are present, else whichever is non-empty, else the content. */
  function MainText(fullContent: string, content: string): (m: string)
    ensures !Falsy(fullContent) && !Falsy(content) ==> m == fullContent + Divider + content
    ensures !Falsy(fullContent) && Falsy(content) ==> m == fullContent
    ensures Falsy(fullContent) ==> m == content
  {
    if !Falsy(fullContent) && !Falsy(content) then fullContent + Divider + content
    else if !Falsy(fullContent) then fullContent
    else content
  }

  /** The link named in the body: the string itself, or the first element of a list. */
  function ResolveLink(link: Field): (s: string)
    requires !IsEmpty(link)
    ensures link.Str? ==> s == link.s
    ensures link.List? ==> s == link.items[0]
  {
    match link
    case Str(s) => s
    case List(items) => items[0]
  }

  /** `<br>` and `{"source":...}` naming the link, when there is one. */
  function SourceNote(link: Field): (n: string)
    ensures IsEmpty(link) ==> n == ""
    ensures !IsEmpty(link) ==> n == "<br>{\"source\":" + JsonString(ResolveLink(link)) + "}"
  {
    if IsEmpty(link) then "" else "<br>{\"source\":" + JsonString(ResolveLink(link)) + "}"
  }

  /** The post body before the WordPress sanitizers run. */
  function ComposeBody(a: Article): (body: string)
  {
    DescriptionBlock(a.description) + MainText(a.fullContent, a.content) + SourceNote(a.link)
  }

  /** The body keeps the article's text in order: description, main text, then the link note. */
  lemma BodyLayout(a: Article)
    ensures StartsWith(ComposeBody(a), DescriptionBlock(a.description))
    ensures EndsWith(ComposeBody(a), SourceNote(a.link))
    ensures !Falsy(a.fullContent) ==> StartsWith(ComposeBody(a)[|DescriptionBlock(a.description)|..], a.fullContent)
    ensures Falsy(a.fullContent) ==> StartsWith(ComposeBody(a)[|DescriptionBlock(a.description)|..], a.content)
  {
    var d, m, n := DescriptionBlock(a.description), MainText(a.fullContent, a.content), SourceNote(a.link);
    assert ComposeBody(a) == d + m + n;
    assert (d + m + n)[..|d|] == d;
    assert (d + m + n)[|d + m|..] == n;
    assert (d + m + n)[|d|..] == m + n;
    assert !Falsy(a.fullContent) ==> (m + n)[..|a.fullContent|] == a.fullContent;
    assert Falsy(a.fullContent) ==> (m + n)[..|a.content|] == a.content;
  }

  // ---------------------------------------------------------------------
  // The publish loop, as a function of the store.
  // ---------------------------------------------------------------------

  /** What `postExists` looks up: `stripslashes(json_encode(link))`. */
  function SourceKey(a: Article): string
  {
    DedupKey(a.link)
  }

  function Category(cfg: Config): (c: seq<int>)
    ensures cfg.postType == "post" ==> c == [cfg.categoryId]
    ensures cfg.postType != "post" ==> c == []
  {
    if cfg.postType == "post" then [cfg.categoryId] else []
  }

  predicate TagsApply(cfg: Config)
  {
    cfg.postType == "post" && cfg.tagIds != []
  }

  /** `add_post_meta($id, $key, json_encode($field), true)` when the field is not empty. */
  function AddIfPresent(db: Db, id: nat, key: string, f: Field): (r: Db)
    ensures r.posts == db.posts && r.terms == db.terms && r.nextId == db.nextId
    ensures r.insertCalls == db.insertCalls
    ensures forall k :: k in db.meta ==> k in r.meta && r.meta[k] == db.meta[k]
    ensures forall k :: k in r.meta && k !in db.meta ==> k == (id, key) && !IsEmpty(f) && r.meta[k] == DedupKey(f)
    ensures !IsEmpty(f) && id != 0 ==> (id, key) in r.meta
    ensures Fresh(db) && id < db.nextId ==> Fresh(r)
  {
    if IsEmpty(f) then db else AddMeta(db, id, key, Encode(f))
  }

  /** `wp_set_post_terms` with the configured tags, for posts of type `post` only. */
  function AddTags(db: Db, id: nat, cfg: Config): (r: Db)
    ensures r.posts == db.posts && r.meta == db.meta && r.nextId == db.nextId
    ensures r.insertCalls == db.insertCalls
    ensures forall t :: t in db.terms && t != id ==> t in r.terms && r.terms[t] == db.terms[t]
    ensures forall t :: t in r.terms ==> t in db.terms || t == id
    ensures TagsApply(cfg) ==> id in r.terms && r.terms[id] == cfg.tagIds
    ensures !TagsApply(cfg) ==> r == db
    ensures Fresh(db) && id < db.nextId ==> Fresh(r)
  {
    if TagsApply(cfg) then SetTerms(db, id, cfg.tagIds) else db
  }

  /** Tags, then the JSON-encoded link, publication date and image of a post that was created. */
  function RecordMeta(db: Db, id: nat, a: Article, cfg: Config): Db
  {
    var d1 := AddTags(db, id, cfg);
    var d2 := AddIfPresent(d1, id, "source_link", a.link);
    var d3 := AddIfPresent(d2, id, "publication_date", a.pubDate);
    AddIfPresent(d3, id, "image_url", a.imageUrl)
  }

  /** The store and the published ids while the loop runs. */
  datatype Progress = Progress(db: Db, ids: seq<nat>)

  /** The `wp_insert_post` call of one article. */
  function Attempt(db: Db, a: Article, cfg: Config, wp: Wp): Inserted
  {
    Insert(db, wp, wp.sanitizeTitle(a.title), wp.sanitizeContent(ComposeBody(a)),
           cfg.postStatus, cfg.postType, Category(cfg))
  }

  /** One iteration of the loop over the articles. */
  function Step(pr: Progress, a: Article, cfg: Config, wp: Wp): Progress
  {
    if LinkExists(pr.db, cfg.postType, SourceKey(a)) then pr
    else
      var ins := Attempt(pr.db, a, cfg, wp);
      var db := AddMeta(ins.db, ins.id, "read_status", "unread");
      if ins.id == 0 then Progress(db, pr.ids)
      else Progress(RecordMeta(db, ins.id, a, cfg), pr.ids + [ins.id])
  }

  /** The loop over `articles`, in order. */
  function Run(pr: Progress, articles: seq<Article>, cfg: Config, wp: Wp): Progress
    decreases |articles|
  {
    if articles == [] then pr
    else Step(Run(pr, articles[..|articles| - 1], cfg, wp), articles[|articles| - 1], cfg, wp)
  }

  /** One pass of the loop body of `publishNews`: the article `a`, with the ids published so far. */
  method PublishOne(store: Store, a: Article, cfg: Config, published: seq<nat>) returns (ids: seq<nat>)
    modifies store
    ensures Progress(store.Snapshot(), ids) == Step(Progress(old(store.Snapshot()), published), a, cfg, store.wp)
  {
    ids := published;
    if !store.HasLink(cfg.postType, DedupKey(a.link)) {
      var id := store.InsertPost(store.wp.sanitizeTitle(a.title), store.wp.sanitizeContent(ComposeBody(a)),
                                 cfg.postStatus, cfg.postType, Category(cfg));
      store.AddPostMeta(id, "read_status", "unread");
      if id != 0 {
        if cfg.postType == "post" && cfg.tagIds != [] {
          store.SetPostTerms(id, cfg.tagIds);
        }
        if !IsEmpty(a.link) {
          store.AddPostMeta(id, "source_link", Encode(a.link));
        }
        if !IsEmpty(a.pubDate) {
          store.AddPostMeta(id, "publication_date", Encode(a.pubDate));
        }
        if !IsEmpty(a.imageUrl) {
          store.AddPostMeta(id, "image_url", Encode(a.imageUrl));
        }
        ids := ids + [id];
      }
    }
  }

  /** `publishNews`. */
  method PublishNews(store: Store, articles: seq<Article>, categoryId: int, tagIds: seq<int>,
                     postStatus: string, postType: string) returns (result: Published)
    modifies store
    ensures var final := Run(Progress(old(store.Snapshot()), []), articles,
                             Config(categoryId, tagIds, postStatus, postType), store.wp);
      store.Snapshot() == final.db && result == Published(|final.ids|, final.ids)
  {
    var cfg := Config(categoryId, tagIds, postStatus, postType);
    ghost var start := Progress(store.Snapshot(), []);
    var published: seq<nat> := [];
    var i := 0;
    while i < |articles|
      invariant 0 <= i <= |articles|
      invariant Progress(store.Snapshot(), published) == Run(start, articles[..i], cfg, store.wp)
    {
      assert articles[..i + 1][..i] == articles[..i];
      published := PublishOne(store, articles[i], cfg, published);
      i := i + 1;
    }
    assert articles[..i] == articles;
    result := Published(|published|, published);
  }

  // ---------------------------------------------------------------------
  // Properties of a run.
  // ---------------------------------------------------------------------

  /** `d1` grows `d0`: posts are appended, meta values and tags of existing ids stay. */
  predicate Extends(d0: Db, d1: Db)
  {
    d0.posts <= d1.posts && d0.nextId <= d1.nextId && d0.insertCalls <= d1.insertCalls
    && (forall k :: k in d0.meta ==> k in d1.meta && d1.meta[k] == d0.meta[k])
    && (forall id :: id in d0.terms ==> id in d1.terms && d1.terms[id] == d0.terms[id])
    && (forall id :: id < d0.nextId && id in d1.terms ==> id in d0.terms)
  }

  /** A post as the publisher leaves it: type, status, category, read status and tags as configured. */
  predicate PublishedPost(db: Db, p: Post, cfg: Config)
  {
    p.postType == cfg.postType && p.status == cfg.postStatus && p.category == Category(cfg)
    && MetaValue(db, p.id, "read_status") == "unread"
    && (if TagsApply(cfg) then p.id in db.terms && db.terms[p.id] == cfg.tagIds else p.id !in db.terms)
  }

  lemma ExtendsKeepsPublished(d0: Db, d1: Db, p: Post, cfg: Config)
    requires Extends(d0, d1) && p.id < d0.nextId && PublishedPost(d0, p, cfg)
    ensures PublishedPost(d1, p, cfg)
  {
  }

  lemma ExtendsKeepsLink(d0: Db, d1: Db, postType: string, value: string)
    requires Extends(d0, d1) && LinkExists(d0, postType, value)
    ensures LinkExists(d1, postType, value)
  {
    var p :| p in d0.posts && p.postType == postType
      && (p.id, "source_link") in d0.meta && d0.meta[(p.id, "source_link")] == value;
    assert p in d1.posts by {
      var i :| 0 <= i < |d0.posts| && d0.posts[i] == p;
      assert d1.posts[i] == p;
    }
  }

  /** What the meta writes after a successful insert add, and what they leave alone. */
  lemma RecordMetaFacts(db: Db, id: nat, a: Article, cfg: Config)
    requires Fresh(db) && id < db.nextId && id != 0 && id !in db.terms && (id, "source_link") !in db.meta
    ensures var r := RecordMeta(db, id, a, cfg);
      Fresh(r) && r.posts == db.posts && r.nextId == db.nextId && r.insertCalls == db.insertCalls
      && (forall k :: k in db.meta ==> k in r.meta && r.meta[k] == db.meta[k])
      && (forall t :: t in db.terms ==> t in r.terms && r.terms[t] == db.terms[t])
      && (forall t :: t in r.terms ==> t in db.terms || t == id)
      && (TagsApply(cfg) ==> id in r.terms && r.terms[id] == cfg.tagIds)
      && (!TagsApply(cfg) ==> id !in r.terms)
      && (forall k :: k in r.meta && k !in db.meta && k.1 == "source_link" ==>
            !IsEmpty(a.link) && r.meta[k] == DedupKey(a.link))
      && (!IsEmpty(a.link) ==> (id, "source_link") in r.meta && r.meta[(id, "source_link")] == DedupKey(a.link))
  {
    var d1 := AddTags(db, id, cfg);
    var d2 := AddIfPresent(d1, id, "source_link", a.link);
    var d3 := AddIfPresent(d2, id, "publication_date", a.pubDate);
    var r := AddIfPresent(d3, id, "image_url", a.imageUrl);
    assert forall k :: k in r.meta && k !in db.meta && k.1 == "source_link" ==> k in d2.meta;
  }

  /** The insert and the `read_status` write of an article that is created. */
  lemma MarkedUnread(pr: Progress, a: Article, cfg: Config, wp: Wp)
    requires Fresh(pr.db) && wp.accepts(pr.db.insertCalls)
    ensures var ins := Attempt(pr.db, a, cfg, wp);
      var db := AddMeta(ins.db, ins.id, "read_status", "unread");
      ins.id == pr.db.nextId && Fresh(db) && db.nextId == pr.db.nextId + 1
      && db.insertCalls == pr.db.insertCalls + 1 && db.terms == pr.db.terms
      && db.posts == pr.db.posts + [Post(ins.id, wp.sanitizeTitle(a.title), wp.sanitizeContent(ComposeBody(a)),
                                         cfg.postStatus, cfg.postType, Category(cfg))]
      && db.meta == pr.db.meta[(ins.id, "read_status") := "unread"]
  {
    var ins := Attempt(pr.db, a, cfg, wp);
    assert (ins.id, "read_status") !in ins.db.meta;
    assert StripSlashes("unread") == "unread";
  }

  /** A created post: next id, configured shape, and only its own rows added. */
  lemma CreatedStep(pr: Progress, a: Article, cfg: Config, wp: Wp)
    requires Fresh(pr.db) && !LinkExists(pr.db, cfg.postType, SourceKey(a)) && wp.accepts(pr.db.insertCalls)
    ensures var r := Step(pr, a, cfg, wp);
      Fresh(r.db) && Extends(pr.db, r.db) && r.db.insertCalls == pr.db.insertCalls + 1
      && |r.db.posts| == |pr.db.posts| + 1 && r.ids == pr.ids + [pr.db.nextId]
      && r.db.nextId == pr.db.nextId + 1 && r.db.posts[|pr.db.posts|].id == pr.db.nextId
      && PublishedPost(r.db, r.db.posts[|pr.db.posts|], cfg)
      && (!IsEmpty(a.link) ==> LinkExists(r.db, cfg.postType, SourceKey(a)))
      && (forall k :: k in r.db.meta && k !in pr.db.meta && k.1 == "source_link" ==>
            !IsEmpty(a.link) && r.db.meta[k] == DedupKey(a.link))
  {
    var ins := Attempt(pr.db, a, cfg, wp);
    var db := AddMeta(ins.db, ins.id, "read_status", "unread");
    MarkedUnread(pr, a, cfg, wp);
    RecordMetaFacts(db, ins.id, a, cfg);
    var r := RecordMeta(db, ins.id, a, cfg);
    assert Step(pr, a, cfg, wp) == Progress(r, pr.ids + [ins.id]);
    var p := r.posts[|pr.db.posts|];
    assert p in r.posts;
  }

  /** A failed insert only counts the call. */
  lemma FailedStep(pr: Progress, a: Article, cfg: Config, wp: Wp)
    requires !LinkExists(pr.db, cfg.postType, SourceKey(a)) && !wp.accepts(pr.db.insertCalls)
    ensures Step(pr, a, cfg, wp) == Progress(pr.db.(insertCalls := pr.db.insertCalls + 1), pr.ids)
  {
  }

  /**
   * `r` is `pr` after one article: the store only grew, by at most one
   * attempted insert, and either nothing was created or exactly one post,
   * with the next free id, in the published shape, whose id was appended.
   */
  predicate Stepped(pr: Progress, r: Progress, cfg: Config)
  {
    Fresh(r.db) && Extends(pr.db, r.db) && r.db.insertCalls <= pr.db.insertCalls + 1
    && ((r.db.posts == pr.db.posts && r.ids == pr.ids && r.db.nextId == pr.db.nextId)
        || (|r.db.posts| == |pr.db.posts| + 1 && r.ids == pr.ids + [pr.db.nextId]
            && r.db.nextId == pr.db.nextId + 1 && r.db.posts[|pr.db.posts|].id == pr.db.nextId
            && PublishedPost(r.db, r.db.posts[|pr.db.posts|], cfg)))
  }

  /** One iteration: the store only grows, and a created post gets the next id and the configured shape. */
  lemma StepFacts(pr: Progress, a: Article, cfg: Config, wp: Wp)
    requires Fresh(pr.db)
    ensures Stepped(pr, Step(pr, a, cfg, wp), cfg)
  {
    if !LinkExists(pr.db, cfg.postType, SourceKey(a)) {
      if wp.accepts(pr.db.insertCalls) {
        CreatedStep(pr, a, cfg, wp);
      } else {
        FailedStep(pr, a, cfg, wp);
      }
    }
  }

  /** The part of `StepFacts` about growth alone. */
  lemma StepExtends(pr: Progress, a: Article, cfg: Config, wp: Wp)
    requires Fresh(pr.db)
    ensures var r := Step(pr, a, cfg, wp);
      Fresh(r.db) && Extends(pr.db, r.db) && r.db.insertCalls <= pr.db.insertCalls + 1
  {
    StepFacts(pr, a, cfg, wp);
  }

  /** A run only grows the store and attempts at most one insert per article. */
  lemma {:induction false} RunExtends(pr: Progress, articles: seq<Article>, cfg: Config, wp: Wp)
    requires Fresh(pr.db)
    ensures var r := Run(pr, articles, cfg, wp);
      Fresh(r.db) && Extends(pr.db, r.db) && r.db.insertCalls <= pr.db.insertCalls + |articles|
    decreases |articles|
  {
    if articles != [] {
      var init := articles[..|articles| - 1];
      var mid := Run(pr, init, cfg, wp);
      RunExtends(pr, init, cfg, wp);
      StepExtends(mid, articles[|articles| - 1], cfg, wp);
      ExtendsTrans(pr.db, mid.db, Run(pr, articles, cfg, wp).db);
    }
  }

  lemma ExtendsTrans(d0: Db, d1: Db, d2: Db)
    requires Extends(d0, d1) && Extends(d1, d2)
    ensures Extends(d0, d2)
  {
  }

  /**
   * `r` grew from `start`: the store only grew, and the ids appended to the
   * list are those of the posts appended to the store, consecutive from the
   * counter's value at `start`.
   */
  predicate Grown(start: Progress, r: Progress)
  {
    Extends(start.db, r.db)
    && |r.db.posts| - |start.db.posts| == |r.ids| - |start.ids| == r.db.nextId - start.db.nextId
    && start.ids <= r.ids
    && (forall j :: |start.ids| <= j < |r.ids| ==> r.ids[j] == start.db.nextId + (j - |start.ids|))
  }

  /** Every post after the first `|start.db.posts|` carries the next free id and the configured shape. */
  predicate PublishedSince(start: Progress, r: Progress, cfg: Config)
  {
    forall j :: |start.db.posts| <= j < |r.db.posts| ==>
      r.db.posts[j].id == start.db.nextId + (j - |start.db.posts|) && PublishedPost(r.db, r.db.posts[j], cfg)
  }

  /** One step keeps a run grown from `start`. */
  lemma StepGrows(start: Progress, mid: Progress, a: Article, cfg: Config, wp: Wp)
    requires Fresh(mid.db) && Grown(start, mid)
    ensures Grown(start, Step(mid, a, cfg, wp))
  {
    StepFacts(mid, a, cfg, wp);
    SteppedGrows(start, mid, Step(mid, a, cfg, wp), cfg);
  }

  lemma SteppedGrows(start: Progress, mid: Progress, r: Progress, cfg: Config)
    requires Grown(start, mid) && Stepped(mid, r, cfg)
    ensures Grown(start, r)
  {
    ExtendsTrans(start.db, mid.db, r.db);
  }

  /** Growing the store keeps the posts created since `start` in the published shape. */
  lemma ExtendsKeepsPublishedSince(start: Progress, mid: Progress, d: Db, cfg: Config)
    requires Fresh(mid.db) && Extends(mid.db, d) && PublishedSince(start, mid, cfg)
    ensures forall j :: |start.db.posts| <= j < |mid.db.posts| ==>
      d.posts[j].id == start.db.nextId + (j - |start.db.posts|) && PublishedPost(d, d.posts[j], cfg)
  {
    forall j | |start.db.posts| <= j < |mid.db.posts|
      ensures d.posts[j].id == start.db.nextId + (j - |start.db.posts|)
      ensures PublishedPost(d, d.posts[j], cfg)
    {
      assert d.posts[j] == mid.db.posts[j];
      ExtendsKeepsPublished(mid.db, d, mid.db.posts[j], cfg);
    }
  }

  /** One step keeps every post created since `start` in the published shape, and adds one more. */
  lemma StepPublishes(start: Progress, mid: Progress, a: Article, cfg: Config, wp: Wp)
    requires Fresh(mid.db) && Grown(start, mid) && PublishedSince(start, mid, cfg)
    ensures PublishedSince(start, Step(mid, a, cfg, wp), cfg)
  {
    StepFacts(mid, a, cfg, wp);
    SteppedPublishes(start, mid, Step(mid, a, cfg, wp), cfg);
  }

  lemma SteppedPublishes(start: Progress, mid: Progress, r: Progress, cfg: Config)
    requires Fresh(mid.db) && Grown(start, mid) && PublishedSince(start, mid, cfg) && Stepped(mid, r, cfg)
    ensures PublishedSince(start, r, cfg)
  {
    ExtendsKeepsPublishedSince(start, mid, r.db, cfg);
  }

  /**
   * A whole run only grows the store, attempts at most one insert per
   * article, and returns the ids of the created posts in input order: the
   * consecutive ids starting at the counter's value.
   */
  lemma {:induction false} RunGrows(pr: Progress, articles: seq<Article>, cfg: Config, wp: Wp)
    requires Fresh(pr.db)
    ensures var r := Run(pr, articles, cfg, wp);
      Fresh(r.db) && Grown(pr, r) && r.db.insertCalls <= pr.db.insertCalls + |articles|
    decreases |articles|
  {
    if articles != [] {
      var init := articles[..|articles| - 1];
      var mid := Run(pr, init, cfg, wp);
      RunGrows(pr, init, cfg, wp);
      RunExtends(pr, articles, cfg, wp);
      StepGrows(pr, mid, articles[|articles| - 1], cfg, wp);
    }
  }

  /** Every post a run creates carries the next free id and the configured shape. */
  lemma {:induction false} RunPublishes(pr: Progress, articles: seq<Article>, cfg: Config, wp: Wp)
    requires Fresh(pr.db)
    ensures PublishedSince(pr, Run(pr, articles, cfg, wp), cfg)
    decreases |articles|
  {
    if articles != [] {
      var init := articles[..|articles| - 1];
      var mid := Run(pr, init, cfg, wp);
      RunGrows(pr, init, cfg, wp);
      RunPublishes(pr, init, cfg, wp);
      StepPublishes(pr, mid, articles[|articles| - 1], cfg, wp);
    }
  }

  /** Running over `xs + ys` is running over `xs`, then over `ys`. */
  lemma {:induction false} RunAppend(pr: Progress, xs: seq<Article>, ys: seq<Article>, cfg: Config, wp: Wp)
    ensures Run(pr, xs + ys, cfg, wp) == Run(Run(pr, xs, cfg, wp), ys, cfg, wp)
    decreases |ys|
  {
    if ys == [] {
      assert xs + ys == xs;
    } else {
      assert (xs + ys)[..|xs + ys| - 1] == xs + ys[..|ys| - 1];
      RunAppend(pr, xs, ys[..|ys| - 1], cfg, wp);
    }
  }

  /** An article whose key is already stored for the post type changes nothing. */
  lemma StepSkipsExisting(pr: Progress, a: Article, cfg: Config, wp: Wp)
    requires LinkExists(pr.db, cfg.postType, SourceKey(a))
    ensures Step(pr, a, cfg, wp) == pr
  {
  }

  /** A linked article whose insert succeeds leaves its key stored for the post type. */
  lemma StepRecordsLink(pr: Progress, a: Article, cfg: Config, wp: Wp)
    requires Fresh(pr.db) && !IsEmpty(a.link) && wp.accepts(pr.db.insertCalls)
    ensures LinkExists(Step(pr, a, cfg, wp).db, cfg.postType, SourceKey(a))
  {
    if !LinkExists(pr.db, cfg.postType, SourceKey(a)) {
      var ins := Insert(pr.db, wp, wp.sanitizeTitle(a.title), wp.sanitizeContent(ComposeBody(a)),
                        cfg.postStatus, cfg.postType, Category(cfg));
      var db := AddMeta(ins.db, ins.id, "read_status", "unread");
      assert ins.id == pr.db.nextId;
      RecordMetaFacts(db, ins.id, a, cfg);
      var r := RecordMeta(db, ins.id, a, cfg);
      var p := r.posts[|pr.db.posts|];
      assert p in r.posts && p.id == ins.id && p.postType == cfg.postType;
    }
  }

  /** Every insert attempted in the window starting at call number `from` succeeds. */
  predicate AcceptsWindow(wp: Wp, from: nat, n: nat)
  {
    forall k :: from <= k < from + n ==> wp.accepts(k)
  }

  /** One successful step keeps every stored key and adds its own. */
  lemma StepKeepsLinks(pr: Progress, done: seq<Article>, a: Article, cfg: Config, wp: Wp)
    requires Fresh(pr.db) && !IsEmpty(a.link) && wp.accepts(pr.db.insertCalls)
    requires forall b :: b in done ==> LinkExists(pr.db, cfg.postType, SourceKey(b))
    ensures forall b :: b in done + [a] ==> LinkExists(Step(pr, a, cfg, wp).db, cfg.postType, SourceKey(b))
  {
    var r := Step(pr, a, cfg, wp);
    StepExtends(pr, a, cfg, wp);
    StepRecordsLink(pr, a, cfg, wp);
    forall b | b in done + [a]
      ensures LinkExists(r.db, cfg.postType, SourceKey(b))
    {
      if b in done {
        ExtendsKeepsLink(pr.db, r.db, cfg.postType, SourceKey(b));
      }
    }
  }

  /** When every insert succeeds, each linked article of the batch has its key stored afterwards. */
  lemma {:induction false} RunRecordsLinks(pr: Progress, articles: seq<Article>, cfg: Config, wp: Wp)
    requires Fresh(pr.db) && AcceptsWindow(wp, pr.db.insertCalls, |articles|)
    requires forall a :: a in articles ==> !IsEmpty(a.link)
    ensures forall a :: a in articles ==> LinkExists(Run(pr, articles, cfg, wp).db, cfg.postType, SourceKey(a))
    decreases |articles|
  {
    if articles != [] {
      var init := articles[..|articles| - 1];
      var last := articles[|articles| - 1];
      assert articles == init + [last];
      var mid := Run(pr, init, cfg, wp);
      RunExtends(pr, init, cfg, wp);
      RunRecordsLinks(pr, init, cfg, wp);
      StepKeepsLinks(mid, init, last, cfg, wp);
    }
  }

  /** A batch whose every key is already stored publishes nothing and leaves the store alone. */
  lemma {:induction false} RunAllExisting(pr: Progress, articles: seq<Article>, cfg: Config, wp: Wp)
    requires forall a :: a in articles ==> LinkExists(pr.db, cfg.postType, SourceKey(a))
    ensures Run(pr, articles, cfg, wp) == pr
    decreases |articles|
  {
    if articles != [] {
      RunAllExisting(pr, articles[..|articles| - 1], cfg, wp);
    }
  }

  /**
   * Publishing the same batch of linked articles a second time, against the
   * store the first run left, creates nothing and reports count 0, provided
   * the inserts of the first run all succeeded.
   */
  lemma SecondRunPublishesNothing(db: Db, articles: seq<Article>, cfg: Config, wp: Wp)
    requires Fresh(db) && AcceptsWindow(wp, db.insertCalls, |articles|)
    requires forall a :: a in articles ==> !IsEmpty(a.link)
    ensures var first := Run(Progress(db, []), articles, cfg, wp);
      Run(Progress(first.db, []), articles, cfg, wp) == Progress(first.db, [])
  {
    RunRecordsLinks(Progress(db, []), articles, cfg, wp);
    var first := Run(Progress(db, []), articles, cfg, wp);
    RunAllExisting(Progress(first.db, []), articles, cfg, wp);
  }

  /** A link repeated later in the same batch is skipped the second time. */
  lemma RepeatedLinkSkipped(pr: Progress, xs: seq<Article>, a: Article, ys: seq<Article>, b: Article,
                            cfg: Config, wp: Wp)
    requires Fresh(pr.db) && !IsEmpty(a.link) && SourceKey(b) == SourceKey(a)
    requires AcceptsWindow(wp, pr.db.insertCalls, |xs| + 1)
    ensures Run(pr, xs + [a] + ys + [b], cfg, wp) == Run(pr, xs + [a] + ys, cfg, wp)
  {
    var before := Run(pr, xs, cfg, wp);
    RunExtends(pr, xs, cfg, wp);
    StepExtends(before, a, cfg, wp);
    StepRecordsLink(before, a, cfg, wp);
    RunAppend(pr, xs, [a], cfg, wp);
    var withA := Run(pr, xs + [a], cfg, wp);
    assert withA == Step(before, a, cfg, wp) by {
      assert [a][..0] == [];
    }
    RunExtends(withA, ys, cfg, wp);
    RunAppend(pr, xs + [a], ys, cfg, wp);
    var mid := Run(pr, xs + [a] + ys, cfg, wp);
    ExtendsKeepsLink(withA.db, mid.db, cfg.postType, SourceKey(a));
    assert (xs + [a] + ys + [b])[..|xs + [a] + ys|] == xs + [a] + ys;
  }

  // ---------------------------------------------------------------------
  // Articles without a link.
  // ---------------------------------------------------------------------

  /** The key `postExists` computes for a link PHP considers empty. */
  predicate IsEmptyLinkKey(v: string)
  {
    v == DedupKey(Absent) || v == DedupKey(Str("")) || v == DedupKey(Str("0")) || v == DedupKey(List([]))
  }

  /** No stored `source_link` is the key of an empty link. */
  predicate NoEmptyLinkKeys(db: Db)
  {
    forall k :: k in db.meta && k.1 == "source_link" ==> !IsEmptyLinkKey(db.meta[k])
  }

  lemma KeyOfEmptyLink(link: Field)
    ensures IsEmpty(link) <==> IsEmptyLinkKey(DedupKey(link))
  {
    if !IsEmpty(link) {
      EmptyLinkKeyIsNeverStored(Absent, link);
      EmptyLinkKeyIsNeverStored(Str(""), link);
      EmptyLinkKeyIsNeverStored(Str("0"), link);
      EmptyLinkKeyIsNeverStored(List([]), link);
    }
  }

  /**
   * An article without a link is never taken for a duplicate: it always
   * costs an insert.
   */
  lemma EmptyLinkNeverSkipped(pr: Progress, a: Article, cfg: Config, wp: Wp)
    requires NoEmptyLinkKeys(pr.db) && IsEmpty(a.link)
    ensures Step(pr, a, cfg, wp).db.insertCalls == pr.db.insertCalls + 1
  {
    KeyOfEmptyLink(a.link);
    forall p | p in pr.db.posts && (p.id, "source_link") in pr.db.meta
      ensures pr.db.meta[(p.id, "source_link")] != SourceKey(a)
    {
    }
  }

  /** Publishing never stores the key of an empty link. */
  lemma StepKeepsNoEmptyLinkKeys(pr: Progress, a: Article, cfg: Config, wp: Wp)
    requires Fresh(pr.db) && NoEmptyLinkKeys(pr.db)
    ensures NoEmptyLinkKeys(Step(pr, a, cfg, wp).db)
  {
    if !LinkExists(pr.db, cfg.postType, SourceKey(a)) {
      if wp.accepts(pr.db.insertCalls) {
        CreatedStep(pr, a, cfg, wp);
        KeyOfEmptyLink(a.link);
      } else {
        FailedStep(pr, a, cfg, wp);
      }
    }
  }
}
