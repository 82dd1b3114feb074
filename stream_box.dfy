/**
 * The NewsAPI stream meta box: saving its settings as post meta, and the
 * fetch that queries NewsAPI with the stored keywords and language, keeps
 * the first `amount` articles and publishes them with the stored post type.
 */
module StreamBox {
  import opened Php
  import opened JsonEncode
  import opened Cms
  import opened Publisher
  import opened NewsApiFetcher
  import opened RunReport

  /** The settings `fetchAndProcessNews` reads back. */
  datatype StreamSettings = StreamSettings(language: string, keywords: string, categoryId: int,
                                           tags: seq<int>, amount: int, postStatus: string, postType: string)

  /**
   * The submitted form: its scalar fields, its array fields (`(array)` of a
   * scalar is a one-element list), the nonce check, and `sanitize_text_field`.
   */
  datatype Form = Form(fields: map<string, string>, lists: map<string, seq<string>>, nonceValid: bool,
                       sanitize: string -> string)

  /** `$_POST[$key] ?? $default`. */
  function FormText(form: Form, key: string, default: string): (v: string)
    ensures key !in form.fields ==> v == default
  {
    if key in form.fields then form.fields[key] else default
  }

  /** `(int)($_POST[$key] ?? 0)`. */
  function FormInt(form: Form, key: string): (n: int)
    ensures key !in form.fields ==> n == 0
  {
    if key in form.fields then IntCast(form.fields[key]) else 0
  }

  /** `isset($_POST[$key]) ? (array)$_POST[$key] : []`. */
  function FormList(form: Form, key: string): (xs: seq<string>)
    ensures key !in form.lists ==> xs == []
  {
    if key in form.lists then form.lists[key] else []
  }

  /** The stored `_stream_data_type`: the sanitized types, unslashed by WordPress, serialized. */
  function DataTypeMeta(form: Form): string
  {
    SerializeStrings(Map(Map(FormList(form, "stream_data_type"), form.sanitize), StripSlashes))
  }

  /** The submitted tags, `array_map('intval', ...)`. */
  function FormTags(form: Form): (tags: seq<int>)
    ensures |tags| == |FormList(form, "stream_tags")|
    ensures forall i :: 0 <= i < |tags| ==> tags[i] == IntCast(FormList(form, "stream_tags")[i])
  {
    Map(FormList(form, "stream_tags"), IntCast)
  }

  /**
   * The eight values `saveMetaBox` hands to `update_post_meta`, the two
   * arrays already in their serialized form.
   */
  datatype Submission = Submission(language: string, dataTypes: string, keywords: string, category: string,
                                   tags: string, amount: string, postStatus: string, postType: string)

  function SubmissionOf(form: Form): Submission
  {
    var s := form.sanitize;
    Submission(s(FormText(form, "stream_language", "")), DataTypeMeta(form),
               s(FormText(form, "stream_keywords", "")), IntToString(FormInt(form, "stream_category")),
               SerializeInts(FormTags(form)), IntToString(FormInt(form, "stream_amount")),
               s(FormText(form, "stream_post_status", "draft")), s(FormText(form, "stream_post_type", "post")))
  }

  /** The store after the eight `update_post_meta` calls on post `postId`, in source order. */
  function Write(db: Db, postId: nat, v: Submission): Db
  {
    var d1 := UpdateMeta(db, postId, "_stream_language", v.language);
    var d2 := UpdateArrayMeta(d1, postId, "_stream_data_type", v.dataTypes);
    var d3 := UpdateMeta(d2, postId, "_stream_keywords", v.keywords);
    var d4 := UpdateMeta(d3, postId, "_stream_category", v.category);
    var d5 := UpdateArrayMeta(d4, postId, "_stream_tags", v.tags);
    var d6 := UpdateMeta(d5, postId, "_stream_amount", v.amount);
    var d7 := UpdateMeta(d6, postId, "_stream_post_status", v.postStatus);
    UpdateMeta(d7, postId, "_stream_post_type", v.postType)
  }

  /** The store after `saveMetaBox` saved the form on post `postId`. */
  function Saved(db: Db, postId: nat, form: Form): Db
  {
    Write(db, postId, SubmissionOf(form))
  }

  /**
   * `(array) get_post_meta($postId, '_stream_tags', true)`: the unserialized
   * integer list; any other stored text gives no tags.
   */
  function StoredTags(v: string): (tags: seq<int>)
    ensures UnserializeInts(v).Some? ==> tags == UnserializeInts(v).value
    ensures UnserializeInts(v).None? ==> tags == []
  {
    match UnserializeInts(v)
    case Some(xs) => xs
    case None => []
  }

  /** The settings as `fetchAndProcessNews` reads them with `get_post_meta` and its casts. */
  function StoredSettings(db: Db, postId: nat): StreamSettings
  {
    StreamSettings(MetaValue(db, postId, "_stream_language"), MetaValue(db, postId, "_stream_keywords"),
                   IntCast(MetaValue(db, postId, "_stream_category")),
                   StoredTags(MetaValue(db, postId, "_stream_tags")),
                   IntCast(MetaValue(db, postId, "_stream_amount")),
                   MetaValue(db, postId, "_stream_post_status"), MetaValue(db, postId, "_stream_post_type"))
  }

  /** An integer written as meta reads back unchanged: its digits carry no backslash. */
  lemma IntMetaRoundTrip(n: int)
    ensures IntCast(StripSlashes(IntToString(n))) == n
  {
    assert forall i :: 0 <= i < |IntToString(n)| ==> IntToString(n)[i] != '\\';
    StripSlashesPlain(IntToString(n));
    IntCastIntToString(n);
  }

  /** The eight writes as one map: later writes to a key replace earlier ones. */
  lemma WriteMeta(db: Db, postId: nat, v: Submission)
    requires postId != 0
    ensures Write(db, postId, v).meta == db.meta
      [(postId, "_stream_language") := StripSlashes(v.language)]
      [(postId, "_stream_data_type") := v.dataTypes]
      [(postId, "_stream_keywords") := StripSlashes(v.keywords)]
      [(postId, "_stream_category") := StripSlashes(v.category)]
      [(postId, "_stream_tags") := v.tags]
      [(postId, "_stream_amount") := StripSlashes(v.amount)]
      [(postId, "_stream_post_status") := StripSlashes(v.postStatus)]
      [(postId, "_stream_post_type") := StripSlashes(v.postType)]
  {
    assert AbsInt(postId) == postId;
  }

  /** The meta keys of equal length differ; the others differ by their length. */
  lemma KeysDistinct()
    ensures "_stream_language" != "_stream_keywords" && "_stream_language" != "_stream_category"
    ensures "_stream_keywords" != "_stream_category" && "_stream_data_type" != "_stream_post_type"
  {
    assert "_stream_language"[8] == 'l' && "_stream_keywords"[8] == 'k' && "_stream_category"[8] == 'c';
    assert "_stream_data_type"[8] == 'd' && "_stream_post_type"[8] == 'p';
  }

  /** The keys of the first four writes hold their values: unslashed, or as serialized for the array. */
  lemma WriteReadsBackFirst(db: Db, postId: nat, v: Submission)
    requires postId != 0
    ensures var d := Write(db, postId, v);
      && MetaValue(d, postId, "_stream_language") == StripSlashes(v.language)
      && MetaValue(d, postId, "_stream_data_type") == v.dataTypes
      && MetaValue(d, postId, "_stream_keywords") == StripSlashes(v.keywords)
      && MetaValue(d, postId, "_stream_category") == StripSlashes(v.category)
  {
    WriteMeta(db, postId, v);
    KeysDistinct();
  }

  /** The keys of the last four writes hold their values: unslashed, or as serialized for the array. */
  lemma WriteReadsBackLast(db: Db, postId: nat, v: Submission)
    requires postId != 0
    ensures var d := Write(db, postId, v);
      && MetaValue(d, postId, "_stream_tags") == v.tags
      && MetaValue(d, postId, "_stream_amount") == StripSlashes(v.amount)
      && MetaValue(d, postId, "_stream_post_status") == StripSlashes(v.postStatus)
      && MetaValue(d, postId, "_stream_post_type") == StripSlashes(v.postType)
  {
    WriteMeta(db, postId, v);
    KeysDistinct();
  }

  /**
   * The saved settings read back as submitted, unslashed, with the defaults
   * `draft`, `post`, 0 for a missing category or amount, and no tags when
   * none were submitted.
   */
  lemma SavedReadsBack(db: Db, postId: nat, form: Form)
    requires postId != 0
    ensures var s := form.sanitize;
      StoredSettings(Saved(db, postId, form), postId) == StreamSettings(
        StripSlashes(s(FormText(form, "stream_language", ""))),
        StripSlashes(s(FormText(form, "stream_keywords", ""))),
        FormInt(form, "stream_category"), FormTags(form), FormInt(form, "stream_amount"),
        StripSlashes(s(FormText(form, "stream_post_status", "draft"))),
        StripSlashes(s(FormText(form, "stream_post_type", "post"))))
  {
    WriteReadsBackFirst(db, postId, SubmissionOf(form));
    WriteReadsBackLast(db, postId, SubmissionOf(form));
    IntMetaRoundTrip(FormInt(form, "stream_category"));
    IntMetaRoundTrip(FormInt(form, "stream_amount"));
    UnserializeSerializeInts(FormTags(form));
  }

  /** Saving touches no other post's meta and nothing else in the store. */
  lemma SavedTouchesOnlyThePost(db: Db, postId: nat, form: Form, other: nat, key: string)
    requires other != postId
    ensures var d := Saved(db, postId, form);
      d.posts == db.posts && d.terms == db.terms && MetaValue(d, other, key) == MetaValue(db, other, key)
  {
  }

  /** The query parameters: the keywords as `q`, and the language. */
  function NewsParams(box: StreamSettings): (params: map<string, string>)
    ensures params.Keys == {"q", "language"}
    ensures params["q"] == box.keywords && params["language"] == box.language
  {
    map["q" := box.keywords, "language" := box.language]
  }

  /** `$article[$key]`, "" when the field is missing. */
  function Text(f: Fields, key: string): string
  {
    if key in f then f[key] else ""
  }

  /** `$article[$key]` as the publisher's link, date or image field: null when missing. */
  function Optional(f: Fields, key: string): (r: Field)
    ensures key !in f <==> r == Absent
  {
    if key in f then Str(f[key]) else Absent
  }

  /** A NewsAPI article as the publisher reads it, by the publisher's own key names. */
  function FieldsArticle(f: Fields): (a: Article)
    ensures a.title == Text(f, "title") && a.content == Text(f, "content")
    ensures a.fullContent == Text(f, "fullContent") && a.description == Text(f, "description")
    ensures "link" !in f ==> IsEmpty(a.link)
  {
    Article(Text(f, "title"), Text(f, "description"), Text(f, "content"), Text(f, "fullContent"),
            Optional(f, "link"), Optional(f, "pubDate"), Optional(f, "imageUrl"))
  }

  /**
   * NewsAPI names an article's address `url`, not `link`: such an article has
   * no key to be found by, so it is never skipped as a duplicate.
   */
  lemma UnlinkedNeverSkipped(pr: Progress, f: Fields, cfg: Config, wp: Wp)
    requires NoEmptyLinkKeys(pr.db) && "link" !in f
    ensures Step(pr, FieldsArticle(f), cfg, wp).db.insertCalls == pr.db.insertCalls + 1
  {
    EmptyLinkNeverSkipped(pr, FieldsArticle(f), cfg, wp);
  }

  function StreamConfig(box: StreamSettings): (cfg: Config)
    ensures cfg.postType == box.postType && cfg.postStatus == box.postStatus
    ensures cfg.categoryId == box.categoryId && cfg.tagIds == box.tags
  {
    Config(box.categoryId, box.tags, box.postStatus, box.postType)
  }

  /**
   * `fetchAndProcessNews` on a store in state `db`: a failed request records
   * its error and stops; otherwise the first `amount` articles (all when
   * `amount` <= 0) are published.
   */
  function NewsOutcome(db: Db, api: ApiServices, postId: nat, debug: bool, trace: string,
                       wp: Wp): (o: Outcome)
    ensures var box := StoredSettings(db, postId);
      o.report.Failure? <==> api.get(NewsParams(box)).ApiFailure?
    ensures o.report.Failure? ==> o.db == db
  {
    var box := StoredSettings(db, postId);
    match NewsResult(api, NewsParams(box), true)
    case Err(msg) => Outcome(ErrorRecord(msg, debug, trace), db)
    case Ok(articles) => PublishOutcome(db, Map(Truncated(articles, box.amount), FieldsArticle), StreamConfig(box), wp)
  }

  /** With a positive `amount`, at most `amount` posts are created. */
  lemma AmountBoundsPosts(db: Db, api: ApiServices, postId: nat, debug: bool, trace: string, wp: Wp)
    requires IntCast(MetaValue(db, postId, "_stream_amount")) > 0
    requires NewsOutcome(db, api, postId, debug, trace, wp).report.Results?
    ensures NewsOutcome(db, api, postId, debug, trace, wp).report.result.count
            <= IntCast(MetaValue(db, postId, "_stream_amount"))
  {
    var box := StoredSettings(db, postId);
    var articles := NewsResult(api, NewsParams(box), true).value;
    PublishedAtMost(db, Map(Truncated(articles, box.amount), FieldsArticle), StreamConfig(box), wp);
  }

  /** `fetchAndProcessNews`. */
  method FetchAndProcessNews(store: Store, api: ApiServices, postId: nat, debug: bool,
                             trace: string) returns (report: Report)
    modifies store
    ensures Outcome(report, store.Snapshot())
            == NewsOutcome(old(store.Snapshot()), api, postId, debug, trace, store.wp)
  {
    var box := StreamSettings(store.GetPostMeta(postId, "_stream_language"), store.GetPostMeta(postId, "_stream_keywords"),
                              IntCast(store.GetPostMeta(postId, "_stream_category")),
                              StoredTags(store.GetPostMeta(postId, "_stream_tags")),
                              IntCast(store.GetPostMeta(postId, "_stream_amount")),
                              store.GetPostMeta(postId, "_stream_post_status"),
                              store.GetPostMeta(postId, "_stream_post_type"));
    var fetched := FetchNews(api, NewsParams(box), true);
    if fetched.Err? {
      return ErrorRecord(fetched.message, debug, trace);
    }
    var articles := fetched.value;
    if box.amount > 0 && |articles| > box.amount {
      articles := articles[..box.amount];
    }
    var result := PublishNews(store, Map(articles, FieldsArticle), box.categoryId, box.tags, box.postStatus,
                              box.postType);
    report := Results(result);
  }

  /**
   * `saveMetaBox`: without a valid nonce nothing is written; otherwise the
   * settings are saved and, when the fetch button was pressed, the fetch runs
   * on the saved settings.
   */
  method SaveMetaBox(store: Store, api: ApiServices, postId: nat, form: Form, debug: bool,
                     trace: string) returns (report: Option<Report>)
    modifies store
    ensures !form.nonceValid ==> report.None? && store.Snapshot() == old(store.Snapshot())
    ensures form.nonceValid && "fetch_news" !in form.fields ==>
      report.None? && store.Snapshot() == Saved(old(store.Snapshot()), postId, form)
    ensures form.nonceValid && "fetch_news" in form.fields ==>
      report.Some? && Outcome(report.value, store.Snapshot())
        == NewsOutcome(Saved(old(store.Snapshot()), postId, form), api, postId, debug, trace, store.wp)
  {
    if !form.nonceValid {
      return None;
    }
    var s := form.sanitize;
    store.UpdatePostMeta(postId, "_stream_language", s(FormText(form, "stream_language", "")));
    store.UpdatePostArrayMeta(postId, "_stream_data_type", DataTypeMeta(form));
    store.UpdatePostMeta(postId, "_stream_keywords", s(FormText(form, "stream_keywords", "")));
    store.UpdatePostMeta(postId, "_stream_category", IntToString(FormInt(form, "stream_category")));
    store.UpdatePostArrayMeta(postId, "_stream_tags", SerializeInts(FormTags(form)));
    store.UpdatePostMeta(postId, "_stream_amount", IntToString(FormInt(form, "stream_amount")));
    store.UpdatePostMeta(postId, "_stream_post_status", s(FormText(form, "stream_post_status", "draft")));
    store.UpdatePostMeta(postId, "_stream_post_type", s(FormText(form, "stream_post_type", "post")));
    if "fetch_news" in form.fields {
      var r := FetchAndProcessNews(store, api, postId, debug, trace);
      return Some(r);
    }
    return None;
  }
}
