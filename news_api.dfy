/**
 * The plugin's feed hooks: the secret-token gate on feed requests, the
 * filter that narrows the main feed query to posts (optionally only the
 * unread ones, and a chosen page size), and the hook that marks a post read
 * when a feed reader asks for it.
 */
module NewsApi {
  import opened Php
  import opened JsonEncode
  import opened Cms
  import MarkedPostsTable
  import Publisher

  /** The token a feed request must carry. */
  const SecretToken := "your_secret_token_here"

  /** The message `wp_die` shows to a feed request without the right token. */
  const DeniedMessage := "Access to this feed is restricted. Please provide the correct token."

  /** What these hooks see of a request: whether it is a feed request, and its query string. */
  datatype Request = Request(isFeed: bool, get: map<string, string>)

  /** The query-string parameter `key` is set to exactly `true`. */
  predicate Flag(get: map<string, string>, key: string)
  {
    key in get && get[key] == "true"
  }

  /**
   * `restrictFeedAccess`: None lets the request through; Some holds the
   * message of the `wp_die` that ends it.
   */
  function RestrictFeedAccess(req: Request): (denied: Option<string>)
    ensures denied.None? <==> !req.isFeed || ("token" in req.get && req.get["token"] == SecretToken)
    ensures denied.Some? ==> denied.value == DeniedMessage
  {
    if req.isFeed && ("token" !in req.get || req.get["token"] != SecretToken) then Some(DeniedMessage) else None
  }

  // ---------------------------------------------------------------------
  // The feed query.
  // ---------------------------------------------------------------------

  /** The query variables `filterFeedQuery` may set; None is a variable not set. */
  datatype QueryVars = QueryVars(postType: Option<string>, postsPerRss: Option<int>, metaQuery: seq<MetaClause>)

  /** The main-query clause `show_unread_only` adds. */
  const UnreadClause := MetaEquals("read_status", "unread")

  /** The variables after `filterFeedQuery` on a query with variables `v`. */
  function Filtered(v: QueryVars, isFeed: bool, isMainQuery: bool, get: map<string, string>): (r: QueryVars)
    ensures !isFeed || "token" !in get ==> r == v
    ensures isFeed && "token" in get ==> r.postType == Some("post")
    ensures v.metaQuery <= r.metaQuery && |r.metaQuery| <= |v.metaQuery| + 1
  {
    if !isFeed || "token" !in get then v
    else
      var typed := v.(postType := Some("post"));
      if !isMainQuery then typed
      else
        var sized := if "show_on_page" in get && IsNumeric(get["show_on_page"])
                     then typed.(postsPerRss := Some(IntCast(get["show_on_page"]))) else typed;
        if Flag(get, "show_unread_only") then sized.(metaQuery := sized.metaQuery + [UnreadClause]) else sized
  }

  /** A `WP_Query` as this filter sees it: the variables it sets, and whether it is the main feed query. */
  class FeedQuery {
    var postType: Option<string>
    var postsPerRss: Option<int>
    var metaQuery: seq<MetaClause>
    const isFeed: bool
    const isMainQuery: bool

    function Vars(): QueryVars
      reads this
    {
      QueryVars(postType, postsPerRss, metaQuery)
    }

    constructor(vars: QueryVars, isFeed: bool, isMainQuery: bool)
      ensures Vars() == vars && this.isFeed == isFeed && this.isMainQuery == isMainQuery
    {
      postType, postsPerRss, metaQuery := vars.postType, vars.postsPerRss, vars.metaQuery;
      this.isFeed, this.isMainQuery := isFeed, isMainQuery;
    }
  }

  /** `filterFeedQuery`, the `pre_get_posts` filter; it updates the query in place. */
  method FilterFeedQuery(q: FeedQuery, get: map<string, string>)
    modifies q
    ensures q.Vars() == Filtered(old(q.Vars()), q.isFeed, q.isMainQuery, get)
  {
    if !q.isFeed || "token" !in get {
      return;
    }
    q.postType := Some("post");
    if q.isFeed && q.isMainQuery {
      if "show_on_page" in get && IsNumeric(get["show_on_page"]) {
        q.postsPerRss := Some(IntCast(get["show_on_page"]));
      }
      if "show_unread_only" in get && get["show_unread_only"] == "true" {
        var clauses := q.metaQuery;
        clauses := clauses + [UnreadClause];
        q.metaQuery := clauses;
      }
    }
  }

  /** The page size changes only on the main feed query, to the integer value of a numeric `show_on_page`. */
  lemma PageSizeOnlyWhenNumeric(v: QueryVars, isFeed: bool, isMainQuery: bool, get: map<string, string>)
    ensures var r := Filtered(v, isFeed, isMainQuery, get);
      r.postsPerRss != v.postsPerRss ==>
        isFeed && isMainQuery && "token" in get && "show_on_page" in get && IsNumeric(get["show_on_page"])
    ensures isFeed && isMainQuery && "token" in get && "show_on_page" in get && IsNumeric(get["show_on_page"]) ==>
      Filtered(v, isFeed, isMainQuery, get).postsPerRss == Some(IntCast(get["show_on_page"]))
  {
  }

  /**
   * The filter only narrows: a post the filtered query selects was selected
   * before, and the two select the same posts unless `show_unread_only` is
   * `true` on the main feed query with a token.
   */
  lemma FilterOnlyNarrows(v: QueryVars, isFeed: bool, isMainQuery: bool, get: map<string, string>,
                          meta: map<(nat, string), string>, id: nat)
    ensures AllHold(Filtered(v, isFeed, isMainQuery, get).metaQuery, meta, id) ==> AllHold(v.metaQuery, meta, id)
    ensures !(isFeed && isMainQuery && "token" in get && Flag(get, "show_unread_only")) ==>
      Filtered(v, isFeed, isMainQuery, get).metaQuery == v.metaQuery
  {
    var r := Filtered(v, isFeed, isMainQuery, get);
    if AllHold(r.metaQuery, meta, id) {
      forall i | 0 <= i < |v.metaQuery|
        ensures Holds(v.metaQuery[i], meta, id)
      {
        assert r.metaQuery[i] == v.metaQuery[i];
      }
    }
  }

  /**
   * With `show_unread_only=true` the main feed serves exactly the posts it
   * served before whose `read_status` is `unread`.
   */
  lemma UnreadOnlyFeed(v: QueryVars, get: map<string, string>, meta: map<(nat, string), string>, id: nat)
    requires "token" in get && Flag(get, "show_unread_only")
    ensures AllHold(Filtered(v, true, true, get).metaQuery, meta, id)
      <==> AllHold(v.metaQuery, meta, id) && MarkedPostsTable.ReadStatus(meta, id) == Some("unread")
  {
    var r := Filtered(v, true, true, get);
    assert r.metaQuery == v.metaQuery + [UnreadClause];
    assert r.metaQuery[|v.metaQuery|] == UnreadClause;
    if AllHold(v.metaQuery, meta, id) && MarkedPostsTable.ReadStatus(meta, id) == Some("unread") {
      forall i | 0 <= i < |r.metaQuery|
        ensures Holds(r.metaQuery[i], meta, id)
      {
        if i < |v.metaQuery| {
          assert r.metaQuery[i] == v.metaQuery[i];
        }
      }
    }
    if AllHold(r.metaQuery, meta, id) {
      FilterOnlyNarrows(v, true, true, get, meta, id);
      assert Holds(r.metaQuery[|v.metaQuery|], meta, id);
    }
  }

  /** A newly published post passes the unread-only clause. */
  lemma PublishedPostIsUnread(db: Db, p: Post, cfg: Publisher.Config)
    requires Publisher.PublishedPost(db, p, cfg)
    ensures Holds(UnreadClause, db.meta, p.id)
  {
  }

  // ---------------------------------------------------------------------
  // Marking a post read from the feed.
  // ---------------------------------------------------------------------

  /** The store after `markPostAsRead` of post `postId`; `now` is `current_time('mysql')`. */
  function MarkedRead(db: Db, postId: nat, req: Request, now: string): Db
  {
    if req.isFeed && Flag(req.get, "mark_as_read") then MarkedPostsTable.MarkOne(db, postId, "read", now) else db
  }

  /** `markPostAsRead`, run by `the_post` for every post a request displays. */
  method MarkPostAsRead(store: Store, postId: nat, req: Request, now: string)
    modifies store
    ensures store.Snapshot() == MarkedRead(old(store.Snapshot()), postId, req, now)
  {
    if req.isFeed && "mark_as_read" in req.get && req.get["mark_as_read"] == "true" {
      store.UpdatePostMeta(postId, "read_status", "read");
      store.UpdatePostMeta(postId, "read_timestamp", now);
    }
  }

  /**
   * Only a feed request with `mark_as_read=true` writes, and then it sets the
   * post's `read_status` to `read` and its `read_timestamp` to the time, and
   * nothing else.
   */
  lemma MarkedReadEffect(db: Db, postId: nat, req: Request, now: string, k: (nat, string))
    requires postId != 0
    ensures !(req.isFeed && Flag(req.get, "mark_as_read")) ==> MarkedRead(db, postId, req, now) == db
    ensures req.isFeed && Flag(req.get, "mark_as_read") ==>
      var r := MarkedRead(db, postId, req, now);
      MarkedPostsTable.ReadStatus(r.meta, postId) == Some("read")
      && MetaValue(r, postId, "read_timestamp") == StripSlashes(now)
    ensures var r := MarkedRead(db, postId, req, now);
      r.posts == db.posts && r.terms == db.terms
      && (k != (postId, "read_status") && k != (postId, "read_timestamp") ==>
            (k in r.meta <==> k in db.meta) && (k in db.meta ==> r.meta[k] == db.meta[k]))
  {
    StripSlashesPlain("read");
  }

  /**
   * A post read through a feed that asks to mark it leaves the unread-only
   * feed and the admin list's `unread` filter, and is listed under `read`.
   */
  lemma ReadPostLeavesUnread(db: Db, postId: nat, req: Request, now: string)
    requires postId != 0 && req.isFeed && Flag(req.get, "mark_as_read")
    ensures var meta := MarkedRead(db, postId, req, now).meta;
      !Holds(UnreadClause, meta, postId)
      && !AllHold(MarkedPostsTable.StatusClauses("unread"), meta, postId)
      && AllHold(MarkedPostsTable.StatusClauses("read"), meta, postId)
  {
    var meta := MarkedRead(db, postId, req, now).meta;
    MarkedReadEffect(db, postId, req, now, (postId, "read_status"));
    MarkedPostsTable.StatusClausesSelect(meta, postId, "unread");
    MarkedPostsTable.StatusClausesSelect(meta, postId, "read");
  }
}
