/**
 * The "Marked Posts" admin list: the bulk action that marks posts read or
 * unread, the query built from the filter form (read status, category,
 * dates, paging) and the fallbacks of the status, date-read and category
 * columns.
 */
module MarkedPostsTable {
  import opened Php
  import opened JsonEncode
  import opened Cms
  import Publisher

  // ---------------------------------------------------------------------
  // Read status of a post.
  // ---------------------------------------------------------------------

  /** The stored `read_status` of a post, None when the meta row does not exist. */
  function ReadStatus(meta: map<(nat, string), string>, id: nat): (s: Option<string>)
    ensures s.None? <==> (id, "read_status") !in meta
    ensures s.Some? ==> s.value == meta[(id, "read_status")]
  {
    if (id, "read_status") in meta then Some(meta[(id, "read_status")]) else None
  }

  /** `update_post_meta` of `read_status` and then of `read_timestamp` on one post. */
  function MarkOne(db: Db, id: int, status: string, now: string): Db
  {
    UpdateMeta(UpdateMeta(db, id, "read_status", status), id, "read_timestamp", now)
  }

  /** The read status each bulk action writes; any other action writes nothing. */
  function ActionStatus(action: string): (s: Option<string>)
    ensures s.Some? <==> action == "mark_read" || action == "mark_unread"
  {
    if action == "mark_read" then Some("read") else if action == "mark_unread" then Some("unread") else None
  }

  /** The `foreach` over the ids, each marked with `status` and the time `now`. */
  function MarkAll(db: Db, ids: seq<int>, status: string, now: string): Db
  {
    if ids == [] then db else MarkOne(MarkAll(db, ids[..|ids| - 1], status, now), ids[|ids| - 1], status, now)
  }

  /** The submitted bulk form: whether the nonce verified, the `post_ids[]` values, the action. */
  datatype BulkRequest = BulkRequest(nonceValid: bool, postIds: seq<string>, action: string)

  /**
   * The store after `process_bulk_action`: nothing changes without a valid
   * nonce or without ids; otherwise every id, read with `intval`, is marked.
   */
  function BulkResult(db: Db, req: BulkRequest, now: string): Db
  {
    if !req.nonceValid || req.postIds == [] then db
    else match ActionStatus(req.action)
      case None => db
      case Some(status) => MarkAll(db, Map(req.postIds, IntCast), status, now)
  }

  /** `process_bulk_action`; `now` is `current_time('mysql')`. */
  method ProcessBulkAction(store: Store, req: BulkRequest, now: string)
    modifies store
    ensures store.Snapshot() == BulkResult(old(store.Snapshot()), req, now)
  {
    if !req.nonceValid {
      return;
    }
    if req.postIds == [] {
      return;
    }
    var ids := Map(req.postIds, IntCast);
    var i := 0;
    while i < |ids|
      invariant 0 <= i <= |ids|
      invariant store.Snapshot() == match ActionStatus(req.action)
        case None => old(store.Snapshot())
        case Some(status) => MarkAll(old(store.Snapshot()), ids[..i], status, now)
    {
      assert ids[..i + 1][..i] == ids[..i];
      if req.action == "mark_read" {
        store.UpdatePostMeta(ids[i], "read_status", "read");
        store.UpdatePostMeta(ids[i], "read_timestamp", now);
      } else if req.action == "mark_unread" {
        store.UpdatePostMeta(ids[i], "read_status", "unread");
        store.UpdatePostMeta(ids[i], "read_timestamp", now);
      }
      i := i + 1;
    }
    assert ids[..i] == ids;
  }

  /** Post `id` is one of those the ids name (`absint` of a non-zero id). */
  predicate Targets(ids: seq<int>, id: nat)
  {
    id != 0 && exists j :: 0 <= j < |ids| && AbsInt(ids[j]) == id
  }

  /** Whether `k` is one of the two meta rows a mark writes on a targeted post. */
  predicate Marked(ids: seq<int>, k: (nat, string))
  {
    Targets(ids, k.0) && (k.1 == "read_status" || k.1 == "read_timestamp")
  }

  /**
   * Marking sets `read_status` to the status and `read_timestamp` to the
   * time on every targeted post, and leaves every other meta row, the posts
   * and the tags as they were.
   */
  lemma {:induction false} MarkAllEffect(db: Db, ids: seq<int>, status: string, now: string)
    ensures var r := MarkAll(db, ids, status, now);
      r.posts == db.posts && r.terms == db.terms && r.nextId == db.nextId && r.insertCalls == db.insertCalls
      && (forall id: nat :: Targets(ids, id) ==>
            ReadStatus(r.meta, id) == Some(StripSlashes(status))
            && (id, "read_timestamp") in r.meta && r.meta[(id, "read_timestamp")] == StripSlashes(now))
      && (forall k :: !Marked(ids, k) ==> (k in r.meta <==> k in db.meta))
      && (forall k :: !Marked(ids, k) && k in db.meta ==> r.meta[k] == db.meta[k])
    decreases |ids|
  {
    if ids != [] {
      var init := ids[..|ids| - 1];
      var last := ids[|ids| - 1];
      MarkAllEffect(db, init, status, now);
      forall id | Targets(ids, id)
        ensures Targets(init, id) || (last != 0 && AbsInt(last) == id)
      {
        var j :| 0 <= j < |ids| && AbsInt(ids[j]) == id;
        if j < |ids| - 1 {
          assert AbsInt(init[j]) == id;
        }
      }
      forall k | !Marked(ids, k)
        ensures !Marked(init, k) && (last == 0 || k != (AbsInt(last), "read_status"))
        ensures last == 0 || k != (AbsInt(last), "read_timestamp")
      {
        if Targets(init, k.0) {
          var j :| 0 <= j < |init| && AbsInt(init[j]) == k.0;
          assert AbsInt(ids[j]) == k.0;
        }
        if last != 0 {
          assert AbsInt(ids[|ids| - 1]) == AbsInt(last);
        }
      }
    }
  }

  /** The meta row `k` after marking: the written value on a marked row, the old row otherwise. */
  function RowAfter(db: Db, ids: seq<int>, status: string, now: string, k: (nat, string)): Option<string>
  {
    if Marked(ids, k) then Some(StripSlashes(if k.1 == "read_status" then status else now))
    else if k in db.meta then Some(db.meta[k]) else None
  }

  lemma MarkAllAt(db: Db, ids: seq<int>, status: string, now: string, k: (nat, string))
    ensures var r := MarkAll(db, ids, status, now);
      r == db.(meta := r.meta)
      && (k in r.meta <==> RowAfter(db, ids, status, now, k).Some?)
      && (k in r.meta ==> r.meta[k] == RowAfter(db, ids, status, now, k).value)
  {
    MarkAllEffect(db, ids, status, now);
    if Marked(ids, k) && k.1 == "read_status" {
      assert ReadStatus(MarkAll(db, ids, status, now).meta, k.0) == Some(StripSlashes(status));
    }
  }

  /** Marking the same posts twice leaves the store as marking them once. */
  lemma MarkAllIdempotent(db: Db, ids: seq<int>, status: string, now: string)
    ensures MarkAll(MarkAll(db, ids, status, now), ids, status, now) == MarkAll(db, ids, status, now)
  {
    var once := MarkAll(db, ids, status, now);
    var twice := MarkAll(once, ids, status, now);
    forall k | k in twice.meta || k in once.meta
      ensures k in once.meta && k in twice.meta && twice.meta[k] == once.meta[k]
    {
      MarkAllAt(db, ids, status, now, k);
      MarkAllAt(once, ids, status, now, k);
    }
    assert twice.meta == once.meta;
    MarkAllAt(once, ids, status, now, (0, ""));
  }

  /** A bulk action applied twice leaves the store as applying it once. */
  lemma BulkIdempotent(db: Db, req: BulkRequest, now: string)
    ensures BulkResult(BulkResult(db, req, now), req, now) == BulkResult(db, req, now)
  {
    if req.nonceValid && req.postIds != [] && ActionStatus(req.action).Some? {
      MarkAllIdempotent(db, Map(req.postIds, IntCast), ActionStatus(req.action).value, now);
    }
  }

  /** A bulk action writes only `read_status` and `read_timestamp`, and only when nonce, ids and action are valid. */
  lemma BulkTouchesOnlyReadRows(db: Db, req: BulkRequest, now: string, k: (nat, string))
    requires k.1 != "read_status" && k.1 != "read_timestamp"
    ensures var r := BulkResult(db, req, now);
      r.posts == db.posts && r.terms == db.terms
      && (k in r.meta <==> k in db.meta) && (k in db.meta ==> r.meta[k] == db.meta[k])
    ensures !req.nonceValid || req.postIds == [] || ActionStatus(req.action).None? ==> BulkResult(db, req, now) == db
  {
    if req.nonceValid && req.postIds != [] && ActionStatus(req.action).Some? {
      MarkAllEffect(db, Map(req.postIds, IntCast), ActionStatus(req.action).value, now);
    }
  }

  lemma MarkAllMarks(db: Db, ids: seq<int>, status: string, now: string, j: int)
    requires 0 <= j < |ids| && ids[j] != 0 && '\\' !in status
    ensures var r := MarkAll(db, ids, status, now);
      ReadStatus(r.meta, AbsInt(ids[j])) == Some(status)
      && MetaValue(r, AbsInt(ids[j]), "read_timestamp") == StripSlashes(now)
  {
    MarkAllAt(db, ids, status, now, (AbsInt(ids[j]), "read_status"));
    MarkAllAt(db, ids, status, now, (AbsInt(ids[j]), "read_timestamp"));
    assert Targets(ids, AbsInt(ids[j]));
    StripSlashesPlain(status);
  }

  /** `mark_read` and `mark_unread` leave each submitted post with the matching status and the time. */
  lemma BulkMarks(db: Db, req: BulkRequest, now: string, j: int)
    requires req.nonceValid && 0 <= j < |req.postIds| && IntCast(req.postIds[j]) != 0
    requires req.action == "mark_read" || req.action == "mark_unread"
    ensures var r := BulkResult(db, req, now);
      var id := AbsInt(IntCast(req.postIds[j]));
      ReadStatus(r.meta, id) == Some(if req.action == "mark_read" then "read" else "unread")
      && MetaValue(r, id, "read_timestamp") == StripSlashes(now)
  {
    var ids := Map(req.postIds, IntCast);
    var status := if req.action == "mark_read" then "read" else "unread";
    assert ActionStatus(req.action) == Some(status);
    assert ids[j] == IntCast(req.postIds[j]);
    MarkAllMarks(db, ids, status, now, j);
  }

  // ---------------------------------------------------------------------
  // The status filter.
  // ---------------------------------------------------------------------

  /** The `meta_query` of the status filter as written: `unread` only finds an absent or empty status. */
  function StatusClausesAsWritten(status: string): seq<MetaClause>
  {
    if status == "read" then [MetaEquals("read_status", "read")]
    else if status == "unread" then [MetaEither(MetaNotExists("read_status"), MetaEquals("read_status", ""))]
    else []
  }

  /** What the filter as written selects: `read` the read posts, `unread` an absent or empty status, else all. */
  lemma AsWrittenSelects(meta: map<(nat, string), string>, id: nat, status: string)
    ensures status == "read" ==>
      (AllHold(StatusClausesAsWritten(status), meta, id) <==> ReadStatus(meta, id) == Some("read"))
    ensures status == "unread" ==>
      (AllHold(StatusClausesAsWritten(status), meta, id) <==> ReadStatus(meta, id) in {None, Some("")})
    ensures status != "read" && status != "unread" ==> AllHold(StatusClausesAsWritten(status), meta, id)
  {
    var cs := StatusClausesAsWritten(status);
    if status == "read" || status == "unread" {
      assert AllHold(cs, meta, id) <==> Holds(cs[0], meta, id);
    }
  }

  /**
   * The publisher stores `read_status = unread` on every post it creates, so
   * the `unread` filter as written misses all of them, and they match the
   * `read` filter neither: a new post is listed only under "all".
   */
  lemma AsWrittenMissesPublishedPosts(db: Db, p: Post, cfg: Publisher.Config)
    requires Publisher.PublishedPost(db, p, cfg)
    ensures !AllHold(StatusClausesAsWritten("unread"), db.meta, p.id)
    ensures !AllHold(StatusClausesAsWritten("read"), db.meta, p.id)
  {
    AsWrittenSelects(db.meta, p.id, "unread");
    AsWrittenSelects(db.meta, p.id, "read");
  }

  /** The same for a post that `mark_unread` has just marked. */
  lemma AsWrittenMissesMarkedUnread(db: Db, req: BulkRequest, now: string, j: int)
    requires req.nonceValid && 0 <= j < |req.postIds| && IntCast(req.postIds[j]) != 0
    requires req.action == "mark_unread"
    ensures !AllHold(StatusClausesAsWritten("unread"), BulkResult(db, req, now).meta,
                     AbsInt(IntCast(req.postIds[j])))
  {
    var id := AbsInt(IntCast(req.postIds[j]));
    BulkMarks(db, req, now, j);
    AsWrittenSelects(BulkResult(db, req, now).meta, id, "unread");
  }

  /** The status filter as intended: `unread` also finds the literal `unread` the plugin writes. */
  function StatusClauses(status: string): seq<MetaClause>
  {
    if status == "read" then [MetaEquals("read_status", "read")]
    else if status == "unread" then
      [MetaEither(MetaEither(MetaNotExists("read_status"), MetaEquals("read_status", "")),
                  MetaEquals("read_status", "unread"))]
    else []
  }

  /** What the corrected filter selects: `unread` finds an absent, empty or `unread` status. */
  lemma StatusClausesSelect(meta: map<(nat, string), string>, id: nat, status: string)
    ensures status == "read" ==>
      (AllHold(StatusClauses(status), meta, id) <==> ReadStatus(meta, id) == Some("read"))
    ensures status == "unread" ==>
      (AllHold(StatusClauses(status), meta, id) <==> ReadStatus(meta, id) in {None, Some(""), Some("unread")})
    ensures status != "read" && status != "unread" ==> AllHold(StatusClauses(status), meta, id)
  {
    var cs := StatusClauses(status);
    if status == "read" || status == "unread" {
      assert AllHold(cs, meta, id) <==> Holds(cs[0], meta, id);
    }
    if status == "unread" {
      var either := MetaEither(MetaNotExists("read_status"), MetaEquals("read_status", ""));
      assert cs[0] == MetaEither(either, MetaEquals("read_status", "unread"));
      assert Holds(either, meta, id) <==> ReadStatus(meta, id) in {None, Some("")};
    }
  }

  /**
   * For every status the plugin writes (none, "", `read`, `unread`), a post
   * is listed under exactly one of the `read` and `unread` filters.
   */
  lemma StatusFiltersPartition(meta: map<(nat, string), string>, id: nat)
    requires ReadStatus(meta, id) in {None, Some(""), Some("read"), Some("unread")}
    ensures AllHold(StatusClauses("read"), meta, id) != AllHold(StatusClauses("unread"), meta, id)
  {
    StatusClausesSelect(meta, id, "read");
    StatusClausesSelect(meta, id, "unread");
  }

  /** A newly published post is listed under `unread`. */
  lemma PublishedPostsListedUnread(db: Db, p: Post, cfg: Publisher.Config)
    requires Publisher.PublishedPost(db, p, cfg)
    ensures AllHold(StatusClauses("unread"), db.meta, p.id)
    ensures !AllHold(StatusClauses("read"), db.meta, p.id)
  {
    StatusClausesSelect(db.meta, p.id, "unread");
    StatusClausesSelect(db.meta, p.id, "read");
  }

  /** After a bulk mark, a submitted post is listed under the filter named by the action. */
  lemma BulkMarkMovesPost(db: Db, req: BulkRequest, now: string, j: int)
    requires req.nonceValid && 0 <= j < |req.postIds| && IntCast(req.postIds[j]) != 0
    requires req.action == "mark_read" || req.action == "mark_unread"
    ensures var listed := if req.action == "mark_read" then "read" else "unread";
      var other := if req.action == "mark_read" then "unread" else "read";
      var meta := BulkResult(db, req, now).meta;
      var id := AbsInt(IntCast(req.postIds[j]));
      AllHold(StatusClauses(listed), meta, id) && !AllHold(StatusClauses(other), meta, id)
  {
    var id := AbsInt(IntCast(req.postIds[j]));
    BulkMarks(db, req, now, j);
    StatusFiltersPartition(BulkResult(db, req, now).meta, id);
    StatusClausesSelect(BulkResult(db, req, now).meta, id, "read");
  }

  // ---------------------------------------------------------------------
  // The list query.
  // ---------------------------------------------------------------------

  /** `$_POST[$key] ?? $default`. */
  function Posted(form: map<string, string>, key: string, default: string): (v: string)
    ensures key !in form ==> v == default
  {
    if key in form then form[key] else default
  }

  /** `max(1, intval($_POST['per_page'] ?? 20))`. */
  function PerPage(form: map<string, string>): (n: int)
    ensures n >= 1
    ensures "per_page" !in form ==> n == 20
    ensures "per_page" in form ==> n == if IntCast(form["per_page"]) < 1 then 1 else IntCast(form["per_page"])
  {
    var v := if "per_page" in form then IntCast(form["per_page"]) else 20;
    if v < 1 then 1 else v
  }

  /** The arguments `prepare_items` hands to `get_posts`. */
  datatype ListQuery = ListQuery(perPage: int, page: int, orderby: string, order: string,
                                 metaQuery: seq<MetaClause>, category: Option<string>,
                                 after: Option<string>, before: Option<string>)

  /** A filter value that `empty()` does not discard. */
  function Bound(form: map<string, string>, key: string): (b: Option<string>)
    ensures b.Some? <==> key in form && !Falsy(form[key])
    ensures b.Some? ==> b.value == form[key]
  {
    if key in form && !Falsy(form[key]) then Some(form[key]) else None
  }

  /** The query `prepare_items` builds from the submitted filter form for page `page`, status clauses as written. */
  function Query(form: map<string, string>, page: int): (q: ListQuery)
    ensures q.perPage >= 1 && q.page == page
    ensures q.orderby == Posted(form, "orderby", "date_created") && q.order == Posted(form, "order", "DESC")
    ensures q.metaQuery == StatusClausesAsWritten(Posted(form, "status", "all"))
    ensures q.category.Some? <==> "category" in form && !Falsy(form["category"])
    ensures q.after.Some? <==> "date_start" in form && !Falsy(form["date_start"])
    ensures q.before.Some? <==> "date_end" in form && !Falsy(form["date_end"])
  {
    ListQuery(PerPage(form), page, Posted(form, "orderby", "date_created"), Posted(form, "order", "DESC"),
              StatusClausesAsWritten(Posted(form, "status", "all")), Bound(form, "category"),
              Bound(form, "date_start"), Bound(form, "date_end"))
  }

  /** The same query with the corrected status clauses. */
  function IntendedQuery(form: map<string, string>, page: int): (q: ListQuery)
    ensures q.metaQuery == StatusClauses(Posted(form, "status", "all"))
    ensures q == Query(form, page).(metaQuery := q.metaQuery)
  {
    Query(form, page).(metaQuery := StatusClauses(Posted(form, "status", "all")))
  }

  /** Without a status, or with `all`, no post is excluded by its read status, as written or corrected. */
  lemma AllStatusesListed(form: map<string, string>, page: int, meta: map<(nat, string), string>, id: nat)
    requires "status" !in form || form["status"] == "all"
    ensures AllHold(Query(form, page).metaQuery, meta, id)
    ensures AllHold(IntendedQuery(form, page).metaQuery, meta, id)
  {
    AsWrittenSelects(meta, id, Posted(form, "status", "all"));
    StatusClausesSelect(meta, id, Posted(form, "status", "all"));
  }

  // ---------------------------------------------------------------------
  // Pagination.
  // ---------------------------------------------------------------------

  /** `ceil($total_items / $per_page)`. */
  function TotalPages(total: nat, per: int): (pages: nat)
    requires per >= 1
  {
    (total + per - 1) / per
  }

  /**
   * The ids `get_posts` returns for page `page` (from 1, as `get_pagenum`
   * gives it) of the matching posts with `posts_per_page` and `paged`.
   */
  function PageOf(matching: seq<nat>, page: int, per: int): (ids: seq<nat>)
    requires page >= 1 && per >= 1
    ensures |ids| <= per
    ensures forall i :: 0 <= i < |ids| ==> (page - 1) * per + i < |matching| && ids[i] == matching[(page - 1) * per + i]
    ensures (page - 1) * per < |matching| ==> ids != []
  {
    var start := (page - 1) * per;
    if start >= |matching| then []
    else if start + per <= |matching| then matching[start..start + per]
    else matching[start..]
  }

  /**
   * `$total_items` as written: the ids query reuses `$args`, which keep
   * `posts_per_page` and `paged`, so it counts the current page only.
   */
  function TotalItemsAsWritten(matching: seq<nat>, page: int, per: int): (total: nat)
    requires page >= 1 && per >= 1
    ensures total <= per && total <= |matching|
  {
    |PageOf(matching, page, per)|
  }

  /** As written, the table never announces more than one page. */
  lemma AsWrittenAtMostOnePage(matching: seq<nat>, page: int, per: int)
    requires page >= 1 && per >= 1
    ensures TotalPages(TotalItemsAsWritten(matching, page, per), per) <= 1
  {
    var total := TotalItemsAsWritten(matching, page, per);
    var pages := TotalPages(total, per);
    CeilDivision(total, per);
    if pages >= 2 {
      MulMono(1, pages - 1, per);
    }
  }

  /** More matching posts than fit on one page: page 2 holds posts, yet only one page is announced. */
  lemma AsWrittenHidesSecondPage(matching: seq<nat>, per: int)
    requires per >= 1 && |matching| > per
    ensures PageOf(matching, 2, per) != []
    ensures TotalPages(TotalItemsAsWritten(matching, 1, per), per) == 1
  {
    assert PageOf(matching, 1, per) == matching[..per];
    DivUnique(per + per - 1, per, 1, per - 1);
  }

  /** `$total_items` as intended: every matching post is counted, whatever the page. */
  function TotalItems(matching: seq<nat>): (total: nat)
    ensures total == |matching|
  {
    |matching|
  }

  /**
   * With every matching post counted, the pages announced hold every post:
   * post `i` is item `i % per` of page `i / per + 1`, a page within the
   * total; and no announced page is empty.
   */
  lemma TotalPagesCover(matching: seq<nat>, per: int)
    requires per >= 1
    ensures var pages := TotalPages(TotalItems(matching), per);
      (forall i :: 0 <= i < |matching| ==>
        i / per + 1 <= pages && PageOf(matching, i / per + 1, per)[i % per] == matching[i])
      && (forall page :: 1 <= page <= pages ==> PageOf(matching, page, per) != [])
  {
    EveryPostShown(matching, per);
    NoEmptyPage(matching, per);
  }

  lemma EveryPostShown(matching: seq<nat>, per: int)
    requires per >= 1
    ensures forall i :: 0 <= i < |matching| ==>
      i / per + 1 <= TotalPages(|matching|, per) && PageOf(matching, i / per + 1, per)[i % per] == matching[i]
  {
    forall i | 0 <= i < |matching|
      ensures i / per + 1 <= TotalPages(|matching|, per) && PageOf(matching, i / per + 1, per)[i % per] == matching[i]
    {
      PageWithin(|matching|, per, i);
      PageHolds(matching, per, i);
    }
  }

  lemma NoEmptyPage(matching: seq<nat>, per: int)
    requires per >= 1
    ensures forall page :: 1 <= page <= TotalPages(|matching|, per) ==> PageOf(matching, page, per) != []
  {
    forall page | 1 <= page <= TotalPages(|matching|, per)
      ensures PageOf(matching, page, per) != []
    {
      PageNonEmpty(|matching|, per, page);
    }
  }

  lemma PageHolds(matching: seq<nat>, per: int, i: nat)
    requires per >= 1 && i < |matching|
    ensures i % per < |PageOf(matching, i / per + 1, per)|
    ensures PageOf(matching, i / per + 1, per)[i % per] == matching[i]
  {
    var q, r := i / per, i % per;
    assert i == q * per + r && 0 <= r < per;
    var start := (q + 1 - 1) * per;
    assert start == q * per;
  }

  lemma PageWithin(total: nat, per: int, i: nat)
    requires per >= 1 && i < total
    ensures i / per + 1 <= TotalPages(total, per)
  {
    var pages := TotalPages(total, per);
    CeilDivision(total, per);
    var q := i / per;
    assert q * per <= i;
    if q >= pages {
      MulMono(pages, q, per);
    }
  }

  lemma PageNonEmpty(total: nat, per: int, page: int)
    requires per >= 1 && 1 <= page <= TotalPages(total, per)
    ensures (page - 1) * per < total
  {
    CeilDivision(total, per);
    MulMono(page - 1, TotalPages(total, per) - 1, per);
  }

  lemma MulMono(a: int, b: int, c: int)
    requires a <= b && c >= 0
    ensures a * c <= b * c
  {
    assert b * c - a * c == (b - a) * c;
  }

  lemma DivUnique(m: int, per: int, q: int, r: int)
    requires per >= 1 && 0 <= r < per && m == q * per + r
    ensures m / per == q
  {
    var q', r' := m / per, m % per;
    assert m == q' * per + r' && 0 <= r' < per;
    assert (q - q') * per == r' - r;
    if q > q' {
      MulMono(1, q - q', per);
    } else if q < q' {
      MulMono(1, q' - q, per);
    }
  }

  lemma CeilDivision(total: nat, per: int)
    requires per >= 1
    ensures var pages := (total + per - 1) / per;
      pages * per >= total && (pages == 0 || (pages - 1) * per < total) && (pages == 0 <==> total == 0)
  {
    var m := total + per - 1;
    var q := m / per;
    var r := m % per;
    assert m == q * per + r && 0 <= r < per;
    assert (q - 1) * per == q * per - per;
    if total == 0 {
      assert q == 0;
    }
  }

  // ---------------------------------------------------------------------
  // Column fallbacks.
  // ---------------------------------------------------------------------

  /** The category column: the first category's name, `Uncategorized` when there is none. */
  function CategoryLabel(names: seq<string>): (shown: string)
    ensures names == [] ==> shown == "Uncategorized"
    ensures names != [] ==> shown == names[0]
  {
    if names == [] then "Uncategorized" else names[0]
  }

  /** The status column: `Unread` for an empty status, otherwise the status with a capital first letter. */
  function StatusLabel(status: string): (shown: string)
    ensures Falsy(status) ==> shown == "Unread"
    ensures !Falsy(status) ==> |shown| == |status| && shown[1..] == status[1..]
    ensures !Falsy(status) && 'a' <= status[0] <= 'z' ==> 'A' <= shown[0] <= 'Z' && shown[0] as int + 32 == status[0] as int
    ensures !Falsy(status) && !('a' <= status[0] <= 'z') ==> shown == status
  {
    if Falsy(status) then "Unread" else UpperFirst(status)
  }

  /** The date-read column: `N/A` for an empty timestamp, otherwise the formatted date. */
  function TimestampLabel(timestamp: string, format: string -> string): (shown: string)
    ensures Falsy(timestamp) ==> shown == "N/A"
    ensures !Falsy(timestamp) ==> shown == format(timestamp)
  {
    if Falsy(timestamp) then "N/A" else format(timestamp)
  }

  /**
   * The column shows `Unread` for every post the corrected `unread` filter
   * lists, and `Read` for every post the `read` filter lists.
   */
  lemma StatusColumnAgrees(db: Db, id: nat)
    ensures AllHold(StatusClauses("unread"), db.meta, id) ==> StatusLabel(MetaValue(db, id, "read_status")) == "Unread"
    ensures AllHold(StatusClauses("read"), db.meta, id) ==> StatusLabel(MetaValue(db, id, "read_status")) == "Read"
  {
    StatusClausesSelect(db.meta, id, "unread");
    StatusClausesSelect(db.meta, id, "read");
    assert UpperFirst("unread") == "Unread";
    assert UpperFirst("read") == "Read";
  }
}
