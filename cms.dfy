/**
 * The part of the WordPress content store the plugin touches: posts, their
 * meta fields and their tags. Post ids come from an auto-increment counter;
 * whether an insert succeeds is decided by an oracle indexed by the number
 * of inserts attempted so far.
 */
module Cms {
  import opened Php
  import JsonEncode

  /** A stored post; `category` holds the category ids given at insertion. */
  datatype Post = Post(id: nat, title: string, content: string, status: string,
                       postType: string, category: seq<int>)

  /** Every row the plugin can observe, plus the id counter and the insert-call counter. */
  datatype Db = Db(posts: seq<Post>, meta: map<(nat, string), string>, terms: map<nat, seq<int>>,
                   nextId: nat, insertCalls: nat)

  /**
   * The WordPress functions the plugin calls and whose outcome it cannot see:
   * whether the n-th `wp_insert_post` succeeds, `sanitize_text_field`, and
   * `wp_kses_post(wp_strip_all_tags(...))`.
   */
  datatype Wp = Wp(accepts: nat -> bool, sanitizeTitle: string -> string,
                   sanitizeContent: string -> string)

  /** Ids handed out so far lie below the counter, and so do the ids carrying meta. */
  predicate Fresh(db: Db)
  {
    0 < db.nextId
    && (forall p :: p in db.posts ==> 0 < p.id < db.nextId)
    && (forall k :: k in db.meta ==> k.0 < db.nextId)
    && (forall id :: id in db.terms ==> id < db.nextId)
  }

  /** `absint`, which the meta functions apply to the post id. */
  function AbsInt(n: int): (a: nat)
    ensures a == 0 <==> n == 0
    ensures n >= 0 ==> a == n
  {
    if n < 0 then -n else n
  }

  datatype Inserted = Inserted(db: Db, id: nat)

  /**
   * `wp_insert_post`: on success a post with the next id is appended and
   * that id returned; on failure nothing is stored and 0 is returned. Either
   * way the call is counted.
   */
  function Insert(db: Db, wp: Wp, title: string, content: string, status: string,
                  postType: string, category: seq<int>): (r: Inserted)
    ensures r.db.insertCalls == db.insertCalls + 1
    ensures r.db.meta == db.meta && r.db.terms == db.terms
    ensures r.id == 0 ==> r.db.posts == db.posts && r.db.nextId == db.nextId
    ensures r.id != 0 ==> (r.id == db.nextId && r.db.nextId == db.nextId + 1
      && r.db.posts == db.posts + [Post(r.id, title, content, status, postType, category)])
    ensures Fresh(db) ==> Fresh(r.db)
  {
    if wp.accepts(db.insertCalls) && db.nextId > 0 then
      Inserted(db.(posts := db.posts + [Post(db.nextId, title, content, status, postType, category)],
                   nextId := db.nextId + 1, insertCalls := db.insertCalls + 1), db.nextId)
    else
      Inserted(db.(insertCalls := db.insertCalls + 1), 0)
  }

  /**
   * `add_post_meta($id, $key, $value, true)`: the value is unslashed, and it
   * is stored only when the post id is not 0 and the key is not yet set.
   */
  function AddMeta(db: Db, id: int, key: string, value: string): (r: Db)
    ensures r.posts == db.posts && r.terms == db.terms && r.nextId == db.nextId
    ensures r.insertCalls == db.insertCalls
    ensures forall k :: k in db.meta ==> k in r.meta && r.meta[k] == db.meta[k]
    ensures id != 0 ==> (AbsInt(id), key) in r.meta
    ensures id != 0 && (AbsInt(id), key) !in db.meta ==>
      r.meta[(AbsInt(id), key)] == JsonEncode.StripSlashes(value)
    ensures forall k :: k in r.meta && k != (AbsInt(id), key) ==> k in db.meta
  {
    var k := (AbsInt(id), key);
    if id == 0 || k in db.meta then db else db.(meta := db.meta[k := JsonEncode.StripSlashes(value)])
  }

  /** `update_post_meta($id, $key, $value)`: the unslashed value replaces any earlier one; id 0 is ignored. */
  function UpdateMeta(db: Db, id: int, key: string, value: string): (r: Db)
    ensures r.posts == db.posts && r.terms == db.terms && r.nextId == db.nextId
    ensures r.insertCalls == db.insertCalls
    ensures id != 0 ==> (AbsInt(id), key) in r.meta && r.meta[(AbsInt(id), key)] == JsonEncode.StripSlashes(value)
    ensures forall k :: k != (AbsInt(id), key) ==> (k in r.meta <==> k in db.meta)
    ensures forall k :: k in db.meta && k != (AbsInt(id), key) ==> r.meta[k] == db.meta[k]
    ensures id == 0 ==> r == db
  {
    if id == 0 then db else db.(meta := db.meta[(AbsInt(id), key) := JsonEncode.StripSlashes(value)])
  }

  /**
   * `update_post_meta($id, $key, $array)`: WordPress unslashes the array's
   * elements and stores the array serialized; `stored` is that serialized
   * text, which replaces any earlier value; id 0 is ignored.
   */
  function UpdateArrayMeta(db: Db, id: int, key: string, stored: string): (r: Db)
    ensures r.posts == db.posts && r.terms == db.terms && r.nextId == db.nextId
    ensures r.insertCalls == db.insertCalls
    ensures id != 0 ==> (AbsInt(id), key) in r.meta && r.meta[(AbsInt(id), key)] == stored
    ensures forall k :: k != (AbsInt(id), key) ==> (k in r.meta <==> k in db.meta)
    ensures forall k :: k in db.meta && k != (AbsInt(id), key) ==> r.meta[k] == db.meta[k]
    ensures id == 0 ==> r == db
  {
    if id == 0 then db else db.(meta := db.meta[(AbsInt(id), key) := stored])
  }

  /** `wp_set_post_terms($id, $tags, 'post_tag')`. */
  function SetTerms(db: Db, id: nat, tags: seq<int>): (r: Db)
    ensures r.posts == db.posts && r.meta == db.meta && r.nextId == db.nextId
    ensures r.insertCalls == db.insertCalls
    ensures id in r.terms && r.terms[id] == tags
    ensures forall other :: other != id ==> (other in r.terms <==> other in db.terms)
  {
    db.(terms := db.terms[id := tags])
  }

  /** `get_post_meta($id, $key, true)`: the stored value, or "" when there is none. */
  function MetaValue(db: Db, id: nat, key: string): (v: string)
    ensures (id, key) !in db.meta ==> v == ""
  {
    if (id, key) in db.meta then db.meta[(id, key)] else ""
  }

  /** Some post of the type carries `source_link` equal to `value`. */
  predicate LinkExists(db: Db, postType: string, value: string)
  {
    exists p :: p in db.posts && p.postType == postType
      && (p.id, "source_link") in db.meta && db.meta[(p.id, "source_link")] == value
  }

  // ---------------------------------------------------------------------
  // Meta queries.
  // ---------------------------------------------------------------------

  /** A `meta_query` clause of the forms the plugin builds. */
  datatype MetaClause =
    | MetaEquals(key: string, value: string)
    | MetaNotExists(key: string)
    | MetaEither(left: MetaClause, right: MetaClause)

  predicate Holds(c: MetaClause, meta: map<(nat, string), string>, id: nat)
  {
    match c
    case MetaEquals(k, v) => (id, k) in meta && meta[(id, k)] == v
    case MetaNotExists(k) => (id, k) !in meta
    case MetaEither(l, r) => Holds(l, meta, id) || Holds(r, meta, id)
  }

  /** The clauses of a query are joined by AND. */
  predicate AllHold(clauses: seq<MetaClause>, meta: map<(nat, string), string>, id: nat)
  {
    forall i :: 0 <= i < |clauses| ==> Holds(clauses[i], meta, id)
  }

  /** The store as a mutable object: each method performs one WordPress call. */
  class Store {
    var posts: seq<Post>
    var meta: map<(nat, string), string>
    var terms: map<nat, seq<int>>
    var nextId: nat
    var insertCalls: nat
    const wp: Wp

    function Snapshot(): Db
      reads this
    {
      Db(posts, meta, terms, nextId, insertCalls)
    }

    constructor(db: Db, wp: Wp)
      ensures Snapshot() == db && this.wp == wp
    {
      posts, meta, terms := db.posts, db.meta, db.terms;
      nextId, insertCalls := db.nextId, db.insertCalls;
      this.wp := wp;
    }

    method InsertPost(title: string, content: string, status: string, postType: string,
                      category: seq<int>) returns (id: nat)
      modifies this
      ensures Inserted(Snapshot(), id) == Insert(old(Snapshot()), wp, title, content, status, postType, category)
    {
      insertCalls := insertCalls + 1;
      if wp.accepts(insertCalls - 1) && nextId > 0 {
        id := nextId;
        posts := posts + [Post(id, title, content, status, postType, category)];
        nextId := nextId + 1;
      } else {
        id := 0;
      }
    }

    method AddPostMeta(id: int, key: string, value: string)
      modifies this
      ensures Snapshot() == AddMeta(old(Snapshot()), id, key, value)
    {
      var k := (AbsInt(id), key);
      if id != 0 && k !in meta {
        meta := meta[k := JsonEncode.StripSlashes(value)];
      }
    }

    method UpdatePostMeta(id: int, key: string, value: string)
      modifies this
      ensures Snapshot() == UpdateMeta(old(Snapshot()), id, key, value)
    {
      if id != 0 {
        meta := meta[(AbsInt(id), key) := JsonEncode.StripSlashes(value)];
      }
    }

    method UpdatePostArrayMeta(id: int, key: string, stored: string)
      modifies this
      ensures Snapshot() == UpdateArrayMeta(old(Snapshot()), id, key, stored)
    {
      if id != 0 {
        meta := meta[(AbsInt(id), key) := stored];
      }
    }

    method SetPostTerms(id: nat, tags: seq<int>)
      modifies this
      ensures Snapshot() == SetTerms(old(Snapshot()), id, tags)
    {
      terms := terms[id := tags];
    }

    function GetPostMeta(id: nat, key: string): (v: string)
      reads this
      ensures v == MetaValue(Snapshot(), id, key)
    {
      if (id, key) in meta then meta[(id, key)] else ""
    }

    /** The `WP_Query` of `postExists`: one post of the type whose `source_link` equals the value. */
    predicate HasLink(postType: string, value: string)
      reads this
    {
      LinkExists(Snapshot(), postType, value)
    }
  }

  // ---------------------------------------------------------------------
  // Properties of the store operations.
  // ---------------------------------------------------------------------

  /** A value set by `update_post_meta` reads back unslashed; other fields read as before. */
  lemma ReadAfterUpdate(db: Db, id: int, key: string, value: string, other: nat, otherKey: string)
    requires id != 0
    ensures MetaValue(UpdateMeta(db, id, key, value), other, otherKey)
      == if (other, otherKey) == (AbsInt(id), key) then JsonEncode.StripSlashes(value)
         else MetaValue(db, other, otherKey)
  {
  }

  /** `add_post_meta` with the unique flag never overwrites. */
  lemma AddMetaKeepsFirst(db: Db, id: int, key: string, v1: string, v2: string)
    requires id != 0
    ensures MetaValue(AddMeta(AddMeta(db, id, key, v1), id, key, v2), AbsInt(id), key)
      == MetaValue(AddMeta(db, id, key, v1), AbsInt(id), key)
  {
  }

  /** Once a link is recorded it stays recorded: later meta writes and inserts do not remove it. */
  lemma LinkExistsKept(db: Db, wp: Wp, postType: string, value: string, title: string,
                       content: string, status: string, t: string, category: seq<int>,
                       id: int, key: string, v: string)
    requires LinkExists(db, postType, value)
    ensures LinkExists(Insert(db, wp, title, content, status, t, category).db, postType, value)
    ensures LinkExists(AddMeta(db, id, key, v), postType, value)
  {
    var p :| p in db.posts && p.postType == postType
      && (p.id, "source_link") in db.meta && db.meta[(p.id, "source_link")] == value;
    assert p in Insert(db, wp, title, content, status, t, category).db.posts;
    assert p in AddMeta(db, id, key, v).posts;
  }
}
