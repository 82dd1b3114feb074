/**
 * The PubMed snowball search: each step runs an `esearch` for the current
 * term, fetches the details of every id found, and uses the ids joined by
 * commas as the next term.
 */
module PubMed {
  import opened Php
  import Cms
  import Publisher
  import RunReport

  /** The search filters, fixed for a whole search; `pt` is already joined. */
  datatype Filters = Filters(retmax: int, apiKey: string, mindate: string, maxdate: string,
                             datetype: string, pt: string, la: string)

  /** The outcome of one `esearch`: a WordPress error, unparsable XML, or the ids listed. */
  datatype EsearchReply = EsearchFailed(message: string) | EsearchUnparsable | Ids(ids: seq<string>)

  /** The fields `fetchPubMedArticleDetails` reads from an `efetch` document. */
  datatype Citation = Citation(title: string, abstractText: string, authors: seq<(string, string)>,
                               journal: string, grants: seq<string>, publicationTypes: seq<string>,
                               year: string, month: string, day: string, references: seq<string>)

  /** The `$metadata` array that is appended to the abstract as JSON. */
  datatype Metadata = Metadata(title: string, url: string, authors: seq<string>, journal: string,
                               grants: seq<string>, publicationTypes: seq<string>,
                               publicationDate: string, references: seq<string>)

  datatype PubMedArticle = PubMedArticle(title: string, content: string, link: string)

  /**
   * The services a search calls: `esearch` (given the step and the term),
   * `efetch` of one id (None when the request fails or the XML does not
   * parse), and `json_encode` with `JSON_PRETTY_PRINT` of the metadata.
   */
  datatype PubMedServices = PubMedServices(esearch: (nat, string, Filters) -> EsearchReply,
                                           efetch: string -> Option<Citation>,
                                           prettyJson: Metadata -> string)

  /** The outcome of a search and the number of `esearch` requests made. */
  datatype Search = Search(outcome: Result<seq<PubMedArticle>>, requests: nat)

  const NoApiKey := "PubMed API Key is not configured."
  const FetchErrorPrefix := "Error fetching PubMed articles: "
  const ParseFailure := "Failed to parse PubMed response."
  const LinkPrefix := "https://pubmed.ncbi.nlm.nih.gov/"

  function AuthorName(a: (string, string)): string
  {
    a.0 + " " + a.1
  }

  /** The publication date as `Year-Month-Day`, from the article date. */
  function PublicationDate(c: Citation): string
  {
    c.year + "-" + c.month + "-" + c.day
  }

  function MetadataOf(id: string, c: Citation): (m: Metadata)
    ensures m.url == LinkPrefix + id && m.title == c.title && m.publicationDate == PublicationDate(c)
    ensures |m.authors| == |c.authors| && forall i :: 0 <= i < |c.authors| ==> m.authors[i] == AuthorName(c.authors[i])
    ensures m.journal == c.journal && m.grants == c.grants && m.publicationTypes == c.publicationTypes
    ensures m.references == c.references
  {
    Metadata(c.title, LinkPrefix + id, Map(c.authors, AuthorName), c.journal, c.grants,
             c.publicationTypes, PublicationDate(c), c.references)
  }

  /**
   * `fetchPubMedArticleDetails`: the title, the abstract followed by the
   * metadata block, and the PubMed page of the id as link; None when the
   * fetch fails.
   */
  function Details(id: string, svc: PubMedServices): (r: Option<PubMedArticle>)
    ensures r.Some? <==> svc.efetch(id).Some?
    ensures r.Some? ==> (r.value.link == LinkPrefix + id && r.value.title == svc.efetch(id).value.title
      && StartsWith(r.value.content, svc.efetch(id).value.abstractText)
      && EndsWith(r.value.content, "</pre>"))
  {
    match svc.efetch(id)
    case None => None
    case Some(c) =>
      var content := c.abstractText + "\n\n<pre>meta_data: " + svc.prettyJson(MetadataOf(id, c)) + "</pre>";
      assert content[..|c.abstractText|] == c.abstractText;
      Some(PubMedArticle(c.title, content, LinkPrefix + id))
  }

  /** The details of the ids whose fetch succeeded, in id order. */
  function AllDetails(ids: seq<string>, svc: PubMedServices): (arts: seq<PubMedArticle>)
    ensures |arts| <= |ids|
  {
    if ids == [] then []
    else
      var rest := AllDetails(ids[..|ids| - 1], svc);
      var last := Details(ids[|ids| - 1], svc);
      if last.Some? then rest + [last.value] else rest
  }

  /** Every article collected is the details of one of the ids. */
  lemma {:induction false} AllDetailsOfIds(ids: seq<string>, svc: PubMedServices)
    ensures forall a :: a in AllDetails(ids, svc) ==> exists id :: id in ids && Details(id, svc) == Some(a)
  {
    if ids != [] {
      var init := ids[..|ids| - 1];
      AllDetailsOfIds(init, svc);
      forall a | a in AllDetails(ids, svc)
        ensures exists id :: id in ids && Details(id, svc) == Some(a)
      {
        if a in AllDetails(init, svc) {
          var id :| id in init && Details(id, svc) == Some(a);
          assert id in ids;
        } else {
          assert Details(ids[|ids| - 1], svc) == Some(a);
        }
      }
    }
  }

  /** When every fetch succeeds there is one article per id, in id order. */
  lemma {:induction false} AllFetched(ids: seq<string>, svc: PubMedServices)
    requires forall id :: id in ids ==> svc.efetch(id).Some?
    ensures |AllDetails(ids, svc)| == |ids|
    ensures forall i :: 0 <= i < |ids| ==> AllDetails(ids, svc)[i] == Details(ids[i], svc).value
  {
    if ids != [] {
      var init := ids[..|ids| - 1];
      var last := ids[|ids| - 1];
      assert forall id :: id in init ==> id in ids;
      AllFetched(init, svc);
      assert svc.efetch(last).Some?;
      var d := Details(last, svc);
      assert AllDetails(ids, svc) == AllDetails(init, svc) + [d.value];
      forall i | 0 <= i < |ids|
        ensures AllDetails(ids, svc)[i] == Details(ids[i], svc).value
      {
        if i < |init| {
          assert ids[i] == init[i];
        }
      }
    }
  }

  /** How many steps remain from `step`. */
  function Remaining(maxSteps: int, step: nat): nat
  {
    if step < maxSteps then maxSteps - step else 0
  }

  /**
   * The `while` loop from step `step` with term `term`, having collected
   * `acc`: a failed or unparsable search ends it with an exception; an empty
   * id list does not.
   */
  function Steps(svc: PubMedServices, f: Filters, maxSteps: int, step: nat, term: string,
                 acc: seq<PubMedArticle>): (r: Search)
    ensures r.requests <= Remaining(maxSteps, step)
    ensures r.outcome.Ok? ==> r.requests == Remaining(maxSteps, step) && acc <= r.outcome.value
    decreases Remaining(maxSteps, step)
  {
    if step >= maxSteps then Search(Ok(acc), 0)
    else
      match svc.esearch(step, term, f)
      case EsearchFailed(msg) => Search(Err(FetchErrorPrefix + msg), 1)
      case EsearchUnparsable => Search(Err(ParseFailure), 1)
      case Ids(ids) =>
        var rest := Steps(svc, f, maxSteps, step + 1, Implode(",", ids), acc + AllDetails(ids, svc));
        Search(rest.outcome, rest.requests + 1)
  }

  /** `fetchPubMedArticles`: a missing key fails before any request. */
  function PubMedSearch(svc: PubMedServices, f: Filters, keywords: string, maxSteps: int): (r: Search)
    ensures Falsy(f.apiKey) ==> r == Search(Err(NoApiKey), 0)
    ensures r.requests <= Remaining(maxSteps, 0)
    ensures !Falsy(f.apiKey) && r.outcome.Ok? ==> r.requests == Remaining(maxSteps, 0)
  {
    if Falsy(f.apiKey) then Search(Err(NoApiKey), 0) else Steps(svc, f, maxSteps, 0, keywords, [])
  }

  /** The search loop as the source runs it, counting its `esearch` requests. */
  method FetchPubMedArticles(svc: PubMedServices, f: Filters, keywords: string, maxSteps: int)
    returns (r: Result<seq<PubMedArticle>>, requests: nat)
    ensures Search(r, requests) == PubMedSearch(svc, f, keywords, maxSteps)
  {
    if Falsy(f.apiKey) {
      return Err(NoApiKey), 0;
    }
    var articles: seq<PubMedArticle> := [];
    var step: nat := 0;
    var term := keywords;
    requests := 0;
    while step < maxSteps
      invariant var rest := Steps(svc, f, maxSteps, step, term, articles);
        Search(rest.outcome, rest.requests + requests) == Steps(svc, f, maxSteps, 0, keywords, [])
      decreases Remaining(maxSteps, step)
    {
      var reply := svc.esearch(step, term, f);
      requests := requests + 1;
      if reply.EsearchFailed? {
        return Err(FetchErrorPrefix + reply.message), requests;
      }
      if reply.EsearchUnparsable? {
        return Err(ParseFailure), requests;
      }
      var found := FetchDetails(reply.ids, svc);
      articles := articles + found;
      step := step + 1;
      term := Implode(",", reply.ids);
    }
    return Ok(articles), requests;
  }

  /** The inner loop over the ids of one step, dropping failed fetches. */
  method FetchDetails(ids: seq<string>, svc: PubMedServices) returns (found: seq<PubMedArticle>)
    ensures found == AllDetails(ids, svc)
  {
    found := [];
    var i := 0;
    while i < |ids|
      invariant 0 <= i <= |ids|
      invariant found == AllDetails(ids[..i], svc)
    {
      assert ids[..i + 1][..i] == ids[..i];
      var details := Details(ids[i], svc);
      if details.Some? {
        found := found + [details.value];
      }
      i := i + 1;
    }
    assert ids[..i] == ids;
  }

  /** Each step after the first searches for the ids the previous step found, joined by commas. */
  lemma NextTermIsIds(svc: PubMedServices, f: Filters, maxSteps: int, step: nat, term: string,
                      acc: seq<PubMedArticle>, ids: seq<string>)
    requires step < maxSteps && svc.esearch(step, term, f) == Ids(ids)
    ensures var next := Steps(svc, f, maxSteps, step + 1, Implode(",", ids), acc + AllDetails(ids, svc));
      Steps(svc, f, maxSteps, step, term, acc) == Search(next.outcome, next.requests + 1)
  {
  }

  /** When every search answers with ids, exactly `max(maxSteps, 0)` requests are made, even for empty id lists. */
  lemma {:induction false} AllSearchesAnswered(svc: PubMedServices, f: Filters, maxSteps: int, step: nat,
                                               term: string, acc: seq<PubMedArticle>)
    requires forall i, t :: step <= i < maxSteps ==> svc.esearch(i, t, f).Ids?
    ensures Steps(svc, f, maxSteps, step, term, acc).outcome.Ok?
    ensures Steps(svc, f, maxSteps, step, term, acc).requests == Remaining(maxSteps, step)
    decreases Remaining(maxSteps, step)
  {
    if step < maxSteps {
      var ids := svc.esearch(step, term, f).ids;
      AllSearchesAnswered(svc, f, maxSteps, step + 1, Implode(",", ids), acc + AllDetails(ids, svc));
    }
  }

  /** The filters of a search: the publication types are sent as one comma-separated value. */
  function SearchFilters(retmax: int, apiKey: string, mindate: string, maxdate: string, datetype: string,
                         pt: seq<string>, la: string): (f: Filters)
    ensures f.retmax == retmax && f.apiKey == apiKey && f.la == la
    ensures pt == [] ==> f.pt == ""
  {
    Filters(retmax, apiKey, mindate, maxdate, datetype, Implode(",", pt), la)
  }

  /** The joined publication types split back into the list, when no type holds a comma. */
  lemma PublicationTypesRecoverable(retmax: int, apiKey: string, mindate: string, maxdate: string,
                                    datetype: string, pt: seq<string>, la: string)
    requires pt != [] && forall t :: t in pt ==> ',' !in t
    ensures Explode(',', SearchFilters(retmax, apiKey, mindate, maxdate, datetype, pt, la).pt) == pt
  {
    ExplodeImplode(',', pt);
  }

  // ---------------------------------------------------------------------
  // fetchAndProcessPubMed.
  // ---------------------------------------------------------------------

  /** An article as handed to the publisher: its title, content and link. */
  function ToArticle(a: PubMedArticle): Publisher.Article
  {
    RunReport.LinkedArticle(a.title, a.content, a.link)
  }

  /**
   * `fetchAndProcessPubMed` on a store in state `db`: a failed search
   * records its error and publishes nothing; otherwise the articles are
   * published as `post`s.
   */
  function PubMedOutcome(db: Cms.Db, svc: PubMedServices, f: Filters, keywords: string, maxSteps: int,
                         categoryId: int, tags: seq<int>, postStatus: string, debug: bool, trace: string,
                         wp: Cms.Wp): (o: RunReport.Outcome)
    ensures PubMedSearch(svc, f, keywords, maxSteps).outcome.Err? ==>
      o == RunReport.Outcome(RunReport.ErrorRecord(PubMedSearch(svc, f, keywords, maxSteps).outcome.message,
                                                   debug, trace), db)
    ensures PubMedSearch(svc, f, keywords, maxSteps).outcome.Ok? ==> o.report.Results?
  {
    match PubMedSearch(svc, f, keywords, maxSteps).outcome
    case Err(msg) => RunReport.Outcome(RunReport.ErrorRecord(msg, debug, trace), db)
    case Ok(articles) =>
      RunReport.PublishOutcome(db, Map(articles, ToArticle), Publisher.Config(categoryId, tags, postStatus, "post"), wp)
  }

  /** A missing API key is recorded as an error and leaves the store as it was. */
  lemma NoKeyNoPosts(db: Cms.Db, svc: PubMedServices, f: Filters, keywords: string, maxSteps: int,
                     categoryId: int, tags: seq<int>, postStatus: string, debug: bool, trace: string, wp: Cms.Wp)
    requires Falsy(f.apiKey)
    ensures var o := PubMedOutcome(db, svc, f, keywords, maxSteps, categoryId, tags, postStatus, debug, trace, wp);
      o.db == db && o.report == RunReport.ErrorRecord(NoApiKey, debug, trace)
  {
  }

  /**
   * `fetchAndProcessPubMed`: the publication types are joined by commas into
   * the filters of the search.
   */
  method FetchAndProcessPubMed(store: Cms.Store, svc: PubMedServices, keywords: string, maxSteps: int,
                               retmax: int, apiKey: string, mindate: string, maxdate: string, datetype: string,
                               pt: seq<string>, la: string, categoryId: int, tags: seq<int>, postStatus: string,
                               debug: bool, trace: string)
    returns (report: RunReport.Report)
    modifies store
    ensures RunReport.Outcome(report, store.Snapshot())
      == PubMedOutcome(old(store.Snapshot()), svc, SearchFilters(retmax, apiKey, mindate, maxdate, datetype, pt, la),
                       keywords, maxSteps, categoryId, tags, postStatus, debug, trace, store.wp)
  {
    var f := SearchFilters(retmax, apiKey, mindate, maxdate, datetype, pt, la);
    var found, _ := FetchPubMedArticles(svc, f, keywords, maxSteps);
    if found.Err? {
      return RunReport.ErrorRecord(found.message, debug, trace);
    }
    var result := Publisher.PublishNews(store, Map(found.value, ToArticle), categoryId, tags, postStatus, "post");
    report := RunReport.Results(result);
  }
}
