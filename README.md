# newsapi ingestion and publication, modelled in Dafny

This project models the part of the WordPress plugin "newsapi" that brings news in and publishes it as posts:

- **Sources.** Articles come from NewsAPI (`NewsApiFetcherService`), RSS/Atom feeds (`RssReaderService`), blogs whose article links a language model picks out (`NewsGPTScraper`, with `JsonFixer` repairing its replies), Google Scholar and PubMed. Each source has a meta box whose `fetchAndProcess*` method reads its settings, collects articles and hands them on.
- **Publishing.** `WPNewsPublisherService::publishNews` skips articles whose link was already published, composes the post body, inserts the post, sets its category, tags and meta, and reports the ids it created. Each fetch stores that report, or its error, as a transient.
- **Read status.** Every published post starts `unread`. The admin list (`MarkedPostsTable`) filters and pages posts by read status and bulk-marks them read or unread. The feed hooks (`NewsApi`) guard feeds with a token, narrow the feed query to posts (optionally only unread ones) and mark a post read when a feed reader asks.

One module per source file (`JsonFixer`, `Publisher`, `GptScraper`, `RssReader`, `NewsApiFetcher`, `Scholar`, `PubMed`, `RssStreamBox`, `StreamBox`, `BlogScraperBox`, `MarkedPostsTable`, `NewsApi`). Three helper modules complete it:

- `Php` holds the PHP string and array semantics the code relies on: `empty()` on strings, `trim`, `explode`/`implode`, `(int)` casts, `is_numeric`, `ucfirst`, `substr_count` and `str_repeat`.
- `JsonEncode` holds `json_encode` of strings and string lists, and `stripslashes`.
- `Cms` is the WordPress store: posts, post meta and tags. It is a `Store` class whose methods update it in place, each specified by a function on a `Db` value. `RunReport` holds the results-or-error record a fetch writes.

The things the plugin talks to are parameters of the model: HTTP, the language model, XML and HTML parsing, Readability scraping, `filter_var` URL validation, the sanitizers, nonces and the clock. A scripted oracle indexed by call number stands for a sequence of replies, such as the successive `wp_insert_post` results or language-model replies.

Loops that the source runs step by step are methods with loop invariants. Each is proved equal to a recursive specification function, and the properties are lemmas about those functions.

## Model

| member | source | states |
|---|---|---|
| JsonFixer.StripOpeningFence | src/Services/JsonFixer.php:18 | only a leading ```` ```json ```` fence is removed, with the whitespace after it; text without it is unchanged |
| JsonFixer.StripClosingFence | src/Services/JsonFixer.php:19 | a closing ```` ``` ```` at the end, or before a final newline (PCRE `$`), is removed with all whitespace before it; the final newline stays |
| JsonFixer.RTrimChars | src/Services/JsonFixer.php:44 | only trailing `\n`, `\r`, `\t` and `,` are removed (not spaces), and the result no longer ends in one |
| JsonFixer.CutTrailingComma | src/Services/JsonFixer.php:45 | the result is a prefix of the text; when something is cut, the cut starts at a comma followed only by whitespace; when nothing is cut, no comma in the text is followed only by whitespace |
| JsonFixer.CutTrailingJunk | src/Services/JsonFixer.php:46 | the maximal run of characters outside `[]{}\w\s/.-:,"'` ending where `$` matches is removed, so the result ends in an allowed character |
| JsonFixer.RemoveTrailingIncompleteData | src/Services/JsonFixer.php:41-49 | the three trailing rewrites never lengthen the text and leave it ending in an allowed character |
| JsonFixer.Deficit | src/Services/JsonFixer.php:60-66 | the number of `]` to append is `max(count('[') - count(']'), 0)`: zero, or exactly the number that makes the counts equal |
| JsonFixer.EnsureClosedFacts | src/Services/JsonFixer.php:57-74 | only `]` are appended: exactly the deficit when there is one, else at most one; the result ends in `]` (plus whitespace) and has at least as many `]` as `[` |
| JsonFixer.EnsureClosedIdentity | src/Services/JsonFixer.php:57-74 | a balanced text already ending in `]` is returned unchanged |
| JsonFixer.EnsureClosedDeficit | src/Services/JsonFixer.php:64-66 | when brackets are missing, exactly the missing `]` are appended and nothing else |
| JsonFixer.Fix | src/Services/JsonFixer.php:15-33 | the repair is returned exactly when the validity check accepts it, and it then ends in `]` and is bracket-balanced; otherwise the invalid-format error |
| JsonFixer.FixIdentity | src/Services/JsonFixer.php:15-33 | an unfenced, balanced text ending in `]` is returned unchanged when valid and rejected otherwise |
| JsonFixer.FixFencedArray | src/Services/JsonFixer.php:18-19 | an array wrapped as ```` ```json ````, newline, array, newline, ```` ``` ```` comes back without the fence |
| JsonFixer.ClosingFenceAfterNewline | src/Services/JsonFixer.php:19 | a closing fence on its own line goes together with the newline before it |
| JsonFixer.UntaggedFenceKept | src/Services/JsonFixer.php:18-19 | an opening fence without the `json` tag stays; only the closing fence is removed |
| JsonFixer.FixDropsTrailingComma | src/Services/JsonFixer.php:44-46 | a trailing comma after the last complete element makes no difference to the result |
| JsonFixer.FixAppendsMissingBrackets | src/Services/JsonFixer.php:60-66 | a text ending in `]` but short of closing brackets gets exactly the missing ones before validation |
| JsonFixer.BracketInStringCounted | src/Services/JsonFixer.php:60-61 | bracket counting does not skip string literals: `["a["]` counts one missing `]` |
| Publisher.DescriptionBlock | src/Services/WPNewsPublisherService.php:24-27 | the description and `<br>` start the body only when the description is non-empty |
| Publisher.MainText | src/Services/WPNewsPublisherService.php:30-32 | full text and content joined by `<br>` when both are non-empty, else the non-empty one, else the content |
| Publisher.ResolveLink | src/Services/WPNewsPublisherService.php:34-41 | the link named in the body is the string itself or the first element of a list |
| Publisher.SourceNote | src/Services/WPNewsPublisherService.php:34-43 | a non-empty link appends `<br>{"source":…}` with the JSON-encoded link; an empty one appends nothing |
| Publisher.BodyLayout | src/Services/WPNewsPublisherService.php:24-43 | the body starts with the description block, continues with the full text (or the content when there is none) and ends with the source note |
| Publisher.Category | src/Services/WPNewsPublisherService.php:51 | the category list is `[categoryId]` for type `post` and empty for any other type |
| Publisher.AddIfPresent | src/Services/WPNewsPublisherService.php:63-71 | a non-empty field adds only its own meta row, holding the unslashed JSON encoding; existing rows, posts and tags are untouched |
| Publisher.AddTags | src/Services/WPNewsPublisherService.php:58-60 | tags are set only for type `post` with a non-empty tag list, and only on the new post |
| Publisher.RecordMetaFacts | src/Services/WPNewsPublisherService.php:58-71 | after a successful insert the tag and meta writes change only the new post's rows, and a non-empty link is stored as its dedup key |
| Publisher.MarkedUnread | src/Services/WPNewsPublisherService.php:46-54 | a created post gets the next id and the configured title, body, status, type and category, and its `read_status` is `unread` |
| Publisher.CreatedStep | src/Services/WPNewsPublisherService.php:18-75 | an article with an unknown key whose insert succeeds adds one post in the published shape, appends its id, and records its link key |
| Publisher.FailedStep | src/Services/WPNewsPublisherService.php:56 | a failed insert (error or id 0) adds no post and no id |
| Publisher.StepFacts | src/Services/WPNewsPublisherService.php:18-75 | one iteration only grows the store and creates at most one post, with the next id and the configured shape |
| Publisher.RunExtends | src/Services/WPNewsPublisherService.php:18-75 | a run only grows the store and attempts at most one insert per article |
| Publisher.RunGrows | src/Services/WPNewsPublisherService.php:18-75 | the ids a run returns are those of the posts it appended, consecutive and in input order |
| Publisher.RunPublishes | src/Services/WPNewsPublisherService.php:46-71 | every post a run creates carries the configured type, status, category, tags and `unread` status |
| Publisher.RunAppend | src/Services/WPNewsPublisherService.php:18 | the articles are processed in input order: a run over `xs + ys` is a run over `xs` followed by one over `ys` |
| Publisher.StepSkipsExisting | src/Services/WPNewsPublisherService.php:20-22 | an article whose key already exists for the post type changes nothing and creates nothing |
| Publisher.StepRecordsLink | src/Services/WPNewsPublisherService.php:63-65 | a linked article whose insert succeeds leaves its key findable by `postExists` |
| Publisher.RunRecordsLinks | src/Services/WPNewsPublisherService.php:63-65 | when every insert succeeds, every linked article of the batch is findable afterwards |
| Publisher.RunAllExisting | src/Services/WPNewsPublisherService.php:20-22 | a batch whose every key is stored creates nothing and leaves the store unchanged |
| Publisher.SecondRunPublishesNothing | src/Services/WPNewsPublisherService.php:83-97 | publishing the same linked batch again, against the store the first run left, creates nothing and reports count 0 |
| Publisher.RepeatedLinkSkipped | src/Services/WPNewsPublisherService.php:20-22 | a link repeated later in the same batch is skipped the second time |
| Publisher.KeyOfEmptyLink | src/Services/WPNewsPublisherService.php:90 | a link is empty exactly when its lookup key is the key of an empty link (`null`, `""`, `"0"` or `[]`) |
| Publisher.EmptyLinkNeverSkipped | src/Services/WPNewsPublisherService.php:83-97 | an article without a link is never taken for a duplicate: it always costs an insert |
| Publisher.StepKeepsNoEmptyLinkKeys | src/Services/WPNewsPublisherService.php:63-65 | publishing never stores the key of an empty link |
| Publisher.PublishOne | src/Services/WPNewsPublisherService.php:18-75 | one pass of the loop body does to the store and the id list what one step of the specification does |
| Publisher.PublishNews | src/Services/WPNewsPublisherService.php:10-81 | the store ends as the specification's run over the articles in order, and the result's count is the number of ids returned |
| JsonEncode.JsonString | src/Services/WPNewsPublisherService.php:42 | a JSON string is quoted at both ends |
| JsonEncode.EscapeCharFacts | src/Services/WPNewsPublisherService.php:90 | every escape `json_encode` writes survives `stripslashes` as at least one character, and only `0` unslashes to `"0"` |
| JsonEncode.StripSlashesPlain | src/Services/WPNewsPublisherService.php:90 | `stripslashes` leaves text without backslashes unchanged |
| JsonEncode.DedupKeyOfString | src/Services/WPNewsPublisherService.php:90 | the key of a string link is the unslashed escape of the string between quotes |
| JsonEncode.DedupKeyOfList | src/Services/WPNewsPublisherService.php:90 | the key of a non-empty list link starts with `["` |
| JsonEncode.DedupKeyFirst | src/Services/WPNewsPublisherService.php:90 | the key is `null` for a missing link, starts with a quote for a string and with `[` for a list |
| JsonEncode.EmptyStringKeys | src/Services/WPNewsPublisherService.php:90 | an empty string link (`""` or `"0"`) never shares its key with a non-empty string link |
| JsonEncode.EmptyLinkKeyIsNeverStored | src/Services/WPNewsPublisherService.php:63-65 | the key of an empty link differs from the key of every non-empty link |
| JsonEncode.StringAndListKeysDiffer | src/Services/WPNewsPublisherService.php:90 | a string link and the one-element list holding it have different keys |
| JsonEncode.NewlineAndLetterShareKey | src/Services/WPNewsPublisherService.php:90 | the key is not injective: the links `"\n"` and `"n"` share a key |
| Cms.AbsInt | src/MarkedPostsTable.php:91 | `absint` maps only 0 to 0 and keeps non-negative ids |
| Cms.Insert | src/Services/WPNewsPublisherService.php:46-52 | a successful `wp_insert_post` appends a post with the next id; a failure stores nothing and returns 0; each call is counted |
| Cms.AddMeta | src/Services/WPNewsPublisherService.php:54 | `add_post_meta` with the unique flag stores the unslashed value only when the key is not yet set, and touches no other row |
| Cms.UpdateMeta | src/MarkedPostsTable.php:97-105 | `update_post_meta` replaces one row with the unslashed value; every other row is kept; id 0 changes nothing |
| Cms.UpdateArrayMeta | src/Admin/StreamMetaBox.php:139-144 | `update_post_meta` of an array replaces one row with its serialized form, not unslashed again; every other row is kept; id 0 changes nothing |
| Cms.SetTerms | src/Services/WPNewsPublisherService.php:58-60 | `wp_set_post_terms` sets one post's tags and keeps every other post's |
| Cms.MetaValue | src/Admin/StreamMetaBox.php:163-170 | `get_post_meta(…, true)` reads `""` for a missing row |
| Cms.Store.InsertPost | src/Services/WPNewsPublisherService.php:46-52 | the in-place insert does what `Insert` specifies |
| Cms.Store.AddPostMeta | src/Services/WPNewsPublisherService.php:54 | the in-place meta add does what `AddMeta` specifies |
| Cms.Store.UpdatePostMeta | src/MarkedPostsTable.php:97-105 | the in-place meta update does what `UpdateMeta` specifies |
| Cms.Store.UpdatePostArrayMeta | src/Admin/StreamMetaBox.php:139-144 | the in-place array meta update does what `UpdateArrayMeta` specifies |
| Cms.Store.SetPostTerms | src/Services/WPNewsPublisherService.php:58-60 | the in-place tag write does what `SetTerms` specifies |
| Cms.Store.GetPostMeta | src/Admin/StreamMetaBox.php:163-170 | the meta read returns the stored value of the current state |
| Cms.ReadAfterUpdate | src/NewsApi.php:217-223 | a value written by `update_post_meta` reads back unslashed, and every other row reads as before |
| Cms.AddMetaKeepsFirst | src/Services/WPNewsPublisherService.php:54-70 | `add_post_meta` with the unique flag never overwrites the first value |
| Cms.LinkExistsKept | src/Services/WPNewsPublisherService.php:83-97 | once a link key is stored for a post type, later inserts and meta adds keep it findable |
| GptScraper.ConverseMessages | src/Services/NewsGPTScraper.php:129-168 | at most 4 POSTs from the first attempt; the first uses the plain system message and every later one the message for an invalid reply |
| GptScraper.After | src/Services/NewsGPTScraper.php:137-168 | one more pass in front of an exchange adds its system message first and keeps the text, or the crash, of the rest |
| GptScraper.TakeTurn | src/Services/NewsGPTScraper.php:137-168 | one pass of the `do…while` ends the exchange, crashes on a reply without content, or continues it with the fixed reply, only while the counter is below 5 |
| GptScraper.SendToGpt | src/Services/NewsGPTScraper.php:114-174 | the text returned, or the uncaught `TypeError` of a reply without content, and the system messages sent are those of the specified exchange starting at counter 1 |
| GptScraper.FirstPostFails | src/Services/NewsGPTScraper.php:169-173 | if the first POST throws, `sendToGpt` returns `""` after one call |
| GptScraper.StopsAtFirstValid | src/Services/NewsGPTScraper.php:163-168 | the loop returns the first reply that passes the schema check, after one POST per earlier fixable reply |
| GptScraper.AllRepliesInvalid | src/Services/NewsGPTScraper.php:163-168 | fixed text is never re-checked: with every reply invalid, four POSTs are made and the fixer's output of the fourth reply is returned |
| GptScraper.FourFailuresReturnRepair | src/Services/NewsGPTScraper.php:163-166 | after four schema failures the text returned is the JSON repair of the last reply, ending in `]` |
| GptScraper.FixerFailureKeepsRawReply | src/Services/NewsGPTScraper.php:163-171 | a reply the fixer rejects ends the loop with that raw reply |
| GptScraper.ValidUrls | src/Services/NewsGPTScraper.php:187-192 | exactly the string elements that are valid URLs are kept |
| GptScraper.ValidUrlsAppend | src/Services/NewsGPTScraper.php:187-192 | URL filtering keeps order: filtering a concatenation filters each part |
| GptScraper.ParseGptResponse | src/Services/NewsGPTScraper.php:176-199 | an undecodable or non-array reply throws; otherwise the valid URLs in order are returned, and it throws exactly when none remain |
| GptScraper.DiscoverUrls | src/Services/NewsGPTScraper.php:36-61 | a failed fetch is caught; an empty page raises the `loadHTML` `ValueError`; URLs proposed are non-empty and all valid |
| GptScraper.NullContentIsUncaught | src/Services/NewsGPTScraper.php:157-163 | a first reply with no string content makes `isValidJson` raise a `TypeError` that no `catch (\Exception)` stops |
| GptScraper.ExtractLinks | src/Services/NewsGPTScraper.php:244-261 | the summary is one `<a href="H">T</a>` line per anchor, in document order |
| GptScraper.LinkLinesSplit | src/Services/NewsGPTScraper.php:254-258 | when no href or text holds a newline, splitting the summary at newlines gives one line per anchor in order |
| GptScraper.Scrape | src/Services/NewsGPTScraper.php:201-221 | a scraped page becomes `{title, content, url, link}` with `url` and `link` both the requested URL |
| GptScraper.Cap | src/Services/NewsGPTScraper.php:63-68 | because the count is checked only after appending, one call collects at most `amount` articles when `amount >= 1`, and at most one otherwise |
| GptScraper.Harvest | src/Services/NewsGPTScraper.php:63-68 | the loop collects at most the cap and at most one article per URL |
| GptScraper.HarvestFacts | src/Services/NewsGPTScraper.php:63-74 | the articles are the scrapes of the first URLs in order, and the loop ends early only at a URL whose scrape throws |
| GptScraper.ScrapedArticles | src/Services/NewsGPTScraper.php:36-77 | a caught discovery failure gives no articles; an empty page or a reply without content escapes as its `ValueError`/`TypeError`; otherwise at most the cap, each from a proposed URL |
| GptScraper.ScrapeNewsFromUrl | src/Services/NewsGPTScraper.php:36-77 | the method returns the specified articles, or the uncaught error of an empty page or a reply without content |
| GptScraper.HarvestAt | src/Services/NewsGPTScraper.php:63-68 | one turn of the loop either stops at a throwing scrape or adds that URL's article in front of the rest |
| GptScraper.ScrapeEach | src/Services/NewsGPTScraper.php:63-68 | the `foreach` with its count check after each append collects the specified harvest |
| RssReader.ChildText | src/Services/RssReaderService.php:118-126 | a missing element reads as `""` |
| RssReader.GetUrl | src/Services/RssReaderService.php:23-40 | the first non-empty of `link`, `url`, `guid` (only when it is a valid URL, else `""`) and the enclosure's `url` attribute |
| RssReader.GuidHidesEnclosure | src/Services/RssReaderService.php:31-36 | a non-empty `guid` that is not a URL yields `""` even when an enclosure exists |
| RssReader.GetUrlFromItem | src/Services/RssReaderService.php:23-40 | the URL found is `""` or one of the item's own values |
| RssReader.ItemArticle | src/Services/RssReaderService.php:118-150 | title defaults to `No Title`; content is `content`, else `description`, else `No Content`; `fullContent` is the scrape of a non-empty `getUrl`, else `""`; `link` is the raw element |
| RssReader.Articles | src/Services/RssReaderService.php:117-151 | one article per item, in feed order |
| RssReader.SelectItems | src/Services/RssReaderService.php:97-103 | RSS `channel/item` when present, else Atom `entry`, and none when neither exists |
| RssReader.FeedResult | src/Services/RssReaderService.php:52-164 | a transport failure yields `[]`; a non-200 status throws; unparseable XML or a feed without items throws |
| RssReader.ReadUrl | src/Services/RssReaderService.php:52-164 | the method returns the specified result and never uses `amount` |
| RssReader.ReadItems | src/Services/RssReaderService.php:117-151 | the item loop builds the specified articles |
| RssReader.OneArticlePerItem | src/Services/RssReaderService.php:117-151 | a successful read yields exactly one article per selected item, in feed order |
| RssReader.ContentTypeIgnored | src/Services/RssReaderService.php:75-81 | the Content-Type header never changes the outcome |
| RssReader.ArticlesIgnoreGet | src/Services/RssReaderService.php:117-151 | the article conversion does not depend on the HTTP GET |
| NewsApiFetcher.Enrich | src/Services/NewsApiFetcherService.php:49-61 | an article with a non-empty `url` gets `fullContent = scrape(url)`; others are unchanged; no other field changes |
| NewsApiFetcher.Decoded | src/Services/NewsApiFetcherService.php:45-46 | a missing `articles` key yields an empty list |
| NewsApiFetcher.EnrichAll | src/Services/NewsApiFetcherService.php:48-63 | length and order are kept; each article is backfilled on its own |
| NewsApiFetcher.NewsResult | src/Services/NewsApiFetcherService.php:35-66 | a transport failure, and only that, throws with the `Error fetching news: ` prefix; otherwise as many articles as decoded, unchanged when enrichment is off |
| NewsApiFetcher.FetchNews | src/Services/NewsApiFetcherService.php:35-66 | the in-place loop returns the specified result |
| NewsApiFetcher.EnrichIdempotent | src/Services/NewsApiFetcherService.php:49-61 | backfilling twice is the same as backfilling once |
| NewsApiFetcher.OnlyFullContentChanges | src/Services/NewsApiFetcherService.php:49-65 | every field other than `fullContent` of every article reads as decoded |
| Scholar.Collect | src/Admin/GoogleScholarMetaBox.php:275-285 | exactly the results with title, snippet and link all set become articles `{title, content: snippet, link}` |
| Scholar.CollectAppend | src/Admin/GoogleScholarMetaBox.php:275-285 | collection keeps result order |
| Scholar.FirstWordsShape | src/Admin/GoogleScholarMetaBox.php:292 | the next query is a prefix of the title with at most three words |
| Scholar.ShortTitleKept | src/Admin/GoogleScholarMetaBox.php:292 | a title of up to three words is the next query whole |
| Scholar.Steps | src/Admin/GoogleScholarMetaBox.php:239-295 | the loop makes at most the remaining number of requests and only adds to what was collected |
| Scholar.ScholarSearch | src/Admin/GoogleScholarMetaBox.php:223-302 | a missing key throws before any request; at most `maxSteps` requests; a successful search returns at least one article |
| Scholar.FetchScholarArticles | src/Admin/GoogleScholarMetaBox.php:223-302 | the `while` loop returns the specified outcome and makes the specified number of requests |
| Scholar.NoStepsNoArticles | src/Admin/GoogleScholarMetaBox.php:297-299 | with `maxSteps <= 0` nothing is requested and the search throws |
| Scholar.EmptyPageStops | src/Admin/GoogleScholarMetaBox.php:269-272 | an empty page ends the loop without error and no later step is requested |
| Scholar.NextQueryFromFirstTitle | src/Admin/GoogleScholarMetaBox.php:288-294 | when another step follows, it searches the first three words of the first result's title, complete or not |
| Scholar.AllStepsAnswered | src/Admin/GoogleScholarMetaBox.php:239-295 | when every step answers with results, exactly `maxSteps` requests are made and the search succeeds |
| Scholar.WithScrape | src/Admin/GoogleScholarMetaBox.php:191-198 | the content is replaced only when the link and the scraped text are both non-empty; title and link are untouched |
| Scholar.WithScrapes | src/Admin/GoogleScholarMetaBox.php:191-198 | every article is rescraped on its own, in order |
| Scholar.ReplaceContents | src/Admin/GoogleScholarMetaBox.php:191-198 | the by-reference loop gives the specified articles |
| Scholar.ScholarOutcome | src/Admin/GoogleScholarMetaBox.php:168-218 | a thrown search records its error and publishes nothing; the uncaught `TypeError` aborts with no record; otherwise a results record is written |
| Scholar.MissingFirstTitleAborts | src/Admin/GoogleScholarMetaBox.php:288-294 | a first result without a title, with another step to run, aborts the request: nothing published, nothing recorded |
| Scholar.FetchAndProcessGoogleScholar | src/Admin/GoogleScholarMetaBox.php:168-218 | the report and the store end as the specified outcome |
| PubMed.MetadataOf | src/Admin/PubMedMetaBox.php:401-410 | the metadata names the PubMed page of the id, the title, the `Year-Month-Day` date, one author name per author element in order, and the journal, grants, publication types and references as read |
| PubMed.Details | src/Admin/PubMedMetaBox.php:350-420 | a failed fetch yields null; otherwise link `https://pubmed.ncbi.nlm.nih.gov/` + id, the title, and content starting with the abstract and ending in `</pre>` |
| PubMed.AllDetails | src/Admin/PubMedMetaBox.php:336-341 | at most one article per id |
| PubMed.AllDetailsOfIds | src/Admin/PubMedMetaBox.php:336-341 | every article collected is the details of one of the ids |
| PubMed.AllFetched | src/Admin/PubMedMetaBox.php:336-341 | when every fetch succeeds there is one article per id, in id order |
| PubMed.Steps | src/Admin/PubMedMetaBox.php:305-345 | a loop that does not throw makes exactly the remaining number of requests, and only adds to what was collected |
| PubMed.PubMedSearch | src/Admin/PubMedMetaBox.php:286-348 | a missing key throws before any request; a successful search makes exactly `max(maxSteps, 0)` requests |
| PubMed.FetchPubMedArticles | src/Admin/PubMedMetaBox.php:286-348 | the `while` loop returns the specified outcome and request count |
| PubMed.FetchDetails | src/Admin/PubMedMetaBox.php:336-341 | the inner loop keeps the details of the ids fetched successfully, in order |
| PubMed.NextTermIsIds | src/Admin/PubMedMetaBox.php:344 | each next step searches for this step's ids joined with `,` |
| PubMed.AllSearchesAnswered | src/Admin/PubMedMetaBox.php:305-345 | when every search answers, exactly `max(maxSteps, 0)` requests are made, even for empty id lists |
| PubMed.SearchFilters | src/Admin/PubMedMetaBox.php:255-257 | the publication types are sent as one comma-joined value, empty for no types |
| PubMed.PublicationTypesRecoverable | src/Admin/PubMedMetaBox.php:255 | the joined types split back into the list when no type contains a comma |
| PubMed.PubMedOutcome | src/Admin/PubMedMetaBox.php:236-281 | a failed search records its error and publishes nothing; otherwise a results record is written |
| PubMed.NoKeyNoPosts | src/Admin/PubMedMetaBox.php:296-299 | a missing API key is recorded as an error and leaves the store as it was |
| PubMed.FetchAndProcessPubMed | src/Admin/PubMedMetaBox.php:236-281 | the report and the store end as the specified outcome, with the types comma-joined into the filters |
| RssStreamBox.NodeField | src/Admin/RSSStreamMetaBox.php:165 | the JSON round trip of a text-only element gives a one-item list, empty when the text or the element is missing |
| RssStreamBox.ToArticle | src/Admin/RSSStreamMetaBox.php:161-167 | title, content and full text carry over; the link is empty exactly when the element's text is |
| RssStreamBox.FeedArticles | src/Admin/RSSStreamMetaBox.php:159-167 | one feed's read fails exactly when `readUrl` throws; otherwise its articles are converted in order |
| RssStreamBox.FeedReads | src/Admin/RSSStreamMetaBox.php:159-169 | the feeds are read in configured order |
| RssStreamBox.Gather | src/Admin/RSSStreamMetaBox.php:159-176 | articles are appended in feed order; with `maxSize > 0` at most `maxSize` are kept and reading stops only once the list was truncated; an exception ends the loop |
| RssStreamBox.UncappedGathersAll | src/Admin/RSSStreamMetaBox.php:172 | with `maxSize <= 0` every feed is read and all articles are kept in order |
| RssStreamBox.CappedKeepsFirst | src/Admin/RSSStreamMetaBox.php:172-175 | with a cap the outcome is the first `min(maxSize, total)` articles in order |
| RssStreamBox.ExactlyFullKeepsReading | src/Admin/RSSStreamMetaBox.php:172 | reaching exactly `maxSize` does not stop reading |
| RssStreamBox.RssConfig | src/Admin/RSSStreamMetaBox.php:183-186 | publishing uses type `post` with the stored category, tags and post status |
| RssStreamBox.GatherFeeds | src/Admin/RSSStreamMetaBox.php:159-176 | the `foreach` yields the specified first exception or gathered articles |
| RssStreamBox.FetchAndProcessRss | src/Admin/RSSStreamMetaBox.php:143-198 | the feeds are the trimmed non-empty lines; an exception records `{message[, trace]}` and publishes nothing; otherwise the gathered articles are published and the result stored |
| StreamBox.FormText | src/Admin/StreamMetaBox.php:138-147 | a missing form field takes its default |
| StreamBox.FormInt | src/Admin/StreamMetaBox.php:142-145 | a missing category or amount is 0 |
| StreamBox.FormList | src/Admin/StreamMetaBox.php:139-143 | a missing list field is the empty list |
| StreamBox.FormTags | src/Admin/StreamMetaBox.php:143 | one tag per submitted value, each its `intval` |
| StreamBox.StoredTags | src/Admin/StreamMetaBox.php:167 | the tags read are the unserialized integer list of the stored value |
| StreamBox.IntMetaRoundTrip | src/Admin/StreamMetaBox.php:142-145 | an integer saved as meta reads back, through the `(int)` cast, as the same integer |
| StreamBox.WriteReadsBackFirst | src/Admin/StreamMetaBox.php:138-141 | after the eight writes, `_stream_language`, `_stream_keywords` and `_stream_category` hold their values unslashed, and `_stream_data_type` holds the serialized array as written |
| StreamBox.WriteReadsBackLast | src/Admin/StreamMetaBox.php:143-147 | after the eight writes, `_stream_tags` holds the serialized array as written, and `_stream_amount`, `_stream_post_status` and `_stream_post_type` hold their values unslashed |
| StreamBox.SavedReadsBack | src/Admin/StreamMetaBox.php:138-147 | the saved settings read back as submitted, the tags as the submitted `intval`s through `serialize`/`unserialize`, with defaults `draft`, `post` and 0 |
| StreamBox.SavedTouchesOnlyThePost | src/Admin/StreamMetaBox.php:138-147 | saving writes only the edited post's meta |
| StreamBox.SaveMetaBox | src/Admin/StreamMetaBox.php:131-153 | without a valid nonce nothing changes; otherwise all eight settings, the data types and tags as serialized arrays, are saved, and the fetch runs on them when requested |
| StreamBox.NewsParams | src/Admin/StreamMetaBox.php:172-176 | the parameters are exactly `q` = keywords and `language` |
| StreamBox.Optional | src/Services/WPNewsPublisherService.php:34-43 | a missing article field is null for the publisher |
| StreamBox.FieldsArticle | src/Admin/StreamMetaBox.php:206-209 | a NewsAPI article reaches the publisher with its title, content, full text and description; it has no `link` key |
| StreamBox.UnlinkedNeverSkipped | src/Services/WPNewsPublisherService.php:20-22 | a NewsAPI article, whose address is under `url` and not `link`, is never skipped as a duplicate |
| StreamBox.StreamConfig | src/Admin/StreamMetaBox.php:206-209 | publishing uses the stored post type, status, category and tags |
| StreamBox.NewsOutcome | src/Admin/StreamMetaBox.php:158-210 | a failed fetch, and only that, writes an error record, and then the store is unchanged |
| StreamBox.AmountBoundsPosts | src/Admin/StreamMetaBox.php:202-204 | with a positive `amount` at most `amount` posts are created |
| StreamBox.FetchAndProcessNews | src/Admin/StreamMetaBox.php:158-210 | the report and the store end as the specified outcome |
| BlogScraperBox.PageArticles | src/Admin/BlogScraperMetaBox.php:151-165 | one page contributes at most the per-call cap, nothing when discovery fails with an exception, and the uncaught error when it raises one |
| BlogScraperBox.PageReads | src/Admin/BlogScraperMetaBox.php:151-165 | every page is scraped with the same `amount`, in URL order |
| BlogScraperBox.JoinedAppend | src/Admin/BlogScraperMetaBox.php:151-165 | joining the reads of two runs of pages is the first run's articles followed by the second's, or the first uncaught error |
| BlogScraperBox.BlogArticlesAppend | src/Admin/BlogScraperMetaBox.php:151-165 | the pages' articles are concatenated in URL order with no overall cap, up to the first uncaught error |
| BlogScraperBox.FailingPageSkipped | src/Admin/BlogScraperMetaBox.php:156-160 | a page whose discovery fails contributes nothing and the later pages are still scraped |
| BlogScraperBox.UncaughtPageEndsLoop | src/Admin/BlogScraperMetaBox.php:151-165 | a page whose discovery raises an uncaught error ends the whole loop with that error, whatever the later pages hold |
| BlogScraperBox.PageStep | src/Admin/BlogScraperMetaBox.php:153-163 | one more page either ends the loop with its uncaught error or appends its articles |
| BlogScraperBox.BlogConfig | src/Admin/BlogScraperMetaBox.php:172-175 | publishing uses type `post` with the stored category, tags and post status |
| BlogScraperBox.BlogOutcome | src/Admin/BlogScraperMetaBox.php:136-193 | a results record counting at most the articles found, or, exactly when a page raises an uncaught error, an abort that publishes nothing and records nothing |
| BlogScraperBox.ScrapePages | src/Admin/BlogScraperMetaBox.php:151-165 | the `foreach` over pages gathers the specified articles |
| BlogScraperBox.FetchAndProcessBlog | src/Admin/BlogScraperMetaBox.php:136-193 | the report and the store end as the specified outcome |
| RunReport.ErrorRecord | src/Admin/RSSStreamMetaBox.php:187-197 | the error record holds the message, and a trace exactly in debug mode |
| RunReport.ResultOf | src/Services/WPNewsPublisherService.php:77-80 | the result's count is the number of ids, and the ids are those created |
| RunReport.RunIdsBound | src/Services/WPNewsPublisherService.php:73 | a run creates at most one post per article |
| RunReport.PublishedAtMost | src/Services/WPNewsPublisherService.php:77-80 | the count reported is at most the number of articles |
| RunReport.Truncated | src/Admin/StreamMetaBox.php:202-204 | with a positive limit the first `min(limit, length)` items are kept; otherwise all |
| RunReport.LinkedArticleShape | src/Admin/GoogleScholarMetaBox.php:201-204 | a title-text-link article's body is its text plus the source note, and its key is the encoded link |
| MarkedPostsTable.ReadStatus | src/MarkedPostsTable.php:127-135 | a post's read status is absent exactly when no row exists |
| MarkedPostsTable.ActionStatus | src/MarkedPostsTable.php:97-105 | only `mark_read` and `mark_unread` write anything |
| MarkedPostsTable.ProcessBulkAction | src/MarkedPostsTable.php:77-111 | the in-place loop leaves the store as the specified bulk result |
| MarkedPostsTable.MarkAllEffect | src/MarkedPostsTable.php:97-105 | every targeted post gets the status and the time; every other row, the posts and the tags are unchanged |
| MarkedPostsTable.MarkAllAt | src/MarkedPostsTable.php:97-105 | each meta row after marking is the written value on a marked row and the old row otherwise |
| MarkedPostsTable.MarkAllIdempotent | src/MarkedPostsTable.php:97-105 | marking the same posts twice is marking them once |
| MarkedPostsTable.BulkIdempotent | src/MarkedPostsTable.php:77-111 | a bulk action applied twice leaves the store as applying it once |
| MarkedPostsTable.BulkTouchesOnlyReadRows | src/MarkedPostsTable.php:80-105 | only `read_status` and `read_timestamp` are written, and nothing without a valid nonce, ids and action |
| MarkedPostsTable.MarkAllMarks | src/MarkedPostsTable.php:97-105 | each non-zero id ends with the status and the time |
| MarkedPostsTable.BulkMarks | src/MarkedPostsTable.php:91-105 | `mark_read` leaves every submitted post `read` and `mark_unread` leaves it `unread`, with the time |
| MarkedPostsTable.AsWrittenSelects | src/MarkedPostsTable.php:127-135 | the filter as written: `read` finds `read`, `unread` finds only an absent or empty status, anything else finds all |
| MarkedPostsTable.AsWrittenMissesPublishedPosts | src/MarkedPostsTable.php:129-134 | a newly published post is found by neither the `unread` nor the `read` filter as written |
| MarkedPostsTable.AsWrittenMissesMarkedUnread | src/MarkedPostsTable.php:129-134 | a post just marked unread is not found by the `unread` filter as written |
| MarkedPostsTable.StatusClausesSelect | src/MarkedPostsTable.php:127-135 | the corrected filter: `unread` also finds the literal `unread` |
| MarkedPostsTable.StatusFiltersPartition | src/MarkedPostsTable.php:127-135 | with the corrected filter every status the plugin writes is listed under exactly one of `read` and `unread` |
| MarkedPostsTable.PublishedPostsListedUnread | src/MarkedPostsTable.php:127-135 | with the corrected filter a newly published post is listed under `unread` and not under `read` |
| MarkedPostsTable.BulkMarkMovesPost | src/MarkedPostsTable.php:91-135 | with the corrected filter, after a bulk mark a submitted post is listed under the filter the action names and not the other |
| MarkedPostsTable.Posted | src/MarkedPostsTable.php:118-124 | a missing form value takes its default |
| MarkedPostsTable.PerPage | src/MarkedPostsTable.php:116 | the page size is at least 1, 20 by default, else the submitted integer |
| MarkedPostsTable.Bound | src/MarkedPostsTable.php:137-148 | a filter value is used only when it is present and non-empty |
| MarkedPostsTable.Query | src/MarkedPostsTable.php:114-158 | the query has the page size, order and the status clauses as written, and a category or date bound exactly when the form gives a non-empty one |
| MarkedPostsTable.IntendedQuery | src/MarkedPostsTable.php:126-135 | the query with the corrected status clauses and every other part as written |
| MarkedPostsTable.AllStatusesListed | src/MarkedPostsTable.php:127-135 | with status `all` or none, no post is excluded by its read status, as written or corrected |
| MarkedPostsTable.PageOf | src/MarkedPostsTable.php:151-160 | a page holds at most `per_page` posts, the matching posts from `(page - 1) * per_page` on in order, and is non-empty when it starts within them |
| MarkedPostsTable.TotalItemsAsWritten | src/MarkedPostsTable.php:162 | the count as written is the size of the current page: at most `per_page` |
| MarkedPostsTable.AsWrittenAtMostOnePage | src/MarkedPostsTable.php:162-167 | as written, the table never announces more than one page |
| MarkedPostsTable.AsWrittenHidesSecondPage | src/MarkedPostsTable.php:162-167 | with more matches than one page holds, page 2 holds posts while one page is announced |
| MarkedPostsTable.TotalItems | src/MarkedPostsTable.php:162 | the intended count is the number of matching posts |
| MarkedPostsTable.TotalPagesCover | src/MarkedPostsTable.php:162-167 | with every matching post counted, post `i` is item `i % per_page` of page `i / per_page + 1`, a page within the total, and no announced page is empty |
| MarkedPostsTable.CategoryLabel | src/MarkedPostsTable.php:55 | the first category's name, `Uncategorized` when there is none |
| MarkedPostsTable.StatusLabel | src/MarkedPostsTable.php:59-60 | `Unread` for an empty status; else the status with a lower-case ASCII first letter made upper case, and every other character kept |
| MarkedPostsTable.TimestampLabel | src/MarkedPostsTable.php:62-63 | `N/A` for an empty timestamp, else the formatted date |
| MarkedPostsTable.StatusColumnAgrees | src/MarkedPostsTable.php:59-60 | the column shows `Unread` for every post the corrected `unread` filter lists and `Read` for every `read` one |
| NewsApi.RestrictFeedAccess | src/NewsApi.php:55-62 | a request is denied exactly when it is a feed request without the secret token, with the fixed message |
| NewsApi.Filtered | src/NewsApi.php:166-198 | the query is unchanged unless it is a feed with a token; then `post_type` is `post`, and at most one clause is appended to the kept ones |
| NewsApi.FilterFeedQuery | src/NewsApi.php:166-198 | the in-place filter leaves the query variables as specified |
| NewsApi.PageSizeOnlyWhenNumeric | src/NewsApi.php:181-183 | the page size changes exactly on the main feed query with a numeric `show_on_page`, to its integer value |
| NewsApi.FilterOnlyNarrows | src/NewsApi.php:186-194 | the filter only narrows the selected posts, and changes the clauses only with `show_unread_only=true` on the main query |
| NewsApi.UnreadOnlyFeed | src/NewsApi.php:186-194 | with `show_unread_only=true` the feed serves exactly the posts it served before whose status is `unread` |
| NewsApi.PublishedPostIsUnread | src/NewsApi.php:186-194 | a newly published post passes the unread-only clause |
| NewsApi.MarkPostAsRead | src/NewsApi.php:217-223 | the in-place hook leaves the store as specified |
| NewsApi.MarkedReadEffect | src/NewsApi.php:217-223 | only a feed request with `mark_as_read=true` writes, setting `read` and the time and nothing else |
| NewsApi.ReadPostLeavesUnread | src/NewsApi.php:217-223 | a post marked read leaves the unread-only feed and the `unread` list and joins the `read` list |
| Php.LinesExactly | src/Admin/RSSStreamMetaBox.php:155 | an entry is kept exactly when it is a non-empty trimmed line of the setting |
| Php.LinesAreClean | src/Admin/BlogScraperMetaBox.php:147 | every entry is non-empty, has no surrounding blanks and no newline |
| Php.IntCastIntToString | src/Admin/StreamMetaBox.php:142-145 | the `(int)` cast reads back the string form of any integer |
| Php.UnserializeOf | src/Admin/StreamMetaBox.php:167 | a text `a:N:{` followed by `N` integer entries and `}` unserializes to the integers those entries hold |
| Php.UnserializeSerializeInts | src/Admin/StreamMetaBox.php:143-144 | `unserialize` of a `serialize`d integer list gives the list back |
| Php.UpperFirst | src/MarkedPostsTable.php:60 | `ucfirst` maps a lower-case ASCII first letter to its upper-case letter, leaves any other first character, and keeps the length and every later character |
| Php.ExplodeImplode | src/Admin/PubMedMetaBox.php:344 | splitting comma-joined, comma-free pieces gives the pieces back |
| Php.TrimIdempotent | src/Admin/RSSStreamMetaBox.php:155 | trimming twice is trimming once |
| Php.CountImplode | src/Admin/GoogleScholarMetaBox.php:292 | joining `n` space-free words with spaces puts in exactly `n - 1` spaces |

## Left out

- The HTTP transport (Guzzle, `wp_remote_get`) and `HTTPClientFactory`. Every remote call is a parameter: a function or a scripted reply per call number.
- The language-model client, `DOMDocument`, SimpleXML, `json_decode`, Readability (`WebNewsScrapper`), `filter_var`, the JSON-schema check and the WordPress sanitizers. These are other libraries; the model takes each as a function parameter.
- Nonces, `current_user_can`, `current_time` and the debug-mode trace. These appear as parameters.
- The float `temperature` and the token limit of the language-model request. They do not affect control flow.
- `error_log`, the `echo` in `sendToGpt`'s `catch`, and the raw-response debug transients. They produce no state the model reads.
- The transients themselves. A fetch's record is returned as a `Report` rather than written to a store.
- PubMed.Details: the `JSON_PRETTY_PRINT` encoding of the metadata is a parameter. The contract states only that the content starts with the abstract and ends with `</pre>`.
- `renderMetaBox`, `addMetaBox`, `register`, `SettingsPage`, `StreamsPage`, `RunnerMetaBox` and the templates. These are HTML and hook wiring.
- The `saveMetaBox` of the RSS, blog, Scholar and PubMed boxes. This is request glue; only `StreamMetaBox::saveMetaBox` is modelled.
- `NewsApi::countPostsByMeta`, which is raw SQL.
- The CLI entry points (`newsapi-plugin.php`, `NewsApiRunnerCommand`).
- The HTML of the title and date columns of `MarkedPostsTable`, and `WP_Query` execution. The category and date clauses are built (`MarkedPostsTable.Query`) but not evaluated against posts. The read-status clauses are evaluated against the meta rows: the ones the code builds (`StatusClausesAsWritten`, used by `Query`) and the corrected ones (`StatusClauses`, used by `IntendedQuery`).
- The defaults WordPress adds to a query (`post_status` `publish`, `post_type` `post`, and for `get_posts` suppressed filters). `MarkedPostsTable.PageOf` takes the posts that match the whole query as given, and `NewsApi.Filtered` describes only the variables the feed hook itself sets.
- MarkedPostsTable.MarkAll: one time value stands for every `current_time('mysql')` call of a bulk action. The code reads the clock once per post, so the timestamps of one action may differ by the time the loop takes.
- Readability's own failures and PHP warnings inside `DOMDocument`. Only the errors the code itself raises or lets escape are modelled: the `ValueError` of `loadHTML` on an empty page and the `TypeError` of `isValidJson` on a reply without string content.
- StreamBox.StoredTags: a `_stream_tags` value that is not a serialized integer list, as on a box never saved, reads as no tags. The code would cast the string with `(array)` into a one-element list.
- Php.SerializeStrings: string lengths count characters, where PHP counts bytes; the two agree on ASCII text.
- RssReader.FeedResult: the Content-Type header is carried but only logged. SimpleXML's `empty()` is modelled for text-only and attribute-only elements, not for elements with mixed children.
- RssStreamBox.NodeField: models the JSON round trip only for text-only elements; an element with attributes or children becomes a map in PHP, which the publisher would encode differently.
- Php.IntCast: models `(int)` and `intval` on decimal strings without exponents. It omits 64-bit overflow and saturation. `is_numeric` likewise omits exponents.
- PHP integers are unbounded in the model. Ids, counts and amounts never wrap.
- NewsApiFetcher.FetchNews: a missing API key option would be a `TypeError` in the constructor; the model starts from a configured service.
- Concurrent runs. The code is sequential.

## Findings

| source | as written | input that shows it | evidently intended | confidence | as-written member | corrected member |
|---|---|---|---|---|---|---|
| src/MarkedPostsTable.php:129-134 | the `unread` status filter matches only posts whose `read_status` is absent or `''` | a post just published by `publishNews`, which stores `read_status = 'unread'` (src/Services/WPNewsPublisherService.php:54), or one marked with `mark_unread` | `unread` also matches the literal `unread` that the plugin itself writes | not executed | MarkedPostsTable.AsWrittenMissesPublishedPosts | MarkedPostsTable.PublishedPostsListedUnread |
| src/MarkedPostsTable.php:162 | `$total_items` counts the posts of a query that still carries `posts_per_page` and `paged`, so it is the size of the current page and `total_pages` is at most 1 | 21 matching posts with the default `per_page` of 20: page 2 holds one post, but the count on page 1 is 20 and one page is announced | `$total_items` counts every matching post, so that every page holding posts is offered | not executed | MarkedPostsTable.AsWrittenHidesSecondPage | MarkedPostsTable.TotalPagesCover |
