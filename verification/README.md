# Snowball crawler: the incremental crawl core in Dafny

This project models the four worker stages of the Snowball crawler. The
crawler collects articles and their comment threads from a stock-discussion
site. The stages talk only through Redis queues and hashes and through blob
storage:

- **news list** (`getter/snowball/newslist.getter.py`) pages through one
  category's article list. It pages down with `max_id` while a continuation
  id is stored, and otherwise asks for what is newer than the stored
  `latest_id` with `since_id`. It queues one article job per list item until
  it meets the running `latest_id`, then writes the `{last_id, latest_id}`
  pair back.
- **news** (`getter/snowball/news.getter.py`) pops article jobs. A due job's
  page is fetched and every `window.SNOWMAN_STATUS` script is cut down to its
  JSON payload. As written, the article blob is rewritten and the rewrite
  announced on the news-update queue for every article of every due job:
  the test meant to skip unchanged articles always holds (see Findings).
  The article id is always queued for the comment stage, and the job goes
  back with a fresh time.
- **comments** (`getter/snowball/comments.getter.py`) pops news ids. It drops
  threads whose stored page has not answered with comments for ten days,
  and puts back threads crawled in the last ten minutes. It crawls the rest from their stored page on until a page yields
  nothing. Each page is filtered against a running maximum of comment ids.
  As written that maximum starts at -1 on every page, because the lookup
  meant to read the thread's stored watermark never finds it (see
  Findings). Each page's state is written to the `snowball:newscomments`
  hash, and the kept comments are appended to the thread's blob.
- **join** (`getter/snowball/schema.getter.py`) walks the news-update queue
  with a cursor that counts up from 0 through the store's list indices. It turns each announced article, with its comments, into a
  schema record. Relative time strings are normalised, markup is stripped and
  related stock codes are collected. Every author is folded into a per-user
  aggregate: the urls of the news they wrote and of the news they commented
  on.

Queues are sequences in delivery order (`queue.dfy`). Hashes and blob
containers are maps. Each stage step is a pure function from the old stores
to the new ones. HTTP answers, decoded JSON/YAML documents, the clock, the
date library and the tokenizer are parameters. Where the code evidently
does not do what it means, the step functions take the choice as a
parameter (`Comments.Lookup`, `News.WriteTest`, `Join.Reading`), so the
code as written and the intended behaviour are both modelled.

Files:

| file | contents |
|---|---|
| `common.dfy` | `Option`, the running maximum `MaxOf`, the decimal rendering of ids |
| `queue.dfy` | the Redis queue: push, pop and the `list(q, i, i)` range read |
| `text.dfy` | Python's `startswith`, `in`, `replace(p, "")` and `<` on strings |
| `markup.dfy` | `re.sub("<.*?>", "", s).replace("&nbsp;", "")` |
| `newslist.dfy` | the list-discovery stage |
| `news.dfy` | the article stage |
| `comments.dfy` | the comment-thread stage |
| `comments_order.dfy` | the id order of what a comment crawl appends |
| `join.dfy` | the join stage |

Notes on the code's behaviour:

- The comment dedup test is strict. A comment whose id equals the running
  maximum is kept again (`Comments.Admits`).
- The comment watermark and `latest_page` are written after every page, not
  once per thread. `latest_page` names the last page that was answered with
  comments. As written, every such page keeps at least its first comment,
  so it also produced comments and the loop goes on past it
  (`Comments.CrawlPagesAsWritten`). With the intended lookup it can be the
  page after the last one that produced kept comments, when all of its
  comments were duplicates (`Comments.PageLoopStates`).
- Expiry does not measure the time since the last new comment. Every page
  answered with comments stamps `lastupdate`, and every crawl starts by
  fetching the stored page again, which still holds the comments it held. So
  a thread that stopped receiving comments is crawled, and as written its
  comments re-appended, for as long as that page answers
  (`Comments.StaleThreadNeverExpires`, `Comments.StaleExample`). It is
  dropped only after its stored page has answered without comments for ten
  days.
- An article the join stage cannot find still gets a schema blob, holding
  the empty string (`Join.ParseNews`).
- The join cursor is saved in the same hash as the schema urls, under the
  field `index` (`Join.GetNewsStep`).

## Model

| member | source | states |
|---|---|---|
| Common.MaxOfUpper | getter/snowball/comments.getter.py:75 | the running `max` bounds every id it has seen |
| Common.MaxOfAttained | getter/snowball/newslist.getter.py:69 | the running `max` is the seed or one of the ids it has seen |
| Common.MaxOfCons | getter/snowball/newslist.getter.py:58-69 | consuming the head first gives the same maximum as the fold, with the head absorbed into the seed |
| Common.IntToStringRoundTrip | getter/snowball/news.getter.py:48 | the decimal rendering of `"%d" % newsid` reads back as the id it renders |
| Common.IntToStringInjective | getter/snowball/comments.getter.py:100 | distinct ids render to distinct texts, so distinct threads and articles get distinct hash keys and blob names |
| Queue.Push | lib/fredis.py:169-187 | a push keeps every queued item in place and adds the new one behind them |
| Queue.Pop | lib/fredis.py:189-203 | a pop reports the empty queue exactly when it is empty, and otherwise splits off the head and keeps the rest |
| Queue.At | lib/fredis.py:205-222 | the range read yields an item exactly for indices in `-len .. len-1` |
| Queue.AtAfterPush | lib/fredis.py:169-222 | a push lands at list index 0 and shifts every item one index further |
| Queue.AtOldestIsNextPop | lib/fredis.py:189-222 | list index -1 is the item the next pop delivers |
| Queue.PushThenPop | lib/fredis.py:169-203 | first in, first out: a push does not change what the next pop delivers |
| Queue.PopThenRequeue | getter/snowball/comments.getter.py:97-151 | popping an id and pushing it back loses no queued item |
| Text.ContainsAt | getter/snowball/schema.getter.py:84-92 | Python's `p in s` holds iff `p` occurs at some position of `s` |
| Text.RemoveAllLength | getter/snowball/schema.getter.py:85-93 | `s.replace(p, "")` leaves a string without `p` alone and is at least one `p` shorter otherwise |
| Text.RemoveAllFirst | getter/snowball/schema.getter.py:85-93 | `replace(p, "")` removes the leftmost occurrence of `p` and goes on after it: the text before it is kept and the rest is cleaned the same way |
| Text.StrLessIrreflexive | getter/snowball/schema.getter.py:229 | no string compares below itself |
| Text.StrLessTransitive | getter/snowball/schema.getter.py:229 | Python's string `<` is transitive |
| Text.StrLessTotal | getter/snowball/schema.getter.py:229 | any two distinct strings are ordered one way or the other |
| Markup.CloseIn | getter/snowball/schema.getter.py:142 | a tag closes at the first `>`, and never across a newline |
| Markup.StripTags | getter/snowball/schema.getter.py:142 | tag removal never lengthens the text |
| Markup.CleanText | getter/snowball/schema.getter.py:142 | cleaning never lengthens the text, and a text with no `<` and no `&nbsp;` is kept as is |
| Markup.NoOpenerUnchanged | getter/snowball/schema.getter.py:222-223 | a text without `<` has no tag to remove |
| Markup.StripLeavesNoTag | getter/snowball/schema.getter.py:142 | after tag removal no `<` is left that a `>` closes on the same line |
| Markup.NoTagUnchanged | getter/snowball/schema.getter.py:142 | a text without a closable tag is left unchanged |
| Markup.StripIdempotent | getter/snowball/schema.getter.py:142 | stripping tags twice is the same as stripping once |
| Comments.Kept | getter/snowball/comments.getter.py:65-75 | the filter never keeps more comments than the page holds |
| Comments.KeptStep | getter/snowball/comments.getter.py:65-75 | one more comment is kept iff it passes the test against the running maximum, and it raises that maximum by one `max` step |
| Comments.KeptIfAdmitted | getter/snowball/comments.getter.py:68-74 | every comment not strictly below the maximum of the seed and all earlier ids is appended |
| Comments.KeptOnlyIfAdmitted | getter/snowball/comments.getter.py:68-74 | every appended comment passed that test at its position |
| Comments.KeptMember | getter/snowball/comments.getter.py:68-74 | a comment is appended iff one of its occurrences passes the test |
| Comments.KeptFromPage | getter/snowball/comments.getter.py:65-74 | nothing is appended that the page did not contain |
| Comments.KeptMax | getter/snowball/comments.getter.py:68-79 | the saved watermark equals the maximum of the seed and the ids actually appended |
| Comments.KeptSorted | getter/snowball/comments.getter.py:68-75 | with non-negative ids, the appended comments come in non-decreasing id order |
| Comments.KeptAboveSeed | getter/snowball/comments.getter.py:68-69 | against a real watermark, no comment below it is appended |
| Comments.FilterPage | getter/snowball/comments.getter.py:65-75 | the one-pass loop with a running `latestid` keeps exactly the comments of the position-wise filter, and its final `latestid` is the maximum of the seed and all page ids |
| Comments.FetchPage | getter/snowball/comments.getter.py:43-90 | a connection error, a non-200 status or an empty page yields nothing and saves nothing; otherwise the state saved names this page, the server's count, the crawl time and a watermark no lower than the seed |
| Comments.FetchPageWatermark | getter/snowball/comments.getter.py:65-85 | the saved watermark is the maximum of the seed and the kept ids, and only comments of the answer are kept |
| Comments.FetchesSaveTheirPage | getter/snowball/comments.getter.py:60-85 | every page that delivers comments saves a record, and each saved record names its own page |
| Comments.CrawlPages | getter/snowball/comments.getter.py:122-134 | whatever the lookup, the page counter ends one past the last page that produced comments, with at most one chunk per answer |
| Comments.CrawlPagesStamps | getter/snowball/comments.getter.py:77-85 | whatever the lookup, a crawl whose first page answers with comments leaves the thread's `lastupdate` at the crawl time, whether or not a comment was new |
| Comments.CrawlPagesOthers | getter/snowball/comments.getter.py:55-85 | whatever the lookup, a crawl writes no other thread's state and never removes the thread's own |
| Comments.CrawlPagesAsWritten | getter/snowball/comments.getter.py:55-75 | as written, every page is filtered against -1: the loop goes on through every page answered with comments, each adding its own comments filtered from -1, and stops at the first answer without comments |
| Comments.PageLoop | getter/snowball/comments.getter.py:122-134 | the page counter ends one past the last page that produced comments, and there is at most one chunk per answer |
| Comments.PageLoopChunks | getter/snowball/comments.getter.py:126-134 | the chunks are those of the answers before the first empty one, and that empty one ends the loop |
| Comments.PageLoopOthers | getter/snowball/comments.getter.py:78-85 | the loop writes no other thread's state and never removes the thread's own |
| Comments.PageLoopStates | getter/snowball/comments.getter.py:78-85 | after the loop, `latest_page` is the last page that produced comments or the one after it; a loop without chunks leaves the state alone or records its first page |
| Comments.CrawlPagesByFetches | getter/snowball/comments.getter.py:122-134 | with the intended lookup, re-reading the stored watermark before every page is the same as threading each page's saved watermark into the next |
| CommentsOrder.PageChunkBounds | getter/snowball/comments.getter.py:65-79 | a page's kept comments are sorted, not below its seed, and not above the watermark it saves |
| CommentsOrder.CrawlPagesInOrder | getter/snowball/comments.getter.py:122-142 | with the intended lookup, what a whole crawl appends to a thread's blob is in non-decreasing id order and never below the stored watermark |
| CommentsOrder.CrawlAppendsInOrder | getter/snowball/comments.getter.py:122-142 | with the intended lookup, a crawl keeps the thread's blob as a prefix and appends only comments in non-decreasing id order at or above the stored watermark |
| Comments.StepExpires | getter/snowball/comments.getter.py:110-116 | whatever the lookup, an id idle for more than ten days is dropped with nothing fetched, written or announced |
| Comments.Decide | getter/snowball/comments.getter.py:101-122 | a thread is crawled iff it was never stamped or its last crawl that saw comments lies between ten minutes and ten days back, and then from its stored page (page 1 for a new thread); expiry and backoff are exactly the other two cases |
| Comments.CommentsStep | getter/snowball/comments.getter.py:96-151 | whatever the lookup, a cycle never grows the comments queue, only appends to blobs, and announces at most one update |
| Comments.CrawlThread | getter/snowball/comments.getter.py:122-151 | whatever the lookup, a crawl puts the id back once, only appends to blobs, and announces at most one update |
| Comments.StepBacksOff | getter/snowball/comments.getter.py:110-120 | whatever the lookup, an id crawled less than ten minutes ago only goes back to the tail |
| Comments.StepCrawls | getter/snowball/comments.getter.py:99-122 | a due id is crawled from its stored page, or from page 1 when it has no state |
| Comments.CrawlThreadSpec | getter/snowball/comments.getter.py:122-151 | whatever the lookup, the id goes back to the tail; an update is announced and the blob grows by exactly the kept comments of the crawl iff some page produced comments; no other thread's blob or state changes |
| Comments.StepKeepsThread | getter/snowball/comments.getter.py:97-151 | whatever the lookup, unless it expired, the popped id is still queued after the cycle |
| Comments.StaleThreadNeverExpires | getter/snowball/comments.getter.py:81-116 | whatever the lookup, a due thread whose stored page still answers with comments is stamped with the crawl time and is not expired at any time in the next ten days |
| Comments.StaleExample | getter/snowball/comments.getter.py:81-151 | whatever the lookup, a thread stamped nine days ago whose page still holds only its old comment 5 gets 5 appended again, is announced and is stamped anew |
| Comments.Interrupt | getter/snowball/comments.getter.py:155-156 | the interrupt handler adds the in-flight id to the queue once and changes no other store |
| Comments.InterruptKeepsThread | getter/snowball/comments.getter.py:97-156 | an interrupt right after a pop loses no thread |
| Comments.InterruptAfterCycle | getter/snowball/comments.getter.py:97-156 | whatever the lookup, an interrupt after a cycle that did not expire its id, before the next pop, queues that id a second time |
| Comments.InterruptedCrawl | getter/snowball/comments.getter.py:122-156 | an interrupt inside the crawl: the id goes back, no blob or update is written, no other thread's state changes, and a thread whose first page answered with comments is already stamped |
| Comments.InterruptedCrawlLosesPage | getter/snowball/comments.getter.py:77-156 | whatever the lookup, an interrupt while page 3 of a new thread is fetched leaves its record naming page 2 with nothing appended, so the next crawl starts at page 2 and comment 1 of page 1 is never appended |
| Comments.SeedAsWrittenIgnoresWatermark | getter/snowball/comments.getter.py:55-56 | as written, the lookup yields -1 whenever the hash is keyed by news ids |
| Comments.SeedForDedups | getter/snowball/comments.getter.py:55-69 | with the intended lookup, a re-crawled page appends nothing below the stored watermark |
| Comments.RecrawlDuplicates | getter/snowball/comments.getter.py:55-75 | on one stored thread, the lookup as written re-appends an old comment that the intended lookup skips |
| Comments.RecrawlCycle | getter/snowball/comments.getter.py:55-151 | on a thread crawled an hour ago up to comment 9, a cycle as written appends the old comment 5 with the new 10 and announces the thread, while with the intended lookup it appends and announces nothing |
| Comments.ExampleFetches | getter/snowball/comments.getter.py:43-90 | three concrete answers give two saving pages, the second filtered against the first one's watermark, then an empty page |
| Comments.ExamplePageLoop | getter/snowball/comments.getter.py:122-134 | on those outcomes the loop collects two chunks, ends at page 3 and stores page 2 |
| Comments.ExampleCrawl | getter/snowball/comments.getter.py:97-151 | with the intended lookup, a first crawl of a new thread creates its blob with both chunks, announces one update and requeues the id |
| NewsList.GetFieldAfterWrite | getter/snowball/newslist.getter.py:23-26 | reading back a written field gives its value, unless that value is 0, which Python's `or` replaces by the default |
| NewsList.GetField | getter/snowball/newslist.getter.py:23-26 | the result is the default or the category's stored field, and 0 only when the default is 0 |
| NewsList.ScanList | getter/snowball/newslist.getter.py:58-79 | job k is the job for item k; the scan stops early iff it met the stop id; `last_id` becomes `next_max_id` once an item was queued in `max_id` mode |
| NewsList.ScanLatest | getter/snowball/newslist.getter.py:58-72 | the new `latest_id` is the maximum of the stored one and the queued ids |
| NewsList.ScanStops | getter/snowball/newslist.getter.py:58-69 | an item is queued iff its id differs from the running maximum of `latest_id`; the stop item equals it |
| NewsList.FailureChangesNothing | getter/snowball/newslist.getter.py:52-97 | a 403, another non-200 status or a connection error writes and queues nothing and does not signal the stop |
| NewsList.SuccessQueuesJobs | getter/snowball/newslist.getter.py:55-79 | a 200 answer appends one job per item before the stop, in list order, behind the existing queue; the stop is signalled iff an item was left unqueued |
| NewsList.SuccessWritesRecord | getter/snowball/newslist.getter.py:69-92 | a 200 answer writes the category's record and no other, with the `last_id` rule and the maximum as `latest_id` |
| NewsList.SleepOnlyAtStopId | getter/snowball/newslist.getter.py:61-64 | the crawler sleeps only after a 200 answer in which some item carried the running `latest_id` |
| NewsList.LatestIdNonDecreasing | getter/snowball/newslist.getter.py:38-92 | the `latest_id` the next cycle reads never goes down |
| NewsList.RequestDirection | getter/snowball/newslist.getter.py:38-48 | the request's paging direction follows the stored `last_id` |
| NewsList.GetNewsList | getter/snowball/newslist.getter.py:38-97 | a call only appends to the article queue, writes no other category's record, reaches the stop id only on a 200 answer, and never pages both ways |
| News.Payload | getter/snowball/news.getter.py:42 | `data[24:-53]` has length `len - 77`, clamped at 0 |
| News.PayloadOfScript | getter/snowball/news.getter.py:36-43 | a status script, made of the marker, ` = `, the JSON and a 53-character tail, is handled and cut back to exactly the JSON |
| News.NewsProcess | getter/snowball/news.getter.py:40-81 | under either test, processing succeeds iff the payload decodes, and then queues the article id for comments, keeps every blob, and announces at most one update |
| News.ProcessSpec | getter/snowball/news.getter.py:40-81 | under either test, the article id is always queued for comments; the blob is rewritten with its metadata and the update announced exactly when that test holds; nothing else changes |
| News.ProcessAsWrittenAnnounces | getter/snowball/news.getter.py:50-81 | as written, every decoded article is rewritten with fresh metadata and announced, whatever its blob holds |
| News.AsWrittenReannounces | getter/snowball/news.getter.py:50-81 | as written, processing the same article twice announces it twice |
| News.ProcessIdempotent | getter/snowball/news.getter.py:50-81 | with the intended test, processing the same article again only queues it for comments once more |
| News.AsWrittenAlwaysWrites | getter/snowball/news.getter.py:57 | as written, the write test holds for every blob |
| News.AsWrittenRewritesUnchanged | getter/snowball/news.getter.py:50-69 | as written, a blob this stage wrote for the same edit is rewritten, where the corrected test skips it |
| News.StatusScripts | getter/snowball/news.getter.py:36-38 | the handled text nodes are status scripts, and there are no more of them than text nodes |
| News.StatusScriptsAppend | getter/snowball/news.getter.py:36-38 | the scripts handled in two runs of text nodes are those of the first run followed by those of the second |
| News.StatusScriptsOne | getter/snowball/news.getter.py:36-38 | a single text node is handled iff it starts with the marker |
| News.StatusScriptsComplete | getter/snowball/news.getter.py:36-38 | no status script of the page is skipped |
| News.Feed | getter/snowball/news.getter.py:99-101 | feeding keeps the job queue and category, only appends to the comments queue, and without a crash appends one id per status script |
| News.UpdateNewsStep | getter/snowball/news.getter.py:90-113 | a step keeps the number of jobs, only appends to the comments queue, and crashes only while feeding a 200 answer |
| News.DueJobRequeued | getter/snowball/news.getter.py:94-111 | a due job goes back exactly once, stamped with the current time, whatever the fetch did |
| News.NotDueJobRequeued | getter/snowball/news.getter.py:112-113 | a job that is not due goes back unchanged and nothing else happens |
| News.CategoryOnSuccess | getter/snowball/news.getter.py:99-107 | the processing category is the job's on a 200 answer; without one only the job queue moves |
| News.EveryArticleReachesComments | getter/snowball/news.getter.py:80-101 | without a crash, every status script on the page queues one article id for comments |
| Join.ValidDate | getter/snowball/schema.getter.py:79-96 | a well-formed date is kept; a failure happens only on a minutes or seconds marker without a "today" marker |
| Join.ParseUser | getter/snowball/schema.getter.py:157-199 | both stored sets survive; the url joins the comment set iff the kind is "c" and the news set iff it is "n"; no other author changes |
| Join.ExtendsTransitive | getter/snowball/schema.getter.py:165-178 | aggregates that only grow keep growing over several writes |
| Join.ParseUserIdempotent | getter/snowball/schema.getter.py:162-178 | recording the same url twice is recording it once |
| Join.ParseUserCommutes | getter/snowball/schema.getter.py:162-178 | an aggregate does not depend on the order in which two urls arrive |
| Join.LatestUpper | getter/snowball/schema.getter.py:229 | no comment time is later than the latest one |
| Join.LatestAttained | getter/snowball/schema.getter.py:216-229 | the latest time is "" or one of the comment times |
| Join.ParseDocs | getter/snowball/schema.getter.py:215-244 | there are no more comment records than documents |
| Join.ParseDocsComments | getter/snowball/schema.getter.py:217-228 | the records are exactly the non-null documents, in order, with cleaned text and normalised time |
| Join.ParseDocsLatest | getter/snowball/schema.getter.py:216-229 | the latest time is the running string maximum of the records' times |
| Join.ParseDocsExtends | getter/snowball/schema.getter.py:238-240 | folding commenters in never shrinks an aggregate |
| Join.ParseDocsFails | getter/snowball/schema.getter.py:217-228 | the comment stream fails iff some non-null document has a time string that `int()` rejects |
| Join.ParseCommentsLatest | getter/snowball/schema.getter.py:203-246 | no comment blob gives no comments and time ""; otherwise the latest time bounds every comment time and is one of them |
| Join.ParseComments | getter/snowball/schema.getter.py:203-246 | the comment stream fails iff some non-null document has a time that `int()` rejects, and never shrinks an aggregate |
| Join.CommentersRecorded | getter/snowball/schema.getter.py:238-240 | every commenter's aggregate lists this news as commented on |
| Join.RelatedCodes | getter/snowball/schema.getter.py:48-58 | a code is related iff some token of the text maps to it in the company dictionary |
| Join.ActiveWindow | getter/snowball/schema.getter.py:135-140 | a week when there is no comment time; otherwise a window exists only if both times parse |
| Join.ParseNewsSpec | getter/snowball/schema.getter.py:100-153 | an absent article gives the empty schema; otherwise the stored text is the cleaned text, the author lists the news, every commenter lists it, no aggregate shrinks, and no comments means the default window |
| Join.ParseNews | getter/snowball/schema.getter.py:100-153 | only a present article can fail; the only text blob written is the article's own; a present article gets a schema with its id, author and title |
| Join.BeforeDot | getter/snowball/schema.getter.py:257 | `split(".")[0]` is never longer than the name |
| Join.BeforeDotPrefix | getter/snowball/schema.getter.py:257 | the part before the first dot is recovered exactly |
| Join.BlobNameRoundTrip | getter/snowball/schema.getter.py:257 | the id text is recovered from the `<id>.json` name the article stage writes |
| Join.Read | getter/snowball/schema.getter.py:253 | a read yields only queued items, and with the push-order reading exactly at indices 0 .. len-1 |
| Join.GetNewsStep | getter/snowball/schema.getter.py:249-275 | under either reading, the queue is only read, stored schemas are only added or replaced, the cursor never moves back, a crash needs an item and no connection fault, and an advance stores exactly that item's schema |
| Join.GetNewsCursor | getter/snowball/schema.getter.py:249-275 | under either reading, the queue is only read; past its end nothing happens; the index moves by one iff the article was joined; the saved index always equals the index |
| Join.GetNewsStoresSchema | getter/snowball/schema.getter.py:253-267 | a joined article's schema and schema url are stored under its blob name, and the index advances |
| Join.JoinsAnnouncedArticle | getter/snowball/schema.getter.py:253-264 | the update the article stage announces for an id is joined from that id's source document |
| Join.CursorAfterAnnouncement | getter/snowball/schema.getter.py:253 | as written, the newest announcement sits at index 0, and a later one moves it to index 1 |
| Join.CaughtUpRejoinsOldest | getter/snowball/schema.getter.py:249-267 | as written, a cursor that has read every item reads the oldest item after the next announcement, while the new one sits at index 0 |
| Join.CursorRereadsExample | getter/snowball/schema.getter.py:249-267 | as written, after articles 1 and 2 were joined, announcing 3 makes the cursor join 1 again, and counting up never reaches 3 |
| Join.FromOldestStable | getter/snowball/schema.getter.py:249-267 | with the push-order reading, an index keeps naming the same item after later announcements, and a caught-up cursor reads the next one |
| Join.CaughtUpJoinsNext | getter/snowball/schema.getter.py:249-267 | with the push-order reading, a caught-up cursor joins the next announced article and stores its schema |

## Left out

- Redis atomicity: the Lua scripts behind the queue and hash helpers are not part of this model. They are taken to be atomic, with push, pop and range read acting at the ends their names (lpush, rpop, lrange) give.
- Hash record wrappers: the `t`, `tls` and `tlp` fields are not modelled. They are bookkeeping nothing in the core reads.
- Concurrency: several workers sharing the stores are modelled one step at a time.
- Blob storage: modelled as maps. Access-signature urls are reduced to `container/name`. `exists`, `create` and `append` are map operations.
- Logging, configuration and the `requestcount`/`maxcount` test exit of the news-list stage: not modelled, since they have no effect on the stores.
- HTTP, HTML parsing, `json.loads` and the YAML stream: the decoded answer or document is a parameter. A `json.loads` failure in the article stage is the `None` of `decode`.
- The jieba tokenizer and the pickled company dictionary (`company_dict`): the tokenizer is a parameter and the dictionary a map.
- `created_at`/`edited_at` formatting in the join stage, and the other pass-through fields of the schema and user records: they are copied unchanged and are not modelled.
- A null `edited_at` or `created_at`: timestamps are plain integers.
- Clock readings: whole seconds or milliseconds passed in as parameters, not floats.
- Writes the join stage has already made when an error ends an article (the text blob, user aggregates): the model applies an article's writes only when the whole article succeeds.
- Join.ValidDate: `time.strptime` acceptance, `strftime` and the minute/second arithmetic are parameters of `DateContext`, so the produced date strings are not computed.
- Join.RelatedCodes: a set. The list order `list(code)` produces is not modelled.
- Comments.CrawlPages: the page answers are a finite sequence. A request beyond them ends the loop as an empty page would.
- Comments.Decide: the model reads the thread's full stored record. `hash.get(name, "latest_id")` in `lib/fredis.py` is documented as a projection onto the one field; read that way, line 104 of `comments.getter.py` raises a `KeyError` for every thread crawled before, ending the worker after the pop. The Lua script that decides it is not part of this model.
- Comments.Interrupt: the function is the handler alone. Where the interrupt lands is modelled by three members: right after a pop (`InterruptKeepsThread`), after the re-push that ends a cycle, where the id is queued twice (`InterruptAfterCycle`), and inside a crawl, where the pages already answered have written `latest_page`, watermark and `lastupdate` but their comments never reach the blob and no update is pushed, so the next crawl starts past them (`InterruptedCrawl`, `InterruptedCrawlLosesPage`). An interrupt inside one `updatecomments` call is not a separate case: before its write at line 85 it acts as `InterruptedCrawl` without that page, after it as `InterruptedCrawl` with that page among the answered ones.
- Comments.StepKeepsThread: the comment page answers are taken to decode, with `comments`, `id` and `count` present. A `json.loads` failure or a missing key is not caught in `updatecomments`, so it ends the worker after the pop and the popped id is lost; that crash is not modelled.
- CommentsOrder.CrawlPagesInOrder: stated for the intended lookup only. As written, a re-crawl appends comments below the stored watermark (`Comments.RecrawlCycle`), so no id order across crawls holds for the code as written; within one page the order holds for any seed (`CommentsOrder.PageChunkBounds`).
- Comments.CrawlPagesByFetches: stated for the intended lookup only; the crawl as written is described by `Comments.CrawlPagesAsWritten`.
- Comments.SeedFor: a stored watermark of 0 is used as 0. The source's `... or -1` idiom would turn it into -1; the two filter non-negative ids alike.
- The idle sleeps of every stage: a step on an empty queue (or on a popped id of 0, which is falsy) changes nothing else, and the wait itself is not modelled.
- News.NewsProcess: the metadata values are kept as integers, where the source stores their string forms.

## Findings

| source | as written | input that shows it | evidently intended | confidence | as-written member | corrected member |
|---|---|---|---|---|---|---|
| getter/snowball/comments.getter.py:55-56 | `newsid in info and info.get("latest_id", -1) or -1` looks up a thread literally named "latest_id", so every page starts from -1 | thread 42 crawled an hour ago up to comment 9 on page 1; pages [5], [10], []: as written 5 is appended again with 10 and the thread announced | the thread's own stored `latest_id` | high, not executed | Comments.RecrawlCycle | Comments.SeedForDedups |
| getter/snowball/news.getter.py:57 | `previouse_metadata != newsedit_timestamp` compares the metadata dict with an int, which is always unequal | any article whose blob already exists with metadata: it is rewritten and announced again | compare the stored edit time with the article's `edited_at` | high, not executed | News.AsWrittenReannounces | News.ProcessIdempotent |
| getter/snowball/schema.getter.py:253 | `list(queue, index, index)` with `index` counting up from 0 reads from the end new items are pushed to, so every push shifts what an index names | announcements 1, 2 joined; announcing 3 makes the cursor join 1 again and never reach 3 | read the queue in push order, so each announcement is joined once | medium, not executed | Join.CaughtUpRejoinsOldest | Join.CaughtUpJoinsNext |

The stage functions take the choice as a parameter: `Comments.Lookup`
(`AsWritten` reads the entry keyed "latest_id", `Intended` the thread's own
record), `News.WriteTest` (`AsWritten` is the dict-against-int comparison,
`Intended` the edit-time test) and `Join.Reading` (`FromNewest` is the store's
list index, `FromOldest` push order). The lemmas marked "whatever the
lookup", "under either test" or "under either reading" hold for both; the
others say which one they are about. The third row rests on the list
helpers acting at the ends their names give (lpush, lrange), which the
store's scripts decide.
