/** The article job stage (`getter/snowball/news.getter.py`).

    A worker pops an article job; when the job is due it fetches the article
    page, hands every text node that starts with the `window.SNOWMAN_STATUS`
    marker to `news_process`, and puts the job back with a fresh timestamp.
    `news_process` cuts the JSON payload out of the script text, decides
    whether to rewrite the article blob, announces a rewrite on the update
    queue, and always queues the article for the comment stage. The write
    test as written holds for every article, so every due job rewrites and
    announces its articles; the stage functions take the test as a
    parameter, so both that and the evidently intended "new or edited" test
    are modelled.

    JSON decoding is a parameter `decode`; `None` stands for the exception
    `json.loads` raises, which nothing in the stage catches. */
module News {
  import opened Common
  import opened Text
  import Queue
  import opened NewsList

  const Marker: string := "window.SNOWMAN_STATUS"
  /** `news_process` drops this many characters at the front ... */
  const PrefixLength: int := 24
  /** ... and this many at the end of the script text. */
  const SuffixLength: int := 53

  /** The fields of the article JSON the stage reads. */
  datatype ArticleInfo = ArticleInfo(id: int, userId: int, createdAt: int, editedAt: int)

  /** The metadata written with an article blob (stored as strings). */
  datatype ArticleMeta = ArticleMeta(createTime: int, editTime: int, newsId: int, authorId: int,
                                     category: int, crawlTime: int)

  /** An article blob; `meta == None` is a blob without metadata. */
  datatype ArticleBlob = ArticleBlob(content: string, meta: Option<ArticleMeta>)

  /** The item pushed to the news-update queue for the join stage. */
  datatype UpdateItem = UpdateItem(container: string, blob: string, url: string)

  datatype PageFetch =
    | ConnectionError
    | Response(status: int, texts: seq<string>)

  datatype NewsWorld = NewsWorld(
    jobs: seq<Job>,                   // the news queue
    updates: seq<UpdateItem>,         // the news-update queue
    comments: seq<int>,               // the comments queue
    blobs: map<int, ArticleBlob>,     // the `<id>.json` article blobs
    category: int                     // category of the article being processed
  )

  /** `SnowballNewsParser.handle_data`: which text nodes are processed. */
  predicate IsStatusScript(text: string) {
    StartsWith(text, Marker)
  }

  /** `data[24:-53]` with Python's slice clamping: too short a text gives "". */
  function Payload(data: string): (r: string)
    ensures |r| == if |data| > PrefixLength + SuffixLength then |data| - PrefixLength - SuffixLength else 0
  {
    if |data| > PrefixLength + SuffixLength then data[PrefixLength..|data| - SuffixLength] else ""
  }

  /** The cut recovers the JSON from the script text the site emits: the
      marker, ` = `, the JSON, and a 53-character tail. */
  lemma PayloadOfScript(json: string, tail: string)
    requires |tail| == SuffixLength
    ensures IsStatusScript(Marker + " = " + json + tail)
    ensures Payload(Marker + " = " + json + tail) == json
  {
    var data := Marker + " = " + json + tail;
    assert |Marker + " = "| == PrefixLength;
    assert data[..|Marker|] == Marker;
    if |json| == 0 {
      assert |data| == PrefixLength + SuffixLength;
    } else {
      assert data[PrefixLength..|data| - SuffixLength] == json;
    }
  }

  function BlobName(id: int): string {
    IntToString(id) + ".json"
  }

  /** The blob URL `writeText` returns; its access-signature part is not modelled. */
  function BlobUrl(container: string, name: string): string {
    container + "/" + name
  }

  /** The write-or-skip test as the code means it: write when there is no
      blob, when it carries no metadata, or when its recorded edit time differs
      from the article's. */
  function ShouldWrite(existing: Option<ArticleBlob>, editedAt: int): bool {
    existing.None? || existing.value.meta.None? || existing.value.meta.value.editTime != editedAt
  }

  /** Python's `previouse_metadata != newsedit_timestamp` compares the
      metadata dictionary with the integer edit timestamp; a dict never equals
      an int. */
  function MetadataEqualsTimestamp(meta: ArticleMeta, editedAt: int): bool {
    false
  }

  /** The write-or-skip test as written:
      `not previouse_metadata or previouse_metadata != newsedit_timestamp`. */
  function ShouldWriteAsWritten(existing: Option<ArticleBlob>, editedAt: int): bool {
    existing.None? || existing.value.meta.None? || !MetadataEqualsTimestamp(existing.value.meta.value, editedAt)
  }

  /** Which write-or-skip test a run uses: the one the source writes, or the
      one it evidently means. */
  datatype WriteTest = AsWritten | Intended

  function Wants(test: WriteTest, existing: Option<ArticleBlob>, editedAt: int): bool {
    match test
    case AsWritten => ShouldWriteAsWritten(existing, editedAt)
    case Intended => ShouldWrite(existing, editedAt)
  }

  /** `news_process` for one status script. `crawlTime` is the millisecond
      clock reading stored as `crawltime`; `None` is an undecodable payload. */
  function NewsProcess(test: WriteTest, w: NewsWorld, data: string, decode: string -> Option<ArticleInfo>,
                       container: string, crawlTime: int): (r: Option<NewsWorld>)
    ensures r.Some? <==> decode(Payload(data)).Some?
    ensures r.Some? ==>
              && r.value.comments == w.comments + [decode(Payload(data)).value.id]
              && r.value.jobs == w.jobs && r.value.category == w.category
              && w.blobs.Keys <= r.value.blobs.Keys
              && |w.updates| <= |r.value.updates| <= |w.updates| + 1
              && r.value.updates[..|w.updates|] == w.updates
  {
    var payload := Payload(data);
    match decode(payload)
    case None => None
    case Some(a) =>
      var existing := if a.id in w.blobs then Some(w.blobs[a.id]) else None;
      var written :=
        if Wants(test, existing, a.editedAt) then
          var meta := ArticleMeta(a.createdAt, a.editedAt, a.id, a.userId, w.category, crawlTime);
          var name := BlobName(a.id);
          w.(blobs := w.blobs[a.id := ArticleBlob(payload, Some(meta))],
             updates := Queue.Push(w.updates, UpdateItem(container, name, BlobUrl(container, name))))
        else w;
      Some(written.(comments := Queue.Push(written.comments, a.id)))
  }

  /** Processing an article under either test: the article id is always
      queued for the comment stage; the blob is rewritten and an update item
      announced exactly when the test holds; nothing else changes. */
  lemma ProcessSpec(test: WriteTest, w: NewsWorld, data: string, decode: string -> Option<ArticleInfo>,
                    container: string, crawlTime: int)
    requires decode(Payload(data)).Some?
    ensures var a := decode(Payload(data)).value;
            var existing := if a.id in w.blobs then Some(w.blobs[a.id]) else None;
            var w' := NewsProcess(test, w, data, decode, container, crawlTime).value;
            && w'.comments == w.comments + [a.id]
            && w'.jobs == w.jobs && w'.category == w.category
            && w'.blobs - {a.id} == w.blobs - {a.id}
            && (Wants(test, existing, a.editedAt) ==>
                  && w'.blobs[a.id].content == Payload(data)
                  && w'.blobs[a.id].meta == Some(ArticleMeta(a.createdAt, a.editedAt, a.id, a.userId, w.category, crawlTime))
                  && w'.updates == w.updates + [UpdateItem(container, BlobName(a.id), BlobUrl(container, BlobName(a.id)))])
            && (!Wants(test, existing, a.editedAt) ==> w'.blobs == w.blobs && w'.updates == w.updates)
  {
  }

  /** As written, every decoded article is rewritten with fresh metadata and
      announced to the join stage, whatever its blob already holds. */
  lemma ProcessAsWrittenAnnounces(w: NewsWorld, data: string, decode: string -> Option<ArticleInfo>,
                                  container: string, crawlTime: int)
    requires decode(Payload(data)).Some?
    ensures var a := decode(Payload(data)).value;
            var w' := NewsProcess(AsWritten, w, data, decode, container, crawlTime).value;
            && w'.blobs == w.blobs[a.id := ArticleBlob(Payload(data),
                                     Some(ArticleMeta(a.createdAt, a.editedAt, a.id, a.userId, w.category, crawlTime)))]
            && w'.updates == w.updates + [UpdateItem(container, BlobName(a.id), BlobUrl(container, BlobName(a.id)))]
  {
  }

  /** So, as written, processing the same article twice announces it twice:
      the join stage is asked to re-join an article that did not change. */
  lemma AsWrittenReannounces(w: NewsWorld, data: string, decode: string -> Option<ArticleInfo>,
                             container: string, crawlTime: int, crawlTime': int)
    requires decode(Payload(data)).Some?
    ensures var a := decode(Payload(data)).value;
            var item := UpdateItem(container, BlobName(a.id), BlobUrl(container, BlobName(a.id)));
            var w1 := NewsProcess(AsWritten, w, data, decode, container, crawlTime).value;
            var w2 := NewsProcess(AsWritten, w1, data, decode, container, crawlTime').value;
            w2.updates == w.updates + [item, item]
  {
  }

  /** With the intended test, processing the same article again is a no-op
      apart from queueing it for comments once more. */
  lemma ProcessIdempotent(w: NewsWorld, data: string, decode: string -> Option<ArticleInfo>,
                          container: string, crawlTime: int, crawlTime': int)
    requires decode(Payload(data)).Some?
    ensures var w1 := NewsProcess(Intended, w, data, decode, container, crawlTime).value;
            var w2 := NewsProcess(Intended, w1, data, decode, container, crawlTime').value;
            && w2.blobs == w1.blobs
            && w2.updates == w1.updates
            && w2.comments == w1.comments + [decode(Payload(data)).value.id]
  {
  }

  /** As written, every existing blob with metadata is rewritten ... */
  lemma AsWrittenAlwaysWrites(existing: Option<ArticleBlob>, editedAt: int)
    ensures ShouldWriteAsWritten(existing, editedAt)
  {
  }

  /** ... including one this stage has just written for the same edit:
      re-crawling an unchanged article rewrites its blob and announces it
      again, where the intended test skips it. */
  lemma AsWrittenRewritesUnchanged(payload: string, a: ArticleInfo, category: int, crawlTime: int)
    ensures var existing := Some(ArticleBlob(payload, Some(ArticleMeta(a.createdAt, a.editedAt, a.id, a.userId,
                                                                       category, crawlTime))));
            ShouldWriteAsWritten(existing, a.editedAt) && !ShouldWrite(existing, a.editedAt)
  {
  }

  /** The marker texts of a page, in document order. */
  function StatusScripts(texts: seq<string>): (r: seq<string>)
    ensures |r| <= |texts|
    ensures forall i :: 0 <= i < |r| ==> IsStatusScript(r[i])
    decreases |texts|
  {
    if |texts| == 0 then []
    else if IsStatusScript(texts[0]) then [texts[0]] + StatusScripts(texts[1..])
    else StatusScripts(texts[1..])
  }

  /** Feeding two runs of text nodes one after the other handles the status
      scripts of the first run, then those of the second ... */
  lemma {:induction false} StatusScriptsAppend(a: seq<string>, b: seq<string>)
    ensures StatusScripts(a + b) == StatusScripts(a) + StatusScripts(b)
    decreases |a|
  {
    if |a| == 0 {
      assert a + b == b;
    } else {
      assert (a + b)[0] == a[0] && (a + b)[1..] == a[1..] + b;
      StatusScriptsAppend(a[1..], b);
    }
  }

  /** ... and one text node is handled iff it is a status script, so the
      handled texts are exactly the status scripts, in document order. */
  lemma StatusScriptsOne(t: string)
    ensures StatusScripts([t]) == if IsStatusScript(t) then [t] else []
  {
    assert [t][1..] == [];
  }

  /** No status script is skipped. */
  lemma {:induction false} StatusScriptsComplete(texts: seq<string>)
    ensures forall i :: 0 <= i < |texts| && IsStatusScript(texts[i]) ==> texts[i] in StatusScripts(texts)
    decreases |texts|
  {
    if |texts| > 0 {
      StatusScriptsComplete(texts[1..]);
      forall i | 0 < i < |texts| && IsStatusScript(texts[i])
        ensures texts[i] in StatusScripts(texts)
      {
        assert texts[i] == texts[1..][i - 1];
      }
    }
  }

  datatype FeedResult = FeedResult(world: NewsWorld, crashed: bool)

  /** `newsparser.feed(resp.text)`: the text nodes in order; an undecodable
      payload raises and ends the feed. */
  function Feed(test: WriteTest, w: NewsWorld, texts: seq<string>, decode: string -> Option<ArticleInfo>,
                container: string, crawlTime: int): (r: FeedResult)
    ensures r.world.jobs == w.jobs && r.world.category == w.category
    ensures |r.world.comments| >= |w.comments| && r.world.comments[..|w.comments|] == w.comments
    ensures !r.crashed ==> |r.world.comments| == |w.comments| + |StatusScripts(texts)|
    ensures r.crashed ==> |r.world.comments| < |w.comments| + |StatusScripts(texts)|
    decreases |texts|
  {
    if |texts| == 0 then FeedResult(w, false)
    else if !IsStatusScript(texts[0]) then Feed(test, w, texts[1..], decode, container, crawlTime)
    else
      match NewsProcess(test, w, texts[0], decode, container, crawlTime)
      case None => FeedResult(w, true)
      case Some(w1) => Feed(test, w1, texts[1..], decode, container, crawlTime)
  }

  datatype NewsStep = NewsStep(world: NewsWorld, crashed: bool)

  /** A job is due when more than `interval` seconds passed since its time. */
  predicate Due(job: Job, now: int, interval: int) {
    now - job.time > interval
  }

  /** One iteration of `update_news`. `crashed` reports the uncaught decode
      error, which ends the worker after its `finally` put the job back. */
  function UpdateNewsStep(test: WriteTest, w: NewsWorld, now: int, interval: int, resp: PageFetch,
                          decode: string -> Option<ArticleInfo>, container: string, crawlTime: int): (r: NewsStep)
    ensures |r.world.jobs| == |w.jobs|
    ensures |w.comments| <= |r.world.comments| && r.world.comments[..|w.comments|] == w.comments
    ensures r.crashed ==> resp.Response? && resp.status == 200
  {
    match Queue.Pop(w.jobs)
    case None => NewsStep(w, false)
    case Some((job, rest)) =>
      if Due(job, now, interval) then
        var again := job.(time := now);
        match resp
        case ConnectionError => NewsStep(w.(jobs := Queue.Push(rest, again)), false)
        case Response(status, texts) =>
          if status == 200 then
            var fed := Feed(test, w.(jobs := rest, category := job.category), texts, decode, container, crawlTime);
            NewsStep(fed.world.(jobs := Queue.Push(fed.world.jobs, again)), fed.crashed)
          else NewsStep(w.(jobs := Queue.Push(rest, again)), false)
      else NewsStep(w.(jobs := Queue.Push(rest, job)), false)
  }

  /** A due job goes back exactly once, stamped with the current time, whether
      the fetch succeeded, failed with a status, raised a connection error, or
      hit an undecodable payload. Jobs with time 0 are due at any positive
      clock reading beyond the interval. */
  lemma DueJobRequeued(test: WriteTest, w: NewsWorld, now: int, interval: int, resp: PageFetch,
                       decode: string -> Option<ArticleInfo>, container: string, crawlTime: int)
    requires |w.jobs| > 0 && Due(w.jobs[0], now, interval)
    ensures UpdateNewsStep(test, w, now, interval, resp, decode, container, crawlTime).world.jobs
            == w.jobs[1..] + [w.jobs[0].(time := now)]
  {
    assert Queue.Pop(w.jobs) == Some((w.jobs[0], w.jobs[1..]));
  }

  /** A job that is not due is put back unchanged and nothing else happens. */
  lemma NotDueJobRequeued(test: WriteTest, w: NewsWorld, now: int, interval: int, resp: PageFetch,
                          decode: string -> Option<ArticleInfo>, container: string, crawlTime: int)
    requires |w.jobs| > 0 && !Due(w.jobs[0], now, interval)
    ensures UpdateNewsStep(test, w, now, interval, resp, decode, container, crawlTime)
            == NewsStep(w.(jobs := w.jobs[1..] + [w.jobs[0]]), false)
  {
    assert Queue.Pop(w.jobs) == Some((w.jobs[0], w.jobs[1..]));
  }

  /** The processed article's category comes from its job, and it changes only
      on a 200 answer. Without a 200 answer only the news queue moves. */
  lemma CategoryOnSuccess(test: WriteTest, w: NewsWorld, now: int, interval: int, resp: PageFetch,
                          decode: string -> Option<ArticleInfo>, container: string, crawlTime: int)
    requires |w.jobs| > 0 && Due(w.jobs[0], now, interval)
    ensures var s := UpdateNewsStep(test, w, now, interval, resp, decode, container, crawlTime);
            && (resp.Response? && resp.status == 200 ==> s.world.category == w.jobs[0].category)
            && (!(resp.Response? && resp.status == 200) ==> s.world == w.(jobs := w.jobs[1..] + [w.jobs[0].(time := now)]))
  {
    assert Queue.Pop(w.jobs) == Some((w.jobs[0], w.jobs[1..]));
  }

  /** Without a crash, every status script of the page queues one article id
      for the comment stage, behind the ids already queued. */
  lemma EveryArticleReachesComments(test: WriteTest, w: NewsWorld, now: int, interval: int, texts: seq<string>,
                                    decode: string -> Option<ArticleInfo>, container: string, crawlTime: int)
    requires |w.jobs| > 0 && Due(w.jobs[0], now, interval)
    ensures var s := UpdateNewsStep(test, w, now, interval, PageFetch.Response(200, texts), decode, container, crawlTime);
            && s.world.comments[..|w.comments|] == w.comments
            && (!s.crashed ==> |s.world.comments| == |w.comments| + |StatusScripts(texts)|)
  {
    assert Queue.Pop(w.jobs) == Some((w.jobs[0], w.jobs[1..]));
  }
}
