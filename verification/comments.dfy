/** The comment-thread stage (`getter/snowball/comments.getter.py`).

    A worker pops a news id from the comments queue, decides from the stored
    crawl state whether the thread has expired, was crawled too recently, or
    is due, and when due fetches consecutive comment pages from the stored page
    on until a page yields nothing. Each page is filtered against a running
    maximum of comment ids that starts from a watermark lookup, its state is
    written to the `snowball:newscomments` hash, the kept comments are
    appended to the thread's blob, an update is announced when at least one
    page produced comments, and the id goes back to the tail of the queue.

    The lookup as written never finds the stored watermark, so every page
    starts from -1; the stage functions take the lookup as a parameter, so
    both that and the evidently intended lookup of the thread's own record
    are modelled.

    The hash is keyed by `str(newsid)`; the model keys it (and the append blob
    `<newsid>.yaml`) by `Key(id)`. */
module Comments {
  import opened Common
  import Queue

  /** A thread whose last crawl that saw comments is older than ten days is dropped. */
  const ExpiredTime: int := 10 * 24 * 60 * 60
  /** A thread crawled less than ten minutes ago is only put back. */
  const MinUpdateInterval: int := 10 * 60
  /** The page a thread without stored state starts from. */
  const FirstPage: int := 1

  datatype Comment = Comment(id: int, body: string)

  /** The `v` part of a `snowball:newscomments` record. `lastUpdate` is the
      crawl time in seconds; zero means "never", as it is falsy in the source. */
  datatype CommentState = CommentState(latestPage: int, latestId: int, lastUpdate: int, count: int)

  /** One HTTP answer for one comment page; non-200 answers carry no usable body. */
  datatype PageResponse =
    | ConnectionError
    | Response(status: int, comments: seq<Comment>, count: int)

  function Key(id: int): string {
    IntToString(id)
  }

  function Ids(cs: seq<Comment>): (r: seq<int>)
    ensures |r| == |cs|
    ensures forall i :: 0 <= i < |cs| ==> r[i] == cs[i].id
  {
    seq(|cs|, i requires 0 <= i < |cs| => cs[i].id)
  }

  lemma IdsSnoc(cs: seq<Comment>, c: Comment)
    ensures Ids(cs + [c]) == Ids(cs) + [c.id]
  {
  }

  /** The per-comment test: a comment is skipped exactly when a real running
      maximum exists and its id is strictly below it, so an id equal to the
      maximum is kept again. */
  predicate Admits(latest: int, id: int) {
    latest == -1 || id >= latest
  }

  /** Which comments of a page are kept, stated position by position: the one
      at position `i` is kept iff it is admitted by the maximum of the seed and
      of ALL ids before it on the page. (Skipped ids never raise the maximum,
      since they lie below it.) */
  predicate KeptAt(seed: int, cs: seq<Comment>, i: int)
    requires 0 <= i < |cs|
  {
    Admits(MaxOf(seed, Ids(cs[..i])), cs[i].id)
  }

  function Kept(seed: int, cs: seq<Comment>): (r: seq<Comment>)
    ensures |r| <= |cs|
    decreases |cs|
  {
    if |cs| == 0 then []
    else
      var p := cs[..|cs| - 1];
      Kept(seed, p) + (if KeptAt(seed, cs, |cs| - 1) then [cs[|cs| - 1]] else [])
  }

  /** Extending the page by one comment extends the kept list by that comment
      iff it passes the test, and raises the maximum by one step. */
  lemma KeptStep(seed: int, cs: seq<Comment>, i: int)
    requires 0 <= i < |cs|
    ensures Kept(seed, cs[..i + 1]) ==
              Kept(seed, cs[..i]) + (if Admits(MaxOf(seed, Ids(cs[..i])), cs[i].id) then [cs[i]] else [])
    ensures MaxOf(seed, Ids(cs[..i + 1])) == Max(MaxOf(seed, Ids(cs[..i])), cs[i].id)
  {
    var next := cs[..i + 1];
    assert next[..i] == cs[..i];
    assert next == cs[..i] + [cs[i]];
    IdsSnoc(cs[..i], cs[i]);
    MaxOfSnoc(seed, Ids(cs[..i]), cs[i].id);
  }

  /** The test at a position only looks at what comes before it. */
  lemma KeptAtPrefix(seed: int, cs: seq<Comment>, n: int, i: int)
    requires 0 <= i < n <= |cs|
    ensures KeptAt(seed, cs[..n], i) == KeptAt(seed, cs, i)
  {
    assert cs[..n][..i] == cs[..i];
  }

  /** Every comment that passes the per-position test is kept. */
  lemma {:induction false} KeptIfAdmitted(seed: int, cs: seq<Comment>, i: int)
    requires 0 <= i < |cs| && KeptAt(seed, cs, i)
    ensures cs[i] in Kept(seed, cs)
    decreases |cs|
  {
    var n := |cs| - 1;
    if i < n {
      KeptAtPrefix(seed, cs, n, i);
      KeptIfAdmitted(seed, cs[..n], i);
      assert cs[..n][i] == cs[i];
    }
  }

  /** Every kept comment passed the test at some position of the page. */
  lemma {:induction false} KeptOnlyIfAdmitted(seed: int, cs: seq<Comment>, j: int)
    requires 0 <= j < |Kept(seed, cs)|
    ensures exists i :: 0 <= i < |cs| && cs[i] == Kept(seed, cs)[j] && KeptAt(seed, cs, i)
    decreases |cs|
  {
    var n := |cs| - 1;
    var p := cs[..n];
    var kp := Kept(seed, p);
    if j < |kp| {
      assert Kept(seed, cs)[j] == kp[j];
      KeptOnlyIfAdmitted(seed, p, j);
      var i :| 0 <= i < |p| && p[i] == kp[j] && KeptAt(seed, p, i);
      KeptAtPrefix(seed, cs, n, i);
      assert cs[i] == Kept(seed, cs)[j] && KeptAt(seed, cs, i);
    } else {
      assert Kept(seed, cs)[j] == cs[n] && KeptAt(seed, cs, n);
    }
  }

  /** Nothing is kept that the page did not contain. */
  lemma KeptFromPage(seed: int, cs: seq<Comment>)
    ensures forall j :: 0 <= j < |Kept(seed, cs)| ==> Kept(seed, cs)[j] in cs
  {
    forall j | 0 <= j < |Kept(seed, cs)|
      ensures Kept(seed, cs)[j] in cs
    {
      KeptOnlyIfAdmitted(seed, cs, j);
    }
  }

  /** A comment ends up in the kept list iff one of its occurrences passes the
      per-position test. */
  lemma KeptMember(seed: int, cs: seq<Comment>, c: Comment)
    ensures c in Kept(seed, cs) <==> exists i :: 0 <= i < |cs| && cs[i] == c && KeptAt(seed, cs, i)
  {
    if c in Kept(seed, cs) {
      var j :| 0 <= j < |Kept(seed, cs)| && Kept(seed, cs)[j] == c;
      KeptOnlyIfAdmitted(seed, cs, j);
    }
    if exists i :: 0 <= i < |cs| && cs[i] == c && KeptAt(seed, cs, i) {
      var i :| 0 <= i < |cs| && cs[i] == c && KeptAt(seed, cs, i);
      KeptIfAdmitted(seed, cs, i);
    }
  }

  /** The watermark a page leaves behind equals the maximum of the seed and the
      ids that were actually kept. */
  lemma {:induction false} KeptMax(seed: int, cs: seq<Comment>)
    ensures MaxOf(seed, Ids(cs)) == MaxOf(seed, Ids(Kept(seed, cs)))
    decreases |cs|
  {
    if |cs| > 0 {
      var n := |cs| - 1;
      var p := cs[..n];
      var c := cs[n];
      KeptMax(seed, p);
      assert cs == p + [c];
      IdsSnoc(p, c);
      MaxOfSnoc(seed, Ids(p), c.id);
      if KeptAt(seed, cs, n) {
        IdsSnoc(Kept(seed, p), c);
        MaxOfSnoc(seed, Ids(Kept(seed, p)), c.id);
      } else {
        assert Kept(seed, cs) == Kept(seed, p);
      }
    }
  }

  /** With non-negative ids the kept comments come out in non-decreasing id
      order: once a comment is kept, nothing below it passes the test. */
  lemma {:induction false} KeptSorted(seed: int, cs: seq<Comment>)
    requires forall i :: 0 <= i < |cs| ==> cs[i].id >= 0
    ensures var k := Kept(seed, cs); forall i, j :: 0 <= i < j < |k| ==> k[i].id <= k[j].id
    decreases |cs|
  {
    if |cs| > 0 {
      var n := |cs| - 1;
      var p := cs[..n];
      KeptSorted(seed, p);
      if KeptAt(seed, cs, n) {
        var kp := Kept(seed, p);
        var latest := MaxOf(seed, Ids(p));
        assert cs[..n] == p;
        KeptMax(seed, p);
        MaxOfUpper(seed, Ids(kp));
        forall j | 0 <= j < |kp|
          ensures kp[j].id <= cs[n].id
        {
          assert Ids(kp)[j] == kp[j].id;
          KeptOnlyIfAdmitted(seed, p, j);
        }
      }
    }
  }

  /** Dedup against a real watermark: when the seed is a stored id (not the
      "none" marker -1), no comment with a smaller id is ever kept. */
  lemma {:induction false} KeptAboveSeed(seed: int, cs: seq<Comment>)
    requires seed >= 0
    ensures forall j :: 0 <= j < |Kept(seed, cs)| ==> Kept(seed, cs)[j].id >= seed
    decreases |cs|
  {
    if |cs| > 0 {
      KeptAboveSeed(seed, cs[..|cs| - 1]);
    }
  }

  /** The filter loop of `updatecomments`, as the source runs it: one pass with
      a running `latestid`. It computes exactly the position-wise filter. */
  method FilterPage(seed: int, comments: seq<Comment>) returns (kept: seq<Comment>, latest: int)
    ensures kept == Kept(seed, comments)
    ensures latest == MaxOf(seed, Ids(comments))
  {
    kept := [];
    latest := seed;
    var i := 0;
    while i < |comments|
      invariant 0 <= i <= |comments|
      invariant kept == Kept(seed, comments[..i])
      invariant latest == MaxOf(seed, Ids(comments[..i]))
    {
      var c := comments[i];
      KeptStep(seed, comments, i);
      // a duplicate (`latestid != -1 and id < latestid`) is skipped, and the
      // running maximum is already above it
      if !(latest != -1 && c.id < latest) {
        kept := kept + [c];
        latest := Max(latest, c.id);
      }
      i := i + 1;
    }
    assert comments[..i] == comments;
  }

  /** What one call of `updatecomments` produced: the kept comments and, when
      the page was a non-empty 200 answer, the state record it wrote. */
  datatype PageResult = PageResult(chunk: seq<Comment>, saved: Option<CommentState>)

  /** `updatecomments(session, newsid, page)`; `seed` is the initial `latestid`
      and `now` the clock reading used for `lastupdate`. */
  function FetchPage(seed: int, page: int, now: int, resp: PageResponse): (r: PageResult)
    ensures !(resp.Response? && resp.status == 200 && |resp.comments| > 0) ==>
              r.chunk == [] && r.saved.None?
    ensures resp.Response? && resp.status == 200 && |resp.comments| > 0 ==>
              && r.saved.Some?
              && r.saved.value.latestPage == page
              && r.saved.value.count == resp.count
              && r.saved.value.lastUpdate == now
              && r.saved.value.latestId >= seed
  {
    match resp
    case ConnectionError => PageResult([], None)
    case Response(status, comments, count) =>
      if status != 200 || |comments| == 0 then PageResult([], None)
      else PageResult(Kept(seed, comments), Some(CommentState(page, MaxOf(seed, Ids(comments)), now, count)))
  }

  /** The watermark a page saves is the maximum of the seed and the ids the
      page delivered, and it delivers only comments of the answer. */
  lemma FetchPageWatermark(seed: int, page: int, now: int, resp: PageResponse)
    ensures var r := FetchPage(seed, page, now, resp);
            && (r.saved.Some? ==> r.saved.value.latestId == MaxOf(seed, Ids(r.chunk)))
            && (forall j :: 0 <= j < |r.chunk| ==> r.chunk[j] in resp.comments)
  {
    if resp.Response? && resp.status == 200 && |resp.comments| > 0 {
      KeptMax(seed, resp.comments);
      KeptFromPage(seed, resp.comments);
    }
  }

  /** Writes the page's state record, if it produced one, under `key`. */
  function Commit(states: map<string, CommentState>, key: string, r: PageResult): map<string, CommentState> {
    match r.saved
    case Some(s) => states[key := s]
    case None => states
  }

  datatype LoopResult = LoopResult(chunks: seq<seq<Comment>>, page: int, states: map<string, CommentState>)

  /** The watermark the next page starts from: the one a page saved, or the
      old one when it saved nothing. */
  function NextSeed(seed: int, r: PageResult): int {
    match r.saved
    case Some(s) => s.latestId
    case None => seed
  }

  /** The outcomes of the requests for pages `page`, `page + 1`, ...: `pages[k]`
      is the answer to the request for page `page + k`, and each request is
      filtered against the watermark the previous one saved. A request beyond
      the given answers finds nothing, which ends the loop like an empty page. */
  function Fetches(seed: int, page: int, now: int, pages: seq<PageResponse>): (r: seq<PageResult>)
    ensures |r| == |pages|
    decreases |pages|
  {
    if |pages| == 0 then []
    else
      var first := FetchPage(seed, page, now, pages[0]);
      [first] + Fetches(NextSeed(seed, first), page + 1, now, pages[1..])
  }

  lemma FetchesStep(seed: int, page: int, now: int, pages: seq<PageResponse>)
    requires |pages| > 0
    ensures var r := Fetches(seed, page, now, pages);
            var first := FetchPage(seed, page, now, pages[0]);
            && r[0] == first
            && r[1..] == Fetches(NextSeed(seed, first), page + 1, now, pages[1..])
  {
  }

  /** The page loop of the main cycle over the outcomes of its requests: each
      outcome's state record is committed, and the loop goes on while a page
      delivers comments. */
  function PageLoop(states: map<string, CommentState>, key: string, page: int, results: seq<PageResult>): (r: LoopResult)
    ensures r.page == page + |r.chunks|
    ensures |r.chunks| <= |results|
    decreases |results|
  {
    if |results| == 0 then LoopResult([], page, states)
    else
      var res := results[0];
      var states' := Commit(states, key, res);
      if |res.chunk| == 0 then LoopResult([], page, states')
      else
        var rest := PageLoop(states', key, page + 1, results[1..]);
        LoopResult([res.chunk] + rest.chunks, rest.page, rest.states)
  }

  /** One turn of the page loop on a page that delivered comments ... */
  lemma PageLoopGoesOn(states: map<string, CommentState>, key: string, page: int, results: seq<PageResult>)
    requires |results| > 0 && |results[0].chunk| > 0
    ensures var rest := PageLoop(Commit(states, key, results[0]), key, page + 1, results[1..]);
            PageLoop(states, key, page, results) == LoopResult([results[0].chunk] + rest.chunks, rest.page, rest.states)
  {
  }

  /** ... and on one that did not. */
  lemma PageLoopStops(states: map<string, CommentState>, key: string, page: int, results: seq<PageResult>)
    requires |results| > 0 && |results[0].chunk| == 0
    ensures PageLoop(states, key, page, results) == LoopResult([], page, Commit(states, key, results[0]))
  {
  }

  /** The chunks the loop collects are the chunks of the outcomes up to the
      first one that delivered nothing, and that one stops the loop. */
  lemma {:induction false} PageLoopChunks(states: map<string, CommentState>, key: string, page: int,
                                          results: seq<PageResult>)
    ensures var r := PageLoop(states, key, page, results);
            && (forall k :: 0 <= k < |r.chunks| ==> |r.chunks[k]| > 0 && r.chunks[k] == results[k].chunk)
            && (|r.chunks| < |results| ==> results[|r.chunks|].chunk == [])
    decreases |results|
  {
    if |results| > 0 {
      if |results[0].chunk| > 0 {
        var states' := Commit(states, key, results[0]);
        var rest := PageLoop(states', key, page + 1, results[1..]);
        PageLoopChunks(states', key, page + 1, results[1..]);
        PageLoopGoesOn(states, key, page, results);
        var chunks := [results[0].chunk] + rest.chunks;
        forall k | 0 < k < |chunks|
          ensures |chunks[k]| > 0 && chunks[k] == results[k].chunk
        {
          assert chunks[k] == rest.chunks[k - 1] && results[1..][k - 1] == results[k];
        }
        if |chunks| < |results| {
          assert results[|chunks|] == results[1..][|rest.chunks|];
        }
      } else {
        PageLoopStops(states, key, page, results);
      }
    }
  }

  /** The page loop writes no state record but the thread's own, and never
      removes that one. */
  lemma {:induction false} PageLoopOthers(states: map<string, CommentState>, key: string, page: int,
                                          results: seq<PageResult>)
    ensures var r := PageLoop(states, key, page, results);
            && r.states - {key} == states - {key}
            && (key in states ==> key in r.states)
    decreases |results|
  {
    if |results| > 0 {
      var states' := Commit(states, key, results[0]);
      assert states' - {key} == states - {key};
      assert key in states ==> key in states';
      if |results[0].chunk| > 0 {
        PageLoopOthers(states', key, page + 1, results[1..]);
        PageLoopGoesOn(states, key, page, results);
      } else {
        PageLoopStops(states, key, page, results);
      }
    }
  }

  /** The record the page loop leaves names the last page that had comments,
      or the page after it when that page answered with comments that were
      all duplicates; a loop without chunks leaves the states alone or records
      its first page. */
  lemma {:induction false} PageLoopStates(states: map<string, CommentState>, key: string, page: int,
                                          results: seq<PageResult>)
    requires SavesPages(results, page)
    ensures var r := PageLoop(states, key, page, results);
            && (|r.chunks| == 0 ==> r.states == states || (key in r.states && r.states[key].latestPage == page))
            && (|r.chunks| > 0 ==>
                  key in r.states && page + |r.chunks| - 1 <= r.states[key].latestPage <= page + |r.chunks|)
    decreases |results|
  {
    if |results| > 0 {
      var states' := Commit(states, key, results[0]);
      SavesPagesTail(results, page);
      if |results[0].chunk| > 0 {
        assert key in states' && states'[key].latestPage == page;
        PageLoopStates(states', key, page + 1, results[1..]);
        PageLoopGoesOn(states, key, page, results);
      } else {
        PageLoopStops(states, key, page, results);
      }
    }
  }

  /** Every page that delivers comments saves a record, and a saved record
      names the page it came from. */
  ghost predicate SavesPages(results: seq<PageResult>, page: int) {
    forall k :: 0 <= k < |results| ==>
      (|results[k].chunk| > 0 ==> results[k].saved.Some?) &&
      (results[k].saved.Some? ==> results[k].saved.value.latestPage == page + k)
  }

  lemma SavesPagesTail(results: seq<PageResult>, page: int)
    requires SavesPages(results, page) && |results| > 0
    ensures |results[0].chunk| > 0 ==> results[0].saved.Some?
    ensures results[0].saved.Some? ==> results[0].saved.value.latestPage == page
    ensures SavesPages(results[1..], page + 1)
  {
    forall k | 0 <= k < |results| - 1
      ensures (|results[1..][k].chunk| > 0 ==> results[1..][k].saved.Some?) &&
              (results[1..][k].saved.Some? ==> results[1..][k].saved.value.latestPage == page + 1 + k)
    {
      assert results[1..][k] == results[k + 1];
    }
  }

  /** The outcomes `FetchPage` produces meet the requirement of
      `PageLoopStates`. */
  lemma {:induction false} FetchesSaveTheirPage(seed: int, page: int, now: int, pages: seq<PageResponse>)
    ensures SavesPages(Fetches(seed, page, now, pages), page)
    decreases |pages|
  {
    if |pages| > 0 {
      var r := Fetches(seed, page, now, pages);
      var first := FetchPage(seed, page, now, pages[0]);
      FetchesStep(seed, page, now, pages);
      FetchesSaveTheirPage(NextSeed(seed, first), page + 1, now, pages[1..]);
      forall k | 0 <= k < |r|
        ensures (|r[k].chunk| > 0 ==> r[k].saved.Some?) &&
                (r[k].saved.Some? ==> r[k].saved.value.latestPage == page + k)
      {
        if k > 0 {
          assert r[k] == r[1..][k - 1];
        }
      }
    }
  }

  function Flatten(chunks: seq<seq<Comment>>): seq<Comment>
    decreases |chunks|
  {
    if |chunks| == 0 then [] else chunks[0] + Flatten(chunks[1..])
  }

  lemma FlattenCons(c: seq<Comment>, cs: seq<seq<Comment>>)
    ensures Flatten([c] + cs) == c + Flatten(cs)
  {
    assert ([c] + cs)[1..] == cs;
  }

  /** The page loop of the main cycle: before each page the watermark is
      looked up again in the states with the given lookup. With the intended
      lookup a page is thus filtered against what the previous page saved;
      as written every page starts from -1. The page counter ends one past
      the last page that produced comments. */
  function CrawlPages(lookup: Lookup, states: map<string, CommentState>, key: string, page: int, now: int,
                      pages: seq<PageResponse>): (r: LoopResult)
    ensures r.page == page + |r.chunks|
    ensures |r.chunks| <= |pages|
    decreases |pages|
  {
    if |pages| == 0 then LoopResult([], page, states)
    else
      var res := FetchPage(Seed(lookup, states, key), page, now, pages[0]);
      var states' := Commit(states, key, res);
      if |res.chunk| == 0 then LoopResult([], page, states')
      else
        var rest := CrawlPages(lookup, states', key, page + 1, now, pages[1..]);
        LoopResult([res.chunk] + rest.chunks, rest.page, rest.states)
  }

  /** Whatever the lookup, the crawl writes no state record but the thread's
      own, and never removes that one. */
  lemma {:induction false} CrawlPagesOthers(lookup: Lookup, states: map<string, CommentState>, key: string,
                                            page: int, now: int, pages: seq<PageResponse>)
    ensures var r := CrawlPages(lookup, states, key, page, now, pages);
            && r.states - {key} == states - {key}
            && (key in states ==> key in r.states)
    decreases |pages|
  {
    if |pages| > 0 {
      var res := FetchPage(Seed(lookup, states, key), page, now, pages[0]);
      var states' := Commit(states, key, res);
      assert states' - {key} == states - {key};
      if |res.chunk| > 0 {
        CrawlPagesOthers(lookup, states', key, page + 1, now, pages[1..]);
      }
    }
  }

  /** Whatever the lookup, a crawl whose first page answers with comments
      leaves the thread stamped with the crawl time, whether or not any of
      those comments was new: every later page either stamps it again or
      writes nothing. */
  lemma {:induction false} CrawlPagesStamps(lookup: Lookup, states: map<string, CommentState>, key: string,
                                            page: int, now: int, pages: seq<PageResponse>)
    ensures var r := CrawlPages(lookup, states, key, page, now, pages);
            (key in states && states[key].lastUpdate == now) || (|pages| > 0 && Delivers(pages[0])) ==>
              key in r.states && r.states[key].lastUpdate == now
    decreases |pages|
  {
    if |pages| > 0 && ((key in states && states[key].lastUpdate == now) || Delivers(pages[0])) {
      var res := FetchPage(Seed(lookup, states, key), page, now, pages[0]);
      var states' := Commit(states, key, res);
      assert key in states' && states'[key].lastUpdate == now;
      if |res.chunk| > 0 {
        CrawlPagesStamps(lookup, states', key, page + 1, now, pages[1..]);
      }
    }
  }

  /** A 200 answer with at least one comment. */
  predicate Delivers(resp: PageResponse) {
    resp.Response? && resp.status == 200 && |resp.comments| > 0
  }

  /** Starting from -1, the first comment of a page is always kept. */
  lemma KeptFirst(cs: seq<Comment>)
    requires |cs| > 0
    ensures |Kept(-1, cs)| > 0
  {
    assert Ids(cs[..0]) == [];
    KeptIfAdmitted(-1, cs, 0);
  }

  /** One step of the crawl: the first page's chunk either ends the loop or
      heads the chunks of the rest. */
  lemma CrawlPagesUnfold(lookup: Lookup, states: map<string, CommentState>, key: string, page: int, now: int,
                         pages: seq<PageResponse>)
    requires |pages| > 0
    ensures var res := FetchPage(Seed(lookup, states, key), page, now, pages[0]);
            var r := CrawlPages(lookup, states, key, page, now, pages);
            && (|res.chunk| == 0 ==> r.chunks == [])
            && (|res.chunk| > 0 ==>
                  r.chunks == [res.chunk] + CrawlPages(lookup, Commit(states, key, res), key, page + 1, now, pages[1..]).chunks)
  {
  }

  /** Without a thread keyed "latest_id" the lookup as written yields -1, and
      writing a thread's own record adds no such thread. */
  lemma AsWrittenSeedStays(states: map<string, CommentState>, key: string, res: PageResult)
    requires "latest_id" !in states && key != "latest_id"
    ensures Seed(AsWritten, states, key) == -1
    ensures "latest_id" !in Commit(states, key, res)
  {
  }

  /** The chunks of a crawl as written: the k-th chunk comes from the k-th
      page, which answered with comments, filtered against -1; and the page
      after the last chunk, if any, did not answer with comments. */
  ghost predicate AsWrittenChunks(pages: seq<PageResponse>, chunks: seq<seq<Comment>>) {
    && |chunks| <= |pages|
    && (forall k :: 0 <= k < |chunks| ==> Delivers(pages[k]) && chunks[k] == Kept(-1, pages[k].comments))
    && (|chunks| < |pages| ==> !Delivers(pages[|chunks|]))
  }

  lemma AsWrittenChunksCons(pages: seq<PageResponse>, chunk: seq<Comment>, chunks: seq<seq<Comment>>)
    requires |pages| > 0 && Delivers(pages[0]) && chunk == Kept(-1, pages[0].comments)
    requires AsWrittenChunks(pages[1..], chunks)
    ensures AsWrittenChunks(pages, [chunk] + chunks)
  {
    var r := [chunk] + chunks;
    forall k | 0 < k < |r|
      ensures Delivers(pages[k]) && r[k] == Kept(-1, pages[k].comments)
    {
      assert r[k] == chunks[k - 1] && pages[k] == pages[1..][k - 1];
    }
    if |r| < |pages| {
      assert pages[|r|] == pages[1..][|chunks|];
    }
  }

  /** The crawl as written: every page is filtered against -1 whatever the
      hash stores, so the loop goes on through every page that answers with
      comments, and each such page contributes its own filtered comments
      (the first one always among them). Thread keys are decimal ids, so the
      hash holds no thread keyed "latest_id" (KeyNotWord). */
  lemma {:induction false} CrawlPagesAsWritten(states: map<string, CommentState>, key: string, page: int, now: int,
                                               pages: seq<PageResponse>)
    requires "latest_id" !in states && key != "latest_id"
    ensures AsWrittenChunks(pages, CrawlPages(AsWritten, states, key, page, now, pages).chunks)
    decreases |pages|
  {
    if |pages| > 0 {
      var res := FetchPage(-1, page, now, pages[0]);
      AsWrittenSeedStays(states, key, res);
      CrawlPagesUnfold(AsWritten, states, key, page, now, pages);
      if Delivers(pages[0]) {
        KeptFirst(pages[0].comments);
      }
      if |res.chunk| > 0 {
        var states' := Commit(states, key, res);
        var rest := CrawlPages(AsWritten, states', key, page + 1, now, pages[1..]);
        CrawlPagesAsWritten(states', key, page + 1, now, pages[1..]);
        AsWrittenChunksCons(pages, res.chunk, rest.chunks);
      }
    }
  }

  /** With the intended lookup, looking the watermark up before every page is
      the same as threading the saved watermark from page to page: the loop
      over the precomputed outcomes is the loop of the cycle. */
  lemma {:induction false} CrawlPagesByFetches(states: map<string, CommentState>, key: string, page: int,
                                               now: int, pages: seq<PageResponse>)
    ensures CrawlPages(Intended, states, key, page, now, pages)
            == PageLoop(states, key, page, Fetches(SeedFor(states, key), page, now, pages))
    decreases |pages|
  {
    if |pages| > 0 {
      var seed := SeedFor(states, key);
      var results := Fetches(seed, page, now, pages);
      var res := FetchPage(seed, page, now, pages[0]);
      var states' := Commit(states, key, res);
      FetchesStep(seed, page, now, pages);
      if |res.chunk| == 0 {
        PageLoopStops(states, key, page, results);
      } else {
        assert res.saved.Some?;
        assert SeedFor(states', key) == NextSeed(seed, res);
        CrawlPagesByFetches(states', key, page + 1, now, pages[1..]);
        PageLoopGoesOn(states, key, page, results);
      }
    }
  }

  /** The state the comment stage shares with the rest of the pipeline. */
  datatype CommentsWorld = CommentsWorld(
    queue: seq<int>,                      // the comments queue
    updates: seq<int>,                    // the comments-update queue
    states: map<string, CommentState>,    // the snowball:newscomments hash
    blobs: map<string, seq<Comment>>      // the `<newsid>.yaml` append blobs
  )

  datatype Decision = Expire | Backoff | Crawl(fromPage: int)

  /** Expiry and backoff test on the stored `lastupdate` of a popped id: a
      thread is crawled iff it was never crawled or its last crawl lies
      between ten minutes and ten days back, and then from the page it
      stored (page 1 for a new thread). */
  function Decide(states: map<string, CommentState>, key: string, now: int): (r: Decision)
    ensures key !in states ==> r == Crawl(FirstPage)
    ensures r.Expire? <==> key in states && states[key].lastUpdate != 0 && now - states[key].lastUpdate > ExpiredTime
    ensures r.Backoff? <==>
              key in states && states[key].lastUpdate != 0 && now - states[key].lastUpdate < MinUpdateInterval
    ensures r.Crawl? ==> r.fromPage == (if key in states then states[key].latestPage else FirstPage)
  {
    var lastUpdate := if key in states then states[key].lastUpdate else 0;
    var latestPage := if key in states then states[key].latestPage else FirstPage;
    if lastUpdate != 0 && now - lastUpdate > ExpiredTime then Expire
    else if lastUpdate != 0 && now - lastUpdate < MinUpdateInterval then Backoff
    else Crawl(latestPage)
  }

  /** Blobs are append-only: every blob of `w` is still there in `w'` and
      `w'` only extends it. */
  ghost predicate BlobsGrow(w: CommentsWorld, w': CommentsWorld) {
    forall k :: k in w.blobs ==> k in w'.blobs && w.blobs[k] <= w'.blobs[k]
  }

  /** The update queue only receives pushes, at most one per cycle. */
  ghost predicate AnnouncesAtMostOnce(w: CommentsWorld, w': CommentsWorld) {
    |w.updates| <= |w'.updates| <= |w.updates| + 1 && w'.updates[..|w.updates|] == w.updates
  }

  /** One iteration of the stage's main loop. A popped id of 0 is falsy in the
      source and is treated like an empty queue: it is consumed and not put
      back. Whatever the lookup, the queue never grows, blobs only grow, and
      at most one update is announced. */
  function CommentsStep(lookup: Lookup, w: CommentsWorld, now: int, pages: seq<PageResponse>): (r: CommentsWorld)
    ensures |r.queue| <= |w.queue|
    ensures BlobsGrow(w, r)
    ensures AnnouncesAtMostOnce(w, r)
  {
    match Queue.Pop(w.queue)
    case None => w
    case Some((id, rest)) =>
      if id == 0 then w.(queue := rest)
      else
        var key := Key(id);
        match Decide(w.states, key, now)
        case Expire => w.(queue := rest)
        case Backoff => w.(queue := Queue.Push(rest, id))
        case Crawl(start) => CrawlThread(lookup, w.(queue := rest), id, start, now, pages)
  }

  /** The crawl part of a cycle for the popped `id`, starting at page `start`:
      run the page loop, append what it kept to the thread's blob (creating
      the blob first if needed), announce an update when the page counter
      moved, and put the id back at the tail. */
  function CrawlThread(lookup: Lookup, w: CommentsWorld, id: int, start: int, now: int,
                       pages: seq<PageResponse>): (r: CommentsWorld)
    ensures multiset(r.queue) == multiset(w.queue) + multiset{id}
    ensures BlobsGrow(w, r)
    ensures AnnouncesAtMostOnce(w, r)
  {
    var key := Key(id);
    var l := CrawlPages(lookup, w.states, key, start, now, pages);
    var blobs := if |l.chunks| > 0
                 then w.blobs[key := (if key in w.blobs then w.blobs[key] else []) + Flatten(l.chunks)]
                 else w.blobs;
    var updates := if l.page > start then Queue.Push(w.updates, id) else w.updates;
    CommentsWorld(Queue.Push(w.queue, id), updates, l.states, blobs)
  }

  /** An expired thread is dropped: it leaves the queue and nothing is fetched,
      written or announced. */
  lemma StepExpires(lookup: Lookup, w: CommentsWorld, now: int, pages: seq<PageResponse>)
    requires |w.queue| > 0 && w.queue[0] != 0
    requires Key(w.queue[0]) in w.states
    requires w.states[Key(w.queue[0])].lastUpdate != 0
    requires now - w.states[Key(w.queue[0])].lastUpdate > ExpiredTime
    ensures CommentsStep(lookup, w, now, pages) == w.(queue := w.queue[1..])
  {
  }

  /** Backoff: a thread crawled less than ten minutes ago is put back at the
      tail once, with no fetch, no state write and no update announcement. */
  lemma StepBacksOff(lookup: Lookup, w: CommentsWorld, now: int, pages: seq<PageResponse>)
    requires |w.queue| > 0 && w.queue[0] != 0
    requires Key(w.queue[0]) in w.states
    requires w.states[Key(w.queue[0])].lastUpdate != 0
    requires now - w.states[Key(w.queue[0])].lastUpdate < MinUpdateInterval
    ensures CommentsStep(lookup, w, now, pages) == w.(queue := w.queue[1..] + [w.queue[0]])
  {
  }

  /** A due thread is crawled from its stored page, or from page 1 when it
      has no state yet. */
  lemma StepCrawls(lookup: Lookup, w: CommentsWorld, now: int, pages: seq<PageResponse>)
    requires |w.queue| > 0 && w.queue[0] != 0
    requires Decide(w.states, Key(w.queue[0]), now).Crawl?
    ensures var key := Key(w.queue[0]);
            var start := if key in w.states then w.states[key].latestPage else FirstPage;
            CommentsStep(lookup, w, now, pages)
            == CrawlThread(lookup, w.(queue := w.queue[1..]), w.queue[0], start, now, pages)
  {
    var id := w.queue[0];
    assert Queue.Pop(w.queue) == Some((id, w.queue[1..]));
  }

  /** What a crawl does, whatever the lookup: the id goes back to the tail,
      an update is announced iff some page produced comments, the blob grows
      by exactly the kept comments of those pages, and no other thread's blob
      or state changes. */
  lemma CrawlThreadSpec(lookup: Lookup, w: CommentsWorld, id: int, start: int, now: int, pages: seq<PageResponse>)
    ensures var key := Key(id);
            var l := CrawlPages(lookup, w.states, key, start, now, pages);
            var w' := CrawlThread(lookup, w, id, start, now, pages);
            && w'.queue == w.queue + [id]
            && (|l.chunks| > 0 ==> w'.updates == w.updates + [id])
            && (|l.chunks| == 0 ==> w'.updates == w.updates && w'.blobs == w.blobs)
            && (|l.chunks| > 0 ==>
                  && key in w'.blobs
                  && w'.blobs[key] == (if key in w.blobs then w.blobs[key] else []) + Flatten(l.chunks))
            && w'.blobs - {key} == w.blobs - {key}
            && w'.states - {key} == w.states - {key}
  {
    CrawlPagesOthers(lookup, w.states, Key(id), start, now, pages);
  }

  /** No thread is lost by a cycle: unless the popped id expired (or was the
      falsy 0), the queue holds the same ids afterwards. */
  lemma StepKeepsThread(lookup: Lookup, w: CommentsWorld, now: int, pages: seq<PageResponse>)
    requires |w.queue| > 0 && w.queue[0] != 0
    requires !Decide(w.states, Key(w.queue[0]), now).Expire?
    ensures multiset(CommentsStep(lookup, w, now, pages).queue) == multiset(w.queue)
  {
    Queue.PopThenRequeue(w.queue);
  }

  /** Expiry is measured from the last crawl whose pages answered with
      comments, not from the last new comment. Whatever the lookup, a due
      thread whose stored page still answers with comments is stamped with
      the crawl time and is not expired by any test in the next ten days, so
      a thread that stopped receiving comments is crawled for as long as its
      page keeps answering. */
  lemma StaleThreadNeverExpires(lookup: Lookup, w: CommentsWorld, now: int, pages: seq<PageResponse>, later: int)
    requires |w.queue| > 0 && w.queue[0] != 0
    requires Decide(w.states, Key(w.queue[0]), now).Crawl?
    requires |pages| > 0 && Delivers(pages[0])
    requires now <= later <= now + ExpiredTime
    ensures var key := Key(w.queue[0]);
            var w' := CommentsStep(lookup, w, now, pages);
            && key in w'.states
            && w'.states[key].lastUpdate == now
            && !Decide(w'.states, key, later).Expire?
  {
    var key := Key(w.queue[0]);
    var start := if key in w.states then w.states[key].latestPage else FirstPage;
    StepCrawls(lookup, w, now, pages);
    CrawlPagesStamps(lookup, w.states, key, start, now, pages);
  }

  /** A concrete stale thread. Thread `id` was stamped nine days ago with
      watermark 5 on page 1, and page 1 still holds only comment 5, with no
      comment since. Whatever the lookup, comment 5 is appended again, the
      thread is announced, and its stamp moves to `now`, one day before it
      would have expired. */
  lemma StaleExample(lookup: Lookup, now: int, id: int)
    requires id != 0 && now > 9 * 24 * 3600
    ensures var key := Key(id);
            var w := CommentsWorld([id], [], map[key := CommentState(1, 5, now - 9 * 24 * 3600, 1)], map[]);
            var pages := [Response(200, [Comment(5, "a")], 1), Response(200, [], 1)];
            var w' := CommentsStep(lookup, w, now, pages);
            && w'.states == map[key := CommentState(1, 5, now, 1)]
            && w'.blobs == map[key := [Comment(5, "a")]]
            && w'.updates == [id]
  {
    var key := Key(id);
    var w := CommentsWorld([id], [], map[key := CommentState(1, 5, now - 9 * 24 * 3600, 1)], map[]);
    var pages := [Response(200, [Comment(5, "a")], 1), Response(200, [], 1)];
    assert Decide(w.states, key, now) == Crawl(1);
    StepCrawls(lookup, w, now, pages);
    assert w.queue[1..] == [];
    StalePages(lookup, id, now, pages);
    assert [] + Flatten([[Comment(5, "a")]]) == [Comment(5, "a")];
  }

  /** The page loop of that thread: page 1 keeps comment 5 from either seed,
      and page 2 ends the loop. */
  lemma StalePages(lookup: Lookup, id: int, now: int, pages: seq<PageResponse>)
    requires pages == [Response(200, [Comment(5, "a")], 1), Response(200, [], 1)]
    ensures var states := map[Key(id) := CommentState(1, 5, now - 9 * 24 * 3600, 1)];
            CrawlPages(lookup, states, Key(id), 1, now, pages)
            == LoopResult([[Comment(5, "a")]], 2, map[Key(id) := CommentState(1, 5, now, 1)])
  {
    var key := Key(id);
    var states := map[key := CommentState(1, 5, now - 9 * 24 * 3600, 1)];
    SeedOwnOrNone(lookup, id, states[key]);
    CrawlOneComment(lookup, states, key, 1, now, pages);
    StaleEmptyPage(lookup, states[key := CommentState(1, 5, now, 1)], key, now, pages[1..]);
  }

  /** A first page answering one comment that the seed admits keeps that
      comment, records it as the watermark, and goes on with the next page. */
  lemma CrawlOneComment(lookup: Lookup, states: map<string, CommentState>, key: string, page: int, now: int,
                        pages: seq<PageResponse>)
    requires |pages| > 0 && pages[0].Response? && pages[0].status == 200 && |pages[0].comments| == 1
    requires Seed(lookup, states, key) <= pages[0].comments[0].id
    ensures var c := pages[0].comments[0];
            var rest := CrawlPages(lookup, states[key := CommentState(page, c.id, now, pages[0].count)], key,
                                   page + 1, now, pages[1..]);
            CrawlPages(lookup, states, key, page, now, pages) == LoopResult([[c]] + rest.chunks, rest.page, rest.states)
  {
    var c := pages[0].comments[0];
    var seed := Seed(lookup, states, key);
    assert pages[0].comments == [c];
    ExampleSingleKept(seed, c);
    assert FetchPage(seed, page, now, pages[0])
        == PageResult([c], Some(CommentState(page, c.id, now, pages[0].count)));
  }

  /** The empty second page ends the loop with nothing written. */
  lemma StaleEmptyPage(lookup: Lookup, states: map<string, CommentState>, key: string, now: int,
                       rest: seq<PageResponse>)
    requires rest == [Response(200, [], 1)]
    ensures CrawlPages(lookup, states, key, 2, now, rest) == LoopResult([], 2, states)
  {
    CrawlPagesUnfold(lookup, states, key, 2, now, rest);
  }

  /** For a hash holding only the thread's own record, either lookup yields
      -1 or that record's watermark. */
  lemma SeedOwnOrNone(lookup: Lookup, id: int, s: CommentState)
    ensures var seed := Seed(lookup, map[Key(id) := s], Key(id));
            seed == -1 || seed == s.latestId
  {
    KeyNotWord(id);
    assert "latest_id"[0] == 'l';
  }

  /** The keyboard-interrupt handler puts the in-flight id back at the tail
      and touches nothing else. */
  function Interrupt(w: CommentsWorld, inFlight: int): (w': CommentsWorld)
    ensures w'.queue == Queue.Push(w.queue, inFlight)
    ensures multiset(w'.queue) == multiset(w.queue) + multiset{inFlight}
    ensures w'.states == w.states && w'.blobs == w.blobs && w'.updates == w.updates
  {
    w.(queue := Queue.Push(w.queue, inFlight))
  }

  /** An interrupt right after a pop loses no thread. */
  lemma InterruptKeepsThread(w: CommentsWorld)
    requires |w.queue| > 0
    ensures multiset(Interrupt(w.(queue := w.queue[1..]), w.queue[0]).queue) == multiset(w.queue)
  {
    Queue.PopThenRequeue(w.queue);
  }

  /** The handler pushes whatever id the worker last popped. An interrupt
      between the re-push that ends a cycle and the next pop therefore queues
      a thread that was not expired a second time. */
  lemma InterruptAfterCycle(lookup: Lookup, w: CommentsWorld, now: int, pages: seq<PageResponse>)
    requires |w.queue| > 0 && w.queue[0] != 0
    requires !Decide(w.states, Key(w.queue[0]), now).Expire?
    ensures var w' := Interrupt(CommentsStep(lookup, w, now, pages), w.queue[0]);
            multiset(w'.queue) == multiset(w.queue) + multiset{w.queue[0]}
  {
    StepKeepsThread(lookup, w, now, pages);
  }

  /** An interrupt inside a crawl of the popped `id`, after the pages in
      `answered` were fetched and before the blob append: each of those pages
      has already written its state record, but nothing reaches the blob or
      the update queue, and the handler puts the id back. */
  function InterruptedCrawl(lookup: Lookup, w: CommentsWorld, id: int, start: int, now: int,
                            answered: seq<PageResponse>): (r: CommentsWorld)
    ensures r.queue == Queue.Push(w.queue, id)
    ensures r.blobs == w.blobs && r.updates == w.updates
    ensures r.states - {Key(id)} == w.states - {Key(id)}
    ensures |answered| > 0 && Delivers(answered[0]) ==> Key(id) in r.states && r.states[Key(id)].lastUpdate == now
  {
    CrawlPagesOthers(lookup, w.states, Key(id), start, now, answered);
    CrawlPagesStamps(lookup, w.states, Key(id), start, now, answered);
    Interrupt(w.(states := CrawlPages(lookup, w.states, Key(id), start, now, answered).states), id)
  }

  /** Comments lost to such an interrupt. A new thread `id` answers comment 1
      on page 1 and comment 2 on page 2, and the interrupt arrives while page
      3 is fetched. Whatever the lookup, the stored record already names page
      2, the blob and the update queue are untouched, and the next due crawl
      starts at page 2, so comment 1 is never appended. */
  lemma InterruptedCrawlLosesPage(lookup: Lookup, now: int, id: int, later: int)
    requires now + MinUpdateInterval <= later <= now + ExpiredTime
    ensures var answered := [Response(200, [Comment(1, "a")], 2), Response(200, [Comment(2, "b")], 2)];
            var w' := InterruptedCrawl(lookup, CommentsWorld([], [], map[], map[]), id, 1, now, answered);
            && w'.states == map[Key(id) := CommentState(2, 2, now, 2)]
            && w'.blobs == map[]
            && w'.updates == []
            && w'.queue == [id]
            && Decide(w'.states, Key(id), later) == Crawl(2)
  {
    var answered := [Response(200, [Comment(1, "a")], 2), Response(200, [Comment(2, "b")], 2)];
    InterruptedPageOne(lookup, now, id, answered);
    InterruptedPageTwo(lookup, now, id, answered[1..]);
  }

  /** Page 1 of that crawl keeps comment 1 from -1 and records page 1. */
  lemma InterruptedPageOne(lookup: Lookup, now: int, id: int, answered: seq<PageResponse>)
    requires answered == [Response(200, [Comment(1, "a")], 2), Response(200, [Comment(2, "b")], 2)]
    ensures CrawlPages(lookup, map[], Key(id), 1, now, answered).states
            == CrawlPages(lookup, map[Key(id) := CommentState(1, 1, now, 2)], Key(id), 2, now, answered[1..]).states
  {
    assert Seed(lookup, map[], Key(id)) == -1;
    CrawlOneComment(lookup, map[], Key(id), 1, now, answered);
  }

  /** Page 2 keeps comment 2 from either seed and records page 2, and the
      answers end there. */
  lemma InterruptedPageTwo(lookup: Lookup, now: int, id: int, rest: seq<PageResponse>)
    requires rest == [Response(200, [Comment(2, "b")], 2)]
    ensures CrawlPages(lookup, map[Key(id) := CommentState(1, 1, now, 2)], Key(id), 2, now, rest).states
            == map[Key(id) := CommentState(2, 2, now, 2)]
  {
    var states1 := map[Key(id) := CommentState(1, 1, now, 2)];
    SeedOwnOrNone(lookup, id, states1[Key(id)]);
    CrawlOneComment(lookup, states1, Key(id), 2, now, rest);
    assert rest[1..] == [];
  }

  /** The two readings of the initial `latestid` of `updatecomments`. */
  datatype Lookup =
    | AsWritten   // `newsid in info and info.get("latest_id", -1) or -1`
    | Intended    // the stored watermark of the thread's own record

  function Seed(lookup: Lookup, states: map<string, CommentState>, key: string): int {
    match lookup
    case AsWritten => SeedAsWritten(states, key)
    case Intended => SeedFor(states, key)
  }

  /** The initial `latestid` as written, where `info` maps each thread key to
      its stored record. The `.get` asks for a thread whose key is literally
      "latest_id" instead of for the field of `newsid`'s own record. Thread
      keys are decimal ids, so that entry never exists and the lookup falls
      back to -1 (SeedAsWrittenIgnoresWatermark); were it to exist, the
      source would get a whole record where it expects a number, so the
      model's reading of that entry's watermark only keeps the function total. */
  function SeedAsWritten(states: map<string, CommentState>, key: string): int {
    if key in states && "latest_id" in states && states["latest_id"].latestId != 0
    then states["latest_id"].latestId
    else -1
  }

  /** The lookup the code evidently means: the stored watermark of this thread. */
  function SeedFor(states: map<string, CommentState>, key: string): (seed: int)
    ensures key in states ==> seed == states[key].latestId
    ensures key !in states ==> seed == -1
  {
    if key in states then states[key].latestId else -1
  }

  lemma KeyNotWord(n: int)
    ensures Key(n)[0] != 'l'
  {
  }

  /** As written, the stored watermark is never consulted: thread keys are
      decimal renderings of news ids, none of which is "latest_id", so every
      page is filtered as if the thread had never been crawled. */
  lemma SeedAsWrittenIgnoresWatermark(states: map<string, CommentState>, key: string)
    requires forall k :: k in states ==> exists n :: k == Key(n)
    ensures SeedAsWritten(states, key) == -1
  {
    if "latest_id" in states {
      var n :| "latest_id" == Key(n);
      KeyNotWord(n);
      assert false;
    }
  }

  /** With the intended lookup, a re-crawl never appends a comment whose id
      lies below the thread's stored watermark. */
  lemma SeedForDedups(states: map<string, CommentState>, key: string, page: seq<Comment>)
    requires key in states && states[key].latestId >= 0
    ensures forall j :: 0 <= j < |Kept(SeedFor(states, key), page)| ==>
              Kept(SeedFor(states, key), page)[j].id >= states[key].latestId
  {
    KeptAboveSeed(states[key].latestId, page);
  }

  /** The discrepancy on one page: thread 42 was crawled up to comment 7 on
      page 1; re-fetching page 1 as written appends comment 5 a second time,
      while the intended lookup keeps only comment 7 (equal ids pass the strict
      test in both versions). */
  lemma RecrawlDuplicates()
    ensures var states := map["42" := CommentState(1, 7, 1000, 2)];
            var page := [Comment(5, "a"), Comment(7, "b")];
            && Kept(SeedAsWritten(states, "42"), page) == page
            && Kept(SeedFor(states, "42"), page) == [Comment(7, "b")]
  {
    var page := [Comment(5, "a"), Comment(7, "b")];
    assert page[..1] == [Comment(5, "a")] && page[..0] == [];
    assert page[..|page| - 1] == [Comment(5, "a")];
    assert Ids([Comment(5, "a")]) == [5];
    assert Ids([Comment(5, "a")])[..0] == [];
    assert MaxOf(-1, [5]) == 5;
    assert MaxOf(7, [5]) == 7;
  }

  /** A one-comment page whose comment is not below the seed is kept whole,
      and its id becomes the watermark. */
  lemma ExampleSingleKept(seed: int, c: Comment)
    requires seed <= c.id
    ensures Kept(seed, [c]) == [c]
    ensures MaxOf(seed, Ids([c])) == c.id
  {
    assert [c][..0] == [];
    assert Ids([c]) == [c.id];
    assert Ids([c])[..0] == [];
  }

  /** A one-comment page whose comment lies below the seed keeps nothing. */
  lemma ExampleSingleDropped(seed: int, c: Comment)
    requires seed != -1 && c.id < seed
    ensures Kept(seed, [c]) == []
  {
    assert [c][..0] == [];
    assert Ids([c][..0]) == [];
  }

  /** The discrepancy over a whole cycle. Thread `id` was crawled an hour ago
      up to comment 9 on page 1; page 1 now holds the old comment 5, page 2
      the new comment 10, page 3 is empty. As written the loop keeps comment
      5 again, goes on to page 2, appends both and announces the thread; with
      the intended lookup page 1 keeps nothing, so the loop stops there, the
      blob is untouched and nothing is announced. */
  lemma RecrawlCycle(now: int, id: int)
    requires id != 0 && now > 3600
    ensures var key := Key(id);
            var w := CommentsWorld([id], [], map[key := CommentState(1, 9, now - 3600, 1)], map[]);
            var pages := [Response(200, [Comment(5, "a")], 1), Response(200, [Comment(10, "b")], 2),
                          Response(200, [], 2)];
            var asWritten := CommentsStep(AsWritten, w, now, pages);
            var intended := CommentsStep(Intended, w, now, pages);
            && asWritten.blobs == map[key := [Comment(5, "a"), Comment(10, "b")]]
            && asWritten.updates == [id]
            && intended.blobs == map[]
            && intended.updates == []
  {
    var key := Key(id);
    var w := CommentsWorld([id], [], map[key := CommentState(1, 9, now - 3600, 1)], map[]);
    var pages := [Response(200, [Comment(5, "a")], 1), Response(200, [Comment(10, "b")], 2),
                  Response(200, [], 2)];
    RecrawlCycleCrawls(now, id, w, pages);
    RecrawlCycleAsWritten(now, id, w, pages);
    RecrawlCycleIntended(now, id, w, pages);
  }

  /** The thread of that cycle is due and crawled from its stored page 1. */
  lemma RecrawlCycleCrawls(now: int, id: int, w: CommentsWorld, pages: seq<PageResponse>)
    requires id != 0 && now > 3600
    requires w == CommentsWorld([id], [], map[Key(id) := CommentState(1, 9, now - 3600, 1)], map[])
    ensures forall lookup: Lookup :: CommentsStep(lookup, w, now, pages)
                                     == CrawlThread(lookup, w.(queue := []), id, 1, now, pages)
  {
    assert Decide(w.states, Key(id), now) == Crawl(1);
    assert w.queue[1..] == [];
    forall lookup: Lookup
      ensures CommentsStep(lookup, w, now, pages) == CrawlThread(lookup, w.(queue := []), id, 1, now, pages)
    {
      StepCrawls(lookup, w, now, pages);
    }
  }

  lemma RecrawlCycleAsWritten(now: int, id: int, w: CommentsWorld, pages: seq<PageResponse>)
    requires id != 0
    requires w.states == map[Key(id) := CommentState(1, 9, now - 3600, 1)] && w.blobs == map[] && w.updates == []
    requires pages == [Response(200, [Comment(5, "a")], 1), Response(200, [Comment(10, "b")], 2), Response(200, [], 2)]
    ensures var r := CrawlThread(AsWritten, w.(queue := []), id, 1, now, pages);
            r.blobs == map[Key(id) := [Comment(5, "a"), Comment(10, "b")]] && r.updates == [id]
  {
    var key := Key(id);
    KeyNotWord(id);
    assert "latest_id"[0] == 'l';
    RecrawlPagesAsWritten(w.states, key, now, pages);
    var la := CrawlPages(AsWritten, w.states, key, 1, now, pages);
    assert [] + Flatten(la.chunks) == [Comment(5, "a"), Comment(10, "b")];
  }

  lemma RecrawlCycleIntended(now: int, id: int, w: CommentsWorld, pages: seq<PageResponse>)
    requires w.states == map[Key(id) := CommentState(1, 9, now - 3600, 1)] && w.blobs == map[] && w.updates == []
    requires |pages| > 0 && pages[0] == Response(200, [Comment(5, "a")], 1)
    ensures var r := CrawlThread(Intended, w.(queue := []), id, 1, now, pages);
            r.blobs == map[] && r.updates == []
  {
    RecrawlPagesIntended(w.states, Key(id), now, pages);
  }

  /** The page loop of that cycle as written: both delivering pages, each
      with its one comment. */
  lemma RecrawlPagesAsWritten(states: map<string, CommentState>, key: string, now: int, pages: seq<PageResponse>)
    requires "latest_id" !in states && key != "latest_id"
    requires pages == [Response(200, [Comment(5, "a")], 1), Response(200, [Comment(10, "b")], 2), Response(200, [], 2)]
    ensures Flatten(CrawlPages(AsWritten, states, key, 1, now, pages).chunks) == [Comment(5, "a"), Comment(10, "b")]
  {
    var c5 := Comment(5, "a");
    var c10 := Comment(10, "b");
    CrawlPagesAsWritten(states, key, 1, now, pages);
    var a := CrawlPages(AsWritten, states, key, 1, now, pages).chunks;
    ExampleSingleKept(-1, c5);
    ExampleSingleKept(-1, c10);
    assert Delivers(pages[0]) && Delivers(pages[1]) && !Delivers(pages[2]);
    assert |a| == 2;
    assert a[0] == [c5] && a[1] == [c10];
    assert a == [[c5], [c10]];
    assert a[1..] == [[c10]] && [[c10]][1..] == [];
    assert Flatten([[c10]]) == [c10] + [];
  }

  /** The page loop of that cycle with the intended lookup: page 1 keeps
      nothing against the stored watermark 9, so the loop stops there. */
  lemma RecrawlPagesIntended(states: map<string, CommentState>, key: string, now: int, pages: seq<PageResponse>)
    requires key in states && states[key].latestId == 9
    requires |pages| > 0 && pages[0] == Response(200, [Comment(5, "a")], 1)
    ensures CrawlPages(Intended, states, key, 1, now, pages).chunks == []
  {
    ExampleSingleDropped(9, Comment(5, "a"));
    CrawlPagesUnfold(Intended, states, key, 1, now, pages);
  }

  /** The outcomes of the example crawl below: pages 1 and 2 deliver their
      comment and save their page, page 2 against the watermark page 1 saved,
      and page 3 is empty. */
  lemma ExampleFetches(now: int)
    ensures var p1 := [Comment(1, "a")];
            var p2 := [Comment(2, "b")];
            var pages := [Response(200, p1, 2), Response(200, p2, 2), Response(200, [], 2)];
            Fetches(-1, 1, now, pages)
            == [PageResult(p1, Some(CommentState(1, 1, now, 2))),
                PageResult(p2, Some(CommentState(2, 2, now, 2))),
                PageResult([], None)]
  {
    var p1 := [Comment(1, "a")];
    var p2 := [Comment(2, "b")];
    var pages := [Response(200, p1, 2), Response(200, p2, 2), Response(200, [], 2)];
    ExampleSingleKept(-1, Comment(1, "a"));
    ExampleSingleKept(1, Comment(2, "b"));
    var r1 := PageResult(p1, Some(CommentState(1, 1, now, 2)));
    var r2 := PageResult(p2, Some(CommentState(2, 2, now, 2)));
    assert pages[1..] == [Response(200, p2, 2), Response(200, [], 2)];
    assert pages[1..][1..] == [Response(200, [], 2)];
    assert Fetches(2, 3, now, pages[1..][1..]) == [PageResult([], None)];
    assert FetchPage(1, 2, now, pages[1..][0]) == r2;
    assert Fetches(1, 2, now, pages[1..]) == [r2] + [PageResult([], None)];
    assert FetchPage(-1, 1, now, pages[0]) == r1;
  }

  /** Over those outcomes the page loop stops at the empty third page, after
      two chunks, with the state naming page 2 (the last page that had
      comments) and the server's count. */
  lemma ExamplePageLoop(now: int, key: string)
    ensures var p1 := [Comment(1, "a")];
            var p2 := [Comment(2, "b")];
            var results := [PageResult(p1, Some(CommentState(1, 1, now, 2))),
                            PageResult(p2, Some(CommentState(2, 2, now, 2))),
                            PageResult([], None)];
            PageLoop(map[], key, 1, results) == LoopResult([p1, p2], 3, map[key := CommentState(2, 2, now, 2)])
  {
    var p1 := [Comment(1, "a")];
    var p2 := [Comment(2, "b")];
    var results := [PageResult(p1, Some(CommentState(1, 1, now, 2))),
                    PageResult(p2, Some(CommentState(2, 2, now, 2))),
                    PageResult([], None)];
    var s1 := map[key := CommentState(1, 1, now, 2)];
    var s2 := map[key := CommentState(2, 2, now, 2)];
    assert results[1..] == [PageResult(p2, Some(CommentState(2, 2, now, 2))), PageResult([], None)];
    assert results[1..][1..] == [PageResult([], None)];
    var r3 := PageLoop(s2, key, 3, results[1..][1..]);
    assert r3 == LoopResult([], 3, s2);
    assert Commit(s1, key, results[1..][0]) == s2;
    assert Commit(map[], key, results[0]) == s1;
    var r2 := PageLoop(s1, key, 2, results[1..]);
    assert r2 == LoopResult([p2] + r3.chunks, r3.page, r3.states);
    assert PageLoop(map[], key, 1, results) == LoopResult([p1] + r2.chunks, r2.page, r2.states);
    assert [p1] + ([p2] + []) == [p1, p2];
  }

  /** The same first crawl as a whole cycle of a new thread `id`: two chunks
      appended to the new blob, an update announced, and the thread back in
      the queue, with the intended lookup. */
  lemma ExampleCrawl(now: int, id: int)
    requires id != 0
    ensures var p1 := [Comment(1, "a")];
            var p2 := [Comment(2, "b")];
            var pages := [Response(200, p1, 2), Response(200, p2, 2), Response(200, [], 2)];
            var w' := CommentsStep(Intended, CommentsWorld([id], [], map[], map[]), now, pages);
            && w'.queue == [id]
            && w'.updates == [id]
            && w'.blobs == map[Key(id) := p1 + p2]
            && w'.states == map[Key(id) := CommentState(2, 2, now, 2)]
  {
    var p1 := [Comment(1, "a")];
    var p2 := [Comment(2, "b")];
    var pages := [Response(200, p1, 2), Response(200, p2, 2), Response(200, [], 2)];
    var w := CommentsWorld([id], [], map[], map[]);
    var key := Key(id);
    ExampleFetches(now);
    ExamplePageLoop(now, key);
    assert Decide(map[], key, now) == Crawl(FirstPage);
    StepCrawls(Intended, w, now, pages);
    assert SeedFor(map[], key) == -1;
    CrawlPagesByFetches(map[], key, 1, now, pages);
    var l := CrawlPages(Intended, map[], key, 1, now, pages);
    assert l == LoopResult([p1, p2], 3, map[key := CommentState(2, 2, now, 2)]);
    assert [p1, p2][1..] == [p2] && [p2][1..] == [];
    assert Flatten([p2]) == p2 + [];
    assert Flatten([p1, p2]) == p1 + p2;
    assert [] + Flatten(l.chunks) == p1 + p2;
    assert CrawlThread(Intended, CommentsWorld([], [], map[], map[]), id, 1, now, pages)
        == CommentsWorld([id], [id], l.states, map[key := p1 + p2]);
  }
}
