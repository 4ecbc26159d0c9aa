/** Ordering of what the comment stage appends to a thread's blob: a
    consequence of the per-page filter and the watermark each page saves,
    stated over whole crawl cycles. */

module CommentsOrder {
  import opened Common
  import opened Comments

  predicate SortedById(cs: seq<Comment>) {
    forall i, j :: 0 <= i < j < |cs| ==> cs[i].id <= cs[j].id
  }

  predicate AllAtLeast(cs: seq<Comment>, bound: int) {
    forall i :: 0 <= i < |cs| ==> cs[i].id >= bound
  }

  predicate AllAtMost(cs: seq<Comment>, bound: int) {
    forall i :: 0 <= i < |cs| ==> cs[i].id <= bound
  }

  lemma SortedAppend(a: seq<Comment>, b: seq<Comment>, m: int)
    requires SortedById(a) && SortedById(b) && AllAtMost(a, m) && AllAtLeast(b, m)
    ensures SortedById(a + b)
  {
    var ab := a + b;
    forall i, j | 0 <= i < j < |ab|
      ensures ab[i].id <= ab[j].id
    {
      if j < |a| {
        assert ab[i] == a[i] && ab[j] == a[j];
      } else if i >= |a| {
        assert ab[i] == b[i - |a|] && ab[j] == b[j - |a|];
      } else {
        assert ab[i] == a[i] && ab[j] == b[j - |a|];
      }
    }
  }

  /** What one page keeps, against the watermark that page saves: sorted,
      at or above the seed (when the ids are non-negative), and at or below
      the new watermark. */
  lemma PageChunkBounds(seed: int, page: int, now: int, resp: PageResponse)
    requires resp.Response? ==> forall i :: 0 <= i < |resp.comments| ==> resp.comments[i].id >= 0
    ensures var r := FetchPage(seed, page, now, resp);
            && SortedById(r.chunk)
            && AllAtLeast(r.chunk, seed)
            && AllAtMost(r.chunk, NextSeed(seed, r))
  {
    var r := FetchPage(seed, page, now, resp);
    if resp.Response? && resp.status == 200 && |resp.comments| > 0 {
      var cs := resp.comments;
      KeptSorted(seed, cs);
      if seed >= 0 {
        KeptAboveSeed(seed, cs);
      } else {
        KeptFromPage(seed, cs);
      }
      KeptMax(seed, cs);
      MaxOfUpper(seed, Ids(r.chunk));
      assert forall i :: 0 <= i < |r.chunk| ==> Ids(r.chunk)[i] == r.chunk[i].id;
    }
  }

  /** Across a whole cycle, with the intended watermark lookup and
      non-negative comment ids, what the cycle appends to a thread's blob is
      in non-decreasing id order and never lies below the stored watermark:
      no comment already appended is appended again, except one equal to the
      watermark. */
  lemma {:induction false} CrawlPagesInOrder(states: map<string, CommentState>, key: string, page: int,
                                             now: int, pages: seq<PageResponse>)
    requires forall k, i :: 0 <= k < |pages| && pages[k].Response? && 0 <= i < |pages[k].comments| ==>
               pages[k].comments[i].id >= 0
    ensures var appended := Flatten(CrawlPages(Intended, states, key, page, now, pages).chunks);
            SortedById(appended) && AllAtLeast(appended, SeedFor(states, key))
    decreases |pages|
  {
    if |pages| > 0 {
      var seed := SeedFor(states, key);
      var res := FetchPage(seed, page, now, pages[0]);
      var states' := Commit(states, key, res);
      PageChunkBounds(seed, page, now, pages[0]);
      CrawlPagesUnfold(Intended, states, key, page, now, pages);
      if |res.chunk| > 0 {
        var seed' := NextSeed(seed, res);
        assert SeedFor(states', key) == seed' && seed' >= seed;
        CrawlPagesInOrder(states', key, page + 1, now, pages[1..]);
        var rest := CrawlPages(Intended, states', key, page + 1, now, pages[1..]);
        FlattenCons(res.chunk, rest.chunks);
        SortedAppend(res.chunk, Flatten(rest.chunks), seed');
      }
    }
  }

  /** Re-crawling a thread never rewrites its blob and never appends a
      comment below its stored watermark: the old content stays as a prefix,
      and what follows it is in non-decreasing id order (ids non-negative). */
  lemma CrawlAppendsInOrder(w: CommentsWorld, id: int, start: int, now: int, pages: seq<PageResponse>)
    requires forall k, i :: 0 <= k < |pages| && pages[k].Response? && 0 <= i < |pages[k].comments| ==>
               pages[k].comments[i].id >= 0
    ensures var key := Key(id);
            var before := if key in w.blobs then w.blobs[key] else [];
            var w' := CrawlThread(Intended, w, id, start, now, pages);
            key in w'.blobs ==>
              && |before| <= |w'.blobs[key]|
              && w'.blobs[key][..|before|] == before
              && SortedById(w'.blobs[key][|before|..])
              && AllAtLeast(w'.blobs[key][|before|..], SeedFor(w.states, key))
  {
    var key := Key(id);
    var before := if key in w.blobs then w.blobs[key] else [];
    var l := CrawlPages(Intended, w.states, key, start, now, pages);
    var w' := CrawlThread(Intended, w, id, start, now, pages);
    CrawlThreadSpec(Intended, w, id, start, now, pages);
    CrawlPagesInOrder(w.states, key, start, now, pages);
    if key in w'.blobs {
      if |l.chunks| > 0 {
        assert w'.blobs[key] == before + Flatten(l.chunks);
        assert w'.blobs[key][|before|..] == Flatten(l.chunks);
      } else {
        assert w'.blobs[key] == before;
        assert w'.blobs[key][|before|..] == [];
      }
    }
  }
}
