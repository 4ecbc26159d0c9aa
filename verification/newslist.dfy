/** The category list discovery stage (`getter/snowball/newslist.getter.py`).

    For one category the worker keeps `{last_id, latest_id}` in the news-list
    hash. While `last_id` holds a continuation id it pages down the list with
    `max_id`; otherwise it asks for what is newer than `latest_id` with
    `since_id`. Items of a 200 answer are queued as article jobs until one
    whose id equals the running `latest_id` shows up, and the new pair is
    written back. */
module NewsList {
  import opened Common
  import Queue

  /** The `v` part of a news-list hash record, keyed by category. */
  datatype ListState = ListState(lastId: int, latestId: int)

  datatype Field = LastId | LatestId

  /** A list entry: its id and the `target` path found in its `data` JSON. */
  datatype ListItem = ListItem(id: int, target: string)

  datatype ListResponse =
    | ConnectionError
    | Response(status: int, items: seq<ListItem>, nextMaxId: Option<int>)

  /** An article job; `time == 0` marks a job that was never crawled. */
  datatype Job = Job(link: string, id: int, time: int, category: int)

  /** The paging parameters of the request (`-1` means "not used"). */
  datatype Request = Request(maxId: int, sinceId: int)

  function FieldOf(s: ListState, f: Field): int {
    match f
    case LastId => s.lastId
    case LatestId => s.latestId
  }

  /** `getfield`: the stored field when the category has a record and the
      value is truthy (non-zero), the default otherwise. */
  function GetField(table: map<int, ListState>, category: int, f: Field, default: int): (r: int)
    ensures r == default || (category in table && r == FieldOf(table[category], f))
    ensures r == 0 ==> default == 0
  {
    if category in table && FieldOf(table[category], f) != 0 then FieldOf(table[category], f) else default
  }

  /** Reading back a record just written: its value, unless that value is 0,
      which Python's `or` replaces by the default. */
  lemma GetFieldAfterWrite(table: map<int, ListState>, category: int, s: ListState, f: Field, default: int)
    ensures FieldOf(s, f) != 0 ==> GetField(table[category := s], category, f, default) == FieldOf(s, f)
    ensures FieldOf(s, f) == 0 ==> GetField(table[category := s], category, f, default) == default
  {
  }

  /** Paging direction: down from a continuation id with `max_id`, otherwise
      up from the newest known id with `since_id`. */
  function RequestFor(lastId: int, latestId: int): (q: Request)
    ensures lastId > -1 ==> q.maxId == lastId && q.sinceId == -1
    ensures lastId <= -1 ==> q.maxId == -1 && q.sinceId == latestId
    ensures q.maxId == -1 || q.sinceId == -1
  {
    if lastId > -1 then Request(lastId, -1) else Request(-1, latestId)
  }

  function ItemIds(items: seq<ListItem>): (r: seq<int>)
    ensures |r| == |items|
    ensures forall i :: 0 <= i < |items| ==> r[i] == items[i].id
  {
    seq(|items|, i requires 0 <= i < |items| => items[i].id)
  }

  function JobFor(item: ListItem, category: int, homepage: string): Job {
    Job(homepage + item.target, item.id, 0, category)
  }

  datatype Scan = Scan(jobs: seq<Job>, lastId: int, latestId: int, reached: bool)

  /** The item loop of `getnewslist`, head first. `next` is the answer's
      `next_max_id` (or -1 when it has none). */
  function ScanList(items: seq<ListItem>, lastId: int, latestId: int, next: int,
                    category: int, homepage: string): (r: Scan)
    ensures |r.jobs| <= |items|
    ensures r.reached <==> |r.jobs| < |items|
    ensures forall k :: 0 <= k < |r.jobs| ==> r.jobs[k] == JobFor(items[k], category, homepage)
    ensures r.lastId == if lastId > -1 && |r.jobs| > 0 then next else lastId
    ensures r.latestId >= latestId
    decreases |items|
  {
    if |items| == 0 then Scan([], lastId, latestId, false)
    else if items[0].id == latestId then Scan([], lastId, latestId, true)
    else
      var rest := ScanList(items[1..], if lastId > -1 then next else lastId, Max(latestId, items[0].id),
                           next, category, homepage);
      rest.(jobs := [JobFor(items[0], category, homepage)] + rest.jobs)
  }

  lemma ItemIdsCons(items: seq<ListItem>, k: int)
    requires 1 <= k <= |items|
    ensures ItemIds(items[..k]) == [items[0].id] + ItemIds(items[1..][..k - 1])
  {
    assert items[..k] == [items[0]] + items[1..][..k - 1];
  }

  /** One step of the scan on an item that is not the stop id. */
  lemma ScanGoesOn(items: seq<ListItem>, lastId: int, latestId: int, next: int, category: int, homepage: string)
    requires |items| > 0 && items[0].id != latestId
    ensures var rest := ScanList(items[1..], if lastId > -1 then next else lastId, Max(latestId, items[0].id),
                                 next, category, homepage);
            ScanList(items, lastId, latestId, next, category, homepage)
            == rest.(jobs := [JobFor(items[0], category, homepage)] + rest.jobs)
  {
  }

  /** The new `latest_id` is the maximum of the stored one and the queued ids. */
  lemma {:induction false} ScanLatest(items: seq<ListItem>, lastId: int, latestId: int, next: int,
                                      category: int, homepage: string)
    ensures var r := ScanList(items, lastId, latestId, next, category, homepage);
            r.latestId == MaxOf(latestId, ItemIds(items[..|r.jobs|]))
    decreases |items|
  {
    if |items| > 0 && items[0].id != latestId {
      var l1 := Max(latestId, items[0].id);
      var lastId1 := if lastId > -1 then next else lastId;
      var tail := items[1..];
      var rest := ScanList(tail, lastId1, l1, next, category, homepage);
      var m := |rest.jobs|;
      ScanLatest(tail, lastId1, l1, next, category, homepage);
      assert rest.latestId == MaxOf(l1, ItemIds(tail[..m]));
      ScanGoesOn(items, lastId, latestId, next, category, homepage);
      var r := ScanList(items, lastId, latestId, next, category, homepage);
      assert r.latestId == rest.latestId && |r.jobs| == m + 1;
      ItemIdsCons(items, m + 1);
      MaxOfCons(latestId, items[0].id, ItemIds(tail[..m]));
    } else {
      assert ItemIds(items[..0]) == [];
    }
  }

  /** The stop test compares with the RUNNING maximum: item `k` is queued iff
      no earlier item stopped the scan and its id differs from the maximum of
      the stored `latest_id` and the ids before it; the scan stops at the first
      item whose id equals that maximum. */
  lemma {:induction false} ScanStops(items: seq<ListItem>, lastId: int, latestId: int, next: int,
                                     category: int, homepage: string)
    ensures var r := ScanList(items, lastId, latestId, next, category, homepage);
            && (forall k :: 0 <= k < |r.jobs| ==> items[k].id != MaxOf(latestId, ItemIds(items[..k])))
            && (r.reached ==> items[|r.jobs|].id == MaxOf(latestId, ItemIds(items[..|r.jobs|])))
    decreases |items|
  {
    var r := ScanList(items, lastId, latestId, next, category, homepage);
    assert ItemIds(items[..0]) == [];
    if |items| > 0 && items[0].id != latestId {
      var l1 := Max(latestId, items[0].id);
      var lastId1 := if lastId > -1 then next else lastId;
      var tail := items[1..];
      ScanStops(tail, lastId1, l1, next, category, homepage);
      ScanGoesOn(items, lastId, latestId, next, category, homepage);
      var m := |ScanList(tail, lastId1, l1, next, category, homepage).jobs|;
      assert |r.jobs| == m + 1;
      forall k | 0 <= k < |r.jobs|
        ensures items[k].id != MaxOf(latestId, ItemIds(items[..k]))
      {
        if k > 0 {
          ItemIdsCons(items, k);
          MaxOfCons(latestId, items[0].id, ItemIds(tail[..k - 1]));
          assert items[k] == tail[k - 1];
        }
      }
      if r.reached {
        ItemIdsCons(items, m + 1);
        MaxOfCons(latestId, items[0].id, ItemIds(tail[..m]));
        assert items[m + 1] == tail[m];
      }
    }
  }

  /** The news-list state and the article queue the stage feeds. */
  datatype ListWorld = ListWorld(table: map<int, ListState>, queue: seq<Job>)

  datatype ListOutcome = ListOutcome(world: ListWorld, request: Request, reached: bool)

  /** `getnewslist` for the crawler's category. */
  function GetNewsList(w: ListWorld, category: int, homepage: string, resp: ListResponse): (o: ListOutcome)
    ensures |w.queue| <= |o.world.queue| && o.world.queue[..|w.queue|] == w.queue
    ensures o.world.table - {category} == w.table - {category}
    ensures o.reached ==> resp.Response? && resp.status == 200
    ensures o.request.maxId == -1 || o.request.sinceId == -1
  {
    var lastId := GetField(w.table, category, LastId, -1);
    var latestId := GetField(w.table, category, LatestId, -1);
    var request := RequestFor(lastId, latestId);
    match resp
    case ConnectionError => ListOutcome(w, request, false)
    case Response(status, items, next) =>
      if status == 403 then ListOutcome(w, request, false)
      else if status == 200 then
        var r := ScanList(items, lastId, latestId, next.GetOr(-1), category, homepage);
        var table := w.table[category := ListState(r.lastId, r.latestId)];
        ListOutcome(ListWorld(table, w.queue + r.jobs), request, r.reached)
      else ListOutcome(w, request, false)
  }

  /** A 403, any other non-200 status, or a connection error writes nothing,
      queues nothing and does not count as reaching the stop id. */
  lemma FailureChangesNothing(w: ListWorld, category: int, homepage: string, resp: ListResponse)
    requires resp.ConnectionError? || resp.status != 200
    ensures GetNewsList(w, category, homepage, resp).world == w
    ensures !GetNewsList(w, category, homepage, resp).reached
  {
  }

  lemma AppendedAt<T>(q: seq<T>, xs: seq<T>)
    ensures (q + xs)[..|q|] == q
    ensures forall k :: 0 <= k < |xs| ==> (q + xs)[|q| + k] == xs[k]
  {
  }

  /** A 200 answer writes the scan's record and appends its jobs. */
  lemma SuccessApplies(w: ListWorld, category: int, homepage: string, resp: ListResponse)
    requires resp.Response? && resp.status == 200
    ensures var r := ScanList(resp.items, GetField(w.table, category, LastId, -1),
                              GetField(w.table, category, LatestId, -1), resp.nextMaxId.GetOr(-1), category, homepage);
            GetNewsList(w, category, homepage, resp)
            == ListOutcome(ListWorld(w.table[category := ListState(r.lastId, r.latestId)], w.queue + r.jobs),
                           RequestFor(GetField(w.table, category, LastId, -1), GetField(w.table, category, LatestId, -1)),
                           r.reached)
  {
  }

  /** A 200 answer appends the queued jobs, in list order, behind the
      existing queue: one per item before the stop, and the crawler sleeps
      exactly when some item was left unqueued. */
  lemma SuccessQueuesJobs(w: ListWorld, category: int, homepage: string, resp: ListResponse)
    requires resp.Response? && resp.status == 200
    ensures var o := GetNewsList(w, category, homepage, resp);
            var n := |o.world.queue| - |w.queue|;
            && 0 <= n <= |resp.items|
            && o.world.queue[..|w.queue|] == w.queue
            && (forall k :: 0 <= k < n ==> o.world.queue[|w.queue| + k] == JobFor(resp.items[k], category, homepage))
            && (o.reached <==> n < |resp.items|)
  {
    var r := ScanList(resp.items, GetField(w.table, category, LastId, -1), GetField(w.table, category, LatestId, -1),
                      resp.nextMaxId.GetOr(-1), category, homepage);
    SuccessApplies(w, category, homepage, resp);
    AppendedAt(w.queue, r.jobs);
  }

  /** A 200 answer always writes the category's record and no other. The new
      `last_id` is `next_max_id` (or -1) once any item was queued in `max_id`
      mode and is unchanged otherwise; the new `latest_id` is the maximum of
      the stored one and the queued ids. */
  lemma SuccessWritesRecord(w: ListWorld, category: int, homepage: string, resp: ListResponse)
    requires resp.Response? && resp.status == 200
    ensures var o := GetNewsList(w, category, homepage, resp);
            var lastId := GetField(w.table, category, LastId, -1);
            var latestId := GetField(w.table, category, LatestId, -1);
            var n := |o.world.queue| - |w.queue|;
            && 0 <= n <= |resp.items|
            && category in o.world.table
            && o.world.table - {category} == w.table - {category}
            && o.world.table[category].lastId == (if lastId > -1 && n > 0 then resp.nextMaxId.GetOr(-1) else lastId)
            && o.world.table[category].latestId == MaxOf(latestId, ItemIds(resp.items[..n]))
  {
    var lastId := GetField(w.table, category, LastId, -1);
    var latestId := GetField(w.table, category, LatestId, -1);
    var r := ScanList(resp.items, lastId, latestId, resp.nextMaxId.GetOr(-1), category, homepage);
    SuccessApplies(w, category, homepage, resp);
    var o := GetNewsList(w, category, homepage, resp);
    assert |o.world.queue| - |w.queue| == |r.jobs|;
    assert o.world.table == w.table[category := ListState(r.lastId, r.latestId)];
    ScanLatest(resp.items, lastId, latestId, resp.nextMaxId.GetOr(-1), category, homepage);
  }

  /** The crawler sleeps only after a 200 answer in which an item carried the
      running `latest_id`. */
  lemma SleepOnlyAtStopId(w: ListWorld, category: int, homepage: string, resp: ListResponse)
    requires GetNewsList(w, category, homepage, resp).reached
    ensures resp.Response? && resp.status == 200
    ensures exists k :: 0 <= k < |resp.items| &&
              resp.items[k].id == MaxOf(GetField(w.table, category, LatestId, -1), ItemIds(resp.items[..k]))
  {
    var lastId := GetField(w.table, category, LastId, -1);
    var latestId := GetField(w.table, category, LatestId, -1);
    var r := ScanList(resp.items, lastId, latestId, resp.nextMaxId.GetOr(-1), category, homepage);
    ScanStops(resp.items, lastId, latestId, resp.nextMaxId.GetOr(-1), category, homepage);
    assert resp.items[|r.jobs|].id == MaxOf(latestId, ItemIds(resp.items[..|r.jobs|]));
  }

  /** The watermark the next cycle reads never goes down. */
  lemma LatestIdNonDecreasing(w: ListWorld, category: int, homepage: string, resp: ListResponse)
    ensures GetField(GetNewsList(w, category, homepage, resp).world.table, category, LatestId, -1)
            >= GetField(w.table, category, LatestId, -1)
  {
  }

  /** The paging direction of the request follows the stored `last_id`. */
  lemma RequestDirection(w: ListWorld, category: int, homepage: string, resp: ListResponse)
    ensures var o := GetNewsList(w, category, homepage, resp);
            && (category in w.table && w.table[category].lastId > 0 ==>
                  o.request == Request(w.table[category].lastId, -1))
            && (category !in w.table || w.table[category].lastId <= 0 ==>
                  o.request == Request(-1, GetField(w.table, category, LatestId, -1)))
  {
  }
}
