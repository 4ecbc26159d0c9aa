/** The Redis-backed work queue, as a sequence in delivery order: a push adds
    at the tail and a pop removes the head, so items come out in the order they
    went in. The atomicity that the store's scripts provide between concurrent
    workers is not part of this model. */
module Queue {
  import opened Common

  function Push<T>(q: seq<T>, x: T): (r: seq<T>)
    ensures |r| == |q| + 1 && r[..|q|] == q && r[|q|] == x
  {
    q + [x]
  }

  /** Removes the head, or reports an empty queue. */
  function Pop<T>(q: seq<T>): (r: Option<(T, seq<T>)>)
    ensures r.None? <==> |q| == 0
    ensures r.Some? ==> [r.value.0] + r.value.1 == q
  {
    if |q| == 0 then None else Some((q[0], q[1..]))
  }

  /** The single-element range `list(queue, i, i)`. Pushes go to the head of
      the store's list and pops take its tail, so the list index counts from
      the most recent push: index 0 is the newest item, -1 the oldest (the
      next one a pop delivers), and anything outside the queue yields
      nothing. The queue is never changed by it. */
  function At<T>(q: seq<T>, i: int): (r: Option<T>)
    ensures r.Some? <==> -|q| <= i < |q|
  {
    if 0 <= i < |q| then Some(q[|q| - 1 - i])
    else if -|q| <= i < 0 then Some(q[-i - 1])
    else None
  }

  /** A push lands at index 0 and moves every item one index further: a
      cursor held at a fixed index sees a different item after a push. */
  lemma AtAfterPush<T>(q: seq<T>, x: T, i: int)
    requires i >= 0
    ensures At(Push(q, x), 0) == Some(x)
    ensures At(Push(q, x), i + 1) == At(q, i)
  {
  }

  /** The oldest item, at index -1, is the one the next pop delivers. */
  lemma AtOldestIsNextPop<T>(q: seq<T>)
    requires |q| > 0
    ensures At(q, -1) == Some(Pop(q).value.0)
  {
  }

  /** First in, first out: pushing onto a non-empty queue does not change what
      the next pop delivers, and the pushed item waits behind the rest. */
  lemma PushThenPop<T>(q: seq<T>, x: T)
    ensures |q| == 0 ==> Pop(Push(q, x)) == Some((x, []))
    ensures |q| > 0 ==> Pop(Push(q, x)) == Some((q[0], Push(q[1..], x)))
  {
    if |q| > 0 {
      assert Push(q, x)[1..] == Push(q[1..], x);
    }
  }

  /** A pop followed by pushing the same item back loses nothing: the queue
      holds the same items, with that item moved to the tail. */
  lemma PopThenRequeue<T>(q: seq<T>)
    requires |q| > 0
    ensures multiset(Push(Pop(q).value.1, Pop(q).value.0)) == multiset(q)
  {
    assert q == [q[0]] + q[1..];
  }
}
