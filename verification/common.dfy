/** Small building blocks shared by every crawler stage: an optional value, the
    running maximum the watermarks are built from, and the decimal rendering the
    source uses (`str(n)`, `"%d" % n`) when it turns ids into blob names. */
module Common {

  datatype Option<+T> = None | Some(value: T) {
    function GetOr(default: T): T {
      match this
      case Some(v) => v
      case None => default
    }
  }

  function Max(a: int, b: int): int {
    if a < b then b else a
  }

  /** The running maximum of `init` and every element of `xs`, folded from the
      left as the crawler loops do (`latestid = max(latestid, id)`). */
  function MaxOf(init: int, xs: seq<int>): (r: int)
    ensures r >= init
    decreases |xs|
  {
    if |xs| == 0 then init else Max(MaxOf(init, xs[..|xs| - 1]), xs[|xs| - 1])
  }

  /** The running maximum bounds every element ... */
  lemma {:induction false} MaxOfUpper(init: int, xs: seq<int>)
    ensures forall i :: 0 <= i < |xs| ==> xs[i] <= MaxOf(init, xs)
    decreases |xs|
  {
    if |xs| > 0 {
      var p := xs[..|xs| - 1];
      MaxOfUpper(init, p);
      forall i | 0 <= i < |xs| - 1
        ensures xs[i] <= MaxOf(init, xs)
      {
        assert xs[i] == p[i];
      }
    }
  }

  /** ... and is one of them, unless it is still the seed. */
  lemma {:induction false} MaxOfAttained(init: int, xs: seq<int>)
    ensures MaxOf(init, xs) == init || exists i :: 0 <= i < |xs| && MaxOf(init, xs) == xs[i]
    decreases |xs|
  {
    if |xs| > 0 {
      var p := xs[..|xs| - 1];
      MaxOfAttained(init, p);
      if MaxOf(init, xs) != init && MaxOf(init, xs) != xs[|xs| - 1] {
        var i :| 0 <= i < |p| && MaxOf(init, p) == p[i];
        assert MaxOf(init, xs) == xs[i];
      }
    }
  }

  /** Extending the sequence by one element is one more `max` step. */
  lemma MaxOfSnoc(init: int, xs: seq<int>, x: int)
    ensures MaxOf(init, xs + [x]) == Max(MaxOf(init, xs), x)
  {
    assert (xs + [x])[..|xs|] == xs;
  }

  /** Folding from the front: the first element can be absorbed into the seed.
      This is the shape of a loop that consumes its input head first. */
  lemma {:induction false} MaxOfCons(init: int, x: int, xs: seq<int>)
    ensures MaxOf(init, [x] + xs) == MaxOf(Max(init, x), xs)
    decreases |xs|
  {
    if |xs| == 0 {
      assert [x] + xs == [x];
      assert [x][..0] == [];
    } else {
      var ys := xs[..|xs| - 1];
      var last := xs[|xs| - 1];
      assert xs == ys + [last];
      assert [x] + xs == ([x] + ys) + [last];
      MaxOfSnoc(init, [x] + ys, last);
      MaxOfCons(init, x, ys);
      MaxOfSnoc(Max(init, x), ys, last);
    }
  }

  function DigitChar(d: int): (c: char)
    requires 0 <= d < 10
    ensures '0' <= c <= '9'
  {
    ('0' as int + d) as char
  }

  /** Decimal digits of a natural number, most significant first. */
  function NatToString(n: nat): (s: string)
    ensures |s| > 0
    ensures forall i :: 0 <= i < |s| ==> '0' <= s[i] <= '9'
    decreases n
  {
    if n < 10 then [DigitChar(n)] else NatToString(n / 10) + [DigitChar(n % 10)]
  }

  /** Python's `str(n)` for an integer: a minus sign, then the digits. */
  function IntToString(n: int): (s: string)
    ensures |s| > 0
    ensures forall i :: 0 <= i < |s| ==> s[i] == '-' || '0' <= s[i] <= '9'
  {
    if n < 0 then "-" + NatToString(-n) else NatToString(n)
  }

  /** The number a string of decimal digits denotes, most significant first. */
  function DigitsValue(s: string): int
    decreases |s|
  {
    if |s| == 0 then 0 else DigitsValue(s[..|s| - 1]) * 10 + (s[|s| - 1] as int - '0' as int)
  }

  /** Python's `int(s)` on a sign-and-digits string. */
  function ParseInt(s: string): int {
    if |s| > 0 && s[0] == '-' then -DigitsValue(s[1..]) else DigitsValue(s)
  }

  /** The digits of `n` denote `n`. */
  lemma {:induction false} NatToStringValue(n: nat)
    ensures DigitsValue(NatToString(n)) == n
    decreases n
  {
    var s := NatToString(n);
    if n >= 10 {
      NatToStringValue(n / 10);
      assert s[..|s| - 1] == NatToString(n / 10);
    }
  }

  /** Reading the rendering of an id back gives the id ... */
  lemma IntToStringRoundTrip(n: int)
    ensures ParseInt(IntToString(n)) == n
  {
    if n < 0 {
      NatToStringValue(-n);
      assert IntToString(n)[1..] == NatToString(-n);
    } else {
      NatToStringValue(n);
    }
  }

  /** ... so distinct ids never share a rendering, and with it a hash key or
      a blob name. */
  lemma IntToStringInjective(a: int, b: int)
    requires IntToString(a) == IntToString(b)
    ensures a == b
  {
    IntToStringRoundTrip(a);
    IntToStringRoundTrip(b);
  }
}
