/** The few Python string operations the crawler relies on: `startswith`,
    the `in` operator, `replace(p, "")` and the ordering of `<` / `>` on `str`. */
module Text {

  predicate StartsWith(s: string, p: string) {
    |p| <= |s| && s[..|p|] == p
  }

  /** Python's `p in s`. */
  predicate Contains(s: string, p: string)
    decreases |s|
  {
    |p| <= |s| && (StartsWith(s, p) || Contains(s[1..], p))
  }

  /** `p` occurs in `s` starting at position `i`. */
  predicate OccursAt(s: string, p: string, i: int) {
    0 <= i <= |s| - |p| && s[i..i + |p|] == p
  }

  /** The recursive test agrees with "there is a position where `p` occurs". */
  lemma {:induction false} ContainsAt(s: string, p: string)
    ensures Contains(s, p) <==> exists i :: OccursAt(s, p, i)
    decreases |s|
  {
    if |p| > |s| {
    } else if StartsWith(s, p) {
      assert OccursAt(s, p, 0);
    } else {
      ContainsAt(s[1..], p);
      if exists i :: OccursAt(s, p, i) {
        var i :| OccursAt(s, p, i);
        assert i != 0;
        assert OccursAt(s[1..], p, i - 1);
      }
      if Contains(s[1..], p) {
        var j :| OccursAt(s[1..], p, j);
        assert OccursAt(s, p, j + 1);
      }
    }
  }

  /** Python's `s.replace(p, "")` for a non-empty `p`: occurrences are found
      from the left and do not overlap. */
  function RemoveAll(s: string, p: string): (r: string)
    requires |p| > 0
    ensures |r| <= |s|
    decreases |s|
  {
    if |s| < |p| then s
    else if StartsWith(s, p) then RemoveAll(s[|p|..], p)
    else [s[0]] + RemoveAll(s[1..], p)
  }

  /** A string without `p` is left alone, and one with `p` loses at least
      one occurrence's length. */
  lemma {:induction false} RemoveAllLength(s: string, p: string)
    requires |p| > 0
    ensures !Contains(s, p) ==> RemoveAll(s, p) == s
    ensures Contains(s, p) ==> |RemoveAll(s, p)| <= |s| - |p|
    decreases |s|
  {
    if |s| >= |p| && !StartsWith(s, p) {
      RemoveAllLength(s[1..], p);
      if !Contains(s, p) {
        assert s == [s[0]] + s[1..];
      }
    }
  }

  /** An occurrence after the first character is an occurrence in the tail. */
  lemma OccursAtTail(s: string, p: string, j: int)
    requires |s| > 0 && j >= 1
    ensures OccursAt(s, p, j) <==> OccursAt(s[1..], p, j - 1)
  {
    if 0 <= j - 1 <= |s| - 1 - |p| {
      assert s[1..][j - 1..j - 1 + |p|] == s[j..j + |p|];
    }
  }

  /** `p` does not occur in `s` before position `i`. */
  ghost predicate NoneBefore(s: string, p: string, i: int) {
    forall j :: 0 <= j < i ==> !OccursAt(s, p, j)
  }

  lemma NoneBeforeTail(s: string, p: string, i: int)
    requires |s| > 0 && i >= 1 && NoneBefore(s, p, i)
    ensures !OccursAt(s, p, 0) && NoneBefore(s[1..], p, i - 1)
  {
    forall j | 0 <= j < i - 1
      ensures !OccursAt(s[1..], p, j)
    {
      OccursAtTail(s, p, j + 1);
    }
  }

  /** `replace` removes the leftmost occurrence first and goes on after it:
      when `p` first occurs right after `a`, everything before it is kept,
      that occurrence is dropped, and the rest is replaced on its own. */
  lemma {:induction false} RemoveAllFirst(a: string, p: string, b: string)
    requires |p| > 0 && NoneBefore(a + p + b, p, |a|)
    ensures RemoveAll(a + p + b, p) == a + RemoveAll(b, p)
    decreases |a|
  {
    var s := a + p + b;
    if |a| == 0 {
      assert s == p + b && s[..|p|] == p && s[|p|..] == b;
    } else {
      NoneBeforeTail(s, p, |a|);
      assert s[1..] == a[1..] + p + b;
      assert s[..|p|] != p by {
        assert !OccursAt(s, p, 0);
      }
      assert RemoveAll(s, p) == [a[0]] + RemoveAll(a[1..] + p + b, p);
      RemoveAllFirst(a[1..], p, b);
      ConsAppend(a[0], a[1..], RemoveAll(b, p));
      assert [a[0]] + a[1..] == a;
    }
  }

  lemma ConsAppend(c: char, a: string, b: string)
    ensures [c] + (a + b) == ([c] + a) + b
  {
  }

  /** Python's `a < b` on strings: code point by code point, and a proper
      prefix comes first. Dafny's own `<` on sequences means proper prefix
      only, so it is not used for this. */
  predicate StrLess(a: string, b: string)
    decreases |a|
  {
    if |a| == 0 then |b| > 0
    else if |b| == 0 then false
    else if a[0] != b[0] then a[0] < b[0]
    else StrLess(a[1..], b[1..])
  }

  lemma {:induction false} StrLessIrreflexive(a: string)
    ensures !StrLess(a, a)
    decreases |a|
  {
    if |a| > 0 {
      StrLessIrreflexive(a[1..]);
    }
  }

  lemma {:induction false} StrLessTransitive(a: string, b: string, c: string)
    requires StrLess(a, b) && StrLess(b, c)
    ensures StrLess(a, c)
    decreases |a|
  {
    if |a| > 0 && |b| > 0 && |c| > 0 && a[0] == b[0] && b[0] == c[0] {
      StrLessTransitive(a[1..], b[1..], c[1..]);
    }
  }

  lemma {:induction false} StrLessTotal(a: string, b: string)
    ensures a == b || StrLess(a, b) || StrLess(b, a)
    decreases |a|
  {
    if |a| > 0 && |b| > 0 && a[0] == b[0] {
      StrLessTotal(a[1..], b[1..]);
      if a[1..] == b[1..] {
        assert a == [a[0]] + a[1..] && b == [b[0]] + b[1..];
      }
    }
  }
}
