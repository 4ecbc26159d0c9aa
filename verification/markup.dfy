/** Markup removal used by the join stage on article and comment text:
    `re.sub("<.*?>", "", s)` followed by `.replace("&nbsp;", "")`.
    In Python's default regular-expression mode `.` matches any character
    except a newline, so a `<` only opens a tag when a `>` follows on the
    same line; the shortest such span is removed. */
module Markup {
  import opened Common
  import opened Text

  /** Offset of the `>` that closes a tag whose body starts at `t[0]`: the
      first `>` before any newline. */
  function CloseIn(t: string): (r: Option<nat>)
    ensures r.Some? ==> r.value < |t| && t[r.value] == '>'
    ensures r.Some? ==> forall k :: 0 <= k < r.value ==> t[k] != '>' && t[k] != '\n'
    ensures r.None? ==> forall j :: 0 <= j < |t| && t[j] == '>' ==> exists k :: 0 <= k < j && t[k] == '\n'
    decreases |t|
  {
    if |t| == 0 then None
    else if t[0] == '>' then Some(0)
    else if t[0] == '\n' then None
    else match CloseIn(t[1..])
      case Some(j) => Some(j + 1)
      case None => None
  }

  /** `re.sub("<.*?>", "", s)`. */
  function StripTags(s: string): (r: string)
    ensures |r| <= |s|
    decreases |s|
  {
    if |s| == 0 then ""
    else if s[0] == '<' && CloseIn(s[1..]).Some? then StripTags(s[1..][CloseIn(s[1..]).value + 1..])
    else [s[0]] + StripTags(s[1..])
  }

  /** The text the join stage stores: tags removed, then `&nbsp;` removed. */
  function CleanText(s: string): (r: string)
    ensures |r| <= |s|
    ensures (forall i :: 0 <= i < |s| ==> s[i] != '<') && !Contains(s, "&nbsp;") ==> r == s
  {
    NoOpenerUnchanged(s);
    RemoveAllLength(StripTags(s), "&nbsp;");
    RemoveAll(StripTags(s), "&nbsp;")
  }

  /** No match of the pattern is left: every `<` that survives has no `>`
      after it on its line. */
  predicate NoTag(t: string)
    decreases |t|
  {
    |t| == 0 || ((t[0] == '<' ==> CloseIn(t[1..]).None?) && NoTag(t[1..]))
  }

  lemma {:induction false} NoOpenerUnchanged(s: string)
    ensures (forall i :: 0 <= i < |s| ==> s[i] != '<') ==> StripTags(s) == s
    decreases |s|
  {
    if |s| > 0 && forall i :: 0 <= i < |s| ==> s[i] != '<' {
      NoOpenerUnchanged(s[1..]);
      assert s == [s[0]] + s[1..];
    }
  }

  /** Removing tags never brings a `>` in front of the first newline: the
      characters before it contain no `>`, so no tag starts and ends there. */
  lemma {:induction false} StripKeepsUnclosed(t: string)
    requires CloseIn(t).None?
    ensures CloseIn(StripTags(t)).None?
    decreases |t|
  {
    if |t| > 0 && t[0] != '\n' {
      assert t[0] != '>';
      assert CloseIn(t[1..]).None?;
      if t[0] == '<' {
        assert !CloseIn(t[1..]).Some?;
      }
      StripKeepsUnclosed(t[1..]);
    }
  }

  lemma {:induction false} StripLeavesNoTag(s: string)
    ensures NoTag(StripTags(s))
    decreases |s|
  {
    if |s| > 0 {
      if s[0] == '<' && CloseIn(s[1..]).Some? {
        StripLeavesNoTag(s[1..][CloseIn(s[1..]).value + 1..]);
      } else {
        StripLeavesNoTag(s[1..]);
        if s[0] == '<' {
          StripKeepsUnclosed(s[1..]);
        }
        var r := StripTags(s);
        assert r == [s[0]] + StripTags(s[1..]);
        assert r[1..] == StripTags(s[1..]);
      }
    }
  }

  lemma {:induction false} NoTagUnchanged(t: string)
    requires NoTag(t)
    ensures StripTags(t) == t
    decreases |t|
  {
    if |t| > 0 {
      NoTagUnchanged(t[1..]);
      assert t == [t[0]] + t[1..];
    }
  }

  /** Stripping a second time changes nothing. */
  lemma StripIdempotent(s: string)
    ensures StripTags(StripTags(s)) == StripTags(s)
  {
    StripLeavesNoTag(s);
    NoTagUnchanged(StripTags(s));
  }
}
