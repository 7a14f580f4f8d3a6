/**
 A global `String.prototype.replace`: the text is scanned from the left, the
 leftmost match is replaced, matches never overlap, and scanning resumes
 right after each match. The pattern is a matcher anchored at the start of
 the remaining text.
 */
module Replace {
  import opened Wrappers

  /** A match at the start of the text: how much it consumes and what replaces it. */
  datatype Match = Match(length: nat, replacement: string)

  /** A pattern, as the match it finds at the start of a text. */
  type Matcher = string -> Option<Match>

  /** Global replacement of the matches of `m` in `s`. A matcher that reports
      an empty match or one longer than the text is treated as not matching. */
  function ReplaceAll(m: Matcher, s: string): (r: string)
    decreases |s|
  {
    if s == [] then []
    else
      match m(s)
      case Some(mt) =>
        if 0 < mt.length <= |s| then mt.replacement + ReplaceAll(m, s[mt.length..])
        else [s[0]] + ReplaceAll(m, s[1..])
      case None => [s[0]] + ReplaceAll(m, s[1..])
  }

  /** Text at none of whose positions a match starts is copied unchanged. */
  lemma {:induction false} ReplaceAllSkip(m: Matcher, a: string, b: string)
    requires forall k :: 0 <= k < |a| ==> m((a + b)[k..]).None?
    ensures ReplaceAll(m, a + b) == a + ReplaceAll(m, b)
    decreases |a|
  {
    if a == [] {
      assert a + b == b;
    } else {
      var s := a + b;
      assert m(s[0..]).None? && s[0..] == s;
      assert s[1..] == a[1..] + b;
      forall k | 0 <= k < |a[1..]| ensures m((a[1..] + b)[k..]).None? {
        assert (a[1..] + b)[k..] == s[k + 1..];
      }
      ReplaceAllSkip(m, a[1..], b);
      assert a == [a[0]] + a[1..];
    }
  }

  /** A match at the front is replaced and scanning resumes after it. */
  lemma ReplaceAllStep(m: Matcher, x: string, y: string, replacement: string)
    requires x != [] && m(x + y) == Some(Match(|x|, replacement))
    ensures ReplaceAll(m, x + y) == replacement + ReplaceAll(m, y)
  {
    assert (x + y)[|x|..] == y;
  }
}
