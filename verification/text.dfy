/** Optional values, for absent inputs and failed searches. */
module Wrappers {

  datatype Option<+T> = None | Some(value: T) {

    /** The wrapped value, or `default` when there is none. */
    function GetOr(default: T): T {
      match this
      case Some(v) => v
      case None => default
    }
  }
}

/**
 Character classes and string helpers shared by the content utilities.
 Strings are sequences of Unicode scalar values; JavaScript works on UTF-16
 code units, which only matters where an index lands inside a surrogate pair.
 */
module Text {
  import opened Wrappers

  /** The characters JavaScript's `\s` class and `String.prototype.trim`
      treat as white space: ECMAScript's WhiteSpace and LineTerminator sets. */
  predicate IsSpace(c: char) {
    || c == ' ' || c == '\t' || c == '\n' || c == '\r'
    || c == '\U{000B}' || c == '\U{000C}' || c == '\U{00A0}' || c == '\U{1680}'
    || ('\U{2000}' <= c <= '\U{200A}')
    || c == '\U{2028}' || c == '\U{2029}' || c == '\U{202F}' || c == '\U{205F}'
    || c == '\U{3000}' || c == '\U{FEFF}'
  }

  /** The characters a regular-expression `.` does not match. */
  predicate IsLineTerminator(c: char) {
    c == '\n' || c == '\r' || c == '\U{2028}' || c == '\U{2029}'
  }

  predicate AllSpace(s: string) {
    forall i :: 0 <= i < |s| ==> IsSpace(s[i])
  }

  predicate NoLineTerminator(s: string) {
    forall i :: 0 <= i < |s| ==> !IsLineTerminator(s[i])
  }

  /** Neither the first nor the last character is white space. */
  predicate NoOuterSpace(s: string) {
    s == [] || (!IsSpace(s[0]) && !IsSpace(s[|s| - 1]))
  }

  /** Every white-space character is a plain space. */
  predicate PlainSpacesOnly(s: string) {
    forall i :: 0 <= i < |s| && IsSpace(s[i]) ==> s[i] == ' '
  }

  /** No two neighbouring characters are both white space. */
  predicate SingleSpaced(s: string) {
    forall i :: 0 < i < |s| && IsSpace(s[i]) ==> !IsSpace(s[i - 1])
  }

  predicate StartsWith(s: string, prefix: string) {
    |prefix| <= |s| && s[..|prefix|] == prefix
  }

  /** ASCII case folding; the model's stand-in for a regular expression's
      case-insensitive comparison. */
  function Lower(c: char): char {
    if 'A' <= c <= 'Z' then (c as int + 32) as char else c
  }

  /** Equal up to ASCII letter case. */
  predicate CiEq(a: string, b: string) {
    |a| == |b| && forall i :: 0 <= i < |a| ==> Lower(a[i]) == Lower(b[i])
  }

  /** `s` starts with `prefix` up to ASCII letter case. */
  predicate CiStartsWith(s: string, prefix: string) {
    |prefix| <= |s| && CiEq(s[..|prefix|], prefix)
  }

  /** `pat` occurs in `s` starting at index `k`. */
  predicate OccursAt(s: string, pat: string, k: int) {
    0 <= k && k + |pat| <= |s| && s[k..k + |pat|] == pat
  }

  /** An occurrence in a suffix is an occurrence in the whole text, shifted. */
  lemma OccursShift(s: string, i: nat, pat: string, j: nat)
    requires i <= |s|
    ensures OccursAt(s[i..], pat, j) <==> OccursAt(s, pat, i + j)
  {
    if j + |pat| <= |s| - i {
      assert s[i..][j..j + |pat|] == s[i + j..i + j + |pat|];
    }
  }

  /** The index of the first occurrence of `pat` in `s`, if any. */
  function Find(s: string, pat: string): (r: Option<nat>)
    decreases |s|
    ensures r.Some? ==> OccursAt(s, pat, r.value)
  {
    if StartsWith(s, pat) then Some(0)
    else if s == [] then None
    else
      match Find(s[1..], pat)
      case Some(k) =>
        OccursShift(s, 1, pat, k);
        Some(k + 1)
      case None => None
  }

  /** `Find` reports the leftmost occurrence, and reports none only when
      there is none. */
  lemma {:induction false} FindLeftmost(s: string, pat: string)
    ensures Find(s, pat).Some? ==> forall j :: 0 <= j < Find(s, pat).value ==> !OccursAt(s, pat, j)
    ensures Find(s, pat).None? ==> forall j :: 0 <= j <= |s| ==> !OccursAt(s, pat, j)
    decreases |s|
  {
    if |pat| <= |s| {
      assert s[0..|pat|] == s[..|pat|];
    }
    if !StartsWith(s, pat) && s != [] {
      FindLeftmost(s[1..], pat);
      forall j | 1 <= j <= |s| ensures OccursAt(s, pat, j) == OccursAt(s[1..], pat, j - 1) {
        OccursShift(s, 1, pat, j - 1);
      }
    }
  }

  /** Searching skips a stretch that does not contain the first character of the pattern. */
  lemma {:induction false} FindSkip(a: string, b: string, pat: string)
    requires pat != [] && pat[0] !in a
    ensures Find(a + b, pat) == (match Find(b, pat) case Some(k) => Some(k + |a|) case None => None)
    decreases |a|
  {
    if a != [] {
      var s := a + b;
      assert s[1..] == a[1..] + b;
      FindSkip(a[1..], b, pat);
      FindStep(s, pat);
    } else {
      assert a + b == b;
    }
  }

  /** Where the pattern does not start, the search moves on by one character. */
  lemma FindStep(s: string, pat: string)
    requires s != [] && pat != [] && s[0] != pat[0]
    ensures Find(s, pat) == (match Find(s[1..], pat) case Some(k) => Some(k + 1) case None => None)
  {
    assert !StartsWith(s, pat) by {
      assert |pat| <= |s| ==> s[..|pat|][0] == s[0];
    }
  }

  /** An occurrence with no occurrence before it is what `Find` reports. */
  lemma FindFirst(s: string, pat: string, k: nat)
    requires OccursAt(s, pat, k)
    requires forall j :: 0 <= j < k ==> !OccursAt(s, pat, j)
    ensures Find(s, pat) == Some(k)
  {
    FindLeftmost(s, pat);
  }

  /** A first occurrence stays the first occurrence when text is appended. */
  lemma FindExtends(a: string, b: string, pat: string, k: nat)
    requires Find(a, pat) == Some(k)
    ensures Find(a + b, pat) == Some(k)
  {
    FindLeftmost(a, pat);
    forall j | 0 <= j <= k ensures OccursAt(a + b, pat, j) == OccursAt(a, pat, j) {
      if j + |pat| <= |a| {
        assert (a + b)[j..j + |pat|] == a[j..j + |pat|];
      }
    }
    FindFirst(a + b, pat, k);
  }

  /** The first occurrence of a single character, and none before it. */
  lemma FirstCharFound(t: string, c: char, k: nat)
    requires Find(t, [c]) == Some(k)
    ensures k < |t| && t[k] == c && c !in t[..k]
  {
    FindLeftmost(t, [c]);
    assert t[k..k + 1][0] == t[k];
    NoCharBefore(t, c, k);
  }

  lemma NoCharBefore(t: string, c: char, k: nat)
    requires k <= |t| && forall j :: 0 <= j < k ==> !OccursAt(t, [c], j)
    ensures c !in t[..k]
  {
    forall j | 0 <= j < k ensures t[..k][j] != c {
      assert !OccursAt(t, [c], j);
      assert t[j..j + 1] == [t[j]] && t[..k][j] == t[j];
    }
  }

  /** Dropping a prefix of a concatenation leaves the rest. */
  lemma DropPrefix(a: string, b: string)
    ensures (a + b)[|a|..] == b && (a + b)[..|a|] == a
  {
  }

  lemma Assoc(a: string, b: string, c: string)
    ensures a + (b + c) == (a + b) + c
  {
  }

  /** Concatenation regrouped around the first piece. */
  lemma Regroup(a: string, b: string, c: string, d: string)
    ensures a + b + c + d == a + ((b + c) + d)
  {
  }

  /** A text is its prefix followed by the rest. */
  lemma SplitAt(s: string, n: nat)
    requires n <= |s|
    ensures s == s[..n] + s[n..]
  {
  }

  /** `s` is `a` followed by `b`, seen from the front. */
  lemma SplitFront(s: string, a: string, b: string)
    requires s == a + b
    ensures StartsWith(s, a) && s[|a|..] == b
  {
  }

  /** Length of the run of white space at the start of `s`. */
  function SpaceRun(s: string): (n: nat)
    decreases |s|
    ensures n <= |s| && AllSpace(s[..n])
    ensures n < |s| ==> !IsSpace(s[n])
  {
    if s != [] && IsSpace(s[0]) then
      var n := 1 + SpaceRun(s[1..]);
      assert forall i :: 1 <= i < n ==> s[i] == s[1..][i - 1];
      n
    else 0
  }

  /** A whole run of white space at the front is what `SpaceRun` measures. */
  lemma {:induction false} SpaceRunOf(run: string, rest: string)
    requires AllSpace(run) && (rest == [] || !IsSpace(rest[0]))
    ensures SpaceRun(run + rest) == |run|
    decreases |run|
  {
    if run == [] {
      assert run + rest == rest;
    } else {
      assert (run + rest)[1..] == run[1..] + rest;
      SpaceRunOf(run[1..], rest);
    }
  }

  /** `s` without its trailing white space. */
  function TrimEnd(s: string): (r: string)
    decreases |s|
    ensures |r| <= |s| && r == s[..|r|]
    ensures AllSpace(s[|r|..])
    ensures r == [] || !IsSpace(r[|r| - 1])
  {
    if s != [] && IsSpace(s[|s| - 1]) then
      var t := s[..|s| - 1];
      var r := TrimEnd(t);
      assert s[|r|..] == t[|r|..] + [s[|s| - 1]];
      r
    else s
  }

  /** `String.prototype.trim`: `s` without leading and trailing white space.
      What is removed is white space, and what is kept is the contiguous
      stretch of `s` that starts after the leading run. */
  function Trim(s: string): (r: string)
    ensures NoOuterSpace(r)
    ensures SpaceRun(s) + |r| <= |s| && r == s[SpaceRun(s)..SpaceRun(s) + |r|]
    ensures AllSpace(s[..SpaceRun(s)]) && AllSpace(s[SpaceRun(s) + |r|..])
  {
    var i := SpaceRun(s);
    var r := TrimEnd(s[i..]);
    assert s[i + |r|..] == s[i..][|r|..];
    r
  }

  /** Trimming leaves a text that has no white space at its ends unchanged. */
  lemma TrimNoOuterSpace(s: string)
    requires NoOuterSpace(s)
    ensures Trim(s) == s
  {
    assert SpaceRun(s) == 0;
    assert s[0..] == s;
    assert TrimEnd(s) == s;
  }

  /** Trimming only removes characters, so a property of single characters
      and of neighbouring pairs carries over to the trimmed text. */
  lemma TrimKeepsSpacing(s: string)
    requires PlainSpacesOnly(s) && SingleSpaced(s)
    ensures PlainSpacesOnly(Trim(s)) && SingleSpaced(Trim(s))
  {
    var r := Trim(s);
    var i := SpaceRun(s);
    assert forall j :: 0 <= j < |r| ==> r[j] == s[i + j];
  }
}
