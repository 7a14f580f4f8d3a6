/**
 What each rule's matcher accepts: for every shape of text a pattern is
 meant to recognise, the matcher reports a match of the expected length.
 */
module MarkdownRuleFacts {
  import opened Wrappers
  import opened Text
  import opened Replace
  import opened MarkdownRules

  /** Every fenced block whose body does not contain three backticks is a match. */
  lemma CodeBlockAccepts(s: string, body: string, rest: string)
    requires s == Fence + body + Fence + rest
    requires Find(body + Fence, Fence) == Some(|body|)
    ensures CodeBlockAt(s) == Some(Match(|body| + 6, " "))
  {
    var t := (body + Fence) + rest;
    assert StartsWith(s, Fence) && s[3..] == t by {
      Regroup(Fence, body, Fence, rest);
      SplitFront(s, Fence, t);
    }
    assert Find(t, Fence) == Some(|body|) by {
      FindExtends(body + Fence, rest, Fence, |body|);
    }
    FenceFound(s, |body|);
  }

  lemma FenceFound(s: string, k: nat)
    requires StartsWith(s, Fence) && Find(s[3..], Fence) == Some(k)
    ensures CodeBlockAt(s) == Some(Match(k + 6, " "))
  {
  }

  /** Every `[text](url)` with non-empty text free of `]` and non-empty url free of `)` is a match. */
  lemma LinkAccepts(s: string, text: string, url: string, rest: string)
    requires text != [] && ']' !in text && url != [] && ')' !in url
    requires s == "[" + text + "](" + url + ")" + rest
    ensures LinkAt(s) == Some(Match(|text| + |url| + 4, text))
  {
    LinkShape(s, text, url, rest);
    LinkBracketFound(s, text, url, rest);
    LinkParenFound(s, text, url, rest);
    LinkFound(s, text, |text|, |url|);
  }

  lemma LinkShape(s: string, text: string, url: string, rest: string)
    requires s == "[" + text + "](" + url + ")" + rest
    ensures |text| + |url| + 4 <= |s| && s[0] == '[' && s[|text| + 2] == '('
    ensures s[1..] == text + ("](" + url + ")" + rest)
    ensures s[|text| + 3..] == url + (")" + rest)
    ensures s[1..|text| + 1] == text
  {
  }

  lemma LinkBracketFound(s: string, text: string, url: string, rest: string)
    requires ']' !in text
    requires s == "[" + text + "](" + url + ")" + rest
    ensures Find(s[1..], "]") == Some(|text|)
  {
    LinkShape(s, text, url, rest);
    FindSkip(text, "](" + url + ")" + rest, "]");
    assert Find("](" + url + ")" + rest, "]") == Some(0);
  }

  lemma LinkParenFound(s: string, text: string, url: string, rest: string)
    requires ')' !in url
    requires s == "[" + text + "](" + url + ")" + rest
    ensures Find(s[|text| + 3..], ")") == Some(|url|)
  {
    LinkShape(s, text, url, rest);
    FindSkip(url, ")" + rest, ")");
    assert Find(")" + rest, ")") == Some(0);
  }

  lemma LinkFound(s: string, text: string, k: nat, m: nat)
    requires s != [] && s[0] == '[' && Find(s[1..], "]") == Some(k) && 1 <= k
    requires k + 2 < |s| && s[k + 2] == '(' && Find(s[k + 3..], ")") == Some(m) && 1 <= m
    requires s[1..k + 1] == text
    ensures LinkAt(s) == Some(Match(k + m + 4, text))
  {
  }

  /** Every `<inner>` with non-empty inner text free of `>` is a match. */
  lemma HtmlTagAccepts(inner: string, rest: string)
    requires inner != [] && '>' !in inner
    ensures HtmlTagAt("<" + inner + ">" + rest) == Some(Match(|inner| + 2, " "))
  {
    var s := "<" + inner + ">" + rest;
    assert s[1..] == inner + (">" + rest);
    FindSkip(inner, ">" + rest, ">");
    assert Find(">" + rest, ">") == Some(0);
  }

  /** Every run of hashes followed by a white-space character is a heading prefix. */
  lemma HeadingAccepts(hashes: string, c: char, rest: string)
    requires hashes != [] && (forall i :: 0 <= i < |hashes| ==> hashes[i] == '#') && IsSpace(c)
    ensures HeadingAt(hashes + [c] + rest) == Some(Match(|hashes| + 1, " "))
  {
    var s := hashes + [c] + rest;
    HashRunOf(hashes, c, rest);
  }

  lemma {:induction false} HashRunOf(hashes: string, c: char, rest: string)
    requires (forall i :: 0 <= i < |hashes| ==> hashes[i] == '#') && c != '#'
    ensures HashRun(hashes + [c] + rest) == |hashes|
    decreases |hashes|
  {
    var s := hashes + [c] + rest;
    if hashes == [] {
      assert s[0] == c;
    } else {
      assert s[1..] == hashes[1..] + [c] + rest;
      HashRunOf(hashes[1..], c, rest);
    }
  }

  /** A delimited stretch on one line, in which the delimiter first reappears
      at its end, is a match of the whole. */
  lemma DelimitedAccepts(s: string, delim: string, inner: string, rest: string)
    requires s == delim + inner + delim + rest
    requires NoLineTerminator(inner)
    requires Find(inner + delim, delim) == Some(|inner|)
    ensures DelimitedAt(s, delim) == Some(|inner| + 2 * |delim|)
  {
    var t := (inner + delim) + rest;
    DelimitedFront(s, delim, inner, rest, t);
    DelimitedAfterFront(s, delim, inner, rest, t);
  }

  lemma DelimitedAfterFront(s: string, delim: string, inner: string, rest: string, t: string)
    requires StartsWith(s, delim) && s[|delim|..] == t && t == (inner + delim) + rest
    requires NoLineTerminator(inner) && Find(inner + delim, delim) == Some(|inner|)
    ensures DelimitedAt(s, delim) == Some(|inner| + 2 * |delim|)
  {
    StretchBeforeDelimiter(inner, delim, rest);
    DelimitedFound(s, delim, |inner|, t);
  }

  lemma DelimitedFront(s: string, delim: string, inner: string, rest: string, t: string)
    requires s == delim + inner + delim + rest && t == (inner + delim) + rest
    ensures StartsWith(s, delim) && s[|delim|..] == t
  {
    Regroup(delim, inner, delim, rest);
    SplitFront(s, delim, t);
  }

  lemma DelimitedFound(s: string, delim: string, k: nat, t: string)
    requires StartsWith(s, delim) && s[|delim|..] == t && LazyStretch(t, delim) == Some(k)
    ensures DelimitedAt(s, delim) == Some(k + 2 * |delim|)
  {
  }

  lemma StretchBeforeDelimiter(inner: string, delim: string, rest: string)
    requires NoLineTerminator(inner)
    requires Find(inner + delim, delim) == Some(|inner|)
    ensures LazyStretch((inner + delim) + rest, delim) == Some(|inner|)
  {
    var t := (inner + delim) + rest;
    FindExtends(inner + delim, rest, delim, |inner|);
    assert t[..|inner|] == inner;
  }

  /** The first delimiter pair is tried first: `a`, a one-line stretch in
      which `a` first reappears at its end, and `a` again is a match whose
      replacement is the stretch. */
  lemma PairAcceptsFirst(s: string, a: string, b: string, inner: string, rest: string)
    requires a != [] && b != []
    requires s == a + inner + a + rest
    requires NoLineTerminator(inner) && Find(inner + a, a) == Some(|inner|)
    ensures PairAt(s, a, b) == Some(Match(|inner| + 2 * |a|, inner))
  {
    DelimitedAccepts(s, a, inner, rest);
    Middle(s, a, inner, rest);
    PairFirstFound(s, a, b, |inner| + 2 * |a|, inner);
  }

  lemma Middle(s: string, delim: string, inner: string, rest: string)
    requires s == delim + inner + delim + rest
    ensures |inner| + 2 * |delim| <= |s| && s[|delim|..|delim| + |inner|] == inner
  {
  }

  lemma PairFirstFound(s: string, a: string, b: string, n: nat, inner: string)
    requires a != [] && b != []
    requires DelimitedAt(s, a) == Some(n) && n <= |s| && |a| <= n - |a| && s[|a|..n - |a|] == inner
    ensures PairAt(s, a, b) == Some(Match(n, inner))
  {
  }

  /** When the text does not start with the first delimiter, the second one is tried. */
  lemma PairAcceptsSecond(s: string, a: string, b: string, inner: string, rest: string)
    requires a != [] && b != [] && !StartsWith(s, a)
    requires s == b + inner + b + rest
    requires NoLineTerminator(inner) && Find(inner + b, b) == Some(|inner|)
    ensures PairAt(s, a, b) == Some(Match(|inner| + 2 * |b|, inner))
  {
    DelimitedAccepts(s, b, inner, rest);
    Middle(s, b, inner, rest);
    PairSecondFound(s, a, b, |inner| + 2 * |b|, inner);
  }

  lemma PairSecondFound(s: string, a: string, b: string, n: nat, inner: string)
    requires a != [] && b != [] && !StartsWith(s, a)
    requires DelimitedAt(s, b) == Some(n) && n <= |s| && |b| <= n - |b| && s[|b|..n - |b|] == inner
    ensures PairAt(s, a, b) == Some(Match(n, inner))
  {
  }
}
