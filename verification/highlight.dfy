/**
 `highlightMatch`: the text is entity-escaped, then every occurrence of the
 escaped query, compared up to letter case, is wrapped in a highlight
 `<span>`. The query's regular-expression metacharacters are escaped in the
 source, so the pattern is the escaped query taken literally; the scan is
 the global replace's: leftmost occurrence first, then on after it.
 */
module Highlight {
  import opened Wrappers
  import opened Text

  const OpenTag := "<span class=\"search-highlight\">"
  const CloseTag := "</span>"

  /** The characters the escaping step rewrites as entities. */
  predicate IsHtmlSpecial(c: char) {
    c == '&' || c == '<' || c == '>' || c == '"' || c == '\''
  }

  /** The characters that would open or close markup or an attribute value if they appeared raw. */
  predicate IsMarkupDelimiter(c: char) {
    c == '<' || c == '>' || c == '"' || c == '\''
  }

  predicate NoHtmlSpecial(s: string) {
    forall i :: 0 <= i < |s| ==> !IsHtmlSpecial(s[i])
  }

  predicate NoMarkupDelimiter(s: string) {
    forall i :: 0 <= i < |s| ==> !IsMarkupDelimiter(s[i])
  }

  /** The entity for one character, or the character itself. */
  function EscapeChar(c: char): (r: string)
    ensures r != [] && NoMarkupDelimiter(r)
    ensures IsHtmlSpecial(c) <==> r[0] == '&' && 1 < |r|
    ensures !IsHtmlSpecial(c) ==> r == [c]
  {
    if c == '&' then "&amp;"
    else if c == '<' then "&lt;"
    else if c == '>' then "&gt;"
    else if c == '"' then "&quot;"
    else if c == '\'' then "&apos;"
    else [c]
  }

  /** Entity-escaping of a whole text, character by character. */
  function EscapeHtml(s: string): (r: string)
    decreases |s|
    ensures NoMarkupDelimiter(r)
    ensures |s| <= |r|
    ensures NoHtmlSpecial(s) ==> r == s
  {
    if s == [] then []
    else
      var e := EscapeChar(s[0]);
      var t := EscapeHtml(s[1..]);
      NoMarkupDelimiterJoin(e, t);
      if NoHtmlSpecial(s) then
        HeadTail(s);
        e + t
      else e + t
  }

  lemma NoMarkupDelimiterJoin(a: string, b: string)
    requires NoMarkupDelimiter(a) && NoMarkupDelimiter(b)
    ensures NoMarkupDelimiter(a + b)
  {
    assert forall i :: 0 <= i < |a + b| ==> (a + b)[i] == if i < |a| then a[i] else b[i - |a|];
  }

  /** A text is its first character followed by the rest, and the rest has
      no special character when the text has none. */
  lemma HeadTail(s: string)
    requires s != []
    ensures s == [s[0]] + s[1..]
    ensures NoHtmlSpecial(s) ==> !IsHtmlSpecial(s[0]) && NoHtmlSpecial(s[1..])
  {
    assert forall i :: 0 <= i < |s| - 1 ==> s[1..][i] == s[i + 1];
  }

  /** Escaping distributes over concatenation. */
  lemma {:induction false} EscapeAppend(a: string, b: string)
    ensures EscapeHtml(a + b) == EscapeHtml(a) + EscapeHtml(b)
    decreases |a|
  {
    if a == [] {
      assert a + b == b;
    } else {
      assert (a + b)[1..] == a[1..] + b;
      EscapeAppend(a[1..], b);
    }
  }

  /** `q` occurs at index `k` of `s` up to letter case. */
  predicate CiOccursAt(s: string, q: string, k: int) {
    0 <= k && k + |q| <= |s| && CiEq(s[k..k + |q|], q)
  }

  /** Every occurrence of `q` in `s`, left to right and without overlap, wrapped in the highlight tags. */
  function WrapMatches(s: string, q: string): (r: string)
    requires q != []
    decreases |s|
    ensures |s| <= |r|
  {
    if s == [] then []
    else if CiStartsWith(s, q) then OpenTag + s[..|q|] + CloseTag + WrapMatches(s[|q|..], q)
    else [s[0]] + WrapMatches(s[1..], q)
  }

  /** `highlightMatch(text, query)`; an absent query is `None`. */
  function HighlightMatch(text: string, query: Option<string>): (r: string)
    ensures query.None? || query == Some("") ==> r == EscapeHtml(text)
    ensures RemoveTags(r) == EscapeHtml(text)
    ensures MarkupOnlyInTags(r)
  {
    var escaped := EscapeHtml(text);
    NoTagsRemoved(escaped);
    PlainMarkupOnlyInTags(escaped, []);
    assert escaped + [] == escaped;
    if query.None? || query.value == "" then escaped
    else
      var q := EscapeHtml(query.value);
      WrapRemoveTags(escaped, q);
      WrapMarkupOnlyInTags(escaped, q);
      WrapMatches(escaped, q)
  }

  // ---------------------------------------------------------------------
  // Removing the tags gives back the escaped text

  /** The text with every highlight tag taken out. */
  function RemoveTags(r: string): (s: string)
    decreases |r|
    ensures |s| <= |r|
  {
    if r == [] then []
    else if StartsWith(r, OpenTag) then RemoveTags(r[|OpenTag|..])
    else if StartsWith(r, CloseTag) then RemoveTags(r[|CloseTag|..])
    else [r[0]] + RemoveTags(r[1..])
  }

  /** Both tags start with `<`, so a stretch without `<` passes through. */
  lemma {:induction false} RemoveTagsPlain(a: string, b: string)
    requires forall i :: 0 <= i < |a| ==> a[i] != '<'
    ensures RemoveTags(a + b) == a + RemoveTags(b)
    decreases |a|
  {
    if a != [] {
      RemoveTagsPlain(a[1..], b);
      ConsSplit(a, b);
      RemoveTagsChar(a[0], a[1..] + b);
      ConsFront(a, RemoveTags(b));
    } else {
      assert a + b == b;
    }
  }

  /** `s` does not start with `p` when they differ at index `i`. */
  lemma Differs(s: string, p: string, i: nat)
    requires i < |p| && (i >= |s| || s[i] != p[i])
    ensures !StartsWith(s, p)
  {
    if |p| <= |s| {
      assert s[..|p|][i] == s[i];
    }
  }

  lemma RemoveTagsChar(c: char, x: string)
    requires c != '<'
    ensures RemoveTags([c] + x) == [c] + RemoveTags(x)
  {
    var s := [c] + x;
    assert s[0] == c && s[1..] == x;
    Differs(s, OpenTag, 0);
    Differs(s, CloseTag, 0);
  }

  /** A text without `<` has no tags to remove. */
  lemma NoTagsRemoved(s: string)
    requires NoMarkupDelimiter(s)
    ensures RemoveTags(s) == s
  {
    RemoveTagsPlain(s, []);
    assert s + [] == s;
  }

  lemma RemoveOpenTag(x: string)
    ensures RemoveTags(OpenTag + x) == RemoveTags(x)
  {
    var s := OpenTag + x;
    assert s[..|OpenTag|] == OpenTag && s[|OpenTag|..] == x;
  }

  lemma RemoveCloseTag(x: string)
    ensures RemoveTags(CloseTag + x) == RemoveTags(x)
  {
    var s := CloseTag + x;
    assert s[..|CloseTag|] == CloseTag && s[|CloseTag|..] == x;
    Differs(s, OpenTag, 1);
  }

  /** Wrapping only inserts tags: taking them out again gives back the text. */
  lemma {:induction false} WrapRemoveTags(s: string, q: string)
    requires q != [] && NoMarkupDelimiter(s)
    ensures RemoveTags(WrapMatches(s, q)) == s
    decreases |s|
  {
    if s == [] {
    } else if CiStartsWith(s, q) {
      WrapRemoveTags(s[|q|..], q);
      WrapAtMatch(s, q);
      RemoveTagsMatchStep(s, |q|, WrapMatches(s, q), WrapMatches(s[|q|..], q));
    } else {
      WrapRemoveTags(s[1..], q);
      WrapAtOther(s, q);
      RemoveTagsOtherStep(s, WrapMatches(s, q), WrapMatches(s[1..], q));
    }
  }

  lemma RemoveTagsMatchStep(s: string, n: nat, r: string, w: string)
    requires n <= |s| && NoMarkupDelimiter(s)
    requires r == OpenTag + (s[..n] + (CloseTag + w)) && RemoveTags(w) == s[n..]
    ensures RemoveTags(r) == s
  {
    assert NoMarkupDelimiter(s[..n]);
    RemoveTagged(s[..n], w);
    assert s == s[..n] + s[n..];
  }

  lemma RemoveTagsOtherStep(s: string, r: string, w: string)
    requires s != [] && NoMarkupDelimiter(s)
    requires r == [s[0]] + w && RemoveTags(w) == s[1..]
    ensures RemoveTags(r) == s
  {
    RemoveTagsPlain([s[0]], w);
    ConsFront(s, []);
    assert s[1..] + [] == s[1..] && s + [] == s;
  }

  // ---------------------------------------------------------------------
  // No raw markup outside the tags

  /** Every `<`, `>`, `"` and `'` of `r` belongs to a highlight tag. */
  predicate MarkupOnlyInTags(r: string)
    decreases |r|
  {
    if r == [] then true
    else if StartsWith(r, OpenTag) then MarkupOnlyInTags(r[|OpenTag|..])
    else if StartsWith(r, CloseTag) then MarkupOnlyInTags(r[|CloseTag|..])
    else !IsMarkupDelimiter(r[0]) && MarkupOnlyInTags(r[1..])
  }

  lemma {:induction false} PlainMarkupOnlyInTags(a: string, b: string)
    requires NoMarkupDelimiter(a) && MarkupOnlyInTags(b)
    ensures MarkupOnlyInTags(a + b)
    decreases |a|
  {
    if a != [] {
      assert NoMarkupDelimiter(a[1..]);
      PlainMarkupOnlyInTags(a[1..], b);
      ConsSplit(a, b);
      MarkupOnlyInTagsChar(a[0], a[1..] + b);
    } else {
      assert a + b == b;
    }
  }

  lemma MarkupOnlyInTagsChar(c: char, x: string)
    requires !IsMarkupDelimiter(c) && MarkupOnlyInTags(x)
    ensures MarkupOnlyInTags([c] + x)
  {
    var s := [c] + x;
    assert s[0] == c && s[1..] == x;
    Differs(s, OpenTag, 0);
    Differs(s, CloseTag, 0);
  }

  lemma TagsMarkupOnlyInTags(m: string, w: string)
    requires NoMarkupDelimiter(m) && MarkupOnlyInTags(w)
    ensures MarkupOnlyInTags(OpenTag + (m + (CloseTag + w)))
  {
    var c := CloseTag + w;
    assert c[..|CloseTag|] == CloseTag && c[|CloseTag|..] == w;
    Differs(c, OpenTag, 1);
    PlainMarkupOnlyInTags(m, c);
    var s := OpenTag + (m + c);
    assert s[..|OpenTag|] == OpenTag && s[|OpenTag|..] == m + c;
  }

  /** Highlighting a text free of raw markup adds markup only inside the tags. */
  lemma {:induction false} WrapMarkupOnlyInTags(s: string, q: string)
    requires q != [] && NoMarkupDelimiter(s)
    ensures MarkupOnlyInTags(WrapMatches(s, q))
    decreases |s|
  {
    if s == [] {
    } else if CiStartsWith(s, q) {
      WrapMarkupOnlyInTags(s[|q|..], q);
      WrapAtMatch(s, q);
      assert NoMarkupDelimiter(s[..|q|]);
      TagsMarkupOnlyInTags(s[..|q|], WrapMatches(s[|q|..], q));
    } else {
      WrapMarkupOnlyInTags(s[1..], q);
      WrapAtOther(s, q);
      PlainMarkupOnlyInTags([s[0]], WrapMatches(s[1..], q));
    }
  }

  // ---------------------------------------------------------------------
  // Which occurrences are wrapped

  lemma CiStartsAtZero(s: string, q: string)
    ensures CiStartsWith(s, q) <==> CiOccursAt(s, q, 0)
  {
    if |q| <= |s| {
      assert s[..|q|] == s[0..|q|];
    }
  }

  lemma CiOccursShift(s: string, q: string, k: int)
    requires s != [] && 1 <= k
    ensures CiOccursAt(s, q, k) <==> CiOccursAt(s[1..], q, k - 1)
  {
    if k + |q| <= |s| {
      assert s[1..][k - 1..k - 1 + |q|] == s[k..k + |q|];
    }
  }

  /** The shape of `WrapMatches` where the query occurs at the front. */
  lemma WrapAtMatch(s: string, q: string)
    requires q != [] && CiStartsWith(s, q)
    ensures WrapMatches(s, q) == OpenTag + (s[..|q|] + (CloseTag + WrapMatches(s[|q|..], q)))
  {
    assert WrapMatches(s, q) == OpenTag + s[..|q|] + CloseTag + WrapMatches(s[|q|..], q);
    Nest4(OpenTag, s[..|q|], CloseTag, WrapMatches(s[|q|..], q));
  }

  /** The shape of `WrapMatches` where it does not. */
  lemma WrapAtOther(s: string, q: string)
    requires q != [] && s != [] && !CiStartsWith(s, q)
    ensures WrapMatches(s, q) == [s[0]] + WrapMatches(s[1..], q)
  {
  }

  /** Where the query occurs nowhere, the text comes back unchanged. */
  lemma {:induction false} WrapNone(s: string, q: string)
    requires q != []
    requires forall k :: 0 <= k < |s| ==> !CiOccursAt(s, q, k)
    ensures WrapMatches(s, q) == s
    decreases |s|
  {
    if s != [] {
      assert s + [] == s && s[1..] + [] == s[1..];
      CiStartsAtZero(s, q);
      NoOccurrenceShift(s, [], q);
      WrapNone(s[1..], q);
      WrapAtOther(s, q);
      ConsFront(s, []);
    }
  }

  /** The leftmost occurrence is wrapped first, and the scan resumes right
      after it: `m` is an occurrence and none starts inside `a`. */
  lemma {:induction false} WrapFirst(a: string, m: string, b: string, q: string)
    requires q != [] && CiEq(m, q)
    requires forall k :: 0 <= k < |a| ==> !CiOccursAt(a + m + b, q, k)
    ensures WrapMatches(a + m + b, q) == a + OpenTag + m + CloseTag + WrapMatches(b, q)
    decreases |a|
  {
    if a == [] {
      WrapFirstBase(m, b, q);
    } else {
      assert a + m + b == a + (m + b) && a[1..] + (m + b) == a[1..] + m + b;
      NoOccurrenceShift(a, m + b, q);
      WrapFirst(a[1..], m, b, q);
      WrapFirstStep(a, m, b, q);
    }
  }

  lemma WrapFirstBase(m: string, b: string, q: string)
    requires q != [] && CiEq(m, q)
    ensures WrapMatches([] + m + b, q) == [] + OpenTag + m + CloseTag + WrapMatches(b, q)
  {
    var s := m + b;
    assert [] + m + b == s;
    assert s[..|q|] == m && s[|q|..] == b;
    WrapAtMatch(s, q);
    var w := WrapMatches(b, q);
    Nest4(OpenTag, m, CloseTag, w);
    assert [] + OpenTag == OpenTag;
  }

  lemma NoOccurrenceShift(a: string, t: string, q: string)
    requires a != [] && forall k :: 0 <= k < |a| ==> !CiOccursAt(a + t, q, k)
    ensures forall k :: 0 <= k < |a| - 1 ==> !CiOccursAt(a[1..] + t, q, k)
  {
    var s := a + t;
    assert s[1..] == a[1..] + t;
    forall k | 0 <= k < |a| - 1 ensures !CiOccursAt(a[1..] + t, q, k) {
      CiOccursShift(s, q, k + 1);
    }
  }

  lemma WrapFirstStep(a: string, m: string, b: string, q: string)
    requires q != [] && a != []
    requires !CiOccursAt(a + m + b, q, 0)
    requires WrapMatches(a[1..] + m + b, q) == a[1..] + OpenTag + m + CloseTag + WrapMatches(b, q)
    ensures WrapMatches(a + m + b, q) == a + OpenTag + m + CloseTag + WrapMatches(b, q)
  {
    var s := a + m + b;
    FrontOfJoin(a, m, b);
    CiStartsAtZero(s, q);
    WrapAtOther(s, q);
    WrapFirstGlue(a, m, WrapMatches(b, q));
  }

  lemma FrontOfJoin(a: string, m: string, b: string)
    requires a != []
    ensures (a + m + b)[0] == a[0] && (a + m + b)[1..] == a[1..] + m + b
  {
  }

  lemma WrapFirstGlue(a: string, m: string, w: string)
    requires a != []
    ensures [a[0]] + (a[1..] + OpenTag + m + CloseTag + w) == a + OpenTag + m + CloseTag + w
  {
    assert a == [a[0]] + a[1..];
  }

  // ---------------------------------------------------------------------
  // What the browser shows

  /** The visible text of HTML made of plain characters, the five entities
      the escaping produces and the highlight tags: tags show nothing and an
      entity shows its character. */
  function Rendered(r: string): (v: string)
    decreases |r|
    ensures |v| <= |r|
  {
    if r == [] then []
    else if StartsWith(r, OpenTag) then Rendered(r[|OpenTag|..])
    else if StartsWith(r, CloseTag) then Rendered(r[|CloseTag|..])
    else if StartsWith(r, "&amp;") then "&" + Rendered(r[5..])
    else if StartsWith(r, "&lt;") then "<" + Rendered(r[4..])
    else if StartsWith(r, "&gt;") then ">" + Rendered(r[4..])
    else if StartsWith(r, "&quot;") then "\"" + Rendered(r[6..])
    else if StartsWith(r, "&apos;") then "'" + Rendered(r[6..])
    else [r[0]] + Rendered(r[1..])
  }

  /** An escaped character shows as itself, whatever follows it. */
  lemma RenderedEscapeChar(c: char, x: string)
    ensures Rendered(EscapeChar(c) + x) == [c] + Rendered(x)
  {
    var e := EscapeChar(c);
    var s := e + x;
    assert s[..|e|] == e && s[|e|..] == x;
    assert s[0] == e[0] && (1 < |e| ==> s[1] == e[1]);
    Differs(s, OpenTag, 0);
    Differs(s, CloseTag, 0);
    if c == '&' {
      assert e == "&amp;";
    } else if c == '<' {
      assert e == "&lt;";
      Differs(s, "&amp;", 1);
    } else if c == '>' {
      assert e == "&gt;";
      Differs(s, "&amp;", 1);
      Differs(s, "&lt;", 1);
    } else if c == '"' {
      assert e == "&quot;";
      Differs(s, "&amp;", 1);
      Differs(s, "&lt;", 1);
      Differs(s, "&gt;", 1);
    } else if c == '\'' {
      assert e == "&apos;" && s[2] == e[2];
      Differs(s, "&amp;", 2);
      Differs(s, "&lt;", 1);
      Differs(s, "&gt;", 1);
      Differs(s, "&quot;", 1);
    } else {
      Differs(s, "&amp;", 0);
      Differs(s, "&lt;", 0);
      Differs(s, "&gt;", 0);
      Differs(s, "&quot;", 0);
      Differs(s, "&apos;", 0);
    }
  }

  /** Escaped text shows as the original text. */
  lemma {:induction false} RenderedEscape(a: string, x: string)
    ensures Rendered(EscapeHtml(a) + x) == a + Rendered(x)
    decreases |a|
  {
    if a == [] {
      var e := EscapeHtml(a);
      assert e == [];
      assert e + x == x;
    } else {
      RenderedEscape(a[1..], x);
      RenderedEscapeStep(a, x);
    }
  }

  lemma RenderedEscapeStep(a: string, x: string)
    requires a != [] && Rendered(EscapeHtml(a[1..]) + x) == a[1..] + Rendered(x)
    ensures Rendered(EscapeHtml(a) + x) == a + Rendered(x)
  {
    var y := EscapeHtml(a[1..]) + x;
    EscapeFront(a, x, y);
    RenderedEscapeChar(a[0], y);
    ConsFront(a, Rendered(x));
  }

  lemma EscapeFront(a: string, x: string, y: string)
    requires a != [] && y == EscapeHtml(a[1..]) + x
    ensures EscapeHtml(a) + x == EscapeChar(a[0]) + y
  {
  }

  lemma ConsFront(a: string, r: string)
    requires a != []
    ensures [a[0]] + (a[1..] + r) == a + r
  {
    assert a == [a[0]] + a[1..];
  }

  lemma RenderedOpenTag(x: string)
    ensures Rendered(OpenTag + x) == Rendered(x)
  {
    var s := OpenTag + x;
    assert s[..|OpenTag|] == OpenTag && s[|OpenTag|..] == x;
  }

  lemma RenderedCloseTag(x: string)
    ensures Rendered(CloseTag + x) == Rendered(x)
  {
    var s := CloseTag + x;
    assert s[..|CloseTag|] == CloseTag && s[|CloseTag|..] == x;
    Differs(s, OpenTag, 1);
  }

  /** Without a query, the escaped text shows exactly the original text. */
  lemma EscapedTextRendered(text: string)
    ensures Rendered(HighlightMatch(text, None)) == text
  {
    RenderedEscape(text, []);
    assert EscapeHtml(text) + [] == EscapeHtml(text);
    assert text + [] == text;
  }

  // ---------------------------------------------------------------------
  // Documented examples

  /** Every special character becomes its entity. */
  lemma EscapeExample()
    ensures HighlightMatch("&" + " " + "\"" + " " + "'" + " " + "<" + " " + ">", Some(""))
         == "&amp;" + " " + "&quot;" + " " + "&apos;" + " " + "&lt;" + " " + "&gt;"
  {
    EscapeJoin9("&", " ", "\"", " ", "'", " ", "<", " ", ">");
    EscapeEntities();
  }

  /** Each special character on its own. */
  lemma EscapeEntities()
    ensures EscapeHtml("&") == "&amp;" && EscapeHtml(" ") == " " && EscapeHtml("\"") == "&quot;"
    ensures EscapeHtml("'") == "&apos;" && EscapeHtml("<") == "&lt;" && EscapeHtml(">") == "&gt;"
  {
    EscapeCons('&', []);
    EscapeCons(' ', []);
    EscapeCons('"', []);
    EscapeCons('\'', []);
    EscapeCons('<', []);
    EscapeCons('>', []);
  }

  lemma EscapeJoin9(a1: string, a2: string, a3: string, a4: string, a5: string, a6: string, a7: string, a8: string, a9: string)
    ensures EscapeHtml(a1 + a2 + a3 + a4 + a5 + a6 + a7 + a8 + a9)
         == EscapeHtml(a1) + EscapeHtml(a2) + EscapeHtml(a3) + EscapeHtml(a4) + EscapeHtml(a5)
          + EscapeHtml(a6) + EscapeHtml(a7) + EscapeHtml(a8) + EscapeHtml(a9)
  {
    Nest9(a1, a2, a3, a4, a5, a6, a7, a8, a9);
    EscapeAppend(a8, a9);
    EscapeAppend(a7, a8 + a9);
    EscapeAppend(a6, a7 + (a8 + a9));
    EscapeAppend(a5, a6 + (a7 + (a8 + a9)));
    EscapeAppend(a4, a5 + (a6 + (a7 + (a8 + a9))));
    EscapeAppend(a3, a4 + (a5 + (a6 + (a7 + (a8 + a9)))));
    EscapeAppend(a2, a3 + (a4 + (a5 + (a6 + (a7 + (a8 + a9))))));
    EscapeAppend(a1, a2 + (a3 + (a4 + (a5 + (a6 + (a7 + (a8 + a9)))))));
    Nest9(EscapeHtml(a1), EscapeHtml(a2), EscapeHtml(a3), EscapeHtml(a4), EscapeHtml(a5),
          EscapeHtml(a6), EscapeHtml(a7), EscapeHtml(a8), EscapeHtml(a9));
  }

  lemma Nest9(a1: string, a2: string, a3: string, a4: string, a5: string, a6: string, a7: string, a8: string, a9: string)
    ensures a1 + a2 + a3 + a4 + a5 + a6 + a7 + a8 + a9 == a1 + (a2 + (a3 + (a4 + (a5 + (a6 + (a7 + (a8 + a9)))))))
  {
  }

  lemma EscapeCons(c: char, t: string)
    ensures EscapeHtml([c] + t) == EscapeChar(c) + EscapeHtml(t)
  {
    assert ([c] + t)[1..] == t;
  }

  /** `q`'s first character, up to letter case, does not occur in `a`. */
  predicate FirstCharAbsent(a: string, q: string) {
    q != [] && forall i :: 0 <= i < |a| ==> Lower(a[i]) != Lower(q[0])
  }

  /** Then no occurrence of `q` starts inside `a`, whatever follows it. */
  lemma NoOccurrenceFromFirstChar(a: string, t: string, q: string)
    requires FirstCharAbsent(a, q)
    ensures forall k :: 0 <= k < |a| ==> !CiOccursAt(a + t, q, k)
  {
    forall k | 0 <= k < |a| ensures !CiOccursAt(a + t, q, k) {
      var s := a + t;
      assert s[k] == a[k];
    }
  }

  lemma NoOccurrenceAnywhere(b: string, q: string)
    requires FirstCharAbsent(b, q)
    ensures forall k :: 0 <= k < |b| ==> !CiOccursAt(b, q, k)
  {
    NoOccurrenceFromFirstChar(b, [], q);
    assert b + [] == b;
  }

  /** Some character of `a` differs, up to letter case, from the query's
      character at the same offset: `q` cannot occur at the front of `a`,
      whatever follows `a`. */
  predicate Refutes(a: string, q: string)
    decreases |a|
  {
    a != [] && q != [] && (Lower(a[0]) != Lower(q[0]) || Refutes(a[1..], q[1..]))
  }

  /** Every place in `a` is refuted inside `a`: no occurrence of `q` starts
      in `a`, whatever follows it. */
  predicate NoStartIn(a: string, q: string)
    decreases |a|
  {
    q != [] && (a == [] || (Refutes(a, q) && NoStartIn(a[1..], q)))
  }

  lemma CiStartsTail(s: string, q: string)
    requires s != [] && q != []
    ensures CiStartsWith(s, q) ==> Lower(s[0]) == Lower(q[0]) && CiStartsWith(s[1..], q[1..])
  {
    if |q| <= |s| {
      var x, y := s[1..][..|q| - 1], s[..|q|];
      assert forall i :: 0 <= i < |x| ==> x[i] == y[i + 1];
    }
  }

  lemma {:induction false} RefutesFront(a: string, t: string, q: string)
    requires Refutes(a, q)
    ensures !CiStartsWith(a + t, q)
    decreases |a|
  {
    var s := a + t;
    assert s[0] == a[0] && s[1..] == a[1..] + t;
    CiStartsTail(s, q);
    if Lower(a[0]) == Lower(q[0]) {
      RefutesFront(a[1..], t, q[1..]);
    }
  }

  /** A stretch in which the query can start nowhere passes through the
      wrapping unchanged, and the scan goes on after it. */
  lemma {:induction false} WrapPass(a: string, t: string, q: string)
    requires NoStartIn(a, q)
    ensures WrapMatches(a + t, q) == a + WrapMatches(t, q)
    decreases |a|
  {
    if a == [] {
      assert [] + t == t;
    } else {
      var s := a + t;
      RefutesFront(a, t, q);
      WrapAtOther(s, q);
      assert s[1..] == a[1..] + t;
      WrapPass(a[1..], t, q);
      ConsFront(a, WrapMatches(t, q));
    }
  }

  /** A missing first character is the simplest refutation. */
  lemma {:induction false} FirstCharAbsentNoStart(a: string, q: string)
    requires FirstCharAbsent(a, q)
    ensures NoStartIn(a, q)
    decreases |a|
  {
    if a != [] {
      assert FirstCharAbsent(a[1..], q) by {
        assert forall i :: 0 <= i < |a| - 1 ==> a[1..][i] == a[i + 1];
      }
      FirstCharAbsentNoStart(a[1..], q);
    }
  }

  /** Stretches in which the query cannot start can be joined. */
  lemma {:induction false} NoStartJoin(a: string, b: string, q: string)
    requires NoStartIn(a, q) && NoStartIn(b, q)
    ensures NoStartIn(a + b, q)
    decreases |a|
  {
    if a != [] {
      assert (a + b)[1..] == a[1..] + b;
      RefutesExtend(a, b, q);
      NoStartJoin(a[1..], b, q);
    } else {
      assert a + b == b;
    }
  }

  lemma {:induction false} RefutesExtend(a: string, b: string, q: string)
    requires Refutes(a, q)
    ensures Refutes(a + b, q)
    decreases |a|
  {
    assert (a + b)[0] == a[0] && (a + b)[1..] == a[1..] + b;
    if Lower(a[0]) == Lower(q[0]) {
      RefutesExtend(a[1..], b, q[1..]);
    }
  }

  lemma NoHtmlSpecialJoin(a: string, b: string)
    requires NoHtmlSpecial(a) && NoHtmlSpecial(b)
    ensures NoHtmlSpecial(a + b)
  {
    assert forall i :: 0 <= i < |a + b| ==> (a + b)[i] == if i < |a| then a[i] else b[i - |a|];
  }

  /** Without special characters, highlighting is wrapping the text itself. */
  lemma PlainHighlight(text: string, q: string)
    requires q != [] && NoHtmlSpecial(text) && NoHtmlSpecial(q)
    ensures HighlightMatch(text, Some(q)) == WrapMatches(text, q)
  {
  }

  /** One occurrence, with text around it in which the query cannot start. */
  lemma WrapOne(a: string, m: string, b: string, q: string)
    requires CiEq(m, q) && NoStartIn(a, q) && NoStartIn(b, q)
    ensures WrapMatches(a + m + b, q) == a + OpenTag + m + CloseTag + b
  {
    WrapPass(a, m + b, q);
    WrapHere(m, b, q);
    WrapPassAll(b, q);
    WrapOneGlue(a, m, b, q, OpenTag + m + CloseTag + b);
  }

  lemma WrapOneGlue(a: string, m: string, b: string, q: string, w: string)
    requires q != [] && WrapMatches(a + (m + b), q) == a + w && w == OpenTag + m + CloseTag + b
    ensures WrapMatches(a + m + b, q) == a + OpenTag + m + CloseTag + b
  {
    assert a + m + b == a + (m + b);
    assert a + w == a + OpenTag + m + CloseTag + b;
  }

  /** An occurrence at the front is wrapped, and the scan goes on after it. */
  lemma WrapHere(m: string, b: string, q: string)
    requires q != [] && CiEq(m, q)
    ensures WrapMatches(m + b, q) == OpenTag + m + CloseTag + WrapMatches(b, q)
  {
    WrapFirstBase(m, b, q);
    assert [] + m + b == m + b && [] + OpenTag == OpenTag;
  }

  /** A text in which the query can start nowhere is left as it is. */
  lemma WrapPassAll(b: string, q: string)
    requires NoStartIn(b, q)
    ensures WrapMatches(b, q) == b
  {
    WrapPass(b, [], q);
    assert b + [] == b;
  }

  lemma OneMatch(a: string, m: string, b: string, q: string)
    requires NoHtmlSpecial(a) && NoHtmlSpecial(m) && NoHtmlSpecial(b) && NoHtmlSpecial(q)
    requires CiEq(m, q) && NoStartIn(a, q) && NoStartIn(b, q)
    ensures HighlightMatch(a + m + b, Some(q)) == a + OpenTag + m + CloseTag + b
  {
    NoHtmlSpecialJoin(a, m);
    NoHtmlSpecialJoin(a + m, b);
    PlainHighlight(a + m + b, q);
    WrapOne(a, m, b, q);
  }

  /** Two occurrences, each followed by text in which the query cannot start. */
  lemma TwoMatches(m1: string, c: string, m2: string, d: string, q: string)
    requires NoHtmlSpecial(m1) && NoHtmlSpecial(c) && NoHtmlSpecial(m2) && NoHtmlSpecial(d) && NoHtmlSpecial(q)
    requires CiEq(m1, q) && CiEq(m2, q) && NoStartIn(c, q) && NoStartIn(d, q)
    ensures HighlightMatch(m1 + c + m2 + d, Some(q)) == OpenTag + m1 + CloseTag + c + OpenTag + m2 + CloseTag + d
  {
    NoHtmlSpecialJoin(m1, c);
    NoHtmlSpecialJoin(m1 + c, m2);
    NoHtmlSpecialJoin(m1 + c + m2, d);
    PlainHighlight(m1 + c + m2 + d, q);
    TwoWraps(m1, c, m2, d, q);
  }

  lemma TwoWraps(m1: string, c: string, m2: string, d: string, q: string)
    requires CiEq(m1, q) && CiEq(m2, q) && NoStartIn(c, q) && NoStartIn(d, q)
    ensures WrapMatches(m1 + c + m2 + d, q) == OpenTag + m1 + CloseTag + c + OpenTag + m2 + CloseTag + d
  {
    var rest := c + m2 + d;
    TwoWrapsInput(m1, c, m2, d, rest);
    WrapFirst([], m1, rest, q);
    WrapOne(c, m2, d, q);
    TwoWrapsOutput(m1, c, m2, d, WrapMatches(rest, q));
  }

  lemma TwoWrapsInput(m1: string, c: string, m2: string, d: string, rest: string)
    requires rest == c + m2 + d
    ensures m1 + c + m2 + d == [] + m1 + rest
  {
  }

  lemma TwoWrapsOutput(m1: string, c: string, m2: string, d: string, w: string)
    requires w == c + OpenTag + m2 + CloseTag + d
    ensures [] + OpenTag + m1 + CloseTag + w == OpenTag + m1 + CloseTag + c + OpenTag + m2 + CloseTag + d
  {
  }

  /** With a query, highlighting wraps the occurrences of the escaped
      query in the escaped text. */
  lemma HighlightWraps(text: string, q: string)
    requires q != []
    ensures HighlightMatch(text, Some(q)) == WrapMatches(EscapeHtml(text), EscapeHtml(q))
  {
  }

  lemma EscapeThree(x: string, m: string, y: string)
    ensures EscapeHtml(x + m + y) == EscapeHtml(x) + EscapeHtml(m) + EscapeHtml(y)
  {
    EscapeAppend(x + m, y);
    EscapeAppend(x, m);
  }

  lemma EscapeFive(a1: string, a2: string, a3: string, a4: string, a5: string)
    ensures EscapeHtml(a1 + a2 + a3 + a4 + a5)
         == EscapeHtml(a1) + EscapeHtml(a2) + EscapeHtml(a3) + EscapeHtml(a4) + EscapeHtml(a5)
  {
    EscapeThree(a1 + a2 + a3, a4, a5);
    EscapeThree(a1, a2, a3);
  }

  /** A query that occurs in the text is found as the escaped query in the
      escaped text: the wrapped occurrence is the escaped occurrence, and
      the text around it comes out escaped. */
  lemma EscapedOneMatch(x: string, m: string, y: string, q: string)
    requires q != [] && CiEq(EscapeHtml(m), EscapeHtml(q))
    requires NoStartIn(EscapeHtml(x), EscapeHtml(q)) && NoStartIn(EscapeHtml(y), EscapeHtml(q))
    ensures HighlightMatch(x + m + y, Some(q)) == EscapeHtml(x) + OpenTag + EscapeHtml(m) + CloseTag + EscapeHtml(y)
  {
    EscapeThree(x, m, y);
    WrapOne(EscapeHtml(x), EscapeHtml(m), EscapeHtml(y), EscapeHtml(q));
    HighlightWraps(x + m + y, q);
  }

  /** Two occurrences of the query, the same way. */
  lemma EscapedTwoMatches(x: string, m1: string, y: string, m2: string, z: string, q: string)
    requires q != [] && CiEq(EscapeHtml(m1), EscapeHtml(q)) && CiEq(EscapeHtml(m2), EscapeHtml(q))
    requires NoStartIn(EscapeHtml(x), EscapeHtml(q)) && NoStartIn(EscapeHtml(y), EscapeHtml(q))
    requires NoStartIn(EscapeHtml(z), EscapeHtml(q))
    ensures HighlightMatch(x + m1 + y + m2 + z, Some(q))
         == EscapeHtml(x) + OpenTag + EscapeHtml(m1) + CloseTag + EscapeHtml(y)
          + OpenTag + EscapeHtml(m2) + CloseTag + EscapeHtml(z)
  {
    var ex, e1, ey, e2, ez := EscapeHtml(x), EscapeHtml(m1), EscapeHtml(y), EscapeHtml(m2), EscapeHtml(z);
    EscapeFive(x, m1, y, m2, z);
    TwoMatchesAfter(ex, e1, ey, e2, ez, EscapeHtml(q));
    HighlightChain(x + m1 + y + m2 + z, q, ex + e1 + ey + e2 + ez,
                   ex + OpenTag + e1 + CloseTag + ey + OpenTag + e2 + CloseTag + ez);
  }

  /** Highlighting is wrapping the escaped query in the escaped text. */
  lemma HighlightChain(t: string, q: string, et: string, r: string)
    requires q != [] && EscapeHtml(t) == et && WrapMatches(et, EscapeHtml(q)) == r
    ensures HighlightMatch(t, Some(q)) == r
  {
    HighlightWraps(t, q);
  }

  /** Two occurrences after a stretch in which the query cannot start. */
  lemma TwoMatchesAfter(ex: string, e1: string, ey: string, e2: string, ez: string, q: string)
    requires CiEq(e1, q) && CiEq(e2, q) && NoStartIn(ex, q) && NoStartIn(ey, q) && NoStartIn(ez, q)
    ensures WrapMatches(ex + e1 + ey + e2 + ez, q)
         == ex + OpenTag + e1 + CloseTag + ey + OpenTag + e2 + CloseTag + ez
  {
    var t := e1 + ey + e2 + ez;
    WrapPass(ex, t, q);
    TwoWraps(e1, ey, e2, ez, q);
    TwoMatchesGlue(ex, e1, ey, e2, ez, q, WrapMatches(t, q));
  }

  lemma TwoMatchesGlue(ex: string, e1: string, ey: string, e2: string, ez: string, q: string, w: string)
    requires q != [] && WrapMatches(ex + (e1 + ey + e2 + ez), q) == ex + w
    requires w == OpenTag + e1 + CloseTag + ey + OpenTag + e2 + CloseTag + ez
    ensures WrapMatches(ex + e1 + ey + e2 + ez, q)
         == ex + OpenTag + e1 + CloseTag + ey + OpenTag + e2 + CloseTag + ez
  {
    assert ex + e1 + ey + e2 + ez == ex + (e1 + ey + e2 + ez);
    assert ex + w == ex + OpenTag + e1 + CloseTag + ey + OpenTag + e2 + CloseTag + ez;
  }

  /** Equal characters up to offset `j` and a different one there refute. */
  lemma {:induction false} RefutesAt(x: string, q: string, j: nat)
    requires j < |x| && j < |q| && Lower(x[j]) != Lower(q[j])
    requires forall i :: 0 <= i < j ==> Lower(x[i]) == Lower(q[i])
    ensures Refutes(x, q)
    decreases j
  {
    if j > 0 {
      assert forall i :: 0 <= i < j - 1 ==> x[1..][i] == x[i + 1] && q[1..][i] == q[i + 1];
      RefutesAt(x[1..], q[1..], j - 1);
    }
  }

  /** A plain stretch cannot hold the start of a query that begins with an entity. */
  lemma PlainNoStart(a: string, q: string)
    requires NoHtmlSpecial(a) && q != [] && q[0] == '&'
    ensures NoStartIn(a, q)
  {
    assert forall i :: 0 <= i < |a| ==> !IsHtmlSpecial(a[i]);
    FirstCharAbsentNoStart(a, q);
  }

  /** Nor can an entity other than the query's first one. */
  lemma EntityNoStart(x: string, q: string)
    requires x != [] && q != [] && q[0] == '&' && Refutes(x, q)
    requires forall i :: 1 <= i < |x| ==> x[i] != '&'
    ensures NoStartIn(x, q)
  {
    assert forall i :: 0 <= i < |x| - 1 ==> x[1..][i] == x[i + 1];
    FirstCharAbsentNoStart(x[1..], q);
  }

  /** A single keyword in running text. */
  lemma KeywordExample()
    ensures HighlightMatch("這是搜尋" + "關鍵字" + "範例。", Some("關鍵字"))
         == "這是搜尋" + OpenTag + "關鍵字" + CloseTag + "範例。"
  {
    OneMatch("這是搜尋", "關鍵字", "範例。", "關鍵字");
  }

  /** Matching ignores letter case and keeps the text's own spelling. */
  lemma CaseInsensitiveExample()
    ensures HighlightMatch("JavaScript" + " 是一種語言。" + "Javascript" + " 很棒。", Some("javascript"))
         == OpenTag + "JavaScript" + CloseTag + " 是一種語言。" + OpenTag + "Javascript" + CloseTag + " 很棒。"
  {
    CaseWords();
    CaseNoStart();
    TwoMatches("JavaScript", " 是一種語言。", "Javascript", " 很棒。", "javascript");
  }

  lemma CaseWords()
    ensures NoHtmlSpecial("JavaScript") && NoHtmlSpecial(" 是一種語言。") && NoHtmlSpecial("Javascript")
    ensures NoHtmlSpecial(" 很棒。") && NoHtmlSpecial("javascript")
    ensures CiEq("JavaScript", "javascript") && CiEq("Javascript", "javascript")
  {
  }

  lemma CaseNoStart()
    ensures NoStartIn(" 是一種語言。", "javascript") && NoStartIn(" 很棒。", "javascript")
  {
    FirstCharAbsentNoStart(" 是一種語言。", "javascript");
    FirstCharAbsentNoStart(" 很棒。", "javascript");
  }

  // ---------------------------------------------------------------------
  // Highlighting inside an entity

  /** A stretch without `<` or `&` shows as itself. */
  lemma {:induction false} RenderedPlain(a: string, x: string)
    requires forall i :: 0 <= i < |a| ==> a[i] != '<' && a[i] != '&'
    ensures Rendered(a + x) == a + Rendered(x)
    decreases |a|
  {
    if a == [] {
      assert a + x == x;
    } else {
      RenderedPlain(a[1..], x);
      RenderedPlainStep(a, x);
    }
  }

  lemma RenderedPlainStep(a: string, x: string)
    requires a != [] && a[0] != '<' && a[0] != '&'
    requires Rendered(a[1..] + x) == a[1..] + Rendered(x)
    ensures Rendered(a + x) == a + Rendered(x)
  {
    ConsSplit(a, x);
    RenderedPlainChar(a[0], a[1..] + x);
    ConsFront(a, Rendered(x));
  }

  lemma ConsSplit(a: string, x: string)
    requires a != []
    ensures a + x == [a[0]] + (a[1..] + x)
  {
    assert a == [a[0]] + a[1..];
  }

  lemma RenderedPlainChar(c: char, x: string)
    requires c != '<' && c != '&'
    ensures Rendered([c] + x) == [c] + Rendered(x)
  {
    var s := [c] + x;
    assert s[0] == c && s[1..] == x;
    Differs(s, OpenTag, 0);
    Differs(s, CloseTag, 0);
    Differs(s, "&amp;", 0);
    Differs(s, "&lt;", 0);
    Differs(s, "&gt;", 0);
    Differs(s, "&quot;", 0);
    Differs(s, "&apos;", 0);
  }

  /** An `&` directly before a tag is not an entity and shows as itself. */
  lemma RenderedLoneAmpersand(s: string)
    requires 2 <= |s| && s[0] == '&' && s[1] == '<'
    ensures Rendered(s) == [s[0]] + Rendered(s[1..])
  {
    Differs(s, OpenTag, 0);
    Differs(s, CloseTag, 0);
    Differs(s, "&amp;", 1);
    Differs(s, "&lt;", 1);
    Differs(s, "&gt;", 1);
    Differs(s, "&quot;", 1);
    Differs(s, "&apos;", 1);
    RenderedKeep(s);
  }

  /** A character that starts neither a tag nor an entity shows as itself. */
  lemma RenderedKeep(s: string)
    requires s != [] && !StartsWith(s, OpenTag) && !StartsWith(s, CloseTag)
    requires !StartsWith(s, "&amp;") && !StartsWith(s, "&lt;") && !StartsWith(s, "&gt;")
    requires !StartsWith(s, "&quot;") && !StartsWith(s, "&apos;")
    ensures Rendered(s) == [s[0]] + Rendered(s[1..])
  {
  }

  /** As written, a query that spells part of an entity is found inside the
      entity: the highlight cuts `&lt;` apart, and the page shows the four
      characters `&lt;` where the text had `<`. */
  lemma HighlightCutsEntity()
    ensures HighlightMatch("<", Some("lt")) == "&" + OpenTag + "lt" + CloseTag + ";"
    ensures Rendered(HighlightMatch("<", Some("lt"))) == "&lt;"
  {
    CutEntityText();
    CutEntityRendered("&" + OpenTag + "lt" + CloseTag + ";");
  }

  lemma CutEntityText()
    ensures HighlightMatch("<", Some("lt")) == "&" + OpenTag + "lt" + CloseTag + ";"
  {
    assert EscapeHtml("<") == "&" + "lt" + ";";
    assert EscapeHtml("lt") == "lt";
    WrapOne("&", "lt", ";", "lt");
  }

  lemma CutEntityRendered(r: string)
    requires r == "&" + OpenTag + "lt" + CloseTag + ";"
    ensures Rendered(r) == "&lt;"
  {
    var c := CloseTag + ";";
    var m := "lt" + c;
    AmpersandBeforeTag(r, OpenTag + m);
    RenderedOpenTag(m);
    ShowsLt(c);
    RenderedCloseTag(";");
    RenderedPlainChar(';', "");
    assert "&" + ("lt" + (";" + "")) == "&lt;";
  }

  lemma ShowsLt(c: string)
    ensures Rendered("lt" + c) == "lt" + Rendered(c)
  {
    RenderedPlain("lt", c);
  }

  lemma AmpersandBeforeTag(r: string, o: string)
    requires r == "&" + o && StartsWith(o, OpenTag)
    ensures Rendered(r) == "&" + Rendered(o)
  {
    assert r[1..] == o && r[1] == o[0];
    RenderedLoneAmpersand(r);
  }

  /** Highlighting as evidently intended: occurrences are looked for in the
      text as the reader sees it, and each piece is escaped on its own, so a
      highlight never cuts through an entity. */
  function WrapEscaped(s: string, q: string): (r: string)
    requires q != []
    decreases |s|
    ensures |s| <= |r|
  {
    if s == [] then []
    else if CiStartsWith(s, q) then OpenTag + EscapeHtml(s[..|q|]) + CloseTag + WrapEscaped(s[|q|..], q)
    else EscapeChar(s[0]) + WrapEscaped(s[1..], q)
  }

  /** `highlightMatch` with the intended matching: the page shows exactly
      the text, the markup is only in the tags, and taking the tags out
      gives the escaped text. */
  function HighlightVisible(text: string, query: Option<string>): (r: string)
    ensures query.None? || query == Some("") ==> r == EscapeHtml(text)
    ensures Rendered(r) == text
    ensures RemoveTags(r) == EscapeHtml(text)
    ensures MarkupOnlyInTags(r)
  {
    var escaped := EscapeHtml(text);
    RenderedEscape(text, []);
    assert escaped + [] == escaped && text + [] == text;
    NoTagsRemoved(escaped);
    PlainMarkupOnlyInTags(escaped, []);
    if query.None? || query.value == "" then escaped
    else
      WrapEscapedRendered(text, query.value);
      WrapEscapedRemoveTags(text, query.value);
      WrapEscapedMarkupOnlyInTags(text, query.value);
      WrapEscaped(text, query.value)
  }

  /** The shape of `WrapEscaped` where the query occurs at the front. */
  lemma WrapEscapedMatch(s: string, q: string)
    requires q != [] && CiStartsWith(s, q)
    ensures WrapEscaped(s, q) == OpenTag + (EscapeHtml(s[..|q|]) + (CloseTag + WrapEscaped(s[|q|..], q)))
  {
    assert WrapEscaped(s, q) == OpenTag + EscapeHtml(s[..|q|]) + CloseTag + WrapEscaped(s[|q|..], q);
    Nest4(OpenTag, EscapeHtml(s[..|q|]), CloseTag, WrapEscaped(s[|q|..], q));
  }

  lemma Nest4(a: string, b: string, c: string, d: string)
    ensures a + b + c + d == a + (b + (c + d))
  {
  }

  lemma RenderedTagged(m: string, w: string)
    ensures Rendered(OpenTag + (EscapeHtml(m) + (CloseTag + w))) == m + Rendered(w)
  {
    RenderedOpenTag(EscapeHtml(m) + (CloseTag + w));
    RenderedEscape(m, CloseTag + w);
    RenderedCloseTag(w);
  }

  lemma RemoveTagged(m: string, w: string)
    requires NoMarkupDelimiter(m)
    ensures RemoveTags(OpenTag + (m + (CloseTag + w))) == m + RemoveTags(w)
  {
    RemoveOpenTag(m + (CloseTag + w));
    RemoveTagsPlain(m, CloseTag + w);
    RemoveCloseTag(w);
  }

  /** The shape of `WrapEscaped` where it does not. */
  lemma WrapEscapedOther(s: string, q: string)
    requires q != [] && s != [] && !CiStartsWith(s, q)
    ensures WrapEscaped(s, q) == EscapeChar(s[0]) + WrapEscaped(s[1..], q)
  {
  }

  lemma {:induction false} WrapEscapedRendered(s: string, q: string)
    requires q != []
    ensures Rendered(WrapEscaped(s, q)) == s
    decreases |s|
  {
    if s == [] {
    } else if CiStartsWith(s, q) {
      WrapEscapedRendered(s[|q|..], q);
      WrapEscapedMatch(s, q);
      SplitAt(s, |q|);
      RenderedMatchStep(s[..|q|], s[|q|..], s, WrapEscaped(s, q), WrapEscaped(s[|q|..], q));
    } else {
      WrapEscapedRendered(s[1..], q);
      WrapEscapedOther(s, q);
      RenderedOtherStep(s, WrapEscaped(s, q), WrapEscaped(s[1..], q));
    }
  }

  lemma RenderedMatchStep(m: string, rest: string, s: string, r: string, w: string)
    requires s == m + rest && r == OpenTag + (EscapeHtml(m) + (CloseTag + w)) && Rendered(w) == rest
    ensures Rendered(r) == s
  {
    RenderedTagged(m, w);
  }

  lemma RenderedOtherStep(s: string, r: string, w: string)
    requires s != [] && r == EscapeChar(s[0]) + w && Rendered(w) == s[1..]
    ensures Rendered(r) == s
  {
    RenderedEscapeChar(s[0], w);
    ConsFront(s, []);
    assert s[1..] + [] == s[1..] && s + [] == s;
  }

  lemma {:induction false} WrapEscapedRemoveTags(s: string, q: string)
    requires q != []
    ensures RemoveTags(WrapEscaped(s, q)) == EscapeHtml(s)
    decreases |s|
  {
    if s == [] {
    } else if CiStartsWith(s, q) {
      WrapEscapedRemoveTags(s[|q|..], q);
      WrapEscapedMatch(s, q);
      RemoveEscapedMatchStep(s, |q|, WrapEscaped(s, q), WrapEscaped(s[|q|..], q));
    } else {
      WrapEscapedRemoveTags(s[1..], q);
      WrapEscapedOther(s, q);
      RemoveEscapedOtherStep(s, WrapEscaped(s, q), WrapEscaped(s[1..], q));
    }
  }

  lemma RemoveEscapedMatchStep(s: string, n: nat, r: string, w: string)
    requires n <= |s| && r == OpenTag + (EscapeHtml(s[..n]) + (CloseTag + w)) && RemoveTags(w) == EscapeHtml(s[n..])
    ensures RemoveTags(r) == EscapeHtml(s)
  {
    RemoveTagged(EscapeHtml(s[..n]), w);
    EscapeSplit(s, n);
  }

  lemma EscapeSplit(s: string, n: nat)
    requires n <= |s|
    ensures EscapeHtml(s) == EscapeHtml(s[..n]) + EscapeHtml(s[n..])
  {
    var a, b := s[..n], s[n..];
    assert s == a + b;
    EscapeAppend(a, b);
  }

  lemma RemoveEscapedOtherStep(s: string, r: string, w: string)
    requires s != [] && r == EscapeChar(s[0]) + w && RemoveTags(w) == EscapeHtml(s[1..])
    ensures RemoveTags(r) == EscapeHtml(s)
  {
    RemoveTagsPlain(EscapeChar(s[0]), w);
  }

  lemma {:induction false} WrapEscapedMarkupOnlyInTags(s: string, q: string)
    requires q != []
    ensures MarkupOnlyInTags(WrapEscaped(s, q))
    decreases |s|
  {
    if s == [] {
    } else if CiStartsWith(s, q) {
      WrapEscapedMarkupOnlyInTags(s[|q|..], q);
      WrapEscapedMatch(s, q);
      TagsMarkupOnlyInTags(EscapeHtml(s[..|q|]), WrapEscaped(s[|q|..], q));
    } else {
      WrapEscapedMarkupOnlyInTags(s[1..], q);
      WrapEscapedOther(s, q);
      PlainMarkupOnlyInTags(EscapeChar(s[0]), WrapEscaped(s[1..], q));
    }
  }

  /** On text and queries without special characters the two versions agree. */
  lemma {:induction false} WrapEscapedAgrees(s: string, q: string)
    requires q != [] && NoHtmlSpecial(s)
    ensures WrapEscaped(s, q) == WrapMatches(s, q)
    decreases |s|
  {
    if s != [] {
      assert NoHtmlSpecial(s[1..]) && NoHtmlSpecial(s[..1]);
      if CiStartsWith(s, q) {
        assert NoHtmlSpecial(s[..|q|]) && NoHtmlSpecial(s[|q|..]);
        WrapEscapedAgrees(s[|q|..], q);
      } else {
        assert !IsHtmlSpecial(s[0]);
        WrapEscapedAgrees(s[1..], q);
      }
    }
  }

  lemma HighlightVisibleAgrees(text: string, query: string)
    requires NoHtmlSpecial(text) && NoHtmlSpecial(query)
    ensures HighlightVisible(text, Some(query)) == HighlightMatch(text, Some(query))
  {
    if query != "" {
      WrapEscapedAgrees(text, query);
    }
  }

  /** With the intended matching the entity stays whole. */
  lemma HighlightVisibleKeepsEntity()
    ensures HighlightVisible("<", Some("lt")) == "&lt;"
  {
    assert !CiStartsWith("<", "lt");
  }
}
