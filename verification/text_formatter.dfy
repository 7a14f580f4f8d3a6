/**
 The content utilities of src/utils/textFormatter.js: `stripMarkdown`, which
 turns a markdown document into one line of plain text for previews, and
 `highlightMatch`, which marks the occurrences of a search query in a text
 that is first made safe to embed in HTML.
 */
module TextFormatter {
  import opened Wrappers
  import opened Text
  import opened Replace
  import opened MarkdownRules

  /** `stripMarkdown`: an absent or empty document gives the empty text;
      otherwise the replacement steps run in source order and the result is
      trimmed. The result is one line with single plain spaces between words. */
  function StripMarkdown(markdown: Option<string>): (r: string)
    ensures markdown.None? || markdown == Some("") ==> r == ""
    ensures NoOuterSpace(r) && PlainSpacesOnly(r) && SingleSpaced(r)
    ensures forall i :: 0 <= i < |r| ==> !IsLineTerminator(r[i])
  {
    if markdown.None? || markdown.value == "" then ""
    else
      var s := ReplaceAll(Pattern(Newline), RemoveMarkup(markdown.value));
      CollapsedLine(s);
      Collapse(s)
  }

  /** Steps six and seven without the line-feed step: white-space runs
      become one space and the ends are trimmed. */
  function Collapse(s: string): string {
    Trim(ReplaceAll(Pattern(Whitespace), s))
  }

  /** A collapsed text is one line with single plain spaces between words. */
  lemma CollapsedLine(s: string)
    ensures NoOuterSpace(Collapse(s)) && PlainSpacesOnly(Collapse(s)) && SingleSpaced(Collapse(s))
    ensures forall i :: 0 <= i < |Collapse(s)| ==> !IsLineTerminator(Collapse(s)[i])
  {
    var c := ReplaceAll(Pattern(Whitespace), s);
    CollapseSpacing(s);
    TrimKeepsSpacing(c);
    var r := Trim(c);
    forall i | 0 <= i < |r| ensures !IsLineTerminator(r[i]) {
      assert IsLineTerminator(r[i]) ==> IsSpace(r[i]);
    }
  }

  /** Steps one to five of `stripMarkdown`: code blocks, links, HTML tags,
      strong and emphasised text, and heading hashes, in that order. */
  function RemoveMarkup(s: string): string {
    var s1 := ReplaceAll(Pattern(CodeBlock), s);
    var s2 := ReplaceAll(Pattern(Link), s1);
    var s3 := ReplaceAll(Pattern(HtmlTag), s2);
    var s4 := ReplaceAll(Pattern(Strong), s3);
    var s5 := ReplaceAll(Pattern(Emphasis), s4);
    ReplaceAll(Pattern(Heading), s5)
  }

  /** Collapsing white-space runs leaves only single plain spaces, and keeps
      a leading character that is not white space. */
  lemma {:induction false} CollapseSpacing(t: string)
    ensures PlainSpacesOnly(ReplaceAll(Pattern(Whitespace), t))
    ensures SingleSpaced(ReplaceAll(Pattern(Whitespace), t))
    ensures t != [] && !IsSpace(t[0]) ==>
      ReplaceAll(Pattern(Whitespace), t) != [] && ReplaceAll(Pattern(Whitespace), t)[0] == t[0]
    decreases |t|
  {
    if t != [] {
      CollapseFront(t);
      if IsSpace(t[0]) {
        var rest := t[SpaceRun(t)..];
        CollapseSpacing(rest);
        SpacingCons(' ', ReplaceAll(Pattern(Whitespace), rest));
      } else {
        CollapseSpacing(t[1..]);
        SpacingCons(t[0], ReplaceAll(Pattern(Whitespace), t[1..]));
      }
    }
  }

  /** One more character in front keeps the spacing when it is a plain
      space before a character that is not white space, or not white space. */
  lemma SpacingCons(c: char, r: string)
    requires PlainSpacesOnly(r) && SingleSpaced(r)
    requires IsSpace(c) ==> c == ' ' && (r == [] || !IsSpace(r[0]))
    ensures PlainSpacesOnly([c] + r) && SingleSpaced([c] + r)
  {
    var s := [c] + r;
    assert forall i :: 0 < i < |s| ==> s[i] == r[i - 1];
  }

  /** The characters with which a markup pattern can start. */
  predicate IsMarkupChar(c: char) {
    c == '`' || c == '[' || c == '<' || c == '*' || c == '_' || c == '#'
  }

  predicate NoMarkup(s: string) {
    forall i :: 0 <= i < |s| ==> !IsMarkupChar(s[i])
  }

  /** On text without markup characters, only the white-space steps act:
      runs of white space become one space and the ends are trimmed. */
  lemma PlainTextStrip(s: string)
    requires NoMarkup(s)
    ensures StripMarkdown(Some(s)) == Collapse(s)
  {
    if s != [] {
      RemoveMarkupIdentity(s);
      NewlineInvisible(s);
    }
  }

  lemma RemoveMarkupIdentity(s: string)
    requires NoMarkup(s)
    ensures RemoveMarkup(s) == s
  {
    ReplaceAllIdentity(CodeBlock, s);
    ReplaceAllIdentity(Link, s);
    ReplaceAllIdentity(HtmlTag, s);
    ReplaceAllIdentity(Strong, s);
    ReplaceAllIdentity(Emphasis, s);
    ReplaceAllIdentity(Heading, s);
  }

  /** A non-empty document strips to the collapse of its markup-free text:
      the line-feed step is absorbed by the collapse. */
  lemma StripVia(doc: string, x: string)
    requires doc != "" && RemoveMarkup(doc) == x
    ensures StripMarkdown(Some(doc)) == Collapse(x)
  {
    NewlineInvisible(x);
  }

  /** Turning line feeds into spaces before collapsing white space makes no difference. */
  lemma NewlineInvisible(s: string)
    ensures ReplaceAll(Pattern(Whitespace), ReplaceAll(Pattern(Newline), s)) == ReplaceAll(Pattern(Whitespace), s)
  {
    NewlinePointwise(s);
    CollapseRespectsSpacing(ReplaceAll(Pattern(Newline), s), s);
  }

  /** Replacing line feeds by spaces changes nothing else. */
  lemma {:induction false} NewlinePointwise(s: string)
    ensures |ReplaceAll(Pattern(Newline), s)| == |s|
    ensures forall i :: 0 <= i < |s| ==>
      ReplaceAll(Pattern(Newline), s)[i] == if s[i] == '\n' then ' ' else s[i]
    decreases |s|
  {
    if s != [] {
      NewlinePointwise(s[1..]);
      NewlineHead(s);
    }
  }

  /** The line-feed step on the first character. */
  lemma NewlineHead(s: string)
    requires s != []
    ensures ReplaceAll(Pattern(Newline), s) == [if s[0] == '\n' then ' ' else s[0]] + ReplaceAll(Pattern(Newline), s[1..])
  {
    if s[0] == '\n' {
      assert Pattern(Newline)(s) == Some(Match(1, " "));
    } else {
      assert Pattern(Newline)(s) == None;
    }
  }

  /** Two texts of equal length that have white space at the same places
      and agree everywhere else. */
  predicate SameSpacing(x: string, y: string) {
    && |x| == |y|
    && forall i :: 0 <= i < |x| ==> IsSpace(x[i]) == IsSpace(y[i]) && (!IsSpace(x[i]) ==> x[i] == y[i])
  }

  /** Collapsing white space only looks at where the white space is, not
      at which white-space characters are there. */
  lemma {:induction false} CollapseRespectsSpacing(x: string, y: string)
    requires SameSpacing(x, y)
    ensures ReplaceAll(Pattern(Whitespace), x) == ReplaceAll(Pattern(Whitespace), y)
    decreases |x|
  {
    if x != [] {
      CollapseFront(x);
      CollapseFront(y);
      var n := if IsSpace(x[0]) then SpaceRun(x) else 1;
      assert IsSpace(x[0]) ==> SpaceRun(x) == SpaceRun(y) by {
        SpaceRunSame(x, y);
      }
      SameSpacingDrop(x, y, n);
      CollapseRespectsSpacing(x[n..], y[n..]);
    }
  }

  /** One step of the white-space collapse, seen from the front of the text. */
  lemma CollapseFront(t: string)
    requires t != []
    ensures IsSpace(t[0]) ==>
      && 0 < SpaceRun(t)
      && ReplaceAll(Pattern(Whitespace), t) == " " + ReplaceAll(Pattern(Whitespace), t[SpaceRun(t)..])
    ensures !IsSpace(t[0]) ==>
      ReplaceAll(Pattern(Whitespace), t) == [t[0]] + ReplaceAll(Pattern(Whitespace), t[1..])
  {
    if IsSpace(t[0]) {
      assert Pattern(Whitespace)(t) == Some(Match(SpaceRun(t), " "));
    } else {
      assert Pattern(Whitespace)(t) == None;
    }
  }

  lemma SameSpacingDrop(x: string, y: string, n: nat)
    requires SameSpacing(x, y) && n <= |x|
    ensures SameSpacing(x[n..], y[n..])
  {
    assert forall i :: 0 <= i < |x| - n ==> x[n..][i] == x[n + i] && y[n..][i] == y[n + i];
  }

  lemma {:induction false} SpaceRunSame(x: string, y: string)
    requires SameSpacing(x, y)
    ensures SpaceRun(x) == SpaceRun(y)
    decreases |x|
  {
    if x != [] && IsSpace(x[0]) {
      SameSpacingDrop(x, y, 1);
      SpaceRunSame(x[1..], y[1..]);
    }
  }
}
