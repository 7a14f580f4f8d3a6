/**
 What each step of `stripMarkdown` does to one construct at the front of a
 text: the construct is replaced and the scan goes on after it. Together
 with `ReplaceAllClean`, which passes over text a step leaves alone, these
 derive the result of the pipeline on documents built from known pieces.
 */
module StripSteps {
  import opened Wrappers
  import opened Text
  import opened Replace
  import opened MarkdownRules
  import opened MarkdownRuleFacts
  import opened TextFormatter

  /** A character that no step of the pipeline treats specially. */
  predicate IsWordChar(c: char) {
    !IsSpace(c) && !IsMarkupChar(c) && c != ']' && c != ')'
  }

  /** A non-empty run of ordinary characters. */
  predicate Word(w: string) {
    w != [] && forall i :: 0 <= i < |w| ==> IsWordChar(w[i])
  }

  /** A link target: non-empty, without `)` and without backticks. */
  predicate Url(u: string) {
    u != [] && forall i :: 0 <= i < |u| ==> u[i] != ')' && u[i] != '`'
  }

  /** No step finds anything to replace inside a word. */
  lemma WordFree(rule: Rule, w: string)
    requires Word(w)
    ensures FreeOf(rule, w)
  {
  }

  /** A fenced code block at the front becomes one space. */
  lemma CodeBlockFront(body: string, rest: string)
    requires FreeOf(CodeBlock, body)
    ensures ReplaceAll(Pattern(CodeBlock), Fence + (body + (Fence + rest)))
         == " " + ReplaceAll(Pattern(CodeBlock), rest)
  {
    var x := Fence + body + Fence;
    assert Fence + (body + (Fence + rest)) == x + rest;
    assert Find(body + Fence, Fence) == Some(|body|) by {
      FindSkip(body, Fence, Fence);
      assert Find(Fence, Fence) == Some(0);
    }
    CodeBlockAccepts(x + rest, body, rest);
    ReplaceAllStep(Pattern(CodeBlock), x, rest, " ");
  }

  /** A link at the front becomes its text. */
  lemma LinkFront(text: string, url: string, rest: string)
    requires text != [] && ']' !in text && url != [] && ')' !in url
    ensures ReplaceAll(Pattern(Link), "[" + (text + ("](" + (url + (")" + rest)))))
         == text + ReplaceAll(Pattern(Link), rest)
  {
    var x := "[" + text + "](" + url + ")";
    assert "[" + (text + ("](" + (url + (")" + rest)))) == x + rest;
    LinkHere(x, text, url, rest);
    ReplaceAllStep(Pattern(Link), x, rest, text);
  }

  lemma LinkHere(x: string, text: string, url: string, rest: string)
    requires text != [] && ']' !in text && url != [] && ')' !in url
    requires x == "[" + text + "](" + url + ")"
    ensures x != [] && Pattern(Link)(x + rest) == Some(Match(|x|, text))
  {
    var s := x + rest;
    LinkAtFront(x, text, url, rest, s);
    PatternLink(s);
  }

  lemma LinkAtFront(x: string, text: string, url: string, rest: string, s: string)
    requires text != [] && ']' !in text && url != [] && ')' !in url
    requires x == "[" + text + "](" + url + ")" && s == x + rest
    ensures x != [] && LinkAt(s) == Some(Match(|x|, text))
  {
    assert s == "[" + text + "](" + url + ")" + rest;
    LinkAccepts(s, text, url, rest);
  }

  lemma PatternLink(t: string)
    ensures Pattern(Link)(t) == LinkAt(t)
  {
  }

  /** An HTML tag at the front becomes one space. */
  lemma HtmlTagFront(inner: string, rest: string)
    requires inner != [] && '>' !in inner
    ensures ReplaceAll(Pattern(HtmlTag), "<" + (inner + (">" + rest)))
         == " " + ReplaceAll(Pattern(HtmlTag), rest)
  {
    var x := "<" + inner + ">";
    assert "<" + (inner + (">" + rest)) == x + rest;
    HtmlTagAccepts(inner, rest);
    ReplaceAllStep(Pattern(HtmlTag), x, rest, " ");
  }

  /** A one-line `**…**` stretch at the front, without `*` or `_` inside,
      becomes its inner text. */
  lemma StrongFront(inner: string, rest: string)
    requires FreeOf(Strong, inner) && NoLineTerminator(inner)
    ensures ReplaceAll(Pattern(Strong), "**" + (inner + ("**" + rest)))
         == inner + ReplaceAll(Pattern(Strong), rest)
  {
    var x := "**" + inner + "**";
    assert "**" + (inner + ("**" + rest)) == x + rest;
    StrongHere(x, inner, rest);
    ReplaceAllStep(Pattern(Strong), x, rest, inner);
  }

  lemma StrongHere(x: string, inner: string, rest: string)
    requires FreeOf(Strong, inner) && NoLineTerminator(inner)
    requires x == "**" + inner + "**"
    ensures x != [] && Pattern(Strong)(x + rest) == Some(Match(|x|, inner))
  {
    assert Find(inner + "**", "**") == Some(|inner|) by {
      FindSkip(inner, "**", "**");
      assert Find("**", "**") == Some(0);
    }
    PairAcceptsFirst(x + rest, "**", "__", inner, rest);
    assert Pattern(Strong)(x + rest) == PairAt(x + rest, "**", "__");
  }

  /** A one-line `*…*` stretch at the front, without `*` or `_` inside,
      becomes its inner text. */
  lemma EmphasisFront(inner: string, rest: string)
    requires FreeOf(Emphasis, inner) && NoLineTerminator(inner)
    ensures ReplaceAll(Pattern(Emphasis), "*" + (inner + ("*" + rest)))
         == inner + ReplaceAll(Pattern(Emphasis), rest)
  {
    var x := "*" + inner + "*";
    assert "*" + (inner + ("*" + rest)) == x + rest;
    EmphasisHere(x, inner, rest);
    ReplaceAllStep(Pattern(Emphasis), x, rest, inner);
  }

  lemma EmphasisHere(x: string, inner: string, rest: string)
    requires FreeOf(Emphasis, inner) && NoLineTerminator(inner)
    requires x == "*" + inner + "*"
    ensures x != [] && Pattern(Emphasis)(x + rest) == Some(Match(|x|, inner))
  {
    assert Find(inner + "*", "*") == Some(|inner|) by {
      FindSkip(inner, "*", "*");
      assert Find("*", "*") == Some(0);
    }
    PairAcceptsFirst(x + rest, "*", "_", inner, rest);
    assert Pattern(Emphasis)(x + rest) == PairAt(x + rest, "*", "_");
  }

  /** Heading hashes at the front, with the white-space character after
      them, become one space. */
  lemma HeadingFront(hashes: string, c: char, rest: string)
    requires hashes != [] && (forall i :: 0 <= i < |hashes| ==> hashes[i] == '#') && IsSpace(c)
    ensures ReplaceAll(Pattern(Heading), hashes + ([c] + rest))
         == " " + ReplaceAll(Pattern(Heading), rest)
  {
    var x := hashes + [c];
    assert hashes + ([c] + rest) == x + rest;
    HeadingAccepts(hashes, c, rest);
    ReplaceAllStep(Pattern(Heading), x, rest, " ");
  }

  /** A character no match of `rule` starts with passes through. */
  /** A word followed by a stretch the rule cannot start in passes through. */
  lemma WordThenClean(rule: Rule, w: string, sep: string, ti: string, to: string)
    requires Word(w) && FreeOf(rule, sep) && ReplaceAll(Pattern(rule), ti) == to
    ensures ReplaceAll(Pattern(rule), w + (sep + ti)) == w + (sep + to)
  {
    WordFree(rule, w);
    ReplaceAllClean(rule, w, sep + ti);
    ReplaceAllClean(rule, sep, ti);
  }

  /** The same with the word second. */
  lemma CleanThenWord(rule: Rule, sep: string, w: string, ti: string, to: string)
    requires Word(w) && FreeOf(rule, sep) && ReplaceAll(Pattern(rule), ti) == to
    ensures ReplaceAll(Pattern(rule), sep + (w + ti)) == sep + (w + to)
  {
    WordFree(rule, w);
    ReplaceAllClean(rule, sep, w + ti);
    ReplaceAllClean(rule, w, ti);
  }

  lemma CleanChar(rule: Rule, c: char, ti: string, to: string)
    requires !Triggers(rule, c) && ReplaceAll(Pattern(rule), ti) == to
    ensures ReplaceAll(Pattern(rule), [c] + ti) == [c] + to
  {
    ReplaceAllClean(rule, [c], ti);
  }

  /** A heading line ending in a line feed: the hashes and the space become
      one space and the title and the line feed pass through. */
  lemma HeadingLine(hashes: string, w: string, rest: string)
    requires hashes != [] && (forall i :: 0 <= i < |hashes| ==> hashes[i] == '#') && Word(w)
    ensures ReplaceAll(Pattern(Heading), hashes + (" " + (w + ("\n" + rest))))
         == " " + (w + ("\n" + ReplaceAll(Pattern(Heading), rest)))
  {
    HeadingFront(hashes, ' ', w + ("\n" + rest));
    WordFree(Heading, w);
    ReplaceAllClean(Heading, w, "\n" + rest);
    ReplaceAllClean(Heading, "\n", rest);
  }

  /** A whole run of white space at the front becomes one space. */
  lemma WhitespaceFront(run: string, rest: string)
    requires run != [] && AllSpace(run)
    requires rest == [] || !IsSpace(rest[0])
    ensures ReplaceAll(Pattern(Whitespace), run + rest)
         == " " + ReplaceAll(Pattern(Whitespace), rest)
  {
    SpaceRunOf(run, rest);
    assert Pattern(Whitespace)(run + rest) == Some(Match(|run|, " "));
    ReplaceAllStep(Pattern(Whitespace), run, rest, " ");
  }

  /** The same for a run written in two parts. */
  lemma WhitespaceFront2(a: string, b: string, rest: string)
    requires a != [] && AllSpace(a) && AllSpace(b)
    requires rest == [] || !IsSpace(rest[0])
    ensures ReplaceAll(Pattern(Whitespace), a + (b + rest))
         == " " + ReplaceAll(Pattern(Whitespace), rest)
  {
    assert a + (b + rest) == (a + b) + rest;
    WhitespaceFront(a + b, rest);
  }

  /** The same for a run written in three parts. */
  lemma WhitespaceFront3(a: string, b: string, c: string, rest: string)
    requires a != [] && AllSpace(a) && AllSpace(b) && AllSpace(c)
    requires rest == [] || !IsSpace(rest[0])
    ensures ReplaceAll(Pattern(Whitespace), a + (b + (c + rest)))
         == " " + ReplaceAll(Pattern(Whitespace), rest)
  {
    assert a + (b + (c + rest)) == (a + (b + c)) + rest;
    WhitespaceFront(a + (b + c), rest);
  }

  /** Trimming removes leading white space before a text without outer white space. */
  lemma TrimFront(run: string, x: string)
    requires AllSpace(run) && NoOuterSpace(x)
    ensures Trim(run + x) == x
  {
    SpaceRunOf(run, x);
    assert (run + x)[|run|..] == x;
    assert TrimEnd(x) == x;
  }

  /** The first and the last character of a concatenation. */
  lemma Ends(a: string, b: string)
    requires a != [] && b != []
    ensures (a + b)[0] == a[0] && (a + b)[|a + b| - 1] == b[|b| - 1]
  {
  }
}
