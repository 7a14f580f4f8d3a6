/**
 The mixed example of `stripMarkdown`: a heading, a paragraph with strong
 text and a link, a fenced code block and a closing line. It is derived for
 every choice of the words in it, one pipeline step at a time, and then
 instantiated with the words of the example.
 */
module StripMixedExample {
  import opened Wrappers
  import opened Text
  import opened Replace
  import opened MarkdownRules
  import opened TextFormatter
  import opened StripSteps

  /** Heading, strong text, link and code block together. */
  lemma MixedExample()
    ensures StripMarkdown(Some("# " + "標題" + "\n" + "這是一個" + " **" + "粗體" + "** " + "連結" + " [" + "範例"
                                + "](" + "http://example.com" + ")" + "。" + "\n```" + "python\nprint(\"Hello\")\n"
                                + "```\n" + "完畢。"))
         == "標題" + " " + "這是一個" + " " + "粗體" + " " + "連結" + " " + "範例" + "。" + " " + "完畢。"
  {
    MixedWords();
    Mixed("標題", "這是一個", "粗體", "連結", "範例", "http://example.com", "。", "python\nprint(\"Hello\")\n", "完畢。");
  }

  /** The words of the example qualify. */
  lemma MixedWords()
    ensures Word("標題") && Word("這是一個") && Word("粗體") && Word("連結") && Word("範例")
    ensures Url("http://example.com") && Word("。") && Word("完畢。")
    ensures FreeOf(CodeBlock, "python\nprint(\"Hello\")\n")
  {
    MixedTextWords();
    MixedOtherWords();
  }

  lemma MixedTextWords()
    ensures Word("標題") && Word("這是一個") && Word("粗體") && Word("連結") && Word("範例")
  {
  }

  lemma MixedOtherWords()
    ensures Url("http://example.com") && Word("。") && Word("完畢。")
    ensures FreeOf(CodeBlock, "python\nprint(\"Hello\")\n")
  {
  }

  lemma Mixed(h: string, p: string, b: string, l: string, t: string, u: string, e: string, code: string, f: string)
    requires Word(h) && Word(p) && Word(b) && Word(l) && Word(t) && Url(u) && Word(e) && FreeOf(CodeBlock, code) && Word(f)
    ensures StripMarkdown(Some("# " + h + "\n" + p + " **" + b + "** " + l + " [" + t + "](" + u + ")" + e
                                + "\n```" + code + "```\n" + f))
         == h + " " + p + " " + b + " " + l + " " + t + e + " " + f
  {
    var d := "#" + (" " + (h + ("\n" + (p + (" " + ("**" + (b + ("**" + (" " + (l + (" " + ("[" + (t + ("](" + (u + (")" + (e + ("\n" + (Fence + (code + (Fence + ("\n" + f))))))))))))))))))))));
    var m := " " + (h + ("\n" + (p + (" " + (b + (" " + (l + (" " + (t + (e + ("\n" + (" " + ("\n" + f)))))))))))));
    MixedShape(h, p, b, l, t, u, e, code, f, d);
    MixedMarkup(h, p, b, l, t, u, e, code, f, d, m);
    StripVia(d, m);
    MixedCollapse(h, p, b, l, t, e, f, m);
  }

  /** The document written piece by piece. */
  lemma MixedShape(h: string, p: string, b: string, l: string, t: string, u: string, e: string, code: string, f: string, d: string)
    requires d == "#" + (" " + (h + ("\n" + (p + (" " + ("**" + (b + ("**" + (" " + (l + (" " + ("[" + (t + ("](" + (u + (")" + (e + ("\n" + (Fence + (code + (Fence + ("\n" + f))))))))))))))))))))))
    ensures "# " + h + "\n" + p + " **" + b + "** " + l + " [" + t + "](" + u + ")" + e + "\n```" + code + "```\n" + f == d
  {
    var head := "# " + h + "\n" + p + " **" + b;
    var tail := "**" + (" " + (l + (" " + ("[" + (t + ("](" + (u + (")" + (e + ("\n" + (Fence + (code + (Fence + ("\n" + f))))))))))))));
    MixedShapeHead(h, p, b, head);
    MixedShapeTail(head, l, t, u, e, code, f, tail);
    MixedShapeJoin(h, p, b, tail);
  }

  lemma MixedShapeHead(h: string, p: string, b: string, head: string)
    requires head == "# " + h + "\n" + p + " **" + b
    ensures head == "#" + (" " + (h + ("\n" + (p + (" " + ("**" + b))))))
  {
  }

  lemma MixedShapeTail(head: string, l: string, t: string, u: string, e: string, code: string, f: string, tail: string)
    requires tail == "**" + (" " + (l + (" " + ("[" + (t + ("](" + (u + (")" + (e + ("\n" + (Fence + (code + (Fence + ("\n" + f))))))))))))))
    ensures head + "** " + l + " [" + t + "](" + u + ")" + e + "\n```" + code + "```\n" + f == head + tail
  {
  }

  lemma MixedShapeJoin(h: string, p: string, b: string, tail: string)
    ensures ("#" + (" " + (h + ("\n" + (p + (" " + ("**" + b))))))) + tail
         == "#" + (" " + (h + ("\n" + (p + (" " + ("**" + (b + tail)))))))
  {
  }

  /** Steps one to five of the pipeline on the document. */
  lemma MixedMarkup(h: string, p: string, b: string, l: string, t: string, u: string, e: string, code: string, f: string, d: string, m: string)
    requires Word(h) && Word(p) && Word(b) && Word(l) && Word(t) && Url(u) && Word(e) && FreeOf(CodeBlock, code) && Word(f)
    requires d == "#" + (" " + (h + ("\n" + (p + (" " + ("**" + (b + ("**" + (" " + (l + (" " + ("[" + (t + ("](" + (u + (")" + (e + ("\n" + (Fence + (code + (Fence + ("\n" + f))))))))))))))))))))))
    requires m == " " + (h + ("\n" + (p + (" " + (b + (" " + (l + (" " + (t + (e + ("\n" + (" " + ("\n" + f)))))))))))))
    ensures RemoveMarkup(d) == m
  {
    var d1 := "#" + (" " + (h + ("\n" + (p + (" " + ("**" + (b + ("**" + (" " + (l + (" " + ("[" + (t + ("](" + (u + (")" + (e + ("\n" + (" " + ("\n" + f))))))))))))))))))));
    var d2 := "#" + (" " + (h + ("\n" + (p + (" " + ("**" + (b + ("**" + (" " + (l + (" " + (t + (e + ("\n" + (" " + ("\n" + f))))))))))))))));
    var d4 := "#" + (" " + (h + ("\n" + (p + (" " + (b + (" " + (l + (" " + (t + (e + ("\n" + (" " + ("\n" + f))))))))))))));
    MixedCodeBlocks(h, p, b, l, t, u, e, code, f, d, d1);
    MixedLinks(h, p, b, l, t, u, e, f, d1, d2);
    MixedTags(h, p, b, l, t, e, f, d2, d2);
    MixedStrong(h, p, b, l, t, e, f, d2, d4);
    MixedEmphasis(h, p, b, l, t, e, f, d4, d4);
    MixedHeadings(h, p, b, l, t, e, f, d4, m);
  }

  /** Steps six and seven: one space between words, none at the ends. */
  lemma MixedCollapse(h: string, p: string, b: string, l: string, t: string, e: string, f: string, m: string)
    requires Word(h) && Word(p) && Word(b) && Word(l) && Word(t) && Word(e) && Word(f)
    requires m == " " + (h + ("\n" + (p + (" " + (b + (" " + (l + (" " + (t + (e + ("\n" + (" " + ("\n" + f)))))))))))))
    ensures Collapse(m) == h + " " + p + " " + b + " " + l + " " + t + e + " " + f
  {
    var r := h + (" " + (p + (" " + (b + (" " + (l + (" " + (t + (e + (" " + f))))))))));
    MixedRuns(h, p, b, l, t, e, f, m, " " + r);
    MixedEnds(h, p, b, l, t, e, f, r);
    TrimFront(" ", r);
  }

  lemma MixedEnds(h: string, p: string, b: string, l: string, t: string, e: string, f: string, r: string)
    requires Word(h) && Word(p) && Word(b) && Word(l) && Word(t) && Word(e) && Word(f)
    requires r == h + (" " + (p + (" " + (b + (" " + (l + (" " + (t + (e + (" " + f))))))))))
    ensures NoOuterSpace(r) && r == h + " " + p + " " + b + " " + l + " " + t + e + " " + f
  {
    Ends(e, " " + f);
    Ends(t, e + (" " + f));
    Ends(" ", t + (e + (" " + f)));
    Ends(l, " " + (t + (e + (" " + f))));
    Ends(" ", l + (" " + (t + (e + (" " + f)))));
    Ends(b, " " + (l + (" " + (t + (e + (" " + f))))));
    Ends(" ", b + (" " + (l + (" " + (t + (e + (" " + f)))))));
    Ends(p, " " + (b + (" " + (l + (" " + (t + (e + (" " + f))))))));
    Ends(" ", p + (" " + (b + (" " + (l + (" " + (t + (e + (" " + f)))))))));
    Ends(h, " " + (p + (" " + (b + (" " + (l + (" " + (t + (e + (" " + f))))))))));
  }

  /** The fenced block becomes one space. */
  lemma MixedCodeBlocks(h: string, p: string, b: string, l: string, t: string, u: string, e: string, code: string, f: string, x: string, y: string)
    requires Word(h) && Word(p) && Word(b) && Word(l) && Word(t) && Url(u) && Word(e) && FreeOf(CodeBlock, code) && Word(f)
    requires x == "#" + (" " + (h + ("\n" + (p + (" " + ("**" + (b + ("**" + (" " + (l + (" " + ("[" + (t + ("](" + (u + (")" + (e + ("\n" + (Fence + (code + (Fence + ("\n" + f))))))))))))))))))))))
    requires y == "#" + (" " + (h + ("\n" + (p + (" " + ("**" + (b + ("**" + (" " + (l + (" " + ("[" + (t + ("](" + (u + (")" + (e + ("\n" + (" " + ("\n" + f))))))))))))))))))))
    ensures ReplaceAll(Pattern(CodeBlock), x) == y
  {
    var i10 := "\n" + f;
    var o10 := "\n" + f;
    var i9 := "\n" + (Fence + (code + (Fence + i10)));
    var o9 := "\n" + (" " + o10);
    var i8 := ")" + (e + i9);
    var o8 := ")" + (e + o9);
    var i7 := "](" + (u + i8);
    var o7 := "](" + (u + o8);
    var i6 := "[" + (t + i7);
    var o6 := "[" + (t + o7);
    var i5 := l + (" " + i6);
    var o5 := l + (" " + o6);
    var i4 := "**" + (" " + i5);
    var o4 := "**" + (" " + o5);
    var i3 := "**" + (b + i4);
    var o3 := "**" + (b + o4);
    var i2 := p + (" " + i3);
    var o2 := p + (" " + o3);
    var i1 := h + ("\n" + i2);
    var o1 := h + ("\n" + o2);
    MixedCodeBlocks11(f);
    MixedCodeBlocks10(code, i10, o10);
    MixedCodeBlocks9(e, i9, o9);
    MixedCodeBlocks8(u, i8, o8);
    MixedCodeBlocks7(t, i7, o7);
    MixedCodeBlocks6(l, i6, o6);
    MixedCodeBlocks5(i5, o5);
    MixedCodeBlocks4(b, i4, o4);
    MixedCodeBlocks3(p, i3, o3);
    MixedCodeBlocks2(h, i2, o2);
    MixedCodeBlocks1(i1, o1);
  }

  lemma MixedCodeBlocks1(ti: string, to: string)
    requires ReplaceAll(Pattern(CodeBlock), ti) == to
    ensures ReplaceAll(Pattern(CodeBlock), "#" + (" " + ti))
         == "#" + (" " + to)
  {
    ReplaceAllClean(CodeBlock, "#", " " + ti);
    ReplaceAllClean(CodeBlock, " ", ti);
  }

  lemma MixedCodeBlocks2(h: string, ti: string, to: string)
    requires Word(h) && ReplaceAll(Pattern(CodeBlock), ti) == to
    ensures ReplaceAll(Pattern(CodeBlock), h + ("\n" + ti))
         == h + ("\n" + to)
  {
    WordFree(CodeBlock, h);
    ReplaceAllClean(CodeBlock, h, "\n" + ti);
    ReplaceAllClean(CodeBlock, "\n", ti);
  }

  lemma MixedCodeBlocks3(p: string, ti: string, to: string)
    requires Word(p) && ReplaceAll(Pattern(CodeBlock), ti) == to
    ensures ReplaceAll(Pattern(CodeBlock), p + (" " + ti))
         == p + (" " + to)
  {
    WordFree(CodeBlock, p);
    ReplaceAllClean(CodeBlock, p, " " + ti);
    ReplaceAllClean(CodeBlock, " ", ti);
  }

  lemma MixedCodeBlocks4(b: string, ti: string, to: string)
    requires Word(b) && ReplaceAll(Pattern(CodeBlock), ti) == to
    ensures ReplaceAll(Pattern(CodeBlock), "**" + (b + ti))
         == "**" + (b + to)
  {
    WordFree(CodeBlock, b);
    ReplaceAllClean(CodeBlock, "**", b + ti);
    ReplaceAllClean(CodeBlock, b, ti);
  }

  lemma MixedCodeBlocks5(ti: string, to: string)
    requires ReplaceAll(Pattern(CodeBlock), ti) == to
    ensures ReplaceAll(Pattern(CodeBlock), "**" + (" " + ti))
         == "**" + (" " + to)
  {
    ReplaceAllClean(CodeBlock, "**", " " + ti);
    ReplaceAllClean(CodeBlock, " ", ti);
  }

  lemma MixedCodeBlocks6(l: string, ti: string, to: string)
    requires Word(l) && ReplaceAll(Pattern(CodeBlock), ti) == to
    ensures ReplaceAll(Pattern(CodeBlock), l + (" " + ti))
         == l + (" " + to)
  {
    WordFree(CodeBlock, l);
    ReplaceAllClean(CodeBlock, l, " " + ti);
    ReplaceAllClean(CodeBlock, " ", ti);
  }

  lemma MixedCodeBlocks7(t: string, ti: string, to: string)
    requires Word(t) && ReplaceAll(Pattern(CodeBlock), ti) == to
    ensures ReplaceAll(Pattern(CodeBlock), "[" + (t + ti))
         == "[" + (t + to)
  {
    WordFree(CodeBlock, t);
    ReplaceAllClean(CodeBlock, "[", t + ti);
    ReplaceAllClean(CodeBlock, t, ti);
  }

  lemma MixedCodeBlocks8(u: string, ti: string, to: string)
    requires Url(u) && ReplaceAll(Pattern(CodeBlock), ti) == to
    ensures ReplaceAll(Pattern(CodeBlock), "](" + (u + ti))
         == "](" + (u + to)
  {
    ReplaceAllClean(CodeBlock, "](", u + ti);
    ReplaceAllClean(CodeBlock, u, ti);
  }

  lemma MixedCodeBlocks9(e: string, ti: string, to: string)
    requires Word(e) && ReplaceAll(Pattern(CodeBlock), ti) == to
    ensures ReplaceAll(Pattern(CodeBlock), ")" + (e + ti))
         == ")" + (e + to)
  {
    WordFree(CodeBlock, e);
    ReplaceAllClean(CodeBlock, ")", e + ti);
    ReplaceAllClean(CodeBlock, e, ti);
  }

  lemma MixedCodeBlocks10(code: string, ti: string, to: string)
    requires FreeOf(CodeBlock, code) && ReplaceAll(Pattern(CodeBlock), ti) == to
    ensures ReplaceAll(Pattern(CodeBlock), "\n" + (Fence + (code + (Fence + ti))))
         == "\n" + (" " + to)
  {
    ReplaceAllClean(CodeBlock, "\n", Fence + (code + (Fence + ti)));
    CodeBlockFront(code, ti);
  }

  lemma MixedCodeBlocks11(f: string)
    requires Word(f)
    ensures ReplaceAll(Pattern(CodeBlock), "\n" + f)
         == "\n" + f
  {
    WordFree(CodeBlock, f);
    ReplaceAllClean(CodeBlock, "\n", f);
    ReplaceAllIdentity(CodeBlock, f);
  }

  /** The link becomes its text. */
  lemma MixedLinks(h: string, p: string, b: string, l: string, t: string, u: string, e: string, f: string, x: string, y: string)
    requires Word(h) && Word(p) && Word(b) && Word(l) && Word(t) && Url(u) && Word(e) && Word(f)
    requires x == "#" + (" " + (h + ("\n" + (p + (" " + ("**" + (b + ("**" + (" " + (l + (" " + ("[" + (t + ("](" + (u + (")" + (e + ("\n" + (" " + ("\n" + f))))))))))))))))))))
    requires y == "#" + (" " + (h + ("\n" + (p + (" " + ("**" + (b + ("**" + (" " + (l + (" " + (t + (e + ("\n" + (" " + ("\n" + f))))))))))))))))
    ensures ReplaceAll(Pattern(Link), x) == y
  {
    var i8 := "\n" + f;
    var o8 := "\n" + f;
    var i7 := "\n" + (" " + i8);
    var o7 := "\n" + (" " + o8);
    var i6 := "[" + (t + ("](" + (u + (")" + (e + i7)))));
    var o6 := t + (e + o7);
    var i5 := l + (" " + i6);
    var o5 := l + (" " + o6);
    var i4 := "**" + (" " + i5);
    var o4 := "**" + (" " + o5);
    var i3 := "**" + (b + i4);
    var o3 := "**" + (b + o4);
    var i2 := p + (" " + i3);
    var o2 := p + (" " + o3);
    var i1 := h + ("\n" + i2);
    var o1 := h + ("\n" + o2);
    MixedLinks9(f);
    MixedLinks8(i8, o8);
    MixedLinks7(t, u, e, i7, o7);
    MixedLinks6(l, i6, o6);
    MixedLinks5(i5, o5);
    MixedLinks4(b, i4, o4);
    MixedLinks3(p, i3, o3);
    MixedLinks2(h, i2, o2);
    MixedLinks1(i1, o1);
  }

  lemma MixedLinks1(ti: string, to: string)
    requires ReplaceAll(Pattern(Link), ti) == to
    ensures ReplaceAll(Pattern(Link), "#" + (" " + ti))
         == "#" + (" " + to)
  {
    ReplaceAllClean(Link, "#", " " + ti);
    ReplaceAllClean(Link, " ", ti);
  }

  lemma MixedLinks2(h: string, ti: string, to: string)
    requires Word(h) && ReplaceAll(Pattern(Link), ti) == to
    ensures ReplaceAll(Pattern(Link), h + ("\n" + ti))
         == h + ("\n" + to)
  {
    WordFree(Link, h);
    ReplaceAllClean(Link, h, "\n" + ti);
    ReplaceAllClean(Link, "\n", ti);
  }

  lemma MixedLinks3(p: string, ti: string, to: string)
    requires Word(p) && ReplaceAll(Pattern(Link), ti) == to
    ensures ReplaceAll(Pattern(Link), p + (" " + ti))
         == p + (" " + to)
  {
    WordFree(Link, p);
    ReplaceAllClean(Link, p, " " + ti);
    ReplaceAllClean(Link, " ", ti);
  }

  lemma MixedLinks4(b: string, ti: string, to: string)
    requires Word(b) && ReplaceAll(Pattern(Link), ti) == to
    ensures ReplaceAll(Pattern(Link), "**" + (b + ti))
         == "**" + (b + to)
  {
    WordFree(Link, b);
    ReplaceAllClean(Link, "**", b + ti);
    ReplaceAllClean(Link, b, ti);
  }

  lemma MixedLinks5(ti: string, to: string)
    requires ReplaceAll(Pattern(Link), ti) == to
    ensures ReplaceAll(Pattern(Link), "**" + (" " + ti))
         == "**" + (" " + to)
  {
    ReplaceAllClean(Link, "**", " " + ti);
    ReplaceAllClean(Link, " ", ti);
  }

  lemma MixedLinks6(l: string, ti: string, to: string)
    requires Word(l) && ReplaceAll(Pattern(Link), ti) == to
    ensures ReplaceAll(Pattern(Link), l + (" " + ti))
         == l + (" " + to)
  {
    WordFree(Link, l);
    ReplaceAllClean(Link, l, " " + ti);
    ReplaceAllClean(Link, " ", ti);
  }

  lemma MixedLinks7(t: string, u: string, e: string, ti: string, to: string)
    requires Word(t) && Url(u) && Word(e) && ReplaceAll(Pattern(Link), ti) == to
    ensures ReplaceAll(Pattern(Link), "[" + (t + ("](" + (u + (")" + (e + ti))))))
         == t + (e + to)
  {
    WordFree(Link, t);
    WordFree(Link, e);
    LinkFront(t, u, e + ti);
    ReplaceAllClean(Link, e, ti);
  }

  lemma MixedLinks8(ti: string, to: string)
    requires ReplaceAll(Pattern(Link), ti) == to
    ensures ReplaceAll(Pattern(Link), "\n" + (" " + ti))
         == "\n" + (" " + to)
  {
    ReplaceAllClean(Link, "\n", " " + ti);
    ReplaceAllClean(Link, " ", ti);
  }

  lemma MixedLinks9(f: string)
    requires Word(f)
    ensures ReplaceAll(Pattern(Link), "\n" + f)
         == "\n" + f
  {
    WordFree(Link, f);
    ReplaceAllClean(Link, "\n", f);
    ReplaceAllIdentity(Link, f);
  }

  /** There is no HTML tag. */
  lemma MixedTags(h: string, p: string, b: string, l: string, t: string, e: string, f: string, x: string, y: string)
    requires Word(h) && Word(p) && Word(b) && Word(l) && Word(t) && Word(e) && Word(f)
    requires x == "#" + (" " + (h + ("\n" + (p + (" " + ("**" + (b + ("**" + (" " + (l + (" " + (t + (e + ("\n" + (" " + ("\n" + f))))))))))))))))
    requires y == "#" + (" " + (h + ("\n" + (p + (" " + ("**" + (b + ("**" + (" " + (l + (" " + (t + (e + ("\n" + (" " + ("\n" + f))))))))))))))))
    ensures ReplaceAll(Pattern(HtmlTag), x) == y
  {
    var i8 := "\n" + f;
    var o8 := "\n" + f;
    var i7 := "\n" + (" " + i8);
    var o7 := "\n" + (" " + o8);
    var i6 := t + (e + i7);
    var o6 := t + (e + o7);
    var i5 := l + (" " + i6);
    var o5 := l + (" " + o6);
    var i4 := "**" + (" " + i5);
    var o4 := "**" + (" " + o5);
    var i3 := "**" + (b + i4);
    var o3 := "**" + (b + o4);
    var i2 := p + (" " + i3);
    var o2 := p + (" " + o3);
    var i1 := h + ("\n" + i2);
    var o1 := h + ("\n" + o2);
    MixedTags9(f);
    MixedTags8(i8, o8);
    MixedTags7(t, e, i7, o7);
    WordThenClean(HtmlTag, l, " ", i6, o6);
    MixedTags5(i5, o5);
    MixedTags4(b, i4, o4);
    WordThenClean(HtmlTag, p, " ", i3, o3);
    WordThenClean(HtmlTag, h, "\n", i2, o2);
    MixedTags1(i1, o1);
  }

  lemma MixedTags1(ti: string, to: string)
    requires ReplaceAll(Pattern(HtmlTag), ti) == to
    ensures ReplaceAll(Pattern(HtmlTag), "#" + (" " + ti))
         == "#" + (" " + to)
  {
    ReplaceAllClean(HtmlTag, "#", " " + ti);
    ReplaceAllClean(HtmlTag, " ", ti);
  }

  lemma MixedTags4(b: string, ti: string, to: string)
    requires Word(b) && ReplaceAll(Pattern(HtmlTag), ti) == to
    ensures ReplaceAll(Pattern(HtmlTag), "**" + (b + ti))
         == "**" + (b + to)
  {
    WordFree(HtmlTag, b);
    ReplaceAllClean(HtmlTag, "**", b + ti);
    ReplaceAllClean(HtmlTag, b, ti);
  }

  lemma MixedTags5(ti: string, to: string)
    requires ReplaceAll(Pattern(HtmlTag), ti) == to
    ensures ReplaceAll(Pattern(HtmlTag), "**" + (" " + ti))
         == "**" + (" " + to)
  {
    ReplaceAllClean(HtmlTag, "**", " " + ti);
    ReplaceAllClean(HtmlTag, " ", ti);
  }

  lemma MixedTags7(t: string, e: string, ti: string, to: string)
    requires Word(t) && Word(e) && ReplaceAll(Pattern(HtmlTag), ti) == to
    ensures ReplaceAll(Pattern(HtmlTag), t + (e + ti))
         == t + (e + to)
  {
    WordFree(HtmlTag, t);
    WordFree(HtmlTag, e);
    ReplaceAllClean(HtmlTag, t, e + ti);
    ReplaceAllClean(HtmlTag, e, ti);
  }

  lemma MixedTags8(ti: string, to: string)
    requires ReplaceAll(Pattern(HtmlTag), ti) == to
    ensures ReplaceAll(Pattern(HtmlTag), "\n" + (" " + ti))
         == "\n" + (" " + to)
  {
    ReplaceAllClean(HtmlTag, "\n", " " + ti);
    ReplaceAllClean(HtmlTag, " ", ti);
  }

  lemma MixedTags9(f: string)
    requires Word(f)
    ensures ReplaceAll(Pattern(HtmlTag), "\n" + f)
         == "\n" + f
  {
    WordFree(HtmlTag, f);
    ReplaceAllClean(HtmlTag, "\n", f);
    ReplaceAllIdentity(HtmlTag, f);
  }

  /** The strong stretch becomes its inner text. */
  lemma MixedStrong(h: string, p: string, b: string, l: string, t: string, e: string, f: string, x: string, y: string)
    requires Word(h) && Word(p) && Word(b) && Word(l) && Word(t) && Word(e) && Word(f)
    requires x == "#" + (" " + (h + ("\n" + (p + (" " + ("**" + (b + ("**" + (" " + (l + (" " + (t + (e + ("\n" + (" " + ("\n" + f))))))))))))))))
    requires y == "#" + (" " + (h + ("\n" + (p + (" " + (b + (" " + (l + (" " + (t + (e + ("\n" + (" " + ("\n" + f))))))))))))))
    ensures ReplaceAll(Pattern(Strong), x) == y
  {
    var i7 := "\n" + f;
    var o7 := "\n" + f;
    var i6 := "\n" + (" " + i7);
    var o6 := "\n" + (" " + o7);
    var i5 := t + (e + i6);
    var o5 := t + (e + o6);
    var i4 := l + (" " + i5);
    var o4 := l + (" " + o5);
    var i3 := "**" + (b + ("**" + (" " + i4)));
    var o3 := b + (" " + o4);
    var i2 := p + (" " + i3);
    var o2 := p + (" " + o3);
    var i1 := h + ("\n" + i2);
    var o1 := h + ("\n" + o2);
    MixedStrong8(f);
    MixedStrong7(i7, o7);
    MixedStrong6(t, e, i6, o6);
    MixedStrong5(l, i5, o5);
    MixedStrong4(b, i4, o4);
    MixedStrong3(p, i3, o3);
    MixedStrong2(h, i2, o2);
    MixedStrong1(i1, o1);
  }

  lemma MixedStrong1(ti: string, to: string)
    requires ReplaceAll(Pattern(Strong), ti) == to
    ensures ReplaceAll(Pattern(Strong), "#" + (" " + ti))
         == "#" + (" " + to)
  {
    CleanChar(Strong, ' ', ti, to);
    CleanChar(Strong, '#', " " + ti, " " + to);
  }

  lemma MixedStrong2(h: string, ti: string, to: string)
    requires Word(h) && ReplaceAll(Pattern(Strong), ti) == to
    ensures ReplaceAll(Pattern(Strong), h + ("\n" + ti))
         == h + ("\n" + to)
  {
    WordFree(Strong, h);
    ReplaceAllClean(Strong, h, "\n" + ti);
    ReplaceAllClean(Strong, "\n", ti);
  }

  lemma MixedStrong3(p: string, ti: string, to: string)
    requires Word(p) && ReplaceAll(Pattern(Strong), ti) == to
    ensures ReplaceAll(Pattern(Strong), p + (" " + ti))
         == p + (" " + to)
  {
    WordFree(Strong, p);
    ReplaceAllClean(Strong, p, " " + ti);
    ReplaceAllClean(Strong, " ", ti);
  }

  lemma MixedStrong4(b: string, ti: string, to: string)
    requires Word(b) && ReplaceAll(Pattern(Strong), ti) == to
    ensures ReplaceAll(Pattern(Strong), "**" + (b + ("**" + (" " + ti))))
         == b + (" " + to)
  {
    WordFree(Strong, b);
    StrongFront(b, " " + ti);
    ReplaceAllClean(Strong, " ", ti);
  }

  lemma MixedStrong5(l: string, ti: string, to: string)
    requires Word(l) && ReplaceAll(Pattern(Strong), ti) == to
    ensures ReplaceAll(Pattern(Strong), l + (" " + ti))
         == l + (" " + to)
  {
    WordFree(Strong, l);
    ReplaceAllClean(Strong, l, " " + ti);
    ReplaceAllClean(Strong, " ", ti);
  }

  lemma MixedStrong6(t: string, e: string, ti: string, to: string)
    requires Word(t) && Word(e) && ReplaceAll(Pattern(Strong), ti) == to
    ensures ReplaceAll(Pattern(Strong), t + (e + ti))
         == t + (e + to)
  {
    WordFree(Strong, t);
    WordFree(Strong, e);
    ReplaceAllClean(Strong, t, e + ti);
    ReplaceAllClean(Strong, e, ti);
  }

  lemma MixedStrong7(ti: string, to: string)
    requires ReplaceAll(Pattern(Strong), ti) == to
    ensures ReplaceAll(Pattern(Strong), "\n" + (" " + ti))
         == "\n" + (" " + to)
  {
    CleanChar(Strong, ' ', ti, to);
    CleanChar(Strong, '\n', " " + ti, " " + to);
  }

  lemma MixedStrong8(f: string)
    requires Word(f)
    ensures ReplaceAll(Pattern(Strong), "\n" + f)
         == "\n" + f
  {
    WordFree(Strong, f);
    ReplaceAllClean(Strong, "\n", f);
    ReplaceAllIdentity(Strong, f);
  }

  /** There is no emphasis left. */
  lemma MixedEmphasis(h: string, p: string, b: string, l: string, t: string, e: string, f: string, x: string, y: string)
    requires Word(h) && Word(p) && Word(b) && Word(l) && Word(t) && Word(e) && Word(f)
    requires x == "#" + (" " + (h + ("\n" + (p + (" " + (b + (" " + (l + (" " + (t + (e + ("\n" + (" " + ("\n" + f))))))))))))))
    requires y == "#" + (" " + (h + ("\n" + (p + (" " + (b + (" " + (l + (" " + (t + (e + ("\n" + (" " + ("\n" + f))))))))))))))
    ensures ReplaceAll(Pattern(Emphasis), x) == y
  {
    var i7 := "\n" + f;
    var o7 := "\n" + f;
    var i6 := "\n" + (" " + i7);
    var o6 := "\n" + (" " + o7);
    var i5 := t + (e + i6);
    var o5 := t + (e + o6);
    var i4 := l + (" " + i5);
    var o4 := l + (" " + o5);
    var i3 := b + (" " + i4);
    var o3 := b + (" " + o4);
    var i2 := p + (" " + i3);
    var o2 := p + (" " + o3);
    var i1 := h + ("\n" + i2);
    var o1 := h + ("\n" + o2);
    MixedEmphasis8(f);
    MixedEmphasis7(i7, o7);
    MixedEmphasis6(t, e, i6, o6);
    MixedEmphasis5(l, i5, o5);
    MixedEmphasis4(b, i4, o4);
    MixedEmphasis3(p, i3, o3);
    MixedEmphasis2(h, i2, o2);
    MixedEmphasis1(i1, o1);
  }

  lemma MixedEmphasis1(ti: string, to: string)
    requires ReplaceAll(Pattern(Emphasis), ti) == to
    ensures ReplaceAll(Pattern(Emphasis), "#" + (" " + ti))
         == "#" + (" " + to)
  {
    CleanChar(Emphasis, ' ', ti, to);
    CleanChar(Emphasis, '#', " " + ti, " " + to);
  }

  lemma MixedEmphasis2(h: string, ti: string, to: string)
    requires Word(h) && ReplaceAll(Pattern(Emphasis), ti) == to
    ensures ReplaceAll(Pattern(Emphasis), h + ("\n" + ti))
         == h + ("\n" + to)
  {
    WordFree(Emphasis, h);
    ReplaceAllClean(Emphasis, h, "\n" + ti);
    ReplaceAllClean(Emphasis, "\n", ti);
  }

  lemma MixedEmphasis3(p: string, ti: string, to: string)
    requires Word(p) && ReplaceAll(Pattern(Emphasis), ti) == to
    ensures ReplaceAll(Pattern(Emphasis), p + (" " + ti))
         == p + (" " + to)
  {
    WordFree(Emphasis, p);
    ReplaceAllClean(Emphasis, p, " " + ti);
    ReplaceAllClean(Emphasis, " ", ti);
  }

  lemma MixedEmphasis4(b: string, ti: string, to: string)
    requires Word(b) && ReplaceAll(Pattern(Emphasis), ti) == to
    ensures ReplaceAll(Pattern(Emphasis), b + (" " + ti))
         == b + (" " + to)
  {
    WordFree(Emphasis, b);
    ReplaceAllClean(Emphasis, b, " " + ti);
    ReplaceAllClean(Emphasis, " ", ti);
  }

  lemma MixedEmphasis5(l: string, ti: string, to: string)
    requires Word(l) && ReplaceAll(Pattern(Emphasis), ti) == to
    ensures ReplaceAll(Pattern(Emphasis), l + (" " + ti))
         == l + (" " + to)
  {
    WordFree(Emphasis, l);
    ReplaceAllClean(Emphasis, l, " " + ti);
    ReplaceAllClean(Emphasis, " ", ti);
  }

  lemma MixedEmphasis6(t: string, e: string, ti: string, to: string)
    requires Word(t) && Word(e) && ReplaceAll(Pattern(Emphasis), ti) == to
    ensures ReplaceAll(Pattern(Emphasis), t + (e + ti))
         == t + (e + to)
  {
    WordFree(Emphasis, t);
    WordFree(Emphasis, e);
    ReplaceAllClean(Emphasis, t, e + ti);
    ReplaceAllClean(Emphasis, e, ti);
  }

  lemma MixedEmphasis7(ti: string, to: string)
    requires ReplaceAll(Pattern(Emphasis), ti) == to
    ensures ReplaceAll(Pattern(Emphasis), "\n" + (" " + ti))
         == "\n" + (" " + to)
  {
    CleanChar(Emphasis, ' ', ti, to);
    CleanChar(Emphasis, '\n', " " + ti, " " + to);
  }

  lemma MixedEmphasis8(f: string)
    requires Word(f)
    ensures ReplaceAll(Pattern(Emphasis), "\n" + f)
         == "\n" + f
  {
    WordFree(Emphasis, f);
    ReplaceAllClean(Emphasis, "\n", f);
    ReplaceAllIdentity(Emphasis, f);
  }

  /** The heading hashes become one space. */
  lemma MixedHeadings(h: string, p: string, b: string, l: string, t: string, e: string, f: string, x: string, y: string)
    requires Word(h) && Word(p) && Word(b) && Word(l) && Word(t) && Word(e) && Word(f)
    requires x == "#" + (" " + (h + ("\n" + (p + (" " + (b + (" " + (l + (" " + (t + (e + ("\n" + (" " + ("\n" + f))))))))))))))
    requires y == " " + (h + ("\n" + (p + (" " + (b + (" " + (l + (" " + (t + (e + ("\n" + (" " + ("\n" + f)))))))))))))
    ensures ReplaceAll(Pattern(Heading), x) == y
  {
    var i7 := f;
    var o7 := f;
    var i6 := " " + ("\n" + i7);
    var o6 := " " + ("\n" + o7);
    var i5 := e + ("\n" + i6);
    var o5 := e + ("\n" + o6);
    var i4 := " " + (t + i5);
    var o4 := " " + (t + o5);
    var i3 := " " + (l + i4);
    var o3 := " " + (l + o4);
    var i2 := " " + (b + i3);
    var o2 := " " + (b + o3);
    var i1 := "\n" + (p + i2);
    var o1 := "\n" + (p + o2);
    MixedHeadings8(f);
    MixedHeadings7(i7, o7);
    WordThenClean(Heading, e, "\n", i6, o6);
    CleanThenWord(Heading, " ", t, i5, o5);
    CleanThenWord(Heading, " ", l, i4, o4);
    CleanThenWord(Heading, " ", b, i3, o3);
    CleanThenWord(Heading, "\n", p, i2, o2);
    MixedHeadings1(h, i1, o1);
  }

  lemma MixedHeadings1(h: string, ti: string, to: string)
    requires Word(h) && ReplaceAll(Pattern(Heading), ti) == to
    ensures ReplaceAll(Pattern(Heading), "#" + (" " + (h + ti)))
         == " " + (h + to)
  {
    WordFree(Heading, h);
    HeadingFront("#", ' ', h + ti);
    ReplaceAllClean(Heading, h, ti);
  }

  lemma MixedHeadings7(ti: string, to: string)
    requires ReplaceAll(Pattern(Heading), ti) == to
    ensures ReplaceAll(Pattern(Heading), " " + ("\n" + ti))
         == " " + ("\n" + to)
  {
    ReplaceAllClean(Heading, " ", "\n" + ti);
    ReplaceAllClean(Heading, "\n", ti);
  }

  lemma MixedHeadings8(f: string)
    requires Word(f)
    ensures ReplaceAll(Pattern(Heading), f)
         == f
  {
    WordFree(Heading, f);
    ReplaceAllIdentity(Heading, f);
  }

  /** Every run of white space becomes one space. */
  lemma MixedRuns(h: string, p: string, b: string, l: string, t: string, e: string, f: string, x: string, y: string)
    requires Word(h) && Word(p) && Word(b) && Word(l) && Word(t) && Word(e) && Word(f)
    requires x == " " + (h + ("\n" + (p + (" " + (b + (" " + (l + (" " + (t + (e + ("\n" + (" " + ("\n" + f)))))))))))))
    requires y == " " + (h + (" " + (p + (" " + (b + (" " + (l + (" " + (t + (e + (" " + f)))))))))))
    ensures ReplaceAll(Pattern(Whitespace), x) == y
  {
    var i5 := e + ("\n" + (" " + ("\n" + f)));
    var o5 := e + (" " + f);
    var i4 := " " + (t + i5);
    var o4 := " " + (t + o5);
    var i3 := " " + (l + i4);
    var o3 := " " + (l + o4);
    var i2 := " " + (b + i3);
    var o2 := " " + (b + o3);
    var i1 := "\n" + (p + i2);
    var o1 := " " + (p + o2);
    MixedRuns6(e, f);
    MixedRuns5(t, i5, o5);
    MixedRuns4(l, i4, o4);
    MixedRuns3(b, i3, o3);
    MixedRuns2(p, i2, o2);
    MixedRuns1(h, i1, o1);
  }

  lemma MixedRuns1(h: string, ti: string, to: string)
    requires Word(h) && ReplaceAll(Pattern(Whitespace), ti) == to
    ensures ReplaceAll(Pattern(Whitespace), " " + (h + ti))
         == " " + (h + to)
  {
    WordFree(Whitespace, h);
    WhitespaceFront(" ", h + ti);
    ReplaceAllClean(Whitespace, h, ti);
  }

  lemma MixedRuns2(p: string, ti: string, to: string)
    requires Word(p) && ReplaceAll(Pattern(Whitespace), ti) == to
    ensures ReplaceAll(Pattern(Whitespace), "\n" + (p + ti))
         == " " + (p + to)
  {
    WordFree(Whitespace, p);
    WhitespaceFront("\n", p + ti);
    ReplaceAllClean(Whitespace, p, ti);
  }

  lemma MixedRuns3(b: string, ti: string, to: string)
    requires Word(b) && ReplaceAll(Pattern(Whitespace), ti) == to
    ensures ReplaceAll(Pattern(Whitespace), " " + (b + ti))
         == " " + (b + to)
  {
    WordFree(Whitespace, b);
    WhitespaceFront(" ", b + ti);
    ReplaceAllClean(Whitespace, b, ti);
  }

  lemma MixedRuns4(l: string, ti: string, to: string)
    requires Word(l) && ReplaceAll(Pattern(Whitespace), ti) == to
    ensures ReplaceAll(Pattern(Whitespace), " " + (l + ti))
         == " " + (l + to)
  {
    WordFree(Whitespace, l);
    WhitespaceFront(" ", l + ti);
    ReplaceAllClean(Whitespace, l, ti);
  }

  lemma MixedRuns5(t: string, ti: string, to: string)
    requires Word(t) && ReplaceAll(Pattern(Whitespace), ti) == to
    ensures ReplaceAll(Pattern(Whitespace), " " + (t + ti))
         == " " + (t + to)
  {
    WordFree(Whitespace, t);
    WhitespaceFront(" ", t + ti);
    ReplaceAllClean(Whitespace, t, ti);
  }

  lemma MixedRuns6(e: string, f: string)
    requires Word(e) && Word(f)
    ensures ReplaceAll(Pattern(Whitespace), e + ("\n" + (" " + ("\n" + f))))
         == e + (" " + f)
  {
    WordFree(Whitespace, e);
    WordFree(Whitespace, f);
    ReplaceAllClean(Whitespace, e, "\n" + (" " + ("\n" + f)));
    WhitespaceFront3("\n", " ", "\n", f);
    ReplaceAllIdentity(Whitespace, f);
  }
}
