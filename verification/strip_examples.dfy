/**
 The documented examples of `stripMarkdown`, each derived for every choice
 of the words in it and then instantiated with the words of the example.
 */
module StripExamples {
  import opened Wrappers
  import opened Text
  import opened Replace
  import opened MarkdownRules
  import opened TextFormatter
  import opened StripSteps

  /** Three headings of levels one to three, one per line, give their titles
      separated by single spaces. */
  lemma HeadingExample()
    ensures StripMarkdown(Some("# " + "標題1" + "\n## " + "標題2" + "\n### " + "標題3"))
         == "標題1" + " " + "標題2" + " " + "標題3"
  {
    ThreeHeadings("標題1", "標題2", "標題3");
  }

  lemma ThreeHeadings(w1: string, w2: string, w3: string)
    requires Word(w1) && Word(w2) && Word(w3)
    ensures StripMarkdown(Some("# " + w1 + "\n## " + w2 + "\n### " + w3)) == w1 + " " + w2 + " " + w3
  {
    var d := "#" + (" " + (w1 + ("\n" + ("##" + (" " + (w2 + ("\n" + ("###" + (" " + w3)))))))));
    ThreeHeadingsShape(w1, w2, w3, d);
    var m := " " + (w1 + ("\n" + (" " + (w2 + ("\n" + (" " + w3))))));
    ThreeHeadingsMarkup(w1, w2, w3, d);
    ThreeHeadingsHashes(w1, w2, w3, d, m);
    StripVia(d, m);
    ThreeHeadingsCollapse(w1, w2, w3, m);
  }

  /** The document written piece by piece. */
  lemma ThreeHeadingsShape(w1: string, w2: string, w3: string, d: string)
    requires d == "#" + (" " + (w1 + ("\n" + ("##" + (" " + (w2 + ("\n" + ("###" + (" " + w3)))))))))
    ensures "# " + w1 + "\n## " + w2 + "\n### " + w3 == d
  {
  }

  lemma ThreeHeadingsMarkup(w1: string, w2: string, w3: string, d: string)
    requires Word(w1) && Word(w2) && Word(w3)
    requires d == "#" + (" " + (w1 + ("\n" + ("##" + (" " + (w2 + ("\n" + ("###" + (" " + w3)))))))))
    ensures RemoveMarkup(d) == ReplaceAll(Pattern(Heading), d)
  {
    ThreeHeadingsFree(CodeBlock, w1, w2, w3, d);
    ThreeHeadingsFree(Link, w1, w2, w3, d);
    ThreeHeadingsFree(HtmlTag, w1, w2, w3, d);
    ThreeHeadingsFree(Strong, w1, w2, w3, d);
    ThreeHeadingsFree(Emphasis, w1, w2, w3, d);
    ReplaceAllIdentity(CodeBlock, d);
    ReplaceAllIdentity(Link, d);
    ReplaceAllIdentity(HtmlTag, d);
    ReplaceAllIdentity(Strong, d);
    ReplaceAllIdentity(Emphasis, d);
  }

  /** No rule but the heading, newline and white-space rules finds anything
      to replace in the document. */
  lemma ThreeHeadingsFree(rule: Rule, w1: string, w2: string, w3: string, d: string)
    requires Word(w1) && Word(w2) && Word(w3)
    requires rule != Heading && rule != Newline && rule != Whitespace
    requires d == "#" + (" " + (w1 + ("\n" + ("##" + (" " + (w2 + ("\n" + ("###" + (" " + w3)))))))))
    ensures FreeOf(rule, d)
  {
    WordFree(rule, w1);
    WordFree(rule, w2);
    WordFree(rule, w3);
    var t := " " + w3;
    FreeOfJoin(rule, " ", w3);
    FreeOfJoin(rule, "###", t);
    t := "###" + t;
    FreeOfJoin(rule, "\n", t);
    t := "\n" + t;
    FreeOfJoin(rule, w2, t);
    t := w2 + t;
    FreeOfJoin(rule, " ", t);
    t := " " + t;
    FreeOfJoin(rule, "##", t);
    t := "##" + t;
    FreeOfJoin(rule, "\n", t);
    t := "\n" + t;
    FreeOfJoin(rule, w1, t);
    t := w1 + t;
    FreeOfJoin(rule, " ", t);
    t := " " + t;
    FreeOfJoin(rule, "#", t);
  }

  lemma ThreeHeadingsHashes(w1: string, w2: string, w3: string, d: string, m: string)
    requires Word(w1) && Word(w2) && Word(w3)
    requires d == "#" + (" " + (w1 + ("\n" + ("##" + (" " + (w2 + ("\n" + ("###" + (" " + w3)))))))))
    requires m == " " + (w1 + ("\n" + (" " + (w2 + ("\n" + (" " + w3))))))
    ensures ReplaceAll(Pattern(Heading), d) == m
  {
    var t2 := "###" + (" " + w3);
    HeadingLine("#", w1, "##" + (" " + (w2 + ("\n" + t2))));
    HeadingLine("##", w2, t2);
    HeadingFront("###", ' ', w3);
    WordFree(Heading, w3);
    ReplaceAllIdentity(Heading, w3);
  }

  lemma ThreeHeadingsCollapse(w1: string, w2: string, w3: string, m: string)
    requires Word(w1) && Word(w2) && Word(w3)
    requires m == " " + (w1 + ("\n" + (" " + (w2 + ("\n" + (" " + w3))))))
    ensures Collapse(m) == w1 + " " + w2 + " " + w3
  {
    var r := w1 + (" " + (w2 + (" " + w3)));
    ThreeHeadingsRuns(w1, w2, w3, m, r);
    ThreeHeadingsEnds(w1, w2, w3, r);
    TrimFront(" ", r);
  }

  lemma ThreeHeadingsEnds(w1: string, w2: string, w3: string, r: string)
    requires Word(w1) && Word(w2) && Word(w3)
    requires r == w1 + (" " + (w2 + (" " + w3)))
    ensures NoOuterSpace(r) && r == w1 + " " + w2 + " " + w3
  {
    Ends(w2, " " + w3);
    Ends(w1, " " + (w2 + (" " + w3)));
  }

  lemma ThreeHeadingsRuns(w1: string, w2: string, w3: string, m: string, r: string)
    requires Word(w1) && Word(w2) && Word(w3)
    requires m == " " + (w1 + ("\n" + (" " + (w2 + ("\n" + (" " + w3))))))
    requires r == w1 + (" " + (w2 + (" " + w3)))
    ensures ReplaceAll(Pattern(Whitespace), m) == " " + r
  {
    WordFree(Whitespace, w1);
    WordFree(Whitespace, w2);
    WordFree(Whitespace, w3);
    var t2 := w2 + ("\n" + (" " + w3));
    WhitespaceFront(" ", w1 + ("\n" + (" " + t2)));
    ReplaceAllClean(Whitespace, w1, "\n" + (" " + t2));
    WhitespaceFront2("\n", " ", t2);
    ReplaceAllClean(Whitespace, w2, "\n" + (" " + w3));
    WhitespaceFront2("\n", " ", w3);
    ReplaceAllIdentity(Whitespace, w3);
  }
}
