/**
 `parseMarkdown` on documents built from known pieces: a document without a
 marker comes back as it is, and a document with one block loses exactly that
 block, whatever follows it.
 */
module ParserExamples {
  import opened Wrappers
  import opened Text
  import opened MarkdownParser

  /** Every marker starts with `<`. */
  lemma OpeningFirst(s: string, w: string)
    ensures MarkerLen(s, w).Some? ==> s != [] && s[0] == '<'
  {
    if MarkerLen(s, w).Some? {
      assert s[..4] == Open;
    }
  }

  /** A recognizer that only recognises text starting with `<`. */
  ghost predicate NeedsAngle(rec: string -> Option<nat>) {
    forall x :: rec(x).Some? ==> x != [] && x[0] == '<'
  }

  /** A recognizer that recognises all of `m` at the start of any text
      starting with `m`. */
  ghost predicate RecognisesAlone(rec: string -> Option<nat>, m: string) {
    forall r :: rec(m + r) == Some(|m|)
  }

  lemma MarkersNeedAngle()
    ensures NeedsAngle(OpenMarker) && NeedsAngle(CloseMarker)
  {
    forall x ensures OpenMarker(x).Some? ==> x != [] && x[0] == '<' {
      OpeningFirst(x, OpenWord);
    }
    forall x ensures CloseMarker(x).Some? ==> x != [] && x[0] == '<' {
      OpeningFirst(x, CloseWord);
    }
  }

  /** A marker recognised on its own is recognised whatever follows it. */
  lemma MarkerAlone(m: string, w: string)
    requires MarkerLen(m, w) == Some(|m|)
    ensures forall r :: MarkerLen(m + r, w) == Some(|m|)
  {
    forall r ensures MarkerLen(m + r, w) == Some(|m|) {
      MarkerExtends(m, w, r);
    }
  }

  /** Nothing is recognised at any place of `s` before `n` where there is no `<`. */
  lemma NoMarkerBefore(s: string, rec: string -> Option<nat>, n: nat)
    requires NeedsAngle(rec) && n <= |s| && '<' !in s[..n]
    ensures forall k :: 0 <= k < n ==> rec(s[k..]).None?
  {
    forall k | 0 <= k < n ensures rec(s[k..]).None? {
      assert s[k..][0] == s[..n][k];
    }
  }

  /** A document without `<` has no block and comes back unchanged. */
  lemma NoAngleNoBlock(raw: string)
    requires '<' !in raw
    ensures ParseMarkdown(raw) == Parsed(raw, "")
  {
    MarkersBounded();
    MarkersNeedAngle();
    assert raw[..|raw|] == raw;
    NoMarkerBefore(raw, OpenMarker, |raw|);
    assert raw[|raw|..] == [];
    FirstMatchNone(raw, OpenMarker);
  }

  /** The document of the third example has no block. */
  lemma JustContentExample()
    ensures ParseMarkdown("# Just Content") == Parsed("# Just Content", "")
  {
    NoAngleNoBlock("# Just Content");
  }

  /** One block after a stretch without `<`, with a body without `<`: the
      body, trimmed, is the table of contents, and the text around the block,
      trimmed, is the content. What follows the block is kept whole, even a
      second block. */
  lemma ParseBlock(pre: string, o: string, inner: string, c: string, rest: string, raw: string)
    requires OpenMarker(o) == Some(|o|) && CloseMarker(c) == Some(|c|)
    requires '<' !in pre && '<' !in inner
    requires raw == pre + (o + (inner + (c + rest)))
    ensures ParseMarkdown(raw) == Parsed(Trim(pre + rest), Trim(inner))
  {
    var b := Block(|pre|, |o|, |pre| + |o| + |inner|, |c|);
    MarkersBounded();
    MarkersNeedAngle();
    MarkerAlone(o, OpenWord);
    MarkerAlone(c, CloseWord);
    BlockInDocument(pre, o, inner, c, rest, raw, OpenMarker, CloseMarker);
    ParseMarkdownSpec(raw);
    AroundBlock(pre, o, inner, c, rest, raw, b);
    AroundIs(raw, b, pre + rest, inner);
  }

  /** The block of such a document, in the declarative reading. */
  lemma BlockInDocument(pre: string, o: string, inner: string, c: string, rest: string, raw: string,
                        op: string -> Option<nat>, cl: string -> Option<nat>)
    requires NeedsAngle(op) && NeedsAngle(cl) && RecognisesAlone(op, o) && RecognisesAlone(cl, c)
    requires '<' !in pre && '<' !in inner
    requires raw == pre + (o + (inner + (c + rest)))
    ensures IsBlock(raw, op, cl, Block(|pre|, |o|, |pre| + |o| + |inner|, |c|))
  {
    var t := inner + (c + rest);
    OpeningAt(pre, o, t, raw, op);
    OpeningAt(inner, c, rest, t, cl);
    BlockFromHits(raw, op, cl, Hit(|pre|, |o|), Hit(|inner|, |c|), t);
  }

  /** In `pre + (m + t)`, the first place `rec` recognises anything is where
      `m` starts. */
  lemma OpeningAt(pre: string, m: string, t: string, s: string, rec: string -> Option<nat>)
    requires NeedsAngle(rec) && RecognisesAlone(rec, m) && '<' !in pre && s == pre + (m + t)
    ensures |pre| + |m| <= |s| && s[|pre| + |m|..] == t && rec(s[|pre|..]) == Some(|m|)
    ensures forall k :: 0 <= k < |pre| ==> rec(s[k..]).None?
  {
    assert s[|pre|..] == m + t;
    assert s[..|pre|] == pre;
    NoMarkerBefore(s, rec, |pre|);
  }

  lemma AroundBlock(pre: string, o: string, inner: string, c: string, rest: string, raw: string, b: Block)
    requires raw == pre + (o + (inner + (c + rest)))
    requires b == Block(|pre|, |o|, |pre| + |o| + |inner|, |c|)
    ensures b.i + b.n <= b.j && b.j + b.m <= |raw|
    ensures Outside(raw, b) == pre + rest && Inside(raw, b) == inner
  {
    assert raw[..b.i] == pre;
    assert raw[b.j + b.m..] == rest;
    assert raw[b.i + b.n..b.j] == inner;
  }

  lemma AroundIs(raw: string, b: Block, x: string, y: string)
    requires b.i + b.n <= b.j && b.j + b.m <= |raw|
    requires x == Outside(raw, b) && y == Inside(raw, b)
    ensures Around(raw, b) == Parsed(Trim(x), Trim(y))
  {
  }

  /** The marker texts of the examples: the plain ones and ones with extra
      white space around the word. */
  lemma PlainOpening()
    ensures OpenMarker("<!-- TOC -->") == Some(12)
  {
    WholeMarker(" ", "TOC", " ", OpenWord, "<!-- TOC -->");
  }

  lemma PlainClosing()
    ensures CloseMarker("<!-- /TOC -->") == Some(13)
  {
    WholeMarker(" ", "/TOC", " ", CloseWord, "<!-- /TOC -->");
  }

  lemma SpacedOpening()
    ensures OpenMarker("<!--  TOC  -->") == Some(14)
  {
    WholeMarker("  ", "TOC", "  ", OpenWord, "<!--  TOC  -->");
  }

  lemma SpacedClosing()
    ensures CloseMarker("<!-- /TOC   -->") == Some(15)
  {
    WholeMarker(" ", "/TOC", "   ", CloseWord, "<!-- /TOC   -->");
  }

  /** Letter case and line breaks inside a marker do not matter either. */
  lemma LooseMarker()
    ensures OpenMarker("<!--toc\n-->") == Some(11)
  {
    WholeMarker("", "toc", "\n", OpenWord, "<!--toc\n-->");
  }

  /** A text made of one marker is recognised whole. */
  lemma WholeMarker(a: string, v: string, b: string, w: string, s: string)
    requires IsMarkerWord(w) && AllSpace(a) && AllSpace(b) && CiEq(v, w)
    requires s == Open + (a + (v + (b + Close)))
    ensures MarkerLen(s, w) == Some(|s|)
  {
    assert Close + "" == Close;
    MarkerAccepts(a, v, b, "", w, s);
    PiecesWhole(s, w, |a|, |b|);
  }

  lemma PiecesWhole(s: string, w: string, p: nat, q: nat)
    requires MarkerPieces(s, w, p, q) && |s| == 7 + p + |w| + q
    ensures MarkerLen(s, w) == Some(|s|)
  {
    MarkerLenAt(s, w, p, q);
  }

  /** Trimming removes white space around a text without outer white space. */
  lemma TrimAround(a: string, x: string, b: string, s: string)
    requires AllSpace(a) && AllSpace(b) && x != [] && NoOuterSpace(x) && s == a + (x + b)
    ensures Trim(s) == x
  {
    SpaceRunOf(a, x + b);
    assert s[|a|..] == x + b;
    TrimEndOf(x, b);
  }

  lemma {:induction false} TrimEndOf(x: string, b: string)
    requires AllSpace(b) && x != [] && !IsSpace(x[|x| - 1])
    ensures TrimEnd(x + b) == x
    decreases |b|
  {
    if b == [] {
      assert x + b == x;
    } else {
      var b' := b[..|b| - 1];
      assert (x + b)[..|x + b| - 1] == x + b';
      TrimEndOf(x, b');
    }
  }

  /** A non-empty text without `<` and without white space at its ends. */
  predicate Plain(w: string) {
    w != [] && '<' !in w && NoOuterSpace(w)
  }

  /** A document laid out like the documented examples: a heading line,
      the block with the table of contents on lines of its own, and the rest
      of the text, with the indentation of the closing line at the end. */
  lemma HeadedBlock(h: string, o: string, toc: string, c: string, body: string, raw: string)
    requires OpenMarker(o) == Some(|o|) && CloseMarker(c) == Some(|c|)
    requires Plain(h) && Plain(toc) && body != [] && NoOuterSpace(body)
    requires raw == "\n" + (h + ("\n" + (o + ("\n" + (toc + ("\n" + (c + ("\n" + (body + "\n    ")))))))))
    ensures ParseMarkdown(raw) == Parsed(h + ("\n\n" + body), toc)
  {
    var pre := "\n" + (h + "\n");
    var inner := "\n" + (toc + "\n");
    var rest := "\n" + (body + "\n    ");
    HeadedPieces(h, o, toc, c, body, raw, pre, inner, rest);
    ParseBlock(pre, o, inner, c, rest, raw);
    HeadedResult(h, toc, body, pre, inner, rest);
  }

  /** The trimmed pieces of such a document. */
  lemma HeadedResult(h: string, toc: string, body: string, pre: string, inner: string, rest: string)
    requires Plain(h) && Plain(toc) && body != [] && NoOuterSpace(body)
    requires pre == "\n" + (h + "\n") && inner == "\n" + (toc + "\n") && rest == "\n" + (body + "\n    ")
    ensures Trim(pre + rest) == h + ("\n\n" + body) && Trim(inner) == toc
  {
    HeadedTrim(h, body, pre, rest);
    TrimAround("\n", toc, "\n", inner);
  }

  lemma HeadedPieces(h: string, o: string, toc: string, c: string, body: string, raw: string,
                     pre: string, inner: string, rest: string)
    requires '<' !in h && '<' !in toc
    requires raw == "\n" + (h + ("\n" + (o + ("\n" + (toc + ("\n" + (c + ("\n" + (body + "\n    ")))))))))
    requires pre == "\n" + (h + "\n") && inner == "\n" + (toc + "\n") && rest == "\n" + (body + "\n    ")
    ensures raw == pre + (o + (inner + (c + rest))) && '<' !in pre && '<' !in inner
  {
  }

  lemma HeadedTrim(h: string, body: string, pre: string, rest: string)
    requires h != [] && body != [] && NoOuterSpace(h) && NoOuterSpace(body)
    requires pre == "\n" + (h + "\n") && rest == "\n" + (body + "\n    ")
    ensures Trim(pre + rest) == h + ("\n\n" + body)
  {
    var x := h + ("\n\n" + body);
    assert x[0] == h[0] && x[|x| - 1] == body[|body| - 1];
    assert pre + rest == "\n" + (x + "\n    ");
    TrimAround("\n", x, "\n    ", pre + rest);
  }

  /** The first documented example: a title, a two-line table of contents
      and a subtitle with a paragraph. */
  lemma TitleExample(raw: string, content: string, toc: string)
    requires raw == "\n" + ("# Title" + ("\n" + ("<!-- TOC -->" + ("\n" + ("- Link 1\n- Link 2" + ("\n" + ("<!-- /TOC -->" + ("\n" + ("## Subtitle\nContent here." + "\n    ")))))))))
    requires content == "# Title" + ("\n\n" + "## Subtitle\nContent here.") && toc == "- Link 1\n- Link 2"
    ensures ParseMarkdown(raw) == Parsed(content, toc)
  {
    PlainOpening();
    PlainClosing();
    TitlePieces();
    HeadedBlock("# Title", "<!-- TOC -->", toc, "<!-- /TOC -->", "## Subtitle\nContent here.", raw);
  }

  /** The second documented example: markers with extra white space. */
  lemma SpacedExample(raw: string, content: string, toc: string)
    requires raw == "\n" + ("# Title" + ("\n" + ("<!--  TOC  -->" + ("\n" + ("- Link 1" + ("\n" + ("<!-- /TOC   -->" + ("\n" + ("Content here." + "\n    ")))))))))
    requires content == "# Title" + ("\n\n" + "Content here.") && toc == "- Link 1"
    ensures ParseMarkdown(raw) == Parsed(content, toc)
  {
    SpacedOpening();
    SpacedClosing();
    SpacedPieces();
    HeadedBlock("# Title", "<!--  TOC  -->", toc, "<!-- /TOC   -->", "Content here.", raw);
  }

  lemma TitlePieces()
    ensures Plain("# Title") && Plain("- Link 1\n- Link 2")
    ensures "## Subtitle\nContent here." != [] && NoOuterSpace("## Subtitle\nContent here.")
  {
  }

  lemma SpacedPieces()
    ensures Plain("# Title") && Plain("- Link 1")
    ensures "Content here." != [] && NoOuterSpace("Content here.")
  {
  }
}
