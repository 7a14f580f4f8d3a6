/**
 What `compileMarkdownFiles` makes of a document with one plain block, as
 written and with the offsets corrected, and how the corrected version
 relates to `parseMarkdown`; and how JSON file names are formed.
 */
module CompilerFacts {
  import opened Wrappers
  import opened Text
  import opened MarkdownCompiler
  import MarkdownParser
  import opened ParserExamples

  /** A document with one plain block: text without `<`, the opening
      marker, a body without `<`, the closing marker and any rest. */
  predicate BlockDoc(pre: string, inner: string, rest: string, fc: string) {
    '<' !in pre && '<' !in inner && fc == pre + (OpenTag + (inner + (CloseTag + rest)))
  }

  /** A document with a block whose markers are the first occurrences of
      the two markers: the text before the block and the body may hold any
      other markup. */
  predicate FoundBlock(pre: string, inner: string, rest: string, fc: string) {
    && fc == pre + (OpenTag + (inner + (CloseTag + rest)))
    && IndexOf(fc, OpenTag) == |pre| && IndexOf(fc, CloseTag) == |pre| + |OpenTag| + |inner|
  }

  /** In a plain document the markers are found where they were put. */
  lemma MarkersFound(pre: string, inner: string, rest: string, fc: string)
    requires BlockDoc(pre, inner, rest, fc)
    ensures IndexOf(fc, OpenTag) == |pre| && IndexOf(fc, CloseTag) == |pre| + |OpenTag| + |inner|
    ensures FoundBlock(pre, inner, rest, fc)
  {
    var tail := OpenTag + (inner + (CloseTag + rest));
    FindSkip(pre, tail, OpenTag);
    assert StartsWith(tail, OpenTag);
    FindSkip(pre, tail, CloseTag);
    CloseAfterOpen(inner, rest, tail);
  }

  /** Past the opening marker, the first closing marker is the one after the body. */
  lemma CloseAfterOpen(inner: string, rest: string, tail: string)
    requires '<' !in inner && tail == OpenTag + (inner + (CloseTag + rest))
    ensures Find(tail, CloseTag) == Some(|OpenTag| + |inner|)
  {
    assert !StartsWith(tail, CloseTag) by {
      assert tail[5] == 'T' && CloseTag[5] == '/';
    }
    var after := OpenTag[1..];
    assert tail[1..] == after + (inner + (CloseTag + rest));
    assert '<' !in after;
    FindSkip(after, inner + (CloseTag + rest), CloseTag);
    FindSkip(inner, CloseTag + rest, CloseTag);
    assert StartsWith(CloseTag + rest, CloseTag);
  }

  /** What lies around the markers, without the concatenation that
      produced the document. */
  predicate Pieces(pre: string, inner: string, rest: string, fc: string) {
    && |fc| == |pre| + 12 + |inner| + 13 + |rest|
    && fc[..|pre|] == pre
    && fc[|pre| + 12..|pre| + 12 + |inner|] == inner
    && fc[|pre| + 12 + |inner|] == '<'
    && fc[|pre| + 25 + |inner|..] == rest
    && fc[|pre| + 24 + |inner|..] == ">" + rest
  }

  lemma BlockPieces(pre: string, inner: string, rest: string, fc: string)
    requires fc == pre + (OpenTag + (inner + (CloseTag + rest)))
    ensures Pieces(pre, inner, rest, fc)
  {
    assert fc[|pre| + |OpenTag| + |inner|..] == CloseTag + rest;
  }

  /** Once both markers are found, the file is cut around them. */
  lemma CompileFound(name: string, fc: string, s: nat, e: nat)
    requires IndexOf(fc, OpenTag) == s && IndexOf(fc, CloseTag) == e
    ensures CompileFile(name, fc) == Extract(name, fc, s, e)
    ensures CompileFileFixed(name, fc) == ExtractFixed(name, fc, s, e)
  {
  }

  /** The cut with the offsets as written, when the body is taken in order. */
  lemma CutInOrder(name: string, fc: string, s: nat, e: nat)
    requires s + 13 <= e && e + 12 <= |fc|
    ensures Extract(name, fc, s, e) == FileInfo(name, fc[..s] + fc[e + 12..], Trim(fc[s + 13..e]))
  {
    assert Substring(fc, 0, s) + SubstringFrom(fc, e + 12) == fc[..s] + fc[e + 12..];
  }

  /** The same when its two ends are swapped. */
  lemma CutSwapped(name: string, fc: string, s: nat, e: nat)
    requires e < s + 13 && s + 13 <= |fc| && e + 12 <= |fc|
    ensures Extract(name, fc, s, e) == FileInfo(name, fc[..s] + fc[e + 12..], Trim(fc[e..s + 13]))
  {
    assert Substring(fc, 0, s) + SubstringFrom(fc, e + 12) == fc[..s] + fc[e + 12..];
  }

  /** The cut with the corrected offsets. */
  lemma CutFixed(name: string, fc: string, s: nat, e: nat)
    requires s + 12 <= e && e + 13 <= |fc|
    ensures ExtractFixed(name, fc, s, e) == FileInfo(name, fc[..s] + fc[e + 13..], Trim(fc[s + 12..e]))
  {
    assert Substring(fc, 0, s) == fc[..s];
    assert SubstringFrom(fc, e + 13) == fc[e + 13..];
    assert Substring(fc, s + 12, e) == fc[s + 12..e];
  }

  /** As written: the body loses its first character and the content keeps
      the last character of the closing marker, `>`. */
  lemma CompileAsWritten(name: string, pre: string, inner: string, rest: string, fc: string)
    requires FoundBlock(pre, inner, rest, fc) && inner != []
    ensures CompileFile(name, fc) == FileInfo(name, pre + (">" + rest), Trim(inner[1..]))
  {
    var s: nat, e: nat := |pre|, |pre| + 12 + |inner|;
    CompileFound(name, fc, s, e);
    BlockPieces(pre, inner, rest, fc);
    ExtractAsWritten(name, pre, inner, rest, fc, s, e);
  }

  lemma ExtractAsWritten(name: string, pre: string, inner: string, rest: string, fc: string, s: nat, e: nat)
    requires Pieces(pre, inner, rest, fc) && inner != [] && s == |pre| && e == |pre| + 12 + |inner|
    ensures Extract(name, fc, s, e) == FileInfo(name, pre + (">" + rest), Trim(inner[1..]))
  {
    CutInOrder(name, fc, s, e);
    var content, body := fc[..s] + fc[e + 12..], fc[s + 13..e];
    assert content == pre + (">" + rest);
    assert body == inner[1..];
    assert Extract(name, fc, s, e) == FileInfo(name, content, Trim(body));
  }

  /** As written, an empty block leaves `<` as the table of contents: the
      two ends of the body are out of order and are swapped. */
  lemma CompileEmptyBlock(name: string, pre: string, rest: string, fc: string)
    requires FoundBlock(pre, [], rest, fc)
    ensures CompileFile(name, fc) == FileInfo(name, pre + (">" + rest), "<")
  {
    var s: nat, e: nat := |pre|, |pre| + 12;
    CompileFound(name, fc, s, e);
    BlockPieces(pre, [], rest, fc);
    ExtractEmpty(name, pre, rest, fc, s, e);
  }

  lemma ExtractEmpty(name: string, pre: string, rest: string, fc: string, s: nat, e: nat)
    requires Pieces(pre, [], rest, fc) && s == |pre| && e == |pre| + 12
    ensures Extract(name, fc, s, e) == FileInfo(name, pre + (">" + rest), "<")
  {
    CutSwapped(name, fc, s, e);
    var content, body := fc[..s] + fc[e + 12..], fc[e..s + 13];
    assert content == pre + (">" + rest);
    assert body == "<";
    TrimLessThan();
    assert Extract(name, fc, s, e) == FileInfo(name, content, Trim(body));
  }

  lemma TrimLessThan()
    ensures Trim("<") == "<"
  {
    TrimNoOuterSpace("<");
  }

  /** The smallest document showing it: the two markers side by side. */
  lemma AdjacentMarkers()
    ensures CompileFile("x.md", "<!-- TOC --><!-- /TOC -->") == FileInfo("x.md", ">", "<")
  {
    assert "<!-- TOC --><!-- /TOC -->" == [] + (OpenTag + ([] + (CloseTag + [])));
    MarkersFound([], [], [], "<!-- TOC --><!-- /TOC -->");
    CompileEmptyBlock("x.md", [], [], "<!-- TOC --><!-- /TOC -->");
  }

  /** The run as written over a listing of that one file writes `x.json`
      with the stray `>` as content and `<` as table of contents. */
  lemma AdjacentMarkersRun(fc: string)
    requires fc == "<!-- TOC --><!-- /TOC -->"
    ensures CompileAll([("x.md", fc)]) == [("x.json", FileInfo("x.md", ">", "<"))]
  {
    XJsonName();
    AdjacentMarkers();
    RunOfOne("x.md", fc, "x.json", FileInfo("x.md", ">", "<"));
  }

  lemma XJsonName()
    ensures JsonName("x.md") == "x.json"
  {
    NameOf("x", "x.md", "x.json");
  }

  lemma RunOfOne(name: string, fc: string, json: string, info: FileInfo)
    requires JsonName(name) == json && CompileFile(name, fc) == info
    ensures CompileAll([(name, fc)]) == [(json, info)]
  {
  }

  /** The run as written and the corrected run write the same files when
      no file holds both markers. */
  lemma {:induction false} RunsAgreeWithoutBlocks(files: seq<(string, string)>)
    requires forall i :: 0 <= i < |files| ==> IndexOf(files[i].1, OpenTag) == -1 || IndexOf(files[i].1, CloseTag) == -1
    ensures CompileAll(files) == CompileAllFixed(files)
    decreases |files|
  {
    if files != [] {
      FileAgrees(files[0].0, files[0].1);
      assert forall i :: 0 <= i < |files| - 1 ==> files[1..][i] == files[i + 1];
      RunsAgreeWithoutBlocks(files[1..]);
    }
  }

  lemma FileAgrees(name: string, fc: string)
    requires IndexOf(fc, OpenTag) == -1 || IndexOf(fc, CloseTag) == -1
    ensures CompileFile(name, fc) == CompileFileFixed(name, fc)
  {
  }

  /** With the offsets corrected, exactly the block is cut out. */
  lemma CompileFixedBlock(name: string, pre: string, inner: string, rest: string, fc: string)
    requires FoundBlock(pre, inner, rest, fc)
    ensures CompileFileFixed(name, fc) == FileInfo(name, pre + rest, Trim(inner))
  {
    var s: nat, e: nat := |pre|, |pre| + 12 + |inner|;
    CompileFound(name, fc, s, e);
    BlockPieces(pre, inner, rest, fc);
    ExtractFixedPieces(name, pre, inner, rest, fc, s, e);
  }

  lemma ExtractFixedPieces(name: string, pre: string, inner: string, rest: string, fc: string, s: nat, e: nat)
    requires Pieces(pre, inner, rest, fc) && s == |pre| && e == |pre| + 12 + |inner|
    ensures ExtractFixed(name, fc, s, e) == FileInfo(name, pre + rest, Trim(inner))
  {
    CutFixed(name, fc, s, e);
    var content, body := fc[..s] + fc[e + 13..], fc[s + 12..e];
    assert content == pre + rest;
    assert body == inner;
    assert ExtractFixed(name, fc, s, e) == FileInfo(name, content, Trim(body));
  }

  /** And then the compiler and `parseMarkdown` agree on such a document:
      the same table of contents, and the same content once trimmed. */
  lemma FixedAgreesWithParser(name: string, pre: string, inner: string, rest: string, fc: string)
    requires BlockDoc(pre, inner, rest, fc)
    ensures CompileFileFixed(name, fc).tocContent == MarkdownParser.ParseMarkdown(fc).tocContent
    ensures Trim(CompileFileFixed(name, fc).content) == MarkdownParser.ParseMarkdown(fc).content
  {
    MarkersFound(pre, inner, rest, fc);
    CompileFixedBlock(name, pre, inner, rest, fc);
    PlainOpening();
    PlainClosing();
    ParseBlock(pre, OpenTag, inner, CloseTag, rest, fc);
  }

  /** A document laid out like the documented example: a heading line, the
      block with the table of contents on lines of its own, and the rest. */
  lemma HeadedDoc(h: string, toc: string, body: string, raw: string, pre: string, inner: string, rest: string)
    requires '<' !in h && '<' !in toc
    requires raw == "\n" + (h + ("\n" + (OpenTag + ("\n" + (toc + ("\n" + (CloseTag + ("\n" + (body + "\n    ")))))))))
    requires pre == "\n" + (h + "\n") && inner == "\n" + (toc + "\n") && rest == "\n" + (body + "\n    ")
    ensures BlockDoc(pre, inner, rest, raw) && inner[1..] == toc + "\n"
  {
    assert inner + (CloseTag + rest) == "\n" + (toc + ("\n" + (CloseTag + rest)));
  }

  /** The documented example as written: the table of contents is found,
      and the content keeps a stray `>` where the block was. */
  lemma TitleCompiled(raw: string, content: string, toc: string)
    requires raw == "\n" + ("# Title" + ("\n" + ("<!-- TOC -->" + ("\n" + ("- Link 1\n- Link 2" + ("\n" + ("<!-- /TOC -->" + ("\n" + ("## Subtitle\nContent here." + "\n    ")))))))))
    requires content == "\n" + ("# Title" + "\n") + (">" + ("\n" + ("## Subtitle\nContent here." + "\n    ")))
    requires toc == "- Link 1\n- Link 2"
    ensures CompileFile("test.md", raw) == FileInfo("test.md", content, toc)
  {
    var pre, inner, rest := "\n" + ("# Title" + "\n"), "\n" + (toc + "\n"), "\n" + ("## Subtitle\nContent here." + "\n    ");
    TitlePieces();
    HeadedDoc("# Title", toc, "## Subtitle\nContent here.", raw, pre, inner, rest);
    MarkersFound(pre, inner, rest, raw);
    CompileAsWritten("test.md", pre, inner, rest, raw);
    TrimAround([], toc, "\n", inner[1..]);
  }

  /** The same document with the offsets corrected: the block is cut out whole. */
  lemma TitleCompiledFixed(raw: string, content: string, toc: string)
    requires raw == "\n" + ("# Title" + ("\n" + ("<!-- TOC -->" + ("\n" + ("- Link 1\n- Link 2" + ("\n" + ("<!-- /TOC -->" + ("\n" + ("## Subtitle\nContent here." + "\n    ")))))))))
    requires content == "\n" + ("# Title" + "\n") + ("\n" + ("## Subtitle\nContent here." + "\n    "))
    requires toc == "- Link 1\n- Link 2"
    ensures CompileFileFixed("test.md", raw) == FileInfo("test.md", content, toc)
  {
    var pre, inner, rest := "\n" + ("# Title" + "\n"), "\n" + (toc + "\n"), "\n" + ("## Subtitle\nContent here." + "\n    ");
    TitlePieces();
    HeadedDoc("# Title", toc, "## Subtitle\nContent here.", raw, pre, inner, rest);
    MarkersFound(pre, inner, rest, raw);
    CompileFixedBlock("test.md", pre, inner, rest, raw);
    TrimAround("\n", toc, "\n", inner);
  }

  /** Without both markers the file is taken whole. */
  lemma JustContentCompiled()
    ensures CompileFile("no-toc.md", "# Just Content") == FileInfo("no-toc.md", "# Just Content", "")
  {
    NoAngleCompiled("no-toc.md", "# Just Content");
  }

  /** A file without `<` has neither marker. */
  lemma NoAngleCompiled(name: string, fc: string)
    requires '<' !in fc
    ensures CompileFile(name, fc) == FileInfo(name, fc, "")
  {
    FindSkip(fc, [], OpenTag);
    assert fc + [] == fc;
  }

  /** A name with an extension gets it replaced by `.json`. */
  lemma JsonNameOf(base: string, e: string)
    requires base != [] && e != [] && '.' !in e
    ensures Extname(base + "." + e) == "." + e
    ensures JsonName(base + "." + e) == base + ".json"
  {
    var f := base + "." + e;
    var k := |base|;
    assert f[k] == '.' && f[k + 1..] == e;
    LastDotAt(f, k);
    assert f != "..";
    assert f[k..] == "." + e;
    assert f[..|f| - |"." + e|] == base;
  }

  /** A dot followed by no other dot is the last dot. */
  lemma LastDotAt(f: string, k: nat)
    requires k < |f| && f[k] == '.' && '.' !in f[k + 1..]
    ensures LastDot(f) == Some(k)
    decreases |f|
  {
    if k < |f| - 1 {
      assert f[|f| - 1] in f[k + 1..];
      var g := f[..|f| - 1];
      assert g[k + 1..] == f[k + 1..|f| - 1];
      LastDotAt(g, k);
    }
  }

  /** A name without a dot, or whose only dot comes first, keeps its whole
      name before `.json`. */
  lemma JsonNameWithoutExtension(f: string)
    requires '.' !in f || (f != [] && f[0] == '.' && '.' !in f[1..])
    ensures Extname(f) == [] && JsonName(f) == f + ".json"
  {
    if '.' in f {
      LastDotAt(f, 0);
    }
    assert f[..|f|] == f;
  }

  /** The file names of the examples. */
  lemma ExampleNames()
    ensures JsonName("test.md") == "test.json" && JsonName("no-toc.md") == "no-toc.json"
  {
    NameOf("test", "test.md", "test.json");
    NameOf("no-toc", "no-toc.md", "no-toc.json");
  }

  lemma NameOf(base: string, f: string, json: string)
    requires base != [] && f == base + ".md" && json == base + ".json"
    ensures JsonName(f) == json
  {
    assert base + ".md" == base + "." + "md";
    JsonNameOf(base, "md");
  }
}
