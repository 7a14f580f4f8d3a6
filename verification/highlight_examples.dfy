/**
 The documented examples of `highlightMatch` that need more than one
 occurrence check: an empty text, a query with a regular-expression
 metacharacter, a query whose text also holds a near miss, and queries made
 of special characters, which are matched after escaping.
 */
module HighlightExamples {
  import opened Wrappers
  import opened Text
  import opened Highlight

  /** An empty text gives an empty result, whatever the query. */
  lemma EmptyTextExample()
    ensures HighlightMatch("", Some("foo")) == ""
  {
  }

  /** An empty query leaves a text without special characters as it is. */
  lemma EmptyQueryExample()
    ensures HighlightMatch("原始文本。", Some("")) == "原始文本。"
  {
    assert NoHtmlSpecial("原始文本。");
  }

  /** A `.` in the query matches only a `.`: the query is matched literally. */
  lemma DottedQueryExample()
    ensures HighlightMatch("這個詞語是 " + "foo.bar" + " 嗎？", Some("foo.bar"))
         == "這個詞語是 " + OpenTag + "foo.bar" + CloseTag + " 嗎？"
  {
    DottedWords();
    DottedNoStart();
    OneMatch("這個詞語是 ", "foo.bar", " 嗎？", "foo.bar");
  }

  lemma DottedWords()
    ensures NoHtmlSpecial("這個詞語是 ") && NoHtmlSpecial("foo.bar") && NoHtmlSpecial(" 嗎？")
    ensures CiEq("foo.bar", "foo.bar")
  {
  }

  lemma DottedNoStart()
    ensures NoStartIn("這個詞語是 ", "foo.bar") && NoStartIn(" 嗎？", "foo.bar")
  {
    FirstCharAbsentNoStart("這個詞語是 ", "foo.bar");
    FirstCharAbsentNoStart(" 嗎？", "foo.bar");
  }

  /** Both occurrences of `關鍵字1` are wrapped, and `關鍵字2`, which agrees
      with the query up to its last character, is not. */
  lemma RepeatedKeywordExample()
    ensures HighlightMatch("關鍵字1" + "和關鍵字2，" + "關鍵字1" + "再次出現。", Some("關鍵字1"))
         == OpenTag + "關鍵字1" + CloseTag + "和關鍵字2，" + OpenTag + "關鍵字1" + CloseTag + "再次出現。"
  {
    RepeatedWords();
    RepeatedNoStart();
    TwoMatches("關鍵字1", "和關鍵字2，", "關鍵字1", "再次出現。", "關鍵字1");
  }

  lemma RepeatedWords()
    ensures NoHtmlSpecial("關鍵字1") && NoHtmlSpecial("和關鍵字2，") && NoHtmlSpecial("再次出現。")
    ensures CiEq("關鍵字1", "關鍵字1")
  {
  }

  lemma RepeatedNoStart()
    ensures NoStartIn("和關鍵字2，", "關鍵字1") && NoStartIn("再次出現。", "關鍵字1")
  {
    NearMissText();
    FirstCharAbsentNoStart("再次出現。", "關鍵字1");
  }

  lemma NearMissText()
    ensures NoStartIn("和關鍵字2，", "關鍵字1")
  {
    var a, x, b := "和", "關鍵字" + ['2'], "，";
    FirstCharAbsentNoStart(a, "關鍵字1");
    NearMissNoStart("關鍵字", '2', "關鍵字1", '1');
    FirstCharAbsentNoStart(b, "關鍵字1");
    NoStartJoin(a, x, "關鍵字1");
    NoStartJoin(a + x, b, "關鍵字1");
    assert a + x + b == "和關鍵字2，";
  }

  /** A near miss: the query's text up to its last character, followed by
      a different character, where the query's first character does not
      recur. */
  lemma NearMissNoStart(k: string, c: char, q: string, d: char)
    requires k != [] && q == k + [d] && Lower(c) != Lower(d)
    requires FirstCharAbsent(k[1..], q) && Lower(c) != Lower(q[0])
    ensures NoStartIn(k + [c], q)
  {
    var x := k + [c];
    assert forall i :: 0 <= i < |k| ==> x[i] == k[i] && q[i] == k[i];
    RefutesAt(x, q, |k|);
    assert FirstCharAbsent(x[1..], q) by {
      assert forall i :: 0 <= i < |k| - 1 ==> x[1..][i] == k[1..][i];
    }
    FirstCharAbsentNoStart(x[1..], q);
  }

  // ---------------------------------------------------------------------
  // Escaping comes before matching

  /** The documented script tag: both occurrences of `script` are wrapped,
      and the tag's brackets and quotes come out as entities outside the
      highlight. */
  lemma ScriptTagExample()
    ensures HighlightMatch("這是一個 " + "<" + "script" + ">" + "alert(" + "\"" + "XSS" + "\"" + ")" + "<" + "/" + "script" + ">" + " 測試。", Some("script"))
         == "這是一個 " + "&lt;" + OpenTag + "script" + CloseTag + "&gt;" + "alert(" + "&quot;" + "XSS" + "&quot;" + ")"
          + "&lt;" + "/" + OpenTag + "script" + CloseTag + "&gt;" + " 測試。"
  {
    ScriptWords();
    ScriptNoStart();
    ScriptTagQuery("這是一個 ", "script", "alert(", "XSS", ")", " 測試。");
  }

  lemma ScriptWords()
    ensures NoHtmlSpecial("這是一個 ") && NoHtmlSpecial("script") && NoHtmlSpecial("alert(")
    ensures NoHtmlSpecial("XSS") && NoHtmlSpecial(")") && NoHtmlSpecial(" 測試。")
  {
  }

  lemma ScriptNoStart()
    ensures NoStartIn("這是一個 " + "&lt;", "script")
    ensures NoStartIn("&gt;" + "alert(" + "&quot;" + "XSS" + "&quot;" + ")" + "&lt;" + "/", "script")
    ensures NoStartIn("&gt;" + " 測試。", "script")
  {
    var q := "script";
    FirstCharAbsentNoStart("這是一個 " + "&lt;", q);
    FirstCharAbsentNoStart("&gt;" + " 測試。", q);
    FirstCharAbsentNoStart("&gt;" + "alert(" + "&quot;", q);
    FirstCharAbsentNoStart(")" + "&lt;" + "/", q);
    XssNoStart();
    NoStartJoin("&gt;" + "alert(" + "&quot;", "XSS" + "&quot;", q);
    NoStartJoin("&gt;" + "alert(" + "&quot;" + ("XSS" + "&quot;"), ")" + "&lt;" + "/", q);
    assert "&gt;" + "alert(" + "&quot;" + ("XSS" + "&quot;") + (")" + "&lt;" + "/")
        == "&gt;" + "alert(" + "&quot;" + "XSS" + "&quot;" + ")" + "&lt;" + "/";
  }

  /** The two capital `S` of `XSS` match the query's first letter up to
      case, and each is refuted by the character after it. */
  lemma XssNoStart()
    ensures NoStartIn("XSS" + "&quot;", "script")
  {
    SNoStart();
    RefutesAt("SS&quot;", "script", 1);
    assert "SS&quot;"[1..] == "S&quot;" && "XSS&quot;"[1..] == "SS&quot;";
    assert "XSS" + "&quot;" == "XSS&quot;";
  }

  lemma SNoStart()
    ensures NoStartIn("S&quot;", "script")
  {
    FirstCharAbsentNoStart("&quot;", "script");
    RefutesAt("S&quot;", "script", 1);
    assert "S&quot;"[1..] == "&quot;";
  }

  /** A query in two places, once inside an opening tag and once inside
      a closing tag, with quoted text between them. */
  lemma ScriptTagQuery(a: string, q: string, g: string, h: string, k: string, w: string)
    requires NoHtmlSpecial(a) && NoHtmlSpecial(q) && NoHtmlSpecial(g)
    requires NoHtmlSpecial(h) && NoHtmlSpecial(k) && NoHtmlSpecial(w) && q != []
    requires NoStartIn(a + "&lt;", q) && NoStartIn("&gt;" + w, q)
    requires NoStartIn("&gt;" + g + "&quot;" + h + "&quot;" + k + "&lt;" + "/", q)
    ensures HighlightMatch(a + "<" + q + ">" + g + "\"" + h + "\"" + k + "<" + "/" + q + ">" + w, Some(q))
         == a + "&lt;" + OpenTag + q + CloseTag + "&gt;" + g + "&quot;" + h + "&quot;" + k
          + "&lt;" + "/" + OpenTag + q + CloseTag + "&gt;" + w
  {
    var x, y, z := a + "<", ">" + g + "\"" + h + "\"" + k + "<" + "/", ">" + w;
    var ex, ey, ez := a + "&lt;", "&gt;" + g + "&quot;" + h + "&quot;" + k + "&lt;" + "/", "&gt;" + w;
    ScriptEscapes(a, g, h, k, w);
    EscapedTwoMatches(x, q, y, q, z, q);
    ScriptTagGroups(a, q, g, h, k, w, x, y, z, ex, ey, ez);
  }

  lemma ScriptEscapes(a: string, g: string, h: string, k: string, w: string)
    requires NoHtmlSpecial(a) && NoHtmlSpecial(g) && NoHtmlSpecial(h) && NoHtmlSpecial(k) && NoHtmlSpecial(w)
    ensures EscapeHtml(a + "<") == a + "&lt;" && EscapeHtml(">" + w) == "&gt;" + w
    ensures EscapeHtml(">" + g + "\"" + h + "\"" + k + "<" + "/") == "&gt;" + g + "&quot;" + h + "&quot;" + k + "&lt;" + "/"
  {
    EscapeEntities();
    EscapeAppend(a, "<");
    EscapeAppend(">", w);
    EscapeAppend(">", g);
    EscapeSeven(">" + g, "\"", h, "\"", k, "<", "/");
    assert EscapeHtml("/") == "/";
  }

  lemma ScriptTagGroups(a: string, q: string, g: string, h: string, k: string, w: string,
                        x: string, y: string, z: string, ex: string, ey: string, ez: string)
    requires x == a + "<" && y == ">" + g + "\"" + h + "\"" + k + "<" + "/" && z == ">" + w
    requires ex == a + "&lt;" && ey == "&gt;" + g + "&quot;" + h + "&quot;" + k + "&lt;" + "/" && ez == "&gt;" + w
    ensures a + "<" + q + ">" + g + "\"" + h + "\"" + k + "<" + "/" + q + ">" + w == x + q + y + q + z
    ensures ex + OpenTag + q + CloseTag + ey + OpenTag + q + CloseTag + ez
         == a + "&lt;" + OpenTag + q + CloseTag + "&gt;" + g + "&quot;" + h + "&quot;" + k
          + "&lt;" + "/" + OpenTag + q + CloseTag + "&gt;" + w
  {
  }

  // ---------------------------------------------------------------------
  // Queries made of special characters
  //
  // The sentence of the documented example is `a & b "c" d 'e' f` with six
  // stretches `a` .. `f` without special characters. Each of the three
  // queries is matched in its escaped form, and every other entity in the
  // text differs from it within its first three characters.

  /** The documented sentence `這個 & 查詢包含 "引用" 和 '單引號'。` with each
      of its three special-character queries. */
  lemma SpecialCharacterExample()
    ensures HighlightMatch("這個 " + "&" + " 查詢包含 " + "\"" + "引用" + "\"" + " 和 " + "'" + "單引號" + "'" + "。", Some("&"))
         == "這個 " + OpenTag + "&amp;" + CloseTag + " 查詢包含 " + "&quot;" + "引用" + "&quot;" + " 和 " + "&apos;" + "單引號" + "&apos;" + "。"
    ensures HighlightMatch("這個 " + "&" + " 查詢包含 " + "\"" + "引用" + "\"" + " 和 " + "'" + "單引號" + "'" + "。", Some("\"" + "引用" + "\""))
         == "這個 " + "&amp;" + " 查詢包含 " + OpenTag + "&quot;" + "引用" + "&quot;" + CloseTag + " 和 " + "&apos;" + "單引號" + "&apos;" + "。"
    ensures HighlightMatch("這個 " + "&" + " 查詢包含 " + "\"" + "引用" + "\"" + " 和 " + "'" + "單引號" + "'" + "。", Some("'" + "單引號" + "'"))
         == "這個 " + "&amp;" + " 查詢包含 " + "&quot;" + "引用" + "&quot;" + " 和 " + OpenTag + "&apos;" + "單引號" + "&apos;" + CloseTag + "。"
  {
    SpecialWords();
    AmpersandQuery("這個 ", " 查詢包含 ", "引用", " 和 ", "單引號", "。");
    DoubleQuoteQuery("這個 ", " 查詢包含 ", "引用", " 和 ", "單引號", "。");
    SingleQuoteQuery("這個 ", " 查詢包含 ", "引用", " 和 ", "單引號", "。");
  }

  lemma SpecialWords()
    ensures NoHtmlSpecial("這個 ") && NoHtmlSpecial(" 查詢包含 ") && NoHtmlSpecial("引用")
    ensures NoHtmlSpecial(" 和 ") && NoHtmlSpecial("單引號") && NoHtmlSpecial("。")
  {
  }

  /** The query `&` wraps the one `&amp;` and nothing else. */
  lemma AmpersandQuery(a: string, b: string, c: string, d: string, e: string, f: string)
    requires NoHtmlSpecial(a) && NoHtmlSpecial(b) && NoHtmlSpecial(c)
    requires NoHtmlSpecial(d) && NoHtmlSpecial(e) && NoHtmlSpecial(f)
    ensures HighlightMatch(a + "&" + b + "\"" + c + "\"" + d + "'" + e + "'" + f, Some("&"))
         == a + OpenTag + "&amp;" + CloseTag + b + "&quot;" + c + "&quot;" + d + "&apos;" + e + "&apos;" + f
  {
    var y := b + "\"" + c + "\"" + d + "'" + e + "'" + f;
    var ey := b + "&quot;" + c + "&quot;" + d + "&apos;" + e + "&apos;" + f;
    EscapeTail(b, c, d, e, f);
    AmpersandNoStart(a, b, c, d, e, f);
    EscapeEntities();
    EscapedOneMatch(a, "&", y, "&");
    AmpersandGroups(a, b, c, d, e, f, y, ey);
  }

  lemma AmpersandGroups(a: string, b: string, c: string, d: string, e: string, f: string, y: string, ey: string)
    requires y == b + "\"" + c + "\"" + d + "'" + e + "'" + f
    requires ey == b + "&quot;" + c + "&quot;" + d + "&apos;" + e + "&apos;" + f
    ensures a + "&" + b + "\"" + c + "\"" + d + "'" + e + "'" + f == a + "&" + y
    ensures a + OpenTag + "&amp;" + CloseTag + ey
         == a + OpenTag + "&amp;" + CloseTag + b + "&quot;" + c + "&quot;" + d + "&apos;" + e + "&apos;" + f
  {
  }

  /** The text after the `&`, escaped. */
  lemma EscapeTail(b: string, c: string, d: string, e: string, f: string)
    requires NoHtmlSpecial(b) && NoHtmlSpecial(c) && NoHtmlSpecial(d) && NoHtmlSpecial(e) && NoHtmlSpecial(f)
    ensures EscapeHtml(b + "\"" + c + "\"" + d + "'" + e + "'" + f)
         == b + "&quot;" + c + "&quot;" + d + "&apos;" + e + "&apos;" + f
  {
    EscapeJoin9(b, "\"", c, "\"", d, "'", e, "'", f);
    EscapeEntities();
  }

  lemma AmpersandNoStart(a: string, b: string, c: string, d: string, e: string, f: string)
    requires NoHtmlSpecial(a) && NoHtmlSpecial(b) && NoHtmlSpecial(c)
    requires NoHtmlSpecial(d) && NoHtmlSpecial(e) && NoHtmlSpecial(f)
    ensures NoStartIn(a, "&amp;")
    ensures NoStartIn(b + "&quot;" + c + "&quot;" + d + "&apos;" + e + "&apos;" + f, "&amp;")
  {
    var q := "&amp;";
    PlainPieces(a, b, c, d, e, f, q);
    OtherEntities();
    NoStartJoin9(b, "&quot;", c, "&quot;", d, "&apos;", e, "&apos;", f, q);
  }

  /** The two other entities cannot hold the start of `&amp;`. */
  lemma OtherEntities()
    ensures NoStartIn("&quot;", "&amp;") && NoStartIn("&apos;", "&amp;")
  {
    RefutesAt("&quot;", "&amp;", 1);
    EntityNoStart("&quot;", "&amp;");
    RefutesAt("&apos;", "&amp;", 2);
    EntityNoStart("&apos;", "&amp;");
  }

  /** Nine stretches in which the query cannot start, joined. */
  lemma NoStartJoin9(a1: string, a2: string, a3: string, a4: string, a5: string, a6: string, a7: string, a8: string, a9: string, q: string)
    requires NoStartIn(a1, q) && NoStartIn(a2, q) && NoStartIn(a3, q) && NoStartIn(a4, q) && NoStartIn(a5, q)
    requires NoStartIn(a6, q) && NoStartIn(a7, q) && NoStartIn(a8, q) && NoStartIn(a9, q)
    ensures NoStartIn(a1 + a2 + a3 + a4 + a5 + a6 + a7 + a8 + a9, q)
  {
    NoStartJoin(a1, a2, q);
    NoStartJoin(a1 + a2, a3, q);
    NoStartJoin(a1 + a2 + a3, a4, q);
    NoStartJoin(a1 + a2 + a3 + a4, a5, q);
    NoStartJoin(a1 + a2 + a3 + a4 + a5, a6, q);
    NoStartJoin(a1 + a2 + a3 + a4 + a5 + a6, a7, q);
    NoStartJoin(a1 + a2 + a3 + a4 + a5 + a6 + a7, a8, q);
    NoStartJoin(a1 + a2 + a3 + a4 + a5 + a6 + a7 + a8, a9, q);
  }

  /** None of the six plain stretches can hold the start of a query that
      begins with an entity. */
  lemma PlainPieces(a: string, b: string, c: string, d: string, e: string, f: string, q: string)
    requires NoHtmlSpecial(a) && NoHtmlSpecial(b) && NoHtmlSpecial(c)
    requires NoHtmlSpecial(d) && NoHtmlSpecial(e) && NoHtmlSpecial(f)
    requires q != [] && q[0] == '&'
    ensures NoStartIn(a, q) && NoStartIn(b, q) && NoStartIn(c, q)
    ensures NoStartIn(d, q) && NoStartIn(e, q) && NoStartIn(f, q)
  {
    PlainNoStart(a, q);
    PlainNoStart(b, q);
    PlainNoStart(c, q);
    PlainNoStart(d, q);
    PlainNoStart(e, q);
    PlainNoStart(f, q);
  }

  /** The query `"c"` wraps the quoted stretch, entities included. */
  lemma DoubleQuoteQuery(a: string, b: string, c: string, d: string, e: string, f: string)
    requires NoHtmlSpecial(a) && NoHtmlSpecial(b) && NoHtmlSpecial(c)
    requires NoHtmlSpecial(d) && NoHtmlSpecial(e) && NoHtmlSpecial(f)
    ensures HighlightMatch(a + "&" + b + "\"" + c + "\"" + d + "'" + e + "'" + f, Some("\"" + c + "\""))
         == a + "&amp;" + b + OpenTag + "&quot;" + c + "&quot;" + CloseTag + d + "&apos;" + e + "&apos;" + f
  {
    var x, m, y := a + "&" + b, "\"" + c + "\"", d + "'" + e + "'" + f;
    var ex, em, ey := a + "&amp;" + b, "&quot;" + c + "&quot;", d + "&apos;" + e + "&apos;" + f;
    EscapeEntities();
    EscapeThree(a, "&", b);
    EscapeThree("\"", c, "\"");
    EscapeFive(d, "'", e, "'", f);
    DoubleQuoteNoStart(a, b, c, d, e, f);
    EscapedOneMatch(x, m, y, m);
    DoubleQuoteGroups(a, b, c, d, e, f, x, m, y, ex, em, ey);
  }

  lemma DoubleQuoteGroups(a: string, b: string, c: string, d: string, e: string, f: string,
                          x: string, m: string, y: string, ex: string, em: string, ey: string)
    requires x == a + "&" + b && m == "\"" + c + "\"" && y == d + "'" + e + "'" + f
    requires ex == a + "&amp;" + b && em == "&quot;" + c + "&quot;" && ey == d + "&apos;" + e + "&apos;" + f
    ensures a + "&" + b + "\"" + c + "\"" + d + "'" + e + "'" + f == x + m + y
    ensures ex + OpenTag + em + CloseTag + ey
         == a + "&amp;" + b + OpenTag + "&quot;" + c + "&quot;" + CloseTag + d + "&apos;" + e + "&apos;" + f
  {
  }

  lemma DoubleQuoteNoStart(a: string, b: string, c: string, d: string, e: string, f: string)
    requires NoHtmlSpecial(a) && NoHtmlSpecial(b) && NoHtmlSpecial(c)
    requires NoHtmlSpecial(d) && NoHtmlSpecial(e) && NoHtmlSpecial(f)
    ensures NoStartIn(a + "&amp;" + b, "&quot;" + c + "&quot;")
    ensures NoStartIn(d + "&apos;" + e + "&apos;" + f, "&quot;" + c + "&quot;")
  {
    var q := "&quot;" + c + "&quot;";
    PlainPieces(a, b, c, d, e, f, q);
    EntitiesBeforeQuot(c);
    NoStartJoin(a, "&amp;", q);
    NoStartJoin(a + "&amp;", b, q);
    NoStartJoin5(d, "&apos;", e, "&apos;", f, q);
  }

  /** `&amp;` and `&apos;` part from `&quot;` at their second character. */
  lemma EntitiesBeforeQuot(c: string)
    ensures NoStartIn("&amp;", "&quot;" + c + "&quot;") && NoStartIn("&apos;", "&quot;" + c + "&quot;")
  {
    var q := "&quot;" + c + "&quot;";
    assert q[0] == '&' && q[1] == 'q';
    RefutesAt("&amp;", q, 1);
    EntityNoStart("&amp;", q);
    RefutesAt("&apos;", q, 1);
    EntityNoStart("&apos;", q);
  }

  /** The query `'e'` wraps the single-quoted stretch. */
  lemma SingleQuoteQuery(a: string, b: string, c: string, d: string, e: string, f: string)
    requires NoHtmlSpecial(a) && NoHtmlSpecial(b) && NoHtmlSpecial(c)
    requires NoHtmlSpecial(d) && NoHtmlSpecial(e) && NoHtmlSpecial(f)
    ensures HighlightMatch(a + "&" + b + "\"" + c + "\"" + d + "'" + e + "'" + f, Some("'" + e + "'"))
         == a + "&amp;" + b + "&quot;" + c + "&quot;" + d + OpenTag + "&apos;" + e + "&apos;" + CloseTag + f
  {
    var x, m := a + "&" + b + "\"" + c + "\"" + d, "'" + e + "'";
    var ex, em := a + "&amp;" + b + "&quot;" + c + "&quot;" + d, "&apos;" + e + "&apos;";
    EscapeEntities();
    EscapeSeven(a, "&", b, "\"", c, "\"", d);
    EscapeThree("'", e, "'");
    SingleQuoteNoStart(a, b, c, d, e, f);
    EscapedOneMatch(x, m, f, m);
    SingleQuoteGroups(a, b, c, d, e, f, x, m, ex, em);
  }

  lemma SingleQuoteGroups(a: string, b: string, c: string, d: string, e: string, f: string,
                          x: string, m: string, ex: string, em: string)
    requires x == a + "&" + b + "\"" + c + "\"" + d && m == "'" + e + "'"
    requires ex == a + "&amp;" + b + "&quot;" + c + "&quot;" + d && em == "&apos;" + e + "&apos;"
    ensures a + "&" + b + "\"" + c + "\"" + d + "'" + e + "'" + f == x + m + f
    ensures ex + OpenTag + em + CloseTag + f
         == a + "&amp;" + b + "&quot;" + c + "&quot;" + d + OpenTag + "&apos;" + e + "&apos;" + CloseTag + f
  {
  }

  lemma SingleQuoteNoStart(a: string, b: string, c: string, d: string, e: string, f: string)
    requires NoHtmlSpecial(a) && NoHtmlSpecial(b) && NoHtmlSpecial(c)
    requires NoHtmlSpecial(d) && NoHtmlSpecial(e) && NoHtmlSpecial(f)
    ensures NoStartIn(a + "&amp;" + b + "&quot;" + c + "&quot;" + d, "&apos;" + e + "&apos;")
    ensures NoStartIn(f, "&apos;" + e + "&apos;")
  {
    var q := "&apos;" + e + "&apos;";
    PlainPieces(a, b, c, d, e, f, q);
    EntitiesBeforeApos(e);
    NoStartJoin5(a, "&amp;", b, "&quot;", c, q);
    NoStartJoin(a + "&amp;" + b + "&quot;" + c, "&quot;", q);
    NoStartJoin(a + "&amp;" + b + "&quot;" + c + "&quot;", d, q);
  }

  /** `&amp;` parts from `&apos;` at its third character, `&quot;` at its second. */
  lemma EntitiesBeforeApos(e: string)
    ensures NoStartIn("&amp;", "&apos;" + e + "&apos;") && NoStartIn("&quot;", "&apos;" + e + "&apos;")
  {
    var q := "&apos;" + e + "&apos;";
    assert q[0] == '&' && q[1] == 'a' && q[2] == 'p';
    RefutesAt("&amp;", q, 2);
    EntityNoStart("&amp;", q);
    RefutesAt("&quot;", q, 1);
    EntityNoStart("&quot;", q);
  }

  lemma NoStartJoin5(a1: string, a2: string, a3: string, a4: string, a5: string, q: string)
    requires NoStartIn(a1, q) && NoStartIn(a2, q) && NoStartIn(a3, q) && NoStartIn(a4, q) && NoStartIn(a5, q)
    ensures NoStartIn(a1 + a2 + a3 + a4 + a5, q)
  {
    NoStartJoin(a1, a2, q);
    NoStartJoin(a1 + a2, a3, q);
    NoStartJoin(a1 + a2 + a3, a4, q);
    NoStartJoin(a1 + a2 + a3 + a4, a5, q);
  }

  lemma EscapeSeven(a1: string, a2: string, a3: string, a4: string, a5: string, a6: string, a7: string)
    ensures EscapeHtml(a1 + a2 + a3 + a4 + a5 + a6 + a7)
         == EscapeHtml(a1) + EscapeHtml(a2) + EscapeHtml(a3) + EscapeHtml(a4) + EscapeHtml(a5)
          + EscapeHtml(a6) + EscapeHtml(a7)
  {
    EscapeThree(a1 + a2 + a3 + a4 + a5, a6, a7);
    EscapeFive(a1, a2, a3, a4, a5);
  }
}
