/**
 The regular-expression replacements that `stripMarkdown` applies one after
 the other (src/utils/textFormatter.js). Each pattern is written as an
 explicit matcher anchored at the start of the remaining text, and a single
 scanner applies a rule the way a global `String.prototype.replace` does:
 the leftmost match wins, matches never overlap, and scanning resumes right
 after each match. None of the patterns looks behind or can match the empty
 string, so whether a match starts at a position depends only on the text
 from that position on, which is what the suffix recursion relies on.
 */
module MarkdownRules {
  import opened Wrappers
  import opened Text
  import opened Replace

  /** One global replacement step of the stripping pipeline. */
  datatype Rule =
    | CodeBlock   // three backticks, the shortest stretch of anything, three backticks; replaced by a space
    | Link        // `[text](url)` with non-empty text and url; replaced by the text
    | HtmlTag     // `<`, one or more characters other than `>`, `>`; replaced by a space
    | Strong      // `**` or `__`, the shortest stretch on one line, the same pair; replaced by the stretch
    | Emphasis    // `*` or `_`, the shortest stretch on one line, the same character; replaced by the stretch
    | Heading     // one or more `#` and one white-space character; replaced by a space
    | Newline     // a line feed; replaced by a space
    | Whitespace  // a run of white space; replaced by one space


  const Fence := "```"

  /** The characters a match of `rule` can start with. */
  predicate Triggers(rule: Rule, c: char) {
    match rule
    case CodeBlock => c == '`'
    case Link => c == '['
    case HtmlTag => c == '<'
    case Strong => c == '*' || c == '_'
    case Emphasis => c == '*' || c == '_'
    case Heading => c == '#'
    case Newline => c == '\n'
    case Whitespace => IsSpace(c)
  }

  /** Length of the shortest stretch at the start of `t` that stays on one
      line and is followed by `delim`: a lazy `.*?` followed by a back-reference.
      The first occurrence of `delim` is the only candidate, because a line
      terminator before it is also before every later one. */
  function LazyStretch(t: string, delim: string): (r: Option<nat>)
    ensures r.Some? ==> OccursAt(t, delim, r.value) && NoLineTerminator(t[..r.value])
  {
    match Find(t, delim)
    case Some(k) => if NoLineTerminator(t[..k]) then Some(k) else None
    case None => None
  }

  /** `LazyStretch` picks the shortest stretch, and reports none only when
      no one-line stretch is followed by `delim`. */
  lemma LazyStretchShortest(t: string, delim: string)
    ensures LazyStretch(t, delim).Some? ==> forall j :: 0 <= j < LazyStretch(t, delim).value ==> !OccursAt(t, delim, j)
    ensures LazyStretch(t, delim).None? ==> forall j :: 0 <= j <= |t| && NoLineTerminator(t[..j]) ==> !OccursAt(t, delim, j)
  {
    FindLeftmost(t, delim);
    match Find(t, delim)
    case Some(k) =>
      forall j | k <= j <= |t| ensures !NoLineTerminator(t[..j]) || NoLineTerminator(t[..k]) {
        assert t[..j][..k] == t[..k];
      }
    case None =>
  }

  /** A fenced code block at the start of `s`, replaced by a space. */
  function CodeBlockAt(s: string): (r: Option<Match>)
    ensures r.Some? ==> var n := r.value.length;
      && 6 <= n <= |s| && OccursAt(s, Fence, 0) && OccursAt(s, Fence, n - 3) && r.value.replacement == " "
    ensures r.Some? ==> s[0] == '`'
  {
    if StartsWith(s, Fence) then
      match Find(s[3..], Fence)
      case Some(k) =>
        OccursShift(s, 3, Fence, k);
        assert s[0] == s[..3][0];
        Some(Match(k + 6, " "))
      case None => None
    else None
  }

  /** The code-block pattern is lazy: no fence occurs strictly inside a match. */
  lemma CodeBlockShortest(s: string)
    ensures CodeBlockAt(s).Some? ==> forall j :: 3 <= j < CodeBlockAt(s).value.length - 3 ==> !OccursAt(s, Fence, j)
  {
    if CodeBlockAt(s).Some? {
      FindLeftmost(s[3..], Fence);
      forall j | 3 <= j < CodeBlockAt(s).value.length - 3 ensures !OccursAt(s, Fence, j) {
        OccursShift(s, 3, Fence, j - 3);
      }
    }
  }

  /** `s` starts with `[text](url)` spanning `n` characters, where `text` and
      the url are non-empty, `text` has no `]` and the url has no `)`. */
  predicate IsLink(s: string, n: nat, text: string) {
    && |text| + 4 < n <= |s|
    && s[0] == '[' && s[1..|text| + 1] == text && s[|text| + 1] == ']' && s[|text| + 2] == '('
    && s[n - 1] == ')'
    && text != [] && ']' !in text && ')' !in s[|text| + 3..n - 1]
  }

  /** A markdown link `[text](url)` at the start of `s`: its length and its text. */
  function LinkAt(s: string): (r: Option<Match>)
    ensures r.Some? ==> IsLink(s, r.value.length, r.value.replacement)
  {
    if s != [] && s[0] == '[' then
      match Find(s[1..], "]")
      case Some(k) =>
        if 1 <= k && k + 2 < |s| && s[k + 2] == '(' then
          match Find(s[k + 3..], ")")
          case Some(m) =>
            if 1 <= m then
              FirstCharFound(s[1..], ']', k);
              FirstCharFound(s[k + 3..], ')', m);
              LinkShapeOf(s, k, m);
              Some(Match(k + m + 4, s[1..k + 1]))
            else None
          case None => None
        else None
      case None => None
    else None
  }

  /** The shape of a link, from the first `]` after the opening bracket and
      the first `)` after the opening parenthesis. */
  lemma LinkShapeOf(s: string, k: nat, m: nat)
    requires s != [] && s[0] == '[' && 1 <= k && k + 2 < |s| && s[k + 2] == '(' && 1 <= m
    requires k < |s[1..]| && s[1..][k] == ']' && ']' !in s[1..][..k]
    requires m < |s[k + 3..]| && s[k + 3..][m] == ')' && ')' !in s[k + 3..][..m]
    ensures IsLink(s, k + m + 4, s[1..k + 1])
  {
    assert s[1..][..k] == s[1..k + 1];
    assert s[k + 3..][..m] == s[k + 3..k + m + 3];
  }

  /** An HTML tag at the start of `s`, replaced by a space. */
  function HtmlTagAt(s: string): (r: Option<Match>)
    ensures r.Some? ==> var n := r.value.length;
      && 3 <= n <= |s| && s[0] == '<' && s[n - 1] == '>' && '>' !in s[1..n - 1] && r.value.replacement == " "
  {
    if s != [] && s[0] == '<' then
      match Find(s[1..], ">")
      case Some(k) =>
        if 1 <= k then
          FirstCharFound(s[1..], '>', k);
          assert s[1..][..k] == s[1..k + 1];
          Some(Match(k + 2, " "))
        else None
      case None => None
    else None
  }

  /** `delim`, the shortest one-line stretch, `delim` again, at the start of
      `s`: the length of the whole match. */
  function DelimitedAt(s: string, delim: string): (r: Option<nat>)
    ensures r.Some? ==> 2 * |delim| <= r.value <= |s|
    ensures r.Some? ==> OccursAt(s, delim, 0) && OccursAt(s, delim, r.value - |delim|)
    ensures r.Some? ==> NoLineTerminator(s[|delim|..r.value - |delim|])
  {
    if StartsWith(s, delim) then
      match LazyStretch(s[|delim|..], delim)
      case Some(k) =>
        OccursShift(s, |delim|, delim, k);
        assert s[|delim|..|delim| + k] == s[|delim|..][..k];
        assert s[0..|delim|] == s[..|delim|];
        Some(|delim| + k + |delim|)
      case None => None
    else None
  }

  /** The emphasis patterns are lazy: the closing delimiter is the first
      occurrence of `delim` after the opening one. */
  lemma DelimitedShortest(s: string, delim: string)
    ensures DelimitedAt(s, delim).Some? ==> forall j :: |delim| <= j < DelimitedAt(s, delim).value - |delim| ==> !OccursAt(s, delim, j)
  {
    if DelimitedAt(s, delim).Some? {
      LazyStretchShortest(s[|delim|..], delim);
      forall j | |delim| <= j < DelimitedAt(s, delim).value - |delim| ensures !OccursAt(s, delim, j) {
        OccursShift(s, |delim|, delim, j - |delim|);
      }
    }
  }

  /** The alternation `(a|b)` followed by a lazy stretch and a back-reference:
      `a` is tried first, then `b`; the replacement is the stretch. */
  function PairAt(s: string, a: string, b: string): (r: Option<Match>)
    requires a != [] && b != []
    ensures r.Some? ==> 0 < r.value.length <= |s|
    ensures r.Some? ==> StartsWith(s, a) || StartsWith(s, b)
    ensures r.Some? ==> s[0] == a[0] || s[0] == b[0]
  {
    match DelimitedAt(s, a)
    case Some(n) =>
      assert s[0] == s[..|a|][0];
      Some(Match(n, s[|a|..n - |a|]))
    case None =>
      match DelimitedAt(s, b)
      case Some(n) =>
        assert s[0] == s[..|b|][0];
        Some(Match(n, s[|b|..n - |b|]))
      case None => None
  }

  /** Length of the run of `#` at the start of `s`. */
  function HashRun(s: string): (n: nat)
    decreases |s|
    ensures n <= |s| && forall i :: 0 <= i < n ==> s[i] == '#'
    ensures n < |s| ==> s[n] != '#'
  {
    if s != [] && s[0] == '#' then
      var n := 1 + HashRun(s[1..]);
      assert forall i :: 1 <= i < n ==> s[i] == s[1..][i - 1];
      n
    else 0
  }

  /** A heading prefix (hashes and one white-space character) at the start
      of `s`, replaced by a space. The hashes are matched greedily, and giving
      one back cannot help because a `#` is not white space, so the run is maximal. */
  function HeadingAt(s: string): (r: Option<Match>)
    ensures r.Some? ==> var n := r.value.length;
      && 2 <= n <= |s| && IsSpace(s[n - 1]) && r.value.replacement == " "
      && forall i :: 0 <= i < n - 1 ==> s[i] == '#'
    ensures r.Some? ==> s[0] == '#'
  {
    if s != [] && s[0] == '#' then
      var n := HashRun(s);
      if n < |s| && IsSpace(s[n]) then Some(Match(n + 1, " ")) else None
    else None
  }

  /** `**…**` or `__…__` on one line, replaced by what is between. */
  function StrongAt(s: string): (r: Option<Match>)
    ensures r.Some? ==> 0 < r.value.length <= |s| && (s[0] == '*' || s[0] == '_')
  {
    PairAt(s, "**", "__")
  }

  /** `*…*` or `_…_` on one line, replaced by what is between. */
  function EmphasisAt(s: string): (r: Option<Match>)
    ensures r.Some? ==> 0 < r.value.length <= |s| && (s[0] == '*' || s[0] == '_')
  {
    PairAt(s, "*", "_")
  }

  /** A line feed, replaced by a space. */
  function NewlineAt(s: string): (r: Option<Match>)
    ensures r.Some? <==> s != [] && s[0] == '\n'
    ensures r.Some? ==> r.value == Match(1, " ")
  {
    if s != [] && s[0] == '\n' then Some(Match(1, " ")) else None
  }

  /** The whole run of white space at the start of `s`, replaced by one space. */
  function WhitespaceAt(s: string): (r: Option<Match>)
    ensures r.Some? <==> s != [] && IsSpace(s[0])
    ensures r.Some? ==> r.value == Match(SpaceRun(s), " ")
  {
    var n := SpaceRun(s);
    if 0 < n then Some(Match(n, " ")) else None
  }

  /** The matcher of each rule. Only a character in `Triggers` can start a match,
      and every match consumes at least one character. */
  function Pattern(rule: Rule): (m: Matcher)
    ensures forall t :: m(t).Some? ==> 0 < m(t).value.length <= |t| && Triggers(rule, t[0])
  {
    match rule
    case CodeBlock => CodeBlockAt
    case Link => LinkAt
    case HtmlTag => HtmlTagAt
    case Strong => StrongAt
    case Emphasis => EmphasisAt
    case Heading => HeadingAt
    case Newline => NewlineAt
    case Whitespace => WhitespaceAt
  }

  /** No character of `s` can start a match of `rule`. */
  predicate FreeOf(rule: Rule, s: string) {
    forall i :: 0 <= i < |s| ==> !Triggers(rule, s[i])
  }

  lemma FreeOfJoin(rule: Rule, a: string, b: string)
    requires FreeOf(rule, a) && FreeOf(rule, b)
    ensures FreeOf(rule, a + b)
  {
    assert forall i :: 0 <= i < |a + b| ==> (a + b)[i] == if i < |a| then a[i] else b[i - |a|];
  }

  /** A stretch that contains no character a match can start with passes
      through a replacement unchanged. */
  lemma ReplaceAllClean(rule: Rule, a: string, b: string)
    requires FreeOf(rule, a)
    ensures ReplaceAll(Pattern(rule), a + b) == a + ReplaceAll(Pattern(rule), b)
  {
    forall k | 0 <= k < |a| ensures Pattern(rule)((a + b)[k..]).None? {
      assert (a + b)[k..][0] == a[k];
    }
    ReplaceAllSkip(Pattern(rule), a, b);
  }

  /** A replacement leaves a text that is free of the rule's start characters unchanged. */
  lemma ReplaceAllIdentity(rule: Rule, s: string)
    requires FreeOf(rule, s)
    ensures ReplaceAll(Pattern(rule), s) == s
  {
    ReplaceAllClean(rule, s, []);
    assert s + [] == s;
    assert ReplaceAll(Pattern(rule), []) == [];
  }
}
