/**
 `parseMarkdown`: the first table-of-contents block of a document, between an
 opening `<!-- TOC -->` and a closing `<!-- /TOC -->` marker, is split off.
 The markers allow any white space around the word and any letter case; the
 block's body is matched lazily, so it ends at the first closing marker.
 */
module MarkdownParser {
  import opened Wrappers
  import opened Text

  /** The two results of the split. */
  datatype Parsed = Parsed(content: string, tocContent: string)

  /** A marker is `<!--`, white space, a word, white space and `-->`. */
  const Open := "<!--"
  const Close := "-->"
  const OpenWord := "TOC"
  const CloseWord := "/TOC"

  /** The words a marker can carry. Neither starts with white space, so the
      greedy white space before the word can only end where the word starts,
      and a marker at a given position has one length or none. */
  predicate IsMarkerWord(w: string) {
    w == OpenWord || w == CloseWord
  }

  /** The length of the marker for `w` at the start of `s`, if one is there:
      the opening, all the white space after it, the word up to letter case,
      all the white space after that and the closing. */
  function MarkerLen(s: string, w: string): (r: Option<nat>)
    ensures r.Some? ==> 7 + |w| <= r.value <= |s|
  {
    if !StartsWith(s, Open) then None
    else WordThenClose(s, 4 + SpaceRun(s[4..]), w)
  }

  /** The word at `i`, then white space and the closing. */
  function WordThenClose(s: string, i: nat, w: string): (r: Option<nat>)
    requires i <= |s|
    ensures r.Some? ==> i + |w| + 3 <= r.value <= |s|
  {
    if !CiStartsWith(s[i..], w) then None
    else SpaceThenClose(s, i + |w|)
  }

  /** White space from `k`, then the closing. */
  function SpaceThenClose(s: string, k: nat): (r: Option<nat>)
    requires k <= |s|
    ensures r.Some? ==> k + 3 <= r.value <= |s|
  {
    var e := k + SpaceRun(s[k..]);
    if StartsWith(s[e..], Close) then Some(e + 3) else None
  }

  /** The pieces of a marker at the start of `s`: the opening, a run of `p`
      white-space characters not followed by another, the word up to letter
      case, a run of `q` white-space characters not followed by another, and
      the closing. */
  predicate MarkerPieces(s: string, w: string, p: nat, q: nat) {
    && StartsWith(s, Open) && 4 + p + |w| + q <= |s|
    && SpaceRun(s[4..]) == p && CiStartsWith(s[4 + p..], w)
    && SpaceRun(s[4 + p + |w|..]) == q && StartsWith(s[4 + p + |w| + q..], Close)
  }

  /** Pieces make a marker as long as they are together. */
  lemma MarkerLenAt(s: string, w: string, p: nat, q: nat)
    requires MarkerPieces(s, w, p, q)
    ensures MarkerLen(s, w) == Some(7 + p + |w| + q)
  {
    WordThenCloseAt(s, 4 + p, w, q);
  }

  lemma WordThenCloseAt(s: string, i: nat, w: string, q: nat)
    requires i + |w| + q <= |s| && CiStartsWith(s[i..], w)
    requires SpaceRun(s[i + |w|..]) == q && StartsWith(s[i + |w| + q..], Close)
    ensures WordThenClose(s, i, w) == Some(i + |w| + q + 3)
  {
    SpaceThenCloseAt(s, i + |w|, q);
  }

  lemma SpaceThenCloseAt(s: string, k: nat, q: nat)
    requires k + q <= |s| && SpaceRun(s[k..]) == q && StartsWith(s[k + q..], Close)
    ensures SpaceThenClose(s, k) == Some(k + q + 3)
  {
  }

  /** Conversely, every marker is made of such pieces. */
  lemma MarkerShape(s: string, w: string)
    requires MarkerLen(s, w).Some?
    ensures var p := SpaceRun(s[4..]);
            && 7 + p + |w| <= MarkerLen(s, w).value
            && MarkerPieces(s, w, p, MarkerLen(s, w).value - 7 - p - |w|)
  {
  }

  /** A marker does not look beyond its closing: what follows it does not
      change whether, or how long, it is recognised. */
  lemma MarkerExtends(o: string, w: string, r: string)
    requires MarkerLen(o, w) == Some(|o|)
    ensures MarkerLen(o + r, w) == Some(|o|)
  {
    var p := SpaceRun(o[4..]);
    MarkerShape(o, w);
    var q := |o| - 7 - p - |w|;
    PiecesExtend(o, w, p, q, r, o + r);
    MarkerLenAt(o + r, w, p, q);
  }

  lemma PiecesExtend(o: string, w: string, p: nat, q: nat, r: string, s: string)
    requires MarkerPieces(o, w, p, q) && 7 + p + |w| + q == |o| && s == o + r
    ensures MarkerPieces(s, w, p, q)
  {
    assert s[..4] == o[..4];
    SuffixExtend(o, r, s, 4);
    SpaceRunExtend(o[4..], r);
    assert s[4 + p..][..|w|] == o[4 + p..][..|w|];
    ClosingExtend(o, r, s, 4 + p + |w|, q);
  }

  lemma ClosingExtend(o: string, r: string, s: string, k: nat, q: nat)
    requires k + q + 3 == |o| && s == o + r && SpaceRun(o[k..]) == q && StartsWith(o[k + q..], Close)
    ensures SpaceRun(s[k..]) == q && StartsWith(s[k + q..], Close)
  {
    SuffixExtend(o, r, s, k);
    SpaceRunExtend(o[k..], r);
    assert s[k + q..][..3] == o[k + q..][..3];
  }

  lemma SuffixExtend(o: string, r: string, s: string, k: nat)
    requires k <= |o| && s == o + r
    ensures s[k..] == o[k..] + r
  {
  }

  /** The run of white space at the start of a text that does not consist
      of white space alone ends inside it. */
  lemma SpaceRunExtend(x: string, y: string)
    requires SpaceRun(x) < |x|
    ensures SpaceRun(x + y) == SpaceRun(x)
  {
    var n := SpaceRun(x);
    assert x + y == x[..n] + (x[n..] + y);
    assert (x[n..] + y)[0] == x[n];
    SpaceRunOf(x[..n], x[n..] + y);
  }

  /** Every text of that shape has a marker at its start, whatever follows:
      any white space, including none, around the word, and any letter case. */
  lemma MarkerAccepts(a: string, v: string, b: string, rest: string, w: string, s: string)
    requires IsMarkerWord(w) && AllSpace(a) && AllSpace(b) && CiEq(v, w)
    requires s == Open + (a + (v + (b + (Close + rest))))
    ensures MarkerPieces(s, w, |a|, |b|)
  {
    var z := Close + rest;
    var y := b + z;
    var x := v + y;
    var t := a + x;
    MarkerFront(s, t, x, y, z, a, v, b, rest, w);
    var k := 4 + |a| + |w|;
    MarkerBack(s, y, z, b, rest, k);
    PiecesOf(s, w, |a|, |b|, k);
  }

  /** The pieces, found one after the other, make a marker. */
  lemma PiecesOf(s: string, w: string, p: nat, q: nat, k: nat)
    requires StartsWith(s, Open) && k == 4 + p + |w| && k + q <= |s|
    requires SpaceRun(s[4..]) == p && CiStartsWith(s[4 + p..], w)
    requires SpaceRun(s[k..]) == q && StartsWith(s[k + q..], Close)
    ensures MarkerPieces(s, w, p, q)
  {
  }

  /** The opening and the word of a marker. */
  lemma MarkerFront(s: string, t: string, x: string, y: string, z: string,
                    a: string, v: string, b: string, rest: string, w: string)
    requires IsMarkerWord(w) && AllSpace(a) && CiEq(v, w)
    requires x == v + y && t == a + x && s == Open + t
    ensures StartsWith(s, Open) && 4 + |a| + |w| <= |s| && SpaceRun(s[4..]) == |a|
    ensures CiStartsWith(s[4 + |a|..], w) && s[4 + |a| + |w|..] == y
  {
    WordNotSpace(v, w);
    assert x[0] == v[0];
    MarkerOpening(s, t);
    SpaceRunOf(a, x);
    MarkerWord(s, a, x, v, y, w);
  }

  /** The white space and the closing of a marker. */
  lemma MarkerBack(s: string, y: string, z: string, b: string, rest: string, k: nat)
    requires AllSpace(b) && z == Close + rest && y == b + z && k <= |s| && s[k..] == y
    ensures k + |b| <= |s| && SpaceRun(s[k..]) == |b| && StartsWith(s[k + |b|..], Close)
  {
    ClosingNotSpace(z, rest);
    SpaceRunOf(b, z);
    MarkerClosing(s, k, y, b, z, rest);
  }

  lemma WordNotSpace(v: string, w: string)
    requires IsMarkerWord(w) && CiEq(v, w)
    ensures v != [] && !IsSpace(v[0])
  {
    assert Lower(v[0]) == Lower(w[0]);
  }

  lemma MarkerOpening(s: string, t: string)
    requires s == Open + t
    ensures StartsWith(s, Open) && s[4..] == t
  {
  }

  lemma MarkerWord(s: string, a: string, x: string, v: string, y: string, w: string)
    requires 4 <= |s| && s[4..] == a + x && x == v + y && CiEq(v, w)
    ensures 4 + |a| + |w| <= |s| && CiStartsWith(s[4 + |a|..], w) && s[4 + |a| + |w|..] == y
  {
    assert s[4 + |a|..] == x;
    assert x[..|w|] == v;
  }

  lemma ClosingNotSpace(z: string, rest: string)
    requires z == Close + rest
    ensures z != [] && !IsSpace(z[0]) && StartsWith(z, Close)
  {
    assert z[0] == '-';
  }

  lemma MarkerClosing(s: string, k: nat, y: string, b: string, z: string, rest: string)
    requires k <= |s| && s[k..] == y && y == b + z
    ensures k + |b| <= |s| && s[k + |b|..] == z
  {
    assert s[k + |b|..] == y[|b|..];
  }

  /** The opening and the closing marker at the start of a text. */
  function OpenMarker(s: string): (r: Option<nat>)
    ensures r.Some? ==> r.value <= |s|
  {
    MarkerLen(s, OpenWord)
  }

  function CloseMarker(s: string): (r: Option<nat>)
    ensures r.Some? ==> r.value <= |s|
  {
    MarkerLen(s, CloseWord)
  }

  /** A recognizer reports the length of what it recognises at the start of
      a text; it never reports more than the text holds. */
  ghost predicate Bounded(rec: string -> Option<nat>) {
    forall s :: rec(s).Some? ==> rec(s).value <= |s|
  }

  lemma MarkersBounded()
    ensures Bounded(OpenMarker) && Bounded(CloseMarker)
  {
  }

  /** Where a recognised stretch starts in a text and how long it is. */
  datatype Hit = Hit(at: nat, len: nat)

  /** The leftmost place where `rec` recognises something in `s`. */
  function FirstMatch(s: string, rec: string -> Option<nat>): (r: Option<Hit>)
    requires Bounded(rec)
    decreases |s|
    ensures r.Some? ==> r.value.at + r.value.len <= |s| && rec(s[r.value.at..]) == Some(r.value.len)
  {
    match rec(s)
    case Some(n) =>
      assert s[0..] == s;
      Some(Hit(0, n))
    case None =>
      if s == [] then None
      else
        match FirstMatch(s[1..], rec)
        case Some(h) =>
          assert s[1..][h.at..] == s[h.at + 1..];
          Some(Hit(h.at + 1, h.len))
        case None => None
  }

  /** `FirstMatch` reports the leftmost place, and nothing only when `rec`
      recognises nothing anywhere. */
  lemma {:induction false} FirstMatchLeftmost(s: string, rec: string -> Option<nat>)
    requires Bounded(rec)
    ensures FirstMatch(s, rec).Some? ==> forall k :: 0 <= k < FirstMatch(s, rec).value.at ==> rec(s[k..]).None?
    ensures FirstMatch(s, rec).None? ==> forall k :: 0 <= k <= |s| ==> rec(s[k..]).None?
    decreases |s|
  {
    assert s[0..] == s;
    if rec(s).None? && s != [] {
      FirstMatchLeftmost(s[1..], rec);
      forall k | 1 <= k <= |s| ensures s[k..] == s[1..][k - 1..] {
      }
    }
  }

  /** Conversely, a place where `rec` recognises something and nowhere
      before is what `FirstMatch` reports. */
  lemma {:induction false} FirstMatchAt(s: string, rec: string -> Option<nat>, h: Hit)
    requires Bounded(rec) && h.at <= |s| && rec(s[h.at..]) == Some(h.len)
    requires forall k :: 0 <= k < h.at ==> rec(s[k..]).None?
    ensures FirstMatch(s, rec) == Some(h)
    decreases h.at
  {
    assert s[0..] == s;
    if h.at > 0 {
      var t := s[1..];
      assert t[h.at - 1..] == s[h.at..];
      forall k | 0 <= k < h.at - 1 ensures rec(t[k..]).None? {
        assert t[k..] == s[k + 1..];
      }
      FirstMatchAt(t, rec, Hit(h.at - 1, h.len));
    }
  }

  /** And when `rec` recognises nothing anywhere, `FirstMatch` reports
      nothing. */
  lemma {:induction false} FirstMatchNone(s: string, rec: string -> Option<nat>)
    requires Bounded(rec) && forall k :: 0 <= k <= |s| ==> rec(s[k..]).None?
    ensures FirstMatch(s, rec).None?
    decreases |s|
  {
    assert s[0..] == s;
    if s != [] {
      var t := s[1..];
      forall k | 0 <= k <= |t| ensures rec(t[k..]).None? {
        assert t[k..] == s[k + 1..];
      }
      FirstMatchNone(t, rec);
    }
  }

  /** Where a block is: an opening marker of length `n` at `i` and a
      closing marker of length `m` at `j`. */
  datatype Block = Block(i: nat, n: nat, j: nat, m: nat)

  /** The first block delimited by `op` and `cl`: the leftmost opening, then
      the first closing after it. */
  function FindBlock(raw: string, op: string -> Option<nat>, cl: string -> Option<nat>): (r: Option<Block>)
    requires Bounded(op) && Bounded(cl)
    ensures r.Some? ==> r.value.i + r.value.n <= r.value.j && r.value.j + r.value.m <= |raw|
  {
    var o := FirstMatch(raw, op);
    if o.None? then None else CloseAfter(raw, o.value, cl)
  }

  function CloseAfter(raw: string, o: Hit, cl: string -> Option<nat>): (r: Option<Block>)
    requires Bounded(cl) && o.at + o.len <= |raw|
    ensures r.Some? ==> r.value.i + r.value.n <= r.value.j && r.value.j + r.value.m <= |raw|
  {
    var c := FirstMatch(raw[o.at + o.len..], cl);
    if c.None? then None else Some(Block(o.at, o.len, o.at + o.len + c.value.at, c.value.len))
  }

  /** The declarative reading of the pattern: `op` recognises `n` characters
      at `i` and nowhere before, and `cl` recognises `m` characters at `j`,
      the first place at or after `i + n` where it recognises anything. */
  ghost predicate IsBlock(s: string, op: string -> Option<nat>, cl: string -> Option<nat>, b: Block) {
    && b.i + b.n <= b.j <= |s|
    && op(s[b.i..]) == Some(b.n)
    && cl(s[b.j..]) == Some(b.m)
    && (forall k :: 0 <= k < b.i ==> op(s[k..]).None?)
    && (forall k :: b.i + b.n <= k < b.j ==> cl(s[k..]).None?)
  }

  /** `FindBlock` finds exactly the block of the declarative reading, and
      nothing when there is none. */
  lemma FindBlockSpec(raw: string, op: string -> Option<nat>, cl: string -> Option<nat>)
    requires Bounded(op) && Bounded(cl)
    ensures forall b :: FindBlock(raw, op, cl) == Some(b) <==> IsBlock(raw, op, cl, b)
  {
    var r := FindBlock(raw, op, cl);
    if r.None? {
      NoBlockFound(raw, op, cl);
    } else {
      BlockFound(raw, op, cl);
      forall b | IsBlock(raw, op, cl, b) ensures b == r.value {
        BlockUnique(raw, op, cl, b, r.value);
      }
    }
  }

  lemma NoBlockFound(raw: string, op: string -> Option<nat>, cl: string -> Option<nat>)
    requires Bounded(op) && Bounded(cl) && FindBlock(raw, op, cl).None?
    ensures forall b :: !IsBlock(raw, op, cl, b)
  {
    match FirstMatch(raw, op)
    case None =>
      NoOpenNoBlock(raw, op, cl);
    case Some(o) =>
      NoCloseNoBlock(raw, op, cl, o);
  }

  lemma BlockFound(raw: string, op: string -> Option<nat>, cl: string -> Option<nat>)
    requires Bounded(op) && Bounded(cl) && FindBlock(raw, op, cl).Some?
    ensures IsBlock(raw, op, cl, FindBlock(raw, op, cl).value)
  {
    var o := FirstMatch(raw, op).value;
    var c := FirstMatch(raw[o.at + o.len..], cl).value;
    ScanFindsBlock(raw, op, cl, o, c);
  }

  lemma NoOpenNoBlock(raw: string, op: string -> Option<nat>, cl: string -> Option<nat>)
    requires Bounded(op) && Bounded(cl) && FirstMatch(raw, op).None?
    ensures forall b :: !IsBlock(raw, op, cl, b)
  {
    FirstMatchLeftmost(raw, op);
  }

  lemma NoCloseNoBlock(raw: string, op: string -> Option<nat>, cl: string -> Option<nat>, o: Hit)
    requires Bounded(op) && Bounded(cl) && FirstMatch(raw, op) == Some(o)
    requires FirstMatch(raw[o.at + o.len..], cl).None?
    ensures forall b :: !IsBlock(raw, op, cl, b)
  {
    var t := raw[o.at + o.len..];
    FirstHit(raw, op, o);
    FirstMatchLeftmost(t, cl);
    NoCloseAfter(raw, op, cl, o.at, o.len, t);
  }

  lemma NoCloseAfter(raw: string, op: string -> Option<nat>, cl: string -> Option<nat>, at: nat, n: nat, t: string)
    requires at + n <= |raw| && op(raw[at..]) == Some(n) && forall k :: 0 <= k < at ==> op(raw[k..]).None?
    requires t == raw[at + n..] && forall k :: 0 <= k <= |t| ==> cl(t[k..]).None?
    ensures forall b :: !IsBlock(raw, op, cl, b)
  {
    forall b ensures !IsBlock(raw, op, cl, b) {
      SuffixShift(raw, at + n, b.j);
    }
  }

  lemma ScanFindsBlock(raw: string, op: string -> Option<nat>, cl: string -> Option<nat>, o: Hit, c: Hit)
    requires Bounded(op) && Bounded(cl) && FirstMatch(raw, op) == Some(o)
    requires FirstMatch(raw[o.at + o.len..], cl) == Some(c)
    ensures IsBlock(raw, op, cl, Block(o.at, o.len, o.at + o.len + c.at, c.len))
  {
    FirstHit(raw, op, o);
    FirstHit(raw[o.at + o.len..], cl, c);
    BlockFromHits(raw, op, cl, o, c, raw[o.at + o.len..]);
  }

  /** What a hit of `FirstMatch` says. */
  lemma FirstHit(s: string, rec: string -> Option<nat>, h: Hit)
    requires Bounded(rec) && FirstMatch(s, rec) == Some(h)
    ensures h.at + h.len <= |s| && rec(s[h.at..]) == Some(h.len)
    ensures forall k :: 0 <= k < h.at ==> rec(s[k..]).None?
  {
    FirstMatchLeftmost(s, rec);
  }

  lemma BlockFromHits(raw: string, op: string -> Option<nat>, cl: string -> Option<nat>, o: Hit, c: Hit, t: string)
    requires o.at + o.len + c.at + c.len <= |raw| && t == raw[o.at + o.len..]
    requires op(raw[o.at..]) == Some(o.len) && forall k :: 0 <= k < o.at ==> op(raw[k..]).None?
    requires cl(t[c.at..]) == Some(c.len) && forall k :: 0 <= k < c.at ==> cl(t[k..]).None?
    ensures IsBlock(raw, op, cl, Block(o.at, o.len, o.at + o.len + c.at, c.len))
  {
    SuffixShift(raw, o.at + o.len, o.at + o.len + c.at);
    ScanGap(raw, cl, o.at + o.len, c.at);
  }

  /** No closing is recognised between the opening and the first closing
      found after it. */
  lemma ScanGap(raw: string, cl: string -> Option<nat>, start: nat, at: nat)
    requires start + at <= |raw|
    requires forall k :: 0 <= k < at ==> cl(raw[start..][k..]).None?
    ensures forall k :: start <= k < start + at ==> cl(raw[k..]).None?
  {
    forall k | start <= k < start + at ensures cl(raw[k..]).None? {
      SuffixShift(raw, start, k);
    }
  }

  /** A suffix of a suffix is a suffix. */
  lemma SuffixShift(s: string, a: int, b: int)
    ensures 0 <= a <= b <= |s| ==> s[b..] == s[a..][b - a..]
  {
  }

  /** There is at most one block. */
  lemma BlockUnique(s: string, op: string -> Option<nat>, cl: string -> Option<nat>, b: Block, b': Block)
    requires IsBlock(s, op, cl, b) && IsBlock(s, op, cl, b')
    ensures b == b'
  {
  }

  /** The result for a block: the trimmed text around it and its trimmed body. */
  function Around(raw: string, b: Block): (r: Parsed)
    requires b.i + b.n <= b.j && b.j + b.m <= |raw|
    ensures NoOuterSpace(r.content) && NoOuterSpace(r.tocContent)
  {
    Parsed(Trim(Outside(raw, b)), Trim(Inside(raw, b)))
  }

  /** The text before and after a block, joined. */
  function Outside(raw: string, b: Block): string
    requires b.i + b.n <= b.j && b.j + b.m <= |raw|
  {
    raw[..b.i] + raw[b.j + b.m..]
  }

  /** The body of a block, between its markers. */
  function Inside(raw: string, b: Block): string
    requires b.i + b.n <= b.j && b.j + b.m <= |raw|
  {
    raw[b.i + b.n..b.j]
  }

  /** `parseMarkdown`. Without a complete block the document comes back
      untouched, not even trimmed. With one, the block's body, trimmed, is the
      table of contents, and the text before and after the block, joined and
      trimmed, is the content. */
  function ParseMarkdown(raw: string): (r: Parsed)
    ensures FindBlock(raw, OpenMarker, CloseMarker).None? ==> r == Parsed(raw, "")
    ensures FindBlock(raw, OpenMarker, CloseMarker).Some? ==> NoOuterSpace(r.tocContent) && NoOuterSpace(r.content)
  {
    MarkersBounded();
    match FindBlock(raw, OpenMarker, CloseMarker)
    case None => Parsed(raw, "")
    case Some(b) => Around(raw, b)
  }

  /** `ParseMarkdown` agrees with the declarative reading: without a block the
      document is returned as it is with an empty table of contents; with a
      block, the table of contents is its trimmed body and the content is the
      trimmed text around it, so only that one block is taken out. */
  lemma ParseMarkdownSpec(raw: string)
    ensures (forall b :: !IsBlock(raw, OpenMarker, CloseMarker, b)) ==> ParseMarkdown(raw) == Parsed(raw, "")
    ensures forall b :: IsBlock(raw, OpenMarker, CloseMarker, b) ==> ParseMarkdown(raw) == Around(raw, b)
  {
    MarkersBounded();
    FindBlockSpec(raw, OpenMarker, CloseMarker);
  }

  /** With a block found, the result is the split around it. */
  lemma ParseFound(raw: string, b: Block)
    requires FindBlock(raw, OpenMarker, CloseMarker) == Some(b)
    ensures b.i + b.n <= b.j && b.j + b.m <= |raw| && ParseMarkdown(raw) == Around(raw, b)
  {
  }
}
