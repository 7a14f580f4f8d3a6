/**
 `compileMarkdownFiles`: for every file of a directory, the record written
 as JSON next to the others. The table of contents is cut out of the file
 by searching for the two plain markers; the name of the JSON file is the
 file's name with its extension replaced by `.json`.
 */
module MarkdownCompiler {
  import opened Wrappers
  import opened Text

  /** The record serialised for each file. */
  datatype FileInfo = FileInfo(name: string, content: string, tocContent: string)

  /** The two markers, searched for literally. */
  const OpenTag := "<!-- TOC -->"
  const CloseTag := "<!-- /TOC -->"

  /** `String.prototype.indexOf`: the index of the first occurrence, or -1. */
  function IndexOf(s: string, pat: string): (r: int)
    ensures r == -1 || (0 <= r && OccursAt(s, pat, r))
    ensures r == -1 <==> (forall j :: 0 <= j <= |s| ==> !OccursAt(s, pat, j))
    ensures r >= 0 ==> forall j :: 0 <= j < r ==> !OccursAt(s, pat, j)
  {
    FindLeftmost(s, pat);
    match Find(s, pat)
    case Some(k) => k
    case None => -1
  }

  /** An index argument of `substring` brought into the text. */
  function Clamp(i: int, n: nat): (r: nat)
    ensures r <= n
    ensures 0 <= i <= n ==> r == i
    ensures i < 0 ==> r == 0
    ensures i > n ==> r == n
  {
    if i < 0 then 0 else if i > n then n else i
  }

  /** `String.prototype.substring`: both ends are clamped to the text and
      taken in increasing order. */
  function Substring(s: string, a: int, b: int): (r: string)
    ensures |r| <= |s|
    ensures 0 <= a <= b <= |s| ==> r == s[a..b]
    ensures 0 <= b <= a <= |s| ==> r == s[b..a]
  {
    var x := Clamp(a, |s|);
    var y := Clamp(b, |s|);
    if x <= y then s[x..y] else s[y..x]
  }

  /** The order of the two ends does not matter. */
  lemma SubstringSymmetric(s: string, a: int, b: int)
    ensures Substring(s, a, b) == Substring(s, b, a)
  {
  }

  /** `substring` with one argument: from there to the end. */
  function SubstringFrom(s: string, a: int): (r: string)
    ensures 0 <= a <= |s| ==> r == s[a..]
    ensures a > |s| ==> r == []
    ensures a < 0 ==> r == s
  {
    Substring(s, a, |s|)
  }

  /** The record cut out of `fc` around markers found at `start` and `end`:
      the body is taken from 13 characters after the opening marker, and the
      content resumes 12 characters after the closing one. */
  function Extract(name: string, fc: string, start: nat, end: nat): FileInfo {
    FileInfo(name, Substring(fc, 0, start) + SubstringFrom(fc, end + 12), Trim(Substring(fc, start + 13, end)))
  }

  /** The same with the offsets the markers' lengths call for. */
  function ExtractFixed(name: string, fc: string, start: nat, end: nat): FileInfo {
    FileInfo(name, Substring(fc, 0, start) + SubstringFrom(fc, end + |CloseTag|),
             Trim(Substring(fc, start + |OpenTag|, end)))
  }

  /** One file as the compiler handles it: when both markers occur, the
      table of contents starts 13 characters after the opening marker and the
      content resumes 12 characters after the closing marker. */
  function CompileFile(name: string, fc: string): (r: FileInfo)
    ensures r.name == name && NoOuterSpace(r.tocContent)
    ensures IndexOf(fc, OpenTag) == -1 || IndexOf(fc, CloseTag) == -1 ==> r.content == fc && r.tocContent == ""
  {
    var start := IndexOf(fc, OpenTag);
    var end := IndexOf(fc, CloseTag);
    if start != -1 && end != -1 then Extract(name, fc, start, end) else
      FileInfo(name, fc, "")
  }

  /** The same with the offsets the markers' lengths call for: 12 after the
      opening marker and 13 after the closing one. */
  function CompileFileFixed(name: string, fc: string): (r: FileInfo)
    ensures r.name == name && NoOuterSpace(r.tocContent)
    ensures IndexOf(fc, OpenTag) == -1 || IndexOf(fc, CloseTag) == -1 ==> r.content == fc && r.tocContent == ""
  {
    var start := IndexOf(fc, OpenTag);
    var end := IndexOf(fc, CloseTag);
    if start != -1 && end != -1 then ExtractFixed(name, fc, start, end) else
      FileInfo(name, fc, "")
  }

  /** The index of the last `.` of `f`, if it has one. */
  function LastDot(f: string): (r: Option<nat>)
    ensures r.Some? ==> r.value < |f| && f[r.value] == '.' && '.' !in f[r.value + 1..]
    ensures r.None? ==> '.' !in f
  {
    if f == [] then None
    else if f[|f| - 1] == '.' then Some(|f| - 1)
    else
      var r := LastDot(f[..|f| - 1]);
      assert f == f[..|f| - 1] + [f[|f| - 1]];
      r
  }

  /** `path.extname` of a file name without `/`: from the last `.` to the
      end, except that a name whose only dot is its first character, a name
      without a dot, and the name `..` have no extension. */
  function Extname(f: string): (r: string)
    ensures r == [] || (r[0] == '.' && '.' !in r[1..])
    ensures |r| <= |f| && r == f[|f| - |r|..]
    ensures f != [] ==> |r| < |f|
  {
    match LastDot(f)
    case None => ""
    case Some(k) => if k == 0 || f == ".." then "" else f[k..]
  }

  /** `path.basename` of the name with its own extension as the suffix to
      drop: the name without its extension. */
  function Stem(f: string): (r: string)
    ensures r + Extname(f) == f
    ensures f != [] ==> r != []
  {
    f[..|f| - |Extname(f)|]
  }

  /** The name of the JSON file written for `f`. */
  function JsonName(f: string): string {
    Stem(f) + ".json"
  }

  /** The whole run over a directory listing: for each file, in listing
      order, the JSON file name and the record written into it. */
  function CompileAll(files: seq<(string, string)>): (r: seq<(string, FileInfo)>)
    ensures |r| == |files|
    ensures forall i :: 0 <= i < |files| ==> r[i].1.name == files[i].0 && r[i].0 == JsonName(files[i].0)
    ensures forall i :: 0 <= i < |files| ==> r[i].1 == CompileFile(files[i].0, files[i].1)
  {
    if files == [] then []
    else [(JsonName(files[0].0), CompileFile(files[0].0, files[0].1))] + CompileAll(files[1..])
  }

  /** The same run with the corrected offsets. */
  function CompileAllFixed(files: seq<(string, string)>): (r: seq<(string, FileInfo)>)
    ensures |r| == |files|
    ensures forall i :: 0 <= i < |files| ==> r[i].1.name == files[i].0 && r[i].0 == JsonName(files[i].0)
    ensures forall i :: 0 <= i < |files| ==> r[i].1 == CompileFileFixed(files[i].0, files[i].1)
  {
    if files == [] then []
    else [(JsonName(files[0].0), CompileFileFixed(files[0].0, files[0].1))] + CompileAllFixed(files[1..])
  }
}
