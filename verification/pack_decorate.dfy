/** The DECORATE packer: every line of every file of the DECORATE include
    trees that is not blank, a comment or an `#include`, trimmed, in walk
    order, gathered into one `decorate.g.txt` behind a header; each packed
    file is deleted. */
module PackDecorate {
  import opened Common
  import opened Text
  import opened FileSystem
  import opened DecorateContext
  import opened Buffers
  import opened ProjectContexts

  /** `_fileHeader`: a fixed block of comment lines whose wording the model
      does not fix. */
  const Header: string

  const OutputName: string := "decorate.g.txt"

  // ---- The line filter ----

  /** The regex class `\w`, on ASCII. */
  predicate IsWordChar(c: char) {
    'a' <= c <= 'z' || 'A' <= c <= 'Z' || IsDigit(c) || c == '_'
  }

  /** The characters allowed inside a dropped block comment: word characters,
      parentheses, double quotes, commas, full stops and white space. */
  predicate IsCommentChar(c: char) {
    IsWordChar(c) || c == '(' || c == ')' || c == '"' || c == ',' || c == '.' || IsWhiteSpace(c)
  }

  /** The characters of an included path: word characters, both slashes and full stops. */
  predicate IsPathChar(c: char) {
    IsWordChar(c) || c == '/' || c == '\\' || c == '.'
  }

  /** Length of the longest prefix of `s` made of white space. */
  function LeadingSpace(s: string): (n: nat)
    ensures n <= |s|
    ensures forall i :: 0 <= i < n ==> IsWhiteSpace(s[i])
    ensures n == |s| || !IsWhiteSpace(s[n])
  {
    if |s| > 0 && IsWhiteSpace(s[0]) then 1 + LeadingSpace(s[1..]) else 0
  }

  /** Length of the longest prefix of `s` made of comment characters. */
  function CommentRun(s: string): (n: nat)
    ensures n <= |s|
    ensures forall i :: 0 <= i < n ==> IsCommentChar(s[i])
    ensures n == |s| || !IsCommentChar(s[n])
  {
    if |s| > 0 && IsCommentChar(s[0]) then 1 + CommentRun(s[1..]) else 0
  }

  /** Length of the longest prefix of `s` made of path characters. */
  function PathRun(s: string): (n: nat)
    ensures n <= |s|
    ensures forall i :: 0 <= i < n ==> IsPathChar(s[i])
    ensures n == |s| || !IsPathChar(s[n])
  {
    if |s| > 0 && IsPathChar(s[0]) then 1 + PathRun(s[1..]) else 0
  }

  /** A block-comment opening, comment characters, then a block-comment
      closing, at the start of `t`. */
  predicate BlockCommentAt(t: string) {
    StartsWith(t, "/*") && StartsWith(t[2 + CommentRun(t[2..])..], "*/")
  }

  /** `_commentWhitelineRegex.IsMatch(line)` on a line without breaks: after
      the leading white space comes the end, `//`, or a restricted block comment. */
  predicate IsCommentOrBlank(line: string) {
    var t := line[LeadingSpace(line)..];
    t == [] || StartsWith(t, "//") || BlockCommentAt(t)
  }

  const IncludeOpening: string := "#include \""

  /** `#include "`, one or more path characters and `"`, at the start of `t`,
      the directive's letters in any case. */
  predicate IncludeAt(t: string) {
    StartsWithIgnoreCase(t, IncludeOpening)
    && var rest := t[|IncludeOpening|..];
    var n := PathRun(rest);
    0 < n < |rest| && rest[n] == '"'
  }

  /** `_includeRegex.IsMatch(line)`: an include directive anywhere in the line. */
  predicate HasInclude(line: string) {
    exists i :: 0 <= i <= |line| && IncludeAt(line[i..])
  }

  /** The condition of `FilterEmptyCommentedOrIncludingLines`. */
  predicate Kept(line: string) {
    !IsCommentOrBlank(line) && !HasInclude(line)
  }

  /** The filtered lines of a text, each trimmed, in their order. */
  function KeptLines(lines: seq<string>): (kept: seq<string>)
    ensures |kept| <= |lines|
  {
    if lines == [] then []
    else
      var init := KeptLines(lines[..|lines| - 1]);
      var last := lines[|lines| - 1];
      if Kept(last) then init + [Trim(last)] else init
  }

  // ---- The filter read as the patterns are written ----

  predicate AllWhiteSpace(s: string) { forall i :: 0 <= i < |s| ==> IsWhiteSpace(s[i]) }

  predicate AllCommentChars(s: string) { forall i :: 0 <= i < |s| ==> IsCommentChar(s[i]) }

  predicate AllPathChars(s: string) { forall i :: 0 <= i < |s| ==> IsPathChar(s[i]) }

  /** A block comment of comment characters opens at `k` and closes at `j`. */
  predicate BlockCommentSpan(line: string, k: int, j: int) {
    0 <= k && k + 2 <= j <= |line| - 2 && line[k..k + 2] == "/*" &&
    AllCommentChars(line[k + 2..j]) && line[j..j + 2] == "*/"
  }

  /** The comment pattern matches with its white space ending at `k`: white
      space then `//`, white space then a block comment of comment
      characters, or white space to the end of the line. */
  ghost predicate CommentSplitAt(line: string, k: int) {
    0 <= k <= |line| && AllWhiteSpace(line[..k]) &&
    (k == |line| || StartsWith(line[k..], "//") || exists j :: BlockCommentSpan(line, k, j))
  }

  /** The comment pattern anchored at the start of a line without breaks,
      with the split points chosen freely. */
  ghost predicate CommentPatternMatches(line: string) {
    exists k :: CommentSplitAt(line, k)
  }

  /** `#include "` at `i`, path characters up to `j`, and `"` at `j`. */
  predicate IncludeSpan(line: string, i: int, j: int) {
    0 <= i && i + |IncludeOpening| < j < |line| &&
    StartsWithIgnoreCase(line[i..], IncludeOpening) &&
    AllPathChars(line[i + |IncludeOpening|..j]) && line[j] == '"'
  }

  /** The include pattern found anywhere, with the split points chosen freely. */
  ghost predicate IncludePatternMatches(line: string) {
    exists i, j :: IncludeSpan(line, i, j)
  }

  /** The white-space split point of a match is the end of the leading white space. */
  lemma SplitPointIsLeadingSpace(line: string, k: nat)
    requires k <= |line| && AllWhiteSpace(line[..k])
    requires k == |line| || !IsWhiteSpace(line[k])
    ensures k == LeadingSpace(line)
  {
    assert forall i :: 0 <= i < k ==> IsWhiteSpace(line[i]) by {
      forall i | 0 <= i < k ensures IsWhiteSpace(line[i]) {
        assert line[..k][i] == line[i];
      }
    }
  }

  /** A run of comment characters followed by `*` is the longest such run. */
  lemma CommentRunEndsAtStar(line: string, start: nat, j: nat)
    requires start <= j < |line|
    requires AllCommentChars(line[start..j]) && line[j] == '*'
    ensures CommentRun(line[start..]) == j - start
  {
    assert forall i :: 0 <= i < j - start ==> IsCommentChar(line[start..][i]) by {
      forall i | 0 <= i < j - start ensures IsCommentChar(line[start..][i]) {
        assert line[start..j][i] == line[start..][i];
      }
    }
  }

  /** A run of path characters followed by `"` is the longest such run. */
  lemma PathRunEndsAtQuote(line: string, start: nat, j: nat)
    requires start <= j < |line|
    requires AllPathChars(line[start..j]) && line[j] == '"'
    ensures PathRun(line[start..]) == j - start
  {
    assert forall i :: 0 <= i < j - start ==> IsPathChar(line[start..][i]) by {
      forall i | 0 <= i < j - start ensures IsPathChar(line[start..][i]) {
        assert line[start..j][i] == line[start..][i];
      }
    }
  }

  /** A block comment the scanner sees at `k` is a span of the pattern. */
  lemma BlockCommentAtSpan(line: string, k: nat)
    requires k <= |line| && BlockCommentAt(line[k..])
    ensures BlockCommentSpan(line, k, k + 2 + CommentRun(line[k + 2..]))
  {
    var t := line[k..];
    assert t[2..] == line[k + 2..];
    var j := k + 2 + CommentRun(line[k + 2..]);
    assert t[2 + CommentRun(t[2..])..] == line[j..];
    assert line[k + 2..j] == line[k + 2..][..CommentRun(line[k + 2..])];
    assert line[j..j + 2] == line[j..][..2];
    assert line[k..k + 2] == t[..2];
  }

  /** A span of the pattern is the block comment the scanner sees. */
  lemma SpanIsBlockCommentAt(line: string, k: nat, j: nat)
    requires BlockCommentSpan(line, k, j)
    ensures BlockCommentAt(line[k..])
  {
    var t := line[k..];
    assert line[j] == line[j..j + 2][0];
    CommentRunEndsAtStar(line, k + 2, j);
    assert t[2..] == line[k + 2..];
    assert t[..2] == line[k..k + 2];
    assert t[2 + CommentRun(t[2..])..][..2] == line[j..j + 2];
  }

  /** When the scanner drops a line, the pattern matches at the end of the
      leading white space. */
  lemma CommentScannerToPattern(line: string)
    requires IsCommentOrBlank(line)
    ensures CommentSplitAt(line, LeadingSpace(line))
  {
    var k := LeadingSpace(line);
    assert AllWhiteSpace(line[..k]);
    if k < |line| && !StartsWith(line[k..], "//") {
      BlockCommentAtSpan(line, k);
    }
  }

  /** When the pattern matches, the scanner drops the line. */
  lemma CommentPatternToScanner(line: string, k: nat)
    requires CommentSplitAt(line, k)
    ensures IsCommentOrBlank(line)
  {
    if k < |line| {
      if StartsWith(line[k..], "//") {
        assert line[k] == line[k..][..2][0];
      } else {
        var j :| BlockCommentSpan(line, k, j);
        assert line[k] == line[k..k + 2][0];
        SpanIsBlockCommentAt(line, k, j);
      }
    }
    SplitPointIsLeadingSpace(line, k);
  }

  /** The scanner drops a line exactly when the comment pattern matches it. */
  lemma CommentScannerMatchesPattern(line: string)
    ensures IsCommentOrBlank(line) <==> CommentPatternMatches(line)
  {
    if IsCommentOrBlank(line) {
      CommentScannerToPattern(line);
    }
    if CommentPatternMatches(line) {
      var k :| CommentSplitAt(line, k);
      CommentPatternToScanner(line, k);
    }
  }

  /** An include directive the scanner sees at `i` is a span of the pattern. */
  lemma IncludeAtSpan(line: string, i: nat)
    requires i <= |line| && IncludeAt(line[i..])
    ensures IncludeSpan(line, i, i + |IncludeOpening| + PathRun(line[i + |IncludeOpening|..]))
  {
    var m := |IncludeOpening|;
    var rest := line[i..][m..];
    assert rest == line[i + m..];
    var n := PathRun(rest);
    assert line[i + m..i + m + n] == rest[..n];
    assert line[i + m + n] == rest[n];
  }

  /** A span of the pattern is an include directive the scanner sees. */
  lemma SpanIsIncludeAt(line: string, i: nat, j: nat)
    requires IncludeSpan(line, i, j)
    ensures IncludeAt(line[i..])
  {
    var m := |IncludeOpening|;
    PathRunEndsAtQuote(line, i + m, j);
    assert line[i..][m..] == line[i + m..];
  }

  /** The scanner finds an include exactly when the include pattern matches. */
  lemma IncludeScannerMatchesPattern(line: string)
    ensures HasInclude(line) <==> IncludePatternMatches(line)
  {
    if HasInclude(line) {
      var i :| 0 <= i <= |line| && IncludeAt(line[i..]);
      IncludeAtSpan(line, i);
    }
    if IncludePatternMatches(line) {
      var i, j :| IncludeSpan(line, i, j);
      SpanIsIncludeAt(line, i, j);
    }
  }

  /** An include span inside a piece of a line is an include span of the line. */
  lemma IncludeSpanInside(line: string, off: nat, piece: string, i: nat, j: nat)
    requires off + |piece| <= |line| && piece == line[off..off + |piece|]
    requires IncludeSpan(piece, i, j)
    ensures IncludeSpan(line, off + i, off + j)
  {
    var m := |IncludeOpening|;
    assert forall x :: 0 <= x < |piece| ==> piece[x] == line[off + x];
    assert StartsWithIgnoreCase(line[off + i..], IncludeOpening);
    SliceOfPiece(line, off, piece, i + m, j);
    assert piece[j] == line[off + j];
  }

  /** A slice of a piece of a line is the matching slice of the line. */
  lemma SliceOfPiece(line: string, off: nat, piece: string, a: nat, b: nat)
    requires off + |piece| <= |line| && piece == line[off..off + |piece|]
    requires a <= b <= |piece|
    ensures piece[a..b] == line[off + a..off + b]
  {
    var p, q := piece[a..b], line[off + a..off + b];
    assert |p| == |q|;
    forall x | 0 <= x < |p| ensures p[x] == q[x] {
      assert p[x] == piece[a + x] == line[off + a + x];
    }
  }

  // ---- What a kept line looks like ----

  /** `Trim` keeps a slice of the line that starts after the leading white space. */
  lemma TrimIsSlice(line: string)
    ensures LeadingSpace(line) + |Trim(line)| <= |line|
    ensures Trim(line) == line[LeadingSpace(line)..LeadingSpace(line) + |Trim(line)|]
    ensures Trim(line) == [] ==> LeadingSpace(line) == |line|
  {
    var t := TrimStart(line);
    TrimStartFacts(line);
    TrimEndFacts(t);
    SplitPointIsLeadingSpace(line, |line| - |t|);
  }

  /** A kept line is trimmed, non-empty and not a `//` comment. */
  lemma KeptLineNotComment(line: string)
    requires Kept(line)
    ensures Trim(line) != [] && IsTrimmed(Trim(line)) && !StartsWith(Trim(line), "//")
  {
    TrimFacts(line);
    TrimIsSlice(line);
    var k := Trim(line);
    var t := line[LeadingSpace(line)..];
    assert k == t[..|k|];
    assert |k| >= 2 ==> t[..2] == k[..2];
  }

  /** An include directive in a piece of a line is one in the line. */
  lemma IncludeInPiece(line: string, off: nat, piece: string)
    requires off + |piece| <= |line| && piece == line[off..off + |piece|]
    requires HasInclude(piece)
    ensures HasInclude(line)
  {
    IncludeScannerMatchesPattern(piece);
    var i: nat, j: nat :| IncludeSpan(piece, i, j);
    IncludeSpanInside(line, off, piece, i, j);
    assert IncludePatternMatches(line);
    IncludeScannerMatchesPattern(line);
  }

  /** A kept line is trimmed, non-empty, not a `//` comment, holds no
      include directive and, like every split line, no line break. */
  lemma KeptLineShape(line: string)
    requires Kept(line) && '\n' !in line && '\r' !in line
    ensures var k := Trim(line);
      k != [] && IsTrimmed(k) && !StartsWith(k, "//") && !HasInclude(k) && '\n' !in k && '\r' !in k
  {
    KeptLineNotComment(line);
    if HasInclude(Trim(line)) {
      TrimIsSlice(line);
      IncludeInPiece(line, LeadingSpace(line), Trim(line));
    }
    TrimKeepsAbsent(line, '\n');
    TrimKeepsAbsent(line, '\r');
  }

  /** The kept lines are the trimmed lines that pass the filter, and only those. */
  lemma {:induction false} KeptLinesExact(lines: seq<string>, k: string)
    ensures k in KeptLines(lines) <==> exists l :: l in lines && Kept(l) && k == Trim(l)
  {
    if lines != [] {
      var init := lines[..|lines| - 1];
      KeptLinesExact(init, k);
      assert lines == init + [lines[|lines| - 1]];
      assert forall l :: l in init ==> l in lines;
    }
  }

  // ---- Packing ----

  /** What `RecursiveProcessDecorateFile` appends for one file: the kept
      lines joined by line breaks, then one line break. */
  function PackedText(f: DecorateFile): (s: string)
    ensures EndsWith(s, NewLine)
  {
    var s := Join(NewLine, KeptLines(SplitLines(f.content))) + NewLine;
    assert s[|s| - |NewLine|..] == NewLine;
    s
  }

  /** The path `RecursiveProcessDecorateFile` deletes for one file. */
  function PackedPath(paths: PathOps): DecorateFile -> seq<string> {
    (f: DecorateFile) => [paths.join(f.absoluteFolderPath, f.name)]
  }

  /** The text of one file, one call of `AppendJoin`. */
  method AppendJoin(sep: string, parts: seq<string>, sb: StringBuilder)
    modifies sb
    ensures sb.text == old(sb.text) + Join(sep, parts)
  {
    if |parts| == 0 {
      return;
    }
    sb.Append(parts[0]);
    for i := 1 to |parts|
      invariant sb.text == old(sb.text) + JoinFrom(sep, parts, i)
    {
      ghost var before := sb.text;
      sb.Append(sep);
      sb.Append(parts[i]);
      AppendAssoc(before, sep, parts[i]);
      JoinFromStep(sep, parts, i);
    }
    JoinFromAll(sep, parts);
  }

  /** The first `n` parts joined. */
  function JoinFrom(sep: string, parts: seq<string>, n: nat): string
    requires 1 <= n <= |parts|
  {
    if n == 1 then parts[0] else JoinFrom(sep, parts, n - 1) + (sep + parts[n - 1])
  }

  lemma JoinFromStep(sep: string, parts: seq<string>, i: nat)
    requires 1 <= i < |parts|
    ensures JoinFrom(sep, parts, i + 1) == JoinFrom(sep, parts, i) + (sep + parts[i])
  {
  }

  /** Joining all parts from the left agrees with `Join`. */
  lemma {:induction false} JoinFromAll(sep: string, parts: seq<string>)
    requires |parts| >= 1
    ensures JoinFrom(sep, parts, |parts|) == Join(sep, parts)
  {
    if |parts| > 1 {
      JoinFromAll(sep, parts[1..]);
      JoinFromShift(sep, parts, |parts|);
    }
  }

  /** Joining the first `n` parts is the first part, then the separator and
      the next `n - 1` parts joined. */
  lemma {:induction false} JoinFromShift(sep: string, parts: seq<string>, n: nat)
    requires 2 <= n <= |parts|
    ensures JoinFrom(sep, parts, n) == parts[0] + sep + JoinFrom(sep, parts[1..], n - 1)
  {
    if n > 2 {
      JoinFromShift(sep, parts, n - 1);
      assert parts[1..][n - 2] == parts[n - 1];
    }
  }

  /** The files `RecursiveProcessDecorateFile` deletes for a walk. */
  function Deleted(ps: seq<string>): set<string> {
    set p | p in ps
  }

  lemma DeletedAppend(a: seq<string>, b: seq<string>)
    ensures Deleted(a + b) == Deleted(a) + Deleted(b)
  {
  }

  /** Deleting the files of one more walk: the step of a loop over included files. */
  lemma DeletedStep(fs: seq<DecorateFile>, i: nat, own: DecorateFile -> seq<string>, m: Files, before: Files, after: Files)
    requires i < |fs|
    requires before == m - Deleted(WalkAll(fs[..i], own))
    requires after == before - Deleted(Walk(fs[i], own))
    ensures after == m - Deleted(WalkAll(fs[..i + 1], own))
  {
    assert fs[..i + 1][..i] == fs[..i];
    DeletedAppend(WalkAll(fs[..i], own), Walk(fs[i], own));
  }

  /** Deleting a file's own path and then the files of its includes. */
  lemma DeletedTree(f: DecorateFile, own: DecorateFile -> seq<string>, m: Files, after: Files)
    requires f.includedFiles.Included?
    requires after == m - Deleted(own(f)) - Deleted(WalkAll(f.includedFiles.files, own))
    ensures after == m - Deleted(Walk(f, own))
  {
    DeletedAppend(own(f), WalkAll(f.includedFiles.files, own));
  }

  /** The disk the packer deletes the packed files from. */
  class FileStore {
    var files: Files

    constructor (files: Files)
      ensures this.files == files
    {
      this.files := files;
    }

    /** `File.Delete`: removes the file, and does nothing when there is none. */
    method Delete(path: string)
      modifies this
      ensures files == old(files) - {path}
    {
      files := files - {path};
    }
  }

  /** `RecursiveProcessDecorateFile`: appends the file's kept lines and a
      line break, deletes the file, then does the same for every file it
      includes, in list order. */
  method RecursiveProcessDecorateFile(paths: PathOps, file: DecorateFile, sb: StringBuilder, store: FileStore)
    modifies sb, store
    ensures sb.text == old(sb.text) + Walk(file, PackedText)
    ensures store.files == old(store.files) - Deleted(Walk(file, PackedPath(paths)))
    decreases file
  {
    var lines := SplitLines(file.content);
    var filteredLines := KeptLines(lines);
    AppendJoin(NewLine, filteredLines, sb);
    sb.AppendNewLine();
    var filePath := paths.join(file.absoluteFolderPath, file.name);
    store.Delete(filePath);
    ghost var start := sb.text;
    ghost var startFiles := store.files;
    ghost var deleting := PackedPath(paths);
    assert start == old(sb.text) + PackedText(file);
    assert startFiles == old(store.files) - Deleted(deleting(file));
    if file.includedFiles.Unparsed? {
      assert Walk(file, PackedText) == PackedText(file) + [];
      assert Walk(file, deleting) == deleting(file) + [];
      return;
    }
    var children := file.includedFiles.files;
    for i := 0 to |children|
      invariant sb.text == start + WalkAll(children[..i], PackedText)
      invariant store.files == startFiles - Deleted(WalkAll(children[..i], deleting))
    {
      ghost var before := sb.text;
      ghost var beforeFiles := store.files;
      RecursiveProcessDecorateFile(paths, children[i], sb, store);
      WalkAllStep(children, i, PackedText, start, before, sb.text);
      DeletedStep(children, i, deleting, startFiles, beforeFiles, store.files);
    }
    assert children[..|children|] == children;
    AppendAssoc(old(sb.text), PackedText(file), WalkAll(children, PackedText));
    DeletedTree(file, deleting, old(store.files), store.files);
  }

  /** The file `PackDecorateForProjectAsync` writes: its path and text. */
  datatype PackedFile = PackedFile(path: string, text: string)

  function RootFiles(project: ProjectContext): seq<DecorateFile> {
    match project.mainDecorateFiles
    case None => []
    case Some(fs) => fs
  }

  /** `PackDecorateForProjectAsync` up to the write: nothing without root
      files or packed text, otherwise the header, a blank line and the
      packed text, to `decorate.g.txt` in the project folder. */
  function Packed(paths: PathOps, project: ProjectContext): (r: Option<PackedFile>)
    ensures project.mainDecorateFiles.None? ==> r.None?
    ensures r.None? <==> WalkAll(RootFiles(project), PackedText) == []
    ensures r.Some? ==> r.value == PackedFile(paths.join(project.projectPath, OutputName),
      Header + NewLine + NewLine + WalkAll(RootFiles(project), PackedText))
  {
    var body := WalkAll(RootFiles(project), PackedText);
    if project.mainDecorateFiles.None? || body == [] then None
    else Some(PackedFile(paths.join(project.projectPath, OutputName), Header + NewLine + NewLine + body))
  }

  /** `PackDecorateForProjectAsync` with its buffer and the deletions. */
  method PackDecorateForProject(paths: PathOps, project: ProjectContext, store: FileStore) returns (r: Option<PackedFile>)
    modifies store
    ensures r == Packed(paths, project)
    ensures store.files == old(store.files) - Deleted(WalkAll(RootFiles(project), PackedPath(paths)))
  {
    if project.mainDecorateFiles.None? {
      return None;
    }
    var decorateFiles := project.mainDecorateFiles.value;
    var sb := new StringBuilder();
    ghost var deleting := PackedPath(paths);
    for i := 0 to |decorateFiles|
      invariant sb.text == WalkAll(decorateFiles[..i], PackedText)
      invariant store.files == old(store.files) - Deleted(WalkAll(decorateFiles[..i], deleting))
    {
      ghost var before := sb.text;
      ghost var beforeFiles := store.files;
      RecursiveProcessDecorateFile(paths, decorateFiles[i], sb, store);
      WalkAllStep(decorateFiles, i, PackedText, [], before, sb.text);
      assert [] + WalkAll(decorateFiles[..i + 1], PackedText) == WalkAll(decorateFiles[..i + 1], PackedText);
      DeletedStep(decorateFiles, i, deleting, old(store.files), beforeFiles, store.files);
    }
    assert decorateFiles[..|decorateFiles|] == decorateFiles;
    if |sb.text| == 0 {
      return None;
    }
    sb.Prepend(Header + NewLine + NewLine);
    return Some(PackedFile(paths.join(project.projectPath, OutputName), sb.text));
  }

  /** `RunAsync`: nothing on cancellation or when packing is switched off,
      the missing-project exception, or the packed file. */
  method RunPackDecorate(paths: PathOps, cancelled: bool, packDecorate: bool, project: Option<ProjectContext>, store: FileStore)
    returns (r: Result<Option<PackedFile>>)
    modifies store
    ensures cancelled || !packDecorate ==> r == Ok(None) && store.files == old(store.files)
    ensures r.Err? <==> !cancelled && packDecorate && project.None?
    ensures r.Err? ==> r.error == ProjectContextMissing && store.files == old(store.files)
    ensures !cancelled && packDecorate && project.Some? ==>
      && r == Ok(Packed(paths, project.value))
      && store.files == old(store.files) - Deleted(WalkAll(RootFiles(project.value), PackedPath(paths)))
  {
    if cancelled || !packDecorate {
      return Ok(None);
    }
    if project.None? {
      return Err(ProjectContextMissing);
    }
    var packed := PackDecorateForProject(paths, project.value, store);
    return Ok(packed);
  }

  // ---- What the packed file promises ----

  /** Every file adds at least one line break, so the packed text is empty
      only when there are no root files at all. */
  lemma {:induction false} PackedEmptyIffNoRoots(roots: seq<DecorateFile>)
    ensures WalkAll(roots, PackedText) == [] <==> roots == []
  {
    if roots != [] {
      var last := roots[|roots| - 1];
      assert |PackedText(last)| > 0;
      assert |Walk(last, PackedText)| >= |PackedText(last)|;
    }
  }

  /** The packed file exists exactly when the project has root DECORATE files. */
  lemma PackedIffRoots(paths: PathOps, project: ProjectContext)
    ensures Packed(paths, project).Some? <==> project.mainDecorateFiles.Some? && project.mainDecorateFiles.value != []
  {
    PackedEmptyIffNoRoots(RootFiles(project));
  }
}
