/** The public ACS stub of a library: a header, the `#library` directive, and
    three sections filled by walking the parsed include tree in pre-order:
    the `#libdefine`s, the enum constants as `#libdefine`s with upper-cased
    keys, and an empty-bodied declaration of every public function and
    script, with the types ACC does not know rendered as `int`. */
module PublicAcs {
  import opened Common
  import opened Text
  import opened AcsContext
  import opened Buffers
  import LibdefineParser
  import LibraryParser

  /** Text made of comment lines only, so it holds no `#`. */
  type CommentBlock = s: string | '#' !in s witness ""

  /** `_fileHeader`: a fixed block of comment lines whose wording the model
      does not fix. */
  const Header: CommentBlock

  // ---- Rendering one entry ----

  /** `ShouldChangeParameterToInt`: the types ACC lacks. */
  predicate ShouldChangeToInt(t: AcsMethodParameterType) {
    t == Fixed || t == Raw || t == Special
  }

  /** A return or parameter type as the stub spells it. */
  function RenderedType(t: AcsMethodParameterType): (s: string)
    ensures s == "void" || s == "int" || s == "bool" || s == "str"
    ensures s == "int" <==> t == Int || ShouldChangeToInt(t)
    ensures !ShouldChangeToInt(t) ==> s == t.Name()
  {
    if ShouldChangeToInt(t) then "int" else t.Name()
  }

  function ParameterText(p: AcsMethodParameter): string {
    RenderedType(p.paramType) + " " + p.name
  }

  function ParameterTexts(ps: seq<AcsMethodParameter>): (ts: seq<string>)
    ensures |ts| == |ps|
  {
    seq(|ps|, i requires 0 <= i < |ps| => ParameterText(ps[i]))
  }

  /** A null parameter list is written `void`. */
  function ParametersText(ps: Option<seq<AcsMethodParameter>>): string {
    match ps
    case None => "void"
    case Some(ps) => Join(", ", ParameterTexts(ps))
  }

  /** Null modifiers are written as nothing; otherwise each is followed by a space. */
  function ModifiersText(ms: Option<seq<string>>): string {
    match ms
    case None => ""
    case Some(ms) => Join(" ", ms) + " "
  }

  /** The declaration line of a method: `function R N(P) {}` or `script "N"(P) M{}`. */
  function Declaration(m: AcsMethod): string {
    match m.methodType
    case FunctionMethod =>
      "function " + RenderedType(m.returnType) + " " + m.name + "(" + ParametersText(m.parameters) + ") {}"
    case ScriptMethod =>
      "script \"" + m.name + "\"(" + ParametersText(m.parameters) + ") " + ModifiersText(m.modifiers) + "{}"
  }

  /** What one method adds: nothing when it is not public; otherwise a
      blank line and `// summary` when it has a summary, then its declaration. */
  function MethodEntry(m: AcsMethod): string {
    if !m.isPublic then "" else SummaryLines(m) + Line(Declaration(m))
  }

  /** A blank line and `// summary`, or nothing when there is no summary. */
  function SummaryLines(m: AcsMethod): string {
    match m.summary
    case None => ""
    case Some(s) => Line(NewLine + "// " + s)
  }

  function LibdefineLine(d: AcsLibdefine): string {
    Line("#libdefine " + d.key + " " + d.value)
  }

  /** An enum constant is written with its key upper-cased. */
  function EnumLibdefineLine(d: AcsLibdefine): string {
    Line("#libdefine " + ToUpper(d.key) + " " + d.value)
  }

  // ---- One file's own part of each section ----

  /** A null list contributes nothing. */
  function LibdefinesOf(f: AcsFile): seq<AcsLibdefine> {
    match f.libDefines
    case None => []
    case Some(ds) => ds
  }

  function EnumLibdefinesOf(f: AcsFile): seq<AcsLibdefine> {
    match f.enumLibdefines
    case None => []
    case Some(ds) => ds
  }

  function MethodsOf(f: AcsFile): seq<AcsMethod> {
    match f.methods
    case None => []
    case Some(ms) => ms
  }

  function OwnLibdefines(f: AcsFile): string {
    ConcatMap(LibdefinesOf(f), LibdefineLine)
  }

  function OwnEnumLibdefines(f: AcsFile): string {
    ConcatMap(EnumLibdefinesOf(f), EnumLibdefineLine)
  }

  function OwnMethods(f: AcsFile): string {
    ConcatMap(MethodsOf(f), MethodEntry)
  }

  // ---- The whole stub ----

  function LibraryDirective(name: string): string {
    "#library \"" + name + "\""
  }

  /** The header and the `#library` directive that open the stub. */
  function Head(name: string): string {
    Line(Header) + NewLine + Line(LibraryDirective(name))
  }

  /** The stub around its three sections: the opening `head`, then for each
      section a blank line, its title, a blank line and its text. */
  function Stub(head: string, libdefines: string, enumLibdefines: string, methods: string): (s: string)
    ensures StartsWith(s, head)
  {
    assert StartsWith(head, head);
    StartsWithAppended();
    head
    + NewLine + Line("/* Libdefines */") + NewLine + libdefines
    + NewLine + Line("/* Libdefines, generated from enums */") + NewLine + enumLibdefines
    + NewLine + Line("/* Public methods */") + NewLine + methods
  }

  /** `GeneratePublicAcsForLibrary`: the stub of a root file, whose sections
      walk the include tree in pre-order, or an error when the file has no
      library name. */
  function PublicAcs(file: AcsFile): (r: Result<string>)
    ensures r.Err? <==> file.library.None?
    ensures r.Err? ==> r.error == LibraryUnset
    ensures r.Ok? ==> StartsWith(r.value, Head(file.library.value))
    ensures r.Ok? && LibraryParser.IsLetters(file.library.value) ==>
      LibraryParser.FirstLibrary(r.value) == file.library
  {
    match file.library
    case None => Err(LibraryUnset)
    case Some(name) =>
      var s := Stub(Head(name), Walk(file, OwnLibdefines), Walk(file, OwnEnumLibdefines), Walk(file, OwnMethods));
      HeadDeclaresLibraryIn(name, s);
      Ok(s)
  }

  // ---- The recursive writers ----

  /** The foreach over a file's libdefines in `InsertLibdefines`. */
  method AppendLibdefines(defs: seq<AcsLibdefine>, sb: StringBuilder)
    modifies sb
    ensures sb.text == old(sb.text) + ConcatMap(defs, LibdefineLine)
  {
    for i := 0 to |defs|
      invariant sb.text == old(sb.text) + ConcatMap(defs[..i], LibdefineLine)
    {
      ghost var before := sb.text;
      sb.AppendLine("#libdefine " + defs[i].key + " " + defs[i].value);
      ConcatMapStep(defs, i, LibdefineLine, old(sb.text), before, sb.text);
    }
    assert defs[..|defs|] == defs;
  }

  /** The foreach over a file's enum constants in `InsertEnumLibdefines`. */
  method AppendEnumLibdefines(defs: seq<AcsLibdefine>, sb: StringBuilder)
    modifies sb
    ensures sb.text == old(sb.text) + ConcatMap(defs, EnumLibdefineLine)
  {
    for i := 0 to |defs|
      invariant sb.text == old(sb.text) + ConcatMap(defs[..i], EnumLibdefineLine)
    {
      ghost var before := sb.text;
      sb.AppendLine("#libdefine " + ToUpper(defs[i].key) + " " + defs[i].value);
      ConcatMapStep(defs, i, EnumLibdefineLine, old(sb.text), before, sb.text);
    }
    assert defs[..|defs|] == defs;
  }

  /** The foreach over a file's methods in `InsertPublicMethods`: non-public
      methods are skipped. */
  method AppendPublicMethods(methods: seq<AcsMethod>, sb: StringBuilder)
    modifies sb
    ensures sb.text == old(sb.text) + ConcatMap(methods, MethodEntry)
  {
    for i := 0 to |methods|
      invariant sb.text == old(sb.text) + ConcatMap(methods[..i], MethodEntry)
    {
      var m := methods[i];
      ghost var before := sb.text;
      if !m.isPublic {
        assert sb.text == before + MethodEntry(m);
        ConcatMapStep(methods, i, MethodEntry, old(sb.text), before, sb.text);
        continue;
      }
      var definition := Declaration(m);
      if m.summary.Some? {
        sb.AppendLine(NewLine + "// " + m.summary.value);
      }
      assert sb.text == before + SummaryLines(m);
      sb.AppendLine(definition);
      AppendAssoc(before, SummaryLines(m), Line(definition));
      ConcatMapStep(methods, i, MethodEntry, old(sb.text), before, sb.text);
    }
    assert methods[..|methods|] == methods;
  }

  /** `InsertLibdefines`. */
  method InsertLibdefines(file: AcsFile, sb: StringBuilder)
    modifies sb
    ensures sb.text == old(sb.text) + Walk(file, OwnLibdefines)
    decreases file
  {
    if file.libDefines.Some? {
      AppendLibdefines(file.libDefines.value, sb);
    }
    ghost var start := sb.text;
    assert start == old(sb.text) + OwnLibdefines(file);
    if file.includedFiles.Unparsed? {
      assert Walk(file, OwnLibdefines) == OwnLibdefines(file) + [];
      return;
    }
    var children := file.includedFiles.files;
    for i := 0 to |children|
      invariant sb.text == start + WalkAll(children[..i], OwnLibdefines)
    {
      ghost var before := sb.text;
      InsertLibdefines(children[i], sb);
      WalkAllStep(children, i, OwnLibdefines, start, before, sb.text);
    }
    assert children[..|children|] == children;
    AppendAssoc(old(sb.text), OwnLibdefines(file), WalkAll(children, OwnLibdefines));
  }

  /** `InsertEnumLibdefines`. */
  method InsertEnumLibdefines(file: AcsFile, sb: StringBuilder)
    modifies sb
    ensures sb.text == old(sb.text) + Walk(file, OwnEnumLibdefines)
    decreases file
  {
    if file.enumLibdefines.Some? {
      AppendEnumLibdefines(file.enumLibdefines.value, sb);
    }
    ghost var start := sb.text;
    assert start == old(sb.text) + OwnEnumLibdefines(file);
    if file.includedFiles.Unparsed? {
      assert Walk(file, OwnEnumLibdefines) == OwnEnumLibdefines(file) + [];
      return;
    }
    var children := file.includedFiles.files;
    for i := 0 to |children|
      invariant sb.text == start + WalkAll(children[..i], OwnEnumLibdefines)
    {
      ghost var before := sb.text;
      InsertEnumLibdefines(children[i], sb);
      WalkAllStep(children, i, OwnEnumLibdefines, start, before, sb.text);
    }
    assert children[..|children|] == children;
    AppendAssoc(old(sb.text), OwnEnumLibdefines(file), WalkAll(children, OwnEnumLibdefines));
  }

  /** `InsertPublicMethods`. */
  method InsertPublicMethods(file: AcsFile, sb: StringBuilder)
    modifies sb
    ensures sb.text == old(sb.text) + Walk(file, OwnMethods)
    decreases file
  {
    if file.methods.Some? {
      AppendPublicMethods(file.methods.value, sb);
    }
    ghost var start := sb.text;
    assert start == old(sb.text) + OwnMethods(file);
    if file.includedFiles.Unparsed? {
      assert Walk(file, OwnMethods) == OwnMethods(file) + [];
      return;
    }
    var children := file.includedFiles.files;
    for i := 0 to |children|
      invariant sb.text == start + WalkAll(children[..i], OwnMethods)
    {
      ghost var before := sb.text;
      InsertPublicMethods(children[i], sb);
      WalkAllStep(children, i, OwnMethods, start, before, sb.text);
    }
    assert children[..|children|] == children;
    AppendAssoc(old(sb.text), OwnMethods(file), WalkAll(children, OwnMethods));
  }

  /** `GeneratePublicAcsForLibrary`, building the text in a fresh buffer. */
  method GeneratePublicAcsForLibrary(file: AcsFile) returns (r: Result<string>)
    ensures r == PublicAcs(file)
  {
    if file.library.None? {
      return Err(LibraryUnset);
    }
    var sb := new StringBuilder();
    sb.AppendLine(Header);
    assert sb.text == Line(Header);
    sb.AppendNewLine();
    sb.AppendLine(LibraryDirective(file.library.value));
    sb.AppendNewLine();
    sb.AppendLine("/* Libdefines */");
    sb.AppendNewLine();
    InsertLibdefines(file, sb);
    sb.AppendNewLine();
    sb.AppendLine("/* Libdefines, generated from enums */");
    sb.AppendNewLine();
    InsertEnumLibdefines(file, sb);
    sb.AppendNewLine();
    sb.AppendLine("/* Public methods */");
    sb.AppendNewLine();
    InsertPublicMethods(file, sb);
    return Ok(sb.text);
  }

  // ---- What the stub promises ----

  /** Text that opens with the stub's header and directive declares that
      library to the `#library` parser: the header holds no `#`, so the
      first directive found is the one the stub writes. */
  lemma HeadDeclaresLibraryIn(name: string, s: string)
    requires StartsWith(s, Head(name))
    ensures LibraryParser.IsLetters(name) ==> LibraryParser.FirstLibrary(s) == Some(name)
  {
    if LibraryParser.IsLetters(name) {
      var head := Head(name);
      assert s == head + s[|head|..] by {
        assert s[..|head|] == head;
      }
      HeadDeclaresLibrary(name, s[|head|..]);
    }
  }

  /** The header holds no `#`, and neither does a line break. */
  lemma HeaderLineHasNoHash()
    ensures '#' !in Line(Header) + NewLine
  {
    var pre := Line(Header) + NewLine;
    forall i | 0 <= i < |pre| ensures pre[i] != '#' {
      if i < |Header| {
        assert pre[i] == Header[i];
      } else {
        assert pre[i] in NewLine;
      }
    }
  }

  /** Whatever follows the opening lines, the first `#library` directive is the stub's own. */
  lemma HeadDeclaresLibrary(name: string, t: string)
    requires LibraryParser.IsLetters(name)
    ensures LibraryParser.FirstLibrary(Head(name) + t) == Some(name)
  {
    var pre := Line(Header) + NewLine;
    HeaderLineHasNoHash();
    var directive := LibraryParser.Directive;
    assert LibraryDirective(name) == directive + name + "\"";
    calc {
      Head(name) + t;
      pre + (directive + name + "\"" + NewLine) + t;
      { AppendAssoc(pre, directive + name + "\"" + NewLine, t); }
      pre + (directive + name + "\"" + NewLine + t);
      { assert directive + name + "\"" + NewLine + t == directive + (name + ("\"" + (NewLine + t))); }
      pre + (directive + (name + ("\"" + (NewLine + t))));
    }
    LibraryParser.DirectiveFound(pre, name, NewLine + t);
  }

  /** The public methods of a list, in order. */
  function PublicOnly(ms: seq<AcsMethod>): (ps: seq<AcsMethod>)
    ensures forall m :: m in ps <==> m in ms && m.isPublic
  {
    if ms == [] then []
    else
      var last := ms[|ms| - 1];
      assert ms == ms[..|ms| - 1] + [last];
      PublicOnly(ms[..|ms| - 1]) + (if last.isPublic then [last] else [])
  }

  /** Non-public methods leave no trace: a file's method section is what it
      would be with only its public methods. */
  lemma {:induction false} NonPublicMethodsOmitted(ms: seq<AcsMethod>)
    ensures ConcatMap(PublicOnly(ms), MethodEntry) == ConcatMap(ms, MethodEntry)
  {
    if ms != [] {
      var last := ms[|ms| - 1];
      NonPublicMethodsOmitted(ms[..|ms| - 1]);
      ConcatMapAppend(PublicOnly(ms[..|ms| - 1]), if last.isPublic then [last] else [], MethodEntry);
      if last.isPublic {
        assert ConcatMap([last], MethodEntry) == ConcatMap([last][..0], MethodEntry) + MethodEntry(last);
      }
    }
  }

  /** Every parameter is written with a type ACC knows. */
  lemma ParameterTypesKnown(p: AcsMethodParameter)
    ensures exists t :: t in ["void", "int", "bool", "str"] && ParameterText(p) == t + " " + p.name
  {
    assert RenderedType(p.paramType) in ["void", "int", "bool", "str"];
  }

  /** With `\n` line breaks, the stub's line for a libdefine is the
      directive line the libdefine parser reads. */
  lemma LibdefineLineIsDirectiveLine(d: AcsLibdefine, t: string)
    requires NewLine == "\n"
    ensures LibdefineLine(d) + t == LibdefineParser.DirectiveLine(d, t)
  {
    var directive := LibdefineParser.Directive;
    assert "#libdefine " == directive;
    calc {
      LibdefineLine(d) + t;
      directive + d.key + " " + d.value + "\n" + t;
      { AppendAssoc(directive + d.key + " " + d.value, "\n", t); }
      directive + d.key + " " + d.value + ("\n" + t);
      { AppendAssoc(directive + d.key + " ", d.value, "\n" + t); }
      directive + d.key + " " + (d.value + ("\n" + t));
      { AppendAssoc(directive + d.key, " ", d.value + ("\n" + t)); }
      directive + d.key + (" " + (d.value + ("\n" + t)));
      { AppendAssoc(directive, d.key, " " + (d.value + ("\n" + t))); }
      directive + (d.key + (" " + (d.value + ("\n" + t))));
    }
  }

  /** With `\n` line breaks, the stub's lines for a list of libdefines are
      exactly the directive lines the libdefine parser reads. */
  lemma {:induction false} LibdefineLinesRendered(ds: seq<AcsLibdefine>)
    requires NewLine == "\n"
    ensures ConcatMap(ds, LibdefineLine) == LibdefineParser.Render(ds)
  {
    if ds != [] {
      ConcatMapCons(ds[0], ds[1..], LibdefineLine);
      assert [ds[0]] + ds[1..] == ds;
      LibdefineLinesRendered(ds[1..]);
      LibdefineLineIsDirectiveLine(ds[0], LibdefineParser.Render(ds[1..]));
    }
  }

  /** The libdefine section, read back by the `#libdefine` parser, gives
      every libdefine of the include tree, in pre-order, when the entries
      are well-formed (as the parser's own entries are) and line breaks are `\n`. */
  lemma LibdefineSectionReadBack(file: AcsFile)
    requires NewLine == "\n"
    requires forall i :: 0 <= i < |Walk(file, LibdefinesOf)| ==> LibdefineParser.WellFormed(Walk(file, LibdefinesOf)[i])
    ensures LibdefineParser.Scan(Walk(file, OwnLibdefines)) == Walk(file, LibdefinesOf)
  {
    WalkConcatMap(file, OwnLibdefines, LibdefinesOf, LibdefineLine);
    LibdefineLinesRendered(Walk(file, LibdefinesOf));
    LibdefineParser.ScanRender(Walk(file, LibdefinesOf));
  }
}
