/** `PublisherConfiguration`: the options of one publish run, and the
    getters that turn the compiler, engine and defines options into what the
    compile tasks use. */
module PublisherConfiguration {
  import opened Common
  import opened Text

  /** The compiler to use. */
  datatype CompileType = Unknown | Acc | Bcc | GdccAcc | GdccC

  /** The engine to target. */
  datatype EngineType = UnknownEngine | Zdoom | Zandronum | Eternity

  /** The options a publish run reads (the command-line binding is not part
      of this model); `None` where the option was not given. */
  datatype Configuration = Configuration(
    inputProjectDir: string,
    logOutputFolder: Option<string>,
    packToOutputDir: Option<string>,
    generateTodoListAtDirectory: Option<string>,
    generateDecorateSummaryAtDirectory: Option<string>,
    compilersRootDirectory: Option<string>,
    compileWith: Option<string>,
    compileDefines: Option<string>,
    forEngine: Option<string>,
    noWarnForwardReferences: bool,
    createTemporaryProject: bool,
    generatePublicAcsSource: bool,
    removeAcsSource: bool,
    removeUnrelatedFiles: bool,
    packDecorate: bool,
    removeEmptyDirectories: bool)

  /** `CompileWithParsed`: the option upper-cased and matched against the
      known compiler names; `gdccc` raises `NotImplementedException`. */
  function CompileWithParsed(c: Configuration): (r: Result<CompileType>)
    ensures r.Err? <==> c.compileWith.Some? && ToUpper(c.compileWith.value) == "GDCCC"
    ensures r.Err? ==> r.error == CompilerNotImplemented
    ensures r.Ok? ==> r.value != GdccC
    ensures c.compileWith.None? ==> r == Ok(Unknown)
    ensures r == Ok(Acc) <==> c.compileWith.Some? && ToUpper(c.compileWith.value) == "ACC"
    ensures r == Ok(Bcc) <==> c.compileWith.Some? && ToUpper(c.compileWith.value) == "BCC"
    ensures r == Ok(GdccAcc) <==> c.compileWith.Some? && ToUpper(c.compileWith.value) == "GDCCACC"
  {
    match c.compileWith
    case None => Ok(Unknown)
    case Some(name) =>
      var upper := ToUpper(name);
      if upper == "ACC" then Ok(Acc)
      else if upper == "BCC" then Ok(Bcc)
      else if upper == "GDCCACC" then Ok(GdccAcc)
      else if upper == "GDCCC" then Err(CompilerNotImplemented)
      else Ok(Unknown)
  }

  /** `EngineTypeParsed`: the option upper-cased and matched against the
      known engine names; it never fails. */
  function EngineTypeParsed(c: Configuration): (e: EngineType)
    ensures c.forEngine.None? ==> e == UnknownEngine
    ensures e == Zdoom <==> c.forEngine.Some? && ToUpper(c.forEngine.value) == "ZDOOM"
    ensures e == Zandronum <==> c.forEngine.Some? && ToUpper(c.forEngine.value) == "ZANDRONUM"
    ensures e == Eternity <==> c.forEngine.Some? && ToUpper(c.forEngine.value) == "ETERNITY"
  {
    match c.forEngine
    case None => UnknownEngine
    case Some(name) =>
      var upper := ToUpper(name);
      if upper == "ZDOOM" then Zdoom
      else if upper == "ZANDRONUM" then Zandronum
      else if upper == "ETERNITY" then Eternity
      else UnknownEngine
  }

  /** Each argument of the defines option behind a compiler flag, joined by spaces. */
  function FlaggedArgs(flag: string, args: seq<string>): (s: string) {
    Join(" ", seq(|args|, i requires 0 <= i < |args| => flag + args[i]))
  }

  /** `GDCCParsedDefines`: null without a defines option, otherwise every
      argument `SplitArgs` gives as `--define x`. */
  function GdccParsedDefines(c: Configuration, splitArgs: string -> seq<string>): (r: Option<string>)
    ensures r.None? <==> c.compileDefines.None?
    ensures r.Some? && |splitArgs(c.compileDefines.value)| > 0 ==> StartsWith(r.value, "--define ")
  {
    match c.compileDefines
    case None => None
    case Some(defines) => Some(FlaggedArgs("--define ", splitArgs(defines)))
  }

  /** `BCCParsedDefines`: null without a defines option, otherwise every
      argument `SplitArgs` gives as `-D x`. */
  function BccParsedDefines(c: Configuration, splitArgs: string -> seq<string>): (r: Option<string>)
    ensures r.None? <==> c.compileDefines.None?
    ensures r.Some? && |splitArgs(c.compileDefines.value)| > 0 ==> StartsWith(r.value, "-D ")
  {
    match c.compileDefines
    case None => None
    case Some(defines) => Some(FlaggedArgs("-D ", splitArgs(defines)))
  }

  /** The flagged arguments start with the flag when there is any argument. */
  lemma FlaggedArgsStartWithFlag(flag: string, args: seq<string>)
    requires |args| > 0
    ensures StartsWith(FlaggedArgs(flag, args), flag)
  {
    var parts := seq(|args|, i requires 0 <= i < |args| => flag + args[i]);
    StartsWithAppended();
    assert StartsWith(parts[0], flag);
    if |parts| > 1 {
      assert Join(" ", parts) == parts[0] + " " + Join(" ", parts[1..]);
      assert parts[0] + " " + Join(" ", parts[1..]) == parts[0] + (" " + Join(" ", parts[1..]));
    }
  }

  // ---- The option names ----

  /** The documented option value of each compiler that can be chosen. */
  function CompilerName(t: CompileType): string
    requires t == Acc || t == Bcc || t == GdccAcc
  {
    match t
    case Acc => "acc"
    case Bcc => "bcc"
    case GdccAcc => "gdccacc"
  }

  /** The documented option value of each engine. */
  function EngineName(e: EngineType): string
    requires e != UnknownEngine
  {
    match e
    case Zdoom => "zdoom"
    case Zandronum => "zandronum"
    case Eternity => "eternity"
  }

  /** Every selectable compiler is parsed back from its documented name. */
  lemma CompilerNameParsed(c: Configuration, t: CompileType)
    requires t == Acc || t == Bcc || t == GdccAcc
    requires c.compileWith == Some(CompilerName(t))
    ensures CompileWithParsed(c) == Ok(t)
  {
    var upper := ToUpper(CompilerName(t));
    match t
    case Acc => assert upper == "ACC";
    case Bcc => assert upper == "BCC";
    case GdccAcc => assert upper == "GDCCACC";
  }

  /** Every engine is parsed back from its documented name. */
  lemma EngineNameParsed(c: Configuration, e: EngineType)
    requires e != UnknownEngine
    requires c.forEngine == Some(EngineName(e))
    ensures EngineTypeParsed(c) == e
  {
    var upper := ToUpper(EngineName(e));
    match e
    case Zdoom => assert upper == "ZDOOM";
    case Zandronum => assert upper == "ZANDRONUM";
    case Eternity => assert upper == "ETERNITY";
  }

  /** The getters ignore case: options that differ only in case parse alike. */
  lemma ParsingIgnoresCase(c: Configuration, d: Configuration)
    requires c.compileWith.Some? && d.compileWith.Some? && EqualsIgnoreCase(c.compileWith.value, d.compileWith.value)
    requires c.forEngine.Some? && d.forEngine.Some? && EqualsIgnoreCase(c.forEngine.value, d.forEngine.value)
    ensures CompileWithParsed(c) == CompileWithParsed(d)
    ensures EngineTypeParsed(c) == EngineTypeParsed(d)
  {
  }
}
