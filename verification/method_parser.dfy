/** Function and script signatures: every `function` and `script` match of
    a file becomes an `AcsMethod` record, functions first, and the file's
    method list is replaced by them, unless a match fails to parse. */
module MethodParser {
  import opened Common
  import opened Text
  import opened AcsContext

  /** One match of the function or of the script pattern: the whole matched
      text and its named groups. Function matches capture `returnType` and
      never `modifiers`; script matches the other way round. `name` is the
      `functionName` or `scriptName` group. */
  datatype MethodMatch = MethodMatch(
    value: string,
    isPublic: Group,
    summary: Group,
    definition: Group,
    name: Group,
    returnType: Group,
    parameters: Group,
    modifiers: Group)

  // ---- Parameter types ----

  /** The upper-cased type tokens that name a type of their own. */
  predicate IsTypeToken(upper: string) {
    upper == "VOID" || upper == "INT" || upper == "STR" || upper == "BOOL"
    || upper == "FIXED" || upper == "RAW"
  }

  /** `MethodParameterTypeFromString`: the type a token names, compared
      after invariant upper-casing; every other token is `special`. */
  function ParameterTypeFromString(token: string): (t: AcsMethodParameterType)
    ensures t == Special <==> !IsTypeToken(ToUpper(token))
    ensures t != Special ==> ToUpper(token) == ToUpper(t.Name())
  {
    var upper := ToUpper(token);
    if upper == "VOID" then Void
    else if upper == "INT" then Int
    else if upper == "STR" then Str
    else if upper == "BOOL" then Bool
    else if upper == "FIXED" then Fixed
    else if upper == "RAW" then Raw
    else Special
  }

  /** The mapping only looks at the token up to case. */
  lemma ParameterTypeIgnoresCase(a: string, b: string)
    requires EqualsIgnoreCase(a, b)
    ensures ParameterTypeFromString(a) == ParameterTypeFromString(b)
  {
  }

  /** Every type's own name maps back to it, `special` included. */
  lemma ParameterTypeNameRoundTrip(t: AcsMethodParameterType)
    ensures ParameterTypeFromString(t.Name()) == t
  {
    var n := t.Name();
    assert ToUpper(n) == seq(|n|, i requires 0 <= i < |n| => UpperChar(n[i]));
    match t
    case Void => assert ToUpper(n) == "VOID";
    case Int => assert ToUpper(n) == "INT";
    case Bool => assert ToUpper(n) == "BOOL";
    case Str => assert ToUpper(n) == "STR";
    case Fixed => assert ToUpper(n) == "FIXED";
    case Special => assert ToUpper(n) == "SPECIAL";
    case Raw => assert ToUpper(n) == "RAW";
  }

  // ---- Parameters ----

  /** One trimmed parameter piece, split on single spaces: `type name` gives
      the parameter; four parts throw whatever they are, because the check
      compares the fourth part with `=` and then keeps only the first; any
      other count throws. */
  function ParseParameter(piece: string): (r: Result<AcsMethodParameter>)
    ensures r.Ok? <==> Count(piece, ' ') == 1
    ensures r.Ok? ==>
      && r.value.paramType == ParameterTypeFromString(Split(piece, ' ')[0])
      && r.value.name == Split(piece, ' ')[1]
  {
    var parts := Split(piece, ' ');
    if |parts| == 4 && parts[3] != "=" then Err(OptionalParameterExpected(piece, parts[3]))
    else
      var kept := if |parts| == 4 then parts[..1] else parts;
      if |kept| != 2 then Err(ParameterPartCount(piece, |kept|))
      else Ok(AcsMethodParameter(ParameterTypeFromString(kept[0]), kept[1]))
  }

  /** A space-free type and name separated by one space give that parameter. */
  lemma ParameterRoundTrip(typeToken: string, name: string)
    requires ' ' !in typeToken && ' ' !in name
    ensures ParseParameter(typeToken + " " + name)
         == Ok(AcsMethodParameter(ParameterTypeFromString(typeToken), name))
  {
    SplitAtSeparator(typeToken, ' ', name);
    SplitWithoutSeparator(name, ' ');
    assert typeToken + " " + name == typeToken + [' '] + name;
  }

  /** A four-part piece always throws: the optional-parameter error unless
      its last part is `=`, and then the part-count error with count 1. */
  lemma FourPartParameterThrows(piece: string)
    requires Count(piece, ' ') == 3
    ensures var parts := Split(piece, ' ');
      ParseParameter(piece)
        == if parts[3] != "=" then Err(OptionalParameterExpected(piece, parts[3]))
           else Err(ParameterPartCount(piece, 1))
  {
  }

  /** `int x = 5` throws, naming `5` as the part found where `=` was expected. */
  lemma DefaultValueParameterThrows(typeToken: string, name: string, dflt: string)
    requires ' ' !in typeToken && ' ' !in name && ' ' !in dflt
    ensures ParseParameter(typeToken + " " + name + " = " + dflt)
         == (if dflt == "=" then Err(ParameterPartCount(typeToken + " " + name + " = " + dflt, 1))
             else Err(OptionalParameterExpected(typeToken + " " + name + " = " + dflt, dflt)))
  {
    SplitOfDefaultValue(typeToken, name, dflt);
  }

  /** `type name = value` splits into its four space-free parts. */
  lemma SplitOfDefaultValue(typeToken: string, name: string, dflt: string)
    requires ' ' !in typeToken && ' ' !in name && ' ' !in dflt
    ensures Split(typeToken + " " + name + " = " + dflt, ' ') == [typeToken, name, "=", dflt]
  {
    var p3 := "=" + [' '] + dflt;
    var p2 := name + [' '] + p3;
    var p1 := typeToken + [' '] + p2;
    SplitWithoutSeparator(dflt, ' ');
    SplitAtSeparator("=", ' ', dflt);
    SplitAtSeparator(name, ' ', p3);
    SplitAtSeparator(typeToken, ' ', p2);
    assert Split(p1, ' ') == [typeToken, name, "=", dflt];
    calc {
      typeToken + " " + name + " = " + dflt;
      { AppendAssoc(typeToken + " " + name, " = ", dflt); }
      typeToken + " " + name + (" = " + dflt);
      { assert " = " + dflt == [' '] + p3; }
      typeToken + " " + name + ([' '] + p3);
      { AppendAssoc(typeToken + " " + name, [' '], p3); }
      typeToken + " " + name + [' '] + p3;
      { AppendAssoc(typeToken + " ", name, [' ']); AppendAssoc(typeToken + " ", name + [' '], p3); }
      typeToken + " " + p2;
      { AppendAssoc(typeToken, " ", p2); }
      p1;
    }
  }


  /** One comma-separated piece: trimmed, then parsed as a parameter. */
  function ParsePiece(piece: string): Result<AcsMethodParameter> {
    ParseParameter(Trim(piece))
  }

  /** `ParseMethodParameters` on the trimmed capture: `void` in any case
      means no parameters (null); otherwise every comma-separated piece,
      trimmed, is one parameter, and the first piece that throws ends the parse. */
  function ParseMethodParameters(joined: string): (r: Result<Option<seq<AcsMethodParameter>>>)
    ensures EqualsIgnoreCase(joined, "void") ==> r == Ok(None)
    ensures !EqualsIgnoreCase(joined, "void") ==>
      && (r.Ok? <==> TryMap(Split(joined, ','), ParsePiece).Ok?)
      && (r.Ok? ==> r.value == Some(TryMap(Split(joined, ','), ParsePiece).value))
  {
    assert ToUpper("void") == "VOID";
    if ToUpper(joined) == "VOID" then Ok(None)
    else match TryMap(Split(joined, ','), ParsePiece)
      case Ok(ps) => Ok(Some(ps))
      case Err(e) => Err(e)
  }

  /** Outside `void`, the parse succeeds exactly when every piece does, and
      then gives one parameter per piece, in order. */
  lemma ParametersPerPiece(joined: string)
    requires !EqualsIgnoreCase(joined, "void")
    ensures ParseMethodParameters(joined).Ok?
        <==> forall i :: 0 <= i < Count(joined, ',') + 1 ==> ParsePiece(Split(joined, ',')[i]).Ok?
    ensures ParseMethodParameters(joined).Ok? ==>
      && ParseMethodParameters(joined).value.Some?
      && |ParseMethodParameters(joined).value.value| == Count(joined, ',') + 1
      && forall i :: 0 <= i < Count(joined, ',') + 1 ==>
           ParsePiece(Split(joined, ',')[i]) == Ok(ParseMethodParameters(joined).value.value[i])
  {
    var pieces := Split(joined, ',');
    var t := TryMap(pieces, ParsePiece);
    assert |pieces| == Count(joined, ',') + 1;
    assert t.Ok? <==> forall i :: 0 <= i < |pieces| ==> ParsePiece(pieces[i]).Ok?;
    if t.Ok? {
      assert ParseMethodParameters(joined) == Ok(Some(t.value));
    } else {
      assert ParseMethodParameters(joined) == Err(t.error);
      var k :| 0 <= k < |pieces| && ParsePiece(pieces[k]) == Err(t.error);
      assert !ParsePiece(Split(joined, ',')[k]).Ok?;
    }
  }

  // ---- Matches ----

  /** The summary: the trimmed capture, or none when that is empty. */
  function SummaryOf(g: Group): (s: Option<string>)
    ensures s.None? <==> Trim(g.Value()) == ""
    ensures s.Some? ==> s.value == Trim(g.Value()) && IsTrimmed(s.value)
  {
    TrimFacts(g.Value());
    var t := Trim(g.Value());
    if t == "" then None else Some(t)
  }

  /** The parameters: none when the capture is absent or empty, otherwise
      the parse of the trimmed capture. */
  function ParametersOf(g: Group): (r: Result<Option<seq<AcsMethodParameter>>>)
    ensures g.Value() == "" ==> r == Ok(None)
    ensures g.Value() != "" ==> r == ParseMethodParameters(Trim(g.Value()))
  {
    if !g.Success() || g.Value() == "" then Ok(None) else ParseMethodParameters(Trim(g.Value()))
  }

  /** The modifiers of a script: empty when the capture is absent, otherwise
      the capture split on single spaces, each piece trimmed, empty pieces kept. */
  function ModifiersOf(g: Group): (ms: seq<string>)
    ensures !g.Success() ==> ms == []
    ensures g.Success() ==>
      && |ms| == Count(g.Value(), ' ') + 1
      && forall i :: 0 <= i < |ms| ==> ms[i] == Trim(Split(g.Value(), ' ')[i])
  {
    if !g.Success() then []
    else
      var parts := Split(g.Value(), ' ');
      seq(|parts|, i requires 0 <= i < |parts| => Trim(parts[i]))
  }

  /** `ParseFunctionMatch`: the definition, the name and the return type are
      required, in that order; the parameters may throw. */
  function ParseFunctionMatch(m: MethodMatch): (r: Result<AcsMethod>)
    ensures !m.definition.Success() ==> r == Err(MissingGroup(FunctionMethod, "definition", m.value))
    ensures m.definition.Success() && !m.name.Success() ==>
      r == Err(MissingGroup(FunctionMethod, "functionName", m.value))
    ensures m.definition.Success() && m.name.Success() && !m.returnType.Success() ==>
      r == Err(MissingGroup(FunctionMethod, "returnType", m.value))
    ensures r.Ok? <==>
      m.definition.Success() && m.name.Success() && m.returnType.Success() && ParametersOf(m.parameters).Ok?
    ensures r.Ok? ==>
      && r.value.methodType == FunctionMethod
      && r.value.isPublic == m.isPublic.Success()
      && r.value.definition == m.definition.text
      && r.value.name == m.name.text
      && r.value.summary == SummaryOf(m.summary)
      && r.value.returnType == ParameterTypeFromString(m.returnType.text)
      && r.value.modifiers.None?
      && Ok(r.value.parameters) == ParametersOf(m.parameters)
  {
    if !m.definition.Success() then Err(MissingGroup(FunctionMethod, "definition", m.value))
    else if !m.name.Success() then Err(MissingGroup(FunctionMethod, "functionName", m.value))
    else if !m.returnType.Success() then Err(MissingGroup(FunctionMethod, "returnType", m.value))
    else match ParametersOf(m.parameters)
      case Err(e) => Err(e)
      case Ok(ps) =>
        Ok(AcsMethod(m.isPublic.Success(), FunctionMethod, ParameterTypeFromString(m.returnType.Value()),
                     m.definition.Value(), SummaryOf(m.summary), m.name.Value(), None, ps))
  }

  /** `ParseScriptMatch`: the definition and the name are required, in that
      order; the return type is always `void`. */
  function ParseScriptMatch(m: MethodMatch): (r: Result<AcsMethod>)
    ensures !m.definition.Success() ==> r == Err(MissingGroup(ScriptMethod, "definition", m.value))
    ensures m.definition.Success() && !m.name.Success() ==>
      r == Err(MissingGroup(ScriptMethod, "scriptName", m.value))
    ensures r.Ok? <==> m.definition.Success() && m.name.Success() && ParametersOf(m.parameters).Ok?
    ensures r.Ok? ==>
      && r.value.methodType == ScriptMethod
      && r.value.isPublic == m.isPublic.Success()
      && r.value.definition == m.definition.text
      && r.value.name == m.name.text
      && r.value.summary == SummaryOf(m.summary)
      && r.value.returnType == Void
      && r.value.modifiers == Some(ModifiersOf(m.modifiers))
      && Ok(r.value.parameters) == ParametersOf(m.parameters)
  {
    if !m.definition.Success() then Err(MissingGroup(ScriptMethod, "definition", m.value))
    else if !m.name.Success() then Err(MissingGroup(ScriptMethod, "scriptName", m.value))
    else match ParametersOf(m.parameters)
      case Err(e) => Err(e)
      case Ok(ps) =>
        Ok(AcsMethod(m.isPublic.Success(), ScriptMethod, Void, m.definition.Value(),
                     SummaryOf(m.summary), m.name.Value(), Some(ModifiersOf(m.modifiers)), ps))
  }

  /** `ParseAsync`: all function records, then all script records, become
      the file's methods; the first match that throws (functions before
      scripts) fails the run and the method list is not assigned. */
  function MethodsParsed(file: AcsFile, functions: seq<MethodMatch>, scripts: seq<MethodMatch>): (s: Step<AcsFile>)
    ensures s.err.Some? ==> s.doc == file
    ensures s.err.None? <==>
      && (forall i :: 0 <= i < |functions| ==> ParseFunctionMatch(functions[i]).Ok?)
      && (forall j :: 0 <= j < |scripts| ==> ParseScriptMatch(scripts[j]).Ok?)
    ensures s.err.None? ==>
      && s.doc == file.(methods := s.doc.methods)
      && s.doc.methods.Some?
      && |s.doc.methods.value| == |functions| + |scripts|
      && (forall i :: 0 <= i < |functions| ==> ParseFunctionMatch(functions[i]) == Ok(s.doc.methods.value[i]))
      && (forall j :: 0 <= j < |scripts| ==>
            ParseScriptMatch(scripts[j]) == Ok(s.doc.methods.value[|functions| + j]))
  {
    match TryMap(functions, ParseFunctionMatch)
    case Err(e) => Step(file, Some(e))
    case Ok(fs) =>
      match TryMap(scripts, ParseScriptMatch)
      case Err(e) => Step(file, Some(e))
      case Ok(ss) => Step(file.(methods := Some(fs + ss)), None)
  }

  /** Functions come before scripts in the method list, whatever their order
      in the text. */
  lemma FunctionsBeforeScripts(file: AcsFile, functions: seq<MethodMatch>, scripts: seq<MethodMatch>, k: nat)
    requires MethodsParsed(file, functions, scripts).err.None?
    requires k < |functions| + |scripts|
    ensures MethodsParsed(file, functions, scripts).doc.methods.Some?
    ensures var ms := MethodsParsed(file, functions, scripts).doc.methods.value;
      ms[k].methodType == (if k < |functions| then FunctionMethod else ScriptMethod)
  {
    var ms := MethodsParsed(file, functions, scripts).doc.methods.value;
    if k >= |functions| {
      assert ParseScriptMatch(scripts[k - |functions|]) == Ok(ms[|functions| + (k - |functions|)]);
    }
  }

  /** The first throwing match is the error of the run: a failing function
      wins over any script. */
  lemma FirstFailingFunctionFails(file: AcsFile, functions: seq<MethodMatch>, scripts: seq<MethodMatch>, i: nat)
    requires i < |functions| && ParseFunctionMatch(functions[i]).Err?
    requires forall j :: 0 <= j < i ==> ParseFunctionMatch(functions[j]).Ok?
    ensures MethodsParsed(file, functions, scripts) == Step(file, Some(ParseFunctionMatch(functions[i]).error))
  {
    var r := TryMap(functions, ParseFunctionMatch);
    assert r.Err?;
    var k :| 0 <= k < |functions| && ParseFunctionMatch(functions[k]) == Err(r.error)
             && forall j :: 0 <= j < k ==> ParseFunctionMatch(functions[j]).Ok?;
    assert k == i;
  }
}
