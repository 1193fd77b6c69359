/** The enum extractor: every non-private `enum { ... };` block of an ACS file
    becomes a list of libdefine-like constants on `EnumLibdefines`. Integer
    blocks number their constants implicitly, from zero or from the last
    explicit value; other blocks need an explicit value on every line. */
module EnumParser {
  import opened Common
  import opened Text
  import opened AcsContext

  /** One match of the enum block pattern: the `private ` prefix, the declared
      type (`fixed`, `int` or `str`) and the text between the braces. */
  datatype EnumMatch = EnumMatch(isPrivate: Group, enumType: Group, enumContent: Group)

  /** The two copies of the extractor: the application's current one and the
      library's original default one. */
  datatype EnumParserVersion = Current | Legacy {
    /** A block is an integer block when it declares no type or declares `int`;
        the current copy compares ignoring case, the original upper-cases. */
    predicate IsIntegerType(enumType: string) {
      if Current? then enumType == "" || EqualsIgnoreCase(enumType, "int")
      else enumType == "" || ToUpper(enumType) == "INT"
    }

    /** Only the current copy strips casts from the values of non-integer blocks. */
    predicate TrimsCasts() { Current? }
  }

  /** Both copies classify every declared type the same way. */
  lemma IntegerTypeTestsAgree(enumType: string)
    ensures Current.IsIntegerType(enumType) == Legacy.IsIntegerType(enumType)
  {
    assert ToUpper("int") == "INT";
  }

  // ---- Filtering the block's lines ----

  /** A body line survives the filter when, trimmed, it is neither empty nor a `//` comment. */
  predicate KeepLine(line: string) {
    var t := Trim(line);
    t != "" && !StartsWith(t, "//")
  }

  /** A kept line loses one trailing comma (only when the comma is its very
      last character) and is then trimmed. */
  function CleanLine(line: string): (r: string)
    ensures IsTrimmed(r) && |r| <= |line|
    ensures !EndsWith(line, ",") ==> r == Trim(line)
    ensures EndsWith(line, ",") ==> r == Trim(line[..|line| - 1])
  {
    var body := if EndsWith(line, ",") then line[..|line| - 1] else line;
    TrimFacts(body);
    Trim(body)
  }

  function FilterLines(lines: seq<string>): (r: seq<string>)
    ensures |r| <= |lines|
  {
    if lines == [] then []
    else (if KeepLine(lines[0]) then [CleanLine(lines[0])] else []) + FilterLines(lines[1..])
  }

  /** `FilterEnumContent`: the block body split on every line break, comments
      and blank lines dropped, each remaining line cleaned. */
  function FilterEnumContent(content: string): (r: seq<string>)
    ensures |r| <= |SplitLines(content)|
  {
    FilterLines(SplitLines(content))
  }

  /** Every line `KeepLine` accepts is kept, cleaned. */
  lemma {:induction false} FilterLinesKeepsAcceptedLines(lines: seq<string>, i: nat)
    requires i < |lines| && KeepLine(lines[i])
    ensures CleanLine(lines[i]) in FilterLines(lines)
  {
    var head := if KeepLine(lines[0]) then [CleanLine(lines[0])] else [];
    assert FilterLines(lines) == head + FilterLines(lines[1..]);
    if i == 0 {
      assert (head + FilterLines(lines[1..]))[0] == CleanLine(lines[0]);
    } else {
      assert lines[1..][i - 1] == lines[i];
      FilterLinesKeepsAcceptedLines(lines[1..], i - 1);
    }
  }

  /** Filtering works line by line and keeps the order: filtering two runs
      of lines one after the other is filtering them separately. */
  lemma {:induction false} FilterLinesAppend(a: seq<string>, b: seq<string>)
    ensures FilterLines(a + b) == FilterLines(a) + FilterLines(b)
  {
    if a == [] {
      assert a + b == b;
    } else {
      assert (a + b)[0] == a[0] && (a + b)[1..] == a[1..] + b;
      FilterLinesAppend(a[1..], b);
      var head := if KeepLine(a[0]) then [CleanLine(a[0])] else [];
      assert head + (FilterLines(a[1..]) + FilterLines(b)) == (head + FilterLines(a[1..])) + FilterLines(b);
    }
  }

  // ---- Numbering the constants of one block ----

  /** `valueIncrement++` on a C# `int`: unchecked, so it wraps at the top of the range. */
  function Increment(n: int): (r: int)
    ensures IsInt32(n) ==> IsInt32(r)
    ensures n != MaxInt32 ==> r == n + 1
  {
    if n == MaxInt32 then MinInt32 else n + 1
  }

  /** A line the enumeration accepts: at most one `=`, and exactly one in a
      non-integer block. */
  predicate LineAccepted(line: string, isIntegerType: bool) {
    Count(line, '=') <= 1 && (isIntegerType || Count(line, '=') == 1)
  }

  /** The exception a rejected line raises. */
  function LineError(line: string): Error {
    if Count(line, '=') > 1 then EnumPartCount(line) else EnumValueMissing(line)
  }

  /** What a filtered line is, before the counter is applied to it. */
  datatype LineShape =
      /** The line throws. */
    | Rejected(error: Error)
      /** An integer-block line without `=`: takes the counter's value. */
    | Implicit(key: string)
      /** An integer-block line whose value is an Int32: sets the counter; the
          key is the untrimmed text before `=`. */
    | Explicit(rawKey: string, number: int)
      /** An integer-block line whose value is not an Int32: kept as text, and
          the failed parse resets the counter to 0. */
    | NotANumber(key: string, text: string)
      /** A line of a non-integer block: its value, cast-stripped in the current copy. */
    | Valued(key: string, text: string)

  /** The branch `EnumerateFilteredEnumLines` takes for one line. */
  function Classify(line: string, isIntegerType: bool, trimCasts: bool): (r: LineShape)
    ensures r.Rejected? <==> !LineAccepted(line, isIntegerType)
    ensures r.Rejected? ==> r.error == LineError(line)
    ensures r.Implicit? || r.Explicit? || r.NotANumber? ==> isIntegerType
    ensures r.Explicit? ==> IsInt32(r.number)
  {
    var parts := Split(line, '=');
    if |parts| != 1 && |parts| != 2 then Rejected(EnumPartCount(line))
    else
      var key := Trim(parts[0]);
      if !isIntegerType then
        if |parts| == 1 then Rejected(EnumValueMissing(line))
        else
          var value := Trim(parts[1]);
          Valued(key, if trimCasts then TrimCasting(value) else value)
      else if |parts| == 1 then Implicit(key)
      else
        var value := Trim(parts[1]);
        match TryParseInt32(value)
        case Some(n) => Explicit(parts[0], n)
        case None => NotANumber(key, value)
  }

  function ClassifyAll(lines: seq<string>, isIntegerType: bool, trimCasts: bool): (shapes: seq<LineShape>)
    ensures |shapes| == |lines|
  {
    seq(|lines|, i requires 0 <= i < |lines| => Classify(lines[i], isIntegerType, trimCasts))
  }

  /** The constants a block yields up to the first exception, and that exception. */
  datatype EnumRun = EnumRun(entries: seq<AcsLibdefine>, err: Option<Error>)

  function Prepend(entries: seq<AcsLibdefine>, run: EnumRun): EnumRun {
    EnumRun(entries + run.entries, run.err)
  }

  /** Prepending twice is prepending the concatenation. */
  lemma PrependTwice(a: seq<AcsLibdefine>, b: seq<AcsLibdefine>, run: EnumRun)
    ensures Prepend(a, Prepend(b, run)) == Prepend(a + b, run)
  {
    assert a + (b + run.entries) == (a + b) + run.entries;
  }

  /** The constant an accepted line yields when the counter is at `counter`. */
  function ShapeEntry(shape: LineShape, counter: int): AcsLibdefine
    requires !shape.Rejected?
  {
    match shape
    case Implicit(key) => AcsLibdefine(key, IntToString(counter))
    case Explicit(rawKey, n) => AcsLibdefine(rawKey, IntToString(n))
    case NotANumber(key, text) => AcsLibdefine(key, text)
    case Valued(key, text) => AcsLibdefine(key, text)
  }

  /** The counter after an accepted line: incremented past an implicit line,
      set by an explicit one, reset by a failed parse, untouched otherwise. */
  function NextCounter(shape: LineShape, counter: int): int
    requires !shape.Rejected?
  {
    match shape
    case Implicit(_) => Increment(counter)
    case Explicit(_, n) => n
    case NotANumber(_, _) => 0
    case Valued(_, _) => counter
  }

  /** Classified lines enumerated from counter value `counter`. */
  function EnumerateShapes(shapes: seq<LineShape>, counter: int): (r: EnumRun)
    ensures |r.entries| <= |shapes|
  {
    if shapes == [] then EnumRun([], None)
    else if shapes[0].Rejected? then EnumRun([], Some(shapes[0].error))
    else Prepend([ShapeEntry(shapes[0], counter)],
                 EnumerateShapes(shapes[1..], NextCounter(shapes[0], counter)))
  }

  /** The constants of one block's filtered lines; the counter starts at 0. */
  function EnumerateLines(lines: seq<string>, isIntegerType: bool, trimCasts: bool): EnumRun {
    EnumerateShapes(ClassifyAll(lines, isIntegerType, trimCasts), 0)
  }

  /** One accepted line at position `i` contributes its constant and moves the counter. */
  lemma EnumerateAccepted(shapes: seq<LineShape>, i: nat, counter: int, entries: seq<AcsLibdefine>,
                          whole: EnumRun)
    requires i < |shapes| && !shapes[i].Rejected?
    requires whole == Prepend(entries, EnumerateShapes(shapes[i..], counter))
    ensures whole == Prepend(entries + [ShapeEntry(shapes[i], counter)],
                             EnumerateShapes(shapes[i + 1..], NextCounter(shapes[i], counter)))
  {
    assert shapes[i..][0] == shapes[i] && shapes[i..][1..] == shapes[i + 1..];
    PrependTwice(entries, [ShapeEntry(shapes[i], counter)],
                 EnumerateShapes(shapes[i + 1..], NextCounter(shapes[i], counter)));
  }

  /** A rejected line at position `i` ends the enumeration with its exception. */
  lemma EnumerateRejected(shapes: seq<LineShape>, i: nat, counter: int, entries: seq<AcsLibdefine>,
                          whole: EnumRun)
    requires i < |shapes| && shapes[i].Rejected?
    requires whole == Prepend(entries, EnumerateShapes(shapes[i..], counter))
    ensures whole == EnumRun(entries, Some(shapes[i].error))
  {
    assert shapes[i..][0] == shapes[i];
    assert entries + [] == entries;
  }

  /** Past the last line the enumeration has nothing more to add. */
  lemma EnumerateDone(shapes: seq<LineShape>, counter: int, entries: seq<AcsLibdefine>, whole: EnumRun)
    requires whole == Prepend(entries, EnumerateShapes(shapes[|shapes|..], counter))
    ensures whole == EnumRun(entries, None)
  {
    assert shapes[|shapes|..] == [];
    assert entries + [] == entries;
  }

  /** `EnumerateFilteredEnumLines`, eagerly: the constants produced before the
      enumeration stopped, and the exception that stopped it. */
  method EnumerateFilteredEnumLines(lines: seq<string>, isIntegerType: bool, trimCasts: bool)
    returns (entries: seq<AcsLibdefine>, err: Option<Error>)
    ensures EnumRun(entries, err) == EnumerateLines(lines, isIntegerType, trimCasts)
  {
    ghost var shapes := ClassifyAll(lines, isIntegerType, trimCasts);
    ghost var whole := EnumerateShapes(shapes, 0);
    var valueIncrement := 0;
    entries := [];
    var i := 0;
    while i < |lines|
      invariant 0 <= i <= |lines|
      invariant whole == Prepend(entries, EnumerateShapes(shapes[i..], valueIncrement))
    {
      var line := lines[i];
      assert shapes[i] == Classify(line, isIntegerType, trimCasts);
      var parts := Split(line, '=');
      if |parts| != 1 && |parts| != 2 {
        EnumerateRejected(shapes, i, valueIncrement, entries, whole);
        return entries, Some(EnumPartCount(line));
      }
      var key := Trim(parts[0]);
      var entry: AcsLibdefine;
      var next: int;
      if !isIntegerType {
        if |parts| == 1 {
          EnumerateRejected(shapes, i, valueIncrement, entries, whole);
          return entries, Some(EnumValueMissing(line));
        }
        var value := Trim(parts[1]);
        if trimCasts {
          value := TrimCasting(value);
        }
        assert shapes[i] == Valued(key, value);
        entry, next := AcsLibdefine(key, value), valueIncrement;
      } else if |parts| == 1 {
        assert shapes[i] == Implicit(key);
        entry, next := AcsLibdefine(key, IntToString(valueIncrement)), Increment(valueIncrement);
      } else {
        var value := Trim(parts[1]);
        var parsed := TryParseInt32(value);
        if parsed.Some? {
          assert shapes[i] == Explicit(parts[0], parsed.value);
          entry, next := AcsLibdefine(parts[0], IntToString(parsed.value)), parsed.value;
        } else {
          assert shapes[i] == NotANumber(key, value);
          entry, next := AcsLibdefine(key, value), 0;
        }
      }
      EnumerateAccepted(shapes, i, valueIncrement, entries, whole);
      entries := entries + [entry];
      valueIncrement := next;
      i := i + 1;
    }
    EnumerateDone(shapes, valueIncrement, entries, whole);
    err := None;
  }

  /** `TrimCasting`: removes every `(string)`, then every `(int)`, then every
      `(fixed)`, ignoring case. */
  function TrimCasting(value: string): (r: string)
    ensures |r| <= |value|
    ensures '(' !in value ==> r == value
  {
    NoCharUpperCasesToParen(value);
    RemoveIgnoreCase(RemoveIgnoreCase(RemoveIgnoreCase(value, "(string)"), "(int)"), "(fixed)")
  }

  /** Only `(` itself upper-cases to `(`. */
  lemma NoCharUpperCasesToParen(s: string)
    ensures '(' !in s ==> forall i :: 0 <= i < |s| ==> UpperChar(s[i]) != '('
  {
  }

  // ---- The whole extractor ----

  /** The constants of one matched block; a private block yields none. */
  function BlockEntries(m: EnumMatch, version: EnumParserVersion): EnumRun {
    if m.isPrivate.Success() then EnumRun([], None)
    else EnumerateLines(FilterEnumContent(m.enumContent.Value()),
                        version.IsIntegerType(m.enumType.Value()), version.TrimsCasts())
  }

  /** The blocks' constants appended in match order, up to the first exception. */
  function EnumBlocks(matches: seq<EnumMatch>, version: EnumParserVersion): EnumRun {
    if matches == [] then EnumRun([], None)
    else
      var block := BlockEntries(matches[0], version);
      if block.err.Some? then block
      else Prepend(block.entries, EnumBlocks(matches[1..], version))
  }

  /** The file after the extractor: `EnumLibdefines` is set (to the constants
      gathered before any exception) and no other field changes. */
  function EnumsParsed(file: AcsFile, matches: seq<EnumMatch>, version: EnumParserVersion): (s: Step<AcsFile>)
    ensures s.doc == file.(enumLibdefines := s.doc.enumLibdefines) && s.doc.enumLibdefines.Some?
  {
    var run := EnumBlocks(matches, version);
    Step(file.(enumLibdefines := Some(run.entries)), run.err)
  }

  /** Each run replaces the list outright, so running the extractor again on
      the same content gives the same document and outcome. */
  lemma EnumsParsedIdempotent(file: AcsFile, matches: seq<EnumMatch>, version: EnumParserVersion)
    ensures EnumsParsed(EnumsParsed(file, matches, version).doc, matches, version) == EnumsParsed(file, matches, version)
  {
  }

  /** The extractor only ever raises the two enumeration exceptions. */
  lemma {:induction false} EnumBlocksErrors(matches: seq<EnumMatch>, version: EnumParserVersion)
    ensures var e := EnumBlocks(matches, version).err;
      e.Some? ==> e.value.EnumPartCount? || e.value.EnumValueMissing?
  {
    if matches != [] {
      var m := matches[0];
      if !m.isPrivate.Success() {
        var lines := FilterEnumContent(m.enumContent.Value());
        var shapes := ClassifyAll(lines, version.IsIntegerType(m.enumType.Value()), version.TrimsCasts());
        EnumerateShapesOutcome(shapes, 0);
      }
      EnumBlocksErrors(matches[1..], version);
    }
  }

  /** One block at position `i`: its constants are appended, and its
      exception, if any, ends the extraction. */
  lemma EnumBlocksStep(matches: seq<EnumMatch>, i: nat, version: EnumParserVersion,
                       all: seq<AcsLibdefine>, entries: seq<AcsLibdefine>, err: Option<Error>, whole: EnumRun)
    requires i < |matches| && BlockEntries(matches[i], version) == EnumRun(entries, err)
    requires whole == Prepend(all, EnumBlocks(matches[i..], version))
    ensures err.None? ==> whole == Prepend(all + entries, EnumBlocks(matches[i + 1..], version))
    ensures err.Some? ==> whole == EnumRun(all + entries, err)
  {
    assert matches[i..][0] == matches[i] && matches[i..][1..] == matches[i + 1..];
    PrependTwice(all, entries, EnumBlocks(matches[i + 1..], version));
  }

  /** Past the last block the extraction has nothing more to add. */
  lemma EnumBlocksDone(matches: seq<EnumMatch>, version: EnumParserVersion, all: seq<AcsLibdefine>, whole: EnumRun)
    requires whole == Prepend(all, EnumBlocks(matches[|matches|..], version))
    ensures whole == EnumRun(all, None)
  {
    assert matches[|matches|..] == [];
    assert all + [] == all;
  }

  /** The body of the loop over the matches: a private block is skipped, any
      other is filtered and enumerated. */
  method ParseBlock(m: EnumMatch, version: EnumParserVersion) returns (entries: seq<AcsLibdefine>, err: Option<Error>)
    ensures EnumRun(entries, err) == BlockEntries(m, version)
  {
    if m.isPrivate.Success() {
      return [], None;
    }
    var isIntegerType := version.IsIntegerType(m.enumType.Value());
    var lines := FilterEnumContent(m.enumContent.Value());
    entries, err := EnumerateFilteredEnumLines(lines, isIntegerType, version.TrimsCasts());
  }

  /** `ParseAsync`: sets `EnumLibdefines` to an empty list, then appends each
      non-private block's constants; an exception leaves what was appended so far. */
  method ParseEnums(file: AcsFile, matches: seq<EnumMatch>, version: EnumParserVersion)
    returns (s: Step<AcsFile>)
    ensures s == EnumsParsed(file, matches, version)
  {
    ghost var whole := EnumBlocks(matches, version);
    var all: seq<AcsLibdefine> := [];
    var failure: Option<Error> := None;
    var i := 0;
    while i < |matches| && failure.None?
      invariant 0 <= i <= |matches|
      invariant failure.None? ==> whole == Prepend(all, EnumBlocks(matches[i..], version))
      invariant failure.Some? ==> whole == EnumRun(all, failure)
    {
      var entries, err := ParseBlock(matches[i], version);
      EnumBlocksStep(matches, i, version, all, entries, err, whole);
      all := all + entries;
      failure := err;
      i := i + 1;
    }
    if failure.None? {
      EnumBlocksDone(matches, version, all, whole);
    }
    s := Step(file.(enumLibdefines := Some(all)), failure);
  }

  // ---- Properties ----

  /** Enumeration stops at the first rejected line: it yields one constant
      per line when no line is rejected; otherwise the constants of the lines
      before the first rejected one, and that line's exception. */
  lemma {:induction false} EnumerateShapesOutcome(shapes: seq<LineShape>, counter: int)
    ensures var r := EnumerateShapes(shapes, counter);
      && (r.err.None? <==> forall i :: 0 <= i < |shapes| ==> !shapes[i].Rejected?)
      && (r.err.None? ==> |r.entries| == |shapes|)
      && (r.err.Some? ==>
            && |r.entries| < |shapes|
            && (forall i :: 0 <= i < |r.entries| ==> !shapes[i].Rejected?)
            && shapes[|r.entries|].Rejected?
            && r.err == Some(shapes[|r.entries|].error))
  {
    if shapes != [] && !shapes[0].Rejected? {
      var next := NextCounter(shapes[0], counter);
      var tail := EnumerateShapes(shapes[1..], next);
      EnumerateShapesOutcome(shapes[1..], next);
      var r := EnumerateShapes(shapes, counter);
      assert r.entries == [ShapeEntry(shapes[0], counter)] + tail.entries && r.err == tail.err;
      assert forall i :: 1 <= i < |shapes| ==> shapes[i] == shapes[1..][i - 1];
    }
  }

  /** A block's lines enumerate without an exception exactly when every line
      is accepted, and then yield one constant per line; otherwise the
      exception is the one of the first rejected line, and the constants are
      those of the lines before it. */
  lemma EnumerateLinesOutcome(lines: seq<string>, isIntegerType: bool, trimCasts: bool)
    ensures var r := EnumerateLines(lines, isIntegerType, trimCasts);
      && (r.err.None? <==> forall i :: 0 <= i < |lines| ==> LineAccepted(lines[i], isIntegerType))
      && (r.err.None? ==> |r.entries| == |lines|)
      && (r.err.Some? ==>
            && |r.entries| < |lines|
            && (forall i :: 0 <= i < |r.entries| ==> LineAccepted(lines[i], isIntegerType))
            && !LineAccepted(lines[|r.entries|], isIntegerType)
            && r.err == Some(LineError(lines[|r.entries|])))
  {
    var shapes := ClassifyAll(lines, isIntegerType, trimCasts);
    EnumerateShapesOutcome(shapes, 0);
    assert forall i :: 0 <= i < |lines| ==> shapes[i] == Classify(lines[i], isIntegerType, trimCasts);
  }

  /** A line without `=` in an integer block is an implicit constant named by the trimmed line. */
  lemma ImplicitLine(line: string, trimCasts: bool)
    requires '=' !in line
    ensures Classify(line, true, trimCasts) == Implicit(Trim(line))
  {
    SplitWithoutSeparator(line, '=');
  }

  /** A line `key=value` whose value is an Int32's text is explicit, and its key
      is kept exactly as written, surrounding spaces included. */
  lemma ExplicitLine(key: string, n: int, trimCasts: bool)
    requires '=' !in key && IsInt32(n)
    ensures Classify(key + "=" + IntToString(n), true, trimCasts) == Explicit(key, n)
  {
    var v := IntToString(n);
    NoEqualsInNumber(n);
    SplitAtSeparator(key, '=', v);
    SplitWithoutSeparator(v, '=');
    assert key + "=" + v == key + ['='] + v;
    TrimFacts(v);
    ParseFormatRoundTrip(n);
  }

  lemma NoEqualsInNumber(n: int)
    ensures '=' !in IntToString(n) && IsTrimmed(IntToString(n))
  {
    var ds := NaturalToString(if n < 0 then -n else n);
    NaturalToStringDigits(if n < 0 then -n else n);
  }

  /** Implicit constants are numbered `counter`, `counter + 1`, ... as long as
      the counter does not pass the top of the Int32 range. */
  lemma {:induction false} ImplicitValuesCountUp(shapes: seq<LineShape>, counter: int)
    requires forall i :: 0 <= i < |shapes| ==> shapes[i].Implicit?
    requires counter + |shapes| <= MaxInt32 + 1
    ensures EnumerateShapes(shapes, counter).err.None?
    ensures |EnumerateShapes(shapes, counter).entries| == |shapes|
    ensures forall k :: 0 <= k < |shapes| ==>
      EnumerateShapes(shapes, counter).entries[k] == AcsLibdefine(shapes[k].key, IntToString(counter + k))
  {
    if shapes != [] {
      var next := Increment(counter);
      var tail := EnumerateShapes(shapes[1..], next);
      var r := EnumerateShapes(shapes, counter);
      assert r.entries == [AcsLibdefine(shapes[0].key, IntToString(counter))] + tail.entries && r.err == tail.err;
      if |shapes| == 1 {
        assert shapes[1..] == [];
      } else {
        assert next == counter + 1;
        ImplicitValuesCountUp(shapes[1..], next);
        forall k | 1 <= k < |shapes|
          ensures r.entries[k] == AcsLibdefine(shapes[k].key, IntToString(counter + k))
        {
          assert shapes[k] == shapes[1..][k - 1] && r.entries[k] == tail.entries[k - 1];
          assert tail.entries[k - 1] == AcsLibdefine(shapes[1..][k - 1].key, IntToString(next + (k - 1)));
          assert next + (k - 1) == counter + k;
        }
      }
    }
  }

  /** A block of integer constants without values numbers them 0, 1, 2, ... */
  lemma ImplicitBlockNumbersFromZero(lines: seq<string>, trimCasts: bool)
    requires forall i :: 0 <= i < |lines| ==> '=' !in lines[i]
    requires |lines| <= MaxInt32 + 1
    ensures var r := EnumerateLines(lines, true, trimCasts);
      && r.err.None? && |r.entries| == |lines|
      && forall k :: 0 <= k < |lines| ==> r.entries[k] == AcsLibdefine(Trim(lines[k]), IntToString(k))
  {
    var shapes := ClassifyAll(lines, true, trimCasts);
    forall i | 0 <= i < |lines|
      ensures shapes[i] == Implicit(Trim(lines[i]))
    {
      ImplicitLine(lines[i], trimCasts);
    }
    ImplicitValuesCountUp(shapes, 0);
    var r := EnumerateShapes(shapes, 0);
    assert r == EnumerateLines(lines, true, trimCasts);
    forall k | 0 <= k < |lines|
      ensures r.entries[k] == AcsLibdefine(Trim(lines[k]), IntToString(k))
    {
      assert r.entries[k] == AcsLibdefine(shapes[k].key, IntToString(0 + k));
    }
  }

  /** One implicit line enumerates to the counter's current value. */
  lemma SingleImplicit(key: string, counter: int)
    ensures EnumerateShapes([Implicit(key)], counter)
      == EnumRun([AcsLibdefine(key, IntToString(counter))], None)
  {
    assert [Implicit(key)][1..] == [];
    assert [AcsLibdefine(key, IntToString(counter))] + [] == [AcsLibdefine(key, IntToString(counter))];
  }

  lemma ClassifyTwo(lines: seq<string>, isIntegerType: bool, trimCasts: bool)
    requires |lines| == 2
    ensures ClassifyAll(lines, isIntegerType, trimCasts)
      == [Classify(lines[0], isIntegerType, trimCasts), Classify(lines[1], isIntegerType, trimCasts)]
  {
  }

  lemma ClassifyThree(lines: seq<string>, isIntegerType: bool, trimCasts: bool)
    requires |lines| == 3
    ensures ClassifyAll(lines, isIntegerType, trimCasts) == [Classify(lines[0], isIntegerType, trimCasts),
      Classify(lines[1], isIntegerType, trimCasts), Classify(lines[2], isIntegerType, trimCasts)]
  {
  }

  /** The three classified lines of `ExplicitValueThenImplicits`. */
  lemma ExplicitThenImplicitShapes(key: string, n: int, a: string, b: string)
    ensures EnumerateShapes([Explicit(key, n), Implicit(a), Implicit(b)], 0)
      == EnumRun([AcsLibdefine(key, IntToString(n)), AcsLibdefine(a, IntToString(n)),
                  AcsLibdefine(b, IntToString(Increment(n)))], None)
  {
    var shapes := [Explicit(key, n), Implicit(a), Implicit(b)];
    var e0 := AcsLibdefine(key, IntToString(n));
    var e1 := AcsLibdefine(a, IntToString(n));
    var e2 := AcsLibdefine(b, IntToString(Increment(n)));
    assert shapes[1..] == [Implicit(a), Implicit(b)];
    assert shapes[1..][1..] == [Implicit(b)];
    SingleImplicit(b, Increment(n));
    assert EnumerateShapes(shapes[1..], n) == Prepend([e1], EnumRun([e2], None));
    assert [e0] + ([e1] + [e2]) == [e0, e1, e2];
  }

  /** After an explicit value the counter continues from it: `A = 5` followed
      by `B` and `C` gives `B` the value 5 as well, since the counter is set to
      the parsed value and not to the next one, and `C` the incremented one. */
  lemma ExplicitValueThenImplicits(key: string, n: int, a: string, b: string, trimCasts: bool)
    requires '=' !in key && '=' !in a && '=' !in b && IsInt32(n)
    ensures EnumerateLines([key + "=" + IntToString(n), a, b], true, trimCasts)
      == EnumRun([AcsLibdefine(key, IntToString(n)), AcsLibdefine(Trim(a), IntToString(n)),
                  AcsLibdefine(Trim(b), IntToString(Increment(n)))], None)
  {
    var lines := [key + "=" + IntToString(n), a, b];
    ExplicitLine(key, n, trimCasts);
    ImplicitLine(a, trimCasts);
    ImplicitLine(b, trimCasts);
    ClassifyThree(lines, true, trimCasts);
    ExplicitThenImplicitShapes(key, n, Trim(a), Trim(b));
  }

  /** The counter is an unchecked Int32: after the largest value it wraps to the smallest. */
  lemma CounterWrapsAround(key: string, a: string, b: string, trimCasts: bool)
    requires '=' !in key && '=' !in a && '=' !in b
    ensures var r := EnumerateLines([key + "=" + IntToString(MaxInt32), a, b], true, trimCasts);
      r.err.None? && |r.entries| == 3 && r.entries[2] == AcsLibdefine(Trim(b), IntToString(MinInt32))
  {
    ExplicitValueThenImplicits(key, MaxInt32, a, b, trimCasts);
  }

  /** An explicit value that does not parse (a shift, an expression) is kept
      as text and resets the counter, so a following implicit constant is 0. */
  lemma UnparseableValueResetsCounter(line: string, next: string, trimCasts: bool)
    requires Count(line, '=') == 1 && TryParseInt32(Trim(Split(line, '=')[1])) == None
    requires '=' !in next
    ensures var parts := Split(line, '=');
      EnumerateLines([line, next], true, trimCasts)
        == EnumRun([AcsLibdefine(Trim(parts[0]), Trim(parts[1])), AcsLibdefine(Trim(next), "0")], None)
  {
    var parts := Split(line, '=');
    ImplicitLine(next, trimCasts);
    ClassifyTwo([line, next], true, trimCasts);
    var shapes := [NotANumber(Trim(parts[0]), Trim(parts[1])), Implicit(Trim(next))];
    assert Classify(line, true, trimCasts) == shapes[0];
    assert shapes[1..] == [Implicit(Trim(next))];
    SingleImplicit(Trim(next), 0);
    assert IntToString(0) == "0";
    var e0, e1 := AcsLibdefine(Trim(parts[0]), Trim(parts[1])), AcsLibdefine(Trim(next), "0");
    assert [e0] + [e1] == [e0, e1];
  }

  /** On integer blocks the two copies agree: casts are only stripped from
      the values of other blocks. */
  lemma VersionsAgreeOnIntegerBlocks(lines: seq<string>)
    ensures EnumerateLines(lines, true, true) == EnumerateLines(lines, true, false)
  {
    assert ClassifyAll(lines, true, true) == ClassifyAll(lines, true, false);
  }

  // ---- Non-integer blocks ----

  /** The value a non-integer block keeps: the trimmed text after `=`, with
      the casts stripped by the current copy only. */
  function BlockValue(value: string, trimCasts: bool): string {
    if trimCasts then TrimCasting(Trim(value)) else Trim(value)
  }

  /** A line `key=value` of a non-integer block keeps its trimmed key and its
      value, cast-stripped only by the current copy. */
  lemma ValuedLine(key: string, value: string, trimCasts: bool)
    requires '=' !in key && '=' !in value
    ensures Classify(key + "=" + value, false, trimCasts) == Valued(Trim(key), BlockValue(value, trimCasts))
  {
    SplitAtSeparator(key, '=', value);
    SplitWithoutSeparator(value, '=');
    assert key + "=" + value == key + ['='] + value;
  }

  /** A non-integer block whose every line has one `=` yields one constant
      per line, in order, and never throws; the counter plays no part. */
  lemma {:induction false} ValuedBlockEntries(lines: seq<string>, trimCasts: bool, counter: int)
    requires forall k :: 0 <= k < |lines| ==> Count(lines[k], '=') == 1
    ensures var r := EnumerateShapes(ClassifyAll(lines, false, trimCasts), counter);
      && r.err.None? && |r.entries| == |lines|
      && forall k :: 0 <= k < |lines| ==>
           r.entries[k] == AcsLibdefine(Trim(Split(lines[k], '=')[0]), BlockValue(Split(lines[k], '=')[1], trimCasts))
  {
    var shapes := ClassifyAll(lines, false, trimCasts);
    if lines != [] {
      assert ClassifyAll(lines[1..], false, trimCasts) == shapes[1..];
      ValuedBlockEntries(lines[1..], trimCasts, counter);
      var parts := Split(lines[0], '=');
      assert shapes[0] == Valued(Trim(parts[0]), BlockValue(parts[1], trimCasts));
      var r := EnumerateShapes(shapes, counter);
      var rest := EnumerateShapes(shapes[1..], counter);
      assert r == Prepend([AcsLibdefine(Trim(parts[0]), BlockValue(parts[1], trimCasts))], rest);
      forall k | 1 <= k < |lines|
        ensures r.entries[k] == rest.entries[k - 1]
      {
      }
      assert forall k :: 1 <= k < |lines| ==> lines[1..][k - 1] == lines[k];
    }
  }

  /** What the current copy makes of a line the older copy classified:
      a non-integer value loses its casts, anything else is unchanged. */
  function Stripped(shape: LineShape): LineShape {
    if shape.Valued? then Valued(shape.key, TrimCasting(shape.text)) else shape
  }

  /** On one line of a non-integer block the current copy only strips casts. */
  lemma ClassifyStripped(line: string)
    ensures Classify(line, false, true) == Stripped(Classify(line, false, false))
    ensures Classify(line, false, false).Rejected? || Classify(line, false, false).Valued?
  {
  }

  /** Enumerating cast-stripped shapes strips the casts of the constants. */
  lemma {:induction false} EnumerateStripped(older: seq<LineShape>, newer: seq<LineShape>, counter: int)
    requires |older| == |newer|
    requires forall i :: 0 <= i < |older| ==> newer[i] == Stripped(older[i])
    requires forall i :: 0 <= i < |older| ==> older[i].Rejected? || older[i].Valued?
    ensures var o := EnumerateShapes(older, counter);
      var n := EnumerateShapes(newer, counter);
      && n.err == o.err && |n.entries| == |o.entries|
      && forall k :: 0 <= k < |o.entries| ==>
           n.entries[k] == AcsLibdefine(o.entries[k].key, TrimCasting(o.entries[k].value))
  {
    if older != [] && !older[0].Rejected? {
      EnumerateStripped(older[1..], newer[1..], counter);
      var o := EnumerateShapes(older, counter);
      var n := EnumerateShapes(newer, counter);
      var oRest := EnumerateShapes(older[1..], counter);
      var nRest := EnumerateShapes(newer[1..], counter);
      assert o.entries == [ShapeEntry(older[0], counter)] + oRest.entries;
      assert n.entries == [ShapeEntry(newer[0], counter)] + nRest.entries;
      forall k | 1 <= k < |o.entries|
        ensures n.entries[k] == AcsLibdefine(o.entries[k].key, TrimCasting(o.entries[k].value))
      {
        assert o.entries[k] == oRest.entries[k - 1];
        assert n.entries[k] == nRest.entries[k - 1];
      }
    }
  }

  /** In a non-integer block the two copies throw alike and keep the same
      keys; the current copy's values are the older copy's values with the
      casts stripped. */
  lemma VersionsOnValuedBlocks(lines: seq<string>)
    ensures var older := EnumerateLines(lines, false, false);
      var newer := EnumerateLines(lines, false, true);
      && newer.err == older.err && |newer.entries| == |older.entries|
      && forall k :: 0 <= k < |older.entries| ==>
           newer.entries[k] == AcsLibdefine(older.entries[k].key, TrimCasting(older.entries[k].value))
  {
    var older := ClassifyAll(lines, false, false);
    var newer := ClassifyAll(lines, false, true);
    forall i | 0 <= i < |lines|
      ensures newer[i] == Stripped(older[i]) && (older[i].Rejected? || older[i].Valued?)
    {
      ClassifyStripped(lines[i]);
    }
    EnumerateStripped(older, newer, 0);
  }

  /** `TrimCasting` removes an `(int)` cast. */
  lemma IntCastRemoved()
    ensures TrimCasting("(int)5") == "5"
  {
    assert RemoveIgnoreCase("(int)5", "(string)") == "(int)5";
    assert EqualsIgnoreCase("(int)5"[..5], "(int)");
    assert RemoveIgnoreCase("(int)5", "(int)") == RemoveIgnoreCase("5", "(int)") == "5";
    assert RemoveIgnoreCase("5", "(fixed)") == "5";
  }

  /** The key and value of `A = (int)5`, trimmed. */
  lemma ExampleLineParts()
    ensures "A = (int)5" == "A " + "=" + " (int)5"
    ensures Trim("A ") == "A" && Trim(" (int)5") == "(int)5"
  {
    TrimFacts("A ");
    TrimFacts(" (int)5");
  }

  /** `A = (int)5` in a non-integer block: the current copy keeps `5`, the
      older copy keeps `(int)5`. */
  lemma CastStrippedOnlyByCurrentCopy()
    ensures Classify("A = (int)5", false, true) == Valued("A", "5")
    ensures Classify("A = (int)5", false, false) == Valued("A", "(int)5")
  {
    ExampleLineParts();
    ValuedLine("A ", " (int)5", true);
    ValuedLine("A ", " (int)5", false);
    IntCastRemoved();
  }

  /** A private block contributes nothing: dropping it from the matches
      leaves the extractor's outcome unchanged. */
  lemma {:induction false} PrivateBlockIgnored(matches: seq<EnumMatch>, i: nat, version: EnumParserVersion)
    requires i < |matches| && matches[i].isPrivate.Success()
    ensures EnumBlocks(matches[..i] + matches[i + 1..], version) == EnumBlocks(matches, version)
  {
    var dropped := matches[..i] + matches[i + 1..];
    if i == 0 {
      assert dropped == matches[1..];
      assert EnumBlocks(matches, version) == Prepend([], EnumBlocks(matches[1..], version));
    } else {
      PrivateBlockIgnored(matches[1..], i - 1, version);
      assert dropped[0] == matches[0];
      assert dropped[1..] == matches[1..][..i - 1] + matches[1..][i..];
    }
  }
}
