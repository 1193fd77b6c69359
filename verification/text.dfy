/** The .NET string operations the core relies on: trimming, splitting,
    prefix tests, invariant upper-casing, case-insensitive removal, joining,
    and `int` formatting and parsing with the invariant culture. */
module Text {
  import opened Common

  /** `char.IsWhiteSpace`, which is also the regex class `\s`. */
  predicate IsWhiteSpace(c: char) {
    ('\t' <= c <= '\r') || c == ' ' || c == '\U{85}' || c == '\U{A0}' || c == '\U{1680}'
    || ('\U{2000}' <= c <= '\U{200A}') || c == '\U{2028}' || c == '\U{2029}'
    || c == '\U{202F}' || c == '\U{205F}' || c == '\U{3000}'
  }

  /** Neither end of `s` is white space: what `String.Trim` returns. */
  predicate IsTrimmed(s: string) {
    s == [] || (!IsWhiteSpace(s[0]) && !IsWhiteSpace(s[|s| - 1]))
  }

  function TrimStart(s: string): (r: string)
    ensures |r| <= |s|
  {
    if |s| > 0 && IsWhiteSpace(s[0]) then TrimStart(s[1..]) else s
  }

  function TrimEnd(s: string): (r: string)
    ensures |r| <= |s|
  {
    if |s| > 0 && IsWhiteSpace(s[|s| - 1]) then TrimEnd(s[..|s| - 1]) else s
  }

  /** `String.Trim()`: drops white space at both ends and nothing else. */
  function Trim(s: string): (r: string)
    ensures |r| <= |s|
  {
    TrimEnd(TrimStart(s))
  }

  /** `TrimStart` removes a prefix of white space and stops at the first other character. */
  lemma {:induction false} TrimStartFacts(s: string)
    ensures var r := TrimStart(s);
      && r == s[|s| - |r|..]
      && (r == [] || !IsWhiteSpace(r[0]))
      && forall i :: 0 <= i < |s| - |r| ==> IsWhiteSpace(s[i])
  {
    if |s| > 0 && IsWhiteSpace(s[0]) {
      TrimStartFacts(s[1..]);
      assert forall i :: 1 <= i < |s| ==> s[i] == s[1..][i - 1];
    }
  }

  /** `TrimEnd` removes a suffix of white space and stops at the last other character. */
  lemma {:induction false} TrimEndFacts(s: string)
    ensures var r := TrimEnd(s);
      && r == s[..|r|]
      && (r == [] || !IsWhiteSpace(r[|r| - 1]))
      && forall i :: |r| <= i < |s| ==> IsWhiteSpace(s[i])
  {
    if |s| > 0 && IsWhiteSpace(s[|s| - 1]) {
      TrimEndFacts(s[..|s| - 1]);
    }
  }

  /** The result of `Trim` is trimmed, and trimmed text is left as it is. */
  lemma TrimFacts(s: string)
    ensures IsTrimmed(Trim(s))
    ensures IsTrimmed(s) ==> Trim(s) == s
  {
    var t := TrimStart(s);
    TrimStartFacts(s);
    TrimEndFacts(t);
    var r := TrimEnd(t);
    assert r != [] ==> r[0] == t[0];
  }

  /** Trimming leaves nothing exactly when the text is all white space. */
  lemma TrimEmpty(s: string)
    ensures Trim(s) == [] <==> forall i :: 0 <= i < |s| ==> IsWhiteSpace(s[i])
  {
    var t := TrimStart(s);
    TrimStartFacts(s);
    TrimEndFacts(t);
    if t != [] {
      assert !IsWhiteSpace(s[|s| - |t|]);
    }
  }

  /** Trimming only removes characters, so a character absent before is absent after. */
  lemma TrimKeepsAbsent(s: string, c: char)
    requires c !in s
    ensures c !in Trim(s)
  {
    var t := TrimStart(s);
    TrimStartFacts(s);
    TrimEndFacts(t);
    assert forall x :: x in t ==> x in s;
  }

  /** The text of a number is a sign and digits, so it has no line break. */
  lemma IntToStringHasNoLineBreak(n: int)
    ensures '\n' !in IntToString(n) && '\r' !in IntToString(n)
  {
    NaturalToStringDigits(if n < 0 then -n else n);
  }

  /** Number of occurrences of `c` in `s`. */
  function Count(s: string, c: char): nat {
    if |s| == 0 then 0 else (if s[0] == c then 1 else 0) + Count(s[1..], c)
  }

  /** Occurrences in a concatenation add up. */
  lemma {:induction false} CountAppend(a: string, b: string, c: char)
    ensures Count(a + b, c) == Count(a, c) + Count(b, c)
  {
    if |a| > 0 {
      CountAppend(a[1..], b, c);
      assert (a + b)[1..] == a[1..] + b;
    } else {
      assert a + b == b;
    }
  }

  /** A character that does not occur is counted zero times. */
  lemma {:induction false} CountAbsent(s: string, c: char)
    requires c !in s
    ensures Count(s, c) == 0
  {
    if |s| > 0 {
      assert s[1..] <= s[1..];
      assert forall x :: x in s[1..] ==> x in s;
      CountAbsent(s[1..], c);
    }
  }

  /** `String.Split` on a one-character separator, keeping empty pieces. */
  function Split(s: string, sep: char): (parts: seq<string>)
    ensures |parts| == Count(s, sep) + 1
    ensures forall p :: p in parts ==> sep !in p
  {
    if |s| == 0 then [""]
    else
      var rest := Split(s[1..], sep);
      if s[0] == sep then [""] + rest else [[s[0]] + rest[0]] + rest[1..]
  }

  /** `String.Join(sep, parts)`. */
  function Join(sep: string, parts: seq<string>): string {
    if |parts| == 0 then ""
    else if |parts| == 1 then parts[0]
    else parts[0] + sep + Join(sep, parts[1..])
  }

  /** Joining the pieces of a split with the separator gives the original text back. */
  lemma {:induction false} JoinSplit(s: string, sep: char)
    ensures Join([sep], Split(s, sep)) == s
  {
    if |s| > 0 {
      var rest := Split(s[1..], sep);
      JoinSplit(s[1..], sep);
      if s[0] == sep {
        assert Split(s, sep) == [""] + rest;
        assert ([""] + rest)[1..] == rest;
      } else {
        var parts := [[s[0]] + rest[0]] + rest[1..];
        assert Split(s, sep) == parts;
        if |rest| == 1 {
          assert Join([sep], parts) == [s[0]] + rest[0];
        } else {
          assert parts[1..] == rest[1..];
          assert Join([sep], rest) == rest[0] + [sep] + Join([sep], rest[1..]);
        }
      }
    }
  }

  /** Text without the separator splits into itself alone. */
  lemma {:induction false} SplitWithoutSeparator(s: string, sep: char)
    requires sep !in s
    ensures Split(s, sep) == [s]
  {
    if |s| > 0 {
      SplitWithoutSeparator(s[1..], sep);
      assert [s[0]] + s[1..] == s;
    }
  }

  /** A separator after separator-free text ends the first piece there. */
  lemma {:induction false} SplitAtSeparator(a: string, sep: char, b: string)
    requires sep !in a
    ensures Split(a + [sep] + b, sep) == [a] + Split(b, sep)
  {
    var s := a + [sep] + b;
    if a == [] {
      assert s[1..] == b;
    } else {
      SplitAtSeparator(a[1..], sep, b);
      assert s[1..] == a[1..] + [sep] + b;
      assert [a[0]] + a[1..] == a;
    }
  }

  /** `String.Split(new[] { "\r\n", "\r", "\n" }, StringSplitOptions.None)`:
      at each position the two-character break is tried before the single ones. */
  function SplitLines(s: string): (lines: seq<string>)
    ensures |lines| >= 1
    ensures forall l :: l in lines ==> '\r' !in l && '\n' !in l
  {
    if |s| == 0 then [""]
    else if |s| >= 2 && s[0] == '\r' && s[1] == '\n' then [""] + SplitLines(s[2..])
    else if s[0] == '\r' || s[0] == '\n' then [""] + SplitLines(s[1..])
    else
      var rest := SplitLines(s[1..]);
      [[s[0]] + rest[0]] + rest[1..]
  }

  /** The line breaks `SplitLines` consumes, in order. */
  function LineBreaks(s: string): (bs: seq<string>)
    ensures forall b :: b in bs ==> b == "\r\n" || b == "\r" || b == "\n"
  {
    if |s| == 0 then []
    else if |s| >= 2 && s[0] == '\r' && s[1] == '\n' then ["\r\n"] + LineBreaks(s[2..])
    else if s[0] == '\r' || s[0] == '\n' then [s[..1]] + LineBreaks(s[1..])
    else LineBreaks(s[1..])
  }

  /** Lines put back together with the breaks between them. */
  function Interleave(lines: seq<string>, breaks: seq<string>): string
    requires |lines| == |breaks| + 1
  {
    if breaks == [] then lines[0]
    else lines[0] + breaks[0] + Interleave(lines[1..], breaks[1..])
  }

  /** A character in front of the first line is in front of the whole text. */
  lemma InterleaveCons(c: char, lines: seq<string>, breaks: seq<string>)
    requires |lines| == |breaks| + 1
    ensures Interleave([[c] + lines[0]] + lines[1..], breaks) == [c] + Interleave(lines, breaks)
  {
    var ls := [[c] + lines[0]] + lines[1..];
    assert ls[1..] == lines[1..];
  }

  /** The lines are the text between the breaks: putting the consumed breaks
      back between them gives the text again. */
  lemma {:induction false} SplitLinesRejoin(s: string)
    ensures |SplitLines(s)| == |LineBreaks(s)| + 1
    ensures Interleave(SplitLines(s), LineBreaks(s)) == s
  {
    if |s| >= 2 && s[0] == '\r' && s[1] == '\n' {
      SplitLinesRejoin(s[2..]);
      var ls := [""] + SplitLines(s[2..]);
      var bs := ["\r\n"] + LineBreaks(s[2..]);
      assert ls[1..] == SplitLines(s[2..]) && bs[1..] == LineBreaks(s[2..]);
      assert s == "" + "\r\n" + s[2..];
    } else if |s| > 0 && (s[0] == '\r' || s[0] == '\n') {
      SplitLinesRejoin(s[1..]);
      var ls := [""] + SplitLines(s[1..]);
      var bs := [s[..1]] + LineBreaks(s[1..]);
      assert ls[1..] == SplitLines(s[1..]) && bs[1..] == LineBreaks(s[1..]);
      assert s == "" + s[..1] + s[1..];
    } else if |s| > 0 {
      SplitLinesRejoin(s[1..]);
      InterleaveCons(s[0], SplitLines(s[1..]), LineBreaks(s[1..]));
      assert [s[0]] + s[1..] == s;
    }
  }

  /** Without carriage returns, splitting into lines is splitting at `\n`. */
  lemma {:induction false} SplitLinesOnLineFeeds(s: string)
    requires '\r' !in s
    ensures SplitLines(s) == Split(s, '\n')
    ensures Join("\n", SplitLines(s)) == s
  {
    if |s| > 0 {
      assert '\r' !in s[1..] by { assert forall i :: 0 <= i < |s| - 1 ==> s[1..][i] == s[i + 1]; }
      SplitLinesOnLineFeeds(s[1..]);
    }
    JoinSplit(s, '\n');
  }

  predicate StartsWith(s: string, prefix: string) {
    |prefix| <= |s| && s[..|prefix|] == prefix
  }

  /** Appending text keeps every prefix. */
  lemma StartsWithAppended()
    ensures forall s: string, t: string, p: string {:trigger StartsWith(s + t, p)} ::
      StartsWith(s, p) ==> StartsWith(s + t, p)
  {
    forall s: string, t: string, p: string | StartsWith(s, p)
      ensures StartsWith(s + t, p)
    {
      assert (s + t)[..|p|] == s[..|p|];
    }
  }

  predicate EndsWith(s: string, suffix: string) {
    |suffix| <= |s| && s[|s| - |suffix|..] == suffix
  }

  /** `char.ToUpperInvariant`, on the ASCII letters. */
  function UpperChar(c: char): char {
    if 'a' <= c <= 'z' then (c as int - 32) as char else c
  }

  /** `String.ToUpperInvariant`, on the ASCII letters. */
  function ToUpper(s: string): (r: string)
    ensures |r| == |s|
  {
    seq(|s|, i requires 0 <= i < |s| => UpperChar(s[i]))
  }

  /** Ordinal comparison ignoring case. */
  predicate EqualsIgnoreCase(a: string, b: string) {
    ToUpper(a) == ToUpper(b)
  }

  predicate StartsWithIgnoreCase(s: string, prefix: string) {
    |prefix| <= |s| && forall i :: 0 <= i < |prefix| ==> UpperChar(s[i]) == UpperChar(prefix[i])
  }

  /** `s.Replace(pattern, "", StringComparison.OrdinalIgnoreCase)`: removes the
      non-overlapping occurrences of `pattern`, scanning from the left. */
  function RemoveIgnoreCase(s: string, pattern: string): (r: string)
    requires |pattern| > 0
    ensures |r| <= |s|
    ensures (forall i :: 0 <= i < |s| ==> UpperChar(s[i]) != UpperChar(pattern[0])) ==> r == s
    decreases |s|
  {
    if |s| < |pattern| then s
    else if EqualsIgnoreCase(s[..|pattern|], pattern) then
      assert ToUpper(s[..|pattern|])[0] == UpperChar(s[0]);
      RemoveIgnoreCase(s[|pattern|..], pattern)
    else [s[0]] + RemoveIgnoreCase(s[1..], pattern)
  }

  // ---- Int32 formatting and parsing (invariant culture) ----

  const MinInt32: int := -0x8000_0000
  const MaxInt32: int := 0x7FFF_FFFF

  predicate IsInt32(n: int) { MinInt32 <= n <= MaxInt32 }

  predicate IsDigit(c: char) { '0' <= c <= '9' }

  predicate AllDigits(s: string) { forall i :: 0 <= i < |s| ==> IsDigit(s[i]) }

  /** The value of a run of decimal digits, most significant first. */
  function DigitsValue(ds: string): nat
    requires AllDigits(ds)
  {
    if |ds| == 0 then 0
    else DigitsValue(ds[..|ds| - 1]) * 10 + (ds[|ds| - 1] as int - '0' as int)
  }

  /** The shortest decimal digits of `n`. */
  function NaturalToString(n: nat): (r: string)
    ensures |r| >= 1
  {
    if n < 10 then [DigitChar(n)] else NaturalToString(n / 10) + [DigitChar(n % 10)]
  }

  /** The decimal digit for `d`. */
  function DigitChar(d: nat): (c: char)
    requires d < 10
    ensures IsDigit(c) && c as int - '0' as int == d
  {
    ('0' as int + d) as char
  }

  /** The digits `NaturalToString` produces denote the number. */
  lemma {:induction false} NaturalToStringDigits(n: nat)
    ensures AllDigits(NaturalToString(n)) && DigitsValue(NaturalToString(n)) == n
  {
    if n >= 10 {
      NaturalToStringDigits(n / 10);
      var r := NaturalToString(n);
      assert r[..|r| - 1] == NaturalToString(n / 10);
    }
  }

  /** `int.ToString(CultureInfo.InvariantCulture)`. */
  function IntToString(n: int): string {
    if n < 0 then "-" + NaturalToString(-n) else NaturalToString(n)
  }

  /** The white space `int.TryParse` skips around a number. */
  predicate IsNumberSpace(c: char) { '\t' <= c <= '\r' || c == ' ' }

  function DropNumberSpace(s: string): string {
    if |s| > 0 && IsNumberSpace(s[0]) then DropNumberSpace(s[1..]) else s
  }

  function DropTrailingNumberSpace(s: string): string {
    if |s| > 0 && IsNumberSpace(s[|s| - 1]) then DropTrailingNumberSpace(s[..|s| - 1]) else s
  }

  /** `int.TryParse(s, NumberStyles.Integer, ...)`: optional surrounding white
      space, an optional sign, at least one digit, and a value inside Int32. */
  function TryParseInt32(s: string): (r: Option<int>)
    ensures r.Some? ==> IsInt32(r.value)
  {
    var t := DropTrailingNumberSpace(DropNumberSpace(s));
    var signed := |t| > 0 && (t[0] == '-' || t[0] == '+');
    var digits := if signed then t[1..] else t;
    if |digits| == 0 || !AllDigits(digits) then None
    else
      var v: int := if |t| > 0 && t[0] == '-' then -(DigitsValue(digits) as int) else DigitsValue(digits);
      if IsInt32(v) then Some(v) else None
  }

  /** The invariant-culture text of an Int32 parses back to the same number. */
  lemma ParseFormatRoundTrip(n: int)
    requires IsInt32(n)
    ensures TryParseInt32(IntToString(n)) == Some(n)
  {
    var s := IntToString(n);
    var ds := NaturalToString(if n < 0 then -n else n);
    NaturalToStringDigits(if n < 0 then -n else n);
    assert s == if n < 0 then "-" + ds else ds;
    assert !IsNumberSpace(s[0]);
    assert DropNumberSpace(s) == s;
    assert s[|s| - 1] == ds[|ds| - 1];
    assert DropTrailingNumberSpace(s) == s;
    if n < 0 {
      assert s[1..] == ds;
    }
  }
}
