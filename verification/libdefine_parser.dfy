/** `#libdefine KEY VALUE` directives: the file's libdefine list is replaced
    by one entry per directive found in its own text, in document order.
    The directive is recognised by a scanner that follows the pattern
    `#libdefine (?<key>[^\s]+) (?<value>.+)` matched ignoring case. */
module LibdefineParser {
  import opened Common
  import opened Text
  import opened AcsContext

  /** The directive and the single space after it. */
  const Directive: string := "#libdefine "

  /** What every scanned entry satisfies: a non-empty key without white
      space and a non-empty value without a line feed. */
  predicate WellFormed(d: AcsLibdefine) {
    && |d.key| > 0 && (forall i :: 0 <= i < |d.key| ==> !IsWhiteSpace(d.key[i]))
    && |d.value| > 0 && '\n' !in d.value
  }

  /** The length of the leading run of non-white-space characters (`[^\s]+`, greedy). */
  function KeyLength(s: string): (n: nat)
    ensures n <= |s|
    ensures forall i :: 0 <= i < n ==> !IsWhiteSpace(s[i])
    ensures n < |s| ==> IsWhiteSpace(s[n])
  {
    if |s| == 0 || IsWhiteSpace(s[0]) then 0 else 1 + KeyLength(s[1..])
  }

  /** The length of the leading run of characters other than a line feed (`.+`, greedy). */
  function LineLength(s: string): (n: nat)
    ensures n <= |s|
    ensures '\n' !in s[..n]
    ensures n < |s| ==> s[n] == '\n'
  {
    if |s| == 0 || s[0] == '\n' then 0
    else
      assert s[..1 + LineLength(s[1..])] == [s[0]] + s[1..][..LineLength(s[1..])];
      1 + LineLength(s[1..])
  }

  /** A match found at the start of the text: the entry and the matched length. */
  datatype Hit = Hit(entry: AcsLibdefine, length: nat)

  /** The key, the space and the value that must follow the directive;
      `length` counts from the start of `rest`. The key must be followed by
      exactly one space (a shorter key would be followed by a non-space); the
      value runs to the end of the line and may keep a `\r`. */
  function MatchKeyValue(rest: string): (h: Option<Hit>)
    ensures h.Some? ==>
      && WellFormed(h.value.entry)
      && 0 < h.value.length <= |rest|
  {
    var k := KeyLength(rest);
    if k == 0 || k == |rest| || rest[k] != ' ' then None
    else
      var v := LineLength(rest[k + 1..]);
      if v == 0 then None
      else
        var key := rest[..k];
        var value := rest[k + 1..][..v];
        Some(Hit(AcsLibdefine(key, value), k + 1 + v))
  }

  /** The match of the pattern at the start of `s`, if any, and its length. */
  function MatchAt(s: string): (h: Option<Hit>)
    ensures h.Some? ==>
      && WellFormed(h.value.entry)
      && 0 < h.value.length <= |s|
  {
    if !StartsWithIgnoreCase(s, Directive) then None
    else match MatchKeyValue(s[|Directive|..])
      case None => None
      case Some(h) =>
        Some(Hit(h.entry, |Directive| + h.length))
  }

  /** `Regex.Matches`: the non-overlapping matches from left to right; the
      search resumes where a match ends, or one character further on. */
  function Scan(s: string): (defs: seq<AcsLibdefine>)
    ensures forall i :: 0 <= i < |defs| ==> WellFormed(defs[i])
    decreases |s|
  {
    if s == [] then []
    else match MatchAt(s)
      case Some(h) => [h.entry] + Scan(s[h.length..])
      case None => Scan(s[1..])
  }

  /** `ParseAsync`: the libdefine list is replaced by the entries of the
      file's own content; no other field changes and the task never fails
      (both groups take part in every match). */
  function LibdefinesParsed(file: AcsFile): (s: Step<AcsFile>)
    ensures s.err.None?
    ensures s.doc == file.(libDefines := s.doc.libDefines)
    ensures s.doc.libDefines == Some(Scan(file.content))
  {
    Step(file.(libDefines := Some(Scan(file.content))), None)
  }

  // ---- Round trip ----

  /** The directive line of `d`, as a file would spell it, in front of the text `t`. */
  function DirectiveLine(d: AcsLibdefine, t: string): string {
    Directive + (d.key + (" " + (d.value + ("\n" + t))))
  }

  /** A file made of directive lines only. */
  function Render(defs: seq<AcsLibdefine>): string {
    if defs == [] then "" else DirectiveLine(defs[0], Render(defs[1..]))
  }

  /** The key is the whole run of non-white-space characters in front of the space. */
  lemma {:induction false} KeyLengthOfKey(key: string, t: string)
    requires forall i :: 0 <= i < |key| ==> !IsWhiteSpace(key[i])
    ensures KeyLength(key + (" " + t)) == |key|
    decreases |key|
  {
    var s := key + (" " + t);
    if key == [] {
      assert s[0] == ' ';
    } else {
      assert s[0] == key[0] && s[1..] == key[1..] + (" " + t);
      KeyLengthOfKey(key[1..], t);
    }
  }

  /** The value is the whole run of characters in front of the line feed. */
  lemma {:induction false} LineLengthOfValue(value: string, t: string)
    requires '\n' !in value
    ensures LineLength(value + ("\n" + t)) == |value|
    decreases |value|
  {
    var s := value + ("\n" + t);
    if value == [] {
      assert s[0] == '\n';
    } else {
      assert value[0] in value;
      assert s[0] == value[0] && s[1..] == value[1..] + ("\n" + t);
      assert forall c :: c in value[1..] ==> c in value;
      LineLengthOfValue(value[1..], t);
    }
  }

  /** Text that begins with the directive starts with it ignoring case, and
      what follows the directive is the rest of the text. */
  lemma DirectivePrefix(rest: string)
    ensures StartsWithIgnoreCase(Directive + rest, Directive)
    ensures (Directive + rest)[|Directive|..] == rest
  {
    assert (Directive + rest)[..|Directive|] == Directive;
  }

  /** The key and value of a directive line are matched up to its line feed. */
  lemma MatchKeyValueOfLine(d: AcsLibdefine, t: string)
    requires WellFormed(d)
    ensures MatchKeyValue(d.key + (" " + (d.value + ("\n" + t)))) == Some(Hit(d, |d.key| + 1 + |d.value|))
  {
    var fromValue := d.value + ("\n" + t);
    var fromSpace := " " + fromValue;
    var rest := d.key + fromSpace;
    KeyLengthOfKey(d.key, fromValue);
    assert rest[|d.key|] == ' ';
    assert rest[|d.key|..] == fromSpace;
    assert rest[|d.key| + 1..] == fromValue;
    LineLengthOfValue(d.value, t);
    assert rest[..|d.key|] == d.key;
    assert fromValue[..|d.value|] == d.value;
  }

  /** A directive line at the start of the text is matched whole, up to its line feed. */
  lemma MatchDirectiveLine(d: AcsLibdefine, t: string)
    requires WellFormed(d)
    ensures MatchAt(DirectiveLine(d, t)) == Some(Hit(d, |Directive| + |d.key| + 1 + |d.value|))
  {
    DirectivePrefix(d.key + (" " + (d.value + ("\n" + t))));
    MatchKeyValueOfLine(d, t);
  }

  /** No match starts at a line feed. */
  lemma NoMatchAtLineFeed(t: string)
    ensures MatchAt("\n" + t).None?
  {
    var s := "\n" + t;
    if |s| >= |Directive| {
      assert UpperChar(s[0]) != UpperChar(Directive[0]);
    }
  }

  /** A match at the start of the text is its first entry; the scan resumes after it. */
  lemma ScanAtMatch(s: string, h: Hit)
    requires MatchAt(s) == Some(h)
    ensures Scan(s) == [h.entry] + Scan(s[h.length..])
  {
  }

  /** A line feed in front of a text adds no entry. */
  lemma ScanLineFeed(t: string)
    ensures Scan("\n" + t) == Scan(t)
  {
    NoMatchAtLineFeed(t);
    assert ("\n" + t)[1..] == t;
  }

  /** A directive line in front of a text adds its entry in front of the text's entries. */
  lemma ScanDirectiveLine(d: AcsLibdefine, t: string)
    requires WellFormed(d)
    ensures Scan(DirectiveLine(d, t)) == [d] + Scan(t)
  {
    var lf := "\n" + t;
    var fromValue := d.value + lf;
    var fromSpace := " " + fromValue;
    var fromKey := d.key + fromSpace;
    var s := Directive + fromKey;
    assert s == DirectiveLine(d, t);
    var len := |Directive| + |d.key| + 1 + |d.value|;
    assert s[|Directive|..] == fromKey;
    assert fromKey[|d.key|..] == fromSpace;
    assert fromSpace[1..] == fromValue;
    assert fromValue[|d.value|..] == lf;
    assert s[len..] == lf;
    MatchDirectiveLine(d, t);
    ScanAtMatch(s, Hit(d, len));
    ScanLineFeed(t);
  }

  /** Scanning the directive lines of well-formed entries gives the entries
      back, in order. */
  lemma {:induction false} ScanRender(defs: seq<AcsLibdefine>)
    requires forall i :: 0 <= i < |defs| ==> WellFormed(defs[i])
    ensures Scan(Render(defs)) == defs
  {
    if defs != [] {
      ScanDirectiveLine(defs[0], Render(defs[1..]));
      ScanRender(defs[1..]);
      assert defs == [defs[0]] + defs[1..];
    }
  }

  /** With `\r\n` line endings the carriage return stays in the value. */
  lemma CarriageReturnKeptInValue(key: string, value: string)
    requires |key| > 0 && (forall i :: 0 <= i < |key| ==> !IsWhiteSpace(key[i]))
    requires '\n' !in value
    ensures Scan(Directive + (key + (" " + (value + "\r\n")))) == [AcsLibdefine(key, value + "\r")]
  {
    var d := AcsLibdefine(key, value + "\r");
    assert "\r\n" == "\r" + ("\n" + "");
    AppendAssoc(value, "\r", "\n" + "");
    assert WellFormed(d);
    ScanDirectiveLine(d, "");
    assert Scan("") == [];
  }
}
