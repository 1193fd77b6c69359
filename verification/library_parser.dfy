/** The `#library "name"` directive of a root ACS file: the file's library
    name is the name in the first directive of its text, matched ignoring
    case, and a file without one is an error. Both copies of the parser
    share this logic. The directive is recognised by a scanner that follows
    the pattern `#library "(?<library>[a-z]+)"` matched ignoring case. */
module LibraryParser {
  import opened Common
  import opened Text
  import opened AcsContext

  /** The directive, its single space and the opening quote. */
  const Directive: string := "#library \""

  /** `[a-z]` under case-insensitive matching. */
  predicate IsLetter(c: char) {
    'a' <= c <= 'z' || 'A' <= c <= 'Z'
  }

  predicate IsLetters(s: string) {
    |s| > 0 && forall i :: 0 <= i < |s| ==> IsLetter(s[i])
  }

  /** The length of the leading run of letters (`[a-z]+`, greedy). */
  function LetterLength(s: string): (n: nat)
    ensures n <= |s|
    ensures forall i :: 0 <= i < n ==> IsLetter(s[i])
    ensures n < |s| ==> !IsLetter(s[n])
  {
    if |s| == 0 || !IsLetter(s[0]) then 0 else 1 + LetterLength(s[1..])
  }

  /** The name after the opening quote: a run of letters closed by a quote.
      A shorter run would be followed by a letter, so only the longest can match. */
  function NameAfterQuote(rest: string): (r: Option<string>)
    ensures r.Some? ==> IsLetters(r.value)
  {
    var n := LetterLength(rest);
    if n == 0 || n == |rest| || rest[n] != '"' then None else Some(rest[..n])
  }

  /** The name of a directive starting exactly at the start of `s`, if any. */
  function NameAt(s: string): (r: Option<string>)
    ensures r.Some? ==> IsLetters(r.value)
  {
    if !StartsWithIgnoreCase(s, Directive) then None else NameAfterQuote(s[|Directive|..])
  }

  /** `Regex.Match`: the leftmost position where a directive starts. */
  function FirstLibrary(s: string): (r: Option<string>)
    ensures r.Some? ==> IsLetters(r.value)
    decreases |s|
  {
    if s == [] then None
    else if NameAt(s).Some? then NameAt(s)
    else FirstLibrary(s[1..])
  }

  /** `ParseAsync`: the library name is set from the first directive and no
      other field changes; without a directive the task throws and the file
      is unchanged. */
  function LibraryParsed(file: AcsFile): (s: Step<AcsFile>)
    ensures s.err.Some? <==> FirstLibrary(file.content).None?
    ensures s.err.Some? ==> s.doc == file && s.err.value == LibraryDirectiveMissing(file.absoluteFolderPath)
    ensures s.err.None? ==>
      && s.doc == file.(library := s.doc.library)
      && s.doc.library == FirstLibrary(file.content)
      && IsLetters(s.doc.library.value)
  {
    match FirstLibrary(file.content)
    case None => Step(file, Some(LibraryDirectiveMissing(file.absoluteFolderPath)))
    case Some(name) => Step(file.(library := Some(name)), None)
  }

  // ---- Where the directive is found ----

  /** A position without `#` starts no directive. */
  lemma NoMatchWithoutHash(s: string)
    requires |s| > 0 && s[0] != '#'
    ensures NameAt(s).None?
  {
    if |s| >= |Directive| {
      assert UpperChar(s[0]) != UpperChar(Directive[0]);
    }
  }

  /** Text without `#` holds no directive. */
  lemma {:induction false} NoHashNoLibrary(s: string)
    requires '#' !in s
    ensures FirstLibrary(s).None?
    decreases |s|
  {
    if s != [] {
      NoMatchWithoutHash(s);
      assert '#' !in s[1..] by {
        forall i | 0 <= i < |s| - 1 ensures s[1..][i] != '#' {
          assert s[1..][i] == s[i + 1];
        }
      }
      NoHashNoLibrary(s[1..]);
    }
  }

  /** Text before the first `#` is skipped. */
  lemma {:induction false} SkipTextWithoutHash(pre: string, s: string)
    requires '#' !in pre
    ensures FirstLibrary(pre + s) == FirstLibrary(s)
    decreases |pre|
  {
    if pre != [] {
      NoMatchWithoutHash(pre + s);
      assert (pre + s)[1..] == pre[1..] + s;
      assert FirstLibrary(pre + s) == FirstLibrary(pre[1..] + s);
      assert '#' !in pre[1..] by {
        forall i | 0 <= i < |pre| - 1 ensures pre[1..][i] != '#' {
          assert pre[1..][i] == pre[i + 1];
        }
      }
      SkipTextWithoutHash(pre[1..], s);
    } else {
      assert pre + s == s;
    }
  }

  /** The run of letters of a name ends at the first character after it that is not a letter. */
  lemma {:induction false} LetterLengthOfName(name: string, c: char, t: string)
    requires forall i :: 0 <= i < |name| ==> IsLetter(name[i])
    requires !IsLetter(c)
    ensures LetterLength(name + ([c] + t)) == |name|
    decreases |name|
  {
    var s := name + ([c] + t);
    if name == [] {
      assert s[0] == c;
    } else {
      assert s[0] == name[0] && s[1..] == name[1..] + ([c] + t);
      LetterLengthOfName(name[1..], c, t);
    }
  }

  /** The name of a directive at the start of the text is read up to its closing quote. */
  lemma NameOfDirective(name: string, t: string)
    requires IsLetters(name)
    ensures NameAt(Directive + (name + ("\"" + t))) == Some(name)
  {
    var rest := name + ("\"" + t);
    var s := Directive + rest;
    assert s[..|Directive|] == Directive;
    assert s[|Directive|..] == rest;
    LetterLengthOfName(name, '"', t);
    assert rest[|name|] == '"';
    assert rest[..|name|] == name;
  }

  /** The first directive after text without `#` names the library. */
  lemma DirectiveFound(pre: string, name: string, t: string)
    requires '#' !in pre && IsLetters(name)
    ensures FirstLibrary(pre + (Directive + (name + ("\"" + t)))) == Some(name)
  {
    var s := Directive + (name + ("\"" + t));
    SkipTextWithoutHash(pre, s);
    NameOfDirective(name, t);
  }

  /** A name followed by a digit is not recognised, and in text with no other
      `#` the parse fails: names are letters only. */
  lemma DigitEndsNoName(name: string, digit: char, t: string)
    requires forall i :: 0 <= i < |name| ==> IsLetter(name[i])
    requires IsDigit(digit) && '#' !in t
    ensures FirstLibrary(Directive + (name + ([digit] + t))).None?
  {
    var rest := name + ([digit] + t);
    var s := Directive + rest;
    NoNameBeforeDigit(name, digit, t);
    DropFront(Directive, rest);
    assert '#' !in Directive[1..];
    assert '#' !in name by {
      forall i | 0 <= i < |name| ensures name[i] != '#' {
        assert IsLetter(name[i]);
      }
    }
    NoHashNoLibrary(s[1..]);
  }

  /** A directive whose name runs into a digit names nothing. */
  lemma NoNameBeforeDigit(name: string, digit: char, t: string)
    requires forall i :: 0 <= i < |name| ==> IsLetter(name[i])
    requires IsDigit(digit)
    ensures NameAt(Directive + (name + ([digit] + t))).None?
  {
    var rest := name + ([digit] + t);
    DropFront(Directive, rest);
    LetterLengthOfName(name, digit, t);
    DropFront(name, [digit] + t);
  }

}
