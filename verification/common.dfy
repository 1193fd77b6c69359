/** Types shared by every part of the model: optional values, results, the
    exceptions the parsers raise, regex group captures and the platform newline. */
module Common {

  datatype Option<+T> = None | Some(value: T)

  datatype Result<+T> = Ok(value: T) | Err(error: Error)

  /** The included-files list of a document: `Unparsed` while it is null (the
      include parser has not run), `Included(files)` once it is set. A type of
      its own, rather than `Option`, so that the files are structurally smaller
      than the document holding them. */
  datatype Included<+T> = Unparsed | Included(files: seq<T>)

  /** The kind of a method record (`AcsMethodType`). */
  datatype AcsMethodType = FunctionMethod | ScriptMethod

  /** The exceptions raised inside the core, one constructor per throw site kind. */
  datatype Error =
      /** `FileNotFoundException` raised by `FromPathAsync` for a path that does not exist. */
    | FileNotFound(path: string)
      /** `InvalidOperationException` raised when `Path.GetDirectoryName` gives null. */
    | NoFolderPath(path: string)
      /** `InvalidOperationException`: an enum line split on `=` into neither one nor two parts. */
    | EnumPartCount(line: string)
      /** `InvalidOperationException`: a line of a non-integer enum without `=`. */
    | EnumValueMissing(line: string)
      /** `InvalidOperationException`: a required group of a function or script match did not participate. */
    | MissingGroup(kind: AcsMethodType, group: string, matchText: string)
      /** `InvalidOperationException`: a four-part parameter whose fourth part is not `=`. */
    | OptionalParameterExpected(piece: string, got: string)
      /** `InvalidOperationException`: a parameter that does not split into two parts. */
    | ParameterPartCount(piece: string, count: nat)
      /** `InvalidOperationException`: the root ACS file has no `#library` directive. */
    | LibraryDirectiveMissing(folder: string)
      /** `InvalidOperationException`: the public ACS source is generated for a file without `Library`. */
    | LibraryUnset
      /** `IndexOutOfRangeException`: a todo capture index past the end of the content. */
    | IndexOutOfRange(index: nat)
      /** `NotImplementedException`: the `gdccc` compiler was requested. */
    | CompilerNotImplemented
      /** The exception a parse orchestrator raises around a failing task, the task's name and the original. */
    | TaskFailed(task: string, inner: Error)
      /** The include recursion went deeper than the model's fuel (a stack overflow in the source). */
    | IncludeDepthExceeded
      /** `InvalidOperationException`: a publish task found no project context. */
    | ProjectContextMissing
      /** `InvalidOperationException`: a task type that does not create an `IPublishTask`. */
    | NotAPublishTask(task: string)
      /** Any other exception a publish task raises (I/O, the compilers), by its message. */
    | TaskException(message: string)

  /** `xs.Select(f).ToList()` for an `f` that may throw: every result in
      order, or the exception of the first element on which `f` throws (the
      elements after it are never evaluated). */
  function TryMap<A, B>(xs: seq<A>, f: A -> Result<B>): (r: Result<seq<B>>)
    ensures r.Ok? <==> forall i :: 0 <= i < |xs| ==> f(xs[i]).Ok?
    ensures r.Ok? ==> |r.value| == |xs| && forall i :: 0 <= i < |xs| ==> f(xs[i]) == Ok(r.value[i])
    ensures r.Err? ==>
      exists i :: 0 <= i < |xs| && f(xs[i]) == Err(r.error) && forall j :: 0 <= j < i ==> f(xs[j]).Ok?
  {
    if xs == [] then Ok([])
    else match f(xs[0])
      case Err(e) => Err(e)
      case Ok(y) =>
        match TryMap(xs[1..], f)
        case Err(e) =>
          var k :| 0 <= k < |xs| - 1 && f(xs[1..][k]) == Err(e) && forall j :: 0 <= j < k ==> f(xs[1..][j]).Ok?;
          assert xs[k + 1] == xs[1..][k];
          assert forall j :: 0 < j <= k ==> xs[j] == xs[1..][j - 1];
          Err(e)
        case Ok(ys) =>
          assert forall i :: 0 < i < |xs| ==> xs[i] == xs[1..][i - 1];
          Ok([y] + ys)
  }

  /** A regex group of a match: `Missing` when the group did not participate. */
  datatype Group = Missing | Captured(index: nat, text: string) {
    /** `Group.Success`. */
    predicate Success() { Captured? }
    /** `Group.Value`: the captured text, or the empty string for a non-participating group. */
    function Value(): string { if Captured? then text else "" }
    /** `Group.Index`: zero for a non-participating group. */
    function Index(): nat { if Captured? then index else 0 }
  }

  /** The outcome of one extractor run on a document: the document as the
      extractor left it (possibly partially updated) and the exception, if any. */
  datatype Step<D> = Step(doc: D, err: Option<Error>)

  /** `Environment.NewLine`: its value depends on the platform. */
  type LineBreak = s: string | s == "\n" || s == "\r\n" witness "\n"

  const NewLine: LineBreak

  /** `StringBuilder.AppendLine(s)`: the text followed by the platform newline. */
  function Line(s: string): string { s + NewLine }

  /** The images of the items of `xs` under `f`, concatenated in order: a
      foreach loop appending each item's text, or `SelectMany`. */
  function ConcatMap<A, T>(xs: seq<A>, f: A -> seq<T>): seq<T> {
    if xs == [] then [] else ConcatMap(xs[..|xs| - 1], f) + f(xs[|xs| - 1])
  }

  /** Mapping a concatenation maps its two parts one after the other. */
  lemma {:induction false} ConcatMapAppend<A, T>(a: seq<A>, b: seq<A>, f: A -> seq<T>)
    ensures ConcatMap(a + b, f) == ConcatMap(a, f) + ConcatMap(b, f)
    decreases |b|
  {
    if b == [] {
      assert a + b == a;
    } else {
      var last := |b| - 1;
      DropLast(a, b);
      ConcatMapAppend(a, b[..last], f);
    }
  }

  /** The first item's image comes first. */
  lemma ConcatMapCons<A, T>(x: A, xs: seq<A>, f: A -> seq<T>)
    ensures ConcatMap([x] + xs, f) == f(x) + ConcatMap(xs, f)
  {
    ConcatMapAppend([x], xs, f);
    assert [x][..0] == [];
  }

  /** One more item's image appended to text that ends with the images of
      the items before it: the step of a loop that appends item by item. */
  lemma ConcatMapStep<A, T>(xs: seq<A>, i: nat, f: A -> seq<T>, start: seq<T>, before: seq<T>, after: seq<T>)
    requires i < |xs|
    requires before == start + ConcatMap(xs[..i], f)
    requires after == before + f(xs[i])
    ensures after == start + ConcatMap(xs[..i + 1], f)
  {
    assert xs[..i + 1][..i] == xs[..i];
  }

  /** A list is its first `k` items followed by the rest. */
  lemma SplitAt<T>(s: seq<T>, k: nat)
    requires k <= |s|
    ensures s[..k] + s[k..] == s
    ensures k > 0 ==> s[..k][..k - 1] == s[..k - 1] && s[..k][k - 1] == s[k - 1]
  {
  }

  /** Dropping the last item of a concatenation drops it from its second part. */
  lemma DropLast<T>(a: seq<T>, b: seq<T>)
    requires b != []
    ensures (a + b)[..|a + b| - 1] == a + b[..|b| - 1]
    ensures (a + b)[|a + b| - 1] == b[|b| - 1]
  {
  }

  /** What follows a first part of a concatenation is its second part. */
  lemma DropFront<T>(a: seq<T>, b: seq<T>)
    ensures (a + b)[|a|..] == b
    ensures a != [] ==> (a + b)[1..] == a[1..] + b
  {
  }

  lemma AppendAssoc<T>(a: seq<T>, b: seq<T>, c: seq<T>)
    ensures a + b + c == a + (b + c)
  {
  }

  /** An item is in the concatenated images exactly when it is in the image
      of one of the items. */
  lemma {:induction false} InConcatMap<A, T>(xs: seq<A>, f: A -> seq<T>, y: T)
    ensures y in ConcatMap(xs, f) <==> exists i :: 0 <= i < |xs| && y in f(xs[i])
  {
    if xs != [] {
      var init := xs[..|xs| - 1];
      InConcatMap(init, f, y);
      if y in ConcatMap(xs, f) && y !in f(xs[|xs| - 1]) {
        var i :| 0 <= i < |init| && y in f(init[i]);
        assert xs[i] == init[i];
      }
      if exists i :: 0 <= i < |xs| && y in f(xs[i]) {
        var i :| 0 <= i < |xs| && y in f(xs[i]);
        if i < |init| {
          assert init[i] == xs[i];
        }
      }
    }
  }
}
