/** The ACS document model: method, parameter and libdefine records, the
    mutable file record the parsers fill in, and loading a file from disk. */
module AcsContext {
  import opened Common
  import opened FileSystem
  import opened FileContext

  /** `AcsMethodParameterType`, closed over the type tokens the method parser
      produces; `raw` is among them although the source enumeration omits it. */
  datatype AcsMethodParameterType = Void | Int | Bool | Str | Fixed | Special | Raw {
    /** The member's name, as `ToString()` renders it. */
    function Name(): string {
      match this
      case Void => "void"
      case Int => "int"
      case Bool => "bool"
      case Str => "str"
      case Fixed => "fixed"
      case Special => "special"
      case Raw => "raw"
    }
  }

  /** A `#libdefine`, or an enum constant rendered as one. */
  datatype AcsLibdefine = AcsLibdefine(key: string, value: string)

  datatype AcsMethodParameter = AcsMethodParameter(paramType: AcsMethodParameterType, name: string)

  /** A function or script signature. */
  datatype AcsMethod = AcsMethod(
    isPublic: bool,
    methodType: AcsMethodType,
    returnType: AcsMethodParameterType,
    definition: string,
    summary: Option<string>,
    name: string,
    modifiers: Option<seq<string>>,
    parameters: Option<seq<AcsMethodParameter>>)

  /** An ACS file: the three init-only fields and the fields the parsers set
      (`None` stands for null). `namespace` and `isStrictNamespace` are set by
      the namespace parser. */
  datatype AcsFile = AcsFile(
    name: string,
    absoluteFolderPath: string,
    content: string,
    libDefines: Option<seq<AcsLibdefine>>,
    enumLibdefines: Option<seq<AcsLibdefine>>,
    includedFiles: Included<AcsFile>,
    methods: Option<seq<AcsMethod>>,
    todos: Option<seq<TodoItem>>,
    library: Option<string>,
    namespace: Option<string>,
    isStrictNamespace: bool)

  /** Every field a parser sets still has its initial value. */
  predicate IsFreshlyLoaded(f: AcsFile) {
    && f.libDefines.None? && f.enumLibdefines.None? && f.includedFiles.Unparsed?
    && f.methods.None? && f.todos.None? && f.library.None?
    && f.namespace.None? && !f.isStrictNamespace
  }

  /** The init-only fields agree. */
  predicate SameIdentity(a: AcsFile, b: AcsFile) {
    a.name == b.name && a.absoluteFolderPath == b.absoluteFolderPath && a.content == b.content
  }

  /** `AcsFile.FromPathAsync`. */
  function FromPath(files: Files, paths: PathOps, filePath: string): (r: Result<AcsFile>)
    ensures filePath !in files ==> r == Err(FileNotFound(filePath))
    ensures r.Ok? <==> filePath in files && paths.directoryName(filePath).Some?
    ensures r.Ok? ==>
      && r.value.name == paths.fileName(filePath)
      && Some(r.value.absoluteFolderPath) == paths.directoryName(filePath)
      && r.value.content == files[filePath]
      && IsFreshlyLoaded(r.value)
  {
    if filePath !in files then Err(FileNotFound(filePath))
    else match paths.directoryName(filePath)
      case None => Err(NoFolderPath(filePath))
      case Some(folder) =>
        Ok(AcsFile(paths.fileName(filePath), folder, files[filePath],
                   None, None, Unparsed, None, None, None, None, false))
  }

  /** The file seen as an `IFileContext`; its included contexts are the
      included files cast one by one. */
  function View(f: AcsFile): (v: FileView)
    ensures v.name == f.name && v.absoluteFolderPath == f.absoluteFolderPath
    ensures v.content == f.content && v.todos == f.todos
    ensures v.includedFileContexts.Unparsed? <==> f.includedFiles.Unparsed?
    ensures f.includedFiles.Included? ==>
      && |v.includedFileContexts.files| == |f.includedFiles.files|
      && forall i :: 0 <= i < |f.includedFiles.files| ==>
           v.includedFileContexts.files[i] == View(f.includedFiles.files[i])
  {
    var included := match f.includedFiles
      case Unparsed => Unparsed
      case Included(fs) => Included(ViewAll(fs));
    FileView(f.name, f.absoluteFolderPath, f.content, f.todos, included)
  }

  function ViewAll(fs: seq<AcsFile>): (vs: seq<FileView>)
    ensures |vs| == |fs| && forall i :: 0 <= i < |fs| ==> vs[i] == View(fs[i])
  {
    if fs == [] then [] else [View(fs[0])] + ViewAll(fs[1..])
  }

  // ---- Pre-order walks ----

  /** What `own` gives for `f` and then, depth-first and in list order, for
      every file it includes: the order in which the serialisers' recursive
      `Insert*` methods visit an include tree. */
  function Walk<T>(f: AcsFile, own: AcsFile -> seq<T>): seq<T> {
    own(f) + match f.includedFiles
      case Unparsed => []
      case Included(children) => WalkAll(children, own)
  }

  /** The walks of the files of a list, one after the other. */
  function WalkAll<T>(fs: seq<AcsFile>, own: AcsFile -> seq<T>): seq<T> {
    if fs == [] then [] else WalkAll(fs[..|fs| - 1], own) + Walk(fs[|fs| - 1], own)
  }

  /** One more file's walk appended to text that ends with the walks of the
      files before it: the step of a loop over the included files. */
  lemma WalkAllStep<T>(fs: seq<AcsFile>, i: nat, own: AcsFile -> seq<T>, start: seq<T>, before: seq<T>, after: seq<T>)
    requires i < |fs|
    requires before == start + WalkAll(fs[..i], own)
    requires after == before + Walk(fs[i], own)
    ensures after == start + WalkAll(fs[..i + 1], own)
  {
    assert fs[..i + 1][..i] == fs[..i];
  }

  /** The walk of a list is the walk of its first part and then of the rest. */
  lemma {:induction false} WalkAllAppend<T>(a: seq<AcsFile>, b: seq<AcsFile>, own: AcsFile -> seq<T>)
    ensures WalkAll(a + b, own) == WalkAll(a, own) + WalkAll(b, own)
    decreases |b|
  {
    if b == [] {
      assert a + b == a;
    } else {
      var last := |b| - 1;
      DropLast(a, b);
      WalkAllAppend(a, b[..last], own);
    }
  }

  /** An included file's whole walk sits in its parent's walk, after the
      parent's own part and the walks of the files included before it, and
      before the walks of the files included after it. */
  lemma WalkVisitsChild<T>(f: AcsFile, i: nat, own: AcsFile -> seq<T>)
    requires f.includedFiles.Included? && i < |f.includedFiles.files|
    ensures var cs := f.includedFiles.files;
      Walk(f, own) == own(f) + WalkAll(cs[..i], own) + Walk(cs[i], own) + WalkAll(cs[i + 1..], own)
  {
    var cs := f.includedFiles.files;
    WalkAllAround(cs, i, own);
    var x, y, z := WalkAll(cs[..i], own), Walk(cs[i], own), WalkAll(cs[i + 1..], own);
    assert Walk(f, own) == own(f) + (x + y + z);
    AppendAssoc(own(f), x + y, z);
    AppendAssoc(own(f), x, y);
  }

  /** The walk of a list around one of its files. */
  lemma WalkAllAround<T>(cs: seq<AcsFile>, i: nat, own: AcsFile -> seq<T>)
    requires i < |cs|
    ensures WalkAll(cs, own) == WalkAll(cs[..i], own) + Walk(cs[i], own) + WalkAll(cs[i + 1..], own)
  {
    var front, after := cs[..i + 1], cs[i + 1..];
    SplitAt(cs, i + 1);
    WalkAllAppend(front, after, own);
  }

  /** When every file's own part is the concatenated images of a list of
      items, the walk is the concatenated images of the items in walk order. */
  lemma {:induction false} WalkConcatMap<A, T>(f: AcsFile, own: AcsFile -> seq<T>, items: AcsFile -> seq<A>, g: A -> seq<T>)
    requires forall x :: own(x) == ConcatMap(items(x), g)
    ensures Walk(f, own) == ConcatMap(Walk(f, items), g)
    decreases f, 1
  {
    match f.includedFiles
    case Unparsed =>
      assert Walk(f, items) == items(f) + [] == items(f);
      assert Walk(f, own) == own(f) + [] == own(f);
    case Included(cs) =>
      WalkAllConcatMap(cs, own, items, g);
      ConcatMapAppend(items(f), WalkAll(cs, items), g);
  }

  lemma {:induction false} WalkAllConcatMap<A, T>(fs: seq<AcsFile>, own: AcsFile -> seq<T>, items: AcsFile -> seq<A>, g: A -> seq<T>)
    requires forall x :: own(x) == ConcatMap(items(x), g)
    ensures WalkAll(fs, own) == ConcatMap(WalkAll(fs, items), g)
    decreases fs, 0
  {
    if fs != [] {
      var last := |fs| - 1;
      WalkAllConcatMap(fs[..last], own, items, g);
      WalkConcatMap(fs[last], own, items, g);
      ConcatMapAppend(WalkAll(fs[..last], items), Walk(fs[last], items), g);
    }
  }
}
