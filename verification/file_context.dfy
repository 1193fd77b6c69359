/** The dialect-independent view of a loaded file (`IFileContext`) and the
    todo record both dialects share. */
module FileContext {
  import opened Common

  /** A `@todo` annotation: its raw text and its 1-based line. */
  datatype TodoItem = TodoItem(value: string, line: int)

  /** `IFileContext`: name, folder, content, todos and the included files seen
      through the same interface (`Unparsed` while the included files are null). */
  datatype FileView = FileView(
    name: string,
    absoluteFolderPath: string,
    content: string,
    todos: Option<seq<TodoItem>>,
    includedFileContexts: Included<FileView>)

  // ---- Pre-order walks ----

  /** What `own` gives for `f` and then, depth-first and in list order, for
      every file it includes: the order in which the serialisers' recursive
      `Insert*` methods visit an include tree. */
  function Walk<T>(f: FileView, own: FileView -> seq<T>): seq<T> {
    own(f) + match f.includedFileContexts
      case Unparsed => []
      case Included(children) => WalkAll(children, own)
  }

  /** The walks of the files of a list, one after the other. */
  function WalkAll<T>(fs: seq<FileView>, own: FileView -> seq<T>): seq<T> {
    if fs == [] then [] else WalkAll(fs[..|fs| - 1], own) + Walk(fs[|fs| - 1], own)
  }

  /** One more file's walk appended to text that ends with the walks of the
      files before it: the step of a loop over the included files. */
  lemma WalkAllStep<T>(fs: seq<FileView>, i: nat, own: FileView -> seq<T>, start: seq<T>, before: seq<T>, after: seq<T>)
    requires i < |fs|
    requires before == start + WalkAll(fs[..i], own)
    requires after == before + Walk(fs[i], own)
    ensures after == start + WalkAll(fs[..i + 1], own)
  {
    assert fs[..i + 1][..i] == fs[..i];
  }

  /** The walk of a list is the walk of its first part and then of the rest. */
  lemma {:induction false} WalkAllAppend<T>(a: seq<FileView>, b: seq<FileView>, own: FileView -> seq<T>)
    ensures WalkAll(a + b, own) == WalkAll(a, own) + WalkAll(b, own)
    decreases |b|
  {
    if b == [] {
      assert a + b == a;
    } else {
      var last := |b| - 1;
      DropLast(a, b);
      WalkAllAppend(a, b[..last], own);
    }
  }

  /** When every file's own part is the concatenated images of a list of
      items, the walk is the concatenated images of the items in walk order. */
  lemma {:induction false} WalkConcatMap<A, T>(f: FileView, own: FileView -> seq<T>, items: FileView -> seq<A>, g: A -> seq<T>)
    requires forall x :: own(x) == ConcatMap(items(x), g)
    ensures Walk(f, own) == ConcatMap(Walk(f, items), g)
    decreases f, 1
  {
    match f.includedFileContexts
    case Unparsed =>
      assert Walk(f, items) == items(f) + [] == items(f);
      assert Walk(f, own) == own(f) + [] == own(f);
    case Included(cs) =>
      WalkAllConcatMap(cs, own, items, g);
      ConcatMapAppend(items(f), WalkAll(cs, items), g);
  }

  lemma {:induction false} WalkAllConcatMap<A, T>(fs: seq<FileView>, own: FileView -> seq<T>, items: FileView -> seq<A>, g: A -> seq<T>)
    requires forall x :: own(x) == ConcatMap(items(x), g)
    ensures WalkAll(fs, own) == ConcatMap(WalkAll(fs, items), g)
    decreases fs, 0
  {
    if fs != [] {
      var last := |fs| - 1;
      WalkAllConcatMap(fs[..last], own, items, g);
      WalkConcatMap(fs[last], own, items, g);
      ConcatMapAppend(WalkAll(fs[..last], items), Walk(fs[last], items), g);
    }
  }
}
