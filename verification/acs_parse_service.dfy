/** The ACS parse orchestrator: a fixed list of extractor tasks runs on a
    file in order; the root file also gets the `#library` task, last. Then
    the included files are parsed the same way, depth first, in list order,
    without the `#library` task. A task that throws is reported wrapped with
    the task's name, and nothing after it runs. */
module AcsParseService {
  import opened Common
  import opened FileSystem
  import opened AcsContext
  import NamespaceParser
  import MethodParser
  import LibdefineParser
  import EnumParser
  import TodoParser
  import IncludeParser
  import LibraryParser

  /** The extractor task types. */
  datatype AcsTask =
    | NamespaceTask | MethodTask | LibdefineTask | EnumTask | TodoTask | IncludeTask | LibraryTask
  {
    /** `Type.Name`, as the wrapping exception reports it. */
    function Name(): string {
      match this
      case NamespaceTask => "NamespaceParser"
      case MethodTask => "MethodParser"
      case LibdefineTask => "LibdefineParser"
      case EnumTask => "EnumParser"
      case TodoTask => "TodoParser"
      case IncludeTask => "IncludeParser"
      case LibraryTask => "LibraryParser"
    }
  }

  /** The tasks every file gets, in order. */
  const ParseTasks: seq<AcsTask> := [NamespaceTask, MethodTask, LibdefineTask, EnumTask, TodoTask, IncludeTask]

  /** The tasks of one file: a copy with the `#library` task appended for the
      root, the shared list itself otherwise. */
  function TasksFor(isLibrary: bool): (tasks: seq<AcsTask>)
    ensures |ParseTasks| <= |tasks| && tasks[..|ParseTasks|] == ParseTasks
    ensures LibraryTask in tasks <==> isLibrary
    ensures isLibrary ==> |tasks| == |ParseTasks| + 1 && tasks[|ParseTasks|] == LibraryTask
    ensures !isLibrary ==> tasks == ParseTasks
  {
    if isLibrary then ParseTasks + [LibraryTask] else ParseTasks
  }

  /** What the tasks read besides the document: the regex engine's matches
      on a text, and the disk the include task loads from. */
  datatype AcsEnvironment = AcsEnvironment(
    namespaces: string -> seq<NamespaceParser.NamespaceMatch>,
    functions: string -> seq<MethodParser.MethodMatch>,
    scripts: string -> seq<MethodParser.MethodMatch>,
    enums: string -> seq<EnumParser.EnumMatch>,
    todos: string -> seq<TodoParser.TodoMatch>,
    includes: string -> seq<IncludeParser.IncludeMatch>,
    files: Files,
    paths: PathOps)

  /** The default task instances: each task type's `ParseAsync` on one file.
      Each task writes its own fields only, so the file's identity never
      changes and only the `#library` task writes the library name. */
  function RunTask(task: AcsTask, doc: AcsFile, env: AcsEnvironment): (r: Step<AcsFile>)
    ensures SameIdentity(r.doc, doc)
    ensures task != LibraryTask ==> r.doc.library == doc.library
    ensures task == IncludeTask ==> r.doc.includedFiles.Included?
  {
    match task
    case NamespaceTask => NamespaceParser.NamespaceParsed(doc, env.namespaces(doc.content))
    case MethodTask => MethodParser.MethodsParsed(doc, env.functions(doc.content), env.scripts(doc.content))
    case LibdefineTask => LibdefineParser.LibdefinesParsed(doc)
    case EnumTask => EnumParser.EnumsParsed(doc, env.enums(doc.content), EnumParser.Current)
    case TodoTask => TodoParser.AcsTodosParsed(doc, env.todos(doc.content))
    case IncludeTask => IncludeParser.AcsIncludesParsed(doc, env.includes(doc.content), env.files, env.paths)
    case LibraryTask => LibraryParser.LibraryParsed(doc)
  }

  /** `ActivatorUtilities.CreateInstance` followed by `ParseAsync`: the task
      instances the service provider hands out, as one function. */
  type Runner = (AcsTask, AcsFile) -> Step<AcsFile>

  /** The instances built from the default tasks. */
  function DefaultRunner(env: AcsEnvironment): Runner {
    (task, doc) => RunTask(task, doc, env)
  }

  /** What every task instance respects: it leaves the init-only fields as
      they are, and only the `#library` task writes the library name. */
  ghost predicate KeepsIdentity(run: Runner) {
    forall task, doc :: SameIdentity(run(task, doc).doc, doc)
      && (task != LibraryTask ==> run(task, doc).doc.library == doc.library)
  }

  /** The default instances keep the identity of the files they parse. */
  lemma DefaultRunnerKeepsIdentity(env: AcsEnvironment)
    ensures KeepsIdentity(DefaultRunner(env))
  {
    forall task, doc ensures SameIdentity(DefaultRunner(env)(task, doc).doc, doc)
      && (task != LibraryTask ==> DefaultRunner(env)(task, doc).doc.library == doc.library)
    {
      assert DefaultRunner(env)(task, doc) == RunTask(task, doc, env);
    }
  }

  /** `ParseFileWithTasksAsync` as a value: the tasks in order, the first
      exception wrapped with its task's name and ending the run. */
  function RunTasks(doc: AcsFile, tasks: seq<AcsTask>, run: Runner): (s: Step<AcsFile>)
    ensures KeepsIdentity(run) ==> SameIdentity(s.doc, doc)
    ensures KeepsIdentity(run) && LibraryTask !in tasks ==> s.doc.library == doc.library
    ensures s.err.Some? ==> s.err.value.TaskFailed?
    decreases |tasks|
  {
    if tasks == [] then Step(doc, None)
    else
      var r := run(tasks[0], doc);
      if r.err.Some? then Step(r.doc, Some(TaskFailed(tasks[0].Name(), r.err.value)))
      else RunTasks(r.doc, tasks[1..], run)
  }

  /** `ParseFileWithTasksAsync`: every task in turn on the same file. */
  method ParseFileWithTasks(doc: AcsFile, tasks: seq<AcsTask>, run: Runner) returns (s: Step<AcsFile>)
    ensures s == RunTasks(doc, tasks, run)
  {
    var current := doc;
    var i := 0;
    while i < |tasks|
      invariant 0 <= i <= |tasks|
      invariant RunTasks(current, tasks[i..], run) == RunTasks(doc, tasks, run)
    {
      assert tasks[i..][0] == tasks[i] && tasks[i..][1..] == tasks[i + 1..];
      var r := run(tasks[i], current);
      if r.err.Some? {
        return Step(r.doc, Some(TaskFailed(tasks[i].Name(), r.err.value)));
      }
      current := r.doc;
      i := i + 1;
    }
    assert tasks[i..] == [];
    s := Step(current, None);
  }

  /** `ParseFileRecursiveAsync` as a value: the file's own tasks, then, when
      they all succeed and the include list is set, its included files.
      `fuel` bounds the depth of the include tree (an include cycle recurses
      without end in the original). Every exception is a wrapped task
      failure or the depth bound. */
  function ParseTree(doc: AcsFile, isLibrary: bool, run: Runner, fuel: nat): (s: Step<AcsFile>)
    ensures KeepsIdentity(run) ==> SameIdentity(s.doc, doc)
    ensures KeepsIdentity(run) && !isLibrary ==> s.doc.library == doc.library
    ensures s.err.Some? ==> s.err.value.TaskFailed? || s.err.value == IncludeDepthExceeded
    decreases fuel, 0
  {
    if fuel == 0 then Step(doc, Some(IncludeDepthExceeded))
    else
      var parsed := RunTasks(doc, TasksFor(isLibrary), run);
      if parsed.err.Some? then parsed
      else match parsed.doc.includedFiles
        case Unparsed => parsed
        case Included(children) =>
          var walked := ParseChildren(children, run, fuel - 1);
          Step(parsed.doc.(includedFiles := Included(walked.doc)), walked.err)
  }

  /** The included files in list order, each parsed as a non-root file; the
      first exception stops the walk, leaving that child as its tasks left
      it and the later children untouched. */
  function ParseChildren(children: seq<AcsFile>, run: Runner, fuel: nat): (r: Step<seq<AcsFile>>)
    ensures |r.doc| == |children|
    ensures KeepsIdentity(run) ==> forall i :: 0 <= i < |children| ==>
      SameIdentity(r.doc[i], children[i]) && r.doc[i].library == children[i].library
    ensures r.err.Some? ==> r.err.value.TaskFailed? || r.err.value == IncludeDepthExceeded
    decreases fuel, 1, |children|
  {
    if children == [] then Step([], None)
    else
      var c := ParseTree(children[0], false, run, fuel);
      if c.err.Some? then Step([c.doc] + children[1..], c.err)
      else
        var rest := ParseChildren(children[1..], run, fuel);
        Step([c.doc] + rest.doc, rest.err)
  }

  /** The children walked so far in front of the walk of the others. */
  function Joined(done: seq<AcsFile>, r: Step<seq<AcsFile>>): Step<seq<AcsFile>> {
    Step(done + r.doc, r.err)
  }

  /** One child of the walk: a failure ends it, a success moves on. */
  lemma ParseChildrenStep(children: seq<AcsFile>, i: nat, run: Runner, fuel: nat,
                          done: seq<AcsFile>, c: Step<AcsFile>, whole: Step<seq<AcsFile>>)
    requires i < |children| && c == ParseTree(children[i], false, run, fuel)
    requires whole == Joined(done, ParseChildren(children[i..], run, fuel))
    ensures c.err.Some? ==> whole == Step(done + ([c.doc] + children[i + 1..]), c.err)
    ensures c.err.None? ==> whole == Joined(done + [c.doc], ParseChildren(children[i + 1..], run, fuel))
  {
    assert children[i..][0] == children[i] && children[i..][1..] == children[i + 1..];
    if c.err.None? {
      var rest := ParseChildren(children[i + 1..], run, fuel);
      assert done + ([c.doc] + rest.doc) == (done + [c.doc]) + rest.doc;
    }
  }

  /** The include-depth bound only ever cuts a walk short: a walk that did
      not run out of depth gives the same outcome with any larger bound, so
      it is the walk of the unbounded recursion. */
  lemma {:induction false} MoreFuelSameTree(doc: AcsFile, isLibrary: bool, run: Runner, fuel: nat, more: nat)
    requires fuel <= more
    requires ParseTree(doc, isLibrary, run, fuel).err != Some(IncludeDepthExceeded)
    ensures ParseTree(doc, isLibrary, run, more) == ParseTree(doc, isLibrary, run, fuel)
    decreases fuel, 0
  {
    var parsed := RunTasks(doc, TasksFor(isLibrary), run);
    if parsed.err.None? && parsed.doc.includedFiles.Included? {
      MoreFuelSameChildren(parsed.doc.includedFiles.files, run, fuel - 1, more - 1);
    }
  }

  /** The same for the walk of a list of included files. */
  lemma {:induction false} MoreFuelSameChildren(children: seq<AcsFile>, run: Runner, fuel: nat, more: nat)
    requires fuel <= more
    requires ParseChildren(children, run, fuel).err != Some(IncludeDepthExceeded)
    ensures ParseChildren(children, run, more) == ParseChildren(children, run, fuel)
    decreases fuel, 1, |children|
  {
    if children != [] {
      var c := ParseTree(children[0], false, run, fuel);
      MoreFuelSameTree(children[0], false, run, fuel, more);
      if c.err.None? {
        MoreFuelSameChildren(children[1..], run, fuel, more);
      }
    }
  }

  /** `ParseFileRecursiveAsync`: the tasks, then, when the include list is
      set, the included files. */
  method ParseFileRecursive(doc: AcsFile, isLibrary: bool, run: Runner, fuel: nat) returns (s: Step<AcsFile>)
    ensures s == ParseTree(doc, isLibrary, run, fuel)
    decreases fuel, 0
  {
    if fuel == 0 {
      return Step(doc, Some(IncludeDepthExceeded));
    }
    var parsed := ParseFileWithTasks(doc, TasksFor(isLibrary), run);
    if parsed.err.Some? || parsed.doc.includedFiles.Unparsed? {
      return parsed;
    }
    var walked := ParseIncludedFiles(parsed.doc.includedFiles.files, run, fuel - 1);
    s := Step(parsed.doc.(includedFiles := Included(walked.doc)), walked.err);
  }

  /** The loop of `ParseFileRecursiveAsync` over the included files: a
      recursive call per file, in list order. */
  method ParseIncludedFiles(children: seq<AcsFile>, run: Runner, fuel: nat) returns (r: Step<seq<AcsFile>>)
    ensures r == ParseChildren(children, run, fuel)
    decreases fuel, 1
  {
    ghost var whole := ParseChildren(children, run, fuel);
    var done: seq<AcsFile> := [];
    var i := 0;
    assert children[i..] == children && done + whole.doc == whole.doc;
    while i < |children|
      invariant 0 <= i <= |children|
      invariant whole == Joined(done, ParseChildren(children[i..], run, fuel))
    {
      var c := ParseFileRecursive(children[i], false, run, fuel);
      ParseChildrenStep(children, i, run, fuel, done, c, whole);
      if c.err.Some? {
        return Step(done + ([c.doc] + children[i + 1..]), c.err);
      }
      done := done + [c.doc];
      i := i + 1;
    }
    assert children[i..] == [] && done + [] == done;
    r := Step(done, None);
  }

  /** `ParseFileAsync`: the root is parsed as the library file, with the
      default task instances. */
  method ParseFile(doc: AcsFile, env: AcsEnvironment, fuel: nat) returns (s: Step<AcsFile>)
    ensures s == ParseTree(doc, true, DefaultRunner(env), fuel)
  {
    s := ParseFileRecursive(doc, true, DefaultRunner(env), fuel);
  }

  // ---- Properties ----

  /** Running a list of tasks is running a prefix of it, then the rest on
      the prefix's result, when the prefix succeeds. */
  lemma {:induction false} RunTasksSplit(doc: AcsFile, tasks: seq<AcsTask>, k: nat, run: Runner)
    requires k <= |tasks| && RunTasks(doc, tasks[..k], run).err.None?
    ensures RunTasks(doc, tasks, run) == RunTasks(RunTasks(doc, tasks[..k], run).doc, tasks[k..], run)
    decreases k
  {
    if k > 0 {
      var r := run(tasks[0], doc);
      assert tasks[..k][0] == tasks[0] && tasks[..k][1..] == tasks[1..][..k - 1];
      assert r.err.None?;
      RunTasksSplit(r.doc, tasks[1..], k - 1, run);
      assert tasks[1..][k - 1..] == tasks[k..];
    }
  }

  /** When a run succeeds, so does every prefix of it. */
  lemma {:induction false} PrefixSucceeds(doc: AcsFile, tasks: seq<AcsTask>, k: nat, run: Runner)
    requires k <= |tasks| && RunTasks(doc, tasks, run).err.None?
    ensures RunTasks(doc, tasks[..k], run).err.None?
    decreases k
  {
    if k > 0 {
      var r := run(tasks[0], doc);
      assert tasks[..k][0] == tasks[0] && tasks[..k][1..] == tasks[1..][..k - 1];
      PrefixSucceeds(r.doc, tasks[1..], k - 1, run);
    }
  }

  /** The first task that throws ends the run: its exception is reported
      wrapped with its name, the file is as that task left it, and no later
      task runs. */
  lemma FirstFailingTaskWrapped(doc: AcsFile, tasks: seq<AcsTask>, k: nat, run: Runner)
    requires k < |tasks| && RunTasks(doc, tasks[..k], run).err.None?
    requires run(tasks[k], RunTasks(doc, tasks[..k], run).doc).err.Some?
    ensures
      var failed := run(tasks[k], RunTasks(doc, tasks[..k], run).doc);
      RunTasks(doc, tasks, run) == Step(failed.doc, Some(TaskFailed(tasks[k].Name(), failed.err.value)))
  {
    RunTasksSplit(doc, tasks, k, run);
    assert tasks[k..][0] == tasks[k];
  }

  /** A file whose tasks fail is left as the failing task left it: none of
      its included files is visited. */
  lemma FailedFileSkipsChildren(doc: AcsFile, isLibrary: bool, run: Runner, fuel: nat)
    requires fuel > 0 && RunTasks(doc, TasksFor(isLibrary), run).err.Some?
    ensures ParseTree(doc, isLibrary, run, fuel) == RunTasks(doc, TasksFor(isLibrary), run)
  {
  }

  /** The root's library name is set by its last task: when the whole parse
      succeeds, it is the name of the first `#library` directive of the
      root's own text. */
  lemma RootLibrarySet(doc: AcsFile, env: AcsEnvironment, fuel: nat)
    requires ParseTree(doc, true, DefaultRunner(env), fuel).err.None?
    ensures ParseTree(doc, true, DefaultRunner(env), fuel).doc.library == LibraryParser.FirstLibrary(doc.content)
    ensures ParseTree(doc, true, DefaultRunner(env), fuel).doc.library.Some?
  {
    var parsed := RunTasks(doc, TasksFor(true), DefaultRunner(env));
    assert fuel > 0 && parsed.err.None?;
    assert ParseTree(doc, true, DefaultRunner(env), fuel).doc.library == parsed.doc.library;
    DefaultRunnerKeepsIdentity(env);
    DefaultRunnerLibraryTask(env);
    RootTasksSetLibrary(doc, TasksFor(true), DefaultRunner(env));
  }

  /** The default `#library` task instance is `LibraryParser`'s. */
  lemma DefaultRunnerLibraryTask(env: AcsEnvironment)
    ensures forall d :: DefaultRunner(env)(LibraryTask, d) == LibraryParser.LibraryParsed(d)
  {
  }

  /** A run of tasks that ends with the `#library` task, when it succeeds,
      ends with the name of the first `#library` directive set. */
  lemma RootTasksSetLibrary(doc: AcsFile, tasks: seq<AcsTask>, run: Runner)
    requires KeepsIdentity(run)
    requires forall d :: run(LibraryTask, d) == LibraryParser.LibraryParsed(d)
    requires |tasks| > 0 && tasks[|tasks| - 1] == LibraryTask
    requires RunTasks(doc, tasks, run).err.None?
    ensures RunTasks(doc, tasks, run).doc.library == LibraryParser.FirstLibrary(doc.content)
    ensures RunTasks(doc, tasks, run).doc.library.Some?
  {
    var k := |tasks| - 1;
    var mid := RunTasks(doc, tasks[..k], run);
    PrefixSucceeds(doc, tasks, k, run);
    RunTasksSplit(doc, tasks, k, run);
    assert tasks[k..] == [LibraryTask];
    assert [LibraryTask][1..] == [];
    assert mid.doc.content == doc.content;
  }

  /** Included files never get a library name: parsing a non-root file, with
      the default tasks, leaves its library name as it was. */
  lemma IncludedFileLibraryUnchanged(doc: AcsFile, env: AcsEnvironment, fuel: nat)
    ensures ParseTree(doc, false, DefaultRunner(env), fuel).doc.library == doc.library
  {
    DefaultRunnerKeepsIdentity(env);
  }
}
