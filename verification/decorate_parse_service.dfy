/** The DECORATE parse orchestrator: the same three extractor tasks run on
    every file, root or included, in order; then the included files are
    parsed the same way, depth first, in list order. A task that throws is
    reported wrapped with the task's name, and nothing after it runs. */
module DecorateParseService {
  import opened Common
  import opened FileSystem
  import opened DecorateContext
  import ActorParser
  import TodoParser
  import IncludeParser

  /** The extractor task types. */
  datatype DecorateTask = ActorTask | TodoTask | IncludeTask {
    /** `Type.Name`, as the wrapping exception reports it. */
    function Name(): string {
      match this
      case ActorTask => "ActorParser"
      case TodoTask => "TodoParser"
      case IncludeTask => "IncludeParser"
    }
  }

  /** The tasks every file gets, in order. */
  const ParseTasks: seq<DecorateTask> := [ActorTask, TodoTask, IncludeTask]

  /** What the tasks read besides the document: the regex engine's matches
      on a text, and the disk the include task loads from. */
  datatype DecorateEnvironment = DecorateEnvironment(
    actors: string -> seq<ActorParser.ActorMatch>,
    todos: string -> seq<TodoParser.TodoMatch>,
    includes: string -> seq<IncludeParser.IncludeMatch>,
    files: Files,
    paths: PathOps)

  /** The default task instances: each task type's `ParseAsync` on one file. */
  function RunTask(task: DecorateTask, doc: DecorateFile, env: DecorateEnvironment): (r: Step<DecorateFile>)
    ensures SameIdentity(r.doc, doc)
    ensures task == ActorTask ==> r.err.None? && r.doc.actors.Some?
    ensures task == IncludeTask ==> r.doc.includedFiles.Included?
    ensures task != ActorTask ==> r.doc.actors == doc.actors
    ensures task != TodoTask ==> r.doc.todos == doc.todos
    ensures task != IncludeTask ==> r.doc.includedFiles == doc.includedFiles
  {
    match task
    case ActorTask => ActorParser.ActorsParsed(doc, env.actors(doc.content))
    case TodoTask => TodoParser.DecorateTodosParsed(doc, env.todos(doc.content))
    case IncludeTask => IncludeParser.DecorateIncludesParsed(doc, env.includes(doc.content), env.files, env.paths)
  }

  /** `ActivatorUtilities.CreateInstance` followed by `ParseAsync`: the task
      instances the service provider hands out, as one function. */
  type Runner = (DecorateTask, DecorateFile) -> Step<DecorateFile>

  /** The instances built from the default tasks. */
  function DefaultRunner(env: DecorateEnvironment): Runner {
    (task, doc) => RunTask(task, doc, env)
  }

  /** What every task instance respects: it leaves the init-only fields as they are. */
  ghost predicate KeepsIdentity(run: Runner) {
    forall task, doc :: SameIdentity(run(task, doc).doc, doc)
  }

  /** The default instances keep the identity of the files they parse. */
  lemma DefaultRunnerKeepsIdentity(env: DecorateEnvironment)
    ensures KeepsIdentity(DefaultRunner(env))
  {
    forall task, doc ensures SameIdentity(DefaultRunner(env)(task, doc).doc, doc) {
      assert DefaultRunner(env)(task, doc) == RunTask(task, doc, env);
    }
  }

  /** `ParseFileWithTasksAsync` as a value: the tasks in order, the first
      exception wrapped with its task's name and ending the run. */
  function RunTasks(doc: DecorateFile, tasks: seq<DecorateTask>, run: Runner): (s: Step<DecorateFile>)
    ensures KeepsIdentity(run) ==> SameIdentity(s.doc, doc)
    ensures s.err.Some? ==> s.err.value.TaskFailed?
    decreases |tasks|
  {
    if tasks == [] then Step(doc, None)
    else
      var r := run(tasks[0], doc);
      if r.err.Some? then Step(r.doc, Some(TaskFailed(tasks[0].Name(), r.err.value)))
      else RunTasks(r.doc, tasks[1..], run)
  }

  /** `ParseFileWithTasksAsync`: every task in turn on the same file. */
  method ParseFileWithTasks(doc: DecorateFile, tasks: seq<DecorateTask>, run: Runner) returns (s: Step<DecorateFile>)
    ensures s == RunTasks(doc, tasks, run)
  {
    var current := doc;
    var i := 0;
    while i < |tasks|
      invariant 0 <= i <= |tasks|
      invariant RunTasks(current, tasks[i..], run) == RunTasks(doc, tasks, run)
    {
      assert tasks[i..][0] == tasks[i] && tasks[i..][1..] == tasks[i + 1..];
      var r := run(tasks[i], current);
      if r.err.Some? {
        return Step(r.doc, Some(TaskFailed(tasks[i].Name(), r.err.value)));
      }
      current := r.doc;
      i := i + 1;
    }
    assert tasks[i..] == [];
    s := Step(current, None);
  }

  /** `ParseFileRecursiveAsync` as a value: the file's tasks, then, when they
      all succeed and the include list is set, its included files, each
      with the same tasks. `fuel` bounds the depth of the include tree (an
      include cycle recurses without end in the original). Every exception
      is a wrapped task failure or the depth bound. */
  function ParseTree(doc: DecorateFile, run: Runner, fuel: nat): (s: Step<DecorateFile>)
    ensures KeepsIdentity(run) ==> SameIdentity(s.doc, doc)
    ensures s.err.Some? ==> s.err.value.TaskFailed? || s.err.value == IncludeDepthExceeded
    decreases fuel, 0
  {
    if fuel == 0 then Step(doc, Some(IncludeDepthExceeded))
    else
      var parsed := RunTasks(doc, ParseTasks, run);
      if parsed.err.Some? then parsed
      else match parsed.doc.includedFiles
        case Unparsed => parsed
        case Included(children) =>
          var walked := ParseChildren(children, run, fuel - 1);
          Step(parsed.doc.(includedFiles := Included(walked.doc)), walked.err)
  }

  /** The included files in list order; the first exception stops the
      walk, leaving that child as its tasks left it and the later children
      untouched. */
  function ParseChildren(children: seq<DecorateFile>, run: Runner, fuel: nat): (r: Step<seq<DecorateFile>>)
    ensures |r.doc| == |children|
    ensures KeepsIdentity(run) ==> forall i :: 0 <= i < |children| ==> SameIdentity(r.doc[i], children[i])
    ensures r.err.Some? ==> r.err.value.TaskFailed? || r.err.value == IncludeDepthExceeded
    decreases fuel, 1, |children|
  {
    if children == [] then Step([], None)
    else
      var c := ParseTree(children[0], run, fuel);
      if c.err.Some? then Step([c.doc] + children[1..], c.err)
      else
        var rest := ParseChildren(children[1..], run, fuel);
        Step([c.doc] + rest.doc, rest.err)
  }

  /** The children walked so far in front of the walk of the others. */
  function Joined(done: seq<DecorateFile>, r: Step<seq<DecorateFile>>): Step<seq<DecorateFile>> {
    Step(done + r.doc, r.err)
  }

  /** One child of the walk: a failure ends it, a success moves on. */
  lemma ParseChildrenStep(children: seq<DecorateFile>, i: nat, run: Runner, fuel: nat,
                          done: seq<DecorateFile>, c: Step<DecorateFile>, whole: Step<seq<DecorateFile>>)
    requires i < |children| && c == ParseTree(children[i], run, fuel)
    requires whole == Joined(done, ParseChildren(children[i..], run, fuel))
    ensures c.err.Some? ==> whole == Step(done + ([c.doc] + children[i + 1..]), c.err)
    ensures c.err.None? ==> whole == Joined(done + [c.doc], ParseChildren(children[i + 1..], run, fuel))
  {
    assert children[i..][0] == children[i] && children[i..][1..] == children[i + 1..];
    if c.err.None? {
      var rest := ParseChildren(children[i + 1..], run, fuel);
      assert done + ([c.doc] + rest.doc) == (done + [c.doc]) + rest.doc;
    }
  }

  /** The include-depth bound only ever cuts a walk short: a walk that did
      not run out of depth gives the same outcome with any larger bound, so
      it is the walk of the unbounded recursion. */
  lemma {:induction false} MoreFuelSameTree(doc: DecorateFile, run: Runner, fuel: nat, more: nat)
    requires fuel <= more
    requires ParseTree(doc, run, fuel).err != Some(IncludeDepthExceeded)
    ensures ParseTree(doc, run, more) == ParseTree(doc, run, fuel)
    decreases fuel, 0
  {
    var parsed := RunTasks(doc, ParseTasks, run);
    if parsed.err.None? && parsed.doc.includedFiles.Included? {
      MoreFuelSameChildren(parsed.doc.includedFiles.files, run, fuel - 1, more - 1);
    }
  }

  /** The same for the walk of a list of included files. */
  lemma {:induction false} MoreFuelSameChildren(children: seq<DecorateFile>, run: Runner, fuel: nat, more: nat)
    requires fuel <= more
    requires ParseChildren(children, run, fuel).err != Some(IncludeDepthExceeded)
    ensures ParseChildren(children, run, more) == ParseChildren(children, run, fuel)
    decreases fuel, 1, |children|
  {
    if children != [] {
      var c := ParseTree(children[0], run, fuel);
      MoreFuelSameTree(children[0], run, fuel, more);
      if c.err.None? {
        MoreFuelSameChildren(children[1..], run, fuel, more);
      }
    }
  }

  /** `ParseFileRecursiveAsync`: the tasks, then, when the include list is
      set, the included files. */
  method ParseFileRecursive(doc: DecorateFile, run: Runner, fuel: nat) returns (s: Step<DecorateFile>)
    ensures s == ParseTree(doc, run, fuel)
    decreases fuel, 0
  {
    if fuel == 0 {
      return Step(doc, Some(IncludeDepthExceeded));
    }
    var parsed := ParseFileWithTasks(doc, ParseTasks, run);
    if parsed.err.Some? || parsed.doc.includedFiles.Unparsed? {
      return parsed;
    }
    var walked := ParseIncludedFiles(parsed.doc.includedFiles.files, run, fuel - 1);
    s := Step(parsed.doc.(includedFiles := Included(walked.doc)), walked.err);
  }

  /** The loop of `ParseFileRecursiveAsync` over the included files: a
      recursive call per file, in list order. */
  method ParseIncludedFiles(children: seq<DecorateFile>, run: Runner, fuel: nat) returns (r: Step<seq<DecorateFile>>)
    ensures r == ParseChildren(children, run, fuel)
    decreases fuel, 1
  {
    ghost var whole := ParseChildren(children, run, fuel);
    var done: seq<DecorateFile> := [];
    var i := 0;
    assert children[i..] == children && done + whole.doc == whole.doc;
    while i < |children|
      invariant 0 <= i <= |children|
      invariant whole == Joined(done, ParseChildren(children[i..], run, fuel))
    {
      var c := ParseFileRecursive(children[i], run, fuel);
      ParseChildrenStep(children, i, run, fuel, done, c, whole);
      if c.err.Some? {
        return Step(done + ([c.doc] + children[i + 1..]), c.err);
      }
      done := done + [c.doc];
      i := i + 1;
    }
    assert children[i..] == [] && done + [] == done;
    r := Step(done, None);
  }

  /** `ParseFileAsync`, with the default task instances. */
  method ParseFile(doc: DecorateFile, env: DecorateEnvironment, fuel: nat) returns (s: Step<DecorateFile>)
    ensures s == ParseTree(doc, DefaultRunner(env), fuel)
  {
    s := ParseFileRecursive(doc, DefaultRunner(env), fuel);
  }

  // ---- Properties ----

  /** Running a list of tasks is running a prefix of it, then the rest on
      the prefix's result, when the prefix succeeds. */
  lemma {:induction false} RunTasksSplit(doc: DecorateFile, tasks: seq<DecorateTask>, k: nat, run: Runner)
    requires k <= |tasks| && RunTasks(doc, tasks[..k], run).err.None?
    ensures RunTasks(doc, tasks, run) == RunTasks(RunTasks(doc, tasks[..k], run).doc, tasks[k..], run)
    decreases k
  {
    if k > 0 {
      var r := run(tasks[0], doc);
      assert tasks[..k][0] == tasks[0] && tasks[..k][1..] == tasks[1..][..k - 1];
      assert r.err.None?;
      RunTasksSplit(r.doc, tasks[1..], k - 1, run);
      assert tasks[1..][k - 1..] == tasks[k..];
    }
  }

  /** The first task that throws ends the run: its exception is reported
      wrapped with its name, the file is as that task left it, and no later
      task runs. */
  lemma FirstFailingTaskWrapped(doc: DecorateFile, tasks: seq<DecorateTask>, k: nat, run: Runner)
    requires k < |tasks| && RunTasks(doc, tasks[..k], run).err.None?
    requires run(tasks[k], RunTasks(doc, tasks[..k], run).doc).err.Some?
    ensures
      var failed := run(tasks[k], RunTasks(doc, tasks[..k], run).doc);
      RunTasks(doc, tasks, run) == Step(failed.doc, Some(TaskFailed(tasks[k].Name(), failed.err.value)))
  {
    RunTasksSplit(doc, tasks, k, run);
    assert tasks[k..][0] == tasks[k];
  }

  /** A file whose tasks fail is left as the failing task left it: none of
      its included files is visited. */
  lemma FailedFileSkipsChildren(doc: DecorateFile, run: Runner, fuel: nat)
    requires fuel > 0 && RunTasks(doc, ParseTasks, run).err.Some?
    ensures ParseTree(doc, run, fuel) == RunTasks(doc, ParseTasks, run)
  {
  }

  /** A file whose default tasks all succeed has its actor list, its todo
      list and its include list set. */
  lemma ParsedFileHasAllLists(doc: DecorateFile, env: DecorateEnvironment)
    requires RunTasks(doc, ParseTasks, DefaultRunner(env)).err.None?
    ensures
      var parsed := RunTasks(doc, ParseTasks, DefaultRunner(env)).doc;
      parsed.actors.Some? && parsed.todos.Some? && parsed.includedFiles.Included?
  {
    var run := DefaultRunner(env);
    var a := RunTask(ActorTask, doc, env);
    assert run(ActorTask, doc) == a;
    var t := RunTask(TodoTask, a.doc, env);
    assert run(TodoTask, a.doc) == t;
    var inc := RunTask(IncludeTask, t.doc, env);
    assert run(IncludeTask, t.doc) == inc;
    assert ParseTasks[1..] == [TodoTask, IncludeTask] && ParseTasks[1..][1..] == [IncludeTask];
    assert [IncludeTask][1..] == [];
    assert RunTasks(doc, ParseTasks, run) == RunTasks(a.doc, [TodoTask, IncludeTask], run);
    assert RunTasks(a.doc, [TodoTask, IncludeTask], run) == RunTasks(t.doc, [IncludeTask], run);
    assert RunTasks(t.doc, [IncludeTask], run) == RunTasks(inc.doc, [], run);
  }
}
