/** The todo report of a project: for every `@todo` found in the include
    trees of the root ACS files and then of the root DECORATE files, three
    lines naming the todo and where it is; a header goes in front when
    anything was written, and nothing is written otherwise. */
module TodoList {
  import opened Common
  import opened Text
  import opened FileSystem
  import opened FileContext
  import opened Buffers
  import opened ProjectContexts
  import AcsContext
  import DecorateContext

  /** `_fileHeader`: a fixed block of comment lines whose wording the model
      does not fix. */
  const Header: string

  /** A todo together with the path of the file it was found in. */
  datatype LocatedTodo = LocatedTodo(path: string, todo: TodoItem)

  /** The three lines of one todo: its trimmed text, where it is, and a blank line. */
  function TodoEntry(l: LocatedTodo): string {
    Line("// " + Trim(l.todo.value)) + Line("// At \"" + l.path + ":" + IntToString(l.todo.line) + "\"") + NewLine
  }

  /** The todos of one file, each paired with the file's path. */
  function Locate(path: string, todos: seq<TodoItem>): (ls: seq<LocatedTodo>)
    ensures |ls| == |todos|
    ensures forall i :: 0 <= i < |todos| ==> ls[i] == LocatedTodo(path, todos[i])
  {
    seq(|todos|, i requires 0 <= i < |todos| => LocatedTodo(path, todos[i]))
  }

  /** The located todos of a file; none when its todo list is null. */
  function LocatedTodosOf(paths: PathOps, v: FileView): seq<LocatedTodo> {
    match v.todos
    case None => []
    case Some(todos) => Locate(paths.join(v.absoluteFolderPath, v.name), todos)
  }

  function LocatedTodos(paths: PathOps): FileView -> seq<LocatedTodo> {
    v => LocatedTodosOf(paths, v)
  }

  /** The text a file's own todos contribute. */
  function OwnTodoTextOf(paths: PathOps, v: FileView): string {
    ConcatMap(LocatedTodosOf(paths, v), TodoEntry)
  }

  function OwnTodoText(paths: PathOps): FileView -> string {
    v => OwnTodoTextOf(paths, v)
  }

  /** The foreach over one file's todos in `InsertTodos`. */
  method AppendTodos(path: string, todos: seq<TodoItem>, sb: StringBuilder)
    modifies sb
    ensures sb.text == old(sb.text) + ConcatMap(Locate(path, todos), TodoEntry)
  {
    ghost var located := Locate(path, todos);
    for i := 0 to |todos|
      invariant sb.text == old(sb.text) + ConcatMap(located[..i], TodoEntry)
    {
      var todo := todos[i];
      ghost var before := sb.text;
      sb.AppendLine("// " + Trim(todo.value));
      sb.AppendLine("// At \"" + path + ":" + IntToString(todo.line) + "\"");
      sb.AppendNewLine();
      assert sb.text == before + Line("// " + Trim(todo.value))
        + Line("// At \"" + path + ":" + IntToString(todo.line) + "\"") + NewLine;
      AppendAssoc(before, Line("// " + Trim(todo.value)), Line("// At \"" + path + ":" + IntToString(todo.line) + "\""));
      AppendAssoc(before, Line("// " + Trim(todo.value)) + Line("// At \"" + path + ":" + IntToString(todo.line) + "\""), NewLine);
      ConcatMapStep(located, i, TodoEntry, old(sb.text), before, sb.text);
    }
    assert located[..|todos|] == located;
  }

  /** `InsertTodos`: the file's todos when it has any and then, recursively,
      those of every file it includes. */
  method InsertTodos(paths: PathOps, file: FileView, sb: StringBuilder)
    modifies sb
    ensures sb.text == old(sb.text) + Walk(file, OwnTodoText(paths))
    decreases file
  {
    if file.todos.Some? && |file.todos.value| != 0 {
      var filePath := paths.join(file.absoluteFolderPath, file.name);
      AppendTodos(filePath, file.todos.value, sb);
    } else {
      assert LocatedTodosOf(paths, file) == [];
    }
    ghost var own := OwnTodoText(paths);
    ghost var start := sb.text;
    assert start == old(sb.text) + OwnTodoTextOf(paths, file);
    assert own(file) == OwnTodoTextOf(paths, file);
    if file.includedFileContexts.Unparsed? {
      assert Walk(file, own) == own(file) + [];
      return;
    }
    var children := file.includedFileContexts.files;
    for i := 0 to |children|
      invariant sb.text == start + WalkAll(children[..i], own)
    {
      ghost var before := sb.text;
      InsertTodos(paths, children[i], sb);
      WalkAllStep(children, i, own, start, before, sb.text);
    }
    assert children[..|children|] == children;
    AppendAssoc(old(sb.text), own(file), WalkAll(children, own));
  }

  /** The files the report covers: the root ACS files, then the root
      DECORATE files, each list empty while it is null. */
  function ContextFiles(project: ProjectContext): (vs: seq<FileView>)
    ensures |vs| == |AcsRoots(project)| + |DecorateRoots(project)|
  {
    AcsContext.ViewAll(AcsRoots(project)) + DecorateContext.ViewAll(DecorateRoots(project))
  }

  function AcsRoots(project: ProjectContext): seq<AcsContext.AcsFile> {
    match project.mainAcsLibraryFiles
    case None => []
    case Some(fs) => fs
  }

  function DecorateRoots(project: ProjectContext): seq<DecorateContext.DecorateFile> {
    match project.mainDecorateFiles
    case None => []
    case Some(fs) => fs
  }

  /** The file `GenerateTodoListForProjectAsync` writes: its path and text. */
  datatype Report = Report(path: string, text: string)

  /** The report body: every context file's tree, one after the other. */
  function ReportBody(paths: PathOps, files: seq<FileView>): string {
    WalkAll(files, OwnTodoText(paths))
  }

  /** `GenerateTodoListForProjectAsync` up to the write: nothing when the
      project has no files or no todos, otherwise the header, a blank line
      and the todo entries. `Path.GetFullPath` is taken as the identity. */
  function TodoReport(paths: PathOps, todoOutput: string, project: ProjectContext): (r: Option<Report>)
    ensures r.None? <==> ReportBody(paths, ContextFiles(project)) == []
    ensures r.Some? ==> r.value.text == Header + NewLine + NewLine + ReportBody(paths, ContextFiles(project))
    ensures r.Some? ==> r.value.path == paths.join(todoOutput, "todo_" + project.projectName + ".g.txt")
  {
    var body := ReportBody(paths, ContextFiles(project));
    if body == [] then None
    else Some(Report(paths.join(todoOutput, "todo_" + project.projectName + ".g.txt"), Header + NewLine + NewLine + body))
  }

  /** `GenerateTodoListForProjectAsync` with its buffer. */
  method GenerateTodoListForProject(paths: PathOps, todoOutput: string, project: ProjectContext) returns (r: Option<Report>)
    ensures r == TodoReport(paths, todoOutput, project)
  {
    var contextFiles := ContextFiles(project);
    if |contextFiles| == 0 {
      return None;
    }
    var sb := new StringBuilder();
    InsertTodoTrees(paths, contextFiles, sb);
    assert sb.text == ReportBody(paths, contextFiles);
    if |sb.text| == 0 {
      return None;
    }
    sb.Prepend(Header + NewLine + NewLine);
    return Some(Report(paths.join(todoOutput, "todo_" + project.projectName + ".g.txt"), sb.text));
  }

  /** The loop of `GenerateTodoListForProjectAsync`: each tree's todos in
      list order. */
  method InsertTodoTrees(paths: PathOps, files: seq<FileView>, sb: StringBuilder)
    modifies sb
    ensures sb.text == old(sb.text) + WalkAll(files, OwnTodoText(paths))
  {
    ghost var start := sb.text;
    assert start == start + WalkAll(files[..0], OwnTodoText(paths));
    for i := 0 to |files|
      invariant sb.text == start + WalkAll(files[..i], OwnTodoText(paths))
    {
      ghost var before := sb.text;
      InsertTodos(paths, files[i], sb);
      WalkAllStep(files, i, OwnTodoText(paths), start, before, sb.text);
    }
    assert files[..|files|] == files;
  }

  /** `RunAsync`: nothing on cancellation or without an output directory,
      the missing-project exception, or the report. */
  function RunTodoListTask(paths: PathOps, cancelled: bool, todoOutput: Option<string>, project: Option<ProjectContext>): (r: Result<Option<Report>>)
    ensures cancelled || todoOutput.None? || todoOutput == Some("") ==> r == Ok(None)
    ensures r.Err? <==> !cancelled && todoOutput.Some? && todoOutput.value != "" && project.None?
    ensures r.Err? ==> r.error == ProjectContextMissing
    ensures !cancelled && todoOutput.Some? && todoOutput.value != "" && project.Some? ==>
      r == Ok(TodoReport(paths, todoOutput.value, project.value))
  {
    if cancelled then Ok(None)
    else match todoOutput
      case None => Ok(None)
      case Some(output) =>
        if output == "" then Ok(None)
        else match project
          case None => Err(ProjectContextMissing)
          case Some(p) => Ok(TodoReport(paths, output, p))
  }

  // ---- What the report promises ----

  /** The report's entries are the entries of the located todos of every
      tree, in walk order: exactly one three-line entry per todo. */
  lemma EntriesInWalkOrder(paths: PathOps, files: seq<FileView>)
    ensures ReportBody(paths, files) == ConcatMap(WalkAll(files, LocatedTodos(paths)), TodoEntry)
  {
    WalkAllConcatMap(files, OwnTodoText(paths), LocatedTodos(paths), TodoEntry);
  }

  /** The todos of the root ACS trees come before those of the DECORATE trees. */
  lemma AcsTodosFirst(paths: PathOps, project: ProjectContext)
    ensures ReportBody(paths, ContextFiles(project)) ==
      ReportBody(paths, AcsContext.ViewAll(AcsRoots(project))) + ReportBody(paths, DecorateContext.ViewAll(DecorateRoots(project)))
  {
    WalkAllAppend(AcsContext.ViewAll(AcsRoots(project)), DecorateContext.ViewAll(DecorateRoots(project)), OwnTodoText(paths));
  }

  /** Each entry has exactly three line breaks when neither the todo text
      nor the path has one, and it ends with an empty line. */
  lemma {:induction false} EntryIsThreeLines(l: LocatedTodo)
    requires NewLine == "\n"
    requires '\n' !in l.todo.value && '\n' !in l.path
    ensures Count(TodoEntry(l), '\n') == 3
    ensures EndsWith(TodoEntry(l), NewLine + NewLine)
  {
    var a := "// " + Trim(l.todo.value);
    var b := "// At \"" + l.path + ":" + IntToString(l.todo.line) + "\"";
    TrimKeepsAbsent(l.todo.value, '\n');
    IntToStringHasNoLineBreak(l.todo.line);
    CountAppend(a, "\n", '\n');
    CountAppend(a + "\n", b, '\n');
    CountAppend(a + "\n" + b, "\n", '\n');
    CountAppend(a + "\n" + b + "\n", "\n", '\n');
    CountAbsent(a, '\n');
    CountAbsent(b, '\n');
    assert TodoEntry(l) == a + "\n" + b + "\n" + "\n";
  }

  /** The report is written exactly when some tree holds a todo. */
  lemma {:induction false} EntriesEmptyIffNoTodos(ls: seq<LocatedTodo>)
    ensures ConcatMap(ls, TodoEntry) == [] <==> ls == []
  {
    if ls != [] {
      assert |TodoEntry(ls[|ls| - 1])| > 0;
    }
  }
}
