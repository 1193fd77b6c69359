/** The publisher: runs the publish tasks one after the other on a shared
    context, recording the running task and the finished ones, and stops at
    the first task that raises an exception. The task bodies are outside
    this loop: what each task raises is an input. */
module PublisherService {
  import opened Common
  import opened PublisherConfiguration

  /** The publish task types. */
  datatype PublishTask =
    | AddProjectContextToMainContextTask
    | CopyProjectToTempDirTask
    | AddAcsSourceToContextTask
    | AddDecorateToContextTask
    | RemoveUnrelatedFilesTask
    | GeneratePublicAcsSourceTask
    | GenerateTodoListTask
    | GenerateDecorateSummaryTask
    | StripFilesTask
    | CompileTask
    | RemoveAcsSourceTask
    | PackDecorateTask
    | RemoveEmptyDirectoriesTask
    | PackToOutputTask
    | RemoveTemporaryDirectoryTask
    | RemoveEmptyLogfilesTask

  /** The task list of the tool, in the order the tasks run. */
  const ToolTasks: seq<PublishTask> := [
    AddProjectContextToMainContextTask,
    CopyProjectToTempDirTask,
    AddAcsSourceToContextTask,
    AddDecorateToContextTask,
    RemoveUnrelatedFilesTask,
    GeneratePublicAcsSourceTask,
    GenerateTodoListTask,
    GenerateDecorateSummaryTask,
    StripFilesTask,
    CompileTask,
    RemoveAcsSourceTask,
    PackDecorateTask,
    RemoveEmptyDirectoriesTask,
    PackToOutputTask,
    RemoveTemporaryDirectoryTask
  ]

  /** The task list of the console publisher, in the order the tasks run. */
  const ConsoleTasks: seq<PublishTask> := [
    AddProjectContextToMainContextTask,
    CopyProjectToTempDirTask,
    AddAcsSourceToContextTask,
    AddDecorateToContextTask,
    RemoveUnrelatedFilesTask,
    GeneratePublicAcsSourceTask,
    GenerateTodoListTask,
    GenerateDecorateSummaryTask,
    StripFilesTask,
    CompileTask,
    RemoveAcsSourceTask,
    PackDecorateTask,
    RemoveEmptyDirectoriesTask,
    PackToOutputTask,
    RemoveTemporaryDirectoryTask,
    RemoveEmptyLogfilesTask
  ]

  /** The console list is the tool list with the log clean-up added last;
      both run every task once. */
  lemma TaskLists()
    ensures |ToolTasks| == 15 && |ConsoleTasks| == 16
    ensures ConsoleTasks == ToolTasks + [RemoveEmptyLogfilesTask]
    ensures forall i, j :: 0 <= i < j < |ConsoleTasks| ==> ConsoleTasks[i] != ConsoleTasks[j]
  {
  }

  /** `PublishContext`: the configuration, the task now running and the
      tasks that finished, in order. */
  class PublishContext {
    const configuration: Configuration
    var runningTask: Option<PublishTask>
    var finishedTasks: seq<PublishTask>

    constructor (configuration: Configuration)
      ensures this.configuration == configuration
      ensures runningTask == None && finishedTasks == []
    {
      this.configuration := configuration;
      runningTask := None;
      finishedTasks := [];
    }
  }

  /** `PublisherResult`: the context, and the exception that ended the run, if any. */
  datatype PublisherResult = PublisherResult(context: PublishContext, exception: Option<Error>) {
    predicate Success() { exception.None? }
  }

  /** How a run over a task list ends. */
  datatype Outcome =
      /** A task type could not be created; the exception leaves the publisher. */
    | Thrown(task: PublishTask)
      /** A task raised `error` after the tasks in `finished` had run. */
    | Failed(finished: seq<PublishTask>, task: PublishTask, error: Error)
      /** Every task ran. */
    | Completed(finished: seq<PublishTask>)

  /** The run from the `i`-th task on, the tasks before it having finished;
      `creatable` says whether a task type creates an `IPublishTask` and
      `raised` what running a task raises. */
  function RunFrom(tasks: seq<PublishTask>, i: nat, creatable: PublishTask -> bool, raised: PublishTask -> Option<Error>): Outcome
    requires i <= |tasks|
    decreases |tasks| - i
  {
    if i == |tasks| then Completed(tasks)
    else if !creatable(tasks[i]) then Thrown(tasks[i])
    else match raised(tasks[i])
      case Some(e) => Failed(tasks[..i], tasks[i], e)
      case None => RunFrom(tasks, i + 1, creatable, raised)
  }

  /** The context and exception a result holds for an outcome. */
  predicate Reports(r: PublisherResult, o: Outcome)
    reads r.context
  {
    match o
    case Thrown(_) => false
    case Failed(finished, task, e) =>
      r.context.finishedTasks == finished && r.context.runningTask == Some(task) && r.exception == Some(e)
    case Completed(finished) =>
      r.context.finishedTasks == finished && r.context.runningTask.None? && r.exception.None?
  }

  /** `DoPublishAsync`: runs the tasks in order on a fresh context. */
  method DoPublish(tasks: seq<PublishTask>, configuration: Configuration, creatable: PublishTask -> bool, raised: PublishTask -> Option<Error>)
    returns (r: Result<PublisherResult>)
    ensures r.Err? <==> RunFrom(tasks, 0, creatable, raised).Thrown?
    ensures r.Err? ==> r.error == NotAPublishTask(TaskName(RunFrom(tasks, 0, creatable, raised).task))
    ensures r.Ok? ==> fresh(r.value.context) && r.value.context.configuration == configuration
    ensures r.Ok? ==> Reports(r.value, RunFrom(tasks, 0, creatable, raised))
  {
    var context := new PublishContext(configuration);
    for i := 0 to |tasks|
      invariant context.finishedTasks == tasks[..i] && context.runningTask.None?
      invariant RunFrom(tasks, 0, creatable, raised) == RunFrom(tasks, i, creatable, raised)
    {
      var task := tasks[i];
      if !creatable(task) {
        return Err(NotAPublishTask(TaskName(task)));
      }
      context.runningTask := Some(task);
      var exception := raised(task);
      if exception.Some? {
        return Ok(PublisherResult(context, exception));
      }
      context.finishedTasks := context.finishedTasks + [task];
      context.runningTask := None;
      assert tasks[..i + 1] == tasks[..i] + [task];
    }
    assert tasks[..|tasks|] == tasks;
    return Ok(PublisherResult(context, None));
  }

  /** The tool's `DoPublishAsync`, over its fifteen tasks. */
  method DoPublishTool(configuration: Configuration, creatable: PublishTask -> bool, raised: PublishTask -> Option<Error>)
    returns (r: Result<PublisherResult>)
    ensures r.Err? <==> RunFrom(ToolTasks, 0, creatable, raised).Thrown?
    ensures r.Ok? ==> fresh(r.value.context) && Reports(r.value, RunFrom(ToolTasks, 0, creatable, raised))
  {
    r := DoPublish(ToolTasks, configuration, creatable, raised);
  }

  /** The console publisher's `DoPublishAsync`, over its sixteen tasks. */
  method DoPublishConsole(configuration: Configuration, creatable: PublishTask -> bool, raised: PublishTask -> Option<Error>)
    returns (r: Result<PublisherResult>)
    ensures r.Err? <==> RunFrom(ConsoleTasks, 0, creatable, raised).Thrown?
    ensures r.Ok? ==> fresh(r.value.context) && Reports(r.value, RunFrom(ConsoleTasks, 0, creatable, raised))
  {
    r := DoPublish(ConsoleTasks, configuration, creatable, raised);
  }

  /** The type name of a task. */
  function TaskName(t: PublishTask): string {
    match t
    case AddProjectContextToMainContextTask => "AddProjectContextToMainContextTask"
    case CopyProjectToTempDirTask => "CopyProjectToTempDirTask"
    case AddAcsSourceToContextTask => "AddAcsSourceToContextTask"
    case AddDecorateToContextTask => "AddDecorateToContextTask"
    case RemoveUnrelatedFilesTask => "RemoveUnrelatedFilesTask"
    case GeneratePublicAcsSourceTask => "GeneratePublicAcsSourceTask"
    case GenerateTodoListTask => "GenerateTodoListTask"
    case GenerateDecorateSummaryTask => "GenerateDecorateSummaryTask"
    case StripFilesTask => "StripFilesTask"
    case CompileTask => "CompileTask"
    case RemoveAcsSourceTask => "RemoveAcsSourceTask"
    case PackDecorateTask => "PackDecorateTask"
    case RemoveEmptyDirectoriesTask => "RemoveEmptyDirectoriesTask"
    case PackToOutputTask => "PackToOutputTask"
    case RemoveTemporaryDirectoryTask => "RemoveTemporaryDirectoryTask"
    case RemoveEmptyLogfilesTask => "RemoveEmptyLogfilesTask"
  }

  // ---- What a run promises ----

  /** A failed run: the finished tasks are the ones before the failing task,
      each of which was created and raised nothing, and the failing task
      raised the reported exception; the tasks after it never ran. */
  lemma {:induction false} FailedRun(tasks: seq<PublishTask>, i: nat, creatable: PublishTask -> bool, raised: PublishTask -> Option<Error>)
    requires i <= |tasks| && RunFrom(tasks, i, creatable, raised).Failed?
    ensures var o := RunFrom(tasks, i, creatable, raised);
      var k := |o.finished|;
      i <= k < |tasks| && o.finished == tasks[..k] && o.task == tasks[k] && raised(o.task) == Some(o.error)
      && creatable(o.task)
      && forall j :: i <= j < k ==> creatable(tasks[j]) && raised(tasks[j]).None?
    decreases |tasks| - i
  {
    if creatable(tasks[i]) && raised(tasks[i]).None? {
      FailedRun(tasks, i + 1, creatable, raised);
    }
  }

  /** A run completes exactly when every task is created and raises nothing,
      and then every task has finished, in order. */
  lemma {:induction false} CompletedRun(tasks: seq<PublishTask>, i: nat, creatable: PublishTask -> bool, raised: PublishTask -> Option<Error>)
    requires i <= |tasks|
    ensures RunFrom(tasks, i, creatable, raised).Completed? <==>
      forall j :: i <= j < |tasks| ==> creatable(tasks[j]) && raised(tasks[j]).None?
    ensures RunFrom(tasks, i, creatable, raised).Completed? ==> RunFrom(tasks, i, creatable, raised).finished == tasks
    decreases |tasks| - i
  {
    if i < |tasks| {
      CompletedRun(tasks, i + 1, creatable, raised);
    }
  }

  /** The finished tasks are always a prefix of the task list, and a
      failing task is the one right after them. */
  lemma FinishedIsPrefix(tasks: seq<PublishTask>, creatable: PublishTask -> bool, raised: PublishTask -> Option<Error>)
    ensures var o := RunFrom(tasks, 0, creatable, raised);
      (o.Failed? ==> o.finished + [o.task] <= tasks) && (o.Completed? ==> o.finished == tasks)
  {
    var o := RunFrom(tasks, 0, creatable, raised);
    if o.Failed? {
      FailedRun(tasks, 0, creatable, raised);
      var k := |o.finished|;
      assert o.finished + [o.task] == tasks[..k + 1];
    }
    CompletedRun(tasks, 0, creatable, raised);
  }

  /** A result reports success exactly when the run completed. */
  lemma SuccessIffCompleted(r: PublisherResult, o: Outcome)
    requires Reports(r, o)
    ensures r.Success() <==> o.Completed?
  {
  }
}
