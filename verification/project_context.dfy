/** `ProjectContext`: what the publish tasks know about the project being
    published, including the parsed root files. */
module ProjectContexts {
  import opened Common
  import AcsContext
  import DecorateContext

  /** The project's path and name, and its root ACS and DECORATE files
      (`None` while no task has set them). */
  datatype ProjectContext = ProjectContext(
    projectPath: string,
    projectName: string,
    mainAcsLibraryFiles: Option<seq<AcsContext.AcsFile>>,
    mainDecorateFiles: Option<seq<DecorateContext.DecorateFile>>)
}
