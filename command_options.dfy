/**
 * The options shared by the two export commands, the exceptions the commands
 * throw, and the resolution of the destination path from `--path` / `--module`.
 */
module CommandOptions {
  import opened Wrappers

  /** `--module`, `--path`, `--unset-uuid`, `--unset-config-hash`; None is an option left unset. */
  datatype Options = Options(
    moduleName: Option<string>,
    path: Option<string>,
    unsetUuid: bool,
    unsetConfigHash: bool)

  /** The exceptions thrown by the validators, one per message. */
  datatype CommandError =
    | PathAndModuleBothGiven
    | ModuleDoesNotExist
    | EntityTypeDoesNotExist
    | EntityTypeNotSelectable
    | BundleDoesNotExist

  /** The directory a module's default configuration lives in. */
  function InstallDirectory(modulePath: string): string {
    modulePath + "/config/install"
  }

  /**
   * checkPathFromOptions: `modules` maps each installed module to its path (the
   * module extension list). The chosen directory, None when neither option is
   * given (the caller then prompts), or the exception.
   */
  function CheckPathFromOptions(modules: map<string, string>, options: Options): (r: Result<Option<string>, CommandError>)
    ensures r == Failure(PathAndModuleBothGiven) <==> options.path.Some? && options.moduleName.Some?
    ensures r == Failure(ModuleDoesNotExist) <==>
      options.path.None? && options.moduleName.Some? && options.moduleName.value !in modules
    ensures r == Success(None) <==> options.path.None? && options.moduleName.None?
    ensures options.path.Some? && options.moduleName.None? ==> r == Success(options.path)
    ensures options.path.None? && options.moduleName.Some? && options.moduleName.value in modules ==>
      r == Success(Some(InstallDirectory(modules[options.moduleName.value])))
  {
    if options.path.Some? && options.moduleName.Some? then
      Failure(PathAndModuleBothGiven)
    else if options.path.Some? then
      Success(options.path)
    else if options.moduleName.Some? then
      if options.moduleName.value in modules then
        Success(Some(InstallDirectory(modules[options.moduleName.value])))
      else
        Failure(ModuleDoesNotExist)
    else
      Success(None)
  }
}
