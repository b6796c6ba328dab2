/** The `execute` goal of the GLIBC version check plugin: find objdump, read
    the ceiling, run `objdump -T` on the native library and check its output.
    The file system and the subprocess are questions put to a `World`. */
module GlibcMojo {
  import opened Results
  import opened Strings
  import opened Numbers
  import opened GlibcVersion
  import opened GlibcPattern
  import opened GlibcCheck
  import opened ObjdumpLocator

  /** The plugin's parameters: `maxGlibcVersion`, the optional `objdump`
      and `nativeLib` (as its path). */
  datatype Config = Config(maxGlibcVersion: string, objdump: Option<string>, nativeLib: string)

  /** How running the command ends: with an exit code and the text read from
      its standard output (decoded as UTF-8), interrupted while waiting, or
      with an IOException from starting it or reading its output. */
  datatype RunOutcome = Exited(code: Int32, output: string) | Interrupted | IoFailure

  /** What `execute` learns from outside: the `os.name` property, whether a
      path is an existing executable, whether a path is a file, and what
      running a command line does. */
  datatype World = World(
    osName: Option<string>,
    usable: string -> bool,
    isFile: string -> bool,
    run: string -> RunOutcome)

  /** How `execute` ends: normally, with a MojoExecutionException, with the
      MojoFailureException of `failure`, or with the NumberFormatException
      that escapes `check`. */
  datatype Outcome =
    | Success
    | ExecutionFailure(message: string)
    | BuildFailure(message: string)
    | NumberFormatFailure(digits: string)

  function CommandLine(objdump: string, nativeLib: string): string {
    objdump + " -T " + nativeLib
  }

  function ExitMessage(command: string, code: Int32): string {
    command + " exit with return code " + IntToString(code)
  }

  const InterruptedMessage := "Interrupted while waiting for objdump to complete"
  const IoFailureMessage := "Unable to execute objdump"

  function NotAFileMessage(nativeLib: string): string {
    nativeLib + " is not a file"
  }

  /** What happens after the command has been started. */
  function AfterRun(ceiling: Version, command: string, run: RunOutcome): (r: Outcome)
    ensures r.Success? <==> run.Exited? && run.code == 0 && CheckLines(ceiling, Tokens(run.output)).Passed?
    ensures r.BuildFailure? ==> run.Exited? && run.code == 0 && CheckLines(ceiling, Tokens(run.output)) == Failed(r.message)
  {
    match run
    case Interrupted => ExecutionFailure(InterruptedMessage)
    case IoFailure => ExecutionFailure(IoFailureMessage)
    case Exited(code, output) =>
      if code != 0 then ExecutionFailure(ExitMessage(command, code))
      else
        match CheckLines(ceiling, Tokens(output))
        case Passed => Success
        case Failed(message) => BuildFailure(message)
        case NumberFormatError(digits) => NumberFormatFailure(digits)
  }

  /** `execute`: the tool is located before the ceiling is read, and both
      before the library is looked at or anything is run. */
  function Execute(config: Config, world: World): (r: Outcome)
    ensures !r.ExecutionFailure? ==>
      && LocateObjdump(config.objdump, world.osName, world.usable).Ok?
      && ParseCeiling(config.maxGlibcVersion).Ok?
      && world.isFile(config.nativeLib)
  {
    match LocateObjdump(config.objdump, world.osName, world.usable)
    case Err(message) => ExecutionFailure(message)
    case Ok(objdump) =>
      match ParseCeiling(config.maxGlibcVersion)
      case Err(message) => ExecutionFailure(message)
      case Ok(ceiling) =>
        if !world.isFile(config.nativeLib) then ExecutionFailure(NotAFileMessage(config.nativeLib))
        else
          var command := CommandLine(objdump, config.nativeLib);
          AfterRun(ceiling, command, world.run(command))
  }

  /** The build passes exactly when the tool is found, the ceiling reads,
      the library is a file, objdump exits with 0 and its output passes
      `check` under that ceiling. */
  lemma ExecuteSucceedsIff(config: Config, world: World)
    ensures Execute(config, world).Success? <==>
      exists objdump, ceiling, output ::
        && LocateObjdump(config.objdump, world.osName, world.usable) == Ok(objdump)
        && ParseCeiling(config.maxGlibcVersion) == Ok(ceiling)
        && world.isFile(config.nativeLib)
        && world.run(CommandLine(objdump, config.nativeLib)) == Exited(0, output)
        && CheckLines(ceiling, Tokens(output)).Passed?
  {
    if Execute(config, world).Success? {
      var objdump := LocateObjdump(config.objdump, world.osName, world.usable).value;
      var ceiling := ParseCeiling(config.maxGlibcVersion).value;
      var output := world.run(CommandLine(objdump, config.nativeLib)).output;
      assert world.run(CommandLine(objdump, config.nativeLib)) == Exited(0, output);
    }
  }

  /** A build failure always carries the message of `failure` for a
      requirement in objdump's output that is above the ceiling. */
  lemma BuildFailureNamesRequirement(config: Config, world: World)
    requires Execute(config, world).BuildFailure?
    ensures exists ceiling: Version, output: string, req: Requirement ::
      && ParseCeiling(config.maxGlibcVersion) == Ok(ceiling)
      && Exceeds(req.version, ceiling)
      && Execute(config, world).message == FailureMessage(ceiling, req)
      && world.run(CommandLine(LocateObjdump(config.objdump, world.osName, world.usable).value, config.nativeLib))
         == Exited(0, output)
  {
    var objdump := LocateObjdump(config.objdump, world.osName, world.usable).value;
    var ceiling := ParseCeiling(config.maxGlibcVersion).value;
    var run := world.run(CommandLine(objdump, config.nativeLib));
    var lines := Tokens(run.output);
    FailureIsAboveCeiling(ceiling, lines);
    var k: int, req: Requirement :| 0 <= k < |lines| && Exceeds(req.version, ceiling)
      && CheckLines(ceiling, lines).message == FailureMessage(ceiling, req);
    assert run == Exited(0, run.output);
  }

  /** When no objdump is configured and the candidate for this OS is not
      there, that is reported first, even if the ceiling is unreadable too. */
  lemma MissingToolReportedFirst(config: Config, world: World)
    requires config.objdump.None? && !world.usable(CandidateFor(world.osName).path)
    ensures Execute(config, world) == ExecutionFailure(MissingToolMessage(CandidateFor(world.osName)))
  {
  }

  /** An unreadable ceiling stops `execute` with its message before the
      library is looked at or objdump is run. */
  lemma BadCeilingRunsNothing(config: Config, world: World, isFile: string -> bool, run: string -> RunOutcome)
    requires LocateObjdump(config.objdump, world.osName, world.usable).Ok?
    requires ParseCeiling(config.maxGlibcVersion).Err?
    ensures Execute(config, world) == ExecutionFailure(CeilingErrorPrefix + config.maxGlibcVersion)
    ensures Execute(config, world.(isFile := isFile, run := run)) == Execute(config, world)
  {
  }

  /** A library path that is not a file stops `execute` before objdump runs. */
  lemma NotAFileRunsNothing(config: Config, world: World, run: string -> RunOutcome)
    requires LocateObjdump(config.objdump, world.osName, world.usable).Ok?
    requires ParseCeiling(config.maxGlibcVersion).Ok?
    requires !world.isFile(config.nativeLib)
    ensures Execute(config, world) == ExecutionFailure(NotAFileMessage(config.nativeLib))
    ensures Execute(config, world.(run := run)) == Execute(config, world)
  {
  }

  /** A non-zero exit code fails the goal with the command line and the code,
      and the output is not checked. */
  lemma NonZeroExitIgnoresOutput(ceiling: Version, command: string, code: Int32, output: string)
    requires code != 0
    ensures AfterRun(ceiling, command, Exited(code, output)) == ExecutionFailure(ExitMessage(command, code))
  {
  }

  /** With a configured objdump, the command line is that path, " -T " and
      the library path. */
  lemma ConfiguredCommandLine(config: Config, world: World, path: string)
    requires config.objdump == Some(path)
    requires ParseCeiling(config.maxGlibcVersion).Ok? && world.isFile(config.nativeLib)
    ensures Execute(config, world)
         == AfterRun(ParseCeiling(config.maxGlibcVersion).value, path + " -T " + config.nativeLib,
                     world.run(path + " -T " + config.nativeLib))
  {
  }
}
