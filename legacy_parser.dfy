/** The legacy Gradle command resolver. It collects the same kind of settings as the
    current one, but its command line starts with a relative wrapper name ("./gradlew" or
    "./gradlew.bat") or with `<home>/bin/gradle` or the bare "gradle": it searches no
    `PATH`, resolves nothing against a working directory and changes no permissions. The
    operating system is read from the environment map alone. */
module GradleTask {
  import opened JavaLang
  import opened Platform
  import opened TaskProperties

  /** The wrapper command on Windows. */
  const GRADLEW_WINDOWS := "./gradlew.bat"
  /** The wrapper command elsewhere. */
  const GRADLEW_UNIX := "./gradlew"
  /** The installed Gradle's command, on every platform. */
  const GRADLE := "gradle"
  /** The directory of the Gradle executables inside a Gradle home. */
  const GRADLE_BIN := "bin"
  /** The environment map key naming the operating system. */
  const OS_NAME := "os.name"

  /** Everything a legacy parser has collected besides its configuration. */
  datatype Settings = Settings(
    tasks: seq<string>,
    options: seq<string>,
    environment: map<string, string>,
    useWrapper: bool,
    gradleHome: Option<string>)

  /** The settings of a parser no directive has touched yet. */
  const Initial := Settings([], [], map[], false, None)

  /** `isWindows()`: only the environment map's `os.name` entry counts. */
  function IsWindows(environment: map<string, string>): bool
  {
    IsWindowsName(Get(environment, OS_NAME))
  }

  /** Without an `os.name` entry, or with a blank one, the machine is not taken for Windows. */
  lemma MissingOsNameIsNotWindows(environment: map<string, string>)
    requires OS_NAME !in environment || IsBlank(Some(environment[OS_NAME]))
    ensures !IsWindows(environment)
  {
  }

  /** The first token of the command line. In wrapper mode it is "./gradlew.bat" exactly on
      Windows and "./gradlew" otherwise. Outside it, a non-blank explicit Gradle home wins,
      then a non-blank `GRADLE_HOME` entry of the environment map, either giving the
      absolute path of `<home>/bin/gradle`; with neither it is the bare "gradle". */
  function Executable(s: Settings, files: IoFiles): (r: string)
    ensures s.useWrapper ==> (r == GRADLEW_WINDOWS || r == GRADLEW_UNIX) && (r == GRADLEW_WINDOWS <==> IsWindows(s.environment))
    ensures !s.useWrapper && !IsBlank(s.gradleHome) ==>
              r == files.absolutePath(files.child(files.child(s.gradleHome.value, GRADLE_BIN), GRADLE))
    ensures !s.useWrapper && IsBlank(s.gradleHome) && !IsBlank(Get(s.environment, GRADLE_HOME)) ==>
              r == files.absolutePath(files.child(files.child(s.environment[GRADLE_HOME], GRADLE_BIN), GRADLE))
    ensures !s.useWrapper && IsBlank(s.gradleHome) && IsBlank(Get(s.environment, GRADLE_HOME)) ==> r == GRADLE
  {
    if s.useWrapper then
      if IsWindows(s.environment) then GRADLEW_WINDOWS else GRADLEW_UNIX
    else
      var gradleHome := GradleHome(s.gradleHome, s.environment);
      if !IsBlank(gradleHome) then files.absolutePath(files.child(files.child(gradleHome.value, GRADLE_BIN), GRADLE))
      else GRADLE
  }

  /** Outside wrapper mode the operating system plays no part: the command is the same
      whatever the environment map says about `os.name`. */
  lemma InstalledGradleIgnoresOs(s: Settings, files: IoFiles, osName: string)
    requires !s.useWrapper
    ensures Executable(s, files) == Executable(s.(environment := s.environment[OS_NAME := osName]), files)
  {
    var other := s.environment[OS_NAME := osName];
    assert Get(other, GRADLE_HOME) == Get(s.environment, GRADLE_HOME);
  }

  /** The list `build` returns. */
  function CommandLine(s: Settings, files: IoFiles): seq<string>
  {
    [Executable(s, files)] + s.options + s.tasks
  }

  /** The command line is the executable followed by all options and then all tasks, each
      in the order they were added; its length is one more than their number. */
  lemma CommandLineOrder(s: Settings, files: IoFiles)
    ensures |CommandLine(s, files)| == 1 + |s.options| + |s.tasks|
    ensures CommandLine(s, files)[0] == Executable(s, files)
    ensures CommandLine(s, files)[1..1 + |s.options|] == s.options
    ensures CommandLine(s, files)[1 + |s.options|..] == s.tasks
  {
    var r := CommandLine(s, files);
    assert r == [r[0]] + (s.options + s.tasks);
    assert r[1..] == s.options + s.tasks;
  }

  /** The legacy resolver. Its directives each change one setting and leave the rest alone. */
  class GradleTaskConfigParser {
    /** The task configuration the properties are read from. */
    const taskConfig: map<string, string>
    var tasks: seq<string>
    var options: seq<string>
    var environment: map<string, string>
    var useWrapper: bool
    var gradleHome: Option<string>

    /** The collected settings. */
    function State(): Settings
      reads this
    {
      Settings(tasks, options, environment, useWrapper, gradleHome)
    }

    /** `taskConfig.getValue(propertyKey)`. */
    function Property(propertyKey: string): Option<string>
    {
      Get(taskConfig, propertyKey)
    }

    /** `fromConfig(taskConfig)`: a parser over `taskConfig` with nothing collected yet;
        the wrapper is off. */
    constructor FromConfig(taskConfig: map<string, string>)
      ensures this.taskConfig == taskConfig
      ensures State() == Initial
    {
      this.taskConfig := taskConfig;
      tasks := [];
      options := [];
      environment := map[];
      useWrapper := false;
      gradleHome := None;
    }

    method WithEnvironment(environment: map<string, string>)
      modifies this
      ensures State() == old(State()).(environment := environment)
    {
      this.environment := environment;
    }

    /** Replaces the flag, so the last call wins. */
    method UseWrapper(propertyKey: string)
      modifies this
      ensures State() == old(State()).(useWrapper := IsSet(Property(propertyKey)))
    {
      useWrapper := IsSet(Property(propertyKey));
    }

    /** Stores the raw value, blank or missing included. */
    method WithGradleHome(propertyKey: string)
      modifies this
      ensures State() == old(State()).(gradleHome := Property(propertyKey))
    {
      gradleHome := Property(propertyKey);
    }

    /** Appends the whitespace-separated tokens of the property, none when it is blank. */
    method WithTasks(propertyKey: string)
      modifies this
      ensures State() == old(State()).(tasks := old(tasks) + ValueTokens(Property(propertyKey)))
    {
      var value := Property(propertyKey);
      if !IsBlank(value) {
        tasks := tasks + ValueTokens(value);
      }
    }

    /** Appends `option` when the property is set, and changes nothing otherwise. */
    method WithOption(propertyKey: string, option: string)
      modifies this
      ensures State() == old(State()).(options := old(options) + (if IsSet(Property(propertyKey)) then [option] else []))
    {
      if IsSet(Property(propertyKey)) {
        options := options + [option];
      }
    }

    /** Appends the whitespace-separated tokens of the property after the options already
        present, none when it is blank. */
    method WithAdditionalOptions(propertyKey: string)
      modifies this
      ensures State() == old(State()).(options := old(options) + ValueTokens(Property(propertyKey)))
    {
      var additional := Property(propertyKey);
      if !IsBlank(additional) {
        options := options + ValueTokens(additional);
      }
    }

    /** `build()`: the command line for the collected settings. */
    method Build(files: IoFiles) returns (command: seq<string>)
      ensures command == CommandLine(State(), files)
    {
      command := [];
      if useWrapper {
        if IsWindows(environment) {
          command := command + [GRADLEW_WINDOWS];
        } else {
          command := command + [GRADLEW_UNIX];
        }
      } else {
        var gradleHome := GradleHome(this.gradleHome, environment);
        if !IsBlank(gradleHome) {
          command := command + [files.absolutePath(files.child(files.child(gradleHome.value, GRADLE_BIN), GRADLE))];
        } else {
          command := command + [GRADLE];
        }
      }
      command := command + options;
      command := command + tasks;
    }
  }

  /** Of two `useWrapper` directives the second decides: a parser given nothing else builds
      "./gradlew" when the second property is set and the bare "gradle" when it is not,
      whatever the first said. */
  method LastUseWrapperWins(taskConfig: map<string, string>, first: string, second: string, files: IoFiles)
    returns (command: seq<string>)
    ensures command == [if IsSet(Get(taskConfig, second)) then GRADLEW_UNIX else GRADLE]
  {
    var parser := new GradleTaskConfigParser.FromConfig(taskConfig);
    parser.UseWrapper(first);
    parser.UseWrapper(second);
    assert !IsWindows(parser.environment);
    command := parser.Build(files);
  }
}
