/** The current Gradle command resolver. A parser is created over a task configuration,
    collects settings through a series of directives, and `build` then returns the command
    line: the executable (the wrapper script in the working directory, or an installed
    `gradle` found through the Gradle home or a `PATH` search), then the options, then the
    tasks. In wrapper mode on a non-Windows machine it may also add the owner-execute bit
    to the wrapper script. */
module Gradle {
  import opened JavaLang
  import opened Platform
  import opened TaskProperties

  /** The directory of the Gradle executables inside a Gradle home. */
  const GRADLE_BIN := "bin"
  /** The environment variable listing the directories searched for executables. */
  const PATH := "PATH"
  /** The key naming the operating system, in the environment map or as a system property. */
  const OS_NAME := "os.name"

  /** Everything a parser has collected: the fields of the Java class besides its configuration. */
  datatype Settings = Settings(
    tasks: seq<string>,
    options: seq<string>,
    workingDirectory: Option<string>,
    environment: map<string, string>,
    useWrapper: bool,
    makeWrapperExecutable: bool,
    gradleHome: Option<string>)

  /** The settings of a parser no directive has touched yet. */
  const Initial := Settings([], [], None, map[], false, false, None)

  /** `getEnvironmentVariable(name)`: the environment map's entry when the map has the key,
      even a blank one, otherwise the process environment's variable. */
  function GetEnvironmentVariable(environment: map<string, string>, host: Host, name: string): Option<string>
  {
    if name in environment then Some(environment[name]) else Get(host.processEnvironment, name)
  }

  /** The operating system name `isWindows()` inspects: the environment map's entry when the
      map has the key, otherwise the `os.name` system property. */
  function OsName(environment: map<string, string>, host: Host): Option<string>
  {
    if OS_NAME in environment then Some(environment[OS_NAME]) else host.osNameProperty
  }

  /** `isWindows()`. */
  function IsWindows(environment: map<string, string>, host: Host): bool
  {
    IsWindowsName(OsName(environment, host))
  }

  /** An `os.name` entry in the environment map hides the system property, whatever either says. */
  lemma OsNameEntryHidesProperty(environment: map<string, string>, host: Host, property: Option<string>)
    requires OS_NAME in environment
    ensures IsWindows(environment, host) == IsWindows(environment, host.(osNameProperty := property))
    ensures IsBlank(Some(environment[OS_NAME])) ==> !IsWindows(environment, host)
  {
  }

  /** Without an `os.name` entry the system property decides: a Windows name means Windows. */
  lemma OsNamePropertyDecides(environment: map<string, string>, host: Host)
    requires OS_NAME !in environment
    requires host.osNameProperty.Some?
    ensures IsWindows(environment, host) ==> exists i :: OccursAt(ToLowerCase(host.osNameProperty.value), "win", i)
    ensures (exists i :: OccursAt(ToLowerCase(host.osNameProperty.value), "win", i)) ==> IsWindows(environment, host)
  {
  }

  // ---------------------------------------------------------------------------
  // The wrapper

  /** What `Paths.get(workingDirectory, ...)` receives as its first part. */
  function Directory(s: Settings, host: Host): string
  {
    if s.workingDirectory.Some? then s.workingDirectory.value else host.unsetDirectory
  }

  /** The first token in wrapper mode: the platform's wrapper name resolved against the
      working directory, made absolute and normalised. */
  function WrapperPath(s: Settings, host: Host): string
  {
    host.paths.absolute(host.paths.join([Directory(s, host), host.gradlew.On(IsWindows(s.environment, host))]))
  }

  /** The file whose permissions `build` may change: the wrapper, and only in wrapper mode,
      off Windows, when the wrapper is to be made executable. */
  function WrapperPermissionTarget(s: Settings, host: Host): Option<string>
  {
    if s.useWrapper && !IsWindows(s.environment, host) && s.makeWrapperExecutable then
      Some(host.paths.join([WrapperPath(s, host)]))
    else
      None
  }

  /** The permission maps `build` can leave behind, starting from `before`: the same map, or
      (when there is a target and no I/O failure) the map with the owner-execute bit added
      to the target. */
  ghost predicate PermissionsAfterBuild(s: Settings, host: Host,
                                        before: map<string, set<PosixFilePermission>>,
                                        after: map<string, set<PosixFilePermission>>)
  {
    match WrapperPermissionTarget(s, host)
    case None => after == before
    case Some(target) => after == before || after == GrantOwnerExecute(before, target)
  }

  /** `build` never creates or removes a file, never takes a permission away and never
      touches any file but the wrapper, to which it can only add the owner-execute bit. */
  lemma PermissionsAfterBuildOnlyTouchWrapper(s: Settings, host: Host,
                                              before: map<string, set<PosixFilePermission>>,
                                              after: map<string, set<PosixFilePermission>>)
    requires PermissionsAfterBuild(s, host, before, after)
    ensures after.Keys == before.Keys
    ensures forall p :: p in before ==> before[p] <= after[p] && after[p] - before[p] <= {OwnerExecute}
    ensures forall p :: p in before && WrapperPermissionTarget(s, host) != Some(p) ==> after[p] == before[p]
  {
    match WrapperPermissionTarget(s, host)
    case None =>
    case Some(target) =>
      if after != before {
        forall p | p in before ensures before[p] <= after[p] && after[p] - before[p] <= {OwnerExecute} {
          if p == target {
            assert after[p] == before[p] + {OwnerExecute};
          }
        }
      }
  }

  /** Building again changes nothing a single build could not have changed: the bit is
      added at most once. */
  lemma PermissionsAfterBuildTwice(s: Settings, host: Host,
                                   before: map<string, set<PosixFilePermission>>,
                                   middle: map<string, set<PosixFilePermission>>,
                                   after: map<string, set<PosixFilePermission>>)
    requires PermissionsAfterBuild(s, host, before, middle)
    requires PermissionsAfterBuild(s, host, middle, after)
    ensures PermissionsAfterBuild(s, host, before, after)
  {
    match WrapperPermissionTarget(s, host)
    case None =>
    case Some(target) =>
      if middle != before && after != middle {
        GrantOwnerExecuteIdempotent(before, target);
      }
  }

  // ---------------------------------------------------------------------------
  // The installed Gradle

  /** The platform's Gradle launcher name. */
  function GradleName(s: Settings, host: Host): string
  {
    host.gradle.On(IsWindows(s.environment, host))
  }

  /** The loop of `getExecutablePath`: the normalised path of `command` in the first of
      `dirs` where it exists, or `command` itself when it exists in none. */
  function FirstExisting(dirs: seq<string>, command: string, paths: NioPaths, existing: set<string>): (r: string)
    ensures r == command
         || exists i :: 0 <= i < |dirs| && paths.join([dirs[i], command]) in existing
                                        && r == paths.absolute(paths.join([dirs[i], command]))
    decreases |dirs|
  {
    if dirs == [] then command
    else if paths.join([dirs[0], command]) in existing then paths.absolute(paths.join([dirs[0], command]))
    else
      var r := FirstExisting(dirs[1..], command, paths, existing);
      assert forall i :: 0 <= i < |dirs[1..]| ==> dirs[1..][i] == dirs[i + 1];
      r
  }

  /** `command` exists in `dirs[i]` and in none of the directories before it. */
  ghost predicate FirstMatchAt(dirs: seq<string>, command: string, paths: NioPaths, existing: set<string>, i: int)
  {
    && 0 <= i < |dirs|
    && paths.join([dirs[i], command]) in existing
    && forall j :: 0 <= j < i ==> paths.join([dirs[j], command]) !in existing
  }

  /** The search stops at the first directory holding the command, and falls back to the
      bare command when no directory does. */
  lemma {:induction false} FirstExistingIsFirstMatch(dirs: seq<string>, command: string, paths: NioPaths,
                                                     existing: set<string>, i: int)
    ensures FirstMatchAt(dirs, command, paths, existing, i) ==>
              FirstExisting(dirs, command, paths, existing) == paths.absolute(paths.join([dirs[i], command]))
    ensures (forall j :: 0 <= j < |dirs| ==> paths.join([dirs[j], command]) !in existing) ==>
              FirstExisting(dirs, command, paths, existing) == command
    decreases |dirs|
  {
    if dirs != [] && paths.join([dirs[0], command]) !in existing {
      var rest := dirs[1..];
      FirstExistingIsFirstMatch(rest, command, paths, existing, i - 1);
      if FirstMatchAt(dirs, command, paths, existing, i) {
        assert i > 0;
        assert rest[i - 1] == dirs[i];
        forall j | 0 <= j < i - 1 ensures paths.join([rest[j], command]) !in existing {
          assert rest[j] == dirs[j + 1];
        }
        assert FirstMatchAt(rest, command, paths, existing, i - 1);
      }
      if forall j :: 0 <= j < |dirs| ==> paths.join([dirs[j], command]) !in existing {
        forall j | 0 <= j < |rest| ensures paths.join([rest[j], command]) !in existing {
          assert rest[j] == dirs[j + 1];
        }
      }
    }
  }

  /** The directories `getExecutablePath` searches: the effective `PATH` split at the path separator. */
  function PathEntries(environment: map<string, string>, host: Host): seq<string>
    requires !IsBlank(GetEnvironmentVariable(environment, host, PATH))
  {
    SplitOnChar(GetEnvironmentVariable(environment, host, PATH).value, host.pathSeparator)
  }

  /** `getExecutablePath(command)`. */
  function ExecutablePath(command: string, environment: map<string, string>, host: Host, existing: set<string>): string
  {
    if IsBlank(GetEnvironmentVariable(environment, host, PATH)) then command
    else FirstExisting(PathEntries(environment, host), command, host.paths, existing)
  }

  /** The `PATH` search: the bare command when the effective `PATH` is blank or no listed
      directory holds it, otherwise the normalised path in the first directory that does. */
  lemma ExecutablePathSearch(command: string, environment: map<string, string>, host: Host,
                             existing: set<string>, i: int)
    ensures IsBlank(GetEnvironmentVariable(environment, host, PATH)) ==> ExecutablePath(command, environment, host, existing) == command
    ensures !IsBlank(GetEnvironmentVariable(environment, host, PATH)) && FirstMatchAt(PathEntries(environment, host), command, host.paths, existing, i) ==>
              ExecutablePath(command, environment, host, existing)
              == host.paths.absolute(host.paths.join([PathEntries(environment, host)[i], command]))
    ensures !IsBlank(GetEnvironmentVariable(environment, host, PATH)) &&
            (forall j :: 0 <= j < |PathEntries(environment, host)| ==> host.paths.join([PathEntries(environment, host)[j], command]) !in existing) ==>
              ExecutablePath(command, environment, host, existing) == command
  {
    if !IsBlank(GetEnvironmentVariable(environment, host, PATH)) {
      FirstExistingIsFirstMatch(PathEntries(environment, host), command, host.paths, existing, i);
    }
  }

  /** A `PATH` entry in the environment map is used even when it is blank: the process
      environment is then never consulted, and the bare command is returned. */
  lemma PathEntryHidesProcessPath(command: string, environment: map<string, string>, host: Host,
                                  existing: set<string>, processEnvironment: map<string, string>)
    requires PATH in environment
    ensures ExecutablePath(command, environment, host, existing)
         == ExecutablePath(command, environment, host.(processEnvironment := processEnvironment), existing)
    ensures IsBlank(Some(environment[PATH])) ==> ExecutablePath(command, environment, host, existing) == command
  {
  }

  /** With the effective `PATH` written out as directories joined by the path separator,
      the search finds the command in the first of those directories that holds it. */
  lemma PathSearchFindsFirstDirectory(command: string, environment: map<string, string>, host: Host,
                                      existing: set<string>, dirs: seq<string>, i: int)
    requires |dirs| >= 1
    requires forall k :: 0 <= k < |dirs| ==> host.pathSeparator !in dirs[k]
    requires |dirs| == 1 || dirs[|dirs| - 1] != ""
    requires GetEnvironmentVariable(environment, host, PATH) == Some(JoinOn(dirs, host.pathSeparator))
    requires !IsBlank(Some(JoinOn(dirs, host.pathSeparator)))
    requires FirstMatchAt(dirs, command, host.paths, existing, i)
    ensures ExecutablePath(command, environment, host, existing) == host.paths.absolute(host.paths.join([dirs[i], command]))
  {
    SplitOnCharRoundTrip(dirs, host.pathSeparator);
    FirstExistingIsFirstMatch(dirs, command, host.paths, existing, i);
  }

  /** The first token outside wrapper mode. A non-blank explicit Gradle home wins, then a
      non-blank `GRADLE_HOME` entry of the environment map; either gives the normalised
      `<home>/bin/<gradle>`. With neither, the `PATH` search decides. */
  function GradleCommand(s: Settings, host: Host, existing: set<string>): (r: string)
    ensures !IsBlank(s.gradleHome) ==>
              r == host.paths.absolute(host.paths.join([s.gradleHome.value, GRADLE_BIN, GradleName(s, host)]))
    ensures IsBlank(s.gradleHome) && !IsBlank(Get(s.environment, GRADLE_HOME)) ==>
              r == host.paths.absolute(host.paths.join([s.environment[GRADLE_HOME], GRADLE_BIN, GradleName(s, host)]))
    ensures IsBlank(s.gradleHome) && IsBlank(Get(s.environment, GRADLE_HOME)) ==>
              r == ExecutablePath(GradleName(s, host), s.environment, host, existing)
  {
    var gradleHome := GradleHome(s.gradleHome, s.environment);
    var gradle := GradleName(s, host);
    if !IsBlank(gradleHome) then host.paths.absolute(host.paths.join([gradleHome.value, GRADLE_BIN, gradle]))
    else ExecutablePath(gradle, s.environment, host, existing)
  }

  /** The process environment's `GRADLE_HOME` plays no part: only the explicit setting and
      the environment map are consulted. */
  lemma ProcessGradleHomeIsIgnored(s: Settings, host: Host, existing: set<string>, value: string)
    ensures GradleCommand(s, host, existing)
         == GradleCommand(s, host.(processEnvironment := host.processEnvironment[GRADLE_HOME := value]), existing)
  {
    var other := host.(processEnvironment := host.processEnvironment[GRADLE_HOME := value]);
    assert Get(other.processEnvironment, PATH) == Get(host.processEnvironment, PATH);
  }

  /** Without the wrapper, a Gradle home or a `PATH` entry in the environment map, the
      process environment's `PATH` is searched: when it names a single directory holding
      the launcher (`/usr/bin`, say), the command line starts with the launcher's
      normalised path in that directory. */
  lemma ProcessPathScenario(s: Settings, host: Host, existing: set<string>, dir: string)
    requires !s.useWrapper && IsBlank(s.gradleHome)
    requires GRADLE_HOME !in s.environment && PATH !in s.environment
    requires PATH in host.processEnvironment && host.processEnvironment[PATH] == dir
    requires !IsBlank(Some(dir)) && host.pathSeparator !in dir
    requires host.paths.join([dir, GradleName(s, host)]) in existing
    ensures CommandLine(s, host, existing)[0] == host.paths.absolute(host.paths.join([dir, GradleName(s, host)]))
  {
    assert JoinOn([dir], host.pathSeparator) == dir;
    assert FirstMatchAt([dir], GradleName(s, host), host.paths, existing, 0);
    PathSearchFindsFirstDirectory(GradleName(s, host), s.environment, host, existing, [dir], 0);
  }

  /** The first token of the command line. */
  function Executable(s: Settings, host: Host, existing: set<string>): string
  {
    if s.useWrapper then WrapperPath(s, host) else GradleCommand(s, host, existing)
  }

  /** The list `build` returns. */
  function CommandLine(s: Settings, host: Host, existing: set<string>): seq<string>
  {
    [Executable(s, host, existing)] + s.options + s.tasks
  }

  /** The command line is the executable followed by all options and then all tasks, each
      in the order they were added; its length is one more than their number. */
  lemma CommandLineOrder(s: Settings, host: Host, existing: set<string>)
    ensures |CommandLine(s, host, existing)| == 1 + |s.options| + |s.tasks|
    ensures CommandLine(s, host, existing)[0] == Executable(s, host, existing)
    ensures CommandLine(s, host, existing)[1..1 + |s.options|] == s.options
    ensures CommandLine(s, host, existing)[1 + |s.options|..] == s.tasks
  {
    var r := CommandLine(s, host, existing);
    assert r == [r[0]] + (s.options + s.tasks);
    assert r[1..] == s.options + s.tasks;
  }

  /** A build does not change the command line a later build returns: it only ever
      changes the permissions of files that already exist. A corollary of
      `PermissionsAfterBuildOnlyTouchWrapper`, which keeps the set of existing files. */
  lemma CommandLineSurvivesBuild(s: Settings, host: Host,
                                 before: map<string, set<PosixFilePermission>>,
                                 after: map<string, set<PosixFilePermission>>)
    requires PermissionsAfterBuild(s, host, before, after)
    ensures CommandLine(s, host, after.Keys) == CommandLine(s, host, before.Keys)
  {
    PermissionsAfterBuildOnlyTouchWrapper(s, host, before, after);
  }

  /** The resolver. Its directives each change one setting and leave the rest alone. */
  class GradleTaskConfigParser {
    /** The task configuration the properties are read from. */
    const configuration: map<string, string>
    var tasks: seq<string>
    var options: seq<string>
    var workingDirectory: Option<string>
    var environment: map<string, string>
    var useWrapper: bool
    var makeWrapperExecutable: bool
    var gradleHome: Option<string>

    /** The collected settings. */
    function State(): Settings
      reads this
    {
      Settings(tasks, options, workingDirectory, environment, useWrapper, makeWrapperExecutable, gradleHome)
    }

    /** `configuration.getProperty(propertyKey)`. */
    function Property(propertyKey: string): Option<string>
    {
      Get(configuration, propertyKey)
    }

    /** `fromConfig(config)`: a parser over `config` with nothing collected yet. */
    constructor FromConfig(config: map<string, string>)
      ensures configuration == config
      ensures State() == Initial
    {
      configuration := config;
      tasks := [];
      options := [];
      workingDirectory := None;
      environment := map[];
      useWrapper := false;
      makeWrapperExecutable := false;
      gradleHome := None;
    }

    method WithEnvironment(environment: map<string, string>)
      modifies this
      ensures State() == old(State()).(environment := environment)
    {
      this.environment := environment;
    }

    method WithWorkingDirectory(workingDirectory: Option<string>)
      modifies this
      ensures State() == old(State()).(workingDirectory := workingDirectory)
    {
      this.workingDirectory := workingDirectory;
    }

    /** Replaces the flag, so the last call wins. */
    method UseWrapper(propertyKey: string)
      modifies this
      ensures State() == old(State()).(useWrapper := IsSet(Property(propertyKey)))
    {
      useWrapper := IsSet(Property(propertyKey));
    }

    method MakeWrapperExecutable(propertyKey: string)
      modifies this
      ensures State() == old(State()).(makeWrapperExecutable := IsSet(Property(propertyKey)))
    {
      makeWrapperExecutable := IsSet(Property(propertyKey));
    }

    /** Stores the raw value, blank or missing included. */
    method WithGradleHome(propertyKey: string)
      modifies this
      ensures State() == old(State()).(gradleHome := Property(propertyKey))
    {
      gradleHome := Property(propertyKey);
    }

    /** Appends the whitespace-separated tokens of the property, none when it is blank. */
    method WithTasks(propertyKey: string)
      modifies this
      ensures State() == old(State()).(tasks := old(tasks) + ValueTokens(Property(propertyKey)))
    {
      var value := Property(propertyKey);
      if !IsBlank(value) {
        tasks := tasks + ValueTokens(value);
      }
    }

    /** Appends `option` when the property is set, and changes nothing otherwise. */
    method WithOption(propertyKey: string, option: string)
      modifies this
      ensures State() == old(State()).(options := old(options) + (if IsSet(Property(propertyKey)) then [option] else []))
    {
      if IsSet(Property(propertyKey)) {
        options := options + [option];
      }
    }

    /** Appends the whitespace-separated tokens of the property after the options already
        present, none when it is blank. */
    method WithAdditionalOptions(propertyKey: string)
      modifies this
      ensures State() == old(State()).(options := old(options) + ValueTokens(Property(propertyKey)))
    {
      var additional := Property(propertyKey);
      if !IsBlank(additional) {
        options := options + ValueTokens(additional);
      }
    }

    /** `getExecutablePath(command)`: walks the `PATH` directories and stops at the first
        that holds `command`. */
    method GetExecutablePath(command: string, host: Host, fs: FileSystem) returns (r: string)
      ensures r == ExecutablePath(command, environment, host, fs.Existing())
    {
      var systemPath := GetEnvironmentVariable(environment, host, PATH);
      if IsBlank(systemPath) {
        return command;
      }
      var paths := SplitOnChar(systemPath.value, host.pathSeparator);
      var i := 0;
      while i < |paths|
        invariant 0 <= i <= |paths|
        invariant FirstExisting(paths[i..], command, host.paths, fs.Existing())
               == FirstExisting(paths, command, host.paths, fs.Existing())
      {
        var candidate := host.paths.join([paths[i], command]);
        if candidate in fs.permissions {
          return host.paths.absolute(candidate);
        }
        assert paths[i..][1..] == paths[i + 1..];
        i := i + 1;
      }
      return command;
    }

    /** `addExecutablePermission(file)`: adds the owner-execute bit to `file` when it exists,
        unless reading or writing its attributes fails, in which case nothing changes. */
    method AddExecutablePermission(file: string, paths: NioPaths, fs: FileSystem)
      modifies fs
      ensures fs.permissions == old(fs.permissions)
           || fs.permissions == GrantOwnerExecute(old(fs.permissions), paths.join([file]))
    {
      var path := paths.join([file]);
      if path in fs.permissions {
        var ioFailure: bool :| true;
        if !ioFailure {
          var permissions := fs.permissions[path];
          permissions := permissions + {OwnerExecute};
          fs.permissions := fs.permissions[path := permissions];
        }
      }
    }

    /** `setGradleCommand(command)`: appends the installed Gradle's command. */
    method SetGradleCommand(command: seq<string>, host: Host, fs: FileSystem) returns (result: seq<string>)
      ensures result == command + [GradleCommand(State(), host, fs.Existing())]
    {
      var gradleHome := GradleHome(this.gradleHome, environment);
      var gradle;
      if IsWindows(environment, host) {
        gradle := host.gradle.windows;
      } else {
        gradle := host.gradle.unix;
      }
      var gradleCommand := gradle;
      if !IsBlank(gradleHome) {
        gradleCommand := host.paths.absolute(host.paths.join([gradleHome.value, GRADLE_BIN, gradle]));
      } else {
        gradleCommand := GetExecutablePath(gradleCommand, host, fs);
      }
      result := command + [gradleCommand];
    }

    /** `setGradlewCommand(command)`: appends the wrapper's path and, off Windows and when
        asked to, makes the wrapper executable. */
    method SetGradlewCommand(command: seq<string>, host: Host, fs: FileSystem) returns (result: seq<string>)
      modifies fs
      ensures result == command + [WrapperPath(State(), host)]
      ensures !IsWindows(environment, host) && makeWrapperExecutable ==>
                fs.permissions == old(fs.permissions)
                || fs.permissions == GrantOwnerExecute(old(fs.permissions), host.paths.join([WrapperPath(State(), host)]))
      ensures IsWindows(environment, host) || !makeWrapperExecutable ==> fs.permissions == old(fs.permissions)
    {
      var gradleCommand;
      if IsWindows(environment, host) {
        gradleCommand := host.gradlew.windows;
      } else {
        gradleCommand := host.gradlew.unix;
      }
      var directory := if workingDirectory.Some? then workingDirectory.value else host.unsetDirectory;
      var gradlewPath := host.paths.absolute(host.paths.join([directory, gradleCommand]));
      result := command + [gradlewPath];
      if !IsWindows(environment, host) && makeWrapperExecutable {
        AddExecutablePermission(gradlewPath, host.paths, fs);
      }
    }

    /** `build()`: the command line for the collected settings, computed against the files
        that existed when it started, and the permission change it may make on the way. */
    method Build(host: Host, fs: FileSystem) returns (command: seq<string>)
      modifies fs
      ensures command == CommandLine(State(), host, old(fs.Existing()))
      ensures PermissionsAfterBuild(State(), host, old(fs.permissions), fs.permissions)
    {
      command := [];
      if useWrapper {
        command := SetGradlewCommand(command, host, fs);
      } else {
        command := SetGradleCommand(command, host, fs);
      }
      command := command + options;
      command := command + tasks;
    }
  }

  /** Options appear in the order their directives ran: a set flag's option in its place,
      an unset flag's option nowhere, and the free-form options after everything registered
      before them (with `offline` and `debug` set, `info` not set and the free-form options
      "-x test": "--offline", "--debug", "-x", "test", as `ValueTokensOptions` shows). */
  method OptionsInRegistrationOrder(config: map<string, string>, host: Host, fs: FileSystem,
                                    first: string, firstOption: string,
                                    skipped: string, skippedOption: string,
                                    second: string, secondOption: string,
                                    additional: string)
    returns (command: seq<string>)
    requires IsSet(Get(config, first)) && !IsSet(Get(config, skipped)) && IsSet(Get(config, second))
    modifies fs
    ensures |command| == 3 + |ValueTokens(Get(config, additional))|
    ensures command[1..] == [firstOption, secondOption] + ValueTokens(Get(config, additional))
  {
    var parser := new GradleTaskConfigParser.FromConfig(config);
    parser.WithOption(first, firstOption);
    assert parser.options == [firstOption];
    parser.WithOption(skipped, skippedOption);
    parser.WithOption(second, secondOption);
    assert parser.options == [firstOption, secondOption];
    parser.WithAdditionalOptions(additional);
    assert parser.options == [firstOption, secondOption] + ValueTokens(Get(config, additional));
    command := parser.Build(host, fs);
    CommandLineOrder(parser.State(), host, old(fs.Existing()));
  }
}
