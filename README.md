# Gradle command resolver of the GoCD Gradle task plugin

The plugin runs a Gradle build as a GoCD task. Its core is a command resolver: a builder
that is created over the task configuration, collects settings through a series of
directives (the environment, the working directory, whether to use the wrapper, the Gradle
home, tasks, options), and whose `build()` returns the command line as a list of tokens:
the executable, then the options, then the tasks. The repository holds two versions, and
this project models both as separate classes:

- the current resolver (`Gradle.GradleTaskConfigParser`, `gradle_parser.dfy`). It uses the
  wrapper script resolved against the working directory, or an installed `gradle`. That
  `gradle` is found under an explicit Gradle home, under the environment map's
  `GRADLE_HOME`, or by a first-match search of the `PATH` directories. In wrapper mode on a
  non-Windows machine it can also add the owner-execute bit to the wrapper script;
- the legacy resolver (`GradleTask.GradleTaskConfigParser`, `legacy_parser.dfy`). It emits
  the relative `./gradlew` or `./gradlew.bat`, or `<home>/bin/gradle`, or the bare
  `gradle`. It does no `PATH` search and changes no permissions.

The behaviour both versions share is defined once, in `task_properties.dfy`:

- `isSet`, the truthy reading of a property;
- the `isWindows` test on an operating system name;
- the Gradle-home precedence;
- the tokenisation of list properties.

The Java library behaviour the resolvers rely on is written out in `java_lang.dfy`:

- `StringUtils.isBlank`, with `Character.isWhitespace`;
- `String.split("\\s+")` and `String.split` on a one-character separator, including the
  rule that a leading separator gives an empty first token, the rule that trailing empty
  tokens are dropped, and the rule that a string with no match comes back whole;
- `Boolean.valueOf`, `toLowerCase` and `contains`.

`platform.dfy` holds what the resolver sees of the machine:

- the process environment, the `os.name` system property and the path separator;
- the path operations of `java.nio.file.Paths` and `java.io.File`, left abstract as
  function parameters, so every property holds for all of them;
- the launcher names of the `Gradle` helper class, also abstract;
- a POSIX file system whose keys are the existing files and whose values are their
  permission sets.

`GRADLE_HOME` is read from the environment map only
(`GradleTaskConfigParser.java` lines 321-322). The process environment's `GRADLE_HOME` is
never consulted, as `Gradle.ProcessGradleHomeIsIgnored` states.

## Model

| member | source | states |
|---|---|---|
| TaskProperties.IsSet | src/main/java/io/jmnarloch/cd/go/plugin/gradle/GradleTaskConfigParser.java:353-365 | a property is set exactly when it is present and reads "true" in some letter case; the blank test never changes the outcome |
| TaskProperties.IsSetExamples | src/main/java/io/jmnarloch/cd/go/plugin/gradle/GradleTaskConfigParser.java:363-365 | "true", "TRUE", "True" and "tRuE" are set; missing, empty, blank, "false", "yes", "1" and " true" are not |
| TaskProperties.IsWindowsName | src/main/java/io/jmnarloch/cd/go/plugin/gradle/GradleTaskConfigParser.java:372-375 | an OS name means Windows exactly when it is present and "win" occurs in its lower-cased form |
| TaskProperties.WindowsNames | src/main/java/io/jmnarloch/cd/go/plugin/gradle/GradleTaskConfigParser.java:374 | "Windows 10" and "WINDOWS 10" are Windows names |
| TaskProperties.DarwinCountsAsWindows | src/main/java/io/jmnarloch/cd/go/plugin/gradle/GradleTaskConfigParser.java:374 | "Darwin" counts as a Windows name, because it contains "win" |
| TaskProperties.NonWindowsNames | src/main/java/io/jmnarloch/cd/go/plugin/gradle/task/GradleTaskConfigParser.java:124-127 | "Linux", the empty name and a missing name are not Windows names |
| TaskProperties.GradleHome | src/main/java/io/jmnarloch/cd/go/plugin/gradle/GradleTaskConfigParser.java:318-325 | a non-blank explicit home wins; otherwise a non-blank `GRADLE_HOME` in the environment map is used; otherwise there is none. The result is never blank |
| TaskProperties.ValueTokens | src/main/java/io/jmnarloch/cd/go/plugin/gradle/GradleTaskConfigParser.java:182-188 | a blank value gives no tokens. Otherwise there is at least one token, no token holds a `\s` character, the tokens keep every other character in order, and only the first may be empty, exactly when the value starts with `\s` |
| TaskProperties.ValueTokensRoundTrip | src/main/java/io/jmnarloch/cd/go/plugin/gradle/GradleTaskConfigParser.java:185 | words joined by runs of `\s`, with optional runs around them, split back into those words, after an empty first token exactly when there is a leading run, whenever the joined value is not blank in Java's sense |
| TaskProperties.ValueTokensBlankWithoutSpace | src/main/java/io/jmnarloch/cd/go/plugin/gradle/GradleTaskConfigParser.java:184-185 | a value made only of a character that Java counts as whitespace but `\s` does not gives no tokens, although the split alone would keep it |
| TaskProperties.ValueTokensKeepsJavaWhitespaceWord | src/main/java/io/jmnarloch/cd/go/plugin/gradle/GradleTaskConfigParser.java:184-185 | a word made only of Java whitespace outside `\s` (U+3000) is kept as a token when the rest of the value is not blank |
| TaskProperties.ValueTokensOptions | src/main/java/io/jmnarloch/cd/go/plugin/gradle/GradleTaskConfigParser.java:210-214 | "-x test" gives the tokens "-x" and "test" |
| JavaLang.SplitOnSpacesShape | src/main/java/io/jmnarloch/cd/go/plugin/gradle/GradleTaskConfigParser.java:185 | for any string, the split's tokens hold no `\s` character and together keep the other characters in order. No token but the first is empty. For a string not made only of `\s`, the first is empty exactly when the string starts with `\s` |
| JavaLang.SplitOnSpacesRoundTrip | src/main/java/io/jmnarloch/cd/go/plugin/gradle/GradleTaskConfigParser.java:185 | the split undoes joining words with `\s` runs, leading and trailing runs included |
| JavaLang.SplitOnCharRoundTrip | src/main/java/io/jmnarloch/cd/go/plugin/gradle/GradleTaskConfigParser.java:338 | splitting at the path separator undoes joining separator-free parts, unless the last of several parts is empty |
| JavaLang.Contains | src/main/java/io/jmnarloch/cd/go/plugin/gradle/GradleTaskConfigParser.java:374 | `contains` holds exactly when the substring occurs at some index |
| Platform.GrantOwnerExecute | src/main/java/io/jmnarloch/cd/go/plugin/gradle/GradleTaskConfigParser.java:300-305 | adding the owner-execute bit keeps the set of files. The wrapper gains the bit and keeps every other bit, and every other file is unchanged |
| Platform.GrantOwnerExecuteIdempotent | src/main/java/io/jmnarloch/cd/go/plugin/gradle/GradleTaskConfigParser.java:302 | adding the bit twice is the same as adding it once |
| Platform.GrantOwnerExecuteExample | src/main/java/io/jmnarloch/cd/go/plugin/gradle/GradleTaskConfigParser.java:302 | `rw-r--r--` becomes `rwxr--r--` |
| Gradle.OsNameEntryHidesProperty | src/main/java/io/jmnarloch/cd/go/plugin/gradle/GradleTaskConfigParser.java:373 | an `os.name` entry in the environment map decides, whatever the system property says; a blank entry means not Windows |
| Gradle.OsNamePropertyDecides | src/main/java/io/jmnarloch/cd/go/plugin/gradle/GradleTaskConfigParser.java:373-374 | without that entry, Windows is detected exactly when "win" occurs in the lower-cased system property |
| Gradle.PermissionsAfterBuildOnlyTouchWrapper | src/main/java/io/jmnarloch/cd/go/plugin/gradle/GradleTaskConfigParser.java:286-310 | a build creates and removes no file and takes no bit away. It touches no file but the wrapper, and to the wrapper it can only add owner-execute |
| Gradle.PermissionsAfterBuildTwice | src/main/java/io/jmnarloch/cd/go/plugin/gradle/GradleTaskConfigParser.java:296-305 | two builds leave permissions that one build could have left |
| Gradle.FirstExisting | src/main/java/io/jmnarloch/cd/go/plugin/gradle/GradleTaskConfigParser.java:339-344 | the search returns the bare command or the normalised path of the command in a listed directory where it exists |
| Gradle.FirstExistingIsFirstMatch | src/main/java/io/jmnarloch/cd/go/plugin/gradle/GradleTaskConfigParser.java:339-344 | the search returns the path in the first directory holding the command, or the bare command when no directory holds it |
| Gradle.ExecutablePathSearch | src/main/java/io/jmnarloch/cd/go/plugin/gradle/GradleTaskConfigParser.java:333-345 | a blank effective `PATH` gives the bare command. Otherwise the first `PATH` directory holding the command decides, and with none the bare command is returned |
| Gradle.PathEntryHidesProcessPath | src/main/java/io/jmnarloch/cd/go/plugin/gradle/GradleTaskConfigParser.java:383-386 | a `PATH` key in the environment map is used even when its value is blank; the process environment is then never read, and a blank entry gives the bare command |
| Gradle.PathSearchFindsFirstDirectory | src/main/java/io/jmnarloch/cd/go/plugin/gradle/GradleTaskConfigParser.java:338-342 | with `PATH` written as directories joined by the separator, the result is the path in the first of them that holds the command |
| Gradle.GradleCommand | src/main/java/io/jmnarloch/cd/go/plugin/gradle/GradleTaskConfigParser.java:251-268 | a non-blank explicit home gives `<home>/bin/<gradle>` normalised. Otherwise a non-blank map `GRADLE_HOME` gives the same. With neither, the `PATH` search decides |
| Gradle.ProcessGradleHomeIsIgnored | src/main/java/io/jmnarloch/cd/go/plugin/gradle/GradleTaskConfigParser.java:318-325 | the process environment's `GRADLE_HOME` never changes the command |
| Gradle.ProcessPathScenario | src/main/java/io/jmnarloch/cd/go/plugin/gradle/GradleTaskConfigParser.java:333-345 | with no wrapper, home or map `PATH`, a process `PATH` naming one directory that holds the launcher gives that launcher's normalised path first |
| Gradle.CommandLineOrder | src/main/java/io/jmnarloch/cd/go/plugin/gradle/GradleTaskConfigParser.java:223-234 | the command line is the executable, then every option, then every task, in the order collected; its length is 1 + options + tasks |
| Gradle.CommandLineSurvivesBuild | src/main/java/io/jmnarloch/cd/go/plugin/gradle/GradleTaskConfigParser.java:296-310 | the permission change a build makes cannot alter the command line a later build returns |
| Gradle.GradleTaskConfigParser.FromConfig | src/main/java/io/jmnarloch/cd/go/plugin/gradle/GradleTaskConfigParser.java:117-119 | a new parser keeps its configuration and has collected nothing: no tasks or options, no working directory, an empty environment map, both flags off, no home |
| Gradle.GradleTaskConfigParser.WithEnvironment | src/main/java/io/jmnarloch/cd/go/plugin/gradle/GradleTaskConfigParser.java:127-130 | replaces the environment map and changes nothing else |
| Gradle.GradleTaskConfigParser.WithWorkingDirectory | src/main/java/io/jmnarloch/cd/go/plugin/gradle/GradleTaskConfigParser.java:138-141 | replaces the working directory and changes nothing else |
| Gradle.GradleTaskConfigParser.UseWrapper | src/main/java/io/jmnarloch/cd/go/plugin/gradle/GradleTaskConfigParser.java:149-152 | the flag becomes whether the property is set, so the last call wins; nothing else changes |
| Gradle.GradleTaskConfigParser.MakeWrapperExecutable | src/main/java/io/jmnarloch/cd/go/plugin/gradle/GradleTaskConfigParser.java:160-163 | the flag becomes whether the property is set; nothing else changes |
| Gradle.GradleTaskConfigParser.WithGradleHome | src/main/java/io/jmnarloch/cd/go/plugin/gradle/GradleTaskConfigParser.java:171-174 | the home becomes the raw property value, missing or blank included; nothing else changes |
| Gradle.GradleTaskConfigParser.WithTasks | src/main/java/io/jmnarloch/cd/go/plugin/gradle/GradleTaskConfigParser.java:182-188 | appends the property's tokens, none for a blank value, after the tasks already there; options and flags are untouched |
| Gradle.GradleTaskConfigParser.WithOption | src/main/java/io/jmnarloch/cd/go/plugin/gradle/GradleTaskConfigParser.java:197-202 | appends the option exactly when the property is set; otherwise nothing changes |
| Gradle.GradleTaskConfigParser.WithAdditionalOptions | src/main/java/io/jmnarloch/cd/go/plugin/gradle/GradleTaskConfigParser.java:210-216 | appends the property's tokens after all options already present; nothing else changes |
| Gradle.GradleTaskConfigParser.GetExecutablePath | src/main/java/io/jmnarloch/cd/go/plugin/gradle/GradleTaskConfigParser.java:333-345 | the loop with early return computes the first-match search |
| Gradle.GradleTaskConfigParser.AddExecutablePermission | src/main/java/io/jmnarloch/cd/go/plugin/gradle/GradleTaskConfigParser.java:296-310 | either nothing changes, when the file is missing or an I/O failure occurs, or the file gains owner-execute and nothing else changes |
| Gradle.GradleTaskConfigParser.SetGradleCommand | src/main/java/io/jmnarloch/cd/go/plugin/gradle/GradleTaskConfigParser.java:251-268 | appends exactly the installed Gradle's command |
| Gradle.GradleTaskConfigParser.SetGradlewCommand | src/main/java/io/jmnarloch/cd/go/plugin/gradle/GradleTaskConfigParser.java:276-289 | appends the wrapper path in the working directory. Permissions may change only off Windows and when asked, and then only by adding owner-execute to the wrapper |
| Gradle.GradleTaskConfigParser.Build | src/main/java/io/jmnarloch/cd/go/plugin/gradle/GradleTaskConfigParser.java:223-234 | returns the executable, then the options, then the tasks, computed against the files present at the start, and leaves permissions a build may leave |
| Gradle.OptionsInRegistrationOrder | src/main/java/io/jmnarloch/cd/go/plugin/gradle/GradleTaskConfigParser.java:197-216 | set flags' options appear in registration order and unset ones not at all; free-form options follow them |
| GradleTask.MissingOsNameIsNotWindows | src/main/java/io/jmnarloch/cd/go/plugin/gradle/task/GradleTaskConfigParser.java:124-127 | without an `os.name` entry in the environment map, or with a blank one, the machine is not Windows |
| GradleTask.Executable | src/main/java/io/jmnarloch/cd/go/plugin/gradle/task/GradleTaskConfigParser.java:87-101 | the wrapper is "./gradlew.bat" exactly on Windows and "./gradlew" otherwise. Without the wrapper, the explicit home, then the map's `GRADLE_HOME`, gives the absolute `<home>/bin/gradle`; with neither the bare "gradle" |
| GradleTask.InstalledGradleIgnoresOs | src/main/java/io/jmnarloch/cd/go/plugin/gradle/task/GradleTaskConfigParser.java:93-101 | without the wrapper the `os.name` entry never changes the command |
| GradleTask.CommandLineOrder | src/main/java/io/jmnarloch/cd/go/plugin/gradle/task/GradleTaskConfigParser.java:84-105 | the command line is the executable, then every option, then every task, in the order collected |
| GradleTask.GradleTaskConfigParser.FromConfig | src/main/java/io/jmnarloch/cd/go/plugin/gradle/task/GradleTaskConfigParser.java:39-44 | a new parser keeps its configuration and has collected nothing; the wrapper is off |
| GradleTask.GradleTaskConfigParser.WithEnvironment | src/main/java/io/jmnarloch/cd/go/plugin/gradle/task/GradleTaskConfigParser.java:46-49 | replaces the environment map and changes nothing else |
| GradleTask.GradleTaskConfigParser.UseWrapper | src/main/java/io/jmnarloch/cd/go/plugin/gradle/task/GradleTaskConfigParser.java:51-54 | the flag becomes whether the property is set; nothing else changes |
| GradleTask.GradleTaskConfigParser.WithGradleHome | src/main/java/io/jmnarloch/cd/go/plugin/gradle/task/GradleTaskConfigParser.java:56-59 | the home becomes the raw property value; nothing else changes |
| GradleTask.GradleTaskConfigParser.WithTasks | src/main/java/io/jmnarloch/cd/go/plugin/gradle/task/GradleTaskConfigParser.java:61-67 | appends the property's tokens, none for a blank value; nothing else changes |
| GradleTask.GradleTaskConfigParser.WithOption | src/main/java/io/jmnarloch/cd/go/plugin/gradle/task/GradleTaskConfigParser.java:69-74 | appends the option exactly when the property is set |
| GradleTask.GradleTaskConfigParser.WithAdditionalOptions | src/main/java/io/jmnarloch/cd/go/plugin/gradle/task/GradleTaskConfigParser.java:76-82 | appends the property's tokens after the options already present |
| GradleTask.GradleTaskConfigParser.Build | src/main/java/io/jmnarloch/cd/go/plugin/gradle/task/GradleTaskConfigParser.java:84-105 | returns the executable, then the options, then the tasks |
| GradleTask.LastUseWrapperWins | src/main/java/io/jmnarloch/cd/go/plugin/gradle/task/GradleTaskConfigParser.java:51-54 | of two `useWrapper` directives the second decides between "./gradlew" and "gradle" |

## Left out

- Logging through the GoCD logger has no effect on the result and is not modelled.
- File system I/O is a map from existing paths to permission sets. `Files.exists` is
  membership in that map.
- A failure to read or write the permissions, which the code catches and logs, is a
  nondeterministic choice that leaves the permissions as they were.
- On a file system without POSIX attributes, the attribute view is null and
  `addExecutablePermission` fails with a `NullPointerException`. This is not modelled;
  every file system here is POSIX.
- Path operations are uninterpreted functions passed in with the host:
  - `Paths.get(...).toAbsolutePath().normalize()`;
  - `File.getAbsolutePath()`;
  - `new File(parent, child)`.

  `InvalidPathException` on malformed paths is not modelled.
- The `Gradle` helper class is not part of this model. Its launcher names for `gradle`
  and `gradlew` on Windows and elsewhere are parameters.
- `System.getenv`, `System.getProperty("os.name")` and `File.pathSeparator` are fields of
  the host record. The separator is one character that is not a regular-expression
  metacharacter, as on every JDK platform.
- The task configuration (`ExecutionConfiguration.getProperty`, `TaskConfig.getValue`) is a
  map from key to value.
- Null values in the configuration and environment maps are not represented. The code
  treats a null value exactly as it treats "": both are blank, neither is a Windows name
  and neither is set.
- `withEnvironment` keeps the caller's map by reference
  (`GradleTaskConfigParser.java` line 128, `task/GradleTaskConfigParser.java` line 47), so
  changes the caller makes to it later are seen by `build`. The model stores a copy of the
  map's value when the directive runs.
- `withEnvironment(null)` leads to a `NullPointerException` in a later build; the model
  has no null map.
- A working directory that was never set reaches `Paths.get` as null, with a result that
  depends on the Java runtime. The model uses the host's `unsetDirectory` string there.
- `toLowerCase` and `equalsIgnoreCase` map ASCII letters only. The default locale's effect
  is not modelled: under a Turkish locale "WINDOWS" lower-cases to a dotless "wındows".
  Neither is the mapping of non-ASCII letters.
- `Character.isWhitespace` follows current Unicode, in which U+180E is not whitespace;
  older Java runtimes count it.
- The fluent `return this` of every directive is not modelled; directives are methods
  without a result.
- `GradleTaskConfig.java`, an enum of property keys with no logic, is not part of this
  model.
