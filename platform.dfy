/** What the command resolver sees of the machine it runs on: the process environment,
    the `os.name` system property, the path separator, the `java.nio.file` and `java.io`
    path operations, the platform-specific Gradle launcher names and the POSIX file
    system whose permissions it may change. The path operations and launcher names are
    left abstract: they are parameters, and every property of the model holds for all
    of them. */
module Platform {
  import opened JavaLang

  /** `java.nio.file.attribute.PosixFilePermission`. */
  datatype PosixFilePermission =
    | OwnerRead | OwnerWrite | OwnerExecute
    | GroupRead | GroupWrite | GroupExecute
    | OthersRead | OthersWrite | OthersExecute

  /** The local file system: a path is a key of `permissions` exactly when a file exists
      there, and the value is that file's POSIX permission set. */
  class FileSystem {
    var permissions: map<string, set<PosixFilePermission>>

    constructor (permissions: map<string, set<PosixFilePermission>>)
      ensures this.permissions == permissions
    {
      this.permissions := permissions;
    }

    /** `Files.exists` for every path at once. */
    function Existing(): set<string>
      reads this
    {
      permissions.Keys
    }
  }

  /** The permission map after the owner-execute bit is added to the file at `path`
      (when there is one), every other bit and every other file left as they were. */
  function GrantOwnerExecute(permissions: map<string, set<PosixFilePermission>>, path: string)
    : (r: map<string, set<PosixFilePermission>>)
    ensures r.Keys == permissions.Keys
    ensures path in permissions ==> OwnerExecute in r[path] && r[path] - {OwnerExecute} == permissions[path] - {OwnerExecute}
    ensures forall p :: p in permissions && p != path ==> r[p] == permissions[p]
  {
    if path in permissions then permissions[path := permissions[path] + {OwnerExecute}] else permissions
  }

  /** Adding the owner-execute bit a second time changes nothing. */
  lemma GrantOwnerExecuteIdempotent(permissions: map<string, set<PosixFilePermission>>, path: string)
    ensures GrantOwnerExecute(GrantOwnerExecute(permissions, path), path) == GrantOwnerExecute(permissions, path)
  {
    var once := GrantOwnerExecute(permissions, path);
    if path in permissions {
      assert once[path] + {OwnerExecute} == once[path];
    }
  }

  /** A wrapper with `rw-r--r--` becomes `rwxr--r--`. */
  lemma GrantOwnerExecuteExample(permissions: map<string, set<PosixFilePermission>>, path: string)
    requires path in permissions && permissions[path] == {OwnerRead, OwnerWrite, GroupRead, OthersRead}
    ensures GrantOwnerExecute(permissions, path)[path] == {OwnerRead, OwnerWrite, OwnerExecute, GroupRead, OthersRead}
  {
  }

  /** `java.nio.file.Paths`: `join(parts)` is the string form of `Paths.get(parts[0], parts[1..]...)`,
      `absolute(p)` that of `Paths.get(p).toAbsolutePath().normalize()`. */
  datatype NioPaths = NioPaths(join: seq<string> -> string, absolute: string -> string)

  /** `java.io.File`: `child(parent, name)` is the path of `new File(parent, name)`,
      `absolutePath(p)` the result of `getAbsolutePath()` on the file with path `p`. */
  datatype IoFiles = IoFiles(child: (string, string) -> string, absolutePath: string -> string)

  /** A launcher's file name on each platform (the `.windows()` and `.unix()` names). */
  datatype LauncherName = LauncherName(windows: string, unix: string)
  {
    function On(isWindows: bool): string
    {
      if isWindows then windows else unix
    }
  }

  /** The process-wide state the current resolver reads besides its own fields:
      `System.getenv`, `System.getProperty("os.name")`, `File.pathSeparator`, the path
      operations, the `gradle` and `gradlew` launcher names, and the directory string
      `Paths.get` receives when no working directory was ever set (its meaning there
      depends on the Java runtime). */
  datatype Host = Host(
    processEnvironment: map<string, string>,
    osNameProperty: Option<string>,
    pathSeparator: char,
    paths: NioPaths,
    gradle: LauncherName,
    gradlew: LauncherName,
    unsetDirectory: string)
}
