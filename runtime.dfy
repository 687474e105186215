/** The `Runtime` record every detector produces, and the two facts about
    the machine a detector consults, taken as inputs: which executables the
    search path holds (`exec.LookPath`) and what running a command prints
    (`exec.Command(...).CombinedOutput()`). */
module Runtimes {
  import opened Wrappers

  /** `detector.Runtime`: a tool's name, its version (or "unknown"), the
      path of the executable found, and whether it was found at all. */
  datatype Runtime = Runtime(name: string, version: string, path: string, found: bool)

  /** The version reported when the tool's output cannot be parsed. */
  const UnknownVersion: string := "unknown"

  /** The record a detector returns when no candidate executable exists. */
  function Absent(name: string): (r: Runtime)
    ensures !r.found && r.name == name && r.version == "" && r.path == ""
  {
    Runtime(name, "", "", false)
  }

  /** The executables the search path holds, by name, with the absolute
      path `exec.LookPath` would return for each. */
  type SearchPath = map<string, string>

  /** A command line a detector runs: a program (a bare name resolved on the
      search path, or an absolute path) and its arguments. */
  datatype Invocation = Invocation(program: string, args: seq<string>)

  /** The result of `CombinedOutput`: standard output and standard error
      together, and, when the command failed, the error's text. */
  datatype ExecResult =
    | Exited(output: string)
    | Failed(output: string, cause: string)

  /** What `Detect()` returns: the runtime record and the error, if any. */
  datatype Detection = Detection(runtime: Runtime, err: Option<string>)

  /** The first of `candidates` that the search path holds. */
  function Locate(candidates: seq<string>, searchPath: SearchPath): (r: Option<nat>)
    ensures r.Some? ==> r.value < |candidates| && candidates[r.value] in searchPath
    ensures r.Some? ==> forall k | 0 <= k < r.value :: candidates[k] !in searchPath
    ensures r.None? <==> forall k | 0 <= k < |candidates| :: candidates[k] !in searchPath
  {
    if candidates == [] then None
    else if candidates[0] in searchPath then Some(0)
    else match Locate(candidates[1..], searchPath)
      case None => None
      case Some(k) => Some(k + 1)
  }
}
