/** The Docker detector: finds `docker` on the search path, runs
    `docker --version` and reads the version triple after `version `. */
module DockerDetector {
  import opened Wrappers
  import opened Text
  import opened VersionScan
  import opened Runtimes

  const Name: string := "docker"

  /** The command run to learn the version. */
  const Command: Invocation := Invocation("docker", ["--version"])

  /** The literal that precedes the capture in `version (\d+\.\d+\.\d+)`. */
  const Marker: string := "version "

  /** `parseDockerVersion`: the version triple after the leftmost `version ` that is
      followed by one, or "unknown" when there is none. */
  function ParseVersion(output: string): (v: string)
    ensures v == UnknownVersion <==> FirstTripleAfter(output, Marker).None?
    ensures v != UnknownVersion ==> IsVersionTriple(v)
  {
    match FirstTripleAfter(output, Marker)
    case None => UnknownVersion
    case Some(t) =>
      TripleStartsWithDigit(t);
      t
  }

  lemma ParseVersionOf(output: string, t: string)
    requires FirstTripleAfter(output, Marker) == Some(t)
    ensures ParseVersion(output) == t
  {
  }

  lemma ParseVersionRelease(out: string)
    requires out == "Docker version 24.0.5, build ced0996"
    ensures ParseVersion(out) == "24.0.5"
  {
    CaptureRelease(out);
    ParseVersionOf(out, "24.0.5");
  }

  lemma CaptureRelease(out: string)
    requires out == "Docker version 24.0.5, build ced0996"
    ensures FirstTripleAfter(out, Marker) == Some("24.0.5")
  {
    ReleaseSplit(out);
    NotBeforeWithout("Docker ", Marker);
    TripleAfterIn(out, "Docker ", Marker, "24.0.5", ", build ced0996", 2, 4);
  }

  /** The release banner is a lead without `v`, the marker, the triple and
      a tail that does not start with a digit. */
  lemma ReleaseSplit(out: string)
    requires out == "Docker version 24.0.5, build ced0996"
    ensures out == "Docker " + Marker + ("24.0.5" + ", build ced0996")
    ensures TripleSplit("24.0.5", 2, 4)
    ensures Marker[0] !in "Docker "
  {
  }

  lemma ParseVersionInvalid(out: string)
    requires out == "Docker build unknown"
    ensures ParseVersion(out) == UnknownVersion
  {
    NoMatchWithout(out, Marker, TripleAt, 0);
  }

  /** `DockerDetector.Detect`. Absent, with no error, without `docker` on the
      search path; otherwise found at the path the search path gives, with
      the version read from the output of `docker --version`, unless that
      command fails, which is an error. */
  function Detect(searchPath: SearchPath, exec: Invocation -> ExecResult): (d: Detection)
    ensures d.runtime.name == Name
    ensures d.runtime.found <==> Name in searchPath
    ensures !d.runtime.found ==> d == Detection(Absent(Name), None)
    ensures d.runtime.found ==> d.runtime.path == searchPath[Name]
    ensures d.err.Some? <==> d.runtime.found && exec(Command).Failed?
    ensures d.runtime.found && d.err.None? ==> d.runtime.version == ParseVersion(exec(Command).output)
    ensures d.err.Some? ==> d.runtime.version == ""
  {
    if Name !in searchPath then Detection(Absent(Name), None)
    else
      var found := Runtime(Name, "", searchPath[Name], true);
      match exec(Command)
      case Failed(_, cause) =>
        Detection(found, Some("failed to execute docker --version: " + cause))
      case Exited(output) =>
        Detection(found.(version := ParseVersion(output)), None)
  }
}
