/** The nginx detector: finds `nginx` on the search path, runs
    `nginx -v` and reads the version triple after `nginx/`. The command
    writes to standard error and may exit with a failure while still
    printing its banner. */
module NginxDetector {
  import opened Wrappers
  import opened Text
  import opened VersionScan
  import opened Runtimes

  const Name: string := "nginx"

  /** The command run to learn the version. */
  const Command: Invocation := Invocation("nginx", ["-v"])

  /** The literal that precedes the capture in `nginx/(\d+\.\d+\.\d+)`. */
  const Marker: string := "nginx/"

  /** `parseNginxVersion`: the version triple after the leftmost `nginx/` that is
      followed by one, or "unknown" when there is none. */
  function ParseVersion(output: string): (v: string)
    ensures v == UnknownVersion <==> FirstTripleAfter(output, Marker).None?
    ensures v != UnknownVersion ==> IsVersionTriple(v)
  {
    match FirstTripleAfter(output, Marker)
    case None => UnknownVersion
    case Some(t) =>
      TripleStartsWithDigit(t);
      t
  }

  lemma ParseVersionOf(output: string, t: string)
    requires FirstTripleAfter(output, Marker) == Some(t)
    ensures ParseVersion(output) == t
  {
  }

  lemma ParseVersionRelease(out: string)
    requires out == "nginx version: nginx/1.24.0"
    ensures ParseVersion(out) == "1.24.0"
  {
    CaptureRelease(out);
    ParseVersionOf(out, "1.24.0");
  }

  lemma CaptureRelease(out: string)
    requires out == "nginx version: nginx/1.24.0"
    ensures FirstTripleAfter(out, Marker) == Some("1.24.0")
  {
    ReleaseSplit(out);
    NotBeforeByTwo("nginx version: ", Marker, 1, 5);
    TripleAfterIn(out, "nginx version: ", Marker, "1.24.0", "", 1, 4);
  }

  /** The release banner is a lead, the marker and the triple. */
  lemma ReleaseSplit(out: string)
    requires out == "nginx version: nginx/1.24.0"
    ensures out == "nginx version: " + Marker + ("1.24.0" + "")
    ensures TripleSplit("1.24.0", 1, 4)
  {
  }

  lemma ParseVersionInvalid(out: string)
    requires out == "nginx something"
    ensures ParseVersion(out) == UnknownVersion
  {
    NoMatchWithout(out, Marker, TripleAt, 5);
  }

  /** `NginxDetector.Detect`. Absent, with no error, without `nginx` on the
      search path; otherwise found at the path the search path gives.
      `nginx -v` is tolerated to fail as long as it printed something: its
      output is parsed whether or not the command failed, and only a
      failure with empty output is an error. */
  function Detect(searchPath: SearchPath, exec: Invocation -> ExecResult): (d: Detection)
    ensures d.runtime.name == Name
    ensures d.runtime.found <==> Name in searchPath
    ensures !d.runtime.found ==> d == Detection(Absent(Name), None)
    ensures d.runtime.found ==> d.runtime.path == searchPath[Name]
    ensures d.err.Some? <==> d.runtime.found && exec(Command).Failed? && exec(Command).output == ""
    ensures d.runtime.found && d.err.None? ==> d.runtime.version == ParseVersion(exec(Command).output)
    ensures d.err.Some? ==> d.runtime.version == ""
  {
    if Name !in searchPath then Detection(Absent(Name), None)
    else
      var found := Runtime(Name, "", searchPath[Name], true);
      var result := exec(Command);
      if result.Failed? && result.output == "" then
        Detection(found, Some("failed to execute nginx -v: " + result.cause))
      else
        Detection(found.(version := ParseVersion(result.output)), None)
  }

  /** A failed `nginx -v` that printed its banner still reports the version. */
  lemma FailureWithBannerIsTolerated(searchPath: SearchPath, exec: Invocation -> ExecResult)
    requires Name in searchPath && exec(Command).Failed? && exec(Command).output != ""
    ensures Detect(searchPath, exec).err == None
    ensures Detect(searchPath, exec).runtime.version == ParseVersion(exec(Command).output)
  {
  }
}
