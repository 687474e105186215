/** The Python detector: prefers `python3` to `python` on the search path,
    runs the one it found with `--version` and reads the version triple
    after `Python `. The runtime is named "python" either way. */
module PythonDetector {
  import opened Wrappers
  import opened Text
  import opened VersionScan
  import opened Runtimes

  const Name: string := "python"

  /** The executables looked for, in order of preference. */
  const Candidates: seq<string> := ["python3", "python"]

  /** The literal that precedes the capture in `Python (\d+\.\d+\.\d+)`. */
  const Marker: string := "Python "

  /** `parsePythonVersion`: the version triple after the leftmost `Python `
      that is followed by one, or "unknown" when there is none. */
  function ParseVersion(output: string): (v: string)
    ensures v == UnknownVersion <==> FirstTripleAfter(output, Marker).None?
    ensures v != UnknownVersion ==> IsVersionTriple(v)
  {
    match FirstTripleAfter(output, Marker)
    case None => UnknownVersion
    case Some(t) =>
      TripleStartsWithDigit(t);
      t
  }

  lemma ParseVersionOf(output: string, t: string)
    requires FirstTripleAfter(output, Marker) == Some(t)
    ensures ParseVersion(output) == t
  {
  }

  lemma ParseVersionRelease(out: string)
    requires out == "Python 3.10.12"
    ensures ParseVersion(out) == "3.10.12"
  {
    assert TripleSplit("3.10.12", 1, 4);
    TripleAfterIn(out, "", Marker, "3.10.12", "", 1, 4);
    ParseVersionOf(out, "3.10.12");
  }

  lemma ParseVersionInvalid(out: string)
    requires out == "something else"
    ensures ParseVersion(out) == UnknownVersion
  {
    NoMatchWithout(out, Marker, TripleAt, 0);
  }

  /** `PythonDetector.Detect`. Absent, with no error, when neither
      candidate is on the search path; otherwise found at the path of the
      preferred candidate, whose bare name is run with `--version`: a
      failure is an error, a success gives the parsed version. */
  function Detect(searchPath: SearchPath, exec: Invocation -> ExecResult): (d: Detection)
    ensures d.runtime.name == Name
    ensures d.runtime.found <==> "python3" in searchPath || "python" in searchPath
    ensures !d.runtime.found ==> d == Detection(Absent(Name), None)
    ensures d.runtime.found ==>
      var cmd := if "python3" in searchPath then "python3" else "python";
      var result := exec(Invocation(cmd, ["--version"]));
      && d.runtime.path == searchPath[cmd]
      && (d.err.Some? <==> result.Failed?)
      && (d.err.None? ==> d.runtime.version == ParseVersion(result.output))
      && (d.err.Some? ==> d.runtime.version == "")
  {
    match Locate(Candidates, searchPath)
    case None =>
      assert Candidates[0] !in searchPath && Candidates[1] !in searchPath;
      Detection(Absent(Name), None)
    case Some(k) =>
      var cmd := Candidates[k];
      assert cmd == if "python3" in searchPath then "python3" else "python" by {
        assert Candidates[0] == "python3" && Candidates[1] == "python";
      }
      var found := Runtime(Name, "", searchPath[cmd], true);
      match exec(Invocation(cmd, ["--version"]))
      case Failed(_, cause) =>
        Detection(found, Some("failed to execute python --version: " + cause))
      case Exited(output) =>
        Detection(found.(version := ParseVersion(output)), None)
  }
}
