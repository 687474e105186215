/** The MySQL detector: prefers `mysql` to `mariadb` on the
    search path, runs the executable found with `--version` and reads the
    version triple after `Ver `. When only `mariadb` exists the runtime is
    named "mariadb". */
module MySqlDetector {
  import opened Wrappers
  import opened Text
  import opened VersionScan
  import opened Runtimes

  const Name: string := "mysql"

  /** The executables looked for, in order of preference. */
  const Candidates: seq<string> := ["mysql", "mariadb"]

  /** The literal that precedes the capture in `Ver (\d+\.\d+\.\d+)`. */
  const Marker: string := "Ver "

  /** `parseMySQLVersion`: the version triple after the leftmost `Ver ` that is
      followed by one, or "unknown" when there is none. */
  function ParseVersion(output: string): (v: string)
    ensures v == UnknownVersion <==> FirstTripleAfter(output, Marker).None?
    ensures v != UnknownVersion ==> IsVersionTriple(v)
  {
    match FirstTripleAfter(output, Marker)
    case None => UnknownVersion
    case Some(t) =>
      TripleStartsWithDigit(t);
      t
  }

  lemma ParseVersionOf(output: string, t: string)
    requires FirstTripleAfter(output, Marker) == Some(t)
    ensures ParseVersion(output) == t
  {
  }

  lemma ParseVersionRelease(out: string)
    requires out == "mysql  Ver 8.0.34 for Linux on x86_64"
    ensures ParseVersion(out) == "8.0.34"
  {
    CaptureRelease(out);
    ParseVersionOf(out, "8.0.34");
  }

  lemma CaptureRelease(out: string)
    requires out == "mysql  Ver 8.0.34 for Linux on x86_64"
    ensures FirstTripleAfter(out, Marker) == Some("8.0.34")
  {
    ReleaseSplit(out);
    NotBeforeWithout("mysql  ", Marker);
    TripleAfterIn(out, "mysql  ", Marker, "8.0.34", " for Linux on x86_64", 1, 3);
  }

  lemma ParseVersionMariaDb(out: string)
    requires out == "mysql  Ver 10.11.4-MariaDB"
    ensures ParseVersion(out) == "10.11.4"
  {
    CaptureMariaDb(out);
    ParseVersionOf(out, "10.11.4");
  }

  lemma CaptureMariaDb(out: string)
    requires out == "mysql  Ver 10.11.4-MariaDB"
    ensures FirstTripleAfter(out, Marker) == Some("10.11.4")
  {
    MariaDbSplit(out);
    NotBeforeWithout("mysql  ", Marker);
    TripleAfterIn(out, "mysql  ", Marker, "10.11.4", "-MariaDB", 2, 5);
  }

  /** The MySQL banner is a lead without `V`, the marker, the triple and a
      tail that does not start with a digit. */
  lemma ReleaseSplit(out: string)
    requires out == "mysql  Ver 8.0.34 for Linux on x86_64"
    ensures out == "mysql  " + Marker + ("8.0.34" + " for Linux on x86_64")
    ensures TripleSplit("8.0.34", 1, 3)
    ensures Marker[0] !in "mysql  "
  {
  }

  /** The same shape for the MariaDB banner. */
  lemma MariaDbSplit(out: string)
    requires out == "mysql  Ver 10.11.4-MariaDB"
    ensures out == "mysql  " + Marker + ("10.11.4" + "-MariaDB")
    ensures TripleSplit("10.11.4", 2, 5)
    ensures Marker[0] !in "mysql  "
  {
  }

  lemma ParseVersionInvalid(out: string)
    requires out == "mysql Distrib foo"
    ensures ParseVersion(out) == UnknownVersion
  {
    NoMatchWithout(out, Marker, TripleAt, 0);
  }

  /** The client banner of MariaDB names a two-part client version after
      `Ver `; the server version later in the line is not preceded by
      `Ver `, so nothing is captured. */
  lemma ParseVersionMariaDbClient(out: string)
    requires out == "mysql  Ver 15.1 Distrib 10.11.4-MariaDB"
    ensures ParseVersion(out) == UnknownVersion
  {
    assert out[11] == '1' && out[12] == '5' && out[13] == '.';
    assert DigitRunEnd(out, 11) == 13;
    assert out[14] == '1' && out[15] == ' ';
    assert DigitRunEnd(out, 14) == 15;
    assert TripleAt(out, 11) == None;
    NoMatchBut(out, Marker, TripleAt, 7);
  }

  /** `MySQLDetector.Detect`. Absent, with no error, when neither `mysql`
      nor `mariadb` is on the search path. Otherwise found at the path of
      the preferred one, named "mariadb" when only `mariadb` was found;
      the found path itself is run with `--version`, and a failure is an
      error. */
  function Detect(searchPath: SearchPath, exec: Invocation -> ExecResult): (d: Detection)
    ensures d.runtime.found <==> "mysql" in searchPath || "mariadb" in searchPath
    ensures !d.runtime.found ==> d == Detection(Absent(Name), None)
    ensures d.runtime.found ==>
      var cmd := if "mysql" in searchPath then "mysql" else "mariadb";
      var result := exec(Invocation(searchPath[cmd], ["--version"]));
      && d.runtime.name == cmd
      && d.runtime.path == searchPath[cmd]
      && (d.err.Some? <==> result.Failed?)
      && (d.err.None? ==> d.runtime.version == ParseVersion(result.output))
      && (d.err.Some? ==> d.runtime.version == "")
  {
    match Locate(Candidates, searchPath)
    case None =>
      assert Candidates[0] !in searchPath && Candidates[1] !in searchPath;
      Detection(Absent(Name), None)
    case Some(k) =>
      var cmd := Candidates[k];
      assert cmd == if "mysql" in searchPath then "mysql" else "mariadb" by {
        assert Candidates[0] == "mysql" && Candidates[1] == "mariadb";
      }
      var path := searchPath[cmd];
      var found := Runtime(cmd, "", path, true);
      match exec(Invocation(path, ["--version"]))
      case Failed(_, cause) =>
        Detection(found, Some("failed to execute mysql --version: " + cause))
      case Exited(output) =>
        Detection(found.(version := ParseVersion(output)), None)
  }
}
