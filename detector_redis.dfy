/** The Redis detector: prefers `redis-server` to `redis-cli`
    on the search path, runs the executable found with `--version` and
    reads the version triple after `v=`. */
module RedisDetector {
  import opened Wrappers
  import opened Text
  import opened VersionScan
  import opened Runtimes

  const Name: string := "redis"

  /** The executables looked for, in order of preference. */
  const Candidates: seq<string> := ["redis-server", "redis-cli"]

  /** The literal that precedes the capture in `v=(\d+\.\d+\.\d+)`. */
  const Marker: string := "v="

  /** `parseRedisVersion`: the version triple after the leftmost `v=` that is
      followed by one, or "unknown" when there is none. */
  function ParseVersion(output: string): (v: string)
    ensures v == UnknownVersion <==> FirstTripleAfter(output, Marker).None?
    ensures v != UnknownVersion ==> IsVersionTriple(v)
  {
    match FirstTripleAfter(output, Marker)
    case None => UnknownVersion
    case Some(t) =>
      TripleStartsWithDigit(t);
      t
  }

  lemma ParseVersionOf(output: string, t: string)
    requires FirstTripleAfter(output, Marker) == Some(t)
    ensures ParseVersion(output) == t
  {
  }

  lemma ParseVersionRelease(out: string)
    requires out == "Redis server v=7.0.12 sha=000 malloc=jemalloc"
    ensures ParseVersion(out) == "7.0.12"
  {
    CaptureRelease(out);
    ParseVersionOf(out, "7.0.12");
  }

  /** `v=` does not occur in the banner before the version. */
  lemma BannerLeadClear()
    ensures NotBefore("Redis server ", Marker)
  {
    var h := "Redis server " + Marker;
    forall q | 0 <= q < 13
      ensures MissesAt(h, q, Marker, 0, 1)
    {
      assert h[q] != 'v' || h[q + 1] != '=';
    }
    NotBeforeByTwo("Redis server ", Marker, 0, 1);
  }

  lemma CaptureRelease(out: string)
    requires out == "Redis server v=7.0.12 sha=000 malloc=jemalloc"
    ensures FirstTripleAfter(out, Marker) == Some("7.0.12")
  {
    ReleaseSplit(out);
    BannerLeadClear();
    TripleAfterIn(out, "Redis server ", Marker, "7.0.12", " sha=000 malloc=jemalloc", 1, 3);
  }

  /** The release banner is a lead, the marker, the triple and a tail that
      does not start with a digit. */
  lemma ReleaseSplit(out: string)
    requires out == "Redis server v=7.0.12 sha=000 malloc=jemalloc"
    ensures out == "Redis server " + Marker + ("7.0.12" + " sha=000 malloc=jemalloc")
    ensures TripleSplit("7.0.12", 1, 3)
  {
  }

  lemma ParseVersionInvalid(out: string)
    requires out == "Redis info missing version"
    ensures ParseVersion(out) == UnknownVersion
  {
    NoMatchWithout(out, Marker, TripleAt, 1);
  }

  /** `RedisDetector.Detect`. Absent, with no error, when neither
      `redis-server` nor `redis-cli` is on the search path. Otherwise found
      at the path of the preferred one, which is itself run with
      `--version`; a failure is an error. */
  function Detect(searchPath: SearchPath, exec: Invocation -> ExecResult): (d: Detection)
    ensures d.runtime.name == Name
    ensures d.runtime.found <==> "redis-server" in searchPath || "redis-cli" in searchPath
    ensures !d.runtime.found ==> d == Detection(Absent(Name), None)
    ensures d.runtime.found ==>
      var cmd := if "redis-server" in searchPath then "redis-server" else "redis-cli";
      var result := exec(Invocation(searchPath[cmd], ["--version"]));
      && d.runtime.path == searchPath[cmd]
      && (d.err.Some? <==> result.Failed?)
      && (d.err.None? ==> d.runtime.version == ParseVersion(result.output))
      && (d.err.Some? ==> d.runtime.version == "")
  {
    match Locate(Candidates, searchPath)
    case None =>
      assert Candidates[0] !in searchPath && Candidates[1] !in searchPath;
      Detection(Absent(Name), None)
    case Some(k) =>
      var cmd := Candidates[k];
      assert cmd == if "redis-server" in searchPath then "redis-server" else "redis-cli" by {
        assert Candidates[0] == "redis-server" && Candidates[1] == "redis-cli";
      }
      var path := searchPath[cmd];
      var found := Runtime(Name, "", path, true);
      match exec(Invocation(path, ["--version"]))
      case Failed(_, cause) =>
        Detection(found, Some("failed to execute redis --version: " + cause))
      case Exited(output) =>
        Detection(found.(version := ParseVersion(output)), None)
  }
}
