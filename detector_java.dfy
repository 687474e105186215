/** The Java detector: finds `java` on the search path, runs `java -version`
    and reads the version from the quoted text after `version "`. Releases
    numbered the legacy way (`1.8.0_372`) are reported as `8.x`. */
module JavaDetector {
  import opened Wrappers
  import opened Text
  import opened VersionScan
  import opened Runtimes

  const Name: string := "java"

  /** The literal that precedes the capture in ``version "(.+?)"``. */
  const Marker: string := "version \""

  /** The command run to learn the version. */
  const Command: Invocation := Invocation("java", ["-version"])

  /** A legacy release `1.N...` becomes `N.x`: `N` is the second of the
      dot-separated parts. Any other capture is kept as it is. */
  function Normalize(v: string): (r: string)
    ensures !HasPrefix(v, "1.") ==> r == v
    ensures HasPrefix(v, "1.") ==>
      var n := |r| - 2;
      && |r| >= 2 && r[n..] == ".x"
      && HasPrefix(v[2..], r[..n])
      && '.' !in r[..n]
      && (2 + n < |v| ==> v[2 + n] == '.')
  {
    if HasPrefix(v, "1.") then
      var minor := UpToFirst(v[2..], '.');
      assert (minor + ".x")[..|minor|] == minor;
      minor + ".x"
    else v
  }

  /** `parseJavaVersion`: the normalized capture of the leftmost match, or
      "unknown" when the pattern does not match. The result never spans
      a line break. */
  function ParseVersion(output: string): (v: string)
    ensures FirstMatch(output, Marker, QuotedAt).None? ==> v == UnknownVersion
    ensures FirstMatch(output, Marker, QuotedAt).Some? ==> v == Normalize(FirstMatch(output, Marker, QuotedAt).value)
    ensures '\n' !in v
  {
    match FirstMatch(output, Marker, QuotedAt)
    case None => UnknownVersion
    case Some(c) =>
      assert '\n' !in c;
      var r := Normalize(c);
      assert HasPrefix(c, "1.") ==> r[..|r| - 2] == c[2..][..|r| - 2];
      assert '\n' !in r;
      r
  }

  /** The version is read from the leftmost occurrence of the pattern. */
  lemma ParseVersionLeftmost(output: string, p: nat)
    requires LeftmostMatch(output, Marker, QuotedAt, p)
    ensures ParseVersion(output) == Normalize(QuotedAt(output, p + |Marker|).value)
  {
    FirstMatchOfLeftmost(output, Marker, QuotedAt, p);
  }

  lemma ParseVersionModern(out: string)
    requires out == "openjdk version \"17.0.8\" 2023-07-18 LTS"
    ensures ParseVersion(out) == "17.0.8"
  {
    CaptureModern(out);
    ParseVersionOf(out, "17.0.8");
    assert "17.0.8"[..2][1] == '7';
  }

  lemma ParseVersionOf(output: string, c: string)
    requires FirstMatch(output, Marker, QuotedAt) == Some(c)
    ensures ParseVersion(output) == Normalize(c)
  {
  }

  lemma CaptureModern(out: string)
    requires out == "openjdk version \"17.0.8\" 2023-07-18 LTS"
    ensures FirstMatch(out, Marker, QuotedAt) == Some("17.0.8")
  {
    var tail := "17.0.8\" 2023-07-18 LTS";
    ModernSplit(out, tail);
    NotBeforeWithout("openjdk ", Marker);
    QuotedAfterIn(out, "openjdk ", Marker, "17.0.8", tail);
  }

  /** The modern banner is the marker, after a lead without quotes, then
      the quoted version. */
  lemma ModernSplit(out: string, tail: string)
    requires out == "openjdk version \"17.0.8\" 2023-07-18 LTS"
    requires tail == "17.0.8\" 2023-07-18 LTS"
    ensures out == "openjdk " + Marker + tail
    ensures HasPrefix(tail, "17.0.8" + "\"")
    ensures Marker[0] !in "openjdk "
  {
  }

  lemma ParseVersionLegacy(out: string)
    requires out == "java version \"1.8.0_372\""
    ensures ParseVersion(out) == "8.x"
  {
    CaptureLegacy(out);
    ParseVersionOf(out, "1.8.0_372");
    NormalizeLegacy();
  }

  /** A legacy release keeps only its second part. */
  lemma NormalizeLegacy()
    ensures Normalize("1.8.0_372") == "8.x"
  {
    var v := "1.8.0_372";
    assert v[..2] == "1.";
    assert v[2..] == "8.0_372";
    assert UpToFirst("8.0_372", '.') == "8";
  }

  /** The marker does not occur in the banner before the version. */
  lemma LegacyLeadClear()
    ensures NotBefore("java ", Marker)
  {
    var h := "java " + Marker;
    forall q | 0 <= q < 5
      ensures !OccursAt(h, q, Marker)
    {
      assert h[q..q + |Marker|][1] == h[q + 1] != Marker[1];
    }
  }

  lemma CaptureLegacy(out: string)
    requires out == "java version \"1.8.0_372\""
    ensures FirstMatch(out, Marker, QuotedAt) == Some("1.8.0_372")
  {
    var tail := "1.8.0_372\"";
    LegacySplit(out, tail);
    LegacyLeadClear();
    QuotedAfterIn(out, "java ", Marker, "1.8.0_372", tail);
  }

  /** The legacy banner is a lead, the marker and the quoted version. */
  lemma LegacySplit(out: string, tail: string)
    requires out == "java version \"1.8.0_372\""
    requires tail == "1.8.0_372\""
    ensures out == "java " + Marker + tail
    ensures HasPrefix(tail, "1.8.0_372" + "\"")
  {
  }

  lemma ParseVersionInvalid()
    ensures ParseVersion("some invalid output") == UnknownVersion
  {
    NoMatchWithout("some invalid output", Marker, QuotedAt, 8);
  }

  /** `JavaDetector.Detect`. Without `java` on the search path the runtime
      is reported absent with no error; otherwise it is found at the path
      the search path gives, and its version is read from the output of
      `java -version`, unless that command fails, which is an error. */
  function Detect(searchPath: SearchPath, exec: Invocation -> ExecResult): (d: Detection)
    ensures d.runtime.name == Name
    ensures d.runtime.found <==> Name in searchPath
    ensures !d.runtime.found ==> d == Detection(Absent(Name), None)
    ensures d.runtime.found ==> d.runtime.path == searchPath[Name]
    ensures d.err.Some? <==> d.runtime.found && exec(Command).Failed?
    ensures d.runtime.found && d.err.None? ==> d.runtime.version == ParseVersion(exec(Command).output)
    ensures d.err.Some? ==> d.runtime.version == ""
  {
    if Name !in searchPath then Detection(Absent(Name), None)
    else
      var found := Runtime(Name, "", searchPath[Name], true);
      match exec(Command)
      case Failed(_, cause) =>
        Detection(found, Some("failed to execute java -version: " + cause))
      case Exited(output) =>
        Detection(found.(version := ParseVersion(output)), None)
  }
}
