/** The Go detector: finds `go` on the search path, runs `go version` and
    takes the third white-space-separated word of the output, without a
    leading `go`, as the version. */
module GoDetector {
  import opened Wrappers
  import opened Text
  import opened Runtimes

  const Name: string := "go"

  /** The command run to learn the version. */
  const Command: Invocation := Invocation("go", ["version"])

  /** `parseGoVersion`: the third field of the output without one leading
      `go`, or "unknown" when the output has fewer than three fields. The
      result never holds white space. */
  function ParseVersion(output: string): (v: string)
    ensures |Fields(output)| < 3 ==> v == UnknownVersion
    ensures |Fields(output)| >= 3 ==>
      var word := Fields(output)[2];
      if HasPrefix(word, "go") then "go" + v == word else v == word
    ensures forall k | 0 <= k < |v| :: !IsSpace(v[k])
  {
    var fs := Fields(output);
    if |fs| >= 3 then
      var v := TrimPrefix(fs[2], "go");
      assert HasPrefix(fs[2], "go") ==> forall k | 0 <= k < |v| :: v[k] == fs[2][k + 2];
      v
    else UnknownVersion
  }

  /** Output made of single-space-separated words is read word by word: the
      version comes from the third. */
  lemma ParseVersionOfWords(ws: seq<string>)
    requires |ws| >= 3
    requires forall k | 0 <= k < |ws| :: IsField(ws[k])
    ensures ParseVersion(JoinSpaced(ws)) == TrimPrefix(ws[2], "go")
  {
    FieldsOfJoin(ws);
  }

  lemma ParseVersionRelease(ws: seq<string>)
    requires ws == ["go", "version", "go1.21.5", "linux/amd64"]
    ensures JoinSpaced(ws) == "go version go1.21.5 linux/amd64"
    ensures ParseVersion(JoinSpaced(ws)) == "1.21.5"
  {
    JoinRelease(ws);
    WordsRelease(ws);
    ParseVersionOfWords(ws);
    assert "go1.21.5"[..2] == "go";
  }

  lemma WordsRelease(ws: seq<string>)
    requires ws == ["go", "version", "go1.21.5", "linux/amd64"]
    ensures forall k | 0 <= k < |ws| :: IsField(ws[k])
  {
  }

  lemma JoinRelease(ws: seq<string>)
    requires ws == ["go", "version", "go1.21.5", "linux/amd64"]
    ensures JoinSpaced(ws) == "go version go1.21.5 linux/amd64"
  {
    var t := "linux/amd64";
    var u := "go1.21.5" + " " + t;
    var v := "version" + " " + u;
    assert JoinSpaced(ws[3..]) == t;
    assert JoinSpaced(ws[2..]) == u;
    assert JoinSpaced(ws[1..]) == v;
    assert JoinSpaced(ws) == "go" + " " + v;
  }

  /** Output whose words are separated by any runs of white space, with
      any white space before and after them, is read word by word too. */
  lemma ParseVersionOfSpaced(ws: seq<string>, gaps: seq<string>)
    requires |ws| >= 3 && |gaps| == |ws| + 1 && SpaceGaps(gaps)
    requires forall k | 0 <= k < |ws| :: IsField(ws[k])
    ensures ParseVersion(Interleave(ws, gaps)) == TrimPrefix(ws[2], "go")
  {
    FieldsOfInterleave(ws, gaps);
  }

  /** The banner as `go version` prints it, ending in a line break. */
  lemma ParseVersionOfLine(ws: seq<string>, gaps: seq<string>)
    requires ws == ["go", "version", "go1.21.5", "linux/amd64"]
    requires gaps == ["", " ", " ", " ", "\n"]
    ensures Interleave(ws, gaps) == "go version go1.21.5 linux/amd64\n"
    ensures ParseVersion(Interleave(ws, gaps)) == "1.21.5"
  {
    LineRelease(ws, gaps);
    WordsRelease(ws);
    assert SpaceGaps(gaps) by {
      assert AllSpace(gaps[0]) && AllSpace(gaps[1]) && AllSpace(gaps[4]);
    }
    ParseVersionOfSpaced(ws, gaps);
    assert "go1.21.5"[..2] == "go";
  }

  lemma LineRelease(ws: seq<string>, gaps: seq<string>)
    requires ws == ["go", "version", "go1.21.5", "linux/amd64"]
    requires gaps == ["", " ", " ", " ", "\n"]
    ensures Interleave(ws, gaps) == "go version go1.21.5 linux/amd64\n"
  {
    assert Interleave(ws[4..], gaps[4..]) == "\n";
    var t := " " + "linux/amd64" + "\n";
    assert Interleave(ws[3..], gaps[3..]) == t;
    var u := " " + "go1.21.5" + t;
    assert Interleave(ws[2..], gaps[2..]) == u;
    var v := " " + "version" + u;
    assert Interleave(ws[1..], gaps[1..]) == v;
    assert Interleave(ws, gaps) == "" + "go" + v;
  }

  lemma ParseVersionInvalid(out: string)
    requires out == "invalid output"
    ensures ParseVersion(out) == UnknownVersion
  {
    var ws := ["invalid", "output"];
    assert JoinSpaced(ws) == out;
    FieldsOfJoin(ws);
  }

  /** `GoDetector.Detect`. Absent, with no error, without `go` on the
      search path; otherwise found at the path the search path gives, with
      the version read from the output of `go version`, unless that
      command fails, which is an error. */
  function Detect(searchPath: SearchPath, exec: Invocation -> ExecResult): (d: Detection)
    ensures d.runtime.name == Name
    ensures d.runtime.found <==> Name in searchPath
    ensures !d.runtime.found ==> d == Detection(Absent(Name), None)
    ensures d.runtime.found ==> d.runtime.path == searchPath[Name]
    ensures d.err.Some? <==> d.runtime.found && exec(Command).Failed?
    ensures d.runtime.found && d.err.None? ==> d.runtime.version == ParseVersion(exec(Command).output)
    ensures d.err.Some? ==> d.runtime.version == ""
  {
    if Name !in searchPath then Detection(Absent(Name), None)
    else
      var found := Runtime(Name, "", searchPath[Name], true);
      match exec(Command)
      case Failed(_, cause) =>
        Detection(found, Some("failed to execute go version: " + cause))
      case Exited(output) =>
        Detection(found.(version := ParseVersion(output)), None)
  }
}
