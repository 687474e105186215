/** The Node.js detector: finds `node` on the search path, runs
    `node --version` and takes its trimmed output, without the leading `v`,
    as the version. There is no "unknown" fallback: whatever the command
    prints becomes the version. */
module NodeDetector {
  import opened Wrappers
  import opened Text
  import opened Runtimes

  const Name: string := "node"

  /** The command run to learn the version. */
  const Command: Invocation := Invocation("node", ["--version"])

  /** `parseNodeVersion`: the output stripped of surrounding white space
      and then of one leading `v`, if it has one. */
  function ParseVersion(output: string): (v: string)
    ensures |v| <= |output|
    ensures HasPrefix(TrimSpace(output), "v") ==> "v" + v == TrimSpace(output)
    ensures !HasPrefix(TrimSpace(output), "v") ==> v == TrimSpace(output)
  {
    TrimPrefix(TrimSpace(output), "v")
  }

  /** The version is the text between the leading `v` and the padding. */
  lemma ParseVersionOfPadded(u: string, x: string, w: string)
    requires AllSpace(u) && AllSpace(w)
    requires x != [] ==> !IsSpace(x[|x| - 1])
    ensures ParseVersion(u + "v" + x + w) == x
  {
    var r := "v" + x;
    assert r[0] == 'v' && r[|r| - 1] == (if x == [] then 'v' else x[|x| - 1]);
    TrimSpaceOfPadded(u, r, w);
    TrimPrefixOfPrefixed("v", x);
    assert u + "v" + x + w == u + r + w;
  }

  /** A version printed without the `v` is kept as it is. */
  lemma ParseVersionWithoutPrefix(u: string, x: string, w: string)
    requires AllSpace(u) && AllSpace(w)
    requires x != [] ==> !IsSpace(x[0]) && !IsSpace(x[|x| - 1]) && x[0] != 'v'
    ensures ParseVersion(u + x + w) == x
  {
    TrimSpaceOfPadded(u, x, w);
  }

  lemma ParseVersionRelease()
    ensures ParseVersion("v20.18.0\n") == "20.18.0"
    ensures ParseVersion("v20.18.0") == "20.18.0"
  {
    ParseVersionOfPadded("", "20.18.0", "\n");
    assert "" + "v" + "20.18.0" + "\n" == "v20.18.0\n";
    ParseVersionOfPadded("", "20.18.0", "");
    assert "" + "v" + "20.18.0" + "" == "v20.18.0";
  }

  lemma ParseVersionBare()
    ensures ParseVersion("18.12.1") == "18.12.1"
  {
    ParseVersionWithoutPrefix("", "18.12.1", "");
    assert "" + "18.12.1" + "" == "18.12.1";
  }

  /** `NodeDetector.Detect`. Absent, with no error, without `node` on the
      search path; otherwise found at the path the search path gives, with
      the version read from the output of `node --version`, unless that
      command fails, which is an error. */
  function Detect(searchPath: SearchPath, exec: Invocation -> ExecResult): (d: Detection)
    ensures d.runtime.name == Name
    ensures d.runtime.found <==> Name in searchPath
    ensures !d.runtime.found ==> d == Detection(Absent(Name), None)
    ensures d.runtime.found ==> d.runtime.path == searchPath[Name]
    ensures d.err.Some? <==> d.runtime.found && exec(Command).Failed?
    ensures d.runtime.found && d.err.None? ==> d.runtime.version == ParseVersion(exec(Command).output)
    ensures d.err.Some? ==> d.runtime.version == ""
  {
    if Name !in searchPath then Detection(Absent(Name), None)
    else
      var found := Runtime(Name, "", searchPath[Name], true);
      match exec(Command)
      case Failed(_, cause) =>
        Detection(found, Some("failed to execute node --version: " + cause))
      case Exited(output) =>
        Detection(found.(version := ParseVersion(output)), None)
  }
}
