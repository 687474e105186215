/** The detectors as a family: each kind's `Name()` and `Detect()`, the
    list `GetAllDetectors` registers, and what an observation keeps of the
    detectors' results. A detector, as the server and the command-line
    client use it, is its name together with what its `Detect()` returned
    on this machine; test fakes are detectors of the same shape. */
module Registry {
  import opened Wrappers
  import opened Runtimes
  import JavaDetector
  import PythonDetector
  import NodeDetector
  import GoDetector
  import DockerDetector
  import MySqlDetector
  import RedisDetector
  import NginxDetector

  datatype Kind = Java | Python | Node | Go | Docker | MySql | Redis | Nginx

  /** `Detector.Name()` of each kind. */
  function KindName(k: Kind): string {
    match k
    case Java => JavaDetector.Name
    case Python => PythonDetector.Name
    case Node => NodeDetector.Name
    case Go => GoDetector.Name
    case Docker => DockerDetector.Name
    case MySql => MySqlDetector.Name
    case Redis => RedisDetector.Name
    case Nginx => NginxDetector.Name
  }

  /** `Detector.Detect()` of each kind, on a given machine. */
  function Detect(k: Kind, searchPath: SearchPath, exec: Invocation -> ExecResult): Detection {
    match k
    case Java => JavaDetector.Detect(searchPath, exec)
    case Python => PythonDetector.Detect(searchPath, exec)
    case Node => NodeDetector.Detect(searchPath, exec)
    case Go => GoDetector.Detect(searchPath, exec)
    case Docker => DockerDetector.Detect(searchPath, exec)
    case MySql => MySqlDetector.Detect(searchPath, exec)
    case Redis => RedisDetector.Detect(searchPath, exec)
    case Nginx => NginxDetector.Detect(searchPath, exec)
  }

  /** A detector: the name `Name()` returns and the result of `Detect()`. */
  datatype Detector = Detector(name: string, detection: Detection)

  function Instantiate(k: Kind, searchPath: SearchPath, exec: Invocation -> ExecResult): Detector {
    Detector(KindName(k), Detect(k, searchPath, exec))
  }

  /** Every detection, whatever the kind: an absent tool is reported under
      the detector's name with no error; an error comes only with a found
      tool and no version; a found tool's path is one the search path
      holds; and the runtime carries the detector's name, except that the
      MySQL detector reports "mariadb" when only `mariadb` was found. */
  lemma DetectShape(k: Kind, searchPath: SearchPath, exec: Invocation -> ExecResult)
    ensures var d := Detect(k, searchPath, exec);
      && (!d.runtime.found ==> d == Detection(Absent(KindName(k)), None))
      && (d.err.Some? ==> d.runtime.found && d.runtime.version == "")
      && (d.runtime.found ==> d.runtime.path in searchPath.Values)
      && (d.runtime.name == KindName(k) || (k == MySql && d.runtime.name == "mariadb"))
  {
    var d := Detect(k, searchPath, exec);
    if d.runtime.found {
      var cmd :=
        match k
        case Python => if "python3" in searchPath then "python3" else "python"
        case MySql => if "mysql" in searchPath then "mysql" else "mariadb"
        case Redis => if "redis-server" in searchPath then "redis-server" else "redis-cli"
        case _ => KindName(k);
      assert cmd in searchPath && d.runtime.path == searchPath[cmd];
    }
  }

  /** `GetAllDetectors`: Java, Python and Node, in that order. */
  function AllKinds(): (ks: seq<Kind>)
    ensures forall i, j | 0 <= i < j < |ks| :: KindName(ks[i]) != KindName(ks[j])
    ensures forall k :: k in ks <==> k == Java || k == Python || k == Node
  {
    [Java, Python, Node]
  }

  /** The registered detectors on a given machine, in registration order. */
  function AllDetectors(searchPath: SearchPath, exec: Invocation -> ExecResult): (ds: seq<Detector>)
    ensures |ds| == |AllKinds()|
    ensures forall i | 0 <= i < |ds| :: ds[i] == Instantiate(AllKinds()[i], searchPath, exec)
  {
    seq(|AllKinds()|, i requires 0 <= i < |AllKinds()| => Instantiate(AllKinds()[i], searchPath, exec))
  }

  /** The detector names the registry's test expects, in order. */
  const ExpectedNames: seq<string> :=
    ["java", "python", "node", "go", "docker", "mysql", "redis", "nginx"]

  /** The registry agrees with its test on the first three names only: it
      lists three detectors where the test expects all eight kinds, which
      would satisfy it in declaration order. */
  lemma RegistryShortOfExpected()
    ensures |AllKinds()| == 3 && |ExpectedNames| == 8
    ensures forall i | 0 <= i < |AllKinds()| :: KindName(AllKinds()[i]) == ExpectedNames[i]
    ensures forall k: Kind :: KindName(k) in ExpectedNames
    ensures forall k: Kind :: KindName(k) != "mariadb"
  {
    var ks := AllKinds();
    assert ks == [Java, Python, Node];
    forall k: Kind
      ensures KindName(k) in ExpectedNames
    {
      var i := match k
        case Java => 0 case Python => 1 case Node => 2 case Go => 3
        case Docker => 4 case MySql => 5 case Redis => 6 case Nginx => 7;
      assert KindName(k) == ExpectedNames[i];
    }
  }

  /** A detector whose runtime an observation reports: no error, and
      the tool was found. */
  predicate Reported(d: Detector) {
    d.detection.err.None? && d.detection.runtime.found
  }

  /** The runtimes an observation reports, in detector order. */
  function FoundRuntimes(ds: seq<Detector>): (rs: seq<Runtime>)
    ensures |rs| <= |ds|
    ensures forall i | 0 <= i < |rs| :: rs[i].found
  {
    if ds == [] then []
    else if Reported(ds[0]) then [ds[0].detection.runtime] + FoundRuntimes(ds[1..])
    else FoundRuntimes(ds[1..])
  }

  /** A runtime is reported exactly when some detector reported it. */
  lemma {:induction false} FoundRuntimesMember(ds: seq<Detector>, r: Runtime)
    ensures r in FoundRuntimes(ds) <==>
      exists i | 0 <= i < |ds| :: Reported(ds[i]) && ds[i].detection.runtime == r
  {
    if ds != [] {
      var tail := ds[1..];
      FoundRuntimesMember(tail, r);
      if r in FoundRuntimes(ds) {
        if Reported(ds[0]) && ds[0].detection.runtime == r {
          assert Reported(ds[0]) && ds[0].detection.runtime == r;
        } else {
          var j :| 0 <= j < |tail| && Reported(tail[j]) && tail[j].detection.runtime == r;
          assert ds[j + 1] == tail[j];
        }
      }
      if exists i | 0 <= i < |ds| :: Reported(ds[i]) && ds[i].detection.runtime == r {
        var i :| 0 <= i < |ds| && Reported(ds[i]) && ds[i].detection.runtime == r;
        if i > 0 {
          assert tail[i - 1] == ds[i];
        }
      }
    }
  }

  /** Observing two runs of detectors is observing each and concatenating. */
  lemma {:induction false} FoundRuntimesAppend(a: seq<Detector>, b: seq<Detector>)
    ensures FoundRuntimes(a + b) == FoundRuntimes(a) + FoundRuntimes(b)
  {
    if a == [] {
      assert a + b == b;
    } else {
      assert (a + b)[0] == a[0];
      assert (a + b)[1..] == a[1..] + b;
      FoundRuntimesAppend(a[1..], b);
    }
  }
}
