/** The server side of `ObserveRuntimes`: the detectors are narrowed to
    the requested names, run in order, and the found runtimes are returned
    together with facts about the host. The host name, operating system,
    the output of `uname -r` and the clock are inputs. */
module GrpcServer {
  import opened Wrappers
  import opened Text
  import opened Runtimes
  import opened Registry

  /** The detectors whose name is in `names`, in their original order. */
  function KeepNamed(ds: seq<Detector>, names: set<string>): (r: seq<Detector>)
    ensures |r| <= |ds|
    ensures forall i | 0 <= i < |r| :: r[i].name in names
  {
    if ds == [] then []
    else if ds[0].name in names then [ds[0]] + KeepNamed(ds[1..], names)
    else KeepNamed(ds[1..], names)
  }

  lemma {:induction false} KeepNamedAppend(a: seq<Detector>, b: seq<Detector>, names: set<string>)
    ensures KeepNamed(a + b, names) == KeepNamed(a, names) + KeepNamed(b, names)
  {
    if a == [] {
      assert a + b == b;
    } else {
      assert (a + b)[0] == a[0];
      assert (a + b)[1..] == a[1..] + b;
      KeepNamedAppend(a[1..], b, names);
    }
  }

  /** Filtering keeps a detector as often as the list holds it, when its
      name is requested, and drops it otherwise: it neither duplicates nor
      invents detectors, however often a name is repeated in the filter. */
  lemma {:induction false} KeepNamedCounts(ds: seq<Detector>, names: set<string>, d: Detector)
    ensures multiset(KeepNamed(ds, names))[d] == if d.name in names then multiset(ds)[d] else 0
  {
    if ds != [] {
      KeepNamedCounts(ds[1..], names, d);
      assert ds == [ds[0]] + ds[1..];
    }
  }

  /** Filtering by every name of the list changes nothing. */
  lemma {:induction false} KeepNamedAll(ds: seq<Detector>, names: set<string>)
    requires forall i | 0 <= i < |ds| :: ds[i].name in names
    ensures KeepNamed(ds, names) == ds
  {
    if ds != [] {
      KeepNamedAll(ds[1..], names);
    }
  }

  /** The set of names a filter list requests. */
  function Requested(filters: seq<string>): set<string> {
    set f | f in filters
  }

  /** `filterDetectors`: a set of the requested names is built first, then
      the detectors whose `Name()` it holds are kept in order. */
  method FilterDetectors(detectors: seq<Detector>, filters: seq<string>) returns (filtered: seq<Detector>)
    ensures filtered == KeepNamed(detectors, Requested(filters))
  {
    var filterMap: map<string, bool> := map[];
    var i := 0;
    while i < |filters|
      invariant 0 <= i <= |filters|
      invariant filterMap.Keys == Requested(filters[..i])
      invariant forall f | f in filterMap :: filterMap[f]
    {
      assert filters[..i + 1] == filters[..i] + [filters[i]];
      filterMap := filterMap[filters[i] := true];
      i := i + 1;
    }
    assert filters[..i] == filters;
    filtered := [];
    var j := 0;
    while j < |detectors|
      invariant 0 <= j <= |detectors|
      invariant filtered == KeepNamed(detectors[..j], Requested(filters))
    {
      var det := detectors[j];
      assert detectors[..j + 1] == detectors[..j] + [det];
      KeepNamedAppend(detectors[..j], [det], Requested(filters));
      if det.name in filterMap && filterMap[det.name] {
        filtered := filtered + [det];
      }
      j := j + 1;
    }
    assert detectors[..j] == detectors;
  }

  /** The detectors an observation runs: all of them when the request
      names none, otherwise the requested ones. */
  function Selected(detectors: seq<Detector>, filters: seq<string>): seq<Detector> {
    if |filters| > 0 then KeepNamed(detectors, Requested(filters)) else detectors
  }

  datatype SystemInfo = SystemInfo(hostname: string, os: string, kernel: string)

  datatype ObserveResponse = ObserveResponse(runtimes: seq<Runtime>, systemInfo: SystemInfo, timestamp: int)

  /** `getKernel`: the trimmed output of `uname -r`, or "unknown" when the
      command fails (`None`). */
  function Kernel(unameOutput: Option<string>): (k: string)
    ensures unameOutput.None? ==> k == UnknownVersion
    ensures unameOutput.Some? ==> k == TrimSpace(unameOutput.value)
    ensures unameOutput.Some? ==> |k| <= |unameOutput.value|
    ensures unameOutput.Some? && k != [] ==> !IsSpace(k[0]) && !IsSpace(k[|k| - 1])
  {
    match unameOutput
    case None => UnknownVersion
    case Some(out) => TrimSpace(out)
  }

  /** `WatcherServer.ObserveRuntimes`: the selected detectors run in order;
      one that fails is skipped without ending the loop, and each found
      runtime is copied into the response. The error is always nil. */
  method ObserveRuntimes(detectors: seq<Detector>, filters: seq<string>, hostname: string, os: string,
                         unameOutput: Option<string>, now: int)
    returns (response: ObserveResponse, err: Option<string>)
    ensures err == None
    ensures response.runtimes == FoundRuntimes(Selected(detectors, filters))
    ensures response.systemInfo == SystemInfo(hostname, os, Kernel(unameOutput))
    ensures response.timestamp == now
  {
    var selected := detectors;
    if |filters| > 0 {
      selected := FilterDetectors(detectors, filters);
    }
    var runtimes: seq<Runtime> := [];
    var i := 0;
    while i < |selected|
      invariant 0 <= i <= |selected|
      invariant runtimes == FoundRuntimes(selected[..i])
    {
      var d := selected[i].detection;
      assert selected[..i + 1] == selected[..i] + [selected[i]];
      FoundRuntimesAppend(selected[..i], [selected[i]]);
      if d.err.None? {
        if d.runtime.found {
          runtimes := runtimes + [Runtime(d.runtime.name, d.runtime.version, d.runtime.path, d.runtime.found)];
        }
      }
      i := i + 1;
    }
    assert selected[..i] == selected;
    var info := SystemInfo(hostname, os, Kernel(unameOutput));
    response := ObserveResponse(runtimes, info, now);
    err := None;
  }

  /** The filter "mariadb" never selects the MySQL detector, whose name is
      "mysql" even when the runtime it reports is named "mariadb". */
  lemma MariaDbFilterMissesMySql(searchPath: SearchPath, exec: Invocation -> ExecResult)
    ensures KeepNamed([Instantiate(MySql, searchPath, exec)], Requested(["mariadb"])) == []
  {
    assert Instantiate(MySql, searchPath, exec).name == "mysql";
    assert Requested(["mariadb"]) == {"mariadb"};
  }

  /** With distinct names, each requested detector is selected once. */
  lemma FilterOfRegistry(searchPath: SearchPath, exec: Invocation -> ExecResult, filters: seq<string>, k: Kind)
    requires k in AllKinds() && KindName(k) in filters
    ensures multiset(Selected(AllDetectors(searchPath, exec), filters))[Instantiate(k, searchPath, exec)] == 1
  {
    var ds := AllDetectors(searchPath, exec);
    var d := Instantiate(k, searchPath, exec);
    KeepNamedCounts(ds, Requested(filters), d);
    assert ds == [Instantiate(Java, searchPath, exec), Instantiate(Python, searchPath, exec), Instantiate(Node, searchPath, exec)];
    assert multiset(ds)[d] == 1;
  }

  /** The test scenario with a found and a missing detector: only the
      found runtime is reported, with its fields intact. */
  lemma FoundOnly(java: Runtime, missing: Runtime)
    requires java.found && !missing.found
    ensures FoundRuntimes(Selected([Detector("java", Detection(java, None)), Detector("missing", Detection(missing, None))], [])) == [java]
  {
    var ds := [Detector("java", Detection(java, None)), Detector("missing", Detection(missing, None))];
    assert ds[1..][1..] == [];
    assert ds[1..][0] == ds[1];
  }
}
