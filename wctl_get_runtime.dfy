/** `wctl get runtime NAME`: one runtime, looked up by name. Locally the
    name, or one of its aliases, selects a detector; remotely the name is
    looked up as given in what the server reports. */
module WctlGetRuntime {
  import opened Wrappers
  import opened Runtimes
  import opened Registry
  import opened Auth
  import GrpcClient

  /** The detector kind a runtime name selects locally. */
  function SelectDetector(name: string): (r: Outcome<Kind>)
    ensures r.Err? ==> r.msg == "unsupported runtime: " + name
    ensures r.Ok? <==> name in {"java", "python", "node", "nodejs", "go", "golang", "docker", "mysql", "mariadb", "redis", "nginx"}
  {
    match name
    case "java" => Ok(Java)
    case "python" => Ok(Python)
    case "node" => Ok(Node)
    case "nodejs" => Ok(Node)
    case "go" => Ok(Go)
    case "golang" => Ok(Go)
    case "docker" => Ok(Docker)
    case "mysql" => Ok(MySql)
    case "mariadb" => Ok(MySql)
    case "redis" => Ok(Redis)
    case "nginx" => Ok(Nginx)
    case _ => Err("unsupported runtime: " + name)
  }

  /** Every detector is selected by its own name. */
  lemma SelectsByName(k: Kind)
    ensures SelectDetector(KindName(k)) == Ok(k)
  {
  }

  /** The three aliases select the node, go and mysql detectors. */
  lemma SelectsByAlias()
    ensures SelectDetector("nodejs") == Ok(Node)
    ensures SelectDetector("golang") == Ok(Go)
    ensures SelectDetector("mariadb") == Ok(MySql)
  {
  }

  /** A name selects a detector only when it is that detector's name or
      one of the three aliases. */
  lemma SelectedNames(name: string, k: Kind)
    requires SelectDetector(name) == Ok(k)
    ensures name == KindName(k)
      || (name == "nodejs" && k == Node)
      || (name == "golang" && k == Go)
      || (name == "mariadb" && k == MySql)
  {
  }

  /** `observeLocalRuntime`: an unsupported name is an error and runs no
      detector; otherwise the selected detector runs, and its error, if
      any, replaces the runtime. */
  function ObserveLocalRuntime(name: string, searchPath: SearchPath, exec: Invocation -> ExecResult): (r: Outcome<Runtime>)
    ensures SelectDetector(name).Err? ==> r == Err("unsupported runtime: " + name)
    ensures SelectDetector(name).Ok? ==>
      var d := Detect(SelectDetector(name).value, searchPath, exec);
      && (r.Err? <==> d.err.Some?)
      && (r.Err? ==> r.msg == d.err.value)
      && (r.Ok? ==> r.value == d.runtime)
  {
    match SelectDetector(name)
    case Err(msg) => Err(msg)
    case Ok(k) =>
      var d := Detect(k, searchPath, exec);
      match d.err
      case Some(e) => Err(e)
      case None => Ok(d.runtime)
  }

  /** What `runGetRuntime` ends with: an error already reported, the
      message that the runtime is not installed, or the runtime shown. */
  datatype Shown = Aborted(err: string) | NotInstalled(name: string) | Rendered(runtime: Runtime)

  /** The end of `runGetRuntime`, given what the observation returned: an
      error stops the command; a missing or not-found runtime is "not
      installed"; only a found runtime is rendered. */
  function Conclude(name: string, observed: Outcome<Option<Runtime>>): (s: Shown)
    ensures s.Rendered? <==> observed.Ok? && observed.value.Some? && observed.value.value.found
    ensures s.Rendered? ==> s.runtime == observed.value.value
    ensures s.Aborted? <==> observed.Err?
    ensures s.NotInstalled? ==> s.name == name
  {
    match observed
    case Err(e) => Aborted(e)
    case Ok(None) => NotInstalled(name)
    case Ok(Some(r)) => if r.found then Rendered(r) else NotInstalled(name)
  }

  /** A local observation for the command: no runtime when it failed. */
  function LocalObservation(name: string, searchPath: SearchPath, exec: Invocation -> ExecResult): Outcome<Option<Runtime>> {
    match ObserveLocalRuntime(name, searchPath, exec)
    case Err(e) => Err(e)
    case Ok(r) => Ok(Some(r))
  }

  /** Locally, a supported runtime that is absent is "not installed", and
      one whose detection failed is an error, never shown. */
  lemma LocalConclusion(name: string, searchPath: SearchPath, exec: Invocation -> ExecResult)
    requires SelectDetector(name).Ok?
    ensures var d := Detect(SelectDetector(name).value, searchPath, exec);
      var s := Conclude(name, LocalObservation(name, searchPath, exec));
      && (!d.runtime.found ==> s == NotInstalled(name))
      && (d.err.Some? ==> s == Aborted(d.err.value))
      && (d.err.None? && d.runtime.found ==> s == Rendered(d.runtime))
  {
    DetectShape(SelectDetector(name).value, searchPath, exec);
  }

  /** `observeRemoteRuntime`: a connection error is returned; otherwise the
      client looks the name up as given, with no alias mapping. */
  method ObserveRemoteRuntime(name: string, connect: Option<string>, c: GrpcClient.Client, rpc: GrpcClient.Rpc)
    returns (runtime: Option<Runtime>, err: Option<string>)
    ensures connect.Some? ==> runtime.None? && err == connect
    ensures connect.None? ==> match rpc(GrpcClient.CallContext(c, Context(None, None)), GrpcClient.ObserveRequest([]))
      case Err(e) => runtime.None? && err == Some("RPC call failed: " + e)
      case Ok(resp) => runtime == Some(GrpcClient.Lookup(GrpcClient.KeepFound(resp.runtimes), name)) && err == None
  {
    if connect.Some? {
      return None, connect;
    }
    runtime, err := GrpcClient.ObserveRuntime(c, Context(None, None), name, rpc);
  }

  /** Remotely "nodejs" is not an alias: the server's detectors report
      their runtimes as "node" (or their own names), so the lookup comes
      back not found and the command says "not installed", while the same
      name locally runs the node detector. */
  lemma RemoteNodejsNotFound(ks: seq<Kind>, searchPath: SearchPath, exec: Invocation -> ExecResult)
    ensures var ds := seq(|ks|, i requires 0 <= i < |ks| => Instantiate(ks[i], searchPath, exec));
      var found := GrpcClient.Lookup(GrpcClient.KeepFound(FoundRuntimes(ds)), "nodejs");
      && found == GrpcClient.NotFound("nodejs")
      && Conclude("nodejs", Ok(Some(found))) == NotInstalled("nodejs")
    ensures SelectDetector("nodejs") == Ok(Node)
  {
    var ds := seq(|ks|, i requires 0 <= i < |ks| => Instantiate(ks[i], searchPath, exec));
    var rs := FoundRuntimes(ds);
    GrpcClient.KeepFoundOfServer(ds);
    forall j | 0 <= j < |rs|
      ensures rs[j].name != "nodejs"
    {
      FoundRuntimesMember(ds, rs[j]);
      var i :| 0 <= i < |ds| && Reported(ds[i]) && ds[i].detection.runtime == rs[j];
      DetectShape(ks[i], searchPath, exec);
    }
  }
}
