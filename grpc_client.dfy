/** The client side of the watcher service: a connection plus the API key
    to send. The RPC itself is an input (what the server answers to the
    context and request sent), and so is the outcome of closing the
    connection. */
module GrpcClient {
  import opened Wrappers
  import opened Runtimes
  import opened Auth
  import opened Registry
  import GrpcServer

  /** `Client`: whether a connection is held, and the key to send. */
  datatype Client = Client(connected: bool, apiKey: string)

  /** The request of `ObserveRuntimes`: an optional runtime filter. */
  datatype ObserveRequest = ObserveRequest(runtimeFilter: seq<string>)

  /** The remote procedure: the server's answer, or the transport's error,
      for a call context and a request. */
  type Rpc = (Context, ObserveRequest) -> Outcome<GrpcServer.ObserveResponse>

  /** `Close`: nothing to do without a connection; otherwise the error of
      closing it, if any. */
  function Close(c: Client, closeError: Option<string>): (err: Option<string>)
    ensures !c.connected ==> err == None
    ensures c.connected ==> err == closeError
  {
    if c.connected then closeError else None
  }

  /** The context a call is made with: the key is injected only when the
      client has a non-empty one. */
  function CallContext(c: Client, ctx: Context): (r: Context)
    ensures c.apiKey == "" ==> r == ctx
    ensures c.apiKey != "" ==> r == InjectAPIKey(ctx, c.apiKey)
  {
    if c.apiKey != "" then InjectAPIKey(ctx, c.apiKey) else ctx
  }

  /** A client with a key makes the server see exactly that key; a client
      without one adds no header, so a server receiving a context without
      incoming metadata finds no key. */
  lemma ClientSendsKey(c: Client, ctx: Context)
    ensures c.apiKey != "" ==> ExtractAPIKey(Received(CallContext(c, ctx))) == Ok(c.apiKey)
    ensures c.apiKey == "" && ctx.outgoing.None? ==> ExtractAPIKey(Received(CallContext(c, ctx))).Err?
  {
    if c.apiKey != "" {
      ExtractOfInjected(ctx, c.apiKey);
    }
  }

  /** The found entries of a response, in response order. */
  function KeepFound(rs: seq<Runtime>): (r: seq<Runtime>)
    ensures |r| <= |rs|
    ensures forall i | 0 <= i < |r| :: r[i].found
  {
    if rs == [] then []
    else if rs[0].found then [rs[0]] + KeepFound(rs[1..])
    else KeepFound(rs[1..])
  }

  /** A runtime is kept exactly when the response holds it as found. */
  lemma {:induction false} KeepFoundMember(rs: seq<Runtime>, x: Runtime)
    ensures x in KeepFound(rs) <==> x in rs && x.found
  {
    if rs != [] {
      KeepFoundMember(rs[1..], x);
      assert rs == [rs[0]] + rs[1..];
    }
  }

  lemma {:induction false} KeepFoundAppend(a: seq<Runtime>, b: seq<Runtime>)
    ensures KeepFound(a + b) == KeepFound(a) + KeepFound(b)
  {
    if a == [] {
      assert a + b == b;
    } else {
      assert (a + b)[0] == a[0];
      assert (a + b)[1..] == a[1..] + b;
      KeepFoundAppend(a[1..], b);
    }
  }

  /** A response from this repository's server has only found entries, so
      the client's filter keeps all of them. */
  lemma {:induction false} KeepFoundOfServer(ds: seq<Detector>)
    ensures KeepFound(FoundRuntimes(ds)) == FoundRuntimes(ds)
  {
    if ds != [] {
      KeepFoundOfServer(ds[1..]);
      if Reported(ds[0]) {
        var rs := FoundRuntimes(ds);
        assert rs == [ds[0].detection.runtime] + FoundRuntimes(ds[1..]);
        assert rs[0].found && rs[1..] == FoundRuntimes(ds[1..]);
      }
    }
  }

  /** `Client.ObserveRuntimes`: one call with an empty request, under the
      key when there is one. A transport error is wrapped and gives no
      runtimes; otherwise the found entries are copied, in order. */
  method ObserveRuntimes(c: Client, ctx: Context, rpc: Rpc) returns (runtimes: seq<Runtime>, err: Option<string>)
    ensures match rpc(CallContext(c, ctx), ObserveRequest([]))
      case Err(e) => runtimes == [] && err == Some("RPC call failed: " + e)
      case Ok(resp) => runtimes == KeepFound(resp.runtimes) && err == None
  {
    var callCtx := ctx;
    if c.apiKey != "" {
      callCtx := InjectAPIKey(ctx, c.apiKey);
    }
    var req := ObserveRequest([]);
    match rpc(callCtx, req)
    case Err(e) =>
      return [], Some("RPC call failed: " + e);
    case Ok(resp) =>
      runtimes := [];
      var i := 0;
      while i < |resp.runtimes|
        invariant 0 <= i <= |resp.runtimes|
        invariant runtimes == KeepFound(resp.runtimes[..i])
      {
        var p := resp.runtimes[i];
        assert resp.runtimes[..i + 1] == resp.runtimes[..i] + [p];
        KeepFoundAppend(resp.runtimes[..i], [p]);
        if p.found {
          runtimes := runtimes + [Runtime(p.name, p.version, p.path, p.found)];
        }
        i := i + 1;
      }
      assert resp.runtimes[..i] == resp.runtimes;
      err := None;
  }

  /** The record returned for a runtime the server did not report. */
  function NotFound(name: string): (r: Runtime)
    ensures r.name == name && !r.found
  {
    Runtime(name, "", "", false)
  }

  /** The position of the first runtime with the given name, if any. */
  function FirstNamed(rs: seq<Runtime>, name: string): (r: Option<nat>)
    ensures r.Some? ==> r.value < |rs| && rs[r.value].name == name
    ensures r.Some? ==> forall k | 0 <= k < r.value :: rs[k].name != name
    ensures r.None? <==> forall k | 0 <= k < |rs| :: rs[k].name != name
  {
    if rs == [] then None
    else if rs[0].name == name then Some(0)
    else match FirstNamed(rs[1..], name)
      case None => None
      case Some(k) => Some(k + 1)
  }

  /** The first runtime with the given name, or the not-found record. */
  function Lookup(rs: seq<Runtime>, name: string): (r: Runtime)
    ensures r.name == name
    ensures (exists i | 0 <= i < |rs| :: rs[i].name == name) ==>
      exists i | 0 <= i < |rs| :: rs[i] == r && forall k | 0 <= k < i :: rs[k].name != name
    ensures (forall i | 0 <= i < |rs| :: rs[i].name != name) ==> r == NotFound(name)
  {
    match FirstNamed(rs, name)
    case None => NotFound(name)
    case Some(i) => rs[i]
  }

  /** `Client.ObserveRuntime`: an error from `ObserveRuntimes` is passed on
      unchanged; otherwise the first runtime with the requested name, or a
      record saying it was not found. Not finding it is not an error. */
  method ObserveRuntime(c: Client, ctx: Context, name: string, rpc: Rpc) returns (runtime: Option<Runtime>, err: Option<string>)
    ensures match rpc(CallContext(c, ctx), ObserveRequest([]))
      case Err(e) => runtime.None? && err == Some("RPC call failed: " + e)
      case Ok(resp) => runtime == Some(Lookup(KeepFound(resp.runtimes), name)) && err == None
  {
    var runtimes;
    runtimes, err := ObserveRuntimes(c, ctx, rpc);
    if err.Some? {
      return None, err;
    }
    var i := 0;
    while i < |runtimes|
      invariant 0 <= i <= |runtimes|
      invariant forall k | 0 <= k < i :: runtimes[k].name != name
    {
      if runtimes[i].name == name {
        return Some(runtimes[i]), None;
      }
      i := i + 1;
    }
    runtime := Some(NotFound(name));
  }

  /** Within a response whose names are distinct, a name picks out one
      runtime. */
  lemma SameNameSameRuntime(rs: seq<Runtime>, x: Runtime, y: Runtime)
    requires x in rs && y in rs && x.name == y.name
    requires forall i, j | 0 <= i < j < |rs| :: rs[i].name != rs[j].name
    ensures x == y
  {
    var a :| 0 <= a < |rs| && rs[a] == x;
    var b :| 0 <= b < |rs| && rs[b] == y;
    assert a == b;
  }

  /** A name the server reported as found is returned as it was reported;
      a name it did not report comes back as not found. */
  lemma LookupReported(rs: seq<Runtime>, r: Runtime)
    requires r in rs && r.found
    requires forall i, j | 0 <= i < j < |rs| :: rs[i].name != rs[j].name
    ensures Lookup(KeepFound(rs), r.name) == r
  {
    var kept := KeepFound(rs);
    KeepFoundMember(rs, r);
    var i :| 0 <= i < |kept| && kept[i] == r;
    var first := FirstNamed(kept, r.name).value;
    KeepFoundMember(rs, kept[first]);
    SameNameSameRuntime(rs, kept[first], r);
  }

  lemma LookupUnreported(rs: seq<Runtime>, name: string)
    requires forall i | 0 <= i < |rs| :: rs[i].name == name ==> !rs[i].found
    ensures Lookup(KeepFound(rs), name) == NotFound(name)
  {
    var kept := KeepFound(rs);
    forall k | 0 <= k < |kept|
      ensures kept[k].name != name
    {
      KeepFoundMember(rs, kept[k]);
    }
  }
}
