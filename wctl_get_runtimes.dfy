/** `wctl get runtimes`: the runtimes found on this machine, or those a
    remote server reports. The detectors and the remote client are inputs,
    as the command's swappable providers make them in its tests. */
module WctlGetRuntimes {
  import opened Wrappers
  import opened Runtimes
  import opened Registry
  import GrpcClient
  import GrpcServer

  /** `observeLocalRuntimes`: each detector runs in order; one that fails is
      skipped without ending the loop, and each found runtime is kept. */
  method ObserveLocalRuntimes(detectors: seq<Detector>) returns (runtimes: seq<Runtime>)
    ensures runtimes == FoundRuntimes(detectors)
  {
    runtimes := [];
    var i := 0;
    while i < |detectors|
      invariant 0 <= i <= |detectors|
      invariant runtimes == FoundRuntimes(detectors[..i])
    {
      var d := detectors[i].detection;
      assert detectors[..i + 1] == detectors[..i] + [detectors[i]];
      FoundRuntimesAppend(detectors[..i], [detectors[i]]);
      if d.err.None? && d.runtime.found {
        runtimes := runtimes + [d.runtime];
      }
      i := i + 1;
    }
    assert detectors[..i] == detectors;
  }

  /** A local observation reports what the server reports for an
      unfiltered request on the same machine. */
  lemma LocalMatchesServer(detectors: seq<Detector>)
    ensures FoundRuntimes(detectors) == FoundRuntimes(GrpcServer.Selected(detectors, []))
  {
  }

  /** The calls made on a client, in order. */
  datatype ClientCall = ObserveCall | CloseCall

  /** `observeRemoteRuntimes`. `connect` is what the client factory gives
      (a connection error, or none) and `observed` what the client's
      `ObserveRuntimes` answers. A factory error is returned and no client
      call is made; otherwise the client is asked once and then closed,
      even when the call fails, and its answer is returned unchanged. */
  method ObserveRemoteRuntimes(connect: Option<string>, observed: Outcome<seq<Runtime>>)
    returns (runtimes: seq<Runtime>, err: Option<string>, calls: seq<ClientCall>)
    ensures connect.Some? ==> runtimes == [] && err == connect && calls == []
    ensures connect.None? ==> calls == [ObserveCall, CloseCall]
    ensures connect.None? && observed.Err? ==> runtimes == [] && err == Some(observed.msg)
    ensures connect.None? && observed.Ok? ==> runtimes == observed.value && err == None
  {
    calls := [];
    if connect.Some? {
      return [], connect, calls;
    }
    calls := calls + [ObserveCall];
    match observed {
      case Err(e) =>
        runtimes, err := [], Some(e);
      case Ok(rs) =>
        runtimes, err := rs, None;
    }
    calls := calls + [CloseCall];
  }

  /** Through the real client, every runtime a remote observation returns
      is a found one: the client already dropped the others. */
  lemma RemoteRuntimesAreFound(resp: GrpcServer.ObserveResponse, r: Runtime)
    requires r in GrpcClient.KeepFound(resp.runtimes)
    ensures r.found && r in resp.runtimes
  {
    GrpcClient.KeepFoundMember(resp.runtimes, r);
  }
}
