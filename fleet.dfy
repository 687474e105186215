/** What the two `compare runtimes` commands share: the result of asking
    one server for its runtimes, the fetch of every host into its own
    result slot, and the pieces of a comparison that do not depend on how
    a row is classified. The fetches run one after another here; what each
    host answers is an input, by host index. */
module Fleet {
  import opened Wrappers
  import opened Text
  import opened Runtimes

  /** `ServerRuntimes`: a host, its runtimes by name, and the error that
      ended the fetch, if any. */
  datatype ServerRuntimes = ServerRuntimes(host: string, runtimes: map<string, Runtime>, error: Option<string>)

  /** The runtimes of a list by name; a later runtime with the same name
      replaces an earlier one. */
  function ByName(rs: seq<Runtime>): (m: map<string, Runtime>)
    ensures forall n :: n in m <==> exists i | 0 <= i < |rs| :: rs[i].name == n
    ensures forall n | n in m :: m[n].name == n && m[n] in rs
  {
    if rs == [] then map[]
    else
      var init := rs[..|rs| - 1];
      var last := rs[|rs| - 1];
      assert forall i | 0 <= i < |init| :: init[i] == rs[i];
      assert forall x | x in init :: x in rs;
      ByName(init)[last.name := last]
  }

  /** The runtime a list holds under a name it holds once is that one. */
  lemma ByNameOfDistinct(rs: seq<Runtime>, i: nat)
    requires i < |rs|
    requires forall a, b | 0 <= a < b < |rs| :: rs[a].name != rs[b].name
    ensures ByName(rs)[rs[i].name] == rs[i]
  {
    var m := ByName(rs);
    var j :| 0 <= j < |rs| && m[rs[i].name] == rs[j];
    assert rs[j].name == rs[i].name;
    assert j == i;
  }

  /** One goroutine of `fetchAllServers`: an error, from connecting or from
      the call, is recorded with the host; otherwise the runtimes are
      indexed by name. */
  method FetchServer(host: string, answer: Outcome<seq<Runtime>>) returns (s: ServerRuntimes)
    ensures s.host == host
    ensures answer.Err? ==> s == ServerRuntimes(host, map[], Some(answer.msg))
    ensures answer.Ok? ==> s == ServerRuntimes(host, ByName(answer.value), None)
  {
    match answer {
      case Err(e) =>
        return ServerRuntimes(host, map[], Some(e));
      case Ok(rs) =>
        var runtimeMap: map<string, Runtime> := map[];
        var i := 0;
        while i < |rs|
          invariant 0 <= i <= |rs|
          invariant runtimeMap == ByName(rs[..i])
        {
          assert rs[..i + 1][..i] == rs[..i];
          runtimeMap := runtimeMap[rs[i].name := rs[i]];
          i := i + 1;
        }
        assert rs[..i] == rs;
        s := ServerRuntimes(host, runtimeMap, None);
    }
  }

  /** The result of fetching host `i` with answer `a`. */
  function Fetched(host: string, a: Outcome<seq<Runtime>>): (s: ServerRuntimes)
    ensures s.host == host && (s.error.Some? <==> a.Err?)
  {
    match a
    case Err(e) => ServerRuntimes(host, map[], Some(e))
    case Ok(rs) => ServerRuntimes(host, ByName(rs), None)
  }

  /** Every host fetched, each into its own position. */
  function FetchedAll(hosts: seq<string>, answers: nat -> Outcome<seq<Runtime>>): (results: seq<ServerRuntimes>)
    ensures |results| == |hosts|
    ensures forall i | 0 <= i < |hosts| :: results[i] == Fetched(hosts[i], answers(i))
  {
    seq(|hosts|, i requires 0 <= i < |hosts| => Fetched(hosts[i], answers(i)))
  }

  /** `fetchAllServers`: one result slot per host, written only by that
      host's fetch, so results stay aligned with the host list. */
  method FetchAllServers(hosts: seq<string>, answers: nat -> Outcome<seq<Runtime>>) returns (results: array<ServerRuntimes>)
    ensures fresh(results)
    ensures results[..] == FetchedAll(hosts, answers)
    ensures forall i | 0 <= i < |hosts| :: results[i].host == hosts[i]
  {
    results := new ServerRuntimes[|hosts|];
    var i := 0;
    while i < |hosts|
      invariant 0 <= i <= |hosts|
      invariant forall k | 0 <= k < i :: results[k] == Fetched(hosts[k], answers(k))
      modifies results
    {
      var s := FetchServer(hosts[i], answers(i));
      results[i] := s;
      i := i + 1;
    }
  }

  /** The servers that answered, in host order: the success filter of
      `runCompareRuntimes`. */
  function Successful(results: seq<ServerRuntimes>): (ok: seq<ServerRuntimes>)
    ensures |ok| <= |results|
    ensures forall i | 0 <= i < |ok| :: ok[i].error.None? && ok[i] in results
    ensures forall s | s in results && s.error.None? :: s in ok
  {
    if results == [] then []
    else
      var rest := Successful(results[1..]);
      assert forall s | s in results[1..] :: s in results;
      if results[0].error.None? then [results[0]] + rest else rest
  }

  /** The success filter as `runCompareRuntimes` runs it. */
  method KeepSuccessful(results: seq<ServerRuntimes>) returns (ok: seq<ServerRuntimes>)
    ensures ok == Successful(results)
  {
    ok := [];
    var i := |results|;
    while i > 0
      invariant 0 <= i <= |results|
      invariant ok == Successful(results[i..])
    {
      i := i - 1;
      assert results[i..][1..] == results[i + 1..];
      if results[i].error.None? {
        ok := [results[i]] + ok;
      }
    }
  }

  /** The runtime names of the servers that answered: the rows of a
      comparison. */
  function Names(servers: seq<ServerRuntimes>): (ns: set<string>)
    ensures forall n :: n in ns <==> exists i | 0 <= i < |servers| :: servers[i].error.None? && n in servers[i].runtimes
  {
    if servers == [] then {}
    else
      var init := servers[..|servers| - 1];
      var last := servers[|servers| - 1];
      assert forall i | 0 <= i < |init| :: init[i] == servers[i];
      Names(init) + (if last.error.None? then last.runtimes.Keys else {})
  }

  /** A host's column label: the text before its first ':', marked when the
      server did not answer. */
  function HostLabel(s: ServerRuntimes): (column: string)
    ensures s.error.None? ==> column == UpToFirst(s.host, ':')
    ensures s.error.Some? ==> column == UpToFirst(s.host, ':') + " (ERR)"
    ensures ':' !in column
  {
    var h := UpToFirst(s.host, ':');
    if s.error.Some? then h + " (ERR)" else h
  }

  /** A server's cell in a runtime's row: "ERROR" when it did not answer,
      the version it reported, or the `absent` mark. */
  function Slot(s: ServerRuntimes, name: string, absent: string): (v: string)
    ensures s.error.Some? ==> v == "ERROR"
    ensures s.error.None? && name in s.runtimes ==> v == s.runtimes[name].version
    ensures s.error.None? && name !in s.runtimes ==> v == absent
  {
    if s.error.Some? then "ERROR"
    else if name in s.runtimes then s.runtimes[name].version
    else absent
  }

  /** A runtime's row: one cell per server, in server order. */
  function VersionRow(servers: seq<ServerRuntimes>, name: string, absent: string): (row: seq<string>)
    ensures |row| == |servers|
    ensures forall i | 0 <= i < |servers| :: row[i] == Slot(servers[i], name, absent)
  {
    seq(|servers|, i requires 0 <= i < |servers| => Slot(servers[i], name, absent))
  }

  /** The loop that fills a runtime's row, cell by cell. */
  method FillRow(servers: seq<ServerRuntimes>, name: string, absent: string) returns (versions: seq<string>)
    ensures versions == VersionRow(servers, name, absent)
  {
    var cells := new string[|servers|];
    var i := 0;
    while i < |servers|
      invariant 0 <= i <= |servers|
      invariant forall k | 0 <= k < i :: cells[k] == Slot(servers[k], name, absent)
    {
      if servers[i].error.Some? {
        cells[i] := "ERROR";
      } else if name in servers[i].runtimes {
        cells[i] := servers[i].runtimes[name].version;
      } else {
        cells[i] := absent;
      }
      i := i + 1;
    }
    versions := cells[..];
  }

  /** The loop that labels the columns. */
  method LabelHosts(servers: seq<ServerRuntimes>) returns (hosts: seq<string>)
    ensures |hosts| == |servers|
    ensures forall i | 0 <= i < |servers| :: hosts[i] == HostLabel(servers[i])
  {
    var labels := new string[|servers|];
    var i := 0;
    while i < |servers|
      invariant 0 <= i <= |servers|
      invariant forall k | 0 <= k < i :: labels[k] == HostLabel(servers[k])
    {
      var hostPart := UpToFirst(servers[i].host, ':');
      if servers[i].error.Some? {
        labels[i] := hostPart + " (ERR)";
      } else {
        labels[i] := hostPart;
      }
      i := i + 1;
    }
    hosts := labels[..];
  }

  /** The loop that collects the row names from the servers that answered. */
  method CollectNames(servers: seq<ServerRuntimes>) returns (names: set<string>)
    ensures names == Names(servers)
  {
    names := {};
    var i := 0;
    while i < |servers|
      invariant 0 <= i <= |servers|
      invariant names == Names(servers[..i])
    {
      assert servers[..i + 1][..i] == servers[..i];
      if servers[i].error.None? {
        names := names + servers[i].runtimes.Keys;
      }
      i := i + 1;
    }
    assert servers[..i] == servers;
  }
}
