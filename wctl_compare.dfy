/** `wctl compare runtimes`: the same comparison with three statuses. A
    row's cells are read left to right: "x" (a server lacking the runtime)
    is passed over, the first other value sets the baseline, and the first
    value differing from it decides the row. The result therefore depends
    on the order of the servers. */
module WctlCompare {
  import opened Wrappers
  import opened Text
  import opened Runtimes
  import opened Fleet

  /** The cell of a server that does not report the runtime. */
  const Absent: string := "x"

  /** The cell of a server that did not answer. */
  const Failed: string := "ERROR"

  datatype Status = Match | Mismatch | Unknown

  /** The status as the command prints it. */
  function StatusText(s: Status): string {
    match s
    case Match => "MATCH"
    case Mismatch => "MISMATCH"
    case Unknown => "UNKNOWN"
  }

  /** The first position at or after `from` whose cell is not in `skip`. */
  function FirstOther(versions: seq<string>, from: nat, skip: set<string>): (r: Option<nat>)
    requires from <= |versions|
    ensures r.Some? ==> from <= r.value < |versions| && versions[r.value] !in skip
    ensures r.Some? ==> forall k | from <= k < r.value :: versions[k] in skip
    ensures r.None? <==> forall k | from <= k < |versions| :: versions[k] in skip
    decreases |versions| - from
  {
    if from == |versions| then None
    else if versions[from] !in skip then Some(from)
    else FirstOther(versions, from + 1, skip)
  }

  /** A row's status. The baseline is the first cell that is neither "x"
      nor empty (an empty cell there reads as "no baseline yet"); after it,
      the first cell that is neither "x" nor the baseline is the deviation.
      Reaching "ERROR" first, as baseline or as deviation, makes the row
      UNKNOWN; a deviation that is a version makes it MISMATCH; no
      deviation makes it MATCH, and no baseline at all UNKNOWN. */
  function Classify(versions: seq<string>): Status {
    match FirstOther(versions, 0, {Absent, ""})
    case None => Unknown
    case Some(b) =>
      if versions[b] == Failed then Unknown
      else match FirstOther(versions, b + 1, {Absent, versions[b]})
        case None => Match
        case Some(d) => if versions[d] == Failed then Unknown else Mismatch
  }

  /** `determineStatus`: the left-to-right scan with early returns. */
  method DetermineStatus(versions: seq<string>) returns (status: Status)
    ensures status == Classify(versions)
  {
    if |versions| == 0 {
      return Unknown;
    }
    var baseVersion := "";
    var i := 0;
    while i < |versions|
      invariant 0 <= i <= |versions|
      invariant baseVersion == "" ==> forall k | 0 <= k < i :: versions[k] in {Absent, ""}
      invariant baseVersion != "" ==>
        var b := FirstOther(versions, 0, {Absent, ""});
        && b.Some? && b.value < i && versions[b.value] == baseVersion && baseVersion != Failed
        && (forall k | b.value < k < i :: versions[k] in {Absent, baseVersion})
    {
      var version := versions[i];
      if version == Failed {
        return Unknown;
      }
      if version == Absent {
        i := i + 1;
        continue;
      }
      if baseVersion == "" {
        baseVersion := version;
        i := i + 1;
        continue;
      }
      if version != baseVersion {
        return Mismatch;
      }
      i := i + 1;
    }
    if baseVersion == "" {
      return Unknown;
    }
    return Match;
  }

  /** An empty row is UNKNOWN, and so is a row of servers all lacking the
      runtime. */
  lemma NothingToCompare(versions: seq<string>)
    requires forall k | 0 <= k < |versions| :: versions[k] == Absent
    ensures Classify(versions) == Unknown
  {
  }

  /** Servers lacking the runtime do not spoil a match: when every other
      cell holds the same version, the row is MATCH. */
  lemma AgreementMatches(versions: seq<string>, v: string)
    requires v != Absent && v != "" && v != Failed && v in versions
    requires forall k | 0 <= k < |versions| :: versions[k] in {Absent, v}
    ensures Classify(versions) == Match
  {
  }

  /** "ERROR" counts only when it is reached before a mismatch. */
  lemma ErrorOrderMatters()
    ensures Classify(["1", "2", "ERROR"]) == Mismatch
    ensures Classify(["ERROR", "1", "2"]) == Unknown
  {
    var a := ["1", "2", "ERROR"];
    assert FirstOther(a, 0, {Absent, ""}) == Some(0);
    assert FirstOther(a, 1, {Absent, "1"}) == Some(1);
    var b := ["ERROR", "1", "2"];
    assert FirstOther(b, 0, {Absent, ""}) == Some(0);
  }

  /** An empty version is passed over before the baseline but is a
      mismatch after it: the scan uses "" to mean "no baseline yet". */
  lemma EmptyVersionBeforeAndAfter()
    ensures Classify(["", "1"]) == Match
    ensures Classify(["1", ""]) == Mismatch
  {
    var a := ["", "1"];
    assert FirstOther(a, 0, {Absent, ""}) == Some(1);
    var b := ["1", ""];
    assert FirstOther(b, 0, {Absent, ""}) == Some(0);
    assert FirstOther(b, 1, {Absent, "1"}) == Some(1);
  }

  /** A row of the comparison: the runtime, its cells, its status. */
  datatype RuntimeComparison = RuntimeComparison(name: string, versions: seq<string>, status: Status)

  /** The row a runtime gets. */
  function Row(servers: seq<ServerRuntimes>, name: string): (r: RuntimeComparison)
    ensures r.name == name && |r.versions| == |servers|
  {
    var versions := VersionRow(servers, name, Absent);
    RuntimeComparison(name, versions, Classify(versions))
  }

  /** `rows` holds one row per name of `names`, each once. */
  ghost predicate RowsFor(servers: seq<ServerRuntimes>, names: set<string>, rows: seq<RuntimeComparison>) {
    && (forall i, j | 0 <= i < j < |rows| :: rows[i].name != rows[j].name)
    && (forall i | 0 <= i < |rows| :: rows[i] == Row(servers, rows[i].name))
    && (forall n :: n in names <==> exists i | 0 <= i < |rows| :: rows[i].name == n)
  }

  /** `hosts` and `rows` compare `servers`: a column per server, labelled
      by its host; a row per runtime name that some answering server
      reports, each once and in no particular order. */
  ghost predicate Compares(servers: seq<ServerRuntimes>, hosts: seq<string>, rows: seq<RuntimeComparison>) {
    && |hosts| == |servers|
    && (forall i | 0 <= i < |servers| :: hosts[i] == HostLabel(servers[i]))
    && RowsFor(servers, Names(servers), rows)
  }

  /** One row of `buildComparison`: the cells filled, then classified. */
  method BuildRow(servers: seq<ServerRuntimes>, name: string) returns (row: RuntimeComparison)
    ensures row == Row(servers, name)
  {
    var versions := FillRow(servers, name, Absent);
    var status := DetermineStatus(versions);
    row := RuntimeComparison(name, versions, status);
  }

  /** The row loop of `buildComparison`, over the names in no particular
      order. */
  method BuildRows(servers: seq<ServerRuntimes>, names: set<string>) returns (rows: seq<RuntimeComparison>)
    ensures RowsFor(servers, names, rows)
  {
    var remaining := names;
    rows := [];
    while remaining != {}
      invariant remaining <= names
      invariant RowsFor(servers, names - remaining, rows)
      decreases |remaining|
    {
      var name :| name in remaining;
      var row := BuildRow(servers, name);
      RowsForSnoc(servers, names - remaining, rows, row);
      assert names - (remaining - {name}) == (names - remaining) + {name};
      rows := rows + [row];
      remaining := remaining - {name};
    }
    assert names - remaining == names;
  }

  /** A row for a name not covered yet extends the rows to that name. */
  lemma RowsForSnoc(servers: seq<ServerRuntimes>, done: set<string>, rows: seq<RuntimeComparison>, row: RuntimeComparison)
    requires RowsFor(servers, done, rows)
    requires row.name !in done && row == Row(servers, row.name)
    ensures RowsFor(servers, done + {row.name}, rows + [row])
  {
    var after := rows + [row];
    forall n | n in done + {row.name}
      ensures exists i | 0 <= i < |after| :: after[i].name == n
    {
      if n == row.name {
        assert after[|rows|].name == n;
      } else {
        var i :| 0 <= i < |rows| && rows[i].name == n;
        assert after[i] == rows[i];
      }
    }
  }

  /** `buildComparison`. */
  method BuildComparison(servers: seq<ServerRuntimes>) returns (hosts: seq<string>, rows: seq<RuntimeComparison>)
    ensures Compares(servers, hosts, rows)
  {
    var names := CollectNames(servers);
    rows := BuildRows(servers, names);
    hosts := LabelHosts(servers);
  }

  /** A row's cells: "ERROR" for a server that did not answer, the version
      it reported, or "x" (not "-") when it lacks the runtime. */
  lemma RowCells(servers: seq<ServerRuntimes>, name: string, i: nat)
    requires i < |servers|
    ensures var v := Row(servers, name).versions[i];
      && (servers[i].error.Some? ==> v == Failed)
      && (servers[i].error.None? && name in servers[i].runtimes ==> v == servers[i].runtimes[name].version)
      && (servers[i].error.None? && name !in servers[i].runtimes ==> v == "x")
  {
  }

  /** The number of rows with a given status. */
  function CountStatus(rows: seq<RuntimeComparison>, s: Status): (n: nat)
    ensures n <= |rows|
  {
    if rows == [] then 0
    else CountStatus(rows[..|rows| - 1], s) + (if rows[|rows| - 1].status == s then 1 else 0)
  }

  /** Every row has one of the three statuses, so the counts add up. */
  lemma {:induction false} CountsAddUp(rows: seq<RuntimeComparison>)
    ensures CountStatus(rows, Match) + CountStatus(rows, Mismatch) + CountStatus(rows, Unknown) == |rows|
  {
    if rows != [] {
      CountsAddUp(rows[..|rows| - 1]);
    }
  }

  /** The summary's four numbers. */
  datatype Summary = Summary(total: nat, matching: int, mismatched: nat, unknown: nat)

  /** `printSummary`: the MISMATCH and UNKNOWN rows are counted, and the
      matching ones are what is left; that is exactly the MATCH rows. */
  method PrintSummary(rows: seq<RuntimeComparison>) returns (summary: Summary)
    ensures summary.total == |rows|
    ensures summary.mismatched == CountStatus(rows, Mismatch)
    ensures summary.unknown == CountStatus(rows, Unknown)
    ensures summary.matching == CountStatus(rows, Match)
  {
    var mismatched := 0;
    var unknown := 0;
    var i := 0;
    while i < |rows|
      invariant 0 <= i <= |rows|
      invariant mismatched == CountStatus(rows[..i], Mismatch)
      invariant unknown == CountStatus(rows[..i], Unknown)
    {
      assert rows[..i + 1][..i] == rows[..i];
      match rows[i].status {
        case Mismatch => mismatched := mismatched + 1;
        case Unknown => unknown := unknown + 1;
        case Match =>
      }
      i := i + 1;
    }
    assert rows[..i] == rows;
    CountsAddUp(rows);
    summary := Summary(|rows|, |rows| - mismatched - unknown, mismatched, unknown);
  }

  /** The host addresses with their surrounding white space trimmed, in
      place. */
  method TrimHosts(hosts: array<string>)
    modifies hosts
    ensures forall i | 0 <= i < hosts.Length :: hosts[i] == TrimSpace(old(hosts[i]))
  {
    var i := 0;
    while i < hosts.Length
      invariant 0 <= i <= hosts.Length
      invariant forall k | 0 <= k < i :: hosts[k] == TrimSpace(old(hosts[k]))
      invariant forall k | i <= k < hosts.Length :: hosts[k] == old(hosts[k])
    {
      hosts[i] := TrimSpace(hosts[i]);
      i := i + 1;
    }
  }

  /** What `runCompareRuntimes` ends with. */
  datatype Result = NoHosts | AllFailed | Compared(hosts: seq<string>, rows: seq<RuntimeComparison>)

  /** `runCompareRuntimes`: the addresses are trimmed in place, every host
      is fetched, the ones that failed are dropped, and only the answering
      ones are compared. */
  method RunCompareRuntimes(hosts: array<string>, answers: nat -> Outcome<seq<Runtime>>) returns (outcome: Result)
    modifies hosts
    ensures forall i | 0 <= i < hosts.Length :: hosts[i] == TrimSpace(old(hosts[i]))
    ensures hosts.Length == 0 <==> outcome == NoHosts
    ensures hosts.Length > 0 ==>
      var ok := Successful(FetchedAll(hosts[..], answers));
      && (ok == [] <==> outcome == AllFailed)
      && (outcome.Compared? ==> Compares(ok, outcome.hosts, outcome.rows))
  {
    TrimHosts(hosts);
    if hosts.Length == 0 {
      return NoHosts;
    }
    var serverResults := FetchAllServers(hosts[..], answers);
    var successfulServers := KeepSuccessful(serverResults[..]);
    if |successfulServers| == 0 {
      return AllFailed;
    }
    var labels, rows := BuildComparison(successfulServers);
    outcome := Compared(labels, rows);
  }
}
