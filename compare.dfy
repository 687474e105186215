/** `compare runtimes` with five statuses: for every runtime any answering
    server reports, a row with one cell per server, "-" for a server that
    lacks it and "ERROR" for one that did not answer, classified as SAME,
    DIFF, PARTIAL, MISSING, ERROR or UNKNOWN. */
module Compare {
  import opened Wrappers
  import opened Text
  import opened Runtimes
  import opened Fleet

  /** The cell of a server that does not report the runtime. */
  const Absent: string := "-"

  /** The cell of a server that did not answer. */
  const Failed: string := "ERROR"

  datatype Status = Same | Diff | Partial | Missing | Error | Unknown

  /** The status as the command prints it. */
  function StatusText(s: Status): string {
    match s
    case Same => "SAME"
    case Diff => "DIFF"
    case Partial => "PARTIAL"
    case Missing => "MISSING"
    case Error => "ERROR"
    case Unknown => "UNKNOWN"
  }

  /** The distinct values of a row. */
  function Distinct(versions: seq<string>): set<string> {
    set v | v in versions
  }

  /** A row's status: UNKNOWN for an empty row; ERROR when a server did
      not answer, whatever else the row holds; MISSING when no server has
      the runtime and PARTIAL when some lack it; otherwise SAME for a
      single version and DIFF for several. */
  function Classify(versions: seq<string>): Status {
    if |versions| == 0 then Unknown
    else if Failed in versions then Error
    else if forall i | 0 <= i < |versions| :: versions[i] == Absent then Missing
    else if Absent in versions then Partial
    else if |Distinct(versions)| == 1 then Same
    else Diff
  }

  /** A value fills a sequence exactly when it occurs as often as the
      sequence is long. */
  lemma {:induction false} CountAll(s: seq<string>, x: string)
    ensures multiset(s)[x] == |s| <==> forall i | 0 <= i < |s| :: s[i] == x
  {
    if s != [] {
      var init := s[..|s| - 1];
      assert s == init + [s[|s| - 1]];
      CountAll(init, x);
      assert multiset(s)[x] == multiset(init)[x] + (if s[|s| - 1] == x then 1 else 0);
      assert multiset(init)[x] <= |init|;
      if forall i | 0 <= i < |init| :: init[i] == x {
        assert forall i | 0 <= i < |s| - 1 :: s[i] == init[i];
      } else {
        var k :| 0 <= k < |init| && init[k] != x;
        assert s[k] == init[k];
      }
    }
  }

  /** `determineStatus`: one pass counts the "-" and "ERROR" cells and
      tallies the other values; the counts then decide. */
  method DetermineStatus(versions: seq<string>) returns (status: Status)
    ensures status == Classify(versions)
  {
    if |versions| == 0 {
      return Unknown;
    }
    var nonEmptyVersions: map<string, int> := map[];
    var emptyCount := 0;
    var errorCount := 0;
    var i := 0;
    while i < |versions|
      invariant 0 <= i <= |versions|
      invariant emptyCount == multiset(versions[..i])[Absent]
      invariant errorCount == multiset(versions[..i])[Failed]
      invariant nonEmptyVersions.Keys == Distinct(versions[..i]) - {Absent, Failed}
      invariant forall v | v in nonEmptyVersions :: nonEmptyVersions[v] == multiset(versions[..i])[v]
    {
      var v := versions[i];
      assert versions[..i + 1] == versions[..i] + [v];
      if v == Absent {
        emptyCount := emptyCount + 1;
      } else if v == Failed {
        errorCount := errorCount + 1;
      } else if v in nonEmptyVersions {
        nonEmptyVersions := nonEmptyVersions[v := nonEmptyVersions[v] + 1];
      } else {
        nonEmptyVersions := nonEmptyVersions[v := 1];
      }
      i := i + 1;
    }
    assert versions[..i] == versions;
    CountAll(versions, Absent);
    if errorCount > 0 {
      return Error;
    }
    if emptyCount == |versions| {
      return Missing;
    }
    if emptyCount > 0 {
      return Partial;
    }
    assert nonEmptyVersions.Keys == Distinct(versions);
    if |nonEmptyVersions| == 1 {
      assert |nonEmptyVersions.Keys| == 1;
      return Same;
    }
    assert |nonEmptyVersions.Keys| != 1;
    return Diff;
  }

  /** One "ERROR" cell makes the row ERROR, whatever the other cells say. */
  lemma ErrorDominates(versions: seq<string>, i: nat)
    requires i < |versions| && versions[i] == Failed
    ensures Classify(versions) == Error
  {
  }

  /** Without "ERROR" and "-" cells, a row is SAME exactly when all its
      cells agree, and DIFF otherwise. */
  lemma SameIffAgree(versions: seq<string>)
    requires |versions| > 0 && Failed !in versions && Absent !in versions
    ensures Classify(versions) == Same <==> forall i | 0 <= i < |versions| :: versions[i] == versions[0]
    ensures Classify(versions) != Same ==> Classify(versions) == Diff
  {
    var d := Distinct(versions);
    assert versions[0] in d;
    if forall i | 0 <= i < |versions| :: versions[i] == versions[0] {
      assert d == {versions[0]};
    } else {
      var k :| 0 <= k < |versions| && versions[k] != versions[0];
      assert {versions[0], versions[k]} <= d;
      assert |{versions[0], versions[k]}| == 2;
      SubsetSize({versions[0], versions[k]}, d);
    }
  }

  lemma SubsetSize(a: set<string>, b: set<string>)
    requires a <= b
    ensures |a| <= |b|
  {
    assert b == a + (b - a);
  }

  /** The status depends only on which cells a row holds and how often,
      not on their order. */
  lemma OrderIrrelevant(a: seq<string>, b: seq<string>)
    requires multiset(a) == multiset(b)
    ensures Classify(a) == Classify(b)
  {
    assert |a| == |multiset(a)| == |b|;
    assert forall x :: x in a <==> x in b by {
      forall x
        ensures x in a <==> x in b
      {
        assert x in a <==> x in multiset(a);
        assert x in b <==> x in multiset(b);
      }
    }
    assert Distinct(a) == Distinct(b);
    CountAll(a, Absent);
    CountAll(b, Absent);
  }

  /** A row of the comparison: the runtime, its cells, its status. */
  datatype RuntimeComparison = RuntimeComparison(name: string, versions: seq<string>, status: Status)

  /** The row a runtime gets. */
  function Row(servers: seq<ServerRuntimes>, name: string): (r: RuntimeComparison)
    ensures r.name == name && |r.versions| == |servers|
  {
    var versions := VersionRow(servers, name, Absent);
    RuntimeComparison(name, versions, Classify(versions))
  }

  /** `hosts` and `rows` compare `servers`: a column per server, labelled
      by its host; a row per runtime name that some answering server
      reports, each once and in no particular order. */
  ghost predicate Compares(servers: seq<ServerRuntimes>, hosts: seq<string>, rows: seq<RuntimeComparison>) {
    && |hosts| == |servers|
    && (forall i | 0 <= i < |servers| :: hosts[i] == HostLabel(servers[i]))
    && (forall i, j | 0 <= i < j < |rows| :: rows[i].name != rows[j].name)
    && (forall i | 0 <= i < |rows| :: rows[i] == Row(servers, rows[i].name))
    && (forall n :: n in Names(servers) <==> exists i | 0 <= i < |rows| :: rows[i].name == n)
  }

  /** One row of `buildComparison`: the cells filled, then classified. */
  method BuildRow(servers: seq<ServerRuntimes>, name: string) returns (row: RuntimeComparison)
    ensures row == Row(servers, name)
  {
    var versions := FillRow(servers, name, Absent);
    var status := DetermineStatus(versions);
    row := RuntimeComparison(name, versions, status);
  }

  /** `rows` holds one row per name of `names`, each once. */
  ghost predicate RowsFor(servers: seq<ServerRuntimes>, names: set<string>, rows: seq<RuntimeComparison>) {
    && (forall i, j | 0 <= i < j < |rows| :: rows[i].name != rows[j].name)
    && (forall i | 0 <= i < |rows| :: rows[i] == Row(servers, rows[i].name))
    && (forall n :: n in names <==> exists i | 0 <= i < |rows| :: rows[i].name == n)
  }

  /** The row loop of `buildComparison`: the names are visited in no
      particular order, as Go's map iteration visits them. */
  method BuildRows(servers: seq<ServerRuntimes>, names: set<string>) returns (rows: seq<RuntimeComparison>)
    ensures RowsFor(servers, names, rows)
  {
    var remaining := names;
    rows := [];
    while remaining != {}
      invariant remaining <= names
      invariant RowsFor(servers, names - remaining, rows)
      decreases |remaining|
    {
      var name :| name in remaining;
      var row := BuildRow(servers, name);
      RowsForSnoc(servers, names - remaining, rows, row);
      assert names - (remaining - {name}) == (names - remaining) + {name};
      rows := rows + [row];
      remaining := remaining - {name};
    }
    assert names - remaining == names;
  }

  /** A row for a name not covered yet extends the rows to that name. */
  lemma RowsForSnoc(servers: seq<ServerRuntimes>, done: set<string>, rows: seq<RuntimeComparison>, row: RuntimeComparison)
    requires RowsFor(servers, done, rows)
    requires row.name !in done && row == Row(servers, row.name)
    ensures RowsFor(servers, done + {row.name}, rows + [row])
  {
    var after := rows + [row];
    forall n | n in done + {row.name}
      ensures exists i | 0 <= i < |after| :: after[i].name == n
    {
      if n == row.name {
        assert after[|rows|].name == n;
      } else {
        var i :| 0 <= i < |rows| && rows[i].name == n;
        assert after[i] == rows[i];
      }
    }
  }

  /** `buildComparison`: the row names are collected from the servers that
      answered, then each row is filled and classified, and the columns
      labelled. */
  method BuildComparison(servers: seq<ServerRuntimes>) returns (hosts: seq<string>, rows: seq<RuntimeComparison>)
    ensures Compares(servers, hosts, rows)
  {
    var names := CollectNames(servers);
    rows := BuildRows(servers, names);
    hosts := LabelHosts(servers);
  }

  /** A server that did not answer turns every row into ERROR. */
  lemma FailedServerPoisonsRows(servers: seq<ServerRuntimes>, hosts: seq<string>, rows: seq<RuntimeComparison>, k: nat)
    requires Compares(servers, hosts, rows)
    requires k < |servers| && servers[k].error.Some?
    ensures forall i | 0 <= i < |rows| :: rows[i].status == Error
  {
    forall i | 0 <= i < |rows|
      ensures rows[i].status == Error
    {
      ErrorDominates(rows[i].versions, k);
    }
  }

  /** What `runCompareRuntimes` ends with: no hosts given, no host
      answering, or the comparison of the hosts that answered. */
  datatype Result = NoHosts | AllFailed | Compared(hosts: seq<string>, rows: seq<RuntimeComparison>)

  /** `runCompareRuntimes`: every host is fetched, the ones that failed are
      dropped, and only the answering ones are compared; when none
      answered, nothing is built. */
  method RunCompareRuntimes(hosts: seq<string>, answers: nat -> Outcome<seq<Runtime>>) returns (outcome: Result)
    ensures |hosts| == 0 <==> outcome == NoHosts
    ensures |hosts| > 0 ==>
      var ok := Successful(FetchedAll(hosts, answers));
      && (ok == [] <==> outcome == AllFailed)
      && (outcome.Compared? ==> Compares(ok, outcome.hosts, outcome.rows))
  {
    if |hosts| == 0 {
      return NoHosts;
    }
    var serverResults := FetchAllServers(hosts, answers);
    var successfulServers := KeepSuccessful(serverResults[..]);
    if |successfulServers| == 0 {
      return AllFailed;
    }
    var labels, rows := BuildComparison(successfulServers);
    outcome := Compared(labels, rows);
  }

  /** In what `runCompareRuntimes` shows, no column is marked as failed and
      a row is ERROR only when a server reported the version "ERROR" as
      such: the failed hosts never reach the comparison. */
  lemma NoFailuresShown(servers: seq<ServerRuntimes>, hosts: seq<string>, rows: seq<RuntimeComparison>)
    requires forall i | 0 <= i < |servers| :: servers[i].error.None?
    requires Compares(servers, hosts, rows)
    ensures forall i | 0 <= i < |servers| :: hosts[i] == UpToFirst(servers[i].host, ':')
    ensures forall j | 0 <= j < |rows| && rows[j].status == Error ::
      exists i | 0 <= i < |servers| :: rows[j].name in servers[i].runtimes && servers[i].runtimes[rows[j].name].version == Failed
  {
    forall j | 0 <= j < |rows| && rows[j].status == Error
      ensures exists i | 0 <= i < |servers| :: rows[j].name in servers[i].runtimes && servers[i].runtimes[rows[j].name].version == Failed
    {
      var v := rows[j].versions;
      assert Failed in v;
      var i :| 0 <= i < |v| && v[i] == Failed;
      assert v[i] == Slot(servers[i], rows[j].name, Absent);
    }
  }
}
