/** The registry's `nodes` table (src/main.rs) held in memory: one row per
    reserved node, updated in place by reservation, reports, renames and
    deletions. The rows are kept in insertion order, as SQLite's rowid
    keeps them; the store's clock, fresh ids and random draws come in as
    parameters. */
module NodeTable {
  import opened Common
  import opened Server
  import opened Tables

  /** A JSON object, as a map from member name to the member's serialised value. */
  type JsonObject = map<string, string>

  /** One row of `nodes`. */
  datatype Node = Node(
    id: string,
    token: string,
    nodeLabel: Option<string>,
    hostname: Option<string>,
    ipAddress: Option<string>,
    createdAt: real,
    lastSeen: Option<real>,
    meta: Option<JsonObject>,
    metrics: Option<JsonObject>)

  /** A column value that does not identify a host: NULL or the empty string. */
  predicate IsBlank(v: Option<string>) {
    v == None || v == Some("")
  }

  /** Two rows of a consistent table: the `id` primary key and the `token`
      UNIQUE constraint hold, and they do not share a hostname or an IP
      address unless that value is blank. */
  ghost predicate Distinct(a: Node, b: Node) {
    && a.id != b.id
    && a.token != b.token
    && (a.hostname == b.hostname ==> IsBlank(a.hostname))
    && (a.ipAddress == b.ipAddress ==> IsBlank(a.ipAddress))
  }

  ghost predicate WellFormed(rows: seq<Node>) {
    forall i, j :: 0 <= i < j < |rows| ==> Distinct(rows[i], rows[j])
  }

  predicate HasToken(rows: seq<Node>, token: string) {
    exists n :: n in rows && n.token == token
  }

  // ------------------------------------------------------------ table algebra

  /** Number of rows holding `token`: the row count a statement `WHERE token = ?` affects. */
  function CountToken(rows: seq<Node>, token: string): (c: nat)
    ensures c == 0 <==> !HasToken(rows, token)
  {
    var matching := Where(rows, (n: Node) => n.token == token);
    assert HasToken(rows, token) ==> |matching| > 0 by {
      if HasToken(rows, token) {
        var n :| n in rows && n.token == token;
        assert n in matching;
      }
    }
    assert |matching| > 0 ==> matching[0] in matching;
    |matching|
  }

  // ------------------------------------------------------------ reservation

  /** The row `create_node` inserts: identity and label only, so it has not
      reported and has no hostname or address yet. */
  function Reserved(id: string, token: string, nodeLabel: Option<string>, now: real): Node {
    Node(id, token, nodeLabel, None, None, now, None, None, None)
  }

  predicate IsFresh(rows: seq<Node>, id: string, token: string) {
    forall n :: n in rows ==> n.id != id && n.token != token
  }

  /** A freshly reserved node reads as pending, whatever the clock and the timeout. */
  lemma ReservedIsPending(id: string, token: string, nodeLabel: Option<string>, created: real,
                          now: real, offlineTimeout: nat)
    ensures DeriveStatus(Reserved(id, token, nodeLabel, created).lastSeen, now, offlineTimeout) == Pending
  {
  }

  lemma ReserveKeepsWellFormed(rows: seq<Node>, id: string, token: string, nodeLabel: Option<string>, now: real)
    requires WellFormed(rows)
    requires IsFresh(rows, id, token)
    ensures WellFormed(rows + [Reserved(id, token, nodeLabel, now)])
  {
    var after := rows + [Reserved(id, token, nodeLabel, now)];
    forall i, j | 0 <= i < j < |after| ensures Distinct(after[i], after[j]) {
      if j == |rows| {
        assert after[i] == rows[i] && rows[i] in rows;
      } else {
        assert after[i] == rows[i] && after[j] == rows[j];
      }
    }
  }

  // ------------------------------------------------------------ reports

  /** The report as `update_node_metrics` receives it: the hostname is always
      a string (possibly empty), the address is the resolved one. */
  datatype Report = Report(
    token: string,
    hostname: string,
    ip: string,
    meta: JsonObject,
    metrics: JsonObject)

  /** The SET clause of the report's UPDATE: hostname = COALESCE(hostname', hostname)
      (which always takes the reported string), label taken from the hostname
      only while NULL or empty, the rest overwritten. */
  function Apply(n: Node, report: Report, now: real): (r: Node)
    ensures r.id == n.id && r.token == n.token && r.createdAt == n.createdAt
    ensures !IsBlank(n.nodeLabel) ==> r.nodeLabel == n.nodeLabel
    ensures r.lastSeen == Some(now)
  {
    n.(hostname := Some(report.hostname),
       nodeLabel := if IsBlank(n.nodeLabel) then Some(report.hostname) else n.nodeLabel,
       ipAddress := Some(report.ip),
       meta := Some(report.meta),
       metrics := Some(report.metrics),
       lastSeen := Some(now))
  }

  /** `UPDATE nodes SET … WHERE token = ?`. */
  function UpdateByToken(rows: seq<Node>, report: Report, now: real): (r: seq<Node>)
    ensures |r| == |rows|
  {
    seq(|rows|, i requires 0 <= i < |rows| =>
      if rows[i].token == report.token then Apply(rows[i], report, now) else rows[i])
  }

  /** The deduplication DELETE's WHERE clause: another token, and the same
      hostname or the same address as reported. Blank reported values are
      compared too: an empty reported hostname matches rows whose hostname
      is the empty string. */
  predicate Collides(n: Node, report: Report) {
    n.token != report.token &&
    (n.hostname == Some(report.hostname) || n.ipAddress == Some(report.ip))
  }

  /** The deduplication step; it runs only when the hostname or the address is non-empty. */
  function EvictDuplicates(rows: seq<Node>, report: Report): (r: seq<Node>)
    ensures |r| <= |rows|
    ensures forall n :: n in r ==> n in rows
    ensures report.hostname != "" || report.ip != "" ==> forall n :: n in r ==> !Collides(n, report)
  {
    if report.hostname != "" || report.ip != "" then Where(rows, (n: Node) => !Collides(n, report))
    else rows
  }

  /** The table after an accepted report. */
  function AfterReport(rows: seq<Node>, report: Report, now: real): (r: seq<Node>)
    ensures |r| <= |rows|
  {
    EvictDuplicates(UpdateByToken(rows, report, now), report)
  }

  /** On an accepted report, the reporting row survives and carries exactly
      the reported values, with `id`, `token` and `created_at` kept; its label
      is the hostname only if it had none. */
  lemma ReportUpdatesTheReporter(rows: seq<Node>, report: Report, now: real, k: nat)
    requires WellFormed(rows)
    requires k < |rows| && rows[k].token == report.token
    ensures exists n :: n in AfterReport(rows, report, now) && n.token == report.token
    ensures forall n :: n in AfterReport(rows, report, now) && n.token == report.token ==>
      && n.id == rows[k].id
      && n.createdAt == rows[k].createdAt
      && n.hostname == Some(report.hostname)
      && n.ipAddress == Some(report.ip)
      && n.meta == Some(report.meta)
      && n.metrics == Some(report.metrics)
      && n.lastSeen == Some(now)
      && n.nodeLabel == (if IsBlank(rows[k].nodeLabel) then Some(report.hostname) else rows[k].nodeLabel)
  {
    var updated := UpdateByToken(rows, report, now);
    assert updated[k] in updated;
    assert !Collides(updated[k], report);
    forall i | 0 <= i < |rows| && i != k ensures updated[i].token != report.token {
      if i < k { assert Distinct(rows[i], rows[k]); } else { assert Distinct(rows[k], rows[i]); }
    }
    forall n | n in AfterReport(rows, report, now) && n.token == report.token
      ensures n == Apply(rows[k], report, now)
    {
      assert n in updated;
      var i :| 0 <= i < |updated| && updated[i] == n;
    }
  }

  /** After a report with a non-empty hostname or address, no other row holds
      the reported hostname or the reported address. */
  lemma ReportLeavesNoDuplicates(rows: seq<Node>, report: Report, now: real)
    requires report.hostname != "" || report.ip != ""
    ensures forall n :: n in AfterReport(rows, report, now) && n.token != report.token ==>
      n.hostname != Some(report.hostname) && n.ipAddress != Some(report.ip)
  {
  }

  /** A report never touches a row of another token that shares neither
      the reported hostname nor the reported address, and every row of
      another token left afterwards was there before, unchanged. */
  lemma ReportSparesBystanders(rows: seq<Node>, report: Report, now: real)
    ensures forall n :: n in rows && !Collides(n, report) && n.token != report.token ==>
      n in AfterReport(rows, report, now)
    ensures forall n :: n in AfterReport(rows, report, now) && n.token != report.token ==>
      n in rows
  {
    var updated := UpdateByToken(rows, report, now);
    forall n | n in rows && !Collides(n, report) && n.token != report.token
      ensures n in updated
    {
      var i :| 0 <= i < |rows| && rows[i] == n;
      assert updated[i] == n;
    }
    forall n | n in AfterReport(rows, report, now) && n.token != report.token
      ensures n in rows
    {
      assert n in updated;
      var i :| 0 <= i < |updated| && updated[i] == n;
      assert rows[i].token != report.token;
    }
  }

  /** Reports keep the table consistent: keys stay unique, and no two rows
      share a non-blank hostname or a non-blank address. */
  lemma ReportKeepsWellFormed(rows: seq<Node>, report: Report, now: real)
    requires WellFormed(rows)
    ensures WellFormed(AfterReport(rows, report, now))
  {
    var updated := UpdateByToken(rows, report, now);
    var evicting := report.hostname != "" || report.ip != "";
    var keep := if evicting then (n: Node) => !Collides(n, report) else (n: Node) => true;
    var rel := (a: Node, b: Node) => Distinct(a, b);
    forall i, j | 0 <= i < j < |updated| && keep(updated[i]) && keep(updated[j])
      ensures rel(updated[i], updated[j])
    {
      assert Distinct(rows[i], rows[j]);
    }
    WhereIsPairwise(updated, keep, rel);
    if !evicting {
      WhereKeepsAll(updated, keep);
    }
  }

  /** An accepted report's deduplication reaches rows whose hostname is the
      empty string when the reported hostname is empty and the address is not. */
  lemma EmptyHostnameEvictsEmptyHostnames()
    ensures
      var other := Node("id-a", "a", None, Some(""), Some("10.0.0.9"), 1.0, Some(2.0), None, None);
      var reporter := Reserved("id-b", "b", None, 3.0);
      var report := Report("b", "", "10.0.0.5", map["os" := "\"linux\""], map["cpu" := "1.5"]);
      AfterReport([other, reporter], report, 4.0) == [Apply(reporter, report, 4.0)]
  {
    var other := Node("id-a", "a", None, Some(""), Some("10.0.0.9"), 1.0, Some(2.0), None, None);
    var reporter := Reserved("id-b", "b", None, 3.0);
    var report := Report("b", "", "10.0.0.5", map["os" := "\"linux\""], map["cpu" := "1.5"]);
    var updated := UpdateByToken([other, reporter], report, 4.0);
    assert updated == [other, Apply(reporter, report, 4.0)];
    assert Collides(other, report);
  }

  /** A host that was reserved a second time: when the new row reports the
      hostname of the old one, the old row is deleted and the new one stays. */
  lemma ReinstalledHostReplacesItsOldRow()
    ensures
      var old1 := Node("id-a", "a", Some("h1"), Some("h1"), Some("10.0.0.1"), 1.0, Some(2.0), None, None);
      var new1 := Reserved("id-b", "b", None, 3.0);
      var report := Report("b", "h1", "10.0.0.2", map["os" := "\"linux\""], map["cpu" := "1.5"]);
      AfterReport([old1, new1], report, 4.0) == [Apply(new1, report, 4.0)] &&
      Apply(new1, report, 4.0).hostname == Some("h1")
  {
    var old1 := Node("id-a", "a", Some("h1"), Some("h1"), Some("10.0.0.1"), 1.0, Some(2.0), None, None);
    var new1 := Reserved("id-b", "b", None, 3.0);
    var report := Report("b", "h1", "10.0.0.2", map["os" := "\"linux\""], map["cpu" := "1.5"]);
    var updated := UpdateByToken([old1, new1], report, 4.0);
    assert updated == [old1, Apply(new1, report, 4.0)];
    assert Collides(old1, report);
  }

  // ------------------------------------------------------------ rename, delete

  /** `UPDATE nodes SET label = ? WHERE token = ?`. */
  function Relabel(rows: seq<Node>, token: string, nodeLabel: Option<string>): (r: seq<Node>)
    ensures |r| == |rows|
    ensures forall i :: 0 <= i < |rows| ==> r[i].(nodeLabel := rows[i].nodeLabel) == rows[i]
    ensures forall i :: 0 <= i < |rows| && rows[i].token == token ==> r[i].nodeLabel == nodeLabel
    ensures forall i :: 0 <= i < |rows| && rows[i].token != token ==> r[i] == rows[i]
  {
    seq(|rows|, i requires 0 <= i < |rows| =>
      if rows[i].token == token then rows[i].(nodeLabel := nodeLabel) else rows[i])
  }

  /** `DELETE FROM nodes WHERE token = ?`. */
  function Delete(rows: seq<Node>, token: string): (r: seq<Node>)
    ensures |r| <= |rows|
    ensures forall n :: n in r ==> n.token != token
  {
    Where(rows, (n: Node) => n.token != token)
  }

  /** Deleting removes the row with that token and nothing else, so deleting
      the same token again finds nothing. */
  lemma DeleteRemovesExactlyThatToken(rows: seq<Node>, token: string)
    ensures forall n :: n in Delete(rows, token) <==> n in rows && n.token != token
    ensures !HasToken(Delete(rows, token), token)
    ensures CountToken(Delete(rows, token), token) == 0
  {
  }

  lemma RelabelKeepsWellFormed(rows: seq<Node>, token: string, nodeLabel: Option<string>)
    requires WellFormed(rows)
    ensures WellFormed(Relabel(rows, token, nodeLabel))
  {
    var after := Relabel(rows, token, nodeLabel);
    forall i, j | 0 <= i < j < |after| ensures Distinct(after[i], after[j]) {
      assert Distinct(rows[i], rows[j]);
    }
  }

  lemma DeleteKeepsWellFormed(rows: seq<Node>, token: string)
    requires WellFormed(rows)
    ensures WellFormed(Delete(rows, token))
  {
    var keep := (n: Node) => n.token != token;
    var rel := (a: Node, b: Node) => Distinct(a, b);
    WhereIsPairwise(rows, keep, rel);
  }

  // ------------------------------------------------------------ listing

  /** A row as the list endpoint returns it: the stored row and its status. */
  datatype NodeResponse = NodeResponse(node: Node, status: Status)

  /** `NodeRaw::into_response`: the status against the clock reading `now`
      that this very conversion takes. */
  function IntoResponse(n: Node, now: real, offlineTimeout: nat): (r: NodeResponse)
    ensures r.node == n
    ensures r.status == Pending <==> n.lastSeen.None?
    ensures r.status == Online <==> n.lastSeen.Some? && now - n.lastSeen.value <= offlineTimeout as real
  {
    NodeResponse(n, DeriveStatus(n.lastSeen, now, offlineTimeout))
  }

  function CreatedAt(n: Node): real {
    n.createdAt
  }

  function NodesOf(out: seq<NodeResponse>): (r: seq<Node>)
    ensures |r| == |out|
  {
    seq(|out|, i requires 0 <= i < |out| => out[i].node)
  }

  /** The node table of the registry. */
  class Registry {
    var rows: seq<Node>

    ghost predicate Valid()
      reads this
    {
      WellFormed(rows)
    }

    /** `init_db` on a new database: an empty table. */
    constructor ()
      ensures Valid() && rows == []
    {
      rows := [];
    }

    /** `create_node`: inserts a reserved row under the fresh `id` and the
        token drawn from `draws`. The insert fails, changing nothing, when
        the id or the token is already taken. */
    method CreateNode(id: string, draws: seq<nat>, nodeLabel: Option<string>, now: real)
      returns (r: Result<(string, string), AppError>)
      requires Valid()
      requires IsTokenDraws(draws)
      modifies this
      ensures Valid()
      ensures r.Ok? <==> IsFresh(old(rows), id, GenerateToken(draws))
      ensures r.Ok? ==>
        r.value == (id, GenerateToken(draws)) &&
        rows == old(rows) + [Reserved(id, GenerateToken(draws), nodeLabel, now)]
      ensures r.Err? ==> r.error.Database? && rows == old(rows)
    {
      var token := GenerateToken(draws);
      if !IsFresh(rows, id, token) {
        return Err(Database("UNIQUE constraint failed"));
      }
      ReserveKeepsWellFormed(rows, id, token, nodeLabel, now);
      rows := rows + [Reserved(id, token, nodeLabel, now)];
      r := Ok((id, token));
    }

    /** `update_node_metrics`: the UPDATE by token, `NotFound` when it
        matched no row, then the deduplication DELETE. */
    method UpdateNodeMetrics(report: Report, now: real) returns (r: Result<(), AppError>)
      requires Valid()
      modifies this
      ensures Valid()
      ensures r.Ok? <==> HasToken(old(rows), report.token)
      ensures r.Err? ==> r.error == NotFound && rows == old(rows)
      ensures r.Ok? ==> rows == AfterReport(old(rows), report, now)
    {
      var updated := UpdateByToken(rows, report, now);
      if CountToken(rows, report.token) == 0 {
        return Err(NotFound);
      }
      ReportKeepsWellFormed(rows, report, now);
      rows := EvictDuplicates(updated, report);
      r := Ok(());
    }

    /** `report_handler`: rejects a report whose meta or metrics object is
        empty, resolves the address (the reported one, else the peer's), and
        applies the report. */
    method ReportHandler(payload: ReportPayload, peerIp: string, now: real)
      returns (r: Result<(), AppError>)
      requires Valid()
      modifies this
      ensures Valid()
      ensures (payload.meta == map[] || payload.metrics == map[]) ==>
        r == Err(BadRequest("meta/metrics required")) && rows == old(rows)
      ensures payload.meta != map[] && payload.metrics != map[] ==>
        && (r.Ok? <==> HasToken(old(rows), payload.token))
        && (r.Err? ==> r.error == NotFound && rows == old(rows))
        && (r.Ok? ==> rows == AfterReport(old(rows), ToReport(payload, peerIp), now))
    {
      if payload.meta == map[] || payload.metrics == map[] {
        return Err(BadRequest("meta/metrics required"));
      }
      r := UpdateNodeMetrics(ToReport(payload, peerIp), now);
    }

    /** `delete_node`: removes the row with that token; `NotFound` when there is none. */
    method DeleteNode(token: string) returns (r: Result<(), AppError>)
      requires Valid()
      modifies this
      ensures Valid()
      ensures r.Ok? <==> HasToken(old(rows), token)
      ensures r.Err? ==> r.error == NotFound
      ensures rows == Delete(old(rows), token)
      ensures r.Err? ==> rows == old(rows)
    {
      var remaining := Delete(rows, token);
      var affected := |rows| - |remaining|;
      WhereKeepsAll(rows, (n: Node) => n.token != token);
      DeleteKeepsWellFormed(rows, token);
      rows := remaining;
      if affected == 0 {
        return Err(NotFound);
      }
      r := Ok(());
    }

    /** `update_node_label`: overwrites the label (possibly with NULL);
        `NotFound` when no row has that token. */
    method UpdateNodeLabel(token: string, nodeLabel: Option<string>) returns (r: Result<(), AppError>)
      requires Valid()
      modifies this
      ensures Valid()
      ensures r.Ok? <==> HasToken(old(rows), token)
      ensures r.Err? ==> r.error == NotFound
      ensures rows == Relabel(old(rows), token, nodeLabel)
      ensures r.Err? ==> rows == old(rows)
    {
      var affected := CountToken(rows, token);
      RelabelKeepsWellFormed(rows, token, nodeLabel);
      if affected == 0 {
        assert Relabel(rows, token, nodeLabel) == rows;
      }
      rows := Relabel(rows, token, nodeLabel);
      if affected == 0 {
        return Err(NotFound);
      }
      r := Ok(());
    }

    /** `list_nodes`: every row, ordered by `created_at`, each converted with
        the clock reading `nows[i]` taken when the i-th row is converted. */
    method ListNodes(nows: seq<real>, offlineTimeout: nat) returns (out: seq<NodeResponse>)
      requires |nows| == |rows|
      ensures |out| == |rows|
      ensures NodesOf(out) == SortBy(rows, CreatedAt)
      ensures multiset(NodesOf(out)) == multiset(rows)
      ensures forall i, j :: 0 <= i < j < |out| ==> out[i].node.createdAt <= out[j].node.createdAt
      ensures forall i :: 0 <= i < |out| ==>
        out[i].status == DeriveStatus(out[i].node.lastSeen, nows[i], offlineTimeout)
    {
      var ordered := SortBy(rows, CreatedAt);
      out := [];
      var i := 0;
      while i < |ordered|
        invariant 0 <= i <= |ordered|
        invariant |out| == i
        invariant forall k :: 0 <= k < i ==> out[k] == IntoResponse(ordered[k], nows[k], offlineTimeout)
      {
        out := out + [IntoResponse(ordered[i], nows[i], offlineTimeout)];
        i := i + 1;
      }
      ResponsesOf(ordered, out, nows, offlineTimeout);
    }
  }

  /** Converting each row in turn keeps the rows and their order, and
      gives each the status of its own clock reading. */
  lemma ResponsesOf(ordered: seq<Node>, out: seq<NodeResponse>, nows: seq<real>, offlineTimeout: nat)
    requires |out| == |ordered| <= |nows|
    requires forall k :: 0 <= k < |out| ==> out[k] == IntoResponse(ordered[k], nows[k], offlineTimeout)
    ensures NodesOf(out) == ordered
    ensures forall i :: 0 <= i < |out| ==>
      out[i].status == DeriveStatus(out[i].node.lastSeen, nows[i], offlineTimeout)
  {
    assert forall k :: 0 <= k < |out| ==> NodesOf(out)[k] == ordered[k];
  }

  /** The JSON body of `POST /api/report`; a missing meta or metrics object
      reads as an empty one. */
  datatype ReportPayload = ReportPayload(
    token: string,
    hostname: string,
    ipAddress: Option<string>,
    meta: JsonObject,
    metrics: JsonObject)

  /** The report `report_handler` passes on: the address falls back to the
      peer's only when the payload has none (an empty string is kept). */
  function ToReport(payload: ReportPayload, peerIp: string): (r: Report)
    ensures r.ip == (if payload.ipAddress.Some? then payload.ipAddress.value else peerIp)
    ensures r.token == payload.token && r.hostname == payload.hostname
    ensures r.meta == payload.meta && r.metrics == payload.metrics
  {
    Report(payload.token, payload.hostname, payload.ipAddress.GetOr(peerIp), payload.meta, payload.metrics)
  }
}
