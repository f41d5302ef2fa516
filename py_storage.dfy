/** The older Python registry store (app/storage.py): the same `nodes`
    table, with a simpler report update that never deletes other rows and
    keeps the stored hostname when none is given. meta and metrics are held
    as the JSON text `json.dumps` produced. */
module PyStorage {
  import opened Common
  import opened Server
  import opened Tables

  /** One row of `nodes` as the Python store writes it. */
  datatype PyNode = PyNode(
    id: string,
    token: string,
    nodeLabel: Option<string>,
    hostname: Option<string>,
    ipAddress: Option<string>,
    createdAt: real,
    lastSeen: Option<real>,
    meta: Option<string>,
    metrics: Option<string>)

  /** The dictionary `_row_to_dict` builds. meta and metrics are the text that
      `json.loads` is given, or `None`. */
  datatype NodeDict = NodeDict(
    id: string,
    nodeLabel: Option<string>,
    hostname: Option<string>,
    ipAddress: Option<string>,
    createdAt: real,
    lastSeen: Option<real>,
    status: Status,
    meta: Option<string>,
    metrics: Option<string>)

  /** `json.loads(v) if v else None`: NULL and the empty string decode to None. */
  function DecodeColumn(v: Option<string>): (r: Option<string>)
    ensures r.None? <==> v == None || v == Some("")
    ensures r.Some? ==> r == v
  {
    if v.Some? && v.value != "" then v else None
  }

  /** `_row_to_dict`, against the clock reading `now` it takes and the
      configured timeout (an `int`, so possibly negative). */
  function RowToDict(row: PyNode, now: real, offlineTimeout: int): (d: NodeDict)
    ensures d.id == row.id && d.lastSeen == row.lastSeen && d.createdAt == row.createdAt
    ensures d.nodeLabel == row.nodeLabel && d.hostname == row.hostname && d.ipAddress == row.ipAddress
    ensures d.meta == DecodeColumn(row.meta) && d.metrics == DecodeColumn(row.metrics)
    ensures d.status == Pending <==> row.lastSeen.None?
    ensures d.status == Online <==> row.lastSeen.Some? && now - row.lastSeen.value <= offlineTimeout as real
  {
    var status :=
      if row.lastSeen.None? then Pending
      else if now - row.lastSeen.value <= offlineTimeout as real then Online
      else Offline;
    NodeDict(row.id, row.nodeLabel, row.hostname, row.ipAddress, row.createdAt, row.lastSeen,
             status, DecodeColumn(row.meta), DecodeColumn(row.metrics))
  }

  /** Both registries derive the same status from the same `last_seen`, clock and timeout. */
  lemma StatusAgreesWithRust(row: PyNode, now: real, offlineTimeout: nat)
    ensures RowToDict(row, now, offlineTimeout).status == DeriveStatus(row.lastSeen, now, offlineTimeout)
  {
  }

  /** The Python store keeps only the key constraints: unique ids and tokens. */
  ghost predicate PyWellFormed(rows: seq<PyNode>) {
    forall i, j :: 0 <= i < j < |rows| ==> rows[i].id != rows[j].id && rows[i].token != rows[j].token
  }

  predicate HasToken(rows: seq<PyNode>, token: string) {
    exists n :: n in rows && n.token == token
  }

  predicate IsFresh(rows: seq<PyNode>, id: string, token: string) {
    forall n :: n in rows ==> n.id != id && n.token != token
  }

  // ------------------------------------------------------------ tokens

  /** The random bytes of `secrets.token_hex(20)`. */
  predicate IsTokenBytes(bytes: seq<nat>) {
    |bytes| == 20 && forall i :: 0 <= i < |bytes| ==> bytes[i] < 256
  }

  /** One byte as two lowercase hex digits, high nibble first. */
  function HexByte(b: nat): (p: string)
    requires b < 256
    ensures |p| == 2 && IsLowerHexDigit(p[0]) && IsLowerHexDigit(p[1])
    ensures HexDigitValue(p[0]) * 16 + HexDigitValue(p[1]) == b
  {
    [HexDigit(b / 16), HexDigit(b % 16)]
  }

  /** `bytes.hex()`: the bytes' hex pairs one after another. */
  function HexBytes(bytes: seq<nat>): (t: string)
    requires forall i :: 0 <= i < |bytes| ==> bytes[i] < 256
    ensures |t| == 2 * |bytes|
    ensures forall k :: 0 <= k < |t| ==> IsLowerHexDigit(t[k])
    ensures forall i :: 0 <= i < |bytes| ==> t[2 * i..2 * i + 2] == HexByte(bytes[i])
    decreases |bytes|
  {
    if |bytes| == 0 then ""
    else
      var rest := HexBytes(bytes[1..]);
      var t := HexByte(bytes[0]) + rest;
      assert forall i :: 1 <= i < |bytes| ==> t[2 * i..2 * i + 2] == rest[2 * (i - 1)..2 * (i - 1) + 2];
      t
  }

  /** `secrets.token_hex(20)`: a node token whose digit pairs spell the twenty bytes. */
  function TokenHex(bytes: seq<nat>): (t: string)
    requires IsTokenBytes(bytes)
    ensures IsNodeToken(t)
    ensures forall i :: 0 <= i < 20 ==> HexDigitValue(t[2 * i]) * 16 + HexDigitValue(t[2 * i + 1]) == bytes[i]
  {
    var t := HexBytes(bytes);
    assert forall i :: 0 <= i < 20 ==> t[2 * i] == HexByte(bytes[i])[0] && t[2 * i + 1] == HexByte(bytes[i])[1];
    t
  }

  /** `token or secrets.token_hex(20)`: a supplied token is used unless it is None or empty. */
  function ChooseToken(supplied: Option<string>, bytes: seq<nat>): (t: string)
    requires IsTokenBytes(bytes)
    ensures supplied.Some? && supplied.value != "" ==> t == supplied.value
    ensures supplied.None? || supplied.value == "" ==> IsNodeToken(t)
  {
    if supplied.Some? && supplied.value != "" then supplied.value else TokenHex(bytes)
  }

  // ------------------------------------------------------------ reports

  /** The UPDATE of `update_node_metrics`: hostname = COALESCE(hostname', hostname)
      keeps the old hostname only when None is given; the label takes the
      given hostname (possibly None) while NULL or empty; address, meta,
      metrics and last_seen are overwritten. */
  function PyApply(n: PyNode, hostname: Option<string>, ip: Option<string>,
                   metaJson: string, metricsJson: string, now: real): (r: PyNode)
    ensures r.id == n.id && r.token == n.token && r.createdAt == n.createdAt
    ensures hostname.None? ==> r.hostname == n.hostname
    ensures n.nodeLabel != None && n.nodeLabel != Some("") ==> r.nodeLabel == n.nodeLabel
  {
    n.(hostname := if hostname.Some? then hostname else n.hostname,
       nodeLabel := if n.nodeLabel == None || n.nodeLabel == Some("") then hostname else n.nodeLabel,
       ipAddress := ip,
       meta := Some(metaJson),
       metrics := Some(metricsJson),
       lastSeen := Some(now))
  }

  function PyAfterReport(rows: seq<PyNode>, token: string, hostname: Option<string>, ip: Option<string>,
                         metaJson: string, metricsJson: string, now: real): (r: seq<PyNode>)
    ensures |r| == |rows|
  {
    seq(|rows|, i requires 0 <= i < |rows| =>
      if rows[i].token == token then PyApply(rows[i], hostname, ip, metaJson, metricsJson, now) else rows[i])
  }

  /** An update with an unknown token changes nothing; with a known one it
      changes that row only and deletes nothing. */
  lemma PyReportTouchesOnlyItsRow(rows: seq<PyNode>, token: string, hostname: Option<string>,
                                  ip: Option<string>, metaJson: string, metricsJson: string, now: real)
    ensures !HasToken(rows, token) ==> PyAfterReport(rows, token, hostname, ip, metaJson, metricsJson, now) == rows
    ensures forall i :: 0 <= i < |rows| && rows[i].token != token ==>
      PyAfterReport(rows, token, hostname, ip, metaJson, metricsJson, now)[i] == rows[i]
  {
    var after := PyAfterReport(rows, token, hostname, ip, metaJson, metricsJson, now);
    if !HasToken(rows, token) {
      forall i | 0 <= i < |rows| ensures after[i] == rows[i] {
        assert rows[i] in rows;
      }
    }
  }

  /** The reporting row after an update: hostname kept when None is given and
      replaced otherwise, label filled from the hostname only when it was NULL
      or empty, the other columns overwritten. */
  lemma PyReportUpdatesTheReporter(rows: seq<PyNode>, k: nat, hostname: Option<string>,
                                   ip: Option<string>, metaJson: string, metricsJson: string, now: real)
    requires k < |rows|
    ensures var n := PyAfterReport(rows, rows[k].token, hostname, ip, metaJson, metricsJson, now)[k];
      && n.id == rows[k].id && n.token == rows[k].token && n.createdAt == rows[k].createdAt
      && (hostname.None? ==> n.hostname == rows[k].hostname)
      && (hostname.Some? ==> n.hostname == hostname)
      && n.nodeLabel == (if rows[k].nodeLabel in {None, Some("")} then hostname else rows[k].nodeLabel)
      && n.ipAddress == ip && n.meta == Some(metaJson) && n.metrics == Some(metricsJson)
      && n.lastSeen == Some(now)
  {
  }

  /** Unlike the Rust registry, the Python store lets a reinstalled host
      leave its old row behind: both rows end up holding the same hostname. */
  lemma PyReinstalledHostKeepsBothRows()
    ensures
      var old1 := PyNode("id-a", "a", Some("h1"), Some("h1"), Some("10.0.0.1"), 1.0, Some(2.0), None, None);
      var new1 := PyNode("id-b", "b", None, None, None, 3.0, None, None, None);
      var after := PyAfterReport([old1, new1], "b", Some("h1"), Some("10.0.0.2"), "{}", "{}", 4.0);
      |after| == 2 && after[0] == old1 && after[0].hostname == after[1].hostname == Some("h1")
  {
  }

  // ------------------------------------------------------------ the store

  /** The row a new node starts with, created at the store's clock reading `created`. */
  function PyReserved(id: string, token: string, nodeLabel: Option<string>, created: real): PyNode {
    PyNode(id, token, nodeLabel, None, None, created, None, None, None)
  }

  function PyCreatedAt(n: PyNode): real {
    n.createdAt
  }

  /** What `create_node` returns: the new row's dictionary plus its token. */
  datatype CreatedNode = CreatedNode(node: NodeDict, token: string)

  /** `sqlite3.IntegrityError`, raised when an insert breaks a key constraint. */
  datatype StoreError = IntegrityError

  class PyStore {
    var rows: seq<PyNode>

    ghost predicate Valid()
      reads this
    {
      PyWellFormed(rows)
    }

    constructor ()
      ensures Valid() && rows == []
    {
      rows := [];
    }

    /** `create_node`: inserts a row under the supplied token, or a fresh
        `token_hex(20)` one; the insert raises, changing nothing, when the id
        or the token is taken. The returned node is pending. */
    method CreateNode(id: string, nodeLabel: Option<string>, token: Option<string>, bytes: seq<nat>,
                      created: real, now: real, offlineTimeout: int)
      returns (r: Result<CreatedNode, StoreError>)
      requires Valid()
      requires IsTokenBytes(bytes)
      modifies this
      ensures Valid()
      ensures r.Ok? <==> IsFresh(old(rows), id, ChooseToken(token, bytes))
      ensures r.Ok? ==>
        && rows == old(rows) + [PyReserved(id, ChooseToken(token, bytes), nodeLabel, created)]
        && r.value.token == ChooseToken(token, bytes)
        && r.value.node.id == id
        && r.value.node.status == Pending
      ensures r.Err? ==> rows == old(rows)
    {
      var nodeToken := ChooseToken(token, bytes);
      if !IsFresh(rows, id, nodeToken) {
        return Err(IntegrityError);
      }
      var row := PyReserved(id, nodeToken, nodeLabel, created);
      rows := rows + [row];
      r := Ok(CreatedNode(RowToDict(row, now, offlineTimeout), nodeToken));
    }

    /** `update_node_metrics`: updates the row with that token, if any, and
        raises nothing when there is none. */
    method UpdateNodeMetrics(token: string, hostname: Option<string>, ip: Option<string>,
                             metaJson: string, metricsJson: string, now: real)
      requires Valid()
      modifies this
      ensures Valid()
      ensures rows == PyAfterReport(old(rows), token, hostname, ip, metaJson, metricsJson, now)
    {
      rows := PyAfterReport(rows, token, hostname, ip, metaJson, metricsJson, now);
    }

    /** `delete_node`: removes the rows with that token, silently when there are none. */
    method DeleteNode(token: string)
      requires Valid()
      modifies this
      ensures Valid()
      ensures rows == Where(old(rows), (n: PyNode) => n.token != token)
      ensures forall n :: n in rows <==> n in old(rows) && n.token != token
      ensures !HasToken(old(rows), token) ==> rows == old(rows)
    {
      var keep := (n: PyNode) => n.token != token;
      WhereIsPairwise(rows, keep, (a: PyNode, b: PyNode) => a.id != b.id && a.token != b.token);
      WhereKeepsAll(rows, keep);
      rows := Where(rows, keep);
    }

    /** `get_node_by_token`: the dictionary of the row with that token, or
        None when there is none. */
    function GetNodeByToken(token: string, now: real, offlineTimeout: int): (r: Option<NodeDict>)
      reads this
      ensures r.Some? <==> HasToken(rows, token)
      ensures r.Some? ==> exists n :: n in rows && n.token == token && r.value == RowToDict(n, now, offlineTimeout)
    {
      match FindByToken(rows, token)
      case None => None
      case Some(n) => Some(RowToDict(n, now, offlineTimeout))
    }

    /** `list_nodes`: the rows in `created_at` order, the i-th converted
        with the clock reading `nows[i]`. */
    function ListNodes(nows: seq<real>, offlineTimeout: int): (r: seq<NodeDict>)
      reads this
      requires |nows| == |rows|
      ensures |r| == |rows|
      ensures forall i, j :: 0 <= i < j < |r| ==> r[i].createdAt <= r[j].createdAt
      ensures forall i :: 0 <= i < |r| ==>
        exists n :: n in rows && r[i] == RowToDict(n, nows[i], offlineTimeout)
      ensures multiset(DictIds(r)) == multiset(Ids(rows))
      ensures forall i :: 0 <= i < |r| ==>
        r[i] == RowToDict(SortBy(rows, PyCreatedAt)[i], nows[i], offlineTimeout)
    {
      var ordered := SortBy(rows, PyCreatedAt);
      var r := seq(|ordered|, i requires 0 <= i < |ordered| => RowToDict(ordered[i], nows[i], offlineTimeout));
      forall i | 0 <= i < |r|
        ensures exists n :: n in rows && r[i] == RowToDict(n, nows[i], offlineTimeout)
      {
        assert ordered[i] in multiset(rows);
        assert ordered[i] in rows && r[i] == RowToDict(ordered[i], nows[i], offlineTimeout);
      }
      SamePermutationSameIds(ordered, rows);
      assert DictIds(r) == Ids(ordered);
      r
    }
  }

  /** The first row with that token, as `fetchone` returns it. */
  function FindByToken(rows: seq<PyNode>, token: string): (r: Option<PyNode>)
    ensures r.None? <==> !HasToken(rows, token)
    ensures r.Some? ==> r.value in rows && r.value.token == token
  {
    if |rows| == 0 then None
    else if rows[0].token == token then Some(rows[0])
    else
      var r := FindByToken(rows[1..], token);
      assert forall n :: n in rows[1..] ==> n in rows;
      assert forall n :: n in rows ==> n == rows[0] || n in rows[1..];
      r
  }

  function Ids(rows: seq<PyNode>): (ids: seq<string>)
    ensures |ids| == |rows| && forall i :: 0 <= i < |rows| ==> ids[i] == rows[i].id
  {
    seq(|rows|, i requires 0 <= i < |rows| => rows[i].id)
  }

  /** The id column of the dictionaries a listing returns; `Ids` is the
      same column of the stored rows, so the two can be compared. */
  function DictIds(dicts: seq<NodeDict>): (ids: seq<string>)
    ensures |ids| == |dicts| && forall i :: 0 <= i < |dicts| ==> ids[i] == dicts[i].id
  {
    seq(|dicts|, i requires 0 <= i < |dicts| => dicts[i].id)
  }

  /** Rows that are a permutation of each other carry the same ids, as often. */
  lemma {:induction false} SamePermutationSameIds(a: seq<PyNode>, b: seq<PyNode>)
    requires multiset(a) == multiset(b)
    ensures multiset(Ids(a)) == multiset(Ids(b))
    decreases |a|
  {
    if |a| == 0 {
      assert |b| == |multiset(b)| == 0;
      assert Ids(a) == [] == Ids(b);
    } else {
      var x, rest := a[0], a[1..];
      assert multiset(a) == multiset(rest) + multiset{x} by {
        assert a == [x] + rest;
      }
      assert x in multiset(b);
      var j :| 0 <= j < |b| && b[j] == x;
      var others := b[..j] + b[j + 1..];
      RemoveAtMultiset(b, j);
      MultisetCancel(multiset(rest), multiset(others), x);
      SamePermutationSameIds(rest, others);
      HeadIds(a);
      RemoveAtIds(b, j);
    }
  }

  lemma RemoveAtMultiset<T>(s: seq<T>, j: nat)
    requires j < |s|
    ensures multiset(s) == multiset(s[..j] + s[j + 1..]) + multiset{s[j]}
  {
    assert s == s[..j] + [s[j]] + s[j + 1..];
  }

  lemma MultisetCancel<T>(u: multiset<T>, v: multiset<T>, x: T)
    requires u + multiset{x} == v + multiset{x}
    ensures u == v
  {
    assert u == (u + multiset{x}) - multiset{x};
    assert v == (v + multiset{x}) - multiset{x};
  }

  lemma HeadIds(s: seq<PyNode>)
    requires |s| > 0
    ensures multiset(Ids(s)) == multiset(Ids(s[1..])) + multiset{s[0].id}
  {
    assert Ids(s) == [s[0].id] + Ids(s[1..]);
  }

  lemma RemoveAtIds(s: seq<PyNode>, j: nat)
    requires j < |s|
    ensures multiset(Ids(s)) == multiset(Ids(s[..j] + s[j + 1..])) + multiset{s[j].id}
  {
    RemoveAtMultiset(Ids(s), j);
    assert Ids(s)[..j] + Ids(s)[j + 1..] == Ids(s[..j] + s[j + 1..]);
  }
}
