/** The agent's readers of the kernel's /proc text files and of
    /etc/os-release (src/bin/agent.rs). A file is given as its lines, or
    `None` when it cannot be opened; each reader's loop is proved equal to a
    specification function over the lines, and the lemmas say what that
    function extracts. */
module AgentProc {
  import opened Common
  import opened Text
  import opened AgentRates

  /** The `n`-th whitespace-separated word of a line, if it has one. */
  function NthWord(line: string, n: nat): (r: Option<string>)
    ensures r.Some? <==> n < |SplitWhitespace(line)|
    ensures r.Some? ==> r.value == SplitWhitespace(line)[n]
  {
    var words := SplitWhitespace(line);
    if n < |words| then Some(words[n]) else None
  }

  // ------------------------------------------------------------ /proc/stat

  /** `filter_map(parse::<u64>)`: the words that parse as numbers, as numbers, in order. */
  function ParsedNumbers(words: seq<string>): (nums: seq<nat>)
    ensures |nums| <= |words|
    ensures forall i :: 0 <= i < |nums| ==> IsU64(nums[i])
  {
    if |words| == 0 then []
    else
      match ParseU64(words[0])
      case Some(v) => [v] + ParsedNumbers(words[1..])
      case None => ParsedNumbers(words[1..])
  }

  lemma {:induction false} ParsedNumbersAppend(a: seq<string>, b: seq<string>)
    ensures ParsedNumbers(a + b) == ParsedNumbers(a) + ParsedNumbers(b)
    decreases |a|
  {
    if |a| > 0 {
      assert (a + b)[1..] == a[1..] + b;
      ParsedNumbersAppend(a[1..], b);
    } else {
      assert a + b == b;
    }
  }

  /** The decimal words of a list of numbers. */
  function Shown(nums: seq<nat>): (words: seq<string>)
    ensures |words| == |nums|
    ensures forall i :: 0 <= i < |nums| ==> words[i] == ShowNat(nums[i])
  {
    seq(|nums|, i requires 0 <= i < |nums| => ShowNat(nums[i]))
  }

  lemma {:induction false} ParsedNumbersOfShown(nums: seq<nat>)
    requires forall i :: 0 <= i < |nums| ==> IsU64(nums[i])
    ensures ParsedNumbers(Shown(nums)) == nums
    decreases |nums|
  {
    if |nums| > 0 {
      ParseShowNat(nums[0]);
      assert Shown(nums)[1..] == Shown(nums[1..]);
      ParsedNumbersOfShown(nums[1..]);
    }
  }

  /** The eight counters in the order the "cpu" line lists them. */
  function Counters(t: CpuTimes): seq<nat> {
    [t.user, t.nice, t.system, t.idle, t.iowait, t.irq, t.softirq, t.steal]
  }

  /** `read_cpu_times`, given the first line of /proc/stat (`None` when the
      file cannot be opened or read): the first word must be exactly "cpu",
      and the first eight of the following words that parse as `u64` are the
      counters in order; fewer than eight is a failure. */
  function ReadCpuTimes(firstLine: Option<string>): (r: Option<CpuTimes>)
    ensures firstLine.None? ==> r.None?
    ensures firstLine.Some? && NthWord(firstLine.value, 0) != Some("cpu") ==> r.None?
    ensures firstLine.Some? ==>
      (r.Some? <==> var w := SplitWhitespace(firstLine.value);
                    |w| > 0 && w[0] == "cpu" && |ParsedNumbers(w[1..])| >= 8)
    ensures r.Some? ==> Counters(r.value) == ParsedNumbers(SplitWhitespace(firstLine.value)[1..])[..8]
    ensures r.Some? ==> forall i :: 0 <= i < 8 ==> IsU64(Counters(r.value)[i])
  {
    if firstLine.None? then None
    else
      var words := SplitWhitespace(firstLine.value);
      if |words| == 0 || words[0] != "cpu" then None
      else
        var nums := ParsedNumbers(words[1..]);
        if |nums| < 8 then None
        else Some(CpuTimes(nums[0], nums[1], nums[2], nums[3], nums[4], nums[5], nums[6], nums[7]))
  }

  /** A "cpu" line listing the eight counters (and any further words, such as
      the guest counters of newer kernels) reads back as those counters. */
  lemma {:induction false} ReadCpuTimesOfLine(t: CpuTimes, extra: seq<string>)
    requires forall i :: 0 <= i < 8 ==> IsU64(Counters(t)[i])
    requires ProperWords(extra)
    ensures ReadCpuTimes(Some(JoinWords(["cpu"] + Shown(Counters(t)) + extra))) == Some(t)
  {
    var words := ["cpu"] + Shown(Counters(t)) + extra;
    forall i | 0 <= i < 8 ensures Shown(Counters(t))[i] != [] && NoWhitespace(Shown(Counters(t))[i]) {
      ShowNatIsWord(Counters(t)[i]);
    }
    assert ProperWords(words) by {
      forall i | 0 <= i < |words| ensures words[i] != [] && NoWhitespace(words[i]) {
        if 1 <= i < 9 {
          assert words[i] == Shown(Counters(t))[i - 1];
        } else if i >= 9 {
          assert words[i] == extra[i - 9];
        }
      }
    }
    SplitJoinWords(words);
    assert words[1..] == Shown(Counters(t)) + extra;
    ParsedNumbersAppend(Shown(Counters(t)), extra);
    ParsedNumbersOfShown(Counters(t));
  }

  // ------------------------------------------------------------ /proc/meminfo

  /** The value of a "Key: value kB" line: its second word as a `u64`. */
  function MemValue(line: string): (r: Option<nat>)
    ensures r.Some? ==> IsU64(r.value)
  {
    match NthWord(line, 1)
    case None => None
    case Some(w) => ParseU64(w)
  }

  /** One line of the scan: the new (total, available), or `None` when a
      MemTotal or MemAvailable line has no readable value, which ends the
      read with no result. */
  function MemStep(line: string, total: nat, available: nat): (r: Option<(nat, nat)>)
    ensures r.None? ==> !IsOtherMemLine(line)
    ensures r.Some? && !StartsWith(line, "MemTotal:") ==> r.value.0 == total
    ensures r.Some? && !StartsWith(line, "MemAvailable:") ==> r.value.1 == available
  {
    if StartsWith(line, "MemTotal:") then
      match MemValue(line)
      case None => None
      case Some(v) => Some((v, available))
    else if StartsWith(line, "MemAvailable:") then
      match MemValue(line)
      case None => None
      case Some(v) => Some((total, v))
    else Some((total, available))
  }

  /** The scan of `read_meminfo` from the given totals on: it stops as soon
      as both values are positive. */
  function ScanMeminfo(lines: seq<string>, total: nat, available: nat): (r: Option<(nat, nat)>)
    ensures r.None? ==> exists i :: 0 <= i < |lines| && !IsOtherMemLine(lines[i])
    decreases |lines|
  {
    if |lines| == 0 then Some((total, available))
    else
      match MemStep(lines[0], total, available)
      case None => None
      case Some((t, a)) =>
        if t > 0 && a > 0 then Some((t, a)) else ScanMeminfo(lines[1..], t, a)
  }

  /** `read_meminfo`: (MemTotal, MemAvailable) in bytes, the kB values times
      1024 with `u64` wrap-around; no result without a positive MemTotal. */
  function ReadMeminfo(file: Option<seq<string>>): (r: Option<(nat, nat)>)
    ensures r.Some? ==> IsU64(r.value.0) && IsU64(r.value.1)
  {
    if file.None? then None
    else
      match ScanMeminfo(file.value, 0, 0)
      case None => None
      case Some((t, a)) => if t == 0 then None else Some((WrappingMul(t, 1024), WrappingMul(a, 1024)))
  }

  method ReadMeminfoLoop(file: Option<seq<string>>) returns (r: Option<(nat, nat)>)
    ensures r == ReadMeminfo(file)
  {
    if file.None? {
      return None;
    }
    var lines := file.value;
    var total, available := 0, 0;
    var i := 0;
    while i < |lines|
      invariant 0 <= i <= |lines|
      invariant ScanMeminfo(lines[i..], total, available) == ScanMeminfo(lines, 0, 0)
      decreases |lines| - i
    {
      var line := lines[i];
      assert lines[i..][1..] == lines[i + 1..];
      if StartsWith(line, "MemTotal:") {
        var v := MemValue(line);
        if v.None? {
          return None;
        }
        total := v.value;
      } else if StartsWith(line, "MemAvailable:") {
        var v := MemValue(line);
        if v.None? {
          return None;
        }
        available := v.value;
      }
      if total > 0 && available > 0 {
        break;
      }
      i := i + 1;
    }
    if total == 0 {
      r := None;
    } else {
      r := Some((WrappingMul(total, 1024), WrappingMul(available, 1024)));
    }
  }

  /** Without a MemTotal line there is no result. */
  lemma {:induction false} ScanWithoutTotal(lines: seq<string>, available: nat)
    requires forall i :: 0 <= i < |lines| ==> !StartsWith(lines[i], "MemTotal:")
    ensures ScanMeminfo(lines, 0, available).None? || ScanMeminfo(lines, 0, available).value.0 == 0
    decreases |lines|
  {
    if |lines| > 0 {
      match MemStep(lines[0], 0, available)
      case None =>
      case Some((t, a)) =>
        ScanWithoutTotal(lines[1..], a);
    }
  }

  lemma {:induction false} NoMemTotalNoResult(lines: seq<string>)
    requires forall i :: 0 <= i < |lines| ==> !StartsWith(lines[i], "MemTotal:")
    ensures ReadMeminfo(Some(lines)) == None
  {
    ScanWithoutTotal(lines, 0);
  }

  /** A "Key: value kB" line as the kernel writes it. */
  function MemLine(key: string, v: nat): string {
    JoinWords([key, ShowNat(v), "kB"])
  }

  lemma {:induction false} MemLineShape(key: string, v: nat)
    ensures MemLine(key, v) == key + (" " + (ShowNat(v) + " " + "kB"))
  {
    var words := [key, ShowNat(v), "kB"];
    assert words[1..] == [ShowNat(v), "kB"];
    assert words[1..][1..] == ["kB"];
    assert JoinWords(words[1..]) == ShowNat(v) + " " + "kB";
  }

  lemma {:induction false} MemLineParts(key: string, v: nat)
    requires key != [] && NoWhitespace(key)
    requires IsU64(v)
    ensures StartsWith(MemLine(key, v), key)
    ensures MemValue(MemLine(key, v)) == Some(v)
  {
    ShowNatIsWord(v);
    SplitJoinWords([key, ShowNat(v), "kB"]);
    ParseShowNat(v);
    MemLineShape(key, v);
    var s := MemLine(key, v);
    assert s[..|key|] == key;
  }

  /** A line that is neither a MemTotal nor a MemAvailable line. */
  predicate IsOtherMemLine(line: string) {
    !StartsWith(line, "MemTotal:") && !StartsWith(line, "MemAvailable:")
  }

  /** A positive MemTotal on the first line and a positive MemAvailable
      after any other lines (the kernel puts MemFree between them) are the
      whole answer: the scan stops there and the values come back in bytes. */
  lemma {:induction false} MeminfoOfKernelLayout(total: nat, available: nat, mid: seq<string>, rest: seq<string>)
    requires 0 < total && 0 < available && IsU64(total) && IsU64(available)
    requires forall i :: 0 <= i < |mid| ==> IsOtherMemLine(mid[i])
    ensures ReadMeminfo(Some([MemLine("MemTotal:", total)] + mid + [MemLine("MemAvailable:", available)] + rest))
      == Some((WrappingMul(total, 1024), WrappingMul(available, 1024)))
  {
    var first := MemLine("MemTotal:", total);
    var second := MemLine("MemAvailable:", available);
    var tail := [second] + rest;
    var lines := [first] + (mid + tail);
    assert [first] + mid + [second] + rest == lines;
    TotalLineStep(total);
    AvailableLineStep(total, available);
    assert lines[0] == first && lines[1..] == mid + tail;
    assert ScanMeminfo(lines, 0, 0) == ScanMeminfo(mid + tail, total, 0);
    SkipOtherMemLines(mid, tail, total);
    assert tail[0] == second;
  }

  /** Other lines leave a scan that has a total but no available value alone. */
  lemma {:induction false} SkipOtherMemLines(mid: seq<string>, tail: seq<string>, total: nat)
    requires forall i :: 0 <= i < |mid| ==> IsOtherMemLine(mid[i])
    ensures ScanMeminfo(mid + tail, total, 0) == ScanMeminfo(tail, total, 0)
    decreases |mid|
  {
    if |mid| > 0 {
      assert (mid + tail)[0] == mid[0];
      assert (mid + tail)[1..] == mid[1..] + tail;
      SkipOtherMemLines(mid[1..], tail, total);
    } else {
      assert mid + tail == tail;
    }
  }

  lemma TotalLineStep(total: nat)
    requires IsU64(total)
    ensures MemStep(MemLine("MemTotal:", total), 0, 0) == Some((total, 0))
  {
    MemLineParts("MemTotal:", total);
  }

  lemma AvailableLineStep(total: nat, available: nat)
    requires IsU64(available)
    ensures MemStep(MemLine("MemAvailable:", available), total, 0) == Some((total, available))
  {
    MemLineParts("MemAvailable:", available);
    var line := MemLine("MemAvailable:", available);
    PrefixesDiffer(line, "MemAvailable:", "MemTotal:", 3);
  }

  // ------------------------------------------------------------ /proc/net/dev

  /** One line of /proc/net/dev: (received, transmitted) bytes of an
      interface line — fields 0 and 8 after the colon, an unreadable field
      counting as 0 — or `None` for a line without a colon, with an empty
      interface name or with fewer than nine fields. */
  function NetLineBytes(line: string): (r: Option<(nat, nat)>)
    ensures ':' !in line ==> r.None?
    ensures r.Some? <==> SplitOnce(line, ':').Some? && Trim(SplitOnce(line, ':').value.0) != ""
                         && |SplitWhitespace(SplitOnce(line, ':').value.1)| >= 9
    ensures r.Some? ==> IsU64(r.value.0) && IsU64(r.value.1)
  {
    match SplitOnce(line, ':')
    case None => None
    case Some((iface, data)) =>
      if Trim(iface) == "" then None
      else
        var fields := SplitWhitespace(data);
        if |fields| < 9 then None
        else Some((ParseU64(fields[0]).GetOr(0), ParseU64(fields[8]).GetOr(0)))
  }

  function RecvOf(line: string): nat {
    match NetLineBytes(line)
    case Some((rx, _)) => rx
    case None => 0
  }

  function SentOf(line: string): nat {
    match NetLineBytes(line)
    case Some((_, tx)) => tx
    case None => 0
  }

  /** Plain sums over the interface lines, without any bound. */
  function RecvSum(lines: seq<string>): nat {
    if |lines| == 0 then 0 else RecvSum(lines[..|lines| - 1]) + RecvOf(lines[|lines| - 1])
  }

  function SentSum(lines: seq<string>): nat {
    if |lines| == 0 then 0 else SentSum(lines[..|lines| - 1]) + SentOf(lines[|lines| - 1])
  }

  /** The lines after the two header lines. */
  function NetBody(lines: seq<string>): seq<string> {
    if |lines| <= 2 then [] else lines[2..]
  }

  /** `read_net_bytes`: (sent, received) totals over all interfaces, each
      the exact sum capped at `U64_MAX`. */
  function ReadNetBytes(file: Option<seq<string>>): (r: Option<(nat, nat)>)
    ensures r.Some? <==> file.Some?
    ensures r.Some? ==> IsU64(r.value.0) && IsU64(r.value.1)
  {
    if file.None? then None
    else Some((Min(SentSum(NetBody(file.value)), U64_MAX), Min(RecvSum(NetBody(file.value)), U64_MAX)))
  }

  /** Saturating addition onto a capped sum is the capped sum of the total. */
  lemma {:induction false} SatAddCapped(sum: nat, x: nat)
    requires IsU64(x)
    ensures SatAdd(Min(sum, U64_MAX), x) == Min(sum + x, U64_MAX)
  {
  }

  /** The sums over one more line add that line's counters. */
  lemma NetSumsStep(body: seq<string>, i: nat)
    requires i < |body|
    ensures RecvSum(body[..i + 1]) == RecvSum(body[..i]) + RecvOf(body[i])
    ensures SentSum(body[..i + 1]) == SentSum(body[..i]) + SentOf(body[i])
  {
    assert body[..i + 1][..i] == body[..i];
  }

  method ReadNetBytesLoop(file: Option<seq<string>>) returns (r: Option<(nat, nat)>)
    ensures r == ReadNetBytes(file)
  {
    if file.None? {
      return None;
    }
    var lines := file.value;
    var body := NetBody(lines);
    var sent, recv := 0, 0;
    var i := 0;
    while i < |body|
      invariant 0 <= i <= |body|
      invariant sent == Min(SentSum(body[..i]), U64_MAX)
      invariant recv == Min(RecvSum(body[..i]), U64_MAX)
      decreases |body| - i
    {
      NetSumsStep(body, i);
      var line := body[i];
      match NetLineBytes(line) {
        case Some((rx, tx)) =>
          SatAddCapped(RecvSum(body[..i]), rx);
          SatAddCapped(SentSum(body[..i]), tx);
          recv := SatAdd(recv, rx);
          sent := SatAdd(sent, tx);
        case None =>
      }
      i := i + 1;
    }
    assert body[..i] == body;
    r := Some((sent, recv));
  }

  /** An interface line "name: f0 f1 ... f8 ..." contributes its fields 0 and 8. */
  lemma {:induction false} NetLineOfFields(iface: string, fields: seq<string>)
    requires iface != [] && NoWhitespace(iface) && ':' !in iface
    requires ProperWords(fields) && |fields| >= 9
    ensures NetLineBytes(iface + ":" + JoinWords(fields))
      == Some((ParseU64(fields[0]).GetOr(0), ParseU64(fields[8]).GetOr(0)))
  {
    SplitOnceJoin(iface, JoinWords(fields), ':');
    assert TrimStartBy(iface, IsWhitespace) == iface;
    assert TrimEndBy(iface, IsWhitespace) == iface;
    SplitJoinWords(fields);
  }

  // ------------------------------------------------------------ /etc/os-release

  predicate IsPrettyLine(line: string) {
    StartsWith(line, "PRETTY_NAME=")
  }

  predicate IsNameLine(line: string) {
    StartsWith(line, "NAME=")
  }

  predicate IsVersionLine(line: string) {
    StartsWith(line, "VERSION=")
  }

  /** The value of a `KEY=value` line: every leading `KEY=` removed, then
      the surrounding double quotes. */
  function FieldValue(line: string, key: string): string
    requires key != []
  {
    TrimMatches(TrimStartMatches(line, key), '"')
  }

  /** How one line changes PRETTY_NAME: every PRETTY_NAME line replaces it. */
  function PrettyStep(before: string, line: string): string {
    if IsPrettyLine(line) then FieldValue(line, "PRETTY_NAME=") else before
  }

  /** How one line changes NAME: a NAME line sets it only while it is empty. */
  function NameStep(before: string, line: string): string {
    if before == "" && !IsPrettyLine(line) && IsNameLine(line) then FieldValue(line, "NAME=") else before
  }

  /** How one line changes VERSION: a VERSION line sets it only while it is
      empty and the NAME branch has not claimed the line. */
  function VersionStep(before: string, nameBefore: string, line: string): string {
    if before == "" && !IsPrettyLine(line) && !(nameBefore == "" && IsNameLine(line)) && IsVersionLine(line)
    then FieldValue(line, "VERSION=")
    else before
  }

  /** PRETTY_NAME after the given lines: the value of the last PRETTY_NAME line, "" without one. */
  function PrettyOf(lines: seq<string>): string {
    if |lines| == 0 then "" else PrettyStep(PrettyOf(lines[..|lines| - 1]), lines[|lines| - 1])
  }

  function NameOf(lines: seq<string>): string {
    if |lines| == 0 then "" else NameStep(NameOf(lines[..|lines| - 1]), lines[|lines| - 1])
  }

  function VersionOf(lines: seq<string>): string {
    if |lines| == 0 then ""
    else VersionStep(VersionOf(lines[..|lines| - 1]), NameOf(lines[..|lines| - 1]), lines[|lines| - 1])
  }

  /** The (short, full) system names from the three fields. */
  function OsNames(pretty: string, name: string, version: string): (r: (string, string))
    ensures r.0 != "" && r.1 != ""
    ensures pretty != "" ==> r.0 == pretty && r.1 == pretty
    ensures pretty == "" ==> r.1 == r.0
    ensures pretty == "" && name != "" && version != "" ==> r.0 == name + " " + version
    ensures pretty == "" && name != "" && version == "" ==> r.0 == name
    ensures pretty == "" && name == "" ==> r.0 == "Linux"
  {
    var short :=
      if pretty != "" then pretty
      else if name != "" then (if version != "" then name + " " + version else name)
      else "Linux";
    var full := if pretty != "" then pretty else short;
    (short, full)
  }

  /** `read_os_info`; a file that cannot be opened reads as one without lines. */
  function ReadOsInfo(file: Option<seq<string>>): (r: (string, string))
    ensures r.0 != "" && r.1 != ""
    ensures file.None? ==> r == ("Linux", "Linux")
  {
    var lines := file.GetOr([]);
    OsNames(PrettyOf(lines), NameOf(lines), VersionOf(lines))
  }

  method ReadOsInfoLoop(file: Option<seq<string>>) returns (osShort: string, osFull: string)
    ensures (osShort, osFull) == ReadOsInfo(file)
  {
    var lines := file.GetOr([]);
    var pretty, name, version := "", "", "";
    var i := 0;
    while i < |lines|
      invariant 0 <= i <= |lines|
      invariant pretty == PrettyOf(lines[..i])
      invariant name == NameOf(lines[..i])
      invariant version == VersionOf(lines[..i])
      decreases |lines| - i
    {
      var line := lines[i];
      assert lines[..i + 1][..i] == lines[..i];
      if IsPrettyLine(line) {
        pretty := FieldValue(line, "PRETTY_NAME=");
      } else if name == "" && IsNameLine(line) {
        name := FieldValue(line, "NAME=");
      } else if version == "" && IsVersionLine(line) {
        version := FieldValue(line, "VERSION=");
      }
      i := i + 1;
    }
    assert lines[..i] == lines;
    var names := OsNames(pretty, name, version);
    osShort, osFull := names.0, names.1;
  }

  /** A later PRETTY_NAME line replaces an earlier one. */
  lemma {:induction false} PrettyIsLastOccurrence(lines: seq<string>, line: string, rest: seq<string>)
    requires IsPrettyLine(line)
    requires forall i :: 0 <= i < |rest| ==> !IsPrettyLine(rest[i])
    ensures PrettyOf(lines + [line] + rest) == FieldValue(line, "PRETTY_NAME=")
    decreases |rest|
  {
    var all := lines + [line] + rest;
    if |rest| == 0 {
      assert all[|all| - 1] == line;
    } else {
      assert all[..|all| - 1] == lines + [line] + rest[..|rest| - 1];
      PrettyIsLastOccurrence(lines, line, rest[..|rest| - 1]);
    }
  }

  /** Once NAME holds a non-empty value, no later line changes it. */
  lemma {:induction false} NameIsFirstNonEmpty(lines: seq<string>, more: seq<string>)
    requires NameOf(lines) != ""
    ensures NameOf(lines + more) == NameOf(lines)
    decreases |more|
  {
    if |more| > 0 {
      var all := lines + more;
      assert all[..|all| - 1] == lines + more[..|more| - 1];
      NameIsFirstNonEmpty(lines, more[..|more| - 1]);
    } else {
      assert lines + more == lines;
    }
  }

  /** The same holds for VERSION. */
  lemma {:induction false} VersionIsFirstNonEmpty(lines: seq<string>, more: seq<string>)
    requires VersionOf(lines) != ""
    ensures VersionOf(lines + more) == VersionOf(lines)
    decreases |more|
  {
    if |more| > 0 {
      var all := lines + more;
      assert all[..|all| - 1] == lines + more[..|more| - 1];
      VersionIsFirstNonEmpty(lines, more[..|more| - 1]);
    } else {
      assert lines + more == lines;
    }
  }

  /** A quoted value reads back without its quotes. */
  lemma {:induction false} FieldValueOfQuoted(key: string, v: string)
    requires key != [] && key[0] != '"'
    requires v != [] && v[0] != '"' && v[|v| - 1] != '"'
    ensures FieldValue(key + "\"" + v + "\"", key) == v
  {
    var quoted := "\"" + v + "\"";
    var line := key + quoted;
    assert key + "\"" + v + "\"" == line;
    assert StartsWith(line, key) by {
      assert line[..|key|] == key;
    }
    assert line[|key|..] == quoted;
    assert !StartsWith(quoted, key) by {
      assert quoted[0] == '"';
    }
    assert TrimStartMatches(line, key) == quoted;
    TrimMatchesEnclosed(v, '"');
  }

  /** Without a PRETTY_NAME line, "NAME=..." and "VERSION=..." lines make
      "name version" both names. */
  lemma {:induction false} OsInfoFromNameAndVersion(name: string, version: string)
    requires name != [] && name[0] != '"' && name[|name| - 1] != '"'
    requires version != [] && version[0] != '"' && version[|version| - 1] != '"'
    ensures var lines := ["NAME=\"" + name + "\"", "VERSION=\"" + version + "\""];
      ReadOsInfo(Some(lines)) == (name + " " + version, name + " " + version)
  {
    var l0 := "NAME=\"" + name + "\"";
    var l1 := "VERSION=\"" + version + "\"";
    assert l0 == "NAME=" + "\"" + name + "\"";
    assert l1 == "VERSION=" + "\"" + version + "\"";
    FieldValueOfQuoted("NAME=", name);
    FieldValueOfQuoted("VERSION=", version);
    assert IsNameLine(l0) by { assert l0[..5] == "NAME="; }
    assert IsVersionLine(l1) by { assert l1[..8] == "VERSION="; }
    assert !IsPrettyLine(l0) by { assert l0[0] == 'N'; }
    assert !IsPrettyLine(l1) && !IsNameLine(l1) by { assert l1[0] == 'V'; }
    var first := [l0];
    var lines := [l0, l1];
    assert first[..0] == [] && lines[..1] == first;
    assert PrettyOf(first) == PrettyStep("", l0) == "";
    assert NameOf(first) == NameStep("", l0) == FieldValue(l0, "NAME=") == name;
    assert VersionOf(first) == VersionStep("", "", l0) == "";
    assert PrettyOf(lines) == "" && NameOf(lines) == name && VersionOf(lines) == version;
  }

  lemma {:induction false} OsInfoWithoutFile()
    ensures ReadOsInfo(None) == ("Linux", "Linux")
  {
  }

  // ------------------------------------------------------------ /proc/cpuinfo

  predicate IsModelLine(line: string) {
    StartsWith(line, "model name")
  }

  predicate IsHypervisorFlagsLine(line: string) {
    StartsWith(line, "flags") && Contains(line, "hypervisor")
  }

  predicate IsProcessorLine(line: string) {
    StartsWith(line, "processor")
  }

  predicate IsVendorLine(line: string) {
    StartsWith(line, "Hypervisor vendor")
  }

  const UNKNOWN_CPU: string := "Unknown CPU"

  /** The accumulators of `read_cpu_info`'s loop. */
  datatype CpuScan = CpuScan(model: string, cores: nat, hypervisor: bool, vendor: string)

  /** One line of /proc/cpuinfo, branch for branch. */
  function CpuInfoStep(st: CpuScan, line: string): (r: CpuScan)
    ensures r.cores == st.cores || (r.cores == st.cores + 1 && IsProcessorLine(line))
    ensures st.model != UNKNOWN_CPU ==> r.model == st.model
    ensures st.hypervisor ==> r.hypervisor
    ensures !st.hypervisor && r.hypervisor ==> IsHypervisorFlagsLine(line)
  {
    if st.model == UNKNOWN_CPU && IsModelLine(line) then
      match SecondPiece(line, ':')
      case Some(v) => st.(model := Trim(v))
      case None => st
    else if IsHypervisorFlagsLine(line) then st.(hypervisor := true)
    else if IsProcessorLine(line) then st.(cores := st.cores + 1)
    else if IsVendorLine(line) then
      match SecondPiece(line, ':')
      case Some(v) => st.(vendor := Trim(v))
      case None => st
    else st
  }

  function ScanCpuInfo(lines: seq<string>): (r: CpuScan)
    ensures r.cores <= |lines|
  {
    if |lines| == 0 then CpuScan(UNKNOWN_CPU, 0, false, "")
    else CpuInfoStep(ScanCpuInfo(lines[..|lines| - 1]), lines[|lines| - 1])
  }

  /** The label a virtual machine's CPU gets: the vendor when known, else the model. */
  function VirtualLabel(model: string, vendor: string): string {
    "\U{865A}\U{62DF} CPU" + (if vendor != "" then " (" + vendor + ")" else " / " + model)
  }

  /** `read_cpu_info`: the model (relabelled on a hypervisor) and the core
      count, at least 1; a file that cannot be opened gives ("Unknown CPU", 1). */
  function ReadCpuInfo(file: Option<seq<string>>): (r: (string, nat))
    ensures r.1 >= 1
    ensures file.None? ==> r == (UNKNOWN_CPU, 1)
  {
    if file.None? then (UNKNOWN_CPU, 1)
    else
      var st := ScanCpuInfo(file.value);
      var cores := if st.cores == 0 then 1 else st.cores;
      var model := if st.hypervisor then VirtualLabel(st.model, st.vendor) else st.model;
      (model, cores)
  }

  method ReadCpuInfoLoop(file: Option<seq<string>>) returns (model: string, cores: nat)
    ensures (model, cores) == ReadCpuInfo(file)
  {
    if file.None? {
      return UNKNOWN_CPU, 1;
    }
    var lines := file.value;
    model, cores := UNKNOWN_CPU, 0;
    var hypervisor, vendor := false, "";
    var i := 0;
    while i < |lines|
      invariant 0 <= i <= |lines|
      invariant ScanCpuInfo(lines[..i]) == CpuScan(model, cores, hypervisor, vendor)
      decreases |lines| - i
    {
      var line := lines[i];
      assert lines[..i + 1][..i] == lines[..i];
      if model == UNKNOWN_CPU && IsModelLine(line) {
        var v := SecondPiece(line, ':');
        if v.Some? {
          model := Trim(v.value);
        }
      } else if IsHypervisorFlagsLine(line) {
        hypervisor := true;
      } else if IsProcessorLine(line) {
        cores := cores + 1;
      } else if IsVendorLine(line) {
        var v := SecondPiece(line, ':');
        if v.Some? {
          vendor := Trim(v.value);
        }
      }
      i := i + 1;
    }
    assert lines[..i] == lines;
    if cores == 0 {
      cores := 1;
    }
    if hypervisor {
      model := VirtualLabel(model, vendor);
    }
  }

  /** The number of lines that start with "processor". */
  function CountProcessors(lines: seq<string>): nat {
    if |lines| == 0 then 0
    else CountProcessors(lines[..|lines| - 1]) + (if IsProcessorLine(lines[|lines| - 1]) then 1 else 0)
  }

  /** One line adds a core exactly when it is a "processor" line, which no
      earlier branch of the step can claim. */
  lemma {:induction false} StepCountsProcessor(st: CpuScan, line: string)
    ensures CpuInfoStep(st, line).cores == st.cores + (if IsProcessorLine(line) then 1 else 0)
    ensures CpuInfoStep(st, line).hypervisor == (st.hypervisor || IsHypervisorFlagsLine(line))
    ensures st.model != UNKNOWN_CPU ==> CpuInfoStep(st, line).model == st.model
  {
    if IsProcessorLine(line) {
      assert line[0] == 'p';
      assert !IsModelLine(line) && !StartsWith(line, "flags");
    }
    if IsHypervisorFlagsLine(line) {
      assert line[0] == 'f';
      assert !IsModelLine(line);
    }
  }

  /** The core count is the number of "processor" lines, or 1 when there is none. */
  lemma {:induction false} CoresCountProcessorLines(lines: seq<string>)
    ensures ScanCpuInfo(lines).cores == CountProcessors(lines)
    ensures ReadCpuInfo(Some(lines)).1 == if CountProcessors(lines) == 0 then 1 else CountProcessors(lines)
    decreases |lines|
  {
    if |lines| > 0 {
      var init := lines[..|lines| - 1];
      CoresCountProcessorLines(init);
      StepCountsProcessor(ScanCpuInfo(init), lines[|lines| - 1]);
    }
  }

  /** The hypervisor mark is set exactly when some "flags" line mentions "hypervisor". */
  lemma {:induction false} HypervisorIffFlagged(lines: seq<string>)
    ensures ScanCpuInfo(lines).hypervisor <==> exists i :: 0 <= i < |lines| && IsHypervisorFlagsLine(lines[i])
    decreases |lines|
  {
    if |lines| > 0 {
      var init := lines[..|lines| - 1];
      var line := lines[|lines| - 1];
      HypervisorIffFlagged(init);
      StepCountsProcessor(ScanCpuInfo(init), line);
      FlagLineSplit(lines);
    }
  }

  predicate HasFlagLine(lines: seq<string>) {
    exists i :: 0 <= i < |lines| && IsHypervisorFlagsLine(lines[i])
  }

  /** A flagged line is in the earlier lines or is the last one. */
  lemma FlagLineSplit(lines: seq<string>)
    requires |lines| > 0
    ensures HasFlagLine(lines) <==>
      (HasFlagLine(lines[..|lines| - 1]) || IsHypervisorFlagsLine(lines[|lines| - 1]))
  {
    var init := lines[..|lines| - 1];
    assert forall i :: 0 <= i < |init| ==> init[i] == lines[i];
  }

  /** Once a model name other than "Unknown CPU" is read, later lines keep it. */
  lemma ModelIsFirstKnown(lines: seq<string>, more: seq<string>)
    requires ScanCpuInfo(lines).model != UNKNOWN_CPU
    ensures ScanCpuInfo(lines + more).model == ScanCpuInfo(lines).model
  {
    var all := lines + more;
    assert all[..|lines|] == lines;
    ModelKeptFrom(all, |lines|);
  }

  lemma {:induction false} ModelKeptFrom(all: seq<string>, n: nat)
    requires n <= |all| && ScanCpuInfo(all[..n]).model != UNKNOWN_CPU
    ensures ScanCpuInfo(all).model == ScanCpuInfo(all[..n]).model
    decreases |all|
  {
    if n < |all| {
      var init := all[..|all| - 1];
      assert init[..n] == all[..n];
      ModelKeptFrom(init, n);
      ModelStaysAfterLine(all);
    } else {
      assert all[..n] == all;
    }
  }

  lemma ModelStaysAfterLine(all: seq<string>)
    requires |all| > 0 && ScanCpuInfo(all[..|all| - 1]).model != UNKNOWN_CPU
    ensures ScanCpuInfo(all).model == ScanCpuInfo(all[..|all| - 1]).model
  {
    StepCountsProcessor(ScanCpuInfo(all[..|all| - 1]), all[|all| - 1]);
  }

  /** The two shapes of the relabelled model. */
  lemma VirtualLabelShape(model: string, vendor: string)
    ensures vendor != "" ==> VirtualLabel(model, vendor) == "\U{865A}\U{62DF} CPU (" + vendor + ")"
    ensures vendor == "" ==> VirtualLabel(model, vendor) == "\U{865A}\U{62DF} CPU / " + model
  {
    var tag := "\U{865A}\U{62DF} CPU";
    if vendor != "" {
      assert tag + (" (" + vendor + ")") == tag + " (" + vendor + ")";
    } else {
      assert tag + (" / " + model) == tag + " / " + model;
    }
  }

  /** On a virtual machine, the reported model names the hypervisor vendor
      when one was read, and otherwise the CPU model. */
  lemma {:induction false} VirtualMachineLabel(lines: seq<string>)
    requires exists i :: 0 <= i < |lines| && IsHypervisorFlagsLine(lines[i])
    ensures var st := ScanCpuInfo(lines);
      && (st.vendor != "" ==> ReadCpuInfo(Some(lines)).0 == "\U{865A}\U{62DF} CPU (" + st.vendor + ")")
      && (st.vendor == "" ==> ReadCpuInfo(Some(lines)).0 == "\U{865A}\U{62DF} CPU / " + st.model)
  {
    HypervisorIffFlagged(lines);
    var st := ScanCpuInfo(lines);
    assert ReadCpuInfo(Some(lines)).0 == VirtualLabel(st.model, st.vendor);
    VirtualLabelShape(st.model, st.vendor);
  }
}
