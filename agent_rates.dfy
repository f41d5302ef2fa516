/** The agent's counter arithmetic (src/bin/agent.rs): CPU usage from two
    samples of the kernel's CPU time counters, memory use, network rates,
    and the state the report loop carries from one tick to the next.
    Counters are `nat`s kept within `u64`; rates and percentages are `real`
    (the agent's `f64` values before rounding). */
module AgentRates {
  import opened Common

  /** The eight counters of the aggregate "cpu" line, in clock ticks. */
  datatype CpuTimes = CpuTimes(
    user: nat, nice: nat, system: nat, idle: nat,
    iowait: nat, irq: nat, softirq: nat, steal: nat)

  function IdleOf(t: CpuTimes): nat {
    t.idle + t.iowait
  }

  function TotalOf(t: CpuTimes): nat {
    IdleOf(t) + t.user + t.nice + t.system + t.irq + t.softirq + t.steal
  }

  /** The ticks spent on work: every counter but idle and iowait. */
  function BusyOf(t: CpuTimes): nat {
    t.user + t.nice + t.system + t.irq + t.softirq + t.steal
  }

  /** The `u64` sums of `compute_cpu_usage` do not overflow. */
  predicate SumsFit(t: CpuTimes) {
    IsU64(TotalOf(t))
  }

  /** No counter went backwards between the two samples. */
  predicate Monotone(prev: CpuTimes, curr: CpuTimes) {
    prev.user <= curr.user && prev.nice <= curr.nice && prev.system <= curr.system &&
    prev.idle <= curr.idle && prev.iowait <= curr.iowait && prev.irq <= curr.irq &&
    prev.softirq <= curr.softirq && prev.steal <= curr.steal
  }

  /** `compute_cpu_usage`: the busy share of the ticks elapsed between the
      samples, in percent, from saturating differences of the idle and total
      sums; 0 when no tick elapsed. */
  function ComputeCpuUsage(prev: CpuTimes, curr: CpuTimes): (u: real)
    requires SumsFit(prev) && SumsFit(curr)
    ensures TotalOf(curr) <= TotalOf(prev) ==> u == 0.0
    ensures u <= 100.0
  {
    var totald := SatSub(TotalOf(curr), TotalOf(prev)) as real;
    var idled := SatSub(IdleOf(curr), IdleOf(prev)) as real;
    if totald <= 0.0 then 0.0
    else
      RatioBounds(idled, totald);
      (1.0 - idled / totald) * 100.0
  }

  /** The idle share of the elapsed ticks is never negative, and at most 1
      when the idle ticks do not outnumber the elapsed ones. */
  lemma RatioBounds(idled: real, totald: real)
    requires 0.0 <= idled && 0.0 < totald
    ensures 0.0 <= idled / totald
    ensures idled <= totald ==> idled / totald <= 1.0
  {
    var q := idled / totald;
    assert q * totald == idled;
  }

  /** Whenever the counters only grow, the usage is a percentage. */
  lemma CpuUsageInRange(prev: CpuTimes, curr: CpuTimes)
    requires SumsFit(prev) && SumsFit(curr)
    requires Monotone(prev, curr)
    ensures 0.0 <= ComputeCpuUsage(prev, curr) <= 100.0
  {
    var totald := SatSub(TotalOf(curr), TotalOf(prev)) as real;
    var idled := SatSub(IdleOf(curr), IdleOf(prev)) as real;
    if totald > 0.0 {
      assert idled <= totald;
      RatioBounds(idled, totald);
    }
  }

  /** With all but the idle counters frozen, the usage is 0: an idle machine reads idle. */
  lemma IdleTicksReadAsZero(prev: CpuTimes, curr: CpuTimes)
    requires SumsFit(prev) && SumsFit(curr)
    requires Monotone(prev, curr)
    requires curr.user == prev.user && curr.nice == prev.nice && curr.system == prev.system
    requires curr.irq == prev.irq && curr.softirq == prev.softirq && curr.steal == prev.steal
    ensures ComputeCpuUsage(prev, curr) == 0.0
  {
  }

  /** The value of the usage once ticks elapsed and the idle sum did not
      fall: the busy ticks among the elapsed ones, in percent. */
  lemma CpuUsageIsBusyShare(prev: CpuTimes, curr: CpuTimes)
    requires SumsFit(prev) && SumsFit(curr)
    requires TotalOf(prev) < TotalOf(curr) && IdleOf(prev) <= IdleOf(curr)
    ensures ComputeCpuUsage(prev, curr) * (TotalOf(curr) - TotalOf(prev)) as real
         == 100.0 * (BusyOf(curr) - BusyOf(prev)) as real
  {
    var totald := (TotalOf(curr) - TotalOf(prev)) as real;
    var idled := (IdleOf(curr) - IdleOf(prev)) as real;
    assert ComputeCpuUsage(prev, curr) == (1.0 - idled / totald) * 100.0;
    assert (idled / totald) * totald == idled;
  }

  /** With idle and iowait frozen, every elapsed tick was busy: the usage is 100. */
  lemma BusyTicksReadAsFull(prev: CpuTimes, curr: CpuTimes)
    requires SumsFit(prev) && SumsFit(curr)
    requires TotalOf(prev) < TotalOf(curr)
    requires curr.idle == prev.idle && curr.iowait == prev.iowait
    ensures ComputeCpuUsage(prev, curr) == 100.0
  {
  }

  /** When a busy counter goes backwards the result can leave [0, 100]:
      if more idle ticks than ticks in total elapsed between the samples
      (say user falls from 10 to 5 while idle rises by 8), the usage is
      negative. */
  lemma CpuUsageCanBeNegative(prev: CpuTimes, curr: CpuTimes)
    requires SumsFit(prev) && SumsFit(curr)
    requires TotalOf(prev) < TotalOf(curr)
    requires TotalOf(curr) - TotalOf(prev) < IdleOf(curr) - IdleOf(prev)
    ensures ComputeCpuUsage(prev, curr) < 0.0
  {
    var totald := SatSub(TotalOf(curr), TotalOf(prev)) as real;
    var idled := SatSub(IdleOf(curr), IdleOf(prev)) as real;
    RatioAboveOne(idled, totald);
  }

  /** More idle ticks than elapsed ones make an idle share above 1. */
  lemma RatioAboveOne(idled: real, totald: real)
    requires 0.0 < totald < idled
    ensures idled / totald > 1.0
  {
    var q := idled / totald;
    assert q * totald == idled;
  }

  /** The memory figure of the report loop: the used share of `MemTotal`
      in percent, with the used amount saturating at 0; 0 without a total. */
  function MemoryPercent(total: nat, available: nat): (p: real)
    ensures p >= 0.0
    ensures available >= total ==> p == 0.0
  {
    if total > 0 then (SatSub(total, available) as real / total as real) * 100.0 else 0.0
  }

  lemma MemoryPercentInRange(total: nat, available: nat)
    ensures 0.0 <= MemoryPercent(total, available) <= 100.0
    ensures total == 0 || available >= total ==> MemoryPercent(total, available) == 0.0
    ensures total > 0 && available == 0 ==> MemoryPercent(total, available) == 100.0
  {
    if total > 0 {
      var used := SatSub(total, available) as real;
      assert used <= total as real;
      assert used / total as real <= 1.0;
      if available == 0 {
        assert used == total as real;
      }
    }
  }

  const MIB: nat := 1024 * 1024
  const GIB: nat := 1024 * 1024 * 1024

  /** `bytes_per_sec_to_mb`: bytes over an interval as MiB per second; 0 for a zero interval. */
  function BytesPerSecToMb(bytes: nat, intervalSec: nat): (mb: real)
    ensures mb >= 0.0
    ensures intervalSec == 0 ==> mb == 0.0
    ensures intervalSec > 0 ==> mb * intervalSec as real * MIB as real == bytes as real
  {
    if intervalSec == 0 then 0.0
    else
      var perSec := bytes as real / intervalSec as real;
      perSec / MIB as real
  }

  /** `bytes_to_gb`: a byte count in GiB. */
  function BytesToGb(bytes: nat): (gb: real)
    ensures gb >= 0.0
    ensures gb * GIB as real == bytes as real
  {
    bytes as real / GIB as real
  }

  /** The pause at the end of a tick that took `elapsed` seconds: the rest
      of the interval, or none when the tick overran it. */
  function SleepFor(elapsed: real, intervalSec: nat): (pause: real)
    requires elapsed >= 0.0
    ensures pause >= 0.0
    ensures pause > 0.0 <==> elapsed < intervalSec as real
    ensures pause > 0.0 ==> elapsed + pause == intervalSec as real
  {
    if elapsed < intervalSec as real then intervalSec as real - elapsed else 0.0
  }

  // ------------------------------------------------------------ the report loop

  /** What the /proc readers returned on one tick; `None` where a reader failed.
      `mem` is (MemTotal, MemAvailable) in bytes, `net` is (sent, received). */
  datatype Reading = Reading(cpu: Option<CpuTimes>, mem: Option<(nat, nat)>, net: Option<(nat, nat)>)

  /** The state the loop carries between ticks. */
  datatype AgentState = AgentState(prevCpu: Option<CpuTimes>, prevNet: (nat, nat))

  /** The computed part of one report (before rounding). */
  datatype Sample = Sample(
    cpu: real, memoryPercent: real,
    sentSpeed: real, recvSpeed: real,
    totalSent: real, totalRecv: real)

  predicate CpuFits(t: Option<CpuTimes>) {
    t.None? || SumsFit(t.value)
  }

  predicate ReadingFits(r: Reading) {
    CpuFits(r.cpu)
  }

  /** CPU usage on a tick: 0 unless both the previous and the current sample exist. */
  function TickCpu(prev: Option<CpuTimes>, curr: Option<CpuTimes>): (u: real)
    requires CpuFits(prev) && CpuFits(curr)
    ensures prev.None? || curr.None? ==> u == 0.0
    ensures prev.Some? && curr.Some? ==> u == ComputeCpuUsage(prev.value, curr.value)
  {
    match (prev, curr)
    case (Some(p), Some(c)) => ComputeCpuUsage(p, c)
    case _ => 0.0
  }

  /** The initial state: the first readings before the loop, a missing
      network reading standing for zero counters. */
  function Start(cpu: Option<CpuTimes>, net: Option<(nat, nat)>): (s: AgentState)
    ensures s.prevCpu == cpu && s.prevNet == net.GetOr((0, 0))
  {
    AgentState(cpu, net.GetOr((0, 0)))
  }

  /** One tick of the report loop: the sample it reports and the state it leaves. */
  function Tick(s: AgentState, reading: Reading, intervalSec: nat): (r: (Sample, AgentState))
    requires CpuFits(s.prevCpu) && ReadingFits(reading)
    ensures r.1.prevCpu == reading.cpu && r.1.prevNet == reading.net.GetOr((0, 0))
    ensures CpuFits(r.1.prevCpu)
    ensures r.0.sentSpeed >= 0.0 && r.0.recvSpeed >= 0.0
    ensures r.0.totalSent >= 0.0 && r.0.totalRecv >= 0.0
    ensures reading.mem.None? ==> r.0.memoryPercent == 0.0
  {
    var cpu := TickCpu(s.prevCpu, reading.cpu);
    var mem := reading.mem.GetOr((0, 0));
    var net := reading.net.GetOr((0, 0));
    var deltaSent := SatSub(net.0, s.prevNet.0);
    var deltaRecv := SatSub(net.1, s.prevNet.1);
    var sample := Sample(cpu, MemoryPercent(mem.0, mem.1),
                         BytesPerSecToMb(deltaSent, intervalSec), BytesPerSecToMb(deltaRecv, intervalSec),
                         BytesToGb(net.0), BytesToGb(net.1));
    (sample, AgentState(reading.cpu, net))
  }

  /** Each tick replaces both remembered readings by the current ones, a
      failed CPU read included; reported figures stay within their ranges,
      and a counter that went backwards reports a rate of 0. */
  lemma TickProperties(s: AgentState, reading: Reading, intervalSec: nat)
    requires CpuFits(s.prevCpu) && ReadingFits(reading)
    ensures var (sample, next) := Tick(s, reading, intervalSec);
      && next.prevCpu == reading.cpu
      && next.prevNet == reading.net.GetOr((0, 0))
      && (s.prevCpu.None? || reading.cpu.None? ==> sample.cpu == 0.0)
      && sample.cpu <= 100.0
      && 0.0 <= sample.memoryPercent <= 100.0
      && (reading.mem.None? ==> sample.memoryPercent == 0.0)
      && sample.sentSpeed >= 0.0 && sample.recvSpeed >= 0.0
      && (reading.net.GetOr((0, 0)).0 <= s.prevNet.0 ==> sample.sentSpeed == 0.0)
      && (reading.net.GetOr((0, 0)).1 <= s.prevNet.1 ==> sample.recvSpeed == 0.0)
  {
    var mem := reading.mem.GetOr((0, 0));
    MemoryPercentInRange(mem.0, mem.1);
  }

  /** Two consecutive CPU samples whose counters only grow give a usage in [0, 100]. */
  lemma TickCpuInRange(s: AgentState, reading: Reading, intervalSec: nat)
    requires CpuFits(s.prevCpu) && ReadingFits(reading)
    requires s.prevCpu.Some? && reading.cpu.Some? ==> Monotone(s.prevCpu.value, reading.cpu.value)
    ensures 0.0 <= Tick(s, reading, intervalSec).0.cpu <= 100.0
  {
    if s.prevCpu.Some? && reading.cpu.Some? {
      CpuUsageInRange(s.prevCpu.value, reading.cpu.value);
    }
  }

  /** The loop over a sequence of ticks: the samples reported and the final state. */
  function Run(s: AgentState, readings: seq<Reading>, intervalSec: nat): (r: (seq<Sample>, AgentState))
    requires CpuFits(s.prevCpu)
    requires forall i :: 0 <= i < |readings| ==> ReadingFits(readings[i])
    ensures |r.0| == |readings|
    ensures CpuFits(r.1.prevCpu)
    decreases |readings|
  {
    if |readings| == 0 then ([], s)
    else
      var (sample, next) := Tick(s, readings[0], intervalSec);
      var (rest, last) := Run(next, readings[1..], intervalSec);
      ([sample] + rest, last)
  }

  /** After at least one tick, the state remembers exactly the last readings. */
  lemma {:induction false} RunRemembersLastReading(s: AgentState, readings: seq<Reading>, intervalSec: nat)
    requires CpuFits(s.prevCpu)
    requires forall i :: 0 <= i < |readings| ==> ReadingFits(readings[i])
    requires |readings| > 0
    ensures Run(s, readings, intervalSec).1 ==
      AgentState(readings[|readings| - 1].cpu, readings[|readings| - 1].net.GetOr((0, 0)))
    decreases |readings|
  {
    if |readings| > 1 {
      var next := Tick(s, readings[0], intervalSec).1;
      RunRemembersLastReading(next, readings[1..], intervalSec);
    }
  }

  /** `Run` from the i-th reading on is one tick followed by `Run` from the next. */
  lemma RunStep(s: AgentState, readings: seq<Reading>, i: nat, intervalSec: nat)
    requires CpuFits(s.prevCpu)
    requires forall k :: 0 <= k < |readings| ==> ReadingFits(readings[k])
    requires i < |readings|
    ensures var (sample, next) := Tick(s, readings[i], intervalSec);
      Run(s, readings[i..], intervalSec) ==
        ([sample] + Run(next, readings[i + 1..], intervalSec).0, Run(next, readings[i + 1..], intervalSec).1)
  {
    assert readings[i..][0] == readings[i];
    assert readings[i..][1..] == readings[i + 1..];
  }

  /** The report loop of `main`, over the readings of its first ticks: the
      initial readings seed `prev_cpu` and `prev_net`, and every tick
      reports a sample and replaces them. Pushing the report and sleeping
      do not touch this state. */
  method ReportLoop(firstCpu: Option<CpuTimes>, firstNet: Option<(nat, nat)>,
                    readings: seq<Reading>, intervalSec: nat)
    returns (samples: seq<Sample>, prevCpu: Option<CpuTimes>, prevNet: (nat, nat))
    requires CpuFits(firstCpu)
    requires forall i :: 0 <= i < |readings| ==> ReadingFits(readings[i])
    ensures (samples, AgentState(prevCpu, prevNet)) == Run(Start(firstCpu, firstNet), readings, intervalSec)
  {
    prevCpu := firstCpu;
    prevNet := firstNet.GetOr((0, 0));
    samples := [];
    var i := 0;
    assert readings[i..] == readings;
    assert samples + Run(AgentState(prevCpu, prevNet), readings[i..], intervalSec).0 ==
      Run(AgentState(prevCpu, prevNet), readings, intervalSec).0;
    while i < |readings|
      invariant 0 <= i <= |readings|
      invariant CpuFits(prevCpu)
      invariant samples + Run(AgentState(prevCpu, prevNet), readings[i..], intervalSec).0 ==
        Run(Start(firstCpu, firstNet), readings, intervalSec).0
      invariant Run(AgentState(prevCpu, prevNet), readings[i..], intervalSec).1 ==
        Run(Start(firstCpu, firstNet), readings, intervalSec).1
      decreases |readings| - i
    {
      var reading := readings[i];
      RunStep(AgentState(prevCpu, prevNet), readings, i, intervalSec);
      ghost var before := AgentState(prevCpu, prevNet);
      var cpuUsage := TickCpu(prevCpu, reading.cpu);
      prevCpu := reading.cpu;
      var mem := reading.mem.GetOr((0, 0));
      var memoryPercent := MemoryPercent(mem.0, mem.1);
      var net := reading.net.GetOr((0, 0));
      var deltaSent := SatSub(net.0, prevNet.0);
      var deltaRecv := SatSub(net.1, prevNet.1);
      prevNet := net;
      var sample := Sample(cpuUsage, memoryPercent,
                           BytesPerSecToMb(deltaSent, intervalSec), BytesPerSecToMb(deltaRecv, intervalSec),
                           BytesToGb(net.0), BytesToGb(net.1));
      assert (sample, AgentState(prevCpu, prevNet)) == Tick(before, reading, intervalSec);
      assert samples + [sample] + Run(AgentState(prevCpu, prevNet), readings[i + 1..], intervalSec).0 ==
        samples + ([sample] + Run(AgentState(prevCpu, prevNet), readings[i + 1..], intervalSec).0);
      samples := samples + [sample];
      i := i + 1;
    }
    assert readings[i..] == [];
    assert samples + [] == samples;
  }
}
