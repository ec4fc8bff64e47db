/** Rates taken from counters that only grow: network speeds, processor usage, and the
    bounded history they are kept in. */
module RateSeries {
  import opened Wrappers

  datatype System = Linux | Bsd | Windows

  // ---------------------------------------------------------------------------
  // Bounded series
  // ---------------------------------------------------------------------------

  /** The last `n` elements, or all of them. */
  function Last<T>(s: seq<T>, n: nat): (r: seq<T>)
    ensures |r| == if |s| <= n then |s| else n
  {
    if |s| <= n then s else s[|s| - n..]
  }

  lemma {:induction false} LastOneMore<T>(s: seq<T>, x: T, n: nat)
    requires n > 0
    ensures Last(s + [x], n) == (if |Last(s, n)| >= n then Last(s, n)[1..] else Last(s, n)) + [x]
  {
  }

  lemma {:induction false} LastOfLast<T>(s: seq<T>, m: nat, n: nat)
    ensures Last(Last(s, m), n) == Last(s, if m < n then m else n)
  {
  }

  class TimeSeries<T> {
    var data: seq<T>
    const maxPoints: nat
    /** Every point ever added. */
    ghost var all: seq<T>

    /** Even a series of no points holds one: the oldest goes before the new one
        comes. */
    ghost function Capacity(): nat {
      if maxPoints == 0 then 1 else maxPoints
    }

    ghost predicate Valid()
      reads this
    {
      data == Last(all, Capacity())
    }

    constructor (maxPoints: nat)
      ensures Valid() && all == [] && this.maxPoints == maxPoints
    {
      this.maxPoints := maxPoints;
      data, all := [], [];
    }

    method AddPoint(point: T)
      requires Valid()
      modifies this
      ensures Valid() && all == old(all) + [point]
    {
      LastOneMore(all, point, Capacity());
      if |data| >= maxPoints && data != [] {
        data := data[1..];
      }
      data := data + [point];
      all := all + [point];
    }
  }

  // ---------------------------------------------------------------------------
  // Network speeds
  // ---------------------------------------------------------------------------

  /** Times are in nanoseconds. */
  datatype Sample = Sample(rx: nat, tx: nat, at: int)

  /** The two latest values of something. */
  datatype TimeSequence<T> = TimeSequence(old_: Option<T>, new_: Option<T>) {
    function Update(value: T): TimeSequence<T> {
      TimeSequence(new_, Some(value))
    }
  }

  const NS_PER_MS := 1000000

  function ElapsedMs(before: Sample, after: Sample): int {
    (after.at - before.at) / NS_PER_MS
  }

  function Seconds(ms: int): real {
    ms as real / 1000.0
  }

  /** The rate of a counter over a window, if the window is a millisecond or more and
      the counter has not gone back. */
  function Rate(before: nat, after: nat, ms: int): Option<real> {
    if ms <= 0 || after < before then None else Some((after - before) as real / Seconds(ms))
  }

  /** The two counters of an interface. */
  datatype Counter = Rx | Tx

  function Count(s: Sample, c: Counter): nat {
    if c.Rx? then s.rx else s.tx
  }

  function SpeedOf(samples: seq<Sample>, c: Counter): Option<real> {
    if |samples| < 2 then None
    else
      var before, after := samples[|samples| - 2], samples[|samples| - 1];
      Rate(Count(before, c), Count(after, c), ElapsedMs(before, after))
  }

  function Latest(samples: seq<Sample>, k: nat): Option<Sample> {
    if k < |samples| then Some(samples[|samples| - 1 - k]) else None
  }

  class NetworkTimeSeries {
    var rxBytes: TimeSequence<nat>
    var txBytes: TimeSequence<nat>
    var timestamps: TimeSequence<int>
    ghost var samples: seq<Sample>

    ghost predicate Holds(s: Option<Sample>, rx: Option<nat>, tx: Option<nat>, at: Option<int>) {
      if s.Some? then rx == Some(s.value.rx) && tx == Some(s.value.tx) && at == Some(s.value.at)
      else rx.None? && tx.None? && at.None?
    }

    ghost predicate Valid()
      reads this
    {
      && Holds(Latest(samples, 0), rxBytes.new_, txBytes.new_, timestamps.new_)
      && Holds(Latest(samples, 1), rxBytes.old_, txBytes.old_, timestamps.old_)
    }

    constructor ()
      ensures Valid() && samples == []
    {
      rxBytes, txBytes, timestamps := TimeSequence(None, None), TimeSequence(None, None), TimeSequence(None, None);
      samples := [];
    }

    method Update(rx: nat, tx: nat, at: int)
      requires Valid()
      modifies this
      ensures Valid() && samples == old(samples) + [Sample(rx, tx, at)]
    {
      rxBytes := rxBytes.Update(rx);
      txBytes := txBytes.Update(tx);
      timestamps := timestamps.Update(at);
      samples := samples + [Sample(rx, tx, at)];
    }

    function ElapsedSeconds(): Option<real>
      reads this
    {
      if timestamps.old_.None? || timestamps.new_.None? then None
      else
        var ms := (timestamps.new_.value - timestamps.old_.value) / NS_PER_MS;
        if Seconds(ms) > 0.0 then Some(Seconds(ms)) else None
    }

    function Speed(counter: TimeSequence<nat>): Option<real>
      reads this
    {
      var elapsed := ElapsedSeconds();
      if elapsed.None? || counter.new_.None? || counter.old_.None? || counter.new_.value < counter.old_.value then None
      else Some((counter.new_.value - counter.old_.value) as real / elapsed.value)
    }

    function GetRxSpeed(): (speed: Option<real>)
      requires Valid()
      reads this
      ensures speed == SpeedOf(samples, Rx)
    {
      Speed(rxBytes)
    }

    function GetTxSpeed(): (speed: Option<real>)
      requires Valid()
      reads this
      ensures speed == SpeedOf(samples, Tx)
    {
      Speed(txBytes)
    }
  }

  /** A speed is in bytes per second, over the whole milliseconds of the window; there
      is none over less than one, nor when the counter went back. */
  lemma {:induction false} SpeedIsBytesPerSecond(samples: seq<Sample>, c: Counter, ms: int)
    requires |samples| >= 2
    requires ms * 1_000_000 <= samples[|samples| - 1].at - samples[|samples| - 2].at < (ms + 1) * 1_000_000
    ensures
      var before, after := Count(samples[|samples| - 2], c), Count(samples[|samples| - 1], c);
      && (SpeedOf(samples, c).Some? <==> ms >= 1 && before <= after)
      && (SpeedOf(samples, c).Some? ==> SpeedOf(samples, c).value * ms as real == 1000.0 * (after - before) as real)
  {
    var before, after := Count(samples[|samples| - 2], c), Count(samples[|samples| - 1], c);
    var window := ElapsedMs(samples[|samples| - 2], samples[|samples| - 1]);
    assert window == ms;
    if SpeedOf(samples, c).Some? {
      RateAccounts(before, after, ms);
      Thousandths(SpeedOf(samples, c).value, ms as real);
    }
  }

  lemma {:induction false} Thousandths(speed: real, ms: real)
    ensures speed * ms == 1000.0 * (speed * (ms / 1000.0))
  {
    assert ms == 1000.0 * (ms / 1000.0);
  }

  lemma {:induction false} DividedAndBack(a: real, b: real)
    requires b != 0.0
    ensures a / b * b == a
  {
  }

  /** The bytes that the speeds reported after each sample account for. */
  function BytesReported(samples: seq<Sample>, c: Counter): real {
    if |samples| < 2 then 0.0
    else
      var speed := SpeedOf(samples, c);
      BytesReported(samples[..|samples| - 1], c)
      + if speed.Some? then speed.value * Seconds(ElapsedMs(samples[|samples| - 2], samples[|samples| - 1])) else 0.0
  }

  /** What the counter gained in the windows a speed was reported for. */
  function BytesSeen(samples: seq<Sample>, c: Counter): nat {
    if |samples| < 2 then 0
    else
      BytesSeen(samples[..|samples| - 1], c)
      + if SpeedOf(samples, c).Some? then Count(samples[|samples| - 1], c) - Count(samples[|samples| - 2], c) else 0
  }

  lemma {:induction false} SpeedsAccountForBytes(samples: seq<Sample>, c: Counter)
    ensures BytesReported(samples, c) == BytesSeen(samples, c) as real
  {
    if |samples| >= 2 {
      SpeedsAccountForBytes(samples[..|samples| - 1], c);
      var before, after := samples[|samples| - 2], samples[|samples| - 1];
      RateAccounts(Count(before, c), Count(after, c), ElapsedMs(before, after));
    }
  }

  lemma {:induction false} RateAccounts(before: nat, after: nat, ms: int)
    ensures Rate(before, after, ms).Some? ==> Rate(before, after, ms).value * Seconds(ms) == (after - before) as real
  {
    if Rate(before, after, ms).Some? {
      DividedAndBack((after - before) as real, Seconds(ms));
    }
  }

  /** At least a millisecond between samples, and a counter that does not go back. */
  ghost predicate Forward(samples: seq<Sample>, c: Counter) {
    forall i, j :: 0 <= i < |samples| && 0 <= j < |samples| && j == i + 1 ==>
      samples[j].at - samples[i].at >= NS_PER_MS && Count(samples[i], c) <= Count(samples[j], c)
  }

  /** Rates conserve bytes: over a forward run the speeds of either counter, each over
      its own window, add up to exactly what the counter gained. */
  lemma {:induction false} RatesConserveBytes(samples: seq<Sample>, c: Counter)
    requires samples != [] && Forward(samples, c)
    ensures BytesReported(samples, c) == (Count(samples[|samples| - 1], c) - Count(samples[0], c)) as real
  {
    SpeedsAccountForBytes(samples, c);
    SeenIsGained(samples, c);
  }

  lemma {:induction false} SeenIsGained(samples: seq<Sample>, c: Counter)
    requires samples != [] && Forward(samples, c)
    ensures Count(samples[0], c) <= Count(samples[|samples| - 1], c)
    ensures BytesSeen(samples, c) == Count(samples[|samples| - 1], c) - Count(samples[0], c)
  {
    if |samples| >= 2 {
      var init := samples[..|samples| - 1];
      assert Forward(init, c);
      SeenIsGained(init, c);
      var before, after := samples[|samples| - 2], samples[|samples| - 1];
      assert after.at - before.at >= NS_PER_MS;
    }
  }

  // ---------------------------------------------------------------------------
  // Processor usage
  // ---------------------------------------------------------------------------

  datatype CpuCore = CpuCore(id: string, user: nat, sys: nat, nice: nat, idle: nat, iowait: nat, irq: nat, softirq: nat) {
    function Total(): nat {
      user + sys + nice + idle + iowait + irq + softirq
    }

    /** Every field at least what it was. */
    predicate ForwardFrom(pre: CpuCore) {
      && pre.user <= user && pre.sys <= sys && pre.nice <= nice && pre.idle <= idle
      && pre.iowait <= iowait && pre.irq <= irq && pre.softirq <= softirq
    }
  }

  datatype CpuCoreTime = CpuCoreTime(used: nat, total: nat, usagePercent: Option<real>)

  function Share(part: int, whole: int): real
    requires whole != 0
  {
    part as real / whole as real
  }

  /** Usage between two samples of cumulative counters. */
  function CpuUsedPercent(pre: CpuCore, now: CpuCore): real {
    var totalDelta := now.Total() - pre.Total();
    if totalDelta == 0 then 0.0 else 100.0 - Share(now.idle - pre.idle, totalDelta) * 100.0
  }

  function Clamp(x: real): real {
    if x < 0.0 then 0.0 else if x > 100.0 then 100.0 else x
  }

  function CoreUsagePercent(system: System, prev: Option<CpuCoreTime>, now: CpuCoreTime): Option<real> {
    match system
    case Linux =>
      if prev.None? || now.total < prev.value.total || now.used < prev.value.used || now.total == prev.value.total then None
      else Some(Clamp(Share(now.used - prev.value.used, now.total - prev.value.total) * 100.0))
    case _ =>
      if now.total == 0 then None else Some(Clamp(Share(now.used, now.total) * 100.0))
  }

  function FindCpu(cores: seq<CpuCore>): Option<CpuCore> {
    if cores == [] then None else if cores[0].id == "cpu" then Some(cores[0]) else FindCpu(cores[1..])
  }

  function SummaryCore(cores: seq<CpuCore>): Option<CpuCore> {
    if FindCpu(cores).Some? then FindCpu(cores) else if cores == [] then None else Some(cores[0])
  }

  /** The usage of the whole machine, as `adapt_cpu` reports it. */
  function SummaryUsage(system: System, prev: Option<CpuCore>, now: Option<CpuCore>): real {
    match system
    case Linux =>
      if prev.Some? && now.Some? && now.value.Total() > prev.value.Total() then CpuUsedPercent(prev.value, now.value) else 0.0
    case _ =>
      if now.None? || now.value.Total() == 0 then 0.0
      else Share(now.value.Total() - now.value.idle, now.value.Total()) * 100.0
  }

  function CoreTime(c: CpuCore): CpuCoreTime {
    CpuCoreTime(c.Total() - c.idle, c.Total(), None)
  }

  function Cores(cores: seq<CpuCore>): seq<CpuCore> {
    if cores == [] then [] else (if cores[0].id != "cpu" then [cores[0]] else []) + Cores(cores[1..])
  }

  function CoreTimes(system: System, cores: seq<CpuCore>, prev: seq<CpuCoreTime>): (r: seq<CpuCoreTime>)
    ensures |r| == |cores|
    ensures forall i :: 0 <= i < |cores| ==>
      r[i] == CoreTime(cores[i]).(usagePercent :=
        CoreUsagePercent(system, if i < |prev| then Some(prev[i]) else None, CoreTime(cores[i])))
  {
    seq(|cores|, i requires 0 <= i < |cores| =>
      CoreTime(cores[i]).(usagePercent :=
        CoreUsagePercent(system, if i < |prev| then Some(prev[i]) else None, CoreTime(cores[i]))))
  }

  function AdaptCpu(system: System, cores: seq<CpuCore>, prevSummary: Option<CpuCore>, prevCores: seq<CpuCoreTime>)
    : (real, seq<CpuCoreTime>)
  {
    (SummaryUsage(system, prevSummary, SummaryCore(cores)), CoreTimes(system, Cores(cores), prevCores))
  }

  predicate IsPercent(x: real) {
    0.0 <= x <= 100.0
  }

  function Distance(x: real, y: real): real {
    if x < y then y - x else x - y
  }

  /** Clamping gives the nearest percentage. */
  lemma {:induction false} ClampIsNearest(x: real, y: real)
    requires IsPercent(y)
    ensures IsPercent(Clamp(x)) && Distance(Clamp(x), x) <= Distance(y, x)
    ensures Distance(Clamp(x), x) == Distance(y, x) ==> y == Clamp(x)
  {
    if x < 0.0 {
      assert Clamp(x) == 0.0;
    }
  }

  lemma {:induction false} ShareInUnit(part: int, whole: int)
    requires whole > 0
    ensures 0.0 <= Share(part, whole) <==> 0 <= part
    ensures Share(part, whole) <= 1.0 <==> part <= whole
  {
    var share, w := Share(part, whole), whole as real;
    DividedAndBack(part as real, w);
    Scaled(0.0, share, w);
    Scaled(share, 1.0, w);
  }

  lemma {:induction false} Scaled(a: real, b: real, w: real)
    requires w > 0.0
    ensures a <= b <==> a * w <= b * w
  {
    assert b * w - a * w == (b - a) * w;
  }

  lemma {:induction false} Cancelled(a: real, b: real, w: real)
    requires w != 0.0 && a * w == b * w
    ensures a == b
  {
    assert (a - b) * w == 0.0;
  }

  lemma {:induction false} ShareOfRest(part: int, whole: int)
    requires whole != 0
    ensures Share(whole - part, whole) == 1.0 - Share(part, whole)
  {
    var w := whole as real;
    DividedAndBack(part as real, w);
    DividedAndBack((whole - part) as real, w);
    Cancelled(Share(whole - part, whole), 1.0 - Share(part, whole), w);
  }

  /** A usage is a percentage exactly when the idle time gained is part of the whole. */
  lemma {:induction false} UsageIsPercent(pre: CpuCore, now: CpuCore)
    requires now.Total() > pre.Total()
    ensures IsPercent(CpuUsedPercent(pre, now)) <==> 0 <= now.idle - pre.idle <= now.Total() - pre.Total()
  {
    ShareInUnit(now.idle - pre.idle, now.Total() - pre.Total());
  }

  /** The two ways of computing a core's usage, from its idle time and from its used
      time, agree exactly when the idle time gained is part of the whole; outside
      that the one leaves the range and the other clamps or gives up. */
  lemma {:induction false} UsagesAgree(pre: CpuCore, now: CpuCore)
    requires now.Total() > pre.Total()
    ensures CoreUsagePercent(Linux, Some(CoreTime(pre)), CoreTime(now)) == Some(CpuUsedPercent(pre, now))
       <==> 0 <= now.idle - pre.idle <= now.Total() - pre.Total()
  {
    var idle, total := now.idle - pre.idle, now.Total() - pre.Total();
    ShareInUnit(idle, total);
    ShareOfRest(idle, total);
    ShareInUnit(total - idle, total);
  }

  lemma {:induction false} ForwardIsPart(pre: CpuCore, now: CpuCore)
    requires now.ForwardFrom(pre)
    ensures 0 <= now.idle - pre.idle <= now.Total() - pre.Total()
  {
  }

  /** Every field goes forward and every total grows. */
  ghost predicate ForwardTicks(samples: seq<CpuCore>) {
    forall i, j :: 0 <= i < |samples| && 0 <= j < |samples| && j == i + 1 ==>
      samples[j].ForwardFrom(samples[i]) && samples[j].Total() > samples[i].Total()
  }

  /** The usage reported after the last sample. */
  function UsageOf(samples: seq<CpuCore>): real
    requires samples != []
  {
    SummaryUsage(Linux, if |samples| < 2 then None else Some(samples[|samples| - 2]), Some(samples[|samples| - 1]))
  }

  /** The part of a window of ticks, times a hundred, that a usage leaves over. */
  function LeftOver(usage: real, pre: CpuCore, now: CpuCore): real {
    (100.0 - usage) * (now.Total() - pre.Total()) as real
  }

  /** The part not used, each cycle's over its own window of ticks. */
  function IdleReported(samples: seq<CpuCore>): real {
    if |samples| < 2 then 0.0
    else
      IdleReported(samples[..|samples| - 1])
      + LeftOver(UsageOf(samples), samples[|samples| - 2], samples[|samples| - 1])
  }

  lemma {:induction false} IdleOfWindow(pre: CpuCore, now: CpuCore)
    requires now.Total() > pre.Total()
    ensures LeftOver(CpuUsedPercent(pre, now), pre, now) == 100.0 * (now.idle - pre.idle) as real
  {
    var idle, total := now.idle - pre.idle, now.Total() - pre.Total();
    DividedAndBack(idle as real, total as real);
    Reassociate(Share(idle, total), total as real);
  }

  lemma {:induction false} Reassociate(share: real, whole: real)
    ensures (share * 100.0) * whole == 100.0 * (share * whole)
  {
  }

  /** Usage conserves ticks: over a run whose fields all go forward every usage is a
      percentage, and what is left over, each cycle's over its own ticks, adds up to
      exactly the growth of the idle counter. */
  lemma {:induction false} UsageConservesIdle(samples: seq<CpuCore>)
    requires samples != [] && ForwardTicks(samples)
    ensures IsPercent(UsageOf(samples))
    ensures IdleReported(samples) == 100.0 * (samples[|samples| - 1].idle - samples[0].idle) as real
  {
    if |samples| >= 2 {
      var init := samples[..|samples| - 1];
      assert ForwardTicks(init);
      UsageConservesIdle(init);
      var pre, now := samples[|samples| - 2], samples[|samples| - 1];
      assert now.ForwardFrom(pre) && now.Total() > pre.Total();
      LastWindow(samples, pre, now);
      assert IdleReported(samples) == IdleReported(init) + LeftOver(UsageOf(samples), pre, now);
    }
  }

  lemma {:induction false} LastWindow(samples: seq<CpuCore>, pre: CpuCore, now: CpuCore)
    requires |samples| >= 2 && pre == samples[|samples| - 2] && now == samples[|samples| - 1]
    requires now.ForwardFrom(pre) && now.Total() > pre.Total()
    ensures IsPercent(UsageOf(samples))
    ensures LeftOver(UsageOf(samples), pre, now) == 100.0 * (now.idle - pre.idle) as real
  {
    ForwardIsPart(pre, now);
    UsageIsPercent(pre, now);
    IdleOfWindow(pre, now);
  }

  /** Where the counters are percentages already, so is the usage, from one sample. */
  lemma {:induction false} OneShotUsageIsPercent(system: System, prev: Option<CpuCore>, now: Option<CpuCore>)
    requires !system.Linux?
    ensures IsPercent(SummaryUsage(system, prev, now))
  {
    if now.Some? && now.value.Total() > 0 {
      ShareInUnit(now.value.Total() - now.value.idle, now.value.Total());
    }
  }

  /** Every tick counts, whatever it was spent on. */
  lemma {:induction false} EachTickCounts(c: CpuCore, n: nat)
    ensures c.(user := c.user + n).Total() == c.Total() + n
    ensures c.(sys := c.sys + n).Total() == c.Total() + n
    ensures c.(nice := c.nice + n).Total() == c.Total() + n
    ensures c.(idle := c.idle + n).Total() == c.Total() + n
    ensures c.(iowait := c.iowait + n).Total() == c.Total() + n
    ensures c.(irq := c.irq + n).Total() == c.Total() + n
    ensures c.(softirq := c.softirq + n).Total() == c.Total() + n
    ensures CpuCore(c.id, 0, 0, 0, 0, 0, 0, 0).Total() == 0
  {
  }

  /** The usage is the share that was not idle: of the ticks gained on Linux, of the
      pseudo-counters themselves elsewhere; without a sample to measure against, or
      without ticks, it is none. */
  lemma {:induction false} UsageIsTheBusyShare(system: System, prev: Option<CpuCore>, now: CpuCore)
    ensures
      var usage := SummaryUsage(system, prev, Some(now));
      match system
      case Linux =>
        if prev.Some? && now.Total() > prev.value.Total() then
          var gained := now.Total() - prev.value.Total();
          usage * gained as real == 100.0 * (gained - (now.idle - prev.value.idle)) as real
        else usage == 0.0
      case Bsd => usage * now.Total() as real == 100.0 * (now.Total() - now.idle) as real
      case Windows => usage * now.Total() as real == 100.0 * (now.Total() - now.idle) as real
    ensures SummaryUsage(system, prev, None) == 0.0
    ensures !system.Linux? && now.Total() == 0 ==> SummaryUsage(system, prev, Some(now)) == 0.0
    ensures prev.Some? && now.Total() == prev.value.Total() ==> CpuUsedPercent(prev.value, now) == 0.0
  {
    if system.Linux? {
      if prev.Some? && now.Total() > prev.value.Total() {
        BusyShare(now.idle - prev.value.idle, now.Total() - prev.value.Total());
      }
    } else if now.Total() > 0 {
      DividedAndBack((now.Total() - now.idle) as real, now.Total() as real);
      Reassociate(Share(now.Total() - now.idle, now.Total()), now.Total() as real);
    }
  }

  lemma {:induction false} BusyShare(idle: int, gained: int)
    requires gained > 0
    ensures (100.0 - Share(idle, gained) * 100.0) * gained as real == 100.0 * (gained - idle) as real
  {
    DividedAndBack(idle as real, gained as real);
    Reassociate(Share(idle, gained), gained as real);
  }

  /** A core's usage is the share of its ticks that were used: of those gained since the
      last sample on Linux, if there is one and neither count went back; of all of them
      elsewhere. */
  lemma {:induction false} CoreUsageIsTheUsedShare(system: System, prev: Option<CpuCoreTime>, now: CpuCoreTime)
    requires now.used <= now.total
    ensures
      var usage := CoreUsagePercent(system, prev, now);
      match system
      case Linux =>
        if prev.Some? && prev.value.used <= now.used && prev.value.total < now.total then
          var used, total := now.used - prev.value.used, now.total - prev.value.total;
          usage.Some? && (used <= total ==> usage.value * total as real == 100.0 * used as real)
        else usage.None?
      case Bsd => OneShotCore(usage, now)
      case Windows => OneShotCore(usage, now)
  {
    if system.Linux? {
      if prev.Some? && prev.value.used <= now.used && prev.value.total < now.total {
        var used, total := now.used - prev.value.used, now.total - prev.value.total;
        if used <= total {
          UsedShare(used, total);
        }
      }
    } else if now.total > 0 {
      UsedShare(now.used, now.total);
    }
  }

  predicate OneShotCore(usage: Option<real>, now: CpuCoreTime) {
    if now.total == 0 then usage.None? else usage.Some? && usage.value * now.total as real == 100.0 * now.used as real
  }

  lemma {:induction false} UsedShare(used: nat, total: nat)
    requires total > 0 && used <= total
    ensures Clamp(Share(used, total) * 100.0) * total as real == 100.0 * used as real
  {
    ShareInUnit(used, total);
    DividedAndBack(used as real, total as real);
    Reassociate(Share(used, total), total as real);
  }

  /** The core that stands for all of them: the one named so, or else the first. */
  lemma {:induction false} SummaryIsCpuOrFirst(cores: seq<CpuCore>)
    ensures SummaryCore(cores).None? <==> cores == []
    ensures cores != [] && (forall c <- cores :: c.id != "cpu") ==> SummaryCore(cores) == Some(cores[0])
    ensures (exists c <- cores :: c.id == "cpu") ==>
      SummaryCore(cores).Some? && SummaryCore(cores).value in cores && SummaryCore(cores).value.id == "cpu"
  {
    FoundIsCpu(cores);
  }

  lemma {:induction false} FoundIsCpu(cores: seq<CpuCore>)
    ensures FindCpu(cores).Some? ==> FindCpu(cores).value in cores && FindCpu(cores).value.id == "cpu"
    ensures FindCpu(cores).None? <==> forall c <- cores :: c.id != "cpu"
  {
    if cores != [] {
      FoundIsCpu(cores[1..]);
      assert cores == [cores[0]] + cores[1..];
    }
  }

  lemma {:induction false} CoresConcat(a: seq<CpuCore>, b: seq<CpuCore>)
    ensures Cores(a + b) == Cores(a) + Cores(b)
  {
    if a == [] {
      assert a + b == b;
    } else {
      var rest := (a + b)[1..];
      assert rest == a[1..] + b && (a + b)[0] == a[0];
      CoresConcat(a[1..], b);
      Regroup(if a[0].id != "cpu" then [a[0]] else [], Cores(a[1..]), Cores(b));
    }
  }

  /** The others are the cores themselves, in their order. */
  lemma {:induction false} CoresLeaveOutTheSummary(a: seq<CpuCore>, b: seq<CpuCore>, c: CpuCore)
    ensures Cores([]) == [] && Cores(a + b) == Cores(a) + Cores(b)
    ensures Cores([c]) == if c.id == "cpu" then [] else [c]
  {
    CoresConcat(a, b);
    assert Cores([c]) == (if c.id != "cpu" then [c] else []) + Cores([]);
  }

  // ---------------------------------------------------------------------------
  // Usage over all cores
  // ---------------------------------------------------------------------------

  type CoreSeries = seq<TimeSequence<CpuCoreTime>>

  function UsageAt(core: TimeSequence<CpuCoreTime>): Option<real> {
    if core.new_.None? then None else core.new_.value.usagePercent
  }

  /** The usages that are known. */
  function Known(cores: CoreSeries): seq<real> {
    if cores == [] then []
    else
      var usage := UsageAt(cores[|cores| - 1]);
      Known(cores[..|cores| - 1]) + if usage.Some? then [usage.value] else []
  }

  function Sum(xs: seq<real>): real {
    if xs == [] then 0.0 else Sum(xs[..|xs| - 1]) + xs[|xs| - 1]
  }

  function Average(cores: CoreSeries): Option<real> {
    if Known(cores) == [] then None else Some(Sum(Known(cores)) / |Known(cores)| as real)
  }

  lemma {:induction false} KnownOneMore(cores: CoreSeries, i: nat)
    requires i < |cores|
    ensures
      var usage, known := UsageAt(cores[i]), Known(cores[..i]);
      && Known(cores[..i + 1]) == (if usage.Some? then known + [usage.value] else known)
      && (usage.Some? ==> Sum(Known(cores[..i + 1])) == Sum(known) + usage.value)
  {
    assert cores[..i + 1][..i] == cores[..i];
    var usage, known := UsageAt(cores[i]), Known(cores[..i]);
    if usage.Some? {
      assert (known + [usage.value])[..|known|] == known;
    } else {
      assert known + [] == known;
    }
  }

  class CpuTimeSeries {
    var cores: CoreSeries
    var lastUpdate: Option<int>

    constructor ()
      ensures cores == [] && lastUpdate == None
    {
      cores, lastUpdate := [], None;
    }

    /** Sizes itself to each sample; a sample without cores changes nothing. */
    method Update(coreTimes: seq<CpuCoreTime>, at: int)
      modifies this
      ensures coreTimes == [] ==> unchanged(this)
      ensures coreTimes != [] ==>
        && lastUpdate == Some(at) && |cores| == |coreTimes|
        && forall i :: 0 <= i < |cores| ==>
             cores[i] == TimeSequence(if i < |old(cores)| then old(cores)[i].new_ else None, Some(coreTimes[i]))
    {
      if coreTimes == [] {
        return;
      }
      if |coreTimes| < |cores| {
        cores := cores[..|coreTimes|];
      }
      while |cores| < |coreTimes|
        invariant |cores| <= |coreTimes|
        invariant forall i :: 0 <= i < |cores| ==>
          cores[i] == if i < |old(cores)| then old(cores)[i] else TimeSequence(None, None)
        invariant |cores| >= |old(cores)| || |cores| == |coreTimes|
      {
        cores := cores + [TimeSequence(None, None)];
      }
      ghost var sized := cores;
      for i := 0 to |coreTimes|
        invariant |cores| == |coreTimes|
        invariant forall j :: 0 <= j < i ==> cores[j] == sized[j].Update(coreTimes[j])
        invariant forall j :: i <= j < |cores| ==> cores[j] == sized[j]
      {
        cores := cores[i := cores[i].Update(coreTimes[i])];
      }
      lastUpdate := Some(at);
    }

    method GetAverageUsagePercent() returns (average: Option<real>)
      ensures average == Average(cores)
    {
      if cores == [] {
        return None;
      }
      var sum, count := 0.0, 0;
      for i := 0 to |cores|
        invariant sum == Sum(Known(cores[..i])) && count == |Known(cores[..i])|
      {
        KnownOneMore(cores, i);
        var usage := UsageAt(cores[i]);
        if usage.Some? {
          sum := sum + usage.value;
          count := count + 1;
        }
      }
      assert cores[..|cores|] == cores;
      return if count > 0 then Some(sum / count as real) else None;
    }
  }

  /** What `adapt_cpu` computes for a core is a percentage or nothing. */
  lemma {:induction false} CoreUsageIsPercent(system: System, prev: Option<CpuCoreTime>, now: CpuCoreTime)
    ensures
      var usage := CoreUsagePercent(system, prev, now);
      usage.Some? ==> IsPercent(usage.value)
  {
  }

  lemma {:induction false} SumInRange(xs: seq<real>)
    requires forall i :: 0 <= i < |xs| ==> IsPercent(xs[i])
    ensures 0.0 <= Sum(xs) <= 100.0 * |xs| as real
  {
    if xs != [] {
      SumInRange(xs[..|xs| - 1]);
      assert IsPercent(xs[|xs| - 1]);
    }
  }

  lemma {:induction false} QuotientInRange(sum: real, n: real)
    requires n > 0.0 && 0.0 <= sum <= 100.0 * n
    ensures IsPercent(sum / n)
  {
    DividedAndBack(sum, n);
  }

  lemma {:induction false} KnownAreUsages(cores: CoreSeries)
    requires forall i :: 0 <= i < |cores| && UsageAt(cores[i]).Some? ==> IsPercent(UsageAt(cores[i]).value)
    ensures forall i :: 0 <= i < |Known(cores)| ==> IsPercent(Known(cores)[i])
  {
    if cores != [] {
      KnownAreUsages(cores[..|cores| - 1]);
    }
  }

  /** The usages of the cores' newest samples, as far as they are known, added up. */
  function NewestTotal(cores: CoreSeries): real {
    if cores == [] then 0.0
    else
      NewestTotal(cores[..|cores| - 1]) +
      match cores[|cores| - 1].new_
      case Some(t) => (match t.usagePercent case Some(usage) => usage case None => 0.0)
      case None => 0.0
  }

  function NewestCount(cores: CoreSeries): nat {
    if cores == [] then 0
    else
      NewestCount(cores[..|cores| - 1]) +
      match cores[|cores| - 1].new_
      case Some(t) => (match t.usagePercent case Some(_) => 1 case None => 0)
      case None => 0
  }

  /** The average is the mean of what is known of the newest samples. */
  lemma {:induction false} AverageIsTheMean(cores: CoreSeries)
    ensures Average(cores).None? <==> NewestCount(cores) == 0
    ensures Average(cores).Some? ==> Average(cores).value * NewestCount(cores) as real == NewestTotal(cores)
  {
    KnownAddsUp(cores);
    if Known(cores) != [] {
      DividedAndBack(Sum(Known(cores)), |Known(cores)| as real);
    }
  }

  lemma {:induction false} KnownAddsUp(cores: CoreSeries)
    ensures |Known(cores)| == NewestCount(cores) && Sum(Known(cores)) == NewestTotal(cores)
  {
    if cores != [] {
      var n := |cores| - 1;
      KnownAddsUp(cores[..n]);
      KnownOneMore(cores, n);
      assert cores[..n + 1] == cores;
    }
  }

  /** So is their average. */
  lemma {:induction false} AverageIsPercent(cores: CoreSeries)
    requires forall i :: 0 <= i < |cores| && UsageAt(cores[i]).Some? ==> IsPercent(UsageAt(cores[i]).value)
    ensures Average(cores).Some? ==> IsPercent(Average(cores).value)
  {
    if Known(cores) != [] {
      KnownAreUsages(cores);
      SumInRange(Known(cores));
      QuotientInRange(Sum(Known(cores)), |Known(cores)| as real);
    }
  }

  // ---------------------------------------------------------------------------
  // The history
  // ---------------------------------------------------------------------------

  const MAX_HISTORY := 1000

  datatype VelocityData = VelocityData(at: int, rxSpeed: Option<real>, txSpeed: Option<real>, cpuUsage: Option<real>)

  class VelocityProcessor {
    const network: NetworkTimeSeries
    const cpu: CpuTimeSeries
    const history: TimeSeries<VelocityData>

    ghost predicate Valid()
      reads network, history
    {
      network.Valid() && history.Valid() && history.maxPoints == MAX_HISTORY
    }

    constructor ()
      ensures Valid() && fresh(network) && fresh(cpu) && fresh(history)
      ensures network.samples == [] && cpu.cores == [] && history.all == []
    {
      network := new NetworkTimeSeries();
      cpu := new CpuTimeSeries();
      history := new TimeSeries(MAX_HISTORY);
    }

    /** One point per cycle, kept only if it could be stored; the series advance
        either way, so the next speed spans the window since this sample. */
    method Update(rx: nat, tx: nat, coreTimes: seq<CpuCoreTime>, at: int, stored: bool) returns (ok: bool)
      requires Valid()
      modifies network, cpu, history
      ensures Valid() && ok == stored
      ensures network.samples == old(network.samples) + [Sample(rx, tx, at)]
      ensures coreTimes == [] ==> cpu.cores == old(cpu.cores)
      ensures |coreTimes| > 0 ==> |cpu.cores| == |coreTimes| && forall i :: 0 <= i < |coreTimes| ==> cpu.cores[i].new_ == Some(coreTimes[i])
      ensures
        var point := VelocityData(at, SpeedOf(network.samples, Rx), SpeedOf(network.samples, Tx), Average(cpu.cores));
        history.all == if stored then old(history.all) + [point] else old(history.all)
    {
      network.Update(rx, tx, at);
      cpu.Update(coreTimes, at);
      var average := cpu.GetAverageUsagePercent();
      var point := VelocityData(at, network.GetRxSpeed(), network.GetTxSpeed(), average);
      if !stored {
        return false;
      }
      history.AddPoint(point);
      return true;
    }

    /** The history is the end of all that was ever stored: as much as was asked
        for, as the thousand points kept allow. */
    method GetVelocityHistory(limit: Option<nat>) returns (points: seq<VelocityData>)
      requires Valid()
      ensures points == Last(history.all, if limit.Some? && limit.value < MAX_HISTORY then limit.value else MAX_HISTORY)
    {
      points := history.data;
      match limit {
        case Some(lim) =>
          LastOfLast(history.all, MAX_HISTORY, lim);
          if |points| > lim {
            points := points[|points| - lim..];
          }
        case None =>
      }
    }

    /** The current totals are those of the latest sample. */
    method GetNetworkTotals() returns (totals: Option<(nat, nat)>)
      requires Valid()
      ensures network.samples == [] ==> totals == None
      ensures network.samples != [] ==>
        var last := network.samples[|network.samples| - 1];
        totals == Some((last.rx, last.tx))
    {
      var rx, tx := network.rxBytes.new_, network.txBytes.new_;
      return if rx.Some? && tx.Some? then Some((rx.value, tx.value)) else None;
    }
  }
}
