/** The collection loop: which cycles run the slow script, and what each keeps of the
    cycles before it. */
module CollectionLoop {
  import opened Wrappers
  import opened Text
  import Script = ScriptSegments
  import Rates = RateSeries

  // ---------------------------------------------------------------------------
  // The schedule
  // ---------------------------------------------------------------------------

  const I64_LIMIT := 0x8000_0000_0000_0000

  datatype LiveSettings = LiveSettings(extendedIntervalSecs: nat, idlePauseEnabled: bool, idlePauseThresholdSecs: nat)

  /** Every how many cycles the extended collection is due. */
  function Every(intervalSeconds: nat, extendedIntervalSecs: nat): (k: nat)
    ensures k >= 1
  {
    var ratio := extendedIntervalSecs / (if intervalSeconds < 1 then 1 else intervalSeconds);
    if ratio < 1 then 1 else ratio
  }

  predicate IsExtendedCycle(cycle: nat, intervalSeconds: nat, extendedIntervalSecs: nat) {
    cycle % Every(intervalSeconds, extendedIntervalSecs) == 0
  }

  /** A 64-bit word read as signed. */
  function AsI64(n: nat): int {
    if n < I64_LIMIT then n else n - 2 * I64_LIMIT
  }

  predicate ShouldRunExtended(extendedDue: bool, live: LiveSettings, idleSecs: int) {
    if !extendedDue || !live.idlePauseEnabled then extendedDue else idleSecs < AsI64(live.idlePauseThresholdSecs)
  }

  // ---------------------------------------------------------------------------
  // One cycle
  // ---------------------------------------------------------------------------

  /** What one sample, native or parsed from the script, says. */
  datatype Status = Status(
    cpu: seq<Rates.CpuCore>, amd: seq<string>, sensors: seq<string>, batteries: seq<string>, diskSmart: seq<string>,
    diskio: seq<string>, conn: Option<string>, uptime: Option<string>)

  datatype CustomOutput = CustomOutput(name: string, output: string)

  /** What running the script gave: its segments, and their parse. */
  datatype ScriptOutput = ScriptOutput(segments: Script.Segments, parsed: Status)

  /** Everything a cycle depends on; `script` is `None` where running it fails. */
  datatype Cycle = Cycle(now: int, live: LiveSettings, idleSecs: int, native: Status, script: Option<ScriptOutput>)

  datatype Metrics = Metrics(
    timestamp: int, extendedUpdatedAt: int, cpuUsage: real, cpuCores: seq<Rates.CpuCoreTime>,
    amdCache: seq<string>, sensors: seq<string>, batteries: seq<string>, diskSmart: seq<string>, diskio: seq<string>,
    conn: Option<string>, uptime: Option<string>, customCmds: seq<CustomOutput>)

  function CarryForward<T>(latest: seq<T>, prev: seq<T>): seq<T> {
    if |latest| == 0 then prev else latest
  }

  function CarryForwardOpt<T>(latest: Option<T>, prev: Option<T>): Option<T> {
    if latest.Some? then latest else prev
  }

  /** The panel's view of a script run: every segment under the custom-command prefix,
      with the prefix taken off its key. */
  function CustomCmdOutputs(segments: Script.Segments): seq<CustomOutput> {
    if segments == [] then []
    else
      var name := StripPrefix(segments[0].0, Script.CUSTOM_CMD_SEPARATOR + ".");
      (if name.Some? then [CustomOutput(name.value, segments[0].1)] else []) + CustomCmdOutputs(segments[1..])
  }

  /** The sample of a cycle that runs the script, the script's fields put over it. */
  function Merged(native: Status, parsed: Status): Status {
    native.(amd := parsed.amd, sensors := parsed.sensors, batteries := parsed.batteries, diskSmart := parsed.diskSmart,
            conn := CarryForwardOpt(native.conn, parsed.conn))
  }

  datatype Query = Amd | Sensors | Batteries | DiskSmart | Diskio | Conn | Uptime

  function AsSeq(o: Option<string>): seq<string> {
    if o.Some? then [o.value] else []
  }

  /** Read as a list, an optional text is neither lost nor made up. */
  lemma {:induction false} OptionsAreLists(o: Option<string>, text: string)
    ensures AsSeq(o) == [] <==> o.None?
    ensures AsSeq(o) == [text] <==> o == Some(text)
  {
  }

  function Kept(m: Metrics, q: Query): seq<string> {
    match q
    case Amd => m.amdCache
    case Sensors => m.sensors
    case Batteries => m.batteries
    case DiskSmart => m.diskSmart
    case Diskio => m.diskio
    case Conn => AsSeq(m.conn)
    case Uptime => AsSeq(m.uptime)
  }

  function PrevOf(prev: Option<Metrics>, q: Query): seq<string> {
    if prev.None? then [] else Kept(prev.value, q)
  }

  /** Everything but the custom commands, which are filled in by who knows whether
      the script ran. */
  function AdaptStatus(system: Rates.System, status: Status, now: int, prevCpu: Option<Rates.CpuCore>,
                       prev: Option<Metrics>, extendedDue: bool): Metrics {
    var (usage, cores) := Rates.AdaptCpu(system, status.cpu, prevCpu, if prev.None? then [] else prev.value.cpuCores);
    Metrics(
      now, if extendedDue || prev.None? then now else prev.value.extendedUpdatedAt, usage, cores,
      CarryForward(status.amd, PrevOf(prev, Amd)),
      CarryForward(status.sensors, PrevOf(prev, Sensors)),
      CarryForward(status.batteries, PrevOf(prev, Batteries)),
      CarryForward(status.diskSmart, PrevOf(prev, DiskSmart)),
      CarryForward(status.diskio, PrevOf(prev, Diskio)),
      CarryForwardOpt(status.conn, if prev.None? then None else prev.value.conn),
      CarryForwardOpt(status.uptime, if prev.None? then None else prev.value.uptime),
      [])
  }

  // ---------------------------------------------------------------------------
  // What a run should leave
  // ---------------------------------------------------------------------------

  /** The cycles so far, the first being cycle 0. */
  type Run = seq<Cycle>

  function Init(run: Run): Run
    requires run != []
  {
    run[..|run| - 1]
  }

  function Now(run: Run): Cycle
    requires run != []
  {
    run[|run| - 1]
  }

  /** Whether the last cycle of a run was to run the script. */
  predicate RunsScript(run: Run, interval: nat)
    requires run != []
  {
    ShouldRunExtended(
      IsExtendedCycle(|run| - 1, interval, Now(run).live.extendedIntervalSecs), Now(run).live, Now(run).idleSecs)
  }

  predicate Succeeds(run: Run, interval: nat)
    requires run != []
  {
    RunsScript(run, interval) ==> Now(run).script.Some?
  }

  /** What a cycle that `ran` the script reads of one kind: amd, sensors, batteries and
      disk health come from the script and nowhere else, disk input and output and the
      uptime from the native sample; so do the connections, unless it has none. */
  function ReadingOf(c: Cycle, ran: bool, q: Query): seq<string>
    requires ran ==> c.script.Some?
  {
    match q
    case Amd => if ran then c.script.value.parsed.amd else c.native.amd
    case Sensors => if ran then c.script.value.parsed.sensors else c.native.sensors
    case Batteries => if ran then c.script.value.parsed.batteries else c.native.batteries
    case DiskSmart => if ran then c.script.value.parsed.diskSmart else c.native.diskSmart
    case Diskio => c.native.diskio
    case Conn => AsSeq(if c.native.conn.None? && ran then c.script.value.parsed.conn else c.native.conn)
    case Uptime => AsSeq(c.native.uptime)
  }

  /** The readings of one kind by the cycles that succeeded. */
  function Readings(run: Run, interval: nat, q: Query): seq<seq<string>> {
    if run == [] then []
    else if Succeeds(run, interval) then Readings(Init(run), interval, q) + [ReadingOf(Now(run), RunsScript(run, interval), q)]
    else Readings(Init(run), interval, q)
  }

  /** The last reading that is not empty, if there is one. */
  ghost predicate IsLastNonEmpty(readings: seq<seq<string>>, kept: seq<string>) {
    || (kept == [] && forall i :: 0 <= i < |readings| ==> readings[i] == [])
    || (kept != [] && exists i :: 0 <= i < |readings| && readings[i] == kept
                          && forall j :: i < j < |readings| ==> readings[j] == [])
  }

  /** The last run, up to now, that ended in a cycle that succeeded. */
  function LastSuccess(run: Run, interval: nat): Option<Run> {
    if run == [] then None
    else if Succeeds(run, interval) then Some(run)
    else LastSuccess(Init(run), interval)
  }

  function FirstSuccess(run: Run, interval: nat): Option<Run> {
    if run == [] then None
    else
      var earlier := FirstSuccess(Init(run), interval);
      if earlier.Some? then earlier else if Succeeds(run, interval) then Some(run) else None
  }

  /** The last one whose cycle ran the script, and it worked. */
  function LastExtended(run: Run, interval: nat): Option<Run> {
    if run == [] then None
    else if RunsScript(run, interval) && Now(run).script.Some? then Some(run)
    else LastExtended(Init(run), interval)
  }

  function CustomOf(run: Run): seq<CustomOutput>
    requires run != [] && Now(run).script.Some?
  {
    CustomCmdOutputs(Now(run).script.value.segments)
  }

  lemma {:induction false} LastRunsAreRuns(run: Run, interval: nat)
    ensures
      var s := LastSuccess(run, interval);
      s.Some? ==> s.value != [] && Succeeds(s.value, interval)
    ensures
      var f := FirstSuccess(run, interval);
      f.Some? ==> f.value != [] && Succeeds(f.value, interval)
    ensures
      var e := LastExtended(run, interval);
      e.Some? ==> e.value != [] && Now(e.value).script.Some? && RunsScript(e.value, interval)
    ensures LastSuccess(run, interval).Some? <==> FirstSuccess(run, interval).Some?
  {
    if run != [] {
      LastRunsAreRuns(Init(run), interval);
    }
  }

  /** The freshness stamp: when the script last worked, or, while it never has, when
      the first cycle was. */
  function Stamp(run: Run, interval: nat): int {
    LastRunsAreRuns(run, interval);
    var extended, first := LastExtended(run, interval), FirstSuccess(run, interval);
    if extended.Some? then Now(extended.value).now
    else if first.Some? then Now(first.value).now
    else 0
  }

  function CustomNow(run: Run, interval: nat): seq<CustomOutput> {
    LastRunsAreRuns(run, interval);
    var extended := LastExtended(run, interval);
    if extended.Some? then CustomOf(extended.value) else []
  }

  /** The processor sample that the next usage is measured against. */
  function Baseline(run: Run, interval: nat): Option<Rates.CpuCore> {
    LastRunsAreRuns(run, interval);
    var last := LastSuccess(run, interval);
    if last.None? then None else Rates.SummaryCore(Now(last.value).native.cpu)
  }

  lemma {:induction false} LastSuccessIsNoLonger(run: Run, interval: nat)
    ensures LastSuccess(run, interval).Some? ==> 0 < |LastSuccess(run, interval).value| <= |run|
  {
    if run != [] {
      LastSuccessIsNoLonger(Init(run), interval);
    }
  }

  /** The per-core times of the last cycle that succeeded, each measured against
      those of the one before it. */
  function CoresNow(run: Run, interval: nat, system: Rates.System): seq<Rates.CpuCoreTime>
    decreases |run|
  {
    LastSuccessIsNoLonger(run, interval);
    var last := LastSuccess(run, interval);
    if last.None? then []
    else Rates.CoreTimes(system, Rates.Cores(Now(last.value).native.cpu), CoresNow(Init(last.value), interval, system))
  }

  function UsageNow(run: Run, interval: nat, system: Rates.System): real {
    LastRunsAreRuns(run, interval);
    var last := LastSuccess(run, interval);
    if last.None? then 0.0
    else Rates.SummaryUsage(system, Baseline(Init(last.value), interval), Rates.SummaryCore(Now(last.value).native.cpu))
  }

  /** The times are right, and so are the custom commands. */
  ghost predicate Timed(m: Metrics, run: Run, interval: nat) {
    LastRunsAreRuns(run, interval);
    && LastSuccess(run, interval).Some?
    && m.timestamp == Now(LastSuccess(run, interval).value).now
    && m.extendedUpdatedAt == Stamp(run, interval)
    && m.customCmds == CustomNow(run, interval)
  }

  ghost predicate Measured(m: Metrics, run: Run, interval: nat, system: Rates.System) {
    m.cpuUsage == UsageNow(run, interval, system) && m.cpuCores == CoresNow(run, interval, system)
  }

  ghost predicate Keeps(m: Metrics, run: Run, interval: nat) {
    forall q: Query :: IsLastNonEmpty(Readings(run, interval, q), Kept(m, q))
  }

  /** What the metrics should be after a run. */
  ghost predicate Reflects(m: Metrics, run: Run, interval: nat, system: Rates.System) {
    Timed(m, run, interval) && Measured(m, run, interval, system) && Keeps(m, run, interval)
  }

  // ---------------------------------------------------------------------------
  // The loop
  // ---------------------------------------------------------------------------

  lemma {:induction false} CarriedIsLast(readings: seq<seq<string>>, prev: seq<string>, latest: seq<string>)
    requires IsLastNonEmpty(readings, prev)
    ensures IsLastNonEmpty(readings + [latest], CarryForward(latest, prev))
  {
    var more := readings + [latest];
    assert more[|readings|] == latest;
    if latest == [] && prev != [] {
      var i :| 0 <= i < |readings| && readings[i] == prev && forall j :: i < j < |readings| ==> readings[j] == [];
      assert more[i] == prev;
    }
  }

  lemma {:induction false} NothingRead(run: Run, interval: nat, q: Query)
    requires LastSuccess(run, interval).None?
    ensures Readings(run, interval, q) == []
  {
    if run != [] {
      NothingRead(Init(run), interval, q);
    }
  }

  lemma {:induction false} NoExtendedWithoutSuccess(run: Run, interval: nat)
    ensures LastExtended(run, interval).Some? ==> LastSuccess(run, interval).Some?
  {
    if run != [] {
      NoExtendedWithoutSuccess(Init(run), interval);
    }
  }

  /** What is known of the metrics a cycle starts from. */
  ghost predicate Knows(prev: Option<Metrics>, run: Run, interval: nat, system: Rates.System) {
    && (prev.None? <==> LastSuccess(run, interval).None?)
    && (prev.Some? ==> Reflects(prev.value, run, interval, system))
  }

  lemma {:induction false} FailureChangesNothing(before: Run, c: Cycle, interval: nat, system: Rates.System, prev: Option<Metrics>)
    requires Knows(prev, before, interval, system) && !Succeeds(before + [c], interval)
    ensures Knows(prev, before + [c], interval, system)
    ensures Baseline(before + [c], interval) == Baseline(before, interval)
  {
    var run := before + [c];
    assert Init(run) == before && Now(run) == c;
    LastRunsAreRuns(before, interval);
    if prev.Some? {
      forall q: Query
        ensures IsLastNonEmpty(Readings(run, interval, q), Kept(prev.value, q))
      {
        assert Readings(run, interval, q) == Readings(before, interval, q);
      }
    }
  }

  lemma {:induction false} SuccessIsRead(before: Run, c: Cycle, interval: nat, system: Rates.System, prev: Option<Metrics>, q: Query)
    requires Knows(prev, before, interval, system) && Succeeds(before + [c], interval)
    ensures
      var run := before + [c];
      IsLastNonEmpty(Readings(run, interval, q), CarryForward(ReadingOf(Now(run), RunsScript(run, interval), q), PrevOf(prev, q)))
  {
    var run := before + [c];
    assert Init(run) == before;
    if prev.None? {
      NothingRead(before, interval, q);
    }
    CarriedIsLast(Readings(before, interval, q), PrevOf(prev, q), ReadingOf(Now(run), RunsScript(run, interval), q));
  }

  lemma {:induction false} SuccessIsStamped(before: Run, c: Cycle, interval: nat, system: Rates.System, prev: Option<Metrics>)
    requires Knows(prev, before, interval, system) && Succeeds(before + [c], interval)
    ensures
      var run, ran := before + [c], RunsScript(before + [c], interval);
      && Stamp(run, interval) == (if ran || prev.None? then c.now else prev.value.extendedUpdatedAt)
      && CustomNow(run, interval) == (if ran then CustomOf(run) else if prev.Some? then prev.value.customCmds else [])
  {
    var run := before + [c];
    assert Init(run) == before && Now(run) == c;
    LastRunsAreRuns(before, interval);
    NoExtendedWithoutSuccess(before, interval);
  }

  lemma {:induction false} SuccessIsMeasured(before: Run, c: Cycle, interval: nat, system: Rates.System, prev: Option<Metrics>)
    requires Knows(prev, before, interval, system) && Succeeds(before + [c], interval)
    ensures
      var run := before + [c];
      && LastSuccess(run, interval) == Some(run)
      && Baseline(run, interval) == Rates.SummaryCore(c.native.cpu)
      && UsageNow(run, interval, system) == Rates.SummaryUsage(system, Baseline(before, interval), Rates.SummaryCore(c.native.cpu))
      && CoresNow(run, interval, system)
         == Rates.CoreTimes(system, Rates.Cores(c.native.cpu), if prev.None? then [] else prev.value.cpuCores)
  {
    var run := before + [c];
    assert Init(run) == before && Now(run) == c;
    if prev.None? {
      assert CoresNow(before, interval, system) == [];
    }
  }

  /** The metrics of a cycle that succeeds. */
  function Collected(system: Rates.System, c: Cycle, extendedDue: bool, prevCpu: Option<Rates.CpuCore>, prev: Option<Metrics>): Metrics
    requires extendedDue ==> c.script.Some?
  {
    var status := if extendedDue then Merged(c.native, c.script.value.parsed) else c.native;
    AdaptStatus(system, status, c.now, prevCpu, prev, extendedDue).(customCmds :=
      if extendedDue then CustomCmdOutputs(c.script.value.segments)
      else if prev.Some? then prev.value.customCmds else [])
  }

  lemma {:induction false} CollectedFields(system: Rates.System, c: Cycle, extendedDue: bool, prevCpu: Option<Rates.CpuCore>, prev: Option<Metrics>)
    requires extendedDue ==> c.script.Some?
    ensures
      var m := Collected(system, c, extendedDue, prevCpu, prev);
      && m.timestamp == c.now
      && m.extendedUpdatedAt == (if extendedDue || prev.None? then c.now else prev.value.extendedUpdatedAt)
      && m.customCmds == (if extendedDue then CustomCmdOutputs(c.script.value.segments)
                          else if prev.Some? then prev.value.customCmds else [])
      && m.cpuUsage == Rates.SummaryUsage(system, prevCpu, Rates.SummaryCore(c.native.cpu))
      && m.cpuCores == Rates.CoreTimes(system, Rates.Cores(c.native.cpu), if prev.None? then [] else prev.value.cpuCores)
  {
  }

  lemma {:induction false} CollectedIsKept(system: Rates.System, c: Cycle, extendedDue: bool, prevCpu: Option<Rates.CpuCore>, prev: Option<Metrics>, q: Query)
    requires extendedDue ==> c.script.Some?
    ensures Kept(Collected(system, c, extendedDue, prevCpu, prev), q)
         == CarryForward(ReadingOf(c, extendedDue, q), PrevOf(prev, q))
  {
  }

  lemma {:induction false} CollectedKeeps(before: Run, c: Cycle, interval: nat, system: Rates.System, prev: Option<Metrics>)
    requires Knows(prev, before, interval, system) && Succeeds(before + [c], interval)
    ensures
      var run := before + [c];
      Now(run) == c && Keeps(Collected(system, c, RunsScript(run, interval), Baseline(before, interval), prev), run, interval)
  {
    var run := before + [c];
    assert Now(run) == c;
    var due, cpu := RunsScript(run, interval), Baseline(before, interval);
    forall q: Query
      ensures IsLastNonEmpty(Readings(run, interval, q), Kept(Collected(system, c, due, cpu, prev), q))
    {
      SuccessIsRead(before, c, interval, system, prev, q);
      CollectedIsKept(system, c, due, cpu, prev, q);
    }
  }

  lemma {:induction false} CollectedReflects(before: Run, c: Cycle, interval: nat, system: Rates.System, prev: Option<Metrics>)
    requires Knows(prev, before, interval, system) && Succeeds(before + [c], interval)
    ensures
      var run := before + [c];
      Now(run) == c
      && Reflects(Collected(system, c, RunsScript(run, interval), Baseline(before, interval), prev), run, interval, system)
  {
    SuccessIsMeasured(before, c, interval, system, prev);
    SuccessIsStamped(before, c, interval, system, prev);
    CollectedKeeps(before, c, interval, system, prev);
    CollectedFields(system, c, RunsScript(before + [c], interval), Baseline(before, interval), prev);
  }

  class MonitoringLoop {
    const interval: nat
    const system: Rates.System
    var prevCpu: Option<Rates.CpuCore>
    var cycle: nat
    var current: Option<Metrics>
    ghost var run: Run

    ghost predicate Valid()
      reads this
    {
      cycle == |run| && prevCpu == Baseline(run, interval) && Knows(current, run, interval, system)
    }

    constructor (interval: nat, system: Rates.System)
      ensures Valid() && run == [] && this.interval == interval && this.system == system
    {
      this.interval, this.system := interval, system;
      prevCpu, cycle, current := None, 0, None;
      run := [];
    }

    /** Fails before it touches the processor's baseline. */
    method CollectMetrics(c: Cycle, extendedDue: bool) returns (metrics: Option<Metrics>)
      modifies `prevCpu
      ensures extendedDue && c.script.None? ==> metrics == None && prevCpu == old(prevCpu)
      ensures !extendedDue || c.script.Some? ==>
        && metrics == Some(Collected(system, c, extendedDue, old(prevCpu), current))
        && prevCpu == Rates.SummaryCore(c.native.cpu)
    {
      var status, customCmds := c.native, [];
      if extendedDue {
        if c.script.None? {
          return None;
        }
        customCmds := CustomCmdOutputs(c.script.value.segments);
        var extended := c.script.value.parsed;
        status := status.(amd := extended.amd, sensors := extended.sensors);
        status := status.(batteries := extended.batteries, diskSmart := extended.diskSmart);
        if status.conn.None? {
          status := status.(conn := extended.conn);
        }
      }
      var prev := prevCpu;
      prevCpu := Rates.SummaryCore(status.cpu);
      var adapted := AdaptStatus(system, status, c.now, prev, current, extendedDue);
      return Some(adapted.(customCmds :=
        if extendedDue then customCmds else if current.Some? then current.value.customCmds else []));
    }

    /** One turn of the loop. Whatever the cycles before did, the metrics afterwards
        are what the whole run says they should be; a cycle whose script fails
        leaves them alone, and the processor's baseline too. */
    method Turn(c: Cycle) returns (ok: bool)
      requires Valid()
      modifies this
      ensures Valid() && run == old(run) + [c]
      ensures ok <==> Succeeds(run, interval)
    {
      ghost var before := run;
      run := run + [c];
      assert Now(run) == c;
      var extendedDue := IsExtendedCycle(cycle, interval, c.live.extendedIntervalSecs);
      extendedDue := ShouldRunExtended(extendedDue, c.live, c.idleSecs);
      assert extendedDue == RunsScript(run, interval);
      cycle := cycle + 1;
      var metrics := CollectMetrics(c, extendedDue);
      ok := metrics.Some?;
      if ok {
        CollectedReflects(before, c, interval, system, current);
        SuccessIsMeasured(before, c, interval, system, current);
        current := metrics;
      } else {
        FailureChangesNothing(before, c, interval, system, current);
      }
    }
  }

  // ---------------------------------------------------------------------------
  // The cadence
  // ---------------------------------------------------------------------------

  /** How many cycles of a run were to run the script. */
  function ScriptRuns(run: Run, interval: nat): nat {
    if run == [] then 0 else ScriptRuns(Init(run), interval) + if RunsScript(run, interval) then 1 else 0
  }

  lemma {:induction false} QuotientIs(x: nat, k: nat, q: nat)
    requires k > 0 && q * k <= x < q * k + k
    ensures x / k == q
  {
    var p := x / k;
    assert p * k <= x < p * k + k;
    assert (p + 1) * k == p * k + k && (q + 1) * k == q * k + k;
    SmallerMultiple(p + 1, q, k);
    SmallerMultiple(q + 1, p, k);
  }

  lemma {:induction false} SmallerMultiple(a: nat, b: nat, k: nat)
    ensures a <= b ==> a * k <= b * k
  {
    assert b * k - a * k == (b - a) * k;
  }

  lemma {:induction false} OneMoreOfK(n: nat, k: nat)
    requires k > 0
    ensures (n + k) / k == (n + k - 1) / k + if n % k == 0 then 1 else 0
  {
    var q := n / k;
    assert (q + 1) * k == q * k + k;
    QuotientIs(n + k, k, q + 1);
    QuotientIs(n + k - 1, k, if n % k == 0 then q else q + 1);
  }

  /** With constant settings and no idle pause the script is run by every K-th cycle,
      the first included: by n cycles, the K-th part of them, rounded up. */
  lemma {:induction false} ScriptRunsEveryK(run: Run, interval: nat, live: LiveSettings)
    requires !live.idlePauseEnabled && forall i :: 0 <= i < |run| ==> run[i].live == live
    ensures
      var k := Every(interval, live.extendedIntervalSecs);
      && ScriptRuns(run, interval) == (|run| + k - 1) / k
      && (run != [] ==> (RunsScript(run, interval) <==> (|run| - 1) % k == 0))
  {
    var k := Every(interval, live.extendedIntervalSecs);
    if run == [] {
      QuotientIs(k - 1, k, 0);
    } else {
      ScriptRunsEveryK(Init(run), interval, live);
      assert Now(run).live == live;
      OneMoreOfK(|run| - 1, k);
    }
  }

  /** The script runs exactly when it is due, on every K-th cycle, and the pause does not
      hold it back: it does when it is on and nobody has looked for as long as the
      threshold says. */
  lemma {:induction false} ScriptRunsUnlessPaused(run: Run, interval: nat)
    requires run != [] && Now(run).live.idlePauseThresholdSecs < I64_LIMIT
    ensures
      var live, k := Now(run).live, Every(interval, Now(run).live.extendedIntervalSecs);
      RunsScript(run, interval)
      <==> (|run| - 1) % k == 0 && !(live.idlePauseEnabled && Now(run).idleSecs >= live.idlePauseThresholdSecs)
  {
  }

  /** A threshold too large for a signed word wraps to a negative one: then the pause
      holds back every cycle but those before which the clock went back that far. */
  lemma {:induction false} HugeThresholdAlwaysPauses(run: Run, interval: nat)
    requires run != [] && I64_LIMIT <= Now(run).live.idlePauseThresholdSecs < 2 * I64_LIMIT
    requires Now(run).live.idlePauseEnabled
    ensures
      var live, k := Now(run).live, Every(interval, Now(run).live.extendedIntervalSecs);
      RunsScript(run, interval)
      <==> (|run| - 1) % k == 0 && Now(run).idleSecs + 0x1_0000_0000_0000_0000 < live.idlePauseThresholdSecs
    ensures Now(run).idleSecs >= 0 ==> !RunsScript(run, interval)
  {
  }

  /** An interval of nothing counts as a second. */
  lemma {:induction false} NoIntervalIsASecond(extendedIntervalSecs: nat)
    ensures Every(0, extendedIntervalSecs) == Every(1, extendedIntervalSecs)
  {
  }

  /** K cycles take no longer than the interval asked for, if one cycle does not; one
      more would. */
  lemma {:induction false} CadenceIsTheRatioFloored(interval: nat, extendedIntervalSecs: nat)
    requires interval >= 1
    ensures
      var k := Every(interval, extendedIntervalSecs);
      && (k * interval <= extendedIntervalSecs || k == 1)
      && extendedIntervalSecs < (k + 1) * interval
  {
    var ratio := extendedIntervalSecs / interval;
    assert extendedIntervalSecs == ratio * interval + extendedIntervalSecs % interval;
    assert (ratio + 1) * interval == ratio * interval + interval;
  }

  // ---------------------------------------------------------------------------
  // The custom commands of a script's output
  // ---------------------------------------------------------------------------

  /** The custom sections among those a script printed, with their trimmed output. */
  function CustomSections(sections: seq<Script.Section>): seq<CustomOutput> {
    if sections == [] then []
    else
      (if sections[0].custom then [CustomOutput(sections[0].name, Trim(Script.BodyText(sections[0].body)))] else [])
      + CustomSections(sections[1..])
  }

  lemma {:induction false} OutputsCons(segment: (string, string), rest: Script.Segments)
    ensures
      var name := StripPrefix(segment.0, Script.CUSTOM_CMD_SEPARATOR + ".");
      CustomCmdOutputs([segment] + rest)
      == (if name.Some? then [CustomOutput(name.value, segment.1)] else []) + CustomCmdOutputs(rest)
  {
    assert ([segment] + rest)[1..] == rest;
  }

  /** What the panel shows under custom commands is what the custom commands printed,
      in their order, as long as no built-in section is named like one. */
  lemma {:induction false} OutputsAreTheCustomSections(sections: seq<Script.Section>)
    requires forall s <- sections :: !s.custom ==> !(Script.CUSTOM_CMD_SEPARATOR + "." <= s.name)
    ensures CustomCmdOutputs(Script.Parsed(sections)) == CustomSections(sections)
  {
    if sections != [] {
      var s, rest := sections[0], sections[1..];
      OutputsAreTheCustomSections(rest);
      OutputsCons((Script.KeyOf(s), Trim(Script.BodyText(s.body))), Script.Parsed(rest));
      if s.custom {
        StripPrefixAdded(Script.CUSTOM_CMD_SEPARATOR + ".", s.name);
      } else {
        assert s in sections;
      }
    }
  }
}
