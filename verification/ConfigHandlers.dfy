/** The three handlers that change `config.toml` while the agent runs, and what
    holding one lock across each read-modify-write is worth. */
module ConfigHandlers {
  import opened Wrappers

  // ---------------------------------------------------------------------------
  // The configuration, as far as the handlers touch it
  // ---------------------------------------------------------------------------

  const U64_MAX := 0xFFFF_FFFF_FFFF_FFFF

  datatype IdlePause = IdlePause(enabled: bool, thresholdSecs: Option<nat>)

  datatype Extended = Extended(intervalSecs: Option<nat>, idlePause: IdlePause)

  datatype Monitoring = Monitoring(
    intervalSeconds: nat, rules: seq<string>, dataRetention: Option<string>, pushRate: Option<string>, extended: Extended)

  datatype Server = Server(corsAllowedOrigins: seq<string>, cardOrder: seq<string>, rest: string)

  datatype RemoteAccess = RemoteAccess(fullAccess: Option<bool>, rest: string)

  /** `rest` is everything no handler writes: secrets, pushes, the database. */
  datatype Config = Config(
    monitoring: Option<Monitoring>, server: Option<Server>, remoteAccess: Option<RemoteAccess>, rest: string)

  /** The sections a file without them is read as having. */
  datatype Defaults = Defaults(monitoring: Monitoring, server: Server, remoteAccess: RemoteAccess)

  function GetMonitoring(c: Config, d: Defaults): Monitoring {
    if c.monitoring.Some? then c.monitoring.value else d.monitoring
  }

  function GetServer(c: Config, d: Defaults): Server {
    if c.server.Some? then c.server.value else d.server
  }

  function GetRemoteAccess(c: Config, d: Defaults): RemoteAccess {
    if c.remoteAccess.Some? then c.remoteAccess.value else d.remoteAccess
  }

  /** The settings that apply without a restart. */
  datatype Live = Live(extendedIntervalSecs: nat, idlePauseEnabled: bool, idlePauseThresholdSecs: nat)

  function SaturatingMul(a: nat, b: nat): nat {
    if a * b > U64_MAX then U64_MAX else a * b
  }

  function LiveOf(m: Monitoring): Live {
    var tenTimes := SaturatingMul(m.intervalSeconds, 10);
    Live(
      match m.extended.intervalSecs {
        case Some(secs) => secs
        case None => if tenTimes > 120 then tenTimes else 120
      },
      m.extended.idlePause.enabled,
      match m.extended.idlePause.thresholdSecs {
        case Some(secs) => secs
        case None => SaturatingMul(m.intervalSeconds, 4)
      })
  }

  /** Each live setting is the one of its name, or what stands in for it: ten times the
      interval, but two minutes at least; four times the interval. */
  predicate LiveFollows(live: Live, m: Monitoring) {
    var interval := m.intervalSeconds;
    && live.idlePauseEnabled == m.extended.idlePause.enabled
    && (m.extended.intervalSecs.Some? ==> live.extendedIntervalSecs == m.extended.intervalSecs.value)
    && (m.extended.intervalSecs.None? && interval <= 12 ==> live.extendedIntervalSecs == 120)
    && (m.extended.intervalSecs.None? && 12 <= interval && 10 * interval <= U64_MAX ==> live.extendedIntervalSecs == 10 * interval)
    && (m.extended.intervalSecs.None? && 10 * interval > U64_MAX ==> live.extendedIntervalSecs == U64_MAX)
    && (m.extended.idlePause.thresholdSecs.Some? ==> live.idlePauseThresholdSecs == m.extended.idlePause.thresholdSecs.value)
    && (m.extended.idlePause.thresholdSecs.None? && 4 * interval <= U64_MAX ==> live.idlePauseThresholdSecs == 4 * interval)
    && (m.extended.idlePause.thresholdSecs.None? && 4 * interval > U64_MAX ==> live.idlePauseThresholdSecs == U64_MAX)
  }

  lemma {:induction false} LiveOfFollows(m: Monitoring)
    ensures LiveFollows(LiveOf(m), m)
  {
  }

  datatype Settings = Settings(
    intervalSeconds: nat, extendedIntervalSecs: Option<nat>, idlePauseEnabled: bool, idlePauseThresholdSecs: Option<nat>,
    rules: seq<string>, dataRetention: Option<string>, corsAllowedOrigins: seq<string>)

  /** A request that has passed authentication and validation. */
  datatype Request =
    | UpdateSettings(settings: Settings)
    | DisableFullAccess
    | UpdateCardOrder(cardOrder: seq<string>)

  /** Field by field: what a settings request asks for, beside what it leaves. */
  predicate Takes(m: Monitoring, s: Settings, pushRate: Option<string>) {
    && m.intervalSeconds == s.intervalSeconds
    && m.extended.intervalSecs == s.extendedIntervalSecs
    && m.extended.idlePause.enabled == s.idlePauseEnabled
    && m.extended.idlePause.thresholdSecs == s.idlePauseThresholdSecs
    && m.rules == s.rules
    && m.dataRetention == s.dataRetention
    && m.pushRate == pushRate
  }

  function WithSettings(m: Monitoring, s: Settings): Monitoring {
    Monitoring(s.intervalSeconds, s.rules, s.dataRetention, m.pushRate,
      Extended(s.extendedIntervalSecs, IdlePause(s.idlePauseEnabled, s.idlePauseThresholdSecs)))
  }

  /** What a request makes of the file. */
  function Apply(c: Config, r: Request, d: Defaults): Config {
    match r
    case UpdateSettings(s) =>
      c.(monitoring := Some(WithSettings(GetMonitoring(c, d), s)),
         server := Some(GetServer(c, d).(corsAllowedOrigins := s.corsAllowedOrigins)))
    case DisableFullAccess =>
      c.(remoteAccess := Some(GetRemoteAccess(c, d).(fullAccess := Some(false))))
    case UpdateCardOrder(order) =>
      c.(server := Some(GetServer(c, d).(cardOrder := order)))
  }

  // ---------------------------------------------------------------------------
  // The handlers, one at a time
  // ---------------------------------------------------------------------------

  class AppState {
    const defaults: Defaults
    var file: Config
    var live: Live
    var fullAccessOff: bool

    constructor (config: Config, defaults: Defaults)
      ensures file == config && this.defaults == defaults
      ensures live == LiveOf(GetMonitoring(config, defaults)) && !fullAccessOff
    {
      file, this.defaults := config, defaults;
      live, fullAccessOff := LiveOf(GetMonitoring(config, defaults)), false;
    }

    /** What the lock is held for. A file that cannot be read or written leaves
        everything as it was. */
    method Update(settings: Settings, readable: bool, writable: bool) returns (ok: bool)
      modifies `file, `live
      ensures ok <==> readable && writable
      ensures file == if ok then Apply(old(file), UpdateSettings(settings), defaults) else old(file)
      ensures live == if ok then LiveOf(GetMonitoring(file, defaults)) else old(live)
      ensures ok ==> file.monitoring.Some? && file.server.Some?
      ensures ok ==>
        && Takes(file.monitoring.value, settings, PushRateOf(old(file), defaults))
        && file.server.value.corsAllowedOrigins == settings.corsAllowedOrigins
        && LiveFollows(live, file.monitoring.value)
    {
      if !readable {
        return false;
      }
      var config := file;
      var monitoring := GetMonitoring(config, defaults);
      monitoring := monitoring.(intervalSeconds := settings.intervalSeconds);
      monitoring := monitoring.(extended := monitoring.extended.(intervalSecs := settings.extendedIntervalSecs));
      var idlePause := monitoring.extended.idlePause.(enabled := settings.idlePauseEnabled);
      idlePause := idlePause.(thresholdSecs := settings.idlePauseThresholdSecs);
      monitoring := monitoring.(extended := monitoring.extended.(idlePause := idlePause));
      monitoring := monitoring.(rules := settings.rules);
      monitoring := monitoring.(dataRetention := settings.dataRetention);
      config := config.(monitoring := Some(monitoring));
      var server := GetServer(config, defaults);
      server := server.(corsAllowedOrigins := settings.corsAllowedOrigins);
      config := config.(server := Some(server));
      if !writable {
        return false;
      }
      file := config;
      live := LiveOf(monitoring);
      LiveOfFollows(monitoring);
      return true;
    }

    method Disable(readable: bool, writable: bool) returns (ok: bool)
      modifies `file, `fullAccessOff
      ensures ok <==> readable && writable
      ensures file == if ok then Apply(old(file), DisableFullAccess, defaults) else old(file)
      ensures ok ==> file == old(file).(remoteAccess :=
        Some(RemoteAccess(Some(false), OrDefault(old(file).remoteAccess, defaults.remoteAccess).rest)))
      ensures fullAccessOff <==> ok || old(fullAccessOff)
    {
      if !readable {
        return false;
      }
      var config := file;
      var remote := GetRemoteAccess(config, defaults);
      remote := remote.(fullAccess := Some(false));
      config := config.(remoteAccess := Some(remote));
      if !writable {
        return false;
      }
      file := config;
      fullAccessOff := true;
      return true;
    }

    method Reorder(cardOrder: seq<string>, readable: bool, writable: bool) returns (ok: bool)
      modifies `file
      ensures ok <==> readable && writable
      ensures file == if ok then Apply(old(file), UpdateCardOrder(cardOrder), defaults) else old(file)
      ensures ok ==>
        var server := OrDefault(old(file).server, defaults.server);
        file == old(file).(server := Some(Server(server.corsAllowedOrigins, cardOrder, server.rest)))
    {
      if !readable {
        return false;
      }
      var config := file;
      var server := GetServer(config, defaults);
      server := server.(cardOrder := cardOrder);
      config := config.(server := Some(server));
      if !writable {
        return false;
      }
      file := config;
      return true;
    }
  }

  // ---------------------------------------------------------------------------
  // What a sequence of requests leaves
  // ---------------------------------------------------------------------------

  function Fold(c: Config, requests: seq<Request>, d: Defaults): Config {
    if requests == [] then c
    else Apply(Fold(c, requests[..|requests| - 1], d), requests[|requests| - 1], d)
  }

  function LastSettings(requests: seq<Request>): Option<Settings> {
    if requests == [] then None
    else if requests[|requests| - 1].UpdateSettings? then Some(requests[|requests| - 1].settings)
    else LastSettings(requests[..|requests| - 1])
  }

  function LastCardOrder(requests: seq<Request>): Option<seq<string>> {
    if requests == [] then None
    else if requests[|requests| - 1].UpdateCardOrder? then Some(requests[|requests| - 1].cardOrder)
    else LastCardOrder(requests[..|requests| - 1])
  }

  function PushRateOf(c: Config, d: Defaults): Option<string> {
    match c.monitoring
    case Some(m) => m.pushRate
    case None => d.monitoring.pushRate
  }

  /** What a file without the section is read as having in it. */
  function OrDefault<T>(section: Option<T>, default: T): T {
    match section
    case Some(value) => value
    case None => default
  }

  /** No committed field is lost: the file holds, field by field, what the last
      request that writes the field put there, and what it held at the start where
      none did. */
  ghost predicate HoldsLast(c: Config, requests: seq<Request>, d: Defaults, now: Config) {
    var settings, order := LastSettings(requests), LastCardOrder(requests);
    var server, remote := OrDefault(c.server, d.server), OrDefault(c.remoteAccess, d.remoteAccess);
    && (settings.Some? ==> now.monitoring.Some? && Takes(now.monitoring.value, settings.value, PushRateOf(c, d)))
    && (settings.None? ==> now.monitoring == c.monitoring)
    && (settings.Some? || order.Some? ==> now.server == Some(Server(
         if settings.Some? then settings.value.corsAllowedOrigins else server.corsAllowedOrigins,
         if order.Some? then order.value else server.cardOrder,
         server.rest)))
    && (settings.None? && order.None? ==> now.server == c.server)
    && (DisableFullAccess in requests ==> now.remoteAccess == Some(RemoteAccess(Some(false), remote.rest)))
    && (DisableFullAccess !in requests ==> now.remoteAccess == c.remoteAccess)
    && now.rest == c.rest
  }

  lemma {:induction false} LastOneMore(requests: seq<Request>, r: Request)
    ensures LastSettings(requests + [r]) == if r.UpdateSettings? then Some(r.settings) else LastSettings(requests)
    ensures LastCardOrder(requests + [r]) == if r.UpdateCardOrder? then Some(r.cardOrder) else LastCardOrder(requests)
    ensures DisableFullAccess in requests + [r] <==> r.DisableFullAccess? || DisableFullAccess in requests
  {
    assert (requests + [r])[..|requests|] == requests;
  }

  lemma {:induction false} HoldsLastOneMore(c: Config, requests: seq<Request>, d: Defaults, now: Config, r: Request)
    requires HoldsLast(c, requests, d, now)
    ensures HoldsLast(c, requests + [r], d, Apply(now, r, d))
  {
    LastOneMore(requests, r);
    match r
    case UpdateSettings(s) =>
    case DisableFullAccess =>
    case UpdateCardOrder(order) =>
  }

  lemma {:induction false} NoFieldIsLost(c: Config, requests: seq<Request>, d: Defaults)
    ensures HoldsLast(c, requests, d, Fold(c, requests, d))
  {
    if requests != [] {
      var n := |requests| - 1;
      NoFieldIsLost(c, requests[..n], d);
      HoldsLastOneMore(c, requests[..n], d, Fold(c, requests[..n], d), requests[n]);
      assert requests == requests[..n] + [requests[n]];
    }
  }

  predicate SameEndpoint(a: Request, b: Request) {
    || (a.UpdateSettings? && b.UpdateSettings?)
    || (a.DisableFullAccess? && b.DisableFullAccess?)
    || (a.UpdateCardOrder? && b.UpdateCardOrder?)
  }

  /** Requests to different endpoints commute, whatever the file holds; two to the
      same endpoint do exactly if they ask for the same. */
  lemma {:induction false} EndpointsCommute(a: Request, b: Request, d: Defaults)
    ensures (forall c :: Apply(Apply(c, a, d), b, d) == Apply(Apply(c, b, d), a, d)) <==> !SameEndpoint(a, b) || a == b
  {
    if SameEndpoint(a, b) && a != b {
      var c := Config(None, None, None, "");
      var ab, ba := Apply(Apply(c, a, d), b, d), Apply(Apply(c, b, d), a, d);
      if a.UpdateSettings? {
        assert ab.monitoring.value == WithSettings(ab.monitoring.value, b.settings);
        assert ba.monitoring.value == WithSettings(ba.monitoring.value, a.settings);
        assert ab.server.value.corsAllowedOrigins == b.settings.corsAllowedOrigins;
        assert ba.server.value.corsAllowedOrigins == a.settings.corsAllowedOrigins;
      } else {
        assert ab.server.value.cardOrder == b.cardOrder && ba.server.value.cardOrder == a.cardOrder;
      }
    }
  }

  // ---------------------------------------------------------------------------
  // The handlers interleaved
  // ---------------------------------------------------------------------------

  /** Where a handler is: it waits for the lock, holds it, has read the file, has
      written it, has only to let go, or has answered. */
  datatype Pc = Waiting | Holding | HasRead(config: Config) | HasWritten(config: Config) | Leaving | Done

  /** `taken` lists the handlers in the order in which they got the lock, and
      `committed` those whose write succeeded. */
  datatype State = State(
    file: Config, live: Live, fullAccessOff: bool, holder: Option<nat>, pcs: seq<Pc>, taken: seq<nat>, committed: seq<nat>)

  datatype Event = Take(id: nat) | ReadFile(id: nat, ok: bool) | WriteFile(id: nat, ok: bool) | Publish(id: nat) | Release(id: nat)

  function Start(config: Config, requests: seq<Request>, d: Defaults): State {
    State(config, LiveOf(GetMonitoring(config, d)), false, None, seq(|requests|, _ => Waiting), [], [])
  }

  predicate Enabled(s: State, e: Event) {
    && e.id < |s.pcs|
    && match e
       case Take(id) => s.pcs[id].Waiting? && s.holder.None?
       case ReadFile(id, _) => s.pcs[id].Holding?
       case WriteFile(id, _) => s.pcs[id].HasRead?
       case Publish(id) => s.pcs[id].HasWritten?
       case Release(id) => s.pcs[id].Leaving?
  }

  function Step(s: State, e: Event, requests: seq<Request>, d: Defaults): State
    requires |s.pcs| == |requests| && Enabled(s, e)
  {
    match e
    case Take(id) => s.(holder := Some(id), pcs := s.pcs[id := Holding], taken := s.taken + [id])
    case ReadFile(id, ok) => s.(pcs := s.pcs[id := if ok then HasRead(s.file) else Leaving])
    case WriteFile(id, ok) =>
      if !ok then s.(pcs := s.pcs[id := Leaving])
      else
        var config := Apply(s.pcs[id].config, requests[id], d);
        s.(file := config, pcs := s.pcs[id := HasWritten(config)], committed := s.committed + [id])
    case Publish(id) =>
      var left := s.(pcs := s.pcs[id := Leaving]);
      match requests[id] {
        case UpdateSettings(_) => left.(live := LiveOf(GetMonitoring(s.pcs[id].config, d)))
        case DisableFullAccess => left.(fullAccessOff := true)
        case UpdateCardOrder(_) => left
      }
    case Release(id) => s.(holder := None, pcs := s.pcs[id := Done])
  }

  /** A schedule is any list of events; those that cannot happen do not. */
  function Run(s: State, events: seq<Event>, requests: seq<Request>, d: Defaults): (r: State)
    requires |s.pcs| == |requests|
    ensures |r.pcs| == |requests|
    decreases |events|
  {
    if events == [] then s
    else Run(if Enabled(s, events[0]) then Step(s, events[0], requests, d) else s, events[1..], requests, d)
  }

  predicate Known(ids: seq<nat>, requests: seq<Request>) {
    forall i :: 0 <= i < |ids| ==> ids[i] < |requests|
  }

  function Pick(ids: seq<nat>, requests: seq<Request>): (r: seq<Request>)
    requires Known(ids, requests)
    ensures |r| == |ids|
    ensures forall i :: 0 <= i < |ids| ==> r[i] == requests[ids[i]]
  {
    seq(|ids|, i requires 0 <= i < |ids| => requests[ids[i]])
  }

  /** What the requests of `ids` have done to the file, and whether full access is
      among what they switched off. */
  function Effect(start: Config, ids: seq<nat>, requests: seq<Request>, d: Defaults): (Config, bool)
    requires Known(ids, requests)
  {
    if ids == [] then (start, false)
    else
      var before, request := Effect(start, ids[..|ids| - 1], requests, d), requests[ids[|ids| - 1]];
      (Apply(before.0, request, d), before.1 || request.DisableFullAccess?)
  }

  lemma {:induction false} EffectOneMore(start: Config, ids: seq<nat>, id: nat, requests: seq<Request>, d: Defaults)
    requires Known(ids, requests) && id < |requests|
    ensures
      var before := Effect(start, ids, requests, d);
      Effect(start, ids + [id], requests, d)
      == (Apply(before.0, requests[id], d), before.1 || requests[id].DisableFullAccess?)
  {
    assert (ids + [id])[..|ids|] == ids;
  }

  lemma {:induction false} EffectIsFold(start: Config, ids: seq<nat>, requests: seq<Request>, d: Defaults)
    requires Known(ids, requests)
    ensures Effect(start, ids, requests, d)
         == (Fold(start, Pick(ids, requests), d), DisableFullAccess in Pick(ids, requests))
  {
    if ids != [] {
      var init, id := ids[..|ids| - 1], ids[|ids| - 1];
      EffectIsFold(start, init, requests, d);
      var picked := Pick(ids, requests);
      assert picked[..|picked| - 1] == Pick(init, requests);
      assert picked == Pick(init, requests) + [requests[id]];
    }
  }

  /** `ids` come in the order of `all`. */
  predicate InOrder(ids: seq<nat>, all: seq<nat>)
    decreases |all|
  {
    if ids == [] then true
    else if all == [] then false
    else
      || (ids[|ids| - 1] == all[|all| - 1] && InOrder(ids[..|ids| - 1], all[..|all| - 1]))
      || InOrder(ids, all[..|all| - 1])
  }

  /** The committed requests whose effect the running agent shows: all, but for one
      that has written and not yet published. */
  function Published(s: State): seq<nat> {
    if s.holder.Some? && s.holder.value < |s.pcs| && s.pcs[s.holder.value].HasWritten? && s.committed != []
    then s.committed[..|s.committed| - 1]
    else s.committed
  }

  predicate Outside(pc: Pc) {
    pc.Waiting? || pc.Done?
  }

  ghost predicate Exclusive(s: State) {
    && (s.holder.Some? ==> s.holder.value < |s.pcs| && s.taken != [] && s.taken[|s.taken| - 1] == s.holder.value)
    && (forall i :: 0 <= i < |s.pcs| ==> (Outside(s.pcs[i]) <==> s.holder != Some(i)))
  }

  ghost predicate PastWriting(s: State, id: nat) {
    id < |s.pcs| && (s.pcs[id].HasWritten? || s.pcs[id].Leaving? || s.pcs[id].Done?)
  }

  /** One handler is between taking the lock and letting go, the one that took it
      last; and who committed is past writing, in the order of the lock. */
  ghost predicate Placed(s: State, requests: seq<Request>) {
    && |s.pcs| == |requests|
    && Exclusive(s)
    && Known(s.committed, requests)
    && (forall id <- s.committed :: PastWriting(s, id))
    && InOrder(s.committed, s.taken)
  }

  /** What a handler remembers is what the file holds. */
  ghost predicate Fresh(s: State) {
    && (forall i :: 0 <= i < |s.pcs| && s.pcs[i].HasRead? ==> s.pcs[i].config == s.file)
    && (forall i :: 0 <= i < |s.pcs| && s.pcs[i].HasWritten? ==>
          s.pcs[i].config == s.file && s.committed != [] && s.committed[|s.committed| - 1] == i)
  }

  ghost predicate Inv(s: State, start: Config, requests: seq<Request>, d: Defaults) {
    && Placed(s, requests)
    && Fresh(s)
    && s.file == Effect(start, s.committed, requests, d).0
    && s.live == LiveOf(GetMonitoring(Effect(start, Published(s), requests, d).0, d))
    && s.fullAccessOff == Effect(start, Published(s), requests, d).1
  }

  lemma {:induction false} StartIsInv(start: Config, requests: seq<Request>, d: Defaults)
    ensures Inv(Start(start, requests, d), start, requests, d)
  {
  }

  lemma {:induction false} InOrderLonger(ids: seq<nat>, all: seq<nat>, id: nat)
    requires InOrder(ids, all)
    ensures InOrder(ids, all + [id])
  {
    assert (all + [id])[..|all|] == all;
  }

  lemma {:induction false} InOrderBoth(ids: seq<nat>, all: seq<nat>, id: nat)
    requires InOrder(ids, all) && id !in ids && all != [] && all[|all| - 1] == id
    ensures InOrder(ids + [id], all)
  {
    assert (ids + [id])[..|ids|] == ids;
    if ids != [] {
      assert ids[|ids| - 1] in ids;
    }
  }

  lemma {:induction false} WriteKeepsPlaces(s: State, id: nat, requests: seq<Request>, d: Defaults)
    requires Placed(s, requests) && Fresh(s) && Enabled(s, WriteFile(id, true))
    ensures
      var t := Step(s, WriteFile(id, true), requests, d);
      Placed(t, requests) && Fresh(t) && Published(t) == s.committed == Published(s)
  {
    WriteKeepsPlaced(s, id, requests, d);
    WriteKeepsFresh(s, id, requests, d);
    assert (s.committed + [id])[..|s.committed|] == s.committed;
  }

  lemma {:induction false} WriteKeepsPlaced(s: State, id: nat, requests: seq<Request>, d: Defaults)
    requires Placed(s, requests) && Enabled(s, WriteFile(id, true))
    ensures Placed(Step(s, WriteFile(id, true), requests, d), requests)
  {
    assert s.holder == Some(id);
    assert !PastWriting(s, id);
    InOrderBoth(s.committed, s.taken, id);
  }

  lemma {:induction false} WriteKeepsFresh(s: State, id: nat, requests: seq<Request>, d: Defaults)
    requires Placed(s, requests) && Fresh(s) && Enabled(s, WriteFile(id, true))
    ensures Fresh(Step(s, WriteFile(id, true), requests, d))
  {
    assert forall i :: 0 <= i < |s.pcs| && i != id ==> Outside(s.pcs[i]);
  }

  lemma {:induction false} WriteKeepsInv(s: State, id: nat, start: Config, requests: seq<Request>, d: Defaults)
    requires Inv(s, start, requests, d) && Enabled(s, WriteFile(id, true))
    ensures Inv(Step(s, WriteFile(id, true), requests, d), start, requests, d)
  {
    WriteKeepsPlaces(s, id, requests, d);
    EffectOneMore(start, s.committed, id, requests, d);
  }

  lemma {:induction false} PublishKeepsPlaces(s: State, id: nat, requests: seq<Request>, d: Defaults)
    requires Placed(s, requests) && Fresh(s) && Enabled(s, Publish(id))
    ensures
      var t := Step(s, Publish(id), requests, d);
      Placed(t, requests) && Fresh(t) && Published(s) + [id] == s.committed == Published(t)
  {
    PublishKeepsPlaced(s, id, requests, d);
    assert s.holder == Some(id);
    assert forall i :: 0 <= i < |s.pcs| && i != id ==> Outside(s.pcs[i]);
  }

  lemma {:induction false} PublishKeepsPlaced(s: State, id: nat, requests: seq<Request>, d: Defaults)
    requires Placed(s, requests) && Fresh(s) && Enabled(s, Publish(id))
    ensures Placed(Step(s, Publish(id), requests, d), requests)
  {
    assert s.holder == Some(id);
  }

  lemma {:induction false} PublishKeepsInv(s: State, id: nat, start: Config, requests: seq<Request>, d: Defaults)
    requires Inv(s, start, requests, d) && Enabled(s, Publish(id))
    ensures Inv(Step(s, Publish(id), requests, d), start, requests, d)
  {
    PublishKeepsPlaces(s, id, requests, d);
    EffectOneMore(start, Published(s), id, requests, d);
  }

  lemma {:induction false} TakeKeepsPlaces(s: State, id: nat, requests: seq<Request>, d: Defaults)
    requires Placed(s, requests) && Fresh(s) && Enabled(s, Take(id))
    ensures
      var t := Step(s, Take(id), requests, d);
      Placed(t, requests) && Fresh(t) && Published(t) == Published(s)
  {
    InOrderLonger(s.committed, s.taken, id);
  }

  lemma {:induction false} MoveKeepsPlaces(s: State, e: Event, requests: seq<Request>, d: Defaults)
    requires Placed(s, requests) && Fresh(s) && Enabled(s, e)
    requires e.ReadFile? || e.Release? || (e.WriteFile? && !e.ok)
    ensures
      var t := Step(s, e, requests, d);
      Placed(t, requests) && Fresh(t) && Published(t) == Published(s)
  {
    assert s.holder == Some(e.id);
  }

  lemma {:induction false} OtherStepsKeepInv(s: State, e: Event, start: Config, requests: seq<Request>, d: Defaults)
    requires Inv(s, start, requests, d) && Enabled(s, e)
    requires !e.Publish? && !(e.WriteFile? && e.ok)
    ensures Inv(Step(s, e, requests, d), start, requests, d)
  {
    if e.Take? {
      TakeKeepsPlaces(s, e.id, requests, d);
    } else {
      MoveKeepsPlaces(s, e, requests, d);
    }
  }

  lemma {:induction false} StepKeepsInv(s: State, e: Event, start: Config, requests: seq<Request>, d: Defaults)
    requires Inv(s, start, requests, d) && Enabled(s, e)
    ensures Inv(Step(s, e, requests, d), start, requests, d)
  {
    if e.Publish? {
      PublishKeepsInv(s, e.id, start, requests, d);
    } else if e.WriteFile? && e.ok {
      WriteKeepsInv(s, e.id, start, requests, d);
    } else {
      OtherStepsKeepInv(s, e, start, requests, d);
    }
  }

  /** In every interleaving, whatever reads and writes fail: one handler at a time
      is between reading and writing; the file is the fold of the committed
      requests, in the order in which they got the lock; and what the agent runs
      with is what the published ones left. */
  lemma {:induction false} RunKeepsInv(s: State, events: seq<Event>, start: Config, requests: seq<Request>, d: Defaults)
    requires Inv(s, start, requests, d)
    ensures Inv(Run(s, events, requests, d), start, requests, d)
    decreases |events|
  {
    if events != [] {
      if Enabled(s, events[0]) {
        StepKeepsInv(s, events[0], start, requests, d);
        RunKeepsInv(Step(s, events[0], requests, d), events[1..], start, requests, d);
      } else {
        RunKeepsInv(s, events[1..], start, requests, d);
      }
    }
  }

  /** Serializability, from any start: the file is at every moment what the
      committed requests, one after the other in lock order, make of it; field by
      field it holds what the last of them to write the field put there; and once
      full access is switched off in it, it stays off. */
  lemma {:induction false} HandlersAreSerializable(start: Config, requests: seq<Request>, d: Defaults, events: seq<Event>)
    ensures
      var s := Run(Start(start, requests, d), events, requests, d);
      && Known(s.committed, requests) && InOrder(s.committed, s.taken)
      && (var done := Pick(s.committed, requests);
          && s.file == Fold(start, done, d)
          && HoldsLast(start, done, d, s.file)
          && (DisableFullAccess in done ==> s.file.remoteAccess.Some? && s.file.remoteAccess.value.fullAccess == Some(false)))
  {
    StartIsInv(start, requests, d);
    RunKeepsInv(Start(start, requests, d), events, start, requests, d);
    var s := Run(Start(start, requests, d), events, requests, d);
    EffectIsFold(start, s.committed, requests, d);
    NoFieldIsLost(start, Pick(s.committed, requests), d);
  }

  /** Whenever the lock is free, the agent runs with what the file says. */
  lemma {:induction false} IdleAgentRunsWhatIsWritten(start: Config, requests: seq<Request>, d: Defaults, events: seq<Event>)
    requires Run(Start(start, requests, d), events, requests, d).holder.None?
    ensures
      var s := Run(Start(start, requests, d), events, requests, d);
      && LiveFollows(s.live, OrDefault(s.file.monitoring, d.monitoring))
      && Known(s.committed, requests)
      && (s.fullAccessOff <==> DisableFullAccess in Pick(s.committed, requests))
  {
    StartIsInv(start, requests, d);
    RunKeepsInv(Start(start, requests, d), events, start, requests, d);
    var s := Run(Start(start, requests, d), events, requests, d);
    LiveOfFollows(GetMonitoring(s.file, d));
    EffectIsFold(start, s.committed, requests, d);
  }

  /** No step of any handler switches full access back on in the running agent. */
  lemma {:induction false} SwitchIsOneWay(s: State, events: seq<Event>, requests: seq<Request>, d: Defaults)
    requires |s.pcs| == |requests|
    ensures s.fullAccessOff ==> Run(s, events, requests, d).fullAccessOff
    ensures s.committed <= Run(s, events, requests, d).committed
    decreases |events|
  {
    if events != [] {
      if Enabled(s, events[0]) {
        SwitchIsOneWay(Step(s, events[0], requests, d), events[1..], requests, d);
      } else {
        SwitchIsOneWay(s, events[1..], requests, d);
      }
    }
  }

  /** The steps of a handler that meets no fault. */
  function Uninterrupted(id: nat): seq<Event> {
    [Take(id), ReadFile(id, true), WriteFile(id, true), Publish(id), Release(id)]
  }

  /** A handler that gets the lock and meets no fault commits its request: the file is
      what the request makes of it, whatever ran before, and the lock is free again. */
  lemma {:induction false} UndisturbedIsCommitted(s: State, id: nat, requests: seq<Request>, d: Defaults)
    requires |s.pcs| == |requests| && id < |s.pcs| && s.pcs[id].Waiting? && s.holder.None?
    ensures
      var t := Run(s, Uninterrupted(id), requests, d);
      && t.file == Apply(s.file, requests[id], d)
      && t.committed == s.committed + [id] && t.holder.None? && t.pcs == s.pcs[id := Done]
      && t.live == (if requests[id].UpdateSettings? then LiveOf(GetMonitoring(t.file, d)) else s.live)
      && t.fullAccessOff == (s.fullAccessOff || requests[id].DisableFullAccess?)
  {
    var s1 := Step(s, Take(id), requests, d);
    var s2 := Step(s1, ReadFile(id, true), requests, d);
    var s3 := Step(s2, WriteFile(id, true), requests, d);
    var s4 := Step(s3, Publish(id), requests, d);
    var s5 := Step(s4, Release(id), requests, d);
    RunsAhead(s4, Release(id), [], requests, d);
    RunsAhead(s3, Publish(id), [Release(id)], requests, d);
    RunsAhead(s2, WriteFile(id, true), [Publish(id), Release(id)], requests, d);
    RunsAhead(s1, ReadFile(id, true), [WriteFile(id, true), Publish(id), Release(id)], requests, d);
    RunsAhead(s, Take(id), [ReadFile(id, true), WriteFile(id, true), Publish(id), Release(id)], requests, d);
    assert s5.pcs == s.pcs[id := Done];
  }

  /** A handler that cannot read the file, or cannot write it, changes nothing but that
      it has had the lock, and lets go of it. */
  lemma {:induction false} FaultChangesNothing(s: State, id: nat, read: bool, requests: seq<Request>, d: Defaults)
    requires |s.pcs| == |requests| && id < |s.pcs| && s.pcs[id].Waiting? && s.holder.None?
    ensures
      var events := if read then [Take(id), ReadFile(id, true), WriteFile(id, false), Release(id)]
                    else [Take(id), ReadFile(id, false), Release(id)];
      Run(s, events, requests, d) == s.(pcs := s.pcs[id := Done], taken := s.taken + [id])
  {
    var s1 := Step(s, Take(id), requests, d);
    if read {
      var s2 := Step(s1, ReadFile(id, true), requests, d);
      var s3 := Step(s2, WriteFile(id, false), requests, d);
      RunsAhead(s3, Release(id), [], requests, d);
      RunsAhead(s2, WriteFile(id, false), [Release(id)], requests, d);
      RunsAhead(s1, ReadFile(id, true), [WriteFile(id, false), Release(id)], requests, d);
      RunsAhead(s, Take(id), [ReadFile(id, true), WriteFile(id, false), Release(id)], requests, d);
      assert Step(s3, Release(id), requests, d).pcs == s.pcs[id := Done];
    } else {
      var s2 := Step(s1, ReadFile(id, false), requests, d);
      RunsAhead(s2, Release(id), [], requests, d);
      RunsAhead(s1, ReadFile(id, false), [Release(id)], requests, d);
      RunsAhead(s, Take(id), [ReadFile(id, false), Release(id)], requests, d);
      assert Step(s2, Release(id), requests, d).pcs == s.pcs[id := Done];
    }
  }

  lemma {:induction false} RunsAhead(s: State, e: Event, rest: seq<Event>, requests: seq<Request>, d: Defaults)
    requires |s.pcs| == |requests| && Enabled(s, e)
    ensures Run(s, [e] + rest, requests, d) == Run(Step(s, e, requests, d), rest, requests, d)
  {
    assert ([e] + rest)[1..] == rest;
  }

  /** No deadlock: as long as a handler has not answered, some handler can go on, also
      where everything fails. */
  lemma {:induction false} SomeoneGoesOn(s: State, start: Config, requests: seq<Request>, d: Defaults, id: nat) returns (e: Event)
    requires Inv(s, start, requests, d) && id < |s.pcs| && !s.pcs[id].Done?
    ensures Enabled(s, e)
  {
    if s.holder.None? {
      assert Outside(s.pcs[id]);
      e := Take(id);
    } else {
      var h := s.holder.value;
      assert !Outside(s.pcs[h]);
      match s.pcs[h]
      case Holding => e := ReadFile(h, false);
      case HasRead(_) => e := WriteFile(h, false);
      case HasWritten(_) => e := Publish(h);
      case Leaving => e := Release(h);
    }
  }
}
