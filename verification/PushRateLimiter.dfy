/** The push rate limiter: at most `times` deliveries of one name within `window`,
    kept as a queue of delivery times whose expired head is dropped on each check. */
module PushRateLimiter {
  import opened Wrappers

  datatype Name = Name(text: string)

  type Records = map<Name, seq<int>>

  function Queue(records: Records, name: Name): seq<int> {
    if name in records then records[name] else []
  }

  /** `duration_since`, which saturates at zero. */
  function Elapsed(now: int, since: int): int {
    if now < since then 0 else now - since
  }

  /** The queue without the leading entries older than the window. */
  function Expire(queue: seq<int>, window: nat, now: int): (rest: seq<int>)
    ensures |rest| <= |queue| && rest == queue[|queue| - |rest|..]
    ensures forall i :: 0 <= i < |queue| - |rest| ==> Elapsed(now, queue[i]) > window
    ensures rest != [] ==> Elapsed(now, rest[0]) <= window
  {
    if queue != [] && Elapsed(now, queue[0]) > window then
      var rest := Expire(queue[1..], window, now);
      assert forall i :: 1 <= i < |queue| - |rest| ==> queue[i] == queue[1..][i - 1];
      rest
    else queue
  }

  class Limiter {
    var records: Records

    constructor ()
      ensures records == map[]
    {
      records := map[];
    }

    /** Drops what has left the window, and tells whether the rest is below the quota. */
    method Check(name: Name, times: nat, window: nat, now: int) returns (allowed: bool)
      modifies this`records
      ensures records == old(records)[name := Expire(Queue(old(records), name), window, now)]
      ensures allowed <==> |Queue(records, name)| < times
    {
      var queue := Queue(records, name);
      while queue != [] && Elapsed(now, queue[0]) > window
        invariant Expire(queue, window, now) == Expire(Queue(old(records), name), window, now)
        decreases |queue|
      {
        queue := queue[1..];
      }
      records := records[name := queue];
      allowed := |queue| < times;
    }

    method Acquire(name: Name, now: int)
      modifies this`records
      ensures records == old(records)[name := Queue(old(records), name) + [now]]
    {
      records := records[name := Queue(records, name) + [now]];
    }
  }

  // ---------------------------------------------------------------------------
  // Runs of the alert loop: check, deliver, acquire if it was delivered
  // ---------------------------------------------------------------------------

  datatype Push = Push(name: Name, checkedAt: int, delivered: bool, deliveredAt: int)

  predicate Allowed(records: Records, p: Push, times: nat, window: nat) {
    |Expire(Queue(records, p.name), window, p.checkedAt)| < times
  }

  function NextQueue(queue: seq<int>, p: Push, times: nat, window: nat): seq<int> {
    var rest := Expire(queue, window, p.checkedAt);
    if |rest| < times && p.delivered then rest + [p.deliveredAt] else rest
  }

  function Step(records: Records, p: Push, times: nat, window: nat): Records {
    records[p.name := NextQueue(Queue(records, p.name), p, times, window)]
  }

  /** The two methods used in sequence are one `Step`. */
  method CheckThenAcquire(limiter: Limiter, p: Push, times: nat, window: nat) returns (allowed: bool)
    modifies limiter`records
    ensures allowed == Allowed(old(limiter.records), p, times, window)
    ensures limiter.records == Step(old(limiter.records), p, times, window)
  {
    allowed := limiter.Check(p.name, times, window, p.checkedAt);
    if allowed && p.delivered {
      limiter.Acquire(p.name, p.deliveredAt);
    }
  }

  function Answers(records: Records, pushes: seq<Push>, times: nat, window: nat): seq<bool>
    decreases |pushes|
  {
    if pushes == [] then []
    else [Allowed(records, pushes[0], times, window)]
         + Answers(Step(records, pushes[0], times, window), pushes[1..], times, window)
  }

  /** When `name` was delivered, in order. */
  function Deliveries(records: Records, pushes: seq<Push>, name: Name, times: nat, window: nat): seq<int>
    decreases |pushes|
  {
    if pushes == [] then []
    else
      var p := pushes[0];
      (if p.name == name && p.delivered && Allowed(records, p, times, window) then [p.deliveredAt] else [])
      + Deliveries(Step(records, p, times, window), pushes[1..], name, times, window)
  }

  // The reference limiter forgets nothing and counts the whole log each time.

  function CountWithin(log: seq<int>, window: nat, now: int): nat {
    if log == [] then 0
    else (if Elapsed(now, log[0]) <= window then 1 else 0) + CountWithin(log[1..], window, now)
  }

  predicate AllowedByLog(logs: Records, p: Push, times: nat, window: nat) {
    CountWithin(Queue(logs, p.name), window, p.checkedAt) < times
  }

  function NextLog(log: seq<int>, p: Push, times: nat, window: nat): seq<int> {
    if CountWithin(log, window, p.checkedAt) < times && p.delivered then log + [p.deliveredAt] else log
  }

  function LogStep(logs: Records, p: Push, times: nat, window: nat): Records {
    logs[p.name := NextLog(Queue(logs, p.name), p, times, window)]
  }

  function LogAnswers(logs: Records, pushes: seq<Push>, times: nat, window: nat): seq<bool>
    decreases |pushes|
  {
    if pushes == [] then []
    else [AllowedByLog(logs, pushes[0], times, window)]
         + LogAnswers(LogStep(logs, pushes[0], times, window), pushes[1..], times, window)
  }

  ghost predicate InOrder(pushes: seq<Push>, start: int) {
    && (forall i :: 0 <= i < |pushes| ==> start <= pushes[i].checkedAt <= pushes[i].deliveredAt)
    && (forall i, j :: 0 <= i < j < |pushes| ==> pushes[i].deliveredAt <= pushes[j].checkedAt)
  }

  lemma {:induction false} InOrderTail(pushes: seq<Push>, start: int)
    requires InOrder(pushes, start) && pushes != []
    ensures start <= pushes[0].checkedAt <= pushes[0].deliveredAt
    ensures InOrder(pushes[1..], pushes[0].deliveredAt)
  {
  }

  ghost predicate Ordered(log: seq<int>, now: int) {
    && (forall i :: 0 <= i < |log| ==> log[i] <= now)
    && (forall i, j :: 0 <= i < j < |log| ==> log[i] <= log[j])
  }

  /** The queue is the log without a head that had already left the window. */
  ghost predicate Covers(queue: seq<int>, log: seq<int>, window: nat, now: int) {
    && |queue| <= |log| && queue == log[|log| - |queue|..]
    && (forall i :: 0 <= i < |log| - |queue| ==> now - log[i] > window)
  }

  ghost predicate Tracks(queue: seq<int>, log: seq<int>, window: nat, now: int) {
    Ordered(log, now) && Covers(queue, log, window, now)
  }

  ghost predicate Simulates(records: Records, logs: Records, window: nat, now: int) {
    forall name :: Tracks(Queue(records, name), Queue(logs, name), window, now)
  }

  lemma {:induction false} CountNone(log: seq<int>, window: nat, now: int, k: nat)
    requires k <= |log|
    requires forall i :: 0 <= i < k ==> now - log[i] > window
    ensures CountWithin(log, window, now) == CountWithin(log[k..], window, now)
  {
    if k > 0 {
      CountNone(log, window, now, k - 1);
      assert log[k - 1..][0] == log[k - 1] && log[k - 1..][1..] == log[k..];
    } else {
      assert log[0..] == log;
    }
  }

  lemma {:induction false} CountAll(log: seq<int>, window: nat, now: int)
    requires forall i :: 0 <= i < |log| ==> Elapsed(now, log[i]) <= window
    ensures CountWithin(log, window, now) == |log|
  {
    if log != [] {
      CountAll(log[1..], window, now);
    }
  }

  /** What a check leaves in the queue is what the log holds within the window. */
  lemma {:induction false} ExpireCovers(queue: seq<int>, log: seq<int>, window: nat, t: int, now: int)
    requires Ordered(log, t) && Covers(queue, log, window, t) && t <= now
    ensures Covers(Expire(queue, window, now), log, window, now)
  {
    var rest := Expire(queue, window, now);
    var k, cut := |log| - |queue|, |queue| - |rest|;
    assert log[k..][cut..] == log[k + cut..];
    forall i | 0 <= i < k + cut
      ensures now - log[i] > window
    {
      if i >= k {
        assert log[i] == queue[i - k];
      }
    }
  }

  lemma {:induction false} CoveringCounts(rest: seq<int>, log: seq<int>, window: nat, t: int, now: int)
    requires Ordered(log, t) && Covers(rest, log, window, now)
    requires rest != [] ==> Elapsed(now, rest[0]) <= window
    ensures CountWithin(log, window, now) == |rest|
  {
    var k := |log| - |rest|;
    CountNone(log, window, now, k);
    forall i | 0 <= i < |rest|
      ensures Elapsed(now, rest[i]) <= window
    {
      assert rest[i] == log[k + i] && rest[0] == log[k];
    }
    CountAll(rest, window, now);
  }

  lemma {:induction false} ExpireCounts(queue: seq<int>, log: seq<int>, window: nat, t: int, now: int)
    requires Ordered(log, t) && Covers(queue, log, window, t) && t <= now
    ensures CountWithin(log, window, now) == |Expire(queue, window, now)|
  {
    ExpireCovers(queue, log, window, t, now);
    CoveringCounts(Expire(queue, window, now), log, window, t, now);
  }

  lemma {:induction false} AppendCovers(queue: seq<int>, log: seq<int>, window: nat, t: int, last: int)
    requires Ordered(log, t) && Covers(queue, log, window, t) && t <= last
    ensures Ordered(log, last) && Covers(queue, log, window, last)
    ensures Ordered(log + [last], last) && Covers(queue + [last], log + [last], window, last)
  {
    var k := |log| - |queue|;
    assert (log + [last])[k..] == log[k..] + [last];
  }

  lemma {:induction false} NextTracks(queue: seq<int>, log: seq<int>, p: Push, times: nat, window: nat, t: int)
    requires Tracks(queue, log, window, t)
    requires t <= p.checkedAt <= p.deliveredAt
    ensures CountWithin(log, window, p.checkedAt) == |Expire(queue, window, p.checkedAt)|
    ensures Tracks(NextQueue(queue, p, times, window), NextLog(log, p, times, window), window, p.deliveredAt)
  {
    var rest := Expire(queue, window, p.checkedAt);
    ExpireCounts(queue, log, window, t, p.checkedAt);
    ExpireCovers(queue, log, window, t, p.checkedAt);
    var more := |rest| < times && p.delivered;
    ExpiredTracks(rest, log, more, window, t, p.checkedAt, p.deliveredAt);
    assert NextQueue(queue, p, times, window) == if more then rest + [p.deliveredAt] else rest;
    assert NextLog(log, p, times, window) == if more then log + [p.deliveredAt] else log;
  }

  lemma {:induction false} ExpiredTracks(rest: seq<int>, log: seq<int>, more: bool, window: nat, t: int, now: int, last: int)
    requires Ordered(log, t) && Covers(rest, log, window, now) && t <= now <= last
    ensures Tracks(if more then rest + [last] else rest, if more then log + [last] else log, window, last)
  {
    assert Ordered(log, now);
    AppendCovers(rest, log, window, now, last);
  }

  lemma {:induction false} StepTracks(records: Records, logs: Records, p: Push, times: nat, window: nat, t: int, name: Name)
    requires Tracks(Queue(records, name), Queue(logs, name), window, t)
    requires t <= p.checkedAt <= p.deliveredAt
    ensures name == p.name ==> Allowed(records, p, times, window) == AllowedByLog(logs, p, times, window)
    ensures Tracks(Queue(Step(records, p, times, window), name), Queue(LogStep(logs, p, times, window), name),
                   window, p.deliveredAt)
  {
    if name == p.name {
      NextTracks(Queue(records, name), Queue(logs, name), p, times, window, t);
    } else {
      AppendCovers(Queue(records, name), Queue(logs, name), window, t, p.deliveredAt);
    }
  }

  lemma {:induction false} StepSimulates(records: Records, logs: Records, p: Push, times: nat, window: nat, t: int)
    requires Simulates(records, logs, window, t)
    requires t <= p.checkedAt <= p.deliveredAt
    ensures Allowed(records, p, times, window) == AllowedByLog(logs, p, times, window)
    ensures Simulates(Step(records, p, times, window), LogStep(logs, p, times, window), window, p.deliveredAt)
  {
    forall name
      ensures Tracks(Queue(Step(records, p, times, window), name), Queue(LogStep(logs, p, times, window), name),
                     window, p.deliveredAt)
    {
      StepTracks(records, logs, p, times, window, t, name);
    }
    StepTracks(records, logs, p, times, window, t, p.name);
  }

  /** Over every run in clock order, the limiter gives the answers of one that
      remembers every delivery: a push is refused exactly when `times` deliveries
      of that name lie within the last `window`. */
  lemma {:induction false} DroppingHeadsLosesNothing(
    records: Records, logs: Records, pushes: seq<Push>, times: nat, window: nat, t: int)
    requires Simulates(records, logs, window, t) && InOrder(pushes, t)
    ensures Answers(records, pushes, times, window) == LogAnswers(logs, pushes, times, window)
    decreases |pushes|
  {
    if pushes != [] {
      var p := pushes[0];
      InOrderTail(pushes, t);
      StepSimulates(records, logs, p, times, window, t);
      DroppingHeadsLosesNothing(
        Step(records, p, times, window), LogStep(logs, p, times, window), pushes[1..], times, window, p.deliveredAt);
    }
  }

  lemma {:induction false} DroppingHeadsLosesNothingFromEmpty(pushes: seq<Push>, times: nat, window: nat)
    requires pushes != [] ==> InOrder(pushes, pushes[0].checkedAt)
    ensures Answers(map[], pushes, times, window) == LogAnswers(map[], pushes, times, window)
  {
    if pushes != [] {
      DroppingHeadsLosesNothing(map[], map[], pushes, times, window, pushes[0].checkedAt);
    }
  }

  /** Any delivery is more than a window later than the one `times` before it. */
  ghost predicate Spaced(log: seq<int>, times: nat, window: nat) {
    forall j :: times <= j < |log| ==> log[j] - log[j - times] > window
  }

  lemma {:induction false} CountAtLeast(log: seq<int>, window: nat, now: int, k: nat)
    requires k <= |log|
    requires forall i :: k <= i < |log| ==> Elapsed(now, log[i]) <= window
    ensures CountWithin(log, window, now) >= |log| - k
    decreases |log|
  {
    if log != [] {
      CountAtLeast(log[1..], window, now, if k > 0 then k - 1 else 0);
    }
  }

  lemma {:induction false} NextKeepsSpaced(log: seq<int>, p: Push, times: nat, window: nat, t: int)
    requires Ordered(log, t) && t <= p.checkedAt <= p.deliveredAt
    requires Spaced(log, times, window)
    ensures Spaced(NextLog(log, p, times, window), times, window)
  {
    if CountWithin(log, window, p.checkedAt) < times && times <= |log| {
      var k := |log| - times;
      if Elapsed(p.checkedAt, log[k]) <= window {
        CountAtLeast(log, window, p.checkedAt, k);
      }
    }
  }

  /** One push either reaches the log of `name` or leaves both log and queue alone. */
  lemma {:induction false} DeliveryMovesToLog(
    records: Records, log: seq<int>, pushes: seq<Push>, name: Name, times: nat, window: nat, t: int)
    requires pushes != [] && t <= pushes[0].checkedAt <= pushes[0].deliveredAt
    requires Tracks(Queue(records, name), log, window, t)
    ensures
      var p := pushes[0];
      var r := Step(records, p, times, window);
      var next := if p.name == name then NextLog(log, p, times, window) else log;
      && Tracks(Queue(r, name), next, window, p.deliveredAt)
      && log + Deliveries(records, pushes, name, times, window)
         == next + Deliveries(r, pushes[1..], name, times, window)
  {
    var p := pushes[0];
    var later := Deliveries(Step(records, p, times, window), pushes[1..], name, times, window);
    if p.name == name {
      NextTracks(Queue(records, name), log, p, times, window, t);
    } else {
      AppendCovers(Queue(records, name), log, window, t, p.deliveredAt);
    }
    if p.name == name && p.delivered && Allowed(records, p, times, window) {
      Regroup(log, [p.deliveredAt], later);
    } else {
      Regroup(log, [], later);
    }
  }

  lemma {:induction false} DeliveriesAreSpaced(
    records: Records, log: seq<int>, pushes: seq<Push>, name: Name, times: nat, window: nat, t: int)
    returns (end: int)
    requires Tracks(Queue(records, name), log, window, t) && InOrder(pushes, t)
    requires Spaced(log, times, window)
    ensures Spaced(log + Deliveries(records, pushes, name, times, window), times, window)
    ensures Ordered(log + Deliveries(records, pushes, name, times, window), end)
    decreases |pushes|
  {
    if pushes == [] {
      Regroup(log, [], []);
      end := t;
    } else {
      var p := pushes[0];
      InOrderTail(pushes, t);
      NextKeepsSpaced(log, p, times, window, t);
      DeliveryMovesToLog(records, log, pushes, name, times, window, t);
      end := DeliveriesAreSpaced(
        Step(records, p, times, window), if p.name == name then NextLog(log, p, times, window) else log,
        pushes[1..], name, times, window, p.deliveredAt);
    }
  }

  function CountBetween(log: seq<int>, from: int, to: int): nat {
    if log == [] then 0
    else (if from <= log[0] <= to then 1 else 0) + CountBetween(log[1..], from, to)
  }

  lemma {:induction false} CountBetweenFrom(log: seq<int>, from: int, to: int, k: nat)
    requires k <= |log|
    requires forall i :: k <= i < |log| ==> log[i] > to
    ensures CountBetween(log, from, to) <= k
    decreases |log|
  {
    if log != [] {
      CountBetweenFrom(log[1..], from, to, if k > 0 then k - 1 else 0);
    }
  }

  lemma {:induction false} SpacedBoundsCount(log: seq<int>, times: nat, window: nat, from: int)
    requires Spaced(log, times, window)
    requires forall i, j :: 0 <= i < j < |log| ==> log[i] <= log[j]
    ensures CountBetween(log, from, from + window) <= times
    decreases |log|
  {
    if log == [] {
    } else if log[0] < from {
      var rest := log[1..];
      forall j | times <= j < |rest|
        ensures rest[j] - rest[j - times] > window
      {
        assert log[j + 1] - log[j + 1 - times] > window;
      }
      SpacedBoundsCount(rest, times, window, from);
    } else {
      if times < |log| {
        assert log[times] - log[times - times] > window;
      }
      CountBetweenFrom(log, from, from + window, if times < |log| then times else |log|);
    }
  }

  /** The limiter's guarantee: with a fixed quota and window, no closed interval of
      the window's length holds more than the quota of one name's deliveries. */
  lemma {:induction false} NoWindowHoldsMoreThanTheQuota(pushes: seq<Push>, name: Name, times: nat, window: nat, from: int)
    requires pushes != [] ==> InOrder(pushes, pushes[0].checkedAt)
    ensures CountBetween(Deliveries(map[], pushes, name, times, window), from, from + window) <= times
  {
    var t := if pushes == [] then 0 else pushes[0].checkedAt;
    var end := DeliveriesAreSpaced(map[], [], pushes, name, times, window, t);
    var log := Deliveries(map[], pushes, name, times, window);
    assert [] + log == log;
    SpacedBoundsCount(log, times, window, from);
  }
}
