/** Login throttling: exponential backoff on two keys, a TTL that forgives, and a
    map that is pruned once it is large.

    Clock readings are integers, in nanoseconds. Lower-casing a username is a
    library call, so it appears as the parameter `fold`; every result below
    holds for any folding function. */
module LoginThrottle {
  import opened Wrappers

  const SECOND := 1_000_000_000
  const FREE_ATTEMPTS := 3
  const BASE_DELAY := SECOND
  const MAX_DELAY := 300 * SECOND
  const ENTRY_TTL := 3600 * SECOND
  const PRUNE_THRESHOLD := 1024
  const U32_MAX := 0xFFFF_FFFF

  datatype Key = Ip(addr: nat) | User(name: string)

  type u32 = x: int | 0 <= x <= U32_MAX

  datatype Entry = Entry(failures: u32, lastSeen: int)

  type Entries = map<Key, Entry>

  function Pow2(n: nat): (r: nat)
    ensures r >= 1
  {
    if n == 0 then 1 else 2 * Pow2(n - 1)
  }

  function Min(a: int, b: int): int {
    if a < b then a else b
  }

  /** The wait this many failures cost, counted from the last of them. */
  function Penalty(failures: nat): int {
    if failures <= FREE_ATTEMPTS then 0
    else
      var shift := Min(failures - FREE_ATTEMPTS - 1, 20);
      Min(BASE_DELAY * Pow2(shift), MAX_DELAY)
  }

  /** `saturating_duration_since`. */
  function Elapsed(now: int, since: int): int {
    if now < since then 0 else now - since
  }

  function Keys(fold: string -> string, ip: Option<nat>, username: string): seq<Key> {
    (if ip.Some? then [Ip(ip.value)] else []) +
    (if username != "" then [User(fold(username))] else [])
  }

  /** What is left of one key's penalty. */
  function Remaining(m: Entries, k: Key, now: int): nat {
    if k !in m then 0
    else
      var left := Penalty(m[k].failures) - Elapsed(now, m[k].lastSeen);
      if left > 0 then left else 0
  }

  function Longest(m: Entries, keys: seq<Key>, now: int): Option<int>
    decreases |keys|
  {
    if keys == [] then None
    else
      var head, rest := Remaining(m, keys[0], now), Longest(m, keys[1..], now);
      if head == 0 then rest
      else if rest.Some? && rest.value >= head then rest
      else Some(head)
  }

  lemma {:induction false} LongestIsLargest(m: Entries, keys: seq<Key>, now: int)
    ensures
      var wait := Longest(m, keys, now);
      && (wait.None? <==> forall k :: k in keys ==> Remaining(m, k, now) == 0)
      && (wait.Some? ==>
            && wait.value > 0
            && (exists k :: k in keys && Remaining(m, k, now) == wait.value)
            && (forall k :: k in keys ==> Remaining(m, k, now) <= wait.value))
    decreases |keys|
  {
    if keys != [] {
      LongestIsLargest(m, keys[1..], now);
      assert forall k :: k in keys ==> k == keys[0] || k in keys[1..];
      assert keys[0] in keys;
    }
  }

  /** The longest wait any of the keys still imposes. */
  function Check(m: Entries, keys: seq<Key>, now: int): (wait: Option<int>)
    ensures wait.None? <==> forall k :: k in keys ==> Remaining(m, k, now) == 0
    ensures wait.Some? ==>
              && wait.value > 0
              && (exists k :: k in keys && Remaining(m, k, now) == wait.value)
              && (forall k :: k in keys ==> Remaining(m, k, now) <= wait.value)
  {
    LongestIsLargest(m, keys, now);
    Longest(m, keys, now)
  }

  /** One failure against one key, the first one again after the TTL. */
  function Bump(m: Entries, k: Key, now: int): Entries {
    var failures := if k in m && Elapsed(now, m[k].lastSeen) < ENTRY_TTL then m[k].failures else 0;
    m[k := Entry(if failures < U32_MAX then failures + 1 else failures, now)]
  }

  function BumpAll(m: Entries, keys: seq<Key>, now: int): Entries
    decreases |keys|
  {
    if keys == [] then m else BumpAll(Bump(m, keys[0], now), keys[1..], now)
  }

  lemma {:induction false} BumpAllFrom(m: Entries, keys: seq<Key>, i: nat, now: int)
    requires i < |keys|
    ensures BumpAll(m, keys[i..], now) == BumpAll(Bump(m, keys[i], now), keys[i + 1..], now)
  {
    assert keys[i..][1..] == keys[i + 1..];
  }

  /** Forget idle keys, but only when the map has grown past the threshold. */
  function Prune(m: Entries, now: int): Entries {
    if |m| > PRUNE_THRESHOLD then map k | k in m && Elapsed(now, m[k].lastSeen) < ENTRY_TTL :: m[k]
    else m
  }

  type Pruner = (Entries, int) -> Entries

  function Never(m: Entries, now: int): Entries {
    m
  }

  function Forget(m: Entries, keys: seq<Key>): Entries {
    map k | k in m && k !in keys :: m[k]
  }

  class Throttle {
    var entries: Entries
    const fold: string -> string

    constructor (fold: string -> string)
      ensures entries == map[] && this.fold == fold
    {
      entries := map[];
      this.fold := fold;
    }

    function CheckAt(ip: Option<nat>, username: string, now: int): (wait: Option<int>)
      reads this
      ensures wait.None? <==> Passes(fold, entries, Attempt(ip, username), now)
    {
      Check(entries, Keys(fold, ip, username), now)
    }

    method RecordFailureAt(ip: Option<nat>, username: string, now: int)
      modifies this`entries
      ensures entries == BumpAll(Prune(old(entries), now), Keys(fold, ip, username), now)
    {
      if |entries| > PRUNE_THRESHOLD {
        entries := map k | k in entries && Elapsed(now, entries[k].lastSeen) < ENTRY_TTL :: entries[k];
      }
      assert entries == Prune(old(entries), now);
      var keys := Keys(fold, ip, username);
      var i := 0;
      assert keys[0..] == keys;
      while i < |keys|
        invariant 0 <= i <= |keys|
        invariant BumpAll(entries, keys[i..], now) == BumpAll(Prune(old(entries), now), keys, now)
      {
        var entry := if keys[i] in entries then entries[keys[i]] else Entry(0, now);
        // After the TTL old failures no longer count.
        if Elapsed(now, entry.lastSeen) >= ENTRY_TTL {
          entry := entry.(failures := 0);
        }
        entry := Entry(if entry.failures < U32_MAX then entry.failures + 1 else entry.failures, now);
        BumpAllFrom(entries, keys, i, now);
        assert entries[keys[i] := entry] == Bump(entries, keys[i], now);
        entries := entries[keys[i] := entry];
        i := i + 1;
      }
    }

    method RecordSuccess(ip: Option<nat>, username: string)
      modifies this`entries
      ensures entries == Forget(old(entries), Keys(fold, ip, username))
    {
      var keys := Keys(fold, ip, username);
      var i := 0;
      while i < |keys|
        invariant 0 <= i <= |keys|
        invariant entries == Forget(old(entries), keys[..i])
      {
        assert keys[..i + 1] == keys[..i] + [keys[i]];
        entries := entries - {keys[i]};
        i := i + 1;
      }
      assert keys[..i] == keys;
    }
  }

  /** What a recorded failure means key by key: it counts once more against the
      address it came from and the username it tried, or is their first again if they
      had been idle for the TTL. Every other key keeps its entry, unless the map is
      large and it has been idle for the TTL; without an address no address is touched. */
  lemma {:induction false} RecordedEntry(m: Entries, fold: string -> string, ip: Option<nat>, username: string, now: int, k: Key)
    ensures
      var a := Attempt(ip, username);
      var r := Recorded(fold, m, a, Wrong, now, Prune);
      if a.Against(fold, k) then
        && k in r && r[k].lastSeen == now
        && r[k].failures == if k in m && Elapsed(now, m[k].lastSeen) < ENTRY_TTL
                            then Min(m[k].failures + 1, U32_MAX)
                            else 1
      else
        && (k in r <==> k in m && (|m| <= PRUNE_THRESHOLD || Elapsed(now, m[k].lastSeen) < ENTRY_TTL))
        && (k in r ==> r[k] == m[k])
  {
    OwnKeys(fold, ip, username, k);
    BumpAllEntry(Prune(m, now), Keys(fold, ip, username), now, k);
  }

  /** A success forgets its address and its username, and nothing else. */
  lemma {:induction false} SuccessForgets(m: Entries, fold: string -> string, ip: Option<nat>, username: string, now: int, k: Key)
    ensures
      var a := Attempt(ip, username);
      var r := Recorded(fold, m, a, Right, now, Prune);
      && (k in r <==> k in m && !a.Against(fold, k))
      && (k in r ==> r[k] == m[k])
  {
    OwnKeys(fold, ip, username, k);
  }

  /** The penalty of a key has not run out. */
  predicate Blocks(m: Entries, k: Key, now: int) {
    k in m && Elapsed(now, m[k].lastSeen) < Penalty(m[k].failures)
  }

  /** A login is refused exactly if its address or its username is blocked, whatever
      the other one is. */
  lemma {:induction false} RefusedExactly(fold: string -> string, m: Entries, a: Attempt, now: int)
    ensures Passes(fold, m, a, now) <==> forall k :: a.Against(fold, k) ==> !Blocks(m, k, now)
  {
    var keys := Keys(fold, a.ip, a.username);
    forall k
      ensures k in keys <==> a.Against(fold, k)
      ensures Remaining(m, k, now) == 0 <==> !Blocks(m, k, now)
    {
      OwnKeys(fold, a.ip, a.username, k);
      if k in m {
        PenaltyIsCapped(m[k].failures);
      }
    }
  }

  /** A clock reading from before the last failure counts as no time passed. */
  lemma {:induction false} EarlierClockWaitsInFull(m: Entries, k: Key, now: int)
    requires k in m && now <= m[k].lastSeen
    ensures Remaining(m, k, now) == Penalty(m[k].failures)
  {
    PenaltyIsCapped(m[k].failures);
  }

  lemma {:induction false} RemainingShrinks(m: Entries, k: Key, now: int, d: nat)
    requires Sane(m, now)
    ensures Remaining(m, k, now + d) == if Remaining(m, k, now) > d then Remaining(m, k, now) - d else 0
    ensures Remaining(m, k, now) <= MAX_DELAY
  {
    if k in m {
      PenaltyIsCapped(m[k].failures);
    }
  }

  /** No key of these is blocked for longer than `bound`. */
  predicate NoneExceeds(m: Entries, keys: seq<Key>, now: int, bound: int)
    decreases |keys|
  {
    keys == [] || (Remaining(m, keys[0], now) <= bound && NoneExceeds(m, keys[1..], now, bound))
  }

  lemma {:induction false} CheckIsBounded(m: Entries, keys: seq<Key>, now: int, bound: int)
    requires NoneExceeds(m, keys, now, bound)
    ensures Longest(m, keys, now).Some? ==> 0 < Longest(m, keys, now).value <= bound
    decreases |keys|
  {
    if keys != [] {
      CheckIsBounded(m, keys[1..], now, bound);
    }
  }

  lemma {:induction false} CheckIsLargest(m: Entries, keys: seq<Key>, now: int, k: Key, wait: int)
    requires k in keys && Remaining(m, k, now) == wait && NoneExceeds(m, keys, now, wait)
    ensures Longest(m, keys, now) == if wait > 0 then Some(wait) else None
    decreases |keys|
  {
    CheckIsBounded(m, keys, now, wait);
    if k == keys[0] {
      CheckIsBounded(m, keys[1..], now, wait);
    } else {
      CheckIsLargest(m, keys[1..], now, k, wait);
    }
  }

  /** The wait a login is told is exact: as long as nothing is recorded, it is refused
      until that time has passed, with what is left of it, and then it is not. */
  lemma {:induction false} WaitIsExact(fold: string -> string, m: Entries, a: Attempt, now: int, d: nat)
    requires Sane(m, now) && !Passes(fold, m, a, now)
    requires d <= Check(m, Keys(fold, a.ip, a.username), now).value
    ensures
      var keys := Keys(fold, a.ip, a.username);
      var wait := Check(m, keys, now).value;
      && wait <= MAX_DELAY
      && Check(m, keys, now + d) == if d < wait then Some(wait - d) else None
  {
    var keys := Keys(fold, a.ip, a.username);
    var k := LargestKey(m, keys, now);
    RemainingShrinks(m, k, now, 0);
    WaitShrinks(m, keys, now, d, k);
  }

  lemma {:induction false} LargestKey(m: Entries, keys: seq<Key>, now: int) returns (k: Key)
    requires Check(m, keys, now).Some?
    ensures k in keys && Remaining(m, k, now) == Check(m, keys, now).value
    ensures NoneExceeds(m, keys, now, Remaining(m, k, now))
  {
    k :| k in keys && Remaining(m, k, now) == Check(m, keys, now).value;
    NoneExceedsCheck(m, keys, now, Remaining(m, k, now));
  }

  lemma {:induction false} NoneExceedsCheck(m: Entries, keys: seq<Key>, now: int, bound: int)
    requires forall x <- keys :: Remaining(m, x, now) <= bound
    ensures NoneExceeds(m, keys, now, bound)
    decreases |keys|
  {
    if keys != [] {
      NoneExceedsCheck(m, keys[1..], now, bound);
    }
  }

  lemma {:induction false} WaitShrinks(m: Entries, keys: seq<Key>, now: int, d: nat, k: Key)
    requires Sane(m, now) && k in keys && NoneExceeds(m, keys, now, Remaining(m, k, now))
    requires d <= Remaining(m, k, now)
    ensures Longest(m, keys, now + d) == if d < Remaining(m, k, now) then Some(Remaining(m, k, now) - d) else None
  {
    StaysLargest(m, keys, now, d, Remaining(m, k, now));
    RemainingShrinks(m, k, now, d);
    CheckIsLargest(m, keys, now + d, k, Remaining(m, k, now) - d);
  }

  lemma {:induction false} StaysLargest(m: Entries, keys: seq<Key>, now: int, d: nat, bound: int)
    requires Sane(m, now) && NoneExceeds(m, keys, now, bound) && d <= bound
    ensures NoneExceeds(m, keys, now + d, bound - d)
    decreases |keys|
  {
    if keys != [] {
      RemainingShrinks(m, keys[0], now, d);
      StaysLargest(m, keys[1..], now, d, bound);
    }
  }

  lemma {:induction false} OwnKeys(fold: string -> string, ip: Option<nat>, username: string, u: Key)
    ensures u in Keys(fold, ip, username) <==> Attempt(ip, username).Against(fold, u)
    ensures Distinct(Keys(fold, ip, username))
  {
    var keys := Keys(fold, ip, username);
    if username != "" {
      assert keys[|keys| - 1] == User(fold(username));
    }
  }

  predicate Distinct(keys: seq<Key>) {
    forall i, j :: 0 <= i < j < |keys| ==> keys[i] != keys[j]
  }

  lemma {:induction false} BumpAllEntry(m: Entries, keys: seq<Key>, now: int, k: Key)
    requires Distinct(keys)
    ensures k in keys ==> k in BumpAll(m, keys, now) && BumpAll(m, keys, now)[k] == Bump(m, k, now)[k]
    ensures k !in keys ==> (k in BumpAll(m, keys, now) <==> k in m)
    ensures k !in keys && k in m ==> BumpAll(m, keys, now)[k] == m[k]
    decreases |keys|
  {
    if keys != [] {
      assert forall x :: x in keys <==> x == keys[0] || x in keys[1..];
      BumpAllEntry(Bump(m, keys[0], now), keys[1..], now, k);
      if k == keys[0] {
        assert k !in keys[1..];
      }
    }
  }

  // ---------------------------------------------------------------------------
  // Pruning is invisible
  // ---------------------------------------------------------------------------

  datatype Event =
    | Checked(ip: Option<nat>, username: string, now: int)
    | Failed(ip: Option<nat>, username: string, now: int)
    | Succeeded(ip: Option<nat>, username: string, now: int)

  /** One call on a throttle that prunes by `prune`: as the program does, or never. */
  function Step(fold: string -> string, m: Entries, e: Event, prune: Pruner): Entries {
    var keys := Keys(fold, e.ip, e.username);
    match e
    case Checked(_, _, _) => m
    case Failed(_, _, now) => BumpAll(prune(m, now), keys, now)
    case Succeeded(_, _, _) => Forget(m, keys)
  }

  /** Every answer `check` gives over a run, in order. */
  function Answers(fold: string -> string, m: Entries, events: seq<Event>, prune: Pruner): seq<Option<int>>
    decreases |events|
  {
    if events == [] then []
    else
      var e := events[0];
      (if e.Checked? then [Check(m, Keys(fold, e.ip, e.username), e.now)] else [])
      + Answers(fold, Step(fold, m, e, prune), events[1..], prune)
  }

  ghost predicate NonDecreasing(events: seq<Event>, start: int) {
    && (forall i :: 0 <= i < |events| ==> start <= events[i].now)
    && (forall i, j :: 0 <= i < j < |events| ==> events[i].now <= events[j].now)
  }

  /** The pruned map is the full one with some long-idle keys missing. */
  ghost predicate PrunedOf(pruned: Entries, full: Entries, now: int) {
    && (forall k :: k in pruned ==> k in full && pruned[k] == full[k])
    && (forall k :: k in full && k !in pruned ==> now - full[k].lastSeen >= ENTRY_TTL)
  }

  lemma {:induction false} PenaltyIsCapped(failures: nat)
    ensures 0 <= Penalty(failures) <= MAX_DELAY < ENTRY_TTL
  {
  }

  /** A key idle for the TTL imposes no wait. */
  lemma {:induction false} PrunedRemainingAlike(pruned: Entries, full: Entries, k: Key, now: int, t: int)
    requires PrunedOf(pruned, full, t) && t <= now
    ensures Remaining(pruned, k, now) == Remaining(full, k, now)
  {
    if k in full {
      PenaltyIsCapped(full[k].failures);
    }
  }

  lemma {:induction false} PrunedAnswersAlike(pruned: Entries, full: Entries, keys: seq<Key>, now: int, t: int)
    requires PrunedOf(pruned, full, t) && t <= now
    ensures Check(pruned, keys, now) == Check(full, keys, now)
  {
    if keys != [] {
      PrunedAnswersAlike(pruned, full, keys[1..], now, t);
      PrunedRemainingAlike(pruned, full, keys[0], now, t);
    }
  }

  lemma {:induction false} StepKeepsPruned(fold: string -> string, pruned: Entries, full: Entries, e: Event, t: int)
    requires PrunedOf(pruned, full, t) && t <= e.now
    ensures PrunedOf(Step(fold, pruned, e, Prune), Step(fold, full, e, Never), e.now)
  {
    var keys := Keys(fold, e.ip, e.username);
    var p, f := Step(fold, pruned, e, Prune), Step(fold, full, e, Never);
    if e.Failed? {
      forall k
        ensures k in p ==> k in f && p[k] == f[k]
        ensures k in f && k !in p ==> e.now - f[k].lastSeen >= ENTRY_TTL
      {
        BumpAllEntry(Prune(pruned, e.now), keys, e.now, k);
        BumpAllEntry(full, keys, e.now, k);
      }
    }
  }

  /** Over every run with nondecreasing clock readings, the throttle answers each
      check exactly as one that never prunes its map. */
  lemma {:induction false} PruningIsInvisible(
    fold: string -> string, pruned: Entries, full: Entries, events: seq<Event>, t: int)
    requires PrunedOf(pruned, full, t)
    requires NonDecreasing(events, t)
    ensures Answers(fold, pruned, events, Prune) == Answers(fold, full, events, Never)
    decreases |events|
  {
    if events != [] {
      var e := events[0];
      PrunedAnswersAlike(pruned, full, Keys(fold, e.ip, e.username), e.now, t);
      StepKeepsPruned(fold, pruned, full, e, t);
      PruningIsInvisible(fold, Step(fold, pruned, e, Prune), Step(fold, full, e, Never), events[1..], e.now);
    }
  }

  lemma {:induction false} PruningIsInvisibleFromEmpty(fold: string -> string, events: seq<Event>)
    requires events != [] ==> NonDecreasing(events, events[0].now)
    ensures Answers(fold, map[], events, Prune) == Answers(fold, map[], events, Never)
  {
    if events != [] {
      PruningIsInvisible(fold, map[], map[], events, events[0].now);
    }
  }

  // ---------------------------------------------------------------------------
  // How many guesses overlapping logins can make from one address, or against one
  // username
  // ---------------------------------------------------------------------------

  /** A login that passed its check and has not been recorded yet. */
  datatype Attempt = Attempt(ip: Option<nat>, username: string) {
    /** The login counts against its address, if that is known, and against its
        username, if there is one. */
    predicate Against(fold: string -> string, u: Key) {
      match u
      case Ip(addr) => ip == Some(addr)
      case User(name) => username != "" && fold(username) == name
    }
  }

  /** `Broken`: the request failed, or was dropped, between its check and its record. */
  datatype Outcome = Wrong | Right | Broken

  /** The login handler takes two steps at two moments: a request arrives and is
      checked, and once its password is verified it is recorded. */
  datatype Act =
    | Arrives(id: nat, ip: Option<nat>, username: string, now: int)
    | Finishes(id: nat, outcome: Outcome, now: int)

  /** The throttle's map and the requests between check and record, by number. A
      number is given out again only when its request is done. */
  datatype Server = Server(entries: Entries, open: map<nat, Attempt>)

  function Recorded(fold: string -> string, m: Entries, a: Attempt, outcome: Outcome, now: int, prune: Pruner): Entries {
    match outcome
    case Wrong => Step(fold, m, Failed(a.ip, a.username, now), prune)
    case Right => Step(fold, m, Succeeded(a.ip, a.username, now), prune)
    case Broken => m
  }

  predicate Passes(fold: string -> string, m: Entries, a: Attempt, now: int) {
    Check(m, Keys(fold, a.ip, a.username), now).None?
  }

  function Do(fold: string -> string, s: Server, a: Act, prune: Pruner): Server {
    match a
    case Arrives(id, ip, username, now) =>
      if id in s.open || !Passes(fold, s.entries, Attempt(ip, username), now) then s
      else s.(open := s.open[id := Attempt(ip, username)])
    case Finishes(id, outcome, now) =>
      if id !in s.open then s
      else Server(Recorded(fold, s.entries, s.open[id], outcome, now, prune), s.open - {id})
  }

  /** The first half of the login handler is the step of an arrival. */
  method Arrive(throttle: Throttle, open: map<nat, Attempt>, id: nat, ip: Option<nat>, username: string, now: int)
      returns (more: map<nat, Attempt>)
    requires id !in open
    ensures Server(throttle.entries, more) == Do(throttle.fold, Server(throttle.entries, open), Arrives(id, ip, username, now), Prune)
  {
    var wait := throttle.CheckAt(ip, username, now);
    return if wait.Some? then open else open[id := Attempt(ip, username)];
  }

  /** The second half, unless the request broke off, records how it ended. */
  method Finish(throttle: Throttle, open: map<nat, Attempt>, id: nat, outcome: Outcome, now: int)
      returns (fewer: map<nat, Attempt>)
    requires id in open
    modifies throttle`entries
    ensures Server(throttle.entries, fewer)
         == Do(throttle.fold, Server(old(throttle.entries), open), Finishes(id, outcome, now), Prune)
  {
    match outcome {
      case Wrong => throttle.RecordFailureAt(open[id].ip, open[id].username, now);
      case Right => throttle.RecordSuccess(open[id].ip, open[id].username);
      case Broken =>
    }
    return open - {id};
  }

  /** The step records a failure against `u`. */
  predicate Guesses(fold: string -> string, s: Server, a: Act, u: Key) {
    a.Finishes? && a.outcome.Wrong? && a.id in s.open && s.open[a.id].Against(fold, u)
  }

  /** When the failures recorded against `u` happened, in order. */
  function FailureTimes(fold: string -> string, s: Server, acts: seq<Act>, u: Key, prune: Pruner): seq<int>
    decreases |acts|
  {
    if acts == [] then []
    else
      (if Guesses(fold, s, acts[0], u) then [acts[0].now] else [])
      + FailureTimes(fold, Do(fold, s, acts[0], prune), acts[1..], u, prune)
  }

  predicate InOrder(acts: seq<Act>, start: int)
    decreases |acts|
  {
    acts == [] || (start <= acts[0].now && InOrder(acts[1..], acts[0].now))
  }

  function InFlight(fold: string -> string, s: Server, u: Key): set<nat> {
    set id | id in s.open && s.open[id].Against(fold, u)
  }

  /** Throughout the run no more than `most` logins of `u` are between their check
      and their record, and none of them succeeds. Logins of others overlap freely. */
  ghost predicate Guarded(fold: string -> string, s: Server, acts: seq<Act>, u: Key, most: nat, prune: Pruner)
    decreases |acts|
  {
    && |InFlight(fold, s, u)| <= most
    && (acts != [] ==>
          && !Succeeds(fold, s, acts[0], u)
          && Guarded(fold, Do(fold, s, acts[0], prune), acts[1..], u, most, prune))
  }

  predicate Succeeds(fold: string -> string, s: Server, a: Act, u: Key) {
    a.Finishes? && a.outcome.Right? && a.id in s.open && s.open[a.id].Against(fold, u)
  }

  lemma {:induction false} DoKeepsPruned(fold: string -> string, entries: Entries, s: Server, a: Act, t: int)
    requires PrunedOf(entries, s.entries, t) && t <= a.now
    ensures
      var p, f := Do(fold, s.(entries := entries), a, Prune), Do(fold, s, a, Never);
      PrunedOf(p.entries, f.entries, a.now) && p.open == f.open
  {
    if a.Arrives? {
      PrunedAnswersAlike(entries, s.entries, Keys(fold, a.ip, a.username), a.now, t);
    } else if a.id in s.open && !a.outcome.Broken? {
      var l := s.open[a.id];
      var e := if a.outcome.Right? then Succeeded(l.ip, l.username, a.now) else Failed(l.ip, l.username, a.now);
      StepKeepsPruned(fold, entries, s.entries, e, t);
    }
  }

  /** Pruning changes neither the failures of a run nor which runs are guarded. */
  lemma {:induction false} PruningKeepsFailures(
    fold: string -> string, entries: Entries, s: Server, acts: seq<Act>, u: Key, most: nat, t: int)
    requires PrunedOf(entries, s.entries, t) && InOrder(acts, t)
    ensures
      var p := s.(entries := entries);
      && FailureTimes(fold, p, acts, u, Prune) == FailureTimes(fold, s, acts, u, Never)
      && (Guarded(fold, p, acts, u, most, Prune) <==> Guarded(fold, s, acts, u, most, Never))
    decreases |acts|
  {
    var p := s.(entries := entries);
    assert InFlight(fold, p, u) == InFlight(fold, s, u);
    if acts != [] {
      var a := acts[0];
      DoKeepsPruned(fold, entries, s, a, t);
      var after := Do(fold, s, a, Never);
      var pruned := Do(fold, p, a, Prune);
      assert pruned == after.(entries := pruned.entries);
      PruningKeepsFailures(fold, pruned.entries, after, acts[1..], u, most, a.now);
    }
  }

  /** How far ahead of one guess per five minutes a key with this many failures
      may still run before its backoff reaches the cap. */
  function Credit(failures: nat): int
    decreases 13 - failures
  {
    if failures >= 13 then 0 else MAX_DELAY - Penalty(failures) + Credit(failures + 1)
  }

  /** The length of `n` waits at the cap of five minutes. */
  function FullWaits(n: int): int {
    n * 300_000_000_000
  }

  lemma {:induction false} PenaltySteps()
    ensures Penalty(1) == Penalty(2) == Penalty(3) == 0
    ensures Penalty(4) == SECOND && Penalty(5) == 2 * SECOND && Penalty(6) == 4 * SECOND
    ensures Penalty(7) == 8 * SECOND && Penalty(8) == 16 * SECOND && Penalty(9) == 32 * SECOND
    ensures Penalty(10) == 64 * SECOND && Penalty(11) == 128 * SECOND && Penalty(12) == 256 * SECOND
  {
    assert Pow2(0) == 1;
    assert Pow2(2) == 4;
    assert Pow2(4) == 16;
    assert Pow2(6) == 64;
    assert Pow2(8) == 256;
  }

  lemma {:induction false} Pow2Grows(n: nat)
    requires n >= 9
    ensures Pow2(n) >= 512
    decreases n
  {
    if n == 9 {
      assert Pow2(5) == 32;
      assert Pow2(7) == 128;
    } else {
      Pow2Grows(n - 1);
    }
  }

  lemma {:induction false} PenaltyIsMaximal(failures: nat)
    requires failures >= 13
    ensures Penalty(failures) == MAX_DELAY
  {
    Pow2Grows(Min(failures - FREE_ATTEMPTS - 1, 20));
  }

  /** The whole credit of a fresh key is 3089 seconds, and no entry has more. */
  lemma {:induction false} CreditOfFreshKey()
    ensures Credit(1) == 3089 * SECOND
  {
    PenaltySteps();
    assert Credit(11) == (300 - 128 + 300 - 256) * SECOND;
    assert Credit(9) == (300 - 32 + 300 - 64) * SECOND + Credit(11);
    assert Credit(7) == (300 - 8 + 300 - 16) * SECOND + Credit(9);
    assert Credit(5) == (300 - 2 + 300 - 4) * SECOND + Credit(7);
    assert Credit(3) == (300 + 300 - 1) * SECOND + Credit(5);
  }

  lemma {:induction false} CreditIsBounded(failures: nat)
    requires failures >= 1
    ensures 0 <= Credit(failures) <= Credit(1)
  {
    CreditDecreases(1, failures);
    if failures < 13 {
      CreditDecreases(failures, 13);
    }
  }

  lemma {:induction false} CreditDecreases(a: nat, b: nat)
    requires a <= b
    ensures Credit(b) <= Credit(a) && Credit(a) >= 0
    decreases 13 - a
  {
    if a < 13 {
      PenaltyIsCapped(a);
      if a < b {
        CreditDecreases(a + 1, b);
      } else {
        CreditDecreases(a + 1, a + 1);
      }
    }
  }

  /** The potential argument: between two recorded failures, the time that passed
      and the credit spent add up to five minutes. A reset after an idle hour
      refunds the credit, and the hour itself pays for the refund. */
  lemma {:induction false} OneMoreFailureCosts(e: Entry, now: int)
    requires 1 <= e.failures && e.lastSeen <= now
    requires Penalty(e.failures) <= now - e.lastSeen
    ensures
      var next := if now - e.lastSeen < ENTRY_TTL then Min(e.failures + 1, U32_MAX) else 1;
      MAX_DELAY <= now - e.lastSeen + Credit(e.failures) - Credit(next)
  {
    CreditIsBounded(e.failures);
    CreditOfFreshKey();
    if e.failures >= 13 {
      PenaltyIsMaximal(e.failures);
    }
  }

  ghost predicate Sane(m: Entries, now: int) {
    forall k :: k in m ==> 1 <= m[k].failures && m[k].lastSeen <= now
  }

  /** The entry that one more failure makes of `e`. */
  function Next(e: Entry, now: int): Entry {
    Entry(if now - e.lastSeen < ENTRY_TTL then Min(e.failures + 1, U32_MAX) else 1, now)
  }

  lemma {:induction false} RecordedKeepsSane(fold: string -> string, m: Entries, a: Attempt, outcome: Outcome, now: int, t: int)
    requires Sane(m, t) && t <= now
    ensures Sane(Recorded(fold, m, a, outcome, now, Never), now)
  {
    var r := Recorded(fold, m, a, outcome, now, Never);
    if outcome.Wrong? {
      forall k | k in r
        ensures 1 <= r[k].failures && r[k].lastSeen <= now
      {
        OwnKeys(fold, a.ip, a.username, User(""));
        BumpAllEntry(m, Keys(fold, a.ip, a.username), now, k);
      }
    }
  }

  /** What recording one login does to the entry of `u`. */
  lemma {:induction false} RecordedUser(fold: string -> string, m: Entries, a: Attempt, outcome: Outcome, now: int, u: Key, t: int)
    requires Sane(m, t) && t <= now
    requires outcome.Right? ==> !a.Against(fold, u)
    ensures Moves(m, Recorded(fold, m, a, outcome, now, Never), u, now, outcome.Wrong? && a.Against(fold, u))
  {
    OwnKeys(fold, a.ip, a.username, u);
    if outcome.Wrong? {
      BumpAllEntry(m, Keys(fold, a.ip, a.username), now, u);
    }
  }

  /** A check that passes found no wait left for the username. */
  lemma {:induction false} PassedWait(fold: string -> string, m: Entries, a: Attempt, now: int, u: Key, t: int)
    requires Sane(m, t) && t <= now
    requires Passes(fold, m, a, now) && a.Against(fold, u) && u in m
    ensures Penalty(m[u].failures) <= now - m[u].lastSeen
  {
    OwnKeys(fold, a.ip, a.username, u);
    assert Remaining(m, u, now) == 0;
  }

  /** How far a username is: when its last failure was, less the credit left. */
  function Standing(m: Entries, u: Key): Option<int> {
    if u in m then Some(m[u].lastSeen - Credit(m[u].failures)) else None
  }

  lemma {:induction false} NextIsFurther(e: Entry, now: int)
    requires 1 <= e.failures && e.lastSeen <= now
    ensures e.lastSeen - Credit(e.failures) <= now - Credit(Next(e, now).failures)
  {
    CreditIsBounded(e.failures);
    CreditOfFreshKey();
    CreditDecreases(e.failures, e.failures + 1);
  }

  /** `mark` is where `u` stood when a login was checked: recording that login will
      put it five minutes further at least, and perhaps others have already. */
  predicate Ready(m: Entries, u: Key, now: int, mark: Option<int>) {
    mark.Some? ==>
      && u in m
      && var e, w := m[u], Standing(m, u).value;
        || mark.value + MAX_DELAY <= w
        || (mark.value <= w && Penalty(e.failures) <= now - e.lastSeen)
  }

  lemma {:induction false} RecordGoesFurther(e: Entry, now: int, mark: int)
    requires 1 <= e.failures && e.lastSeen <= now
    requires
      var w := e.lastSeen - Credit(e.failures);
      mark + MAX_DELAY <= w || (mark <= w && Penalty(e.failures) <= now - e.lastSeen)
    ensures mark + MAX_DELAY <= now - Credit(Next(e, now).failures)
  {
    NextIsFurther(e, now);
    if mark + MAX_DELAY > e.lastSeen - Credit(e.failures) {
      OneMoreFailureCosts(e, now);
    }
  }

  /** A closed interval of time. */
  datatype Span = Span(from: int, to: int) {
    predicate Has(t: int) { from <= t <= to }

    /** How many waits of five minutes fit in, with the credit of a fresh key. */
    function Slots(): (n: nat)
      requires from <= to
      ensures FullWaits(n) <= to - from + 3389 * SECOND < FullWaits(n + 1)
    {
      (to - from + 3389 * SECOND) / MAX_DELAY
    }

    /** How many of these lie behind a standing. */
    function Level(standing: Option<int>): (n: nat)
      requires from <= to
      ensures n <= Slots()
    {
      if standing.None? then 0
      else
        var n := (standing.value - from + 3389 * SECOND) / MAX_DELAY;
        if n < 0 then 0 else if n > Slots() then Slots() else n
    }
  }

  lemma {:induction false} LevelGrows(span: Span, a: Option<int>, b: int)
    requires span.from <= span.to && (a.Some? ==> a.value <= b)
    ensures span.Level(a) <= span.Level(Some(b))
  {
  }

  lemma {:induction false} LevelRises(span: Span, now: int, credit: int, mark: Option<int>)
    requires span.Has(now) && 0 <= credit <= 3089 * SECOND
    requires mark.Some? ==> mark.value + MAX_DELAY <= now - credit
    ensures span.Level(mark) < span.Level(Some(now - credit))
  {
  }

  /** The levels at which the logins in flight were checked, added up. */
  function Held(marks: map<nat, Option<int>>, span: Span, ids: nat): nat
    requires span.from <= span.to
  {
    if ids == 0 then 0
    else
      Held(marks, span, ids - 1) + if ids - 1 in marks then span.Level(marks[ids - 1]) else 0
  }

  lemma {:induction false} HeldOneMore(marks: map<nat, Option<int>>, span: Span, ids: nat, id: nat, mark: Option<int>)
    requires span.from <= span.to && id !in marks
    ensures Held(marks[id := mark], span, ids) == Held(marks, span, ids) + if id < ids then span.Level(mark) else 0
  {
    if ids > 0 {
      HeldOneMore(marks, span, ids - 1, id, mark);
    }
  }

  function Times(n: nat, each: nat): nat {
    if n == 0 then 0 else each + Times(n - 1, each)
  }

  lemma {:induction false} TimesIsProduct(n: nat, each: nat)
    ensures Times(n, each) == n * each
  {
    if n > 0 {
      TimesIsProduct(n - 1, each);
      assert n * each == (n - 1) * each + each;
    }
  }

  lemma {:induction false} TimesGrows(n: nat, less: nat, more: nat)
    requires less <= more
    ensures Times(n, less) <= Times(n, more)
  {
    if n > 0 {
      TimesGrows(n - 1, less, more);
    }
  }

  lemma {:induction false} TimesSum(m: nat, n: nat, each: nat)
    ensures Times(m + n, each) == Times(m, each) + Times(n, each)
  {
    if m > 0 {
      TimesSum(m - 1, n, each);
    }
  }

  lemma {:induction false} HeldIsBounded(marks: map<nat, Option<int>>, span: Span, ids: nat)
    requires span.from <= span.to
    ensures Held(marks, span, ids) <= Times(|marks|, span.Slots())
    decreases |marks|
  {
    if marks == map[] {
      HeldNone(marks, span, ids);
    } else {
      var id :| id in marks;
      var fewer := marks - {id};
      assert marks == fewer[id := marks[id]];
      HeldOneMore(fewer, span, ids, id, marks[id]);
      HeldIsBounded(fewer, span, ids);
    }
  }

  lemma {:induction false} HeldNone(marks: map<nat, Option<int>>, span: Span, ids: nat)
    requires span.from <= span.to && marks == map[]
    ensures Held(marks, span, ids) == 0
  {
    if ids > 0 {
      HeldNone(marks, span, ids - 1);
    }
  }

  /** `most` logins at once: those in flight stand where they were checked, the rest
      where the username stands now. No more failures were counted than that. */
  function Room(level: nat, marks: map<nat, Option<int>>, span: Span, most: nat, ids: nat): nat
    requires span.from <= span.to && |marks| <= most
  {
    Times(most - |marks|, level) + Held(marks, span, ids)
  }

  function Capacity(m: Entries, u: Key, marks: map<nat, Option<int>>, span: Span, most: nat, ids: nat): nat
    requires span.from <= span.to && |marks| <= most
  {
    Room(span.Level(Standing(m, u)), marks, span, most, ids)
  }

  ghost predicate Marked(fold: string -> string, s: Server, u: Key, marks: map<nat, Option<int>>, now: int) {
    && marks.Keys == InFlight(fold, s, u)
    && (forall id <- marks :: Ready(s.entries, u, now, marks[id]))
  }

  predicate IdsBelow(acts: seq<Act>, ids: nat) {
    forall a <- acts :: a.id < ids
  }

  function CountWithin(times: seq<int>, span: Span): nat {
    if times == [] then 0
    else (if span.Has(times[0]) then 1 else 0) + CountWithin(times[1..], span)
  }

  lemma {:induction false} CapacityIsBounded(m: Entries, u: Key, marks: map<nat, Option<int>>, span: Span, most: nat, ids: nat)
    requires span.from <= span.to && |marks| <= most
    ensures Capacity(m, u, marks, span, most, ids) <= Times(most, span.Slots())
  {
    TimesGrows(most - |marks|, span.Level(Standing(m, u)), span.Slots());
    HeldIsBounded(marks, span, ids);
    TimesSum(most - |marks|, |marks|, span.Slots());
  }

  /** A login of `u` that passes its check stands where `u` stands. */
  lemma {:induction false} BeginKeepsRoom(marks: map<nat, Option<int>>, span: Span, most: nat, ids: nat, id: nat, mark: Option<int>)
    requires span.from <= span.to && |marks| < most && id !in marks && id < ids
    ensures
      var more := marks[id := mark];
      |more| <= most && Room(span.Level(mark), more, span, most, ids) == Room(span.Level(mark), marks, span, most, ids)
  {
    HeldOneMore(marks, span, ids, id, mark);
  }

  /** A login of `u` leaves: if it recorded a failure within the span there is room
      for one more, and if not there is no less. */
  lemma {:induction false} EndKeepsRoom(
    before: nat, after: nat, marks: map<nat, Option<int>>, fewer: map<nat, Option<int>>,
    span: Span, most: nat, ids: nat, id: nat, counted: bool)
    requires span.from <= span.to && id !in fewer && id in marks && id < ids && before <= after
    requires marks == fewer[id := marks[id]] && |fewer| + 1 == |marks| <= most
    requires if counted then span.Level(marks[id]) < after else span.Level(marks[id]) <= after
    ensures Room(before, marks, span, most, ids) + (if counted then 1 else 0) <= Room(after, fewer, span, most, ids)
  {
    HeldOneMore(fewer, span, ids, id, marks[id]);
    TimesGrows(most - |marks|, before, after);
    assert Times(most - |fewer|, after) == after + Times(most - |marks|, after);
  }

  /** What one step does to the entry of `u`: one failure more, or nothing. */
  predicate Moves(m: Entries, r: Entries, u: Key, now: int, failed: bool) {
    var k := u;
    if failed then k in r && r[k] == if k in m then Next(m[k], now) else Entry(1, now)
    else (k in r <==> k in m) && (k in m ==> r[k] == m[k])
  }

  /** Logins stay ready: what is recorded meanwhile puts `u` further still. */
  lemma {:induction false} StaysReady(m: Entries, r: Entries, u: Key, t: int, now: int, failed: bool, mark: Option<int>)
    requires Sane(m, t) && t <= now && Ready(m, u, t, mark) && Moves(m, r, u, now, failed)
    ensures Ready(r, u, now, mark)
  {
    var k := u;
    if mark.Some? && r[k] != m[k] {
      RecordGoesFurther(m[k], now, mark.value);
    }
  }

  /** Recording a failure puts `u` further, and past where the login was checked. */
  lemma {:induction false} FailurePutsFurther(m: Entries, r: Entries, u: Key, t: int, now: int, mark: Option<int>) returns (credit: int)
    requires Sane(m, t) && t <= now && Ready(m, u, t, mark)
    requires Moves(m, r, u, now, true)
    ensures 0 <= credit <= 3089 * SECOND && Standing(r, u) == Some(now - credit)
    ensures Standing(m, u).Some? ==> Standing(m, u).value <= now - credit
    ensures mark.Some? ==> mark.value + MAX_DELAY <= now - credit
  {
    var k := u;
    credit := Credit(r[k].failures);
    CreditOfFreshKey();
    CreditIsBounded(r[k].failures);
    if k in m {
      NextIsFurther(m[k], now);
      if mark.Some? {
        RecordGoesFurther(m[k], now, mark.value);
      }
    }
  }

  lemma {:induction false} FailureRaisesLevel(m: Entries, r: Entries, u: Key, t: int, now: int, span: Span, mark: Option<int>)
    requires Sane(m, t) && t <= now && Ready(m, u, t, mark) && span.from <= span.to
    requires Moves(m, r, u, now, true)
    ensures span.Level(Standing(m, u)) <= span.Level(Standing(r, u))
    ensures span.Level(mark) <= span.Level(Standing(r, u))
    ensures span.Has(now) ==> span.Level(mark) < span.Level(Standing(r, u))
  {
    var credit := FailurePutsFurther(m, r, u, t, now, mark);
    LevelGrows(span, Standing(m, u), now - credit);
    LevelGrows(span, mark, now - credit);
    if span.Has(now) {
      LevelRises(span, now, credit, mark);
    }
  }

  /** One step of the server keeps room for the failures counted. */
  lemma {:induction false} DoKeepsCapacity(
    fold: string -> string, s: Server, a: Act, u: Key, t: int, marks: map<nat, Option<int>>, span: Span, most: nat, ids: nat)
    returns (after: map<nat, Option<int>>)
    requires Sane(s.entries, t) && t <= a.now && a.id < ids && span.from <= span.to
    requires Marked(fold, s, u, marks, t) && |marks| <= most
    requires !Succeeds(fold, s, a, u)
    requires |InFlight(fold, Do(fold, s, a, Never), u)| <= most
    ensures
      var r := Do(fold, s, a, Never);
      && Sane(r.entries, a.now) && Marked(fold, r, u, after, a.now) && |after| <= most
      && Capacity(s.entries, u, marks, span, most, ids) + (if Guesses(fold, s, a, u) && span.Has(a.now) then 1 else 0)
         <= Capacity(r.entries, u, after, span, most, ids)
  {
    if a.Arrives? {
      after := ArrivalKeepsCapacity(fold, s, a, u, t, marks, span, most, ids);
    } else if a.id in s.open {
      after := FinishKeepsCapacity(fold, s, a, u, t, marks, span, most, ids);
    } else {
      after := marks;
      StillMarked(fold, s, s, u, t, a.now, false, marks, marks);
    }
  }

  lemma {:induction false} StillMarked(
    fold: string -> string, s: Server, r: Server, u: Key, t: int, now: int, failed: bool,
    marks: map<nat, Option<int>>, after: map<nat, Option<int>>)
    requires Sane(s.entries, t) && t <= now && Marked(fold, s, u, marks, t)
    requires after.Keys == InFlight(fold, r, u)
    requires forall id <- after :: id in marks && after[id] == marks[id]
    requires Moves(s.entries, r.entries, u, now, failed)
    ensures Marked(fold, r, u, after, now)
  {
    forall id <- after
      ensures Ready(r.entries, u, now, after[id])
    {
      StaysReady(s.entries, r.entries, u, t, now, failed, marks[id]);
    }
  }

  lemma {:induction false} ArrivalKeepsCapacity(
    fold: string -> string, s: Server, a: Act, u: Key, t: int, marks: map<nat, Option<int>>, span: Span, most: nat, ids: nat)
    returns (after: map<nat, Option<int>>)
    requires a.Arrives? && Sane(s.entries, t) && t <= a.now && a.id < ids && span.from <= span.to
    requires Marked(fold, s, u, marks, t) && |marks| <= most
    requires |InFlight(fold, Do(fold, s, a, Never), u)| <= most
    ensures
      var r := Do(fold, s, a, Never);
      && r.entries == s.entries && Sane(r.entries, a.now) && Marked(fold, r, u, after, a.now) && |after| <= most
      && Capacity(s.entries, u, marks, span, most, ids) == Capacity(r.entries, u, after, span, most, ids)
  {
    var r := Do(fold, s, a, Never);
    StillMarked(fold, s, s, u, t, a.now, false, marks, marks);
    if r.open != s.open && Attempt(a.ip, a.username).Against(fold, u) {
      NewIsReady(fold, s, a, u, t);
      InFlightMore(fold, s, r, a.id, u);
      after := AddedKeepsCapacity(fold, s, r, u, a.now, a.id, marks, span, most, ids);
    } else {
      after := marks;
      assert InFlight(fold, r, u) == InFlight(fold, s, u);
    }
  }

  lemma {:induction false} AddedKeepsCapacity(
    fold: string -> string, s: Server, r: Server, u: Key, now: int, id: nat, marks: map<nat, Option<int>>, span: Span, most: nat, ids: nat)
    returns (after: map<nat, Option<int>>)
    requires Marked(fold, s, u, marks, now) && id !in marks && id < ids && span.from <= span.to
    requires r.entries == s.entries && InFlight(fold, r, u) == InFlight(fold, s, u) + {id} && |InFlight(fold, r, u)| <= most
    requires Ready(s.entries, u, now, Standing(s.entries, u))
    ensures Marked(fold, r, u, after, now) && |after| <= most && |marks| <= most
    ensures Capacity(s.entries, u, marks, span, most, ids) == Capacity(r.entries, u, after, span, most, ids)
  {
    after := marks[id := Standing(s.entries, u)];
    assert after.Keys == marks.Keys + {id};
    assert |after.Keys| == |after| == |marks| + 1;
    BeginKeepsRoom(marks, span, most, ids, id, Standing(s.entries, u));
  }

  lemma {:induction false} NewIsReady(fold: string -> string, s: Server, a: Act, u: Key, t: int)
    requires a.Arrives? && Sane(s.entries, t) && t <= a.now
    requires Passes(fold, s.entries, Attempt(a.ip, a.username), a.now) && Attempt(a.ip, a.username).Against(fold, u)
    ensures Ready(s.entries, u, a.now, Standing(s.entries, u))
  {
    if u in s.entries {
      PassedWait(fold, s.entries, Attempt(a.ip, a.username), a.now, u, t);
    }
  }

  lemma {:induction false} InFlightMore(fold: string -> string, s: Server, r: Server, id: nat, u: Key)
    requires id in r.open && r.open[id].Against(fold, u) && r.open == s.open[id := r.open[id]]
    ensures InFlight(fold, r, u) == InFlight(fold, s, u) + {id}
  {
  }

  lemma {:induction false} FinishKeepsCapacity(
    fold: string -> string, s: Server, a: Act, u: Key, t: int, marks: map<nat, Option<int>>, span: Span, most: nat, ids: nat)
    returns (after: map<nat, Option<int>>)
    requires a.Finishes? && a.id in s.open && Sane(s.entries, t) && t <= a.now && a.id < ids && span.from <= span.to
    requires Marked(fold, s, u, marks, t) && |marks| <= most
    requires !Succeeds(fold, s, a, u)
    ensures
      var r := Do(fold, s, a, Never);
      && Sane(r.entries, a.now) && Marked(fold, r, u, after, a.now) && |after| <= most
      && Capacity(s.entries, u, marks, span, most, ids) + (if Guesses(fold, s, a, u) && span.Has(a.now) then 1 else 0)
         <= Capacity(r.entries, u, after, span, most, ids)
  {
    var r, l := Do(fold, s, a, Never), s.open[a.id];
    RecordedKeepsSane(fold, s.entries, l, a.outcome, a.now, t);
    FinishMoves(fold, s, a, u, t);
    after := LeavingKeepsMarks(fold, s, r, u, t, a.now, a.id, Guesses(fold, s, a, u), marks, span, most, ids);
  }

  lemma {:induction false} LeavingKeepsMarks(
    fold: string -> string, s: Server, r: Server, u: Key, t: int, now: int, id: nat, failed: bool,
    marks: map<nat, Option<int>>, span: Span, most: nat, ids: nat)
    returns (after: map<nat, Option<int>>)
    requires Sane(s.entries, t) && t <= now && id < ids && span.from <= span.to
    requires Marked(fold, s, u, marks, t) && |marks| <= most
    requires r.open == s.open - {id}
    requires Moves(s.entries, r.entries, u, now, failed) && (failed ==> id in marks)
    ensures
      && Marked(fold, r, u, after, now) && |after| <= most
      && Capacity(s.entries, u, marks, span, most, ids) + (if failed && span.Has(now) then 1 else 0)
         <= Capacity(r.entries, u, after, span, most, ids)
  {
    InFlightLess(fold, s, r, id, u);
    if id in marks {
      after := marks - {id};
      Removed(marks, id);
      LeavingKeepsCapacity(s.entries, r.entries, u, t, now, id, failed, marks, after, span, most, ids);
    } else {
      after := marks;
      StandsAlike(s.entries, r.entries, u, now);
    }
    StillMarked(fold, s, r, u, t, now, failed, marks, after);
  }

  lemma {:induction false} StandsAlike(m: Entries, r: Entries, u: Key, now: int)
    requires Moves(m, r, u, now, false)
    ensures Standing(r, u) == Standing(m, u)
  {
  }

  lemma {:induction false} Removed(marks: map<nat, Option<int>>, id: nat)
    requires id in marks
    ensures
      var fewer := marks - {id};
      id !in fewer && marks == fewer[id := marks[id]] && |fewer| + 1 == |marks|
  {
    var fewer := marks - {id};
    assert marks == fewer[id := marks[id]];
  }

  /** What finishing a login does to the entry of `u`. */
  lemma {:induction false} FinishMoves(fold: string -> string, s: Server, a: Act, u: Key, t: int)
    requires a.Finishes? && a.id in s.open && Sane(s.entries, t) && t <= a.now && !Succeeds(fold, s, a, u)
    ensures Moves(s.entries, Do(fold, s, a, Never).entries, u, a.now, Guesses(fold, s, a, u))
  {
    RecordedUser(fold, s.entries, s.open[a.id], a.outcome, a.now, u, t);
  }

  lemma {:induction false} InFlightLess(fold: string -> string, s: Server, r: Server, id: nat, u: Key)
    requires r.open == s.open - {id}
    ensures InFlight(fold, r, u) == InFlight(fold, s, u) - {id}
  {
  }

  lemma {:induction false} LeavingKeepsCapacity(
    m: Entries, r: Entries, u: Key, t: int, now: int, id: nat, failed: bool,
    marks: map<nat, Option<int>>, fewer: map<nat, Option<int>>, span: Span, most: nat, ids: nat)
    requires Sane(m, t) && t <= now && id < ids && span.from <= span.to
    requires id !in fewer && id in marks && marks == fewer[id := marks[id]] && |fewer| + 1 == |marks| <= most
    requires Ready(m, u, t, marks[id]) && Moves(m, r, u, now, failed)
    ensures Capacity(m, u, marks, span, most, ids) + (if failed && span.Has(now) then 1 else 0)
         <= Capacity(r, u, fewer, span, most, ids)
  {
    var before, after := span.Level(Standing(m, u)), span.Level(Standing(r, u));
    MoveRaisesLevel(m, r, u, t, now, failed, span, marks[id]);
    EndKeepsRoom(before, after, marks, fewer, span, most, ids, id, failed && span.Has(now));
  }

  lemma {:induction false} MoveRaisesLevel(m: Entries, r: Entries, u: Key, t: int, now: int, failed: bool, span: Span, mark: Option<int>)
    requires Sane(m, t) && t <= now && Ready(m, u, t, mark) && span.from <= span.to && Moves(m, r, u, now, failed)
    ensures span.Level(Standing(m, u)) <= span.Level(Standing(r, u))
    ensures span.Level(mark) <= span.Level(Standing(r, u))
    ensures failed && span.Has(now) ==> span.Level(mark) < span.Level(Standing(r, u))
  {
    if failed {
      FailureRaisesLevel(m, r, u, t, now, span, mark);
    } else {
      StandsBehind(m, u, t, span, mark);
    }
  }

  lemma {:induction false} StandsBehind(m: Entries, u: Key, now: int, span: Span, mark: Option<int>)
    requires Ready(m, u, now, mark) && span.from <= span.to
    ensures span.Level(mark) <= span.Level(Standing(m, u))
  {
    if mark.Some? {
      LevelGrows(span, mark, Standing(m, u).value);
    }
  }

  lemma {:induction false} FailuresFit(
    fold: string -> string, s: Server, acts: seq<Act>, u: Key, t: int, marks: map<nat, Option<int>>, span: Span, most: nat, ids: nat)
    requires Sane(s.entries, t) && InOrder(acts, t) && IdsBelow(acts, ids) && span.from <= span.to
    requires Marked(fold, s, u, marks, t) && |marks| <= most
    requires Guarded(fold, s, acts, u, most, Never)
    ensures
      CountWithin(FailureTimes(fold, s, acts, u, Never), span) + Capacity(s.entries, u, marks, span, most, ids)
      <= Times(most, span.Slots())
    decreases |acts|
  {
    if acts == [] {
      CapacityIsBounded(s.entries, u, marks, span, most, ids);
    } else {
      var a := acts[0];
      var r := Do(fold, s, a, Never);
      var after := DoKeepsCapacity(fold, s, a, u, t, marks, span, most, ids);
      FailuresFit(fold, r, acts[1..], u, a.now, after, span, most, ids);
      var later := FailureTimes(fold, r, acts[1..], u, Never);
      assert FailureTimes(fold, s, acts, u, Never) == if Guesses(fold, s, a, u) then [a.now] + later else later;
    }
  }

  const Idle := Server(map[], map[])

  lemma {:induction false} FailuresFitFromIdle(fold: string -> string, acts: seq<Act>, u: Key, t: int, span: Span, most: nat)
    requires InOrder(acts, t) && span.from <= span.to && Guarded(fold, Idle, acts, u, most, Never)
    ensures CountWithin(FailureTimes(fold, Idle, acts, u, Never), span) <= Times(most, span.Slots())
  {
    assert InFlight(fold, Idle, u) == {};
    FailuresFit(fold, Idle, acts, u, t, map[], span, most, IdsUsed(acts));
  }

  function IdsUsed(acts: seq<Act>): (ids: nat)
    ensures IdsBelow(acts, ids)
  {
    if acts == [] then 0
    else
      var ids := IdsUsed(acts[1..]);
      assert forall a :: a in acts <==> a == acts[0] || a in acts[1..];
      if acts[0].id < ids then ids else acts[0].id + 1
  }

  /** The throttle's guarantee. Take any run of logins in clock order, checked and
      recorded at moments of their own and overlapping as they may, and a key `u` of
      it, an address or a username: none of its logins succeeds, and at most `most` of
      them are between check and record at once. Whatever the other key of each login
      is and whatever is pruned, the failures recorded against `u` in any closed
      interval number at most `most` times twelve plus one for every five minutes of
      it. TTL resets give nothing back. */
  lemma {:induction false} GuessingIsBounded(fold: string -> string, acts: seq<Act>, u: Key, most: nat, from: int, to: int)
    requires acts != [] ==> InOrder(acts, acts[0].now)
    requires Guarded(fold, Idle, acts, u, most, Prune)
    requires from <= to
    ensures
      var n := CountWithin(FailureTimes(fold, Idle, acts, u, Prune), Span(from, to));
      && n <= most * ((to - from + 3389 * SECOND) / MAX_DELAY)
      && n <= most * (12 + (to - from) / MAX_DELAY)
  {
    var t := if acts == [] then 0 else acts[0].now;
    var span := Span(from, to);
    PruningKeepsFailures(fold, map[], Idle, acts, u, most, t);
    FailuresFitFromIdle(fold, acts, u, t, span, most);
    SlotsAtMost(from, to);
    TimesAtMost(most, span.Slots(), 12 + (to - from) / MAX_DELAY);
  }

  lemma {:induction false} SlotsAtMost(from: int, to: int)
    requires from <= to
    ensures Span(from, to).Slots() == (to - from + 3389 * SECOND) / MAX_DELAY <= 12 + (to - from) / MAX_DELAY
  {
  }

  lemma {:induction false} TimesAtMost(n: nat, each: nat, more: nat)
    requires each <= more
    ensures Times(n, each) == n * each <= n * more
  {
    TimesIsProduct(n, each);
    TimesIsProduct(n, more);
    TimesGrows(n, each, more);
  }

  predicate Ordered(times: seq<int>, from: int)
    decreases |times|
  {
    times == [] || (from <= times[0] && Ordered(times[1..], times[0]))
  }

  lemma {:induction false} FailuresAreInOrder(fold: string -> string, s: Server, acts: seq<Act>, u: Key, t: int)
    requires InOrder(acts, t)
    ensures Ordered(FailureTimes(fold, s, acts, u, Prune), t)
    decreases |acts|
  {
    if acts != [] {
      var later := FailureTimes(fold, Do(fold, s, acts[0], Prune), acts[1..], u, Prune);
      FailuresAreInOrder(fold, Do(fold, s, acts[0], Prune), acts[1..], u, acts[0].now);
      assert FailureTimes(fold, s, acts, u, Prune) == if Guesses(fold, s, acts[0], u) then [acts[0].now] + later else later;
    }
  }

  lemma {:induction false} CountUpTo(times: seq<int>, from: int, j: nat)
    requires Ordered(times, from) && j < |times|
    ensures from <= times[j]
    ensures forall since :: since <= from ==> CountWithin(times, Span(since, times[j])) >= j + 1
    decreases |times|
  {
    if j > 0 {
      CountUpTo(times[1..], times[0], j - 1);
    }
  }

  lemma {:induction false} CountFromTo(times: seq<int>, from: int, i: nat, j: nat)
    requires Ordered(times, from) && i <= j < |times|
    ensures times[i] <= times[j] && CountWithin(times, Span(times[i], times[j])) >= j - i + 1
    decreases |times|
  {
    if i > 0 {
      CountFromTo(times[1..], times[0], i - 1, j - 1);
    } else {
      CountUpTo(times, times[0], j);
    }
  }

  /** With one login at a time, any two failures are as far apart as the full waits
      between them, less the credit of a fresh key; `most` at once fail that often each. */
  lemma {:induction false} GuessesApart(fold: string -> string, acts: seq<Act>, u: Key, most: nat, i: nat, j: nat)
    requires acts != [] ==> InOrder(acts, acts[0].now)
    requires Guarded(fold, Idle, acts, u, most, Prune)
    requires i <= j < |FailureTimes(fold, Idle, acts, u, Prune)|
    ensures
      var times := FailureTimes(fold, Idle, acts, u, Prune);
      && times[i] <= times[j]
      && j - i + 1 <= most * Span(times[i], times[j]).Slots()
      && (most == 1 ==> FullWaits(j - i + 1) <= times[j] - times[i] + 3389 * SECOND)
  {
    var times := FailureTimes(fold, Idle, acts, u, Prune);
    var t := if acts == [] then 0 else acts[0].now;
    FailuresAreInOrder(fold, Idle, acts, u, t);
    CountFromTo(times, t, i, j);
    BoundBetween(fold, acts, u, most, i, j);
    OneAtATime(j - i + 1, most, times[i], times[j]);
  }

  lemma {:induction false} BoundBetween(fold: string -> string, acts: seq<Act>, u: Key, most: nat, i: nat, j: nat)
    requires acts != [] ==> InOrder(acts, acts[0].now)
    requires Guarded(fold, Idle, acts, u, most, Prune)
    requires i <= j < |FailureTimes(fold, Idle, acts, u, Prune)|
    requires
      var times := FailureTimes(fold, Idle, acts, u, Prune);
      times[i] <= times[j] && CountWithin(times, Span(times[i], times[j])) >= j - i + 1
    ensures
      var times := FailureTimes(fold, Idle, acts, u, Prune);
      j - i + 1 <= most * Span(times[i], times[j]).Slots()
  {
    var times := FailureTimes(fold, Idle, acts, u, Prune);
    GuessingIsBounded(fold, acts, u, most, times[i], times[j]);
  }

  lemma {:induction false} OneAtATime(n: nat, most: nat, from: int, to: int)
    requires from <= to && n <= most * Span(from, to).Slots()
    ensures most == 1 ==> FullWaits(n) <= to - from + 3389 * SECOND
  {
  }

  // ---------------------------------------------------------------------------
  // The bound is attained, and every login in flight counts
  // ---------------------------------------------------------------------------

  /** The failures against `u` within a span of time. */
  function Tally(fold: string -> string, s: Server, acts: seq<Act>, u: Key, span: Span, prune: Pruner): nat {
    CountWithin(FailureTimes(fold, s, acts, u, prune), span)
  }

  lemma {:induction false} StepAhead(fold: string -> string, s: Server, a: Act, rest: seq<Act>, u: Key, most: nat, span: Span, prune: Pruner)
    ensures
      var r := Do(fold, s, a, prune);
      && Tally(fold, s, [a] + rest, u, span, prune) == (if Guesses(fold, s, a, u) && span.Has(a.now) then 1 else 0) + Tally(fold, r, rest, u, span, prune)
      && (Guarded(fold, s, [a] + rest, u, most, prune)
          <==> |InFlight(fold, s, u)| <= most && !Succeeds(fold, s, a, u) && Guarded(fold, r, rest, u, most, prune))
  {
    var later := FailureTimes(fold, Do(fold, s, a, prune), rest, u, prune);
    assert ([a] + rest)[1..] == rest;
    assert FailureTimes(fold, s, [a] + rest, u, prune) == if Guesses(fold, s, a, u) then [a.now] + later else later;
  }

  ghost predicate OnlyUser(m: Entries, u: Key) {
    forall k <- m :: k == u
  }

  /** Pruning leaves a map alone in which there is nothing but `u`. */
  ghost predicate KeepsOnly(prune: Pruner, u: Key) {
    forall m, now :: OnlyUser(m, u) ==> prune(m, now) == m
  }

  lemma {:induction false} PruneKeepsOnly(u: Key)
    ensures KeepsOnly(Prune, u)
  {
    forall m, now | OnlyUser(m, u)
      ensures Prune(m, now) == m
    {
      assert m.Keys <= {u};
      Fewer(m.Keys, {u});
    }
  }

  lemma {:induction false} Fewer<T>(a: set<T>, b: set<T>)
    requires a <= b
    ensures |a| <= |b|
  {
    assert b == a + (b - a);
  }

  /** The guesses of an attacker that waits exactly as long as it is told. */
  ghost predicate Greedy(times: seq<int>) {
    && (times != [] ==> times[0] == 0)
    && (forall i, j :: 0 <= i < |times| && 0 <= j < |times| && j == i + 1 ==> times[j] == times[i] + Penalty(j))
  }

  /** One after the other from the `i`-th on, each checked and failed in an instant. */
  function GuessesAt(name: string, times: seq<int>, i: nat): seq<Act>
    requires i <= |times|
    decreases |times| - i
  {
    if i == |times| then []
    else [Arrives(0, None, name, times[i])] + ([Finishes(0, Wrong, times[i])] + GuessesAt(name, times, i + 1))
  }

  /** A server that holds one entry at most, that of `u`, with `n` failures. */
  function Alone(u: Key, n: nat, lastSeen: int): Server
    requires n <= U32_MAX
  {
    Server(if n == 0 then map[] else map[u := Entry(n, lastSeen)], map[])
  }

  lemma {:induction false} OneKey(m: Entries, k: Key, now: int)
    ensures Check(m, [k], now).None? <==> Remaining(m, k, now) == 0
    ensures BumpAll(m, [k], now) == Bump(m, k, now)
  {
    assert [k][1..] == [];
    assert k in [k];
  }

  lemma {:induction false} OneGuess(fold: string -> string, name: string, n: nat, last: int, now: int, prune: Pruner) returns (checked: Server)
    requires KeepsOnly(prune, User(fold(name))) && name != "" && n < U32_MAX && (n > 0 ==> now == last + Penalty(n))
    ensures
      var u := User(fold(name));
      var s, arrives, fails := Alone(u, n, last), Arrives(0, None, name, now), Finishes(0, Wrong, now);
      && checked == Do(fold, s, arrives, prune)
      && Guesses(fold, checked, fails, u)
      && Do(fold, checked, fails, prune) == Alone(u, n + 1, now)
      && |InFlight(fold, s, u)| == 0 && |InFlight(fold, checked, u)| == 1
  {
    var u := User(fold(name));
    var s, l := Alone(u, n, last), Attempt(None, name);
    assert Keys(fold, None, name) == [u];
    OneKey(s.entries, u, now);
    AloneFails(fold, name, n, last, now, prune);
    checked := s.(open := map[0 := l]);
    assert checked.open - {0} == map[];
    assert InFlight(fold, checked, u) == {0};
  }

  lemma {:induction false} AloneFails(fold: string -> string, name: string, n: nat, last: int, now: int, prune: Pruner)
    requires KeepsOnly(prune, User(fold(name))) && name != "" && n < U32_MAX && (n > 0 ==> now == last + Penalty(n))
    ensures Recorded(fold, Alone(User(fold(name)), n, last).entries, Attempt(None, name), Wrong, now, prune) == Alone(User(fold(name)), n + 1, now).entries
  {
    var m, k := Alone(User(fold(name)), n, last).entries, User(fold(name));
    PenaltyIsCapped(n);
    assert Keys(fold, None, name) == [k];
    assert n > 0 ==> m.Keys == {k};
    OneKey(m, k, now);
    assert OnlyUser(m, User(fold(name)));
  }

  /** They all pass, they all count, and one at a time is in flight. */
  lemma {:induction false} GreedyGuessesCount(fold: string -> string, name: string, times: seq<int>, i: nat, span: Span, prune: Pruner)
    requires KeepsOnly(prune, User(fold(name))) && name != "" && i <= |times| <= U32_MAX && Greedy(times)
    requires forall t <- times :: span.Has(t)
    ensures
      var s, acts, u := Alone(User(fold(name)), i, if i == 0 then 0 else times[i - 1]), GuessesAt(name, times, i), User(fold(name));
      Tally(fold, s, acts, u, span, prune) == |times| - i && Guarded(fold, s, acts, u, 1, prune)
    decreases |times| - i
  {
    var last := if i == 0 then 0 else times[i - 1];
    var u := User(fold(name));
    var s := Alone(u, i, last);
    if i < |times| {
      var now, rest := times[i], GuessesAt(name, times, i + 1);
      assert i > 0 ==> now == last + Penalty(i);
      var checked := OneGuess(fold, name, i, last, now, prune);
      GreedyGuessesCount(fold, name, times, i + 1, span, prune);
      StepAhead(fold, checked, Finishes(0, Wrong, now), rest, u, 1, span, prune);
      StepAhead(fold, s, Arrives(0, None, name, now), [Finishes(0, Wrong, now)] + rest, u, 1, span, prune);
    } else {
      assert InFlight(fold, s, u) == {};
    }
  }

  lemma {:induction false} GreedyTimesGrow(times: seq<int>, i: nat, j: nat)
    requires Greedy(times) && i <= j < |times|
    ensures 0 <= times[i] <= times[j]
    decreases j
  {
    if j > 0 {
      PenaltyIsCapped(j);
      GreedyTimesGrow(times, if i < j then i else j - 1, j - 1);
    }
  }

  lemma {:induction false} GuessesInOrder(name: string, times: seq<int>, i: nat, now: int)
    requires Greedy(times) && i <= |times| && (i < |times| ==> now <= times[i])
    ensures InOrder(GuessesAt(name, times, i), now)
    decreases |times| - i
  {
    if i < |times| {
      var acts, rest := GuessesAt(name, times, i), GuessesAt(name, times, i + 1);
      if i + 1 < |times| {
        GreedyTimesGrow(times, i, i + 1);
      }
      GuessesInOrder(name, times, i + 1, times[i]);
      assert acts[1..] == [Finishes(0, Wrong, times[i])] + rest;
      assert acts[1..][1..] == rest;
    }
  }

  lemma {:induction false} GreedyTimeIsLate(times: seq<int>, n: nat)
    requires Greedy(times) && 13 <= n <= |times|
    ensures times[n - 1] == FullWaits(n) - 3389 * SECOND
    decreases n
  {
    if n == 13 {
      PenaltySteps();
      assert times[3] == 0;
      assert times[6] == 7 * SECOND;
      assert times[9] == 63 * SECOND;
    } else {
      PenaltyIsMaximal(n - 1);
      GreedyTimeIsLate(times, n - 1);
    }
  }

  function GreedyTimes(n: nat): (times: seq<int>)
    ensures |times| == n && Greedy(times)
  {
    if n == 0 then []
    else if n == 1 then [0]
    else GreedyTimes(n - 1) + [GreedyTimes(n - 1)[n - 2] + Penalty(n - 1)]
  }

  /** No smaller constant would do: for every `n` from 13 on, the attacker that
      waits exactly as long as it is told, one login at a time, meets the bound with
      equality. */
  lemma {:induction false} BoundIsAttained(fold: string -> string, name: string, n: nat)
    requires name != "" && 13 <= n <= U32_MAX
    ensures
      var times := GreedyTimes(n);
      var acts, u, span := GuessesAt(name, times, 0), User(fold(name)), Span(0, times[n - 1]);
      && InOrder(acts, 0) && Guarded(fold, Idle, acts, u, 1, Prune)
      && 0 <= times[n - 1] && Tally(fold, Idle, acts, u, span, Prune) == n == span.Slots()
  {
    var times := GreedyTimes(n);
    var span := Span(0, times[n - 1]);
    forall i | 0 <= i < n
      ensures span.Has(times[i])
    {
      GreedyTimesGrow(times, i, n - 1);
    }
    PruneKeepsOnly(User(fold(name)));
    GreedyGuessesCount(fold, name, times, 0, span, Prune);
    GuessesInOrder(name, times, 0, 0);
    GreedyTimeIsLate(times, n);
  }

  /** Logins of one name, numbered from `first` up to `end`, all in flight at once. */
  function Crowd(name: string, first: nat, end: nat): (open: map<nat, Attempt>)
    requires first <= end
    ensures forall id :: id in open <==> first <= id < end
    ensures forall id <- open :: open[id] == Attempt(None, name)
    decreases end - first
  {
    if first == end then map[] else Crowd(name, first + 1, end)[first := Attempt(None, name)]
  }

  /** They arrive, and then `rest` happens. */
  function Arrivals(name: string, first: nat, end: nat, now: int, rest: seq<Act>): seq<Act>
    requires first <= end
    decreases end - first
  {
    if first == end then rest else [Arrives(first, None, name, now)] + Arrivals(name, first + 1, end, now, rest)
  }

  /** They fail, and then `rest` happens. */
  function Failures(first: nat, end: nat, now: int, rest: seq<Act>): seq<Act>
    requires first <= end
    decreases end - first
  {
    if first == end then rest else [Finishes(first, Wrong, now)] + Failures(first + 1, end, now, rest)
  }

  /** Every five minutes a crowd arrives, passes its checks, and fails. */
  function Rounds(name: string, crowd: nat, rounds: nat, now: int): seq<Act>
    decreases rounds
  {
    if rounds == 0 then []
    else
      Arrivals(name, 0, crowd, now, Failures(0, crowd, now, Rounds(name, crowd, rounds - 1, now + MAX_DELAY)))
  }

  /** Nothing but `u` is in the map, and it is not blocked. */
  ghost predicate Calm(m: Entries, u: Key, now: int) {
    OnlyUser(m, u) && (u in m ==> m[u].lastSeen + MAX_DELAY <= now)
  }

  /** Nothing but `u` is in the map, and its last failure was just now. */
  ghost predicate Stirred(m: Entries, u: Key, now: int) {
    OnlyUser(m, u) && (u in m ==> m[u].lastSeen == now)
  }

  lemma {:induction false} CrowdSize(fold: string -> string, m: Entries, name: string, first: nat, end: nat)
    requires first <= end
    ensures |InFlight(fold, Server(m, Crowd(name, first, end)), User(fold(name)))| <= end - first
    decreases end - first
  {
    var all := InFlight(fold, Server(m, Crowd(name, first, end)), User(fold(name)));
    if first < end {
      CrowdSize(fold, m, name, first + 1, end);
      var fewer := InFlight(fold, Server(m, Crowd(name, first + 1, end)), User(fold(name)));
      assert all <= fewer + {first};
      Fewer(all, fewer + {first});
    } else {
      assert all == {};
    }
  }

  lemma {:induction false} ArrivalsPass(fold: string -> string, m: Entries, name: string, i: nat, crowd: nat, now: int, rest: seq<Act>, span: Span, prune: Pruner)
    requires name != "" && i <= crowd && Calm(m, User(fold(name)), now)
    ensures
      var u, s, r := User(fold(name)), Server(m, Crowd(name, 0, i)), Server(m, Crowd(name, 0, crowd));
      var acts := Arrivals(name, i, crowd, now, rest);
      && Tally(fold, s, acts, u, span, prune) == Tally(fold, r, rest, u, span, prune)
      && (Guarded(fold, r, rest, u, crowd, prune) ==> Guarded(fold, s, acts, u, crowd, prune))
    decreases crowd - i
  {
    if i < crowd {
      var s, arrives := Server(m, Crowd(name, 0, i)), Arrives(i, None, name, now);
      CrowdSize(fold, m, name, 0, i);
      CalmPasses(fold, m, name, now);
      assert Do(fold, s, arrives, prune) == Server(m, Crowd(name, 0, i + 1));
      ArrivalsPass(fold, m, name, i + 1, crowd, now, rest, span, prune);
      StepAhead(fold, s, arrives, Arrivals(name, i + 1, crowd, now, rest), User(fold(name)), crowd, span, prune);
    }
  }

  lemma {:induction false} CalmPasses(fold: string -> string, m: Entries, name: string, now: int)
    requires name != "" && Calm(m, User(fold(name)), now)
    ensures Passes(fold, m, Attempt(None, name), now)
  {
    assert Keys(fold, None, name) == [User(fold(name))];
    OneKey(m, User(fold(name)), now);
    if User(fold(name)) in m {
      PenaltyIsCapped(m[User(fold(name))].failures);
    }
  }

  lemma {:induction false} BumpedAlone(m: Entries, u: Key, now: int, n: nat)
    requires OnlyUser(m, u)
    ensures var r := Bumped(m, u, now, n); OnlyUser(r, u) && (n > 0 ==> Stirred(r, u, now))
  {
    if n > 0 {
      BumpedAlone(m, u, now, n - 1);
    }
  }

  lemma {:induction false} OneFails(fold: string -> string, m: Entries, name: string, i: nat, crowd: nat, now: int, prune: Pruner)
    requires KeepsOnly(prune, User(fold(name))) && name != "" && i < crowd && OnlyUser(m, User(fold(name)))
    ensures
      var u, s, fails := User(fold(name)), Server(m, Crowd(name, i, crowd)), Finishes(i, Wrong, now);
      && Guesses(fold, s, fails, u) && |InFlight(fold, s, u)| <= crowd
      && Do(fold, s, fails, prune) == Server(Bump(m, u, now), Crowd(name, i + 1, crowd))
  {
    var k := User(fold(name));
    assert Keys(fold, None, name) == [k];
    OneKey(m, k, now);
    CrowdSize(fold, m, name, i, crowd);
  }

  lemma {:induction false} OneFailsCounts(fold: string -> string, m: Entries, name: string, i: nat, crowd: nat, now: int, rest: seq<Act>, span: Span, prune: Pruner)
    requires KeepsOnly(prune, User(fold(name))) && name != "" && i < crowd && span.Has(now) && OnlyUser(m, User(fold(name)))
    ensures
      var u := User(fold(name));
      Tally(fold, CrowdState(m, u, name, crowd, now, i), CrowdRest(crowd, now, rest, i), u, span, prune)
      == 1 + Tally(fold, CrowdState(m, u, name, crowd, now, i + 1), CrowdRest(crowd, now, rest, i + 1), u, span, prune)
  {
    OneFailsAhead(fold, m, name, i, crowd, now, rest, span, prune);
  }

  lemma {:induction false} OneFailsGuarded(fold: string -> string, m: Entries, name: string, i: nat, crowd: nat, now: int, rest: seq<Act>, span: Span, prune: Pruner)
    requires KeepsOnly(prune, User(fold(name))) && name != "" && i < crowd && span.Has(now) && OnlyUser(m, User(fold(name)))
    requires Guarded(fold, CrowdState(m, User(fold(name)), name, crowd, now, i + 1), CrowdRest(crowd, now, rest, i + 1), User(fold(name)), crowd, prune)
    ensures Guarded(fold, CrowdState(m, User(fold(name)), name, crowd, now, i), CrowdRest(crowd, now, rest, i), User(fold(name)), crowd, prune)
  {
    OneFailsAhead(fold, m, name, i, crowd, now, rest, span, prune);
  }

  lemma {:induction false} OneFailsAhead(fold: string -> string, m: Entries, name: string, i: nat, crowd: nat, now: int, rest: seq<Act>, span: Span, prune: Pruner)
    requires KeepsOnly(prune, User(fold(name))) && name != "" && i < crowd && span.Has(now) && OnlyUser(m, User(fold(name)))
    ensures
      var u := User(fold(name));
      var s, r := CrowdState(m, u, name, crowd, now, i), CrowdState(m, u, name, crowd, now, i + 1);
      var acts, later := CrowdRest(crowd, now, rest, i), CrowdRest(crowd, now, rest, i + 1);
      && Tally(fold, s, acts, u, span, prune) == 1 + Tally(fold, r, later, u, span, prune)
      && (Guarded(fold, r, later, u, crowd, prune) ==> Guarded(fold, s, acts, u, crowd, prune))
  {
    var before := Bumped(m, User(fold(name)), now, i);
    BumpedAlone(m, User(fold(name)), now, i);
    OneFails(fold, before, name, i, crowd, now, prune);
    StepAhead(fold, Server(before, Crowd(name, i, crowd)), Finishes(i, Wrong, now), Failures(i + 1, crowd, now, rest), User(fold(name)), crowd, span, prune);
  }

  /** The entries once `n` of them have failed. */
  function Bumped(m: Entries, k: Key, now: int, n: nat): Entries {
    if n == 0 then m else Bump(Bumped(m, k, now, n - 1), k, now)
  }

  /** Once the first `j` of the crowd have failed. */
  function CrowdState(m: Entries, u: Key, name: string, crowd: nat, now: int, j: nat): Server {
    Server(Bumped(m, u, now, j), if j <= crowd then Crowd(name, j, crowd) else map[])
  }

  function CrowdRest(crowd: nat, now: int, rest: seq<Act>, j: nat): seq<Act> {
    if j <= crowd then Failures(j, crowd, now, rest) else []
  }

  lemma {:induction false} CrowdFails(fold: string -> string, m: Entries, name: string, i: nat, crowd: nat, now: int, rest: seq<Act>, span: Span, prune: Pruner)
    requires KeepsOnly(prune, User(fold(name))) && name != "" && i <= crowd && span.Has(now) && OnlyUser(m, User(fold(name)))
    ensures
      var u := User(fold(name));
      var s, r := CrowdState(m, u, name, crowd, now, i), CrowdState(m, u, name, crowd, now, crowd);
      Tally(fold, s, CrowdRest(crowd, now, rest, i), u, span, prune)
      == crowd - i + Tally(fold, r, CrowdRest(crowd, now, rest, crowd), u, span, prune)
    decreases crowd - i
  {
    if i < crowd {
      CrowdFails(fold, m, name, i + 1, crowd, now, rest, span, prune);
      OneFailsCounts(fold, m, name, i, crowd, now, rest, span, prune);
    }
  }

  lemma {:induction false} CrowdIsGuarded(fold: string -> string, m: Entries, name: string, i: nat, crowd: nat, now: int, rest: seq<Act>, span: Span, prune: Pruner)
    requires KeepsOnly(prune, User(fold(name))) && name != "" && i <= crowd && span.Has(now) && OnlyUser(m, User(fold(name)))
    requires Guarded(fold, CrowdState(m, User(fold(name)), name, crowd, now, crowd), CrowdRest(crowd, now, rest, crowd), User(fold(name)), crowd, prune)
    ensures Guarded(fold, CrowdState(m, User(fold(name)), name, crowd, now, i), CrowdRest(crowd, now, rest, i), User(fold(name)), crowd, prune)
    decreases crowd - i
  {
    if i < crowd {
      CrowdIsGuarded(fold, m, name, i + 1, crowd, now, rest, span, prune);
      OneFailsGuarded(fold, m, name, i, crowd, now, rest, span, prune);
    }
  }

  lemma {:induction false} CrowdEnds(m: Entries, u: Key, name: string, crowd: nat, now: int, rest: seq<Act>)
    ensures CrowdState(m, u, name, crowd, now, 0) == Server(m, Crowd(name, 0, crowd))
    ensures CrowdState(m, u, name, crowd, now, crowd) == Server(Bumped(m, u, now, crowd), map[])
    ensures CrowdRest(crowd, now, rest, 0) == Failures(0, crowd, now, rest) && CrowdRest(crowd, now, rest, crowd) == rest
  {
    assert Crowd(name, crowd, crowd) == map[];
  }

  /** A crowd arrives and fails, all of it counts, and five minutes later it may again. */
  lemma {:induction false} OneRound(fold: string -> string, m: Entries, name: string, crowd: nat, now: int, rest: seq<Act>, span: Span, prune: Pruner)
    returns (after: Entries)
    requires KeepsOnly(prune, User(fold(name))) && name != "" && span.Has(now) && Calm(m, User(fold(name)), now)
    ensures Calm(after, User(fold(name)), now + MAX_DELAY)
    ensures
      var u, s, r := User(fold(name)), Server(m, map[]), Server(after, map[]);
      var acts := Arrivals(name, 0, crowd, now, Failures(0, crowd, now, rest));
      && Tally(fold, s, acts, u, span, prune) == crowd + Tally(fold, r, rest, u, span, prune)
      && (Guarded(fold, r, rest, u, crowd, prune) ==> Guarded(fold, s, acts, u, crowd, prune))
  {
    var u := User(fold(name));
    after := Bumped(m, u, now, crowd);
    BumpedAlone(m, u, now, crowd);
    CrowdEnds(m, u, name, crowd, now, rest);
    CrowdFails(fold, m, name, 0, crowd, now, rest, span, prune);
    if Guarded(fold, Server(after, map[]), rest, u, crowd, prune) {
      CrowdIsGuarded(fold, m, name, 0, crowd, now, rest, span, prune);
    }
    assert Crowd(name, 0, 0) == map[];
    ArrivalsPass(fold, m, name, 0, crowd, now, Failures(0, crowd, now, rest), span, prune);
  }

  lemma {:induction false} RoundsCount(fold: string -> string, m: Entries, name: string, crowd: nat, rounds: nat, now: int, span: Span, prune: Pruner)
    requires KeepsOnly(prune, User(fold(name))) && name != "" && Calm(m, User(fold(name)), now)
    requires span.from <= now && now + FullWaits(rounds - 1) <= span.to
    ensures
      var u, s, acts := User(fold(name)), Server(m, map[]), Rounds(name, crowd, rounds, now);
      && Tally(fold, s, acts, u, span, prune) == Times(rounds, crowd)
      && Guarded(fold, s, acts, u, crowd, prune)
    decreases rounds
  {
    if rounds > 0 {
      var after := OneRound(fold, m, name, crowd, now, Rounds(name, crowd, rounds - 1, now + MAX_DELAY), span, prune);
      RoundsCount(fold, after, name, crowd, rounds - 1, now + MAX_DELAY, span, prune);
    } else {
      assert InFlight(fold, Server(m, map[]), User(fold(name))) == {};
    }
  }

  lemma {:induction false} FailuresInOrder(i: nat, crowd: nat, now: int, rest: seq<Act>)
    requires i <= crowd && InOrder(rest, now)
    ensures InOrder(Failures(i, crowd, now, rest), now)
    decreases crowd - i
  {
    if i < crowd {
      FailuresInOrder(i + 1, crowd, now, rest);
    }
  }

  lemma {:induction false} ArrivalsInOrder(name: string, i: nat, crowd: nat, now: int, rest: seq<Act>)
    requires i <= crowd && InOrder(rest, now)
    ensures InOrder(Arrivals(name, i, crowd, now, rest), now)
    decreases crowd - i
  {
    if i < crowd {
      ArrivalsInOrder(name, i + 1, crowd, now, rest);
    }
  }

  lemma {:induction false} RoundsInOrder(name: string, crowd: nat, rounds: nat, now: int, from: int)
    requires from <= now
    ensures InOrder(Rounds(name, crowd, rounds, now), from)
    decreases rounds
  {
    if rounds > 0 {
      var later := Rounds(name, crowd, rounds - 1, now + MAX_DELAY);
      RoundsInOrder(name, crowd, rounds - 1, now + MAX_DELAY, now);
      FailuresInOrder(0, crowd, now, later);
      ArrivalsInOrder(name, 0, crowd, now, Failures(0, crowd, now, later));
    }
  }

  /** The factor is real: logins that overlap are all checked before any of them is
      recorded, so `crowd` of them at once make `crowd` guesses every five minutes,
      for as long as they like. */
  lemma {:induction false} EveryLoginInFlightCounts(fold: string -> string, name: string, crowd: nat, rounds: nat)
    requires name != "" && rounds >= 1
    ensures
      var acts, u := Rounds(name, crowd, rounds, 0), User(fold(name));
      && InOrder(acts, 0) && Guarded(fold, Idle, acts, u, crowd, Prune)
      && Tally(fold, Idle, acts, u, Span(0, FullWaits(rounds - 1)), Prune) == crowd * rounds
  {
    RoundsInOrder(name, crowd, rounds, 0, 0);
    PruneKeepsOnly(User(fold(name)));
    RoundsCount(fold, map[], name, crowd, rounds, 0, Span(0, FullWaits(rounds - 1)), Prune);
    TimesIsProduct(rounds, crowd);
  }

  /** Two logins at once already break the bound for one at a time, from the twelfth
      round on; and without a limit on how many overlap there is no bound at all, not
      even for a single instant. */
  lemma {:induction false} OverlappingAttemptsBreakTheBound(fold: string -> string, name: string, crowd: nat, rounds: nat)
    requires name != "" && rounds >= 1
    ensures
      var n := Tally(fold, Idle, Rounds(name, crowd, rounds, 0), User(fold(name)), Span(0, FullWaits(rounds - 1)), Prune);
      && (crowd >= 2 && rounds >= 12 ==> n > 12 + FullWaits(rounds - 1) / MAX_DELAY)
      && (rounds == 1 ==> n == crowd)
  {
    EveryLoginInFlightCounts(fold, name, crowd, rounds);
    if crowd >= 2 {
      TimesIsProduct(rounds, crowd);
      TimesIsProduct(rounds, 2);
      TimesGrows(rounds, 2, crowd);
    }
  }
}
