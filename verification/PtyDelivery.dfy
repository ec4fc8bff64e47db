/** How a local shell's output and exit reach their receiver.

    A reader thread forwards chunks from the pseudo-terminal, a reaper thread
    waits for the child and announces its exit, and both send into one bounded
    channel under a shared gate. The two threads and the receiver take steps in
    any order; each step below is one atomic action of the program. */
module PtyDelivery {
  import opened Wrappers

  const CHANNEL_CAPACITY := 64

  datatype Chunk = Chunk(bytes: seq<int>)

  datatype Event = Data(chunk: Chunk) | Exit(status: Option<int>)

  /** Where the reader thread is: in a blocking read, waiting for the gate with a
      chunk in hand, holding the gate while it sends, or past its loop. */
  datatype Reader = Reading | WantsGate(chunk: Chunk) | Sending(chunk: Chunk) | Leaving | Finished

  /** Where the reaper thread is: polling the child, waiting a bounded time for
      the reader, waiting for the gate, holding it while it sends, or gone, its send having
      succeeded or found the receiver dropped. */
  datatype Reaper = Polling | Draining(status: Option<int>) | Closing(status: Option<int>)
                  | Announcing(status: Option<int>) | Gone(status: Option<int>, accepted: bool)

  datatype State = State(
    reader: Reader,
    reaper: Reaper,
    closed: bool,           // delivery_closed
    done: bool,             // reader_done
    queue: seq<Event>,      // in the channel, not yet received
    alive: bool,            // the receiver has not been dropped
    read: seq<Chunk>,       // every chunk the reader ever got
    sent: seq<Event>,       // every event the channel ever accepted
    received: seq<Event>)   // every event the receiver ever got

  const Start := State(Reading, Polling, false, false, [], true, [], [], [])

  datatype Step =
    | ReadChunk(chunk: Chunk) | ReadEnds
    | ReaderLocks | ReaderSends | ReaderFinishes
    | ChildExits(status: Option<int>) | DrainEnds(timedOut: bool)
    | ReaperLocks | ReaperSends
    | Receive | Drop

  predicate GateFree(s: State) {
    !s.reader.Sending? && !s.reaper.Announcing?
  }

  /** A blocking send returns once there is room, or at once with an error when
      the receiver is gone. */
  predicate SendReturns(s: State) {
    !s.alive || |s.queue| < CHANNEL_CAPACITY
  }

  predicate Enabled(s: State, step: Step) {
    match step
    case ReadChunk(_) => s.reader.Reading?
    case ReadEnds => s.reader.Reading?
    case ReaderLocks => s.reader.WantsGate? && GateFree(s)
    case ReaderSends => s.reader.Sending? && SendReturns(s)
    case ReaderFinishes => s.reader.Leaving?
    case ChildExits(_) => s.reaper.Polling?
    case DrainEnds(timedOut) => s.reaper.Draining? && (timedOut || s.done)
    case ReaperLocks => s.reaper.Closing? && GateFree(s)
    case ReaperSends => s.reaper.Announcing? && SendReturns(s)
    case Receive => s.alive && s.queue != []
    case Drop => s.alive
  }

  function Accept(s: State, e: Event): State {
    if s.alive then s.(queue := s.queue + [e], sent := s.sent + [e]) else s
  }

  function Do(s: State, step: Step): State
    requires Enabled(s, step)
  {
    match step
    case ReadChunk(c) => s.(reader := WantsGate(c), read := s.read + [c])
    case ReadEnds => s.(reader := Leaving)
    case ReaderLocks => s.(reader := if s.closed then Leaving else Sending(s.reader.chunk))
    case ReaderSends => Accept(s, Data(s.reader.chunk)).(reader := if s.alive then Reading else Leaving)
    case ReaderFinishes => s.(reader := Finished, done := true)
    case ChildExits(status) => s.(reaper := Draining(status))
    case DrainEnds(_) => s.(reaper := Closing(s.reaper.status))
    case ReaperLocks => s.(reaper := Announcing(s.reaper.status), closed := true)
    case ReaperSends => Accept(s, Exit(s.reaper.status)).(reaper := Gone(s.reaper.status, s.alive))
    case Receive => s.(queue := s.queue[1..], received := s.received + [s.queue[0]])
    case Drop => s.(queue := [], alive := false)
  }

  ghost predicate Runs(s: State, steps: seq<Step>)
    decreases |steps|
  {
    steps != [] ==> Enabled(s, steps[0]) && Runs(Do(s, steps[0]), steps[1..])
  }

  function DoAll(s: State, steps: seq<Step>): State
    requires Runs(s, steps)
    decreases |steps|
  {
    if steps == [] then s else DoAll(Do(s, steps[0]), steps[1..])
  }

  // ---------------------------------------------------------------------------
  // What every interleaving keeps
  // ---------------------------------------------------------------------------

  function AsData(chunks: seq<Chunk>): (events: seq<Event>)
    ensures |events| == |chunks|
    ensures forall i :: 0 <= i < |chunks| ==> events[i] == Data(chunks[i])
  {
    seq(|chunks|, i requires 0 <= i < |chunks| => Data(chunks[i]))
  }

  /** The chunk the reader holds but the channel has not accepted. */
  function InHand(s: State): seq<Chunk> {
    match s.reader
    case WantsGate(c) => [c]
    case Sending(c) => [c]
    case _ => []
  }

  predicate PastLoop(s: State) {
    s.reader.Leaving? || s.reader.Finished?
  }

  /** The exit, once the channel has accepted it. */
  function Announced(s: State): (e: seq<Event>)
    ensures |e| <= 1
  {
    if s.reaper.Gone? && s.reaper.accepted then [Exit(s.reaper.status)] else []
  }

  /** `n` counts the chunks the channel accepted. */
  ghost predicate Inv(s: State, n: nat) {
    && n <= |s.read|
    && s.sent == AsData(s.read[..n]) + Announced(s)
    && (s.closed <==> s.reaper.Announcing? || s.reaper.Gone?)
    && (s.closed ==> !s.reader.Sending?)
    && (s.done <==> s.reader.Finished?)
    && (!PastLoop(s) ==> s.read == s.read[..n] + InHand(s))
    && (PastLoop(s) ==> n == |s.read| || (n + 1 == |s.read| && (s.closed || !s.alive)))
    && (s.alive ==> s.sent == s.received + s.queue)
    && s.received <= s.sent
    && |s.queue| <= CHANNEL_CAPACITY
    && (!s.alive ==> s.queue == [])
  }

  lemma {:induction false} StartInv()
    ensures Inv(Start, 0)
  {
  }

  lemma {:induction false} SendKeepsInv(s: State, n: nat) returns (m: nat)
    requires Inv(s, n) && Enabled(s, ReaderSends)
    ensures n <= m && Inv(Do(s, ReaderSends), m)
  {
    m := n;
    if s.alive {
      m := n + 1;
      assert s.read[..n + 1] == s.read[..n] + [s.reader.chunk];
      assert AsData(s.read[..n + 1]) == AsData(s.read[..n]) + [Data(s.reader.chunk)];
      assert Do(s, ReaderSends).sent == AsData(s.read[..n + 1]) + [];
    }
  }

  lemma {:induction false} ReadKeepsInv(s: State, c: Chunk, n: nat)
    requires Inv(s, n) && Enabled(s, ReadChunk(c))
    ensures Inv(Do(s, ReadChunk(c)), n)
  {
    assert (s.read + [c])[..n] == s.read[..n];
  }

  lemma {:induction false} ReceiveKeepsInv(s: State, n: nat)
    requires Inv(s, n) && Enabled(s, Receive)
    ensures Inv(Do(s, Receive), n)
  {
    assert s.received + s.queue == (s.received + [s.queue[0]]) + s.queue[1..];
  }

  /** One step, with the number of chunks delivered after it. */
  lemma {:induction false} StepKeepsInv(s: State, step: Step, n: nat) returns (m: nat)
    requires Inv(s, n) && Enabled(s, step)
    ensures n <= m && Inv(Do(s, step), m)
  {
    m := n;
    match step
    case ReadChunk(c) =>
      ReadKeepsInv(s, c, n);
    case ReadEnds =>
    case ReaderLocks =>
    case ReaderSends =>
      m := SendKeepsInv(s, n);
    case ReaderFinishes =>
    case ChildExits(status) =>
    case DrainEnds(_) =>
    case ReaperLocks =>
    case ReaperSends =>
    case Receive =>
      ReceiveKeepsInv(s, n);
    case Drop =>
  }

  lemma {:induction false} RunKeepsInv(s: State, steps: seq<Step>, n: nat) returns (m: nat)
    requires Inv(s, n) && Runs(s, steps)
    ensures n <= m && Inv(DoAll(s, steps), m)
    decreases |steps|
  {
    m := n;
    if steps != [] {
      m := StepKeepsInv(s, steps[0], n);
      m := RunKeepsInv(Do(s, steps[0]), steps[1..], m);
    }
  }

  /** The status with which the run saw the child exit, if it did. */
  function ExitSeen(steps: seq<Step>): Option<Option<int>>
    decreases |steps|
  {
    if steps == [] then None
    else if steps[0].ChildExits? then Some(steps[0].status)
    else ExitSeen(steps[1..])
  }

  /** What the reaper knows, once it knows it, is what it saw. */
  predicate Knows(s: State, seen: Option<Option<int>>) {
    if s.reaper.Polling? then seen.None? else seen == Some(s.reaper.status)
  }

  lemma {:induction false} RunKnows(s: State, steps: seq<Step>, seen: Option<Option<int>>)
    requires Runs(s, steps) && Knows(s, seen)
    ensures Knows(DoAll(s, steps), if seen.Some? then seen else ExitSeen(steps))
    decreases |steps|
  {
    if steps != [] {
      var step := steps[0];
      RunKnows(Do(s, step), steps[1..], if step.ChildExits? then Some(step.status) else seen);
    }
  }

  /** An exit that is sent carries the status with which the child was seen to exit,
      and there is none before that. */
  lemma {:induction false} ExitCarriesItsStatus(steps: seq<Step>, e: Event)
    requires Runs(Start, steps) && e in DoAll(Start, steps).sent && e.Exit?
    ensures ExitSeen(steps) == Some(e.status)
  {
    var s := DoAll(Start, steps);
    RunKnows(Start, steps, None);
    var n := DeliveryIsOrdered(steps);
    assert e in Announced(s);
  }

  /** In every interleaving: the channel's history is data followed by at most one
      exit and nothing after it; the data is an in-order prefix of what was read,
      short by at most one chunk; and the receiver gets a prefix of the history. */
  lemma {:induction false} DeliveryIsOrdered(steps: seq<Step>) returns (n: nat)
    requires Runs(Start, steps)
    ensures
      var s := DoAll(Start, steps);
      && n <= |s.read| <= n + 1
      && s.sent == AsData(s.read[..n]) + Announced(s)
      && s.received <= s.sent
      && (s.alive ==> s.sent == s.received + s.queue)
  {
    StartInv();
    n := RunKeepsInv(Start, steps, 0);
  }

  /** A reader that is past its loop before the gate closes and while the receiver
      is there has left nothing out, and nothing that happens later changes that:
      everything it read is delivered, and the exit comes after all of it. */
  lemma {:induction false} PromptReaderLosesNothing(steps: seq<Step>, later: seq<Step>)
    requires Runs(Start, steps) && Runs(DoAll(Start, steps), later)
    requires PastLoop(DoAll(Start, steps)) && !DoAll(Start, steps).closed && DoAll(Start, steps).alive
    ensures var s := DoAll(DoAll(Start, steps), later); s.sent == AsData(s.read) + Announced(s)
  {
    var s := DoAll(Start, steps);
    StartInv();
    var n := RunKeepsInv(Start, steps, 0);
    PastLoopReadsNoMore(s, later, n);
    var m := RunKeepsInv(s, later, n);
    var t := DoAll(s, later);
    assert t.read[..m] == t.read;
  }

  predicate NeverTimesOut(steps: seq<Step>) {
    DrainEnds(true) !in steps
  }

  /** The gate closes only on a reader that is finished. */
  predicate Waited(s: State, n: nat) {
    && (!s.reaper.Polling? && !s.reaper.Draining? ==> s.done)
    && (PastLoop(s) && s.alive ==> n == |s.read|)
  }

  lemma {:induction false} StepWaits(s: State, step: Step, n: nat) returns (m: nat)
    requires Inv(s, n) && Waited(s, n) && Enabled(s, step) && step != DrainEnds(true)
    ensures Inv(Do(s, step), m) && Waited(Do(s, step), m)
  {
    m := StepKeepsInv(s, step, n);
  }

  lemma {:induction false} RunWaits(s: State, steps: seq<Step>, n: nat) returns (m: nat)
    requires Inv(s, n) && Waited(s, n) && Runs(s, steps) && NeverTimesOut(steps)
    ensures Inv(DoAll(s, steps), m) && Waited(DoAll(s, steps), m)
    decreases |steps|
  {
    m := n;
    if steps != [] {
      assert steps == [steps[0]] + steps[1..];
      m := StepWaits(s, steps[0], n);
      m := RunWaits(Do(s, steps[0]), steps[1..], m);
    }
  }

  /** If the reaper never had to give up waiting for the reader, nothing is lost while
      the receiver is there: everything that was read is sent, and the exit after it. */
  lemma {:induction false} DrainedReaderLosesNothing(steps: seq<Step>)
    requires Runs(Start, steps) && NeverTimesOut(steps)
    requires DoAll(Start, steps).closed && DoAll(Start, steps).alive
    ensures var s := DoAll(Start, steps); s.sent == AsData(s.read) + Announced(s)
  {
    StartInv();
    var m := RunWaits(Start, steps, 0);
    var s := DoAll(Start, steps);
    assert s.read[..|s.read|] == s.read;
  }

  /** The reader goes on until its terminal ends, the gate is closed or the receiver is
      gone; and once its terminal ended it reads no more. */
  lemma {:induction false} ReaderStopsForAReason(s: State, steps: seq<Step>, ended: bool)
    requires Runs(s, steps)
    requires (PastLoop(s) ==> ended || s.closed || !s.alive) && (ended ==> PastLoop(s))
    ensures
      var t, over := DoAll(s, steps), ended || ReadEnds in steps;
      && (PastLoop(t) ==> over || t.closed || !t.alive)
      && (over ==> PastLoop(t))
    decreases |steps|
  {
    if steps != [] {
      assert steps == [steps[0]] + steps[1..];
      ReaderStopsForAReason(Do(s, steps[0]), steps[1..], ended || steps[0].ReadEnds?);
    }
  }

  /** The receiver has to be there: a reader whose send finds it dropped is past its
      loop with the gate still open and one chunk undelivered. */
  lemma {:induction false} DroppedReceiverCostsAChunk(c: Chunk)
    ensures
      var steps := [ReadChunk(c), Drop, ReaderLocks, ReaderSends];
      && Runs(Start, steps)
      && var s := DoAll(Start, steps); PastLoop(s) && !s.closed && s.read == [c] && s.sent == []
  {
    var s1 := Do(Start, ReadChunk(c));
    var s2 := Do(s1, Drop);
    var s3 := Do(s2, ReaderLocks);
    var s4 := Do(s3, ReaderSends);
    Prepend(s3, ReaderSends, []);
    Prepend(s2, ReaderLocks, [ReaderSends]);
    Prepend(s1, Drop, [ReaderLocks, ReaderSends]);
    Prepend(Start, ReadChunk(c), [Drop, ReaderLocks, ReaderSends]);
  }

  lemma {:induction false} Prepend(s: State, step: Step, rest: seq<Step>)
    requires Enabled(s, step) && Runs(Do(s, step), rest)
    ensures Runs(s, [step] + rest) && DoAll(s, [step] + rest) == DoAll(Do(s, step), rest)
  {
    assert ([step] + rest)[1..] == rest;
  }

  lemma {:induction false} PastLoopReadsNoMore(s: State, steps: seq<Step>, n: nat)
    requires Inv(s, n) && PastLoop(s) && Runs(s, steps)
    ensures DoAll(s, steps).read == s.read && PastLoop(DoAll(s, steps))
    decreases |steps|
  {
    if steps != [] {
      var m := StepKeepsInv(s, steps[0], n);
      PastLoopReadsNoMore(Do(s, steps[0]), steps[1..], m);
    }
  }

  /** The chunk a reader left out was found by the gate closed or the receiver
      gone, and it is the last one it read. */
  lemma {:induction false} OnlyTheLastChunkIsLost(steps: seq<Step>) returns (n: nat)
    requires Runs(Start, steps) && PastLoop(DoAll(Start, steps))
    ensures
      var s := DoAll(Start, steps);
      && n <= |s.read| && s.sent == AsData(s.read[..n]) + Announced(s)
      && (n == |s.read| || (n + 1 == |s.read| && (s.closed || !s.alive)))
  {
    StartInv();
    n := RunKeepsInv(Start, steps, 0);
  }

  // ---------------------------------------------------------------------------
  // No deadlock
  // ---------------------------------------------------------------------------

  /** Steps that wait on nothing outside: not on the terminal's output, the
      child's exit, or the receiver's whim to go away. */
  predicate Internal(step: Step) {
    !step.ReadChunk? && !step.ReadEnds? && !step.ChildExits? && !step.Drop?
  }

  function ReaderWork(s: State): nat {
    match s.reader
    case Reading => 0
    case WantsGate(_) => 4
    case Sending(_) => 3
    case Leaving => 1
    case Finished => 0
  }

  function ReaperWork(s: State): nat {
    match s.reaper
    case Polling => 0
    case Draining(_) => 5
    case Closing(_) => 4
    case Announcing(_) => 3
    case Gone(_, _) => 0
  }

  /** How many internal steps can still be taken. */
  function Work(s: State): nat {
    ReaderWork(s) + ReaperWork(s) + |s.queue|
  }

  lemma {:induction false} InternalStepsFinish(s: State, step: Step)
    requires Enabled(s, step) && Internal(step)
    ensures Work(Do(s, step)) < Work(s)
  {
  }

  /** Nothing left to do: the reader waits for output or is finished, the reaper
      waits for the child or is gone, and the channel is drained or dropped. */
  predicate Quiet(s: State) {
    && (s.reader.Reading? || s.reader.Finished?)
    && (s.reaper.Polling? || s.reaper.Gone?)
    && (s.alive ==> s.queue == [])
  }

  /** No reachable deadlock: in every state some internal step is enabled unless
      there is nothing left to do. */
  lemma {:induction false} NoDeadlock(s: State, n: nat) returns (step: Step)
    requires Inv(s, n) && !Quiet(s)
    ensures Internal(step) && Enabled(s, step)
  {
    if s.alive && s.queue != [] {
      step := Receive;
    } else if s.reader.Leaving? {
      step := ReaderFinishes;
    } else if s.reader.Sending? {
      step := ReaderSends;
    } else if s.reaper.Announcing? {
      step := ReaperSends;
    } else if s.reaper.Draining? {
      step := DrainEnds(true);
    } else if s.reaper.Closing? {
      step := ReaperLocks;
    } else {
      step := ReaderLocks;
    }
  }

  /** However the threads and the receiver are scheduled, internal steps run out
      within the work there is. */
  lemma {:induction false} InternalRunsAreShort(s: State, steps: seq<Step>)
    requires Runs(s, steps) && forall i :: 0 <= i < |steps| ==> Internal(steps[i])
    ensures |steps| + Work(DoAll(s, steps)) <= Work(s)
    decreases |steps|
  {
    if steps != [] {
      InternalStepsFinish(s, steps[0]);
      InternalRunsAreShort(Do(s, steps[0]), steps[1..]);
    }
  }

  lemma {:induction false} InternalRunsKeepReceiver(s: State, steps: seq<Step>)
    requires Runs(s, steps) && forall i :: 0 <= i < |steps| ==> Internal(steps[i])
    requires s.alive && !s.reaper.Polling? && (s.reaper.Gone? ==> s.reaper.accepted)
    ensures
      var t := DoAll(s, steps);
      t.alive && !t.reaper.Polling? && (t.reaper.Gone? ==> t.reaper.accepted && t.reaper.status == s.reaper.status)
    ensures !DoAll(s, steps).reaper.Gone? ==> DoAll(s, steps).reaper.status == s.reaper.status
    decreases |steps|
  {
    if steps != [] {
      InternalRunsKeepReceiver(Do(s, steps[0]), steps[1..]);
    }
  }

  /** Once the child's exit has been seen, every schedule in which the receiver
      keeps draining delivers it: when no internal step is left, the receiver has
      got everything that was sent, and the last of it is the exit, with the status
      that was seen. Neither the reader, which may stay blocked in its read for ever,
      nor a full channel can hold it back. */
  lemma {:induction false} ExitIsDelivered(before: seq<Step>, status: Option<int>, steps: seq<Step>)
    requires Runs(Start, before) && ExitSeen(before) == Some(status) && DoAll(Start, before).alive
    requires Runs(DoAll(Start, before), steps) && forall i :: 0 <= i < |steps| ==> Internal(steps[i])
    requires forall step :: Internal(step) ==> !Enabled(DoAll(DoAll(Start, before), steps), step)
    ensures
      var t := DoAll(DoAll(Start, before), steps);
      && t.received == t.sent
      && t.received != [] && t.received[|t.received| - 1] == Exit(status)
  {
    StartInv();
    var n := RunKeepsInv(Start, before, 0);
    RunKnows(Start, before, None);
    GoneIsAccepted(Start, before);
    AnnouncedIsDelivered(DoAll(Start, before), n, steps);
  }

  /** While the receiver is there, the reaper's send is accepted. */
  lemma {:induction false} GoneIsAccepted(s: State, steps: seq<Step>)
    requires Runs(s, steps) && (s.alive && s.reaper.Gone? ==> s.reaper.accepted)
    ensures var t := DoAll(s, steps); t.alive && t.reaper.Gone? ==> t.reaper.accepted
    decreases |steps|
  {
    if steps != [] {
      GoneIsAccepted(Do(s, steps[0]), steps[1..]);
    }
  }

  lemma {:induction false} AnnouncedIsDelivered(s: State, n: nat, steps: seq<Step>)
    requires Inv(s, n) && s.alive && !s.reaper.Polling? && (s.reaper.Gone? ==> s.reaper.accepted)
    requires Runs(s, steps) && forall i :: 0 <= i < |steps| ==> Internal(steps[i])
    requires forall step :: Internal(step) ==> !Enabled(DoAll(s, steps), step)
    ensures
      var t := DoAll(s, steps);
      && t.received == t.sent
      && t.received != [] && t.received[|t.received| - 1] == Exit(s.reaper.status)
  {
    var t := DoAll(s, steps);
    var m := RunKeepsInv(s, steps, n);
    InternalRunsKeepReceiver(s, steps);
    if !Quiet(t) {
      var step := NoDeadlock(t, m);
    }
    assert t.reaper.Gone? && t.queue == [];
    assert t.received + [] == t.received;
    assert t.sent == AsData(t.read[..m]) + [Exit(s.reaper.status)];
  }
}
