/** The embedded shell's session table: a fixed number of slots, each with a ring
    of output bytes that overwrites its oldest byte when it is full.

    The first half models the table as the program has it, arrays and indices
    updated in place, and ties every operation to a step on plain values. The
    second half proves what holds over every run of those steps. Opening a
    session is several steps, because the program releases the lock between
    reserving a slot and giving it a terminal. */
module SessionTable {
  import opened Wrappers

  const MAX_SESSIONS := 8
  const CAPACITY := 262144
  const EINVAL := 22
  const EMFILE := 24

  datatype Tty = Tty(id: nat)

  // ---------------------------------------------------------------------------
  // One slot
  // ---------------------------------------------------------------------------

  /** Unread output after a write: the newest bytes that fit, one place of the
      ring staying empty. */
  function WriteQueue(unread: seq<byte>, bytes: seq<byte>): (kept: seq<byte>)
    ensures kept == (unread + bytes)[Overflow(unread, bytes)..]
  {
    var all := unread + bytes;
    if |all| <= CAPACITY - 1 then all else all[|all| - (CAPACITY - 1)..]
  }

  /** How many bytes a write pushes out. */
  function Overflow(unread: seq<byte>, bytes: seq<byte>): nat {
    if |unread| + |bytes| <= CAPACITY - 1 then 0 else |unread| + |bytes| - (CAPACITY - 1)
  }

  /** The bytes of a circular buffer from `tail` up to `head`. */
  function Ring(data: seq<byte>, tail: nat, head: nat): (r: seq<byte>)
    requires tail < |data| && head < |data|
    ensures |r| < |data|
  {
    if tail <= head then data[tail..head] else data[tail..] + data[..head]
  }

  function Next(i: nat): (next: nat)
    requires i < CAPACITY
    ensures next < CAPACITY
  {
    (i + 1) % CAPACITY
  }

  lemma {:induction false} RingPush(data: seq<byte>, tail: nat, head: nat, b: byte)
    requires |data| == CAPACITY && tail < CAPACITY && head < CAPACITY && Next(head) != tail
    ensures Ring(data[head := b], tail, Next(head)) == Ring(data, tail, head) + [b]
  {
    var more := data[head := b];
    if tail <= head && head + 1 < CAPACITY {
      assert more[tail..head + 1] == data[tail..head] + [b];
    } else if tail <= head {
      assert Next(head) == 0 && more[..0] == [];
      assert more[tail..] == data[tail..head] + [b];
    } else {
      assert Next(head) == head + 1;
      assert more[tail..] == data[tail..] && more[..head + 1] == data[..head] + [b];
    }
  }

  lemma {:induction false} RingPop(data: seq<byte>, tail: nat, head: nat)
    requires |data| == CAPACITY && tail < CAPACITY && head < CAPACITY && tail != head
    ensures Ring(data, tail, head) == [data[tail]] + Ring(data, Next(tail), head)
  {
    if tail < head {
      assert Next(tail) == tail + 1;
      assert data[tail..head] == [data[tail]] + data[tail + 1..head];
    } else if tail + 1 == CAPACITY {
      assert Next(tail) == 0;
      assert data[tail..] == [data[tail]];
      assert data[..head] == data[0..head];
    } else {
      assert Next(tail) == tail + 1;
      assert data[tail..] == [data[tail]] + data[tail + 1..];
      assert data[tail..] + data[..head] == [data[tail]] + (data[tail + 1..] + data[..head]);
    }
  }

  /** One byte written, the oldest one giving way when the ring is full. */
  lemma {:induction false} RingWrites(data: seq<byte>, tail: nat, head: nat, b: byte)
    requires |data| == CAPACITY && tail < CAPACITY && head < CAPACITY
    ensures
      var kept := if Next(head) == tail then Next(tail) else tail;
      Ring(data[head := b], kept, Next(head)) == WriteQueue(Ring(data, tail, head), [b])
  {
    var unread := Ring(data, tail, head);
    RingFull(data, tail, head);
    if Next(head) == tail {
      RingPop(data, tail, head);
      RingPush(data, Next(tail), head, b);
      assert (unread + [b])[1..] == unread[1..] + [b];
    } else {
      RingPush(data, tail, head, b);
    }
  }

  lemma {:induction false} RingFull(data: seq<byte>, tail: nat, head: nat)
    requires |data| == CAPACITY && tail < CAPACITY && head < CAPACITY
    ensures Next(head) == tail <==> |Ring(data, tail, head)| == CAPACITY - 1
  {
  }

  class Session {
    var used: bool
    var tty: Option<Tty>
    var pid: int
    var exitCode: int
    const data: array<byte>
    var head: nat
    var tail: nat

    ghost predicate Valid()
      reads this
    {
      data.Length == CAPACITY && head < CAPACITY && tail < CAPACITY
    }

    /** What has been printed and not read: the ring from tail to head. */
    ghost function Unread(): (unread: seq<byte>)
      requires Valid()
      reads this, data
      ensures |unread| <= CAPACITY - 1
    {
      Ring(data[..], tail, head)
    }

    constructor ()
      ensures Valid() && fresh(data)
      ensures !used && tty == None && pid == 0 && exitCode == 0 && Unread() == []
    {
      used, tty, pid, exitCode, head, tail := false, None, 0, 0, 0, 0;
      data := new byte[CAPACITY](_ => 0);
    }

    /** Wiped, then marked as used and not yet exited. */
    method Claim()
      requires Valid()
      modifies this, data
      ensures Valid()
      ensures used && tty == None && pid == 0 && exitCode == -1 && Unread() == []
    {
      forall k | 0 <= k < data.Length {
        data[k] := 0;
      }
      head, tail, tty, pid := 0, 0, None, 0;
      used := true;
      exitCode := -1;
    }

    method Append(bytes: seq<byte>)
      requires Valid()
      modifies this`head, this`tail, data
      ensures Valid()
      ensures Unread() == WriteQueue(old(Unread()), bytes)
    {
      for i := 0 to |bytes|
        invariant Valid()
        invariant Unread() == WriteQueue(old(Unread()), bytes[..i])
      {
        AppendOne(bytes[i]);
        WriteOneMore(old(Unread()), bytes, i);
      }
      assert bytes[..|bytes|] == bytes;
    }

    method AppendOne(b: byte)
      requires Valid()
      modifies this`head, this`tail, data
      ensures Valid()
      ensures Unread() == WriteQueue(old(Unread()), [b])
    {
      ghost var was, end := data[..], head;
      RingWrites(was, tail, head, b);
      var next := Next(head);
      if next == tail {
        tail := Next(tail);
      }
      data[head] := b;
      head := next;
      assert data[..] == was[end := b];
    }

    /** Moves unread bytes into `buffer`, oldest first, until it or they run out. */
    method Drain(buffer: array<byte>, length: nat) returns (count: nat)
      requires Valid() && length <= buffer.Length && buffer != data
      modifies this`tail, buffer
      ensures Valid()
      ensures count == if length < |old(Unread())| then length else |old(Unread())|
      ensures buffer[..count] == old(Unread())[..count]
      ensures buffer[count..] == old(buffer[count..])
      ensures Unread() == old(Unread())[count..]
    {
      ghost var unread := Unread();
      count := 0;
      while count < length && tail != head
        invariant Valid() && count <= length && count <= |unread|
        invariant data[..] == old(data[..])
        invariant buffer[..count] == unread[..count]
        invariant forall k :: count <= k < buffer.Length ==> buffer[k] == old(buffer[k])
        invariant Ring(data[..], tail, head) == unread[count..]
        decreases length - count
      {
        RingPop(data[..], tail, head);
        TakeOneMore(unread, count, data[tail], Ring(data[..], Next(tail), head));
        buffer[count] := data[tail];
        tail := Next(tail);
        assert buffer[..count + 1] == buffer[..count] + [buffer[count]];
        count := count + 1;
      }
    }
  }

  lemma {:induction false} TakeOneMore(unread: seq<byte>, count: nat, b: byte, rest: seq<byte>)
    requires count <= |unread| && unread[count..] == [b] + rest
    ensures count < |unread| && unread[count] == b
    ensures unread[..count] + [b] == unread[..count + 1] && unread[count + 1..] == rest
  {
    assert unread[count] == unread[count..][0];
    assert unread[count + 1..] == unread[count..][1..];
  }

  lemma {:induction false} WriteOneMore(unread: seq<byte>, bytes: seq<byte>, i: nat)
    requires i < |bytes|
    ensures WriteQueue(WriteQueue(unread, bytes[..i]), [bytes[i]]) == WriteQueue(unread, bytes[..i + 1])
  {
    var before := unread + bytes[..i];
    assert bytes[..i + 1] == bytes[..i] + [bytes[i]];
    assert unread + bytes[..i + 1] == before + [bytes[i]];
    var cut := Overflow(unread, bytes[..i]);
    assert before[cut..] + [bytes[i]] == (before + [bytes[i]])[cut..];
  }

  // ---------------------------------------------------------------------------
  // The table as values
  // ---------------------------------------------------------------------------

  datatype Slot = Slot(used: bool, tty: Option<Tty>, pid: int, exitCode: int, unread: seq<byte>)

  datatype Query = OwnerOf(owned: Tty) | RunningAs(pid: int) | Free

  predicate Matches(slot: Slot, q: Query) {
    match q
    case OwnerOf(tty) => slot.used && slot.tty == Some(tty)
    case RunningAs(pid) => slot.used && slot.pid == pid
    case Free => !slot.used
  }

  /** The first matching slot from `from` on, or the number of slots. */
  function FirstIndex(slots: seq<Slot>, q: Query, from: nat := 0): (i: nat)
    requires from <= |slots|
    ensures from <= i <= |slots|
    ensures i < |slots| ==> Matches(slots[i], q)
    ensures forall j :: from <= j < i ==> !Matches(slots[j], q)
    decreases |slots| - from
  {
    if from == |slots| || Matches(slots[from], q) then from else FirstIndex(slots, q, from + 1)
  }

  datatype Op =
    | GuestWrites(from: Tty, bytes: seq<byte>)
    | GuestExits(pid: int, code: int)
    | Reserves
    | Attaches(id: nat, given: Tty, pid: int)
    | Aborts(id: nat)
    | Reads(id: nat, length: nat)
    | Closes(id: nat)

  predicate InRange(slots: seq<Slot>, op: Op) {
    (op.Attaches? || op.Aborts? || op.Reads? || op.Closes?) ==> op.id < |slots|
  }

  /** One step of the table. */
  function Apply(slots: seq<Slot>, op: Op): (next: seq<Slot>)
    requires InRange(slots, op)
    ensures |next| == |slots|
  {
    match op
    case GuestWrites(tty, bytes) =>
      var i := FirstIndex(slots, OwnerOf(tty));
      if i == |slots| then slots
      else slots[i := slots[i].(unread := WriteQueue(slots[i].unread, bytes))]
    case GuestExits(pid, code) =>
      var i := FirstIndex(slots, RunningAs(pid));
      if i == |slots| then slots else slots[i := slots[i].(exitCode := code / 256)]
    case Reserves =>
      var i := FirstIndex(slots, Free);
      if i == |slots| then slots else slots[i := Slot(true, None, 0, -1, [])]
    case Attaches(i, tty, pid) => slots[i := slots[i].(tty := Some(tty), pid := pid)]
    case Aborts(i) => slots[i := slots[i].(used := false)]
    case Reads(i, length) =>
      if !slots[i].used then slots else slots[i := slots[i].(unread := slots[i].unread[Taken(slots, i, length)..])]
    case Closes(i) => slots[i := slots[i].(used := false, tty := None)]
  }

  function Taken(slots: seq<Slot>, i: nat, length: nat): (n: nat)
    requires i < |slots|
    ensures n <= |slots[i].unread|
  {
    if length < |slots[i].unread| then length else |slots[i].unread|
  }

  // ---------------------------------------------------------------------------
  // The table as the program has it
  // ---------------------------------------------------------------------------

  class Table {
    const sessions: seq<Session>

    ghost predicate Valid()
      reads sessions
    {
      && |sessions| == MAX_SESSIONS
      && (forall i :: 0 <= i < |sessions| ==> sessions[i].Valid())
      && (forall i, j :: 0 <= i < j < |sessions| ==>
            sessions[i] != sessions[j] && sessions[i].data != sessions[j].data)
    }

    ghost function Buffers(): set<array<byte>> {
      set s | s in sessions :: s.data
    }

    ghost function SlotOf(i: nat): Slot
      requires i < |sessions| && sessions[i].Valid()
      reads sessions[i], sessions[i].data
    {
      var s := sessions[i];
      Slot(s.used, s.tty, s.pid, s.exitCode, s.Unread())
    }

    ghost function View(): (slots: seq<Slot>)
      requires Valid()
      reads sessions, Buffers()
      ensures |slots| == |sessions|
      ensures forall i :: 0 <= i < |sessions| ==> slots[i] == SlotOf(i)
    {
      seq(|sessions|, i requires 0 <= i < |sessions| && Valid() reads sessions, Buffers() => SlotOf(i))
    }

    /** Whatever was done to slot `i`, the others are as they were. */
    twostate lemma OnlyChanged(i: nat)
      requires i < |sessions| && old(Valid()) && Valid()
      requires forall j :: 0 <= j < |sessions| && j != i ==> unchanged(sessions[j]) && unchanged(sessions[j].data)
      ensures View() == old(View())[i := SlotOf(i)]
    {
      forall j | 0 <= j < |sessions| && j != i
        ensures SlotOf(j) == old(SlotOf(j))
      {
        assert unchanged(sessions[j]) && unchanged(sessions[j].data);
      }
    }

    /** The table before any session: every slot free and empty. */
    constructor ()
      ensures Valid() && fresh(sessions) && fresh(Buffers())
      ensures forall i :: 0 <= i < |sessions| ==> View()[i] == Slot(false, None, 0, 0, [])
    {
      var made: seq<Session> := [];
      for n := 0 to MAX_SESSIONS
        invariant |made| == n
        invariant forall i :: 0 <= i < n ==> fresh(made[i]) && fresh(made[i].data) && made[i].Valid()
        invariant forall i :: 0 <= i < n ==>
                    !made[i].used && made[i].tty == None && made[i].pid == 0 && made[i].exitCode == 0 && made[i].Unread() == []
        invariant forall i, j :: 0 <= i < j < n ==> made[i] != made[j] && made[i].data != made[j].data
      {
        var session := new Session();
        made := made + [session];
      }
      sessions := made;
    }

    /** Looks for the used slot that has the terminal; -1 if none has. */
    method SessionOf(tty: Tty) returns (index: int)
      requires Valid()
      ensures var i := FirstIndex(View(), OwnerOf(tty)); index == if i == |sessions| then -1 else i
    {
      var i := 0;
      while i < |sessions|
        invariant 0 <= i <= |sessions|
        invariant i <= FirstIndex(View(), OwnerOf(tty))
      {
        if sessions[i].used && sessions[i].tty == Some(tty) {
          assert Matches(View()[i], OwnerOf(tty));
          return i;
        }
        i := i + 1;
      }
      index := -1;
    }

    /** Output from the guest. Bytes for a closed session are dropped, not an error. */
    method ConsoleWrite(tty: Tty, bytes: seq<byte>) returns (written: int)
      requires Valid()
      modifies sessions, Buffers()
      ensures Valid() && written == |bytes|
      ensures View() == Apply(old(View()), GuestWrites(tty, bytes))
    {
      var index := SessionOf(tty);
      if index >= 0 {
        AppendTo(index, bytes);
      }
      written := |bytes|;
    }

    method AppendTo(index: nat, bytes: seq<byte>)
      requires Valid() && index < |sessions|
      modifies sessions, Buffers()
      ensures Valid()
      ensures
        var was := old(View());
        View() == was[index := was[index].(unread := WriteQueue(was[index].unread, bytes))]
    {
      sessions[index].Append(bytes);
      OnlyChanged(index);
    }

    method GuestExited(pid: int, code: int)
      requires Valid()
      modifies sessions, Buffers()
      ensures Valid()
      ensures View() == Apply(old(View()), GuestExits(pid, code))
    {
      ghost var first := FirstIndex(View(), RunningAs(pid));
      var i := 0;
      while i < |sessions|
        invariant 0 <= i <= first
        invariant Valid() && View() == old(View())
      {
        if sessions[i].used && sessions[i].pid == pid {
          assert Matches(View()[i], RunningAs(pid));
          sessions[i].exitCode := code / 256;
          OnlyChanged(i);
          return;
        }
        assert !Matches(View()[i], RunningAs(pid));
        i := i + 1;
      }
    }

    /** The first half of opening a session: claim the first free slot, wiped. */
    method Reserve() returns (index: int)
      requires Valid()
      modifies sessions, Buffers()
      ensures Valid()
      ensures View() == Apply(old(View()), Reserves)
      ensures var i := FirstIndex(old(View()), Free); index == if i == |sessions| then -EMFILE else i
    {
      ghost var first := FirstIndex(View(), Free);
      var i := 0;
      while i < |sessions|
        invariant 0 <= i <= first
        invariant Valid() && View() == old(View())
      {
        if !sessions[i].used {
          assert Matches(View()[i], Free);
          sessions[i].Claim();
          OnlyChanged(i);
          return i;
        }
        assert !Matches(View()[i], Free);
        i := i + 1;
      }
      index := -EMFILE;
    }

    /** The second half: the terminal and process a reserved slot was given. */
    method Attach(index: nat, tty: Tty, pid: int)
      requires Valid() && index < |sessions|
      modifies sessions, Buffers()
      ensures Valid()
      ensures View() == Apply(old(View()), Attaches(index, tty, pid))
    {
      sessions[index].tty := Some(tty);
      sessions[index].pid := pid;
      OnlyChanged(index);
    }

    /** The failure path of opening. */
    method Abort(index: nat)
      requires Valid() && index < |sessions|
      modifies sessions, Buffers()
      ensures Valid()
      ensures View() == Apply(old(View()), Aborts(index))
    {
      sessions[index].used := false;
      OnlyChanged(index);
    }

    /** Bytes delivered, 0 for nothing yet, -1 for an ended or unused session. */
    method Read(id: int, buffer: array<byte>, length: int) returns (code: int)
      requires Valid() && length <= buffer.Length && buffer !in Buffers()
      modifies sessions, Buffers(), buffer
      ensures Valid()
      ensures (length <= 0 || id < 0 || id >= MAX_SESSIONS) ==>
                code == -EINVAL && View() == old(View()) && buffer[..] == old(buffer[..])
      ensures length > 0 && 0 <= id < MAX_SESSIONS ==>
                var was := old(View());
                var n := if was[id].used then Taken(was, id, length) else 0;
                && View() == Apply(was, Reads(id, length))
                && buffer[..n] == was[id].unread[..n] && buffer[n..] == old(buffer[..])[n..]
                && code == ReadCode(was, id, length)
    {
      if length <= 0 || id < 0 || id >= MAX_SESSIONS {
        return -EINVAL;
      }
      var session := sessions[id];
      if !session.used {
        return -1;
      }
      var count := session.Drain(buffer, length);
      OnlyChanged(id);
      var ended := count == 0 && session.exitCode >= 0;
      code := if ended then -1 else count;
    }

    method Close(id: int)
      requires Valid()
      modifies sessions, Buffers()
      ensures Valid()
      ensures View() == if 0 <= id < MAX_SESSIONS then Apply(old(View()), Closes(id)) else old(View())
    {
      if id < 0 || id >= MAX_SESSIONS {
        return;
      }
      sessions[id].used := false;
      sessions[id].tty := None;
      OnlyChanged(id);
    }
  }

  // ---------------------------------------------------------------------------
  // What every run keeps
  // ---------------------------------------------------------------------------

  /** The pty allocator never hands out a terminal that a used slot still holds. */
  predicate AllocatorSafe(slots: seq<Slot>, op: Op) {
    op.Attaches? ==> forall i :: 0 <= i < |slots| ==> !Matches(slots[i], OwnerOf(op.given))
  }

  /** Used slots have distinct terminals; a slot with no terminal yet has nothing
      to read; and no ring holds more than its capacity less one. */
  ghost predicate Consistent(slots: seq<Slot>) {
    && (forall i, j :: 0 <= i < j < |slots| && slots[i].used && slots[j].used && slots[i].tty.Some? ==>
          slots[i].tty != slots[j].tty)
    && (forall i :: 0 <= i < |slots| && slots[i].used && slots[i].tty.None? ==> slots[i].unread == [])
    && (forall i :: 0 <= i < |slots| ==> |slots[i].unread| <= CAPACITY - 1)
  }

  ghost predicate Runs(slots: seq<Slot>, ops: seq<Op>)
    decreases |ops|
  {
    ops != [] ==> InRange(slots, ops[0]) && AllocatorSafe(slots, ops[0]) && Runs(Apply(slots, ops[0]), ops[1..])
  }

  function ApplyAll(slots: seq<Slot>, ops: seq<Op>): (next: seq<Slot>)
    requires Runs(slots, ops)
    ensures |next| == |slots|
    decreases |ops|
  {
    if ops == [] then slots else ApplyAll(Apply(slots, ops[0]), ops[1..])
  }

  /** What a slot may become without upsetting the others. */
  lemma {:induction false} UpdateKeepsConsistent(slots: seq<Slot>, i: nat, slot: Slot)
    requires Consistent(slots) && i < |slots|
    requires slot.used && slot.tty.Some? ==>
               forall j :: 0 <= j < |slots| && j != i && slots[j].used ==> slots[j].tty != slot.tty
    requires slot.used && slot.tty.None? ==> slot.unread == []
    requires |slot.unread| <= CAPACITY - 1
    ensures Consistent(slots[i := slot])
  {
  }

  lemma {:induction false} FreshTableIsConsistent(slots: seq<Slot>)
    requires forall i :: 0 <= i < |slots| ==> slots[i] == Slot(false, None, 0, 0, [])
    ensures Consistent(slots)
  {
  }

  lemma {:induction false} StepKeepsConsistent(slots: seq<Slot>, op: Op)
    requires Consistent(slots) && InRange(slots, op) && AllocatorSafe(slots, op)
    ensures Consistent(Apply(slots, op))
  {
    match op
    case GuestWrites(tty, bytes) =>
      var i := FirstIndex(slots, OwnerOf(tty));
      if i < |slots| {
        UpdateKeepsConsistent(slots, i, slots[i].(unread := WriteQueue(slots[i].unread, bytes)));
      }
    case GuestExits(pid, code) =>
      var i := FirstIndex(slots, RunningAs(pid));
      if i < |slots| {
        UpdateKeepsConsistent(slots, i, slots[i].(exitCode := code / 256));
      }
    case Reserves =>
      var i := FirstIndex(slots, Free);
      if i < |slots| {
        UpdateKeepsConsistent(slots, i, Slot(true, None, 0, -1, []));
      }
    case Attaches(i, tty, pid) =>
      forall j | 0 <= j < |slots| && slots[j].used
        ensures slots[j].tty != Some(tty)
      {
        assert !Matches(slots[j], OwnerOf(tty));
      }
      UpdateKeepsConsistent(slots, i, slots[i].(tty := Some(tty), pid := pid));
    case Aborts(i) =>
      UpdateKeepsConsistent(slots, i, slots[i].(used := false));
    case Reads(i, length) =>
      if slots[i].used {
        UpdateKeepsConsistent(slots, i, slots[i].(unread := slots[i].unread[Taken(slots, i, length)..]));
      }
    case Closes(i) =>
      UpdateKeepsConsistent(slots, i, slots[i].(used := false, tty := None));
  }

  /** Every run of opens, guest writes, exits, reads and closes, in any
      interleaving, keeps the table consistent. */
  lemma {:induction false} RunKeepsConsistent(slots: seq<Slot>, ops: seq<Op>)
    requires Consistent(slots) && Runs(slots, ops)
    ensures Consistent(ApplyAll(slots, ops))
    decreases |ops|
  {
    if ops != [] {
      StepKeepsConsistent(slots, ops[0]);
      RunKeepsConsistent(Apply(slots, ops[0]), ops[1..]);
    }
  }

  /** A guest's write reaches the one slot that owns its terminal, whichever slot
      that is, and nothing else in the table. */
  lemma {:induction false} GuestWriteReachesItsOwner(slots: seq<Slot>, tty: Tty, bytes: seq<byte>, i: nat)
    requires Consistent(slots) && i < |slots| && Matches(slots[i], OwnerOf(tty))
    ensures Apply(slots, GuestWrites(tty, bytes)) == slots[i := slots[i].(unread := WriteQueue(slots[i].unread, bytes))]
  {
    var first := FirstIndex(slots, OwnerOf(tty));
    assert first == i;
  }

  ghost predicate Orphaned(slots: seq<Slot>, tty: Tty) {
    forall i :: 0 <= i < |slots| ==> !Matches(slots[i], OwnerOf(tty))
  }

  /** Closing a session orphans its terminal. */
  lemma {:induction false} CloseOrphans(slots: seq<Slot>, id: nat, tty: Tty)
    requires Consistent(slots) && id < |slots| && Matches(slots[id], OwnerOf(tty))
    ensures Orphaned(Apply(slots, Closes(id)), tty)
  {
  }

  ghost predicate NeverGiven(ops: seq<Op>, tty: Tty) {
    forall k :: 0 <= k < |ops| ==> !(ops[k].Attaches? && ops[k].given == tty)
  }

  /** Until the allocator hands the terminal out again, however the table is used
      meanwhile, what its old guest prints reaches no slot at all. */
  lemma {:induction false} OrphanedWritesReachNoSlot(slots: seq<Slot>, ops: seq<Op>, tty: Tty, bytes: seq<byte>)
    requires Orphaned(slots, tty) && Runs(slots, ops) && NeverGiven(ops, tty)
    ensures Orphaned(ApplyAll(slots, ops), tty)
    ensures Apply(ApplyAll(slots, ops), GuestWrites(tty, bytes)) == ApplyAll(slots, ops)
    decreases |ops|
  {
    if ops == [] {
      assert FirstIndex(slots, OwnerOf(tty)) == |slots|;
    } else {
      assert Orphaned(Apply(slots, ops[0]), tty);
      OrphanedWritesReachNoSlot(Apply(slots, ops[0]), ops[1..], tty, bytes);
    }
  }

  // ---------------------------------------------------------------------------
  // When a session has ended
  // ---------------------------------------------------------------------------

  /** What a read of a slot answers: the bytes it got, or that there will be no more. */
  function ReadCode(slots: seq<Slot>, i: nat, length: nat): int
    requires i < |slots|
  {
    var n := Taken(slots, i, length);
    if !slots[i].used || (n == 0 && slots[i].exitCode >= 0) then -1 else n
  }

  /** The exit of process `pid` is the exit of slot `i`: the first one it runs in. */
  ghost predicate RunsFirstIn(slots: seq<Slot>, pid: int, i: nat) {
    && i < |slots| && slots[i].used && slots[i].pid == pid
    && forall j :: 0 <= j < i ==> !(slots[j].used && slots[j].pid == pid)
  }

  /** An exit is recorded where its process runs, without the signal byte, and nowhere
      else; the exit of a process that runs nowhere is not recorded. */
  lemma {:induction false} ExitIsRecorded(slots: seq<Slot>, pid: int, code: int, i: nat)
    ensures RunsFirstIn(slots, pid, i) ==>
      Apply(slots, GuestExits(pid, code)) == slots[i := slots[i].(exitCode := code / 256)]
    ensures (forall j :: 0 <= j < |slots| ==> !(slots[j].used && slots[j].pid == pid)) ==>
      Apply(slots, GuestExits(pid, code)) == slots
  {
    var first := FirstIndex(slots, RunningAs(pid));
    assert RunsFirstIn(slots, pid, i) ==> Matches(slots[i], RunningAs(pid));
  }

  /** A slot is attached to the terminal and the process it was given. */
  lemma {:induction false} AttachedAsGiven(slots: seq<Slot>, i: nat, tty: Tty, pid: int)
    requires i < |slots|
    ensures
      var next := Apply(slots, Attaches(i, tty, pid));
      && next[i].tty == Some(tty) && next[i].pid == pid && next[i].used == slots[i].used
      && next[i].exitCode == slots[i].exitCode && next[i].unread == slots[i].unread
      && forall j :: 0 <= j < |slots| && j != i ==> next[j] == slots[j]
  {
  }

  /** The last exit of slot `i` during the run, if there is one. */
  ghost function LastExit(slots: seq<Slot>, ops: seq<Op>, i: nat): Option<int>
    requires Runs(slots, ops)
    decreases |ops|
  {
    if ops == [] then None
    else
      var later := LastExit(Apply(slots, ops[0]), ops[1..], i);
      if later.Some? then later
      else if ops[0].GuestExits? && RunsFirstIn(slots, ops[0].pid, i) then Some(ops[0].code)
      else None
  }

  /** Neither closed nor given up. */
  predicate StaysOpen(ops: seq<Op>, i: nat)
    decreases |ops|
  {
    ops != [] ==> !((ops[0].Closes? || ops[0].Aborts?) && ops[0].id == i) && StaysOpen(ops[1..], i)
  }

  lemma {:induction false} ExitCodeIsLast(slots: seq<Slot>, ops: seq<Op>, i: nat)
    requires Runs(slots, ops) && i < |slots| && slots[i].used
    requires KeepsSlot(slots, ops, i) && StaysOpen(ops, i)
    ensures
      var end, last := ApplyAll(slots, ops)[i], LastExit(slots, ops, i);
      end.used && end.exitCode == if last.Some? then last.value / 256 else slots[i].exitCode
    decreases |ops|
  {
    if ops != [] {
      var op := ops[0];
      if op.GuestExits? {
        ExitIsRecorded(slots, op.pid, op.code, i);
        OtherExits(slots, op.pid, op.code, i);
      }
      ExitCodeIsLast(Apply(slots, op), ops[1..], i);
    }
  }

  lemma {:induction false} OtherExits(slots: seq<Slot>, pid: int, code: int, i: nat)
    requires i < |slots|
    ensures !RunsFirstIn(slots, pid, i) ==> Apply(slots, GuestExits(pid, code))[i] == slots[i]
  {
    var first := FirstIndex(slots, RunningAs(pid));
    assert forall j :: 0 <= j < first ==> !Matches(slots[j], RunningAs(pid));
  }

  /** A caller can tell a quiet session from a finished one: from its reservation on, as
      long as the slot is not closed, a read of `length` bytes answers -1 if and only if
      its process has exited and its ring is empty; otherwise it answers how many bytes
      it got, which are as many as there are, up to `length`. */
  lemma {:induction false} ReadsTellTheEnd(slots: seq<Slot>, ops: seq<Op>, i: nat, length: nat)
    requires Runs(slots, ops) && i < |slots| && slots[i].used && slots[i].exitCode == -1
    requires KeepsSlot(slots, ops, i) && StaysOpen(ops, i) && length > 0
    requires forall k :: 0 <= k < |ops| && ops[k].GuestExits? ==> ops[k].code >= 0
    ensures
      var end := ApplyAll(slots, ops);
      var code := ReadCode(end, i, length);
      && (code == -1 <==> LastExit(slots, ops, i).Some? && end[i].unread == [])
      && (code != -1 ==> code == if length < |end[i].unread| then length else |end[i].unread|)
  {
    ExitCodeIsLast(slots, ops, i);
    LastExitIsOne(slots, ops, i);
  }

  lemma {:induction false} LastExitIsOne(slots: seq<Slot>, ops: seq<Op>, i: nat)
    requires Runs(slots, ops) && forall k :: 0 <= k < |ops| && ops[k].GuestExits? ==> ops[k].code >= 0
    ensures LastExit(slots, ops, i).Some? ==> LastExit(slots, ops, i).value >= 0
    decreases |ops|
  {
    if ops != [] {
      LastExitIsOne(Apply(slots, ops[0]), ops[1..], i);
    }
  }

  // ---------------------------------------------------------------------------
  // The byte stream of one slot
  // ---------------------------------------------------------------------------

  /** What one step writes to slot `i`. */
  function Written(slots: seq<Slot>, op: Op, i: nat): seq<byte> {
    if op.GuestWrites? && FirstIndex(slots, OwnerOf(op.from)) == i then op.bytes else []
  }

  /** What one step delivers from slot `i`. */
  function Delivered(slots: seq<Slot>, op: Op, i: nat): seq<byte>
    requires i < |slots|
  {
    if op.Reads? && op.id == i && slots[i].used then slots[i].unread[..Taken(slots, i, op.length)] else []
  }

  function AllWritten(slots: seq<Slot>, ops: seq<Op>, i: nat): seq<byte>
    requires Runs(slots, ops)
    decreases |ops|
  {
    if ops == [] then [] else Written(slots, ops[0], i) + AllWritten(Apply(slots, ops[0]), ops[1..], i)
  }

  function AllDelivered(slots: seq<Slot>, ops: seq<Op>, i: nat): seq<byte>
    requires Runs(slots, ops) && i < |slots|
    decreases |ops|
  {
    if ops == [] then [] else Delivered(slots, ops[0], i) + AllDelivered(Apply(slots, ops[0]), ops[1..], i)
  }

  /** How many bytes of slot `i` were overwritten before they could be read. */
  function AllDropped(slots: seq<Slot>, ops: seq<Op>, i: nat): nat
    requires Runs(slots, ops) && i < |slots|
    decreases |ops|
  {
    if ops == [] then 0
    else Overflow(slots[i].unread, Written(slots, ops[0], i)) + AllDropped(Apply(slots, ops[0]), ops[1..], i)
  }

  /** The slot is not handed to another session during the run. */
  ghost predicate KeepsSlot(slots: seq<Slot>, ops: seq<Op>, i: nat)
    requires Runs(slots, ops)
    decreases |ops|
  {
    ops != [] ==> !(ops[0].Reserves? && FirstIndex(slots, Free) == i) && KeepsSlot(Apply(slots, ops[0]), ops[1..], i)
  }

  /** `picked` consists of the elements of `all` at the increasing positions `at`. */
  ghost predicate Picks(at: seq<nat>, all: seq<byte>, picked: seq<byte>) {
    && |at| == |picked|
    && (forall k :: 0 <= k < |at| ==> at[k] < |all| && picked[k] == all[at[k]])
    && (forall j, k :: 0 <= j < k < |at| ==> at[j] < at[k])
  }

  function Shift(at: seq<nat>, offset: nat): (r: seq<nat>)
    ensures |r| == |at| && forall k :: 0 <= k < |at| ==> r[k] == at[k] + offset
  {
    seq(|at|, k requires 0 <= k < |at| => at[k] + offset)
  }

  /** Elements in front of `all` that are not picked. */
  lemma {:induction false} PicksBehind(at: seq<nat>, front: seq<byte>, all: seq<byte>, picked: seq<byte>)
    requires Picks(at, all, picked)
    ensures Picks(Shift(at, |front|), front + all, picked)
  {
  }

  /** Elements in front of `all` that are all picked. */
  lemma {:induction false} PicksAfter(at: seq<nat>, front: seq<byte>, all: seq<byte>, picked: seq<byte>) returns (r: seq<nat>)
    requires Picks(at, all, picked)
    ensures Picks(r, front + all, front + picked)
  {
    r := seq(|front|, k requires 0 <= k < |front| => k) + Shift(at, |front|);
  }

  /** One step moves bytes between a slot's ring and its reader, or drops them:
      nothing else changes the ring unless the slot is reserved anew. */
  lemma {:induction false} StepMovesBytes(slots: seq<Slot>, op: Op, i: nat)
    requires InRange(slots, op) && i < |slots|
    requires !(op.Reserves? && FirstIndex(slots, Free) == i)
    requires |slots[i].unread| <= CAPACITY - 1
    ensures
      var drop := Overflow(slots[i].unread, Written(slots, op, i));
      var all := slots[i].unread + Written(slots, op, i);
      && drop <= |all|
      && all[drop..] == Delivered(slots, op, i) + Apply(slots, op)[i].unread
      && |Apply(slots, op)[i].unread| <= CAPACITY - 1
  {
    var unread := slots[i].unread;
    if op.Reads? && op.id == i && slots[i].used {
      assert unread == unread[..Taken(slots, i, op.length)] + unread[Taken(slots, i, op.length)..];
    } else {
      assert unread + [] == unread;
      assert [] + Apply(slots, op)[i].unread == Apply(slots, op)[i].unread;
    }
  }

  /** The stream of a slot over any run in which it keeps serving one session:
      what was read, followed by what is still unread, is what was there and what
      was written, in order, with some bytes left out. */
  lemma {:induction false} StreamIsSubsequence(slots: seq<Slot>, ops: seq<Op>, i: nat) returns (at: seq<nat>)
    requires Runs(slots, ops) && i < |slots| && KeepsSlot(slots, ops, i)
    requires |slots[i].unread| <= CAPACITY - 1
    ensures Picks(at, slots[i].unread + AllWritten(slots, ops, i),
                  AllDelivered(slots, ops, i) + ApplyAll(slots, ops)[i].unread)
    decreases |ops|
  {
    if ops == [] {
      at := PicksAfter([], slots[i].unread, [], []);
      assert slots[i].unread + [] == slots[i].unread && [] + slots[i].unread == slots[i].unread;
    } else {
      var next := Apply(slots, ops[0]);
      assert |next[i].unread| <= CAPACITY - 1 by {
        StepMovesBytes(slots, ops[0], i);
      }
      var later := StreamIsSubsequence(next, ops[1..], i);
      at := StreamStep(slots, ops, i, later);
    }
  }

  lemma {:induction false} StreamStep(slots: seq<Slot>, ops: seq<Op>, i: nat, later: seq<nat>) returns (at: seq<nat>)
    requires ops != [] && Runs(slots, ops) && i < |slots|
    requires !(ops[0].Reserves? && FirstIndex(slots, Free) == i)
    requires |slots[i].unread| <= CAPACITY - 1
    requires
      var next := Apply(slots, ops[0]);
      Picks(later, next[i].unread + AllWritten(next, ops[1..], i),
            AllDelivered(next, ops[1..], i) + ApplyAll(next, ops[1..])[i].unread)
    ensures Picks(at, slots[i].unread + AllWritten(slots, ops, i),
                  AllDelivered(slots, ops, i) + ApplyAll(slots, ops)[i].unread)
  {
    var next := Apply(slots, ops[0]);
    var unread, written, delivered := slots[i].unread, Written(slots, ops[0], i), Delivered(slots, ops[0], i);
    var left, writtenLater := next[i].unread, AllWritten(next, ops[1..], i);
    var deliveredLater, end := AllDelivered(next, ops[1..], i), ApplyAll(next, ops[1..])[i].unread;
    assert AllWritten(slots, ops, i) == written + writtenLater;
    assert AllDelivered(slots, ops, i) == delivered + deliveredLater;
    StepMovesBytes(slots, ops[0], i);
    at := StreamJoin(unread, written, Overflow(unread, written), delivered, left, writtenLater, deliveredLater, end, later);
  }

  lemma {:induction false} StreamJoin(
    unread: seq<byte>, written: seq<byte>, drop: nat, delivered: seq<byte>, left: seq<byte>,
    writtenLater: seq<byte>, deliveredLater: seq<byte>, end: seq<byte>, later: seq<nat>)
    returns (at: seq<nat>)
    requires drop <= |unread + written|
    requires (unread + written)[drop..] == delivered + left
    requires Picks(later, left + writtenLater, deliveredLater + end)
    ensures Picks(at, unread + (written + writtenLater), (delivered + deliveredLater) + end)
  {
    at := PicksAfter(later, delivered, left + writtenLater, deliveredLater + end);
    PicksBehind(at, (unread + written)[..drop], delivered + (left + writtenLater), delivered + (deliveredLater + end));
    at := Shift(at, drop);
    Rejoin(unread, written, drop, delivered, left, writtenLater);
    assert delivered + (deliveredLater + end) == (delivered + deliveredLater) + end;
  }

  lemma {:induction false} Rejoin(unread: seq<byte>, written: seq<byte>, drop: nat, delivered: seq<byte>, left: seq<byte>, later: seq<byte>)
    requires drop <= |unread + written| && (unread + written)[drop..] == delivered + left
    ensures (unread + written)[..drop] + (delivered + (left + later)) == unread + (written + later)
  {
    var all := unread + written;
    assert all == all[..drop] + all[drop..];
    assert all[..drop] + (delivered + (left + later)) == (all[..drop] + (delivered + left)) + later;
    assert all + later == unread + (written + later);
  }

  /** Conservation: every byte is delivered, still unread, or counted as dropped. */
  lemma {:induction false} StreamIsConserved(slots: seq<Slot>, ops: seq<Op>, i: nat)
    requires Runs(slots, ops) && i < |slots| && KeepsSlot(slots, ops, i)
    requires |slots[i].unread| <= CAPACITY - 1
    ensures |slots[i].unread| + |AllWritten(slots, ops, i)|
         == |AllDelivered(slots, ops, i)| + |ApplyAll(slots, ops)[i].unread| + AllDropped(slots, ops, i)
    decreases |ops|
  {
    if ops != [] {
      StepMovesBytes(slots, ops[0], i);
      StreamIsConserved(Apply(slots, ops[0]), ops[1..], i);
    }
  }

  lemma {:induction false} PicksAreLate(at: seq<nat>, all: seq<byte>, picked: seq<byte>, k: nat)
    requires Picks(at, all, picked) && k < |at|
    ensures at[k] >= k
  {
    if k > 0 {
      PicksAreLate(at, all, picked, k - 1);
    }
  }

  lemma {:induction false} PicksAreEarly(at: seq<nat>, all: seq<byte>, picked: seq<byte>, k: nat)
    requires Picks(at, all, picked) && k < |at| == |all|
    ensures at[k] <= k
    decreases |at| - k
  {
    if k + 1 < |at| {
      PicksAreEarly(at, all, picked, k + 1);
    }
  }

  lemma {:induction false} PickingAllIsEquality(at: seq<nat>, all: seq<byte>, picked: seq<byte>)
    requires Picks(at, all, picked) && |picked| == |all|
    ensures picked == all
  {
    forall k | 0 <= k < |all|
      ensures picked[k] == all[k]
    {
      PicksAreLate(at, all, picked, k);
      PicksAreEarly(at, all, picked, k);
    }
  }

  /** A session that was reserved empty delivers exactly what it was sent, up to
      what is still unread, if and only if its ring never overflowed. */
  lemma {:induction false} LosslessExactlyWithoutOverflow(slots: seq<Slot>, ops: seq<Op>, i: nat)
    requires Runs(slots, ops) && i < |slots| && KeepsSlot(slots, ops, i)
    requires slots[i].unread == []
    ensures AllDelivered(slots, ops, i) + ApplyAll(slots, ops)[i].unread == AllWritten(slots, ops, i)
       <==> AllDropped(slots, ops, i) == 0
  {
    var at := StreamIsSubsequence(slots, ops, i);
    StreamIsConserved(slots, ops, i);
    var written := AllWritten(slots, ops, i);
    assert slots[i].unread + written == written;
    if AllDropped(slots, ops, i) == 0 {
      PickingAllIsEquality(at, written, AllDelivered(slots, ops, i) + ApplyAll(slots, ops)[i].unread);
    }
  }

  // ---------------------------------------------------------------------------
  // Whose output a session reads
  // ---------------------------------------------------------------------------

  /** How far an open has come: it has reserved its slot; given the slot its
      terminal; returned the slot as a handle; failed, or had its handle closed. */
  datatype Phase = Pending | Attached | Returned | Done

  datatype Opening = Opening(slot: nat, phase: Phase, tty: Option<Tty>)

  predicate Live(o: Opening) {
    !o.phase.Done?
  }

  /** The table, and every open that has reserved a slot in it, by number. */
  datatype World = World(slots: seq<Slot>, openings: seq<Opening>)

  /** The steps of openers, of those who hold the handles, and of the guest. */
  datatype Call =
    | Opens
    | Gives(who: nat, given: Tty, pid: int)
    | Fails(who: nat)
    | Hands(who: nat)
    | ClosesHandle(who: nat)
    | ReadsHandle(who: nat, length: nat)
    | Prints(from: Tty, bytes: seq<byte>)
    | Exits(pid: int, code: int)

  /** What a call does to the table. Returning the handle does nothing to it. */
  function OpOf(w: World, c: Call): Option<Op>
    requires Named(w, c)
  {
    match c
    case Opens => Some(Reserves)
    case Gives(who, tty, pid) => Some(Attaches(w.openings[who].slot, tty, pid))
    case Fails(who) => Some(Aborts(w.openings[who].slot))
    case Hands(_) => None
    case ClosesHandle(who) => Some(Closes(w.openings[who].slot))
    case ReadsHandle(who, length) => Some(Reads(w.openings[who].slot, length))
    case Prints(tty, bytes) => Some(GuestWrites(tty, bytes))
    case Exits(pid, code) => Some(GuestExits(pid, code))
  }

  predicate Named(w: World, c: Call) {
    !c.Opens? && !c.Prints? && !c.Exits? ==> c.who < |w.openings|
  }

  /** An opener goes through its phases in order; a handle may be used by anyone who
      has it, at any time. The allocator is safe. */
  predicate Legal(w: World, c: Call) {
    && Named(w, c)
    && (c.Gives? ==> w.openings[c.who].phase.Pending?)
    && (c.Fails? ==> w.openings[c.who].phase.Pending? || w.openings[c.who].phase.Attached?)
    && (c.Hands? ==> w.openings[c.who].phase.Attached?)
    && (OpOf(w, c).Some? ==> InRange(w.slots, OpOf(w, c).value) && AllocatorSafe(w.slots, OpOf(w, c).value))
  }

  function Moved(w: World, c: Call): (openings: seq<Opening>)
    requires Named(w, c)
    ensures |openings| >= |w.openings|
  {
    var all := w.openings;
    match c
    case Opens =>
      var i := FirstIndex(w.slots, Free);
      if i == |w.slots| then all else all + [Opening(i, Pending, None)]
    case Gives(who, tty, _) => all[who := all[who].(phase := Attached, tty := Some(tty))]
    case Fails(who) => all[who := all[who].(phase := Done)]
    case Hands(who) => all[who := all[who].(phase := Returned)]
    case ClosesHandle(who) => if all[who].phase.Returned? then all[who := all[who].(phase := Done)] else all
    case ReadsHandle(_, _) => all
    case Prints(_, _) => all
    case Exits(_, _) => all
  }

  function Do(w: World, c: Call): World
    requires Legal(w, c)
  {
    World(if OpOf(w, c).Some? then Apply(w.slots, OpOf(w, c).value) else w.slots, Moved(w, c))
  }

  ghost predicate AllLegal(w: World, calls: seq<Call>)
    decreases |calls|
  {
    calls != [] ==> Legal(w, calls[0]) && AllLegal(Do(w, calls[0]), calls[1..])
  }

  function DoAll(w: World, calls: seq<Call>): World
    requires AllLegal(w, calls)
    decreases |calls|
  {
    if calls == [] then w else DoAll(Do(w, calls[0]), calls[1..])
  }

  function FreshSlots(): (slots: seq<Slot>)
    ensures |slots| == MAX_SESSIONS
    ensures forall i :: 0 <= i < |slots| ==> slots[i] == Slot(false, None, 0, 0, [])
  {
    seq(MAX_SESSIONS, _ => Slot(false, None, 0, 0, []))
  }

  const FreshWorld := World(FreshSlots(), [])

  /** A slot has one opener or holder at most, and holds its terminal. */
  ghost predicate OneEach(w: World) {
    && (forall o <- w.openings :: o.slot < |w.slots|)
    && (forall o <- w.openings :: Live(o) ==>
          w.slots[o.slot].used && w.slots[o.slot].tty == o.tty && (o.phase.Pending? <==> o.tty.None?))
    && (forall a, b :: 0 <= a < b < |w.openings| && Live(w.openings[a]) && Live(w.openings[b]) ==>
          w.openings[a].slot != w.openings[b].slot)
  }

  /** A step that leaves who holds a slot with which terminal as it was. */
  lemma {:induction false} HeldAlike(w: World, slots: seq<Slot>)
    requires OneEach(w) && |slots| == |w.slots|
    requires forall i :: 0 <= i < |slots| ==> slots[i].used == w.slots[i].used && slots[i].tty == w.slots[i].tty
    ensures OneEach(w.(slots := slots))
  {
  }

  lemma {:induction false} OpeningKeepsOneEach(w: World)
    requires OneEach(w)
    ensures OneEach(Do(w, Opens))
  {
    var i := FirstIndex(w.slots, Free);
    var r := Do(w, Opens);
    if i < |w.slots| {
      forall o <- r.openings
        ensures o in w.openings || o == Opening(i, Pending, None)
      {
      }
    }
  }

  /** One opener or holder moves on, and its slot with it. */
  lemma {:induction false} MovingKeepsOneEach(w: World, who: nat, o: Opening, slot: Slot)
    requires OneEach(w) && who < |w.openings| && Live(w.openings[who]) && o.slot == w.openings[who].slot
    requires Live(o) ==> slot.used && slot.tty == o.tty && (o.phase.Pending? <==> o.tty.None?)
    ensures OneEach(World(w.slots[o.slot := slot], w.openings[who := o]))
  {
    var r := World(w.slots[o.slot := slot], w.openings[who := o]);
    forall k | 0 <= k < |r.openings| && k != who && Live(r.openings[k])
      ensures r.openings[k].slot != o.slot
    {
    }
  }

  /** A handle is closed once at most, and only after the open that returned it. */
  predicate ClosesOnce(w: World, c: Call) {
    c.ClosesHandle? ==> c.who < |w.openings| && w.openings[c.who].phase.Returned?
  }

  ghost predicate AllCloseOnce(w: World, calls: seq<Call>)
    requires AllLegal(w, calls)
    decreases |calls|
  {
    calls != [] ==> ClosesOnce(w, calls[0]) && AllCloseOnce(Do(w, calls[0]), calls[1..])
  }

  /** Some opener or holder has slot `i`. */
  ghost predicate HasHolder(w: World, i: nat) {
    exists o <- w.openings :: Live(o) && o.slot == i
  }

  /** A close out of turn, of a handle already closed or not returned yet, takes the
      slot from whoever has it. */
  ghost predicate SparesOthers(w: World, c: Call)
    requires Legal(w, c)
  {
    c.ClosesHandle? ==> w.openings[c.who].phase.Returned? || !HasHolder(w, w.openings[c.who].slot)
  }

  lemma {:induction false} CloseInTurnKeepsOneEach(w: World, c: Call)
    requires OneEach(w) && Legal(w, c) && ClosesOnce(w, c)
    ensures OneEach(Do(w, c))
  {
    if c.Opens? {
      OpeningKeepsOneEach(w);
    } else if c.Prints? || c.Exits? || c.ReadsHandle? {
      HeldAlike(w, Do(w, c).slots);
    } else {
      var i := w.openings[c.who].slot;
      var r := Do(w, c);
      assert r.slots == w.slots[i := r.slots[i]];
      MovingKeepsOneEach(w, c.who, r.openings[c.who], r.slots[i]);
    }
  }

  lemma {:induction false} StrayCloseKeepsOneEach(w: World, who: nat)
    requires OneEach(w) && Legal(w, ClosesHandle(who)) && !w.openings[who].phase.Returned?
    ensures OneEach(Do(w, ClosesHandle(who))) <==> !HasHolder(w, w.openings[who].slot)
  {
    var i, r := w.openings[who].slot, Do(w, ClosesHandle(who));
    assert r.openings == w.openings && !r.slots[i].used;
    if HasHolder(w, i) {
      var o :| o in r.openings && Live(o) && o.slot == i;
    } else {
      assert forall o <- r.openings :: Live(o) ==> r.slots[o.slot] == w.slots[o.slot];
    }
  }

  /** The invariant, exactly: a step keeps it if and only if it closes no handle out
      of turn under somebody who has the slot. */
  lemma {:induction false} CallKeepsOneEach(w: World, c: Call)
    requires OneEach(w) && Legal(w, c)
    ensures OneEach(Do(w, c)) <==> SparesOthers(w, c)
  {
    if ClosesOnce(w, c) {
      CloseInTurnKeepsOneEach(w, c);
    } else {
      StrayCloseKeepsOneEach(w, c.who);
    }
  }

  lemma {:induction false} CallKeepsConsistent(w: World, c: Call)
    requires Consistent(w.slots) && Legal(w, c)
    ensures Consistent(Do(w, c).slots)
  {
    if OpOf(w, c).Some? {
      StepKeepsConsistent(w.slots, OpOf(w, c).value);
    }
  }

  lemma {:induction false} RunKeepsOneEach(w: World, calls: seq<Call>)
    requires OneEach(w) && Consistent(w.slots) && AllLegal(w, calls) && AllCloseOnce(w, calls)
    ensures OneEach(DoAll(w, calls)) && Consistent(DoAll(w, calls).slots)
    decreases |calls|
  {
    if calls != [] {
      CallKeepsOneEach(w, calls[0]);
      CallKeepsConsistent(w, calls[0]);
      RunKeepsOneEach(Do(w, calls[0]), calls[1..]);
    }
  }

  /** No slot is lost: what is used has an opener or a holder. */
  ghost predicate NoneLost(w: World) {
    forall i :: 0 <= i < |w.slots| && w.slots[i].used ==> HasHolder(w, i)
  }

  lemma {:induction false} StillHeld(w: World, c: Call, i: nat)
    requires OneEach(w) && Legal(w, c) && i < |w.slots| && HasHolder(w, i)
    ensures HasHolder(Do(w, c), i) || !Do(w, c).slots[i].used
  {
    var o :| o in w.openings && Live(o) && o.slot == i;
    var k :| 0 <= k < |w.openings| && w.openings[k] == o;
    var after := Do(w, c).openings[k];
    assert after in Do(w, c).openings && after.slot == i;
  }

  /** Whatever is opened, given up, returned and closed, out of turn or not, no slot is
      lost. */
  lemma {:induction false} CallLosesNone(w: World, c: Call)
    requires OneEach(w) && NoneLost(w) && Legal(w, c)
    ensures NoneLost(Do(w, c))
  {
    var r := Do(w, c);
    forall i | 0 <= i < |r.slots| && r.slots[i].used
      ensures HasHolder(r, i)
    {
      if w.slots[i].used {
        StillHeld(w, c, i);
      } else {
        assert c.Opens? && FirstIndex(w.slots, Free) == i;
        assert r.openings[|w.openings|] == Opening(i, Pending, None);
      }
    }
  }

  lemma {:induction false} RunLosesNone(w: World, calls: seq<Call>)
    requires OneEach(w) && NoneLost(w) && AllLegal(w, calls) && AllCloseOnce(w, calls)
    ensures OneEach(DoAll(w, calls)) && NoneLost(DoAll(w, calls))
    decreases |calls|
  {
    if calls != [] {
      CallKeepsOneEach(w, calls[0]);
      CallLosesNone(w, calls[0]);
      RunLosesNone(Do(w, calls[0]), calls[1..]);
    }
  }

  ghost predicate AllUsed(slots: seq<Slot>) {
    forall i :: 0 <= i < |slots| ==> slots[i].used
  }

  lemma {:induction false} OpeningNeedsAFreeSlot(w: World)
    ensures Do(w, Opens).openings == w.openings <==> AllUsed(w.slots)
  {
    var free := FirstIndex(w.slots, Free);
    assert forall i :: 0 <= i < free ==> !Matches(w.slots[i], Free);
  }

  lemma {:induction false} HeldIsUsed(w: World, i: nat)
    requires OneEach(w) && i < |w.slots|
    ensures HasHolder(w, i) ==> w.slots[i].used
  {
  }

  lemma {:induction false} AllUsedIsAllHeld(w: World)
    requires OneEach(w) && NoneLost(w)
    ensures AllUsed(w.slots) <==> forall i :: 0 <= i < |w.slots| ==> HasHolder(w, i)
  {
    if forall i :: 0 <= i < |w.slots| ==> HasHolder(w, i) {
      forall i | 0 <= i < |w.slots|
        ensures w.slots[i].used
      {
        HeldIsUsed(w, i);
      }
    }
  }

  /** In every run that closes no handle twice, opening is refused exactly if every slot
      has an opener or a holder: a failed open, like a closed session, gives its slot
      back. */
  lemma {:induction false} RefusedExactlyWhenFull(calls: seq<Call>)
    requires AllLegal(FreshWorld, calls) && AllCloseOnce(FreshWorld, calls)
    ensures
      var w := DoAll(FreshWorld, calls);
      Do(w, Opens).openings == w.openings <==> forall i :: 0 <= i < |w.slots| ==> HasHolder(w, i)
  {
    FreshWorldIsOneEach();
    RunLosesNone(FreshWorld, calls);
    OpeningNeedsAFreeSlot(DoAll(FreshWorld, calls));
    AllUsedIsAllHeld(DoAll(FreshWorld, calls));
  }

  /** The exit of a session's process ends that session, and no other. */
  lemma {:induction false} ExitEndsItsSession(w: World, who: nat, pid: int, code: int)
    requires Serves(w, who) && RunsFirstIn(w.slots, pid, w.openings[who].slot)
    ensures
      var i, r := w.openings[who].slot, Do(w, Exits(pid, code));
      r.openings == w.openings && r.slots == w.slots[i := w.slots[i].(exitCode := code / 256)]
  {
    ExitIsRecorded(w.slots, pid, code, w.openings[who].slot);
  }

  lemma {:induction false} FreshWorldIsOneEach()
    ensures OneEach(FreshWorld) && Consistent(FreshWorld.slots)
  {
    FreshTableIsConsistent(FreshWorld.slots);
  }

  /** While a session lives its slot is not reserved anew, and no other terminal is
      given to it than the session's own. */
  lemma {:induction false} CallSparesSession(w: World, c: Call, who: nat)
    requires OneEach(w) && Legal(w, c) && who < |w.openings|
    requires Live(w.openings[who]) && Live(Do(w, c).openings[who])
    ensures
      var i, op := w.openings[who].slot, OpOf(w, c);
      && !(op == Some(Reserves) && FirstIndex(w.slots, Free) == i)
      && (op.Some? && op.value.Attaches? && op.value.id == i ==> Do(w, c).openings[who].tty == Some(op.value.given))
      && (w.openings[who].tty.Some? ==> Do(w, c).openings[who].tty == w.openings[who].tty)
  {
  }

  // What one opening reads, what its terminal prints, and what is lost on the way

  predicate Serves(w: World, who: nat) {
    who < |w.openings| && Live(w.openings[who]) && w.openings[who].slot < |w.slots|
  }

  /** What an opening could still read. */
  function UnreadOf(w: World, who: nat): seq<byte> {
    if Serves(w, who) then w.slots[w.openings[who].slot].unread else []
  }

  /** What the terminal of an opening prints in one step, while the opening lives. */
  function PrintedStep(w: World, c: Call, who: nat): seq<byte> {
    if c.Prints? && Serves(w, who) && w.openings[who].tty == Some(c.from) then c.bytes else []
  }

  /** What the handle of an opening, and no other, gets in one step. */
  function ReadStep(w: World, c: Call, who: nat): seq<byte>
    requires Legal(w, c)
  {
    if c.ReadsHandle? && c.who == who then Delivered(w.slots, OpOf(w, c).value, w.openings[who].slot) else []
  }

  /** How many bytes of an opening are overwritten, or unread when it ends. */
  function LostStep(w: World, c: Call, who: nat): nat
    requires Legal(w, c)
  {
    if Serves(w, who) && !Serves(Do(w, c), who) then |UnreadOf(w, who)|
    else Overflow(UnreadOf(w, who), PrintedStep(w, c, who))
  }

  /** Nothing is invented, taken or mixed up: what the opening could read and what its
      terminal prints, less what is lost, is what its handle gets and what it could
      read then. */
  predicate KeepsStream(w: World, c: Call, who: nat)
    requires Legal(w, c)
  {
    var all := UnreadOf(w, who) + PrintedStep(w, c, who);
    && LostStep(w, c, who) <= |all|
    && all[LostStep(w, c, who)..] == ReadStep(w, c, who) + UnreadOf(Do(w, c), who)
  }

  ghost predicate KeepsStreams(w: World, c: Call)
    requires Legal(w, c)
  {
    forall who: nat :: KeepsStream(w, c, who)
  }

  /** A step that harms nobody: it closes no handle out of turn under somebody who has
      the slot, and reads none out of turn where there is something to read. */
  ghost predicate Harmless(w: World, c: Call)
    requires Legal(w, c)
  {
    && SparesOthers(w, c)
    && (c.ReadsHandle? ==>
          || Live(w.openings[c.who]) || c.length == 0
          || !w.slots[w.openings[c.who].slot].used || w.slots[w.openings[c.who].slot].unread == [])
  }

  /** A read out of turn that finds nothing changes nothing. */
  lemma {:induction false} EmptyReadChangesNothing(slots: seq<Slot>, i: nat, length: nat)
    requires i < |slots| && (length == 0 || !slots[i].used || slots[i].unread == [])
    ensures Apply(slots, Reads(i, length)) == slots && Delivered(slots, Reads(i, length), i) == []
  {
  }

  lemma {:induction false} NothingMoves(w: World, c: Call, who: nat)
    requires Legal(w, c) && PrintedStep(w, c, who) == [] && ReadStep(w, c, who) == []
    requires UnreadOf(Do(w, c), who) == UnreadOf(w, who)
    requires LostStep(w, c, who) == 0
    ensures KeepsStream(w, c, who)
  {
    var all := UnreadOf(w, who);
    assert (all + [])[0..] == [] + all;
  }

  /** Two that live have different slots. */
  lemma {:induction false} SlotsApart(w: World, a: nat, b: nat)
    requires OneEach(w) && Serves(w, a) && Serves(w, b) && a != b
    ensures w.openings[a].slot != w.openings[b].slot
  {
  }

  lemma {:induction false} ServesWith(w: World, who: nat)
    requires OneEach(w) && Serves(w, who)
    ensures
      var o := w.openings[who];
      w.slots[o.slot].used && w.slots[o.slot].tty == o.tty
  {
    assert w.openings[who] in w.openings;
  }

  lemma {:induction false} ReadKeepsStream(w: World, c: Call, who: nat)
    requires OneEach(w) && Consistent(w.slots) && Legal(w, c) && Harmless(w, c) && c.ReadsHandle?
    ensures KeepsStream(w, c, who)
  {
    var o := w.openings[c.who];
    assert o in w.openings;
    if !Live(o) {
      EmptyReadChangesNothing(w.slots, o.slot, c.length);
      NothingMoves(w, c, who);
    } else if who == c.who {
      var unread := w.slots[o.slot].unread;
      assert unread + [] == unread;
      assert unread == unread[..Taken(w.slots, o.slot, c.length)] + unread[Taken(w.slots, o.slot, c.length)..];
    } else {
      if Serves(w, who) {
        SlotsApart(w, c.who, who);
      }
      NothingMoves(w, c, who);
    }
  }

  lemma {:induction false} PrintKeepsStream(w: World, c: Call, who: nat)
    requires OneEach(w) && Consistent(w.slots) && Legal(w, c) && c.Prints?
    ensures KeepsStream(w, c, who)
  {
    if Serves(w, who) {
      var i := w.openings[who].slot;
      ServesWith(w, who);
      if w.openings[who].tty == Some(c.from) {
        GuestWriteReachesItsOwner(w.slots, c.from, c.bytes, i);
        var kept := WriteQueue(w.slots[i].unread, c.bytes);
        assert [] + kept == kept;
      } else {
        assert FirstIndex(w.slots, OwnerOf(c.from)) != i;
        NothingMoves(w, c, who);
      }
    } else {
      NothingMoves(w, c, who);
    }
  }

  lemma {:induction false} OpenKeepsStream(w: World, who: nat)
    requires OneEach(w) && Consistent(w.slots) && Legal(w, Opens)
    ensures KeepsStream(w, Opens, who)
  {
    if Serves(w, who) {
      ServesWith(w, who);
    }
    NothingMoves(w, Opens, who);
  }

  /** The other steps leave what is unread alone, unless they end the opening. */
  lemma {:induction false} QuietKeepsStream(w: World, c: Call, who: nat)
    requires OneEach(w) && Consistent(w.slots) && Legal(w, c) && !c.ReadsHandle? && !c.Prints? && !c.Opens?
    ensures KeepsStream(w, c, who)
  {
    var unread := UnreadOf(w, who);
    if Serves(w, who) && !Serves(Do(w, c), who) {
      assert unread + [] == unread && unread[|unread|..] == [];
    } else {
      QuietStays(w, c, who);
      NothingMoves(w, c, who);
    }
  }

  lemma {:induction false} QuietStays(w: World, c: Call, who: nat)
    requires OneEach(w) && Legal(w, c) && !c.ReadsHandle? && !c.Prints? && !c.Opens?
    requires Serves(w, who) ==> Serves(Do(w, c), who)
    ensures UnreadOf(Do(w, c), who) == UnreadOf(w, who)
  {
  }

  lemma {:induction false} CallKeepsStream(w: World, c: Call, who: nat)
    requires OneEach(w) && Consistent(w.slots) && Legal(w, c) && Harmless(w, c)
    ensures KeepsStream(w, c, who)
  {
    if c.ReadsHandle? {
      ReadKeepsStream(w, c, who);
    } else if c.Prints? {
      PrintKeepsStream(w, c, who);
    } else if c.Opens? {
      OpenKeepsStream(w, who);
    } else {
      QuietKeepsStream(w, c, who);
    }
  }

  /** The condition is exact: a step keeps the invariant and everybody's stream if and
      only if it harms nobody. */
  lemma {:induction false} HarmlessExactly(w: World, c: Call)
    requires OneEach(w) && Consistent(w.slots) && Legal(w, c)
    ensures OneEach(Do(w, c)) && KeepsStreams(w, c) <==> Harmless(w, c)
  {
    CallKeepsOneEach(w, c);
    if Harmless(w, c) {
      forall who: nat
        ensures KeepsStream(w, c, who)
      {
        CallKeepsStream(w, c, who);
      }
    } else if SparesOthers(w, c) {
      StrayReadIsHarm(w, c);
      assert !KeepsStream(w, c, c.who);
    }
  }

  /** A handle that is read out of turn gets bytes that were never its own. */
  lemma {:induction false} StrayReadIsHarm(w: World, c: Call)
    requires OneEach(w) && Legal(w, c) && c.ReadsHandle? && !Harmless(w, c)
    ensures !KeepsStream(w, c, c.who)
  {
    var i := w.openings[c.who].slot;
    assert |Delivered(w.slots, Reads(i, c.length), i)| > 0;
  }

  // Whole runs

  ghost predicate AllHarmless(w: World, calls: seq<Call>)
    requires AllLegal(w, calls)
    decreases |calls|
  {
    calls != [] ==> Harmless(w, calls[0]) && AllHarmless(Do(w, calls[0]), calls[1..])
  }

  /** Every step keeps the invariant and everybody's stream. */
  ghost predicate AllSound(w: World, calls: seq<Call>)
    requires AllLegal(w, calls)
    decreases |calls|
  {
    calls != [] ==>
      && OneEach(Do(w, calls[0])) && KeepsStreams(w, calls[0])
      && AllSound(Do(w, calls[0]), calls[1..])
  }

  lemma {:induction false} RunIsSoundExactly(w: World, calls: seq<Call>)
    requires OneEach(w) && Consistent(w.slots) && AllLegal(w, calls)
    ensures AllSound(w, calls) <==> AllHarmless(w, calls)
    decreases |calls|
  {
    if calls != [] {
      HarmlessExactly(w, calls[0]);
      CallKeepsConsistent(w, calls[0]);
      if Harmless(w, calls[0]) {
        RunIsSoundExactly(Do(w, calls[0]), calls[1..]);
      }
    }
  }

  /** A handle is closed once at most, and neither closed nor read except between its
      return and its close. */
  predicate InTurn(w: World, c: Call) {
    c.ClosesHandle? || c.ReadsHandle? ==> c.who < |w.openings| && w.openings[c.who].phase.Returned?
  }

  ghost predicate AllInTurn(w: World, calls: seq<Call>)
    requires AllLegal(w, calls)
    decreases |calls|
  {
    calls != [] ==> InTurn(w, calls[0]) && AllInTurn(Do(w, calls[0]), calls[1..])
  }

  lemma {:induction false} InTurnIsHarmless(w: World, calls: seq<Call>)
    requires AllLegal(w, calls) && AllInTurn(w, calls)
    ensures AllHarmless(w, calls)
    decreases |calls|
  {
    if calls != [] {
      InTurnIsHarmless(Do(w, calls[0]), calls[1..]);
    }
  }

  /** What the terminal of an opening printed while the opening lived. */
  function PrintedFor(w: World, calls: seq<Call>, who: nat): seq<byte>
    requires AllLegal(w, calls)
    decreases |calls|
  {
    if calls == [] then [] else PrintedStep(w, calls[0], who) + PrintedFor(Do(w, calls[0]), calls[1..], who)
  }

  /** What the handle of an opening was given by its own reads. */
  function ReadBy(w: World, calls: seq<Call>, who: nat): seq<byte>
    requires AllLegal(w, calls)
    decreases |calls|
  {
    if calls == [] then [] else ReadStep(w, calls[0], who) + ReadBy(Do(w, calls[0]), calls[1..], who)
  }

  function LostBy(w: World, calls: seq<Call>, who: nat): nat
    requires AllLegal(w, calls)
    decreases |calls|
  {
    if calls == [] then 0 else LostStep(w, calls[0], who) + LostBy(Do(w, calls[0]), calls[1..], who)
  }

  lemma {:induction false} RunKeepsStream(w: World, calls: seq<Call>, who: nat) returns (at: seq<nat>)
    requires OneEach(w) && Consistent(w.slots) && AllLegal(w, calls) && AllHarmless(w, calls)
    ensures Picks(at, UnreadOf(w, who) + PrintedFor(w, calls, who), ReadBy(w, calls, who) + UnreadOf(DoAll(w, calls), who))
    ensures |UnreadOf(w, who)| + |PrintedFor(w, calls, who)|
         == |ReadBy(w, calls, who)| + |UnreadOf(DoAll(w, calls), who)| + LostBy(w, calls, who)
    decreases |calls|
  {
    var unread := UnreadOf(w, who);
    if calls == [] {
      at := PicksAfter([], unread, [], []);
      assert unread + [] == unread && [] + unread == unread;
    } else {
      var c, next := calls[0], Do(w, calls[0]);
      CallKeepsOneEach(w, c);
      CallKeepsConsistent(w, c);
      CallKeepsStream(w, c, who);
      var later := RunKeepsStream(next, calls[1..], who);
      at := StreamJoin(unread, PrintedStep(w, c, who), LostStep(w, c, who), ReadStep(w, c, who), UnreadOf(next, who),
                       PrintedFor(next, calls[1..], who), ReadBy(next, calls[1..], who), UnreadOf(DoAll(w, calls), who), later);
    }
  }

  /** In every run from the start in which every handle is closed once at most, and
      neither closed nor read except between its return and its close, every session
      reads its own terminal's output and nothing else: what its handle was given,
      followed by what it could still read, is what its terminal printed while it
      lived, in order; all of it if and only if nothing was overwritten, or unread
      when it ended. */
  lemma {:induction false} SessionReadsItsOwnOutput(calls: seq<Call>, who: nat) returns (at: seq<nat>)
    requires AllLegal(FreshWorld, calls) && AllInTurn(FreshWorld, calls)
    ensures
      var printed := PrintedFor(FreshWorld, calls, who);
      var read := ReadBy(FreshWorld, calls, who) + UnreadOf(DoAll(FreshWorld, calls), who);
      && Picks(at, printed, read)
      && (read == printed <==> LostBy(FreshWorld, calls, who) == 0)
  {
    FreshWorldIsOneEach();
    InTurnIsHarmless(FreshWorld, calls);
    at := RunKeepsStream(FreshWorld, calls, who);
    var printed := PrintedFor(FreshWorld, calls, who);
    assert [] + printed == printed;
    if LostBy(FreshWorld, calls, who) == 0 {
      PickingAllIsEquality(at, printed, ReadBy(FreshWorld, calls, who) + UnreadOf(DoAll(FreshWorld, calls), who));
    }
  }

  /** A session starts empty: when its terminal is attached nothing is in its ring,
      whatever the slot was used for before. */
  lemma {:induction false} ReusedSlotStartsEmpty(before: seq<Call>, who: nat, tty: Tty, pid: int)
    requires AllLegal(FreshWorld, before) && AllCloseOnce(FreshWorld, before)
    requires Legal(DoAll(FreshWorld, before), Gives(who, tty, pid))
    ensures
      var r := Do(DoAll(FreshWorld, before), Gives(who, tty, pid));
      var i := r.openings[who].slot;
      i < |r.slots| && r.slots[i].used && r.slots[i].tty == Some(tty) && r.slots[i].unread == []
  {
    FreshWorldIsOneEach();
    RunKeepsOneEach(FreshWorld, before);
    GivenStartsEmpty(DoAll(FreshWorld, before), who, tty, pid);
  }

  lemma {:induction false} GivenStartsEmpty(w: World, who: nat, tty: Tty, pid: int)
    requires OneEach(w) && Consistent(w.slots) && Legal(w, Gives(who, tty, pid))
    ensures
      var r := Do(w, Gives(who, tty, pid));
      var i := r.openings[who].slot;
      i < |r.slots| && r.slots[i].used && r.slots[i].tty == Some(tty) && r.slots[i].unread == []
  {
    assert w.openings[who] in w.openings;
  }

  /** The first slot in a state, with the others as they were at the start. */
  function First(slot: Slot, openings: seq<Opening>): World {
    World(FreshSlots()[0 := slot], openings)
  }

  lemma {:induction false} CallStep(w: World, c: Call, rest: seq<Call>, end: World)
    requires Legal(w, c) && AllLegal(Do(w, c), rest) && DoAll(Do(w, c), rest) == end
    ensures AllLegal(w, [c] + rest) && DoAll(w, [c] + rest) == end
    ensures ClosesOnce(w, c) && AllCloseOnce(Do(w, c), rest) ==> AllCloseOnce(w, [c] + rest)
  {
    assert ([c] + rest)[1..] == rest;
  }

  /** A session is opened and closed, and the next open reserves its slot. */
  function OpenCloseOpen(tty: Tty): seq<Call> {
    [Opens] + ([Gives(0, tty, 1)] + ([Hands(0)] + ([ClosesHandle(0)] + ([Opens] + []))))
  }

  /** The first handle is closed once more, and a third open reserves the slot. */
  function CloseAgain(second: Tty, third: Tty, b: byte): seq<Call> {
    [ClosesHandle(0)] + ([Opens] + ([Gives(1, second, 2)] + ([Prints(second, [b])] + ([Gives(2, third, 3)] + ([Hands(2)] + [])))))
  }

  function Reopened(first: Tty): World {
    First(Slot(true, None, 0, -1, []), [Opening(0, Done, Some(first)), Opening(0, Pending, None)])
  }

  function Mixed(first: Tty, second: Tty, third: Tty, b: byte): World {
    First(Slot(true, Some(third), 3, -1, [b]),
          [Opening(0, Done, Some(first)), Opening(0, Attached, Some(second)), Opening(0, Returned, Some(third))])
  }

  /** The condition is needed: one handle closed twice is enough. By the second close
      its number names the slot of a second open that is still pending; a third open
      reserves that slot as well, the second one gives it its terminal, and the third
      session starts out with what the second one's guest printed. */
  lemma {:induction false} DoubleCloseMixesSessions(first: Tty, second: Tty, third: Tty, b: byte)
    requires second != third
    ensures
      var once, twice := OpenCloseOpen(first), CloseAgain(second, third, b);
      && AllLegal(FreshWorld, once) && AllCloseOnce(FreshWorld, once)
      && DoAll(FreshWorld, once) == Reopened(first)
      && AllLegal(Reopened(first), twice)
      && DoAll(Reopened(first), twice) == Mixed(first, second, third, b)
  {
    OpenedClosedOpened(first);
    ClosedAgain(first, second, third, b);
  }

  lemma {:induction false} OpenedClosedOpened(tty: Tty)
    ensures
      var calls := OpenCloseOpen(tty);
      AllLegal(FreshWorld, calls) && AllCloseOnce(FreshWorld, calls) && DoAll(FreshWorld, calls) == Reopened(tty)
  {
    var w1 := First(Slot(true, None, 0, -1, []), [Opening(0, Pending, None)]);
    var w2 := First(Slot(true, Some(tty), 1, -1, []), [Opening(0, Attached, Some(tty))]);
    var rest := [Hands(0)] + ([ClosesHandle(0)] + ([Opens] + []));
    assert Do(FreshWorld, Opens) == w1;
    assert Legal(w1, Gives(0, tty, 1)) && Do(w1, Gives(0, tty, 1)) == w2;
    HandedClosedOpened(tty);
    CallStep(w1, Gives(0, tty, 1), rest, Reopened(tty));
    CallStep(FreshWorld, Opens, [Gives(0, tty, 1)] + rest, Reopened(tty));
  }

  lemma {:induction false} HandedClosedOpened(tty: Tty)
    ensures
      var w := First(Slot(true, Some(tty), 1, -1, []), [Opening(0, Attached, Some(tty))]);
      var calls := [Hands(0)] + ([ClosesHandle(0)] + ([Opens] + []));
      AllLegal(w, calls) && AllCloseOnce(w, calls) && DoAll(w, calls) == Reopened(tty)
  {
    var w2 := First(Slot(true, Some(tty), 1, -1, []), [Opening(0, Attached, Some(tty))]);
    var w3 := First(Slot(true, Some(tty), 1, -1, []), [Opening(0, Returned, Some(tty))]);
    var w4 := First(Slot(false, None, 1, -1, []), [Opening(0, Done, Some(tty))]);
    assert Legal(w2, Hands(0)) && Do(w2, Hands(0)) == w3;
    assert Legal(w3, ClosesHandle(0)) && Do(w3, ClosesHandle(0)) == w4;
    assert Do(w4, Opens) == Reopened(tty);
    CallStep(w4, Opens, [], Reopened(tty));
    CallStep(w3, ClosesHandle(0), [Opens] + [], Reopened(tty));
    CallStep(w2, Hands(0), [ClosesHandle(0)] + ([Opens] + []), Reopened(tty));
  }

  /** A second open and a third one wait for the same slot. */
  function Shared(first: Tty): World {
    var pending := Opening(0, Pending, None);
    First(Slot(true, None, 0, -1, []), [Opening(0, Done, Some(first)), pending, pending])
  }

  lemma {:induction false} ClosedAgain(first: Tty, second: Tty, third: Tty, b: byte)
    requires second != third
    ensures
      var w, calls := Reopened(first), CloseAgain(second, third, b);
      AllLegal(w, calls) && DoAll(w, calls) == Mixed(first, second, third, b)
  {
    var w0, w2, end := Reopened(first), Shared(first), Mixed(first, second, third, b);
    var w1 := First(Slot(false, None, 0, -1, []), [Opening(0, Done, Some(first)), Opening(0, Pending, None)]);
    assert Legal(w0, ClosesHandle(0)) && Do(w0, ClosesHandle(0)) == w1;
    assert Do(w1, Opens) == w2;
    var rest := [Gives(1, second, 2)] + ([Prints(second, [b])] + ([Gives(2, third, 3)] + ([Hands(2)] + [])));
    SharedSlotMixes(first, second, third, b);
    CallStep(w1, Opens, rest, end);
    CallStep(w0, ClosesHandle(0), [Opens] + rest, end);
  }

  lemma {:induction false} SharedSlotMixes(first: Tty, second: Tty, third: Tty, b: byte)
    requires second != third
    ensures
      var w := Shared(first);
      var calls := [Gives(1, second, 2)] + ([Prints(second, [b])] + ([Gives(2, third, 3)] + ([Hands(2)] + [])));
      AllLegal(w, calls) && DoAll(w, calls) == Mixed(first, second, third, b)
  {
    var done, attached := Opening(0, Done, Some(first)), Opening(0, Attached, Some(second));
    var w2, end := Shared(first), Mixed(first, second, third, b);
    var w3 := First(Slot(true, Some(second), 2, -1, []), [done, attached, Opening(0, Pending, None)]);
    var w4 := First(Slot(true, Some(second), 2, -1, [b]), [done, attached, Opening(0, Pending, None)]);
    var w5 := First(Slot(true, Some(third), 3, -1, [b]), [done, attached, Opening(0, Attached, Some(third))]);
    assert Legal(w2, Gives(1, second, 2)) && Do(w2, Gives(1, second, 2)) == w3;
    assert WriteQueue([], [b]) == [b];
    assert Do(w3, Prints(second, [b])) == w4;
    assert Legal(w4, Gives(2, third, 3)) && Do(w4, Gives(2, third, 3)) == w5;
    assert Legal(w5, Hands(2)) && Do(w5, Hands(2)) == end;
    var c5 := [Gives(2, third, 3)] + ([Hands(2)] + []);
    CallStep(w5, Hands(2), [], end);
    CallStep(w4, Gives(2, third, 3), [Hands(2)] + [], end);
    CallStep(w3, Prints(second, [b]), c5, end);
    CallStep(w2, Gives(1, second, 2), [Prints(second, [b])] + c5, end);
  }

  /** A third open is not needed either: the first handle, closed once, is read after
      the second open was given its slot. It gets what the second one's guest printed,
      and the second one misses it, though nothing was overwritten. */
  lemma {:induction false} LateReadTakesOutput(first: Tty, second: Tty, b: byte)
    ensures
      var w, late := Reopened(first), GiveAndReadLate(second, b);
      && AllLegal(FreshWorld, OpenCloseOpen(first)) && DoAll(FreshWorld, OpenCloseOpen(first)) == w
      && AllLegal(w, late) && AllCloseOnce(w, late)
      && DoAll(w, late).openings == [Opening(0, Done, Some(first)), Opening(0, Returned, Some(second))]
      && ReadBy(w, late, 0) == [b] && PrintedFor(w, late, 0) == []
      && ReadBy(w, late, 1) + UnreadOf(DoAll(w, late), 1) == [] && PrintedFor(w, late, 1) == [b]
      && LostBy(w, late, 1) == 0
  {
    OpenedClosedOpened(first);
    LateRun(first, second, b);
    LateStreams(first, second, b, 0);
    LateStreams(first, second, b, 1);
  }

  function GiveAndReadLate(second: Tty, b: byte): seq<Call> {
    [Gives(1, second, 2)] + ([Hands(1)] + ([Prints(second, [b])] + ([ReadsHandle(0, 1)] + [])))
  }

  lemma {:induction false} StreamsAhead(w: World, c: Call, rest: seq<Call>, who: nat)
    requires Legal(w, c) && AllLegal(Do(w, c), rest)
    ensures
      var calls := [c] + rest;
      && AllLegal(w, calls)
      && ReadBy(w, calls, who) == ReadStep(w, c, who) + ReadBy(Do(w, c), rest, who)
      && PrintedFor(w, calls, who) == PrintedStep(w, c, who) + PrintedFor(Do(w, c), rest, who)
      && LostBy(w, calls, who) == LostStep(w, c, who) + LostBy(Do(w, c), rest, who)
  {
    assert ([c] + rest)[1..] == rest;
  }

  /** The second session is held: with nothing unread, or with the byte it printed. */
  function SecondHeld(first: Tty, second: Tty, unread: seq<byte>): World {
    First(Slot(true, Some(second), 2, -1, unread), [Opening(0, Done, Some(first)), Opening(0, Returned, Some(second))])
  }

  lemma {:induction false} SecondSteps(first: Tty, second: Tty, b: byte) returns (attached: World)
    ensures
      var w, held, wrote := Reopened(first), SecondHeld(first, second, []), SecondHeld(first, second, [b]);
      && Legal(w, Gives(1, second, 2)) && Do(w, Gives(1, second, 2)) == attached
      && Legal(attached, Hands(1)) && Do(attached, Hands(1)) == held
      && Legal(held, Prints(second, [b])) && Do(held, Prints(second, [b])) == wrote
      && Legal(wrote, ReadsHandle(0, 1)) && Do(wrote, ReadsHandle(0, 1)) == held
    ensures attached.openings == [Opening(0, Done, Some(first)), Opening(0, Attached, Some(second))]
    ensures attached.slots == SecondHeld(first, second, []).slots
  {
    attached := First(Slot(true, Some(second), 2, -1, []), [Opening(0, Done, Some(first)), Opening(0, Attached, Some(second))]);
    assert WriteQueue([], [b]) == [b] && [b][1..] == [];
  }

  lemma {:induction false} LateRun(first: Tty, second: Tty, b: byte)
    ensures
      var w, late := Reopened(first), GiveAndReadLate(second, b);
      AllLegal(w, late) && AllCloseOnce(w, late) && DoAll(w, late) == SecondHeld(first, second, [])
  {
    var attached := SecondSteps(first, second, b);
    var held, wrote := SecondHeld(first, second, []), SecondHeld(first, second, [b]);
    var c2 := [Prints(second, [b])] + ([ReadsHandle(0, 1)] + []);
    CallStep(wrote, ReadsHandle(0, 1), [], held);
    CallStep(held, Prints(second, [b]), [ReadsHandle(0, 1)] + [], held);
    CallStep(attached, Hands(1), c2, held);
    CallStep(Reopened(first), Gives(1, second, 2), [Hands(1)] + c2, held);
  }

  lemma {:induction false} LateStreams(first: Tty, second: Tty, b: byte, who: nat)
    requires who < 2
    ensures
      var w, late := Reopened(first), GiveAndReadLate(second, b);
      && AllLegal(w, late)
      && ReadBy(w, late, who) == (if who == 0 then [b] else [])
      && PrintedFor(w, late, who) == (if who == 1 then [b] else [])
      && LostBy(w, late, who) == 0
  {
    var attached := SecondSteps(first, second, b);
    var held, wrote := SecondHeld(first, second, []), SecondHeld(first, second, [b]);
    var c2 := [Prints(second, [b])] + ([ReadsHandle(0, 1)] + []);
    assert Delivered(wrote.slots, Reads(0, 1), 0) == [b];
    StreamsAhead(wrote, ReadsHandle(0, 1), [], who);
    StreamsAhead(held, Prints(second, [b]), [ReadsHandle(0, 1)] + [], who);
    StreamsAhead(attached, Hands(1), c2, who);
    StreamsAhead(Reopened(first), Gives(1, second, 2), [Hands(1)] + c2, who);
  }
}
