/** RT-Thread mailboxes: a ring of words between senders and receivers that may both block. */
module Mailbox {
  import opened WaitList
  import opened Wakeups

  type Word = nat

  // ----- the ring -----

  datatype Ring = Ring(pool: seq<Word>, inAt: nat, outAt: nat, entry: nat)

  function Wrap(i: nat, size: nat): nat { if i < size then i else i - size }
  function Bump(i: nat, size: nat): nat { if i + 1 >= size then 0 else i + 1 }

  predicate RingOk(r: Ring) {
    && r.entry <= |r.pool|
    && (|r.pool| > 0 ==> r.outAt < |r.pool| && r.inAt == Wrap(r.outAt + r.entry, |r.pool|))
  }

  /** The mails in the box, oldest first. */
  function Contents(r: Ring): seq<Word>
    requires RingOk(r)
  {
    seq(r.entry, i requires 0 <= i < r.entry => r.pool[Wrap(r.outAt + i, |r.pool|)])
  }

  function Store(r: Ring, v: Word): Ring
    requires RingOk(r) && r.entry < |r.pool|
  {
    assert r.inAt < |r.pool|;
    Ring(r.pool[r.inAt := v], Bump(r.inAt, |r.pool|), r.outAt, r.entry + 1)
  }

  function Fetch(r: Ring): Ring
    requires RingOk(r) && r.entry > 0
  {
    r.(outAt := Bump(r.outAt, |r.pool|), entry := r.entry - 1)
  }

  lemma StoreContents(r: Ring, v: Word)
    requires RingOk(r) && r.entry < |r.pool|
    ensures RingOk(Store(r, v)) && Contents(Store(r, v)) == Contents(r) + [v]
  {
    var s := Store(r, v);
    forall i | 0 <= i < s.entry ensures Contents(s)[i] == (Contents(r) + [v])[i] {
      assert i < r.entry ==> Wrap(r.outAt + i, |r.pool|) != r.inAt;
    }
  }

  lemma FetchContents(r: Ring)
    requires RingOk(r) && r.entry > 0
    ensures RingOk(Fetch(r)) && Contents(r) == [r.pool[r.outAt]] + Contents(Fetch(r))
  {
    var s := Fetch(r);
    forall i | 0 <= i < r.entry ensures Contents(r)[i] == ([r.pool[r.outAt]] + Contents(s))[i] {
      assert Contents(r)[i] == r.pool[Wrap(r.outAt + i, |r.pool|)];
      if i > 0 {
        assert ([r.pool[r.outAt]] + Contents(s))[i] == Contents(s)[i - 1];
        assert Contents(s)[i - 1] == r.pool[Wrap(s.outAt + (i - 1), |r.pool|)];
        assert Wrap(r.outAt + i, |r.pool|) == Wrap(s.outAt + (i - 1), |r.pool|);
      }
    }
  }

  // ----- senders and receivers -----

  /** A mail that has left the box, to a receiver or by a reset. */
  datatype Gone = Gone(value: Word, received: bool)

  datatype Box = Box(
    ring: Ring, recv: Side, send: Side, byPrio: bool, prio: map<nat, nat>,
    sent: seq<Word>, gone: seq<Gone>)

  datatype Op =
    | Send(t: nat, value: Word, timeout: int)   // by a newcomer, or again after a resume
    | Recv(t: nat, timeout: int)
    | Timeout(t: nat)
    | Reset

  ghost predicate Ok(b: Box) {
    && RingOk(b.ring) && Wakeups.Inv(b.recv) && Wakeups.Inv(b.send)
    && b.recv.items == b.ring.entry && b.send.items == |b.ring.pool| - b.ring.entry
  }

  function Values(g: seq<Gone>): seq<Word> { seq(|g|, i requires 0 <= i < |g| => g[i].value) }

  /** Mails leave in the order they were sent, each once, and the rest are in the box. */
  ghost predicate InOrder(b: Box)
    requires RingOk(b.ring)
  {
    Values(b.gone) + Contents(b.ring) == b.sent
  }

  predicate Suspended(b: Box, t: nat) { t in b.recv.queue || t in b.send.queue }

  function SendStep(b: Box, t: nat, value: Word, timeout: int): Box
    requires Ok(b)
  {
    if b.ring.entry < |b.ring.pool| then
      b.(ring := Store(b.ring, value), recv := Put(b.recv), send := Take(b.send, t), sent := b.sent + [value])
    else if timeout == 0 then b.(send := Leave(b.send, t))
    else b.(send := Sleep(b.send, t, Suspend(b.send.queue, t, b.byPrio, b.prio)))
  }

  function RecvStep(b: Box, t: nat, timeout: int): Box
    requires Ok(b)
  {
    if b.ring.entry > 0 then
      b.(ring := Fetch(b.ring), recv := Take(b.recv, t), send := Put(b.send),
         gone := b.gone + [Gone(b.ring.pool[b.ring.outAt], true)])
    else if timeout == 0 then b.(recv := Leave(b.recv, t))
    else b.(recv := Sleep(b.recv, t, Suspend(b.recv.queue, t, b.byPrio, b.prio)))
  }

  /** rt_mb_control, reset; the threads already resumed find an empty box. */
  function ResetStep(b: Box): Box
    requires Ok(b)
  {
    var c := Contents(b.ring);
    b.(ring := Ring(b.ring.pool, 0, 0, 0), recv := Side(0, [], b.recv.woken),
        send := Side(|b.ring.pool|, [], b.send.woken),
       gone := b.gone + seq(|c|, i requires 0 <= i < |c| => Gone(c[i], false)))
  }

  function Step(b: Box, op: Op): Box
    requires Ok(b)
  {
    match op
    case Send(t, value, timeout) => if Suspended(b, t) || t in b.recv.woken then b else SendStep(b, t, value, timeout)
    case Recv(t, timeout) => if Suspended(b, t) || t in b.send.woken then b else RecvStep(b, t, timeout)
    case Timeout(t) => b.(recv := Expire(b.recv, t), send := Expire(b.send, t))
    case Reset => ResetStep(b)
  }

  lemma SendOk(b: Box, t: nat, value: Word, timeout: int)
    requires Ok(b) && InOrder(b) && t !in b.send.queue
    ensures Ok(SendStep(b, t, value, timeout)) && InOrder(SendStep(b, t, value, timeout))
  {
    hide Wakeups.Inv, Suspend, Contents, Values;
    if b.ring.entry < |b.ring.pool| {
      StoreContents(b.ring, value);
      PutInv(b.recv);
      TakeInv(b.send, t);
    } else if timeout == 0 {
      LeaveInv(b.send, t);
    } else {
      SleepOk(b.send, t, b.byPrio, b.prio);
    }
  }

  lemma SleepOk(s: Side, t: nat, byPrio: bool, prio: map<nat, nat>)
    requires Wakeups.Inv(s) && s.items == 0 && t !in s.queue
    ensures Wakeups.Inv(Sleep(s, t, Suspend(s.queue, t, byPrio, prio)))
  {
    hide Suspend;
    SuspendElements(s.queue, t, byPrio, prio);
    SleepInv(s, t, Suspend(s.queue, t, byPrio, prio));
  }

  lemma RecvOk(b: Box, t: nat, timeout: int)
    requires Ok(b) && InOrder(b) && t !in b.recv.queue
    ensures Ok(RecvStep(b, t, timeout)) && InOrder(RecvStep(b, t, timeout))
  {
    hide Wakeups.Inv, Suspend, Contents, Values;
    if b.ring.entry > 0 {
      FetchContents(b.ring);
      PutInv(b.send);
      TakeInv(b.recv, t);
      GoneOne(b.gone, b.ring.pool[b.ring.outAt]);
    } else if timeout == 0 {
      LeaveInv(b.recv, t);
    } else {
      SleepOk(b.recv, t, b.byPrio, b.prio);
    }
  }

  lemma GoneOne(g: seq<Gone>, v: Word)
    ensures Values(g + [Gone(v, true)]) == Values(g) + [v]
  {
  }

  lemma ResetOk(b: Box)
    requires Ok(b) && InOrder(b)
    ensures Ok(ResetStep(b)) && InOrder(ResetStep(b))
  {
    var c := Contents(b.ring);
    assert Values(ResetStep(b).gone) == Values(b.gone) + c;
  }

  lemma StepOk(b: Box, op: Op)
    requires Ok(b) && InOrder(b)
    ensures Ok(Step(b, op)) && InOrder(Step(b, op))
  {
    match op
    case Send(t, value, timeout) => if !Suspended(b, t) { SendOk(b, t, value, timeout); }
    case Recv(t, timeout) => if !Suspended(b, t) { RecvOk(b, t, timeout); }
    case Timeout(t) =>
      ExpireInv(b.recv, t);
      ExpireInv(b.send, t);
    case Reset => ResetOk(b);
  }

  /** Every interleaving; Ok never cuts a run short, as it is preserved. */
  ghost function Run(b: Box, ops: seq<Op>): Box
    decreases |ops|
  {
    if ops == [] || !Ok(b) then b else Run(Step(b, ops[0]), ops[1..])
  }

  lemma {:induction false} RunOk(b: Box, ops: seq<Op>)
    requires Ok(b) && InOrder(b)
    ensures Ok(Run(b, ops)) && InOrder(Run(b, ops))
    decreases |ops|
  {
    hide Step, InOrder;
    if ops != [] {
      StepOk(b, ops[0]);
      RunOk(Step(b, ops[0]), ops[1..]);
    }
  }

  /** rt_mb_init */
  function Init(size: nat, byPrio: bool, prio: map<nat, nat>): Box {
    Box(Ring(seq(size, _ => 0), 0, 0, 0), Side(0, [], {}), Side(size, [], {}), byPrio, prio, [], [])
  }

  /** In every reachable state the mails left in the order they were sent and the rest are in the
      box, and threads stay suspended only while the resumed ones can take every mail or slot. */
  lemma MailboxCorrect(size: nat, byPrio: bool, prio: map<nat, nat>, ops: seq<Op>)
    ensures var b := Run(Init(size, byPrio, prio), ops);
      && Ok(b) && InOrder(b)
      && (b.recv.queue != [] ==> b.ring.entry <= |b.recv.woken|)
      && (b.send.queue != [] ==> |b.ring.pool| - b.ring.entry <= |b.send.woken|)
  {
    RunOk(Init(size, byPrio, prio), ops);
  }

  // ----- the object, updated in place -----

  class Mb {
    const pool: array<Word>
    var inAt: nat
    var outAt: nat
    var entry: nat

    function View(): Ring
      reads this, pool
    {
      Ring(pool[..], inAt, outAt, entry)
    }

    constructor (size: nat)
      ensures fresh(pool) && pool.Length == size && RingOk(View()) && Contents(View()) == []
    {
      pool := new Word[size](_ => 0);
      inAt, outAt, entry := 0, 0, 0;
    }

    /** rt_mb_send_wait once there is room. */
    method Put(value: Word)
      requires RingOk(View()) && entry < pool.Length
      modifies this, pool
      ensures RingOk(View()) && Contents(View()) == old(Contents(View())) + [value]
    {
      ghost var before := View();
      pool[inAt] := value;
      inAt := inAt + 1;
      if inAt >= pool.Length { inAt := 0; }
      entry := entry + 1;
      assert View() == Store(before, value);
      StoreContents(before, value);
    }

    /** rt_mb_recv once there is a mail. */
    method Get() returns (value: Word)
      requires RingOk(View()) && entry > 0
      modifies this
      ensures RingOk(View()) && old(Contents(View())) == [value] + Contents(View())
    {
      ghost var before := View();
      value := pool[outAt];
      outAt := outAt + 1;
      if outAt >= pool.Length { outAt := 0; }
      entry := entry - 1;
      assert View() == Fetch(before);
      FetchContents(before);
    }
  }
}
