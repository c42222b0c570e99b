/** The single-core RT-Thread scheduler: 32 ready queues, a bitmap over them, and the running thread,
    which is in none of them. */
module Scheduler {
  import opened WaitList
  import opened ReadyGroup

  const LEVELS := 32

  datatype Stat = Init | Ready | Suspended | Running | Closed

  /** `yielding` is the bit set by an expired time slice. */
  datatype Thread = Thread(stat: Stat, prio: nat, yielding: bool, remaining: nat, slice: nat)

  datatype S = S(threads: map<nat, Thread>, cur: nat, queues: seq<seq<nat>>, group: Group, lock: nat)

  // ----- queue operations -----

  function SetStat(s: S, t: nat, stat: Stat): S
    requires t in s.threads
  {
    s.(threads := s.threads[t := s.threads[t].(stat := stat)])
  }

  predicate Shape(s: S) {
    |s.queues| == LEVELS && s.cur in s.threads && forall t :: t in s.threads ==> s.threads[t].prio < LEVELS
  }

  function Enqueue(s: S, t: nat): S
    requires Shape(s) && t in s.threads
  {
    var p := s.threads[t].prio;
    SetStat(s, t, Ready).(queues := s.queues[p := s.queues[p] + [t]], group := SetBit(s.group, p))
  }

  /** rt_schedule_insert_thread */
  function Insert(s: S, t: nat): S
    requires Shape(s) && t in s.threads
  {
    if t == s.cur then SetStat(s, t, Running) else Enqueue(s, t)
  }

  /** rt_schedule_remove_thread */
  function Take(s: S, t: nat): S
    requires Shape(s) && t in s.threads
  {
    var p := s.threads[t].prio;
    var q := Remove(s.queues[p], t);
    s.(queues := s.queues[p := q], group := if q == [] then ClearBit(s.group, p) else s.group)
  }

  // ----- the invariant -----

  /** A bit is set exactly when its queue is not empty. */
  ghost predicate Bits(s: S)
    requires |s.queues| == LEVELS
  {
    forall p :: 0 <= p < LEVELS ==> (Bit(s.group, p) <==> s.queues[p] != [])
  }

  /** The queues hold exactly the ready threads, each once and at its priority. */
  ghost predicate Queues(s: S)
    requires |s.queues| == LEVELS
  {
    && (forall p :: 0 <= p < LEVELS ==> Distinct(s.queues[p]))
    && (forall p, t :: 0 <= p < LEVELS && t in s.queues[p] ==>
        t in s.threads && s.threads[t].prio == p && s.threads[t].stat == Ready)
    && (forall t :: t in s.threads && s.threads[t].stat == Ready ==>
        s.threads[t].prio < LEVELS && t in s.queues[s.threads[t].prio])
  }

  /** Only the current thread runs, and it is not ready. */
  ghost predicate Current(s: S)
    requires s.cur in s.threads
  {
    && s.threads[s.cur].stat != Ready
    && forall t :: t in s.threads && s.threads[t].stat == Running ==> t == s.cur
  }

  ghost predicate Sliced(s: S) { forall t :: t in s.threads ==> s.threads[t].remaining > 0 && s.threads[t].slice > 0 }

  ghost predicate Lists(s: S) { Shape(s) && Bits(s) && Queues(s) && Sliced(s) }

  ghost predicate Inv(s: S) { Lists(s) && Current(s) }

  // ----- what the queue operations keep -----

  lemma AppendDistinct(q: seq<nat>, t: nat)
    requires Distinct(q) && t !in q
    ensures Distinct(q + [t])
  {
  }

  lemma EnqueueLists(s: S, t: nat)
    requires Lists(s) && t in s.threads && s.threads[t].stat != Ready
    ensures Lists(Enqueue(s, t))
  {
    hide Bits, Queues, SetBit;
    EnqueueBits(s, t);
    EnqueueQueues(s, t);
  }

  lemma EnqueueBits(s: S, t: nat)
    requires Shape(s) && Bits(s) && t in s.threads
    ensures Bits(Enqueue(s, t))
  {
    hide Bit, SetBit;
    var n, p := Enqueue(s, t), s.threads[t].prio;
    forall q | 0 <= q < LEVELS ensures Bit(n.group, q) <==> n.queues[q] != [] { SetBitAt(s.group, p, q); }
  }

  lemma EnqueueQueues(s: S, t: nat)
    requires Shape(s) && Queues(s) && t in s.threads && s.threads[t].stat != Ready
    ensures Queues(Enqueue(s, t))
  {
    hide SetBit, Distinct;
    var p := s.threads[t].prio;
    assert t !in s.queues[p];
    AppendDistinct(s.queues[p], t);
  }

  lemma InsertLists(s: S, t: nat)
    requires Lists(s) && t in s.threads && t != s.cur && s.threads[t].stat != Ready
    ensures Lists(Insert(s, t))
  {
    hide Lists;
    EnqueueLists(s, t);
  }

  /** Leaving the queue together with the state that goes with it. */
  function Leave(s: S, t: nat, stat: Stat): S
    requires Shape(s) && t in s.threads
  {
    SetStat(Take(s, t), t, stat)
  }

  lemma LeaveLists(s: S, t: nat, stat: Stat)
    requires Lists(s) && t in s.threads && stat != Ready
    ensures Lists(Leave(s, t, stat))
  {
    hide Bits, Queues, ClearBit, Remove;
    LeaveBits(s, t, stat);
    LeaveQueues(s, t, stat);
  }

  lemma LeaveBits(s: S, t: nat, stat: Stat)
    requires Shape(s) && Bits(s) && t in s.threads
    ensures Bits(Leave(s, t, stat))
  {
    hide Bit, ClearBit, Remove;
    var n, p := Leave(s, t, stat), s.threads[t].prio;
    EmptyRemove(t);
    forall q | 0 <= q < LEVELS ensures Bit(n.group, q) <==> n.queues[q] != [] { ClearBitAt(s.group, p, q); }
  }

  lemma LeaveQueues(s: S, t: nat, stat: Stat)
    requires Shape(s) && Queues(s) && t in s.threads && stat != Ready
    ensures Queues(Leave(s, t, stat))
  {
    hide ClearBit, Remove, Distinct;
    RemoveElements(s.queues[s.threads[t].prio], t);
  }

  lemma EmptyRemove(t: nat)
    ensures Remove([], t) == []
  {
  }

  // ----- rt_schedule -----

  /** _get_highest_priority_thread, when some thread is ready */
  function Highest(s: S): nat
    requires Ffs(s.group) > 0
  {
    Ffs(s.group) - 1
  }

  predicate AnyReady(s: S) { Ffs(s.group) != 0 && Ffs(s.group) <= LEVELS }

  /** The current thread keeps the processor: it outranks every ready thread, or equals the best and
      has time left. */
  predicate Keeps(s: S)
    requires AnyReady(s) && s.cur in s.threads
  {
    var c := s.threads[s.cur];
    c.stat == Running && (c.prio < Highest(s) || (c.prio == Highest(s) && !c.yielding))
  }

  function Switch(s: S, to: nat): S
    requires Shape(s) && to in s.threads
  {
    var from := s.cur;
    var c := s.threads[from];
    var s1 := if c.stat == Running then s.(threads := s.threads[from := c.(yielding := false)]) else s;
    var s2 := s1.(cur := to);
    var s3 := if c.stat == Running then Insert(s2, from) else s2;
    Leave(s3, to, Running)
  }

  function Schedule(s: S): S
    requires Shape(s)
  {
    if s.lock != 0 || !AnyReady(s) then s
    else if Keeps(s) then Leave(s, s.cur, Running)
    else
      var q := s.queues[Highest(s)];
      if q == [] || q[0] !in s.threads || q[0] == s.cur then s else Switch(s, q[0])
  }

  /** The bitmap search meets the first thread of the best non-empty queue. */
  lemma HighestReady(s: S)
    requires Lists(s)
    ensures AnyReady(s) <==> exists t :: t in s.threads && s.threads[t].stat == Ready
    ensures AnyReady(s) ==> s.queues[Highest(s)] != [] && forall t :: t in s.threads && s.threads[t].stat == Ready ==>
      Highest(s) <= s.threads[t].prio
  {
    hide Bit, Ffs;
    FfsLowest(s.group);
    if AnyReady(s) {
      var q := s.queues[Highest(s)];
      assert q[0] in q;
      assert q[0] in s.threads && s.threads[q[0]].stat == Ready;
      forall t | t in s.threads && s.threads[t].stat == Ready ensures Highest(s) <= s.threads[t].prio {
        assert t in s.queues[s.threads[t].prio];
      }
    }
    forall t | t in s.threads && s.threads[t].stat == Ready ensures AnyReady(s) {
      assert t in s.queues[s.threads[t].prio] && Bit(s.group, s.threads[t].prio);
    }
  }

  lemma ToReady(s: S)
    requires Inv(s) && AnyReady(s)
    ensures var q := s.queues[Highest(s)];
      && q != [] && q[0] in s.threads && q[0] != s.cur
      && s.threads[q[0]].stat == Ready && s.threads[q[0]].prio == Highest(s)
  {
    hide Ffs, Bits;
    HighestReady(s);
    var q := s.queues[Highest(s)];
    assert q[0] in q;
  }

  lemma SwitchInv(s: S, to: nat)
    requires Inv(s) && to in s.threads && to != s.cur && s.threads[to].stat == Ready
    ensures Inv(Switch(s, to)) && Switch(s, to).cur == to
  {
    hide Bits, Queues, Insert;
    var from, c := s.cur, s.threads[s.cur];
    var s1 := if c.stat == Running then s.(threads := s.threads[from := c.(yielding := false)]) else s;
    var s2 := s1.(cur := to);
    YieldCleared(s, s2);
    var s3 := if c.stat == Running then Insert(s2, from) else s2;
    if c.stat == Running {
      InsertLists(s2, from);
      InsertStat(s2, from);
    }
    LeaveLists(s3, to, Running);
  }

  lemma InsertStat(s: S, t: nat)
    requires Shape(s) && t in s.threads && t != s.cur
    ensures Insert(s, t).threads == s.threads[t := s.threads[t].(stat := Ready)] && Insert(s, t).cur == s.cur
  {
  }

  lemma SameQueues(s: S, n: S)
    requires |s.queues| == LEVELS && Queues(s) && n.queues == s.queues && n.threads.Keys == s.threads.Keys
    requires forall t :: t in s.threads ==>
      n.threads[t].stat == s.threads[t].stat && n.threads[t].prio == s.threads[t].prio
    ensures Queues(n)
  {
    hide Distinct;
  }

  /** Changes of the yield bit and of who is current do not touch the lists. */
  lemma YieldCleared(s: S, n: S)
    requires Lists(s) && n.queues == s.queues && n.group == s.group
    requires n.cur in n.threads && n.threads.Keys == s.threads.Keys
    requires forall t :: t in s.threads ==> n.threads[t] == s.threads[t].(yielding := n.threads[t].yielding)
    ensures Lists(n)
  {
    hide Bit, Queues;
    assert forall t :: t in n.threads ==> t in s.threads;
    SameQueues(s, n);
  }

  lemma ScheduleInv(s: S)
    requires Inv(s)
    ensures Inv(Schedule(s))
  {
    hide Bits, Queues, Switch, Ffs, Take;
    if s.lock == 0 && AnyReady(s) {
      if Keeps(s) {
        LeaveLists(s, s.cur, Running);
        TakeThreads(s, s.cur);
      } else {
        ToReady(s);
        SwitchInv(s, s.queues[Highest(s)][0]);
      }
    }
  }

  lemma TakeThreads(s: S, t: nat)
    requires Shape(s) && t in s.threads
    ensures Take(s, t).threads == s.threads && Take(s, t).cur == s.cur
  {
  }

  /** After an unlocked reschedule no ready thread outranks the running one. */
  lemma ScheduleBest(s: S)
    requires Inv(s) && s.lock == 0 && (AnyReady(s) || s.threads[s.cur].stat == Running)
    ensures var n := Schedule(s);
      && n.threads[n.cur].stat == Running
      && forall t :: t in n.threads && n.threads[t].stat == Ready ==> n.threads[n.cur].prio <= n.threads[t].prio
  {
    hide Bits, Queues, Ffs, Take, Insert;
    HighestReady(s);
    if AnyReady(s) {
      if Keeps(s) {
        TakeThreads(s, s.cur);
      } else {
        ToReady(s);
        SwitchThreads(s, s.queues[Highest(s)][0]);
      }
    }
  }

  /** Who is in which state after a switch. */
  lemma SwitchThreads(s: S, to: nat)
    requires Shape(s) && to in s.threads && to != s.cur
    ensures var n := Switch(s, to); var c := s.threads[s.cur];
      && n.cur == to && n.lock == s.lock
      && n.threads == s.threads[s.cur := if c.stat == Running then c.(stat := Ready, yielding := false) else c]
                               [to := s.threads[to].(stat := Running)]
  {
    hide Remove, SetBit, ClearBit;
  }

  // ----- the other transitions -----

  function SetPrio(s: S, t: nat, p: nat): S
    requires t in s.threads
  {
    s.(threads := s.threads[t := s.threads[t].(prio := p)])
  }

  /** rt_thread_control, change of priority: a ready thread changes queue. */
  function ChangePriority(s: S, t: nat, p: nat): S
    requires Shape(s) && t in s.threads && p < LEVELS
  {
    if s.threads[t].stat == Ready then Insert(SetPrio(Take(s, t), t, p), t) else SetPrio(s, t, p)
  }

  /** rt_tick_increase */
  function Tick(s: S): S
    requires Shape(s)
  {
    var c := s.threads[s.cur];
    if c.remaining <= 1 then
      Schedule(s.(threads := s.threads[s.cur := c.(remaining := c.slice, yielding := true)]))
    else s.(threads := s.threads[s.cur := c.(remaining := c.remaining - 1)])
  }

  datatype Op =
    | Startup(t: nat) | Suspend(t: nat) | Resume(t: nat) | Close(t: nat) | Timeout(t: nat)
    | Change(t: nat, prio: nat) | TickOp | Yield | Lock | Unlock

  function Step(s: S, op: Op): S
    requires Shape(s)
  {
    match op
    case Startup(t) => if t in s.threads && s.threads[t].stat == Init then Reschedule(Insert(s, t)) else s
    case Suspend(t) =>
      if t in s.threads && (s.threads[t].stat == Ready || s.threads[t].stat == Running) then Leave(s, t, Suspended)
      else s
    case Resume(t) => if t in s.threads && s.threads[t].stat == Suspended then Insert(s, t) else s
    case Close(t) => if t in s.threads && s.threads[t].stat != Init then Leave(s, t, Closed) else s
    case Timeout(t) => if t in s.threads && s.threads[t].stat == Suspended then Reschedule(Insert(s, t)) else s
    case Change(t, p) => if t in s.threads && p < LEVELS then ChangePriority(s, t, p) else s
    case TickOp => Tick(s)
    case Yield => Schedule(s)
    case Lock => s.(lock := s.lock + 1)
    case Unlock => Schedule(s.(lock := if s.lock <= 1 then 0 else s.lock - 1))
  }

  function Reschedule(s: S): S { if Shape(s) then Schedule(s) else s }

  lemma InsertInv(s: S, t: nat)
    requires Inv(s) && t in s.threads && s.threads[t].stat != Ready
    ensures Inv(Insert(s, t))
  {
    hide Bits, Queues, SetBit;
    if t == s.cur {
      RelabelLists(s, t, Running);
    } else {
      InsertLists(s, t);
    }
  }

  lemma RelabelLists(s: S, t: nat, stat: Stat)
    requires Lists(s) && t in s.threads && s.threads[t].stat != Ready && stat != Ready
    ensures Lists(SetStat(s, t, stat))
  {
    hide Bit, Queues;
    RelabelQueues(s, t, stat);
  }

  lemma RelabelQueues(s: S, t: nat, stat: Stat)
    requires Shape(s) && Queues(s) && t in s.threads && s.threads[t].stat != Ready && stat != Ready
    ensures Queues(SetStat(s, t, stat))
  {
    hide Distinct;
  }

  lemma LeaveInv(s: S, t: nat, stat: Stat)
    requires Inv(s) && t in s.threads && stat != Ready && stat != Running
    ensures Inv(Leave(s, t, stat))
  {
    hide Bits, Queues, Take;
    LeaveLists(s, t, stat);
    TakeThreads(s, t);
  }

  lemma SetPrioLists(s: S, t: nat, p: nat)
    requires Lists(s) && t in s.threads && s.threads[t].stat != Ready && p < LEVELS
    ensures Lists(SetPrio(s, t, p))
  {
    hide Bit, Distinct;
  }

  lemma ChangePriorityInv(s: S, t: nat, p: nat)
    requires Inv(s) && t in s.threads && p < LEVELS
    ensures Inv(ChangePriority(s, t, p))
  {
    hide Bits, Queues, Take, SetBit;
    if s.threads[t].stat == Ready {
      var away := Leave(s, t, Suspended);
      LeaveLists(s, t, Suspended);
      TakeThreads(s, t);
      SetPrioLists(away, t, p);
      InsertLists(SetPrio(away, t, p), t);
      assert ChangePriority(s, t, p) == Insert(SetPrio(away, t, p), t) by { SameInsert(s, t, p); }
    } else {
      SetPrioLists(s, t, p);
    }
  }

  lemma SameInsert(s: S, t: nat, p: nat)
    requires Shape(s) && t in s.threads && p < LEVELS && t != s.cur
    ensures Insert(SetPrio(Take(s, t), t, p), t) == Insert(SetPrio(Leave(s, t, Suspended), t, p), t)
  {
    hide Remove, ClearBit, SetBit;
    var a, b := SetPrio(Take(s, t), t, p), SetPrio(Leave(s, t, Suspended), t, p);
    assert a.threads[t := a.threads[t].(stat := Ready)] == b.threads[t := b.threads[t].(stat := Ready)];
  }

  lemma TickInv(s: S)
    requires Inv(s)
    ensures Inv(Tick(s))
  {
    hide Bits, Queues, Schedule;
    var c := s.threads[s.cur];
    var n := s.(threads := s.threads[s.cur := if c.remaining <= 1 then c.(remaining := c.slice, yielding := true)
                                               else c.(remaining := c.remaining - 1)]);
    ClockLists(s, n);
    if c.remaining <= 1 { ScheduleInv(n); }
  }

  lemma ClockLists(s: S, n: S)
    requires Lists(s) && n.queues == s.queues && n.group == s.group
    requires n.cur == s.cur && n.threads.Keys == s.threads.Keys
    requires forall t :: t in s.threads ==>
      && n.threads[t] == s.threads[t].(yielding := n.threads[t].yielding, remaining := n.threads[t].remaining)
      && n.threads[t].remaining > 0
    ensures Lists(n)
  {
    hide Bit, Queues;
    assert forall t :: t in n.threads ==> t in s.threads;
    SameQueues(s, n);
  }

  lemma LockLists(s: S, lock: nat)
    requires Inv(s)
    ensures Inv(s.(lock := lock))
  {
    hide Bit, Distinct;
  }

  /** Every transition keeps the bitmap, the queues and the running thread in step. */
  lemma StepInv(s: S, op: Op)
    requires Inv(s)
    ensures Inv(Step(s, op))
  {
    hide Lists, Current, Insert, Leave, Schedule, Tick, ChangePriority;
    InvShape(s);
    match op
    case Startup(t) =>
      if t in s.threads && s.threads[t].stat == Init {
        InsertInv(s, t);
        ScheduleInv(Insert(s, t));
      }
    case Suspend(t) => if t in s.threads { LeaveInv(s, t, Suspended); }
    case Resume(t) => if t in s.threads && s.threads[t].stat == Suspended { InsertInv(s, t); }
    case Close(t) => if t in s.threads { LeaveInv(s, t, Closed); }
    case Timeout(t) =>
      if t in s.threads && s.threads[t].stat == Suspended {
        InsertInv(s, t);
        InvShape(Insert(s, t));
        ScheduleInv(Insert(s, t));
      }
    case Change(t, p) => if t in s.threads && p < LEVELS { ChangePriorityInv(s, t, p); }
    case TickOp => TickInv(s);
    case Yield => ScheduleInv(s);
    case Lock => LockLists(s, s.lock + 1);
    case Unlock =>
      LockLists(s, if s.lock <= 1 then 0 else s.lock - 1);
      ScheduleInv(s.(lock := if s.lock <= 1 then 0 else s.lock - 1));
  }

  lemma InvShape(s: S)
    requires Inv(s)
    ensures Shape(s) && s.cur in s.threads
  {
  }

  ghost function Run(s: S, ops: seq<Op>): S
    decreases |ops|
  {
    if ops == [] || !Shape(s) then s else Run(Step(s, ops[0]), ops[1..])
  }

  lemma {:induction false} RunInv(s: S, ops: seq<Op>)
    requires Inv(s)
    ensures Inv(Run(s, ops))
    decreases |ops|
  {
    hide Inv, Step;
    if ops != [] {
      InvShape(s);
      StepInv(s, ops[0]);
      RunInv(Step(s, ops[0]), ops[1..]);
    }
  }

  // ----- time slices -----

  /** The running thread shares the best priority with the threads queued behind it. */
  ghost predicate Sharing(s: S) {
    && Inv(s) && s.lock == 0 && s.threads[s.cur].stat == Running
    && s.queues[s.threads[s.cur].prio] != []
    && forall t :: t in s.threads && s.threads[t].stat == Ready ==> s.threads[s.cur].prio <= s.threads[t].prio
  }

  function Peers(s: S): seq<nat>
    requires Shape(s)
  {
    s.queues[s.threads[s.cur].prio]
  }

  /** While the slice lasts, a tick only counts down. */
  lemma TickCounts(s: S)
    requires Sharing(s) && s.threads[s.cur].remaining > 1
    ensures var n := Tick(s);
      && Sharing(n) && n.cur == s.cur && Peers(n) == Peers(s)
      && n.threads == s.threads[s.cur := s.threads[s.cur].(remaining := s.threads[s.cur].remaining - 1)]
  {
    hide Bits, Queues;
    TickInv(s);
  }

  /** The best ready priority is the one the running thread shares. */
  lemma SharedIsHighest(s: S)
    requires Sharing(s)
    ensures AnyReady(s) && Highest(s) == s.threads[s.cur].prio
  {
    hide Ffs, Bits;
    HighestReady(s);
    var q := Peers(s);
    assert q[0] in q && s.threads[q[0]].stat == Ready;
    ToReady(s);
  }

  /** When it is used up, the first peer runs and the thread goes behind the others with a new slice. */
  lemma TickRotates(s: S)
    requires Sharing(s) && s.threads[s.cur].remaining == 1
    ensures var n, q := Tick(s), Peers(s);
      && Sharing(n) && n.cur == q[0] && Peers(n) == q[1..] + [s.cur]
      && q[0] in s.threads && n.threads[q[0]].remaining == s.threads[q[0]].remaining
      && forall t :: t in s.threads && t != s.cur ==> t in n.threads && n.threads[t].remaining == s.threads[t].remaining
  {
    hide Bits, Ffs, Switch;
    var c, q := s.threads[s.cur], Peers(s);
    var m := s.(threads := s.threads[s.cur := c.(remaining := c.slice, yielding := true)]);
    ClockLists(s, m);
    assert Sharing(m);
    SharedIsHighest(m);
    ToReady(m);
    assert Tick(s) == Switch(m, q[0]);
    TickInv(s);
    SwitchThreads(m, q[0]);
    SwitchQueue(m, q[0]);
    assert q[0] in q;
  }

  lemma SwitchQueue(s: S, to: nat)
    requires Inv(s) && s.threads[s.cur].stat == Running && Peers(s) != [] && to == Peers(s)[0] && to in s.threads
    requires s.threads[to].prio == s.threads[s.cur].prio && to != s.cur
    ensures Switch(s, to).queues[s.threads[s.cur].prio] == Peers(s)[1..] + [s.cur]
  {
    hide SetBit, ClearBit;
    var q, p := Peers(s), s.threads[s.cur].prio;
    RemoveFirst(q + [s.cur]) by {
      assert s.cur !in q;
      AppendDistinct(q, s.cur);
    }
    assert (q + [s.cur])[1..] == q[1..] + [s.cur];
  }

  lemma RemoveFirst(q: seq<nat>)
    requires q != [] && Distinct(q)
    ensures Remove(q, q[0]) == q[1..]
  {
    NotInRest(q[1..], q[0]);
  }

  lemma {:induction false} NotInRest(q: seq<nat>, x: nat)
    requires x !in q
    ensures Remove(q, x) == q
  {
    if q != [] { NotInRest(q[1..], x); }
  }

  ghost function Ticks(s: S, n: nat): S
    decreases n
  {
    if n == 0 || !Shape(s) then s else Ticks(Tick(s), n - 1)
  }

  /** Ticks left to the first `j` of the threads in `q`. */
  function Left(s: S, q: seq<nat>, j: nat): nat
    requires j <= |q|
  {
    if j == 0 then 0 else Left(s, q, j - 1) + (if q[j - 1] in s.threads then s.threads[q[j - 1]].remaining else 0)
  }

  lemma {:induction false} LeftSame(s: S, n: S, q: seq<nat>, j: nat)
    requires j <= |q|
    requires forall t :: t in q[..j] ==>
      t in s.threads && t in n.threads && n.threads[t].remaining == s.threads[t].remaining
    ensures Left(n, q, j) == Left(s, q, j)
  {
    if j > 0 {
      assert q[j - 1] in q[..j];
      assert forall t :: t in q[..j - 1] ==> t in q[..j];
      LeftSame(s, n, q, j - 1);
    }
  }

  lemma {:induction false} LeftShift(s: S, q: seq<nat>, j: nat, x: nat)
    requires j < |q|
    ensures Left(s, q, j + 1) == (if q[0] in s.threads then s.threads[q[0]].remaining else 0) + Left(s, q[1..] + [x], j)
    decreases j
  {
    if j > 0 { LeftShift(s, q, j - 1, x); }
  }

  /** The slice of the running thread runs out after exactly its remaining ticks. */
  lemma {:induction false} RunOut(s: S, n: nat)
    requires Sharing(s) && n < s.threads[s.cur].remaining
    ensures var m := Ticks(s, n);
      && Sharing(m) && m.cur == s.cur && Peers(m) == Peers(s)
      && m.threads[s.cur].remaining == s.threads[s.cur].remaining - n
      && forall t :: t in s.threads && t != s.cur ==> t in m.threads && m.threads[t] == s.threads[t]
    decreases n
  {
    hide Sharing, Tick;
    SharingShape(s);
    if n > 0 {
      TickCounts(s);
      SharingShape(Tick(s));
      RunOut(Tick(s), n - 1);
    }
  }

  lemma SharingShape(s: S)
    requires Sharing(s)
    ensures Shape(s) && Peers(s) != [] && s.threads[s.cur].remaining > 0
    ensures forall t :: t in Peers(s) ==> t in s.threads && t != s.cur
  {
    hide Bits;
  }

  lemma {:induction false} TicksSplit(s: S, a: nat, b: nat)
    ensures Ticks(s, a + b) == Ticks(Ticks(s, a), b)
    decreases a
  {
    hide Tick;
    if a > 0 && Shape(s) { TicksSplit(Tick(s), a - 1, b); }
    if !Shape(s) { Stuck(s, b); }
  }

  lemma Stuck(s: S, n: nat)
    requires !Shape(s)
    ensures Ticks(s, n) == s
  {
  }

  /** One whole turn: after its remaining ticks the first peer runs. */
  lemma Turn(s: S)
    requires Sharing(s)
    ensures s.cur in s.threads && var r := s.threads[s.cur].remaining; var n := Ticks(s, r);
      Shape(s) && Peers(s) != [] && Sharing(n) && n.cur == Peers(s)[0] && Peers(n) == Peers(s)[1..] + [s.cur]
      && forall t :: t in s.threads && t != s.cur ==> t in n.threads && n.threads[t].remaining == s.threads[t].remaining
  {
    hide Sharing, Tick;
    SharingShape(s);
    var r := s.threads[s.cur].remaining;
    RunOut(s, r - 1);
    TicksSplit(s, r - 1, 1);
    var m := Ticks(s, r - 1);
    SharingShape(m);
    TickRotates(m);
    assert Ticks(m, 1) == Ticks(Tick(m), 0);
  }

  /** The thread at position `j` of the shared queue runs after exactly the remaining ticks of the
      running thread and of those ahead of it. */
  lemma {:induction false} RoundRobin(s: S, j: nat)
    requires Sharing(s) && Shape(s) && j < |Peers(s)|
    ensures Ticks(s, s.threads[s.cur].remaining + Left(s, Peers(s), j)).cur == Peers(s)[j]
    decreases j
  {
    hide Sharing, Tick;
    SharingShape(s);
    var q, r := Peers(s), s.threads[s.cur].remaining;
    Turn(s);
    var n := Ticks(s, r);
    SharingShape(n);
    if j > 0 {
      assert q[0] in q;
      RoundRobin(n, j - 1);
      LeftShift(s, q, j - 1, s.cur);
      var rest := q[1..] + [s.cur];
      forall t | t in rest[..j - 1]
        ensures t in s.threads && t in n.threads && n.threads[t].remaining == s.threads[t].remaining
      {
        assert rest[..j - 1] == q[1..j];
        assert t in q;
      }
      LeftSame(s, n, rest, j - 1);
      TicksSplit(s, r, n.threads[n.cur].remaining + Left(n, rest, j - 1));
      assert rest[j - 1] == q[j];
    }
  }

  /** Yielding among equals gives way exactly when the time slice had expired: rt_thread_yield alone
      does not rotate them. */
  lemma YieldRotates(s: S)
    requires Sharing(s)
    ensures Schedule(s).cur != s.cur <==> s.threads[s.cur].yielding
  {
    hide Bits, Queues, Ffs, Switch, Take;
    SharedIsHighest(s);
    ToReady(s);
    TakeThreads(s, s.cur);
    SwitchThreads(s, Peers(s)[0]);
  }

  /** Two threads of one priority, the first running with its slice unspent. */
  function TwoEquals(): S {
    S(map[0 := Thread(Running, 5, false, 10, 10), 1 := Thread(Ready, 5, false, 10, 10)], 0,
      seq(LEVELS, p => if p == 5 then [1] else []), SetBit(NoneSet(), 5), 0)
  }

  /** Yielding leaves the other waiting. */
  lemma YieldKeepsRunning()
    ensures Inv(TwoEquals()) && Schedule(TwoEquals()).cur == 0
  {
    hide SetBit, Bit, NoneSet;
    var s := TwoEquals();
    forall p | 0 <= p < LEVELS ensures Bit(s.group, p) <==> s.queues[p] != [] {
      SetBitAt(NoneSet(), 5, p);
      NoneSetBit(p);
    }
    assert Queues(s);
    assert 1 in s.queues[5];
    assert Sharing(s);
    YieldRotates(s);
  }

  // ----- the kernel variables, updated in place -----

  class Kernel {
    var threads: map<nat, Thread>
    var cur: nat
    var queues: seq<seq<nat>>
    var group: Group
    var lock: nat

    function View(): S
      reads this
    {
      S(threads, cur, queues, group, lock)
    }

    /** rt_schedule_insert_thread */
    method InsertThread(t: nat)
      requires Shape(View()) && t in threads
      modifies this`threads, this`queues, this`group
      ensures View() == Insert(old(View()), t) && Shape(View())
    {
      var x := threads[t];
      if t == cur {
        threads := threads[t := x.(stat := Running)];
        return;
      }
      threads := threads[t := x.(stat := Ready)];
      queues := queues[x.prio := queues[x.prio] + [t]];
      group := SetBit(group, x.prio);
    }

    /** rt_schedule_remove_thread */
    method RemoveThread(t: nat)
      requires Shape(View()) && t in threads
      modifies this`queues, this`group
      ensures View() == Take(old(View()), t) && Shape(View())
    {
      var p := threads[t].prio;
      queues := queues[p := Remove(queues[p], t)];
      if queues[p] == [] { group := ClearBit(group, p); }
    }

    /** rt_schedule */
    method Reschedule()
      requires Inv(View())
      modifies this
      ensures View() == Schedule(old(View())) && Inv(View())
    {
      hide Lists, Current, Ffs, Insert, Take;
      ScheduleInv(View());
      InvShape(View());
      if lock == 0 && Ffs(group) != 0 {
        ReadyInRange(View());
        var highest := Ffs(group) - 1;
        ToReady(View());
        var c, to := threads[cur], queues[highest][0];
        var from := cur;
        var insertFrom := false;
        if c.stat == Running {
          if c.prio < highest {
            to := cur;
          } else if c.prio == highest && !c.yielding {
            to := cur;
          } else {
            threads := threads[cur := c.(yielding := false)];
            insertFrom := true;
          }
        }
        if to != cur {
          cur := to;
          if insertFrom { InsertThread(from); }
        }
        InsertKeeps(View(), to);
        RemoveThread(to);
        threads := threads[to := threads[to].(stat := Running)];
      }
    }

    /** rt_tick_increase, the time slice part */
    method TickIncrease()
      requires Inv(View())
      modifies this
      ensures View() == Tick(old(View())) && Inv(View())
    {
      hide Lists, Current, Schedule;
      InvShape(View());
      var c := threads[cur];
      if c.remaining <= 1 {
        threads := threads[cur := c.(remaining := c.slice, yielding := true)];
        ClockStep(old(View()), View());
        Reschedule();
      } else {
        threads := threads[cur := c.(remaining := c.remaining - 1)];
        ClockStep(old(View()), View());
      }
    }
  }

  lemma ClockStep(s: S, n: S)
    requires Inv(s) && n == s.(threads := n.threads)
    requires var c := s.threads[s.cur];
      n.threads == s.threads[s.cur := if c.remaining <= 1 then c.(remaining := c.slice, yielding := true)
          else c.(remaining := c.remaining - 1)]
    ensures Inv(n)
  {
    hide Bits, Queues;
    ClockLists(s, n);
  }

  lemma ReadyInRange(s: S)
    requires Inv(s)
    ensures Ffs(s.group) <= LEVELS
  {
    FfsLowest(s.group);
  }

  lemma InsertKeeps(s: S, t: nat)
    requires Shape(s) && t in s.threads
    ensures Take(s, t).threads == s.threads
  {
  }
}
