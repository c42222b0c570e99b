/** RT-Thread mutexes: recursive ownership, priority inheritance and direct hand-off. A smaller number
    is a higher priority. */
module Mutex {
  import opened Basics
  import opened WaitList

  /** `base` records the priority each thread has apart from this mutex. */
  datatype M = M(
    value: nat, owner: Option<nat>, hold: nat, original: nat, waiters: seq<nat>, byPrio: bool,
    prio: map<nat, nat>, base: map<nat, nat>)

  datatype Op = Take(t: nat, time: int) | Release(t: nat) | Timeout(t: nat)

  const NO_PRIORITY := 0xff
  const HOLD_LIMIT := 256   // hold is an 8-bit field

  // ----- the critical sections -----

  function Acquire(m: M, t: nat): M
    requires m.value > 0
  {
    m.(value := m.value - 1, owner := Some(t), original := Priority(m.prio, t), hold := (m.hold + 1) % HOLD_LIMIT)
  }

  /** The caller waits; the owner inherits its priority if that is higher. */
  function Wait(m: M, t: nat): M
    requires m.owner.Some?
  {
    var prio := if Priority(m.prio, t) < Priority(m.prio, m.owner.value)
                then m.prio[m.owner.value := Priority(m.prio, t)] else m.prio;
    m.(prio := prio, waiters := Suspend(m.waiters, t, m.byPrio, prio))
  }

  /** rt_mutex_take up to its interrupt-enable */
  function TakeStep(m: M, t: nat, time: int): M {
    if m.owner == Some(t) then m.(hold := (m.hold + 1) % HOLD_LIMIT)
    else if m.value > 0 then Acquire(m, t)
    else if time == 0 || m.owner.None? then m
    else Wait(m, t)
  }

  /** The last release gives the owner its priority back, and the mutex to the first waiter. */
  function HandOver(m: M): M
    requires m.owner.Some?
  {
    var prio := m.prio[m.owner.value := m.original];
    if m.waiters == [] then m.(prio := prio, hold := 0, value := m.value + 1, owner := None, original := NO_PRIORITY)
    else
      var t := m.waiters[0];
      m.(prio := prio, hold := 1, owner := Some(t), original := Priority(prio, t), waiters := m.waiters[1..])
  }

  function ReleaseStep(m: M, t: nat): M {
    if m.owner != Some(t) then m
    else if (m.hold + HOLD_LIMIT - 1) % HOLD_LIMIT == 0 then HandOver(m)
    else m.(hold := (m.hold + HOLD_LIMIT - 1) % HOLD_LIMIT)
  }

  /** A waiting thread does nothing until it is resumed or times out. */
  function Step(m: M, op: Op): M {
    match op
    case Take(t, time) => if t in m.waiters then m else TakeStep(m, t, time)
    case Release(t) => if t in m.waiters then m else ReleaseStep(m, t)
    case Timeout(t) => m.(waiters := Remove(m.waiters, t))
  }

  // ----- the invariant -----

  /** The three fields tell the same: the mutex is free, or owned and held. */
  predicate Consistent(m: M) {
    && m.value <= 1 && m.hold < HOLD_LIMIT
    && (m.value == 1 <==> m.owner.None?) && (m.hold == 0 <==> m.owner.None?)
    && (m.owner.None? ==> m.waiters == [])
  }

  ghost predicate Queued(m: M) {
    && Distinct(m.waiters) && Sorted(m.waiters, m.prio)
    && (m.owner.Some? ==> m.owner.value !in m.waiters)
  }

  /** No waiter outranks the owner. */
  ghost predicate Inherited(m: M) {
    m.owner.Some? ==> forall t :: t in m.waiters ==> Priority(m.prio, m.owner.value) <= Priority(m.prio, t)
  }

  /** Only the owner's priority may differ from its base, which the mutex remembers. */
  ghost predicate Remembered(m: M) {
    && (forall t: nat :: m.owner != Some(t) ==> Priority(m.prio, t) == Priority(m.base, t))
    && (m.owner.Some? ==>
        m.original == Priority(m.base, m.owner.value) && Priority(m.prio, m.owner.value) <= m.original)
  }

  ghost predicate Inv(m: M) { m.byPrio && Consistent(m) && Queued(m) && Inherited(m) && Remembered(m) }

  // ----- taking -----

  lemma PriorityAt(prio: map<nat, nat>, o: nat, p: nat, t: nat)
    ensures Priority(prio[o := p], t) == if t == o then p else Priority(prio, t)
  {
  }

  lemma SortedElsewhere(q: seq<nat>, prio: map<nat, nat>, o: nat, p: nat)
    requires Sorted(q, prio) && o !in q
    ensures Sorted(q, prio[o := p])
  {
  }

  lemma WaitQueued(m: M, t: nat)
    requires m.byPrio && Queued(m) && m.owner.Some? && t !in m.waiters && m.owner != Some(t)
    ensures Queued(Wait(m, t)) && forall u :: u in Wait(m, t).waiters <==> u == t || u in m.waiters
  {
    hide Suspend;
    var n := Wait(m, t);
    if Priority(m.prio, t) < Priority(m.prio, m.owner.value) {
      SortedElsewhere(m.waiters, m.prio, m.owner.value, Priority(m.prio, t));
    }
    SuspendElements(m.waiters, t, true, n.prio);
    SuspendSorted(m.waiters, t, n.prio);
  }

  lemma WaitInv(m: M, t: nat)
    requires Inv(m) && m.owner.Some? && t !in m.waiters && m.owner != Some(t)
    ensures Inv(Wait(m, t))
  {
    hide Suspend, Queued;
    WaitQueued(m, t);
    var n, o := Wait(m, t), m.owner.value;
    forall u
      ensures Priority(n.prio, u) ==
        (if u == o && Priority(m.prio, t) < Priority(m.prio, o) then Priority(m.prio, t) else Priority(m.prio, u))
    {
      PriorityAt(m.prio, o, Priority(m.prio, t), u);
    }
  }

  // ----- releasing -----

  lemma HandOverInv(m: M)
    requires Inv(m) && m.owner.Some?
    ensures Inv(HandOver(m))
    ensures Priority(HandOver(m).prio, m.owner.value) == Priority(m.base, m.owner.value)
  {
    var n, o := HandOver(m), m.owner.value;
    forall u
      ensures Priority(n.prio, u) == (if u == o then m.original else Priority(m.prio, u))
    {
      PriorityAt(m.prio, o, m.original, u);
    }
    SortedElsewhere(m.waiters, m.prio, o, m.original);
    if m.waiters != [] {
      ResumeElements(m.waiters);
      TailSorted(m.waiters, n.prio);
    }
  }

  lemma TailSorted(q: seq<nat>, prio: map<nat, nat>)
    requires q != [] && Sorted(q, prio)
    ensures Sorted(q[1..], prio) && forall t :: t in q ==> Priority(prio, q[0]) <= Priority(prio, t)
  {
    forall t | t in q ensures Priority(prio, q[0]) <= Priority(prio, t) {
      var i :| 0 <= i < |q| && q[i] == t;
    }
  }

  lemma TimeoutInv(m: M, t: nat)
    requires Inv(m)
    ensures Inv(m.(waiters := Remove(m.waiters, t)))
  {
    RemoveElements(m.waiters, t);
    RemoveSorted(m.waiters, t, m.prio);
    if m.waiters == [] { assert Remove(m.waiters, t) == []; }
  }

  lemma {:induction false} RemoveSorted(q: seq<nat>, t: nat, prio: map<nat, nat>)
    requires Sorted(q, prio)
    ensures Sorted(Remove(q, t), prio)
  {
    hide Sorted, Priority;
    if q == [] {
      assert Remove(q, t) == q;
    } else {
      TailSorted(q, prio);
      RemoveSorted(q[1..], t, prio);
      RemoveElements(q[1..], t);
      assert forall u :: u in q[1..] ==> u in q;
      ConsSorted(q[0], Remove(q[1..], t), prio);
    }
  }

  lemma ConsSorted(x: nat, s: seq<nat>, prio: map<nat, nat>)
    requires Sorted(s, prio) && forall t :: t in s ==> Priority(prio, x) <= Priority(prio, t)
    ensures Sorted([x] + s, prio)
  {
    hide Priority;
    var r := [x] + s;
    forall i, j | 0 <= i < j < |r| ensures Priority(prio, r[i]) <= Priority(prio, r[j]) {
      assert r[j] == s[j - 1] && s[j - 1] in s;
    }
  }

  // ----- every run -----

  /** The nesting of takes stays within the 8-bit counter. */
  predicate Shallow(m: M, op: Op) { !(op.Take? && m.owner == Some(op.t) && m.hold == HOLD_LIMIT - 1) }

  /** A step keeps the invariant exactly when it does not overflow the nesting count. */
  lemma StepInv(m: M, op: Op)
    requires Inv(m)
    ensures Inv(Step(m, op)) <==> Shallow(m, op)
  {
    hide Wait, HandOver;
    match op
    case Take(t, time) =>
      if t !in m.waiters && m.owner != Some(t) && m.value == 0 && time != 0 { WaitInv(m, t); }
    case Release(t) =>
      if m.owner == Some(t) && m.hold == 1 { HandOverInv(m); }
    case Timeout(t) => TimeoutInv(m, t);
  }

  /** Every step of the run stays within the counter. */
  predicate AllShallow(m: M, ops: seq<Op>)
    decreases |ops|
  {
    ops == [] || (Shallow(m, ops[0]) && AllShallow(Step(m, ops[0]), ops[1..]))
  }

  function Run(m: M, ops: seq<Op>): M
    decreases |ops|
  {
    if ops == [] then m else Run(Step(m, ops[0]), ops[1..])
  }

  lemma {:induction false} RunInv(m: M, ops: seq<Op>)
    requires Inv(m) && AllShallow(m, ops)
    ensures Inv(Run(m, ops)) && Run(m, ops).base == m.base
    decreases |ops|
  {
    hide Inv, Step;
    if ops != [] {
      StepInv(m, ops[0]);
      StepBase(m, ops[0]);
      RunInv(Step(m, ops[0]), ops[1..]);
    }
  }

  lemma StepBase(m: M, op: Op)
    ensures Step(m, op).base == m.base
  {
  }

  /** rt_mutex_init with the PRIO flag */
  function Init(prio: map<nat, nat>): M { M(1, None, 0, NO_PRIORITY, [], true, prio, prio) }

  /** Over every interleaving of takes, releases and timeouts: one owner at most, the fields agree,
      waiters sorted, no waiter outranks the owner, and whoever is not the owner has the priority it
      started with. */
  lemma MutexCorrect(prio: map<nat, nat>, ops: seq<Op>)
    requires AllShallow(Init(prio), ops)
    ensures var m := Run(Init(prio), ops);
      && Consistent(m) && Queued(m) && Inherited(m)
      && forall t: nat :: m.owner != Some(t) ==> Priority(m.prio, t) == Priority(prio, t)
  {
    hide Run;
    RunInv(Init(prio), ops);
  }

  /** The last release restores the priority held at acquisition. */
  lemma LastReleaseRestores(m: M, t: nat)
    requires Inv(m) && m.owner == Some(t) && m.hold == 1
    ensures Priority(Step(m, Release(t)).prio, t) == Priority(m.base, t) == m.original
  {
    HandOverInv(m);
  }

  /** Without the PRIO flag the hand-off does not boost the new owner: it inherits exactly when no
      later waiter outranks the first. */
  lemma FifoHandOver(m: M)
    requires m.owner.Some? && m.waiters != [] && Distinct(m.waiters) && m.owner.value !in m.waiters
    ensures Inherited(HandOver(m)) <==>
      forall i :: 0 < i < |m.waiters| ==> Priority(m.prio, m.waiters[0]) <= Priority(m.prio, m.waiters[i])
  {
    var n, o := HandOver(m), m.owner.value;
    forall u
      ensures Priority(n.prio, u) == (if u == o then m.original else Priority(m.prio, u))
    {
      PriorityAt(m.prio, o, m.original, u);
    }
    assert m.waiters[0] in m.waiters;
    forall i | 0 < i < |m.waiters| ensures m.waiters[i] in n.waiters && m.waiters[i] != o {
      assert m.waiters[i] == n.waiters[i - 1];
      assert m.waiters[i] in m.waiters;
    }
    forall t | t in n.waiters ensures exists i :: 0 < i < |m.waiters| && m.waiters[i] == t {
      var j :| 0 <= j < |n.waiters| && n.waiters[j] == t;
      assert m.waiters[j + 1] == t;
    }
  }

  // ----- where it fails -----

  /** A FIFO mutex after three takes and a release: the new owner, of priority 9, holds up a waiter
      of priority 1. */
  lemma FifoLosesInheritance()
    ensures var m := Run(Init(map[0 := 10, 1 := 9, 2 := 1]).(byPrio := false),
      [Take(0, -1), Take(1, -1), Take(2, -1), Release(0)]);
      m.owner == Some(1) && m.waiters == [2] && !Inherited(m)
  {
    var m0 := Init(map[0 := 10, 1 := 9, 2 := 1]).(byPrio := false);
    var m1 := Step(m0, Take(0, -1));
    var m2 := Step(m1, Take(1, -1));
    assert m2.waiters == [1] && m2.prio[0] == 9;
    var m3 := Step(m2, Take(2, -1));
    assert m3.waiters == [1, 2] && m3.prio[0] == 1;
    var m4 := Step(m3, Release(0));
    assert m4.waiters == [2] && m4.owner == Some(1);
    assert 2 in m4.waiters && Priority(m4.prio, 1) == 9 && Priority(m4.prio, 2) == 1;
    UnrollFour(m0, Take(0, -1), Take(1, -1), Take(2, -1), Release(0));
  }

  lemma UnrollFour(m: M, a: Op, b: Op, c: Op, d: Op)
    ensures Run(m, [a, b, c, d]) == Step(Step(Step(Step(m, a), b), c), d)
  {
    hide Step;
    assert [a, b, c, d][1..] == [b, c, d] && [b, c, d][1..] == [c, d] && [c, d][1..] == [d] && [d][1..] == [];
    var m1 := Step(m, a);
    var m2 := Step(m1, b);
    var m3 := Step(m2, c);
    assert Run(m, [a, b, c, d]) == Run(m1, [b, c, d]);
    assert Run(m1, [b, c, d]) == Run(m2, [c, d]);
    assert Run(m2, [c, d]) == Run(m3, [d]);
    assert Run(m3, [d]) == Run(Step(m3, d), []);
  }

  /** `n` takes in a row by thread `t`. */
  function Nest(m: M, t: nat, n: nat): M { if n == 0 then m else Step(Nest(m, t, n - 1), Take(t, 0)) }

  lemma {:induction false} NestHold(prio: map<nat, nat>, t: nat, n: nat)
    requires n > 0
    ensures var m := Nest(Init(prio), t, n); m.owner == Some(t) && m.hold == n % HOLD_LIMIT && m.waiters == []
  {
    hide Suspend, HandOver;
    if n > 1 {
      NestHold(prio, t, n - 1);
      NestAgain(Nest(Init(prio), t, n - 1), t, n - 1);
    }
  }

  lemma NestAgain(m: M, t: nat, k: nat)
    requires m.owner == Some(t) && m.hold == k % HOLD_LIMIT && m.waiters == []
    ensures Step(m, Take(t, 0)) == m.(hold := (k + 1) % HOLD_LIMIT)
  {
  }

  /** After 256 nested takes the counter is back at 0 while the mutex is still owned. */
  lemma NestingOverflows(prio: map<nat, nat>, t: nat)
    ensures var m := Nest(Init(prio), t, HOLD_LIMIT); m.owner == Some(t) && m.hold == 0 && !Consistent(m)
  {
    NestHold(prio, t, HOLD_LIMIT);
  }

  // ----- the object, updated in place -----

  datatype Outcome = Done | Failed | Suspended

  class RtMutex {
    var value: nat
    var owner: Option<nat>
    var hold: nat
    var original: nat
    var waiters: seq<nat>
    var prio: map<nat, nat>
    const byPrio: bool
    ghost const base: map<nat, nat>

    ghost function View(): M
      reads this
    {
      M(value, owner, hold, original, waiters, byPrio, prio, base)
    }

    constructor (prio0: map<nat, nat>)
      ensures View() == Init(prio0)
    {
      value, owner, hold, original, waiters, prio, byPrio, base := 1, None, 0, NO_PRIORITY, [], prio0, true, prio0;
    }

    /** rt_mutex_take by thread `t`, up to the point where it has the mutex, is refused or suspended */
    method Take(t: nat, time: int) returns (r: Outcome)
      requires Consistent(View()) && t !in waiters
      modifies this
      ensures View() == Step(old(View()), Op.Take(t, time))
      ensures r == Done <==> owner == Some(t)
      ensures r == Suspended <==> t in waiters
    {
      hide Suspend;
      if owner == Some(t) {
        hold := (hold + 1) % HOLD_LIMIT;
        return Done;
      }
      if value > 0 {
        value, owner, original, hold := value - 1, Some(t), Priority(prio, t), (hold + 1) % HOLD_LIMIT;
        return Done;
      }
      if time == 0 { return Failed; }
      if Priority(prio, t) < Priority(prio, owner.value) { prio := prio[owner.value := Priority(prio, t)]; }
      SuspendElements(waiters, t, byPrio, prio);
      waiters := Suspend(waiters, t, byPrio, prio);
      return Suspended;
    }

    /** rt_mutex_release by thread `t`; names the thread it resumes. */
    method Release(t: nat) returns (ok: bool, woken: Option<nat>)
      requires Consistent(View()) && t !in waiters
      modifies this
      ensures View() == Step(old(View()), Op.Release(t))
      ensures ok <==> old(owner) == Some(t)
      ensures woken.Some? ==> owner == woken && old(waiters) == [woken.value] + waiters
    {
      if owner != Some(t) { return false, None; }
      hold := (hold + HOLD_LIMIT - 1) % HOLD_LIMIT;
      ok, woken := true, None;
      if hold == 0 {
        if original != Priority(prio, t) || t !in prio { prio := prio[t := original]; }
        if waiters != [] {
          woken := Some(waiters[0]);
          owner, original, hold := woken, Priority(prio, waiters[0]), 1;
          waiters := waiters[1..];
        } else {
          value, owner, original := value + 1, None, NO_PRIORITY;
        }
      }
    }
  }
}
