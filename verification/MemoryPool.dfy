/** RT-Thread memory pools: equal blocks on a free list threaded through their first words, with
    threads that wait for a block. */
module MemoryPool {
  import opened Basics
  import opened WaitList
  import opened Wakeups
  import MP = MessagePool

  type Link = Option<nat>

  /** The link word of a handed-out block points at the pool, written here as block number |next|. */
  datatype Mp = Mp(next: seq<Link>, list: Link, freeCount: nat, waiters: Side)

  ghost predicate Free(m: Mp, free: seq<nat>) {
    && MP.Chain(m.next, m.list, free) && Distinct(free) && (forall b :: b in free ==> b < |m.next|)
    && m.freeCount == |free|
    && (forall b: nat :: b < |m.next| ==> (b in free <==> m.next[b] != Some(|m.next|)))
  }

  ghost predicate Ok(m: Mp, free: seq<nat>) {
    Free(m, free) && Wakeups.Inv(m.waiters) && m.waiters.items == m.freeCount
  }

  datatype Op =
    | Alloc(t: nat, time: int)   // by a newcomer, or again after a resume
    | Release(b: nat)
    | Timeout(t: nat)

  predicate InRange(m: Mp) { m.list.Some? ==> m.list.value < |m.next| }

  /** rt_mp_alloc up to its first interrupt-enable; waiters queue last in, first out. */
  function AllocStep(m: Mp, t: nat, time: int): Mp {
    if m.freeCount == 0 then
      m.(waiters := if time == 0 then Leave(m.waiters, t) else Sleep(m.waiters, t, [t] + m.waiters.queue))
    else if m.list.None? || m.list.value >= |m.next| || m.waiters.items == 0 then m
    else
      Mp(m.next[m.list.value := Some(|m.next|)], m.next[m.list.value], m.freeCount - 1, Take(m.waiters, t))
  }

  /** rt_mp_free of a block this pool handed out. */
  function ReleaseStep(m: Mp, b: nat): Mp
    requires b < |m.next|
  {
    Mp(m.next[b := m.list], Some(b), m.freeCount + 1, Put(m.waiters))
  }

  function Step(m: Mp, op: Op): Mp {
    match op
    case Alloc(t, time) => if t in m.waiters.queue then m else AllocStep(m, t, time)
    case Release(b) => if b < |m.next| && m.next[b] == Some(|m.next|) then ReleaseStep(m, b) else m
    case Timeout(t) => m.(waiters := Expire(m.waiters, t))
  }

  function FreeAfter(m: Mp, free: seq<nat>, op: Op): seq<nat> {
    match op
    case Alloc(t, _) => if t in m.waiters.queue || free == [] then free else free[1..]
    case Release(b) => if b < |m.next| && m.next[b] == Some(|m.next|) then [b] + free else free
    case Timeout(_) => free
  }

  /** A block is handed out only when free, and the one handed out is the head of the free list. */
  lemma AllocFree(m: Mp, t: nat, time: int, free: seq<nat>)
    requires Free(m, free) && m.waiters.items == m.freeCount
    ensures m.freeCount > 0 ==> free != [] && m.list == Some(free[0]) && free[0] < |m.next|
    ensures Free(AllocStep(m, t, time), if free == [] then free else free[1..])
  {
    if free != [] {
      var b := free[0];
      assert b in free;
      ResumeElements(free);
      MP.ChainFrame(m.next, m.next[b], free[1..], b, Some(|m.next|));
    }
  }

  lemma ReleaseFree(m: Mp, b: nat, free: seq<nat>)
    requires Free(m, free) && b < |m.next| && m.next[b] == Some(|m.next|)
    ensures Free(ReleaseStep(m, b), [b] + free)
  {
    MP.ChainFrame(m.next, m.list, free, b, m.list);
    assert ([b] + free)[1..] == free;
    if free != [] { assert free[0] in free; }
  }

  lemma StepOk(m: Mp, op: Op, free: seq<nat>)
    requires Ok(m, free)
    ensures Ok(Step(m, op), FreeAfter(m, free, op))
  {
    hide Free, Wakeups.Inv, Put, Take, Sleep, Leave;
    match op
    case Alloc(t, time) =>
      if t !in m.waiters.queue {
        AllocFree(m, t, time, free);
        AllocWaiters(m, t, time);
        FreeCount(m, free);
      }
    case Release(b) =>
      if b < |m.next| && m.next[b] == Some(|m.next|) {
        ReleaseFree(m, b, free);
        PutInv(m.waiters);
        PutItems(m.waiters);
      }
    case Timeout(t) =>
      ExpireInv(m.waiters, t);
      ExpireKeeps(m, t, free);
  }

  lemma FreeCount(m: Mp, free: seq<nat>)
    requires Free(m, free)
    ensures m.freeCount == |free|
  {
  }

  lemma PutItems(s: Side)
    ensures Put(s).items == s.items + 1
  {
  }

  lemma ExpireKeeps(m: Mp, t: nat, free: seq<nat>)
    requires Free(m, free)
    ensures Free(m.(waiters := Expire(m.waiters, t)), free)
  {
  }

  lemma AllocWaiters(m: Mp, t: nat, time: int)
    requires Wakeups.Inv(m.waiters) && m.waiters.items == m.freeCount && t !in m.waiters.queue
    requires m.freeCount > 0 ==> m.list.Some? && m.list.value < |m.next|
    ensures var n := AllocStep(m, t, time); Wakeups.Inv(n.waiters) && n.waiters.items == n.freeCount
  {
    if m.freeCount > 0 {
      TakeInv(m.waiters, t);
    } else if time == 0 {
      LeaveInv(m.waiters, t);
    } else {
      var q := m.waiters.queue;
      DistinctCons(t, q);
      SleepInv(m.waiters, t, [t] + q);
    }
  }

  function Run(m: Mp, ops: seq<Op>): Mp
    decreases |ops|
  {
    if ops == [] then m else Run(Step(m, ops[0]), ops[1..])
  }

  lemma {:induction false} RunOk(m: Mp, ops: seq<Op>, free: seq<nat>) returns (free': seq<nat>)
    requires Ok(m, free)
    ensures Ok(Run(m, ops), free')
    decreases |ops|
  {
    hide Step, FreeAfter, Ok;
    free' := free;
    if ops != [] {
      StepOk(m, ops[0], free);
      free' := RunOk(Step(m, ops[0]), ops[1..], FreeAfter(m, free, ops[0]));
    }
  }

  // ----- rt_mp_init -----

  function Up(k: nat, n: nat): seq<nat>
    requires k <= n
    decreases n - k
  {
    if k == n then [] else [k] + Up(k + 1, n)
  }

  function Init(n: nat): Mp
    requires n > 0
  {
    Mp(seq(n, i requires 0 <= i < n => if i + 1 < n then Some(i + 1) else None), Some(0), n, Side(n, [], {}))
  }

  lemma {:induction false} UpChain(k: nat, n: nat)
    requires 0 < n && k <= n
    ensures MP.Chain(Init(n).next, if k < n then Some(k) else None, Up(k, n))
    ensures |Up(k, n)| == n - k && Distinct(Up(k, n)) && forall b: nat :: b in Up(k, n) <==> k <= b < n
    decreases n - k
  {
    if k < n {
      UpChain(k + 1, n);
      DistinctCons(k, Up(k + 1, n));
      assert Up(k, n)[1..] == Up(k + 1, n);
    }
  }

  /** Over every run of allocations, releases and timeouts: the list holds exactly the blocks not
      handed out, the counter counts them, and threads wait only while the resumed ones can take
      every free block. */
  lemma PoolCorrect(n: nat, ops: seq<Op>) returns (free: seq<nat>)
    requires n > 0
    ensures var m := Run(Init(n), ops);
      Free(m, free) && (m.waiters.queue != [] ==> m.freeCount <= |m.waiters.woken|)
  {
    UpChain(0, n);
    free := RunOk(Init(n), ops, Up(0, n));
  }

  // ----- the object, updated in place -----

  class PoolObject {
    const next: array<Link>
    var list: Link
    var freeCount: nat
    var queue: seq<nat>
    var woken: set<nat>   // resumed threads that have not run yet

    function View(): Mp
      reads this, next
    {
      Mp(next[..], list, freeCount, Side(freeCount, queue, woken))
    }

    /** rt_mp_init */
    constructor (n: nat)
      requires n > 0
      ensures fresh(next) && View() == Init(n)
    {
      next := new Link[n](_ => None);
      list, freeCount, queue, woken := Some(0), n, [], {};
      new;
      var offset := 0;
      while offset < n
        invariant 0 <= offset <= n && forall i :: 0 <= i < offset ==> next[i] == Some(i + 1)
        invariant list == Some(0) && freeCount == n && queue == [] && woken == {}
      {
        next[offset] := Some(offset + 1);
        offset := offset + 1;
      }
      next[offset - 1] := None;
    }

    /** One pass of rt_mp_alloc: a block, or none because the caller waits or gives up. */
    method Alloc(t: nat, time: int, ghost free: seq<nat>) returns (block: Link)
      requires Ok(View(), free) && t !in queue
      modifies this, next
      ensures View() == Step(old(View()), Op.Alloc(t, time))
      ensures block.Some? <==> free != []
      ensures block.Some? ==> block.value == free[0] && block.value !in free[1..]
    {
      AllocFree(View(), t, time, free);
      woken := woken - {t};
      block := None;
      if freeCount == 0 {
        if time != 0 { queue := [t] + queue; }
      } else {
        freeCount := freeCount - 1;
        block := list;
        list := next[block.value];
        next[block.value] := Some(next.Length);
      }
    }

    /** rt_mp_free */
    method Release(b: nat)
      requires b < next.Length && next[b] == Some(next.Length)
      modifies this, next
      ensures View() == Step(old(View()), Op.Release(b))
    {
      freeCount := freeCount + 1;
      next[b] := list;
      list := Some(b);
      if queue != [] {
        woken := woken + {queue[0]};
        queue := queue[1..];
      }
    }
  }
}
