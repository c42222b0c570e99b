/** From the first thread made ready to the first thread run: the state the scheduler begins with. */
module SchedulerStart {
  import opened WaitList
  import opened ReadyGroup
  import opened Scheduler

  /** rt_system_scheduler_init. There is no current thread yet; `slot` is where one will be named. */
  function Initial(threads: map<nat, Thread>, slot: nat): S { S(threads, slot, seq(LEVELS, _ => []), NoneSet(), 0) }

  /** rt_thread_startup of each thread of `order`, before there is a current thread. */
  function StartUp(s: S, order: seq<nat>): S
    decreases |order|
  {
    if order == [] || !Shape(s) || order[0] !in s.threads then s else StartUp(Enqueue(s, order[0]), order[1..])
  }

  /** rt_system_scheduler_start */
  function Begin(s: S): S
    requires Shape(s) && AnyReady(s)
  {
    var q := s.queues[Highest(s)];
    if q == [] || q[0] !in s.threads then s else Leave(s.(cur := q[0]), q[0], Running)
  }

  /** Threads that have been created and not started. */
  predicate Created(threads: map<nat, Thread>) {
    forall t :: t in threads ==>
      threads[t].stat == Init && threads[t].prio < LEVELS && threads[t].remaining > 0 && threads[t].slice > 0
  }

  lemma InitialLists(threads: map<nat, Thread>, slot: nat)
    requires Created(threads) && slot in threads
    ensures Lists(Initial(threads, slot))
  {
    hide Bit, NoneSet;
    var s := Initial(threads, slot);
    forall p | 0 <= p < LEVELS ensures Bit(s.group, p) <==> s.queues[p] != [] { NoneSetBit(p); }
  }

  /** What `order` says of thread `t`: the state it is in once they have been started. */
  predicate Started(s: S, u: S, order: seq<nat>) {
    && u.threads.Keys == s.threads.Keys && u.cur == s.cur && u.lock == s.lock
    && forall t :: t in s.threads ==> u.threads[t] == if t in order then s.threads[t].(stat := Ready) else s.threads[t]
  }

  lemma {:induction false} StartUpLists(s: S, order: seq<nat>)
    requires Lists(s) && Distinct(order) && forall t :: t in order ==> t in s.threads && s.threads[t].stat != Ready
    ensures Lists(StartUp(s, order)) && Started(s, StartUp(s, order), order)
    decreases |order|
  {
    hide Lists, SetBit, Distinct;
    if order != [] {
      ListsShape(s);
      var u := Enqueue(s, order[0]);
      EnqueueLists(s, order[0]);
      RestDistinct(order);
      forall t ensures t in order <==> t == order[0] || t in order[1..] { assert order == [order[0]] + order[1..]; }
      StartUpLists(u, order[1..]);
    }
  }

  lemma ListsShape(s: S)
    requires Lists(s)
    ensures Shape(s)
  {
  }

  lemma RestDistinct(order: seq<nat>)
    requires Distinct(order) && order != []
    ensures Distinct(order[1..]) && order[0] !in order[1..]
  {
  }

  /** The threads of `order` with priority `p`, in order. */
  function OfPriority(threads: map<nat, Thread>, order: seq<nat>, p: nat): seq<nat> {
    if order == [] then []
    else if order[0] in threads && threads[order[0]].prio == p then [order[0]] + OfPriority(threads, order[1..], p)
    else OfPriority(threads, order[1..], p)
  }

  lemma {:induction false} SamePriorities(s: map<nat, Thread>, u: map<nat, Thread>, order: seq<nat>, p: nat)
    requires u.Keys == s.Keys && forall t :: t in s ==> u[t].prio == s[t].prio
    ensures OfPriority(u, order, p) == OfPriority(s, order, p)
  {
    if order != [] { SamePriorities(s, u, order[1..], p); }
  }

  lemma {:induction false} QueueIs(s: S, order: seq<nat>, p: nat)
    requires Shape(s) && (forall t :: t in order ==> t in s.threads) && p < LEVELS
    ensures Shape(StartUp(s, order)) && StartUp(s, order).queues[p] == s.queues[p] + OfPriority(s.threads, order, p)
    decreases |order|
  {
    hide SetBit;
    if order != [] {
      var u := Enqueue(s, order[0]);
      forall t | t in order[1..] ensures t in s.threads { assert t in order; }
      QueueIs(u, order[1..], p);
      SamePriorities(s.threads, u.threads, order[1..], p);
    }
  }

  /** `order[i]` is the first of its priority in `order`. */
  lemma {:induction false} HeadOf(threads: map<nat, Thread>, order: seq<nat>, p: nat) returns (i: nat)
    requires OfPriority(threads, order, p) != []
    ensures i < |order| && order[i] in threads && threads[order[i]].prio == p
    ensures order[i] == OfPriority(threads, order, p)[0]
    ensures forall j :: 0 <= j < i ==> order[j] !in threads || threads[order[j]].prio != p
  {
    if order[0] in threads && threads[order[0]].prio == p {
      i := 0;
    } else {
      var k := HeadOf(threads, order[1..], p);
      i := k + 1;
    }
  }

  /** The thread at place `i` outranks all others of `order`, those of its own priority by coming first. */
  ghost predicate BestAt(threads: map<nat, Thread>, order: seq<nat>, i: nat) {
    && i < |order| && order[i] in threads
    && (forall j :: 0 <= j < |order| && order[j] in threads ==> threads[order[i]].prio <= threads[order[j]].prio)
    && (forall j :: 0 <= j < i && order[j] in threads ==> threads[order[i]].prio < threads[order[j]].prio)
  }

  ghost predicate FirstOfBest(threads: map<nat, Thread>, order: seq<nat>, t: nat) {
    exists i: nat :: BestAt(threads, order, i) && order[i] == t
  }

  /** Whatever threads are started, in whatever order: the scheduler begins in a state of its invariant, and
      the thread it runs is the first started among those of the best priority started. */
  lemma BeginInv(threads: map<nat, Thread>, slot: nat, order: seq<nat>)
    requires Created(threads) && slot in threads
    requires order != [] && Distinct(order) && forall t :: t in order ==> t in threads
    ensures var s := StartUp(Initial(threads, slot), order);
      && Shape(s) && AnyReady(s)
      && var n := Begin(s);
         Inv(n) && n.threads[n.cur].stat == Running && FirstOfBest(threads, order, n.cur)
  {
    hide Bits, Queues, Sliced, Ffs, Take, NoneSet;
    var i := Initial(threads, slot);
    var s := StartUp(i, order);
    InitialLists(threads, slot);
    StartUpLists(i, order);
    assert order[0] in order && s.threads[order[0]].stat == Ready;
    HighestReady(s);
    HeadReady(s);
    var to := s.queues[Highest(s)][0];
    RecurLists(s, to);
    LeaveLists(s.(cur := to), to, Running);
    TakeThreads(s.(cur := to), to);
    QueueIs(i, order, Highest(s));
    var k := HeadOf(threads, order, Highest(s));
    forall j | 0 <= j < |order| && order[j] in threads ensures Highest(s) <= threads[order[j]].prio {
      assert order[j] in order && s.threads[order[j]].stat == Ready;
    }
    assert BestAt(threads, order, k) && order[k] == to;
  }

  lemma HeadReady(s: S)
    requires Lists(s) && AnyReady(s) && s.queues[Highest(s)] != []
    ensures var q := s.queues[Highest(s)];
      q[0] in s.threads && s.threads[q[0]].stat == Ready && s.threads[q[0]].prio == Highest(s)
  {
    hide Bits, Ffs;
    var q := s.queues[Highest(s)];
    assert q[0] in q;
  }

  lemma RecurLists(s: S, t: nat)
    requires Lists(s) && t in s.threads
    ensures Lists(s.(cur := t))
  {
  }

  /** So it holds ever after. */
  lemma EverAfter(threads: map<nat, Thread>, slot: nat, order: seq<nat>, ops: seq<Op>)
    requires Created(threads) && slot in threads
    requires order != [] && Distinct(order) && forall t :: t in order ==> t in threads
    ensures var s := StartUp(Initial(threads, slot), order);
      Shape(s) && AnyReady(s) && Inv(Run(Begin(s), ops))
  {
    hide Inv, AnyReady, Begin, StartUp, Created;
    BeginInv(threads, slot, order);
    RunInv(Begin(StartUp(Initial(threads, slot), order)), ops);
  }
}
