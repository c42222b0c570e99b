/** The node pool of an RT-Thread message queue: a free list and a message list threaded
    through the same nodes, changed only while interrupts are off. */
module MessagePool {
  import opened Basics
  import opened WaitList

  datatype Pool = Pool(
    next: seq<Option<nat>>,   // the link word of each node
    data: seq<Bytes>,         // the msg_size bytes behind it
    head: Option<nat>,
    tail: Option<nat>,
    free: Option<nat>,
    entry: int)

  // ----- the lists the links spell out -----

  predicate Chain(next: seq<Option<nat>>, start: Option<nat>, list: seq<nat>)
    decreases |list|
  {
    if list == [] then start == None
    else start == Some(list[0]) && list[0] < |next| && Chain(next, next[list[0]], list[1..])
  }

  /** `free` and `queue` are the two lists, `tail` and `entry` fit the message list. */
  ghost predicate Lists(p: Pool, free: seq<nat>, queue: seq<nat>) {
    && |p.data| == |p.next|
    && Chain(p.next, p.free, free) && Chain(p.next, p.head, queue)
    && p.tail == (if queue == [] then None else Some(queue[|queue| - 1]))
    && p.entry == |queue|
    && Distinct(free) && Distinct(queue) && (forall n :: n in free ==> n !in queue)
    && (forall n :: n in free || n in queue ==> n < |p.next|)
  }

  /** Writing the link of a node outside a list does not disturb the list. */
  lemma {:induction false} ChainFrame(next: seq<Option<nat>>, start: Option<nat>, list: seq<nat>, n: nat,
        x: Option<nat>)
    requires Chain(next, start, list) && n < |next| && n !in list
    ensures Chain(next[n := x], start, list)
    decreases |list|
  {
    if list != [] { ChainFrame(next, next[list[0]], list[1..], n, x); }
  }

  /** Linking `n` behind the last node extends the list. */
  lemma {:induction false} ChainAppend(next: seq<Option<nat>>, start: Option<nat>, list: seq<nat>, n: nat)
    requires Chain(next, start, list) && list != [] && Distinct(list) && n < |next| && n !in list && next[n] == None
    requires list[|list| - 1] < |next|
    ensures Chain(next[list[|list| - 1] := Some(n)], start, list + [n])
    decreases |list|
  {
    var last := list[|list| - 1];
    if |list| == 1 {
      assert list + [n] == [last, n] && (list + [n])[1..] == [n] && [n][1..] == [];
    } else {
      assert (list + [n])[1..] == list[1..] + [n] && list[1..][|list| - 2] == last;
      ChainAppend(next, next[list[0]], list[1..], n);
      assert next[last := Some(n)][list[0]] == next[list[0]];
    }
  }

  // ----- the critical sections -----

  /** Take the first free node, if there is one. */
  function PopFree(p: Pool): (Pool, Option<nat>)
    requires p.free.Some? ==> p.free.value < |p.next|
  {
    if p.free.None? then (p, None) else (p.(free := p.next[p.free.value]), p.free)
  }

  /** rt_mq_send_wait, second critical section: the node becomes the new tail. */
  function LinkTail(p: Pool, n: nat): Pool
    requires p.tail.Some? ==> p.tail.value < |p.next|
  {
    p.(next := if p.tail.Some? then p.next[p.tail.value := Some(n)] else p.next,
       tail := Some(n), head := if p.head.None? then Some(n) else p.head, entry := p.entry + 1)
  }

  /** rt_mq_urgent, second critical section: the node becomes the new head. */
  function LinkHead(p: Pool, n: nat): Pool
    requires n < |p.next|
  {
    p.(next := p.next[n := p.head], head := Some(n), tail := if p.tail.None? then Some(n) else p.tail,
       entry := p.entry + 1)
  }

  /** rt_mq_recv, first critical section. */
  function PopHead(p: Pool): (Pool, Option<nat>)
    requires p.head.Some? ==> p.head.value < |p.next|
  {
    if p.head.None? then (p, None)
    else (p.(head := p.next[p.head.value], tail := if p.tail == p.head then None else p.tail, entry := p.entry - 1),
          p.head)
  }

  /** rt_mq_recv, second critical section: back to the free list. */
  function PushFree(p: Pool, n: nat): Pool
    requires n < |p.next|
  {
    p.(next := p.next[n := p.free], free := Some(n))
  }

  // ----- what they do to the lists -----

  lemma PopFreeLists(p: Pool, free: seq<nat>, queue: seq<nat>)
    requires Lists(p, free, queue)
    ensures p.free.Some? <==> free != []
    ensures free != [] ==> PopFree(p).1 == Some(free[0]) && Lists(PopFree(p).0, free[1..], queue)
  {
  }

  lemma LinkTailLists(p: Pool, free: seq<nat>, queue: seq<nat>, n: nat)
    requires Lists(p, free, queue) && n < |p.next| && n !in free && n !in queue && p.next[n] == None
    ensures p.tail.Some? ==> p.tail.value < |p.next|
    ensures Lists(LinkTail(p, n), free, queue + [n])
  {
    if queue == [] {
      assert [n][1..] == [];
      assert queue + [n] == [n];
    } else {
      var last := queue[|queue| - 1];
      assert last in queue;
      ChainAppend(p.next, p.head, queue, n);
      ChainFrame(p.next, p.free, free, last, Some(n));
    }
  }

  lemma LinkHeadLists(p: Pool, free: seq<nat>, queue: seq<nat>, n: nat)
    requires Lists(p, free, queue) && n < |p.next| && n !in free && n !in queue
    ensures Lists(LinkHead(p, n), free, [n] + queue)
  {
    ChainFrame(p.next, p.head, queue, n, p.head);
    ChainFrame(p.next, p.free, free, n, p.head);
    assert ([n] + queue)[1..] == queue;
  }

  lemma PopHeadLists(p: Pool, free: seq<nat>, queue: seq<nat>)
    requires Lists(p, free, queue)
    ensures p.entry > 0 <==> queue != []
    ensures p.head.Some? <==> queue != []
    ensures queue != [] ==> queue[0] < |p.next| && queue[0] !in free && queue[0] !in queue[1..]
    ensures queue != [] ==> PopHead(p).1 == Some(queue[0]) && Lists(PopHead(p).0, free, queue[1..])
  {
    if queue != [] { ResumeElements(queue); }
  }

  lemma PushFreeLists(p: Pool, free: seq<nat>, queue: seq<nat>, n: nat)
    requires Lists(p, free, queue) && n < |p.next| && n !in free && n !in queue
    ensures Lists(PushFree(p, n), [n] + free, queue)
  {
    ChainFrame(p.next, p.head, queue, n, p.free);
    ChainFrame(p.next, p.free, free, n, p.free);
    assert ([n] + free)[1..] == free;
  }

  /** Writes to a node outside both lists. */
  lemma PrivateWrite(p: Pool, free: seq<nat>, queue: seq<nat>, n: nat, link: Option<nat>, bytes: Bytes)
    requires Lists(p, free, queue) && n < |p.next| && n !in free && n !in queue
    ensures Lists(p.(next := p.next[n := link], data := p.data[n := bytes]), free, queue)
  {
    ChainFrame(p.next, p.head, queue, n, link);
    ChainFrame(p.next, p.free, free, n, link);
  }

  /** The drain loop of a reset: every queued message goes to the free list, last one on top. */
  function Drain(p: Pool, k: nat): Pool
    decreases k
  {
    if k == 0 || p.head.None? || p.head.value >= |p.next| then p
    else Drain(PushFree(PopHead(p).0, p.head.value), k - 1)
  }

  function Reversed(s: seq<nat>): seq<nat> { if s == [] then [] else Reversed(s[1..]) + [s[0]] }

  /** Enough rounds empty the queue; nodes outside it and all data stay as they are. */
  lemma {:induction false} DrainLists(p: Pool, k: nat, free: seq<nat>, queue: seq<nat>)
    requires Lists(p, free, queue) && k >= |queue|
    ensures var d := Drain(p, k);
      && Lists(d, Reversed(queue) + free, []) && d.data == p.data && |d.next| == |p.next|
      && forall n: nat :: n < |p.next| && n !in queue ==> d.next[n] == p.next[n]
    decreases |queue|
  {
    hide Lists;
    PopHeadLists(p, free, queue);
    if queue == [] {
      assert Reversed(queue) + free == free;
    } else {
      var q := PopHead(p).0;
      PushFreeLists(q, free, queue[1..], queue[0]);
      DrainLists(PushFree(q, queue[0]), k - 1, [queue[0]] + free, queue[1..]);
      assert Reversed(queue) + free == Reversed(queue[1..]) + ([queue[0]] + free);
    }
  }

  // ----- the pool as initialised -----

  /** The loop of rt_mq_init: nodes 0 .. k - 1 pushed on the free list in turn. */
  function Built(p: Pool, k: nat): (r: Pool)
    requires k <= |p.next|
    ensures |r.next| == |p.next|
  {
    if k == 0 then p else PushFree(Built(p, k - 1), k - 1)
  }

  function Down(k: nat): seq<nat> { if k == 0 then [] else [k - 1] + Down(k - 1) }

  lemma {:induction false} BuiltLists(p: Pool, k: nat)
    requires Lists(p, [], []) && k <= |p.next|
    ensures Lists(Built(p, k), Down(k), [])
    ensures forall n: nat :: n in Down(k) <==> n < k
    ensures Built(p, k).data == p.data
  {
    hide Lists;
    if k > 0 {
      BuiltLists(p, k - 1);
      PushFreeLists(Built(p, k - 1), Down(k - 1), [], k - 1);
    }
  }

  // ----- the message count fits its field -----

  lemma {:induction false} DistinctBelow(s: seq<nat>, n: nat)
    requires Distinct(s) && forall x :: x in s ==> x < n
    ensures |s| <= n
    decreases n
  {
    hide Remove, Distinct;
    if s != [] {
      assert s[0] in s;
      var r := Remove(s, n - 1);
      RemoveElements(s, n - 1);
      RemoveLength(s, n - 1);
      forall x | x in r ensures x < n - 1 { assert x in s; }
      DistinctBelow(r, n - 1);
    }
  }

  lemma {:induction false} RemoveLength(s: seq<nat>, x: nat)
    requires Distinct(s)
    ensures |Remove(s, x)| >= |s| - 1
    ensures x !in s ==> Remove(s, x) == s
  {
    if s != [] {
      RemoveLength(s[1..], x);
      if s[0] == x { assert x !in s[1..]; }
    }
  }

  /** `entry` never exceeds the number of nodes, so a count as wide as max_msgs cannot wrap. */
  lemma EntryFits(p: Pool, free: seq<nat>, queue: seq<nat>)
    requires Lists(p, free, queue)
    ensures 0 <= p.entry <= |p.next|
  {
    DistinctBelow(queue, |p.next|);
  }
}
