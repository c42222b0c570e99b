/** The message queue object itself: the critical sections of ipc.c, updating the pool in place. */
module MessageQueueObject {
  import opened Basics
  import opened WaitList
  import opened MessagePool

  class Mq {
    const next: array<Option<nat>>
    const data: array<Bytes>
    var head: Option<nat>
    var tail: Option<nat>
    var free: Option<nat>
    var entry: int
    var recvQ: seq<nat>
    var sendQ: seq<nat>

    function View(): Pool
      reads this, next, data
    {
      Pool(next[..], data[..], head, tail, free, entry)
    }

    /** The links are in range, which Lists guarantees. */
    predicate InRange()
      reads this, next
    {
      && (head.Some? ==> head.value < next.Length) && (tail.Some? ==> tail.value < next.Length)
      && (free.Some? ==> free.value < next.Length)
    }

    /** rt_mq_init */
    constructor (nodes: nat, msgSize: nat)
      ensures fresh(next) && fresh(data) && next.Length == nodes == data.Length
      ensures Lists(View(), Down(nodes), []) && recvQ == [] && sendQ == []
      ensures forall n: nat :: n < nodes ==> |data[n]| == msgSize
    {
      next := new Option<nat>[nodes](_ => None);
      data := new Bytes[nodes](_ => seq(msgSize, _ => 0));
      head, tail, free, entry := None, None, None, 0;
      recvQ, sendQ := [], [];
      new;
      ghost var blank := View();
      var k := 0;
      while k < nodes
        invariant 0 <= k <= nodes && View() == Built(blank, k)
        invariant forall n: nat :: n < nodes ==> |data[n]| == msgSize
        invariant recvQ == [] && sendQ == []
      {
        next[k] := free;
        free := Some(k);
        k := k + 1;
      }
      BuiltLists(blank, nodes);
    }

    /** rt_mq_send_wait and rt_mq_urgent up to the copy: the first free node, if any. */
    method TakeFree() returns (msg: Option<nat>)
      requires InRange()
      modifies this`free
      ensures (View(), msg) == PopFree(old(View()))
    {
      msg := free;
      if msg.Some? { free := next[msg.value]; }
    }

    /** rt_mq_send_wait after the copy; names the receiver it resumes. */
    method LinkMessage(msg: nat) returns (woken: Option<nat>)
      requires InRange() && msg < next.Length
      modifies this`head, this`tail, this`entry, this`recvQ, next
      ensures View() == LinkTail(old(View()), msg)
      ensures woken.None? <==> old(recvQ) == []
      ensures woken.Some? ==> old(recvQ) == [woken.value] + recvQ
      ensures woken.None? ==> recvQ == []
    {
      if tail.Some? { next[tail.value] := Some(msg); }
      tail := Some(msg);
      if head.None? { head := Some(msg); }
      entry := entry + 1;
      woken := ResumeReceiver();
    }

    /** rt_mq_urgent after the copy. */
    method LinkUrgent(msg: nat) returns (woken: Option<nat>)
      requires InRange() && msg < next.Length
      modifies this`head, this`tail, this`entry, this`recvQ, next
      ensures View() == LinkHead(old(View()), msg)
      ensures woken.None? <==> old(recvQ) == []
      ensures woken.Some? ==> old(recvQ) == [woken.value] + recvQ
      ensures woken.None? ==> recvQ == []
    {
      next[msg] := head;
      head := Some(msg);
      if tail.None? { tail := Some(msg); }
      entry := entry + 1;
      woken := ResumeReceiver();
    }

    method ResumeReceiver() returns (woken: Option<nat>)
      modifies this`recvQ
      ensures woken.None? <==> old(recvQ) == []
      ensures woken.Some? ==> old(recvQ) == [woken.value] + recvQ
      ensures woken.None? ==> recvQ == []
    {
      woken := None;
      if recvQ != [] {
        woken := Some(recvQ[0]);
        recvQ := recvQ[1..];
      }
    }

    /** rt_mq_recv up to the copy, on a queue that is not empty. */
    method TakeMessage() returns (msg: nat)
      requires InRange() && head.Some?
      modifies this`head, this`tail, this`entry
      ensures (View(), Some(msg)) == PopHead(old(View()))
    {
      msg := head.value;
      head := next[msg];
      if tail == Some(msg) { tail := None; }
      entry := entry - 1;
    }

    /** rt_mq_recv after the copy; names the sender it resumes. */
    method ReturnNode(msg: nat) returns (woken: Option<nat>)
      requires InRange() && msg < next.Length
      modifies this`free, this`sendQ, next
      ensures View() == PushFree(old(View()), msg)
      ensures woken.None? <==> old(sendQ) == []
      ensures woken.Some? ==> old(sendQ) == [woken.value] + sendQ
      ensures woken.None? ==> sendQ == []
    {
      next[msg] := free;
      free := Some(msg);
      woken := None;
      if sendQ != [] {
        woken := Some(sendQ[0]);
        sendQ := sendQ[1..];
      }
    }

    /** rt_mq_control, reset: the whole queue goes to the free list, newest on top. */
    method Reset(ghost freeList: seq<nat>, ghost queue: seq<nat>)
      requires Lists(View(), freeList, queue)
      modifies this, next
      ensures Lists(View(), Reversed(queue) + freeList, [])
      ensures recvQ == [] && sendQ == [] && data[..] == old(data[..])
    {
      recvQ, sendQ := [], [];
      ghost var f, q := freeList, queue;
      while head.Some?
        invariant Lists(View(), f, q) && Reversed(q) + f == Reversed(queue) + freeList
        invariant recvQ == [] && sendQ == [] && data[..] == old(data[..])
        decreases |q|
      {
        f, q := DrainOne(f, q);
      }
      PopHeadLists(View(), f, q);
      assert q == [] && Reversed(q) + f == f;
      entry := 0;
    }

    method DrainOne(ghost f: seq<nat>, ghost q: seq<nat>) returns (ghost f': seq<nat>, ghost q': seq<nat>)
      requires Lists(View(), f, q) && head.Some?
      modifies this`head, this`tail, this`free, this`entry, next
      ensures q != [] && f' == [q[0]] + f && q' == q[1..] && Lists(View(), f', q')
      ensures Reversed(q') + f' == Reversed(q) + f
    {
      PopHeadLists(View(), f, q);
      ghost var popped := PopHead(View()).0;
      assert q[0] in q && q[0] < next.Length;
      f', q' := [q[0]] + f, q[1..];
      PushFreeLists(popped, f, q[1..], q[0]);
      var msg := head.value;
      head := next[msg];
      if tail == Some(msg) { tail := None; }
      entry := entry - 1;
      next[msg] := free;
      free := Some(msg);
      assert View() == PushFree(popped, msg);
    }
  }
}
