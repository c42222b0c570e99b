/** The RT-Thread message queue under concurrent sends, urgent sends, receives, timeouts and
    resets. One step is the code between an interrupt-disable and the next interrupt-enable, or
    the copy of one byte by a thread that owns a node. */
module MessageQueue {
  import opened Basics
  import opened WaitList
  import opened MessagePool

  /** Where a thread is inside the message queue code. */
  datatype Phase =
    | Idle
    | WaitSend(msg: Bytes)     // on the sender list
    | WokenSend(msg: Bytes)    // resumed, not yet run
    | WaitRecv(size: nat)      // on the receiver list
    | WokenRecv(size: nat)
    | Filling(node: nat, msg: Bytes, urgent: bool, copied: nat)
    | Draining(node: nat, size: nat, got: Bytes, ticket: nat)

  datatype Sent = Sent(bytes: Bytes, urgent: bool)
  datatype Delivery = Delivery(ticket: nat, bytes: Bytes)

  /** What happened so far: the lists the links spell out, and a ticket number per linked message. */
  datatype History = History(
    free: seq<nat>, queue: seq<nat>, own: map<nat, nat>,
    sent: seq<Sent>, order: seq<nat>, taken: seq<nat>, dropped: seq<nat>, delivered: seq<Delivery>)

  datatype Sys = Sys(
    p: Pool, msgSize: nat, byPrio: bool, prio: map<nat, nat>,
    phase: map<nat, Phase>, recvQ: seq<nat>, sendQ: seq<nat>, h: History)

  datatype Op =
    | Send(t: nat, msg: Bytes, timeout: int)
    | Urgent(t: nat, msg: Bytes)
    | SendAgain(t: nat, timeout: int)
    | CopyIn1(t: nat)
    | Link(t: nat)
    | Recv(t: nat, size: nat, timeout: int)
    | RecvAgain(t: nat, timeout: int)
    | CopyOut1(t: nat)
    | Release(t: nat)
    | Timeout(t: nat)
    | Reset

  function Tail<T>(s: seq<T>): seq<T> { if s == [] then [] else s[1..] }
  function Min(a: nat, b: nat): nat { if a <= b then a else b }
  predicate Owning(ph: Phase) { ph.Filling? || ph.Draining? }

  // ----- the steps -----

  /** The waiting loop of rt_mq_send_wait, up to its first interrupt-enable. */
  function TrySend(s: Sys, t: nat, msg: Bytes, timeout: int): Sys {
    if s.p.free.Some? then TakeFree(s, t, msg, false)
    else if timeout == 0 then s.(phase := s.phase[t := Idle])
    else s.(phase := s.phase[t := WaitSend(msg)], sendQ := Suspend(s.sendQ, t, s.byPrio, s.prio))
  }

  function TakeFree(s: Sys, t: nat, msg: Bytes, urgent: bool): Sys {
    if s.p.free.None? || s.p.free.value >= |s.p.next| then s
    else
      var n := s.p.free.value;
      s.(p := PopFree(s.p).0, phase := s.phase[t := Filling(n, msg, urgent, 0)],
         h := s.h.(free := Tail(s.h.free), own := s.h.own[n := t]))
  }

  /** One byte of the memcpy into an owned node; a tail message is given its null link first. */
  function Copied(s: Sys, t: nat): Sys {
    if t in s.phase && s.phase[t].Filling? && s.phase[t].copied < |s.phase[t].msg|
       && s.phase[t].node < |s.p.next| == |s.p.data| && s.phase[t].copied < |s.p.data[s.phase[t].node]| then
      var ph := s.phase[t];
      s.(p := s.p.(next := if ph.urgent || ph.copied > 0 then s.p.next else s.p.next[ph.node := None],
                   data := s.p.data[ph.node := s.p.data[ph.node][ph.copied := ph.msg[ph.copied]]]),
         phase := s.phase[t := ph.(copied := ph.copied + 1)])
    else s
  }

  /** Linking, without the resume that follows. */
  function Linked(s: Sys, t: nat): Sys
    requires t in s.phase && s.phase[t].Filling? && s.phase[t].node < |s.p.next|
    requires s.p.tail.Some? ==> s.p.tail.value < |s.p.next|
  {
    var ph := s.phase[t];
    var k := |s.h.sent|;
    s.(p := if ph.urgent then LinkHead(s.p, ph.node) else LinkTail(s.p, ph.node),
       phase := s.phase[t := Idle],
       h := s.h.(queue := if ph.urgent then [ph.node] + s.h.queue else s.h.queue + [ph.node],
                 own := s.h.own - {ph.node},
                 sent := s.h.sent + [Sent(ph.msg, ph.urgent)],
                 order := if ph.urgent then [k] + s.h.order else s.h.order + [k]))
  }

  function WakeRecv(s: Sys): Sys {
    if s.recvQ == [] || s.recvQ[0] !in s.phase || !s.phase[s.recvQ[0]].WaitRecv? then s
    else s.(recvQ := s.recvQ[1..], phase := s.phase[s.recvQ[0] := WokenRecv(s.phase[s.recvQ[0]].size)])
  }

  function WakeSend(s: Sys): Sys {
    if s.sendQ == [] || s.sendQ[0] !in s.phase || !s.phase[s.sendQ[0]].WaitSend? then s
    else s.(sendQ := s.sendQ[1..], phase := s.phase[s.sendQ[0] := WokenSend(s.phase[s.sendQ[0]].msg)])
  }

  /** The waiting loop of rt_mq_recv, up to its first interrupt-enable. */
  function TryRecv(s: Sys, t: nat, size: nat, timeout: int): Sys {
    if s.p.entry != 0 then TakeHead(s, t, size)
    else if timeout == 0 then s.(phase := s.phase[t := Idle])
    else s.(phase := s.phase[t := WaitRecv(size)], recvQ := Suspend(s.recvQ, t, s.byPrio, s.prio))
  }

  function TakeHead(s: Sys, t: nat, size: nat): Sys {
    if s.p.head.None? || s.p.head.value >= |s.p.next| || s.h.order == [] then s
    else
      var n := s.p.head.value;
      s.(p := PopHead(s.p).0, phase := s.phase[t := Draining(n, Min(size, s.msgSize), [], s.h.order[0])],
         h := s.h.(queue := Tail(s.h.queue), own := s.h.own[n := t],
                   order := s.h.order[1..], taken := s.h.taken + [s.h.order[0]]))
  }

  function Fetched(s: Sys, t: nat): Sys {
    if t in s.phase && s.phase[t].Draining? && |s.phase[t].got| < s.phase[t].size
       && s.phase[t].node < |s.p.data| && |s.phase[t].got| < |s.p.data[s.phase[t].node]| then
      var ph := s.phase[t];
      s.(phase := s.phase[t := ph.(got := ph.got + [s.p.data[ph.node][|ph.got|]])])
    else s
  }

  /** Returning the node, without the resume that follows. */
  function Released(s: Sys, t: nat): Sys
    requires t in s.phase && s.phase[t].Draining? && s.phase[t].node < |s.p.next|
  {
    var ph := s.phase[t];
    s.(p := PushFree(s.p, ph.node), phase := s.phase[t := Idle],
       h := s.h.(free := [ph.node] + s.h.free, own := s.h.own - {ph.node},
                 delivered := s.h.delivered + [Delivery(ph.ticket, ph.got)]))
  }

  function Unwait(phase: map<nat, Phase>): map<nat, Phase> {
    map t | t in phase :: if phase[t].WaitSend? || phase[t].WaitRecv? then Idle else phase[t]
  }

  /** rt_mq_control with the reset command. */
  function ResetAll(s: Sys): Sys {
    s.(p := Drain(s.p, |s.p.next|).(entry := 0), phase := Unwait(s.phase), recvQ := [], sendQ := [],
       h := s.h.(free := Reversed(s.h.queue) + s.h.free, queue := [], order := [], dropped := s.h.dropped + s.h.order))
  }

  /** A step that is not enabled changes nothing. */
  function Step(s: Sys, op: Op): Sys {
    match op
    case Send(t, msg, timeout) =>
      if t in s.phase && s.phase[t].Idle? && 0 < |msg| <= s.msgSize then TrySend(s, t, msg, timeout) else s
    case Urgent(t, msg) =>
      if t in s.phase && s.phase[t].Idle? && 0 < |msg| <= s.msgSize then TakeFree(s, t, msg, true) else s
    case SendAgain(t, timeout) =>
      if t in s.phase && s.phase[t].WokenSend? then TrySend(s, t, s.phase[t].msg, timeout) else s
    case CopyIn1(t) => Copied(s, t)
    case Link(t) =>
      if t in s.phase && s.phase[t].Filling? && s.phase[t].copied == |s.phase[t].msg| && s.phase[t].node < |s.p.next|
         && (s.p.tail.Some? ==> s.p.tail.value < |s.p.next|)
      then WakeRecv(Linked(s, t)) else s
    case Recv(t, size, timeout) =>
      if t in s.phase && s.phase[t].Idle? && size > 0 then TryRecv(s, t, size, timeout) else s
    case RecvAgain(t, timeout) =>
      if t in s.phase && s.phase[t].WokenRecv? then TryRecv(s, t, s.phase[t].size, timeout) else s
    case CopyOut1(t) => Fetched(s, t)
    case Release(t) =>
      if t in s.phase && s.phase[t].Draining? && |s.phase[t].got| == s.phase[t].size && s.phase[t].node < |s.p.next|
      then WakeSend(Released(s, t)) else s
    case Timeout(t) =>
      if t in s.phase && s.phase[t].WaitSend? then s.(phase := s.phase[t := Idle], sendQ := Remove(s.sendQ, t))
      else if t in s.phase && s.phase[t].WaitRecv? then s.(phase := s.phase[t := Idle], recvQ := Remove(s.recvQ, t))
      else s
    case Reset => ResetAll(s)
  }

  function Run(s: Sys, ops: seq<Op>): Sys
    decreases |ops|
  {
    if ops == [] then s else Run(Step(s, ops[0]), ops[1..])
  }

  // ----- the invariant -----

  /** Every node is free, queued, or owned by the one thread that fills or drains it. */
  ghost predicate Owners(nodes: nat, phase: map<nat, Phase>, free: seq<nat>, queue: seq<nat>, own: map<nat, nat>) {
    && (forall n :: n in own ==> n < nodes && n !in free && n !in queue)
    && (forall n :: n in own ==> own[n] in phase && Owning(phase[own[n]]) && phase[own[n]].node == n)
    && (forall t :: t in phase && Owning(phase[t]) ==> phase[t].node in own && own[phase[t].node] == t)
    && (forall n: nat :: n < nodes ==> n in free || n in queue || n in own)
  }

  predicate Carries(buf: Bytes, msg: Bytes) { |msg| <= |buf| && buf[..|msg|] == msg }

  /** What the owner of a node may rely on. */
  predicate Filled(p: Pool, msgSize: nat, ph: Phase)
    requires ph.Filling?
  {
    && ph.node < |p.next| == |p.data| && 0 < |ph.msg| <= msgSize && ph.copied <= |ph.msg|
    && |p.data[ph.node]| == msgSize && p.data[ph.node][..ph.copied] == ph.msg[..ph.copied]
    && (ph.copied > 0 && !ph.urgent ==> p.next[ph.node] == None)
  }

  predicate Drained(p: Pool, msgSize: nat, sent: seq<Sent>, ph: Phase)
    requires ph.Draining?
  {
    && ph.node < |p.data| && ph.ticket < |sent| && Carries(p.data[ph.node], sent[ph.ticket].bytes)
    && |ph.got| <= ph.size <= msgSize && |p.data[ph.node]| == msgSize
    && ph.got == p.data[ph.node][..|ph.got|]
  }

  ghost predicate Buffers(p: Pool, msgSize: nat) {
    |p.data| == |p.next| && forall n: nat :: n < |p.data| ==> |p.data[n]| == msgSize
  }

  ghost predicate Queued(data: seq<Bytes>, queue: seq<nat>, order: seq<nat>, sent: seq<Sent>) {
    && |queue| == |order|
    && forall i :: 0 <= i < |queue| ==>
         queue[i] < |data| && order[i] < |sent| && Carries(data[queue[i]], sent[order[i]].bytes)
  }

  ghost predicate Copies(p: Pool, msgSize: nat, phase: map<nat, Phase>, sent: seq<Sent>) {
    && (forall t :: t in phase && phase[t].Filling? ==> Filled(p, msgSize, phase[t]))
    && (forall t :: t in phase && phase[t].Draining? ==> Drained(p, msgSize, sent, phase[t]))
  }

  /** Each ticket is queued, taken or dropped, exactly once. */
  ghost predicate Conserved(order: seq<nat>, taken: seq<nat>, dropped: seq<nat>, sent: nat) {
    forall k: nat :: multiset(order + taken + dropped)[k] == if k < sent then 1 else 0
  }

  /** In the queue a message stands before an earlier one only if it was urgent, and an urgent
      one stands before everything earlier. */
  ghost predicate QueueOrder(order: seq<nat>, sent: seq<Sent>) {
    && (forall i :: 0 <= i < |order| ==> order[i] < |sent|)
    && (forall i, j :: 0 <= i < j < |order| ==>
          && (order[i] > order[j] ==> sent[order[i]].urgent)
          && (order[i] < order[j] ==> !sent[order[j]].urgent))
  }

  /** Messages that are not urgent leave in the order they were linked. */
  ghost predicate Fifo(all: seq<nat>, sent: seq<Sent>) {
    && (forall i :: 0 <= i < |all| ==> all[i] < |sent|)
    && (forall i, j :: 0 <= i < j < |all| && !sent[all[i]].urgent && !sent[all[j]].urgent ==> all[i] < all[j])
  }

  /** The receiver's bytes are the sender's, as far as both go. */
  predicate Faithful(d: Delivery, sent: seq<Sent>) {
    d.ticket < |sent| &&
    forall i :: 0 <= i < |d.bytes| && i < |sent[d.ticket].bytes| ==> d.bytes[i] == sent[d.ticket].bytes[i]
  }

  ghost predicate Delivered(delivered: seq<Delivery>, taken: seq<nat>, sent: seq<Sent>) {
    && (forall i :: 0 <= i < |delivered| ==> delivered[i].ticket in taken && Faithful(delivered[i], sent))
    && (forall i, j :: 0 <= i < j < |delivered| ==> delivered[i].ticket != delivered[j].ticket)
  }

  /** A message being drained has been taken, by one thread, and not delivered yet. */
  ghost predicate InFlight(phase: map<nat, Phase>, taken: seq<nat>, delivered: seq<Delivery>) {
    && (forall t :: t in phase && phase[t].Draining? ==> phase[t].ticket in taken)
    && (forall t, i :: t in phase && phase[t].Draining? && 0 <= i < |delivered| ==>
        phase[t].ticket != delivered[i].ticket)
    && (forall t, u :: t in phase && u in phase && phase[t].Draining? && phase[u].Draining? && t != u ==>
          phase[t].ticket != phase[u].ticket)
  }

  ghost predicate Waiting(phase: map<nat, Phase>, recvQ: seq<nat>, sendQ: seq<nat>) {
    && Distinct(recvQ) && Distinct(sendQ)
    && (forall t :: t in recvQ <==> t in phase && phase[t].WaitRecv?)
    && (forall t :: t in sendQ <==> t in phase && phase[t].WaitSend?)
  }

  predicate Sized(phase: map<nat, Phase>, msgSize: nat) {
    forall t :: t in phase && (phase[t].WaitSend? || phase[t].WokenSend?) ==> 0 < |phase[t].msg| <= msgSize
  }

  function WokenReceivers(phase: map<nat, Phase>): set<nat> { set t | t in phase && phase[t].WokenRecv? }
  function WokenSenders(phase: map<nat, Phase>): set<nat> { set t | t in phase && phase[t].WokenSend? }

  /** Threads stay suspended only while those already woken can take everything there is. */
  ghost predicate NoLostWakeup(s: Sys, extraRecv: nat, extraSend: nat) {
    && (s.recvQ != [] ==> |s.h.queue| <= |WokenReceivers(s.phase)| + extraRecv)
    && (s.sendQ != [] ==> |s.h.free| <= |WokenSenders(s.phase)| + extraSend)
  }

  ghost predicate Inv(s: Sys, extraRecv: nat, extraSend: nat) {
    && Lists(s.p, s.h.free, s.h.queue)
    && Owners(|s.p.next|, s.phase, s.h.free, s.h.queue, s.h.own)
    && Buffers(s.p, s.msgSize)
    && Queued(s.p.data, s.h.queue, s.h.order, s.h.sent)
    && Copies(s.p, s.msgSize, s.phase, s.h.sent)
    && Conserved(s.h.order, s.h.taken, s.h.dropped, |s.h.sent|)
    && QueueOrder(s.h.order, s.h.sent)
    && Fifo(s.h.taken + s.h.order, s.h.sent)
    && Delivered(s.h.delivered, s.h.taken, s.h.sent)
    && InFlight(s.phase, s.h.taken, s.h.delivered)
    && Waiting(s.phase, s.recvQ, s.sendQ)
    && Sized(s.phase, s.msgSize)
    && NoLostWakeup(s, extraRecv, extraSend)
  }

  // ----- who owns which node -----

  /** `t` acquires node `n`, which leaves the free list or the queue. */
  lemma Acquire(nodes: nat, phase: map<nat, Phase>, free: seq<nat>, queue: seq<nat>, own: map<nat, nat>,
                t: nat, ph: Phase, free': seq<nat>, queue': seq<nat>)
    requires Owners(nodes, phase, free, queue, own)
    requires t in phase && !Owning(phase[t]) && Owning(ph) && ph.node < nodes
    requires ph.node in free || ph.node in queue
    requires forall m :: m in free' <==> m in free && m != ph.node
    requires forall m :: m in queue' <==> m in queue && m != ph.node
    ensures Owners(nodes, phase[t := ph], free', queue', own[ph.node := t])
  {
  }

  /** `t` gives its node to the free list or to the queue. */
  lemma Yield(nodes: nat, phase: map<nat, Phase>, free: seq<nat>, queue: seq<nat>, own: map<nat, nat>,
              t: nat, ph: Phase, free': seq<nat>, queue': seq<nat>)
    requires Owners(nodes, phase, free, queue, own)
    requires t in phase && Owning(phase[t]) && !Owning(ph)
    requires forall m :: m in free' || m in queue' <==> m in free || m in queue || m == phase[t].node
    ensures Owners(nodes, phase[t := ph], free', queue', own - {phase[t].node})
  {
  }

  lemma KeepOwners(nodes: nat, phase: map<nat, Phase>, free: seq<nat>, queue: seq<nat>, own: map<nat, nat>,
        t: nat, ph: Phase)
    requires Owners(nodes, phase, free, queue, own)
    requires t in phase && Owning(ph) == Owning(phase[t]) && (Owning(ph) ==> ph.node == phase[t].node)
    ensures Owners(nodes, phase[t := ph], free, queue, own)
  {
  }

  /** The copies other threads are making are untouched when `p` changes only where `t` or nobody
      owns the node. */
  lemma KeepCopies(p: Pool, p': Pool, msgSize: nat, phase: map<nat, Phase>, sent: seq<Sent>, sent': seq<Sent>,
        t: nat, ph: Phase)
    requires Copies(p, msgSize, phase, sent) && sent <= sent'
    requires |p.next| == |p.data| == |p'.next| == |p'.data|
    requires ph.Filling? ==> Filled(p', msgSize, ph)
    requires ph.Draining? ==> Drained(p', msgSize, sent', ph)
    requires forall u :: u in phase && u != t && Owning(phase[u]) && phase[u].node < |p.next| ==>
      p'.next[phase[u].node] == p.next[phase[u].node] && p'.data[phase[u].node] == p.data[phase[u].node]
    ensures Copies(p', msgSize, phase[t := ph], sent')
  {
  }

  // ----- counting the woken -----

  lemma DifferInOne(w: set<nat>, w': set<nat>, t: nat)
    requires w' - {t} == w - {t}
    ensures |w'| == |w| - (if t in w then 1 else 0) + (if t in w' then 1 else 0)
  {
    assert t in w ==> w == (w - {t}) + {t};
    assert t in w' ==> w' == (w - {t}) + {t};
    assert t !in w ==> w == w - {t};
    assert t !in w' ==> w' == w - {t};
  }

  lemma WokenReceiversUpdate(phase: map<nat, Phase>, t: nat, ph: Phase)
    requires t in phase
    ensures |WokenReceivers(phase[t := ph])|
         == |WokenReceivers(phase)| - (if phase[t].WokenRecv? then 1 else 0) + (if ph.WokenRecv? then 1 else 0)
  {
    var w := WokenReceivers(phase);
    var w' := WokenReceivers(phase[t := ph]);
    assert w' - {t} == w - {t};
    DifferInOne(w, w', t);
  }

  lemma WokenSendersUpdate(phase: map<nat, Phase>, t: nat, ph: Phase)
    requires t in phase
    ensures |WokenSenders(phase[t := ph])|
         == |WokenSenders(phase)| - (if phase[t].WokenSend? then 1 else 0) + (if ph.WokenSend? then 1 else 0)
  {
    var w := WokenSenders(phase);
    var w' := WokenSenders(phase[t := ph]);
    assert w' - {t} == w - {t};
    DifferInOne(w, w', t);
  }

  lemma WokenUpdate(phase: map<nat, Phase>, t: nat, ph: Phase)
    requires t in phase
    ensures |WokenReceivers(phase[t := ph])|
         == |WokenReceivers(phase)| - (if phase[t].WokenRecv? then 1 else 0) + (if ph.WokenRecv? then 1 else 0)
    ensures |WokenSenders(phase[t := ph])|
         == |WokenSenders(phase)| - (if phase[t].WokenSend? then 1 else 0) + (if ph.WokenSend? then 1 else 0)
  {
    hide WokenReceivers, WokenSenders;
    WokenReceiversUpdate(phase, t, ph);
    WokenSendersUpdate(phase, t, ph);
  }

  lemma KeepWaiting(phase: map<nat, Phase>, recvQ: seq<nat>, sendQ: seq<nat>, t: nat, ph: Phase)
    requires Waiting(phase, recvQ, sendQ) && t in phase
    requires !phase[t].WaitRecv? && !phase[t].WaitSend? && !ph.WaitRecv? && !ph.WaitSend?
    ensures Waiting(phase[t := ph], recvQ, sendQ)
  {
  }

  // ----- steps that only move a thread between lists -----

  /** `t` neither owns a node before nor after; the pool and the history stay. */
  lemma Moved(s: Sys, t: nat, ph: Phase, recvQ: seq<nat>, sendQ: seq<nat>, x: nat, y: nat, x': nat, y': nat)
    requires Inv(s, x, y) && t in s.phase && !Owning(s.phase[t]) && !Owning(ph)
    requires ph.WaitSend? || ph.WokenSend? ==> 0 < |ph.msg| <= s.msgSize
    requires Waiting(s.phase[t := ph], recvQ, sendQ)
    requires NoLostWakeup(s.(phase := s.phase[t := ph], recvQ := recvQ, sendQ := sendQ), x', y')
    ensures Inv(s.(phase := s.phase[t := ph], recvQ := recvQ, sendQ := sendQ), x', y')
  {
    KeepOwners(|s.p.next|, s.phase, s.h.free, s.h.queue, s.h.own, t, ph);
    KeepCopies(s.p, s.p, s.msgSize, s.phase, s.h.sent, s.h.sent, t, ph);
    hide Lists, Owners, Copies, Waiting, NoLostWakeup, Conserved, Fifo, QueueOrder, Delivered, Queued, Buffers;
  }

  /** The first suspended receiver becomes a woken one. */
  lemma WakeRecvInv(s: Sys)
    requires Inv(s, 1, 0)
    ensures Inv(WakeRecv(s), 0, 0)
  {
    if s.recvQ != [] {
      var t := s.recvQ[0];
      WakeRecvFacts(s.phase, s.recvQ, s.sendQ);
      hide Lists, Owners, Copies, Conserved, Fifo, QueueOrder, Delivered, InFlight, Queued, Buffers, Waiting;
      hide WokenReceivers, WokenSenders;
      WokenUpdate(s.phase, t, WokenRecv(s.phase[t].size));
      Moved(s, t, WokenRecv(s.phase[t].size), s.recvQ[1..], s.sendQ, 1, 0, 0, 0);
    }
  }

  lemma WakeRecvFacts(phase: map<nat, Phase>, recvQ: seq<nat>, sendQ: seq<nat>)
    requires Waiting(phase, recvQ, sendQ) && recvQ != []
    ensures recvQ[0] in phase && phase[recvQ[0]].WaitRecv?
    ensures Waiting(phase[recvQ[0] := WokenRecv(phase[recvQ[0]].size)], recvQ[1..], sendQ)
  {
    assert recvQ[0] in recvQ;
    ResumeElements(recvQ);
  }

  lemma WakeSendInv(s: Sys)
    requires Inv(s, 0, 1)
    ensures Inv(WakeSend(s), 0, 0)
  {
    if s.sendQ != [] {
      var t := s.sendQ[0];
      WakeSendFacts(s.phase, s.recvQ, s.sendQ);
      hide Lists, Owners, Copies, Conserved, Fifo, QueueOrder, Delivered, InFlight, Queued, Buffers, Waiting;
      hide WokenReceivers, WokenSenders;
      WokenUpdate(s.phase, t, WokenSend(s.phase[t].msg));
      Moved(s, t, WokenSend(s.phase[t].msg), s.recvQ, s.sendQ[1..], 0, 1, 0, 0);
    }
  }

  lemma WakeSendFacts(phase: map<nat, Phase>, recvQ: seq<nat>, sendQ: seq<nat>)
    requires Waiting(phase, recvQ, sendQ) && sendQ != []
    ensures sendQ[0] in phase && phase[sendQ[0]].WaitSend?
    ensures Waiting(phase[sendQ[0] := WokenSend(phase[sendQ[0]].msg)], recvQ, sendQ[1..])
  {
    assert sendQ[0] in sendQ;
    ResumeElements(sendQ);
  }

  lemma SuspendFacts(phase: map<nat, Phase>, recvQ: seq<nat>, sendQ: seq<nat>, t: nat, ph: Phase, byPrio: bool,
        prio: map<nat, nat>)
    requires Waiting(phase, recvQ, sendQ) && t in phase && !phase[t].WaitRecv? && !phase[t].WaitSend?
    ensures ph.WaitSend? ==> Waiting(phase[t := ph], recvQ, Suspend(sendQ, t, byPrio, prio))
    ensures ph.WaitRecv? ==> Waiting(phase[t := ph], Suspend(recvQ, t, byPrio, prio), sendQ)
  {
    hide Suspend;
    if ph.WaitSend? { SuspendElements(sendQ, t, byPrio, prio); }
    if ph.WaitRecv? { SuspendElements(recvQ, t, byPrio, prio); }
  }

  lemma TimeoutFacts(phase: map<nat, Phase>, recvQ: seq<nat>, sendQ: seq<nat>, t: nat)
    requires Waiting(phase, recvQ, sendQ) && t in phase
    ensures phase[t].WaitSend? ==> Waiting(phase[t := Idle], recvQ, Remove(sendQ, t)) && sendQ != []
    ensures phase[t].WaitRecv? ==> Waiting(phase[t := Idle], Remove(recvQ, t), sendQ) && recvQ != []
  {
    hide Remove;
    if phase[t].WaitSend? { RemoveElements(sendQ, t); }
    if phase[t].WaitRecv? { RemoveElements(recvQ, t); }
  }

  /** A sender finds the pool empty: it leaves or joins the sender list. */
  lemma SenderWaitsInv(s: Sys, t: nat, msg: Bytes, timeout: int)
    requires Inv(s, 0, 0) && t in s.phase && (s.phase[t].Idle? || s.phase[t].WokenSend?)
    requires 0 < |msg| <= s.msgSize && s.p.free.None?
    ensures Inv(TrySend(s, t, msg, timeout), 0, 0)
  {
    var ph := if timeout == 0 then Idle else WaitSend(msg);
    KeepWaitingOr(s, t, ph);
    PopFreeLists(s.p, s.h.free, s.h.queue);
    hide Lists, Owners, Copies, Conserved, Fifo, QueueOrder, Delivered, InFlight, Queued, Buffers, Waiting;
    hide WokenReceivers, WokenSenders, Suspend;
    WokenUpdate(s.phase, t, ph);
    Moved(s, t, ph, s.recvQ, if timeout == 0 then s.sendQ else Suspend(s.sendQ, t, s.byPrio, s.prio), 0, 0, 0, 0);
  }

  lemma ReceiverWaitsInv(s: Sys, t: nat, size: nat, timeout: int)
    requires Inv(s, 0, 0) && t in s.phase && (s.phase[t].Idle? || s.phase[t].WokenRecv?) && s.p.entry == 0
    ensures Inv(TryRecv(s, t, size, timeout), 0, 0)
  {
    var ph := if timeout == 0 then Idle else WaitRecv(size);
    KeepWaitingOr(s, t, ph);
    PopHeadLists(s.p, s.h.free, s.h.queue);
    hide Lists, Owners, Copies, Conserved, Fifo, QueueOrder, Delivered, InFlight, Queued, Buffers, Waiting;
    hide WokenReceivers, WokenSenders, Suspend;
    WokenUpdate(s.phase, t, ph);
    Moved(s, t, ph, if timeout == 0 then s.recvQ else Suspend(s.recvQ, t, s.byPrio, s.prio), s.sendQ, 0, 0, 0, 0);
  }

  lemma KeepWaitingOr(s: Sys, t: nat, ph: Phase)
    requires Waiting(s.phase, s.recvQ, s.sendQ) && t in s.phase && !s.phase[t].WaitRecv? && !s.phase[t].WaitSend?
    ensures Waiting(s.phase[t := ph], if ph.WaitRecv? then Suspend(s.recvQ, t, s.byPrio, s.prio) else s.recvQ,
                    if ph.WaitSend? then Suspend(s.sendQ, t, s.byPrio, s.prio) else s.sendQ)
  {
    hide Waiting, Suspend;
    SuspendFacts(s.phase, s.recvQ, s.sendQ, t, ph, s.byPrio, s.prio);
    if !ph.WaitRecv? && !ph.WaitSend? { KeepWaiting(s.phase, s.recvQ, s.sendQ, t, ph); }
  }

  lemma SendTimeoutInv(s: Sys, t: nat)
    requires Inv(s, 0, 0) && t in s.phase && s.phase[t].WaitSend?
    ensures Inv(s.(phase := s.phase[t := Idle], sendQ := Remove(s.sendQ, t)), 0, 0)
  {
    TimeoutFacts(s.phase, s.recvQ, s.sendQ, t);
    hide Lists, Owners, Copies, Conserved, Fifo, QueueOrder, Delivered, InFlight, Queued, Buffers, Waiting;
    hide WokenReceivers, WokenSenders, Remove;
    WokenUpdate(s.phase, t, Idle);
    Moved(s, t, Idle, s.recvQ, Remove(s.sendQ, t), 0, 0, 0, 0);
  }

  lemma RecvTimeoutInv(s: Sys, t: nat)
    requires Inv(s, 0, 0) && t in s.phase && s.phase[t].WaitRecv?
    ensures Inv(s.(phase := s.phase[t := Idle], recvQ := Remove(s.recvQ, t)), 0, 0)
  {
    TimeoutFacts(s.phase, s.recvQ, s.sendQ, t);
    hide Lists, Owners, Copies, Conserved, Fifo, QueueOrder, Delivered, InFlight, Queued, Buffers, Waiting;
    hide WokenReceivers, WokenSenders, Remove;
    WokenUpdate(s.phase, t, Idle);
    Moved(s, t, Idle, Remove(s.recvQ, t), s.sendQ, 0, 0, 0, 0);
  }

  // ----- taking a free node -----

  lemma TakeFreeOwners(s: Sys, t: nat, msg: Bytes, urgent: bool)
    requires Lists(s.p, s.h.free, s.h.queue) && Owners(|s.p.next|, s.phase, s.h.free, s.h.queue, s.h.own)
    requires t in s.phase && !Owning(s.phase[t]) && s.p.free.Some?
    ensures var s' := TakeFree(s, t, msg, urgent);
      Lists(s'.p, s'.h.free, s'.h.queue) && Owners(|s'.p.next|, s'.phase, s'.h.free, s'.h.queue, s'.h.own)
    ensures s.h.free != [] && s.p.free == Some(s.h.free[0]) && s.h.free[0] < |s.p.next|
  {
    PopFreeLists(s.p, s.h.free, s.h.queue);
    FreeHead(s.p, s.h.free, s.h.queue);
    ResumeElements(s.h.free);
    hide Lists, Owners, Distinct;
    var ph := Filling(s.p.free.value, msg, urgent, 0);
    Acquire(|s.p.next|, s.phase, s.h.free, s.h.queue, s.h.own, t, ph, s.h.free[1..], s.h.queue);
  }

  lemma TakeFreeCopies(s: Sys, t: nat, msg: Bytes, urgent: bool)
    requires Copies(s.p, s.msgSize, s.phase, s.h.sent) && Buffers(s.p, s.msgSize) && Sized(s.phase, s.msgSize)
    requires 0 < |msg| <= s.msgSize
    ensures var s' := TakeFree(s, t, msg, urgent);
      Copies(s'.p, s'.msgSize, s'.phase, s'.h.sent) && Buffers(s'.p, s'.msgSize) && Sized(s'.phase, s'.msgSize)
  {
    if s.p.free.Some? && s.p.free.value < |s.p.next| {
      var ph := Filling(s.p.free.value, msg, urgent, 0);
      assert Filled(PopFree(s.p).0, s.msgSize, ph);
      hide Copies, Filled;
      KeepCopies(s.p, PopFree(s.p).0, s.msgSize, s.phase, s.h.sent, s.h.sent, t, ph);
    }
  }

  lemma TakeFreeWake(s: Sys, t: nat, msg: Bytes, urgent: bool)
    requires Waiting(s.phase, s.recvQ, s.sendQ) && NoLostWakeup(s, 0, 0)
    requires t in s.phase && (s.phase[t].Idle? || s.phase[t].WokenSend?) && s.h.free != []
    ensures var s' := TakeFree(s, t, msg, urgent);
      Waiting(s'.phase, s'.recvQ, s'.sendQ) && NoLostWakeup(s', 0, 0)
  {
    hide Waiting, WokenReceivers, WokenSenders;
    if s.p.free.Some? && s.p.free.value < |s.p.next| {
      var ph := Filling(s.p.free.value, msg, urgent, 0);
      KeepWaiting(s.phase, s.recvQ, s.sendQ, t, ph);
      WokenUpdate(s.phase, t, ph);
    }
  }

  lemma TakeFreeInv(s: Sys, t: nat, msg: Bytes, urgent: bool)
    requires Inv(s, 0, 0) && t in s.phase && (s.phase[t].Idle? || s.phase[t].WokenSend?)
    requires 0 < |msg| <= s.msgSize
    ensures Inv(TakeFree(s, t, msg, urgent), 0, 0)
  {
    hide Lists, Owners, Buffers, Queued, Copies, Conserved, QueueOrder, Fifo, Delivered, Waiting, Sized, NoLostWakeup;
    if s.p.free.Some? {
      TakeFreeOwners(s, t, msg, urgent);
      TakeFreeCopies(s, t, msg, urgent);
      TakeFreeWake(s, t, msg, urgent);
    }
  }

  lemma FreeHead(p: Pool, free: seq<nat>, queue: seq<nat>)
    requires Lists(p, free, queue)
    ensures free != [] ==> free[0] < |p.next| && free[0] !in queue && Distinct(free)
    ensures queue != [] ==> queue[0] < |p.next| && queue[0] !in free && Distinct(queue)
    ensures p.tail.Some? ==> p.tail.value < |p.next| && p.tail.value in queue
  {
    if free != [] { assert free[0] in free; }
    if queue != [] { assert queue[0] in queue && queue[|queue| - 1] in queue; }
  }

  // ----- copying in -----

  lemma CopiedPool(s: Sys, t: nat)
    requires Lists(s.p, s.h.free, s.h.queue) && Owners(|s.p.next|, s.phase, s.h.free, s.h.queue, s.h.own)
    ensures var s' := Copied(s, t);
      Lists(s'.p, s'.h.free, s'.h.queue) && Owners(|s'.p.next|, s'.phase, s'.h.free, s'.h.queue, s'.h.own)
  {
    var s' := Copied(s, t);
    if s' != s {
      var ph := s.phase[t];
      OwnedApart(s, t);
      KeepOwners(|s.p.next|, s.phase, s.h.free, s.h.queue, s.h.own, t, ph.(copied := ph.copied + 1));
      hide Lists, Owners;
      var link := if ph.urgent || ph.copied > 0 then s.p.next[ph.node] else None;
      PrivateWrite(s.p, s.h.free, s.h.queue, ph.node, link, s'.p.data[ph.node]);
      assert s'.p == s.p.(next := s.p.next[ph.node := link], data := s.p.data[ph.node := s'.p.data[ph.node]]);
    }
  }

  /** What `t` owns is in neither list and nobody else's. */
  lemma OwnedApart(s: Sys, t: nat)
    requires Owners(|s.p.next|, s.phase, s.h.free, s.h.queue, s.h.own) && t in s.phase && Owning(s.phase[t])
    ensures s.phase[t].node < |s.p.next| && s.phase[t].node !in s.h.free && s.phase[t].node !in s.h.queue
    ensures forall u :: u in s.phase && u != t && Owning(s.phase[u]) ==> s.phase[u].node != s.phase[t].node
    ensures forall u :: u in s.phase && Owning(s.phase[u]) ==> s.phase[u].node !in s.h.queue
  {
  }

  lemma CopiedFilled(s: Sys, t: nat)
    requires t in s.phase && s.phase[t].Filling? && Filled(s.p, s.msgSize, s.phase[t])
    ensures Copied(s, t) != s ==> Filled(Copied(s, t).p, s.msgSize, Copied(s, t).phase[t])
  {
    var s' := Copied(s, t);
    if s' != s {
      var ph, k := s.phase[t], s.phase[t].copied;
      assert s'.p.data[ph.node][..k + 1] == s.p.data[ph.node][..k] + [ph.msg[k]];
      assert ph.msg[..k + 1] == ph.msg[..k] + [ph.msg[k]];
    }
  }

  lemma CopiedCopies(s: Sys, t: nat)
    requires Owners(|s.p.next|, s.phase, s.h.free, s.h.queue, s.h.own) && Buffers(s.p, s.msgSize)
    requires Copies(s.p, s.msgSize, s.phase, s.h.sent) && Queued(s.p.data, s.h.queue, s.h.order, s.h.sent)
    ensures var s' := Copied(s, t);
      && Buffers(s'.p, s.msgSize) && Copies(s'.p, s.msgSize, s'.phase, s.h.sent)
      && Queued(s'.p.data, s.h.queue, s.h.order, s.h.sent)
  {
    hide Filled, Drained, Carries;
    var s' := Copied(s, t);
    if s' != s {
      OwnedApart(s, t);
      CopiedFilled(s, t);
      KeepCopies(s.p, s'.p, s.msgSize, s.phase, s.h.sent, s.h.sent, t, s'.phase[t]);
    }
  }

  lemma CopiedInv(s: Sys, t: nat)
    requires Inv(s, 0, 0)
    ensures Inv(Copied(s, t), 0, 0)
  {
    hide Lists, Owners, Buffers, Queued, Copies, Conserved, QueueOrder, Fifo, Delivered, Waiting;
    hide WokenReceivers, WokenSenders;
    CopiedPool(s, t);
    CopiedCopies(s, t);
    var s' := Copied(s, t);
    if s' != s {
      KeepWaiting(s.phase, s.recvQ, s.sendQ, t, s'.phase[t]);
      WokenUpdate(s.phase, t, s'.phase[t]);
    }
  }

  // ----- linking -----

  ghost predicate Ready(s: Sys, t: nat) {
    t in s.phase && s.phase[t].Filling? && s.phase[t].copied == |s.phase[t].msg| && Filled(s.p, s.msgSize, s.phase[t])
  }

  lemma LinkedPool(s: Sys, t: nat)
    requires Lists(s.p, s.h.free, s.h.queue) && Owners(|s.p.next|, s.phase, s.h.free, s.h.queue, s.h.own) && Ready(s, t)
    ensures s.p.tail.Some? ==> s.p.tail.value < |s.p.next|
    ensures var s' := Linked(s, t);
      Lists(s'.p, s'.h.free, s'.h.queue) && Owners(|s'.p.next|, s'.phase, s'.h.free, s'.h.queue, s'.h.own)
  {
    var n := s.phase[t].node;
    OwnedApart(s, t);
    FreeHead(s.p, s.h.free, s.h.queue);
    if s.phase[t].urgent {
      LinkHeadLists(s.p, s.h.free, s.h.queue, n);
    } else {
      LinkTailLists(s.p, s.h.free, s.h.queue, n);
    }
    hide Lists, Owners;
    var s' := Linked(s, t);
    Yield(|s.p.next|, s.phase, s.h.free, s.h.queue, s.h.own, t, Idle, s'.h.free, s'.h.queue);
  }

  lemma LinkedCopies(s: Sys, t: nat)
    requires Lists(s.p, s.h.free, s.h.queue) && Owners(|s.p.next|, s.phase, s.h.free, s.h.queue, s.h.own) && Ready(s, t)
    requires s.p.tail.Some? ==> s.p.tail.value < |s.p.next|
    requires Copies(s.p, s.msgSize, s.phase, s.h.sent) && Buffers(s.p, s.msgSize)
    ensures var s' := Linked(s, t); Copies(s'.p, s.msgSize, s'.phase, s'.h.sent) && Buffers(s'.p, s.msgSize)
  {
    OwnedApart(s, t);
    FreeHead(s.p, s.h.free, s.h.queue);
    hide Lists, Owners, Copies;
    KeepCopies(s.p, Linked(s, t).p, s.msgSize, s.phase, s.h.sent, Linked(s, t).h.sent, t, Idle);
  }

  lemma LinkedQueued(s: Sys, t: nat)
    requires Queued(s.p.data, s.h.queue, s.h.order, s.h.sent) && Ready(s, t)
    requires s.p.tail.Some? ==> s.p.tail.value < |s.p.next|
    ensures var s' := Linked(s, t); Queued(s'.p.data, s'.h.queue, s'.h.order, s'.h.sent)
  {
    var ph := s.phase[t];
    assert Carries(s.p.data[ph.node], ph.msg) by { assert ph.msg[..|ph.msg|] == ph.msg; }
    hide Carries;
  }

  lemma LinkedTickets(order: seq<nat>, taken: seq<nat>, dropped: seq<nat>, k: nat)
    requires Conserved(order, taken, dropped, k)
    ensures Conserved(order + [k], taken, dropped, k + 1) && Conserved([k] + order, taken, dropped, k + 1)
    ensures k !in order && k !in taken
  {
    var was := multiset(order + taken + dropped);
    assert was[k] == 0;
    MoreTickets(order, taken, dropped, k);
    assert k in order || k in taken ==> k in was;
  }

  lemma MoreTickets(order: seq<nat>, taken: seq<nat>, dropped: seq<nat>, k: nat)
    ensures multiset((order + [k]) + taken + dropped) == multiset(order + taken + dropped) + multiset{k}
    ensures multiset(([k] + order) + taken + dropped) == multiset(order + taken + dropped) + multiset{k}
  {
  }

  lemma LinkedFifo(all: seq<nat>, at: nat, sent: seq<Sent>, m: Sent)
    requires Fifo(all, sent) && at <= |all| && (m.urgent || at == |all|)
    ensures Fifo(all[..at] + [|sent|] + all[at..], sent + [m])
  {
    var k := |sent|;
    var all', sent' := all[..at] + [k] + all[at..], sent + [m];
    assert forall i :: 0 <= i < |all'| ==> all'[i] == if i < at then all[i] else if i == at then k else all[i - 1];
    forall i, j | 0 <= i < j < |all'| && !sent'[all'[i]].urgent && !sent'[all'[j]].urgent ensures all'[i] < all'[j] {
      assert i != at || !m.urgent;
    }
  }

  lemma LinkedOrder(order: seq<nat>, taken: seq<nat>, sent: seq<Sent>, m: Sent)
    requires QueueOrder(order, sent) && Fifo(taken + order, sent)
    ensures var order' := if m.urgent then [|sent|] + order else order + [|sent|];
      QueueOrder(order', sent + [m]) && Fifo(taken + order', sent + [m])
  {
    hide Fifo;
    var all := taken + order;
    if m.urgent {
      LinkedFifo(all, |taken|, sent, m);
      assert all[..|taken|] + [|sent|] + all[|taken|..] == taken + ([|sent|] + order);
    } else {
      LinkedFifo(all, |all|, sent, m);
      assert all[..|all|] + [|sent|] + all[|all|..] == taken + (order + [|sent|]);
    }
  }

  lemma LinkedInv(s: Sys, t: nat)
    requires Inv(s, 0, 0) && Ready(s, t)
    ensures s.p.tail.Some? ==> s.p.tail.value < |s.p.next|
    ensures Inv(Linked(s, t), 1, 0)
  {
    hide Lists, Owners, Buffers, Queued, Copies, Conserved, QueueOrder, Fifo, Waiting, Sized, InFlight;
    hide Delivered, WokenReceivers, WokenSenders, Filled;
    LinkedPool(s, t);
    LinkedCopies(s, t);
    LinkedQueued(s, t);
    LinkedTickets(s.h.order, s.h.taken, s.h.dropped, |s.h.sent|);
    LinkedOrder(s.h.order, s.h.taken, s.h.sent, Sent(s.phase[t].msg, s.phase[t].urgent));
    KeepWaiting(s.phase, s.recvQ, s.sendQ, t, Idle);
    WokenUpdate(s.phase, t, Idle);
    LinkedRest(s, t);
  }

  lemma LinkedRest(s: Sys, t: nat)
    requires t in s.phase && s.phase[t].Filling? && Sized(s.phase, s.msgSize)
    requires InFlight(s.phase, s.h.taken, s.h.delivered) && Delivered(s.h.delivered, s.h.taken, s.h.sent)
    ensures Sized(s.phase[t := Idle], s.msgSize) && InFlight(s.phase[t := Idle], s.h.taken, s.h.delivered)
    ensures Delivered(s.h.delivered, s.h.taken, s.h.sent + [Sent(s.phase[t].msg, s.phase[t].urgent)])
  {
  }

  // ----- taking the head -----

  lemma TakeHeadPool(s: Sys, t: nat, size: nat)
    requires Lists(s.p, s.h.free, s.h.queue) && Owners(|s.p.next|, s.phase, s.h.free, s.h.queue, s.h.own)
    requires t in s.phase && !Owning(s.phase[t]) && s.p.entry != 0 && |s.h.order| == |s.h.queue|
    ensures var s' := TakeHead(s, t, size);
      Lists(s'.p, s'.h.free, s'.h.queue) && Owners(|s'.p.next|, s'.phase, s'.h.free, s'.h.queue, s'.h.own)
    ensures s.h.queue != [] && s.p.head == Some(s.h.queue[0]) && s.h.queue[0] < |s.p.next|
  {
    PopHeadLists(s.p, s.h.free, s.h.queue);
    FreeHead(s.p, s.h.free, s.h.queue);
    ResumeElements(s.h.queue);
    hide Lists, Owners, Distinct;
    var ph := TakeHead(s, t, size).phase[t];
    Acquire(|s.p.next|, s.phase, s.h.free, s.h.queue, s.h.own, t, ph, s.h.free, s.h.queue[1..]);
  }

  lemma TakeHeadCopies(s: Sys, t: nat, size: nat)
    requires Copies(s.p, s.msgSize, s.phase, s.h.sent) && Buffers(s.p, s.msgSize)
    requires Queued(s.p.data, s.h.queue, s.h.order, s.h.sent) && s.h.queue != [] && s.p.head == Some(s.h.queue[0])
    ensures var s' := TakeHead(s, t, size);
      && Copies(s'.p, s.msgSize, s'.phase, s'.h.sent) && Buffers(s'.p, s.msgSize)
      && Queued(s'.p.data, s'.h.queue, s'.h.order, s'.h.sent)
  {
    var s' := TakeHead(s, t, size);
    var ph := s'.phase[t];
    assert Drained(s'.p, s.msgSize, s.h.sent, ph);
    hide Copies, Drained, Carries;
    KeepCopies(s.p, s'.p, s.msgSize, s.phase, s.h.sent, s.h.sent, t, ph);
  }

  lemma TakeHeadTickets(order: seq<nat>, taken: seq<nat>, dropped: seq<nat>, sent: seq<Sent>)
    requires Conserved(order, taken, dropped, |sent|)
    requires QueueOrder(order, sent) && Fifo(taken + order, sent) && order != []
    ensures var taken' := taken + [order[0]];
      && Conserved(order[1..], taken', dropped, |sent|) && QueueOrder(order[1..], sent)
      && Fifo(taken' + order[1..], sent)
    ensures order[0] !in taken
  {
    assert order == [order[0]] + order[1..];
    assert taken + [order[0]] + order[1..] == taken + order;
    var m := multiset(order + taken + dropped);
    assert multiset(order[1..] + (taken + [order[0]]) + dropped) == m;
    assert m == multiset{order[0]} + multiset(order[1..]) + multiset(taken) + multiset(dropped);
    assert m[order[0]] == 1;
  }

  lemma TakeHeadFlight(s: Sys, t: nat, ph: Phase)
    requires t in s.phase && !s.phase[t].Draining? && ph.Draining?
    requires ph.ticket !in s.h.taken && Sized(s.phase, s.msgSize)
    requires InFlight(s.phase, s.h.taken, s.h.delivered) && Delivered(s.h.delivered, s.h.taken, s.h.sent)
    ensures var taken' := s.h.taken + [ph.ticket];
      && InFlight(s.phase[t := ph], taken', s.h.delivered) && Delivered(s.h.delivered, taken', s.h.sent)
      && Sized(s.phase[t := ph], s.msgSize)
  {
  }

  lemma TakeHeadInv(s: Sys, t: nat, size: nat)
    requires Inv(s, 0, 0) && t in s.phase && (s.phase[t].Idle? || s.phase[t].WokenRecv?) && s.p.entry != 0
    ensures Inv(TakeHead(s, t, size), 0, 0)
  {
    hide Lists, Owners, Buffers, Copies, Conserved, QueueOrder, Fifo, Waiting, Sized, InFlight, Delivered;
    hide WokenReceivers, WokenSenders;
    TakeHeadPool(s, t, size);
    TakeHeadCopies(s, t, size);
    TakeHeadTickets(s.h.order, s.h.taken, s.h.dropped, s.h.sent);
    var ph := TakeHead(s, t, size).phase[t];
    TakeHeadFlight(s, t, ph);
    KeepWaiting(s.phase, s.recvQ, s.sendQ, t, ph);
    WokenUpdate(s.phase, t, ph);
  }

  // ----- copying out and releasing -----

  lemma FetchedCopies(s: Sys, t: nat)
    requires Copies(s.p, s.msgSize, s.phase, s.h.sent) && Buffers(s.p, s.msgSize)
    ensures var s' := Fetched(s, t); Copies(s'.p, s.msgSize, s'.phase, s.h.sent)
  {
    var s' := Fetched(s, t);
    if s' != s {
      var ph := s.phase[t];
      assert Drained(s.p, s.msgSize, s.h.sent, ph);
      assert s.p.data[ph.node][..|ph.got| + 1] == s.p.data[ph.node][..|ph.got|] + [s.p.data[ph.node][|ph.got|]];
      assert Drained(s.p, s.msgSize, s.h.sent, s'.phase[t]);
      hide Copies, Drained;
      KeepCopies(s.p, s.p, s.msgSize, s.phase, s.h.sent, s.h.sent, t, s'.phase[t]);
    }
  }

  lemma FetchedInv(s: Sys, t: nat)
    requires Inv(s, 0, 0)
    ensures Inv(Fetched(s, t), 0, 0)
  {
    hide Lists, Owners, Buffers, Queued, Copies, Conserved, QueueOrder, Fifo, Delivered, Waiting;
    hide WokenReceivers, WokenSenders;
    FetchedCopies(s, t);
    var s' := Fetched(s, t);
    if s' != s {
      KeepOwners(|s.p.next|, s.phase, s.h.free, s.h.queue, s.h.own, t, s'.phase[t]);
      KeepWaiting(s.phase, s.recvQ, s.sendQ, t, s'.phase[t]);
      WokenUpdate(s.phase, t, s'.phase[t]);
    }
  }

  ghost predicate Emptied(s: Sys, t: nat) {
    && t in s.phase && s.phase[t].Draining? && |s.phase[t].got| == s.phase[t].size
    && Drained(s.p, s.msgSize, s.h.sent, s.phase[t])
  }

  lemma ReleasedPool(s: Sys, t: nat)
    requires Lists(s.p, s.h.free, s.h.queue)
    requires Owners(|s.p.next|, s.phase, s.h.free, s.h.queue, s.h.own) && Emptied(s, t)
    ensures s.phase[t].node < |s.p.next|
    ensures var s' := Released(s, t);
      Lists(s'.p, s'.h.free, s'.h.queue) && Owners(|s'.p.next|, s'.phase, s'.h.free, s'.h.queue, s'.h.own)
  {
    var n := s.phase[t].node;
    OwnedApart(s, t);
    hide Lists, Owners;
    PushFreeLists(s.p, s.h.free, s.h.queue, n);
    Yield(|s.p.next|, s.phase, s.h.free, s.h.queue, s.h.own, t, Idle, [n] + s.h.free, s.h.queue);
  }

  lemma ReleasedCopies(s: Sys, t: nat)
    requires Owners(|s.p.next|, s.phase, s.h.free, s.h.queue, s.h.own) && Emptied(s, t) && s.phase[t].node < |s.p.next|
    requires Copies(s.p, s.msgSize, s.phase, s.h.sent) && Buffers(s.p, s.msgSize)
    ensures var s' := Released(s, t); Copies(s'.p, s.msgSize, s'.phase, s'.h.sent) && Buffers(s'.p, s.msgSize)
  {
    OwnedApart(s, t);
    hide Owners, Copies;
    KeepCopies(s.p, Released(s, t).p, s.msgSize, s.phase, s.h.sent, s.h.sent, t, Idle);
  }

  lemma ReleasedFlight(s: Sys, t: nat)
    requires Emptied(s, t) && s.phase[t].node < |s.p.next| && Sized(s.phase, s.msgSize)
    requires InFlight(s.phase, s.h.taken, s.h.delivered) && Delivered(s.h.delivered, s.h.taken, s.h.sent)
    ensures var s' := Released(s, t);
      && InFlight(s'.phase, s'.h.taken, s'.h.delivered) && Delivered(s'.h.delivered, s'.h.taken, s'.h.sent)
      && Sized(s'.phase, s'.msgSize)
  {
    var ph := s.phase[t];
    assert Faithful(Delivery(ph.ticket, ph.got), s.h.sent) by {
      var buf, msg := s.p.data[ph.node], s.h.sent[ph.ticket].bytes;
      forall i | 0 <= i < |ph.got| && i < |msg| ensures ph.got[i] == msg[i] {
        assert ph.got[i] == buf[..|ph.got|][i] && buf[..|msg|][i] == msg[i];
      }
    }
    hide Faithful, Drained;
  }

  lemma ReleasedInv(s: Sys, t: nat)
    requires Inv(s, 0, 0) && Emptied(s, t)
    ensures s.phase[t].node < |s.p.next| && Inv(Released(s, t), 0, 1)
  {
    hide Lists, Owners, Buffers, Queued, Copies, Conserved, QueueOrder, Fifo, Waiting, Sized, InFlight;
    hide Delivered, WokenReceivers, WokenSenders, Drained;
    ReleasedPool(s, t);
    ReleasedCopies(s, t);
    ReleasedFlight(s, t);
    KeepWaiting(s.phase, s.recvQ, s.sendQ, t, Idle);
    WokenUpdate(s.phase, t, Idle);
  }

  // ----- the reset -----

  lemma {:induction false} ReversedElements(q: seq<nat>)
    ensures forall n :: n in Reversed(q) <==> n in q
  {
    if q != [] {
      ReversedElements(q[1..]);
      assert q == [q[0]] + q[1..];
    }
  }

  lemma ResetPool(s: Sys)
    requires Lists(s.p, s.h.free, s.h.queue)
    ensures var s' := ResetAll(s);
      && Lists(s'.p, s'.h.free, s'.h.queue) && s'.p.data == s.p.data && |s'.p.next| == |s.p.next|
      && (forall n: nat :: n < |s.p.next| && n !in s.h.queue ==> s'.p.next[n] == s.p.next[n])
  {
    EntryFits(s.p, s.h.free, s.h.queue);
    DrainLists(s.p, |s.p.next|, s.h.free, s.h.queue);
  }

  lemma ResetOwners(s: Sys)
    requires Owners(|s.p.next|, s.phase, s.h.free, s.h.queue, s.h.own)
    ensures var s' := ResetAll(s); Owners(|s.p.next|, s'.phase, s'.h.free, s'.h.queue, s.h.own)
  {
    ReversedElements(s.h.queue);
  }

  lemma ResetCopies(s: Sys)
    requires Lists(s.p, s.h.free, s.h.queue) && Owners(|s.p.next|, s.phase, s.h.free, s.h.queue, s.h.own)
    requires Copies(s.p, s.msgSize, s.phase, s.h.sent) && Buffers(s.p, s.msgSize)
    ensures var s' := ResetAll(s); Copies(s'.p, s.msgSize, s'.phase, s'.h.sent) && Buffers(s'.p, s.msgSize)
  {
    ResetPool(s);
    var s' := ResetAll(s);
    forall t | t in s'.phase && s'.phase[t].Filling? ensures Filled(s'.p, s.msgSize, s'.phase[t]) {
      assert Filled(s.p, s.msgSize, s.phase[t]) && Owning(s.phase[t]);
      assert s.phase[t].node !in s.h.queue;
    }
    forall t | t in s'.phase && s'.phase[t].Draining? ensures Drained(s'.p, s.msgSize, s.h.sent, s'.phase[t]) {
      assert Drained(s.p, s.msgSize, s.h.sent, s.phase[t]);
    }
  }

  lemma ResetTickets(order: seq<nat>, taken: seq<nat>, dropped: seq<nat>, sent: seq<Sent>)
    requires Conserved(order, taken, dropped, |sent|) && Fifo(taken + order, sent)
    ensures Conserved([], taken, dropped + order, |sent|) && Fifo(taken + [], sent)
  {
    assert multiset([] + taken + (dropped + order)) == multiset(order + taken + dropped);
    assert forall i :: 0 <= i < |taken| ==> (taken + order)[i] == (taken + [])[i];
  }

  lemma ResetThreads(s: Sys)
    requires Waiting(s.phase, s.recvQ, s.sendQ) && Sized(s.phase, s.msgSize)
    requires InFlight(s.phase, s.h.taken, s.h.delivered)
    ensures var s' := ResetAll(s);
      Waiting(s'.phase, [], []) && Sized(s'.phase, s.msgSize) && InFlight(s'.phase, s.h.taken, s.h.delivered)
  {
    hide Drain, Reversed;
  }

  lemma ResetInv(s: Sys)
    requires Inv(s, 0, 0)
    ensures Inv(ResetAll(s), 0, 0)
  {
    hide Lists, Owners, Buffers, Copies, Conserved, Fifo, Waiting, Sized, InFlight, Delivered, WokenReceivers;
    hide WokenSenders, Drain, Unwait, Reversed;
    ResetPool(s);
    ResetOwners(s);
    ResetCopies(s);
    ResetTickets(s.h.order, s.h.taken, s.h.dropped, s.h.sent);
    ResetThreads(s);
  }

  // ----- every run -----

  lemma StepInv(s: Sys, op: Op)
    requires Inv(s, 0, 0)
    ensures Inv(Step(s, op), 0, 0)
  {
    hide Inv, TakeFree, TrySend, TryRecv, TakeHead, Copied, Fetched, WakeRecv, WakeSend, ResetAll, Remove;
    hide Filled, Drained;
    match op
    case Send(t, msg, timeout) =>
      if t in s.phase && s.phase[t].Idle? && 0 < |msg| <= s.msgSize { TrySendInv(s, t, msg, timeout); }
    case Urgent(t, msg) =>
      if t in s.phase && s.phase[t].Idle? && 0 < |msg| <= s.msgSize { TakeFreeInv(s, t, msg, true); }
    case SendAgain(t, timeout) =>
      if t in s.phase && s.phase[t].WokenSend? {
        PhaseFacts(s, t);
        TrySendInv(s, t, s.phase[t].msg, timeout);
      }
    case CopyIn1(t) => CopiedInv(s, t);
    case Link(t) =>
      if t in s.phase && s.phase[t].Filling? && s.phase[t].copied == |s.phase[t].msg| {
        PhaseFacts(s, t);
        LinkedInv(s, t);
        WakeRecvInv(Linked(s, t));
      }
    case Recv(t, size, timeout) => if t in s.phase && s.phase[t].Idle? { TryRecvInv(s, t, size, timeout); }
    case RecvAgain(t, timeout) =>
      if t in s.phase && s.phase[t].WokenRecv? { TryRecvInv(s, t, s.phase[t].size, timeout); }
    case CopyOut1(t) => FetchedInv(s, t);
    case Release(t) =>
      if t in s.phase && s.phase[t].Draining? && |s.phase[t].got| == s.phase[t].size {
        PhaseFacts(s, t);
        ReleasedInv(s, t);
        WakeSendInv(Released(s, t));
      }
    case Timeout(t) =>
      if t in s.phase && s.phase[t].WaitSend? {
        SendTimeoutInv(s, t);
      } else if t in s.phase && s.phase[t].WaitRecv? {
        RecvTimeoutInv(s, t);
      }
    case Reset => ResetInv(s);
  }

  lemma PhaseFacts(s: Sys, t: nat)
    requires Inv(s, 0, 0) && t in s.phase
    ensures s.phase[t].Filling? ==> Filled(s.p, s.msgSize, s.phase[t]) && s.phase[t].node < |s.p.next|
    ensures s.phase[t].Draining? ==> Drained(s.p, s.msgSize, s.h.sent, s.phase[t])
    ensures s.phase[t].WokenSend? ==> 0 < |s.phase[t].msg| <= s.msgSize
  {
    hide Lists, Owners, Queued, Conserved, QueueOrder, Fifo, Waiting, InFlight, Delivered, NoLostWakeup;
  }

  lemma TrySendInv(s: Sys, t: nat, msg: Bytes, timeout: int)
    requires Inv(s, 0, 0) && t in s.phase && (s.phase[t].Idle? || s.phase[t].WokenSend?) && 0 < |msg| <= s.msgSize
    ensures Inv(TrySend(s, t, msg, timeout), 0, 0)
  {
    hide Inv, TakeFree, Suspend;
    if s.p.free.Some? { TakeFreeInv(s, t, msg, false); } else { SenderWaitsInv(s, t, msg, timeout); }
  }

  lemma TryRecvInv(s: Sys, t: nat, size: nat, timeout: int)
    requires Inv(s, 0, 0) && t in s.phase && (s.phase[t].Idle? || s.phase[t].WokenRecv?)
    ensures Inv(TryRecv(s, t, size, timeout), 0, 0)
  {
    hide Inv, TakeHead, Suspend;
    if s.p.entry != 0 { TakeHeadInv(s, t, size); } else { ReceiverWaitsInv(s, t, size, timeout); }
  }

  lemma {:induction false} RunInv(s: Sys, ops: seq<Op>)
    requires Inv(s, 0, 0)
    ensures Inv(Run(s, ops), 0, 0)
    decreases |ops|
  {
    hide Inv, Step;
    if ops != [] {
      StepInv(s, ops[0]);
      RunInv(Step(s, ops[0]), ops[1..]);
    }
  }

  /** rt_mq_init: every node on the free list, every thread outside. */
  function Init(nodes: nat, msgSize: nat, byPrio: bool, prio: map<nat, nat>, threads: set<nat>): Sys {
    var blank := Pool(seq(nodes, _ => None), seq(nodes, _ => seq(msgSize, _ => 0)), None, None, None, 0);
    Sys(Built(blank, nodes), msgSize, byPrio, prio, map t | t in threads :: Idle, [], [],
        History(Down(nodes), [], map[], [], [], [], [], []))
  }

  lemma InitInv(nodes: nat, msgSize: nat, byPrio: bool, prio: map<nat, nat>, threads: set<nat>)
    ensures Inv(Init(nodes, msgSize, byPrio, prio, threads), 0, 0)
  {
    hide Lists, Built, Down, Owners, Buffers, Copies, InFlight, Waiting, Sized;
    var blank := Pool(seq(nodes, _ => None), seq(nodes, _ => seq(msgSize, _ => 0)), None, None, None, 0);
    BlankLists(blank);
    BuiltLists(blank, nodes);
    InitThreads(Built(blank, nodes), nodes, msgSize, threads);
    InitEmpty(nodes);
  }

  /** Idle threads own, copy and wait for nothing. */
  lemma InitThreads(p: Pool, nodes: nat, msgSize: nat, threads: set<nat>)
    requires |p.next| == nodes == |p.data| && (forall n: nat :: n < nodes ==> |p.data[n]| == msgSize)
    requires forall n: nat :: n in Down(nodes) <==> n < nodes
    ensures var phase: map<nat, Phase> := map t | t in threads :: Idle;
      && Owners(nodes, phase, Down(nodes), [], map[]) && Buffers(p, msgSize) && Copies(p, msgSize, phase, [])
      && InFlight(phase, [], []) && Waiting(phase, [], []) && Sized(phase, msgSize)
  {
    hide Down, Filled, Drained;
  }

  lemma InitEmpty(nodes: nat)
    ensures Conserved([], [], [], 0) && QueueOrder([], []) && Fifo([] + [], []) && Delivered([], [], [])
  {
  }

  lemma BlankLists(p: Pool)
    requires |p.data| == |p.next| && p.head == None && p.tail == None && p.free == None && p.entry == 0
    ensures Lists(p, [], [])
  {
  }

  // ----- what a run of the queue guarantees -----

  /** Over every interleaving from a fresh queue: each message is linked once and leaves once, is
      delivered at most once and with its sender's bytes, ordinary messages leave in link order,
      `entry` counts the queue, and no receiver sleeps while an unclaimed message waits, nor a
      sender while an unclaimed node is free. */
  lemma QueueCorrect(nodes: nat, msgSize: nat, byPrio: bool, prio: map<nat, nat>, threads: set<nat>, ops: seq<Op>)
    ensures var s := Run(Init(nodes, msgSize, byPrio, prio, threads), ops);
      && Lists(s.p, s.h.free, s.h.queue)
      && Owners(|s.p.next|, s.phase, s.h.free, s.h.queue, s.h.own)
      && Conserved(s.h.order, s.h.taken, s.h.dropped, |s.h.sent|)
      && QueueOrder(s.h.order, s.h.sent) && Fifo(s.h.taken + s.h.order, s.h.sent)
      && Delivered(s.h.delivered, s.h.taken, s.h.sent)
      && NoLostWakeup(s, 0, 0)
  {
    InitInv(nodes, msgSize, byPrio, prio, threads);
    hide Lists, Owners, Buffers, Queued, Copies, Conserved, QueueOrder, Fifo, Waiting, Sized, InFlight;
    hide Delivered, NoLostWakeup, Run, Init;
    RunInv(Init(nodes, msgSize, byPrio, prio, threads), ops);
  }

  /** When nobody is on the way to run, a sleeping receiver means an empty queue and a sleeping
      sender an empty free list. */
  lemma QuietMeansServed(s: Sys)
    requires Inv(s, 0, 0) && WokenReceivers(s.phase) == {} && WokenSenders(s.phase) == {}
    ensures (exists t :: t in s.phase && s.phase[t].WaitRecv?) ==> s.p.entry == 0 && s.p.head == None
    ensures (exists t :: t in s.phase && s.phase[t].WaitSend?) ==>
      s.p.free == None && forall n: nat :: n < |s.p.next| ==> n in s.h.queue || n in s.h.own
  {
    hide Buffers, Queued, Copies, Conserved, QueueOrder, Fifo, Sized, InFlight, Delivered;
  }
}
