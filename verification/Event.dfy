/** RT-Thread events: threads wait for all or any of a set of bits, and may clear what they receive. */
module Event {
  import opened Basics
  import opened WaitList

  type Bits = set<nat>   // bit numbers of a 32-bit word

  /** event_set and event_info of a waiting thread; AND goes before OR. */
  datatype Want = Want(bits: Bits, all: bool, clear: bool)

  /** `got` is what resumed threads find in their event_set. */
  datatype Ev = Ev(bits: Bits, queue: seq<nat>, want: map<nat, Want>, got: map<nat, Bits>, byPrio: bool,
      prio: map<nat, nat>)

  predicate Satisfied(bits: Bits, w: Want) { if w.all then w.bits <= bits else w.bits * bits != {} }

  // ----- rt_event_recv -----

  /** What an immediate receive returns and leaves. */
  function Receive(bits: Bits, w: Want): Option<(Bits, Bits)> {
    if Satisfied(bits, w) then Some((bits * w.bits, if w.clear then bits - w.bits else bits)) else None
  }

  function RecvStep(e: Ev, t: nat, w: Want, timeout: int): Ev {
    var r := Receive(e.bits, w);
    if r.Some? then e.(bits := r.value.1, got := e.got[t := r.value.0])
    else if timeout == 0 then e
    else e.(want := e.want[t := w], queue := Suspend(e.queue, t, e.byPrio, e.prio))
  }

  // ----- rt_event_send -----

  /** The test of one waiter: its event_set afterwards, if it is to be resumed. */
  function Test(bits: Bits, w: Want): Option<Bits> {
    if w.all then (if w.bits * bits == w.bits then Some(w.bits) else None)
    else if w.bits * bits != {} then Some(w.bits * bits) else None
  }

  datatype Scan = Scan(bits: Bits, left: seq<nat>, got: map<nat, Bits>)

  /** The loop over the waiters, in list order. */
  function ScanFrom(s: Scan, queue: seq<nat>, want: map<nat, Want>): Scan
    decreases |queue|
  {
    if queue == [] then s
    else
      var t := queue[0];
      var r := if t in want then Test(s.bits, want[t]) else None;
      ScanFrom(if r.None? then s.(left := s.left + [t])
               else s.(bits := if want[t].clear then s.bits - r.value else s.bits, got := s.got[t := r.value]),
                   queue[1..], want)
  }

  function SendStep(e: Ev, set': Bits): Ev {
    if set' == {} then e
    else
      var s := ScanFrom(Scan(e.bits + set', [], e.got), e.queue, e.want);
      e.(bits := s.bits, queue := s.left, got := s.got)
  }

  // ----- nobody waits for what is there -----

  ghost predicate NoneReady(bits: Bits, queue: seq<nat>, want: map<nat, Want>) {
    forall t :: t in queue ==> t in want && !Satisfied(bits, want[t])
  }

  ghost predicate Inv(e: Ev) { Distinct(e.queue) && NoneReady(e.bits, e.queue, e.want) }

  /** Clearing bits satisfies nobody. */
  lemma FewerBits(a: Bits, b: Bits, w: Want)
    requires b <= a && !Satisfied(a, w)
    ensures !Satisfied(b, w)
  {
    assert w.bits * b <= w.bits * a;
  }

  /** The test resumes a waiter exactly when an immediate receive would succeed, and gives it the
      same bits and leaves the same event set. */
  lemma TestIsReceive(bits: Bits, w: Want)
    requires w.bits != {}
    ensures Test(bits, w).Some? <==> Receive(bits, w).Some?
    ensures Test(bits, w).Some? ==>
      var r := Test(bits, w).value; Receive(bits, w) == Some((r, if w.clear then bits - r else bits))
  {
    if Test(bits, w).Some? {
      var r := Test(bits, w).value;
      assert bits * w.bits == r;
      assert bits - w.bits == bits - r;
    }
  }

  /** A waiter passed over stays unsatisfied whatever later waiters clear; the event set only shrinks. */
  lemma {:induction false} ScanLeaves(s: Scan, queue: seq<nat>, want: map<nat, Want>)
    requires NoneReady(s.bits, s.left, want) && Distinct(s.left + queue)
    requires forall t :: t in queue ==> t in want && want[t].bits != {}
    ensures var r := ScanFrom(s, queue, want);
      && r.bits <= s.bits && NoneReady(r.bits, r.left, want) && Distinct(r.left)
      && (forall t :: t in r.left ==> t in s.left || t in queue)
    decreases |queue|
  {
    if queue == [] {
      assert s.left + queue == s.left;
    } else {
      var t := queue[0];
      TestIsReceive(s.bits, want[t]);
      var r := Test(s.bits, want[t]);
      var n := if r.None? then s.(left := s.left + [t])
               else s.(bits := if want[t].clear then s.bits - r.value else s.bits, got := s.got[t := r.value]);
      assert queue == [t] + queue[1..];
      ScanStepOk(s, n, t, queue[1..], want);
      ScanLeaves(n, queue[1..], want);
    }
  }

  lemma ScanStepOk(s: Scan, n: Scan, t: nat, rest: seq<nat>, want: map<nat, Want>)
    requires NoneReady(s.bits, s.left, want) && Distinct(s.left + ([t] + rest)) && t in want
    requires n.bits <= s.bits
    requires n.left == s.left || (n.left == s.left + [t] && n.bits == s.bits && !Satisfied(s.bits, want[t]))
    ensures NoneReady(n.bits, n.left, want) && Distinct(n.left + rest)
  {
    forall u | u in n.left ensures u in want && !Satisfied(n.bits, want[u]) {
      if u in s.left { FewerBits(s.bits, n.bits, want[u]); }
    }
    if n.left == s.left {
      var a, b := s.left + ([t] + rest), s.left + rest;
      forall i, j | 0 <= i < j < |b| ensures b[i] != b[j] {
        assert b[i] == a[if i < |s.left| then i else i + 1] && b[j] == a[if j < |s.left| then j else j + 1];
      }
    } else {
      assert n.left + rest == s.left + ([t] + rest);
    }
  }

  /** Each waiter the scan reaches gets what an immediate receive would have returned at that moment. */
  lemma {:induction false} ScanGives(s: Scan, queue: seq<nat>, want: map<nat, Want>, k: nat)
    requires k < |queue| && Distinct(queue) && forall t :: t in queue ==> t in want && want[t].bits != {}
    ensures var before := ScanFrom(s, queue[..k], want); var t := queue[k]; var r := Receive(before.bits, want[t]);
      && (r.Some? ==> t in ScanFrom(s, queue, want).got && ScanFrom(s, queue, want).got[t] == r.value.0)
      && (r.Some? ==> ScanFrom(s, queue[..k + 1], want).bits == r.value.1)
      && (r.None? ==> t in ScanFrom(s, queue, want).left)
    decreases |queue|
  {
    var t := queue[0];
    var r := Test(s.bits, want[t]);
    var n := if r.None? then s.(left := s.left + [t])
             else s.(bits := if want[t].clear then s.bits - r.value else s.bits, got := s.got[t := r.value]);
    TestIsReceive(s.bits, want[t]);
    assert queue[..k + 1][1..] == queue[1..][..k] && queue[..k + 1][0] == t;
    if k == 0 {
      assert queue[..0] == [] && queue[..1][1..] == [];
      ScanKeeps(n, queue[1..], want, t);
    } else {
      assert queue[..k][1..] == queue[1..][..k - 1] && queue[..k][0] == t;
      assert queue[1..][k - 1] == queue[k];
      ScanGives(n, queue[1..], want, k - 1);
    }
  }

  lemma {:induction false} ScanKeeps(s: Scan, queue: seq<nat>, want: map<nat, Want>, t: nat)
    requires t !in queue
    ensures t in s.left ==> t in ScanFrom(s, queue, want).left
    ensures t in s.got ==> t in ScanFrom(s, queue, want).got && ScanFrom(s, queue, want).got[t] == s.got[t]
    decreases |queue|
  {
    if queue != [] {
      var u := queue[0];
      var r := if u in want then Test(s.bits, want[u]) else None;
      var n := if r.None? then s.(left := s.left + [u])
               else s.(bits := if want[u].clear then s.bits - r.value else s.bits, got := s.got[u := r.value]);
      ScanKeeps(n, queue[1..], want, t);
    }
  }

  // ----- every run -----

  datatype Op = Send(bits: Bits) | Recv(t: nat, w: Want, timeout: int) | Timeout(t: nat) | Reset

  ghost predicate Ok(e: Ev) { Inv(e) && forall t :: t in e.queue ==> t in e.want && e.want[t].bits != {} }

  function Step(e: Ev, op: Op): Ev {
    match op
    case Send(bits) => SendStep(e, bits)
    case Recv(t, w, timeout) => if t in e.queue || w.bits == {} then e else RecvStep(e, t, w, timeout)
    case Timeout(t) => e.(queue := Remove(e.queue, t))
    case Reset => e.(queue := [], bits := {})
  }

  lemma RecvOk(e: Ev, t: nat, w: Want, timeout: int)
    requires Ok(e) && t !in e.queue && w.bits != {}
    ensures Ok(RecvStep(e, t, w, timeout))
  {
    hide Suspend;
    var f := RecvStep(e, t, w, timeout);
    SuspendElements(e.queue, t, e.byPrio, e.prio);
    forall u | u in f.queue ensures u in f.want && !Satisfied(f.bits, f.want[u]) && f.want[u].bits != {} {
      if u in e.queue && f.queue == e.queue { FewerBits(e.bits, f.bits, e.want[u]); }
    }
  }

  lemma SendOk(e: Ev, bits: Bits)
    requires Ok(e)
    ensures Ok(SendStep(e, bits))
  {
    if bits != {} {
      assert [] + e.queue == e.queue;
      ScanLeaves(Scan(e.bits + bits, [], e.got), e.queue, e.want);
    }
  }

  lemma StepOk(e: Ev, op: Op)
    requires Ok(e)
    ensures Ok(Step(e, op))
  {
    hide SendStep, RecvStep, Remove;
    match op
    case Send(bits) => SendOk(e, bits);
    case Recv(t, w, timeout) => if t !in e.queue && w.bits != {} { RecvOk(e, t, w, timeout); }
    case Timeout(t) => RemoveElements(e.queue, t);
    case Reset =>
  }

  function Run(e: Ev, ops: seq<Op>): Ev
    decreases |ops|
  {
    if ops == [] then e else Run(Step(e, ops[0]), ops[1..])
  }

  lemma {:induction false} RunOk(e: Ev, ops: seq<Op>)
    requires Ok(e)
    ensures Ok(Run(e, ops))
    decreases |ops|
  {
    hide Ok, Step;
    if ops != [] {
      StepOk(e, ops[0]);
      RunOk(Step(e, ops[0]), ops[1..]);
    }
  }

  /** In every reachable state no suspended thread's condition is met by the event set. */
  lemma NobodyStranded(byPrio: bool, prio: map<nat, nat>, ops: seq<Op>)
    ensures var e := Run(Ev({}, [], map[], map[], byPrio, prio), ops);
      forall t :: t in e.queue ==> t in e.want && !Satisfied(e.bits, e.want[t])
  {
    hide Run;
    RunOk(Ev({}, [], map[], map[], byPrio, prio), ops);
  }

  // ----- the object, updated in place -----

  class RtEvent {
    var bits: Bits
    var queue: seq<nat>
    var want: map<nat, Want>
    var got: map<nat, Bits>
    const byPrio: bool
    const prio: map<nat, nat>

    function View(): Ev
      reads this
    {
      Ev(bits, queue, want, got, byPrio, prio)
    }

    /** rt_event_send */
    method Send(set': Bits)
      requires forall t :: t in queue ==> t in want
      modifies this
      ensures View() == Step(old(View()), Op.Send(set'))
    {
      if set' == {} { return; }
      bits := bits + set';
      ghost var all := ScanFrom(Scan(bits, [], got), queue, want);
      var i, left := 0, [];
      assert queue[0..] == queue;
      while i < |queue|
        invariant 0 <= i <= |queue| && queue == old(queue) && want == old(want)
        invariant ScanFrom(Scan(bits, left, got), queue[i..], want) == all
      {
        var t := queue[i];
        assert t in queue && queue[i..][0] == t && queue[i..][1..] == queue[i + 1..];
        var w := want[t];
        var event := w.bits;
        var ok := false;
        if w.all {
          ok := event * bits == event;
        } else if event * bits != {} {
          event, ok := event * bits, true;
        }
        if ok {
          if w.clear { bits := bits - event; }
          got := got[t := event];
        } else {
          left := left + [t];
        }
        i := i + 1;
      }
      queue := left;
    }

    /** rt_event_recv up to its interrupt-enable */
    method Recv(t: nat, w: Want, timeout: int) returns (r: Option<Bits>)
      requires t !in queue && w.bits != {}
      modifies this
      ensures View() == Step(old(View()), Op.Recv(t, w, timeout))
      ensures r.Some? <==> Satisfied(old(bits), w)
      ensures r.Some? ==> r.value == old(bits) * w.bits
    {
      var ok := if w.all then bits * w.bits == w.bits else bits * w.bits != {};
      if ok {
        r := Some(bits * w.bits);
        got := got[t := bits * w.bits];
        if w.clear { bits := bits - w.bits; }
        return;
      }
      if timeout != 0 {
        want := want[t := w];
        queue := Suspend(queue, t, byPrio, prio);
      }
      return None;
    }
  }
}
