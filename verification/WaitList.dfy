/** The suspend lists of the RT-Thread IPC objects: FIFO or sorted insertion, removal of the
    first thread by a resume and of any thread by a timeout. */
module WaitList {
  predicate Distinct(s: seq<nat>) { forall i, j :: 0 <= i < j < |s| ==> s[i] != s[j] }

  function Priority(prio: map<nat, nat>, t: nat): nat { if t in prio then prio[t] else 0 }

  /** The first waiter that `t` outranks, or the end. */
  function Position(q: seq<nat>, t: nat, prio: map<nat, nat>): (r: nat)
    ensures r <= |q|
  {
    if q == [] || Priority(prio, t) < Priority(prio, q[0]) then 0 else 1 + Position(q[1..], t, prio)
  }

  function InsertAt(q: seq<nat>, i: nat, t: nat): seq<nat>
    requires i <= |q|
  {
    q[..i] + [t] + q[i..]
  }

  /** rt_ipc_list_suspend */
  function Suspend(q: seq<nat>, t: nat, byPrio: bool, prio: map<nat, nat>): seq<nat> {
    InsertAt(q, if byPrio then Position(q, t, prio) else |q|, t)
  }

  function Remove(q: seq<nat>, t: nat): seq<nat> {
    if q == [] then [] else if q[0] == t then Remove(q[1..], t) else [q[0]] + Remove(q[1..], t)
  }

  lemma SuspendElements(q: seq<nat>, t: nat, byPrio: bool, prio: map<nat, nat>)
    ensures forall u :: u in Suspend(q, t, byPrio, prio) <==> u == t || u in q
    ensures t !in q && Distinct(q) ==> Distinct(Suspend(q, t, byPrio, prio))
    ensures Suspend(q, t, byPrio, prio) != []
  {
    var i := if byPrio then Position(q, t, prio) else |q|;
    var r := InsertAt(q, i, t);
    forall u ensures u in r <==> u == t || u in q {
      assert q == q[..i] + q[i..];
      assert r[i] == t;
    }
    if t !in q && Distinct(q) {
      forall a, b | 0 <= a < b < |r| ensures r[a] != r[b] {
        assert a < i ==> r[a] == q[a];
        assert b > i ==> r[b] == q[b - 1];
      }
    }
  }

  lemma {:induction false} RemoveElements(q: seq<nat>, t: nat)
    ensures forall u :: u in Remove(q, t) <==> u in q && u != t
    ensures Distinct(q) ==> Distinct(Remove(q, t))
    ensures |Remove(q, t)| <= |q|
  {
    if q != [] {
      RemoveElements(q[1..], t);
      assert q == [q[0]] + q[1..];
      if Distinct(q) {
        var r, s := Remove(q, t), Remove(q[1..], t);
        assert Distinct(q[1..]);
        assert forall u :: u in s ==> u != q[0];
        if q[0] != t {
          forall a, b | 0 <= a < b < |r| ensures r[a] != r[b] {
            assert r[b] == s[b - 1];
            assert s[b - 1] in s;
            if a > 0 { assert r[a] == s[a - 1]; }
          }
        }
      }
    }
  }

  lemma DistinctCons(t: nat, q: seq<nat>)
    requires Distinct(q) && t !in q
    ensures Distinct([t] + q)
  {
    forall i, j | 0 <= i < j < |[t] + q| ensures ([t] + q)[i] != ([t] + q)[j] {
      assert ([t] + q)[j] == q[j - 1] && q[j - 1] in q;
    }
  }

  /** Resuming the first waiter leaves the others, once each. */
  lemma ResumeElements(q: seq<nat>)
    requires q != [] && Distinct(q)
    ensures Distinct(q[1..]) && forall u :: u in q[1..] <==> u in q && u != q[0]
  {
    assert q == [q[0]] + q[1..];
  }

  // ----- sorted waiting lists -----

  predicate Sorted(q: seq<nat>, prio: map<nat, nat>) {
    forall i, j :: 0 <= i < j < |q| ==> Priority(prio, q[i]) <= Priority(prio, q[j])
  }

  lemma {:induction false} PositionBound(q: seq<nat>, t: nat, prio: map<nat, nat>)
    ensures forall i :: 0 <= i < Position(q, t, prio) ==> Priority(prio, q[i]) <= Priority(prio, t)
    ensures Position(q, t, prio) < |q| ==> Priority(prio, t) < Priority(prio, q[Position(q, t, prio)])
  {
    if !(q == [] || Priority(prio, t) < Priority(prio, q[0])) {
      PositionBound(q[1..], t, prio);
      forall i | 0 <= i < Position(q, t, prio) ensures Priority(prio, q[i]) <= Priority(prio, t) {
        if i > 0 { assert q[i] == q[1..][i - 1]; }
      }
    }
  }

  /** Which element of the longer list came from where. */
  lemma InsertedAt(q: seq<nat>, i: nat, t: nat, a: nat)
    requires i <= |q| && a <= |q|
    ensures |InsertAt(q, i, t)| == |q| + 1
    ensures InsertAt(q, i, t)[a] == if a < i then q[a] else if a == i then t else q[a - 1]
  {
  }

  /** Sorted insertion keeps the list sorted and puts the newcomer behind its equals. */
  lemma SuspendSorted(q: seq<nat>, t: nat, prio: map<nat, nat>)
    requires Sorted(q, prio)
    ensures Sorted(Suspend(q, t, true, prio), prio)
    ensures var i := Position(q, t, prio);
      && Suspend(q, t, true, prio) == q[..i] + [t] + q[i..]
      && (forall a :: 0 <= a < |q| ==> (a < i <==> Priority(prio, q[a]) <= Priority(prio, t)))
  {
    hide Priority, InsertAt, Position;
    var i := Position(q, t, prio);
    PositionBound(q, t, prio);
    var r := Suspend(q, t, true, prio);
    assert r == q[..i] + [t] + q[i..] by { InsertShape(q, i, t); }
    forall a, b | 0 <= a < b < |r| ensures Priority(prio, r[a]) <= Priority(prio, r[b]) {
      InsertedAt(q, i, t, a);
      InsertedAt(q, i, t, b);
    }
  }

  lemma InsertShape(q: seq<nat>, i: nat, t: nat)
    requires i <= |q|
    ensures InsertAt(q, i, t) == q[..i] + [t] + q[i..] && |InsertAt(q, i, t)| == |q| + 1
  {
  }
}
