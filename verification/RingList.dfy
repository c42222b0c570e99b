/** The circular doubly linked lists of rtservice.h, used by every queue and free list. */
module RingList {
  import opened WaitList

  datatype Node = Node(next: nat, prev: nat)
  type Memory = map<nat, Node>

  function Succ(i: nat, n: nat): nat { if i + 1 < n then i + 1 else 0 }

  predicate Joined(m: Memory, r: seq<nat>, i: nat)
    requires i < |r|
  {
    var j := Succ(i, |r|);
    r[i] in m && r[j] in m && m[r[i]].next == r[j] && m[r[j]].prev == r[i]
  }

  /** The links spell out the ring `r`: the list head first, then the members in order. */
  ghost predicate Ring(m: Memory, r: seq<nat>) {
    r != [] && Distinct(r) && forall i :: 0 <= i < |r| ==> Joined(m, r, i)
  }

  function SetNext(m: Memory, a: nat, x: nat): Memory {
    if a in m then m[a := m[a].(next := x)] else m[a := Node(x, x)]
  }

  function SetPrev(m: Memory, a: nat, x: nat): Memory {
    if a in m then m[a := m[a].(prev := x)] else m[a := Node(x, x)]
  }

  function LinkAfter(m: Memory, l: nat, n: nat): Memory
    requires l in m
  {
    var x := m[l].next;
    SetPrev(SetNext(SetNext(SetPrev(m, x, n), n, x), l, n), n, l)
  }

  function LinkBefore(m: Memory, l: nat, n: nat): Memory
    requires l in m
  {
    var x := m[l].prev;
    SetNext(SetPrev(SetPrev(SetNext(m, x, n), n, x), l, n), n, l)
  }

  function Unlink(m: Memory, n: nat): Memory
    requires n in m
  {
    var x, y := m[n].next, m[n].prev;
    SetNext(SetPrev(m, x, y), y, x)
  }

  /** rt_list_remove also leaves the node linked to itself. */
  function Detach(m: Memory, n: nat): Memory
    requires n in m
  {
    Unlink(m, n)[n := Node(n, n)]
  }

  lemma InsertAfterRing(m: Memory, r: seq<nat>, i: nat, n: nat)
    requires Ring(m, r) && i < |r| && n !in r
    ensures r[i] in m && Ring(LinkAfter(m, r[i], n), r[..i + 1] + [n] + r[i + 1..])
  {
    assert Joined(m, r, i);
    var m' := LinkAfter(m, r[i], n);
    var s := r[..i + 1] + [n] + r[i + 1..];
    InsertDistinct(r, i + 1, n);
    forall k | 0 <= k < |s| ensures Joined(m', s, k) {
      if k < i { assert Joined(m, r, k); }
      if k > i + 1 { assert Joined(m, r, k - 1); }
    }
  }

  lemma InsertBeforeRing(m: Memory, r: seq<nat>, i: nat, n: nat)
    requires Ring(m, r) && 0 < i <= |r| && n !in r
    ensures var l := if i == |r| then r[0] else r[i];
      l in m && Ring(LinkBefore(m, l, n), r[..i] + [n] + r[i..])
  {
    var l := if i == |r| then r[0] else r[i];
    assert Joined(m, r, i - 1);
    assert Joined(m, r, if i == |r| then 0 else i);
    var m' := LinkBefore(m, l, n);
    var s := r[..i] + [n] + r[i..];
    InsertDistinct(r, i, n);
    forall k | 0 <= k < |s| ensures Joined(m', s, k) {
      if k < i - 1 { assert Joined(m, r, k); }
      if k > i { assert Joined(m, r, k - 1); }
    }
  }

  lemma InsertDistinct(r: seq<nat>, i: nat, n: nat)
    requires Distinct(r) && n !in r && i <= |r|
    ensures Distinct(r[..i] + [n] + r[i..])
  {
    var s := r[..i] + [n] + r[i..];
    forall a, b | 0 <= a < b < |s| ensures s[a] != s[b] {
      assert a < i ==> s[a] == r[a];
      assert b > i ==> s[b] == r[b - 1];
    }
  }

  lemma UnlinkRing(m: Memory, r: seq<nat>, i: nat)
    requires Ring(m, r) && 0 < i < |r|
    ensures r[i] in m && Ring(Unlink(m, r[i]), r[..i] + r[i + 1..])
  {
    assert Joined(m, r, i) && Joined(m, r, i - 1);
    var m' := Unlink(m, r[i]);
    var s := r[..i] + r[i + 1..];
    forall k | 0 <= k < |s| ensures Joined(m', s, k) {
      if k < i { assert Joined(m, r, k); } else { assert Joined(m, r, k + 1); }
    }
  }

  lemma RemoveRing(m: Memory, r: seq<nat>, i: nat)
    requires Ring(m, r) && 0 < i < |r|
    ensures r[i] in m && Ring(Detach(m, r[i]), r[..i] + r[i + 1..])
  {
    UnlinkRing(m, r, i);
    var s := r[..i] + r[i + 1..];
    forall k | 0 <= k < |s| ensures Joined(Detach(m, r[i]), s, k) {
      assert Joined(Unlink(m, r[i]), s, k);
      assert r[i] !in s;
    }
  }

  /** Insertion undone by removal. */
  lemma InsertRemove(m: Memory, r: seq<nat>, i: nat, n: nat)
    requires Ring(m, r) && i < |r| && n !in r
    ensures r[i] in m && n in LinkAfter(m, r[i], n)
    ensures forall k :: 0 <= k < |r| ==> r[k] in m && Detach(LinkAfter(m, r[i], n), n)[r[k]] == m[r[k]]
  {
    forall k | 0 <= k < |r| ensures r[k] in m && Detach(LinkAfter(m, r[i], n), n)[r[k]] == m[r[k]] {
      assert Joined(m, r, k) && Joined(m, r, i);
      assert Joined(m, r, Succ(i, |r|));
    }
    assert Joined(m, r, i);
  }

  class Links {
    var m: Memory

    constructor (head: nat)
      ensures Ring(m, [head])
    {
      m := map[head := Node(head, head)];
    }

    method InsertBefore(l: nat, n: nat)
      requires l in m && m[l].prev in m
      modifies this
      ensures m == LinkBefore(old(m), l, n)
    {
      var x := m[l].prev;
      m := SetNext(m, x, n);
      m := SetPrev(m, n, x);
      m := SetPrev(m, l, n);
      m := SetNext(m, n, l);
    }

    method InsertAfter(l: nat, n: nat)
      requires l in m && m[l].next in m
      modifies this
      ensures m == LinkAfter(old(m), l, n)
    {
      var x := m[l].next;
      m := SetPrev(m, x, n);
      m := SetNext(m, n, x);
      m := SetNext(m, l, n);
      m := SetPrev(m, n, l);
    }

    method Remove(n: nat)
      requires n in m && m[n].next in m && m[n].prev in m
      modifies this
      ensures m == Detach(old(m), n)
    {
      var x, y := m[n].next, m[n].prev;
      m := SetPrev(m, x, y);
      m := SetNext(m, y, x);
      m := m[n := Node(n, n)];
    }

    method IsEmpty(l: nat, ghost r: seq<nat>) returns (empty: bool)
      requires Ring(m, r) && r[0] == l
      ensures empty <==> |r| == 1
    {
      assert Joined(m, r, 0);
      return m[l].next == l;
    }

    method Length(l: nat, ghost r: seq<nat>) returns (len: nat)
      requires Ring(m, r) && r[0] == l
      ensures len == |r| - 1
    {
      len := 0;
      var p := l;
      assert Joined(m, r, 0);
      while m[p].next != l
        invariant len < |r| && p == r[len] && p in m
        decreases |r| - len
      {
        assert Joined(m, r, len);
        p := m[p].next;
        len := len + 1;
      }
      assert Joined(m, r, len);
    }

    /** rt_ipc_list_suspend: `t` joins the waiters `q` behind `head`. */
    method Suspend(head: nat, t: nat, byPrio: bool, prio: map<nat, nat>, ghost q: seq<nat>)
      requires Ring(m, [head] + q) && t !in [head] + q
      modifies this
      ensures Ring(m, [head] + WaitList.Suspend(q, t, byPrio, prio))
    {
      ghost var r := [head] + q;
      var n, i := head, |q|;
      if byPrio {
        n, i := FindPlace(head, t, prio, q);
      }
      assert Joined(m, r, i) && (i + 1 < |r| ==> Joined(m, r, i + 1)) && Joined(m, r, 0);
      assert n == if i + 1 == |r| then r[0] else r[i + 1];
      InsertBeforeRing(m, r, i + 1, t);
      assert r[..i + 1] + [t] + r[i + 1..] == [head] + InsertAt(q, i, t);
      InsertBefore(n, t);
    }

    /** The scan for the first waiter that `t` outranks; the list head stands for the end. */
    method FindPlace(head: nat, t: nat, prio: map<nat, nat>, ghost q: seq<nat>) returns (n: nat, i: nat)
      requires Ring(m, [head] + q)
      ensures i == Position(q, t, prio) && n == if i < |q| then q[i] else head
    {
      ghost var r := [head] + q;
      assert Joined(m, r, 0);
      n, i := m[head].next, 0;
      assert q[0..] == q;
      while n != head && !(Priority(prio, t) < Priority(prio, n))
        invariant i <= |q| && n == (if i < |q| then q[i] else head)
        invariant Position(q, t, prio) == i + Position(q[i..], t, prio)
        decreases |q| - i
      {
        assert Joined(m, r, i + 1);
        assert q[i..][1..] == q[i + 1..];
        n := m[n].next;
        i := i + 1;
      }
      if i < |q| { assert r[0] != r[i + 1]; }
    }

    /** rt_ipc_list_resume takes the first waiter off the list. */
    method Resume(head: nat, ghost q: seq<nat>) returns (t: nat)
      requires Ring(m, [head] + q) && q != []
      modifies this
      ensures t == q[0] && Ring(m, [head] + q[1..])
    {
      ghost var r := [head] + q;
      assert Joined(m, r, 0) && Joined(m, r, 1);
      t := m[head].next;
      RemoveRing(m, r, 1);
      assert r[..1] + r[2..] == [head] + q[1..];
      Remove(t);
    }
  }
}
