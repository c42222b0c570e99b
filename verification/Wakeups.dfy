/** One side of a blocking object: threads that wait for items, and those already resumed that have
    not run yet. Newcomers may take an item before a resumed thread runs, and waits may time out. */
module Wakeups {
  import opened WaitList

  datatype Side = Side(items: nat, queue: seq<nat>, woken: set<nat>)

  /** Threads stay suspended only while the resumed ones can take every item. */
  ghost predicate Inv(s: Side) {
    && Distinct(s.queue) && (forall t :: t in s.queue ==> t !in s.woken)
    && (s.queue != [] ==> s.items <= |s.woken|)
  }

  /** One more item; the first waiter, if any, is resumed. */
  function Put(s: Side): Side {
    if s.queue == [] then s.(items := s.items + 1)
    else Side(s.items + 1, s.queue[1..], s.woken + {s.queue[0]})
  }

  /** `t`, resumed or a newcomer, takes an item. */
  function Take(s: Side, t: nat): Side
    requires s.items > 0
  {
    s.(items := s.items - 1, woken := s.woken - {t})
  }

  /** `t` finds no item and waits, by the object's queueing rule. */
  function Sleep(s: Side, t: nat, queue: seq<nat>): Side { s.(queue := queue, woken := s.woken - {t}) }

  /** `t` finds no item and has no time left. */
  function Leave(s: Side, t: nat): Side { s.(woken := s.woken - {t}) }

  function Expire(s: Side, t: nat): Side { s.(queue := Remove(s.queue, t)) }

  lemma PutInv(s: Side)
    requires Inv(s)
    ensures Inv(Put(s))
  {
    if s.queue != [] { ResumeElements(s.queue); }
  }

  lemma TakeInv(s: Side, t: nat)
    requires Inv(s) && s.items > 0
    ensures Inv(Take(s, t))
  {
    if t !in s.woken { assert s.woken - {t} == s.woken; }
  }

  lemma SleepInv(s: Side, t: nat, queue: seq<nat>)
    requires Inv(s) && s.items == 0 && Distinct(queue) && forall u :: u in queue <==> u == t || u in s.queue
    ensures Inv(Sleep(s, t, queue))
  {
  }

  lemma LeaveInv(s: Side, t: nat)
    requires Inv(s) && s.items == 0
    ensures Inv(Leave(s, t))
  {
  }

  lemma ExpireInv(s: Side, t: nat)
    requires Inv(s)
    ensures Inv(Expire(s, t))
  {
    RemoveElements(s.queue, t);
  }
}
