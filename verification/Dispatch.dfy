/** The dispatch of Lifetime's step machine is the delivery of an event: what one thread does between two idle
    moments, among the steps of all the others, is what the delivery function says. */
module Dispatch {
  import opened Assoc
  import opened Hal
  import opened Lifetime

  const EVENT_HANDLER: nat := 1

  /** The handler table with the callback that every command registers. */
  function AsHandlers(h: seq<Entry<Key, Hal.Ptr>>): (r: seq<Handler>)
    ensures |r| == |h|
  {
    seq(|h|, i requires 0 <= i < |h| => Entry(h[i].key, Hal.Callback.Callback(EVENT_HANDLER, h[i].val)))
  }

  lemma LookupAsHandlers(h: seq<Entry<Key, Hal.Ptr>>, k: Key)
    ensures Lookup(AsHandlers(h), k)
         == match Lookup(h, k) case None => None case Some(c) => Some(Hal.Callback.Callback(EVENT_HANDLER, c))
  {
    IndexOfUnique(AsHandlers(h), k, IndexOf(h, k));
  }

  /** What a step of the dispatching thread does to the mutex, to the references and to the callback. */
  function ActionsOf(s: State, step: Step): seq<Action>
    requires Enabled(s, step)
  {
    match step
    case LookupAndRef(t, k) =>
      (match Lookup(s.handlers, k)
       case None => [Lock, Unlock]
       case Some(c) => [Lock, Action.AddRef(c), Unlock, Call(Hal.Callback.Callback(EVENT_HANDLER, c))])
    case ReleaseAfterDispatch(t) => [Action.ReleaseRef(s.threads[t].c)]
    case _ => []
  }

  /** The references change as these actions say: one more, one fewer, and the command is deleted with the last. */
  lemma ActionsCount(s: State, step: Step, p: Hal.Ptr)
    requires Enabled(s, step) && (step.LookupAndRef? || step.ReleaseAfterDispatch?)
    requires forall q :: q in s.refs ==> s.refs[q] >= 1
    ensures p in s.refs ==>
              var n := s.refs[p] + Refs(ActionsOf(s, step), p);
              if n > 0 then p in Next(s, step).refs && Next(s, step).refs[p] == n else p !in Next(s, step).refs
    ensures p !in s.refs ==> p !in Next(s, step).refs
  {
    var a := ActionsOf(s, step);
    assert a[..0] == [] && a == a[..|a|];
    forall n | 0 <= n < |a|
      ensures Refs(a[..n + 1], p)
           == Refs(a[..n], p) + if a[n] == Action.AddRef(p) then 1 else if a[n] == Action.ReleaseRef(p) then -1 else 0
    {
      assert a[..n + 1][..n] == a[..n];
    }
    assert Refs(a[..1], p) == if a[0] == Action.ReleaseRef(p) then -1 else 0;
    assert |a| > 2 ==> Refs(a[..3], p) == Refs(a[..2], p);
  }

  /** What thread t does from state i to state j of a path. */
  function Trace(states: seq<State>, steps: seq<Step>, t: Tid, i: nat, j: nat): seq<Action>
    requires Path(states, steps) && i <= j <= |steps|
    decreases j - i
  {
    if i == j then []
    else
      Trace(states, steps, t, i, j - 1)
      + if steps[j - 1].t == t then ActionsOf(states[j - 1], steps[j - 1]) else []
  }

  lemma Found(s: State, t: Tid, k: Key)
    requires Enabled(s, LookupAndRef(t, k)) && Lookup(s.handlers, k).Some?
    ensures var s', c := Next(s, LookupAndRef(t, k)), Lookup(s.handlers, k).value;
            && t in s'.threads && Dispatching(s'.threads[t]) == Some(c)
            && ActionsOf(s, LookupAndRef(t, k))
               == [Lock, Action.AddRef(c), Unlock, Call(Hal.Callback.Callback(EVENT_HANDLER, c))]
  {
  }

  /** Until its final release, the thread has looked up, taken its reference, and called. */
  lemma {:induction false} TraceSoFar(states: seq<State>, steps: seq<Step>, t: Tid, k: Key, i: nat, j: nat)
    requires Path(states, steps) && i < j <= |steps| && steps[i] == LookupAndRef(t, k)
    requires Lookup(states[i].handlers, k).Some?
    requires forall m :: i < m < j ==> steps[m] != ReleaseAfterDispatch(t)
    ensures t in states[j].threads && Dispatching(states[j].threads[t]) == Lookup(states[i].handlers, k)
    ensures var c := Lookup(states[i].handlers, k).value;
            Trace(states, steps, t, i, j)
            == [Lock, Action.AddRef(c), Unlock, Call(Hal.Callback.Callback(EVENT_HANDLER, c))]
    decreases j - i
  {
    hide Enabled, Next, ActionsOf;
    assert states[j - 1 + 1] == Next(states[j - 1], steps[j - 1]) && Enabled(states[j - 1], steps[j - 1]);
    if j == i + 1 {
      assert Trace(states, steps, t, i, i) == [];
      Found(states[i], t, k);
    } else {
      TraceSoFar(states, steps, t, k, i, j - 1);
      KeepsDispatching(states[j - 1], steps[j - 1], t);
      if steps[j - 1].t == t {
        BusyDoesNothing(states[j - 1], steps[j - 1], t);
      }
    }
  }

  lemma BusyDoesNothing(s: State, step: Step, t: Tid)
    requires Enabled(s, step) && step.t == t && Dispatching(s.threads[t]).Some? && step != ReleaseAfterDispatch(t)
    ensures ActionsOf(s, step) == []
  {
  }

  lemma DeliveryAsHandlers(h: seq<Entry<Key, Hal.Ptr>>, ev: Event)
    requires forall e :: e in h ==> e.val != NULL
    ensures Delivery(AsHandlers(h), ev)
         == match Lookup(h, EventKey(ev))
            case None => [Lock, Unlock]
            case Some(c) => [Lock, Action.AddRef(c), Unlock, Call(Hal.Callback.Callback(EVENT_HANDLER, c))]
                            + [Action.ReleaseRef(c)]
  {
    LookupAsHandlers(h, EventKey(ev));
    LookupMember(h, EventKey(ev));
  }

  lemma NothingFound(s: State, t: Tid, k: Key)
    requires Enabled(s, LookupAndRef(t, k)) && Lookup(s.handlers, k).None?
    ensures Next(s, LookupAndRef(t, k)) == s && s.threads[t] == Idle
    ensures ActionsOf(s, LookupAndRef(t, k)) == [Lock, Unlock]
  {
  }

  lemma FinalRelease(s: State, t: Tid)
    requires Enabled(s, ReleaseAfterDispatch(t))
    ensures t in Next(s, ReleaseAfterDispatch(t)).threads && Next(s, ReleaseAfterDispatch(t)).threads[t] == Idle
    ensures Dispatching(s.threads[t]).Some?
    ensures ActionsOf(s, ReleaseAfterDispatch(t)) == [Action.ReleaseRef(Dispatching(s.threads[t]).value)]
  {
  }

  lemma TraceNext(states: seq<State>, steps: seq<Step>, t: Tid, i: nat, j: nat)
    requires Path(states, steps) && i <= j < |steps| && steps[j].t == t
    ensures Trace(states, steps, t, i, j + 1) == Trace(states, steps, t, i, j) + ActionsOf(states[j], steps[j])
    ensures Enabled(states[j], steps[j]) && states[j + 1] == Next(states[j], steps[j])
    ensures i == j ==> Trace(states, steps, t, i, j) == []
  {
    hide Enabled, Next, ActionsOf;
  }

  /** The dispatch of an event that finds a command. */
  lemma DispatchFound(states: seq<State>, steps: seq<Step>, t: Tid, k: Key, i: nat, j: nat)
    requires Path(states, steps) && i < j <= |steps| && steps[i] == LookupAndRef(t, k)
    requires forall m :: i < m < j ==> t in states[m].threads && states[m].threads[t] != Idle
    requires t in states[j].threads && states[j].threads[t] == Idle && Lookup(states[i].handlers, k).Some?
    ensures var c := Lookup(states[i].handlers, k).value;
            Trace(states, steps, t, i, j)
            == [Lock, Action.AddRef(c), Unlock, Call(Hal.Callback.Callback(EVENT_HANDLER, c))] + [Action.ReleaseRef(c)]
  {
    hide Enabled, Next, ActionsOf, Trace;
    EndsWithRelease(states, steps, t, k, i, j);
    BusyUntilReleased(states, steps, t, i, j);
    TraceSoFar(states, steps, t, k, i, j - 1);
    TraceNext(states, steps, t, i, j - 1);
    FinalRelease(states[j - 1], t);
  }

  lemma EndsWithRelease(states: seq<State>, steps: seq<Step>, t: Tid, k: Key, i: nat, j: nat)
    requires Path(states, steps) && i < j <= |steps| && steps[i] == LookupAndRef(t, k)
    requires forall m :: i < m < j ==> t in states[m].threads && states[m].threads[t] != Idle
    requires t in states[j].threads && states[j].threads[t] == Idle && Lookup(states[i].handlers, k).Some?
    ensures j > i + 1 && steps[j - 1] == ReleaseAfterDispatch(t)
  {
    hide Enabled, Next, ActionsOf, Trace;
    BusyUntilReleased(states, steps, t, i, j);
    if steps[j - 1] != ReleaseAfterDispatch(t) {
      TraceSoFar(states, steps, t, k, i, j);
    }
  }

  /** A thread that looks up an event and is idle again has done what the delivery of that event does, whatever
      all other threads did in between. */
  lemma DispatchIsDelivery(states: seq<State>, steps: seq<Step>, t: Tid, ev: Event, i: nat, j: nat)
    requires Path(states, steps) && i < j <= |steps| && steps[i] == LookupAndRef(t, EventKey(ev))
    requires forall m :: i < m < j ==> t in states[m].threads && states[m].threads[t] != Idle
    requires t in states[j].threads && states[j].threads[t] == Idle
    requires forall e :: e in states[i].handlers ==> e.val != NULL
    ensures Trace(states, steps, t, i, j) == Delivery(AsHandlers(states[i].handlers), ev)
  {
    var k := EventKey(ev);
    DeliveryAsHandlers(states[i].handlers, ev);
    TraceNext(states, steps, t, i, i);
    hide Enabled, Next, ActionsOf, Path, Trace, Delivery;
    if Lookup(states[i].handlers, k).None? {
      NothingFound(states[i], t, k);
      assert j == i + 1;
    } else {
      DispatchFound(states, steps, t, k, i, j);
    }
  }

  lemma BusyUntilReleased(states: seq<State>, steps: seq<Step>, t: Tid, i: nat, j: nat)
    requires Path(states, steps) && i < j <= |steps|
    requires forall m :: i < m < j ==> t in states[m].threads && states[m].threads[t] != Idle
    ensures forall m :: i < m < j - 1 ==> steps[m] != ReleaseAfterDispatch(t)
  {
    hide Next, Enabled;
    forall m | i < m < j - 1 ensures steps[m] != ReleaseAfterDispatch(t) {
      assert Enabled(states[m], steps[m]) && states[m + 1] == Next(states[m], steps[m]);
      if steps[m] == ReleaseAfterDispatch(t) {
        FinalRelease(states[m], t);
      }
    }
  }
}
