/** include/dispatcher_callback.hpp: dispatchers and callbacks that point at each other. */
module Dispatcher {

  type Msg = string

  ghost predicate Distinct<T>(s: seq<T>) {
    forall i, j :: 0 <= i < j < |s| ==> s[i] != s[j]
  }

  /** The list after its first `x` was swapped with the last entry and that entry popped. */
  function Removed<T(==)>(s: seq<T>, x: T): (r: seq<T>)
    ensures |r| == if x in s then |s| - 1 else |s|
  {
    if x !in s then s
    else if s[0] == x then s[0 := s[|s| - 1]][..|s| - 1]
    else [s[0]] + Removed(s[1..], x)
  }

  lemma TakeLast<T>(s: seq<T>)
    requires s != []
    ensures multiset(s) == multiset(s[..|s| - 1]) + multiset{s[|s| - 1]}
  {
    assert s == s[..|s| - 1] + [s[|s| - 1]];
  }

  lemma TakeFirst<T>(s: seq<T>)
    requires s != []
    ensures multiset(s) == multiset{s[0]} + multiset(s[1..])
  {
    assert s == [s[0]] + s[1..];
  }

  lemma SwapAndPop<T>(s: seq<T>)
    requires s != []
    ensures multiset(s[0 := s[|s| - 1]][..|s| - 1]) == multiset(s) - multiset{s[0]}
  {
    TakeFirst(s);
    if |s| > 1 {
      TakeLast(s[1..]);
      assert s[0 := s[|s| - 1]][..|s| - 1] == [s[|s| - 1]] + s[1..][..|s| - 2];
    }
  }

  /** Exactly one occurrence of `x` goes; all others stay. */
  lemma {:induction false} RemovedKeepsOthers<T>(s: seq<T>, x: T)
    ensures multiset(Removed(s, x)) == multiset(s) - multiset{x}
  {
    if x in s {
      if s[0] == x {
        SwapAndPop(s);
      } else {
        RemovedKeepsOthers(s[1..], x);
        TakeFirst(s);
      }
    }
  }

  lemma {:induction false} DistinctCounts<T>(s: seq<T>)
    ensures Distinct(s) <==> forall x :: multiset(s)[x] <= 1
  {
    if s != [] {
      var front, last := s[..|s| - 1], s[|s| - 1];
      TakeLast(s);
      DistinctCounts(front);
      if Distinct(s) {
        assert last !in front;
      } else if Distinct(front) {
        var i, j :| 0 <= i < j < |s| && s[i] == s[j];
        assert j == |s| - 1 && front[i] == last;
        assert multiset(s)[last] >= 2;
      } else {
        var x :| multiset(front)[x] > 1;
        assert multiset(s)[x] > 1;
      }
    }
  }

  ghost function Members<T>(s: seq<T>): set<T> {
    set x | x in s
  }

  /** A list without duplicates loses `x`, nothing else, and gains no duplicate. */
  lemma RemovedMeaning<T>(s: seq<T>, x: T)
    requires Distinct(s)
    ensures Distinct(Removed(s, x))
    ensures Members(Removed(s, x)) == Members(s) - {x}
  {
    var r := Removed(s, x);
    RemovedKeepsOthers(s, x);
    DistinctCounts(s);
    DistinctCounts(r);
    MembersAsCounts(s);
    MembersAsCounts(r);
  }

  lemma MembersAsCounts<T>(s: seq<T>)
    ensures forall y :: y in Members(s) <==> multiset(s)[y] > 0
  {
    forall y ensures y in Members(s) <==> multiset(s)[y] > 0 {
      assert y in s <==> y in multiset(s);
    }
  }

  /** The entry found by the search is overwritten by the last one. */
  lemma {:induction false} RemovedAt<T>(s: seq<T>, i: nat, x: T)
    requires i < |s| && s[i] == x && forall k :: 0 <= k < i ==> s[k] != x
    ensures Removed(s, x) == s[i := s[|s| - 1]][..|s| - 1]
  {
    if i > 0 {
      RemovedAt(s[1..], i - 1, x);
      var t := s[1..];
      assert s[i := s[|s| - 1]][..|s| - 1] == [s[0]] + t[i - 1 := t[|t| - 1]][..|t| - 1];
    }
  }

  /** CallBackBase and CallBack. The observer is what it has been told: `m_received` by its action
      method, `m_stopped` by its stop method, when it has one. */
  class CallBack {
    const m_has_stop: bool
    var m_dispatcher: Dispatcher?
    var m_received: seq<Msg>
    var m_stopped: nat

    constructor (dispatcher: Dispatcher?, has_stop: bool)
      modifies if dispatcher == null then {} else {dispatcher}
      ensures m_has_stop == has_stop && m_dispatcher == dispatcher && m_received == [] && m_stopped == 0
      ensures dispatcher != null ==> dispatcher.m_callbacks == old(dispatcher.m_callbacks) + [this]
    {
      m_has_stop := has_stop;
      m_dispatcher := dispatcher;
      m_received := [];
      m_stopped := 0;
      new;
      if dispatcher != null {
        dispatcher.Add(this);
      }
    }

    /** The destructor. */
    method Destroy()
      modifies if m_dispatcher == null then {} else {m_dispatcher}
      ensures m_dispatcher != null ==> m_dispatcher.m_callbacks == Removed(old(m_dispatcher.m_callbacks), this)
    {
      if m_dispatcher != null {
        m_dispatcher.Remove(this);
      }
    }

    method OutOfService()
      modifies this
      ensures m_dispatcher == null && m_received == old(m_received)
      ensures m_stopped == old(m_stopped) + if m_has_stop then 1 else 0
    {
      m_dispatcher := null;
      if m_has_stop {
        m_stopped := m_stopped + 1;
      }
    }

    method Notify(massage: Msg)
      modifies this`m_received
      ensures m_received == old(m_received) + [massage]
    {
      m_received := m_received + [massage];
    }
  }

  class Dispatcher {
    var m_callbacks: seq<CallBack>

    constructor ()
      ensures m_callbacks == []
    {
      m_callbacks := [];
    }

    method Add(callback: CallBack)
      modifies this
      ensures m_callbacks == old(m_callbacks) + [callback]
    {
      m_callbacks := m_callbacks + [callback];
    }

    method Remove(callback: CallBack)
      modifies this
      ensures m_callbacks == Removed(old(m_callbacks), callback)
    {
      var iter := 0;
      while iter != |m_callbacks|
        invariant 0 <= iter <= |m_callbacks| && m_callbacks == old(m_callbacks)
        invariant forall k :: 0 <= k < iter ==> m_callbacks[k] != callback
        decreases |m_callbacks| - iter
      {
        if m_callbacks[iter] == callback {
          RemovedAt(m_callbacks, iter, callback);
          var last := |m_callbacks| - 1;
          m_callbacks := m_callbacks[iter := m_callbacks[last]][last := m_callbacks[iter]];
          m_callbacks := m_callbacks[..last];
          return;
        }
        iter := iter + 1;
      }
    }

    /** Each registered callback is notified once; `m_callbacks` must not change meanwhile. */
    method NotifyAll(massage: Msg)
      requires Distinct(m_callbacks)
      modifies set c | c in m_callbacks
      ensures forall c :: c in m_callbacks ==>
        c.m_received == old(c.m_received) + [massage] && c.m_dispatcher == old(c.m_dispatcher) && c.m_stopped == old(c.m_stopped)

    {
      var iter := 0;
      while iter != |m_callbacks|
        invariant iter <= |m_callbacks|
        invariant forall k :: 0 <= k < |m_callbacks| ==> var c := m_callbacks[k];
          c.m_dispatcher == old(c.m_dispatcher) && c.m_stopped == old(c.m_stopped)
        invariant forall k :: 0 <= k < iter ==> m_callbacks[k].m_received == old(m_callbacks[k].m_received) + [massage]
        invariant forall k :: iter <= k < |m_callbacks| ==> m_callbacks[k].m_received == old(m_callbacks[k].m_received)
        decreases |m_callbacks| - iter
      {
        m_callbacks[iter].Notify(massage);
        iter := iter + 1;
      }
    }

    /** The destructor. */
    method Destroy()
      requires Distinct(m_callbacks)
      modifies set c | c in m_callbacks
      ensures forall c :: c in m_callbacks ==>
        c.m_dispatcher == null && c.m_stopped == old(c.m_stopped) + (if c.m_has_stop then 1 else 0) && c.m_received == old(c.m_received)
    {
      var iter := 0;
      while iter != |m_callbacks|
        invariant iter <= |m_callbacks|
        invariant forall k :: 0 <= k < iter ==> var c := m_callbacks[k];
          c.m_dispatcher == null && c.m_stopped == old(c.m_stopped) + (if c.m_has_stop then 1 else 0) && c.m_received == old(c.m_received)
        invariant forall k :: iter <= k < |m_callbacks| ==> var c := m_callbacks[k];
          c.m_stopped == old(c.m_stopped) && c.m_received == old(c.m_received)
        decreases |m_callbacks| - iter
      {
        m_callbacks[iter].OutOfService();
        iter := iter + 1;
      }
    }
  }

  /** Everything in the list of `d` is there once, is alive, and points at `d`. */
  ghost predicate Lists(d: Dispatcher, callbacks: set<CallBack>)
    reads d, callbacks
  {
    && Distinct(d.m_callbacks)
    && forall c :: c in d.m_callbacks ==> c in callbacks && c.m_dispatcher == d
  }

  /** What `c` points at is alive and lists it. */
  ghost predicate Points(c: CallBack, dispatchers: set<Dispatcher>)
    reads c, dispatchers
  {
    c.m_dispatcher != null ==> c.m_dispatcher in dispatchers && c in c.m_dispatcher.m_callbacks
  }

  /** A callback points at a dispatcher exactly when it is in that dispatcher's list, where it is
      only once; both are alive. */
  ghost predicate Linked(dispatchers: set<Dispatcher>, callbacks: set<CallBack>)
    reads dispatchers, callbacks
  {
    && (forall d :: d in dispatchers ==> Lists(d, callbacks))
    && (forall c :: c in callbacks ==> Points(c, dispatchers))
  }

  /** All objects alive. Whatever sequence of these methods a program calls, it keeps `Valid`. */
  class World {
    ghost var dispatchers: set<Dispatcher>
    ghost var callbacks: set<CallBack>

    ghost predicate Valid()
      reads this, dispatchers, callbacks
    {
      Linked(dispatchers, callbacks)
    }

    constructor ()
      ensures Valid() && dispatchers == {} && callbacks == {}
    {
      dispatchers, callbacks := {}, {};
    }

    method NewDispatcher() returns (d: Dispatcher)
      requires Valid()
      modifies this
      ensures Valid() && fresh(d) && d.m_callbacks == []
      ensures dispatchers == old(dispatchers) + {d} && callbacks == old(callbacks)
    {
      d := new Dispatcher();
      dispatchers := dispatchers + {d};
    }

    method NewCallBack(d: Dispatcher?, has_stop: bool) returns (c: CallBack)
      requires Valid() && (d != null ==> d in dispatchers)
      modifies this, if d == null then {} else {d}
      ensures Valid() && fresh(c) && c.m_dispatcher == d && c.m_received == [] && c.m_has_stop == has_stop
      ensures dispatchers == old(dispatchers) && callbacks == old(callbacks) + {c}
      ensures d != null ==> d.m_callbacks == old(d.m_callbacks) + [c]
    {
      c := new CallBack(d, has_stop);
      callbacks := callbacks + {c};
    }

    method DeleteCallBack(c: CallBack)
      requires Valid() && c in callbacks
      modifies this, if c.m_dispatcher == null then {} else {c.m_dispatcher}
      ensures Valid() && dispatchers == old(dispatchers) && callbacks == old(callbacks) - {c}
      ensures c.m_dispatcher != null ==> c.m_dispatcher.m_callbacks == Removed(old(c.m_dispatcher.m_callbacks), c)
    {
      ghost var d := c.m_dispatcher;
      ghost var was := if d == null then [] else d.m_callbacks;
      assert d != null ==> Lists(d, callbacks);
      RemovedMeaning(was, c);
      c.Destroy();
      callbacks := callbacks - {c};
      forall e | e in dispatchers ensures Lists(e, callbacks) {
        assert old(Lists(e, callbacks));
        if e == d {
          assert e.m_callbacks == Removed(was, c);
          forall x | x in e.m_callbacks ensures x in callbacks && x.m_dispatcher == e {
            assert x in Members(e.m_callbacks);
          }
        }
      }
      forall x | x in callbacks ensures Points(x, dispatchers) {
        assert old(Points(x, dispatchers));
        if d != null && x.m_dispatcher == d {
          assert x in Members(was);
          assert x in Members(d.m_callbacks);
        }
      }
    }

    /** Exactly the callbacks that point at `d` get the message, once each. */
    method NotifyAll(d: Dispatcher, massage: Msg)
      requires Valid() && d in dispatchers
      modifies callbacks
      ensures Valid()
      ensures forall c :: c in callbacks ==> c.m_dispatcher == old(c.m_dispatcher) && c.m_stopped == old(c.m_stopped)
      ensures forall c :: c in callbacks ==>
        c.m_received == old(c.m_received) + if old(c.m_dispatcher) == d then [massage] else []
    {
      d.NotifyAll(massage);
    }

    method DeleteDispatcher(d: Dispatcher)
      requires Valid() && d in dispatchers
      modifies this, callbacks
      ensures Valid() && dispatchers == old(dispatchers) - {d} && callbacks == old(callbacks)
      ensures forall c :: c in callbacks ==> c.m_received == old(c.m_received)
      ensures forall c :: c in callbacks ==> c.m_dispatcher == if old(c.m_dispatcher) == d then null else old(c.m_dispatcher)
      ensures forall c :: c in callbacks ==>
        c.m_stopped == old(c.m_stopped) + if old(c.m_dispatcher) == d && c.m_has_stop then 1 else 0
    {
      d.Destroy();
      dispatchers := dispatchers - {d};
    }
  }
}
