/** include/handleton.hpp: GetInstance with double-checked locking, for any number of threads, under
    sequential consistency and before ReleaseResources. Objects are numbered from 1; 0 is null. */
module Handleton {

  const NULL := 0

  /** Where a thread is in GetInstance. */
  datatype PC =
    | Outside               // not in GetInstance
    | WantLock              // the first load gave null
    | Locked                // holds s_mutex, before the second load
    | Empty                 // the second load gave null as well
    | Created(tmp: nat)     // `new T` returned
    | Owned(tmp: nat)       // s_ptr.reset(tmp) done
    | Unlocking(tmp: nat)   // about to release s_mutex
    | Returned(tmp: nat)    // GetInstance returned

  datatype State = State(
    threads: seq<PC>,
    mutex: int,          // the thread that holds s_mutex, or -1
    instance: nat,       // s_instance
    ptr: nat,            // s_ptr
    created: nat,        // how many times `new T` has succeeded
    deleted: set<nat>)   // objects deleted so far

  datatype Action =
    | Load(i: nat)      // the first load, on a call
    | Lock(i: nat)
    | LoadAgain(i: nat)
    | New(i: nat)
    | Throw(i: nat)     // the constructor of T throws, which releases the lock
    | Reset(i: nat)     // s_ptr.reset(tmp), deleting what it owned
    | Store(i: nat)
    | Unlock(i: nat)
    | Leave(i: nat)     // the caller goes on, and may call again

  predicate Init(s: State) {
    && (forall i :: 0 <= i < |s.threads| ==> s.threads[i].Outside?)
    && s.mutex == -1 && s.instance == NULL && s.ptr == NULL && s.created == 0 && s.deleted == {}
  }

  predicate Enabled(s: State, a: Action) {
    && a.i < |s.threads|
    && var pc := s.threads[a.i];
       match a
       case Load(_) => pc.Outside?
       case Lock(_) => pc.WantLock? && s.mutex == -1
       case LoadAgain(_) => pc.Locked?
       case New(_) => pc.Empty?
       case Throw(_) => pc.Empty?
       case Reset(_) => pc.Created?
       case Store(_) => pc.Owned?
       case Unlock(_) => pc.Unlocking?
       case Leave(_) => pc.Returned?
  }

  function Goes(s: State, i: nat, pc: PC): State
    requires i < |s.threads|
  {
    s.(threads := s.threads[i := pc])
  }

  function Next(s: State, a: Action): State
    requires Enabled(s, a)
  {
    match a
    case Load(i) => Goes(s, i, if s.instance == NULL then WantLock else Returned(s.instance))
    case Lock(i) => Goes(s, i, Locked).(mutex := i)
    case LoadAgain(i) => Goes(s, i, if s.instance == NULL then Empty else Unlocking(s.instance))
    case New(i) => Goes(s, i, Created(s.created + 1)).(created := s.created + 1)
    case Throw(i) => Goes(s, i, Outside).(mutex := -1)
    case Reset(i) =>
      Goes(s, i, Owned(s.threads[i].tmp))
        .(ptr := s.threads[i].tmp, deleted := if s.ptr == NULL then s.deleted else s.deleted + {s.ptr})
    case Store(i) => Goes(s, i, Unlocking(s.threads[i].tmp)).(instance := s.threads[i].tmp)
    case Unlock(i) => Goes(s, i, Returned(s.threads[i].tmp)).(mutex := -1)
    case Leave(i) => Goes(s, i, Outside)
  }

  predicate Run(states: seq<State>, actions: seq<Action>) {
    && |states| == |actions| + 1
    && Init(states[0])
    && forall k :: 0 <= k < |actions| ==> Enabled(states[k], actions[k]) && states[k + 1] == Next(states[k], actions[k])
  }

  // ---- the invariant --------------------------------------------------------------------

  predicate Inside(pc: PC) {
    pc.Locked? || pc.Empty? || pc.Created? || pc.Owned? || pc.Unlocking?
  }

  /** What a thread at `pc` knows of the shared variables. */
  predicate Knows(pc: PC, instance: nat, ptr: nat, created: nat) {
    match pc
    case Empty => instance == NULL && ptr == NULL && created == 0
    case Created(tmp) => instance == NULL && ptr == NULL && created == tmp == 1
    case Owned(tmp) => instance == NULL && ptr == created == tmp == 1
    case Unlocking(tmp) => instance == tmp == 1
    case Returned(tmp) => instance == tmp == 1
    case _ => true
  }

  /** While no thread is between `new T` and the store, the instance is the only object, or there
      is none. */
  predicate Quiet(s: State) {
    (0 <= s.mutex < |s.threads| && (s.threads[s.mutex].Created? || s.threads[s.mutex].Owned?))
    || s.instance == s.ptr == s.created <= 1
  }

  ghost predicate Inv(s: State) {
    && -1 <= s.mutex < |s.threads|
    && (forall i :: 0 <= i < |s.threads| ==> (Inside(s.threads[i]) <==> i == s.mutex))
    && (forall i :: 0 <= i < |s.threads| ==> Knows(s.threads[i], s.instance, s.ptr, s.created))
    && Quiet(s) && s.deleted == {}
  }

  lemma NextKeeps(s: State, a: Action)
    requires Inv(s) && Enabled(s, a)
    ensures Inv(Next(s, a))
  {
    assert Knows(s.threads[a.i], s.instance, s.ptr, s.created);
  }

  lemma {:induction false} RunKeeps(states: seq<State>, actions: seq<Action>, k: nat)
    requires Run(states, actions) && k < |states|
    ensures Inv(states[k])
  {
    if k > 0 {
      RunKeeps(states, actions, k - 1);
      NextKeeps(states[k - 1], actions[k - 1]);
    }
  }

  // ---- theorems -------------------------------------------------------------------------

  /** Any two calls of GetInstance that have returned, by any threads at any moments of a run,
      returned the same object; it is not null, it is the only one ever created, and it is owned by
      s_ptr and never deleted. */
  lemma OneInstance(states: seq<State>, actions: seq<Action>, j: nat, k: nat, a: nat, b: nat)
    requires Run(states, actions) && j < |states| && k < |states|
    requires a < |states[j].threads| && states[j].threads[a].Returned?
    requires b < |states[k].threads| && states[k].threads[b].Returned?
    ensures states[j].threads[a].tmp == states[k].threads[b].tmp != NULL
    ensures states[k].instance == states[k].ptr == states[k].threads[b].tmp
    ensures states[k].created == 1 && states[k].deleted == {}
  {
    RunKeeps(states, actions, j);
    RunKeeps(states, actions, k);
    assert Knows(states[j].threads[a], states[j].instance, states[j].ptr, states[j].created);
    assert Knows(states[k].threads[b], states[k].instance, states[k].ptr, states[k].created);
    if 0 <= states[k].mutex {
      assert Knows(states[k].threads[states[k].mutex], states[k].instance, states[k].ptr, states[k].created);
    }
  }

  /** However many threads call it, `new T` succeeds at most once, and what s_ptr owns is never
      replaced. */
  lemma CreatedOnce(states: seq<State>, actions: seq<Action>, k: nat)
    requires Run(states, actions) && k < |states|
    ensures states[k].created <= 1 && states[k].deleted == {}
    ensures states[k].instance != NULL ==> states[k].ptr == states[k].instance && states[k].created == 1
  {
    RunKeeps(states, actions, k);
    var s := states[k];
    if 0 <= s.mutex {
      assert Knows(s.threads[s.mutex], s.instance, s.ptr, s.created);
    }
  }

  /** A thread inside GetInstance never waits for ever: it can go on, or the holder of the lock can. */
  lemma SomeoneGoesOn(states: seq<State>, actions: seq<Action>, k: nat, i: nat) returns (a: Action)
    requires Run(states, actions) && k < |states| && i < |states[k].threads|
    ensures Enabled(states[k], a) && (a.i == i || a.i == states[k].mutex)
  {
    RunKeeps(states, actions, k);
    var s := states[k];
    var j := if s.threads[i].WantLock? && s.mutex != -1 then s.mutex else i;
    match s.threads[j]
    case Outside => a := Load(j);
    case WantLock => a := Lock(j);
    case Locked => a := LoadAgain(j);
    case Empty => a := New(j);
    case Created(_) => a := Reset(j);
    case Owned(_) => a := Store(j);
    case Unlocking(_) => a := Unlock(j);
    case Returned(_) => a := Leave(j);
  }

  /** The fast path: once the instance is stored, every call returns it with its first load, whoever holds
      the lock, and no thread begins to wait for the lock any more. */
  lemma FastPath(states: seq<State>, actions: seq<Action>, k: nat, i: nat)
    requires Run(states, actions) && k < |states| && i < |states[k].threads|
    requires states[k].instance != NULL && states[k].threads[i].Outside?
    ensures Enabled(states[k], Load(i))
    ensures var s, s' := states[k], Next(states[k], Load(i));
      s'.threads[i] == Returned(s.instance) && s'.mutex == s.mutex && s'.instance == s.instance && s'.created == s.created
  {
  }

  // ---- every call can return ----------------------------------------------------------------

  /** How many own steps a thread is from returning. */
  function ToReturn(pc: PC): nat {
    match pc
    case Outside => 7
    case WantLock => 6
    case Locked => 5
    case Empty => 4
    case Created(_) => 3
    case Owned(_) => 2
    case Unlocking(_) => 1
    case Returned(_) => 0
  }

  /** In every run each step that the holder of the lock makes brings it nearer to its return, unless
      the constructor of T throws, and at its last one it releases the lock; the steps of other
      threads leave it where it is. */
  lemma HolderComesNearer(states: seq<State>, actions: seq<Action>, k: nat)
    requires Run(states, actions) && k < |actions| && states[k].mutex != -1
    ensures var s, s' := states[k], states[k + 1]; var j := s.mutex;
      && 0 <= j < |s.threads| == |s'.threads| && 1 <= ToReturn(s.threads[j]) <= 5
      && (actions[k].i != j ==> s'.threads[j] == s.threads[j] && s'.mutex == j)
      && (actions[k].i == j ==>
            if actions[k].Throw? then s'.mutex == -1 && s'.threads[j].Outside?
            else ToReturn(s'.threads[j]) < ToReturn(s.threads[j]) && (s'.mutex == if s'.threads[j].Returned? then -1 else j))
  {
    RunKeeps(states, actions, k);
  }

  lemma Extend(states: seq<State>, actions: seq<Action>, a: Action)
    requires Run(states, actions) && Enabled(states[|actions|], a)
    ensures Run(states + [Next(states[|actions|], a)], actions + [a])
  {
    var ss, acts := states + [Next(states[|actions|], a)], actions + [a];
    forall k | 0 <= k < |acts| ensures Enabled(ss[k], acts[k]) && ss[k + 1] == Next(ss[k], acts[k]) {
      if k < |actions| {
        assert ss[k] == states[k] && ss[k + 1] == states[k + 1] && acts[k] == actions[k];
      }
    }
  }

  /** How long another thread still holds the lock. */
  function OthersTurn(s: State, i: nat): nat {
    if 0 <= s.mutex < |s.threads| && s.mutex != i then ToReturn(s.threads[s.mutex]) else 0
  }

  /** The next step on the way to the return of thread `i`: its own, or the lock holder's. */
  lemma NextTowards(s: State, i: nat) returns (a: Action)
    requires Inv(s) && i < |s.threads| && !s.threads[i].Returned?
    ensures Enabled(s, a) && !a.Throw? && !a.Leave? && |Next(s, a).threads| == |s.threads|
    ensures ToReturn(Next(s, a).threads[i]) < ToReturn(s.threads[i])
            || (Next(s, a).threads[i] == s.threads[i] && OthersTurn(Next(s, a), i) < OthersTurn(s, i))
  {
    var j := if s.threads[i].WantLock? && s.mutex != -1 then s.mutex else i;
    match s.threads[j]
    case Outside => a := Load(j);
    case WantLock => a := Lock(j);
    case Locked => a := LoadAgain(j);
    case Empty => a := New(j);
    case Created(_) => a := Reset(j);
    case Owned(_) => a := Store(j);
    case Unlocking(_) => a := Unlock(j);
    case Returned(_) => assert false;
  }

  /** From every reachable state every thread can get its object: some continuation, in which `new T`
      does not throw, ends with its return. */
  lemma CallCanReturn(states: seq<State>, actions: seq<Action>, i: nat) returns (ss: seq<State>, acts: seq<Action>)
    requires Run(states, actions) && i < |states[|actions|].threads|
    ensures Run(ss, acts) && states <= ss && actions <= acts && |ss[|acts|].threads| == |states[|actions|].threads|
    ensures ss[|acts|].threads[i].Returned? && ss[|acts|].threads[i].tmp != NULL
    decreases ToReturn(states[|actions|].threads[i]), OthersTurn(states[|actions|], i)
  {
    var s := states[|actions|];
    RunKeeps(states, actions, |actions|);
    if s.threads[i].Returned? {
      ss, acts := states, actions;
    } else {
      var a := NextTowards(s, i);
      Extend(states, actions, a);
      ss, acts := CallCanReturn(states + [Next(s, a)], actions + [a], i);
    }
  }

  /** For every number of threads some run returns an object to any one of them. */
  lemma ObjectIsReturned(n: nat, i: nat) returns (states: seq<State>, actions: seq<Action>)
    requires i < n
    ensures Run(states, actions) && |states[|actions|].threads| == n
    ensures states[|actions|].threads[i].Returned? && states[|actions|].threads[i].tmp != NULL
  {
    states, actions := CallCanReturn([State(seq(n, _ => Outside), -1, NULL, NULL, 0, {})], [], i);
  }
}
