/** include/wpriorityqueue.hpp under any number of threads: one step per semaphore, lock or heap
    operation. Every interleaving refines the atomic queue. */
module QueueThreads {
  import opened Tasks
  import opened AtomicQueue
  import opened Folding

  datatype PC =
    | Idle
    | WantPush(x: Task)    // Push: before lock_guard
    | Locked(x: Task)      // Push: holds the lock, before m_pq.push
    | Pushed(x: Task)      // Push: holds the lock, before m_sem.Post
    | Posted               // Push: holds the lock, before its release
    | WantWait             // Pop: before m_sem.Wait
    | WantTimedWait        // timed Pop: before m_sem.TimedWait
    | Ticket               // both: before lock_guard in LockAndPop
    | Popping              // both: holds the lock, before top() and pop()
    | Popped(x: Task)      // both: holds the lock, before its release

  datatype State = State(pq: multiset<Task>, sem: nat, lock: int, pcs: seq<PC>)

  const FREE := -1

  ghost predicate Init(s: State) {
    s.pq == multiset{} && s.sem == 0 && s.lock == FREE && forall i :: 0 <= i < |s.pcs| ==> s.pcs[i].Idle?
  }

  predicate Holds(pc: PC) {
    pc.Locked? || pc.Pushed? || pc.Posted? || pc.Popping? || pc.Popped?
  }

  /** What is open when a thread steps: which call it begins, and which top a pop returns. */
  datatype Choice = CallPush(x: Task) | CallPop | CallTimedPop | Return(top: Task) | Continue

  ghost predicate Enabled(s: State, i: nat, c: Choice) {
    i < |s.pcs| && match s.pcs[i]
    case Idle => c.CallPush? || c.CallPop? || c.CallTimedPop?
    case WantPush(_) => c.Continue? && s.lock == FREE
    case WantWait => c.Continue? && s.sem > 0
    case Ticket => c.Continue? && s.lock == FREE
    case Popping => c.Return? && IsTop(c.top, s.pq)
    case _ => c.Continue?
  }

  function NextPC(pc: PC, c: Choice, sem: nat): PC {
    match pc
    case Idle => if c.CallPush? then WantPush(c.x) else if c.CallPop? then WantWait else WantTimedWait
    case WantPush(x) => Locked(x)
    case Locked(x) => Pushed(x)
    case Pushed(_) => Posted
    case Posted => Idle
    case WantWait => Ticket
    case WantTimedWait => if sem > 0 then Ticket else Idle  // SemTimeOut
    case Ticket => Popping
    case Popping => if c.Return? then Popped(c.top) else pc
    case Popped(_) => Idle
  }

  function NextPq(pc: PC, c: Choice, pq: multiset<Task>): multiset<Task> {
    match pc
    case Locked(x) => pq + multiset{x}
    case Popping => if c.Return? then pq - multiset{c.top} else pq
    case _ => pq
  }

  function NextSem(pc: PC, sem: nat): nat {
    if pc.Pushed? then sem + 1
    else if (pc.WantWait? || pc.WantTimedWait?) && sem > 0 then sem - 1
    else sem
  }

  function NextLock(pc: PC, i: nat, lock: int): int {
    if pc.WantPush? || pc.Ticket? then i else if pc.Posted? || pc.Popped? then FREE else lock
  }

  /** One step of thread `i`. Calls begin at any moment, with any argument. */
  function Next(s: State, i: nat, c: Choice): State
    requires i < |s.pcs|
  {
    var pc := s.pcs[i];
    State(NextPq(pc, c, s.pq), NextSem(pc, s.sem), NextLock(pc, i, s.lock), s.pcs[i := NextPC(pc, c, s.sem)])
  }

  // ---- counting -------------------------------------------------------------------------

  /** Threads between the semaphore and the pop. */
  function Tickets(pcs: seq<PC>): nat {
    if pcs == [] then 0
    else (if pcs[0].Ticket? || pcs[0].Popping? then 1 else 0) + Tickets(pcs[1..])
  }

  lemma {:induction false} TicketsUpdate(pcs: seq<PC>, i: nat, pc: PC)
    requires i < |pcs|
    ensures Tickets(pcs[i := pc]) + (if pcs[i].Ticket? || pcs[i].Popping? then 1 else 0)
         == Tickets(pcs) + (if pc.Ticket? || pc.Popping? then 1 else 0)
  {
    if i == 0 {
      assert pcs[0 := pc][1..] == pcs[1..];
    } else {
      assert pcs[i := pc][1..] == pcs[1..][i - 1 := pc];
      TicketsUpdate(pcs[1..], i - 1, pc);
    }
  }

  lemma {:induction false} TicketsPositive(pcs: seq<PC>, i: nat)
    requires i < |pcs| && (pcs[i].Ticket? || pcs[i].Popping?)
    ensures Tickets(pcs) >= 1
  {
    if i > 0 {
      TicketsPositive(pcs[1..], i - 1);
    }
  }

  lemma {:induction false} NoTickets(pcs: seq<PC>)
    requires forall i :: 0 <= i < |pcs| ==> pcs[i].Idle?
    ensures Tickets(pcs) == 0
  {
    if pcs != [] {
      NoTickets(pcs[1..]);
    }
  }

  // ---- invariant and refinement ---------------------------------------------------------

  function Pending(pc: PC): multiset<Task> {
    if pc.Pushed? then multiset{pc.x} else multiset{}
  }

  /** The element that is on the heap but not announced yet. */
  function Unposted(lock: int, pcs: seq<PC>): multiset<Task> {
    if 0 <= lock < |pcs| then Pending(pcs[lock]) else multiset{}
  }

  function View(s: State): Queue {
    Queue(s.pq - Unposted(s.lock, s.pcs), s.sem, Tickets(s.pcs))
  }

  ghost predicate Inv(s: State) {
    && LockOwner(s.lock, s.pcs)
    && Unposted(s.lock, s.pcs) <= s.pq
    && Balanced(View(s))
  }

  /** Semaphore value plus tickets is the size of the heap whenever nobody is between pushing and
      posting, so whoever pops finds an element. */
  lemma HeapIsNotEmpty(s: State, i: nat)
    requires Inv(s) && i < |s.pcs| && s.pcs[i].Popping?
    ensures s.sem + Tickets(s.pcs) == |s.pq| && |s.pq| > 0
    ensures exists t :: IsTop(t, s.pq)
  {
    TicketsPositive(s.pcs, i);
    TopExists(s.pq);
  }

  /** How the program counter and the lock move together. */
  lemma LockMoves(pc: PC, c: Choice, sem: nat, i: nat, lock: int)
    requires Holds(pc) <==> lock == i
    requires pc.WantPush? || pc.Ticket? ==> lock == FREE
    ensures Holds(NextPC(pc, c, sem)) <==> NextLock(pc, i, lock) == i
    ensures !Holds(pc) && !Holds(NextPC(pc, c, sem)) ==> NextLock(pc, i, lock) == lock
    ensures Holds(pc) && !Holds(NextPC(pc, c, sem)) ==> NextLock(pc, i, lock) == FREE
    ensures !Holds(pc) && Holds(NextPC(pc, c, sem)) ==> lock == FREE
  {
  }

  ghost predicate LockOwner(lock: int, pcs: seq<PC>) {
    && (lock == FREE || 0 <= lock < |pcs|)
    && forall i :: 0 <= i < |pcs| ==> (Holds(pcs[i]) <==> lock == i)
  }

  /** The lock keeps one owner, and only the owner can have an unannounced element. */
  lemma OwnerMoves(lock: int, pcs: seq<PC>, i: nat, pc: PC, lock': int)
    requires LockOwner(lock, pcs) && i < |pcs|
    requires Holds(pc) <==> lock' == i
    requires !Holds(pcs[i]) && !Holds(pc) ==> lock' == lock
    requires Holds(pcs[i]) && !Holds(pc) ==> lock' == FREE
    requires !Holds(pcs[i]) && Holds(pc) ==> lock == FREE
    ensures LockOwner(lock', pcs[i := pc])
    ensures Holds(pcs[i]) ==> Unposted(lock, pcs) == Pending(pcs[i])
    ensures !Holds(pcs[i]) && Holds(pc) ==> Unposted(lock, pcs) == multiset{}
    ensures Unposted(lock', pcs[i := pc]) == if Holds(pcs[i]) || Holds(pc) then Pending(pc) else Unposted(lock, pcs)
  {
  }

  /** Only the post announces an element, only a pop takes one away. */
  lemma ContentFollows(s: State, i: nat, c: Choice)
    requires Inv(s) && Enabled(s, i, c)
    ensures var s' := Next(s, i, c); var announced := s.pq - Unposted(s.lock, s.pcs);
            && LockOwner(s'.lock, s'.pcs)
            && Unposted(s'.lock, s'.pcs) <= s'.pq
            && s'.pq - Unposted(s'.lock, s'.pcs)
               == if s.pcs[i].Pushed? then announced + multiset{s.pcs[i].x}
                  else if s.pcs[i].Popping? then announced - multiset{c.top}
                  else announced
  {
    var pc := s.pcs[i];
    LockMoves(pc, c, s.sem, i, s.lock);
    OwnerMoves(s.lock, s.pcs, i, NextPC(pc, c, s.sem), NextLock(pc, i, s.lock));
    PendingNext(pc, c, s.sem, Unposted(s.lock, s.pcs));
    ContentAlgebra(pc, c, s.pq, Unposted(s.lock, s.pcs));
  }

  lemma PendingNext(pc: PC, c: Choice, sem: nat, u: multiset<Task>)
    requires (Holds(pc) ==> u == Pending(pc)) && (pc.WantPush? || pc.Ticket? ==> u == multiset{})
    ensures var pc' := NextPC(pc, c, sem);
            (if Holds(pc) || Holds(pc') then Pending(pc') else u)
            == if pc.Locked? then multiset{pc.x} else if pc.Pushed? then multiset{} else u
  {
  }

  lemma LockedContent(pq: multiset<Task>, x: Task, u: multiset<Task>)
    requires u == multiset{}
    ensures multiset{x} <= pq + multiset{x} && (pq + multiset{x}) - multiset{x} == pq - u
  {
  }

  lemma PushedContent(pq: multiset<Task>, x: Task, u: multiset<Task>)
    requires u == multiset{x} && u <= pq
    ensures pq - multiset{} == (pq - u) + multiset{x}
  {
    assert x in pq;
  }

  lemma PoppedContent(pq: multiset<Task>, x: Task, u: multiset<Task>)
    requires u == multiset{}
    ensures u <= pq - multiset{x} && (pq - multiset{x}) - u == (pq - u) - multiset{x}
  {
  }

  lemma ContentAlgebra(pc: PC, c: Choice, pq: multiset<Task>, u: multiset<Task>)
    requires u <= pq && (Holds(pc) ==> u == Pending(pc))
    requires pc.Popping? ==> c.Return?
    ensures var pq' := NextPq(pc, c, pq);
            var u' := if pc.Locked? then multiset{pc.x} else if pc.Pushed? then multiset{} else u;
            && u' <= pq'
            && pq' - u' == if pc.Pushed? then (pq - u) + multiset{pc.x}
                           else if pc.Popping? then (pq - u) - multiset{c.top}
                           else pq - u
  {
    if pc.Locked? {
      LockedContent(pq, pc.x, u);
    } else if pc.Pushed? {
      PushedContent(pq, pc.x, u);
    } else if pc.Popping? {
      PoppedContent(pq, c.top, u);
    }
  }

  /** What a step of a thread at `pc` is to the atomic queue. */
  ghost predicate Follows(q: Queue, pc: PC, c: Choice, q': Queue) {
    match pc
    case Pushed(x) => q' == Push(q, x)
    case WantWait => q.sem > 0 && q' == Take(q)
    case WantTimedWait => if q.sem > 0 then q' == Take(q) else q' == q
    case Popping => c.Return? && q.tickets > 0 && IsTop(c.top, q.content) && q' == Remove(q, c.top)
    case _ => q' == q
  }

  lemma FollowsIsStep(q: Queue, pc: PC, c: Choice, q': Queue)
    requires Balanced(q) && Follows(q, pc, c, q')
    ensures Balanced(q')
    ensures q' == q || AtomicQueue.Step(q, q')
  {
  }

  lemma TicketsMove(pc: PC, c: Choice, sem: nat, before: nat, after: nat)
    requires after + (if pc.Ticket? || pc.Popping? then 1 else 0)
          == before + (if NextPC(pc, c, sem).Ticket? || NextPC(pc, c, sem).Popping? then 1 else 0)
    requires pc.WantWait? ==> sem > 0
    requires pc.Popping? ==> c.Return?
    ensures after == if (pc.WantWait? || pc.WantTimedWait?) && sem > 0 then before + 1
                     else if pc.Popping? then before - 1 else before
  {
  }

  lemma ViewMoves(q: Queue, pc: PC, c: Choice, content: multiset<Task>, tickets: nat)
    requires pc.WantWait? ==> q.sem > 0
    requires pc.Popping? ==> c.Return? && q.tickets > 0 && IsTop(c.top, q.content)
    requires content == if pc.Pushed? then q.content + multiset{pc.x}
                        else if pc.Popping? then q.content - multiset{c.top}
                        else q.content
    requires tickets == if (pc.WantWait? || pc.WantTimedWait?) && q.sem > 0 then q.tickets + 1
                        else if pc.Popping? then q.tickets - 1 else q.tickets
    ensures Follows(q, pc, c, Queue(content, NextSem(pc, q.sem), tickets))
  {
  }

  lemma PoppingSeesAll(s: State, i: nat)
    requires Inv(s) && i < |s.pcs| && s.pcs[i].Popping?
    ensures Tickets(s.pcs) > 0 && View(s).content == s.pq
  {
    TicketsPositive(s.pcs, i);
    assert s.lock == i;
  }

  lemma StepFollows(s: State, i: nat, c: Choice)
    requires Inv(s) && Enabled(s, i, c)
    ensures Follows(View(s), s.pcs[i], c, View(Next(s, i, c)))
  {
    var pc, s' := s.pcs[i], Next(s, i, c);
    TicketsUpdate(s.pcs, i, NextPC(pc, c, s.sem));
    TicketsMove(pc, c, s.sem, Tickets(s.pcs), Tickets(s'.pcs));
    ContentFollows(s, i, c);
    if pc.Popping? {
      PoppingSeesAll(s, i);
    }
    ViewMoves(View(s), pc, c, s'.pq - Unposted(s'.lock, s'.pcs), Tickets(s'.pcs));
  }

  /** Every step of every thread is a step of the atomic queue, or does not show; a timed pop gives
      up only when the queue has nothing to take. */
  lemma StepRefines(s: State, i: nat, c: Choice)
    requires Inv(s) && Enabled(s, i, c)
    ensures var s' := Next(s, i, c);
            && Inv(s')
            && (View(s') == View(s) || AtomicQueue.Step(View(s), View(s')))
            && (s.pcs[i].WantTimedWait? && s'.pcs[i].Idle? ==> View(s).sem == 0)
  {
    ContentFollows(s, i, c);
    StepFollows(s, i, c);
    FollowsIsStep(View(s), s.pcs[i], c, View(Next(s, i, c)));
  }

  ghost predicate Run(states: seq<State>, threads: seq<nat>, choices: seq<Choice>) {
    && |states| == |threads| + 1 == |choices| + 1
    && Init(states[0])
    && forall k :: 0 <= k < |threads| ==>
         Enabled(states[k], threads[k], choices[k]) && states[k + 1] == Next(states[k], threads[k], choices[k])
  }

  /** In every run, under any number of threads, every state is balanced, every pop takes a top of
      a non-empty heap, and every step is a step of the atomic queue. */
  lemma {:induction false} RunIsSafe(states: seq<State>, threads: seq<nat>, choices: seq<Choice>, k: nat)
    requires Run(states, threads, choices) && k < |states|
    ensures Inv(states[k])
    ensures forall i :: 0 <= i < |states[k].pcs| && states[k].pcs[i].Popping? ==> exists t :: IsTop(t, states[k].pq)
    ensures k > 0 ==> View(states[k]) == View(states[k - 1]) || AtomicQueue.Step(View(states[k - 1]), View(states[k]))
  {
    if k == 0 {
      NoTickets(states[0].pcs);
    } else {
      RunIsSafe(states, threads, choices, k - 1);
      StepRefines(states[k - 1], threads[k - 1], choices[k - 1]);
    }
    forall i | 0 <= i < |states[k].pcs| && states[k].pcs[i].Popping?
      ensures exists t :: IsTop(t, states[k].pq)
    {
      HeapIsNotEmpty(states[k], i);
    }
  }

  /** Whoever pops takes an element of the heap, a user task only when there is nothing but user tasks
      of no higher priority, and is about to return it. */
  lemma PopsInOrder(states: seq<State>, threads: seq<nat>, choices: seq<Choice>, k: nat)
    requires Run(states, threads, choices) && k < |threads|
    requires threads[k] < |states[k].pcs| && states[k].pcs[threads[k]].Popping?
    ensures choices[k].Return? && choices[k].top in states[k].pq
    ensures choices[k].top.User? ==> forall u :: u in states[k].pq ==> u.User? && u.priority <= choices[k].top.priority
    ensures states[k + 1].pq == states[k].pq - multiset{choices[k].top}
    ensures states[k + 1].pcs == states[k].pcs[threads[k] := Popped(choices[k].top)]
  {
    TopMeaning(choices[k].top, states[k].pq);
  }

  // ---- conservation ---------------------------------------------------------------------

  /** The element that a thread has in hand: not on the heap yet, or not any more. */
  function InHand(pc: PC): multiset<Task> {
    match pc
    case WantPush(x) => multiset{x}
    case Locked(x) => multiset{x}
    case Popped(x) => multiset{x}
    case _ => multiset{}
  }

  function AllInHand(pcs: seq<PC>): multiset<Task> {
    SumOf(InHand, pcs)
  }

  /** What a step gives to Push, and what a step gets from a pop that returns. */
  function Given(c: Choice): multiset<Task> {
    if c.CallPush? then multiset{c.x} else multiset{}
  }

  function Got(pc: PC): multiset<Task> {
    if pc.Popped? then multiset{pc.x} else multiset{}
  }

  /** The arguments of the calls of Push among the first `n` steps. */
  function AllGiven(choices: seq<Choice>, n: nat): multiset<Task>
    requires n <= |choices|
  {
    if n == 0 then multiset{} else AllGiven(choices, n - 1) + Given(choices[n - 1])
  }

  /** The results of the pops that have returned. */
  function AllGot(states: seq<State>, threads: seq<nat>, n: nat): multiset<Task>
    requires n <= |threads| < |states|
  {
    if n == 0 then multiset{}
    else
      AllGot(states, threads, n - 1)
      + if threads[n - 1] < |states[n - 1].pcs| then Got(states[n - 1].pcs[threads[n - 1]]) else multiset{}
  }

  /** Heap, hand and what was returned after a step hold what heap, hand and argument held before. */
  ghost predicate Same(pq': multiset<Task>, hand': multiset<Task>, got: multiset<Task>,
                       pq: multiset<Task>, hand: multiset<Task>, given: multiset<Task>) {
    pq' + hand' + got == pq + hand + given
  }

  lemma TakesInHand(pq: multiset<Task>, x: Task)
    ensures Same(pq, multiset{x}, multiset{}, pq, multiset{}, multiset{x})
  {
  }

  lemma PutsOnHeap(pq: multiset<Task>, x: Task)
    ensures Same(pq + multiset{x}, multiset{}, multiset{}, pq, multiset{x}, multiset{})
  {
  }

  lemma TakesFromHeap(pq: multiset<Task>, x: Task)
    requires x in pq
    ensures Same(pq - multiset{x}, multiset{x}, multiset{}, pq, multiset{}, multiset{})
  {
  }

  lemma HandsOver(pq: multiset<Task>, x: Task)
    ensures Same(pq, multiset{}, multiset{x}, pq, multiset{x}, multiset{})
  {
  }

  lemma OthersConserve(pc: PC, c: Choice, sem: nat, pq: multiset<Task>)
    requires !pc.Locked? && !pc.Popping? && !pc.Popped? && !c.CallPush?
    requires pc.Idle? ==> !c.Return?
    ensures Same(NextPq(pc, c, pq), InHand(NextPC(pc, c, sem)), Got(pc), pq, InHand(pc), Given(c))
  {
    assert InHand(NextPC(pc, c, sem)) == InHand(pc);
  }

  /** One step moves an element at most from one place to the next. */
  lemma StepConserves(pc: PC, c: Choice, sem: nat, pq: multiset<Task>)
    requires pc.Idle? ==> !c.Return?
    requires !pc.Idle? ==> !c.CallPush?
    requires pc.Popping? ==> c.Return? && c.top in pq
    ensures Same(NextPq(pc, c, pq), InHand(NextPC(pc, c, sem)), Got(pc), pq, InHand(pc), Given(c))
  {
    if c.CallPush? {
      TakesInHand(pq, c.x);
    } else if pc.Locked? {
      PutsOnHeap(pq, pc.x);
    } else if pc.Popping? {
      TakesFromHeap(pq, c.top);
    } else if pc.Popped? {
      HandsOver(pq, pc.x);
    } else {
      OthersConserve(pc, c, sem, pq);
    }
  }

  lemma Balances(pq: multiset<Task>, pq': multiset<Task>, all: multiset<Task>, all': multiset<Task>,
                 one: multiset<Task>, one': multiset<Task>, given: multiset<Task>, got: multiset<Task>,
                 before: multiset<Task>, after: multiset<Task>)
    requires all' + one == all + one' && Same(pq', one', got, pq, one, given) && before == pq + all + after
    ensures before + given == pq' + all' + (after + got)
  {
    forall t: Task ensures (before + given)[t] == (pq' + all' + (after + got))[t] {
      assert (all' + one)[t] == (all + one')[t];
      assert (pq' + one' + got)[t] == (pq + one + given)[t];
    }
  }

  lemma NextConserves(s: State, i: nat, c: Choice, before: multiset<Task>, after: multiset<Task>)
    requires Enabled(s, i, c) && before == s.pq + AllInHand(s.pcs) + after
    ensures var s' := Next(s, i, c); before + Given(c) == s'.pq + AllInHand(s'.pcs) + (after + Got(s.pcs[i]))
  {
    var pc, s' := s.pcs[i], Next(s, i, c);
    StepConserves(pc, c, s.sem, s.pq);
    SumUpdate(InHand, s.pcs, i, s'.pcs[i]);
    Balances(s.pq, s'.pq, AllInHand(s.pcs), AllInHand(s'.pcs), InHand(pc), InHand(s'.pcs[i]), Given(c), Got(pc),
             before, after);
  }

  /** In every run nothing is lost, made up or doubled: what was given to Push is on the heap, in the
      hand of a thread inside a call, or was returned by a pop. */
  lemma {:induction false} QueueConserves(states: seq<State>, threads: seq<nat>, choices: seq<Choice>, k: nat)
    requires Run(states, threads, choices) && k < |states|
    ensures AllGiven(choices, k) == states[k].pq + AllInHand(states[k].pcs) + AllGot(states, threads, k)
  {
    if k == 0 {
      SumOfNothing(InHand, states[0].pcs);
    } else {
      QueueConserves(states, threads, choices, k - 1);
      NextConserves(states[k - 1], threads[k - 1], choices[k - 1], AllGiven(choices, k - 1), AllGot(states, threads, k - 1));
    }
  }

  // ---- progress -------------------------------------------------------------------------

  /** How many of its own steps a thread is from releasing the lock. */
  function ToRelease(pc: PC): nat {
    match pc
    case Locked(_) => 3
    case Pushed(_) => 2
    case Posted => 1
    case Popping => 2
    case Popped(_) => 1
    case _ => 0
  }

  /** What the holder of the lock can do next: it never waits for anybody. */
  lemma HolderGoesOn(s: State, i: nat) returns (c: Choice)
    requires Inv(s) && i < |s.pcs| && Holds(s.pcs[i])
    ensures Enabled(s, i, c) && ToRelease(NextPC(s.pcs[i], c, s.sem)) < ToRelease(s.pcs[i])
  {
    if s.pcs[i].Popping? {
      HeapIsNotEmpty(s, i);
      var top :| IsTop(top, s.pq);
      c := Return(top);
    } else {
      c := Continue;
    }
  }

  /** No deadlock at the lock: in every run, a thread inside a call that does not wait on an empty
      semaphore can go on, or the holder of the lock can, which then comes nearer to its release. */
  lemma SomeoneGoesOn(states: seq<State>, threads: seq<nat>, choices: seq<Choice>, k: nat, i: nat) returns (j: nat, c: Choice)
    requires Run(states, threads, choices) && k < |states| && i < |states[k].pcs|
    requires !states[k].pcs[i].Idle? && !(states[k].pcs[i].WantWait? && states[k].sem == 0)
    ensures Enabled(states[k], j, c)
    ensures var s := states[k];
      j == i || (j == s.lock && ToRelease(NextPC(s.pcs[j], c, s.sem)) < ToRelease(s.pcs[j]))
  {
    RunIsSafe(states, threads, choices, k);
    var s := states[k];
    j := i;
    if Holds(s.pcs[i]) {
      c := HolderGoesOn(s, i);
    } else if (s.pcs[i].WantPush? || s.pcs[i].Ticket?) && s.lock != FREE {
      j := s.lock;
      c := HolderGoesOn(s, j);
    } else {
      c := Continue;
    }
  }

  /** Thread `i` makes none of the steps k..m. */
  predicate Waits(threads: seq<nat>, i: nat, k: nat, m: nat) {
    k <= m <= |threads| && forall j :: k <= j < m ==> threads[j] != i
  }

  lemma {:induction false} StaysThere(states: seq<State>, threads: seq<nat>, choices: seq<Choice>, i: nat, k: nat, m: nat)
    requires Run(states, threads, choices) && Waits(threads, i, k, m) && i < |states[k].pcs|
    ensures i < |states[m].pcs| && states[m].pcs[i] == states[k].pcs[i]
  {
    if k < m {
      StaysThere(states, threads, choices, i, k, m - 1);
    }
  }

  /** A Pop that has begun goes on exactly while the semaphore is positive; a timed one always does:
      with a unit of the semaphore, or by giving up when there is none, which leaves the queue alone. */
  lemma PopsBlock(states: seq<State>, threads: seq<nat>, choices: seq<Choice>, k: nat, m: nat)
    requires Run(states, threads, choices) && k < m < |states|
    requires threads[k] < |states[k].pcs| && (choices[k].CallPop? || choices[k].CallTimedPop?)
    requires Waits(threads, threads[k], k + 1, m)
    ensures threads[k] < |states[m].pcs|
    ensures Enabled(states[m], threads[k], Continue) <==> choices[k].CallTimedPop? || states[m].sem > 0
    ensures var s := states[m]; var s' := Next(s, threads[k], Continue);
      if s.sem > 0 then s'.sem == s.sem - 1 && s'.pcs[threads[k]] == Ticket && s'.pq == s.pq
      else choices[k].CallTimedPop? ==> s'.pcs[threads[k]] == Idle && s'.pq == s.pq && s'.sem == 0
  {
    StaysThere(states, threads, choices, threads[k], k + 1, m);
  }

  // ---- every call can return ----------------------------------------------------------------

  /** How many own steps a call is from its return. */
  function ToReturn(pc: PC): nat {
    match pc
    case Idle => 0
    case WantPush(_) => 4
    case WantWait => 4
    case WantTimedWait => 4
    case Ticket => 3
    case Locked(_) => 3
    case Pushed(_) => 2
    case Popping => 2
    case Posted => 1
    case Popped(_) => 1
  }

  lemma Extend(states: seq<State>, threads: seq<nat>, choices: seq<Choice>, i: nat, c: Choice)
    requires Run(states, threads, choices) && Enabled(states[|threads|], i, c)
    ensures Run(states + [Next(states[|threads|], i, c)], threads + [i], choices + [c])
  {
    var ss, ts, cs := states + [Next(states[|threads|], i, c)], threads + [i], choices + [c];
    forall k | 0 <= k < |ts| ensures Enabled(ss[k], ts[k], cs[k]) && ss[k + 1] == Next(ss[k], ts[k], cs[k]) {
      if k < |threads| {
        assert ss[k] == states[k] && ss[k + 1] == states[k + 1] && ts[k] == threads[k] && cs[k] == choices[k];
      }
    }
  }

  /** How long another thread still holds the lock. */
  function OthersTurn(s: State, i: nat): nat {
    if 0 <= s.lock < |s.pcs| && s.lock != i then ToRelease(s.pcs[s.lock]) else 0
  }

  /** Thread `i` is nearer to its return, or another one to the release of the lock. */
  ghost predicate Nearer(s: State, s': State, i: nat)
    requires i < |s.pcs| == |s'.pcs|
  {
    || ToReturn(s'.pcs[i]) < ToReturn(s.pcs[i])
    || (s'.pcs[i] == s.pcs[i] && OthersTurn(s', i) < OthersTurn(s, i))
  }

  lemma OwnTowards(s: State, i: nat) returns (c: Choice)
    requires Inv(s) && i < |s.pcs| && !s.pcs[i].Idle? && (s.pcs[i].WantWait? ==> s.sem > 0)
    requires s.pcs[i].WantPush? || s.pcs[i].Ticket? ==> s.lock == FREE
    ensures Enabled(s, i, c) && !c.CallPush? && !c.CallPop? && !c.CallTimedPop?
    ensures ToReturn(NextPC(s.pcs[i], c, s.sem)) < ToReturn(s.pcs[i]) && !NextPC(s.pcs[i], c, s.sem).WantWait?
  {
    c := Continue;
    if s.pcs[i].Popping? {
      c := HolderGoesOn(s, i);
    }
  }

  lemma HolderTowards(s: State, i: nat) returns (c: Choice)
    requires Inv(s) && i < |s.pcs| && s.lock != FREE && s.lock != i && !s.pcs[i].WantWait?
    ensures Enabled(s, s.lock, c) && !c.CallPush? && !c.CallPop? && !c.CallTimedPop?
    ensures |Next(s, s.lock, c).pcs| == |s.pcs| && Nearer(s, Next(s, s.lock, c), i) && !Next(s, s.lock, c).pcs[i].WantWait?
  {
    c := HolderGoesOn(s, s.lock);
    LockMoves(s.pcs[s.lock], c, s.sem, s.lock, s.lock);
  }

  /** The next step on the way to the return of a call: the thread's own, or the lock holder's. */
  lemma NextTowards(s: State, i: nat) returns (j: nat, c: Choice)
    requires Inv(s) && i < |s.pcs| && !s.pcs[i].Idle? && (s.pcs[i].WantWait? ==> s.sem > 0)
    ensures Enabled(s, j, c) && !c.CallPush? && !c.CallPop? && !c.CallTimedPop?
    ensures var s' := Next(s, j, c); |s'.pcs| == |s.pcs| && Nearer(s, s', i) && !s'.pcs[i].WantWait?
  {
    if (s.pcs[i].WantPush? || s.pcs[i].Ticket?) && s.lock != FREE {
      j := s.lock;
      c := HolderTowards(s, i);
    } else {
      j := i;
      c := OwnTowards(s, i);
    }
  }

  /** The run goes on by one step on the way to the return. */
  lemma GoesTowards(states: seq<State>, threads: seq<nat>, choices: seq<Choice>, i: nat)
    returns (ss: seq<State>, ts: seq<nat>, cs: seq<Choice>)
    requires Run(states, threads, choices) && i < |states[|threads|].pcs| && !states[|threads|].pcs[i].Idle?
    requires states[|threads|].pcs[i].WantWait? ==> states[|threads|].sem > 0
    ensures Run(ss, ts, cs) && |ts| == |threads| + 1 && states <= ss && threads <= ts && choices <= cs
    ensures i < |states[|threads|].pcs| == |ss[|ts|].pcs| && !ss[|ts|].pcs[i].WantWait?
    ensures Nearer(states[|threads|], ss[|ts|], i)
  {
    RunIsSafe(states, threads, choices, |threads|);
    var j, c := NextTowards(states[|threads|], i);
    Extend(states, threads, choices, j, c);
    ss, ts, cs := states + [Next(states[|threads|], j, c)], threads + [j], choices + [c];
  }

  /** From every reachable state every call that does not wait on an empty semaphore can return: some
      continuation, in which no call begins, leads there. */
  lemma CallCanReturn(states: seq<State>, threads: seq<nat>, choices: seq<Choice>, i: nat)
    returns (ss: seq<State>, ts: seq<nat>, cs: seq<Choice>)
    requires Run(states, threads, choices) && i < |states[|threads|].pcs|
    requires states[|threads|].pcs[i].WantWait? ==> states[|threads|].sem > 0
    ensures Run(ss, ts, cs) && states <= ss && threads <= ts && choices <= cs
    ensures i < |ss[|ts|].pcs| && ss[|ts|].pcs[i].Idle?
    decreases if i < |states[|threads|].pcs| then ToReturn(states[|threads|].pcs[i]) else 0, OthersTurn(states[|threads|], i)
  {
    if states[|threads|].pcs[i].Idle? {
      ss, ts, cs := states, threads, choices;
    } else {
      var ss1, ts1, cs1 := GoesTowards(states, threads, choices, i);
      ss, ts, cs := CallCanReturn(ss1, ts1, cs1, i);
    }
  }

  /** From every reachable state every thread outside the queue can call Push, with any element, or a
      timed Pop, or a Pop when the semaphore is positive, and return. */
  lemma CallCanBeMade(states: seq<State>, threads: seq<nat>, choices: seq<Choice>, i: nat, call: Choice)
    returns (ss: seq<State>, ts: seq<nat>, cs: seq<Choice>)
    requires Run(states, threads, choices) && i < |states[|threads|].pcs| && states[|threads|].pcs[i].Idle?
    requires call.CallPush? || call.CallTimedPop? || (call.CallPop? && states[|threads|].sem > 0)
    ensures Run(ss, ts, cs) && states <= ss && threads + [i] <= ts && choices + [call] <= cs
    ensures i < |ss[|ts|].pcs| && ss[|ts|].pcs[i].Idle?
  {
    Extend(states, threads, choices, i, call);
    ss, ts, cs := CallCanReturn(states + [Next(states[|threads|], i, call)], threads + [i], choices + [call], i);
  }
}
