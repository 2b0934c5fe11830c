/** What the thread pool promises holds lock by lock: Suspend is a barrier, tasks are conserved, and
    calls return, at most a fixed number of own steps after their last push. */
module PoolThreadsTheorems {
  import opened Tasks
  import opened AtomicQueue
  import opened PoolThreads
  import Queue = QueueThreads
  import Pool = ThreadPool
  import Invariant = ThreadPoolInvariant
  import Theorems = ThreadPoolTheorems
  import Progress = ThreadPoolProgress

  lemma PoolKeeps(states: seq<State>, actions: seq<Action>, k: nat)
    requires Run(states, actions) && k < |states|
    ensures Inv(states[k]) && Invariant.Inv(View(states[k]))
  {
    RunKeeps(states, actions, k);
    RunRefines(states, actions, k);
    var ps, acts := ShownStates(states, actions, k), ShownActions(states, actions, k);
    Invariant.RunKeeps(ps, acts, |acts|);
  }

  // ---- safety ---------------------------------------------------------------------------

  /** All workers are parked outside the queue, each on its own TPSuspend. */
  ghost predicate Parked(ws: seq<Pool.PC>, pcs: seq<Queue.PC>) {
    && |ws| < |pcs|
    && (forall i :: 0 <= i < |ws| ==> ws[i].Parked? && ws[i].t.TPSuspend? && pcs[i].Idle?)
    && (forall i, j :: 0 <= i < j < |ws| ==> ws[i] != ws[j])
  }

  lemma ParkedOutside(pcs: seq<Queue.PC>, ws: seq<Pool.PC>, ctl: Pool.Ctl, nextId: nat)
    requires AllFit(pcs, ws, ctl, nextId)
    requires forall i :: 0 <= i < |ws| ==> ws[i].Parked?
    ensures forall i :: 0 <= i < |ws| ==> pcs[i].Idle?
  {
    forall i | 0 <= i < |ws| ensures pcs[i].Idle? {
      assert Fits(pcs[i], i, ws, ctl, nextId);
    }
  }

  lemma AllParked(states: seq<State>, actions: seq<Action>, k: nat)
    requires Run(states, actions) && k < |states| && states[k].ctl.Suspended?
    ensures Parked(states[k].ws, states[k].queue.pcs)
    ensures forall i, step :: !Pool.Enabled(View(states[k]), Pool.Worker(i, step))
  {
    RunKeeps(states, actions, k);
    RunRefines(states, actions, k);
    var ps, acts := ShownStates(states, actions, k), ShownActions(states, actions, k);
    Theorems.SuspendIsBarrier(ps, acts, |acts|);
    ParkedOutside(states[k].queue.pcs, states[k].ws, states[k].ctl, states[k].nextId);
  }

  lemma ParkedNeedWake(s: State, a: Action)
    requires Parked(s.ws, s.queue.pcs) && s.ctl.Suspended? && Enabled(s, a)
    requires forall i, step :: !Pool.Enabled(View(s), Pool.Worker(i, step))
    ensures a.AddTask? || a.Control? || (a.InQueue? && a.i >= |s.ws|)
  {
    if a.Worker? {
      assert !Pool.Enabled(View(s), Pool.Worker(a.i, a.step));
    }
  }

  /** When Suspend has returned, every worker is parked outside the queue, each on its own TPSuspend,
      and none can make a step: only callers of AddTask and the controller's next call can. */
  lemma SuspendIsBarrier(states: seq<State>, actions: seq<Action>, k: nat)
    requires Run(states, actions) && k < |states| && states[k].ctl.Suspended?
    ensures Parked(states[k].ws, states[k].queue.pcs)
    ensures forall a :: Enabled(states[k], a) ==> a.AddTask? || a.Control? || (a.InQueue? && a.i >= |states[k].ws|)
  {
    AllParked(states, actions, k);
    forall a | Enabled(states[k], a)
      ensures a.AddTask? || a.Control? || (a.InQueue? && a.i >= |states[k].ws|)
    {
      ParkedNeedWake(states[k], a);
    }
  }

  /** A thread has put `t` on the heap and not announced it yet. */
  predicate Announcing(pc: Queue.PC, t: Task) {
    pc.Pushed? && pc.x == t
  }

  lemma HeapContent(s: State, t: Task)
    requires Inv(s)
    ensures s.queue.pq[t] == View(s).q.content[t] + Queue.Unposted(s.queue.lock, s.queue.pcs)[t]
    ensures Queue.Unposted(s.queue.lock, s.queue.pcs)[t]
         == if exists i :: 0 <= i < |s.queue.pcs| && Announcing(s.queue.pcs[i], t) then 1 else 0
  {
    var q := s.queue;
    assert Queue.Unposted(q.lock, q.pcs) <= q.pq;
    if i :| 0 <= i < |q.pcs| && Announcing(q.pcs[i], t) {
      assert Queue.Holds(q.pcs[i]) && q.lock == i;
    } else if 0 <= q.lock < |q.pcs| {
      assert !Announcing(q.pcs[q.lock], t);
    }
  }

  /** A task under way to its announcement was not added before. */
  lemma AnnouncedIsNew(s: State, i: nat, t: Task)
    requires Inv(s) && Invariant.Inv(View(s)) && i < |s.queue.pcs| && Announcing(s.queue.pcs[i], t)
    ensures t !in s.added
  {
    assert Fits(s.queue.pcs[i], i, s.ws, s.ctl, s.nextId);
    assert t.id == s.nextId;
  }

  /** In every state each task is on the heap, with one worker, or executed, in one place and once,
      from the moment it is put on the heap; any other task is nowhere. */
  lemma TasksAreConserved(states: seq<State>, actions: seq<Action>, k: nat, t: Task)
    requires Run(states, actions) && k < |states|
    ensures var s := states[k];
      s.queue.pq[t] + Invariant.Holders(s.ws, t, |s.ws|) + s.done[t]
      == if t in s.added || exists i :: 0 <= i < |s.queue.pcs| && Announcing(s.queue.pcs[i], t) then 1 else 0
  {
    var s := states[k];
    PoolKeeps(states, actions, k);
    RunRefines(states, actions, k);
    var ps, acts := ShownStates(states, actions, k), ShownActions(states, actions, k);
    Theorems.TasksAreConserved(ps, acts, |acts|, t);
    HeapContent(s, t);
    if i :| 0 <= i < |s.queue.pcs| && Announcing(s.queue.pcs[i], t) {
      AnnouncedIsNew(s, i, t);
    }
  }

  // ---- what is queued, and what comes out -----------------------------------------------------

  /** A worker that pops takes an element of the heap, a user task only when there are nothing but user
      tasks of no higher priority, and holds it. */
  lemma PopsInOrder(states: seq<State>, actions: seq<Action>, k: nat, i: nat, c: Queue.Choice)
    requires Run(states, actions) && k < |states| && Enabled(states[k], InQueue(i, c)) && states[k].queue.pcs[i].Popping?
    ensures i < |states[k].ws| && c.Return? && c.top in states[k].queue.pq
    ensures c.top.User? ==> forall u :: u in states[k].queue.pq ==> u.User? && u.priority <= c.top.priority
    ensures var s, s' := states[k], Next(states[k], InQueue(i, c));
      s'.ws == s.ws[i := Pool.Holding(c.top)] && s'.queue.pq == s.queue.pq - multiset{c.top}
  {
    RunKeeps(states, actions, k);
    assert Fits(states[k].queue.pcs[i], i, states[k].ws, states[k].ctl, states[k].nextId);
    TopMeaning(c.top, states[k].queue.pq);
  }

  /** Caller `i` is pushing a user task of this priority. */
  predicate Carrying(pcs: seq<Queue.PC>, i: nat, priority: UserPriority) {
    && i < |pcs| && (pcs[i].Locked? || pcs[i].Pushed?)
    && pcs[i].x.User? && pcs[i].x.priority == priority
  }

  /** Action `a` announces an element that thread `i` has put on the heap. */
  predicate Announces(s: State, a: Action, i: nat) {
    a.InQueue? && a.i == i && i < |s.queue.pcs| && s.queue.pcs[i].Pushed?
  }

  lemma OthersStay(s: State, a: Action, i: nat)
    requires Inv(s) && Enabled(s, a) && i < |s.queue.pcs|
    requires match a case PopWaits(j) => j != i case InQueue(j, _) => j != i case AddTask(j, _) => j != i
                     case ControlPush => |s.ws| != i case _ => true
    ensures i < |Next(s, a).queue.pcs| && Next(s, a).queue.pcs[i] == s.queue.pcs[i]
  {
  }

  lemma CarryStep(s: State, a: Action, i: nat, priority: UserPriority)
    requires Inv(s) && Enabled(s, a) && Carrying(s.queue.pcs, i, priority) && !Announces(s, a, i)
    ensures Carrying(Next(s, a).queue.pcs, i, priority)
  {
    if !(a.InQueue? && a.i == i) {
      assert Fits(s.queue.pcs[i], i, s.ws, s.ctl, s.nextId);
      OthersStay(s, a, i);
    }
  }

  lemma {:induction false} CarriesOn(states: seq<State>, actions: seq<Action>, i: nat, priority: UserPriority, k: nat, m: nat)
    requires Run(states, actions) && k < m <= |actions| && Carrying(states[k + 1].queue.pcs, i, priority)
    requires forall j :: k < j < m ==> !Announces(states[j], actions[j], i)
    ensures Carrying(states[m].queue.pcs, i, priority)
  {
    if k + 1 < m {
      CarriesOn(states, actions, i, priority, k, m - 1);
      RunKeeps(states, actions, m - 1);
      CarryStep(states[m - 1], actions[m - 1], i, priority);
    }
  }

  lemma AddTaskLocks(s: State, i: nat, priority: UserPriority)
    requires Inv(s) && Enabled(s, AddTask(i, priority))
    ensures Carrying(Next(s, AddTask(i, priority)).queue.pcs, i, priority)
  {
    Enters(s.queue, i, Queue.CallPush(User(s.nextId, priority)));
  }

  /** What AddTask is called with is what it adds: when a caller announces the element of its call, a
      task of the priority it was given, and nothing else, has become one of those added. */
  lemma AddTaskArrives(states: seq<State>, actions: seq<Action>, k: nat, m: nat) returns (t: Task)
    requires Run(states, actions) && k < m < |actions| && actions[k].AddTask?
    requires Announces(states[m], actions[m], actions[k].i)
    requires forall j :: k < j < m ==> !Announces(states[j], actions[j], actions[k].i)
    ensures t.User? && t.priority == actions[k].priority && t !in states[m].added
    ensures states[m + 1].added == states[m].added + {t} && t in states[m + 1].queue.pq
  {
    PoolKeeps(states, actions, k);
    PoolKeeps(states, actions, m);
    AddTaskLocks(states[k], actions[k].i, actions[k].priority);
    CarriesOn(states, actions, actions[k].i, actions[k].priority, k, m);
    t := states[m].queue.pcs[actions[k].i].x;
    AnnouncedIsNew(states[m], actions[k].i, t);
    PostAdds(states[m], actions[m].i, actions[m].c);
  }

  lemma PostAdds(s: State, i: nat, c: Queue.Choice)
    requires Inv(s) && Enabled(s, InQueue(i, c)) && s.queue.pcs[i].Pushed?
    ensures Next(s, InQueue(i, c)).added == s.added + {s.queue.pcs[i].x}
    ensures s.queue.pcs[i].x in Next(s, InQueue(i, c)).queue.pq
  {
    PostShape(s, i, c);
    HeapContent(s, s.queue.pcs[i].x);
    assert Announcing(s.queue.pcs[i], s.queue.pcs[i].x);
  }

  // ---- how far a call is from returning -------------------------------------------------

  /** What a thread's place in the queue adds to five times the helpful steps that are left. */
  function Cost(pc: Queue.PC, controls: bool): int {
    match pc
    case Ticket => 3
    case Popping => 2
    case Popped(_) => 1
    case Locked(_) => if controls then -1 else 0
    case Pushed(_) => if controls then -2 else 0
    case Posted => 1
    case _ => 0
  }

  /** Workers and controller. */
  function Costs(pcs: seq<Queue.PC>, n: nat, m: nat): (c: int)
    requires m <= |pcs| && m <= n + 1
    ensures -2 <= c <= 3 * m
    ensures m <= n ==> 0 <= c
  {
    if m == 0 then 0 else Costs(pcs, n, m - 1) + Cost(pcs[m - 1], m - 1 == n)
  }

  lemma {:induction false} CostsUpdate(pcs: seq<Queue.PC>, n: nat, i: nat, pc: Queue.PC, m: nat)
    requires i < |pcs| && m <= |pcs| && m <= n + 1
    ensures Costs(pcs[i := pc], n, m) + (if i < m then Cost(pcs[i], i == n) else 0)
         == Costs(pcs, n, m) + (if i < m then Cost(pc, i == n) else 0)
  {
    if m > 0 {
      CostsUpdate(pcs, n, i, pc, m - 1);
    }
  }

  /** The own steps, of workers and controller, that are left before the call in progress returns. */
  function Left(ctl: Pool.Ctl, ws: seq<Pool.PC>, pcs: seq<Queue.PC>): int
    requires |ws| < |pcs|
  {
    5 * Progress.Ahead(ctl, ws) + Costs(pcs, |ws|, |ws| + 1)
  }

  function LeftIn(s: State): int
    requires |s.ws| < |s.queue.pcs|
  {
    Left(s.ctl, s.ws, s.queue.pcs)
  }

  /** A step of a worker or of the controller. */
  predicate Own(a: Action, n: nat) {
    !a.AddTask? && (a.InQueue? ==> a.i <= n)
  }

  /** A step that the call in progress waits for, or one inside the queue. */
  predicate Useful(s: State, a: Action) {
    a.InQueue? || a.ControlPush? || (ShownAs(s, a).Shows? && Theorems.Helps(s.ctl, ShownAs(s, a).a))
  }

  /** What a step that shows, or not, does to the distance of the pool. */
  lemma ShownAhead(p: Pool.State, shown: Shown, p': Pool.State)
    requires Invariant.Inv(p) && Theorems.Busy(p.ctl) && Follows(p, shown, p')
    ensures Progress.Ahead(p'.ctl, p'.ws) <= Progress.Ahead(p.ctl, p.ws) && |p'.ws| == |p.ws|
    ensures shown.Shows? && Theorems.Helps(p.ctl, shown.a) ==> Progress.Ahead(p'.ctl, p'.ws) < Progress.Ahead(p.ctl, p.ws)
    ensures shown.Shows? && shown.a.AddTask? ==> p'.ws == p.ws && p'.ctl == p.ctl
  {
    if shown.Shows? {
      Progress.StepAhead(p, shown.a);
      Progress.SameWorkers(p, shown.a);
    }
  }

  /** A step inside the queue costs its thread something; the announcement of a control task, which
      counts for more, brings the pool on. */
  lemma InQueueCost(pc: Queue.PC, c: Queue.Choice, sem: nat, controls: bool)
    requires !pc.Idle? && !pc.WantPush? && !pc.WantWait? && !pc.WantTimedWait?
    requires (pc.Locked? || pc.Pushed? || pc.Posted?) ==> controls
    requires pc.Popping? ==> c.Return?
    ensures Cost(Queue.NextPC(pc, c, sem), controls) <= Cost(pc, controls) - (if pc.Pushed? then -3 else 1)
  {
  }

  lemma InQueueShape(s: State, i: nat, c: Queue.Choice)
    requires Inv(s) && Enabled(s, InQueue(i, c))
    ensures var pc, s' := s.queue.pcs[i], Next(s, InQueue(i, c));
      && s'.queue.pcs == s.queue.pcs[i := Queue.NextPC(pc, c, s.queue.sem)] && |s'.ws| == |s.ws|
      && !pc.Idle? && !pc.WantPush? && !pc.WantWait? && !pc.WantTimedWait?
      && (pc.Locked? || pc.Pushed? || pc.Posted? ==> i >= |s.ws|)
      && (pc.Popping? ==> c.Return?)
      && (pc.Pushed? && i == |s.ws| ==> ShownAs(s, InQueue(i, c)) == Shows(Pool.Control(Pool.Suspend)))
      && (i > |s.ws| ==> s'.ws == s.ws && s'.ctl == s.ctl)
  {
    assert Fits(s.queue.pcs[i], i, s.ws, s.ctl, s.nextId);
  }

  /** A change of places and of the pool's distance. */
  lemma LeftMoves(s: State, s': State, ahead: int, cost: int)
    requires |s.ws| < |s.queue.pcs| && |s'.ws| == |s.ws| && |s'.queue.pcs| == |s.queue.pcs|
    requires Progress.Ahead(s'.ctl, s'.ws) <= Progress.Ahead(s.ctl, s.ws) - ahead
    requires Costs(s'.queue.pcs, |s.ws|, |s.ws| + 1) == Costs(s.queue.pcs, |s.ws|, |s.ws| + 1) + cost
    ensures LeftIn(s') <= LeftIn(s) - 5 * ahead + cost
  {
  }

  lemma InQueueAhead(s: State, i: nat, c: Queue.Choice)
    requires Inv(s) && Invariant.Inv(View(s)) && Theorems.Busy(s.ctl) && Enabled(s, InQueue(i, c))
    ensures var s' := Next(s, InQueue(i, c));
      Progress.Ahead(s'.ctl, s'.ws) <= Progress.Ahead(s.ctl, s.ws) - if s.queue.pcs[i].Pushed? && i == |s.ws| then 1 else 0
  {
    InQueueShape(s, i, c);
    InQueueFollows(s, i, c);
    ShownAhead(View(s), ShownAs(s, InQueue(i, c)), View(Next(s, InQueue(i, c))));
  }

  lemma InQueueCosts(pcs: seq<Queue.PC>, n: nat, i: nat, c: Queue.Choice, sem: nat)
    requires i < |pcs| && n < |pcs|
    requires var pc := pcs[i];
      && !pc.Idle? && !pc.WantPush? && !pc.WantWait? && !pc.WantTimedWait? && (pc.Popping? ==> c.Return?)
      && ((pc.Locked? || pc.Pushed? || pc.Posted?) ==> i >= n)
    ensures var cost := Costs(pcs[i := Queue.NextPC(pcs[i], c, sem)], n, n + 1) - Costs(pcs, n, n + 1);
      if i > n then cost == 0 else if pcs[i].Pushed? then cost <= 3 else cost <= -1
  {
    CostsUpdate(pcs, n, i, Queue.NextPC(pcs[i], c, sem), n + 1);
    if i <= n {
      InQueueCost(pcs[i], c, sem, i == n);
    }
  }

  /** What a step of thread `i` inside the queue does to the first part of `LeftIn` ... */
  ghost predicate AheadMoves(s: State, s': State, i: nat, announced: bool) {
    && |s'.ws| == |s.ws| && (i > |s.ws| ==> s'.ws == s.ws && s'.ctl == s.ctl)
    && Progress.Ahead(s'.ctl, s'.ws) <= Progress.Ahead(s.ctl, s.ws) - (if announced && i == |s.ws| then 1 else 0)
  }

  /** ... and to the second. */
  ghost predicate CostsMove(pcs: seq<Queue.PC>, pcs': seq<Queue.PC>, n: nat, i: nat, announced: bool) {
    && n < |pcs| == |pcs'| && (announced ==> i >= n)
    && var cost := Costs(pcs', n, n + 1) - Costs(pcs, n, n + 1);
    if i > n then cost == 0 else if announced then cost <= 3 else cost <= -1
  }

  lemma PartsSum(s: State, s': State, i: nat, announced: bool)
    requires AheadMoves(s, s', i, announced) && CostsMove(s.queue.pcs, s'.queue.pcs, |s.ws|, i, announced)
    ensures |s.ws| < |s.queue.pcs| && |s'.ws| < |s'.queue.pcs|
    ensures if i <= |s.ws| then LeftIn(s') < LeftIn(s) else LeftIn(s') == LeftIn(s)
  {
  }

  lemma InQueueAheadMoves(s: State, i: nat, c: Queue.Choice)
    requires Inv(s) && Invariant.Inv(View(s)) && Theorems.Busy(s.ctl) && Enabled(s, InQueue(i, c))
    ensures AheadMoves(s, Next(s, InQueue(i, c)), i, s.queue.pcs[i].Pushed?)
  {
    InQueueShape(s, i, c);
    InQueueAhead(s, i, c);
  }

  lemma InQueueCostsMove(s: State, i: nat, c: Queue.Choice)
    requires Inv(s) && Enabled(s, InQueue(i, c))
    ensures CostsMove(s.queue.pcs, Next(s, InQueue(i, c)).queue.pcs, |s.ws|, i, s.queue.pcs[i].Pushed?)
  {
    InQueueShape(s, i, c);
    InQueueCosts(s.queue.pcs, |s.ws|, i, c, s.queue.sem);
  }

  lemma InQueueLeft(s: State, i: nat, c: Queue.Choice)
    requires Inv(s) && Invariant.Inv(View(s)) && Theorems.Busy(s.ctl) && Enabled(s, InQueue(i, c))
    ensures |Next(s, InQueue(i, c)).ws| < |Next(s, InQueue(i, c)).queue.pcs|
    ensures var s' := Next(s, InQueue(i, c));
      if i <= |s.ws| then LeftIn(s') < LeftIn(s) else LeftIn(s') == LeftIn(s)
  {
    InQueueAheadMoves(s, i, c);
    InQueueCostsMove(s, i, c);
    PartsSum(s, Next(s, InQueue(i, c)), i, s.queue.pcs[i].Pushed?);
  }

  lemma EnterCosts(pcs: seq<Queue.PC>, n: nat, i: nat, pc: Queue.PC)
    requires i < |pcs| && n < |pcs| && pcs[i].Idle? && (pc.Locked? || pc.Ticket?)
    ensures Costs(pcs[i := pc], n, n + 1)
         == Costs(pcs, n, n + 1) + (if i > n then 0 else if pc.Ticket? then 3 else if i == n then -1 else 0)
  {
    CostsUpdate(pcs, n, i, pc, n + 1);
  }

  lemma EnterLeft(s: State, i: nat, c: Queue.Choice)
    requires Inv(s) && i < |s.queue.pcs| && s.queue.pcs[i].Idle? && (c.CallPop? ==> i < |s.ws|)
    requires (c.CallPush? && s.queue.lock == Queue.FREE) || (c.CallPop? && s.queue.sem > 0)
    ensures var n, pcs := |s.ws|, Enter(s.queue, i, c).pcs;
      && |pcs| == |s.queue.pcs|
      && Costs(pcs, n, n + 1) == Costs(s.queue.pcs, n, n + 1)
         + (if i > n then 0 else if c.CallPop? then 3 else if i == n then -1 else 0)
  {
    Enters(s.queue, i, c);
    EnterCosts(s.queue.pcs, |s.ws|, i, if c.CallPush? then Queue.Locked(c.x) else Queue.Ticket);
  }

  lemma PopWaitsLeft(s: State, i: nat)
    requires Inv(s) && Invariant.Inv(View(s)) && Theorems.Busy(s.ctl) && Enabled(s, PopWaits(i))
    requires Theorems.Helps(s.ctl, Pool.Worker(i, Pool.Wait))
    ensures var s' := Next(s, PopWaits(i)); |s'.ws| < |s'.queue.pcs| && LeftIn(s') < LeftIn(s)
  {
    var s' := Next(s, PopWaits(i));
    EnterLeft(s, i, Queue.CallPop);
    PopWaitsFollows(s, i);
    ShownAhead(View(s), ShownAs(s, PopWaits(i)), View(s'));
    LeftMoves(s, s', 1, 3);
  }

  lemma AddTaskLeft(s: State, i: nat, p: UserPriority)
    requires Inv(s) && Enabled(s, AddTask(i, p))
    ensures var s' := Next(s, AddTask(i, p)); |s'.ws| < |s'.queue.pcs| && LeftIn(s') == LeftIn(s)
  {
    EnterLeft(s, i, Queue.CallPush(User(s.nextId, p)));
  }

  lemma ControlPushLeft(s: State)
    requires Inv(s) && Enabled(s, ControlPush)
    ensures var s' := Next(s, ControlPush); |s'.ws| < |s'.queue.pcs| && LeftIn(s') < LeftIn(s)
  {
    EnterLeft(s, |s.ws|, Queue.CallPush(Pool.ControlTask(s.ctl, s.nextId)));
  }

  lemma OutsideShape(s: State, a: Action)
    requires Enabled(s, a) && (a.Worker? || a.Control?)
    ensures Next(s, a).queue == s.queue
  {
  }

  lemma OutsideLeft(s: State, a: Action)
    requires Inv(s) && Invariant.Inv(View(s)) && Theorems.Busy(s.ctl) && Enabled(s, a)
    requires (a.Worker? || a.Control?) && Useful(s, a)
    ensures var s' := Next(s, a); |s'.ws| < |s'.queue.pcs| && LeftIn(s') < LeftIn(s)
  {
    StepFollows(s, a);
    ShownAhead(View(s), ShownAs(s, a), View(Next(s, a)));
    OutsideShape(s, a);
    LeftMoves(s, Next(s, a), 1, 0);
  }

  /** During a call, a useful step of a worker or the controller leaves less to do, and callers of
      AddTask leave it as it is. */
  lemma StepLeft(s: State, a: Action)
    requires Inv(s) && Invariant.Inv(View(s)) && Theorems.Busy(s.ctl) && Enabled(s, a)
    requires Own(a, |s.ws|) ==> Useful(s, a)
    ensures |Next(s, a).ws| < |Next(s, a).queue.pcs|
    ensures if Own(a, |s.ws|) then LeftIn(Next(s, a)) < LeftIn(s) else LeftIn(Next(s, a)) == LeftIn(s)
  {
    match a
    case PopWaits(i) => PopWaitsLeft(s, i);
    case InQueue(i, c) => InQueueLeft(s, i, c);
    case AddTask(i, p) => AddTaskLeft(s, i, p);
    case ControlPush => ControlPushLeft(s);
    case Worker(_, _) => OutsideLeft(s, a);
    case Control(_) => OutsideLeft(s, a);
  }

  // ---- no call hangs at the lock --------------------------------------------------------

  /** What a thread that holds the lock, or waits for it with a ticket or a push, lets happen. */
  lemma LockGoesOn(s: State, i: nat) returns (a: Action)
    requires Inv(s) && i < |s.queue.pcs|
    requires !s.queue.pcs[i].Idle? || s.queue.lock != Queue.FREE
    ensures a.InQueue? && Enabled(s, a)
    ensures a.i > |s.ws| ==> s.queue.lock == a.i
  {
    var j := if Queue.Holds(s.queue.pcs[i]) || s.queue.lock == Queue.FREE then i else s.queue.lock;
    assert Fits(s.queue.pcs[j], j, s.ws, s.ctl, s.nextId);
    var c := Queue.Continue;
    if Queue.Holds(s.queue.pcs[j]) {
      c := Queue.HolderGoesOn(s.queue, j);
    }
    a := InQueue(j, c);
  }

  /** No call deadlocks at the lock, unless it is a Stop of a suspended pool: a worker or the
      controller can make a useful step, or the caller of AddTask that holds the lock can go on. */
  lemma CallGoesOn(s: State) returns (a: Action)
    requires Inv(s) && Invariant.Inv(View(s)) && Theorems.Busy(s.ctl) && !(s.ctl.StopJoin? && s.ctl.parked)
    ensures Enabled(s, a) && !a.AddTask?
    ensures Useful(s, a) && (!Own(a, |s.ws|) ==> a.InQueue? && s.queue.lock == a.i)
  {
    var b := Theorems.CallGoesOn(View(s));
    var i := if b.Control? then |s.ws| else b.i;
    assert Fits(s.queue.pcs[i], i, s.ws, s.ctl, s.nextId);
    if !s.queue.pcs[i].Idle? || (b.Control? && Pool.Pushes(s.ctl, |s.ws|) && s.queue.lock != Queue.FREE) {
      a := LockGoesOn(s, i);
    } else if b.Control? {
      a := if Pool.Pushes(s.ctl, |s.ws|) then ControlPush else Control(b.call);
    } else {
      a := if b.step.Wait? then PopWaits(i) else Worker(i, b.step);
    }
  }

  lemma LeftBounded(s: State)
    requires Inv(s) && Invariant.Inv(View(s))
    ensures 0 <= LeftIn(s)
    ensures s.ctl.SuspendWait? || s.ctl.StopJoin? ==> LeftIn(s) <= 28 * |s.ws| + 8
  {
    var n := |s.ws|;
    Progress.AheadBounded(View(s));
    assert Fits(s.queue.pcs[n], n, s.ws, s.ctl, s.nextId);
    assert Costs(s.queue.pcs, n, n + 1) == Costs(s.queue.pcs, n, n) + Cost(s.queue.pcs[n], true);
  }

  /** How many of `actions[j..m]` are steps of the `n` workers or the controller. */
  function OwnSteps(actions: seq<Action>, n: nat, j: nat, m: nat): nat
    requires j <= m <= |actions|
  {
    if j == m then 0 else OwnSteps(actions, n, j, m - 1) + (if Own(actions[m - 1], n) then 1 else 0)
  }

  lemma {:induction false} Telescopes(actions: seq<Action>, n: nat, ms: seq<int>, j: nat, m: nat)
    requires j <= m <= |actions| < |ms|
    requires forall k :: j <= k < m ==> ms[k + 1] + (if Own(actions[k], n) then 1 else 0) <= ms[k]
    ensures OwnSteps(actions, n, j, m) + ms[m] <= ms[j]
  {
    if j < m {
      Telescopes(actions, n, ms, j, m - 1);
      assert ms[m - 1 + 1] == ms[m];
    }
  }

  /** While Suspend waits or Stop joins, workers and controller make useful steps only. */
  lemma WaitStep(s: State, a: Action)
    requires Inv(s) && Invariant.Inv(View(s)) && Enabled(s, a) && (s.ctl.SuspendWait? || s.ctl.StopJoin?)
    ensures |Next(s, a).ws| == |s.ws| < |Next(s, a).queue.pcs|
    ensures LeftIn(Next(s, a)) + (if Own(a, |s.ws|) then 1 else 0) <= LeftIn(s)
  {
    StepLeft(s, a);
    StepFollows(s, a);
    ShownAhead(View(s), ShownAs(s, a), View(Next(s, a)));
  }

  lemma RunWaitStep(states: seq<State>, actions: seq<Action>, k: nat)
    requires Run(states, actions) && k < |actions| && (states[k].ctl.SuspendWait? || states[k].ctl.StopJoin?)
    ensures |states[k + 1].ws| == |states[k].ws| < |states[k].queue.pcs| && |states[k + 1].ws| < |states[k + 1].queue.pcs|
    ensures LeftIn(states[k + 1]) + (if Own(actions[k], |states[k].ws|) then 1 else 0) <= LeftIn(states[k])
  {
    PoolKeeps(states, actions, k);
    WaitStep(states[k], actions[k]);
  }

  /** `LeftIn` where it is defined. */
  function LeftOrZero(s: State): int {
    if |s.ws| < |s.queue.pcs| then LeftIn(s) else 0
  }

  lemma {:induction false} SameSize(states: seq<State>, j: nat, m: nat)
    requires j <= m < |states| && forall k :: j < k <= m ==> |states[k].ws| == |states[k - 1].ws|
    ensures |states[m].ws| == |states[j].ws|
  {
    if j < m {
      SameSize(states, j, m - 1);
    }
  }

  lemma WaitSteps(states: seq<State>, actions: seq<Action>, j: nat, m: nat)
    requires Run(states, actions) && j <= m < |states|
    requires forall k :: j <= k < m ==> states[k].ctl.SuspendWait? || states[k].ctl.StopJoin?
    ensures forall k :: j < k <= m ==> |states[k].ws| == |states[k - 1].ws|
    ensures forall k :: j <= k < m ==>
      LeftOrZero(states[k + 1]) + (if Own(actions[k], |states[k].ws|) then 1 else 0) <= LeftOrZero(states[k])
  {
    forall k | j <= k < m
      ensures |states[k + 1].ws| == |states[k].ws|
      ensures LeftOrZero(states[k + 1]) + (if Own(actions[k], |states[k].ws|) then 1 else 0) <= LeftOrZero(states[k])
    {
      RunWaitStep(states, actions, k);
    }
    forall k | j < k <= m ensures |states[k].ws| == |states[k - 1].ws| {
      assert |states[k - 1 + 1].ws| == |states[k - 1].ws|;
    }
  }

  /** Once Suspend waits or Stop joins, N workers and the controller make at most 28 * N + 8 steps,
      counting each of the semaphore, the lock and the heap, before it returns: however many tasks
      other threads add, and whatever these do at the lock. */
  lemma WaitIsBounded(states: seq<State>, actions: seq<Action>, j: nat, m: nat)
    requires Run(states, actions) && j <= m < |states|
    requires forall k :: j <= k < m ==> states[k].ctl.SuspendWait? || states[k].ctl.StopJoin?
    ensures OwnSteps(actions, |states[j].ws|, j, m) <= 28 * |states[j].ws| + 8
  {
    if j < m {
      var n := |states[j].ws|;
      var ms := seq(|states|, k requires 0 <= k < |states| => LeftOrZero(states[k]));
      WaitSteps(states, actions, j, m);
      forall k | j <= k < m ensures ms[k + 1] + (if Own(actions[k], n) then 1 else 0) <= ms[k] {
        SameSize(states, j, k);
      }
      Telescopes(actions, n, ms, j, m);
      PoolKeeps(states, actions, j);
      PoolKeeps(states, actions, m);
      LeftBounded(states[j]);
      LeftBounded(states[m]);
    }
  }

  // ---- every call can return --------------------------------------------------------------

  lemma Extend(states: seq<State>, actions: seq<Action>, a: Action)
    requires Run(states, actions) && Enabled(states[|actions|], a)
    ensures Run(states + [Next(states[|actions|], a)], actions + [a])
  {
    var ss, acts := states + [Next(states[|actions|], a)], actions + [a];
    forall k | 0 <= k < |acts| ensures Enabled(ss[k], acts[k]) && ss[k + 1] == Next(ss[k], acts[k]) {
      if k < |actions| {
        assert ss[k] == states[k] && ss[k + 1] == states[k + 1] && acts[k] == actions[k];
      }
    }
  }

  /** How long a caller of AddTask still holds the lock. */
  function CallerTurn(s: State): nat {
    if |s.ws| < s.queue.lock < |s.queue.pcs| then Queue.ToRelease(s.queue.pcs[s.queue.lock]) else 0
  }

  lemma CallerGoesOn(s: State, i: nat, c: Queue.Choice)
    requires Inv(s) && Enabled(s, InQueue(i, c)) && i > |s.ws| && s.queue.lock == i
    ensures CallerTurn(Next(s, InQueue(i, c))) < CallerTurn(s)
  {
    assert Fits(s.queue.pcs[i], i, s.ws, s.ctl, s.nextId) && Queue.Holds(s.queue.pcs[i]);
  }

  lemma TargetStays(s: State, a: Action)
    requires Inv(s) && Enabled(s, a) && s.ctl != Progress.Target(s.ctl)
    ensures Progress.Target(Next(s, a).ctl) == Progress.Target(s.ctl) && |Next(s, a).ws| == |s.ws|
  {
    StepFollows(s, a);
    var shown := ShownAs(s, a);
    if shown.Shows? {
      Progress.TargetStays(View(s), shown.a);
      Progress.SameWorkers(View(s), shown.a);
    }
  }

  /** A step on the way to the return. */
  lemma Towards(s: State) returns (a: Action)
    requires Inv(s) && Invariant.Inv(View(s)) && s.ctl != Progress.Target(s.ctl)
    ensures Enabled(s, a) && !a.AddTask?
    ensures LeftOrZero(Next(s, a)) < LeftOrZero(s)
            || (LeftOrZero(Next(s, a)) == LeftOrZero(s) && CallerTurn(Next(s, a)) < CallerTurn(s))
  {
    a := CallGoesOn(s);
    StepLeft(s, a);
    if !Own(a, |s.ws|) {
      CallerGoesOn(s, a.i, a.c);
    }
  }

  lemma StaysAbove(states: seq<State>, actions: seq<Action>, k: nat)
    requires Run(states, actions) && k < |states|
    ensures 0 <= LeftOrZero(states[k])
  {
    PoolKeeps(states, actions, k);
    LeftBounded(states[k]);
  }

  /** The run goes on by one step on the way to the return. */
  lemma GoesTowards(states: seq<State>, actions: seq<Action>) returns (ss: seq<State>, acts: seq<Action>)
    requires Run(states, actions) && states[|actions|].ctl != Progress.Target(states[|actions|].ctl)
    ensures Run(ss, acts) && |acts| == |actions| + 1 && states <= ss && actions <= acts && !acts[|actions|].AddTask?
    ensures var s, s' := states[|actions|], ss[|acts|];
      && Progress.Target(s'.ctl) == Progress.Target(s.ctl) && |s'.ws| == |s.ws|
      && (0 <= LeftOrZero(s') < LeftOrZero(s)
          || (0 <= LeftOrZero(s') == LeftOrZero(s) && CallerTurn(s') < CallerTurn(s)))
  {
    var s := states[|actions|];
    PoolKeeps(states, actions, |actions|);
    var a := Towards(s);
    TargetStays(s, a);
    Extend(states, actions, a);
    ss, acts := states + [Next(s, a)], actions + [a];
    StaysAbove(ss, acts, |acts|);
  }

  /** From every reachable state inside a call, some continuation of the run, in which no further
      task is added, leads to its return. */
  lemma CallCanReturn(states: seq<State>, actions: seq<Action>) returns (ss: seq<State>, acts: seq<Action>)
    requires Run(states, actions)
    ensures Run(ss, acts) && states <= ss && actions <= acts
    ensures ss[|acts|].ctl == Progress.Target(states[|actions|].ctl) && |ss[|acts|].ws| == |states[|actions|].ws|
    ensures forall k :: |actions| <= k < |acts| ==> !acts[k].AddTask?
    decreases LeftOrZero(states[|actions|]), CallerTurn(states[|actions|])
  {
    if states[|actions|].ctl == Progress.Target(states[|actions|].ctl) {
      ss, acts := states, actions;
    } else {
      var ss1, acts1 := GoesTowards(states, actions);
      ss, acts := CallCanReturn(ss1, acts1);
      assert acts[|actions|] == acts1[|actions|];
    }
  }

  /** Between calls the controller is outside the queue. */
  lemma ControllerIsOutside(s: State)
    requires Inv(s) && (s.ctl.Free? || s.ctl.Suspended?)
    ensures s.queue.pcs[|s.ws|].Idle? && !Pool.Pushes(s.ctl, |s.ws|)
  {
    assert Fits(s.queue.pcs[|s.ws|], |s.ws|, s.ws, s.ctl, s.nextId);
  }

  /** From every reachable state outside of calls, each call that is supported there can be made, and
      some continuation at the lock leads to its return. */
  lemma CallIsMade(states: seq<State>, actions: seq<Action>, call: Pool.Call) returns (ss: seq<State>, acts: seq<Action>)
    requires Run(states, actions) && (states[|actions|].ctl.Free? || states[|actions|].ctl.Suspended?)
    requires Pool.ControlEnabled(View(states[|actions|]), call)
    ensures Run(ss, acts) && states <= ss && actions + [Control(call)] <= acts
    ensures |ss[|acts|].ws| == |states[|actions|].ws|
    ensures ss[|acts|].ctl == Progress.Target(Pool.NextCtl(states[|actions|].ctl, call, |states[|actions|].ws|))
  {
    var s, a := states[|actions|], Control(call);
    RunKeeps(states, actions, |actions|);
    ControllerIsOutside(s);
    Extend(states, actions, a);
    ss, acts := CallCanReturn(states + [Next(s, a)], actions + [a]);
  }

  lemma FreeIsAwake(states: seq<State>, actions: seq<Action>, k: nat)
    requires Run(states, actions) && k < |states| && states[k].ctl.Free?
    ensures forall i :: 0 <= i < |states[k].ws| ==>
      !states[k].ws[i].Parked? && !states[k].ws[i].Woken? && !states[k].ws[i].Stopped?
  {
    RunRefines(states, actions, k);
    AwakeAtFree(ShownStates(states, actions, k), ShownActions(states, actions, k), View(states[k]));
  }

  lemma AwakeAtFree(ps: seq<Pool.State>, acts: seq<Pool.Action>, p: Pool.State)
    requires Reaches(ps, acts, p) && p.ctl.Free?
    ensures forall i :: 0 <= i < |p.ws| ==> !p.ws[i].Parked? && !p.ws[i].Woken? && !p.ws[i].Stopped?
  {
    Theorems.ResumeCleansUp(ps, acts, |acts|);
  }

  lemma FinishedIsStopped(states: seq<State>, actions: seq<Action>, k: nat)
    requires Run(states, actions) && k < |states| && states[k].ctl.Finished?
    ensures forall i :: 0 <= i < |states[k].ws| ==> states[k].ws[i].Stopped? && states[k].ws[i].t.TPStop?
  {
    RunRefines(states, actions, k);
    StoppedAtFinished(ShownStates(states, actions, k), ShownActions(states, actions, k), View(states[k]));
  }

  lemma StoppedAtFinished(ps: seq<Pool.State>, acts: seq<Pool.Action>, p: Pool.State)
    requires Reaches(ps, acts, p) && p.ctl.Finished?
    ensures forall i :: 0 <= i < |p.ws| ==> p.ws[i].Stopped? && p.ws[i].t.TPStop?
  {
    Theorems.StopConserves(ps, acts, |acts|);
    Invariant.RunKeeps(ps, acts, |acts|);
  }

  /** Suspend of a free pool, lock by lock: all workers end parked. */
  lemma SuspendReturns(states: seq<State>, actions: seq<Action>) returns (ss: seq<State>, acts: seq<Action>)
    requires Run(states, actions) && states[|actions|].ctl.Free?
    ensures Run(ss, acts) && states <= ss && actions + [Control(Pool.Suspend)] <= acts
    ensures ss[|acts|].ctl.Suspended? && |ss[|acts|].ws| == |states[|actions|].ws|
    ensures forall i :: 0 <= i < |ss[|acts|].ws| ==> ss[|acts|].ws[i].Parked? && ss[|acts|].ws[i].t.TPSuspend?
  {
    ss, acts := CallIsMade(states, actions, Pool.Suspend);
    SuspendIsBarrier(ss, acts, |acts|);
  }

  /** Resume of a suspended pool, lock by lock: no worker stays parked. */
  lemma ResumeReturns(states: seq<State>, actions: seq<Action>) returns (ss: seq<State>, acts: seq<Action>)
    requires Run(states, actions) && states[|actions|].ctl.Suspended?
    ensures Run(ss, acts) && states <= ss && actions + [Control(Pool.Resume)] <= acts
    ensures ss[|acts|].ctl.Free? && |ss[|acts|].ws| == |states[|actions|].ws|
    ensures forall i :: 0 <= i < |ss[|acts|].ws| ==>
      !ss[|acts|].ws[i].Parked? && !ss[|acts|].ws[i].Woken? && !ss[|acts|].ws[i].Stopped?
  {
    ss, acts := CallIsMade(states, actions, Pool.Resume);
    FreeIsAwake(ss, acts, |acts|);
  }

  /** Stop of a free pool, lock by lock: every worker has left its loop on a TPStop. */
  lemma StopReturns(states: seq<State>, actions: seq<Action>) returns (ss: seq<State>, acts: seq<Action>)
    requires Run(states, actions) && states[|actions|].ctl.Free?
    ensures Run(ss, acts) && states <= ss && actions + [Control(Pool.Call.Stop)] <= acts
    ensures ss[|acts|].ctl == Pool.Finished(false) && |ss[|acts|].ws| == |states[|actions|].ws|
    ensures forall i :: 0 <= i < |ss[|acts|].ws| ==> ss[|acts|].ws[i].Stopped? && ss[|acts|].ws[i].t.TPStop?
  {
    ss, acts := CallIsMade(states, actions, Pool.Call.Stop);
    FinishedIsStopped(ss, acts, |acts|);
  }

  // ---- AddTask can be called --------------------------------------------------------------

  /** How long the lock is still held. */
  function Turn(q: Queue.State): nat {
    if 0 <= q.lock < |q.pcs| then Queue.ToRelease(q.pcs[q.lock]) else 0
  }

  lemma HolderStep(s: State) returns (a: Action)
    requires Inv(s) && s.queue.lock != Queue.FREE
    ensures Enabled(s, a) && Turn(Next(s, a).queue) < Turn(s.queue)
    ensures a.InQueue? && a.i == s.queue.lock && |Next(s, a).ws| == |s.ws|
    ensures |Next(s, a).queue.pcs| == |s.queue.pcs|
    ensures forall i :: 0 <= i < |s.queue.pcs| && i != a.i ==> Next(s, a).queue.pcs[i] == s.queue.pcs[i]
  {
    var j := s.queue.lock;
    assert Fits(s.queue.pcs[j], j, s.ws, s.ctl, s.nextId);
    var c := Queue.HolderGoesOn(s.queue, j);
    a := InQueue(j, c);
  }

  /** From every reachable state the lock can be released, while a caller outside the queue stays there. */
  lemma LockIsReleased(states: seq<State>, actions: seq<Action>, i: nat) returns (ss: seq<State>, acts: seq<Action>)
    requires Run(states, actions) && |states[|actions|].ws| < i < |states[|actions|].queue.pcs|
    requires states[|actions|].queue.pcs[i].Idle?
    ensures Run(ss, acts) && states <= ss && actions <= acts && ss[|acts|].queue.lock == Queue.FREE
    ensures |ss[|acts|].ws| < i < |ss[|acts|].queue.pcs| && ss[|acts|].queue.pcs[i].Idle?
    decreases Turn(states[|actions|].queue)
  {
    var s := states[|actions|];
    if s.queue.lock == Queue.FREE {
      ss, acts := states, actions;
    } else {
      RunKeeps(states, actions, |actions|);
      var a := HolderStep(s);
      Extend(states, actions, a);
      ss, acts := LockIsReleased(states + [Next(s, a)], actions + [a], i);
    }
  }

  /** AddTask can be called by every thread outside the queue in every reachable state: some continuation
      adds a task of the priority it was given. */
  lemma AddTaskCanBeMade(states: seq<State>, actions: seq<Action>, i: nat, priority: UserPriority)
    returns (ss: seq<State>, acts: seq<Action>, t: Task)
    requires Run(states, actions) && |states[|actions|].ws| < i < |states[|actions|].queue.pcs|
    requires states[|actions|].queue.pcs[i].Idle?
    ensures Run(ss, acts) && states <= ss && actions <= acts
    ensures t.User? && t.priority == priority && t in ss[|acts|].added && t in ss[|acts|].queue.pq
  {
    ss, acts := LockIsReleased(states, actions, i);
    RunKeeps(ss, acts, |acts|);
    ss, acts := PushSteps(ss, acts, i, priority);
    t := ss[|acts|].queue.pcs[i].x;
    RunKeeps(ss, acts, |acts|);
    var a := InQueue(i, Queue.Continue);
    PostAdds(ss[|acts|], i, Queue.Continue);
    Extend(ss, acts, a);
    ss, acts := ss + [Next(ss[|acts|], a)], acts + [a];
  }

  lemma OneStep(states: seq<State>, actions: seq<Action>, a: Action) returns (ss: seq<State>, acts: seq<Action>)
    requires Run(states, actions) && Enabled(states[|actions|], a)
    ensures Run(ss, acts) && |acts| == |actions| + 1 && states <= ss && actions <= acts && acts[|actions|] == a
    ensures ss[|acts|] == Next(states[|actions|], a) && Inv(ss[|acts|])
  {
    Extend(states, actions, a);
    ss, acts := states + [Next(states[|actions|], a)], actions + [a];
    RunKeeps(ss, acts, |acts|);
  }

  /** Up to the announcement. */
  lemma PushSteps(states: seq<State>, actions: seq<Action>, i: nat, priority: UserPriority) returns (ss: seq<State>, acts: seq<Action>)
    requires Run(states, actions) && Inv(states[|actions|]) && Enabled(states[|actions|], AddTask(i, priority))
    ensures Run(ss, acts) && states <= ss && actions <= acts
    ensures i < |ss[|acts|].queue.pcs| && ss[|acts|].queue.pcs[i].Pushed?
    ensures Carrying(ss[|acts|].queue.pcs, i, priority)
  {
    AddTaskLocks(states[|actions|], i, priority);
    AddTaskIsLocked(states[|actions|], i, priority);
    ss, acts := OneStep(states, actions, AddTask(i, priority));
    CarryStep(ss[|acts|], InQueue(i, Queue.Continue), i, priority);
    ss, acts := OneStep(ss, acts, InQueue(i, Queue.Continue));
  }

  lemma AddTaskIsLocked(s: State, i: nat, priority: UserPriority)
    requires Inv(s) && Enabled(s, AddTask(i, priority))
    ensures var s' := Next(s, AddTask(i, priority));
      i < |s'.queue.pcs| && s'.queue.pcs[i].Locked? && Enabled(s', InQueue(i, Queue.Continue))
    ensures var s' := Next(s, AddTask(i, priority)); Next(s', InQueue(i, Queue.Continue)).queue.pcs[i].Pushed?
  {
    Enters(s.queue, i, Queue.CallPush(User(s.nextId, priority)));
  }

  function Start(n: nat, callers: nat): State {
    var queue := Queue.State(multiset{}, 0, Queue.FREE, seq(n + 1 + callers, _ => Queue.Idle));
    State(queue, seq(n, _ => Pool.AtWait), 0, 0, Pool.Free, 0, {}, multiset{})
  }

  lemma StartIsInit(n: nat, callers: nat)
    requires n >= 1
    ensures Init(Start(n, callers))
  {
    Queue.NoTickets(Start(n, callers).queue.pcs);
  }

  /** For every number of workers and of other threads, Suspend does return in some run. */
  lemma SuspendedIsReached(n: nat, callers: nat) returns (states: seq<State>, actions: seq<Action>)
    requires n >= 1
    ensures Run(states, actions) && states[|actions|].ctl == Pool.Suspended && |states[|actions|].ws| == n
  {
    var s := Start(n, callers);
    StartIsInit(n, callers);
    Extend([s], [], Control(Pool.Suspend));
    states, actions := CallCanReturn([s] + [Next(s, Control(Pool.Suspend))], [] + [Control(Pool.Suspend)]);
  }
}
