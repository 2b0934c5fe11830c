/** The thread pool over the queue as it is: src/thread_pool.cpp whose threads go through
    include/wpriorityqueue.hpp lock by lock. Every run is a run of ThreadPool, so what is proved
    there holds here. */
module PoolThreads {
  import opened Tasks
  import opened AtomicQueue
  import opened Folding
  import Queue = QueueThreads
  import Pool = ThreadPool
  import Progress = ThreadPoolProgress

  /** Threads 0..N-1 of the queue are the workers, thread N is the controller, all others are
      callers of AddTask. A worker in Pop is at AtWait, Ticket or Holding, as its place there says. */
  datatype State = State(
    queue: Queue.State,
    ws: seq<Pool.PC>,
    mainSem: nat,
    threadSem: nat,
    ctl: Pool.Ctl,
    nextId: nat,            // a task is numbered when its Push gets the lock
    added: set<Task>,
    done: multiset<Task>)

  /** What ThreadPool sees. */
  function View(s: State): Pool.State {
    Pool.State(s.ws, Queue.View(s.queue), s.mainSem, s.threadSem, s.ctl, s.nextId, s.added, s.done)
  }

  function With(queue: Queue.State, p: Pool.State): State {
    State(queue, p.ws, p.mainSem, p.threadSem, p.ctl, p.nextId, p.added, p.done)
  }

  ghost predicate Init(s: State) {
    Queue.Init(s.queue) && |s.ws| < |s.queue.pcs| && Pool.Init(View(s))
  }

  /** A call of the queue begins when it first touches shared state: what comes before cannot be
      told from not having begun. */
  datatype Action =
    | PopWaits(i: nat)                            // worker i: m_sem.Wait() returns
    | InQueue(i: nat, c: Queue.Choice)            // thread i, inside Push or Pop: its next step
    | AddTask(i: nat, priority: UserPriority)     // caller i: Push gets the lock
    | ControlPush                                 // the controller: AddTask's Push gets the lock
    | Worker(i: nat, step: Pool.Step)             // worker i, outside the queue
    | Control(call: Pool.Call)                    // the controller, outside the queue

  ghost predicate Enabled(s: State, a: Action) {
    var n := |s.ws|;
    match a
    case PopWaits(i) => i < n < |s.queue.pcs| && s.queue.pcs[i].Idle? && s.ws[i].AtWait? && s.queue.sem > 0
    case InQueue(i, c) => i < |s.queue.pcs| && !s.queue.pcs[i].Idle? && Queue.Enabled(s.queue, i, c)
    case AddTask(i, _) => n < i < |s.queue.pcs| && s.queue.pcs[i].Idle? && s.queue.lock == Queue.FREE
    case ControlPush => n < |s.queue.pcs| && s.queue.pcs[n].Idle? && s.queue.lock == Queue.FREE && Pool.Pushes(s.ctl, n)
    case Worker(i, step) =>
      i < n < |s.queue.pcs| && s.queue.pcs[i].Idle? && !step.Wait? && !step.Pop?
      && Pool.WorkerEnabled(s.ws[i], View(s).q, s.threadSem, step)
    case Control(call) =>
      n < |s.queue.pcs| && s.queue.pcs[n].Idle? && !Pool.Pushes(s.ctl, n) && Pool.ControlEnabled(View(s), call)
  }

  /** Thread `i` begins a call and makes its first step on shared state. */
  function Enter(q: Queue.State, i: nat, c: Queue.Choice): Queue.State
    requires i < |q.pcs|
  {
    Queue.Next(Queue.Next(q, i, c), i, Queue.Continue)
  }

  /** What thread `i` does besides, when it steps inside the queue: a pop hands over its task, and a
      push is over for the pool once its element is announced. */
  function Besides(s: State, i: nat, c: Queue.Choice): State
    requires i < |s.queue.pcs|
  {
    match s.queue.pcs[i]
    case Popping => if i < |s.ws| && c.Return? then s.(ws := s.ws[i := Pool.Holding(c.top)]) else s
    case Pushed(x) =>
      s.(nextId := s.nextId + 1, added := s.added + {x},
         ctl := if i == |s.ws| then Pool.NextCtl(s.ctl, Pool.Suspend, |s.ws|) else s.ctl)
    case _ => s
  }

  ghost function Next(s: State, a: Action): State
    requires Enabled(s, a)
  {
    var n := |s.ws|;
    match a
    case PopWaits(i) => s.(queue := Enter(s.queue, i, Queue.CallPop), ws := s.ws[i := Pool.Ticket])
    case InQueue(i, c) => Besides(s, i, c).(queue := Queue.Next(s.queue, i, c))
    case AddTask(i, p) => s.(queue := Enter(s.queue, i, Queue.CallPush(User(s.nextId, p))))
    case ControlPush => s.(queue := Enter(s.queue, n, Queue.CallPush(Pool.ControlTask(s.ctl, s.nextId))))
    case Worker(i, step) => With(s.queue, Pool.WorkerStep(View(s), i, step))
    case Control(call) => With(s.queue, Pool.ControlStep(View(s), call))
  }

  ghost predicate Run(states: seq<State>, actions: seq<Action>) {
    && |states| == |actions| + 1
    && Init(states[0])
    && forall k :: 0 <= k < |actions| ==>
         Enabled(states[k], actions[k]) && states[k + 1] == Next(states[k], actions[k])
  }

  // ---- invariant ------------------------------------------------------------------------

  /** The task that thread `i` is pushing. */
  predicate Pushing(x: Task, i: nat, n: nat, ctl: Pool.Ctl, nextId: nat) {
    if i == n then Pool.Pushes(ctl, n) && x == Pool.ControlTask(ctl, nextId)
    else x.User? && x.id == nextId
  }

  /** A thread's place in the queue and its place in the pool. */
  predicate Fits(pc: Queue.PC, i: nat, ws: seq<Pool.PC>, ctl: Pool.Ctl, nextId: nat) {
    match pc
    case Idle => i < |ws| ==> !ws[i].Ticket?
    case Ticket => i < |ws| && ws[i].Ticket?
    case Popping => i < |ws| && ws[i].Ticket?
    case Popped(t) => i < |ws| && ws[i] == Pool.Holding(t)
    case Locked(x) => i >= |ws| && Pushing(x, i, |ws|, ctl, nextId)
    case Pushed(x) => i >= |ws| && Pushing(x, i, |ws|, ctl, nextId)
    case Posted => i >= |ws| && (i == |ws| ==> ctl.SuspendPush? || ctl.StopPush?)
    case _ => false
  }

  ghost predicate AllFit(pcs: seq<Queue.PC>, ws: seq<Pool.PC>, ctl: Pool.Ctl, nextId: nat) {
    |ws| < |pcs| && forall i :: 0 <= i < |pcs| ==> Fits(pcs[i], i, ws, ctl, nextId)
  }

  ghost predicate Inv(s: State) {
    Queue.Inv(s.queue) && AllFit(s.queue.pcs, s.ws, s.ctl, s.nextId)
  }

  // ---- simulation -----------------------------------------------------------------------

  lemma CallBegins(q: Queue.State, i: nat, c: Queue.Choice)
    requires Queue.Inv(q) && i < |q.pcs| && q.pcs[i].Idle? && (c.CallPush? || c.CallPop?)
    ensures var q1 := Queue.Next(q, i, c);
      && Queue.Inv(q1) && Queue.View(q1) == Queue.View(q) && q1.lock == q.lock && q1.sem == q.sem
      && q1.pcs == q.pcs[i := if c.CallPush? then Queue.WantPush(c.x) else Queue.WantWait]
  {
    Queue.StepRefines(q, i, c);
    Queue.StepFollows(q, i, c);
  }

  lemma PushLocks(q: Queue.State, i: nat)
    requires Queue.Inv(q) && i < |q.pcs| && q.pcs[i].WantPush? && q.lock == Queue.FREE
    ensures var q' := Queue.Next(q, i, Queue.Continue);
      && Queue.Inv(q') && Queue.View(q') == Queue.View(q) && q'.pcs == q.pcs[i := Queue.Locked(q.pcs[i].x)]
  {
    Queue.StepRefines(q, i, Queue.Continue);
    Queue.StepFollows(q, i, Queue.Continue);
  }

  lemma PopTakes(q: Queue.State, i: nat)
    requires Queue.Inv(q) && i < |q.pcs| && q.pcs[i].WantWait? && q.sem > 0
    ensures var q' := Queue.Next(q, i, Queue.Continue);
      && Queue.Inv(q') && Queue.View(q') == Take(Queue.View(q)) && q'.pcs == q.pcs[i := Queue.Ticket]
  {
    Queue.StepRefines(q, i, Queue.Continue);
    Queue.StepFollows(q, i, Queue.Continue);
  }

  lemma Enters(q: Queue.State, i: nat, c: Queue.Choice)
    requires Queue.Inv(q) && i < |q.pcs| && q.pcs[i].Idle?
    requires (c.CallPush? && q.lock == Queue.FREE) || (c.CallPop? && q.sem > 0)
    ensures var q' := Enter(q, i, c);
      && Queue.Inv(q') && q'.pcs == q.pcs[i := if c.CallPush? then Queue.Locked(c.x) else Queue.Ticket]
      && Queue.View(q') == if c.CallPush? then Queue.View(q) else Take(Queue.View(q))
  {
    CallBegins(q, i, c);
    if c.CallPush? {
      PushLocks(Queue.Next(q, i, c), i);
    } else {
      PopTakes(Queue.Next(q, i, c), i);
    }
  }

  /** What a step is to ThreadPool: nothing, or one of its steps. */
  datatype Shown = Hidden | Shows(a: Pool.Action)

  function ShownAs(s: State, a: Action): Shown {
    match a
    case PopWaits(i) => Shows(Pool.Worker(i, Pool.Wait))
    case InQueue(i, c) =>
      if i >= |s.queue.pcs| then Hidden
      else if s.queue.pcs[i].Popping? && c.Return? then Shows(Pool.Worker(i, Pool.Pop(c.top)))
      else if !s.queue.pcs[i].Pushed? then Hidden
      else if i == |s.ws| then Shows(Pool.Control(Pool.Suspend))
      else if s.queue.pcs[i].x.User? then Shows(Pool.AddTask(s.queue.pcs[i].x.priority))
      else Hidden
    case AddTask(_, _) => Hidden
    case ControlPush => Hidden
    case Worker(i, step) => Shows(Pool.Worker(i, step))
    case Control(call) => Shows(Pool.Control(call))
  }

  ghost predicate Follows(p: Pool.State, shown: Shown, p': Pool.State) {
    match shown
    case Hidden => p' == p
    case Shows(a) => Pool.Enabled(p, a) && p' == Pool.Next(p, a)
  }

  /** A worker's step moves its two places only. */
  lemma WorkerFits(pcs: seq<Queue.PC>, ws: seq<Pool.PC>, ctl: Pool.Ctl, nextId: nat, i: nat, pc: Queue.PC, w: Pool.PC)
    requires AllFit(pcs, ws, ctl, nextId) && i < |ws| && Fits(pc, i, ws[i := w], ctl, nextId)
    ensures AllFit(pcs[i := pc], ws[i := w], ctl, nextId)
  {
  }

  lemma PopWaitsFollows(s: State, i: nat)
    requires Inv(s) && Enabled(s, PopWaits(i))
    ensures Inv(Next(s, PopWaits(i))) && Follows(View(s), ShownAs(s, PopWaits(i)), View(Next(s, PopWaits(i))))
  {
    Enters(s.queue, i, Queue.CallPop);
    WorkerFits(s.queue.pcs, s.ws, s.ctl, s.nextId, i, Queue.Ticket, Pool.Ticket);
  }

  lemma AddTaskFollows(s: State, i: nat, p: UserPriority)
    requires Inv(s) && Enabled(s, AddTask(i, p))
    ensures Inv(Next(s, AddTask(i, p))) && View(Next(s, AddTask(i, p))) == View(s)
  {
    Enters(s.queue, i, Queue.CallPush(User(s.nextId, p)));
  }

  lemma ControlPushFollows(s: State)
    requires Inv(s) && Enabled(s, ControlPush)
    ensures Inv(Next(s, ControlPush)) && View(Next(s, ControlPush)) == View(s)
  {
    Enters(s.queue, |s.ws|, Queue.CallPush(Pool.ControlTask(s.ctl, s.nextId)));
  }

  /** Nobody but the holder of the lock is pushing. */
  lemma OnePusher(s: State, i: nat, j: nat)
    requires Inv(s) && i < |s.queue.pcs| && j < |s.queue.pcs| && i != j && Queue.Holds(s.queue.pcs[i])
    ensures !s.queue.pcs[j].Locked? && !s.queue.pcs[j].Pushed?
  {
    assert s.queue.lock == i;
  }

  lemma PopRemoves(q: Queue.State, i: nat, c: Queue.Choice)
    requires Queue.Inv(q) && Queue.Enabled(q, i, c) && q.pcs[i].Popping?
    ensures var q' := Queue.Next(q, i, c); var v := Queue.View(q);
      && Queue.Inv(q') && q'.pcs == q.pcs[i := Queue.Popped(c.top)]
      && v.tickets > 0 && IsTop(c.top, v.content) && Queue.View(q') == Remove(v, c.top)
  {
    Queue.StepRefines(q, i, c);
    Queue.StepFollows(q, i, c);
  }

  lemma PoolPops(p: Pool.State, i: nat, top: Task)
    requires i < |p.ws| && p.ws[i].Ticket? && p.q.tickets > 0 && IsTop(top, p.q.content)
    ensures Follows(p, Shows(Pool.Worker(i, Pool.Pop(top))),
                    p.(ws := p.ws[i := Pool.Holding(top)], q := Remove(p.q, top)))
  {
  }

  lemma PopShape(s: State, i: nat, c: Queue.Choice)
    requires Enabled(s, InQueue(i, c)) && s.queue.pcs[i].Popping? && i < |s.ws|
    ensures c.Return?
    ensures Next(s, InQueue(i, c)) == s.(queue := Queue.Next(s.queue, i, c), ws := s.ws[i := Pool.Holding(c.top)])
    ensures ShownAs(s, InQueue(i, c)) == Shows(Pool.Worker(i, Pool.Pop(c.top)))
  {
  }

  /** A pop hands over its task. */
  lemma PopFollows(s: State, i: nat, c: Queue.Choice)
    requires Inv(s) && Enabled(s, InQueue(i, c)) && s.queue.pcs[i].Popping?
    ensures Inv(Next(s, InQueue(i, c)))
    ensures Follows(View(s), ShownAs(s, InQueue(i, c)), View(Next(s, InQueue(i, c))))
  {
    assert Fits(s.queue.pcs[i], i, s.ws, s.ctl, s.nextId);
    PopShape(s, i, c);
    PopRemoves(s.queue, i, c);
    PoolPops(View(s), i, c.top);
    WorkerFits(s.queue.pcs, s.ws, s.ctl, s.nextId, i, Queue.Popped(c.top), Pool.Holding(c.top));
  }

  lemma PostFits(s: State, i: nat, ctl: Pool.Ctl)
    requires Inv(s) && i < |s.queue.pcs| && s.queue.pcs[i].Pushed?
    requires if i == |s.ws| then ctl.SuspendPush? || ctl.StopPush? else ctl == s.ctl
    ensures AllFit(s.queue.pcs[i := Queue.Posted], s.ws, ctl, s.nextId + 1)
  {
    assert Fits(s.queue.pcs[i], i, s.ws, s.ctl, s.nextId);
    forall j | 0 <= j < |s.queue.pcs| && j != i ensures Fits(s.queue.pcs[j], j, s.ws, ctl, s.nextId + 1) {
      assert Fits(s.queue.pcs[j], j, s.ws, s.ctl, s.nextId);
      OnePusher(s, i, j);
    }
  }

  lemma PostAnnounces(q: Queue.State, i: nat, c: Queue.Choice)
    requires Queue.Inv(q) && Queue.Enabled(q, i, c) && q.pcs[i].Pushed?
    ensures var q' := Queue.Next(q, i, c);
      && Queue.Inv(q') && q'.pcs == q.pcs[i := Queue.Posted] && Queue.View(q') == Push(Queue.View(q), q.pcs[i].x)
  {
    Queue.StepRefines(q, i, c);
    Queue.StepFollows(q, i, c);
  }

  lemma PostShape(s: State, i: nat, c: Queue.Choice)
    requires Enabled(s, InQueue(i, c)) && s.queue.pcs[i].Pushed?
    ensures Next(s, InQueue(i, c))
         == s.(queue := Queue.Next(s.queue, i, c), nextId := s.nextId + 1, added := s.added + {s.queue.pcs[i].x},
               ctl := if i == |s.ws| then Pool.NextCtl(s.ctl, Pool.Suspend, |s.ws|) else s.ctl)
  {
  }

  lemma PoolAdds(p: Pool.State, x: Task)
    requires x.User? && x.id == p.nextId
    ensures Follows(p, Shows(Pool.AddTask(x.priority)), Pool.Pushed(p, x))
  {
  }

  lemma PoolPushes(p: Pool.State, x: Task)
    requires Pool.Pushes(p.ctl, |p.ws|) && x == Pool.ControlTask(p.ctl, p.nextId)
    ensures Follows(p, Shows(Pool.Control(Pool.Suspend)),
                    Pool.Pushed(p, x).(ctl := Pool.NextCtl(p.ctl, Pool.Suspend, |p.ws|)))
  {
  }

  lemma PostKeeps(s: State, i: nat, c: Queue.Choice)
    requires Inv(s) && Enabled(s, InQueue(i, c)) && s.queue.pcs[i].Pushed?
    ensures Inv(Next(s, InQueue(i, c)))
  {
    assert Fits(s.queue.pcs[i], i, s.ws, s.ctl, s.nextId);
    PostShape(s, i, c);
    PostAnnounces(s.queue, i, c);
    PostFits(s, i, Next(s, InQueue(i, c)).ctl);
  }

  /** A push is over for the pool once its element is announced. */
  lemma PostFollows(s: State, i: nat, c: Queue.Choice)
    requires Inv(s) && Enabled(s, InQueue(i, c)) && s.queue.pcs[i].Pushed?
    ensures Follows(View(s), ShownAs(s, InQueue(i, c)), View(Next(s, InQueue(i, c))))
  {
    var x := s.queue.pcs[i].x;
    assert Fits(s.queue.pcs[i], i, s.ws, s.ctl, s.nextId);
    PostShape(s, i, c);
    PostAnnounces(s.queue, i, c);
    if i == |s.ws| {
      PoolPushes(View(s), x);
    } else {
      PoolAdds(View(s), x);
    }
  }

  lemma HiddenFits(s: State, i: nat, c: Queue.Choice)
    requires Inv(s) && Enabled(s, InQueue(i, c)) && !s.queue.pcs[i].Popping? && !s.queue.pcs[i].Pushed?
    ensures AllFit(s.queue.pcs[i := Queue.NextPC(s.queue.pcs[i], c, s.queue.sem)], s.ws, s.ctl, s.nextId)
  {
    assert Fits(s.queue.pcs[i], i, s.ws, s.ctl, s.nextId);
  }

  lemma HiddenFollows(s: State, i: nat, c: Queue.Choice)
    requires Inv(s) && Enabled(s, InQueue(i, c)) && !s.queue.pcs[i].Popping? && !s.queue.pcs[i].Pushed?
    ensures Inv(Next(s, InQueue(i, c))) && View(Next(s, InQueue(i, c))) == View(s)
  {
    Queue.StepRefines(s.queue, i, c);
    Queue.StepFollows(s.queue, i, c);
    HiddenFits(s, i, c);
    assert Fits(s.queue.pcs[i], i, s.ws, s.ctl, s.nextId);
  }

  lemma InQueueFollows(s: State, i: nat, c: Queue.Choice)
    requires Inv(s) && Enabled(s, InQueue(i, c))
    ensures Inv(Next(s, InQueue(i, c)))
    ensures Follows(View(s), ShownAs(s, InQueue(i, c)), View(Next(s, InQueue(i, c))))
  {
    if s.queue.pcs[i].Popping? {
      PopFollows(s, i, c);
    } else if s.queue.pcs[i].Pushed? {
      PostKeeps(s, i, c);
      PostFollows(s, i, c);
    } else {
      HiddenFollows(s, i, c);
    }
  }

  lemma OutsideTheQueue(p: Pool.State, i: nat, step: Pool.Step)
    requires i < |p.ws| && Pool.WorkerEnabled(p.ws[i], p.q, p.threadSem, step) && !step.Wait? && !step.Pop?
    ensures var p' := Pool.WorkerStep(p, i, step);
      p'.q == p.q && p'.ctl == p.ctl && p'.nextId == p.nextId
      && |p'.ws| == |p.ws| && p'.ws == p.ws[i := p'.ws[i]] && !p'.ws[i].Ticket?
  {
  }

  lemma WorkerFollows(s: State, i: nat, step: Pool.Step)
    requires Inv(s) && Enabled(s, Worker(i, step))
    ensures Inv(Next(s, Worker(i, step)))
    ensures Follows(View(s), ShownAs(s, Worker(i, step)), View(Next(s, Worker(i, step))))
  {
    OutsideTheQueue(View(s), i, step);
    var w := Pool.WorkerStep(View(s), i, step).ws[i];
    WorkerFits(s.queue.pcs, s.ws, s.ctl, s.nextId, i, s.queue.pcs[i], w);
    assert s.queue.pcs[i := s.queue.pcs[i]] == s.queue.pcs;
  }

  lemma ControlFits(pcs: seq<Queue.PC>, ws: seq<Pool.PC>, ctl: Pool.Ctl, ctl': Pool.Ctl, nextId: nat)
    requires AllFit(pcs, ws, ctl, nextId) && pcs[|ws|].Idle?
    ensures AllFit(pcs, ws, ctl', nextId)
  {
  }

  lemma ControlFollows(s: State, call: Pool.Call)
    requires Inv(s) && Enabled(s, Control(call))
    ensures Inv(Next(s, Control(call)))
    ensures Follows(View(s), ShownAs(s, Control(call)), View(Next(s, Control(call))))
  {
    var p' := Pool.ControlStep(View(s), call);
    assert p'.ws == s.ws && p'.nextId == s.nextId && p'.q == View(s).q;
    ControlFits(s.queue.pcs, s.ws, s.ctl, p'.ctl, s.nextId);
  }

  /** Every step of every thread at the lock is one step of ThreadPool, or does not show there. */
  lemma StepFollows(s: State, a: Action)
    requires Inv(s) && Enabled(s, a)
    ensures Inv(Next(s, a)) && Follows(View(s), ShownAs(s, a), View(Next(s, a)))
  {
    match a
    case PopWaits(i) => PopWaitsFollows(s, i);
    case InQueue(i, c) => InQueueFollows(s, i, c);
    case AddTask(i, p) => AddTaskFollows(s, i, p);
    case ControlPush => ControlPushFollows(s);
    case Worker(i, step) => WorkerFollows(s, i, step);
    case Control(call) => ControlFollows(s, call);
  }

  lemma {:induction false} RunKeeps(states: seq<State>, actions: seq<Action>, k: nat)
    requires Run(states, actions) && k < |states|
    ensures Inv(states[k])
  {
    if k == 0 {
      Queue.NoTickets(states[0].queue.pcs);
    } else {
      RunKeeps(states, actions, k - 1);
      StepFollows(states[k - 1], actions[k - 1]);
    }
  }

  /** The steps of `actions[..k]` that show. */
  function ShownActions(states: seq<State>, actions: seq<Action>, k: nat): seq<Pool.Action>
    requires k <= |actions| < |states|
  {
    if k == 0 then []
    else
      var before := ShownActions(states, actions, k - 1);
      var shown := ShownAs(states[k - 1], actions[k - 1]);
      if shown.Hidden? then before else before + [shown.a]
  }

  /** The states these steps lead to. */
  function ShownStates(states: seq<State>, actions: seq<Action>, k: nat): (ps: seq<Pool.State>)
    requires k <= |actions| < |states|
    ensures |ps| == |ShownActions(states, actions, k)| + 1
  {
    if k == 0 then [View(states[0])]
    else
      var before := ShownStates(states, actions, k - 1);
      if ShownAs(states[k - 1], actions[k - 1]).Hidden? then before else before + [View(states[k])]
  }

  ghost predicate StepShown(states: seq<State>, actions: seq<Action>, k: nat)
    requires k < |actions| < |states|
  {
    Follows(View(states[k]), ShownAs(states[k], actions[k]), View(states[k + 1]))
  }

  lemma RunStepFollows(states: seq<State>, actions: seq<Action>, k: nat)
    requires Run(states, actions) && k < |actions|
    ensures StepShown(states, actions, k)
  {
    RunKeeps(states, actions, k);
    StepFollows(states[k], actions[k]);
  }

  /** A run of ThreadPool that ends in `p`. */
  ghost predicate Reaches(ps: seq<Pool.State>, acts: seq<Pool.Action>, p: Pool.State) {
    Pool.Run(ps, acts) && ps[|acts|] == p
  }

  ghost predicate ReachesShown(states: seq<State>, actions: seq<Action>, k: nat)
    requires k <= |actions| < |states|
  {
    Reaches(ShownStates(states, actions, k), ShownActions(states, actions, k), View(states[k]))
  }

  lemma RunExtends(ps: seq<Pool.State>, acts: seq<Pool.Action>, p: Pool.State, shown: Shown, p': Pool.State)
    requires Reaches(ps, acts, p) && Follows(p, shown, p')
    ensures shown.Hidden? ==> Reaches(ps, acts, p')
    ensures shown.Shows? ==> Reaches(ps + [p'], acts + [shown.a], p')
  {
    if shown.Shows? {
      Progress.Extend(ps, acts, shown.a);
    }
  }

  lemma ShownExtends(states: seq<State>, actions: seq<Action>, k: nat)
    requires k < |actions| < |states| && ReachesShown(states, actions, k) && StepShown(states, actions, k)
    ensures ReachesShown(states, actions, k + 1)
  {
    RunExtends(ShownStates(states, actions, k), ShownActions(states, actions, k), View(states[k]),
               ShownAs(states[k], actions[k]), View(states[k + 1]));
  }

  lemma StartReaches(states: seq<State>, actions: seq<Action>)
    requires |actions| < |states| && Init(states[0])
    ensures ReachesShown(states, actions, 0)
  {
  }

  /** Every run at the lock is a run of ThreadPool: the steps that show, in their order, lead to
      what ThreadPool sees of the state reached. */
  lemma RunRefines(states: seq<State>, actions: seq<Action>, k: nat)
    requires Run(states, actions) && k < |states|
    ensures ReachesShown(states, actions, k)
  {
    var holds := (j: nat) => j <= |actions| && ReachesShown(states, actions, j);
    StartReaches(states, actions);
    forall j: nat | j < k ensures Keeps(holds, j) {
      if holds(j) {
        RunStepFollows(states, actions, j);
        ShownExtends(states, actions, j);
      }
    }
    Chain(holds, k);
  }
}
