/** src/thread_pool.cpp as a step system: N workers in ThreadFunc, one controller that calls
    Suspend, Resume and Stop, and any other threads that call AddTask. Queue operations are the
    steps of AtomicQueue, which the lock-level queue refines. */
module ThreadPool {
  import opened Tasks
  import opened AtomicQueue

  /** Where a worker is in ThreadFunc. */
  datatype PC =
    | AtWait            // in Pop, before m_sem.Wait
    | Ticket            // in Pop, past the semaphore
    | Holding(t: Task)  // popped `t`: runs a user task, or is about to catch a ThreadMsg
    | Parked(t: Task)   // caught SUSPEND, posted m_main_sem, in m_thread_sem.Wait
    | Woken(t: Task)    // past m_thread_sem.Wait, before the second m_main_sem.Post
    | Stopped(t: Task)  // caught STOP, left the loop

  /** Where the controller is. `k` counts the turns of the loop it is in; `parked` records that
      Stop was called while the pool was suspended. */
  datatype Ctl =
    | Free
    | SuspendPush(k: nat) | SuspendWait(k: nat) | Suspended
    | ResumePost(k: nat) | ResumeWait(k: nat)
    | StopPush(k: nat, parked: bool) | StopJoin(k: nat, parked: bool) | Finished(parked: bool)

  datatype State = State(
    ws: seq<PC>,
    q: Queue,              // m_task_queue
    mainSem: nat,          // m_main_sem
    threadSem: nat,        // m_thread_sem
    ctl: Ctl,
    nextId: nat,
    added: set<Task>,      // history: every task ever pushed
    done: multiset<Task>)  // history: tasks whose execution ended, once per execution

  ghost predicate Init(s: State) {
    && |s.ws| >= 1 && (forall i :: 0 <= i < |s.ws| ==> s.ws[i] == AtWait)
    && s.q == Queue(multiset{}, 0, 0) && s.mainSem == 0 && s.threadSem == 0 && s.ctl == Free
    && s.added == {} && s.done == multiset{}
  }

  datatype Action =
    | AddTask(priority: UserPriority)  // from any thread, at any moment
    | Control(call: Call)              // the controller's next step, or the call it begins
    | Worker(i: nat, step: Step)       // worker i's next step

  datatype Call = Suspend | Resume | Stop

  /** The steps of ThreadFunc, in the order of its lines. */
  datatype Step =
    | Wait             // Pop: m_sem.Wait() returns
    | Pop(top: Task)   // Pop: LockAndPop() takes a top
    | EndUser          // task->Execute() of a user task returns
    | CatchStop        // ThreadMsg STOP: run = DONT_RUN
    | CatchSuspend     // ThreadMsg SUSPEND: m_main_sem.Post()
    | Wake             // m_thread_sem.Wait() returns
    | PostAgain        // the second m_main_sem.Post()

  // ---- workers --------------------------------------------------------------------------

  ghost predicate WorkerEnabled(pc: PC, q: Queue, threadSem: nat, step: Step) {
    match step
    case Wait => pc.AtWait? && q.sem > 0
    case Pop(top) => pc.Ticket? && q.tickets > 0 && IsTop(top, q.content)
    case EndUser => pc.Holding? && pc.t.User?
    case CatchStop => pc.Holding? && pc.t.TPStop?
    case CatchSuspend => pc.Holding? && pc.t.TPSuspend?
    case Wake => pc.Parked? && threadSem > 0
    case PostAgain => pc.Woken?
  }

  /** Worker `i` goes to `pc`. */
  function Goes(s: State, i: nat, pc: PC): State
    requires i < |s.ws|
  {
    s.(ws := s.ws[i := pc])
  }

  ghost function WorkerStep(s: State, i: nat, step: Step): State
    requires i < |s.ws| && WorkerEnabled(s.ws[i], s.q, s.threadSem, step)
  {
    var pc := s.ws[i];
    match step
    case Wait => Goes(s, i, Ticket).(q := Take(s.q))
    case Pop(top) => Goes(s, i, Holding(top)).(q := Remove(s.q, top))
    case EndUser => Goes(s, i, AtWait).(done := s.done + multiset{pc.t})
    case CatchStop => Goes(s, i, Stopped(pc.t)).(done := s.done + multiset{pc.t})
    case CatchSuspend => Goes(s, i, Parked(pc.t)).(mainSem := s.mainSem + 1)
    case Wake => Goes(s, i, Woken(pc.t)).(threadSem := s.threadSem - 1)
    case PostAgain => Goes(s, i, AtWait).(mainSem := s.mainSem + 1, done := s.done + multiset{pc.t})
  }

  // ---- the controller and the other callers -----------------------------------------------

  function Pushed(s: State, t: Task): State {
    s.(q := Push(s.q, t), nextId := s.nextId + 1, added := s.added + {t})
  }

  /** Suspend and Resume alternate, as the source's own test calls them; Stop may come at Free or
      while suspended. */
  ghost predicate ControlEnabled(s: State, call: Call) {
    match s.ctl
    case Free => call.Suspend? || call.Stop?
    case Suspended => call.Resume? || call.Stop?
    case SuspendWait(k) => k < |s.ws| ==> s.mainSem > 0
    case ResumeWait(k) => k < |s.ws| ==> s.mainSem > 0
    case StopJoin(k, _) => k < |s.ws| ==> s.ws[k].Stopped?
    case Finished(_) => false
    case _ => true
  }

  /** Where the controller goes next; `n` is `thread_num`. */
  function NextCtl(ctl: Ctl, call: Call, n: nat): Ctl {
    match ctl
    case Free => if call.Stop? then StopPush(0, false) else SuspendPush(0)
    case SuspendPush(k) => if k < n then SuspendPush(k + 1) else SuspendWait(0)
    case SuspendWait(k) => if k < n then SuspendWait(k + 1) else Suspended
    case Suspended => if call.Stop? then StopPush(0, true) else ResumePost(0)
    case ResumePost(k) => if k < n then ResumePost(k + 1) else ResumeWait(0)
    case ResumeWait(k) => if k < n then ResumeWait(k + 1) else Free
    case StopPush(k, parked) => if k < n then StopPush(k + 1, parked) else StopJoin(0, parked)
    case StopJoin(k, parked) => if k < n then StopJoin(k + 1, parked) else Finished(parked)
    case Finished(_) => ctl
  }

  /** `m_main_sem.Wait()`, counted once per turn. */
  predicate WaitsMain(ctl: Ctl, n: nat) {
    (ctl.SuspendWait? || ctl.ResumeWait?) && ctl.k < n
  }

  /** A turn of the loop that pushes `thread_num` control tasks. */
  predicate Pushes(ctl: Ctl, n: nat) {
    (ctl.SuspendPush? || ctl.StopPush?) && ctl.k < n
  }

  function ControlTask(ctl: Ctl, id: nat): Task {
    if ctl.StopPush? then TPStop(id) else TPSuspend(id)
  }

  /** `m_thread_sem.Post()`, once per turn of Resume's first loop. */
  predicate Wakes(ctl: Ctl, n: nat) {
    ctl.ResumePost? && ctl.k < n
  }

  function ControlStep(s: State, call: Call): State {
    var n := |s.ws|;
    if Pushes(s.ctl, n) then
      Pushed(s, ControlTask(s.ctl, s.nextId)).(ctl := NextCtl(s.ctl, call, n))
    else
      s.(ctl := NextCtl(s.ctl, call, n),
         mainSem := if WaitsMain(s.ctl, n) && s.mainSem > 0 then s.mainSem - 1 else s.mainSem,
         threadSem := if Wakes(s.ctl, n) then s.threadSem + 1 else s.threadSem)
  }

  ghost predicate Enabled(s: State, a: Action) {
    match a
    case AddTask(_) => true
    case Control(call) => ControlEnabled(s, call)
    case Worker(i, step) => i < |s.ws| && WorkerEnabled(s.ws[i], s.q, s.threadSem, step)
  }

  ghost function Next(s: State, a: Action): State
    requires Enabled(s, a)
  {
    match a
    case AddTask(p) => Pushed(s, User(s.nextId, p))
    case Control(call) => ControlStep(s, call)
    case Worker(i, step) => WorkerStep(s, i, step)
  }

  /** Any interleaving. */
  ghost predicate Run(states: seq<State>, actions: seq<Action>) {
    && |states| == |actions| + 1
    && Init(states[0])
    && forall k :: 0 <= k < |actions| ==>
         Enabled(states[k], actions[k]) && states[k + 1] == Next(states[k], actions[k])
  }
}
