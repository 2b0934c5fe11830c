/** What the thread pool promises, for every number of workers and every interleaving. */
module ThreadPoolTheorems {
  import opened Tasks
  import opened AtomicQueue
  import opened ThreadPool
  import opened ThreadPoolInvariant

  // ---- Suspend is a barrier -------------------------------------------------------------

  lemma AllParked(s: State)
    requires Inv(s) && s.ctl.Suspended?
    ensures forall i :: 0 <= i < |s.ws| ==> s.ws[i].Parked? && s.ws[i].t.TPSuspend?
  {
    CountUniform(s.ws, KParked, |s.ws|);
    forall i | 0 <= i < |s.ws| ensures s.ws[i].Parked? {
      assert KindOf(s.ws[i]) == KParked;
    }
  }

  lemma HoldersDiffer(s: State, i: nat, j: nat, t: Task)
    requires Accounts(s.q, s.ws, s.done, s.added, s.nextId) && i < j < |s.ws|
    ensures !(Holds(s.ws[i], t) && Holds(s.ws[j], t))
  {
    assert Places(t, s.q.content, s.ws, s.done) <= 1;
    if Holds(s.ws[i], t) && Holds(s.ws[j], t) {
      HeldTwice(s.ws, i, j, t, |s.ws|);
    }
  }

  /** When Suspend has returned, every worker is parked, each on its own TPSuspend, and none can
      make a step before m_thread_sem is posted. */
  lemma SuspendIsBarrier(states: seq<State>, actions: seq<Action>, k: nat)
    requires Run(states, actions) && k < |states| && states[k].ctl.Suspended?
    ensures var s := states[k];
      && (forall i :: 0 <= i < |s.ws| ==> s.ws[i].Parked? && s.ws[i].t.TPSuspend?)
      && (forall i, j :: 0 <= i < j < |s.ws| ==> s.ws[i] != s.ws[j])
      && forall i, step :: !Enabled(s, Worker(i, step))
  {
    RunKeeps(states, actions, k);
    var s := states[k];
    AllParked(s);
    forall i, j | 0 <= i < j < |s.ws| ensures s.ws[i] != s.ws[j] {
      HoldersDiffer(s, i, j, s.ws[i].t);
    }
  }

  /** No worker has moved, nothing was executed, and whatever was added meanwhile is queued. */
  ghost predicate Frozen(s: State, s': State) {
    && s'.ws == s.ws && s'.done == s.done && s.q.content <= s'.q.content && s.added <= s'.added
    && forall t :: t in s'.added && t !in s.added ==> t in s'.q.content
  }

  lemma FrozenStep(states: seq<State>, actions: seq<Action>, k: nat)
    requires Run(states, actions) && k < |actions| && states[k].ctl.Suspended? && states[k + 1].ctl.Suspended?
    ensures Frozen(states[k], states[k + 1])
  {
    SuspendIsBarrier(states, actions, k);
  }

  lemma {:induction false} FrozenChain(states: seq<State>, j: nat, m: nat)
    requires j <= m < |states| && forall k :: j < k <= m ==> Frozen(states[k - 1], states[k])
    ensures Frozen(states[j], states[m])
  {
    if j < m {
      FrozenChain(states, j, m - 1);
      assert Frozen(states[m - 1], states[m]);
    }
  }

  /** Until Resume or Stop is called the workers stay parked, nothing is executed, and what other
      threads add stays queued. */
  lemma BarrierHolds(states: seq<State>, actions: seq<Action>, j: nat, m: nat)
    requires Run(states, actions) && j <= m < |states|
    requires forall k :: j <= k <= m ==> states[k].ctl.Suspended?
    ensures Frozen(states[j], states[m])
  {
    forall k | j < k <= m ensures Frozen(states[k - 1], states[k]) {
      FrozenStep(states, actions, k - 1);
    }
    FrozenChain(states, j, m);
  }

  // ---- what is queued, and what comes out -----------------------------------------------------

  /** AddTask can be called in every state. It puts a task of the priority it was given into the queue,
      and one unit into its semaphore, and does nothing else. */
  lemma AddTaskAdds(states: seq<State>, actions: seq<Action>, k: nat, priority: UserPriority) returns (t: Task)
    requires Run(states, actions) && k < |states|
    ensures Enabled(states[k], AddTask(priority))
    ensures t.User? && t.priority == priority && t !in states[k].added
    ensures var s, s' := states[k], Next(states[k], AddTask(priority));
      && s'.added == s.added + {t} && s'.q.content == s.q.content + multiset{t} && s'.q.sem == s.q.sem + 1
      && s'.ws == s.ws && s'.done == s.done && s'.ctl == s.ctl && s'.q.tickets == s.q.tickets
  {
    RunKeeps(states, actions, k);
    t := User(states[k].nextId, priority);
    assert Places(t, states[k].q.content, states[k].ws, states[k].done) == 0;
  }

  /** What a worker pops is in the queue, and a user task only when there are nothing but user tasks of
      no higher priority; the worker then holds it. */
  lemma PopsInOrder(states: seq<State>, actions: seq<Action>, k: nat, i: nat, top: Task)
    requires Run(states, actions) && k < |states| && Enabled(states[k], Worker(i, Step.Pop(top)))
    ensures top in states[k].q.content
    ensures top.User? ==> forall u :: u in states[k].q.content ==> u.User? && u.priority <= top.priority
    ensures var s, s' := states[k], Next(states[k], Worker(i, Step.Pop(top)));
      s'.ws == s.ws[i := Holding(top)] && s'.q.content == s.q.content - multiset{top} && s'.added == s.added
  {
    TopMeaning(top, states[k].q.content);
  }

  // ---- Suspend and Resume can be used again ---------------------------------------------

  /** Whenever no call is in progress and the pool is not suspended, both handshake semaphores are
      0 and no control task is left anywhere. */
  lemma ResumeCleansUp(states: seq<State>, actions: seq<Action>, k: nat)
    requires Run(states, actions) && k < |states| && states[k].ctl.Free?
    ensures var s := states[k];
      && s.mainSem == 0 && s.threadSem == 0
      && (forall t :: t in s.q.content ==> t.User?)
      && (forall i :: 0 <= i < |s.ws| ==> s.ws[i].AtWait? || s.ws[i].Ticket? || (s.ws[i].Holding? && s.ws[i].t.User?))
  {
    RunKeeps(states, actions, k);
    var s := states[k];
    assert Suspends(s.q.content) == {} && Stops(s.q.content) == {};
    forall t | t in s.q.content ensures t.User? {
      assert t !in Suspends(s.q.content) && t !in Stops(s.q.content);
    }
    forall i | 0 <= i < |s.ws|
      ensures s.ws[i].AtWait? || s.ws[i].Ticket? || (s.ws[i].Holding? && s.ws[i].t.User?)
    {
      CountMember(s.ws, i, |s.ws|);
    }
  }

  lemma {:induction false} CountMember(ws: seq<PC>, i: nat, n: nat)
    requires i < n <= |ws|
    ensures CountUpTo(ws, KindOf(ws[i]), n) >= 1
  {
    if i < n - 1 {
      CountMember(ws, i, n - 1);
    }
  }

  // ---- Stop pre-empts and conserves -----------------------------------------------------

  /** Once Stop has made its pushes, a worker that pops gets a TPStop: no user task starts. */
  lemma StopPreempts(states: seq<State>, actions: seq<Action>, k: nat, i: nat, top: Task)
    requires Run(states, actions) && k < |states| && Enabled(states[k], Worker(i, Step.Pop(top)))
    requires states[k].ctl.StopJoin? || (states[k].ctl.StopPush? && states[k].ctl.k == |states[k].ws|)
    ensures top.TPStop?
  {
    RunKeeps(states, actions, k);
    var s := states[k];
    CountMember(s.ws, i, |s.ws|);
    CountTotal(s.ws);
    assert Stops(s.q.content) != {} && Suspends(s.q.content) == {};
    var stop :| stop in Stops(s.q.content);
    assert !Less(top, stop) && top !in Suspends(s.q.content);
  }

  /** In every state each task ever added is in one place: queued, held by one worker, or executed,
      once. In particular no task is executed twice or by two workers. */
  lemma TasksAreConserved(states: seq<State>, actions: seq<Action>, k: nat, t: Task)
    requires Run(states, actions) && k < |states|
    ensures var s := states[k];
      && s.q.content[t] + Holders(s.ws, t, |s.ws|) + s.done[t] == (if t in s.added then 1 else 0)
      && (forall i, j :: 0 <= i < j < |s.ws| ==> !(Holds(s.ws[i], t) && Holds(s.ws[j], t)))
  {
    RunKeeps(states, actions, k);
    var s := states[k];
    assert Places(t, s.q.content, s.ws, s.done) == Unit(t in s.added);
    forall i, j | 0 <= i < j < |s.ws| ensures !(Holds(s.ws[i], t) && Holds(s.ws[j], t)) {
      HoldersDiffer(s, i, j, t);
    }
  }

  lemma {:induction false} IdleHoldNothing(ws: seq<PC>, k: Kind, t: Task, n: nat)
    requires n <= |ws| && CountUpTo(ws, k, n) == n && (k.KStopped? || k.KWait?)
    ensures Holders(ws, t, n) == 0
  {
    if n > 0 {
      IdleHoldNothing(ws, k, t, n - 1);
    }
  }

  /** When nobody holds a task, all those ever added are executed or queued. */
  lemma Settled(s: State, k: Kind)
    requires Inv(s) && Count(s.ws, k) == |s.ws| && (k.KStopped? || k.KWait?)
    ensures s.done + s.q.content == multiset(s.added)
  {
    forall t ensures s.done[t] + s.q.content[t] == multiset(s.added)[t] {
      IdleHoldNothing(s.ws, k, t, |s.ws|);
      assert Places(t, s.q.content, s.ws, s.done) == Unit(t in s.added);
    }
  }

  /** When Stop has returned, all workers have stopped, the handshake left nothing behind, and the
      tasks ever added are those executed and those still queued, which are user tasks. */
  lemma StopConserves(states: seq<State>, actions: seq<Action>, k: nat)
    requires Run(states, actions) && k < |states| && states[k].ctl.Finished?
    ensures var s := states[k];
      && (forall i :: 0 <= i < |s.ws| ==> s.ws[i].Stopped?)
      && s.done + s.q.content == multiset(s.added)
      && (forall t :: t in s.q.content ==> t.User?)
      && s.mainSem == 0 && s.threadSem == 0
  {
    RunKeeps(states, actions, k);
    var s := states[k];
    CountUniform(s.ws, KStopped, |s.ws|);
    CountTotal(s.ws);
    forall i | 0 <= i < |s.ws| ensures s.ws[i].Stopped? {
      assert KindOf(s.ws[i]) == KStopped;
    }
    Settled(s, KStopped);
    assert Suspends(s.q.content) == {} && Stops(s.q.content) == {};
    forall t | t in s.q.content ensures t.User? {
      assert t !in Suspends(s.q.content) && t !in Stops(s.q.content);
    }
  }

  // ---- calls return ---------------------------------------------------------------------

  predicate Busy(ctl: Ctl) {
    !ctl.Free? && !ctl.Suspended? && !ctl.Finished?
  }

  /** Every step that a worker makes lowers its rank, paid for at a pop by the element popped. */
  function Rank(k: Kind): nat {
    match k
    case KWait => 3
    case KTicket => 2
    case KUser => 4
    case KStop => 1
    case KSuspend => 6
    case KParked => 5
    case KWoken => 4
    case KStopped => 0
  }

  function Ranks(ws: seq<PC>, n: nat): nat
    requires n <= |ws|
  {
    if n == 0 then 0 else Ranks(ws, n - 1) + Rank(KindOf(ws[n - 1]))
  }

  lemma {:induction false} RanksUpdate(ws: seq<PC>, i: nat, pc: PC, n: nat)
    requires i < |ws| && n <= |ws|
    ensures Ranks(ws[i := pc], n) + (if i < n then Rank(KindOf(ws[i])) else 0)
         == Ranks(ws, n) + (if i < n then Rank(KindOf(pc)) else 0)
  {
    if n > 0 {
      RanksUpdate(ws, i, pc, n - 1);
    }
  }

  /** What the controller has still to do before its call returns. */
  function Remaining(ctl: Ctl, n: nat): int {
    match ctl
    case SuspendPush(k) => 6 * (n - k) + n + 2
    case SuspendWait(k) => n - k + 1
    case ResumePost(k) => n - k + n + 2
    case ResumeWait(k) => n - k + 1
    case StopPush(k, _) => 6 * (n - k) + n + 2
    case StopJoin(k, _) => n - k + 1
    case _ => 0
  }

  function Measure(s: State): int {
    Ranks(s.ws, |s.ws|) + 5 * |s.q.content| + Remaining(s.ctl, |s.ws|)
  }

  lemma MeasureNat(s: State)
    requires Inv(s)
    ensures 0 <= Measure(s)
  {
  }

  lemma WorkerDecreases(s: State, i: nat, step: Step)
    requires Inv(s) && i < |s.ws| && WorkerEnabled(s.ws[i], s.q, s.threadSem, step)
    ensures Measure(WorkerStep(s, i, step)) < Measure(s)
  {
    var s' := WorkerStep(s, i, step);
    StepShape(s, i, step);
    RanksUpdate(s.ws, i, s'.ws[i], |s.ws|);
  }

  /** While a call is in progress every step of a worker or of the controller lowers the measure;
      a task added from outside raises it by 5. */
  lemma StepDecreases(s: State, a: Action)
    requires Inv(s) && Busy(s.ctl) && Enabled(s, a)
    ensures if a.AddTask? then Measure(Next(s, a)) == Measure(s) + 5 else Measure(Next(s, a)) < Measure(s)
  {
    if a.Worker? {
      WorkerDecreases(s, a.i, a.step);
    }
  }

  lemma RunStepDecreases(states: seq<State>, actions: seq<Action>, k: nat)
    requires Run(states, actions) && k < |actions| && Busy(states[k].ctl)
    ensures Measure(states[k + 1]) + 1 <= Measure(states[k]) + (if actions[k].AddTask? then 6 else 0)
  {
    RunKeeps(states, actions, k);
    StepDecreases(states[k], actions[k]);
  }

  /** How many of `actions[j..m]` add a task from outside. */
  function Additions(actions: seq<Action>, j: nat, m: nat): nat
    requires j <= m <= |actions|
  {
    if j == m then 0 else Additions(actions, j, m - 1) + Unit(actions[m - 1].AddTask?)
  }

  lemma {:induction false} Telescope(ms: seq<int>, actions: seq<Action>, j: nat, m: nat)
    requires j <= m < |ms| == |actions| + 1
    requires forall k :: j <= k < m ==> ms[k + 1] + 1 <= ms[k] + (if actions[k].AddTask? then 6 else 0)
    ensures (m - j) + ms[m] <= ms[j] + 6 * Additions(actions, j, m)
  {
    if j < m {
      Telescope(ms, actions, j, m - 1);
      assert ms[m - 1 + 1] == ms[m];
    }
  }

  /** The number of steps made during one call is bounded, given how many tasks come from outside. */
  lemma CallIsBounded(states: seq<State>, actions: seq<Action>, j: nat, m: nat)
    requires Run(states, actions) && j <= m < |states|
    requires forall k :: j <= k < m ==> Busy(states[k].ctl)
    ensures (m - j) + Measure(states[m]) <= Measure(states[j]) + 6 * Additions(actions, j, m)
    ensures 0 <= Measure(states[m])
  {
    var ms := seq(|states|, k requires 0 <= k < |states| => Measure(states[k]));
    forall k | j <= k < m ensures ms[k + 1] + 1 <= ms[k] + (if actions[k].AddTask? then 6 else 0) {
      RunStepDecreases(states, actions, k);
    }
    Telescope(ms, actions, j, m);
    RunKeeps(states, actions, m);
    MeasureNat(states[m]);
  }

  /** A worker that has passed the semaphore, or holds a task, can go on. */
  lemma WorkerGoesOn(s: State, i: nat) returns (a: Action)
    requires Inv(s) && i < |s.ws| && (s.ws[i].Ticket? || s.ws[i].Holding? || s.ws[i].Woken?)
    ensures a.Worker? && Enabled(s, a) && (s.ws[i].Woken? ==> a.step.PostAgain?)
  {
    if s.ws[i].Ticket? {
      CountMember(s.ws, i, |s.ws|);
      TopExists(s.q.content);
      var top :| IsTop(top, s.q.content);
      a := Worker(i, Step.Pop(top));
    } else if s.ws[i].Woken? {
      a := Worker(i, PostAgain);
    } else {
      a := Worker(i, if s.ws[i].t.User? then EndUser else if s.ws[i].t.TPStop? then CatchStop else CatchSuspend);
    }
  }

  /** A worker in Pop goes on when the queue holds a task, or another worker does. */
  lemma QueueGoesOn(s: State) returns (a: Action)
    requires Inv(s) && |s.q.content| > 0
    requires Count(s.ws, KParked) + Count(s.ws, KStopped) + Count(s.ws, KWoken) < |s.ws|
    ensures a.Worker? && Enabled(s, a)
  {
    CountTotal(s.ws);
    var i;
    if Count(s.ws, KTicket) >= 1 {
      i := CountWitness(s.ws, KTicket, |s.ws|);
      a := WorkerGoesOn(s, i);
    } else if Count(s.ws, KWait) >= 1 {
      i := CountWitness(s.ws, KWait, |s.ws|);
      a := Worker(i, Wait);
    } else {
      i := CountWitness(s.ws, if Count(s.ws, KUser) >= 1 then KUser else if Count(s.ws, KStop) >= 1 then KStop else KSuspend, |s.ws|);
      a := WorkerGoesOn(s, i);
    }
  }

  /** The phases whose controller waits for the workers to pop its control tasks. */
  lemma PopsGoOn(s: State) returns (a: Action)
    requires Inv(s) && Count(s.ws, KParked) + Count(s.ws, KStopped) < |s.ws| && Count(s.ws, KWoken) == 0
    requires |Suspends(s.q.content)| + |Stops(s.q.content)| + Count(s.ws, KSuspend) + Count(s.ws, KStop) > 0
    ensures a.Worker? && Enabled(s, a)
  {
    if Count(s.ws, KSuspend) >= 1 {
      var i := CountWitness(s.ws, KSuspend, |s.ws|);
      a := WorkerGoesOn(s, i);
    } else if Count(s.ws, KStop) >= 1 {
      var i := CountWitness(s.ws, KStop, |s.ws|);
      a := WorkerGoesOn(s, i);
    } else {
      assert Suspends(s.q.content) != {} || Stops(s.q.content) != {};
      assert exists t :: t in s.q.content;
      a := QueueGoesOn(s);
    }
  }

  /** The steps that a call waits for: the controller's own, those of all workers while they are to
      take control tasks, and the two with which a parked worker returns to work. */
  predicate Helps(ctl: Ctl, a: Action) {
    || a.Control?
    || (a.Worker? && (ctl.SuspendWait? || ctl.StopJoin?))
    || (a.Worker? && ctl.ResumeWait? && (a.step.Wake? || a.step.PostAgain?))
  }

  /** No call deadlocks, unless it is a Stop of a suspended pool. */
  lemma CallGoesOn(s: State) returns (a: Action)
    requires Inv(s) && Busy(s.ctl) && !(s.ctl.StopJoin? && s.ctl.parked)
    ensures Helps(s.ctl, a) && Enabled(s, a)
  {
    a := Control(Call.Stop);
    if !ControlEnabled(s, Call.Stop) {
      if s.ctl.ResumeWait? {
        if Count(s.ws, KWoken) >= 1 {
          var i := CountWitness(s.ws, KWoken, |s.ws|);
          a := WorkerGoesOn(s, i);
        } else {
          var i := CountWitness(s.ws, KParked, |s.ws|);
          a := Worker(i, Wake);
        }
      } else {
        CountUniform(s.ws, KStopped, |s.ws|);
        a := PopsGoOn(s);
      }
    }
  }

  /** Every call returns: a run that no worker and no controller step can extend is not inside a
      call, except in a Stop of a suspended pool. */
  lemma CallsReturn(states: seq<State>, actions: seq<Action>)
    requires Run(states, actions)
    requires forall a :: Enabled(states[|actions|], a) ==> a.AddTask?
    ensures Busy(states[|actions|].ctl) ==> states[|actions|].ctl.StopJoin? && states[|actions|].ctl.parked
  {
    var s := states[|actions|];
    RunKeeps(states, actions, |actions|);
    if Busy(s.ctl) && !(s.ctl.StopJoin? && s.ctl.parked) {
      var a := CallGoesOn(s);
    }
  }

  /** Stop was called on a free pool before state `k`. */
  ghost predicate StoppedAwake(states: seq<State>, actions: seq<Action>, k: nat)
    requires k <= |actions| < |states|
  {
    exists j :: 0 <= j < k && states[j].ctl.Free? && actions[j] == Control(Call.Stop)
  }

  /** Where a Stop came from: `parked` says whether the pool was suspended. */
  predicate InAwakeStop(ctl: Ctl) {
    (ctl.StopPush? || ctl.StopJoin?) && !ctl.parked
  }

  /** The join of a Stop that was called on a suspended pool never ends. */
  lemma ParkedStopStays(s: State, call: Call)
    requires Inv(s) && s.ctl.StopJoin? && s.ctl.parked
    ensures !ControlEnabled(s, call)
  {
    CountUniform(s.ws, KParked, |s.ws|);
    assert KindOf(s.ws[0]) == KParked;
  }

  lemma CtlMoves(s: State, a: Action)
    requires Enabled(s, a)
    ensures Next(s, a).ctl == if a.Control? then NextCtl(s.ctl, a.call, |s.ws|) else s.ctl
  {
  }

  lemma StopFollows(ctl: Ctl, call: Call, n: nat)
    requires InAwakeStop(NextCtl(ctl, call, n)) || NextCtl(ctl, call, n).Finished?
    ensures InAwakeStop(ctl) || ctl.Finished? || (ctl.StopJoin? && ctl.parked) || (ctl.Free? && call.Stop?)
  {
  }

  /** The last step before a state inside a Stop, or after it: a step inside it, or its call. */
  lemma StopComesFrom(s: State, a: Action)
    requires Inv(s) && Enabled(s, a) && (InAwakeStop(Next(s, a).ctl) || Next(s, a).ctl.Finished?)
    ensures InAwakeStop(s.ctl) || s.ctl.Finished? || (s.ctl.Free? && a == Control(Call.Stop))
  {
    CtlMoves(s, a);
    if a.Control? {
      StopFollows(s.ctl, a.call, |s.ws|);
      if s.ctl.StopJoin? && s.ctl.parked {
        ParkedStopStays(s, a.call);
      }
    }
  }

  /** Stop returns only for a pool that was free when it was called, not for a suspended one. */
  lemma {:induction false} StopReturnsOnlyAwake(states: seq<State>, actions: seq<Action>, k: nat)
    requires Run(states, actions) && k < |states| && (InAwakeStop(states[k].ctl) || states[k].ctl.Finished?)
    ensures StoppedAwake(states, actions, k)
  {
    if k > 0 {
      RunKeeps(states, actions, k - 1);
      StopComesFrom(states[k - 1], actions[k - 1]);
      if InAwakeStop(states[k - 1].ctl) || states[k - 1].ctl.Finished? {
        StopReturnsOnlyAwake(states, actions, k - 1);
      }
    }
  }

  /** A Stop of a suspended pool hangs: it joins no worker, and nothing but AddTask can happen. */
  lemma StopWhileSuspendedHangs(states: seq<State>, actions: seq<Action>, k: nat, a: Action)
    requires Run(states, actions) && k < |states| && states[k].ctl.StopJoin? && states[k].ctl.parked
    ensures states[k].ctl.k == 0
    ensures Enabled(states[k], a) <==> a.AddTask?
  {
    RunKeeps(states, actions, k);
    var s := states[k];
    CountUniform(s.ws, KParked, |s.ws|);
    forall i | 0 <= i < |s.ws| ensures s.ws[i].Parked? {
      assert KindOf(s.ws[i]) == KParked;
    }
    assert s.ws[0].Parked?;
  }

  /** A pool that is neither suspended nor in a call gets everything done: when no worker can make
      a step, every task ever added has been executed, once. */
  lemma AllTasksExecuted(states: seq<State>, actions: seq<Action>)
    requires Run(states, actions) && states[|actions|].ctl.Free?
    requires forall i, step :: !Enabled(states[|actions|], Worker(i, step))
    ensures states[|actions|].done == multiset(states[|actions|].added)
    ensures states[|actions|].q.content == multiset{}
  {
    var s := states[|actions|];
    RunKeeps(states, actions, |actions|);
    ResumeCleansUp(states, actions, |actions|);
    forall i | 0 <= i < |s.ws| ensures KindOf(s.ws[i]) == KWait {
      if !s.ws[i].AtWait? {
        var a := WorkerGoesOn(s, i);
      }
    }
    CountUniform(s.ws, KWait, |s.ws|);
    CountTotal(s.ws);
    assert !Enabled(s, Worker(0, Wait));
    Settled(s, KWait);
  }
}
