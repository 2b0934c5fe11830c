/** Calls return whatever other threads add meanwhile, and every situation that the statements about
    calls speak of is reached by some run, for every number of workers. */
module ThreadPoolProgress {
  import opened Tasks
  import opened AtomicQueue
  import opened ThreadPool
  import opened ThreadPoolInvariant
  import opened ThreadPoolTheorems

  // ---- how far a call is from returning ---------------------------------------------------

  /** How many steps a worker makes before it parks or stops. */
  function ToRest(k: Kind): nat {
    match k
    case KUser => 4
    case KWait => 3
    case KTicket => 2
    case KStop => 1
    case KSuspend => 1
    case KWoken => 4
    case KParked => 0
    case KStopped => 0
  }

  /** How many steps a parked worker makes before it is back in the loop. */
  function ToWork(k: Kind): nat {
    match k
    case KParked => 2
    case KWoken => 1
    case _ => 0
  }

  function Cost(resuming: bool, k: Kind): nat {
    if resuming then ToWork(k) else ToRest(k)
  }

  function Costs(resuming: bool, ws: seq<PC>, n: nat): (c: nat)
    requires n <= |ws|
    ensures c <= (if resuming then 2 else 4) * n
  {
    if n == 0 then 0 else Costs(resuming, ws, n - 1) + Cost(resuming, KindOf(ws[n - 1]))
  }

  lemma {:induction false} CostsUpdate(resuming: bool, ws: seq<PC>, i: nat, pc: PC, n: nat)
    requires i < |ws| && n <= |ws|
    ensures Costs(resuming, ws[i := pc], n) + (if i < n then Cost(resuming, KindOf(ws[i])) else 0)
         == Costs(resuming, ws, n) + (if i < n then Cost(resuming, KindOf(pc)) else 0)
  {
    if n > 0 {
      CostsUpdate(resuming, ws, i, pc, n - 1);
    }
  }

  /** The helpful steps that are left before the call in progress returns. The queue plays no part. */
  function Ahead(ctl: Ctl, ws: seq<PC>): int {
    var n := |ws|;
    match ctl
    case SuspendPush(k) => n - k + 5 * n + 3
    case SuspendWait(k) => Costs(false, ws, n) + n - k + 1
    case ResumePost(k) => n - k + 3 * n + 3
    case ResumeWait(k) => Costs(true, ws, n) + n - k + 1
    case StopPush(k, _) => n - k + 5 * n + 3
    case StopJoin(k, _) => Costs(false, ws, n) + n - k + 1
    case _ => 0
  }

  lemma AheadBounded(s: State)
    requires Inv(s)
    ensures 0 <= Ahead(s.ctl, s.ws) <= 6 * |s.ws| + 3
  {
  }

  /** While Suspend waits or Stop joins, a worker that pops gets a control task. */
  lemma PopsControlTask(s: State, i: nat, top: Task)
    requires Inv(s) && (s.ctl.SuspendWait? || s.ctl.StopJoin?)
    requires i < |s.ws| && WorkerEnabled(s.ws[i], s.q, s.threadSem, Step.Pop(top))
    ensures !top.User?
  {
    CountMember(s.ws, i, |s.ws|);
    CountTotal(s.ws);
    assert Suspends(s.q.content) != {} || Stops(s.q.content) != {};
    assert exists u :: u in s.q.content && !u.User?;
    var u :| u in s.q.content && !u.User?;
    assert !Less(top, u);
  }

  lemma RestingStep(s: State, i: nat, step: Step)
    requires Inv(s) && (s.ctl.SuspendWait? || s.ctl.StopJoin?)
    requires i < |s.ws| && WorkerEnabled(s.ws[i], s.q, s.threadSem, step)
    ensures ToRest(KindOf(WorkerStep(s, i, step).ws[i])) < ToRest(KindOf(s.ws[i]))
  {
    if step.Pop? {
      PopsControlTask(s, i, step.top);
    }
  }

  lemma WorkingStep(s: State, i: nat, step: Step)
    requires Inv(s) && s.ctl.ResumeWait?
    requires i < |s.ws| && WorkerEnabled(s.ws[i], s.q, s.threadSem, step)
    ensures ToWork(KindOf(WorkerStep(s, i, step).ws[i])) + Unit(step.Wake? || step.PostAgain?) == ToWork(KindOf(s.ws[i]))
  {
    CountMember(s.ws, i, |s.ws|);
  }

  lemma WorkerAhead(s: State, i: nat, step: Step)
    requires Inv(s) && Busy(s.ctl) && i < |s.ws| && WorkerEnabled(s.ws[i], s.q, s.threadSem, step)
    ensures var s' := WorkerStep(s, i, step);
      if Helps(s.ctl, Worker(i, step)) then Ahead(s'.ctl, s'.ws) < Ahead(s.ctl, s.ws)
      else Ahead(s'.ctl, s'.ws) == Ahead(s.ctl, s.ws)
  {
    var s' := WorkerStep(s, i, step);
    StepShape(s, i, step);
    CostsUpdate(s.ctl.ResumeWait?, s.ws, i, s'.ws[i], |s.ws|);
    if s.ctl.SuspendWait? || s.ctl.StopJoin? {
      RestingStep(s, i, step);
    } else if s.ctl.ResumeWait? {
      WorkingStep(s, i, step);
    }
  }

  lemma ControlAhead(s: State, call: Call)
    requires Inv(s) && Busy(s.ctl) && ControlEnabled(s, call)
    ensures var s' := ControlStep(s, call); Ahead(s'.ctl, s'.ws) < Ahead(s.ctl, s.ws)
  {
    var c, d := Costs(false, s.ws, |s.ws|), Costs(true, s.ws, |s.ws|);
  }

  /** During a call a helpful step brings the return nearer, and no other step puts it off: neither
      a task from outside, nor one that a resumed worker executes. */
  lemma StepAhead(s: State, a: Action)
    requires Inv(s) && Busy(s.ctl) && Enabled(s, a)
    ensures if Helps(s.ctl, a) then Ahead(Next(s, a).ctl, Next(s, a).ws) < Ahead(s.ctl, s.ws)
            else Ahead(Next(s, a).ctl, Next(s, a).ws) == Ahead(s.ctl, s.ws)
  {
    match a
    case AddTask(_) =>
    case Control(call) => ControlAhead(s, call);
    case Worker(i, step) => WorkerAhead(s, i, step);
  }

  /** How many of the steps j..m help. */
  function Help(states: seq<State>, actions: seq<Action>, j: nat, m: nat): nat
    requires j <= m <= |actions| < |states|
  {
    if j == m then 0 else Help(states, actions, j, m - 1) + Unit(Helps(states[m - 1].ctl, actions[m - 1]))
  }

  lemma {:induction false} HelpTelescopes(states: seq<State>, actions: seq<Action>, ms: seq<int>, j: nat, m: nat)
    requires j <= m <= |actions| < |states| == |ms|
    requires forall k :: j <= k < m ==> ms[k + 1] + Unit(Helps(states[k].ctl, actions[k])) <= ms[k]
    ensures Help(states, actions, j, m) + ms[m] <= ms[j]
  {
    if j < m {
      HelpTelescopes(states, actions, ms, j, m - 1);
      assert ms[m - 1 + 1] == ms[m];
    }
  }

  lemma RunStepAhead(states: seq<State>, actions: seq<Action>, k: nat)
    requires Run(states, actions) && k < |actions| && Busy(states[k].ctl)
    ensures Ahead(states[k + 1].ctl, states[k + 1].ws) + Unit(Helps(states[k].ctl, actions[k]))
            <= Ahead(states[k].ctl, states[k].ws)
  {
    RunKeeps(states, actions, k);
    StepAhead(states[k], actions[k]);
  }

  /** A call of Suspend, Resume or Stop needs at most 6 * N + 3 helpful steps, whatever is queued and
      however much is added while it lasts. From the last push on, all steps of workers and
      controller are helpful in Suspend and Stop, so the workers make no others. */
  lemma CallNeedsBoundedHelp(states: seq<State>, actions: seq<Action>, j: nat, m: nat)
    requires Run(states, actions) && j <= m < |states|
    requires forall k :: j <= k < m ==> Busy(states[k].ctl)
    ensures Help(states, actions, j, m) + Ahead(states[m].ctl, states[m].ws) <= Ahead(states[j].ctl, states[j].ws)
    ensures 0 <= Ahead(states[m].ctl, states[m].ws) && Ahead(states[j].ctl, states[j].ws) <= 6 * |states[j].ws| + 3
  {
    var ms := seq(|states|, k requires 0 <= k < |states| => Ahead(states[k].ctl, states[k].ws));
    forall k | j <= k < m ensures ms[k + 1] + Unit(Helps(states[k].ctl, actions[k])) <= ms[k] {
      RunStepAhead(states, actions, k);
    }
    HelpTelescopes(states, actions, ms, j, m);
    RunKeeps(states, actions, j);
    RunKeeps(states, actions, m);
    AheadBounded(states[j]);
    AheadBounded(states[m]);
  }

  /** How many of `actions[j..m]` are steps of a worker or the controller. */
  function OwnSteps(actions: seq<Action>, j: nat, m: nat): nat
    requires j <= m <= |actions|
  {
    if j == m then 0 else OwnSteps(actions, j, m - 1) + Unit(!actions[m - 1].AddTask?)
  }

  lemma {:induction false} AllHelp(states: seq<State>, actions: seq<Action>, j: nat, m: nat)
    requires j <= m <= |actions| < |states|
    requires forall k :: j <= k < m ==> states[k].ctl.SuspendWait? || states[k].ctl.StopJoin?
    ensures Help(states, actions, j, m) == OwnSteps(actions, j, m)
  {
    if j < m {
      AllHelp(states, actions, j, m - 1);
    }
  }

  /** Once Suspend waits or Stop joins, N workers and the controller make at most 5 * N + 1 steps
      before it returns, however many tasks other threads add. */
  lemma WaitIsBounded(states: seq<State>, actions: seq<Action>, j: nat, m: nat)
    requires Run(states, actions) && j <= m < |states|
    requires forall k :: j <= k < m ==> states[k].ctl.SuspendWait? || states[k].ctl.StopJoin?
    ensures OwnSteps(actions, j, m) <= 5 * |states[j].ws| + 1
  {
    if j < m {
      CallNeedsBoundedHelp(states, actions, j, m);
      AllHelp(states, actions, j, m);
    }
  }

  // ---- every call can return --------------------------------------------------------------

  lemma Extend(states: seq<State>, actions: seq<Action>, a: Action)
    requires Run(states, actions) && Enabled(states[|actions|], a)
    ensures Run(states + [Next(states[|actions|], a)], actions + [a])
  {
    var ss, acts := states + [Next(states[|actions|], a)], actions + [a];
    forall k | 0 <= k < |acts| ensures Enabled(ss[k], acts[k]) && ss[k + 1] == Next(ss[k], acts[k]) {
      if k < |actions| {
        assert ss[k] == states[k] && ss[k + 1] == states[k + 1] && acts[k] == actions[k];
      }
    }
  }

  lemma SameWorkers(s: State, a: Action)
    requires Enabled(s, a)
    ensures |Next(s, a).ws| == |s.ws|
  {
  }

  /** Where the call in progress leads. A Stop of a suspended pool leads to its join only. */
  function Target(ctl: Ctl): Ctl {
    match ctl
    case SuspendPush(_) => Suspended
    case SuspendWait(_) => Suspended
    case ResumePost(_) => Free
    case ResumeWait(_) => Free
    case StopPush(_, parked) => if parked then StopJoin(0, true) else Finished(false)
    case StopJoin(_, parked) => if parked then ctl else Finished(false)
    case _ => ctl
  }

  lemma TargetStays(s: State, a: Action)
    requires Enabled(s, a) && s.ctl != Target(s.ctl)
    ensures Target(Next(s, a).ctl) == Target(s.ctl)
  {
  }

  /** From every reachable state inside a call, some continuation of the run leads to its return. */
  lemma CallCanReturn(states: seq<State>, actions: seq<Action>) returns (ss: seq<State>, acts: seq<Action>)
    requires Run(states, actions)
    ensures Run(ss, acts) && states <= ss && actions <= acts
    ensures ss[|acts|].ctl == Target(states[|actions|].ctl) && |ss[|acts|].ws| == |states[|actions|].ws|
    decreases if Busy(states[|actions|].ctl) then Ahead(states[|actions|].ctl, states[|actions|].ws) + 1 else 0
  {
    var s := states[|actions|];
    if s.ctl == Target(s.ctl) {
      ss, acts := states, actions;
    } else {
      RunKeeps(states, actions, |actions|);
      var a := CallGoesOn(s);
      StepAhead(s, a);
      TargetStays(s, a);
      SameWorkers(s, a);
      Extend(states, actions, a);
      NextKeeps(s, a);
      AheadBounded(Next(s, a));
      ss, acts := CallCanReturn(states + [Next(s, a)], actions + [a]);
    }
  }

  function Start(n: nat): State {
    State(seq(n, _ => AtWait), Queue(multiset{}, 0, 0), 0, 0, Free, 0, {}, multiset{})
  }

  /** For every number of workers Suspend does return in some run. */
  lemma SuspendedIsReached(n: nat) returns (states: seq<State>, actions: seq<Action>)
    requires n >= 1
    ensures Run(states, actions) && states[|actions|].ctl == Suspended && |states[|actions|].ws| == n
  {
    var s := Start(n);
    Extend([s], [], Control(Suspend));
    states, actions := CallCanReturn([s] + [Next(s, Control(Suspend))], [] + [Control(Suspend)]);
  }

  /** For every number of workers there is a run in which Stop is called on a suspended pool and
      hangs in its join. */
  lemma HangIsReached(n: nat) returns (states: seq<State>, actions: seq<Action>)
    requires n >= 1
    ensures Run(states, actions) && states[|actions|].ctl == StopJoin(0, true) && |states[|actions|].ws| == n
    ensures forall a :: Enabled(states[|actions|], a) ==> a.AddTask?
  {
    states, actions := SuspendedIsReached(n);
    states, actions := StopHangs(states, actions);
  }

  // ---- each call does what it is called for ---------------------------------------------------

  /** From every reachable state outside of calls, each call that is supported there can be made, and
      some continuation of the run leads to its return. */
  lemma CallIsMade(states: seq<State>, actions: seq<Action>, call: Call) returns (ss: seq<State>, acts: seq<Action>)
    requires Run(states, actions) && Enabled(states[|actions|], Control(call))
    requires states[|actions|].ctl.Free? || states[|actions|].ctl.Suspended?
    ensures Run(ss, acts) && states <= ss && actions + [Control(call)] <= acts
    ensures |ss[|acts|].ws| == |states[|actions|].ws|
    ensures ss[|acts|].ctl == Target(NextCtl(states[|actions|].ctl, call, |states[|actions|].ws|))
  {
    var s, a := states[|actions|], Control(call);
    Extend(states, actions, a);
    ss, acts := CallCanReturn(states + [Next(s, a)], actions + [a]);
  }

  /** Suspend: a pool that is free can be suspended, and all its workers are then parked. */
  lemma SuspendReturns(states: seq<State>, actions: seq<Action>) returns (ss: seq<State>, acts: seq<Action>)
    requires Run(states, actions) && states[|actions|].ctl.Free?
    ensures Run(ss, acts) && states <= ss && actions + [Control(Suspend)] <= acts
    ensures ss[|acts|].ctl.Suspended? && |ss[|acts|].ws| == |states[|actions|].ws|
    ensures forall i :: 0 <= i < |ss[|acts|].ws| ==> ss[|acts|].ws[i].Parked? && ss[|acts|].ws[i].t.TPSuspend?
  {
    ss, acts := CallIsMade(states, actions, Suspend);
    SuspendIsBarrier(ss, acts, |acts|);
  }

  /** Resume: a suspended pool can be resumed, and no worker is then parked any more. */
  lemma ResumeReturns(states: seq<State>, actions: seq<Action>) returns (ss: seq<State>, acts: seq<Action>)
    requires Run(states, actions) && states[|actions|].ctl.Suspended?
    ensures Run(ss, acts) && states <= ss && actions + [Control(Resume)] <= acts
    ensures ss[|acts|].ctl.Free? && |ss[|acts|].ws| == |states[|actions|].ws|
    ensures forall i :: 0 <= i < |ss[|acts|].ws| ==>
      !ss[|acts|].ws[i].Parked? && !ss[|acts|].ws[i].Woken? && !ss[|acts|].ws[i].Stopped?
  {
    ss, acts := CallIsMade(states, actions, Resume);
    ResumeCleansUp(ss, acts, |acts|);
  }

  /** Stop: a pool that is free can be stopped, and every worker has then left its loop on a TPStop. */
  lemma StopReturns(states: seq<State>, actions: seq<Action>) returns (ss: seq<State>, acts: seq<Action>)
    requires Run(states, actions) && states[|actions|].ctl.Free?
    ensures Run(ss, acts) && states <= ss && actions + [Control(Call.Stop)] <= acts
    ensures ss[|acts|].ctl == Finished(false) && |ss[|acts|].ws| == |states[|actions|].ws|
    ensures forall i :: 0 <= i < |ss[|acts|].ws| ==> ss[|acts|].ws[i].Stopped? && ss[|acts|].ws[i].t.TPStop?
  {
    ss, acts := CallIsMade(states, actions, Call.Stop);
    RunKeeps(ss, acts, |acts|);
    StopConserves(ss, acts, |acts|);
  }

  /** Stop of a suspended pool leads to the join that never returns. */
  lemma StopHangs(states: seq<State>, actions: seq<Action>) returns (ss: seq<State>, acts: seq<Action>)
    requires Run(states, actions) && states[|actions|].ctl.Suspended?
    ensures Run(ss, acts) && states <= ss && actions + [Control(Call.Stop)] <= acts
    ensures ss[|acts|].ctl == StopJoin(0, true) && |ss[|acts|].ws| == |states[|actions|].ws|
    ensures forall a :: Enabled(ss[|acts|], a) ==> a.AddTask?
  {
    ss, acts := CallIsMade(states, actions, Call.Stop);
    forall a | Enabled(ss[|acts|], a) ensures a.AddTask? {
      StopWhileSuspendedHangs(ss, acts, |acts|, a);
    }
  }

  // ---- every task can be executed -------------------------------------------------------------

  lemma WorkerStays(s: State, i: nat, step: Step)
    requires Enabled(s, Worker(i, step))
    ensures Next(s, Worker(i, step)).ctl == s.ctl && Next(s, Worker(i, step)).added == s.added
  {
  }

  /** From every state of a free pool some continuation, in which nothing is added and no call is made,
      executes every task that was added, each once. */
  lemma TasksCanBeExecuted(states: seq<State>, actions: seq<Action>) returns (ss: seq<State>, acts: seq<Action>)
    requires Run(states, actions) && states[|actions|].ctl.Free?
    ensures Run(ss, acts) && states <= ss && actions <= acts && ss[|acts|].added == states[|actions|].added
    ensures ss[|acts|].done == multiset(states[|actions|].added) && ss[|acts|].q.content == multiset{}
    decreases if Inv(states[|actions|]) then Measure(states[|actions|]) else 0
  {
    var s := states[|actions|];
    RunKeeps(states, actions, |actions|);
    MeasureNat(s);
    if i: nat, step :| Enabled(s, Worker(i, step)) {
      WorkerDecreases(s, i, step);
      WorkerStays(s, i, step);
      Extend(states, actions, Worker(i, step));
      NextKeeps(s, Worker(i, step));
      MeasureNat(Next(s, Worker(i, step)));
      ss, acts := TasksCanBeExecuted(states + [Next(s, Worker(i, step))], actions + [Worker(i, step)]);
    } else {
      ss, acts := states, actions;
      AllTasksExecuted(states, actions);
    }
  }
}
