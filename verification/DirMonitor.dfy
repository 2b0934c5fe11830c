/** The DirMonitor of src/plug_and_play.cpp: m_thread_stt is written by the monitor thread and by the
    destructor. Each access to it is one step. */
module DirMonitor {

  datatype Status = RUNING | INIT | ERROR | END_THREAD | SUCCESS

  /** How inotify's setup turns out. Without a descriptor the watch fails too. */
  datatype Setup = InitFails | WatchFails | Succeeds

  /** Where the monitor thread is in Monitor(). */
  datatype MonitorPC =
    | AtInit     // before inotify_init1
    | AtWatch    // before inotify_add_watch
    | AtAdd      // before Epoll::Add, which throws on a bad descriptor
    | AtRun      // before SetThreadStatus(RUNING)
    | AtLoop     // before the test of the loop
    | InLoop     // waiting for an event or handling one
    | AtClose    // after the loop
    | Gone

  /** Where the destructor is. */
  datatype DtorPC = NotCalled | Spinning | AtStore | Joining | Destroyed

  /** `aborted`: an exception left the monitor thread, which ends the process. */
  datatype State = State(setup: Setup, status: Status, monitor: MonitorPC, dtor: DtorPC, aborted: bool)

  datatype Action = MonitorStep | DtorStep

  predicate Init(s: State, setup: Setup) {
    s == State(setup, INIT, AtInit, NotCalled, false)
  }

  predicate Enabled(s: State, a: Action) {
    && !s.aborted
    && match a
       case MonitorStep => !s.monitor.Gone?
       case DtorStep => !s.dtor.Destroyed? && (s.dtor.Joining? ==> s.monitor.Gone?)
  }

  function Next(s: State, a: Action): State {
    if a.MonitorStep? then
      match s.monitor
      case AtInit => s.(monitor := AtWatch, status := if s.setup.InitFails? then ERROR else s.status)
      case AtWatch => s.(monitor := AtAdd, status := if s.setup.Succeeds? then s.status else ERROR)
      case AtAdd => if s.setup.InitFails? then s.(aborted := true) else s.(monitor := AtRun)
      case AtRun => s.(monitor := AtLoop, status := RUNING)
      case AtLoop => s.(monitor := if s.status == RUNING then InLoop else AtClose)
      case InLoop => s.(monitor := AtLoop)
      case AtClose => s.(monitor := Gone, status := SUCCESS)
      case Gone => s
    else
      match s.dtor
      case NotCalled => s.(dtor := Spinning)
      case Spinning => s.(dtor := if s.status == INIT then Spinning else AtStore)
      case AtStore => s.(dtor := Joining, status := END_THREAD)
      case Joining => s.(dtor := Destroyed)
      case Destroyed => s
  }

  predicate Run(setup: Setup, states: seq<State>, actions: seq<Action>) {
    && |states| == |actions| + 1
    && Init(states[0], setup)
    && forall k :: 0 <= k < |actions| ==> Enabled(states[k], actions[k]) && states[k + 1] == Next(states[k], actions[k])
  }

  /** The destructor waits for a thread that has been told to go on. */
  predicate Overwritten(s: State) {
    !s.aborted && s.dtor.Joining? && s.status == RUNING
  }

  // ---- setup succeeds -------------------------------------------------------------------

  predicate BeforeLoop(pc: MonitorPC) {
    pc.AtInit? || pc.AtWatch? || pc.AtAdd? || pc.AtRun?
  }

  /** INIT lasts until RUNING; after the destructor's store the loop is left. */
  predicate Inv(s: State) {
    && !s.aborted
    && (BeforeLoop(s.monitor) ==> s.status == INIT && (s.dtor.NotCalled? || s.dtor.Spinning?))
    && (s.monitor.AtLoop? || s.monitor.InLoop? ==> s.status == if s.dtor.Joining? then END_THREAD else RUNING)
    && (s.monitor.AtClose? ==> s.status == END_THREAD && s.dtor.Joining?)
    && (s.monitor.Gone? ==> s.status == SUCCESS && (s.dtor.Joining? || s.dtor.Destroyed?))
    && (s.dtor.Destroyed? ==> s.monitor.Gone?)
  }

  lemma {:induction false} RunKeeps(setup: Setup, states: seq<State>, actions: seq<Action>, k: nat)
    requires Run(setup, states, actions) && k < |states|
    ensures states[k].setup == setup
    ensures setup.Succeeds? ==> Inv(states[k])
    ensures setup.InitFails? ==> BeforeLoop(states[k].monitor) && !states[k].monitor.AtRun? && states[k].status != RUNING
  {
    if k > 0 {
      RunKeeps(setup, states, actions, k - 1);
      assert states[k] == Next(states[k - 1], actions[k - 1]);
    }
  }

  function Rank(s: State): nat {
    match s.monitor
    case InLoop => 4
    case AtLoop => 3
    case AtClose => 2
    case Gone => if s.dtor.Destroyed? then 0 else 1
    case _ => 5
  }

  /** When setup succeeded, a destructor that has stored END_THREAD returns: until it does a step is
      enabled, and every step brings it nearer. */
  lemma JoinReturns(states: seq<State>, actions: seq<Action>, k: nat, a: Action)
    requires Run(Succeeds, states, actions) && k < |states| && states[k].dtor.Joining?
    ensures states[k].status == END_THREAD || states[k].status == SUCCESS
    ensures Enabled(states[k], MonitorStep) || Enabled(states[k], DtorStep)
    ensures Enabled(states[k], a) ==> Rank(Next(states[k], a)) < Rank(states[k]) <= 4
  {
    RunKeeps(Succeeds, states, actions, k);
  }

  /** The destructor's spin ends: while the status is INIT the monitor thread moves towards RUNING. */
  lemma SpinEnds(states: seq<State>, actions: seq<Action>, k: nat)
    requires Run(Succeeds, states, actions) && k < |states| && states[k].status == INIT
    ensures Enabled(states[k], MonitorStep) && BeforeLoop(states[k].monitor)
    ensures Next(states[k], MonitorStep).status == INIT ==>
      BeforeLoop(Next(states[k], MonitorStep).monitor) && Next(states[k], MonitorStep).monitor != states[k].monitor
  {
    RunKeeps(Succeeds, states, actions, k);
  }

  /** How many helpful steps of both threads are left before the destructor has returned. */
  function Left(s: State): nat {
    match s.dtor
    case NotCalled => 11
    case Spinning =>
      6 + (match s.monitor case AtInit => 4 case AtWatch => 3 case AtAdd => 2 case AtRun => 1 case _ => 0)
    case AtStore => 5
    case Joining => Rank(s)
    case Destroyed => 0
  }

  /** The steps that the destructor needs: the monitor's up to RUNING, its own from there to the store,
      and all that are left then. */
  predicate Helps(s: State, a: Action) {
    match s.dtor
    case Spinning => if s.status == INIT then a.MonitorStep? else a.DtorStep?
    case AtStore => a.DtorStep?
    case _ => true
  }

  /** From the call of the destructor on, after a good setup: until it has returned a helpful step is
      enabled, each one brings it nearer, and no other step puts it off. So it returns after at most
      10 of them. */
  lemma DestructorReturns(states: seq<State>, actions: seq<Action>, k: nat, a: Action)
    requires Run(Succeeds, states, actions) && k < |states| && !states[k].dtor.NotCalled?
    ensures Left(states[k]) <= 10 && (Left(states[k]) == 0 <==> states[k].dtor.Destroyed?)
    ensures !states[k].dtor.Destroyed? ==>
      (Enabled(states[k], MonitorStep) && Helps(states[k], MonitorStep)) || (Enabled(states[k], DtorStep) && Helps(states[k], DtorStep))
    ensures Enabled(states[k], a) ==>
      if Helps(states[k], a) then Left(Next(states[k], a)) < Left(states[k]) else Left(Next(states[k], a)) == Left(states[k])
  {
    RunKeeps(Succeeds, states, actions, k);
  }

  lemma Extend(setup: Setup, states: seq<State>, actions: seq<Action>, a: Action)
    requires Run(setup, states, actions) && Enabled(states[|actions|], a)
    ensures Run(setup, states + [Next(states[|actions|], a)], actions + [a])
  {
    var ss, acts := states + [Next(states[|actions|], a)], actions + [a];
    forall k | 0 <= k < |acts| ensures Enabled(ss[k], acts[k]) && ss[k + 1] == Next(ss[k], acts[k]) {
      if k < |actions| {
        assert ss[k] == states[k] && ss[k + 1] == states[k + 1] && acts[k] == actions[k];
      }
    }
  }

  /** From every state after a good setup the destructor can be called, and some continuation leads
      to its return with the monitor thread gone. */
  lemma CanBeDestroyed(states: seq<State>, actions: seq<Action>) returns (ss: seq<State>, acts: seq<Action>)
    requires Run(Succeeds, states, actions)
    ensures Run(Succeeds, ss, acts) && states <= ss && actions <= acts
    ensures ss[|acts|].dtor.Destroyed? && ss[|acts|].monitor.Gone? && ss[|acts|].status == SUCCESS
    decreases Left(states[|actions|])
  {
    var s := states[|actions|];
    RunKeeps(Succeeds, states, actions, |actions|);
    if s.dtor.Destroyed? {
      ss, acts := states, actions;
    } else {
      var a := if Enabled(s, MonitorStep) && Helps(s, MonitorStep) && !s.dtor.NotCalled? then MonitorStep else DtorStep;
      if !s.dtor.NotCalled? {
        DestructorReturns(states, actions, |actions|, a);
      }
      Extend(Succeeds, states, actions, a);
      ss, acts := CanBeDestroyed(states + [Next(s, a)], actions + [a]);
    }
  }

  // ---- exactly when the handshake fails --------------------------------------------------

  /** The run of a failed watch in which the destructor sees ERROR before it is overwritten. */
  function FailedRun(): (r: (seq<State>, seq<Action>)) {
    var s0 := State(WatchFails, INIT, AtInit, NotCalled, false);
    ([s0, s0.(monitor := AtWatch), s0.(monitor := AtAdd, status := ERROR),
      s0.(monitor := AtAdd, status := ERROR, dtor := Spinning),
      s0.(monitor := AtAdd, status := ERROR, dtor := AtStore),
      s0.(monitor := AtAdd, status := END_THREAD, dtor := Joining),
      s0.(monitor := AtRun, status := END_THREAD, dtor := Joining),
      s0.(monitor := AtLoop, status := RUNING, dtor := Joining)],
     [MonitorStep, MonitorStep, DtorStep, DtorStep, DtorStep, MonitorStep, MonitorStep])
  }

  /** Some run overwrites END_THREAD exactly when the watch cannot be added: ERROR satisfies the
      destructor's wait, but the thread goes on to set RUNING. When inotify_init1 fails the thread
      ends the process instead. */
  lemma OverwrittenIff(setup: Setup)
    ensures (exists states, actions, k: nat ::
               Run(setup, states, actions) && k < |states| && Overwritten(states[k])) <==> setup == WatchFails
  {
    if setup == WatchFails {
      var (states, actions) := FailedRun();
      assert Run(setup, states, actions) && Overwritten(states[7]);
    } else {
      forall states, actions, k: nat | Run(setup, states, actions) && k < |states|
        ensures !Overwritten(states[k])
      {
        RunKeeps(setup, states, actions, k);
      }
    }
  }

  /** When inotify_init1 fails the status is no longer INIT, and the monitor's step at Epoll::Add ends the
      process. */
  lemma {:induction false} FailedInitEndsProcess(states: seq<State>, actions: seq<Action>, k: nat)
    requires Run(InitFails, states, actions) && k < |states|
    ensures states[k].monitor.AtInit? || (states[k].status != INIT && states[k].status != RUNING)
    ensures states[k].monitor.AtAdd? && !states[k].aborted ==>
      Enabled(states[k], MonitorStep) && Next(states[k], MonitorStep).aborted
  {
    RunKeeps(InitFails, states, actions, k);
    if k > 0 {
      FailedInitEndsProcess(states, actions, k - 1);
      RunKeeps(InitFails, states, actions, k - 1);
      assert states[k] == Next(states[k - 1], actions[k - 1]);
    }
  }

  /** From then on the loop never ends and the destructor never returns. */
  lemma OverwrittenIsForever(s: State, a: Action)
    requires Overwritten(s) && (s.monitor.AtLoop? || s.monitor.InLoop?) && Enabled(s, a)
    ensures Overwritten(Next(s, a)) && (Next(s, a).monitor.AtLoop? || Next(s, a).monitor.InLoop?)
  {
  }

  /** A monitor thread whose status was overwritten is in its loop. */
  lemma {:induction false} OverwrittenInLoop(setup: Setup, states: seq<State>, actions: seq<Action>, k: nat)
    requires Run(setup, states, actions) && k < |states|
    ensures states[k].status == RUNING ==> states[k].monitor.AtLoop? || states[k].monitor.InLoop? || states[k].monitor.AtClose?
    ensures states[k].monitor.AtClose? ==> states[k].status != RUNING
  {
    if k > 0 {
      OverwrittenInLoop(setup, states, actions, k - 1);
      assert states[k] == Next(states[k - 1], actions[k - 1]);
    }
  }

  /** So the destructor of a monitor whose END_THREAD was overwritten never gets past the join. */
  lemma {:induction false} ShutdownHangs(setup: Setup, states: seq<State>, actions: seq<Action>, j: nat, k: nat)
    requires Run(setup, states, actions) && j <= k < |states| && Overwritten(states[j])
    ensures Overwritten(states[k]) && !Enabled(states[k], DtorStep)
  {
    OverwrittenInLoop(setup, states, actions, k);
    if j < k {
      ShutdownHangs(setup, states, actions, j, k - 1);
      OverwrittenInLoop(setup, states, actions, k - 1);
      OverwrittenIsForever(states[k - 1], actions[k - 1]);
    }
  }
}
