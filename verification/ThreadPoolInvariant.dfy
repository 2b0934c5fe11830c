/** The counting invariant of the thread pool: it ties semaphore values and queued control tasks
    to where the workers and the controller are. */
module ThreadPoolInvariant {
  import opened Tasks
  import opened AtomicQueue
  import opened ThreadPool

  // ---- counting workers -----------------------------------------------------------------

  datatype Kind = KWait | KTicket | KUser | KStop | KSuspend | KParked | KWoken | KStopped

  function KindOf(pc: PC): Kind {
    match pc
    case AtWait => KWait
    case Ticket => KTicket
    case Holding(t) => if t.User? then KUser else if t.TPStop? then KStop else KSuspend
    case Parked(_) => KParked
    case Woken(_) => KWoken
    case Stopped(_) => KStopped
  }

  function Unit(b: bool): nat {
    if b then 1 else 0
  }

  /** How many of the first `n` workers are of kind `k`. */
  function CountUpTo(ws: seq<PC>, k: Kind, n: nat): (c: nat)
    requires n <= |ws|
    ensures c <= n
  {
    if n == 0 then 0 else CountUpTo(ws, k, n - 1) + Unit(KindOf(ws[n - 1]) == k)
  }

  function Count(ws: seq<PC>, k: Kind): nat {
    CountUpTo(ws, k, |ws|)
  }

  lemma {:induction false} CountUpdate(ws: seq<PC>, k: Kind, i: nat, pc: PC, n: nat)
    requires i < |ws| && n <= |ws|
    ensures CountUpTo(ws[i := pc], k, n) + (if i < n then Unit(KindOf(ws[i]) == k) else 0)
         == CountUpTo(ws, k, n) + (if i < n then Unit(KindOf(pc) == k) else 0)
  {
    if n > 0 {
      CountUpdate(ws, k, i, pc, n - 1);
    }
  }

  /** The counts before and after worker `i` moves to `pc`. */
  lemma CountsMove(ws: seq<PC>, i: nat, pc: PC)
    requires i < |ws|
    ensures forall k :: Count(ws[i := pc], k) + Unit(KindOf(ws[i]) == k) == Count(ws, k) + Unit(KindOf(pc) == k)
  {
    forall k ensures Count(ws[i := pc], k) + Unit(KindOf(ws[i]) == k) == Count(ws, k) + Unit(KindOf(pc) == k) {
      CountUpdate(ws, k, i, pc, |ws|);
    }
  }

  lemma {:induction false} CountTotalUpTo(ws: seq<PC>, n: nat)
    requires n <= |ws|
    ensures CountUpTo(ws, KWait, n) + CountUpTo(ws, KTicket, n) + CountUpTo(ws, KUser, n) + CountUpTo(ws, KStop, n)
          + CountUpTo(ws, KSuspend, n) + CountUpTo(ws, KParked, n) + CountUpTo(ws, KWoken, n) + CountUpTo(ws, KStopped, n) == n
  {
    if n > 0 {
      CountTotalUpTo(ws, n - 1);
    }
  }

  lemma CountTotal(ws: seq<PC>)
    ensures Count(ws, KWait) + Count(ws, KTicket) + Count(ws, KUser) + Count(ws, KStop) + Count(ws, KSuspend)
          + Count(ws, KParked) + Count(ws, KWoken) + Count(ws, KStopped) == |ws|
  {
    CountTotalUpTo(ws, |ws|);
  }

  lemma {:induction false} CountWitness(ws: seq<PC>, k: Kind, n: nat) returns (i: nat)
    requires n <= |ws| && CountUpTo(ws, k, n) >= 1
    ensures i < n && KindOf(ws[i]) == k
  {
    if KindOf(ws[n - 1]) == k {
      i := n - 1;
    } else {
      i := CountWitness(ws, k, n - 1);
    }
  }

  lemma {:induction false} CountUniform(ws: seq<PC>, k: Kind, n: nat)
    requires n <= |ws|
    ensures (forall i :: 0 <= i < n ==> KindOf(ws[i]) == k) <==> CountUpTo(ws, k, n) == n
  {
    if n > 0 {
      CountUniform(ws, k, n - 1);
    }
  }

  // ---- counting control tasks in the queue ----------------------------------------------

  function Suspends(content: multiset<Task>): set<Task> {
    set t | t in content && t.TPSuspend?
  }

  function Stops(content: multiset<Task>): set<Task> {
    set t | t in content && t.TPStop?
  }

  lemma PushCounts(content: multiset<Task>, t: Task)
    requires t !in content
    ensures |Suspends(content + multiset{t})| == |Suspends(content)| + (if t.TPSuspend? then 1 else 0)
    ensures |Stops(content + multiset{t})| == |Stops(content)| + (if t.TPStop? then 1 else 0)
  {
    var c := content + multiset{t};
    if t.TPSuspend? {
      assert Suspends(c) == Suspends(content) + {t};
    } else {
      assert Suspends(c) == Suspends(content);
    }
    if t.TPStop? {
      assert Stops(c) == Stops(content) + {t};
    } else {
      assert Stops(c) == Stops(content);
    }
  }

  lemma RemoveCounts(content: multiset<Task>, t: Task)
    requires content[t] == 1
    ensures |Suspends(content - multiset{t})| == |Suspends(content)| - (if t.TPSuspend? then 1 else 0)
    ensures |Stops(content - multiset{t})| == |Stops(content)| - (if t.TPStop? then 1 else 0)
  {
    var c := content - multiset{t};
    assert c + multiset{t} == content && t !in c;
    PushCounts(c, t);
    assert Suspends(c + multiset{t}) == Suspends(content);
    assert Stops(c + multiset{t}) == Stops(content);
  }

  // ---- conservation ---------------------------------------------------------------------

  /** A worker holds what it has popped and not yet finished executing. */
  predicate Holds(pc: PC, t: Task) {
    match pc
    case Holding(u) => t == u
    case Parked(u) => t == u
    case Woken(u) => t == u
    case _ => false
  }

  /** How many of the first `n` workers hold `t`. */
  function Holders(ws: seq<PC>, t: Task, n: nat): nat
    requires n <= |ws|
  {
    if n == 0 then 0 else Holders(ws, t, n - 1) + Unit(Holds(ws[n - 1], t))
  }

  lemma {:induction false} HoldersUpdate(ws: seq<PC>, t: Task, i: nat, pc: PC, n: nat)
    requires i < |ws| && n <= |ws|
    ensures Holders(ws[i := pc], t, n) + (if i < n then Unit(Holds(ws[i], t)) else 0)
         == Holders(ws, t, n) + (if i < n then Unit(Holds(pc, t)) else 0)
  {
    if n > 0 {
      HoldersUpdate(ws, t, i, pc, n - 1);
    }
  }

  lemma {:induction false} HoldersMember(ws: seq<PC>, t: Task, i: nat, n: nat)
    requires i < n <= |ws| && Holds(ws[i], t)
    ensures Holders(ws, t, n) >= 1
  {
    if i < n - 1 {
      HoldersMember(ws, t, i, n - 1);
    }
  }

  /** Two workers that hold the same task make it count twice. */
  lemma {:induction false} HeldTwice(ws: seq<PC>, i: nat, j: nat, t: Task, n: nat)
    requires i < j < n <= |ws| && Holds(ws[i], t) && Holds(ws[j], t)
    ensures Holders(ws, t, n) >= 2
  {
    if j == n - 1 {
      HoldersMember(ws, t, i, n - 1);
    } else {
      HeldTwice(ws, i, j, t, n - 1);
    }
  }

  /** In how many places `t` is: queued, held by a worker, or executed. */
  function Places(t: Task, content: multiset<Task>, ws: seq<PC>, done: multiset<Task>): nat {
    content[t] + Holders(ws, t, |ws|) + done[t]
  }

  /** Every task ever added is in exactly one place, and no other task is in any. */
  ghost predicate Conserved(content: multiset<Task>, ws: seq<PC>, done: multiset<Task>, added: set<Task>, nextId: nat) {
    && (forall t :: Places(t, content, ws, done) == Unit(t in added))
    && forall t :: t in added ==> t.id < nextId
  }

  // ---- the phases of the handshake ------------------------------------------------------

  /** The counts that the handshake ties together: TPSuspend tasks queued or just popped, parked
      and woken workers, TPStop tasks queued or just popped, stopped workers, and the semaphores. */
  datatype Books =
    Books(suspends: int, parked: int, woken: int, stops: int, stopped: int, mainSem: int, threadSem: int)

  function BooksOf(ws: seq<PC>, content: multiset<Task>, mainSem: nat, threadSem: nat): Books {
    Books(|Suspends(content)| + Count(ws, KSuspend), Count(ws, KParked), Count(ws, KWoken),
          |Stops(content)| + Count(ws, KStop), Count(ws, KStopped), mainSem, threadSem)
  }

  /** What the books say in each phase, given how many workers are parked, woken and stopped. */
  function Expected(ctl: Ctl, n: nat, b: Books): Books {
    match ctl
    case Free => Books(0, 0, 0, 0, 0, 0, 0)
    case SuspendPush(k) => Books(k - b.parked, b.parked, 0, 0, 0, b.parked, 0)
    case SuspendWait(k) => Books(n - b.parked, b.parked, 0, 0, 0, b.parked - k, 0)
    case Suspended => Books(0, n, 0, 0, 0, 0, 0)
    case ResumePost(k) => Books(0, b.parked, b.woken, 0, 0, n - b.parked - b.woken, k + b.parked - n)
    case ResumeWait(k) => Books(0, b.parked, b.woken, 0, 0, n - b.parked - b.woken - k, b.parked)
    case StopPush(k, parked) => Books(0, if parked then n else 0, 0, k - b.stopped, b.stopped, 0, 0)
    case StopJoin(k, parked) => Books(0, if parked then n else 0, 0, n - b.stopped, b.stopped, 0, 0)
    case Finished(parked) => Books(0, if parked then n else 0, 0, 0, n, 0, 0)
  }

  /** The turn of the loop the controller is in. */
  function Turn(ctl: Ctl): nat {
    match ctl
    case SuspendPush(k) => k
    case SuspendWait(k) => k
    case ResumePost(k) => k
    case ResumeWait(k) => k
    case StopPush(k, _) => k
    case StopJoin(k, _) => k
    case _ => 0
  }

  ghost predicate Phase(ctl: Ctl, n: nat, b: Books) {
    Turn(ctl) <= n && b == Expected(ctl, n, b)
  }

  ghost predicate PhaseOf(ctl: Ctl, ws: seq<PC>, content: multiset<Task>, mainSem: nat, threadSem: nat) {
    Phase(ctl, |ws|, BooksOf(ws, content, mainSem, threadSem))
  }

  /** Workers that Stop has joined have stopped. */
  ghost predicate Joined(ctl: Ctl, ws: seq<PC>) {
    ctl.StopJoin? ==> ctl.k <= |ws| && forall i :: 0 <= i < ctl.k ==> ws[i].Stopped?
  }

  /** Workers park on TPSuspend tasks and stop on TPStop tasks. */
  ghost predicate Typed(ws: seq<PC>) {
    forall i :: 0 <= i < |ws| ==>
      (ws[i].Parked? || ws[i].Woken? ==> ws[i].t.TPSuspend?) && (ws[i].Stopped? ==> ws[i].t.TPStop?)
  }

  /** The queue's tickets are held by workers. */
  ghost predicate Ticketed(q: Queue, ws: seq<PC>) {
    Balanced(q) && q.tickets == Count(ws, KTicket)
  }

  ghost predicate Handshake(ctl: Ctl, ws: seq<PC>, content: multiset<Task>, mainSem: nat, threadSem: nat) {
    Typed(ws) && PhaseOf(ctl, ws, content, mainSem, threadSem) && Joined(ctl, ws)
  }

  ghost predicate Accounts(q: Queue, ws: seq<PC>, done: multiset<Task>, added: set<Task>, nextId: nat) {
    Ticketed(q, ws) && Conserved(q.content, ws, done, added, nextId)
  }

  ghost predicate Inv(s: State) {
    && |s.ws| >= 1
    && Handshake(s.ctl, s.ws, s.q.content, s.mainSem, s.threadSem)
    && Accounts(s.q, s.ws, s.done, s.added, s.nextId)
  }

  lemma {:induction false} InitCounts(ws: seq<PC>, t: Task, n: nat)
    requires n <= |ws| && forall i :: 0 <= i < |ws| ==> ws[i] == AtWait
    ensures Holders(ws, t, n) == 0 && CountUpTo(ws, KWait, n) == n
  {
    if n > 0 {
      InitCounts(ws, t, n - 1);
    }
  }

  lemma InitInv(s: State)
    requires Init(s)
    ensures Inv(s)
  {
    forall t ensures Holders(s.ws, t, |s.ws|) == 0 && Count(s.ws, KWait) == |s.ws| {
      InitCounts(s.ws, t, |s.ws|);
    }
    assert Holders(s.ws, User(0, 0), |s.ws|) == 0;
    CountTotal(s.ws);
    assert Suspends(s.q.content) == {} && Stops(s.q.content) == {};
  }

  // ---- pushes ---------------------------------------------------------------------------

  /** A pushed task is new. */
  lemma PushConserves(content: multiset<Task>, ws: seq<PC>, done: multiset<Task>, added: set<Task>, nextId: nat, t: Task)
    requires Conserved(content, ws, done, added, nextId) && t.id == nextId
    ensures t !in content
    ensures Conserved(content + multiset{t}, ws, done, added + {t}, nextId + 1)
  {
    assert Places(t, content, ws, done) == 0;
    forall u ensures Places(u, content + multiset{t}, ws, done) == Unit(u in added + {t}) {
      assert Places(u, content, ws, done) == Unit(u in added);
    }
  }

  lemma AddTaskKeeps(s: State, priority: UserPriority)
    requires Inv(s)
    ensures Inv(Pushed(s, User(s.nextId, priority)))
  {
    var t := User(s.nextId, priority);
    PushConserves(s.q.content, s.ws, s.done, s.added, s.nextId, t);
    PushCounts(s.q.content, t);
  }

  lemma PushPhase(ctl: Ctl, call: Call, ws: seq<PC>, content: multiset<Task>, mainSem: nat, threadSem: nat, t: Task)
    requires PhaseOf(ctl, ws, content, mainSem, threadSem) && t !in content
    requires Pushes(ctl, |ws|) && t == ControlTask(ctl, t.id)
    ensures PhaseOf(NextCtl(ctl, call, |ws|), ws, content + multiset{t}, mainSem, threadSem)
  {
    PushCounts(content, t);
  }

  /** The counts of `ws` add up, so a phase that gives all workers one kind leaves no other. */
  lemma ControlPhase(ctl: Ctl, call: Call, ws: seq<PC>, content: multiset<Task>, mainSem: nat, threadSem: nat)
    requires PhaseOf(ctl, ws, content, mainSem, threadSem) && |ws| >= 1 && !Pushes(ctl, |ws|)
    requires WaitsMain(ctl, |ws|) ==> mainSem > 0
    requires ctl.StopJoin? && ctl.k == |ws| ==> Count(ws, KStopped) == |ws|
    ensures PhaseOf(NextCtl(ctl, call, |ws|), ws, content,
                    if WaitsMain(ctl, |ws|) then mainSem - 1 else mainSem,
                    if Wakes(ctl, |ws|) then threadSem + 1 else threadSem)
  {
    CountTotal(ws);
  }

  lemma JoinedNext(ctl: Ctl, call: Call, ws: seq<PC>)
    requires Joined(ctl, ws)
    requires ctl.StopJoin? && ctl.k < |ws| ==> ws[ctl.k].Stopped?
    ensures Joined(NextCtl(ctl, call, |ws|), ws)
    ensures ctl.StopJoin? && ctl.k == |ws| ==> Count(ws, KStopped) == |ws|
  {
    CountUniform(ws, KStopped, |ws|);
  }

  lemma ControlKeeps(s: State, call: Call)
    requires Inv(s) && ControlEnabled(s, call)
    ensures Inv(ControlStep(s, call))
  {
    JoinedNext(s.ctl, call, s.ws);
    if Pushes(s.ctl, |s.ws|) {
      var t := ControlTask(s.ctl, s.nextId);
      PushConserves(s.q.content, s.ws, s.done, s.added, s.nextId, t);
      PushPhase(s.ctl, call, s.ws, s.q.content, s.mainSem, s.threadSem, t);
    } else {
      ControlPhase(s.ctl, call, s.ws, s.q.content, s.mainSem, s.threadSem);
    }
  }

  // ---- workers --------------------------------------------------------------------------

  /** One worker moves from kind `a` to kind `b`; a pop takes a task of kind `b` off the queue. */
  ghost predicate BooksMove(a: Kind, b: Kind, x: Books, y: Books) {
    && y.suspends + Unit(a == KSuspend) == x.suspends
    && y.parked + Unit(a == KParked) == x.parked + Unit(b == KParked)
    && y.woken + Unit(a == KWoken) == x.woken + Unit(b == KWoken)
    && y.stops + Unit(a == KStop) == x.stops
    && y.stopped == x.stopped + Unit(b == KStopped)
    && y.mainSem == x.mainSem + Unit(a == KWoken || a == KSuspend)
    && y.threadSem + Unit(a == KParked) == x.threadSem
    && y.suspends >= 0 && y.parked >= 0 && y.woken >= 0 && y.stops >= 0 && y.stopped >= 0 && y.threadSem >= 0
  }

  predicate Moves(a: Kind, b: Kind) {
    match a
    case KWait => b == KTicket
    case KTicket => b == KUser || b == KStop || b == KSuspend
    case KUser => b == KWait
    case KStop => b == KStopped
    case KSuspend => b == KParked
    case KParked => b == KWoken
    case KWoken => b == KWait
    case KStopped => false
  }

  /** The arithmetic of the handshake: what a worker step does to the phase. */
  lemma PhaseMoves(ctl: Ctl, n: nat, a: Kind, b: Kind, x: Books, y: Books)
    requires Phase(ctl, n, x) && Moves(a, b) && BooksMove(a, b, x, y)
    ensures Phase(ctl, n, y)
  {
  }

  lemma TypedKeeps(ws: seq<PC>, i: nat, pc: PC)
    requires Typed(ws) && i < |ws|
    requires (pc.Parked? || pc.Woken? ==> pc.t.TPSuspend?) && (pc.Stopped? ==> pc.t.TPStop?)
    ensures Typed(ws[i := pc])
  {
  }

  lemma TicketsKeep(q: Queue, q': Queue, ws: seq<PC>, i: nat, pc: PC)
    requires Ticketed(q, ws) && i < |ws| && Balanced(q')
    requires q'.tickets + Unit(ws[i].Ticket?) == q.tickets + Unit(pc.Ticket?)
    ensures Ticketed(q', ws[i := pc])
  {
    CountsMove(ws, i, pc);
  }

  lemma PhaseKeeps(ctl: Ctl, ws: seq<PC>, i: nat, pc: PC, content: multiset<Task>, content': multiset<Task>,
                   mainSem: nat, threadSem: nat)
    requires PhaseOf(ctl, ws, content, mainSem, threadSem) && i < |ws| && Moves(KindOf(ws[i]), KindOf(pc))
    requires ws[i].Parked? ==> threadSem > 0
    requires |Suspends(content')| + Unit(KindOf(pc) == KSuspend) == |Suspends(content)|
    requires |Stops(content')| + Unit(KindOf(pc) == KStop) == |Stops(content)|
    ensures PhaseOf(ctl, ws[i := pc], content',
                    mainSem + Unit(ws[i].Woken? || KindOf(ws[i]) == KSuspend), threadSem - Unit(ws[i].Parked?))
  {
    CountsMove(ws, i, pc);
    PhaseMoves(ctl, |ws|, KindOf(ws[i]), KindOf(pc), BooksOf(ws, content, mainSem, threadSem),
               BooksOf(ws[i := pc], content', mainSem + Unit(ws[i].Woken? || KindOf(ws[i]) == KSuspend),
                       threadSem - Unit(ws[i].Parked?)));
  }

  /** What leaves the queue or a worker arrives at a worker or among the executed. */
  lemma ConservedKeeps(ws: seq<PC>, i: nat, pc: PC, content: multiset<Task>, content': multiset<Task>,
                       done: multiset<Task>, done': multiset<Task>, added: set<Task>, nextId: nat)
    requires Conserved(content, ws, done, added, nextId) && i < |ws|
    requires forall t :: content'[t] + Unit(Holds(pc, t)) + done'[t] == content[t] + Unit(Holds(ws[i], t)) + done[t]
    ensures Conserved(content', ws[i := pc], done', added, nextId)
  {
    forall t ensures Places(t, content', ws[i := pc], done') == Unit(t in added) {
      HoldersUpdate(ws, t, i, pc, |ws|);
      assert Places(t, content, ws, done) == Unit(t in added);
    }
  }

  lemma JoinedKeeps(ctl: Ctl, ws: seq<PC>, i: nat, pc: PC)
    requires Joined(ctl, ws) && i < |ws| && !ws[i].Stopped?
    ensures Joined(ctl, ws[i := pc])
  {
  }

  lemma HandshakeKeeps(ctl: Ctl, ws: seq<PC>, i: nat, pc: PC, content: multiset<Task>, content': multiset<Task>,
                       mainSem: nat, threadSem: nat)
    requires Handshake(ctl, ws, content, mainSem, threadSem) && i < |ws| && Moves(KindOf(ws[i]), KindOf(pc))
    requires (pc.Parked? || pc.Woken? ==> pc.t.TPSuspend?) && (pc.Stopped? ==> pc.t.TPStop?)
    requires ws[i].Parked? ==> threadSem > 0
    requires |Suspends(content')| + Unit(KindOf(pc) == KSuspend) == |Suspends(content)|
    requires |Stops(content')| + Unit(KindOf(pc) == KStop) == |Stops(content)|
    ensures Handshake(ctl, ws[i := pc], content',
                      mainSem + Unit(ws[i].Woken? || KindOf(ws[i]) == KSuspend), threadSem - Unit(ws[i].Parked?))
  {
    TypedKeeps(ws, i, pc);
    PhaseKeeps(ctl, ws, i, pc, content, content', mainSem, threadSem);
    JoinedKeeps(ctl, ws, i, pc);
  }

  lemma AccountsKeep(q: Queue, q': Queue, ws: seq<PC>, i: nat, pc: PC, done: multiset<Task>, done': multiset<Task>,
                     added: set<Task>, nextId: nat)
    requires Accounts(q, ws, done, added, nextId) && i < |ws| && Balanced(q')
    requires q'.tickets + Unit(ws[i].Ticket?) == q.tickets + Unit(pc.Ticket?)
    requires forall t :: q'.content[t] + Unit(Holds(pc, t)) + done'[t] == q.content[t] + Unit(Holds(ws[i], t)) + done[t]
    ensures Accounts(q', ws[i := pc], done', added, nextId)
  {
    TicketsKeep(q, q', ws, i, pc);
    ConservedKeeps(ws, i, pc, q.content, q'.content, done, done', added, nextId);
  }

  /** No task is queued twice. */
  ghost predicate Once(content: multiset<Task>) {
    forall t :: content[t] <= 1
  }

  lemma QueuedOnce(q: Queue, ws: seq<PC>, done: multiset<Task>, added: set<Task>, nextId: nat)
    requires Accounts(q, ws, done, added, nextId)
    ensures Once(q.content)
  {
    forall t ensures q.content[t] <= 1 {
      assert Places(t, q.content, ws, done) <= 1;
    }
  }

  lemma PopHandshake(ctl: Ctl, ws: seq<PC>, i: nat, content: multiset<Task>, top: Task, mainSem: nat, threadSem: nat)
    requires Handshake(ctl, ws, content, mainSem, threadSem) && i < |ws| && ws[i].Ticket?
    requires Once(content) && top in content
    ensures Handshake(ctl, ws[i := Holding(top)], content - multiset{top}, mainSem, threadSem)
  {
    RemoveCounts(content, top);
    HandshakeKeeps(ctl, ws, i, Holding(top), content, content - multiset{top}, mainSem, threadSem);
  }

  /** What all worker steps have in common. */
  lemma StepShape(s: State, i: nat, step: Step)
    requires Typed(s.ws) && i < |s.ws| && WorkerEnabled(s.ws[i], s.q, s.threadSem, step)
    ensures var s', pc, pc' := WorkerStep(s, i, step), s.ws[i], WorkerStep(s, i, step).ws[i];
      && s'.ws == s.ws[i := pc'] && s'.ctl == s.ctl && Moves(KindOf(pc), KindOf(pc'))
      && s'.mainSem == s.mainSem + Unit(pc.Woken? || KindOf(pc) == KSuspend)
      && s.threadSem == s'.threadSem + Unit(pc.Parked?)
      && s'.q.content == (if step.Pop? then s.q.content - multiset{step.top} else s.q.content)
      && (step.Pop? <==> KindOf(pc).KTicket?) && (step.Pop? ==> pc' == Holding(step.top) && step.top in s.q.content)
      && (pc'.Parked? || pc'.Woken? ==> pc'.t.TPSuspend?) && (pc'.Stopped? ==> pc'.t.TPStop?)
  {
  }

  lemma WorkerHandshake(s: State, i: nat, step: Step, s': State)
    requires Handshake(s.ctl, s.ws, s.q.content, s.mainSem, s.threadSem) && Once(s.q.content)
    requires i < |s.ws| && WorkerEnabled(s.ws[i], s.q, s.threadSem, step) && s' == WorkerStep(s, i, step)
    ensures Handshake(s'.ctl, s'.ws, s'.q.content, s'.mainSem, s'.threadSem)
  {
    StepShape(s, i, step);
    if step.Pop? {
      PopHandshake(s.ctl, s.ws, i, s.q.content, step.top, s.mainSem, s.threadSem);
    } else {
      HandshakeKeeps(s.ctl, s.ws, i, s'.ws[i], s.q.content, s.q.content, s.mainSem, s.threadSem);
    }
  }

  lemma WorkerAccounts(s: State, i: nat, step: Step)
    requires Accounts(s.q, s.ws, s.done, s.added, s.nextId)
    requires i < |s.ws| && WorkerEnabled(s.ws[i], s.q, s.threadSem, step)
    requires Typed(s.ws)
    ensures var s' := WorkerStep(s, i, step); Accounts(s'.q, s'.ws, s'.done, s'.added, s'.nextId)
  {
    var s' := WorkerStep(s, i, step);
    AccountsKeep(s.q, s'.q, s.ws, i, s'.ws[i], s.done, s'.done, s.added, s.nextId);
  }

  lemma WorkerKeeps(s: State, i: nat, step: Step)
    requires Inv(s) && i < |s.ws| && WorkerEnabled(s.ws[i], s.q, s.threadSem, step)
    ensures Inv(WorkerStep(s, i, step))
  {
    QueuedOnce(s.q, s.ws, s.done, s.added, s.nextId);
    WorkerHandshake(s, i, step, WorkerStep(s, i, step));
    WorkerAccounts(s, i, step);
  }

  // ---- whole runs -----------------------------------------------------------------------

  lemma NextKeeps(s: State, a: Action)
    requires Inv(s) && Enabled(s, a)
    ensures Inv(Next(s, a))
  {
    match a
    case AddTask(p) => AddTaskKeeps(s, p);
    case Control(call) => ControlKeeps(s, call);
    case Worker(i, step) => WorkerKeeps(s, i, step);
  }

  lemma {:induction false} RunKeeps(states: seq<State>, actions: seq<Action>, k: nat)
    requires Run(states, actions) && k < |states|
    ensures Inv(states[k])
  {
    if k == 0 {
      InitInv(states[0]);
    } else {
      RunKeeps(states, actions, k - 1);
      NextKeeps(states[k - 1], actions[k - 1]);
    }
  }
}
