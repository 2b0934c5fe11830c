/** SendReply called by any number of threads at once: the stream that the NBD client reads. */
module NbdReplyStream {
  import opened Bytes
  import opened Folding
  import opened HandleTable
  import opened NbdWire

  /** A thread in SendReply. `sent` bytes of its frame have been written. */
  datatype Sender = Idle | WaitLock(r: Reply) | Writing(r: Reply, sent: nat)

  /** `alive` ends when a `write` fails: nothing on the pool's threads catches the exception. */
  datatype State = State(
    senders: seq<Sender>,
    lock: int,             // the sender that holds m_mutex, or -1
    stream: seq<Byte>,
    alive: bool,
    log: seq<Reply>)       // history: replies written whole, in order

  datatype Action =
    | Call(i: nat, r: Reply)  // SendReply is called
    | Lock(i: nat)            // lock_guard's constructor returns
    | Write(i: nat, n: nat)   // one write() takes `n` bytes
    | Fail(i: nat)            // one write() fails
    | Return(i: nat)          // SendReply returns, releasing the lock

  /** What is left for the WriteAll that the sender is in: of the header, then of the payload. */
  function Left(r: Reply, sent: nat): int
  {
    if sent < REPLY_SIZE then REPLY_SIZE - sent else |Frame(r)| - sent
  }

  predicate WellFormed(s: State) {
    forall i :: 0 <= i < |s.senders| && s.senders[i].Writing? ==> s.senders[i].sent <= |Frame(s.senders[i].r)|
  }

  predicate Init(s: State) {
    (forall i :: 0 <= i < |s.senders| ==> s.senders[i].Idle?) && s.lock == -1 && s.stream == [] && s.alive && s.log == []
  }

  predicate Enabled(s: State, a: Action) {
    && s.alive && a.i < |s.senders|
    && match a
       case Call(i, r) => s.senders[i].Idle?
       case Lock(i) => s.senders[i].WaitLock? && s.lock == -1
       case Write(i, n) => s.senders[i].Writing? && 1 <= n <= Left(s.senders[i].r, s.senders[i].sent)
       case Fail(i) => s.senders[i].Writing? && Left(s.senders[i].r, s.senders[i].sent) > 0
       case Return(i) => s.senders[i].Writing? && s.senders[i].sent == |Frame(s.senders[i].r)|
  }

  function Next(s: State, a: Action): State
    requires Enabled(s, a)
  {
    match a
    case Call(i, r) => s.(senders := s.senders[i := WaitLock(r)])
    case Lock(i) => s.(senders := s.senders[i := Writing(s.senders[i].r, 0)], lock := i)
    case Write(i, n) =>
      var r, sent := s.senders[i].r, s.senders[i].sent;
      s.(senders := s.senders[i := Writing(r, sent + n)],
         stream := s.stream + Frame(r)[sent..sent + n],
         log := if sent + n == |Frame(r)| then s.log + [r] else s.log)
    case Fail(_) => s.(alive := false)
    case Return(i) => s.(senders := s.senders[i := Idle], lock := -1)
  }

  predicate Step(s: State, a: Action, s': State) {
    Enabled(s, a) && s' == Next(s, a)
  }

  predicate Run(states: seq<State>, actions: seq<Action>) {
    && |states| == |actions| + 1
    && Init(states[0])
    && forall k :: 0 <= k < |actions| ==>
         Step(states[k], actions[k], states[k + 1])
  }

  // ---- framing --------------------------------------------------------------------------

  function Concat(parts: seq<seq<Byte>>): seq<Byte> {
    if parts == [] then [] else parts[0] + Concat(parts[1..])
  }

  function FrameList(log: seq<Reply>): (fs: seq<seq<Byte>>)
    ensures |fs| == |log| && forall i :: 0 <= i < |log| ==> fs[i] == Frame(log[i])
  {
    seq(|log|, i requires 0 <= i < |log| => Frame(log[i]))
  }

  function Frames(log: seq<Reply>): seq<Byte> {
    Concat(FrameList(log))
  }

  /** The part of a frame still being written that is in the stream. */
  function Partial(w: Sender): seq<Byte> {
    if w.Writing? && w.sent < |Frame(w.r)| then Frame(w.r)[..w.sent] else []
  }

  /** The partial frame of the sender that holds the lock. */
  function Tail(s: State): seq<Byte> {
    if 0 <= s.lock < |s.senders| then Partial(s.senders[s.lock]) else []
  }

  /** Only the holder of the lock writes. */
  ghost predicate Exclusive(s: State) {
    && -1 <= s.lock < |s.senders|
    && (forall i :: 0 <= i < |s.senders| ==> (s.senders[i].Writing? <==> i == s.lock))
  }

  ghost predicate Inv(s: State) {
    && WellFormed(s) && Exclusive(s)
    && s.stream == Frames(s.log) + Tail(s)
  }

  lemma {:induction false} ConcatPush(parts: seq<seq<Byte>>, f: seq<Byte>)
    ensures Concat(parts + [f]) == Concat(parts) + f
  {
    if parts == [] {
      assert [f][1..] == [];
    } else {
      ConcatPush(parts[1..], f);
      assert (parts + [f])[1..] == parts[1..] + [f];
    }
  }

  lemma Grow(f: seq<Byte>, sent: nat, n: nat)
    requires sent + n <= |f|
    ensures f[..sent] + f[sent..sent + n] == f[..sent + n] && f[..|f|] == f
  {
  }

  lemma ConcatGrows(stream: seq<Byte>, parts: seq<seq<Byte>>, f: seq<Byte>, sent: nat, n: nat)
    requires sent + n <= |f| && stream == Concat(parts) + f[..sent]
    ensures stream + f[sent..sent + n] == Concat(parts) + f[..sent + n]
    ensures sent + n == |f| ==> stream + f[sent..sent + n] == Concat(parts + [f])
  {
    Grow(f, sent, n);
    ConcatPush(parts, f);
  }

  lemma StreamGrows(stream: seq<Byte>, log: seq<Reply>, r: Reply, sent: nat, n: nat)
    requires sent + n <= |Frame(r)| && stream == Frames(log) + Frame(r)[..sent]
    ensures stream + Frame(r)[sent..sent + n] == Frames(log) + Frame(r)[..sent + n]
    ensures sent + n == |Frame(r)| ==> stream + Frame(r)[sent..sent + n] == Frames(log + [r])
  {
    ConcatGrows(stream, FrameList(log), Frame(r), sent, n);
    assert FrameList(log + [r]) == FrameList(log) + [Frame(r)];
  }

  lemma WriteKeeps(s: State, i: nat, n: nat, s': State)
    requires Inv(s) && Enabled(s, Write(i, n)) && s' == Next(s, Write(i, n))
    ensures s'.stream == Frames(s'.log) + Tail(s')
  {
    var r, sent := s.senders[i].r, s.senders[i].sent;
    StreamGrows(s.stream, s.log, r, sent, n);
    assert s'.senders[i] == Writing(r, sent + n);
  }

  lemma NextKeeps(s: State, a: Action, s': State)
    requires Inv(s) && Step(s, a, s')
    ensures Inv(s')
  {
    if a.Write? {
      WriteKeeps(s, a.i, a.n, s');
    }
  }

  lemma InitInv(s: State)
    requires Init(s)
    ensures Inv(s)
  {
  }

  ghost predicate InvAt(states: seq<State>, k: nat) {
    k < |states| && Inv(states[k])
  }

  lemma StartKeeps(states: seq<State>, actions: seq<Action>)
    requires Run(states, actions)
    ensures InvAt(states, 0)
  {
    InitInv(states[0]);
  }

  lemma RunStepKeeps(states: seq<State>, actions: seq<Action>, k: nat, holds: nat -> bool)
    requires Run(states, actions) && k < |actions| && forall j :: holds(j) <==> InvAt(states, j)
    ensures Keeps(holds, k)
  {
    if holds(k) {
      NextKeeps(states[k], actions[k], states[k + 1]);
    }
  }

  lemma RunKeeps(states: seq<State>, actions: seq<Action>, k: nat)
    requires Run(states, actions) && k < |states|
    ensures Inv(states[k])
  {
    var holds := (j: nat) => InvAt(states, j);
    StartKeeps(states, actions);
    forall j: nat | j < k ensures Keeps(holds, j) {
      RunStepKeeps(states, actions, j, holds);
    }
    Chain(holds, k);
  }

  /** For every number of callers, every interleaving and every way of cutting the writes, the
      stream is whole frames in the order in which they were completed, then a proper prefix of at
      most one more. */
  lemma StreamIsFramed(states: seq<State>, actions: seq<Action>, k: nat)
    requires Run(states, actions) && k < |states|
    ensures var s := states[k];
      && s.stream == Frames(s.log) + Tail(s)
      && (Tail(s) == [] ||
          exists i :: 0 <= i < |s.senders| && s.senders[i].Writing? && Tail(s) < Frame(s.senders[i].r))
  {
    RunKeeps(states, actions, k);
  }

  // ---- what is written is what was called for ---------------------------------------------

  function CalledBy(a: Action): multiset<Reply> {
    if a.Call? then multiset{a.r} else multiset{}
  }

  /** The replies that SendReply was called with among the first `n` steps. */
  function Called(actions: seq<Action>, n: nat): multiset<Reply>
    requires n <= |actions|
  {
    if n == 0 then multiset{}
    else Called(actions, n - 1) + CalledBy(actions[n - 1])
  }

  /** The reply that a sender has not written whole yet. */
  function Unsent(w: Sender): multiset<Reply> {
    match w
    case Idle => multiset{}
    case WaitLock(r) => multiset{r}
    case Writing(r, sent) => if sent < |Frame(r)| then multiset{r} else multiset{}
  }

  function AllUnsent(ws: seq<Sender>): multiset<Reply> {
    SumOf(Unsent, ws)
  }

  /** The sender takes on what it is called with, or nothing. */
  ghost predicate TakesOn(s: State, a: Action, s': State)
    requires a.i < |s.senders| == |s'.senders|
  {
    && s'.log == s.log
    && Unsent(s'.senders[a.i]) == Unsent(s.senders[a.i]) + if a.Call? then multiset{a.r} else multiset{}
  }

  /** Its reply is written whole by the step. */
  ghost predicate GetsDone(s: State, a: Action, s': State, r: Reply)
    requires a.i < |s.senders| == |s'.senders|
  {
    && s'.log == s.log + [r] && !a.Call?
    && Unsent(s.senders[a.i]) == multiset{r} && Unsent(s'.senders[a.i]) == multiset{}
  }

  /** What the sender of a step takes on, and what it gets done by it. */
  ghost predicate Passes(s: State, a: Action, s': State) {
    && a.i < |s.senders| == |s'.senders| && s'.senders == s.senders[a.i := s'.senders[a.i]]
    && (|| TakesOn(s, a, s')
        || exists r :: GetsDone(s, a, s', r))
  }

  lemma StepPasses(s: State, a: Action, s': State)
    requires WellFormed(s) && Step(s, a, s')
    ensures Passes(s, a, s')
  {
    if a.Write? && s'.log != s.log {
      assert GetsDone(s, a, s', s.senders[a.i].r);
    }
  }

  lemma TakingOnBalances(log: multiset<Reply>, all: multiset<Reply>, all': multiset<Reply>,
                         one: multiset<Reply>, one': multiset<Reply>, given: multiset<Reply>)
    requires all' + one == all + one' && one' == one + given
    ensures log + all + given == log + all'
  {
    forall t: Reply ensures (log + all + given)[t] == (log + all')[t] {
      assert (all' + one)[t] == (all + one')[t];
    }
  }

  lemma GettingDoneBalances(log: multiset<Reply>, all: multiset<Reply>, all': multiset<Reply>, done: multiset<Reply>)
    requires all' + done == all + multiset{}
    ensures log + all == (log + done) + all'
  {
    forall t: Reply ensures (log + all)[t] == ((log + done) + all')[t] {
      assert (all' + done)[t] == (all + multiset{})[t];
    }
  }

  lemma LogGrows(log: seq<Reply>, r: Reply)
    ensures multiset(log + [r]) == multiset(log) + multiset{r}
  {
  }

  lemma TakesOnBalances(s: State, a: Action, s': State)
    requires a.i < |s.senders| == |s'.senders| && s'.senders == s.senders[a.i := s'.senders[a.i]] && TakesOn(s, a, s')
    ensures multiset(s.log) + AllUnsent(s.senders) + (if a.Call? then multiset{a.r} else multiset{})
         == multiset(s'.log) + AllUnsent(s'.senders)
  {
    SumUpdate(Unsent, s.senders, a.i, s'.senders[a.i]);
    TakingOnBalances(multiset(s.log), AllUnsent(s.senders), AllUnsent(s'.senders), Unsent(s.senders[a.i]),
                     Unsent(s'.senders[a.i]), if a.Call? then multiset{a.r} else multiset{});
  }

  lemma GetsDoneBalances(s: State, a: Action, s': State, r: Reply)
    requires a.i < |s.senders| == |s'.senders| && s'.senders == s.senders[a.i := s'.senders[a.i]] && GetsDone(s, a, s', r)
    ensures multiset(s.log) + AllUnsent(s.senders) == multiset(s'.log) + AllUnsent(s'.senders)
  {
    SumUpdate(Unsent, s.senders, a.i, s'.senders[a.i]);
    LogGrows(s.log, r);
    GettingDoneBalances(multiset(s.log), AllUnsent(s.senders), AllUnsent(s'.senders), multiset{r});
  }

  lemma NextBalances(s: State, a: Action, s': State)
    requires WellFormed(s) && Step(s, a, s')
    ensures multiset(s.log) + AllUnsent(s.senders) + (if a.Call? then multiset{a.r} else multiset{})
         == multiset(s'.log) + AllUnsent(s'.senders)
  {
    StepPasses(s, a, s');
    if TakesOn(s, a, s') {
      TakesOnBalances(s, a, s');
    } else {
      var r :| GetsDone(s, a, s', r);
      GetsDoneBalances(s, a, s', r);
    }
  }

  function Total(s: State): multiset<Reply> {
    multiset(s.log) + AllUnsent(s.senders)
  }

  lemma RunBalances(states: seq<State>, actions: seq<Action>, k: nat)
    requires Run(states, actions) && k < |actions|
    ensures Total(states[k + 1]) == Total(states[k]) + CalledBy(actions[k])
  {
    RunKeeps(states, actions, k);
    NextBalances(states[k], actions[k], states[k + 1]);
  }

  lemma {:induction false} Telescope(actions: seq<Action>, totals: seq<multiset<Reply>>, k: nat)
    requires k <= |actions| < |totals| && totals[0] == multiset{}
    requires forall j :: 0 <= j < k ==> totals[j + 1] == totals[j] + CalledBy(actions[j])
    ensures Called(actions, k) == totals[k]
  {
    if k > 0 {
      Telescope(actions, totals, k - 1);
      assert totals[k - 1 + 1] == totals[k - 1] + CalledBy(actions[k - 1]);
    }
  }

  /** In every run the replies that SendReply was called with are those written whole, in some order,
      and those of calls that wait or write: none is lost, made up or written twice. */
  lemma RepliesAreConserved(states: seq<State>, actions: seq<Action>, k: nat)
    requires Run(states, actions) && k < |states|
    ensures Called(actions, k) == multiset(states[k].log) + AllUnsent(states[k].senders)
  {
    var totals := seq(|states|, j requires 0 <= j < |states| => Total(states[j]));
    SumOfNothing(Unsent, states[0].senders);
    forall j | 0 <= j < k ensures totals[j + 1] == totals[j] + CalledBy(actions[j]) {
      RunBalances(states, actions, j);
    }
    Telescope(actions, totals, k);
  }

  /** Every write may be cut anywhere: of what is left of the header or of the data, any number of bytes
      may be taken, or the write may fail, which ends the process. */
  lemma AnyCutIsPossible(states: seq<State>, actions: seq<Action>, k: nat, i: nat, n: nat)
    requires Run(states, actions) && k < |states| && states[k].alive && i < |states[k].senders| && states[k].senders[i].Writing?
    ensures var r, sent := states[k].senders[i].r, states[k].senders[i].sent;
      var left: int := if sent < 16 then 16 - sent else 16 + (if r.key == READ then |r.data| else 0) - sent;
      && (Enabled(states[k], Write(i, n)) <==> 1 <= n <= left)
      && (left > 0 ==> Enabled(states[k], Fail(i)) && !Next(states[k], Fail(i)).alive)
  {
  }

  // ---- every reply can be sent ----------------------------------------------------------------

  lemma Extend(states: seq<State>, actions: seq<Action>, a: Action)
    requires Run(states, actions) && Enabled(states[|actions|], a)
    ensures Run(states + [Next(states[|actions|], a)], actions + [a])
  {
    var ss, acts := states + [Next(states[|actions|], a)], actions + [a];
    forall k | 0 <= k < |acts| ensures Step(ss[k], acts[k], ss[k + 1]) {
      if k < |actions| {
        assert Step(states[k], actions[k], states[k + 1]);
        assert ss[k] == states[k] && ss[k + 1] == states[k + 1] && acts[k] == actions[k];
      }
    }
  }

  /** What the holder of the lock has still to write, and its return. */
  function HolderLeft(s: State): nat {
    if 0 <= s.lock < |s.senders| && s.senders[s.lock].Writing? && s.senders[s.lock].sent <= |Frame(s.senders[s.lock].r)|
    then |Frame(s.senders[s.lock].r)| - s.senders[s.lock].sent + 1 else 0
  }

  /** The holder of the lock can always go on. */
  lemma HolderGoesOn(s: State) returns (a: Action)
    requires Inv(s) && s.alive && s.lock != -1
    ensures Enabled(s, a) && !a.Call? && !a.Fail? && a.i == s.lock
    ensures var s' := Next(s, a);
      && s'.alive && HolderLeft(s') < HolderLeft(s) && |s'.senders| == |s.senders| && s.log <= s'.log
      && (forall i :: 0 <= i < |s.senders| && i != s.lock ==> s'.senders[i] == s.senders[i])
      && (s'.lock == s.lock || (s'.lock == -1 && s.senders[s.lock].Writing?
                                && s.senders[s.lock].sent == |Frame(s.senders[s.lock].r)|))
  {
    var w := s.senders[s.lock];
    a := if w.sent == |Frame(w.r)| then Return(s.lock) else Write(s.lock, Left(w.r, w.sent));
  }

  /** Up to the release of the lock: whoever else waits goes on waiting. */
  lemma LockIsReleased(states: seq<State>, actions: seq<Action>, i: nat) returns (ss: seq<State>, acts: seq<Action>)
    requires Run(states, actions) && states[|actions|].alive && i < |states[|actions|].senders| && i != states[|actions|].lock
    ensures Run(ss, acts) && states <= ss && actions <= acts && ss[|acts|].alive && ss[|acts|].lock == -1
    ensures i < |ss[|acts|].senders| && ss[|acts|].senders[i] == states[|actions|].senders[i]
    ensures states[|actions|].log <= ss[|acts|].log
    decreases HolderLeft(states[|actions|])
  {
    var s := states[|actions|];
    if s.lock == -1 {
      ss, acts := states, actions;
    } else {
      RunKeeps(states, actions, |actions|);
      var a := HolderGoesOn(s);
      Extend(states, actions, a);
      ss, acts := LockIsReleased(states + [Next(s, a)], actions + [a], i);
    }
  }

  /** From its first byte on a reply can be written whole. */
  lemma FrameIsWritten(states: seq<State>, actions: seq<Action>, i: nat, r: Reply) returns (ss: seq<State>, acts: seq<Action>)
    requires Run(states, actions) && states[|actions|].alive && i < |states[|actions|].senders|
    requires states[|actions|].senders[i].Writing? && states[|actions|].senders[i].r == r && states[|actions|].lock == i
    requires states[|actions|].senders[i].sent < |Frame(r)|
    ensures Run(ss, acts) && states <= ss && actions <= acts && ss[|acts|].alive && ss[|acts|].log == states[|actions|].log + [r]
    decreases |Frame(r)| - states[|actions|].senders[i].sent
  {
    var s := states[|actions|];
    var a := Write(i, Left(r, s.senders[i].sent));
    Extend(states, actions, a);
    ss, acts := states + [Next(s, a)], actions + [a];
    if ss[|acts|].senders[i].sent < |Frame(r)| {
      ss, acts := FrameIsWritten(ss, acts, i, r);
    }
  }

  /** From every reachable state before a failed write, every thread can call SendReply with any reply,
      and some continuation writes it whole. */
  lemma ReplyCanBeSent(states: seq<State>, actions: seq<Action>, i: nat, r: Reply) returns (ss: seq<State>, acts: seq<Action>)
    requires Run(states, actions) && states[|actions|].alive && i < |states[|actions|].senders|
    requires states[|actions|].senders[i].Idle?
    ensures Run(ss, acts) && states <= ss && actions + [Call(i, r)] <= acts
    ensures |ss[|acts|].log| > |states[|actions|].log| && ss[|acts|].log[|ss[|acts|].log| - 1] == r
  {
    RunKeeps(states, actions, |actions|);
    var a := Call(i, r);
    Extend(states, actions, a);
    ss, acts := LockIsReleased(states + [Next(states[|actions|], a)], actions + [a], i);
    var b := Lock(i);
    Extend(ss, acts, b);
    ss, acts := FrameIsWritten(ss + [Next(ss[|acts|], b)], acts + [b], i, r);
  }

  // ---- the client -----------------------------------------------------------------------

  /** What the client gets out of a simple reply. */
  datatype Seen = Seen(error: nat, handle: Handle, data: seq<Byte>)

  function SeenOf(r: Reply): Seen {
    Seen(Ntohl(r.status), r.handle, if r.key == READ then r.data else [])
  }

  function SeenAll(log: seq<Reply>): (v: seq<Seen>)
    ensures |v| == |log| && forall i :: 0 <= i < |log| ==> v[i] == SeenOf(log[i])
  {
    seq(|log|, i requires 0 <= i < |log| => SeenOf(log[i]))
  }

  /** How many payload bytes the client expects under a handle when it has decoded `i` replies: the
      length of the READ outstanding there, or 0 for another request. */
  type Outstanding = (nat, Handle) -> nat

  datatype Split = Incomplete | Complete(v: Seen, size: nat)

  /** The client's side of the simple reply format: a 16-byte header, checked for its magic number,
      then as many bytes as the request under that handle asked for. */
  function First(s: seq<Byte>, outstanding: Outstanding, i: nat): Split {
    if |s| < REPLY_SIZE || BigEndian(s[0..4]) != NBD_REPLY_MAGIC then Incomplete
    else
      var size := REPLY_SIZE + outstanding(i, s[8..16]);
      if |s| < size then Incomplete else Complete(Seen(BigEndian(s[4..8]), s[8..16], s[REPLY_SIZE..size]), size)
  }

  /** Replies are taken off the stream as long as `first` finds one; the rest waits. */
  function DecodeWith(first: (seq<Byte>, nat) -> Split, s: seq<Byte>, i: nat): (seq<Seen>, seq<Byte>)
    decreases |s|
  {
    match first(s, i)
    case Incomplete => ([], s)
    case Complete(v, size) =>
      if size == 0 || |s| < size then ([], s)
      else
        var (more, rest) := DecodeWith(first, s[size..], i + 1);
        ([v] + more, rest)
  }

  function Decode(s: seq<Byte>, outstanding: Outstanding): (seq<Seen>, seq<Byte>) {
    DecodeWith((t: seq<Byte>, i: nat) => First(t, outstanding, i), s, 0)
  }

  /** The client asked for this reply: under its handle it expects this much data. */
  predicate Asked(r: Reply, outstanding: Outstanding, i: nat) {
    outstanding(i, r.handle) == if r.key == READ then |r.data| else 0
  }

  /** A frame at the front of the stream is found, whatever follows. */
  lemma FrameIsFound(r: Reply, tail: seq<Byte>, outstanding: Outstanding, i: nat)
    requires Asked(r, outstanding, i)
    ensures First(Frame(r) + tail, outstanding, i) == Complete(SeenOf(r), |Frame(r)|)
  {
    var s, h := Frame(r) + tail, ReplyHeader(r);
    ReplyHeaderMeaning(r);
    assert s[0..4] == h[0..4] && s[4..8] == h[4..8] && s[8..16] == h[8..16];
    assert s[REPLY_SIZE..|Frame(r)|] == Payload(r);
  }

  lemma FrameIsAlwaysFound(r: Reply, outstanding: Outstanding, i: nat)
    requires Asked(r, outstanding, i)
    ensures forall tail :: First(Frame(r) + tail, outstanding, i) == Complete(SeenOf(r), |Frame(r)|)
  {
    forall tail ensures First(Frame(r) + tail, outstanding, i) == Complete(SeenOf(r), |Frame(r)|) {
      FrameIsFound(r, tail, outstanding, i);
    }
  }

  /** A proper prefix of a frame is not taken for a reply. */
  lemma PrefixIsIncomplete(r: Reply, n: nat, outstanding: Outstanding, i: nat)
    requires Asked(r, outstanding, i) && n < |Frame(r)|
    ensures First(Frame(r)[..n], outstanding, i) == Incomplete
  {
    var s := Frame(r)[..n];
    if n >= REPLY_SIZE {
      ReplyHeaderMeaning(r);
      assert s[8..16] == ReplyHeader(r)[8..16];
    }
  }

  /** Wherever `f` begins the rest of the stream, `v` is found. */
  ghost predicate Finds(first: (seq<Byte>, nat) -> Split, i: nat, f: seq<Byte>, v: Seen) {
    |f| > 0 && forall tail :: first(f + tail, i) == Complete(v, |f|)
  }

  lemma {:induction false} DecodeParts(first: (seq<Byte>, nat) -> Split, i: nat, parts: seq<seq<Byte>>, seen: seq<Seen>, tail: seq<Byte>)
    requires |parts| == |seen|
    requires forall k :: 0 <= k < |parts| ==> Finds(first, i + k, parts[k], seen[k])
    requires first(tail, i + |parts|).Incomplete?
    ensures DecodeWith(first, Concat(parts) + tail, i) == (seen, tail)
    decreases |parts|
  {
    if parts == [] {
      assert Concat(parts) + tail == tail;
    } else {
      var rest := Concat(parts[1..]) + tail;
      forall k | 0 <= k < |parts| - 1 ensures Finds(first, i + 1 + k, parts[1..][k], seen[1..][k]) {
        assert Finds(first, i + (k + 1), parts[k + 1], seen[k + 1]);
      }
      DecodeParts(first, i + 1, parts[1..], seen[1..], tail);
      assert Finds(first, i + 0, parts[0], seen[0]);
      assert Concat(parts) + tail == parts[0] + rest && (parts[0] + rest)[|parts[0]|..] == rest;
      assert [seen[0]] + seen[1..] == seen;
    }
  }

  lemma DecodeFrames(log: seq<Reply>, tail: seq<Byte>, outstanding: Outstanding)
    requires forall k :: 0 <= k < |log| ==> Asked(log[k], outstanding, k)
    requires First(tail, outstanding, |log|).Incomplete?
    ensures Decode(Frames(log) + tail, outstanding) == (SeenAll(log), tail)
  {
    var first := (t: seq<Byte>, i: nat) => First(t, outstanding, i);
    forall k | 0 <= k < |log| ensures Finds(first, 0 + k, FrameList(log)[k], SeenAll(log)[k]) {
      FrameIsAlwaysFound(log[k], outstanding, k);
    }
    DecodeParts(first, 0, FrameList(log), SeenAll(log), tail);
  }

  /** The client has asked for every reply written so far and for those being written. */
  ghost predicate AskedAll(s: State, outstanding: Outstanding) {
    && (forall i :: 0 <= i < |s.log| ==> Asked(s.log[i], outstanding, i))
    && forall j :: 0 <= j < |s.senders| ==>
         s.senders[j].Writing? && s.senders[j].sent < REPLY_SIZE + |Payload(s.senders[j].r)| ==>
         Asked(s.senders[j].r, outstanding, |s.log|)
  }

  /** In every run, a client that has asked for each reply decodes the stream into exactly the
      replies that were sent, in order, and waits for the rest of at most one. */
  lemma ClientDecodes(states: seq<State>, actions: seq<Action>, k: nat, outstanding: Outstanding)
    requires Run(states, actions) && k < |states|
    requires AskedAll(states[k], outstanding)
    ensures Decode(states[k].stream, outstanding) == (SeenAll(states[k].log), Tail(states[k]))
    ensures var seen, log := Decode(states[k].stream, outstanding).0, states[k].log;
      |seen| == |log| && forall i :: 0 <= i < |log| ==>
        && seen[i].error == Ntohl(log[i].status) && seen[i].handle == log[i].handle
        && seen[i].data == if log[i].key == READ then log[i].data else []
  {
    RunKeeps(states, actions, k);
    var s := states[k];
    if Tail(s) != [] {
      PrefixIsIncomplete(s.senders[s.lock].r, s.senders[s.lock].sent, outstanding, |s.log|);
    }
    DecodeFrames(s.log, Tail(s), outstanding);
  }
}
