/** The block protocol gets somewhere: without loss every request is answered. */
module BlockProtocolProgress {
  import opened Bytes
  import opened Decimal
  import opened RequestCodec
  import opened ReplyCodec
  import opened SlaveStorage
  import opened BlockProtocol
  import opened BlockProtocolProof
  import opened BlockProtocolTheorems

  /** How many steps a request is from its reply. */
  function Rank(w: Work): nat {
    match w
    case Waiting => 5
    case ToSlave(_) => 4
    case AtSlave(_) => 3
    case ToMaster(_) => 2
    case ToClient(_, _, _, _) => 1
  }

  /** The steps left for the first `n` requests. */
  function Todo(work: map<nat, Work>, n: nat): nat {
    if n == 0 then 0 else Todo(work, n - 1) + if n - 1 in work then Rank(work[n - 1]) else 0
  }

  lemma {:induction false} TodoMoves(work: map<nat, Work>, rid: nat, w: Work, n: nat)
    requires rid in work
    ensures Todo(work[rid := w], n) + (if rid < n then Rank(work[rid]) else 0)
         == Todo(work, n) + (if rid < n then Rank(w) else 0)
    ensures Todo(work - {rid}, n) + (if rid < n then Rank(work[rid]) else 0) == Todo(work, n)
  {
    if n > 0 {
      TodoMoves(work, rid, w, n - 1);
    }
  }

  lemma {:induction false} TodoReceives(work: map<nat, Work>, rid: nat, n: nat)
    requires n <= rid
    ensures Todo(work[rid := Waiting], n) == Todo(work, n)
  {
    if n > 0 {
      TodoReceives(work, rid, n - 1);
    }
  }

  /** The object that works for `rid` is replaced by one that is nearer to the reply. */
  ghost predicate MovesOn(s: State, rid: nat, s': State) {
    && rid in s.work && rid in s'.work && s'.work == s.work[rid := s'.work[rid]]
    && Rank(s'.work[rid]) < Rank(s.work[rid])
    && s'.received == s.received && s'.replies == s.replies
  }

  /** The work for `rid` ends with its reply. */
  ghost predicate Ends(s: State, rid: nat, s': State) {
    && rid in s.work && s'.work == s.work - {rid} && s'.received == s.received
    && |s'.replies| == |s.replies| + 1 && s.replies <= s'.replies && s'.replies[|s.replies|].rid == rid
  }

  lemma IssueMoves(s: State, rid: nat)
    requires rid in s.work && s.work[rid].Waiting? && rid < |s.received| && !ReqOf(s, rid).op.LocalOp?
    ensures DoIssue(s, rid).crashed || MovesOn(s, rid, DoIssue(s, rid))
  {
  }

  lemma QueueMoves(s: State, rid: nat, r: SlaveRequest)
    requires rid in s.work && s.work[rid].ToSlave?
    ensures MovesOn(s, rid, DoQueue(s, rid, r)) && DoQueue(s, rid, r).crashed == s.crashed
  {
  }

  lemma SlaveReceiveMoves(s: State, rid: nat, heap: seq<Byte>)
    requires rid in s.work && s.work[rid].ToSlave? && |heap| == BUFF_SIZE + 1
    ensures DoSlaveReceive(s, rid, heap).crashed || MovesOn(s, rid, DoSlaveReceive(s, rid, heap))
  {
    var d := s.work[rid].datagram;
    if |d| == BUFF_SIZE && Parseable(Received(d)) {
      QueueMoves(s, rid, Parse(Received(d), heap));
    }
  }

  lemma SlaveExecuteMoves(s: State, rid: nat, beyond: seq<Byte>)
    requires rid in s.work && s.work[rid].AtSlave? && s.work[rid].task.key in {READ, WRITE}
    ensures DoSlaveExecute(s, rid, beyond).crashed || MovesOn(s, rid, DoSlaveExecute(s, rid, beyond))
  {
  }

  lemma ReplyLocallyEnds(s: State, rid: nat)
    requires rid in s.work && rid < |s.received|
    ensures Ends(s, rid, DoReplyLocally(s, rid))
  {
  }

  lemma SendReplyEnds(s: State, rid: nat)
    requires rid in s.work && s.work[rid].ToClient?
    ensures DoSendReply(s, rid).crashed || Ends(s, rid, DoSendReply(s, rid))
  {
  }

  lemma MatchMoves(s: State, rid: nat, r: MasterReply)
    requires rid in s.work && s.work[rid].ToMaster?
    ensures DoMatch(s, rid, r).crashed || MovesOn(s, rid, DoMatch(s, rid, r))
  {
  }

  lemma MasterReceiveMoves(s: State, rid: nat, heap: seq<Byte>)
    requires rid in s.work && s.work[rid].ToMaster? && |heap| == BUFF_SIZE + 1
    ensures DoMasterReceive(s, rid, heap).crashed || MovesOn(s, rid, DoMasterReceive(s, rid, heap))
  {
    var d := s.work[rid].datagram;
    if |d| == BUFF_SIZE + 1 && ReplyParseable(ReplyReceived(d)) {
      MatchMoves(s, rid, ParseReply(ReplyReceived(d), heap));
    }
  }

  /** Every step but Receive moves one request on, answers it, or loses it. */
  lemma StepMoves(disk0: seq<Byte>, s: State, a: Action)
    requires Inv(disk0, s) && Enabled(s, a) && !a.Receive? && !Next(s, a).crashed
    ensures a.rid in s.work
    ensures || MovesOn(s, a.rid, Next(s, a))
            || Ends(s, a.rid, Next(s, a))
            || (a.Lose? && Next(s, a) == DoLose(s, a.rid))
  {
    match a
    case Issue(rid) => IssueMoves(s, rid);
    case ReplyLocally(rid) => ReplyLocallyEnds(s, rid);
    case Lose(_) =>
    case SlaveReceive(rid, heap) => SlaveReceiveMoves(s, rid, heap);
    case SlaveExecute(rid, beyond) => SlaveExecuteMoves(s, rid, beyond);
    case MasterReceive(rid, heap) => MasterReceiveMoves(s, rid, heap);
    case SendReply(rid) => SendReplyEnds(s, rid);
  }

  lemma StepDecreases(disk0: seq<Byte>, s: State, a: Action)
    requires Inv(disk0, s) && Enabled(s, a) && !a.Receive?
    ensures Next(s, a).received == s.received
    ensures Todo(Next(s, a).work, |s.received|) < Todo(s.work, |s.received|)
  {
    NextKeeps(disk0, s, a);
    StepMoves(disk0, s, a);
    var s' := Next(s, a);
    TodoMoves(s.work, a.rid, if a.rid in s'.work then s'.work[a.rid] else Waiting, |s.received|);
  }

  /** A run takes at most six steps for each request received: it cannot go on for ever otherwise. */
  lemma {:induction false} RunIsBounded(states: seq<State>, actions: seq<Action>, i: nat)
    requires Run(states, actions) && i < |states|
    ensures |states[i].received| == |Asked(actions, i)|
    ensures i + Todo(states[i].work, |states[i].received|) <= 6 * |Asked(actions, i)|
  {
    if i > 0 {
      RunIsBounded(states, actions, i - 1);
      RunStepBound(states, actions, i - 1);
    }
  }

  lemma RunStepBound(states: seq<State>, actions: seq<Action>, i: nat)
    requires Run(states, actions) && i < |actions|
    ensures |states[i + 1].received| == |states[i].received| + if actions[i].Receive? then 1 else 0
    ensures Todo(states[i + 1].work, |states[i + 1].received|) + 1
            <= Todo(states[i].work, |states[i].received|) + if actions[i].Receive? then 6 else 0
  {
    RunKeeps(states, actions, i);
    StepBound(states[0].disk, states[i], actions[i], states[i + 1]);
  }

  lemma StepBound(disk0: seq<Byte>, s: State, a: Action, s': State)
    requires Inv(disk0, s) && Enabled(s, a) && s' == Next(s, a)
    ensures |s'.received| == |s.received| + if a.Receive? then 1 else 0
    ensures Todo(s'.work, |s'.received|) + 1 <= Todo(s.work, |s.received|) + if a.Receive? then 6 else 0
  {
    if a.Receive? {
      TodoReceives(s.work, |s.received|, |s.received|);
    } else {
      StepDecreases(disk0, s, a);
    }
  }

  // ---- nothing is forgotten -------------------------------------------------------------

  ghost predicate Answered(replies: seq<Reply>, rid: nat) {
    exists j :: 0 <= j < |replies| && replies[j].rid == rid
  }

  /** A request, once received, is being worked for or was answered. */
  ghost predicate Remembered(s: State, rid: nat) {
    rid < |s.received| ==> rid in s.work || Answered(s.replies, rid)
  }

  lemma StillAnswered(before: seq<Reply>, after: seq<Reply>, rid: nat)
    requires before <= after && Answered(before, rid)
    ensures Answered(after, rid)
  {
    var j :| 0 <= j < |before| && before[j].rid == rid;
    assert after[j].rid == rid;
  }

  lemma MoveRemembers(s: State, moved: nat, s': State, rid: nat)
    requires Remembered(s, rid) && (MovesOn(s, moved, s') || Ends(s, moved, s'))
    ensures Remembered(s', rid)
  {
    if rid < |s'.received| && rid !in s'.work {
      if rid in s.work {
        assert s'.replies[|s.replies|].rid == rid;
      } else {
        StillAnswered(s.replies, s'.replies, rid);
      }
    }
  }

  /** Only the loss of its own datagram makes a request forgotten. */
  lemma NextRemembers(disk0: seq<Byte>, s: State, a: Action, s': State, rid: nat)
    requires Inv(disk0, s) && Remembered(s, rid) && Enabled(s, a) && a != Lose(rid) && s' == Next(s, a)
    ensures Remembered(s', rid)
  {
    if a.Receive? {
      ReceiveRemembers(s, a.req, rid);
    } else {
      NextKeeps(disk0, s, a);
      StepMoves(disk0, s, a);
      if a.Lose? {
        LoseRemembers(s, a.rid, rid);
      } else {
        MoveRemembers(s, a.rid, s', rid);
      }
    }
  }

  lemma ReceiveRemembers(s: State, req: Request, rid: nat)
    requires Remembered(s, rid)
    ensures Remembered(DoReceive(s, req), rid)
  {
  }

  lemma LoseRemembers(s: State, lost: nat, rid: nat)
    requires Remembered(s, rid) && lost != rid
    ensures Remembered(DoLose(s, lost), rid)
  {
  }

  lemma {:induction false} RunRemembers(states: seq<State>, actions: seq<Action>, i: nat, rid: nat)
    requires Run(states, actions) && i < |states|
    requires forall k :: 0 <= k < i ==> actions[k] != Lose(rid)
    ensures Remembered(states[i], rid)
  {
    if i > 0 {
      RunRemembers(states, actions, i - 1, rid);
      RunKeeps(states, actions, i - 1);
      NextRemembers(states[0].disk, states[i - 1], actions[i - 1], states[i], rid);
    }
  }

  /** Whatever works for a request can go on. */
  lemma WorkGoesOn(disk0: seq<Byte>, s: State, rid: nat) returns (a: Action)
    requires Inv(disk0, s) && rid in s.work && (s.work[rid].Waiting? ==> s.lastId < TWO_31 - 1)
    ensures !a.Receive? && !a.Lose? && a.rid == rid && Enabled(s, a)
  {
    var heap := Zeros(BUFF_SIZE + 1);
    match s.work[rid]
    case Waiting => a := if ReqOf(s, rid).op.LocalOp? then ReplyLocally(rid) else Issue(rid);
    case ToSlave(_) => a := SlaveReceive(rid, heap);
    case AtSlave(r) =>
      NulBehind(s, rid);
      a := SlaveExecute(rid, [NUL]);
    case ToMaster(_) => a := MasterReceive(rid, heap);
    case ToClient(_, _, _, _) => a := SendReply(rid);
  }

  lemma NulBehind(s: State, rid: nat)
    requires rid in s.work && s.work[rid].AtSlave? && s.work[rid].task.len <= MAX_TRANSFER
    ensures MessageEnds(s, rid, [NUL])
  {
    var r := s.work[rid].task;
    if r.key == READ && InRange(r.offset, r.len, |s.disk|) {
      var data := s.disk[r.offset..r.offset + r.len];
      assert (data + [NUL])[|data|] == NUL;
      CStringMeaning(data + [NUL]);
    }
  }

  /** Exactly once: when no datagram of a request was lost, and no step but a Receive or a loss is left,
      the request has been answered by one reply, which carries its handle. What happened to the
      datagrams of other requests does not matter. */
  lemma RequestIsAnswered(states: seq<State>, actions: seq<Action>, rid: nat) returns (j: nat)
    requires Run(states, actions) && rid < |Asked(actions, |actions|)|
    requires forall k :: 0 <= k < |actions| ==> actions[k] != Lose(rid)
    requires states[|actions|].lastId < TWO_31 - 1
    requires forall a :: Enabled(states[|actions|], a) ==> a.Receive? || a.Lose?
    ensures AnsweredBy(Asked(actions, |actions|), states[|actions|], rid, j)
  {
    var s := states[|actions|];
    AskedIsReceived(states, actions, |actions|);
    RunRemembers(states, actions, |actions|, rid);
    RunKeeps(states, actions, |actions|);
    if rid in s.work {
      var a := WorkGoesOn(states[0].disk, s, rid);
    }
    RepliesCorrelate(states, actions, |actions|);
    j :| 0 <= j < |s.replies| && s.replies[j].rid == rid;
  }

  /** `j` is the one reply to the request. */
  ghost predicate AnsweredBy(asked: seq<Request>, s: State, rid: nat, j: nat) {
    && rid < |asked| && j < |s.replies|
    && s.replies[j].rid == rid && s.replies[j].handle == asked[rid].handle
    && forall k :: 0 <= k < |s.replies| && s.replies[k].rid == rid ==> k == j
  }

  /** Without loss every request is. */
  lemma EveryRequestIsAnswered(states: seq<State>, actions: seq<Action>)
    requires Run(states, actions) && forall k :: 0 <= k < |actions| ==> !actions[k].Lose?
    requires states[|actions|].lastId < TWO_31 - 1
    requires forall a :: Enabled(states[|actions|], a) ==> a.Receive? || a.Lose?
    ensures var asked := Asked(actions, |actions|);
      forall rid: nat :: rid < |asked| ==> AnsweredOnce(asked, states[|actions|], rid)
  {
    var asked := Asked(actions, |actions|);
    forall rid: nat | rid < |asked| ensures AnsweredOnce(asked, states[|actions|], rid) {
      var j := RequestIsAnswered(states, actions, rid);
    }
  }

  ghost predicate AnsweredOnce(asked: seq<Request>, s: State, rid: nat) {
    exists j: nat :: AnsweredBy(asked, s, rid, j)
  }

  // ---- every request can be served --------------------------------------------------------

  lemma SameSize(states: seq<State>, actions: seq<Action>, i: nat)
    requires Run(states, actions) && i < |states|
    ensures |states[i].disk| == |states[0].disk| && !states[i].crashed
  {
    RunKeeps(states, actions, i);
  }

  /** Every request of 64-bit offset for at most 4096 bytes inside the device is accepted, in every
      state of every run, and so is every request that needs no data. */
  lemma RequestIsAccepted(states: seq<State>, actions: seq<Action>, i: nat, req: Request)
    requires Run(states, actions) && i < |states|
    ensures Enabled(states[i], Receive(req)) <==>
      match req.op
      case ReadOp(offset, size) => offset < 0x1_0000_0000_0000_0000 && offset + size <= |states[0].disk| && size <= 4096
      case WriteOp(offset, data) => offset < 0x1_0000_0000_0000_0000 && offset + |data| <= |states[0].disk| && |data| <= 4096
      case LocalOp => true
  {
    SameSize(states, actions, i);
  }

  lemma Extend(states: seq<State>, actions: seq<Action>, a: Action)
    requires Run(states, actions) && Enabled(states[|actions|], a)
    ensures Run(states + [Next(states[|actions|], a)], actions + [a])
  {
    var ss, acts := states + [Next(states[|actions|], a)], actions + [a];
    forall k | 0 <= k < |acts| ensures Enabled(ss[k], acts[k]) && ss[k + 1] == Next(ss[k], acts[k]) {
      if k < |actions| {
        assert ss[k] == states[k] && ss[k + 1] == states[k + 1] && acts[k] == actions[k];
      }
    }
  }

  lemma {:induction false} AskedBefore(actions: seq<Action>, acts: seq<Action>, n: nat)
    requires actions <= acts && n <= |actions|
    ensures Asked(acts, n) == Asked(actions, n)
  {
    if n > 0 {
      AskedBefore(actions, acts, n - 1);
      assert acts[n - 1] == actions[n - 1];
    }
  }

  /** One more action. */
  lemma AskedNext(actions: seq<Action>, a: Action)
    ensures Asked(actions + [a], |actions| + 1) == Asked(actions, |actions|) + if a.Receive? then [a.req] else []
  {
    AskedBefore(actions, actions + [a], |actions|);
  }

  /** The next step of the work for `rid`, which is nearer to its reply. */
  lemma NextOf(states: seq<State>, actions: seq<Action>, rid: nat) returns (ss: seq<State>, acts: seq<Action>)
    requires Run(states, actions) && rid in states[|actions|].work
    requires states[|actions|].work[rid].Waiting? ==> states[|actions|].lastId < TWO_31 - 1
    ensures Run(ss, acts) && |acts| == |actions| + 1 && states <= ss && actions <= acts
    ensures acts[|actions|] != Lose(rid) && Asked(acts, |acts|) == Asked(actions, |actions|)
    ensures var s, s' := states[|actions|], ss[|acts|];
      && rid < |s'.received| && Remembered(s', rid)
      && (rid in s'.work ==> Rank(s'.work[rid]) < Rank(s.work[rid]) <= 5)
  {
    var s := states[|actions|];
    RunKeeps(states, actions, |actions|);
    var a := WorkGoesOn(states[0].disk, s, rid);
    Extend(states, actions, a);
    ss, acts := states + [Next(s, a)], actions + [a];
    AskedNext(actions, a);
    NextKeeps(states[0].disk, s, a);
    StepMoves(states[0].disk, s, a);
    NextRemembers(states[0].disk, s, a, Next(s, a), rid);
  }

  lemma AnsweredIs(states: seq<State>, actions: seq<Action>, rid: nat) returns (j: nat)
    requires Run(states, actions) && rid < |states[|actions|].received| && Answered(states[|actions|].replies, rid)
    ensures AnsweredBy(Asked(actions, |actions|), states[|actions|], rid, j)
  {
    AskedIsReceived(states, actions, |actions|);
    RepliesCorrelate(states, actions, |actions|);
    j :| 0 <= j < |states[|actions|].replies| && states[|actions|].replies[j].rid == rid;
  }

  /** From every reachable state, some continuation in which nothing is received or lost answers a
      request that is worked for. */
  lemma WorkCanEnd(states: seq<State>, actions: seq<Action>, rid: nat) returns (ss: seq<State>, acts: seq<Action>, j: nat)
    requires Run(states, actions) && rid in states[|actions|].work
    requires states[|actions|].work[rid].Waiting? ==> states[|actions|].lastId < TWO_31 - 1
    ensures Run(ss, acts) && states <= ss && actions <= acts && Asked(acts, |acts|) == Asked(actions, |actions|)
    ensures AnsweredBy(Asked(acts, |acts|), ss[|acts|], rid, j)
    decreases Rank(states[|actions|].work[rid])
  {
    var ss1, acts1 := NextOf(states, actions, rid);
    if rid in ss1[|acts1|].work {
      ss, acts, j := WorkCanEnd(ss1, acts1, rid);
    } else {
      ss, acts := ss1, acts1;
      j := AnsweredIs(ss, acts, rid);
    }
  }

  /** Every request that the client may send can be served: from every reachable state, some run
      delivers it and ends with a reply under its handle, of the size that it asked for. */
  lemma RequestCanBeServed(states: seq<State>, actions: seq<Action>, req: Request)
    returns (ss: seq<State>, acts: seq<Action>, j: nat)
    requires Run(states, actions) && Enabled(states[|actions|], Receive(req)) && states[|actions|].lastId < TWO_31 - 1
    ensures Run(ss, acts) && states <= ss && actions + [Receive(req)] <= acts
    ensures Asked(acts, |acts|) == Asked(actions, |actions|) + [req]
    ensures var s := ss[|acts|];
      && j < |s.replies| && s.replies[j].rid == |Asked(actions, |actions|)| && s.replies[j].handle == req.handle
      && |s.replies[j].body| == if req.op.ReadOp? then req.op.size else 0
  {
    var a, rid := Receive(req), |states[|actions|].received|;
    AskedIsReceived(states, actions, |actions|);
    AskedNext(actions, a);
    Extend(states, actions, a);
    ss, acts, j := WorkCanEnd(states + [Next(states[|actions|], a)], actions + [a], rid);
    RepliesCorrelate(ss, acts, |acts|);
  }
}
