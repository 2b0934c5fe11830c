/** What holds in every run of the block protocol. */
module BlockProtocolTheorems {
  import opened Bytes
  import opened Decimal
  import opened RequestCodec
  import opened ReplyCodec
  import opened HandleTable
  import opened SlaveStorage
  import opened BlockProtocol
  import opened BlockProtocolProof

  lemma NextKeeps(disk0: seq<Byte>, s: State, a: Action)
    requires Inv(disk0, s) && Enabled(s, a)
    ensures Inv(disk0, Next(s, a))
  {
    match a
    case Receive(req) => ReceiveKeeps(disk0, s, req);
    case Issue(rid) => IssueKeeps(disk0, s, rid);
    case ReplyLocally(rid) => ReplyLocallyKeeps(disk0, s, rid);
    case Lose(rid) => LoseKeeps(disk0, s, rid);
    case SlaveReceive(rid, heap) => SlaveReceiveKeeps(disk0, s, rid, heap);
    case SlaveExecute(rid, beyond) =>
      if ReqOf(s, rid).op.WriteOp? {
        SlaveWriteKeeps(disk0, s, rid, beyond);
      } else {
        SlaveReadKeeps(disk0, s, rid, beyond);
      }
    case MasterReceive(rid, heap) => MasterReceiveKeeps(disk0, s, rid, heap);
    case SendReply(rid) => SendReplyKeeps(disk0, s, rid);
  }

  lemma {:induction false} RunKeeps(states: seq<State>, actions: seq<Action>, i: nat)
    requires Run(states, actions) && i < |states|
    ensures Inv(states[0].disk, states[i])
  {
    if i == 0 {
      InitInv(states[0]);
    } else {
      RunKeeps(states, actions, i - 1);
      NextKeeps(states[0].disk, states[i - 1], actions[i - 1]);
    }
  }

  // ---- the id table ---------------------------------------------------------------------

  /** A datagram, or the slave's task for one. */
  predicate OnThePath(w: Work) {
    w.ToSlave? || w.AtSlave? || w.ToMaster?
  }

  /** In no run does the id lookup fail, a datagram not parse, or a copy leave its buffer; the id
      of every request on its way is in the table, under the handle the client gave, and an id
      that was swapped back is gone. */
  lemma LookupNeverFails(states: seq<State>, actions: seq<Action>, i: nat)
    requires Run(states, actions) && i < |states|
    ensures var s := states[i];
            && !s.crashed
            && (forall rid :: rid in s.work && OnThePath(s.work[rid]) ==>
                  && rid < |s.received| && rid in s.idOf && s.idOf[rid] in AsMap(s.table)
                  && AsMap(s.table)[s.idOf[rid]] == s.received[rid].req.handle)
            && (forall rid :: rid in s.matched ==> rid in s.idOf && s.idOf[rid] !in AsMap(s.table))
            && (forall a, b :: a in s.idOf && b in s.idOf && a != b ==> s.idOf[a] != s.idOf[b])
  {
    RunKeeps(states, actions, i);
  }

  /** The state in which the network holds `d` as a reply for `rid`, whatever it held before. */
  function Delivering(s: State, rid: nat, d: seq<Byte>): State {
    s.(work := s.work[rid := ToMaster(d)])
  }

  lemma LookupOf(s: State, rid: nat, d: seq<Byte>, heap: seq<Byte>)
    requires !s.crashed && |heap| == |d| == BUFF_SIZE + 1 && ReplyParseable(ReplyReceived(d))
    ensures DoMasterReceive(Delivering(s, rid, d), rid, heap).crashed
            <==> ParseReply(ReplyReceived(d), heap).reqId !in AsMap(s.table)
  {
    FindRefinesMap(s.table, ParseReply(ReplyReceived(d), heap).reqId);
  }

  lemma LookupFails(s: State, rid: nat, len: nat, id: int, key: int, src: seq<Byte>, heap: seq<Byte>)
    requires !s.crashed && |heap| == BUFF_SIZE + 1 && len < TWO_32 && -TWO_31 <= id < TWO_31 && key in {READ, WRITE}
    requires ReplyArrives(len, id, key, src)
    ensures DoMasterReceive(Delivering(s, rid, ReplyDatagram(len, id, key, src)), rid, heap).crashed
            <==> id !in AsMap(s.table)
  {
    ReplyParsed(len, id, key, src, heap);
    LookupOf(s, rid, ReplyDatagram(len, id, key, src), heap);
  }

  /** Some request was given this id, and its reply has not come back. */
  ghost predicate Awaited(idOf: map<nat, int>, matched: set<nat>, id: int) {
    exists rid :: rid in idOf && rid !in matched && idOf[rid] == id
  }

  /** Every entry of the table is awaited. */
  ghost predicate Owned(table: seq<Entry>, idOf: map<nat, int>, matched: set<nat>) {
    forall id :: id in AsMap(table) ==> Awaited(idOf, matched, id)
  }

  lemma IssueOwned(received: seq<Arrival>, idOf: map<nat, int>, table: seq<Entry>, lastId: nat, matched: set<nat>, rid: nat, handle: Handle)
    requires Ids(received, idOf, table, lastId, matched) && Owned(table, idOf, matched) && rid !in idOf
    ensures Owned([Entry(lastId + 1, handle)] + table, idOf[rid := lastId + 1], matched)
  {
    PushRefinesMap(table, lastId, handle);
    var idOf' := idOf[rid := lastId + 1];
    forall id | id in AsMap([Entry(lastId + 1, handle)] + table) ensures Awaited(idOf', matched, id) {
      if id == lastId + 1 {
        assert rid in idOf' && rid !in matched && idOf'[rid] == id;
      } else {
        var r :| r in idOf && r !in matched && idOf[r] == id;
        assert r in idOf' && idOf'[r] == id;
      }
    }
  }

  lemma MatchOwned(received: seq<Arrival>, idOf: map<nat, int>, table: seq<Entry>, lastId: nat, matched: set<nat>, i: nat, rid: nat)
    requires Ids(received, idOf, table, lastId, matched) && Owned(table, idOf, matched) && i < |table|
    requires Ids(received, idOf, Without(table, i), lastId, matched + {rid})
    ensures Owned(Without(table, i), idOf, matched + {rid})
  {
    RemoveRefinesMap(table, lastId, i);
    forall id | id in AsMap(Without(table, i)) ensures Awaited(idOf, matched + {rid}, id) {
      var r :| r in idOf && r !in matched && idOf[r] == id;
      assert r !in matched + {rid};
    }
  }

  /** What delivering a reply does to the table. */
  lemma MasterReceiveTable(s: State, rid: nat, heap: seq<Byte>) returns (i: nat)
    requires rid in s.work && s.work[rid].ToMaster? && |heap| == BUFF_SIZE + 1 && !DoMasterReceive(s, rid, heap).crashed
    ensures var s' := DoMasterReceive(s, rid, heap);
      && i < |s.table| && s'.table == Without(s.table, i) && s'.matched == s.matched + {rid}
      && s'.idOf == s.idOf && s'.received == s.received && s'.lastId == s.lastId
  {
    i := Find(s.table, ParseReply(ReplyReceived(s.work[rid].datagram), heap).reqId);
  }

  /** What a step at the slave leaves alone. */
  ghost predicate SameBooks(s: State, s': State) {
    && s'.table == s.table && s'.idOf == s.idOf && s'.matched == s.matched && s'.lastId == s.lastId
    && s'.received == s.received && s'.replies == s.replies
  }

  lemma WriteKeepsBooks(s: State, rid: nat, r: SlaveRequest)
    requires InRange(r.offset, r.len, |s.disk|)
    ensures SameBooks(s, DoWrite(s, rid, r))
  {
  }

  lemma ReadKeepsBooks(s: State, rid: nat, r: SlaveRequest, beyond: seq<Byte>)
    requires InRange(r.offset, r.len, |s.disk|)
    ensures SameBooks(s, DoRead(s, rid, r, beyond))
  {
  }

  lemma SlaveKeepsBooks(s: State, rid: nat, beyond: seq<Byte>)
    requires rid in s.work && s.work[rid].AtSlave?
    ensures SameBooks(s, DoSlaveExecute(s, rid, beyond))
  {
    var r := s.work[rid].task;
    if InRange(r.offset, r.len, |s.disk|) {
      WriteKeepsBooks(s, rid, r);
      ReadKeepsBooks(s, rid, r, beyond);
    }
  }

  ghost predicate OwnedIn(s: State) {
    Owned(s.table, s.idOf, s.matched)
  }

  lemma IssueKeepsOwned(disk0: seq<Byte>, s: State, rid: nat)
    requires Inv(disk0, s) && OwnedIn(s) && rid in s.work && s.work[rid].Waiting? && !ReqOf(s, rid).op.LocalOp?
    ensures OwnedIn(DoIssue(s, rid))
  {
    assert Get(s.idOf, rid).None?;
    IssueOwned(s.received, s.idOf, s.table, s.lastId, s.matched, rid, ReqOf(s, rid).handle);
  }

  lemma MasterReceiveKeepsOwned(disk0: seq<Byte>, s: State, rid: nat, heap: seq<Byte>)
    requires Inv(disk0, s) && OwnedIn(s) && rid in s.work && s.work[rid].ToMaster? && |heap| == BUFF_SIZE + 1
    ensures OwnedIn(DoMasterReceive(s, rid, heap))
  {
    MasterReceiveKeeps(disk0, s, rid, heap);
    var i := MasterReceiveTable(s, rid, heap);
    MatchOwned(s.received, s.idOf, s.table, s.lastId, s.matched, i, rid);
  }

  /** The other steps leave the table alone. */
  lemma OthersKeepTable(s: State, a: Action)
    requires Enabled(s, a) && !a.Issue? && !a.MasterReceive? && !a.SlaveExecute?
    ensures Next(s, a).table == s.table && Next(s, a).idOf == s.idOf && Next(s, a).matched == s.matched
  {
  }

  lemma NextOwned(disk0: seq<Byte>, s: State, a: Action)
    requires Inv(disk0, s) && Enabled(s, a) && OwnedIn(s)
    ensures OwnedIn(Next(s, a))
  {
    if a.Issue? {
      IssueKeepsOwned(disk0, s, a.rid);
    } else if a.MasterReceive? {
      MasterReceiveKeepsOwned(disk0, s, a.rid, a.heap);
    } else if a.SlaveExecute? {
      SlaveKeepsBooks(s, a.rid, a.beyond);
    } else {
      OthersKeepTable(s, a);
    }
  }

  lemma {:induction false} RunOwned(states: seq<State>, actions: seq<Action>, i: nat)
    requires Run(states, actions) && i < |states|
    ensures OwnedIn(states[i])
  {
    if i > 0 {
      RunOwned(states, actions, i - 1);
      RunKeeps(states, actions, i - 1);
      NextOwned(states[0].disk, states[i - 1], actions[i - 1]);
    }
  }

  lemma AwaitedIff(disk0: seq<Byte>, s: State, id: int)
    requires Inv(disk0, s) && Owned(s.table, s.idOf, s.matched)
    ensures id in AsMap(s.table) <==> Awaited(s.idOf, s.matched, id)
  {
  }

  /** Exactly when the lookup fails: in any state of any run, a reply that carries the id `id`, of
      whatever length and content, ends the process if and only if no request awaits a reply under
      that id. */
  lemma LookupFailsIff(states: seq<State>, actions: seq<Action>, i: nat, rid: nat,
                       len: nat, id: int, key: int, src: seq<Byte>, heap: seq<Byte>)
    requires Run(states, actions) && i < |states|
    requires |heap| == BUFF_SIZE + 1 && len < TWO_32 && -TWO_31 <= id < TWO_31 && key in {READ, WRITE}
    requires ReplyArrives(len, id, key, src)
    ensures DoMasterReceive(Delivering(states[i], rid, ReplyDatagram(len, id, key, src)), rid, heap).crashed
            <==> !Awaited(states[i].idOf, states[i].matched, id)
  {
    RunKeeps(states, actions, i);
    RunOwned(states, actions, i);
    LookupFails(states[i], rid, len, id, key, src, heap);
    AwaitedIff(states[0].disk, states[i], id);
  }

  /** Ids are not given anew, and an id that was swapped back stays swapped back. */
  ghost predicate Remembers(s: State, s': State) {
    && s.matched <= s'.matched
    && forall rid :: rid in s.idOf ==> rid in s'.idOf && s'.idOf[rid] == s.idOf[rid]
  }

  lemma IssueRemembers(s: State, rid: nat)
    requires rid < |s.received| && !ReqOf(s, rid).op.LocalOp? && rid !in s.idOf
    ensures Remembers(s, DoIssue(s, rid))
  {
  }

  lemma MasterReceiveRemembers(s: State, rid: nat, heap: seq<Byte>)
    requires rid in s.work && s.work[rid].ToMaster? && |heap| == BUFF_SIZE + 1
    ensures Remembers(s, DoMasterReceive(s, rid, heap))
  {
  }

  lemma NextRemembersIds(disk0: seq<Byte>, s: State, a: Action)
    requires Inv(disk0, s) && Enabled(s, a)
    ensures Remembers(s, Next(s, a))
  {
    match a
    case Issue(rid) =>
      assert Get(s.idOf, rid).None?;
      IssueRemembers(s, rid);
    case MasterReceive(rid, heap) => MasterReceiveRemembers(s, rid, heap);
    case SlaveExecute(rid, beyond) => SlaveKeepsBooks(s, rid, beyond);
    case _ => OthersKeepTable(s, a);
  }

  lemma {:induction false} RemembersChain(states: seq<State>, i: nat, k: nat)
    requires i <= k < |states| && forall j :: i < j <= k ==> Remembers(states[j - 1], states[j])
    ensures Remembers(states[i], states[k])
  {
    if i < k {
      RemembersChain(states, i, k - 1);
      assert Remembers(states[k - 1], states[k]);
    }
  }

  lemma StepRemembersIds(states: seq<State>, actions: seq<Action>, j: nat)
    requires Run(states, actions) && j < |actions|
    ensures Remembers(states[j], states[j + 1])
  {
    RunKeeps(states, actions, j);
    NextRemembersIds(states[0].disk, states[j], actions[j]);
  }

  lemma RunRemembersIds(states: seq<State>, actions: seq<Action>, i: nat, k: nat)
    requires Run(states, actions) && i <= k < |states|
    ensures Remembers(states[i], states[k])
  {
    forall j | i < j <= k ensures Remembers(states[j - 1], states[j]) {
      StepRemembersIds(states, actions, j - 1);
    }
    RemembersChain(states, i, k);
  }

  lemma DeliveredIsMatched(s: State, rid: nat, heap: seq<Byte>)
    requires rid in s.work && s.work[rid].ToMaster? && |heap| == BUFF_SIZE + 1
    ensures DoMasterReceive(s, rid, heap).crashed || rid in DoMasterReceive(s, rid, heap).matched
  {
  }

  lemma DeliveryIsRemembered(states: seq<State>, actions: seq<Action>, i: nat, k: nat)
    requires Run(states, actions) && i < k < |states| && actions[i].MasterReceive?
    ensures actions[i].rid in states[k].matched
  {
    RunKeeps(states, actions, i + 1);
    RunRemembersIds(states, actions, i + 1, k);
    DeliveredIsMatched(states[i], actions[i].rid, actions[i].heap);
  }

  /** The network must not duplicate datagrams: delivering a reply a second time, at any later moment
      of any run, ends the process. */
  lemma DuplicateEndsProcess(states: seq<State>, actions: seq<Action>, i: nat, k: nat, heap: seq<Byte>)
    requires Run(states, actions) && i < k < |states| && actions[i].MasterReceive? && |heap| == BUFF_SIZE + 1
    ensures var rid := actions[i].rid;
      && rid in states[i].work && states[i].work[rid].ToMaster?
      && DoMasterReceive(Delivering(states[k], rid, states[i].work[rid].datagram), rid, heap).crashed
  {
    var s, rid := states[i], actions[i].rid;
    RunKeeps(states, actions, i);
    RunKeeps(states, actions, k);
    RunRemembersIds(states, actions, i, k);
    DeliveryIsRemembered(states, actions, i, k);
    var op, e := ReqOf(s, rid).op, s.log[s.execAt[rid]];
    assert SentBack(s.work[rid].datagram, op, s.idOf[rid], e);
    LookupFails(states[k], rid, op.Len(), s.idOf[rid], op.Key(), MessageOf(e), heap);
  }

  /** The network promises nothing: in every run each datagram on its way may be the next to arrive,
      whatever was sent before it, or may be lost. */
  lemma AnyDatagramIsNext(states: seq<State>, actions: seq<Action>, i: nat, rid: nat, heap: seq<Byte>)
    requires Run(states, actions) && i < |states| && rid in states[i].work && |heap| == BUFF_SIZE + 1
    ensures states[i].work[rid].ToSlave? ==> Enabled(states[i], Lose(rid)) && Enabled(states[i], SlaveReceive(rid, heap))
    ensures states[i].work[rid].ToMaster? ==> Enabled(states[i], Lose(rid)) && Enabled(states[i], MasterReceive(rid, heap))
    ensures Enabled(states[i], Lose(rid)) ==> Next(states[i], Lose(rid)) == states[i].(work := states[i].work - {rid})
  {
    RunKeeps(states, actions, i);
  }

  // ---- the requests that were delivered ---------------------------------------------------

  /** The requests that the first `n` actions of a run deliver, in order. */
  function Asked(actions: seq<Action>, n: nat): seq<Request>
    requires n <= |actions|
  {
    if n == 0 then []
    else Asked(actions, n - 1) + if actions[n - 1].Receive? then [actions[n - 1].req] else []
  }

  function Requests(received: seq<Arrival>): (reqs: seq<Request>)
    ensures |reqs| == |received| && forall rid :: 0 <= rid < |reqs| ==> reqs[rid] == received[rid].req
  {
    seq(|received|, rid requires 0 <= rid < |received| => received[rid].req)
  }

  /** The histories only grow: by the request that is delivered, stamped with what came before it. */
  ghost predicate Grows(s: State, a: Action, s': State) {
    && s.replies <= s'.replies
    && s'.received == s.received + if a.Receive? then [Arrival(a.req, |s.replies|, |s.log|)] else []
  }

  lemma NextGrows(s: State, a: Action)
    requires Enabled(s, a)
    ensures Grows(s, a, Next(s, a))
  {
    if a.SlaveExecute? {
      SlaveKeepsBooks(s, a.rid, a.beyond);
    }
  }

  lemma AskedGrows(s: State, a: Action, s': State, before: seq<Request>)
    requires Grows(s, a, s') && Requests(s.received) == before
    ensures Requests(s'.received) == before + if a.Receive? then [a.req] else []
  {
  }

  /** What the protocol works for are the requests that were delivered, each as it was, in order. */
  lemma {:induction false} AskedIsReceived(states: seq<State>, actions: seq<Action>, i: nat)
    requires Run(states, actions) && i < |states|
    ensures Requests(states[i].received) == Asked(actions, i)
  {
    if i > 0 {
      AskedIsReceived(states, actions, i - 1);
      NextGrows(states[i - 1], actions[i - 1]);
      AskedGrows(states[i - 1], actions[i - 1], states[i], Asked(actions, i - 1));
    }
  }

  /** A request that arrived after step `a` is stamped with no fewer replies than there were then. */
  lemma {:induction false} ArrivedLater(states: seq<State>, actions: seq<Action>, a: nat, i: nat, rid: nat)
    requires a <= i < |states| && |actions| + 1 == |states|
    requires forall k :: a <= k < i ==> Grows(states[k], actions[k], states[k + 1])
    requires |states[a].received| <= rid < |states[i].received|
    ensures states[a].replies <= states[i].replies
    ensures |states[a].replies| <= states[i].received[rid].repliesBefore
  {
    assert Grows(states[i - 1], actions[i - 1], states[i - 1 + 1]);
    RepliesGrow(states, actions, a, i - 1);
    if rid < |states[i - 1].received| {
      ArrivedLater(states, actions, a, i - 1, rid);
    }
  }

  lemma {:induction false} RepliesGrow(states: seq<State>, actions: seq<Action>, a: nat, i: nat)
    requires a <= i < |states| && |actions| + 1 == |states|
    requires forall k :: a <= k < i ==> Grows(states[k], actions[k], states[k + 1])
    ensures states[a].replies <= states[i].replies
  {
    if a < i {
      RepliesGrow(states, actions, a, i - 1);
      assert Grows(states[i - 1], actions[i - 1], states[i - 1 + 1]);
    }
  }

  // ---- correlation ----------------------------------------------------------------------

  /** How many bytes of data the client waits for. */
  function AnswerSize(op: Op): nat {
    if op.ReadOp? then op.size else 0
  }

  /** The replies answer the requests delivered. */
  ghost predicate Correlated(asked: seq<Request>, s: State) {
    && (forall j :: 0 <= j < |s.replies| ==>
          && s.replies[j].rid < |asked| && s.replies[j].rid !in s.work
          && s.replies[j].handle == asked[s.replies[j].rid].handle
          && |s.replies[j].body| == AnswerSize(asked[s.replies[j].rid].op))
    && (forall j, k :: 0 <= j < k < |s.replies| ==> s.replies[j].rid != s.replies[k].rid)
  }

  lemma InvCorrelated(disk0: seq<Byte>, s: State)
    requires Inv(disk0, s)
    ensures Correlated(Requests(s.received), s)
  {
    forall j | 0 <= j < |s.replies|
      ensures |s.replies[j].body| == AnswerSize(s.received[s.replies[j].rid].req.op)
    {
      var reply := s.replies[j];
      assert AnswerOk(reply, s.received[reply.rid].req, EffectFor(s.log, s.execAt, reply.rid));
    }
  }

  /** Every reply carries the handle of a request that was delivered, and as much data as that asked
      for; no request is answered twice; nothing works any longer for a request that was answered. */
  lemma RepliesCorrelate(states: seq<State>, actions: seq<Action>, i: nat)
    requires Run(states, actions) && i < |states|
    ensures Correlated(Asked(actions, i), states[i])
  {
    RunKeeps(states, actions, i);
    AskedIsReceived(states, actions, i);
    InvCorrelated(states[0].disk, states[i]);
  }

  // ---- linearizability ------------------------------------------------------------------

  /** The client's requests in the order the slave executed them. */
  ghost function Order(asked: seq<Request>, log: seq<Effect>): (ops: seq<Op>)
    requires forall p :: 0 <= p < |log| ==> log[p].rid < |asked|
    ensures |ops| == |log|
    ensures forall p :: 0 <= p < |ops| ==> ops[p] == asked[log[p].rid].op
  {
    seq(|log|, p requires 0 <= p < |log| => asked[log[p].rid].op)
  }

  /** Position in the execution order. */
  ghost predicate ExecutedAt(s: State, rid: nat, p: nat) {
    p < |s.log| && s.log[p].rid == rid
  }

  ghost predicate Placed(asked: seq<Request>, s: State, rid: nat) {
    rid < |asked| && (!asked[rid].op.LocalOp? ==> exists p :: ExecutedAt(s, rid, p))
  }

  /** Every answered READ or WRITE has exactly one place in the execution order, each place is the
      execution of a delivered request as it was asked, and the array is that of these executions. */
  ghost predicate Linearized(disk0: seq<Byte>, asked: seq<Request>, s: State) {
    && (forall p :: 0 <= p < |s.log| ==> s.log[p].rid < |asked| && EffectOf(s.log[p], asked[s.log[p].rid].op))
    && (forall p, q :: 0 <= p < q < |s.log| ==> s.log[p].rid != s.log[q].rid)
    && (forall j :: 0 <= j < |s.replies| ==> Placed(asked, s, s.replies[j].rid))
    && s.disk == DiskAfter(disk0, s.log)
  }

  lemma InvLinearized(disk0: seq<Byte>, s: State)
    requires Inv(disk0, s)
    ensures Linearized(disk0, Requests(s.received), s)
  {
    forall j | 0 <= j < |s.replies|
      ensures Placed(Requests(s.received), s, s.replies[j].rid)
    {
      if !s.received[s.replies[j].rid].req.op.LocalOp? {
        assert ExecutedAt(s, s.replies[j].rid, s.execAt[s.replies[j].rid]);
      }
    }
  }

  lemma ReplyComesFirst(disk0: seq<Byte>, s: State, j: nat, p: nat, q: nat)
    requires Inv(disk0, s) && j < |s.replies| && ExecutedAt(s, s.replies[j].rid, p) && q < |s.log|
    requires s.log[q].rid < |s.received| && j < s.received[s.log[q].rid].repliesBefore
    ensures p < q
  {
  }

  /** Of two executions up to state `i`, the request of the one at `p` had been answered in state `a`,
      by reply `j`, and that of the one at `q` was delivered after it. */
  ghost predicate AnsweredBefore(states: seq<State>, actions: seq<Action>, i: nat, a: nat, j: nat, p: nat, q: nat)
    requires i < |states| == |actions| + 1
  {
    && a <= i && j < |states[a].replies| && ExecutedAt(states[i], states[a].replies[j].rid, p)
    && q < |states[i].log| && |Asked(actions, a)| <= states[i].log[q].rid
  }

  lemma RealTimeOrder(states: seq<State>, actions: seq<Action>, a: nat, i: nat, j: nat, p: nat, q: nat)
    requires Run(states, actions) && i < |states| && AnsweredBefore(states, actions, i, a, j, p, q)
    ensures p < q
  {
    RunKeeps(states, actions, i);
    AskedIsReceived(states, actions, a);
    forall k | a <= k < i ensures Grows(states[k], actions[k], states[k + 1]) {
      NextGrows(states[k], actions[k]);
    }
    RepliesGrow(states, actions, a, i);
    ArrivedLater(states, actions, a, i, states[i].log[q].rid);
    ReplyComesFirst(states[0].disk, states[i], j, p, q);
  }

  /** The execution order is a linearization: every answered READ or WRITE has exactly one place
      in it, each place is the execution of a delivered request as it was asked, the array is that of
      these executions, and a request answered before another one was delivered comes before it. */
  lemma ExecutionOrderIsLinear(states: seq<State>, actions: seq<Action>, i: nat)
    requires Run(states, actions) && i < |states|
    ensures Linearized(states[0].disk, Asked(actions, i), states[i])
    ensures forall a: nat, j: nat, p: nat, q: nat :: AnsweredBefore(states, actions, i, a, j, p, q) ==> p < q
  {
    RunKeeps(states, actions, i);
    AskedIsReceived(states, actions, i);
    InvLinearized(states[0].disk, states[i]);
    forall a: nat, j: nat, p: nat, q: nat | AnsweredBefore(states, actions, i, a, j, p, q) ensures p < q {
      RealTimeOrder(states, actions, a, i, j, p, q);
    }
  }

  /** `body` is what a READ found in `disk`: up to and including the first NUL, and altogether without
      an early NUL. */
  predicate Found(body: seq<Byte>, disk: seq<Byte>, op: Op) {
    && op.ReadOp? && InRange(op.offset, op.size, |disk|)
    && var held := disk[op.offset..op.offset + op.size];
    && CarriedFrom(body, held)
    && (!EarlyNul(held) ==> body == held)
  }

  lemma ReadFinds(body: seq<Byte>, disk: seq<Byte>, op: Op)
    requires op.ReadOp? && InRange(op.offset, op.size, |disk|)
    requires CarriedFrom(body, disk[op.offset..op.offset + op.size])
    ensures Found(body, disk, op)
  {
    var held := disk[op.offset..op.offset + op.size];
    if !EarlyNul(held) {
      CarriedExact(body, held);
    }
  }

  /** Reads see the array. Any READ reply of any run answers the READ at one place p of the
      execution order; what it carries are the bytes of the array after exactly the executions
      before p: up to and including the first NUL, and altogether without an early NUL. */
  lemma ReadsSeeTheArray(states: seq<State>, actions: seq<Action>, i: nat, j: nat) returns (p: nat)
    requires Run(states, actions) && i < |states| && j < |states[i].replies|
    requires states[i].replies[j].rid < |Asked(actions, i)|
    requires Asked(actions, i)[states[i].replies[j].rid].op.ReadOp?
    ensures ExecutedAt(states[i], states[i].replies[j].rid, p)
    ensures Found(states[i].replies[j].body, DiskAfter(states[0].disk, states[i].log[..p]),
                  Asked(actions, i)[states[i].replies[j].rid].op)
  {
    RunKeeps(states, actions, i);
    AskedIsReceived(states, actions, i);
    p := ReadPlace(states[0].disk, states[i], j);
  }

  lemma ReadPlace(disk0: seq<Byte>, s: State, j: nat) returns (p: nat)
    requires Inv(disk0, s) && j < |s.replies|
    requires s.replies[j].rid < |s.received| && s.received[s.replies[j].rid].req.op.ReadOp?
    ensures ExecutedAt(s, s.replies[j].rid, p)
    ensures Found(s.replies[j].body, DiskAfter(disk0, s.log[..p]), s.received[s.replies[j].rid].req.op)
  {
    var reply := s.replies[j];
    p := s.execAt[reply.rid];
    assert AnswerOk(reply, s.received[reply.rid].req, EffectFor(s.log, s.execAt, reply.rid));
    assert ReadSees(disk0, s.log, p);
    ReadFinds(reply.body, DiskAfter(disk0, s.log[..p]), s.received[reply.rid].req.op);
  }
}
