/** What every step of the block protocol keeps. */
module BlockProtocolProof {
  import opened Bytes
  import opened Decimal
  import opened RequestCodec
  import opened ReplyCodec
  import opened HandleTable
  import opened SlaveStorage
  import opened BlockProtocol

  // ---- the sequential device ------------------------------------------------------------

  function Apply(disk: seq<Byte>, e: Effect): (r: seq<Byte>)
    ensures |r| == |disk|
  {
    if e.DidWrite? && InRange(e.offset, |e.bytes|, |disk|) then Splice(disk, e.offset, e.bytes) else disk
  }

  /** The array after the operations of `log`, one after the other. */
  function DiskAfter(disk0: seq<Byte>, log: seq<Effect>): (r: seq<Byte>)
    ensures |r| == |disk0|
  {
    if log == [] then disk0 else Apply(DiskAfter(disk0, log[..|log| - 1]), log[|log| - 1])
  }

  // ---- the invariant --------------------------------------------------------------------

  datatype Option<T> = None | Some(value: T)

  function Get<T>(m: map<nat, T>, rid: nat): Option<T> {
    if rid in m then Some(m[rid]) else None
  }

  function EffectFor(log: seq<Effect>, execAt: map<nat, nat>, rid: nat): Option<Effect> {
    if rid in execAt && execAt[rid] < |log| then Some(log[execAt[rid]]) else None
  }

  /** `e` is the execution of `op`, a WRITE's bytes being what C strings carry of its payload. */
  ghost predicate EffectOf(e: Effect, op: Op) {
    match op
    case WriteOp(offset, data) => e.DidWrite? && e.offset == offset && CarriedFrom(e.bytes, data)
    case ReadOp(offset, size) => e.DidRead? && e.offset == offset && |e.bytes| == size
    case LocalOp => false
  }

  ghost predicate Sent(d: seq<Byte>, op: Op, id: int) {
    && !op.LocalOp?
    && Fits(op.offset, op.Len(), id, |op.Payload()|)
    && d == Datagram(op.offset, op.Len(), id, KeyChar(op.Key()), op.Payload())
  }

  ghost predicate Queued(r: SlaveRequest, op: Op, id: int) {
    && !op.LocalOp?
    && r.offset == op.offset && r.len == op.Len() && r.reqId == id && r.key == op.Key()
    && (op.WriteOp? ==> |r.buff| == BUFF_SIZE + 1 && r.len <= |r.buff| && CarriedFrom(r.buff[..r.len], op.data))
  }

  function MessageOf(e: Effect): seq<Byte> {
    if e.DidRead? then e.bytes + e.beyond else []
  }

  ghost predicate SentBack(d: seq<Byte>, op: Op, id: int, e: Effect) {
    && EffectOf(e, op)
    && ReplyArrives(op.Len(), id, op.Key(), MessageOf(e))
    && d == ReplyDatagram(op.Len(), id, op.Key(), MessageOf(e))
  }

  ghost predicate Matched(w: Work, req: Request, e: Effect)
    requires w.ToClient?
  {
    && EffectOf(e, req.op)
    && w.handle == req.handle && w.key == req.op.Key() && w.len == req.op.Len()
    && (req.op.ReadOp? ==> |w.buff| == BUFF_SIZE + 1 && w.len <= |w.buff| && CarriedFrom(w.buff[..w.len], e.bytes))
  }

  /** How far a request has come, and what the object that works for it carries. */
  ghost predicate WorkOk(w: Work, req: Request, id: Option<int>, e: Option<Effect>, matched: bool) {
    match w
    case Waiting => id.None? && e.None? && !matched
    case ToSlave(d) => id.Some? && e.None? && !matched && Sent(d, req.op, id.value)
    case AtSlave(r) => id.Some? && e.None? && !matched && Queued(r, req.op, id.value)
    case ToMaster(d) => id.Some? && e.Some? && !matched && SentBack(d, req.op, id.value, e.value)
    case ToClient(_, _, _, _) => id.Some? && e.Some? && matched && Matched(w, req, e.value)
  }

  /** A reply carries the handle of its request and, for a READ, the bytes its execution saw. */
  ghost predicate AnswerOk(reply: Reply, req: Request, e: Option<Effect>) {
    && reply.handle == req.handle
    && (req.op.LocalOp? <==> e.None?)
    && (e.Some? ==> EffectOf(e.value, req.op))
    && if req.op.ReadOp? then e.Some? && CarriedFrom(reply.body, e.value.bytes) else reply.body == []
  }

  ghost predicate Working(received: seq<Arrival>, work: map<nat, Work>, idOf: map<nat, int>,
                          log: seq<Effect>, execAt: map<nat, nat>, matched: set<nat>) {
    forall rid :: rid in work ==>
      && rid < |received|
      && WorkOk(work[rid], received[rid].req, Get(idOf, rid), EffectFor(log, execAt, rid), rid in matched)
  }

  /** No request is answered twice, and none that was answered is still worked for. */
  ghost predicate Replying(received: seq<Arrival>, work: map<nat, Work>, replies: seq<Reply>,
                           log: seq<Effect>, execAt: map<nat, nat>) {
    && (forall j :: 0 <= j < |replies| ==>
          && replies[j].rid < |received| && replies[j].rid !in work
          && AnswerOk(replies[j], received[replies[j].rid].req, EffectFor(log, execAt, replies[j].rid)))
    && (forall i, j :: 0 <= i < j < |replies| ==> replies[i].rid != replies[j].rid)
  }

  /** Ids are fresh, and the table holds those the master has not swapped back. */
  ghost predicate Ids(received: seq<Arrival>, idOf: map<nat, int>, table: seq<Entry>, lastId: nat, matched: set<nat>) {
    && lastId < TWO_31
    && Ordered(table, lastId)
    && (forall rid :: rid in idOf ==>
          && 1 <= idOf[rid] <= lastId && rid < |received|
          && (rid in matched <==> idOf[rid] !in AsMap(table))
          && (rid !in matched ==> AsMap(table)[idOf[rid]] == received[rid].req.handle))
    && (forall a, b :: a in idOf && b in idOf && a != b ==> idOf[a] != idOf[b])
    && (forall rid :: rid in matched ==> rid in idOf)
  }

  /** Each request is executed at most once, as it was asked, and not before it was received. */
  ghost predicate Executions(received: seq<Arrival>, log: seq<Effect>, execAt: map<nat, nat>) {
    && (forall rid :: rid in execAt ==>
          && execAt[rid] < |log| && log[execAt[rid]].rid == rid
          && rid < |received| && EffectOf(log[execAt[rid]], received[rid].req.op)
          && received[rid].logBefore <= execAt[rid])
    && (forall p :: 0 <= p < |log| ==> log[p].rid in execAt && execAt[log[p].rid] == p)
  }

  ghost predicate ReadSees(disk0: seq<Byte>, log: seq<Effect>, p: nat)
    requires p < |log|
  {
    log[p].DidRead? ==>
      && InRange(log[p].offset, |log[p].bytes|, |disk0|)
      && log[p].bytes == DiskAfter(disk0, log[..p])[log[p].offset..log[p].offset + |log[p].bytes|]
  }

  /** The slave's array is that of the sequential device, and every read returned what it held. */
  ghost predicate Sequential(disk0: seq<Byte>, disk: seq<Byte>, log: seq<Effect>) {
    && disk == DiskAfter(disk0, log)
    && forall p :: 0 <= p < |log| ==> ReadSees(disk0, log, p)
  }

  /** Whatever was answered before a request arrived had been executed before it arrived. */
  ghost predicate Stamps(received: seq<Arrival>, replies: seq<Reply>, log: seq<Effect>,
                         execAt: map<nat, nat>, deviceSize: nat) {
    forall rid :: 0 <= rid < |received| ==>
      && ValidOp(received[rid].req.op, deviceSize)
      && received[rid].repliesBefore <= |replies| && received[rid].logBefore <= |log|
      && forall j :: 0 <= j < received[rid].repliesBefore && replies[j].rid in execAt ==>
           execAt[replies[j].rid] < received[rid].logBefore
  }

  ghost predicate Inv(disk0: seq<Byte>, s: State) {
    && !s.crashed
    && Working(s.received, s.work, s.idOf, s.log, s.execAt, s.matched)
    && Replying(s.received, s.work, s.replies, s.log, s.execAt)
    && Ids(s.received, s.idOf, s.table, s.lastId, s.matched)
    && Executions(s.received, s.log, s.execAt)
    && Sequential(disk0, s.disk, s.log)
    && Stamps(s.received, s.replies, s.log, s.execAt, |s.disk|)
  }

  lemma InitInv(s: State)
    requires Init(s)
    ensures Inv(s.disk, s)
  {
  }

  lemma ReceiveKeeps(disk0: seq<Byte>, s: State, req: Request)
    requires Inv(disk0, s) && ValidOp(req.op, |s.disk|)
    ensures Inv(disk0, DoReceive(s, req))
  {
  }

  /** One more reply, to a request that nothing works for any longer. */
  lemma AppendReply(received: seq<Arrival>, work: map<nat, Work>, replies: seq<Reply>, log: seq<Effect>,
                    execAt: map<nat, nat>, reply: Reply, deviceSize: nat)
    requires Replying(received, work, replies, log, execAt) && Stamps(received, replies, log, execAt, deviceSize)
    requires reply.rid in work && reply.rid < |received|
    requires AnswerOk(reply, received[reply.rid].req, EffectFor(log, execAt, reply.rid))
    ensures Replying(received, work - {reply.rid}, replies + [reply], log, execAt)
    ensures Stamps(received, replies + [reply], log, execAt, deviceSize)
  {
  }

  lemma ReplyLocallyKeeps(disk0: seq<Byte>, s: State, rid: nat)
    requires Inv(disk0, s) && rid in s.work && s.work[rid].Waiting? && ReqOf(s, rid).op.LocalOp?
    ensures Inv(disk0, DoReplyLocally(s, rid))
  {
    AppendReply(s.received, s.work, s.replies, s.log, s.execAt, Reply(rid, ReqOf(s, rid).handle, []), |s.disk|);
  }

  lemma LoseKeeps(disk0: seq<Byte>, s: State, rid: nat)
    requires Inv(disk0, s)
    ensures Inv(disk0, DoLose(s, rid))
  {
  }

  // ---- codecs: from one object to the next ----------------------------------------------

  lemma PrintedIsSent(op: Op, deviceSize: nat, id: int)
    requires !op.LocalOp? && ValidOp(op, deviceSize) && 1 <= id < TWO_31
    ensures Fits(op.offset, op.Len(), id, |op.Payload()|)
    ensures Sent(Datagram(op.offset, op.Len(), id, KeyChar(op.Key()), op.Payload()), op, id)
  {
    HeaderLength(op.offset, op.Len(), id, DIGIT_0);
  }

  lemma SentIsQueued(d: seq<Byte>, op: Op, deviceSize: nat, id: int, heap: seq<Byte>)
    requires Sent(d, op, id) && ValidOp(op, deviceSize) && 1 <= id < TWO_31 && |heap| == BUFF_SIZE + 1
    ensures |d| == BUFF_SIZE && Parseable(Received(d)) && Queued(Parse(Received(d), heap), op, id)
  {
    RequestRoundTrip(op.offset, op.Len(), id, op.Key(), op.Payload(), heap);
  }

  lemma WriteIsSentBack(r: SlaveRequest, op: Op, deviceSize: nat, id: int, rid: nat)
    requires Queued(r, op, id) && op.WriteOp? && ValidOp(op, deviceSize) && 1 <= id < TWO_31
    ensures ReplyFits(r.len, r.reqId, WRITE, r.buff)
    ensures SentBack(ReplyDatagram(r.len, r.reqId, WRITE, r.buff), op, id, DidWrite(rid, r.offset, r.buff[..r.len]))
  {
    ReplyHeaderLength(r.len, id, WRITE);
    assert ReplyDatagram(r.len, id, WRITE, r.buff) == ReplyDatagram(r.len, id, WRITE, []);
  }

  lemma ReadIsSentBack(r: SlaveRequest, op: Op, deviceSize: nat, id: int, rid: nat, data: seq<Byte>, beyond: seq<Byte>)
    requires Queued(r, op, id) && op.ReadOp? && ValidOp(op, deviceSize) && 1 <= id < TWO_31
    requires |data| == r.len && Terminated(data + beyond) && |CString(data + beyond)| <= MAX_MESSAGE
    ensures ReplyFits(r.len, r.reqId, READ, data + beyond)
    ensures SentBack(ReplyDatagram(r.len, r.reqId, READ, data + beyond), op, id, DidRead(rid, r.offset, data, beyond))
  {
    ReplyHeaderLength(r.len, id, READ);
  }

  lemma SentBackIsMatched(d: seq<Byte>, req: Request, deviceSize: nat, id: int, e: Effect, heap: seq<Byte>)
    requires SentBack(d, req.op, id, e) && ValidOp(req.op, deviceSize) && 1 <= id < TWO_31 && |heap| == BUFF_SIZE + 1
    ensures |d| == BUFF_SIZE + 1 && ReplyParseable(ReplyReceived(d))
    ensures var r := ParseReply(ReplyReceived(d), heap);
            r.reqId == id && Matched(ToClient(req.handle, r.key, r.len, r.buff), req, e)
  {
    if req.op.ReadOp? {
      ReplyRoundTrip(id, READ, e.bytes, e.beyond, heap);
    } else {
      ReplyParsed(req.op.Len(), id, WRITE, [], heap);
    }
  }

  // ---- Issue ----------------------------------------------------------------------------

  /** Another object takes over the work for `rid`. */
  lemma WorkReplaced(s: State, rid: nat, w: Work, id: int)
    requires Working(s.received, s.work, s.idOf, s.log, s.execAt, s.matched)
    requires Replying(s.received, s.work, s.replies, s.log, s.execAt)
    requires rid in s.work && (rid in s.idOf ==> s.idOf[rid] == id)
    requires WorkOk(w, s.received[rid].req, Some(id), EffectFor(s.log, s.execAt, rid), rid in s.matched)
    ensures Working(s.received, s.work[rid := w], s.idOf[rid := id], s.log, s.execAt, s.matched)
    ensures Replying(s.received, s.work[rid := w], s.replies, s.log, s.execAt)
    ensures rid in s.idOf ==> s.idOf[rid := id] == s.idOf
  {
  }

  lemma IssueIds(received: seq<Arrival>, idOf: map<nat, int>, table: seq<Entry>, lastId: nat, matched: set<nat>, rid: nat)
    requires Ids(received, idOf, table, lastId, matched) && rid < |received| && rid !in idOf && lastId < TWO_31 - 1
    ensures Ids(received, idOf[rid := lastId + 1], [Entry(lastId + 1, received[rid].req.handle)] + table, lastId + 1, matched)
  {
    PushRefinesMap(table, lastId, received[rid].req.handle);
  }

  lemma IssuedKeeps(disk0: seq<Byte>, s: State, rid: nat, d: seq<Byte>)
    requires Inv(disk0, s) && rid in s.work && s.work[rid].Waiting? && s.lastId < TWO_31 - 1
    requires Sent(d, ReqOf(s, rid).op, s.lastId + 1)
    ensures Inv(disk0, s.(lastId := s.lastId + 1, table := [Entry(s.lastId + 1, ReqOf(s, rid).handle)] + s.table,
                          idOf := s.idOf[rid := s.lastId + 1], work := s.work[rid := ToSlave(d)]))
  {
    WorkReplaced(s, rid, ToSlave(d), s.lastId + 1);
    IssueIds(s.received, s.idOf, s.table, s.lastId, s.matched, rid);
  }

  lemma IssueKeeps(disk0: seq<Byte>, s: State, rid: nat)
    requires Inv(disk0, s) && rid in s.work && s.work[rid].Waiting? && !ReqOf(s, rid).op.LocalOp?
    requires s.lastId < TWO_31 - 1
    ensures Inv(disk0, DoIssue(s, rid))
  {
    var op, id := ReqOf(s, rid).op, s.lastId + 1;
    PrintedIsSent(op, |s.disk|, id);
    IssuedKeeps(disk0, s, rid, Datagram(op.offset, op.Len(), id, KeyChar(op.Key()), op.Payload()));
  }

  // ---- the slave ------------------------------------------------------------------------

  lemma SlaveReceiveKeeps(disk0: seq<Byte>, s: State, rid: nat, heap: seq<Byte>)
    requires Inv(disk0, s) && rid in s.work && s.work[rid].ToSlave? && |heap| == BUFF_SIZE + 1
    ensures Inv(disk0, DoSlaveReceive(s, rid, heap))
  {
    var d := s.work[rid].datagram;
    SentIsQueued(d, ReqOf(s, rid).op, |s.disk|, s.idOf[rid], heap);
    WorkReplaced(s, rid, AtSlave(Parse(Received(d), heap)), s.idOf[rid]);
  }

  lemma ExecuteSequential(disk0: seq<Byte>, disk: seq<Byte>, log: seq<Effect>, e: Effect)
    requires Sequential(disk0, disk, log)
    requires e.DidRead? ==> InRange(e.offset, |e.bytes|, |disk|) && e.bytes == disk[e.offset..e.offset + |e.bytes|]
    ensures Sequential(disk0, Apply(disk, e), log + [e])
  {
    var log' := log + [e];
    assert log'[..|log|] == log;
    forall p | 0 <= p < |log'| ensures ReadSees(disk0, log', p) {
      assert log'[..p] == log[..p];
      assert p < |log| ==> ReadSees(disk0, log, p);
    }
  }

  lemma ExecuteWorking(received: seq<Arrival>, work: map<nat, Work>, idOf: map<nat, int>, log: seq<Effect>,
                       execAt: map<nat, nat>, matched: set<nat>, rid: nat, w: Work, e: Effect)
    requires Working(received, work, idOf, log, execAt, matched) && Executions(received, log, execAt)
    requires rid < |received| && WorkOk(w, received[rid].req, Get(idOf, rid), Some(e), rid in matched)
    ensures Working(received, work[rid := w], idOf, log + [e], execAt[rid := |log|], matched)
  {
    assert forall r :: r != rid ==> EffectFor(log + [e], execAt[rid := |log|], r) == EffectFor(log, execAt, r);
  }

  lemma ExecuteHistory(received: seq<Arrival>, replies: seq<Reply>, work: map<nat, Work>, log: seq<Effect>,
                       execAt: map<nat, nat>, deviceSize: nat, rid: nat, w: Work, e: Effect)
    requires Executions(received, log, execAt) && Stamps(received, replies, log, execAt, deviceSize)
    requires Replying(received, work, replies, log, execAt)
    requires rid < |received| && rid in work && rid !in execAt && e.rid == rid && EffectOf(e, received[rid].req.op)
    ensures Executions(received, log + [e], execAt[rid := |log|])
    ensures Stamps(received, replies, log + [e], execAt[rid := |log|], deviceSize)
    ensures Replying(received, work[rid := w], replies, log + [e], execAt[rid := |log|])
  {
    assert forall r :: r != rid ==> EffectFor(log + [e], execAt[rid := |log|], r) == EffectFor(log, execAt, r);
  }

  lemma ExecutedKeeps(disk0: seq<Byte>, s: State, rid: nat, d: seq<Byte>, e: Effect)
    requires Inv(disk0, s) && rid in s.work && s.work[rid].AtSlave?
    requires e.rid == rid && SentBack(d, ReqOf(s, rid).op, s.idOf[rid], e)
    requires e.DidRead? ==> InRange(e.offset, |e.bytes|, |s.disk|) && e.bytes == s.disk[e.offset..e.offset + |e.bytes|]
    ensures Inv(disk0, s.(disk := Apply(s.disk, e), log := s.log + [e], execAt := s.execAt[rid := |s.log|],
                          work := s.work[rid := ToMaster(d)]))
  {
    ExecuteSequential(disk0, s.disk, s.log, e);
    ExecuteWorking(s.received, s.work, s.idOf, s.log, s.execAt, s.matched, rid, ToMaster(d), e);
    ExecuteHistory(s.received, s.replies, s.work, s.log, s.execAt, |s.disk|, rid, ToMaster(d), e);
  }

  lemma SlaveWriteKeeps(disk0: seq<Byte>, s: State, rid: nat, beyond: seq<Byte>)
    requires Inv(disk0, s) && rid in s.work && s.work[rid].AtSlave? && ReqOf(s, rid).op.WriteOp?
    ensures Inv(disk0, DoSlaveExecute(s, rid, beyond))
  {
    var op, r, id := ReqOf(s, rid).op, s.work[rid].task, s.idOf[rid];
    WriteIsSentBack(r, op, |s.disk|, id, rid);
    ExecutedKeeps(disk0, s, rid, ReplyDatagram(r.len, r.reqId, WRITE, r.buff), DidWrite(rid, r.offset, r.buff[..r.len]));
  }

  lemma ReadExecuted(s: State, rid: nat, op: Op, beyond: seq<Byte>, r: SlaveRequest, data: seq<Byte>)
    requires rid in s.work && s.work[rid] == AtSlave(r) && MessageEnds(s, rid, beyond)
    requires rid in s.idOf && Queued(r, op, s.idOf[rid]) && op.ReadOp? && ValidOp(op, |s.disk|) && 1 <= s.idOf[rid] < TWO_31
    requires InRange(r.offset, r.len, |s.disk|) && data == s.disk[r.offset..r.offset + r.len]
    ensures ReplyFits(r.len, r.reqId, READ, data + beyond)
    ensures var d, e := ReplyDatagram(r.len, r.reqId, READ, data + beyond), DidRead(rid, r.offset, data, beyond);
      && SentBack(d, op, s.idOf[rid], e)
      && DoSlaveExecute(s, rid, beyond)
         == s.(disk := Apply(s.disk, e), log := s.log + [e], execAt := s.execAt[rid := |s.log|],
               work := s.work[rid := ToMaster(d)])
  {
    ReadIsSentBack(r, op, |s.disk|, s.idOf[rid], rid, data, beyond);
  }

  lemma SlaveReadKeeps(disk0: seq<Byte>, s: State, rid: nat, beyond: seq<Byte>)
    requires Inv(disk0, s) && rid in s.work && s.work[rid].AtSlave? && ReqOf(s, rid).op.ReadOp?
    requires MessageEnds(s, rid, beyond)
    ensures Inv(disk0, DoSlaveExecute(s, rid, beyond))
  {
    var op, r := ReqOf(s, rid).op, s.work[rid].task;
    assert ValidOp(op, |s.disk|);
    var data := s.disk[r.offset..r.offset + r.len];
    ReadExecuted(s, rid, op, beyond, r, data);
    ExecutedKeeps(disk0, s, rid, ReplyDatagram(r.len, r.reqId, READ, data + beyond), DidRead(rid, r.offset, data, beyond));
  }

  // ---- the reply ------------------------------------------------------------------------

  lemma MatchIds(received: seq<Arrival>, idOf: map<nat, int>, table: seq<Entry>, lastId: nat, matched: set<nat>, rid: nat)
    requires Ids(received, idOf, table, lastId, matched) && rid in idOf && rid !in matched
    ensures var i := Find(table, idOf[rid]);
            && i < |table| && table[i].handle == received[rid].req.handle
            && Ids(received, idOf, Without(table, i), lastId, matched + {rid})
  {
    var i := Find(table, idOf[rid]);
    FindRefinesMap(table, idOf[rid]);
    RemoveRefinesMap(table, lastId, i);
    RemoveKeepsOrder(table, lastId, i);
  }

  lemma MatchWorking(received: seq<Arrival>, work: map<nat, Work>, idOf: map<nat, int>, log: seq<Effect>,
                     execAt: map<nat, nat>, matched: set<nat>, rid: nat, w: Work)
    requires Working(received, work, idOf, log, execAt, matched)
    requires rid < |received| && WorkOk(w, received[rid].req, Get(idOf, rid), EffectFor(log, execAt, rid), true)
    ensures Working(received, work[rid := w], idOf, log, execAt, matched + {rid})
  {
  }

  lemma MatchedKeeps(disk0: seq<Byte>, s: State, rid: nat, w: Work)
    requires Inv(disk0, s) && rid in s.work && s.work[rid].ToMaster? && w.ToClient?
    requires Matched(w, ReqOf(s, rid), s.log[s.execAt[rid]])
    ensures var i := Find(s.table, s.idOf[rid]);
      && i < |s.table| && s.table[i].handle == ReqOf(s, rid).handle
      && Inv(disk0, s.(table := Without(s.table, i), matched := s.matched + {rid}, work := s.work[rid := w]))
  {
    MatchIds(s.received, s.idOf, s.table, s.lastId, s.matched, rid);
    MatchWorking(s.received, s.work, s.idOf, s.log, s.execAt, s.matched, rid, w);
  }

  lemma MasterReceiveKeeps(disk0: seq<Byte>, s: State, rid: nat, heap: seq<Byte>)
    requires Inv(disk0, s) && rid in s.work && s.work[rid].ToMaster? && |heap| == BUFF_SIZE + 1
    ensures Inv(disk0, DoMasterReceive(s, rid, heap))
  {
    var req := ReqOf(s, rid);
    SentBackIsMatched(s.work[rid].datagram, req, |s.disk|, s.idOf[rid], s.log[s.execAt[rid]], heap);
    var r := ParseReply(ReplyReceived(s.work[rid].datagram), heap);
    MatchedKeeps(disk0, s, rid, ToClient(req.handle, r.key, r.len, r.buff));
  }

  lemma SendReplyKeeps(disk0: seq<Byte>, s: State, rid: nat)
    requires Inv(disk0, s) && rid in s.work && s.work[rid].ToClient?
    ensures Inv(disk0, DoSendReply(s, rid))
  {
    var t := s.work[rid];
    var reply := Reply(rid, t.handle, if t.key == READ then t.buff[..t.len] else []);
    AppendReply(s.received, s.work, s.replies, s.log, s.execAt, reply, |s.disk|);
  }
}
