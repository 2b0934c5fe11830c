/** The path of a request from the NBD socket to the slave and back, as a step system over real
    datagrams: include/nbd_tasks.hpp, src/cloud_storage.cpp, src/slave_driver_proxy.cpp,
    include/slave_tasks.hpp, src/slave_gateway.cpp.

    Requests are named by their position in `received`. The name labels the object that works for
    a request (a task, a datagram) so that runs can be talked about; no step decides by it. */
module BlockProtocol {
  import opened Bytes
  import opened Decimal
  import opened RequestCodec
  import opened ReplyCodec
  import opened HandleTable
  import opened SlaveStorage

  // ---- requests and their effects -------------------------------------------------------

  datatype Op =
    | ReadOp(offset: nat, size: nat)
    | WriteOp(offset: nat, data: seq<Byte>)
    | LocalOp  // FLUSH, TRIM, BAD_REQUEST: answered without the slave
  {
    function Len(): nat requires !LocalOp? { if ReadOp? then size else |data| }
    function Key(): int requires !LocalOp? { if ReadOp? then READ else WRITE }
    function Payload(): seq<Byte> requires !LocalOp? { if ReadOp? then [] else data }
  }

  datatype Request = Request(handle: Handle, op: Op)

  /** A request with two stamps of the moment it was received: how many replies had gone out and
      how many operations the slave had executed. */
  datatype Arrival = Arrival(req: Request, repliesBefore: nat, logBefore: nat)

  /** One operation executed at the slave. */
  datatype Effect =
    | DidWrite(rid: nat, offset: nat, bytes: seq<Byte>)
    | DidRead(rid: nat, offset: nat, bytes: seq<Byte>, beyond: seq<Byte>)

  /** The object that works for a request: a task is moved, a datagram is sent once and consumed
      by the receive that delivers it. */
  datatype Work =
    | Waiting                                     // NBDRead, NBDWrite, NBDFlush, ... in the master's pool
    | ToSlave(datagram: seq<Byte>)                // from sendto() at the master to recvfrom() at the slave
    | AtSlave(task: SlaveRequest)                 // SlaveRead, SlaveWrite in the slave's pool
    | ToMaster(datagram: seq<Byte>)               // from sendto() at the slave to recvfrom() at the master
    | ToClient(handle: Handle, key: int, len: nat, buff: seq<Byte>)  // NBDReplay in the master's pool

  datatype Reply = Reply(rid: nat, handle: Handle, body: seq<Byte>)

  /** What the NBD client promises: a 64-bit offset, a range inside the device, and at most the
      transfer size the device was set up with. */
  predicate ValidOp(op: Op, deviceSize: nat) {
    op.LocalOp? || (op.offset < TWO_64 && InRange(op.offset, op.Len(), deviceSize) && op.Len() <= MAX_TRANSFER)
  }

  // ---- state ----------------------------------------------------------------------------

  datatype State = State(
    received: seq<Arrival>,   // history: the requests read from the NBD socket
    work: map<nat, Work>,     // the object that works for each request
    table: seq<Entry>,        // CloudStorage::m_list
    lastId: nat,              // CloudStorage::m_req_id
    disk: seq<Byte>,          // the slave's array
    replies: seq<Reply>,      // history: the replies written to the NBD socket
    crashed: bool,            // exit(1), or memory outside a buffer touched
    idOf: map<nat, int>,      // history: the id each request was given
    log: seq<Effect>,         // history: the executions at the slave
    execAt: map<nat, nat>,    // history: where in `log` a request was executed
    matched: set<nat>)        // history: the requests whose id the master swapped back

  ghost predicate Init(s: State) {
    && s.received == [] && s.work == map[] && s.table == [] && s.lastId == 0
    && s.replies == [] && !s.crashed && s.idOf == map[] && s.log == [] && s.execAt == map[] && s.matched == {}
  }

  datatype Action =
    | Receive(req: Request)
    | Issue(rid: nat)
    | ReplyLocally(rid: nat)
    | Lose(rid: nat)
    | SlaveReceive(rid: nat, heap: seq<Byte>)
    | SlaveExecute(rid: nat, beyond: seq<Byte>)
    | MasterReceive(rid: nat, heap: seq<Byte>)
    | SendReply(rid: nat)

  function ReqOf(s: State, rid: nat): Request
    requires rid < |s.received|
  {
    s.received[rid].req
  }

  /** In the memory behind a READ's bytes some NUL ends the run that AddMessage copies, before the
      datagram is full. */
  ghost predicate MessageEnds(s: State, rid: nat, beyond: seq<Byte>)
    requires rid in s.work && s.work[rid].AtSlave?
  {
    var r := s.work[rid].task;
    r.key == READ && InRange(r.offset, r.len, |s.disk|) ==>
      && var src := s.disk[r.offset..r.offset + r.len] + beyond;
      && Terminated(src) && |CString(src)| <= MAX_MESSAGE
  }

  /** What the environment guarantees of each step. */
  ghost predicate Enabled(s: State, a: Action) {
    && !s.crashed
    && match a
       case Receive(req) => ValidOp(req.op, |s.disk|)
       case Issue(rid) =>
         rid in s.work && s.work[rid].Waiting? && rid < |s.received|
         && !ReqOf(s, rid).op.LocalOp? && s.lastId < TWO_31 - 1
       case ReplyLocally(rid) =>
         rid in s.work && s.work[rid].Waiting? && rid < |s.received| && ReqOf(s, rid).op.LocalOp?
       case Lose(rid) => rid in s.work && (s.work[rid].ToSlave? || s.work[rid].ToMaster?)
       case SlaveReceive(rid, heap) => rid in s.work && s.work[rid].ToSlave? && |heap| == BUFF_SIZE + 1
       case SlaveExecute(rid, beyond) =>
         rid in s.work && s.work[rid].AtSlave? && MessageEnds(s, rid, beyond)
       case MasterReceive(rid, heap) => rid in s.work && s.work[rid].ToMaster? && |heap| == BUFF_SIZE + 1
       case SendReply(rid) => rid in s.work && s.work[rid].ToClient?
  }

  function Crash(s: State): State {
    s.(crashed := true)
  }

  function DoReceive(s: State, req: Request): State {
    s.(received := s.received + [Arrival(req, |s.replies|, |s.log|)],
       work := s.work[|s.received| := Waiting])
  }

  /** HandlerToId, then the datagram printed and sent. */
  function DoIssue(s: State, rid: nat): State
    requires rid < |s.received| && !ReqOf(s, rid).op.LocalOp?
  {
    var op := ReqOf(s, rid).op;
    var id := s.lastId + 1;
    if !Fits(op.offset, op.Len(), id, |op.Payload()|) then Crash(s) else
      s.(lastId := id,
         table := [Entry(id, ReqOf(s, rid).handle)] + s.table,
         idOf := s.idOf[rid := id],
         work := s.work[rid := ToSlave(Datagram(op.offset, op.Len(), id, KeyChar(op.Key()), op.Payload()))])
  }

  function DoReplyLocally(s: State, rid: nat): State
    requires rid < |s.received|
  {
    s.(work := s.work - {rid}, replies := s.replies + [Reply(rid, ReqOf(s, rid).handle, [])])
  }

  function DoLose(s: State, rid: nat): State {
    s.(work := s.work - {rid})
  }

  /** A parsed request waits in the slave's pool. */
  function DoQueue(s: State, rid: nat, r: SlaveRequest): State {
    s.(work := s.work[rid := AtSlave(r)])
  }

  function DoSlaveReceive(s: State, rid: nat, heap: seq<Byte>): State
    requires rid in s.work && s.work[rid].ToSlave? && |heap| == BUFF_SIZE + 1
  {
    var d := s.work[rid].datagram;
    if |d| != BUFF_SIZE || !Parseable(Received(d)) then Crash(s)
    else DoQueue(s, rid, Parse(Received(d), heap))
  }

  /** SlaveWrite. */
  function DoWrite(s: State, rid: nat, r: SlaveRequest): State
    requires InRange(r.offset, r.len, |s.disk|)
  {
    if |r.buff| < r.len || !ReplyFits(r.len, r.reqId, WRITE, r.buff) then Crash(s) else
      s.(disk := Splice(s.disk, r.offset, r.buff[..r.len]),
         log := s.log + [DidWrite(rid, r.offset, r.buff[..r.len])],
         execAt := s.execAt[rid := |s.log|],
         work := s.work[rid := ToMaster(ReplyDatagram(r.len, r.reqId, WRITE, r.buff))])
  }

  /** SlaveRead. */
  function DoRead(s: State, rid: nat, r: SlaveRequest, beyond: seq<Byte>): State
    requires InRange(r.offset, r.len, |s.disk|)
  {
    var data := s.disk[r.offset..r.offset + r.len];
    if !ReplyFits(r.len, r.reqId, READ, data + beyond) then Crash(s) else
      s.(log := s.log + [DidRead(rid, r.offset, data, beyond)],
         execAt := s.execAt[rid := |s.log|],
         work := s.work[rid := ToMaster(ReplyDatagram(r.len, r.reqId, READ, data + beyond))])
  }

  /** The storage effect and the reply, one step because the slave has one worker. */
  function DoSlaveExecute(s: State, rid: nat, beyond: seq<Byte>): State
    requires rid in s.work && s.work[rid].AtSlave?
  {
    var r := s.work[rid].task;
    if !InRange(r.offset, r.len, |s.disk|) then Crash(s)
    else if r.key == WRITE then DoWrite(s, rid, r)
    else if r.key == READ then DoRead(s, rid, r, beyond)
    else
      s.(work := s.work - {rid})  // no reply: SlaveDisconnect, or no task for the key
  }

  /** The id is swapped back for its handle; one that is not in the table ends the process. */
  function DoMatch(s: State, rid: nat, r: MasterReply): State {
    var i := Find(s.table, r.reqId);
    if i == |s.table| then Crash(s) else
      s.(table := Without(s.table, i),
         matched := s.matched + {rid},
         work := s.work[rid := ToClient(s.table[i].handle, r.key, r.len, r.buff)])
  }

  /** CreateDataFromBuff. */
  function DoMasterReceive(s: State, rid: nat, heap: seq<Byte>): State
    requires rid in s.work && s.work[rid].ToMaster? && |heap| == BUFF_SIZE + 1
  {
    var d := s.work[rid].datagram;
    if |d| != BUFF_SIZE + 1 || !ReplyParseable(ReplyReceived(d)) then Crash(s)
    else DoMatch(s, rid, ParseReply(ReplyReceived(d), heap))
  }

  function DoSendReply(s: State, rid: nat): State
    requires rid in s.work && s.work[rid].ToClient?
  {
    var t := s.work[rid];
    if t.key == READ && |t.buff| < t.len then Crash(s) else
      s.(work := s.work - {rid},
         replies := s.replies + [Reply(rid, t.handle, if t.key == READ then t.buff[..t.len] else [])])
  }

  ghost function Next(s: State, a: Action): State
    requires Enabled(s, a)
  {
    match a
    case Receive(req) => DoReceive(s, req)
    case Issue(rid) => DoIssue(s, rid)
    case ReplyLocally(rid) => DoReplyLocally(s, rid)
    case Lose(rid) => DoLose(s, rid)
    case SlaveReceive(rid, heap) => DoSlaveReceive(s, rid, heap)
    case SlaveExecute(rid, beyond) => DoSlaveExecute(s, rid, beyond)
    case MasterReceive(rid, heap) => DoMasterReceive(s, rid, heap)
    case SendReply(rid) => DoSendReply(s, rid)
  }

  /** Any interleaving of the steps: datagrams are delivered in any order, late, or never. */
  ghost predicate Run(states: seq<State>, actions: seq<Action>) {
    && |states| == |actions| + 1
    && Init(states[0])
    && forall i :: 0 <= i < |actions| ==>
         Enabled(states[i], actions[i]) && states[i + 1] == Next(states[i], actions[i])
  }
}
