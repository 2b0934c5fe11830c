/** The two ends of the NBD socket together: the block protocol answers, the reply stream carries the
    answers, the client decodes them by its own requests. */
module NbdSession {
  import opened Bytes
  import opened HandleTable
  import opened NbdWire
  import Stream = NbdReplyStream
  import Protocol = BlockProtocol
  import Theorems = BlockProtocolTheorems

  /** The request that the protocol works for, when ReceiveRequest has returned `data`. A DISCONNECT is
      not one of its steps. */
  function Delivered(data: DriverData): Protocol.Request {
    Protocol.Request(data.handle,
      if data.Ranged? && data.key == READ then Protocol.ReadOp(data.offset, data.len)
      else if data.Ranged? && data.key == WRITE then Protocol.WriteOp(data.offset, data.buff)
      else Protocol.LocalOp)
  }

  /** Byte by byte from the socket: a whole READ or WRITE of the client becomes that request of the
      protocol, under its handle, at its offset, of its length and with its payload. */
  lemma DeliveredAsSent(sent: seq<Byte>)
    requires |sent| >= 28 && BigEndian(sent[0..4]) == 0x2560_9513 && BigEndian(sent[4..8]) <= 1
    requires BigEndian(sent[4..8]) == 1 ==> 28 + BigEndian(sent[24..28]) <= |sent|
    ensures var offset, len := BigEndian(sent[16..24]), BigEndian(sent[24..28]);
      && ReceivedAs(sent, 28).Request?
      && Delivered(ReceivedAs(sent, 28).data) == Protocol.Request(sent[8..16],
           if BigEndian(sent[4..8]) == 0 then Protocol.ReadOp(offset, len) else Protocol.WriteOp(offset, sent[28..28 + len]))
  {
    WholeRequestIs(sent);
  }

  /** SendReply is called with this answer to a request for `op`: a READ's data are the answer's body. */
  predicate Sends(r: Reply, answer: Protocol.Reply, op: Protocol.Op) {
    && r.handle == answer.handle && (r.key == READ <==> op.ReadOp?)
    && (r.key == READ ==> r.data == answer.body)
  }

  ghost predicate SendsAnswer(r: Reply, asked: seq<Protocol.Request>, answers: seq<Protocol.Reply>, i: nat) {
    && i < |answers| && answers[i].rid < |asked|
    && Sends(r, answers[i], asked[answers[i].rid].op)
  }

  /** The answers are on the stream, in their order; the one being written comes next. */
  ghost predicate Carries(t: Stream.State, asked: seq<Protocol.Request>, answers: seq<Protocol.Reply>) {
    && |t.log| <= |answers|
    && (forall i :: 0 <= i < |t.log| ==> SendsAnswer(t.log[i], asked, answers, i))
    && forall j :: 0 <= j < |t.senders| && t.senders[j].Writing? && t.senders[j].sent < |Frame(t.senders[j].r)| ==>
         SendsAnswer(t.senders[j].r, asked, answers, |t.log|)
  }

  /** The client goes by its own requests: under a handle it expects what the request asked for. */
  ghost predicate GoesByRequests(asked: seq<Protocol.Request>, s: Protocol.State, outstanding: Stream.Outstanding) {
    forall i :: 0 <= i < |s.replies| && s.replies[i].rid < |asked| ==>
      outstanding(i, s.replies[i].handle) == if asked[s.replies[i].rid].op.ReadOp? then asked[s.replies[i].rid].op.size else 0
  }

  /** Each reply that the client sees carries the handle of the request it answers, and the data of the
      answer, as much as that asked for. */
  ghost predicate Answered(seen: seq<Stream.Seen>, asked: seq<Protocol.Request>, answers: seq<Protocol.Reply>) {
    |seen| <= |answers| && forall i :: 0 <= i < |seen| ==>
      && answers[i].rid < |asked|
      && var req := asked[answers[i].rid];
      && seen[i].handle == req.handle && seen[i].data == answers[i].body
      && |seen[i].data| == if req.op.ReadOp? then req.op.size else 0
  }

  lemma SeenAreAnswers(t: Stream.State, asked: seq<Protocol.Request>, s: Protocol.State)
    requires Theorems.Correlated(asked, s) && Carries(t, asked, s.replies)
    ensures Answered(Stream.SeenAll(t.log), asked, s.replies)
  {
    forall i | 0 <= i < |t.log|
      ensures Stream.SeenAll(t.log)[i].data == s.replies[i].body
      ensures Stream.SeenAll(t.log)[i].handle == s.replies[i].handle
    {
      assert SendsAnswer(t.log[i], asked, s.replies, i);
    }
  }

  lemma AsksForAll(asked: seq<Protocol.Request>, s: Protocol.State, t: Stream.State, outstanding: Stream.Outstanding)
    requires Theorems.Correlated(asked, s) && GoesByRequests(asked, s, outstanding) && Carries(t, asked, s.replies)
    ensures Stream.AskedAll(t, outstanding)
  {
    forall i | 0 <= i < |t.log| ensures Stream.Asked(t.log[i], outstanding, i) {
      assert SendsAnswer(t.log[i], asked, s.replies, i);
    }
  }

  lemma ClientHasAsked(ps: seq<Protocol.State>, pactions: seq<Protocol.Action>, p: nat, t: Stream.State, outstanding: Stream.Outstanding)
    requires Protocol.Run(ps, pactions) && p < |ps|
    requires GoesByRequests(Theorems.Asked(pactions, p), ps[p], outstanding) && Carries(t, Theorems.Asked(pactions, p), ps[p].replies)
    ensures Stream.AskedAll(t, outstanding)
  {
    Theorems.RepliesCorrelate(ps, pactions, p);
    AsksForAll(Theorems.Asked(pactions, p), ps[p], t, outstanding);
  }

  /** In any run of the protocol and any run of the reply stream that carries its answers, a client
      that goes by its own requests decodes the stream into replies that each carry the handle of
      the request they answer and as much data as it asked for, and nothing else. */
  lemma ClientIsAnswered(ps: seq<Protocol.State>, pactions: seq<Protocol.Action>, p: nat,
                         ts: seq<Stream.State>, tactions: seq<Stream.Action>, k: nat, outstanding: Stream.Outstanding)
    requires Protocol.Run(ps, pactions) && p < |ps| && Stream.Run(ts, tactions) && k < |ts|
    requires GoesByRequests(Theorems.Asked(pactions, p), ps[p], outstanding) && Carries(ts[k], Theorems.Asked(pactions, p), ps[p].replies)
    ensures |Stream.Decode(ts[k].stream, outstanding).0| == |ts[k].log|
    ensures Answered(Stream.Decode(ts[k].stream, outstanding).0, Theorems.Asked(pactions, p), ps[p].replies)
  {
    ClientHasAsked(ps, pactions, p, ts[k], outstanding);
    Stream.ClientDecodes(ts, tactions, k, outstanding);
    Theorems.RepliesCorrelate(ps, pactions, p);
    SeenAreAnswers(ts[k], Theorems.Asked(pactions, p), ps[p]);
  }
}
