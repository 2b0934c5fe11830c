/** What the data of a READ reply is, in every run of the block protocol. */
module BlockProtocolReads {
  import opened Bytes
  import opened SlaveStorage
  import opened BlockProtocol
  import opened BlockProtocolProof
  import opened BlockProtocolTheorems

  // ---- the client's device ----------------------------------------------------------------

  /** A block device that serves one request after the other: the client's own view of it. */
  function Device(disk0: seq<Byte>, ops: seq<Op>): (r: seq<Byte>)
    ensures |r| == |disk0|
  {
    if ops == [] then disk0 else
      var disk := Device(disk0, ops[..|ops| - 1]);
      var op := ops[|ops| - 1];
      if op.WriteOp? && InRange(op.offset, |op.data|, |disk|) then Splice(disk, op.offset, op.data) else disk
  }

  /** `op` writes byte `x` of a device of `size` bytes. */
  predicate Covers(op: Op, size: nat, x: nat) {
    op.WriteOp? && InRange(op.offset, |op.data|, size) && op.offset <= x < op.offset + |op.data|
  }

  /** `ops[q]` is the last of `ops` to write byte `x`. */
  ghost predicate LastWrite(ops: seq<Op>, size: nat, x: nat, q: nat) {
    q < |ops| && Covers(ops[q], size, x) && forall p :: q < p < |ops| ==> !Covers(ops[p], size, x)
  }

  ghost predicate NeverWritten(ops: seq<Op>, size: nat, x: nat) {
    forall p :: 0 <= p < |ops| ==> !Covers(ops[p], size, x)
  }

  /** One byte after a splice. */
  lemma SplicedByte(disk: seq<Byte>, at: nat, data: seq<Byte>, x: nat)
    requires InRange(at, |data|, |disk|) && x < |disk|
    ensures Splice(disk, at, data)[x] == if at <= x < at + |data| then data[x - at] else disk[x]
  {
    ReadAfterWrite(disk, at, data, x, 1);
    assert Splice(disk, at, data)[x] == Splice(disk, at, data)[x..x + 1][0];
  }

  lemma DeviceStep(disk0: seq<Byte>, ops: seq<Op>, x: nat)
    requires ops != [] && x < |disk0|
    ensures var op := ops[|ops| - 1];
      Device(disk0, ops)[x] == if Covers(op, |disk0|, x) then op.data[x - op.offset] else Device(disk0, ops[..|ops| - 1])[x]
  {
    var op, disk := ops[|ops| - 1], Device(disk0, ops[..|ops| - 1]);
    if op.WriteOp? && InRange(op.offset, |op.data|, |disk|) {
      SplicedByte(disk, op.offset, op.data, x);
    }
  }

  /** The last write of all, or of the others. */
  lemma LastWriteStep(ops: seq<Op>, size: nat, x: nat, q: nat)
    requires ops != [] && LastWrite(ops, size, x, q)
    ensures if Covers(ops[|ops| - 1], size, x) then q == |ops| - 1 else LastWrite(ops[..|ops| - 1], size, x, q)
  {
  }

  /** Byte by byte, the device holds what was last written there ... */
  lemma {:induction false} LastWriteHolds(disk0: seq<Byte>, ops: seq<Op>, x: nat, q: nat)
    requires x < |disk0| && LastWrite(ops, |disk0|, x, q)
    ensures Device(disk0, ops)[x] == ops[q].data[x - ops[q].offset]
  {
    DeviceStep(disk0, ops, x);
    LastWriteStep(ops, |disk0|, x, q);
    if q < |ops| - 1 {
      LastWriteHolds(disk0, ops[..|ops| - 1], x, q);
    }
  }

  /** ... or what it held at first. */
  lemma {:induction false} FirstContentHolds(disk0: seq<Byte>, ops: seq<Op>, x: nat)
    requires x < |disk0| && NeverWritten(ops, |disk0|, x)
    ensures Device(disk0, ops)[x] == disk0[x]
  {
    if ops != [] {
      DeviceStep(disk0, ops, x);
      FirstContentHolds(disk0, ops[..|ops| - 1], x);
    }
  }

  // ---- what the slave's array holds -------------------------------------------------------

  predicate NulFree(s: seq<Byte>) {
    forall k :: 0 <= k < |s| ==> s[k] != NUL
  }

  /** What is known of byte `x` of the slave's array after `ops`: the byte last written there, unless
      a NUL precedes it in its WRITE's payload. Behind a NUL a payload is not carried, and the byte
      is whatever the slave's heap held. */
  function Content(disk0: seq<Byte>, ops: seq<Op>, x: nat): Option<Byte>
    requires x < |disk0|
  {
    if ops == [] then Some(disk0[x]) else
      var op := ops[|ops| - 1];
      if !Covers(op, |disk0|, x) then Content(disk0, ops[..|ops| - 1], x)
      else if NulFree(op.data[..x - op.offset]) then Some(op.data[x - op.offset])
      else None
  }

  lemma {:induction false} ContentMeaning(disk0: seq<Byte>, ops: seq<Op>, x: nat, q: nat)
    requires x < |disk0|
    ensures LastWrite(ops, |disk0|, x, q) ==>
      Content(disk0, ops, x) == if NulFree(ops[q].data[..x - ops[q].offset]) then Some(ops[q].data[x - ops[q].offset]) else None
    ensures NeverWritten(ops, |disk0|, x) ==> Content(disk0, ops, x) == Some(disk0[x])
  {
    if ops != [] {
      ContentMeaning(disk0, ops[..|ops| - 1], x, q);
      if LastWrite(ops, |disk0|, x, q) {
        LastWriteStep(ops, |disk0|, x, q);
      }
    }
  }

  /** Where something is known, the client's device agrees. */
  lemma {:induction false} ContentIsDevice(disk0: seq<Byte>, ops: seq<Op>, x: nat)
    requires x < |disk0| && Content(disk0, ops, x).Some?
    ensures Device(disk0, ops)[x] == Content(disk0, ops, x).value
  {
    if ops != [] {
      DeviceStep(disk0, ops, x);
      if !Covers(ops[|ops| - 1], |disk0|, x) {
        ContentIsDevice(disk0, ops[..|ops| - 1], x);
      }
    }
  }

  /** A byte that no NUL precedes is carried. */
  lemma CarriedByte(got: seq<Byte>, data: seq<Byte>, i: nat)
    requires CarriedFrom(got, data) && i < |data| && NulFree(data[..i])
    ensures got[i] == data[i]
  {
    CStringMeaning(data);
    var n := |CString(data)|;
    forall k | 0 <= k < i ensures data[k] != NUL {
      assert data[..i][k] != NUL;
    }
    assert i < n ==> got[..n][i] == CString(data)[i];
  }

  lemma ApplyByte(disk: seq<Byte>, e: Effect, x: nat)
    requires x < |disk|
    ensures Apply(disk, e)[x] == if e.DidWrite? && InRange(e.offset, |e.bytes|, |disk|) && e.offset <= x < e.offset + |e.bytes|
                                 then e.bytes[x - e.offset] else disk[x]
  {
    if e.DidWrite? && InRange(e.offset, |e.bytes|, |disk|) {
      SplicedByte(disk, e.offset, e.bytes, x);
    }
  }

  lemma SameRange(e: Effect, op: Op)
    requires EffectOf(e, op)
    ensures op.WriteOp? <==> e.DidWrite?
    ensures op.WriteOp? ==> e.offset == op.offset && |e.bytes| == |op.data|
  {
  }

  lemma DiskStep(disk0: seq<Byte>, log: seq<Effect>, op: Op, x: nat)
    requires log != [] && EffectOf(log[|log| - 1], op) && x < |disk0|
    ensures Covers(op, |disk0|, x) ==> log[|log| - 1].DidWrite? && x - op.offset < |log[|log| - 1].bytes|
    ensures DiskAfter(disk0, log)[x] == if Covers(op, |disk0|, x) then log[|log| - 1].bytes[x - op.offset]
                                        else DiskAfter(disk0, log[..|log| - 1])[x]
  {
    SameRange(log[|log| - 1], op);
    ApplyByte(DiskAfter(disk0, log[..|log| - 1]), log[|log| - 1], x);
  }

  /** What is known is what the array holds. */
  lemma {:induction false} ContentHolds(disk0: seq<Byte>, log: seq<Effect>, ops: seq<Op>, x: nat)
    requires |log| == |ops| && forall p :: 0 <= p < |log| ==> EffectOf(log[p], ops[p])
    requires x < |disk0| && Content(disk0, ops, x).Some?
    ensures DiskAfter(disk0, log)[x] == Content(disk0, ops, x).value
  {
    if log != [] {
      var n := |log| - 1;
      DiskStep(disk0, log, ops[n], x);
      if Covers(ops[n], |disk0|, x) {
        CarriedByte(log[n].bytes, ops[n].data, x - ops[n].offset);
      } else {
        ContentHolds(disk0, log[..n], ops[..n], x);
      }
    }
  }

  /** When no executed WRITE has an early NUL, the slave's array is the client's device. */
  lemma {:induction false} DeviceFollows(disk0: seq<Byte>, log: seq<Effect>, ops: seq<Op>)
    requires |log| == |ops| && forall p :: 0 <= p < |log| ==> EffectOf(log[p], ops[p])
    requires forall p :: 0 <= p < |ops| && ops[p].WriteOp? ==> !EarlyNul(ops[p].data)
    ensures DiskAfter(disk0, log) == Device(disk0, ops)
  {
    if log != [] {
      var n := |log| - 1;
      DeviceFollows(disk0, log[..n], ops[..n]);
      if ops[n].WriteOp? {
        CarriedExact(log[n].bytes, ops[n].data);
      }
    }
  }

  // ---- reads ------------------------------------------------------------------------------

  /** The reply `j` answers a READ. */
  predicate AnswersRead(asked: seq<Request>, s: State, j: nat) {
    && j < |s.replies| && s.replies[j].rid < |asked|
    && asked[s.replies[j].rid].op.ReadOp?
  }

  /** What the client asked for. */
  function OpOf(asked: seq<Request>, s: State, j: nat): Op
    requires AnswersRead(asked, s, j)
  {
    asked[s.replies[j].rid].op
  }

  /** The requests that the slave executed before place `p`, in order. */
  ghost function Before(asked: seq<Request>, s: State, p: nat): (ops: seq<Op>)
    requires p <= |s.log| && forall q :: 0 <= q < |s.log| ==> s.log[q].rid < |asked|
    ensures |ops| == p
  {
    Order(asked, s.log)[..p]
  }

  /** The place of an answered READ, and what it found there. */
  ghost predicate ReadAt(asked: seq<Request>, s: State, disk0: seq<Byte>, j: nat, p: nat)
    requires AnswersRead(asked, s, j)
  {
    && (forall q :: 0 <= q < |s.log| ==> s.log[q].rid < |asked| && EffectOf(s.log[q], asked[s.log[q].rid].op))
    && ExecutedAt(s, s.replies[j].rid, p)
    && InRange(OpOf(asked, s, j).offset, OpOf(asked, s, j).size, |disk0|)
    && var op := OpOf(asked, s, j);
    && CarriedFrom(s.replies[j].body, DiskAfter(disk0, s.log[..p])[op.offset..op.offset + op.size])
  }

  lemma PlaceOfRead(disk0: seq<Byte>, asked: seq<Request>, s: State, j: nat, p: nat)
    requires AnswersRead(asked, s, j) && Linearized(disk0, asked, s) && ExecutedAt(s, s.replies[j].rid, p)
    requires Found(s.replies[j].body, DiskAfter(disk0, s.log[..p]), OpOf(asked, s, j))
    ensures ReadAt(asked, s, disk0, j, p)
  {
  }

  lemma ReadHasPlace(states: seq<State>, actions: seq<Action>, i: nat, j: nat) returns (p: nat)
    requires Run(states, actions) && i < |states| && AnswersRead(Asked(actions, i), states[i], j)
    ensures ReadAt(Asked(actions, i), states[i], states[0].disk, j, p)
  {
    ExecutionOrderIsLinear(states, actions, i);
    p := ReadsSeeTheArray(states, actions, i, j);
    PlaceOfRead(states[0].disk, Asked(actions, i), states[i], j, p);
  }

  /** Byte `x` is known, and it is not NUL. */
  predicate Visible(disk0: seq<Byte>, ops: seq<Op>, x: nat)
    requires x < |disk0|
  {
    Content(disk0, ops, x).Some? && Content(disk0, ops, x).value != NUL
  }

  /** Byte `x` of a READ from `offset` on is known, and no NUL comes before it that ends the copy. */
  predicate Readable(disk0: seq<Byte>, ops: seq<Op>, offset: nat, x: nat)
    requires x < |disk0|
  {
    Content(disk0, ops, x).Some? && forall y :: offset <= y < x ==> Visible(disk0, ops, y)
  }

  /** The READ asks for byte `x`. */
  predicate Covered(op: Op, x: nat) {
    op.ReadOp? && op.offset <= x < op.offset + op.size
  }

  /** One byte of what a READ from `offset` on of `size` bytes finds after the executions of `log`. */
  lemma ByteFound(body: seq<Byte>, disk0: seq<Byte>, log: seq<Effect>, ops: seq<Op>, offset: nat, size: nat, x: nat)
    requires |log| == |ops| && forall q :: 0 <= q < |log| ==> EffectOf(log[q], ops[q])
    requires InRange(offset, size, |disk0|) && offset <= x < offset + size && Readable(disk0, ops, offset, x)
    requires CarriedFrom(body, DiskAfter(disk0, log)[offset..offset + size])
    ensures |body| == size && body[x - offset] == Content(disk0, ops, x).value
  {
    var disk := DiskAfter(disk0, log);
    var held := disk[offset..offset + size];
    ContentHolds(disk0, log, ops, x);
    forall k | 0 <= k < x - offset ensures held[k] != NUL {
      assert Visible(disk0, ops, offset + k);
      ContentHolds(disk0, log, ops, offset + k);
    }
    CarriedByte(body, held, x - offset);
  }

  lemma BeforeExecuted(asked: seq<Request>, s: State, p: nat)
    requires p <= |s.log|
    requires forall q :: 0 <= q < |s.log| ==> s.log[q].rid < |asked| && EffectOf(s.log[q], asked[s.log[q].rid].op)
    ensures forall q :: 0 <= q < p ==> EffectOf(s.log[..p][q], Before(asked, s, p)[q])
  {
  }

  lemma ReadByte(asked: seq<Request>, s: State, disk0: seq<Byte>, j: nat, p: nat, x: nat)
    requires AnswersRead(asked, s, j) && ReadAt(asked, s, disk0, j, p)
    requires Covered(OpOf(asked, s, j), x) && Readable(disk0, Before(asked, s, p), OpOf(asked, s, j).offset, x)
    ensures |s.replies[j].body| == OpOf(asked, s, j).size
    ensures s.replies[j].body[x - OpOf(asked, s, j).offset] == Content(disk0, Before(asked, s, p), x).value
  {
    BeforeExecuted(asked, s, p);
    var op := OpOf(asked, s, j);
    ByteFound(s.replies[j].body, disk0, s.log[..p], Before(asked, s, p), op.offset, op.size, x);
  }

  /** The data of every READ reply of every run. The READ has a place p in the execution order, and
      each byte up to and including the first NUL is what the requests executed before p left there,
      wherever that is known. Nothing is assumed of the device's first content, nor of any WRITE. */
  lemma ReadsCarryContent(states: seq<State>, actions: seq<Action>, i: nat, j: nat) returns (p: nat)
    requires Run(states, actions) && i < |states| && AnswersRead(Asked(actions, i), states[i], j)
    ensures ReadAt(Asked(actions, i), states[i], states[0].disk, j, p)
    ensures Carries(Asked(actions, i), states[i], states[0].disk, j, p)
  {
    p := ReadHasPlace(states, actions, i, j);
    PlaceCarries(Asked(actions, i), states[i], states[0].disk, j, p);
  }

  /** The data of reply `j` is the known content of its range. */
  ghost predicate Carries(asked: seq<Request>, s: State, disk0: seq<Byte>, j: nat, p: nat)
    requires AnswersRead(asked, s, j) && ReadAt(asked, s, disk0, j, p)
  {
    var op, body := OpOf(asked, s, j), s.replies[j].body;
    && |body| == op.size
    && forall x :: op.offset <= x < op.offset + op.size && Readable(disk0, Before(asked, s, p), op.offset, x) ==>
         body[x - op.offset] == Content(disk0, Before(asked, s, p), x).value
  }

  lemma PlaceCarries(asked: seq<Request>, s: State, disk0: seq<Byte>, j: nat, p: nat)
    requires AnswersRead(asked, s, j) && ReadAt(asked, s, disk0, j, p)
    ensures Carries(asked, s, disk0, j, p)
  {
    var op := OpOf(asked, s, j);
    forall x | op.offset <= x < op.offset + op.size && Readable(disk0, Before(asked, s, p), op.offset, x)
      ensures s.replies[j].body[x - op.offset] == Content(disk0, Before(asked, s, p), x).value
    {
      ReadByte(asked, s, disk0, j, p, x);
    }
  }

  /** Byte `x` was last written by a WRITE whose byte there is not NUL and has no NUL before it, or
      was never written and is not NUL at first. */
  ghost predicate Clean(disk0: seq<Byte>, ops: seq<Op>, x: nat)
    requires x < |disk0|
  {
    || (exists q: nat :: LastWrite(ops, |disk0|, x, q) && NulFree(ops[q].data[..x - ops[q].offset])
          && ops[q].data[x - ops[q].offset] != NUL)
    || (NeverWritten(ops, |disk0|, x) && disk0[x] != NUL)
  }

  lemma CleanIsVisible(disk0: seq<Byte>, ops: seq<Op>, x: nat)
    requires x < |disk0| && Clean(disk0, ops, x)
    ensures Visible(disk0, ops, x)
  {
    if NeverWritten(ops, |disk0|, x) {
      ContentMeaning(disk0, ops, x, 0);
    } else {
      var q: nat :| LastWrite(ops, |disk0|, x, q) && NulFree(ops[q].data[..x - ops[q].offset])
                    && ops[q].data[x - ops[q].offset] != NUL;
      ContentMeaning(disk0, ops, x, q);
    }
  }

  lemma CleanIsReadable(disk0: seq<Byte>, ops: seq<Op>, offset: nat, x: nat)
    requires x < |disk0| && Content(disk0, ops, x).Some? && forall y :: offset <= y < x ==> Clean(disk0, ops, y)
    ensures Readable(disk0, ops, offset, x)
  {
    forall y | offset <= y < x ensures Visible(disk0, ops, y) {
      CleanIsVisible(disk0, ops, y);
    }
  }

  lemma CleanRead(asked: seq<Request>, s: State, disk0: seq<Byte>, j: nat, p: nat, x: nat)
    requires AnswersRead(asked, s, j) && ReadAt(asked, s, disk0, j, p) && Carries(asked, s, disk0, j, p)
    requires Covered(OpOf(asked, s, j), x) && Content(disk0, Before(asked, s, p), x).Some?
    requires forall y :: OpOf(asked, s, j).offset <= y < x ==> Clean(disk0, Before(asked, s, p), y)
    ensures s.replies[j].body[x - OpOf(asked, s, j).offset] == Content(disk0, Before(asked, s, p), x).value
  {
    CleanIsReadable(disk0, Before(asked, s, p), OpOf(asked, s, j).offset, x);
  }

  /** All bytes that the READ asks for before `x` are clean. */
  ghost predicate CleanBefore(disk0: seq<Byte>, ops: seq<Op>, offset: nat, x: nat)
    requires x < |disk0|
  {
    forall y :: offset <= y < x ==> Clean(disk0, ops, y)
  }

  /** Behind clean bytes only, byte `x` of the reply is the one that `ops[q]` put there, when that is
      the last WRITE there and no NUL precedes it in its payload. */
  ghost predicate ShowsLastWrite(body: seq<Byte>, disk0: seq<Byte>, ops: seq<Op>, offset: nat, x: nat, q: nat)
    requires offset <= x < |disk0|
  {
    CleanBefore(disk0, ops, offset, x) && LastWrite(ops, |disk0|, x, q) && NulFree(ops[q].data[..x - ops[q].offset]) ==>
      x - offset < |body| && body[x - offset] == ops[q].data[x - ops[q].offset]
  }

  ghost predicate ShowsFirstContent(body: seq<Byte>, disk0: seq<Byte>, ops: seq<Op>, offset: nat, x: nat)
    requires offset <= x < |disk0|
  {
    CleanBefore(disk0, ops, offset, x) && NeverWritten(ops, |disk0|, x) ==>
      x - offset < |body| && body[x - offset] == disk0[x]
  }

  lemma SingleByte(asked: seq<Request>, s: State, disk0: seq<Byte>, j: nat, p: nat, x: nat, q: nat)
    requires AnswersRead(asked, s, j) && ReadAt(asked, s, disk0, j, p) && Carries(asked, s, disk0, j, p)
    requires Covered(OpOf(asked, s, j), x)
    ensures ShowsLastWrite(s.replies[j].body, disk0, Before(asked, s, p), OpOf(asked, s, j).offset, x, q)
    ensures ShowsFirstContent(s.replies[j].body, disk0, Before(asked, s, p), OpOf(asked, s, j).offset, x)
  {
    var offset, ops := OpOf(asked, s, j).offset, Before(asked, s, p);
    ContentMeaning(disk0, ops, x, q);
    if CleanBefore(disk0, ops, offset, x) && Content(disk0, ops, x).Some? {
      CleanRead(asked, s, disk0, j, p, x);
    }
  }

  /** In terms of single requests: behind clean bytes only, a byte of a READ is the one that the last
      WRITE executed before it put there, when no NUL precedes it in that WRITE's payload, and the
      device's first content when no WRITE executed before it put one there. */
  lemma ReadsReturnLastWrites(states: seq<State>, actions: seq<Action>, i: nat, j: nat, x: nat, q: nat) returns (p: nat)
    requires Run(states, actions) && i < |states| && AnswersRead(Asked(actions, i), states[i], j)
    requires Covered(OpOf(Asked(actions, i), states[i], j), x)
    ensures ReadAt(Asked(actions, i), states[i], states[0].disk, j, p)
    ensures var asked, s := Asked(actions, i), states[i]; var offset, ops := OpOf(asked, s, j).offset, Before(asked, s, p);
      && ShowsLastWrite(s.replies[j].body, states[0].disk, ops, offset, x, q)
      && ShowsFirstContent(s.replies[j].body, states[0].disk, ops, offset, x)
  {
    p := ReadsCarryContent(states, actions, i, j);
    SingleByte(Asked(actions, i), states[i], states[0].disk, j, p, x, q);
  }

  ghost predicate NoEarlyNul(ops: seq<Op>) {
    forall q :: 0 <= q < |ops| && ops[q].WriteOp? ==> !EarlyNul(ops[q].data)
  }

  lemma ReadOfDevice(asked: seq<Request>, s: State, disk0: seq<Byte>, j: nat, p: nat)
    requires AnswersRead(asked, s, j) && ReadAt(asked, s, disk0, j, p) && NoEarlyNul(Before(asked, s, p))
    ensures Found(s.replies[j].body, Device(disk0, Before(asked, s, p)), OpOf(asked, s, j))
  {
    BeforeExecuted(asked, s, p);
    DeviceFollows(disk0, s.log[..p], Before(asked, s, p));
    ReadFinds(s.replies[j].body, Device(disk0, Before(asked, s, p)), OpOf(asked, s, j));
  }

  /** Linearizable reads: when no WRITE executed before the READ has an early NUL, its reply carries
      what the client's own device holds at that place. */
  lemma ReadsAreLinearizable(states: seq<State>, actions: seq<Action>, i: nat, j: nat) returns (p: nat)
    requires Run(states, actions) && i < |states| && AnswersRead(Asked(actions, i), states[i], j)
    ensures ReadAt(Asked(actions, i), states[i], states[0].disk, j, p)
    ensures var asked, s := Asked(actions, i), states[i];
      NoEarlyNul(Before(asked, s, p)) ==>
        Found(s.replies[j].body, Device(states[0].disk, Before(asked, s, p)), OpOf(asked, s, j))
  {
    p := ReadHasPlace(states, actions, i, j);
    if NoEarlyNul(Before(Asked(actions, i), states[i], p)) {
      ReadOfDevice(Asked(actions, i), states[i], states[0].disk, j, p);
    }
  }

  lemma CleanBody(asked: seq<Request>, s: State, disk0: seq<Byte>, j: nat, p: nat)
    requires AnswersRead(asked, s, j) && ReadAt(asked, s, disk0, j, p) && Carries(asked, s, disk0, j, p)
    requires forall x :: Covered(OpOf(asked, s, j), x) ==> Clean(disk0, Before(asked, s, p), x)
    ensures var op := OpOf(asked, s, j);
      s.replies[j].body == Device(disk0, Before(asked, s, p))[op.offset..op.offset + op.size]
  {
    var op, ops, body := OpOf(asked, s, j), Before(asked, s, p), s.replies[j].body;
    forall k | 0 <= k < op.size ensures body[k] == Device(disk0, ops)[op.offset + k] {
      var x := op.offset + k;
      assert Covered(op, x);
      CleanIsVisible(disk0, ops, x);
      forall y | op.offset <= y < x ensures Clean(disk0, ops, y) {
        assert Covered(op, y);
      }
      CleanRead(asked, s, disk0, j, p, x);
      ContentIsDevice(disk0, ops, x);
    }
  }

  /** A READ of clean bytes only is exactly what the client's device holds there: on a new, zeroed
      device too, once its range has been written. */
  lemma NulFreeReadsAreExact(states: seq<State>, actions: seq<Action>, i: nat, j: nat) returns (p: nat)
    requires Run(states, actions) && i < |states| && AnswersRead(Asked(actions, i), states[i], j)
    ensures ReadAt(Asked(actions, i), states[i], states[0].disk, j, p)
    ensures var asked, s, disk0 := Asked(actions, i), states[i], states[0].disk; var op := OpOf(asked, s, j);
      (forall x :: Covered(op, x) ==> Clean(disk0, Before(asked, s, p), x)) ==>
        s.replies[j].body == Device(disk0, Before(asked, s, p))[op.offset..op.offset + op.size]
  {
    p := ReadsCarryContent(states, actions, i, j);
    var asked, s, disk0 := Asked(actions, i), states[i], states[0].disk;
    if forall x :: Covered(OpOf(asked, s, j), x) ==> Clean(disk0, Before(asked, s, p), x) {
      CleanBody(asked, s, disk0, j, p);
    }
  }
}
