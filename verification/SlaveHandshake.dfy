/** The loop of SlaveData's constructor (src/cloud_storage.cpp): the master waits for a slave's first
    datagram. `runner` is set once, before the loop, and goes on from where the last datagram left it. */
module SlaveHandshake {
  import opened Bytes
  import opened Decimal
  import opened RequestCodec
  import opened ReplyCodec

  /** `Connected(n)`: the `n`th datagram was accepted. `Overrun`: `runner` left the buffer. */
  datatype Outcome = Connected(n: nat) | Overrun(n: nat) | Waiting

  /** Between two turns of the loop: the buffer, and where `runner` is in it. */
  datatype Pos = Pos(buff: seq<Byte>, runner: nat)

  /** What one turn makes of a datagram. */
  datatype Turn = Accept | Overran | Reject(next: Pos)

  type Machine = (Pos, seq<Byte>) -> Turn

  // ---- any such loop ----------------------------------------------------------------------

  /** The loop over the datagrams that arrive, `seen` of them so far. */
  function Loop(turn: Machine, ds: seq<seq<Byte>>, seen: nat, p: Pos): Outcome
    decreases |ds|
  {
    if ds == [] then Waiting
    else
      match turn(p, ds[0])
      case Accept => Connected(seen + 1)
      case Overran => Overrun(seen + 1)
      case Reject(next) => Loop(turn, ds[1..], seen + 1, next)
  }

  /** All of `junk` arrives and none of it is accepted. */
  predicate Rejects(turn: Machine, junk: seq<seq<Byte>>, p: Pos)
    decreases |junk|
  {
    junk == [] || (turn(p, junk[0]).Reject? && Rejects(turn, junk[1..], turn(p, junk[0]).next))
  }

  /** Where the loop is then. */
  function After(turn: Machine, junk: seq<seq<Byte>>, p: Pos): Pos
    requires Rejects(turn, junk, p)
    decreases |junk|
  {
    if junk == [] then p else After(turn, junk[1..], turn(p, junk[0]).next)
  }

  lemma {:induction false} RejectsIsWaiting(turn: Machine, junk: seq<seq<Byte>>, seen: nat, p: Pos)
    ensures Loop(turn, junk, seen, p) == Waiting <==> Rejects(turn, junk, p)
    decreases |junk|
  {
    if junk != [] && turn(p, junk[0]).Reject? {
      RejectsIsWaiting(turn, junk[1..], seen + 1, turn(p, junk[0]).next);
    }
  }

  lemma {:induction false} LoopAppend(turn: Machine, junk: seq<seq<Byte>>, ds: seq<seq<Byte>>, seen: nat, p: Pos)
    requires Rejects(turn, junk, p)
    ensures Loop(turn, junk + ds, seen, p) == Loop(turn, ds, seen + |junk|, After(turn, junk, p))
    decreases |junk|
  {
    if junk == [] {
      assert junk + ds == ds;
    } else {
      assert (junk + ds)[1..] == junk[1..] + ds;
      LoopAppend(turn, junk[1..], ds, seen + 1, turn(p, junk[0]).next);
    }
  }

  lemma {:induction false} LoopStops(turn: Machine, junk: seq<seq<Byte>>, ds: seq<seq<Byte>>, seen: nat, p: Pos)
    requires !Rejects(turn, junk, p)
    ensures Loop(turn, junk + ds, seen, p) == Loop(turn, junk, seen, p)
    decreases |junk|
  {
    assert (junk + ds)[1..] == junk[1..] + ds;
    if turn(p, junk[0]).Reject? {
      LoopStops(turn, junk[1..], ds, seen + 1, turn(p, junk[0]).next);
    }
  }

  /** Every rejection moves `runner` on, inside a buffer of `size` bytes. */
  ghost predicate Advances(turn: Machine, size: nat) {
    forall p: Pos, d: seq<Byte> :: |p.buff| == size && turn(p, d).Reject? ==>
      var q := turn(p, d).next; |q.buff| == size && p.runner < q.runner <= size
  }

  lemma {:induction false} AfterAdvances(turn: Machine, junk: seq<seq<Byte>>, p: Pos, size: nat)
    requires Advances(turn, size) && Rejects(turn, junk, p) && |p.buff| == size && p.runner <= size
    ensures var q := After(turn, junk, p); |q.buff| == size && p.runner + |junk| <= q.runner <= size
    decreases |junk|
  {
    if junk != [] {
      AfterAdvances(turn, junk[1..], turn(p, junk[0]).next, size);
    }
  }

  /** `d` is not accepted once `runner` is beyond `limit`. */
  ghost predicate Refuses(turn: Machine, d: seq<Byte>, size: nat, limit: nat) {
    forall p: Pos :: |p.buff| == size && limit < p.runner <= size ==> !turn(p, d).Accept?
  }

  lemma {:induction false} NeverAccepts(turn: Machine, ds: seq<seq<Byte>>, d: seq<Byte>, size: nat, limit: nat, seen: nat, p: Pos)
    requires Advances(turn, size) && Refuses(turn, d, size, limit)
    requires |p.buff| == size && limit < p.runner <= size && forall i :: 0 <= i < |ds| ==> ds[i] == d
    ensures !Loop(turn, ds, seen, p).Connected?
    decreases |ds|
  {
    if ds != [] && turn(p, ds[0]).Reject? {
      NeverAccepts(turn, ds[1..], d, size, limit, seen + 1, turn(p, ds[0]).next);
    }
  }

  lemma DeafAfter(turn: Machine, junk: seq<seq<Byte>>, ds: seq<seq<Byte>>, d: seq<Byte>, size: nat, limit: nat, p: Pos)
    requires Advances(turn, size) && Refuses(turn, d, size, limit) && |p.buff| == size && p.runner == 0
    requires !Loop(turn, junk, 0, p).Connected? && forall i :: 0 <= i < |ds| ==> ds[i] == d
    requires Rejects(turn, junk, p) ==> After(turn, junk, p).runner > limit
    ensures !Loop(turn, junk + ds, 0, p).Connected?
  {
    if Rejects(turn, junk, p) {
      AfterAdvances(turn, junk, p, size);
      LoopAppend(turn, junk, ds, 0, p);
      NeverAccepts(turn, ds, d, size, limit, |junk|, After(turn, junk, p));
    } else {
      LoopStops(turn, junk, ds, 0, p);
    }
  }

  lemma AcceptedNext(turn: Machine, junk: seq<seq<Byte>>, d: seq<Byte>, p: Pos)
    requires Rejects(turn, junk, p)
    ensures Loop(turn, junk + [d], 0, p) == Connected(|junk| + 1) <==> turn(After(turn, junk, p), d).Accept?
  {
    LoopAppend(turn, junk, [d], 0, p);
    assert [d][0] == d && [d][1..] == [];
  }

  // ---- this loop --------------------------------------------------------------------------

  /** `recvfrom` overwrites the front of the buffer; a longer datagram is cut off. */
  function Recv(buff: seq<Byte>, d: seq<Byte>): (r: seq<Byte>)
    ensures |r| == |buff| && forall k :: 0 <= k < |r| ==> r[k] == if k < |d| then d[k] else buff[k]
  {
    if |d| <= |buff| then d + buff[|d|..] else d[..|buff|]
  }

  /** The inner loop and the increment after it. */
  function Advance(buff: seq<Byte>, runner: nat): (r: nat)
    requires runner <= |buff| && Terminated(buff[runner..])
    ensures runner < r <= |buff|
  {
    runner + Strlen(buff[runner..]) + 1
  }

  /** `!strcmp(t, magic)`. */
  predicate Says(t: seq<Byte>, magic: seq<Byte>) {
    magic + [NUL] <= t
  }

  /** A turn, with the datagram received in `buff`. */
  function TurnOf(buff: seq<Byte>, runner: nat, magic: seq<Byte>): (t: Turn)
    ensures t.Reject? ==> t.next.buff == buff && runner < t.next.runner <= |buff|
  {
    if runner > |buff| || !Terminated(buff[runner..]) then Overran
    else
      var next := Advance(buff, runner);
      if Says(buff[next..], magic) then Accept
      else if buff[next..] <= magic then Overran  // strcmp reads past the end
      else Reject(Pos(buff, next))
  }

  function Turns(magic: seq<Byte>): Machine {
    (p: Pos, d: seq<Byte>) => TurnOf(Recv(p.buff, d), p.runner, magic)
  }

  /** The buffer starts out zeroed, with `runner` at its front. */
  function Begin(size: nat): Pos {
    Pos(Zeros(size), 0)
  }

  lemma TurnsAdvance(magic: seq<Byte>, size: nat)
    ensures Advances(Turns(magic), size)
  {
  }

  /** `magic` is MAGIC_STR of include/globals.hpp. */
  method SlaveData(datagrams: seq<seq<Byte>>, magic: seq<Byte>) returns (o: Outcome)
    ensures o == Loop(Turns(magic), datagrams, 0, Begin(BUFF_SIZE))
  {
    var buff := Zeros(BUFF_SIZE);
    var runner := 0;
    var i := 0;
    while i < |datagrams|
      invariant 0 <= i <= |datagrams| && 0 <= runner <= |buff|
      invariant Loop(Turns(magic), datagrams, 0, Begin(BUFF_SIZE)) == Loop(Turns(magic), datagrams[i..], i, Pos(buff, runner))
    {
      assert datagrams[i..][1..] == datagrams[i + 1..];
      buff := Recv(buff, datagrams[i]);
      i := i + 1;
      var found;
      found, runner := SkipString(buff, runner);
      if !found {
        return Overrun(i);
      }
      if Says(buff[runner..], magic) {
        return Connected(i);
      }
      if buff[runner..] <= magic {
        return Overrun(i);
      }
    }
    o := Waiting;
  }

  /** `while (*runner) ++runner; ++runner;` */
  method SkipString(buff: seq<Byte>, start: nat) returns (found: bool, runner: nat)
    requires start <= |buff|
    ensures found <==> Terminated(buff[start..])
    ensures found ==> runner == Advance(buff, start)
    ensures runner <= |buff|
  {
    runner := start;
    while runner < |buff| && buff[runner] != NUL
      invariant start <= runner <= |buff| && Strlen(buff[start..]) == runner - start + Strlen(buff[runner..])
    {
      assert buff[runner..][1..] == buff[runner + 1..];
      runner := runner + 1;
    }
    found := runner < |buff|;
    if found {
      runner := runner + 1;
    }
  }

  // ---- what a slave sends ---------------------------------------------------------------

  /** A slave's first datagram, as received: a header, a NUL, the magic string. */
  predicate IsHello(b: seq<Byte>, header: seq<Byte>, magic: seq<Byte>) {
    && !Terminated(header) && !Terminated(magic) && magic != []
    && header + [NUL] + magic + [NUL] <= b
    && forall k :: |header| + |magic| + 1 < k < |b| ==> b[k] == NUL
  }

  /** What release/slave.cpp sends first: the reply to no request, with length 0, id 0, key READ and
      the magic string for data. */
  predicate Sent(hello: seq<Byte>, magic: seq<Byte>) {
    && ReplyFits(0, 0, READ, magic + [NUL])
    && hello == ReplyReceived(ReplyDatagram(0, 0, READ, magic + [NUL]))
  }

  lemma HelloHeader()
    ensures ReplyHeader(0, 0, READ) == [DIGIT_0, SEMICOLON, DIGIT_0, SEMICOLON, DIGIT_0, SEMICOLON]
  {
    assert Print(0) == [DIGIT_0] && PrintInt(0) == [DIGIT_0];
  }

  lemma MagicString(magic: seq<Byte>)
    requires !Terminated(magic)
    ensures Terminated(magic + [NUL]) && CString(magic + [NUL]) == magic
  {
    CStringMeaning(magic);
    CStringAppend(magic, [NUL]);
  }

  lemma ZeroPadded(front: seq<Byte>, z: nat)
    requires z >= 2
    ensures var d := (front + Zeros(z))[..|front| + z - 1];
      front + [NUL] <= d && forall k :: |front| <= k < |d| ==> d[k] == NUL
  {
  }

  lemma SentIsHello(hello: seq<Byte>, magic: seq<Byte>)
    requires magic != [] && !Terminated(magic) && |magic| <= BUFF_SIZE - 8
    requires Sent(hello, magic)
    ensures IsHello(hello, ReplyHeader(0, 0, READ), magic)
  {
    MagicString(magic);
    HelloHeader();
    CStringMeaning(ReplyHeader(0, 0, READ));
    var front := ReplyHeader(0, 0, READ) + [NUL] + magic;
    ZeroPadded(front, BUFF_SIZE + 1 - |front|);
  }

  // ---- when it is accepted --------------------------------------------------------------

  lemma StrlenAt(b: seq<Byte>, i: nat, j: nat)
    requires i <= j < |b| && b[j] == NUL && forall k :: i <= k < j ==> b[k] != NUL
    ensures Terminated(b[i..]) && Strlen(b[i..]) == j - i
  {
    CStringIs(b[i..], j - i);
    CStringMeaning(b[i..]);
  }

  /** What one turn makes of the buffer, byte by byte: `runner` goes behind the next NUL, at `z`, and the
      datagram is accepted if and only if the string there is the magic one. A comparison that has
      found no difference by the end of the buffer leaves it. */
  lemma TurnMeaning(b: seq<Byte>, runner: nat, magic: seq<Byte>, z: nat)
    requires runner <= z < |b| && b[z] == NUL && forall k :: runner <= k < z ==> b[k] != NUL
    ensures TurnOf(b, runner, magic).Accept? <==>
      z + 1 + |magic| < |b| && b[z + 1..z + 1 + |magic|] == magic && b[z + 1 + |magic|] == NUL
    ensures TurnOf(b, runner, magic).Overran? <==> |b| <= z + 1 + |magic| && b[z + 1..] == magic[..|b| - z - 1]
    ensures TurnOf(b, runner, magic).Reject? ==> TurnOf(b, runner, magic).next == Pos(b, z + 1)
  {
    StrlenAt(b, runner, z);
    var t := b[z + 1..];
    if |magic| < |t| {
      assert t[..|magic|] == b[z + 1..z + 1 + |magic|] && t[|magic|] == b[z + 1 + |magic|];
      assert t[..|magic| + 1] == t[..|magic|] + [t[|magic|]];
    }
  }

  /** Without a NUL from `runner` on, the inner loop leaves the buffer. */
  lemma TurnWithoutNul(b: seq<Byte>, runner: nat, magic: seq<Byte>)
    requires forall k :: runner <= k < |b| ==> b[k] != NUL
    ensures TurnOf(b, runner, magic).Overran?
  {
    if runner <= |b| {
      CStringMeaning(b[runner..]);
    }
  }

  /** A hello in the buffer is accepted exactly when `runner` has not passed its header. */
  lemma HelloAcceptedIff(b: seq<Byte>, header: seq<Byte>, magic: seq<Byte>, runner: nat)
    requires IsHello(b, header, magic) && runner < |b|
    ensures TurnOf(b, runner, magic).Accept? <==> runner <= |header|
  {
    var h, m := |header|, |magic|;
    CStringMeaning(header);
    CStringMeaning(magic);
    var front := header + [NUL] + magic + [NUL];
    assert forall k :: 0 <= k < |front| ==> b[k] == front[k];
    if runner <= h {
      StrlenAt(b, runner, h);
      assert b[h + 1..][..m + 1] == magic + [NUL];
    } else if runner <= h + m + 1 {
      StrlenAt(b, runner, h + m + 1);
      StartsWithNul(b[h + m + 2..], magic);
    } else {
      StrlenAt(b, runner, runner);
      StartsWithNul(b[runner + 1..], magic);
    }
  }

  lemma StartsWithNul(t: seq<Byte>, magic: seq<Byte>)
    requires magic != [] && !Terminated(magic) && (t != [] ==> t[0] == NUL)
    ensures !Says(t, magic)
  {
    CStringMeaning(magic);
    assert (magic + [NUL])[0] != NUL;
  }

  /** The first datagram of a slave is accepted if it is the first one to arrive. */
  lemma FirstHelloConnects(hello: seq<Byte>, header: seq<Byte>, magic: seq<Byte>, rest: seq<seq<Byte>>)
    requires IsHello(hello, header, magic)
    ensures Loop(Turns(magic), [hello] + rest, 0, Begin(|hello|)) == Connected(1)
  {
    HelloAcceptedIff(hello, header, magic, 0);
    assert ([hello] + rest)[0] == hello && Recv(Zeros(|hello|), hello) == hello;
  }

  /** A hello overwrites whatever the buffer held. */
  lemma HelloTurn(hello: seq<Byte>, header: seq<Byte>, magic: seq<Byte>, p: Pos)
    requires IsHello(hello, header, magic) && |p.buff| == |hello| && p.runner <= |hello|
    ensures Turns(magic)(p, hello).Accept? <==> p.runner <= |header|
  {
    assert Recv(p.buff, hello) == hello;
    if p.runner < |hello| {
      HelloAcceptedIff(hello, header, magic, p.runner);
    }
  }

  /** Exactly when a slave is accepted after any datagrams that were not: when all of them together
      have not moved `runner` beyond the header of its hello. */
  lemma NextHelloConnectsIff(junk: seq<seq<Byte>>, hello: seq<Byte>, header: seq<Byte>, magic: seq<Byte>)
    requires IsHello(hello, header, magic) && Rejects(Turns(magic), junk, Begin(|hello|))
    ensures Loop(Turns(magic), junk + [hello], 0, Begin(|hello|)) == Connected(|junk| + 1)
            <==> After(Turns(magic), junk, Begin(|hello|)).runner <= |header|
  {
    TurnsAdvance(magic, |hello|);
    AfterAdvances(Turns(magic), junk, Begin(|hello|), |hello|);
    AcceptedNext(Turns(magic), junk, hello, Begin(|hello|));
    HelloTurn(hello, header, magic, After(Turns(magic), junk, Begin(|hello|)));
  }

  /** After one such datagram: the string it began with must be shorter than the header. */
  lemma SecondHelloConnectsIff(d: seq<Byte>, hello: seq<Byte>, header: seq<Byte>, magic: seq<Byte>)
    requires IsHello(hello, header, magic) && Rejects(Turns(magic), [d], Begin(|hello|))
    ensures Loop(Turns(magic), [d] + [hello], 0, Begin(|hello|)) == Connected(2)
            <==> Strlen(Recv(Zeros(|hello|), d)) < |header|
  {
    NextHelloConnectsIff([d], hello, header, magic);
    var b := Recv(Zeros(|hello|), d);
    assert b[0..] == b && [d][1..] == [];
    assert After(Turns(magic), [d], Begin(|hello|)) == Pos(b, Strlen(b) + 1);
  }

  lemma HelloRefused(hello: seq<Byte>, header: seq<Byte>, magic: seq<Byte>)
    requires IsHello(hello, header, magic)
    ensures Refuses(Turns(magic), hello, |hello|, |header|)
  {
    forall p: Pos | |p.buff| == |hello| && |header| < p.runner <= |hello| ensures !Turns(magic)(p, hello).Accept? {
      HelloTurn(hello, header, magic, p);
    }
  }

  /** Every datagram that is not accepted moves `runner` on: once more of them have arrived than a
      hello's header has characters, no slave is ever accepted, however often it says hello. */
  lemma DeafAfterHeader(junk: seq<seq<Byte>>, hellos: seq<seq<Byte>>, hello: seq<Byte>, header: seq<Byte>, magic: seq<Byte>)
    requires IsHello(hello, header, magic) && forall i :: 0 <= i < |hellos| ==> hellos[i] == hello
    requires !Loop(Turns(magic), junk, 0, Begin(|hello|)).Connected? && |junk| > |header|
    ensures !Loop(Turns(magic), junk + hellos, 0, Begin(|hello|)).Connected?
  {
    TurnsAdvance(magic, |hello|);
    HelloRefused(hello, header, magic);
    if Rejects(Turns(magic), junk, Begin(|hello|)) {
      AfterAdvances(Turns(magic), junk, Begin(|hello|), |hello|);
    }
    DeafAfter(Turns(magic), junk, hellos, hello, |hello|, |header|, Begin(|hello|));
  }

  // ---- a datagram that deafens the master -------------------------------------------------

  /** A string of `text`, then zeros. */
  lemma TextIsRejected(b: seq<Byte>, text: seq<Byte>, magic: seq<Byte>)
    requires !Terminated(text) && magic != [] && !Terminated(magic) && |text| + 2 <= |b| && text <= b
    requires forall k :: |text| <= k < |b| ==> b[k] == NUL
    ensures TurnOf(b, 0, magic) == Reject(Pos(b, |text| + 1))
  {
    CStringMeaning(text);
    CStringMeaning(magic);
    assert b[0..] == b;
    StrlenAt(b, 0, |text|);
    var t := b[|text| + 1..];
    StartsWithNul(t, magic);
    assert t[0] == NUL;
  }

  lemma ReplyHeaderText(len: nat, id: int, key: int)
    ensures !Terminated(ReplyHeader(len, id, key)) && |ReplyHeader(len, id, key)| >= 6
  {
    var h := ReplyHeader(len, id, key);
    assert forall k :: 0 <= k < |Print(len)| ==> Print(len)[k] != NUL;
    assert forall k :: 0 <= k < |h| ==> h[k] != NUL;
    CStringMeaning(h);
  }

  lemma PaddedText(h: seq<Byte>, z: nat)
    requires z >= 2
    ensures var b := (h + [NUL] + [] + Zeros(z))[..|h| + z];
      h <= b && |b| == |h| + z && forall k :: |h| <= k < |b| ==> b[k] == NUL
  {
  }

  /** Any datagram that begins with a string at least as long as a hello's header is rejected, and
      the slave that reports next is not accepted. */
  lemma LongTextDeafens(d: seq<Byte>, text: seq<Byte>, hello: seq<Byte>, header: seq<Byte>, magic: seq<Byte>)
    requires IsHello(hello, header, magic) && !Terminated(text) && |header| <= |text| <= |hello| - 2
    requires var b := Recv(Zeros(|hello|), d); text <= b && forall k :: |text| <= k < |b| ==> b[k] == NUL
    ensures Rejects(Turns(magic), [d], Begin(|hello|))
    ensures !Loop(Turns(magic), [d] + [hello], 0, Begin(|hello|)).Connected?
  {
    TextIsRejected(Recv(Zeros(|hello|), d), text, magic);
    FirstRejected(d, |hello|, magic, |text| + 1);
    TurnsAdvance(magic, |hello|);
    HelloRefused(hello, header, magic);
    DeafAfter(Turns(magic), [d], [hello], hello, |hello|, |header|, Begin(|hello|));
  }

  lemma FirstRejected(d: seq<Byte>, size: nat, magic: seq<Byte>, next: nat)
    requires TurnOf(Recv(Zeros(size), d), 0, magic) == Reject(Pos(Recv(Zeros(size), d), next))
    ensures Rejects(Turns(magic), [d], Begin(size)) && After(Turns(magic), [d], Begin(size)).runner == next
    ensures Loop(Turns(magic), [d], 0, Begin(size)) == Waiting
  {
    assert [d][1..] == [];
  }

  lemma LateReply(len: nat, id: int)
    requires len <= MAX_TRANSFER && 0 <= id < TWO_31
    ensures var h := ReplyHeader(len, id, WRITE);
      && !Terminated(h) && 6 <= |h| <= BUFF_SIZE - 2 && ReplyFits(len, id, WRITE, [])
      && var b := Recv(Zeros(BUFF_SIZE), ReplyDatagram(len, id, WRITE, []));
      && h <= b && forall k :: |h| <= k < |b| ==> b[k] == NUL
  {
    var h := ReplyHeader(len, id, WRITE);
    ReplyHeaderLength(len, id, WRITE);
    ReplyHeaderText(len, id, WRITE);
    PaddedText(h, BUFF_SIZE - |h|);
  }

  /** A slave that reports after the late reply of another one to a WRITE, `4096;17;1;` say, is not
      accepted: the reply's string is never shorter than the header of a hello. */
  lemma LateReplyDeafens(len: nat, id: int, hello: seq<Byte>, magic: seq<Byte>)
    requires len <= MAX_TRANSFER && 0 <= id < TWO_31
    requires magic != [] && !Terminated(magic) && |magic| <= BUFF_SIZE - 8 && Sent(hello, magic)
    ensures ReplyFits(len, id, WRITE, [])
    ensures var d := ReplyDatagram(len, id, WRITE, []);
      && Rejects(Turns(magic), [d], Begin(BUFF_SIZE))
      && !Loop(Turns(magic), [d] + [hello], 0, Begin(BUFF_SIZE)).Connected?
  {
    LateReply(len, id);
    SentIsHello(hello, magic);
    HelloHeader();
    LongTextDeafens(ReplyDatagram(len, id, WRITE, []), ReplyHeader(len, id, WRITE), hello, ReplyHeader(0, 0, READ), magic);
  }
}
