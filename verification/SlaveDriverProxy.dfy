/** src/slave_driver_proxy.cpp: the loops that move `runner` through a char buffer, proved to
    compute the parser and printer of the codec modules. */
module SlaveDriverProxy {
  import opened Bytes
  import opened Decimal
  import opened RequestCodec
  import opened ReplyCodec

  // ---- ReceiveRequest -------------------------------------------------------------------

  /** The receive buffer ends in a NUL that nothing overwrites. */
  predicate Closed(buf: array<Byte>)
    reads buf
  {
    buf.Length > 0 && buf[buf.Length - 1] == NUL
  }

  /** `found` is false when the search leaves the buffer. */
  method GetNextParse(buf: array<Byte>, str: nat) returns (found: bool, next: nat)
    requires str <= buf.Length && Closed(buf)
    ensures found <==> exists k :: str <= k < buf.Length && buf[k] == SEMICOLON
    ensures found ==> str < next < buf.Length && buf[next - 1] == SEMICOLON
    ensures found ==> forall k :: str <= k < next - 1 ==> buf[k] != SEMICOLON
    ensures found <==> AfterSemicolon(buf[str..]) != []
    ensures found ==> buf[next..] == AfterSemicolon(buf[str..])
  {
    var runner := str;
    while runner < buf.Length && buf[runner] != SEMICOLON
      invariant str <= runner <= buf.Length
      invariant forall k :: str <= k < runner ==> buf[k] != SEMICOLON
      invariant AfterSemicolon(buf[runner..]) == AfterSemicolon(buf[str..])
    {
      assert buf[runner..][1..] == buf[runner + 1..];
      runner := runner + 1;
    }
    found, next := runner < buf.Length, runner;
    if found {
      assert buf[runner..][1..] == buf[runner + 1..];
      next := runner + 1;
    }
  }

  method GetSizeT(buf: array<Byte>, src: nat) returns (found: bool, l: nat, next: nat)
    requires src <= buf.Length && Closed(buf)
    ensures l == Strtoul(buf[src..])
    ensures found <==> AfterSemicolon(buf[src..]) != []
    ensures found ==> src < next < buf.Length && buf[next..] == AfterSemicolon(buf[src..])
  {
    l := Strtoul(buf[src..]);
    found, next := GetNextParse(buf, src);
  }

  method GetUint(buf: array<Byte>, src: nat) returns (found: bool, ui: nat, next: nat)
    requires src <= buf.Length && Closed(buf)
    ensures ui == ToUint32(Strtoul(buf[src..]))
    ensures found <==> AfterSemicolon(buf[src..]) != []
    ensures found ==> src < next < buf.Length && buf[next..] == AfterSemicolon(buf[src..])
  {
    ui := ToUint32(Strtoul(buf[src..]));
    found, next := GetNextParse(buf, src);
  }

  method GetInt(buf: array<Byte>, src: nat) returns (found: bool, i: int, next: nat)
    requires src <= buf.Length && Closed(buf)
    ensures i == ToInt32(Strtoul(buf[src..]))
    ensures found <==> AfterSemicolon(buf[src..]) != []
    ensures found ==> src < next < buf.Length && buf[next..] == AfterSemicolon(buf[src..])
  {
    i := ToInt32(Strtoul(buf[src..]));
    found, next := GetNextParse(buf, src);
  }

  /** `src + 3` skips the key, its ';' and the NUL. */
  method GetReqKey(buf: array<Byte>, src: nat) returns (key: int, next: nat)
    requires src < buf.Length
    ensures key == KeyOf(buf[src]) && next == src + 3
  {
    key := KeyOf(buf[src]);
    next := src + 3;
  }

  /** A request, or the parser reads beyond its buffer. */
  datatype Outcome = Parsed(req: SlaveRequest) | LeavesBuffer

  /** The zeroed buffer after `recvfrom` put `got` there: nothing, when it failed. */
  function Buffer(got: seq<Byte>): (s: seq<Byte>)
    requires |got| <= BUFF_SIZE
    ensures |s| == BUFF_SIZE + 1
    ensures |got| == BUFF_SIZE ==> s == Received(got)
  {
    got + Zeros(BUFF_SIZE + 1 - |got|)
  }

  /** The three number fields. */
  method GetNumbers(buf: array<Byte>) returns (found: bool, offset: nat, len: nat, reqId: int, next: nat)
    requires Closed(buf)
    ensures var s1 := AfterSemicolon(buf[..]); var s2 := AfterSemicolon(s1);
      && (found <==> AfterSemicolon(s2) != [])
      && (found ==> offset == Strtoul(buf[..]) && len == ToUint32(Strtoul(s1)) && reqId == ToInt32(Strtoul(s2)))
      && (found ==> next < buf.Length && buf[next..] == AfterSemicolon(s2))
  {
    offset, len, reqId := 0, 0, 0;
    assert buf[0..] == buf[..];
    found, offset, next := GetSizeT(buf, 0);
    if found {
      found, len, next := GetUint(buf, next);
    }
    if found {
      found, reqId, next := GetInt(buf, next);
    }
  }

  /** `heap` is the old content of the reserved `m_buff`. */
  method ReceiveRequest(got: seq<Byte>, heap: seq<Byte>) returns (ret: Outcome)
    requires |got| <= BUFF_SIZE && |heap| == BUFF_SIZE + 1
    ensures ret.Parsed? <==> Parseable(Buffer(got))
    ensures ret.Parsed? ==> ret.req == Parse(Buffer(got), heap)
  {
    var buf := new Byte[BUFF_SIZE + 1](i => if 0 <= i < |got| then got[i] else NUL);
    assert buf[..] == Buffer(got);
    var found, offset, len, reqId, runner := GetNumbers(buf);
    if !found {
      return LeavesBuffer;
    }
    ghost var s3 := buf[runner..];
    var key;
    key, runner := GetReqKey(buf, runner);
    assert runner <= buf.Length ==> buf[runner..] == s3[3..];
    var buff := [];
    if WRITE == key {
      if runner >= buf.Length {
        return LeavesBuffer;
      }
      EndsInNul(buf[runner..]);
      buff := Strcpy(heap, buf[runner..]);
    }
    ret := Parsed(SlaveRequest(offset, len, reqId, key, buff));
  }

  lemma EndsInNul(s: seq<Byte>)
    requires s != [] && s[|s| - 1] == NUL
    ensures Terminated(s)
  {
    CStringMeaning(s);
  }

  /** Where the search for a ';' from `from` on ends, and what `AfterSemicolon` makes of that. */
  lemma {:induction false} SearchEnds(s: seq<Byte>, from: nat) returns (k: nat)
    requires from <= |s|
    ensures from <= k <= |s| && forall m :: from <= m < k ==> s[m] != SEMICOLON
    ensures k < |s| ==> s[k] == SEMICOLON && AfterSemicolon(s[from..]) == s[k + 1..]
    ensures k == |s| ==> AfterSemicolon(s[from..]) == []
    decreases |s| - from
  {
    k := from;
    if from < |s| {
      assert s[from..][1..] == s[from + 1..];
      if s[from] != SEMICOLON {
        k := SearchEnds(s, from + 1);
      }
    }
  }

  /** The first three separators of `d`. */
  predicate Separators(d: seq<Byte>, i: nat, j: nat, k: nat) {
    && i < j < k < |d| && d[i] == d[j] == d[k] == SEMICOLON
    && forall m :: 0 <= m < k && m != i && m != j ==> d[m] != SEMICOLON
  }

  /** The third separator leaves room for what follows the key of a WRITE. */
  predicate HasRoom(d: seq<Byte>, k: nat) {
    k + 1 < |d| && d[k + 1] == DIGIT_0 + 1 ==> k + 4 <= BUFF_SIZE
  }

  lemma SeparatorsOfBuffer(got: seq<Byte>, i: nat, j: nat, k: nat)
    requires |got| <= BUFF_SIZE
    ensures Separators(got, i, j, k) <==> Separators(Buffer(got), i, j, k)
  {
    assert forall m :: 0 <= m < |Buffer(got)| ==> Buffer(got)[m] == if m < |got| then got[m] else NUL;
  }

  lemma ThirdField(got: seq<Byte>, k: nat)
    requires |got| <= BUFF_SIZE && k < |got|
    ensures var s3 := Buffer(got)[k + 1..];
      (s3 != [] && (KeyOf(s3[0]) == WRITE ==> 3 <= |s3| && Terminated(s3[3..]))) <==> HasRoom(got, k)
  {
    var s3 := Buffer(got)[k + 1..];
    assert s3[0] == if k + 1 < |got| then got[k + 1] else NUL;
    assert s3[|s3| - 1] == NUL;
    if 3 < |s3| {
      EndsInNul(s3[3..]);
    }
  }

  /** The parser stays inside its buffer if and only if the datagram has three separators and, when
      a WRITE's key follows the third, that stands at 4132 or before. */
  lemma ParseableIff(got: seq<Byte>)
    requires |got| <= BUFF_SIZE
    ensures Parseable(Buffer(got)) <==> exists i, j, k :: Separators(got, i, j, k) && HasRoom(got, k)
  {
    var s := Buffer(got);
    assert s[0..] == s && AfterSemicolon([]) == [];
    var i := SearchEnds(s, 0);
    var j, k := |s|, |s|;
    if i < |s| {
      j := SearchEnds(s, i + 1);
    }
    if j < |s| {
      k := SearchEnds(s, j + 1);
    }
    forall i', j', k' | Separators(got, i', j', k') ensures i' == i && j' == j && k' == k {
      SeparatorsOfBuffer(got, i', j', k');
    }
    if k < |s| {
      SeparatorsOfBuffer(got, i, j, k);
      ThirdField(got, k);
    }
  }

  /** A failed `recvfrom` is reported and then ignored: the search for a separator leaves the zeroed
      buffer. */
  lemma FailedReceiveLeavesBuffer()
    ensures !Parseable(Buffer([]))
  {
    ParseableIff([]);
  }

  // ---- SendReply ------------------------------------------------------------------------

  /** `src` is a C string in memory. */
  method AddInt(buf: array<Byte>, dest: nat, src: seq<Byte>) returns (next: nat)
    requires Terminated(src) && dest + |CString(src)| < buf.Length
    modifies buf
    ensures next == dest + |CString(src)| + 1
    ensures buf[..next] == old(buf[..dest]) + CString(src) + [SEMICOLON]
    ensures forall k :: next <= k < buf.Length ==> buf[k] == old(buf[k])
  {
    CStringMeaning(src);
    var i := 0;
    while src[i] != NUL
      invariant i <= |CString(src)|
      invariant buf[..dest + i] == old(buf[..dest]) + CString(src)[..i]
      invariant forall k :: dest + i <= k < buf.Length ==> buf[k] == old(buf[k])
      decreases |src| - i
    {
      buf[dest + i] := src[i];
      i := i + 1;
    }
    buf[dest + i] := SEMICOLON;
    next := dest + i + 1;
  }

  method AddRequestType(buf: array<Byte>, dest: nat, key: int) returns (next: nat)
    requires dest + 2 <= buf.Length
    modifies buf
    ensures next == dest + 2
    ensures buf[..next] == old(buf[..dest]) + [TypeChar(key), SEMICOLON]
    ensures buf[dest] == (if key == 0 then 48 else 49) && buf[dest + 1] == 59
    ensures forall k :: next <= k < buf.Length ==> buf[k] == old(buf[k])
  {
    var id := DIGIT_0 + 1;
    if READ == key {
      id := DIGIT_0;
    }
    buf[dest] := id;
    buf[dest + 1] := SEMICOLON;
    next := dest + 2;
  }

  /** Copies up to the first NUL of `src`; nothing else bounds it. */
  method AddMessage(buf: array<Byte>, dest: nat, src: seq<Byte>)
    requires Terminated(src) && dest + |CString(src)| <= buf.Length
    modifies buf
    ensures buf[..dest + |CString(src)|] == old(buf[..dest]) + CString(src)
    ensures forall k :: dest + |CString(src)| <= k < buf.Length ==> buf[k] == old(buf[k])
  {
    CStringMeaning(src);
    var i := 0;
    while src[i] != NUL
      invariant i <= |CString(src)|
      invariant buf[..dest + i] == old(buf[..dest]) + CString(src)[..i]
      invariant forall k :: dest + i <= k < buf.Length ==> buf[k] == old(buf[k])
      decreases |src| - i
    {
      buf[dest + i] := src[i];
      i := i + 1;
    }
  }

  /** A printed number, as `str.c_str()` points to it. */
  lemma PrintedString(z: int)
    ensures Terminated(PrintInt(z) + [NUL]) && CString(PrintInt(z) + [NUL]) == PrintInt(z)
  {
    CStringMeaning(PrintInt(z));
    CStringAppend(PrintInt(z), [NUL]);
  }

  /** The first half of `SendReply`: both numbers, the key and the NUL that closes the header. */
  method PrintHeader(buf: array<Byte>, len: nat, reqId: int, key: int) returns (runner: nat)
    requires |ReplyHeader(len, reqId, key)| < buf.Length
    modifies buf
    ensures runner == |ReplyHeader(len, reqId, key)| + 1
    ensures buf[..runner] == ReplyHeader(len, reqId, key) + [NUL]
    ensures forall k :: runner <= k < buf.Length ==> buf[k] == old(buf[k])
  {
    PrintedString(len);
    PrintedString(reqId);
    runner := AddInt(buf, 0, PrintInt(len) + [NUL]);
    assert buf[..runner] == PrintInt(len) + [SEMICOLON];
    runner := AddInt(buf, runner, PrintInt(reqId) + [NUL]);
    assert buf[..runner] == PrintInt(len) + [SEMICOLON] + PrintInt(reqId) + [SEMICOLON];
    runner := AddRequestType(buf, runner, key);
    assert buf[..runner] == ReplyHeader(len, reqId, key);
    buf[runner] := NUL;
    runner := runner + 1;
  }

  /** `mBuff` is the memory from `m_buff.data()` on. */
  method SendReply(len: nat, reqId: int, key: int, mBuff: seq<Byte>) returns (buf: array<Byte>)
    requires ReplyFits(len, reqId, key, mBuff)
    ensures fresh(buf) && buf[..] == ReplyDatagram(len, reqId, key, mBuff)
  {
    buf := new Byte[BUFF_SIZE + 1](_ => NUL);
    var runner := PrintHeader(buf, len, reqId, key);
    if READ == key {
      AddMessage(buf, runner, mBuff);
    }
    ZeroTail(buf[..], ReplyHeader(len, reqId, key) + [NUL] + Message(key, mBuff));
  }

  lemma ZeroTail(s: seq<Byte>, front: seq<Byte>)
    requires |front| <= |s| && s[..|front|] == front
    requires forall k :: |front| <= k < |s| ==> s[k] == NUL
    ensures s == front + Zeros(|s| - |front|)
  {
  }
}
