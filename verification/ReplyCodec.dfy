/** The reply datagram: what the slave prints (src/slave_driver_proxy.cpp) and how the master
    parses it (src/slave_gateway.cpp). */
module ReplyCodec {
  import opened Bytes
  import opened Decimal
  import opened RequestCodec

  /** `AddRequestType`: every key but READ prints as '1'. */
  function TypeChar(key: int): Byte {
    if key == READ then DIGIT_0 else DIGIT_0 + 1
  }

  function ReplyHeader(len: nat, id: int, key: int): (h: seq<Byte>) {
    Print(len) + [SEMICOLON] + PrintInt(id) + [SEMICOLON] + [TypeChar(key), SEMICOLON]
  }

  /** The string `AddMessage` copies from `src`, the memory from `m_buff.data()` on. */
  function Message(key: int, src: seq<Byte>): seq<Byte> {
    if key == READ then CString(src) else []
  }

  /** `SendReply` writes inside its buffer of BUFF_SIZE + 1 bytes. */
  predicate ReplyFits(len: nat, id: int, key: int, src: seq<Byte>) {
    && (key == READ ==> Terminated(src))
    && |ReplyHeader(len, id, key)| + 1 + |Message(key, src)| <= BUFF_SIZE + 1
  }

  /** `buf` as `SendReply` sends it: all of BUFF_SIZE + 1 bytes. */
  function ReplyDatagram(len: nat, id: int, key: int, src: seq<Byte>): (d: seq<Byte>)
    requires ReplyFits(len, id, key, src)
    ensures |d| == BUFF_SIZE + 1
  {
    var front := ReplyHeader(len, id, key) + [NUL] + Message(key, src);
    front + Zeros(BUFF_SIZE + 1 - |front|)
  }

  datatype MasterReply = MasterReply(len: nat, reqId: int, key: int, buff: seq<Byte>)

  /** Both number fields end inside `s`. */
  predicate NumbersStay(s: seq<Byte>) {
    ScanStays(s) && ScanStays(Scan(s).1[1..])
  }

  /** `CreateDataFromBuff` stays inside `s`, the receive buffer of BUFF_SIZE bytes, when it knows the id. */
  predicate ReplyParseable(s: seq<Byte>) {
    && |s| == BUFF_SIZE && NumbersStay(s)
    && var s2 := Scan(Scan(s).1[1..]).1;
    && 2 <= |s2|
    && (KeyOf(s2[1]) == READ ==> 4 <= |s2| && Terminated(s2[4..]))
  }

  /** The id a reply carries. */
  function IdOf(s: seq<Byte>): int
    requires NumbersStay(s)
  {
    ToInt32(Strtol(Scan(s).1[1..]))
  }

  function ParseReply(s: seq<Byte>, heap: seq<Byte>): (r: MasterReply)
    requires ReplyParseable(s) && |heap| == BUFF_SIZE + 1
  {
    var s1 := Scan(s).1;
    var s2 := Scan(s1[1..]).1;
    var key := KeyOf(s2[1]);
    MasterReply(
      ToUint32(Strtoul(s)),
      IdOf(s),
      key,
      if key == READ then Strcpy(heap, s2[4..]) else [])
  }

  /** The receiver's buffer is one byte shorter than the datagram: the last byte is cut off. */
  function ReplyReceived(d: seq<Byte>): (s: seq<Byte>)
    requires |d| == BUFF_SIZE + 1
    ensures |s| == BUFF_SIZE
  {
    d[..BUFF_SIZE]
  }

  /** The message still ends in a NUL inside the receiver's shorter buffer. */
  predicate ReplyArrives(len: nat, id: int, key: int, src: seq<Byte>) {
    && (key == READ ==> Terminated(src))
    && |ReplyHeader(len, id, key)| + 1 + |Message(key, src)| <= BUFF_SIZE - 1
  }

  lemma ReplyHeaderLength(len: nat, id: int, key: int)
    requires len < 10_000 && 0 <= id < TWO_31
    ensures |ReplyHeader(len, id, key)| <= 18
  {
    PowersOfTen();
    PrintLength(len, 4);
    PrintLength(id, 10);
  }

  lemma LongestReplyHeader(key: int)
    ensures |ReplyHeader(MAX_TRANSFER, TWO_31 - 1, key)| == 18
  {
    PowersOfTen();
    assert Pow10(3) == 1_000;
    PrintLength(MAX_TRANSFER, 3);
    PrintLength(TWO_31 - 1, 9);
    ReplyHeaderLength(MAX_TRANSFER, TWO_31 - 1, key);
  }

  const MAX_MESSAGE: nat := 4116

  /** A READ reply arrives whole for every transfer length and every positive 31-bit id if and
      only if the string at `m_buff.data()` is at most 4116 bytes: 20 more than the longest
      transfer, all the room there is for a missing terminator. */
  lemma ReplyBound(src: seq<Byte>)
    requires Terminated(src)
    ensures (forall len: nat, id: nat | len <= MAX_TRANSFER && id < TWO_31 :: ReplyArrives(len, id, READ, src))
            <==> |CString(src)| <= MAX_MESSAGE
  {
    if |CString(src)| <= MAX_MESSAGE {
      forall len: nat, id: nat | len <= MAX_TRANSFER && id < TWO_31
        ensures ReplyArrives(len, id, READ, src)
      {
        ReplyHeaderLength(len, id, READ);
      }
    } else {
      LongestReplyHeader(READ);
      assert !ReplyArrives(MAX_TRANSFER, TWO_31 - 1, READ, src);
    }
  }

  // ---- round trip -----------------------------------------------------------------------

  lemma ReplyHeaderSplit(p: seq<Byte>, q: seq<Byte>, c: Byte, t: seq<Byte>)
    ensures p + [SEMICOLON] + q + [SEMICOLON] + [c, SEMICOLON] + [NUL] + t
         == p + ([SEMICOLON] + (q + ([SEMICOLON] + ([c, SEMICOLON, NUL] + t))))
  {
  }

  lemma ReplyFieldsParsed(s: seq<Byte>, s1: seq<Byte>, s2: seq<Byte>, len: nat, id: int, text: seq<Byte>, heap: seq<Byte>)
    requires |s| == BUFF_SIZE && |heap| == BUFF_SIZE + 1
    requires len < TWO_32 && -TWO_31 <= id < TWO_31
    requires s1 != [] && |s2| >= 4 && s2[4..] == text && Terminated(text)
    requires Scan(s) == (len, s1) && Scan(s1[1..]) == (id, s2) && ScanStays(s) && ScanStays(s1[1..])
    ensures ReplyParseable(s)
    ensures ParseReply(s, heap)
         == MasterReply(len, id, KeyOf(s2[1]), if KeyOf(s2[1]) == READ then Strcpy(heap, text) else [])
  {
  }

  lemma ReplyScans(len: nat, id: int, c: Byte, text: seq<Byte>)
    ensures var s2 := [SEMICOLON] + ([c, SEMICOLON, NUL] + text);
            var s1 := [SEMICOLON] + (PrintInt(id) + s2);
            && Scan(PrintInt(len) + s1) == (len, s1) && Scan(s1[1..]) == (id, s2)
            && NumbersStay(PrintInt(len) + s1)
  {
    var s2 := [SEMICOLON] + ([c, SEMICOLON, NUL] + text);
    var s1 := [SEMICOLON] + (PrintInt(id) + s2);
    ScanPrinted(len, s1);
    ScanPrinted(id, s2);
    assert s1[1..] == PrintInt(id) + s2;
  }

  lemma ReplyBufferParsed(s: seq<Byte>, len: nat, id: int, key: int, text: seq<Byte>, heap: seq<Byte>)
    requires |s| == BUFF_SIZE && |heap| == BUFF_SIZE + 1
    requires len < TWO_32 && -TWO_31 <= id < TWO_31 && key in {READ, WRITE}
    requires s == PrintInt(len) + ([SEMICOLON] + (PrintInt(id) + ([SEMICOLON] + ([TypeChar(key), SEMICOLON, NUL] + text))))
    requires Terminated(text)
    ensures ReplyParseable(s)
    ensures ParseReply(s, heap) == MasterReply(len, id, key, if key == READ then Strcpy(heap, text) else [])
  {
    var s2 := [SEMICOLON] + ([TypeChar(key), SEMICOLON, NUL] + text);
    var s1 := [SEMICOLON] + (PrintInt(id) + s2);
    ReplyScans(len, id, TypeChar(key), text);
    assert s2[4..] == text;
    ReplyFieldsParsed(s, s1, s2, len, id, text, heap);
  }

  /** What the master's receive buffer holds behind the message. */
  function ReplyPadding(len: nat, id: int, key: int, src: seq<Byte>): (z: seq<Byte>)
    requires ReplyArrives(len, id, key, src)
    ensures |Message(key, src) + z| <= BUFF_SIZE && Terminated(Message(key, src) + z)
    ensures |CString(Message(key, src) + z)| == |Message(key, src)|
  {
    var m := Message(key, src);
    var z := Zeros(BUFF_SIZE - |ReplyHeader(len, id, key)| - 1 - |m|);
    assert z[0] == NUL;
    CStringMeaning(src);
    CStringMeaning(m);
    CStringAppend(m, z);
    z
  }

  lemma ReplyLayout(len: nat, id: int, key: int, src: seq<Byte>)
    requires ReplyArrives(len, id, key, src)
    ensures ReplyReceived(ReplyDatagram(len, id, key, src))
         == ReplyHeader(len, id, key) + [NUL] + (Message(key, src) + ReplyPadding(len, id, key, src))
  {
    var front := ReplyHeader(len, id, key) + [NUL] + Message(key, src);
    var n := BUFF_SIZE - |front|;
    assert (front + Zeros(n + 1))[..BUFF_SIZE] == front + Zeros(n);
  }

  /** What the master makes of a reply the slave printed. */
  lemma ReplyParsed(len: nat, id: int, key: int, src: seq<Byte>, heap: seq<Byte>)
    requires len < TWO_32 && -TWO_31 <= id < TWO_31 && key in {READ, WRITE}
    requires ReplyArrives(len, id, key, src) && |heap| == BUFF_SIZE + 1
    ensures var s := ReplyReceived(ReplyDatagram(len, id, key, src));
            && ReplyParseable(s)
            && ParseReply(s, heap) == MasterReply(len, id, key,
                 if key == READ then Strcpy(heap, CString(src) + ReplyPadding(len, id, key, src)) else [])
  {
    var text := Message(key, src) + ReplyPadding(len, id, key, src);
    var s := ReplyReceived(ReplyDatagram(len, id, key, src));
    ReplyLayout(len, id, key, src);
    ReplyHeaderSplit(Print(len), PrintInt(id), TypeChar(key), text);
    ReplyBufferParsed(s, len, id, key, text, heap);
  }

  /** Parsing what the slave prints gives back length, id and key for all 32-bit lengths and ids
      and both keys. For a READ of `data` (followed in the slave's memory by `beyond`) the bytes
      arrive as C strings carry them: equal up to and including the first NUL. */
  lemma ReplyRoundTrip(id: int, key: int, data: seq<Byte>, beyond: seq<Byte>, heap: seq<Byte>)
    requires |data| <= BUFF_SIZE && -TWO_31 <= id < TWO_31 && key in {READ, WRITE}
    requires ReplyArrives(|data|, id, key, data + beyond) && |heap| == BUFF_SIZE + 1
    ensures var s := ReplyReceived(ReplyDatagram(|data|, id, key, data + beyond));
            && ReplyParseable(s)
            && var r := ParseReply(s, heap);
            && r.len == |data| && r.reqId == id && r.key == key
            && (key == READ ==> |r.buff| == BUFF_SIZE + 1 && CarriedFrom(r.buff[..|data|], data))
  {
    var after := ReplyPadding(|data|, id, key, data + beyond);
    ReplyParsed(|data|, id, key, data + beyond, heap);
    if key == READ {
      TwoCopies(data, beyond, after);
      CopyCarries(heap, CString(data + beyond) + after, data);
    }
  }

  /** The bytes went through two copies, but the second string still starts with `data`. */
  lemma TwoCopies(data: seq<Byte>, beyond: seq<Byte>, after: seq<Byte>)
    requires Terminated(data + beyond) && Terminated(CString(data + beyond) + after)
    requires |CString(CString(data + beyond) + after)| == |CString(data + beyond)|
    ensures StringOf(CString(data + beyond) + after, data)
  {
    CStringMeaning(CString(data + beyond) + after);
    CStringAppend(data, beyond);
  }

  /** A READ of `data` reaches the master unchanged, whatever its heap held before, if and only
      if `data` has no NUL before its last byte. */
  lemma ReadExactIff(id: int, data: seq<Byte>, beyond: seq<Byte>)
    requires |data| <= BUFF_SIZE && -TWO_31 <= id < TWO_31
    requires ReplyArrives(|data|, id, READ, data + beyond)
    ensures (forall heap: seq<Byte> | |heap| == BUFF_SIZE + 1 ::
               var s := ReplyReceived(ReplyDatagram(|data|, id, READ, data + beyond));
               ReplyParseable(s) && |ParseReply(s, heap).buff| >= |data| && ParseReply(s, heap).buff[..|data|] == data)
            <==> !EarlyNul(data)
  {
    var s := ReplyReceived(ReplyDatagram(|data|, id, READ, data + beyond));
    var after := ReplyPadding(|data|, id, READ, data + beyond);
    forall heap: seq<Byte> | |heap| == BUFF_SIZE + 1
      ensures ReplyParseable(s) && ParseReply(s, heap).buff == Strcpy(heap, CString(data + beyond) + after)
    {
      ReplyParsed(|data|, id, READ, data + beyond, heap);
    }
    TwoCopies(data, beyond, after);
    CopyExactIff(CString(data + beyond) + after, data, BUFF_SIZE + 1);
  }
}
