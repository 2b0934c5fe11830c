/** The request datagram: what the master prints (src/cloud_storage.cpp) and how the slave
    parses it (src/slave_driver_proxy.cpp). */
module RequestCodec {
  import opened Bytes
  import opened Decimal

  const BUFF_SIZE: nat := 4136
  const MAX_TRANSFER: nat := 4096  // run.sh: max_sectors_kb = 4

  // FactoryKey (include/globals.hpp)
  const READ := 0
  const WRITE := 1
  const DISCONNECT := 2

  /** `static_cast<FactoryKey>(c - '0')` with a signed `char`. */
  function KeyOf(c: Byte): (k: int)
    ensures -128 <= k + 48 < 128 && (k + 48 - c) % 256 == 0
  {
    (if c < 128 then c else c - 256) - 48
  }

  function KeyChar(key: int): (c: Byte)
    requires 0 <= key <= 9
    ensures KeyOf(c) == key
  {
    DIGIT_0 + key
  }

  // ---- printing -------------------------------------------------------------------------

  /** `sprintf(buf, "%lu;%u;%d;%c;", offset, len, id, key)`. */
  function Header(offset: nat, len: nat, id: int, key: Byte): (h: seq<Byte>) {
    Print(offset) + [SEMICOLON] + Print(len) + [SEMICOLON] + PrintInt(id) + [SEMICOLON] + [key, SEMICOLON]
  }

  predicate Fits(offset: nat, len: nat, id: int, payload: nat) {
    |Header(offset, len, id, DIGIT_0)| + 1 + payload <= BUFF_SIZE
  }

  /** The whole datagram: header, NUL, payload, and the zeros the buffer started with. */
  function Datagram(offset: nat, len: nat, id: int, key: Byte, payload: seq<Byte>): (d: seq<Byte>)
    requires Fits(offset, len, id, |payload|)
    ensures |d| == BUFF_SIZE
  {
    var h := Header(offset, len, id, key);
    h + [NUL] + payload + Zeros(BUFF_SIZE - |h| - 1 - |payload|)
  }

  // ---- parsing --------------------------------------------------------------------------

  /** `GetNextParse`: what follows the first ';' (nothing, when there is none). */
  function AfterSemicolon(s: seq<Byte>): (r: seq<Byte>)
    ensures s != [] ==> |r| < |s|
  {
    if s == [] then [] else if s[0] == SEMICOLON then s[1..] else AfterSemicolon(s[1..])
  }

  datatype SlaveRequest = SlaveRequest(offset: nat, len: nat, reqId: int, key: int, buff: seq<Byte>)

  /** What the parser needs to stay inside `s`, the receive buffer, one byte longer than any
      datagram: three separators, a key, and after a WRITE's key field a string. */
  predicate Parseable(s: seq<Byte>) {
    && |s| == BUFF_SIZE + 1
    && var s3 := AfterSemicolon(AfterSemicolon(AfterSemicolon(s)));
    && s3 != []
    && (KeyOf(s3[0]) == WRITE ==> 3 <= |s3| && Terminated(s3[3..]))
  }

  /** `heap` is the old content of the block that `m_buff.reserve(BUFF_SIZE + 1)` returned. */
  function Parse(s: seq<Byte>, heap: seq<Byte>): (r: SlaveRequest)
    requires Parseable(s) && |heap| == BUFF_SIZE + 1
  {
    var s1 := AfterSemicolon(s);
    var s2 := AfterSemicolon(s1);
    var s3 := AfterSemicolon(s2);
    var key := KeyOf(s3[0]);
    SlaveRequest(
      Strtoul(s),
      ToUint32(Strtoul(s1)),
      ToInt32(Strtoul(s2)),
      key,
      if key == WRITE then Strcpy(heap, s3[3..]) else [])
  }

  // ---- the datagram bound ---------------------------------------------------------------

  lemma PowersOfTen()
    ensures Pow10(4) == 10_000
    ensures Pow10(9) == 1_000_000_000
    ensures Pow10(10) == 10_000_000_000
    ensures Pow10(19) == 10_000_000_000_000_000_000
    ensures Pow10(20) == 100_000_000_000_000_000_000
  {
    assert Pow10(3) == 1_000;
    assert Pow10(6) == 1_000_000;
    assert Pow10(8) == 100_000_000;
    assert Pow10(12) == 1_000_000_000_000;
    assert Pow10(14) == 100_000_000_000_000;
    assert Pow10(16) == 10_000_000_000_000_000;
    assert Pow10(18) == 1_000_000_000_000_000_000;
  }

  /** 20 + 4 + 10 digits, a key and four separators: never more than 39 bytes. */
  lemma HeaderLength(offset: nat, len: nat, id: int, key: Byte)
    requires offset < TWO_64 && len < 10_000 && 0 <= id < TWO_31
    ensures |Header(offset, len, id, key)| <= 39
  {
    PowersOfTen();
    PrintLength(offset, 20);
    PrintLength(len, 4);
    PrintLength(id, 10);
  }

  lemma LongestHeader(len: nat)
    requires len >= 1_000
    ensures |Header(TWO_64 - 1, len, TWO_31 - 1, DIGIT_0)| >= 39
  {
    PowersOfTen();
    assert Pow10(3) == 1_000;
    PrintLength(TWO_64 - 1, 19);
    PrintLength(TWO_31 - 1, 9);
    PrintLength(len, 3);
  }

  /** The 4136-byte buffer holds every request of `len` bytes, whatever the 64-bit offset and
      the positive 31-bit id, if and only if `len` is at most 4096: not one byte is spare. */
  lemma DatagramBound(len: nat)
    ensures (forall offset: nat, id: nat | offset < TWO_64 && id < TWO_31 :: Fits(offset, len, id, len))
            <==> len <= MAX_TRANSFER
  {
    if len <= MAX_TRANSFER {
      forall offset: nat, id: nat | offset < TWO_64 && id < TWO_31
        ensures Fits(offset, len, id, len)
      {
        HeaderLength(offset, len, id, DIGIT_0);
      }
    } else {
      LongestHeader(len);
      assert !Fits(TWO_64 - 1, len, TWO_31 - 1, len);
    }
  }

  /** The bound is reached. */
  lemma DatagramBoundTight()
    ensures |Header(TWO_64 - 1, MAX_TRANSFER, TWO_31 - 1, DIGIT_0)| + 1 + MAX_TRANSFER == BUFF_SIZE
  {
    LongestHeader(MAX_TRANSFER);
    HeaderLength(TWO_64 - 1, MAX_TRANSFER, TWO_31 - 1, DIGIT_0);
  }

  // ---- round trip -----------------------------------------------------------------------

  lemma {:induction false} AfterFirstSemicolon(p: seq<Byte>, t: seq<Byte>)
    requires forall k :: 0 <= k < |p| ==> p[k] != SEMICOLON
    ensures AfterSemicolon(p + ([SEMICOLON] + t)) == t
  {
    if p == [] {
      assert p + ([SEMICOLON] + t) == [SEMICOLON] + t;
    } else {
      assert (p + ([SEMICOLON] + t))[1..] == p[1..] + ([SEMICOLON] + t);
      AfterFirstSemicolon(p[1..], t);
    }
  }

  lemma SplitUnique(p: seq<Byte>, t: seq<Byte>, q: seq<Byte>, u: seq<Byte>)
    requires forall k :: 0 <= k < |p| ==> p[k] != SEMICOLON
    requires forall k :: 0 <= k < |q| ==> q[k] != SEMICOLON
    requires p + ([SEMICOLON] + t) == q + ([SEMICOLON] + u)
    ensures p == q && t == u
  {
    AfterFirstSemicolon(p, t);
    AfterFirstSemicolon(q, u);
    var s := p + ([SEMICOLON] + t);
    assert p == s[..|s| - |t| - 1] && q == s[..|s| - |t| - 1];
  }

  lemma PrintIntInjective(m: int, n: int)
    requires PrintInt(m) == PrintInt(n)
    ensures m == n
  {
    assert m < 0 <==> PrintInt(m)[0] == MINUS;
    assert n < 0 <==> PrintInt(n)[0] == MINUS;
    assert m < 0 ==> PrintInt(m)[1..] == Print(-m);
    assert n < 0 ==> PrintInt(n)[1..] == Print(-n);
    PrintInjective(if m < 0 then -m else m, if n < 0 then -n else n);
  }

  lemma FieldsUnique(p: seq<Byte>, q: seq<Byte>, r: seq<Byte>, t: seq<Byte>, p': seq<Byte>, q': seq<Byte>, r': seq<Byte>, t': seq<Byte>)
    requires forall k :: 0 <= k < |p| ==> p[k] != SEMICOLON
    requires forall k :: 0 <= k < |q| ==> q[k] != SEMICOLON
    requires forall k :: 0 <= k < |r| ==> r[k] != SEMICOLON
    requires forall k :: 0 <= k < |p'| ==> p'[k] != SEMICOLON
    requires forall k :: 0 <= k < |q'| ==> q'[k] != SEMICOLON
    requires forall k :: 0 <= k < |r'| ==> r'[k] != SEMICOLON
    requires p + [SEMICOLON] + q + [SEMICOLON] + r + [SEMICOLON] + t == p' + [SEMICOLON] + q' + [SEMICOLON] + r' + [SEMICOLON] + t'
    ensures p == p' && q == q' && r == r' && t == t'
  {
    var u, u' := r + ([SEMICOLON] + t), r' + ([SEMICOLON] + t');
    var v, v' := q + ([SEMICOLON] + u), q' + ([SEMICOLON] + u');
    assert p + [SEMICOLON] + q + [SEMICOLON] + r + [SEMICOLON] + t == p + ([SEMICOLON] + v);
    assert p' + [SEMICOLON] + q' + [SEMICOLON] + r' + [SEMICOLON] + t' == p' + ([SEMICOLON] + v');
    SplitUnique(p, v, p', v');
    SplitUnique(q, u, q', u');
    SplitUnique(r, t, r', t');
  }

  /** No two requests print the same header. */
  lemma HeaderInjective(o: nat, l: nat, i: int, k: Byte, o': nat, l': nat, i': int, k': Byte)
    requires Header(o, l, i, k) == Header(o', l', i', k')
    ensures o == o' && l == l' && i == i' && k == k'
  {
    FieldsUnique(PrintInt(o), PrintInt(l), PrintInt(i), [k, SEMICOLON], PrintInt(o'), PrintInt(l'), PrintInt(i'), [k', SEMICOLON]);
    PrintIntInjective(o, o');
    PrintIntInjective(l, l');
    PrintIntInjective(i, i');
  }

  /** One field: the scan yields the number, and the next field starts behind the separator. */
  lemma FieldParsed(s: seq<Byte>, z: int, t: seq<Byte>)
    requires s == PrintInt(z) + ([SEMICOLON] + t)
    ensures AfterSemicolon(s) == t && Scan(s).0 == z
  {
    AfterFirstSemicolon(PrintInt(z), t);
    ScanPrinted(z, [SEMICOLON] + t);
  }

  lemma HeaderSplit(p: seq<Byte>, q: seq<Byte>, r: seq<Byte>, c: Byte, t: seq<Byte>)
    ensures p + [SEMICOLON] + q + [SEMICOLON] + r + [SEMICOLON] + [c, SEMICOLON] + [NUL] + t
         == p + ([SEMICOLON] + (q + ([SEMICOLON] + (r + ([SEMICOLON] + ([c, SEMICOLON, NUL] + t))))))
  {
  }

  /** A receive buffer with three number fields parses to those numbers. */
  lemma BufferParsed(s: seq<Byte>, offset: nat, len: nat, id: int, key: Byte, text: seq<Byte>, heap: seq<Byte>)
    requires |s| == |heap| == BUFF_SIZE + 1
    requires offset < TWO_64 && len < TWO_32 && -TWO_31 <= id < TWO_31
    requires s == PrintInt(offset) + ([SEMICOLON] + (PrintInt(len) + ([SEMICOLON] + (PrintInt(id)
                  + ([SEMICOLON] + ([key, SEMICOLON, NUL] + text))))))
    requires Terminated(text)
    ensures Parseable(s)
    ensures Parse(s, heap) == SlaveRequest(offset, len, id, KeyOf(key),
                                           if KeyOf(key) == WRITE then Strcpy(heap, text) else [])
  {
    var s3 := [key, SEMICOLON, NUL] + text;
    var s2 := PrintInt(id) + ([SEMICOLON] + s3);
    var s1 := PrintInt(len) + ([SEMICOLON] + s2);
    FieldParsed(s, offset, s1);
    FieldParsed(s1, len, s2);
    FieldParsed(s2, id, s3);
    assert s3[3..] == text;
  }

  /** The receive buffer after a datagram arrived: `recvfrom` leaves its last byte NUL. */
  function Received(d: seq<Byte>): (s: seq<Byte>)
    requires |d| == BUFF_SIZE
    ensures |s| == BUFF_SIZE + 1
  {
    d + [NUL]
  }

  /** What a datagram's receive buffer holds behind the header's NUL and the payload. */
  function Padding(offset: nat, len: nat, id: int, payload: seq<Byte>): (z: seq<Byte>)
    requires Fits(offset, len, id, |payload|)
    ensures Terminated(payload + z)
    ensures |Header(offset, len, id, DIGIT_0)| + 1 + |payload + z| == BUFF_SIZE + 1
  {
    var z := Zeros(BUFF_SIZE - |Header(offset, len, id, DIGIT_0)| - 1 - |payload|) + [NUL];
    assert (payload + z)[|payload + z| - 1] == NUL by {
      assert z[|z| - 1] == NUL;
    }
    CStringMeaning(payload + z);
    z
  }

  /** What the slave makes of a request the master printed. */
  lemma DatagramParsed(offset: nat, len: nat, id: int, key: int, payload: seq<Byte>, heap: seq<Byte>)
    requires offset < TWO_64 && len < TWO_32 && -TWO_31 <= id < TWO_31
    requires 0 <= key <= 9
    requires Fits(offset, len, id, |payload|) && |heap| == BUFF_SIZE + 1
    ensures var s := Received(Datagram(offset, len, id, KeyChar(key), payload));
            && Parseable(s)
            && Parse(s, heap) == SlaveRequest(offset, len, id, key,
                 if key == WRITE then Strcpy(heap, payload + Padding(offset, len, id, payload)) else [])
  {
    var text := payload + Padding(offset, len, id, payload);
    var s := Received(Datagram(offset, len, id, KeyChar(key), payload));
    assert s == Header(offset, len, id, KeyChar(key)) + [NUL] + text;
    HeaderSplit(Print(offset), Print(len), PrintInt(id), KeyChar(key), text);
    BufferParsed(s, offset, len, id, KeyChar(key), text, heap);
  }

  /** Parsing what the master prints gives back every field, for all 64-bit offsets, 32-bit
      lengths and 32-bit ids; a WRITE's payload arrives as C strings carry it. */
  lemma RequestRoundTrip(offset: nat, len: nat, id: int, key: int, payload: seq<Byte>, heap: seq<Byte>)
    requires offset < TWO_64 && len < TWO_32 && -TWO_31 <= id < TWO_31
    requires 0 <= key <= 9
    requires Fits(offset, len, id, |payload|) && |heap| == BUFF_SIZE + 1
    ensures var s := Received(Datagram(offset, len, id, KeyChar(key), payload));
            && Parseable(s)
            && var r := Parse(s, heap);
            && r.offset == offset && r.len == len && r.reqId == id && r.key == key
            && (key == WRITE ==> |r.buff| == BUFF_SIZE + 1 && CarriedFrom(r.buff[..|payload|], payload))
  {
    DatagramParsed(offset, len, id, key, payload, heap);
    StringOfPrefix(payload, Padding(offset, len, id, payload));
    CopyCarries(heap, payload + Padding(offset, len, id, payload), payload);
  }

  /** A WRITE reaches the slave's storage unchanged, whatever its heap held before, if and only
      if the payload has no NUL before its last byte. */
  lemma WriteExactIff(offset: nat, id: int, payload: seq<Byte>)
    requires offset < TWO_64 && |payload| < TWO_32 && -TWO_31 <= id < TWO_31
    requires Fits(offset, |payload|, id, |payload|)
    ensures (forall heap: seq<Byte> | |heap| == BUFF_SIZE + 1 ::
               var s := Received(Datagram(offset, |payload|, id, KeyChar(WRITE), payload));
               Parseable(s) && |Parse(s, heap).buff| >= |payload| && Parse(s, heap).buff[..|payload|] == payload)
            <==> !EarlyNul(payload)
  {
    var s := Received(Datagram(offset, |payload|, id, KeyChar(WRITE), payload));
    var after := Padding(offset, |payload|, id, payload);
    forall heap: seq<Byte> | |heap| == BUFF_SIZE + 1
      ensures Parseable(s) && Parse(s, heap).buff == Strcpy(heap, payload + after)
    {
      DatagramParsed(offset, |payload|, id, WRITE, payload, heap);
    }
    StringOfPrefix(payload, after);
    CopyExactIff(payload + after, payload, BUFF_SIZE + 1);
  }
}
