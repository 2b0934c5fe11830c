/** ReceiveRequest reads the request header with a single `read` (src/nbd_driver_proxy.cpp:103). What
    becomes of a client's request, and of what the client sends after it, when that read is short. */
module NbdShortRead {
  import opened Bytes
  import opened Decimal
  import opened HandleTable
  import opened NbdWire

  /** A request as a client sends it: a WRITE is followed by its payload. */
  datatype ClientRequest = ClientRequest(kind: nat, handle: Handle, from: nat, len: nat, payload: seq<Byte>)

  predicate WellFormed(c: ClientRequest) {
    && c.kind < TWO_32 && c.from < TWO_64 && c.len < TWO_32
    && |c.payload| == if c.kind == 1 then c.len else 0
  }

  function HeaderBytes(c: ClientRequest): (b: seq<Byte>)
    requires WellFormed(c)
    ensures |b| == REQUEST_SIZE
  {
    RequestBytes(c.kind, c.handle, c.from, c.len)
  }

  /** The socket holds the request and whatever the client sends after it. */
  function Stream(c: ClientRequest, rest: seq<Byte>): (s: seq<Byte>)
    requires WellFormed(c)
    ensures |s| == REQUEST_SIZE + |c.payload| + |rest|
  {
    HeaderBytes(c) + c.payload + rest
  }

  /** What the client means: by number, a READ, a WRITE with its payload, or a command without a range. */
  function Meant(c: ClientRequest): Received {
    Request(if c.kind == 0 then Ranged(READ, c.handle, 0, c.from, c.len, [])
            else if c.kind == 1 then Ranged(WRITE, c.handle, 0, c.from, c.len, c.payload)
            else if c.kind == 2 then Plain(DISCONNECT, c.handle, 0)
            else if c.kind == 3 then Plain(FLUSH, c.handle, 0)
            else if c.kind == 4 then Plain(TRIM, c.handle, 0)
            else Plain(BAD_REQUEST, c.handle, 0))
  }

  lemma MeantData(c: ClientRequest)
    requires WellFormed(c)
    ensures Meant(c) == Request(DataOf(Good(KeyOf(c.kind), c.handle, c.from, c.len), c.payload))
    ensures PayloadLength(Good(KeyOf(c.kind), c.handle, c.from, c.len)) == |c.payload|
  {
  }

  // ---- the header on the wire -----------------------------------------------------------

  lemma {:induction false} BigEndianBound(s: seq<Byte>)
    ensures BigEndian(s) < Pow256(|s|)
  {
    if s != [] {
      BigEndianBound(s[..|s| - 1]);
    }
  }

  lemma BigEndianInjective(s: seq<Byte>, t: seq<Byte>)
    requires |s| == |t| && BigEndian(s) == BigEndian(t)
    ensures s == t
  {
    ReversedLoad(s);
    ReversedLoad(t);
    LoadInjective(Reversed(s), Reversed(t));
    assert Reversed(Reversed(s)) == s && Reversed(Reversed(t)) == t;
  }

  lemma {:induction false} BigEndianZeros(n: nat)
    ensures BigEndian(Zeros(n)) == 0
  {
    if n > 0 {
      BigEndianZeros(n - 1);
      assert Zeros(n)[..n - 1] == Zeros(n - 1);
    }
  }

  lemma WordOnWire(v: nat)
    requires v < TWO_32
    ensures BigEndian(Store(Ntohl(v), 4)) == v
  {
    WordSizes();
    LoadStoreWord(Ntohl(v));
    SwapConverts(Store(Ntohl(v), 4));
    SwapInvolution(v, 4);
  }

  lemma LongOnWire(v: nat)
    requires v < TWO_64
    ensures BigEndian(Store(Ntohll(v), 8)) == v
  {
    NtohllInvolution(v);
    LoadStoreWord(Ntohll(v));
    NtohllConverts(Store(Ntohll(v), 8));
  }

  lemma OnWire(c: ClientRequest)
    requires WellFormed(c)
    ensures var b := HeaderBytes(c);
      && BigEndian(b[0..4]) == NBD_REQUEST_MAGIC && BigEndian(b[4..8]) == c.kind && b[8..16] == c.handle
      && BigEndian(b[16..24]) == c.from && BigEndian(b[24..28]) == c.len
  {
    Fields(Store(Ntohl(NBD_REQUEST_MAGIC), 4), Store(Ntohl(c.kind), 4), c.handle, Store(Ntohll(c.from), 8), Store(Ntohl(c.len), 4));
    WordOnWire(NBD_REQUEST_MAGIC);
    WordOnWire(c.kind);
    LongOnWire(c.from);
    WordOnWire(c.len);
  }

  // ---- what a short read leaves of the header ---------------------------------------------

  /** The bytes of `b` in `x..y` that a read of `n` bytes missed are zero. */
  predicate MissedZero(b: seq<Byte>, n: nat, x: nat, y: nat) {
    forall k :: x <= k < y && n <= k < |b| ==> b[k] == NUL
  }

  lemma FilledField(b: seq<Byte>, n: nat, x: nat, y: nat)
    requires |b| == REQUEST_SIZE && n <= REQUEST_SIZE && x <= y <= REQUEST_SIZE
    ensures Filled(b[..n])[x..y] == b[x..y] <==> MissedZero(b, n, x, y)
  {
    var f := Filled(b[..n]);
    if f[x..y] == b[x..y] {
      forall k | x <= k < y && n <= k ensures b[k] == NUL {
        assert f[k] == f[x..y][k - x] == b[x..y][k - x];
      }
    }
  }

  lemma FilledNumber(b: seq<Byte>, n: nat, x: nat, y: nat)
    requires |b| == REQUEST_SIZE && n <= REQUEST_SIZE && x <= y <= REQUEST_SIZE
    ensures BigEndian(Filled(b[..n])[x..y]) == BigEndian(b[x..y]) <==> MissedZero(b, n, x, y)
  {
    FilledField(b, n, x, y);
    if BigEndian(Filled(b[..n])[x..y]) == BigEndian(b[x..y]) {
      BigEndianInjective(Filled(b[..n])[x..y], b[x..y]);
    }
  }

  lemma HighPart(p: nat, q: nat, r: nat)
    requires r < p
    ensures p * q + r < p ==> p * q == 0
    ensures p * q + r >= p ==> p * q >= p
  {
    if q >= 1 {
      assert p * q == p + p * (q - 1);
    }
  }

  /** A word of which only `m` bytes were read: it keeps the high ones. */
  lemma CutWord(t: seq<Byte>, m: nat)
    requires m < |t| == 4
    ensures var cut, p := BigEndian(t[..m] + Zeros(4 - m)), Pow256(4 - m);
      && p >= 0x100 && (BigEndian(t) < p ==> cut == 0) && (BigEndian(t) >= p ==> cut >= p)
  {
    var p, q := Pow256(4 - m), BigEndian(t[..m]);
    BigEndianJoin(t[..m], t[m..]);
    assert t[..m] + t[m..] == t;
    BigEndianBound(t[m..]);
    BigEndianJoin(t[..m], Zeros(4 - m));
    BigEndianZeros(4 - m);
    assert p == 0x100 * Pow256(3 - m);
    HighPart(p, q, BigEndian(t[m..]));
  }

  /** The key that a cut request type gets is the right one if nothing was cut, if the type is 0, or
      if what is left of it is no command either. */
  predicate KeySurvives(kind: nat, n: nat) {
    n >= 4 && (n >= 8 || kind == 0 || kind >= Pow256(8 - n))
  }

  lemma CutKind(b: seq<Byte>, n: nat)
    requires |b| == REQUEST_SIZE && 4 <= n <= REQUEST_SIZE
    ensures KeyOf(BigEndian(Filled(b[..n])[4..8])) == KeyOf(BigEndian(b[4..8])) <==> KeySurvives(BigEndian(b[4..8]), n)
  {
    var f := Filled(b[..n]);
    if n >= 8 {
      assert f[4..8] == b[4..8];
    } else {
      assert f[4..8] == b[4..8][..n - 4] + Zeros(4 - (n - 4));
      CutWord(b[4..8], n - 4);
    }
  }

  lemma MagicCut(b: seq<Byte>, n: nat)
    requires |b| == REQUEST_SIZE && n <= REQUEST_SIZE && BigEndian(b[0..4]) == NBD_REQUEST_MAGIC
    ensures ParseHeader(Filled(b[..n])).BadMagic? <==> n < 4
  {
    var f := Filled(b[..n]);
    HeaderMeaning(f);
    FilledNumber(b, n, 0, 4);
    if n < 4 {
      assert b[0..4][3] == b[3] && BigEndian(b[0..4]) % 0x100 == b[3];
    }
  }

  /** Each field is read right exactly under its own condition. */
  lemma HeaderCut(c: ClientRequest, n: nat)
    requires WellFormed(c) && 4 <= n <= REQUEST_SIZE
    ensures var b, h := HeaderBytes(c), ParseHeader(Filled(HeaderBytes(c)[..n]));
      && h.Good?
      && (h.key == KeyOf(c.kind) <==> KeySurvives(c.kind, n))
      && (h.handle == c.handle <==> MissedZero(b, n, 8, 16))
      && (h.offset == c.from <==> MissedZero(b, n, 16, 24))
      && (h.len == c.len <==> MissedZero(b, n, 24, 28))
  {
    var b := HeaderBytes(c);
    OnWire(c);
    MagicCut(b, n);
    HeaderMeaning(Filled(b[..n]));
    CutKind(b, n);
    FilledField(b, n, 8, 16);
    FilledNumber(b, n, 16, 24);
    FilledNumber(b, n, 24, 28);
  }

  // ---- what it makes of the request -------------------------------------------------------

  lemma CutConcat(b: seq<Byte>, p: seq<Byte>, rest: seq<Byte>, n: nat)
    requires n <= |b|
    ensures (b + p + rest)[..n] == b[..n] && (b + p + rest)[n..] == (b[n..] + p) + rest
  {
  }

  lemma StreamCut(c: ClientRequest, rest: seq<Byte>, n: nat)
    requires WellFormed(c) && n <= REQUEST_SIZE
    ensures Stream(c, rest)[..n] == HeaderBytes(c)[..n]
    ensures Stream(c, rest)[n..] == (HeaderBytes(c)[n..] + c.payload) + rest
  {
    CutConcat(HeaderBytes(c), c.payload, rest, n);
  }

  /** The case of a read of `n` bytes that loads `h`, before `left` in the stream. */
  lemma CutStream(c: ClientRequest, rest: seq<Byte>, n: nat, h: Header, left: seq<Byte>)
    requires WellFormed(c) && n <= REQUEST_SIZE
    requires h == ParseHeader(Filled(HeaderBytes(c)[..n])) && left == (HeaderBytes(c)[n..] + c.payload) + rest
    ensures ReceivedAs(Stream(c, rest), n) == ReceivedOf(h, left) && Unread(Stream(c, rest), n) == UnreadOf(h, left)
  {
    StreamCut(c, rest, n);
  }

  /** A short read is noticed exactly when it does not even hold the magic number. */
  lemma ShortReadNoticedIff(c: ClientRequest, rest: seq<Byte>, n: nat)
    requires WellFormed(c) && n <= REQUEST_SIZE
    ensures ReceivedAs(Stream(c, rest), n).InvalidMagic? <==> n < 4
  {
    var b := HeaderBytes(c);
    OnWire(c);
    MagicCut(b, n);
    CutStream(c, rest, n, ParseHeader(Filled(b[..n])), (b[n..] + c.payload) + rest);
  }

  lemma PayloadTaken(h: Header, payload: seq<Byte>, rest: seq<Byte>)
    requires h.Good? && PayloadLength(h) == |payload|
    ensures ReceivedOf(h, payload + rest) == Request(DataOf(h, payload)) && UnreadOf(h, payload + rest) == rest
  {
    assert (payload + rest)[..|payload|] == payload && (payload + rest)[|payload|..] == rest;
  }

  lemma FilledWhole(b: seq<Byte>)
    requires |b| == REQUEST_SIZE
    ensures Filled(b[..REQUEST_SIZE]) == b && forall p: seq<Byte> :: b[REQUEST_SIZE..] + p == p
  {
  }

  lemma HeaderParsed(c: ClientRequest)
    requires WellFormed(c)
    ensures ParseHeader(HeaderBytes(c)) == Good(KeyOf(c.kind), c.handle, c.from, c.len)
  {
    RequestRoundTrip(c.kind, c.handle, c.from, c.len);
  }

  lemma WholeHeaderTaken(c: ClientRequest, rest: seq<Byte>, h: Header)
    requires WellFormed(c) && h.Good? && h == ParseHeader(HeaderBytes(c)) && PayloadLength(h) == |c.payload|
    requires Meant(c) == Request(DataOf(h, c.payload))
    ensures ReceivedAs(Stream(c, rest), REQUEST_SIZE) == Meant(c)
    ensures Unread(Stream(c, rest), REQUEST_SIZE) == rest
  {
    FilledWhole(HeaderBytes(c));
    CutStream(c, rest, REQUEST_SIZE, h, c.payload + rest);
    PayloadTaken(h, c.payload, rest);
  }

  lemma WholeRequest(c: ClientRequest, rest: seq<Byte>)
    requires WellFormed(c)
    ensures ReceivedAs(Stream(c, rest), REQUEST_SIZE) == Meant(c)
    ensures Unread(Stream(c, rest), REQUEST_SIZE) == rest
  {
    MeantData(c);
    HeaderParsed(c);
    WholeHeaderTaken(c, rest, Good(KeyOf(c.kind), c.handle, c.from, c.len));
  }

  /** A request that is received as it was meant takes as many bytes from behind what was read of its
      header as it has payload, so the missed ones shift into what follows. */
  lemma UnreadLength(h: Header, left: seq<Byte>, c: ClientRequest)
    requires WellFormed(c) && ReceivedOf(h, left) == Meant(c)
    ensures |UnreadOf(h, left)| + |c.payload| == |left|
  {
  }

  /** The next request is read from where it begins, and this one is received as it was meant, if and
      only if the read of the header is not short at all. */
  lemma ShortReadExactIff(c: ClientRequest, rest: seq<Byte>, n: nat)
    requires WellFormed(c) && n <= REQUEST_SIZE
    ensures ReceivedAs(Stream(c, rest), n) == Meant(c) && Unread(Stream(c, rest), n) == rest <==> n == REQUEST_SIZE
  {
    var s := Stream(c, rest);
    if n == REQUEST_SIZE {
      WholeRequest(c, rest);
    } else if ReceivedAs(s, n) == Meant(c) {
      UnreadLength(ParseHeader(Filled(s[..n])), s[n..], c);
    }
  }

  /** When the request itself survives: its key does, the missed bytes of the fields that its key uses
      are zero, and a WRITE carries nothing but zeros, which the shift does not change. */
  predicate Survives(c: ClientRequest, n: nat)
    requires WellFormed(c) && n <= REQUEST_SIZE
  {
    BytesSurvive(HeaderBytes(c), c, n)
  }

  predicate BytesSurvive(b: seq<Byte>, c: ClientRequest, n: nat) {
    && KeySurvives(c.kind, n)
    && MissedZero(b, n, 8, if HasRange(KeyOf(c.kind)) then REQUEST_SIZE else 16)
    && (KeyOf(c.kind) == WRITE && n < REQUEST_SIZE ==> forall k :: 0 <= k < |c.payload| ==> c.payload[k] == NUL)
  }

  /** A payload behind `m` zeros begins with itself: each byte is the one `m` places before it. */
  lemma {:induction false} ShiftedAlike(p: seq<Byte>, m: nat, i: nat)
    requires m > 0 && (Zeros(m) + p)[..|p|] == p && i < |p|
    ensures p[i] == NUL
  {
    assert p[i] == (Zeros(m) + p)[..|p|][i];
    if i >= m {
      ShiftedAlike(p, m, i - m);
    }
  }

  lemma ShiftUnseen(p: seq<Byte>, m: nat)
    ensures (Zeros(m) + p)[..|p|] == p <==> m == 0 || forall k :: 0 <= k < |p| ==> p[k] == NUL
  {
    if m == 0 {
      assert Zeros(0) + p == p;
    } else if (Zeros(m) + p)[..|p|] == p {
      forall i | 0 <= i < |p| ensures p[i] == NUL {
        ShiftedAlike(p, m, i);
      }
    }
  }

  lemma MissedZeros(b: seq<Byte>, n: nat)
    requires |b| == REQUEST_SIZE && 8 <= n <= REQUEST_SIZE && MissedZero(b, n, 8, REQUEST_SIZE)
    ensures b[n..] == Zeros(REQUEST_SIZE - n)
  {
  }

  /** The received request is the one meant, field by field and in its payload. */
  predicate Alike(h: Header, front: seq<Byte>, c: ClientRequest)
    requires h.Good? && (KeyOf(c.kind) == WRITE ==> |front| >= c.len)
  {
    && h.key == KeyOf(c.kind) && h.handle == c.handle
    && (HasRange(h.key) ==> h.offset == c.from && h.len == c.len)
    && (h.key == WRITE ==> front[..c.len] == c.payload)
  }

  lemma DataSurvives(h: Header, front: seq<Byte>, rest: seq<Byte>, c: ClientRequest)
    requires WellFormed(c) && h.Good? && |front| >= |c.payload|
    ensures ReceivedOf(h, front + rest) == Meant(c) <==> Alike(h, front, c)
  {
    var left := front + rest;
    assert left[..|c.payload|] == front[..|c.payload|];
  }

  lemma AlikeIff(b: seq<Byte>, c: ClientRequest, n: nat, h: Header)
    requires WellFormed(c) && |b| == REQUEST_SIZE && 4 <= n <= REQUEST_SIZE && h.Good?
    requires h.key == KeyOf(c.kind) <==> KeySurvives(c.kind, n)
    requires h.handle == c.handle <==> MissedZero(b, n, 8, 16)
    requires h.offset == c.from <==> MissedZero(b, n, 16, 24)
    requires h.len == c.len <==> MissedZero(b, n, 24, 28)
    ensures Alike(h, b[n..] + c.payload, c) <==> BytesSurvive(b, c, n)
  {
    RangesJoin(b, n);
    if KeyOf(c.kind) == WRITE && n >= 8 && MissedZero(b, n, 8, REQUEST_SIZE) {
      MissedZeros(b, n);
      ShiftUnseen(c.payload, REQUEST_SIZE - n);
    }
  }

  /** Apart from what it does to the stream, a short read yields the request that was meant if and
      only if the request survives it. */
  lemma ShortReadDataIff(c: ClientRequest, rest: seq<Byte>, n: nat)
    requires WellFormed(c) && n <= REQUEST_SIZE
    ensures ReceivedAs(Stream(c, rest), n) == Meant(c) <==> Survives(c, n)
  {
    var b := HeaderBytes(c);
    var h := ParseHeader(Filled(b[..n]));
    ShortReadNoticedIff(c, rest, n);
    CutStream(c, rest, n, h, (b[n..] + c.payload) + rest);
    if n >= 4 {
      HeaderCut(c, n);
      DataSurvives(h, b[n..] + c.payload, rest, c);
      AlikeIff(b, c, n, h);
    }
  }

  lemma RangesJoin(b: seq<Byte>, n: nat)
    requires |b| == REQUEST_SIZE
    ensures MissedZero(b, n, 8, 28) <==> MissedZero(b, n, 8, 16) && MissedZero(b, n, 16, 24) && MissedZero(b, n, 24, 28)
  {
  }

  /** A WRITE of 256 bytes, or of any multiple of that, whose header is read but for its last byte: the
      byte is zero and all fields are right, but the payload that is taken is shifted by it, and the
      next call starts with the payload's last byte. */
  lemma ShiftedWrite(c: ClientRequest, rest: seq<Byte>)
    requires WellFormed(c) && c.kind == 1 && c.len > 0 && c.len % 0x100 == 0
    ensures var s, n := Stream(c, rest), REQUEST_SIZE - 1;
      && ReceivedAs(s, n) == Request(Ranged(WRITE, c.handle, 0, c.from, c.len, [NUL] + c.payload[..c.len - 1]))
      && Unread(s, n) == [c.payload[c.len - 1]] + rest
  {
    var h := Good(WRITE, c.handle, c.from, c.len);
    LastByteMissed(c);
    var front, back := [NUL] + c.payload[..c.len - 1], [c.payload[c.len - 1]] + rest;
    Shifted(c.payload, rest);
    CutStream(c, rest, REQUEST_SIZE - 1, h, front + back);
    PayloadTaken(h, front, back);
  }

  lemma LastByteMissed(c: ClientRequest)
    requires WellFormed(c) && c.kind == 1 && c.len % 0x100 == 0
    ensures ParseHeader(Filled(HeaderBytes(c)[..REQUEST_SIZE - 1])) == Good(WRITE, c.handle, c.from, c.len)
    ensures HeaderBytes(c)[REQUEST_SIZE - 1..] == [NUL]
  {
    OnWire(c);
    LastByte(HeaderBytes(c));
    RequestRoundTrip(c.kind, c.handle, c.from, c.len);
  }

  lemma Shifted(p: seq<Byte>, rest: seq<Byte>)
    requires p != []
    ensures ([NUL] + p) + rest == ([NUL] + p[..|p| - 1]) + ([p[|p| - 1]] + rest)
  {
  }

  lemma LastByte(b: seq<Byte>)
    requires |b| == REQUEST_SIZE && BigEndian(b[24..28]) % 0x100 == 0
    ensures Filled(b[..27]) == b && b[27..] == [NUL]
  {
    assert b[24..28][3] == b[27];
  }
}
