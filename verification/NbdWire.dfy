/** src/nbd_driver_proxy.cpp: the binary framing of NBD requests and simple replies. Fields are
    big-endian on the wire; the host loads and stores words little-endian. */
module NbdWire {
  import opened Bytes
  import opened Decimal
  import opened HandleTable

  const NBD_REQUEST_MAGIC := 0x25609513
  const NBD_REPLY_MAGIC := 0x67446698
  const REQUEST_SIZE := 28
  const REPLY_SIZE := 16

  type Word = x: int | 0 <= x < TWO_32

  // ---- words ----------------------------------------------------------------------------

  function Pow256(n: nat): (p: nat)
    ensures p > 0
  {
    if n == 0 then 1 else 0x100 * Pow256(n - 1)
  }

  /** The word a little-endian host loads. */
  function Load(s: seq<Byte>): (v: nat)
    ensures v < Pow256(|s|)
  {
    if s == [] then 0 else (s[0] as int) + 0x100 * Load(s[1..])
  }

  function Store(v: nat, n: nat): (s: seq<Byte>)
    ensures |s| == n
  {
    if n == 0 then [] else [v % 0x100] + Store(v / 0x100, n - 1)
  }

  lemma {:induction false} LoadStore(v: nat, n: nat)
    requires v < Pow256(n)
    ensures Load(Store(v, n)) == v
  {
    if n > 0 {
      LoadStore(v / 0x100, n - 1);
      assert Store(v, n)[1..] == Store(v / 0x100, n - 1);
    }
  }

  lemma {:induction false} StoreLoad(s: seq<Byte>)
    ensures Store(Load(s), |s|) == s
  {
    if s != [] {
      StoreLoad(s[1..]);
      assert Load(s) % 0x100 == s[0] && Load(s) / 0x100 == Load(s[1..]);
    }
  }

  lemma LoadInjective(s: seq<Byte>, t: seq<Byte>)
    requires |s| == |t| && Load(s) == Load(t)
    ensures s == t
  {
    StoreLoad(s);
    StoreLoad(t);
  }

  lemma WordSizes()
    ensures Pow256(4) == TWO_32 && Pow256(8) == TWO_64
  {
    assert Pow256(2) == 0x1_0000 && Pow256(4) == 0x1_0000 * Pow256(2);
    assert Pow256(6) == 0x1_0000 * Pow256(4) && Pow256(8) == 0x1_0000 * Pow256(6);
  }

  function Reversed(s: seq<Byte>): (r: seq<Byte>)
    ensures |r| == |s| && forall k :: 0 <= k < |s| ==> r[k] == s[|s| - 1 - k]
  {
    seq(|s|, k requires 0 <= k < |s| => s[|s| - 1 - k])
  }

  /** The number that `s` spells in network byte order. */
  function BigEndian(s: seq<Byte>): nat {
    if s == [] then 0 else BigEndian(s[..|s| - 1]) * 0x100 + s[|s| - 1]
  }

  lemma {:induction false} ReversedLoad(s: seq<Byte>)
    ensures Load(Reversed(s)) == BigEndian(s)
  {
    if s != [] {
      ReversedLoad(s[..|s| - 1]);
      assert Reversed(s)[1..] == Reversed(s[..|s| - 1]);
    }
  }

  /** Storing an `n`-byte word, swapping its bytes and loading it again. */
  function Swap(a: nat, n: nat): (r: nat)
    ensures r < Pow256(n)
  {
    Load(Reversed(Store(a, n)))
  }

  /** Swapping the bytes of a loaded word gives the number sent in network byte order. */
  lemma SwapConverts(s: seq<Byte>)
    ensures Swap(Load(s), |s|) == BigEndian(s)
  {
    StoreLoad(s);
    ReversedLoad(s);
  }

  lemma SwapInvolution(a: nat, n: nat)
    requires a < Pow256(n)
    ensures Swap(Swap(a, n), n) == a
  {
    StoreLoad(Reversed(Store(a, n)));
    assert Reversed(Reversed(Store(a, n))) == Store(a, n);
    LoadStore(a, n);
  }

  /** `ntohl` and `htonl` of a little-endian host. */
  function Ntohl(a: nat): (r: nat)
    ensures r < TWO_32
  {
    WordSizes();
    Swap(a, 4)
  }

  /** `swap` is applied to each half of a 64-bit word, and the halves are exchanged; the `|` of the
      shifted and the other half is a sum, as they do not overlap. */
  function Exchange(swap: nat -> nat, a: nat): nat {
    TWO_32 * swap(a % TWO_32) + swap(a / TWO_32)
  }

  function Ntohll(a: nat): nat {
    Exchange(Ntohl, a)
  }

  lemma {:induction false} BigEndianJoin(s: seq<Byte>, t: seq<Byte>)
    ensures BigEndian(s + t) == Pow256(|t|) * BigEndian(s) + BigEndian(t)
  {
    if t == [] {
      assert s + t == s;
    } else {
      var u := t[..|t| - 1];
      BigEndianJoin(s, u);
      assert (s + t)[..|s + t| - 1] == s + u;
      JoinArith(BigEndian(s), Pow256(|u|), BigEndian(u), t[|t| - 1]);
    }
  }

  lemma JoinArith(a: nat, p: nat, b: nat, x: nat)
    ensures (p * a + b) * 0x100 + x == (0x100 * p) * a + (b * 0x100 + x)
  {
  }

  lemma {:induction false} LoadJoin(s: seq<Byte>, t: seq<Byte>)
    ensures Load(s + t) == Load(s) + Pow256(|s|) * Load(t)
  {
    if s == [] {
      assert s + t == t;
    } else {
      LoadJoin(s[1..], t);
      assert (s + t)[1..] == s[1..] + t;
      LoadArith(s[0], Load(s[1..]), Pow256(|s| - 1), Load(t));
    }
  }

  lemma LoadArith(x: nat, a: nat, p: nat, b: nat)
    ensures x + 0x100 * (a + p * b) == (x + 0x100 * a) + 0x100 * p * b
  {
  }

  lemma NtohlConverts(s: seq<Byte>)
    requires |s| == 4
    ensures Load(s) < TWO_32 && Ntohl(Load(s)) == BigEndian(s)
  {
    WordSizes();
    SwapConverts(s);
  }

  lemma NtohlInvolution(a: nat)
    requires a < TWO_32
    ensures Ntohl(Ntohl(a)) == a
  {
    WordSizes();
    SwapInvolution(a, 4);
  }

  lemma JoinWords(lo: seq<Byte>, hi: seq<Byte>)
    requires |lo| == |hi| == 4
    ensures Load(lo + hi) == Load(lo) + TWO_32 * Load(hi)
    ensures BigEndian(lo + hi) == TWO_32 * BigEndian(lo) + BigEndian(hi)
  {
    WordSizes();
    LoadJoin(lo, hi);
    BigEndianJoin(lo, hi);
  }

  lemma ExchangeOf(swap: nat -> nat, lo: nat, hi: nat)
    requires lo < TWO_32
    ensures Exchange(swap, lo + TWO_32 * hi) == TWO_32 * swap(lo) + swap(hi)
  {
    assert (lo + TWO_32 * hi) % TWO_32 == lo && (lo + TWO_32 * hi) / TWO_32 == hi;
  }

  lemma ExchangeInvolution(swap: nat -> nat, a: nat)
    requires a < TWO_64 && forall x: nat :: x < TWO_32 ==> swap(x) < TWO_32 && swap(swap(x)) == x
    ensures Exchange(swap, a) < TWO_64 && Exchange(swap, Exchange(swap, a)) == a
  {
    var lo, hi := a % TWO_32, a / TWO_32;
    ExchangeOf(swap, swap(hi), swap(lo));
  }

  lemma ExchangeNumbers(swap: nat -> nat, a: nat, lo: nat, hi: nat, lo': nat, hi': nat)
    requires lo < TWO_32 && a == lo + TWO_32 * hi && swap(lo) == lo' && swap(hi) == hi'
    ensures Exchange(swap, a) == TWO_32 * lo' + hi'
  {
    ExchangeOf(swap, lo, hi);
  }

  /** Ntohll turns the eight bytes sent, loaded as one word, into the number they spell. */
  lemma NtohllConverts(s: seq<Byte>)
    requires |s| == 8
    ensures Ntohll(Load(s)) == BigEndian(s)
  {
    var lo, hi := s[..4], s[4..];
    assert lo + hi == s;
    JoinWords(lo, hi);
    NtohlConverts(lo);
    NtohlConverts(hi);
    ExchangeNumbers(Ntohl, Load(s), Load(lo), Load(hi), BigEndian(lo), BigEndian(hi));
  }

  /** `htonll` is defined as `ntohll`. */
  lemma NtohllInvolution(a: nat)
    requires a < TWO_64
    ensures Ntohll(a) < TWO_64 && Ntohll(Ntohll(a)) == a
  {
    forall x: nat | x < TWO_32 ensures Ntohl(x) < TWO_32 && Ntohl(Ntohl(x)) == x {
      NtohlInvolution(x);
    }
    ExchangeInvolution(Ntohl, a);
  }

  // ---- requests -------------------------------------------------------------------------

  /** struct nbd_request, as loaded. */
  datatype RawRequest = RawRequest(magic: nat, kind: nat, handle: Handle, from: nat, len: nat)

  function LoadRequest(b: seq<Byte>): (r: RawRequest)
    requires |b| == REQUEST_SIZE
  {
    RawRequest(Load(b[0..4]), Load(b[4..8]), b[8..16], Load(b[16..24]), Load(b[24..28]))
  }

  /** The FactoryKey values a request can get. */
  datatype Key = READ | WRITE | DISCONNECT | FLUSH | TRIM | BAD_REQUEST

  function KeyOf(kind: nat): Key {
    if kind == 0 then READ
    else if kind == 1 then WRITE
    else if kind == 2 then DISCONNECT
    else if kind == 3 then FLUSH
    else if kind == 4 then TRIM
    else BAD_REQUEST
  }

  /** What a client asks for, with the NBD protocol's command numbers. */
  datatype Command = CmdRead | CmdWrite | CmdDisc | CmdFlush | CmdTrim

  function Number(c: Command): (n: nat)
    ensures n <= 4
  {
    match c
    case CmdRead => 0
    case CmdWrite => 1
    case CmdDisc => 2
    case CmdFlush => 3
    case CmdTrim => 4
  }

  /** Each command gets a key of its own, and no other number gets one. */
  lemma CommandKeys(kind: nat)
    ensures KeyOf(kind) == BAD_REQUEST <==> forall c :: Number(c) != kind
    ensures forall c, d :: KeyOf(Number(c)) == KeyOf(Number(d)) ==> c == d
  {
    if kind <= 4 {
      var c := if kind == 0 then CmdRead else if kind == 1 then CmdWrite else if kind == 2 then CmdDisc
               else if kind == 3 then CmdFlush else CmdTrim;
      assert Number(c) == kind;
    }
  }

  predicate HasRange(key: Key) {
    key == READ || key == WRITE
  }

  /** The request as ReceiveRequest returns it. Offset and length are set only for READ and WRITE. */
  datatype DriverData =
    | Ranged(key: Key, handle: Handle, status: nat, offset: nat, len: nat, buff: seq<Byte>)
    | Plain(key: Key, handle: Handle, status: nat)

  datatype Header = BadMagic(magic: nat) | Good(key: Key, handle: Handle, offset: nat, len: nat)

  /** What ReceiveRequest makes of the struct it read. */
  function ParseHeader(b: seq<Byte>): Header
    requires |b| == REQUEST_SIZE
  {
    var r := LoadRequest(b);
    WordSizes();
    if r.magic != Ntohl(NBD_REQUEST_MAGIC) then BadMagic(r.magic)
    else Good(KeyOf(Ntohl(r.kind)), r.handle, Ntohll(r.from), Ntohl(r.len))
  }

  /** The struct after a `read` that delivered `got` into zeroed memory. */
  function Filled(got: seq<Byte>): (f: seq<Byte>)
    requires |got| <= REQUEST_SIZE
    ensures |f| == REQUEST_SIZE
  {
    got + Zeros(REQUEST_SIZE - |got|)
  }

  /** The bytes after the header that belong to the request. */
  function PayloadLength(h: Header): nat {
    if h.Good? && h.key == WRITE then h.len else 0
  }

  /** ReceiveRequest's result. It always sets the status to `htonl(0)`. */
  function DataOf(h: Header, payload: seq<Byte>): DriverData
    requires h.Good?
  {
    if HasRange(h.key) then Ranged(h.key, h.handle, 0, h.offset, h.len, payload)
    else Plain(h.key, h.handle, 0)
  }

  /** What becomes of a call of ReceiveRequest. `Stalled`: the payload's bytes are not all there. */
  datatype Received = Request(data: DriverData) | InvalidMagic(magic: nat) | ReadError | Stalled

  /** What ReceiveRequest makes of a header, when `left` follows what was read of it. */
  function ReceivedOf(h: Header, left: seq<Byte>): Received {
    if h.BadMagic? then InvalidMagic(h.magic)
    else if PayloadLength(h) > |left| then Stalled
    else Request(DataOf(h, left[..PayloadLength(h)]))
  }

  function UnreadOf(h: Header, left: seq<Byte>): seq<Byte> {
    if PayloadLength(h) <= |left| then left[PayloadLength(h)..] else left
  }

  /** What ReceiveRequest makes of the stream `sent` when the one `read` of the header delivers `n`
      bytes: the payload is taken from right behind those. */
  function ReceivedAs(sent: seq<Byte>, n: nat): Received
    requires n <= |sent| && n <= REQUEST_SIZE
  {
    ReceivedOf(ParseHeader(Filled(sent[..n])), sent[n..])
  }

  /** What is then still in the socket for the next call. */
  function Unread(sent: seq<Byte>, n: nat): seq<Byte>
    requires n <= |sent| && n <= REQUEST_SIZE
  {
    UnreadOf(ParseHeader(Filled(sent[..n])), sent[n..])
  }

  lemma MagicMeaning(b: seq<Byte>)
    requires |b| == 4
    ensures Load(b) == Ntohl(NBD_REQUEST_MAGIC) <==> BigEndian(b) == NBD_REQUEST_MAGIC
  {
    WordSizes();
    SwapConverts(b);
    SwapInvolution(Load(b), 4);
    SwapInvolution(NBD_REQUEST_MAGIC, 4);
  }

  /** The request is accepted exactly when it begins with the magic number in network byte order;
      then its fields are the numbers the client spelled. */
  lemma HeaderMeaning(b: seq<Byte>)
    requires |b| == REQUEST_SIZE
    ensures ParseHeader(b).BadMagic? <==> BigEndian(b[0..4]) != NBD_REQUEST_MAGIC
    ensures BigEndian(b[0..4]) == NBD_REQUEST_MAGIC ==>
      ParseHeader(b) == Good(KeyOf(BigEndian(b[4..8])), b[8..16], BigEndian(b[16..24]), BigEndian(b[24..28]))
  {
    MagicMeaning(b[0..4]);
    NtohlConverts(b[4..8]);
    NtohllConverts(b[16..24]);
    NtohlConverts(b[24..28]);
  }

  lemma WholeHeader(sent: seq<Byte>)
    requires |sent| >= REQUEST_SIZE
    ensures Filled(sent[..REQUEST_SIZE]) == sent[..REQUEST_SIZE]
    ensures var b := sent[..REQUEST_SIZE];
      && b[0..4] == sent[0..4] && b[4..8] == sent[4..8] && b[8..16] == sent[8..16]
      && b[16..24] == sent[16..24] && b[24..28] == sent[24..28]
  {
  }

  /** What each command number makes of the header's fields and of what follows in the stream. */
  lemma CommandIs(kind: nat, handle: Handle, offset: nat, len: nat, left: seq<Byte>)
    ensures var h := Good(KeyOf(kind), handle, offset, len); var r, rest := ReceivedOf(h, left), UnreadOf(h, left);
      && (kind == 0 ==> r == Request(Ranged(READ, handle, 0, offset, len, [])) && rest == left)
      && (kind == 1 && len <= |left| ==> r == Request(Ranged(WRITE, handle, 0, offset, len, left[..len])) && rest == left[len..])
      && (kind == 1 && len > |left| ==> r == Stalled)
      && (kind == 2 ==> r == Request(Plain(DISCONNECT, handle, 0)) && rest == left)
      && (kind == 3 ==> r == Request(Plain(FLUSH, handle, 0)) && rest == left)
      && (kind == 4 ==> r == Request(Plain(TRIM, handle, 0)) && rest == left)
      && (kind > 4 ==> r == Request(Plain(BAD_REQUEST, handle, 0)) && rest == left)
  {
    assert left[0..] == left && left[..0] == [];
  }

  /** What a client asks for, byte by byte: of a whole header with the magic number, type 0 is a READ and
      1 a WRITE, of the length at the offset that the header names, a WRITE with as many bytes as that
      behind the header; 2, 3 and 4 are DISCONNECT, FLUSH and TRIM, and any other type is a bad request.
      All carry the handle. Nothing else is taken off the stream. */
  lemma WholeRequestIs(sent: seq<Byte>)
    requires |sent| >= 28 && BigEndian(sent[0..4]) == 0x2560_9513
    ensures var kind, handle := BigEndian(sent[4..8]), sent[8..16];
      var offset, len := BigEndian(sent[16..24]), BigEndian(sent[24..28]);
      && (kind == 0 ==> ReceivedAs(sent, 28) == Request(Ranged(READ, handle, 0, offset, len, [])) && Unread(sent, 28) == sent[28..])
      && (kind == 1 && 28 + len <= |sent| ==>
            && ReceivedAs(sent, 28) == Request(Ranged(WRITE, handle, 0, offset, len, sent[28..28 + len]))
            && Unread(sent, 28) == sent[28 + len..])
      && (kind == 1 && 28 + len > |sent| ==> ReceivedAs(sent, 28) == Stalled)
      && (kind == 2 ==> ReceivedAs(sent, 28) == Request(Plain(DISCONNECT, handle, 0)) && Unread(sent, 28) == sent[28..])
      && (kind == 3 ==> ReceivedAs(sent, 28) == Request(Plain(FLUSH, handle, 0)) && Unread(sent, 28) == sent[28..])
      && (kind == 4 ==> ReceivedAs(sent, 28) == Request(Plain(TRIM, handle, 0)) && Unread(sent, 28) == sent[28..])
      && (kind > 4 ==> ReceivedAs(sent, 28) == Request(Plain(BAD_REQUEST, handle, 0)) && Unread(sent, 28) == sent[28..])
  {
    WholeHeader(sent);
    HeaderMeaning(sent[..REQUEST_SIZE]);
    var len := BigEndian(sent[24..28]);
    CommandIs(BigEndian(sent[4..8]), sent[8..16], BigEndian(sent[16..24]), len, sent[28..]);
    if 28 + len <= |sent| {
      assert sent[28..][..len] == sent[28..28 + len] && sent[28..][len..] == sent[28 + len..];
    }
  }

  /** What a client sends. */
  function RequestBytes(kind: nat, handle: Handle, from: nat, len: nat): (b: seq<Byte>)
    requires kind < TWO_32 && from < TWO_64 && len < TWO_32
    ensures |b| == REQUEST_SIZE
  {
    Store(Ntohl(NBD_REQUEST_MAGIC), 4) + Store(Ntohl(kind), 4) + handle + Store(Ntohll(from), 8) + Store(Ntohl(len), 4)
  }

  lemma Fields(a: seq<Byte>, b: seq<Byte>, c: seq<Byte>, d: seq<Byte>, e: seq<Byte>)
    requires |a| == |b| == |e| == 4 && |c| == |d| == 8
    ensures var s := a + b + c + d + e;
      s[0..4] == a && s[4..8] == b && s[8..16] == c && s[16..24] == d && s[24..28] == e
  {
  }

  lemma LoadStoreWord(v: nat)
    ensures v < TWO_32 ==> Load(Store(v, 4)) == v
    ensures v < TWO_64 ==> Load(Store(v, 8)) == v
  {
    WordSizes();
    if v < TWO_32 {
      LoadStore(v, 4);
    }
    if v < TWO_64 {
      LoadStore(v, 8);
    }
  }

  lemma RequestFields(kind: nat, handle: Handle, from: nat, len: nat)
    requires kind < TWO_32 && from < TWO_64 && len < TWO_32
    ensures LoadRequest(RequestBytes(kind, handle, from, len))
         == RawRequest(Ntohl(NBD_REQUEST_MAGIC), Ntohl(kind), handle, Ntohll(from), Ntohl(len))
  {
    var m, k, f, l := Ntohl(NBD_REQUEST_MAGIC), Ntohl(kind), Ntohll(from), Ntohl(len);
    Fields(Store(m, 4), Store(k, 4), handle, Store(f, 8), Store(l, 4));
    LoadStoreWord(m);
    LoadStoreWord(k);
    NtohllInvolution(from);
    LoadStoreWord(f);
    LoadStoreWord(l);
  }

  lemma RequestRoundTrip(kind: nat, handle: Handle, from: nat, len: nat)
    requires kind < TWO_32 && from < TWO_64 && len < TWO_32
    ensures ParseHeader(RequestBytes(kind, handle, from, len)) == Good(KeyOf(kind), handle, from, len)
  {
    RequestFields(kind, handle, from, len);
    WordSizes();
    SwapInvolution(kind, 4);
    NtohllInvolution(from);
    SwapInvolution(len, 4);
  }

  // ---- replies --------------------------------------------------------------------------

  /** What SendReply is given: DriverData's status, handle, key and, for READ, the data. */
  datatype Reply = Reply(status: Word, handle: Handle, key: Key, data: seq<Byte>)

  /** InitReaply. The error field is stored as it is, without conversion. */
  function ReplyHeader(r: Reply): (h: seq<Byte>)
    ensures |h| == REPLY_SIZE
  {
    Store(Ntohl(NBD_REPLY_MAGIC), 4) + Store(r.status, 4) + r.handle
  }

  function Payload(r: Reply): seq<Byte> {
    if r.key == READ then r.data else []
  }

  /** All that SendReply writes. */
  function Frame(r: Reply): (f: seq<Byte>)
    ensures |f| == REPLY_SIZE + |Payload(r)|
  {
    ReplyHeader(r) + Payload(r)
  }

  lemma HeaderFields(a: seq<Byte>, b: seq<Byte>, c: seq<Byte>)
    requires |a| == |b| == 4 && |c| == 8
    ensures var s := a + b + c; s[0..4] == a && s[4..8] == b && s[8..16] == c
  {
  }

  /** What a client reads in the 16 bytes, in network byte order: the magic number, the error number
      if the status was given in that order, as `htonl(0)` is, and the handle. */
  lemma ReplyHeaderMeaning(r: Reply)
    ensures var h := ReplyHeader(r);
      && BigEndian(h[0..4]) == NBD_REPLY_MAGIC
      && BigEndian(h[4..8]) == Ntohl(r.status)
      && h[8..16] == r.handle
  {
    WordSizes();
    HeaderFields(Store(Ntohl(NBD_REPLY_MAGIC), 4), Store(r.status, 4), r.handle);
    LoadStoreWord(Ntohl(NBD_REPLY_MAGIC));
    LoadStoreWord(r.status);
    SwapConverts(Store(Ntohl(NBD_REPLY_MAGIC), 4));
    SwapInvolution(NBD_REPLY_MAGIC, 4);
    SwapConverts(Store(r.status, 4));
  }

  /** All that a reply is on the wire: 16 bytes of header, then the data of a READ and of no other
      request. */
  lemma FrameMeaning(r: Reply)
    ensures var f := Frame(r);
      && |f| == 16 + (if r.key == READ then |r.data| else 0)
      && BigEndian(f[0..4]) == 0x6744_6698 && BigEndian(f[4..8]) == Ntohl(r.status) && f[8..16] == r.handle
      && (r.key == READ ==> f[16..] == r.data)
  {
    ReplyHeaderMeaning(r);
    var f, h := Frame(r), ReplyHeader(r);
    assert f[0..4] == h[0..4] && f[4..8] == h[4..8] && f[8..16] == h[8..16];
  }
}
