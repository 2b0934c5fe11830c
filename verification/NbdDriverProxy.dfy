/** src/nbd_driver_proxy.cpp over a stream socket whose reads and writes may be short. */
module NbdDriverProxy {
  import opened Bytes
  import opened NbdWire

  /** One end of the socket pair: what the client sends before it closes its end and is still
      unread, and all that was written to the client. */
  class Socket {
    var incoming: seq<Byte>
    var outgoing: seq<Byte>

    constructor (fromClient: seq<Byte>)
      ensures incoming == fromClient && outgoing == []
    {
      incoming := fromClient;
      outgoing := [];
    }

    /** `read`: -1, or any positive number of bytes that are there, or 0 at the end of the stream. */
    method Read(count: nat) returns (n: int, got: seq<Byte>)
      requires count > 0
      modifies this`incoming
      ensures n < 0 ==> incoming == old(incoming)
      ensures n >= 0 ==> n <= count && n <= |old(incoming)| && got == old(incoming)[..n] && incoming == old(incoming)[n..]
      ensures n == 0 ==> old(incoming) == []
    {
      n, got := -1, [];
      if * {
        if incoming == [] {
          n := 0;
        } else {
          n :| 1 <= n <= count && n <= |incoming|;
          got := incoming[..n];
          incoming := incoming[n..];
        }
      }
    }

    /** `write`: -1, or any positive number of bytes of `buff`. */
    method Write(buff: seq<Byte>) returns (n: int)
      requires buff != []
      modifies this`outgoing
      ensures n < 0 ==> outgoing == old(outgoing)
      ensures n >= 0 ==> 1 <= n <= |buff| && outgoing == old(outgoing) + buff[..n]
    {
      n := -1;
      if * {
        n :| 1 <= n <= |buff|;
        outgoing := outgoing + buff[..n];
      }
    }
  }

  /** How far ReadAll has come: it returned, it threw, or it is still in its loop. */
  datatype Progress = Done | Failed | Looping

  /** ReadAll, watched for `calls` calls of `read`. It is done only with all the bytes it wants. One
      that is still looping after as many calls as it wants bytes has met the end of the stream,
      where every further `read` returns 0: it never ends. */
  method ReadAll(fd: Socket, count: nat, calls: nat) returns (p: Progress, buff: seq<Byte>)
    modifies fd`incoming
    ensures |buff| <= count && |buff| <= |old(fd.incoming)|
    ensures buff == old(fd.incoming)[..|buff|] && fd.incoming == old(fd.incoming)[|buff|..]
    ensures p.Done? <==> |buff| == count
    ensures p.Looping? && calls >= count ==> |old(fd.incoming)| < count
  {
    buff := [];
    var left, made := count, 0;
    while left > 0 && made < calls
      invariant 0 <= left && left + |buff| == count && 0 <= made <= calls
      invariant |buff| <= |old(fd.incoming)| && buff == old(fd.incoming)[..|buff|]
      invariant fd.incoming == old(fd.incoming)[|buff|..]
      invariant made <= |buff| || fd.incoming == []
      decreases calls - made
    {
      var bytes_read, got := fd.Read(left);
      if bytes_read < 0 {
        return Failed, buff;
      }
      buff := buff + got;
      left := left - bytes_read;
      made := made + 1;
    }
    p := if left == 0 then Done else Looping;
  }

  /** All of `buff` is written, or, when a `write` fails, only a proper prefix. */
  method WriteAll(fd: Socket, buff: seq<Byte>) returns (ok: bool, ghost written: nat)
    modifies fd`outgoing
    ensures written <= |buff| && fd.outgoing == old(fd.outgoing) + buff[..written]
    ensures ok <==> written == |buff|
  {
    var at := 0;
    written := 0;
    while at < |buff|
      invariant at == written <= |buff| && fd.outgoing == old(fd.outgoing) + buff[..at]
    {
      var bytes_written := fd.Write(buff[at..]);
      if bytes_written < 0 {
        return false, written;
      }
      assert buff[..at] + buff[at..][..bytes_written] == buff[..at + bytes_written];
      at := at + bytes_written;
      written := at;
    }
    ok := true;
  }

  /** The prefixes of two parts written one after the other. */
  lemma Prefixes(a: seq<Byte>, b: seq<Byte>, n: nat)
    requires n <= |a| + |b|
    ensures (a + b)[..n] == if n <= |a| then a[..n] else a + b[..n - |a|]
  {
  }

  lemma Appended(a: seq<Byte>, f: seq<Byte>, s: seq<Byte>)
    requires s == a + f && |f| >= 16
    ensures s[..|a|] == a && s[|a| + 8..|a| + 16] == f[8..16] && s[|a| + 16..] == f[16..]
  {
  }

  class NBDDriverProxy {
    const m_req_fd: Socket

    constructor (fd: Socket)
      ensures m_req_fd == fd
    {
      m_req_fd := fd;
    }

    /** The switch over the request type; a WRITE's payload is read here. */
    method FillData(h: Header, calls: nat) returns (r: Received)
      requires h.Good?
      modifies m_req_fd`incoming
      ensures r.Request? ==>
        r == ReceivedOf(h, old(m_req_fd.incoming)) && m_req_fd.incoming == UnreadOf(h, old(m_req_fd.incoming))
      ensures r.Request? ==>
        match r.data
        case Ranged(key, handle, status, offset, len, buff) =>
          && key == h.key && handle == h.handle && status == 0 && offset == h.offset && len == h.len
          && ((h.key == READ && buff == [] && m_req_fd.incoming == old(m_req_fd.incoming))
              || (h.key == WRITE && |buff| == h.len && old(m_req_fd.incoming) == buff + m_req_fd.incoming))
        case Plain(key, handle, status) =>
          && key == h.key && key != READ && key != WRITE && handle == h.handle && status == 0
          && m_req_fd.incoming == old(m_req_fd.incoming)
      ensures !r.InvalidMagic? && (!r.Request? ==> h.key == WRITE && h.len > 0)
      ensures r.Stalled? && calls >= h.len ==> ReceivedOf(h, old(m_req_fd.incoming)).Stalled?
    {
      assert m_req_fd.incoming[..0] == [] && m_req_fd.incoming[0..] == m_req_fd.incoming;
      if h.key == READ {
        r := Request(Ranged(READ, h.handle, 0, h.offset, h.len, []));
      } else if h.key == WRITE {
        var p, buff := ReadAll(m_req_fd, h.len, calls);
        r := match p
             case Done => Request(Ranged(WRITE, h.handle, 0, h.offset, h.len, buff))
             case Failed => ReadError
             case Looping => Stalled;
      } else {
        r := Request(Plain(h.key, h.handle, 0));
      }
    }

    /** One `read` into a zeroed struct; `n` is what it returned. */
    method ReadHeader() returns (n: int, h: Header)
      modifies m_req_fd`incoming
      ensures n < 0 ==> m_req_fd.incoming == old(m_req_fd.incoming)
      ensures n >= 0 ==> n <= REQUEST_SIZE && n <= |old(m_req_fd.incoming)|
      ensures n == 0 ==> old(m_req_fd.incoming) == []
      ensures n >= 0 ==> m_req_fd.incoming == old(m_req_fd.incoming)[n..]
      ensures n >= 0 ==> h == ParseHeader(Filled(old(m_req_fd.incoming)[..n]))
    {
      var got;
      n, got := m_req_fd.Read(REQUEST_SIZE);
      h := if n < 0 then BadMagic(0) else ParseHeader(Filled(got));
    }

    /** `n` is what the one `read` of the header returned; the reads of a payload are watched for
        `calls` calls. */
    method ReceiveRequest(calls: nat) returns (r: Received, n: int)
      modifies m_req_fd`incoming
      ensures n < 0 ==> r == ReadError && m_req_fd.incoming == old(m_req_fd.incoming)
      ensures n >= 0 ==> n <= REQUEST_SIZE && n <= |old(m_req_fd.incoming)| && (n == 0 ==> old(m_req_fd.incoming) == [])
      ensures n >= 0 && (r.Request? || r.InvalidMagic?) ==>
        r == ReceivedAs(old(m_req_fd.incoming), n) && m_req_fd.incoming == Unread(old(m_req_fd.incoming), n)
      ensures n >= 0 && (r.ReadError? || r.Stalled?) ==>
        var h := ParseHeader(Filled(old(m_req_fd.incoming)[..n]));
        && h.Good? && h.key == WRITE && h.len > 0
        && (r.Stalled? && calls >= h.len ==> ReceivedAs(old(m_req_fd.incoming), n).Stalled?)
    {
      var h;
      n, h := ReadHeader();
      if n < 0 {
        r := ReadError;
      } else if h.BadMagic? {
        r := InvalidMagic(h.magic);
      } else {
        r := FillData(h, calls);
      }
    }

    /** The two WriteAll calls, the second for a READ only. */
    method WriteParts(reply: seq<Byte>, key: Key, buff: seq<Byte>) returns (ok: bool, ghost written: nat)
      modifies m_req_fd`outgoing
      ensures var f := reply + if key == READ then buff else [];
        && written <= |f| && m_req_fd.outgoing == old(m_req_fd.outgoing) + f[..written]
        && (ok <==> written == |f|)
    {
      ok, written := WriteAll(m_req_fd, reply);
      Prefixes(reply, if key == READ then buff else [], written);
      if ok && key == READ {
        ghost var more;
        ok, more := WriteAll(m_req_fd, buff);
        Prefixes(reply, buff, |reply| + more);
        written := |reply| + more;
      }
    }

    /** The reply goes out whole, or, when a `write` fails, a proper prefix of it does. */
    method SendReply(data: Reply) returns (ok: bool, ghost written: nat)
      modifies m_req_fd`outgoing
      ensures written <= |Frame(data)| && m_req_fd.outgoing == old(m_req_fd.outgoing) + Frame(data)[..written]
      ensures ok <==> written == |Frame(data)|
      ensures ok ==>
        var before, after := old(m_req_fd.outgoing), m_req_fd.outgoing;
        && |after| == |before| + 16 + (if data.key == READ then |data.data| else 0)
        && after[..|before|] == before && after[|before| + 8..|before| + 16] == data.handle
        && (data.key == READ ==> after[|before| + 16..] == data.data)
    {
      FrameMeaning(data);
      ghost var before := m_req_fd.outgoing;
      var reply := ReplyHeader(data);
      ok, written := WriteParts(reply, data.key, data.data);
      if ok {
        Appended(before, Frame(data), m_req_fd.outgoing);
      }
    }
  }
}
