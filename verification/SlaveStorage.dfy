/** src/mmap_storage.cpp and include/slave_tasks.hpp: the slave's byte array and the two tasks
    that touch it before they reply. */
module SlaveStorage {
  import opened Bytes
  import opened RequestCodec
  import opened ReplyCodec
  import SlaveDriverProxy

  /** A request for `len` bytes at `offset` lies inside a device of `size` bytes. */
  predicate InRange(offset: nat, len: nat, size: nat) {
    offset + len <= size
  }

  class MmapStorage {
    const m_mmap: array<Byte>

    constructor (file: seq<Byte>)
      ensures fresh(m_mmap) && m_mmap[..] == file
    {
      m_mmap := new Byte[|file|](i requires 0 <= i < |file| => file[i]);
    }

    method Write(offset: nat, len: nat, buff: seq<Byte>)
      requires InRange(offset, len, m_mmap.Length) && len <= |buff|
      modifies m_mmap
      ensures m_mmap[..] == Splice(old(m_mmap[..]), offset, buff[..len])
    {
      forall k | 0 <= k < len {
        m_mmap[offset + k] := buff[k];
      }
    }

    method Read(offset: nat, len: nat) returns (buff: seq<Byte>)
      requires InRange(offset, len, m_mmap.Length)
      ensures buff == m_mmap[..][offset..offset + len]
    {
      buff := m_mmap[offset..offset + len];
    }
  }

  /** Reading anywhere after a write: the written bytes inside its range, the old ones outside. */
  lemma ReadAfterWrite(disk: seq<Byte>, at: nat, data: seq<Byte>, offset: nat, len: nat)
    requires InRange(at, |data|, |disk|) && InRange(offset, len, |disk|)
    ensures var got := Splice(disk, at, data)[offset..offset + len];
            forall k :: 0 <= k < len ==>
              got[k] == if at <= offset + k < at + |data| then data[offset + k - at] else disk[offset + k]
  {
  }

  /** `SlaveWrite::Execute`: the array changes first, then the reply is printed. */
  method ExecuteWrite(storage: MmapStorage, req: SlaveRequest) returns (reply: array<Byte>)
    requires req.key == WRITE && req.len <= |req.buff|
    requires InRange(req.offset, req.len, storage.m_mmap.Length)
    requires ReplyFits(req.len, req.reqId, WRITE, req.buff)
    modifies storage.m_mmap
    ensures storage.m_mmap[..] == Splice(old(storage.m_mmap[..]), req.offset, req.buff[..req.len])
    ensures fresh(reply) && reply[..] == ReplyDatagram(req.len, req.reqId, WRITE, req.buff)
  {
    storage.Write(req.offset, req.len, req.buff);
    reply := SlaveDriverProxy.SendReply(req.len, req.reqId, req.key, req.buff);
  }

  /** `SlaveRead::Execute`. `beyond` is the memory behind the `len` bytes that `m_buff` reserved:
      nothing writes a NUL there, but `AddMessage` reads on until it meets one. */
  method ExecuteRead(storage: MmapStorage, req: SlaveRequest, beyond: seq<Byte>) returns (reply: array<Byte>)
    requires req.key == READ
    requires InRange(req.offset, req.len, storage.m_mmap.Length)
    requires ReplyFits(req.len, req.reqId, READ, storage.m_mmap[..][req.offset..req.offset + req.len] + beyond)
    ensures fresh(reply)
    ensures reply[..] == ReplyDatagram(req.len, req.reqId, READ,
                                       storage.m_mmap[..][req.offset..req.offset + req.len] + beyond)
  {
    var buff := storage.Read(req.offset, req.len);
    reply := SlaveDriverProxy.SendReply(req.len, req.reqId, req.key, buff + beyond);
  }
}
