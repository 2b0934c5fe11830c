/** src/slave_gateway.cpp: a reply datagram becomes reply data once its id is swapped back for
    the handle. */
module SlaveGateway {
  import opened Bytes
  import opened Decimal
  import opened RequestCodec
  import opened ReplyCodec
  import opened HandleTable
  import CloudStorage

  datatype Outcome =
    | ReplyData(handler: Handle, len: nat, key: int, buff: seq<Byte>)
    | UnknownId  // perror() and exit(1)
    | LeavesBuffer

  /** `src` is the receive buffer, `heap` the old content of the reserved `m_buff`, `endNode` what
      the handle list's end node holds. The id is looked up and taken out of the table before the
      key and the string behind it are looked at. */
  method CreateDataFromBuff(storage: CloudStorage.CloudStorage, src: seq<Byte>, heap: seq<Byte>, endNode: int)
    returns (data: Outcome)
    requires storage.Valid()
    requires |src| == BUFF_SIZE && |heap| == BUFF_SIZE + 1
    modifies storage
    ensures storage.Valid() && storage.m_req_id == old(storage.m_req_id)
    ensures !NumbersStay(src) ==> data.LeavesBuffer? && storage.m_list == old(storage.m_list)
    ensures NumbersStay(src) ==> AsMap(storage.m_list) == old(AsMap(storage.m_list)) - {IdOf(src)}
    ensures data.UnknownId? <==> NumbersStay(src) && IdOf(src) !in old(AsMap(storage.m_list))
    ensures data.ReplyData? <==> ReplyParseable(src) && IdOf(src) in old(AsMap(storage.m_list))
    ensures data.ReplyData? ==> var r := ParseReply(src, heap);
                                data == ReplyData(old(AsMap(storage.m_list))[r.reqId], r.len, r.key, r.buff)
  {
    if !ScanStays(src) || !ScanStays(Scan(src).1[1..]) {
      return LeavesBuffer;
    }
    var len := ToUint32(Strtoul(src));
    var runner := Scan(src).1;
    var id := ToInt32(Strtol(runner[1..]));
    runner := Scan(runner[1..]).1;
    var stt, handler := storage.IdToHandler(id, endNode);
    if !stt {
      return UnknownId;
    }
    if |runner| < 2 {
      return LeavesBuffer;
    }
    var key := KeyOf(runner[1]);
    var buff := [];
    if READ == key {
      if |runner| < 4 || !Terminated(runner[4..]) {
        return LeavesBuffer;
      }
      buff := Strcpy(heap, runner[4..]);
    }
    data := ReplyData(handler, len, key, buff);
  }
}
