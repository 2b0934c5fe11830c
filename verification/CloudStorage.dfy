/** src/cloud_storage.cpp: the table that parks the 8-byte NBD handles under fresh integer ids. */
module HandleTable {
  import opened Bytes

  const HANDLE_SIZE: nat := 8

  type Handle = h: seq<Byte> | |h| == HANDLE_SIZE witness Zeros(HANDLE_SIZE)

  datatype Entry = Entry(id: int, handle: Handle)

  /** Newest first: ids strictly decrease along the list and lie in 1..`last`. */
  predicate Ordered(list: seq<Entry>, last: int) {
    && (forall i :: 0 <= i < |list| ==> 1 <= list[i].id <= last)
    && (forall i, j :: 0 <= i < j < |list| ==> list[i].id > list[j].id)
  }

  /** Position of the first entry with `id`, or `|list|`. */
  function Find(list: seq<Entry>, id: int): (i: nat)
    ensures i <= |list|
    ensures i < |list| ==> list[i].id == id
    ensures forall k :: 0 <= k < i ==> list[k].id != id
  {
    if list == [] || list[0].id == id then 0 else 1 + Find(list[1..], id)
  }

  function Without(list: seq<Entry>, i: nat): seq<Entry>
    requires i < |list|
  {
    list[..i] + list[i + 1..]
  }

  /** The finite map the list stands for. */
  function AsMap(list: seq<Entry>): map<int, Handle> {
    if list == [] then map[] else AsMap(list[1..])[list[0].id := list[0].handle]
  }

  /** Looking an id up in the list is looking it up in the map. */
  lemma {:induction false} FindRefinesMap(list: seq<Entry>, id: int)
    ensures Find(list, id) < |list| <==> id in AsMap(list)
    ensures id in AsMap(list) ==> list[Find(list, id)].handle == AsMap(list)[id]
  {
    if list != [] && list[0].id != id {
      FindRefinesMap(list[1..], id);
    }
  }

  lemma UpdateThenRemove<K, V>(m: map<K, V>, k: K, v: V, x: K)
    ensures k != x ==> (m - {x})[k := v] == m[k := v] - {x}
    ensures k == x && x !in m ==> m[k := v] - {x} == m
  {
  }

  /** Removing an entry from an ordered list removes its id, and only its id, from the map. */
  lemma {:induction false} RemoveRefinesMap(list: seq<Entry>, last: int, i: nat)
    requires Ordered(list, last) && i < |list|
    ensures AsMap(Without(list, i)) == AsMap(list) - {list[i].id}
  {
    var rest, id := list[1..], list[i].id;
    if i == 0 {
      assert Without(list, 0) == rest;
      assert forall k :: 0 <= k < |rest| ==> rest[k] == list[k + 1];
      FindRefinesMap(rest, id);
      UpdateThenRemove(AsMap(rest), id, list[0].handle, id);
    } else {
      assert Without(list, i) == [list[0]] + Without(rest, i - 1);
      assert Without(list, i)[1..] == Without(rest, i - 1);
      RemoveRefinesMap(rest, last, i - 1);
      UpdateThenRemove(AsMap(rest), list[0].id, list[0].handle, id);
    }
  }

  /** ... and the list stays ordered. */
  lemma RemoveKeepsOrder(list: seq<Entry>, last: int, i: nat)
    requires Ordered(list, last) && i < |list|
    ensures Ordered(Without(list, i), last)
  {
    var w := Without(list, i);
    assert forall k :: 0 <= k < |w| ==> w[k] == if k < i then list[k] else list[k + 1];
  }

  /** Parking a handle under the next id adds exactly that id to the map. */
  lemma PushRefinesMap(list: seq<Entry>, last: int, handle: Handle)
    requires Ordered(list, last) && last >= 0
    ensures Ordered([Entry(last + 1, handle)] + list, last + 1)
    ensures last + 1 !in AsMap(list)
    ensures AsMap([Entry(last + 1, handle)] + list) == AsMap(list)[last + 1 := handle]
  {
    assert ([Entry(last + 1, handle)] + list)[1..] == list;
    FindRefinesMap(list, last + 1);
  }
}

module CloudStorage {
  import opened Bytes
  import opened Decimal
  import opened RequestCodec
  import opened HandleTable

  /** `sprintf(buf, ...)`: `text` and a NUL at the front of the buffer. */
  method Sprintf(buf: array<Byte>, text: seq<Byte>)
    requires |text| < buf.Length
    modifies buf
    ensures buf[..] == text + [NUL] + old(buf[|text| + 1..])
  {
    forall k | 0 <= k < |text| {
      buf[k] := text[k];
    }
    buf[|text|] := NUL;
  }

  /** `memcpy(buf + at, src, |src|)`. */
  method Memcpy(buf: array<Byte>, at: nat, src: seq<Byte>)
    requires at + |src| <= buf.Length
    modifies buf
    ensures buf[..] == Splice(old(buf[..]), at, src)
  {
    forall k | 0 <= k < |src| {
      buf[at + k] := src[k];
    }
  }

  class CloudStorage {
    var m_list: seq<Entry>
    var m_req_id: int

    ghost predicate Valid()
      reads this
    {
      0 <= m_req_id < TWO_31 && Ordered(m_list, m_req_id)
    }

    constructor ()
      ensures Valid() && m_list == [] && m_req_id == 0
    {
      m_list := [];
      m_req_id := 0;
    }

    method HandlerToId(handler: Handle) returns (ret: int)
      requires Valid() && m_req_id < TWO_31 - 1
      modifies this
      ensures Valid()
      ensures ret == m_req_id == old(m_req_id) + 1
      ensures m_list == [Entry(ret, handler)] + old(m_list)
      ensures ret !in AsMap(old(m_list)) && AsMap(m_list) == AsMap(old(m_list))[ret := handler]
    {
      PushRefinesMap(m_list, m_req_id, handler);
      m_req_id := m_req_id + 1;
      ret := m_req_id;
      m_list := [Entry(m_req_id, handler)] + m_list;
    }

    /** The loop looks at the entry before it tests for the end of the list: `endNode` is whatever it
        finds in place of an id there. The result does not depend on it. */
    method IdToHandler(reqId: int, endNode: int) returns (found: bool, ret: Handle)
      requires Valid()
      modifies this
      ensures Valid() && m_req_id == old(m_req_id)
      ensures found <==> reqId in AsMap(old(m_list))
      ensures found ==> ret == AsMap(old(m_list))[reqId]
      ensures AsMap(m_list) == AsMap(old(m_list)) - {reqId}
      ensures m_list == if Find(old(m_list), reqId) < |old(m_list)|
                        then Without(old(m_list), Find(old(m_list), reqId)) else old(m_list)
    {
      ret := Zeros(HANDLE_SIZE);
      FindRefinesMap(m_list, reqId);
      var iter := 0;
      while reqId != (if iter < |m_list| then m_list[iter].id else endNode) && iter != |m_list|
        invariant iter <= |m_list|
        invariant forall k :: 0 <= k < iter ==> m_list[k].id != reqId
        decreases |m_list| - iter
      {
        iter := iter + 1;
      }
      if iter == |m_list| {
        assert AsMap(m_list) - {reqId} == AsMap(m_list);
        return false, ret;
      }
      assert iter == Find(m_list, reqId);
      ret := m_list[iter].handle;
      RemoveRefinesMap(m_list, m_req_id, iter);
      RemoveKeepsOrder(m_list, m_req_id, iter);
      m_list := Without(m_list, iter);
      found := true;
    }

    /** `buff` is `data->m_buff`, of `len` bytes. */
    method Write(offset: nat, len: nat, handler: Handle, buff: seq<Byte>) returns (buf: array<Byte>)
      requires Valid() && m_req_id < TWO_31 - 1
      requires |buff| == len && Fits(offset, len, m_req_id + 1, len)
      modifies this
      ensures Valid() && m_req_id == old(m_req_id) + 1
      ensures m_list == [Entry(m_req_id, handler)] + old(m_list)
      ensures fresh(buf) && buf[..] == Datagram(offset, len, m_req_id, KeyChar(WRITE), buff)
    {
      buf := new Byte[BUFF_SIZE](_ => NUL);
      var id := HandlerToId(handler);
      ghost var h := Header(offset, len, id, KeyChar(WRITE));
      Sprintf(buf, Header(offset, len, id, KeyChar(WRITE)));
      HeaderHasNoNul(offset, len, id, KeyChar(WRITE));
      var runner := 0;
      while buf[runner] != NUL
        invariant runner <= |h| < buf.Length
        decreases |h| - runner
      {
        runner := runner + 1;
      }
      assert runner == |h|;
      Memcpy(buf, runner + 1, buff);
    }

    method Read(offset: nat, len: nat, handler: Handle) returns (buf: array<Byte>)
      requires Valid() && m_req_id < TWO_31 - 1
      requires Fits(offset, len, m_req_id + 1, 0)
      modifies this
      ensures Valid() && m_req_id == old(m_req_id) + 1
      ensures m_list == [Entry(m_req_id, handler)] + old(m_list)
      ensures fresh(buf) && buf[..] == Datagram(offset, len, m_req_id, KeyChar(READ), [])
    {
      buf := new Byte[BUFF_SIZE](_ => NUL);
      var id := HandlerToId(handler);
      Sprintf(buf, Header(offset, len, id, KeyChar(READ)));
    }
  }

  lemma HeaderHasNoNul(offset: nat, len: nat, id: int, key: Byte)
    requires key != NUL
    ensures forall k :: 0 <= k < |Header(offset, len, id, key)| ==> Header(offset, len, id, key)[k] != NUL
  {
    assert forall k :: 0 <= k < |PrintInt(offset)| ==> PrintInt(offset)[k] != NUL;
    assert forall k :: 0 <= k < |PrintInt(len)| ==> PrintInt(len)[k] != NUL;
  }

  lemma DisconnectHeader()
    ensures Header(0, 0, 0, KeyChar(DISCONNECT)) == [48, 59, 48, 59, 48, 59, 50, 59]  // "0;0;0;2;"
  {
    assert Print(0) == [48];
  }

  /** The literal that `Disconnect` copies is a printed header, so the slave reads it back as
      a DISCONNECT. */
  lemma DisconnectIsPrinted(heap: seq<Byte>)
    requires |heap| == BUFF_SIZE + 1
    ensures Header(0, 0, 0, KeyChar(DISCONNECT)) == [48, 59, 48, 59, 48, 59, 50, 59]  // "0;0;0;2;"
    ensures Fits(0, 0, 0, 0)
    ensures var s := Received(Datagram(0, 0, 0, KeyChar(DISCONNECT), []));
            Parseable(s) && Parse(s, heap).key == DISCONNECT
  {
    DisconnectHeader();
    HeaderLength(0, 0, 0, DIGIT_0);
    RequestRoundTrip(0, 0, 0, DISCONNECT, [], heap);
  }
}
