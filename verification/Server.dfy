/** The data handler shared by all sessions: the session map, the inbound packet queue, the frame builder. */
module Server {
  import opened Bytes
  import opened BufferPools
  import opened Framing
  import opened Options

  /** A session object, with the id it was created with. */
  datatype SessionPtr = SessionPtr(index: nat, sid: int)

  /** A packet shares the buffer of a message; connect and close notices have none. */
  datatype NetPacket = NetPacket(session: SessionPtr, msgid: nat, buffer: DataBuffer?)

  const CONNECTED: nat := 1
  const CLOSED: nat := 2

  class ServerBase {
    var sessions: map<int, SessionPtr>
    var msgQueue: seq<NetPacket>

    constructor ()
      ensures sessions == map[] && msgQueue == []
    {
      sessions, msgQueue := map[], [];
    }

    method OnConnect(session: SessionPtr)
      modifies this
      ensures sessions == old(sessions)[session.sid := session]
      ensures msgQueue == old(msgQueue) + [NetPacket(session, CONNECTED, null)]
    {
      sessions := sessions[session.sid := session];
      msgQueue := msgQueue + [NetPacket(session, CONNECTED, null)];
    }

    method OnClose(session: SessionPtr)
      modifies this
      ensures sessions == old(sessions) - {session.sid}
      ensures msgQueue == old(msgQueue) + [NetPacket(session, CLOSED, null)]
    {
      sessions := sessions - {session.sid};
      msgQueue := msgQueue + [NetPacket(session, CLOSED, null)];
    }

    /** The id is read at its fixed place in the buffer, also when the message ends before it. */
    method OnMessage(session: SessionPtr, buffer: DataBuffer)
      requires buffer.Valid() && HEADER_LENGTH <= buffer.allocSize && buffer.totalLength <= buffer.allocSize
      modifies this`msgQueue
      ensures msgQueue == old(msgQueue) + [NetPacket(session, ReadU32(buffer.buffer[4..8]), buffer)]
      ensures |buffer.Message()| >= HEADER_LENGTH ==>
        ReadU32(buffer.buffer[4..8]) == ParseFrame(buffer.Message()).msgid
    {
      var header := buffer.buffer[..8];
      assert header[4..] == buffer.buffer[4..8];
      assert buffer.totalLength >= HEADER_LENGTH ==>
        buffer.Message()[4..] == buffer.buffer[4..8] + buffer.Message()[8..];
      msgQueue := msgQueue + [NetPacket(session, ReadU32(header[4..]), buffer)];
    }

    method GetSession(sid: int) returns (r: Option<SessionPtr>)
      ensures r == if sid in sessions then Some(sessions[sid]) else None
    {
      if sid in sessions { return Some(sessions[sid]); }
      return None;
    }
  }

  /** The first half of send: the buffer whose message is the frame of (msgid, data). */
  method BuildFrame(pools: PoolManager, msgid: nat, data: array<Byte>, dataLen: nat) returns (buffer: DataBuffer)
    requires pools.Valid() && data !in pools.arrays
    requires dataLen <= data.Length && msgid < 0x1_0000_0000
    requires HEADER_LENGTH + dataLen < FRAME_LIMIT   // beyond it alloc yields no buffer
    modifies pools, pools.pools, pools.free, pools.arrays
    ensures pools.Valid() && buffer !in old(pools.live) && pools.live == old(pools.live) + {buffer}
    ensures pools.free == old(pools.free) - {buffer} && pools.arrays == old(pools.arrays) - {buffer.buffer}
    ensures pools.made == old(pools.made) + {buffer.buffer}
    ensures (fresh(buffer) && fresh(buffer.buffer)) || (buffer in old(pools.free) && buffer.buffer in old(pools.arrays))
    ensures buffer in pools.pools[PoolIndex(HEADER_LENGTH + dataLen)].live
    ensures buffer.Valid() && buffer.totalLength <= buffer.allocSize
    ensures buffer.Message() == EncodeFrame(Message(msgid, old(data[..dataLen])))
    ensures buffer.BodyLength() == dataLen && buffer.headerLength == HEADER_LENGTH
  {
    var totalLength := HEADER_LENGTH + dataLen;
    buffer := pools.Alloc(totalLength);
    FillFrame(buffer, msgid, data, dataLen);
  }

  /** Lengths, header and body are written into the buffer. */
  method FillFrame(buffer: DataBuffer, msgid: nat, data: array<Byte>, dataLen: nat)
    requires dataLen <= data.Length && msgid < 0x1_0000_0000 && HEADER_LENGTH + dataLen < FRAME_LIMIT
    requires buffer.Valid() && HEADER_LENGTH + dataLen <= buffer.allocSize && data != buffer.buffer
    modifies buffer, buffer.buffer
    ensures buffer.totalLength <= buffer.allocSize
    ensures buffer.Message() == EncodeFrame(Message(msgid, data[..dataLen]))
    ensures buffer.BodyLength() == dataLen && buffer.headerLength == HEADER_LENGTH
  {
    var headerLength := HEADER_LENGTH;
    var totalLength := headerLength + dataLen;
    buffer.SetTotalLength(totalLength);
    buffer.SetHeaderLength(headerLength);
    var lengthField, idField := WriteU32(totalLength), WriteU32(msgid);
    forall i | 0 <= i < 4 { buffer.buffer[i] := lengthField[i]; }
    forall i | 0 <= i < 4 { buffer.buffer[4 + i] := idField[i]; }
    var body := buffer.headerLength;
    forall i | 0 <= i < dataLen { buffer.buffer[body + i] := data[i]; }
    assert buffer.Message() == lengthField + idField + data[..dataLen];
  }
}
