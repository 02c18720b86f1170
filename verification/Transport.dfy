/** From server_base::send on one side to the delivered packets on the other. */
module Transport {
  import opened Bytes
  import opened BufferPools
  import opened Framing
  import opened Server
  import opened TcpParsers
  import opened SendPump
  import opened TcpSessions

  /** server_base::send by thread t: builds the frame in a pooled buffer, passes its bytes to the session, and gives the
      buffer back. */
  method SendMessage(session: TcpSession, pools: PoolManager, t: nat, msgid: nat, data: array<Byte>, dataLen: nat)
    requires pools.Valid() && data !in pools.arrays
    requires dataLen <= data.Length && msgid < 0x1_0000_0000 && HEADER_LENGTH + dataLen < FRAME_LIMIT
    requires session.writeMutex.Free? && PcOf(session.View(), t).Idle?
    modifies session, pools, pools.pools, pools.free, pools.arrays
    ensures session.View() == Sent(old(session.View()), t, EncodeFrame(Message(msgid, old(data[..dataLen]))))
    ensures pools.Valid() && pools.live == old(pools.live)
    ensures fresh(pools.free - old(pools.free)) && fresh(pools.arrays - old(pools.arrays))
    ensures fresh(pools.made - old(pools.made))
  {
    ghost var frame := EncodeFrame(Message(msgid, data[..dataLen]));
    var buffer := BuildFrame(pools, msgid, data, dataLen);
    SendAndReturn(session, pools, t, buffer, PoolIndex(HEADER_LENGTH + dataLen), frame);
  }

  method SendAndReturn(session: TcpSession, pools: PoolManager, t: nat, buffer: DataBuffer, i: nat,
                       ghost frame: seq<Byte>)
    requires pools.Valid() && i < |pools.pools| && buffer in pools.pools[i].live
    requires buffer.Valid() && buffer.totalLength <= buffer.allocSize && buffer.Message() == frame
    requires session.writeMutex.Free? && PcOf(session.View(), t).Idle?
    modifies session, pools, pools.pools, buffer
    ensures session.View() == Sent(old(session.View()), t, frame)
    ensures pools.Valid() && pools.live == old(pools.live) - {buffer}
    ensures pools.free == old(pools.free) + {buffer} && pools.arrays == old(pools.arrays) + {buffer.buffer}
    ensures pools.made == old(pools.made)
  {
    session.Send(t, buffer.buffer, buffer.totalLength);
    pools.Return(buffer, i);
  }

  /** Every send of the run passes the frame of some message, as server_base::send does. */
  predicate SendsMessages(acts: seq<Action>) {
    forall i :: 0 <= i < |acts| && acts[i].Begin? ==> IsFrame(acts[i].data)
  }

  ghost predicate CarriesFrames(s: Pump) {
    && AllFrames(s.log)
    && forall t: nat :: PcOf(s, t).Waiting? || PcOf(s, t).Locked? ==> IsFrame(PcOf(s, t).data)
  }

  lemma StepCarriesFrames(s: Pump, a: Action)
    requires CarriesFrames(s) && (a.Begin? ==> IsFrame(a.data))
    ensures CarriesFrames(Step(s, a))
  {
    var s' := Step(s, a);
    if a.Append? && PcOf(s, a.t).Locked? {
      assert IsFrame(PcOf(s, a.t).data);
    }
    forall t: nat | PcOf(s', t).Waiting? || PcOf(s', t).Locked? ensures IsFrame(PcOf(s', t).data) {
      StepCarriesFrame(s, a, t);
    }
  }

  lemma StepCarriesFrame(s: Pump, a: Action, t: nat)
    requires CarriesFrames(s) && (a.Begin? ==> IsFrame(a.data))
    ensures var pc := PcOf(Step(s, a), t);
            pc.Waiting? || pc.Locked? ==> IsFrame(pc.data)
  {
    var pc := PcOf(s, t);
    assert pc.Waiting? || pc.Locked? ==> IsFrame(pc.data);
    DataStays(s, a, t);
  }

  /** What a sender carries it carried before, or has just been called with. */
  lemma DataStays(s: Pump, a: Action, t: nat)
    ensures var pc, pc' := PcOf(s, t), PcOf(Step(s, a), t);
            pc'.Waiting? || pc'.Locked? ==>
              (a.Begin? && pc'.data == a.data) || ((pc.Waiting? || pc.Locked?) && pc'.data == pc.data)
  {
    if !SenderAction(a) || a.t != t { assert PcOf(Step(s, a), t) == PcOf(s, t); }
  }

  lemma {:induction false} RunCarriesFrames(acts: seq<Action>)
    requires SendsMessages(acts)
    ensures CarriesFrames(Exec(Init(), acts))
    decreases |acts|
  {
    if acts != [] {
      RunCarriesFrames(acts[..|acts| - 1]);
      StepCarriesFrames(Exec(Init(), acts[..|acts| - 1]), acts[|acts| - 1]);
    }
  }

  /** The messages that a list of frames carries. */
  function Messages(frames: seq<seq<Byte>>): (ms: seq<Message>)
    requires AllFrames(frames)
    ensures |ms| == |frames|
    ensures forall i :: 0 <= i < |ms| ==> Sendable(ms[i]) && EncodeFrame(ms[i]) == frames[i]
    decreases |frames|
  {
    if frames == [] then []
    else
      ParseThenEncode(frames[|frames| - 1]);
      Messages(frames[..|frames| - 1]) + [ParseFrame(frames[|frames| - 1])]
  }

  lemma {:induction false} MessagesPrefix(frames: seq<seq<Byte>>, more: seq<seq<Byte>>)
    requires AllFrames(more) && frames <= more
    ensures AllFrames(frames) && Messages(frames) <= Messages(more)
    decreases |more|
  {
    assert forall f :: f in frames ==> f in more;
    if |frames| < |more| {
      MessagesPrefix(frames, more[..|more| - 1]);
    } else {
      assert frames == more;
    }
  }

  /** The packet is this message: its id, and what the buffer's own accessors show as its body. */
  ghost predicate IsMessage(session: SessionPtr, p: NetPacket, m: Message)
    reads Parts(p)
  {
    && p.session == session
    && p.buffer != null && p.buffer.Valid() && p.buffer.headerLength <= p.buffer.totalLength <= p.buffer.allocSize
    && p.msgid == m.msgid && p.buffer.Body() == m.body && p.buffer.BodyLength() == |m.body|
  }

  /** In the bytes that arrive: whatever the interleaving before a write error and however the received bytes are cut,
      the frames decoded are a prefix of the frames sent, in the order they were appended, and decoding is not stuck. */
  lemma EndToEnd(acts: seq<Action>, chunks: seq<seq<Byte>>)
    requires SendsMessages(acts) && !Exec(Init(), acts).failed
    requires Flatten(chunks) <= Exec(Init(), acts).written
    ensures var log, d := Exec(Init(), acts).log, FeedAll(chunks);
            && d.stop == Drained
            && AllFrames(log) && AllFrames(d.frames)
            && d.frames <= log && Messages(d.frames) <= Messages(log)
  {
    var s := Exec(Init(), acts);
    RunCarriesFrames(acts);
    PumpOrder(acts);
    ChunkingIrrelevant(chunks);
    DecodePrefix(s.log, Flatten(chunks));
    MessagesPrefix(FeedAll(chunks).frames, s.log);
  }

  /** And once nothing is under way at a sender that was not connected behind a flush, and all written bytes have
      arrived, they are all the frames sent. */
  lemma QuiescentDelivery(acts: seq<Action>, chunks: seq<seq<Byte>>)
    requires SendsMessages(acts) && Sighted(acts)
    requires Unattended(Exec(Init(), acts)) && Flatten(chunks) == Exec(Init(), acts).written
    ensures var log, d := Exec(Init(), acts).log, FeedAll(chunks);
            d == Decoded(log, [], Drained) && AllFrames(log)
  {
    RunCarriesFrames(acts);
    QuiescentMeansSent(acts);
    ChunkingIrrelevant(chunks);
    DecodeAllFrames(Exec(Init(), acts).log);
  }

  /** End to end: a session that reads what a peer has written, in any reads of at most 8192 bytes that fit, has queued
      a prefix of the messages sent, in the order they were appended, and all of them once nothing is under way at the
      peer and everything has arrived; it has no reason to close, and its stream stays within 131072 bytes. */
  method ReceiveFrom(session: TcpSession, ghost acts: seq<Action>, chunks: seq<seq<Byte>>)
    requires SendsMessages(acts) && !Exec(Init(), acts).failed && Flatten(chunks) <= Exec(Init(), acts).written
    requires session.Ready() && session.reading > 0
    requires session.parser.received == [] && session.parser.stream.size == INITIAL_CAPACITY
    requires CapacityAfter(chunks).Some? && forall c :: c in chunks ==> |c| <= MAX_RECV_BUFFER_SIZE
    modifies session`closes, session`reading, session.recvBuffer, session.handler
    modifies session.parser, session.parser.stream, session.parser.stream.data
    modifies session.parser.pools, session.parser.pools.pools, session.parser.pools.free, session.parser.pools.arrays
    ensures AllFrames(Exec(Init(), acts).log)
    ensures Receives(session.me, Messages(Exec(Init(), acts).log),
                     old(session.handler.msgQueue), session.handler.msgQueue)
    ensures Sighted(acts) && Unattended(Exec(Init(), acts)) && Flatten(chunks) == Exec(Init(), acts).written ==>
      |session.handler.msgQueue| == |old(session.handler.msgQueue)| + |Exec(Init(), acts).log|
    ensures session.closes == old(session.closes) && SmallCapacity(session.parser.stream.size)
    ensures session.Ready() && session.reading == old(session.reading)
    ensures var data := session.parser.stream.data; data == old(session.parser.stream.data) || fresh(data)
    ensures fresh(session.parser.pools.free - old(session.parser.pools.free))
    ensures fresh(session.parser.pools.arrays - old(session.parser.pools.arrays))
    ensures fresh(session.parser.pools.made - old(session.parser.pools.made))
  {
    EndToEnd(acts, chunks);
    EndToEndCapacity(acts, chunks);
    ModestStream(acts, chunks);
    if Sighted(acts) && Unattended(Exec(Init(), acts)) && Flatten(chunks) == Exec(Init(), acts).written {
      QuiescentDelivery(acts, chunks);
    }
    session.OnReads(chunks);
    FramesAreMessages(session.me, FeedAll(chunks).frames, Exec(Init(), acts).log,
                      old(session.handler.msgQueue), session.handler.msgQueue);
  }

  /** The queue has gained packets that are the first of these messages, in order. */
  ghost predicate Receives(session: SessionPtr, messages: seq<Message>, before: seq<NetPacket>, after: seq<NetPacket>)
    reads set p, o | p in after && o in Parts(p) :: o
  {
    && before <= after && |after| - |before| <= |messages|
    && forall i :: |before| <= i < |after| ==> IsMessage(session, after[i], messages[i - |before|])
  }

  lemma FramesAreMessages(session: SessionPtr, frames: seq<seq<Byte>>, log: seq<seq<Byte>>,
                          before: seq<NetPacket>, after: seq<NetPacket>)
    requires Delivered(session, frames, before, after) && AllFrames(log) && frames <= log
    ensures Receives(session, Messages(log), before, after)
  {
    forall i | |before| <= i < |after| ensures IsMessage(session, after[i], Messages(log)[i - |before|]) {
      var f, m := frames[i - |before|], Messages(log)[i - |before|];
      assert IsPacketOf(session, f, after[i]);
      assert f == EncodeFrame(m) && Sendable(m);
      EncodeThenParse(m);
    }
  }

  lemma ModestStream(acts: seq<Action>, chunks: seq<seq<Byte>>)
    requires SendsMessages(acts) && !Exec(Init(), acts).failed && Flatten(chunks) <= Exec(Init(), acts).written
    ensures ModestHeads(chunks)
  {
    RunCarriesFrames(acts);
    PumpOrder(acts);
    FramesHaveModestHeads(Exec(Init(), acts).log, chunks);
  }

  /** A peer that sends messages only keeps the receiver's buffer within 131072 bytes. */
  lemma EndToEndCapacity(acts: seq<Action>, chunks: seq<seq<Byte>>)
    requires SendsMessages(acts) && !Exec(Init(), acts).failed
    requires Flatten(chunks) <= Exec(Init(), acts).written
    requires forall c :: c in chunks ==> |c| <= MAX_RECV_BUFFER_SIZE
    requires CapacityAfter(chunks).Some?   // every append fitted
    ensures SmallCapacity(CapacityAfter(chunks).value)
  {
    ModestStream(acts, chunks);
    CapacityBounded(chunks);
  }

  lemma FramesHaveModestHeads(log: seq<seq<Byte>>, chunks: seq<seq<Byte>>)
    requires AllFrames(log) && Flatten(chunks) <= Flatten(log)
    ensures ModestHeads(chunks)
  {
    forall k | 0 <= k <= |chunks|
      ensures var rest := FeedAll(chunks[..k]).rest; |rest| >= 4 ==> 0 < ReadU32(rest) < FRAME_LIMIT
    {
      assert chunks == chunks[..k] + chunks[k..];
      FlattenConcat(chunks[..k], chunks[k..]);
      ChunkingIrrelevant(chunks[..k]);
      HeadIsFrame(log, Flatten(chunks[..k]));
    }
  }

  lemma HeadIsFrame(log: seq<seq<Byte>>, p: seq<Byte>)
    requires AllFrames(log) && p <= Flatten(log)
    ensures var rest := Decode(p).rest; |rest| >= 4 ==> 0 < ReadU32(rest) < FRAME_LIMIT
  {
    DecodePrefix(log, p);
    var rest := Decode(p).rest;
    if |rest| >= 4 {
      var f := log[|Decode(p).frames|];
      assert f == rest + f[|rest|..];
      ReadU32Prefix(rest, f[|rest|..]);
      assert f in log && IsFrame(f);
    }
  }
}
