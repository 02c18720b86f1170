/** A session object: its sending half, its receiving half, and closing. */
module TcpSessions {
  import opened Bytes
  import opened BufferStreams
  import opened BufferPools
  import opened Framing
  import opened Server
  import opened Options
  import opened TcpParsers
  import opened SendPump

  class TcpSession {
    const me: SessionPtr
    const handler: ServerBase
    const parser: TcpParser
    const recvBuffer: array<Byte>
    var open: bool
    var sendBuffer: Data
    var cacheBuffer: Data
    var sending: bool
    var writeMutex: Owner

    // what the context and the network hold for this session
    var flushes: nat
    var closes: nat
    var reading: nat
    var write: Write
    var written: Data
    var failed: bool

    // history, and where the threads are
    ghost var log: seq<Data>
    ghost var senders: map<nat, SenderPc>
    ghost var io: IoPc
    ghost var connected: bool

    /** The session as a state of the send pump. */
    ghost function View(): Pump
      reads this
    {
      Pump(open, connected, failed, writeMutex, sendBuffer, cacheBuffer, sending, write, written,
           flushes, closes, io, senders, log)
    }

    /** The receiving half: the parser's stream and the read buffer are no message buffers. */
    ghost predicate Ready()
      reads parser, parser.stream, parser.stream.data, parser.pools, parser.pools.pools, parser.pools.free
    {
      && parser.Valid() && parser.pools.Valid() && parser.Apart()
      && recvBuffer.Length == MAX_RECV_BUFFER_SIZE
      && recvBuffer != parser.stream.data && recvBuffer !in parser.pools.made
    }

    constructor (me: SessionPtr, handler: ServerBase, pools: PoolManager)
      requires pools.Valid()
      ensures View() == Init() && this.me == me && this.handler == handler && parser.pools == pools
      ensures Ready() && parser.received == [] && parser.stream.size == INITIAL_CAPACITY && reading == 0
      ensures fresh(parser) && fresh(parser.stream) && fresh(parser.stream.data) && fresh(recvBuffer)
    {
      this.me, this.handler := me, handler;
      recvBuffer := new Byte[MAX_RECV_BUFFER_SIZE];
      parser := new TcpParser(pools);
      open, sendBuffer, cacheBuffer, sending, writeMutex := false, [], [], false, Free;
      flushes, closes, reading, write, written, failed := 0, 0, 0, NoWrite, [], false;
      log, senders, io, connected := [], map[], Quiet, false;
    }

    /** The socket becomes connected, by an accept or a connect; nothing else happens, no flush in particular. */
    method Connected()
      modifies this`open, this`connected
      ensures View() == old(View()).(open := true, connected := true)
      ensures !old(connected) ==> View() == Step(old(View()), Open)
    {
      open := true;
      connected := true;
    }

    /** send by thread t, from the first step to the last. */
    method Send(t: nat, data: array<Byte>, length: nat)
      requires length <= data.Length && writeMutex.Free? && PcOf(View(), t).Idle?
      modifies this
      ensures View() == Sent(old(View()), t, data[..length])
      ensures sendBuffer == old(sendBuffer) + data[..length] && flushes == old(flushes) + 1
      ensures log == old(log) + [data[..length]] && written == old(written)
    {
      SendOnce(View(), t, data[..length]);
      AppendAndPost(t, data, length);
    }

    /** The append under the lock, and the post. */
    method AppendAndPost(t: nat, data: array<Byte>, length: nat)
      requires length <= data.Length && writeMutex.Free?
      modifies this
      ensures View() == AfterSend(old(View()), t, data[..length])
      ensures sendBuffer == old(sendBuffer) + data[..length] && flushes == old(flushes) + 1
      ensures log == old(log) + [data[..length]] && written == old(written)
    {
      writeMutex := HeldBySender(t);
      sendBuffer := sendBuffer + data[..length];
      log := log + [data[..length]];
      writeMutex := Free;
      flushes := flushes + 1;
      senders := senders[t := Idle];
    }

    /** do_send, uninterrupted. */
    method DoSend()
      requires io.Entering? && writeMutex.Free?
      modifies this
      ensures View() == Ios(old(View()), 5)
      ensures !open ==> View() == old(View()).(io := Quiet)
      ensures open ==> sendBuffer == old(cacheBuffer) && cacheBuffer == old(sendBuffer)
      ensures open ==>
        (if cacheBuffer == [] then !sending && write == old(write) else sending && write == InFlight(cacheBuffer))
      ensures written == old(written) && closes == old(closes) && flushes == old(flushes)
    {
      DoSendOnce(View());
      if !open { io := Quiet; return; }
      writeMutex := HeldByIo;
      sendBuffer, cacheBuffer := cacheBuffer, sendBuffer;
      writeMutex := Free;
      io := Quiet;
      if cacheBuffer == [] {
        sending := false;
        return;
      }
      sending := true;
      write := InFlight(cacheBuffer);
    }

    /** The handler that send posts. */
    method OnFlush()
      requires io.Quiet? && flushes > 0 && writeMutex.Free?
      modifies this
      ensures View() == Flushed(old(View()))
      ensures flushes == old(flushes) - 1 && written == old(written) && closes == old(closes)
      ensures old(sending) || !open ==>
        sendBuffer == old(sendBuffer) && cacheBuffer == old(cacheBuffer) && write == old(write)
          && sending == old(sending)
      ensures !old(sending) && open ==> sendBuffer == old(cacheBuffer) && cacheBuffer == old(sendBuffer)
      ensures !old(sending) && open && cacheBuffer != [] ==> sending && write == InFlight(cacheBuffer)
    {
      flushes := flushes - 1;
      if sending {
        QuietStays(View(), 5);
        return;
      }
      io := Entering;
      DoSend();
    }

    /** The completion handler of the outstanding write; ec tells how many bytes had gone out when it failed. */
    method OnWritten(ec: Option<nat>)
      requires io.Quiet? && write.InFlight? && writeMutex.Free?
      requires ec.Some? ==> ec.value <= |write.bytes|
      modifies this
      ensures View() == if ec.None? then Completed(old(View())) else Step(old(View()), WriteFailed(ec.value))
      ensures closes == old(closes) + if ec.Some? then 1 else 0
      ensures written == old(written) + old(if ec.Some? then write.bytes[..ec.value] else write.bytes)
    {
      if ec.None? {
        OnWriteDone();
      } else {
        OnWriteFailed(ec.value);
      }
    }

    /** The completion with an error after n bytes: the session is to be closed, and its buffers stay as they are. */
    method OnWriteFailed(n: nat)
      requires io.Quiet? && write.InFlight? && n <= |write.bytes|
      modifies this
      ensures View() == Step(old(View()), WriteFailed(n))
      ensures failed && closes == old(closes) + 1 && !sending && write.NoWrite?
      ensures written == old(written) + old(write.bytes)[..n]
      ensures cacheBuffer == old(cacheBuffer) && sendBuffer == old(sendBuffer)
    {
      MarkFailed(n);
      Close();
    }

    method MarkFailed(n: nat)
      requires io.Quiet? && write.InFlight? && n <= |write.bytes|
      modifies this`sending, this`written, this`write, this`failed
      ensures failed && !sending && write.NoWrite? && written == old(written) + old(write.bytes)[..n]
    {
      sending := false;
      written := written + write.bytes[..n];
      write := NoWrite;
      failed := true;
    }

    method ClearWritten()
      requires write.InFlight?
      modifies this
      ensures View() ==
              old(View().(sending := false, cacheBuffer := [], written := written + write.bytes, write := NoWrite))
    {
      sending := false;
      written := written + write.bytes;
      write := NoWrite;
      cacheBuffer := [];
    }

    /** The completion without an error: sends again what has arrived meanwhile. */
    method OnWriteDone()
      requires io.Quiet? && write.InFlight? && writeMutex.Free?
      modifies this
      ensures View() == Completed(old(View()))
      ensures written == old(written) + old(write.bytes) && closes == old(closes) && flushes == old(flushes)
      ensures old(sendBuffer) == [] || !open ==> !sending && write.NoWrite? && sendBuffer == old(sendBuffer)
      ensures old(sendBuffer) != [] && open ==> sending && write == InFlight(old(sendBuffer)) && sendBuffer == []
    {
      CompleteOnce(View());
      ClearWritten();
      writeMutex := HeldByIo;
      if sendBuffer == [] {
        writeMutex := Free;
        return;
      }
      writeMutex := Free;
      io := Entering;
      DoSend();
    }

    /** Posts the close handler. */
    method Close()
      modifies this`closes
      ensures closes == old(closes) + 1 && View() == Step(old(View()), PostClose)
    {
      closes := closes + 1;
    }

    /** The close handler: only the first one to run on an open socket reports to the data handler. */
    method OnClosePosted()
      requires io.Quiet? && closes > 0
      modifies this, handler
      ensures View() == Step(old(View()), RunClose)
      ensures !open && closes == old(closes) - 1
      ensures if old(open) then handler.sessions == old(handler.sessions) - {me.sid}
                             && handler.msgQueue == old(handler.msgQueue) + [NetPacket(me, CLOSED, null)]
              else handler.sessions == old(handler.sessions) && handler.msgQueue == old(handler.msgQueue)
    {
      closes := closes - 1;
      if !open { return; }
      open := false;
      handler.OnClose(me);
    }

    /** start: announces the session, then arms the first read. */
    method Start()
      modifies handler, this`reading
      ensures handler.sessions == old(handler.sessions)[me.sid := me]
      ensures handler.msgQueue == old(handler.msgQueue) + [NetPacket(me, CONNECTED, null)]
      ensures reading == old(reading) + 1
    {
      handler.OnConnect(me);
      DoRecv();
    }

    /** Arms a read. */
    method DoRecv()
      modifies this`reading
      ensures reading == old(reading) + 1
    {
      reading := reading + 1;
    }

    /** The completion handler of a failed read. */
    method OnReadFailed()
      requires reading > 0
      modifies this`closes, this`reading
      ensures closes == old(closes) + 1 && reading == old(reading) - 1
    {
      reading := reading - 1;
      Close();
    }

    /** The completion handler of a read of n bytes into recvBuffer: a failed decode posts a close; the next read is
        armed in any case. */
    method OnRead(n: nat) returns (ghost delivered: seq<seq<Byte>>)
      requires CanRead(n) && reading > 0
      modifies this`closes, this`reading, parser, parser.stream, parser.stream.data, handler
      modifies parser.pools, parser.pools.pools, parser.pools.free, parser.pools.arrays
      ensures Ready() && (parser.stream.data == old(parser.stream.data) || fresh(parser.stream.data))
      ensures parser.received == old(parser.received + recvBuffer[..n])
      ensures Decode(parser.received).frames == Decode(old(parser.received)).frames + delivered
      ensures parser.stream.size == GrownCapacity(old(parser.stream.size), old(parser.stream.write), n)
      ensures Delivered(me, delivered, old(handler.msgQueue), handler.msgQueue)
      ensures InUse(parser.pools, old(handler.msgQueue), handler.msgQueue) && handler.sessions == old(handler.sessions)
      ensures parser.pools.Grew()
      ensures closes == old(closes) + if Decode(parser.received).stop == Oversize then 1 else 0
      ensures reading == old(reading)
    {
      var code;
      code, delivered := DecodeRead(n);
      AfterDecode(code);
    }

    method DecodeRead(n: nat) returns (code: ParserCode, ghost delivered: seq<seq<Byte>>)
      requires CanRead(n)
      modifies parser, parser.stream, parser.stream.data, handler
      modifies parser.pools, parser.pools.pools, parser.pools.free, parser.pools.arrays
      ensures Ready() && (parser.stream.data == old(parser.stream.data) || fresh(parser.stream.data))
      ensures parser.received == old(parser.received + recvBuffer[..n])
      ensures Decode(parser.received).frames == Decode(old(parser.received)).frames + delivered
      ensures parser.stream.size == GrownCapacity(old(parser.stream.size), old(parser.stream.write), n)
      ensures Delivered(me, delivered, old(handler.msgQueue), handler.msgQueue)
      ensures InUse(parser.pools, old(handler.msgQueue), handler.msgQueue) && handler.sessions == old(handler.sessions)
      ensures parser.pools.Grew()
      ensures code == if Decode(parser.received).stop == Oversize then ParseError else ParseOk
    {
      code, delivered := parser.RecvAndDecode(me, handler, recvBuffer, n);
    }

    /** The bytes fit, and the decoder will not meet an empty frame. */
    ghost predicate CanRead(n: nat)
      reads parser, parser.stream, parser.stream.data, parser.pools, parser.pools.pools, parser.pools.free, recvBuffer
    {
      && Ready() && n <= recvBuffer.Length
      && parser.stream.write + n <= 2 * parser.stream.size
      && GrownCapacity(parser.stream.size, parser.stream.write, n) <= INT32_MAX
      && Decode(parser.received + recvBuffer[..n]).stop != ZeroLength
    }

    /** The same, after reads that have delivered the packets since before. */
    method OnNextRead(n: nat, ghost before: seq<NetPacket>)
      requires CanRead(n) && reading > 0
      requires Delivered(me, Decode(parser.received).frames, before, handler.msgQueue)
      requires InUse(parser.pools, before, handler.msgQueue)
      modifies this`closes, this`reading, parser, parser.stream, parser.stream.data, handler
      modifies parser.pools, parser.pools.pools, parser.pools.free, parser.pools.arrays
      ensures Ready() && (parser.stream.data == old(parser.stream.data) || fresh(parser.stream.data))
      ensures parser.received == old(parser.received + recvBuffer[..n])
      ensures parser.stream.size == GrownCapacity(old(parser.stream.size), old(parser.stream.write), n)
      ensures Delivered(me, Decode(parser.received).frames, before, handler.msgQueue)
      ensures InUse(parser.pools, before, handler.msgQueue)
      ensures parser.pools.Grew()
      ensures closes == old(closes) + if Decode(parser.received).stop == Oversize then 1 else 0
      ensures reading == old(reading)
    {
      ghost var done, queue := Decode(parser.received).frames, handler.msgQueue;
      ghost var delivered := OnRead(n);
      forall i | |before| <= i < |queue| ensures IsPacketOf(me, done[i - |before|], queue[i]) {
        assert old(IsPacketOf(me, done[i - |before|], queue[i]));
      }
      DeliveredConcat(me, done, delivered, before, queue, handler.msgQueue);
    }

    /** What the network has for the session is written to the read buffer. */
    method Fill(chunk: seq<Byte>, ghost done: seq<seq<Byte>>, ghost before: seq<NetPacket>)
      requires Ready() && |chunk| <= recvBuffer.Length
      requires Delivered(me, done, before, handler.msgQueue) && InUse(parser.pools, before, handler.msgQueue)
      modifies recvBuffer
      ensures Ready() && recvBuffer[..|chunk|] == chunk && Delivered(me, done, before, handler.msgQueue)
    {
      forall i | 0 <= i < |chunk| { recvBuffer[i] := chunk[i]; }
      forall i | |before| <= i < |handler.msgQueue| ensures IsPacketOf(me, done[i - |before|], handler.msgQueue[i]) {
        assert old(IsPacketOf(me, done[i - |before|], handler.msgQueue[i]));
      }
    }

    /** A session's reads, one after another, as the network cuts them: when they fit and no head is oversize or empty,
        the handler gets the packets of all frames, and the parser keeps the leftover and the capacity of the
        reference. */
    method OnReads(chunks: seq<seq<Byte>>)
      requires Ready() && reading > 0 && parser.received == [] && parser.stream.size == INITIAL_CAPACITY
      requires CapacityAfter(chunks).Some? && ModestHeads(chunks)
      requires forall c :: c in chunks ==> |c| <= MAX_RECV_BUFFER_SIZE
      modifies this`closes, this`reading, recvBuffer, parser, parser.stream, parser.stream.data, handler
      modifies parser.pools, parser.pools.pools, parser.pools.free, parser.pools.arrays
      ensures Ready() && parser.received == Flatten(chunks) && parser.stream.Contents() == FeedAll(chunks).rest
      ensures CapacityAfter(chunks) == Some(parser.stream.size)
      ensures Delivered(me, FeedAll(chunks).frames, old(handler.msgQueue), handler.msgQueue)
      ensures closes == old(closes) && reading == old(reading)
      ensures parser.stream.data == old(parser.stream.data) || fresh(parser.stream.data)
      ensures fresh(parser.pools.free - old(parser.pools.free)) && fresh(parser.pools.arrays - old(parser.pools.arrays))
      ensures fresh(parser.pools.made - old(parser.pools.made))
    {
      assert Decode([]).frames == [] && chunks[..0] == [];
      for i := 0 to |chunks|
        invariant Ready() && reading == old(reading) && closes == old(closes)
        invariant parser.stream.data == old(parser.stream.data) || fresh(parser.stream.data)
        invariant parser.received == Flatten(chunks[..i])
        invariant CapacityAfter(chunks[..i]) == Some(parser.stream.size)
        invariant Delivered(me, Decode(parser.received).frames, old(handler.msgQueue), handler.msgQueue)
        invariant InUse(parser.pools, old(handler.msgQueue), handler.msgQueue)
        invariant fresh(parser.pools.free - old(parser.pools.free))
        invariant fresh(parser.pools.arrays - old(parser.pools.arrays))
        invariant fresh(parser.pools.made - old(parser.pools.made))
      {
        FillAndRead(chunks, i, old(handler.msgQueue));
      }
      assert chunks[..|chunks|] == chunks;
      ModestNeverStuck(chunks, |chunks|);
    }

    /** The i-th of these reads. */
    method FillAndRead(chunks: seq<seq<Byte>>, i: nat, ghost before: seq<NetPacket>)
      requires Ready() && reading > 0 && i < |chunks| && CapacityAfter(chunks).Some? && ModestHeads(chunks)
      requires forall c :: c in chunks ==> |c| <= MAX_RECV_BUFFER_SIZE
      requires parser.received == Flatten(chunks[..i]) && CapacityAfter(chunks[..i]) == Some(parser.stream.size)
      requires Delivered(me, Decode(parser.received).frames, before, handler.msgQueue)
      requires InUse(parser.pools, before, handler.msgQueue)
      modifies this`closes, this`reading, recvBuffer, parser, parser.stream, parser.stream.data, handler
      modifies parser.pools, parser.pools.pools, parser.pools.free, parser.pools.arrays
      ensures Ready() && (parser.stream.data == old(parser.stream.data) || fresh(parser.stream.data))
      ensures parser.received == Flatten(chunks[..i + 1]) && CapacityAfter(chunks[..i + 1]) == Some(parser.stream.size)
      ensures Delivered(me, Decode(parser.received).frames, before, handler.msgQueue)
      ensures InUse(parser.pools, before, handler.msgQueue)
      ensures fresh(parser.pools.free - old(parser.pools.free)) && fresh(parser.pools.arrays - old(parser.pools.arrays))
      ensures fresh(parser.pools.made - old(parser.pools.made))
      ensures closes == old(closes) && reading == old(reading)
    {
      Fill(chunks[i], Decode(parser.received).frames, before);
      OnChunk(chunks, i, before);
    }

    /** Its completion handler. */
    method OnChunk(chunks: seq<seq<Byte>>, i: nat, ghost before: seq<NetPacket>)
      requires Ready() && reading > 0 && i < |chunks| && CapacityAfter(chunks).Some? && ModestHeads(chunks)
      requires forall c :: c in chunks ==> |c| <= MAX_RECV_BUFFER_SIZE
      requires parser.received == Flatten(chunks[..i]) && CapacityAfter(chunks[..i]) == Some(parser.stream.size)
      requires recvBuffer[..|chunks[i]|] == chunks[i]
      requires Delivered(me, Decode(parser.received).frames, before, handler.msgQueue)
      requires InUse(parser.pools, before, handler.msgQueue)
      modifies this`closes, this`reading, parser, parser.stream, parser.stream.data, handler
      modifies parser.pools, parser.pools.pools, parser.pools.free, parser.pools.arrays
      ensures Ready() && (parser.stream.data == old(parser.stream.data) || fresh(parser.stream.data))
      ensures parser.received == Flatten(chunks[..i + 1]) && CapacityAfter(chunks[..i + 1]) == Some(parser.stream.size)
      ensures Delivered(me, Decode(parser.received).frames, before, handler.msgQueue)
      ensures InUse(parser.pools, before, handler.msgQueue)
      ensures parser.pools.Grew()
      ensures closes == old(closes) && reading == old(reading)
    {
      NextRead(chunks, i);
      OnNextRead(|chunks[i]|, before);
    }

    /** This read is over, and the next one armed. */
    method AfterDecode(code: ParserCode)
      requires reading > 0
      modifies this`closes, this`reading
      ensures closes == old(closes) + if code == ParseClose || code == ParseError then 1 else 0
      ensures reading == old(reading)
    {
      reading := reading - 1;
      if code == ParseClose || code == ParseError {
        Close();
      }
      DoRecv();
    }
  }
}
