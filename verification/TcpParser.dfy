/** The receiver: reassembles frames from arbitrary chunks and hands them to the data handler. */
module TcpParsers {
  import opened Bytes
  import opened BufferStreams
  import opened BufferPools
  import opened Framing
  import opened Server
  import opened Options

  const INITIAL_CAPACITY: nat := 2048
  const MAX_RECV_BUFFER_SIZE: nat := 8192

  datatype ParserCode = ParseOk | ParseWait | ParseClose | ParseError

  class TcpParser {
    const stream: BufferStream
    const pools: PoolManager
    ghost var received: seq<Byte>

    /** Between calls the stream holds what the reference decoder leaves over of all bytes received. */
    ghost predicate Valid()
      reads this, stream, stream.data
    {
      stream.Valid() && stream.read == 0 && stream.Contents() == Decode(received).rest
    }

    /** The stream's array is no message buffer. */
    ghost predicate Apart()
      reads stream, pools
    {
      stream.data !in pools.made
    }

    constructor (pools: PoolManager)
      ensures Valid() && fresh(stream) && fresh(stream.data) && this.pools == pools && Apart()
      ensures received == [] && stream.size == INITIAL_CAPACITY
    {
      stream := new BufferStream(INITIAL_CAPACITY);
      this.pools := pools;
      received := [];
    }

    method RecvAndDecode(session: SessionPtr, handler: ServerBase?, data: array<Byte>, length: nat)
      returns (code: ParserCode, ghost delivered: seq<seq<Byte>>)
      requires Valid() && pools.Valid() && Apart() && data != stream.data && length <= data.Length
      requires stream.write + length <= 2 * stream.size && GrownCapacity(stream.size, stream.write, length) <= INT32_MAX
      requires Decode(received + data[..length]).stop != ZeroLength   // exactly when the loop returns
      modifies this, stream, stream.data, handler, pools, pools.pools, pools.free, pools.arrays
      ensures Valid() && pools.Valid() && Apart() && (stream.data == old(stream.data) || fresh(stream.data))
      ensures received == old(received + data[..length])
      ensures Decode(received).frames == Decode(old(received)).frames + delivered
      ensures code == if Decode(received).stop == Oversize then ParseError else ParseOk
      ensures stream.size == GrownCapacity(old(stream.size), old(stream.write), length)
      ensures pools.Grew()
      ensures handler != null ==>
        && handler.sessions == old(handler.sessions)
        && Delivered(session, delivered, old(handler.msgQueue), handler.msgQueue)
        && InUse(pools, old(handler.msgQueue), handler.msgQueue)
    {
      ghost var chunk := data[..length];
      DecodeAppend(received, chunk);
      received := received + chunk;
      code, delivered := AcceptAndDecode(session, handler, data, length);
    }

    /** The same in terms of the stream. */
    method AcceptAndDecode(session: SessionPtr, handler: ServerBase?, data: array<Byte>, length: nat)
      returns (code: ParserCode, ghost delivered: seq<seq<Byte>>)
      requires stream.Valid() && stream.read == 0 && pools.Valid() && Apart()
      requires data != stream.data && length <= data.Length
      requires stream.write + length <= 2 * stream.size && GrownCapacity(stream.size, stream.write, length) <= INT32_MAX
      requires Decode(stream.Contents() + data[..length]).stop != ZeroLength
      modifies stream, stream.data, handler, pools, pools.pools, pools.free, pools.arrays
      ensures stream.Valid() && stream.read == 0 && (stream.data == old(stream.data) || fresh(stream.data))
      ensures stream.size == GrownCapacity(old(stream.size), old(stream.write), length)
      ensures var d := Decode(old(stream.Contents() + data[..length]));
              && delivered == d.frames && stream.Contents() == d.rest
              && code == if d.stop == Oversize then ParseError else ParseOk
      ensures pools.Valid() && Apart() && pools.Grew()
      ensures handler != null ==>
        && handler.sessions == old(handler.sessions)
        && Delivered(session, delivered, old(handler.msgQueue), handler.msgQueue)
        && InUse(pools, old(handler.msgQueue), handler.msgQueue)
    {
      Accept(data, length);
      code, delivered := DecodeLoop(session, handler);
    }

    method Accept(data: array<Byte>, length: nat)
      requires stream.Valid() && stream.read == 0 && Apart() && data != stream.data && length <= data.Length
      requires stream.write + length <= 2 * stream.size && GrownCapacity(stream.size, stream.write, length) <= INT32_MAX
      modifies stream, stream.data
      ensures stream.Valid() && stream.read == 0 && Apart() && (stream.data == old(stream.data) || fresh(stream.data))
      ensures stream.Contents() == old(stream.Contents() + data[..length])
      ensures stream.size == GrownCapacity(old(stream.size), old(stream.write), length)
    {
      var _ := stream.Append(data, length);
    }

    /** The loop: delivers complete frames until it needs more bytes or meets a frame that no buffer holds. */
    method DecodeLoop(session: SessionPtr, handler: ServerBase?)
      returns (code: ParserCode, ghost delivered: seq<seq<Byte>>)
      requires stream.Valid() && stream.read == 0 && Decode(stream.Contents()).stop != ZeroLength
      requires pools.Valid() && Apart()
      modifies stream, stream.data, handler, pools, pools.pools, pools.free, pools.arrays
      ensures stream.Valid() && stream.read == 0 && stream.data == old(stream.data) && stream.size == old(stream.size)
      ensures pools.Valid() && Apart() && old(pools.live) <= pools.live
      ensures fresh(pools.free - old(pools.free)) && fresh(pools.arrays - old(pools.arrays))
      ensures fresh(pools.made - old(pools.made))
      ensures var d := Decode(old(stream.Contents()));
              && delivered == d.frames && stream.Contents() == d.rest
              && code == if d.stop == Oversize then ParseError else ParseOk
      ensures handler != null ==>
        && handler.sessions == old(handler.sessions)
        && Delivered(session, delivered, old(handler.msgQueue), handler.msgQueue)
        && InUse(pools, old(handler.msgQueue), handler.msgQueue)
    {
      ghost var all := stream.Contents();
      ghost var before := if handler != null then handler.msgQueue else [];
      delivered := [];
      while stream.ReadableLength() >= 4
        invariant stream.Valid() && stream.read == 0
        invariant stream.data == old(stream.data) && stream.size == old(stream.size)
        invariant pools.Valid() && Apart() && old(pools.live) <= pools.live
        invariant fresh(pools.free - old(pools.free)) && fresh(pools.arrays - old(pools.arrays))
        invariant fresh(pools.made - old(pools.made))
        invariant Remaining(all, delivered, stream.Contents())
        invariant handler != null ==>
          && handler.sessions == old(handler.sessions)
          && Delivered(session, delivered, before, handler.msgQueue)
          && InUse(pools, before, handler.msgQueue)
        decreases stream.ReadableLength()
      {
        var stop;
        stop, delivered := DecodeOne(session, handler, all, delivered, before);
        if stop.Some? {
          return stop.value, delivered;
        }
      }
      StopsShort(all, delivered, stream.Contents());
      return ParseOk, delivered;
    }

    /** One trip of the loop: it returns, for want of bytes or of a buffer, or delivers the head frame. */
    method DecodeOne(session: SessionPtr, handler: ServerBase?,
                     ghost all: seq<Byte>, ghost done: seq<seq<Byte>>, ghost before: seq<NetPacket>)
      returns (stop: Option<ParserCode>, ghost delivered: seq<seq<Byte>>)
      requires stream.Valid() && stream.read == 0 && stream.ReadableLength() >= 4 && pools.Valid() && Apart()
      requires Remaining(all, done, stream.Contents()) && Decode(all).stop != ZeroLength
      requires handler != null ==>
        Delivered(session, done, before, handler.msgQueue) && InUse(pools, before, handler.msgQueue)
      modifies stream, stream.data, handler, pools, pools.pools, pools.free, pools.arrays
      ensures stream.Valid() && stream.read == 0 && stream.data == old(stream.data) && stream.size == old(stream.size)
      ensures pools.Valid() && Apart() && old(pools.live) <= pools.live
      ensures fresh(pools.free - old(pools.free)) && fresh(pools.arrays - old(pools.arrays))
      ensures fresh(pools.made - old(pools.made))
      ensures stop == None ==>
        Remaining(all, delivered, stream.Contents()) && |stream.Contents()| < |old(stream.Contents())|
      ensures stop.Some? ==>
        && (stop.value == ParseOk || stop.value == ParseError)
        && Decode(all) == Decoded(delivered, stream.Contents(), if stop.value == ParseError then Oversize else Drained)
      ensures handler != null ==>
        && handler.sessions == old(handler.sessions)
        && Delivered(session, delivered, before, handler.msgQueue) && InUse(pools, before, handler.msgQueue)
    {
      ghost var s := stream.Contents();
      delivered := done;
      var totalLen := stream.PeekU32();
      if stream.ReadableLength() < totalLen {
        StopsShort(all, done, s);
        return Some(ParseOk), done;
      }
      var ok := DeliverHead(session, handler, totalLen, done, before);
      if !ok {
        StopsOversize(all, done, s);
        return Some(ParseError), done;
      }
      NoZeroLength(all, done, s);
      RemainingStep(all, done, s, totalLen);
      return None, done + [s[..totalLen]];
    }

    /** One trip of the loop: a buffer for the head frame, which moves from the stream to the handler; without a handler
        the buffer goes back to its pool. No buffer that was in use is touched. */
    method DeliverHead(session: SessionPtr, handler: ServerBase?, totalLen: nat,
                       ghost delivered: seq<seq<Byte>>, ghost before: seq<NetPacket>) returns (ok: bool)
      requires stream.Valid() && stream.read == 0 && totalLen <= stream.ReadableLength()
      requires pools.Valid() && Apart()
      requires handler != null ==>
        Delivered(session, delivered, before, handler.msgQueue) && InUse(pools, before, handler.msgQueue)
      modifies stream, stream.data, handler, pools, pools.pools, pools.free, pools.arrays
      ensures stream.Valid() && stream.read == 0 && stream.data == old(stream.data) && stream.size == old(stream.size)
      ensures pools.Valid() && Apart() && old(pools.live) <= pools.live
      ensures fresh(pools.free - old(pools.free)) && fresh(pools.arrays - old(pools.arrays))
      ensures fresh(pools.made - old(pools.made))
      ensures ok <==> totalLen < FRAME_LIMIT
      ensures ok ==> stream.Contents() == old(stream.Contents()[totalLen..])
      ensures !ok ==> stream.Contents() == old(stream.Contents())
      ensures handler != null ==> handler.sessions == old(handler.sessions) && InUse(pools, before, handler.msgQueue)
      ensures handler != null && ok ==>
        Delivered(session, delivered + [old(stream.Contents()[..totalLen])], before, handler.msgQueue)
      ensures handler != null && !ok ==> Delivered(session, delivered, before, handler.msgQueue)
    {
      var buffer := HandOver(session, handler, totalLen, delivered, before);
      ok := buffer != null;
      if ok && handler == null {
        pools.Return(buffer, PoolIndex(totalLen));
      }
    }

    /** The head frame in a buffer of its own, shared with the handler if there is one; null if no pool has one. */
    method HandOver(session: SessionPtr, handler: ServerBase?, totalLen: nat,
                    ghost delivered: seq<seq<Byte>>, ghost before: seq<NetPacket>) returns (buffer: DataBuffer?)
      requires stream.Valid() && stream.read == 0 && totalLen <= stream.ReadableLength()
      requires pools.Valid() && Apart()
      requires handler != null ==>
        Delivered(session, delivered, before, handler.msgQueue) && InUse(pools, before, handler.msgQueue)
      modifies stream, stream.data, handler, pools, pools.pools, pools.free, pools.arrays
      ensures stream.Valid() && stream.read == 0 && stream.data == old(stream.data) && stream.size == old(stream.size)
      ensures pools.Valid() && Apart() && old(pools.live) <= pools.live
      ensures pools.free <= old(pools.free) && pools.arrays <= old(pools.arrays)
      ensures fresh(pools.made - old(pools.made))
      ensures buffer == null <==> totalLen >= FRAME_LIMIT
      ensures buffer == null ==> stream.Contents() == old(stream.Contents())
      ensures buffer != null ==>
        && stream.Contents() == old(stream.Contents()[totalLen..])
        && buffer !in old(pools.live) && pools.live == old(pools.live) + {buffer}
        && PoolIndex(totalLen) < |pools.pools| && buffer in pools.pools[PoolIndex(totalLen)].live
        && ((fresh(buffer) && fresh(buffer.buffer))
            || (buffer in old(pools.free) && buffer.buffer in old(pools.arrays)))
      ensures handler != null ==> handler.sessions == old(handler.sessions) && InUse(pools, before, handler.msgQueue)
      ensures handler != null && buffer != null ==>
        Delivered(session, delivered + [old(stream.Contents()[..totalLen])], before, handler.msgQueue)
      ensures handler != null && buffer == null ==> Delivered(session, delivered, before, handler.msgQueue)
    {
      buffer := AllocFor(session, handler, totalLen, delivered, before);
      if buffer != null {
        Deliver(session, handler, buffer, totalLen, delivered, before);
      }
    }

    /** A buffer that no packet delivered so far has. */
    method AllocFor(session: SessionPtr, handler: ServerBase?, totalLen: nat,
                    ghost delivered: seq<seq<Byte>>, ghost before: seq<NetPacket>) returns (buffer: DataBuffer?)
      requires pools.Valid() && Apart()
      requires handler != null ==>
        Delivered(session, delivered, before, handler.msgQueue) && InUse(pools, before, handler.msgQueue)
      modifies pools, pools.pools
      ensures pools.Valid() && Apart() && old(pools.live) <= pools.live
      ensures pools.free <= old(pools.free) && pools.arrays <= old(pools.arrays)
      ensures fresh(pools.made - old(pools.made))
      ensures buffer == null <==> totalLen >= FRAME_LIMIT
      ensures buffer != null ==>
        && buffer !in old(pools.live) && pools.live == old(pools.live) + {buffer}
        && buffer.Valid() && HEADER_LENGTH <= buffer.allocSize && totalLen <= buffer.allocSize
        && ((fresh(buffer) && fresh(buffer.buffer))
            || (buffer in old(pools.free) && buffer.buffer in old(pools.arrays)))
        && PoolIndex(totalLen) < |pools.pools| && buffer in pools.pools[PoolIndex(totalLen)].live
      ensures handler != null ==>
        && Delivered(session, delivered, before, handler.msgQueue) && InUse(pools, before, handler.msgQueue)
        && (buffer != null ==> Elsewhere(before, handler.msgQueue, buffer, stream.data))
    {
      buffer := pools.Alloc(totalLen);
      if handler != null {
        forall i | |before| <= i < |handler.msgQueue|
          ensures IsPacketOf(session, delivered[i - |before|], handler.msgQueue[i])
        {
          assert old(IsPacketOf(session, delivered[i - |before|], handler.msgQueue[i]));
        }
      }
    }

    /** The head frame moves into the buffer, and the buffer to the handler. */
    method Deliver(session: SessionPtr, handler: ServerBase?, buffer: DataBuffer, totalLen: nat,
                   ghost delivered: seq<seq<Byte>>, ghost before: seq<NetPacket>)
      requires stream.Valid() && stream.read == 0 && totalLen <= stream.ReadableLength()
      requires buffer.Valid() && HEADER_LENGTH <= buffer.allocSize && totalLen <= buffer.allocSize
      requires buffer in pools.live && pools.Valid() && Apart()
      requires handler != null ==>
        && Delivered(session, delivered, before, handler.msgQueue)
        && Elsewhere(before, handler.msgQueue, buffer, stream.data)
        && InUse(pools, before, handler.msgQueue)
      modifies stream, stream.data, handler, buffer, buffer.buffer
      ensures stream.Valid() && stream.read == 0 && stream.data == old(stream.data) && stream.size == old(stream.size)
      ensures stream.Contents() == old(stream.Contents()[totalLen..])
      ensures pools.Valid() && Apart()
      ensures handler != null ==>
        && handler.sessions == old(handler.sessions)
        && Delivered(session, delivered + [old(stream.Contents()[..totalLen])], before, handler.msgQueue)
        && InUse(pools, before, handler.msgQueue)
    {
      MoveHead(buffer, totalLen);
      if handler != null {
        ghost var frame := old(stream.Contents()[..totalLen]);
        handler.OnMessage(session, buffer);
        forall i | |before| <= i < |old(handler.msgQueue)|
          ensures IsPacketOf(session, delivered[i - |before|], handler.msgQueue[i])
        {
          assert old(IsPacketOf(session, delivered[i - |before|], handler.msgQueue[i]));
        }
      }
    }

    /** copy_from, offset_read and retrieve: the head frame leaves the stream for the buffer. */
    method MoveHead(buffer: DataBuffer, totalLen: nat)
      requires stream.Valid() && stream.read == 0 && totalLen <= stream.ReadableLength()
      requires buffer.Valid() && HEADER_LENGTH <= buffer.allocSize && totalLen <= buffer.allocSize
      requires buffer.buffer != stream.data
      modifies stream, stream.data, buffer, buffer.buffer
      ensures stream.Valid() && stream.read == 0 && stream.data == old(stream.data) && stream.size == old(stream.size)
      ensures stream.Contents() == old(stream.Contents()[totalLen..])
      ensures buffer.totalLength == totalLen && buffer.Message() == old(stream.Contents()[..totalLen])
      ensures buffer.headerLength == HEADER_LENGTH
    {
      buffer.SetHeaderLength(HEADER_LENGTH);
      var _ := buffer.CopyFrom(stream.data, stream.read, totalLen);
      assert buffer.Message() == old(stream.Contents()[..totalLen]);
      stream.OffsetRead(totalLen);
      stream.Retrieve();
    }
  }

  // ---------------------------------------------------------------- packets and their buffers

  ghost function Parts(p: NetPacket): set<object> {
    if p.buffer == null then {} else {p.buffer, p.buffer.buffer}
  }

  /** The packet's buffer holds this frame, with its body set off behind the header, and its id is the frame's. */
  ghost predicate IsPacketOf(session: SessionPtr, frame: seq<Byte>, p: NetPacket)
    reads Parts(p)
  {
    && p.session == session
    && p.buffer != null && p.buffer.Valid() && p.buffer.totalLength <= p.buffer.allocSize
    && p.buffer.Message() == frame && p.buffer.headerLength == HEADER_LENGTH
    && (|frame| >= HEADER_LENGTH ==> p.msgid == ParseFrame(frame).msgid)
  }

  /** The queue has gained one packet per frame, in order, with the frame's bytes and message id. */
  ghost predicate Delivered(session: SessionPtr, frames: seq<seq<Byte>>, before: seq<NetPacket>, after: seq<NetPacket>)
    reads set p, o | p in after && o in Parts(p) :: o
  {
    && |after| == |before| + |frames|
    && before <= after
    && forall i :: |before| <= i < |after| ==> IsPacketOf(session, frames[i - |before|], after[i])
  }

  lemma DeliveredConcat(session: SessionPtr, frames: seq<seq<Byte>>, more: seq<seq<Byte>>,
                        q0: seq<NetPacket>, q1: seq<NetPacket>, q2: seq<NetPacket>)
    requires Delivered(session, frames, q0, q1) && Delivered(session, more, q1, q2)
    ensures Delivered(session, frames + more, q0, q2)
  {
  }

  /** The buffers of the packets gained are in use. */
  ghost predicate InUse(pools: PoolManager, before: seq<NetPacket>, after: seq<NetPacket>)
    reads pools
  {
    before <= after && forall i :: |before| <= i < |after| ==> after[i].buffer in pools.live
  }

  /** The packets gained have other buffers than this one, and none of their arrays is this one's or data. */
  ghost predicate Elsewhere(before: seq<NetPacket>, after: seq<NetPacket>, buffer: DataBuffer, data: array<Byte>) {
    forall i :: |before| <= i < |after| && after[i].buffer != null ==>
      after[i].buffer != buffer && after[i].buffer.buffer != buffer.buffer && after[i].buffer.buffer != data
  }

  /** s is what is left of all after some frames were delivered. */
  ghost predicate Remaining(all: seq<Byte>, delivered: seq<seq<Byte>>, s: seq<Byte>) {
    Decode(all) == Decoded(delivered + Decode(s).frames, Decode(s).rest, Decode(s).stop)
  }

  lemma StopsShort(all: seq<Byte>, delivered: seq<seq<Byte>>, s: seq<Byte>)
    requires Remaining(all, delivered, s) && (|s| < 4 || |s| < ReadU32(s))
    ensures Decode(all) == Decoded(delivered, s, Drained)
  {
  }

  lemma StopsOversize(all: seq<Byte>, delivered: seq<seq<Byte>>, s: seq<Byte>)
    requires Remaining(all, delivered, s) && |s| >= 4 && |s| >= ReadU32(s) >= FRAME_LIMIT
    ensures Decode(all) == Decoded(delivered, s, Oversize)
  {
  }

  lemma NoZeroLength(all: seq<Byte>, delivered: seq<seq<Byte>>, s: seq<Byte>)
    requires Remaining(all, delivered, s) && |s| >= 4 && Decode(all).stop != ZeroLength
    ensures ReadU32(s) > 0
  {
  }

  lemma RemainingStep(all: seq<Byte>, delivered: seq<seq<Byte>>, s: seq<Byte>, n: nat)
    requires Remaining(all, delivered, s)
    requires |s| >= 4 && n == ReadU32(s) && 0 < n < FRAME_LIMIT && n <= |s|
    ensures Remaining(all, delivered + [s[..n]], s[n..])
  {
    DecodeFirst(s, n);
    assert delivered + ([s[..n]] + Decode(s[n..]).frames) == (delivered + [s[..n]]) + Decode(s[n..]).frames;
  }

  // ---------------------------------------------------------------- capacity over whole runs

  /** No head frame announces a length outside 1..65535 after any of the reads. */
  ghost predicate ModestHeads(chunks: seq<seq<Byte>>) {
    forall k :: 0 <= k <= |chunks| ==>
      var rest := FeedAll(chunks[..k]).rest;
      |rest| >= 4 ==> 0 < ReadU32(rest) < FRAME_LIMIT
  }

  /** The stream's capacity after the reads, or None once an append does not fit. */
  function CapacityAfter(chunks: seq<seq<Byte>>): Option<nat> {
    if chunks == [] then Some(INITIAL_CAPACITY)
    else
      var prefix, n := chunks[..|chunks| - 1], |chunks[|chunks| - 1]|;
      var write := |FeedAll(prefix).rest|;
      match CapacityAfter(prefix)
      case Some(size) =>
        if write <= size && write + n <= GrownCapacity(size, write, n)
          then Some(GrownCapacity(size, write, n)) else None
      case None => None
  }

  lemma {:induction false} RestIsShort(s: seq<Byte>)
    ensures Decode(s).stop == Drained ==> |Decode(s).rest| < 4 || |Decode(s).rest| < ReadU32(Decode(s).rest)
    ensures Decode(s).stop == Oversize ==> |Decode(s).rest| >= 4 && ReadU32(Decode(s).rest) >= FRAME_LIMIT
    ensures Decode(s).stop == ZeroLength ==> |Decode(s).rest| >= 4 && ReadU32(Decode(s).rest) == 0
    decreases |s|
  {
    if Decode(s).frames != [] {
      RestIsShort(s[ReadU32(s)..]);
    }
  }

  /** A condition to check in advance: reads no longer than the initial capacity always fit. */
  lemma {:induction false} SmallReadsFit(chunks: seq<seq<Byte>>)
    requires forall c :: c in chunks ==> |c| <= INITIAL_CAPACITY
    ensures CapacityAfter(chunks).Some? && CapacityAfter(chunks).value >= INITIAL_CAPACITY
    ensures |FeedAll(chunks).rest| <= CapacityAfter(chunks).value
    decreases |chunks|
  {
    if chunks != [] {
      var prefix, chunk := chunks[..|chunks| - 1], chunks[|chunks| - 1];
      SmallReadsFit(prefix);
      AppendBound(CapacityAfter(prefix).value, |FeedAll(prefix).rest|, |chunk|);
      LeftoverFits(FeedAll(prefix).rest + chunk);
    }
  }

  lemma {:induction false} LeftoverFits(s: seq<Byte>)
    ensures |Decode(s).rest| <= |s|
    decreases |s|
  {
    if Decode(s).frames != [] { LeftoverFits(s[ReadU32(s)..]); }
  }

  /** Whether the k-th read fits, and what capacity it leaves, when all reads do fit. */
  lemma {:induction false} FitsUpTo(chunks: seq<seq<Byte>>, k: nat)
    requires k < |chunks| && CapacityAfter(chunks).Some?
    ensures var write, n := |FeedAll(chunks[..k]).rest|, |chunks[k]|;
            && CapacityAfter(chunks[..k]).Some? && CapacityAfter(chunks[..k + 1]).Some?
            && var size := CapacityAfter(chunks[..k]).value;
               && write <= size && write + n <= 2 * size
               && CapacityAfter(chunks[..k + 1]) == Some(GrownCapacity(size, write, n))
    decreases |chunks|
  {
    var prefix := chunks[..|chunks| - 1];
    if k < |prefix| {
      FitsUpTo(prefix, k);
      assert prefix[..k] == chunks[..k] && prefix[..k + 1] == chunks[..k + 1];
    } else {
      assert chunks[..k + 1] == chunks;
    }
  }

  /** Modest heads rule out both ways to get stuck. */
  lemma ModestNeverStuck(chunks: seq<seq<Byte>>, k: nat)
    requires ModestHeads(chunks) && k <= |chunks|
    ensures Decode(Flatten(chunks[..k])).stop == Drained && FeedAll(chunks[..k]) == Decode(Flatten(chunks[..k]))
  {
    ChunkingIrrelevant(chunks[..k]);
    RestIsShort(Flatten(chunks[..k]));
  }

  lemma RestBounded(chunks: seq<seq<Byte>>)
    requires ModestHeads(chunks)
    ensures |FeedAll(chunks).rest| < FRAME_LIMIT
  {
    assert chunks[..|chunks|] == chunks;
    ChunkingIrrelevant(chunks);
    RestIsShort(Flatten(chunks));
  }

  /** The initial capacity, doubled at most six times. */
  predicate SmallCapacity(size: nat) {
    size == 2048 || size == 4096 || size == 8192 || size == 16384 || size == 32768 || size == 65536 || size == 131072
  }

  /** With announced lengths in 1..65535 and reads of at most 8192 bytes the capacity stays within 131072. */
  lemma {:induction false} CapacityBounded(chunks: seq<seq<Byte>>)
    requires CapacityAfter(chunks).Some? && ModestHeads(chunks)
    requires forall c :: c in chunks ==> |c| <= MAX_RECV_BUFFER_SIZE
    ensures SmallCapacity(CapacityAfter(chunks).value)
    decreases |chunks|
  {
    if chunks != [] {
      var prefix := chunks[..|chunks| - 1];
      assert forall k :: 0 <= k <= |prefix| ==> prefix[..k] == chunks[..k];
      CapacityBounded(prefix);
      RestBounded(prefix);
    }
  }

  lemma ModestBefore(chunks: seq<seq<Byte>>, i: nat)
    requires ModestHeads(chunks) && i <= |chunks|
    ensures ModestHeads(chunks[..i])
  {
    assert forall k :: 0 <= k <= i ==> chunks[..i][..k] == chunks[..k];
  }

  lemma SmallBefore(chunks: seq<seq<Byte>>, i: nat)
    requires i <= |chunks| && CapacityAfter(chunks[..i]).Some? && ModestHeads(chunks)
    requires forall c :: c in chunks ==> |c| <= MAX_RECV_BUFFER_SIZE
    ensures SmallCapacity(CapacityAfter(chunks[..i]).value)
  {
    ModestBefore(chunks, i);
    CapacityBounded(chunks[..i]);
  }

  lemma FlattenNext(chunks: seq<seq<Byte>>, i: nat)
    requires i < |chunks|
    ensures Flatten(chunks[..i + 1]) == Flatten(chunks[..i]) + chunks[i]
  {
    assert chunks[..i + 1] == chunks[..i] + [chunks[i]];
    FlattenSnoc(chunks[..i], chunks[i]);
  }

  /** The i-th of reads that all fit: what it adds, and that it fits and does not get the parser stuck. */
  lemma NextRead(chunks: seq<seq<Byte>>, i: nat)
    requires i < |chunks| && CapacityAfter(chunks).Some? && ModestHeads(chunks)
    requires forall c :: c in chunks ==> |c| <= MAX_RECV_BUFFER_SIZE
    ensures Flatten(chunks[..i + 1]) == Flatten(chunks[..i]) + chunks[i]
    ensures Decode(Flatten(chunks[..i + 1])).stop == Drained
    ensures CapacityAfter(chunks[..i]).Some? && SmallCapacity(CapacityAfter(chunks[..i]).value)
    ensures var size, write, n := CapacityAfter(chunks[..i]).value, |Decode(Flatten(chunks[..i])).rest|, |chunks[i]|;
            && write <= size && write + n <= 2 * size
            && CapacityAfter(chunks[..i + 1]) == Some(GrownCapacity(size, write, n))
  {
    FlattenNext(chunks, i);
    FitsUpTo(chunks, i);
    SmallBefore(chunks, i);
    ModestNeverStuck(chunks, i);
    ModestNeverStuck(chunks, i + 1);
  }
}
