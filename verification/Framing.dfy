/** Length-prefixed messages: the packed header, a reference decoder, and what chunking does to it. */
module Framing {
  import opened Bytes

  const HEADER_LENGTH: nat := 8
  const FRAME_LIMIT: nat := 65536

  datatype Message = Message(msgid: nat, body: seq<Byte>)

  predicate Sendable(m: Message) {
    m.msgid < 0x1_0000_0000 && HEADER_LENGTH + |m.body| < FRAME_LIMIT
  }

  predicate IsFrame(f: seq<Byte>) {
    HEADER_LENGTH <= |f| < FRAME_LIMIT && ReadU32(f) == |f|
  }

  function EncodeFrame(m: Message): seq<Byte>
    requires Sendable(m)
  {
    WriteU32(HEADER_LENGTH + |m.body|) + WriteU32(m.msgid) + m.body
  }

  function ParseFrame(f: seq<Byte>): Message
    requires |f| >= HEADER_LENGTH
  {
    Message(ReadU32(f[4..]), f[HEADER_LENGTH..])
  }

  lemma ReadU32Prefix(s: seq<Byte>, t: seq<Byte>)
    requires |s| >= 4
    ensures ReadU32(s + t) == ReadU32(s)
  {
  }

  /** A sendable message survives framing, and the frame announces its own length. */
  lemma EncodeThenParse(m: Message)
    requires Sendable(m)
    ensures IsFrame(EncodeFrame(m)) && ParseFrame(EncodeFrame(m)) == m
  {
    var f := EncodeFrame(m);
    var len, id := WriteU32(HEADER_LENGTH + |m.body|), WriteU32(m.msgid);
    assert f == len + (id + m.body) && f[4..] == id + m.body;
    ReadU32Prefix(len, id + m.body);
    ReadU32Prefix(id, m.body);
    WriteThenRead(HEADER_LENGTH + |m.body|);
    WriteThenRead(m.msgid);
  }

  /** Every well-formed frame is the frame of the message read out of it. */
  lemma ParseThenEncode(f: seq<Byte>)
    requires IsFrame(f)
    ensures Sendable(ParseFrame(f)) && EncodeFrame(ParseFrame(f)) == f
  {
    ReadThenWrite(f[..4]);
    ReadThenWrite(f[4..8]);
    assert f == f[..4] + f[4..8] + f[8..];
  }

  /** buffer is one that holds the message m at its start. */
  predicate HoldsMessage(buffer: seq<Byte>, m: seq<Byte>) {
    |buffer| >= HEADER_LENGTH && m <= buffer
  }

  /** The id read out of a buffer is determined by the message in it if and only if the message has a whole header. */
  lemma IdDeterminedExactly(m: seq<Byte>)
    ensures (forall b: seq<Byte>, c: seq<Byte> ::
               HoldsMessage(b, m) && HoldsMessage(c, m) ==> ReadU32(b[4..8]) == ReadU32(c[4..8]))
            <==> |m| >= HEADER_LENGTH
  {
    if |m| >= HEADER_LENGTH {
      forall b: seq<Byte>, c: seq<Byte> | HoldsMessage(b, m) && HoldsMessage(c, m)
        ensures ReadU32(b[4..8]) == ReadU32(c[4..8])
      {
        assert b[4..8] == m[4..8] == c[4..8];
      }
    } else {
      var zeros: seq<Byte> := [0, 0, 0, 0, 0, 0, 0];
      var b: seq<Byte>, c: seq<Byte> := m + zeros[..7 - |m|] + [0], m + zeros[..7 - |m|] + [1];
      assert HoldsMessage(b, m) && HoldsMessage(c, m);
      assert b[4..7] == c[4..7];
      assert b[4..8] == b[4..7] + [0] && c[4..8] == c[4..7] + [1];
    }
  }

  // ---------------------------------------------------------------- the decoder

  /** Why decoding stops: too few bytes, a head frame that no buffer holds, or a head frame of length 0. */
  datatype Stop = Drained | Oversize | ZeroLength

  datatype Decoded = Decoded(frames: seq<seq<Byte>>, rest: seq<Byte>, stop: Stop)

  function Decode(s: seq<Byte>): Decoded
    decreases |s|
  {
    if |s| < 4 || |s| < ReadU32(s) then Decoded([], s, Drained)
    else if ReadU32(s) >= FRAME_LIMIT then Decoded([], s, Oversize)
    else if ReadU32(s) == 0 then Decoded([], s, ZeroLength)
    else
      var d := Decode(s[ReadU32(s)..]);
      d.(frames := [s[..ReadU32(s)]] + d.frames)
  }

  /** When a frame is delivered first, decoding goes on behind it. */
  lemma DecodeFirst(s: seq<Byte>, n: nat)
    requires |s| >= 4 && n == ReadU32(s) && 0 < n < FRAME_LIMIT && n <= |s|
    ensures Decode(s) == Decode(s[n..]).(frames := [s[..n]] + Decode(s[n..]).frames)
  {
  }

  lemma ConserveStep(s: seq<Byte>, n: nat, frames: seq<seq<Byte>>, rest: seq<Byte>)
    requires n <= |s| && Flatten(frames) + rest == s[n..]
    ensures Flatten([s[..n]] + frames) + rest == s
  {
    FlattenCons(s[..n], frames);
    assert s[..n] + Flatten(frames) + rest == s[..n] + (Flatten(frames) + rest);
  }

  /** Nothing is lost or invented: frames and rest make up the input. */
  lemma {:induction false} DecodeConserves(s: seq<Byte>)
    ensures Flatten(Decode(s).frames) + Decode(s).rest == s
    decreases |s|
  {
    if Decode(s).frames == [] {
      assert [] + s == s;
    } else {
      var n := ReadU32(s);
      var d := Decode(s[n..]);
      DecodeConserves(s[n..]);
      DecodeFirst(s, n);
      ConserveStep(s, n, d.frames, d.rest);
    }
  }

  /** Each delivered frame is non-empty, fits a buffer, and has the length it announces. */
  lemma {:induction false} DecodeFrameLengths(s: seq<Byte>, i: nat)
    requires i < |Decode(s).frames|
    ensures var f := Decode(s).frames[i]; 0 < |f| < FRAME_LIMIT && (|f| >= 4 ==> ReadU32(f) == |f|)
    decreases |s|
  {
    var n := ReadU32(s);
    DecodeFirst(s, n);
    if i == 0 {
      if n >= 4 { assert s == s[..n] + s[n..]; ReadU32Prefix(s[..n], s[n..]); }
    } else {
      DecodeFrameLengths(s[n..], i - 1);
    }
  }

  /** What is left undecoded stays undecoded: decoding may resume from it. */
  lemma {:induction false} DecodeRest(s: seq<Byte>)
    ensures Decode(Decode(s).rest) == Decoded([], Decode(s).rest, Decode(s).stop)
    decreases |s|
  {
    if Decode(s).frames != [] {
      DecodeRest(s[ReadU32(s)..]);
    }
  }

  /** Decoding s and then more bytes is decoding the rest of s followed by them. */
  lemma {:induction false} DecodeAppend(s: seq<Byte>, more: seq<Byte>)
    ensures var d, e := Decode(s), Decode(Decode(s).rest + more);
            Decode(s + more) == Decoded(d.frames + e.frames, e.rest, e.stop)
    decreases |s|
  {
    var d, e := Decode(s), Decode(Decode(s).rest + more);
    if d.frames == [] {
      assert d.frames + e.frames == e.frames;
    } else {
      var n := ReadU32(s);
      DecodeFirst(s, n);
      DecodeAppend(s[n..], more);
      AppendStep(s, more, n, Decode(s[n..]).frames, e);
    }
  }

  lemma AppendStep(s: seq<Byte>, more: seq<Byte>, n: nat, frames: seq<seq<Byte>>, e: Decoded)
    requires |s| >= 4 && n == ReadU32(s) && 0 < n < FRAME_LIMIT && n <= |s|
    requires Decode(s[n..] + more) == Decoded(frames + e.frames, e.rest, e.stop)
    ensures Decode(s + more) == Decoded([s[..n]] + frames + e.frames, e.rest, e.stop)
  {
    ReadU32Prefix(s, more);
    assert (s + more)[..n] == s[..n] && (s + more)[n..] == s[n..] + more;
    DecodeFirst(s + more, n);
    assert [s[..n]] + (frames + e.frames) == [s[..n]] + frames + e.frames;
  }

  /** Once the head frame is oversize (or empty), no further byte delivers anything or changes the verdict. */
  lemma StuckForever(s: seq<Byte>, more: seq<Byte>)
    requires Decode(s).stop != Drained
    ensures Decode(s + more) == Decoded(Decode(s).frames, Decode(s).rest + more, Decode(s).stop)
  {
    DecodeAppend(s, more);
    DecodeRest(s);
    var r := Decode(s).rest;
    ReadU32Prefix(r, more);
    assert Decode(s).frames + [] == Decode(s).frames;
  }

  // ---------------------------------------------------------------- chunks

  /** A receiver's state between reads: what it delivered, what it kept, and its last verdict. */
  function Feed(d: Decoded, chunk: seq<Byte>): Decoded {
    var e := Decode(d.rest + chunk);
    Decoded(d.frames + e.frames, e.rest, e.stop)
  }

  function FeedAll(chunks: seq<seq<Byte>>): Decoded {
    if chunks == [] then Decoded([], [], Drained)
    else Feed(FeedAll(chunks[..|chunks| - 1]), chunks[|chunks| - 1])
  }

  /** Frames, leftover and verdict depend on the concatenation of the chunks only. */
  lemma {:induction false} ChunkingIrrelevant(chunks: seq<seq<Byte>>)
    ensures FeedAll(chunks) == Decode(Flatten(chunks))
    decreases |chunks|
  {
    if chunks != [] {
      var prefix := chunks[..|chunks| - 1];
      ChunkingIrrelevant(prefix);
      DecodeAppend(Flatten(prefix), chunks[|chunks| - 1]);
    }
  }

  // ---------------------------------------------------------------- streams of well-formed frames

  predicate AllFrames(frames: seq<seq<Byte>>) {
    forall f :: f in frames ==> IsFrame(f)
  }

  /** From any prefix of a stream of frames the decoder delivers a prefix of the frames, and never fails. */
  lemma {:induction false} DecodePrefix(frames: seq<seq<Byte>>, p: seq<Byte>)
    requires AllFrames(frames) && p <= Flatten(frames)
    ensures Decode(p).stop == Drained && Decode(p).frames <= frames
    ensures Decode(p).rest != [] ==> |Decode(p).frames| < |frames| && Decode(p).rest <= frames[|Decode(p).frames|]
    decreases |frames|
  {
    if frames == [] || p == [] {
    } else {
      var f, tail := frames[0], frames[1..];
      assert frames == [f] + tail && IsFrame(f);
      FlattenCons(f, tail);
      if |p| < |f| {
        assert p == f[..|p|];
        if |p| >= 4 {
          assert f == p + f[|p|..];
          ReadU32Prefix(p, f[|p|..]);
          assert ReadU32(p) == |f|;
        }
      } else {
        var q := p[|f|..];
        assert p == f + q;
        assert q <= Flatten(tail);
        ReadU32Prefix(f, q);
        DecodePrefix(tail, q);
        assert p[..|f|] == f;
        DecodeFirst(p, |f|);
      }
    }
  }

  /** The whole stream delivers all of the frames. */
  lemma {:induction false} DecodeAllFrames(frames: seq<seq<Byte>>)
    requires AllFrames(frames)
    ensures Decode(Flatten(frames)) == Decoded(frames, [], Drained)
    decreases |frames|
  {
    if frames != [] {
      var f, tail := frames[0], frames[1..];
      assert frames == [f] + tail && IsFrame(f);
      FlattenCons(f, tail);
      ReadU32Prefix(f, Flatten(tail));
      DecodeAllFrames(tail);
      var s := f + Flatten(tail);
      assert s[..|f|] == f && s[|f|..] == Flatten(tail);
      DecodeFirst(s, |f|);
    }
  }

  // ---------------------------------------------------------------- the receive loop

  /** The state of the receive loop: still going round, or returned. */
  datatype Loop = Going(frames: seq<seq<Byte>>, buffer: seq<Byte>)
                | Returned(frames: seq<seq<Byte>>, buffer: seq<Byte>, failed: bool)

  /** One trip: the loop test, the two early returns, or one delivery, even of an empty frame. */
  function Trip(l: Loop): Loop {
    if l.Returned? then l
    else if |l.buffer| < 4 || |l.buffer| < ReadU32(l.buffer) then Returned(l.frames, l.buffer, false)
    else if ReadU32(l.buffer) >= FRAME_LIMIT then Returned(l.frames, l.buffer, true)
    else Going(l.frames + [l.buffer[..ReadU32(l.buffer)]], l.buffer[ReadU32(l.buffer)..])
  }

  function Trips(l: Loop, k: nat): Loop
    decreases k
  {
    if k == 0 then l else Trips(Trip(l), k - 1)
  }

  lemma {:induction false} ReturnsWithDecode(done: seq<seq<Byte>>, s: seq<Byte>)
    requires Decode(s).stop != ZeroLength
    ensures exists k: nat ::
      Trips(Going(done, s), k) == Returned(done + Decode(s).frames, Decode(s).rest, Decode(s).stop == Oversize)
    decreases |s|
  {
    if Decode(s).frames == [] {
      assert done + [] == done;
      assert Trips(Going(done, s), 1) == Trips(Trip(Going(done, s)), 0);
    } else {
      var n := ReadU32(s);
      ReturnsWithDecode(done + [s[..n]], s[n..]);
      var k: nat :| Trips(Going(done + [s[..n]], s[n..]), k) ==
        Returned(done + [s[..n]] + Decode(s[n..]).frames, Decode(s[n..]).rest, Decode(s[n..]).stop == Oversize);
      assert done + [s[..n]] + Decode(s[n..]).frames == done + Decode(s).frames;
      assert Trips(Going(done, s), k + 1) == Trips(Trip(Going(done, s)), k);
    }
  }

  lemma {:induction false} SpinsOnZeroLength(done: seq<seq<Byte>>, s: seq<Byte>, k: nat)
    requires Decode(s).stop == ZeroLength
    ensures Trips(Going(done, s), k).Going?
    decreases k
  {
    if k > 0 {
      if Decode(s).frames == [] {
        assert s[0..] == s;
        SpinsOnZeroLength(done + [s[..0]], s, k - 1);
      } else {
        SpinsOnZeroLength(done + [s[..ReadU32(s)]], s[ReadU32(s)..], k - 1);
      }
    }
  }

  /** The receive loop returns if and only if decoding does not run into a frame of announced length 0. */
  lemma LoopReturnsExactly(s: seq<Byte>)
    ensures (exists k: nat :: Trips(Going([], s), k).Returned?) <==> Decode(s).stop != ZeroLength
  {
    if Decode(s).stop == ZeroLength {
      forall k: nat ensures !Trips(Going([], s), k).Returned? { SpinsOnZeroLength([], s, k); }
    } else {
      ReturnsWithDecode([], s);
    }
  }
}
