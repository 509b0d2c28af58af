/** Length-prefixed RPC frames: a four-byte big-endian length, then that many bytes. */
module RpcFraming {
  import opened Bytes
  import opened Deframe
  import NetBuffer

  const MAX_FRAME_SIZE: nat := 10 * 1024 * 1024

  /** A 32-bit pattern read as int32_t. */
  function AsInt32(n: nat): (r: int)
    requires n < 0x1_0000_0000
  {
    if n < 0x8000_0000 then n else n - 0x1_0000_0000
  }

  lemma {:induction false} LengthFits(s: seq<byte>)
    requires |s| >= 4
    ensures FromBigEndian(s[..4]) < 0x1_0000_0000 == Pow256(4)
  {
    FromBigEndianBound(s[..4]);
    assert Pow256(2) == 65536;
  }

  /** The four length bytes, as the int32_t that ntohl makes of them. */
  function FrameLength(s: seq<byte>): (len: int)
    requires |s| >= 4
  {
    LengthFits(s);
    AsInt32(FromBigEndian(s[..4]))
  }

  /** One turn of the loop in onMessage. */
  function ParseFrame(s: seq<byte>): (r: Outcome<seq<byte>>) {
    if |s| < 4 then Incomplete
    else
      var len := FrameLength(s);
      if len <= 0 || len > MAX_FRAME_SIZE then Rejected
      else if |s| < 4 + len then Incomplete
      else Parsed(s[4..4 + len], 4 + len)
  }

  /** What sendResponse puts on the wire; the length is truncated to 32 bits on the way. */
  function Frame(data: seq<byte>): (r: seq<byte>) {
    BigEndian(|data|, 4) + data
  }

  /** No frame ends the loop. */
  function Handled(data: seq<byte>): (r: Disposition) { Continue }

  lemma {:induction false} ParseFrameStable()
    ensures Stable(ParseFrame) && RejectStable(ParseFrame)
  {
    forall s ensures Tight(ParseFrame, s) {
      var r := ParseFrame(s);
      if r.Parsed? {
        assert s[..r.consumed][..4] == s[..4];
        assert s[..r.consumed][4..r.consumed] == s[4..r.consumed];
      }
    }
    forall s, t ensures Keeps(ParseFrame, s, t) && KeepsRejecting(ParseFrame, s, t) {
      if |s| >= 4 {
        assert (s + t)[..4] == s[..4];
      }
      var r := ParseFrame(s);
      if r.Parsed? {
        assert (s + t)[4..r.consumed] == s[4..r.consumed];
      }
    }
  }

  /** A frame is read back, whatever follows it, exactly when its payload is neither empty nor oversized. */
  lemma {:induction false} FrameRoundTripIff(data: seq<byte>, rest: seq<byte>)
    ensures ParseFrame(Frame(data) + rest) == Parsed(data, |Frame(data)|) <==> 1 <= |data| <= 10 * 1024 * 1024
  {
    var s := Frame(data) + rest;
    assert s[..4] == BigEndian(|data|, 4);
    BigEndianRoundTrip(|data|, 4);
    LengthFits(s);
    assert s[4..4 + |data|] == data;
  }

  /** On the wire: the length in four bytes, highest first, then the payload. */
  lemma {:induction false} FrameWritten(data: seq<byte>)
    ensures var f := Frame(data);
            && |f| == 4 + |data| && f[4..] == data
            && f[0] as int == |data| / 16777216 % 256 && f[1] as int == |data| / 65536 % 256
            && f[2] as int == |data| / 256 % 256 && f[3] as int == |data| % 256
  {
    var n, f := |data|, Frame(data);
    BigEndianAt(n, 4, 3);
    BigEndianAt(n, 4, 2);
    BigEndianAt(n, 4, 1);
    BigEndianAt(n, 4, 0);
    assert Pow256(3) == 256 * Pow256(2) && Pow256(2) == 65536 && Pow256(1) == 256 && Pow256(0) == 1;
    assert forall i | 0 <= i < 4 :: f[i] == BigEndian(n, 4)[i];
  }

  /** An empty payload is framed with a length that is refused. */
  lemma {:induction false} EmptyFrameRefused()
    ensures ParseFrame(Frame([])).Rejected?
  {
    BigEndianRoundTrip(0, 4);
    assert Frame([])[..4] == BigEndian(0, 4);
  }

  /** Frames sent back to back come out of one buffer one by one. */
  lemma {:induction false} FramesSplit(payloads: seq<seq<byte>>)
    requires forall i | 0 <= i < |payloads| :: 1 <= |payloads[i]| <= MAX_FRAME_SIZE
    ensures var s := Concat(Frames(payloads));
            Loop(ParseFrame, Handled, s) == Run(payloads, [], true, false) && Split(ParseFrame, s) == payloads
  {
    if payloads != [] {
      var rest := Concat(Frames(payloads[1..]));
      assert Concat(Frames(payloads)) == Frame(payloads[0]) + rest;
      FrameRoundTripIff(payloads[0], rest);
      assert (Frame(payloads[0]) + rest)[|Frame(payloads[0])|..] == rest;
      FramesSplit(payloads[1..]);
      assert payloads == [payloads[0]] + payloads[1..];
    }
  }

  function Frames(payloads: seq<seq<byte>>): (r: seq<seq<byte>>) {
    if payloads == [] then [] else [Frame(payloads[0])] + Frames(payloads[1..])
  }

  /** However TCP chunks a stream, the same frames are processed, with the same leftover and verdict. */
  lemma {:induction false} RpcChunkingIrrelevant(chunks: seq<seq<byte>>)
    requires chunks != []
    ensures DeliverAll(ParseFrame, Handled, Start(), chunks)
         == DeliverAll(ParseFrame, Handled, Start(), [Concat(chunks)])
  {
    ParseFrameStable();
    SteadyChunkingIrrelevant(ParseFrame, Handled, Concat(chunks), chunks);
  }

  /** End to end: payloads framed by the sender, cut anywhere by TCP, arrive as they were. */
  lemma {:induction false} FramesArrive(payloads: seq<seq<byte>>, chunks: seq<seq<byte>>)
    requires forall i | 0 <= i < |payloads| :: 1 <= |payloads[i]| <= MAX_FRAME_SIZE
    requires chunks != [] && Concat(chunks) == Concat(Frames(payloads))
    ensures DeliverAll(ParseFrame, Handled, Start(), chunks) == Run(payloads, [], true, false)
  {
    RpcChunkingIrrelevant(chunks);
    FramesSplit(payloads);
    OneDelivery(ParseFrame, Handled, Concat(chunks));
  }

  /** One turn of the loop on the buffer: peek at the length, decide, consume. */
  method TakeFrame(buf: NetBuffer.Buffer) returns (r: Outcome<seq<byte>>)
    requires buf.Valid()
    modifies buf`readerIndex, buf`writerIndex
    ensures buf.Valid()
    ensures r == ParseFrame(old(buf.Contents()))
    ensures buf.Contents() == if r.Parsed? then old(buf.Contents())[r.consumed..] else old(buf.Contents())
  {
    var readable := buf.ReadableBytes();
    if readable < 4 {
      return Incomplete;
    }
    var s := buf.Peek();
    var len := FrameLength(s);
    if len <= 0 || len > MAX_FRAME_SIZE {
      return Rejected;
    }
    if readable < 4 + len {
      return Incomplete;
    }
    buf.Retrieve(4);
    var data := buf.Peek();
    data := data[..len];
    buf.Retrieve(len);
    assert data == s[4..4 + len];
    r := Parsed(data, 4 + len);
  }

  /** RpcServerPb::onMessage on the connection's input buffer. */
  method OnMessage(buf: NetBuffer.Buffer) returns (msgs: seq<seq<byte>>, rejected: bool)
    requires buf.Valid()
    modifies buf`readerIndex, buf`writerIndex
    ensures buf.Valid()
    ensures Run(msgs, buf.Contents(), true, rejected) == Loop(ParseFrame, Handled, old(buf.Contents()))
  {
    msgs := [];
    ghost var s := buf.Contents();
    ghost var whole := Loop(ParseFrame, Handled, s);
    ResumeStart(ParseFrame, Handled, s);
    while true
      invariant buf.Valid() && s == buf.Contents()
      invariant whole == Resume(ParseFrame, Handled, msgs, s, true)
      decreases |s|
    {
      var r := TakeFrame(buf);
      if !r.Parsed? {
        ResumeEnd(ParseFrame, Handled, msgs, s, true);
        rejected := r.Rejected?;
        return;
      }
      ResumeStep(ParseFrame, Handled, msgs, s, true);
      msgs := msgs + [r.msg];
      s := buf.Contents();
    }
  }
}
