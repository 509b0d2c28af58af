/** The server's loop over WebSocket frames, and what it makes of a chunked stream. */
module WebSocketServer {
  import opened Bytes
  import opened Deframe
  import opened WebSocketFrame
  import NetBuffer

  datatype WsState = Connecting | Open | Closing | Closed

  /** static_cast<int>(size) > maxMessageSize, for a positive limit. */
  predicate Oversized(maxMessageSize: int, size: nat) {
    var low := size % 0x1_0000_0000;
    maxMessageSize > 0 && (if low < 0x8000_0000 then low else low - 0x1_0000_0000) > maxMessageSize
  }

  /**
   What a frame does to the loop. An oversized frame closes the session and leaves; a close
   frame, or a message whose handler closes the session, closes it but the loop goes on. Once the session is not
   Open, onMessage no longer looks at the buffer.
   */
  function Dispose(maxMessageSize: int, handlerCloses: Frame -> bool, f: Frame): (r: Disposition) {
    if Oversized(maxMessageSize, |f.payload|) then ReturnAndClose
    else if f.opcode == OP_CLOSE then CloseAfter
    else if (f.opcode == OP_TEXT || f.opcode == OP_BINARY) && handlerCloses(f) then CloseAfter
    else Continue
  }

  function Disposer(maxMessageSize: int, handlerCloses: Frame -> bool): (d: Frame -> Disposition) {
    f => Dispose(maxMessageSize, handlerCloses, f)
  }

  /** A number of bytes cast to a 32-bit int: the number that differs from it by a multiple of 2^32 and fits. */
  ghost predicate CastsTo(size: nat, n: int) {
    -0x8000_0000 <= n < 0x8000_0000 && exists k: nat :: size == n + k * 0x1_0000_0000
  }

  /** A frame is oversized exactly when there is a limit and its size, cast to int, exceeds it. */
  lemma {:induction false} OversizedIff(maxMessageSize: int, size: nat, n: int)
    requires CastsTo(size, n)
    ensures Oversized(maxMessageSize, size) <==> 0 < maxMessageSize < n
  {
    var k: nat :| size == n + k * 0x1_0000_0000;
    if n >= 0 {
      ModUnique(size, 0x1_0000_0000, k, n);
    } else {
      ModUnique(size, 0x1_0000_0000, k - 1, n + 0x1_0000_0000);
    }
  }

  /** So a payload of 2^31 bytes passes every limit. */
  lemma {:induction false} HugePassesLimit(maxMessageSize: int)
    ensures !Oversized(maxMessageSize, 0x8000_0000)
  {
    assert 0x8000_0000 == -0x8000_0000 + 1 * 0x1_0000_0000;
    assert CastsTo(0x8000_0000, -0x8000_0000);
    OversizedIff(maxMessageSize, 0x8000_0000, -0x8000_0000);
  }

  /** What every frame below 2^31 bytes does: over the limit it ends the loop, opcode 8 or its handler closes. */
  lemma {:induction false} DisposeIff(maxMessageSize: int, handlerCloses: Frame -> bool, f: Frame)
    requires |f.payload| < 0x8000_0000
    ensures var (r, over) := (Dispose(maxMessageSize, handlerCloses, f), 0 < maxMessageSize < |f.payload|);
            && (r.ReturnAndClose? <==> over)
            && (r.CloseAfter? <==> !over && (f.opcode == 8 || ((f.opcode == 1 || f.opcode == 2) && handlerCloses(f))))
            && !r.Return?
  {
    assert |f.payload| == |f.payload| + 0 * 0x1_0000_0000;
    assert CastsTo(|f.payload|, |f.payload|);
    OversizedIff(maxMessageSize, |f.payload|, |f.payload|);
  }

  /** Chunking is irrelevant exactly when the first frame to close the session is oversized or is the last. */
  lemma {:induction false} WsChunkingIrrelevantIff(maxMessageSize: int, handlerCloses: Frame -> bool, s: seq<byte>)
    ensures var d := Disposer(maxMessageSize, handlerCloses);
            Settled(d, Split(Decoded, s)) <==>
            forall chunks | Concat(chunks) == s ::
              SameRun(DeliverAll(Decoded, d, Start(), chunks), DeliverAll(Decoded, d, Start(), [s]))
  {
    DecodedStable();
    ChunkingIrrelevantIff(Decoded, Disposer(maxMessageSize, handlerCloses), s);
  }

  const EMPTY_CLOSE: Frame := Frame(true, 0, 0, 0, OP_CLOSE, false, NO_KEY, [])
  const EMPTY_TEXT: Frame := Frame(true, 0, 0, 0, OP_TEXT, false, NO_KEY, [])

  /** A close frame and a text frame after it: delivered together both are handled, delivered apart only the first. */
  lemma {:induction false} CloseThenText(maxMessageSize: int, handlerCloses: Frame -> bool)
    ensures var d := Disposer(maxMessageSize, handlerCloses);
            var a, b := Encoded(EMPTY_CLOSE, false, NO_KEY), Encoded(EMPTY_TEXT, false, NO_KEY);
            && DeliverAll(Decoded, d, Start(), [a + b]).msgs == [EMPTY_CLOSE, EMPTY_TEXT]
            && DeliverAll(Decoded, d, Start(), [a, b]).msgs == [EMPTY_CLOSE]
            && !Settled(d, Split(Decoded, a + b))
  {
    CloseThenFrame(Disposer(maxMessageSize, handlerCloses), EMPTY_CLOSE, EMPTY_TEXT);
  }

  lemma {:induction false} CloseThenFrame(d: Frame -> Disposition, x: Frame, y: Frame)
    requires |x.payload| <= MAX_VECTOR && |y.payload| <= MAX_VECTOR && d(x) == CloseAfter
    requires Truncated(x, false, NO_KEY) == x && Truncated(y, false, NO_KEY) == y
    ensures var a, b := Encoded(x, false, NO_KEY), Encoded(y, false, NO_KEY);
            && DeliverAll(Decoded, d, Start(), [a + b]).msgs == [x, y]
            && DeliverAll(Decoded, d, Start(), [a, b]).msgs == [x]
            && !Settled(d, Split(Decoded, a + b))
  {
    TwoFrames(x, y);
    TogetherAndApart(Decoded, d, Encoded(x, false, NO_KEY), Encoded(y, false, NO_KEY), x, y);
  }

  lemma {:induction false} TwoFrames(x: Frame, y: Frame)
    requires |x.payload| <= MAX_VECTOR && |y.payload| <= MAX_VECTOR
    ensures var a, b := Encoded(x, false, NO_KEY), Encoded(y, false, NO_KEY);
            && Decoded(a) == Decoded(a + b) == Parsed(Truncated(x, false, NO_KEY), |a|)
            && Decoded(b) == Parsed(Truncated(y, false, NO_KEY), |b|)
            && Split(Decoded, a + b) == [Truncated(x, false, NO_KEY), Truncated(y, false, NO_KEY)]
  {
    var a, b := Encoded(x, false, NO_KEY), Encoded(y, false, NO_KEY);
    EncodeDecodes(x, false, NO_KEY, b);
    EncodeDecodes(x, false, NO_KEY, []);
    EncodeDecodes(y, false, NO_KEY, []);
    assert (a + b)[|a|..] == b && a + [] == a && b + [] == b && b[|b|..] == [];
    assert Split(Decoded, b) == [Truncated(y, false, NO_KEY)] + Split(Decoded, []);
  }

  /** A frame as a client sends it. */
  datatype Sent = Sent(frame: Frame, mask: bool, key: seq<byte>)

  ghost predicate Sendable(x: Sent) {
    |x.key| == 4 && |x.frame.payload| <= MAX_VECTOR
  }

  ghost predicate AllSendable(sent: seq<Sent>) {
    forall i | 0 <= i < |sent| :: Sendable(sent[i])
  }

  ghost function OnWire(sent: seq<Sent>): (r: seq<byte>)
    requires AllSendable(sent)
  {
    if sent == [] then [] else Encoded(sent[0].frame, sent[0].mask, sent[0].key) + OnWire(sent[1..])
  }

  function Received(sent: seq<Sent>): (r: seq<Frame>) {
    seq(|sent|, i requires 0 <= i < |sent| => Truncated(sent[i].frame, sent[i].mask, sent[i].key))
  }

  lemma {:induction false} OnWireSplits(d: Frame -> Disposition, sent: seq<Sent>)
    requires AllSendable(sent)
    requires Steady(d, Received(sent))
    ensures Split(Decoded, OnWire(sent)) == Received(sent)
    ensures Loop(Decoded, d, OnWire(sent)) == Run(Received(sent), [], true, false)
  {
    if sent == [] {
      assert Received(sent) == [];
    } else {
      var x, rest := sent[0], OnWire(sent[1..]);
      assert Received(sent) == [Received(sent)[0]] + Received(sent[1..]);
      assert Sendable(x);
      forall i | 0 <= i < |Received(sent[1..])| ensures d(Received(sent[1..])[i]) == Continue {
        assert Received(sent[1..])[i] == Received(sent)[i + 1];
      }
      OnWireSplits(d, sent[1..]);
      OneMoreFrame(d, x, rest, Received(sent[1..]));
    }
  }

  lemma {:induction false} OneMoreFrame(d: Frame -> Disposition, x: Sent, rest: seq<byte>, msgs: seq<Frame>)
    requires Sendable(x) && d(Truncated(x.frame, x.mask, x.key)) == Continue
    requires Split(Decoded, rest) == msgs && Loop(Decoded, d, rest) == Run(msgs, [], true, false)
    ensures var (m, s) := (Truncated(x.frame, x.mask, x.key), Encoded(x.frame, x.mask, x.key) + rest);
            Split(Decoded, s) == [m] + msgs && Loop(Decoded, d, s) == Run([m] + msgs, [], true, false)
  {
    var a := Encoded(x.frame, x.mask, x.key);
    EncodeDecodes(x.frame, x.mask, x.key, rest);
    assert (a + rest)[|a|..] == rest;
  }

  /** End to end: frames a client encodes, under any masking keys and any chunking, arrive in order and whole. */
  lemma {:induction false} FramesArrive(maxMessageSize: int, handlerCloses: Frame -> bool, sent: seq<Sent>,
                                        chunks: seq<seq<byte>>)
    requires AllSendable(sent)
    requires Steady(Disposer(maxMessageSize, handlerCloses), Received(sent))
    requires chunks != [] && Concat(chunks) == OnWire(sent)
    ensures DeliverAll(Decoded, Disposer(maxMessageSize, handlerCloses), Start(), chunks)
         == Run(Received(sent), [], true, false)
  {
    var d := Disposer(maxMessageSize, handlerCloses);
    OnWireSplits(d, sent);
    DecodedStable();
    SteadyChunkingIrrelevant(Decoded, d, OnWire(sent), chunks);
    OneDelivery(Decoded, d, OnWire(sent));
  }

  /** A position the loop reaches, with a head that wraps. */
  ghost predicate WrapsAt(d: Frame -> Disposition, s: seq<byte>, k: nat) {
    k <= |s| && Reached(Decoded, d, s, k) && Wraps(s[k..])
  }

  /** A buffer makes the session fail exactly when some frame head that the loop reaches wraps. */
  lemma {:induction false} SessionFailsIff(d: Frame -> Disposition, s: seq<byte>)
    requires |s| <= MAX_VECTOR
    ensures Loop(Decoded, d, s).rejected <==> exists k: nat :: WrapsAt(d, s, k)
  {
    LoopRejectsIff(Decoded, d, s);
    forall k: nat ensures RejectsAt(Decoded, d, s, k) <==> WrapsAt(d, s, k) {
      if k <= |s| {
        RejectedIffWraps(s[k..]);
      }
    }
  }

  /** And so does a stream under any chunking, while no frame closes the session. */
  lemma {:induction false} StreamFailsIff(maxMessageSize: int, handlerCloses: Frame -> bool, s: seq<byte>,
                                          chunks: seq<seq<byte>>)
    requires |s| <= MAX_VECTOR && chunks != [] && Concat(chunks) == s
    requires Steady(Disposer(maxMessageSize, handlerCloses), Split(Decoded, s))
    ensures DeliverAll(Decoded, Disposer(maxMessageSize, handlerCloses), Start(), chunks).rejected <==>
            exists k: nat :: WrapsAt(Disposer(maxMessageSize, handlerCloses), s, k)
  {
    var d := Disposer(maxMessageSize, handlerCloses);
    DecodedStable();
    SteadyChunkingIrrelevant(Decoded, d, s, chunks);
    OneDelivery(Decoded, d, s);
    SessionFailsIff(d, s);
  }

  class Session {
    var state: WsState
    /** The frames decoded so far, in order. */
    var frames: seq<Frame>
    var failed: bool

    constructor ()
      ensures state == Connecting && frames == [] && !failed
    {
      state, frames, failed := Connecting, [], false;
    }

    method Close()
      modifies this`state
      ensures state == if old(state).Closed? then Closed else Closing
    {
      if state.Closed? || state.Closing? {
        return;
      }
      state := Closing;
    }

    /** One turn: decode at the front of the buffer and consume what was decoded. */
    method TakeFrame(buf: NetBuffer.Buffer) returns (r: Outcome<Frame>)
      requires buf.Valid()
      modifies buf`readerIndex, buf`writerIndex
      ensures buf.Valid() && r == Decoded(old(buf.Contents())) && Tight(Decoded, old(buf.Contents()))
      ensures buf.Contents() == if r.Parsed? then old(buf.Contents())[r.consumed..] else old(buf.Contents())
    {
      var data := buf.Peek();
      r := Decode(data);
      DecodedTight(data);
      if r.Parsed? {
        buf.Retrieve(r.consumed);
      }
    }

    /** The size limit and the opcode switch; leave says whether handleWsFrames returns. */
    method Dispatch(frame: Frame, maxMessageSize: int, handlerCloses: Frame -> bool) returns (leave: bool)
      requires state.Open? || state.Closing?
      modifies this`state, this`frames
      ensures frames == old(frames) + [frame]
      ensures var d := Dispose(maxMessageSize, handlerCloses, frame);
              && leave == (d.Return? || d.ReturnAndClose?)
              && state == (if d.Continue? then old(state) else Closing)
    {
      frames := frames + [frame];
      if Oversized(maxMessageSize, |frame.payload|) {
        Close();
        return true;
      }
      if frame.opcode == OP_CLOSE || ((frame.opcode == OP_TEXT || frame.opcode == OP_BINARY) && handlerCloses(frame)) {
        Close();
      }
      leave := false;
    }

    /**
     One turn of the loop, after done frames: whole is what the loop as a whole comes to; stop says that it ends here.
     */
    method Turn(buf: NetBuffer.Buffer, maxMessageSize: int, handlerCloses: Frame -> bool,
                ghost whole: Run<Frame>, ghost done: seq<Frame>) returns (stop: bool, ghost done': seq<Frame>)
      requires buf.Valid() && (state.Open? || state.Closing?)
      requires whole == Resume(Decoded, Disposer(maxMessageSize, handlerCloses), done, buf.Contents(), state.Open?)
      modifies this, buf`readerIndex, buf`writerIndex
      ensures buf.Valid() && (state.Open? || state.Closing?)
      ensures forall base: seq<Frame> :: old(frames) == base + done ==> frames == base + done'
      ensures stop ==> whole == Run(done', buf.Contents(), state.Open?, whole.rejected) &&
                       failed == (old(failed) || whole.rejected)
      ensures !stop ==> failed == old(failed) && |buf.Contents()| < |old(buf.Contents())| &&
                        whole == Resume(Decoded, Disposer(maxMessageSize, handlerCloses),
                                        done', buf.Contents(), state.Open?)
    {
      ghost var d, s, open := Disposer(maxMessageSize, handlerCloses), buf.Contents(), state.Open?;
      var r := TakeFrame(buf);
      if !r.Parsed? {
        ResumeEnd(Decoded, d, done, s, open);
        failed := failed || r.Rejected?;
        return true, done;
      }
      ResumeStep(Decoded, d, done, s, open);
      done' := done + [r.msg];
      assert forall base: seq<Frame> :: (base + done) + [r.msg] == base + done';
      stop := Dispatch(r.msg, maxMessageSize, handlerCloses);
    }

    /** handleWsFrames: decode, consume, dispatch, until the buffer holds no whole frame. */
    method HandleWsFrames(buf: NetBuffer.Buffer, maxMessageSize: int, handlerCloses: Frame -> bool)
      requires buf.Valid() && state.Open?
      modifies this, buf`readerIndex, buf`writerIndex
      ensures buf.Valid()
      ensures var r := Loop(Decoded, Disposer(maxMessageSize, handlerCloses), old(buf.Contents()));
              && frames == old(frames) + r.msgs && buf.Contents() == r.rest
              && state == (if r.open then Open else Closing) && failed == (old(failed) || r.rejected)
    {
      ghost var d := Disposer(maxMessageSize, handlerCloses);
      ghost var whole, done := Loop(Decoded, d, buf.Contents()), [];
      ResumeStart(Decoded, d, buf.Contents());
      var stop := false;
      while !stop
        invariant buf.Valid() && (state.Open? || state.Closing?) && frames == old(frames) + done
        invariant stop ==> whole == Run(done, buf.Contents(), state.Open?, whole.rejected) &&
                           failed == (old(failed) || whole.rejected)
        invariant !stop ==> failed == old(failed) && whole == Resume(Decoded, d, done, buf.Contents(), state.Open?)
        decreases !stop, |buf.Contents()|
      {
        stop, done := Turn(buf, maxMessageSize, handlerCloses, whole, done);
      }
    }

    /** onMessage after the handshake: readFd has appended a chunk; only an open session looks at it. */
    method OnMessage(buf: NetBuffer.Buffer, maxMessageSize: int, handlerCloses: Frame -> bool,
                     ghost rest: seq<byte>, ghost chunk: seq<byte>)
      requires buf.Valid() && !state.Connecting? && !state.Closed?
      requires buf.Contents() == rest + chunk
      modifies this, buf`readerIndex, buf`writerIndex
      ensures buf.Valid() && !state.Connecting? && !state.Closed?
      ensures Run(frames, buf.Contents(), state.Open?, failed)
           == Deliver(Decoded, Disposer(maxMessageSize, handlerCloses),
                      Run(old(frames), rest, old(state).Open?, old(failed)), chunk)
    {
      if state.Open? {
        HandleWsFrames(buf, maxMessageSize, handlerCloses);
      }
    }
  }
}
