/**
 Cutting messages out of a TCP byte stream.

 HttpServer::onMessage, WebSocketServer::handleWsFrames and RpcServerPb::onMessage are one
 loop: peek at the input buffer, try to parse one message, consume it, hand it over, go on.
 TCP may deliver the same bytes in any chunks. This module says exactly when that
 makes no difference, for every parser whose verdict depends only on the bytes it consumes.
 */
module Deframe {
  import opened Bytes

  /** Verdict of one attempt to parse a message at the front of the buffer. */
  datatype Outcome<+M> =
    | Incomplete                      // wait for more bytes, consume nothing
    | Rejected                        // the error path: answer, shut down, consume nothing
    | Parsed(msg: M, consumed: nat)

  /** What handing a message over does to the loop. */
  datatype Disposition =
    | Continue        // try the next message
    | Return          // leave the loop; the next delivery enters it again
    | ReturnAndClose  // leave the loop; later deliveries are only buffered
    | CloseAfter      // finish the loop; later deliveries are only buffered

  type Parser<!M> = seq<byte> -> Outcome<M>

  /** The messages handed over so far, the buffered bytes, and what became of the connection. */
  datatype Run<+M> = Run(msgs: seq<M>, rest: seq<byte>, open: bool, rejected: bool)

  /** A message found in s is found in the bytes it consumes, and they are some but not too many. */
  ghost predicate Tight<M>(p: Parser<M>, s: seq<byte>) {
    p(s).Parsed? ==> 0 < p(s).consumed <= |s| && p(s[..p(s).consumed]) == p(s)
  }

  /** Bytes that follow do not change a message already found. */
  ghost predicate Keeps<M>(p: Parser<M>, s: seq<byte>, t: seq<byte>) {
    p(s).Parsed? ==> p(s + t) == p(s)
  }

  /** A message depends on the bytes it consumes and on nothing else. */
  ghost predicate Stable<M(!new)>(p: Parser<M>) {
    (forall s :: Tight(p, s)) && (forall s, t :: Keeps(p, s, t))
  }

  /** Bytes that follow do not heal a rejection. */
  ghost predicate KeepsRejecting<M>(p: Parser<M>, s: seq<byte>, t: seq<byte>) {
    p(s).Rejected? ==> p(s + t).Rejected?
  }

  ghost predicate RejectStable<M(!new)>(p: Parser<M>) {
    forall s, t :: KeepsRejecting(p, s, t)
  }

  /** A parsed message makes progress: what the loop needs to terminate. */
  predicate Takes<M>(p: Parser<M>, s: seq<byte>) {
    p(s).Parsed? && 0 < p(s).consumed <= |s|
  }

  /** Every message in a byte string, whatever the handlers do. */
  function Split<M>(p: Parser<M>, s: seq<byte>): (msgs: seq<M>)
    decreases |s|
  {
    if Takes(p, s) then [p(s).msg] + Split(p, s[p(s).consumed..]) else []
  }

  /** One call of the message callback on a buffer holding s. */
  function Loop<M>(p: Parser<M>, d: M -> Disposition, s: seq<byte>): (r: Run<M>)
    decreases |s|
  {
    if !Takes(p, s) then Run([], s, true, p(s).Rejected?)
    else
      var m, rest := p(s).msg, s[p(s).consumed..];
      match d(m)
      case Continue => var r := Loop(p, d, rest); r.(msgs := [m] + r.msgs)
      case Return => Run([m], rest, true, false)
      case ReturnAndClose => Run([m], rest, false, false)
      case CloseAfter => var r := Loop(p, d, rest); r.(msgs := [m] + r.msgs, open := false)
  }

  /** The loop seen from the middle: done is handed over already, s is what the buffer still holds. */
  function Resume<M>(p: Parser<M>, d: M -> Disposition, done: seq<M>, s: seq<byte>, open: bool): (r: Run<M>) {
    var r := Loop(p, d, s);
    r.(msgs := done + r.msgs, open := open && r.open)
  }

  lemma {:induction false} ResumeStart<M>(p: Parser<M>, d: M -> Disposition, s: seq<byte>)
    ensures Resume(p, d, [], s, true) == Loop(p, d, s)
  {
    assert [] + Loop(p, d, s).msgs == Loop(p, d, s).msgs;
  }

  lemma {:induction false} ResumeStep<M>(p: Parser<M>, d: M -> Disposition, done: seq<M>, s: seq<byte>, open: bool)
    requires Takes(p, s)
    ensures var m, rest := p(s).msg, s[p(s).consumed..];
            Resume(p, d, done, s, open) ==
            match d(m)
            case Continue => Resume(p, d, done + [m], rest, open)
            case CloseAfter => Resume(p, d, done + [m], rest, false)
            case Return => Run(done + [m], rest, open, false)
            case ReturnAndClose => Run(done + [m], rest, false, false)
  {
    var r := Loop(p, d, s[p(s).consumed..]);
    assert done + ([p(s).msg] + r.msgs) == (done + [p(s).msg]) + r.msgs;
  }

  lemma {:induction false} ResumeEnd<M>(p: Parser<M>, d: M -> Disposition, done: seq<M>, s: seq<byte>, open: bool)
    requires !Takes(p, s)
    ensures Resume(p, d, done, s, open) == Run(done, s, open, p(s).Rejected?)
  {
    assert done + [] == done;
  }

  /** The loop gets as far as position k: every message before it lets the loop go on. */
  ghost predicate Reached<M>(p: Parser<M>, d: M -> Disposition, s: seq<byte>, k: nat)
    decreases |s|
  {
    k == 0 ||
    (Takes(p, s) && (d(p(s).msg).Continue? || d(p(s).msg).CloseAfter?) && p(s).consumed <= k <= |s| &&
     Reached(p, d, s[p(s).consumed..], k - p(s).consumed))
  }

  /** Position k is reached and what stands there is rejected. */
  ghost predicate RejectsAt<M>(p: Parser<M>, d: M -> Disposition, s: seq<byte>, k: nat) {
    k <= |s| && Reached(p, d, s, k) && p(s[k..]).Rejected?
  }

  /** The loop rejects exactly when it reaches something that is rejected. */
  lemma {:induction false} LoopRejectsIff<M>(p: Parser<M>, d: M -> Disposition, s: seq<byte>)
    ensures Loop(p, d, s).rejected <==> exists k: nat :: RejectsAt(p, d, s, k)
    decreases |s|
  {
    assert s[0..] == s;
    if !Takes(p, s) {
      assert p(s).Rejected? ==> RejectsAt(p, d, s, 0);
    } else {
      var c := p(s).consumed;
      var rest := s[c..];
      LoopRejectsIff(p, d, rest);
      forall k: nat ensures RejectsAt(p, d, s, k) <==>
        (d(p(s).msg).Continue? || d(p(s).msg).CloseAfter?) && c <= k && RejectsAt(p, d, rest, k - c)
      {
        assert c <= k <= |s| ==> s[k..] == rest[k - c..];
      }
      if Loop(p, d, s).rejected {
        var k: nat :| RejectsAt(p, d, rest, k);
        assert RejectsAt(p, d, s, c + k);
      }
    }
  }

  /** One delivery: the chunk joins the buffer, and an open connection runs the loop. */
  function Deliver<M>(p: Parser<M>, d: M -> Disposition, st: Run<M>, chunk: seq<byte>): (r: Run<M>) {
    if !st.open then st.(rest := st.rest + chunk)
    else
      var r := Loop(p, d, st.rest + chunk);
      Run(st.msgs + r.msgs, r.rest, r.open, st.rejected || r.rejected)
  }

  function DeliverAll<M>(p: Parser<M>, d: M -> Disposition, st: Run<M>, chunks: seq<seq<byte>>): (r: Run<M>)
    decreases |chunks|
  {
    if chunks == [] then st else DeliverAll(p, d, Deliver(p, d, st, chunks[0]), chunks[1..])
  }

  function Start<M>(): (r: Run<M>) { Run([], [], true, false) }

  /** Same messages, same leftover, same willingness to read on. */
  predicate SameRun<M(==)>(a: Run<M>, b: Run<M>) {
    a.msgs == b.msgs && a.rest == b.rest && a.open == b.open
  }

  /** The first message that does not simply continue either ends everything or is the last one. */
  predicate Settled<M>(d: M -> Disposition, msgs: seq<M>) {
    msgs == [] ||
    match d(msgs[0])
    case Continue => Settled(d, msgs[1..])
    case ReturnAndClose => true
    case _ => |msgs| == 1
  }

  /** No message does anything but continue. */
  predicate Steady<M>(d: M -> Disposition, msgs: seq<M>) {
    forall i | 0 <= i < |msgs| :: d(msgs[i]) == Continue
  }

  // ------------------------------------------------------------------ messages and leftover

  /** A message at the front of a is the message at the front of a + b. */
  lemma {:induction false} FrontMessage<M(!new)>(p: Parser<M>, a: seq<byte>, b: seq<byte>)
    requires Stable(p) && p(a).Parsed?
    ensures p(a + b) == p(a) && 0 < p(a).consumed <= |a|
    ensures (a + b)[p(a).consumed..] == a[p(a).consumed..] + b
    ensures Split(p, a + b) == [p(a).msg] + Split(p, a[p(a).consumed..] + b)
  {
    assert Tight(p, a) && Keeps(p, a, b);
    var c := p(a).consumed;
    assert (a + b)[c..] == a[c..] + b;
  }

  lemma {:induction false} NothingInNothing<M(!new)>(p: Parser<M>)
    requires Stable(p)
    ensures !p([]).Parsed?
  {
    assert Tight(p, []);
  }

  /** What arrives later cannot take back or alter a message already found. */
  lemma {:induction false} SplitExtends<M(!new)>(p: Parser<M>, a: seq<byte>, b: seq<byte>)
    requires Stable(p)
    ensures Split(p, a) <= Split(p, a + b)
    decreases |a|
  {
    if Takes(p, a) {
      FrontMessage(p, a, b);
      SplitExtends(p, a[p(a).consumed..], b);
    }
  }

  lemma {:induction false} SettledPrefix<M>(d: M -> Disposition, a: seq<M>, b: seq<M>)
    requires a <= b && Settled(d, b)
    ensures Settled(d, a)
    decreases |a|
  {
    if a != [] && d(a[0]).Continue? {
      SettledPrefix(d, a[1..], b[1..]);
    }
  }

  /** A message handed over earlier does not influence later deliveries. */
  lemma {:induction false} EarlierMessage<M>(p: Parser<M>, d: M -> Disposition, m: M, st: Run<M>, chunk: seq<byte>)
    ensures var r := Deliver(p, d, st, chunk);
            Deliver(p, d, st.(msgs := [m] + st.msgs), chunk) == r.(msgs := [m] + r.msgs)
  {
    var r := Loop(p, d, st.rest + chunk);
    assert ([m] + st.msgs) + r.msgs == [m] + (st.msgs + r.msgs);
  }

  /** Delivering b after a is delivering a + b, for a settled stream. */
  lemma {:induction false} DeliverSecond<M(!new)>(p: Parser<M>, d: M -> Disposition, a: seq<byte>, b: seq<byte>)
    requires Stable(p) && Settled(d, Split(p, a + b))
    ensures SameRun(Deliver(p, d, Loop(p, d, a), b), Loop(p, d, a + b))
    decreases |a|
  {
    if Takes(p, a) {
      FrontMessage(p, a, b);
      var m, rest := p(a).msg, a[p(a).consumed..];
      assert Split(p, a + b)[1..] == Split(p, rest + b);
      if d(m).Continue? {
        DeliverSecond(p, d, rest, b);
        EarlierMessage(p, d, m, Loop(p, d, rest), b);
      } else if d(m) != ReturnAndClose {
        LastMessage(p, d, a, b);
      }
    } else {
      assert Tight(p, a);
      assert [] + Loop(p, d, a + b).msgs == Loop(p, d, a + b).msgs;
    }
  }

  lemma {:induction false} LastMessage<M(!new)>(p: Parser<M>, d: M -> Disposition, a: seq<byte>, b: seq<byte>)
    requires Stable(p) && p(a).Parsed? && |Split(p, a + b)| == 1
    requires d(p(a).msg).Return? || d(p(a).msg).CloseAfter?
    ensures SameRun(Deliver(p, d, Loop(p, d, a), b), Loop(p, d, a + b))
  {
    FrontMessage(p, a, b);
    var m, rest := p(a).msg, a[p(a).consumed..];
    assert Split(p, rest + b) == [];
    SplitExtends(p, rest, b);
    assert Tight(p, rest) && Tight(p, rest + b) && Keeps(p, rest, b);
    assert [m] + [] == [m];
  }

  lemma {:induction false} DeliverRest<M(!new)>(p: Parser<M>, d: M -> Disposition, st: Run<M>,
                                                a: seq<byte>, chunks: seq<seq<byte>>)
    requires Stable(p) && Settled(d, Split(p, a + Concat(chunks)))
    requires SameRun(st, Loop(p, d, a))
    ensures SameRun(DeliverAll(p, d, st, chunks), Loop(p, d, a + Concat(chunks)))
    decreases |chunks|
  {
    if chunks == [] {
      assert a + Concat(chunks) == a;
    } else {
      var b := chunks[0];
      assert a + Concat(chunks) == (a + b) + Concat(chunks[1..]);
      SplitExtends(p, a + b, Concat(chunks[1..]));
      SettledPrefix(d, Split(p, a + b), Split(p, a + Concat(chunks)));
      DeliverSecond(p, d, a, b);
      DeliverRest(p, d, Deliver(p, d, st, b), a + b, chunks[1..]);
    }
  }

  /** Length of the stream up to and including its first message that does not continue. */
  function FirstEnd<M>(p: Parser<M>, d: M -> Disposition, s: seq<byte>): (k: nat)
    ensures k <= |s|
    decreases |s|
  {
    if !Takes(p, s) then 0
    else
      var c := p(s).consumed;
      if d(p(s).msg).Continue? then c + FirstEnd(p, d, s[c..]) else c
  }

  lemma {:induction false} CutAtEnd<M(!new)>(p: Parser<M>, d: M -> Disposition, s: seq<byte>)
    requires Stable(p) && p(s).Parsed? && |Split(p, s)| > 1
    requires d(p(s).msg).Return? || d(p(s).msg).CloseAfter?
    ensures var k := FirstEnd(p, d, s);
            |Deliver(p, d, Loop(p, d, s[..k]), s[k..]).msgs| != |Loop(p, d, s).msgs|
  {
    assert Tight(p, s);
    NothingInNothing(p);
    var k := p(s).consumed;
    var rest := s[k..];
    assert s[..k][k..] == [] && [] + rest == rest;
    assert Loop(p, d, s[..k]).msgs == [p(s).msg];
    assert Takes(p, rest);
  }

  lemma {:induction false} SameTail<M>(m: M, x: seq<M>, y: seq<M>)
    ensures [m] + x == [m] + y ==> x == y
  {
    assert ([m] + x)[1..] == x && ([m] + y)[1..] == y;
  }

  /** Cutting an unsettled stream right after the message in question changes what is handed over. */
  lemma {:induction false} UnsettledCut<M(!new)>(p: Parser<M>, d: M -> Disposition, s: seq<byte>)
    requires Stable(p) && !Settled(d, Split(p, s))
    ensures var k := FirstEnd(p, d, s);
            Deliver(p, d, Loop(p, d, s[..k]), s[k..]).msgs != Loop(p, d, s).msgs
    decreases |s|
  {
    var k, m, c := FirstEnd(p, d, s), p(s).msg, p(s).consumed;
    assert Tight(p, s);
    var rest := s[c..];
    if d(m).Continue? {
      assert s[..c] + s[..k][c..] == s[..k];
      assert Keeps(p, s[..c], s[..k][c..]);
      UnsettledCut(p, d, rest);
      var j := k - c;
      assert s[..k][c..] == rest[..j] && s[k..] == rest[j..];
      var first := Loop(p, d, rest[..j]);
      EarlierMessage(p, d, m, first, rest[j..]);
      SameTail(m, Deliver(p, d, first, rest[j..]).msgs, Loop(p, d, rest).msgs);
    } else {
      CutAtEnd(p, d, s);
    }
  }

  /**
   Chunking makes no difference exactly for the settled streams: the messages, the leftover
   and the connection's openness after any sequence of deliveries are those after one.
   */
  lemma {:induction false} ChunkingIrrelevantIff<M(!new)>(p: Parser<M>, d: M -> Disposition, s: seq<byte>)
    requires Stable(p)
    ensures Settled(d, Split(p, s)) <==>
            forall chunks | Concat(chunks) == s ::
              SameRun(DeliverAll(p, d, Start(), chunks), DeliverAll(p, d, Start(), [s]))
  {
    OneDelivery(p, d, s);
    if Settled(d, Split(p, s)) {
      forall chunks | Concat(chunks) == s
        ensures SameRun(DeliverAll(p, d, Start(), chunks), DeliverAll(p, d, Start(), [s]))
      {
        assert [] + Concat(chunks) == s;
        NothingInNothing(p);
        DeliverRest(p, d, Start(), [], chunks);
      }
    } else {
      UnsettledCut(p, d, s);
      var k := FirstEnd(p, d, s);
      TwoDeliveries(p, d, s, k);
    }
  }

  lemma {:induction false} OneDelivery<M>(p: Parser<M>, d: M -> Disposition, s: seq<byte>)
    ensures DeliverAll(p, d, Start(), [s]) == Loop(p, d, s)
  {
    assert [] + s == s;
    assert [s][1..] == [];
    assert DeliverAll(p, d, Start(), [s]) == Deliver(p, d, Start(), s);
    assert [] + Loop(p, d, s).msgs == Loop(p, d, s).msgs;
  }

  lemma {:induction false} TwoDeliveries<M>(p: Parser<M>, d: M -> Disposition, s: seq<byte>, k: nat)
    requires k <= |s|
    ensures Concat([s[..k], s[k..]]) == s
    ensures DeliverAll(p, d, Start(), [s[..k], s[k..]]) == Deliver(p, d, Loop(p, d, s[..k]), s[k..])
  {
    var a, b := s[..k], s[k..];
    assert [a, b][1..] == [b] && [b][1..] == [] && [a][1..] == [];
    assert Concat([b]) == b;
    assert a + b == s;
    OneDelivery(p, d, a);
    assert DeliverAll(p, d, Start(), [a]) == Deliver(p, d, Start(), a);
    var st := Deliver(p, d, Start(), a);
    assert DeliverAll(p, d, st, [b]) == Deliver(p, d, st, b);
  }

  // ------------------------------------------------------------------ rejections

  /** Whether any chunking of the stream makes the loop reject it. */
  ghost predicate SomeCutRejects<M>(p: Parser<M>, d: M -> Disposition, s: seq<byte>) {
    exists k | 0 <= k <= |s| :: Loop(p, d, s[..k]).rejected
  }

  lemma {:induction false} TwoSplit<M>(p: Parser<M>, a: seq<byte>, b: seq<byte>, x: M, y: M)
    requires a != [] && b != [] && p([]).Incomplete? && p(a + b) == Parsed(x, |a|) && p(b) == Parsed(y, |b|)
    ensures Split(p, a + b) == [x, y]
  {
    assert (a + b)[|a|..] == b && b[|b|..] == [];
    assert Split(p, b) == [y] + Split(p, []);
  }

  /** Two messages, delivered together and one by one, when the first leaves the loop or closes. */
  lemma {:induction false} TogetherAndApart<M>(p: Parser<M>, d: M -> Disposition, a: seq<byte>, b: seq<byte>,
                                               x: M, y: M)
    requires a != [] && b != [] && p([]).Incomplete?
    requires p(a) == p(a + b) == Parsed(x, |a|) && p(b) == Parsed(y, |b|)
    ensures var together, apart := DeliverAll(p, d, Start(), [a + b]).msgs, DeliverAll(p, d, Start(), [a, b]).msgs;
            && (d(x).Return? ==> together == [x] && apart == [x, y])
            && (d(x).CloseAfter? ==> together == [x, y] && apart == [x])
  {
    assert (a + b)[|a|..] == b && a[|a|..] == [] && b[|b|..] == [];
    assert [] + a == a && [] + b == b && [] + (a + b) == a + b;
    assert Loop(p, d, []).msgs == [] && Loop(p, d, b).msgs == [y];
    OneDelivery(p, d, a + b);
    var first := Deliver(p, d, Start(), a);
    assert first.msgs == [x] || !(d(x).Return? || d(x).CloseAfter?);
    var chunks := [a, b];
    assert chunks[0] == a && chunks[1..] == [b] && [b][1..] == [];
    assert DeliverAll(p, d, first, [b]) == Deliver(p, d, first, b);
  }

  /** No message is found in a prefix that does not reach the end of the first one. */
  lemma {:induction false} NothingBeforeFirst<M(!new)>(p: Parser<M>, s: seq<byte>, k: nat)
    requires Stable(p) && k <= |s| && (p(s).Parsed? ==> k < p(s).consumed)
    ensures !p(s[..k]).Parsed?
  {
    assert s[..k] + s[k..] == s;
    assert Tight(p, s[..k]) && Keeps(p, s[..k], s[k..]);
  }

  lemma {:induction false} PrefixPastFirst<M(!new)>(p: Parser<M>, d: M -> Disposition, s: seq<byte>, k: nat)
    requires Stable(p) && p(s).Parsed? && d(p(s).msg).Continue? && p(s).consumed <= k <= |s|
    ensures 0 < p(s).consumed
    ensures Loop(p, d, s[..k]).rejected == Loop(p, d, s[p(s).consumed..][..k - p(s).consumed]).rejected
  {
    var c := p(s).consumed;
    assert Tight(p, s) && Keeps(p, s[..c], s[..k][c..]);
    assert s[..c] + s[..k][c..] == s[..k];
    assert s[..k][c..] == s[c..][..k - c];
  }

  /** Some prefix that does not reach the end of the first message is rejected. */
  ghost predicate FirstCutRejects<M>(p: Parser<M>, s: seq<byte>) {
    exists k | 0 <= k <= |s| && (p(s).Parsed? ==> k < p(s).consumed) :: p(s[..k]).Rejected?
  }

  lemma {:induction false} SomeCutStep<M(!new)>(p: Parser<M>, d: M -> Disposition, s: seq<byte>)
    requires Stable(p) && (p(s).Parsed? ==> d(p(s).msg).Continue?)
    ensures p(s).Parsed? ==> 0 < p(s).consumed <= |s|
    ensures SomeCutRejects(p, d, s) <==>
            FirstCutRejects(p, s) || (p(s).Parsed? && SomeCutRejects(p, d, s[p(s).consumed..]))
  {
    assert Tight(p, s);
    forall k | 0 <= k <= |s| && (p(s).Parsed? ==> k < p(s).consumed)
      ensures Loop(p, d, s[..k]).rejected == p(s[..k]).Rejected?
    {
      NothingBeforeFirst(p, s, k);
    }
    if p(s).Parsed? {
      var c := p(s).consumed;
      forall k | c <= k <= |s| ensures Loop(p, d, s[..k]).rejected == Loop(p, d, s[c..][..k - c]).rejected {
        PrefixPastFirst(p, d, s, k);
      }
      if SomeCutRejects(p, d, s[c..]) {
        var j :| 0 <= j <= |s[c..]| && Loop(p, d, s[c..][..j]).rejected;
        assert Loop(p, d, s[..c + j]).rejected;
      }
    }
  }

  /** A delivery sequence rejects exactly when it stops at a prefix whose own delivery rejects. */
  lemma {:induction false} RejectionNeedsACut<M(!new)>(p: Parser<M>, d: M -> Disposition, st: Run<M>,
                                                       a: seq<byte>, chunks: seq<seq<byte>>)
    requires Stable(p)
    requires Steady(d, Split(p, a + Concat(chunks)))
    requires SameRun(st, Loop(p, d, a))
    requires st.rejected ==> SomeCutRejects(p, d, a + Concat(chunks))
    ensures DeliverAll(p, d, st, chunks).rejected ==> SomeCutRejects(p, d, a + Concat(chunks))
    decreases |chunks|
  {
    if chunks != [] {
      var b, s := chunks[0], a + Concat(chunks);
      assert s == (a + b) + Concat(chunks[1..]);
      SplitExtends(p, a + b, Concat(chunks[1..]));
      SteadySettled(d, Split(p, a + b));
      DeliverSecond(p, d, a, b);
      SteadyTail(p, d, a, b);
      var k := |a + b|;
      assert s[..k] == a + b;
      RejectionNeedsACut(p, d, Deliver(p, d, st, b), a + b, chunks[1..]);
    }
  }

  lemma {:induction false} SteadySettled<M>(d: M -> Disposition, msgs: seq<M>)
    requires Steady(d, msgs)
    ensures Settled(d, msgs)
  {
    if msgs != [] {
      SteadySettled(d, msgs[1..]);
    }
  }

  /** In a steady stream a delivery's own rejection is the rejection of everything so far. */
  lemma {:induction false} SteadyTail<M(!new)>(p: Parser<M>, d: M -> Disposition, a: seq<byte>, b: seq<byte>)
    requires Stable(p) && Steady(d, Split(p, a + b))
    ensures Loop(p, d, a).open && Loop(p, d, Loop(p, d, a).rest + b).rejected == Loop(p, d, a + b).rejected
    decreases |a|
  {
    if Takes(p, a) {
      var c := p(a).consumed;
      FrontMessage(p, a, b);
      assert Split(p, a + b)[0] == p(a).msg;
      assert Split(p, a + b)[1..] == Split(p, a[c..] + b);
      SteadyTail(p, d, a[c..], b);
    }
  }

  /** Over a steady stream, no chunking rejects exactly when no prefix does. */
  lemma {:induction false} NoChunkingRejectsIff<M(!new)>(p: Parser<M>, d: M -> Disposition, s: seq<byte>)
    requires Stable(p) && Steady(d, Split(p, s))
    ensures SomeCutRejects(p, d, s) <==>
            exists chunks | Concat(chunks) == s :: DeliverAll(p, d, Start(), chunks).rejected
  {
    if SomeCutRejects(p, d, s) {
      var k :| 0 <= k <= |s| && Loop(p, d, s[..k]).rejected;
      TwoDeliveries(p, d, s, k);
      assert DeliverAll(p, d, Start(), [s[..k], s[k..]]).rejected;
    }
    forall chunks | Concat(chunks) == s && DeliverAll(p, d, Start(), chunks).rejected
      ensures SomeCutRejects(p, d, s)
    {
      assert [] + Concat(chunks) == s;
      NothingInNothing(p);
      RejectionNeedsACut(p, d, Start(), [], chunks);
    }
  }

  /** With a reject-stable parser, a cut that rejects means the whole stream is rejected. */
  lemma {:induction false} CutRejectionLasts<M(!new)>(p: Parser<M>, d: M -> Disposition, a: seq<byte>, b: seq<byte>)
    requires Stable(p) && RejectStable(p) && Steady(d, Split(p, a + b))
    ensures Loop(p, d, a).rejected ==> Loop(p, d, a + b).rejected
    decreases |a|
  {
    if Takes(p, a) {
      var c := p(a).consumed;
      FrontMessage(p, a, b);
      assert Split(p, a + b)[0] == p(a).msg;
      assert Split(p, a + b)[1..] == Split(p, a[c..] + b);
      CutRejectionLasts(p, d, a[c..], b);
    } else {
      assert Tight(p, a) && KeepsRejecting(p, a, b);
    }
  }

  /** A rejection of the whole stream is seen by whichever deliveries bring it in. */
  lemma {:induction false} WholeRejectionSeen<M(!new)>(p: Parser<M>, d: M -> Disposition, st: Run<M>,
                                                       a: seq<byte>, chunks: seq<seq<byte>>)
    requires Stable(p) && Steady(d, Split(p, a + Concat(chunks)))
    requires SameRun(st, Loop(p, d, a))
    requires chunks == [] ==> Loop(p, d, a).rejected ==> st.rejected
    ensures Loop(p, d, a + Concat(chunks)).rejected ==> DeliverAll(p, d, st, chunks).rejected
    decreases |chunks|
  {
    if chunks == [] {
      assert a + Concat(chunks) == a;
    } else {
      var b := chunks[0];
      assert a + Concat(chunks) == (a + b) + Concat(chunks[1..]);
      SplitExtends(p, a + b, Concat(chunks[1..]));
      SteadySettled(d, Split(p, a + b));
      DeliverSecond(p, d, a, b);
      SteadyTail(p, d, a, b);
      WholeRejectionSeen(p, d, Deliver(p, d, st, b), a + b, chunks[1..]);
    }
  }

  /** With a reject-stable parser and a steady stream, any deliveries agree with one in every respect. */
  lemma {:induction false} SteadyChunkingIrrelevant<M(!new)>(p: Parser<M>, d: M -> Disposition, s: seq<byte>,
                                                             chunks: seq<seq<byte>>)
    requires Stable(p) && RejectStable(p) && Steady(d, Split(p, s)) && Concat(chunks) == s && chunks != []
    ensures DeliverAll(p, d, Start(), chunks) == DeliverAll(p, d, Start(), [s])
  {
    SteadySettled(d, Split(p, s));
    ChunkingIrrelevantIff(p, d, s);
    OneDelivery(p, d, s);
    SameVerdict(p, d, s, chunks);
  }

  lemma {:induction false} SameVerdict<M(!new)>(p: Parser<M>, d: M -> Disposition, s: seq<byte>, chunks: seq<seq<byte>>)
    requires Stable(p) && RejectStable(p) && Steady(d, Split(p, s)) && Concat(chunks) == s && chunks != []
    ensures DeliverAll(p, d, Start(), chunks).rejected == Loop(p, d, s).rejected
  {
    assert [] + Concat(chunks) == s;
    NothingInNothing(p);
    WholeRejectionSeen(p, d, Start(), [], chunks);
    if DeliverAll(p, d, Start(), chunks).rejected {
      NoChunkingRejectsIff(p, d, s);
      SomeCutLasts(p, d, s);
    }
  }

  /** What rejects a cut rejects the whole. */
  lemma {:induction false} SomeCutLasts<M(!new)>(p: Parser<M>, d: M -> Disposition, s: seq<byte>)
    requires Stable(p) && RejectStable(p) && Steady(d, Split(p, s)) && SomeCutRejects(p, d, s)
    ensures Loop(p, d, s).rejected
  {
    var k :| 0 <= k <= |s| && Loop(p, d, s[..k]).rejected;
    assert s[..k] + s[k..] == s;
    CutRejectionLasts(p, d, s[..k], s[k..]);
  }
}
