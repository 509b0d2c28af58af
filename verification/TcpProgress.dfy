/** What the output state machine achieves: whatever callers hand over is taken, and goes out as the kernel lets it. */
module TcpProgress {
  import opened Bytes
  import opened TcpOutput
  import opened TcpInvariants

  // ------------------------------------------------------------------ the state, from the events alone

  predicate Ends(e: Event) { e.EShutdown? || e.EClose? || e.EDestroyed? }

  ghost predicate Ended(es: seq<Event>) { exists i :: 0 <= i < |es| && Ends(es[i]) }

  /** Destroyed without having been shut down before. */
  ghost predicate Dropped(es: seq<Event>) {
    exists i :: 0 <= i < |es| && es[i].EDestroyed? && EShutdown !in es[..i]
  }

  lemma {:induction false} EndedSnoc(es: seq<Event>)
    requires es != []
    ensures Ended(es) <==> Ended(es[..|es| - 1]) || Ends(es[|es| - 1])
  {
    var init := es[..|es| - 1];
    if Ended(init) {
      var i :| 0 <= i < |init| && Ends(init[i]);
      assert Ends(es[i]);
    }
    if Ended(es) && !Ends(es[|es| - 1]) {
      var i :| 0 <= i < |es| && Ends(es[i]);
      assert Ends(init[i]);
    }
  }

  lemma {:induction false} DroppedSnoc(es: seq<Event>)
    requires es != []
    ensures var init := es[..|es| - 1];
            Dropped(es) <==> Dropped(init) || (es[|es| - 1].EDestroyed? && EShutdown !in init)
  {
    var init := es[..|es| - 1];
    if Dropped(init) {
      var i :| 0 <= i < |init| && init[i].EDestroyed? && EShutdown !in init[..i];
      assert es[i].EDestroyed? && init[..i] == es[..i];
    }
    if Dropped(es) {
      var i :| 0 <= i < |es| && es[i].EDestroyed? && EShutdown !in es[..i];
      assert i < |init| ==> init[i].EDestroyed? && init[..i] == es[..i];
    }
  }

  lemma {:induction false} StepState(c: Conn, e: Event)
    ensures var r := Step(c, e).state;
            && (!Ends(e) ==> r == c.state)
            && (e.EShutdown? ==> r == if c.state == Connected then Disconnecting else c.state)
            && (e.EClose? ==> r == Disconnected)
            && (e.EDestroyed? ==> r == if c.state == Connected then Disconnected else c.state)
  {
    match e
    case ESendFile(fd, offset, count, replies) =>
      var o, f := Offer(fd, offset, count, |c.accepted|), PendingFile(|c.offers|, fd, offset, count);
      DrainFrame(c.(offers := c.offers + [o], files := c.files + [f]), replies);
    case EWritable(reply, replies) =>
      var n := Written(reply, |c.out|);
      DrainFrame(c.(wire := c.wire + Datas(c.out[..n]), out := c.out[n..]), replies);
    case _ =>
  }

  /**
   In every run: connected exactly until it is shut down, closed or destroyed; disconnected exactly if it was closed, or
   destroyed without having been shut down.
   */
  lemma {:induction false} StateIs(es: seq<Event>)
    ensures var s := RunAll(FRESH, es).state;
            && (s == Connected <==> !Ended(es))
            && (s == Disconnected <==> EClose in es || Dropped(es))
            && s != Connecting
    decreases |es|
  {
    if es != [] {
      var init, e := es[..|es| - 1], es[|es| - 1];
      StateIs(init);
      EndedSnoc(es);
      DroppedSnoc(es);
      StepState(RunAll(FRESH, init), e);
      assert es == init + [e];
      if EShutdown in init {
        var i :| 0 <= i < |init| && init[i] == EShutdown;
        assert Ends(init[i]);
      }
      if !(EShutdown in init) && Ended(init) {
        NotShutDown(init);
      }
    }
  }

  lemma {:induction false} NotShutDown(es: seq<Event>)
    requires EShutdown !in es && Ended(es)
    ensures EClose in es || Dropped(es)
  {
    var i :| 0 <= i < |es| && Ends(es[i]);
    assert EShutdown !in es[..i];
  }

  // ------------------------------------------------------------------ messages

  /** The bytes an event hands over. */
  function Payload(e: Event): (r: seq<byte>) {
    match e
    case ESend(msg, _) => msg
    case ESendIov(slices, _) => Concat(slices)
    case _ => []
  }

  /** The bytes of all messages before the connection was shut down, closed or destroyed. */
  ghost function HandedOver(es: seq<Event>): (r: seq<byte>) {
    if es == [] then []
    else
      var init := es[..|es| - 1];
      HandedOver(init) + if Ended(init) then [] else Payload(es[|es| - 1])
  }

  predicate Unbroken(e: Event) {
    (e.ESend? ==> !e.reply.Broken?) && (e.ESendIov? ==> !e.reply.Broken?)
  }

  ghost predicate AllUnbroken(es: seq<Event>) { forall i | 0 <= i < |es| :: Unbroken(es[i]) }

  lemma {:induction false} StepAccepted(c: Conn, e: Event)
    ensures var idle := !c.writing && c.out == [];
            Step(c, e).accepted ==
            c.accepted + if c.state == Connected && (Unbroken(e) || !idle) then Payload(e) else []
  {
    match e
    case ESendFile(fd, offset, count, replies) =>
      var o, f := Offer(fd, offset, count, |c.accepted|), PendingFile(|c.offers|, fd, offset, count);
      DrainFrame(c.(offers := c.offers + [o], files := c.files + [f]), replies);
    case EWritable(reply, replies) =>
      var n := Written(reply, |c.out|);
      DrainFrame(c.(wire := c.wire + Datas(c.out[..n]), out := c.out[n..]), replies);
    case _ =>
  }

  /** In every run that no broken connection interrupts, every message handed over in time is accepted, in order. */
  lemma {:induction false} AcceptedIs(es: seq<Event>)
    requires AllUnbroken(es)
    ensures RunAll(FRESH, es).accepted == HandedOver(es)
    decreases |es|
  {
    if es != [] {
      var init, e := es[..|es| - 1], es[|es| - 1];
      AcceptedIs(init);
      StateIs(init);
      assert Unbroken(e);
      StepAccepted(RunAll(FRESH, init), e);
    }
  }

  /** And what is on the wire or still in the buffer is what was handed over. */
  lemma {:induction false} MessagesArrive(es: seq<Event>)
    requires AllFit(es) && AllUnbroken(es)
    ensures DataOf(RunAll(FRESH, es).wire) + RunAll(FRESH, es).out == HandedOver(es)
  {
    AcceptedIs(es);
    RunKeeps(es);
  }

  // ------------------------------------------------------------------ write interest and half-close

  /** The converse of Flows: the channel asks for writability only while something waits. */
  ghost predicate Needed(c: Conn) {
    (c.writing ==> c.out != [] || c.files != []) && (c.state == Disconnected ==> !c.writing)
  }

  lemma {:induction false} DrainStill(c: Conn, replies: seq<FileReply>)
    ensures Drain(c, replies).still ==> Drain(c, replies).c.files != []
    decreases |replies|
  {
    if c.files != [] {
      var t := DrainTurn(c, if replies == [] then Again else replies[0]);
      if t.go && replies != [] {
        DrainStill(t.c, replies[1..]);
      }
    }
  }

  lemma {:induction false} SendFileNeeded(c: Conn, fd: int, offset: nat, count: nat, replies: seq<FileReply>)
    requires Needed(c) && Flows(c)
    ensures Needed(SendFile(c, fd, offset, count, replies))
  {
    var o := Offer(fd, offset, count, |c.accepted|);
    var c1 := c.(offers := c.offers + [o], files := c.files + [PendingFile(|c.offers|, fd, offset, count)]);
    DrainFrame(c1, replies);
    DrainStill(c1, replies);
  }

  lemma {:induction false} HandleWriteNeeded(c: Conn, reply: WriteReply, replies: seq<FileReply>)
    requires Needed(c)
    ensures Needed(HandleWrite(c, reply, replies))
  {
    var n := Written(reply, |c.out|);
    var c1 := c.(wire := c.wire + Datas(c.out[..n]), out := c.out[n..]);
    DrainFrame(c1, replies);
    DrainStill(c1, replies);
  }

  lemma {:induction false} StepNeeded(c: Conn, e: Event)
    requires Needed(c) && Flows(c)
    ensures Needed(Step(c, e))
  {
    match e
    case ESendIov(slices, reply) =>
      if slices != [] {
        SlicesSplit(slices, Min(|slices|, MAX_IOV));
      }
    case ESendFile(fd, offset, count, replies) => SendFileNeeded(c, fd, offset, count, replies);
    case EWritable(reply, replies) => HandleWriteNeeded(c, reply, replies);
    case _ =>
  }

  lemma {:induction false} RunNeeded(es: seq<Event>)
    requires AllFit(es)
    ensures Needed(RunAll(FRESH, es))
    decreases |es|
  {
    if es != [] {
      var init := es[..|es| - 1];
      RunNeeded(init);
      RunKeeps(init);
      StepNeeded(RunAll(FRESH, init), es[|es| - 1]);
    }
  }

  /** In every run write interest is on exactly while something waits on a connection that is not disconnected. */
  lemma {:induction false} InterestIff(es: seq<Event>)
    requires AllFit(es)
    ensures var c := RunAll(FRESH, es);
            c.writing <==> c.state != Disconnected && (c.out != [] || c.files != [])
  {
    RunNeeded(es);
    RunKeeps(es);
  }

  /** A connection shut down and not closed since is half-closed exactly once everything handed over is out. */
  lemma {:induction false} HalfCloseIff(es: seq<Event>)
    requires AllFit(es) && Ended(es) && EClose !in es && !Dropped(es)
    ensures var c := RunAll(FRESH, es);
            c.shut == (if c.out == [] && c.files == [] then 1 else 0)
  {
    StateIs(es);
    InterestIff(es);
    RunKeeps(es);
  }

  // ------------------------------------------------------------------ the kernel takes everything

  /** Every waiting file is answered with all that is left of it, and that is no more than one call may send. */
  predicate Covers(files: seq<PendingFile>, replies: seq<FileReply>) {
    && |files| <= |replies|
    && (forall i | 0 <= i < |files| ::
          && replies[i].Sent? && 0 < files[i].remaining <= replies[i].n
          && files[i].remaining <= 64 * 1024 * 1024)
  }

  lemma {:induction false} DrainCovered(c: Conn, replies: seq<FileReply>)
    requires Covers(c.files, replies)
    ensures var d := Drain(c, replies);
            !d.still && d.c.files == [] && d.c.closed == c.closed + Ids(c.files) && d.c.cut == c.cut
    decreases |replies|
  {
    if c.files == [] {
      assert c.closed + Ids(c.files) == c.closed;
    } else {
      var t := DrainTurn(c, replies[0]);
      assert Covers(c.files[1..], replies[1..]);
      DrainCovered(t.c, replies[1..]);
      assert Ids(c.files) == [c.files[0].id] + Ids(c.files[1..]);
      assert (c.closed + [c.files[0].id]) + Ids(c.files[1..]) == c.closed + Ids(c.files);
    }
  }

  /**
   A writable event whose answers take all that waits empties the connection: every message handed over is on the wire,
   every waiting file is closed and not given up, interest is off, and a half-close that was asked for has happened.
   */
  lemma {:induction false} WritableEmpties(es: seq<Event>, n: nat, replies: seq<FileReply>)
    requires AllFit(es) && AllUnbroken(es) && EClose !in es && !Dropped(es)
    requires n >= |RunAll(FRESH, es).out| && Covers(RunAll(FRESH, es).files, replies)
    ensures var (c, r) := (RunAll(FRESH, es), RunAll(FRESH, es + [EWritable(Wrote(n), replies)]));
            && DataOf(r.wire) == HandedOver(es) && r.out == [] && r.files == [] && !r.writing
            && r.closed == c.closed + Ids(c.files) && r.cut == c.cut
            && r.shut == (if Ended(es) then 1 else 0)
  {
    var e := EWritable(Wrote(n), replies);
    var c, all := RunAll(FRESH, es), es + [e];
    assert all[..|es|] == es && all[|es|] == e;
    ReadyToWrite(es);
    WritableStep(c, n, replies);
  }

  /** What a run that was not closed has for its next writable event. */
  lemma {:induction false} ReadyToWrite(es: seq<Event>)
    requires AllFit(es) && AllUnbroken(es) && EClose !in es && !Dropped(es)
    ensures var c := RunAll(FRESH, es);
            && MessagesInv(c) && c.accepted == HandedOver(es) && (!c.writing ==> c.out == [] && c.files == [])
            && c.state == if Ended(es) then Disconnecting else Connected
  {
    StateIs(es);
    InterestIff(es);
    AcceptedIs(es);
    RunKeeps(es);
  }

  lemma {:induction false} WritableStep(c: Conn, n: nat, replies: seq<FileReply>)
    requires MessagesInv(c) && (c.state == Connected || c.state == Disconnecting)
    requires n >= |c.out| && Covers(c.files, replies) && (!c.writing ==> c.out == [] && c.files == [])
    ensures var r := HandleWrite(c, Wrote(n), replies);
            && DataOf(r.wire) == c.accepted && r.out == [] && r.files == [] && !r.writing
            && r.closed == c.closed + Ids(c.files) && r.cut == c.cut
            && r.shut == (if c.state == Disconnecting then 1 else 0)
  {
    HandleWriteKeepsMessages(c, Wrote(n), replies);
    StepAccepted(c, EWritable(Wrote(n), replies));
    StepState(c, EWritable(Wrote(n), replies));
    WritableOut(c, n, replies);
    var r := HandleWrite(c, Wrote(n), replies);
    assert r.accepted == c.accepted && r.state == c.state;
    assert Conserves(r) && ShutOnce(r) && DataOf(r.wire) + [] == DataOf(r.wire);
  }

  lemma {:induction false} WritableOut(c: Conn, n: nat, replies: seq<FileReply>)
    requires n >= |c.out| && Covers(c.files, replies) && (!c.writing ==> c.out == [] && c.files == [])
    ensures var r := HandleWrite(c, Wrote(n), replies);
            r.out == [] && r.files == [] && !r.writing && r.closed == c.closed + Ids(c.files) && r.cut == c.cut
  {
    if c.writing {
      var c1 := c.(wire := c.wire + Datas(c.out[..|c.out|]), out := c.out[|c.out|..]);
      DrainFrame(c1, replies);
      DrainCovered(c1, replies);
    } else {
      assert c.closed + Ids(c.files) == c.closed;
    }
  }

  /** With nothing waiting, a message goes straight to the kernel, and what the kernel takes is on the wire. */
  lemma {:induction false} SentAtOnce(es: seq<Event>, e: Event, n: nat)
    requires AllFit(es) && Fits(e) && AllUnbroken(es) && !Ended(es)
    requires RunAll(FRESH, es).out == [] && RunAll(FRESH, es).files == []
    requires (e.ESend? || e.ESendIov?) && e.reply == Wrote(n)
    ensures DataOf(Step(RunAll(FRESH, es), e).wire) == HandedOver(es) + Payload(e)[..Min(n, |Payload(e)|)]
  {
    IdleRun(es);
    StraightOut(RunAll(FRESH, es), e, n);
  }

  lemma {:induction false} IdleRun(es: seq<Event>)
    requires AllFit(es) && AllUnbroken(es) && !Ended(es)
    requires RunAll(FRESH, es).out == [] && RunAll(FRESH, es).files == []
    ensures var c := RunAll(FRESH, es); c.state == Connected && !c.writing && DataOf(c.wire) == HandedOver(es)
  {
    StateIs(es);
    InterestIff(es);
    MessagesArrive(es);
  }

  lemma {:induction false} StraightOut(c: Conn, e: Event, n: nat)
    requires c.state == Connected && !c.writing && c.out == [] && Fits(e)
    requires (e.ESend? || e.ESendIov?) && e.reply == Wrote(n)
    ensures DataOf(Step(c, e).wire) == DataOf(c.wire) + Payload(e)[..Min(n, |Payload(e)|)]
  {
    var taken := Payload(e)[..Min(n, |Payload(e)|)];
    if e.ESendIov? {
      assert e.slices[..|e.slices|] == e.slices;
      assert Datas([]) == [] && c.wire + [] == c.wire;
    }
    assert Step(c, e).wire == c.wire + Datas(taken);
    DataOnWire(c.wire, taken);
  }

  // ------------------------------------------------------------------ files

  /** A call of sendFile that leaves a trace, and whether it came in time with something to send. */
  datatype Request = Request(fd: int, offset: nat, count: nat, taken: bool)

  ghost function Requests(es: seq<Event>): (r: seq<Request>) {
    if es == [] then []
    else
      var init := es[..|es| - 1];
      Requests(init) +
      match es[|es| - 1]
      case ESendFile(fd, offset, count, _) =>
        var taken := !Ended(init) && count > 0;
        if taken || fd >= 0 then [Request(fd, offset, count, taken)] else []
      case _ => []
  }

  /** sendfile neither fails nor reports the end of the file early. */
  predicate Serves(replies: seq<FileReply>) {
    forall i | 0 <= i < |replies| :: replies[i].Again? || (replies[i].Sent? && replies[i].n > 0)
  }

  predicate Served(e: Event) {
    (e.ESendFile? ==> Serves(e.replies)) && (e.EWritable? ==> Serves(e.replies))
  }

  ghost predicate AllServed(es: seq<Event>) { forall i | 0 <= i < |es| :: Served(es[i]) }

  lemma {:induction false} DrainServed(c: Conn, replies: seq<FileReply>)
    requires Serves(replies) && Queued(c)
    ensures Drain(c, replies).c.cut == c.cut
    decreases |replies|
  {
    if c.files != [] {
      var reply := if replies == [] then Again else replies[0];
      TurnKeepsQueued(c, reply);
      var t := DrainTurn(c, reply);
      if t.go && replies != [] {
        DrainServed(t.c, replies[1..]);
      }
    }
  }

  /** The offers are the requests, and exactly those not taken have been given up. */
  ghost predicate Matches(c: Conn, rs: seq<Request>) {
    && |c.offers| == |rs|
    && (forall i | 0 <= i < |rs| ::
          c.offers[i].fd == rs[i].fd && c.offers[i].offset == rs[i].offset && c.offers[i].count == rs[i].count)
    && (forall i: nat :: i in c.cut <==> i < |rs| && !rs[i].taken)
  }

  lemma {:induction false} SendFileMatches(c: Conn, fd: int, offset: nat, count: nat, replies: seq<FileReply>,
                                           rs: seq<Request>)
    requires Matches(c, rs) && Queued(c) && Serves(replies)
    ensures var taken := c.state == Connected && count > 0;
            Matches(SendFile(c, fd, offset, count, replies),
                    rs + if taken || fd >= 0 then [Request(fd, offset, count, taken)] else [])
  {
    var o := Offer(fd, offset, count, |c.accepted|);
    var c1 := c.(offers := c.offers + [o], files := c.files + [PendingFile(|c.offers|, fd, offset, count)]);
    if c.state == Connected && count > 0 {
      OfferKeepsQueued(c, o, true, c1);
      DrainServed(c1, replies);
      DrainFrame(c1, replies);
      SameOffers(c1, SendFile(c, fd, offset, count, replies), rs + [Request(fd, offset, count, true)]);
    } else {
      assert rs + [] == rs;
    }
  }

  lemma {:induction false} SameOffers(c: Conn, r: Conn, rs: seq<Request>)
    requires Matches(c, rs) && r.offers == c.offers && r.cut == c.cut
    ensures Matches(r, rs)
  {
  }

  lemma {:induction false} StepMatches(c: Conn, e: Event, rs: seq<Request>)
    requires Matches(c, rs) && Inv(c) && Served(e) && !e.ESendFile?
    ensures Matches(Step(c, e), rs)
  {
    if e.EWritable? {
      WritableServed(c, e.reply, e.replies);
    }
    SameOffers(c, Step(c, e), rs);
  }

  lemma {:induction false} WritableServed(c: Conn, reply: WriteReply, replies: seq<FileReply>)
    requires FilesInv(c) && Serves(replies)
    ensures HandleWrite(c, reply, replies).offers == c.offers && HandleWrite(c, reply, replies).cut == c.cut
  {
    var n := Written(reply, |c.out|);
    var c1 := c.(wire := c.wire + Datas(c.out[..n]), out := c.out[n..]);
    DataKeepsFiles(c, c.out[..n], c1);
    DrainServed(c1, replies);
    DrainFrame(c1, replies);
  }

  lemma {:induction false} RunMatches(es: seq<Event>)
    requires AllFit(es) && AllServed(es)
    ensures Matches(RunAll(FRESH, es), Requests(es))
    decreases |es|
  {
    if es != [] {
      var init, e := es[..|es| - 1], es[|es| - 1];
      RunMatches(init);
      RunKeeps(init);
      StateIs(init);
      assert Served(e);
      if e.ESendFile? {
        SendFileMatches(RunAll(FRESH, init), e.fd, e.offset, e.count, e.replies, Requests(init));
      } else {
        StepMatches(RunAll(FRESH, init), e, Requests(init));
        assert Requests(init) + [] == Requests(init);
      }
    }
  }

  /**
   In every run in which sendfile does not fail, a file handed over in time is waiting in the queue, or closed with
   every byte of its range on the wire in order.
   */
  lemma {:induction false} FilesArrive(es: seq<Event>, id: nat)
    requires AllFit(es) && AllServed(es) && id < |Requests(es)| && Requests(es)[id].taken
    ensures var (c, q) := (RunAll(FRESH, es), Requests(es)[id]);
            id in Ids(c.files) || (id in c.closed && OffsetsOf(c.wire, id) == Range(q.offset, q.count))
  {
    RunMatches(es);
    RunKeeps(es);
    var c := RunAll(FRESH, es);
    OnceInRange(0, |c.offers|, id);
    assert id in multiset(c.closed) + multiset(Ids(c.files));
    if id !in Ids(c.files) {
      assert Sliced(c, id);
    }
  }
}
