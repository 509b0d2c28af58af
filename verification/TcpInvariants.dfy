/** What every run of the output state machine keeps. */
module TcpInvariants {
  import opened Bytes
  import opened TcpOutput

  // ------------------------------------------------------------------ draining files

  /** Draining touches neither messages nor the connection's state, and stops early only with files left. */
  lemma {:induction false} DrainFrame(c: Conn, replies: seq<FileReply>)
    ensures var d := Drain(c, replies);
            && d.c.state == c.state && d.c.writing == c.writing && d.c.out == c.out && d.c.shut == c.shut
            && d.c.accepted == c.accepted && d.c.offers == c.offers
            && DataOf(d.c.wire) == DataOf(c.wire) && (!d.still ==> d.c.files == [])
    decreases |replies|
  {
    if c.files != [] {
      var reply := if replies == [] then Again else replies[0];
      TurnFrame(c, reply);
      var t := DrainTurn(c, reply);
      if t.go && replies != [] {
        DrainFrame(t.c, replies[1..]);
      }
    }
  }

  lemma {:induction false} TurnFrame(c: Conn, reply: FileReply)
    requires c.files != []
    ensures var t := DrainTurn(c, reply);
            && t.c.state == c.state && t.c.writing == c.writing && t.c.out == c.out && t.c.shut == c.shut
            && t.c.accepted == c.accepted && t.c.offers == c.offers
            && DataOf(t.c.wire) == DataOf(c.wire) && (!t.go && !t.still ==> t.c.files == [])
  {
    if reply.Sent? {
      var f := c.files[0];
      var n := Granted(f, reply.n);
      FileBytesAre(f.id, f.offset, n, 0);
      DataOfAppend(c.wire, FileBytes(f.id, f.offset, n));
    }
  }

  lemma {:induction false} IdsFirst(files: seq<PendingFile>)
    requires files != []
    ensures multiset(Ids(files)) == multiset{files[0].id} + multiset(Ids(files[1..]))
  {
    assert Ids(files) == [files[0].id] + Ids(files[1..]);
  }

  lemma {:induction false} TurnKeepsFilesOnce(c: Conn, reply: FileReply)
    requires c.files != [] && FilesOnce(c)
    ensures FilesOnce(DrainTurn(c, reply).c)
  {
    var t := DrainTurn(c, reply).c;
    if |t.files| < |c.files| {
      ClosedFirst(c, t);
    } else {
      assert Ids(t.files) == Ids(c.files);
    }
  }

  lemma {:induction false} ClosedFirst(c: Conn, t: Conn)
    requires c.files != [] && FilesOnce(c)
    requires t.files == c.files[1..] && t.closed == c.closed + [c.files[0].id] && t.offers == c.offers
    ensures FilesOnce(t)
  {
    IdsFirst(c.files);
  }

  /** Files whose bytes reach the wire do so in the order of the queue. */
  lemma {:induction false} TurnKeepsQueued(c: Conn, reply: FileReply)
    requires c.files != [] && Queued(c)
    ensures Queued(DrainTurn(c, reply).c)
  {
    var f, t := c.files[0], DrainTurn(c, reply).c;
    var more := if reply.Sent? then FileBytes(f.id, f.offset, Granted(f, reply.n)) else [];
    assert t.wire == c.wire + more;
    QueuedMore(c, t, more);
  }

  /** More bytes of the first file, which then stays first or leaves. */
  lemma {:induction false} QueuedMore(c: Conn, t: Conn, more: seq<Item>)
    requires c.files != [] && Queued(c) && t.offers == c.offers && t.wire == c.wire + more
    requires forall k | 0 <= k < |more| && more[k].FileByte? :: more[k].id == c.files[0].id
    requires t.files == c.files[1..] ||
             (|t.files| == |c.files| && t.files[1..] == c.files[1..] &&
              t.files[0].id == c.files[0].id && t.files[0].remaining > 0)
    ensures Queued(t)
  {
    var f, d := c.files[0], |c.files| - |t.files|;
    forall i | 0 <= i < |t.files| ensures t.files[i].id == c.files[i + d].id && t.files[i].remaining > 0 {
      assert i > 0 && d == 0 ==> t.files[i] == t.files[1..][i - 1];
    }
    forall k | 0 <= k < |t.wire| && t.wire[k].FileByte?
      ensures t.wire[k].id <= f.id && (k < |c.wire| ==> t.wire[k] == c.wire[k]) &&
              (k >= |c.wire| ==> t.wire[k].id == f.id)
    {
    }
  }

  lemma {:induction false} PrefixData(wire: seq<Item>, more: seq<Item>, k: nat)
    requires k <= |wire + more|
    ensures k <= |wire| ==> (wire + more)[..k] == wire[..k]
    ensures k > |wire| ==> DataOf((wire + more)[..k]) == DataOf(wire) + DataOf(more[..k - |wire|])
  {
    if k > |wire| {
      assert (wire + more)[..k] == wire + more[..k - |wire|];
      DataOfAppend(wire, more[..k - |wire|]);
    }
  }

  /** With an empty buffer every accepted byte is out, so a file's bytes may follow. */
  lemma {:induction false} TurnKeepsFollows(c: Conn, reply: FileReply)
    requires c.files != [] && Follows(c) && Conserves(c) && c.out == [] && c.files[0].id < |c.offers|
    ensures Follows(DrainTurn(c, reply).c)
  {
    if reply.Sent? {
      var f := c.files[0];
      var n := Granted(f, reply.n);
      var more := FileBytes(f.id, f.offset, n);
      var wire := c.wire + more;
      assert DataOf(c.wire) == c.accepted;
      forall k | 0 <= k < |wire| && wire[k].FileByte?
        ensures wire[k].id < |c.offers| && c.offers[wire[k].id].before <= |DataOf(wire[..k])|
      {
        PrefixData(c.wire, more, k);
        if k < |c.wire| {
          assert wire[k] == c.wire[k];
        } else {
          assert wire[k] == more[k - |c.wire|];
        }
      }
    }
  }

  lemma {:induction false} RangeAppend(from: nat, a: nat, b: nat)
    ensures Range(from, a) + Range(from + a, b) == Range(from, a + b)
  {
  }

  /** How a turn changes what has gone out of each file. */
  lemma {:induction false} TurnOffsets(c: Conn, reply: FileReply, id: nat)
    requires c.files != []
    ensures var f, t := c.files[0], DrainTurn(c, reply).c;
            OffsetsOf(t.wire, id) == OffsetsOf(c.wire, id) +
              if id == f.id && reply.Sent? then Range(f.offset, Granted(f, reply.n)) else []
  {
    if reply.Sent? {
      var f := c.files[0];
      var n := Granted(f, reply.n);
      FileBytesAre(f.id, f.offset, n, id);
      OffsetsOfAppend(c.wire, FileBytes(f.id, f.offset, n), id);
      if n == 0 {
        assert Range(f.offset, n) == [];
      }
    }
  }

  lemma {:induction false} TurnKeepsSliced(c: Conn, reply: FileReply, id: nat)
    requires c.files != [] && id < |c.offers| && Sliced(c, id) && Remains(c, c.files[0])
    ensures Sliced(DrainTurn(c, reply).c, id)
  {
    var f := c.files[0];
    TurnOffsets(c, reply, id);
    if id == f.id && reply.Sent? {
      RangeAppend(c.offers[id].offset, |OffsetsOf(c.wire, id)|, Granted(f, reply.n));
    }
  }

  lemma {:induction false} TurnKeepsRemains(c: Conn, reply: FileReply, i: nat)
    requires c.files != [] && Queued(c) && i < |DrainTurn(c, reply).c.files|
    requires Remains(c, c.files[i + |c.files| - |DrainTurn(c, reply).c.files|])
    ensures var t := DrainTurn(c, reply).c; Remains(t, t.files[i])
  {
    var j := i + |c.files| - |DrainTurn(c, reply).c.files|;
    assert j > 0 ==> c.files[0].id < c.files[j].id;
    TurnOffsets(c, reply, c.files[j].id);
  }

  lemma {:induction false} TurnKeepsDone(c: Conn, reply: FileReply, id: nat)
    requires c.files != [] && Whole(c) && Queued(c)
    requires var t := DrainTurn(c, reply).c; id in t.closed && id !in t.cut
    ensures var t := DrainTurn(c, reply).c; id < |t.offers| && |OffsetsOf(t.wire, id)| == t.offers[id].count
  {
    var f := c.files[0];
    TurnOffsets(c, reply, id);
    assert Remains(c, f);
    if id in c.closed {
      assert |OffsetsOf(c.wire, id)| == c.offers[id].count;
    }
  }

  lemma {:induction false} TurnKeepsWhole(c: Conn, reply: FileReply)
    requires c.files != [] && Whole(c) && Queued(c)
    ensures Whole(DrainTurn(c, reply).c)
  {
    var t := DrainTurn(c, reply).c;
    assert Remains(c, c.files[0]);
    forall id | 0 <= id < |t.offers| ensures Sliced(t, id) {
      TurnKeepsSliced(c, reply, id);
    }
    forall i | 0 <= i < |t.files| ensures Remains(t, t.files[i]) {
      TurnKeepsRemains(c, reply, i);
    }
    forall id | id in t.closed && id !in t.cut
      ensures id < |t.offers| && |OffsetsOf(t.wire, id)| == t.offers[id].count
    {
      TurnKeepsDone(c, reply, id);
    }
  }

  lemma {:induction false} DrainKeepsFiles(c: Conn, replies: seq<FileReply>)
    requires FilesOnce(c) && Queued(c) && Whole(c)
    ensures var d := Drain(c, replies).c; FilesOnce(d) && Queued(d) && Whole(d)
    decreases |replies|
  {
    if c.files != [] {
      var reply := if replies == [] then Again else replies[0];
      TurnKeepsFilesOnce(c, reply);
      TurnKeepsQueued(c, reply);
      TurnKeepsWhole(c, reply);
      var t := DrainTurn(c, reply);
      if t.go && replies != [] {
        DrainKeepsFiles(t.c, replies[1..]);
      }
    }
  }

  lemma {:induction false} DrainKeepsFollows(c: Conn, replies: seq<FileReply>)
    requires Follows(c) && Conserves(c) && c.out == [] && Queued(c)
    ensures Follows(Drain(c, replies).c)
    decreases |replies|
  {
    if c.files != [] {
      var reply := if replies == [] then Again else replies[0];
      TurnFrame(c, reply);
      TurnKeepsFollows(c, reply);
      TurnKeepsQueued(c, reply);
      var t := DrainTurn(c, reply);
      if t.go && replies != [] {
        DrainKeepsFollows(t.c, replies[1..]);
      }
    }
  }

  // ------------------------------------------------------------------ operations

  ghost predicate MessagesInv(c: Conn) { Flows(c) && Conserves(c) && ShutOnce(c) }

  ghost predicate FilesInv(c: Conn) { FilesOnce(c) && Queued(c) && Follows(c) && Whole(c) }

  ghost predicate Inv(c: Conn) { MessagesInv(c) && FilesInv(c) }

  /** Message bytes on the wire disturb no file. */
  lemma {:induction false} DataKeepsFiles(c: Conn, b: seq<byte>, c': Conn)
    requires FilesInv(c)
    requires c'.wire == c.wire + Datas(b) && c'.files == c.files && c'.offers == c.offers
    requires c'.closed == c.closed && c'.cut == c.cut && |c.accepted| <= |c'.accepted|
    ensures FilesInv(c')
  {
    forall k | 0 <= k < |c'.wire| && c'.wire[k].FileByte? ensures k < |c.wire| && c'.wire[k] == c.wire[k] {}
    forall k | 0 <= k <= |c.wire| ensures c'.wire[..k] == c.wire[..k] {
      PrefixData(c.wire, Datas(b), k);
    }
    forall id: nat ensures OffsetsOf(c'.wire, id) == OffsetsOf(c.wire, id) {
      DatasAre(b, id);
      OffsetsOfAppend(c.wire, Datas(b), id);
    }
    forall id | 0 <= id < |c'.offers| ensures Sliced(c', id) { assert Sliced(c, id); }
    forall i | 0 <= i < |c'.files| ensures Remains(c', c'.files[i]) { assert Remains(c, c.files[i]); }
  }

  /** Only the interest, the state and the half-close differ. */
  lemma {:induction false} SameFiles(c: Conn, c': Conn)
    requires FilesInv(c)
    requires c'.wire == c.wire && c'.files == c.files && c'.offers == c.offers
    requires c'.closed == c.closed && c'.cut == c.cut && |c.accepted| <= |c'.accepted|
    ensures FilesInv(c')
  {
    assert c.wire + Datas([]) == c.wire;
    DataKeepsFiles(c, [], c');
  }

  lemma {:induction false} DataOnWire(wire: seq<Item>, b: seq<byte>)
    ensures DataOf(wire + Datas(b)) == DataOf(wire) + b
  {
    DatasAre(b, 0);
    DataOfAppend(wire, Datas(b));
  }

  /** Bytes put on the wire from the front, the others kept behind. */
  lemma {:induction false} Cut(sent: seq<byte>, bytes: seq<byte>, n: nat)
    requires n <= |bytes|
    ensures (sent + bytes[..n]) + bytes[n..] == sent + bytes
    ensures n == |bytes| ==> bytes[..n] == bytes && sent + bytes + [] == sent + bytes
  {
  }

  lemma {:induction false} SendConserves(c: Conn, msg: seq<byte>, reply: WriteReply)
    requires Conserves(c)
    ensures Conserves(Send(c, msg, reply))
  {
    var n, sent := Written(reply, |msg|), DataOf(c.wire);
    if c.state == Connected && !c.writing && c.out == [] {
      assert sent + [] == sent;
      DataOnWire(c.wire, msg[..n]);
      Cut(sent, msg, n);
      if reply.Broken? {
        assert sent + msg[..n] == sent;
      }
    } else {
      assert sent + (c.out + msg) == (sent + c.out) + msg;
      assert msg == [] ==> c.accepted + msg == c.accepted;
    }
  }

  lemma {:induction false} SendKeepsMessages(c: Conn, msg: seq<byte>, reply: WriteReply)
    requires MessagesInv(c)
    ensures MessagesInv(Send(c, msg, reply))
  {
    SendConserves(c, msg, reply);
  }

  lemma {:induction false} SendKeepsFiles(c: Conn, msg: seq<byte>, reply: WriteReply)
    requires FilesInv(c)
    ensures FilesInv(Send(c, msg, reply))
  {
    var r := Send(c, msg, reply);
    if c.state == Connected && !c.writing && c.out == [] {
      DataKeepsFiles(c, msg[..Written(reply, |msg|)], r);
    } else {
      SameFiles(c, r);
    }
  }

  lemma {:induction false} SendIovConserves(c: Conn, slices: seq<seq<byte>>, reply: WriteReply)
    requires Conserves(c) && |slices| <= MAX_IOV
    ensures Conserves(SendIov(c, slices, reply))
  {
    var all, sent := Concat(slices), DataOf(c.wire);
    if slices != [] && c.state == Connected {
      if !c.writing && c.out == [] {
        assert slices[..Min(|slices|, MAX_IOV)] == slices;
        assert sent + [] == sent;
        var n := Written(reply, |all|);
        DataOnWire(c.wire, all[..n]);
        Cut(sent, all, n);
        if reply.Broken? {
          assert sent + all[..n] == sent;
        }
      } else {
        assert sent + (c.out + all) == (sent + c.out) + all;
      }
    }
  }

  lemma {:induction false} SendIovKeepsMessages(c: Conn, slices: seq<seq<byte>>, reply: WriteReply)
    requires MessagesInv(c) && |slices| <= MAX_IOV
    ensures MessagesInv(SendIov(c, slices, reply))
  {
    SendIovConserves(c, slices, reply);
  }

  lemma {:induction false} SendIovKeepsFiles(c: Conn, slices: seq<seq<byte>>, reply: WriteReply)
    requires FilesInv(c)
    ensures FilesInv(SendIov(c, slices, reply))
  {
    var r := SendIov(c, slices, reply);
    if slices != [] && c.state == Connected && !c.writing && c.out == [] {
      var iov := Concat(slices[..Min(|slices|, MAX_IOV)]);
      DataKeepsFiles(c, iov[..Written(reply, |iov|)], r);
    } else {
      SameFiles(c, r);
    }
  }

  lemma {:induction false} NoBytesYet(wire: seq<Item>, id: nat)
    requires forall k | 0 <= k < |wire| && wire[k].FileByte? :: wire[k].id < id
    ensures OffsetsOf(wire, id) == []
  {
    if wire != [] {
      NoBytesYet(wire[..|wire| - 1], id);
    }
  }

  lemma {:induction false} OneMore(n: nat)
    ensures multiset(Range(0, n + 1)) == multiset(Range(0, n)) + multiset{n}
  {
    assert Range(0, n + 1) == Range(0, n) + [n];
  }

  /** c' is c with one more file, queued behind the others or refused and closed. */
  ghost predicate OneMoreFile(c: Conn, o: Offer, queued: bool, c': Conn) {
    var id := |c.offers|;
    && o.before == |c.accepted| && (queued ==> o.count > 0)
    && c'.wire == c.wire && c'.accepted == c.accepted && c'.offers == c.offers + [o]
    && c'.files == (if queued then c.files + [PendingFile(id, o.fd, o.offset, o.count)] else c.files)
    && c'.closed == (if queued then c.closed else c.closed + [id])
    && c'.cut == (if queued then c.cut else c.cut + {id})
  }

  lemma {:induction false} OfferKeepsOnce(c: Conn, o: Offer, queued: bool, c': Conn)
    requires FilesOnce(c) && OneMoreFile(c, o, queued, c')
    ensures FilesOnce(c')
  {
    OneMore(|c.offers|);
    if queued {
      assert Ids(c'.files) == Ids(c.files) + [|c.offers|];
    }
  }

  lemma {:induction false} OfferKeepsQueued(c: Conn, o: Offer, queued: bool, c': Conn)
    requires Queued(c) && OneMoreFile(c, o, queued, c')
    ensures Queued(c')
  {
    assert forall i | 0 <= i < |c.files| :: c'.files[i] == c.files[i];
  }

  lemma {:induction false} OfferKeepsFollows(c: Conn, o: Offer, queued: bool, c': Conn)
    requires Follows(c) && OneMoreFile(c, o, queued, c')
    ensures Follows(c')
  {
  }

  lemma {:induction false} OfferKeepsWhole(c: Conn, o: Offer, queued: bool, c': Conn)
    requires Whole(c) && OneMoreFile(c, o, queued, c')
    ensures Whole(c')
  {
    NoBytesYet(c.wire, |c.offers|);
    forall i | 0 <= i < |c'.offers| ensures Sliced(c', i) {
      OfferKeepsSliced(c, o, queued, c', i);
    }
    forall i | 0 <= i < |c'.files| ensures Remains(c', c'.files[i]) {
      assert i < |c.files| ==> Remains(c, c.files[i]);
    }
  }

  lemma {:induction false} OfferKeepsSliced(c: Conn, o: Offer, queued: bool, c': Conn, i: nat)
    requires OneMoreFile(c, o, queued, c') && i <= |c.offers| && OffsetsOf(c.wire, |c.offers|) == []
    requires i < |c.offers| ==> Sliced(c, i)
    ensures Sliced(c', i)
  {
    assert Range(o.offset, 0) == [];
  }

  /** Draining with an empty buffer keeps the files' invariants and the messages. */
  lemma {:induction false} DrainKeeps(c: Conn, replies: seq<FileReply>)
    requires Conserves(c) && c.out == [] && FilesInv(c)
    ensures Conserves(Drain(c, replies).c) && FilesInv(Drain(c, replies).c)
  {
    DrainFrame(c, replies);
    DrainKeepsFiles(c, replies);
    DrainKeepsFollows(c, replies);
  }

  lemma {:induction false} SendFileKeepsFiles(c: Conn, fd: int, offset: nat, count: nat, replies: seq<FileReply>)
    requires FilesInv(c) && Conserves(c)
    ensures FilesInv(SendFile(c, fd, offset, count, replies))
  {
    var o := Offer(fd, offset, count, |c.accepted|);
    var r := SendFile(c, fd, offset, count, replies);
    var queued := c.state == Connected && count > 0;
    var c1 := if queued
              then c.(offers := c.offers + [o], files := c.files + [PendingFile(|c.offers|, fd, offset, count)])
              else r;
    if queued || fd >= 0 {
      OfferKeepsOnce(c, o, queued, c1);
      OfferKeepsQueued(c, o, queued, c1);
      OfferKeepsFollows(c, o, queued, c1);
      OfferKeepsWhole(c, o, queued, c1);
      if queued {
        if c.writing || c.out != [] {
          SameFiles(c1, r);
        } else {
          DrainKeeps(c1, replies);
          SameFiles(Drain(c1, replies).c, r);
        }
      }
    }
  }

  lemma {:induction false} SendFileKeepsMessages(c: Conn, fd: int, offset: nat, count: nat, replies: seq<FileReply>)
    requires MessagesInv(c)
    ensures MessagesInv(SendFile(c, fd, offset, count, replies))
  {
    var o := Offer(fd, offset, count, |c.accepted|);
    var c1 := c.(offers := c.offers + [o], files := c.files + [PendingFile(|c.offers|, fd, offset, count)]);
    DrainFrame(c1, replies);
  }

  /** The first half of handleWrite: what the buffer gets rid of. */
  lemma {:induction false} FlushConserves(c: Conn, n: nat)
    requires Conserves(c) && n <= |c.out|
    ensures Conserves(c.(wire := c.wire + Datas(c.out[..n]), out := c.out[n..]))
  {
    DataOnWire(c.wire, c.out[..n]);
    Cut(DataOf(c.wire), c.out, n);
  }

  lemma {:induction false} HandleWriteKeepsMessages(c: Conn, reply: WriteReply, replies: seq<FileReply>)
    requires MessagesInv(c)
    ensures MessagesInv(HandleWrite(c, reply, replies))
  {
    var n := Written(reply, |c.out|);
    var c1 := c.(wire := c.wire + Datas(c.out[..n]), out := c.out[n..]);
    FlushConserves(c, n);
    DrainFrame(c1, replies);
  }

  lemma {:induction false} HandleWriteKeepsFiles(c: Conn, reply: WriteReply, replies: seq<FileReply>)
    requires FilesInv(c) && Conserves(c)
    ensures FilesInv(HandleWrite(c, reply, replies))
  {
    var n, r := Written(reply, |c.out|), HandleWrite(c, reply, replies);
    if c.writing && !(c.out != [] && n == 0) {
      var c1 := c.(wire := c.wire + Datas(c.out[..n]), out := c.out[n..]);
      DataKeepsFiles(c, c.out[..n], c1);
      if c1.out == [] {
        FlushConserves(c, n);
        DrainKeeps(c1, replies);
        SameFiles(Drain(c1, replies).c, r);
      }
    }
  }

  lemma {:induction false} EndingKeepsFiles(c: Conn)
    requires FilesInv(c)
    ensures FilesInv(Shutdown(c)) && FilesInv(HandleClose(c)) && FilesInv(ConnectDestroyed(c))
  {
    SameFiles(c, Shutdown(c));
    SameFiles(c, HandleClose(c));
  }

  lemma {:induction false} EndingKeepsMessages(c: Conn)
    requires MessagesInv(c)
    ensures MessagesInv(Shutdown(c)) && MessagesInv(HandleClose(c)) && MessagesInv(ConnectDestroyed(c))
  {
  }

  lemma {:induction false} StepKeepsMessages(c: Conn, e: Event)
    requires MessagesInv(c) && Fits(e)
    ensures MessagesInv(Step(c, e))
  {
    match e
    case ESend(msg, reply) => SendKeepsMessages(c, msg, reply);
    case ESendIov(slices, reply) => SendIovKeepsMessages(c, slices, reply);
    case ESendFile(fd, offset, count, replies) => SendFileKeepsMessages(c, fd, offset, count, replies);
    case EWritable(reply, replies) => HandleWriteKeepsMessages(c, reply, replies);
    case _ => EndingKeepsMessages(c);
  }

  lemma {:induction false} StepKeepsFiles(c: Conn, e: Event)
    requires Inv(c)
    ensures FilesInv(Step(c, e))
  {
    match e
    case ESend(msg, reply) => SendKeepsFiles(c, msg, reply);
    case ESendIov(slices, reply) => SendIovKeepsFiles(c, slices, reply);
    case ESendFile(fd, offset, count, replies) => SendFileKeepsFiles(c, fd, offset, count, replies);
    case EWritable(reply, replies) => HandleWriteKeepsFiles(c, reply, replies);
    case _ => EndingKeepsFiles(c);
  }

  lemma {:induction false} StepKeeps(c: Conn, e: Event)
    requires Inv(c) && Fits(e)
    ensures Inv(Step(c, e))
  {
    StepKeepsMessages(c, e);
    StepKeepsFiles(c, e);
  }

  // ------------------------------------------------------------------ runs

  lemma {:induction false} FreshFiles(c: Conn)
    requires c.wire == [] && c.files == [] && c.offers == [] && c.closed == []
    ensures FilesInv(c)
  {
    assert Ids(c.files) == [] && Range(0, 0) == [];
  }

  lemma {:induction false} FreshMessages(c: Conn)
    requires c.wire == [] && c.out == [] && c.accepted == [] && c.files == [] && c.state == Connected
    requires !c.writing && c.shut == 0
    ensures MessagesInv(c)
  {
  }

  lemma {:induction false} FreshInv(c: Conn)
    requires c == FRESH
    ensures Inv(c)
  {
    FreshFiles(c);
    FreshMessages(c);
  }

  /** Every invariant holds after every run, whatever the kernel answered. */
  lemma {:induction false} RunKeeps(es: seq<Event>)
    requires AllFit(es)
    ensures Inv(RunAll(FRESH, es))
  {
    if es == [] {
      FreshInv(FRESH);
    } else {
      RunKeeps(es[..|es| - 1]);
      StepKeeps(RunAll(FRESH, es[..|es| - 1]), es[|es| - 1]);
    }
  }

  /** Message bytes: on the wire, then in the buffer, in call order; and whoever waits is waited for. */
  lemma {:induction false} MessagesConserved(es: seq<Event>)
    requires AllFit(es)
    ensures var c := RunAll(FRESH, es);
            && DataOf(c.wire) + c.out == c.accepted
            && (c.state != Disconnected && (c.out != [] || c.files != []) ==> c.writing)
  {
    RunKeeps(es);
  }

  /** The write side is shut down at most once, and by then every accepted byte and every queued file is out. */
  lemma {:induction false} HalfCloseOnce(es: seq<Event>)
    requires AllFit(es)
    ensures var c := RunAll(FRESH, es);
            c.shut <= 1 && (c.shut == 1 ==> DataOf(c.wire) == c.accepted && c.files == [])
  {
    RunKeeps(es);
  }

  /** Files: first in, first out, each after the messages sent before it, bytes in order, complete unless given up. */
  lemma {:induction false} FilesInOrder(es: seq<Event>)
    requires AllFit(es)
    ensures var c := RunAll(FRESH, es);
            && (forall k, l | 0 <= k < l < |c.wire| && c.wire[k].FileByte? && c.wire[l].FileByte? ::
                  c.wire[k].id <= c.wire[l].id)
            && (forall k | 0 <= k < |c.wire| && c.wire[k].FileByte? ::
                  c.wire[k].id < |c.offers| && c.offers[c.wire[k].id].before <= |DataOf(c.wire[..k])|)
            && (forall id | 0 <= id < |c.offers| :: Sliced(c, id))
            && (forall id | id in c.closed && id !in c.cut ::
                  id < |c.offers| && |OffsetsOf(c.wire, id)| == c.offers[id].count)
  {
    RunKeeps(es);
  }

  /** When the connection is destroyed, every file ever handed over has been closed exactly once. */
  lemma {:induction false} EveryFileClosedOnce(es: seq<Event>, id: nat)
    requires AllFit(es) && id < |RunAll(FRESH, es).offers|
    ensures multiset(Destroy(RunAll(FRESH, es)).closed)[id] == 1
  {
    RunKeeps(es);
    var c := RunAll(FRESH, es);
    assert multiset(Destroy(c).closed) == multiset(c.closed) + multiset(Ids(c.files));
    OnceInRange(0, |c.offers|, id);
  }

  lemma {:induction false} OnceInRange(from: nat, n: nat, id: nat)
    ensures multiset(Range(from, n))[id] == if from <= id < from + n then 1 else 0
  {
    if n > 0 {
      OnceInRange(from, n - 1, id);
      assert Range(from, n) == Range(from, n - 1) + [from + n - 1];
    } else {
      assert Range(from, 0) == [];
    }
  }

  /**
   Beyond sixteen slices sendIov loses bytes: whatever writev answers, everything ends up on the wire or in the
   buffer exactly when there is a backlog already, or the slices past the sixteenth are empty.
   */
  lemma {:induction false} IovConservesIff(c: Conn, slices: seq<seq<byte>>)
    requires Conserves(c) && c.state == Connected && slices != []
    ensures (forall reply: WriteReply :: Conserves(SendIov(c, slices, reply))) <==>
            c.writing || c.out != [] || Concat(slices[Min(|slices|, 16)..]) == []
  {
    var k := Min(|slices|, MAX_IOV);
    SlicesSplit(slices, k);
    var iov, tail := Concat(slices[..k]), Concat(slices[k..]);
    if c.writing || c.out != [] {
      assert forall reply: WriteReply :: SendIov(c, slices, reply) == SendIov(c, slices, WouldBlock);
    } else {
      forall reply: WriteReply
        ensures Conserves(SendIov(c, slices, reply)) <==>
                reply.Broken? || Written(reply, |iov|) < |iov| || tail == []
      {
        IovOutcome(c, slices, reply);
      }
      var whole := Wrote(|iov|);
      assert Conserves(SendIov(c, slices, whole)) <==> tail == [];
    }
  }

  /** Seventeen slices of one byte. */
  function Seventeen(): (slices: seq<seq<byte>>)
    ensures |slices| == 17
  {
    seq(17, i => [65])
  }

  /** On a fresh connection the seventeenth byte is lost when writev takes the other sixteen. */
  lemma {:induction false} SeventeenthSliceLost()
    ensures exists reply: WriteReply :: !Conserves(SendIov(FRESH, Seventeen(), reply))
  {
    var slices, k := Seventeen(), Min(17, MAX_IOV);
    assert slices[k..] == [[65]];
    assert Concat(slices[k..]) == [65] + Concat([]);
    IovConservesIff(FRESH, slices);
  }

  lemma {:induction false} IovOutcome(c: Conn, slices: seq<seq<byte>>, reply: WriteReply)
    requires Conserves(c) && c.state == Connected && slices != [] && !c.writing && c.out == []
    ensures var k := Min(|slices|, MAX_IOV); var iov := Concat(slices[..k]);
            Conserves(SendIov(c, slices, reply)) <==>
            reply.Broken? || Written(reply, |iov|) < |iov| || Concat(slices[k..]) == []
  {
    var k := Min(|slices|, MAX_IOV);
    SlicesSplit(slices, k);
    var iov, tail, all := Concat(slices[..k]), Concat(slices[k..]), Concat(slices);
    IovWritten(c, SendIov(c, slices, reply), iov, tail, all, Written(reply, |iov|), reply.Broken?);
  }

  /** What the outcome of writev means for the bytes: iov was offered, all was accepted, n went out. */
  lemma {:induction false} IovWritten(c: Conn, r: Conn, iov: seq<byte>, tail: seq<byte>, all: seq<byte>, n: nat,
                                      broken: bool)
    requires Conserves(c) && c.out == [] && all == iov + tail && n <= |iov| && (broken ==> n == 0)
    requires r.wire == c.wire + Datas(iov[..n])
    requires r.accepted == if broken then c.accepted else c.accepted + all
    requires r.out == if broken || n == |iov| then [] else all[n..]
    ensures Conserves(r) <==> broken || n < |iov| || tail == []
  {
    DataOnWire(c.wire, iov[..n]);
    assert DataOf(c.wire) == c.accepted;
    BytesBalance(c.accepted, iov, tail, n, broken, r.out, r.accepted);
  }

  lemma {:induction false} BytesBalance(before: seq<byte>, iov: seq<byte>, tail: seq<byte>, n: nat, broken: bool,
                                        out: seq<byte>, accepted: seq<byte>)
    requires n <= |iov| && (broken ==> n == 0)
    requires accepted == if broken then before else before + (iov + tail)
    requires out == if broken || n == |iov| then [] else (iov + tail)[n..]
    ensures before + iov[..n] + out == accepted <==> broken || n < |iov| || tail == []
  {
    if broken {
    } else if n < |iov| {
      assert before + iov[..n] + (iov + tail)[n..] == before + (iov + tail);
    } else {
      assert |before + iov[..n] + out| == |before| + |iov|;
      assert iov[..n] == iov;
    }
  }
}
