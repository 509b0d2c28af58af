/**
 The output side of a TCP connection as a state machine over its loop-thread operations. The kernel's
 answers to write, writev and sendfile are part of each event, so a statement about
 all runs is a statement about all short writes, full socket buffers and errors.
 */
module TcpOutput {
  import opened Bytes

  datatype ConnState = Connecting | Connected | Disconnecting | Disconnected

  /** A file in the queue; id is its number in the order files were handed over. */
  datatype PendingFile = PendingFile(id: nat, fd: int, offset: nat, remaining: nat)

  /** A file as it was handed over, and how many message bytes had been accepted before it. */
  datatype Offer = Offer(fd: int, offset: nat, count: nat, before: nat)

  /** What the peer receives: message bytes, and bytes of files at their offsets. */
  datatype Item = Data(b: byte) | FileByte(id: nat, offset: nat)

  /** write and writev: some bytes went out, none could for now, another error, or a broken connection. */
  datatype WriteReply = Wrote(n: nat) | WouldBlock | OtherError | Broken

  /** sendfile: some bytes went out (none at all is the end-of-file case), none could for now, or an error. */
  datatype FileReply = Sent(n: nat) | Again | Failed

  datatype Conn = Conn(
    state: ConnState,
    writing: bool,              // EPOLLOUT interest of the channel
    out: seq<byte>,             // contents of outputBuffer_
    files: seq<PendingFile>,    // pendingFiles_
    wire: seq<Item>,            // everything written to the socket, in order
    accepted: seq<byte>,        // all messages taken by send and sendIov, in call order
    offers: seq<Offer>,         // all files handed to sendFile
    closed: seq<nat>,           // ids of the files closed, in order
    cut: set<nat>,              // files given up before their last byte
    shut: nat)                  // how often the write side was shut down

  const BATCH: nat := 64 * 1024 * 1024
  const MAX_IOV: nat := 16

  function Min(a: nat, b: nat): (r: nat) { if a < b then a else b }

  function Datas(s: seq<byte>): (r: seq<Item>) { seq(|s|, i requires 0 <= i < |s| => Data(s[i])) }

  function FileBytes(id: nat, offset: nat, n: nat): (r: seq<Item>) {
    seq(n, i requires 0 <= i < n => FileByte(id, offset + i))
  }

  /** The message bytes among what was written. */
  function DataOf(wire: seq<Item>): (r: seq<byte>) {
    if wire == [] then []
    else
      var last := wire[|wire| - 1];
      DataOf(wire[..|wire| - 1]) + if last.Data? then [last.b] else []
  }

  /** The offsets of one file's bytes among what was written. */
  function OffsetsOf(wire: seq<Item>, id: nat): (r: seq<nat>) {
    if wire == [] then []
    else
      var last := wire[|wire| - 1];
      OffsetsOf(wire[..|wire| - 1], id) + if last.FileByte? && last.id == id then [last.offset] else []
  }

  // ------------------------------------------------------------------ operations

  /** How much of len bytes a write got rid of. */
  function Written(reply: WriteReply, len: nat): (n: nat)
    ensures n <= len
  {
    if reply.Wrote? then Min(reply.n, len) else 0
  }

  function SendInLoop(c: Conn, msg: seq<byte>, reply: WriteReply): (r: Conn) {
    if c.state == Disconnected then c
    else if !c.writing && c.out == [] then
      var n := Written(reply, |msg|);
      var c1 := c.(wire := c.wire + Datas(msg[..n]));
      if reply.Broken? then c1
      else
        var c2 := c1.(accepted := c.accepted + msg);
        if n < |msg| then c2.(out := c.out + msg[n..], writing := true) else c2
    else
      var c1 := c.(accepted := c.accepted + msg);
      if |msg| > 0 then c1.(out := c.out + msg, writing := true) else c1
  }

  function Send(c: Conn, msg: seq<byte>, reply: WriteReply): (r: Conn) {
    if c.state == Connected then SendInLoop(c, msg, reply) else c
  }

  lemma {:induction false} SlicesSplit(slices: seq<seq<byte>>, k: nat)
    requires k <= |slices|
    ensures Concat(slices) == Concat(slices[..k]) + Concat(slices[k..])
  {
    assert slices == slices[..k] + slices[k..];
    ConcatAppend(slices[..k], slices[k..]);
  }

  function SendIov(c: Conn, slices: seq<seq<byte>>, reply: WriteReply): (r: Conn) {
    if slices == [] || c.state != Connected then c
    else if c.writing || c.out != [] then
      c.(out := c.out + Concat(slices), accepted := c.accepted + Concat(slices), writing := true)
    else
      var k := Min(|slices|, MAX_IOV);
      var iov := Concat(slices[..k]);
      SlicesSplit(slices, k);
      var n := Written(reply, |iov|);
      var c1 := c.(wire := c.wire + Datas(iov[..n]));
      if reply.Broken? then c1
      else
        var c2 := c1.(accepted := c.accepted + Concat(slices));
        if n < |iov| then c2.(out := Concat(slices)[n..], writing := true) else c2
  }

  datatype Drained = Drained(c: Conn, still: bool)

  /** One turn of the loop in drainPendingFiles; go says whether to look at the next file. */
  datatype Turn = Turn(c: Conn, go: bool, still: bool)

  function GiveUp(c: Conn): (r: Conn)
    requires c.files != []
  {
    c.(files := c.files[1..], closed := c.closed + [c.files[0].id], cut := c.cut + {c.files[0].id})
  }

  /** What sendfile is asked for and grants. */
  function Granted(f: PendingFile, n: nat): (r: nat)
    ensures r <= f.remaining
  {
    Min(n, Min(f.remaining, BATCH))
  }

  function DrainTurn(c: Conn, reply: FileReply): (r: Turn)
    requires c.files != []
  {
    var f := c.files[0];
    match reply
    case Again => Turn(c, false, true)
    case Failed => Turn(GiveUp(c), false, |c.files| > 1)
    case Sent(m) =>
      var n := Granted(f, m);
      var wire := c.wire + FileBytes(f.id, f.offset, n);
      if n == 0 then Turn(GiveUp(c), true, false)
      else if n == f.remaining then
        Turn(c.(wire := wire, files := c.files[1..], closed := c.closed + [f.id]), true, false)
      else
        var rest := f.(offset := f.offset + n, remaining := f.remaining - n);
        Turn(c.(wire := wire, files := c.files[0 := rest]), false, true)
  }

  /** drainPendingFiles; when the list of replies runs out the socket buffer is full. */
  function Drain(c: Conn, replies: seq<FileReply>): (r: Drained)
    decreases |replies|
  {
    if c.files == [] then Drained(c, false)
    else
      var t := DrainTurn(c, if replies == [] then Again else replies[0]);
      if t.go && replies != [] then Drain(t.c, replies[1..]) else Drained(t.c, t.still)
  }

  function SendFile(c: Conn, fd: int, offset: nat, count: nat, replies: seq<FileReply>): (r: Conn) {
    var id := |c.offers|;
    if c.state != Connected || count == 0 then
      if fd >= 0 then
        c.(offers := c.offers + [Offer(fd, offset, count, |c.accepted|)], closed := c.closed + [id],
           cut := c.cut + {id})
      else c
    else
      var c1 := c.(offers := c.offers + [Offer(fd, offset, count, |c.accepted|)],
                   files := c.files + [PendingFile(id, fd, offset, count)]);
      if c.writing || c.out != [] then c1.(writing := true)
      else
        var d := Drain(c1, replies);
        if d.still then d.c.(writing := true) else d.c
  }

  function ShutdownInLoop(c: Conn): (r: Conn) {
    if !c.writing then c.(shut := c.shut + 1) else c
  }

  function Shutdown(c: Conn): (r: Conn) {
    if c.state == Connected then ShutdownInLoop(c.(state := Disconnecting)) else c
  }

  function HandleWrite(c: Conn, reply: WriteReply, replies: seq<FileReply>): (r: Conn) {
    if !c.writing then c
    else
      var n := Written(reply, |c.out|);
      if c.out != [] && n == 0 then c
      else
        var c1 := c.(wire := c.wire + Datas(c.out[..n]), out := c.out[n..]);
        if c1.out != [] then c1
        else
          AfterFlush(c1, replies)
  }

  /** handleWrite with the buffer empty: the files, then write interest off and the half-close that was waiting. */
  function AfterFlush(c: Conn, replies: seq<FileReply>): (r: Conn) {
    var d := Drain(c, replies);
    if d.still then d.c
    else
      var c2 := d.c.(writing := false);
      if c2.state == Disconnecting then ShutdownInLoop(c2) else c2
  }

  function HandleClose(c: Conn): (r: Conn) {
    c.(state := Disconnected, writing := false)
  }

  function ConnectDestroyed(c: Conn): (r: Conn) {
    if c.state == Connected then HandleClose(c) else c
  }

  function Ids(files: seq<PendingFile>): (r: seq<nat>) {
    seq(|files|, i requires 0 <= i < |files| => files[i].id)
  }

  /** The destructor: closePendingFiles. */
  function Destroy(c: Conn): (r: Conn) {
    c.(files := [], closed := c.closed + Ids(c.files), cut := c.cut + set i | i in Ids(c.files))
  }

  // ------------------------------------------------------------------ runs

  datatype Event =
    | ESend(msg: seq<byte>, reply: WriteReply)
    | ESendIov(slices: seq<seq<byte>>, reply: WriteReply)
    | ESendFile(fd: int, offset: nat, count: nat, replies: seq<FileReply>)
    | EWritable(reply: WriteReply, replies: seq<FileReply>)
    | EShutdown
    | EClose
    | EDestroyed

  function Step(c: Conn, e: Event): (r: Conn) {
    match e
    case ESend(msg, reply) => Send(c, msg, reply)
    case ESendIov(slices, reply) => SendIov(c, slices, reply)
    case ESendFile(fd, offset, count, replies) => SendFile(c, fd, offset, count, replies)
    case EWritable(reply, replies) => HandleWrite(c, reply, replies)
    case EShutdown => Shutdown(c)
    case EClose => HandleClose(c)
    case EDestroyed => ConnectDestroyed(c)
  }

  function RunAll(c: Conn, es: seq<Event>): (r: Conn) {
    if es == [] then c else Step(RunAll(c, es[..|es| - 1]), es[|es| - 1])
  }

  /** A connection just established. */
  const FRESH: Conn := Conn(Connected, false, [], [], [], [], [], [], {}, 0)

  /** The one restriction on callers: sendIov hands its first sixteen slices to writev. */
  predicate Fits(e: Event) {
    e.ESendIov? ==> |e.slices| <= 16
  }

  ghost predicate AllFit(es: seq<Event>) {
    forall i | 0 <= i < |es| :: Fits(es[i])
  }

  // ------------------------------------------------------------------ what was written

  lemma {:induction false} DataOfAppend(a: seq<Item>, b: seq<Item>)
    ensures DataOf(a + b) == DataOf(a) + DataOf(b)
    decreases |b|
  {
    if b == [] {
      assert a + b == a;
    } else {
      var c := b[..|b| - 1];
      assert (a + b)[..|a + b| - 1] == a + c;
      DataOfAppend(a, c);
    }
  }

  lemma {:induction false} OffsetsOfAppend(a: seq<Item>, b: seq<Item>, id: nat)
    ensures OffsetsOf(a + b, id) == OffsetsOf(a, id) + OffsetsOf(b, id)
    decreases |b|
  {
    if b == [] {
      assert a + b == a;
    } else {
      var c := b[..|b| - 1];
      assert (a + b)[..|a + b| - 1] == a + c;
      OffsetsOfAppend(a, c, id);
    }
  }

  lemma {:induction false} DatasAre(s: seq<byte>, id: nat)
    ensures DataOf(Datas(s)) == s && OffsetsOf(Datas(s), id) == []
    decreases |s|
  {
    if s != [] {
      var t := s[..|s| - 1];
      assert Datas(s)[..|s| - 1] == Datas(t);
      DatasAre(t, id);
    }
  }

  function Range(from: nat, n: nat): (r: seq<nat>) { seq(n, i requires 0 <= i < n => from + i) }

  lemma {:induction false} FileBytesAre(f: nat, offset: nat, n: nat, id: nat)
    ensures DataOf(FileBytes(f, offset, n)) == []
    ensures OffsetsOf(FileBytes(f, offset, n), id) == if id == f then Range(offset, n) else []
    decreases n
  {
    if n > 0 {
      assert FileBytes(f, offset, n)[..n - 1] == FileBytes(f, offset, n - 1);
      FileBytesAre(f, offset, n - 1, id);
      assert Range(offset, n) == Range(offset, n - 1) + [offset + n - 1];
    } else {
      assert Range(offset, n) == [];
    }
  }

  // ------------------------------------------------------------------ invariants

  /** Bytes or files that wait are waited for: the channel asks for writability. */
  ghost predicate Flows(c: Conn) {
    c.state != Disconnected && (c.out != [] || c.files != []) ==> c.writing
  }

  /** Nothing lost, nothing twice, nothing out of order: the accepted messages are on the wire or in the buffer. */
  ghost predicate Conserves(c: Conn) {
    DataOf(c.wire) + c.out == c.accepted
  }

  /** Half-close at most once, with nothing left to send; and a requested one happens once the output idles. */
  ghost predicate ShutOnce(c: Conn) {
    && c.shut <= 1
    && (c.shut == 1 ==> c.out == [] && c.files == [] && !c.writing &&
                        (c.state == Disconnecting || c.state == Disconnected))
    && (c.state == Disconnecting ==> c.writing || c.shut == 1)
  }

  /** Every file is either waiting or closed, and that once. */
  ghost predicate FilesOnce(c: Conn) {
    multiset(c.closed) + multiset(Ids(c.files)) == multiset(Range(0, |c.offers|))
  }

  /** The queue is in the order of the offers, and no file ahead of another is still to come. */
  ghost predicate Queued(c: Conn) {
    && (forall i | 0 <= i < |c.files| :: c.files[i].id < |c.offers| && c.files[i].remaining > 0)
    && (forall i, j | 0 <= i < j < |c.files| :: c.files[i].id < c.files[j].id)
    && (forall k | 0 <= k < |c.wire| && c.wire[k].FileByte? :: c.wire[k].id < |c.offers|)
    && (forall k, i | 0 <= k < |c.wire| && c.wire[k].FileByte? && 0 <= i < |c.files| :: c.wire[k].id <= c.files[i].id)
    && (forall k, l | 0 <= k < l < |c.wire| && c.wire[k].FileByte? && c.wire[l].FileByte? ::
          c.wire[k].id <= c.wire[l].id)
  }

  /** A file's bytes come after every message byte accepted before the file. */
  ghost predicate Follows(c: Conn) {
    && (forall i | 0 <= i < |c.offers| :: c.offers[i].before <= |c.accepted|)
    && (forall k | 0 <= k < |c.wire| && c.wire[k].FileByte? ::
          c.wire[k].id < |c.offers| && c.offers[c.wire[k].id].before <= |DataOf(c.wire[..k])|)
  }

  /** What went out of a file is its first bytes in order. */
  ghost predicate Sliced(c: Conn, id: nat)
    requires id < |c.offers|
  {
    var sent := OffsetsOf(c.wire, id);
    sent == Range(c.offers[id].offset, |sent|) && |sent| <= c.offers[id].count
  }

  /** And all of them, if the file is closed without having been given up. */
  ghost predicate Whole(c: Conn) {
    && (forall id | 0 <= id < |c.offers| :: Sliced(c, id))
    && (forall i | 0 <= i < |c.files| :: Remains(c, c.files[i]))
    && (forall id | id in c.closed && id !in c.cut :: id < |c.offers| && |OffsetsOf(c.wire, id)| == c.offers[id].count)
    && (forall k | 0 <= k < |c.wire| && c.wire[k].FileByte? :: c.wire[k].id < |c.offers|)
  }

  ghost predicate Remains(c: Conn, f: PendingFile) {
    && f.id < |c.offers|
    && f.offset == c.offers[f.id].offset + |OffsetsOf(c.wire, f.id)|
    && f.remaining == c.offers[f.id].count - |OffsetsOf(c.wire, f.id)|
  }
}
