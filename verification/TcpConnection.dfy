/** TcpConnection's output path over a real Buffer, proved against the state machine. */
module TcpConnection {
  import opened Bytes
  import opened TcpOutput
  import NetBuffer

  lemma {:induction false} HandleWriteIs(c: Conn, c1: Conn, reply: WriteReply, replies: seq<FileReply>)
    requires c.writing
    requires var n := Written(reply, |c.out|); c1 == c.(wire := c.wire + Datas(c.out[..n]), out := c.out[n..])
    ensures TcpOutput.HandleWrite(c, reply, replies) == if c1.out != [] then c1 else TcpOutput.AfterFlush(c1, replies)
  {
    if c.out != [] && Written(reply, |c.out|) == 0 {
      assert Datas([]) == [] && c1 == c;
    }
  }

  class Connection {
    var state: ConnState
    var writing: bool
    const outputBuffer: NetBuffer.Buffer
    var pendingFiles: seq<PendingFile>

    // The record of what went in and out so far
    var wire: seq<Item>
    var accepted: seq<byte>
    var offers: seq<Offer>
    var closed: seq<nat>
    var cut: set<nat>
    var shut: nat

    ghost predicate Valid()
      reads this, outputBuffer
    {
      outputBuffer.Valid()
    }

    ghost function View(): (c: Conn)
      reads this, outputBuffer, outputBuffer.data
      requires Valid()
    {
      Conn(state, writing, outputBuffer.Contents(), pendingFiles, wire, accepted, offers, closed, cut, shut)
    }

    constructor ()
      ensures Valid() && fresh(outputBuffer) && fresh(outputBuffer.data)
      ensures View() == FRESH.(state := Connecting)
    {
      outputBuffer := new NetBuffer.Buffer(4096);
      state, writing, pendingFiles := Connecting, false, [];
      wire, accepted, offers, closed, cut, shut := [], [], [], [], {}, 0;
    }

    method ConnectEstablished()
      requires Valid()
      modifies this
      ensures Valid() && View() == old(View()).(state := Connected)
    {
      state := Connected;
    }

    method SendMessage(msg: seq<byte>, reply: WriteReply)
      requires Valid()
      modifies this, outputBuffer, outputBuffer.data
      ensures Valid() && (outputBuffer.data == old(outputBuffer.data) || fresh(outputBuffer.data))
      ensures View() == Send(old(View()), msg, reply)
    {
      if state == Connected {
        SendInLoop(msg, reply);
      }
    }

    method SendInLoop(msg: seq<byte>, reply: WriteReply)
      requires Valid()
      modifies this, outputBuffer, outputBuffer.data
      ensures Valid() && (outputBuffer.data == old(outputBuffer.data) || fresh(outputBuffer.data))
      ensures View() == TcpOutput.SendInLoop(old(View()), msg, reply)
    {
      if state == Disconnected {
        return;
      }
      var backlog := outputBuffer.ReadableBytes();
      if !writing && backlog == 0 {
        var nwrote := Written(reply, |msg|);
        wire := wire + Datas(msg[..nwrote]);
        if !reply.Broken? {
          accepted := accepted + msg;
          if nwrote < |msg| {
            Enqueue(msg[nwrote..]);
          }
        }
      } else {
        accepted := accepted + msg;
        if |msg| > 0 {
          Enqueue(msg);
        }
      }
    }

    /** Keeps bytes for the next writable event and asks for it. */
    method Enqueue(rest: seq<byte>)
      requires Valid()
      modifies this`writing, outputBuffer, outputBuffer.data
      ensures Valid() && (outputBuffer.data == old(outputBuffer.data) || fresh(outputBuffer.data))
      ensures writing && outputBuffer.Contents() == old(outputBuffer.Contents()) + rest
    {
      outputBuffer.Append(rest);
      if !writing {
        writing := true;
      }
    }

    /** Appends all slices to the output buffer. */
    method AppendAll(slices: seq<seq<byte>>)
      requires Valid()
      modifies outputBuffer, outputBuffer.data
      ensures Valid() && (outputBuffer.data == old(outputBuffer.data) || fresh(outputBuffer.data))
      ensures outputBuffer.Contents() == old(outputBuffer.Contents()) + Concat(slices)
    {
      var i := 0;
      while i < |slices|
        invariant i <= |slices| && Valid()
        invariant outputBuffer.data == old(outputBuffer.data) || fresh(outputBuffer.data)
        invariant outputBuffer.Contents() == old(outputBuffer.Contents()) + Concat(slices[..i])
      {
        assert slices[..i + 1] == slices[..i] + [slices[i]];
        ConcatSnoc(slices[..i], slices[i]);
        outputBuffer.Append(slices[i]);
        i := i + 1;
      }
      assert slices[..i] == slices;
    }

    /** The loop that skips what writev got rid of and appends the rest. */
    method AppendUnsent(slices: seq<seq<byte>>, nwrote: nat)
      requires Valid() && nwrote <= |Concat(slices)|
      modifies outputBuffer, outputBuffer.data
      ensures Valid() && (outputBuffer.data == old(outputBuffer.data) || fresh(outputBuffer.data))
      ensures outputBuffer.Contents() == old(outputBuffer.Contents()) + Concat(slices)[nwrote..]
    {
      var i: nat, skip: nat := 0, nwrote;
      ghost var goal := Concat(slices)[nwrote..];
      ghost var done := [];
      assert slices[0..] == slices;
      while i < |slices|
        invariant i <= |slices| && Valid() && skip <= |Concat(slices[i..])|
        invariant outputBuffer.data == old(outputBuffer.data) || fresh(outputBuffer.data)
        invariant outputBuffer.Contents() == old(outputBuffer.Contents()) + done
        invariant goal == done + Concat(slices[i..])[skip..]
      {
        ghost var rest := Concat(slices[i + 1..]);
        assert slices[i..][1..] == slices[i + 1..];
        assert Concat(slices[i..]) == slices[i] + rest;
        var segLen := |slices[i]|;
        if skip >= segLen {
          assert (slices[i] + rest)[skip..] == rest[skip - segLen..];
          skip := skip - segLen;
        } else {
          assert (slices[i] + rest)[skip..] == slices[i][skip..] + rest;
          outputBuffer.Append(slices[i][skip..]);
          assert done + (slices[i][skip..] + rest) == (done + slices[i][skip..]) + rest;
          done := done + slices[i][skip..];
          skip := 0;
          assert rest[0..] == rest;
        }
        i := i + 1;
      }
      assert done + [] == done;
    }

    method SendSlices(slices: seq<seq<byte>>, reply: WriteReply)
      requires Valid()
      modifies this, outputBuffer, outputBuffer.data
      ensures Valid() && (outputBuffer.data == old(outputBuffer.data) || fresh(outputBuffer.data))
      ensures View() == SendIov(old(View()), slices, reply)
    {
      if |slices| <= 0 || state != Connected {
        return;
      }
      var backlog := outputBuffer.ReadableBytes();
      assert backlog == 0 ==> outputBuffer.Contents() == [];
      if writing || backlog > 0 {
        AppendAll(slices);
        accepted := accepted + Concat(slices);
        writing := true;
        return;
      }
      var n := Min(|slices|, MAX_IOV);
      var iov := Concat(slices[..n]);
      SlicesSplit(slices, n);
      var nwrote := Written(reply, |iov|);
      wire := wire + Datas(iov[..nwrote]);
      var remaining := |iov| - nwrote;
      if !reply.Broken? {
        accepted := accepted + Concat(slices);
        if remaining > 0 {
          AppendUnsent(slices, nwrote);
          assert [] + Concat(slices)[nwrote..] == Concat(slices)[nwrote..];
          writing := true;
        }
      }
    }

    /** drainPendingFiles: one sendfile after the other, until the socket is full or the queue is empty. */
    method DrainPendingFiles(replies: seq<FileReply>) returns (still: bool)
      requires Valid()
      modifies this
      ensures Valid()
      ensures Drained(View(), still) == Drain(old(View()), replies)
    {
      var i := 0;
      ghost var goal := Drain(View(), replies);
      assert replies[0..] == replies;
      while |pendingFiles| > 0
        invariant i <= |replies| && Valid()
        invariant goal == Drain(View(), replies[i..])
        decreases |replies| - i
      {
        assert i < |replies| ==> replies[i..][0] == replies[i] && replies[i..][1..] == replies[i + 1..];
        if i == |replies| || replies[i].Again? {
          return true;
        }
        var pf := pendingFiles[0];
        var n := if replies[i].Sent? then Granted(pf, replies[i].n) else 0;
        if n > 0 {
          wire := wire + FileBytes(pf.id, pf.offset, n);
          if n == pf.remaining {
            closed, pendingFiles := closed + [pf.id], pendingFiles[1..];
          } else {
            pendingFiles := pendingFiles[0 := pf.(offset := pf.offset + n, remaining := pf.remaining - n)];
            return true;
          }
        } else {
          cut, closed, pendingFiles := cut + {pf.id}, closed + [pf.id], pendingFiles[1..];
          if replies[i].Failed? {
            return |pendingFiles| > 0;
          }
        }
        i := i + 1;
      }
      still := false;
    }

    method SendFileRange(fd: int, offset: nat, count: nat, replies: seq<FileReply>)
      requires Valid()
      modifies this
      ensures Valid()
      ensures View() == SendFile(old(View()), fd, offset, count, replies)
    {
      var id := |offers|;
      if state != Connected || count == 0 {
        if fd >= 0 {
          offers := offers + [Offer(fd, offset, count, |accepted|)];
          closed, cut := closed + [id], cut + {id};
        }
        return;
      }
      pendingFiles := pendingFiles + [PendingFile(id, fd, offset, count)];
      offers := offers + [Offer(fd, offset, count, |accepted|)];
      var backlog := outputBuffer.ReadableBytes();
      assert backlog == 0 <==> outputBuffer.Contents() == [];
      if writing || backlog > 0 {
        writing := true;
        return;
      }
      var still := DrainPendingFiles(replies);
      if still {
        writing := true;
      }
    }

    method ShutdownInLoop()
      requires Valid()
      modifies this`shut
      ensures View() == TcpOutput.ShutdownInLoop(old(View()))
    {
      if !writing {
        shut := shut + 1;
      }
    }

    method Shutdown()
      requires Valid()
      modifies this
      ensures Valid() && View() == TcpOutput.Shutdown(old(View()))
    {
      if state == Connected {
        state := Disconnecting;
        ShutdownInLoop();
      }
    }

    /** The first half of handleWrite: write what the buffer holds; done says that it is empty now. */
    method Flush(reply: WriteReply) returns (done: bool)
      requires Valid()
      modifies this`wire, outputBuffer`readerIndex, outputBuffer`writerIndex
      ensures Valid()
      ensures var out := old(outputBuffer.Contents()); var n := Written(reply, |out|);
              outputBuffer.Contents() == out[n..] && wire == old(wire) + Datas(out[..n]) && done == (|out| == n)
    {
      done := true;
      var readable := outputBuffer.ReadableBytes();
      if readable > 0 {
        var n := Written(reply, readable);
        if n > 0 {
          var bytes := outputBuffer.Peek();
          wire := wire + Datas(bytes[..n]);
          outputBuffer.Retrieve(n);
        } else {
          assert Datas([]) == [];
          return false;
        }
        readable := outputBuffer.ReadableBytes();
        done := readable == 0;
      } else {
        assert Datas([]) == [];
      }
    }

    /** The second half: the files, then write interest off and the half-close that was waiting. */
    method AfterFlush(replies: seq<FileReply>)
      requires Valid()
      modifies this
      ensures Valid()
      ensures View() == TcpOutput.AfterFlush(old(View()), replies)
    {
      var still := DrainPendingFiles(replies);
      if still {
        return;
      }
      writing := false;
      if state == Disconnecting {
        ShutdownInLoop();
      }
    }

    method HandleWrite(reply: WriteReply, replies: seq<FileReply>)
      requires Valid()
      modifies this, outputBuffer
      ensures Valid() && outputBuffer.data == old(outputBuffer.data)
      ensures View() == TcpOutput.HandleWrite(old(View()), reply, replies)
    {
      if !writing {
        return;
      }
      ghost var c := View();
      var done := Flush(reply);
      HandleWriteIs(c, View(), reply, replies);
      if done {
        AfterFlush(replies);
      }
    }

    method HandleClose()
      requires Valid()
      modifies this
      ensures Valid() && View() == TcpOutput.HandleClose(old(View()))
    {
      state := Disconnected;
      writing := false;
    }

    method ConnectDestroyed()
      requires Valid()
      modifies this
      ensures Valid() && View() == TcpOutput.ConnectDestroyed(old(View()))
    {
      if state == Connected {
        state := Disconnected;
        writing := false;
      }
    }

    /** closePendingFiles, as the destructor calls it. */
    method ClosePendingFiles()
      requires Valid()
      modifies this
      ensures Valid() && View() == Destroy(old(View()))
    {
      closed, cut := closed + Ids(pendingFiles), cut + set i | i in Ids(pendingFiles);
      pendingFiles := [];
    }
  }
}
