/** The growing, compacting byte buffer of a connection refines a plain byte string. */
module NetBuffer {
  import opened Bytes

  const CHEAP_PREPEND: nat := 8
  const EXTRA_BUF: nat := 65536

  /** Copies src into a from index at on. */
  method CopyIn(a: array<byte>, at: nat, src: seq<byte>)
    requires at + |src| <= a.Length
    modifies a
    ensures a[..] == old(a[..at]) + src + old(a[at + |src|..])
  {
    var i := 0;
    while i < |src|
      invariant i <= |src|
      invariant forall k | 0 <= k < i :: a[at + k] == src[k]
      invariant forall k | 0 <= k < a.Length && !(at <= k < at + i) :: a[k] == old(a[k])
    {
      a[at + i] := src[i];
      i := i + 1;
    }
    var want := old(a[..at]) + src + old(a[at + |src|..]);
    assert forall k | at <= k < at + |src| :: a[k] == src[k - at] by {
      forall k | at <= k < at + |src| ensures a[k] == src[k - at] { assert a[at + (k - at)] == src[k - at]; }
    }
    assert |want| == a.Length;
  }

  /**
   std::copy of a[first..last] to dest < first: ascending, so overlapping bytes are read before they are overwritten.
   */
  method CopyLeft(a: array<byte>, first: nat, last: nat, dest: nat)
    requires dest < first <= last <= a.Length
    modifies a
    ensures a[dest..dest + (last - first)] == old(a[first..last])
  {
    var i, n := 0, last - first;
    while i < n
      invariant i <= n
      invariant a[dest..dest + i] == old(a[first..first + i])
      invariant forall k | dest + i <= k < a.Length :: a[k] == old(a[k])
    {
      a[dest + i] := a[first + i];
      i := i + 1;
      assert a[dest..dest + i] == a[dest..dest + i - 1] + [a[dest + i - 1]];
      assert old(a[first..first + i]) == old(a[first..first + i - 1]) + [old(a[first + i - 1])];
    }
  }

  class Buffer {
    var data: array<byte>
    var readerIndex: nat
    var writerIndex: nat

    ghost predicate Valid()
      reads this
    {
      CHEAP_PREPEND <= readerIndex <= writerIndex <= data.Length
    }

    /** The readable bytes: all that a user of the buffer can see. */
    ghost function Contents(): (s: seq<byte>)
      reads this, data
      requires Valid()
    {
      data[readerIndex..writerIndex]
    }

    constructor (initialSize: nat)
      ensures Valid() && fresh(data)
      ensures Contents() == []
      ensures data.Length - writerIndex == initialSize
    {
      data := new byte[initialSize + CHEAP_PREPEND];
      readerIndex := CHEAP_PREPEND;
      writerIndex := CHEAP_PREPEND;
    }

    method ReadableBytes() returns (n: nat)
      requires Valid()
      ensures n == |Contents()|
    {
      n := writerIndex - readerIndex;
    }

    /** What peek points at. */
    method Peek() returns (s: seq<byte>)
      requires Valid()
      ensures s == Contents()
    {
      s := data[readerIndex..writerIndex];
    }

    method RetrieveAll()
      requires Valid()
      modifies this`readerIndex, this`writerIndex
      ensures Valid() && Contents() == []
    {
      readerIndex := CHEAP_PREPEND;
      writerIndex := CHEAP_PREPEND;
    }

    /** Drops len bytes from the front; asking for more than there is empties the buffer. */
    method Retrieve(len: nat)
      requires Valid()
      modifies this`readerIndex, this`writerIndex
      ensures Valid()
      ensures Contents() == if len < |old(Contents())| then old(Contents())[len..] else []
    {
      if len < writerIndex - readerIndex {
        readerIndex := readerIndex + len;
      } else {
        RetrieveAll();
      }
    }

    method RetrieveAsString(len: nat) returns (s: seq<byte>)
      requires Valid() && len <= |Contents()|
      modifies this`readerIndex, this`writerIndex
      ensures Valid()
      ensures s + Contents() == old(Contents()) && |s| == len
    {
      s := data[readerIndex..readerIndex + len];
      Retrieve(len);
    }

    /**
     Makes len bytes writable without touching the readable ones: by growing the storage, or by
     moving the readable bytes to the front, which then is strictly to their left.
     */
    method MakeSpace(len: nat)
      requires Valid() && data.Length - writerIndex < len
      modifies this, data
      ensures Valid() && (data == old(data) || fresh(data))
      ensures Contents() == old(Contents())
      ensures data.Length - writerIndex >= len
      ensures data == old(data) ==> readerIndex == CHEAP_PREPEND < old(readerIndex)
      ensures data != old(data) ==> data.Length == writerIndex + len && data.Length > old(data.Length)
    {
      if (data.Length - writerIndex) + readerIndex < len + CHEAP_PREPEND {
        var grown := new byte[writerIndex + len];
        ghost var was := data[..];
        CopyIn(grown, 0, data[..]);
        assert grown[readerIndex..writerIndex] == was[readerIndex..writerIndex];
        data := grown;
      } else {
        var readable := writerIndex - readerIndex;
        CopyLeft(data, readerIndex, writerIndex, CHEAP_PREPEND);
        readerIndex := CHEAP_PREPEND;
        writerIndex := readerIndex + readable;
      }
    }

    method EnsureWritableBytes(len: nat)
      requires Valid()
      modifies this, data
      ensures Valid() && (data == old(data) || fresh(data))
      ensures Contents() == old(Contents())
      ensures data.Length - writerIndex >= len
    {
      if data.Length - writerIndex < len {
        MakeSpace(len);
      }
    }

    /** Puts bytes behind the readable ones, where there is room, without making them readable. */
    method FillTail(bytes: seq<byte>)
      requires Valid() && writerIndex + |bytes| <= data.Length
      modifies data
      ensures data[readerIndex..writerIndex + |bytes|] == old(Contents()) + bytes
    {
      ghost var before, r, w := data[..], readerIndex, writerIndex;
      CopyIn(data, writerIndex, bytes);
      assert data[..] == before[..w] + bytes + before[w + |bytes|..];
      assert data[..][r..w + |bytes|] == before[r..w] + bytes;
    }

    method Append(bytes: seq<byte>)
      requires Valid()
      modifies this, data
      ensures Valid() && (data == old(data) || fresh(data))
      ensures Contents() == old(Contents()) + bytes
    {
      EnsureWritableBytes(|bytes|);
      FillTail(bytes);
      writerIndex := writerIndex + |bytes|;
    }

    /**
     One readv into the writable tail and a stack buffer. The kernel's answer is an error or
     some bytes, at most what the two vectors hold; it fills the tail first.
     */
    method ReadFd(answer: Option<seq<byte>>) returns (n: int)
      requires Valid()
      requires answer.Some? ==>
                 var writable := data.Length - writerIndex;
                 |answer.value| <= if writable < EXTRA_BUF then writable + EXTRA_BUF else writable
      modifies this, data
      ensures Valid() && (data == old(data) || fresh(data))
      ensures n == if answer.Some? then |answer.value| else -1
      ensures Contents() == old(Contents()) + (if answer.Some? then answer.value else [])
    {
      var writable := data.Length - writerIndex;
      if answer.None? {
        return -1;
      }
      var bytes := answer.value;
      n := |bytes|;
      var inTail := if n <= writable then bytes else bytes[..writable];
      var extrabuf := if n <= writable then [] else bytes[writable..];
      FillTail(inTail);
      if n <= writable {
        writerIndex := writerIndex + n;
      } else {
        writerIndex := data.Length;
        Append(extrabuf);
        assert old(Contents()) + inTail + extrabuf == old(Contents()) + bytes;
      }
    }
  }
}
