/** The WebSocket frame codec (section 5.2 of RFC 6455). */
module WebSocketFrame {
  import opened Bytes
  import opened Deframe

  /** The maskingKey is only meaningful when mask is set; otherwise it is all zero. */
  datatype Frame = Frame(fin: bool, rsv1: byte, rsv2: byte, rsv3: byte, opcode: byte,
                         mask: bool, maskingKey: seq<byte>, payload: seq<byte>)

  const NO_KEY: seq<byte> := [0, 0, 0, 0]
  const OP_TEXT: byte := 0x1
  const OP_BINARY: byte := 0x2
  const OP_CLOSE: byte := 0x8

  /** A vector<uint8_t> holds at most PTRDIFF_MAX bytes. */
  const MAX_VECTOR: nat := 0x7FFF_FFFF_FFFF_FFFF

  // ------------------------------------------------------------------ the format

  function FirstByte(fin: bool, rsv1: byte, rsv2: byte, rsv3: byte, opcode: byte): (b: byte) {
    (if fin then 0x80 else 0x00) + (rsv1 % 2) * 64 + (rsv2 % 2) * 32 + (rsv3 % 2) * 16 + opcode % 16
  }

  /** The second byte and the extended length. */
  function LengthField(mask: bool, n: nat): (r: seq<byte>) {
    var bit: byte := if mask then 0x80 else 0x00;
    if n <= 125 then [bit + n as byte]
    else if n <= 65535 then [bit + 126] + BigEndian(n, 2)
    else [bit + 127] + BigEndian(n, 8)
  }

  /** XOR with the key, repeated. */
  function Masked(payload: seq<byte>, key: seq<byte>): (r: seq<byte>)
    requires |key| == 4
  {
    seq(|payload|, i requires 0 <= i < |payload| => XorByte(payload[i], key[i % 4]))
  }

  function EncodedHead(f: Frame, mask: bool, key: seq<byte>): (r: seq<byte>)
    requires |key| == 4
  {
    [FirstByte(f.fin, f.rsv1, f.rsv2, f.rsv3, f.opcode)] + LengthField(mask, |f.payload|) + (if mask then key else [])
  }

  function Encoded(f: Frame, mask: bool, key: seq<byte>): (r: seq<byte>)
    requires |key| == 4
  {
    EncodedHead(f, mask, key) + (if mask then Masked(f.payload, key) else f.payload)
  }

  /** What the header says: the frame without its payload, the payload's length and the header's own. */
  datatype Head = Head(frame: Frame, length: nat, size: nat)

  /** None while the header is incomplete. */
  function DecodedHead(s: seq<byte>): (r: Option<Head>)
    ensures r.Some? ==> 2 <= r.value.size <= |s| && r.value.size <= 14 && r.value.length < TWO_64
    ensures r.Some? ==> |r.value.frame.maskingKey| == 4
  {
    if |s| < 2 then None
    else
      var code := s[1] % 128;
      var size := if code == 126 then 4 else if code == 127 then 10 else 2;
      if |s| < size then None
      else
        var length := if code < 126 then code as int else FromBigEndian(s[2..size]);
        assert length < TWO_64 by { FromBigEndianBound(s[2..size]); PowersOf256(); }
        var mask := s[1] >= 128;
        if mask && |s| < size + 4 then None
        else
          var key := if mask then s[size..size + 4] else NO_KEY;
          Some(Head(Frame(s[0] >= 128, s[0] / 64 % 2, s[0] / 32 % 2, s[0] / 16 % 2, s[0] % 16, mask, key, []),
                    length, if mask then size + 4 else size))
  }

  lemma {:induction false} PowersOf256()
    ensures Pow256(0) == 1 && Pow256(2) == 65536 && Pow256(8) == TWO_64
  {
    assert Pow256(4) == 0x1_0000_0000;
    assert Pow256(6) == 0x1_0000_0000_0000;
  }

  /**
   decode. The test for a complete payload adds two size_t values and so wraps around; a length
   that gets past it that way is more than a vector can hold and resize throws, which is Rejected here.
   */
  function Decoded(s: seq<byte>): (r: Outcome<Frame>) {
    match DecodedHead(s)
    case None => Incomplete
    case Some(h) => DecodedBody(s, h)
  }

  function DecodedBody(s: seq<byte>, h: Head): (r: Outcome<Frame>)
    requires h.size <= |s| && |h.frame.maskingKey| == 4
  {
    if |s| < (h.size + h.length) % TWO_64 then Incomplete
    else if h.length > MAX_VECTOR || |s| < h.size + h.length then Rejected
    else
      var raw := s[h.size..h.size + h.length];
      Parsed(h.frame.(payload := if h.frame.mask then Masked(raw, h.frame.maskingKey) else raw), h.size + h.length)
  }

  // ------------------------------------------------------------------ round trip

  lemma {:induction false} MaskTwice(payload: seq<byte>, key: seq<byte>)
    requires |key| == 4
    ensures Masked(Masked(payload, key), key) == payload
  {
    forall i | 0 <= i < |payload| ensures Masked(Masked(payload, key), key)[i] == payload[i] {
      XorTwice(payload[i] as int, key[i % 4] as int);
    }
  }

  lemma {:induction false} FirstByteFields(fin: bool, rsv1: byte, rsv2: byte, rsv3: byte, opcode: byte)
    ensures var b := FirstByte(fin, rsv1, rsv2, rsv3, opcode);
            (b >= 128) == fin && b / 64 % 2 == rsv1 % 2 && b / 32 % 2 == rsv2 % 2
            && b / 16 % 2 == rsv3 % 2 && b % 16 == opcode % 16
  {
    BitFields(if fin then 1 else 0, (rsv1 % 2) as int, (rsv2 % 2) as int, (rsv3 % 2) as int, (opcode % 16) as int);
  }

  lemma {:induction false} BitFields(a: nat, x: nat, y: nat, z: nat, w: nat)
    requires a < 2 && x < 2 && y < 2 && z < 2 && w < 16
    ensures var b := a * 128 + x * 64 + y * 32 + z * 16 + w;
            b / 64 % 2 == x && b / 32 % 2 == y && b / 16 % 2 == z && b % 16 == w
  {
    var b := a * 128 + x * 64 + y * 32 + z * 16 + w;
    assert b / 16 == 8 * a + 4 * x + 2 * y + z;
    assert b / 32 == 4 * a + 2 * x + y;
    assert b / 64 == 2 * a + x;
  }

  /** The length field says how long it is and what it stands for, and no shorter cut of it is enough. */
  lemma {:induction false} LengthFieldDecodes(mask: bool, n: nat)
    requires n < TWO_64
    ensures var l := LengthField(mask, n);
            var code := l[0] % 128;
            && |l| + 1 == (if code == 126 then 4 else if code == 127 then 10 else 2)
            && (l[0] >= 128) == mask
            && n == (if code < 126 then code as int else FromBigEndian(l[1..]))
  {
    if n > 125 {
      LongLength(mask, n, if n <= 65535 then 2 else 8);
    }
  }

  lemma {:induction false} LongLength(mask: bool, n: nat, size: nat)
    requires (size == 2 && 125 < n <= 65535) || (size == 8 && 65535 < n < TWO_64)
    ensures var l := LengthField(mask, n);
            |l| == 1 + size && l[0] % 128 == (if size == 2 then 126 else 127) &&
            (l[0] >= 128) == mask && FromBigEndian(l[1..]) == n
  {
    var l := LengthField(mask, n);
    PowersOf256();
    assert l[1..] == BigEndian(n, size);
    BigEndianRoundTrip(n, size);
  }

  /** The frame that comes out: one bit of each rsv, four of the opcode. */
  function Truncated(f: Frame, mask: bool, key: seq<byte>): (r: Frame) {
    Frame(f.fin, f.rsv1 % 2, f.rsv2 % 2, f.rsv3 % 2, f.opcode % 16, mask,
          if mask then key else NO_KEY, f.payload)
  }

  lemma {:induction false} HeadDecodes(f: Frame, mask: bool, key: seq<byte>, rest: seq<byte>)
    requires |key| == 4 && |f.payload| < TWO_64
    ensures var head := EncodedHead(f, mask, key);
            DecodedHead(head + rest) == Some(Head(Truncated(f, mask, key).(payload := []), |f.payload|, |head|))
  {
    var head, l := EncodedHead(f, mask, key), LengthField(mask, |f.payload|);
    var s := head + rest;
    LengthFieldDecodes(mask, |f.payload|);
    FirstByteFields(f.fin, f.rsv1, f.rsv2, f.rsv3, f.opcode);
    assert s[1] == l[0];
    assert s[2..1 + |l|] == l[1..];
    if mask {
      assert s[1 + |l|..5 + |l|] == key;
    }
  }

  lemma {:induction false} HeadPrefixIncomplete(f: Frame, mask: bool, key: seq<byte>, k: nat)
    requires |key| == 4 && |f.payload| < TWO_64 && k < |EncodedHead(f, mask, key)|
    ensures DecodedHead(EncodedHead(f, mask, key)[..k]).None?
  {
    var l := LengthField(mask, |f.payload|);
    LengthFieldDecodes(mask, |f.payload|);
    var s := EncodedHead(f, mask, key)[..k];
    assert |s| >= 2 ==> s[1] == l[0];
  }

  lemma {:induction false} BodyDecodes(f: Frame, mask: bool, key: seq<byte>, head: seq<byte>, rest: seq<byte>)
    requires |key| == 4 && |f.payload| <= MAX_VECTOR && |head| <= 14
    ensures var body := if mask then Masked(f.payload, key) else f.payload;
            DecodedBody(head + (body + rest), Head(Truncated(f, mask, key).(payload := []), |f.payload|, |head|))
            == Parsed(Truncated(f, mask, key), |head| + |f.payload|)
  {
    var body := if mask then Masked(f.payload, key) else f.payload;
    assert (head + (body + rest))[|head|..|head| + |body|] == body;
    MaskTwice(f.payload, key);
  }

  /** decode after encode, for every frame, key and following bytes: the same frame, its rsv and opcode truncated. */
  lemma {:induction false} EncodeDecodes(f: Frame, mask: bool, key: seq<byte>, rest: seq<byte>)
    requires |key| == 4 && |f.payload| <= MAX_VECTOR
    ensures Decoded(Encoded(f, mask, key) + rest) == Parsed(Truncated(f, mask, key), |Encoded(f, mask, key)|)
  {
    var head := EncodedHead(f, mask, key);
    var body := if mask then Masked(f.payload, key) else f.payload;
    assert Encoded(f, mask, key) + rest == head + (body + rest);
    HeadDecodes(f, mask, key, body + rest);
    BodyDecodes(f, mask, key, head, rest);
  }

  /** The codec gives back what went in exactly for one-bit rsv fields and four-bit opcodes. */
  lemma {:induction false} FrameRoundTripIff(f: Frame, mask: bool, key: seq<byte>, rest: seq<byte>)
    requires |key| == 4 && |f.payload| <= MAX_VECTOR
    ensures Decoded(Encoded(f, mask, key) + rest)
            == Parsed(f.(mask := mask, maskingKey := if mask then key else NO_KEY), |Encoded(f, mask, key)|)
            <==> f.rsv1 <= 1 && f.rsv2 <= 1 && f.rsv3 <= 1 && f.opcode <= 15
  {
    EncodeDecodes(f, mask, key, rest);
  }

  /** No strict prefix of an encoded frame is taken for a frame. */
  lemma {:induction false} StrictPrefixIncomplete(f: Frame, mask: bool, key: seq<byte>, k: nat)
    requires |key| == 4 && |f.payload| <= MAX_VECTOR && k < |Encoded(f, mask, key)|
    ensures Decoded(Encoded(f, mask, key)[..k]).Incomplete?
  {
    var head, s := EncodedHead(f, mask, key), Encoded(f, mask, key);
    if k < |head| {
      assert s[..k] == head[..k];
      HeadPrefixIncomplete(f, mask, key, k);
    } else {
      var part := s[|head|..k];
      assert s[..k] == head + part;
      HeadDecodes(f, mask, key, part);
      BodyMissing(head + part, Head(Truncated(f, mask, key).(payload := []), |f.payload|, |head|));
    }
  }

  lemma {:induction false} BodyMissing(s: seq<byte>, h: Head)
    requires |h.frame.maskingKey| == 4 && h.size <= |s| < h.size + h.length && h.size <= 14 && h.length <= MAX_VECTOR
    ensures DecodedBody(s, h).Incomplete?
  {
  }

  /** Bytes that begin with the same head have the same head. */
  lemma {:induction false} HeadSame(s: seq<byte>, u: seq<byte>, n: nat)
    requires DecodedHead(s).Some? && n == DecodedHead(s).value.size && n <= |u| && u[..n] == s[..n]
    ensures DecodedHead(u) == DecodedHead(s)
  {
    var code := s[1] % 128;
    var size := if code == 126 then 4 else if code == 127 then 10 else 2;
    assert u[0] == u[..n][0] == s[0] && u[1] == u[..n][1] == s[1];
    assert u[2..size] == u[..n][2..size] == s[..n][2..size] == s[2..size];
    if s[1] >= 128 {
      assert u[size..n] == u[..n][size..n] == s[..n][size..n] == s[size..n];
    }
  }

  lemma {:induction false} HeadStable(s: seq<byte>, t: seq<byte>)
    requires DecodedHead(s).Some?
    ensures DecodedHead(s + t) == DecodedHead(s)
    ensures DecodedHead(s[..DecodedHead(s).value.size]) == DecodedHead(s)
  {
    var n := DecodedHead(s).value.size;
    HeadSame(s, s + t, n);
    HeadSame(s, s[..n], n);
  }

  /** Bytes that begin with the same whole frame have the same frame. */
  lemma {:induction false} BodySame(s: seq<byte>, u: seq<byte>, h: Head, k: nat)
    requires h.size <= |s| && |h.frame.maskingKey| == 4 && k == h.size + h.length < TWO_64
    requires k <= |s| && k <= |u| && u[..k] == s[..k]
    ensures DecodedBody(u, h) == DecodedBody(s, h)
  {
    assert u[h.size..k] == u[..k][h.size..k] == s[..k][h.size..k] == s[h.size..k];
  }

  lemma {:induction false} BodyStable(s: seq<byte>, t: seq<byte>, h: Head)
    requires h.size <= |s| && |h.frame.maskingKey| == 4 && h.length < TWO_64 && h.size <= 14
    ensures DecodedBody(s, h).Parsed? ==>
              DecodedBody(s + t, h) == DecodedBody(s, h) == DecodedBody(s[..h.size + h.length], h)
    ensures DecodedBody(s, h).Rejected? ==> DecodedBody(s + t, h).Rejected?
  {
    var k := h.size + h.length;
    if DecodedBody(s, h).Parsed? {
      BodySame(s, s + t, h, k);
      BodySame(s, s[..k], h, k);
    } else if DecodedBody(s, h).Rejected? {
      assert h.length > MAX_VECTOR;
    }
  }

  lemma {:induction false} DecodedTight(s: seq<byte>)
    ensures Tight(Decoded, s)
  {
    if Decoded(s).Parsed? {
      var h := DecodedHead(s).value;
      var k := h.size + h.length;
      assert s[..k][..h.size] == s[..h.size];
      HeadSame(s, s[..k], h.size);
      BodySame(s, s[..k], h, k);
    }
  }

  lemma {:induction false} DecodedStable()
    ensures Stable(Decoded) && RejectStable(Decoded)
  {
    forall s ensures Tight(Decoded, s) { DecodedTight(s); }
    forall s, t ensures Keeps(Decoded, s, t) && KeepsRejecting(Decoded, s, t) {
      if DecodedHead(s).Some? {
        HeadStable(s, t);
        BodyStable(s, t, DecodedHead(s).value);
      }
    }
  }

  // ------------------------------------------------------------------ lengths that wrap

  /** The head announces a frame whose size does not fit 64 bits. */
  predicate Wraps(s: seq<byte>) {
    DecodedHead(s).Some? && DecodedHead(s).value.size + DecodedHead(s).value.length >= TWO_64
  }

  /** When decode throws: the size wraps around, or the whole of a payload that no vector can hold has arrived. */
  lemma {:induction false} RejectedIff(s: seq<byte>)
    ensures Decoded(s).Rejected? <==>
            Wraps(s) || (DecodedHead(s).Some? && DecodedHead(s).value.length > MAX_VECTOR &&
                         DecodedHead(s).value.size + DecodedHead(s).value.length <= |s|)
  {
    if DecodedHead(s).Some? {
      var h := DecodedHead(s).value;
      SizeCut(h.size + h.length);
    }
  }

  lemma {:induction false} SizeCut(n: nat)
    requires n < TWO_64 + 14
    ensures n % TWO_64 == if n < TWO_64 then n else n - TWO_64
  {
    ModUnique(n, TWO_64, if n < TWO_64 then 0 else 1, if n < TWO_64 then n else n - TWO_64);
  }

  /** In a buffer as long as any vector can be, decode throws exactly when the head wraps, though the frame is short. */
  lemma {:induction false} RejectedIffWraps(s: seq<byte>)
    requires |s| <= MAX_VECTOR
    ensures Decoded(s).Rejected? <==> Wraps(s)
    ensures Decoded(s).Rejected? ==> |s| < DecodedHead(s).value.size + DecodedHead(s).value.length
  {
    RejectedIff(s);
  }

  /** Ten bytes that announce 2^64 - 1 more. */
  const WRAPPING_HEAD: seq<byte> := [0x82, 0x7F, 0xFF, 0xFF, 0xFF, 0xFF, 0xFF, 0xFF, 0xFF, 0xFF]

  lemma {:induction false} WrappingHeadRejected()
    ensures Decoded(WRAPPING_HEAD).Rejected?
  {
    var s := WRAPPING_HEAD;
    PowersOf256();
    var l := s[2..10];
    assert l == [0xFF, 0xFF, 0xFF, 0xFF, 0xFF, 0xFF, 0xFF, 0xFF];
    AllOnes(l);
    RejectedIff(s);
  }

  lemma {:induction false} AllOnes(l: seq<byte>)
    requires forall i | 0 <= i < |l| :: l[i] == 0xFF
    ensures FromBigEndian(l) == Pow256(|l|) - 1
    decreases |l|
  {
    if l != [] {
      AllOnes(l[..|l| - 1]);
    }
  }

  // ------------------------------------------------------------------ the code

  /** The low byte of n shifted right by 8 * i, as the encoder pushes it. */
  function ShiftedByte(n: nat, i: nat): (b: byte) {
    (n / Pow256(i) % 256) as byte
  }

  /** encode; the random generator's four bytes are the parameter key. */
  method Encode(frame: Frame, mask: bool, key: seq<byte>) returns (data: seq<byte>)
    requires |key| == 4
    ensures data == Encoded(frame, mask, key)
  {
    var payloadLen := |frame.payload|;
    data := [FirstByte(frame.fin, frame.rsv1, frame.rsv2, frame.rsv3, frame.opcode)];
    data := PushLength(data, mask, payloadLen);
    data := PushPayload(data, mask, key, frame.payload);
  }

  /** encodeRaw: the same wire format straight from a payload, all rsv bits zero. */
  method EncodeRaw(opcode: byte, payload: seq<byte>, fin: bool, mask: bool, key: seq<byte>) returns (data: seq<byte>)
    requires |key| == 4
    ensures forall f: Frame | f.fin == fin && f.rsv1 == f.rsv2 == f.rsv3 == 0 &&
              f.opcode == opcode && f.payload == payload ::
              data == Encoded(f, mask, key)
  {
    data := [(if fin then 0x80 else 0x00) + opcode % 16];
    data := PushLength(data, mask, |payload|);
    data := PushPayload(data, mask, key, payload);
  }

  method PushLength(before: seq<byte>, mask: bool, payloadLen: nat) returns (data: seq<byte>)
    ensures data == before + LengthField(mask, payloadLen)
  {
    var byte2: byte := if mask then 0x80 else 0x00;
    if payloadLen <= 125 {
      data := before + [byte2 + payloadLen as byte];
    } else if payloadLen <= 65535 {
      data := before + [byte2 + 126];
      data := PushBigEndian(data, payloadLen, 2);
    } else {
      data := before + [byte2 + 127];
      data := PushBigEndian(data, payloadLen, 8);
    }
  }

  /** Pushes the k low bytes of n, highest first. */
  method PushBigEndian(before: seq<byte>, n: nat, k: nat) returns (data: seq<byte>)
    ensures data == before + BigEndian(n, k)
  {
    data := before;
    var i := k - 1;
    while i >= 0
      invariant -1 <= i < k
      invariant data == before + ShiftedBytes(n, i + 1, k)
    {
      data := data + [ShiftedByte(n, i)];
      i := i - 1;
    }
    ShiftedBytesAll(n, k);
  }

  method PushPayload(before: seq<byte>, mask: bool, key: seq<byte>, payload: seq<byte>) returns (data: seq<byte>)
    requires |key| == 4
    ensures data == before + (if mask then key + Masked(payload, key) else payload)
  {
    data := before;
    if mask {
      data := data + key;
      var base := |data|;
      data := data + seq(|payload|, _ => 0);
      var i := 0;
      while i < |payload|
        invariant i <= |payload| && |data| == base + |payload|
        invariant data[..base] == before + key
        invariant data[base..base + i] == Masked(payload, key)[..i]
      {
        data := data[base + i := XorByte(payload[i], key[i % 4])];
        i := i + 1;
        assert data[base..base + i] == data[base..base + i - 1] + [data[base + i - 1]];
      }
      assert data == data[..base] + data[base..base + i];
    } else {
      data := data + payload;
    }
  }

  /** Bytes k-1 down to i of n. */
  ghost function ShiftedBytes(n: nat, i: nat, k: nat): (r: seq<byte>)
    requires i <= k
    decreases k - i
  {
    if i == k then [] else ShiftedBytes(n, i + 1, k) + [ShiftedByte(n, i)]
  }

  lemma {:induction false} ShiftedBytesLow(n: nat, i: nat, k: nat)
    requires i <= k
    ensures ShiftedBytes(n, i + 1, k + 1) == ShiftedBytes(n / 256, i, k)
    decreases k - i
  {
    if i < k {
      ShiftedBytesLow(n, i + 1, k);
      var p := Pow256(i);
      DigitSplit(n, p);
      assert ShiftedByte(n, i + 1) == ShiftedByte(n / 256, i);
    }
  }

  lemma {:induction false} ShiftedBytesAll(n: nat, k: nat)
    ensures ShiftedBytes(n, 0, k) == BigEndian(n, k)
  {
    if k > 0 {
      ShiftedBytesLow(n, 0, k - 1);
      ShiftedBytesAll(n / 256, k - 1);
    }
  }

  /** decode over the bytes peeked from a buffer. */
  method Decode(data: seq<byte>) returns (r: Outcome<Frame>)
    ensures r == Decoded(data)
  {
    var len := |data|;
    if len < 2 {
      return Incomplete;
    }
    var frame := Frame(data[0] >= 128, data[0] / 64 % 2, data[0] / 32 % 2, data[0] / 16 % 2,
                       data[0] % 16, data[1] >= 128, NO_KEY, []);
    var code := data[1] % 128;
    var payloadLen: nat, headerSize := code as int, 2;
    if code == 126 {
      if len < 4 {
        return Incomplete;
      }
      payloadLen := data[2] as int * 256 + data[3] as int;
      headerSize := 4;
      assert data[2..4][..1] == [data[2]] && [data[2]][..0] == [];
      assert FromBigEndian([data[2]]) == data[2] as int;
    } else if code == 127 {
      if len < 10 {
        return Incomplete;
      }
      payloadLen := 0;
      var i := 2;
      while i < 10
        invariant 2 <= i <= 10
        invariant payloadLen == FromBigEndian(data[2..i])
      {
        assert data[2..i + 1][..i - 2] == data[2..i];
        payloadLen := payloadLen * 256 + data[i] as int;
        i := i + 1;
      }
      headerSize := 10;
    }
    if frame.mask {
      if len < headerSize + 4 {
        return Incomplete;
      }
      frame := frame.(maskingKey := data[headerSize..headerSize + 4]);
      headerSize := headerSize + 4;
    }
    assert DecodedHead(data) == Some(Head(frame, payloadLen, headerSize));
    r := DecodePayload(data, frame, payloadLen, headerSize);
  }

  method DecodePayload(data: seq<byte>, frame: Frame, payloadLen: nat, headerSize: nat) returns (r: Outcome<Frame>)
    requires headerSize <= |data| && |frame.maskingKey| == 4 && frame.payload == []
    ensures r == DecodedBody(data, Head(frame, payloadLen, headerSize))
  {
    if |data| < (headerSize + payloadLen) % TWO_64 {
      return Incomplete;
    }
    if payloadLen > MAX_VECTOR || |data| < headerSize + payloadLen {
      return Rejected;
    }
    var raw := data[headerSize..headerSize + payloadLen];
    var payload := raw;
    if frame.mask {
      payload := [];
      ghost var whole := Masked(raw, frame.maskingKey);
      var i := 0;
      while i < payloadLen
        invariant i <= payloadLen
        invariant payload == whole[..i]
      {
        payload := payload + [XorByte(raw[i], frame.maskingKey[i % 4])];
        i := i + 1;
      }
      assert payload == whole;
    }
    r := Parsed(frame.(payload := payload), headerSize + payloadLen);
  }
}
