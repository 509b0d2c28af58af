/** The frame format bit by bit, and the examples of section 5.7 of RFC 6455. */
module WebSocketFormat {
  import opened Bytes
  import opened Deframe
  import opened WebSocketFrame

  // ------------------------------------------------------------------ masking

  /** Masking flips exactly the bits that are set in the repeated key. */
  lemma {:induction false} MaskedBits(payload: seq<byte>, key: seq<byte>, j: nat, i: nat)
    requires |key| == 4 && j < |payload|
    ensures Bit(Masked(payload, key)[j] as int, i) != Bit(payload[j] as int, i) <==> Bit(key[j % 4] as int, i) == 1
  {
    XorBits(payload[j] as int, key[j % 4] as int, i);
  }

  /** In a decoded frame: a masked payload differs from the wire in the bits of the key, an unmasked one not at all. */
  lemma {:induction false} PayloadBits(s: seq<byte>, j: nat, i: nat)
    requires Decoded(s).Parsed? && j < |Decoded(s).msg.payload|
    ensures var (f, n) := (Decoded(s).msg, Decoded(s).consumed);
            && |f.payload| <= n <= |s|
            && (Bit(f.payload[j] as int, i) != Bit(s[n - |f.payload| + j] as int, i) <==>
                f.mask && Bit(f.maskingKey[j % 4] as int, i) == 1)
  {
    var h := DecodedHead(s).value;
    var raw := s[h.size..h.size + h.length];
    assert raw[j] == s[h.size + j];
    if h.frame.mask {
      MaskedBits(raw, h.frame.maskingKey, j, i);
    }
  }

  // ------------------------------------------------------------------ the header

  lemma {:induction false} BitHalf(n: nat, half: nat, i: nat)
    requires half == n / 2 && i > 0
    ensures Bit(n, i) == Bit(half, i - 1)
  {
  }

  lemma {:induction false} HighBits(n: nat, i: nat)
    requires n < 256 && i < 4
    ensures Bit(n, i + 4) == Bit(n / 16, i)
  {
    BitHalf(n, n / 2, i + 4);
    BitHalf(n / 2, n / 4, i + 3);
    BitHalf(n / 4, n / 8, i + 2);
    BitHalf(n / 8, n / 16, i + 1);
  }

  lemma {:induction false} ByteBits(n: nat)
    requires n < 256
    ensures Bit(n, 7) == n / 128 && Bit(n, 6) == n / 64 % 2 && Bit(n, 5) == n / 32 % 2 && Bit(n, 4) == n / 16 % 2
  {
    HighBits(n, 0);
    HighBits(n, 1);
    HighBits(n, 2);
    HighBits(n, 3);
    BitHalf(n / 16, n / 32, 1);
    BitHalf(n / 16, n / 32, 2);
    BitHalf(n / 32, n / 64, 1);
    BitHalf(n / 16, n / 32, 3);
    BitHalf(n / 32, n / 64, 2);
    BitHalf(n / 64, n / 128, 1);
  }

  /** The flags are single bits of the first two bytes. */
  lemma {:induction false} FlagsAre(s: seq<byte>)
    requires DecodedHead(s).Some?
    ensures var f := DecodedHead(s).value.frame;
            && (f.fin <==> Bit(s[0] as int, 7) == 1) && f.rsv1 as int == Bit(s[0] as int, 6)
            && f.rsv2 as int == Bit(s[0] as int, 5) && f.rsv3 as int == Bit(s[0] as int, 4)
            && f.opcode == s[0] % 16 && (f.mask <==> Bit(s[1] as int, 7) == 1)
  {
    ByteBits(s[0] as int);
    ByteBits(s[1] as int);
  }

  lemma {:induction false} LastTwo(l: seq<byte>)
    requires |l| >= 2
    ensures FromBigEndian(l) == 65536 * FromBigEndian(l[..|l| - 2]) + 256 * l[|l| - 2] as int + l[|l| - 1] as int
  {
    var init := l[..|l| - 1];
    assert init[..|init| - 1] == l[..|l| - 2];
  }

  lemma {:induction false} TwoBytes(l: seq<byte>)
    requires |l| == 2
    ensures FromBigEndian(l) == 256 * l[0] as int + l[1] as int
  {
    LastTwo(l);
  }

  lemma {:induction false} EightBytes(l: seq<byte>)
    requires |l| == 8
    ensures FromBigEndian(l) ==
            (((256 * l[0] as int + l[1] as int) * 65536 + 256 * l[2] as int + l[3] as int) * 65536
             + 256 * l[4] as int + l[5] as int) * 65536 + 256 * l[6] as int + l[7] as int
  {
    LastTwo(l);
    LastTwo(l[..6]);
    LastTwo(l[..4]);
    assert l[..6][..4] == l[..4] && l[..4][..2] == l[..2];
    TwoBytes(l[..2]);
  }

  /**
   The length is the seven low bits of the second byte up to 125, the next two bytes for 126 and the next eight for
   127, highest first; the key is the four bytes after it if the frame is masked.
   */
  lemma {:induction false} LengthIs(s: seq<byte>)
    requires DecodedHead(s).Some?
    ensures var (h, code) := (DecodedHead(s).value, s[1] as int % 128);
            && h.size == 2 + (if code == 126 then 2 else if code == 127 then 8 else 0) + (if h.frame.mask then 4 else 0)
            && h.length == (if code <= 125 then code
                            else if code == 126 then 256 * s[2] as int + s[3] as int
                            else (((256 * s[2] as int + s[3] as int) * 65536 + 256 * s[4] as int + s[5] as int) * 65536
                                  + 256 * s[6] as int + s[7] as int) * 65536 + 256 * s[8] as int + s[9] as int)
            && h.frame.maskingKey == (if h.frame.mask then s[h.size - 4..h.size] else [0, 0, 0, 0])
  {
    var code := s[1] % 128;
    if code == 126 {
      TwoBytes(s[2..4]);
    } else if code == 127 {
      EightBytes(s[2..10]);
    }
  }

  // ------------------------------------------------------------------ the examples

  const HELLO: seq<byte> := [0x48, 0x65, 0x6c, 0x6c, 0x6f]

  lemma {:induction false} HelloIs()
    ensures HELLO == Ascii("Hello")
  {
  }

  /** Exclusive or of two bits each. */
  function XorTwo(x: nat, y: nat): (r: nat) {
    (if x / 2 == y / 2 then 0 else 2) + (if x % 2 == y % 2 then 0 else 1)
  }

  lemma {:induction false} TwoBitsMore(a: nat, b: nat, high: nat)
    requires Xor(a / 4, b / 4) == high
    ensures Xor(a, b) == 4 * high + XorTwo(a % 4, b % 4)
  {
    assert a / 2 / 2 == a / 4 && b / 2 / 2 == b / 4 && a % 4 / 2 == a / 2 % 2 && b % 4 / 2 == b / 2 % 2;
    assert Xor(a / 2, b / 2) == 2 * Xor(a / 4, b / 4) + (if a / 2 % 2 == b / 2 % 2 then 0 else 1);
    assert Xor(a, b) == 2 * Xor(a / 2, b / 2) + (if a % 2 == b % 2 then 0 else 1);
  }

  lemma {:induction false} XorOfBytes(a: nat, b: nat)
    requires a < 256 && b < 256
    ensures Xor(a, b) == 64 * XorTwo(a / 64, b / 64) + 16 * XorTwo(a / 16 % 4, b / 16 % 4)
                         + 4 * XorTwo(a / 4 % 4, b / 4 % 4) + XorTwo(a % 4, b % 4)
  {
    assert a / 4 / 4 == a / 16 && a / 16 / 4 == a / 64 && a / 64 / 4 == 0;
    assert b / 4 / 4 == b / 16 && b / 16 / 4 == b / 64 && b / 64 / 4 == 0;
    assert a / 64 % 4 == a / 64 && b / 64 % 4 == b / 64;
    TwoBitsMore(a / 64, b / 64, 0);
    TwoBitsMore(a / 16, b / 16, Xor(a / 64, b / 64));
    TwoBitsMore(a / 4, b / 4, Xor(a / 16, b / 16));
    TwoBitsMore(a, b, Xor(a / 4, b / 4));
  }

  lemma {:induction false} MaskedByte(a: byte, b: byte, r: byte)
    requires var (x, y) := (a as int, b as int);
             r as int == 64 * XorTwo(x / 64, y / 64) + 16 * XorTwo(x / 16 % 4, y / 16 % 4)
                         + 4 * XorTwo(x / 4 % 4, y / 4 % 4) + XorTwo(x % 4, y % 4)
    ensures XorByte(a, b) == r
  {
    XorOfBytes(a as int, b as int);
  }

  lemma {:induction false} HelloStart(hello: seq<byte>, key: seq<byte>)
    requires hello == HELLO && key == [0x37, 0xfa, 0x21, 0x3d]
    ensures XorByte(hello[0], key[0]) == 0x7f && XorByte(hello[1], key[1]) == 0x9f
  {
    MaskedByte(hello[0], key[0], 0x7f);
    MaskedByte(hello[1], key[1], 0x9f);
  }

  lemma {:induction false} HelloEnd(hello: seq<byte>, key: seq<byte>)
    requires hello == HELLO && key == [0x37, 0xfa, 0x21, 0x3d]
    ensures XorByte(hello[2], key[2]) == 0x4d && XorByte(hello[3], key[3]) == 0x51 && XorByte(hello[4], key[0]) == 0x58
  {
    MaskedByte(hello[2], key[2], 0x4d);
    MaskedByte(hello[3], key[3], 0x51);
    MaskedByte(hello[4], key[0], 0x58);
  }

  lemma {:induction false} FiveMasked(hello: seq<byte>, key: seq<byte>)
    requires |hello| == 5 && |key| == 4
    ensures Masked(hello, key) == [XorByte(hello[0], key[0]), XorByte(hello[1], key[1]), XorByte(hello[2], key[2]),
                                   XorByte(hello[3], key[3]), XorByte(hello[4], key[0])]
  {
  }

  lemma {:induction false} HelloMasked(hello: seq<byte>, key: seq<byte>)
    requires hello == HELLO && key == [0x37, 0xfa, 0x21, 0x3d]
    ensures Masked(hello, key) == [0x7f, 0x9f, 0x4d, 0x51, 0x58]
  {
    HelloStart(hello, key);
    HelloEnd(hello, key);
    FiveMasked(hello, key);
  }

  lemma {:induction false} HelloWire(f: Frame, key: seq<byte>, body: seq<byte>)
    requires f.fin && f.rsv1 == f.rsv2 == f.rsv3 == 0 && f.opcode == 1 && |f.payload| == 5
    requires |key| == 4 && body == Masked(f.payload, key)
    ensures Encoded(f, true, key) == [0x81, 0x85] + key + body
  {
  }

  /** A single-frame masked text message. */
  lemma {:induction false} MaskedHello(rest: seq<byte>)
    ensures Decoded([0x81, 0x85] + [0x37, 0xfa, 0x21, 0x3d] + [0x7f, 0x9f, 0x4d, 0x51, 0x58] + rest) ==
            Parsed(Frame(true, 0, 0, 0, 1, true, [0x37, 0xfa, 0x21, 0x3d], Ascii("Hello")), 11)
  {
    var f, key := Frame(true, 0, 0, 0, 1, true, [0x37, 0xfa, 0x21, 0x3d], HELLO), [0x37, 0xfa, 0x21, 0x3d];
    HelloIs();
    HelloMasked(f.payload, key);
    HelloWire(f, key, Masked(f.payload, key));
    EncodeDecodes(f, true, key, rest);
  }

  /** A single-frame unmasked one, and in two fragments; an unmasked ping. */
  lemma {:induction false} UnmaskedHello()
    ensures Encoded(Frame(true, 0, 0, 0, 1, false, NO_KEY, HELLO), false, NO_KEY) ==
            [0x81, 0x05, 0x48, 0x65, 0x6c, 0x6c, 0x6f]
    ensures Encoded(Frame(false, 0, 0, 0, 1, false, NO_KEY, HELLO[..3]), false, NO_KEY) ==
            [0x01, 0x03, 0x48, 0x65, 0x6c]
    ensures Encoded(Frame(true, 0, 0, 0, 0, false, NO_KEY, HELLO[3..]), false, NO_KEY) == [0x80, 0x02, 0x6c, 0x6f]
    ensures Encoded(Frame(true, 0, 0, 0, 9, false, NO_KEY, HELLO), false, NO_KEY) ==
            [0x89, 0x05, 0x48, 0x65, 0x6c, 0x6c, 0x6f]
  {
  }

  /** 256 bytes and 64 kB of binary data in a single unmasked frame. */
  lemma {:induction false} LongFrames(a: seq<byte>, b: seq<byte>)
    requires |a| == 256 && |b| == 65536
    ensures Encoded(Frame(true, 0, 0, 0, 2, false, NO_KEY, a), false, NO_KEY) == [0x82, 0x7E, 0x01, 0x00] + a
    ensures Encoded(Frame(true, 0, 0, 0, 2, false, NO_KEY, b), false, NO_KEY) ==
            [0x82, 0x7F, 0x00, 0x00, 0x00, 0x00, 0x00, 0x01, 0x00, 0x00] + b
  {
    assert BigEndian(256, 2) == [0x01, 0x00] by {
      assert BigEndian(1, 1) == [] + [0x01];
    }
    SixtyFour();
  }

  lemma {:induction false} SixtyFour()
    ensures BigEndian(65536, 8) == [0x00, 0x00, 0x00, 0x00, 0x00, 0x01, 0x00, 0x00]
  {
    assert BigEndian(0, 2) == [0, 0];
    assert BigEndian(0, 4) == [0, 0, 0, 0];
    assert BigEndian(0, 5) == [0, 0, 0, 0, 0];
    assert BigEndian(1, 6) == [0, 0, 0, 0, 0, 1];
    assert BigEndian(256, 7) == [0, 0, 0, 0, 0, 1, 0];
  }
}
