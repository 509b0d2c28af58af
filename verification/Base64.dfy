/**
 Base64 (section 4 of RFC 4648): the three encoders compute one function and the etcd decoder inverts it. Bytes and
 characters are 32-bit words below 256, as they are in the code's shifts.
 */
module Base64 {

  type Octet = x: bv32 | x < 256

  const PAD: Octet := 61
  const NEWLINE: Octet := 10
  const RETURN: Octet := 13
  const NOT_A_DIGIT: bv32 := 64

  // ------------------------------------------------------------------ the alphabet

  /** The 64-character table, by its runs: A-Z, a-z, 0-9, +, /. */
  function Letter(d: bv32): (c: Octet)
    requires d < 64
  {
    if d < 26 then 65 + d
    else if d < 52 then 71 + d
    else if d < 62 then d - 4
    else if d == 62 then 43
    else 47
  }

  /** The decoding table; NOT_A_DIGIT stands for -1. */
  function Digit(c: Octet): (d: bv32)
    ensures d <= 64
  {
    if 65 <= c <= 90 then c - 65
    else if 97 <= c <= 122 then c - 71
    else if 48 <= c <= 57 then c + 4
    else if c == 43 then 62
    else if c == 47 then 63
    else NOT_A_DIGIT
  }

  lemma {:induction false} DigitOfLetter(d: bv32)
    requires d < 64
    ensures Digit(Letter(d)) == d
    ensures Letter(d) != PAD && Letter(d) != NEWLINE && Letter(d) != RETURN
  {
  }

  // ------------------------------------------------------------------ encoding

  /** The k-th sextet of 24 bits, from the left. */
  function Sextet(v: bv32, k: nat): (d: bv32)
    requires k < 4
    ensures d < 64
  {
    if k == 0 then (v >> 18) & 0x3F
    else if k == 1 then (v >> 12) & 0x3F
    else if k == 2 then (v >> 6) & 0x3F
    else v & 0x3F
  }

  /** One to three bytes as the high end of 24 bits. */
  function Bits(p: seq<Octet>): (v: bv32)
    requires 0 < |p| <= 3
  {
    if |p| == 3 then ((p[0] as bv32) << 16) | ((p[1] as bv32) << 8) | (p[2] as bv32)
    else if |p| == 2 then ((p[0] as bv32) << 16) | ((p[1] as bv32) << 8)
    else (p[0] as bv32) << 16
  }

  /** The characters of 24 bits of which n bytes count. */
  function Digits24(v: bv32, n: nat): (r: seq<Octet>) {
    [Letter(Sextet(v, 0)), Letter(Sextet(v, 1)), if n > 1 then Letter(Sextet(v, 2)) else PAD,
     if n > 2 then Letter(Sextet(v, 3)) else PAD]
  }

  /** The characters for three bytes, or for the last one or two. */
  function Piece(p: seq<Octet>): (r: seq<Octet>) {
    if 0 < |p| <= 3 then Digits24(Bits(p), |p|) else []
  }

  function Cap(i: nat, n: nat): (r: nat)
    ensures r <= n
  {
    if i <= n then i else n
  }

  /** Piece by piece, three bytes at a time. */
  function Chunked(piece: seq<Octet> -> seq<Octet>, s: seq<Octet>): (r: seq<Octet>) {
    if s == [] then [] else piece(s[..Cap(3, |s|)]) + Chunked(piece, s[Cap(3, |s|)..])
  }

  function Encoded(s: seq<Octet>): (r: seq<Octet>) {
    Chunked(Piece, s)
  }

  lemma {:induction false} ChunkedFrom(piece: seq<Octet> -> seq<Octet>, s: seq<Octet>, i: nat)
    requires i < |s|
    ensures Chunked(piece, s[i..]) == piece(s[i..Cap(i + 3, |s|)]) + Chunked(piece, s[Cap(i + 3, |s|)..])
  {
    var t := s[i..];
    assert t[..Cap(3, |t|)] == s[i..Cap(i + 3, |s|)];
    assert t[Cap(3, |t|)..] == s[Cap(i + 3, |s|)..];
  }

  ghost predicate FourEach(piece: seq<Octet> -> seq<Octet>) {
    forall p | 0 < |p| <= 3 :: |piece(p)| == 4
  }

  /** Whole groups of four characters, one for every three bytes or part of three. */
  lemma {:induction false} ChunkedLength(piece: seq<Octet> -> seq<Octet>, s: seq<Octet>)
    requires FourEach(piece)
    ensures |Chunked(piece, s)| % 4 == 0 && 4 * |s| <= 3 * |Chunked(piece, s)| <= 4 * |s| + 8
    decreases |s|
  {
    if s != [] {
      ChunkedLength(piece, s[Cap(3, |s|)..]);
    }
  }

  lemma {:induction false} EncodedLength(s: seq<Octet>)
    ensures |Encoded(s)| % 4 == 0 && 4 * |s| <= 3 * |Encoded(s)| <= 4 * |s| + 8
  {
    ChunkedLength(Piece, s);
  }

  // ------------------------------------------------------------------ decoding

  /** val is a 32-bit accumulator that drops its oldest bits; valb counts the bits not yet given out, less 8. */
  datatype Decoder = Decoder(val: bv32, valb: int, out: seq<Octet>)

  const START: Decoder := Decoder(0, -8, [])

  predicate Skipped(c: Octet) {
    c == PAD || c == NEWLINE || c == RETURN || Digit(c) == NOT_A_DIGIT
  }

  predicate InStep(st: Decoder) {
    -8 <= st.valb < 0
  }

  /** (val >> valb) & 0xFF, by the shifts that occur. */
  function Taken(val: bv32, valb: nat): (c: Octet)
    requires valb < 6
  {
    if valb == 0 then val & 0xFF
    else if valb == 1 then (val >> 1) & 0xFF
    else if valb == 2 then (val >> 2) & 0xFF
    else if valb == 3 then (val >> 3) & 0xFF
    else if valb == 4 then (val >> 4) & 0xFF
    else (val >> 5) & 0xFF
  }

  function Push(val: bv32, d: bv32): (r: bv32) {
    (val << 6) | d
  }

  function FeedDigit(st: Decoder, d: bv32): (r: Decoder)
    requires InStep(st)
    ensures InStep(r)
  {
    var val, valb := Push(st.val, d), st.valb + 6;
    if valb >= 0 then Decoder(val, valb - 8, st.out + [Taken(val, valb)]) else Decoder(val, valb, st.out)
  }

  function Feed(st: Decoder, c: Octet): (r: Decoder)
    requires InStep(st)
    ensures InStep(r)
  {
    if Skipped(c) then st else FeedDigit(st, Digit(c))
  }

  function FeedAll(st: Decoder, s: seq<Octet>): (r: Decoder)
    requires InStep(st)
    ensures InStep(r)
    decreases |s|
  {
    if s == [] then st else FeedAll(Feed(st, s[0]), s[1..])
  }

  function Decoded(s: seq<Octet>): (r: seq<Octet>) {
    FeedAll(START, s).out
  }

  /** On words: two sextets pushed into any accumulator give back the byte that spans them. */
  lemma {:induction false} FirstByte(val: bv32, v: bv32)
    ensures Taken(Push(Push(val, Sextet(v, 0)), Sextet(v, 1)), 4) == (v >> 16) & 0xFF
  {
  }

  lemma {:induction false} SecondByte(val: bv32, v: bv32)
    ensures Taken(Push(Push(val, Sextet(v, 1)), Sextet(v, 2)), 2) == (v >> 8) & 0xFF
  {
  }

  lemma {:induction false} ThirdByte(val: bv32, v: bv32)
    ensures Taken(Push(Push(val, Sextet(v, 2)), Sextet(v, 3)), 0) == v & 0xFF
  {
  }

  /** The k-th byte of 24 bits, from the left. */
  function Part(v: bv32, k: nat): (c: Octet)
    requires k < 3
  {
    if k == 0 then (v >> 16) & 0xFF else if k == 1 then (v >> 8) & 0xFF else v & 0xFF
  }

  lemma {:induction false} PartsOfThree(a: Octet, b: Octet, c: Octet)
    ensures var v := ((a as bv32) << 16) | ((b as bv32) << 8) | (c as bv32);
            Part(v, 0) == a && Part(v, 1) == b && Part(v, 2) == c
  {
  }

  lemma {:induction false} PartsOfTwo(a: Octet, b: Octet)
    ensures var v := ((a as bv32) << 16) | ((b as bv32) << 8); Part(v, 0) == a && Part(v, 1) == b
  {
  }

  lemma {:induction false} PartOfOne(a: Octet)
    ensures Part((a as bv32) << 16, 0) == a
  {
  }

  lemma {:induction false} FeedLetter(st: Decoder, d: bv32)
    requires d < 64 && InStep(st)
    ensures Feed(st, Letter(d)) == FeedDigit(st, d)
  {
    DigitOfLetter(d);
  }

  /** Four digits, from an accumulator with nothing pending. */
  lemma {:induction false} FeedDigits(st: Decoder, v: bv32)
    requires st.valb == -8
    ensures var two := FeedDigit(FeedDigit(st, Sextet(v, 0)), Sextet(v, 1));
            var three := FeedDigit(two, Sextet(v, 2));
            var four := FeedDigit(three, Sextet(v, 3));
            && two.out == st.out + [Part(v, 0)]
            && three.out == st.out + [Part(v, 0)] + [Part(v, 1)]
            && four.out == st.out + [Part(v, 0)] + [Part(v, 1)] + [Part(v, 2)] && four.valb == -8
  {
    FirstByte(st.val, v);
    SecondByte(Push(st.val, Sextet(v, 0)), v);
    ThirdByte(Push(Push(st.val, Sextet(v, 0)), Sextet(v, 1)), v);
  }

  lemma {:induction false} FeedFour(st: Decoder, s: seq<Octet>)
    requires InStep(st) && |s| >= 4
    ensures FeedAll(st, s) == FeedAll(Feed(Feed(Feed(Feed(st, s[0]), s[1]), s[2]), s[3]), s[4..])
  {
    assert s[1..][1..] == s[2..] && s[2..][1..] == s[3..] && s[3..][1..] == s[4..];
    var one := Feed(st, s[0]);
    assert FeedAll(st, s) == FeedAll(one, s[1..]);
    var two := Feed(one, s[1]);
    assert FeedAll(one, s[1..]) == FeedAll(two, s[2..]);
    var three := Feed(two, s[2]);
    assert FeedAll(two, s[2..]) == FeedAll(three, s[3..]);
  }

  lemma {:induction false} FeedAppend(st: Decoder, a: seq<Octet>, b: seq<Octet>)
    requires InStep(st)
    ensures FeedAll(st, a + b) == FeedAll(FeedAll(st, a), b)
    decreases |a|
  {
    if a == [] {
      assert a + b == b;
    } else {
      assert (a + b)[1..] == a[1..] + b;
      FeedAppend(Feed(st, a[0]), a[1..], b);
    }
  }

  /** The four characters of a piece, one after the other. */
  lemma {:induction false} FeedPiece(st: Decoder, v: bv32, n: nat, q: seq<Octet>)
    requires st.valb == -8 && 0 < n <= 3 && q == Digits24(v, n)
    ensures FeedAll(st, q) ==
              var two := FeedDigit(FeedDigit(st, Sextet(v, 0)), Sextet(v, 1));
              if n == 1 then two else if n == 2 then FeedDigit(two, Sextet(v, 2))
              else FeedDigit(FeedDigit(two, Sextet(v, 2)), Sextet(v, 3))
  {
    FeedFour(st, q);
    FeedLetter(st, Sextet(v, 0));
    var one := FeedDigit(st, Sextet(v, 0));
    FeedLetter(one, Sextet(v, 1));
    var two := FeedDigit(one, Sextet(v, 1));
    FeedLetter(two, Sextet(v, 2));
    FeedLetter(FeedDigit(two, Sextet(v, 2)), Sextet(v, 3));
  }

  /** Fed to an accumulator with nothing pending, whatever it holds, a piece gives out its bytes. */
  ghost predicate Reads(piece: seq<Octet> -> seq<Octet>, st: Decoder, p: seq<Octet>) {
    st.valb == -8 && 0 < |p| <= 3 ==>
      var r := FeedAll(st, piece(p)); r.out == st.out + p && (|p| == 3 ==> r.valb == -8)
  }

  lemma {:induction false} ThreeRead(st: Decoder, a: Octet, b: Octet, c: Octet)
    requires st.valb == -8
    ensures var r := FeedAll(st, Piece([a, b, c])); r.valb == -8 && r.out == st.out + [a] + [b] + [c]
  {
    var v := Bits([a, b, c]);
    FeedPiece(st, v, 3, Piece([a, b, c]));
    FeedDigits(st, v);
    PartsOfThree(a, b, c);
  }

  lemma {:induction false} TwoRead(st: Decoder, a: Octet, b: Octet)
    requires st.valb == -8
    ensures FeedAll(st, Piece([a, b])).out == st.out + [a] + [b]
  {
    var v := Bits([a, b]);
    FeedPiece(st, v, 2, Piece([a, b]));
    FeedDigits(st, v);
    PartsOfTwo(a, b);
  }

  lemma {:induction false} OneRead(st: Decoder, a: Octet)
    requires st.valb == -8
    ensures FeedAll(st, Piece([a])).out == st.out + [a]
  {
    var v := Bits([a]);
    FeedPiece(st, v, 1, Piece([a]));
    FeedDigits(st, v);
    PartOfOne(a);
  }

  lemma {:induction false} PieceReads(st: Decoder, p: seq<Octet>)
    ensures Reads(Piece, st, p)
  {
    if st.valb == -8 && 0 < |p| <= 3 {
      if |p| == 3 {
        assert p == [p[0], p[1], p[2]];
        ThreeRead(st, p[0], p[1], p[2]);
      } else if |p| == 2 {
        assert p == [p[0], p[1]];
        TwoRead(st, p[0], p[1]);
      } else {
        assert p == [p[0]];
        OneRead(st, p[0]);
      }
    }
  }

  ghost predicate Readable(piece: seq<Octet> -> seq<Octet>) {
    forall st: Decoder, p :: Reads(piece, st, p)
  }

  lemma {:induction false} FeedThen(st: Decoder, q: seq<Octet>, rest: seq<Octet>, r: Decoder, p: seq<Octet>,
                                    more: seq<Octet>)
    requires InStep(st) && InStep(r) && r == FeedAll(st, q)
    requires r.out == st.out + p && FeedAll(r, rest).out == r.out + more
    ensures FeedAll(st, q + rest).out == st.out + (p + more)
  {
    FeedAppend(st, q, rest);
  }

  lemma {:induction false} FeedChunked(piece: seq<Octet> -> seq<Octet>, st: Decoder, s: seq<Octet>)
    requires st.valb == -8 && Readable(piece)
    ensures FeedAll(st, Chunked(piece, s)).out == st.out + s
    decreases |s|
  {
    if s != [] {
      var p, rest := s[..Cap(3, |s|)], s[Cap(3, |s|)..];
      assert Reads(piece, st, p);
      var r := FeedAll(st, piece(p));
      if rest != [] {
        FeedChunked(piece, r, rest);
      }
      FeedThen(st, piece(p), Chunked(piece, rest), r, p, rest);
      assert s == p + rest;
    }
  }

  /** Every byte string comes back. */
  lemma {:induction false} RoundTrip(s: seq<Octet>)
    ensures Decoded(Encoded(s)) == s
  {
    forall st: Decoder, p ensures Reads(Piece, st, p) {
      PieceReads(st, p);
    }
    FeedChunked(Piece, START, s);
  }

  // ------------------------------------------------------------------ what the decoder ignores

  function Digits(s: seq<Octet>): (r: seq<Octet>) {
    if s == [] then [] else if Skipped(s[0]) then Digits(s[1..]) else [s[0]] + Digits(s[1..])
  }

  /** Padding, line breaks and foreign characters make no difference, wherever they stand. */
  lemma {:induction false} FeedDigitsOnly(st: Decoder, s: seq<Octet>)
    requires InStep(st)
    ensures FeedAll(st, s) == FeedAll(st, Digits(s))
    decreases |s|
  {
    if s != [] {
      FeedDigitsOnly(Feed(st, s[0]), s[1..]);
      if !Skipped(s[0]) {
        assert Digits(s)[1..] == Digits(s[1..]);
      }
    }
  }

  /** A text decodes to s whenever its digits are those of the encoding of s. */
  lemma {:induction false} RoundTripBroken(s: seq<Octet>, t: seq<Octet>)
    requires Digits(t) == Digits(Encoded(s))
    ensures Decoded(t) == s
  {
    FeedDigitsOnly(START, t);
    FeedDigitsOnly(START, Encoded(s));
    RoundTrip(s);
  }

  // ------------------------------------------------------------------ the code

  /** The table lookups of one group. */
  method Spell(v: bv32, n: nat) returns (out: seq<Octet>)
    requires 0 < n <= 3
    ensures out == Digits24(v, n)
  {
    out := [Letter((v >> 18) & 0x3F)];
    out := out + [Letter((v >> 12) & 0x3F)];
    out := out + [if n > 1 then Letter((v >> 6) & 0x3F) else PAD];
    out := out + [if n > 2 then Letter(v & 0x3F) else PAD];
  }

  /** EtcdClient's last group: one or two bytes. */
  method EtcdRest(p: seq<Octet>) returns (v: bv32)
    requires 0 < |p| < 3
    ensures v == Bits(p)
  {
    v := (p[0] as bv32) << 16;
    if 1 < |p| {
      v := v | ((p[1] as bv32) << 8);
    }
  }

  /** EtcdClient's encoder: whole groups in a loop, then the rest. */
  method EncodeEtcd(input: seq<Octet>) returns (out: seq<Octet>)
    ensures out == Encoded(input)
  {
    out := [];
    var i := 0;
    while i + 3 <= |input|
      invariant i <= |input| && out + Encoded(input[i..]) == Encoded(input)
    {
      var quad := Spell(Bits(input[i..i + 3]), 3);
      ChunkedFrom(Piece, input, i);
      out := out + quad;
      i := i + 3;
    }
    if i < |input| {
      var v := EtcdRest(input[i..]);
      var quad := Spell(v, |input| - i);
      ChunkedFrom(Piece, input, i);
      assert input[i..] == input[i..|input|];
      out := out + quad;
    }
  }

  /** The 24 bits of one turn of the WebSocket client's loop, p being the up to three bytes from i on. */
  method ClientBits(p: seq<Octet>) returns (n: bv32)
    requires 0 < |p| <= 3
    ensures n == Bits(p)
  {
    n := (p[0] as bv32) << 16;
    if 1 < |p| {
      n := n | ((p[1] as bv32) << 8);
    }
    if 2 < |p| {
      n := n | (p[2] as bv32);
    }
  }

  /** The WebSocket client's encoder: one loop in steps of three, padding decided inside. */
  method EncodeClient(data: seq<Octet>) returns (result: seq<Octet>)
    ensures result == Encoded(data)
  {
    result := [];
    var i := 0;
    while i < |data|
      invariant i <= |data| + 2
      invariant result + Encoded(data[Cap(i, |data|)..]) == Encoded(data)
    {
      var p := data[i..Cap(i + 3, |data|)];
      var n := ClientBits(p);
      var quad := Spell(n, |p|);
      ChunkedFrom(Piece, data, i);
      result := result + quad;
      i := i + 3;
    }
  }

  /** The 24 bits of one turn of the accept key's loop: the parts of a group are or-ed at once. */
  method DigestBits(p: seq<Octet>) returns (n: bv32)
    requires 0 < |p| <= 3
    ensures n == Bits(p)
  {
    var a := (p[0] as bv32) << 16;
    var b: bv32 := if 1 < |p| then (p[1] as bv32) << 8 else 0;
    var c: bv32 := if 2 < |p| then p[2] as bv32 else 0;
    OrZero(a | b);
    OrZero(a);
    n := a | b | c;
  }

  lemma {:induction false} OrZero(x: bv32)
    ensures x | 0 == x
  {
  }

  /** The accept key's encoder, over the 20 bytes of a SHA-1 digest. */
  method EncodeDigest(hash: seq<Octet>) returns (result: seq<Octet>)
    requires |hash| == 20
    ensures result == Encoded(hash)
  {
    result := [];
    var i := 0;
    while i < |hash|
      invariant i <= |hash| + 2
      invariant result + Encoded(hash[Cap(i, |hash|)..]) == Encoded(hash)
    {
      var p := hash[i..Cap(i + 3, |hash|)];
      var n := DigestBits(p);
      var quad := Spell(n, |p|);
      ChunkedFrom(Piece, hash, i);
      result := result + quad;
      i := i + 3;
    }
  }

  /** The accept key has 28 characters. */
  lemma {:induction false} DigestLength(hash: seq<Octet>)
    requires |hash| == 20
    ensures |Encoded(hash)| == 28
  {
    EncodedLength(hash);
  }

  /** One character of EtcdClient's decoder. */
  method DecodeOne(c: Octet, val: bv32, valb: int, out: seq<Octet>) returns (val': bv32, valb': int, out': seq<Octet>)
    requires -8 <= valb < 0
    ensures Decoder(val', valb', out') == Feed(Decoder(val, valb, out), c)
  {
    val', valb', out' := val, valb, out;
    if c == PAD || c == NEWLINE || c == RETURN {
      return;
    }
    var d := Digit(c);
    if d == NOT_A_DIGIT {
      return;
    }
    val', valb', out' := DecodeDigit(d, val, valb, out);
  }

  method DecodeDigit(d: bv32, val: bv32, valb: int, out: seq<Octet>) returns (val': bv32, valb': int, out': seq<Octet>)
    requires -8 <= valb < 0
    ensures Decoder(val', valb', out') == FeedDigit(Decoder(val, valb, out), d)
  {
    val', valb', out' := (val << 6) | d, valb + 6, out;
    if valb' >= 0 {
      out' := out + [Taken(val', valb')];
      valb' := valb' - 8;
    }
  }

  method Decode(input: seq<Octet>) returns (out: seq<Octet>)
    ensures out == Decoded(input)
  {
    out := [];
    var val: bv32, valb := 0, -8;
    var i := 0;
    while i < |input|
      invariant i <= |input| && InStep(Decoder(val, valb, out))
      invariant FeedAll(Decoder(val, valb, out), input[i..]) == FeedAll(START, input)
    {
      FeedOneMore(Decoder(val, valb, out), input, i);
      val, valb, out := DecodeOne(input[i], val, valb, out);
      i := i + 1;
    }
  }

  lemma {:induction false} FeedOneMore(st: Decoder, s: seq<Octet>, i: nat)
    requires InStep(st) && i < |s|
    ensures FeedAll(st, s[i..]) == FeedAll(Feed(st, s[i]), s[i + 1..])
  {
    assert s[i..][1..] == s[i + 1..];
  }
}
