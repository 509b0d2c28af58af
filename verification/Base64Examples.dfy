/** The alphabet (table 1 of RFC 4648) and the test vectors of its section 10, in ASCII codes. */
module Base64Examples {
  import opened Base64

  /** A to Z, a to z, 0 to 9, plus and slash, in this order; what is missing is filled with equals signs. */
  lemma {:induction false} AlphabetIs(d: bv32)
    requires d < 63
    ensures Letter(0) == 'A' as bv32 && Letter(25) == 'Z' as bv32 && Letter(26) == 'a' as bv32
    ensures Letter(51) == 'z' as bv32 && Letter(52) == '0' as bv32 && Letter(61) == '9' as bv32
    ensures Letter(62) == '+' as bv32 && Letter(63) == '/' as bv32 && PAD == '=' as bv32
    ensures d != 25 && d != 51 && d < 61 ==> Letter(d + 1) == Letter(d) + 1
  {
  }

  // foo is Zm9v
  lemma {:induction false} FooIs()
    ensures Piece([102, 111, 111]) == [90, 109, 57, 118]
  {
  }

  // bar is YmFy
  lemma {:induction false} BarIs()
    ensures Piece([98, 97, 114]) == [89, 109, 70, 121]
  {
  }

  // ba is YmE=
  lemma {:induction false} BaIs()
    ensures Piece([98, 97]) == [89, 109, 69, 61]
  {
  }

  // b is Yg==
  lemma {:induction false} BIs()
    ensures Piece([98]) == [89, 103, 61, 61]
  {
  }

  // fo is Zm8=
  lemma {:induction false} FoIs()
    ensures Piece([102, 111]) == [90, 109, 56, 61]
  {
  }

  // f is Zg==
  lemma {:induction false} FIs()
    ensures Piece([102]) == [90, 103, 61, 61]
  {
  }

  lemma {:induction false} OnePiece(p: seq<Octet>)
    requires 0 < |p| <= 3
    ensures Encoded(p) == Piece(p)
  {
    assert p[..|p|] == p && p[|p|..] == [];
    assert Chunked(Piece, []) == [];
    assert Chunked(Piece, p) == Piece(p) + Chunked(Piece, p[Cap(3, |p|)..]);
  }

  lemma {:induction false} TwoPieces(p: seq<Octet>, q: seq<Octet>, s: seq<Octet>)
    requires |p| == 3 && 0 < |q| <= 3 && s == p + q
    ensures Encoded(s) == Piece(p) + Piece(q)
  {
    assert s[..3] == p && s[3..] == q;
    OnePiece(q);
  }

  /** f, fo and foo are Zg==, Zm8= and Zm9v. */
  lemma {:induction false} ShortVectors()
    ensures Encoded([102]) == [90, 103, 61, 61]
    ensures Encoded([102, 111]) == [90, 109, 56, 61]
    ensures Encoded([102, 111, 111]) == [90, 109, 57, 118]
  {
    FIs();
    OnePiece([102]);
    FoIs();
    OnePiece([102, 111]);
    FooIs();
    OnePiece([102, 111, 111]);
  }

  /** foob, fooba and foobar are Zm9vYg==, Zm9vYmE= and Zm9vYmFy. */
  lemma {:induction false} LongVectors()
    ensures Encoded([102, 111, 111, 98]) == [90, 109, 57, 118, 89, 103, 61, 61]
    ensures Encoded([102, 111, 111, 98, 97]) == [90, 109, 57, 118, 89, 109, 69, 61]
    ensures Encoded([102, 111, 111, 98, 97, 114]) == [90, 109, 57, 118, 89, 109, 70, 121]
  {
    FooIs();
    BIs();
    TwoPieces([102, 111, 111], [98], [102, 111, 111, 98]);
    BaIs();
    TwoPieces([102, 111, 111], [98, 97], [102, 111, 111, 98, 97]);
    BarIs();
    TwoPieces([102, 111, 111], [98, 97, 114], [102, 111, 111, 98, 97, 114]);
  }
}
