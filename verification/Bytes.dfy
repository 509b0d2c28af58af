/** Byte strings as the network code sees them, and big-endian numbers inside them. */
module Bytes {

  /** A byte on the wire or in a buffer. */
  newtype byte = x: int | 0 <= x < 256

  datatype Option<+T> = None | Some(value: T)

  /** The bytes of a text of ASCII characters. */
  function Ascii(s: string): (r: seq<byte>) {
    seq(|s|, i requires 0 <= i < |s| => (s[i] as int % 256) as byte)
  }

  /** Sizes and counters of 64 bits. */
  const TWO_64: nat := 0x1_0000_0000_0000_0000

  /** All pieces of a list, one after the other. */
  function Concat<T>(parts: seq<seq<T>>): (r: seq<T>) {
    if parts == [] then [] else parts[0] + Concat(parts[1..])
  }

  lemma {:induction false} ConcatSnoc<T>(parts: seq<seq<T>>, last: seq<T>)
    ensures Concat(parts + [last]) == Concat(parts) + last
  {
    if parts == [] {
      assert parts + [last] == [last];
      assert [last][1..] == [];
    } else {
      assert (parts + [last])[1..] == parts[1..] + [last];
      ConcatSnoc(parts[1..], last);
    }
  }

  lemma {:induction false} ConcatAppend<T>(a: seq<seq<T>>, b: seq<seq<T>>)
    ensures Concat(a + b) == Concat(a) + Concat(b)
  {
    if a == [] {
      assert a + b == b;
    } else {
      assert (a + b)[1..] == a[1..] + b;
      ConcatAppend(a[1..], b);
    }
  }

  /** Number of values that fit in k bytes. */
  function Pow256(k: nat): (r: nat)
    ensures r > 0
  {
    if k == 0 then 1 else 256 * Pow256(k - 1)
  }

  /** Exclusive or of two numbers, bit by bit. */
  function Xor(a: nat, b: nat): (r: nat) {
    if a == 0 && b == 0 then 0 else 2 * Xor(a / 2, b / 2) + (if a % 2 == b % 2 then 0 else 1)
  }

  lemma {:induction false} XorBound(a: nat, b: nat, bound: nat)
    requires a < bound && b < bound && (bound == 1 || bound % 2 == 0)
    requires bound == 1 || bound == 2 || bound == 4 || bound == 8 || bound == 16 ||
             bound == 32 || bound == 64 || bound == 128 || bound == 256
    ensures Xor(a, b) < bound
  {
    if bound > 1 {
      XorBound(a / 2, b / 2, bound / 2);
    }
  }

  /** Bit i of a number. */
  function Bit(n: nat, i: nat): (b: nat)
    ensures b < 2
  {
    if i == 0 then n % 2 else Bit(n / 2, i - 1)
  }

  /** A bit of the result is set exactly where the two numbers differ. */
  lemma {:induction false} XorBits(a: nat, b: nat, i: nat)
    ensures Bit(Xor(a, b), i) == 1 <==> Bit(a, i) != Bit(b, i)
    decreases i
  {
    if i == 0 {
      assert Xor(a, b) % 2 == if a % 2 == b % 2 then 0 else 1;
    } else {
      assert Xor(a, b) / 2 == Xor(a / 2, b / 2);
      XorBits(a / 2, b / 2, i - 1);
    }
  }

  /** Exclusive or with the same number twice changes nothing. */
  lemma {:induction false} XorTwice(a: nat, b: nat)
    ensures Xor(Xor(a, b), b) == a
    decreases a + b
  {
    if a != 0 || b != 0 {
      XorTwice(a / 2, b / 2);
      var x := Xor(a, b);
      assert x / 2 == Xor(a / 2, b / 2);
    }
  }

  function XorByte(a: byte, b: byte): (r: byte)
    ensures r as int == Xor(a as int, b as int)
  {
    XorBound(a as int, b as int, 256);
    Xor(a as int, b as int) as byte
  }

  /** The low k bytes of n, most significant first. */
  function BigEndian(n: nat, k: nat): (r: seq<byte>)
    ensures |r| == k
  {
    if k == 0 then [] else BigEndian(n / 256, k - 1) + [(n % 256) as byte]
  }

  /** The number a big-endian byte string stands for. */
  function FromBigEndian(s: seq<byte>): (n: nat) {
    if s == [] then 0 else FromBigEndian(s[..|s| - 1]) * 256 + s[|s| - 1] as int
  }

  lemma {:induction false} BigEndianRoundTrip(n: nat, k: nat)
    ensures FromBigEndian(BigEndian(n, k)) == n % Pow256(k)
  {
    if k > 0 {
      BigEndianRoundTrip(n / 256, k - 1);
      var s := BigEndian(n, k);
      assert s[..|s| - 1] == BigEndian(n / 256, k - 1);
      var p := Pow256(k - 1);
      assert FromBigEndian(s) == (n / 256 % p) * 256 + n % 256;
      DigitSplit(n, p);
    }
  }

  /** Byte i from the right counts powers of 256. */
  lemma {:induction false} BigEndianAt(n: nat, k: nat, i: nat)
    requires i < k
    ensures BigEndian(n, k)[k - 1 - i] as int == n / Pow256(i) % 256
  {
    if i > 0 {
      BigEndianAt(n / 256, k - 1, i - 1);
      DigitSplit(n, Pow256(i - 1));
    }
  }

  lemma {:induction false} DigitSplit(n: nat, p: nat)
    requires p > 0
    ensures n % (256 * p) == (n / 256 % p) * 256 + n % 256
    ensures n / (256 * p) == n / 256 / p
  {
    var q, r := n / 256, n % 256;
    var a, b := q / p, q % p;
    assert q == p * a + b;
    assert n == 256 * (p * a + b) + r;
    assert n == (256 * p) * a + (256 * b + r) by {
      assert 256 * (p * a) == (256 * p) * a;
    }
    assert 0 <= 256 * b + r < 256 * p;
    ModUnique(n, 256 * p, a, 256 * b + r);
  }

  lemma {:induction false} ModUnique(n: int, m: nat, q: int, r: nat)
    requires m > 0 && n == m * q + r && r < m
    ensures n % m == r && n / m == q
  {
    var d := q - n / m;
    assert m * d == n % m - r by {
      assert m * d == m * q - m * (n / m);
    }
    assert d >= 1 ==> m * d >= m;
    assert d <= -1 ==> m * d <= -(m as int);
  }

  lemma {:induction false} FromBigEndianBound(s: seq<byte>)
    ensures FromBigEndian(s) < Pow256(|s|)
  {
    if s != [] {
      FromBigEndianBound(s[..|s| - 1]);
    }
  }

  /** Whether pat stands in s at index j. */
  predicate MatchesAt(s: seq<byte>, pat: seq<byte>, j: nat) {
    j + |pat| <= |s| && s[j..j + |pat|] == pat
  }

  /** First occurrence of pat in s at or after index from: memmem and std::string::find. */
  function Find(s: seq<byte>, pat: seq<byte>, from: nat): (r: Option<nat>)
    ensures r.Some? ==> from <= r.value && MatchesAt(s, pat, r.value)
    ensures r.Some? ==> forall j | from <= j < r.value :: !MatchesAt(s, pat, j)
    ensures r.None? ==> forall j | from <= j :: !MatchesAt(s, pat, j)
    decreases |s| - from
  {
    if MatchesAt(s, pat, from) then Some(from)
    else if from >= |s| then None
    else Find(s, pat, from + 1)
  }

  /** Bytes that come later cannot move the first occurrence. */
  lemma {:induction false} FindStable(s: seq<byte>, t: seq<byte>, pat: seq<byte>, from: nat)
    requires Find(s, pat, from).Some?
    ensures Find(s + t, pat, from) == Find(s, pat, from)
  {
    var v := Find(s, pat, from).value;
    assert (s + t)[v..v + |pat|] == s[v..v + |pat|];
    assert MatchesAt(s + t, pat, v);
    var w := Find(s + t, pat, from).value;
    assert w <= v;
    assert s[w..w + |pat|] == (s + t)[w..w + |pat|];
    assert MatchesAt(s, pat, w);
  }

  /** Cutting the string after the first occurrence keeps it. */
  lemma {:induction false} FindInPrefix(s: seq<byte>, k: nat, pat: seq<byte>, from: nat)
    requires k <= |s|
    ensures Find(s[..k], pat, from).Some? <==>
            Find(s, pat, from).Some? && Find(s, pat, from).value + |pat| <= k
    ensures Find(s[..k], pat, from).Some? ==> Find(s[..k], pat, from) == Find(s, pat, from)
  {
    assert s[..k] + s[k..] == s;
    if Find(s[..k], pat, from).Some? {
      FindStable(s[..k], s[k..], pat, from);
    }
    if Find(s, pat, from).Some? && Find(s, pat, from).value + |pat| <= k {
      FoundInPrefix(s, k, pat, from);
    }
  }

  lemma {:induction false} FoundInPrefix(s: seq<byte>, k: nat, pat: seq<byte>, from: nat)
    requires k <= |s| && Find(s, pat, from).Some? && Find(s, pat, from).value + |pat| <= k
    ensures Find(s[..k], pat, from).Some?
  {
    var v := Find(s, pat, from).value;
    assert s[..k][v..v + |pat|] == s[v..v + |pat|];
    assert MatchesAt(s[..k], pat, v);
  }

  predicate IsDigit(b: byte) { 48 <= b <= 57 }

  /** std::to_string of a number that is not negative. */
  function Decimal(n: nat): (r: seq<byte>)
    ensures r != [] && forall i | 0 <= i < |r| :: IsDigit(r[i])
  {
    if n < 10 then [(48 + n) as byte] else Decimal(n / 10) + [(48 + n % 10) as byte]
  }
}
