/** What the hash of consistent hashing tells apart, and so how many points a server has on the ring. */
module HashPoints {
  import opened Bytes
  import opened ConsistentHash

  // ------------------------------------------------------------------ the hash

  /** The same without the cut to 32 bits: 5381 and the bytes as digits to the base 33. */
  function Digits(s: seq<byte>): (n: nat) {
    if s == [] then 5381 else 33 * Digits(s[..|s| - 1]) + s[|s| - 1] as int
  }

  lemma {:induction false} HashSnoc(h: nat, s: seq<byte>, b: byte)
    requires h < TWO_32
    ensures HashFrom(h, s + [b]) == (33 * HashFrom(h, s) + b as int) % TWO_32
    decreases |s|
  {
    if s == [] {
      assert s + [b] == [b] && [b][1..] == [];
      assert HashFrom(h, [b]) == HashFrom((h * 33 + b as int) % TWO_32, []);
    } else {
      assert (s + [b])[1..] == s[1..] + [b];
      HashSnoc((h * 33 + s[0] as int) % TWO_32, s[1..], b);
    }
  }

  lemma {:induction false} ModStep(n: nat, c: nat)
    ensures (33 * (n % TWO_32) + c) % TWO_32 == (33 * n + c) % TWO_32
  {
    var q, r := n / TWO_32, n % TWO_32;
    var m := 33 * r + c;
    var q', r' := m / TWO_32, m % TWO_32;
    assert 33 * n + c == TWO_32 * (33 * q + q') + r';
    ModUnique(33 * n + c, TWO_32, 33 * q + q', r');
  }

  /** The hash is that number modulo 2^32. */
  lemma {:induction false} HashIs(s: seq<byte>)
    ensures Hash(s) == Digits(s) % TWO_32
  {
    if s == [] {
      ModUnique(5381, TWO_32, 0, 5381);
    } else {
      var init, b := s[..|s| - 1], s[|s| - 1];
      HashIs(init);
      assert s == init + [b];
      HashSnoc(5381, init, b);
      ModStep(Digits(init), b as int);
    }
  }

  /** Less than 2^32 apart, two numbers have the same remainder only if they are the same. */
  lemma {:induction false} NearRemainders(a: int, b: int)
    requires a - b < TWO_32 && b - a < TWO_32
    ensures a % TWO_32 == b % TWO_32 <==> a == b
  {
    var p, q := a / TWO_32, b / TWO_32;
    assert a == TWO_32 * p + a % TWO_32 && b == TWO_32 * q + b % TWO_32;
  }

  /** 33 is odd, so a step of the hash loses nothing. */
  lemma {:induction false} StepInjective(h: nat, g: nat, c: nat)
    requires h < TWO_32 && g < TWO_32 && (33 * h + c) % TWO_32 == (33 * g + c) % TWO_32
    ensures h == g
  {
    var p, q, d := (33 * h + c) / TWO_32, (33 * g + c) / TWO_32, h - g;
    var m := p - q;
    assert 33 * d == TWO_32 * m;
    assert 33 * 1041204193 == 8 * TWO_32 + 1;
    assert d == TWO_32 * (1041204193 * m - 8 * d);
  }

  /** Texts that differ in the last byte alone have different hashes. */
  lemma {:induction false} LastByteIff(s: seq<byte>, a: byte, b: byte)
    ensures Hash(s + [a]) == Hash(s + [b]) <==> a == b
  {
    HashSnoc(5381, s, a);
    HashSnoc(5381, s, b);
    NearRemainders(33 * Hash(s) + a as int, 33 * Hash(s) + b as int);
  }

  /** A common end neither separates hashes nor brings them together. */
  lemma {:induction false} SameEndIff(x: seq<byte>, y: seq<byte>, t: seq<byte>)
    ensures Hash(x + t) == Hash(y + t) <==> Hash(x) == Hash(y)
    decreases |t|
  {
    if t == [] {
      assert x + t == x && y + t == y;
    } else {
      var init, b := t[..|t| - 1], t[|t| - 1];
      SameEndIff(x, y, init);
      assert x + t == (x + init) + [b] && y + t == (y + init) + [b];
      HashSnoc(5381, x + init, b);
      HashSnoc(5381, y + init, b);
      if Hash(x + t) == Hash(y + t) {
        StepInjective(Hash(x + init), Hash(y + init), b as int);
      }
    }
  }

  /** Two servers share the point of a virtual node exactly when their addresses hash alike, and then every point. */
  lemma {:induction false} SharedPointIff(s: Backend, t: Backend, i: nat)
    ensures Hash(NodeKey(s, i)) == Hash(NodeKey(t, i)) <==> Hash(Address(s)) == Hash(Address(t))
  {
    var end := [35] + Decimal(i);
    assert NodeKey(s, i) == Address(s) + end && NodeKey(t, i) == Address(t) + end;
    SameEndIff(Address(s), Address(t), end);
  }

  // ------------------------------------------------------------------ numbers of nodes

  /** Decimal digits read to the base 33, with their codes. */
  function Tail(n: nat): (r: nat) {
    if n < 10 then 48 + n else 33 * Tail(n / 10) + 48 + n % 10
  }

  function Pow33(k: nat): (r: nat) { if k == 0 then 1 else 33 * Pow33(k - 1) }

  lemma {:induction false} DigitsSnoc(s: seq<byte>, d: seq<byte>, b: byte)
    ensures Digits(s + (d + [b])) == 33 * Digits(s + d) + b as int
  {
    var all := s + (d + [b]);
    assert all[..|all| - 1] == s + d;
  }

  lemma {:induction false} TailIs(s: seq<byte>, n: nat, k: nat)
    requires k == |Decimal(n)|
    ensures Digits(s + Decimal(n)) == Digits(s) * Pow33(k) + Tail(n)
  {
    if n < 10 {
      DigitsSnoc(s, [], (48 + n) as byte);
      assert s + [] == s && [] + [(48 + n) as byte] == Decimal(n);
      assert Pow33(1) == 33 * Pow33(0);
    } else {
      TailIs(s, n / 10, k - 1);
      DigitsSnoc(s, Decimal(n / 10), (48 + n % 10) as byte);
      OneMore(Digits(s), Pow33(k - 1), Tail(n / 10));
    }
  }

  lemma {:induction false} OneMore(a: nat, p: nat, b: nat)
    ensures 33 * (a * p + b) == a * (33 * p) + 33 * b
  {
  }

  lemma {:induction false} TailInjective(i: nat, j: nat)
    requires |Decimal(i)| == |Decimal(j)| && Tail(i) == Tail(j)
    ensures i == j
  {
    if i >= 10 && j >= 10 {
      assert 33 * Tail(i / 10) + i % 10 == 33 * Tail(j / 10) + j % 10;
      TailInjective(i / 10, j / 10);
    }
  }

  lemma {:induction false} TailBound(n: nat, k: nat)
    requires |Decimal(n)| == k
    ensures 32 * Tail(n) <= 57 * (Pow33(k) - 1) && Pow33(k) > 0
  {
    if n < 10 {
      assert Pow33(1) == 33 * Pow33(0);
    } else {
      TailBound(n / 10, k - 1);
    }
  }

  /** Virtual nodes of one server whose numbers have equally many digits, up to six, never share a point. */
  lemma {:induction false} NodesApart(s: Backend, i: nat, j: nat)
    requires |Decimal(i)| == |Decimal(j)| <= 6
    ensures Hash(NodeKey(s, i)) == Hash(NodeKey(s, j)) <==> i == j
  {
    var start, k := Address(s) + [35], |Decimal(i)|;
    HashIs(NodeKey(s, i));
    HashIs(NodeKey(s, j));
    TailIs(start, i, k);
    TailIs(start, j, k);
    TailBound(i, k);
    TailBound(j, k);
    Pow33Bound(k);
    var p := Digits(start) * Pow33(k);
    NearRemainders(p + Tail(i), p + Tail(j));
    if Tail(i) == Tail(j) {
      TailInjective(i, j);
    }
  }

  lemma {:induction false} Pow33Bound(k: nat)
    requires k <= 6
    ensures 2 * Pow33(k) <= TWO_32
  {
    assert Pow33(2) == 33 * 33;
    assert Pow33(4) == 33 * 33 * Pow33(2);
    assert Pow33(6) == 33 * 33 * Pow33(4);
    assert Pow33(1) <= Pow33(2) && Pow33(3) <= Pow33(4) && Pow33(5) <= Pow33(6);
  }

  // ------------------------------------------------------------------ points on the ring

  /** All numbers from lo to hi have equally many digits, and not more than six. */
  ghost predicate Group(lo: nat, hi: nat) {
    forall i | lo <= i < hi :: |Decimal(i)| == |Decimal(lo)| <= 6
  }

  function Points(s: Backend, lo: nat, hi: nat): (r: set<nat>) {
    set i | lo <= i < hi :: Hash(NodeKey(s, i))
  }

  lemma {:induction false} PointsCount(s: Backend, lo: nat, hi: nat)
    requires lo <= hi && Group(lo, hi)
    ensures |Points(s, lo, hi)| == hi - lo
    decreases hi
  {
    if lo < hi {
      PointsCount(s, lo, hi - 1);
      NewPoint(s, lo, hi);
      PointsSnoc(s, lo, hi);
    }
  }

  lemma {:induction false} NewPoint(s: Backend, lo: nat, hi: nat)
    requires lo < hi && Group(lo, hi)
    ensures Hash(NodeKey(s, hi - 1)) !in Points(s, lo, hi - 1)
  {
    forall i | lo <= i < hi - 1 ensures Hash(NodeKey(s, i)) != Hash(NodeKey(s, hi - 1)) {
      NodesApart(s, i, hi - 1);
    }
  }

  lemma {:induction false} PointsSnoc(s: Backend, lo: nat, hi: nat)
    requires lo < hi
    ensures Points(s, lo, hi) == Points(s, lo, hi - 1) + {Hash(NodeKey(s, hi - 1))}
  {
  }

  lemma {:induction false} SubsetSize(a: set<nat>, b: set<nat>)
    requires a <= b
    ensures |a| <= |b|
  {
    if a != {} {
      var x :| x in a;
      SubsetSize(a - {x}, b - {x});
    }
  }

  /** A server placed on an empty ring has as many points as nodes whose numbers have equally many digits. */
  lemma {:induction false} EnoughPoints(s: Backend, lo: nat, hi: nat, n: nat)
    requires lo <= hi <= n && Group(lo, hi)
    ensures |Place(map[], s, n)| >= hi - lo
  {
    PointsCount(s, lo, hi);
    forall h | h in Points(s, lo, hi) ensures h in Place(map[], s, n) {
      PlaceIs(map[], s, n, h);
      var i :| lo <= i < hi && Hash(NodeKey(s, i)) == h;
      assert HasNode(s, n, h);
    }
    SubsetSize(Points(s, lo, hi), Place(map[], s, n).Keys);
  }

  lemma {:induction false} TwoDigits(i: nat)
    requires 10 <= i < 100
    ensures |Decimal(i)| == 2
  {
  }

  /** A healthy server alone: at least 10 points from 10 nodes on, at least 90 from 100 on, as with the default 150. */
  lemma {:induction false} AloneOnTheRing(s: Backend, n: nat)
    requires s.healthy
    ensures n >= 10 ==> |Build([s], n)| >= 10
    ensures n >= 100 ==> |Build([s], n)| >= 90
  {
    assert [s][..0] == [];
    assert Build([s], n) == Place(Build([], n), s, n);
    if n >= 10 {
      EnoughPoints(s, 0, 10, n);
    }
    if n >= 100 {
      forall i | 10 <= i < 100 ensures |Decimal(i)| == 2 { TwoDigits(i); }
      EnoughPoints(s, 10, 100, n);
    }
  }

  /** One virtual node written out. */
  lemma {:induction false} NodeWritten()
    ensures NodeKey(Backend(0, Ascii("h1"), 80, true), 7) == Ascii("h1:80#7")
    ensures Hash(Ascii("a")) == 177670
  {
    assert Decimal(8) == [56];
    assert Decimal(80) == Decimal(8) + [48];
    assert Decimal(7) == [55];
    HashIs(Ascii("a"));
    assert Ascii("a")[..0] == [];
  }
}
