/** Smooth weighted round robin: exactly fair over every window of one total weight. */
module WeightedRoundRobin {
  import opened Bytes

  datatype Server = Server(weight: int, current: int, healthy: bool)

  datatype Choice = NoServer | Picked(index: nat)

  // ------------------------------------------------------------------ one selection

  function Bump(s: Server): (r: Server) {
    if s.healthy then s.(current := s.current + s.weight) else s
  }

  function Bumped(ss: seq<Server>): (r: seq<Server>) {
    seq(|ss|, i requires 0 <= i < |ss| => Bump(ss[i]))
  }

  /** Total weight of the healthy servers. */
  function Total(ss: seq<Server>): (w: int) {
    if ss == [] then 0
    else Total(ss[..|ss| - 1]) + (if ss[|ss| - 1].healthy then ss[|ss| - 1].weight else 0)
  }

  /** Sum of the current weights of the healthy servers. */
  function Balance(ss: seq<Server>): (b: int) {
    if ss == [] then 0
    else Balance(ss[..|ss| - 1]) + (if ss[|ss| - 1].healthy then ss[|ss| - 1].current else 0)
  }

  /** The first healthy server that no other exceeds. */
  ghost predicate IsBest(ss: seq<Server>, p: nat) {
    && p < |ss| && ss[p].healthy
    && (forall j | 0 <= j < |ss| && ss[j].healthy :: ss[j].current <= ss[p].current)
    && (forall j | 0 <= j < p && ss[j].healthy :: ss[j].current < ss[p].current)
  }

  /** The running maximum of the loop. */
  function Best(ss: seq<Server>): (c: Choice)
    ensures c.Picked? ==> c.index < |ss|
  {
    if ss == [] then NoServer
    else
      var c, s := Best(ss[..|ss| - 1]), ss[|ss| - 1];
      if s.healthy && (c.NoServer? || s.current > ss[c.index].current) then Picked(|ss| - 1) else c
  }

  /** The running maximum is the first healthy server that no other exceeds; none only if nobody is healthy. */
  lemma {:induction false} BestIsBest(ss: seq<Server>)
    ensures match Best(ss)
            case NoServer => forall i | 0 <= i < |ss| :: !ss[i].healthy
            case Picked(p) => IsBest(ss, p)
  {
    if ss != [] {
      BestIsBest(ss[..|ss| - 1]);
    }
  }

  /** Which server select returns. */
  function Pick(ss: seq<Server>): (c: Choice) { Best(Bumped(ss)) }

  /** What select does to the servers. */
  function Selected(ss: seq<Server>): (r: seq<Server>)
    ensures |r| == |ss|
  {
    match Pick(ss)
    case NoServer => ss
    case Picked(p) => Bumped(ss)[p := Bumped(ss)[p].(current := Bumped(ss)[p].current - Total(ss))]
  }

  // ------------------------------------------------------------------ runs of selections

  function Iterate<T>(f: T -> T, x: T, n: nat): (r: T) {
    if n == 0 then x else f(Iterate(f, x, n - 1))
  }

  lemma {:induction false} IterateAdds<T>(f: T -> T, x: T, a: nat, b: nat)
    ensures Iterate(f, Iterate(f, x, a), b) == Iterate(f, x, a + b)
  {
    if b > 0 {
      IterateAdds(f, x, a, b - 1);
    }
  }

  /** The servers after n selections. */
  function After(ss: seq<Server>, n: nat): (r: seq<Server>) { Iterate(Selected, ss, n) }

  /** In how many of the first n rounds something happens. */
  function Hits(hit: nat -> bool, n: nat): (c: nat) {
    if n == 0 then 0 else Hits(hit, n - 1) + (if hit(n - 1) then 1 else 0)
  }

  /** The selections that return server i. */
  function Returned(ss: seq<Server>, i: nat): (hit: nat -> bool) { (k: nat) => Pick(After(ss, k)) == Picked(i) }

  /** How often n selections return server i. */
  function Count(ss: seq<Server>, n: nat, i: nat): (c: nat) { Hits(Returned(ss, i), n) }

  lemma {:induction false} HitsSame(f: nat -> bool, g: nat -> bool, n: nat)
    requires forall k | 0 <= k < n :: f(k) == g(k)
    ensures Hits(f, n) == Hits(g, n)
  {
    if n > 0 {
      HitsSame(f, g, n - 1);
    }
  }

  lemma {:induction false} HitsSplit(f: nat -> bool, g: nat -> bool, a: nat, b: nat)
    requires forall k | 0 <= k < b :: f(a + k) == g(k)
    ensures Hits(f, a + b) == Hits(f, a) + Hits(g, b)
  {
    if b > 0 {
      HitsSplit(f, g, a, b - 1);
      assert f(a + (b - 1)) == g(b - 1);
    }
  }

  /** The pool the law is about: nobody with a negative weight, at least one unit of weight. */
  ghost predicate Sane(ss: seq<Server>) {
    (forall i | 0 <= i < |ss| && ss[i].healthy :: ss[i].weight >= 0) && Total(ss) >= 1
  }

  /** Same weights, same health. */
  ghost predicate SamePool(a: seq<Server>, b: seq<Server>) {
    |a| == |b| && forall i | 0 <= i < |a| :: a[i].weight == b[i].weight && a[i].healthy == b[i].healthy
  }

  lemma {:induction false} SameTotal(a: seq<Server>, b: seq<Server>)
    requires SamePool(a, b)
    ensures Total(a) == Total(b)
  {
    if a != [] {
      SameTotal(a[..|a| - 1], b[..|b| - 1]);
    }
  }

  /** Bumping adds the total weight to the balance. */
  lemma {:induction false} BumpedBalance(ss: seq<Server>)
    ensures Balance(Bumped(ss)) == Balance(ss) + Total(ss)
  {
    if ss != [] {
      BumpedBalance(ss[..|ss| - 1]);
      assert Bumped(ss)[..|ss| - 1] == Bumped(ss[..|ss| - 1]);
    }
  }

  lemma {:induction false} BalanceUpdate(ss: seq<Server>, p: nat, x: int)
    requires p < |ss| && ss[p].healthy
    ensures Balance(ss[p := ss[p].(current := x)]) == Balance(ss) - ss[p].current + x
  {
    var r := ss[p := ss[p].(current := x)];
    var n := |ss| - 1;
    if p < n {
      BalanceUpdate(ss[..n], p, x);
      assert r[..n] == ss[..n][p := ss[..n][p].(current := x)];
    } else {
      assert r[..n] == ss[..n];
    }
  }

  /** A positive balance needs a positive member. */
  lemma {:induction false} SomePositive(ss: seq<Server>)
    requires forall i | 0 <= i < |ss| && ss[i].healthy :: ss[i].current <= 0
    ensures Balance(ss) <= 0
  {
    if ss != [] {
      SomePositive(ss[..|ss| - 1]);
    }
  }

  lemma {:induction false} SomeHealthy(ss: seq<Server>)
    requires forall i | 0 <= i < |ss| :: !ss[i].healthy
    ensures Total(ss) == 0
  {
    if ss != [] {
      SomeHealthy(ss[..|ss| - 1]);
    }
  }

  /** The current weights sum to zero and none falls to minus the total. */
  ghost predicate Balanced(ss: seq<Server>) {
    Balance(ss) == 0 && forall i | 0 <= i < |ss| && ss[i].healthy :: ss[i].current > -Total(ss)
  }

  /** What a selection does to server i. */
  lemma {:induction false} SelectedAt(ss: seq<Server>, i: nat)
    requires i < |ss|
    ensures Selected(ss)[i].weight == ss[i].weight && Selected(ss)[i].healthy == ss[i].healthy
    ensures Pick(ss).Picked? ==>
            Selected(ss)[i].current == ss[i].current + (if ss[i].healthy then ss[i].weight else 0)
                                       - (if Pick(ss) == Picked(i) then Total(ss) else 0)
    ensures Pick(ss) == Picked(i) ==> ss[i].healthy
  {
    BestIsBest(Bumped(ss));
  }

  lemma {:induction false} SelectedPool(ss: seq<Server>)
    ensures SamePool(ss, Selected(ss)) && Total(Selected(ss)) == Total(ss)
  {
    forall i | 0 <= i < |ss|
      ensures Selected(ss)[i].weight == ss[i].weight && Selected(ss)[i].healthy == ss[i].healthy
    {
      SelectedAt(ss, i);
    }
    SameTotal(ss, Selected(ss));
  }

  lemma {:induction false} SomebodyPicked(ss: seq<Server>)
    requires Total(ss) >= 1
    ensures Pick(ss).Picked?
  {
    BestIsBest(Bumped(ss));
    if Pick(ss).NoServer? {
      forall i | 0 <= i < |ss| ensures !ss[i].healthy { assert !Bumped(ss)[i].healthy; }
      SomeHealthy(ss);
    }
  }

  /** The server picked has a positive current weight after the bump. */
  lemma {:induction false} PickedPositive(ss: seq<Server>)
    requires Total(ss) >= 1 && Balance(ss) == 0 && Pick(ss).Picked?
    ensures Pick(ss).index < |ss| && Bumped(ss)[Pick(ss).index].healthy && Bumped(ss)[Pick(ss).index].current >= 1
  {
    var b, p := Bumped(ss), Pick(ss).index;
    BestIsBest(b);
    BumpedBalance(ss);
    if b[p].current <= 0 {
      SomePositive(b);
    }
  }

  /** One selection keeps the balance and the bound. */
  lemma {:induction false} SelectionBalanced(ss: seq<Server>)
    requires Sane(ss) && Balanced(ss)
    ensures Pick(ss).Picked? && Balanced(Selected(ss))
  {
    var b, w := Bumped(ss), Total(ss);
    SomebodyPicked(ss);
    PickedPositive(ss);
    var p := Pick(ss).index;
    BumpedBalance(ss);
    BalanceUpdate(b, p, b[p].current - w);
    SelectedPool(ss);
    forall i | 0 <= i < |ss| && Selected(ss)[i].healthy ensures Selected(ss)[i].current > -w {
      assert b[i] == Bump(ss[i]);
      SelectedAt(ss, i);
    }
  }

  lemma {:induction false} SaneKept(ss: seq<Server>)
    requires Sane(ss)
    ensures Sane(Selected(ss))
  {
    SelectedPool(ss);
    var r := Selected(ss);
    forall i | 0 <= i < |r| && r[i].healthy ensures r[i].weight >= 0 { SelectedAt(ss, i); }
  }

  ghost predicate Fresh(ss: seq<Server>) {
    forall i | 0 <= i < |ss| && ss[i].healthy :: ss[i].current == 0
  }

  lemma {:induction false} FreshBalance(ss: seq<Server>)
    requires Fresh(ss)
    ensures Balance(ss) == 0
  {
    if ss != [] {
      FreshBalance(ss[..|ss| - 1]);
    }
  }

  /**
   Over every run: the sum stays zero, everyone stays above minus the total, and there is always somebody to return.
   */
  lemma {:induction false} AlwaysBalanced(ss: seq<Server>, n: nat)
    requires Sane(ss) && Fresh(ss)
    ensures Sane(After(ss, n)) && Balanced(After(ss, n))
    ensures Total(After(ss, n)) == Total(ss) && Pick(After(ss, n)).Picked?
  {
    if n == 0 {
      FreshBalance(ss);
    } else {
      AlwaysBalanced(ss, n - 1);
      var r := After(ss, n - 1);
      SelectionBalanced(r);
      SelectedPool(r);
      SaneKept(r);
    }
    SomebodyPicked(After(ss, n));
  }

  lemma {:induction false} PoolKept(ss: seq<Server>, n: nat, i: nat)
    requires i < |ss|
    ensures |After(ss, n)| == |ss|
    ensures After(ss, n)[i].weight == ss[i].weight && After(ss, n)[i].healthy == ss[i].healthy
  {
    if n > 0 {
      PoolKept(ss, n - 1, i);
      SelectedAt(After(ss, n - 1), i);
    }
  }

  // ------------------------------------------------------------------ exact fairness

  /** n additions of a number. */
  function Times(n: nat, x: int): (r: int) { if n == 0 then 0 else Times(n - 1, x) + x }

  lemma {:induction false} TimesIs(n: nat, x: int)
    ensures Times(n, x) == n * x
  {
    if n > 0 {
      TimesIs(n - 1, x);
    }
  }

  /** One selection in a run, seen from server i. */
  lemma {:induction false} Move(ss: seq<Server>, n: nat, i: nat)
    requires Sane(ss) && Fresh(ss) && i < |ss| && ss[i].healthy
    ensures |After(ss, n)| == |After(ss, n + 1)| == |ss|
    ensures After(ss, n + 1)[i].current ==
            After(ss, n)[i].current + ss[i].weight - (if Returned(ss, i)(n) then Total(ss) else 0)
  {
    AlwaysBalanced(ss, n);
    PoolKept(ss, n, i);
    SelectedAt(After(ss, n), i);
  }

  /** A number that grows by w every round and shrinks by t on every hit. */
  lemma {:induction false} Accounting(cur: nat -> int, hit: nat -> bool, w: int, t: int, n: nat)
    requires forall k | 0 <= k < n :: cur(k + 1) == cur(k) + w - (if hit(k) then t else 0)
    ensures cur(n) == cur(0) + Times(n, w) - Times(Hits(hit, n), t)
  {
    if n > 0 {
      Accounting(cur, hit, w, t, n - 1);
      assert cur((n - 1) + 1) == cur(n - 1) + w - (if hit(n - 1) then t else 0);
    }
  }

  /** What a server has gained and paid so far is its current weight. */
  lemma {:induction false} Ledger(ss: seq<Server>, n: nat, i: nat)
    requires Sane(ss) && Fresh(ss) && i < |ss| && ss[i].healthy
    ensures |After(ss, n)| == |ss|
    ensures After(ss, n)[i].current == Times(n, ss[i].weight) - Times(Count(ss, n, i), Total(ss))
  {
    var cur := (k: nat) => if i < |After(ss, k)| then After(ss, k)[i].current else 0;
    forall k | 0 <= k < n
      ensures cur(k + 1) == cur(k) + ss[i].weight - (if Returned(ss, i)(k) then Total(ss) else 0)
    {
      Move(ss, k, i);
    }
    Accounting(cur, Returned(ss, i), ss[i].weight, Total(ss), n);
    PoolKept(ss, n, i);
  }

  /** Nobody is returned more often than its weight in the first Total selections. */
  lemma {:induction false} AtMostWeight(ss: seq<Server>, i: nat)
    requires Sane(ss) && Fresh(ss) && i < |ss| && ss[i].healthy
    ensures Count(ss, Total(ss), i) <= ss[i].weight
  {
    var w, c := Total(ss), Count(ss, Total(ss), i);
    Ledger(ss, w, i);
    AlwaysBalanced(ss, w);
    PoolKept(ss, w, i);
    TimesIs(w, ss[i].weight);
    TimesIs(c, w);
    Cancelling(w, ss[i].weight, c);
  }

  lemma {:induction false} Cancelling(w: nat, a: nat, c: nat)
    requires w > 0 && w * a - c * w > -(w as int)
    ensures c <= a
  {
    assert w * a - c * w == w * (a - c);
    assert a - c <= -1 ==> w * (a - c) <= -(w as int);
  }

  /** The rounds in which the pick is i. */
  function Is(pick: nat -> nat, i: nat): (hit: nat -> bool) { (k: nat) => pick(k) == i }

  /** Hits summed over the healthy ones among the first m servers. */
  function Returns(ss: seq<Server>, pick: nat -> nat, n: nat, m: nat): (r: nat)
    requires m <= |ss|
  {
    if m == 0 then 0 else Returns(ss, pick, n, m - 1) + (if ss[m - 1].healthy then Hits(Is(pick, m - 1), n) else 0)
  }

  lemma {:induction false} ReturnsStep(ss: seq<Server>, pick: nat -> nat, n: nat, m: nat)
    requires m <= |ss| && pick(n) < |ss| && ss[pick(n)].healthy
    ensures Returns(ss, pick, n + 1, m) == Returns(ss, pick, n, m) + (if pick(n) < m then 1 else 0)
  {
    if m > 0 {
      ReturnsStep(ss, pick, n, m - 1);
      var hit := Is(pick, m - 1);
      assert Hits(hit, n + 1) == Hits(hit, n) + (if pick(n) == m - 1 then 1 else 0);
    }
  }

  lemma {:induction false} ReturnsZero(ss: seq<Server>, pick: nat -> nat, m: nat)
    requires m <= |ss|
    ensures Returns(ss, pick, 0, m) == 0
  {
    if m > 0 {
      ReturnsZero(ss, pick, m - 1);
    }
  }

  /** If every round hits one healthy server, the hits add up to the rounds. */
  lemma {:induction false} ReturnsAll(ss: seq<Server>, pick: nat -> nat, n: nat)
    requires forall k | 0 <= k < n :: pick(k) < |ss| && ss[pick(k)].healthy
    ensures Returns(ss, pick, n, |ss|) == n
  {
    if n == 0 {
      ReturnsZero(ss, pick, |ss|);
    } else {
      ReturnsAll(ss, pick, n - 1);
      ReturnsStep(ss, pick, n - 1, |ss|);
    }
  }

  /** At most its weight each, and all the weight in sum: exactly its weight each. */
  lemma {:induction false} Squeeze(ss: seq<Server>, pick: nat -> nat, n: nat, m: nat, i: nat)
    requires m <= |ss| && forall j | 0 <= j < |ss| && ss[j].healthy :: Hits(Is(pick, j), n) <= ss[j].weight
    ensures Returns(ss, pick, n, m) <= Total(ss[..m])
    ensures Returns(ss, pick, n, m) == Total(ss[..m]) && i < m && ss[i].healthy ==> Hits(Is(pick, i), n) == ss[i].weight
  {
    if m > 0 {
      Squeeze(ss, pick, n, m - 1, i);
      assert ss[..m][..m - 1] == ss[..m - 1];
    }
  }

  /** The index returned by selection k. */
  ghost function Picker(ss: seq<Server>): (pick: nat -> nat) {
    (k: nat) => match Pick(After(ss, k)) case NoServer => |ss| case Picked(p) => p
  }

  lemma {:induction false} PickerIs(ss: seq<Server>, k: nat, i: nat)
    requires Sane(ss) && Fresh(ss)
    ensures Picker(ss)(k) < |ss| && ss[Picker(ss)(k)].healthy
    ensures (Picker(ss)(k) == i) == Returned(ss, i)(k)
  {
    AlwaysBalanced(ss, k);
    var p := Pick(After(ss, k)).index;
    LengthKept(ss, k);
    SelectedAt(After(ss, k), p);
    PoolKept(ss, k, p);
  }

  lemma {:induction false} LengthKept(ss: seq<Server>, n: nat)
    ensures |After(ss, n)| == |ss|
  {
    if n > 0 {
      LengthKept(ss, n - 1);
    }
  }

  lemma {:induction false} PickerCounts(ss: seq<Server>, n: nat, i: nat)
    requires Sane(ss) && Fresh(ss)
    ensures Hits(Is(Picker(ss), i), n) == Count(ss, n, i)
  {
    forall k | 0 <= k < n ensures (Picker(ss)(k) == i) == Returned(ss, i)(k) { PickerIs(ss, k, i); }
    HitsSame(Is(Picker(ss), i), Returned(ss, i), n);
  }

  /** In the first Total selections every healthy server is returned exactly as often as it weighs. */
  lemma {:induction false} FirstRoundFair(ss: seq<Server>, i: nat)
    requires Sane(ss) && Fresh(ss) && i < |ss| && ss[i].healthy
    ensures Count(ss, Total(ss), i) == ss[i].weight
  {
    var w, pick := Total(ss), Picker(ss);
    forall j | 0 <= j < |ss| && ss[j].healthy ensures Hits(Is(pick, j), w) <= ss[j].weight {
      AtMostWeight(ss, j);
      PickerCounts(ss, w, j);
    }
    forall k | 0 <= k < w ensures pick(k) < |ss| && ss[pick(k)].healthy { PickerIs(ss, k, 0); }
    ReturnsAll(ss, pick, w);
    Squeeze(ss, pick, w, |ss|, i);
    assert ss[..|ss|] == ss;
    PickerCounts(ss, w, i);
  }

  /** And its current weight is back at zero. */
  lemma {:induction false} FirstRoundReturns(ss: seq<Server>, i: nat)
    requires Sane(ss) && Fresh(ss) && i < |ss| && ss[i].healthy
    ensures |After(ss, Total(ss))| == |ss| && After(ss, Total(ss))[i].current == 0
  {
    var w := Total(ss);
    FirstRoundFair(ss, i);
    Ledger(ss, w, i);
    TimesIs(w, ss[i].weight);
    TimesIs(ss[i].weight, w);
  }

  lemma {:induction false} UnhealthyKept(ss: seq<Server>, n: nat, i: nat)
    requires Sane(ss) && Fresh(ss) && i < |ss| && !ss[i].healthy
    ensures |After(ss, n)| == |ss| && After(ss, n)[i] == ss[i]
  {
    LengthKept(ss, n);
    if n > 0 {
      UnhealthyKept(ss, n - 1, i);
      AlwaysBalanced(ss, n - 1);
      SelectedAt(After(ss, n - 1), i);
    }
  }

  /** The whole state returns every Total selections. */
  lemma {:induction false} Periodic(ss: seq<Server>)
    requires Sane(ss) && Fresh(ss)
    ensures After(ss, Total(ss)) == ss
  {
    var w := Total(ss);
    LengthKept(ss, w);
    forall i | 0 <= i < |ss| ensures After(ss, w)[i] == ss[i] {
      PoolKept(ss, w, i);
      if ss[i].healthy {
        FirstRoundReturns(ss, i);
      } else {
        UnhealthyKept(ss, w, i);
      }
    }
  }

  lemma {:induction false} ReturnedLater(ss: seq<Server>, a: nat, k: nat, i: nat)
    ensures Returned(ss, i)(a + k) == Returned(After(ss, a), i)(k)
  {
    IterateAdds(Selected, ss, a, k);
  }

  lemma {:induction false} CountAdds(ss: seq<Server>, a: nat, b: nat, i: nat)
    ensures Count(ss, a + b, i) == Count(ss, a, i) + Count(After(ss, a), b, i)
  {
    forall k | 0 <= k < b ensures Returned(ss, i)(a + k) == Returned(After(ss, a), i)(k) { ReturnedLater(ss, a, k, i); }
    HitsSplit(Returned(ss, i), Returned(After(ss, a), i), a, b);
  }

  /** If the state recurs after w selections, every w consecutive selections return server i equally often. */
  lemma {:induction false} SameCount(ss: seq<Server>, w: nat, t: nat, i: nat)
    requires After(ss, w) == ss
    ensures Count(After(ss, t), w, i) == Count(ss, w, i)
  {
    CountAdds(ss, t, w, i);
    CountAdds(ss, w, t, i);
    assert w + t == t + w;
  }

  lemma {:induction false} SameState(ss: seq<Server>, w: nat, t: nat)
    requires After(ss, w) == ss
    ensures After(ss, t + w) == After(ss, t)
  {
    IterateAdds(Selected, ss, w, t);
    assert w + t == t + w;
  }

  /**
   Exactly fair over every Total consecutive selections, wherever they begin; and the state recurs with that period.
   */
  lemma {:induction false} EveryWindowFair(ss: seq<Server>, t: nat, i: nat)
    requires Sane(ss) && Fresh(ss) && i < |ss| && ss[i].healthy
    ensures Count(After(ss, t), Total(ss), i) == ss[i].weight
    ensures After(ss, t + Total(ss)) == After(ss, t)
  {
    Periodic(ss);
    SameCount(ss, Total(ss), t, i);
    SameState(ss, Total(ss), t);
    FirstRoundFair(ss, i);
  }

  // ------------------------------------------------------------------ the code

  class BackendServer {
    const host: seq<byte>
    const port: int
    const weight: int
    var currentWeight: int
    var healthy: bool

    constructor (host: seq<byte>, port: int, weight: int)
      ensures this.host == host && this.port == port && this.weight == weight && currentWeight == 0 && healthy
    {
      this.host, this.port, this.weight := host, port, weight;
      currentWeight, healthy := 0, true;
    }

    ghost function View(): (s: Server)
      reads this
    {
      Server(weight, currentWeight, healthy)
    }
  }

  ghost function Views(servers: seq<BackendServer>): (ss: seq<Server>)
    reads servers
  {
    seq(|servers|, i requires 0 <= i < |servers| reads servers => servers[i].View())
  }

  ghost predicate AllDifferent(servers: seq<BackendServer>) {
    forall i, j | 0 <= i < j < |servers| :: servers[i] != servers[j]
  }

  lemma {:induction false} TotalSnoc(ss: seq<Server>, k: nat)
    requires k < |ss|
    ensures Total(ss[..k + 1]) == Total(ss[..k]) + (if ss[k].healthy then ss[k].weight else 0)
  {
    assert ss[..k + 1][..k] == ss[..k];
  }

  lemma {:induction false} BestSnoc(ss: seq<Server>, k: nat)
    requires k < |ss|
    ensures var c := Best(ss[..k]);
            Best(ss[..k + 1]) ==
            if ss[k].healthy && (c.NoServer? || ss[k].current > ss[c.index].current) then Picked(k) else c
  {
    assert ss[..k + 1][..k] == ss[..k];
  }

  /** One server's turn. */
  method RaiseOne(server: BackendServer) returns (weight: int)
    modifies server`currentWeight
    ensures server.View() == Bump(old(server.View())) && weight == if server.healthy then server.weight else 0
  {
    weight := 0;
    if server.healthy {
      server.currentWeight := server.currentWeight + server.weight;
      weight := server.weight;
    }
  }

  type Table = map<BackendServer, Server>

  /** The servers of a list as objects, so that one that is listed twice is there once. */
  ghost function TableOf(servers: seq<BackendServer>): (t: Table)
    reads servers
  {
    map s | s in servers :: s.View()
  }

  /** What the loop of select has made of the servers, the total and the choice after some places of the list. */
  datatype Scan = Scan(table: Table, total: int, best: Choice)

  /** One place of the list. */
  ghost function Turn(c: Scan, servers: seq<BackendServer>, k: nat): (r: Scan)
    requires k < |servers| && servers[k] in c.table
    requires c.best.Picked? ==> c.best.index < k && servers[c.best.index] in c.table
  {
    var s := servers[k];
    if !c.table[s].healthy then c
    else
      var table := c.table[s := Bump(c.table[s])];
      var best := if c.best.NoServer? || table[s].current > table[servers[c.best.index]].current
                  then Picked(k) else c.best;
      Scan(table, c.total + c.table[s].weight, best)
  }

  ghost function Scanned(t: Table, servers: seq<BackendServer>, k: nat): (c: Scan)
    requires k <= |servers| && forall s | s in servers :: s in t
    ensures c.table.Keys == t.Keys && (c.best.Picked? ==> c.best.index < k)
  {
    if k == 0 then Scan(t, 0, NoServer) else Turn(Scanned(t, servers, k - 1), servers, k - 1)
  }

  /** What select does to the servers, whatever the list. */
  ghost function SelectedTable(t: Table, servers: seq<BackendServer>): (r: Table)
    requires forall s | s in servers :: s in t
  {
    var c := Scanned(t, servers, |servers|);
    match c.best
    case NoServer => c.table
    case Picked(p) =>
      var s := servers[p];
      c.table[s := c.table[s].(current := c.table[s].current - c.total)]
  }

  /** A list without repetitions, with its servers' values. */
  ghost predicate Lists(t: Table, servers: seq<BackendServer>, ss: seq<Server>) {
    && AllDifferent(servers) && |servers| == |ss| && (forall s | s in servers :: s in t)
    && forall j | 0 <= j < |ss| :: t[servers[j]] == ss[j]
  }

  /** On a list without repetitions the scan bumps every server once. */
  lemma {:induction false} DistinctTable(t: Table, servers: seq<BackendServer>, ss: seq<Server>, k: nat, j: nat)
    requires Lists(t, servers, ss) && k <= |ss| && j < |ss|
    ensures Scanned(t, servers, k).table[servers[j]] == if j < k then Bump(ss[j]) else ss[j]
    decreases k
  {
    if k > 0 {
      DistinctTable(t, servers, ss, k - 1, j);
      assert j != k - 1 ==> servers[j] != servers[k - 1];
    }
  }

  lemma {:induction false} TurnIs(c: Scan, servers: seq<BackendServer>, k: nat, s: Server, best: Server)
    requires k < |servers| && servers[k] in c.table && c.table[servers[k]] == s
    requires c.best.Picked? ==> c.best.index < k && servers[c.best.index] in c.table &&
                                servers[c.best.index] != servers[k] && c.table[servers[c.best.index]] == best
    ensures var r := Turn(c, servers, k);
            && r.total == c.total + (if s.healthy then s.weight else 0)
            && r.best == if Bump(s).healthy && (c.best.NoServer? || Bump(s).current > best.current)
                         then Picked(k) else c.best
  {
  }

  /** And finds the total and the best of the bumped. */
  lemma {:induction false} DistinctScan(t: Table, servers: seq<BackendServer>, ss: seq<Server>, k: nat)
    requires Lists(t, servers, ss) && k <= |ss|
    ensures Scanned(t, servers, k).total == Total(ss[..k]) && Scanned(t, servers, k).best == Best(Bumped(ss)[..k])
    decreases k
  {
    if k > 0 {
      DistinctScan(t, servers, ss, k - 1);
      TotalSnoc(ss, k - 1);
      BestSnoc(Bumped(ss), k - 1);
      DistinctTurn(t, servers, ss, k - 1, Scanned(t, servers, k - 1));
    }
  }

  lemma {:induction false} DistinctTurn(t: Table, servers: seq<BackendServer>, ss: seq<Server>, k: nat, c: Scan)
    requires Lists(t, servers, ss) && k < |ss| && c == Scanned(t, servers, k)
    ensures var (r, b) := (Turn(c, servers, k), Bumped(ss));
            && r.total == c.total + (if ss[k].healthy then ss[k].weight else 0)
            && r.best == if b[k].healthy && (c.best.NoServer? || b[k].current > b[c.best.index].current) then Picked(k)
                         else c.best
  {
    DistinctTable(t, servers, ss, k, k);
    var p := if c.best.Picked? then c.best.index else k;
    DistinctTable(t, servers, ss, k, p);
    TurnIs(c, servers, k, ss[k], Bumped(ss)[p]);
  }

  lemma {:induction false} DistinctSelect(t: Table, servers: seq<BackendServer>, ss: seq<Server>, j: nat)
    requires Lists(t, servers, ss)
    ensures Scanned(t, servers, |servers|).best == Pick(ss)
    ensures j < |ss| ==> SelectedTable(t, servers)[servers[j]] == Selected(ss)[j]
  {
    DistinctScan(t, servers, ss, |ss|);
    assert ss[..|ss|] == ss && Bumped(ss)[..|ss|] == Bumped(ss);
    if j < |ss| {
      DistinctTable(t, servers, ss, |ss|, j);
      if Pick(ss).Picked? {
        assert j != Pick(ss).index ==> servers[j] != servers[Pick(ss).index];
      } else {
        NobodyBumped(ss);
      }
    }
  }

  /** The loop of select: every healthy server's weight goes up, and the highest so far is kept. */
  method Raise(servers: seq<BackendServer>) returns (selected: Choice, totalWeight: int)
    modifies servers
    ensures Scan(TableOf(servers), totalWeight, selected) == Scanned(old(TableOf(servers)), servers, |servers|)
  {
    ghost var t := TableOf(servers);
    selected, totalWeight := NoServer, 0;
    var i := 0;
    while i < |servers|
      invariant i <= |servers| && Scan(TableOf(servers), totalWeight, selected) == Scanned(t, servers, i)
    {
      ghost var before := TableOf(servers);
      var server := servers[i];
      assert before[server] == server.View();
      var weight := RaiseOne(server);
      assert TableOf(servers) == before[server := Bump(before[server])];
      totalWeight := totalWeight + weight;
      if server.healthy && (selected.NoServer? || server.currentWeight > servers[selected.index].currentWeight) {
        selected := Picked(i);
      }
      i := i + 1;
    }
  }

  /** WeightedRoundRobinStrategy::select, on any list, one that names a server twice included. */
  method Select(servers: seq<BackendServer>) returns (selected: Choice)
    modifies servers
    ensures selected == Scanned(old(TableOf(servers)), servers, |servers|).best
    ensures TableOf(servers) == SelectedTable(old(TableOf(servers)), servers)
  {
    var totalWeight;
    selected, totalWeight := Raise(servers);
    if selected.Picked? {
      ghost var before := TableOf(servers);
      var server := servers[selected.index];
      assert before[server] == server.View();
      server.currentWeight := server.currentWeight - totalWeight;
      assert TableOf(servers) == before[server := before[server].(current := before[server].current - totalWeight)];
    }
  }

  /** On a list without repetitions that is the selection the fairness theorems are about. */
  lemma {:induction false} SelectIsSelected(t: Table, r: Table, servers: seq<BackendServer>, ss: seq<Server>,
                                            rs: seq<Server>)
    requires Lists(t, servers, ss) && Lists(r, servers, rs) && r == SelectedTable(t, servers)
    ensures Scanned(t, servers, |servers|).best == Pick(ss) && rs == Selected(ss)
  {
    DistinctSelect(t, servers, ss, 0);
    forall j | 0 <= j < |ss| ensures rs[j] == Selected(ss)[j] {
      DistinctSelect(t, servers, ss, j);
    }
  }

  lemma {:induction false} NobodyBumped(ss: seq<Server>)
    requires Pick(ss).NoServer?
    ensures Bumped(ss) == ss
  {
    BestIsBest(Bumped(ss));
    forall i | 0 <= i < |ss| ensures Bumped(ss)[i] == ss[i] { assert !Bumped(ss)[i].healthy; }
  }

  // ------------------------------------------------------------------ the balancer's list

  /** Every server with another address, in order. */
  function Others(servers: seq<BackendServer>, host: seq<byte>, port: int): (r: seq<BackendServer>) {
    if servers == [] then []
    else
      var last := servers[|servers| - 1];
      Others(servers[..|servers| - 1], host, port) + if last.host == host && last.port == port then [] else [last]
  }

  /** Two servers of part stand in the same order in whole. */
  ghost predicate OrderKept(part: seq<BackendServer>, whole: seq<BackendServer>) {
    forall i, j | 0 <= i < j < |part| :: Follows(whole, part[i], part[j])
  }

  ghost predicate Follows(whole: seq<BackendServer>, a: BackendServer, b: BackendServer) {
    exists p, q | 0 <= p < q < |whole| :: whole[p] == a && whole[q] == b
  }

  lemma {:induction false} FollowsLonger(init: seq<BackendServer>, whole: seq<BackendServer>, a: BackendServer,
                                         b: BackendServer)
    requires init <= whole && Follows(init, a, b)
    ensures Follows(whole, a, b)
  {
    var p, q :| 0 <= p < q < |init| && init[p] == a && init[q] == b;
    assert whole[p] == a && whole[q] == b;
  }

  /** Exactly the servers with another address stay. */
  lemma {:induction false} OthersMembers(servers: seq<BackendServer>, host: seq<byte>, port: int, s: BackendServer)
    ensures s in Others(servers, host, port) <==> s in servers && !(s.host == host && s.port == port)
    decreases |servers|
  {
    if servers != [] {
      var init, last := servers[..|servers| - 1], servers[|servers| - 1];
      OthersMembers(init, host, port, s);
      assert servers == init + [last];
    }
  }

  /** They keep their order, and no server comes to be listed twice. */
  lemma {:induction false} OthersOrder(servers: seq<BackendServer>, host: seq<byte>, port: int)
    ensures OrderKept(Others(servers, host, port), servers)
    decreases |servers|
  {
    if servers != [] {
      var init, last := servers[..|servers| - 1], servers[|servers| - 1];
      OthersOrder(init, host, port);
      var q, r := Others(init, host, port), Others(servers, host, port);
      forall i, j | 0 <= i < j < |r| ensures Follows(servers, r[i], r[j]) {
        if j < |q| {
          FollowsLonger(init, servers, r[i], r[j]);
        } else {
          OthersMembers(init, host, port, q[i]);
          var p :| 0 <= p < |init| && init[p] == q[i];
          assert servers[p] == r[i] && servers[|init|] == r[j];
        }
      }
    }
  }

  lemma {:induction false} OthersDifferent(servers: seq<BackendServer>, host: seq<byte>, port: int)
    requires AllDifferent(servers)
    ensures AllDifferent(Others(servers, host, port))
    decreases |servers|
  {
    if servers != [] {
      var init, last := servers[..|servers| - 1], servers[|servers| - 1];
      OthersDifferent(init, host, port);
      OthersMembers(init, host, port, last);
      assert last !in init;
    }
  }

  /** LoadBalancer with the weighted strategy: it makes its servers itself, so its list never holds one twice. */
  class LoadBalancer {
    var servers: seq<BackendServer>

    constructor ()
      ensures servers == []
    {
      servers := [];
    }

    method AddServer(host: seq<byte>, port: int, weight: int)
      requires AllDifferent(servers)
      modifies this
      ensures AllDifferent(servers) && |servers| == |old(servers)| + 1 && servers[..|old(servers)|] == old(servers)
      ensures var s := servers[|old(servers)|];
              fresh(s) && s.host == host && s.port == port && s.weight == weight && s.currentWeight == 0 && s.healthy
    {
      var server := new BackendServer(host, port, weight);
      servers := servers + [server];
    }

    method RemoveServer(host: seq<byte>, port: int)
      requires AllDifferent(servers)
      modifies this
      ensures AllDifferent(servers) && OrderKept(servers, old(servers))
      ensures forall s :: s in servers <==> s in old(servers) && !(s.host == host && s.port == port)
    {
      OthersOrder(servers, host, port);
      OthersDifferent(servers, host, port);
      forall s: BackendServer
        ensures s in Others(servers, host, port) <==> s in servers && !(s.host == host && s.port == port)
      {
        OthersMembers(servers, host, port, s);
      }
      servers := Others(servers, host, port);
    }

    /** select, on the balancer's own list. */
    method SelectServer() returns (selected: Choice)
      requires AllDifferent(servers)
      modifies servers
      ensures AllDifferent(servers) && servers == old(servers)
      ensures selected == Pick(old(Views(servers))) && Views(servers) == Selected(old(Views(servers)))
    {
      ghost var t, ss := TableOf(servers), Views(servers);
      selected := Select(servers);
      SelectIsSelected(t, TableOf(servers), servers, ss, Views(servers));
    }
  }
}
