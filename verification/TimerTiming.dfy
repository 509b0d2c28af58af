/** When a timer fires, if the ticks come on time. */
module TimerTiming {
  import opened Bytes
  import opened TimerWheel
  import opened TimerInvariants

  /** Number of ticks among some events. */
  function Ticks(es: seq<Event>): (n: nat) {
    if es == [] then 0 else Ticks(es[..|es| - 1]) + if es[|es| - 1].ETick? then 1 else 0
  }

  /** The time of tick number j, counting from zero. */
  function At(first: int, tickMs: nat, j: nat): (r: int) {
    if j == 0 then first else At(first, tickMs, j - 1) + tickMs
  }

  lemma {:induction false} AtIs(first: int, tickMs: nat, j: nat)
    ensures At(first, tickMs, j) == first + j * tickMs
  {
    if j > 0 {
      AtIs(first, tickMs, j - 1);
      assert j * tickMs == (j - 1) * tickMs + tickMs;
    }
  }

  lemma {:induction false} AtMonotone(first: int, tickMs: nat, i: nat, j: nat)
    requires i <= j
    ensures At(first, tickMs, i) <= At(first, tickMs, j)
    decreases j
  {
    if i < j {
      AtMonotone(first, tickMs, i, j - 1);
    }
  }

  lemma {:induction false} AtLater(first: int, tickMs: nat, j: nat)
    ensures At(first + tickMs, tickMs, j) == At(first, tickMs, j + 1)
  {
    if j > 0 {
      AtLater(first, tickMs, j - 1);
    }
  }

  /** The first tick comes at first, every other one tickMs after the one before. */
  ghost predicate OnTime(es: seq<Event>, first: int, tickMs: nat) {
    forall i | 0 <= i < |es| && es[i].ETick? :: es[i].now == At(first, tickMs, Ticks(es[..i]))
  }

  ghost predicate Spares(es: seq<Event>, id: nat) {
    forall i | 0 <= i < |es| :: es[i] != ECancel(id)
  }

  /** This tick collects the timer. */
  ghost predicate FiresAt(w: Wheel, id: nat, now: int)
    requires Sound(w)
  {
    id in w.wheel[w.current] && Due(w.table, id, now)
  }

  /** The smallest number of ticks that covers ms. */
  function CeilDiv(ms: nat, tickMs: nat): (r: nat)
    requires tickMs > 0
    ensures r <= ms
  {
    if ms == 0 then 0 else if ms <= tickMs then 1 else 1 + CeilDiv(ms - tickMs, tickMs)
  }

  /** It is what the queue computes by rounding a division up. */
  lemma {:induction false} CeilDivIs(ms: nat, tickMs: nat)
    requires tickMs > 0
    ensures CeilDiv(ms, tickMs) == Quot(ms + tickMs - 1, tickMs) == (ms + tickMs - 1) / tickMs
    decreases ms
  {
    QuotAndMod(ms + tickMs - 1, tickMs);
    if ms > tickMs {
      CeilDivIs(ms - tickMs, tickMs);
    }
  }

  /** Ceilings on the tick grid: tick k is the first at or after ms. */
  lemma {:induction false} CeilAt(first: int, ms: nat, tickMs: nat)
    requires tickMs > 0
    ensures var k := CeilDiv(ms, tickMs);
            && first + ms <= At(first, tickMs, k) < first + ms + tickMs
            && (k >= 1 ==> At(first, tickMs, k - 1) < first + ms)
    decreases ms
  {
    if ms > tickMs {
      var k := CeilDiv(ms, tickMs);
      CeilAt(first + tickMs, ms - tickMs, tickMs);
      AtLater(first, tickMs, k - 1);
      if k >= 2 {
        AtLater(first, tickMs, k - 2);
      }
    } else if ms > 0 {
      assert At(first, tickMs, 1) == first + tickMs;
    }
  }

  /** The bucket after b on a wheel of n. */
  function Next(b: nat, n: nat): (r: nat) { if b + 1 == n then 0 else b + 1 }

  /** The wheel's hand after j ticks. */
  function Hand(c: nat, j: nat, n: nat): (r: nat)
    decreases j
  {
    if j == 0 then c else Next(Hand(c, j - 1, n), n)
  }

  lemma {:induction false} HandIs(c: nat, j: nat, n: nat)
    requires c < n
    ensures Hand(c, j, n) == (c + j) % n
  {
    if j == 0 {
      ModUnique(c, n, 0, c);
    } else {
      HandIs(c, j - 1, n);
      NextIndex(c, j - 1, n);
      NextIs((c + j - 1) % n, n);
    }
  }

  lemma {:induction false} NextIs(b: nat, n: nat)
    requires b < n
    ensures (b + 1) % n == Next(b, n) == Mod(b + 1, n)
  {
    if b + 1 == n {
      ModUnique(b + 1, n, 1, 0);
    } else {
      ModUnique(b + 1, n, 0, b + 1);
    }
  }

  /** A bucket reached before its time is reached a whole turn of the wheel before. */
  lemma {:induction false} SameBucket(c: nat, j: nat, g: nat, n: nat)
    requires c < n && j < g && Hand(c, j, n) == Hand(c, g, n)
    ensures j + n <= g
  {
    HandIs(c, j, n);
    HandIs(c, g, n);
    SameResidue(c, j, g, n);
  }

  lemma {:induction false} SameResidue(c: nat, j: nat, g: nat, n: nat)
    requires n > 0 && j < g && (c + j) % n == (c + g) % n
    ensures j + n <= g
  {
    var a, b := (c + j) / n, (c + g) / n;
    assert g - j == n * (b - a) by {
      assert c + j == n * a + (c + j) % n;
      assert c + g == n * b + (c + g) % n;
    }
    assert b - a <= 0 ==> n * (b - a) <= 0;
    assert b - a >= 1 ==> n * (b - a) >= n;
  }

  lemma {:induction false} HandAgain(c: nat, j: nat, n: nat)
    ensures Hand(Next(c, n), j, n) == Hand(c, j + 1, n)
  {
    if j > 0 {
      HandAgain(c, j - 1, n);
    }
  }

  lemma {:induction false} NextIndex(c: nat, j: nat, n: nat)
    requires n > 0
    ensures ((c + j) % n + 1) % n == (c + j + 1) % n
  {
    var q, r := (c + j) / n, (c + j) % n;
    assert c + j + 1 == n * q + (r + 1);
    if r + 1 == n {
      assert c + j + 1 == n * (q + 1) + 0;
      ModUnique(c + j + 1, n, q + 1, 0);
      ModUnique(r + 1, n, 1, 0);
    } else {
      ModUnique(c + j + 1, n, q, r + 1);
      ModUnique(r + 1, n, 0, r + 1);
    }
  }

  // ------------------------------------------------------------------ waiting

  /**
   A timer g ticks ahead of the wheel's hand, due by then and not due a turn earlier. Ticks come at
   first, first + tickMs, and so on.
   */
  ghost predicate Waits(w: Wheel, id: nat, g: nat, first: int) {
    && InWheel(w, id) && !w.table[id].cancelled && w.current < |w.wheel|
    && w.table[id].bucket == Hand(w.current, g, |w.wheel|)
    && w.table[id].expiration <= At(first, w.tickMs, g)
    && (g >= |w.wheel| ==> At(first, w.tickMs, g - |w.wheel|) < w.table[id].expiration)
  }

  ghost predicate Ready(w: Wheel, id: nat, g: nat, first: int) {
    Inv(w) && Waits(w, id, g, first)
  }

  /** u is w some events later, with j ticks among them, and the timer untouched. */
  ghost predicate Untouched(w: Wheel, u: Wheel, id: nat, j: nat) {
    && Inv(u) && |u.wheel| == |w.wheel| > 0 && u.tickMs == w.tickMs
    && id in u.table && id in w.table && u.table[id] == w.table[id] && InWheel(u, id)
    && u.current == Hand(w.current, j, |w.wheel|) && w.current < |w.wheel|
  }

  /** A tick before its time does not collect it. */
  lemma {:induction false} NotYet(w: Wheel, u: Wheel, id: nat, g: nat, first: int, j: nat, now: int)
    requires Waits(w, id, g, first) && Untouched(w, u, id, j) && j < g && now == At(first, w.tickMs, j)
    ensures !FiresAt(u, id, now) && !Gone(u.table, id)
  {
    var n := |w.wheel|;
    if id in u.wheel[u.current] {
      assert u.table[id].bucket == u.current;
      SameBucket(w.current, j, g, n);
      AtMonotone(first, w.tickMs, j, g - n);
    }
  }

  lemma {:induction false} TickLeaves(w: Wheel, u: Wheel, id: nat, g: nat, first: int, j: nat, now: int)
    requires Waits(w, id, g, first) && Untouched(w, u, id, j) && j < g && now == At(first, w.tickMs, j)
    ensures Untouched(w, Tick(u, now), id, j + 1)
  {
    NotYet(w, u, id, g, first, j, now);
    TickKeeps(u, now);
    TickTable(u, now, id);
    TickInWheel(u, now, id);
    NextIs(u.current, |u.wheel|);
  }

  lemma {:induction false} OthersLeave(w: Wheel, u: Wheel, id: nat, j: nat, e: Event)
    requires Untouched(w, u, id, j) && !e.ETick? && e != ECancel(id)
    ensures Untouched(w, Step(u, e), id, j)
  {
    StepKeeps(u, e);
    if e.EAdd? {
      var r := Step(u, e);
      assert id < u.nextId;
      assert r.table[id] == u.table[id];
      var b := u.table[id].bucket;
      assert u.wheel[b] <= r.wheel[b];
    }
  }

  lemma {:induction false} OnTimePrefix(es: seq<Event>, n: nat, first: int, tickMs: nat, id: nat)
    requires n <= |es| && OnTime(es, first, tickMs) && Spares(es, id)
    ensures OnTime(es[..n], first, tickMs) && Spares(es[..n], id)
  {
    var p := es[..n];
    forall i | 0 <= i < |p| ensures p[..i] == es[..i] {}
  }

  lemma {:induction false} OneMoreLeaves(w: Wheel, u: Wheel, e: Event, id: nat, g: nat, first: int, j: nat)
    requires Inv(w) && Waits(w, id, g, first) && Untouched(w, u, id, j) && e != ECancel(id)
    requires if e.ETick? then j < g && e.now == At(first, w.tickMs, j) else j <= g
    ensures Untouched(w, Step(u, e), id, if e.ETick? then j + 1 else j)
  {
    if e.ETick? {
      TickLeaves(w, u, id, g, first, j, e.now);
    } else {
      OthersLeave(w, u, id, j, e);
    }
  }

  /** Until its tick comes, nothing but its own cancellation touches it. */
  lemma {:induction false} StillWaiting(w: Wheel, es: seq<Event>, id: nat, g: nat, first: int)
    requires Inv(w) && Waits(w, id, g, first)
    requires OnTime(es, first, w.tickMs) && Spares(es, id) && Ticks(es) <= g
    ensures Untouched(w, RunAll(w, es), id, Ticks(es))
    decreases |es|
  {
    if es != [] {
      var p, e := es[..|es| - 1], es[|es| - 1];
      OnTimePrefix(es, |p|, first, w.tickMs, id);
      StillWaiting(w, p, id, g, first);
      OneMoreLeaves(w, RunAll(w, p), e, id, g, first, Ticks(p));
    }
  }

  /** The timer is collected by tick number g + 1 and by none before. */
  lemma {:induction false} FiresOnTime(w: Wheel, es: seq<Event>, id: nat, g: nat, first: int, i: nat)
    requires Inv(w) && Waits(w, id, g, first)
    requires OnTime(es, first, w.tickMs) && Spares(es, id)
    requires i < |es| && es[i].ETick? && Ticks(es[..i]) <= g
    ensures FiresAt(RunAll(w, es[..i]), id, es[i].now) == (Ticks(es[..i]) == g)
  {
    var p := es[..i];
    forall k | 0 <= k < |p| ensures p[..k] == es[..k] {}
    assert OnTime(p, first, w.tickMs) && Spares(p, id);
    StillWaiting(w, p, id, g, first);
    var u, j := RunAll(w, p), Ticks(p);
    if j < g {
      NotYet(w, u, id, g, first, j, es[i].now);
    }
  }

  // ------------------------------------------------------------------ the theorems

  lemma {:induction false} LandingIs(w: Wheel, ticks: nat)
    requires Sound(w) && w.current + ticks < TWO_64
    ensures Landing(w, ticks) == Hand(w.current, ticks, |w.wheel|)
  {
    HandIs(w.current, ticks, |w.wheel|);
    QuotAndMod(w.current + ticks, |w.wheel|);
    ModUnique(w.current + ticks, TWO_64, 0, w.current + ticks);
  }

  lemma {:induction false} TicksForIs(ms: nat, tickMs: nat)
    requires tickMs > 0 && ms < TWO_64
    ensures TicksFor(ms, tickMs) == CeilDiv(ms, tickMs)
  {
    CeilDivIs(ms, tickMs);
    ModUnique(CeilDiv(ms, tickMs), TWO_64, 0, CeilDiv(ms, tickMs));
  }

  /** Ticks until a new timer's bucket: at least one. */
  function Ahead(delayMs: nat, tickMs: nat): (k: nat)
    requires tickMs > 0
  {
    if CeilDiv(delayMs, tickMs) == 0 then 1 else CeilDiv(delayMs, tickMs)
  }

  lemma {:induction false} NewTimerWaits(w: Wheel, now: int, delayMs: nat, intervalMs: int, first: int)
    requires Inv(w) && |w.wheel| >= 2 && |w.wheel| + delayMs + 1 < TWO_64
    requires now <= first <= now + w.tickMs
    ensures var r := Add(w, now, delayMs, intervalMs);
            Inv(r) && Waits(r, w.nextId, Ahead(delayMs, w.tickMs), first)
  {
    var r, id, t := Add(w, now, delayMs, intervalMs), w.nextId, w.tickMs;
    var k, n := Ahead(delayMs, t), |w.wheel|;
    AddKeeps(w, now, delayMs, intervalMs);
    TicksForIs(delayMs, t);
    LandingIs(w, k);
    var b := r.table[id].bucket;
    assert r.wheel[b][|w.wheel[b]|] == id;
    AheadAt(now, delayMs, t, first, n);
  }

  /** The first tick at or after insertion, the delay and the wheel's hand. */
  lemma {:induction false} AheadAt(now: int, delayMs: nat, tickMs: nat, first: int, n: nat)
    requires tickMs > 0 && n >= 2 && now <= first <= now + tickMs
    ensures var k := Ahead(delayMs, tickMs);
            && now + delayMs <= At(first, tickMs, k) <= now + delayMs + 2 * tickMs
            && (k >= n ==> At(first, tickMs, k - n) < now + delayMs)
  {
    var k := Ahead(delayMs, tickMs);
    CeilAt(now, delayMs, tickMs);
    AtShift(now, first, tickMs, k);
    if k >= n {
      AtShift(now, first, tickMs, k - n);
      AtMonotone(now, tickMs, k - n + 1, k - 1);
    }
  }

  lemma {:induction false} AtShift(a: int, b: int, tickMs: nat, j: nat)
    ensures At(b, tickMs, j) - At(a, tickMs, j) == b - a
  {
    if j > 0 {
      AtShift(a, b, tickMs, j - 1);
    }
  }

  /**
   A new timer fires at tick max(1, ceil(delay / tickMs)) + 1 after its insertion and not before, so between its
   delay and two ticks more, also when the delay exceeds the range of the wheel.
   */
  lemma {:induction false} FirstFire(w: Wheel, now: int, delayMs: nat, intervalMs: int, es: seq<Event>, first: int,
                                     i: nat)
    requires Inv(w) && |w.wheel| >= 2 && |w.wheel| + delayMs + 1 < TWO_64
    requires now <= first <= now + w.tickMs
    requires OnTime(es, first, w.tickMs) && Spares(es, w.nextId)
    requires i < |es| && es[i].ETick? && Ticks(es[..i]) <= Ahead(delayMs, w.tickMs)
    ensures var fires := FiresAt(RunAll(Add(w, now, delayMs, intervalMs), es[..i]), w.nextId, es[i].now);
            && (fires <==> Ticks(es[..i]) == Ahead(delayMs, w.tickMs))
            && (fires ==> now + delayMs <= es[i].now <= now + delayMs + 2 * w.tickMs)
  {
    NewTimerWaits(w, now, delayMs, intervalMs, first);
    var r, k := Add(w, now, delayMs, intervalMs), Ahead(delayMs, w.tickMs);
    FiresOnTime(r, es, w.nextId, k, first, i);
    AheadAt(now, delayMs, w.tickMs, first, |w.wheel|);
  }

  /** Ticks between two firings of a periodic timer. */
  ghost function Period(w: Wheel, id: nat): (m: nat)
    requires Sound(w) && Repeats(w.table, id)
  {
    CeilDiv(w.table[id].interval, w.tickMs)
  }

  lemma {:induction false} PeriodicLands(w: Wheel, id: nat, m: nat)
    requires Sound(w) && Repeats(w.table, id) && m == Period(w, id)
    requires |w.wheel| + w.table[id].interval + 1 < TWO_64
    ensures NextBucket(w, id) == Hand(w.current, m, |w.wheel|)
  {
    TicksForIs(w.table[id].interval, w.tickMs);
    LandingIs(w, m);
  }

  /** What a tick that collects a periodic timer leaves of it. */
  lemma {:induction false} Reinserted(w: Wheel, id: nat, now: int)
    requires Inv(w) && FiresAt(w, id, now) && Repeats(w.table, id)
    ensures var r := Tick(w, now);
            && Inv(r) && InWheel(r, id) && !r.table[id].cancelled && r.current == Next(w.current, |w.wheel|) < |r.wheel|
            && r.table[id].bucket == NextBucket(w, id) && r.table[id].expiration == now + w.table[id].interval
  {
    TickKeeps(w, now);
    TickTable(w, now, id);
    TickInWheel(w, now, id);
    TickHand(w, now);
    assert w.table[id].bucket == w.current;
  }

  lemma {:induction false} TickHand(w: Wheel, now: int)
    requires Sound(w)
    ensures Tick(w, now).current == Next(w.current, |w.wheel|) < |Tick(w, now).wheel| == |w.wheel|
  {
    NextIs(w.current, |w.wheel|);
  }

  lemma {:induction false} ReinsertedAhead(w: Wheel, id: nat, now: int, m: nat)
    requires Inv(w) && FiresAt(w, id, now) && Repeats(w.table, id) && m == Period(w, id)
    requires |w.wheel| + w.table[id].interval + 1 < TWO_64
    ensures var r := Tick(w, now);
            && Inv(r) && InWheel(r, id) && !r.table[id].cancelled && r.current == Next(w.current, |w.wheel|) < |r.wheel|
            && r.table[id].bucket == Hand(w.current, m, |r.wheel|)
            && r.table[id].expiration == now + w.table[id].interval
  {
    PeriodicLands(w, id, m);
    Reinserted(w, id, now);
  }

  lemma {:induction false} PeriodicWaits(w: Wheel, r: Wheel, id: nat, now: int, m: nat)
    requires Inv(w) && FiresAt(w, id, now) && Repeats(w.table, id) && m == Period(w, id) && r == Tick(w, now)
    requires |w.wheel| + w.table[id].interval + 1 < TWO_64
    ensures m >= 1 && Ready(r, id, m - 1, now + r.tickMs)
  {
    ReinsertedAhead(w, id, now, m);
    WaitsAgain(r, id, w.current, m, now, w.table[id].interval);
  }

  lemma {:induction false} WaitsAgain(r: Wheel, id: nat, c: nat, m: nat, now: int, every: nat)
    requires r.tickMs > 0 && every > 0 && m == CeilDiv(every, r.tickMs)
    requires InWheel(r, id) && !r.table[id].cancelled && r.current == Next(c, |r.wheel|) < |r.wheel|
    requires r.table[id].bucket == Hand(c, m, |r.wheel|) && r.table[id].expiration == now + every
    ensures m >= 1 && Waits(r, id, m - 1, now + r.tickMs)
  {
    PeriodAt(now, every, r.tickMs, |r.wheel|);
    HandAgain(c, m - 1, |r.wheel|);
  }

  lemma {:induction false} PeriodAt(now: int, every: nat, tickMs: nat, n: nat)
    requires tickMs > 0 && n > 0 && every > 0
    ensures var m := CeilDiv(every, tickMs);
            && m >= 1 && now + every <= At(now + tickMs, tickMs, m - 1)
            && (m - 1 >= n ==> At(now + tickMs, tickMs, m - 1 - n) < now + every)
  {
    var m := CeilDiv(every, tickMs);
    CeilAt(now, every, tickMs);
    AtLater(now, tickMs, m - 1);
    if m - 1 >= n {
      AtLater(now, tickMs, m - 1 - n);
      AtMonotone(now, tickMs, m - n, m - 1);
    }
  }

  /**
   A periodic timer that a tick has collected is collected again ceil(interval / tickMs) ticks later, and not before.
   */
  lemma {:induction false} NextFire(w: Wheel, r: Wheel, id: nat, now: int, m: nat, es: seq<Event>, i: nat)
    requires Inv(w) && FiresAt(w, id, now) && Repeats(w.table, id) && r == Tick(w, now) && m == Period(w, id)
    requires |w.wheel| + w.table[id].interval + 1 < TWO_64
    requires OnTime(es, now + r.tickMs, r.tickMs) && Spares(es, id)
    requires i < |es| && es[i].ETick? && Ticks(es[..i]) < m
    ensures FiresAt(RunAll(r, es[..i]), id, es[i].now) == (Ticks(es[..i]) + 1 == m)
  {
    PeriodicWaits(w, r, id, now, m);
    FiresIfReady(r, es, id, m, now + r.tickMs, i);
  }

  lemma {:induction false} FiresIfReady(r: Wheel, es: seq<Event>, id: nat, m: nat, first: int, i: nat)
    requires Sound(r) && m >= 1 && i < |es| && es[i].ETick? && Ticks(es[..i]) < m
    requires OnTime(es, first, r.tickMs) && Spares(es, id)
    ensures Ready(r, id, m - 1, first) ==> FiresAt(RunAll(r, es[..i]), id, es[i].now) == (Ticks(es[..i]) + 1 == m)
  {
    if Ready(r, id, m - 1, first) {
      FiresOnTime(r, es, id, m - 1, first, i);
    }
  }
}
