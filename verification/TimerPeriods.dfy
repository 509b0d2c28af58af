/** Every firing of a periodic timer, not only the next one. */
module TimerPeriods {
  import opened Bytes
  import opened TimerWheel
  import opened TimerInvariants
  import opened TimerTiming

  // ------------------------------------------------------------------ counting down

  /** How many ticks before the next firing are left after t ticks: first g, then a period of m each time. */
  function Left(t: nat, g: nat, m: nat): (r: nat)
    requires m > 0
  {
    if t == 0 then g
    else if Left(t - 1, g, m) == 0 then m - 1
    else Left(t - 1, g, m) - 1
  }

  /** The number of ticks before firing n, counting from zero. */
  function Nth(g: nat, m: nat, n: nat): (t: nat) {
    if n == 0 then g else Nth(g, m, n - 1) + m
  }

  lemma {:induction false} NthIs(g: nat, m: nat, n: nat)
    ensures Nth(g, m, n) == g + n * m
  {
    if n > 0 {
      NthIs(g, m, n - 1);
      assert n * m == (n - 1) * m + m;
    }
  }

  lemma {:induction false} NthApart(g: nat, m: nat, k: nat, n: nat)
    requires k < n
    ensures Nth(g, m, k) + m <= Nth(g, m, n)
    decreases n
  {
    if k < n - 1 {
      NthApart(g, m, k, n - 1);
    }
  }

  /** Counting down ends at some firing. */
  lemma {:induction false} LeftAt(t: nat, g: nat, m: nat) returns (n: nat)
    requires m > 0
    ensures t + Left(t, g, m) == Nth(g, m, n) && (n == 0 || Left(t, g, m) < m)
  {
    if t == 0 {
      n := 0;
    } else {
      n := LeftAt(t - 1, g, m);
      if Left(t - 1, g, m) == 0 {
        n := n + 1;
      }
    }
  }

  /** t is g and a whole number of periods. */
  ghost predicate Firing(t: nat, g: nat, m: nat) {
    exists n: nat :: t == g + n * m
  }

  /** Nothing is left exactly after g ticks and whole periods. */
  lemma {:induction false} NothingLeftIff(t: nat, g: nat, m: nat)
    requires m > 0
    ensures Left(t, g, m) == 0 <==> Firing(t, g, m)
  {
    var n := LeftAt(t, g, m);
    NthIs(g, m, n);
    forall k: nat | t == g + k * m ensures Left(t, g, m) == 0 {
      NthIs(g, m, k);
      if k < n {
        NthApart(g, m, k, n);
      } else if n < k {
        NthApart(g, m, n, k);
      }
    }
  }

  // ------------------------------------------------------------------ one event

  /** A periodic timer that fires after g more ticks, the next tick being at first. */
  ghost predicate Cycles(u: Wheel, id: nat, g: nat, first: int, every: nat) {
    Ready(u, id, g, first) && u.table[id].interval == every
  }

  lemma {:induction false} FiresNow(u: Wheel, id: nat, g: nat, first: int)
    requires Ready(u, id, g, first)
    ensures FiresAt(u, id, first) <==> g == 0
  {
    if g > 0 {
      NotYet(u, u, id, g, first, 0, first);
    }
  }

  /** One tick nearer. */
  lemma {:induction false} Nearer(u: Wheel, r: Wheel, id: nat, g: nat, first: int, left: nat, next: int)
    requires Waits(u, id, g, first) && g == left + 1 && Untouched(u, r, id, 1) && next == first + r.tickMs
    ensures Ready(r, id, left, next)
  {
    var n := |u.wheel|;
    assert Hand(u.current, 0, n) == u.current && r.current == Next(u.current, n);
    HandAgain(u.current, left, n);
    AtLater(first, u.tickMs, left);
    if left >= n {
      AtLater(first, u.tickMs, left - n);
    }
  }

  lemma {:induction false} TickNearer(u: Wheel, r: Wheel, id: nat, g: nat, first: int, every: nat, left: nat, next: int)
    requires Cycles(u, id, g, first, every) && g == left + 1 && r == Tick(u, first) && next == first + r.tickMs
    ensures Cycles(r, id, left, next, every)
  {
    TickLeaves(u, u, id, g, first, 0, first);
    Nearer(u, r, id, g, first, left, next);
  }

  lemma {:induction false} TickAgain(u: Wheel, r: Wheel, id: nat, g: nat, first: int, every: nat, m: nat, left: nat,
                                     next: int)
    requires Cycles(u, id, g, first, every) && g == 0 && every > 0 && m == CeilDiv(every, u.tickMs)
    requires |u.wheel| + every + 1 < TWO_64
    requires r == Tick(u, first) && next == first + r.tickMs && m == left + 1
    ensures Cycles(r, id, left, next, every)
  {
    FiresNow(u, id, g, first);
    ReinsertedAhead(u, id, first, m);
    TickTable(u, first, id);
    AgainWaits(r, id, u.current, first, every, left, next);
  }

  lemma {:induction false} AgainWaits(r: Wheel, id: nat, c: nat, now: int, every: nat, left: nat, next: int)
    requires r.tickMs > 0 && every > 0 && left + 1 == CeilDiv(every, r.tickMs) && next == now + r.tickMs
    requires InWheel(r, id) && !r.table[id].cancelled && r.current == Next(c, |r.wheel|) < |r.wheel|
    requires r.table[id].bucket == Hand(c, left + 1, |r.wheel|) && r.table[id].expiration == now + every
    ensures Waits(r, id, left, next)
  {
    WaitsAgain(r, id, c, left + 1, now, every);
  }

  lemma {:induction false} OtherCycles(u: Wheel, e: Event, id: nat, g: nat, first: int, every: nat)
    requires Cycles(u, id, g, first, every) && !e.ETick? && e != ECancel(id)
    ensures Cycles(Step(u, e), id, g, first, every)
  {
    OthersLeave(u, u, id, 0, e);
  }

  // ------------------------------------------------------------------ whole runs

  /** After t ticks. */
  ghost predicate CyclesAt(u: Wheel, id: nat, t: nat, g: nat, start: int, every: nat, m: nat)
    requires m > 0
  {
    Cycles(u, id, Left(t, g, m), At(start, u.tickMs, t), every)
  }

  lemma {:induction false} TickCycles(u: Wheel, r: Wheel, id: nat, t: nat, g: nat, start: int, every: nat, m: nat)
    requires Sound(u) && every > 0 && m == CeilDiv(every, u.tickMs) && m > 0 && |u.wheel| + every + 1 < TWO_64
    requires CyclesAt(u, id, t, g, start, every, m) && r == Tick(u, At(start, u.tickMs, t))
    ensures CyclesAt(r, id, t + 1, g, start, every, m)
  {
    var left, now, left', next := Left(t, g, m), At(start, u.tickMs, t), Left(t + 1, g, m), At(start, r.tickMs, t + 1);
    if left == 0 {
      TickAgain(u, r, id, left, now, every, m, left', next);
    } else {
      TickNearer(u, r, id, left, now, every, left', next);
    }
  }

  /** One event in a run: what is left is what counting down leaves. */
  ghost predicate KeepsIt(inv: (Wheel, nat) -> bool, u: Wheel, e: Event, t: nat, id: nat, first: int) {
    Sound(u) && inv(u, t) && e != ECancel(id) && (e.ETick? ==> e.now == At(first, u.tickMs, t)) ==>
      inv(Step(u, e), if e.ETick? then t + 1 else t)
  }

  /** What every event keeps, counting ticks, holds after every run on time. */
  lemma {:induction false} RunBy(inv: (Wheel, nat) -> bool, w: Wheel, es: seq<Event>, id: nat, first: int)
    requires Sound(w) && inv(w, 0) && OnTime(es, first, w.tickMs) && Spares(es, id)
    requires forall u: Wheel, e, t: nat | u.tickMs == w.tickMs && |u.wheel| == |w.wheel| ::
               KeepsIt(inv, u, e, t, id, first)
    ensures inv(RunAll(w, es), Ticks(es))
    decreases |es|
  {
    if es != [] {
      var p, e := es[..|es| - 1], es[|es| - 1];
      OnTimePrefix(es, |p|, first, w.tickMs, id);
      RunBy(inv, w, p, id, first);
      assert KeepsIt(inv, RunAll(w, p), e, Ticks(p), id, first);
    }
  }

  lemma {:induction false} RunCycles(w: Wheel, es: seq<Event>, id: nat, g: nat, first: int, every: nat, m: nat)
    requires Cycles(w, id, g, first, every) && every > 0 && m == CeilDiv(every, w.tickMs) && m > 0
    requires |w.wheel| + every + 1 < TWO_64
    requires OnTime(es, first, w.tickMs) && Spares(es, id)
    ensures CyclesAt(RunAll(w, es), id, Ticks(es), g, first, every, m)
  {
    var inv := (u: Wheel, t: nat) => CyclesAt(u, id, t, g, first, every, m);
    forall u: Wheel, e, t: nat | u.tickMs == w.tickMs && |u.wheel| == |w.wheel|
      ensures KeepsIt(inv, u, e, t, id, first)
    {
      EventCycles(u, e, id, t, g, first, every, m);
    }
    RunBy(inv, w, es, id, first);
  }

  lemma {:induction false} EventCycles(u: Wheel, e: Event, id: nat, t: nat, g: nat, first: int, every: nat, m: nat)
    requires every > 0 && m > 0 && |u.wheel| + every + 1 < TWO_64 && (u.tickMs > 0 ==> m == CeilDiv(every, u.tickMs))
    ensures Sound(u) && CyclesAt(u, id, t, g, first, every, m) && e != ECancel(id) &&
              (e.ETick? ==> e.now == At(first, u.tickMs, t)) ==>
            CyclesAt(Step(u, e), id, if e.ETick? then t + 1 else t, g, first, every, m)
  {
    if Sound(u) && CyclesAt(u, id, t, g, first, every, m) && e != ECancel(id) &&
       (e.ETick? ==> e.now == At(first, u.tickMs, t)) {
      if e.ETick? {
        TickCycles(u, Step(u, e), id, t, g, first, every, m);
      } else {
        OtherCycles(u, e, id, Left(t, g, m), At(first, u.tickMs, t), every);
      }
    }
  }

  /**
   A new periodic timer that is not cancelled fires at ticks number a + 1, a + p + 1, a + 2 p + 1 and so on after its
   insertion, a being max(1, ceil(delay / tickMs)) and p ceil(interval / tickMs), and at no others.
   */
  lemma {:induction false} NthFire(w: Wheel, now: int, delayMs: nat, intervalMs: nat, es: seq<Event>, first: int,
                                   i: nat)
    requires Inv(w) && |w.wheel| >= 2 && |w.wheel| + delayMs + 1 < TWO_64 && |w.wheel| + intervalMs + 1 < TWO_64
    requires intervalMs > 0 && now <= first <= now + w.tickMs
    requires OnTime(es, first, w.tickMs) && Spares(es, w.nextId)
    requires i < |es| && es[i].ETick?
    ensures var (a, p) := (Ahead(delayMs, w.tickMs), CeilDiv(intervalMs, w.tickMs));
            FiresAt(RunAll(Add(w, now, delayMs, intervalMs), es[..i]), w.nextId, es[i].now) <==>
              Firing(Ticks(es[..i]), a, p)
  {
    var r, id := Add(w, now, delayMs, intervalMs), w.nextId;
    var a, p, t := Ahead(delayMs, w.tickMs), CeilDiv(intervalMs, w.tickMs), Ticks(es[..i]);
    NewTimerWaits(w, now, delayMs, intervalMs, first);
    PeriodAt(now, intervalMs, w.tickMs, |w.wheel|);
    OnTimePrefix(es, i, first, w.tickMs, id);
    RunCycles(r, es[..i], id, a, first, intervalMs, p);
    FiresNow(RunAll(r, es[..i]), id, Left(t, a, p), At(first, w.tickMs, t));
    NothingLeftIff(t, a, p);
  }
}
