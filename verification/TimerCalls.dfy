/** How often a timer's callback is called. */
module TimerCalls {
  import opened Bytes
  import opened TimerWheel
  import opened TimerInvariants
  import opened TimerTiming
  import opened TimerPeriods

  // ------------------------------------------------------------------ every firing leads to a call

  /** How many ticks of a run collect the timer. */
  ghost function Firings(w: Wheel, es: seq<Event>, id: nat): (n: nat)
    requires Sound(w)
    decreases |es|
  {
    if es == [] then 0
    else
      var p, e := es[..|es| - 1], es[|es| - 1];
      Firings(w, p, id) + if e.ETick? && FiresAt(RunAll(w, p), id, e.now) then 1 else 0
  }

  /** Callbacks called and callbacks about to be called. */
  ghost function Called(w: Wheel, id: nat): (n: nat) {
    multiset(w.ran)[id] + multiset(w.expired)[id]
  }

  lemma {:induction false} CallCalled(w: Wheel, i: nat, id: nat)
    requires !Gone(w.table, id)
    ensures Called(Call(w, i), id) == Called(w, id)
  {
    if i < |w.expired| {
      assert w.expired == w.expired[..i] + [w.expired[i]] + w.expired[i + 1..];
      assert multiset(w.expired) == multiset(Call(w, i).expired) + multiset{w.expired[i]};
    }
  }

  lemma {:induction false} StepCalled(w: Wheel, e: Event, id: nat)
    requires Inv(w) && !Gone(w.table, id) && e != ECancel(id)
    ensures !Gone(Step(w, e).table, id)
    ensures Called(Step(w, e), id) == Called(w, id) + if e.ETick? && FiresAt(w, id, e.now) then 1 else 0
  {
    match e
    case ETick(now) =>
      TickExpired(w, now, id);
      if id in w.table {
        TickTable(w, now, id);
      }
    case ECall(i) => CallCalled(w, i, id);
    case _ =>
  }

  /** In every run that does not cancel it, a timer is called, or about to be, once for each tick that collected it. */
  lemma {:induction false} CalledIs(w: Wheel, es: seq<Event>, id: nat)
    requires Inv(w) && !Gone(w.table, id) && Spares(es, id)
    ensures !Gone(RunAll(w, es).table, id)
    ensures Called(RunAll(w, es), id) == Called(w, id) + Firings(w, es, id)
    decreases |es|
  {
    if es != [] {
      var p := es[..|es| - 1];
      CalledIs(w, p, id);
      RunKeeps(w, p);
      StepCalled(RunAll(w, p), es[|es| - 1], id);
    }
  }

  lemma {:induction false} NewTimer(w: Wheel, now: int, delayMs: nat, intervalMs: int)
    requires Inv(w)
    ensures var r := Add(w, now, delayMs, intervalMs);
            Inv(r) && !Gone(r.table, w.nextId) && Called(r, w.nextId) == 0
  {
    AddKeeps(w, now, delayMs, intervalMs);
    assert w.nextId !in w.table;
    assert w.nextId !in w.ran && w.nextId !in w.expired;
  }

  // ------------------------------------------------------------------ how many

  /** Of t ticks after its insertion, how many collect a timer due after a and then every p. */
  function DueBy(t: nat, a: nat, p: nat): (n: nat)
    requires p > 0
  {
    if t <= a then 0 else 1 + (t - a - 1) / p
  }

  lemma {:induction false} DueStep(t: nat, a: nat, p: nat)
    requires p > 0
    ensures DueBy(t + 1, a, p) == DueBy(t, a, p) + if Firing(t, a, p) then 1 else 0
  {
    if t < a {
      forall n: nat ensures t != a + n * p {
        assert n * p >= 0;
      }
    } else if t == a {
      assert t == a + 0 * p;
      ModUnique(0, p, 0, 0);
    } else {
      DueLater(t - a, p);
      if Firing(t, a, p) {
        var n: nat :| t == a + n * p;
        ModUnique(t - a, p, n, 0);
      }
      if (t - a) % p == 0 {
        var n := (t - a) / p;
        assert t == a + n * p;
      }
    }
  }

  lemma {:induction false} DueLater(k: nat, p: nat)
    requires k > 0 && p > 0
    ensures k / p == (k - 1) / p + if k % p == 0 then 1 else 0
  {
    var q, r := (k - 1) / p, (k - 1) % p;
    assert k - 1 == p * q + r;
    if r + 1 == p {
      assert k == p * (q + 1) + 0;
      ModUnique(k, p, q + 1, 0);
    } else {
      ModUnique(k, p, q, r + 1);
    }
  }

  /**
   A periodic timer, with ticks on time: after t ticks it was called, or is about to be, as often as ticks a + 1,
   a + p + 1, a + 2 p + 1 and so on are among them.
   */
  lemma {:induction false} PeriodicCalls(w: Wheel, now: int, delayMs: nat, intervalMs: nat, es: seq<Event>, first: int)
    requires Inv(w) && |w.wheel| >= 2 && |w.wheel| + delayMs + 1 < TWO_64 && |w.wheel| + intervalMs + 1 < TWO_64
    requires intervalMs > 0 && now <= first <= now + w.tickMs
    requires OnTime(es, first, w.tickMs) && Spares(es, w.nextId)
    ensures CeilDiv(intervalMs, w.tickMs) > 0
    ensures Called(RunAll(Add(w, now, delayMs, intervalMs), es), w.nextId) ==
            DueBy(Ticks(es), Ahead(delayMs, w.tickMs), CeilDiv(intervalMs, w.tickMs))
  {
    NewTimer(w, now, delayMs, intervalMs);
    CeilDivIs(intervalMs, w.tickMs);
    CalledIs(Add(w, now, delayMs, intervalMs), es, w.nextId);
    var r, a, p := Add(w, now, delayMs, intervalMs), Ahead(delayMs, w.tickMs), CeilDiv(intervalMs, w.tickMs);
    forall i | 0 <= i < |es| && es[i].ETick?
      ensures FiresAt(RunAll(r, es[..i]), w.nextId, es[i].now) <==> Firing(Ticks(es[..i]), a, p)
    {
      NthFire(w, now, delayMs, intervalMs, es, first, i);
    }
    FiringsAre(r, es, w.nextId, a, p);
  }

  /** The ticks that collect the timer are those after a ticks and whole periods. */
  ghost predicate FiresWhen(w: Wheel, es: seq<Event>, id: nat, a: nat, p: nat)
    requires Sound(w)
  {
    forall i | 0 <= i < |es| && es[i].ETick? ::
      FiresAt(RunAll(w, es[..i]), id, es[i].now) <==> Firing(Ticks(es[..i]), a, p)
  }

  lemma {:induction false} FiringsAre(w: Wheel, es: seq<Event>, id: nat, a: nat, p: nat)
    requires Sound(w) && p > 0 && FiresWhen(w, es, id, a, p)
    ensures Firings(w, es, id) == DueBy(Ticks(es), a, p)
    decreases |es|
  {
    if es != [] {
      var init := es[..|es| - 1];
      forall i | 0 <= i < |init| ensures init[..i] == es[..i] {}
      FiringsAre(w, init, id, a, p);
      DueStep(Ticks(init), a, p);
    }
  }

  lemma {:induction false} IntervalStays(w: Wheel, es: seq<Event>, id: nat)
    requires Inv(w) && id in w.table
    ensures id in RunAll(w, es).table && RunAll(w, es).table[id].interval == w.table[id].interval
    decreases |es|
  {
    if es != [] {
      var p, e := es[..|es| - 1], es[|es| - 1];
      IntervalStays(w, p, id);
      RunKeeps(w, p);
      if e.ETick? {
        TickTable(RunAll(w, p), e.now, id);
      }
    }
  }

  /** A one-shot timer: once, from tick a + 1 on. */
  lemma {:induction false} OneShotCalls(w: Wheel, now: int, delayMs: nat, intervalMs: int, es: seq<Event>, first: int)
    requires Inv(w) && |w.wheel| >= 2 && |w.wheel| + delayMs + 1 < TWO_64
    requires intervalMs <= 0 && now <= first <= now + w.tickMs
    requires OnTime(es, first, w.tickMs) && Spares(es, w.nextId)
    ensures Called(RunAll(Add(w, now, delayMs, intervalMs), es), w.nextId) ==
            if Ticks(es) > Ahead(delayMs, w.tickMs) then 1 else 0
    decreases |es|
  {
    NewTimer(w, now, delayMs, intervalMs);
    if es != [] {
      var i, r, id := |es| - 1, Add(w, now, delayMs, intervalMs), w.nextId;
      OnTimePrefix(es, i, first, w.tickMs, id);
      OneShotCalls(w, now, delayMs, intervalMs, es[..i], first);
      CalledIs(r, es[..i], id);
      CalledIs(r, es, id);
      if es[i].ETick? && Ticks(es[..i]) <= Ahead(delayMs, w.tickMs) {
        FirstFire(w, now, delayMs, intervalMs, es, first, i);
      }
      AtMostOnce(r, es, id);
    }
  }

  lemma {:induction false} AtMostOnce(w: Wheel, es: seq<Event>, id: nat)
    requires Inv(w) && id in w.table && w.table[id].interval <= 0
    ensures Called(RunAll(w, es), id) <= 1
  {
    RunKeeps(w, es);
    IntervalStays(w, es, id);
    assert Once(RunAll(w, es), id);
  }

  // ------------------------------------------------------------------ the calls themselves

  /** When all collected timers have been called, the timer has been called as often as it was collected. */
  lemma {:induction false} RanIs(w: Wheel, es: seq<Event>, id: nat)
    requires Inv(w) && !Gone(w.table, id) && Spares(es, id)
    ensures multiset(CallAll(RunAll(w, es)).ran)[id] == Called(w, id) + Firings(w, es, id)
  {
    CalledIs(w, es, id);
    AllCalled(RunAll(w, es), id);
  }

  lemma {:induction false} AllCalled(w: Wheel, id: nat)
    requires !Gone(w.table, id)
    ensures multiset(CallAll(w).ran)[id] == Called(w, id)
    decreases |w.expired|
  {
    if w.expired != [] {
      CallCalled(w, 0, id);
      AllCalled(Call(w, 0), id);
    }
  }
}
