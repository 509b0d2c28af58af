/** What every run of adding, cancelling, ticking and calling back keeps. */
module TimerInvariants {
  import opened TimerWheel

  /** Each entry of the wheel knows its bucket, and no bucket holds a timer twice. */
  ghost predicate Placed(w: Wheel) {
    && (forall b, i | 0 <= b < |w.wheel| && 0 <= i < |w.wheel[b]| ::
          w.wheel[b][i] in w.table && w.table[w.wheel[b][i]].bucket == b)
    && (forall b | 0 <= b < |w.wheel| :: Distinct(w.wheel[b]))
    && (forall id | id in w.table :: id < w.nextId && w.table[id].bucket < |w.wheel|)
  }

  ghost predicate InWheel(w: Wheel, id: nat) {
    id in w.table && w.table[id].bucket < |w.wheel| && id in w.wheel[w.table[id].bucket]
  }

  /** timers_ holds exactly the uncancelled timers of the wheel. */
  ghost predicate Listed(w: Wheel) {
    forall id :: id in w.timers <==> InWheel(w, id) && !w.table[id].cancelled
  }

  /** A one-shot timer is in the wheel, or collected, or has run: one of them, and once. */
  ghost predicate Once(w: Wheel, id: nat) {
    id in w.table && w.table[id].interval <= 0 ==>
      multiset(w.ran)[id] + multiset(w.expired)[id] + (if InWheel(w, id) then 1 else 0) <= 1
  }

  ghost predicate Known(w: Wheel) {
    (forall i | 0 <= i < |w.expired| :: w.expired[i] in w.table) && (forall i | 0 <= i < |w.ran| :: w.ran[i] in w.table)
  }

  ghost predicate Inv(w: Wheel) {
    Sound(w) && Placed(w) && Listed(w) && Known(w) && (forall id :: Once(w, id))
  }

  // ------------------------------------------------------------------ add, cancel, call

  lemma {:induction false} AddKeeps(w: Wheel, now: int, delayMs: int, intervalMs: int)
    requires Inv(w)
    ensures Inv(Add(w, now, delayMs, intervalMs))
  {
    var r, id := Add(w, now, delayMs, intervalMs), w.nextId;
    var b := r.table[id].bucket;
    assert r.wheel[b] == w.wheel[b] + [id];
    assert forall x | x in w.table :: r.table[x] == w.table[x] && x != id;
    assert forall c | 0 <= c < |w.wheel| && c != b :: r.wheel[c] == w.wheel[c];
    assert id !in w.wheel[b];
    assert forall x | x != id :: InWheel(r, x) <==> InWheel(w, x);
    assert InWheel(r, id) by { assert r.wheel[b][|w.wheel[b]|] == id; }
    forall x ensures Once(r, x) {
      assert Once(w, x);
      assert x == id ==> x !in w.ran && x !in w.expired;
    }
  }

  lemma {:induction false} CancelKeeps(w: Wheel, id: nat)
    requires Inv(w)
    ensures Inv(Cancel(w, id))
  {
    var r := Cancel(w, id);
    assert forall x :: InWheel(r, x) <==> InWheel(w, x);
    forall x ensures Once(r, x) { assert Once(w, x); }
  }

  lemma {:induction false} CallKeeps(w: Wheel, i: nat)
    requires Inv(w)
    ensures Inv(Call(w, i))
  {
    var r := Call(w, i);
    assert forall x :: InWheel(r, x) <==> InWheel(w, x);
    if i < |w.expired| {
      assert w.expired == w.expired[..i] + [w.expired[i]] + w.expired[i + 1..];
      assert multiset(w.expired) == multiset(r.expired) + multiset{w.expired[i]};
    }
    forall x ensures Once(r, x) { assert Once(w, x); }
  }

  // ------------------------------------------------------------------ tick

  /** A bucket after a tick: what stays in it, then what comes back to it. */
  lemma {:induction false} TickBucket(w: Wheel, now: int, b: nat)
    requires Sound(w) && b < |w.wheel|
    ensures var l := w.wheel[w.current];
            Tick(w, now).wheel[b] ==
              (if b == w.current then StayIn(w.table, l, now) else w.wheel[b]) + BackIn(w, l, now, b)
  {
    var l := w.wheel[w.current];
    assert l[..|l|] == l && l[|l|..] == [];
    assert StayIn(w.table, l, now) + [] == StayIn(w.table, l, now);
  }

  /** The other buckets share no timer with the current one. */
  lemma {:induction false} OtherBucket(w: Wheel, b: nat, id: nat)
    requires Placed(w) && w.current < |w.wheel| && b < |w.wheel| && b != w.current && id in w.wheel[b]
    ensures id !in w.wheel[w.current]
  {
    assert w.table[id].bucket == b;
  }

  lemma {:induction false} DistinctAppend(a: seq<nat>, b: seq<nat>)
    requires Distinct(a) && Distinct(b) && forall id | id in a :: id !in b
    ensures Distinct(a + b)
  {
    var l := a + b;
    forall i, j | 0 <= i < j < |l| ensures l[i] != l[j] {
      if i < |a| <= j {
        assert l[i] in a && l[j] in b;
      }
    }
  }

  /** Where a timer's entry is after a tick. */
  lemma {:induction false} TickPlaces(w: Wheel, now: int, b: nat)
    requires Inv(w) && b < |w.wheel|
    ensures forall id :: id in Tick(w, now).wheel[b] <==>
              if id in w.wheel[w.current] && Due(w.table, id, now) then Repeats(w.table, id) && NextBucket(w, id) == b
              else id in w.wheel[b] && (b == w.current ==> !Gone(w.table, id))
  {
    var l := w.wheel[w.current];
    TickBucket(w, now, b);
    DueMembers(w.table, l, now);
    BackMembers(w, l, now, b);
    forall id | id in w.wheel[b] && b != w.current ensures id !in l { OtherBucket(w, b, id); }
  }

  lemma {:induction false} TickDistinct(w: Wheel, now: int, b: nat)
    requires Inv(w) && b < |w.wheel|
    ensures Distinct(Tick(w, now).wheel[b])
  {
    var l := w.wheel[w.current];
    TickBucket(w, now, b);
    DueMembers(w.table, l, now);
    BackMembers(w, l, now, b);
    assert Distinct(l);
    FiltersDistinct(w, l, now, b);
    var base := if b == w.current then StayIn(w.table, l, now) else w.wheel[b];
    forall id | id in base ensures id !in BackIn(w, l, now, b) {
      if b != w.current {
        OtherBucket(w, b, id);
      }
    }
    DistinctAppend(base, BackIn(w, l, now, b));
  }

  lemma {:induction false} TickTable(w: Wheel, now: int, id: nat)
    requires Inv(w) && id in w.table
    ensures var r := Tick(w, now);
            && id in r.table && r.table[id].interval == w.table[id].interval
            && r.table[id].cancelled == w.table[id].cancelled
            && r.table[id] == if id in w.wheel[w.current] && Due(w.table, id, now) && Repeats(w.table, id)
                              then w.table[id].(expiration := now + w.table[id].interval, bucket := NextBucket(w, id))
                              else w.table[id]
  {
    var l := w.wheel[w.current];
    assert l[..|l|] == l;
  }

  /** A timer is in the wheel after a tick unless it fired for good or was swept out. */
  lemma {:induction false} TickInWheel(w: Wheel, now: int, id: nat)
    requires Inv(w)
    ensures InWheel(Tick(w, now), id) <==>
            InWheel(w, id) &&
              !(id in w.wheel[w.current] && ((Due(w.table, id, now) && !Repeats(w.table, id)) || Gone(w.table, id)))
  {
    var l, r := w.wheel[w.current], Tick(w, now);
    if id in w.table {
      TickTable(w, now, id);
      TickPlaces(w, now, r.table[id].bucket);
      if id in l {
        assert w.table[id].bucket == w.current;
      }
    }
  }

  lemma {:induction false} TickKeepsPlaced(w: Wheel, now: int)
    requires Inv(w)
    ensures Placed(Tick(w, now))
  {
    var r := Tick(w, now);
    forall b, i | 0 <= b < |r.wheel| && 0 <= i < |r.wheel[b]|
      ensures r.wheel[b][i] in r.table && r.table[r.wheel[b][i]].bucket == b
    {
      var id := r.wheel[b][i];
      TickPlaces(w, now, b);
      assert id in r.wheel[b];
      TickTable(w, now, id);
    }
    forall b | 0 <= b < |r.wheel| ensures Distinct(r.wheel[b]) { TickDistinct(w, now, b); }
    forall id | id in r.table ensures id < r.nextId && r.table[id].bucket < |r.wheel| { TickTable(w, now, id); }
  }

  lemma {:induction false} TickKeepsListed(w: Wheel, now: int)
    requires Inv(w)
    ensures Listed(Tick(w, now))
  {
    var l, r := w.wheel[w.current], Tick(w, now);
    assert l[..|l|] == l;
    forall id ensures id in r.timers <==> InWheel(r, id) && !r.table[id].cancelled {
      TickInWheel(w, now, id);
      if id in w.table {
        TickTable(w, now, id);
      }
    }
  }

  lemma {:induction false} CountDistinct(l: seq<nat>, x: nat)
    requires Distinct(l)
    ensures multiset(l)[x] == if x in l then 1 else 0
  {
    if l != [] {
      var p := l[..|l| - 1];
      CountDistinct(p, x);
      assert l == p + [l[|l| - 1]];
    }
  }

  lemma {:induction false} TickExpired(w: Wheel, now: int, id: nat)
    requires Inv(w)
    ensures multiset(Tick(w, now).expired)[id] ==
            multiset(w.expired)[id] + if id in w.wheel[w.current] && Due(w.table, id, now) then 1 else 0
  {
    var l := w.wheel[w.current];
    assert l[..|l|] == l;
    DueMembers(w.table, l, now);
    FiltersDistinct(w, l, now, 0);
    CountDistinct(DueIn(w.table, l, now), id);
  }

  lemma {:induction false} TickKeepsOnce(w: Wheel, now: int, id: nat)
    requires Inv(w)
    ensures Once(Tick(w, now), id)
  {
    assert Once(w, id);
    TickExpired(w, now, id);
    TickInWheel(w, now, id);
    if id in w.table {
      TickTable(w, now, id);
    }
    assert id in w.wheel[w.current] ==> InWheel(w, id);
  }

  lemma {:induction false} TickKeeps(w: Wheel, now: int)
    requires Inv(w)
    ensures Inv(Tick(w, now))
  {
    TickKeepsPlaced(w, now);
    TickKeepsListed(w, now);
    forall id ensures Once(Tick(w, now), id) { TickKeepsOnce(w, now, id); }
    var l, r := w.wheel[w.current], Tick(w, now);
    assert l[..|l|] == l;
    DueMembers(w.table, l, now);
    forall i | 0 <= i < |r.expired| ensures r.expired[i] in r.table {
      if i >= |w.expired| {
        assert r.expired[i] in DueIn(w.table, l, now);
      }
    }
  }

  // ------------------------------------------------------------------ runs

  lemma {:induction false} StepKeeps(w: Wheel, e: Event)
    requires Inv(w)
    ensures Inv(Step(w, e))
  {
    match e
    case EAdd(now, delayMs, intervalMs) => AddKeeps(w, now, delayMs, intervalMs);
    case ECancel(id) => CancelKeeps(w, id);
    case ETick(now) => TickKeeps(w, now);
    case ECall(i) => CallKeeps(w, i);
  }

  lemma {:induction false} RunKeeps(w: Wheel, es: seq<Event>)
    requires Inv(w)
    ensures Inv(RunAll(w, es))
    decreases |es|
  {
    if es != [] {
      RunKeeps(w, es[..|es| - 1]);
      StepKeeps(RunAll(w, es[..|es| - 1]), es[|es| - 1]);
    }
  }

  lemma {:induction false} EmptyInv(buckets: nat, tickMs: nat)
    requires buckets > 0 && tickMs > 0
    ensures Inv(Empty(buckets, tickMs))
  {
  }

  /**
   After every run: no timer stands in the wheel twice, timers_ is exactly the uncancelled timers in it, and no
   one-shot timer has run more than once.
   */
  lemma {:induction false} WheelConsistent(buckets: nat, tickMs: nat, es: seq<Event>)
    requires buckets > 0 && tickMs > 0
    ensures var w := RunAll(Empty(buckets, tickMs), es);
            && (forall b, i, c, j | 0 <= b < |w.wheel| && 0 <= i < |w.wheel[b]| &&
                  0 <= c < |w.wheel| && 0 <= j < |w.wheel[c]|
                  && w.wheel[b][i] == w.wheel[c][j] :: b == c && i == j)
            && (forall id :: id in w.timers <==> InWheel(w, id) && !w.table[id].cancelled)
            && (forall id | id in w.table && w.table[id].interval <= 0 :: multiset(w.ran)[id] <= 1)
  {
    EmptyInv(buckets, tickMs);
    RunKeeps(Empty(buckets, tickMs), es);
    var w := RunAll(Empty(buckets, tickMs), es);
    forall id | id in w.table && w.table[id].interval <= 0 ensures multiset(w.ran)[id] <= 1 { assert Once(w, id); }
    forall b, i, c, j | 0 <= b < |w.wheel| && 0 <= i < |w.wheel[b]| && 0 <= c < |w.wheel| && 0 <= j < |w.wheel[c]|
                        && w.wheel[b][i] == w.wheel[c][j]
      ensures b == c && i == j
    {
      assert w.table[w.wheel[b][i]].bucket == b;
      assert w.table[w.wheel[c][j]].bucket == c;
      assert Distinct(w.wheel[b]);
    }
  }

  /** Cancelled stays cancelled and is not run. */
  lemma {:induction false} CancelledStays(w: Wheel, e: Event, id: nat)
    requires Inv(w) && Gone(w.table, id)
    ensures Gone(Step(w, e).table, id) && multiset(Step(w, e).ran)[id] == multiset(w.ran)[id]
  {
    if e.ETick? {
      TickTable(w, e.now, id);
    }
  }

  lemma {:induction false} CancelledForever(w: Wheel, es: seq<Event>, id: nat)
    requires Inv(w) && Gone(w.table, id)
    ensures Gone(RunAll(w, es).table, id) && multiset(RunAll(w, es).ran)[id] == multiset(w.ran)[id]
    decreases |es|
  {
    if es != [] {
      var v := RunAll(w, es[..|es| - 1]);
      CancelledForever(w, es[..|es| - 1], id);
      RunKeeps(w, es[..|es| - 1]);
      CancelledStays(v, es[|es| - 1], id);
    }
  }

  /**
   A timer that cancelTimer finds never runs again, whatever happens around it, even if tick has just collected it.
   */
  lemma {:induction false} CancelFinal(buckets: nat, tickMs: nat, before: seq<Event>, id: nat, after: seq<Event>)
    requires buckets > 0 && tickMs > 0 && id in RunAll(Empty(buckets, tickMs), before).timers
    ensures var w := RunAll(Empty(buckets, tickMs), before);
            multiset(RunAll(Cancel(w, id), after).ran)[id] == multiset(w.ran)[id]
  {
    var w := RunAll(Empty(buckets, tickMs), before);
    EmptyInv(buckets, tickMs);
    RunKeeps(Empty(buckets, tickMs), before);
    CancelKeeps(w, id);
    CancelledForever(Cancel(w, id), after, id);
  }
}
