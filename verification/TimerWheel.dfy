/** The timer wheel as a value: what addTimer, cancelTimer and tick do to it. */
module TimerWheel {
  import opened Bytes

  /** A Timer object; bucket is where the queue last put it. It repeats when its interval is positive. */
  datatype Timer = Timer(expiration: int, interval: int, cancelled: bool, bucket: nat)

  datatype Wheel = Wheel(
    tickMs: nat,
    current: nat,               // currentBucket_
    wheel: seq<seq<nat>>,       // wheel_, timers by id
    table: map<nat, Timer>,     // every timer object made so far
    timers: set<nat>,           // keys of timers_
    nextId: nat,
    expired: seq<nat>,          // collected by tick, callback not called yet
    ran: seq<nat>)              // callbacks called

  predicate Sound(w: Wheel) {
    w.tickMs > 0 && |w.wheel| > 0 && w.current < |w.wheel|
  }

  /** The remainder, by repeated subtraction. */
  function Mod(a: nat, n: nat): (r: nat)
    requires n > 0
    ensures r < n
  {
    if a < n then a else Mod(a - n, n)
  }

  /** The quotient, by repeated subtraction. */
  function Quot(a: nat, n: nat): (q: nat)
    requires n > 0
  {
    if a < n then 0 else 1 + Quot(a - n, n)
  }

  /** They are the built-in operations. */
  lemma {:induction false} QuotAndMod(a: nat, n: nat)
    requires n > 0
    ensures Mod(a, n) == a % n && Quot(a, n) == a / n
  {
    if a >= n {
      QuotAndMod(a - n, n);
      var q, r := (a - n) / n, (a - n) % n;
      assert a == n * (q + 1) + r;
      ModUnique(a, n, q + 1, r);
    } else {
      ModUnique(a, n, 0, a);
    }
  }

  /** Integer division as C does it. */
  function CDiv(a: int, b: int): (r: int)
    requires b > 0
  {
    if a >= 0 then Quot(a, b) else -(Quot(-a, b) as int)
  }

  /** Ticks covering a time span, as a size_t. */
  function TicksFor(ms: int, tickMs: nat): (r: nat)
    requires tickMs > 0
  {
    CDiv(ms + tickMs - 1, tickMs) % TWO_64
  }

  function Landing(w: Wheel, ticks: nat): (b: nat)
    requires Sound(w)
    ensures b < |w.wheel|
  {
    Mod((w.current + ticks) % TWO_64, |w.wheel|)
  }

  // ------------------------------------------------------------------ operations

  function Push(wheel: seq<seq<nat>>, b: nat, id: nat): (r: seq<seq<nat>>)
    requires b < |wheel|
  {
    wheel[b := wheel[b] + [id]]
  }

  /** addTimer; the timer's id is the old nextId. */
  function Add(w: Wheel, now: int, delayMs: int, intervalMs: int): (r: Wheel)
    requires Sound(w)
  {
    var ticks := TicksFor(delayMs, w.tickMs);
    var b := Landing(w, if ticks == 0 then 1 else ticks);
    w.(wheel := Push(w.wheel, b, w.nextId),
       table := w.table[w.nextId := Timer(now + delayMs, intervalMs, false, b)],
       timers := w.timers + {w.nextId},
       nextId := w.nextId + 1)
  }

  /** cancelTimer: effective exactly when the id is in timers_. */
  function Cancel(w: Wheel, id: nat): (r: Wheel) {
    if id in w.timers && id in w.table then
      w.(table := w.table[id := w.table[id].(cancelled := true)], timers := w.timers - {id})
    else w
  }

  predicate Due(table: map<nat, Timer>, id: nat, now: int) {
    id in table && table[id].expiration <= now && !table[id].cancelled
  }

  predicate Gone(table: map<nat, Timer>, id: nat) {
    id in table && table[id].cancelled
  }

  predicate Repeats(table: map<nat, Timer>, id: nat) {
    id in table && table[id].interval > 0
  }

  /** The due timers of a list, in order. */
  function DueIn(table: map<nat, Timer>, l: seq<nat>, now: int): (r: seq<nat>) {
    if l == [] then []
    else
      var id := l[|l| - 1];
      DueIn(table, l[..|l| - 1], now) + if Due(table, id, now) then [id] else []
  }

  /** Those that stay: not due, not cancelled. */
  function StayIn(table: map<nat, Timer>, l: seq<nat>, now: int): (r: seq<nat>)
    ensures |r| <= |l|
  {
    if l == [] then []
    else
      var id := l[|l| - 1];
      StayIn(table, l[..|l| - 1], now) + if !Due(table, id, now) && !Gone(table, id) then [id] else []
  }

  /** Where a periodic timer goes when it fires in the current bucket. */
  function NextBucket(w: Wheel, id: nat): (b: nat)
    requires Sound(w) && id in w.table
    ensures b < |w.wheel|
  {
    Landing(w, TicksFor(w.table[id].interval, w.tickMs))
  }

  /** The periodic timers of a list that fire and go to bucket b. */
  function BackIn(w: Wheel, l: seq<nat>, now: int, b: nat): (r: seq<nat>)
    requires Sound(w)
    decreases |l|
  {
    if l == [] then []
    else
      var id := l[|l| - 1];
      BackIn(w, l[..|l| - 1], now, b) +
      if Due(w.table, id, now) && Repeats(w.table, id) && NextBucket(w, id) == b then [id] else []
  }

  /** Timer::restart for the periodic timers of a list that fire. */
  function Restarted(w: Wheel, l: seq<nat>, now: int): (r: map<nat, Timer>)
    requires Sound(w)
  {
    map id | id in w.table ::
      if id in l && Due(w.table, id, now) && Repeats(w.table, id)
      then w.table[id].(expiration := now + w.table[id].interval, bucket := NextBucket(w, id))
      else w.table[id]
  }

  /** The timers of a list that leave timers_: fired for good, or found cancelled. */
  function Leaving(table: map<nat, Timer>, l: seq<nat>, now: int): (r: set<nat>) {
    set id | id in l && ((Due(table, id, now) && !Repeats(table, id)) || Gone(table, id))
  }

  /** Bucket b while tick scans the current bucket, after its first k entries. */
  function BucketAt(w: Wheel, now: int, k: nat, b: nat): (r: seq<nat>)
    requires Sound(w) && k <= |w.wheel[w.current]| && b < |w.wheel|
  {
    var l := w.wheel[w.current];
    (if b == w.current then StayIn(w.table, l[..k], now) + l[k..] else w.wheel[b]) + BackIn(w, l[..k], now, b)
  }

  /** The wheel while tick scans the current bucket, after its first k entries. */
  function Scanned(w: Wheel, now: int, k: nat): (r: Wheel)
    requires Sound(w) && k <= |w.wheel[w.current]|
  {
    var p := w.wheel[w.current][..k];
    w.(table := Restarted(w, p, now),
       timers := w.timers - Leaving(w.table, p, now),
       expired := w.expired + DueIn(w.table, p, now),
       wheel := seq(|w.wheel|, b requires 0 <= b < |w.wheel| => BucketAt(w, now, k, b)))
  }

  /** tick's locked part, in one step: every entry of the current bucket once, each to where it belongs. */
  function Tick(w: Wheel, now: int): (r: Wheel)
    requires Sound(w)
  {
    Scanned(w, now, |w.wheel[w.current]|).(current := Mod(w.current + 1, |w.wheel|))
  }

  /** One collected timer's callback, outside the lock; a cancelled timer is skipped. */
  function Call(w: Wheel, i: nat): (r: Wheel) {
    if i >= |w.expired| then w
    else
      var id := w.expired[i];
      w.(expired := w.expired[..i] + w.expired[i + 1..],
         ran := if Gone(w.table, id) then w.ran else w.ran + [id])
  }

  /** The timers of a list that are not cancelled, in order. */
  function Live(table: map<nat, Timer>, l: seq<nat>): (r: seq<nat>) {
    if l == [] then [] else (if Gone(table, l[0]) then [] else [l[0]]) + Live(table, l[1..])
  }

  /** The loop after the lock: the collected timers one after the other. */
  function CallAll(w: Wheel): (r: Wheel)
    decreases |w.expired|
  {
    if w.expired == [] then w else CallAll(Call(w, 0))
  }

  /** It calls exactly the collected timers that are not cancelled, in the order they were collected. */
  lemma {:induction false} CallAllRuns(w: Wheel)
    ensures CallAll(w) == w.(expired := [], ran := w.ran + Live(w.table, w.expired))
    decreases |w.expired|
  {
    if w.expired == [] {
      assert w.ran + [] == w.ran;
    } else {
      var r := Call(w, 0);
      assert r.expired == w.expired[1..];
      CallAllRuns(r);
      assert (w.ran + [w.expired[0]]) + Live(w.table, r.expired) == w.ran + ([w.expired[0]] + Live(w.table, r.expired));
      assert [] + Live(w.table, r.expired) == Live(w.table, r.expired);
    }
  }

  // ------------------------------------------------------------------ runs

  datatype Event =
    | EAdd(now: int, delayMs: int, intervalMs: int)
    | ECancel(id: nat)
    | ETick(now: int)
    | ECall(i: nat)

  function Step(w: Wheel, e: Event): (r: Wheel)
    requires Sound(w)
    ensures Sound(r) && |r.wheel| == |w.wheel| && r.tickMs == w.tickMs
  {
    match e
    case EAdd(now, delayMs, intervalMs) => Add(w, now, delayMs, intervalMs)
    case ECancel(id) => Cancel(w, id)
    case ETick(now) => Tick(w, now)
    case ECall(i) => Call(w, i)
  }

  function RunAll(w: Wheel, es: seq<Event>): (r: Wheel)
    requires Sound(w)
    ensures Sound(r) && |r.wheel| == |w.wheel| && r.tickMs == w.tickMs
    decreases |es|
  {
    if es == [] then w else Step(RunAll(w, es[..|es| - 1]), es[|es| - 1])
  }

  function Empty(buckets: nat, tickMs: nat): (r: Wheel)
    requires buckets > 0 && tickMs > 0
    ensures Sound(r)
  {
    Wheel(tickMs, 0, seq(buckets, _ => []), map[], {}, 0, [], [])
  }

  // ------------------------------------------------------------------ lists

  ghost predicate Distinct(l: seq<nat>) {
    forall i, j | 0 <= i < j < |l| :: l[i] != l[j]
  }

  lemma {:induction false} DueMembers(table: map<nat, Timer>, l: seq<nat>, now: int)
    ensures forall id :: id in DueIn(table, l, now) <==> id in l && Due(table, id, now)
    ensures forall id :: id in StayIn(table, l, now) <==> id in l && !Due(table, id, now) && !Gone(table, id)
  {
    if l != [] {
      DueMembers(table, l[..|l| - 1], now);
      assert forall id :: id in l <==> id in l[..|l| - 1] || id == l[|l| - 1];
    }
  }

  lemma {:induction false} BackMembers(w: Wheel, l: seq<nat>, now: int, b: nat)
    requires Sound(w)
    ensures forall id :: id in BackIn(w, l, now, b) <==>
                         id in l && Due(w.table, id, now) && Repeats(w.table, id) && NextBucket(w, id) == b
  {
    if l != [] {
      BackMembers(w, l[..|l| - 1], now, b);
      assert forall id :: id in l <==> id in l[..|l| - 1] || id == l[|l| - 1];
    }
  }

  lemma {:induction false} FiltersDistinct(w: Wheel, l: seq<nat>, now: int, b: nat)
    requires Sound(w) && Distinct(l)
    ensures Distinct(DueIn(w.table, l, now)) && Distinct(StayIn(w.table, l, now)) && Distinct(BackIn(w, l, now, b))
  {
    if l != [] {
      var p := l[..|l| - 1];
      FiltersDistinct(w, p, now, b);
      DueMembers(w.table, p, now);
      BackMembers(w, p, now, b);
      assert l[|l| - 1] !in p;
    }
  }
}
