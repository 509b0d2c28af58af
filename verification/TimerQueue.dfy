/** TimerQueue with its scanning loop, proved against the wheel's one-step tick. */
module TimerQueue {
  import opened Bytes
  import opened TimerWheel
  import opened TimerInvariants

  function RemoveAt(l: seq<nat>, i: nat): (r: seq<nat>)
    requires i < |l|
  {
    l[..i] + l[i + 1..]
  }

  /** list::erase at position i of bucket b. */
  function EraseAt(wheel: seq<seq<nat>>, b: nat, i: nat): (r: seq<seq<nat>>)
    requires b < |wheel| && i < |wheel[b]|
  {
    wheel[b := RemoveAt(wheel[b], i)]
  }

  /** Entry i, a periodic timer, fires: collected, restarted, pushed to its next bucket, erased here. */
  function PuttingBack(w: Wheel, now: int, i: nat, id: nat): (r: Wheel)
    requires Sound(w) && i < |w.wheel[w.current]| && id in w.table
  {
    var nb := NextBucket(w, id);
    w.(table := w.table[id := w.table[id].(expiration := now + w.table[id].interval, bucket := nb)],
       expired := w.expired + [id],
       wheel := EraseAt(Push(w.wheel, nb, id), w.current, i))
  }

  /** Entry i, a one-shot timer, fires: collected, erased, out of timers_. */
  function Finishing(w: Wheel, i: nat, id: nat): (r: Wheel)
    requires Sound(w) && i < |w.wheel[w.current]|
  {
    w.(timers := w.timers - {id}, expired := w.expired + [id], wheel := EraseAt(w.wheel, w.current, i))
  }

  /** Entry i is cancelled: erased. */
  function Sweeping(w: Wheel, i: nat, id: nat): (r: Wheel)
    requires Sound(w) && i < |w.wheel[w.current]|
  {
    w.(timers := w.timers - {id}, wheel := EraseAt(w.wheel, w.current, i))
  }

  /** The index of entry k of the original bucket while it is being scanned. */
  ghost function Position(w: Wheel, now: int, k: nat): (i: nat)
    requires Sound(w) && k <= |w.wheel[w.current]|
  {
    |StayIn(w.table, w.wheel[w.current][..k], now)|
  }

  // ------------------------------------------------------------------ one turn of the loop

  lemma {:induction false} FiltersSnoc(w: Wheel, now: int, k: nat, b: nat)
    requires Sound(w) && k < |w.wheel[w.current]|
    ensures var l := w.wheel[w.current]; var p, q, id := l[..k], l[..k + 1], l[k];
            && StayIn(w.table, q, now) == StayIn(w.table, p, now) +
                 (if !Due(w.table, id, now) && !Gone(w.table, id) then [id] else [])
            && DueIn(w.table, q, now) == DueIn(w.table, p, now) + (if Due(w.table, id, now) then [id] else [])
            && BackIn(w, q, now, b) == BackIn(w, p, now, b) +
                 (if Due(w.table, id, now) && Repeats(w.table, id) && NextBucket(w, id) == b then [id] else [])
  {
    var l := w.wheel[w.current];
    assert l[..k + 1][..k] == l[..k];
  }

  /** What the scan needs of the wheel: no timer twice in the current bucket. */
  ghost predicate Scannable(w: Wheel) {
    Sound(w) && Distinct(w.wheel[w.current]) &&
    forall i | 0 <= i < |w.wheel[w.current]| :: w.wheel[w.current][i] in w.table
  }

  /** The entry the scan looks at is entry k of the original bucket, as it was. */
  lemma {:induction false} Looking(w: Wheel, now: int, k: nat)
    requires Scannable(w) && k < |w.wheel[w.current]|
    ensures var s, l := Scanned(w, now, k), w.wheel[w.current];
            && Position(w, now, k) < |s.wheel[w.current]| && s.wheel[w.current][Position(w, now, k)] == l[k]
            && l[k] in s.table && s.table[l[k]] == w.table[l[k]] && NextBucket(s, l[k]) == NextBucket(w, l[k])
  {
    var l := w.wheel[w.current];
    assert l[k] !in l[..k];
  }

  lemma {:induction false} SameMembers(l: seq<nat>, k: nat)
    requires k < |l|
    ensures forall id :: id in l[..k + 1] <==> id in l[..k] || id == l[k]
  {
    assert l[..k + 1] == l[..k] + [l[k]];
  }

  lemma {:induction false} StayBucket(w: Wheel, now: int, k: nat, b: nat)
    requires Sound(w) && k < |w.wheel[w.current]| && b < |w.wheel|
    requires var id := w.wheel[w.current][k]; !Due(w.table, id, now) && !Gone(w.table, id)
    ensures BucketAt(w, now, k + 1, b) == BucketAt(w, now, k, b)
  {
    var l := w.wheel[w.current];
    FiltersSnoc(w, now, k, b);
    var stay := StayIn(w.table, l[..k], now);
    assert stay + l[k..] == (stay + [l[k]]) + l[k + 1..];
  }

  /** Entry k leaves the current bucket, and may come back to bucket b. */
  lemma {:induction false} LeaveBucket(w: Wheel, now: int, k: nat, b: nat, back: bool)
    requires Sound(w) && k < |w.wheel[w.current]| && b < |w.wheel|
    requires var id := w.wheel[w.current][k];
             && (Due(w.table, id, now) || Gone(w.table, id))
             && back == (Due(w.table, id, now) && Repeats(w.table, id) && NextBucket(w, id) == b)
    ensures Position(w, now, k) < |BucketAt(w, now, k, w.current)|
    ensures var s := BucketAt(w, now, k, b);
            BucketAt(w, now, k + 1, b) ==
            (if b == w.current then RemoveAt(s, Position(w, now, k)) else s) +
              (if back then [w.wheel[w.current][k]] else [])
  {
    var l := w.wheel[w.current];
    FiltersSnoc(w, now, k, b);
    var stay, more := StayIn(w.table, l[..k], now), BackIn(w, l[..k], now, b);
    var front := if b == w.current then stay + l[k + 1..] else w.wheel[b];
    if b == w.current {
      Erased(stay, l, k, more);
    }
    Regroup(front, more, if back then [l[k]] else []);
  }

  lemma {:induction false} Regroup(a: seq<nat>, b: seq<nat>, c: seq<nat>)
    ensures a + (b + c) == (a + b) + c
  {
  }

  lemma {:induction false} Erased(stay: seq<nat>, l: seq<nat>, k: nat, more: seq<nat>)
    requires k < |l|
    ensures var s := (stay + l[k..]) + more;
            |stay| < |s| && RemoveAt(s, |stay|) == (stay + l[k + 1..]) + more
  {
  }

  /** Entry k stays: the scan passes over it. */
  lemma {:induction false} TurnStay(w: Wheel, now: int, k: nat)
    requires Scannable(w) && k < |w.wheel[w.current]|
    requires var id := w.wheel[w.current][k]; !Due(w.table, id, now) && !Gone(w.table, id)
    ensures Scanned(w, now, k + 1) == Scanned(w, now, k) && Position(w, now, k + 1) == Position(w, now, k) + 1
  {
    var s, t := Scanned(w, now, k), Scanned(w, now, k + 1);
    SameMembers(w.wheel[w.current], k);
    FiltersSnoc(w, now, k, 0);
    forall b | 0 <= b < |w.wheel| ensures t.wheel[b] == s.wheel[b] { StayBucket(w, now, k, b); }
    assert t.wheel == s.wheel;
    assert t.table == s.table;
  }

  /** The wheel without entry k of the current bucket. */
  lemma {:induction false} EraseOnly(w: Wheel, now: int, k: nat)
    requires Sound(w) && k < |w.wheel[w.current]|
    requires var id := w.wheel[w.current][k]; (Due(w.table, id, now) && !Repeats(w.table, id)) || Gone(w.table, id)
    ensures Position(w, now, k) < |Scanned(w, now, k).wheel[w.current]|
    ensures Scanned(w, now, k + 1).wheel == EraseAt(Scanned(w, now, k).wheel, w.current, Position(w, now, k))
  {
    var s, t := Scanned(w, now, k).wheel, Scanned(w, now, k + 1).wheel;
    LeaveBucket(w, now, k, w.current, false);
    var erased := EraseAt(s, w.current, Position(w, now, k));
    forall b | 0 <= b < |w.wheel| ensures t[b] == erased[b] { LeaveBucket(w, now, k, b, false); }
    assert t == erased;
  }

  /** The wheel with entry k of the current bucket moved to the end of its next bucket. */
  lemma {:induction false} EraseAndPush(w: Wheel, now: int, k: nat)
    requires Sound(w) && k < |w.wheel[w.current]|
    requires var id := w.wheel[w.current][k]; Due(w.table, id, now) && Repeats(w.table, id)
    ensures var s, id := Scanned(w, now, k).wheel, w.wheel[w.current][k];
            && Position(w, now, k) < |s[w.current]|
            && Scanned(w, now, k + 1).wheel == EraseAt(Push(s, NextBucket(w, id), id), w.current, Position(w, now, k))
  {
    var s, t, id := Scanned(w, now, k).wheel, Scanned(w, now, k + 1).wheel, w.wheel[w.current][k];
    var nb, i := NextBucket(w, id), Position(w, now, k);
    LeaveBucket(w, now, k, w.current, nb == w.current);
    forall b | 0 <= b < |w.wheel|
      ensures t[b] == (if b == w.current then RemoveAt(s[b], i) else s[b]) + (if nb == b then [id] else [])
    {
      LeaveBucket(w, now, k, b, nb == b);
    }
    ErasedAndPushed(s, t, w.current, nb, i, id);
  }

  lemma {:induction false} ErasedAndPushed(s: seq<seq<nat>>, t: seq<seq<nat>>, cur: nat, nb: nat, i: nat, id: nat)
    requires |s| == |t| && cur < |s| && nb < |s| && i < |s[cur]|
    requires forall b | 0 <= b < |s| ::
               t[b] == (if b == cur then RemoveAt(s[b], i) else s[b]) + (if nb == b then [id] else [])
    ensures t == EraseAt(Push(s, nb, id), cur, i)
  {
    var erased := EraseAt(Push(s, nb, id), cur, i);
    assert RemoveAt(s[cur] + [id], i) == RemoveAt(s[cur], i) + [id];
    forall b | 0 <= b < |s| ensures t[b] == erased[b] {
      assert s[b] + [] == s[b];
    }
  }

  /** Entry k is cancelled: erased. */
  lemma {:induction false} TurnGone(w: Wheel, now: int, k: nat)
    requires Scannable(w) && k < |w.wheel[w.current]| && Gone(w.table, w.wheel[w.current][k])
    ensures Position(w, now, k + 1) == Position(w, now, k) < |Scanned(w, now, k).wheel[w.current]|
    ensures var s, id := Scanned(w, now, k), w.wheel[w.current][k];
            Scanned(w, now, k + 1) == Sweeping(s, Position(w, now, k), id)
  {
    SameMembers(w.wheel[w.current], k);
    FiltersSnoc(w, now, k, 0);
    EraseOnly(w, now, k);
    assert Scanned(w, now, k + 1).table == Scanned(w, now, k).table;
  }

  /** Entry k fires for good: collected, erased, out of timers_. */
  lemma {:induction false} TurnOnce(w: Wheel, now: int, k: nat)
    requires Scannable(w) && k < |w.wheel[w.current]|
    requires var id := w.wheel[w.current][k]; Due(w.table, id, now) && !Repeats(w.table, id)
    ensures Position(w, now, k + 1) == Position(w, now, k) < |Scanned(w, now, k).wheel[w.current]|
    ensures var s, id := Scanned(w, now, k), w.wheel[w.current][k];
            Scanned(w, now, k + 1) == Finishing(s, Position(w, now, k), id)
  {
    SameMembers(w.wheel[w.current], k);
    FiltersSnoc(w, now, k, 0);
    EraseOnly(w, now, k);
    assert Scanned(w, now, k + 1).table == Scanned(w, now, k).table;
  }

  /** Entry k fires and repeats: collected, restarted, pushed to its next bucket, erased here. */
  lemma {:induction false} TurnRepeat(w: Wheel, now: int, k: nat)
    requires Scannable(w) && k < |w.wheel[w.current]|
    requires var id := w.wheel[w.current][k]; Due(w.table, id, now) && Repeats(w.table, id)
    ensures Position(w, now, k + 1) == Position(w, now, k) < |Scanned(w, now, k).wheel[w.current]|
    ensures var s, id := Scanned(w, now, k), w.wheel[w.current][k];
            id in s.table && Scanned(w, now, k + 1) == PuttingBack(s, now, Position(w, now, k), id)
  {
    var l := w.wheel[w.current];
    var id := l[k];
    Looking(w, now, k);
    SameMembers(l, k);
    FiltersSnoc(w, now, k, 0);
    EraseAndPush(w, now, k);
    assert Scanned(w, now, k + 1).table ==
           Scanned(w, now, k).table[
             id := w.table[id].(expiration := now + w.table[id].interval, bucket := NextBucket(w, id))];
  }

  /** Past the original entries the scan meets only timers it has just put back: neither due nor cancelled. */
  lemma {:induction false} OnlyPutBack(w: Wheel, now: int, i: nat)
    requires Sound(w)
    requires var l := w.wheel[w.current];
             Position(w, now, |l|) <= i < |Scanned(w, now, |l|).wheel[w.current]|
    ensures var s := Scanned(w, now, |w.wheel[w.current]|);
            var id := s.wheel[w.current][i];
            id in s.table && !Due(s.table, id, now) && !Gone(s.table, id)
  {
    var l := w.wheel[w.current];
    var s := Scanned(w, now, |l|);
    assert l[..|l|] == l && l[|l|..] == [];
    var stay, back := StayIn(w.table, l, now), BackIn(w, l, now, w.current);
    assert s.wheel[w.current] == stay + back by { assert stay + [] == stay; }
    assert s.wheel[w.current][i] in back;
    BackMembers(w, l, now, w.current);
  }

  // ------------------------------------------------------------------ the class

  class TimerQueue {
    const tickMs: nat
    var currentBucket: nat
    var wheel: seq<seq<nat>>
    var table: map<nat, Timer>
    var timers: set<nat>
    var nextId: nat
    var expired: seq<nat>
    var ran: seq<nat>

    ghost function View(): (w: Wheel)
      reads this
    {
      Wheel(tickMs, currentBucket, wheel, table, timers, nextId, expired, ran)
    }

    constructor (buckets: nat, tickMs: nat)
      requires buckets > 0 && tickMs > 0
      ensures View() == Empty(buckets, tickMs)
    {
      this.tickMs := tickMs;
      currentBucket, wheel, table, timers := 0, seq(buckets, _ => []), map[], {};
      nextId, expired, ran := 0, [], [];
    }

    method AddTimer(now: int, delayMs: int, intervalMs: int) returns (timerId: nat)
      requires Sound(View())
      modifies this
      ensures timerId == old(nextId) && View() == Add(old(View()), now, delayMs, intervalMs)
    {
      timerId := nextId;
      var ticks := TicksFor(delayMs, tickMs);
      if ticks == 0 {
        ticks := 1;
      }
      var bucket := Mod((currentBucket + ticks) % TWO_64, |wheel|);
      wheel := wheel[bucket := wheel[bucket] + [timerId]];
      table := table[timerId := Timer(now + delayMs, intervalMs, false, bucket)];
      timers := timers + {timerId};
      nextId := nextId + 1;
    }

    method CancelTimer(timerId: nat)
      requires timers <= table.Keys
      modifies this
      ensures View() == Cancel(old(View()), timerId)
    {
      if timerId in timers {
        table := table[timerId := table[timerId].(cancelled := true)];
        timers := timers - {timerId};
      }
    }

    /** The bucket a time span ahead of the current one. */
    function BucketAfter(ms: int): (b: nat)
      requires Sound(View())
      reads this
      ensures b == Landing(View(), TicksFor(ms, tickMs)) < |wheel|
    {
      Mod((currentBucket + TicksFor(ms, tickMs)) % TWO_64, |wheel|)
    }

    /** A due periodic timer: collected, restarted and moved to its next bucket. */
    method PutBack(now: int, i: nat, id: nat)
      requires Sound(View()) && i < |wheel[currentBucket]| && id in table
      modifies this
      ensures View() == PuttingBack(old(View()), now, i, id)
    {
      var timer := table[id];
      var newBucket := BucketAfter(timer.interval);
      expired := expired + [id];
      table := table[id := timer.(expiration := now + timer.interval, bucket := newBucket)];
      wheel := Push(wheel, newBucket, id);
      wheel := EraseAt(wheel, currentBucket, i);
    }

    /** A due one-shot timer: collected and done with. */
    method Finish(i: nat, id: nat)
      requires Sound(View()) && i < |wheel[currentBucket]|
      modifies this
      ensures View() == Finishing(old(View()), i, id)
    {
      expired := expired + [id];
      timers := timers - {id};
      wheel := EraseAt(wheel, currentBucket, i);
    }

    /** A cancelled timer: swept out. */
    method Sweep(i: nat, id: nat)
      requires Sound(View()) && i < |wheel[currentBucket]|
      modifies this
      ensures View() == Sweeping(old(View()), i, id)
    {
      timers := timers - {id};
      wheel := EraseAt(wheel, currentBucket, i);
    }

    /** One entry of the current bucket: it is collected, swept out or passed over. */
    method ScanEntry(now: int, i: nat, ghost w: Wheel, ghost k: nat) returns (next: nat, ghost k': nat)
      requires Scannable(w) && k <= |w.wheel[w.current]| && View() == Scanned(w, now, k)
      requires i < |wheel[currentBucket]|
      requires if k < |w.wheel[w.current]| then i == Position(w, now, k) else Position(w, now, k) <= i
      modifies this
      ensures k <= k' <= |w.wheel[w.current]| && View() == Scanned(w, now, k')
      ensures if k' < |w.wheel[w.current]| then next == Position(w, now, k') else Position(w, now, k') <= next
      ensures k < k' || (k' == k && wheel == old(wheel) && next == i + 1)
    {
      ghost var l := w.wheel[w.current];
      if k < |l| {
        Looking(w, now, k);
      } else {
        OnlyPutBack(w, now, i);
      }
      var id := wheel[currentBucket][i];
      var timer := table[id];
      next, k' := i, k + 1;
      if timer.expiration <= now && !timer.cancelled {
        if timer.interval > 0 {
          TurnRepeat(w, now, k);
          PutBack(now, i, id);
        } else {
          TurnOnce(w, now, k);
          Finish(i, id);
        }
      } else if timer.cancelled {
        TurnGone(w, now, k);
        Sweep(i, id);
      } else {
        if k < |l| {
          TurnStay(w, now, k);
        } else {
          k' := k;
        }
        next := i + 1;
      }
    }

    /**
     tick's locked part. The loop erases from the list it scans and may push onto its end; it still ends, because a
     timer that is put back is due only later.
     */
    method Tick(now: int)
      requires Scannable(View())
      modifies this
      ensures View() == TimerWheel.Tick(old(View()), now)
    {
      ghost var w := View();
      ghost var l, k := wheel[currentBucket], 0;
      StartScan(w, now);
      var i := 0;
      while i < |wheel[currentBucket]|
        invariant currentBucket == w.current && |wheel| == |w.wheel|
        invariant k <= |l| && View() == Scanned(w, now, k)
        invariant if k < |l| then i == Position(w, now, k) else Position(w, now, k) <= i
        decreases |l| - k, |wheel[currentBucket]| - i
      {
        i, k := ScanEntry(now, i, w, k);
      }
      ScanDone(w, now, k);
      currentBucket := Mod(currentBucket + 1, |wheel|);
    }

    /** One callback after the lock is released. */
    method RunExpired(i: nat)
      requires i < |expired| && expired[i] in table
      modifies this
      ensures View() == Call(old(View()), i)
    {
      var id := expired[i];
      expired := expired[..i] + expired[i + 1..];
      if !table[id].cancelled {
        ran := ran + [id];
      }
    }

    /** The loop over the collected timers. */
    method RunAllExpired()
      requires forall i | 0 <= i < |expired| :: expired[i] in table
      modifies this
      ensures View() == CallAll(old(View()))
    {
      ghost var w := View();
      while |expired| > 0
        invariant CallAll(View()) == CallAll(w)
        invariant forall i | 0 <= i < |expired| :: expired[i] in table
      {
        RunExpired(0);
      }
    }
  }

  lemma {:induction false} StartScan(w: Wheel, now: int)
    requires Sound(w)
    ensures Scanned(w, now, 0) == w && Position(w, now, 0) == 0
  {
    var s, l := Scanned(w, now, 0), w.wheel[w.current];
    assert l[..0] == [] && l[0..] == l;
    forall b | 0 <= b < |w.wheel| ensures s.wheel[b] == w.wheel[b] {
      assert [] + l + [] == l;
    }
    assert s.wheel == w.wheel;
    assert s.table == w.table;
    assert s.expired == w.expired;
  }

  /** The scan cannot end before all original entries were seen. */
  lemma {:induction false} ScanDone(w: Wheel, now: int, k: nat)
    requires Scannable(w) && k <= |w.wheel[w.current]|
    requires k < |w.wheel[w.current]| ==> Position(w, now, k) >= |Scanned(w, now, k).wheel[w.current]|
    ensures k == |w.wheel[w.current]|
  {
    if k < |w.wheel[w.current]| {
      Looking(w, now, k);
    }
  }
}
