/** Calls of a per-key rate limiter over whole histories, and the sliding window's bound. */
module RateLimiter {

  /** A call of allow; time is in milliseconds. */
  datatype Call = Call(key: nat, now: int)

  /** The clock is steady: time does not go back. */
  predicate Ordered(calls: seq<Call>) {
    forall i, j | 0 <= i <= j < |calls| :: calls[i].now <= calls[j].now
  }

  lemma {:induction false} OrderedPrefix(calls: seq<Call>, n: nat)
    requires Ordered(calls) && n <= |calls|
    ensures Ordered(calls[..n])
  {
  }

  // ------------------------------------------------------------------ sliding window

  /** Dropping from the front while out of the window. */
  function Pop(window: seq<int>, cutoff: int): (r: seq<int>) {
    if window != [] && window[0] <= cutoff then Pop(window[1..], cutoff) else window
  }

  type Windows = map<nat, seq<int>>

  function WindowOf(w: Windows, key: nat): (r: seq<int>) {
    if key in w then w[key] else []
  }

  /** allow: whether the call is let through. */
  predicate Admits(w: Windows, max: int, windowMs: int, c: Call) {
    |Pop(WindowOf(w, c.key), c.now - windowMs)| < max
  }

  /** allow: the new windows. */
  function Slide(w: Windows, max: int, windowMs: int, c: Call): (r: Windows) {
    var kept := Pop(WindowOf(w, c.key), c.now - windowMs);
    w[c.key := if Admits(w, max, windowMs, c) then kept + [c.now] else kept]
  }

  function SlideAll(max: int, windowMs: int, calls: seq<Call>): (r: Windows) {
    if calls == [] then map[]
    else Slide(SlideAll(max, windowMs, calls[..|calls| - 1]), max, windowMs, calls[|calls| - 1])
  }

  /** The times at which calls of the key were let through. */
  function Passed(max: int, windowMs: int, calls: seq<Call>, key: nat): (r: seq<int>) {
    if calls == [] then []
    else
      var init, c := calls[..|calls| - 1], calls[|calls| - 1];
      Passed(max, windowMs, init, key) +
      if c.key == key && Admits(SlideAll(max, windowMs, init), max, windowMs, c) then [c.now] else []
  }

  /** How many of the times lie in (from, to]. */
  function CountIn(times: seq<int>, from: int, to: int): (r: nat) {
    if times == [] then 0
    else CountIn(times[..|times| - 1], from, to) + if from < times[|times| - 1] <= to then 1 else 0
  }

  predicate Sorted(times: seq<int>) {
    forall i, j | 0 <= i <= j < |times| :: times[i] <= times[j]
  }

  /** Any max + 1 consecutive passes take at least the window's length. */
  ghost predicate Spaced(times: seq<int>, max: int, windowMs: int) {
    && (max <= 0 ==> times == [])
    && forall i, j | 0 <= i <= j < |times| && j == i + max :: times[j] - times[i] >= windowMs
  }

  lemma {:induction false} PopIs(window: seq<int>, cutoff: int) returns (k: nat)
    ensures k <= |window| && Pop(window, cutoff) == window[k..]
    ensures forall i | 0 <= i < k :: window[i] <= cutoff
    ensures k < |window| ==> window[k] > cutoff
    decreases |window|
  {
    if window != [] && window[0] <= cutoff {
      var j := PopIs(window[1..], cutoff);
      k := j + 1;
      assert window[1..][j..] == window[k..];
      assert forall i | 0 < i < k :: window[i] == window[1..][i - 1];
    } else {
      k := 0;
    }
  }

  /** The deque is the tail of the passed times, cut at k; what was cut is out of the window of the last call. */
  ghost predicate Tail(times: seq<int>, window: seq<int>, cutoff: int) {
    && |window| <= |times| && window == times[|times| - |window|..]
    && forall i | 0 <= i < |times| - |window| :: times[i] <= cutoff
  }

  predicate NoLater(times: seq<int>, now: int) {
    forall i | 0 <= i < |times| :: times[i] <= now
  }

  /** Popping at a later cutoff keeps the tail. */
  lemma {:induction false} TailPop(times: seq<int>, window: seq<int>, earlier: int, cutoff: int)
    requires Tail(times, window, earlier) && earlier <= cutoff
    ensures Tail(times, Pop(window, cutoff), cutoff)
  {
    var k := PopIs(window, cutoff);
    var d := |times| - |window|;
    assert Pop(window, cutoff) == times[d + k..];
    assert forall i | d <= i < d + k :: times[i] == window[i - d];
  }

  lemma {:induction false} TailPush(times: seq<int>, window: seq<int>, cutoff: int, now: int)
    requires Tail(times, window, cutoff)
    ensures Tail(times + [now], window + [now], cutoff)
  {
    assert (times + [now])[|times| - |window|..] == window + [now];
  }

  /** A pass with fewer than max in the window keeps the spacing. */
  lemma {:induction false} SpacedPush(times: seq<int>, window: seq<int>, max: int, windowMs: int, now: int)
    requires Tail(times, window, now - windowMs) && Spaced(times, max, windowMs) && |window| < max
    ensures Spaced(times + [now], max, windowMs)
  {
    var r := times + [now];
    forall i, j | 0 <= i <= j < |r| && j == i + max ensures r[j] - r[i] >= windowMs {
      if j == |times| {
        assert i < |times| - |window|;
      }
    }
  }

  /** What holds of one key after a history. */
  ghost predicate Kept(times: seq<int>, window: seq<int>, max: int, windowMs: int, now: int) {
    Tail(times, window, now - windowMs) && Spaced(times, max, windowMs) && Sorted(times) && NoLater(times, now)
  }

  lemma {:induction false} CallKeeps(times: seq<int>, window: seq<int>, max: int, windowMs: int, earlier: int, now: int)
    requires Kept(times, window, max, windowMs, earlier) && earlier <= now
    ensures var kept := Pop(window, now - windowMs);
            && Kept(times, kept, max, windowMs, now)
            && (|kept| < max ==> Kept(times + [now], kept + [now], max, windowMs, now))
  {
    TailPop(times, window, earlier - windowMs, now - windowMs);
    var kept := Pop(window, now - windowMs);
    if |kept| < max {
      SpacedPush(times, kept, max, windowMs, now);
      TailPush(times, kept, now - windowMs, now);
    }
  }

  /** The time of the key's last call, if it has one. */
  function LastCall(calls: seq<Call>, key: nat): (r: int) {
    if calls == [] then 0
    else if calls[|calls| - 1].key == key then calls[|calls| - 1].now
    else LastCall(calls[..|calls| - 1], key)
  }

  predicate Called(calls: seq<Call>, key: nat) {
    calls != [] && (calls[|calls| - 1].key == key || Called(calls[..|calls| - 1], key))
  }

  lemma {:induction false} LastCallNoLater(calls: seq<Call>, key: nat, now: int)
    requires Called(calls, key) && forall i | 0 <= i < |calls| :: calls[i].now <= now
    ensures LastCall(calls, key) <= now
    decreases |calls|
  {
    if calls[|calls| - 1].key != key {
      LastCallNoLater(calls[..|calls| - 1], key, now);
    }
  }

  lemma {:induction false} UncalledEmpty(max: int, windowMs: int, calls: seq<Call>, key: nat)
    requires !Called(calls, key)
    ensures Passed(max, windowMs, calls, key) == [] && key !in SlideAll(max, windowMs, calls)
    decreases |calls|
  {
    if calls != [] {
      UncalledEmpty(max, windowMs, calls[..|calls| - 1], key);
    }
  }

  /** What one more call does to the passed times and the deque of a key. */
  lemma {:induction false} AfterCall(max: int, windowMs: int, calls: seq<Call>, key: nat, times: seq<int>,
                                     window: seq<int>)
    requires calls != []
    requires times == Passed(max, windowMs, calls[..|calls| - 1], key)
    requires window == WindowOf(SlideAll(max, windowMs, calls[..|calls| - 1]), key)
    ensures var c := calls[|calls| - 1];
            var kept := Pop(window, c.now - windowMs);
            var (times', window') := (Passed(max, windowMs, calls, key), WindowOf(SlideAll(max, windowMs, calls), key));
            if c.key != key then times' == times && window' == window
            else if |kept| < max then times' == times + [c.now] && window' == kept + [c.now]
            else times' == times && window' == kept
  {
    assert times + [] == times;
  }

  /** One key's state kept through one call of the key. */
  lemma {:induction false} OwnCallKeeps(max: int, windowMs: int, calls: seq<Call>, key: nat, times: seq<int>,
                                        window: seq<int>, earlier: int)
    requires calls != [] && calls[|calls| - 1].key == key && earlier <= calls[|calls| - 1].now
    requires times == Passed(max, windowMs, calls[..|calls| - 1], key)
    requires window == WindowOf(SlideAll(max, windowMs, calls[..|calls| - 1]), key)
    requires Kept(times, window, max, windowMs, earlier)
    ensures Kept(Passed(max, windowMs, calls, key), WindowOf(SlideAll(max, windowMs, calls), key), max, windowMs,
                 calls[|calls| - 1].now)
  {
    AfterCall(max, windowMs, calls, key, times, window);
    CallKeeps(times, window, max, windowMs, earlier, calls[|calls| - 1].now);
  }

  lemma {:induction false} HistoryKeeps(max: int, windowMs: int, calls: seq<Call>, key: nat)
    requires Ordered(calls) && Called(calls, key)
    ensures Kept(Passed(max, windowMs, calls, key), WindowOf(SlideAll(max, windowMs, calls), key), max, windowMs,
                 LastCall(calls, key))
    decreases |calls|
  {
    var init, c := calls[..|calls| - 1], calls[|calls| - 1];
    var times, window := Passed(max, windowMs, init, key), WindowOf(SlideAll(max, windowMs, init), key);
    OrderedPrefix(calls, |init|);
    if c.key != key {
      AfterCall(max, windowMs, calls, key, times, window);
      HistoryKeeps(max, windowMs, init, key);
    } else if Called(init, key) {
      HistoryKeeps(max, windowMs, init, key);
      LastCallNoLater(init, key, c.now);
      OwnCallKeeps(max, windowMs, calls, key, times, window, LastCall(init, key));
    } else {
      UncalledEmpty(max, windowMs, init, key);
      OwnCallKeeps(max, windowMs, calls, key, times, window, c.now);
    }
  }

  // ------------------------------------------------------------------ the sliding window's bound

  /** Passed times that are spaced put at most max of themselves into any window. */
  lemma {:induction false} SpacedCount(times: seq<int>, max: int, windowMs: int, to: int)
    requires Sorted(times) && Spaced(times, max, windowMs)
    ensures CountIn(times, to - windowMs, to) <= if max < 0 then 0 else max
    decreases |times|
  {
    if times != [] {
      var init, last := times[..|times| - 1], times[|times| - 1];
      assert Spaced(init, max, windowMs);
      if to - windowMs < last <= to {
        forall i | 0 <= i < |times| - max ensures times[i] <= to - windowMs {
          assert times[i + max] - times[i] >= windowMs;
        }
        CountSuffix(times, max, to - windowMs, to);
      } else {
        SpacedCount(init, max, windowMs, to);
      }
    }
  }

  /** If everything max or more places from the end is at or before from, at most max times are after it. */
  lemma {:induction false} CountSuffix(times: seq<int>, n: int, from: int, to: int)
    requires n >= 0 && forall i | 0 <= i < |times| - n :: times[i] <= from
    ensures CountIn(times, from, to) <= n
    decreases |times|
  {
    if times != [] {
      CountSuffix(times[..|times| - 1], if n == 0 then 0 else n - 1, from, to);
    }
  }

  /** No window of the configured length, wherever it lies, holds more than max passes of a key. */
  lemma {:induction false} WindowBound(max: int, windowMs: int, calls: seq<Call>, key: nat, to: int)
    requires Ordered(calls)
    ensures CountIn(Passed(max, windowMs, calls, key), to - windowMs, to) <= if max < 0 then 0 else max
  {
    if Called(calls, key) {
      HistoryKeeps(max, windowMs, calls, key);
      SpacedCount(Passed(max, windowMs, calls, key), max, windowMs, to);
    } else {
      UncalledEmpty(max, windowMs, calls, key);
    }
  }

  lemma {:induction false} CountTail(times: seq<int>, k: nat, from: int, to: int)
    requires k <= |times| && forall i | 0 <= i < k :: times[i] <= from
    requires forall i | k <= i < |times| :: from < times[i] <= to
    ensures CountIn(times, from, to) == |times| - k
    decreases |times|
  {
    if |times| > k {
      CountTail(times[..|times| - 1], k, from, to);
    } else if times != [] {
      CountTail(times[..|times| - 1], k - 1, from, to);
    }
  }

  /**
   A call passes exactly when fewer than max calls of its key passed in (now - window, now], so none is refused early.
   */
  lemma {:induction false} AdmitsIff(max: int, windowMs: int, calls: seq<Call>, c: Call)
    requires Ordered(calls + [c])
    ensures Admits(SlideAll(max, windowMs, calls), max, windowMs, c) <==>
            CountIn(Passed(max, windowMs, calls, c.key), c.now - windowMs, c.now) < max
  {
    var times, window := Passed(max, windowMs, calls, c.key), WindowOf(SlideAll(max, windowMs, calls), c.key);
    if Called(calls, c.key) {
      BeforeCall(calls, c);
      HistoryKeeps(max, windowMs, calls, c.key);
      LastCallNoLater(calls, c.key, c.now);
      KeptCount(times, window, max, windowMs, LastCall(calls, c.key), c.now);
    } else {
      UncalledEmpty(max, windowMs, calls, c.key);
    }
  }

  lemma {:induction false} BeforeCall(calls: seq<Call>, c: Call)
    requires Ordered(calls + [c])
    ensures Ordered(calls) && forall i | 0 <= i < |calls| :: calls[i].now <= c.now
  {
    assert calls == (calls + [c])[..|calls|];
    OrderedPrefix(calls + [c], |calls|);
    forall i | 0 <= i < |calls| ensures calls[i].now <= c.now {
      assert (calls + [c])[i] == calls[i] && (calls + [c])[|calls|] == c;
    }
  }

  /** What is left of the deque counts the passes in the window. */
  lemma {:induction false} KeptCount(times: seq<int>, window: seq<int>, max: int, windowMs: int, earlier: int, now: int)
    requires Kept(times, window, max, windowMs, earlier) && earlier <= now
    ensures CountIn(times, now - windowMs, now) == |Pop(window, now - windowMs)|
  {
    var kept := Pop(window, now - windowMs);
    TailPop(times, window, earlier - windowMs, now - windowMs);
    PoppedAfter(window, now - windowMs);
    TailCount(times, kept, now - windowMs, now);
  }

  lemma {:induction false} PoppedAfter(window: seq<int>, cutoff: int)
    ensures Pop(window, cutoff) != [] ==> Pop(window, cutoff)[0] > cutoff
  {
    var k := PopIs(window, cutoff);
  }

  lemma {:induction false} TailCount(times: seq<int>, kept: seq<int>, cutoff: int, now: int)
    requires Sorted(times) && NoLater(times, now) && Tail(times, kept, cutoff) && (kept != [] ==> kept[0] > cutoff)
    ensures CountIn(times, cutoff, now) == |kept|
  {
    KeptAfter(times, kept, cutoff);
    CountTail(times, |times| - |kept|, cutoff, now);
  }

  lemma {:induction false} KeptAfter(times: seq<int>, kept: seq<int>, cutoff: int)
    requires Sorted(times) && |kept| <= |times|
    requires kept == times[|times| - |kept|..] && (kept != [] ==> kept[0] > cutoff)
    ensures forall i | |times| - |kept| <= i < |times| :: times[i] > cutoff
  {
    assert kept != [] ==> times[|times| - |kept|] == kept[0];
  }

  // ------------------------------------------------------------------ what the deque is

  /** The times in (from, to], in order. */
  function InWindow(times: seq<int>, from: int, to: int): (r: seq<int>) {
    if times == [] then []
    else
      var init, last := times[..|times| - 1], times[|times| - 1];
      InWindow(init, from, to) + if from < last <= to then [last] else []
  }

  lemma {:induction false} InWindowTail(times: seq<int>, k: nat, from: int, to: int)
    requires k <= |times| && forall i | 0 <= i < k :: times[i] <= from
    requires forall i | k <= i < |times| :: from < times[i] <= to
    ensures InWindow(times, from, to) == times[k..]
    decreases |times|
  {
    if |times| > k {
      InWindowTail(times[..|times| - 1], k, from, to);
      assert times[k..] == times[..|times| - 1][k..] + [times[|times| - 1]];
    } else if times != [] {
      InWindowTail(times[..|times| - 1], k - 1, from, to);
    }
  }

  /** With a positive length, what is kept and what is added lie inside the window. */
  lemma {:induction false} TailIsWindow(times: seq<int>, window: seq<int>, windowMs: int, now: int)
    requires Sorted(times) && NoLater(times, now) && Tail(times, window, now - windowMs)
    requires window != [] ==> window[0] > now - windowMs
    ensures window == InWindow(times, now - windowMs, now)
  {
    KeptAfter(times, window, now - windowMs);
    InWindowTail(times, |times| - |window|, now - windowMs, now);
  }

  lemma {:induction false} InWindowEmpty(times: seq<int>, from: int, to: int)
    requires from >= to
    ensures InWindow(times, from, to) == []
    decreases |times|
  {
    if times != [] {
      InWindowEmpty(times[..|times| - 1], from, to);
    }
  }

  lemma {:induction false} KeptIsWindow(times: seq<int>, window: seq<int>, max: int, windowMs: int, earlier: int,
                                        now: int)
    requires Kept(times, window, max, windowMs, earlier) && earlier <= now
    ensures Pop(window, now - windowMs) == InWindow(times, now - windowMs, now)
  {
    TailPop(times, window, earlier - windowMs, now - windowMs);
    PoppedAfter(window, now - windowMs);
    TailIsWindow(times, Pop(window, now - windowMs), windowMs, now);
  }

  lemma {:induction false} InWindowSnoc(times: seq<int>, from: int, now: int)
    ensures InWindow(times + [now], from, now) == InWindow(times, from, now) + if from < now then [now] else []
  {
    assert (times + [now])[..|times|] == times;
  }

  /** One call of the key: its deque is the window if and only if the window has a length or the call does not pass. */
  lemma {:induction false} CallWindowIff(times: seq<int>, window: seq<int>, max: int, windowMs: int, earlier: int,
                                         now: int)
    requires Kept(times, window, max, windowMs, earlier) && earlier <= now
    ensures var kept := Pop(window, now - windowMs);
            && kept == InWindow(times, now - windowMs, now)
            && (kept + [now] == InWindow(times + [now], now - windowMs, now) <==> windowMs > 0)
            && (windowMs <= 0 ==> kept == [])
  {
    KeptIsWindow(times, window, max, windowMs, earlier, now);
    InWindowSnoc(times, now - windowMs, now);
    if windowMs <= 0 {
      InWindowEmpty(times, now - windowMs, now);
    }
  }

  /** The deque holds exactly the passed times in (now - window, now]. */
  predicate IsWindow(window: seq<int>, times: seq<int>, windowMs: int, now: int) {
    window == InWindow(times, now - windowMs, now)
  }

  lemma {:induction false} OwnCallWindow(max: int, windowMs: int, calls: seq<Call>, key: nat, times: seq<int>,
                                         window: seq<int>, earlier: int)
    requires calls != [] && calls[|calls| - 1].key == key && earlier <= calls[|calls| - 1].now
    requires times == Passed(max, windowMs, calls[..|calls| - 1], key)
    requires window == WindowOf(SlideAll(max, windowMs, calls[..|calls| - 1]), key)
    requires Kept(times, window, max, windowMs, earlier)
    ensures var (window', times') := (WindowOf(SlideAll(max, windowMs, calls), key), Passed(max, windowMs, calls, key));
            IsWindow(window', times', windowMs, calls[|calls| - 1].now) <==> windowMs > 0 || max <= 0
  {
    AfterCall(max, windowMs, calls, key, times, window);
    CallWindowIff(times, window, max, windowMs, earlier, calls[|calls| - 1].now);
  }

  /**
   After every history: a key's deque is exactly the passed times in (now - window, now], now being its last call, if
   and only if the window has a length or nothing ever passes.
   */
  lemma {:induction false} DequeIsWindowIff(max: int, windowMs: int, calls: seq<Call>, key: nat)
    requires Ordered(calls) && Called(calls, key)
    ensures var (window', times') := (WindowOf(SlideAll(max, windowMs, calls), key), Passed(max, windowMs, calls, key));
            IsWindow(window', times', windowMs, LastCall(calls, key)) <==> windowMs > 0 || max <= 0
    decreases |calls|
  {
    var init, c := calls[..|calls| - 1], calls[|calls| - 1];
    var times, window := Passed(max, windowMs, init, key), WindowOf(SlideAll(max, windowMs, init), key);
    OrderedPrefix(calls, |init|);
    if c.key != key {
      AfterCall(max, windowMs, calls, key, times, window);
      DequeIsWindowIff(max, windowMs, init, key);
    } else if Called(init, key) {
      HistoryKeeps(max, windowMs, init, key);
      LastCallNoLater(init, key, c.now);
      OwnCallWindow(max, windowMs, calls, key, times, window, LastCall(init, key));
    } else {
      UncalledEmpty(max, windowMs, init, key);
      OwnCallWindow(max, windowMs, calls, key, times, window, c.now);
    }
  }

  class SlidingWindowLimiter {
    const maxRequests: int
    const windowMs: int
    var windows: Windows

    constructor (maxRequests: int, windowSec: int)
      ensures this.maxRequests == maxRequests && this.windowMs == windowSec * 1000 && windows == map[]
    {
      this.maxRequests, this.windowMs, windows := maxRequests, windowSec * 1000, map[];
    }

    method Allow(key: nat, now: int) returns (ok: bool)
      modifies this
      ensures windows == Slide(old(windows), maxRequests, windowMs, Call(key, now))
      ensures ok == Admits(old(windows), maxRequests, windowMs, Call(key, now))
    {
      var window := WindowOf(windows, key);
      var cutoff := now - windowMs;
      while window != [] && window[0] <= cutoff
        invariant Pop(window, cutoff) == Pop(WindowOf(old(windows), key), cutoff)
        decreases |window|
      {
        window := window[1..];
      }
      ok := |window| < maxRequests;
      if ok {
        window := window + [now];
      }
      windows := windows[key := window];
    }
  }
}
