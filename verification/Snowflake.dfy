/** Snowflake ids: increasing for one worker under any clock, disjoint between workers, and unpackable. */
module Snowflake {
  import opened Bytes

  /** 2025-01-01 00:00:00 UTC, in milliseconds. */
  const EPOCH: int := 1735689600000
  const MAX_WORKER: int := 1023
  const MAX_SEQUENCE: int := 4095
  const MAX_ROLLBACK: int := 5
  const TWO_41: int := 0x200_0000_0000
  const TWO_42: int := 0x400_0000_0000
  const TWO_63: int := 0x8000_0000_0000_0000

  // ------------------------------------------------------------------ bits

  function Pow2(k: nat): (r: nat)
    ensures r > 0
  {
    if k == 0 then 1 else 2 * Pow2(k - 1)
  }

  /** Bitwise or. */
  function Or(a: nat, b: nat): (r: nat) {
    if a == 0 && b == 0 then 0 else 2 * Or(a / 2, b / 2) + (if a % 2 == 1 || b % 2 == 1 then 1 else 0)
  }

  /** Bitwise and. */
  function And(a: nat, b: nat): (r: nat) {
    if a == 0 || b == 0 then 0 else 2 * And(a / 2, b / 2) + (if a % 2 == 1 && b % 2 == 1 then 1 else 0)
  }

  lemma {:induction false} OrZero(a: nat)
    ensures Or(a, 0) == a
  {
    if a > 0 {
      OrZero(a / 2);
    }
  }

  /** Or-ing bits below a shifted number adds them. */
  lemma {:induction false} OrAdds(hi: nat, low: nat, k: nat)
    requires low < Pow2(k)
    ensures Or(hi * Pow2(k), low) == hi * Pow2(k) + low
    decreases k
  {
    if k == 0 {
      OrZero(hi);
    } else {
      var x := hi * Pow2(k - 1);
      assert hi * Pow2(k) == 2 * x;
      OrAdds(hi, low / 2, k - 1);
      OrStep(x, low);
    }
  }

  lemma {:induction false} OrStep(x: nat, low: nat)
    ensures Or(2 * x, low) == 2 * Or(x, low / 2) + low % 2
  {
    assert (2 * x) / 2 == x && (2 * x) % 2 == 0;
  }

  /** And-ing with k one bits keeps the remainder. */
  lemma {:induction false} AndKeeps(a: nat, k: nat, n: nat)
    requires n == Pow2(k)
    ensures And(a, n - 1) == a % n
    decreases k
  {
    if k == 0 || a == 0 {
      ModUnique(a, n, if k == 0 then a else 0, 0);
    } else {
      var m := Pow2(k - 1);
      AndKeeps(a / 2, k - 1, m);
      AndStep(a, m);
      HalfRemainder(a, m);
    }
  }

  lemma {:induction false} AndStep(a: nat, m: nat)
    requires m > 0
    ensures And(a, 2 * m - 1) == 2 * And(a / 2, m - 1) + a % 2
  {
    assert (2 * m - 1) / 2 == m - 1 && (2 * m - 1) % 2 == 1;
  }

  lemma {:induction false} HalfRemainder(a: nat, m: nat)
    requires m > 0
    ensures a % (2 * m) == 2 * (a / 2 % m) + a % 2
  {
    var h := a / 2;
    var q, r := h / m, h % m;
    assert h == m * q + r;
    assert a == (2 * m) * q + (2 * r + a % 2) by {
      assert 2 * (m * q) == (2 * m) * q;
    }
    ModUnique(a, 2 * m, q, 2 * r + a % 2);
  }

  lemma {:induction false} Powers()
    ensures Pow2(10) == 1024 && Pow2(12) == 4096 && Pow2(22) == 4194304
  {
    assert Pow2(4) == 16 && Pow2(8) == 256 && Pow2(12) == 4096 && Pow2(16) == 65536 && Pow2(20) == 1048576;
  }

  // ------------------------------------------------------------------ packing

  /** The sum of the fields at their places, before it is cut to 64 bits. */
  function Pack(now: int, worker: int, sequence: int): (id: int) {
    (now - EPOCH) * 4194304 + worker * 4096 + sequence
  }

  /** A left shift of a 64-bit number, by the power of two. */
  function Shifted(x: int, power: nat): (r: nat) {
    (x * power) % TWO_64
  }

  /** The 64 bits nextId puts together, as it shifts and ors them. */
  function Word(now: int, worker: nat, sequence: nat): (r: nat) {
    Or(Or(Shifted(now - EPOCH, 4194304), Shifted(worker, 4096)), sequence)
  }

  /** Reading 64 bits as a signed number. */
  function Signed(x: int): (r: int)
    ensures -TWO_63 <= r < TWO_63
  {
    var m := x % TWO_64;
    if m < TWO_63 then m else m - TWO_64
  }

  /** Masking a signed 64-bit number. */
  function Masked(x: int, mask: nat): (r: nat) {
    And(x % TWO_64, mask)
  }

  function ExtractTimestamp(id: int): (r: int) { id / 4194304 + EPOCH }

  function ExtractWorkerId(id: int): (r: int) { Masked(id / 4096, 1023) }

  function ExtractSequence(id: int): (r: int) { Masked(id, 4095) }

  predicate Fields(worker: int, sequence: int) {
    0 <= worker <= MAX_WORKER && 0 <= sequence <= MAX_SEQUENCE
  }

  /** The timestamp 42 bits, sign included, can carry. */
  function Wrapped(t: int): (r: int) {
    var m := t % TWO_42;
    if m < TWO_41 then m else m - TWO_42
  }

  lemma {:induction false} CutPack(now: int, worker: int, sequence: int)
    requires Fields(worker, sequence)
    ensures Pack(now, worker, sequence) % TWO_64 == (now - EPOCH) % TWO_42 * 4194304 + worker * 4096 + sequence
  {
    var t := now - EPOCH;
    var q, m := t / TWO_42, t % TWO_42;
    var low := m * 4194304 + worker * 4096 + sequence;
    assert t == TWO_42 * q + m;
    ModUnique(Pack(now, worker, sequence), TWO_64, q, low);
  }

  /** The id as nextId returns it: the fields at their places, the timestamp wrapped. */
  lemma {:induction false} SignedPack(now: int, worker: int, sequence: int)
    requires Fields(worker, sequence)
    ensures Signed(Pack(now, worker, sequence)) == Wrapped(now - EPOCH) * 4194304 + worker * 4096 + sequence
  {
    CutPack(now, worker, sequence);
  }

  lemma {:induction false} ShiftedTime(t: int)
    ensures Shifted(t, 4194304) == t % TWO_42 * 4194304
  {
    var q, m := t / TWO_42, t % TWO_42;
    assert t == TWO_42 * q + m;
    ModUnique(t * 4194304, TWO_64, q, m * 4194304);
  }

  lemma {:induction false} OrAddsAt(hi: nat, low: nat, k: nat, power: nat)
    requires power == Pow2(k) && low < power
    ensures Or(hi * power, low) == hi * power + low
  {
    OrAdds(hi, low, k);
  }

  lemma {:induction false} OrFields(m: nat, w: nat, mid: nat, sequence: nat)
    requires w <= MAX_WORKER && sequence <= MAX_SEQUENCE && mid == m * 4194304 + w * 4096
    ensures Or(m * 4194304, w * 4096) == mid && Or(mid, sequence) == mid + sequence
  {
    Powers();
    OrAddsAt(m, w * 4096, 22, 4194304);
    assert mid == (m * 1024 + w) * 4096;
    OrAddsAt(m * 1024 + w, sequence, 12, 4096);
  }

  /** Shifting and or-ing gives the bits of the sum, for every reading. */
  lemma {:induction false} WordIsPack(now: int, worker: int, sequence: int)
    requires Fields(worker, sequence)
    ensures Word(now, worker, sequence) == Pack(now, worker, sequence) % TWO_64
    ensures Signed(Word(now, worker, sequence)) == Signed(Pack(now, worker, sequence))
  {
    WordIs(now, worker, sequence, (now - EPOCH) % TWO_42);
    CutPack(now, worker, sequence);
    SignedCut(Pack(now, worker, sequence));
  }

  lemma {:induction false} WordIs(now: int, worker: nat, sequence: nat, m: nat)
    requires worker <= MAX_WORKER && sequence <= MAX_SEQUENCE && m == (now - EPOCH) % TWO_42
    ensures Word(now, worker, sequence) == m * 4194304 + worker * 4096 + sequence
  {
    ShiftedTime(now - EPOCH);
    ModUnique(worker * 4096, TWO_64, 0, worker * 4096);
    OrFields(m, worker, m * 4194304 + worker * 4096, sequence);
  }

  lemma {:induction false} SignedCut(x: int)
    ensures Signed(x % TWO_64) == Signed(x)
  {
    ModUnique(x % TWO_64, TWO_64, 0, x % TWO_64);
  }

  lemma {:induction false} MaskedIs(x: int, k: nat, n: nat)
    requires n == Pow2(k) && (n == 1024 || n == 4096)
    ensures Masked(x, n - 1) == x % n
  {
    var q, y := x / TWO_64, x % TWO_64;
    AndKeeps(y, k, n);
    CutRemainder(x, n, q, y);
  }

  lemma {:induction false} CutRemainder(x: int, n: nat, q: int, y: nat)
    requires (n == 1024 || n == 4096) && x == TWO_64 * q + y
    ensures x % n == y % n
  {
    if n == 1024 {
      ModUnique(x, 1024, 0x40_0000_0000_0000 * q + y / 1024, y % 1024);
    } else {
      ModUnique(x, 4096, 0x10_0000_0000_0000 * q + y / 4096, y % 4096);
    }
  }

  /** From every id nextId returns, worker and sequence come back; the timestamp does if and only if it fits 42 bits. */
  lemma {:induction false} ExtractInverts(now: int, worker: int, sequence: int)
    requires Fields(worker, sequence)
    ensures var id := Signed(Pack(now, worker, sequence));
            && ExtractWorkerId(id) == worker && ExtractSequence(id) == sequence
            && (ExtractTimestamp(id) == now <==> -TWO_41 <= now - EPOCH < TWO_41)
  {
    SignedPack(now, worker, sequence);
    ExtractFields(Signed(Pack(now, worker, sequence)), Wrapped(now - EPOCH), worker, sequence);
    WrappedIs(now - EPOCH);
  }

  lemma {:induction false} ExtractFields(id: int, t: int, worker: int, sequence: int)
    requires Fields(worker, sequence) && id == t * 4194304 + worker * 4096 + sequence
    ensures ExtractWorkerId(id) == worker && ExtractSequence(id) == sequence && ExtractTimestamp(id) == t + EPOCH
  {
    ModUnique(id, 4194304, t, worker * 4096 + sequence);
    ModUnique(id, 4096, t * 1024 + worker, sequence);
    ModUnique(t * 1024 + worker, 1024, t, worker);
    Powers();
    MaskedIs(id, 12, 4096);
    MaskedIs(id / 4096, 10, 1024);
  }

  lemma {:induction false} WrappedIs(t: int)
    ensures Wrapped(t) == t <==> -TWO_41 <= t < TWO_41
  {
    if 0 <= t < TWO_42 {
      ModUnique(t, TWO_42, 0, t);
    } else if -TWO_42 <= t < 0 {
      ModUnique(t, TWO_42, -1, t + TWO_42);
    }
  }

  /** The reading lies in an even stretch of 2^41 milliseconds, counted from the epoch. */
  predicate EvenStretch(now: int) {
    (now - EPOCH) / TWO_41 % 2 == 0
  }

  lemma {:induction false} EvenStretchIs(now: int)
    ensures EvenStretch(now) <==> (now - EPOCH) % TWO_42 < TWO_41
  {
    var t := now - EPOCH;
    var q, m := t / TWO_42, t % TWO_42;
    assert t == TWO_42 * q + m;
    if m < TWO_41 {
      ModUnique(t, TWO_41, 2 * q, m);
    } else {
      ModUnique(t, TWO_41, 2 * q + 1, m - TWO_41);
    }
  }

  /**
   For every reading: the returned id is not negative if and only if the reading lies in an even stretch, and is
   positive if and only if besides the reading, the worker and the sequence are not all at zero.
   */
  lemma {:induction false} ReturnedIdIff(now: int, worker: int, sequence: int)
    requires Fields(worker, sequence)
    ensures var id := Signed(Pack(now, worker, sequence));
            && (id >= 0 <==> EvenStretch(now))
            && (id > 0 <==> EvenStretch(now) && !((now - EPOCH) % TWO_42 == 0 && worker == 0 && sequence == 0))
  {
    SignedPack(now, worker, sequence);
    EvenStretchIs(now);
  }

  /**
   Two ids coincide if and only if worker and sequence do and the readings are a multiple of 2^42 milliseconds apart.
   */
  lemma {:induction false} SameIdIff(a: int, w: int, s: int, b: int, v: int, q: int)
    requires Fields(w, s) && Fields(v, q)
    ensures Signed(Pack(a, w, s)) == Signed(Pack(b, v, q)) <==>
            w == v && s == q && (a - EPOCH) % TWO_42 == (b - EPOCH) % TWO_42
  {
    SignedPack(a, w, s);
    SignedPack(b, v, q);
    var t, u := Wrapped(a - EPOCH), Wrapped(b - EPOCH);
    SameFields(t * 4194304 + w * 4096 + s, t, w, s, u * 4194304 + v * 4096 + q, u, v, q);
    WrappedIff(a - EPOCH, b - EPOCH);
  }

  lemma {:induction false} SameFields(x: int, t: int, w: int, s: int, y: int, u: int, v: int, q: int)
    requires Fields(w, s) && Fields(v, q) && x == t * 4194304 + w * 4096 + s && y == u * 4194304 + v * 4096 + q
    ensures x == y <==> t == u && w == v && s == q
  {
    ExtractFields(x, t, w, s);
    ExtractFields(y, u, v, q);
  }

  lemma {:induction false} WrappedIff(t: int, u: int)
    ensures Wrapped(t) == Wrapped(u) <==> t % TWO_42 == u % TWO_42
  {
  }

  /** Less than 2^41 milliseconds from the epoch the cut to 64 bits changes nothing. */
  lemma {:induction false} UncutNear(now: int, worker: int, sequence: int)
    requires Fields(worker, sequence) && -TWO_41 <= now - EPOCH < TWO_41
    ensures Signed(Pack(now, worker, sequence)) == Pack(now, worker, sequence)
    ensures Signed(Pack(now, worker, sequence)) >= 0 <==> now >= EPOCH
  {
    SignedPack(now, worker, sequence);
  }

  // ------------------------------------------------------------------ one call

  /** stuck: a call is spinning with the lock held, so no later call gets in. */
  datatype Generator = Generator(initialized: bool, worker: int, last: int, sequence: int, stuck: bool)

  datatype Outcome = NotInitialized | Rollback | Spinning | Id(id: int)

  const NEW: Generator := Generator(false, 0, -1, 0, false)

  datatype Settled = Waiting | Refused | At(now: int, used: nat)

  /** Reading the clock, waiting out a small rollback; readings are what the clock shows, one per look. */
  function Settle(last: int, readings: seq<int>): (r: Settled) {
    if readings == [] then Waiting
    else if readings[0] >= last then At(readings[0], 1)
    else if last - readings[0] > MAX_ROLLBACK then Refused
    else if |readings| < 2 then Waiting
    else At(if readings[1] < last then last else readings[1], 2)
  }

  /** The first reading from position i on that is past last. */
  function Spin(last: int, readings: seq<int>, i: nat): (r: Option<int>)
    ensures r.Some? ==> r.value > last && r.value in readings
    decreases |readings| - i
  {
    if i >= |readings| then None
    else if readings[i] > last then Some(readings[i])
    else Spin(last, readings, i + 1)
  }

  function Issue(g: Generator, now: int, sequence: int): (r: (Generator, Outcome)) {
    (g.(last := now, sequence := sequence), Id(Signed(Pack(now, g.worker, sequence))))
  }

  /** nextId. */
  function NextId(g: Generator, readings: seq<int>): (r: (Generator, Outcome)) {
    if !g.initialized then (g, NotInitialized)
    else if g.stuck then (g, Spinning)
    else match Settle(g.last, readings)
      case Waiting => (g.(stuck := true), Spinning)
      case Refused => (g, Rollback)
      case At(now, used) =>
        if now != g.last then Issue(g, now, 0)
        else if g.sequence < MAX_SEQUENCE then Issue(g, now, g.sequence + 1)
        else match Spin(g.last, readings, used)
          case None => (g.(stuck := true), Spinning)
          case Some(later) => Issue(g, later, 0)
  }

  predicate Valid(g: Generator) {
    0 <= g.worker <= MAX_WORKER && 0 <= g.sequence <= MAX_SEQUENCE
  }

  /** Later in (last, sequence) order. */
  predicate Before(g: Generator, h: Generator) {
    g.last < h.last || (g.last == h.last && g.sequence < h.sequence)
  }

  /**
   An id is packed from the generator's new state, which is later than its old one; without an id nothing advances.
   */
  lemma {:induction false} NextIdAdvances(g: Generator, readings: seq<int>)
    requires Valid(g)
    ensures var (h, o) := NextId(g, readings);
            && Valid(h) && h.worker == g.worker && h.initialized == g.initialized
            && (o.Id? ==> Before(g, h) && o.id == Signed(Pack(h.last, h.worker, h.sequence)))
            && (!o.Id? ==> h.last == g.last && h.sequence == g.sequence)
            && (o.Id? ==> h.last == g.last || h.last in readings)
  {
  }

  lemma {:induction false} LaterPacksLarger(g: Generator, h: Generator)
    requires Valid(g) && Valid(h) && g.worker == h.worker && Before(g, h)
    ensures Pack(g.last, g.worker, g.sequence) < Pack(h.last, h.worker, h.sequence)
  {
    if g.last < h.last {
      assert (g.last + 1 - EPOCH) * 4194304 <= (h.last - EPOCH) * 4194304;
    }
  }

  // ------------------------------------------------------------------ whole runs

  /** The generator after some calls, each with the readings it sees. */
  function After(g: Generator, calls: seq<seq<int>>): (r: Generator) {
    if calls == [] then g else NextId(After(g, calls[..|calls| - 1]), calls[|calls| - 1]).0
  }

  /** The ids those calls return, in order. */
  function Ids(g: Generator, calls: seq<seq<int>>): (r: seq<int>) {
    if calls == [] then []
    else
      var init := calls[..|calls| - 1];
      var o := NextId(After(g, init), calls[|calls| - 1]).1;
      Ids(g, init) + if o.Id? then [o.id] else []
  }

  /** The generator as it was when it issued each of them. */
  function Stamps(g: Generator, calls: seq<seq<int>>): (r: seq<Generator>) {
    if calls == [] then []
    else
      var init := calls[..|calls| - 1];
      var (h, o) := NextId(After(g, init), calls[|calls| - 1]);
      Stamps(g, init) + if o.Id? then [h] else []
  }

  /** A new generator given a worker id in range: init. */
  function Init(worker: int): (g: Option<Generator>)
    ensures g.Some? <==> 0 <= worker <= MAX_WORKER
    ensures g.Some? ==> Valid(g.value)
  {
    if worker < 0 || worker > MAX_WORKER then None else Some(NEW.(initialized := true, worker := worker))
  }

  /** The id packed from a state of the worker; no timestamp is before the initial -1. */
  predicate Stamped(id: int, s: Generator, worker: int) {
    Valid(s) && s.worker == worker && s.last >= -1 && id == Signed(Pack(s.last, s.worker, s.sequence))
  }

  /** Every id has its stamp, and stamps only go forward. */
  ghost predicate Traced(ids: seq<int>, stamps: seq<Generator>, g: Generator) {
    && |ids| == |stamps| && Valid(g) && g.last >= -1
    && (forall i | 0 <= i < |ids| :: Stamped(ids[i], stamps[i], g.worker))
    && (forall i, j | 0 <= i < j < |stamps| :: Before(stamps[i], stamps[j]))
    && (forall i | 0 <= i < |stamps| :: !Before(g, stamps[i]))
  }

  lemma {:induction false} CallTraced(g: Generator, readings: seq<int>, ids: seq<int>, stamps: seq<Generator>)
    requires Traced(ids, stamps, g)
    ensures var (h, o) := NextId(g, readings);
            h.worker == g.worker && if o.Id? then Traced(ids + [o.id], stamps + [h], h) else Traced(ids, stamps, h)
  {
    NextIdAdvances(g, readings);
  }

  /** In every run, under every clock. */
  lemma {:induction false} RunTraced(worker: int, calls: seq<seq<int>>)
    requires 0 <= worker <= MAX_WORKER
    ensures var g := Init(worker).value;
            Traced(Ids(g, calls), Stamps(g, calls), After(g, calls)) && After(g, calls).worker == worker
    decreases |calls|
  {
    if calls != [] {
      var init, last := calls[..|calls| - 1], calls[|calls| - 1];
      RunTraced(worker, init);
      var g := Init(worker).value;
      CallTraced(After(g, init), last, Ids(g, init), Stamps(g, init));
      assert Ids(g, init) + [] == Ids(g, init) && Stamps(g, init) + [] == Stamps(g, init);
    }
  }

  // ------------------------------------------------------------------ when ids repeat

  /**
   Two ids of any two runs, of one worker or two, under any clocks, coincide if and only if the workers are the same,
   the sequences are the same and the timestamps are a multiple of 2^42 milliseconds apart.
   */
  lemma {:induction false} RepeatIff(a: int, b: int, callsA: seq<seq<int>>, callsB: seq<seq<int>>, i: nat, j: nat)
    requires 0 <= a <= MAX_WORKER && 0 <= b <= MAX_WORKER
    requires i < |Ids(Init(a).value, callsA)| && j < |Ids(Init(b).value, callsB)|
    ensures var (x, y) := (Stamps(Init(a).value, callsA), Stamps(Init(b).value, callsB));
            && i < |x| && j < |y|
            && (Ids(Init(a).value, callsA)[i] == Ids(Init(b).value, callsB)[j] <==>
                a == b && x[i].sequence == y[j].sequence &&
                (x[i].last - EPOCH) % TWO_42 == (y[j].last - EPOCH) % TWO_42)
  {
    RunTraced(a, callsA);
    RunTraced(b, callsB);
    var x, y := Stamps(Init(a).value, callsA)[i], Stamps(Init(b).value, callsB)[j];
    assert Stamped(Ids(Init(a).value, callsA)[i], x, a) && Stamped(Ids(Init(b).value, callsB)[j], y, b);
    SameIdIff(x.last, a, x.sequence, y.last, b, y.sequence);
  }

  /** Every id of a worker carries the worker, whatever the clock. */
  lemma {:induction false} IdsCarryWorker(worker: int, calls: seq<seq<int>>)
    requires 0 <= worker <= MAX_WORKER
    ensures var ids := Ids(Init(worker).value, calls); forall i | 0 <= i < |ids| :: ExtractWorkerId(ids[i]) == worker
  {
    var ids, stamps := Ids(Init(worker).value, calls), Stamps(Init(worker).value, calls);
    RunTraced(worker, calls);
    forall i | 0 <= i < |ids| ensures ExtractWorkerId(ids[i]) == worker {
      assert Stamped(ids[i], stamps[i], worker);
      ExtractInverts(stamps[i].last, worker, stamps[i].sequence);
    }
  }

  /** Two workers never produce the same id, whatever their clocks. */
  lemma {:induction false} WorkersDisjoint(a: int, b: int, callsA: seq<seq<int>>, callsB: seq<seq<int>>, i: nat, j: nat)
    requires 0 <= a <= MAX_WORKER && 0 <= b <= MAX_WORKER && a != b
    requires i < |Ids(Init(a).value, callsA)| && j < |Ids(Init(b).value, callsB)|
    ensures Ids(Init(a).value, callsA)[i] != Ids(Init(b).value, callsB)[j]
  {
    RepeatIff(a, b, callsA, callsB, i, j);
  }

  /** Every reading is in [low, high). */
  predicate Between(calls: seq<seq<int>>, low: int, high: int) {
    forall i, j | 0 <= i < |calls| && 0 <= j < |calls[i]| :: low <= calls[i][j] < high
  }

  predicate Below(calls: seq<seq<int>>, high: int) {
    forall i, j | 0 <= i < |calls| && 0 <= j < |calls[i]| :: calls[i][j] < high
  }

  ghost predicate StampsBetween(stamps: seq<Generator>, low: int, high: int) {
    forall i | 0 <= i < |stamps| :: low <= stamps[i].last < high
  }

  /** Timestamps stay below what all readings stay below. */
  lemma {:induction false} RunBelow(worker: int, calls: seq<seq<int>>, high: int)
    requires 0 <= worker <= MAX_WORKER && high >= 0 && Below(calls, high)
    ensures var g := Init(worker).value; After(g, calls).last < high && StampsBetween(Stamps(g, calls), -1, high)
    decreases |calls|
  {
    if calls != [] {
      var init, last := calls[..|calls| - 1], calls[|calls| - 1];
      RunBelow(worker, init, high);
      RunTraced(worker, init);
      forall j | 0 <= j < |last| ensures last[j] < high {
        assert calls[|calls| - 1][j] == last[j];
      }
      NextIdAdvances(After(Init(worker).value, init), last);
    }
  }

  /** And between what all readings are between, once they are past the initial -1. */
  lemma {:induction false} RunBetween(worker: int, calls: seq<seq<int>>, low: int, high: int)
    requires 0 <= worker <= MAX_WORKER && 0 <= low <= high && Between(calls, low, high)
    ensures var (g, h) := (Init(worker).value, After(Init(worker).value, calls));
            (h.last == -1 || low <= h.last < high) && StampsBetween(Stamps(g, calls), low, high)
    decreases |calls|
  {
    if calls != [] {
      var init, last := calls[..|calls| - 1], calls[|calls| - 1];
      RunBetween(worker, init, low, high);
      forall j | 0 <= j < |last| ensures low <= last[j] < high {
        assert calls[|calls| - 1][j] == last[j];
      }
      SettlesBetween(After(Init(worker).value, init), last, low, high);
    }
  }

  lemma {:induction false} SettlesBetween(g: Generator, readings: seq<int>, low: int, high: int)
    requires 0 <= low && (g.last == -1 || low <= g.last < high)
    requires forall j | 0 <= j < |readings| :: low <= readings[j] < high
    ensures var (h, o) := NextId(g, readings);
            (o.Id? ==> low <= h.last < high) && (!o.Id? ==> h.last == g.last)
  {
  }

  predicate Distinct(ids: seq<int>) {
    forall i, j | 0 <= i < j < |ids| :: ids[i] != ids[j]
  }

  /** As long as the clock stays within any 2^42 milliseconds, rollbacks included, no id repeats. */
  lemma {:induction false} IdsUnique(worker: int, calls: seq<seq<int>>, low: int)
    requires 0 <= worker <= MAX_WORKER && Between(calls, low, low + TWO_42)
    ensures Distinct(Ids(Init(worker).value, calls))
  {
    var ids, stamps := Ids(Init(worker).value, calls), Stamps(Init(worker).value, calls);
    RunTraced(worker, calls);
    if low >= 0 {
      RunBetween(worker, calls, low, low + TWO_42);
    } else {
      RunBelow(worker, calls, if low + TWO_42 < 0 then 0 else low + TWO_42);
    }
    forall i, j | 0 <= i < j < |ids| ensures ids[i] != ids[j] {
      RepeatIff(worker, worker, calls, calls, i, j);
      SameRemainder(stamps[i].last - EPOCH, stamps[j].last - EPOCH);
    }
  }

  lemma {:induction false} SameRemainder(a: int, b: int)
    requires -TWO_42 < a - b < TWO_42
    ensures a % TWO_42 == b % TWO_42 ==> a == b
  {
    var p, q := a / TWO_42, b / TWO_42;
    assert a == TWO_42 * p + a % TWO_42 && b == TWO_42 * q + b % TWO_42;
  }

  /** A run in which an id comes again: the clock has moved on by 2^42 milliseconds. */
  lemma {:induction false} RepeatedRun()
    ensures Ids(Init(0).value, [[EPOCH], [EPOCH + TWO_42]]) == [0, 0]
  {
    var g := Init(0).value;
    var one, two := [[EPOCH]], [[EPOCH], [EPOCH + TWO_42]];
    SignedPack(EPOCH, 0, 0);
    SignedPack(EPOCH + TWO_42, 0, 0);
    assert one[..0] == [] && two[..1] == one;
    var h := g.(last := EPOCH);
    assert NextId(g, [EPOCH]) == (h, Id(0));
    assert After(g, one) == h && Ids(g, one) == [0];
    assert NextId(h, [EPOCH + TWO_42]) == (h.(last := EPOCH + TWO_42), Id(0));
  }

  // ------------------------------------------------------------------ order and sign

  predicate Increasing(ids: seq<int>) {
    forall i, j | 0 <= i < j < |ids| :: ids[i] < ids[j]
  }

  /**
   While readings stay below 2^41 milliseconds after the epoch, rollbacks included, a worker's ids strictly increase.
   */
  lemma {:induction false} IdsIncrease(worker: int, calls: seq<seq<int>>)
    requires 0 <= worker <= MAX_WORKER && Below(calls, EPOCH + TWO_41)
    ensures Increasing(Ids(Init(worker).value, calls))
  {
    var ids, stamps := Ids(Init(worker).value, calls), Stamps(Init(worker).value, calls);
    RunTraced(worker, calls);
    RunBelow(worker, calls, EPOCH + TWO_41);
    forall i, j | 0 <= i < j < |ids| ensures ids[i] < ids[j] {
      assert Stamped(ids[i], stamps[i], worker) && Stamped(ids[j], stamps[j], worker);
      UncutNear(stamps[i].last, worker, stamps[i].sequence);
      UncutNear(stamps[j].last, worker, stamps[j].sequence);
      LaterPacksLarger(stamps[i], stamps[j]);
    }
  }

  /** And they are not negative exactly from the epoch on. */
  lemma {:induction false} NonNegativeFromEpoch(worker: int, calls: seq<seq<int>>, i: nat)
    requires 0 <= worker <= MAX_WORKER && Below(calls, EPOCH + TWO_41) && i < |Ids(Init(worker).value, calls)|
    ensures i < |Stamps(Init(worker).value, calls)|
    ensures Ids(Init(worker).value, calls)[i] >= 0 <==> Stamps(Init(worker).value, calls)[i].last >= EPOCH
  {
    var ids, stamps := Ids(Init(worker).value, calls), Stamps(Init(worker).value, calls);
    RunTraced(worker, calls);
    RunBelow(worker, calls, EPOCH + TWO_41);
    assert Stamped(ids[i], stamps[i], worker);
    UncutNear(stamps[i].last, worker, stamps[i].sequence);
  }

  /** With every reading in range all ids are not negative. */
  lemma {:induction false} InRangeNonNegative(worker: int, calls: seq<seq<int>>)
    requires 0 <= worker <= MAX_WORKER && Between(calls, EPOCH, EPOCH + TWO_41)
    ensures forall i | 0 <= i < |Ids(Init(worker).value, calls)| :: Ids(Init(worker).value, calls)[i] >= 0
  {
    RunBetween(worker, calls, EPOCH, EPOCH + TWO_41);
    forall i | 0 <= i < |Ids(Init(worker).value, calls)| ensures Ids(Init(worker).value, calls)[i] >= 0 {
      NonNegativeFromEpoch(worker, calls, i);
    }
  }

  /** What a call returns is positive, or not negative, by the reading it settled on. */
  lemma {:induction false} NextIdIff(g: Generator, readings: seq<int>)
    requires Valid(g) && NextId(g, readings).1.Id?
    ensures var (h, o) := NextId(g, readings);
            && (o.id >= 0 <==> EvenStretch(h.last))
            && (o.id > 0 <==> EvenStretch(h.last) &&
                              !((h.last - EPOCH) % TWO_42 == 0 && h.worker == 0 && h.sequence == 0))
  {
    NextIdAdvances(g, readings);
    var h := NextId(g, readings).0;
    ReturnedIdIff(h.last, h.worker, h.sequence);
  }

  /** A clock before the epoch: what it settles on gives a negative id, and more than 6 ms before zero it gives none. */
  lemma {:induction false} EarlyClock(worker: int, calls: seq<seq<int>>, readings: seq<int>)
    requires 0 <= worker <= MAX_WORKER
    ensures var (h, o) := NextId(After(Init(worker).value, calls), readings);
            && (o.Id? && h.last < EPOCH ==> o.id < 0)
            && (readings != [] && readings[0] < -6 ==> !o.Id?)
  {
    var g := After(Init(worker).value, calls);
    RunTraced(worker, calls);
    NextIdAdvances(g, readings);
    var (h, o) := NextId(g, readings);
    if o.Id? && h.last < EPOCH {
      UncutNear(h.last, h.worker, h.sequence);
    }
  }

  // ------------------------------------------------------------------ which calls get an id

  /** The timestamp of the last id, or the initial -1. */
  function LastStamp(worker: int, calls: seq<seq<int>>): (r: int)
    requires 0 <= worker <= MAX_WORKER
  {
    var stamps := Stamps(Init(worker).value, calls);
    if stamps == [] then -1 else stamps[|stamps| - 1].last
  }

  lemma {:induction false} LastStampIs(worker: int, calls: seq<seq<int>>)
    requires 0 <= worker <= MAX_WORKER
    ensures var (g, stamps) := (After(Init(worker).value, calls), Stamps(Init(worker).value, calls));
            && g.initialized && Valid(g) && g.last == LastStamp(worker, calls)
            && g.sequence == if stamps == [] then 0 else stamps[|stamps| - 1].sequence
    decreases |calls|
  {
    if calls != [] {
      var init := calls[..|calls| - 1];
      LastStampIs(worker, init);
      NextIdAdvances(After(Init(worker).value, init), calls[|calls| - 1]);
    }
  }

  /** The first reading if it is not before the last id, else the second, and never before the last id. */
  function Caught(last: int, first: int, second: int): (r: int) {
    if first >= last then first else if second >= last then second else last
  }

  /**
   After every run that is not spinning, a call with two readings is refused exactly when the first is more than 5
   milliseconds before the last id, and otherwise returns an id, stamped with what the clock has caught up to, unless
   the 4096 ids of a millisecond are used up.
   */
  lemma {:induction false} RefusedIff(worker: int, calls: seq<seq<int>>, readings: seq<int>)
    requires 0 <= worker <= MAX_WORKER && |readings| >= 2 && !After(Init(worker).value, calls).stuck
    ensures var o := NextId(After(Init(worker).value, calls), readings).1;
            var stamps := Stamps(Init(worker).value, calls);
            && (o == Rollback <==> readings[0] < LastStamp(worker, calls) - 5)
            && (o == Rollback || o.Id? || (stamps != [] && stamps[|stamps| - 1].sequence == 4095))
            && (o.Id? && (stamps == [] || stamps[|stamps| - 1].sequence < 4095) ==>
                  Stamped(o.id, NextId(After(Init(worker).value, calls), readings).0, worker) &&
                  NextId(After(Init(worker).value, calls), readings).0.last ==
                    Caught(LastStamp(worker, calls), readings[0], readings[1]))
  {
    LastStampIs(worker, calls);
    RunTraced(worker, calls);
    NextIdAdvances(After(Init(worker).value, calls), readings);
  }

  /** Each id of a run is stamped with the next sequence number of the same millisecond, or with 0 in a later one. */
  lemma {:induction false} Consecutive(worker: int, calls: seq<seq<int>>, i: nat)
    requires 0 <= worker <= MAX_WORKER && i + 1 < |Stamps(Init(worker).value, calls)|
    ensures var (a, b) := (Stamps(Init(worker).value, calls)[i], Stamps(Init(worker).value, calls)[i + 1]);
            || (b.last == a.last && b.sequence == a.sequence + 1)
            || (b.last > a.last && b.sequence == 0)
    decreases |calls|
  {
    var g, init, last := Init(worker).value, calls[..|calls| - 1], calls[|calls| - 1];
    if i + 1 < |Stamps(g, init)| {
      Consecutive(worker, init, i);
    } else {
      LastStampIs(worker, init);
      OneCall(After(g, init), last);
    }
  }

  lemma {:induction false} OneCall(g: Generator, readings: seq<int>)
    requires NextId(g, readings).1.Id?
    ensures var h := NextId(g, readings).0;
            (h.last == g.last && h.sequence == g.sequence + 1) || (h.last > g.last && h.sequence == 0)
  {
  }

  /** 42 bits of milliseconds since 2025, 10 of worker, 12 of sequence. */
  lemma {:induction false} LayoutIs(ms: int, worker: int, sequence: int)
    requires Fields(worker, sequence) && 0 <= ms < TWO_41
    ensures Signed(Pack(1735689600000 + ms, worker, sequence)) == ms * 4194304 + worker * 4096 + sequence
  {
    UncutNear(EPOCH + ms, worker, sequence);
  }

  /** k calls in a row that all read the same millisecond. */
  function Burst(t: int, k: nat): (r: seq<seq<int>>) { seq(k, _ => [t]) }

  /** A millisecond has 4096 ids, numbered from 0. */
  lemma {:induction false} MillisecondFull(worker: int, t: int, k: nat)
    requires 0 <= worker <= MAX_WORKER && t >= 0 && k <= 4096
    ensures var (g, h) := (Init(worker).value, After(Init(worker).value, Burst(t, k)));
            && |Ids(g, Burst(t, k))| == k
            && (forall i | 0 <= i < k :: Ids(g, Burst(t, k))[i] == Signed(Pack(t, worker, i)))
            && h == (if k == 0 then g else g.(last := t, sequence := k - 1))
  {
    if k > 0 {
      MillisecondFull(worker, t, k - 1);
      assert Burst(t, k)[..k - 1] == Burst(t, k - 1);
    }
  }

  /** The call after that spins until the clock shows a later millisecond, and starts at 0 again. */
  lemma {:induction false} MillisecondOver(worker: int, t: int, later: int, more: seq<int>)
    requires 0 <= worker <= MAX_WORKER && 0 <= t
    ensures var h := After(Init(worker).value, Burst(t, 4096));
            && NextId(h, [t]).1 == Spinning
            && (later > t ==> NextId(h, [t, t, later] + more).1 == Id(Signed(Pack(later, worker, 0))))
  {
    MillisecondFull(worker, t, 4096);
    var h, readings := After(Init(worker).value, Burst(t, 4096)), [t, t, later] + more;
    assert readings[1] == t && readings[2] == later;
    assert later > t ==> Spin(h.last, readings, 2) == Some(later);
  }

  // ------------------------------------------------------------------ the code

  /** The last statement of nextId. */
  method Compose(now: int, worker: nat, sequence: nat) returns (id: int)
    requires Fields(worker, sequence)
    ensures id == Signed(Pack(now, worker, sequence))
  {
    WordIsPack(now, worker, sequence);
    id := Signed(Or(Or(Shifted(now - EPOCH, 4194304), Shifted(worker, 4096)), sequence));
  }

  class SnowflakeGenerator {
    var initialized: bool
    var workerId: int
    var lastTimestamp: int
    var sequence: int
    var stuck: bool

    function State(): (g: Generator)
      reads this
    {
      Generator(initialized, workerId, lastTimestamp, sequence, stuck)
    }

    constructor ()
      ensures State() == NEW
    {
      initialized, workerId, lastTimestamp, sequence, stuck := false, 0, -1, 0, false;
    }

    /** init: false stands for the exceptions; a second call is refused. */
    method SetWorker(worker: int) returns (ok: bool)
      modifies this
      ensures ok <==> 0 <= worker <= MAX_WORKER && !old(initialized)
      ensures State() == if ok then old(State()).(initialized := true, worker := worker) else old(State())
    {
      if worker < 0 || worker > MAX_WORKER || initialized {
        return false;
      }
      initialized, workerId := true, worker;
      return true;
    }

    /** The busy wait for a reading past lastTimestamp. */
    method SpinPast(readings: seq<int>, from: nat) returns (now: Option<int>)
      ensures now == Spin(lastTimestamp, readings, from)
    {
      var i := from;
      while i < |readings| && readings[i] <= lastTimestamp
        invariant Spin(lastTimestamp, readings, i) == Spin(lastTimestamp, readings, from)
        decreases |readings| - i
      {
        i := i + 1;
      }
      return if i < |readings| then Some(readings[i]) else None;
    }

    method Next(readings: seq<int>) returns (o: Outcome)
      requires Valid(State())
      modifies this
      ensures (State(), o) == NextId(old(State()), readings)
    {
      if !initialized {
        return NotInitialized;
      }
      if stuck || readings == [] {
        stuck := true;
        return Spinning;
      }
      var now, used := readings[0], 1;
      if now < lastTimestamp {
        if lastTimestamp - now > MAX_ROLLBACK {
          return Rollback;
        }
        if |readings| < 2 {
          stuck := true;
          return Spinning;
        }
        now, used := readings[1], 2;
        if now < lastTimestamp {
          now := lastTimestamp;
        }
      }
      var q := 0;
      if now == lastTimestamp {
        q := (sequence + 1) % 4096;
        if q == 0 {
          var later := SpinPast(readings, used);
          if later.None? {
            stuck := true;
            return Spinning;
          }
          now := later.value;
        }
      }
      sequence, lastTimestamp := q, now;
      var id := Compose(now, workerId, q);
      return Id(id);
    }
  }
}
