/**
 The accounting of the TCP and MySQL connection pools before they are closed: each locked section is one step, and other
 threads may act while a connection is being created outside the lock.
 */
module ConnectionPool {
  import opened Bytes

  datatype Conn = Conn(id: nat, lastUsed: int)

  /** idle is the queue, borrowed the ids callers have, creating how many threads are between reserving and creating. */
  datatype Pool = Pool(
    minSize: nat,
    maxSize: nat,
    idleTimeout: int,
    idle: seq<Conn>,
    borrowed: set<nat>,
    creating: nat,
    totalCreated: int,
    nextId: nat)

  // ------------------------------------------------------------------ the locked sections

  /** What the constructor creates: a connection for every attempt that succeeds. */
  function Initial(oks: seq<bool>, now: int): (r: seq<Conn>) {
    if oks == [] then []
    else
      var init := Initial(oks[..|oks| - 1], now);
      if oks[|oks| - 1] then init + [Conn(|init|, now)] else init
  }

  /** A new pool after minSize attempts to connect. */
  function Start(minSize: nat, maxSize: nat, idleTimeout: int, oks: seq<bool>, now: int): (p: Pool)
    requires |oks| == minSize
  {
    var idle := Initial(oks, now);
    Pool(minSize, maxSize, idleTimeout, idle, {}, 0, |idle|, |idle|)
  }

  /** How many idle connections fail their ping before one answers; the TCP pool does not ping, as if all answered. */
  function Dead(idle: seq<Conn>, pings: nat -> bool): (n: nat)
    ensures n <= |idle|
    ensures n < |idle| ==> pings(idle[n].id)
    ensures forall i | 0 <= i < n :: !pings(idle[i].id)
  {
    if idle == [] || pings(idle[0].id) then 0 else 1 + Dead(idle[1..], pings)
  }

  /** The guarded decrement. */
  function Less(total: int, n: nat): (r: int) {
    if n == 0 then total else var t := Less(total, n - 1); if t > 0 then t - 1 else t
  }

  datatype Given = Reused(conn: Conn) | Creating | Nothing

  /** acquire, up to where it returns or leaves the lock to create a connection. */
  function Acquire(p: Pool, pings: nat -> bool, now: int): (r: (Pool, Given)) {
    var n := Dead(p.idle, pings);
    var total := Less(p.totalCreated, n);
    if n < |p.idle| then
      var conn := p.idle[n].(lastUsed := now);
      (p.(idle := p.idle[n + 1..], totalCreated := total, borrowed := p.borrowed + {conn.id}), Reused(conn))
    else if total < p.maxSize then (p.(idle := [], totalCreated := total + 1, creating := p.creating + 1), Creating)
    else (p.(idle := [], totalCreated := total), Nothing)
  }

  /** acquire, once the connection attempt is over: without a guard on the decrement. */
  function Created(p: Pool, ok: bool): (r: Pool)
    requires p.creating > 0
  {
    if ok then p.(creating := p.creating - 1, borrowed := p.borrowed + {p.nextId}, nextId := p.nextId + 1)
    else p.(creating := p.creating - 1, totalCreated := p.totalCreated - 1)
  }

  /** release would throw away a good connection for want of room. */
  predicate Overfull(p: Pool) {
    |p.idle| >= p.maxSize
  }

  function Release(p: Pool, conn: Conn, valid: bool): (r: Pool) {
    var q := p.(borrowed := p.borrowed - {conn.id});
    if !valid || Overfull(p) then q.(totalCreated := Less(p.totalCreated, 1)) else q.(idle := p.idle + [conn])
  }

  predicate Stale(c: Conn, now: int, idleTimeout: int) {
    now - c.lastUsed > idleTimeout
  }

  /** healthCheck: stale connections go once minSize have been kept. */
  function Swept(idle: seq<Conn>, now: int, idleTimeout: int, minSize: nat): (r: seq<Conn>) {
    if idle == [] then []
    else
      var kept, last := Swept(idle[..|idle| - 1], now, idleTimeout, minSize), idle[|idle| - 1];
      if Stale(last, now, idleTimeout) && |kept| >= minSize then kept else kept + [last]
  }

  function HealthCheck(p: Pool, now: int): (r: Pool) {
    var kept := Swept(p.idle, now, p.idleTimeout, p.minSize);
    p.(idle := kept, totalCreated := Less(p.totalCreated, if |kept| <= |p.idle| then |p.idle| - |kept| else 0))
  }

  // ------------------------------------------------------------------ runs

  datatype Step =
    | Take(pings: nat -> bool, now: int)
    | Finish(ok: bool)
    | Return(conn: Conn, valid: bool)
    | Check(now: int)

  /** Each borrowed connection is released once; a step whose guard fails changes nothing. */
  function Next(p: Pool, s: Step): (r: Pool) {
    match s
    case Take(pings, now) => Acquire(p, pings, now).0
    case Finish(ok) => if p.creating > 0 then Created(p, ok) else p
    case Return(conn, valid) => if conn.id in p.borrowed then Release(p, conn, valid) else p
    case Check(now) => HealthCheck(p, now)
  }

  ghost function RunAll(p: Pool, steps: seq<Step>): (r: Pool) {
    if steps == [] then p else Next(RunAll(p, steps[..|steps| - 1]), steps[|steps| - 1])
  }

  // ------------------------------------------------------------------ accounting

  predicate Balanced(p: Pool) {
    p.totalCreated == |p.idle| + |p.borrowed| + p.creating
  }

  lemma {:induction false} LessIs(total: int, n: nat)
    requires total >= n
    ensures Less(total, n) == total - n
  {
    if n > 0 {
      LessIs(total, n - 1);
    }
  }

  ghost predicate Distinct(p: Pool) {
    && (forall i, j | 0 <= i < j < |p.idle| :: p.idle[i].id != p.idle[j].id)
    && (forall i | 0 <= i < |p.idle| :: p.idle[i].id !in p.borrowed && p.idle[i].id < p.nextId)
    && (forall k | k in p.borrowed :: k < p.nextId)
  }

  lemma {:induction false} AcquireBalanced(p: Pool, pings: nat -> bool, now: int)
    requires Balanced(p) && Distinct(p)
    ensures Balanced(Acquire(p, pings, now).0)
    ensures Acquire(p, pings, now).0.totalCreated <= if p.totalCreated <= p.maxSize then p.maxSize else p.totalCreated
  {
    LessIs(p.totalCreated, Dead(p.idle, pings));
  }

  lemma {:induction false} ReleaseBalanced(p: Pool, conn: Conn, valid: bool)
    requires Balanced(p) && conn.id in p.borrowed
    ensures Balanced(Release(p, conn, valid)) && Release(p, conn, valid).totalCreated <= p.totalCreated
  {
    LessIs(p.totalCreated, 1);
  }

  /** What a sweep keeps is a subsequence: f gives each kept connection's old place. */
  ghost predicate Sub(kept: seq<Conn>, idle: seq<Conn>, f: seq<nat>) {
    && |f| == |kept|
    && (forall i | 0 <= i < |f| :: f[i] < |idle| && idle[f[i]] == kept[i])
    && (forall i, j | 0 <= i < j < |f| :: f[i] < f[j])
  }

  lemma {:induction false} SweptSub(idle: seq<Conn>, now: int, idleTimeout: int, minSize: nat) returns (f: seq<nat>)
    ensures Sub(Swept(idle, now, idleTimeout, minSize), idle, f)
    decreases |idle|
  {
    if idle == [] {
      f := [];
    } else {
      var init, last := idle[..|idle| - 1], idle[|idle| - 1];
      f := SweptSub(init, now, idleTimeout, minSize);
      var kept := Swept(init, now, idleTimeout, minSize);
      SubSnoc(kept, init, idle, f);
      if !(Stale(last, now, idleTimeout) && |kept| >= minSize) {
        f := f + [|idle| - 1];
      }
    }
  }

  lemma {:induction false} SubSnoc(kept: seq<Conn>, init: seq<Conn>, idle: seq<Conn>, f: seq<nat>)
    requires idle != [] && init == idle[..|idle| - 1] && Sub(kept, init, f)
    ensures Sub(kept, idle, f) && Sub(kept + [idle[|idle| - 1]], idle, f + [|idle| - 1])
  {
    forall i | 0 <= i < |f| ensures f[i] < |init| && idle[f[i]] == kept[i] {
      assert init[f[i]] == idle[f[i]];
    }
  }

  /** A sweep keeps at least minSize connections or all there were, and drops stale ones only. */
  lemma {:induction false} SweptKeeps(idle: seq<Conn>, now: int, idleTimeout: int, minSize: nat)
    ensures var kept := Swept(idle, now, idleTimeout, minSize);
            && |kept| <= |idle|
            && |kept| >= (if minSize < |idle| then minSize else |idle|)
            && (forall c | c in idle && c !in kept :: now - c.lastUsed > idleTimeout)
    decreases |idle|
  {
    if idle != [] {
      var init, last := idle[..|idle| - 1], idle[|idle| - 1];
      SweptKeeps(init, now, idleTimeout, minSize);
      assert idle == init + [last];
    }
  }

  /** With minSize kept already, a sweep drops every stale connection after them. */
  lemma {:induction false} SweptDrops(idle: seq<Conn>, now: int, idleTimeout: int, minSize: nat, i: nat)
    requires minSize <= i < |Swept(idle, now, idleTimeout, minSize)|
    ensures now - Swept(idle, now, idleTimeout, minSize)[i].lastUsed <= idleTimeout
    decreases |idle|
  {
    var kept := Swept(idle[..|idle| - 1], now, idleTimeout, minSize);
    if i < |kept| {
      SweptDrops(idle[..|idle| - 1], now, idleTimeout, minSize, i);
    }
  }

  lemma {:induction false} CheckBalanced(p: Pool, now: int)
    requires Balanced(p)
    ensures Balanced(HealthCheck(p, now)) && HealthCheck(p, now).totalCreated <= p.totalCreated
  {
    var kept := Swept(p.idle, now, p.idleTimeout, p.minSize);
    SweptKeeps(p.idle, now, p.idleTimeout, p.minSize);
    LessIs(p.totalCreated, |p.idle| - |kept|);
  }

  lemma {:induction false} StepBalanced(p: Pool, s: Step)
    requires Balanced(p) && Distinct(p)
    ensures Balanced(Next(p, s))
    ensures Next(p, s).totalCreated <= if p.totalCreated <= p.maxSize then p.maxSize else p.totalCreated
  {
    match s
    case Take(pings, now) => AcquireBalanced(p, pings, now);
    case Finish(ok) => assert p.nextId !in p.borrowed;
    case Return(conn, valid) => if conn.id in p.borrowed { ReleaseBalanced(p, conn, valid); }
    case Check(now) => CheckBalanced(p, now);
  }

  lemma {:induction false} CheckDistinct(p: Pool, now: int)
    requires Distinct(p)
    ensures Distinct(HealthCheck(p, now))
  {
    var f := SweptSub(p.idle, now, p.idleTimeout, p.minSize);
    var kept := Swept(p.idle, now, p.idleTimeout, p.minSize);
    forall i, j | 0 <= i < j < |kept| ensures kept[i].id != kept[j].id {
      assert p.idle[f[i]].id != p.idle[f[j]].id;
    }
  }

  lemma {:induction false} TakeDistinct(p: Pool, pings: nat -> bool, now: int)
    requires Distinct(p)
    ensures Distinct(Acquire(p, pings, now).0)
  {
  }

  lemma {:induction false} StepDistinct(p: Pool, s: Step)
    requires Distinct(p)
    ensures Distinct(Next(p, s))
  {
    match s
    case Take(pings, now) => TakeDistinct(p, pings, now);
    case Finish(ok) =>
    case Return(conn, valid) =>
    case Check(now) => CheckDistinct(p, now);
  }

  lemma {:induction false} InitialDistinct(oks: seq<bool>, now: int)
    ensures |Initial(oks, now)| <= |oks| && forall i | 0 <= i < |Initial(oks, now)| :: Initial(oks, now)[i].id == i
    decreases |oks|
  {
    if oks != [] {
      InitialDistinct(oks[..|oks| - 1], now);
    }
  }

  /** The pool's bounds never change. */
  predicate SameBounds(p: Pool, q: Pool) {
    p.minSize == q.minSize && p.maxSize == q.maxSize && p.idleTimeout == q.idleTimeout
  }

  lemma {:induction false} RunKeeps(p: Pool, steps: seq<Step>)
    requires Balanced(p) && Distinct(p)
    ensures var q := RunAll(p, steps);
            && Balanced(q) && Distinct(q) && SameBounds(p, q)
            && q.totalCreated <= if p.totalCreated <= p.maxSize then p.maxSize else p.totalCreated
    decreases |steps|
  {
    if steps != [] {
      var init := steps[..|steps| - 1];
      RunKeeps(p, init);
      StepBalanced(RunAll(p, init), steps[|steps| - 1]);
      StepDistinct(RunAll(p, init), steps[|steps| - 1]);
    }
  }

  lemma {:induction false} StartKeeps(minSize: nat, maxSize: nat, idleTimeout: int, oks: seq<bool>, now: int)
    requires |oks| == minSize
    ensures var p := Start(minSize, maxSize, idleTimeout, oks, now);
            Balanced(p) && Distinct(p) && p.totalCreated <= minSize
  {
    InitialDistinct(oks, now);
  }

  /** At every interleaving the count is idle plus borrowed plus being created, and no connection is in two places. */
  lemma {:induction false} Accounting(minSize: nat, maxSize: nat, idleTimeout: int, oks: seq<bool>, now: int,
                                      steps: seq<Step>)
    requires |oks| == minSize
    ensures var q := RunAll(Start(minSize, maxSize, idleTimeout, oks, now), steps);
            && q.totalCreated == |q.idle| + |q.borrowed| + q.creating
            && (minSize <= maxSize ==> q.totalCreated <= maxSize)
            && Distinct(q)
  {
    var p := Start(minSize, maxSize, idleTimeout, oks, now);
    StartKeeps(minSize, maxSize, idleTimeout, oks, now);
    RunKeeps(p, steps);
  }

  /** A good connection is never thrown away for want of room. */
  ghost predicate NeverOverfull(minSize: nat, maxSize: nat) {
    forall idleTimeout, oks: seq<bool>, now, steps | |oks| == minSize ::
      var q := RunAll(Start(minSize, maxSize, idleTimeout, oks, now), steps); q.borrowed != {} ==> !Overfull(q)
  }

  /** The count stays within maxSize. */
  ghost predicate NeverOverMax(minSize: nat, maxSize: nat) {
    forall idleTimeout, oks: seq<bool>, now, steps | |oks| == minSize ::
      RunAll(Start(minSize, maxSize, idleTimeout, oks, now), steps).totalCreated <= maxSize
  }

  function AllOk(n: nat): (oks: seq<bool>)
    ensures |oks| == n
  {
    seq(n, i => true)
  }

  lemma {:induction false} AllCreated(n: nat, now: int)
    ensures |Initial(AllOk(n), now)| == n
  {
    if n > 0 {
      AllCreated(n - 1, now);
      assert AllOk(n)[..n - 1] == AllOk(n - 1);
    }
  }

  /** The count stays within maxSize in every run exactly when minSize does. */
  lemma {:induction false} MaxIff(minSize: nat, maxSize: nat)
    ensures NeverOverMax(minSize, maxSize) <==> minSize <= maxSize
  {
    if minSize <= maxSize {
      forall idleTimeout, oks: seq<bool>, now, steps | |oks| == minSize
        ensures RunAll(Start(minSize, maxSize, idleTimeout, oks, now), steps).totalCreated <= maxSize
      {
        Accounting(minSize, maxSize, idleTimeout, oks, now, steps);
      }
    } else {
      AllCreated(minSize, 0);
      var p := Start(minSize, maxSize, 0, AllOk(minSize), 0);
      assert RunAll(p, []) == p;
    }
  }

  /** The full-pool branch of release is unreachable in every run exactly when minSize is within maxSize. */
  lemma {:induction false} OverfullIff(minSize: nat, maxSize: nat)
    ensures NeverOverfull(minSize, maxSize) <==> minSize <= maxSize
  {
    if minSize <= maxSize {
      forall idleTimeout, oks: seq<bool>, now, steps | |oks| == minSize
        ensures var q := RunAll(Start(minSize, maxSize, idleTimeout, oks, now), steps);
                q.borrowed != {} ==> !Overfull(q)
      {
        RoomLeft(minSize, maxSize, idleTimeout, oks, now, steps);
      }
    } else {
      OverfullReached(minSize, maxSize);
    }
  }

  lemma {:induction false} RoomLeft(minSize: nat, maxSize: nat, idleTimeout: int, oks: seq<bool>, now: int,
                                    steps: seq<Step>)
    requires |oks| == minSize <= maxSize
    ensures var q := RunAll(Start(minSize, maxSize, idleTimeout, oks, now), steps); q.borrowed != {} ==> !Overfull(q)
  {
    Accounting(minSize, maxSize, idleTimeout, oks, now, steps);
    StartKeeps(minSize, maxSize, idleTimeout, oks, now);
    RunKeeps(Start(minSize, maxSize, idleTimeout, oks, now), steps);
  }

  lemma {:induction false} OneStep(p: Pool, s: Step)
    ensures RunAll(p, [s]) == Next(p, s)
  {
    var steps := [s];
    assert steps[..|steps| - 1] == [];
    assert RunAll(p, []) == p;
    assert RunAll(p, steps) == Next(RunAll(p, steps[..|steps| - 1]), s);
  }

  /** With minSize above maxSize and every attempt successful, one acquire and its release find the pool full. */
  lemma {:induction false} OverfullReached(minSize: nat, maxSize: nat)
    requires minSize > maxSize
    ensures !NeverOverfull(minSize, maxSize)
  {
    AllCreated(minSize, 0);
    InitialDistinct(AllOk(minSize), 0);
    var p := Start(minSize, maxSize, 0, AllOk(minSize), 0);
    var answers := (k: nat) => true;
    OneStep(p, Take(answers, 0));
    var q := RunAll(p, [Take(answers, 0)]);
    assert p.idle[0].id in q.borrowed && Overfull(q);
  }

  /**
   acquire never hands out a connection another caller has: neither one it takes from the queue nor one it creates.
   */
  lemma {:induction false} HandedOutOnce(minSize: nat, maxSize: nat, idleTimeout: int, oks: seq<bool>, now: int,
                                         steps: seq<Step>, pings: nat -> bool, later: int)
    requires |oks| == minSize
    ensures var q := RunAll(Start(minSize, maxSize, idleTimeout, oks, now), steps);
            var (r, g) := Acquire(q, pings, later);
            && (g.Reused? ==> g.conn.id !in q.borrowed && r.borrowed == q.borrowed + {g.conn.id} && pings(g.conn.id))
            && (q.creating > 0 ==>
                  && q.nextId !in q.borrowed && (forall i | 0 <= i < |q.idle| :: q.idle[i].id != q.nextId)
                  && Created(q, true).borrowed == q.borrowed + {q.nextId})
  {
    Accounting(minSize, maxSize, idleTimeout, oks, now, steps);
  }

  /** acquire comes back empty-handed exactly when no idle connection answers and callers account for all of maxSize. */
  lemma {:induction false} NothingIff(minSize: nat, maxSize: nat, idleTimeout: int, oks: seq<bool>, now: int,
                                      steps: seq<Step>, pings: nat -> bool, later: int)
    requires |oks| == minSize <= maxSize
    ensures var q := RunAll(Start(minSize, maxSize, idleTimeout, oks, now), steps);
            Acquire(q, pings, later).1.Nothing? <==>
              Dead(q.idle, pings) == |q.idle| && |q.borrowed| + q.creating == maxSize
  {
    var p := Start(minSize, maxSize, idleTimeout, oks, now);
    Accounting(minSize, maxSize, idleTimeout, oks, now, steps);
    StartKeeps(minSize, maxSize, idleTimeout, oks, now);
    RunKeeps(p, steps);
    var q := RunAll(p, steps);
    LessIs(q.totalCreated, Dead(q.idle, pings));
  }

  // ------------------------------------------------------------------ what callers get

  /** How many attempts succeeded. */
  function Successes(oks: seq<bool>): (n: nat) {
    if oks == [] then 0 else Successes(oks[1..]) + if oks[0] then 1 else 0
  }

  lemma {:induction false} SuccessesSnoc(oks: seq<bool>, ok: bool)
    ensures Successes(oks + [ok]) == Successes(oks) + if ok then 1 else 0
  {
    if oks == [] {
      assert oks + [ok] == [ok] && [ok][1..] == [];
    } else {
      assert (oks + [ok])[1..] == oks[1..] + [ok];
      SuccessesSnoc(oks[1..], ok);
    }
  }

  /** A new pool has a connection in its queue for every attempt that succeeded. */
  lemma {:induction false} StartSize(oks: seq<bool>, now: int)
    ensures |Initial(oks, now)| == Successes(oks)
    ensures forall i | 0 <= i < |Initial(oks, now)| :: Initial(oks, now)[i].lastUsed == now
    decreases |oks|
  {
    if oks != [] {
      var init, last := oks[..|oks| - 1], oks[|oks| - 1];
      assert oks == init + [last];
      StartSize(init, now);
      SuccessesSnoc(init, last);
    }
  }

  /** The first connection of the queue that answers is at i. */
  ghost predicate FirstAnswer(idle: seq<Conn>, pings: nat -> bool, i: int) {
    0 <= i < |idle| && pings(idle[i].id) && forall j | 0 <= j < i :: !pings(idle[j].id)
  }

  /**
   acquire gives exactly the first connection of the queue that answers, marked as used now, and drops those before it;
   if none answers it reserves a new one exactly if there is room.
   */
  lemma {:induction false} AcquireIs(minSize: nat, maxSize: nat, idleTimeout: int, oks: seq<bool>, now: int,
                                     steps: seq<Step>, pings: nat -> bool, later: int)
    requires |oks| == minSize <= maxSize
    ensures var q := RunAll(Start(minSize, maxSize, idleTimeout, oks, now), steps);
            var (r, g) := Acquire(q, pings, later);
            && (forall i | FirstAnswer(q.idle, pings, i) ::
                  g == Reused(Conn(q.idle[i].id, later)) && r.idle == q.idle[i + 1..])
            && ((forall i :: !FirstAnswer(q.idle, pings, i)) ==>
                  && r.idle == [] && (g == Creating <==> |q.borrowed| + q.creating < maxSize)
                  && (g == Creating ==> r.creating == q.creating + 1) && !g.Reused?)
  {
    var q := RunAll(Start(minSize, maxSize, idleTimeout, oks, now), steps);
    NothingIff(minSize, maxSize, idleTimeout, oks, now, steps, pings, later);
    Accounting(minSize, maxSize, idleTimeout, oks, now, steps);
    var n := Dead(q.idle, pings);
    assert n < |q.idle| ==> FirstAnswer(q.idle, pings, n);
  }

  /** In a pool within its bounds a good connection that is released is back at the end of the queue, a bad one gone. */
  lemma {:induction false} ReleasedIsBack(minSize: nat, maxSize: nat, idleTimeout: int, oks: seq<bool>, now: int,
                                          steps: seq<Step>, conn: Conn, valid: bool)
    requires |oks| == minSize <= maxSize
    requires conn.id in RunAll(Start(minSize, maxSize, idleTimeout, oks, now), steps).borrowed
    ensures var q := RunAll(Start(minSize, maxSize, idleTimeout, oks, now), steps);
            var r := Next(q, Return(conn, valid));
            r.idle == q.idle + (if valid then [conn] else []) && r.borrowed == q.borrowed - {conn.id}
  {
    RoomLeft(minSize, maxSize, idleTimeout, oks, now, steps);
    var q := RunAll(Start(minSize, maxSize, idleTimeout, oks, now), steps);
    assert q.idle + [] == q.idle;
  }

  // ------------------------------------------------------------------ the code

  /** Both pools: the TCP one with an idle timeout of 60 seconds and pings that always succeed. */
  class ConnPool {
    const minSize: nat
    const maxSize: nat
    const idleTimeout: int
    var pool: seq<Conn>
    var totalCreated: int
    var nextId: nat
    ghost var borrowed: set<nat>
    ghost var creating: nat

    ghost function State(): (p: Pool)
      reads this
    {
      Pool(minSize, maxSize, idleTimeout, pool, borrowed, creating, totalCreated, nextId)
    }

    constructor (minSize: nat, maxSize: nat, idleTimeout: int, oks: seq<bool>, now: int)
      requires |oks| == minSize
      ensures State() == Start(minSize, maxSize, idleTimeout, oks, now)
    {
      var initial: seq<Conn> := [];
      var i := 0;
      while i < minSize
        invariant i <= minSize && initial == Initial(oks[..i], now)
      {
        assert oks[..i + 1][..i] == oks[..i];
        if oks[i] {
          initial := initial + [Conn(|initial|, now)];
        }
        i := i + 1;
      }
      assert oks[..i] == oks;
      this.minSize, this.maxSize, this.idleTimeout := minSize, maxSize, idleTimeout;
      pool, totalCreated, nextId, borrowed, creating := initial, |initial|, |initial|, {}, 0;
    }

    /** The ping loop: drops idle connections that do not answer. */
    method DropDead(pings: nat -> bool)
      modifies `pool, `totalCreated
      ensures var n := Dead(old(pool), pings);
              pool == old(pool)[n..] && totalCreated == Less(old(totalCreated), n)
    {
      ghost var n := 0;
      while pool != [] && !pings(pool[0].id)
        invariant n <= |old(pool)| && pool == old(pool)[n..]
        invariant Dead(old(pool), pings) == n + Dead(pool, pings)
        invariant totalCreated == Less(old(totalCreated), n)
        decreases |pool|
      {
        pool := pool[1..];
        if totalCreated > 0 {
          totalCreated := totalCreated - 1;
        }
        n := n + 1;
      }
    }

    method BeginAcquire(pings: nat -> bool, now: int) returns (g: Given)
      modifies this
      ensures (State(), g) == Acquire(old(State()), pings, now)
    {
      DropDead(pings);
      if pool != [] {
        var conn := pool[0].(lastUsed := now);
        pool := pool[1..];
        borrowed := borrowed + {conn.id};
        return Reused(conn);
      }
      if totalCreated < maxSize {
        totalCreated := totalCreated + 1;
        creating := creating + 1;
        return Creating;
      }
      return Nothing;
    }

    method EndAcquire(ok: bool, now: int) returns (conn: Option<Conn>)
      requires creating > 0
      modifies this
      ensures State() == Created(old(State()), ok)
      ensures conn == if ok then Some(Conn(old(nextId), now)) else None
    {
      creating := creating - 1;
      if !ok {
        totalCreated := totalCreated - 1;
        return None;
      }
      conn := Some(Conn(nextId, now));
      borrowed := borrowed + {nextId};
      nextId := nextId + 1;
    }

    method ReleaseConn(conn: Conn, valid: bool)
      modifies this
      ensures State() == Release(old(State()), conn, valid)
    {
      assert Less(totalCreated, 1) == if Less(totalCreated, 0) > 0 then totalCreated - 1 else totalCreated;
      borrowed := borrowed - {conn.id};
      if valid && |pool| < maxSize {
        pool := pool + [conn];
      } else if totalCreated > 0 {
        totalCreated := totalCreated - 1;
      }
    }

    method RunHealthCheck(now: int)
      modifies `pool, `totalCreated
      ensures State() == HealthCheck(old(State()), now)
    {
      var valid: seq<Conn> := [];
      ghost var n := 0;
      while pool != []
        invariant n <= |old(pool)| && pool == old(pool)[n..]
        invariant valid == Swept(old(pool)[..n], now, idleTimeout, minSize) && |valid| <= n
        invariant totalCreated == Less(old(totalCreated), n - |valid|)
        decreases |pool|
      {
        assert old(pool)[..n + 1][..n] == old(pool)[..n];
        var conn := pool[0];
        pool := pool[1..];
        if now - conn.lastUsed > idleTimeout && |valid| >= minSize {
          if totalCreated > 0 {
            totalCreated := totalCreated - 1;
          }
        } else {
          valid := valid + [conn];
        }
        n := n + 1;
      }
      assert old(pool)[..n] == old(pool);
      pool := valid;
    }
  }
}
