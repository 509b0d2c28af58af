/**
 The cross-thread functor queue of an event loop: other threads push and then write to the eventfd, the loop thread
 polls, handles events, swaps the queue out and runs it. Every interleaving is a run of the steps below.
 */
module EventLoop {

  /** An eventfd counter holds at most 2^64 - 2. */
  const MAX_COUNT: nat := 0xFFFF_FFFF_FFFF_FFFE

  /** Where the loop thread is: outside loop(), in poll, handling events, about to swap, running functors. */
  datatype Phase = Outside | Polling | Handling | Swapping | Running

  /**
   pending is pendingFunctors_, batch what is left of the swapped-out vector, counter the eventfd; waking are the
   threads between their push and their write, owes says the loop thread itself is there. executed and queued are the
   history.
   */
  datatype State = State(
    phase: Phase,
    pending: seq<nat>,
    batch: seq<nat>,
    calling: bool,
    counter: nat,
    waking: set<nat>,
    owes: bool,
    executed: seq<nat>,
    queued: seq<nat>)

  const FRESH: State := State(Outside, [], [], false, 0, {}, false, [], [])

  datatype Step =
    | Push(thread: nat, functor: nat)
    | Write(thread: nat)
    | Wake
    | OwnPush(functor: nat)
    | OwnWrite
    | Enter
    | Return
    | Read
    | StartCalling
    | Swap
    | RunOne
    | Finish
    | Exit

  /** The loop thread runs user code, which may call queueInLoop. */
  predicate UserCode(s: State) {
    (s.phase.Outside? || s.phase.Handling? || s.phase.Running?) && !s.owes
  }

  predicate Enabled(s: State, e: Step) {
    match e
    case Push(thread, _) => thread !in s.waking
    case Write(thread) => thread in s.waking
    case Wake => true
    case OwnPush(_) => UserCode(s)
    case OwnWrite => s.owes
    case Enter => s.phase.Outside? && !s.owes
    case Return => s.phase.Polling?
    case Read => s.phase.Handling? && !s.owes
    case StartCalling => s.phase.Handling? && !s.owes
    case Swap => s.phase.Swapping?
    case RunOne => s.phase.Running? && s.batch != [] && !s.owes
    case Finish => s.phase.Running? && s.batch == [] && !s.owes
    case Exit => s.phase.Running? && s.batch == [] && !s.owes
  }

  /** wakeup: a write on a full counter fails and leaves it positive. */
  function Bump(counter: nat): (r: nat) {
    if counter >= MAX_COUNT then counter else counter + 1
  }

  /** A step whose guard fails changes nothing. */
  function Next(s: State, e: Step): (r: State) {
    if !Enabled(s, e) then s
    else match e
      case Push(thread, f) =>
        s.(pending := s.pending + [f], queued := s.queued + [f], waking := s.waking + {thread})
      case Write(thread) => s.(counter := Bump(s.counter), waking := s.waking - {thread})
      case Wake => s.(counter := Bump(s.counter))
      case OwnPush(f) => s.(pending := s.pending + [f], queued := s.queued + [f], owes := s.calling)
      case OwnWrite => s.(counter := Bump(s.counter), owes := false)
      case Enter => s.(phase := Polling)
      case Return => s.(phase := Handling)
      case Read => s.(counter := 0)
      case StartCalling => s.(phase := Swapping, calling := true)
      case Swap => s.(phase := Running, batch := s.pending, pending := [])
      case RunOne => s.(executed := s.executed + [s.batch[0]], batch := s.batch[1..])
      case Finish => s.(phase := Polling, calling := false)
      case Exit => s.(phase := Outside, calling := false)
  }

  function RunAll(s: State, steps: seq<Step>): (r: State) {
    if steps == [] then s else Next(RunAll(s, steps[..|steps| - 1]), steps[|steps| - 1])
  }

  lemma {:induction false} RunAllAppend(s: State, a: seq<Step>, b: seq<Step>)
    ensures RunAll(s, a + b) == RunAll(RunAll(s, a), b)
    decreases |b|
  {
    if b == [] {
      assert a + b == a;
    } else {
      var init := b[..|b| - 1];
      assert (a + b)[..|a + b| - 1] == a + init;
      RunAllAppend(s, a, init);
    }
  }

  // ------------------------------------------------------------------ once each, in order

  predicate InOrder(s: State) {
    s.executed + s.batch + s.pending == s.queued
  }

  predicate Phased(s: State) {
    && (s.batch != [] ==> s.phase.Running?)
    && (s.calling <==> s.phase.Swapping? || s.phase.Running?)
    && (s.owes ==> s.phase.Running?)
  }

  lemma {:induction false} StepPhased(s: State, e: Step)
    requires Phased(s)
    ensures Phased(Next(s, e))
  {
  }

  lemma {:induction false} StepInOrder(s: State, e: Step)
    requires InOrder(s) && Phased(s)
    ensures InOrder(Next(s, e))
  {
    var r := Next(s, e);
    match e
    case Push(_, f) => assert s.executed + s.batch + (s.pending + [f]) == s.queued + [f];
    case OwnPush(f) => assert s.executed + s.batch + (s.pending + [f]) == s.queued + [f];
    case Swap => assert r.executed + r.batch + r.pending == s.executed + s.batch + s.pending;
    case RunOne => assert r.executed + r.batch + r.pending == s.executed + s.batch + s.pending;
    case _ =>
  }

  lemma {:induction false} RunInOrder(s: State, steps: seq<Step>)
    requires InOrder(s) && Phased(s)
    ensures InOrder(RunAll(s, steps)) && Phased(RunAll(s, steps))
    decreases |steps|
  {
    if steps != [] {
      var init := steps[..|steps| - 1];
      RunInOrder(s, init);
      StepInOrder(RunAll(s, init), steps[|steps| - 1]);
      StepPhased(RunAll(s, init), steps[|steps| - 1]);
    }
  }

  /**
   Functors run exactly once and in the order they were queued: what has run is always a prefix of what was queued, and
   in poll everything that has not run is still in the queue.
   */
  lemma {:induction false} OnceInOrder(steps: seq<Step>)
    ensures var s := RunAll(FRESH, steps);
            s.executed <= s.queued && (s.phase.Polling? ==> s.executed + s.pending == s.queued)
  {
    var s := RunAll(FRESH, steps);
    RunInOrder(FRESH, steps);
    assert s.queued == s.executed + (s.batch + s.pending);
    assert s.batch == [] ==> s.executed + s.batch == s.executed;
  }

  // ------------------------------------------------------------------ everything queued, everything run

  /** Every step is taken when it is enabled. */
  ghost predicate Legal(steps: seq<Step>) {
    forall i | 0 <= i < |steps| :: Enabled(RunAll(FRESH, steps[..i]), steps[i])
  }

  /** What queueInLoop was called with, in order, from the steps alone. */
  function Posted(steps: seq<Step>): (r: seq<nat>) {
    if steps == [] then []
    else
      Posted(steps[..|steps| - 1]) +
      match steps[|steps| - 1]
      case Push(_, f) => [f]
      case OwnPush(f) => [f]
      case _ => []
  }

  lemma {:induction false} LegalPrefix(steps: seq<Step>)
    requires steps != [] && Legal(steps)
    ensures var init := steps[..|steps| - 1]; Legal(init) && Enabled(RunAll(FRESH, init), steps[|steps| - 1])
  {
    var init := steps[..|steps| - 1];
    forall i | 0 <= i < |init| ensures Enabled(RunAll(FRESH, init[..i]), init[i]) {
      assert init[..i] == steps[..i];
    }
  }

  /** Nothing handed to queueInLoop is left out. */
  lemma {:induction false} QueuedIs(steps: seq<Step>)
    requires Legal(steps)
    ensures RunAll(FRESH, steps).queued == Posted(steps)
    decreases |steps|
  {
    if steps != [] {
      LegalPrefix(steps);
      QueuedIs(steps[..|steps| - 1]);
    }
  }

  /** Step i is a push of the thread, and its write has not come yet. */
  ghost predicate Unwritten(steps: seq<Step>, thread: nat, i: int) {
    0 <= i < |steps| && steps[i].Push? && steps[i].thread == thread && Write(thread) !in steps[i + 1..]
  }

  ghost predicate BetweenPushAndWrite(steps: seq<Step>, thread: nat) {
    exists i :: Unwritten(steps, thread, i)
  }

  lemma {:induction false} BetweenSnoc(steps: seq<Step>, thread: nat)
    requires steps != []
    ensures var (init, e) := (steps[..|steps| - 1], steps[|steps| - 1]);
            BetweenPushAndWrite(steps, thread) <==>
            (e.Push? && e.thread == thread) || (e != Write(thread) && BetweenPushAndWrite(init, thread))
  {
    var init, e := steps[..|steps| - 1], steps[|steps| - 1];
    forall i | 0 <= i < |init|
      ensures Unwritten(steps, thread, i) <==> e != Write(thread) && Unwritten(init, thread, i)
    {
      assert steps[i + 1..] == init[i + 1..] + [e];
    }
    assert Unwritten(steps, thread, |init|) <==> e.Push? && e.thread == thread;
    if BetweenPushAndWrite(init, thread) && e != Write(thread) {
      var i :| Unwritten(init, thread, i);
      assert Unwritten(steps, thread, i);
    }
  }

  /** In every run any thread can queue a functor unless it is still between a push and its write. */
  lemma {:induction false} CanPushIff(steps: seq<Step>, thread: nat, f: nat)
    requires Legal(steps)
    ensures Enabled(RunAll(FRESH, steps), Push(thread, f)) <==> !BetweenPushAndWrite(steps, thread)
    decreases |steps|
  {
    if steps != [] {
      LegalPrefix(steps);
      CanPushIff(steps[..|steps| - 1], thread, f);
      BetweenSnoc(steps, thread);
    }
  }

  function RunOnes(n: nat): (r: seq<Step>) { seq(n, _ => RunOne) }

  lemma {:induction false} BatchRuns(s: State, n: nat)
    requires s.phase.Running? && !s.owes && n <= |s.batch|
    ensures RunAll(s, RunOnes(n)) == s.(executed := s.executed + s.batch[..n], batch := s.batch[n..])
  {
    if n == 0 {
      assert s.executed + s.batch[..0] == s.executed && s.batch[0..] == s.batch;
    } else {
      BatchRuns(s, n - 1);
      assert RunOnes(n)[..n - 1] == RunOnes(n - 1);
      assert s.batch[n - 1..][1..] == s.batch[n..];
      assert s.batch[..n] == s.batch[..n - 1] + [s.batch[n - 1]];
      assert (s.executed + s.batch[..n - 1]) + [s.batch[n - 1]] == s.executed + s.batch[..n];
    }
  }

  /** After every run, a turn of the loop from poll to poll runs everything that was queued. */
  lemma {:induction false} TurnRunsAll(steps: seq<Step>)
    requires Legal(steps) && RunAll(FRESH, steps).phase.Polling?
    ensures var s := RunAll(FRESH, steps);
            var r := Next(RunAll(Next(Next(Next(s, Return), StartCalling), Swap), RunOnes(|s.pending|)), Finish);
            r.executed == Posted(steps) && r.pending == [] && r.phase.Polling?
  {
    var s := RunAll(FRESH, steps);
    RunInOrder(FRESH, steps);
    QueuedIs(steps);
    assert s.executed + s.batch == s.executed;
    TurnIs(s, Next(Next(Next(s, Return), StartCalling), Swap), |s.pending|);
  }

  lemma {:induction false} TurnIs(s: State, t: State, n: nat)
    requires s.phase.Polling? && !s.owes && n == |s.pending|
    requires t == Next(Next(Next(s, Return), StartCalling), Swap)
    ensures Next(RunAll(t, RunOnes(n)), Finish) ==
            s.(executed := s.executed + s.pending, batch := [], pending := [], calling := false)
  {
    assert t == s.(phase := Running, calling := true, batch := s.pending, pending := []);
    BatchRuns(t, n);
    assert s.pending[..n] == s.pending && s.pending[n..] == [];
  }

  // ------------------------------------------------------------------ no lost wakeup

  /** A queued functor has a wakeup on the way. */
  predicate Covered(s: State) {
    s.pending != [] ==> s.counter > 0 || s.waking != {}
  }

  predicate NoneLost(s: State) {
    && (s.phase.Polling? ==> Covered(s))
    && (s.phase.Running? ==> Covered(s) || s.owes)
  }

  lemma {:induction false} StepNoneLost(s: State, e: Step)
    requires Phased(s) && NoneLost(s) && !e.Enter?
    ensures NoneLost(Next(s, e))
  {
    var r := Next(s, e);
    if e.Push? && Enabled(s, e) {
      assert e.thread in r.waking;
    }
  }

  predicate StaysIn(steps: seq<Step>) {
    forall i | 0 <= i < |steps| :: !steps[i].Enter?
  }

  lemma {:induction false} RunNoneLost(s: State, steps: seq<Step>)
    requires Phased(s) && NoneLost(s) && InOrder(s) && StaysIn(steps)
    ensures NoneLost(RunAll(s, steps))
    decreases |steps|
  {
    if steps != [] {
      var init := steps[..|steps| - 1];
      RunNoneLost(s, init);
      RunInOrder(s, init);
      StepNoneLost(RunAll(s, init), steps[|steps| - 1]);
    }
  }

  /** In one stay in loop(), every poll with queued functors has a wakeup on the way. */
  ghost predicate NeverStuck(s: State) {
    forall steps | StaysIn(steps) :: var r := RunAll(Next(s, Enter), steps); r.phase.Polling? ==> Covered(r)
  }

  /**
   No wakeup is lost in a stay in loop(), for every interleaving, exactly when loop() is entered with an empty queue or
   with a wakeup on the way.
   */
  lemma {:induction false} NoLostWakeupIff(before: seq<Step>)
    requires RunAll(FRESH, before).phase.Outside?
    ensures NeverStuck(RunAll(FRESH, before)) <==> Covered(RunAll(FRESH, before))
  {
    var s := RunAll(FRESH, before);
    RunInOrder(FRESH, before);
    var t := Next(s, Enter);
    StepPhased(s, Enter);
    StepInOrder(s, Enter);
    if Covered(s) {
      forall steps | StaysIn(steps) ensures RunAll(t, steps).phase.Polling? ==> Covered(RunAll(t, steps)) {
        RunNoneLost(t, steps);
      }
    }
    if NeverStuck(s) {
      assert StaysIn([]);
      assert RunAll(t, []) == t;
    }
  }

  /** Only the loop thread's own pushes outside loop() can leave the queue uncovered. */
  lemma {:induction false} CoveredUnlessOwnPush(before: seq<Step>)
    requires forall i | 0 <= i < |before| :: before[i].Push? || before[i].Write? || before[i].Wake?
    ensures RunAll(FRESH, before).phase.Outside? && Covered(RunAll(FRESH, before))
    decreases |before|
  {
    if before != [] {
      var init := before[..|before| - 1];
      CoveredUnlessOwnPush(init);
      var s, e := RunAll(FRESH, init), before[|before| - 1];
      if e.Push? && Enabled(s, e) {
        assert e.thread in Next(s, e).waking;
      }
    }
  }

  /** A functor the loop thread queues before loop() gets no wakeup. */
  lemma {:induction false} OwnPushBeforeLoopIsUncovered(f: nat)
    ensures var s := RunAll(FRESH, [OwnPush(f)]); s.phase.Outside? && !Covered(s) && !NeverStuck(s)
  {
    assert [OwnPush(f)][..0] == [];
    NoLostWakeupIff([OwnPush(f)]);
  }

  // ------------------------------------------------------------------ the code

  /** Steps of other threads. */
  predicate ByOthers(steps: seq<Step>) {
    forall i | 0 <= i < |steps| :: steps[i].Push? || steps[i].Write? || steps[i].Wake?
  }

  /** Steps while a functor runs: its own pushes and wakeups, and those of other threads. */
  predicate ByFunctor(steps: seq<Step>) {
    forall i | 0 <= i < |steps| ::
      steps[i].Push? || steps[i].Write? || steps[i].Wake? || steps[i].OwnPush? || steps[i].OwnWrite?
  }

  /** What a functor does leaves the phase, the batch and the history alone; the queue's history only grows. */
  lemma {:induction false} FunctorKeeps(s: State, steps: seq<Step>)
    requires ByFunctor(steps)
    ensures var r := RunAll(s, steps);
            && r.phase == s.phase && r.batch == s.batch && r.executed == s.executed && r.calling == s.calling
            && s.queued <= r.queued && (ByOthers(steps) ==> r.owes == s.owes)
    decreases |steps|
  {
    if steps != [] {
      FunctorKeeps(s, steps[..|steps| - 1]);
    }
  }

  lemma {:induction false} OneStep(s: State, e: Step)
    ensures RunAll(s, [e]) == Next(s, e)
  {
    assert [e][..0] == [];
  }

  lemma {:induction false} ThenStep(s: State, steps: seq<Step>, e: Step)
    ensures RunAll(s, steps + [e]) == Next(RunAll(s, steps), e)
  {
    RunAllAppend(s, steps, [e]);
    OneStep(RunAll(s, steps), e);
  }

  /** A thread that has not written yet still has its wakeup to give. */
  lemma {:induction false} StillWaking(s: State, steps: seq<Step>, thread: nat)
    requires ByOthers(steps) && thread in s.waking && Write(thread) !in steps
    ensures thread in RunAll(s, steps).waking
    decreases |steps|
  {
    if steps != [] {
      var init := steps[..|steps| - 1];
      StillWaking(s, init, thread);
      assert steps[|steps| - 1] in steps;
    }
  }

  lemma {:induction false} FirstOfBatch(executed: seq<nat>, batch: seq<nat>)
    requires batch != []
    ensures (executed + [batch[0]]) + batch[1..] == executed + batch
  {
  }

  class Loop {
    var phase: Phase
    var pendingFunctors: seq<nat>
    var functors: seq<nat>
    var callingPendingFunctors: bool
    var counter: nat
    var waking: set<nat>
    var owes: bool
    var executed: seq<nat>
    var queued: seq<nat>

    function Now(): (s: State)
      reads this
    {
      State(phase, pendingFunctors, functors, callingPendingFunctors, counter, waking, owes, executed, queued)
    }

    constructor ()
      ensures Now() == FRESH
    {
      phase, pendingFunctors, functors, callingPendingFunctors := Outside, [], [], false;
      counter, waking, owes, executed, queued := 0, {}, false, [], [];
    }

    /** What other threads, or a functor's own code, do meanwhile. */
    method Meanwhile(steps: seq<Step>)
      modifies this
      ensures Now() == RunAll(old(Now()), steps)
    {
      var i := 0;
      while i < |steps|
        invariant i <= |steps| && Now() == RunAll(old(Now()), steps[..i])
      {
        assert steps[..i + 1][..i] == steps[..i];
        var s := Next(Now(), steps[i]);
        phase, pendingFunctors, functors, callingPendingFunctors := s.phase, s.pending, s.batch, s.calling;
        counter, waking, owes, executed, queued := s.counter, s.waking, s.owes, s.executed, s.queued;
        i := i + 1;
      }
      assert steps[..i] == steps;
    }

    /** wakeup: adds one to the eventfd; fails when it is full. */
    method Wakeup()
      modifies `counter
      ensures counter == Bump(old(counter)) && counter > 0
    {
      if counter < MAX_COUNT {
        counter := counter + 1;
      }
    }

    /** handleRead: takes the whole count. */
    method HandleRead()
      requires phase.Handling? && !owes
      modifies `counter
      ensures Now() == Next(old(Now()), Read)
    {
      counter := 0;
    }

    /** queueInLoop, by the loop thread if own and else by thread; other threads act between the push and the wakeup. */
    method QueueInLoop(functor: nat, own: bool, thread: nat, between: seq<Step>) returns (ghost steps: seq<Step>)
      requires ByOthers(between) && Write(thread) !in between
      requires if own then UserCode(Now()) else thread !in waking
      modifies this
      ensures Now() == RunAll(old(Now()), steps) && old(queued) + [functor] <= queued
      ensures !own || callingPendingFunctors ==> counter > 0
      ensures own ==> !owes
    {
      ghost var s := Now();
      pendingFunctors, queued := pendingFunctors + [functor], queued + [functor];
      if own {
        owes := callingPendingFunctors;
      } else {
        waking := waking + {thread};
      }
      ghost var push := if own then OwnPush(functor) else Push(thread, functor);
      assert Now() == Next(s, push);
      FunctorKeeps(Now(), between);
      if !own {
        StillWaking(Now(), between, thread);
      }
      Meanwhile(between);
      steps := [push] + between;
      OneStep(s, push);
      RunAllAppend(s, [push], between);
      if !own || callingPendingFunctors {
        ghost var write := if own then OwnWrite else Write(thread);
        ThenStep(s, steps, write);
        Wakeup();
        if own {
          owes := false;
        } else {
          waking := waking - {thread};
        }
        steps := steps + [write];
      }
    }

    /** One functor: whatever it does, it returns from its own queueInLoop calls. */
    method CallFunctor(script: seq<Step>) returns (ghost steps: seq<Step>)
      requires phase.Running? && functors != [] && !owes && ByFunctor(script)
      modifies this
      ensures Now() == RunAll(old(Now()), steps)
      ensures phase.Running? && !owes && functors == old(functors)[1..]
      ensures executed == old(executed) + [old(functors)[0]]
    {
      ghost var s := Now();
      executed, functors := executed + [functors[0]], functors[1..];
      assert Now() == Next(s, RunOne);
      FunctorKeeps(Now(), script);
      Meanwhile(script);
      OneStep(s, RunOne);
      RunAllAppend(s, [RunOne], script);
      steps := [RunOne] + script;
      if owes {
        ThenStep(s, steps, OwnWrite);
        Wakeup();
        owes := false;
        steps := steps + [OwnWrite];
      }
    }

    /** The flag goes up before the lock is taken; other threads may still push. */
    method BeginCalling(waiting: seq<Step>) returns (ghost steps: seq<Step>)
      requires phase.Handling? && !owes && InOrder(Now()) && Phased(Now()) && ByOthers(waiting)
      modifies this
      ensures Now() == RunAll(old(Now()), steps)
      ensures phase.Swapping? && !owes && functors == [] && InOrder(Now()) && old(queued) <= queued
    {
      ghost var s := Now();
      phase, callingPendingFunctors := Swapping, true;
      OneStep(s, StartCalling);
      FunctorKeeps(Now(), waiting);
      Meanwhile(waiting);
      steps := [StartCalling] + waiting;
      RunAllAppend(s, [StartCalling], waiting);
      RunInOrder(s, steps);
    }

    /** The swap: the whole queue becomes the batch, in one critical section. */
    method SwapOut() returns (ghost steps: seq<Step>)
      requires phase.Swapping? && functors == [] && !owes && InOrder(Now())
      modifies this
      ensures Now() == RunAll(old(Now()), steps)
      ensures phase.Running? && !owes && executed + functors == old(queued)
    {
      steps := [Swap];
      OneStep(Now(), Swap);
      assert executed + functors + pendingFunctors == executed + pendingFunctors;
      phase, functors, pendingFunctors := Running, pendingFunctors, [];
    }

    method RunBatch(scripts: nat -> seq<Step>) returns (ghost steps: seq<Step>)
      requires phase.Running? && !owes && forall i: nat :: ByFunctor(scripts(i))
      modifies this
      ensures Now() == RunAll(old(Now()), steps)
      ensures phase.Running? && !owes && functors == [] && executed == old(executed) + old(functors)
    {
      ghost var s := Now();
      steps := [];
      var i := 0;
      while functors != []
        invariant Now() == RunAll(s, steps)
        invariant phase.Running? && !owes && executed + functors == s.executed + s.batch
        decreases |functors|
      {
        FirstOfBatch(executed, functors);
        ghost var more := CallFunctor(scripts(i));
        RunAllAppend(s, steps, more);
        steps := steps + more;
        i := i + 1;
      }
    }

    /**
     doPendingFunctors, with other threads acting before the swap and each functor acting as scripted: everything queued
     before the call has run when it returns, in order.
     */
    method DoPendingFunctors(waiting: seq<Step>, scripts: nat -> seq<Step>) returns (ghost steps: seq<Step>)
      requires phase.Handling? && !owes && InOrder(Now()) && Phased(Now())
      requires ByOthers(waiting) && forall i: nat :: ByFunctor(scripts(i))
      modifies this
      ensures Now() == RunAll(old(Now()), steps)
      ensures phase.Polling? && old(queued) <= executed
    {
      ghost var s := Now();
      steps := BeginCalling(waiting);
      ghost var swap := SwapOut();
      RunAllAppend(s, steps, swap);
      ghost var more := RunBatch(scripts);
      RunAllAppend(s, steps + swap, more);
      steps := steps + swap + more;
      ThenStep(s, steps, Finish);
      phase, callingPendingFunctors := Polling, false;
      steps := steps + [Finish];
    }
  }
}
