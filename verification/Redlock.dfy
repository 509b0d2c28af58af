/**
 Redlock against one Redis server, as a step system: clients issue SET NX PX and token-checked deletes, the network may
 delay or lose commands and replies, keys expire, and anyone may release any key with any token, late or twice.
 */
module Redlock {
  import opened Bytes

  /** What the server is asked to do: SET key token NX PX ttl, or delete the key if it still holds token. */
  datatype Command = Set(key: nat, token: nat, ttl: int) | Del(key: nat, token: nat)

  /** A key's value; it is gone from the instant until on. */
  datatype Entry = Entry(token: nat, until: nat)

  /** One period in which a key held a token, from the SET that succeeded to expiry or deletion. */
  datatype Hold = Hold(key: nat, token: nat, from: nat, until: nat)

  /** The acquire call a token was generated for. */
  datatype Ticket = Ticket(client: nat, key: nat, ttl: int)

  /** Where a client's acquire call stands: about to try, or waiting for the reply to its own request. */
  datatype Call = Trying(token: nat, ttl: int) | Waiting(token: nat, ttl: int, request: nat)

  /**
   Tokens are positions in issued, so no two acquire calls share one; requests are every command ever sent, wire those
   the server may still execute, replies what it answered to each. got are the tokens acquire returned, released the
   keys and tokens passed to release, and holds is the server's history.
   */
  datatype World = World(
    now: nat,
    store: map<nat, Entry>,
    holds: seq<Hold>,
    issued: seq<Ticket>,
    calls: map<nat, Call>,
    got: set<nat>,
    released: set<(nat, nat)>,
    requests: seq<Command>,
    wire: set<nat>,
    replies: map<nat, bool>)

  const START: World := World(0, map[], [], [], map[], {}, {}, [], {}, map[])

  // ------------------------------------------------------------------ the server

  predicate Live(w: World, key: nat) {
    key in w.store && w.now < w.store[key].until
  }

  /** GET. */
  function Value(w: World, key: nat): (r: Option<nat>) {
    if Live(w, key) then Some(w.store[key].token) else None
  }

  /** Whether the server grants a command: a SET needs a positive ttl and a free key, a delete needs the token. */
  predicate Grants(w: World, c: Command) {
    match c
    case Set(key, _, ttl) => ttl > 0 && !Live(w, key)
    case Del(key, token) => Value(w, key) == Some(token)
  }

  function Closed(holds: seq<Hold>, key: nat, token: nat, now: nat): (r: seq<Hold>) {
    seq(|holds|, i requires 0 <= i < |holds| =>
      if holds[i].key == key && holds[i].token == token && now < holds[i].until
      then holds[i].(until := now) else holds[i])
  }

  /** The command takes effect in one atomic step; both kinds of command are refused without a trace. */
  function Apply(w: World, c: Command): (r: World) {
    if !Grants(w, c) then w
    else match c
      case Set(key, token, ttl) =>
        w.(store := w.store[key := Entry(token, w.now + ttl)],
           holds := w.holds + [Hold(key, token, w.now, w.now + ttl)])
      case Del(key, token) =>
        w.(store := w.store - {key}, holds := Closed(w.holds, key, token, w.now))
  }

  // ------------------------------------------------------------------ steps

  datatype Step =
    | Pass(time: nat)
    | Acquire(client: nat, key: nat, ttl: int)
    | Send(client: nat)
    | Execute(request: nat)
    | Lose(request: nat)
    | Answer(client: nat)
    | NoAnswer(client: nat)
    | GiveUp(client: nat)
    | Release(key: nat, token: nat)

  predicate Tries(w: World, client: nat) {
    client in w.calls && w.calls[client].Trying? && w.calls[client].token < |w.issued|
  }

  predicate Waits(w: World, client: nat) {
    client in w.calls && w.calls[client].Waiting? && w.calls[client].token < |w.issued|
  }

  /** The SET a trying client sends. */
  function Asked(w: World, client: nat): (c: Command)
    requires Tries(w, client)
  {
    Set(w.issued[w.calls[client].token].key, w.calls[client].token, w.calls[client].ttl)
  }

  function Sent(w: World, c: Command): (r: World) {
    w.(requests := w.requests + [c], wire := w.wire + {|w.requests|})
  }

  predicate Executable(w: World, request: nat) {
    request in w.wire && request < |w.requests|
  }

  function Executed(w: World, request: nat): (r: World)
    requires Executable(w, request)
  {
    var c := w.requests[request];
    Apply(w, c).(wire := w.wire - {request}, replies := w.replies[request := Grants(w, c)])
  }

  function Again(call: Call): (r: Call) {
    Trying(call.token, call.ttl)
  }

  /** A step whose guard fails changes nothing. */
  function Next(w: World, s: Step): (r: World) {
    match s
    case Pass(time) => w.(now := w.now + time)
    case Acquire(client, key, ttl) =>
      if client in w.calls then w
      else w.(issued := w.issued + [Ticket(client, key, ttl)], calls := w.calls[client := Trying(|w.issued|, ttl)])
    case Send(client) =>
      if !Tries(w, client) then w
      else Sent(w, Asked(w, client)).(calls :=
        w.calls[client := Waiting(w.calls[client].token, w.calls[client].ttl, |w.requests|)])
    case Execute(request) => if Executable(w, request) then Executed(w, request) else w
    case Lose(request) => w.(wire := w.wire - {request})
    case Answer(client) =>
      if !Waits(w, client) || w.calls[client].request !in w.replies then w
      else if w.replies[w.calls[client].request] then
        w.(got := w.got + {w.calls[client].token}, calls := w.calls - {client})
      else w.(calls := w.calls[client := Again(w.calls[client])])
    case NoAnswer(client) => if Waits(w, client) then w.(calls := w.calls[client := Again(w.calls[client])]) else w
    case GiveUp(client) => if Tries(w, client) then w.(calls := w.calls - {client}) else w
    case Release(key, token) => Sent(w, Del(key, token)).(released := w.released + {(key, token)})
  }

  function RunAll(w: World, steps: seq<Step>): (r: World) {
    if steps == [] then w else Next(RunAll(w, steps[..|steps| - 1]), steps[|steps| - 1])
  }

  lemma {:induction false} RunAllAppend(w: World, a: seq<Step>, b: seq<Step>)
    ensures RunAll(w, a + b) == RunAll(RunAll(w, a), b)
    decreases |b|
  {
    if b == [] {
      assert a + b == a;
    } else {
      var init := b[..|b| - 1];
      assert (a + b)[..|a + b| - 1] == a + init;
      RunAllAppend(w, a, init);
    }
  }

  lemma {:induction false} OneStep(w: World, s: Step)
    ensures RunAll(w, [s]) == Next(w, s)
  {
    assert [s][..0] == [];
  }

  lemma {:induction false} ThenStep(w: World, steps: seq<Step>, s: Step)
    ensures RunAll(w, steps + [s]) == Next(RunAll(w, steps), s)
  {
    RunAllAppend(w, steps, [s]);
    OneStep(RunAll(w, steps), s);
  }

  // ------------------------------------------------------------------ holds and the store

  /** Two holds of one key never overlap. */
  ghost predicate Disjoint(holds: seq<Hold>) {
    forall i, j | 0 <= i < j < |holds| && holds[i].key == holds[j].key :: holds[i].until <= holds[j].from
  }

  predicate Open(h: Hold, now: nat) {
    h.from <= now < h.until
  }

  /** The open holds are exactly what the store shows. */
  ghost predicate Mirrors(holds: seq<Hold>, store: map<nat, Entry>, now: nat) {
    && (forall i | 0 <= i < |holds| :: holds[i].from <= now && holds[i].from <= holds[i].until)
    && (forall i | 0 <= i < |holds| && now < holds[i].until ::
          holds[i].key in store && store[holds[i].key] == Entry(holds[i].token, holds[i].until))
    && (forall k | k in store && now < store[k].until :: Held(holds, k, store[k]))
  }

  ghost predicate Held(holds: seq<Hold>, key: nat, e: Entry) {
    exists i | 0 <= i < |holds| :: holds[i].key == key && holds[i].token == e.token && holds[i].until == e.until
  }

  lemma {:induction false} ApplyDisjoint(w: World, c: Command)
    requires Disjoint(w.holds) && Mirrors(w.holds, w.store, w.now)
    ensures Disjoint(Apply(w, c).holds)
  {
    if Grants(w, c) && c.Set? {
      assert forall i | 0 <= i < |w.holds| && w.holds[i].key == c.key :: w.holds[i].until <= w.now;
    }
  }

  lemma {:induction false} SetMirrors(w: World, key: nat, token: nat, ttl: int)
    requires Mirrors(w.holds, w.store, w.now) && Grants(w, Set(key, token, ttl))
    ensures var r := Apply(w, Set(key, token, ttl)); Mirrors(r.holds, r.store, r.now)
  {
    var r := Apply(w, Set(key, token, ttl));
    forall i | 0 <= i < |r.holds| && r.now < r.holds[i].until
      ensures r.holds[i].key in r.store && r.store[r.holds[i].key] == Entry(r.holds[i].token, r.holds[i].until)
    {
      assert i < |w.holds| ==> r.holds[i] == w.holds[i];
    }
    forall k | k in r.store && r.now < r.store[k].until ensures Held(r.holds, k, r.store[k]) {
      if k == key {
        assert r.holds[|w.holds|].key == k;
      } else {
        HeldGrows(w.holds, r.holds, k, w.store[k]);
      }
    }
  }

  lemma {:induction false} HeldGrows(a: seq<Hold>, b: seq<Hold>, key: nat, e: Entry)
    requires a <= b && Held(a, key, e)
    ensures Held(b, key, e)
  {
    var i :| 0 <= i < |a| && a[i].key == key && a[i].token == e.token && a[i].until == e.until;
    assert b[i] == a[i];
  }

  lemma {:induction false} DelMirrors(w: World, key: nat, token: nat)
    requires Mirrors(w.holds, w.store, w.now) && Grants(w, Del(key, token))
    ensures var r := Apply(w, Del(key, token)); Mirrors(r.holds, r.store, r.now)
  {
    var r := Apply(w, Del(key, token));
    forall i | 0 <= i < |r.holds| && r.now < r.holds[i].until
      ensures r.holds[i].key in r.store && r.store[r.holds[i].key] == Entry(r.holds[i].token, r.holds[i].until)
    {
      assert w.now < w.holds[i].until;
      assert w.store[w.holds[i].key] == Entry(w.holds[i].token, w.holds[i].until);
    }
    forall k | k in r.store && r.now < r.store[k].until ensures Held(r.holds, k, r.store[k]) {
      assert Held(w.holds, k, w.store[k]);
      var i :| 0 <= i < |w.holds| && w.holds[i].key == k && w.holds[i].token == w.store[k].token &&
               w.holds[i].until == w.store[k].until;
      assert r.holds[i] == w.holds[i];
    }
  }

  lemma {:induction false} ApplyMirrors(w: World, c: Command)
    requires Mirrors(w.holds, w.store, w.now)
    ensures var r := Apply(w, c); Mirrors(r.holds, r.store, r.now)
  {
    if Grants(w, c) {
      match c
      case Set(key, token, ttl) => SetMirrors(w, key, token, ttl);
      case Del(key, token) => DelMirrors(w, key, token);
    }
  }

  // ------------------------------------------------------------------ requests and tokens

  /** A request carries what its acquire call asked for, or what was passed to release. */
  predicate Honest(issued: seq<Ticket>, released: set<(nat, nat)>, c: Command) {
    match c
    case Set(key, token, ttl) => token < |issued| && issued[token].key == key && issued[token].ttl == ttl
    case Del(key, token) => (key, token) in released
  }

  ghost predicate AllHonest(w: World) {
    && (forall i | 0 <= i < |w.requests| :: Honest(w.issued, w.released, w.requests[i]))
    && (forall c | c in w.calls :: w.calls[c].token < |w.issued| && w.calls[c].ttl == w.issued[w.calls[c].token].ttl)
  }

  /** A waiting client's request is its own SET; every request is executed at most once. */
  ghost predicate Paired(w: World) {
    && (forall r | r in w.wire :: r < |w.requests| && r !in w.replies)
    && (forall r | r in w.replies :: r < |w.requests|)
    && (forall c | c in w.calls && w.calls[c].Waiting? ::
          w.calls[c].request < |w.requests| && w.requests[w.calls[c].request].Set? &&
          w.requests[w.calls[c].request].token == w.calls[c].token)
  }

  lemma {:induction false} OnlyGrow(w: World, s: Step)
    ensures w.issued <= Next(w, s).issued && w.released <= Next(w, s).released && w.requests <= Next(w, s).requests
  {
  }

  /** A call after a step: as it was, a new one, or moved on by its own client. */
  lemma {:induction false} StepCall(w: World, s: Step, c: nat)
    requires c in Next(w, s).calls && (c in w.calls ==> w.calls[c].token < |w.issued|)
    ensures var k := Next(w, s).calls[c];
            || (c in w.calls && k == w.calls[c])
            || (c !in w.calls && s.Acquire? && k == Trying(|w.issued|, s.ttl) &&
                Next(w, s).issued == w.issued + [Ticket(c, s.key, s.ttl)])
            || (Waits(w, c) && k == Again(w.calls[c]))
            || (Tries(w, c) && Next(w, s).requests == w.requests + [Asked(w, c)] &&
                k == Waiting(w.calls[c].token, w.calls[c].ttl, |w.requests|))
  {
  }

  lemma {:induction false} StepRequest(w: World, s: Step, i: nat)
    requires AllHonest(w) && i < |Next(w, s).requests|
    ensures Honest(Next(w, s).issued, Next(w, s).released, Next(w, s).requests[i])
  {
    OnlyGrow(w, s);
    if i < |w.requests| {
      assert Honest(w.issued, w.released, w.requests[i]);
    }
  }

  lemma {:induction false} StepHonest(w: World, s: Step)
    requires AllHonest(w)
    ensures AllHonest(Next(w, s))
  {
    var r := Next(w, s);
    OnlyGrow(w, s);
    forall i | 0 <= i < |r.requests| ensures Honest(r.issued, r.released, r.requests[i]) {
      StepRequest(w, s, i);
    }
    forall c | c in r.calls ensures r.calls[c].token < |r.issued| && r.calls[c].ttl == r.issued[r.calls[c].token].ttl {
      StepCall(w, s, c);
    }
  }

  lemma {:induction false} StepWire(w: World, s: Step)
    requires Paired(w)
    ensures var r := Next(w, s);
            && (forall q | q in r.wire :: q < |r.requests| && q !in r.replies)
            && (forall q | q in r.replies :: q < |r.requests|)
  {
  }

  lemma {:induction false} StepPaired(w: World, s: Step)
    requires Paired(w) && AllHonest(w)
    ensures Paired(Next(w, s))
  {
    var r := Next(w, s);
    StepWire(w, s);
    OnlyGrow(w, s);
    forall c | c in r.calls && r.calls[c].Waiting?
      ensures r.calls[c].request < |r.requests| && r.requests[r.calls[c].request].Set? &&
              r.requests[r.calls[c].request].token == r.calls[c].token
    {
      StepCall(w, s, c);
    }
  }

  // ------------------------------------------------------------------ grants

  ghost predicate WasHeld(holds: seq<Hold>, key: nat, token: nat) {
    exists i | 0 <= i < |holds| :: holds[i].key == key && holds[i].token == token
  }

  /** Holds are of tokens on their own keys; granted SETs and returned tokens have a hold. */
  ghost predicate Granted(w: World) {
    && (forall i | 0 <= i < |w.holds| ::
          w.holds[i].token < |w.issued| && w.issued[w.holds[i].token].key == w.holds[i].key)
    && (forall q | q in w.replies && w.replies[q] && q < |w.requests| && w.requests[q].Set? ::
          WasHeld(w.holds, w.requests[q].key, w.requests[q].token))
    && (forall t | t in w.got :: t < |w.issued| && WasHeld(w.holds, w.issued[t].key, t))
  }

  /** A command keeps every hold's key, token and start. */
  lemma {:induction false} ApplyKeepsHeld(w: World, c: Command, key: nat, token: nat)
    requires WasHeld(w.holds, key, token)
    ensures WasHeld(Apply(w, c).holds, key, token)
  {
    var i :| 0 <= i < |w.holds| && w.holds[i].key == key && w.holds[i].token == token;
    var r := Apply(w, c).holds;
    assert r[i].key == key && r[i].token == token;
  }

  lemma {:induction false} ExecuteGranted(w: World, request: nat)
    requires Granted(w) && AllHonest(w) && Executable(w, request)
    ensures Granted(Executed(w, request))
  {
    var r, c := Executed(w, request), w.requests[request];
    assert Honest(w.issued, w.released, c);
    forall q | q in r.replies && r.replies[q] && q < |r.requests| && r.requests[q].Set?
      ensures WasHeld(r.holds, r.requests[q].key, r.requests[q].token)
    {
      if q == request {
        assert r.holds[|w.holds|] == Hold(c.key, c.token, w.now, w.now + c.ttl);
      } else {
        ApplyKeepsHeld(w, c, w.requests[q].key, w.requests[q].token);
      }
    }
    forall t | t in r.got ensures t < |r.issued| && WasHeld(r.holds, r.issued[t].key, t) {
      ApplyKeepsHeld(w, c, w.issued[t].key, t);
    }
  }

  lemma {:induction false} OtherStep(w: World, s: Step)
    requires !s.Execute?
    ensures var r := Next(w, s); r.holds == w.holds && r.store == w.store && r.replies == w.replies
  {
  }

  /** acquire returns the token of its own granted request. */
  lemma {:induction false} OtherGot(w: World, s: Step, t: nat)
    requires !s.Execute? && t in Next(w, s).got && t !in w.got
    ensures s.Answer? && Waits(w, s.client) && w.calls[s.client].token == t &&
            w.calls[s.client].request in w.replies && w.replies[w.calls[s.client].request]
  {
  }

  lemma {:induction false} OtherGranted(w: World, s: Step)
    requires Granted(w) && AllHonest(w) && Paired(w) && !s.Execute?
    ensures Granted(Next(w, s))
  {
    var r := Next(w, s);
    OtherStep(w, s);
    OnlyGrow(w, s);
    forall t | t in r.got ensures t < |r.issued| && WasHeld(r.holds, r.issued[t].key, t) {
      if t !in w.got {
        OtherGot(w, s, t);
        var q := w.calls[s.client].request;
        assert Honest(w.issued, w.released, w.requests[q]);
      }
    }
  }

  // ------------------------------------------------------------------ over every run

  ghost predicate Inv(w: World) {
    Disjoint(w.holds) && Mirrors(w.holds, w.store, w.now) && AllHonest(w) && Paired(w) && Granted(w)
  }

  lemma {:induction false} StepKeeps(w: World, s: Step)
    requires Inv(w)
    ensures Inv(Next(w, s))
  {
    StepHonest(w, s);
    StepPaired(w, s);
    if s.Execute? {
      if Executable(w, s.request) {
        ApplyDisjoint(w, w.requests[s.request]);
        ApplyMirrors(w, w.requests[s.request]);
        ExecuteGranted(w, s.request);
      }
    } else {
      OtherStep(w, s);
      OtherGranted(w, s);
    }
  }

  /** Every interleaving of every client, with any delays, losses and expiries, keeps the invariants. */
  lemma {:induction false} RunKeeps(steps: seq<Step>)
    ensures Inv(RunAll(START, steps))
  {
    RunInv(START, steps);
  }

  lemma {:induction false} RunInv(w: World, steps: seq<Step>)
    requires Inv(w)
    ensures Inv(RunAll(w, steps))
    decreases |steps|
  {
    if steps != [] {
      RunInv(w, steps[..|steps| - 1]);
      StepKeeps(RunAll(w, steps[..|steps| - 1]), steps[|steps| - 1]);
    }
  }

  lemma {:induction false} HoldsDisjoint(steps: seq<Step>)
    ensures Disjoint(RunAll(START, steps).holds)
  {
    RunKeeps(steps);
  }

  /** Some hold of the token on the key is open. */
  ghost predicate Holds(w: World, key: nat, token: nat) {
    exists i | 0 <= i < |w.holds| :: w.holds[i].key == key && w.holds[i].token == token && Open(w.holds[i], w.now)
  }

  lemma {:induction false} HeldInv(w: World, key: nat, token: nat)
    requires Inv(w)
    ensures Value(w, key) == Some(token) <==> Holds(w, key, token)
  {
    if Value(w, key) == Some(token) {
      assert Held(w.holds, key, w.store[key]);
      var i :| 0 <= i < |w.holds| && w.holds[i].key == key && w.holds[i].token == token &&
               w.holds[i].until == w.store[key].until;
      assert Open(w.holds[i], w.now);
    }
  }

  /** isHeldByMe: the key shows the token exactly when a hold of the token is open. */
  lemma {:induction false} HeldIff(steps: seq<Step>, key: nat, token: nat)
    ensures var w := RunAll(START, steps); Value(w, key) == Some(token) <==> Holds(w, key, token)
  {
    RunKeeps(steps);
    HeldInv(RunAll(START, steps), key, token);
  }

  /** While two tokens are each inside a hold, they are on different keys: no two clients hold one lock at once. */
  lemma {:induction false} OneHolder(steps: seq<Step>, key: nat, a: nat, b: nat)
    ensures var w := RunAll(START, steps); Holds(w, key, a) && Holds(w, key, b) ==> a == b
  {
    HeldIff(steps, key, a);
    HeldIff(steps, key, b);
  }

  /** A token acquire returned was granted by the server, on its own key. */
  lemma {:induction false} AcquiredWasHeld(steps: seq<Step>, token: nat)
    requires token in RunAll(START, steps).got
    ensures var w := RunAll(START, steps); token < |w.issued| && WasHeld(w.holds, w.issued[token].key, token)
  {
    RunKeeps(steps);
  }

  /** Nobody holds the key. */
  ghost predicate Free(w: World, key: nat) {
    forall token: nat :: !Holds(w, key, token)
  }

  lemma {:induction false} FreeIff(w: World, key: nat)
    requires Inv(w)
    ensures Free(w, key) <==> !Live(w, key)
  {
    forall token: nat ensures Holds(w, key, token) <==> Value(w, key) == Some(token) {
      HeldInv(w, key, token);
    }
    if Live(w, key) {
      assert Holds(w, key, w.store[key].token);
    }
  }

  /** The four steps of an acquire call that meets no delay and no loss. */
  function Prompt(w: World, client: nat, key: nat, ttl: int): (r: World) {
    Next(Next(Next(Next(w, Acquire(client, key, ttl)), Send(client)), Execute(|w.requests|)), Answer(client))
  }

  /** What they come to. */
  lemma {:induction false} PromptIs(w: World, client: nat, key: nat, ttl: int)
    requires client !in w.calls
    ensures var (r, token, granted) := (Prompt(w, client, key, ttl), |w.issued|, ttl > 0 && !Live(w, key));
            && r.got == (if granted then w.got + {token} else w.got) && r.now == w.now
            && r.holds == (if granted then w.holds + [Hold(key, token, w.now, w.now + ttl)] else w.holds)
  {
    var token, n := |w.issued|, |w.requests|;
    var a := Next(w, Acquire(client, key, ttl));
    assert Tries(a, client) && Asked(a, client) == Set(key, token, ttl);
    var b := Next(a, Send(client));
    assert Executable(b, n) && b.requests[n] == Set(key, token, ttl);
    assert Grants(b, Set(key, token, ttl)) <==> ttl > 0 && !Live(w, key);
    var c := Next(b, Execute(n));
    assert Waits(c, client) && c.calls[client].request == n && n in c.replies;
  }

  /** After every run, such a call gets the lock if and only if its ttl is positive and nobody holds the key. */
  lemma {:induction false} AcquireIff(steps: seq<Step>, client: nat, key: nat, ttl: int)
    requires client !in RunAll(START, steps).calls
    ensures var w := RunAll(START, steps);
            var (r, token) := (Prompt(w, client, key, ttl), |w.issued|);
            && (token in r.got <==> ttl > 0 && Free(w, key))
            && (token in r.got ==> Holds(r, key, token))
  {
    var w := RunAll(START, steps);
    RunKeeps(steps);
    FreeIff(w, key);
    PromptIs(w, client, key, ttl);
    assert |w.issued| !in w.got;
    var r := Prompt(w, client, key, ttl);
    if ttl > 0 && Free(w, key) {
      assert Open(r.holds[|w.holds|], r.now);
    }
  }

  // ------------------------------------------------------------------ releases

  /** A release succeeds exactly when a hold of its token is open; otherwise it changes neither key nor history. */
  lemma {:induction false} ReleaseIff(steps: seq<Step>, key: nat, token: nat)
    ensures var w := RunAll(START, steps);
            && (Grants(w, Del(key, token)) <==> Holds(w, key, token))
            && (!Holds(w, key, token) ==> Apply(w, Del(key, token)) == w)
            && (Holds(w, key, token) ==> Value(Apply(w, Del(key, token)), key) == None)
  {
    HeldIff(steps, key, token);
  }

  /** Step n executes the request and grants it. */
  ghost predicate GrantedAt(w: World, steps: seq<Step>, n: nat, request: nat) {
    && n < |steps| && steps[n] == Execute(request)
    && Executable(RunAll(w, steps[..n]), request)
    && Grants(RunAll(w, steps[..n]), RunAll(w, steps[..n]).requests[request])
  }

  /** Some step of the run does. */
  ghost predicate EverGranted(w: World, steps: seq<Step>, request: nat) {
    exists n: nat :: GrantedAt(w, steps, n, request)
  }

  lemma {:induction false} RequestsGrow(w: World, steps: seq<Step>)
    ensures w.requests <= RunAll(w, steps).requests && w.released <= RunAll(w, steps).released
    decreases |steps|
  {
    if steps != [] {
      RequestsGrow(w, steps[..|steps| - 1]);
      OnlyGrow(RunAll(w, steps[..|steps| - 1]), steps[|steps| - 1]);
    }
  }

  lemma {:induction false} GrantedLater(w: World, steps: seq<Step>, request: nat)
    requires steps != [] && EverGranted(w, steps[..|steps| - 1], request)
    ensures EverGranted(w, steps, request)
  {
    var init := steps[..|steps| - 1];
    var n: nat :| GrantedAt(w, init, n, request);
    assert steps[..n] == init[..n];
    assert GrantedAt(w, steps, n, request);
  }

  /** A reply that reports success is there from before, or a step of the run executed and granted its request. */
  lemma {:induction false} RepliesAre(w: World, steps: seq<Step>, request: nat)
    requires request in RunAll(w, steps).replies && RunAll(w, steps).replies[request]
    ensures (request in w.replies && w.replies[request]) || EverGranted(w, steps, request)
    decreases |steps|
  {
    if steps != [] {
      var init, s := steps[..|steps| - 1], steps[|steps| - 1];
      var u := RunAll(w, init);
      if s == Execute(request) && Executable(u, request) {
        assert GrantedAt(w, steps, |steps| - 1, request);
      } else {
        ReplyStays(u, s, request);
        RepliesAre(w, init, request);
        if !(request in w.replies && w.replies[request]) {
          GrantedLater(w, steps, request);
        }
      }
    }
  }

  lemma {:induction false} ReplyStays(w: World, s: Step, request: nat)
    requires request in Next(w, s).replies && !(s == Execute(request) && Executable(w, request))
    ensures request in w.replies && w.replies[request] == Next(w, s).replies[request]
  {
  }

  /** Step n executes the request while a hold of the token on the key is open. */
  ghost predicate HeldAt(w: World, steps: seq<Step>, n: nat, request: nat, key: nat, token: nat) {
    n < |steps| && steps[n] == Execute(request) && Holds(RunAll(w, steps[..n]), key, token)
  }

  ghost predicate DeletedWhileHeld(w: World, steps: seq<Step>, request: nat, key: nat, token: nat) {
    exists n: nat :: HeldAt(w, steps, n, request, key, token)
  }

  /** A new delete that is answered with success was executed while its token held the key. */
  lemma {:induction false} NewDeleteHeld(w: World, key: nat, token: nat, during: seq<Step>)
    requires Inv(w)
    ensures var (u, request) := (Next(w, Release(key, token)), |w.requests|);
            var r := RunAll(u, during);
            request in r.replies && r.replies[request] ==> DeletedWhileHeld(u, during, request, key, token)
  {
    var u, request := Next(w, Release(key, token)), |w.requests|;
    var r := RunAll(u, during);
    if request in r.replies && r.replies[request] {
      RepliesAre(u, during, request);
      assert request !in u.replies;
      var n: nat :| GrantedAt(u, during, n, request);
      RequestsGrow(u, during[..n]);
      assert u.requests[request] == Del(key, token);
      StepKeeps(w, Release(key, token));
      RunInv(u, during[..n]);
      HeldInv(RunAll(u, during[..n]), key, token);
      assert HeldAt(u, during, n, request, key, token);
    }
  }

  /** In every run a release that is answered with success deleted the key, during the call, while its token held it. */
  lemma {:induction false} TrueReleaseWasHeld(before: seq<Step>, key: nat, token: nat, during: seq<Step>)
    ensures var (u, request) := (RunAll(START, before + [Release(key, token)]), |RunAll(START, before).requests|);
            var r := RunAll(u, during);
            request in r.replies && r.replies[request] ==> DeletedWhileHeld(u, during, request, key, token)
  {
    RunKeeps(before);
    ThenStep(START, before, Release(key, token));
    NewDeleteHeld(RunAll(START, before), key, token, during);
  }

  /** A stale release fails: if no hold of the token is open at any moment of the call, success is never answered. */
  lemma {:induction false} StaleReleaseFails(before: seq<Step>, key: nat, token: nat, during: seq<Step>)
    requires var u := RunAll(START, before + [Release(key, token)]);
             forall n | 0 <= n <= |during| :: !Holds(RunAll(u, during[..n]), key, token)
    ensures var (u, request) := (RunAll(START, before + [Release(key, token)]), |RunAll(START, before).requests|);
            var r := RunAll(u, during);
            request in r.replies ==> !r.replies[request]
  {
    TrueReleaseWasHeld(before, key, token, during);
  }

  // ------------------------------------------------------------------ how long a hold lasts

  /** Step n deletes the hold's own token from its own key while hold i is open. */
  ghost predicate CutAt(steps: seq<Step>, n: nat, i: nat) {
    && n < |steps| && steps[n].Execute?
    && var u := RunAll(START, steps[..n]);
       && Executable(u, steps[n].request) && i < |u.holds| && Open(u.holds[i], u.now)
       && u.requests[steps[n].request] == Del(u.holds[i].key, u.holds[i].token)
  }

  /** What a step may do to a hold: end it now, by executing a delete of its token on its key; nothing else. */
  lemma {:induction false} StepHold(w: World, s: Step, i: nat)
    requires Inv(w) && i < |w.holds|
    ensures i < |Next(w, s).holds|
    ensures var cut := s.Execute? && Executable(w, s.request) && Open(w.holds[i], w.now) &&
                       w.requests[s.request] == Del(w.holds[i].key, w.holds[i].token);
            Next(w, s).holds[i] == if cut then w.holds[i].(until := w.now) else w.holds[i]
  {
    if s.Execute? && Executable(w, s.request) {
      var h := w.holds[i];
      if Open(h, w.now) {
        assert w.store[h.key] == Entry(h.token, h.until);
      }
    }
  }

  /** A hold as it was granted: by a SET of its token, for the ttl asked for. */
  lemma {:induction false} StepNewHold(w: World, s: Step, i: nat)
    requires Inv(w) && |w.holds| <= i < |Next(w, s).holds|
    ensures var h := Next(w, s).holds[i];
            h.token < |w.issued| && h.from == w.now && h.until == w.now + w.issued[h.token].ttl && h.until > h.from &&
            Next(w, s).now == w.now
  {
    assert s.Execute? && Executable(w, s.request);
    assert Honest(w.issued, w.released, w.requests[s.request]);
  }

  ghost predicate EverCut(steps: seq<Step>, i: nat) {
    exists n: nat :: CutAt(steps, n, i)
  }

  /** In every run a hold ends before its ttl if and only if a delete of its own token is executed while it is open. */
  lemma {:induction false} EndsEarlyIff(steps: seq<Step>, i: nat)
    requires i < |RunAll(START, steps).holds|
    ensures var w := RunAll(START, steps);
            var h := w.holds[i];
            && h.token < |w.issued| && h.until <= h.from + w.issued[h.token].ttl
            && (h.until < h.from + w.issued[h.token].ttl <==> EverCut(steps, i))
    decreases |steps|
  {
    if steps != [] {
      var init, s := steps[..|steps| - 1], steps[|steps| - 1];
      var u := RunAll(START, init);
      RunKeeps(init);
      OnlyGrow(u, s);
      CutsOfRun(steps, i);
      if i < |u.holds| {
        EndsEarlyIff(init, i);
        StepHold(u, s, i);
      } else {
        StepNewHold(u, s, i);
        NoCutYet(init, i);
      }
    }
  }

  /** The cuts of a run are those of its beginning, and perhaps its last step. */
  lemma {:induction false} CutsOfRun(steps: seq<Step>, i: nat)
    requires steps != []
    ensures EverCut(steps, i) <==> EverCut(steps[..|steps| - 1], i) || CutAt(steps, |steps| - 1, i)
  {
    var init := steps[..|steps| - 1];
    forall n: nat | n < |init| ensures CutAt(steps, n, i) <==> CutAt(init, n, i) {
      assert init[..n] == steps[..n];
    }
    if EverCut(init, i) {
      var n: nat :| CutAt(init, n, i);
      assert CutAt(steps, n, i);
    }
    if EverCut(steps, i) {
      var n: nat :| CutAt(steps, n, i);
      assert n < |init| ==> CutAt(init, n, i);
    }
  }

  lemma {:induction false} HoldsGrow(w: World, steps: seq<Step>)
    ensures |w.holds| <= |RunAll(w, steps).holds|
    decreases |steps|
  {
    if steps != [] {
      HoldsGrow(w, steps[..|steps| - 1]);
      HoldsGrowStep(RunAll(w, steps[..|steps| - 1]), steps[|steps| - 1]);
    }
  }

  lemma {:induction false} HoldsGrowStep(w: World, s: Step)
    ensures |w.holds| <= |Next(w, s).holds|
  {
  }

  /** A hold that a run has not granted yet was not cut in it. */
  lemma {:induction false} NoCutYet(steps: seq<Step>, i: nat)
    requires |RunAll(START, steps).holds| <= i
    ensures !EverCut(steps, i)
  {
    forall n: nat | n <= |steps| ensures |RunAll(START, steps[..n]).holds| <= i {
      assert steps == steps[..n] + steps[n..];
      RunAllAppend(START, steps[..n], steps[n..]);
      HoldsGrow(RunAll(START, steps[..n]), steps[n..]);
    }
  }

  /** A hold is cut only if its key and token were released. */
  lemma {:induction false} CutNeedsRelease(steps: seq<Step>, i: nat)
    requires EverCut(steps, i) && i < |RunAll(START, steps).holds|
    ensures var w := RunAll(START, steps); (w.holds[i].key, w.holds[i].token) in w.released
  {
    var n: nat :| CutAt(steps, n, i);
    var u := RunAll(START, steps[..n]);
    RunKeeps(steps[..n]);
    assert Honest(u.issued, u.released, u.requests[steps[n].request]);
    assert steps == steps[..n] + steps[n..];
    RunAllAppend(START, steps[..n], steps[n..]);
    RequestsGrow(u, steps[n..]);
    HoldStays(u, steps[n..], i);
  }

  lemma {:induction false} HoldStays(w: World, steps: seq<Step>, i: nat)
    requires i < |w.holds|
    ensures var r := RunAll(w, steps);
            i < |r.holds| && r.holds[i].key == w.holds[i].key && r.holds[i].token == w.holds[i].token
    decreases |steps|
  {
    if steps != [] {
      HoldStays(w, steps[..|steps| - 1], i);
      HoldStaysStep(RunAll(w, steps[..|steps| - 1]), steps[|steps| - 1], i);
    }
  }

  lemma {:induction false} HoldStaysStep(w: World, s: Step, i: nat)
    requires i < |w.holds|
    ensures var r := Next(w, s);
            i < |r.holds| && r.holds[i].key == w.holds[i].key && r.holds[i].token == w.holds[i].token
  {
  }

  /** A grant whose token was not released is still held exactly while less than its ttl has passed since the grant. */
  lemma {:induction false} HeldForTtl(steps: seq<Step>, i: nat)
    requires var w := RunAll(START, steps); i < |w.holds| && (w.holds[i].key, w.holds[i].token) !in w.released
    ensures var w := RunAll(START, steps);
            && w.holds[i].token < |w.issued|
            && (Open(w.holds[i], w.now) <==> w.now < w.holds[i].from + w.issued[w.holds[i].token].ttl)
  {
    RunKeeps(steps);
    EndsEarlyIff(steps, i);
    if EverCut(steps, i) {
      CutNeedsRelease(steps, i);
    }
  }

  /** Some grant of the token is less than its ttl ago. */
  ghost predicate WithinTtl(w: World, token: nat) {
    exists i | 0 <= i < |w.holds| ::
      w.holds[i].token == token && token < |w.issued| && w.now < w.holds[i].from + w.issued[token].ttl
  }

  /** acquire returned the token, and nobody released it. */
  predicate Kept(w: World, token: nat) {
    token in w.got && token < |w.issued| && (w.issued[token].key, token) !in w.released
  }

  /** A token that acquire returned and nobody released holds its key exactly while a grant of it is within its ttl. */
  lemma {:induction false} ReturnedHeldIff(steps: seq<Step>, token: nat)
    requires Kept(RunAll(START, steps), token)
    ensures var w := RunAll(START, steps); Holds(w, w.issued[token].key, token) <==> WithinTtl(w, token)
  {
    var w := RunAll(START, steps);
    RunKeeps(steps);
    forall i | 0 <= i < |w.holds| && w.holds[i].token == token
      ensures w.holds[i].key == w.issued[token].key
      ensures Open(w.holds[i], w.now) <==> w.now < w.holds[i].from + w.issued[token].ttl
    {
      HeldForTtl(steps, i);
    }
  }

  /** Of the tokens returned for one key and not released, at most one is within its ttl. */
  lemma {:induction false} OneWithinTtl(steps: seq<Step>, a: nat, b: nat)
    requires var w := RunAll(START, steps); Kept(w, a) && Kept(w, b) && w.issued[a].key == w.issued[b].key
    ensures var w := RunAll(START, steps); WithinTtl(w, a) && WithinTtl(w, b) ==> a == b
  {
    ReturnedHeldIff(steps, a);
    ReturnedHeldIff(steps, b);
    OneHolder(steps, RunAll(START, steps).issued[a].key, a, b);
  }

  /**
   Past its ttl a client may still think it has the lock: two calls have returned tokens for one key, none released.
   */
  lemma {:induction false} ReturnedTokensMayOverlap()
    ensures exists steps :: BothReturned(RunAll(START, steps))
  {
    var one := [Acquire(0, 7, 5), Send(0), Execute(0), Answer(0), Pass(5)];
    var two := [Acquire(1, 7, 5), Send(1), Execute(1), Answer(1)];
    FirstRun(one);
    SecondRun(two);
    var steps := one + two;
    RunAllAppend(START, one, two);
    assert BothReturned(RunAll(START, steps));
  }

  predicate BothReturned(w: World) {
    |w.issued| == 2 && w.issued[0].key == w.issued[1].key && Kept(w, 0) && Kept(w, 1)
  }

  const AFTER_FIRST: World :=
    World(5, map[7 := Entry(0, 5)], [Hold(7, 0, 0, 5)], [Ticket(0, 7, 5)], map[], {0}, {}, [Set(7, 0, 5)], {},
          map[0 := true])

  lemma {:induction false} FirstRun(one: seq<Step>)
    requires one == [Acquire(0, 7, 5), Send(0), Execute(0), Answer(0), Pass(5)]
    ensures RunAll(START, one) == AFTER_FIRST
  {
    RunFour(START, one[..4]);
    FirstReturned();
  }

  lemma {:induction false} SecondRun(two: seq<Step>)
    requires two == [Acquire(1, 7, 5), Send(1), Execute(1), Answer(1)]
    ensures BothReturned(RunAll(AFTER_FIRST, two))
  {
    RunFour(AFTER_FIRST, two);
    SecondReturned();
  }

  lemma {:induction false} RunFour(w: World, s: seq<Step>)
    requires |s| == 4
    ensures RunAll(w, s) == Next(Next(Next(Next(w, s[0]), s[1]), s[2]), s[3])
  {
    assert s[..3][..2] == s[..2] && s[..2][..1] == s[..1] && s[..1][..0] == [];
    assert RunAll(w, s[..1]) == Next(w, s[0]);
    assert RunAll(w, s[..2]) == Next(RunAll(w, s[..1]), s[1]);
    assert RunAll(w, s[..3]) == Next(RunAll(w, s[..2]), s[2]);
  }

  lemma {:induction false} FirstReturned()
    ensures Next(Next(Next(Next(Next(START, Acquire(0, 7, 5)), Send(0)), Execute(0)), Answer(0)), Pass(5)) ==
            AFTER_FIRST
  {
    var b := Next(Next(START, Acquire(0, 7, 5)), Send(0));
    assert b.requests == [Set(7, 0, 5)] && b.wire == {0} && b.calls == map[0 := Waiting(0, 5, 0)];
    var c := Next(b, Execute(0));
    assert c.wire == {} && c.store == map[7 := Entry(0, 5)];
    assert Next(c, Answer(0)).calls == map[];
  }

  lemma {:induction false} SecondReturned()
    ensures BothReturned(Next(Next(Next(Next(AFTER_FIRST, Acquire(1, 7, 5)), Send(1)), Execute(1)), Answer(1)))
  {
    var b := Next(Next(AFTER_FIRST, Acquire(1, 7, 5)), Send(1));
    assert b.requests == [Set(7, 0, 5), Set(7, 1, 5)] && b.wire == {1} && b.calls == map[1 := Waiting(1, 5, 1)];
    assert b.issued == [Ticket(0, 7, 5), Ticket(1, 7, 5)];
    var c := Next(b, Execute(1));
    assert c.replies[1] && c.calls == b.calls;
  }

  // ------------------------------------------------------------------ the client's code

  /** What one try of the retry loop meets: whether the pool has a connection, what the rest of the world does before
      the reply and during the sleep, whether the reply is received, and whether the deadline has then passed. */
  datatype Attempt = Attempt(connected: bool, during: seq<Step>, received: bool, late: bool, asleep: seq<Step>)

  datatype Outcome = Token(token: nat) | Failed | StillTrying

  predicate ByCall(client: nat, s: Step) {
    (s.Acquire? || s.Send? || s.Answer? || s.NoAnswer? || s.GiveUp?) && s.client == client
  }

  /** Steps of the server, the network and the other clients' calls. */
  predicate Elsewhere(client: nat, steps: seq<Step>) {
    forall i | 0 <= i < |steps| :: !ByCall(client, steps[i])
  }

  lemma {:induction false} ElsewhereKeeps(w: World, client: nat, steps: seq<Step>)
    requires client in w.calls && Elsewhere(client, steps)
    ensures var r := RunAll(w, steps); client in r.calls && r.calls[client] == w.calls[client] && w.issued <= r.issued
    decreases |steps|
  {
    if steps != [] {
      var init := steps[..|steps| - 1];
      ElsewhereKeeps(w, client, init);
      ElsewhereCall(RunAll(w, init), client, steps[|steps| - 1]);
      OnlyGrow(RunAll(w, init), steps[|steps| - 1]);
    }
  }

  lemma {:induction false} ElsewhereCall(w: World, client: nat, s: Step)
    requires client in w.calls && !ByCall(client, s)
    ensures client in Next(w, s).calls && Next(w, s).calls[client] == w.calls[client]
  {
  }

  lemma {:induction false} Sends(w: World, client: nat)
    requires Tries(w, client)
    ensures var r := Next(w, Send(client));
            Waits(r, client) && r.issued == w.issued && r.replies == w.replies &&
            r.calls[client] == Waiting(w.calls[client].token, w.calls[client].ttl, |w.requests|)
  {
  }

  lemma {:induction false} Sandwich(w: World, a: Step, b: seq<Step>, c: Step)
    ensures RunAll(w, [a] + b + [c]) == Next(RunAll(Next(w, a), b), c)
  {
    OneStep(w, a);
    RunAllAppend(w, [a], b);
    ThenStep(w, [a] + b, c);
  }

  /** The lock as its clients' code works it; world is everything there is, the server included. */
  class Redlock {
    var world: World

    constructor ()
      ensures world == START && Inv(world)
    {
      world := START;
    }

    method Perform(steps: seq<Step>)
      modifies this
      ensures world == RunAll(old(world), steps)
    {
      var i := 0;
      while i < |steps|
        invariant i <= |steps| && world == RunAll(old(world), steps[..i])
      {
        assert steps[..i + 1][..i] == steps[..i];
        world := Next(world, steps[i]);
        i := i + 1;
      }
      assert steps[..i] == steps;
    }

    /** Reads the reply to the client's own SET, if it is received. */
    method ReadReply(client: nat, received: bool) returns (ok: bool, answer: Step)
      requires Waits(world, client)
      modifies this
      ensures world == Next(old(world), answer) && world.issued == old(world.issued)
      ensures ok <==> received &&
                      var q := old(world.calls[client].request); q in old(world.replies) && old(world.replies)[q]
      ensures ok ==> old(world.calls[client].token) in world.got && client !in world.calls
      ensures !ok ==> client in world.calls && world.calls[client] == Again(old(world.calls[client]))
    {
      var request := world.calls[client].request;
      if received && request in world.replies {
        ok, answer := world.replies[request], Answer(client);
      } else {
        ok, answer := false, NoAnswer(client);
      }
      world := Next(world, answer);
    }

    /**
     trySet: true exactly when the reply to this very SET is received and grants it; a lost reply counts as a refusal.
     */
    method TrySet(client: nat, a: Attempt) returns (ok: bool, ghost steps: seq<Step>)
      requires Tries(world, client) && Elsewhere(client, a.during)
      modifies this
      ensures world == RunAll(old(world), steps) && old(world.issued) <= world.issued
      ensures ok <==> a.connected && a.received &&
                      var r := RunAll(Next(old(world), Send(client)), a.during);
                      |old(world.requests)| in r.replies && r.replies[|old(world.requests)|]
      ensures ok ==> old(world.calls[client].token) in world.got && client !in world.calls
      ensures !ok ==> Tries(world, client) && world.calls[client] == old(world.calls[client])
    {
      if !a.connected {
        return false, [];
      }
      ghost var w := world;
      Sends(w, client);
      world := Next(world, Send(client));
      ElsewhereKeeps(world, client, a.during);
      Perform(a.during);
      var answer;
      ok, answer := ReadReply(client, a.received);
      steps := [Send(client)] + a.during + [answer];
      Sandwich(w, Send(client), a.during, answer);
    }

    /** One turn of the retry loop: try, then give up or sleep. */
    method TryOnce(client: nat, a: Attempt, maxWaitMs: int, ghost start: World, ghost before: seq<Step>)
      returns (r: Outcome, ghost steps: seq<Step>)
      requires Tries(world, client) && world == RunAll(start, before)
      requires Elsewhere(client, a.during) && Elsewhere(client, a.asleep)
      modifies this
      ensures world == RunAll(start, steps) && old(world.issued) <= world.issued
      ensures r.Token? ==> r.token == old(world.calls[client].token) && r.token in world.got
      ensures r.StillTrying? ==> maxWaitMs != 0 && !a.late && Tries(world, client)
      ensures r.StillTrying? ==> world.calls[client] == old(world.calls[client])
      ensures r.Failed? ==> maxWaitMs == 0 || a.late
      ensures !r.StillTrying? ==> client !in world.calls
    {
      var token := world.calls[client].token;
      var ok, more := TrySet(client, a);
      RunAllAppend(start, before, more);
      steps := before + more;
      if ok {
        return Token(token), steps;
      }
      if maxWaitMs == 0 || a.late {
        ThenStep(start, steps, GiveUp(client));
        world := Next(world, GiveUp(client));
        return Failed, steps + [GiveUp(client)];
      }
      ElsewhereKeeps(world, client, a.asleep);
      RunAllAppend(start, steps, a.asleep);
      Perform(a.asleep);
      return StillTrying, steps + a.asleep;
    }

    /** acquire: a fresh token, retried until granted or out of time; maxWaitMs of 0 means one try. */
    method Acquire(client: nat, key: nat, ttl: int, maxWaitMs: int, attempts: seq<Attempt>)
      returns (r: Outcome, ghost steps: seq<Step>)
      requires client !in world.calls
      requires forall i | 0 <= i < |attempts| ::
                 Elsewhere(client, attempts[i].during) && Elsewhere(client, attempts[i].asleep)
      modifies this
      ensures world == RunAll(old(world), steps) && old(world.issued) + [Ticket(client, key, ttl)] <= world.issued
      ensures r.Token? ==> r.token == |old(world.issued)| && r.token in world.got
      ensures r.StillTrying? ==> maxWaitMs != 0 || attempts == []
      ensures r.StillTrying? ==> forall i | 0 <= i < |attempts| :: !attempts[i].late
      ensures r.Failed? ==> attempts != [] && (maxWaitMs == 0 || exists i :: 0 <= i < |attempts| && attempts[i].late)
      ensures !r.StillTrying? ==> client !in world.calls
    {
      ghost var start := world;
      OneStep(world, Step.Acquire(client, key, ttl));
      steps := [Step.Acquire(client, key, ttl)];
      world := Next(world, Step.Acquire(client, key, ttl));
      r := StillTrying;
      var n := 0;
      while r.StillTrying? && n < |attempts|
        invariant n <= |attempts| && world == RunAll(start, steps)
        invariant start.issued + [Ticket(client, key, ttl)] <= world.issued
        invariant r.StillTrying? ==> Tries(world, client) && world.calls[client] == Trying(|start.issued|, ttl)
        invariant r.StillTrying? ==> (maxWaitMs != 0 || n == 0) && forall i | 0 <= i < n :: !attempts[i].late
        invariant r.Token? ==> r.token == |start.issued| && r.token in world.got
        invariant r.Failed? ==> n > 0 && (maxWaitMs == 0 || attempts[n - 1].late)
        invariant !r.StillTrying? ==> client !in world.calls
      {
        r, steps := TryOnce(client, attempts[n], maxWaitMs, start, steps);
        n := n + 1;
      }
    }

    /**
     release, of any key with any token, or with none: true exactly when the reply to this very delete is received and
     reports success, and then the delete was executed during the call, while the token held the key.
     */
    method ReleaseLock(key: nat, token: Option<nat>, connected: bool, during: seq<Step>, received: bool)
      returns (ok: bool, ghost steps: seq<Step>)
      requires Inv(world)
      modifies this
      ensures world == RunAll(old(world), steps) && Inv(world)
      ensures ok ==> token.Some? && connected && received && steps == [Release(key, token.value)] + during
      ensures ok ==> DeletedWhileHeld(Next(old(world), Release(key, token.value)), during,
                                      |old(world.requests)|, key, token.value)
      ensures token.Some? && connected && received ==>
                (ok <==> |old(world.requests)| in world.replies && world.replies[|old(world.requests)|])
    {
      if token.None? || !connected {
        return false, [];
      }
      ghost var w := world;
      var release, request := Release(key, token.value), |world.requests|;
      OneStep(world, release);
      RunAllAppend(world, [release], during);
      world := Next(world, release);
      Perform(during);
      NewDeleteHeld(w, key, token.value, during);
      steps := [release] + during;
      RunInv(w, steps);
      ok := received && request in world.replies && world.replies[request];
    }
  }
}
