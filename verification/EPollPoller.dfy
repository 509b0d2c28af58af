/**
 Channels registered with epoll: the poller's table, each channel's index and the kernel's interest list stay in step,
 and no epoll_ctl call is ever refused. Every fd has at most one channel at a time.
 */
module EPollPoller {
  import opened Bytes

  const NO_EVENTS: bv8 := 0
  const READ_EVENTS: bv8 := 3
  const WRITE_EVENTS: bv8 := 4

  datatype Index = New | Added | Deleted

  datatype Op = Add | Mod | Del

  /**
   All there is about one fd: its channel's events_ and index, whether channels_ lists it, the mask the kernel holds
   for it, and whether the kernel has refused a call for it.
   */
  datatype Entry = Entry(events: bv8, index: Index, listed: bool, kernel: Option<bv8>, refused: bool)

  const UNREGISTERED: Entry := Entry(NO_EVENTS, New, false, None, false)

  // ------------------------------------------------------------------ the poller

  /** epoll_ctl: adding needs the fd absent, modifying and deleting need it present. */
  function Ctl(e: Entry, op: Op): (r: Entry) {
    if op.Add? == e.kernel.Some? then e.(refused := true)
    else if op.Del? then e.(kernel := None)
    else e.(kernel := Some(e.events))
  }

  function Updated(e: Entry): (r: Entry) {
    if !e.index.Added? then Ctl(e.(index := Added, listed := e.index.New? || e.listed), Add)
    else if e.events == NO_EVENTS then Ctl(e, Del).(index := Deleted)
    else Ctl(e, Mod)
  }

  function Removed(e: Entry): (r: Entry) {
    var f := e.(listed := false);
    (if e.index.Added? then Ctl(f, Del) else f).(index := New)
  }

  // ------------------------------------------------------------------ the channel

  datatype Call = EnableReading | DisableReading | EnableWriting | DisableWriting | DisableAll | Remove

  function Mask(c: Call, events: bv8): (r: bv8) {
    match c
    case EnableReading => events | READ_EVENTS
    case DisableReading => events & !READ_EVENTS
    case EnableWriting => events | WRITE_EVENTS
    case DisableWriting => events & !WRITE_EVENTS
    case DisableAll => NO_EVENTS
    case Remove => events
  }

  function After(e: Entry, c: Call): (r: Entry) {
    if c.Remove? then Removed(e) else Updated(e.(events := Mask(c, e.events)))
  }

  // ------------------------------------------------------------------ runs

  type World = map<int, Entry>

  /** Channels come and go: one is created on an fd that has none, and destroyed only after it was removed. */
  datatype Step = Create(fd: int) | Use(fd: int, call: Call) | Destroy(fd: int)

  function Next(w: World, s: Step): (r: World) {
    match s
    case Create(fd) => if fd in w then w else w[fd := UNREGISTERED]
    case Use(fd, call) => if fd in w then w[fd := After(w[fd], call)] else w
    case Destroy(fd) => if fd in w && w[fd].index.New? then w - {fd} else w
  }

  function RunAll(steps: seq<Step>): (r: World) {
    if steps == [] then map[] else Next(RunAll(steps[..|steps| - 1]), steps[|steps| - 1])
  }

  /** Index, table and kernel agree, and every call so far was legal. */
  predicate Consistent(e: Entry) {
    && (e.index.Added? <==> e.kernel.Some?)
    && (e.index.Added? ==> e.kernel == Some(e.events))
    && (e.listed <==> !e.index.New?)
    && !e.refused
  }

  lemma {:induction false} CallConsistent(e: Entry, c: Call)
    requires Consistent(e)
    ensures Consistent(After(e, c))
  {
  }

  /** In every run, for every fd with a channel. */
  lemma {:induction false} AlwaysConsistent(steps: seq<Step>, fd: int)
    requires fd in RunAll(steps)
    ensures Consistent(RunAll(steps)[fd])
    decreases |steps|
  {
    var init, s := steps[..|steps| - 1], steps[|steps| - 1];
    var w := RunAll(init);
    if fd in w {
      AlwaysConsistent(init, fd);
      if s.Use? && s.fd == fd {
        CallConsistent(w[fd], s.call);
      }
    }
  }

  // ------------------------------------------------------------------ what the kernel watches

  /** What the calls since the channel was created last asked for. */
  function Wants(steps: seq<Step>, fd: int, on: Call, off: Call): (r: bool) {
    if steps == [] then false
    else
      var init, s := steps[..|steps| - 1], steps[|steps| - 1];
      if s == Create(fd) && fd !in RunAll(init) then false
      else if s == Use(fd, on) && fd in RunAll(init) then true
      else if s == Use(fd, off) || s == Use(fd, DisableAll) then false
      else Wants(init, fd, on, off)
  }

  function Interest(reading: bool, writing: bool): (r: bv8) {
    (if reading then READ_EVENTS else NO_EVENTS) | (if writing then WRITE_EVENTS else NO_EVENTS)
  }

  /** EPOLLIN and EPOLLPRI for reading, EPOLLOUT for writing. */
  lemma {:induction false} InterestIs(reading: bool, writing: bool)
    ensures Interest(reading, writing) == (if reading then 0x001 | 0x002 else 0) | (if writing then 0x004 else 0)
  {
  }

  lemma {:induction false} MaskIs(c: Call, reading: bool, writing: bool)
    ensures Mask(c, Interest(reading, writing)) ==
            Interest(if c.EnableReading? then true else if c.DisableReading? || c.DisableAll? then false else reading,
                     if c.EnableWriting? then true else if c.DisableWriting? || c.DisableAll? then false else writing)
  {
  }

  /** A call other than the two and DisableAll leaves a wish as it was. */
  lemma {:induction false} WantsAfter(steps: seq<Step>, fd: int, on: Call, off: Call, before: bool)
    requires steps != [] && fd in RunAll(steps[..|steps| - 1]) && on != off && on != DisableAll
    requires before == Wants(steps[..|steps| - 1], fd, on, off)
    ensures var s := steps[|steps| - 1];
            Wants(steps, fd, on, off) ==
              if s == Use(fd, on) then true else if s == Use(fd, off) || s == Use(fd, DisableAll) then false else before
  {
  }

  lemma {:induction false} EventsAfter(w: World, s: Step, fd: int)
    requires fd in w && fd in Next(w, s)
    ensures Next(w, s)[fd].events == if s.Use? && s.fd == fd then Mask(s.call, w[fd].events) else w[fd].events
  {
  }

  /** The mask is what was last asked for, reading and writing apart. */
  lemma {:induction false} EventsAreWanted(steps: seq<Step>, fd: int)
    requires fd in RunAll(steps)
    ensures RunAll(steps)[fd].events ==
            Interest(Wants(steps, fd, EnableReading, DisableReading), Wants(steps, fd, EnableWriting, DisableWriting))
    decreases |steps|
  {
    var init, s := steps[..|steps| - 1], steps[|steps| - 1];
    var w := RunAll(init);
    if fd in w {
      EventsAreWanted(init, fd);
      var reading := Wants(init, fd, EnableReading, DisableReading);
      var writing := Wants(init, fd, EnableWriting, DisableWriting);
      WantsAfter(steps, fd, EnableReading, DisableReading, reading);
      WantsAfter(steps, fd, EnableWriting, DisableWriting, writing);
      EventsAfter(w, s, fd);
      MaskIs(if s.Use? && s.fd == fd then s.call else Remove, reading, writing);
    } else {
      assert s == Create(fd);
    }
  }

  /** So in every run the kernel, whenever it holds an fd, watches exactly what was last asked for. */
  lemma {:induction false} KernelWatchesWanted(steps: seq<Step>, fd: int)
    requires fd in RunAll(steps) && RunAll(steps)[fd].kernel.Some?
    ensures RunAll(steps)[fd].kernel.value ==
            Interest(Wants(steps, fd, EnableReading, DisableReading), Wants(steps, fd, EnableWriting, DisableWriting))
  {
    AlwaysConsistent(steps, fd);
    EventsAreWanted(steps, fd);
  }

  /** Since the channel was created or removed it has made a call that registers it. */
  function Registered(steps: seq<Step>, fd: int): (r: bool) {
    if steps == [] then false
    else
      var init, s := steps[..|steps| - 1], steps[|steps| - 1];
      if fd !in RunAll(init) || s == Use(fd, Remove) then false
      else if s.Use? && s.fd == fd then true
      else Registered(init, fd)
  }

  /** The index tells who is registered, and deleted only who wants nothing. */
  predicate Faithful(e: Entry, registered: bool) {
    (e.index.New? <==> !registered) && (e.index.Deleted? ==> e.events == NO_EVENTS)
  }

  lemma {:induction false} AlwaysFaithful(steps: seq<Step>, fd: int)
    requires fd in RunAll(steps)
    ensures Faithful(RunAll(steps)[fd], Registered(steps, fd))
    decreases |steps|
  {
    var init := steps[..|steps| - 1];
    if fd in RunAll(init) {
      AlwaysFaithful(init, fd);
    }
  }

  /**
   No event is lost: in every run a registered channel that wants something is in the kernel with exactly that mask,
   and a channel that is not registered is not in the kernel.
   */
  lemma {:induction false} WantedIsWatched(steps: seq<Step>, fd: int)
    requires fd in RunAll(steps)
    ensures var wanted := Interest(Wants(steps, fd, EnableReading, DisableReading),
                                   Wants(steps, fd, EnableWriting, DisableWriting));
            && (Registered(steps, fd) && wanted != NO_EVENTS ==> RunAll(steps)[fd].kernel == Some(wanted))
            && (!Registered(steps, fd) ==> RunAll(steps)[fd].kernel == None)
  {
    AlwaysConsistent(steps, fd);
    AlwaysFaithful(steps, fd);
    EventsAreWanted(steps, fd);
  }

  // ------------------------------------------------------------------ dropping all interest

  /**
   Dropping all interest takes the fd out of the kernel exactly when it was registered: from any other state it is added
   with an empty mask.
   */
  lemma {:induction false} DisableAllIff(steps: seq<Step>, fd: int)
    requires fd in RunAll(steps)
    ensures After(RunAll(steps)[fd], DisableAll).kernel.None? <==> RunAll(steps)[fd].index.Added?
    ensures !RunAll(steps)[fd].index.Added? ==> After(RunAll(steps)[fd], DisableAll).kernel == Some(NO_EVENTS)
  {
    AlwaysConsistent(steps, fd);
  }

  /** Dropping all interest twice puts the fd back. */
  lemma {:induction false} DisableTwiceRegisters(fd: int)
    ensures var w := RunAll([Create(fd), Use(fd, EnableReading), Use(fd, DisableAll), Use(fd, DisableAll)]);
            fd in w && w[fd].kernel == Some(NO_EVENTS)
  {
    var steps := [Create(fd), Use(fd, EnableReading), Use(fd, DisableAll), Use(fd, DisableAll)];
    assert steps[..3][..2] == steps[..2] && steps[..2][..1] == steps[..1] && steps[..1][..0] == [];
    var one := RunAll(steps[..1]);
    assert RunAll([]) == map[] && steps[..1][0] == steps[0];
    assert one == Next(map[], steps[0]);
    var two := RunAll(steps[..2]);
    assert two == Next(one, steps[1]) && two[fd] == Entry(READ_EVENTS, Added, true, Some(READ_EVENTS), false);
    var three := RunAll(steps[..3]);
    assert three == Next(two, steps[2]) && three[fd].index == Deleted;
  }

  // ------------------------------------------------------------------ the code

  class Channel {
    const fd: int
    var events: bv8
    var index: Index

    constructor (fd: int)
      ensures this.fd == fd && events == NO_EVENTS && index == New
    {
      this.fd, events, index := fd, NO_EVENTS, New;
    }
  }

  class Poller {
    var channels: map<int, Channel>
    var kernel: map<int, bv8>
    var refused: set<int>

    constructor ()
      ensures channels == map[] && kernel == map[] && refused == {}
    {
      channels, kernel, refused := map[], map[], {};
    }

    /** The entry of a channel's fd. */
    function View(c: Channel): (e: Entry)
      reads this, c
    {
      Entry(c.events, c.index, c.fd in channels, if c.fd in kernel then Some(kernel[c.fd]) else None, c.fd in refused)
    }

    /** Nothing changed for any other fd. */
    twostate predicate OnlyFd(fd: int)
      reads this
    {
      && kernel - {fd} == old(kernel) - {fd}
      && channels - {fd} == old(channels) - {fd}
      && refused - {fd} == old(refused) - {fd}
    }

    /** update: one epoll_ctl call. */
    method Control(op: Op, c: Channel)
      modifies this
      ensures View(c) == Ctl(old(View(c)), op) && channels == old(channels) && OnlyFd(c.fd)
    {
      if op.Add? == (c.fd in kernel) {
        refused := refused + {c.fd};
      } else if op.Del? {
        kernel := kernel - {c.fd};
      } else {
        kernel := kernel[c.fd := c.events];
      }
    }

    method UpdateChannel(c: Channel)
      modifies this, c
      ensures View(c) == Updated(old(View(c))) && OnlyFd(c.fd)
      ensures old(c.index).New? ==> c.fd in channels && channels[c.fd] == c
    {
      if c.index == New || c.index == Deleted {
        if c.index == New {
          channels := channels[c.fd := c];
        }
        c.index := Added;
        Control(Add, c);
      } else if c.events == NO_EVENTS {
        Control(Del, c);
        c.index := Deleted;
      } else {
        Control(Mod, c);
      }
    }

    method RemoveChannel(c: Channel)
      modifies this, c
      ensures View(c) == Removed(old(View(c))) && OnlyFd(c.fd)
    {
      channels := channels - {c.fd};
      if c.index == Added {
        Control(Del, c);
      }
      c.index := New;
    }

    /** The channel's own methods: change the mask, then push it to the poller. */
    method Apply(c: Channel, call: Call)
      modifies this, c
      ensures View(c) == After(old(View(c)), call) && OnlyFd(c.fd)
    {
      if call.Remove? {
        RemoveChannel(c);
      } else {
        SetMask(c, call);
        UpdateChannel(c);
      }
    }

    method SetMask(c: Channel, call: Call)
      modifies c`events
      ensures c.events == Mask(call, old(c.events))
    {
      match call {
        case EnableReading => c.events := c.events | READ_EVENTS;
        case DisableReading => c.events := c.events & !READ_EVENTS;
        case EnableWriting => c.events := c.events | WRITE_EVENTS;
        case DisableWriting => c.events := c.events & !WRITE_EVENTS;
        case DisableAll => c.events := NO_EVENTS;
        case Remove =>
      }
    }
  }
}
