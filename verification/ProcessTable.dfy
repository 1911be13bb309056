/**
 * Signalling by recorded identity, interleaved with processes that exit and process numbers that
 * are taken again.
 */
module ProcessTable {
  import opened Bytes

  /** One process. The serial tells instances apart that share a process number; no system call shows it. */
  datatype Process = Process(serial: nat, pid: nat, start: nat, session: nat)

  /** What /proc/<pid>/stat shows of a process. */
  datatype Identity = Identity(pid: nat, start: nat, session: nat)

  function Shown(p: Process): Identity { Identity(p.pid, p.start, p.session) }

  /** The kernel's table, its tick counter (start times are counted in ticks) and the next serial. */
  datatype World = World(table: map<nat, Process>, tick: nat, next: nat)

  datatype Event =
    | Exit(pid: nat)
    | Spawn(pid: nat, session: nat)
    | SetSid(pid: nat)
    | Tick

  function Step(w: World, e: Event): World {
    match e
    case Exit(pid) => w.(table := w.table - {pid})
    case Spawn(pid, session) =>
      if pid in w.table then w
      else w.(table := w.table[pid := Process(w.next, pid, w.tick, session)], next := w.next + 1)
    case SetSid(pid) =>
      if pid in w.table then w.(table := w.table[pid := w.table[pid].(session := pid)]) else w
    case Tick => w.(tick := w.tick + 1)
  }

  function Run(w: World, events: seq<Event>): World
    decreases |events|
  {
    if events == [] then w else Run(Step(w, events[0]), events[1..])
  }

  ghost predicate Valid(w: World) {
    && (forall pid | pid in w.table ::
          w.table[pid].pid == pid && w.table[pid].start <= w.tick && w.table[pid].serial < w.next)
    && (forall p, q | p in w.table && q in w.table && w.table[p].serial == w.table[q].serial :: p == q)
  }

  ghost predicate Evolves(w: World, v: World) { exists events :: v == Run(w, events) }

  lemma {:induction false} RunAppend(w: World, a: seq<Event>, b: seq<Event>)
    ensures Run(w, a + b) == Run(Run(w, a), b)
    decreases |a|
  {
    if a == [] {
      assert a + b == b;
    } else {
      assert (a + b)[1..] == a[1..] + b;
      RunAppend(Step(w, a[0]), a[1..], b);
    }
  }

  lemma Stays(w: World)
    ensures Evolves(w, w)
  {
    assert Run(w, []) == w;
  }

  lemma EvolvesOn(u: World, v: World, w: World)
    requires Evolves(u, v) && Evolves(v, w)
    ensures Evolves(u, w)
  {
    var a :| v == Run(u, a);
    var b :| w == Run(v, b);
    RunAppend(u, a, b);
  }

  lemma {:induction false} RunValid(w: World, events: seq<Event>)
    requires Valid(w)
    ensures Valid(Run(w, events))
    ensures w.tick <= Run(w, events).tick && w.next <= Run(w, events).next
    decreases |events|
  {
    if events != [] {
      RunValid(Step(w, events[0]), events[1..]);
    }
  }

  lemma EvolvesValid(w: World, v: World)
    requires Valid(w) && Evolves(w, v)
    ensures Valid(v) && w.tick <= v.tick && w.next <= v.next
  {
    var events :| v == Run(w, events);
    RunValid(w, events);
  }

  /** The instance p of v was already there, under the same number, in w. */
  ghost predicate Inherited(w: World, p: Process) {
    && p.pid in w.table && w.table[p.pid].serial == p.serial && w.table[p.pid].start == p.start
    && (p.session == w.table[p.pid].session || p.session == p.pid)
    && (w.table[p.pid].session == p.pid ==> p.session == p.pid)
  }

  /** A later process either is an earlier instance that never left its number, or it started since. */
  lemma {:induction false} NoOldInstanceReturns(w: World, events: seq<Event>, pid: nat)
    requires Valid(w) && pid in Run(w, events).table
    ensures var p := Run(w, events).table[pid];
            if p.serial < w.next then Inherited(w, p) else w.tick <= p.start
    decreases |events|
  {
    if events != [] {
      var u := Step(w, events[0]);
      RunValid(w, [events[0]]);
      assert Run(w, [events[0]]) == Run(u, []) == u;
      NoOldInstanceReturns(u, events[1..], pid);
    } else {
      assert Run(w, events) == w;
    }
  }

  lemma Continuity(w: World, v: World, pid: nat)
    requires Valid(w) && Evolves(w, v) && pid in v.table
    ensures v.table[pid].pid == pid
    ensures if v.table[pid].serial < w.next then Inherited(w, v.table[pid]) else w.tick <= v.table[pid].start
  {
    EvolvesValid(w, v);
    var events :| v == Run(w, events);
    NoOldInstanceReturns(w, events, pid);
  }

  /**
   * A process found later with a recorded number and start time is the recorded instance, provided
   * the clock had ticked between its start and the recording.
   */
  lemma SameInstance(recorded: World, later: World, pid: nat)
    requires Valid(recorded) && Evolves(recorded, later)
    requires pid in recorded.table && pid in later.table
    requires recorded.table[pid].start == later.table[pid].start
    requires recorded.table[pid].start < recorded.tick
    ensures recorded.table[pid].serial == later.table[pid].serial
  {
    Continuity(recorded, later, pid);
  }

  /** Without a tick in between, another instance can have the very same identity. */
  lemma ReuseWithinOneTick(recorded: World, pid: nat)
    requires Valid(recorded) && pid in recorded.table && recorded.table[pid].start == recorded.tick
    ensures exists later ::
              && Evolves(recorded, later) && pid in later.table
              && Shown(later.table[pid]) == Shown(recorded.table[pid])
              && later.table[pid].serial != recorded.table[pid].serial
  {
    var p := recorded.table[pid];
    var events := [Exit(pid), Spawn(pid, p.session)];
    var gone := Step(recorded, Exit(pid));
    var later := Step(gone, Spawn(pid, p.session));
    assert events[1..] == [Spawn(pid, p.session)] && events[1..][1..] == [];
    assert Run(recorded, events) == Run(gone, events[1..]) == Run(later, []) == later;
    assert Evolves(recorded, later);
  }

  /** No process of the table is this instance. */
  ghost predicate Gone(w: World, serial: nat) {
    forall pid | pid in w.table :: w.table[pid].serial != serial
  }

  /** An instance that has left the table is never in it again. */
  lemma GoneStays(w: World, v: World, serial: nat)
    requires Valid(w) && Evolves(w, v) && serial < w.next && Gone(w, serial)
    ensures Gone(v, serial)
  {
    hide Evolves;
    EvolvesValid(w, v);
    forall pid | pid in v.table ensures v.table[pid].serial != serial {
      Continuity(w, v, pid);
    }
  }

  /** The identity stood for one and the same process throughout. */
  ghost predicate Stayed(before: World, after: World, m: Identity) {
    && m.pid in before.table && m.pid in after.table
    && before.table[m.pid].serial == after.table[m.pid].serial
    && Shown(before.table[m.pid]) == m && Shown(after.table[m.pid]) == m
  }

  lemma StayedBetween(before: World, between: World, after: World, m: Identity)
    requires Valid(before) && Evolves(before, between) && Evolves(between, after) && Stayed(before, after, m)
    ensures Stayed(before, between, m) && Stayed(between, after, m)
  {
    hide Evolves, Valid;
    RemainedBetween(before, between, after, m.pid, m.session);
  }

  /** An answer of /proc, or how the attempt failed: by the system call, or on what it returned. */
  datatype Reading = Seen(identity: Option<Identity>) | Unreadable | Malformed

  datatype Outcome = Sent | NotSent | Refused | Unparsed

  /**
   * A signal that reached a process, as the process was at that moment, with the time and with the
   * last time the supervisor had read off the clock before.
   */
  datatype Delivery = Delivery(to: Process, signum: nat, reading: int, at: int)

  /** A reading of the clock, and the world at that moment. */
  datatype Moment = Moment(at: int, world: World)

  /** The kernel as the supervisor meets it: other processes and the clock move on at every call. */
  class Kernel {
    const self: nat
    /** The instance the supervisor started and waits for. */
    const child: nat
    var world: World
    var deliveries: seq<Delivery>
    var clock: int
    var reading: int
    /**
     * All readings of the clock, the numbers of system calls that failed and of entries that could
     * not be parsed, and the world as /proc was last listed.
     */
    ghost var readings: seq<Moment>
    ghost var faults: nat
    ghost var malformed: nat
    ghost var listing: World
    /** The numbers that were waited for. */
    ghost var waited: seq<nat>

    ghost predicate Consistent()
      reads this
    {
      Valid(world) && child < world.next && reading <= clock
    }

    /** Anything may happen to the other processes between two steps of the supervisor. */
    method Interfere()
      requires Consistent()
      modifies `world, `clock
      ensures Consistent() && Evolves(old(world), world) && old(clock) <= clock
    {
      var events: seq<Event>, passed: nat :| true;
      RunValid(world, events);
      world, clock := Run(world, events), clock + passed;
    }

    /** time.monotonic() */
    method Now() returns (now: int)
      requires Consistent()
      modifies `clock, `reading, `readings
      ensures Consistent() && old(clock) <= clock == reading == now
      ensures readings == old(readings) + [Moment(now, world)]
    {
      var passed: nat :| true;
      clock := clock + passed;
      reading := clock;
      readings := readings + [Moment(clock, world)];
      now := clock;
    }

    /** Waiting in select or sleep takes at least one unit of the clock. */
    method Pause()
      requires Consistent()
      modifies `world, `clock
      ensures Consistent() && Evolves(old(world), world) && old(clock) < clock
    {
      Interfere();
      clock := clock + 1;
    }

    /** process_identity(pid) */
    method ProcessIdentity(pid: nat) returns (r: Reading)
      requires Consistent()
      modifies `world, `clock, `faults, `malformed
      ensures Consistent() && Evolves(old(world), world) && old(clock) <= clock
      ensures faults == old(faults) + (if r.Unreadable? then 1 else 0)
      ensures malformed == old(malformed) + (if r.Malformed? then 1 else 0)
      ensures r.Seen? ==> r.identity == (if pid in world.table then Some(Shown(world.table[pid])) else None)
    {
      Interfere();
      if {
        case true =>
          r := Unreadable;
          faults := faults + 1;
        case true =>
          r := Malformed;
          malformed := malformed + 1;
        case true =>
          r := Seen(if pid in world.table then Some(Shown(world.table[pid])) else None);
      }
    }

    /** The descriptor stands for the instance that has the number at this moment. */
    method PidfdOpen(pid: nat) returns (r: Result<Option<nat>>)
      requires Consistent()
      modifies `world, `clock, `faults
      ensures Consistent() && Evolves(old(world), world) && old(clock) <= clock
      ensures faults == old(faults) + (if r.Err? then 1 else 0)
      ensures r.Ok? ==> r.value == (if pid in world.table then Some(world.table[pid].serial) else None)
    {
      Interfere();
      if * {
        r := Err("OSError");
        faults := faults + 1;
      } else {
        r := Ok(if pid in world.table then Some(world.table[pid].serial) else None);
      }
    }

    /** The signal goes to the instance the descriptor stands for, or nowhere. */
    method PidfdSendSignal(fd: nat, signum: nat) returns (outcome: Outcome)
      requires Consistent()
      modifies `world, `clock, `faults, `deliveries
      ensures Consistent() && Evolves(old(world), world) && old(clock) <= clock
      ensures outcome in {Sent, NotSent, Refused}
      ensures faults == old(faults) + (if outcome == Refused then 1 else 0)
      ensures outcome != Sent ==> deliveries == old(deliveries)
      ensures outcome == NotSent ==> Gone(world, fd)
      ensures outcome == Sent ==>
                exists pid | pid in world.table ::
                  && world.table[pid].serial == fd
                  && deliveries == old(deliveries) + [Delivery(world.table[pid], signum, reading, clock)]
    {
      Interfere();
      if * {
        faults := faults + 1;
        return Refused;
      }
      outcome := NotSent;
      if pid :| pid in world.table && world.table[pid].serial == fd {
        deliveries := deliveries + [Delivery(world.table[pid], signum, reading, clock)];
        outcome := Sent;
      }
    }

    /** os.waitpid on a process of the session, which takes it out of the table if it had exited. */
    method WaitPid(pid: nat) returns (ok: bool)
      requires Consistent()
      modifies `world, `clock, `faults, `waited
      ensures Consistent() && Evolves(old(world), world) && old(clock) <= clock
      ensures faults == old(faults) + (if ok then 0 else 1) && waited == old(waited) + [pid]
    {
      Interfere();
      waited := waited + [pid];
      ok := *;
      if !ok {
        faults := faults + 1;
      }
    }

    /** process.poll(): a status is there once the child has left the table, which this call may bring about. */
    method Poll() returns (status: Option<int>)
      requires Consistent()
      modifies `world, `clock
      ensures Consistent() && Evolves(old(world), world) && old(clock) <= clock
      ensures status.Some? ==> Gone(world, child)
      ensures Gone(old(world), child) ==> status.Some?
    {
      ghost var before := world;
      Interfere();
      ghost var w := world;
      if Gone(before, child) {
        GoneStays(before, w, child);
      }
      var code: int :| true;
      status := None;
      var exited := *;
      if pid :| pid in world.table && world.table[pid].serial == child {
        if exited {
          OneEvent(world, Exit(pid));
          world := Step(world, Exit(pid));
          EvolvesOn(before, w, world);
          status := Some(code);
        }
      } else {
        status := Some(code);
      }
    }

    /**
     * Whatever other processes do between its four steps, only a process with the recorded number
     * and start time receives the signal, and never the supervisor. It is the very instance that
     * was recorded, if the clock had ticked between its start and the recording. A process that
     * keeps its identity throughout does receive the signal, unless a call fails.
     */
    method SignalMember(identity: Identity, signum: nat) returns (outcome: Outcome)
      requires Consistent()
      modifies `world, `clock, `faults, `malformed, `deliveries
      ensures Consistent() && Evolves(old(world), world) && old(clock) <= clock
      ensures faults == old(faults) + (if outcome == Refused then 1 else 0)
      ensures malformed == old(malformed) + (if outcome == Unparsed then 1 else 0)
      ensures outcome != Sent ==> deliveries == old(deliveries)
      ensures outcome == NotSent ==> identity.pid == self || !Stayed(old(world), world, identity)
      ensures outcome == Sent ==>
                && identity.pid != self && identity.pid in world.table
                && var p := world.table[identity.pid];
                && deliveries == old(deliveries) + [Delivery(p, signum, reading, clock)]
                && p.pid == identity.pid && p.start == identity.start
                && (p.session == identity.session || p.session == p.pid)
                && (forall recorded: World | Records(recorded, old(world), identity) ::
                      p.serial == recorded.table[identity.pid].serial)
    {
      hide Valid, Evolves, Stayed, Gone, Records;
      if identity.pid == self {
        Stays(world);
        return NotSent;
      }
      ghost var w0 := world;
      var first := ProcessIdentity(identity.pid);
      if !first.Seen? {
        return if first.Unreadable? then Refused else Unparsed;
      }
      ghost var w1 := world;
      if first.identity != Some(identity) {
        Stays(w1);
        NotThroughout(w0, w1, w1, identity);
        return NotSent;
      }
      var fd := PidfdOpen(identity.pid);
      EvolvesOn(w0, w1, world);
      if fd.Err? {
        return Refused;
      }
      ghost var w2 := world;
      if fd.value.None? {
        Stays(w2);
        NotThroughout(w0, w2, w2, identity);
        return NotSent;
      }
      var second := ProcessIdentity(identity.pid);
      EvolvesOn(w0, w2, world);
      if !second.Seen? {
        return if second.Unreadable? then Refused else Unparsed;
      }
      ghost var w3 := world;
      if second.identity != Some(identity) {
        Stays(w3);
        NotThroughout(w0, w3, w3, identity);
        return NotSent;
      }
      outcome := PidfdSendSignal(fd.value.value, signum);
      EvolvesOn(w0, w3, world);
      if outcome == Sent {
        HeldThroughout(identity.pid, w2, w3, world, fd.value.value);
        SentToRecorded(w0, world, identity);
      } else if outcome == NotSent {
        EvolvesOn(w2, w3, world);
        NotThroughout(w0, w2, world, identity);
      }
    }

    /** The numbers of all present processes in any order, and possibly of others. */
    method ListProc() returns (entries: seq<nat>)
      modifies `listing
      ensures listing == world
      ensures forall pid | pid in world.table :: pid in entries
    {
      listing := world;
      entries :| true;
      var left := world.table.Keys;
      while left != {}
        invariant forall pid | pid in world.table :: pid in left || pid in entries
        decreases |left|
      {
        var pid :| pid in left;
        entries := entries + [pid];
        left := left - {pid};
      }
    }

    /**
     * One scan of /proc. Whoever is listed was in the table during the scan, in the session, started
     * no earlier than its leader and is not the supervisor; whoever stayed in the session throughout
     * is listed.
     */
    method SessionMembers(leader: Identity) returns (r: Result<seq<Identity>>)
      requires Consistent()
      modifies `world, `clock, `faults, `malformed, `listing
      ensures Consistent() && Evolves(old(world), listing) && Evolves(listing, world) && old(clock) <= clock
      ensures Valid(listing)
      ensures if r.Ok? then faults == old(faults) && malformed == old(malformed)
              else faults + malformed == old(faults) + old(malformed) + 1
      ensures faults >= old(faults) && malformed >= old(malformed)
      ensures r.Ok? ==> AllShown(listing, world, leader, self, r.value)
      ensures r.Ok? ==> FullList(listing, world, leader, self, r.value)
    {
      hide Valid, Evolves, Remained, FullList, AllShown;
      Stays(world);
      NobodyShown(world, leader, self);
      var entries := ListProc();
      var members: seq<Identity> := [];
      Listed(listing, entries, world, leader, self, members);
      for i := 0 to |entries|
        invariant Consistent() && Evolves(listing, world) && old(clock) <= clock && listing == old(world)
        invariant faults == old(faults) && malformed == old(malformed)
        invariant AllShown(listing, world, leader, self, members)
        invariant SeenSoFar(listing, entries[..i], world, leader, self, members)
      {
        ghost var w := world;
        var found := ProcessIdentity(entries[i]);
        EvolvesOn(listing, w, world);
        if !found.Seen? {
          return Err("an entry could not be read");
        }
        ghost var known := members;
        ShownOn(listing, listing, w, world, leader, self, members);
        if found.identity.Some? && InSession(found.identity.value, leader, self) {
          ShownNow(listing, world, entries[i], leader, self, members);
          members := members + [found.identity.value];
        }
        SeenOneMore(listing, w, world, entries, i, leader, self, known, members);
      }
      assert entries[..|entries|] == entries;
      AllSeen(listing, entries, world, leader, self, members);
      r := Ok(members);
    }
  }

  lemma OneEvent(w: World, e: Event)
    requires Valid(w)
    ensures Evolves(w, Step(w, e)) && Valid(Step(w, e)) && w.next <= Step(w, e).next
  {
    assert [e][1..] == [] && Run(w, [e]) == Run(Step(w, e), []) == Step(w, e);
    RunValid(w, [e]);
  }

  /** The identity was recorded in this earlier world, a tick after its process had started. */
  ghost predicate Records(recorded: World, now: World, identity: Identity) {
    && Valid(recorded) && Evolves(recorded, now) && identity.pid in recorded.table
    && Shown(recorded.table[identity.pid]) == identity && identity.start < recorded.tick
  }

  lemma SentToRecorded(now: World, sending: World, identity: Identity)
    requires Evolves(now, sending) && identity.pid in sending.table
    requires sending.table[identity.pid].start == identity.start
    ensures forall recorded: World | Records(recorded, now, identity) ::
              sending.table[identity.pid].serial == recorded.table[identity.pid].serial
  {
    hide Evolves, Valid;
    forall recorded: World | Records(recorded, now, identity)
      ensures sending.table[identity.pid].serial == recorded.table[identity.pid].serial
    {
      EvolvesOn(recorded, now, sending);
      SameInstance(recorded, sending, identity.pid);
    }
  }

  /** An identity that is not shown at some moment, or whose instance is gone at the end, did not stay. */
  lemma NotThroughout(before: World, between: World, after: World, m: Identity)
    requires Valid(before) && Evolves(before, between) && Evolves(between, after)
    requires m.pid !in between.table || Shown(between.table[m.pid]) != m || Gone(after, between.table[m.pid].serial)
    ensures !Stayed(before, after, m)
  {
    hide Evolves, Valid;
    if Stayed(before, after, m) {
      StayedBetween(before, between, after, m);
    }
  }

  /** Whoever was in the session from the first world to the second is among the members. */
  ghost predicate FullList(before: World, after: World, leader: Identity, self: nat, members: seq<Identity>) {
    forall pid | Remained(before, after, pid, leader.session) && InSession(Shown(after.table[pid]), leader, self) ::
      Shown(after.table[pid]) in members
  }

  predicate InSession(m: Identity, leader: Identity, self: nat) {
    m.session == leader.session && m.start >= leader.start && m.pid != self
  }

  /** At some moment between the two worlds a process of the table showed this identity. */
  ghost predicate WasShown(since: World, now: World, m: Identity) {
    exists w | Evolves(since, w) && Evolves(w, now) :: m.pid in w.table && Shown(w.table[m.pid]) == m
  }

  /** All of these were processes of the session between the two worlds. */
  ghost predicate AllShown(since: World, now: World, leader: Identity, self: nat, members: seq<Identity>) {
    forall m | m in members :: InSession(m, leader, self) && WasShown(since, now, m)
  }

  lemma NobodyShown(w: World, leader: Identity, self: nat)
    ensures AllShown(w, w, leader, self, [])
  {
  }

  lemma ShownOn(first: World, since: World, now: World, later: World, leader: Identity, self: nat,
                members: seq<Identity>)
    requires AllShown(since, now, leader, self, members) && Evolves(first, since) && Evolves(now, later)
    ensures AllShown(first, later, leader, self, members)
  {
    hide Evolves, InSession;
    forall m | m in members ensures WasShown(first, later, m) {
      var w :| Evolves(since, w) && Evolves(w, now) && m.pid in w.table && Shown(w.table[m.pid]) == m;
      EvolvesOn(first, since, w);
      EvolvesOn(w, now, later);
    }
  }

  lemma ShownNow(since: World, now: World, pid: nat, leader: Identity, self: nat, members: seq<Identity>)
    requires AllShown(since, now, leader, self, members) && Valid(now) && Evolves(since, now) && pid in now.table
    requires InSession(Shown(now.table[pid]), leader, self)
    ensures AllShown(since, now, leader, self, members + [Shown(now.table[pid])])
  {
    hide Evolves;
    Stays(now);
    assert WasShown(since, now, Shown(now.table[pid]));
  }

  /** The same instance holds the number in both worlds and is in the session in both. */
  ghost predicate Remained(before: World, after: World, pid: nat, session: nat) {
    && pid in before.table && pid in after.table && before.table[pid].serial == after.table[pid].serial
    && before.table[pid].session == session && after.table[pid].session == session
  }

  /** A session member of the present that was none when /proc was listed. */
  ghost predicate Newcomer(listing: World, now: World, pid: nat, leader: Identity, self: nat) {
    && pid in now.table && InSession(Shown(now.table[pid]), leader, self)
    && !Remained(listing, now, pid, leader.session)
  }

  /** A scan that found nobody leaves the session empty exactly when nobody has entered it since and is still in it. */
  lemma EmptyExactly(listing: World, now: World, leader: Identity, self: nat)
    requires FullList(listing, now, leader, self, [])
    ensures (forall pid | pid in now.table :: !InSession(Shown(now.table[pid]), leader, self))
            <==> forall pid | pid in now.table :: !Newcomer(listing, now, pid, leader, self)
  {
    hide InSession;
    forall pid | pid in now.table && InSession(Shown(now.table[pid]), leader, self)
      ensures Newcomer(listing, now, pid, leader, self)
    {
    }
  }

  /** A newcomer has started since /proc was listed, unless it has the number of the session itself. */
  lemma NewcomersAreYoung(listing: World, now: World, pid: nat, leader: Identity, self: nat)
    requires Valid(listing) && Evolves(listing, now) && Newcomer(listing, now, pid, leader, self)
    ensures pid == leader.session || (listing.next <= now.table[pid].serial && listing.tick <= now.table[pid].start)
  {
    hide Evolves;
    Continuity(listing, now, pid);
  }

  /** There can be one: the only member forks and leaves for a session of its own, and its child is not seen. */
  lemma ForkAndLeave(listing: World, member: nat, child: nat, leader: Identity, self: nat) returns (now: World)
    requires Valid(listing) && member in listing.table && child !in listing.table && child != self
    requires leader.session != member && leader.start <= listing.tick
    requires forall pid | pid in listing.table && InSession(Shown(listing.table[pid]), leader, self) :: pid == member
    ensures Evolves(listing, now) && FullList(listing, now, leader, self, [])
    ensures Newcomer(listing, now, child, leader, self)
  {
    var events := [Spawn(child, leader.session), SetSid(member)];
    var forked := Step(listing, Spawn(child, leader.session));
    now := Step(forked, SetSid(member));
    assert events[1..] == [SetSid(member)] && events[1..][1..] == [];
    assert Run(listing, events) == Run(forked, events[1..]) == Run(now, []) == now;
  }

  /** The instance a descriptor stands for cannot lose its number and receive the signal. */
  lemma HeldThroughout(pid: nat, opening: World, check: World, sending: World, serial: nat)
    requires Valid(opening) && Evolves(opening, check) && Evolves(check, sending)
    requires pid in opening.table && opening.table[pid].serial == serial
    requires exists q | q in sending.table :: sending.table[q].serial == serial
    ensures pid in check.table && pid in sending.table
    ensures sending.table[pid].serial == serial && sending.table[pid].pid == pid
    ensures forall q | q in sending.table && sending.table[q].serial == serial :: q == pid
    ensures Inherited(check, sending.table[pid])
  {
    hide Evolves;
    EvolvesValid(opening, check);
    EvolvesValid(check, sending);
    EvolvesOn(opening, check, sending);
    var q :| q in sending.table && sending.table[q].serial == serial;
    Continuity(opening, sending, q);
    Continuity(check, sending, q);
  }

  /** Between two worlds in which it is in the session, a process that stayed never left the session. */
  lemma RemainedBetween(before: World, between: World, after: World, pid: nat, session: nat)
    requires Valid(before) && Evolves(before, between) && Evolves(between, after)
    requires Remained(before, after, pid, session)
    ensures Remained(before, between, pid, session)
    ensures Shown(between.table[pid]) == Shown(after.table[pid])
  {
    hide Evolves;
    EvolvesValid(before, between);
    EvolvesValid(between, after);
    Continuity(between, after, pid);
    Continuity(before, between, pid);
  }

  ghost predicate SeenSoFar(before: World, entries: seq<nat>, now: World, leader: Identity, self: nat,
                            members: seq<Identity>)
  {
    forall pid | pid in entries && Remained(before, now, pid, leader.session)
                 && InSession(Shown(now.table[pid]), leader, self) :: Shown(now.table[pid]) in members
  }

  lemma Listed(before: World, entries: seq<nat>, now: World, leader: Identity, self: nat, members: seq<Identity>)
    ensures SeenSoFar(before, entries[..0], now, leader, self, members)
  {
  }

  lemma SeenOneMore(before: World, w: World, now: World, entries: seq<nat>, i: nat, leader: Identity, self: nat,
                    known: seq<Identity>, members: seq<Identity>)
    requires Valid(before) && Evolves(before, w) && Evolves(w, now) && i < |entries|
    requires SeenSoFar(before, entries[..i], w, leader, self, known)
    requires members == known
             || (entries[i] in now.table && members == known + [Shown(now.table[entries[i]])])
    requires entries[i] in now.table && InSession(Shown(now.table[entries[i]]), leader, self) ==>
               members == known + [Shown(now.table[entries[i]])]
    ensures SeenSoFar(before, entries[..i + 1], now, leader, self, members)
  {
    hide Valid, Evolves;
    forall pid | pid in entries[..i + 1] && Remained(before, now, pid, leader.session)
                 && InSession(Shown(now.table[pid]), leader, self)
      ensures Shown(now.table[pid]) in members
    {
      RemainedBetween(before, w, now, pid, leader.session);
      if pid in entries[..i] {
        assert Shown(w.table[pid]) in known;
      }
    }
  }

  lemma AllSeen(before: World, entries: seq<nat>, now: World, leader: Identity, self: nat, members: seq<Identity>)
    requires forall pid | pid in before.table :: pid in entries
    requires SeenSoFar(before, entries, now, leader, self, members)
    ensures FullList(before, now, leader, self, members)
  {
  }
}
