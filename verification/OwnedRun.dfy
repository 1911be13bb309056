/** One supervised worker: its captures, its scans, and the escalation that ends its session. */
module OwnedRun {
  import opened Bytes
  import opened ProcessTable

  const CAPTURE_LIMIT: nat := 4 * 1024 * 1024
  const OBSERVED_LIMIT: nat := 4096
  const SIGTERM: nat := 15
  const SIGKILL: nat := 9

  /** A bounded copy of a stream. The ghost fields are the stream as it was added, as its pipe gave it, and its end. */
  class Capture {
    var data: Buffer
    var observed: nat
    var eof: bool
    ghost var stream: Buffer
    ghost var given: Buffer
    ghost var ended: bool

    ghost predicate Valid()
      reads this
    {
      observed == |stream| && data == stream[..Min(|stream|, CAPTURE_LIMIT)]
    }

    /** Everything that was read has been added, and the end has been noticed. */
    ghost predicate Current()
      reads this
    {
      Valid() && stream == given && eof == ended
    }

    constructor ()
      ensures Current() && stream == [] && !eof
    {
      data, observed, eof, stream, given, ended := [], 0, false, [], [], false;
    }

    /** os.read on the pipe of this capture: some bytes, none at its end, or nothing yet. */
    method Read() returns (chunk: Option<Buffer>)
      modifies `given, `ended
      ensures given == old(given) + (if chunk.Some? then chunk.value else [])
      ensures ended == (old(ended) || chunk == Some([]))
    {
      if * {
        return None;
      }
      var bytes: Buffer :| true;
      given, ended := given + bytes, ended || bytes == [];
      chunk := Some(bytes);
    }

    method Add(chunk: Buffer)
      requires Valid()
      modifies `data, `observed, `stream
      ensures Valid() && stream == old(stream) + chunk
    {
      var room := if CAPTURE_LIMIT > |data| then CAPTURE_LIMIT - |data| else 0;
      data := data + chunk[..Min(|chunk|, room)];
      observed := observed + |chunk|;
      stream := stream + chunk;
    }

    /** The receipt's "truncated". */
    predicate Truncated()
      reads this
      requires Valid()
      ensures Truncated() <==> |stream| > CAPTURE_LIMIT
      ensures !Truncated() ==> data == stream
    {
      observed > |data|
    }
  }

  /** When the cleanup began and when it must be over. */
  datatype Window = Window(start: int, end: int) {
    /** The signal due at this time, if any: TERM after a fifth of the window, KILL after three fifths. */
    function Due(now: int): Option<nat> {
      if 5 * (now - start) >= 3 * (end - start) then Some(SIGKILL)
      else if 5 * (now - start) >= end - start then Some(SIGTERM)
      else None
    }
  }

  /**
   * The signals that were delivered: none before the cleanup began, each the one that was due when
   * the clock was last read, in the order of those readings.
   */
  predicate Escalates(sent: seq<Delivery>, window: Option<Window>) {
    && (sent != [] ==> window.Some?)
    && (forall i | 0 <= i < |sent| ::
          && window.value.start <= sent[i].reading <= sent[i].at
          && window.value.Due(sent[i].reading) == Some(sent[i].signum))
    && (forall i, j | 0 <= i < j < |sent| :: sent[i].reading <= sent[j].reading)
  }

  /** KILL is sent exactly from three fifths of the window on, TERM only from one fifth on, and none after a KILL. */
  lemma NeverBackToTerm(sent: seq<Delivery>, window: Option<Window>)
    requires Escalates(sent, window)
    ensures forall i | 0 <= i < |sent| ::
              && sent[i].signum in {SIGTERM, SIGKILL}
              && var age, span := sent[i].reading - window.value.start, window.value.end - window.value.start;
              && (sent[i].signum == SIGKILL <==> 5 * age >= 3 * span)
              && (sent[i].signum == SIGTERM ==> 5 * age >= span)
    ensures forall i, j | 0 <= i < j < |sent| && sent[i].signum == SIGKILL :: sent[j].signum == SIGKILL
  {
  }

  /** A cleanup may end on TERM: when KILL is due no earlier than the clock is read at the end of the window. */
  lemma TermAlone(window: Window, p: Process) returns (sent: seq<Delivery>)
    requires window.start + 5 <= window.end
    ensures sent != [] && Escalates(sent, Some(window))
    ensures forall i | 0 <= i < |sent| :: sent[i].signum == SIGTERM && sent[i].at < window.end
  {
    var span := window.end - window.start;
    var now := window.start + (span + 4) / 5;
    sent := [Delivery(p, SIGTERM, now, now)];
  }

  /** Everything that was signalled belonged to the worker's session, and none of it was the supervisor. */
  predicate Owned(sent: seq<Delivery>, leader: Identity, self: nat) {
    forall i | 0 <= i < |sent| ::
      var p := sent[i].to;
      p.pid != self && p.start >= leader.start && (p.session == leader.session || p.session == p.pid)
  }

  /** The signals sent so far, and the cleanup they belong to, at the last reading of the clock. */
  predicate Orderly(sent: seq<Delivery>, reading: int, window: Option<Window>, start: int, end: int, grace: int) {
    && Escalates(sent, window) && (sent != [] ==> sent[|sent| - 1].reading <= reading)
    && (window.Some? ==>
          start <= window.value.start <= reading && window.value.end == Min(end, window.value.start + grace))
  }

  /** All readings since the run began are of earlier worlds and no later than the last one. */
  ghost predicate Dated(readings: seq<Moment>, from: nat, now: World, reading: int) {
    forall i | from <= i < |readings| ::
      Valid(readings[i].world) && Evolves(readings[i].world, now) && readings[i].at <= reading
  }

  lemma DatedOn(readings: seq<Moment>, from: nat, w: World, now: World, reading: int)
    requires Dated(readings, from, w, reading) && Evolves(w, now)
    ensures Dated(readings, from, now, reading)
  {
    hide Evolves, Valid;
    forall i | from <= i < |readings| ensures Evolves(readings[i].world, now) {
      EvolvesOn(readings[i].world, w, now);
    }
  }

  lemma DatedNow(readings: seq<Moment>, from: nat, now: World, reading: int, at: int)
    requires Dated(readings, from, now, reading) && Valid(now) && reading <= at
    ensures Dated(readings + [Moment(at, now)], from, now, at)
  {
    hide Evolves, Valid;
    Stays(now);
  }

  /** The process has been sent the signal that was due, or KILL in its place. */
  predicate SentDue(sent: seq<Delivery>, m: Identity, due: nat) {
    Signalled(sent, m, due) || Signalled(sent, m, SIGKILL)
  }

  /** A signal that is due stays due until KILL takes its place. */
  lemma DueLater(window: Window, before: int, now: int)
    requires before <= now && window.start < window.end && window.Due(before).Some?
    ensures window.Due(now) == window.Due(before) || window.Due(now) == Some(SIGKILL)
  {
  }

  /** Whoever has been in the session since a signal was due at this moment has been sent it, or KILL. */
  ghost predicate Reached(moment: Moment, window: Option<Window>, now: World, sent: seq<Delivery>, leader: Identity,
                          self: nat)
  {
    window.Some? && window.value.start < window.value.end && window.value.Due(moment.at).Some? ==>
      forall m | InSession(m, leader, self) && Stayed(moment.world, now, m) ::
        SentDue(sent, m, window.value.Due(moment.at).value)
  }

  /** At this moment the time of the work is over, or the child, if it is looked for, is gone. */
  ghost predicate Over(moment: Moment, late: int, child: Option<nat>) {
    moment.at >= late || (child.Some? && Gone(moment.world, child.value))
  }

  predicate Begun(window: Option<Window>, now: int) { window.Some? && window.value.start <= now }

  /** From the reading that follows such a moment on, the cleanup has begun. */
  ghost predicate Prompt(readings: seq<Moment>, from: nat, to: int, late: int, child: Option<nat>,
                         window: Option<Window>)
  {
    forall i, j | from <= i < j < |readings| && j < to && Over(readings[i], late, child) ::
      Begun(window, readings[j].at)
  }

  /** No reading of the run has shown such a moment. */
  ghost predicate Quiet(readings: seq<Moment>, from: nat, late: int, child: Option<nat>) {
    forall i | from <= i < |readings| :: !Over(readings[i], late, child)
  }

  /** What one more reading of the clock keeps. */
  lemma OneMore(readings: seq<Moment>, all: seq<Moment>, from: nat, late: int, child: Option<nat>,
                window: Option<Window>)
    requires from <= |readings| && readings <= all && |all| == |readings| + 1
    requires window.Some? ==> window.value.start <= all[|readings|].at
    ensures Prompt(readings, from, |readings|, late, child, window) ==>
              && Prompt(all, from, |readings|, late, child, window)
              && (window.Some? || Quiet(readings, from, late, child) ==> Prompt(all, from, |all|, late, child, window))
  {
    hide Over;
  }

  lemma PromptOn(readings: seq<Moment>, from: nat, late: int, child: Option<nat>, before: Option<Window>,
                 window: Option<Window>)
    requires from < |readings| && Prompt(readings, from, |readings| - 1, late, child, before)
    requires before.None? || before == window
    requires window.Some? && window.value.start <= readings[|readings| - 1].at
    ensures Prompt(readings, from, |readings|, late, child, window)
  {
    hide Over;
  }

  lemma NothingRead(readings: seq<Moment>, from: nat, late: int, child: Option<nat>)
    requires |readings| <= from
    ensures Quiet(readings, from, late, child) && Prompt(readings, from, |readings|, late, child, None)
  {
  }

  lemma QuietIsPrompt(readings: seq<Moment>, from: nat, late: int, child: Option<nat>)
    requires Quiet(readings, from, late, child)
    ensures Prompt(readings, from, |readings|, late, child, None)
  {
    hide Over;
  }

  /** The child of the run had been started at all its readings. */
  ghost predicate Started(readings: seq<Moment>, from: nat, child: nat) {
    forall i | from <= i < |readings| :: child < readings[i].world.next
  }

  /** As long as it is neither late nor the child gone, all readings have been quiet. */
  lemma QuietNow(readings: seq<Moment>, from: nat, now: World, reading: int, late: int, child: nat)
    requires Dated(readings, from, now, reading) && Started(readings, from, child) && reading < late
    ensures Quiet(readings, from, late, None)
    ensures !Gone(now, child) ==> Quiet(readings, from, late, Some(child))
  {
    hide Evolves, Valid, Gone;
    forall i | from <= i < |readings| && Gone(readings[i].world, child) ensures Gone(now, child) {
      GoneStays(readings[i].world, now, child);
    }
  }

  /**
   * What the deadline means for the processes. Take a reading at which the time of the work was over
   * or the child was gone, a later one, at which the cleanup would begin last, and one at which a
   * signal would then be due, two more readings following: whoever has been in the session since
   * that one has been sent the signal or KILL.
   */
  ghost predicate Deadline(readings: seq<Moment>, from: nat, end: int, grace: int, child: nat, now: World,
                           sent: seq<Delivery>, leader: Identity, self: nat)
  {
    forall i, j, k | from <= i < j < |readings| && from <= k < |readings| - 2
                     && (readings[i].at >= end - grace || Gone(readings[i].world, child)) ::
      Reached(readings[k], Some(Window(readings[j].at, Min(end, readings[j].at + grace))), now, sent, leader, self)
  }

  /** A cleanup that began earlier owes every signal that one beginning later would owe. */
  lemma EarlierOwesMore(moment: Moment, window: Window, begun: int, end: int, grace: int, now: World,
                        sent: seq<Delivery>, leader: Identity, self: nat)
    requires window.start <= begun && window.end == Min(end, window.start + grace)
    requires Reached(moment, Some(window), now, sent, leader, self)
    ensures Reached(moment, Some(Window(begun, Min(end, begun + grace))), now, sent, leader, self)
  {
    hide InSession, Stayed, Signalled;
  }

  lemma DeadlineMet(readings: seq<Moment>, from: nat, end: int, grace: int, child: nat, window: Option<Window>,
                    now: World, sent: seq<Delivery>, leader: Identity, self: nat)
    requires Prompt(readings, from, |readings|, end - grace, Some(child), window)
    requires window.Some? ==> window.value.end == Min(end, window.value.start + grace)
    requires AllReached(readings, from, |readings| - 2, window, now, sent, leader, self)
    ensures Deadline(readings, from, end, grace, child, now, sent, leader, self)
  {
    hide Reached, Gone, Min;
    forall i, j, k | from <= i < j < |readings| && from <= k < |readings| - 2
                     && (readings[i].at >= end - grace || Gone(readings[i].world, child))
      ensures Reached(readings[k], Some(Window(readings[j].at, Min(end, readings[j].at + grace))), now, sent, leader,
                      self)
    {
      assert Over(readings[i], end - grace, Some(child));
      assert Begun(window, readings[j].at);
      EarlierOwesMore(readings[k], window.value, readings[j].at, end, grace, now, sent, leader, self);
    }
  }

  /** Everyone who has been in the session from one world to the other is among the members. */
  ghost predicate Catches(w: World, now: World, leader: Identity, self: nat, members: seq<Identity>) {
    forall m | InSession(m, leader, self) && Stayed(w, now, m) :: m in members
  }

  /** At some moment since the first world a whole scan found nobody. */
  ghost predicate Emptied(w0: World, now: World, leader: Identity, self: nat) {
    exists v, u | Evolves(w0, v) && Evolves(v, u) && Evolves(u, now) :: FullList(v, u, leader, self, [])
  }

  lemma EmptiedOn(w0: World, w: World, now: World, leader: Identity, self: nat)
    requires Emptied(w0, w, leader, self) && Evolves(w, now)
    ensures Emptied(w0, now, leader, self)
  {
    hide Evolves, FullList;
    var v, u :| Evolves(w0, v) && Evolves(v, u) && Evolves(u, w) && FullList(v, u, leader, self, []);
    EvolvesOn(u, w, now);
  }

  ghost predicate AllReached(readings: seq<Moment>, from: nat, to: int, window: Option<Window>, now: World,
                             sent: seq<Delivery>, leader: Identity, self: nat)
  {
    forall i | from <= i < |readings| && i < to :: Reached(readings[i], window, now, sent, leader, self)
  }

  /** Who has been reached stays so as processes go and further signals are sent. */
  lemma ReachedOn(readings: seq<Moment>, later: seq<Moment>, from: nat, to: int, window: Option<Window>,
                  w: World, now: World, reading: int, sent: seq<Delivery>, all: seq<Delivery>,
                  leader: Identity, self: nat)
    requires AllReached(readings, from, to, window, w, sent, leader, self) && Dated(readings, from, w, reading)
    requires Evolves(w, now) && sent <= all && readings <= later && to <= |readings|
    ensures AllReached(later, from, to, window, now, all, leader, self)
  {
    hide Evolves, Valid, Stayed, InSession, Window.Due;
    forall i, m | from <= i < to && InSession(m, leader, self) && Stayed(later[i].world, now, m)
      ensures Stayed(readings[i].world, w, m)
    {
      StayedBetween(readings[i].world, w, now, m);
    }
  }

  /** Signalling everyone who has been there since a later world reaches the earlier moments too. */
  lemma ReachedMore(past: seq<Moment>, readings: seq<Moment>, from: nat, window: Option<Window>, w: World, now: World,
                    last: int, sent: seq<Delivery>, leader: Identity, self: nat, at: int)
    requires Dated(past, from, w, last) && last <= at && Evolves(w, now) && past <= readings
    requires window.Some? && window.value.Due(at).Some? ==>
               forall m | InSession(m, leader, self) && Stayed(w, now, m) ::
                 Signalled(sent, m, window.value.Due(at).value)
    ensures AllReached(readings, from, |past|, window, now, sent, leader, self)
  {
    hide Evolves, Valid, Stayed, InSession, Signalled, Window.Due;
    forall i | from <= i < |past| && window.Some? && window.value.start < window.value.end
               && window.value.Due(readings[i].at).Some?
      ensures window.value.Due(at) in {window.value.Due(readings[i].at), Some(SIGKILL)}
    {
      DueLater(window.value, readings[i].at, at);
    }
    forall i, m | from <= i < |past| && InSession(m, leader, self) && Stayed(readings[i].world, now, m)
      ensures Stayed(w, now, m)
    {
      StayedBetween(readings[i].world, w, now, m);
    }
  }

  datatype RunResult = RunResult(
    returncode: Option<int>, error: bool, deadlineExceeded: bool, observed: seq<Identity>, inventory: bool,
    cancelled: bool, leaderReaped: bool, remaining: seq<Identity>, scanComplete: bool, complete: bool)

  class Supervisor {
    const kernel: Kernel
    const leader: Identity
    /** When the run began, the overall deadline, and the time kept for the cleanup. */
    const start: int
    const end: int
    const grace: int

    var members: seq<Identity>
    var scanOk: bool
    var observed: seq<Identity>
    var inventory: bool
    var returncode: Option<int>
    var window: Option<Window>
    /** The identities under which processes were waited for. */
    ghost var reaped: seq<Identity>

    /** The kernel as the run began. */
    ghost const world0: World
    ghost const waited0: seq<nat>
    ghost const sent0: seq<Delivery>
    ghost const faults0: nat
    ghost const malformed0: nat
    ghost const read0: nat

    constructor (kernel: Kernel, leader: Identity, total: int, grace: int)
      requires kernel.Consistent()
      ensures this.kernel == kernel && this.leader == leader && this.start == kernel.reading
      ensures this.end == start + total && this.grace == grace
      ensures waited0 == kernel.waited && reaped == []
      ensures world0 == kernel.world && sent0 == kernel.deliveries && read0 == |kernel.readings|
      ensures faults0 == kernel.faults && malformed0 == kernel.malformed
      ensures returncode == None && window == None && scanOk && inventory && observed == []
      ensures Invariant()
    {
      this.kernel, this.leader, this.start := kernel, leader, kernel.reading;
      this.end, this.grace := kernel.reading + total, grace;
      members, scanOk, observed, inventory, returncode, window := [], true, [], true, None, None;
      world0, sent0, read0 := kernel.world, kernel.deliveries, |kernel.readings|;
      faults0, malformed0, waited0, reaped := kernel.faults, kernel.malformed, kernel.waited, [];
      new;
      Stays(kernel.world);
    }

    ghost predicate Invariant()
      reads this, kernel
    {
      && kernel.Consistent() && Evolves(world0, kernel.world)
      && AllShown(world0, kernel.world, leader, kernel.self, members)
      && sent0 <= kernel.deliveries
      && Orderly(kernel.deliveries[|sent0|..], kernel.reading, window, start, end, grace)
      && Owned(kernel.deliveries[|sent0|..], leader, kernel.self)
      && read0 <= |kernel.readings| && Dated(kernel.readings, read0, kernel.world, kernel.reading)
      && Started(kernel.readings, read0, kernel.child)
      && faults0 <= kernel.faults && malformed0 <= kernel.malformed && (scanOk ==> kernel.faults == faults0)
      && (kernel.faults == faults0 && kernel.malformed == malformed0 ==> scanOk)
      && start <= kernel.reading
      && Bounded() && AllShown(world0, kernel.world, leader, kernel.self, observed)
      && AllShown(world0, kernel.world, leader, kernel.self, reaped)
      && Numbers(kernel.waited, waited0, reaped, leader)
      && (returncode.Some? ==> Gone(kernel.world, kernel.child))
    }

    method Now() returns (now: int)
      requires Invariant()
      modifies kernel`clock, kernel`reading, kernel`readings
      ensures Invariant() && old(kernel.clock) <= kernel.clock == kernel.reading == now
      ensures old(kernel.readings) <= kernel.readings && |kernel.readings| == |old(kernel.readings)| + 1
      ensures read0 <= |old(kernel.readings)| && kernel.readings[|old(kernel.readings)|].at == now
      ensures forall to | old(ReachedUntil(to)) :: ReachedUntil(to)
      ensures old(InTime(|kernel.readings|)) ==> InTime(|old(kernel.readings)|)
      ensures old(Waiting()) || (window.Some? && old(InTime(|kernel.readings|))) ==> InTime(|kernel.readings|)
    {
      hide ProcessTable.Valid, Evolves, Escalates, Owned, Gone, AllShown, InSession, Dated, AllReached;
      hide Prompt, Quiet;
      now := kernel.Now();
      OneMore(old(kernel.readings), kernel.readings, read0, end - grace, None, window);
      OneMore(old(kernel.readings), kernel.readings, read0, end - grace, Some(kernel.child), window);
      DatedNow(old(kernel.readings), read0, kernel.world, old(kernel.reading), now);
      Stays(kernel.world);
      StillReached(old(kernel.readings), old(kernel.reading), kernel.world, kernel.deliveries);
    }

    method Pause()
      requires Invariant()
      modifies kernel`world, kernel`clock
      ensures Invariant() && Evolves(old(kernel.world), kernel.world) && old(kernel.clock) < kernel.clock
      ensures forall to | old(ReachedUntil(to)) :: ReachedUntil(to)
    {
      hide Evolves, Orderly, Owned, Gone, AllShown, InSession, Dated, AllReached;
      kernel.Pause();
      Onward(old(kernel.world));
      StillReached(kernel.readings, kernel.reading, old(kernel.world), kernel.deliveries);
    }

    /** What a step from the world w to the present one keeps. */
    lemma Onward(w: World)
      requires ProcessTable.Valid(w) && Evolves(world0, w) && Evolves(w, kernel.world) && kernel.child < w.next
      requires Dated(kernel.readings, read0, w, kernel.reading)
      requires AllShown(world0, w, leader, kernel.self, members) && AllShown(world0, w, leader, kernel.self, observed)
      requires AllShown(world0, w, leader, kernel.self, reaped)
      ensures Evolves(world0, kernel.world) && Dated(kernel.readings, read0, kernel.world, kernel.reading)
      ensures AllShown(world0, kernel.world, leader, kernel.self, members)
      ensures AllShown(world0, kernel.world, leader, kernel.self, observed)
      ensures AllShown(world0, kernel.world, leader, kernel.self, reaped)
      ensures Gone(w, kernel.child) ==> Gone(kernel.world, kernel.child)
    {
      hide Evolves, Gone, Dated, AllShown;
      EvolvesOn(world0, w, kernel.world);
      Stays(world0);
      ShownOn(world0, world0, w, kernel.world, leader, kernel.self, members);
      ShownOn(world0, world0, w, kernel.world, leader, kernel.self, observed);
      ShownOn(world0, world0, w, kernel.world, leader, kernel.self, reaped);
      DatedOn(kernel.readings, read0, w, kernel.world, kernel.reading);
      if Gone(w, kernel.child) {
        GoneStays(w, kernel.world, kernel.child);
      }
    }

    /**
     * Two scans of the session, with its children waited for in between. A failed call leaves its
     * mark for good. Without one, the members were processes of the session since /proc was last
     * listed and hold all who have been in it since, the listing was after the status of the child
     * was known, which it is if the child had exited before; and while the inventory has room, it
     * holds everyone who was in the session all the time.
     */
    method Refresh()
      requires Invariant()
      modifies `members, `scanOk, `observed, `inventory, `returncode, `reaped
      modifies kernel`world, kernel`clock, kernel`faults, kernel`malformed, kernel`listing, kernel`waited
      ensures Invariant() && Evolves(old(kernel.world), kernel.world) && old(kernel.clock) <= kernel.clock
      ensures old(reaped) <= reaped && (scanOk ==> Reaped(old(kernel.world), old(reaped)))
      ensures old(returncode).Some? ==> returncode == old(returncode)
      ensures scanOk ==> old(scanOk) && LastScan() && kernel.malformed == old(kernel.malformed)
      ensures scanOk ==> Caught(old(kernel.world))
      ensures scanOk && Gone(old(kernel.world), kernel.child) ==> returncode.Some?
      ensures forall to | old(ReachedUntil(to)) :: ReachedUntil(to)
      ensures old(observed) <= observed && (inventory ==> old(inventory))
      ensures scanOk && inventory ==> Inventoried(old(kernel.world))
    {
      hide Invariant, Evolves, LastScan, Inventoried, Caught, AllReached, Dated, Gone, Reaped, Stayed, InSession;
      hide Clean;
      InvariantMeans();
      SinceStart();
      ghost var w0 := kernel.world;
      var done := FirstScan();
      if done {
        ghost var w1, found, before := kernel.world, members, reaped;
        CaughtMeans(w0);
        done := WaitForChildren();
        ghost var w2 := kernel.world;
        EvolvesOn(w0, w1, w2);
        if done {
          if Gone(w0, kernel.child) {
            InvariantMeans();
            GoneStays(w0, w2, kernel.child);
          }
          PollAndScan(w0, w1, found, before);
          EvolvesOn(w0, w2, kernel.world);
        }
      }
      StillReached(kernel.readings, kernel.reading, w0, kernel.deliveries);
    }

    /** The second half of a refresh: the child is asked for, and the session is scanned again. */
    method PollAndScan(ghost w0: World, ghost w1: World, ghost found: seq<Identity>, ghost before: seq<Identity>)
      requires Invariant() && ProcessTable.Valid(w0) && Evolves(w0, w1) && Evolves(w1, kernel.world)
      requires before <= reaped && forall m | InSession(m, leader, kernel.self) && Stayed(w0, w1, m) :: m in found
      requires forall m | m in found && m.pid != leader.pid && Stayed(w1, kernel.world, m) :: m in reaped[|before|..]
      requires inventory ==> forall m | InSession(m, leader, kernel.self) && Stayed(w0, w1, m) :: m in observed
      modifies `members, `scanOk, `returncode
      modifies kernel`world, kernel`clock, kernel`faults, kernel`malformed, kernel`listing
      ensures Invariant() && Evolves(old(kernel.world), kernel.world) && old(kernel.clock) <= kernel.clock
      ensures old(returncode).Some? ==> returncode == old(returncode)
      ensures Gone(old(kernel.world), kernel.child) ==> returncode.Some?
      ensures scanOk ==> old(scanOk) && LastScan() && kernel.malformed == old(kernel.malformed)
      ensures scanOk ==> Caught(w0) && Reaped(w0, before)
      ensures scanOk && inventory ==> Inventoried(w0)
    {
      hide Invariant, LastScan, Inventoried, Caught, Gone, Reaped, Stayed, InSession, Evolves;
      ghost var w2 := kernel.world;
      EvolvesOn(w0, w1, w2);
      Poll();
      ghost var w3 := kernel.world;
      var done := SecondScan();
      EvolvesOn(w2, w3, kernel.world);
      if scanOk {
        EvolvesOn(w0, w2, w3);
        CaughtSince(w0, w3);
        ReapedSince(w0, w1, w2, found, before);
        if inventory {
          EvolvesOn(w1, w2, kernel.world);
          InventoryStays(w0, w1);
        }
      }
    }

    /** Everyone who has been in the session from this world to the present is among the members. */
    ghost predicate Caught(w: World)
      reads this, kernel
    {
      Catches(w, kernel.world, leader, kernel.self, members)
    }

    /** Everyone who has been in the session from this world to the present, its leader apart, has been waited for. */
    ghost predicate Reaped(w: World, before: seq<Identity>)
      reads this, kernel
    {
      before <= reaped
      && forall m | InSession(m, leader, kernel.self) && m.pid != leader.pid && Stayed(w, kernel.world, m) ::
           m in reaped[|before|..]
    }

    lemma CaughtMeans(w: World)
      requires Caught(w)
      ensures forall m | InSession(m, leader, kernel.self) && Stayed(w, kernel.world, m) :: m in members
    {
      hide Stayed, InSession;
    }

    lemma ReapedSince(w: World, first: World, last: World, found: seq<Identity>, before: seq<Identity>)
      requires ProcessTable.Valid(w) && Evolves(w, first) && Evolves(first, last) && Evolves(last, kernel.world)
      requires forall m | InSession(m, leader, kernel.self) && Stayed(w, first, m) :: m in found
      requires before <= reaped
      requires forall m | m in found && m.pid != leader.pid && Stayed(first, last, m) :: m in reaped[|before|..]
      ensures Reaped(w, before)
    {
      hide Evolves, Stayed, InSession;
      EvolvesOn(first, last, kernel.world);
      EvolvesOn(w, first, last);
      forall m | InSession(m, leader, kernel.self) && m.pid != leader.pid && Stayed(w, kernel.world, m)
        ensures m in reaped[|before|..]
      {
        StayedBetween(w, last, kernel.world, m);
        StayedBetween(w, first, last, m);
      }
    }

    lemma CaughtSince(w: World, scan: World)
      requires ProcessTable.Valid(w) && Evolves(w, scan) && Evolves(scan, kernel.world) && Caught(scan)
      ensures Caught(w)
    {
      hide Evolves, Stayed, InSession;
      forall m | InSession(m, leader, kernel.self) && Stayed(w, kernel.world, m) ensures m in members {
        StayedBetween(w, scan, kernel.world, m);
      }
    }

    /** Everyone who has been in the session from this world to the present is in the inventory. */
    ghost predicate Inventoried(w: World)
      reads this, kernel
    {
      forall m | InSession(m, leader, kernel.self) && Stayed(w, kernel.world, m) :: m in observed
    }

    lemma InventoryStays(w: World, seen: World)
      requires ProcessTable.Valid(w) && Evolves(w, seen) && Evolves(seen, kernel.world)
      requires forall m | InSession(m, leader, kernel.self) && Stayed(w, seen, m) :: m in observed
      ensures Inventoried(w)
    {
      hide Evolves, Stayed, InSession;
      forall m | InSession(m, leader, kernel.self) && Stayed(w, kernel.world, m) ensures m in observed {
        StayedBetween(w, seen, kernel.world, m);
      }
    }

    method FirstScan() returns (done: bool)
      requires Invariant()
      modifies `members, `scanOk, `observed, `inventory
      modifies kernel`world, kernel`clock, kernel`faults, kernel`malformed, kernel`listing
      ensures Invariant() && Evolves(old(kernel.world), kernel.world) && old(kernel.clock) <= kernel.clock
      ensures old(observed) <= observed && (inventory ==> old(inventory))
      ensures if done then scanOk == old(scanOk) && kernel.malformed == old(kernel.malformed) else !scanOk
      ensures done ==> Caught(old(kernel.world))
      ensures done && inventory ==>
                forall m | InSession(m, leader, kernel.self) && Stayed(old(kernel.world), kernel.world, m) ::
                  m in observed
    {
      hide Evolves, Orderly, Owned, Gone, AllShown, InSession, FullList, Stayed, Dated;
      ghost var w0 := kernel.world;
      var scan := kernel.SessionMembers(leader);
      EvolvesOn(w0, kernel.listing, kernel.world);
      Onward(w0);
      done := scan.Ok?;
      if done {
        Found(w0, scan.value);
        ghost var known := observed;
        members := scan.value;
        Observe();
        ShownInOne(world0, kernel.world, leader, kernel.self, known, members, observed);
        AllMembers(w0, members);
      } else {
        scanOk := false;
      }
    }

    /** Who is listed by a scan of the run was a process of the session during the run. */
    lemma Found(w: World, found: seq<Identity>)
      requires Evolves(world0, w) && Evolves(w, kernel.listing)
      requires AllShown(kernel.listing, kernel.world, leader, kernel.self, found)
      ensures AllShown(world0, kernel.world, leader, kernel.self, found)
    {
      hide Evolves, AllShown;
      EvolvesOn(world0, w, kernel.listing);
      Stays(kernel.world);
      ShownOn(world0, kernel.listing, kernel.world, kernel.world, leader, kernel.self, found);
    }

    /** The members of a scan hold everyone who was in the session since before it. */
    lemma AllMembers(w: World, found: seq<Identity>)
      requires ProcessTable.Valid(w) && ProcessTable.Valid(kernel.listing)
      requires Evolves(w, kernel.listing) && Evolves(kernel.listing, kernel.world)
      requires FullList(kernel.listing, kernel.world, leader, kernel.self, found)
      ensures forall m | InSession(m, leader, kernel.self) && Stayed(w, kernel.world, m) :: m in found
    {
      hide Evolves;
      forall m | InSession(m, leader, kernel.self) && Stayed(w, kernel.world, m) ensures m in found {
        StayedBetween(w, kernel.listing, kernel.world, m);
        assert Remained(kernel.listing, kernel.world, m.pid, leader.session);
      }
    }

    /** The inventory holds nobody twice, and it is called incomplete only when it is full. */
    predicate Bounded()
      reads this
    {
      && |observed| <= OBSERVED_LIMIT && (!inventory ==> |observed| == OBSERVED_LIMIT)
      && forall i, j | 0 <= i < j < |observed| :: observed[i] != observed[j]
    }

    /** Enters the members into the inventory, up to its limit. */
    method Observe()
      requires Bounded()
      modifies `observed, `inventory
      ensures Bounded() && old(observed) <= observed
      ensures forall m | m in observed :: m in old(observed) || m in members
      ensures inventory ==> old(inventory) && forall m | m in members :: m in observed
    {
      for i := 0 to |members|
        invariant Bounded() && old(observed) <= observed
        invariant forall m | m in observed :: m in old(observed) || m in members
        invariant inventory ==> old(inventory) && forall k | 0 <= k < i :: members[k] in observed
      {
        if members[i] !in observed {
          if |observed| < OBSERVED_LIMIT {
            observed := observed + [members[i]];
          } else {
            inventory := false;
          }
        }
      }
    }

    /** Waits for every member but the leader that is still the process it was listed as. */
    method WaitForChildren() returns (done: bool)
      requires Invariant()
      modifies `scanOk, `reaped, kernel`world, kernel`clock, kernel`faults, kernel`malformed, kernel`waited
      ensures old(reaped) <= reaped
      ensures done ==>
                forall m | m in members && m.pid != leader.pid && Stayed(old(kernel.world), kernel.world, m) ::
                  m in reaped[|old(reaped)|..]
      ensures Invariant() && Evolves(old(kernel.world), kernel.world) && old(kernel.clock) <= kernel.clock
      ensures if done then scanOk == old(scanOk) && kernel.malformed == old(kernel.malformed) else !scanOk
    {
      hide Evolves, Invariant, Stayed;
      SinceStart();
      Stays(kernel.world);
      ghost var w0, known := kernel.world, reaped;
      for i := 0 to |members|
        invariant Invariant() && Evolves(w0, kernel.world) && old(kernel.clock) <= kernel.clock && known <= reaped
        invariant scanOk == old(scanOk) && kernel.malformed == old(kernel.malformed)
        invariant forall k | 0 <= k < i && members[k].pid != leader.pid && Stayed(w0, kernel.world, members[k]) ::
                    members[k] in reaped[|known|..]
      {
        ghost var w, sofar := kernel.world, reaped;
        if members[i].pid != leader.pid {
          done := WaitForMember(members[i]);
          if !done {
            EvolvesOn(w0, w, kernel.world);
            return false;
          }
          EvolvesOn(w0, w, kernel.world);
          assert reaped[|known|..] == sofar[|known|..] + reaped[|sofar|..];
          forall k | 0 <= k <= i && members[k].pid != leader.pid && Stayed(w0, kernel.world, members[k])
            ensures members[k] in reaped[|known|..]
          {
            StayedBetween(w0, w, kernel.world, members[k]);
          }
        }
      }
      done := true;
    }

    /** Waits for this process if it still is who it was: for no other, and without fail unless a call fails. */
    method WaitForMember(member: Identity) returns (done: bool)
      requires Invariant() && member in members && member.pid != leader.pid
      modifies `scanOk, `reaped, kernel`world, kernel`clock, kernel`faults, kernel`malformed, kernel`waited
      ensures Invariant() && old(kernel.clock) <= kernel.clock && Evolves(old(kernel.world), kernel.world)
      ensures reaped in {old(reaped), old(reaped) + [member]}
      ensures done && Stayed(old(kernel.world), kernel.world, member) ==> reaped == old(reaped) + [member]
      ensures if done then scanOk == old(scanOk) && kernel.malformed == old(kernel.malformed) else !scanOk
    {
      hide Evolves, Orderly, Owned, Gone, AllShown, InSession, Dated, Stayed;
      ghost var w0 := kernel.world;
      var found := kernel.ProcessIdentity(member.pid);
      ghost var w1 := kernel.world;
      done := found.Seen?;
      Stays(w1);
      if found == Seen(Some(member)) {
        done := kernel.WaitPid(member.pid);
        EvolvesOn(w0, w1, kernel.world);
      }
      Onward(w0);
      if found == Seen(Some(member)) {
        OneMoreShown(world0, kernel.world, leader, kernel.self, members, member, reaped);
        reaped := reaped + [member];
      } else if Stayed(w0, kernel.world, member) {
        StayedBetween(w0, w1, kernel.world, member);
        StaysShown(w0, w1, member);
      }
      if !done {
        scanOk := false;
      }
    }

    /** process.poll(): the exit status, once there is one, stays. */
    method Poll()
      requires Invariant()
      modifies `returncode, kernel`world, kernel`clock
      ensures Invariant() && Evolves(old(kernel.world), kernel.world) && old(kernel.clock) <= kernel.clock
      ensures old(returncode).Some? ==> returncode == old(returncode)
      ensures Gone(old(kernel.world), kernel.child) ==> returncode.Some?
    {
      hide Evolves, Orderly, Owned, Gone, AllShown, InSession, Dated;
      Stays(kernel.world);
      if returncode.None? {
        returncode := kernel.Poll();
      }
      Onward(old(kernel.world));
    }

    method SecondScan() returns (done: bool)
      requires Invariant()
      modifies `members, `scanOk, kernel`world, kernel`clock, kernel`faults, kernel`malformed, kernel`listing
      ensures Invariant() && Evolves(old(kernel.world), kernel.world) && old(kernel.clock) <= kernel.clock
      ensures if done then scanOk == old(scanOk) && kernel.malformed == old(kernel.malformed) && LastScan() else !scanOk
      ensures done ==> Caught(old(kernel.world))
    {
      hide Evolves, Orderly, Owned, Gone, AllShown, InSession, FullList, Dated, Stayed;
      ghost var w0 := kernel.world;
      var scan := kernel.SessionMembers(leader);
      EvolvesOn(w0, kernel.listing, kernel.world);
      EvolvesOn(world0, w0, kernel.listing);
      Onward(w0);
      if Gone(w0, kernel.child) {
        GoneStays(w0, kernel.listing, kernel.child);
      }
      done := scan.Ok?;
      if done {
        Found(w0, scan.value);
        members := scan.value;
        AllMembers(w0, members);
      } else {
        scanOk := false;
      }
    }

    /** The members are those of a scan that began when /proc was last listed, after the child was gone if it is. */
    ghost predicate LastScan()
      reads this, kernel
    {
      && Evolves(world0, kernel.listing) && Evolves(kernel.listing, kernel.world)
      && FullList(kernel.listing, kernel.world, leader, kernel.self, members)
      && AllShown(kernel.listing, kernel.world, leader, kernel.self, members)
      && (returncode.Some? ==> Gone(kernel.listing, kernel.child))
    }

    method StartCleanup(now: int)
      requires Invariant() && window.None? && start <= now <= kernel.reading
      modifies `window
      ensures Invariant() && window == Some(Window(now, Min(end, now + grace)))
    {
      window := Some(Window(now, Min(end, now + grace)));
    }

    /** Signals one member; `raised` when the attempt ends on an entry that cannot be parsed. */
    method SignalOne(member: Identity, signum: nat) returns (raised: bool)
      requires Invariant() && InSession(member, leader, kernel.self)
      requires window.Some? && window.value.Due(kernel.reading) == Some(signum)
      modifies `scanOk, kernel`world, kernel`clock, kernel`faults, kernel`malformed, kernel`deliveries
      ensures Invariant() && Evolves(old(kernel.world), kernel.world) && old(kernel.clock) <= kernel.clock
      ensures old(kernel.deliveries) <= kernel.deliveries
      ensures scanOk ==> old(scanOk)
      ensures if raised then kernel.malformed > old(kernel.malformed) else kernel.malformed == old(kernel.malformed)
      ensures kernel.deliveries == old(kernel.deliveries)
              || (|kernel.deliveries| == |old(kernel.deliveries)| + 1
                  && kernel.deliveries[|old(kernel.deliveries)|].reading == kernel.reading
                  && kernel.deliveries[|old(kernel.deliveries)|].signum == signum)
      ensures !raised && scanOk && Stayed(old(kernel.world), kernel.world, member) ==>
                Signalled(kernel.deliveries[|old(kernel.deliveries)|..], member, signum)
    {
      hide Evolves, Orderly, Owned, Gone, Stayed, Signalled, Window.Due, Dated;
      ghost var before := kernel.deliveries;
      var outcome := kernel.SignalMember(member, signum);
      Onward(old(kernel.world));
      raised := outcome == Unparsed;
      if outcome == Refused {
        scanOk := false;
      }
      if outcome == Sent {
        DeliveredOne(before, kernel.deliveries, member, signum);
        OwnedOn(member, leader, kernel.self, before[|sent0|..], kernel.deliveries[|before|]);
      }
    }

    /** One more delivery of the due signal keeps the order of all since the run began. */
    lemma DeliveredOne(before: seq<Delivery>, after: seq<Delivery>, member: Identity, signum: nat)
      requires window.Some? && window.value.Due(kernel.reading) == Some(signum) && kernel.reading <= kernel.clock
      requires sent0 <= before && Orderly(before[|sent0|..], kernel.reading, window, start, end, grace)
      requires |after| == |before| + 1 && before <= after
      requires after[|before|] == Delivery(after[|before|].to, signum, kernel.reading, kernel.clock)
      requires after[|before|].to.pid == member.pid && after[|before|].to.start == member.start
      ensures after[|sent0|..] == before[|sent0|..] + [after[|before|]]
      ensures Orderly(after[|sent0|..], kernel.reading, window, start, end, grace)
      ensures Signalled(after[|before|..], member, signum)
    {
      hide Window.Due;
      ghost var d := after[|before|];
      assert after[|before|..][0] == d;
    }

    /** Signals every member when a signal is due: whoever keeps its identity receives it, unless a call fails. */
    method SignalMembers(now: int) returns (raised: bool)
      requires Invariant() && window.Some? && now == kernel.reading
      modifies `scanOk, kernel`world, kernel`clock, kernel`faults, kernel`malformed, kernel`deliveries
      ensures Invariant() && Evolves(old(kernel.world), kernel.world) && old(kernel.clock) <= kernel.clock
      ensures old(kernel.deliveries) <= kernel.deliveries
      ensures scanOk ==> old(scanOk)
      ensures if raised then kernel.malformed > old(kernel.malformed) else kernel.malformed == old(kernel.malformed)
      ensures forall i | |old(kernel.deliveries)| <= i < |kernel.deliveries| ::
                var d := kernel.deliveries[i]; d.reading == now && window.value.Due(now) == Some(d.signum)
      ensures !raised && scanOk && window.value.Due(now).Some? ==>
                forall m | m in members && Stayed(old(kernel.world), kernel.world, m) ::
                  Signalled(kernel.deliveries[|old(kernel.deliveries)|..], m, window.value.Due(now).value)
    {
      hide Evolves, Invariant, Stayed, Signalled;
      raised := false;
      var due := window.value.Due(now);
      ghost var w0, sent := kernel.world, kernel.deliveries;
      Stays(w0);
      if due.None? {
        return;
      }
      InvariantMeans();
      for i := 0 to |members|
        invariant Invariant() && Evolves(w0, kernel.world) && old(kernel.clock) <= kernel.clock
        invariant sent <= kernel.deliveries && (scanOk ==> old(scanOk)) && kernel.malformed == old(kernel.malformed)
        invariant forall k | |sent| <= k < |kernel.deliveries| ::
                    kernel.deliveries[k].reading == now && kernel.deliveries[k].signum == due.value
        invariant scanOk ==>
                    forall k | 0 <= k < i && Stayed(w0, kernel.world, members[k]) ::
                      Signalled(kernel.deliveries[|sent|..], members[k], due.value)
      {
        ghost var w, sofar := kernel.world, kernel.deliveries;
        raised := SignalOne(members[i], due.value);
        EvolvesOn(w0, w, kernel.world);
        if raised {
          return;
        }
        if scanOk {
          forall k | 0 <= k <= i && Stayed(w0, kernel.world, members[k])
            ensures Signalled(kernel.deliveries[|sent|..], members[k], due.value)
          {
            StayedBetween(w0, w, kernel.world, members[k]);
            SignalledStays(sent, sofar, kernel.deliveries, members[k], due.value);
          }
        }
      }
    }

    /** A round that signals everyone found since a world reaches all readings of the clock until then. */
    lemma RoundReaches(past: seq<Moment>, last: int, w: World, found: World, at: int, sofar: seq<Delivery>)
      requires Invariant() && window.Some? && past <= kernel.readings && Dated(past, read0, w, last) && last <= at
      requires ProcessTable.Valid(w) && Evolves(w, found) && Evolves(found, kernel.world)
      requires Catches(w, found, leader, kernel.self, members)
      requires sent0 <= sofar <= kernel.deliveries
      requires window.value.Due(at).Some? ==>
                 forall m | m in members && Stayed(found, kernel.world, m) ::
                   Signalled(kernel.deliveries[|sofar|..], m, window.value.Due(at).value)
      ensures ReachedUntil(|past|)
    {
      hide Evolves, Stayed, InSession, Signalled, Orderly, Owned, Gone, AllReached, Window.Due;
      EvolvesOn(w, found, kernel.world);
      ghost var sent := kernel.deliveries[|sent0|..];
      var due := window.value.Due(at);
      if due.Some? {
        forall m | InSession(m, leader, kernel.self) && Stayed(w, kernel.world, m)
          ensures Signalled(sent, m, due.value)
        {
          StayedBetween(w, found, kernel.world, m);
          SignalledStays(sent0, sofar, kernel.deliveries, m, due.value);
        }
      }
      ReachedMore(past, kernel.readings, read0, window, w, kernel.world, last, sent, leader, kernel.self, at);
    }

    lemma InvariantMeans()
      requires Invariant()
      ensures ProcessTable.Valid(kernel.world) && kernel.Consistent()
      ensures forall m | m in members :: InSession(m, leader, kernel.self)
    {
    }

    /** Whatever is in the pipe, or its end, or nothing yet. */
    method Drain(capture: Capture, waiting: bool) returns (still: bool)
      requires capture.Current() && waiting == !capture.eof
      modifies capture
      ensures capture.Current() && still == !capture.eof && old(capture.stream) <= capture.stream
    {
      still := waiting;
      if waiting {
        var chunk := capture.Read();
        if chunk.Some? {
          if chunk.value != [] {
            capture.Add(chunk.value);
          } else {
            capture.eof, still := true, false;
          }
        }
      }
    }

    /** A pause, and what it brought. */
    method DrainBoth(output: Capture, errors: Capture, waiting: bool, waitingErrors: bool)
      returns (still: bool, stillErrors: bool)
      requires Invariant() && output != errors && output.Current() && errors.Current()
      requires waiting == !output.eof && waitingErrors == !errors.eof
      modifies kernel`world, kernel`clock, output, errors
      ensures Invariant() && old(kernel.clock) < kernel.clock && output.Current() && errors.Current()
      ensures still == !output.eof && stillErrors == !errors.eof
      ensures old(Waiting()) ==> Waiting()
      ensures forall to | old(ReachedUntil(to)) :: ReachedUntil(to)
    {
      hide Evolves, Invariant, AllReached, Prompt, Quiet;
      Pause();
      still := Drain(output, waiting);
      stillErrors := Drain(errors, waitingErrors);
    }

    /** Nothing has failed since the run began. */
    ghost predicate Clean()
      reads this, kernel
    {
      scanOk && kernel.malformed == malformed0
    }

    /** The readings of the clock before this one, from which whoever stayed has been sent the signal that was due. */
    ghost predicate ReachedUntil(to: int)
      reads this, kernel
    {
      sent0 <= kernel.deliveries && to <= |kernel.readings|
      && AllReached(kernel.readings, read0, to, window, kernel.world, kernel.deliveries[|sent0|..], leader, kernel.self)
    }

    /**
     * Until this reading the cleanup began in time: when the time of the work was over and, as long
     * as nothing had failed, when the child was gone.
     */
    ghost predicate InTime(to: int)
      reads this, kernel
    {
      && Prompt(kernel.readings, read0, to, end - grace, None, window)
      && (Clean() ==> Prompt(kernel.readings, read0, to, end - grace, Some(kernel.child), window))
    }

    /** The cleanup has begun in time, or there has been nothing yet that asks for it. */
    ghost predicate Waiting()
      reads this, kernel
    {
      && InTime(|kernel.readings|)
      && (window.None? ==>
            && Quiet(kernel.readings, read0, end - grace, None)
            && (Clean() ==> Quiet(kernel.readings, read0, end - grace, Some(kernel.child))))
    }

    lemma NobodyFound()
      requires LastScan() && members == []
      ensures Emptied(world0, kernel.world, leader, kernel.self)
    {
      hide Evolves, FullList;
      Stays(kernel.world);
    }

    /** What the invariant says of a run that is over. */
    lemma WhatHolds()
      requires Invariant()
      ensures Evolves(world0, kernel.world) && sent0 <= kernel.deliveries && kernel.malformed >= malformed0
      ensures Escalates(kernel.deliveries[|sent0|..], window)
      ensures Owned(kernel.deliveries[|sent0|..], leader, kernel.self)
      ensures window.Some? ==> start <= window.value.start && window.value.end == Min(end, window.value.start + grace)
      ensures scanOk ==> kernel.faults == faults0
      ensures kernel.faults == faults0 && kernel.malformed == malformed0 ==> scanOk
      ensures Bounded() && AllShown(world0, kernel.world, leader, kernel.self, observed)
      ensures AllShown(world0, kernel.world, leader, kernel.self, members)
      ensures AllShown(world0, kernel.world, leader, kernel.self, reaped)
      ensures Numbers(kernel.waited, waited0, reaped, leader)
      ensures returncode.Some? ==> Gone(kernel.world, kernel.child)
    {
    }

    lemma SinceStart()
      requires Invariant()
      ensures start <= kernel.reading <= kernel.clock && read0 <= |kernel.readings| && sent0 <= kernel.deliveries
      ensures malformed0 <= kernel.malformed && ProcessTable.Valid(kernel.world)
      ensures Dated(kernel.readings, read0, kernel.world, kernel.reading)
    {
      hide Evolves;
    }

    lemma StillReached(readings: seq<Moment>, reading: int, w: World, sofar: seq<Delivery>)
      requires sent0 <= sofar <= kernel.deliveries && readings <= kernel.readings
      requires Dated(readings, read0, w, reading) && Evolves(w, kernel.world)
      ensures forall to: int | to <= |readings|
                && AllReached(readings, read0, to, window, w, sofar[|sent0|..], leader, kernel.self) :: ReachedUntil(to)
    {
      hide AllReached, Dated, Evolves;
      forall to: int | to <= |readings|
                       && AllReached(readings, read0, to, window, w, sofar[|sent0|..], leader, kernel.self)
        ensures ReachedUntil(to)
      {
        ReachedOn(readings, kernel.readings, read0, to, window, w, kernel.world, reading,
                  sofar[|sent0|..], kernel.deliveries[|sent0|..], leader, kernel.self);
      }
    }

    lemma Fewer(to: int, less: int)
      requires ReachedUntil(to) && less <= to
      ensures ReachedUntil(less)
    {
      hide Reached;
    }

    /** One round of signals to the members found since an earlier reading of the clock. */
    method Round(now: int, ghost past: seq<Moment>, ghost last: int, ghost w: World) returns (raised: bool)
      requires Invariant() && window.Some? && now == kernel.reading
      requires past <= kernel.readings && Dated(past, read0, w, last) && last <= now
      requires ProcessTable.Valid(w) && Evolves(w, kernel.world) && (scanOk ==> Caught(w))
      modifies `scanOk, kernel`world, kernel`clock, kernel`faults, kernel`malformed, kernel`deliveries
      ensures Invariant() && old(kernel.clock) <= kernel.clock
      ensures scanOk ==> old(scanOk)
      ensures if raised then !Clean() else kernel.malformed == old(kernel.malformed)
      ensures Clean() ==> ReachedUntil(|past|)
    {
      hide Evolves, Invariant, Signalled, Stayed, Catches, ReachedUntil, Dated;
      ghost var found, sofar := kernel.world, kernel.deliveries;
      SinceStart();
      raised := SignalMembers(now);
      if !raised && scanOk {
        RoundReaches(past, last, w, found, now, sofar);
      }
    }

    /** Before the cleanup, and as it begins, no KILL has been due. */
    lemma NoneDue()
      requires Invariant() && (window.Some? ==> window.value.start == kernel.reading)
      ensures ReachedUntil(|kernel.readings|)
    {
      hide Evolves, Orderly, Owned, Gone, InSession, Stayed, Signalled;
      SinceStart();
    }

    /** A turn that has looked for the child since its reading of the clock leaves the cleanup in time. */
    lemma InTimeNow(w: World, now: int, before: Option<Window>)
      requires Invariant() && now == kernel.reading && ProcessTable.Valid(w)
      requires Dated(kernel.readings, read0, w, now)
      requires read0 < |kernel.readings| && kernel.readings[|kernel.readings| - 1].at == now
      requires Prompt(kernel.readings, read0, |kernel.readings| - 1, end - grace, None, before)
      requires Clean() ==>
                 Prompt(kernel.readings, read0, |kernel.readings| - 1, end - grace, Some(kernel.child), before)
      requires before.None? || before == window
      requires window.None? ==> now < end - grace && (Clean() ==> !Gone(w, kernel.child))
      ensures Waiting()
    {
      hide Evolves, Owned, Gone, Dated, Prompt, Quiet, Started, AllShown, InSession;
      if window.Some? {
        PromptOn(kernel.readings, read0, end - grace, None, before, window);
        if Clean() {
          PromptOn(kernel.readings, read0, end - grace, Some(kernel.child), before, window);
        }
      } else {
        QuietNow(kernel.readings, read0, w, now, end - grace, kernel.child);
        QuietIsPrompt(kernel.readings, read0, end - grace, None);
        if Clean() {
          QuietIsPrompt(kernel.readings, read0, end - grace, Some(kernel.child));
        }
      }
    }

    /** One turn of the supervised work: a refresh, the start of the cleanup when it is time, a round of signals. */
    method Turn(now: int, cancelled: bool) returns (raised: bool, late: bool)
      requires Invariant() && now == kernel.reading
      requires read0 < |kernel.readings| && kernel.readings[|kernel.readings| - 1].at == now
      requires InTime(|kernel.readings| - 1)
      modifies `members, `scanOk, `observed, `inventory, `returncode, `window, `reaped
      modifies kernel`world, kernel`clock, kernel`faults, kernel`malformed, kernel`deliveries, kernel`listing
      modifies kernel`waited
      ensures Invariant() && old(kernel.clock) <= kernel.clock
      ensures raised ==> !Clean()
      ensures scanOk ==> old(scanOk) && (!raised ==> kernel.malformed == old(kernel.malformed))
      ensures Clean() ==> ReachedUntil(|kernel.readings|)
      ensures old(returncode).Some? ==> returncode.Some?
      ensures old(window).Some? ==> window == old(window)
      ensures late == (old(window).None? && now >= end - grace)
      ensures old(window).None? ==>
                window == if returncode.Some? || cancelled || late
                          then Some(Window(now, Min(end, now + grace))) else None
      ensures Waiting() && InTime(|kernel.readings|)
    {
      hide Evolves, Invariant, Inventoried, LastScan, Signalled, Stayed, Catches, ReachedUntil, Dated, Prompt, Quiet;
      hide Gone;
      ghost var w := kernel.world;
      SinceStart();
      Refresh();
      raised, late := false, window.None? && now >= end - grace;
      if window.None? && (returncode.Some? || cancelled || late) {
        SinceStart();
        StartCleanup(now);
      }
      InTimeNow(w, now, old(window));
      if window.Some? {
        raised := Round(now, kernel.readings, now, w);
      } else {
        NoneDue();
      }
    }

    /** The supervised work and, once it ended or ran out of time, the first part of the cleanup. */
    method Work(output: Capture, errors: Capture) returns (error: bool, exceeded: bool, cancelled: bool)
      requires Invariant() && output != errors && output.Current() && errors.Current() && window.None?
      requires Waiting() && !output.eof && !errors.eof
      modifies this, kernel, output, errors
      ensures Invariant() && output.Current() && errors.Current()
      ensures !error && scanOk ==> kernel.malformed == old(kernel.malformed)
      ensures Clean() ==> ReachedUntil(|kernel.readings| - 1)
      ensures window.Some? ==> returncode.Some? || cancelled || window.value.start >= end - grace
      ensures error || kernel.reading >= end
              || (window.Some? && (kernel.reading >= window.value.end
                                   || (members == [] && returncode.Some? && output.eof && errors.eof)))
      ensures InTime(|kernel.readings|)
      ensures exceeded <==> window.Some? && window.value.start >= end - grace
      ensures cancelled ==> window.Some?
    {
      hide Evolves, Invariant, ReachedUntil, Prompt, Quiet, InTime, Waiting, Capture.Current;
      error, exceeded, cancelled := false, false, false;
      var reading, readingErrors := true, true;
      NoneDue();
      while true
        invariant Invariant() && output.Current() && errors.Current()
        invariant reading == !output.eof && readingErrors == !errors.eof
        invariant scanOk ==> kernel.malformed == old(kernel.malformed)
        invariant Clean() ==> ReachedUntil(|kernel.readings|)
        invariant window.Some? ==> returncode.Some? || cancelled || window.value.start >= end - grace
        invariant Waiting()
        invariant exceeded <==> window.Some? && window.value.start >= end - grace
        invariant cancelled ==> window.Some?
        decreases end - kernel.clock
      {
        var before := Now();
        if before >= end {
          return;
        }
        if * {
          return true, exceeded, cancelled;
        }
        var now := Now();
        var stop := *;
        cancelled := cancelled || stop;
        var raised, late := Turn(now, cancelled);
        exceeded := exceeded || late;
        if raised {
          return true, exceeded, cancelled;
        }
        if window.Some? {
          if (members == [] && returncode.Some? && !reading && !readingErrors) || now >= window.value.end {
            if Clean() {
              Fewer(|kernel.readings|, |kernel.readings| - 1);
            }
            return;
          }
        }
        reading, readingErrors := DrainBoth(output, errors, reading, readingErrors);
      }
    }

    /** Scans and signals until nobody is left or the time of the cleanup is over. */
    method EndSession() returns (raised: bool)
      requires Invariant() && window.Some? && (Clean() ==> ReachedUntil(|kernel.readings| - 1))
      requires InTime(|kernel.readings|)
      modifies `members, `scanOk, `observed, `inventory, `returncode, `reaped, kernel
      ensures Invariant()
      ensures if raised then !Clean() else scanOk ==> old(scanOk) && kernel.malformed == old(kernel.malformed)
      ensures Clean() ==> ReachedUntil(|kernel.readings| - 2)
      ensures Clean() ==> kernel.reading >= window.value.end || Emptied(world0, kernel.world, leader, kernel.self)
      ensures old(returncode).Some? ==> returncode.Some?
      ensures InTime(|kernel.readings|)
    {
      hide Evolves, Invariant, Inventoried, LastScan, Catches, ReachedUntil, Dated, Emptied, Prompt, Quiet;
      raised := false;
      while true
        invariant Invariant() && (old(returncode).Some? ==> returncode.Some?)
        invariant scanOk ==> old(scanOk) && kernel.malformed == old(kernel.malformed)
        invariant Clean() ==> ReachedUntil(|kernel.readings| - 1)
        invariant InTime(|kernel.readings|)
        decreases window.value.end - kernel.clock
      {
        var before := Now();
        if before >= window.value.end {
          return;
        }
        ghost var past, w := kernel.readings, kernel.world;
        SinceStart();
        Refresh();
        if members == [] && returncode.Some? {
          if scanOk {
            NobodyFound();
          }
          return;
        }
        var now := Now();
        raised := Round(now, past, before, w);
        if raised {
          return;
        }
        Pause();
      }
    }

    /** A cleanup that begins with the last reading begins in time for all before it. */
    lemma BegunNow()
      requires read0 < |kernel.readings|
      requires window.Some? && window.value.start <= kernel.readings[|kernel.readings| - 1].at
      requires Prompt(kernel.readings, read0, |kernel.readings| - 1, end - grace, None, None)
      requires Clean() ==>
                 Prompt(kernel.readings, read0, |kernel.readings| - 1, end - grace, Some(kernel.child), None)
      ensures InTime(|kernel.readings|)
    {
      hide Prompt;
      PromptOn(kernel.readings, read0, end - grace, None, None, window);
      if Clean() {
        PromptOn(kernel.readings, read0, end - grace, Some(kernel.child), None, window);
      }
    }

    /** The cleanup that no error of the work can skip. */
    method CleanUp() returns (raised: bool)
      requires Invariant() && (Clean() ==> ReachedUntil(|kernel.readings| - 1))
      requires InTime(|kernel.readings|)
      modifies this, kernel
      ensures Invariant() && InTime(|kernel.readings|)
      ensures raised ==> !Clean()
      ensures !raised && scanOk ==> old(scanOk) && LastScan() && kernel.malformed == old(kernel.malformed)
      ensures Clean() ==> ReachedUntil(|kernel.readings| - 2)
      ensures Clean() ==> (window.Some? && kernel.reading >= window.value.end)
                          || Emptied(world0, kernel.world, leader, kernel.self)
      ensures old(returncode).Some? ==> returncode.Some?
      ensures old(window).Some? ==> window == old(window)
      ensures old(window).None? && window.Some? ==> window.value.start >= old(kernel.reading)
    {
      hide Evolves, Invariant, Inventoried, LastScan, Catches, ReachedUntil, Emptied, Prompt, Quiet;
      raised := false;
      SinceStart();
      Refresh();
      if members != [] {
        if window.None? {
          var now := Now();
          SinceStart();
          StartCleanup(now);
          BegunNow();
          NoneDue();
          Fewer(|kernel.readings|, |kernel.readings| - 1);
        }
        raised := EndSession();
        if raised {
          return;
        }
      } else if Clean() {
        NobodyFound();
        Fewer(|kernel.readings| - 1, |kernel.readings| - 2);
      }
      ghost var w := kernel.world;
      Refresh();
      if Emptied(world0, w, leader, kernel.self) {
        EmptiedOn(world0, w, kernel.world, leader, kernel.self);
      }
    }

    /**
     * A whole run. What is signalled belongs to the worker's session; signals are sent only once the
     * cleanup has begun, each is the one due when the clock was last read, and TERM never follows
     * KILL. Without an error or a cancellation the cleanup begins only when the child has exited or
     * the time of the work is over. It begins no later than the reading that follows the first one
     * at which the time of the work was over or, if nothing fails, the child was gone. If nothing
     * fails, it is not given up before its end unless a scan found nobody; and whoever stays from a
     * reading of the clock at which a signal was due, two more readings following, has been sent it
     * or KILL. Both together say, in terms of the readings and of the deadline alone, who has been
     * sent what: `Deadline`. Everyone reported was a process of the session during the run, and so was
     * everyone waited for, the leader never. The captures hold all that their pipes gave.
     *
     * A cleanup reported complete means that the child had left the table before /proc was last
     * listed, that nobody who was in the session then has stayed in it, and that no call has failed
     * since the run began; without an error reported beside it, no entry was unparsable either.
     * EmptyExactly says what this leaves open. If nothing fails, a known exit status and a session
     * without a member since the last listing are enough for that report.
     */
    method RunOwned(launched: bool, confirmed: bool, output: Capture, errors: Capture) returns (result: RunResult)
      requires Invariant() && Clean() && window == None && returncode == None
      requires kernel.deliveries == sent0 && |kernel.readings| == read0
      requires output != errors && output.Current() && errors.Current() && !output.eof && !errors.eof
      modifies this, kernel, output, errors
      ensures output.Current() && errors.Current()
      ensures Evolves(world0, kernel.world) && sent0 <= kernel.deliveries
      ensures var sent := kernel.deliveries[|sent0|..];
              && Escalates(sent, window) && Owned(sent, leader, kernel.self) && (sent != [] ==> launched)
      ensures window.Some? ==> start <= window.value.start && window.value.end == Min(end, window.value.start + grace)
      ensures window.Some? && !result.error && !result.cancelled ==>
                window.value.start >= Min(end, end - grace) || Gone(kernel.world, kernel.child)
      ensures Prompt(kernel.readings, read0, |kernel.readings|, end - grace, None, window)
      ensures kernel.faults == faults0 && kernel.malformed == malformed0 ==>
                Prompt(kernel.readings, read0, |kernel.readings|, end - grace, Some(kernel.child), window)
      ensures result.cancelled ==> window.Some?
      ensures result.deadlineExceeded ==> window.Some? && window.value.start >= end - grace
      ensures window.Some? && !result.error && end - grace <= window.value.start < end ==> result.deadlineExceeded
      ensures launched && kernel.faults == faults0 && kernel.malformed == malformed0 ==>
                Deadline(kernel.readings, read0, end, grace, kernel.child, kernel.world,
                         kernel.deliveries[|sent0|..], leader, kernel.self)
      ensures launched && kernel.faults == faults0 && kernel.malformed == malformed0 ==>
                && (Emptied(world0, kernel.world, leader, kernel.self)
                    || (window.Some? && kernel.reading >= window.value.end))
                && AllReached(kernel.readings, read0, |kernel.readings| - 2, window, kernel.world,
                              kernel.deliveries[|sent0|..], leader, kernel.self)
      ensures result.complete ==>
                && kernel.faults == faults0 && (!result.error ==> kernel.malformed == malformed0)
                && Gone(kernel.world, kernel.child) && Gone(kernel.listing, kernel.child)
                && Evolves(world0, kernel.listing) && Evolves(kernel.listing, kernel.world)
                && FullList(kernel.listing, kernel.world, leader, kernel.self, [])
      ensures launched && kernel.faults == faults0 && kernel.malformed == malformed0 ==>
                && AllShown(kernel.listing, kernel.world, leader, kernel.self, result.remaining)
                && (result.returncode.Some?
                    && (forall m | InSession(m, leader, kernel.self) :: !WasShown(kernel.listing, kernel.world, m))
                    ==> result.complete)
      ensures |result.observed| <= OBSERVED_LIMIT && (!result.inventory ==> |result.observed| == OBSERVED_LIMIT)
      ensures forall i, j | 0 <= i < j < |result.observed| :: result.observed[i] != result.observed[j]
      ensures AllShown(world0, kernel.world, leader, kernel.self, reaped)
      ensures Numbers(kernel.waited, waited0, reaped, leader)
      ensures AllShown(world0, kernel.world, leader, kernel.self, result.observed)
      ensures AllShown(world0, kernel.world, leader, kernel.self, result.remaining)
    {
      hide Invariant, Evolves, FullList, Gone, Escalates, Owned, AllReached, Emptied, InSession, AllShown, WasShown;
      hide LastScan, Report, Prompt, Quiet, Deadline, Numbers;
      WhatHolds();
      NoneShown(world0, kernel.world);
      NothingRead(kernel.readings, read0, end - grace, None);
      NothingRead(kernel.readings, read0, end - grace, Some(kernel.child));
      if !launched {
        ReportMeans(true, true, false, false);
        return Report(true, true, false, false);
      }
      var error, exceeded, cancelled := true, false, false;
      NoneDue();
      if confirmed {
        error, exceeded, cancelled := Work(output, errors);
      } else {
        Fewer(|kernel.readings|, |kernel.readings| - 1);
      }
      var raised := CleanUp();
      WhatHolds();
      if Clean() {
        DeadlineMet(kernel.readings, read0, end, grace, kernel.child, window, kernel.world,
                    kernel.deliveries[|sent0|..], leader, kernel.self);
      }
      ReportMeans(raised, error, exceeded, cancelled);
      result := Report(raised, error, exceeded, cancelled);
    }

    lemma ReportMeans(raised: bool, error: bool, exceeded: bool, cancelled: bool)
      requires Invariant() && (!raised && scanOk ==> LastScan())
      ensures var result := Report(raised, error, exceeded, cancelled);
              && result.error == error && result.cancelled == cancelled && result.observed == observed
              && result.deadlineExceeded == exceeded && result.inventory == inventory
              && AllShown(world0, kernel.world, leader, kernel.self, result.remaining)
              && (result.complete ==>
                    && !raised && scanOk && Gone(kernel.world, kernel.child) && Gone(kernel.listing, kernel.child)
                    && Evolves(world0, kernel.listing) && Evolves(kernel.listing, kernel.world)
                    && FullList(kernel.listing, kernel.world, leader, kernel.self, []))
              && (!raised && scanOk ==>
                    && AllShown(kernel.listing, kernel.world, leader, kernel.self, result.remaining)
                    && (result.returncode.Some?
                        && (forall m | InSession(m, leader, kernel.self) :: !WasShown(kernel.listing, kernel.world, m))
                        ==> result.complete))
    {
      hide Evolves, FullList, Gone, Orderly, Owned, Dated, InSession, AllShown, WasShown;
      NoneShown(world0, kernel.world);
      if !raised && scanOk && members != [] {
        SomebodyShown(kernel.listing, kernel.world, leader, kernel.self, members);
      }
    }

    /** The result of a run; one that raised out of the cleanup reports nothing of it. */
    function Report(raised: bool, error: bool, exceeded: bool, cancelled: bool): RunResult
      reads this
    {
      if raised then RunResult(None, error, exceeded, observed, inventory, cancelled, false, [], false, false)
      else
        RunResult(returncode, error, exceeded, observed, inventory, cancelled, returncode.Some?, members, scanOk,
                  scanOk && members == [] && returncode.Some?)
    }
  }

  /** One of the deliveries is this signal to the process of this identity. */
  predicate Signalled(sent: seq<Delivery>, m: Identity, signum: nat) {
    exists i | 0 <= i < |sent| :: sent[i].to.pid == m.pid && sent[i].to.start == m.start && sent[i].signum == signum
  }

  lemma SignalledStays(before: seq<Delivery>, between: seq<Delivery>, after: seq<Delivery>, m: Identity, signum: nat)
    requires before <= between <= after
    ensures Signalled(between[|before|..], m, signum) ==> Signalled(after[|before|..], m, signum)
    ensures Signalled(after[|between|..], m, signum) ==> Signalled(after[|before|..], m, signum)
  {
    var first, last, all := between[|before|..], after[|between|..], after[|before|..];
    assert forall i | 0 <= i < |first| :: all[i] == first[i];
    assert forall i | 0 <= i < |last| :: all[|first| + i] == last[i];
  }

  lemma SomebodyShown(since: World, now: World, leader: Identity, self: nat, members: seq<Identity>)
    requires AllShown(since, now, leader, self, members) && members != []
    ensures exists m | InSession(m, leader, self) :: WasShown(since, now, m)
  {
    hide InSession, WasShown;
    assert members[0] in members;
  }

  lemma NoneShown(since: World, now: World)
    ensures forall leader: Identity, self: nat :: AllShown(since, now, leader, self, [])
  {
  }

  lemma ShownInOne(since: World, now: World, leader: Identity, self: nat, a: seq<Identity>, b: seq<Identity>,
                   all: seq<Identity>)
    requires AllShown(since, now, leader, self, a) && AllShown(since, now, leader, self, b)
    requires forall m | m in all :: m in a || m in b
    ensures AllShown(since, now, leader, self, all)
  {
  }

  /** The numbers waited for since the run began are those of these identities, never the leader's. */
  predicate Numbers(waited: seq<nat>, before: seq<nat>, reaped: seq<Identity>, leader: Identity) {
    && before <= waited && |waited| == |before| + |reaped|
    && forall i | 0 <= i < |reaped| :: waited[|before| + i] == reaped[i].pid && reaped[i].pid != leader.pid
  }

  lemma OneMoreShown(since: World, now: World, leader: Identity, self: nat, members: seq<Identity>, m: Identity,
                     reaped: seq<Identity>)
    requires AllShown(since, now, leader, self, members) && m in members && AllShown(since, now, leader, self, reaped)
    ensures AllShown(since, now, leader, self, reaped + [m])
  {
    hide InSession, WasShown;
  }

  lemma StaysShown(before: World, after: World, m: Identity)
    requires Stayed(before, after, m)
    ensures m.pid in after.table && Shown(after.table[m.pid]) == m
  {
  }

  lemma OwnedOn(member: Identity, leader: Identity, self: nat, sent: seq<Delivery>, d: Delivery)
    requires InSession(member, leader, self) && Owned(sent, leader, self)
    requires d.to.pid == member.pid && d.to.start == member.start
    requires d.to.session == member.session || d.to.session == d.to.pid
    ensures Owned(sent + [d], leader, self)
  {
  }

  // The inputs before and after the run.

  datatype Hashing = Finished | ChangedDuringRead | Unavailable

  /** One fingerprint: how the hashing went, and everything it compares when it went well. */
  datatype Fingerprint = Fingerprint(hashing: Hashing, identity: string)

  /** The input is known to have changed. */
  predicate Changed(pre: Fingerprint, post: Fingerprint) {
    || (pre.hashing.Finished? && post.hashing.Finished? && pre != post)
    || pre.hashing.ChangedDuringRead? || post.hashing.ChangedDuringRead?
  }

  /** The input is known to be what it was. */
  predicate Same(pre: Fingerprint, post: Fingerprint) { pre.hashing.Finished? && pre == post }

  /**
   * The verdict over all inputs: false as soon as one is known to have changed, true only when all
   * are known to be the same and both helpers finished, and otherwise neither.
   */
  method FoldIntegrity(before: seq<Fingerprint>, after: seq<Fingerprint>, beforeComplete: bool, afterComplete: bool)
    returns (verdict: Option<bool>, receipt: seq<Option<bool>>)
    requires |before| == |after|
    ensures verdict == Some(false) <==> exists i | 0 <= i < |before| :: Changed(before[i], after[i])
    ensures verdict == Some(true) <==>
              beforeComplete && afterComplete && forall i | 0 <= i < |before| :: Same(before[i], after[i])
    ensures |receipt| == |before|
    ensures forall i | 0 <= i < |before| :: receipt[i] == Some(true) <==> Same(before[i], after[i])
  {
    verdict := if beforeComplete && afterComplete then Some(true) else None;
    receipt := [];
    for i := 0 to |before|
      invariant verdict == Some(false) <==> exists k | 0 <= k < i :: Changed(before[k], after[k])
      invariant verdict == Some(true) <==>
                  beforeComplete && afterComplete && forall k | 0 <= k < i :: Same(before[k], after[k])
      invariant |receipt| == i
      invariant forall k | 0 <= k < i :: receipt[k] == Some(true) <==> Same(before[k], after[k])
    {
      var pre, post := before[i], after[i];
      var complete := pre.hashing.Finished? && post.hashing.Finished?;
      var same := if complete then Some(pre == post) else None;
      if same == Some(false) || pre.hashing.ChangedDuringRead? || post.hashing.ChangedDuringRead? {
        verdict := Some(false);
      } else if same == None && verdict == Some(true) {
        verdict := None;
      }
      receipt := receipt + [same];
    }
  }
}
