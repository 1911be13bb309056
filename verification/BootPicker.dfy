/** The two-second boot picker: a session that is driven by ticks, keys and pointer selections. */
module BootPicker {
  import opened Bytes

  const DELAY: real := 2.0

  /** The two entries, in their order. */
  datatype Entry = Macos | Recovery

  const ENTRIES: seq<Entry> := [Macos, Recovery]

  /** What a pressed key stands for once its name is in canonical form. */
  datatype Token = AltKey | Move(offset: int) | EnterKey | EscapeKey | OtherKey

  datatype State = Idle | Armed | Picker | Selected | Default
  datatype Trigger = Timeout | Alt | AltEnter | AltPointer | Escape

  datatype Event =
    | ArmedAt(at: real)
    | PickerShown(at: real)
    | SelectionMoved(entry: Entry, at: real)
    | EntrySelected(entry: Entry, at: real)
    | PickerCancelled(at: real)
    | DefaultSelected(at: real)

  datatype Session = Session(
    started: Option<real>, state: State, index: nat, selection: Option<Entry>, trigger: Option<Trigger>,
    events: seq<Event>)

  const NEW_SESSION := Session(None, Idle, 0, None, None, [])

  datatype Command =
    | Start(now: real)
    | Tick(now: real)
    | Key(token: Token, pressed: bool, now: real)
    | Select(entry: Option<Entry>, now: real)

  /** Time since the start, never negative: the caller's clock may step back. */
  function Elapsed(s: Session, now: real): real {
    if s.started.None? || now < s.started.value then 0.0 else now - s.started.value
  }

  function Expire(s: Session, now: real): Session {
    if s.state == Armed && Elapsed(s, now) >= DELAY then
      s.(state := Default, selection := Some(Macos), trigger := Some(Timeout),
         events := s.events + [DefaultSelected(now)])
    else s
  }

  /** (index + offset) % len(entries) */
  function Moved(index: nat, offset: int): nat { (index + offset) % 2 }

  function InPicker(s: Session, token: Token, now: real): Session
    requires s.index < 2
  {
    match token
    case Move(offset) =>
      var index := Moved(s.index, offset);
      s.(index := index, events := s.events + [SelectionMoved(ENTRIES[index], now)])
    case EnterKey =>
      s.(state := Selected, selection := Some(ENTRIES[s.index]), trigger := Some(AltEnter),
         events := s.events + [EntrySelected(ENTRIES[s.index], now)])
    case EscapeKey =>
      s.(state := Default, selection := Some(Macos), trigger := Some(Escape),
         events := s.events + [PickerCancelled(now)])
    case _ => s
  }

  /** The effect of one call; a call that raises has none. */
  function Step(s: Session, c: Command): (t: Session)
    requires s.index < 2
    ensures t.index < 2
  {
    match c
    case Start(now) => Session(Some(now), Armed, 0, None, None, [ArmedAt(now)])
    case Tick(now) => Expire(s, now)
    case Key(token, pressed, now) =>
      if s.state == Idle || !pressed then s
      else if s.state == Armed && token == AltKey && Elapsed(s, now) <= DELAY then
        s.(state := Picker, trigger := Some(Alt), events := s.events + [PickerShown(now)])
      else
        var t := Expire(s, now);
        if t.state == Picker then InPicker(t, token, now) else t
    case Select(entry, now) =>
      if s.state != Picker || entry.None? then s
      else
        s.(state := Selected, index := IndexOf(entry.value), selection := entry, trigger := Some(AltPointer),
           events := s.events + [EntrySelected(entry.value, now)])
  }

  function IndexOf(entry: Entry): nat { if entry == Macos then 0 else 1 }

  predicate Raises(s: Session, c: Command) {
    match c
    case Key(_, _, _) => s.state == Idle
    case Select(entry, _) => s.state != Picker || entry.None?
    case _ => false
  }

  class BootPickerSession {
    var started: Option<real>
    var state: State
    var index: nat
    var selection: Option<Entry>
    var trigger: Option<Trigger>
    var events: seq<Event>

    function View(): Session
      reads this
    {
      Session(started, state, index, selection, trigger, events)
    }

    constructor ()
      ensures View() == NEW_SESSION
    {
      started, state, index, selection, trigger, events := None, Idle, 0, None, None, [];
    }

    method Arm(now: real)
      requires index < 2
      modifies this
      ensures View() == Step(old(View()), Start(now))
    {
      started := Some(now);
      state := Armed;
      index := 0;
      selection := None;
      trigger := None;
      events := [ArmedAt(now)];
    }

    method CheckExpiry(now: real)
      modifies `state, `selection, `trigger, `events
      ensures View() == Expire(old(View()), now)
    {
      if state == Armed && Elapsed(View(), now) >= DELAY {
        state := Default;
        selection := Some(Macos);
        trigger := Some(Timeout);
        events := events + [DefaultSelected(now)];
      }
    }

    method OnTick(now: real)
      requires index < 2
      modifies this
      ensures View() == Step(old(View()), Tick(now))
    {
      CheckExpiry(now);
    }

    method KeyEvent(token: Token, pressed: bool, now: real) returns (raised: bool)
      requires index < 2
      modifies this
      ensures raised <==> Raises(old(View()), Key(token, pressed, now))
      ensures View() == Step(old(View()), Key(token, pressed, now))
    {
      raised := state == Idle;
      if raised || !pressed {
        return;
      }
      if state == Armed && token == AltKey && Elapsed(View(), now) <= DELAY {
        state := Picker;
        trigger := Some(Alt);
        events := events + [PickerShown(now)];
        return;
      }
      CheckExpiry(now);
      if state != Picker {
        return;
      }
      match token
      case Move(offset) =>
        index := Moved(index, offset);
        events := events + [SelectionMoved(ENTRIES[index], now)];
      case EnterKey =>
        selection := Some(ENTRIES[index]);
        state := Selected;
        trigger := Some(AltEnter);
        events := events + [EntrySelected(ENTRIES[index], now)];
      case EscapeKey =>
        selection := Some(Macos);
        state := Default;
        trigger := Some(Escape);
        events := events + [PickerCancelled(now)];
      case _ =>
    }

    method SelectEntry(entry: Option<Entry>, now: real) returns (raised: bool)
      requires index < 2
      modifies this
      ensures raised <==> Raises(old(View()), Select(entry, now))
      ensures View() == Step(old(View()), Select(entry, now))
    {
      raised := state != Picker || entry.None?;
      if !raised {
        index := IndexOf(entry.value);
        selection := entry;
        state := Selected;
        trigger := Some(AltPointer);
        events := events + [EntrySelected(entry.value, now)];
      }
    }
  }

  // Whole runs.

  function Run(commands: seq<Command>): (s: Session)
    ensures s.index < 2
    decreases |commands|
  {
    if commands == [] then NEW_SESSION
    else Step(Run(commands[..|commands| - 1]), commands[|commands| - 1])
  }

  /** The session of a run after which a later part of it started no other. */
  predicate SameSession(commands: seq<Command>, i: nat) {
    i < |commands| && commands[i].Start? && forall k | i < k < |commands| :: !commands[k].Start?
  }

  /** An Alt press no more than two seconds after the start of the running session. */
  predicate AltInTime(commands: seq<Command>, i: nat, j: nat) {
    && SameSession(commands, i) && i < j < |commands|
    && commands[j].Key? && commands[j].token == AltKey && commands[j].pressed
    && commands[j].now - commands[i].now <= DELAY
  }

  /** Whatever a session has done since its start, its start is known. */
  lemma {:induction false} StartKnown(commands: seq<Command>)
    ensures var s := Run(commands);
            (s.started.None? <==> s.state == Idle)
            && (s.started.Some? ==> exists i: nat :: SameSession(commands, i) && commands[i].now == s.started.value)
    decreases |commands|
  {
    if commands != [] {
      var n := |commands| - 1;
      var before := commands[..n];
      StartKnown(before);
      if commands[n].Start? {
        assert SameSession(commands, n);
      } else if Run(before).started.Some? {
        var i: nat :| SameSession(before, i) && before[i].now == Run(before).started.value;
        assert SameSession(commands, i);
      }
    }
  }

  /**
   * The picker is only ever shown after an Alt press in time, and nothing but the picker selects
   * Recovery: without that press every run ends in macOS or in nothing.
   */
  lemma {:induction false} RecoveryNeedsAlt(commands: seq<Command>)
    requires var s := Run(commands); s.selection == Some(Recovery) || s.state in {Picker, Selected}
    ensures exists i: nat, j: nat :: AltInTime(commands, i, j)
    decreases |commands|
  {
    var n := |commands| - 1;
    var before, s := commands[..n], Run(commands[..n]);
    if s.selection == Some(Recovery) || s.state in {Picker, Selected} {
      RecoveryNeedsAlt(before);
      var i: nat, j: nat :| AltInTime(before, i, j);
      assert AltInTime(commands, i, j);
    } else {
      StartKnown(before);
      var i: nat :| SameSession(before, i) && before[i].now == s.started.value;
      assert AltInTime(commands, i, n);
    }
  }

  lemma DecidedStep(s: Session, c: Command)
    requires s.state in {Selected, Default} && !c.Start? && s.index < 2
    ensures Step(s, c) == s
  {
  }

  /** Selected and default are final: only a new start leaves them, and the selection stays with them. */
  lemma {:induction false} DecidedStays(commands: seq<Command>, later: seq<Command>)
    requires Run(commands).state in {Selected, Default}
    requires forall k | 0 <= k < |later| :: !later[k].Start?
    ensures var s, t := Run(commands), Run(commands + later);
            t.state == s.state && t.selection == s.selection && t.index == s.index && t.events == s.events
    decreases |later|
  {
    hide Step;
    if later == [] {
      assert commands + later == commands;
    } else {
      var n := |later| - 1;
      DecidedStays(commands, later[..n]);
      DecidedStep(Run(commands + later[..n]), later[n]);
      assert (commands + later)[..|commands| + n] == commands + later[..n];
      assert (commands + later)[|commands| + n] == later[n];
    }
  }

  // The log.

  datatype Summary = Summary(state: State, selection: Option<Entry>, index: nat)

  function Apply(before: Summary, e: Event): Summary {
    match e
    case ArmedAt(_) => Summary(Armed, None, 0)
    case PickerShown(_) => before.(state := Picker)
    case SelectionMoved(entry, _) => before.(index := IndexOf(entry))
    case EntrySelected(entry, _) => Summary(Selected, Some(entry), IndexOf(entry))
    case PickerCancelled(_) => before.(state := Default, selection := Some(Macos))
    case DefaultSelected(_) => before.(state := Default, selection := Some(Macos))
  }

  /** The state, the selection and the highlighted entry, read off the log alone. */
  function Replay(events: seq<Event>): Summary
    decreases |events|
  {
    if events == [] then Summary(Idle, None, 0)
    else Apply(Replay(events[..|events| - 1]), events[|events| - 1])
  }

  function Summarize(s: Session): Summary { Summary(s.state, s.selection, s.index) }

  /** A call that is not a start logs one event that says what it did, or does nothing. */
  lemma StepLogs(s: Session, c: Command)
    requires s.index < 2
    ensures var t := Step(s, c);
            if c.Start? then t.events == [ArmedAt(c.now)] && Summarize(t) == Summary(Armed, None, 0)
            else if t.events == s.events then Summarize(t) == Summarize(s)
            else
              && |t.events| == |s.events| + 1 && t.events[..|s.events|] == s.events
              && Summarize(t) == Apply(Summarize(s), t.events[|s.events|])
  {
  }

  /** In every run the log says it all. */
  lemma {:induction false} LogDeterminesSession(commands: seq<Command>)
    ensures Replay(Run(commands).events) == Summarize(Run(commands))
    decreases |commands|
  {
    hide Step, Apply, Summarize;
    if commands == [] {
      Unstarted();
    } else {
      var n := |commands| - 1;
      var s, t := Run(commands[..n]), Run(commands);
      LogDeterminesSession(commands[..n]);
      StepLogs(s, commands[n]);
      if commands[n].Start? {
        FirstEvent(commands[n].now);
      }
    }
  }

  lemma Unstarted()
    ensures Replay(NEW_SESSION.events) == Summarize(NEW_SESSION)
  {
  }

  lemma FirstEvent(now: real)
    ensures Replay([ArmedAt(now)]) == Summary(Armed, None, 0)
  {
    assert [ArmedAt(now)][..0] == [];
  }

  /** A decided session says why: its selection is macOS unless the picker was used, and it has one. */
  lemma {:induction false} SelectionMatchesState(commands: seq<Command>)
    ensures var s := Run(commands);
            && (s.selection.Some? <==> s.state in {Selected, Default})
            && (s.state == Default ==> s.selection == Some(Macos))
            && (s.state == Selected ==> s.selection == Some(ENTRIES[s.index]))
            && (s.state in {Idle, Armed} ==> s.index == 0)
    decreases |commands|
  {
    if commands != [] {
      SelectionMatchesState(commands[..|commands| - 1]);
    }
  }

  /** The trigger says how the session got where it is. */
  lemma {:induction false} TriggerMatchesState(commands: seq<Command>)
    ensures var s := Run(commands);
            match s.trigger
            case None => s.state in {Idle, Armed}
            case Some(Alt) => s.state == Picker
            case Some(AltEnter) => s.state == Selected
            case Some(AltPointer) => s.state == Selected
            case Some(Timeout) => s.state == Default
            case Some(Escape) => s.state == Default
    decreases |commands|
  {
    if commands != [] {
      TriggerMatchesState(commands[..|commands| - 1]);
    }
  }

  lemma RunOneMore(commands: seq<Command>, c: Command)
    ensures Run(commands + [c]) == Step(Run(commands), c)
  {
    assert (commands + [c])[..|commands|] == commands;
  }

  /** When the running session began. */
  lemma {:induction false} StartedAt(commands: seq<Command>, i: nat)
    requires SameSession(commands, i)
    ensures Run(commands).started == Some(commands[i].now)
    decreases |commands|
  {
    if i < |commands| - 1 {
      StartedAt(commands[..|commands| - 1], i);
    }
  }

  /**
   * An armed session that is looked at two seconds after its start, or later, boots macOS; before
   * that, looking changes nothing.
   */
  lemma TimeoutDecides(commands: seq<Command>, i: nat, now: real)
    requires SameSession(commands, i) && Run(commands).state == Armed
    ensures var t := Run(commands + [Tick(now)]);
            if now - commands[i].now >= 2.0
            then t.state == Default && t.selection == Some(Macos) && t.trigger == Some(Timeout)
            else t == Run(commands)
  {
    hide Run;
    StartedAt(commands, i);
    RunOneMore(commands, Tick(now));
  }

  /** In an armed session Alt shows the picker up to and including two seconds; any key after that boots macOS. */
  lemma KeysWhileArmed(commands: seq<Command>, i: nat, token: Token, now: real)
    requires SameSession(commands, i) && Run(commands).state == Armed
    ensures var t := Run(commands + [Key(token, true, now)]);
            var age := now - commands[i].now;
            && (token == AltKey && age <= 2.0 ==> t.state == Picker && t.selection == None && t.index == 0)
            && (age > 2.0 || (token != AltKey && age >= 2.0) ==>
                  t.state == Default && t.selection == Some(Macos) && t.trigger == Some(Timeout))
            && (token != AltKey && age < 2.0 ==> t == Run(commands))
  {
    hide Run;
    StartedAt(commands, i);
    RunOneMore(commands, Key(token, true, now));
    SelectionMatchesState(commands);
  }

  /** Moves in a visible picker: the arrow keys go one entry up or down. */
  predicate OnlyMoves(moves: seq<Command>) {
    forall k | 0 <= k < |moves| ::
      moves[k].Key? && moves[k].pressed && moves[k].token in {Move(-1), Move(1)}
  }

  /** Each move goes to the other entry, so two of them, up or down, cancel out. */
  lemma {:induction false} MovesAlternate(commands: seq<Command>, moves: seq<Command>)
    requires Run(commands).state == Picker && OnlyMoves(moves)
    ensures var t := Run(commands + moves);
            && t.state == Picker && t.selection == Run(commands).selection
            && (t.index == Run(commands).index <==> |moves| % 2 == 0)
    decreases |moves|
  {
    hide Run;
    if moves == [] {
      assert commands + moves == commands;
    } else {
      var n := |moves| - 1;
      MovesAlternate(commands, moves[..n]);
      RunOneMore(commands + moves[..n], moves[n]);
      assert commands + moves == (commands + moves[..n]) + [moves[n]];
      OneMove(Run(commands + moves[..n]).index, moves[n].token.offset);
    }
  }

  lemma OneMove(index: nat, offset: int)
    requires index < 2 && offset in {-1, 1}
    ensures Moved(index, offset) == 1 - index
  {
  }

  /** Enter after any number of moves: it selects Recovery if that number is odd, macOS if it is even. */
  lemma EnterAfterMoves(commands: seq<Command>, i: nat, alt: real, moves: seq<Command>, enter: real)
    requires SameSession(commands, i) && Run(commands).state == Armed && alt - commands[i].now <= 2.0
    requires OnlyMoves(moves)
    ensures var t := Run(((commands + [Key(AltKey, true, alt)]) + moves) + [Key(EnterKey, true, enter)]);
            && t.state == Selected && t.trigger == Some(AltEnter)
            && t.selection == Some(if |moves| % 2 == 0 then Macos else Recovery)
  {
    hide Run;
    var shown := commands + [Key(AltKey, true, alt)];
    KeysWhileArmed(commands, i, AltKey, alt);
    MovesAlternate(shown, moves);
    RunOneMore(shown + moves, Key(EnterKey, true, enter));
  }
}
