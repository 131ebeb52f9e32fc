/**
 * The MIDI monitor's keyboard commands (`doascii`) and the filter set-up in
 * `main`. Each display flag has a matching group of message types in the
 * input filter; a command toggles the flag and flips the group's bits in the
 * filter word, and once the monitor is set up the filter is handed to the
 * MIDI input after every command.
 *
 * The PortMidi bit masks of the groups are not part of this model. Because
 * the source only ever flips a group's mask with exclusive-or, the filter
 * word is determined by the set of groups flipped an odd number of times,
 * and that set is what the model keeps. The console messages and the help
 * text are not modelled.
 */
module MidiMonitor {

  /** The monitor's counters are C `uint32_t`s. */
  const CounterModulus: nat := 0x1_0000_0000

  /** The message groups the filter masks select; `RealTime` stands for the play, reset, tick and undefined masks together. */
  datatype Group = PitchBend | Control | Program | Note | Sysex | RealTime | Clock

  /** The monitor's globals that `doascii` reads or writes; `filter` holds the groups whose bits are set. */
  datatype MonitorState = MonitorState(
    done: bool, notes: bool, controls: bool, bender: bool, excldata: bool, verbose: bool,
    realdata: bool, clksencnt: bool, chmode: bool, pgchanges: bool,
    filter: set<Group>, clockcount: nat, actsensecount: nat, notescount: nat, notestotal: nat)

  /** `filter ^= mask` for one group's mask. */
  function Flip(filter: set<Group>, g: Group): (r: set<Group>)
    ensures g in r <==> g !in filter
    ensures forall h :: h != g ==> (h in r <==> h in filter)
  {
    if g in filter then filter - {g} else filter + {g}
  }

  /** What a typed character asks for. */
  datatype Command =
    | Quit
    | ToggleBender | ToggleControls | ToggleProgramChanges | ToggleNotes
    | ToggleSysex | ToggleRealTime | ToggleClockCounting
    | ShowClockCounts | TotalNotes | ToggleVerbose | ToggleChannelMode
    | NoCommand

  /** `tolower` on an upper-case ASCII letter; other characters unchanged. */
  function ToLower(c: char): (r: char)
    ensures 'A' <= c <= 'Z' ==> r as int == c as int + 32
    ensures !('A' <= c <= 'Z') ==> r == c
  {
    if 'A' <= c <= 'Z' then (c as int + 32) as char else c
  }

  /** The command letters, in the order `doascii` tests them. */
  const CommandKeys: string := "qbchnxrkstvm"

  /** How `doascii` reads a character: case-blind, one letter per command. */
  function KeyCommand(key: char): Command {
    var c := ToLower(key);
    if c == 'q' then Quit
    else if c == 'b' then ToggleBender
    else if c == 'c' then ToggleControls
    else if c == 'h' then ToggleProgramChanges
    else if c == 'n' then ToggleNotes
    else if c == 'x' then ToggleSysex
    else if c == 'r' then ToggleRealTime
    else if c == 'k' then ToggleClockCounting
    else if c == 's' then ShowClockCounts
    else if c == 't' then TotalNotes
    else if c == 'v' then ToggleVerbose
    else if c == 'm' then ToggleChannelMode
    else NoCommand
  }

  /** The state a command leaves behind. */
  function Apply(s: MonitorState, cmd: Command): MonitorState {
    match cmd
    case Quit => s.(done := true)
    case ToggleBender => s.(bender := !s.bender, filter := Flip(s.filter, PitchBend))
    case ToggleControls => s.(controls := !s.controls, filter := Flip(s.filter, Control))
    case ToggleProgramChanges => s.(pgchanges := !s.pgchanges, filter := Flip(s.filter, Program))
    case ToggleNotes => s.(notes := !s.notes, filter := Flip(s.filter, Note))
    case ToggleSysex => s.(excldata := !s.excldata, filter := Flip(s.filter, Sysex))
    case ToggleRealTime => s.(realdata := !s.realdata, filter := Flip(s.filter, RealTime))
    case ToggleClockCounting =>
      if s.clksencnt then s.(clksencnt := false, filter := Flip(s.filter, Clock), clockcount := 0, actsensecount := 0)
      else s.(clksencnt := true, filter := Flip(s.filter, Clock))
    case ShowClockCounts => s
    case TotalNotes => s.(notestotal := (s.notestotal + s.notescount) % CounterModulus, notescount := 0)
    case ToggleVerbose => s.(verbose := !s.verbose)
    case ToggleChannelMode => s.(chmode := !s.chmode)
    case NoCommand => s
  }

  /** The state `doascii(key)` leaves behind. */
  function AsciiCommand(s: MonitorState, key: char): MonitorState {
    Apply(s, KeyCommand(key))
  }

  /** The display flag that governs a group. */
  function Shown(s: MonitorState, g: Group): bool {
    match g
    case PitchBend => s.bender
    case Control => s.controls
    case Program => s.pgchanges
    case Note => s.notes
    case Sysex => s.excldata
    case RealTime => s.realdata
    case Clock => s.clksencnt
  }

  /** The filter agrees with the flags: a group is filtered out exactly when its display flag is off. */
  predicate FilterConsistent(s: MonitorState) {
    (PitchBend in s.filter <==> !Shown(s, PitchBend)) &&
    (Control in s.filter <==> !Shown(s, Control)) &&
    (Program in s.filter <==> !Shown(s, Program)) &&
    (Note in s.filter <==> !Shown(s, Note)) &&
    (Sysex in s.filter <==> !Shown(s, Sysex)) &&
    (RealTime in s.filter <==> !Shown(s, RealTime)) &&
    (Clock in s.filter <==> !Shown(s, Clock))
  }

  /** Consistency, group by group. */
  lemma FilterConsistentMeans(s: MonitorState)
    ensures FilterConsistent(s) <==> forall g :: g in s.filter <==> !Shown(s, g)
  {
    if FilterConsistent(s) {
      forall g ensures g in s.filter <==> !Shown(s, g) {
        match g {
          case PitchBend => case Control => case Program => case Note =>
          case Sysex => case RealTime => case Clock =>
        }
      }
    }
  }

  /** The globals' initial values: every display flag on, nothing filtered, counters at zero. */
  const Initial: MonitorState := MonitorState(
    done := false, notes := true, controls := true, bender := true, excldata := true, verbose := true,
    realdata := true, clksencnt := true, chmode := true, pgchanges := true,
    filter := {}, clockcount := 0, actsensecount := 0, notescount := 0, notestotal := 0)

  class Monitor {
    /** The display flags, the filter and the counters. */
    var state: MonitorState
    /** Set once `main` has configured the MIDI input; before that, commands neither print nor touch the device. */
    var inited: bool
    /** The filter last handed to the MIDI input (`Pm_SetFilter`). */
    var deviceFilter: set<Group>

    /** The globals as the program starts. */
    constructor ()
      ensures state == Initial && !inited && deviceFilter == {}
    {
      state := Initial;
      inited, deviceFilter := false, {};
    }

    /**
     * `doascii`: interprets one typed character. Upper-case letters act as
     * their lower-case forms; any other character changes no flag. Once the
     * monitor is set up, the filter is handed to the device afterwards.
     */
    method DoAscii(key: char)
      modifies this
      ensures state == AsciiCommand(old(state), key)
      ensures inited == old(inited)
      ensures deviceFilter == if inited then state.filter else old(deviceFilter)
      ensures FilterConsistent(old(state)) ==> FilterConsistent(state)
    {
      if FilterConsistent(state) {
        CommandKeepsFilterConsistent(state, KeyCommand(key));
      }
      state := AsciiCommand(state, key);
      if inited {
        deviceFilter := state.filter;
      }
    }

    /**
     * The MIDI set-up in `main`: turns off pitch bend, program changes,
     * notes, system exclusive, real-time and clock reporting, flipping each
     * group in the filter, hands the filter to the device and marks the
     * monitor ready.
     */
    method Configure()
      requires state == Initial && !inited
      modifies this
      ensures state == Ready() && inited && deviceFilter == state.filter
    {
      state := state.(bender := false, filter := Flip(state.filter, PitchBend));
      state := state.(pgchanges := false, filter := Flip(state.filter, Program));
      state := state.(notes := false, filter := Flip(state.filter, Note));
      state := state.(excldata := false, filter := Flip(state.filter, Sysex));
      state := state.(realdata := false, filter := Flip(state.filter, RealTime));
      state := state.(clksencnt := false, filter := Flip(state.filter, Clock));
      deviceFilter := state.filter;
      inited := true;
    }
  }

  /** The state after `main`'s MIDI set-up: every group a key toggles is filtered out except Control Changes. */
  function Ready(): (s: MonitorState)
    ensures FilterConsistent(s) && s.filter == {PitchBend, Program, Note, Sysex, RealTime, Clock}
    ensures s.controls && s.verbose && s.chmode
  {
    Initial.(bender := false, pgchanges := false, notes := false, excldata := false, realdata := false,
             clksencnt := false, filter := {PitchBend, Program, Note, Sysex, RealTime, Clock})
  }

  /** The set-up is the same as typing b, h, n, x, r and k before the monitor is ready. */
  lemma ReadyIsTyped()
    ensures Ready() == AsciiCommand(AsciiCommand(AsciiCommand(AsciiCommand(
      AsciiCommand(AsciiCommand(Initial, 'b'), 'h'), 'n'), 'x'), 'r'), 'k')
  {
    assert KeyCommand('b') == ToggleBender && KeyCommand('h') == ToggleProgramChanges;
    assert KeyCommand('n') == ToggleNotes && KeyCommand('x') == ToggleSysex;
    assert KeyCommand('r') == ToggleRealTime && KeyCommand('k') == ToggleClockCounting;
  }

  /** Initially no flag is off and nothing is filtered. */
  lemma InitialConsistent()
    ensures FilterConsistent(Initial)
  {
  }

  /** Every command keeps the filter in step with the flags. */
  lemma CommandKeepsFilterConsistent(s: MonitorState, cmd: Command)
    requires FilterConsistent(s)
    ensures FilterConsistent(Apply(s, cmd))
  {
  }

  /** Typing a display toggle twice restores every flag, the filter and every counter. */
  lemma ToggleTwiceRestores(s: MonitorState, cmd: Command)
    requires cmd in {ToggleBender, ToggleControls, ToggleProgramChanges, ToggleNotes,
                     ToggleSysex, ToggleRealTime, ToggleVerbose, ToggleChannelMode}
    ensures Apply(Apply(s, cmd), cmd) == s
  {
  }

  /** The clock toggle typed twice restores the flag and the filter, but the switch-off on the way clears both counts. */
  lemma ClockToggleTwice(s: MonitorState)
    ensures Apply(Apply(s, ToggleClockCounting), ToggleClockCounting) == s.(clockcount := 0, actsensecount := 0)
  {
  }

  /** `t` moves the running note count into the total; typed again straight away it changes nothing more. */
  lemma TotalIdempotent(s: MonitorState)
    requires s.notestotal < CounterModulus
    ensures var t := Apply(s, TotalNotes);
      t.notescount == 0 && t.notestotal == (s.notestotal + s.notescount) % CounterModulus &&
      Apply(t, TotalNotes) == t
  {
  }

  /** Exactly the twelve command letters, in either case, are commands. */
  lemma NoCommandExactly(key: char)
    ensures KeyCommand(key) == NoCommand <==> ToLower(key) !in CommandKeys
  {
  }

  /** Case does not matter. */
  lemma UpperCaseAsLower(key: char)
    requires 'A' <= key <= 'Z'
    ensures KeyCommand(key) == KeyCommand((key as int + 32) as char)
  {
  }

  /** `q` asks to stop and changes nothing else; a character that is no command changes nothing. */
  lemma QuitAndOthers(s: MonitorState, key: char)
    ensures AsciiCommand(s, 'q') == s.(done := true) && AsciiCommand(s, 'Q') == s.(done := true)
    ensures ToLower(key) !in CommandKeys ==> AsciiCommand(s, key) == s
  {
  }
}
