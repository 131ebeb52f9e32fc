/**
 * The foreground loop of `main`: once per second it checks for a key
 * press, toggles the pause flag on a lower-case `p`, sleeps one second
 * (while the MIDI poller may change the flag) and then counts the second
 * only if recording is not paused. It stops once the count of unpaused
 * seconds reaches the requested duration.
 *
 * The operator's actions are given as a finite list of `Second`s, one per
 * pass of the loop; the loop also stops if that list runs out. The
 * requested duration is a whole number of seconds.
 */
module TimedLoop {
  import opened Wrappers
  import opened Pause
  import opened MidiGate

  /** What happens during one pass: the key read, if one was waiting, and the MIDI input drained during the sleep. */
  datatype Second = Second(key: Option<char>, midi: seq<ReadResult>)

  /** Whether the MIDI poller runs, and which controller it listens to. */
  datatype MidiConfig = MidiConfig(active: bool, binding: Binding)

  /** The keyboard toggle: only a lower-case `p` flips the flag. */
  function KeyStep(paused: bool, key: Option<char>): (r: bool)
    ensures r != paused <==> key == Some('p')
  {
    if key == Some('p') then !paused else paused
  }

  /** The pause flag after one pass. */
  function SecondStep(cfg: MidiConfig, paused: bool, s: Second): bool {
    var afterKey := KeyStep(paused, s.key);
    if cfg.active then Drain(cfg.binding, afterKey, s.midi) else afterKey
  }

  /** The pause flag after the passes `ss`. */
  function PausedAfter(cfg: MidiConfig, paused: bool, ss: seq<Second>): bool
    decreases |ss|
  {
    if ss == [] then paused
    else SecondStep(cfg, PausedAfter(cfg, paused, ss[..|ss| - 1]), ss[|ss| - 1])
  }

  /** The passes among `ss` that ended unpaused: the seconds the loop counts. */
  function Elapsed(cfg: MidiConfig, paused: bool, ss: seq<Second>): (n: nat)
    decreases |ss|
  {
    if ss == [] then 0
    else Elapsed(cfg, paused, ss[..|ss| - 1]) + (if PausedAfter(cfg, paused, ss) then 0 else 1)
  }

  /** Number of lower-case `p` presses in `ss`. */
  function Presses(ss: seq<Second>): nat
    decreases |ss|
  {
    if ss == [] then 0
    else Presses(ss[..|ss| - 1]) + (if ss[|ss| - 1].key == Some('p') then 1 else 0)
  }

  /**
   * The loop of `main`. Returns the count of unpaused seconds and the number
   * of passes made. It stops at the first pass after which the count
   * reaches `target` (or when the input runs out), and the count is exactly
   * the number of passes that ended unpaused.
   */
  method RecordFor(gate: PauseGate, cfg: MidiConfig, target: nat, seconds: seq<Second>)
    returns (delayCntr: nat, iterations: nat)
    modifies gate
    ensures iterations <= |seconds|
    ensures delayCntr == Elapsed(cfg, old(gate.paused), seconds[..iterations]) <= target
    ensures gate.paused == PausedAfter(cfg, old(gate.paused), seconds[..iterations])
    ensures delayCntr == target || iterations == |seconds|
    ensures forall k :: 0 <= k < iterations ==> Elapsed(cfg, old(gate.paused), seconds[..k]) < target
  {
    ghost var start := gate.paused;
    delayCntr, iterations := 0, 0;
    while delayCntr < target && iterations < |seconds|
      invariant iterations <= |seconds|
      invariant delayCntr == Elapsed(cfg, start, seconds[..iterations]) <= target
      invariant gate.paused == PausedAfter(cfg, start, seconds[..iterations])
      invariant forall k :: 0 <= k < iterations ==> Elapsed(cfg, start, seconds[..k]) < target
    {
      var s := seconds[iterations];
      if s.key == Some('p') {
        if gate.paused == false {
          gate.paused := true;
        } else {
          gate.paused := false;
        }
      }
      // the one-second sleep, during which the MIDI poller drains its queue
      var consumed := ReceivePoll(gate, cfg.active, cfg.binding, s.midi);
      assert s.midi[..|s.midi|] == s.midi;
      if !gate.paused {
        delayCntr := delayCntr + 1;
      }
      assert seconds[..iterations + 1][..iterations] == seconds[..iterations];
      iterations := iterations + 1;
    }
  }

  /** Without MIDI input, the flag ends flipped exactly when `p` was pressed an odd number of times. */
  lemma {:induction false} PausedAfterPresses(cfg: MidiConfig, paused: bool, ss: seq<Second>)
    requires !cfg.active
    ensures PausedAfter(cfg, paused, ss) == (paused != (Presses(ss) % 2 == 1))
    decreases |ss|
  {
    if ss != [] {
      PausedAfterPresses(cfg, paused, ss[..|ss| - 1]);
    }
  }

  /** Each pass counts at most one second. */
  lemma {:induction false} ElapsedAtMostPasses(cfg: MidiConfig, paused: bool, ss: seq<Second>)
    ensures Elapsed(cfg, paused, ss) <= |ss|
    decreases |ss|
  {
    if ss != [] {
      ElapsedAtMostPasses(cfg, paused, ss[..|ss| - 1]);
    }
  }

  /** With no MIDI input and no key pressed, a recording that starts unpaused counts every pass. */
  lemma {:induction false} ElapsedWithoutPauses(cfg: MidiConfig, ss: seq<Second>)
    requires !cfg.active
    requires forall i :: 0 <= i < |ss| ==> ss[i].key != Some('p')
    ensures !PausedAfter(cfg, false, ss) && Elapsed(cfg, false, ss) == |ss|
    decreases |ss|
  {
    if ss != [] {
      ElapsedWithoutPauses(cfg, ss[..|ss| - 1]);
    }
  }

  /** An upper-case `P` does not toggle the flag. */
  lemma UpperCaseIgnored(paused: bool)
    ensures KeyStep(paused, Some('P')) == paused
  {
  }

  /**
   * Pausing for two of five requested seconds: `p` at the first and third
   * passes, no MIDI. The count stays below 5 for six passes and reaches 5
   * at the seventh.
   */
  lemma TwoPausedSeconds(cfg: MidiConfig)
    requires !cfg.active
    ensures var press, idle := Second(Some('p'), []), Second(None, []);
      var ss := [press, idle, press, idle, idle, idle, idle];
      (forall k :: 0 <= k < 7 ==> Elapsed(cfg, false, ss[..k]) < 5) &&
      Elapsed(cfg, false, ss) == 5
  {
    var press, idle := Second(Some('p'), []), Second(None, []);
    var ss := [press, idle, press, idle, idle, idle, idle];
    assert !PausedAfter(cfg, false, ss[..0]) && Elapsed(cfg, false, ss[..0]) == 0 by { assert ss[..0] == []; }
    assert PausedAfter(cfg, false, ss[..1]) && Elapsed(cfg, false, ss[..1]) == 0 by {
      assert ss[..1][..0] == ss[..0] && ss[..1][0] == ss[0];
    }
    assert PausedAfter(cfg, false, ss[..2]) && Elapsed(cfg, false, ss[..2]) == 0 by {
      assert ss[..2][..1] == ss[..1] && ss[..2][1] == ss[1];
    }
    assert !PausedAfter(cfg, false, ss[..3]) && Elapsed(cfg, false, ss[..3]) == 1 by {
      assert ss[..3][..2] == ss[..2] && ss[..3][2] == ss[2];
    }
    assert !PausedAfter(cfg, false, ss[..4]) && Elapsed(cfg, false, ss[..4]) == 2 by {
      assert ss[..4][..3] == ss[..3] && ss[..4][3] == ss[3];
    }
    assert !PausedAfter(cfg, false, ss[..5]) && Elapsed(cfg, false, ss[..5]) == 3 by {
      assert ss[..5][..4] == ss[..4] && ss[..5][4] == ss[4];
    }
    assert !PausedAfter(cfg, false, ss[..6]) && Elapsed(cfg, false, ss[..6]) == 4 by {
      assert ss[..6][..5] == ss[..5] && ss[..6][5] == ss[5];
    }
    assert !PausedAfter(cfg, false, ss[..7]) && Elapsed(cfg, false, ss[..7]) == 5 by {
      assert ss[..7][..6] == ss[..6] && ss[..7][6] == ss[6];
    }
    assert ss[..7] == ss;
  }
}
