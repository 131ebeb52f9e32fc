/**
 * The MIDI pause control: `receive_poll`, which a timer calls periodically
 * to drain the MIDI input queue. A Control Change for the configured
 * controller on the configured channel sets the pause flag outright: values
 * 0-63 resume recording, any other value pauses it. Every other event, and
 * every read error, leaves the flag as it was.
 *
 * The message bytes are taken as given (the PortMidi macros that extract
 * them are not part of this model); the log lines the poller prints are not
 * modelled.
 */
module MidiGate {
  import opened Wrappers
  import opened Pause

  /** Status byte of a Control Change on the first channel. */
  const MidiCtrl: int := 0xB0

  /** A short MIDI message: its status byte and its two data bytes. */
  datatype MidiMessage = MidiMessage(status: Byte, data1: Byte, data2: Byte)

  /** One result of reading the MIDI input: an event, or an error code. */
  datatype ReadResult = Event(message: MidiMessage) | ReadError(code: int)

  /**
   * The configured channel (0 for channel 1) and controller number. They
   * come from the command line unchecked, so any integer is possible.
   */
  datatype Binding = Binding(channel: int, controller: int)

  /** The source's test: status minus 0xB0 is the channel, and the first data byte is the controller. */
  predicate Matches(b: Binding, m: MidiMessage) {
    m.status as int - MidiCtrl == b.channel && m.data1 as int == b.controller
  }

  /** The Control Change channel of `m` as MIDI 1.0 defines it: status 0xBn is a Control Change on channel n. */
  function ControlChangeChannel(m: MidiMessage): (ch: Option<int>)
    ensures ch.Some? ==> 0 <= ch.value < 16
  {
    if m.status as int / 16 == 0xB then Some(m.status as int % 16) else None
  }

  /** The pause flag after one read result. */
  function ApplyEvent(b: Binding, paused: bool, e: ReadResult): (r: bool)
    ensures e.Event? && Matches(b, e.message) ==> (r <==> 64 <= e.message.data2)
    ensures !(e.Event? && Matches(b, e.message)) ==> r == paused
  {
    match e
    case ReadError(_) => paused
    case Event(m) =>
      if m.status as int - MidiCtrl == b.channel then
        if m.data1 as int == b.controller then
          !(0 <= m.data2 < 64)
        else paused
      else paused
  }

  /** The pause flag after the read results `es`, in order. */
  function Drain(b: Binding, paused: bool, es: seq<ReadResult>): bool
    decreases |es|
  {
    if es == [] then paused
    else ApplyEvent(b, Drain(b, paused, es[..|es| - 1]), es[|es| - 1])
  }

  /** The value carried by the last matching Control Change in `es`, if any. */
  function LastMatchingValue(b: Binding, es: seq<ReadResult>): (v: Option<Byte>)
    decreases |es|
  {
    if es == [] then None
    else if es[|es| - 1].Event? && Matches(b, es[|es| - 1].message) then Some(es[|es| - 1].message.data2)
    else LastMatchingValue(b, es[..|es| - 1])
  }

  /**
   * For a channel in 0..15 the source's test accepts exactly the Control
   * Changes on that channel for the configured controller.
   */
  lemma MatchesControlChange(b: Binding, m: MidiMessage)
    requires 0 <= b.channel < 16
    ensures Matches(b, m) <==> ControlChangeChannel(m) == Some(b.channel) && m.data1 as int == b.controller
  {
  }

  /**
   * The channel is not range-checked, so a status that is no Control Change
   * can pass the test. Neither aftertouch kind is among the groups the MIDI
   * set-up filters out, so both reach the test. Configured as -16, the test
   * accepts a polyphonic aftertouch on the first channel (status 0xA0)
   * whose key equals the controller number, and its pressure pauses the
   * recording. Configured as 32, it accepts a channel aftertouch on the
   * first channel (status 0xD0) whose pressure equals the controller
   * number, and its absent second data byte, 0, resumes the recording.
   */
  lemma UncheckedChannelMatchesAftertouch()
    ensures var poly := MidiMessage(0xA0, 64, 100);
      Matches(Binding(-16, 64), poly) && ControlChangeChannel(poly) == None &&
      ApplyEvent(Binding(-16, 64), false, Event(poly))
    ensures var pressure := MidiMessage(0xD0, 64, 0);
      Matches(Binding(32, 64), pressure) && ControlChangeChannel(pressure) == None &&
      !ApplyEvent(Binding(32, 64), true, Event(pressure))
  {
  }

  /** A value of 0 resumes, 127 pauses, and another channel or controller changes nothing. */
  lemma ControlChangeExamples(paused: bool)
    ensures !ApplyEvent(Binding(0, 64), paused, Event(MidiMessage(0xB0, 64, 0)))
    ensures ApplyEvent(Binding(0, 64), paused, Event(MidiMessage(0xB0, 64, 127)))
    ensures ApplyEvent(Binding(0, 64), paused, Event(MidiMessage(0xB1, 64, 127))) == paused
    ensures ApplyEvent(Binding(0, 64), paused, Event(MidiMessage(0xB0, 7, 127))) == paused
  {
  }

  /** Draining the queue leaves the flag as the last matching Control Change set it, or untouched if none matched. */
  lemma {:induction false} DrainIsLastMatch(b: Binding, paused: bool, es: seq<ReadResult>)
    ensures Drain(b, paused, es) == match LastMatchingValue(b, es)
      case None => paused
      case Some(v) => 64 <= v
    decreases |es|
  {
    if es != [] {
      DrainIsLastMatch(b, paused, es[..|es| - 1]);
    }
  }

  /** Events split across two polls have the same effect as one poll of them all. */
  lemma {:induction false} DrainSplit(b: Binding, paused: bool, es1: seq<ReadResult>, es2: seq<ReadResult>)
    ensures Drain(b, paused, es1 + es2) == Drain(b, Drain(b, paused, es1), es2)
    decreases |es2|
  {
    if es2 == [] {
      assert es1 + es2 == es1;
    } else {
      var n := |es2| - 1;
      assert (es1 + es2)[..|es1 + es2| - 1] == es1 + es2[..n];
      DrainSplit(b, paused, es1, es2[..n]);
    }
  }

  /**
   * `receive_poll`: when MIDI input is active, reads every pending result
   * and applies each in turn to the pause flag; when it is not, reads
   * nothing. Returns how many results were read.
   */
  method ReceivePoll(gate: PauseGate, active: bool, b: Binding, pending: seq<ReadResult>) returns (consumed: nat)
    modifies gate
    ensures consumed == if active then |pending| else 0
    ensures gate.paused == Drain(b, old(gate.paused), pending[..consumed])
  {
    if !active {
      return 0;
    }
    consumed := 0;
    while consumed < |pending|
      invariant consumed <= |pending|
      invariant gate.paused == Drain(b, old(gate.paused), pending[..consumed])
    {
      assert pending[..consumed + 1][..consumed] == pending[..consumed];
      gate.paused := ApplyEvent(b, gate.paused, pending[consumed]);
      consumed := consumed + 1;
    }
  }
}
