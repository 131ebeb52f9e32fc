# Record-to-disk with MIDI pause: a verified model

`spirecordtodisk_ringbufferpausemidi` records audio from an input device to
a WAV file for a given number of seconds. An audio callback pushes the
interleaved stereo samples into a PortAudio ring buffer. A writer thread
drains that buffer into the file once a quarter of it has filled, and once
more when it is asked to stop. The operator can pause and resume the
recording in two ways:

- by pressing `p`;
- by sending a MIDI Control Change on a configured channel and controller
  (values 0-63 resume, 64-127 pause).

The main loop counts only the seconds that end unpaused.

The program also carries a MIDI monitor, taken from PortMidi's `mm` tool:

- keyboard commands that toggle display flags and the input filter;
- a pitch-name printer;
- a hex dump of message bytes.

This project models that core in Dafny:

- `power_of_two.dfy`: buffer sizing (`NextPowerOf2` on `bv32`).
- `ring_buffer.dfy`: the PortAudio ring buffer, as a class over an array. Indices live in `[0, 2C)` and are reduced with `Wrap`, which is proved equal to `%` in `mod_arith.dfy`.
- `capture.dfy`: the recorder, meaning the callback, one writer pass, the stop handshake and the set-up. It carries the invariant that the file followed by the unread buffer is exactly every sample the callback accepted, in order.
- `pause_gate.dfy` and `midi_gate.dfy`: the shared pause flag and the MIDI poller.
- `timed_loop.dfy`: the main recording loop.
- `midi_display.dfy`: `put_pitch` and `showbytes`, with parsers that read their output back. For `put_pitch`, the parser recovers the pitch from the whole name. For `showbytes`, it recovers the bytes once the final space is removed, or once the final "... " is removed from a cut-off dump.
- `midi_monitor.dfy`: `doascii` and the filter set-up in `main`.

## Model

| member | source | states |
|---|---|---|
| PowerOfTwo.NextPowerOf2 | spirecordtodisk_ringbufferpausemidi.cpp:555-564 | for 1 <= val <= 2^31 the result is the least power of two >= val (one bit set, and halving it falls below val); a power of two maps to itself; 0 and values above 2^31 wrap to 0 |
| PowerOfTwo.RingBufferElements | spirecordtodisk_ringbufferpausemidi.cpp:738-739 | half a second of 44.1 kHz stereo (44100 elements) gets a 65536-element buffer, a power of two no smaller than the sample rate |
| RingBuffers.RingBuffer.Initialize | spirecordtodisk_ringbufferpausemidi.cpp:748-752 | initialisation succeeds exactly when the element count is 0 or a power of two, and then gives an empty buffer of that capacity, which records the power-of-two capacity |
| RingBuffers.RingBuffer.ReadAvailable | spirecordtodisk_ringbufferpausemidi.cpp:395 | the unread count is the distance, below 2C, from the read index to the write index modulo 2C; it is 0 for a buffer of no slots |
| RingBuffers.RingBuffer.WriteAvailable | spirecordtodisk_ringbufferpausemidi.cpp:539 | free slots plus unread elements equal the capacity |
| RingBuffers.RingBuffer.GetWriteRegions | spirecordtodisk_ringbufferpausemidi.cpp:539-548 | at most two regions covering min(requested, free) slots, which are exactly the slots that follow the unread elements |
| RingBuffers.RingBuffer.Write | spirecordtodisk_ringbufferpausemidi.cpp:548 | copies min(count, free) elements behind the unread ones; the unread contents become old contents ++ that prefix of the source; the read index is untouched |
| RingBuffers.RingBuffer.GetReadRegions | spirecordtodisk_ringbufferpausemidi.cpp:403 | the two regions returned, read in order, are the oldest min(requested, available) unread elements |
| RingBuffers.RingBuffer.AdvanceReadIndex | spirecordtodisk_ringbufferpausemidi.cpp:412 | releases exactly the n oldest unread elements; the write index is untouched |
| RingBuffers.CopyRegions | spirecordtodisk_ringbufferpausemidi.cpp:548 | the copy through two regions puts element CopiedFrom(r, p) of the source in slot p and leaves every other slot as it was |
| RingBuffers.WriteRunSlot | spirecordtodisk_ringbufferpausemidi.cpp:539-548 | with the 2C-masked indices, the free run starting at the write slot is exactly the slots after the occupied ones, in order |
| RingBuffers.AdvanceWriteOccupancy | spirecordtodisk_ringbufferpausemidi.cpp:548 | moving the write index n places raises the occupancy by n |
| RingBuffers.AdvanceReadOccupancy | spirecordtodisk_ringbufferpausemidi.cpp:412 | moving the read index n places lowers the occupancy by n |
| Capture.Recorder.RecordCallback | spirecordtodisk_ringbufferpausemidi.cpp:530-551 | paused: returns paContinue and changes nothing; otherwise stores min(free, 2 * framesPerBuffer) samples, drops the rest, adds the count to the 32-bit frameIndex, and keeps file ++ unread == captured |
| Capture.Recorder.WriterStep | spirecordtodisk_ringbufferpausemidi.cpp:386-428 | one uninterrupted pass: below a quarter full and not asked to stop, nothing changes; otherwise every unread sample is appended to the file in order and the buffer is emptied; it exits exactly when asked to stop, and clears the request |
| Capture.Recorder.DrainIfDue | spirecordtodisk_ringbufferpausemidi.cpp:395-413 | the drain happens exactly when a quarter of the buffer is filled or a stop is requested, and then moves every unread sample to the file in order; otherwise nothing changes |
| Capture.Recorder.ExitIfAsked | spirecordtodisk_ringbufferpausemidi.cpp:415-418 | the second read of the stop request: the thread exits exactly when it is raised, and it is cleared; the file is untouched |
| Capture.Recorder.StopDuringDrain | spirecordtodisk_ringbufferpausemidi.cpp:395-418 | a stop raised while a drain runs, after the callback stored `late`, ends the thread with `late` left in the buffer: the file misses exactly those samples |
| Capture.Recorder.StopThread | spirecordtodisk_ringbufferpausemidi.cpp:506-519 | when the stop request is raised before a writer pass begins, the file afterwards holds every captured sample in order and the buffer is empty |
| Capture.Setup | spirecordtodisk_ringbufferpausemidi.cpp:738-752 | buffer set-up always succeeds with a 65536-element, empty, valid recorder that has captured nothing and whose stop request is cleared |
| MidiGate.ControlChangeChannel | spirecordtodisk_ringbufferpausemidi.cpp:111 | a Control Change channel, when there is one, lies in 0..15 |
| MidiGate.ApplyEvent | spirecordtodisk_ringbufferpausemidi.cpp:235-254 | a message that matches the channel and controller sets the flag to (value >= 64); any other event or a read error leaves it unchanged |
| MidiGate.MatchesControlChange | spirecordtodisk_ringbufferpausemidi.cpp:237-240 | for channels 0..15, the source's test matches exactly the Control Changes of that channel and controller |
| MidiGate.UncheckedChannelMatchesAftertouch | spirecordtodisk_ringbufferpausemidi.cpp:237 | the channel is not range-checked: as -16 the test accepts a polyphonic aftertouch (0xA0), which pauses; as 32 it accepts a channel aftertouch (0xD0), which resumes. Neither status is among the groups the set-up filters out |
| MidiGate.ControlChangeExamples | spirecordtodisk_ringbufferpausemidi.cpp:242-251 | value 0 resumes, 127 pauses; another channel or controller changes nothing |
| MidiGate.DrainIsLastMatch | spirecordtodisk_ringbufferpausemidi.cpp:226-259 | draining the queue leaves the flag as the last matching Control Change set it, or as it was if none matched |
| MidiGate.DrainSplit | spirecordtodisk_ringbufferpausemidi.cpp:226-259 | splitting the queue across two polls has the same effect as one poll |
| MidiGate.ReceivePoll | spirecordtodisk_ringbufferpausemidi.cpp:221-261 | inactive: reads nothing; active: reads every pending result, and the flag ends as the fold of the results in order |
| TimedLoop.KeyStep | spirecordtodisk_ringbufferpausemidi.cpp:830-842 | the flag flips exactly when the key read is a lower-case `p` |
| TimedLoop.RecordFor | spirecordtodisk_ringbufferpausemidi.cpp:824-845 | the returned count is the number of passes that ended unpaused; it never exceeds the target; the loop stops at the first pass at which the count reaches the target (every earlier prefix is below it) or when input runs out; the flag is the fold of keys and MIDI |
| TimedLoop.PausedAfterPresses | spirecordtodisk_ringbufferpausemidi.cpp:830-842 | without MIDI the flag ends flipped exactly when `p` was pressed an odd number of times |
| TimedLoop.ElapsedAtMostPasses | spirecordtodisk_ringbufferpausemidi.cpp:844 | each pass adds at most one second |
| TimedLoop.ElapsedWithoutPauses | spirecordtodisk_ringbufferpausemidi.cpp:824-845 | with no pause input every pass is counted |
| TimedLoop.UpperCaseIgnored | spirecordtodisk_ringbufferpausemidi.cpp:830 | an upper-case `P` does not toggle the flag |
| TimedLoop.TwoPausedSeconds | spirecordtodisk_ringbufferpausemidi.cpp:824-845 | pausing two passes stretches a 5-second recording to 7 passes |
| MidiDisplay.Decimal | spirecordtodisk_ringbufferpausemidi.cpp:1234 | the `%d` text of any integer starts with a minus sign or a digit and parses back to the integer |
| MidiDisplay.NumeralIsDigits | spirecordtodisk_ringbufferpausemidi.cpp:1234 | a numeral without leading zeros is the one `%d` writes for its value |
| MidiDisplay.DecimalExactly | spirecordtodisk_ringbufferpausemidi.cpp:1234 | a text parses back to i exactly when it is the `%d` text of i, so no other spelling ("07", "-0") is accepted |
| MidiDisplay.PitchName | spirecordtodisk_ringbufferpausemidi.cpp:1227-1237 | the name printed for any p >= 0 parses back to p, so distinct pitches get distinct names |
| MidiDisplay.PitchNameExactly | spirecordtodisk_ringbufferpausemidi.cpp:1230-1234 | a text parses back to p exactly when p >= 0 and the text is p's name: the table entry for p % 12 followed by the `%d` octave p / 12 - 1 |
| MidiDisplay.NameThenOctaveParses | spirecordtodisk_ringbufferpausemidi.cpp:1230-1234 | name table entry p % 12 followed by the decimal octave p / 12 - 1 reads back as p |
| MidiDisplay.PitchNameExamples | spirecordtodisk_ringbufferpausemidi.cpp:1230-1234 | 60 prints "c4", 0 prints "c-1", 127 prints "g9" |
| MidiDisplay.PitchNameFits | spirecordtodisk_ringbufferpausemidi.cpp:1229-1234 | for 0 <= p < 1200012 the name is at most 7 characters, so it fits the 8-byte buffer with its terminator |
| MidiDisplay.HexRoundTrip | spirecordtodisk_ringbufferpausemidi.cpp:1245-1258 | the two-digit upper-case hex text of a byte sequence parses back to the bytes |
| MidiDisplay.LowBytesReassemble | spirecordtodisk_ringbufferpausemidi.cpp:1256-1266 | the bytes shown, least significant first, together with the remaining shifted value, reassemble the message word |
| MidiDisplay.ShownBytesRule | spirecordtodisk_ringbufferpausemidi.cpp:1256-1265 | the shown-byte count is the only n that meets the `count > 72` rule: none for a length <= 0; otherwise 1 <= n <= len, the count before the last byte, 2(n-1), is at most 72, and either every byte is shown or 2n exceeds 72 |
| MidiDisplay.ShowBytes | spirecordtodisk_ringbufferpausemidi.cpp:1247-1269 | output is the hex of the low bytes, least significant first, cut off with "..." once past 72 characters, then a space. Below the cut-off, the output without its final space reads back as the low `len` bytes of the word. Past it, the output ends in "... " and the text before that reads back as the first 37 bytes |
| MidiDisplay.HexWithTailReadsBack | spirecordtodisk_ringbufferpausemidi.cpp:1260-1268 | hex text followed by a tail reads back as its bytes once the tail is cut off |
| MidiMonitor.Flip | spirecordtodisk_ringbufferpausemidi.cpp:966 | exclusive-or of one group's mask changes that group's membership and no other |
| MidiMonitor.NoCommandExactly | spirecordtodisk_ringbufferpausemidi.cpp:962-1028 | a character is a command exactly when its lower-case form is one of q b c h n x r k s t v m |
| MidiMonitor.UpperCaseAsLower | spirecordtodisk_ringbufferpausemidi.cpp:962 | an upper-case letter acts as its lower-case form |
| MidiMonitor.Monitor.DoAscii | spirecordtodisk_ringbufferpausemidi.cpp:960-1032 | the new state is the command's effect; the filter is handed to the device exactly when the monitor is set up; a consistent filter stays consistent |
| MidiMonitor.CommandKeepsFilterConsistent | spirecordtodisk_ringbufferpausemidi.cpp:964-1000 | every command keeps each group filtered out exactly when its display flag is off |
| MidiMonitor.FilterConsistentMeans | spirecordtodisk_ringbufferpausemidi.cpp:170-181 | consistency group by group is the same as consistency for all groups |
| MidiMonitor.ToggleTwiceRestores | spirecordtodisk_ringbufferpausemidi.cpp:964-1026 | any flag toggle typed twice restores the whole state |
| MidiMonitor.ClockToggleTwice | spirecordtodisk_ringbufferpausemidi.cpp:994-999 | `k` typed twice restores flags and filter but clears both clock counts |
| MidiMonitor.TotalIdempotent | spirecordtodisk_ringbufferpausemidi.cpp:1008-1013 | `t` adds the note count to the 32-bit total and zeroes it; typed again at once it changes nothing |
| MidiMonitor.QuitAndOthers | spirecordtodisk_ringbufferpausemidi.cpp:962-1029 | `q` or `Q` sets done and nothing else; a non-command character changes no state |
| MidiMonitor.InitialConsistent | spirecordtodisk_ringbufferpausemidi.cpp:168-181 | the initial globals (all flags on, empty filter) are consistent |
| MidiMonitor.Ready | spirecordtodisk_ringbufferpausemidi.cpp:707-721 | after set-up every group a key toggles is filtered out except Control Changes; the filter is consistent with the flags |
| MidiMonitor.Monitor.Configure | spirecordtodisk_ringbufferpausemidi.cpp:707-721 | set-up turns six groups off, hands the filter to the device and marks the monitor ready |
| MidiMonitor.ReadyIsTyped | spirecordtodisk_ringbufferpausemidi.cpp:707-718 | the set-up equals typing b, h, n, x, r, k on the initial state |

## Left out

- Concurrency: the callback and the writer thread run as sequential method calls. Atomic index loads and stores, memory barriers and the sleeps are not modelled, and neither is the stop handshake's busy wait.
- `Capture.Recorder.StopThread`: runs the writer's final pass directly, so its promise holds only when the request is raised before a pass begins. The writer reads the request twice per pass (`:397` and `:415`). A request raised between the two reads ends the thread without draining the samples the callback stored after the count at `:395`, up to the stream's close at `:894`. `Capture.Recorder.StopDuringDrain` states that loss.
- The ring buffer follows PortAudio's published `pa_ringbuffer.c`: indices masked with 2C-1, slots masked with C-1, and the power-of-two test `(n-1) & n`.
- `AppendWavFile` and libsndfile: the file is the sequence of samples appended to it. The WAV header, the encoding and I/O errors are not modelled. `AppendWavFile` always reports success, and the writer ignores its result.
- `threadFunctionWriteToRawFile`, `startThread`, `Terminate`, the console control handler, device selection and stream opening, command-line parsing and `get_number`: device and process plumbing.
- `TimedLoop.RecordFor`: the source counts with a `float` against a `float` duration. The model uses whole seconds (`nat`). The one-second sleep and the keyboard polling become the input list `seconds`.
- Allocation failure of the ring buffer storage is not modelled.
- `Capture.Recorder.RecordCallback`: `framesPerBuffer * 2` is taken as an unbounded integer. The source's conversion to `ring_buffer_size_t` could overflow for absurd buffer sizes.
- `Capture.Setup`: the `None` branch (the library refusing the size) cannot happen, and the contract states so.
- `MidiGate.ReceivePoll`: the printed messages and the text of a read error are not modelled. A read error leaves the flag alone.
- `output()`, `showhelp`, the `' '` flush of the MIDI input and every `printf`: console output. `output()` is never called, because its call in `receive_poll` is commented out.
- `MidiMonitor.Flip`: the concrete `PM_FILT_*` masks are not part of this model. The filter word is kept as the set of groups whose masks were flipped an odd number of times, which determines it.
- `MidiMonitor.Monitor.DoAscii`: the per-command switch is the function `Apply`, which the method applies to the state in one step.
- `MidiDisplay.PitchName`: requires p >= 0. For a negative pitch not divisible by 12, C's `%` is negative and would index outside the name table. The callers only pass 7-bit data bytes.

Where the program's documentation and its code differ, the model follows the code:

- The pause key is a lower-case `p` only (`:830`). An upper-case `P` is ignored.
- Teardown has no guard against running twice, so nothing is claimed about repeating it.
- Write errors in the writer thread are not propagated.
