/**
 * The recorder's one shared pause flag (`global_pauserecording`). The audio
 * callback reads it; the keyboard loop toggles it and the MIDI poller sets
 * it. While it is set the callback stores nothing, but the audio stream keeps
 * running.
 */
module Pause {

  class PauseGate {
    var paused: bool

    /** The flag starts cleared: recording begins unpaused. */
    constructor ()
      ensures !paused
    {
      paused := false;
    }
  }
}
