/** Constants shared by the game loop and the game states (global.hpp). */
module Global {
  /** MIN_FPS: the lowest frame rate the loop is tuned for. */
  const MinFps: int := 20

  /** MAX_DT = 1/MIN_FPS: the largest delta-time, in seconds, one frame may
      apply. Written as a literal quotient so that products with it stay linear. */
  const MaxDt: real := 1.0 / 20.0

  /** MAX_DT is the reciprocal of MIN_FPS. */
  lemma MaxDtIsFrameTimeAtMinFps()
    ensures MaxDt * (MinFps as real) == 1.0
  {
  }

  /** EVENT_QUIT: bit 0 of the flag word that a game-state callback returns.
      The C `int` flag word is modelled as a 32-bit word. */
  const EventQuit: bv32 := 1

  /** The flag word "all okay": no bit set. */
  const NoFlags: bv32 := 0
}
