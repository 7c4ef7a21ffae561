# Title-screen phase machine and babysitter registry

This project models two small pieces of state logic from a 2D SDL/OpenGL
game prototype:

* **The title screen game state** (`src/main.cpp`). It uses two phase
  variables, `entering` and `exiting`, which both start at -1 ("not
  started"). RETURN starts the enter phase. ESCAPE starts the exit phase
  once the enter phase has reached 1. Every frame, `update(dt)` advances
  the active phase. The exit phase takes priority and raises the
  `EVENT_QUIT` bit once `exiting` passes 1. The enter phase is clamped at 1.
  The game loop caps each frame's delta-time at `MAX_DT = 1/MIN_FPS = 1/20`
  before it calls the state's update. The loop stops on the first flag
  word that has the `EVENT_QUIT` bit set.
* **The babysitter** (`src/babysitter.cpp`). This is a registry of
  `(step, progress)` entries. `sit` appends an entry with progress 0.
  `update` replaces each entry's progress with `step(progress)`. `clear`
  empties the registry.

Files:

* `global.dfy` holds the constants of `global.hpp`.
* `title.dfy` (module `Title`) holds the phase machine in two forms:
  * the pure functions `UpdateStep` and `EventStep` on a `Phase` value,
    each with its properties as postconditions;
  * the class `TitleScreen`, whose fields are the shared phase variables
    and whose methods `Update` and `TreatEvent` change them in place and
    are proved against those functions.
* `game_loop.dfy` (module `GameLoop`) holds:
  * the delta-time cap, the frame update and the quit-bit test;
  * runs of frames and events, with the invariant, monotonicity and
    stage-order lemmas over them;
  * the game loop as a function (`Loop`) and as a method (`RunLoop`).
* `reachability.dfy` (module `Reachability`) proves that the invariant
  `Title.Inv` describes exactly the states that arbitrary sequences of
  update and event calls reach from (-1,-1). The frames have non-negative
  capped durations, and calls after the quit bit are allowed. The game
  loop itself stops at the quit bit, so it reaches only the part of that
  set with `exiting <= 1 + MAX_DT` (`GameLoop.LoopExitBounded`).
* `babysitter.dfy` (module `Babysitter`) holds the registry as a class
  over a `seq`, with its `Update` loop proved against the function
  `StepAll`.

The invariant is `entering ∈ {-1} ∪ [0,1]` and
`exiting == -1 || (exiting ≥ 0 && entering == 1)`. It is stronger than
"`exiting ≥ 0 ⇒ entering == 1`", and `ReachableIffInv` shows it is exact
for sequences of update and event calls.
The five stages Idle → Entering → Steady → Exiting → Done are a function
of the phase (`Title.StageOf`). They are proved to be visited in order, at
most one stage per input.

Facts about the code that the model makes explicit:

* `update` returns `EVENT_QUIT` on every call once `exiting > 1`, not just
  once. The loop stops at the first such call. This is what `UpdateStep`
  and `Loop` state.
* `exiting` is not bounded by 1: the frame that raises the quit bit leaves
  `exiting` above 1, though never above 1 + MAX_DT inside the game loop.
* ESCAPE followed by one update of 1.1 quits (`Title.ExitExample`).
* In the model's real arithmetic, the exit through the capped frame loop
  lasts 21 frames: after 20 full frames `exiting` equals exactly 1, and
  the test is a strict `> 1` (`GameLoop.EscapeStopsOnFrame21`). This is a
  fact about the model only; single-precision rounding changes it (see
  "## Left out").
* The clock `t` is changed only by the uncompilable free `update`
  function, so it is not modelled.

## Model

| member | source | states |
|---|---|---|
| Title.UpdateStep | src/main.cpp:72-111 | The exit phase takes priority: it adds dt to `exiting`, leaves `entering` alone, and returns EVENT_QUIT exactly when the new `exiting` passes 1 (so exactly when the new stage is Done). Otherwise the enter phase adds dt to `entering`, clamped at 1, and with dt ≥ 0 it stays in [0,1] and does not decrease. Idle, or entered and not exiting: nothing changes and 0 is returned. With dt ≥ 0 the invariant is kept and no phase variable goes back. |
| Title.EventStep | src/main.cpp:126-158 | A window close returns EVENT_QUIT and changes nothing. RETURN changes `entering` exactly when it is unset, setting it to 0, and never touches `exiting`. ESCAPE changes the phase exactly when `entering ≥ 1` and `exiting` is unset, and then sets `exiting` to 0. Any other key or event changes nothing. Every event except a window close returns 0. The invariant is kept and no phase variable decreases. |
| Title.Visible | src/main.cpp:116 | The sprite is hidden while idle and once the exit has passed 1. It is always shown in the steady stage (under the invariant). While entering it is shown exactly once `entering > 0`. While exiting it is shown exactly until `exiting` reaches 1. |
| Title.AtMostOneStage | src/main.cpp:72-158 | Under the invariant, with dt ≥ 0, one update or one event moves the stage forward by zero or one step, never back. |
| Title.RankMonotone | src/main.cpp:77-105 | The stage order grows with each phase variable. |
| Title.IdleExample | src/main.cpp:93-110 | Two updates of 0.5 before any trigger leave (-1,-1) and return 0. |
| Title.EnterExample | src/main.cpp:93-143 | RETURN, then updates of 0.6 and 0.6: `entering` is 0.6, then clamps to 1 (steady stage). |
| Title.ExitExample | src/main.cpp:78-147 | From the steady stage, ESCAPE and then an update of 1.1 return EVENT_QUIT. |
| Title.TitleScreen.constructor | src/main.cpp:65-68 | Both phase variables start at -1, which satisfies the invariant. |
| Title.TitleScreen.Update | src/main.cpp:72-111 | Changes the fields to the phase given by UpdateStep and returns its flags. With dt ≥ 0 it keeps the invariant. |
| Title.TitleScreen.TreatEvent | src/main.cpp:126-158 | Changes the fields to the phase given by EventStep and returns its flags. It keeps the invariant. |
| Global.MaxDtIsFrameTimeAtMinFps | src/global.hpp:8-9 | MAX_DT is the reciprocal of MIN_FPS (20 frames per second). |
| GameLoop.CapDt | src/main.cpp:190-192 | The capped delta-time is at most MAX_DT = 1/20. A delta-time already within the cap is unchanged; a larger one becomes MAX_DT. A non-negative delta-time stays non-negative and never grows. |
| GameLoop.QuitRequested | src/main.cpp:365 | The loop stops exactly on flag words with the low bit (EVENT_QUIT) set, that is, on odd words. |
| GameLoop.FrameStep | src/main.cpp:188-195 | One frame moves each phase variable forward by at most MAX_DT. With a non-negative duration nothing decreases and the invariant is kept. The frame asks to quit exactly when the new stage is Done. |
| GameLoop.Frame | src/main.cpp:188-195 | Caps the delta-time, calls the title update, and leaves the phase and flags given by FrameStep. |
| GameLoop.RunPreservesInv | src/main.cpp:72-158 | Any sequence of frames of non-negative duration and events keeps the invariant. |
| GameLoop.ReachableSatisfiesInv | src/main.cpp:67-158 | Every state reached from (-1,-1) by such a sequence satisfies the invariant. |
| GameLoop.RunMonotone | src/main.cpp:72-158 | Over any such sequence neither `entering` nor `exiting` ever decreases. |
| GameLoop.RunStageMonotone | src/main.cpp:72-158 | A run never moves to an earlier stage. |
| GameLoop.EnteredStaysEntered | src/main.cpp:93-105 | Once `entering` has reached 1, it stays at 1 whatever follows. |
| GameLoop.Loop | src/main.cpp:356-370 | The loop runs at most one frame per duration, and runs all of them unless it stops. It ends in the phase that the frames it ran produce. Among those frames, exactly the last frame of a stopped loop has the EVENT_QUIT bit, so the loop stops on the first such frame and never earlier. When it stops, the stage is Done. |
| GameLoop.RunLoop | src/main.cpp:356-370 | Running the frames one by one (cap, update, quit-bit test) leaves the phase, frame count and stop flag that Loop describes. |
| GameLoop.IdleLoopNeverStops | src/main.cpp:356-370 | From (-1,-1), without events, the loop never stops and the phase stays (-1,-1), whatever the frame durations. |
| GameLoop.LoopExitBounded | src/main.cpp:358-370 | The loop stops at the quit bit. So from a state within the invariant whose exit has not passed 1, with non-negative durations, it keeps the invariant and `exiting` never exceeds 1 + MAX_DT. |
| GameLoop.LoopFromInitialBounded | src/main.cpp:358-370 | From (-1,-1), with non-negative durations, the loop ends in a state within the invariant with `exiting` at most 1 + MAX_DT. |
| GameLoop.ExitFrameStops | src/main.cpp:78-89 | A full frame that takes an exit phase past 1 stops the loop at once, with `exiting` advanced by MAX_DT. |
| GameLoop.ExitFrameContinues | src/main.cpp:78-90 | A full frame that keeps an exit phase within 1 advances `exiting` by MAX_DT, and the loop goes on with the next frame. |
| GameLoop.ExitLoopStops | src/main.cpp:78-90 | With frames of at least MAX_DT, an exit phase at x stops the loop on exactly the first frame n at which x + n·MAX_DT passes 1. |
| GameLoop.EscapeStopsOnFrame21 | src/main.cpp:145-147 | In real arithmetic: ESCAPE in the steady stage, then frames of at least MAX_DT, and the loop stops on exactly the 21st frame, with `exiting` = 21/20. |
| Reachability.SpreadEnters | src/main.cpp:93-105 | During the enter phase, frames that last `total` seconds in all, none longer than MAX_DT, add exactly `total` to `entering` while the sum stays within 1. |
| Reachability.SpreadExits | src/main.cpp:78-90 | During the exit phase, such frames add exactly `total` to `exiting`. |
| Reachability.ReachEntering | src/main.cpp:140-143 | RETURN, then frames lasting e in all, reach (e, -1) for every e in [0,1]. |
| Reachability.ReachExiting | src/main.cpp:145-147 | From (1, -1), ESCAPE and frames lasting x in all reach (1, x) for every x ≥ 0. |
| Reachability.PathToReaches | src/main.cpp:61-158 | Every phase satisfying the invariant is reached from (-1,-1) by a sequence of capped frames of non-negative duration and events. |
| Reachability.ReachableIffInv | src/main.cpp:61-158 | A phase is reached from (-1,-1) by some sequence of update calls (non-negative capped durations) and event calls, including calls after the quit bit, if and only if it satisfies the invariant. |
| Babysitter.StepAll | src/babysitter.cpp:20-30 | The same number of entries in the same order. Every step is unchanged, and every new progress is the entry's step applied to its old progress. |
| Babysitter.StepAllAppend | src/babysitter.cpp:23-27 | Updating a concatenation updates each part on its own. |
| Babysitter.SitThenUpdate | src/babysitter.cpp:20-43 | An entry sat before an update is stepped once from 0; the earlier entries are updated as before. |
| Babysitter.UpdateTimesAt | src/babysitter.cpp:23-27 | Entries do not interact: after n updates each entry keeps its step, and its progress is its step applied n times to its old progress. |
| Babysitter.Registry.constructor | src/babysitter.cpp:16 | The registry starts empty. |
| Babysitter.Registry.Sit | src/babysitter.cpp:33-43 | Appends exactly one entry at the end, with the given step and progress 0. Earlier entries are unchanged, and 0 is returned. |
| Babysitter.Registry.Update | src/babysitter.cpp:20-31 | Replaces the entries by StepAll of the old entries. The result does not depend on dt, which the steps never see. An empty registry stays empty, and 0 is returned. |
| Babysitter.Registry.Clear | src/babysitter.cpp:45-53 | Leaves the registry empty and returns 0. |

## Left out

- Floating point: the phase variables, delta-times and progress values are `real`, so there is no `float` rounding. For example, 20 frames of 1/20 add to exactly 1 here.
- GameLoop.EscapeStopsOnFrame21: this holds in real arithmetic only. In the source, `MAX_DT` is the single-precision `1.0f/MIN_FPS`, which is slightly above 0.05, and `exiting += dt` rounds on every frame. On this reckoning (worked by hand, not by running the program), 20 full frames from 0 give a value just above 1. The program then stops on the 20th frame, not the 21st.
- Logging: the `log(...)` calls in `title.update` (src/main.cpp:74, 83) only write diagnostics. They are left out as I/O.
- The game loop's clock: `SDL_GetTicks` is replaced by a finite sequence of frame durations given as a parameter. The real loop runs until it stops, which the finite sequence cannot express.
- Frame durations are assumed non-negative in every invariant, monotonicity and reachability lemma (`GameLoop.NonNegative`). The 32-bit millisecond tick counter wraps after about 49.7 days, which would give one negative duration. The cap bounds a duration only from above, so such a frame would move the phase backwards. That wrap is not modelled.
- GameLoop.FrameStep: the frame's flag word is modelled as `title.update`'s flags only. In the source, the free `update` is meant to OR in the flags of the events polled during the frame (the commented-out block at src/main.cpp:211-215), but the text as written does not compile. So "asks to quit exactly when Done" holds for frames without polled events.
- GameLoop.Loop: because polled events are not OR'd into a frame's flag word, a window close never stops `Loop`. That a window close stops the loop in any stage is not stated. Events reach the phase machine only through `GameLoop.Run` and `TitleScreen.TreatEvent`, interleaved freely with frames.
- GameLoop.RunLoop: the same holds as for `GameLoop.Loop`: its frames do not poll events, so it stops only on the update's quit bit.
- The rest of the free `update` and `draw` functions (src/main.cpp:196-266): they use undeclared variables and do not compile. Only the delta-time cap, the call to the state's update and the draw test are kept.
- Sprite geometry (sizes, positions, the sine pulse) and every call that draws, loads or unloads a texture: this is rendering and float/trigonometric numerics.
- `title.enter` and `title.leave`: they only load and unload a texture through the `Texture` class, which is not part of this model.
- The steady-stage clock `t`: `title.update` never changes it.
- C++ capture semantics: the model gives the callbacks shared fields. In the source, the lambdas capture block-local variables by reference, and those locals end at line 176. `title.draw` copies `entering` and `exiting` at creation, so in the source it would always see -1. The draw test is stated only as the pure function `Title.Visible`.
- `main()` apart from the stop test: window, context and OpenGL setup and shutdown are I/O.
- `src/spaceship.cpp`: it does not compile, and its logic is commented out.
- Babysitter memory management (`new`/`delete` of entries): the registry is a `seq` of values, so pointer identity and aliasing are not modelled. The process-wide static list is modelled as one `Registry` object.
- Babysitter progress type: it is `real` and the steps are total functions `real -> real`. A step is assumed to terminate and to touch no other state.
