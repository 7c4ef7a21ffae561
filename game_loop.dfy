/** The game loop around the current game state: the delta-time cap applied
    to every frame, the quit-bit test that ends the loop, and the runs of
    frames and events the title screen goes through. */
module GameLoop {
  import opened Global
  import opened Title

  /** The frame's delta-time, capped at MAX_DT. */
  function CapDt(dt: real): (capped: real)
    ensures capped <= MaxDt
    ensures dt <= MaxDt ==> capped == dt
    ensures capped == dt || capped == MaxDt
    ensures dt >= 0.0 ==> 0.0 <= capped <= dt
  {
    if dt > MaxDt then MaxDt else dt
  }

  /** The loop's stop test: the flag word has the EVENT_QUIT bit set. */
  function QuitRequested(flags: bv32): (stop: bool)
    ensures stop <==> flags % 2 == 1
  {
    flags & EventQuit != 0
  }

  /** One frame of the title state: the update callback on the capped delta-time. */
  function FrameStep(p: Phase, dt: real): (r: Step)
    // a frame moves each phase variable by at most MAX_DT
    ensures r.phase.entering - p.entering <= MaxDt && r.phase.exiting - p.exiting <= MaxDt
    ensures dt >= 0.0 ==> p.entering <= r.phase.entering && p.exiting <= r.phase.exiting
    ensures Inv(p) && dt >= 0.0 ==> Inv(r.phase)
    ensures QuitRequested(r.flags) <==> StageOf(r.phase) == Done
  {
    UpdateStep(p, CapDt(dt))
  }

  /** The frame update: cap delta-time, then run the current state's update. */
  method Frame(title: TitleScreen, dt: real) returns (flags: bv32)
    modifies title
    ensures title.State() == FrameStep(old(title.State()), dt).phase
    ensures flags == FrameStep(old(title.State()), dt).flags
  {
    var capped := dt;
    if capped > MaxDt {
      capped := MaxDt;
    }
    flags := title.Update(capped);
  }

  /** What the title state receives: a frame lasting `dt` seconds (before the
      cap), or an input event. */
  datatype Input = Tick(dt: real) | Signal(event: Event)

  /** The phase after one input. */
  function After(p: Phase, input: Input): Phase {
    match input
    case Tick(dt) => FrameStep(p, dt).phase
    case Signal(e) => EventStep(p, e).phase
  }

  /** The phase after a sequence of inputs, applied in order. */
  function Run(p: Phase, inputs: seq<Input>): Phase
    decreases |inputs|
  {
    if inputs == [] then p else Run(After(p, inputs[0]), inputs[1..])
  }

  /** Frames never last a negative time: assumed of the tick counter (its wrap-around is not modelled). */
  predicate NonNegative(inputs: seq<Input>) {
    forall i :: 0 <= i < |inputs| && inputs[i].Tick? ==> inputs[i].dt >= 0.0
  }

  /** Running two sequences one after the other is running their concatenation. */
  lemma {:induction false} RunAppend(p: Phase, a: seq<Input>, b: seq<Input>)
    ensures Run(p, a + b) == Run(Run(p, a), b)
    decreases |a|
  {
    if a == [] {
      assert a + b == b;
    } else {
      assert (a + b)[0] == a[0];
      assert (a + b)[1..] == a[1..] + b;
      RunAppend(After(p, a[0]), a[1..], b);
    }
  }

  /** Every run with non-negative frame durations keeps the invariant. */
  lemma {:induction false} RunPreservesInv(p: Phase, inputs: seq<Input>)
    requires Inv(p) && NonNegative(inputs)
    ensures Inv(Run(p, inputs))
    decreases |inputs|
  {
    if inputs != [] {
      assert NonNegative(inputs[1..]) by {
        forall i | 0 <= i < |inputs[1..]| && inputs[1..][i].Tick?
          ensures inputs[1..][i].dt >= 0.0
        {
          assert inputs[1..][i] == inputs[i + 1];
        }
      }
      RunPreservesInv(After(p, inputs[0]), inputs[1..]);
    }
  }

  /** Every state the title screen reaches from (-1,-1) satisfies the invariant. */
  lemma ReachableSatisfiesInv(inputs: seq<Input>)
    requires NonNegative(inputs)
    ensures Inv(Run(Initial, inputs))
  {
    RunPreservesInv(Initial, inputs);
  }

  /** With non-negative frame durations neither phase variable ever goes back. */
  lemma {:induction false} RunMonotone(p: Phase, inputs: seq<Input>)
    requires NonNegative(inputs)
    ensures p.entering <= Run(p, inputs).entering
    ensures p.exiting <= Run(p, inputs).exiting
    decreases |inputs|
  {
    if inputs != [] {
      assert NonNegative(inputs[1..]) by {
        forall i | 0 <= i < |inputs[1..]| && inputs[1..][i].Tick?
          ensures inputs[1..][i].dt >= 0.0
        {
          assert inputs[1..][i] == inputs[i + 1];
        }
      }
      RunMonotone(After(p, inputs[0]), inputs[1..]);
    }
  }

  /** The stages are visited in order: a run never moves to an earlier stage. */
  lemma RunStageMonotone(p: Phase, inputs: seq<Input>)
    requires NonNegative(inputs)
    ensures Rank(StageOf(p)) <= Rank(StageOf(Run(p, inputs)))
  {
    RunMonotone(p, inputs);
    RankMonotone(p, Run(p, inputs));
  }

  /** Once the enter phase has reached 1 it stays clamped at 1. */
  lemma EnteredStaysEntered(p: Phase, inputs: seq<Input>)
    requires Inv(p) && p.entering == 1.0 && NonNegative(inputs)
    ensures Run(p, inputs).entering == 1.0
  {
    RunMonotone(p, inputs);
    RunPreservesInv(p, inputs);
  }

  /** The outcome of the loop over a sequence of frame durations. */
  datatype LoopEnd = LoopEnd(phase: Phase, frames: nat, stopped: bool)

  /** The phase after running one frame per duration, without stopping. */
  function Frames(p: Phase, dts: seq<real>): Phase
    decreases |dts|
  {
    if dts == [] then p else Frames(FrameStep(p, dts[0]).phase, dts[1..])
  }

  /** Whether frame `k` of the durations, run from `p` without stopping, has the quit bit. */
  predicate QuitAt(p: Phase, dts: seq<real>, k: nat)
    requires k < |dts|
  {
    QuitRequested(FrameStep(Frames(p, dts[..k]), dts[k]).flags)
  }

  /** The game loop: one frame per duration, stopping after the first frame
      whose flags have the quit bit. */
  function Loop(p: Phase, dts: seq<real>): (r: LoopEnd)
    ensures r.frames <= |dts|
    ensures !r.stopped ==> r.frames == |dts|
    ensures r.stopped ==> r.frames >= 1 && StageOf(r.phase) == Done
    // the loop ends in the phase its frames produce
    ensures r.phase == Frames(p, dts[..r.frames])
    // among the frames run, exactly the last one of a stopped loop has the quit bit
    ensures forall k :: 0 <= k < r.frames ==> (QuitAt(p, dts, k) <==> r.stopped && k == r.frames - 1)
    decreases |dts|
  {
    if dts == [] then LoopEnd(p, 0, false)
    else
      var r := FrameStep(p, dts[0]);
      assert dts[..0] == [];
      assert dts[..1][1..] == [];
      if QuitRequested(r.flags) then LoopEnd(r.phase, 1, true)
      else
        var rest := Loop(r.phase, dts[1..]);
        assert dts[..rest.frames + 1][1..] == dts[1..][..rest.frames];
        assert forall k :: 1 <= k <= rest.frames ==>
                 dts[..k][1..] == dts[1..][..k - 1] && dts[k] == dts[1..][k - 1];
        assert !QuitAt(p, dts, 0);
        assert forall k :: 1 <= k <= rest.frames ==> QuitAt(p, dts, k) == QuitAt(r.phase, dts[1..], k - 1);
        LoopEnd(rest.phase, rest.frames + 1, rest.stopped)
  }

  /** The loop, as the program runs it: frames until the quit bit is seen. */
  method RunLoop(title: TitleScreen, dts: seq<real>) returns (frames: nat, stopped: bool)
    modifies title
    ensures Loop(old(title.State()), dts) == LoopEnd(title.State(), frames, stopped)
  {
    ghost var whole := Loop(title.State(), dts);
    frames, stopped := 0, false;
    while frames < |dts| && !stopped
      invariant frames <= |dts|
      invariant !stopped ==>
        var rest := Loop(title.State(), dts[frames..]);
        whole == LoopEnd(rest.phase, frames + rest.frames, rest.stopped)
      invariant stopped ==> whole == LoopEnd(title.State(), frames, true)
      decreases |dts| - frames, !stopped
    {
      assert dts[frames..][1..] == dts[frames + 1..];
      var flags := Frame(title, dts[frames]);
      stopped := QuitRequested(flags);
      frames := frames + 1;
    }
    if !stopped {
      assert dts[frames..] == [];
    }
  }

  /** Before RETURN the loop never stops and changes nothing, whatever the frame durations. */
  lemma {:induction false} IdleLoopNeverStops(dts: seq<real>)
    ensures Loop(Initial, dts) == LoopEnd(Initial, |dts|, false)
    decreases |dts|
  {
    if dts != [] {
      IdleLoopNeverStops(dts[1..]);
    }
  }

  /** A full frame that takes the exit phase past 1 stops the loop at once. */
  lemma ExitFrameStops(x: real, dts: seq<real>)
    requires 0.0 <= x && 1.0 < x + MaxDt
    requires |dts| >= 1 && dts[0] >= MaxDt
    ensures Loop(Phase(1.0, x), dts) == LoopEnd(Phase(1.0, x + MaxDt), 1, true)
  {
    assert FrameStep(Phase(1.0, x), dts[0]) == Step(Phase(1.0, x + MaxDt), EventQuit);
  }

  /** A full frame that keeps the exit phase within 1 lets the loop go on. */
  lemma ExitFrameContinues(x: real, dts: seq<real>)
    requires 0.0 <= x && x + MaxDt <= 1.0
    requires |dts| >= 1 && dts[0] >= MaxDt
    ensures var rest := Loop(Phase(1.0, x + MaxDt), dts[1..]);
            Loop(Phase(1.0, x), dts) == LoopEnd(rest.phase, rest.frames + 1, rest.stopped)
  {
    assert FrameStep(Phase(1.0, x), dts[0]) == Step(Phase(1.0, x + MaxDt), NoFlags);
  }

  /** The loop stops at the quit bit, so from a state within the invariant
      whose exit has not passed 1, it keeps the invariant and `exiting`
      never passes 1 + MAX_DT. */
  lemma {:induction false} LoopExitBounded(p: Phase, dts: seq<real>)
    requires Inv(p) && p.exiting <= 1.0
    requires forall i :: 0 <= i < |dts| ==> dts[i] >= 0.0
    ensures Inv(Loop(p, dts).phase)
    ensures Loop(p, dts).phase.exiting <= 1.0 + MaxDt
    decreases |dts|
  {
    if dts != [] {
      var r := FrameStep(p, dts[0]);
      if !QuitRequested(r.flags) {
        assert forall i :: 0 <= i < |dts[1..]| ==> dts[1..][i] == dts[i + 1];
        LoopExitBounded(r.phase, dts[1..]);
      }
    }
  }

  /** The loop from (-1,-1) never drives `exiting` past 1 + MAX_DT. */
  lemma LoopFromInitialBounded(dts: seq<real>)
    requires forall i :: 0 <= i < |dts| ==> dts[i] >= 0.0
    ensures Inv(Loop(Initial, dts).phase)
    ensures Loop(Initial, dts).phase.exiting <= 1.0 + MaxDt
  {
    LoopExitBounded(Initial, dts);
  }

  /** With frames of at least MAX_DT, an exit phase at `x` stops the loop on
      the first frame `n` at which x + n * MAX_DT passes 1. */
  lemma {:induction false} ExitLoopStops(x: real, n: nat, dts: seq<real>)
    requires 0.0 <= x && 1 <= n <= |dts|
    requires x + (n - 1) as real * MaxDt <= 1.0 < x + n as real * MaxDt
    requires forall i :: 0 <= i < n ==> dts[i] >= MaxDt
    ensures Loop(Phase(1.0, x), dts) == LoopEnd(Phase(1.0, x + n as real * MaxDt), n, true)
    decreases n
  {
    if n == 1 {
      ExitFrameStops(x, dts);
    } else {
      assert x + MaxDt + (n - 2) as real * MaxDt == x + (n - 1) as real * MaxDt;
      ExitFrameContinues(x, dts);
      ExitLoopStops(x + MaxDt, n - 1, dts[1..]);
      assert x + MaxDt + (n - 1) as real * MaxDt == x + n as real * MaxDt;
    }
  }

  /** ESCAPE in the steady stage, then frames of at least MAX_DT: the loop
      stops on the 21st frame, with `exiting` at 21/20. */
  lemma EscapeStopsOnFrame21(dts: seq<real>)
    requires |dts| >= 21
    requires forall i :: 0 <= i < |dts| ==> dts[i] >= MaxDt
    ensures var armed := EventStep(Phase(1.0, -1.0), KeyDown(Escape)).phase;
            Loop(armed, dts) == LoopEnd(Phase(1.0, 21.0 * MaxDt), 21, true)
  {
    ExitLoopStops(0.0, 21, dts);
  }
}
