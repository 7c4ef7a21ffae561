/** Which phases arbitrary sequences of frame-update calls (non-negative
    duration, capped at MAX_DT) and event calls can drive the title screen
    to from (-1,-1), calls after a quit bit included: exactly those satisfying
    the invariant. The game loop itself stops at the quit bit and so reaches
    only the part of this set with `exiting <= 1 + MAX_DT`
    (GameLoop.LoopExitBounded). */
module Reachability {
  import opened Global
  import opened Title
  import opened GameLoop

  /** Frames that together last `total` seconds, none longer than MAX_DT:
      the remainder first, then full frames. */
  function Spread(total: real, k: nat): (inputs: seq<Input>)
    requires 0.0 <= total <= k as real * MaxDt
    ensures |inputs| >= 1
    ensures forall i :: 0 <= i < |inputs| ==> inputs[i].Tick? && 0.0 <= inputs[i].dt <= MaxDt
    decreases k
  {
    if total <= MaxDt then [Tick(total)]
    else Spread(total - MaxDt, k - 1) + [Tick(MaxDt)]
  }

  /** During the enter phase, frames lasting `total` in all add `total` to
      `entering`, as long as the sum stays within 1. */
  lemma {:induction false} SpreadEnters(y: real, total: real, k: nat)
    requires 0.0 <= y && y + total <= 1.0
    requires 0.0 <= total <= k as real * MaxDt
    ensures Run(Phase(y, -1.0), Spread(total, k)) == Phase(y + total, -1.0)
    decreases k
  {
    var p := Phase(y, -1.0);
    if total <= MaxDt {
      assert Run(p, [Tick(total)]) == Run(After(p, Tick(total)), []);
    } else {
      var front := Spread(total - MaxDt, k - 1);
      RunAppend(p, front, [Tick(MaxDt)]);
      SpreadEnters(y, total - MaxDt, k - 1);
      var q := Phase(y + total - MaxDt, -1.0);
      assert Run(q, [Tick(MaxDt)]) == Run(After(q, Tick(MaxDt)), []);
    }
  }

  /** During the exit phase, frames lasting `total` in all add `total` to `exiting`. */
  lemma {:induction false} SpreadExits(e: real, x: real, total: real, k: nat)
    requires 0.0 <= x
    requires 0.0 <= total <= k as real * MaxDt
    ensures Run(Phase(e, x), Spread(total, k)) == Phase(e, x + total)
    decreases k
  {
    var p := Phase(e, x);
    if total <= MaxDt {
      assert Run(p, [Tick(total)]) == Run(After(p, Tick(total)), []);
    } else {
      var front := Spread(total - MaxDt, k - 1);
      RunAppend(p, front, [Tick(MaxDt)]);
      SpreadExits(e, x, total - MaxDt, k - 1);
      var q := Phase(e, x + total - MaxDt);
      assert Run(q, [Tick(MaxDt)]) == Run(After(q, Tick(MaxDt)), []);
    }
  }

  /** Frames from Spread never last a negative time. */
  lemma SpreadNonNegative(total: real, k: nat)
    requires 0.0 <= total <= k as real * MaxDt
    ensures NonNegative(Spread(total, k))
  {
    var s := Spread(total, k);
    forall i | 0 <= i < |s| && s[i].Tick? ensures s[i].dt >= 0.0 {
    }
  }

  /** A number of full frames enough to cover `x` seconds of exit phase. */
  function FramesFor(x: real): (k: nat)
    requires 0.0 <= x
    ensures x <= k as real * MaxDt
  {
    (x / MaxDt).Floor + 1
  }

  /** A run from (-1,-1) that ends in `p`: RETURN, then frames up to
      `entering`; and, when `exiting` is set, frames up to 1, ESCAPE and
      frames up to `exiting`. */
  function PathTo(p: Phase): seq<Input>
    requires Inv(p)
  {
    if p.entering == -1.0 then []
    else
      var enter := [Signal(KeyDown(Return))] + Spread(p.entering, FramesFor(p.entering));
      if p.exiting == -1.0 then enter
      else enter + ([Signal(KeyDown(Escape))] + Spread(p.exiting, FramesFor(p.exiting)))
  }

  /** A single event input is always non-negative and runs as EventStep. */
  lemma SignalRun(p: Phase, e: Event)
    ensures NonNegative([Signal(e)]) && Run(p, [Signal(e)]) == EventStep(p, e).phase
  {
    assert Run(p, [Signal(e)]) == Run(After(p, Signal(e)), []);
  }

  /** Concatenating non-negative runs gives a non-negative run. */
  lemma NonNegativeAppend(a: seq<Input>, b: seq<Input>)
    requires NonNegative(a) && NonNegative(b)
    ensures NonNegative(a + b)
  {
    forall i | 0 <= i < |a + b| && (a + b)[i].Tick? ensures (a + b)[i].dt >= 0.0 {
      if i < |a| {
        assert (a + b)[i] == a[i];
      } else {
        assert (a + b)[i] == b[i - |a|];
      }
    }
  }

  /** RETURN, then frames lasting `e` in all, reach (e, -1). */
  lemma ReachEntering(e: real)
    requires 0.0 <= e <= 1.0
    ensures var path := [Signal(KeyDown(Return))] + Spread(e, FramesFor(e));
            NonNegative(path) && Run(Initial, path) == Phase(e, -1.0)
  {
    var ret := [Signal(KeyDown(Return))];
    var ticks := Spread(e, FramesFor(e));
    assert NonNegative(ret + ticks) by {
      SignalRun(Initial, KeyDown(Return));
      SpreadNonNegative(e, FramesFor(e));
      NonNegativeAppend(ret, ticks);
    }
    assert Run(Initial, ret) == Phase(0.0, -1.0) by {
      SignalRun(Initial, KeyDown(Return));
    }
    assert Run(Phase(0.0, -1.0), ticks) == Phase(e, -1.0) by {
      SpreadEnters(0.0, e, FramesFor(e));
    }
    RunAppend(Initial, ret, ticks);
  }

  /** From (1, -1), ESCAPE and frames lasting `x` in all reach (1, x). */
  lemma ReachExiting(x: real)
    requires 0.0 <= x
    ensures var path := [Signal(KeyDown(Escape))] + Spread(x, FramesFor(x));
            NonNegative(path) && Run(Phase(1.0, -1.0), path) == Phase(1.0, x)
  {
    var esc := [Signal(KeyDown(Escape))];
    var ticks := Spread(x, FramesFor(x));
    assert NonNegative(esc + ticks) by {
      SignalRun(Phase(1.0, -1.0), KeyDown(Escape));
      SpreadNonNegative(x, FramesFor(x));
      NonNegativeAppend(esc, ticks);
    }
    assert Run(Phase(1.0, -1.0), esc) == Phase(1.0, 0.0) by {
      SignalRun(Phase(1.0, -1.0), KeyDown(Escape));
    }
    assert Run(Phase(1.0, 0.0), ticks) == Phase(1.0, x) by {
      SpreadExits(1.0, 0.0, x, FramesFor(x));
    }
    RunAppend(Phase(1.0, -1.0), esc, ticks);
  }

  /** Every phase satisfying the invariant is reached by PathTo. */
  lemma PathToReaches(p: Phase)
    requires Inv(p)
    ensures NonNegative(PathTo(p)) && Run(Initial, PathTo(p)) == p
  {
    if p.entering == -1.0 {
      assert PathTo(p) == [];
    } else if p.exiting == -1.0 {
      ReachEntering(p.entering);
    } else {
      var enter := [Signal(KeyDown(Return))] + Spread(p.entering, FramesFor(p.entering));
      assert p.entering == 1.0;
      var exit := [Signal(KeyDown(Escape))] + Spread(p.exiting, FramesFor(p.exiting));
      assert PathTo(p) == enter + exit;
      ReachEntering(p.entering);
      ReachExiting(p.exiting);
      NonNegativeAppend(enter, exit);
      RunAppend(Initial, enter, exit);
    }
  }

  /** A phase some sequence of update and event calls drives the title
      screen to from (-1,-1), with no regard for the loop's stop at the quit bit. */
  ghost predicate Reachable(p: Phase) {
    exists inputs :: NonNegative(inputs) && Run(Initial, inputs) == p
  }

  /** The invariant describes exactly the phases sequences of update and
      event calls can reach. */
  lemma ReachableIffInv(p: Phase)
    ensures Reachable(p) <==> Inv(p)
  {
    if Reachable(p) {
      var inputs :| NonNegative(inputs) && Run(Initial, inputs) == p;
      ReachableSatisfiesInv(inputs);
    }
    if Inv(p) {
      PathToReaches(p);
    }
  }
}
