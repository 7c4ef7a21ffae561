/** The title screen game state: two phase variables, `entering` and
    `exiting`, moved by input events and advanced by the per-frame update. */
module Title {
  import opened Global

  /** The keys the title screen tells apart. */
  datatype Key = Return | Escape | OtherKey

  /** The input events the title screen tells apart: the window being
      closed, a key press, and anything else (mouse motion and so on). */
  datatype Event = WindowClosed | KeyDown(key: Key) | OtherEvent

  /** The values of the two phase variables. A negative value means
      "not started". */
  datatype Phase = Phase(entering: real, exiting: real)

  /** What a callback leaves behind: the new phase and the flag word it returns. */
  datatype Step = Step(phase: Phase, flags: bv32)

  /** The named stages of the title animation. */
  datatype Stage = Idle | Entering | Steady | Exiting | Done

  /** Both phase variables start at -1. */
  const Initial: Phase := Phase(-1.0, -1.0)

  /** The stage a phase is in: the exit phase dominates, then the enter phase. */
  function StageOf(p: Phase): Stage {
    if p.exiting > 1.0 then Done
    else if p.exiting >= 0.0 then Exiting
    else if p.entering >= 1.0 then Steady
    else if p.entering >= 0.0 then Entering
    else Idle
  }

  /** The position of a stage in the order Idle, Entering, Steady, Exiting, Done. */
  function Rank(s: Stage): nat {
    match s
    case Idle => 0
    case Entering => 1
    case Steady => 2
    case Exiting => 3
    case Done => 4
  }

  /** The states the title screen can be in: `entering` is unset (-1) or in
      [0,1]; `exiting` is unset (-1), or set and then `entering` is 1. */
  predicate Inv(p: Phase) {
    (p.entering == -1.0 || 0.0 <= p.entering <= 1.0) &&
    (p.exiting == -1.0 || (p.exiting >= 0.0 && p.entering == 1.0))
  }

  /** title.update: advance whichever phase is active by `dt`. */
  function UpdateStep(p: Phase, dt: real): (r: Step)
    // the exit phase takes priority: it advances `exiting` and leaves `entering` alone
    ensures p.exiting >= 0.0 ==> r.phase == Phase(p.entering, p.exiting + dt)
    // the quit bit is raised exactly when an active exit phase passes 1
    ensures r.flags == EventQuit <==> p.exiting >= 0.0 && p.exiting + dt > 1.0
    ensures r.flags == EventQuit || r.flags == NoFlags
    ensures r.flags == EventQuit <==> StageOf(r.phase) == Done
    // the enter phase advances by `dt` but never past 1, and leaves `exiting` alone
    ensures p.exiting < 0.0 && 0.0 <= p.entering < 1.0 ==>
              r.phase.exiting == p.exiting && r.phase.entering <= 1.0 &&
              (r.phase.entering == p.entering + dt || r.phase.entering == 1.0 < p.entering + dt)
    ensures p.exiting < 0.0 && 0.0 <= p.entering < 1.0 && dt >= 0.0 ==>
              p.entering <= r.phase.entering <= 1.0
    // idle, or entered and not exiting: nothing happens
    ensures p.exiting < 0.0 && (p.entering < 0.0 || p.entering >= 1.0) ==> r == Step(p, NoFlags)
    // with a non-negative delta-time the invariant is kept and no phase goes back
    ensures Inv(p) && dt >= 0.0 ==> Inv(r.phase)
    ensures dt >= 0.0 ==> p.entering <= r.phase.entering && p.exiting <= r.phase.exiting
  {
    if p.exiting >= 0.0 then
      var exiting := p.exiting + dt;
      Step(Phase(p.entering, exiting), if exiting > 1.0 then EventQuit else NoFlags)
    else if 0.0 <= p.entering < 1.0 then
      var entering := p.entering + dt;
      Step(Phase(if entering > 1.0 then 1.0 else entering, p.exiting), NoFlags)
    else
      Step(p, NoFlags)
  }

  /** title.treatEvent: react to one input event. */
  function EventStep(p: Phase, e: Event): (r: Step)
    // closing the window asks to quit and changes nothing else
    ensures e == WindowClosed ==> r == Step(p, EventQuit)
    ensures e != WindowClosed ==> r.flags == NoFlags
    // RETURN arms `entering` exactly when it is unset; `exiting` is never touched
    ensures e == KeyDown(Return) ==> r.phase.exiting == p.exiting
    ensures e == KeyDown(Return) ==> (r.phase.entering != p.entering <==> p.entering < 0.0)
    ensures e == KeyDown(Return) && p.entering < 0.0 ==> r.phase.entering == 0.0
    // ESCAPE arms `exiting` exactly when the enter phase is over and `exiting` is unset
    ensures e == KeyDown(Escape) ==> r.phase.entering == p.entering
    ensures e == KeyDown(Escape) ==> (r.phase != p <==> p.entering >= 1.0 && p.exiting < 0.0)
    ensures e == KeyDown(Escape) && r.phase != p ==> r.phase.exiting == 0.0
    // every other event or key changes nothing
    ensures e == OtherEvent || e == KeyDown(OtherKey) ==> r == Step(p, NoFlags)
    // the invariant is kept and no phase goes back
    ensures Inv(p) ==> Inv(r.phase)
    ensures p.entering <= r.phase.entering && p.exiting <= r.phase.exiting
  {
    match e
    case WindowClosed => Step(p, EventQuit)
    case KeyDown(Return) =>
      Step(if p.entering < 0.0 then Phase(0.0, p.exiting) else p, NoFlags)
    case KeyDown(Escape) =>
      Step(if p.entering >= 1.0 && p.exiting < 0.0 then Phase(p.entering, 0.0) else p, NoFlags)
    case KeyDown(OtherKey) => Step(p, NoFlags)
    case OtherEvent => Step(p, NoFlags)
  }

  /** The draw test: the sprite is drawn once enter has begun and while exit
      has not reached 1. */
  function Visible(p: Phase): (shown: bool)
    ensures StageOf(p) == Idle ==> !shown
    ensures StageOf(p) == Done ==> !shown
    ensures StageOf(p) == Entering ==> (shown <==> p.entering > 0.0)
    ensures Inv(p) && StageOf(p) == Steady ==> shown
    ensures Inv(p) && StageOf(p) == Exiting ==> (shown <==> p.exiting < 1.0)
  {
    p.entering > 0.0 && p.exiting < 1.0
  }

  /** Under the invariant, every update or event moves the stage forward by
      at most one step and never back. */
  lemma AtMostOneStage(p: Phase, dt: real, e: Event)
    requires Inv(p) && dt >= 0.0
    ensures var u := Rank(StageOf(UpdateStep(p, dt).phase));
            u == Rank(StageOf(p)) || u == Rank(StageOf(p)) + 1
    ensures var v := Rank(StageOf(EventStep(p, e).phase));
            v == Rank(StageOf(p)) || v == Rank(StageOf(p)) + 1
  {
  }

  /** The stage rank grows with each phase variable. */
  lemma RankMonotone(p: Phase, q: Phase)
    requires p.entering <= q.entering && p.exiting <= q.exiting
    ensures Rank(StageOf(p)) <= Rank(StageOf(q))
  {
  }

  /** Updating before any trigger does nothing: two updates of 0.5 keep (-1,-1). */
  lemma IdleExample()
    ensures UpdateStep(UpdateStep(Initial, 0.5).phase, 0.5) == Step(Initial, NoFlags)
  {
  }

  /** RETURN, then updates of 0.6 and 0.6: `entering` is 0.6, then clamps to 1. */
  lemma EnterExample()
    ensures var armed := EventStep(Initial, KeyDown(Return)).phase;
            var first := UpdateStep(armed, 0.6).phase;
            var second := UpdateStep(first, 0.6).phase;
            first == Phase(0.6, -1.0) && second == Phase(1.0, -1.0) && StageOf(second) == Steady
  {
  }

  /** From the steady stage, ESCAPE and then an update of 1.1 raise the quit bit. */
  lemma ExitExample()
    ensures var armed := EventStep(Phase(1.0, -1.0), KeyDown(Escape)).phase;
            UpdateStep(armed, 1.1).flags == EventQuit
  {
  }

  /** The title game state; its fields are the phase variables that the
      update and event callbacks share. */
  class TitleScreen {
    var entering: real
    var exiting: real

    /** The current phase. */
    function State(): Phase
      reads this
    {
      Phase(entering, exiting)
    }

    /** Both phase variables start unset. */
    constructor ()
      ensures State() == Initial && Inv(State())
    {
      entering := -1.0;
      exiting := -1.0;
    }

    /** title.update */
    method Update(dt: real) returns (flags: bv32)
      modifies this
      ensures State() == UpdateStep(old(State()), dt).phase
      ensures flags == UpdateStep(old(State()), dt).flags
      ensures Inv(old(State())) && dt >= 0.0 ==> Inv(State())
    {
      if exiting >= 0.0 {
        // exit has started
        exiting := exiting + dt;
        if exiting > 1.0 {
          return EventQuit;
        }
      } else if entering >= 0.0 && entering < 1.0 {
        // enter has started
        entering := entering + dt;
        if entering > 1.0 {
          entering := 1.0;
        }
      }
      return NoFlags;
    }

    /** title.treatEvent */
    method TreatEvent(e: Event) returns (flags: bv32)
      modifies this
      ensures State() == EventStep(old(State()), e).phase
      ensures flags == EventStep(old(State()), e).flags
      ensures Inv(old(State())) ==> Inv(State())
    {
      match e {
        case WindowClosed =>
          return EventQuit;
        case KeyDown(key) =>
          match key {
            case Return =>
              if entering < 0.0 {
                entering := 0.0;
              }
            case Escape =>
              if entering >= 1.0 && exiting < 0.0 {
                exiting := 0.0;
              }
            case OtherKey =>
          }
        case OtherEvent =>
      }
      return NoFlags;
    }
  }
}
