/** The babysitter: a registry of entries, each a step function and the
    progress it owns, all stepped once per update. */
module Babysitter {

  /** One entry: the step that computes the next progress from the current one. */
  datatype Baby = Baby(step: real -> real, progress: real)

  /** Every entry with its progress replaced by its step applied to it. */
  function StepAll(babies: seq<Baby>): (r: seq<Baby>)
    ensures |r| == |babies|
    ensures forall i :: 0 <= i < |babies| ==>
              r[i].step == babies[i].step && r[i].progress == babies[i].step(babies[i].progress)
  {
    if babies == [] then []
    else [babies[0].(progress := babies[0].step(babies[0].progress))] + StepAll(babies[1..])
  }

  /** Stepping a concatenation steps each part. */
  lemma {:induction false} StepAllAppend(a: seq<Baby>, b: seq<Baby>)
    ensures StepAll(a + b) == StepAll(a) + StepAll(b)
  {
    if a == [] {
      assert a + b == b;
    } else {
      assert (a + b)[0] == a[0];
      assert (a + b)[1..] == a[1..] + b;
      StepAllAppend(a[1..], b);
    }
  }

  /** An entry sat before an update is stepped once from 0, and the others as before. */
  lemma SitThenUpdate(babies: seq<Baby>, babyStep: real -> real)
    ensures StepAll(babies + [Baby(babyStep, 0.0)]) == StepAll(babies) + [Baby(babyStep, babyStep(0.0))]
  {
    StepAllAppend(babies, [Baby(babyStep, 0.0)]);
  }

  /** `f` applied `n` times to `x`. */
  function Iterate(f: real -> real, n: nat, x: real): real {
    if n == 0 then x else f(Iterate(f, n - 1, x))
  }

  /** The registry after `n` updates. */
  function UpdateTimes(babies: seq<Baby>, n: nat): seq<Baby> {
    if n == 0 then babies else StepAll(UpdateTimes(babies, n - 1))
  }

  /** Entries do not interact: after `n` updates each entry keeps its step and
      its progress is its step applied `n` times to its old progress. */
  lemma {:induction false} UpdateTimesAt(babies: seq<Baby>, n: nat, i: nat)
    requires i < |babies|
    ensures |UpdateTimes(babies, n)| == |babies|
    ensures UpdateTimes(babies, n)[i] ==
              Baby(babies[i].step, Iterate(babies[i].step, n, babies[i].progress))
  {
    if n > 0 {
      UpdateTimesAt(babies, n - 1, i);
    }
  }

  /** The registry (`babies`), as an owned object. */
  class Registry {
    var babies: seq<Baby>

    /** The registry starts empty. */
    constructor ()
      ensures babies == []
    {
      babies := [];
    }

    /** sit: register a step function with progress 0. */
    method Sit(babyStep: real -> real) returns (status: int)
      modifies this
      ensures babies == old(babies) + [Baby(babyStep, 0.0)]
      ensures status == 0
    {
      babies := babies + [Baby(babyStep, 0.0)];
      return 0;
    }

    /** update: step every entry once; `dt` is not passed to the steps. */
    method Update(dt: real) returns (status: int)
      modifies this
      ensures babies == StepAll(old(babies))
      ensures old(babies) == [] ==> babies == []
      ensures status == 0
    {
      var i := 0;
      while i < |babies|
        invariant i <= |babies| == |old(babies)|
        invariant forall j :: 0 <= j < i ==>
                    babies[j] == old(babies)[j].(progress := old(babies)[j].step(old(babies)[j].progress))
        invariant forall j :: i <= j < |babies| ==> babies[j] == old(babies)[j]
      {
        var b := babies[i];
        babies := babies[i := b.(progress := b.step(b.progress))];
        i := i + 1;
      }
      return 0;
    }

    /** clear: drop every entry. */
    method Clear() returns (status: int)
      modifies this
      ensures babies == []
      ensures status == 0
    {
      babies := [];
      return 0;
    }
  }
}
