/** Runs of a system whose state changes in atomic steps. */
module Runs {

  /** Which steps a state allows, and where an allowed step leads. */
  datatype System<!W, !S> = System(enabled: (W, S) -> bool, apply: (W, S) -> W)

  predicate Run<W, S>(system: System<W, S>, w: W, steps: seq<S>)
    decreases |steps|
  {
    steps == [] || (system.enabled(w, steps[0]) && Run(system, system.apply(w, steps[0]), steps[1..]))
  }

  function After<W, S>(system: System<W, S>, w: W, steps: seq<S>): W
    decreases |steps|
  {
    if steps == [] then w else After(system, system.apply(w, steps[0]), steps[1..])
  }

  /** The same system, taking only the steps that are `allowed`. */
  function Restricted<W, S>(system: System<W, S>, allowed: (W, S) -> bool): System<W, S> {
    System((w, step) => system.enabled(w, step) && allowed(w, step), system.apply)
  }

  lemma {:induction false} RestrictedRuns<W, S>(system: System<W, S>, allowed: (W, S) -> bool, w: W, steps: seq<S>)
    requires Run(Restricted(system, allowed), w, steps)
    ensures Run(system, w, steps) && After(system, w, steps) == After(Restricted(system, allowed), w, steps)
    decreases |steps|
  {
    if steps != [] {
      RestrictedRuns(system, allowed, system.apply(w, steps[0]), steps[1..]);
    }
  }

  /** Every state of the run, the first and the last included, is as `kept` says. */
  predicate Throughout<W, S>(system: System<W, S>, kept: W -> bool, w: W, steps: seq<S>)
    decreases |steps|
  {
    kept(w) && (steps == [] || Throughout(system, kept, system.apply(w, steps[0]), steps[1..]))
  }

  /** What every step keeps, every run keeps. */
  lemma {:induction false} Always<W(!new), S(!new)>(system: System<W, S>, kept: W -> bool, w: W, steps: seq<S>)
    requires kept(w) && Run(system, w, steps)
    requires forall v, step :: kept(v) && system.enabled(v, step) ==> kept(system.apply(v, step))
    ensures kept(After(system, w, steps))
    decreases |steps|
  {
    if steps != [] {
      Always(system, kept, system.apply(w, steps[0]), steps[1..]);
    }
  }

  /** Runs grow by one enabled step at their end. */
  lemma {:induction false} Then<W, S>(system: System<W, S>, w: W, steps: seq<S>, step: S) returns (longer: seq<S>, v: W)
    requires Run(system, w, steps) && system.enabled(After(system, w, steps), step)
    ensures longer == steps + [step] && Run(system, w, longer)
    ensures v == After(system, w, longer) == system.apply(After(system, w, steps), step)
    decreases |steps|
  {
    longer := steps + [step];
    v := system.apply(After(system, w, steps), step);
    if steps == [] {
      assert longer[1..] == [];
      assert Run(system, v, []) && After(system, v, []) == v;
    } else {
      var tail, _ := Then(system, system.apply(w, steps[0]), steps[1..], step);
      assert longer[1..] == tail;
    }
  }
}
