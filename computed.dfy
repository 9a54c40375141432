/**
 * `computed(getter)`: a cached derived value behind a dirty flag.
 *
 * The option-taking `watchEffect(fn, {lazy, scheduler})` and the three-argument `trigger` that
 * this file imports from the core index are not part of this model. They appear here as an
 * interface: reading `value` while dirty runs the lazy effect, whose result is passed in as a
 * parameter; the scheduler is an entry point the runtime calls; and the calls the cell makes into
 * the runtime are recorded in a ghost log.
 */
module Computed {
  import opened Js

  /** A call from the computed cell into the reactive runtime. */
  datatype Call = RunEffect | TrackValue | TriggerValue

  function Count(log: seq<Call>, c: Call): nat
  {
    if log == [] then 0 else Count(log[..|log| - 1], c) + (if log[|log| - 1] == c then 1 else 0)
  }

  lemma CountSnoc(log: seq<Call>, x: Call)
    ensures forall c :: Count(log + [x], c) == Count(log, c) + (if x == c then 1 else 0)
  {
    assert (log + [x])[..|log|] == log;
  }

  class ComputedRef<V> {
    var dirty: bool
    var buffer: Option<V>
    ghost var log: seq<Call>

    /** A clean cell holds a value, and recomputations never outnumber invalidations by more
        than the first run: at most one recomputation happens between two invalidations. */
    ghost predicate Valid()
      reads this
    {
      && (!dirty ==> buffer.Some?)
      && Count(log, RunEffect) + (if dirty then 1 else 0) == Count(log, TriggerValue) + 1
    }

    /** The effect is lazy, so creating the cell runs nothing; it starts dirty. */
    constructor ()
      ensures Valid() && dirty && buffer == None && log == []
    {
      dirty := true;
      buffer := None;
      log := [];
    }

    /** The `value` getter. `current` is what the effect returns if it is run now. */
    method Value(current: V) returns (r: V)
      requires Valid()
      modifies this
      ensures Valid() && !dirty
      ensures old(dirty) ==> r == current && buffer == Some(current)
      ensures !old(dirty) ==> Some(r) == old(buffer) && buffer == old(buffer)
      ensures log == old(log) + (if old(dirty) then [RunEffect] else []) + [TrackValue]
    {
      if dirty {
        buffer := Some(current);
        CountSnoc(log, RunEffect);
        log := log + [RunEffect];
        dirty := false;
      }
      CountSnoc(log, TrackValue);
      log := log + [TrackValue];
      r := buffer.value;
    }

    /** The scheduler the runtime calls when a dependency of the getter changes. */
    method Scheduler()
      requires Valid()
      modifies this
      ensures Valid() && dirty && buffer == old(buffer)
      ensures log == old(log) + (if old(dirty) then [] else [TriggerValue])
    {
      if !dirty {
        dirty := true;
        CountSnoc(log, TriggerValue);
        log := log + [TriggerValue];
      }
    }
  }
}
