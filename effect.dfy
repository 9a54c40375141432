/**
 * The dependency store and the effect core: `track`, `trigger`, `cleanup` and `watchEffect`.
 *
 * Targets, keys and effects are identities. A dependency set ("dep") is identified by its
 * (target, key) pair, because a set once created for a pair is never replaced. JavaScript
 * `Set`s iterate in insertion order, so each dep set is a duplicate-free sequence. An effect
 * body is opaque; it is abstracted to the (target, key) pairs it reads, each of which calls
 * `track`.
 */
module Effects {
  import opened Js

  type TargetId = nat
  type EffectId = nat

  datatype Dep = Dep(target: TargetId, key: string)

  /** The whole module-level state: which targets have a key map in the bucket, the dep sets,
      each effect function's `deps` property (absent = undefined), and `activeEffect`. */
  datatype Store = Store(
    targets: set<TargetId>,
    bucket: map<Dep, seq<EffectId>>,
    deps: map<EffectId, seq<Dep>>,
    active: Option<EffectId>)

  /** Invariant of the store: every dep set belongs to a target that has a key map, holds no
      duplicates, and every back-reference in an effect's `deps` names an existing dep set. */
  ghost predicate Consistent(s: Store)
  {
    && (forall d :: d in s.bucket ==> d.target in s.targets && NoDup(s.bucket[d]))
    && (forall e, d :: e in s.deps && d in s.deps[e] ==> d in s.bucket)
  }

  function DepSet(s: Store, d: Dep): seq<EffectId>
  {
    if d in s.bucket then s.bucket[d] else []
  }

  function DepsOf(s: Store, e: EffectId): seq<Dep>
  {
    if e in s.deps then s.deps[e] else []
  }

  /** `Set.prototype.add`: appends only when absent. */
  function Add(xs: seq<EffectId>, e: EffectId): (r: seq<EffectId>)
    ensures e in r && (forall x :: x in r <==> x in xs || x == e)
    ensures NoDup(xs) ==> NoDup(r)
  {
    if e in xs then xs else xs + [e]
  }

  /** `Set.prototype.delete`. */
  function Remove(xs: seq<EffectId>, e: EffectId): (r: seq<EffectId>)
    ensures forall x :: x in r <==> x in xs && x != e
    ensures NoDup(xs) ==> NoDup(r)
    ensures e !in xs ==> r == xs
  {
    if xs == [] then []
    else if xs[0] == e then Remove(xs[1..], e)
    else
      var rest := Remove(xs[1..], e);
      assert NoDup(xs) ==> xs[0] !in xs[1..] && NoDup(xs[1..]);
      [xs[0]] + rest
  }

  /** `track(target, key)` as a state transition. */
  function TrackStore(s: Store, d: Dep): (r: Store)
    ensures s.active == None ==> r == s
    ensures r.active == s.active
    ensures s.active.Some? ==>
      && r.targets == s.targets + {d.target}
      && d in r.bucket && s.active.value in r.bucket[d]
      && (forall d' :: d' != d ==> (d' in r.bucket <==> d' in s.bucket))
      && (forall d' :: d' != d && d' in s.bucket ==> r.bucket[d'] == s.bucket[d'])
      && r.deps == s.deps[s.active.value := DepsOf(s, s.active.value) + [d]]
    ensures Consistent(s) ==> Consistent(r)
  {
    match s.active
    case None => s
    case Some(e) =>
      Store(s.targets + {d.target},
            s.bucket[d := Add(DepSet(s, d), e)],
            s.deps[e := DepsOf(s, e) + [d]],
            s.active)
  }

  /** A sequence of `track` calls, in order. */
  function TrackAll(s: Store, ds: seq<Dep>): Store
    decreases ds
  {
    if ds == [] then s else TrackAll(TrackStore(s, ds[0]), ds[1..])
  }

  /** `cleanup(effectFn)` as a state transition: with no `deps` list nothing changes;
      otherwise the effect leaves every set its list names, and the list becomes empty. */
  function CleanupStore(s: Store, e: EffectId): Store
  {
    if e !in s.deps then s
    else s.(bucket := RemoveFrom(s.bucket, s.deps[e], e), deps := s.deps[e := []])
  }

  /** The bucket after deleting e from each dep set named in ds, in order. */
  function RemoveFrom(b: map<Dep, seq<EffectId>>, ds: seq<Dep>, e: EffectId): map<Dep, seq<EffectId>>
    decreases |ds|
  {
    if ds == [] then b
    else
      var b' := RemoveFrom(b, ds[..|ds| - 1], e);
      var d := ds[|ds| - 1];
      if d in b' then b'[d := Remove(b'[d], e)] else b'
  }

  lemma RemoveTwice(xs: seq<EffectId>, e: EffectId)
    ensures Remove(Remove(xs, e), e) == Remove(xs, e)
  {
  }

  /** Deleting e from the sets named in ds leaves the keys alone, takes e out of exactly the
      named sets, and leaves every other set as it was. */
  lemma {:induction false} RemoveFromEffect(b: map<Dep, seq<EffectId>>, ds: seq<Dep>, e: EffectId)
    decreases |ds|
    ensures RemoveFrom(b, ds, e).Keys == b.Keys
    ensures forall d :: d in b ==> RemoveFrom(b, ds, e)[d] == if d in ds then Remove(b[d], e) else b[d]
  {
    if ds != [] {
      var n := |ds| - 1;
      RemoveFromEffect(b, ds[..n], e);
      assert ds == ds[..n] + [ds[n]];
      forall d | d in b
        ensures RemoveFrom(b, ds, e)[d] == if d in ds then Remove(b[d], e) else b[d]
      {
        if d == ds[n] {
          RemoveTwice(b[d], e);
        } else {
          assert d in ds <==> d in ds[..n];
        }
      }
    }
  }

  /** The reads of a sequence of effects, concatenated in run order. */
  function ReadsOf(es: seq<EffectId>, bodyReads: map<EffectId, seq<Dep>>): seq<Dep>
  {
    if es == [] then [] else ReadsOf(es[..|es| - 1], bodyReads) + BodyReads(es[|es| - 1], bodyReads)
  }

  function BodyReads(e: EffectId, bodyReads: map<EffectId, seq<Dep>>): seq<Dep>
  {
    if e in bodyReads then bodyReads[e] else []
  }

  lemma {:induction false} TrackAllAppend(s: Store, a: seq<Dep>, b: seq<Dep>)
    decreases a
    ensures TrackAll(s, a + b) == TrackAll(TrackAll(s, a), b)
  {
    if a != [] {
      assert a + b != [] && (a + b)[0] == a[0];
      assert (a + b)[1..] == a[1..] + b;
      TrackAllAppend(TrackStore(s, a[0]), a[1..], b);
    } else {
      assert a + b == b;
    }
  }

  /** A run of `track` calls keeps the store consistent, keeps the active effect, registers the
      active effect in every dep set read, and appends one back-reference per call, duplicates
      included. */
  lemma TrackAllEffect(s: Store, ds: seq<Dep>)
    requires Consistent(s)
    ensures Consistent(TrackAll(s, ds)) && TrackAll(s, ds).active == s.active
    ensures s.active == None ==> TrackAll(s, ds) == s
    ensures s.active.Some? ==>
      && (forall d :: d in ds ==> d in TrackAll(s, ds).bucket && s.active.value in TrackAll(s, ds).bucket[d])
      && DepsOf(TrackAll(s, ds), s.active.value) == DepsOf(s, s.active.value) + ds
  {
    TrackAllConsistent(s, ds);
    if s.active.Some? {
      TrackAllRegisters(s, ds);
      TrackAllDeps(s, ds);
    }
  }

  lemma {:induction false} TrackAllConsistent(s: Store, ds: seq<Dep>)
    decreases ds
    requires Consistent(s)
    ensures Consistent(TrackAll(s, ds)) && TrackAll(s, ds).active == s.active
    ensures s.active == None ==> TrackAll(s, ds) == s
  {
    if ds != [] {
      TrackAllConsistent(TrackStore(s, ds[0]), ds[1..]);
    }
  }

  lemma {:induction false} TrackAllRegisters(s: Store, ds: seq<Dep>)
    decreases ds
    requires s.active.Some?
    ensures forall d :: d in ds ==> d in TrackAll(s, ds).bucket && s.active.value in TrackAll(s, ds).bucket[d]
  {
    if ds != [] {
      var s1 := TrackStore(s, ds[0]);
      TrackAllRegisters(s1, ds[1..]);
      var e := s.active.value;
      var r := TrackAll(s1, ds[1..]);
      forall d | d in ds
        ensures d in r.bucket && e in r.bucket[d]
      {
        if d != ds[0] {
          assert d in ds[1..];
        } else {
          TrackAllKeeps(s1, ds[1..], d, e);
        }
      }
    }
  }

  lemma {:induction false} TrackAllDeps(s: Store, ds: seq<Dep>)
    decreases ds
    requires s.active.Some?
    ensures DepsOf(TrackAll(s, ds), s.active.value) == DepsOf(s, s.active.value) + ds
  {
    if ds != [] {
      TrackAllDeps(TrackStore(s, ds[0]), ds[1..]);
      assert ds == [ds[0]] + ds[1..];
    } else {
      assert DepsOf(s, s.active.value) + ds == DepsOf(s, s.active.value);
    }
  }

  /** Later `track` calls never take an effect out of a dep set. */
  lemma {:induction false} TrackAllKeeps(s: Store, ds: seq<Dep>, d: Dep, e: EffectId)
    decreases ds
    requires d in s.bucket && e in s.bucket[d]
    ensures d in TrackAll(s, ds).bucket && e in TrackAll(s, ds).bucket[d]
  {
    if ds != [] {
      TrackAllKeeps(TrackStore(s, ds[0]), ds[1..], d, e);
    }
  }

  /** `cleanup` removes the effect from every set in its `deps` list, empties that list, and
      touches nothing else. */
  lemma CleanupEffect(s: Store, e: EffectId)
    requires Consistent(s)
    ensures var r := CleanupStore(s, e);
      && Consistent(r)
      && r.targets == s.targets && r.active == s.active && r.bucket.Keys == s.bucket.Keys
      && (e in s.deps ==> r.deps == s.deps[e := []])
      && (e !in s.deps ==> r == s)
      && (forall d :: d in DepsOf(s, e) ==> e !in r.bucket[d])
      && (forall d, x :: d in s.bucket && x != e ==> (x in r.bucket[d] <==> x in s.bucket[d]))
      && (forall d :: d in s.bucket && d !in DepsOf(s, e) ==> r.bucket[d] == s.bucket[d])
  {
    if e in s.deps {
      RemoveFromEffect(s.bucket, s.deps[e], e);
    }
  }

  lemma CleanupConsistent(s: Store, e: EffectId)
    requires Consistent(s)
    ensures Consistent(CleanupStore(s, e))
  {
    if e in s.deps {
      RemoveFromEffect(s.bucket, s.deps[e], e);
    }
  }

  /** An effect whose `deps` list is empty is unaffected by `cleanup`: since `watchEffect`
      registers reads on `fn` and cleans up the wrapper, whose list stays empty, no dependency
      is ever pruned by re-running a wrapper. */
  lemma CleanupEmptyIsNoOp(s: Store, e: EffectId)
    requires e in s.deps && s.deps[e] == []
    ensures CleanupStore(s, e) == s
  {
    assert RemoveFrom(s.bucket, [], e) == s.bucket;
  }

  class Runtime {
    var targets: set<TargetId>
    var bucket: map<Dep, seq<EffectId>>
    var deps: map<EffectId, seq<Dep>>
    var active: Option<EffectId>

    function State(): Store
      reads this
    {
      Store(targets, bucket, deps, active)
    }

    ghost predicate Valid()
      reads this
    {
      Consistent(State())
    }

    constructor ()
      ensures Valid() && State() == Store({}, map[], map[], None)
    {
      targets, bucket, deps, active := {}, map[], map[], None;
    }

    /** `track(target, key)`. */
    method Track(d: Dep)
      requires Valid()
      modifies this
      ensures Valid()
      ensures State() == TrackStore(old(State()), d)
    {
      if active == None {
        return;
      }
      var e := active.value;
      if d.target !in targets {
        targets := targets + {d.target};
      }
      var set_ := if d in bucket then bucket[d] else [];
      if e !in set_ {
        set_ := set_ + [e];
      }
      bucket := bucket[d := set_];
      var list := if e in deps then deps[e] else [];
      deps := deps[e := list + [d]];
    }

    /** Runs one opaque effect body: its reads call `track` against whatever `activeEffect`
        currently is. */
    method RunBody(touched: seq<Dep>)
      requires Valid()
      modifies this
      ensures Valid()
      ensures State() == TrackAll(old(State()), touched)
    {
      var i := 0;
      while i < |touched|
        invariant 0 <= i <= |touched| && Valid()
        invariant State() == TrackAll(old(State()), touched[..i])
      {
        TrackAllAppend(old(State()), touched[..i], [touched[i]]);
        assert touched[..i + 1] == touched[..i] + [touched[i]];
        Track(touched[i]);
        i := i + 1;
      }
      assert touched[..i] == touched;
    }

    /** `trigger(target, key)`: `found` is false exactly when the target has no key map. The
        effects run are a copy of the dep set taken before any of them runs. */
    method Trigger(d: Dep, bodyReads: map<EffectId, seq<Dep>>) returns (found: bool, ran: seq<EffectId>)
      requires Valid()
      modifies this
      ensures Valid()
      ensures found == (d.target in old(targets))
      ensures NoDup(ran)
      ensures ran == (if found then DepSet(old(State()), d) else [])
      ensures State() == TrackAll(old(State()), ReadsOf(ran, bodyReads))
    {
      if d.target !in targets {
        return false, [];
      }
      found := true;
      var toRun := if d in bucket then bucket[d] else [];
      ran := [];
      while |ran| < |toRun|
        invariant |ran| <= |toRun| && ran == toRun[..|ran|] && Valid()
        invariant State() == TrackAll(old(State()), ReadsOf(ran, bodyReads))
      {
        var e := toRun[|ran|];
        TrackAllAppend(old(State()), ReadsOf(ran, bodyReads), BodyReads(e, bodyReads));
        RunBody(BodyReads(e, bodyReads));
        assert (ran + [e])[..|ran|] == ran;
        ran := ran + [e];
      }
      assert ran == toRun;
    }

    /** `cleanup(effectFn)`. */
    method Cleanup(e: EffectId)
      requires Valid()
      modifies this
      ensures Valid()
      ensures State() == CleanupStore(old(State()), e)
    {
      ghost var s0 := State();
      CleanupConsistent(s0, e);
      if e !in deps {
        return;
      }
      var list := deps[e];
      var i := 0;
      while i < |list|
        invariant 0 <= i <= |list|
        invariant targets == s0.targets && deps == s0.deps && active == s0.active
        invariant bucket == RemoveFrom(s0.bucket, list[..i], e)
      {
        var d := list[i];
        assert list[..i + 1][..i] == list[..i];
        if d in bucket {
          bucket := bucket[d := Remove(bucket[d], e)];
        }
        i := i + 1;
      }
      assert list[..i] == list;
      deps := deps[e := []];
    }

    /** `watchEffect(fn)`: gives the fresh wrapper an empty `deps` list and runs it once; the
        run cleans up the wrapper, makes `fn` (not the wrapper) the active effect, never resets
        it, and runs the body. */
    method WatchEffect(fn: EffectId, wrapper: EffectId, touched: seq<Dep>)
      requires Valid()
      requires wrapper != fn && wrapper !in deps
      modifies this
      ensures Valid()
      ensures State() == TrackAll(old(State()).(deps := old(deps)[wrapper := []], active := Some(fn)), touched)
      ensures active == Some(fn) && wrapper in deps && deps[wrapper] == []
      ensures forall d :: d in touched ==> d in bucket && fn in bucket[d]
      ensures DepsOf(State(), fn) == DepsOf(old(State()), fn) + touched
    {
      deps := deps[wrapper := []];
      CleanupEmptyIsNoOp(State(), wrapper);
      Cleanup(wrapper);
      active := Some(fn);
      ghost var s0 := State();
      TrackAllEffect(s0, touched);
      TrackAllDepsOther(s0, touched, wrapper);
      RunBody(touched);
    }
  }

  /** `track` only extends the `deps` list of the active effect. */
  lemma {:induction false} TrackAllDepsOther(s: Store, ds: seq<Dep>, x: EffectId)
    decreases ds
    requires s.active != Some(x)
    ensures DepsOf(TrackAll(s, ds), x) == DepsOf(s, x)
    ensures x in s.deps ==> x in TrackAll(s, ds).deps
  {
    if ds != [] {
      TrackAllDepsOther(TrackStore(s, ds[0]), ds[1..], x);
    }
  }

  /** The effects `trigger` runs are each run exactly once: the snapshot has no duplicates, and
      an effect subscribed while the pass runs is not in it. */
  lemma TriggerRunsOnce(s: Store, d: Dep)
    requires Consistent(s)
    ensures NoDup(DepSet(s, d))
  {
  }
}
