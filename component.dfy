/**
 * Component instances outside of rendering: prop change detection and the prop update of
 * `patchComponent`, the current-instance holder with the lifecycle registration hooks, the
 * render-context proxy's read and write resolution, and the event-handler name of `emit`.
 *
 * The component layer exists twice (an older copy beside the renderer); the rules modelled here
 * are line-for-line the same in both, except that only the newer copy has `onUnmounted`.
 */
module Components {
  import opened Js
  import opened Props

  // ---------------------------------------------------------------------------------------
  // hasPropsChanged

  /** The change test: the key counts differ, or some key of the new object maps to a value
      that is not identical (`!==`) to the old object's value for that key. */
  predicate PropsChanged(oldProps: Record, newProps: Record)
  {
    |newProps| != |oldProps| || exists i :: 0 <= i < |newProps| && newProps[i].1 != Get(oldProps, newProps[i].0)
  }

  /** `hasPropsChanged(oldProps, newProps)`: compares the counts, then scans the new keys and
      returns at the first difference. */
  method HasPropsChanged(oldProps: Record, newProps: Record) returns (changed: bool)
    ensures changed == PropsChanged(oldProps, newProps)
  {
    if |newProps| != |oldProps| {
      return true;
    }
    var i := 0;
    while i < |newProps|
      invariant 0 <= i <= |newProps|
      invariant forall j :: 0 <= j < i ==> newProps[j].1 == Get(oldProps, newProps[j].0)
    {
      var (key, value) := newProps[i];
      if value != Get(oldProps, key) {
        return true;
      }
      i := i + 1;
    }
    return false;
  }

  /** An object never differs from itself. */
  lemma PropsChangedIrreflexive(x: Record)
    requires WellFormed(x)
    ensures !PropsChanged(x, x)
  {
    forall i | 0 <= i < |x|
      ensures x[i].1 == Get(x, x[i].0)
    {
      GetFound(x, x[i].0, i);
    }
  }

  /** When no change is reported, the counts agree and every new key reads the same in both. */
  lemma PropsUnchangedAgree(oldProps: Record, newProps: Record)
    requires WellFormed(newProps) && !PropsChanged(oldProps, newProps)
    ensures |oldProps| == |newProps|
    ensures forall k :: HasKey(newProps, k) ==> Get(oldProps, k) == Get(newProps, k)
  {
    forall k | HasKey(newProps, k)
      ensures Get(oldProps, k) == Get(newProps, k)
    {
      var i :| 0 <= i < |newProps| && newProps[i].0 == k;
      GetFound(newProps, k, i);
    }
  }

  /** The test only reads the new keys, so renaming a key whose new value is undefined goes
      unnoticed: `{x: 1}` against `{y: undefined}` reports no change. */
  lemma RenamedUndefinedKeyUnnoticed()
    ensures !HasKey([("x", Num(1))], "y")
    ensures !PropsChanged([("x", Num(1))], [("y", Undefined)])
  {
    assert [("y", Undefined)][0].1 == Get([("x", Num(1))], "y");
  }

  // ---------------------------------------------------------------------------------------
  // Instances and patchComponent

  class Instance {
    /** The instance's (shallow-reactive) props object. */
    var props: Record
    var mounted: seq<nat>
    var unmounted: seq<nat>

    ghost predicate Valid()
      reads this
    {
      WellFormed(props)
    }

    constructor (props: Record)
      requires WellFormed(props)
      ensures Valid() && this.props == props && mounted == [] && unmounted == []
    {
      this.props := props;
      mounted, unmounted := [], [];
    }

    /** The first loop of the update: `props[k] = newProps[k]` for every new key. Keys already
        present keep their position; keys of the old props not in `newProps` are untouched. */
    method AssignAll(newProps: Record)
      requires Valid() && WellFormed(newProps)
      modifies this
      ensures Valid() && mounted == old(mounted) && unmounted == old(unmounted)
      ensures forall k :: HasKey(props, k) <==> HasKey(old(props), k) || HasKey(newProps, k)
      ensures forall k :: Get(props, k) == if HasKey(newProps, k) then Get(newProps, k) else Get(old(props), k)
    {
      var i := 0;
      while i < |newProps|
        invariant 0 <= i <= |newProps| && Valid()
        invariant mounted == old(mounted) && unmounted == old(unmounted)
        invariant forall k :: HasKey(props, k) <==> HasKey(old(props), k) || HasKey(newProps[..i], k)
        invariant forall k :: Get(props, k) == if HasKey(newProps[..i], k) then Get(newProps, k) else Get(old(props), k)
      {
        var (k, v) := newProps[i];
        GetFound(newProps, k, i);
        SetFacts(props, k, v);
        HasKeyPrefix(newProps, i);
        props := Set(props, k, v);
        i := i + 1;
      }
      assert newProps[..i] == newProps;
    }

    /** The second loop: every key of the props object that `newProps` lacks is deleted. The
        keys are enumerated once; deleting the key being visited does not disturb the rest. */
    method DeleteAbsent(newProps: Record)
      requires Valid()
      modifies this
      ensures Valid() && mounted == old(mounted) && unmounted == old(unmounted)
      ensures forall k :: HasKey(props, k) <==> HasKey(old(props), k) && HasKey(newProps, k)
      ensures forall k :: HasKey(props, k) ==> Get(props, k) == Get(old(props), k)
    {
      var keys := KeysOf(props);
      var i := 0;
      while i < |keys|
        invariant 0 <= i <= |keys| && Valid()
        invariant mounted == old(mounted) && unmounted == old(unmounted)
        invariant forall k :: HasKey(props, k) <==> HasKey(old(props), k) && (k in keys[..i] ==> HasKey(newProps, k))
        invariant forall k :: HasKey(props, k) ==> Get(props, k) == Get(old(props), k)
      {
        var k := keys[i];
        assert forall k' :: k' in keys[..i + 1] <==> k' in keys[..i] || k' == k by {
          assert keys[..i + 1] == keys[..i] + [k];
        }
        if !HasKey(newProps, k) {
          DeleteFacts(props, k);
          props := Delete(props, k);
        }
        i := i + 1;
      }
      forall k | HasKey(old(props), k)
        ensures k in keys[..i]
      {
        HasKeyIsIn(old(props), k);
        assert keys[..i] == keys;
      }
    }
  }

  /** A component vnode: the instance it carries, its own enumerable properties other than
      `component` (the object `hasPropsChanged` is applied to), the prop names its component
      declares (`None` when it declares none), and the data passed to it. */
  class ComponentVNode {
    var component: Instance?
    const fields: Record
    const declared: Option<set<string>>
    const propsData: Record

    constructor (fields: Record, declared: Option<set<string>>, propsData: Record)
      ensures component == null && this.fields == fields
      ensures this.declared == declared && this.propsData == propsData
    {
      component := null;
      this.fields, this.declared, this.propsData := fields, declared, propsData;
    }
  }

  datatype PatchOutcome = NoInstance | PropsKept | PropsUpdated | PatchTypeError

  /** `patchComponent(oldVNode, newVNode)`. The new vnode takes over the old one's instance
      (both then carry the same `component`, so it cannot affect the comparison). Without an
      instance an error is logged. Otherwise, when `hasPropsChanged` holds for the two vnodes,
      the new props are resolved and the instance's props are made to hold exactly their keys
      and values; with no declared props and non-empty data, `resolveProps` throws first. */
  method PatchComponent(oldV: ComponentVNode, newV: ComponentVNode) returns (outcome: PatchOutcome)
    requires oldV.component != null ==> oldV.component.Valid()
    requires WellFormed(newV.propsData)
    modifies newV, oldV.component
    ensures newV.component == old(oldV.component)
    ensures outcome == NoInstance <==> old(oldV.component) == null
    ensures outcome == PropsKept <==> old(oldV.component) != null && !PropsChanged(oldV.fields, newV.fields)
    ensures outcome == PatchTypeError <==>
              old(oldV.component) != null && PropsChanged(oldV.fields, newV.fields)
              && newV.declared.None? && newV.propsData != []
    ensures var inst := old(oldV.component);
            inst != null ==> inst.Valid() && inst.mounted == old(inst.mounted) && inst.unmounted == old(inst.unmounted)
    ensures var inst := old(oldV.component);
            outcome != PropsUpdated && inst != null ==> inst.props == old(inst.props)
    ensures var inst := old(oldV.component);
            var np := Partition(if newV.declared.Some? then newV.declared.value else {}, newV.propsData, true);
            outcome == PropsUpdated ==>
              && (forall k :: HasKey(inst.props, k) <==> HasKey(np, k))
              && (forall k :: Get(inst.props, k) == Get(np, k))
  {
    var instance := oldV.component;
    newV.component := instance;
    if instance == null {
      return NoInstance;
    }
    var changed := HasPropsChanged(oldV.fields, newV.fields);
    if !changed {
      return PropsKept;
    }
    var resolved := ResolveProps(newV.declared, newV.propsData);
    if resolved.ResolveTypeError? {
      return PatchTypeError;
    }
    var newProps := resolved.props;
    PartitionExact(if newV.declared.Some? then newV.declared.value else {}, newV.propsData);
    instance.AssignAll(newProps);
    instance.DeleteAbsent(newProps);
    outcome := PropsUpdated;
  }

  // ---------------------------------------------------------------------------------------
  // The current instance and lifecycle registration

  class Lifecycle {
    /** `currentInstance`: the instance whose `setup` is running, if any. */
    var current: Instance?

    constructor ()
      ensures current == null
    {
      current := null;
    }

    /** `setCurrentInstance(instance)`. */
    method SetCurrentInstance(instance: Instance?)
      modifies this
      ensures current == instance
    {
      current := instance;
    }

    /** `onMounted(fn)`: appends to the current instance's mounted hooks; with no current
        instance it only logs, and nothing changes. */
    method OnMounted(fn: nat)
      modifies current
      ensures current == old(current)
      ensures current != null ==> current.mounted == old(current.mounted) + [fn]
                                  && current.unmounted == old(current.unmounted)
                                  && current.props == old(current.props)
    {
      if current != null {
        current.mounted := current.mounted + [fn];
      }
    }

    /** `onUnmounted(fn)`: the same rule for the unmounted hooks. */
    method OnUnmounted(fn: nat)
      modifies current
      ensures current == old(current)
      ensures current != null ==> current.unmounted == old(current.unmounted) + [fn]
                                  && current.mounted == old(current.mounted)
                                  && current.props == old(current.props)
    {
      if current != null {
        current.unmounted := current.unmounted + [fn];
      }
    }
  }

  /** Registration during setup: hooks registered while an instance is current end up on it, in
      registration order; hooks registered after `setCurrentInstance(null)` are dropped. */
  method RegisterDuringSetup(lc: Lifecycle, inst: Instance, hooks: seq<nat>, late: seq<nat>)
    modifies lc, inst
    ensures inst.mounted == old(inst.mounted) + hooks
    ensures lc.current == null && inst.props == old(inst.props)
  {
    lc.SetCurrentInstance(inst);
    var i := 0;
    while i < |hooks|
      invariant 0 <= i <= |hooks| && lc.current == inst
      invariant inst.mounted == old(inst.mounted) + hooks[..i] && inst.props == old(inst.props)
    {
      lc.OnMounted(hooks[i]);
      assert hooks[..i + 1] == hooks[..i] + [hooks[i]];
      i := i + 1;
    }
    assert hooks[..i] == hooks;
    lc.SetCurrentInstance(null);
    i := 0;
    while i < |late|
      invariant 0 <= i <= |late| && lc.current == null
      invariant inst.mounted == old(inst.mounted) + hooks && inst.props == old(inst.props)
    {
      lc.OnMounted(late[i]);
      i := i + 1;
    }
  }

  // ---------------------------------------------------------------------------------------
  // The render context

  /** The result of a read through the render context: a value, or a miss (an error is logged
      and the read yields undefined). */
  datatype Lookup = Found(v: JsValue) | Missing

  /** The proxy's `get`: `$slots` yields the slots; otherwise the data state (when there is
      one) is consulted before the props. The setup state is not consulted. */
  function ContextGet(state: Option<Record>, props: Record, slots: JsValue, key: string): (r: Lookup)
    ensures r.Missing? <==> key != "$slots" && !(state.Some? && HasKey(state.value, key)) && !HasKey(props, key)
  {
    if key == "$slots" then Found(slots)
    else if state.Some? && HasKey(state.value, key) then Found(Get(state.value, key))
    else if HasKey(props, key) then Found(Get(props, key))
    else Missing
  }

  /** The proxy's `set`: whether it reports success, and the data and setup states afterwards. */
  datatype WriteResult = WriteResult(ok: bool, state: Option<Record>, setupState: Option<Record>)

  /** A key of the data state is written there; a key only in the props is refused (props are
      read-only); a key of the setup state is written there; any other key is refused. */
  function ContextSet(state: Option<Record>, props: Record, setupState: Option<Record>,
                      key: string, value: JsValue): (r: WriteResult)
    ensures !r.ok ==> r.state == state && r.setupState == setupState
    ensures r.state != state ==> r.setupState == setupState
    ensures r.ok <==> (state.Some? && HasKey(state.value, key))
                      || (!HasKey(props, key) && setupState.Some? && HasKey(setupState.value, key))
  {
    if state.Some? && HasKey(state.value, key) then
      WriteResult(true, Some(Set(state.value, key, value)), setupState)
    else if HasKey(props, key) then WriteResult(false, state, setupState)
    else if setupState.Some? && HasKey(setupState.value, key) then
      WriteResult(true, state, Some(Set(setupState.value, key, value)))
    else WriteResult(false, state, setupState)
  }

  /** Writing a key of the data state and reading it back yields the written value, and every
      other read is unaffected. */
  lemma ContextSetThenGet(state: Option<Record>, props: Record, setupState: Option<Record>,
                          slots: JsValue, key: string, value: JsValue, other: string)
    requires state.Some? && WellFormed(state.value) && HasKey(state.value, key)
    ensures var w := ContextSet(state, props, setupState, key, value);
            && w.ok
            && (key != "$slots" ==> ContextGet(w.state, props, slots, key) == Found(value))
            && (other != key ==> ContextGet(w.state, props, slots, other) == ContextGet(state, props, slots, other))
  {
    SetFacts(state.value, key, value);
  }

  /** Props are read-only through the context: writing a key that only the props hold is
      refused, changes nothing, and the key still reads the prop's value. */
  lemma ContextPropsReadOnly(state: Option<Record>, props: Record, setupState: Option<Record>,
                             slots: JsValue, key: string, value: JsValue)
    requires !(state.Some? && HasKey(state.value, key)) && HasKey(props, key) && key != "$slots"
    ensures var w := ContextSet(state, props, setupState, key, value);
            && !w.ok && w.state == state && w.setupState == setupState
            && ContextGet(w.state, props, slots, key) == Found(Get(props, key))
  {
  }

  /** The data state shadows the props for both reads and writes. */
  lemma ContextStateShadowsProps(state: Option<Record>, props: Record, setupState: Option<Record>,
                                 slots: JsValue, key: string, value: JsValue)
    requires state.Some? && HasKey(state.value, key) && HasKey(props, key) && key != "$slots"
    ensures ContextGet(state, props, slots, key) == Found(Get(state.value, key))
    ensures ContextSet(state, props, setupState, key, value).ok
    ensures ContextSet(state, props, setupState, key, value).setupState == setupState
  {
  }

  /** A write that lands in the setup state reports success, yet the same key cannot be read
      back through the context, because reads never consult the setup state. */
  lemma ContextSetupStateWriteOnly(state: Option<Record>, props: Record, setupState: Option<Record>,
                                   slots: JsValue, key: string, value: JsValue)
    requires !(state.Some? && HasKey(state.value, key)) && !HasKey(props, key)
    requires setupState.Some? && HasKey(setupState.value, key) && key != "$slots"
    ensures ContextSet(state, props, setupState, key, value).ok
    ensures ContextGet(ContextSet(state, props, setupState, key, value).state, props, slots, key) == Missing
  {
  }

  // ---------------------------------------------------------------------------------------
  // emit

  /** `toUpperCase` on one character (ASCII letters only). */
  function Capitalise(c: char): (u: char)
    ensures 'a' <= c <= 'z' ==> u as int == c as int - 32
    ensures !('a' <= c <= 'z') ==> u == c
  {
    if 'a' <= c <= 'z' then (c as int - 32) as char else c
  }

  /** The handler name `emit(event)` looks up: "on", the first character capitalised, the rest
      as it is. An empty event name reads `event[0]` as undefined and throws (`None`). */
  function HandlerName(event: string): (name: Option<string>)
    ensures name.None? <==> event == ""
    ensures name.Some? ==> |name.value| == |event| + 2 && StartsWith(name.value, "on")
                           && name.value[2] == Capitalise(event[0]) && name.value[3..] == event[1..]
  {
    if event == "" then None else Some("on" + [Capitalise(event[0])] + event[1..])
  }

  /** Two events reach the same handler exactly when they differ at most in the case of their
      first letter. */
  lemma HandlerNameSame(a: string, b: string)
    requires a != "" && b != ""
    ensures HandlerName(a) == HandlerName(b) <==> Capitalise(a[0]) == Capitalise(b[0]) && a[1..] == b[1..]
  {
    var na, nb := HandlerName(a).value, HandlerName(b).value;
    if na == nb {
      assert na[2] == nb[2] && na[3..] == nb[3..];
    }
  }

  /** What `emit` does: call the handler found under the name, report its absence, or throw. */
  datatype EmitOutcome = Handled(handler: JsValue) | NoHandler(name: string) | EmitTypeError

  function Emit(props: Record, event: string): (r: EmitOutcome)
    ensures r.EmitTypeError? <==> event == ""
    ensures r.Handled? ==> Truthy(r.handler) && r.handler == Get(props, HandlerName(event).value)
    ensures r.NoHandler? ==> r.name == HandlerName(event).value && !Truthy(Get(props, r.name))
  {
    match HandlerName(event)
    case None => EmitTypeError
    case Some(name) =>
      if Truthy(Get(props, name)) then Handled(Get(props, name)) else NoHandler(name)
  }

  /** A handler passed as `onFoo` is reached by `emit("foo")`. */
  lemma EmitReachesHandler(props: Record, event: string, handler: JsValue)
    requires WellFormed(props) && event != "" && Truthy(handler)
    requires ("on" + [Capitalise(event[0])] + event[1..], handler) in props
    ensures Emit(props, event) == Handled(handler)
  {
    GetMember(props, ("on" + [Capitalise(event[0])] + event[1..], handler));
  }
}
