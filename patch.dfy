/**
 * The decisions `patch`, `patchElement` and `patchChild` take before handing work to the DOM:
 * whether an old node is replaced, which branch a node type takes, which props are updated,
 * and what happens to the old children.
 */
module Patch {
  import opened Js
  import opened Diff

  // ---------------------------------------------------------------------------------------
  // patch

  /** A vnode `type`: a tag-name string, a component (an object or a function), the `Text` and
      `Comment` symbols, or some other symbol. Types are compared with `!==`: strings by
      content, the others by identity. */
  datatype NodeType =
    | Tag(name: string)
    | ComponentObject(oid: nat)
    | ComponentFunction(fid: nat)
    | TextNode
    | CommentNode
    | OtherSymbol(sid: nat)

  /** What `patch` does with the new node. */
  datatype Step =
    | MountElement
    | PatchElement
    | MountComponent
    | ActivateKeptAlive
    | PatchComponent
    | CreateText
    | CreateComment
    | ChildrenNotString
    | Nothing

  /** `unmountOld`: the old node is unmounted first. */
  datatype PatchPlan = PatchPlan(unmountOld: bool, step: Step)

  /** Does the step create DOM for the new node from scratch? */
  predicate Creates(s: Step)
  {
    s.MountElement? || s.MountComponent? || s.ActivateKeptAlive? || s.CreateText? || s.CreateComment?
  }

  /** `patch(oldNode, newNode)`. An old node of another type is unmounted and forgotten, so the
      new node is then handled as a fresh mount; a string type is an element, even the string
      "Fragment", whose own branch comes after the string test and is never reached. Text and
      comment nodes are created only when there is no old node, and only from string
      children. */
  function PlanPatch(oldType: Option<NodeType>, newType: NodeType, keptAlive: bool, stringChildren: bool): (p: PatchPlan)
    ensures p.unmountOld <==> oldType.Some? && oldType.value != newType
    ensures Creates(p.step) ==> oldType.None? || p.unmountOld
    ensures oldType == Some(newType) ==> !Creates(p.step)
  {
    var unmountOld := oldType.Some? && oldType.value != newType;
    var mountNew := oldType.None? || unmountOld;
    var step :=
      match newType
      case Tag(_) => if mountNew then MountElement else PatchElement
      case ComponentObject(_) =>
        if !mountNew then PatchComponent else if keptAlive then ActivateKeptAlive else MountComponent
      case ComponentFunction(_) =>
        if !mountNew then PatchComponent else if keptAlive then ActivateKeptAlive else MountComponent
      case TextNode => if !mountNew then Nothing else if stringChildren then CreateText else ChildrenNotString
      case CommentNode => if !mountNew then Nothing else if stringChildren then CreateComment else ChildrenNotString
      case OtherSymbol(_) => Nothing;
    PatchPlan(unmountOld, step)
  }

  /** An old node of another type is replaced: after unmounting it, the new node takes
      exactly the path it takes with no old node. */
  lemma TypeMismatchMountsFresh(oldType: NodeType, newType: NodeType, keptAlive: bool, stringChildren: bool)
    requires oldType != newType
    ensures PlanPatch(Some(oldType), newType, keptAlive, stringChildren).unmountOld
    ensures PlanPatch(Some(oldType), newType, keptAlive, stringChildren).step
            == PlanPatch(None, newType, keptAlive, stringChildren).step
  {
  }

  /** An old node of the same type is patched in place: an element by `patchElement`, a
      component by `patchComponent`. */
  lemma SameTypePatches(t: NodeType, keptAlive: bool, stringChildren: bool)
    ensures !PlanPatch(Some(t), t, keptAlive, stringChildren).unmountOld
    ensures t.Tag? ==> PlanPatch(Some(t), t, keptAlive, stringChildren).step == PatchElement
    ensures (t.ComponentObject? || t.ComponentFunction?) ==>
              PlanPatch(Some(t), t, keptAlive, stringChildren).step == PatchComponent
  {
  }

  /** A node typed "Fragment" is mounted as a `<Fragment>` element, and patched as one. */
  lemma FragmentTakenAsElement(oldType: Option<NodeType>, keptAlive: bool, stringChildren: bool)
    ensures PlanPatch(oldType, Tag("Fragment"), keptAlive, stringChildren).step in {MountElement, PatchElement}
  {
  }

  // ---------------------------------------------------------------------------------------
  // patchElement: which props reach patchProps

  /** `patchProps(el, key, prevValue, nextValue)`. */
  datatype PropCall = PropCall(key: string, prevValue: JsValue, nextValue: JsValue)

  /** What patchElement asks patchProps to do with key k: set a changed or added value, or
      clear (with null) a key the new props lack. */
  predicate PropUpdated(oldProps: Record, newProps: Record, k: string)
  {
    (HasKey(newProps, k) && Get(newProps, k) != Get(oldProps, k)) || (HasKey(oldProps, k) && !HasKey(newProps, k))
  }

  /** The two loops of `patchElement` over the props: every new key whose value is not `===`
      the old one's is patched with both values, then every old key missing from the new
      props is patched to null. `None` stands for null props, on which the first property
      read or `in` test throws. */
  method PatchElementProps(oldProps: Option<Record>, newProps: Option<Record>) returns (calls: seq<PropCall>, threw: bool)
    requires oldProps.Some? ==> WellFormed(oldProps.value)
    requires newProps.Some? ==> WellFormed(newProps.value)
    ensures threw <==> (oldProps.None? && newProps.Some? && newProps.value != [])
                       || (newProps.None? && oldProps.Some? && oldProps.value != [])
    ensures oldProps.None? || newProps.None? ==> calls == []
    ensures oldProps.Some? && newProps.Some? ==>
              forall k :: k in KeysOfCalls(calls) <==> PropUpdated(oldProps.value, newProps.value, k)
    ensures oldProps.Some? && newProps.Some? ==>
              forall t :: 0 <= t < |calls| ==>
                calls[t].prevValue == Get(oldProps.value, calls[t].key)
                && calls[t].nextValue == (if HasKey(newProps.value, calls[t].key) then Get(newProps.value, calls[t].key) else Null)
    ensures NoDup(KeysOfCalls(calls))
  {
    calls, threw := [], false;
    if oldProps.None? || newProps.None? {
      threw := (oldProps.None? && newProps.Some? && newProps.value != [])
               || (newProps.None? && oldProps.Some? && oldProps.value != []);
      return;
    }
    var prev, next := oldProps.value, newProps.value;
    calls := ChangedProps(prev, next);
    var removed := RemovedProps(prev, next);
    KeysOfCallsAppend(calls, removed);
    NoDupAppend(KeysOfCalls(calls), KeysOfCalls(removed));
    calls := calls + removed;
  }

  /** The keys of the calls, in order. */
  function KeysOfCalls(calls: seq<PropCall>): (ks: seq<string>)
    ensures |ks| == |calls| && forall t :: 0 <= t < |calls| ==> ks[t] == calls[t].key
  {
    if calls == [] then [] else KeysOfCalls(calls[..|calls| - 1]) + [calls[|calls| - 1].key]
  }

  lemma KeysOfCallsAppend(a: seq<PropCall>, b: seq<PropCall>)
    ensures KeysOfCalls(a + b) == KeysOfCalls(a) + KeysOfCalls(b)
  {
    assert forall t :: 0 <= t < |a + b| ==> KeysOfCalls(a + b)[t] == (KeysOfCalls(a) + KeysOfCalls(b))[t];
  }

  /** The call the first loop makes for key k. */
  function ChangeCall(prev: Record, next: Record, k: string): PropCall
  {
    PropCall(k, Get(prev, k), Get(next, k))
  }

  /** The call the second loop makes for key k. */
  function RemoveCall(prev: Record, k: string): PropCall
  {
    PropCall(k, Get(prev, k), Null)
  }

  /** The first loop: the new keys whose value changed, in the new props' order. */
  method ChangedProps(prev: Record, next: Record) returns (calls: seq<PropCall>)
    requires WellFormed(next)
    ensures forall k :: k in KeysOfCalls(calls) <==> HasKey(next, k) && Get(next, k) != Get(prev, k)
    ensures forall t :: 0 <= t < |calls| ==> calls[t] == ChangeCall(prev, next, calls[t].key)
    ensures NoDup(KeysOfCalls(calls))
  {
    calls := [];
    var i := 0;
    while i < |next|
      invariant 0 <= i <= |next|
      invariant ChangedSoFar(prev, next, i, calls)
    {
      var (k, v) := next[i];
      ChangedStep(prev, next, i, calls);
      if v != Get(prev, k) {
        calls := calls + [ChangeCall(prev, next, k)];
      }
      i := i + 1;
    }
    assert next[..i] == next;
  }

  /** What the first loop has produced after the first i new entries. */
  ghost predicate ChangedSoFar(prev: Record, next: Record, i: nat, calls: seq<PropCall>)
    requires i <= |next|
  {
    && (forall k :: k in KeysOfCalls(calls) <==> HasKey(next[..i], k) && Get(next, k) != Get(prev, k))
    && (forall t :: 0 <= t < |calls| ==> calls[t] == ChangeCall(prev, next, calls[t].key))
    && NoDup(KeysOfCalls(calls))
  }

  lemma ChangedStep(prev: Record, next: Record, i: nat, calls: seq<PropCall>)
    requires WellFormed(next) && i < |next| && ChangedSoFar(prev, next, i, calls)
    ensures next[i].1 != Get(prev, next[i].0) ==> ChangedSoFar(prev, next, i + 1, calls + [ChangeCall(prev, next, next[i].0)])
    ensures next[i].1 == Get(prev, next[i].0) ==> ChangedSoFar(prev, next, i + 1, calls)
  {
    ChangedKeys(prev, next, i, calls);
    if next[i].1 != Get(prev, next[i].0) {
      ChangedNoDup(prev, next, i, calls);
      ChangedCalls(prev, next, calls, next[i].0);
    }
  }

  /** Every call the first loop makes carries the old and the new value of its key. */
  lemma ChangedCalls(prev: Record, next: Record, calls: seq<PropCall>, k: string)
    requires forall t :: 0 <= t < |calls| ==> calls[t] == ChangeCall(prev, next, calls[t].key)
    ensures var calls' := calls + [ChangeCall(prev, next, k)];
            forall t :: 0 <= t < |calls'| ==> calls'[t] == ChangeCall(prev, next, calls'[t].key)
  {
    var calls' := calls + [ChangeCall(prev, next, k)];
    assert calls'[|calls|] == ChangeCall(prev, next, k);
    assert forall t :: 0 <= t < |calls| ==> calls'[t] == calls[t];
  }

  /** The keys of the calls after one more entry. */
  lemma ChangedKeys(prev: Record, next: Record, i: nat, calls: seq<PropCall>)
    requires WellFormed(next) && i < |next|
    requires forall k :: k in KeysOfCalls(calls) <==> HasKey(next[..i], k) && Get(next, k) != Get(prev, k)
    ensures next[i].1 != Get(prev, next[i].0) ==> forall k :: k in KeysOfCalls(calls + [ChangeCall(prev, next, next[i].0)]) <==> HasKey(next[..i + 1], k) && Get(next, k) != Get(prev, k)
    ensures next[i].1 == Get(prev, next[i].0) ==> forall k :: k in KeysOfCalls(calls) <==> HasKey(next[..i + 1], k) && Get(next, k) != Get(prev, k)
  {
    var k := next[i].0;
    GetFound(next, k, i);
    HasKeyPrefix(next, i);
    if next[i].1 != Get(prev, k) {
      KeysOfCallsAppend(calls, [ChangeCall(prev, next, k)]);
    }
  }

  /** The key of a new call is not among the earlier ones. */
  lemma ChangedNoDup(prev: Record, next: Record, i: nat, calls: seq<PropCall>)
    requires WellFormed(next) && i < |next| && NoDup(KeysOfCalls(calls))
    requires forall k :: k in KeysOfCalls(calls) ==> HasKey(next[..i], k)
    ensures NoDup(KeysOfCalls(calls + [ChangeCall(prev, next, next[i].0)]))
  {
    var k := next[i].0;
    HasKeyPrefix(next, i);
    KeysOfCallsAppend(calls, [ChangeCall(prev, next, k)]);
    NoDupAppend(KeysOfCalls(calls), [k]);
  }

  /** The second loop: the old keys the new props lack, in the old props' order, cleared. */
  method RemovedProps(prev: Record, next: Record) returns (calls: seq<PropCall>)
    requires WellFormed(prev)
    ensures forall k :: k in KeysOfCalls(calls) <==> HasKey(prev, k) && !HasKey(next, k)
    ensures forall t :: 0 <= t < |calls| ==> calls[t] == RemoveCall(prev, calls[t].key)
    ensures NoDup(KeysOfCalls(calls))
  {
    calls := [];
    var i := 0;
    while i < |prev|
      invariant 0 <= i <= |prev|
      invariant RemovedSoFar(prev, next, i, calls)
    {
      var (k, v) := prev[i];
      RemovedStep(prev, next, i, calls);
      if !HasKey(next, k) {
        calls := calls + [RemoveCall(prev, k)];
      }
      i := i + 1;
    }
    assert prev[..i] == prev;
  }

  /** What the second loop has produced after the first i old entries. */
  ghost predicate RemovedSoFar(prev: Record, next: Record, i: nat, calls: seq<PropCall>)
    requires i <= |prev|
  {
    && (forall k :: k in KeysOfCalls(calls) <==> HasKey(prev[..i], k) && !HasKey(next, k))
    && (forall t :: 0 <= t < |calls| ==> calls[t] == RemoveCall(prev, calls[t].key))
    && NoDup(KeysOfCalls(calls))
  }

  lemma RemovedStep(prev: Record, next: Record, i: nat, calls: seq<PropCall>)
    requires WellFormed(prev) && i < |prev| && RemovedSoFar(prev, next, i, calls)
    ensures !HasKey(next, prev[i].0) ==> RemovedSoFar(prev, next, i + 1, calls + [RemoveCall(prev, prev[i].0)])
    ensures HasKey(next, prev[i].0) ==> RemovedSoFar(prev, next, i + 1, calls)
  {
    var k := prev[i].0;
    var calls' := if !HasKey(next, k) then calls + [RemoveCall(prev, k)] else calls;
    RemovedKeys(prev, next, i, calls);
    if !HasKey(next, k) {
      RemovedNoDup(prev, next, i, calls);
      assert calls'[|calls|] == RemoveCall(prev, k);
    }
  }

  /** The keys of the calls after one more entry. */
  lemma RemovedKeys(prev: Record, next: Record, i: nat, calls: seq<PropCall>)
    requires i < |prev|
    requires forall k :: k in KeysOfCalls(calls) <==> HasKey(prev[..i], k) && !HasKey(next, k)
    ensures !HasKey(next, prev[i].0) ==> forall k :: k in KeysOfCalls(calls + [RemoveCall(prev, prev[i].0)]) <==> HasKey(prev[..i + 1], k) && !HasKey(next, k)
    ensures HasKey(next, prev[i].0) ==> forall k :: k in KeysOfCalls(calls) <==> HasKey(prev[..i + 1], k) && !HasKey(next, k)
  {
    HasKeyPrefix(prev, i);
    if !HasKey(next, prev[i].0) {
      KeysOfCallsAppend(calls, [RemoveCall(prev, prev[i].0)]);
    }
  }

  /** The key of a new call is not among the earlier ones. */
  lemma RemovedNoDup(prev: Record, next: Record, i: nat, calls: seq<PropCall>)
    requires WellFormed(prev) && i < |prev| && NoDup(KeysOfCalls(calls))
    requires forall k :: k in KeysOfCalls(calls) ==> HasKey(prev[..i], k)
    ensures NoDup(KeysOfCalls(calls + [RemoveCall(prev, prev[i].0)]))
  {
    var k := prev[i].0;
    HasKeyPrefix(prev, i);
    KeysOfCallsAppend(calls, [RemoveCall(prev, k)]);
    NoDupAppend(KeysOfCalls(calls), [k]);
  }

  // ---------------------------------------------------------------------------------------
  // patchChild

  /** A vnode's `children`: a string, an array of child vnodes (seen through their keys), or
      neither. */
  datatype Children = TextChildren(text: string) | ArrayChildren(keys: seq<JsValue>) | NoChildren

  /** A step of `patchChild`: unmount old child i, set the container's text, or run the keyed
      diff. */
  datatype ChildOp = UnmountChild(i: nat) | SetText(text: string) | Diffed(out: Outcome)

  /** The keys `diff` reads off old children: a string's characters have no `key`. `None`
      when there are no children, whose first read throws. */
  function OldKeys(c: Children): (keys: Option<seq<JsValue>>)
    ensures c.NoChildren? <==> keys.None?
    ensures c.TextChildren? ==> keys == Some(seq(|c.text|, _ => Undefined))
  {
    match c
    case TextChildren(s) => Some(seq(|s|, _ => Undefined))
    case ArrayChildren(keys) => Some(keys)
    case NoChildren => None
  }

  /** Old child i was unmounted. */
  predicate UnmountsChild(ops: seq<ChildOp>, i: nat)
  {
    exists t :: 0 <= t < |ops| && ops[t] == UnmountChild(i)
  }

  /** `patchChild(oldNode, newNode, el)`. New text children: the old array children are all
      unmounted and the text is set. New array children: the keyed diff runs. No new
      children: the old array children are all unmounted, or old text is cleared. */
  method PatchChild(prev: Children, next: Children) returns (ops: seq<ChildOp>)
    requires prev.ArrayChildren? ==> PrimitiveKeys(prev.keys)
    requires next.ArrayChildren? ==> PrimitiveKeys(next.keys)
    ensures !next.ArrayChildren? && prev.ArrayChildren? ==> forall i :: 0 <= i < |prev.keys| ==> UnmountsChild(ops, i)
    ensures forall t :: 0 <= t < |ops| && ops[t].UnmountChild? ==> prev.ArrayChildren? && ops[t].i < |prev.keys|
    ensures next.TextChildren? ==> |ops| > 0 && ops[|ops| - 1] == SetText(next.text)
    ensures next.NoChildren? ==> (SetText("") in ops <==> prev.TextChildren?)
    ensures next.NoChildren? ==> forall t :: 0 <= t < |ops| ==> !ops[t].Diffed?
    ensures next.ArrayChildren? ==> |ops| == 1 && ops[0].Diffed?
    ensures next.ArrayChildren? && prev.NoChildren? ==> ops == [Diffed(Thrown([]))]
  {
    if next.TextChildren? {
      ops := [];
      if prev.ArrayChildren? {
        ops := UnmountAll(|prev.keys|);
      }
      ops := ops + [SetText(next.text)];
      assert forall i :: UnmountsChild(ops[..|ops| - 1], i) ==> UnmountsChild(ops, i);
    } else if next.ArrayChildren? {
      var prevKeys := OldKeys(prev);
      if prevKeys.None? {
        ops := [Diffed(Thrown([]))];
      } else {
        var out := DiffAsWritten(prevKeys.value, next.keys);
        ops := [Diffed(out)];
      }
    } else if prev.ArrayChildren? {
      ops := UnmountAll(|prev.keys|);
    } else if prev.TextChildren? {
      ops := [SetText("")];
    } else {
      ops := [];
    }
  }

  /** `children.forEach(child => unmount(child))`. */
  method UnmountAll(n: nat) returns (ops: seq<ChildOp>)
    ensures |ops| == n && forall t :: 0 <= t < n ==> ops[t] == UnmountChild(t)
    ensures forall i :: 0 <= i < n ==> UnmountsChild(ops, i)
  {
    ops := [];
    var i := 0;
    while i < n
      invariant 0 <= i <= n && |ops| == i && forall t :: 0 <= t < i ==> ops[t] == UnmountChild(t)
    {
      ops := ops + [UnmountChild(i)];
      i := i + 1;
    }
    forall j | 0 <= j < n ensures UnmountsChild(ops, j) {
      assert ops[j] == UnmountChild(j);
    }
  }
}
