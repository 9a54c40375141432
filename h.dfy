/**
 * `h(type, propsOrChildren, children)`: the hyperscript helper that sorts its arguments into
 * the props and children of a `createVNode` call. Its argument-count test is an assignment
 * (`arguments.length = 2`), which is always truthy, so the two-argument branch is taken on
 * every call and the third argument is never read. `H` models that; `HIntended` models the
 * comparison the helper evidently means.
 */
module Hyperscript {
  import opened Js

  /** The props passed on to `createVNode`: a fresh empty array, or an argument as given. */
  datatype PropsArg = EmptyProps | GivenProps(v: JsValue)

  /** The children passed on to `createVNode`: a fresh empty array, a one-element array around
      a vnode, or an argument as given. */
  datatype ChildrenArg = NoChildren | OneVNode(v: JsValue) | GivenChildren(v: JsValue)

  /** The `createVNode` call `h` returns the result of. */
  datatype CreateCall = CreateCall(tag: JsValue, props: PropsArg, children: ChildrenArg)

  /** Objects by identity: the keys each one holds. */
  type Heap = map<nat, Record>

  /** `isVNode(value)`: a non-null object holding `type`, `props`, `children` and `el`. */
  predicate IsVNode(heap: Heap, value: JsValue)
  {
    && value.Object? && value.oid in heap
    && HasKey(heap[value.oid], "type") && HasKey(heap[value.oid], "props")
    && HasKey(heap[value.oid], "children") && HasKey(heap[value.oid], "el")
  }

  /** Only an object can be a vnode, and only one holding all four keys: primitives, null and
      arrays never are, and an object lacking any of the keys is not. */
  lemma IsVNodeCases(heap: Heap, value: JsValue)
    ensures IsVNode(heap, value) ==> value.Object? && value.oid in heap
    ensures !value.Object? ==> !IsVNode(heap, value)
    ensures value.Object? && value.oid in heap ==>
      (IsVNode(heap, value) <==> forall k :: k in ["type", "props", "children", "el"] ==> HasKey(heap[value.oid], k))
  {
  }

  /** `typeof value === 'object' && !Array.isArray(value)`: a plain object or null. */
  predicate PlainObjectOrNull(value: JsValue)
  {
    value.Object? || value.Null?
  }

  /** `h` as written. `argc` is `arguments.length`; absent arguments are undefined. */
  function H(heap: Heap, argc: nat, typ: JsValue, propsOrChildren: JsValue, children: JsValue): (c: CreateCall)
    ensures c.tag == typ
    ensures c.children == OneVNode(propsOrChildren) <==> IsVNode(heap, propsOrChildren)
    ensures c.props.GivenProps? <==> PlainObjectOrNull(propsOrChildren) && !IsVNode(heap, propsOrChildren)
    ensures c.props.GivenProps? ==> c.props.v == propsOrChildren && c.children == NoChildren
    ensures c.children.GivenChildren? <==> !PlainObjectOrNull(propsOrChildren)
    ensures c.children.GivenChildren? ==> c.children.v == propsOrChildren && c.props == EmptyProps
  {
    if PlainObjectOrNull(propsOrChildren) then
      if IsVNode(heap, propsOrChildren) then CreateCall(typ, EmptyProps, OneVNode(propsOrChildren))
      else CreateCall(typ, GivenProps(propsOrChildren), NoChildren)
    else
      CreateCall(typ, EmptyProps, GivenChildren(propsOrChildren))
  }

  /** As written, neither the argument count nor the third argument changes the result. */
  lemma ThirdArgumentIgnored(heap: Heap, argc1: nat, argc2: nat, typ: JsValue, propsOrChildren: JsValue, children1: JsValue, children2: JsValue)
    ensures H(heap, argc1, typ, propsOrChildren, children1) == H(heap, argc2, typ, propsOrChildren, children2)
  {
  }

  /** `h` with the count compared (`arguments.length === 2`): with any other count the second
      argument is the props and the third the children, wrapped when it is a single vnode. */
  function HIntended(heap: Heap, argc: nat, typ: JsValue, propsOrChildren: JsValue, children: JsValue): (c: CreateCall)
    ensures argc == 2 ==> c == H(heap, argc, typ, propsOrChildren, children)
    ensures argc != 2 ==> c.tag == typ && c.props == GivenProps(propsOrChildren)
    ensures argc != 2 ==> (c.children == OneVNode(children) <==> IsVNode(heap, children))
    ensures argc != 2 && !IsVNode(heap, children) ==> c.children == GivenChildren(children)
  {
    if argc == 2 then H(heap, argc, typ, propsOrChildren, children)
    else if IsVNode(heap, children) then CreateCall(typ, GivenProps(propsOrChildren), OneVNode(children))
    else CreateCall(typ, GivenProps(propsOrChildren), GivenChildren(children))
  }

  /** `h('div', { id: 'app' }, 'hello')`: as written the text is dropped and the vnode gets no
      children; as intended the text becomes its children. */
  lemma TextChildDropped(heap: Heap, props: nat)
    requires props in heap && !HasKey(heap[props], "type")
    ensures H(heap, 3, Str("div"), Object(props), Str("hello")).children == NoChildren
    ensures HIntended(heap, 3, Str("div"), Object(props), Str("hello")).children == GivenChildren(Str("hello"))
  {
  }
}
