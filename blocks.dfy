/**
 * Block tracking for compiled templates: `openBlock` / `closeBlock` keep a stack of arrays
 * collecting the dynamic vnodes of each open block, and `createVNode` / `createBlock` build
 * vnodes, taking the key out of the props object and pushing flagged vnodes into the current
 * collection. The arrays are shared by reference between the stack, `currentDynamicChildren`
 * and the blocks, so they are objects here.
 */
module Blocks {
  import opened Js

  /** `PatchFlags`. */
  datatype PatchFlag = TEXT | CLASS | STYLE

  function FlagValue(f: PatchFlag): (n: int)
    ensures 1 <= n <= 3
  {
    match f
    case TEXT => 1
    case CLASS => 2
    case STYLE => 3
  }

  /** The three flags are told apart by their values. */
  lemma FlagValuesDistinct(f: PatchFlag, g: PatchFlag)
    ensures FlagValue(f) == FlagValue(g) <==> f == g
  {
  }

  /** A props object, mutated in place by `createVNode`. */
  class PropsObject {
    var entries: Record

    constructor (entries: Record)
      ensures this.entries == entries
    {
      this.entries := entries;
    }
  }

  /** An array of dynamic vnodes. */
  class Collection {
    var items: seq<VNode>

    constructor ()
      ensures items == []
    {
      items := [];
    }
  }

  /** A vnode (a `Block` when `dynamicChildren` is set). */
  class VNode {
    const tag: string
    const props: PropsObject?
    const children: seq<JsValue>
    const key: JsValue
    const patchFlag: Option<int>
    var dynamicChildren: Collection?

    constructor (tag: string, props: PropsObject?, children: seq<JsValue>, key: JsValue, patchFlag: Option<int>)
      ensures this.tag == tag && this.props == props && this.children == children
      ensures this.key == key && this.patchFlag == patchFlag && dynamicChildren == null
    {
      this.tag, this.props, this.children := tag, props, children;
      this.key, this.patchFlag := key, patchFlag;
      dynamicChildren := null;
    }
  }

  /** `dynamicChildrenStack` and `currentDynamicChildren`. */
  class BlockTracker {
    var stack: seq<Collection>
    var current: Collection?

    /** The current collection is the innermost open block's, as the stack discipline
        intends. */
    ghost predicate Tracks()
      reads this
    {
      current == if stack == [] then null else stack[|stack| - 1]
    }

    constructor ()
      ensures stack == [] && current == null && Tracks()
    {
      stack, current := [], null;
    }

    /** `openBlock()`: a fresh empty array becomes current and is pushed. */
    method OpenBlock()
      modifies this
      ensures current != null && fresh(current) && current.items == []
      ensures stack == old(stack) + [current]
      ensures Tracks()
    {
      var c := new Collection();
      current := c;
      stack := stack + [c];
    }

    /** `closeBlock()` as written: the popped array becomes current, so the block just closed
        stays current instead of its parent; popping an empty stack leaves undefined. */
    method CloseBlock()
      modifies this
      ensures old(stack) == [] ==> stack == [] && current == null
      ensures old(stack) != [] ==> stack == old(stack)[..|old(stack)| - 1] && current == old(stack)[|old(stack)| - 1]
    {
      if stack == [] {
        current := null;
      } else {
        current := stack[|stack| - 1];
        stack := stack[..|stack| - 1];
      }
    }

    /** `closeBlock()` as the stack discipline intends: pop, and make the parent's array
        current again. */
    method CloseBlockToParent()
      modifies this
      ensures stack == if old(stack) == [] then [] else old(stack)[..|old(stack)| - 1]
      ensures Tracks()
    {
      if stack != [] {
        stack := stack[..|stack| - 1];
      }
      current := if stack == [] then null else stack[|stack| - 1];
    }

    /** `createVNode(tag, props, children, patchFlag)`: the key is read from the props (null
        props are themselves the key) and deleted from them in place; the vnode keeps the props
        object itself; it is pushed into the current array exactly when it has a patch flag and
        an array is current. */
    method CreateVNode(tag: string, props: PropsObject?, children: seq<JsValue>, patchFlag: Option<int>) returns (v: VNode)
      modifies if props == null then {} else {props}
      modifies if current == null then {} else {current}
      ensures fresh(v) && v.tag == tag && v.props == props && v.children == children
      ensures v.patchFlag == patchFlag && v.dynamicChildren == null
      ensures v.key == if props == null then Null else Get(old(props.entries), "key")
      ensures props != null ==> props.entries == Delete(old(props.entries), "key")
      ensures stack == old(stack) && current == old(current)
      ensures current != null ==>
                current.items == if patchFlag.Some? then old(current.items) + [v] else old(current.items)
    {
      var key := Null;
      if props != null {
        key := Get(props.entries, "key");
        props.entries := Delete(props.entries, "key");
      }
      v := new VNode(tag, props, children, key, patchFlag);
      if patchFlag.Some? && current != null {
        current.items := current.items + [v];
      }
    }

    /** `createBlock(tag, props, children)`: a vnode without a patch flag (so never collected
        itself) whose dynamic children are the array current before the block is closed. */
    method CreateBlock(tag: string, props: PropsObject?, children: seq<JsValue>) returns (b: VNode)
      modifies this
      modifies if props == null then {} else {props}
      modifies if current == null then {} else {current}
      ensures fresh(b) && b.tag == tag && b.props == props && b.children == children && b.patchFlag.None?
      ensures b.dynamicChildren == old(current)
      ensures b.key == if props == null then Null else Get(old(props.entries), "key")
      ensures props != null ==> props.entries == Delete(old(props.entries), "key")
      ensures old(current) != null ==> old(current).items == old(current.items)
      ensures old(stack) == [] ==> stack == [] && current == null
      ensures old(stack) != [] ==> stack == old(stack)[..|old(stack)| - 1] && current == old(stack)[|old(stack)| - 1]
    {
      b := CreateVNode(tag, props, children, None);
      b.dynamicChildren := current;
      CloseBlock();
    }
  }

  /** Opening a block inside another, closing the inner one, then creating a flagged vnode:
      as written the vnode lands in the inner block's array, which is already closed, and the
      outer block never sees it. */
  method ClosedBlockCollects() returns (outer: Collection, inner: Collection, v: VNode)
    ensures v in inner.items && v !in outer.items
  {
    var t := new BlockTracker();
    t.OpenBlock();
    outer := t.current;
    t.OpenBlock();
    inner := t.current;
    t.CloseBlock();
    v := t.CreateVNode("span", null, [], Some(FlagValue(TEXT)));
  }

  /** With the parent restored on close, the vnode lands in the outer block's array. */
  method ParentBlockCollects() returns (outer: Collection, inner: Collection, v: VNode)
    ensures v in outer.items && v !in inner.items
  {
    var t := new BlockTracker();
    t.OpenBlock();
    outer := t.current;
    t.OpenBlock();
    inner := t.current;
    t.CloseBlockToParent();
    v := t.CreateVNode("span", null, [], Some(FlagValue(TEXT)));
  }
}
