/**
 * The transform stage: a depth-first traversal of the template AST that runs the node
 * transforms on the way down, visits the children, and then runs the exit callbacks the
 * transforms registered, last registered first. The three transforms give Text nodes a string
 * literal, Elements an `h(...)` call and the Root a `render` function declaration.
 *
 * Nodes are values here: a traversal returns the node with its `jsNode` set and its children
 * replaced by their own transformed values, which is what the in-place updates of the shared
 * node objects amount to.
 */
module Transform {
  import opened Ast

  // ---------------------------------------------------------------------------------------
  // The three transforms and their exit callbacks

  /** The entries of `nodeTransforms`. */
  datatype NodeTransform = TransformRoot | TransformElement | TransformText

  /** The exit callbacks: `transformRoot` and `transformElement` return one for every node;
      the callback itself checks the node's type. */
  datatype ExitFn = RootExit | ElementExit

  /** The list `transform` installs, in its order. */
  const StandardTransforms: seq<NodeTransform> := [TransformRoot, TransformElement, TransformText]

  /** `transformText(node)`: a Text node gets a string literal of its content; any other node is
      left as it is. */
  function TransformTextNode(node: AstNode): (n: AstNode)
    ensures node.Text? ==> n == Text(node.content, CreateStringLiteral(node.content))
    ensures !node.Text? ==> n == node
  {
    if node.Text? then Text(node.content, CreateStringLiteral(node.content)) else node
  }

  /** Running `transformText` again changes nothing, so the second call per node is harmless. */
  lemma TransformTextIdempotent(node: AstNode)
    ensures TransformTextNode(TransformTextNode(node)) == TransformTextNode(node)
  {
  }

  /** One call of a transform on a node: the node afterwards and the exit callback returned. */
  function CallTransform(t: NodeTransform, node: AstNode): (r: (AstNode, Option<ExitFn>))
    ensures t == TransformRoot ==> r == (node, Some(RootExit))
    ensures t == TransformElement ==> r == (node, Some(ElementExit))
    ensures t == TransformText ==> r == (TransformTextNode(node), None)
  {
    match t
    case TransformRoot => (node, Some(RootExit))
    case TransformElement => (node, Some(ElementExit))
    case TransformText => (TransformTextNode(node), None)
  }

  /** The `jsNode` of each child, in order. */
  function JsNodes(children: seq<AstNode>): (js: seq<JsNode>)
    ensures |js| == |children| && forall i :: 0 <= i < |children| ==> js[i] == children[i].jsNode
  {
    if children == [] then [] else [children[0].jsNode] + JsNodes(children[1..])
  }

  /** The argument `transformElement` adds after the tag: none when the first child has no JS
      node, that JS node when it is the only child, an array of all the children's JS nodes
      otherwise. */
  function ChildArguments(children: seq<AstNode>): (args: seq<JsNode>)
    requires children != []
    ensures children[0].jsNode == Undefined ==> args == []
    ensures children[0].jsNode != Undefined && |children| == 1 ==> args == [children[0].jsNode]
    ensures children[0].jsNode != Undefined && |children| > 1 ==> args == [CreateArrayExpression(JsNodes(children))]
  {
    if children[0].jsNode == Undefined then []
    else if |children| == 1 then [children[0].jsNode]
    else [CreateArrayExpression(JsNodes(children))]
  }

  /** The exit callback of `transformElement` as written: an Element gets `h('tag', ...)`; an
      Element without children throws (its first child is undefined); other nodes are left as
      they are. */
  function ElementCallAsWritten(node: AstNode): (r: Outcome<AstNode>)
    ensures !node.Element? ==> r == Done(node)
    ensures node.Element? ==> (r.Throws? <==> node.children == [])
    ensures r.Done? && node.Element? ==>
              r.value == Element(node.tag, node.props, node.children, node.isSelfClosing,
                                 CreateCallExpression("h", [CreateStringLiteral(node.tag)] + ChildArguments(node.children)))
  {
    if !node.Element? then Done(node)
    else if node.children == [] then Throws
    else Done(Element(node.tag, node.props, node.children, node.isSelfClosing,
                      CreateCallExpression("h", [CreateStringLiteral(node.tag)] + ChildArguments(node.children))))
  }

  /** The same callback with the first child read only when there is one: a childless Element
      gets `h('tag')`. */
  function ElementCall(node: AstNode): (r: Outcome<AstNode>)
    ensures r.Done?
    ensures !node.Element? ==> r.value == node
    ensures node.Element? ==> r.value.Element? && r.value.tag == node.tag && r.value.children == node.children
    ensures node.Element? ==> r.value.jsNode.CallExpression? && r.value.jsNode.callee == Identifier("h")
    ensures node.Element? ==> |r.value.jsNode.arguments| >= 1 && r.value.jsNode.arguments[0] == StringLiteral(node.tag)
    ensures node.Element? && node.children == [] ==> r.value.jsNode.arguments == [StringLiteral(node.tag)]
    ensures !(node.Element? && node.children == []) ==> r == ElementCallAsWritten(node)
  {
    if !node.Element? then Done(node)
    else
      var args := if node.children == [] then [] else ChildArguments(node.children);
      Done(Element(node.tag, node.props, node.children, node.isSelfClosing,
                   CreateCallExpression("h", [CreateStringLiteral(node.tag)] + args)))
  }

  /** `transformElement` on `<br/>`: as written it throws; with the guard it yields `h(br)`. */
  lemma ChildlessElementThrows()
    ensures ElementCallAsWritten(Element("br", [], [], true, Undefined)) == Throws
    ensures ElementCall(Element("br", [], [], true, Undefined)).value.jsNode == CallExpression(Identifier("h"), [StringLiteral("br")])
  {
  }

  /** The `render` declaration `transformRoot` builds around a returned JS node. */
  function RenderDecl(ret: JsNode): (d: JsNode)
    ensures d.FunctionDecl? && d.id == Identifier("render") && d.params == [] && d.body == [ReturnStatement(ret)]
  {
    FunctionDecl(Identifier("render"), [], [ReturnStatement(ret)])
  }

  /** The exit callback of `transformRoot`: the Root gets `render`, returning its first child's JS
      node; a Root without children throws; other nodes are left as they are. */
  function RootCall(node: AstNode): (r: Outcome<AstNode>)
    ensures !node.Root? ==> r == Done(node)
    ensures node.Root? ==> (r.Throws? <==> node.children == [])
    ensures r.Done? && node.Root? ==> r.value == Root(node.children, RenderDecl(node.children[0].jsNode))
  {
    if !node.Root? then Done(node)
    else if node.children == [] then Throws
    else Done(Root(node.children, RenderDecl(node.children[0].jsNode)))
  }

  /** Running one exit callback on the node it was registered for. */
  function RunExit(e: ExitFn, node: AstNode): Outcome<AstNode>
  {
    match e
    case RootExit => RootCall(node)
    case ElementExit => ElementCallAsWritten(node)
  }

  // ---------------------------------------------------------------------------------------
  // The traversal, as functions

  /** The transforms' pass over one node: each is called on the current node and then again on
      the node, and only the first call's callback is kept. */
  function Enter(ts: seq<NodeTransform>, node: AstNode): (r: (AstNode, seq<ExitFn>))
    decreases |ts|
  {
    if ts == [] then (node, [])
    else
      var (n1, onExit) := CallTransform(ts[0], node);
      var (n2, _) := CallTransform(ts[0], n1);
      var (n3, exits) := Enter(ts[1..], n2);
      (n3, (if onExit.Some? then [onExit.value] else []) + exits)
  }

  /** The callbacks registered for a node: one per transform that returns one, in the order of
      the transforms, however often each is called. */
  function Callbacks(ts: seq<NodeTransform>): (es: seq<ExitFn>)
    ensures |es| <= |ts|
  {
    if ts == [] then []
    else (match ts[0] case TransformRoot => [RootExit] case TransformElement => [ElementExit] case TransformText => [])
         + Callbacks(ts[1..])
  }

  /** A node keeps its children through the transforms, and a Text node is the only one they
      change. */
  lemma {:induction false} EnterKeeps(ts: seq<NodeTransform>, node: AstNode)
    ensures Enter(ts, node).1 == Callbacks(ts)
    ensures !node.Text? ==> Enter(ts, node).0 == node
    ensures node.Text? ==> Enter(ts, node).0.Text? && Enter(ts, node).0.content == node.content
    ensures node.Text? && TransformText in ts ==> Enter(ts, node).0 == TransformTextNode(node)
    ensures node.Text? && TransformText !in ts ==> Enter(ts, node).0 == node
    decreases |ts|
  {
    if ts != [] {
      var (n1, _) := CallTransform(ts[0], node);
      var (n2, _) := CallTransform(ts[0], n1);
      EnterKeeps(ts[1..], n2);
      if node.Text? && ts[0] == TransformText {
        TransformTextIdempotent(node);
        assert n2 == TransformTextNode(node);
        EnterTextAgain(ts[1..], n2);
      }
      assert TransformText in ts <==> ts[0] == TransformText || TransformText in ts[1..];
    }
  }

  /** Once a Text node has its literal, the transforms leave it alone. */
  lemma {:induction false} EnterTextAgain(ts: seq<NodeTransform>, node: AstNode)
    requires node.Text? && node == TransformTextNode(node)
    ensures Enter(ts, node).0 == node
    decreases |ts|
  {
    if ts != [] {
      EnterTextAgain(ts[1..], node);
    }
  }

  /** The node with its children replaced by their transformed values. */
  function WithChildren(node: AstNode, children: seq<AstNode>): AstNode
  {
    match node
    case Root(_, js) => Root(children, js)
    case Element(tag, props, _, selfClosing, js) => Element(tag, props, children, selfClosing, js)
    case Text(_, _) => node
  }

  /** The exit callbacks, run from the last registered to the first. */
  function Drain(exits: seq<ExitFn>, node: AstNode): (r: Outcome<AstNode>)
    ensures !r.Diverges?
    decreases |exits|
  {
    if exits == [] then Done(node)
    else match RunExit(exits[|exits| - 1], node)
      case Done(n) => Drain(exits[..|exits| - 1], n)
      case _ => Throws
  }

  /** `traverseNode` on a node: the transforms, then each child in order, then the exit
      callbacks. A callback that throws ends the traversal. */
  function Traverse(ts: seq<NodeTransform>, node: AstNode): (r: Outcome<AstNode>)
    ensures !r.Diverges?
    decreases node, |ChildrenOf(node)| + 1
  {
    var (entered, exits) := Enter(ts, node);
    match TraverseChildren(ts, node, 0)
    case Done(cs) => Drain(exits, WithChildren(entered, cs))
    case _ => Throws
  }

  /** The children of `parent` from position `i` on, each traversed. */
  function TraverseChildren(ts: seq<NodeTransform>, parent: AstNode, i: nat): (r: Outcome<seq<AstNode>>)
    requires i <= |ChildrenOf(parent)|
    ensures !r.Diverges?
    ensures r.Done? ==> |r.value| == |ChildrenOf(parent)| - i
    decreases parent, |ChildrenOf(parent)| - i
  {
    var cs := ChildrenOf(parent);
    if i == |cs| then Done([])
    else
      assert cs[i] in cs;
      match Traverse(ts, cs[i])
      case Done(c) =>
        (match TraverseChildren(ts, parent, i + 1)
         case Done(rest) => Done([c] + rest)
         case _ => Throws)
      case _ => Throws
  }

  /** The context fields after a traversal that finishes: the frame of the last node visited in
      pre-order, which is the node itself when it has no children. */
  function FinalFrame(ts: seq<NodeTransform>, node: AstNode, parent: Option<AstNode>, childIndex: int): (f: (Option<AstNode>, int, AstNode))
    decreases node
  {
    var cs := ChildrenOf(node);
    if cs == [] then (parent, childIndex, Enter(ts, node).0)
    else
      assert cs[|cs| - 1] in cs;
      FinalFrame(ts, cs[|cs| - 1], Some(node), |cs| - 1)
  }

  // ---------------------------------------------------------------------------------------
  // The context and traverseNode

  /** The node `removeNode` leaves: `splice(start, 1)`, with a negative start counted from the
      end. */
  function SpliceOne(children: seq<AstNode>, start: int): (r: seq<AstNode>)
    ensures var k := if start < 0 then (if |children| + start < 0 then 0 else |children| + start) else start;
            (k < |children| ==> r == children[..k] + children[k + 1..])
            && (k >= |children| ==> r == children)
  {
    var k := if start < 0 then (if |children| + start < 0 then 0 else |children| + start) else start;
    if k < |children| then children[..k] + children[k + 1..] else children
  }

  class TransformContext {
    const nodeTransforms: seq<NodeTransform>
    var currentNode: Option<AstNode>
    var childIndex: int
    var parent: Option<AstNode>

    /** The context `transform` builds. */
    constructor ()
      ensures nodeTransforms == StandardTransforms
      ensures currentNode == None && childIndex == 0 && parent == None
    {
      nodeTransforms := StandardTransforms;
      currentNode, childIndex, parent := None, 0, None;
    }

    /** The parent has a children array. */
    predicate HasChildren()
      reads this
    {
      parent.Some? && !parent.value.Text?
    }

    /** `replaceNode(node)`: the node takes the current child's place and becomes current; with
        no parent children array nothing changes. */
    method ReplaceNode(node: AstNode)
      requires HasChildren() ==> 0 <= childIndex < |parent.value.children|
      modifies this
      ensures old(HasChildren()) ==>
                parent == Some(old(parent.value).(children := old(parent.value.children)[old(childIndex) := node]))
                && currentNode == Some(node)
      ensures !old(HasChildren()) ==> parent == old(parent) && currentNode == old(currentNode)
      ensures childIndex == old(childIndex)
    {
      if HasChildren() {
        parent := Some(parent.value.(children := parent.value.children[childIndex := node]));
        currentNode := Some(node);
      }
    }

    /** `removeNode()`: the current child is spliced out and there is no current node; with no
        parent children array nothing changes. */
    method RemoveNode()
      modifies this
      ensures old(HasChildren()) ==>
                parent == Some(old(parent.value).(children := SpliceOne(old(parent.value.children), old(childIndex))))
                && currentNode == None
      ensures !old(HasChildren()) ==> parent == old(parent) && currentNode == old(currentNode)
      ensures childIndex == old(childIndex)
    {
      if HasChildren() {
        parent := Some(parent.value.(children := SpliceOne(parent.value.children, childIndex)));
        currentNode := None;
      }
    }

    /** The `forEach` over the transforms in `traverseNode`: each transform is called on the
        current node and again on the node, and the first call's callback, if any, is kept. */
    method RunTransforms(ast: AstNode) returns (node: AstNode, exitFns: seq<ExitFn>)
      requires currentNode == Some(ast)
      modifies this
      ensures (node, exitFns) == Enter(nodeTransforms, ast)
      ensures currentNode == Some(node) && parent == old(parent) && childIndex == old(childIndex)
    {
      exitFns := [];
      var transforms := nodeTransforms;
      node := ast;
      assert transforms[0..] == transforms && [] + Enter(transforms, ast).1 == Enter(transforms, ast).1;
      for k := 0 to |transforms|
        invariant Enter(transforms, ast) == (Enter(transforms[k..], node).0, exitFns + Enter(transforms[k..], node).1)
        invariant currentNode == Some(node)
        invariant parent == old(parent) && childIndex == old(childIndex)
      {
        assert transforms[k..][1..] == transforms[k + 1..];
        ghost var before := exitFns;
        var (n1, onExit) := CallTransform(transforms[k], node);
        currentNode := Some(n1);
        if onExit.Some? {
          exitFns := exitFns + [onExit.value];
        }
        var (n2, _) := CallTransform(transforms[k], n1);
        EnterStep(transforms[k..], node);
        ghost var later := Enter(transforms[k + 1..], n2);
        ghost var added := if onExit.Some? then [onExit.value] else [];
        assert exitFns == before + added;
        assert before + (added + later.1) == exitFns + later.1;
        node := n2;
        currentNode := Some(n2);
        // The source returns here when `currentNode` is null; that ends only this callback,
        // and no transform of this list removes the node.
      }
      assert transforms[|transforms|..] == [];
      assert exitFns + [] == exitFns;
    }

    /** `traverseNode(ast, ctx)`. */
    method TraverseNode(ast: AstNode) returns (r: Outcome<AstNode>)
      modifies this
      ensures r == Traverse(nodeTransforms, ast)
      ensures r.Done? ==>
                currentNode.Some? && (parent, childIndex, currentNode.value) == FinalFrame(nodeTransforms, ast, old(parent), old(childIndex))
      decreases ast
    {
      currentNode := Some(ast);
      var children := ChildrenOf(ast);
      var node, exitFns := RunTransforms(ast);
      var done: seq<AstNode> := [];
      ConsNothing(TraverseChildren(nodeTransforms, ast, 0));
      for i := 0 to |children|
        invariant TraverseChildren(nodeTransforms, ast, 0) == Cons(done, TraverseChildren(nodeTransforms, ast, i))
        invariant |done| == i
        invariant i == 0 ==> parent == old(parent) && childIndex == old(childIndex) && currentNode == Some(node)
        invariant i > 0 ==>
                    currentNode.Some? && (parent, childIndex, currentNode.value) == FinalFrame(nodeTransforms, children[i - 1], Some(ast), i - 1)
      {
        parent := Some(ast);
        childIndex := i;
        assert children[i] in children;
        var child := TraverseNode(children[i]);
        if !child.Done? {
          assert TraverseChildren(nodeTransforms, ast, i) == Throws;
          return Throws;
        }
        ConsSnoc(done, child.value, TraverseChildren(nodeTransforms, ast, i + 1));
        done := done + [child.value];
      }
      assert TraverseChildren(nodeTransforms, ast, |children|) == Done([]);
      assert done + [] == done;
      r := RunExits(exitFns, WithChildren(node, done));
      FinalFrameChildren(nodeTransforms, ast, old(parent), old(childIndex));
    }
  }

  /** The `while (i--)` loop of `traverseNode`: the callbacks from the last to the first, each on
      the node the one before left; a callback that throws ends it. */
  method RunExits(exitFns: seq<ExitFn>, node: AstNode) returns (r: Outcome<AstNode>)
    ensures r == Drain(exitFns, node)
  {
    var current := node;
    var i := |exitFns|;
    assert exitFns[..i] == exitFns;
    while i > 0
      invariant 0 <= i <= |exitFns|
      invariant Drain(exitFns, node) == Drain(exitFns[..i], current)
      decreases i
    {
      i := i - 1;
      var result := RunExit(exitFns[i], current);
      assert exitFns[..i + 1][..i] == exitFns[..i];
      if !result.Done? {
        return Throws;
      }
      current := result.value;
    }
    return Done(current);
  }

  /** `done` in front of an outcome. */
  function Cons(done: seq<AstNode>, r: Outcome<seq<AstNode>>): Outcome<seq<AstNode>>
  {
    match r
    case Done(rest) => Done(done + rest)
    case Throws => Throws
    case Diverges => Diverges
  }

  lemma ConsNothing(r: Outcome<seq<AstNode>>)
    ensures Cons([], r) == r
  {
    if r.Done? {
      assert [] + r.value == r.value;
    }
  }

  /** `Enter` unfolded once. */
  lemma EnterStep(ts: seq<NodeTransform>, node: AstNode)
    requires ts != []
    ensures var (n1, onExit) := CallTransform(ts[0], node);
            var (n2, _) := CallTransform(ts[0], n1);
            Enter(ts, node) == (Enter(ts[1..], n2).0, (if onExit.Some? then [onExit.value] else []) + Enter(ts[1..], n2).1)
  {
  }

  lemma ConsSnoc(done: seq<AstNode>, c: AstNode, r: Outcome<seq<AstNode>>)
    ensures Cons(done, Cons([c], r)) == Cons(done + [c], r)
  {
    if r.Done? {
      assert done + ([c] + r.value) == (done + [c]) + r.value;
    }
  }

  /** The frame after a node is the frame after its last child, or the node's own when it has
      none. */
  lemma FinalFrameChildren(ts: seq<NodeTransform>, node: AstNode, parent: Option<AstNode>, childIndex: int)
    ensures ChildrenOf(node) == [] ==> FinalFrame(ts, node, parent, childIndex) == (parent, childIndex, Enter(ts, node).0)
    ensures ChildrenOf(node) != [] ==>
              FinalFrame(ts, node, parent, childIndex)
              == FinalFrame(ts, ChildrenOf(node)[|ChildrenOf(node)| - 1], Some(node), |ChildrenOf(node)| - 1)
  {
  }

  /** `transform(ast)`: a traversal with the three transforms. */
  method TransformAst(ast: AstNode) returns (r: Outcome<AstNode>)
    ensures r == Traverse(StandardTransforms, ast)
  {
    var ctx := new TransformContext();
    r := ctx.TraverseNode(ast);
  }

  // ---------------------------------------------------------------------------------------
  // What the standard transforms produce

  /** No Root below the top and no Element without children. */
  predicate Transformable(node: AstNode, top: bool)
    decreases node
  {
    && (node.Root? ==> top && node.children != [])
    && (node.Element? ==> node.children != [])
    && forall c :: c in ChildrenOf(node) ==> Transformable(c, false)
  }

  /** The two callbacks of the standard transforms, element exit first. */
  lemma DrainStandard(n: AstNode)
    ensures Drain(Callbacks(StandardTransforms), n)
            == match ElementCallAsWritten(n) case Done(m) => RootCall(m) case _ => Throws
  {
    var es := [RootExit, ElementExit];
    assert Callbacks([TransformText]) == [];
    assert Callbacks(StandardTransforms) == es;
    assert es[..1] == [RootExit] && [RootExit][..0] == [];
  }

  /** A traversal with the standard transforms, in one piece. */
  lemma TraverseStandard(node: AstNode)
    ensures Traverse(StandardTransforms, node)
            == match TraverseChildren(StandardTransforms, node, 0)
               case Done(cs) =>
                 (match ElementCallAsWritten(WithChildren(TransformTextNode(node), cs))
                  case Done(m) => RootCall(m)
                  case _ => Throws)
               case _ => Throws
  {
    EnterKeeps(StandardTransforms, node);
    assert TransformText in StandardTransforms;
    if TraverseChildren(StandardTransforms, node, 0).Done? {
      DrainStandard(WithChildren(TransformTextNode(node), TraverseChildren(StandardTransforms, node, 0).value));
    }
  }

  /** The standard transforms finish on every tree with no childless Element and no inner
      Root, and every node they finish carries a JS node. */
  lemma {:induction false} TraverseGivesJsNode(node: AstNode, top: bool)
    requires Transformable(node, top)
    ensures Traverse(StandardTransforms, node).Done?
    ensures Traverse(StandardTransforms, node).value.jsNode != Undefined
    ensures node.Text? ==> Traverse(StandardTransforms, node).value == TransformTextNode(node)
    ensures !node.Text? ==> |ChildrenOf(Traverse(StandardTransforms, node).value)| == |ChildrenOf(node)|
    decreases node
  {
    TraverseStandard(node);
    ChildrenGiveJsNodes(node, 0);
    var cs := TraverseChildren(StandardTransforms, node, 0).value;
    assert cs != [] ==> cs[0] in cs;
  }

  /** The children from position `i` on are each traversed to a node with a JS node. */
  lemma {:induction false} ChildrenGiveJsNodes(parent: AstNode, i: nat)
    requires i <= |ChildrenOf(parent)|
    requires forall c :: c in ChildrenOf(parent) ==> Transformable(c, false)
    ensures TraverseChildren(StandardTransforms, parent, i).Done?
    ensures forall c :: c in TraverseChildren(StandardTransforms, parent, i).value ==> c.jsNode != Undefined
    decreases parent, |ChildrenOf(parent)| - i
  {
    var cs := ChildrenOf(parent);
    if i < |cs| {
      assert cs[i] in cs;
      TraverseGivesJsNode(cs[i], false);
      ChildrenGiveJsNodes(parent, i + 1);
    }
  }

  /** `transform` of a Root holding `<br/>` throws: the element callback reads the first child
      of an empty array. */
  lemma ChildlessElementTraversalThrows()
    ensures Traverse(StandardTransforms, Root([Element("br", [], [], true, Undefined)], Undefined)) == Throws
  {
    var br := Element("br", [], [], true, Undefined);
    var root := Root([br], Undefined);
    TraverseStandard(br);
    assert TraverseChildren(StandardTransforms, br, 0) == Done([]);
    assert Traverse(StandardTransforms, br) == Throws;
    assert ChildrenOf(root) == [br];
    assert TraverseChildren(StandardTransforms, root, 0) == Throws;
    TraverseStandard(root);
  }

  /** The running example: a Root holding `<div>hello</div>` becomes the `render` function
      returning `h('div', 'hello')`. */
  lemma RenderExample()
    ensures Traverse(StandardTransforms, Root([Element("div", [], [Text("hello", Undefined)], false, Undefined)], Undefined)).Done?
    ensures Traverse(StandardTransforms, Root([Element("div", [], [Text("hello", Undefined)], false, Undefined)], Undefined)).value.jsNode
            == RenderDecl(CallExpression(Identifier("h"), [StringLiteral("div"), StringLiteral("hello")]))
  {
    var text := Text("hello", Undefined);
    var div := Element("div", [], [text], false, Undefined);
    var root := Root([div], Undefined);
    var t := Text("hello", StringLiteral("hello"));
    TraverseStandard(text);
    assert Traverse(StandardTransforms, text) == Done(t);
    assert ChildrenOf(div) == [text] && ChildrenOf(root) == [div];
    assert [t] + [] == [t];
    assert TraverseChildren(StandardTransforms, div, 1) == Done([]);
    assert TraverseChildren(StandardTransforms, div, 0) == Done([t]);
    var d := Element("div", [], [t], false, CallExpression(Identifier("h"), [StringLiteral("div"), StringLiteral("hello")]));
    TraverseStandard(div);
    assert ChildArguments([t]) == [StringLiteral("hello")];
    assert [CreateStringLiteral("div")] + [StringLiteral("hello")] == [StringLiteral("div"), StringLiteral("hello")];
    assert Traverse(StandardTransforms, div) == Done(d);
    assert [d] + [] == [d];
    assert TraverseChildren(StandardTransforms, root, 1) == Done([]);
    assert TraverseChildren(StandardTransforms, root, 0) == Done([d]);
    TraverseStandard(root);
  }
}
