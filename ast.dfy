/**
 * The two trees of the template compiler: the template AST the parser builds (Root, Element and
 * Text nodes, each given a `jsNode` by the transform) and the JavaScript AST the transform builds
 * and the generator prints, with the record constructors of `ast.ts`.
 */
module Ast {

  /** The parser's text modes. `TextModes` is imported from `ast.ts` but not defined there; the
      model takes the three modes as distinct values. */
  datatype TextMode = DATA | RCDATA | RAWTEXT

  /** How a compiler stage ends: with a value, by throwing (a property read on `undefined`), or
      never (a loop that makes no progress). */
  datatype Outcome<T> = Done(value: T) | Throws | Diverges

  datatype Option<T> = None | Some(value: T)

  /** A JavaScript AST node. `Undefined` stands for a missing node (a `jsNode` not yet set). */
  datatype JsNode =
    | StringLiteral(value: string)
    | Identifier(name: string)
    | ArrayExpression(elements: seq<JsNode>)
    | CallExpression(callee: JsNode, arguments: seq<JsNode>)
    | FunctionDecl(id: JsNode, params: seq<JsNode>, body: seq<JsNode>)
    | ReturnStatement(ret: JsNode)
    | Undefined

  /** An attribute node: `{ type: 'Attribute', name, value }`. */
  datatype Attribute = Attribute(name: string, value: string)

  /** A template AST node. */
  datatype AstNode =
    | Root(children: seq<AstNode>, jsNode: JsNode)
    | Element(tag: string, props: seq<Attribute>, children: seq<AstNode>, isSelfClosing: bool, jsNode: JsNode)
    | Text(content: string, jsNode: JsNode)

  /** The children a traversal visits: a text node has none. */
  function ChildrenOf(node: AstNode): (cs: seq<AstNode>)
    ensures node.Text? ==> cs == []
    ensures !node.Text? ==> cs == node.children
  {
    if node.Text? then [] else node.children
  }

  /** `createStringLiteral(value)`. */
  function CreateStringLiteral(value: string): (n: JsNode)
    ensures n.StringLiteral? && n.value == value
  {
    StringLiteral(value)
  }

  /** `createIdentifier(name)`. */
  function CreateIdentifier(name: string): (n: JsNode)
    ensures n.Identifier? && n.name == name
  {
    Identifier(name)
  }

  /** `createArrayExpression(elements)`: the elements in the given order. */
  function CreateArrayExpression(elements: seq<JsNode>): (n: JsNode)
    ensures n.ArrayExpression? && n.elements == elements
  {
    ArrayExpression(elements)
  }

  /** `createCallExpression(callee, args)`: the callee becomes an identifier; the arguments are
      kept as given. */
  function CreateCallExpression(callee: string, args: seq<JsNode>): (n: JsNode)
    ensures n.CallExpression? && n.callee == CreateIdentifier(callee) && n.arguments == args
  {
    CallExpression(CreateIdentifier(callee), args)
  }

  /** Two calls build the same node exactly when they get the same callee and arguments. */
  lemma CallExpressionInjective(c1: string, a1: seq<JsNode>, c2: string, a2: seq<JsNode>)
    ensures CreateCallExpression(c1, a1) == CreateCallExpression(c2, a2) <==> c1 == c2 && a1 == a2
  {
  }
}
