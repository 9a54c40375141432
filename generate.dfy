/**
 * The code generator: a context holding the code emitted so far and the current indent level,
 * and a recursive pass over the JavaScript AST that appends each node's code. Identifiers have
 * no case of their own and emit nothing. A missing node (`undefined`) makes the generator throw
 * when it reads its type, and so does a missing callee or function id when its `name` is read.
 */
module Generate {
  import opened Ast
  import Transform

  // ---------------------------------------------------------------------------------------
  // The code, as functions

  /** `'  '.repeat(k)`. */
  function Spaces(k: nat): (s: string)
    ensures |s| == 2 * k && forall i :: 0 <= i < |s| ==> s[i] == ' '
  {
    if k == 0 then [] else "  " + Spaces(k - 1)
  }

  /** What `newline()` appends at an indent level; `repeat` throws on a negative count. */
  function NewlineCode(indent: int): (r: Outcome<string>)
    ensures indent < 0 <==> r.Throws?
    ensures indent >= 0 ==> r == Done("\n" + Spaces(indent))
  {
    if indent < 0 then Throws else Done("\n" + Spaces(indent))
  }

  /** Two pieces of code emitted one after the other: the generator stops at the first throw. */
  function Then(a: Outcome<string>, b: Outcome<string>): (r: Outcome<string>)
    ensures r.Done? <==> a.Done? && b.Done?
    ensures r.Done? ==> r.value == a.value + b.value
  {
    if a.Done? && b.Done? then Done(a.value + b.value) else Throws
  }

  /** `${node.name}` for the name of a function or callee that is present: "undefined" when it
      is not an identifier. Reading `name` of a missing node throws, which `Code` and `DeclHead`
      check first. */
  function NameOf(id: JsNode): string
    requires !id.Undefined?
  {
    if id.Identifier? then id.name else "undefined"
  }

  /** The code `genNode` appends for a node at an indent level. */
  function Code(node: JsNode, indent: int): Outcome<string>
    decreases node, 1
  {
    match node
    case FunctionDecl(_, _, _) => Then(DeclHead(node, indent), DeclBlock(node, indent))
    case ReturnStatement(ret) => Then(Done("return "), Code(ret, indent))
    case CallExpression(callee, args) =>
      if callee.Undefined? then Throws
      else Then(Then(Done(NameOf(callee) + "("), List(args, |args|, indent)), Done(")"))
    case StringLiteral(value) => Done(value)
    case ArrayExpression(elements) => Then(Then(Done("["), List(elements, |elements|, indent)), Done("]"))
    case Identifier(_) => Done("")
    case Undefined => Throws
  }

  /** The first line of a function declaration: `function name(params) {`. */
  function DeclHead(node: JsNode, indent: int): Outcome<string>
    requires node.FunctionDecl?
    decreases node, 0
  {
    if node.id.Undefined? then Throws
    else Then(Then(Done("function " + NameOf(node.id) + "("), List(node.params, |node.params|, indent)), Done(") {"))
  }

  /** The rest of a function declaration: the body one level deeper, then the closing brace on
      a line of its own at the starting level. */
  function DeclBlock(node: JsNode, indent: int): Outcome<string>
    requires node.FunctionDecl?
    decreases node, 0
  {
    Then(Then(Then(NewlineCode(indent + 1), Body(node.body, |node.body|, indent + 1)), NewlineCode(indent)), Done("}"))
  }

  /** A function declaration is its first line followed by the rest. */
  lemma DeclCode(node: JsNode, indent: int)
    requires node.FunctionDecl?
    ensures Code(node, indent).Done? <==> DeclHead(node, indent).Done? && DeclBlock(node, indent).Done?
    ensures Code(node, indent).Done? ==> Code(node, indent).value == DeclHead(node, indent).value + DeclBlock(node, indent).value
  {
  }

  lemma DeclAppend(start: string, node: JsNode, indent: int)
    requires node.FunctionDecl? && DeclHead(node, indent).Done? && DeclBlock(node, indent).Done?
    ensures Code(node, indent).Done?
    ensures start + DeclHead(node, indent).value + DeclBlock(node, indent).value == start + Code(node, indent).value
  {
  }

  /** The code `genNodeList` appends after its first `i` passes: each node, followed by ", "
      unless it is the last. */
  function List(nodes: seq<JsNode>, i: nat, indent: int): Outcome<string>
    requires i <= |nodes|
    decreases nodes, i
  {
    if i == 0 then Done("")
    else Then(Then(List(nodes, i - 1, indent), Code(nodes[i - 1], indent)), Done(if i - 1 < |nodes| - 1 then ", " else ""))
  }

  /** The code of the first `i` statements of a function body, one after the other. */
  function Body(nodes: seq<JsNode>, i: nat, indent: int): Outcome<string>
    requires i <= |nodes|
    decreases nodes, i
  {
    if i == 0 then Done("") else Then(Body(nodes, i - 1, indent), Code(nodes[i - 1], indent))
  }

  // ---------------------------------------------------------------------------------------
  // The context and the generator

  class GenContext {
    var code: string
    var currentIndent: int

    /** The context `generate` builds. */
    constructor ()
      ensures code == "" && currentIndent == 0
    {
      code, currentIndent := "", 0;
    }

    /** `push(code)`. */
    method Push(s: string)
      modifies this
      ensures code == old(code) + s && currentIndent == old(currentIndent)
    {
      code := code + s;
    }

    /** `newline()`: a line break and two spaces per level; false when the level is negative
        (`repeat` throws). */
    method Newline() returns (ok: bool)
      modifies this
      ensures ok <==> NewlineCode(currentIndent).Done?
      ensures ok ==> code == old(code) + NewlineCode(currentIndent).value
      ensures currentIndent == old(currentIndent)
    {
      if currentIndent < 0 {
        return false;
      }
      code := code + "\n" + Spaces(currentIndent);
      return true;
    }

    /** `indent()`. */
    method Indent() returns (ok: bool)
      modifies this
      ensures currentIndent == old(currentIndent) + 1
      ensures ok <==> NewlineCode(currentIndent).Done?
      ensures ok ==> code == old(code) + NewlineCode(currentIndent).value
    {
      currentIndent := currentIndent + 1;
      ok := Newline();
    }

    /** `deIndent()`. */
    method DeIndent() returns (ok: bool)
      modifies this
      ensures currentIndent == old(currentIndent) - 1
      ensures ok <==> NewlineCode(currentIndent).Done?
      ensures ok ==> code == old(code) + NewlineCode(currentIndent).value
    {
      currentIndent := currentIndent - 1;
      ok := Newline();
    }

    /** `genNode(node, context)`; false when it throws. */
    method GenNode(node: JsNode) returns (ok: bool)
      modifies this
      ensures ok <==> Code(node, old(currentIndent)).Done?
      ensures ok ==> code == old(code) + Code(node, old(currentIndent)).value && currentIndent == old(currentIndent)
      decreases node, 2
    {
      match node
      case FunctionDecl(_, _, _) => ok := GenFunctionDecl(node);
      case ReturnStatement(_) => ok := GenReturnStatement(node);
      case CallExpression(_, _) => ok := GenCallExpression(node);
      case StringLiteral(_) => GenStringLiteral(node); ok := true;
      case ArrayExpression(_) => ok := GenArrayExpression(node);
      case Identifier(_) => ok := true;
      case Undefined => ok := false;
    }

    /** `genFunctionDecl(node, context)`. */
    method GenFunctionDecl(node: JsNode) returns (ok: bool)
      requires node.FunctionDecl?
      modifies this
      ensures ok <==> Code(node, old(currentIndent)).Done?
      ensures ok ==> code == old(code) + Code(node, old(currentIndent)).value && currentIndent == old(currentIndent)
      decreases node, 1
    {
      ghost var start, indent := code, currentIndent;
      DeclCode(node, indent);
      ok := GenDeclHead(node);
      if !ok {
        return;
      }
      ok := GenDeclBlock(node);
      if ok {
        DeclAppend(start, node, indent);
      }
    }

    /** The first half of `genFunctionDecl`: up to the opening brace. */
    method GenDeclHead(node: JsNode) returns (ok: bool)
      requires node.FunctionDecl?
      modifies this
      ensures ok <==> DeclHead(node, old(currentIndent)).Done?
      ensures ok ==> code == old(code) + DeclHead(node, old(currentIndent)).value && currentIndent == old(currentIndent)
      decreases node, 0
    {
      if node.id.Undefined? {
        // Reading `name` of the missing id throws before anything is pushed.
        return false;
      }
      ghost var start, indent := code, currentIndent;
      ghost var opening := "function " + NameOf(node.id) + "(";
      Push("function " + NameOf(node.id));
      Push("(");
      assert code == start + opening;
      ok := GenNodeList(node.params);
      if ok {
        ghost var params := List(node.params, |node.params|, indent).value;
        Push(") {");
        assert DeclHead(node, indent) == Done(opening + params + ") {");
        assert code == start + (opening + params + ") {");
      }
    }

    /** The second half of `genFunctionDecl`: the body and the closing brace. */
    method GenDeclBlock(node: JsNode) returns (ok: bool)
      requires node.FunctionDecl?
      modifies this
      ensures ok <==> DeclBlock(node, old(currentIndent)).Done?
      ensures ok ==> code == old(code) + DeclBlock(node, old(currentIndent)).value && currentIndent == old(currentIndent)
      decreases node, 0
    {
      ghost var start := code;
      ghost var indent := currentIndent;
      ok := Indent();
      if !ok {
        return;
      }
      ghost var emitted := NewlineCode(indent + 1).value;
      ok := GenBody(node.body);
      if !ok {
        return;
      }
      emitted := emitted + Body(node.body, |node.body|, indent + 1).value;
      assert code == start + emitted;
      ok := DeIndent();
      if !ok {
        return;
      }
      emitted := emitted + NewlineCode(indent).value;
      assert code == start + emitted;
      Push("}");
    }

    /** The `forEach` over a function body: each statement at the current level. */
    method GenBody(nodes: seq<JsNode>) returns (ok: bool)
      modifies this
      ensures ok <==> Body(nodes, |nodes|, old(currentIndent)).Done?
      ensures ok ==> code == old(code) + Body(nodes, |nodes|, old(currentIndent)).value && currentIndent == old(currentIndent)
      decreases nodes, 2
    {
      ghost var start := code;
      ghost var indent := currentIndent;
      var i := 0;
      while i < |nodes|
        invariant 0 <= i <= |nodes|
        invariant currentIndent == indent
        invariant Body(nodes, i, indent).Done?
        invariant code == start + Body(nodes, i, indent).value
        decreases |nodes| - i
      {
        ok := GenNode(nodes[i]);
        if !ok {
          BodyThrows(nodes, i + 1, |nodes|, indent);
          return;
        }
        i := i + 1;
      }
      ok := true;
    }

    /** `genNodeList(params, context)`. */
    method GenNodeList(nodes: seq<JsNode>) returns (ok: bool)
      modifies this
      ensures ok <==> List(nodes, |nodes|, old(currentIndent)).Done?
      ensures ok ==> code == old(code) + List(nodes, |nodes|, old(currentIndent)).value && currentIndent == old(currentIndent)
      decreases nodes, 2
    {
      ghost var start := code;
      ghost var indent := currentIndent;
      for i := 0 to |nodes|
        invariant currentIndent == indent
        invariant List(nodes, i, indent).Done?
        invariant code == start + List(nodes, i, indent).value
      {
        ok := GenNode(nodes[i]);
        if !ok {
          ListThrows(nodes, i + 1, |nodes|, indent);
          return;
        }
        if i < |nodes| - 1 {
          Push(", ");
        }
      }
      ok := true;
    }

    /** `genReturnStatement(node, context)`. */
    method GenReturnStatement(node: JsNode) returns (ok: bool)
      requires node.ReturnStatement?
      modifies this
      ensures ok <==> Code(node, old(currentIndent)).Done?
      ensures ok ==> code == old(code) + Code(node, old(currentIndent)).value && currentIndent == old(currentIndent)
      decreases node, 0
    {
      Push("return ");
      ok := GenNode(node.ret);
    }

    /** `genCallExpression(node, context)`. */
    method GenCallExpression(node: JsNode) returns (ok: bool)
      requires node.CallExpression?
      modifies this
      ensures ok <==> Code(node, old(currentIndent)).Done?
      ensures ok ==> code == old(code) + Code(node, old(currentIndent)).value && currentIndent == old(currentIndent)
      decreases node, 0
    {
      if node.callee.Undefined? {
        // Reading `name` of the missing callee throws before anything is pushed.
        return false;
      }
      Push(NameOf(node.callee) + "(");
      ok := GenNodeList(node.arguments);
      if ok {
        Push(")");
      }
    }

    /** `genStringLiteral(node, context)`: the value, without quotes. */
    method GenStringLiteral(node: JsNode)
      requires node.StringLiteral?
      modifies this
      ensures code == old(code) + node.value && currentIndent == old(currentIndent)
    {
      Push(node.value);
    }

    /** `genArrayExpression(node, context)`. */
    method GenArrayExpression(node: JsNode) returns (ok: bool)
      requires node.ArrayExpression?
      modifies this
      ensures ok <==> Code(node, old(currentIndent)).Done?
      ensures ok ==> code == old(code) + Code(node, old(currentIndent)).value && currentIndent == old(currentIndent)
      decreases node, 0
    {
      Push("[");
      ok := GenNodeList(node.elements);
      if ok {
        Push("]");
      }
    }
  }

  /** Once a pass of the list throws, the list does. */
  lemma {:induction false} ListThrows(nodes: seq<JsNode>, i: nat, j: nat, indent: int)
    requires i <= j <= |nodes| && !List(nodes, i, indent).Done?
    ensures !List(nodes, j, indent).Done?
    decreases j - i
  {
    if i < j {
      ListThrows(nodes, i + 1, j, indent);
    }
  }

  /** Once a statement of the body throws, the body does. */
  lemma {:induction false} BodyThrows(nodes: seq<JsNode>, i: nat, j: nat, indent: int)
    requires i <= j <= |nodes| && !Body(nodes, i, indent).Done?
    ensures !Body(nodes, j, indent).Done?
    decreases j - i
  {
    if i < j {
      BodyThrows(nodes, i + 1, j, indent);
    }
  }

  /** `generate(node)`: the code of the node from an empty context at level 0, or a throw. */
  method GenerateCode(node: JsNode) returns (r: Outcome<string>)
    ensures r == Code(node, 0)
  {
    var context := new GenContext();
    var ok := context.GenNode(node);
    if !ok {
      return Throws;
    }
    assert context.code == "" + Code(node, 0).value == Code(node, 0).value;
    return Done(context.code);
  }

  // ---------------------------------------------------------------------------------------
  // Properties of the generated code

  function CountChar(s: string, c: char): (n: nat)
    ensures n <= |s|
  {
    if s == [] then 0 else (if s[0] == c then 1 else 0) + CountChar(s[1..], c)
  }

  lemma {:induction false} CountCharAppend(a: string, b: string, c: char)
    ensures CountChar(a + b, c) == CountChar(a, c) + CountChar(b, c)
    decreases |a|
  {
    if a == [] {
      assert a + b == b;
    } else {
      assert (a + b)[1..] == a[1..] + b;
      CountCharAppend(a[1..], b, c);
    }
  }

  /** A string literal whose value has no comma. */
  predicate PlainLiteral(n: JsNode)
  {
    n.StringLiteral? && ',' !in n.value
  }

  /** A list of n plain literals is emitted with exactly n - 1 separators: the commas of the
      emitted code are the separators'. */
  lemma {:induction false} SeparatorCount(nodes: seq<JsNode>, i: nat, indent: int)
    requires 0 < i <= |nodes| && forall n :: n in nodes ==> PlainLiteral(n)
    ensures List(nodes, i, indent).Done?
    ensures CountChar(List(nodes, i, indent).value, ',') == (if i < |nodes| then i else i - 1)
    decreases i
  {
    assert nodes[i - 1] in nodes;
    var v := nodes[i - 1].value;
    assert CountChar(v, ',') == 0 by { NoCharCount(v, ','); }
    var sep := if i - 1 < |nodes| - 1 then ", " else "";
    assert CountChar(sep, ',') == (if i - 1 < |nodes| - 1 then 1 else 0);
    if i == 1 {
      assert List(nodes, 0, indent) == Done("");
      CountCharAppend("" + v, sep, ',');
      assert "" + v == v;
    } else {
      SeparatorCount(nodes, i - 1, indent);
      var prev := List(nodes, i - 1, indent).value;
      CountCharAppend(prev, v, ',');
      CountCharAppend(prev + v, sep, ',');
    }
  }

  lemma {:induction false} NoCharCount(s: string, c: char)
    requires c !in s
    ensures CountChar(s, c) == 0
    decreases |s|
  {
    if s != [] {
      assert s[1..] == s[1..] && forall k :: 0 <= k < |s| - 1 ==> s[1..][k] == s[k + 1];
      NoCharCount(s[1..], c);
    }
  }

  /** A function declaration ends where it started: its body is one level deeper, and the
      closing brace is back on the starting level. */
  lemma FunctionDeclShape(name: string, body: seq<JsNode>, indent: nat)
    requires Body(body, |body|, indent + 1).Done?
    ensures Code(FunctionDecl(Identifier(name), [], body), indent)
            == Done("function " + name + "() {" + "\n" + Spaces(indent + 1) + Body(body, |body|, indent + 1).value
                    + "\n" + Spaces(indent) + "}")
  {
    var node := FunctionDecl(Identifier(name), [], body);
    var b := Body(body, |body|, indent + 1).value;
    assert DeclHead(node, indent) == Done("function " + name + "() {") by {
      assert List([], 0, indent) == Done("");
      assert "function " + name + "(" + "" + ") {" == "function " + name + "() {";
    }
    assert DeclBlock(node, indent) == Done("\n" + Spaces(indent + 1) + b + "\n" + Spaces(indent) + "}") by {
      assert NewlineCode(indent + 1) == Done("\n" + Spaces(indent + 1));
      assert NewlineCode(indent) == Done("\n" + Spaces(indent));
      assert ("\n" + Spaces(indent + 1) + b) + ("\n" + Spaces(indent)) + "}" == "\n" + Spaces(indent + 1) + b + "\n" + Spaces(indent) + "}";
    }
    assert "function " + name + "() {" + ("\n" + Spaces(indent + 1) + b + "\n" + Spaces(indent) + "}")
           == "function " + name + "() {" + "\n" + Spaces(indent + 1) + b + "\n" + Spaces(indent) + "}";
  }

  /** A node the generator reads that is missing: the node itself, a list element, a body
      statement or a returned value, or the callee or id whose `name` is read. */
  predicate HasMissing(node: JsNode)
    decreases node
  {
    match node
    case Undefined => true
    case StringLiteral(_) => false
    case Identifier(_) => false
    case ReturnStatement(ret) => HasMissing(ret)
    case ArrayExpression(elements) => exists k :: 0 <= k < |elements| && HasMissing(elements[k])
    case CallExpression(callee, args) => callee.Undefined? || exists k :: 0 <= k < |args| && HasMissing(args[k])
    case FunctionDecl(id, params, body) =>
      || id.Undefined?
      || (exists k :: 0 <= k < |params| && HasMissing(params[k]))
      || (exists k :: 0 <= k < |body| && HasMissing(body[k]))
  }

  /** From a non-negative level, the generator finishes exactly when no node it reads is
      missing. */
  lemma {:induction false} CodeDoneIff(node: JsNode, indent: int)
    requires indent >= 0
    ensures Code(node, indent).Done? <==> !HasMissing(node)
    decreases node, 1
  {
    match node
    case FunctionDecl(id, params, body) =>
      ListDoneIff(params, |params|, indent);
      BodyDoneIff(body, |body|, indent + 1);
    case ReturnStatement(ret) =>
      CodeDoneIff(ret, indent);
    case CallExpression(callee, args) =>
      ListDoneIff(args, |args|, indent);
    case ArrayExpression(elements) =>
      ListDoneIff(elements, |elements|, indent);
    case StringLiteral(_) =>
    case Identifier(_) =>
    case Undefined =>
  }

  /** The first i nodes of a list are emitted exactly when none of them has a missing node. */
  lemma {:induction false} ListDoneIff(nodes: seq<JsNode>, i: nat, indent: int)
    requires i <= |nodes| && indent >= 0
    ensures List(nodes, i, indent).Done? <==> forall k :: 0 <= k < i ==> !HasMissing(nodes[k])
    decreases nodes, i
  {
    if i > 0 {
      ListDoneIff(nodes, i - 1, indent);
      CodeDoneIff(nodes[i - 1], indent);
    }
  }

  /** The first i statements of a body are emitted exactly when none has a missing node. */
  lemma {:induction false} BodyDoneIff(nodes: seq<JsNode>, i: nat, indent: int)
    requires i <= |nodes| && indent >= 0
    ensures Body(nodes, i, indent).Done? <==> forall k :: 0 <= k < i ==> !HasMissing(nodes[k])
    decreases nodes, i
  {
    if i > 0 {
      BodyDoneIff(nodes, i - 1, indent);
      CodeDoneIff(nodes[i - 1], indent);
    }
  }

  /** A return statement without a value makes the whole `render` function throw. */
  lemma MissingReturnValueThrows()
    ensures Code(FunctionDecl(Identifier("render"), [], [ReturnStatement(Undefined)]), 0).Throws?
  {
    assert Body([ReturnStatement(Undefined)], 1, 1).Throws?;
  }

  /** The call `h('div', 'hello')` generates `h(div, hello)`: string literals lose their
      quotes. */
  lemma HelloCall(indent: int)
    ensures Code(CallExpression(Identifier("h"), [StringLiteral("div"), StringLiteral("hello")]), indent)
            == Done("h(div, hello)")
  {
    var args := [StringLiteral("div"), StringLiteral("hello")];
    assert "" + "div" == "div" && "div" + ", " == "div, " && "div, " + "hello" == "div, hello";
    assert "div, hello" + "" == "div, hello";
    assert List(args, 1, indent) == Done("div, ");
    assert List(args, 2, indent) == Done("div, hello");
    assert "h" + "(" == "h(" && "h(" + "div, hello" == "h(div, hello" && "h(div, hello" + ")" == "h(div, hello)";
  }

  /** The `render` function the transform builds around a returned node generates three lines:
      the header, the return statement indented one level, and the closing brace. */
  lemma RenderShape(ret: JsNode)
    requires Code(ret, 1).Done?
    ensures Code(Transform.RenderDecl(ret), 0) == Done("function render() {\n  return " + Code(ret, 1).value + "\n}")
  {
    var v := Code(ret, 1).value;
    assert Body([ReturnStatement(ret)], 1, 1) == Done("return " + v) by {
      assert "" + ("return " + v) == "return " + v;
    }
    FunctionDeclShape("render", [ReturnStatement(ret)], 0);
    RenderLines(v);
  }

  lemma RenderLines(v: string)
    ensures "function " + "render" + "() {" + "\n" + Spaces(1) + ("return " + v) + "\n" + Spaces(0) + "}"
            == "function render() {\n  return " + v + "\n}"
  {
    assert Spaces(1) == "  " && Spaces(0) == "";
    assert "function " + "render" + "() {" == "function render() {";
    assert "function render() {" + "\n" + "  " == "function render() {\n  ";
    assert "function render() {\n  " + "return " == "function render() {\n  return ";
    assert "\n" + "" + "}" == "\n}";
  }

  /** Transforming `<div>hello</div>` and generating its code gives the render function
      returning `h(div, hello)`. */
  lemma DivHelloCode()
    ensures Transform.Traverse(Transform.StandardTransforms, Root([Element("div", [], [Text("hello", Undefined)], false, Undefined)], Undefined)).Done?
    ensures Code(Transform.Traverse(Transform.StandardTransforms, Root([Element("div", [], [Text("hello", Undefined)], false, Undefined)], Undefined)).value.jsNode, 0)
            == Done("function render() {\n  return h(div, hello)\n}")
  {
    var call := CallExpression(Identifier("h"), [StringLiteral("div"), StringLiteral("hello")]);
    Transform.RenderExample();
    assert Code(Transform.RenderDecl(call), 0) == Done("function render() {\n  return h(div, hello)\n}") by {
      HelloCall(1);
      RenderShape(call);
      HelloLine();
    }
  }

  lemma HelloLine()
    ensures "function render() {\n  return " + "h(div, hello)" + "\n}" == "function render() {\n  return h(div, hello)\n}"
  {
  }
}
