/**
 `traverse_ast` (transpiler.py lines 17-202): one recursive dispatch on the
 node's tag; each branch renders its children and hands their text to its
 handler in module Handlers.
 */
module Transpiler {
  import opened Wrappers
  import opened Handlers
  import opened Ast

  /** The tree raises no exception in `traverse_ast`: every child that is
      rendered exists, a constant declaration has a declarator (else line 50
      reads an unbound local), a function body renders to text (else line 27
      indents None), and call arguments and array elements render to text
      (else `str.join` at lines 68 and 132 meets None). */
  predicate Renderable(n: Node)
    decreases n, 0
  {
    match n
    case Program(statements) =>
      forall i :: 0 <= i < |statements| ==> Renderable(statements[i])
    case FunctionDeclaration(_, _, body) =>
      Renderable(body) && Render(body).Some?
    case VariableDeclaration(kind, ds) =>
      && (kind == "const" ==> |ds| > 0)
      && forall i :: 0 <= i < |ds| ==> Renderable(ds[i].init)
    case AssignmentExpression(_, right) => Renderable(right)
    case CallExpression(_, args) =>
      forall i :: 0 <= i < |args| ==> Renderable(args[i]) && Render(args[i]).Some?
    case IfStatement(test, consequent, alternate) =>
      && Renderable(test)
      && Renderable(consequent)
      && (alternate.Some? ==> Renderable(alternate.value))
    case BinaryExpression(_, left, right) => Renderable(left) && Renderable(right)
    case UnaryExpression(_, argument) => Renderable(argument)
    case LogicalExpression(_, left, right) => Renderable(left) && Renderable(right)
    case ArrayExpression(es) =>
      forall i :: 0 <= i < |es| ==> Renderable(es[i]) && Render(es[i]).Some?
    case ObjectExpression(ps) =>
      forall i :: 0 <= i < |ps| ==> Renderable(ps[i].key) && Renderable(ps[i].value)
    case ReturnStatement(argument) => Renderable(argument)
    case MemberExpression(obj, _) => Renderable(obj)
    case Print(message) => Renderable(message)
    case VarSet(_, value) => Renderable(value)
    case VarGet(_) => true
    case Int(_) => true
    case UInt(_) => true
    case Bool(_) => true
    case Principal(_) => true
    case Unsupported(_) => true
  }

  predicate IsStatement(n: Node) {
    || n.FunctionDeclaration? || n.VariableDeclaration? || n.AssignmentExpression?
    || n.IfStatement? || n.ReturnStatement? || n.Print? || n.VarSet?
  }

  predicate IsExpression(n: Node) {
    || n.CallExpression? || n.BinaryExpression? || n.UnaryExpression?
    || n.LogicalExpression? || n.ArrayExpression? || n.ObjectExpression? || n.MemberExpression?
  }

  /** `traverse_ast(node)`: the node's text, or None where the source
      returns nothing -- a Program, whose branch only walks its statements,
      and every tag without a branch. */
  function Render(n: Node): (r: Option<string>)
    requires Renderable(n)
    ensures r.None? <==> n.Program? || n.Unsupported?
    decreases n, 2
  {
    match n
    case Program(_) => None
    case Unsupported(_) => None
    case VarGet(name) => Some(VarGetText(name))
    case Int(v) => Some(IntText(v))
    case UInt(v) => Some(UIntText(v))
    case Bool(b) => Some(BoolText(b))
    case Principal(address) => Some(PrincipalText(address))
    case FunctionDeclaration(_, _, _) | VariableDeclaration(_, _) | AssignmentExpression(_, _)
       | IfStatement(_, _, _) | ReturnStatement(_) | Print(_) | VarSet(_, _) =>
      Some(RenderStatement(n))
    case CallExpression(_, _) | BinaryExpression(_, _, _) | UnaryExpression(_, _)
       | LogicalExpression(_, _, _) | ArrayExpression(_) | ObjectExpression(_) | MemberExpression(_, _) =>
      Some(RenderExpression(n))
  }

  /** The branches for declarations, assignments, conditionals, returns,
      prints and variable writes. */
  function RenderStatement(n: Node): string
    requires Renderable(n) && IsStatement(n)
    decreases n, 1
  {
    match n
    case FunctionDeclaration(name, params, body) =>
      FunctionText(name, params, Render(body).value)
    case VariableDeclaration(kind, ds) =>
      DeclarationText(kind, seq(|ds|, i requires 0 <= i < |ds| =>
                                  Binding(ds[i].id, Show(Render(ds[i].init)))))
    case AssignmentExpression(target, right) =>
      AssignmentText(target, Show(Render(right)))
    case IfStatement(test, consequent, alternate) =>
      IfText(Show(Render(test)), Show(Render(consequent)),
             if alternate.Some? then Some(Show(Render(alternate.value))) else None)
    case ReturnStatement(argument) => ReturnText(Show(Render(argument)))
    case Print(message) => PrintText(Show(Render(message)))
    case VarSet(name, value) => VarSetText(name, Show(Render(value)))
  }

  /** The branches for calls, operators, array and object literals and
      member access. */
  function RenderExpression(n: Node): string
    requires Renderable(n) && IsExpression(n)
    decreases n, 1
  {
    match n
    case CallExpression(callee, args) =>
      CallText(callee, seq(|args|, i requires 0 <= i < |args| => Render(args[i]).value))
    case BinaryExpression(op, left, right) =>
      InfixText(Show(Render(left)), op, Show(Render(right)))
    case UnaryExpression(op, argument) =>
      UnaryText(op, Show(Render(argument)))
    case LogicalExpression(op, left, right) =>
      InfixText(Show(Render(left)), op, Show(Render(right)))
    case ArrayExpression(es) =>
      ListText(seq(|es|, i requires 0 <= i < |es| => Render(es[i]).value))
    case ObjectExpression(ps) =>
      TupleText(seq(|ps|, i requires 0 <= i < |ps| =>
                      PairText(Show(Render(ps[i].key)), Show(Render(ps[i].value)))))
    case MemberExpression(obj, property) => MemberText(Show(Render(obj)), property)
  }

  /** The rendered initializers of a declarator list, as the loop at lines
      35-47 sees them. */
  function Bindings(ds: seq<Declarator>): (bs: seq<Binding>)
    requires forall i :: 0 <= i < |ds| ==> Renderable(ds[i].init)
    ensures |bs| == |ds|
    ensures forall i :: 0 <= i < |ds| ==> bs[i] == Binding(ds[i].id, Show(Render(ds[i].init)))
  {
    seq(|ds|, i requires 0 <= i < |ds| => Binding(ds[i].id, Show(Render(ds[i].init))))
  }

  /** The text of each node of a list whose nodes all render to text. */
  function RenderedAll(ns: seq<Node>): (ts: seq<string>)
    requires forall i :: 0 <= i < |ns| ==> Renderable(ns[i]) && Render(ns[i]).Some?
    ensures |ts| == |ns|
    ensures forall i :: 0 <= i < |ns| ==> Some(ts[i]) == Render(ns[i])
  {
    seq(|ns|, i requires 0 <= i < |ns| => Render(ns[i]).value)
  }

  /** The `KEY VALUE` text of each property of a list. */
  function RenderedPairs(ps: seq<Property>): (ts: seq<string>)
    requires forall i :: 0 <= i < |ps| ==> Renderable(ps[i].key) && Renderable(ps[i].value)
    ensures |ts| == |ps|
    ensures forall i :: 0 <= i < |ps| ==>
      ts[i] == PairText(Show(Render(ps[i].key)), Show(Render(ps[i].value)))
  {
    seq(|ps|, i requires 0 <= i < |ps| => PairText(Show(Render(ps[i].key)), Show(Render(ps[i].value))))
  }
}
