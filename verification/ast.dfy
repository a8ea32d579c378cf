/**
 The syntax tree the generator walks. The source works on esprima's
 dictionaries, tagged by their "type" key; here each tag it handles is a
 constructor carrying exactly the fields it reads, and every other tag is
 `Unsupported`.
 */
module Ast {
  import opened Wrappers

  datatype Node =
    | Program(statements: seq<Node>)
      /** `params` holds the parameters' names, in declared order. */
    | FunctionDeclaration(name: string, params: seq<string>, body: Node)
      /** `kind` is the declaration keyword: "const", "let", "var", ... */
    | VariableDeclaration(kind: string, declarations: seq<Declarator>)
      /** Only the target's name is read; the assignment operator is not. */
    | AssignmentExpression(target: string, right: Node)
      /** Only the callee's name is read. */
    | CallExpression(callee: string, arguments: seq<Node>)
      /** `alternate` is None when the node has no "alternate" key. */
    | IfStatement(test: Node, consequent: Node, alternate: Option<Node>)
    | BinaryExpression(operator: string, left: Node, right: Node)
    | UnaryExpression(operator: string, argument: Node)
    | LogicalExpression(operator: string, left: Node, right: Node)
    | ArrayExpression(elements: seq<Node>)
    | ObjectExpression(properties: seq<Property>)
    | ReturnStatement(argument: Node)
    | MemberExpression(obj: Node, property: string)
    | Print(message: Node)
    | VarSet(name: string, value: Node)
    | VarGet(name: string)
    | Int(intValue: int)
    | UInt(uintValue: int)
    | Bool(boolValue: bool)
    | Principal(address: string)
      /** Any other "type" tag, e.g. "Identifier", "Literal", "BlockStatement". */
    | Unsupported(tag: string)

  datatype Declarator = Declarator(id: string, init: Node)

  datatype Property = Property(key: Node, value: Node)

  /** The node's "type" tag. */
  function Tag(n: Node): string {
    match n
    case Program(_) => "Program"
    case FunctionDeclaration(_, _, _) => "FunctionDeclaration"
    case VariableDeclaration(_, _) => "VariableDeclaration"
    case AssignmentExpression(_, _) => "AssignmentExpression"
    case CallExpression(_, _) => "CallExpression"
    case IfStatement(_, _, _) => "IfStatement"
    case BinaryExpression(_, _, _) => "BinaryExpression"
    case UnaryExpression(_, _) => "UnaryExpression"
    case LogicalExpression(_, _, _) => "LogicalExpression"
    case ArrayExpression(_) => "ArrayExpression"
    case ObjectExpression(_) => "ObjectExpression"
    case ReturnStatement(_) => "ReturnStatement"
    case MemberExpression(_, _) => "MemberExpression"
    case Print(_) => "Print"
    case VarSet(_, _) => "VarSet"
    case VarGet(_) => "VarGet"
    case Int(_) => "Int"
    case UInt(_) => "UInt"
    case Bool(_) => "Bool"
    case Principal(_) => "Principal"
    case Unsupported(t) => t
  }

  /** The tags the dispatcher has a branch for, "Program" included. */
  const BranchTags: set<string> := {
    "Program", "FunctionDeclaration", "VariableDeclaration", "AssignmentExpression",
    "CallExpression", "IfStatement", "BinaryExpression", "UnaryExpression",
    "LogicalExpression", "ArrayExpression", "ObjectExpression", "ReturnStatement",
    "MemberExpression", "Print", "VarSet", "VarGet", "Int", "UInt", "Bool", "Principal"
  }

  /** An `Unsupported` node really carries a tag without a branch. */
  predicate WellTagged(n: Node) {
    n.Unsupported? ==> n.tag !in BranchTags
  }
}
