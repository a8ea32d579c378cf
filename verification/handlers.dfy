/**
 The branches of `traverse_ast` (transpiler.py lines 21-196) as text
 builders: each takes its children already rendered and gives the node's
 text. The dispatcher in module Transpiler supplies the children.
 */
module Handlers {
  import opened Wrappers
  import opened Text
  import opened Decimal

  /** What an f-string makes of a child's result: the text itself, or the
      word `None` when the child rendered to nothing. */
  function Show(o: Option<string>): (s: string)
    ensures o.Some? ==> s == o.value
    ensures o.None? ==> s == "None"
  {
    match o
    case Some(t) => t
    case None => "None"
  }

  /** The signature line of a function (line 26): its name and its
      parameters joined by blanks. */
  function Signature(name: string, params: seq<string>): string {
    "(define-public (" + name + " " + Join(" ", params) + ")"
  }

  /** Lines 21-31: the signature line, the body indented by two, and `)` on
      a line of its own. */
  function FunctionText(name: string, params: seq<string>, body: string): string {
    Signature(name, params) + "\n" + IndentLines(body, 2) + "\n" + ")"
  }

  /** A declarator whose initializer has already been rendered. */
  datatype Binding = Binding(name: string, value: string)

  /** The locals of the declarator loop at lines 34-47: the list of
      non-constant forms, and the constant form last assigned, if any. */
  datatype DeclState = DeclState(lines: seq<string>, constant: Option<string>)

  /** `(define-KIND NAME VALUE)` (line 46). */
  function DefineForm(kind: string, b: Binding): string {
    "(define-" + kind + " " + b.name + " " + b.value + ")"
  }

  /** `(define-constant NAME VALUE)` (line 42). */
  function ConstantForm(b: Binding): string {
    "(define-constant " + b.name + " " + b.value + ")"
  }

  /** The loop at lines 35-47 over the declarators, left to right. A constant
      declarator overwrites the constant form; any other kind appends one. */
  function DeclLoop(kind: string, bs: seq<Binding>, st: DeclState): (r: DeclState)
    ensures r.constant.Some? <==> st.constant.Some? || (kind == "const" && |bs| > 0)
    decreases |bs|
  {
    if |bs| == 0 then st
    else
      var next :=
        if kind == "const" then st.(constant := Some(ConstantForm(bs[0])))
        else st.(lines := st.lines + [DefineForm(kind, bs[0])]);
      DeclLoop(kind, bs[1..], next)
  }

  /** Lines 33-52. With kind "const" and no declarator, line 50 reads an
      unbound local: that is excluded. */
  function DeclarationText(kind: string, bs: seq<Binding>): string
    requires kind == "const" ==> |bs| > 0
  {
    var st := DeclLoop(kind, bs, DeclState([], None));
    if kind == "const" then Join("\n", st.lines + [st.constant.value])
    else Join("\n", st.lines)
  }

  /** Lines 54-62: the target's name and the value; the operator is not read. */
  function AssignmentText(target: string, value: string): string {
    "(= " + target + " " + value + ")"
  }

  /** Lines 64-76: the callee's name and the arguments joined by `, `. */
  function CallText(callee: string, args: seq<string>): string {
    "(" + callee + " " + Join(", ", args) + ")"
  }

  /** Lines 79-97. */
  function IfText(test: string, consequent: string, alternate: Option<string>): string {
    var elseForm := if alternate.Some? then "\n(else " + alternate.value + ")" else "";
    "(if " + test + "\n" + consequent + elseForm + ")"
  }

  /** Lines 99-107 and 118-126: binary and logical expressions alike. */
  function InfixText(left: string, op: string, right: string): string {
    "(" + left + " " + op + " " + right + ")"
  }

  /** Lines 109-116. */
  function UnaryText(op: string, operand: string): string {
    "(" + op + operand + ")"
  }

  /** Lines 128-134. */
  function ListText(elements: seq<string>): string {
    "(list " + Join(", ", elements) + ")"
  }

  /** Lines 136-146: each property as `KEY VALUE`, joined by `, `. */
  function TupleText(pairs: seq<string>): string {
    "(tuple (" + Join(", ", pairs) + "))"
  }

  function PairText(key: string, value: string): string {
    key + " " + value
  }

  /** Lines 148-154. */
  function ReturnText(argument: string): string {
    "(return " + argument + ")"
  }

  /** Lines 156-160. */
  function MemberText(obj: string, property: string): string {
    "(" + obj + "." + property + ")"
  }

  /** Lines 162-165. */
  function PrintText(message: string): string {
    "(print " + message + ")"
  }

  /** Lines 167-171. */
  function VarSetText(name: string, value: string): string {
    "(var-set! " + name + " " + value + ")"
  }

  /** Lines 173-176. */
  function VarGetText(name: string): string {
    "(var-get " + name + ")"
  }

  /** Lines 178-181. */
  function IntText(v: int): string {
    IntToDecimal(v)
  }

  /** Lines 183-186. */
  function UIntText(v: int): string {
    IntToDecimal(v) + "u"
  }

  /** Lines 188-191: Python's `str` of a bool. */
  function BoolText(b: bool): string {
    if b then "True" else "False"
  }

  /** Lines 193-196: the address in quotes, unchecked. */
  function PrincipalText(address: string): string {
    "(principal \"" + address + "\")"
  }
}
