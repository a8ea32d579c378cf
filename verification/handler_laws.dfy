/**
 Properties of the text builders in module Handlers, stated against
 independent descriptions: the S-expression layout `Form`, the line
 structure of the text, and how the text changes when a child is added.
 */
module HandlerLaws {
  import opened Wrappers
  import opened Text
  import opened Handlers

  /** The S-expression `(HEAD A1 A2 ...)`: a head and its arguments, separated
      by single blanks, in parentheses. */
  function Form(head: string, args: seq<string>): string {
    "(" + Join(" ", [head] + args) + ")"
  }

  lemma FormArity(h: string, x: string, y: string)
    ensures Form(h, []) == "(" + h + ")"
    ensures Form(h, [x]) == "(" + h + " " + x + ")"
    ensures Form(h, [x, y]) == "(" + h + " " + x + " " + y + ")"
  {
    assert [h] + [] == [h];
    assert [h] + [x] == [h, x];
    assert [h, x][1..] == [x];
    assert Join(" ", [h, x]) == h + " " + x;
    assert [h] + [x, y] == [h, x, y];
    assert [h, x, y][1..] == [x, y];
    assert [x, y][1..] == [y];
    assert Join(" ", [x, y]) == x + " " + y;
    assert Join(" ", [h, x, y]) == h + " " + (x + " " + y);
  }

  // -----------------------------------------------------------------------
  // Variable declarations (lines 33-52)

  /** The declarator loop, read off in one step: any kind but "const" appends
      one form per declarator, in input order; "const" leaves the list alone
      and keeps only the last declarator's constant form. */
  lemma {:induction false} DeclLoopResult(kind: string, bs: seq<Binding>, st: DeclState)
    ensures kind != "const" ==>
      DeclLoop(kind, bs, st)
        == DeclState(st.lines + seq(|bs|, i requires 0 <= i < |bs| => DefineForm(kind, bs[i])), st.constant)
    ensures kind == "const" ==>
      DeclLoop(kind, bs, st)
        == DeclState(st.lines, if |bs| == 0 then st.constant else Some(ConstantForm(bs[|bs| - 1])))
    decreases |bs|
  {
    if |bs| > 0 {
      var next :=
        if kind == "const" then st.(constant := Some(ConstantForm(bs[0])))
        else st.(lines := st.lines + [DefineForm(kind, bs[0])]);
      DeclLoopResult(kind, bs[1..], next);
      if kind != "const" {
        var all := seq(|bs|, i requires 0 <= i < |bs| => DefineForm(kind, bs[i]));
        var tail := seq(|bs[1..]|, i requires 0 <= i < |bs[1..]| => DefineForm(kind, bs[1..][i]));
        assert all == [DefineForm(kind, bs[0])] + tail;
        assert next.lines + tail == st.lines + all;
      }
    }
  }

  /** The forms of a non-constant declaration, one per declarator. */
  function DefineForms(kind: string, bs: seq<Binding>): (forms: seq<string>)
    ensures |forms| == |bs|
    ensures forall i :: 0 <= i < |bs| ==> forms[i] == DefineForm(kind, bs[i])
  {
    seq(|bs|, i requires 0 <= i < |bs| => DefineForm(kind, bs[i]))
  }

  /** A non-constant declaration is one `(define-KIND NAME VALUE)` per
      declarator, in input order, joined by newlines; no declarator gives the
      empty text. When no form holds a newline, the lines of the text are
      exactly those forms. */
  lemma DeclarationLines(kind: string, bs: seq<Binding>)
    requires kind != "const"
    ensures DeclarationText(kind, bs) == Join("\n", DefineForms(kind, bs))
    ensures |bs| == 0 ==> DeclarationText(kind, bs) == ""
    ensures |bs| > 0 && (forall i :: 0 <= i < |bs| ==> '\n' !in DefineForm(kind, bs[i])) ==>
      Split('\n', DeclarationText(kind, bs)) == DefineForms(kind, bs)
  {
    var forms := DefineForms(kind, bs);
    DeclLoopResult(kind, bs, DeclState([], None));
    assert [] + forms == forms;
    if |bs| > 0 && (forall i :: 0 <= i < |bs| ==> '\n' !in DefineForm(kind, bs[i])) {
      SplitJoin('\n', forms);
    }
  }

  /** A constant declaration is the `(define-constant NAME VALUE)` of its last
      declarator alone: the earlier ones leave no trace. */
  lemma ConstantKeepsLast(bs: seq<Binding>)
    requires |bs| > 0
    ensures DeclarationText("const", bs) == ConstantForm(bs[|bs| - 1])
    ensures DeclarationText("const", bs) == DeclarationText("const", [bs[|bs| - 1]])
  {
    DeclLoopResult("const", bs, DeclState([], None));
    DeclLoopResult("const", [bs[|bs| - 1]], DeclState([], None));
  }

  /** Splitting a non-constant declarator list in two renders the halves one
      after the other, on separate lines. */
  lemma DeclarationAppend(kind: string, a: seq<Binding>, b: seq<Binding>)
    requires kind != "const" && |a| > 0 && |b| > 0
    ensures DeclarationText(kind, a + b) == DeclarationText(kind, a) + "\n" + DeclarationText(kind, b)
  {
    var fa, fb, fab := DefineForms(kind, a), DefineForms(kind, b), DefineForms(kind, a + b);
    forall i | 0 <= i < |a + b| ensures fab[i] == (fa + fb)[i] {
      if i < |a| { assert (a + b)[i] == a[i]; } else { assert (a + b)[i] == b[i - |a|]; }
    }
    assert fab == fa + fb;
    DeclarationLines(kind, a);
    DeclarationLines(kind, b);
    DeclarationLines(kind, a + b);
    JoinAppend("\n", fa, fb);
  }

  // -----------------------------------------------------------------------
  // Function declarations (lines 21-31)

  lemma {:induction false} JoinNoNewline(sep: string, parts: seq<string>)
    requires '\n' !in sep
    requires forall i :: 0 <= i < |parts| ==> '\n' !in parts[i]
    ensures '\n' !in Join(sep, parts)
    decreases |parts|
  {
    if |parts| > 1 {
      JoinNoNewline(sep, parts[1..]);
    }
  }

  /** A function is its signature line, then every line of its body indented
      by two blanks, then a line holding only `)`. */
  lemma FunctionLines(name: string, params: seq<string>, body: string)
    requires '\n' !in name
    requires forall i :: 0 <= i < |params| ==> '\n' !in params[i]
    ensures Split('\n', FunctionText(name, params, body))
      == [Signature(name, params)] + Prefixed(Spaces(2), Split('\n', body)) + [")"]
  {
    var sig := Signature(name, params);
    var indented := Prefixed(Spaces(2), Split('\n', body));
    JoinAppend("\n", [sig], indented);
    JoinAppend("\n", [sig] + indented, [")"]);
    var lines := [sig] + indented + [")"];
    assert Join("\n", [sig]) == sig;
    assert Join("\n", [")"]) == ")";
    assert Join("\n", lines) == FunctionText(name, params, body);
    JoinNoNewline(" ", params);
    forall i | 0 <= i < |lines| ensures '\n' !in lines[i] {
      if 0 < i < |lines| - 1 {
        assert lines[i] == Spaces(2) + Split('\n', body)[i - 1];
      }
    }
    SplitJoin('\n', lines);
  }

  /** The parameters sit in the signature in declared order: when there is
      at least one and none holds a blank, splitting the parameter text at
      blanks gives them back; with none, a blank is left before the `)`. */
  lemma SignatureParameters(name: string, params: seq<string>)
    ensures |params| > 0 && (forall i :: 0 <= i < |params| ==> ' ' !in params[i]) ==>
      Split(' ', Join(" ", params)) == params
    ensures |params| == 0 ==> Signature(name, params) == "(define-public (" + name + " )"
  {
    if |params| > 0 && (forall i :: 0 <= i < |params| ==> ' ' !in params[i]) {
      SplitJoin(' ', params);
    }
  }

  // -----------------------------------------------------------------------
  // Calls, arrays, objects (lines 64-76, 128-146)

  /** An array literal is a call of `list`. */
  lemma ListIsCall(elements: seq<string>)
    ensures ListText(elements) == CallText("list", elements)
  {
  }

  /** One more argument goes at the end, after `, `: arguments appear left to
      right. */
  lemma CallArgumentAppended(callee: string, args: seq<string>, a: string)
    requires |args| > 0
    ensures var before := CallText(callee, args);
      CallText(callee, args + [a]) == before[..|before| - 1] + ", " + a + ")"
  {
    JoinSnoc(", ", args, a);
    var before := CallText(callee, args);
    assert before == ("(" + callee + " " + Join(", ", args)) + ")";
    assert before[..|before| - 1] == "(" + callee + " " + Join(", ", args);
  }

  /** One more property goes at the end of the tuple, after `, `: properties
      appear left to right. */
  lemma TuplePairAppended(pairs: seq<string>, p: string)
    requires |pairs| > 0
    ensures var before := TupleText(pairs);
      TupleText(pairs + [p]) == before[..|before| - 2] + ", " + p + "))"
  {
    JoinSnoc(", ", pairs, p);
    var before := TupleText(pairs);
    assert before == ("(tuple (" + Join(", ", pairs)) + "))";
    assert before[..|before| - 2] == "(tuple (" + Join(", ", pairs);
  }

  // -----------------------------------------------------------------------
  // Conditionals (lines 79-97)

  /** An alternate adds `\n(else ALT)` just before the closing parenthesis;
      without one nothing stands in its place. */
  lemma IfAlternateInserted(test: string, consequent: string, alt: string)
    ensures var without := IfText(test, consequent, None);
      && without == "(if " + test + "\n" + consequent + ")"
      && IfText(test, consequent, Some(alt)) == without[..|without| - 1] + "\n(else " + alt + ")" + ")"
  {
    var without := IfText(test, consequent, None);
    var head := "(if " + test + "\n" + consequent;
    assert without == head + "" + ")";
    assert without[..|without| - 1] == head;
  }

  // -----------------------------------------------------------------------
  // Single forms (lines 54-62, 99-126, 148-176, 193-196)

  /** The branches that build one parenthesised form, in terms of `Form`:
      binary and logical expressions are infix, the left operand standing in
      head position and the operator copied unchanged; a unary operator is
      glued to its operand; a member access is a form whose head is
      `OBJ.PROP`. */
  lemma SingleForms(a: string, b: string, op: string)
    ensures AssignmentText(a, b) == Form("=", [a, b])
    ensures InfixText(a, op, b) == Form(a, [op, b])
    ensures UnaryText(op, a) == Form(op + a, [])
    ensures ReturnText(a) == Form("return", [a])
    ensures MemberText(a, b) == Form(a + "." + b, [])
    ensures PrintText(a) == Form("print", [a])
    ensures VarSetText(a, b) == Form("var-set!", [a, b])
    ensures VarGetText(a) == Form("var-get", [a])
    ensures PrincipalText(a) == Form("principal", ["\"" + a + "\""])
  {
    FormArity("=", a, b);
    FormArity(a, op, b);
    FormArity(op + a, a, b);
    FormArity("return", a, b);
    FormArity(a + "." + b, a, b);
    FormArity("print", a, b);
    FormArity("var-set!", a, b);
    FormArity("var-get", a, b);
    FormArity("principal", "\"" + a + "\"", b);
  }

  /** A call is a form whose single argument is the `, `-joined arguments. */
  lemma CallIsForm(callee: string, args: seq<string>)
    ensures CallText(callee, args) == Form(callee, [Join(", ", args)])
  {
    FormArity(callee, Join(", ", args), "");
  }
}
