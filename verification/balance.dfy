/**
 The generator emits well-nested S-expression text: whenever the names,
 operators, kinds and addresses in the tree carry no parentheses of their
 own, every text `traverse_ast` produces is parenthesis-balanced.
 */
module Balance {
  import opened Wrappers
  import opened Text
  import opened Parens
  import opened Decimal
  import opened Ast
  import opened Handlers
  import opened HandlerLaws
  import opened Transpiler
  import RenderLaws

  /** Every string the tree contributes verbatim is free of parentheses. */
  predicate PlainLeaves(n: Node)
    decreases n
  {
    match n
    case Program(statements) =>
      forall i :: 0 <= i < |statements| ==> PlainLeaves(statements[i])
    case FunctionDeclaration(name, params, body) =>
      && ParenFree(name)
      && (forall i :: 0 <= i < |params| ==> ParenFree(params[i]))
      && PlainLeaves(body)
    case VariableDeclaration(kind, ds) =>
      && ParenFree(kind)
      && forall i :: 0 <= i < |ds| ==> ParenFree(ds[i].id) && PlainLeaves(ds[i].init)
    case AssignmentExpression(target, right) => ParenFree(target) && PlainLeaves(right)
    case CallExpression(callee, args) =>
      ParenFree(callee) && forall i :: 0 <= i < |args| ==> PlainLeaves(args[i])
    case IfStatement(test, consequent, alternate) =>
      && PlainLeaves(test)
      && PlainLeaves(consequent)
      && (alternate.Some? ==> PlainLeaves(alternate.value))
    case BinaryExpression(op, left, right) => ParenFree(op) && PlainLeaves(left) && PlainLeaves(right)
    case UnaryExpression(op, argument) => ParenFree(op) && PlainLeaves(argument)
    case LogicalExpression(op, left, right) => ParenFree(op) && PlainLeaves(left) && PlainLeaves(right)
    case ArrayExpression(es) => forall i :: 0 <= i < |es| ==> PlainLeaves(es[i])
    case ObjectExpression(ps) =>
      forall i :: 0 <= i < |ps| ==> PlainLeaves(ps[i].key) && PlainLeaves(ps[i].value)
    case ReturnStatement(argument) => PlainLeaves(argument)
    case MemberExpression(obj, property) => PlainLeaves(obj) && ParenFree(property)
    case Print(message) => PlainLeaves(message)
    case VarSet(name, value) => ParenFree(name) && PlainLeaves(value)
    case VarGet(name) => ParenFree(name)
    case Int(_) => true
    case UInt(_) => true
    case Bool(_) => true
    case Principal(address) => ParenFree(address)
    case Unsupported(_) => true
  }

  // -----------------------------------------------------------------------
  // Each handler keeps balance. Each proof walks the handler's text piece by
  // piece, in the order the text is concatenated.

  /** A walk from depth 1 over `open + s + close` returns to 0 when `open`
      reaches depth 1 from 0, `s` is balanced and `close` closes one level. */
  lemma Enclosed(open: string, s: string, close: string)
    requires Walk(open, 0) == Some(1) && Balanced(s) && Walk(close, 1) == Some(0)
    ensures Balanced(open + s + close)
  {
    BalancedAt(s, 1);
    Step(open, s, 0, 1, 1);
    Step(open + s, close, 0, 1, 0);
  }

  /** An opener followed by plain text is still an opener. */
  lemma OpenerThen(open: string, p: string, d: nat)
    requires Walk(open, 0) == Some(d) && ParenFree(p)
    ensures Walk(open + p, 0) == Some(d)
  {
    WalkParenFree(p, d);
    Step(open, p, 0, d, d);
  }

  lemma Close1()
    ensures Walk(")", 1) == Some(0)
  {
    WalkChar(')', 1);
  }

  lemma IntBalanced(v: int)
    ensures Balanced(IntText(v)) && Balanced(UIntText(v))
  {
    var s := IntToDecimal(v);
    assert ParenFree(s) by {
      forall i | 0 <= i < |s| ensures s[i] != '(' && s[i] != ')' {
        if v < 0 && i > 0 {
          assert s[i] == s[1..][i - 1];
        }
      }
    }
    ParenFreeBalanced(s);
    assert ParenFree(s + "u");
    ParenFreeBalanced(s + "u");
  }

  lemma PrincipalBalanced(address: string)
    requires ParenFree(address)
    ensures Balanced(PrincipalText(address))
  {
    ParenFreeBalanced(address);
    Opener("(principal \"", "", "principal \"", 0);
    Closer("\")", "\"", 0);
    Enclosed("(principal \"", address, "\")");
  }

  lemma FunctionBalanced(name: string, params: seq<string>, body: string)
    requires ParenFree(name)
    requires forall i :: 0 <= i < |params| ==> ParenFree(params[i])
    requires Balanced(body)
    ensures Balanced(FunctionText(name, params, body))
  {
    var joined := Join(" ", params);
    forall i | 0 <= i < |params| ensures Balanced(params[i]) {
      ParenFreeBalanced(params[i]);
    }
    ParenFreeBalanced(" ");
    BalancedJoin(" ", params);
    BalancedAt(joined, 2);
    Opener("(define-public ", "", "define-public ", 0);
    WalkChar('(', 1);
    Step("(define-public ", "(", 0, 1, 2);
    assert "(define-public " + "(" == "(define-public (";
    OpenerThen("(define-public (", name, 2);
    OpenerThen("(define-public (" + name, " ", 2);
    var head := "(define-public (" + name + " ";
    Step(head, joined, 0, 2, 2);
    WalkChar(')', 2);
    Step(head + joined, ")", 0, 2, 1);
    var sig := Signature(name, params);
    OpenerThen(sig, "\n", 1);
    var indented := IndentLines(body, 2);
    IndentLinesWalk(body, 2, 1);
    BalancedAt(body, 1);
    Step(sig + "\n", indented, 0, 1, 1);
    OpenerThen(sig + "\n" + indented, "\n", 1);
    Close1();
    Step(sig + "\n" + indented + "\n", ")", 0, 1, 0);
  }

  lemma DefineFormBalanced(kind: string, b: Binding)
    requires ParenFree(kind) && ParenFree(b.name) && Balanced(b.value)
    ensures Balanced(DefineForm(kind, b))
    ensures Balanced(ConstantForm(b))
  {
    Opener("(define-", "", "define-", 0);
    OpenerThen("(define-", kind, 1);
    OpenerThen("(define-" + kind, " ", 1);
    OpenerThen("(define-" + kind + " ", b.name, 1);
    OpenerThen("(define-" + kind + " " + b.name, " ", 1);
    Close1();
    Enclosed("(define-" + kind + " " + b.name + " ", b.value, ")");
    Opener("(define-constant ", "", "define-constant ", 0);
    OpenerThen("(define-constant ", b.name, 1);
    OpenerThen("(define-constant " + b.name, " ", 1);
    Enclosed("(define-constant " + b.name + " ", b.value, ")");
  }

  lemma DeclarationBalanced(kind: string, bs: seq<Binding>)
    requires kind == "const" ==> |bs| > 0
    requires ParenFree(kind)
    requires forall i :: 0 <= i < |bs| ==> ParenFree(bs[i].name) && Balanced(bs[i].value)
    ensures Balanced(DeclarationText(kind, bs))
  {
    if kind == "const" {
      ConstantKeepsLast(bs);
      DefineFormBalanced(kind, bs[|bs| - 1]);
    } else {
      DeclarationLines(kind, bs);
      var forms := DefineForms(kind, bs);
      forall i | 0 <= i < |forms| ensures Balanced(forms[i]) {
        DefineFormBalanced(kind, bs[i]);
      }
      ParenFreeBalanced("\n");
      BalancedJoin("\n", forms);
    }
  }

  lemma ListsBalanced(callee: string, items: seq<string>)
    requires ParenFree(callee)
    requires forall i :: 0 <= i < |items| ==> Balanced(items[i])
    ensures Balanced(CallText(callee, items))
    ensures Balanced(ListText(items))
    ensures Balanced(TupleText(items))
  {
    var joined := Join(", ", items);
    ParenFreeBalanced(", ");
    BalancedJoin(", ", items);
    Close1();
    Opener("(", "", "", 0);
    OpenerThen("(", callee, 1);
    OpenerThen("(" + callee, " ", 1);
    Enclosed("(" + callee + " ", joined, ")");
    Opener("(list ", "", "list ", 0);
    Enclosed("(list ", joined, ")");
    Opener("(tuple ", "", "tuple ", 0);
    WalkChar('(', 1);
    Step("(tuple ", "(", 0, 1, 2);
    assert "(tuple " + "(" == "(tuple (";
    BalancedAt(joined, 2);
    Step("(tuple (", joined, 0, 2, 2);
    WalkChar(')', 2);
    WalkChar(')', 1);
    Step(")", ")", 2, 1, 0);
    assert ")" + ")" == "))";
    Step("(tuple (" + joined, "))", 0, 2, 0);
  }

  lemma PairBalanced(key: string, value: string)
    requires Balanced(key) && Balanced(value)
    ensures Balanced(PairText(key, value))
  {
    ParenFreeBalanced(" ");
    BalancedConcat3(key, " ", value);
  }

  lemma IfBalanced(test: string, consequent: string, alternate: Option<string>)
    requires Balanced(test) && Balanced(consequent)
    requires alternate.Some? ==> Balanced(alternate.value)
    ensures Balanced(IfText(test, consequent, alternate))
  {
    var elseForm := if alternate.Some? then "\n(else " + alternate.value + ")" else "";
    if alternate.Some? {
      Opener("\n(else ", "\n", "else ", 0);
      Close1();
      Enclosed("\n(else ", alternate.value, ")");
    } else {
      ParenFreeBalanced("");
    }
    Opener("(if ", "", "if ", 0);
    BalancedAt(test, 1);
    Step("(if ", test, 0, 1, 1);
    OpenerThen("(if " + test, "\n", 1);
    BalancedAt(consequent, 1);
    Step("(if " + test + "\n", consequent, 0, 1, 1);
    Close1();
    Enclosed("(if " + test + "\n" + consequent, elseForm, ")");
  }

  lemma InfixBalanced(left: string, op: string, right: string)
    requires Balanced(left) && ParenFree(op) && Balanced(right)
    ensures Balanced(InfixText(left, op, right))
  {
    Opener("(", "", "", 0);
    BalancedAt(left, 1);
    Step("(", left, 0, 1, 1);
    OpenerThen("(" + left, " ", 1);
    OpenerThen("(" + left + " ", op, 1);
    OpenerThen("(" + left + " " + op, " ", 1);
    Close1();
    Enclosed("(" + left + " " + op + " ", right, ")");
  }

  lemma UnaryBalanced(op: string, operand: string)
    requires ParenFree(op) && Balanced(operand)
    ensures Balanced(UnaryText(op, operand))
  {
    Opener("(", "", "", 0);
    OpenerThen("(", op, 1);
    Close1();
    Enclosed("(" + op, operand, ")");
  }

  lemma KeywordFormsBalanced(a: string)
    requires Balanced(a)
    ensures Balanced(ReturnText(a))
    ensures Balanced(PrintText(a))
  {
    Close1();
    Opener("(return ", "", "return ", 0);
    Enclosed("(return ", a, ")");
    Opener("(print ", "", "print ", 0);
    Enclosed("(print ", a, ")");
  }

  lemma MemberBalanced(obj: string, property: string)
    requires Balanced(obj) && ParenFree(property)
    ensures Balanced(MemberText(obj, property))
  {
    Opener("(", "", "", 0);
    BalancedAt(obj, 1);
    Step("(", obj, 0, 1, 1);
    OpenerThen("(" + obj, ".", 1);
    OpenerThen("(" + obj + ".", property, 1);
    Close1();
    Step("(" + obj + "." + property, ")", 0, 1, 0);
  }

  lemma NamedFormsBalanced(name: string, value: string)
    requires ParenFree(name) && Balanced(value)
    ensures Balanced(AssignmentText(name, value))
    ensures Balanced(VarSetText(name, value))
    ensures Balanced(VarGetText(name))
  {
    Close1();
    Opener("(= ", "", "= ", 0);
    OpenerThen("(= ", name, 1);
    OpenerThen("(= " + name, " ", 1);
    Enclosed("(= " + name + " ", value, ")");
    Opener("(var-set! ", "", "var-set! ", 0);
    OpenerThen("(var-set! ", name, 1);
    OpenerThen("(var-set! " + name, " ", 1);
    Enclosed("(var-set! " + name + " ", value, ")");
    Opener("(var-get ", "", "var-get ", 0);
    OpenerThen("(var-get ", name, 1);
    Step("(var-get " + name, ")", 0, 1, 0);
  }

  // -----------------------------------------------------------------------
  // The whole tree.

  /** The branches that render no child: tags without a branch, Program,
      variable reads and literals. */
  lemma LeafBalanced(n: Node)
    requires Renderable(n) && PlainLeaves(n) && !IsStatement(n) && !IsExpression(n)
    ensures Balanced(Show(Render(n)))
  {
    match n
    case Program(_) =>
      ParenFreeBalanced("None");
    case Unsupported(_) =>
      ParenFreeBalanced("None");
    case VarGet(name) =>
      NamedFormsBalanced(name, "") by { ParenFreeBalanced(""); }
    case Int(v) =>
      IntBalanced(v);
    case UInt(v) =>
      IntBalanced(v);
    case Bool(b) =>
      ParenFreeBalanced(BoolText(b));
    case Principal(address) =>
      PrincipalBalanced(address);
  }

  /** Whatever `traverse_ast` returns for a tree with plain leaves -- the text,
      or the `None` a parent splices in -- is parenthesis-balanced. */
  lemma {:induction false} RenderBalanced(n: Node)
    requires Renderable(n) && PlainLeaves(n)
    ensures Balanced(Show(Render(n)))
    decreases n, 2
  {
    if IsStatement(n) {
      StatementBalanced(n);
    } else if IsExpression(n) {
      ExpressionBalanced(n);
    } else {
      LeafBalanced(n);
    }
  }

  lemma {:induction false} StatementBalanced(n: Node)
    requires Renderable(n) && PlainLeaves(n) && IsStatement(n)
    ensures Balanced(RenderStatement(n))
    decreases n, 1
  {
    match n
    case FunctionDeclaration(name, params, body) =>
      RenderBalanced(body);
      FunctionBalanced(name, params, Render(body).value);
    case VariableDeclaration(kind, ds) =>
      var bs := Bindings(ds);
      forall i | 0 <= i < |ds| ensures ParenFree(bs[i].name) && Balanced(bs[i].value) {
        RenderBalanced(ds[i].init);
      }
      DeclarationBalanced(kind, bs);
      RenderLaws.RenderLists(n);
    case AssignmentExpression(target, right) =>
      RenderBalanced(right);
      NamedFormsBalanced(target, Show(Render(right)));
    case IfStatement(test, consequent, alternate) =>
      RenderBalanced(test);
      RenderBalanced(consequent);
      if alternate.Some? {
        RenderBalanced(alternate.value);
      }
      IfBalanced(Show(Render(test)), Show(Render(consequent)),
                 if alternate.Some? then Some(Show(Render(alternate.value))) else None);
    case ReturnStatement(argument) =>
      RenderBalanced(argument);
      KeywordFormsBalanced(Show(Render(argument)));
    case Print(message) =>
      RenderBalanced(message);
      KeywordFormsBalanced(Show(Render(message)));
    case VarSet(name, value) =>
      RenderBalanced(value);
      NamedFormsBalanced(name, Show(Render(value)));
  }

  lemma {:induction false} ExpressionBalanced(n: Node)
    requires Renderable(n) && PlainLeaves(n) && IsExpression(n)
    ensures Balanced(RenderExpression(n))
    decreases n, 1
  {
    match n
    case CallExpression(callee, args) =>
      var items := RenderedAll(args);
      forall i | 0 <= i < |args| ensures Balanced(items[i]) {
        RenderBalanced(args[i]);
      }
      ListsBalanced(callee, items);
      RenderLaws.RenderLists(n);
    case ArrayExpression(es) =>
      var items := RenderedAll(es);
      forall i | 0 <= i < |es| ensures Balanced(items[i]) {
        RenderBalanced(es[i]);
      }
      ListsBalanced("list", items);
      RenderLaws.RenderLists(n);
    case ObjectExpression(ps) =>
      var items := RenderedPairs(ps);
      forall i | 0 <= i < |ps| ensures Balanced(items[i]) {
        RenderBalanced(ps[i].key);
        RenderBalanced(ps[i].value);
        PairBalanced(Show(Render(ps[i].key)), Show(Render(ps[i].value)));
      }
      ListsBalanced("list", items);
      RenderLaws.RenderLists(n);
    case BinaryExpression(op, left, right) =>
      RenderBalanced(left);
      RenderBalanced(right);
      InfixBalanced(Show(Render(left)), op, Show(Render(right)));
    case LogicalExpression(op, left, right) =>
      RenderBalanced(left);
      RenderBalanced(right);
      InfixBalanced(Show(Render(left)), op, Show(Render(right)));
    case UnaryExpression(op, argument) =>
      RenderBalanced(argument);
      UnaryBalanced(op, Show(Render(argument)));
    case MemberExpression(obj, property) =>
      RenderBalanced(obj);
      MemberBalanced(Show(Render(obj)), property);
  }
}
