/**
 Properties of `traverse_ast` on whole nodes: which tags render, the
 branches whose text is assembled in loops, and how nodes of different
 kinds relate.
 */
module RenderLaws {
  import opened Wrappers
  import opened Text
  import opened Ast
  import opened Handlers
  import opened HandlerLaws
  import opened Transpiler

  /** A well-tagged node renders to text exactly when its tag has a branch
      that returns: Program (lines 18-20) and every tag falling to the
      final `else` (lines 201-202) give None. */
  lemma DispatchByTag(n: Node)
    requires Renderable(n) && WellTagged(n)
    ensures Render(n).Some? <==> Tag(n) in BranchTags - {"Program"}
  {
  }

  /** The branches that loop over a list of children hand their handler the
      children's texts in list order. */
  lemma RenderLists(n: Node)
    requires Renderable(n)
    ensures n.VariableDeclaration? ==>
      Render(n) == Some(DeclarationText(n.kind, Bindings(n.declarations)))
    ensures n.CallExpression? ==>
      Render(n) == Some(CallText(n.callee, RenderedAll(n.arguments)))
    ensures n.ArrayExpression? ==>
      Render(n) == Some(ListText(RenderedAll(n.elements)))
    ensures n.ObjectExpression? ==>
      Render(n) == Some(TupleText(RenderedPairs(n.properties)))
  {
    match n
    case VariableDeclaration(kind, ds) =>
      assert Bindings(ds) == seq(|ds|, i requires 0 <= i < |ds| => Binding(ds[i].id, Show(Render(ds[i].init))));
    case CallExpression(_, args) =>
      assert RenderedAll(args) == seq(|args|, i requires 0 <= i < |args| => Render(args[i]).value);
    case ArrayExpression(es) =>
      assert RenderedAll(es) == seq(|es|, i requires 0 <= i < |es| => Render(es[i]).value);
    case ObjectExpression(ps) =>
      assert RenderedPairs(ps) == seq(|ps|, i requires 0 <= i < |ps| =>
                                        PairText(Show(Render(ps[i].key)), Show(Render(ps[i].value))));
    case _ =>
  }

  /** A constant declaration renders only its last declarator: the same text
      as a declaration of that declarator alone. */
  lemma ConstantDeclarationKeepsLast(ds: seq<Declarator>)
    requires Renderable(VariableDeclaration("const", ds))
    ensures Renderable(VariableDeclaration("const", [ds[|ds| - 1]]))
    ensures Render(VariableDeclaration("const", ds))
      == Some(ConstantForm(Binding(ds[|ds| - 1].id, Show(Render(ds[|ds| - 1].init)))))
    ensures Render(VariableDeclaration("const", ds)) == Render(VariableDeclaration("const", [ds[|ds| - 1]]))
  {
    var d := ds[|ds| - 1];
    var last := [d];
    assert Renderable(d.init);
    assert Renderable(VariableDeclaration("const", last));
    var bs := Bindings(ds);
    var b := Binding(d.id, Show(Render(d.init)));
    assert bs[|ds| - 1] == b;
    assert Bindings(last) == [b];
    RenderLists(VariableDeclaration("const", ds));
    RenderLists(VariableDeclaration("const", last));
    ConstantKeepsLast(bs);
    ConstantKeepsLast([b]);
  }

  /** A non-constant declaration renders `(define-KIND NAME VALUE)` for each
      declarator, in input order, one per line. */
  lemma MutableDeclarationForms(kind: string, ds: seq<Declarator>)
    requires kind != "const"
    requires Renderable(VariableDeclaration(kind, ds))
    ensures Render(VariableDeclaration(kind, ds)) == Some(Join("\n", DefineForms(kind, Bindings(ds))))
    ensures forall i :: 0 <= i < |ds| ==>
      DefineForms(kind, Bindings(ds))[i] == "(define-" + kind + " " + ds[i].id + " " + Show(Render(ds[i].init)) + ")"
  {
    RenderLists(VariableDeclaration(kind, ds));
    DeclarationLines(kind, Bindings(ds));
  }

  /** An array literal renders exactly as a call of `list` on the same
      children. */
  lemma ArrayIsListCall(es: seq<Node>)
    requires Renderable(ArrayExpression(es))
    ensures Renderable(CallExpression("list", es))
    ensures Render(ArrayExpression(es)) == Render(CallExpression("list", es))
  {
    RenderLists(ArrayExpression(es));
    RenderLists(CallExpression("list", es));
    ListIsCall(RenderedAll(es));
  }

  /** Binary and logical expressions with the same fields render alike: no
      operator, `&&` and `||` included, is translated. */
  lemma BinaryLogicalAlike(op: string, left: Node, right: Node)
    requires Renderable(BinaryExpression(op, left, right))
    ensures Renderable(LogicalExpression(op, left, right))
    ensures Render(BinaryExpression(op, left, right)) == Render(LogicalExpression(op, left, right))
  {
  }

  /** Lines 64-76 as written: the arguments are rendered and joined by `, `
      in one pass, then rendered a second time with the results dropped. The
      text is the one the dispatcher gives: the second pass changes nothing. */
  method TraverseCall(callee: string, args: seq<Node>) returns (text: string)
    requires Renderable(CallExpression(callee, args))
    ensures Some(text) == Render(CallExpression(callee, args))
  {
    ghost var rendered := RenderedAll(args);
    var joined := "";
    var i := 0;
    while i < |args|
      invariant 0 <= i <= |args|
      invariant joined == Join(", ", rendered[..i])
    {
      var a := Render(args[i]).value;
      if i == 0 {
        joined := a;
      } else {
        JoinSnoc(", ", rendered[..i], a);
        joined := joined + ", " + a;
      }
      assert rendered[..i + 1] == rendered[..i] + [a];
      i := i + 1;
    }
    assert rendered[..|args|] == rendered;
    text := "(" + callee + " " + joined + ")";
    var j := 0;
    while j < |args|
      invariant 0 <= j <= |args|
    {
      var _ := Render(args[j]);
      j := j + 1;
    }
    RenderLists(CallExpression(callee, args));
  }

  /** Lines 136-146 as written: the properties are visited in order, each
      rendered as `KEY VALUE` and appended to a list, which is then joined by
      `, ` inside `(tuple (` ... `))`. */
  method TraverseObject(ps: seq<Property>) returns (text: string)
    requires Renderable(ObjectExpression(ps))
    ensures Some(text) == Render(ObjectExpression(ps))
  {
    var properties: seq<string> := [];
    var i := 0;
    while i < |ps|
      invariant 0 <= i <= |ps|
      invariant properties == RenderedPairs(ps)[..i]
    {
      var key := Render(ps[i].key);
      var value := Render(ps[i].value);
      properties := properties + [Show(key) + " " + Show(value)];
      i := i + 1;
    }
    assert properties == RenderedPairs(ps);
    text := "(tuple (" + Join(", ", properties) + "))";
    RenderLists(ObjectExpression(ps));
  }
}
