/**
 The literal branches (transpiler.py lines 178-196) lose nothing: a reader
 takes each literal's text back to the literal node.
 */
module Literals {
  import opened Wrappers
  import opened Decimal
  import opened Ast
  import opened Handlers
  import opened Transpiler

  const PrincipalOpen: string := "(principal \""
  const PrincipalClose: string := "\")"

  /** Reads the text of an Int, UInt, Bool or Principal literal back into the
      node; None for any text none of them produces. */
  function ReadLiteral(s: string): Option<Node> {
    if s == "True" then Some(Bool(true))
    else if s == "False" then Some(Bool(false))
    else if |s| >= |PrincipalOpen| + |PrincipalClose|
            && s[..|PrincipalOpen|] == PrincipalOpen
            && s[|s| - |PrincipalClose|..] == PrincipalClose then
      Some(Principal(s[|PrincipalOpen|..|s| - |PrincipalClose|]))
    else if |s| > 0 && s[|s| - 1] == 'u' then
      (match ParseInt(s[..|s| - 1])
       case Some(v) => Some(UInt(v))
       case None => None)
    else
      (match ParseInt(s)
       case Some(v) => Some(Int(v))
       case None => None)
  }

  /** The first and last characters of a decimal: a digit or `-`, and a digit. */
  lemma DecimalEnds(v: int)
    ensures IsDigit(IntToDecimal(v)[0]) || IntToDecimal(v)[0] == '-'
    ensures IsDigit(IntToDecimal(v)[|IntToDecimal(v)| - 1])
  {
    var s := IntToDecimal(v);
    if v < 0 {
      assert s[|s| - 1] == s[1..][|s| - 2];
    }
  }

  lemma IntReadsBack(v: int)
    ensures ReadLiteral(IntText(v)) == Some(Int(v))
  {
    var s := IntText(v);
    DecimalEnds(v);
    assert s != "True" && s != "False" by {
      assert s[0] != 'T' && s[0] != 'F';
    }
    assert s[0] != '(';
    IntRoundTrip(v);
  }

  lemma UIntReadsBack(v: int)
    ensures ReadLiteral(UIntText(v)) == Some(UInt(v))
  {
    var d := IntToDecimal(v);
    var s := UIntText(v);
    DecimalEnds(v);
    assert s[0] == d[0];
    assert s != "True" && s != "False" by {
      assert s[0] != 'T' && s[0] != 'F';
    }
    assert s[0] != '(';
    assert s[..|s| - 1] == d;
    IntRoundTrip(v);
  }

  lemma PrincipalReadsBack(address: string)
    ensures ReadLiteral(PrincipalText(address)) == Some(Principal(address))
  {
    var s := PrincipalText(address);
    assert s == PrincipalOpen + address + PrincipalClose;
    assert s[0] == '(';
    assert s[..|PrincipalOpen|] == PrincipalOpen;
    assert s[|s| - |PrincipalClose|..] == PrincipalClose;
    assert s[|PrincipalOpen|..|s| - |PrincipalClose|] == address;
  }

  /** Every literal's text reads back to the literal: the encoding is
      injective, and an Int and a UInt of equal value stay apart. */
  lemma LiteralRoundTrip(n: Node)
    requires n.Int? || n.UInt? || n.Bool? || n.Principal?
    ensures ReadLiteral(Render(n).value) == Some(n)
  {
    match n
    case Int(v) =>
      assert Render(n) == Some(IntText(v));
      IntReadsBack(v);
    case UInt(v) =>
      assert Render(n) == Some(UIntText(v));
      UIntReadsBack(v);
    case Bool(b) =>
      assert Render(n) == Some(BoolText(b));
    case Principal(a) =>
      assert Render(n) == Some(PrincipalText(a));
      PrincipalReadsBack(a);
  }

  /** The unary-minus text of a positive literal is the parenthesised text
      of the negative literal. */
  lemma NegatedText(v: int)
    requires v > 0
    ensures UnaryText("-", IntText(v)) == "(" + IntText(-v) + ")"
  {
    var a := IntText(v);
    assert IntText(-v) == "-" + a;
    assert "(" + "-" + a == "(" + ("-" + a);
  }

  /** Negating a positive literal with a unary `-` gives the negative
      literal's text in parentheses: `-5` renders `(-5)`, not `-5`. */
  lemma NegatedLiteral(v: int)
    requires v > 0
    ensures Render(UnaryExpression("-", Int(v))) == Some("(" + Render(Int(-v)).value + ")")
  {
    var n := UnaryExpression("-", Int(v));
    assert Render(n) == Some(RenderExpression(n));
    assert RenderExpression(n) == UnaryText("-", IntText(v));
    NegatedText(v);
  }
}
