/**
 Parenthesis balance of generated text: every `(` is closed by a later `)`
 and no `)` closes nothing. The generator's output is S-expression text, and
 this is the shape every form it emits must keep.
 */
module Parens {
  import opened Wrappers
  import opened Text

  /** The depth after reading one character at depth `d`, or None when a `)`
      has nothing to close. */
  function Move(d: nat, c: char): Option<nat> {
    if c == '(' then Some(d + 1)
    else if c == ')' then (if d == 0 then None else Some(d - 1))
    else Some(d)
  }

  /** Reads `s` left to right from nesting depth `d`; the depth at the end,
      or None as soon as a `)` has nothing to close. */
  function Walk(s: string, d: nat): Option<nat>
    decreases |s|
  {
    if |s| == 0 then Some(d)
    else match Walk(s[..|s| - 1], d)
      case None => None
      case Some(e) => Move(e, s[|s| - 1])
  }

  predicate Balanced(s: string) {
    Walk(s, 0) == Some(0)
  }

  predicate ParenFree(s: string) {
    '(' !in s && ')' !in s
  }

  /** Continues a walk that has not failed. */
  function Then(o: Option<nat>, s: string): Option<nat> {
    match o
    case None => None
    case Some(d) => Walk(s, d)
  }

  lemma WalkChar(c: char, d: nat)
    ensures Walk([c], d) == Move(d, c)
  {
    assert [c][..0] == [];
  }

  lemma {:induction false} WalkConcat(a: string, b: string, d: nat)
    ensures Walk(a + b, d) == Then(Walk(a, d), b)
    decreases |b|
  {
    if |b| > 0 {
      var b' := b[..|b| - 1];
      assert (a + b)[..|a + b| - 1] == a + b';
      assert (a + b)[|a + b| - 1] == b[|b| - 1];
      WalkConcat(a, b', d);
    } else {
      assert a + b == a;
    }
  }

  /** Text without parentheses leaves the depth where it was. */
  lemma {:induction false} WalkParenFree(s: string, d: nat)
    requires ParenFree(s)
    ensures Walk(s, d) == Some(d)
    decreases |s|
  {
    if |s| > 0 {
      var s' := s[..|s| - 1];
      assert s[|s| - 1] in s;
      assert ParenFree(s') by {
        forall i | 0 <= i < |s'| ensures s'[i] != '(' && s'[i] != ')' {
          assert s'[i] == s[i] && s[i] in s;
        }
      }
      WalkParenFree(s', d);
    }
  }

  /** Starting deeper only ends deeper. */
  lemma {:induction false} WalkDeeper(s: string, d: nat, k: nat)
    requires Walk(s, d).Some?
    ensures Walk(s, d + k) == Some(Walk(s, d).value + k)
    decreases |s|
  {
    if |s| > 0 {
      WalkDeeper(s[..|s| - 1], d, k);
    }
  }

  /** Plain text around one opening parenthesis opens one level. */
  lemma Opener(s: string, before: string, after: string, d: nat)
    requires s == before + "(" + after
    requires ParenFree(before) && ParenFree(after)
    ensures Walk(s, d) == Some(d + 1)
  {
    WalkParenFree(before, d);
    WalkChar('(', d);
    WalkParenFree(after, d + 1);
    WalkConcat(before, "(", d);
    WalkConcat(before + "(", after, d);
  }

  /** Plain text followed by one closing parenthesis closes one level. */
  lemma Closer(s: string, before: string, d: nat)
    requires s == before + ")"
    requires ParenFree(before)
    ensures Walk(s, d + 1) == Some(d)
  {
    WalkParenFree(before, d + 1);
    WalkChar(')', d + 1);
    WalkConcat(before, ")", d + 1);
  }

  /** One step of a left-to-right walk over `a + b`. */
  lemma Step(a: string, b: string, d: nat, e: nat, f: nat)
    requires Walk(a, d) == Some(e) && Walk(b, e) == Some(f)
    ensures Walk(a + b, d) == Some(f)
  {
    WalkConcat(a, b, d);
  }

  lemma BalancedAt(s: string, d: nat)
    requires Balanced(s)
    ensures Walk(s, d) == Some(d)
  {
    WalkDeeper(s, 0, d);
  }

  lemma ParenFreeBalanced(s: string)
    requires ParenFree(s)
    ensures Balanced(s)
  {
    WalkParenFree(s, 0);
  }

  lemma BalancedConcat(a: string, b: string)
    requires Balanced(a) && Balanced(b)
    ensures Balanced(a + b)
  {
    WalkConcat(a, b, 0);
  }

  lemma BalancedConcat3(a: string, b: string, c: string)
    requires Balanced(a) && Balanced(b) && Balanced(c)
    ensures Balanced(a + b + c)
  {
    BalancedConcat(a, b);
    BalancedConcat(a + b, c);
  }

  /** A join of balanced pieces with a balanced separator is balanced. */
  lemma {:induction false} BalancedJoin(sep: string, parts: seq<string>)
    requires Balanced(sep)
    requires forall i :: 0 <= i < |parts| ==> Balanced(parts[i])
    ensures Balanced(Join(sep, parts))
    decreases |parts|
  {
    if |parts| == 0 {
    } else if |parts| == 1 {
    } else {
      BalancedJoin(sep, parts[1..]);
      BalancedConcat3(parts[0], sep, Join(sep, parts[1..]));
    }
  }

  /** Putting parenthesis-free prefixes in front of the pieces of a join, with
      a parenthesis-free separator, does not change any walk over it. */
  lemma {:induction false} WalkJoinPrefixed(p: string, sep: string, lines: seq<string>, d: nat)
    requires ParenFree(p) && ParenFree(sep)
    ensures Walk(Join(sep, Prefixed(p, lines)), d) == Walk(Join(sep, lines), d)
    decreases |lines|
  {
    var pl := Prefixed(p, lines);
    if |lines| == 1 {
      WalkConcat(p, lines[0], d);
      WalkParenFree(p, d);
    } else if |lines| > 1 {
      var rest := Join(sep, lines[1..]);
      var prest := Join(sep, pl[1..]);
      assert pl[1..] == Prefixed(p, lines[1..]);
      assert Join(sep, pl) == p + (lines[0] + (sep + prest));
      assert Join(sep, lines) == lines[0] + (sep + rest);
      WalkParenFree(p, d);
      WalkConcat(p, lines[0] + (sep + prest), d);
      WalkConcat(lines[0], sep + prest, d);
      WalkConcat(lines[0], sep + rest, d);
      match Walk(lines[0], d) {
        case None =>
        case Some(e) =>
          WalkParenFree(sep, e);
          WalkConcat(sep, prest, e);
          WalkConcat(sep, rest, e);
          WalkJoinPrefixed(p, sep, lines[1..], e);
      }
    }
  }

  /** Indenting neither opens nor closes anything. */
  lemma IndentLinesWalk(s: string, n: nat, d: nat)
    ensures Walk(IndentLines(s, n), d) == Walk(s, d)
  {
    WalkJoinPrefixed(Spaces(n), "\n", Split('\n', s), d);
    JoinSplit('\n', s);
  }
}
