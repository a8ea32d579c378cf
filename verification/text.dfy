/**
 Python's string splitting and joining on the generator's separators, and
 `indent_lines` (transpiler.py lines 3-6) built from them.
 */
module Text {

  /** `s.split(c)` in Python for a one-character separator `c`: the pieces
      between occurrences of `c`, in order; always at least one piece. */
  function Split(c: char, s: string): (parts: seq<string>)
    ensures |parts| >= 1
    ensures forall i :: 0 <= i < |parts| ==> c !in parts[i]
    decreases |s|
  {
    if |s| == 0 then [""]
    else
      var rest := Split(c, s[1..]);
      if s[0] == c then [""] + rest
      else [[s[0]] + rest[0]] + rest[1..]
  }

  /** `sep.join(parts)` in Python. */
  function Join(sep: string, parts: seq<string>): string
    decreases |parts|
  {
    if |parts| == 0 then ""
    else if |parts| == 1 then parts[0]
    else parts[0] + sep + Join(sep, parts[1..])
  }

  /** `n` blanks. */
  function Spaces(n: nat): (r: string)
    ensures |r| == n
    ensures forall i :: 0 <= i < n ==> r[i] == ' '
  {
    seq(n, _ => ' ')
  }

  /** Every line of `lines`, with `p` put in front of it. */
  function Prefixed(p: string, lines: seq<string>): (r: seq<string>)
    ensures |r| == |lines|
    ensures forall i :: 0 <= i < |lines| ==> r[i] == p + lines[i]
  {
    seq(|lines|, i requires 0 <= i < |lines| => p + lines[i])
  }

  /** `indent_lines(lines, n)`: each `\n`-separated line of `s` prefixed with
      `n` blanks, the lines joined back with `\n`. */
  function IndentLines(s: string, n: nat): string
  {
    Join("\n", Prefixed(Spaces(n), Split('\n', s)))
  }

  // ---------------------------------------------------------------------
  // Splitting and joining are inverse.

  /** Joining the pieces of a split with the separator gives the string back. */
  lemma {:induction false} JoinSplit(c: char, s: string)
    ensures Join([c], Split(c, s)) == s
    decreases |s|
  {
    if |s| > 0 {
      var rest := Split(c, s[1..]);
      JoinSplit(c, s[1..]);
      if s[0] == c {
        assert ([""] + rest)[1..] == rest;
      } else if |rest| > 1 {
        var parts := [[s[0]] + rest[0]] + rest[1..];
        assert parts[1..] == rest[1..];
        assert s == [s[0]] + s[1..];
      } else {
        assert s == [s[0]] + s[1..];
      }
    }
  }

  /** A piece free of the separator splits to itself. */
  lemma {:induction false} SplitPlain(c: char, p: string)
    requires c !in p
    ensures Split(c, p) == [p]
    decreases |p|
  {
    if |p| > 0 {
      SplitPlain(c, p[1..]);
      assert [p[0]] + p[1..] == p;
    }
  }

  /** Splitting stops at the first separator. */
  lemma {:induction false} SplitAtFirst(c: char, p: string, t: string)
    requires c !in p
    ensures Split(c, p + [c] + t) == [p] + Split(c, t)
    decreases |p|
  {
    var s := p + [c] + t;
    if |p| == 0 {
      assert s[1..] == t;
    } else {
      assert s[1..] == p[1..] + [c] + t;
      SplitAtFirst(c, p[1..], t);
      assert [p[0]] + p[1..] == p;
    }
  }

  /** Splitting a join of separator-free pieces recovers the pieces. */
  lemma {:induction false} SplitJoin(c: char, parts: seq<string>)
    requires |parts| >= 1
    requires forall i :: 0 <= i < |parts| ==> c !in parts[i]
    ensures Split(c, Join([c], parts)) == parts
    decreases |parts|
  {
    if |parts| == 1 {
      SplitPlain(c, parts[0]);
    } else {
      SplitJoin(c, parts[1..]);
      SplitAtFirst(c, parts[0], Join([c], parts[1..]));
      assert [parts[0]] + parts[1..] == parts;
    }
  }

  /** Joining one more piece onto a non-empty list extends the text at its end. */
  lemma {:induction false} JoinSnoc(sep: string, parts: seq<string>, x: string)
    requires |parts| >= 1
    ensures Join(sep, parts + [x]) == Join(sep, parts) + sep + x
    decreases |parts|
  {
    if |parts| > 1 {
      assert (parts + [x])[1..] == parts[1..] + [x];
      JoinSnoc(sep, parts[1..], x);
    } else {
      assert (parts + [x])[1..] == [x];
    }
  }

  /** Joining two non-empty lists is joining their two joins. */
  lemma {:induction false} JoinAppend(sep: string, a: seq<string>, b: seq<string>)
    requires |a| >= 1 && |b| >= 1
    ensures Join(sep, a + b) == Join(sep, a) + sep + Join(sep, b)
    decreases |a|
  {
    if |a| == 1 {
      assert (a + b)[1..] == b;
    } else {
      assert (a + b)[1..] == a[1..] + b;
      JoinAppend(sep, a[1..], b);
    }
  }

  // ---------------------------------------------------------------------
  // indent_lines

  /** Indenting keeps the line structure: the output has exactly as many
      lines as the input, and line i of the output is `n` blanks followed by
      line i of the input. */
  lemma IndentLinesLines(s: string, n: nat)
    ensures Split('\n', IndentLines(s, n)) == Prefixed(Spaces(n), Split('\n', s))
    ensures |Split('\n', IndentLines(s, n))| == |Split('\n', s)|
  {
    var lines := Prefixed(Spaces(n), Split('\n', s));
    forall i | 0 <= i < |lines|
      ensures '\n' !in lines[i]
    {
      assert lines[i] == Spaces(n) + Split('\n', s)[i];
    }
    SplitJoin('\n', lines);
  }

  /** Indenting by nothing changes nothing. */
  lemma IndentLinesZero(s: string)
    ensures IndentLines(s, 0) == s
  {
    var lines := Split('\n', s);
    forall i | 0 <= i < |lines|
      ensures Prefixed(Spaces(0), lines)[i] == lines[i]
    {
      assert Spaces(0) + lines[i] == lines[i];
    }
    assert Prefixed(Spaces(0), lines) == lines;
    JoinSplit('\n', s);
  }

  /** Indenting twice is indenting once by the sum. */
  lemma IndentLinesTwice(s: string, a: nat, b: nat)
    ensures IndentLines(IndentLines(s, a), b) == IndentLines(s, a + b)
  {
    IndentLinesLines(s, a);
    var lines := Split('\n', s);
    assert Spaces(b) + Spaces(a) == Spaces(a + b);
    forall i | 0 <= i < |lines|
      ensures Prefixed(Spaces(b), Prefixed(Spaces(a), lines))[i] == Prefixed(Spaces(a + b), lines)[i]
    {
      assert Spaces(b) + (Spaces(a) + lines[i]) == (Spaces(b) + Spaces(a)) + lines[i];
    }
    assert Prefixed(Spaces(b), Prefixed(Spaces(a), lines)) == Prefixed(Spaces(a + b), lines);
  }
}
