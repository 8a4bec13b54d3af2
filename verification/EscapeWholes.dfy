/**
 * What the automaton takes for one argument, whatever it contains: literals and
 * delimited identifiers, comments, and anything closed between parentheses.
 */
module EscapeWholes {
  import opened Text
  import opened EscapeLexer
  import opened EscapeArguments

  predicate IsQuote(c: char) {
    c == '\'' || c == '"'
  }

  function Inside(q: char): Mode
    requires IsQuote(q)
  {
    if q == '"' then Double else Single
  }

  lemma {:induction false} StaysInside(v: string, q: char, depth: nat)
    requires IsQuote(q)
    ensures var s := Lex(Inside(q), depth, false); Run(s, Doubled(v, q)) == s && NoCut(s, Doubled(v, q))
    decreases |v|
  {
    if v != [] {
      var s := Lex(Inside(q), depth, false);
      StaysInside(v[1..], q, depth);
      var first := if v[0] == q then [q, q] else [v[0]];
      assert Doubled(v, q) == first + Doubled(v[1..], q);
      OneMore(s, v[0], q);
      RunConcat(s, first, Doubled(v[1..], q));
    }
  }

  lemma OneMore(s: Lex, c: char, q: char)
    requires IsQuote(q) && s.mode == Inside(q)
    ensures var first := if c == q then [q, q] else [c]; Run(s, first) == s && NoCut(s, first)
  {
    if c == q {
      RunOne(s, q);
      RunOne(LexStep(s, q), q);
      RunConcat(s, [q], [q]);
      assert [q] + [q] == [q, q];
    } else {
      RunOne(s, c);
    }
  }

  /** A literal or a delimited identifier is one argument, whatever it holds, commas and comments included. */
  lemma QuotedIsWhole(v: string, q: char)
    requires IsQuote(q)
    ensures OneArg([q] + Doubled(v, q) + [q])
  {
    var inside := Lex(Inside(q), 0, false);
    RunOne(START, q);
    StaysInside(v, q, 0);
    RunOne(inside, q);
    RunConcat(START, [q], Doubled(v, q));
    RunConcat(START, [q] + Doubled(v, q), [q]);
  }

  lemma {:induction false} StaysInLine(t: string)
    requires '\n' !in t
    ensures var s := START.(mode := Line); Run(s, t) == s && NoCut(s, t)
    decreases |t|
  {
    if t != [] {
      StaysInLine(t[1..]);
    }
  }

  /** A line comment with the newline that ends it is one argument, whatever it says. */
  lemma LineCommentIsWhole(t: string)
    requires '\n' !in t
    ensures OneArg("--" + t + "\n")
  {
    var s := START.(mode := Line);
    RunOne(START, '-');
    RunOne(START.(mode := Dash), '-');
    RunConcat(START, ['-'], ['-']);
    assert ['-'] + ['-'] == "--";
    StaysInLine(t);
    RunOne(s, '\n');
    RunConcat(START, "--", t);
    RunConcat(START, "--" + t, ['\n']);
  }

  predicate EndsNoComment(t: string) {
    forall i :: 0 <= i < |t| - 1 ==> !(t[i] == '*' && t[i + 1] == '/')
  }

  lemma {:induction false} StaysInBlock(s: Lex, t: string)
    requires s.mode.Block? || (s.mode.Star? && (t == [] || t[0] != '/'))
    requires EndsNoComment(t)
    ensures Run(s, t) in {s.(mode := Block), s.(mode := Star)} && NoCut(s, t)
    decreases |t|
  {
    if t != [] {
      assert forall i :: 0 <= i < |t[1..]| ==> t[1..][i] == t[i + 1];
      StaysInBlock(LexStep(s, t[0]), t[1..]);
    }
  }

  /** A block comment is one argument, whatever it says before it ends. */
  lemma BlockCommentIsWhole(t: string)
    requires EndsNoComment(t)
    ensures OneArg("/*" + t + "*/")
  {
    var s := START.(mode := Block);
    RunOne(START, '/');
    RunOne(START.(mode := Slash), '*');
    RunConcat(START, ['/'], ['*']);
    assert ['/'] + ['*'] == "/*" && ['*'] + ['/'] == "*/";
    StaysInBlock(s, t);
    var inner := Run(s, t);
    RunOne(inner, '*');
    RunOne(START.(mode := Star), '/');
    RunConcat(inner, ['*'], ['/']);
    RunConcat(START, "/*", t);
    RunConcat(START, "/*" + t, "*/");
  }

  /** Anything closed is one argument between parentheses, its commas included. */
  lemma ParenthesesAreWhole(t: string)
    requires Closed(t)
    ensures OneArg("(" + t + ")")
  {
    var after := Run(START, t);
    hide Run, NoCut;
    RunOne(START, '(');
    RunDeeper(START, t, 1);
    var inside := after.(depth := 1);
    RunOne(inside, ')');
    assert LexStep(inside, ')') == START && LexStep(START, '(') == START.(depth := 1);
    RunConcat(START, "(", t);
    RunConcat(START, "(" + t, ")");
  }

  /** And a comma between two arguments is where they are cut apart. */
  lemma CommaCuts(a: string, b: string)
    requires OneArg(a) && OneArg(b)
    ensures Cut(a + "," + b) == [a, b]
  {
    SplitUndoesJoin([a, b]);
    assert Join([a, b]) == a + [','] + b;
  }
}
