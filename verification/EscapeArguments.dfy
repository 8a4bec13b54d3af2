/**
 * What splitting guarantees, proved about the automaton: it loses nothing, its
 * pieces are whole arguments exactly when the text was closed, and joining
 * whole arguments and splitting again gives them back.
 */
module EscapeArguments {
  import opened Text
  import opened EscapeLexer

  /** Read from `s`, no character of `text` separates arguments. */
  predicate NoCut(s: Lex, text: string)
    decreases |text|
  {
    text == [] || (!Cuts(s, text[0]) && NoCut(LexStep(s, text[0]), text[1..]))
  }

  predicate Settled(s: Lex) {
    s.mode.IsCode() && s.depth == 0 && !s.under
  }

  /** No open literal, comment or parenthesis at the end, and none closed too often. */
  predicate Closed(text: string) {
    Settled(Run(START, text))
  }

  /** One whole argument: closed, with no comma of its own at the top level. */
  predicate OneArg(text: string) {
    Closed(text) && NoCut(START, text)
  }

  predicate EndsInLineComment(text: string) {
    Run(START, text).mode.Line?
  }

  function Join(pieces: seq<string>): string
    requires pieces != []
  {
    if |pieces| == 1 then pieces[0] else pieces[0] + [','] + Join(pieces[1..])
  }

  // ----- reading in two parts

  lemma {:induction false} RunConcat(s: Lex, a: string, b: string)
    ensures Run(s, a + b) == Run(Run(s, a), b)
    ensures NoCut(s, a + b) <==> NoCut(s, a) && NoCut(Run(s, a), b)
    decreases |a|
  {
    if a == [] {
      assert a + b == b;
    } else {
      assert (a + b)[1..] == a[1..] + b;
      RunConcat(LexStep(s, a[0]), a[1..], b);
    }
  }

  lemma RunOne(s: Lex, c: char)
    ensures Run(s, [c]) == LexStep(s, c)
    ensures NoCut(s, [c]) <==> !Cuts(s, c)
  {
    assert [c][1..] == [];
  }

  lemma {:induction false} UnderStays(s: Lex, text: string)
    requires s.under
    ensures Run(s, text).under
    decreases |text|
  {
    if text != [] {
      UnderStays(LexStep(s, text[0]), text[1..]);
    }
  }

  // ----- pieces without indices

  /** The same pieces, with the current one accumulated in `cur`. */
  function CutList(s: Lex, cur: string, rest: string): (pieces: seq<string>)
    ensures |pieces| >= 1
    decreases |rest|
  {
    if rest == [] then [cur]
    else if Cuts(s, rest[0]) then [cur] + CutList(LexStep(s, rest[0]), [], rest[1..])
    else CutList(LexStep(s, rest[0]), cur + [rest[0]], rest[1..])
  }

  lemma {:induction false} PiecesAreCutList(s: Lex, text: string, start: nat, i: nat)
    requires start <= i <= |text|
    ensures Pieces(s, text, start, i) == CutList(s, text[start..i], text[i..])
    decreases |text| - i
  {
    if i == |text| {
      assert text[start..i] == text[start..];
    } else {
      assert text[i..][1..] == text[i + 1..];
      if Cuts(s, text[i]) {
        PiecesAreCutList(LexStep(s, text[i]), text, i + 1, i + 1);
        assert text[i + 1..i + 1] == [];
      } else {
        PiecesAreCutList(LexStep(s, text[i]), text, start, i + 1);
        assert text[start..i + 1] == text[start..i] + [text[i]];
      }
    }
  }

  lemma CutIsCutList(text: string)
    ensures Cut(text) == CutList(START, [], text)
  {
    PiecesAreCutList(START, text, 0, 0);
    assert text[0..0] == [] && text[0..] == text;
  }

  lemma {:induction false} CutListJoins(s: Lex, cur: string, rest: string)
    ensures Join(CutList(s, cur, rest)) == cur + rest
    decreases |rest|
  {
    if rest != [] {
      assert rest == [rest[0]] + rest[1..];
      if Cuts(s, rest[0]) {
        CutListJoins(LexStep(s, rest[0]), [], rest[1..]);
        var later := CutList(LexStep(s, rest[0]), [], rest[1..]);
        assert ([cur] + later)[1..] == later;
      } else {
        CutListJoins(LexStep(s, rest[0]), cur + [rest[0]], rest[1..]);
      }
    }
  }

  /** Splitting loses nothing: the untrimmed pieces joined by commas are the text, for every text. */
  lemma SplitLosesNothing(text: string)
    ensures Join(Cut(text)) == text
  {
    CutIsCutList(text);
    CutListJoins(START, [], text);
  }

  /** Text that does not cut is carried into the current piece. */
  lemma {:induction false} CutListSkips(s: Lex, cur: string, a: string, rest: string)
    requires NoCut(s, a)
    ensures CutList(s, cur, a + rest) == CutList(Run(s, a), cur + a, rest)
    decreases |a|
  {
    if a == [] {
      assert a + rest == rest && cur + a == cur;
    } else {
      assert (a + rest)[1..] == a[1..] + rest;
      CutListSkips(LexStep(s, a[0]), cur + [a[0]], a[1..], rest);
      assert cur + [a[0]] + a[1..] == cur + a;
    }
  }

  lemma CommaStep(s: Lex, c: char)
    requires Settled(s) && c == ','
    ensures Cuts(s, c) && LexStep(s, c) == START
  {
  }

  /** Splitting undoes joining, for whole arguments. */
  lemma {:induction false} SplitUndoesJoin(args: seq<string>)
    requires args != [] && forall i :: 0 <= i < |args| ==> OneArg(args[i])
    ensures Cut(Join(args)) == args
    decreases |args|
  {
    var text := Join(args);
    CutIsCutList(text);
    if |args| == 1 {
      assert args[0] + [] == args[0];
      CutListSkips(START, [], args[0], []);
      assert [] + args[0] == args[0];
    } else {
      var rest := Join(args[1..]);
      SplitUndoesJoin(args[1..]);
      CutIsCutList(rest);
      assert text == args[0] + ([','] + rest);
      CutListSkips(START, [], args[0], [','] + rest);
      assert [] + args[0] == args[0];
      assert ([','] + rest)[1..] == rest;
      var s := Run(START, args[0]);
      CommaStep(s, ',');
      assert CutList(s, args[0], [','] + rest) == [args[0]] + CutList(START, [], rest);
      assert args == [args[0]] + args[1..];
    }
  }

  /** Where each piece of closed text ends, the automaton has settled. */
  lemma {:induction false} PiecesOfClosed(s: Lex, cur: string, rest: string)
    requires s == Run(START, cur) && NoCut(START, cur)
    requires Settled(Run(s, rest))
    ensures forall i :: 0 <= i < |CutList(s, cur, rest)| ==> OneArg(CutList(s, cur, rest)[i])
    decreases |rest|
  {
    if rest != [] {
      var c := rest[0];
      if s.under {
        UnderStays(s, rest);
      }
      if Cuts(s, c) {
        assert OneArg(cur);
        assert LexStep(s, c) == START;
        PiecesOfClosed(START, [], rest[1..]);
      } else {
        RunConcat(START, cur, [c]);
        RunOne(s, c);
        PiecesOfClosed(LexStep(s, c), cur + [c], rest[1..]);
      }
    }
  }

  lemma {:induction false} JoinOfClosed(args: seq<string>)
    requires args != [] && forall i :: 0 <= i < |args| ==> OneArg(args[i])
    ensures Closed(Join(args))
    decreases |args|
  {
    if |args| > 1 {
      var rest := Join(args[1..]);
      JoinOfClosed(args[1..]);
      RunConcat(START, args[0] + [','], rest);
      RunConcat(START, args[0], [',']);
      RunOne(Run(START, args[0]), ',');
    }
  }

  /** A text is closed exactly when every piece it splits into is one whole argument. */
  lemma ClosedIffPiecesWhole(text: string)
    ensures Closed(text) <==> forall i :: 0 <= i < |Cut(text)| ==> OneArg(Cut(text)[i])
  {
    CutIsCutList(text);
    if Closed(text) {
      PiecesOfClosed(START, [], text);
    }
    if forall i :: 0 <= i < |Cut(text)| ==> OneArg(Cut(text)[i]) {
      JoinOfClosed(Cut(text));
      SplitLosesNothing(text);
    }
  }

  // ----- trimming

  lemma SpaceStep(s: Lex, c: char)
    requires IsSpace(c)
    ensures s.mode.IsCode() ==> LexStep(s, c) == s.(mode := Code) && !Cuts(s, c)
    ensures s.mode.Line? ==> LexStep(s, c).mode in {Line, Code}
    ensures !s.mode.IsCode() && !s.mode.Line? ==> !LexStep(s, c).mode.IsCode() && !LexStep(s, c).mode.Line?
    ensures LexStep(s, c).depth == s.depth && LexStep(s, c).under == s.under
  {
  }

  /** Whitespace in code stays in code; it leaves a literal or block comment open; it may close a line comment. */
  lemma {:induction false} SpaceRun(s: Lex, text: string)
    requires AllSpace(text)
    ensures Run(s, text).depth == s.depth && Run(s, text).under == s.under
    ensures s.mode.IsCode() ==> Run(s, text).mode == (if text == [] then s.mode else Code) && NoCut(s, text)
    ensures !s.mode.IsCode() && !s.mode.Line? ==> !Run(s, text).mode.IsCode()
    decreases |text|
  {
    if text != [] {
      SpaceStep(s, text[0]);
      SpaceRun(LexStep(s, text[0]), text[1..]);
    }
  }

  /**
   * Trimming a whole argument leaves a whole argument, unless it removed the
   * newline that ended a line comment.
   */
  lemma TrimmedIsWholeIff(p: string)
    requires OneArg(p)
    ensures OneArg(Trim(p)) <==> !EndsInLineComment(Trim(p))
  {
    var t := Trim(p);
    var before, after := TrimParts(p);
    assert AllSpace(before) && AllSpace(after) by {
      assert forall c :: c in before ==> c in before + after;
      assert forall c :: c in after ==> c in before + after;
    }
    RunConcat(START, before + t, after);
    RunConcat(START, before, t);
    SpaceRun(START, before);
    assert Run(START, before) == START;
    SpaceRun(Run(START, t), after);
  }

  /** The trap: a whole argument list whose trimmed piece is left inside a comment. */
  lemma TrimCanOpenAComment()
    ensures OneArg("a--\n") && Trim("a--\n") == "a--" && EndsInLineComment("a--")
  {
    var s := "a--\n";
    assert IsSpace('\n') && !IsSpace('a') && !IsSpace('-');
    assert s[..3] == "a--";
    assert TrimStart(s) == s && TrimTo(s[..3]) == 3;
    RunOne(START, 'a');
    RunOne(START, '-');
    RunOne(START.(mode := Dash), '-');
    RunOne(START.(mode := Line), '\n');
    assert "a--" == ("a" + "-") + "-" && s == "a--" + "\n";
    RunConcat(START, "a", "-");
    RunConcat(START, "a" + "-", "-");
    RunConcat(START, "a--", "\n");
  }

  /** Joining trimmed whole arguments and splitting gives the same trimmed list back. */
  lemma SplitOfTrimmedJoin(args: seq<string>)
    requires args != []
    requires forall i :: 0 <= i < |args| ==> OneArg(args[i])
    ensures Trimmed(Cut(Join(args))) == Trimmed(args)
  {
    SplitUndoesJoin(args);
  }

  // ----- embedding an argument deeper

  /** A closed text reads the same inside parentheses, only deeper, and cuts nothing there. */
  lemma {:induction false} RunDeeper(s: Lex, text: string, d: nat)
    requires !Run(s, text).under
    ensures Run(s.(depth := s.depth + d), text) == Run(s, text).(depth := Run(s, text).depth + d)
    ensures d > 0 ==> NoCut(s.(depth := s.depth + d), text)
    ensures NoCut(s, text) ==> NoCut(s.(depth := s.depth + d), text)
    decreases |text|
  {
    if text != [] {
      var next := LexStep(s, text[0]);
      if next.under {
        UnderStays(next, text[1..]);
      }
      assert LexStep(s.(depth := s.depth + d), text[0]) == next.(depth := next.depth + d);
      RunDeeper(next, text[1..], d);
    }
  }
}
