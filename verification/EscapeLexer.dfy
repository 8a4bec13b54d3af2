/**
 * Splitting the argument text of an escaped function call on its top-level
 * commas.
 *
 * `SplitArgs` is the driver's scanner, with its lookahead and its inner loops.
 * It is proved against an automaton that looks at one character at a time and
 * simply toggles at quotes; what splitting guarantees is then proved about the
 * automaton.
 */
module EscapeLexer {
  import opened Text

  /**
   * Where a character stands. `Dash`, `Slash` and `Star` remember one character
   * that may begin or end a comment.
   */
  datatype Mode = Code | Dash | Slash | Single | Double | Line | Block | Star
  {
    predicate IsCode() {
      Code? || Dash? || Slash?
    }
  }

  /** `under` records a closing parenthesis that closed nothing. */
  datatype Lex = Lex(mode: Mode, depth: nat, under: bool)

  const START := Lex(Code, 0, false)

  function CodeStep(s: Lex, c: char): Lex {
    match c
    case '\'' => s.(mode := Single)
    case '"' => s.(mode := Double)
    case '-' => s.(mode := Dash)
    case '/' => s.(mode := Slash)
    case '(' => s.(mode := Code, depth := s.depth + 1)
    case ')' => if s.depth == 0 then s.(mode := Code, under := true) else s.(mode := Code, depth := s.depth - 1)
    case _ => s.(mode := Code)
  }

  function LexStep(s: Lex, c: char): Lex {
    match s.mode
    case Code => CodeStep(s, c)
    case Dash => if c == '-' then s.(mode := Line) else CodeStep(s, c)
    case Slash => if c == '*' then s.(mode := Block) else CodeStep(s, c)
    case Single => if c == '\'' then s.(mode := Code) else s
    case Double => if c == '"' then s.(mode := Code) else s
    case Line => if c == '\n' then s.(mode := Code) else s
    case Block => if c == '*' then s.(mode := Star) else s
    case Star => if c == '/' then s.(mode := Code) else if c == '*' then s else s.(mode := Block)
  }

  function Run(s: Lex, text: string): Lex
    decreases |text|
  {
    if text == [] then s else Run(LexStep(s, text[0]), text[1..])
  }

  /** A comma that separates arguments. */
  predicate Cuts(s: Lex, c: char) {
    c == ',' && s.mode.IsCode() && s.depth == 0
  }

  /** The pieces of `text` from `i` on, the current one having begun at `start`. */
  function Pieces(s: Lex, text: string, start: nat, i: nat): (pieces: seq<string>)
    requires start <= i <= |text|
    ensures |pieces| >= 1
    decreases |text| - i
  {
    if i == |text| then [text[start..]]
    else
      var next := LexStep(s, text[i]);
      if Cuts(s, text[i]) then [text[start..i]] + Pieces(next, text, i + 1, i + 1)
      else Pieces(next, text, start, i + 1)
  }

  function Cut(text: string): (pieces: seq<string>)
    ensures |pieces| >= 1
  {
    Pieces(START, text, 0, 0)
  }

  function Trimmed(pieces: seq<string>): (trimmed: seq<string>)
    ensures |trimmed| == |pieces|
  {
    seq(|pieces|, i requires 0 <= i < |pieces| => Trim(pieces[i]))
  }

  // ----- the scanner

  predicate HasAt(text: string, i: nat, c: char) {
    i < |text| && text[i] == c
  }

  /**
   * Where the scanner decides: in code, where a pending dash or slash does not
   * begin a comment, or on the newline that ends a line comment.
   */
  predicate Resolved(s: Lex, text: string, i: nat) {
    match s.mode
    case Code => true
    case Dash => !HasAt(text, i, '-')
    case Slash => !HasAt(text, i, '*')
    case Line => HasAt(text, i, '\n')
    case _ => false
  }

  /** Inside a literal or comment nothing cuts, so pieces pass through it. */
  lemma PiecesSkip(s: Lex, text: string, start: nat, i: nat)
    requires start <= i < |text| && !Cuts(s, text[i])
    ensures Pieces(s, text, start, i) == Pieces(LexStep(s, text[i]), text, start, i + 1)
  {
  }

  /** What skipping a literal or comment from `i` to `j` must do to the pieces. */
  ghost predicate Skipped(text: string, start: nat, s: Lex, i: nat, t: Lex, j: nat)
    requires start <= i <= |text|
  {
    && i < j
    && if j <= |text| then
         && t.depth == s.depth && (j < |text| ==> Resolved(t, text, j))
         && Pieces(s, text, start, i) == Pieces(t, text, start, j)
       else Pieces(s, text, start, i) == [text[start..]]
  }

  /** From an opening quote past its closing one; a doubled quote stays inside. */
  method SkipQuoted(args: string, at: nat, ghost start: nat, ghost s: Lex) returns (i: nat, ghost t: Lex)
    requires start <= at < |args| && Resolved(s, args, at) && (args[at] == '\'' || args[at] == '"')
    ensures Skipped(args, start, s, at, t, i)
  {
    var quote := args[at];
    i, t := at + 1, LexStep(s, quote);
    while i < |args|
      invariant at < i <= |args|
      invariant t.mode == (if quote == '\'' then Single else Double) && t.depth == s.depth
      invariant Pieces(s, args, start, at) == Pieces(t, args, start, i)
    {
      if args[i] == quote {
        if HasAt(args, i + 1, quote) {
          PiecesSkip(t, args, start, i);
          t := LexStep(t, quote);
          PiecesSkip(t, args, start, i + 1);
          t := LexStep(t, quote);
          i := i + 2;
          continue;
        }
        break;
      }
      PiecesSkip(t, args, start, i);
      i := i + 1;
    }
    if i < |args| {
      PiecesSkip(t, args, start, i);
      t := LexStep(t, quote);
    }
    i := i + 1;
  }

  /** From two dashes up to the newline that ends the comment, or the end. */
  method SkipLineComment(args: string, at: nat, ghost start: nat, ghost s: Lex) returns (i: nat, ghost t: Lex)
    requires start <= at < |args| && Resolved(s, args, at)
    requires args[at] == '-' && HasAt(args, at + 1, '-')
    ensures Skipped(args, start, s, at, t, i)
  {
    i, t := at, s;
    while i < |args| && args[i] != '\n'
      invariant at <= i <= |args| && t.depth == s.depth
      invariant i == at ==> t == s
      invariant i == at + 1 ==> t.mode.Dash?
      invariant i > at + 1 ==> t.mode.Line?
      invariant Pieces(s, args, start, at) == Pieces(t, args, start, i)
    {
      PiecesSkip(t, args, start, i);
      t := LexStep(t, args[i]);
      i := i + 1;
    }
  }

  /** From an opening comment mark past the closing one; the two may not overlap. */
  method SkipBlockComment(args: string, at: nat, ghost start: nat, ghost s: Lex) returns (i: nat, ghost t: Lex)
    requires start <= at < |args| && Resolved(s, args, at)
    requires args[at] == '/' && HasAt(args, at + 1, '*')
    ensures Skipped(args, start, s, at, t, i)
  {
    PiecesSkip(s, args, start, at);
    PiecesSkip(LexStep(s, '/'), args, start, at + 1);
    i, t := at + 2, LexStep(LexStep(s, '/'), '*');
    while i < |args| && !(args[i] == '*' && HasAt(args, i + 1, '/'))
      invariant at < i <= |args| && t.depth == s.depth
      invariant t.mode.Block? || (t.mode.Star? && !HasAt(args, i, '/'))
      invariant Pieces(s, args, start, at) == Pieces(t, args, start, i)
    {
      PiecesSkip(t, args, start, i);
      t := LexStep(t, args[i]);
      i := i + 1;
    }
    if i < |args| {
      PiecesSkip(t, args, start, i);
      t := LexStep(t, '*');
      PiecesSkip(t, args, start, i + 1);
      t := LexStep(t, '/');
    }
    i := i + 2;
  }

  lemma PiecesCut(s: Lex, text: string, start: nat, i: nat, done: seq<string>)
    requires start <= i < |text| && Cuts(s, text[i])
    ensures done + Pieces(s, text, start, i)
         == (done + [text[start..i]]) + Pieces(LexStep(s, text[i]), text, i + 1, i + 1)
  {
    var rest := Pieces(LexStep(s, text[i]), text, i + 1, i + 1);
    assert done + ([text[start..i]] + rest) == (done + [text[start..i]]) + rest;
  }

  /** Any other character: it moves the depth or cuts, and leaves the automaton resolved. */
  lemma OrdinaryStep(s: Lex, args: string, i: nat)
    requires i < |args| && Resolved(s, args, i)
    requires args[i] != '\'' && args[i] != '"'
    requires !(args[i] == '-' && HasAt(args, i + 1, '-')) && !(args[i] == '/' && HasAt(args, i + 1, '*'))
    ensures var t := LexStep(s, args[i]);
            && t.depth == (if args[i] == '(' then s.depth + 1
                           else if args[i] == ')' && s.depth > 0 then s.depth - 1 else s.depth)
            && (i + 1 < |args| ==> Resolved(t, args, i + 1))
            && (Cuts(s, args[i]) <==> args[i] == ',' && s.depth == 0)
  {
  }

  lemma PiecesEnd(s: Lex, text: string, start: nat)
    requires start <= |text|
    ensures Pieces(s, text, start, |text|) == [text[start..]]
  {
  }

  /** The driver's scanner cuts exactly where the automaton does, for every text. */
  method SplitArgs(args: string) returns (parts: seq<string>)
    ensures parts == Trimmed(Cut(args))
  {
    hide Pieces, LexStep, Trim;
    parts := [];
    var depth, start, i := 0, 0, 0;
    ghost var s := START;
    ghost var done: seq<string> := [];
    while i < |args|
      invariant 0 <= start <= |args|
      invariant i <= |args| ==> start <= i && s.depth == depth && (i < |args| ==> Resolved(s, args, i))
      invariant Cut(args) == done + if i <= |args| then Pieces(s, args, start, i) else [args[start..]]
      invariant parts == Trimmed(done)
      decreases |args| - i
    {
      var c := args[i];
      if c == '\'' || c == '"' {
        i, s := SkipQuoted(args, i, start, s);
      } else if c == '-' && HasAt(args, i + 1, '-') {
        i, s := SkipLineComment(args, i, start, s);
      } else if c == '/' && HasAt(args, i + 1, '*') {
        i, s := SkipBlockComment(args, i, start, s);
      } else {
        OrdinaryStep(s, args, i);
        if !Cuts(s, c) {
          PiecesSkip(s, args, start, i);
        }
        if c == '(' {
          depth := depth + 1;
        } else if c == ')' {
          depth := if depth == 0 then 0 else depth - 1;
        } else if c == ',' && depth == 0 {
          PiecesCut(s, args, start, i, done);
          parts := parts + [Trim(args[start..i])];
          done := done + [args[start..i]];
          start := i + 1;
        }
        s := LexStep(s, c);
        i := i + 1;
      }
    }
    PiecesEnd(s, args, start);
    parts := parts + [Trim(args[start..])];
  }
}
