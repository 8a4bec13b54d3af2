/**
 * The tokens of emitted SQL: a scanner that knows nothing of what emits it, and
 * what it makes of text put together from parts.
 */
module SqlText {
  import opened Wrappers
  import opened Text
  import opened Temporal
  import opened Truncation
  import opened ScalarFn

  /** `Pasted` stands for a whole argument pasted between two parts of a template. */
  datatype Token<A> =
    | Open
    | Close
    | Comma
    | Percent
    | Sign(op: Op)
    | Number(n: nat)
    | Name(word: string)
    | Literal(text: string)
    | Pasted(arg: A)
    | Unknown(c: char)

  predicate IsLetter(c: char) {
    'a' <= c <= 'z' || 'A' <= c <= 'Z' || c == '_'
  }

  function Word(text: string): (word: string)
    ensures word <= text && (|word| < |text| ==> !IsLetter(text[|word|]))
    ensures forall i :: 0 <= i < |word| ==> IsLetter(word[i])
  {
    if text == [] || !IsLetter(text[0]) then [] else [text[0]] + Word(text[1..])
  }

  function Symbol<A>(c: char): Token<A> {
    match c
    case '(' => Open
    case ')' => Close
    case ',' => Comma
    case '%' => Percent
    case '*' => Sign(Mul)
    case '/' => Sign(Div)
    case '+' => Sign(Add)
    case '-' => Sign(Sub)
    case _ => Unknown(c)
  }

  const QUOTE := '\''

  /** A literal ends at the next quote; no template has a quote in one. */
  function Scan<A>(text: string): seq<Token<A>>
    decreases |text|
  {
    if text == [] then []
    else if IsSpace(text[0]) then Scan(text[1..])
    else if IsDigit(text[0]) then
      var run := DigitRun(text);
      assert |run| > 0;
      [Number(Natural(run))] + Scan(text[|run|..])
    else if IsLetter(text[0]) then
      var word := Word(text);
      assert |word| > 0;
      [Name(word)] + Scan(text[|word|..])
    else if text[0] == QUOTE then
      match SplitOnce(text[1..], QUOTE)
      case None => [Unknown(QUOTE)]
      case Some((literal, rest)) => [Literal(literal)] + Scan(rest)
    else [Symbol(text[0])] + Scan(text[1..])
  }

  /** The tokens of an output whose pasted arguments read as `args`, slot by slot. */
  function Read<A>(out: Output, args: seq<seq<Token<A>>>): seq<Token<A>>
    requires |args| == |out.slots|
    decreases |args|
  {
    if out.slots == [] then Scan(out.tail)
    else Scan(out.slots[0].before) + (args[0] + Read(Output(out.slots[1..], out.tail), args[1..]))
  }

  lemma ReadNone<A>(tail: string)
    ensures Read<A>(Output([], tail), []) == Scan<A>(tail)
  {
  }

  lemma ReadOne<A>(slot: Slot, tail: string, arg: seq<Token<A>>)
    ensures Read<A>(Output([slot], tail), [arg]) == Scan<A>(slot.before) + (arg + Scan<A>(tail))
  {
    hide Scan;
    assert [slot][1..] == [] && [arg][1..] == [];
    ReadNone<A>(tail);
  }

  lemma ReadTwo<A>(a: Slot, b: Slot, tail: string, x: seq<Token<A>>, y: seq<Token<A>>)
    ensures Read<A>(Output([a, b], tail), [x, y])
         == Scan<A>(a.before) + (x + (Scan<A>(b.before) + (y + Scan<A>(tail))))
  {
    hide Scan;
    assert [a, b][1..] == [b] && [x, y][1..] == [y];
    ReadOne(b, tail, y);
  }

  lemma ReadThree<A>(a: Slot, b: Slot, c: Slot, tail: string, x: seq<Token<A>>, y: seq<Token<A>>, z: seq<Token<A>>)
    ensures Read<A>(Output([a, b, c], tail), [x, y, z])
         == Scan<A>(a.before) + (x + (Scan<A>(b.before) + (y + (Scan<A>(c.before) + (z + Scan<A>(tail))))))
  {
    hide Scan;
    assert [a, b, c][1..] == [b, c] && [x, y, z][1..] == [y, z];
    ReadTwo(b, c, tail, y, z);
  }

  // ----- scanning part by part

  lemma ScanNothing<A>()
    ensures Scan<A>([]) == []
  {
  }

  lemma ScanSymbol<A>(c: char, text: string)
    requires !IsSpace(c) && !IsDigit(c) && !IsLetter(c) && c != QUOTE
    ensures Scan<A>([c] + text) == [Symbol<A>(c)] + Scan<A>(text)
  {
    assert ([c] + text)[1..] == text;
  }

  lemma ScanSpace<A>(text: string)
    ensures Scan<A>([' '] + text) == Scan<A>(text)
  {
    assert ([' '] + text)[1..] == text && IsSpace(' ');
  }

  lemma {:induction false} WordAt(w: string, text: string)
    requires forall i :: 0 <= i < |w| ==> IsLetter(w[i])
    requires text == [] || !IsLetter(text[0])
    ensures Word(w + text) == w
  {
    if w == [] {
      assert w + text == text;
    } else {
      assert (w + text)[1..] == w[1..] + text;
      WordAt(w[1..], text);
    }
  }

  lemma ScanWord<A>(w: string, text: string)
    requires w != [] && forall i :: 0 <= i < |w| ==> IsLetter(w[i])
    requires text == [] || !IsLetter(text[0])
    ensures Scan<A>(w + text) == [Name(w)] + Scan<A>(text)
  {
    WordAt(w, text);
    assert forall c :: IsLetter(c) ==> !IsSpace(c) && !IsDigit(c);
    assert (w + text)[0] == w[0] && (w + text)[|w|..] == text;
  }

  lemma {:induction false} RunAt(digits: string, text: string)
    requires AllDigits(digits) && (text == [] || !IsDigit(text[0]))
    ensures DigitRun(digits + text) == digits
  {
    if digits == [] {
      assert digits + text == text;
    } else {
      assert (digits + text)[1..] == digits[1..] + text;
      RunAt(digits[1..], text);
    }
  }

  lemma ScanNumber<A>(n: nat, text: string)
    requires text == [] || !IsDigit(text[0])
    ensures Scan<A>(Show(n) + text) == [Number(n)] + Scan<A>(text)
  {
    hide Show;
    var s := Show(n);
    RunAt(s, text);
    assert forall c :: IsDigit(c) ==> !IsSpace(c);
    assert (s + text)[0] == s[0] && (s + text)[|s|..] == text;
  }

  lemma ScanLiteral<A>(literal: string, text: string)
    requires QUOTE !in literal
    ensures Scan<A>([QUOTE] + (literal + ([QUOTE] + text))) == [Literal(literal)] + Scan<A>(text)
  {
    hide SplitOnce;
    var s := [QUOTE] + (literal + ([QUOTE] + text));
    assert s[1..] == literal + [QUOTE] + text;
    assert !IsSpace(QUOTE) && !IsDigit(QUOTE) && !IsLetter(QUOTE);
    SplitOnceAt(literal, QUOTE, text);
  }

  /** A name and its opening parenthesis. */
  lemma ScanCall<A>(w: string, text: string)
    requires w != [] && forall i :: 0 <= i < |w| ==> IsLetter(w[i])
    ensures Scan<A>(w + (['('] + text)) == [Name(w), Open] + Scan<A>(text)
  {
    hide Scan;
    ScanWord<A>(w, ['('] + text);
    ScanSymbol<A>('(', text);
  }
}
