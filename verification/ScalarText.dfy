/**
 * What the rewritten scalar functions mean: the emitted text is scanned, parsed
 * and evaluated as the coordinator would, and its value is the one ODBC gives
 * the function it was rewritten from.
 */
module ScalarText {
  import opened Wrappers
  import opened Text
  import opened Truncation
  import opened ScalarFn
  import opened SqlText

  /** An argument is read as a whole, by its text. */
  type Tokens = seq<Token<string>>

  datatype Expr =
    | Argument(text: string)
    | Numeral(n: nat)
    | Quote(text: string)
    | Keyword(word: string)
    | Call(name: string, args: seq<Expr>)
    | Position(needle: Expr, haystack: Expr)
    | Cast(value: Expr, target: string)
    | Remainder(a: Expr, b: Expr)
    | Plus(a: Expr, b: Expr)

  // ----- the parser

  type Answer = Option<(Expr, Tokens)>

  function Term(ts: Tokens): (r: Answer)
    ensures r.Some? ==> |r.value.1| < |ts|
    decreases |ts|, 0
  {
    if ts == [] then None
    else match ts[0]
      case Pasted(text) => Some((Argument(text), ts[1..]))
      case Number(n) => Some((Numeral(n), ts[1..]))
      case Literal(text) => Some((Quote(text), ts[1..]))
      case Open => BeforeClose(Sum(ts[1..]))
      case Name(word) =>
        if |ts| < 2 || ts[1] != Open then Some((Keyword(word), ts[1..]))
        else if word == "position" then InCall(Term(ts[2..]), ts)
        else if word == "CAST" then AsCall(Term(ts[2..]))
        else if |ts| >= 3 && ts[2] == Close then Some((Call(word, []), ts[3..]))
        else (match Arguments(ts[2..]) case None => None case Some((args, rest)) => Some((Call(word, args), rest)))
      case _ => None
  }

  function BeforeClose(e: Answer): (r: Answer)
    ensures r.Some? ==> e.Some? && |r.value.1| < |e.value.1|
  {
    match e
    case Some((x, rest)) => if rest != [] && rest[0] == Close then Some((x, rest[1..])) else None
    case None => None
  }

  /** `needle IN haystack)` after the needle. */
  function InCall(needle: Answer, ts: Tokens): (r: Answer)
    requires needle.Some? ==> |needle.value.1| < |ts|
    ensures r.Some? ==> |r.value.1| < |ts|
    decreases |ts|, 0, 0
  {
    match needle
    case None => None
    case Some((a, rest)) =>
      if rest == [] || rest[0] != Name("IN") then None
      else match BeforeClose(Term(rest[1..]))
        case None => None
        case Some((b, after)) => Some((Position(a, b), after))
  }

  /** `value AS target)` after the value. */
  function AsCall(value: Answer): (r: Answer)
    ensures r.Some? ==> value.Some? && |r.value.1| < |value.value.1|
  {
    match value
    case None => None
    case Some((x, rest)) =>
      if |rest| >= 3 && rest[0] == Name("AS") && rest[1].Name? && rest[2] == Close
      then Some((Cast(x, rest[1].word), rest[3..])) else None
  }

  /** One term, or two with one operator between them; more are not emitted. */
  function Sum(ts: Tokens): (r: Answer)
    ensures r.Some? ==> |r.value.1| < |ts|
    decreases |ts|, 1
  {
    match Term(ts)
    case None => None
    case Some((a, rest)) =>
      if rest == [] || (rest[0] != Percent && rest[0] != Sign(Add)) then Some((a, rest))
      else match Term(rest[1..])
        case None => None
        case Some((b, after)) => Some((if rest[0] == Percent then Remainder(a, b) else Plus(a, b), after))
  }

  function Arguments(ts: Tokens): (r: Option<(seq<Expr>, Tokens)>)
    ensures r.Some? ==> |r.value.1| < |ts|
    decreases |ts|, 1
  {
    match Term(ts)
    case None => None
    case Some((a, rest)) =>
      if rest == [] then None
      else if rest[0] == Close then Some(([a], rest[1..]))
      else if rest[0] != Comma then None
      else match Arguments(rest[1..])
        case None => None
        case Some((more, after)) => Some(([a] + more, after))
  }

  function Parsed(ts: Tokens): Option<Expr> {
    match Term(ts)
    case None => None
    case Some((e, rest)) => if rest == [] then Some(e) else None
  }

  /** Each slot's argument as one token. */
  function Given(out: Output): seq<Tokens> {
    seq(|out.slots|, k requires 0 <= k < |out.slots| => [Pasted(out.slots[k].arg)])
  }

  /** The expression an emitted text is. */
  function Meaning(out: Output): Option<Expr> {
    Parsed(Read(out, Given(out)))
  }

  // ----- parsing the shapes that are emitted

  lemma TermPasted(a: string, rest: Tokens)
    ensures Term([Pasted(a)] + rest) == Some((Argument(a), rest))
  {
    assert ([Pasted(a)] + rest)[1..] == rest;
  }

  lemma TermLiteral(text: string, rest: Tokens)
    ensures Term([Literal(text)] + rest) == Some((Quote(text), rest))
  {
    assert ([Literal(text)] + rest)[1..] == rest;
  }

  lemma TermNumber(n: nat, rest: Tokens)
    ensures Term([Number(n)] + rest) == Some((Numeral(n), rest))
  {
    assert ([Number(n)] + rest)[1..] == rest;
  }

  /** The last argument of a call, and one with more behind it. */
  lemma LastArgument(first: Tokens, e: Expr, rest: Tokens)
    requires Term(first + ([Close] + rest)) == Some((e, [Close] + rest))
    ensures Arguments(first + ([Close] + rest)) == Some(([e], rest))
  {
    hide Term;
    assert ([Close] + rest)[1..] == rest;
  }

  lemma NextArgument(first: Tokens, e: Expr, others: Tokens, more: seq<Expr>, rest: Tokens)
    requires Term(first + ([Comma] + others)) == Some((e, [Comma] + others))
    requires Arguments(others) == Some((more, rest))
    ensures Arguments(first + ([Comma] + others)) == Some(([e] + more, rest))
  {
    hide Term;
    assert ([Comma] + others)[1..] == others;
  }

  lemma TermCall(name: string, ts: Tokens, args: seq<Expr>, rest: Tokens)
    requires name != "position" && name != "CAST" && ts != [] && ts[0] != Close
    requires Arguments(ts) == Some((args, rest))
    ensures Term([Name(name), Open] + ts) == Some((Call(name, args), rest))
  {
    hide Arguments;
    assert ([Name(name), Open] + ts)[2..] == ts;
  }

  lemma TermOpens(ts: Tokens, e: Expr, rest: Tokens)
    requires Sum(ts) == Some((e, [Close] + rest))
    ensures Term([Open] + ts) == Some((e, rest))
  {
    hide Sum;
    assert ([Open] + ts)[1..] == ts && ([Close] + rest)[1..] == rest;
  }

  lemma SumTakes(ts: Tokens, a: Expr, op: Token<string>, others: Tokens, b: Expr, rest: Tokens)
    requires op == Percent || op == Sign(Add)
    requires Term(ts) == Some((a, [op] + others)) && Term(others) == Some((b, rest))
    ensures Sum(ts) == Some((if op == Percent then Remainder(a, b) else Plus(a, b), rest))
  {
    hide Term;
    assert ([op] + others)[1..] == others;
  }

  // ----- what each emitted text reads as

  const BLANK := " "

  /** `position(needle IN haystack)`. */
  lemma LocateReads(needle: string, haystack: string)
    ensures Meaning(Output([Slot("position(", needle), Slot(" IN ", haystack)], ")"))
         == Some(Position(Argument(needle), Argument(haystack)))
  {
    hide Scan, Term;
    var out := Output([Slot("position(", needle), Slot(" IN ", haystack)], ")");
    assert Given(out) == [[Pasted(needle)], [Pasted(haystack)]];
    ReadTwo<string>(out.slots[0], out.slots[1], ")", [Pasted(needle)], [Pasted(haystack)]);
    ScanLocate();
    var behind: Tokens := [Pasted(haystack)] + ([Close] + []);
    var ts := [Name("position"), Open] + ([Pasted(needle)] + ([Name("IN")] + behind));
    assert Read(out, Given(out)) == ts;
    TermPasted(needle, [Name("IN")] + behind);
    TermPasted(haystack, [Close] + []);
    PositionReads(Argument(needle), [Pasted(needle)] + ([Name("IN")] + behind), Argument(haystack), behind);
  }

  lemma PositionReads(a: Expr, ts: Tokens, b: Expr, behind: Tokens)
    requires Term(ts) == Some((a, [Name("IN")] + behind)) && Term(behind) == Some((b, [Close] + []))
    ensures Term([Name("position"), Open] + ts) == Some((Position(a, b), []))
  {
    var all := [Name("position"), Open] + ts;
    assert all[2..] == ts && all[0] == Name("position") && all[1] == Open;
    assert ([Name("IN")] + behind)[1..] == behind;
    var close: Tokens := [Close] + [];
    assert close[1..] == [];
    hide Term;
    TermOfPosition(all);
  }

  lemma TermOfPosition(all: Tokens)
    requires |all| >= 2 && all[0] == Name("position") && all[1] == Open
    ensures Term(all) == InCall(Term(all[2..]), all)
  {
  }

  lemma ScanLocate()
    ensures Scan<string>("position(") == [Name("position"), Open]
    ensures Scan<string>(" IN ") == [Name("IN")] && Scan<string>(")") == [Close]
  {
    hide Scan, Word;
    ScanNothing<string>();
    assert "position(" == "position" + (['('] + []);
    ScanCall<string>("position", []);
    assert " IN " == [' '] + ("IN" + ([' '] + []));
    ScanSpace<string>("IN" + ([' '] + []));
    ScanWord<string>("IN", [' '] + []);
    ScanSpace<string>([]);
    assert ")" == [')'] + [];
    ScanSymbol<string>(')', []);
  }

  /** `, ' ')` and what follows it. */
  lemma ScanBlank(text: string)
    ensures Scan<string>([','] + ([' '] + ([QUOTE] + (BLANK + ([QUOTE] + text))))) == [Comma, Literal(BLANK)] + Scan<string>(text)
  {
    hide Scan;
    var rest := [QUOTE] + (BLANK + ([QUOTE] + text));
    ScanSymbol<string>(',', [' '] + rest);
    ScanSpace<string>(rest);
    ScanLiteral<string>(BLANK, text);
  }

  lemma ScanTrims()
    ensures Scan<string>(", ' ')") == [Comma, Literal(BLANK), Close]
    ensures Scan<string>(", ' '))") == [Comma, Literal(BLANK), Close, Close]
    ensures Scan<string>("ltrim(") == [Name("ltrim"), Open] && Scan<string>("rtrim(") == [Name("rtrim"), Open]
    ensures Scan<string>("length(rtrim(") == [Name("length"), Open, Name("rtrim"), Open]
  {
    hide Scan, Word;
    ScanNothing<string>();
    ScanSymbol<string>(')', []);
    ScanSymbol<string>(')', [')'] + []);
    ScanBlank([')'] + []);
    ScanBlank([')'] + ([')'] + []));
    assert ", ' ')" == [','] + ([' '] + ([QUOTE] + (BLANK + ([QUOTE] + ([')'] + [])))));
    assert ", ' '))" == [','] + ([' '] + ([QUOTE] + (BLANK + ([QUOTE] + ([')'] + ([')'] + []))))));
    assert "ltrim(" == "ltrim" + (['('] + []) && "rtrim(" == "rtrim" + (['('] + []);
    assert "length(rtrim(" == "length" + (['('] + "rtrim(");
    ScanCall<string>("ltrim", []);
    ScanCall<string>("rtrim", []);
    ScanCall<string>("length", "rtrim(");
  }

  /** A trim of one argument by one blank, in front of anything. */
  lemma TrimReads(name: string, arg: string, rest: Tokens)
    requires name != "position" && name != "CAST"
    ensures Term([Name(name), Open] + ([Pasted(arg)] + ([Comma] + ([Literal(BLANK)] + ([Close] + rest)))))
         == Some((Call(name, [Argument(arg), Quote(BLANK)]), rest))
  {
    hide Term, Arguments;
    TermPasted(arg, [Comma] + ([Literal(BLANK)] + ([Close] + rest)));
    TermLiteral(BLANK, [Close] + rest);
    LastArgument([Literal(BLANK)], Quote(BLANK), rest);
    NextArgument([Pasted(arg)], Argument(arg), [Literal(BLANK)] + ([Close] + rest), [Quote(BLANK)], rest);
    TermCall(name, [Pasted(arg)] + ([Comma] + ([Literal(BLANK)] + ([Close] + rest))), [Argument(arg)] + [Quote(BLANK)], rest);
    assert [Argument(arg)] + [Quote(BLANK)] == [Argument(arg), Quote(BLANK)];
  }

  /** `ltrim(arg, ' ')` and `rtrim(arg, ' ')`. */
  lemma TrimmingReads(name: string, arg: string)
    requires name == "ltrim" || name == "rtrim"
    ensures Meaning(Output([Slot(name + "(", arg)], ", ' ')")) == Some(Call(name, [Argument(arg), Quote(BLANK)]))
  {
    hide Scan, Term;
    var out := Output([Slot(name + "(", arg)], ", ' ')");
    assert Given(out) == [[Pasted(arg)]];
    ReadOne<string>(out.slots[0], out.tail, [Pasted(arg)]);
    ScanTrims();
    assert "ltrim" + "(" == "ltrim(" && "rtrim" + "(" == "rtrim(";
    assert Read(out, Given(out))
        == [Name(name), Open] + ([Pasted(arg)] + ([Comma] + ([Literal(BLANK)] + ([Close] + []))));
    TrimReads(name, arg, []);
  }

  /** `length(rtrim(arg, ' '))`. */
  lemma LengthReads(arg: string)
    ensures Meaning(Output([Slot("length(rtrim(", arg)], ", ' '))"))
         == Some(Call("length", [Call("rtrim", [Argument(arg), Quote(BLANK)])]))
  {
    hide Scan, Term, Arguments;
    var out := Output([Slot("length(rtrim(", arg)], ", ' '))");
    assert Given(out) == [[Pasted(arg)]];
    ReadOne<string>(out.slots[0], out.tail, [Pasted(arg)]);
    ScanTrims();
    var call := [Name("rtrim"), Open] + ([Pasted(arg)] + ([Comma] + [Literal(BLANK), Close]));
    assert [Name("rtrim"), Open] + ([Pasted(arg)] + ([Comma] + ([Literal(BLANK)] + ([Close] + ([Close] + [])))))
        == call + ([Close] + []);
    assert Read(out, Given(out)) == [Name("length"), Open] + (call + ([Close] + []));
    TrimReads("rtrim", arg, [Close] + []);
    LastArgument(call, Call("rtrim", [Argument(arg), Quote(BLANK)]), []);
    TermCall("length", call + ([Close] + []), [Call("rtrim", [Argument(arg), Quote(BLANK)])], []);
  }

  lemma ScanDated(word: string, unit: string)
    requires word == "date_add" || word == "date_diff"
    requires QUOTE !in unit
    ensures Scan<string>(word + "('" + unit + "', ") == [Name(word), Open, Literal(unit), Comma]
    ensures Scan<string>(", ") == [Comma] && Scan<string>(")") == [Close]
  {
    hide Scan, Word;
    ScanNothing<string>();
    var after := [','] + ([' '] + []);
    assert word + "('" + unit + "', " == word + (['('] + ([QUOTE] + (unit + ([QUOTE] + after))));
    ScanCall<string>(word, [QUOTE] + (unit + ([QUOTE] + after)));
    ScanLiteral<string>(unit, after);
    ScanSymbol<string>(',', [' '] + []);
    ScanSpace<string>([]);
    assert ", " == after && ")" == [')'] + [];
    ScanSymbol<string>(')', []);
  }

  /** `date_add('unit', a, b)` and `date_diff('unit', a, b)`. */
  lemma DatedReads(word: string, unit: string, a: string, b: string)
    requires word == "date_add" || word == "date_diff"
    requires QUOTE !in unit
    ensures Meaning(Output([Slot(word + "('" + unit + "', ", a), Slot(", ", b)], ")"))
         == Some(Call(word, [Quote(unit), Argument(a), Argument(b)]))
  {
    hide Scan, Term, Arguments;
    var out := Output([Slot(word + "('" + unit + "', ", a), Slot(", ", b)], ")");
    assert Given(out) == [[Pasted(a)], [Pasted(b)]];
    ReadTwo<string>(out.slots[0], out.slots[1], ")", [Pasted(a)], [Pasted(b)]);
    ScanDated(word, unit);
    var second: Tokens := [Pasted(b)] + ([Close] + []);
    var first: Tokens := [Pasted(a)] + ([Comma] + second);
    assert Read(out, Given(out)) == [Name(word), Open] + ([Literal(unit)] + ([Comma] + first));
    TermPasted(b, [Close] + []);
    LastArgument([Pasted(b)], Argument(b), []);
    TermPasted(a, [Comma] + second);
    NextArgument([Pasted(a)], Argument(a), second, [Argument(b)], []);
    TermLiteral(unit, [Comma] + first);
    NextArgument([Literal(unit)], Quote(unit), first, [Argument(a)] + [Argument(b)], []);
    assert [Quote(unit)] + ([Argument(a)] + [Argument(b)]) == [Quote(unit), Argument(a), Argument(b)];
    TermCall(word, [Literal(unit)] + ([Comma] + first), [Quote(unit), Argument(a), Argument(b)], []);
  }

  lemma ScanCast()
    ensures Scan<string>("CAST(") == [Name("CAST"), Open]
  {
    hide Scan, Word;
    ScanNothing<string>();
    assert "CAST(" == "CAST" + (['('] + []);
    ScanCall<string>("CAST", []);
  }

  lemma ScanLastWord(word: string)
    requires word != [] && forall i :: 0 <= i < |word| ==> IsLetter(word[i])
    ensures Scan<string>(word + [')']) == [Name(word), Close]
  {
    hide Scan, Word;
    ScanNothing<string>();
    ScanSymbol<string>(')', []);
    assert [')'] + [] == [')'];
    ScanWord<string>(word, [')']);
  }

  lemma ScanAs(text: string)
    ensures Scan<string>([' '] + ("AS" + ([' '] + text))) == [Name("AS")] + Scan<string>(text)
  {
    hide Scan, Word;
    ScanSpace<string>("AS" + ([' '] + text));
    ScanWord<string>("AS", [' '] + text);
    ScanSpace<string>(text);
  }

  lemma ScanTarget(target: string)
    requires target != [] && forall i :: 0 <= i < |target| ==> IsLetter(target[i])
    ensures Scan<string>(" AS " + target + ")") == [Name("AS"), Name(target), Close]
  {
    hide Scan, Word, IsLetter;
    AsText(target);
    ScanAs(target + [')']);
    ScanLastWord(target);
  }

  lemma AsText(target: string)
    ensures " AS " + target + ")" == [' '] + ("AS" + ([' '] + (target + [')'])))
  {
    assert " AS " == [' '] + ("AS" + [' ']);
  }

  /** `CAST(value AS target)`. */
  lemma CastReads(value: string, target: string)
    requires target != [] && forall i :: 0 <= i < |target| ==> IsLetter(target[i])
    ensures Meaning(Output([Slot("CAST(", value)], " AS " + target + ")")) == Some(Cast(Argument(value), target))
  {
    hide Scan, Term;
    var out := Output([Slot("CAST(", value)], " AS " + target + ")");
    assert Given(out) == [[Pasted(value)]];
    ReadOne<string>(out.slots[0], out.tail, [Pasted(value)]);
    ScanCast();
    ScanTarget(target);
    var behind: Tokens := [Name("AS"), Name(target), Close];
    var inside := [Pasted(value)] + behind;
    var all := [Name("CAST"), Open] + inside;
    assert Read(out, Given(out)) == all;
    assert all[2..] == inside && behind[3..] == [];
    TermPasted(value, behind);
    TermOfCast(all);
  }

  lemma TermOfCast(all: Tokens)
    requires |all| >= 2 && all[0] == Name("CAST") && all[1] == Open
    ensures Term(all) == AsCall(Term(all[2..]))
  {
  }

  /** A bare keyword. */
  lemma KeywordReads(word: string)
    requires word != [] && forall i :: 0 <= i < |word| ==> IsLetter(word[i])
    ensures Meaning(Output([], word)) == Some(Keyword(word))
  {
    hide Scan;
    ReadNone<string>(word);
    ScanNothing<string>();
    assert word + [] == word;
    ScanWord<string>(word, []);
    assert Given(Output([], word)) == [];
  }

  /** `random()`. */
  lemma RandomReads()
    ensures Meaning(Output([], "random()")) == Some(Call("random", []))
  {
    hide Scan;
    ReadNone<string>("random()");
    ScanNothing<string>();
    assert "random()" == "random" + (['('] + ([')'] + []));
    ScanCall<string>("random", [')'] + []);
    ScanSymbol<string>(')', []);
    assert Given(Output([], "random()")) == [];
    var all: Tokens := [Name("random"), Open, Close];
    assert Read(Output([], "random()"), []) == all && all[3..] == [];
  }

  lemma ScanDay()
    ensures Scan<string>("((day_of_week(") == [Open, Open, Name("day_of_week"), Open]
    ensures Scan<string>(") % 7) + 1)") == [Close, Percent, Number(7), Close, Sign(Add), Number(1), Close]
  {
    hide Scan, Word;
    ScanNothing<string>();
    assert "((day_of_week(" == ['('] + (['('] + ("day_of_week" + (['('] + [])));
    ScanSymbol<string>('(', ['('] + ("day_of_week" + (['('] + [])));
    ScanSymbol<string>('(', "day_of_week" + (['('] + []));
    ScanCall<string>("day_of_week", []);
    var last := [' '] + (['+'] + ([' '] + ("1" + ([')'] + []))));
    var middle := [' '] + (['%'] + ([' '] + ("7" + ([')'] + last))));
    assert ") % 7) + 1)" == [')'] + middle;
    ScanSymbol<string>(')', middle);
    ScanSpace<string>(['%'] + ([' '] + ("7" + ([')'] + last))));
    ScanSymbol<string>('%', [' '] + ("7" + ([')'] + last)));
    ScanSpace<string>("7" + ([')'] + last));
    assert Show(7) == "7" && Show(1) == "1";
    ScanNumber<string>(7, [')'] + last);
    ScanSymbol<string>(')', last);
    ScanSpace<string>(['+'] + ([' '] + ("1" + ([')'] + []))));
    ScanSymbol<string>('+', [' '] + ("1" + ([')'] + [])));
    ScanSpace<string>("1" + ([')'] + []));
    ScanNumber<string>(1, [')'] + []);
    ScanSymbol<string>(')', []);
  }

  /** `((day_of_week(arg) % 7) + 1)`. */
  lemma DayReads(arg: string)
    ensures Meaning(Output([Slot("((day_of_week(", arg)], ") % 7) + 1)"))
         == Some(Plus(Remainder(Call("day_of_week", [Argument(arg)]), Numeral(7)), Numeral(1)))
  {
    hide Scan, Term, Arguments, Sum;
    var out := Output([Slot("((day_of_week(", arg)], ") % 7) + 1)");
    assert Given(out) == [[Pasted(arg)]];
    ReadOne<string>(out.slots[0], out.tail, [Pasted(arg)]);
    ScanDay();
    var one: Tokens := [Number(1)] + ([Close] + []);
    var seven: Tokens := [Number(7)] + ([Close] + ([Sign(Add)] + one));
    var argument: Tokens := [Pasted(arg)] + ([Close] + ([Percent] + seven));
    var call := [Name("day_of_week"), Open] + argument;
    assert Read(out, Given(out)) == [Open] + ([Open] + call);
    TermPasted(arg, [Close] + ([Percent] + seven));
    LastArgument([Pasted(arg)], Argument(arg), [Percent] + seven);
    var day := Call("day_of_week", [Argument(arg)]);
    TermCall("day_of_week", argument, [Argument(arg)], [Percent] + seven);
    TermNumber(7, [Close] + ([Sign(Add)] + one));
    SumTakes(call, day, Percent, seven, Numeral(7), [Close] + ([Sign(Add)] + one));
    TermOpens(call, Remainder(day, Numeral(7)), [Sign(Add)] + one);
    TermNumber(1, [Close] + []);
    SumTakes([Open] + call, Remainder(day, Numeral(7)), Sign(Add), one, Numeral(1), [Close] + []);
    TermOpens([Open] + call, Plus(Remainder(day, Numeral(7)), Numeral(1)), []);
  }
}
