/**
 * Reading the emitted TRUNCATE back: an evaluator for the SQL arithmetic it is
 * written in, which knows nothing of how it was emitted.
 */
module TruncateText {
  import opened Wrappers
  import opened Text
  import opened Temporal
  import opened Truncation
  import opened ScalarFn
  import opened SqlText

  /** A pasted argument is read operand by operand, each by its value. */
  type Tokens = seq<Token<real>>

  // ----- the evaluator

  /** A value and the tokens after it. */
  type Answer = Option<(real, Tokens)>

  /** One operand, a parenthesised expression, or a call of a function the coordinator defines. */
  function Factor(ts: Tokens): (r: Answer)
    ensures r.Some? ==> |r.value.1| < |ts|
    decreases |ts|, 0
  {
    if ts == [] then None
    else match ts[0]
      case Pasted(v) => Some((v, ts[1..]))
      case Number(n) => Some((n as real, ts[1..]))
      case Open => Closed(Expression(ts[1..]))
      case Name("truncate") =>
        if |ts| < 2 || ts[1] != Open then None
        else (match Closed(Expression(ts[2..])) case None => None case Some((x, rest)) => Some((Trunc(x) as real, rest)))
      case Name("power") =>
        if |ts| < 2 || ts[1] != Open then None
        else
          (match Expression(ts[2..])
           case None => None
           case Some((base, rest)) =>
             if rest == [] || rest[0] != Comma then None
             else match Closed(Expression(rest[1..]))
               case None => None
               case Some((exponent, after)) =>
                 match Raised(base, exponent) case None => None case Some(x) => Some((x, after)))
      case _ => None
  }

  /** An expression is a value only before a closing parenthesis, which it takes. */
  function Closed(e: Answer): (r: Answer)
    ensures r.Some? ==> e.Some? && |r.value.1| < |e.value.1|
  {
    match e
    case Some((x, rest)) => if rest != [] && rest[0] == Close then Some((x, rest[1..])) else None
    case None => None
  }

  /** Whole powers of ten, the only ones that are emitted. */
  function Raised(base: real, exponent: real): Option<real> {
    if base == 10.0 && IsWhole(exponent) then Some(Pow10(exponent.Floor)) else None
  }

  function Expression(ts: Tokens): (r: Answer)
    ensures r.Some? ==> |r.value.1| < |ts|
    decreases |ts|, 1
  {
    match Factor(ts)
    case None => None
    case Some((v, rest)) => Chain(Parse(0.0, v), rest)
  }

  /** The operators and operands after the first one, multiplication before addition. */
  function Chain(p: Parse, ts: Tokens): (r: Answer)
    ensures r.Some? ==> |r.value.1| <= |ts|
    decreases |ts|, 2
  {
    if ts == [] || !ts[0].Sign? then Some((p.sum + p.term, ts))
    else
      match Factor(ts[1..])
      case None => None
      case Some((v, rest)) => Chain(Extend(p, ts[0].op, v), rest)
  }

  /** The value of a whole text. */
  function Value(ts: Tokens): Option<real> {
    match Expression(ts)
    case None => None
    case Some((x, rest)) => if rest == [] then Some(x) else None
  }

  // ----- scanning the template

  const TRUNCATE: Token<real> := Name("truncate")
  const POWER: Token<real> := Name("power")

  lemma ScanCalls()
    ensures Scan<real>("truncate(") == [TRUNCATE, Open]
    ensures Scan<real>("(truncate(") == [Open, TRUNCATE, Open]
    ensures Scan<real>(")") == [Close] && Scan<real>("))") == [Close, Close]
  {
    hide Scan, Word;
    ScanNothing<real>();
    assert "truncate(" == "truncate" + "(" && "(truncate(" == ['('] + "truncate(";
    assert "(" == ['('] + [] && ")" == [')'] + [] && "))" == [')'] + ")";
    ScanSymbol<real>('(', []);
    ScanWord<real>("truncate", "(");
    ScanSymbol<real>('(', "truncate(");
    ScanSymbol<real>(')', []);
    ScanSymbol<real>(')', ")");
  }

  /** ` * ` or ` / ` before more text. */
  lemma ScanOperator(c: char, text: string)
    requires c == '*' || c == '/'
    ensures Scan<real>([' '] + ([c] + ([' '] + text))) == [Symbol<real>(c)] + Scan<real>(text)
  {
    hide Scan;
    ScanSpace<real>([c] + ([' '] + text));
    ScanSymbol<real>(c, [' '] + text);
    ScanSpace<real>(text);
  }

  lemma ScanPowerCall()
    ensures Scan<real>("power(10, ") == [POWER, Open, Number(10), Comma]
  {
    hide Scan, Word, DigitRun;
    ScanNothing<real>();
    assert "power(10, " == "power" + (['('] + ("10" + ([','] + ([' '] + []))));
    ScanWord<real>("power", ['('] + ("10" + ([','] + ([' '] + []))));
    ScanSymbol<real>('(', "10" + ([','] + ([' '] + [])));
    assert Show(10) == "10";
    ScanNumber<real>(10, [','] + ([' '] + []));
    ScanSymbol<real>(',', [' '] + []);
    ScanSpace<real>([]);
  }

  lemma ScanPowers()
    ensures Scan<real>(" * power(10, ") == [Sign(Mul), POWER, Open, Number(10), Comma]
    ensures Scan<real>(")) / power(10, ") == [Close, Close, Sign(Div), POWER, Open, Number(10), Comma]
  {
    hide Scan;
    ScanPowerCall();
    assert " * power(10, " == [' '] + (['*'] + ([' '] + "power(10, "));
    ScanOperator('*', "power(10, ");
    assert ")) / power(10, " == [')'] + ([')'] + ([' '] + (['/'] + ([' '] + "power(10, "))));
    ScanOperator('/', "power(10, ");
    ScanSymbol<real>(')', [' '] + (['/'] + ([' '] + "power(10, ")));
    ScanSymbol<real>(')', [')'] + ([' '] + (['/'] + ([' '] + "power(10, "))));
  }

  /** The tail that scales by a literal and back. */
  function ScaledTail(op: char, back: char, s: nat): string {
    [' '] + ([op] + ([' '] + (Show(s) + ([')'] + ([' '] + ([back] + ([' '] + (Show(s) + [')']))))))))
  }

  lemma ScanScaled(op: char, back: char, s: nat)
    requires (op == '*' || op == '/') && (back == '*' || back == '/')
    ensures Scan<real>(ScaledTail(op, back, s)) == [Symbol<real>(op), Number(s), Close, Symbol<real>(back), Number(s), Close]
  {
    hide Scan, Show;
    ScanNothing<real>();
    var after := Show(s) + [')'];
    var between := [')'] + ([' '] + ([back] + ([' '] + after)));
    ScanSymbol<real>(')', []);
    assert [')'] + [] == [')'];
    ScanNumber<real>(s, [')']);
    ScanOperator(back, after);
    ScanSymbol<real>(')', [' '] + ([back] + ([' '] + after)));
    ScanNumber<real>(s, between);
    ScanOperator(op, Show(s) + between);
  }

  // ----- evaluating the template

  /** The tokens of a chain of operands. */
  function ChainTokens(ops: seq<Op>, vals: seq<real>): Tokens
    requires |vals| == |ops| + 1
  {
    if ops == [] then [Pasted(vals[0])]
    else
      var n := |ops| - 1;
      ChainTokens(ops[..n], vals[..n + 1]) + [Sign(ops[n]), Pasted(vals[n + 1])]
  }

  /** Tokens that stand for the number `s`, whatever follows them. */
  ghost predicate StandsFor(scale: Tokens, s: real) {
    forall rest {:trigger scale + rest} :: Factor(scale + rest) == Some((s, rest))
  }

  lemma StandsBefore(scale: Tokens, s: real, rest: Tokens)
    requires StandsFor(scale, s)
    ensures Factor(scale + rest) == Some((s, rest))
  {
    hide Factor;
  }

  lemma FactorOpens(ts: Tokens)
    ensures Factor([Open] + ts) == Closed(Expression(ts))
  {
    hide Expression;
    assert ([Open] + ts)[1..] == ts;
  }

  lemma FactorCalls(ts: Tokens)
    ensures Factor([TRUNCATE, Open] + ts)
         == match Closed(Expression(ts)) case None => None case Some((x, rest)) => Some((Trunc(x) as real, rest))
  {
    hide Expression, Trunc;
    assert ([TRUNCATE, Open] + ts)[2..] == ts;
  }

  lemma ChainTakes(p: Parse, op: Op, ts: Tokens, v: real, rest: Tokens)
    requires Factor(ts) == Some((v, rest))
    ensures Chain(p, [Sign(op)] + ts) == Chain(Extend(p, op, v), rest)
  {
    hide Factor, Extend;
    assert ([Sign(op)] + ts)[1..] == ts;
  }

  lemma ChainEnds(p: Parse, rest: Tokens)
    requires rest == [] || !rest[0].Sign?
    ensures Chain(p, rest) == Some((p.sum + p.term, rest))
  {
  }

  lemma ExpressionStarts(ts: Tokens, v: real, rest: Tokens)
    requires Factor(ts) == Some((v, rest))
    ensures Expression(ts) == Chain(Parse(0.0, v), rest)
  {
    hide Factor, Chain;
  }

  lemma CallReads(ops: seq<Op>, vals: seq<real>, op: Op, scale: Tokens, s: real, rest: Tokens)
    requires |vals| == |ops| + 1 && StandsFor(scale, s)
    ensures Factor([TRUNCATE, Open] + (ChainTokens(ops, vals) + ([Sign(op)] + (scale + ([Close] + rest)))))
         == Some((Trunc(Eval(ops + [op], vals + [s])) as real, rest))
  {
    hide Trunc, ChainTokens, Eval, Factor, Expression, StandsFor;
    FactorCalls(ChainTokens(ops, vals) + ([Sign(op)] + (scale + ([Close] + rest))));
    InsideReads(ops, vals, op, scale, s, rest);
    assert ([Close] + rest)[1..] == rest;
  }

  lemma OperandReads(v: real, rest: Tokens)
    ensures Factor([Pasted(v)] + rest) == Some((v, rest))
  {
    assert ([Pasted(v)] + rest)[1..] == rest;
  }

  lemma {:induction false} ExpressionOfChain(ops: seq<Op>, vals: seq<real>, rest: Tokens)
    requires |vals| == |ops| + 1
    ensures Expression(ChainTokens(ops, vals) + rest) == Chain(Terms(ops, vals), rest)
    decreases |ops|
  {
    hide Factor, Expression, Chain, Extend;
    if ops == [] {
      OperandReads(vals[0], rest);
      ExpressionStarts([Pasted(vals[0])] + rest, vals[0], rest);
    } else {
      var n := |ops| - 1;
      var (front, kept) := (ops[..n], vals[..n + 1]);
      var operand := [Pasted(vals[n + 1])] + rest;
      assert ChainTokens(ops, vals) + rest == ChainTokens(front, kept) + ([Sign(ops[n])] + operand);
      ExpressionOfChain(front, kept, [Sign(ops[n])] + operand);
      OperandReads(vals[n + 1], rest);
      ChainTakes(Terms(front, kept), ops[n], operand, vals[n + 1], rest);
    }
  }

  lemma InsideReads(ops: seq<Op>, vals: seq<real>, op: Op, scale: Tokens, s: real, rest: Tokens)
    requires |vals| == |ops| + 1 && StandsFor(scale, s)
    ensures Expression(ChainTokens(ops, vals) + ([Sign(op)] + (scale + ([Close] + rest))))
         == Some((Eval(ops + [op], vals + [s]), [Close] + rest))
  {
    hide ChainTokens, Terms, Factor, Expression, Chain, StandsFor, Extend;
    var inner := scale + ([Close] + rest);
    StandsBefore(scale, s, [Close] + rest);
    ExpressionOfChain(ops, vals, [Sign(op)] + inner);
    ChainTakes(Terms(ops, vals), op, inner, s, [Close] + rest);
    ChainEnds(Extend(Terms(ops, vals), op, s), [Close] + rest);
    TermsSnoc(ops, vals, op, s);
  }

  function Applied(back: Op, t: real, s: real): real {
    if back.Mul? then Times(t, s) else Divided(t, s)
  }

  /** A truncated call scaled one way inside and the other way outside. */
  lemma ScaledReads(ops: seq<Op>, vals: seq<real>, op: Op, back: Op, scale: Tokens, s: real)
    requires |vals| == |ops| + 1 && StandsFor(scale, s) && (back.Mul? || back.Div?)
    ensures Value([Open] + ([TRUNCATE, Open] + (ChainTokens(ops, vals)
                  + ([Sign(op)] + (scale + ([Close] + ([Sign(back)] + (scale + [Close]))))))))
         == Some(Applied(back, Trunc(Eval(ops + [op], vals + [s])) as real, s))
  {
    hide Trunc, ChainTokens, Eval, Factor, StandsFor;
    var tail := scale + [Close];
    var rest := [Sign(back)] + tail;
    var call := [TRUNCATE, Open] + (ChainTokens(ops, vals) + ([Sign(op)] + (scale + ([Close] + rest))));
    CallReads(ops, vals, op, scale, s, rest);
    var t := Trunc(Eval(ops + [op], vals + [s])) as real;
    OutsideReads(call, t, back, scale, s);
  }

  lemma OutsideReads(call: Tokens, t: real, back: Op, scale: Tokens, s: real)
    requires StandsFor(scale, s) && (back.Mul? || back.Div?)
    requires Factor(call) == Some((t, [Sign(back)] + (scale + [Close])))
    ensures Value([Open] + call) == Some(Applied(back, t, s))
  {
    var tail := scale + [Close];
    StandsBefore(scale, s, [Close]);
    hide Times, Divided, Factor, Expression, Chain, StandsFor;
    ExpressionStarts(call, t, [Sign(back)] + tail);
    ChainTakes(Parse(0.0, t), back, tail, s, [Close]);
    ChainEnds(Extend(Parse(0.0, t), back, s), [Close]);
    FactorOpens(call);
    var close: Tokens := [Close];
    assert close[1..] == [];
    ExpressionStarts([Open] + call, Applied(back, t, s), []);
    ChainEnds(Parse(0.0, Applied(back, t, s)), []);
  }

  // ----- the emitted text

  lemma LiteralStandsFor(n: nat)
    ensures StandsFor([Number(n)], n as real)
  {
    forall rest {:trigger [Number(n)] + rest}
      ensures Factor([Number(n)] + rest) == Some((n as real, rest))
    {
      assert ([Number(n)] + rest)[1..] == rest;
    }
  }

  /** `power(10, count)` for a count that is worth `d`. */
  function PowerTokens(d: int): Tokens {
    [POWER, Open, Number(10), Comma, Pasted(d as real), Close]
  }

  lemma PowerStandsFor(d: int)
    ensures StandsFor(PowerTokens(d), Pow10(d))
  {
    hide Pow10;
    forall rest {:trigger PowerTokens(d) + rest}
      ensures Factor(PowerTokens(d) + rest) == Some((Pow10(d), rest))
    {
      PowerReads(d, rest);
    }
  }

  lemma PowerReads(d: int, rest: Tokens)
    ensures Factor(PowerTokens(d) + rest) == Some((Pow10(d), rest))
  {
    hide Pow10, Chain;
    var ts := PowerTokens(d) + rest;
    var count := [Pasted(d as real)] + ([Close] + rest);
    assert ts[2..] == [Number(10)] + ([Comma] + count);
    assert ([Number(10)] + ([Comma] + count))[1..] == [Comma] + count && ([Comma] + count)[1..] == count;
    assert count[1..] == [Close] + rest && ([Close] + rest)[1..] == rest;
    ChainEnds(Parse(0.0, 10.0), [Comma] + count);
    ChainEnds(Parse(0.0, d as real), [Close] + rest);
    assert Expression(ts[2..]) == Some((10.0, [Comma] + count));
    assert Expression(count) == Some((d as real, [Close] + rest));
    assert IsWhole(d as real) && (d as real).Floor == d;
  }

  /** What the slots of the rewrite read as: the value first, then the count as often as it is pasted. */
  function ArgumentTokens(form: Form, ops: seq<Op>, vals: seq<real>, d: int): seq<Tokens>
    requires |vals| == |ops| + 1
  {
    if form.Power? then [ChainTokens(ops, vals), [Pasted(d as real)], [Pasted(d as real)]]
    else [ChainTokens(ops, vals)]
  }

  lemma WholeReads(ops: seq<Op>, vals: seq<real>)
    requires |vals| == |ops| + 1
    ensures Value([TRUNCATE, Open] + (ChainTokens(ops, vals) + [Close])) == Some(Trunc(Eval(ops, vals)) as real)
  {
    hide Trunc, ChainTokens, Terms, Factor, Expression, Chain;
    var all := [TRUNCATE, Open] + (ChainTokens(ops, vals) + [Close]);
    FactorCalls(ChainTokens(ops, vals) + [Close]);
    ExpressionOfChain(ops, vals, [Close]);
    ChainEnds(Terms(ops, vals), [Close]);
    var close: Tokens := [Close];
    assert close[1..] == [];
    var t := Trunc(Eval(ops, vals)) as real;
    ExpressionStarts(all, t, []);
    ChainEnds(Parse(0.0, t), []);
  }

  predicate IsScaling(c: char, op: Op) {
    (c == '*' && op == Mul) || (c == '/' && op == Div)
  }

  lemma ScaledTokens(chain: Tokens, op: Op, scale: Tokens, back: Op)
    ensures [Open, TRUNCATE, Open] + (chain + ([Sign(op)] + scale + [Close, Sign(back)] + scale + [Close]))
         == [Open] + ([TRUNCATE, Open]
                      + (chain + ([Sign(op)] + (scale + ([Close] + ([Sign(back)] + (scale + [Close])))))))
  {
    var tail := [Sign(op)] + (scale + ([Close] + ([Sign(back)] + (scale + [Close]))));
    assert [Sign(op)] + scale + [Close, Sign(back)] + scale + [Close] == tail;
    assert [Open, TRUNCATE, Open] + (chain + tail) == [Open] + ([TRUNCATE, Open] + (chain + tail));
  }

  lemma LiteralReads(c: char, op: Op, d: char, back: Op, s: nat, value: string, ops: seq<Op>, vals: seq<real>)
    requires |vals| == |ops| + 1 && IsScaling(c, op) && IsScaling(d, back)
    ensures Value(Read(Output([Slot("(truncate(", value)], ScaledTail(c, d, s)), [ChainTokens(ops, vals)]))
         == Some(Applied(back, Trunc(Eval(ops + [op], vals + [s as real])) as real, s as real))
  {
    hide Scan, ScaledTail, Read, Value, Trunc, Eval, ChainTokens, StandsFor;
    var chain := ChainTokens(ops, vals);
    var scale := [Number(s)];
    ReadOne(Slot("(truncate(", value), ScaledTail(c, d, s), chain);
    ScanCalls();
    ScanScaled(c, d, s);
    assert Scan<real>(ScaledTail(c, d, s)) == [Sign(op)] + scale + [Close, Sign(back)] + scale + [Close];
    ScaledTokens(chain, op, scale, back);
    LiteralStandsFor(s);
    ScaledReads(ops, vals, op, back, scale, s as real);
  }

  lemma PowersRead(value: string, digits: string, ops: seq<Op>, vals: seq<real>, d: int)
    requires |vals| == |ops| + 1
    ensures Value(Read(Output([Slot("(truncate(", value), Slot(" * power(10, ", digits), Slot(")) / power(10, ", digits)], "))"),
                       ArgumentTokens(Power, ops, vals, d)))
         == Some(UpAndBack(ops, vals, Pow10(d)))
  {
    hide Scan, Read, Value, Trunc, Eval, ChainTokens, StandsFor, Pow10;
    var (chain, count) := (ChainTokens(ops, vals), [Pasted(d as real)]);
    ReadThree(Slot("(truncate(", value), Slot(" * power(10, ", digits), Slot(")) / power(10, ", digits), "))",
              chain, count, count);
    ScanCalls();
    ScanPowers();
    var scale := PowerTokens(d);
    var rest := [Sign(Div)] + (scale + [Close]);
    assert Scan<real>(")) / power(10, ") + (count + Scan<real>("))")) == [Close] + ([Close] + rest);
    assert Scan<real>(" * power(10, ") + (count + ([Close] + ([Close] + rest))) == [Sign(Mul)] + (scale + ([Close] + rest));
    assert [Open, TRUNCATE, Open] + (chain + ([Sign(Mul)] + (scale + ([Close] + rest))))
        == [Open] + ([TRUNCATE, Open] + (chain + ([Sign(Mul)] + (scale + ([Close] + rest)))));
    PowerStandsFor(d);
    ScaledReads(ops, vals, Mul, Div, scale, Pow10(d));
  }

  /** What the emitted text evaluates to when the argument's operands are worth `vals` and the count `d`. */
  function EmittedValue(value: string, digits: string, ops: seq<Op>, vals: seq<real>, d: int): Option<real>
    requires |vals| == |ops| + 1
  {
    Value(Read(RewriteTruncate(value, digits), ArgumentTokens(FormOf(digits), ops, vals, d)))
  }

  /**
   * Scanned and evaluated, what is emitted for TRUNCATE is what `Denoted` says,
   * for every chain of operands, every count and each of the four forms.
   */
  lemma EmittedIsDenoted(value: string, digits: string, ops: seq<Op>, vals: seq<real>, d: int)
    requires |vals| == |ops| + 1
    ensures EmittedValue(value, digits, ops, vals, d) == Some(Denoted(FormOf(digits), ops, vals, d))
  {
    hide Scan, Show, Value, Trunc, Eval, ChainTokens, Read, FormOf, Pow10;
    match FormOf(digits)
    case Whole =>
      ReadOne(Slot("truncate(", value), ")", ChainTokens(ops, vals));
      ScanCalls();
      WholeReads(ops, vals);
    case Up(s) =>
      LiteralReads('*', Mul, '/', Div, s, value, ops, vals);
      assert " * " + Show(s) + ") / " + Show(s) + ")"
          == ScaledTail('*', '/', s);
    case Down(s) =>
      LiteralReads('/', Div, '*', Mul, s, value, ops, vals);
      assert " / " + Show(s) + ") * " + Show(s) + ")"
          == ScaledTail('/', '*', s);
    case Power => PowersRead(value, digits, ops, vals, d);
  }

  /**
   * So the text emitted for TRUNCATE evaluates to the truncation of its first
   * argument, whatever the operands are worth, iff that argument has no
   * top-level addition or subtraction, or no digits are to be kept.
   */
  lemma EmittedTruncatesIff(value: string, digits: string, d: int, ops: seq<Op>)
    requires CountIs(digits, d)
    ensures RewriteParts("TRUNCATE", false, [value, digits]) == Some(RewriteTruncate(value, digits))
    ensures (forall vals: seq<real> :: |vals| == |ops| + 1 ==>
               exists r :: EmittedValue(value, digits, ops, vals, d) == Some(r)
                           && IsTruncation(Eval(ops, vals), Pow10(d), r))
       <==> d == 0 || !HasAdditive(ops)
  {
    hide EmittedValue, Eval, Denoted, IsTruncation, Pow10, FormOf, CountIs, HasAdditive;
    TruncateIsRightIff(digits, d, ops);
    forall vals: seq<real> | |vals| == |ops| + 1
      ensures EmittedValue(value, digits, ops, vals, d) == Some(Denoted(FormOf(digits), ops, vals, d))
    {
      EmittedIsDenoted(value, digits, ops, vals, d);
    }
  }
}
