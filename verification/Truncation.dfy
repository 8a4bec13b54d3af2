/**
 * What the rewriting of TRUNCATE computes, over exact reals.
 *
 * The first argument is pasted into the emitted text as it stands, so it is
 * read here as SQL reads it: a chain of operands and arithmetic operators, in
 * which multiplication and division bind tighter than addition.
 */
module Truncation {
  import opened Wrappers
  import opened Text
  import opened Temporal

  datatype Op = Add | Sub | Mul | Div

  function Times(a: real, b: real): real {
    a * b
  }

  /** Division; a zero divisor is an SQL error, so any value will do for it. */
  function Divided(a: real, b: real): real {
    if b == 0.0 then 0.0 else a / b
  }

  /** The sum of all terms but the last, and the last term. */
  datatype Parse = Parse(sum: real, term: real)

  function Extend(p: Parse, op: Op, v: real): Parse {
    match op
    case Add => Parse(p.sum + p.term, v)
    case Sub => Parse(p.sum + p.term, -v)
    case Mul => p.(term := Times(p.term, v))
    case Div => p.(term := Divided(p.term, v))
  }

  function Terms(ops: seq<Op>, vals: seq<real>): Parse
    requires |vals| == |ops| + 1
  {
    if ops == [] then Parse(0.0, vals[0])
    else Extend(Terms(ops[..|ops| - 1], vals[..|vals| - 1]), ops[|ops| - 1], vals[|vals| - 1])
  }

  /** The value of a chain for the given operand values. */
  function Eval(ops: seq<Op>, vals: seq<real>): real
    requires |vals| == |ops| + 1
  {
    var p := Terms(ops, vals);
    p.sum + p.term
  }

  predicate HasAdditive(ops: seq<Op>) {
    exists i :: 0 <= i < |ops| && (ops[i].Add? || ops[i].Sub?)
  }

  lemma TermsSnoc(ops: seq<Op>, vals: seq<real>, op: Op, v: real)
    requires |vals| == |ops| + 1
    ensures Terms(ops + [op], vals + [v]) == Extend(Terms(ops, vals), op, v)
  {
    assert (ops + [op])[..|ops|] == ops && (vals + [v])[..|vals|] == vals;
  }

  lemma {:induction false} OneTerm(ops: seq<Op>, vals: seq<real>)
    requires |vals| == |ops| + 1 && !HasAdditive(ops)
    ensures Terms(ops, vals).sum == 0.0
  {
    if ops != [] {
      var prefix := ops[..|ops| - 1];
      assert forall i :: 0 <= i < |prefix| ==> prefix[i] == ops[i];
      OneTerm(prefix, vals[..|vals| - 1]);
      assert !ops[|ops| - 1].Add? && !ops[|ops| - 1].Sub?;
    }
  }

  // ----- truncating toward zero

  function Trunc(x: real): int {
    if x >= 0.0 then x.Floor else -((-x).Floor)
  }

  function Abs(x: real): real {
    if x >= 0.0 then x else -x
  }

  predicate IsWhole(x: real) {
    x.Floor as real == x
  }

  /** `y` is the whole number nearest `x` toward zero. */
  predicate TowardZero(x: real, y: real) {
    && IsWhole(y)
    && Abs(y) <= Abs(x)
    && (y == 0.0 || (y > 0.0 <==> x > 0.0))
    && Abs(x - y) < 1.0
  }

  /** `r` is the multiple of `1 / scale` nearest `v` toward zero. */
  predicate IsTruncation(v: real, scale: real, r: real) {
    TowardZero(Times(v, scale), Times(r, scale))
  }

  function Pow10(d: int): real {
    if d >= 0 then TenTo(d) as real else 1.0 / TenTo(-d) as real
  }

  lemma TruncIsTowardZero(x: real)
    ensures TowardZero(x, Trunc(x) as real)
  {
  }

  function TruncatedAt(v: real, scale: real): real {
    Divided(Trunc(Times(v, scale)) as real, scale)
  }

  /** Scaling by a positive number and by its reciprocal undo each other. */
  lemma Reciprocal(x: real, scale: real)
    requires scale > 0.0
    ensures Times(Divided(x, scale), scale) == x
    ensures Divided(x, scale) == Times(x, 1.0 / scale)
    ensures Times(x, scale) == Divided(x, 1.0 / scale)
  {
  }

  /** Scaling, truncating and scaling back is truncation to the scale. */
  lemma ScaledTruncation(v: real, scale: real)
    requires scale > 0.0
    ensures IsTruncation(v, scale, TruncatedAt(v, scale))
  {
    hide Times, Divided, Trunc, TowardZero;
    var x := Times(v, scale);
    Reciprocal(Trunc(x) as real, scale);
    TruncIsTowardZero(x);
  }

  lemma TowardZeroIsUnique(x: real, y: real, z: real)
    requires TowardZero(x, y) && TowardZero(x, z)
    ensures y == z
  {
    assert -1 < y.Floor - z.Floor < 1;
  }

  /** A truncation is unique, so the predicate above says exactly which number it is. */
  lemma TruncationIsUnique(v: real, scale: real, r: real, q: real)
    requires scale > 0.0 && IsTruncation(v, scale, r) && IsTruncation(v, scale, q)
    ensures r == q
  {
    TowardZeroIsUnique(Times(v, scale), Times(r, scale), Times(q, scale));
    Cancel(r, q, scale);
  }

  lemma Cancel(a: real, b: real, scale: real)
    requires scale > 0.0 && Times(a, scale) == Times(b, scale)
    ensures a == b
  {
  }

  // ----- the four forms

  /** Largest count of digits whose scale is written out in full. */
  const LITERAL_SCALE_LIMIT := 18

  datatype Form = Whole | Up(scale: nat) | Down(scale: nat) | Power

  function FormOf(digits: string): Form {
    match ParseInt(Trim(digits), I32)
    case None => Power
    case Some(d) =>
      if d == 0 then Whole
      else if 1 <= d <= LITERAL_SCALE_LIMIT then Up(TenTo(d))
      else if -LITERAL_SCALE_LIMIT <= d < 0 then Down(TenTo(-d))
      else Power
  }

  /** The number the emitted expression denotes, when the digit count is `d`. */
  function Denoted(form: Form, ops: seq<Op>, vals: seq<real>, d: int): real
    requires |vals| == |ops| + 1
  {
    match form
    case Whole => Trunc(Eval(ops, vals)) as real
    case Up(s) => UpAndBack(ops, vals, s as real)
    case Down(s) => Times(Trunc(Eval(ops + [Div], vals + [s as real])) as real, s as real)
    case Power => UpAndBack(ops, vals, Pow10(d))
  }

  function UpAndBack(ops: seq<Op>, vals: seq<real>, scale: real): real
    requires |vals| == |ops| + 1
  {
    Divided(Trunc(Eval(ops + [Mul], vals + [scale])) as real, scale)
  }

  /** The digit count the text gives, if it is a literal the driver folds. */
  predicate CountIs(digits: string, d: int) {
    match ParseInt(Trim(digits), I32)
    case Some(n) => n == d
    case None => true
  }

  lemma {:induction false} TenToGrows(a: nat, b: nat)
    requires a <= b
    ensures TenTo(a) <= TenTo(b)
    decreases b
  {
    if a < b {
      TenToGrows(a, b - 1);
    }
  }

  /** A folded scale is a power of ten that fits a signed 64-bit integer. */
  lemma LiteralScaleFits(digits: string)
    ensures match FormOf(digits)
            case Up(s) => 10 <= s <= I64.hi
            case Down(s) => 10 <= s <= I64.hi
            case _ => true
  {
    assert TenTo(18) == 1000000000000000000 by {
      assert TenTo(9) == 1000000000;
      assert TenTo(14) == 100000000000000;
    }
    match FormOf(digits)
    case Up(s) =>
      var d := ParseInt(Trim(digits), I32).value;
      TenToGrows(1, d);
      TenToGrows(d, 18);
    case Down(s) =>
      var d := -ParseInt(Trim(digits), I32).value;
      TenToGrows(1, d);
      TenToGrows(d, 18);
    case _ =>
  }

  /** Each form scales by the power of ten its digit count calls for. */
  lemma FormScales(digits: string, d: int)
    requires CountIs(digits, d)
    ensures match FormOf(digits)
            case Whole => d == 0
            case Up(s) => d > 0 && s as real == Pow10(d) && s >= 10
            case Down(s) => d < 0 && 1.0 / s as real == Pow10(d) && s >= 10
            case Power => true
  {
    LiteralScaleFits(digits);
  }

  lemma Pow10Positive(d: int)
    ensures Pow10(d) > 0.0
    ensures d == 0 ==> Pow10(d) == 1.0
  {
  }

  /** Scaling a chain scales its value, unless part of it is out of reach. */
  lemma ScaledChain(ops: seq<Op>, vals: seq<real>, scale: real)
    requires |vals| == |ops| + 1
    requires scale == 1.0 || !HasAdditive(ops)
    ensures Eval(ops + [Mul], vals + [scale]) == Times(Eval(ops, vals), scale)
    ensures Eval(ops + [Div], vals + [scale]) == Divided(Eval(ops, vals), scale)
  {
    hide Times, Divided, Terms;
    TermsSnoc(ops, vals, Mul, scale);
    TermsSnoc(ops, vals, Div, scale);
    if !HasAdditive(ops) {
      OneTerm(ops, vals);
    } else {
      ByOne(Terms(ops, vals).term);
      ByOne(Eval(ops, vals));
    }
  }

  lemma ByOne(x: real)
    ensures Times(x, 1.0) == x && Divided(x, 1.0) == x
  {
  }

  /** A chain with no top-level sum is truncated correctly, in every form. */
  lemma TermIsTruncated(digits: string, d: int, ops: seq<Op>, vals: seq<real>)
    requires |vals| == |ops| + 1 && CountIs(digits, d)
    requires !HasAdditive(ops) || d == 0
    ensures IsTruncation(Eval(ops, vals), Pow10(d), Denoted(FormOf(digits), ops, vals, d))
  {
    hide Eval, IsTruncation, HasAdditive, Pow10, Denoted, TruncatedAt, FormOf, CountIs;
    Pow10Positive(d);
    FormScales(digits, d);
    ScaledTruncation(Eval(ops, vals), Pow10(d));
    match FormOf(digits)
    case Whole => WholeIsScale(ops, vals, d);
    case Up(s) => UpIsScale(ops, vals, s, d);
    case Down(s) => DownIsScale(ops, vals, s, d);
    case Power => PowerIsScale(ops, vals, d);
  }

  lemma WholeIsScale(ops: seq<Op>, vals: seq<real>, d: int)
    requires |vals| == |ops| + 1 && d == 0
    ensures Denoted(Whole, ops, vals, d) == TruncatedAt(Eval(ops, vals), Pow10(d))
  {
    hide Times, Divided, Eval;
    ByOne(Eval(ops, vals));
    ByOne(Trunc(Eval(ops, vals)) as real);
  }

  lemma PowerIsScale(ops: seq<Op>, vals: seq<real>, d: int)
    requires |vals| == |ops| + 1 && (Pow10(d) == 1.0 || !HasAdditive(ops))
    ensures Denoted(Power, ops, vals, d) == TruncatedAt(Eval(ops, vals), Pow10(d))
  {
    hide Times, Divided, Eval, Pow10, Trunc;
    ScaledChain(ops, vals, Pow10(d));
  }

  lemma UpIsScale(ops: seq<Op>, vals: seq<real>, s: nat, d: int)
    requires |vals| == |ops| + 1 && !HasAdditive(ops) && s as real == Pow10(d)
    ensures Denoted(Up(s), ops, vals, d) == TruncatedAt(Eval(ops, vals), Pow10(d))
  {
    hide Times, Divided, Eval, Pow10, Trunc;
    ScaledChain(ops, vals, s as real);
  }

  lemma DownIsScale(ops: seq<Op>, vals: seq<real>, s: nat, d: int)
    requires |vals| == |ops| + 1 && !HasAdditive(ops) && s > 0 && 1.0 / s as real == Pow10(d)
    ensures Denoted(Down(s), ops, vals, d) == TruncatedAt(Eval(ops, vals), Pow10(d))
  {
    hide Times, Divided, Eval, Pow10, Trunc;
    var v, t := Eval(ops, vals), s as real;
    ScaledChain(ops, vals, t);
    Reciprocal(v, t);
    Reciprocal(Trunc(Times(v, 1.0 / t)) as real, t);
  }

  /** One for the first term, zero for every other: a value of one whose last term is zero. */
  function Probe(ops: seq<Op>): (vals: seq<real>)
    ensures |vals| == |ops| + 1
  {
    if ops == [] then [1.0]
    else
      var last := ops[|ops| - 1];
      Probe(ops[..|ops| - 1]) + [if last.Add? || last.Sub? then 0.0 else 1.0]
  }

  lemma {:induction false} ProbeTerms(ops: seq<Op>)
    ensures Terms(ops, Probe(ops)) == if HasAdditive(ops) then Parse(1.0, 0.0) else Parse(0.0, 1.0)
  {
    if ops != [] {
      var prefix, last := ops[..|ops| - 1], ops[|ops| - 1];
      ProbeTerms(prefix);
      assert Probe(ops)[..|ops|] == Probe(prefix);
      assert prefix + [last] == ops;
      assert HasAdditive(ops) <==> HasAdditive(prefix) || last.Add? || last.Sub? by {
        assert forall i :: 0 <= i < |prefix| ==> prefix[i] == ops[i];
        if HasAdditive(prefix) {
          var i :| 0 <= i < |prefix| && (prefix[i].Add? || prefix[i].Sub?);
          assert ops[i].Add? || ops[i].Sub?;
        }
        if last.Add? || last.Sub? {
          assert ops[|ops| - 1] == last;
        }
      }
    }
  }

  /** For the probe, every form truncates the value one unscaled. */
  lemma ProbeIsUnscaled(ops: seq<Op>, scale: real)
    requires HasAdditive(ops)
    ensures Eval(ops, Probe(ops)) == 1.0
    ensures Eval(ops + [Mul], Probe(ops) + [scale]) == 1.0
    ensures Eval(ops + [Div], Probe(ops) + [scale]) == 1.0
  {
    ProbeTerms(ops);
    TermsSnoc(ops, Probe(ops), Mul, scale);
    TermsSnoc(ops, Probe(ops), Div, scale);
  }

  lemma UnscaledIsWrong(d: int)
    requires d != 0
    ensures Pow10(d) > 0.0 && !IsTruncation(1.0, Pow10(d), 1.0 / Pow10(d))
  {
    var n := if d > 0 then d else -d;
    TenToGrows(1, n);
    assert TenTo(n) >= 10;
    var scale := Pow10(d);
    assert (1.0 / scale) * scale == 1.0;
    if d < 0 {
      assert scale <= 0.1;
    }
  }

  /** A sum is pasted in without parentheses, so only its last term is scaled. */
  lemma SumIsNotTruncated(digits: string, d: int, ops: seq<Op>)
    requires CountIs(digits, d) && HasAdditive(ops) && d != 0
    ensures !IsTruncation(Eval(ops, Probe(ops)), Pow10(d), Denoted(FormOf(digits), ops, Probe(ops), d))
  {
    hide FormOf, CountIs, Eval, IsTruncation, HasAdditive, Pow10, TenTo;
    FormScales(digits, d);
    Pow10Positive(d);
    ProbeIsUnscaled(ops, Pow10(d));
    UnscaledIsWrong(d);
    match FormOf(digits)
    case Down(s) =>
      ProbeIsUnscaled(ops, s as real);
      assert s as real == 1.0 / Pow10(d);
    case _ =>
  }

  /**
   * The rewrite is right for every value of its operands iff the first argument
   * has no top-level addition or subtraction, or no digits are to be kept.
   */
  lemma TruncateIsRightIff(digits: string, d: int, ops: seq<Op>)
    requires CountIs(digits, d)
    ensures (forall vals: seq<real> :: |vals| == |ops| + 1 ==>
               IsTruncation(Eval(ops, vals), Pow10(d), Denoted(FormOf(digits), ops, vals, d)))
       <==> d == 0 || !HasAdditive(ops)
  {
    if d == 0 || !HasAdditive(ops) {
      forall vals: seq<real> | |vals| == |ops| + 1
        ensures IsTruncation(Eval(ops, vals), Pow10(d), Denoted(FormOf(digits), ops, vals, d))
      {
        TermIsTruncated(digits, d, ops, vals);
      }
    } else {
      SumIsNotTruncated(digits, d, ops);
    }
  }

  /** The concrete case: `0.5 + 0.5` truncated to one digit comes out as 0.5. */
  lemma HalfPlusHalf()
    ensures Eval([Add], [0.5, 0.5]) == 1.0
    ensures Denoted(FormOf("1"), [Add], [0.5, 0.5], 1) == 0.5
  {
    assert Trim("1") == "1" by {
      assert !IsSpace('1');
      TrimIsIdentity("1");
    }
    assert Natural("1") == 1 by {
      assert "1"[..0] == [];
    }
    ParseDigits("1", I32);
    assert TenTo(1) == 10;
    assert FormOf("1") == Up(10);
    TermsSnoc([], [0.5], Add, 0.5);
    assert [] + [Add] == [Add] && [0.5] + [0.5] == [0.5, 0.5];
    TermsSnoc([Add], [0.5, 0.5], Mul, 10.0);
    assert Terms([Add], [0.5, 0.5]) == Parse(0.5, 0.5);
    assert Eval([Add] + [Mul], [0.5, 0.5] + [10.0]) == 5.5;
  }

  /** A literal count is written out as a scale exactly when the scale fits a signed 64-bit integer. */
  lemma FoldedIffItFits(digits: string)
    ensures FormOf(digits) != Power
       <==> match ParseInt(Trim(digits), I32)
            case None => false
            case Some(d) => TenTo(if d < 0 then -d else d) <= I64.hi
  {
    assert TenTo(18) == 1000000000000000000 by {
      assert TenTo(9) == 1000000000;
      assert TenTo(14) == 100000000000000;
    }
    assert TenTo(19) == 10 * TenTo(18);
    match ParseInt(Trim(digits), I32)
    case None =>
    case Some(d) =>
      var n := if d < 0 then -d else d;
      hide TenTo;
      if n <= 18 {
        TenToGrows(n, 18);
      } else {
        TenToGrows(19, n);
      }
  }
}
