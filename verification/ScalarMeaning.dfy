/**
 * The value of every rewritten scalar function, for every value of its
 * arguments, against what the ODBC Programmer's Reference, Appendix E, says of
 * the function it was rewritten from.
 */
module ScalarMeaning {
  import opened Wrappers
  import opened Text
  import opened Truncation
  import opened EscapeLexer
  import opened EscapeArguments
  import opened ScalarFn
  import opened SqlText
  import opened ScalarText

  /** A moment is counted in seconds from the start of 1970. */
  datatype Value = Str(s: string) | Int(n: int) | Moment(second: int)

  type Env = string -> Value

  // ----- the coordinator's functions

  /** `position`: the one-based place of the first occurrence, nought if there is none. */
  function FirstAt(needle: string, haystack: string): nat
    decreases |haystack|
  {
    if needle <= haystack then 1
    else if haystack == [] then 0
    else
      var later := FirstAt(needle, haystack[1..]);
      if later == 0 then 0 else later + 1
  }

  function LeftTrimmed(s: string, characters: string): string {
    if s != [] && s[0] in characters then LeftTrimmed(s[1..], characters) else s
  }

  function RightTrimmed(s: string, characters: string): string {
    if s != [] && s[|s| - 1] in characters then RightTrimmed(s[..|s| - 1], characters) else s
  }

  const DAY := 86400

  /** Monday is 1 and Sunday 7; the first of January 1970 was a Thursday. */
  function IsoDay(second: int): nat {
    (second / DAY + 3) % 7 + 1
  }

  /** The units of a fixed length; the others depend on the calendar. */
  function Seconds(unit: string): Option<nat> {
    match unit
    case "second" => Some(1)
    case "minute" => Some(60)
    case "hour" => Some(3600)
    case "day" => Some(DAY)
    case "week" => Some(7 * DAY)
    case _ => None
  }

  /** Whole units, toward zero. */
  function Whole(seconds: int, unit: nat): int
    requires unit > 0
  {
    if seconds >= 0 then seconds / unit else -(-seconds / unit)
  }

  function OfOne(name: string, a: Value): Option<Value> {
    match (name, a)
    case ("length", Str(s)) => Some(Int(|s|))
    case ("day_of_week", Moment(t)) => Some(Int(IsoDay(t)))
    case _ => None
  }

  function OfTwo(name: string, a: Value, b: Value): Option<Value> {
    match (name, a, b)
    case ("ltrim", Str(s), Str(characters)) => Some(Str(LeftTrimmed(s, characters)))
    case ("rtrim", Str(s), Str(characters)) => Some(Str(RightTrimmed(s, characters)))
    case _ => None
  }

  function OfThree(name: string, a: Value, b: Value, c: Value): Option<Value> {
    if !a.Str? then None
    else match Seconds(a.s)
      case None => None
      case Some(unit) =>
        match (name, b, c)
        case ("date_add", Int(n), Moment(t)) => Some(Moment(t + n * unit))
        case ("date_diff", Moment(t), Moment(u)) => if unit > 0 then Some(Int(Whole(u - t, unit))) else None
        case _ => None
  }

  function Eval(e: Expr, env: Env): Option<Value> {
    match e
    case Argument(text) => Some(env(text))
    case Numeral(n) => Some(Int(n))
    case Quote(text) => Some(Str(text))
    case Position(a, b) =>
      (match (Eval(a, env), Eval(b, env))
       case (Some(Str(x)), Some(Str(y))) => Some(Int(FirstAt(x, y)))
       case _ => None)
    case Remainder(a, b) =>
      (match (Eval(a, env), Eval(b, env))
       case (Some(Int(x)), Some(Int(y))) => if x >= 0 && y > 0 then Some(Int(x % y)) else None
       case _ => None)
    case Plus(a, b) =>
      (match (Eval(a, env), Eval(b, env))
       case (Some(Int(x)), Some(Int(y))) => Some(Int(x + y))
       case _ => None)
    case Call(name, args) =>
      if |args| == 1 then
        (match Eval(args[0], env) case None => None case Some(a) => OfOne(name, a))
      else if |args| == 2 then
        (match (Eval(args[0], env), Eval(args[1], env))
         case (Some(a), Some(b)) => OfTwo(name, a, b)
         case _ => None)
      else if |args| == 3 then
        (match (Eval(args[0], env), Eval(args[1], env), Eval(args[2], env))
         case (Some(a), Some(b), Some(c)) => OfThree(name, a, b, c)
         case _ => None)
      else None
    case _ => None
  }

  // ----- the emitted text of a call

  /** The expression a call is rewritten to, if it is, from its upper-case name and its arguments. */
  function Rewritten(name: string, blank: bool, parts: seq<string>): Option<Expr> {
    match RewriteParts(name, blank, parts)
    case None => None
    case Some(out) => Meaning(out)
  }

  /** What the rewritten call is worth. */
  function Worth(name: string, parts: seq<string>, env: Env): Option<Value> {
    match Rewritten(name, false, parts)
    case None => None
    case Some(e) => Eval(e, env)
  }

  // ----- strings

  predicate Occurs(needle: string, haystack: string, i: nat) {
    i + |needle| <= |haystack| && haystack[i..i + |needle|] == needle
  }

  lemma OccursAtStart(needle: string, haystack: string)
    ensures Occurs(needle, haystack, 0) <==> needle <= haystack
  {
  }

  lemma OccursLater(needle: string, haystack: string, i: nat)
    requires i > 0 && haystack != []
    ensures Occurs(needle, haystack, i) <==> Occurs(needle, haystack[1..], i - 1)
  {
    if i + |needle| <= |haystack| {
      var rest := haystack[1..];
      assert rest[i - 1..i - 1 + |needle|] == haystack[i..i + |needle|];
    }
  }

  /** `k` is the one-based place of the first occurrence, or nought and there is none. */
  ghost predicate IsFirst(needle: string, haystack: string, k: nat) {
    && (k == 0 ==> forall i: nat :: !Occurs(needle, haystack, i))
    && (k > 0 ==> Occurs(needle, haystack, k - 1) && forall i: nat :: i < k - 1 ==> !Occurs(needle, haystack, i))
  }

  lemma FirstLater(needle: string, haystack: string, later: nat)
    requires haystack != [] && !(needle <= haystack) && IsFirst(needle, haystack[1..], later)
    ensures IsFirst(needle, haystack, if later == 0 then 0 else later + 1)
  {
    OccursAtStart(needle, haystack);
    hide Occurs;
    if later > 0 {
      OccursLater(needle, haystack, later);
    }
    forall i: nat | later == 0 || i < later
      ensures !Occurs(needle, haystack, i)
    {
      if i > 0 {
        OccursLater(needle, haystack, i);
      }
    }
  }

  lemma {:induction false} FirstAtIsFirst(needle: string, haystack: string)
    ensures IsFirst(needle, haystack, FirstAt(needle, haystack))
    decreases |haystack|
  {
    OccursAtStart(needle, haystack);
    if !(needle <= haystack) && haystack != [] {
      FirstAtIsFirst(needle, haystack[1..]);
      FirstLater(needle, haystack, FirstAt(needle, haystack[1..]));
    }
  }

  /**
   * LOCATE(first, second) is the place of the first occurrence of the first
   * string within the second, counting from one, and nought if there is none.
   */
  lemma LocateFinds(first: string, second: string, env: Env)
    requires env(first).Str? && env(second).Str?
    ensures var worth := Worth("LOCATE", [first, second], env);
            && worth.Some? && worth.value.Int? && worth.value.n >= 0
            && IsFirst(env(first).s, env(second).s, worth.value.n)
  {
    hide Meaning, FirstAt, IsFirst;
    LocateReads(first, second);
    var (a, b) := (Argument(first), Argument(second));
    assert Rewritten("LOCATE", false, [first, second]) == Some(Position(a, b));
    assert Eval(a, env) == Some(env(first)) && Eval(b, env) == Some(env(second));
    FirstAtIsFirst(env(first).s, env(second).s);
  }

  predicate Blanks(s: string) {
    forall i :: 0 <= i < |s| ==> s[i] == ' '
  }

  lemma {:induction false} RightTrimmedIs(s: string) returns (blanks: string)
    ensures s == RightTrimmed(s, BLANK) + blanks && Blanks(blanks)
    ensures var r := RightTrimmed(s, BLANK); r == [] || r[|r| - 1] != ' '
    decreases |s|
  {
    if s != [] && s[|s| - 1] in BLANK {
      var front := s[..|s| - 1];
      var more := RightTrimmedIs(front);
      blanks := more + [' '];
      assert s == front + [' '];
    } else {
      blanks := [];
    }
  }

  lemma {:induction false} LeftTrimmedIs(s: string) returns (blanks: string)
    ensures s == blanks + LeftTrimmed(s, BLANK) && Blanks(blanks)
    ensures var r := LeftTrimmed(s, BLANK); r == [] || r[0] != ' '
    decreases |s|
  {
    if s != [] && s[0] in BLANK {
      var more := LeftTrimmedIs(s[1..]);
      blanks := [' '] + more;
    } else {
      blanks := [];
    }
  }

  /** `s` with its trailing blanks, and nothing else, taken off. */
  ghost predicate WithoutTrailing(s: string, r: string) {
    r <= s && Blanks(s[|r|..]) && (r == [] || r[|r| - 1] != ' ')
  }

  /** `s` with its leading blanks, and nothing else, taken off. */
  ghost predicate WithoutLeading(s: string, r: string) {
    |r| <= |s| && s[|s| - |r|..] == r && Blanks(s[..|s| - |r|]) && (r == [] || r[0] != ' ')
  }

  /** LENGTH counts the characters without trailing blanks; other white space counts. */
  lemma LengthCounts(arg: string, env: Env) returns (kept: string)
    requires env(arg).Str?
    ensures WithoutTrailing(env(arg).s, kept) && Worth("LENGTH", [arg], env) == Some(Int(|kept|))
  {
    hide Meaning, RightTrimmed;
    LengthReads(arg);
    kept := RightTrimmed(env(arg).s, BLANK);
    var blanks := RightTrimmedIs(env(arg).s);
    assert env(arg).s[|kept|..] == blanks;
    LengthOfTrim(arg, env);
  }

  lemma LengthOfTrim(arg: string, env: Env)
    requires env(arg).Str?
    ensures Eval(Call("length", [Call("rtrim", [Argument(arg), Quote(BLANK)])]), env)
         == Some(Int(|RightTrimmed(env(arg).s, BLANK)|))
  {
    hide RightTrimmed;
    assert Eval(Call("rtrim", [Argument(arg), Quote(BLANK)]), env) == Some(Str(RightTrimmed(env(arg).s, BLANK)));
  }

  /** LTRIM and RTRIM take the blanks off one end, and nothing else. */
  lemma TrimsTakeBlanks(arg: string, env: Env) returns (left: string, right: string)
    requires env(arg).Str?
    ensures WithoutLeading(env(arg).s, left) && Worth("LTRIM", [arg], env) == Some(Str(left))
    ensures WithoutTrailing(env(arg).s, right) && Worth("RTRIM", [arg], env) == Some(Str(right))
  {
    hide Meaning, LeftTrimmed, RightTrimmed;
    var s := env(arg).s;
    left, right := LeftTrimmed(s, BLANK), RightTrimmed(s, BLANK);
    var leading := LeftTrimmedIs(s);
    var trailing := RightTrimmedIs(s);
    assert s[|right|..] == trailing && s[..|s| - |left|] == leading;
    assert "ltrim" + "(" == "ltrim(" && "rtrim" + "(" == "rtrim(";
    TrimmingReads("ltrim", arg);
    TrimmingReads("rtrim", arg);
    assert Rewritten("LTRIM", false, [arg]) == Some(Call("ltrim", [Argument(arg), Quote(BLANK)]));
    assert Rewritten("RTRIM", false, [arg]) == Some(Call("rtrim", [Argument(arg), Quote(BLANK)]));
    assert Eval(Argument(arg), env) == Some(env(arg)) && Eval(Quote(BLANK), env) == Some(Str(BLANK));
  }

  // ----- moments

  /** The interval keywords of a fixed length, as ODBC names them. */
  function IntervalSeconds(keyword: string): Option<nat> {
    match keyword
    case "SQL_TSI_SECOND" => Some(1)
    case "SQL_TSI_MINUTE" => Some(60)
    case "SQL_TSI_HOUR" => Some(3600)
    case "SQL_TSI_DAY" => Some(DAY)
    case "SQL_TSI_WEEK" => Some(7 * DAY)
    case _ => None
  }

  const INTERVALS :=
    {"SQL_TSI_SECOND", "SQL_TSI_MINUTE", "SQL_TSI_HOUR", "SQL_TSI_DAY", "SQL_TSI_WEEK",
     "SQL_TSI_MONTH", "SQL_TSI_QUARTER", "SQL_TSI_YEAR"}

  const UNITS := {"second", "minute", "hour", "day", "week", "month", "quarter", "year"}

  /** A unit is named as its keyword is: `SQL_TSI_` and the unit, in any case and with any space around it. */
  lemma UnitIsNamed(keyword: string)
    ensures IntervalUnit(keyword).Some? ==>
              && "SQL_TSI_" + Upper(IntervalUnit(keyword).value) == Upper(Trim(keyword))
              && IntervalUnit(keyword).value in UNITS
    ensures IntervalUnit(keyword).Some? <==> Upper(Trim(keyword)) in INTERVALS
  {
    hide Upper, Trim;
    UnitsInCapitals();
  }

  lemma UnitsInCapitals()
    ensures Upper("second") == "SECOND" && Upper("minute") == "MINUTE" && Upper("hour") == "HOUR"
    ensures Upper("day") == "DAY" && Upper("week") == "WEEK"
    ensures Upper("month") == "MONTH" && Upper("quarter") == "QUARTER" && Upper("year") == "YEAR"
  {
  }

  lemma UnitsAreWords(unit: string)
    requires unit in UNITS
    ensures unit != [] && QUOTE !in unit
  {
  }

  lemma UnitSeconds(keyword: string)
    ensures var n := IntervalSeconds(Upper(Trim(keyword)));
            n.Some? ==> n.value > 0 && IntervalUnit(keyword).Some? && Seconds(IntervalUnit(keyword).value) == n
  {
  }

  /** The call a TIMESTAMPADD or TIMESTAMPDIFF becomes: the unit, then both arguments in their order. */
  lemma IntervalReads(name: string, parts: seq<string>)
    requires name == "TIMESTAMPADD" || name == "TIMESTAMPDIFF"
    requires |parts| == 3 && IntervalUnit(parts[0]).Some?
    ensures var word := if name == "TIMESTAMPADD" then "date_add" else "date_diff";
            Rewritten(name, false, parts)
            == Some(Call(word, [Quote(IntervalUnit(parts[0]).value), Argument(parts[1]), Argument(parts[2])]))
  {
    hide Meaning, IntervalUnit;
    var unit := IntervalUnit(parts[0]).value;
    UnitIsNamed(parts[0]);
    UnitsAreWords(unit);
    var word := if name == "TIMESTAMPADD" then "date_add" else "date_diff";
    var call := if name == "TIMESTAMPADD" then "date_add('" else "date_diff('";
    assert "date_add" + "('" == "date_add('" && "date_diff" + "('" == "date_diff('";
    assert call + unit + "', " == word + "('" + unit + "', ";
    DatedReads(word, unit, parts[1], parts[2]);
  }

  /** TIMESTAMPADD moves the timestamp by that many intervals, TIMESTAMPDIFF counts the whole ones from the first to the second. */
  lemma IntervalsAreCounted(keyword: string, a: string, b: string, env: Env)
    requires IntervalSeconds(Upper(Trim(keyword))).Some?
    ensures var unit := IntervalSeconds(Upper(Trim(keyword))).value;
            && unit > 0
            && (env(a).Int? && env(b).Moment? ==>
                  Worth("TIMESTAMPADD", [keyword, a, b], env) == Some(Moment(env(b).second + env(a).n * unit)))
            && (env(a).Moment? && env(b).Moment? ==>
                  Worth("TIMESTAMPDIFF", [keyword, a, b], env)
                  == Some(Int(Whole(env(b).second - env(a).second, unit))))
  {
    hide Meaning, IntervalUnit, Seconds, Whole, IntervalSeconds, Rewritten;
    UnitSeconds(keyword);
    var unit := IntervalUnit(keyword).value;
    IntervalReads("TIMESTAMPADD", [keyword, a, b]);
    IntervalReads("TIMESTAMPDIFF", [keyword, a, b]);
    ThreeArguments("date_add", unit, a, b, env);
    ThreeArguments("date_diff", unit, a, b, env);
  }

  lemma ThreeArguments(word: string, unit: string, a: string, b: string, env: Env)
    ensures Eval(Call(word, [Quote(unit), Argument(a), Argument(b)]), env) == OfThree(word, Str(unit), env(a), env(b))
  {
    hide OfThree;
    assert Eval(Quote(unit), env) == Some(Str(unit));
    assert Eval(Argument(a), env) == Some(env(a)) && Eval(Argument(b), env) == Some(env(b));
  }

  /** TIMESTAMPDIFF from a timestamp to the one TIMESTAMPADD made of it counts what was added. */
  lemma DiffUndoesAdd(keyword: string, n: string, a: string, b: string, env: Env)
    requires IntervalSeconds(Upper(Trim(keyword))).Some? && env(n).Int? && env(a).Moment?
    requires Worth("TIMESTAMPADD", [keyword, n, a], env) == Some(env(b))
    ensures Worth("TIMESTAMPDIFF", [keyword, a, b], env) == Some(env(n))
  {
    hide Worth, IntervalSeconds;
    IntervalsAreCounted(keyword, n, a, env);
    IntervalsAreCounted(keyword, a, b, env);
    WholeOfMultiple(env(n).n, IntervalSeconds(Upper(Trim(keyword))).value);
  }

  lemma WholeOfMultiple(n: int, unit: nat)
    requires unit > 0
    ensures Whole(n * unit, unit) == n
  {
    if n >= 0 {
      Multiple(n, unit);
    } else {
      assert -(n * unit) == (-n) * unit;
      Multiple(-n, unit);
    }
  }

  lemma Multiple(n: nat, unit: nat)
    requires unit > 0
    ensures n * unit >= 0 && n * unit / unit == n
  {
    var x := n * unit;
    var (q, r) := (x / unit, x % unit);
    assert x == q * unit + r;
    Apart(n - q, unit);
    assert (n - q) * unit == n * unit - q * unit == r;
  }

  /** A multiple other than nought is at least the unit away from it. */
  lemma Apart(a: int, unit: nat)
    requires unit > 0
    ensures a > 0 ==> a * unit >= unit
    ensures a < 0 ==> a * unit + unit <= 0
  {
  }

  /** Sunday is 1 and Saturday 7. */
  function OdbcDay(second: int): nat {
    (second / DAY + 4) % 7 + 1
  }

  /** DAYOFWEEK counts from Sunday: ISO's Monday to Saturday, 1 to 6, become 2 to 7, and its Sunday, 7, becomes 1. */
  lemma DayCountsFromSunday(arg: string, env: Env)
    requires env(arg).Moment?
    ensures var (t, iso) := (env(arg).second, IsoDay(env(arg).second));
            && Worth("DAYOFWEEK", [arg], env) == Some(Int(OdbcDay(t)))
            && OdbcDay(t) == if iso == 7 then 1 else iso + 1
  {
    hide Meaning;
    DayReads(arg);
    var day := Call("day_of_week", [Argument(arg)]);
    assert Rewritten("DAYOFWEEK", false, [arg]) == Some(Plus(Remainder(day, Numeral(7)), Numeral(1)));
    var t := env(arg).second;
    assert Eval(day, env) == Some(Int(IsoDay(t))) by {
      assert Eval(Argument(arg), env) == Some(env(arg));
    }
    assert Eval(Remainder(day, Numeral(7)), env) == Some(Int(IsoDay(t) % 7));
    assert Eval(Numeral(1), env) == Some(Int(1));
    assert Eval(Plus(Remainder(day, Numeral(7)), Numeral(1)), env) == Some(Int(IsoDay(t) % 7 + 1));
    DayNumbers(t / DAY);
  }

  lemma DayNumbers(day: int)
    ensures var iso := (day + 3) % 7 + 1;
            && iso % 7 + 1 == (day + 4) % 7 + 1
            && (day + 4) % 7 + 1 == if iso == 7 then 1 else iso + 1
  {
  }

  // ----- the rest

  /** The ODBC type keywords each target is for. */
  function KeywordsFor(target: string): set<string> {
    match target
    case "BIGINT" => {"SQL_BIGINT"}
    case "INTEGER" => {"SQL_INTEGER"}
    case "SMALLINT" => {"SQL_SMALLINT"}
    case "TINYINT" => {"SQL_TINYINT"}
    case "DOUBLE" => {"SQL_DOUBLE", "SQL_FLOAT"}
    case "REAL" => {"SQL_REAL"}
    case "DECIMAL" => {"SQL_DECIMAL", "SQL_NUMERIC"}
    case "BOOLEAN" => {"SQL_BIT"}
    case "VARCHAR" =>
      {"SQL_CHAR", "SQL_VARCHAR", "SQL_LONGVARCHAR", "SQL_WCHAR", "SQL_WVARCHAR", "SQL_WLONGVARCHAR"}
    case "VARBINARY" => {"SQL_BINARY", "SQL_VARBINARY", "SQL_LONGVARBINARY"}
    case "DATE" => {"SQL_DATE", "SQL_TYPE_DATE"}
    case "TIME" => {"SQL_TIME", "SQL_TYPE_TIME"}
    case "TIMESTAMP" => {"SQL_TIMESTAMP", "SQL_TYPE_TIMESTAMP"}
    case "UUID" => {"SQL_GUID"}
    case _ => {}
  }

  lemma TargetIsFor(keyword: string, target: string)
    ensures ConvertTarget(keyword) == Some(target) <==> Upper(Trim(keyword)) in KeywordsFor(target)
  {
  }

  lemma TargetIsLetters(keyword: string)
    requires ConvertTarget(keyword).Some?
    ensures var t := ConvertTarget(keyword).value; t != [] && forall i :: 0 <= i < |t| ==> IsLetter(t[i])
  {
  }

  /** CONVERT(value, keyword) casts the value to the type the keyword is for. */
  lemma ConvertCasts(value: string, keyword: string, target: string)
    requires Upper(Trim(keyword)) in KeywordsFor(target)
    ensures Rewritten("CONVERT", false, [value, keyword]) == Some(Cast(Argument(value), target))
  {
    hide Meaning, ConvertTarget, KeywordsFor;
    TargetIsFor(keyword, target);
    TargetIsLetters(keyword);
    CastReads(value, target);
  }

  /** The coordinator's keyword for each function without arguments. */
  function KeywordFor(name: string): Option<string> {
    match name
    case "CURDATE" | "CURRENT_DATE" => Some("current_date")
    case "CURTIME" | "CURRENT_TIME" => Some("current_time")
    case "CURRENT_TIMESTAMP" => Some("current_timestamp")
    case "USERNAME" => Some("current_user")
    case "DBNAME" => Some("current_catalog")
    case _ => None
  }

  lemma KeywordIsLetters(name: string)
    requires KeywordFor(name).Some?
    ensures var w := KeywordFor(name).value; w != [] && forall i :: 0 <= i < |w| ==> IsLetter(w[i])
  {
  }

  /** A function without arguments becomes its bare keyword; with any, it is left alone. */
  lemma KeywordsAreBare(name: string, parts: seq<string>)
    requires KeywordFor(name).Some?
    ensures Rewritten(name, true, parts) == Some(Keyword(KeywordFor(name).value))
    ensures Rewritten(name, false, parts) == None
  {
    hide Meaning;
    KeywordIsLetters(name);
    KeywordReads(KeywordFor(name).value);
  }

  /** RAND with a seed becomes the generator that takes none; without one it is left alone. */
  lemma RandDropsItsSeed(seed: string)
    ensures Rewritten("RAND", false, [seed]) == Some(Call("random", []))
    ensures Rewritten("RAND", true, [seed]) == None
  {
    hide Meaning;
    RandomReads();
  }

  /** How many arguments a function takes to be rewritten. */
  function Arity(name: string): Option<nat> {
    match name
    case "LENGTH" | "LTRIM" | "RTRIM" | "DAYOFWEEK" | "RAND" => Some(1)
    case "LOCATE" | "CONVERT" | "TRUNCATE" => Some(2)
    case "TIMESTAMPADD" | "TIMESTAMPDIFF" => Some(3)
    case _ => None
  }

  /** With another number of arguments, or an interval or type that is not known, a call is left alone, as is any other function. */
  lemma OthersAreLeftAlone(name: string, blank: bool, parts: seq<string>)
    requires KeywordFor(name).None?
    ensures RewriteParts(name, blank, parts).Some? <==>
              && Arity(name) == Some(|parts|)
              && (name == "RAND" ==> !blank)
              && (name == "CONVERT" ==> ConvertTarget(parts[1]).Some?)
              && (name in {"TIMESTAMPADD", "TIMESTAMPDIFF"} ==> IntervalUnit(parts[0]).Some?)
  {
    hide ConvertTarget, IntervalUnit, RewriteTruncate;
  }

  /**
   * From the text of a call: its name in any case, and its whole arguments, each
   * without the white space around it; `blank` says that there is nothing else.
   */
  lemma CallIsItsArguments(name: string, args: seq<string>)
    requires args != [] && forall i :: 0 <= i < |args| ==> OneArg(args[i])
    ensures Rewrite(name, Join(args)) == RewriteParts(Upper(name), AllSpace(Join(args)), Trimmed(args))
    ensures forall i :: 0 <= i < |args| ==> Trimmed(args)[i] == Trim(args[i])
  {
    hide RewriteParts, Upper, Trim, IsSpace;
    SplitOfTrimmedJoin(args);
    TrimmedToNothing(Join(args));
  }

  lemma TrimmedToNothing(s: string)
    ensures Trim(s) == [] <==> AllSpace(s)
  {
    var before, after := TrimParts(s);
    if Trim(s) == [] {
      assert s == before + after;
      assert forall i :: 0 <= i < |s| ==> s[i] in before + after;
    }
    if AllSpace(s) {
      TrimIsMiddle(s, [], []);
      assert s + [] + [] == s;
    }
  }
}
