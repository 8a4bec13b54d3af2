/**
 * Reading a Trino type signature: the variant it names, and the parameters in
 * its parentheses, which are found in two different ways.
 */
module TypeSignature {
  import opened Wrappers
  import opened Text

  datatype TypeName =
    | Boolean | TinyInt | SmallInt | Integer | BigInt | Real | Double | Decimal
    | Varchar | Char | Varbinary | Date | Time | TimeWithTimeZone | Timestamp
    | TimestampWithTimeZone | Json | Uuid | IntervalDayToSecond | IntervalYearToMonth

  function LowerChar(c: char): char {
    if 'A' <= c <= 'Z' then (c as int + 32) as char else c
  }

  function Lower(s: string): (l: string)
    ensures |l| == |s|
    ensures forall i :: 0 <= i < |s| ==> l[i] == LowerChar(s[i])
  {
    seq(|s|, i requires 0 <= i < |s| => LowerChar(s[i]))
  }

  /** The signature without its parenthesised argument, in lower case. */
  function StripPrecisionParam(name: string): string {
    var lower := Lower(Trim(name));
    match Find(lower, '(')
    case None => lower
    case Some(start) =>
      match Find(lower[start..], ')')
      case None => lower
      case Some(length) =>
        var prefix, suffix := TrimEnd(lower[..start]), Trim(lower[start + length + 1..]);
        if suffix == [] then prefix else prefix + " " + suffix
  }

  function TypeOf(base: string): Option<TypeName> {
    match base
    case "boolean" => Some(Boolean)
    case "tinyint" => Some(TinyInt)
    case "smallint" => Some(SmallInt)
    case "integer" | "int" => Some(Integer)
    case "bigint" => Some(BigInt)
    case "real" => Some(Real)
    case "double" | "double precision" => Some(Double)
    case "decimal" | "numeric" => Some(Decimal)
    case "varchar" | "character varying" | "string" => Some(Varchar)
    case "char" => Some(Char)
    case "varbinary" => Some(Varbinary)
    case "date" => Some(Date)
    case "time" => Some(Time)
    case "time with time zone" => Some(TimeWithTimeZone)
    case "timestamp" => Some(Timestamp)
    case "timestamp with time zone" => Some(TimestampWithTimeZone)
    case "json" => Some(Json)
    case "uuid" => Some(Uuid)
    case "interval day to second" => Some(IntervalDayToSecond)
    case "interval year to month" => Some(IntervalYearToMonth)
    case _ => None
  }

  function ParseType(name: string): Option<TypeName> {
    TypeOf(StripPrecisionParam(name))
  }

  /** The text between the first opening and the last closing parenthesis. */
  function ParamText(name: string): Option<string> {
    match (Find(name, '('), FindLast(name, c => c == ')'))
    case (Some(start), Some(end)) => if start + 1 <= end then Some(name[start + 1..end]) else None
    case _ => None
  }

  function PrecisionParam(name: string): Option<int> {
    match ParamText(name)
    case None => None
    case Some(text) => ParseInt(Trim(Split(text, ',')[0]), I32)
  }

  function ScaleParam(name: string): Option<int> {
    match ParamText(name)
    case None => None
    case Some(text) =>
      var pieces := Split(text, ',');
      if |pieces| < 2 then None else ParseInt(Trim(pieces[1]), I32)
  }

  const DEFAULT_TEMPORAL_SCALE := 3

  /** For a temporal type the sole argument is its scale, when it fits 16 bits. */
  function TemporalScale(name: string): int {
    match PrecisionParam(name)
    case None => DEFAULT_TEMPORAL_SCALE
    case Some(s) => match Fits(s, I16) case None => DEFAULT_TEMPORAL_SCALE case Some(n) => n
  }

  function TypeNameScale(name: string): Option<int> {
    match ParseType(name)
    case Some(Decimal) => ScaleParam(name)
    case Some(Time) | Some(TimeWithTimeZone) | Some(Timestamp) | Some(TimestampWithTimeZone) => Some(TemporalScale(name))
    case _ => None
  }

  /** How many characters a time of `whole` characters takes with `scale` fraction digits and their point. */
  function TemporalSize(whole: int, scale: int): int {
    if scale == 0 then whole else whole + 1 + scale
  }

  const TIME_CHARACTERS := 8
  const TIMESTAMP_CHARACTERS := 19

  /** The column size; `sizes` are the core's, for the types without an argument. */
  function TypeNamePrecision(name: string, sizes: TypeName -> Option<int>): Option<int> {
    match ParseType(name)
    case None => None
    case Some(Varchar) | Some(Char) | Some(Decimal) => PrecisionParam(name)
    case Some(Time) | Some(TimeWithTimeZone) => Some(TemporalSize(TIME_CHARACTERS, TemporalScale(name)))
    case Some(Timestamp) | Some(TimestampWithTimeZone) =>
      Some(TemporalSize(TIMESTAMP_CHARACTERS, TemporalScale(name)))
    case Some(ty) => sizes(ty)
  }

  // ----- the two ways of finding the parentheses agree

  predicate NoParens(s: string) {
    '(' !in s && ')' !in s
  }

  lemma NumericNames()
    ensures NoParens("boolean") && NoParens("tinyint") && NoParens("smallint") && NoParens("integer")
    ensures NoParens("int") && NoParens("bigint") && NoParens("real") && NoParens("double")
  {
  }

  lemma TextNames()
    ensures NoParens("decimal") && NoParens("numeric") && NoParens("varchar") && NoParens("string")
    ensures NoParens("char") && NoParens("varbinary") && NoParens("json") && NoParens("uuid")
  {
  }

  lemma ShortTemporalNames()
    ensures NoParens("date") && NoParens("time") && NoParens("timestamp")
    ensures NoParens("double precision") && NoParens("character varying")
  {
  }

  lemma ZonedNames()
    ensures NoParens("time with time zone") && NoParens("timestamp with time zone")
  {
  }

  lemma IntervalNames()
    ensures NoParens("interval day to second") && NoParens("interval year to month")
  {
  }

  lemma TableHasNoParens(base: string)
    requires TypeOf(base).Some?
    ensures NoParens(base)
  {
    hide NoParens;
    NumericNames();
    TextNames();
    ShortTemporalNames();
    ZonedNames();
    IntervalNames();
  }

  lemma LowerKeeps(s: string, c: char)
    requires c == '(' || c == ')'
    ensures c in Lower(s) <==> c in s
  {
    if c in s {
      var i :| 0 <= i < |s| && s[i] == c;
      assert Lower(s)[i] == c;
    }
    if c in Lower(s) {
      var i :| 0 <= i < |s| && Lower(s)[i] == c;
      assert s[i] == c;
    }
  }

  lemma TrimKeeps(s: string, c: char)
    requires !IsSpace(c)
    ensures c in Trim(s) <==> c in s
    ensures c in TrimEnd(s) <==> c in s
  {
    var before, after := TrimParts(s);
    assert c in s <==> c in before + Trim(s) + after;
    assert s == TrimEnd(s) + s[TrimTo(s)..];
    assert c in s <==> c in TrimEnd(s) + s[TrimTo(s)..];
  }

  /** The base that the text around the argument leaves. */
  function Joined(prefix: string, suffix: string): string {
    var p, s := Trim(Lower(prefix)), Trim(Lower(suffix));
    if s == [] then p else p + " " + s
  }

  lemma LowerConcat(a: string, b: string)
    ensures Lower(a + b) == Lower(a) + Lower(b)
  {
  }

  lemma LowerSpace(s: string)
    ensures forall i :: 0 <= i < |s| ==> (IsSpace(Lower(s)[i]) <==> IsSpace(s[i]))
  {
  }

  /** Whitespace outside the signature does not reach the base. */
  lemma JoinedIgnoresSpace(before: string, prefix: string, suffix: string, after: string)
    requires AllSpace(before) && AllSpace(after)
    requires prefix == [] || !IsSpace(prefix[0])
    ensures Trim(Lower(before + prefix)) == TrimEnd(Lower(prefix))
    ensures Trim(Lower(suffix + after)) == Trim(Lower(suffix))
  {
    hide Lower, Trim, TrimEnd, IsSpace;
    PrefixIgnoresSpace(before, prefix);
    SuffixIgnoresSpace(suffix, after);
  }

  lemma TrimEndParts(s: string) returns (tail: string)
    ensures s == TrimEnd(s) + tail && AllSpace(tail)
    ensures TrimEnd(s) == [] || !IsSpace(TrimEnd(s)[|TrimEnd(s)| - 1])
  {
    tail := s[TrimTo(s)..];
  }

  lemma PrefixIgnoresSpace(before: string, prefix: string)
    requires AllSpace(before)
    requires prefix == [] || !IsSpace(prefix[0])
    ensures Trim(Lower(before + prefix)) == TrimEnd(Lower(prefix))
  {
    hide Lower, Trim, TrimEnd, IsSpace;
    LowerConcat(before, prefix);
    LowerSpace(before);
    LowerSpace(prefix);
    var p, m := Lower(prefix), TrimEnd(Lower(prefix));
    var tail := TrimEndParts(p);
    if m == [] {
      assert p == tail;
    } else {
      assert p[0] == m[0];
    }
    TrimIsMiddle(Lower(before), m, tail);
    assert Lower(before) + p == Lower(before) + m + tail;
  }

  lemma SuffixIgnoresSpace(suffix: string, after: string)
    requires AllSpace(after)
    ensures Trim(Lower(suffix + after)) == Trim(Lower(suffix))
  {
    LowerConcat(suffix, after);
    LowerSpace(after);
    var s := Lower(suffix);
    var b, a := TrimParts(s);
    assert forall i :: 0 <= i < |b| ==> b[i] in b + a;
    assert forall i :: 0 <= i < |a| ==> a[i] in b + a;
    TrimIsMiddle(b, Trim(s), a + Lower(after));
    assert s + Lower(after) == b + Trim(s) + (a + Lower(after));
  }

  lemma FindAt(before: string, c: char, after: string)
    requires c !in before
    ensures Find(before + [c] + after, c) == Some(|before|)
  {
    var s := before + [c] + after;
    assert s[|before|] == c;
    var i := Find(s, c).value;
    assert forall k :: 0 <= k < |before| ==> s[k] == before[k];
    assert forall k :: 0 <= k < i ==> s[..i][k] != c;
    assert forall k :: 0 <= k < i ==> s[k] != c;
  }

  lemma StripUnfolds(name: string)
    ensures var lower := Lower(Trim(name)); var open := Find(lower, '(');
            open.Some? ==>
              match Find(lower[open.value..], ')')
              case None => StripPrecisionParam(name) == lower
              case Some(length) =>
                StripPrecisionParam(name)
                == (var prefix, suffix := TrimEnd(lower[..open.value]), Trim(lower[open.value + length + 1..]);
                    if suffix == [] then prefix else prefix + " " + suffix)
  {
    hide Find, Lower, Trim, TrimEnd;
  }

  /** Where the first opening parenthesis closes, in the lower-case signature. */
  lemma LowerFinds(name: string) returns (start: nat, end: nat)
    requires NoParens(StripPrecisionParam(name)) && '(' in Lower(Trim(name))
    ensures var lower := Lower(Trim(name));
            && start < end < |lower| && lower[start] == '(' && lower[end] == ')' && '(' !in lower[..start]
            && StripPrecisionParam(name)
               == (var prefix, suffix := TrimEnd(lower[..start]), Trim(lower[end + 1..]);
                   if suffix == [] then prefix else prefix + " " + suffix)
  {
    StripUnfolds(name);
    hide Trim, TrimEnd, Lower, StripPrecisionParam, Find;
    var lower := Lower(Trim(name));
    start := Find(lower, '(').value;
    end := start + Find(lower[start..], ')').value;
    assert lower[end] == lower[start..][end - start];
  }

  /** The same place in the signature as it was written. */
  lemma StripFinds(name: string) returns (start: nat, end: nat)
    requires NoParens(StripPrecisionParam(name)) && '(' in name
    ensures var t := Trim(name);
            && start < end < |t| && t[start] == '(' && t[end] == ')' && '(' !in t[..start]
            && StripPrecisionParam(name)
               == (var prefix, suffix := TrimEnd(Lower(t[..start])), Trim(Lower(t[end + 1..]));
                   if suffix == [] then prefix else prefix + " " + suffix)
  {
    ParenSurvives(name);
    hide Trim, TrimEnd, Lower, StripPrecisionParam;
    start, end := LowerFinds(name);
    LowerShape(Trim(name), start, end);
  }

  lemma LowerShape(t: string, start: nat, end: nat)
    requires start < end < |t|
    requires Lower(t)[start] == '(' && Lower(t)[end] == ')' && '(' !in Lower(t)[..start]
    ensures t[start] == '(' && t[end] == ')' && '(' !in t[..start]
    ensures Lower(t)[..start] == Lower(t[..start]) && Lower(t)[end + 1..] == Lower(t[end + 1..])
  {
    hide Lower;
    LowerPrefix(t, start);
    LowerSuffix(t, end + 1);
    LowerKeeps(t[..start], '(');
    LowerParen(t, start);
    LowerParen(t, end);
  }

  lemma LowerParen(s: string, i: nat)
    requires i < |s| && (Lower(s)[i] == '(' || Lower(s)[i] == ')')
    ensures s[i] == Lower(s)[i]
  {
    assert Lower(s)[i] == LowerChar(s[i]);
  }

  lemma ParenSurvives(name: string)
    requires '(' in name
    ensures '(' in Lower(Trim(name))
  {
    assert !IsSpace('(');
    TrimKeeps(name, '(');
    LowerKeeps(Trim(name), '(');
  }

  lemma LowerPrefix(t: string, n: nat)
    requires n <= |t|
    ensures Lower(t)[..n] == Lower(t[..n])
  {
  }

  lemma LowerSuffix(t: string, n: nat)
    requires n <= |t|
    ensures Lower(t)[n..] == Lower(t[n..])
  {
  }

  lemma TrimmedKeepsParens(s: string)
    ensures NoParens(TrimEnd(Lower(s))) <==> NoParens(s)
    ensures NoParens(Trim(Lower(s))) <==> NoParens(s)
  {
    assert !IsSpace('(') && !IsSpace(')');
    TrimKeeps(Lower(s), '(');
    TrimKeeps(Lower(s), ')');
    LowerKeeps(s, '(');
    LowerKeeps(s, ')');
  }

  /** What stripping made of a signature whose base has no parentheses left. */
  lemma StripShape(name: string) returns (start: nat, end: nat)
    requires NoParens(StripPrecisionParam(name)) && '(' in name
    ensures var t := Trim(name);
            && start < end < |t| && t[start] == '(' && t[end] == ')'
            && NoParens(t[..start]) && NoParens(t[end + 1..])
            && StripPrecisionParam(name)
               == (var prefix, suffix := TrimEnd(Lower(t[..start])), Trim(Lower(t[end + 1..]));
                   if suffix == [] then prefix else prefix + " " + suffix)
  {
    hide StripPrecisionParam, Trim, TrimEnd, Lower;
    start, end := StripFinds(name);
    var t := Trim(name);
    TrimmedKeepsParens(t[..start]);
    TrimmedKeepsParens(t[end + 1..]);
    var prefix, suffix := TrimEnd(Lower(t[..start])), Trim(Lower(t[end + 1..]));
    assert suffix != [] ==> forall c :: c in prefix + " " + suffix <==> c in prefix || c == ' ' || c in suffix;
  }

  /**
   * For every signature the parser accepts, either it has no parenthesis at
   * all, or its first opening one precedes its last closing one, and the text
   * the parameter parsers read is exactly the text that stripping removed.
   */
  lemma ReadsWhatStripRemoves(name: string) returns (prefix: string, middle: string, suffix: string)
    requires ParseType(name).Some?
    ensures NoParens(name) ==> ParamText(name) == None
    ensures !NoParens(name) ==>
              && name == prefix + ['('] + middle + [')'] + suffix
              && NoParens(prefix) && NoParens(suffix)
              && ParamText(name) == Some(middle)
              && ParseType(name) == TypeOf(Joined(prefix, suffix))
  {
    prefix, middle, suffix := [], [], [];
    TableHasNoParens(StripPrecisionParam(name));
    hide StripPrecisionParam, Trim, Lower, TypeOf, FindLast, Find;
    if '(' in name {
      var start, end := StripShape(name);
      var t := Trim(name);
      var before, after := TrimParts(name);
      SpaceHasNoParens(before, after);
      prefix, middle, suffix := before + t[..start], t[start + 1..end], t[end + 1..] + after;
      Reassemble(before, t, after, start, end);
      ParamTextAt(prefix, middle, suffix);
      hide ParamText, NoParens, Joined;
      JoinedIgnoresSpace(before, t[..start], t[end + 1..], after);
      JoinedIs(prefix, suffix);
    } else {
      NoParenStays(name);
    }
  }

  lemma JoinedIs(prefix: string, suffix: string)
    ensures Joined(prefix, suffix)
         == (var p, s := Trim(Lower(prefix)), Trim(Lower(suffix)); if s == [] then p else p + " " + s)
  {
  }

  lemma Reassemble(before: string, t: string, after: string, start: nat, end: nat)
    requires start < end < |t| && t[start] == '(' && t[end] == ')'
    ensures before + t + after
         == (before + t[..start]) + ['('] + t[start + 1..end] + [')'] + (t[end + 1..] + after)
  {
    assert t == t[..start] + ['('] + t[start + 1..end] + [')'] + t[end + 1..];
  }

  lemma NoParenStays(name: string)
    requires '(' !in name && NoParens(StripPrecisionParam(name))
    ensures NoParens(name) && ParamText(name) == None
  {
    assert !IsSpace('(') && !IsSpace(')');
    TrimKeeps(name, '(');
    TrimKeeps(name, ')');
    LowerKeeps(Trim(name), '(');
    LowerKeeps(Trim(name), ')');
    hide Trim, Lower;
    assert Find(Lower(Trim(name)), '(').None?;
  }

  lemma SpaceHasNoParens(before: string, after: string)
    requires forall c :: c in before + after ==> IsSpace(c)
    ensures AllSpace(before) && AllSpace(after) && NoParens(before) && NoParens(after)
  {
    assert forall i :: 0 <= i < |before| ==> before[i] in before + after;
    assert forall i :: 0 <= i < |after| ==> after[i] in before + after;
    assert !IsSpace('(') && !IsSpace(')');
  }

  /** The parameter parsers' own way of finding the argument. */
  lemma ParamTextAt(prefix: string, middle: string, suffix: string)
    requires '(' !in prefix && ')' !in suffix
    ensures ParamText(prefix + ['('] + middle + [')'] + suffix) == Some(middle)
  {
    var name := prefix + ['('] + middle + [')'] + suffix;
    assert name == prefix + ['('] + (middle + [')'] + suffix);
    assert name == (prefix + ['('] + middle) + [')'] + suffix;
    FindAt(prefix, '(', middle + [')'] + suffix);
    FindLastAt(prefix + ['('] + middle, ')', suffix, c => c == ')');
    hide Find, FindLast;
    assert name[|prefix| + 1..|prefix| + 1 + |middle|] == middle;
  }

  // ----- printing a signature and reading it again

  /** A signature with an argument, its parts already in the printed form. */
  lemma PrintedShape(prefix: string, middle: string, suffix: string)
    requires prefix != [] && !IsSpace(prefix[0]) && !IsSpace(prefix[|prefix| - 1])
    requires suffix == [] || !IsSpace(suffix[|suffix| - 1])
    requires NoParens(prefix) && NoParens(suffix) && ')' !in middle
    ensures ParamText(prefix + ['('] + middle + [')'] + suffix) == Some(middle)
    ensures StripPrecisionParam(prefix + ['('] + middle + [')'] + suffix)
         == (var s := Trim(Lower(suffix)); if s == [] then Lower(prefix) else Lower(prefix) + " " + s)
  {
    hide Find, FindLast, Lower, Trim, TrimEnd, ParamText, IsSpace;
    ParamTextAt(prefix, middle, suffix);
    PrintedTrim(prefix, middle, suffix);
    PrintedLower(prefix, middle, suffix);
    LowerKeeps(prefix, '(');
    LowerKeeps(middle, ')');
    StripFound(Lower(prefix), Lower(middle), Lower(suffix));
  }

  lemma PrintedTrim(prefix: string, middle: string, suffix: string)
    requires prefix != [] && !IsSpace(prefix[0]) && !IsSpace(prefix[|prefix| - 1])
    requires suffix == [] || !IsSpace(suffix[|suffix| - 1])
    ensures var name := prefix + ['('] + middle + [')'] + suffix; Trim(name) == name
    ensures TrimEnd(Lower(prefix)) == Lower(prefix)
  {
    hide Trim;
    var name := prefix + ['('] + middle + [')'] + suffix;
    assert !IsSpace(')');
    assert name[|name| - 1] == if suffix == [] then ')' else suffix[|suffix| - 1];
    TrimIsIdentity(name);
    LowerSpace(prefix);
  }

  lemma StripFound(p: string, m: string, s: string)
    requires '(' !in p && ')' !in m
    ensures var lower := p + ['('] + m + [')'] + s;
            && Find(lower, '(') == Some(|p|)
            && Find(lower[|p|..], ')') == Some(1 + |m|)
            && lower[..|p|] == p && lower[|p| + (1 + |m|) + 1..] == s
  {
    hide Find;
    var lower := p + ['('] + m + [')'] + s;
    assert lower == p + ['('] + (m + [')'] + s);
    FindAt(p, '(', m + [')'] + s);
    assert lower[|p|..] == (['('] + m) + [')'] + s;
    assert ')' !in ['('] + m;
    FindAt(['('] + m, ')', s);
  }

  lemma PrintedLower(prefix: string, middle: string, suffix: string)
    ensures Lower(prefix + ['('] + middle + [')'] + suffix)
         == Lower(prefix) + ['('] + Lower(middle) + [')'] + Lower(suffix)
  {
    LowerConcat(prefix + ['('] + middle + [')'], suffix);
    LowerConcat(prefix + ['('] + middle, [')']);
    LowerConcat(prefix + ['('], middle);
    LowerConcat(prefix, ['(']);
    assert Lower(['(']) == ['('] && Lower([')']) == [')'];
  }

  lemma LowerIsIdentity(s: string)
    requires forall i :: 0 <= i < |s| ==> !('A' <= s[i] <= 'Z')
    ensures Lower(s) == s
  {
  }

  lemma DigitsReadBack(n: nat)
    requires n <= I32.hi
    ensures ParseInt(Trim(Show(n)), I32) == Some(n)
    ensures ',' !in Show(n) && ')' !in Show(n)
  {
    var s := Show(n);
    assert forall c :: IsDigit(c) ==> !IsSpace(c);
    TrimIsIdentity(s);
    ParseShown(n, I32);
    assert forall c :: c in s ==> IsDigit(c);
    assert !IsDigit(',') && !IsDigit(')');
  }

  predicate IsCharacterHead(head: string) {
    head == "varchar" || head == "char"
  }

  lemma CharacterName(head: string)
    requires IsCharacterHead(head)
    ensures TypeOf(head) == Some(if head == "char" then Char else Varchar)
    ensures NoParens(head) && NoParens([]) && !IsSpace(head[0]) && !IsSpace(head[|head| - 1])
    ensures Lower(head) == head
  {
    LowerIsIdentity(head);
    assert !IsSpace('v') && !IsSpace('c') && !IsSpace('r');
  }

  lemma DecimalName()
    ensures TypeOf("decimal") == Some(Decimal) && NoParens("decimal") && NoParens([]) && !IsSpace('d') && !IsSpace('l')
  {
  }

  predicate IsTemporalHead(head: string) {
    head == "time" || head == "timestamp"
  }

  const ZONED := " with time zone"

  function TemporalType(head: string, zoned: bool): TypeName {
    if head == "time" then (if zoned then TimeWithTimeZone else Time)
    else (if zoned then TimestampWithTimeZone else Timestamp)
  }

  lemma TemporalNames(head: string)
    requires IsTemporalHead(head)
    ensures TypeOf(head) == Some(TemporalType(head, false))
    ensures TypeOf(head + " " + "with time zone") == Some(TemporalType(head, true))
  {
    assert "time" + " " + "with time zone" == "time with time zone";
    assert "timestamp" + " " + "with time zone" == "timestamp with time zone";
  }

  lemma TemporalText(head: string)
    requires IsTemporalHead(head)
    ensures NoParens(head) && NoParens(ZONED) && NoParens([])
    ensures !IsSpace(head[0]) && !IsSpace(head[|head| - 1]) && !IsSpace(ZONED[|ZONED| - 1])
    ensures Lower(head) == head && Lower(ZONED) == ZONED
  {
    LowerIsIdentity(head);
    LowerIsIdentity(ZONED);
    assert ZONED[|ZONED| - 1] == 'e' && !IsSpace('e') && !IsSpace('t') && !IsSpace('p');
  }

  /** `varchar(n)` and `char(n)` read back as their variant and length, for every length in range. */
  lemma CharacterReadsBack(head: string, n: nat, sizes: TypeName -> Option<int>)
    requires IsCharacterHead(head) && n <= I32.hi
    ensures var name := head + ['('] + Show(n) + [')'] + [];
            && ParseType(name) == Some(if head == "char" then Char else Varchar)
            && TypeNamePrecision(name, sizes) == Some(n) && TypeNameScale(name) == None
  {
    hide Show, ParseInt, Trim, Lower, StripPrecisionParam, ParamText, Split, TypeOf, TemporalScale, NoParens, IsSpace;
    DigitsReadBack(n);
    CharacterName(head);
    NothingIsNothing();
    SplitNone(Show(n));
    PrintedShape(head, Show(n), []);
  }

  /** `decimal(p,s)` reads back with both numbers. */
  lemma DecimalReadsBack(p: nat, s: nat, sizes: TypeName -> Option<int>)
    requires p <= I32.hi && s <= I32.hi
    ensures var name := "decimal" + ['('] + (Show(p) + "," + Show(s)) + [')'] + [];
            && ParseType(name) == Some(Decimal)
            && TypeNamePrecision(name, sizes) == Some(p) && TypeNameScale(name) == Some(s)
  {
    hide Show, ParseInt, Trim, Lower, StripPrecisionParam, ParamText, Split, TypeOf, TemporalScale, NoParens;
    DigitsReadBack(p);
    DigitsReadBack(s);
    DecimalName();
    LowerIsIdentity("decimal");
    NothingIsNothing();
    PairSplits(Show(p), Show(s));
    PrintedShape("decimal", Show(p) + "," + Show(s), []);
  }

  lemma NothingIsNothing()
    ensures Lower([]) == [] && Trim([]) == []
  {
  }

  lemma PairSplits(a: string, b: string)
    requires ',' !in a && ',' !in b
    ensures Split(a + "," + b, ',') == [a, b]
    ensures ')' !in a && ')' !in b ==> ')' !in a + "," + b
  {
    hide SplitOnce;
    assert a + "," + b == a + [','] + b;
    SplitOnceAt(a, ',', b);
    SplitNone(b);
  }

  /**
   * A time or timestamp, with a zone or without, keeps the suffix behind its
   * argument; the argument reads back as its scale, and its column size has
   * room for the clock, the point and the digits.
   */
  lemma TemporalReadsBack(head: string, zoned: bool, s: nat, sizes: TypeName -> Option<int>)
    requires IsTemporalHead(head) && s <= I16.hi
    ensures var name := head + ['('] + Show(s) + [')'] + (if zoned then ZONED else []);
            && ParseType(name) == Some(TemporalType(head, zoned))
            && TypeNameScale(name) == Some(s)
            && TypeNamePrecision(name, sizes)
               == Some(TemporalSize(if head == "time" then TIME_CHARACTERS else TIMESTAMP_CHARACTERS, s))
  {
    hide Show, ParseInt, Trim, Lower, StripPrecisionParam, ParamText, Split, NoParens, TypeOf, IsSpace;
    DigitsReadBack(s);
    TemporalNames(head);
    TemporalText(head);
    SuffixTrims();
    NothingIsNothing();
    SplitNone(Show(s));
    PrintedShape(head, Show(s), if zoned then ZONED else []);
  }

  /** `timestamp(s) with time zone`: its variant, its scale, and `20 + s` characters, 19 without digits. */
  lemma TimestampReadsBack(s: nat, sizes: TypeName -> Option<int>)
    requires s <= I16.hi
    ensures var name := "timestamp" + ['('] + Show(s) + [')'] + " with time zone";
            && ParseType(name) == Some(TimestampWithTimeZone)
            && TypeNameScale(name) == Some(s)
            && TypeNamePrecision(name, sizes) == Some(if s == 0 then 19 else 20 + s)
  {
    hide TypeNameScale, TypeNamePrecision, ParseType, Show;
    TemporalReadsBack("timestamp", true, s, sizes);
  }

  lemma SuffixTrims()
    ensures Trim(ZONED) == "with time zone"
  {
    hide Trim;
    assert IsSpace(' ') && !IsSpace('w') && !IsSpace('e');
    var s := "with time zone";
    assert s[0] == 'w' && s[|s| - 1] == 'e';
    assert [' '] + "with time zone" + [] == ZONED;
    TrimIsMiddle([' '], "with time zone", []);
  }

  lemma SplitNone(s: string)
    requires ',' !in s
    ensures Split(s, ',') == [s]
  {
  }

  // ----- names without an argument

  /** A name the coordinator may print as it stands: lower case, no parentheses, no space around it. */
  ghost predicate Printed(name: string) {
    && name != [] && !IsSpace(name[0]) && !IsSpace(name[|name| - 1]) && NoParens(name)
    && forall i :: 0 <= i < |name| ==> !('A' <= name[i] <= 'Z')
  }

  lemma PrintedParses(name: string)
    requires Printed(name)
    ensures ParseType(name) == TypeOf(name) && ParamText(name) == None
  {
    hide TypeOf;
    TrimIsIdentity(name);
    LowerIsIdentity(name);
  }

  /** The name of each type, which its signature starts with when it takes an argument. */
  function NameOf(ty: TypeName): string {
    match ty
    case Boolean => "boolean"
    case TinyInt => "tinyint"
    case SmallInt => "smallint"
    case Integer => "integer"
    case BigInt => "bigint"
    case Real => "real"
    case Double => "double"
    case Decimal => "decimal"
    case Varchar => "varchar"
    case Char => "char"
    case Varbinary => "varbinary"
    case Date => "date"
    case Time => "time"
    case TimeWithTimeZone => "time with time zone"
    case Timestamp => "timestamp"
    case TimestampWithTimeZone => "timestamp with time zone"
    case Json => "json"
    case Uuid => "uuid"
    case IntervalDayToSecond => "interval day to second"
    case IntervalYearToMonth => "interval year to month"
  }

  /** Small letters, with spaces only between words. */
  predicate Lettered(name: string) {
    && name != [] && name[0] != ' ' && name[|name| - 1] != ' '
    && forall i :: 0 <= i < |name| ==> 'a' <= name[i] <= 'z' || name[i] == ' '
  }

  lemma LetteredIsPrinted(name: string)
    requires Lettered(name)
    ensures Printed(name)
  {
    assert forall c :: 'a' <= c <= 'z' ==> !IsSpace(c);
  }

  lemma NamesAreLettered(ty: TypeName)
    ensures Lettered(NameOf(ty))
  {
    hide NameOf, Lettered;
    if HasSpaces(ty) {
      LongNamesAreLettered(ty);
    } else {
      ShortNamesAreLettered(ty);
    }
  }

  predicate HasSpaces(ty: TypeName) {
    ty in {TimeWithTimeZone, TimestampWithTimeZone, IntervalDayToSecond, IntervalYearToMonth}
  }

  lemma LongNamesAreLettered(ty: TypeName)
    requires HasSpaces(ty)
    ensures Lettered(NameOf(ty))
  {
  }

  lemma ShortNamesAreLettered(ty: TypeName)
    requires !HasSpaces(ty)
    ensures Lettered(NameOf(ty))
  {
  }

  lemma NamesAreTypes(ty: TypeName)
    ensures TypeOf(NameOf(ty)) == Some(ty)
  {
  }

  lemma NamesArePrinted(ty: TypeName)
    ensures Printed(NameOf(ty)) && TypeOf(NameOf(ty)) == Some(ty)
  {
    hide NameOf, TypeOf, Printed, Lettered;
    NamesAreLettered(ty);
    NamesAreTypes(ty);
    LetteredIsPrinted(NameOf(ty));
  }

  /** Every type's own name reads back as that type, in any case and with any space around it. */
  lemma NameReadsBack(ty: TypeName, text: string)
    requires Lower(Trim(text)) == NameOf(ty)
    ensures ParseType(text) == Some(ty)
  {
    NamesArePrinted(ty);
    hide TypeOf, NameOf, Lower, Trim, IsSpace;
    NoParensFound(NameOf(ty));
    assert StripPrecisionParam(text) == NameOf(ty);
  }

  lemma NoParensFound(name: string)
    requires Printed(name)
    ensures Find(name, '(') == None
  {
  }

  function AliasOf(name: string): Option<TypeName> {
    match name
    case "int" => Some(Integer)
    case "numeric" => Some(Decimal)
    case "double precision" => Some(Double)
    case "character varying" => Some(Varchar)
    case "string" => Some(Varchar)
    case _ => None
  }

  /** The other names the parser knows are names of the same types. */
  lemma AliasReadsBack(name: string)
    requires AliasOf(name).Some?
    ensures ParseType(name) == AliasOf(name)
  {
    hide ParseType, Printed, Lettered, TypeOf, AliasOf;
    AliasesAreLettered(name);
    AliasesAreTypes(name);
    LetteredIsPrinted(name);
    PrintedParses(name);
  }

  lemma AliasesAreLettered(name: string)
    requires AliasOf(name).Some?
    ensures Lettered(name)
  {
  }

  lemma AliasesAreTypes(name: string)
    requires AliasOf(name).Some?
    ensures TypeOf(name) == AliasOf(name)
  {
  }

  /** Without an argument the scale is three digits; the column size has room for them. */
  lemma BareReadsBack(ty: TypeName, sizes: TypeName -> Option<int>)
    ensures var (scale, size) := (TypeNameScale(NameOf(ty)), TypeNamePrecision(NameOf(ty), sizes));
            match ty
            case Time | TimeWithTimeZone => scale == Some(3) && size == Some(12)
            case Timestamp | TimestampWithTimeZone => scale == Some(3) && size == Some(23)
            case Varchar | Char | Decimal => scale == None && size == None
            case _ => scale == None && size == sizes(ty)
  {
    hide NameOf, TypeOf, ParamText, ParseType, PrecisionParam, ScaleParam, TemporalScale, Printed;
    NamesArePrinted(ty);
    PrintedParses(NameOf(ty));
    NoArgument(NameOf(ty));
  }

  lemma NoArgument(name: string)
    requires ParamText(name) == None
    ensures PrecisionParam(name) == None && ScaleParam(name) == None && TemporalScale(name) == 3
  {
    hide ParamText;
  }

  /** A scale too large for sixteen bits is taken for none. */
  lemma LargeScaleIsDefault(head: string, zoned: bool, s: nat)
    requires IsTemporalHead(head) && s > I16.hi
    ensures var name := head + ['('] + Show(s) + [')'] + (if zoned then ZONED else []);
            ParseType(name) == Some(TemporalType(head, zoned)) && TypeNameScale(name) == Some(3)
  {
    hide Show, ParseInt, Trim, Lower, StripPrecisionParam, ParamText, Split, NoParens, TypeOf, IsSpace;
    DigitsRead(s);
    TemporalNames(head);
    TemporalText(head);
    SuffixTrims();
    NothingIsNothing();
    SplitNone(Show(s));
    PrintedShape(head, Show(s), if zoned then ZONED else []);
  }

  lemma DigitsRead(n: nat)
    ensures ParseInt(Trim(Show(n)), I32) == Fits(n, I32)
    ensures ',' !in Show(n) && ')' !in Show(n)
  {
    var s := Show(n);
    assert forall c :: IsDigit(c) ==> !IsSpace(c);
    TrimIsIdentity(s);
    ParseDigits(s, I32);
    assert forall c :: c in s ==> IsDigit(c);
    assert !IsDigit(',') && !IsDigit(')');
  }
}
