/**
 * Turning a catalog-function argument into an SQL condition.
 *
 * An argument is an ODBC search pattern. The driver emits either a `LIKE` or
 * an `=`, with the pattern inside a quoted literal. What the emitted text means
 * is given by reading it back the SQL way; what the argument means is given by
 * the ODBC rules; and the two are compared for every pattern and every name.
 */
module CatalogFilter {
  import opened Wrappers
  import opened Text

  const ESCAPE := '\\'

  // ----- what the argument means

  predicate IsWild(c: char) {
    c == '%' || c == '_'
  }

  /** A character the escape character makes literal. */
  predicate IsSpecial(c: char) {
    IsWild(c) || c == ESCAPE
  }

  datatype Part = Literal(c: char) | AnyOne | AnyMany

  /**
   * The ODBC reading of a search pattern: the escape character makes a
   * wildcard or itself literal, and before anything else stands for itself.
   */
  function OdbcParts(p: string): seq<Part>
    decreases |p|
  {
    if p == [] then []
    else if p[0] == ESCAPE && |p| > 1 && IsSpecial(p[1]) then [Literal(p[1])] + OdbcParts(p[2..])
    else [if p[0] == '%' then AnyMany else if p[0] == '_' then AnyOne else Literal(p[0])] + OdbcParts(p[1..])
  }

  predicate Matches(parts: seq<Part>, name: string)
    decreases |parts|, |name|
  {
    if parts == [] then name == []
    else match parts[0]
      case Literal(c) => name != [] && name[0] == c && Matches(parts[1..], name[1..])
      case AnyOne => name != [] && Matches(parts[1..], name[1..])
      case AnyMany => Matches(parts[1..], name) || (name != [] && Matches(parts, name[1..]))
  }

  predicate OdbcMatches(p: string, name: string) {
    Matches(OdbcParts(p), name)
  }

  // ----- what the condition means

  /**
   * The SQL reading of a `LIKE` pattern with an escape character: escaping
   * anything but a wildcard or the escape character itself is an error.
   */
  function LikeParts(p: string): Option<seq<Part>>
    decreases |p|
  {
    if p == [] then Some([])
    else if p[0] == ESCAPE then
      if |p| > 1 && IsSpecial(p[1]) then
        match LikeParts(p[2..]) case None => None case Some(rest) => Some([Literal(p[1])] + rest)
      else None
    else
      match LikeParts(p[1..])
      case None => None
      case Some(rest) =>
        Some([if p[0] == '%' then AnyMany else if p[0] == '_' then AnyOne else Literal(p[0])] + rest)
  }

  datatype Condition = Equals(column: string, value: string) | Like(column: string, pattern: string)

  /** The condition's answer for a name, or `None` if the coordinator rejects it. */
  function Answer(c: Condition, name: string): Option<bool> {
    match c
    case Equals(_, value) => Some(name == value)
    case Like(_, pattern) =>
      match LikeParts(pattern) case None => None case Some(parts) => Some(Matches(parts, name))
  }

  // ----- what the driver does

  /** Whether a wildcard stands without the escape character right before it. */
  predicate WildAfter(escaped: bool, s: string)
    decreases |s|
  {
    s != [] && ((IsWild(s[0]) && !escaped) || WildAfter(s[0] == ESCAPE, s[1..]))
  }

  predicate HasWild(s: string) {
    WildAfter(false, s)
  }

  method HasOdbcWildcards(s: string) returns (found: bool)
    ensures found == HasWild(s)
  {
    assert s[0..] == s;
    for i := 0 to |s|
      invariant HasWild(s) == WildAfter(i > 0 && s[i - 1] == ESCAPE, s[i..])
    {
      assert s[i..][1..] == s[i + 1..];
      if (s[i] == '%' || s[i] == '_') && (i == 0 || s[i - 1] != ESCAPE) {
        return true;
      }
    }
    found := false;
  }

  /** Every `ESCAPE c` becomes `c`, scanning from the left. */
  function Unescape(s: string, c: char): string
    decreases |s|
  {
    if |s| < 2 then s
    else if s[0] == ESCAPE && s[1] == c then [c] + Unescape(s[2..], c)
    else [s[0]] + Unescape(s[1..], c)
  }

  function Unescaped(s: string): string {
    Unescape(Unescape(s, '_'), '%')
  }

  function Filter(column: string, value: string): Condition {
    if HasWild(value) then Like(column, value) else Equals(column, Unescaped(value))
  }

  /** A condition as SQL text; the literal's own quotes are doubled. */
  function Render(c: Condition): string {
    match c
    case Equals(column, value) => column + " = '" + Doubled(value, '\'') + "'"
    case Like(column, pattern) => column + " LIKE '" + Doubled(pattern, '\'') + "' ESCAPE '\\'"
  }

  /** The driver's order of work: quotes are doubled first, then wildcards and escapes are looked at. */
  method PushFilter(conditions: seq<string>, column: string, value: string) returns (extended: seq<string>)
    ensures extended == conditions + [Render(Filter(column, value))]
  {
    var escaped := Doubled(value, '\'');
    DoublingKeepsWild(false, value, '\'');
    var wild := HasOdbcWildcards(escaped);
    if wild {
      extended := conditions + [column + " LIKE '" + escaped + "' ESCAPE '\\'"];
    } else {
      DoublingCommutes(value, '_', '\'');
      DoublingCommutes(Unescape(value, '_'), '%', '\'');
      var literal := Unescape(Unescape(escaped, '_'), '%');
      extended := conditions + [column + " = '" + literal + "'"];
    }
  }

  // ----- doubling quotes disturbs neither wildcards nor escapes

  lemma {:induction false} DoublingKeepsWild(escaped: bool, s: string, q: char)
    requires q != ESCAPE && !IsWild(q)
    ensures WildAfter(escaped, Doubled(s, q)) == WildAfter(escaped, s)
    decreases |s|
  {
    if s != [] {
      var d := Doubled(s[1..], q);
      DoublingKeepsWild(s[0] == ESCAPE, s[1..], q);
      if s[0] == q {
        assert Doubled(s, q) == [q] + ([q] + d);
        assert ([q] + ([q] + d))[1..] == [q] + d && ([q] + d)[1..] == d;
      } else {
        assert Doubled(s, q) == [s[0]] + d && ([s[0]] + d)[1..] == d;
      }
    }
  }

  lemma UnescapeOther(a: char, t: string, c: char)
    requires a != ESCAPE || t == [] || t[0] != c
    ensures Unescape([a] + t, c) == [a] + Unescape(t, c)
  {
    assert ([a] + t)[1..] == t;
  }

  lemma UnescapePair(t: string, c: char)
    requires c != ESCAPE
    ensures Unescape([ESCAPE] + ([c] + t), c) == [c] + Unescape(t, c)
  {
    assert ([ESCAPE] + ([c] + t))[2..] == t;
  }

  lemma DoubledCons(a: char, t: string, q: char)
    ensures Doubled([a] + t, q) == (if a == q then [q] + ([q] + Doubled(t, q)) else [a] + Doubled(t, q))
  {
    assert ([a] + t)[1..] == t;
    assert [q, q] + Doubled(t, q) == [q] + ([q] + Doubled(t, q));
  }

  /** Doubling a quote commutes with removing escapes. */
  lemma {:induction false} DoublingCommutes(s: string, c: char, q: char)
    requires q != ESCAPE && q != c && c != ESCAPE
    ensures Unescape(Doubled(s, q), c) == Doubled(Unescape(s, c), q)
    decreases |s|, 1
  {
    hide Doubled, Unescape;
    if |s| > 1 && s[0] == ESCAPE && s[1] == c {
      var t := s[2..];
      DoublingCommutes(t, c, q);
      assert s == [ESCAPE] + ([c] + t);
      DoubledCons(ESCAPE, [c] + t, q);
      DoubledCons(c, t, q);
      UnescapePair(Doubled(t, q), c);
      UnescapePair(t, c);
      DoubledCons(c, Unescape(t, c), q);
    } else if s != [] {
      DoublingCommutesOther(s[0], s[1..], c, q);
      assert s == [s[0]] + s[1..];
    } else {
      DoublingNothing(c, q);
    }
  }

  lemma DoublingNothing(c: char, q: char)
    ensures Unescape(Doubled([], q), c) == Doubled(Unescape([], c), q)
  {
  }

  lemma {:induction false} DoublingCommutesOther(a: char, t: string, c: char, q: char)
    requires q != ESCAPE && q != c && c != ESCAPE
    requires a != ESCAPE || t == [] || t[0] != c
    ensures Unescape(Doubled([a] + t, q), c) == Doubled(Unescape([a] + t, c), q)
    decreases |t| + 1, 0
  {
    hide Unescape;
    DoublingCommutes(t, c, q);
    var d := Doubled(t, q);
    assert t != [] ==> d[0] == t[0];
    hide Doubled;
    UnescapeOther(a, t, c);
    DoubledCons(a, t, q);
    DoubledCons(a, Unescape(t, c), q);
    if a == q {
      UnescapeOther(q, d, c);
      UnescapeOther(q, [q] + d, c);
    } else {
      UnescapeOther(a, d, c);
    }
  }

  // ----- one pass instead of two

  /** Removing the escape before either wildcard, in one pass. */
  function Plainly(s: string): string
    decreases |s|
  {
    if s == [] then []
    else if |s| > 1 && s[0] == ESCAPE && IsWild(s[1]) then [s[1]] + Plainly(s[2..])
    else [s[0]] + Plainly(s[1..])
  }

  lemma {:induction false} TwoPassesAreOne(s: string)
    ensures Unescaped(s) == Plainly(s)
    decreases |s|
  {
    if |s| > 1 && s[0] == ESCAPE && IsWild(s[1]) {
      var t := s[2..];
      TwoPassesAreOne(t);
      assert s == [ESCAPE] + ([s[1]] + t);
      if s[1] == '_' {
        UnescapePair(t, '_');
        UnescapeOther('_', Unescape(t, '_'), '%');
      } else {
        UnescapeOther('%', t, '_');
        UnescapeOther(ESCAPE, ['%'] + t, '_');
        UnescapePair(Unescape(t, '_'), '%');
      }
    } else if s != [] {
      var t := s[1..];
      TwoPassesAreOne(t);
      assert s == [s[0]] + t;
      UnescapeOther(s[0], t, '_');
      assert Unescape(t, '_') != [] && Unescape(t, '_')[0] == '%' ==> t != [] && t[0] == '%';
      UnescapeOther(s[0], Unescape(t, '_'), '%');
    }
  }

  // ----- when the translation keeps the meaning

  /** Every escape character stands before a wildcard or another escape character. */
  predicate EscapesSpecialOnly(p: string)
    decreases |p|
  {
    p == [] ||
    if p[0] == ESCAPE then |p| > 1 && IsSpecial(p[1]) && EscapesSpecialOnly(p[2..])
    else EscapesSpecialOnly(p[1..])
  }

  /** Two escape characters stand side by side. */
  predicate HasDoubleEscape(p: string) {
    exists i :: 0 <= i < |p| - 1 && p[i] == ESCAPE && p[i + 1] == ESCAPE
  }

  predicate Translatable(p: string) {
    if HasWild(p) then EscapesSpecialOnly(p) else !HasDoubleEscape(p)
  }

  lemma {:induction false} LikeReadsOdbc(p: string)
    ensures LikeParts(p) == if EscapesSpecialOnly(p) then Some(OdbcParts(p)) else None
    decreases |p|
  {
    if p != [] {
      if p[0] == ESCAPE && |p| > 1 && IsSpecial(p[1]) {
        LikeReadsOdbc(p[2..]);
      } else {
        LikeReadsOdbc(p[1..]);
      }
    }
  }

  function Literals(s: string): (parts: seq<Part>)
    ensures |parts| == |s|
  {
    seq(|s|, i requires 0 <= i < |s| => Literal(s[i]))
  }

  predicate HasWildPart(parts: seq<Part>) {
    exists i :: 0 <= i < |parts| && !parts[i].Literal?
  }

  lemma {:induction false} LiteralsMatchThemselves(s: string, name: string)
    ensures Matches(Literals(s), name) <==> name == s
    decreases |s|
  {
    if s != [] {
      assert Literals(s)[1..] == Literals(s[1..]);
      if name != [] {
        LiteralsMatchThemselves(s[1..], name[1..]);
        assert s == [s[0]] + s[1..] && name == [name[0]] + name[1..];
      }
    }
  }

  lemma DoubleEscapeTail(p: string)
    requires p != []
    ensures HasDoubleEscape(p) <==> (|p| > 1 && p[0] == ESCAPE && p[1] == ESCAPE) || HasDoubleEscape(p[1..])
  {
    var t := p[1..];
    if i :| 0 <= i < |p| - 1 && p[i] == ESCAPE && p[i + 1] == ESCAPE {
      if i > 0 {
        assert t[i - 1] == ESCAPE && t[i - 1 + 1] == ESCAPE;
      }
    }
    if i :| 0 <= i < |t| - 1 && t[i] == ESCAPE && t[i + 1] == ESCAPE {
      assert p[i + 1] == ESCAPE && p[i + 1 + 1] == ESCAPE;
    }
  }

  lemma WildPartTail(a: Part, rest: seq<Part>)
    ensures HasWildPart([a] + rest) <==> !a.Literal? || HasWildPart(rest)
  {
    var all := [a] + rest;
    assert all[0] == a;
    assert forall i :: 0 <= i < |rest| ==> all[i + 1] == rest[i];
    if i :| 0 <= i < |all| && !all[i].Literal? {
      if i > 0 {
        assert !rest[i - 1].Literal?;
      }
    }
  }

  /**
   * A pattern without a bare wildcard and without side-by-side escapes is its
   * own unescaped text; with side-by-side escapes the ODBC reading is either
   * not a plain text at all, or a shorter one.
   */
  lemma {:induction false} PlainReading(p: string)
    ensures !HasWildPart(OdbcParts(p)) ==> |OdbcParts(p)| <= |Plainly(p)|
    ensures !HasWildPart(OdbcParts(p)) && HasDoubleEscape(p) ==> |OdbcParts(p)| < |Plainly(p)|
    decreases |p|
  {
    if p != [] {
      DoubleEscapeTail(p);
      if p[0] == ESCAPE && |p| > 1 && IsSpecial(p[1]) {
        var t := p[2..];
        assert p[1..][1..] == t;
        PlainReading(t);
        WildPartTail(Literal(p[1]), OdbcParts(t));
        DoubleEscapeTail(p[1..]);
        if p[1] == ESCAPE {
          EscapeThenPlain(p[1..]);
        } else {
          assert Plainly(p) == [p[1]] + Plainly(t);
        }
      } else {
        PlainReading(p[1..]);
        WildPartTail(OdbcParts(p)[0], OdbcParts(p[1..]));
        assert Plainly(p) == [p[0]] + Plainly(p[1..]);
      }
    }
  }

  /** A second escape character is kept, unless a bare wildcard follows it. */
  lemma EscapeThenPlain(p: string)
    requires p != [] && p[0] == ESCAPE
    ensures |Plainly([ESCAPE] + p)| == 1 + |Plainly(p)|
    ensures !HasWildPart(OdbcParts(p[1..])) ==> |Plainly(p)| == 1 + |Plainly(p[1..])|
  {
    assert ([ESCAPE] + p)[1..] == p;
    if |p| > 1 && IsWild(p[1]) {
      assert OdbcParts(p[1..]) == [OdbcParts(p[1..])[0]] + OdbcParts(p[1..][1..]);
      WildPartTail(OdbcParts(p[1..])[0], OdbcParts(p[1..][1..]));
    }
  }

  lemma {:induction false} PlainText(escaped: bool, p: string)
    requires !WildAfter(escaped, p) && !HasDoubleEscape(p)
    requires escaped ==> p == [] || !IsWild(p[0])
    ensures OdbcParts(p) == Literals(Plainly(p))
    decreases |p|
  {
    if p != [] {
      DoubleEscapeTail(p);
      if p[0] == ESCAPE && |p| > 1 && IsSpecial(p[1]) {
        var t := p[2..];
        assert p[1..][1..] == t;
        DoubleEscapeTail(p[1..]);
        PlainText(false, t);
        assert Literals([p[1]] + Plainly(t)) == [Literal(p[1])] + Literals(Plainly(t));
      } else {
        PlainText(p[0] == ESCAPE, p[1..]);
        assert Literals([p[0]] + Plainly(p[1..])) == [Literal(p[0])] + Literals(Plainly(p[1..]));
      }
    }
  }

  /** A name the parts match: wildcards replaced by the given texts. */
  function Fill(parts: seq<Part>, one: char, many: string): string {
    if parts == [] then []
    else (match parts[0] case Literal(c) => [c] case AnyOne => [one] case AnyMany => many)
         + Fill(parts[1..], one, many)
  }

  lemma {:induction false} SkipMany(parts: seq<Part>, many: string, name: string)
    requires parts != [] && parts[0].AnyMany? && Matches(parts[1..], name)
    ensures Matches(parts, many + name)
    decreases |many|
  {
    if many == [] {
      assert many + name == name;
    } else {
      SkipMany(parts, many[1..], name);
      assert (many + name)[1..] == many[1..] + name;
    }
  }

  lemma {:induction false} FillMatches(parts: seq<Part>, one: char, many: string)
    ensures Matches(parts, Fill(parts, one, many))
    decreases |parts|
  {
    if parts != [] {
      var rest := Fill(parts[1..], one, many);
      FillMatches(parts[1..], one, many);
      match parts[0]
      case Literal(c) => assert ([c] + rest)[1..] == rest;
      case AnyOne => assert ([one] + rest)[1..] == rest;
      case AnyMany => SkipMany(parts, many, rest);
    }
  }

  /** A pattern with a wildcard matches at least two names. */
  lemma {:induction false} WildMatchesTwo(parts: seq<Part>)
    ensures |Fill(parts, 'a', [])| <= |Fill(parts, 'b', ['c'])|
    ensures HasWildPart(parts) ==> Fill(parts, 'a', []) != Fill(parts, 'b', ['c'])
    decreases |parts|
  {
    if parts != [] {
      WildMatchesTwo(parts[1..]);
      assert parts == [parts[0]] + parts[1..];
      WildPartTail(parts[0], parts[1..]);
      var x, y := Fill(parts[1..], 'a', []), Fill(parts[1..], 'b', ['c']);
      match parts[0]
      case Literal(c) => assert ([c] + x)[1..] == x && ([c] + y)[1..] == y;
      case AnyOne => assert (['a'] + x)[0] != (['b'] + y)[0];
      case AnyMany => assert |[] + x| < |['c'] + y|;
    }
  }

  lemma SideBySideIsWrong(column: string, p: string) returns (name: string)
    requires !HasWild(p) && HasDoubleEscape(p)
    ensures Answer(Filter(column, p), name) != Some(OdbcMatches(p, name))
  {
    var parts, value := OdbcParts(p), Unescaped(p);
    TwoPassesAreOne(p);
    PlainReading(p);
    if HasWildPart(parts) {
      WildMatchesTwo(parts);
      FillMatches(parts, 'a', []);
      FillMatches(parts, 'b', ['c']);
      name := if Fill(parts, 'a', []) == value then Fill(parts, 'b', ['c']) else Fill(parts, 'a', []);
    } else {
      name := value;
      TooLong(parts, value);
    }
  }

  lemma {:induction false} TooLong(parts: seq<Part>, name: string)
    requires !HasWildPart(parts) && |parts| < |name|
    ensures !Matches(parts, name)
    decreases |parts|
  {
    if parts != [] {
      assert parts == [parts[0]] + parts[1..];
      WildPartTail(parts[0], parts[1..]);
      TooLong(parts[1..], name[1..]);
    }
  }

  /**
   * The emitted condition holds of exactly the names the ODBC pattern matches,
   * and is accepted by the coordinator, iff either the pattern has a bare
   * wildcard and escapes nothing but special characters, or it has none and
   * no two escape characters side by side.
   */
  lemma FilterIsRightIff(column: string, p: string)
    ensures (forall name :: Answer(Filter(column, p), name) == Some(OdbcMatches(p, name))) <==> Translatable(p)
  {
    LikeReadsOdbc(p);
    if HasWild(p) {
      if !EscapesSpecialOnly(p) {
        assert Answer(Filter(column, p), []) == None;
      }
    } else if HasDoubleEscape(p) {
      var name := SideBySideIsWrong(column, p);
      assert Answer(Filter(column, p), name) != Some(OdbcMatches(p, name));
    } else {
      TwoPassesAreOne(p);
      PlainText(false, p);
      forall name
        ensures Answer(Filter(column, p), name) == Some(OdbcMatches(p, name))
      {
        LiteralsMatchThemselves(Unescaped(p), name);
      }
    }
  }

  /** Every escape character stands right before a wildcard. */
  predicate EscapesWildOnly(p: string) {
    forall i :: 0 <= i < |p| && p[i] == ESCAPE ==> i + 1 < |p| && IsWild(p[i + 1])
  }

  lemma {:induction false} WildEscapesAreSpecial(p: string)
    requires EscapesWildOnly(p)
    ensures EscapesSpecialOnly(p)
    decreases |p|
  {
    if p != [] {
      if p[0] == ESCAPE {
        assert IsWild(p[1]);
        assert EscapesWildOnly(p[2..]) by {
          assert forall i :: 0 <= i < |p[2..]| ==> p[2..][i] == p[i + 2];
        }
        WildEscapesAreSpecial(p[2..]);
      } else {
        assert EscapesWildOnly(p[1..]) by {
          assert forall i :: 0 <= i < |p[1..]| ==> p[1..][i] == p[i + 1];
        }
        WildEscapesAreSpecial(p[1..]);
      }
    }
  }

  /** In particular the translation is right whenever escapes are used as documented: before a wildcard. */
  lemma WellEscapedIsRight(column: string, p: string, name: string)
    requires EscapesWildOnly(p)
    ensures Answer(Filter(column, p), name) == Some(OdbcMatches(p, name))
  {
    WildEscapesAreSpecial(p);
    assert !HasDoubleEscape(p);
    FilterIsRightIff(column, p);
  }

  /** The shortest failing pattern: two escape characters mean one, and are taken for two. */
  lemma DoubledEscapeIsTakenLiterally(column: string)
    ensures OdbcMatches("\\\\", "\\")
    ensures Answer(Filter(column, "\\\\"), "\\") == Some(false)
  {
    var p := "\\\\";
    assert p[2..] == [] && p[1..][1..] == [];
    assert OdbcParts(p) == [Literal(ESCAPE)];
    assert [Literal(ESCAPE)][1..] == [] && "\\"[1..] == [];
    TwoPassesAreOne(p);
    assert Plainly(p) == p;
  }
}
