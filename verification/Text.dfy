/** The string operations of the standard library that the driver relies on. */
module Text {
  import opened Wrappers

  /** The Unicode `White_Space` property, which is what trimming removes. */
  predicate IsSpace(c: char) {
    var u := c as int;
    || 0x9 <= u <= 0xD || u == 0x20 || u == 0x85 || u == 0xA0 || u == 0x1680
    || 0x2000 <= u <= 0x200A || u == 0x2028 || u == 0x2029 || u == 0x202F
    || u == 0x205F || u == 0x3000
  }

  predicate AllSpace(s: string) {
    forall i :: 0 <= i < |s| ==> IsSpace(s[i])
  }

  predicate IsDigit(c: char) {
    '0' <= c <= '9'
  }

  predicate AllDigits(s: string) {
    forall i :: 0 <= i < |s| ==> IsDigit(s[i])
  }

  /** What is left after removing leading whitespace, as an index. */
  function TrimFrom(s: string): (i: nat)
    ensures i <= |s|
    ensures forall k :: 0 <= k < i ==> IsSpace(s[k])
    ensures i < |s| ==> !IsSpace(s[i])
  {
    if s == [] || !IsSpace(s[0]) then 0 else 1 + TrimFrom(s[1..])
  }

  function TrimTo(s: string): (i: nat)
    ensures i <= |s|
    ensures forall k :: i <= k < |s| ==> IsSpace(s[k])
    ensures 0 < i ==> !IsSpace(s[i - 1])
  {
    if s == [] || !IsSpace(s[|s| - 1]) then |s| else TrimTo(s[..|s| - 1])
  }

  function TrimStart(s: string): string {
    s[TrimFrom(s)..]
  }

  function TrimEnd(s: string): string {
    s[..TrimTo(s)]
  }

  function Trim(s: string): string {
    TrimEnd(TrimStart(s))
  }

  /** Trimming keeps one contiguous part and drops only whitespace around it. */
  lemma TrimParts(s: string) returns (before: string, after: string)
    ensures s == before + Trim(s) + after
    ensures forall c :: c in before + after ==> IsSpace(c)
    ensures Trim(s) != [] ==> !IsSpace(Trim(s)[0]) && !IsSpace(Trim(s)[|Trim(s)| - 1])
  {
    before := s[..TrimFrom(s)];
    after := TrimStart(s)[TrimTo(TrimStart(s))..];
    assert TrimStart(s) == Trim(s) + after;
  }

  lemma TrimIsIdentity(s: string)
    requires s == [] || (!IsSpace(s[0]) && !IsSpace(s[|s| - 1]))
    ensures Trim(s) == s
  {
  }

  lemma {:induction false} TrimFromAt(before: string, rest: string)
    requires forall i :: 0 <= i < |before| ==> IsSpace(before[i])
    requires rest == [] || !IsSpace(rest[0])
    ensures TrimFrom(before + rest) == |before|
    decreases |before|
  {
    if before == [] {
      assert before + rest == rest;
    } else {
      assert (before + rest)[1..] == before[1..] + rest;
      TrimFromAt(before[1..], rest);
    }
  }

  lemma {:induction false} TrimToAt(rest: string, after: string)
    requires forall i :: 0 <= i < |after| ==> IsSpace(after[i])
    requires rest == [] || !IsSpace(rest[|rest| - 1])
    ensures TrimTo(rest + after) == |rest|
    decreases |after|
  {
    if after == [] {
      assert rest + after == rest;
    } else {
      var t := after[..|after| - 1];
      assert (rest + after)[..|rest + after| - 1] == rest + t;
      TrimToAt(rest, t);
    }
  }

  /** Trimming finds the one part that whitespace surrounds and that has none at its ends. */
  lemma TrimIsMiddle(before: string, middle: string, after: string)
    requires forall i :: 0 <= i < |before| ==> IsSpace(before[i])
    requires forall i :: 0 <= i < |after| ==> IsSpace(after[i])
    requires middle == [] || (!IsSpace(middle[0]) && !IsSpace(middle[|middle| - 1]))
    ensures Trim(before + middle + after) == middle
  {
    var s := before + middle + after;
    if middle == [] {
      assert forall i :: 0 <= i < |s| ==> IsSpace(s[i]);
      assert TrimFrom(s) == |s|;
    } else {
      assert s == before + (middle + after);
      TrimFromAt(before, middle + after);
      assert TrimStart(s) == middle + after;
      TrimToAt(middle, after);
    }
  }

  /** The first position of `c`. */
  function Find(s: string, c: char): (r: Option<nat>)
    ensures r.None? ==> c !in s
    ensures r.Some? ==> r.value < |s| && s[r.value] == c && c !in s[..r.value]
  {
    if s == [] then None
    else if s[0] == c then Some(0)
    else
      match Find(s[1..], c)
      case None => None
      case Some(i) => assert s[..i + 1] == [s[0]] + s[1..][..i]; Some(i + 1)
  }

  /** The last position whose character satisfies `p`. */
  function FindLast(s: string, p: char -> bool): (r: Option<nat>)
    ensures r.None? ==> forall k :: 0 <= k < |s| ==> !p(s[k])
    ensures r.Some? ==> r.value < |s| && p(s[r.value]) && forall k :: r.value < k < |s| ==> !p(s[k])
  {
    if s == [] then None
    else if p(s[|s| - 1]) then Some(|s| - 1)
    else FindLast(s[..|s| - 1], p)
  }

  /** With none behind it, a character that satisfies `p` is the last one. */
  lemma FindLastAt(before: string, c: char, after: string, p: char -> bool)
    requires p(c) && forall d :: d in after ==> !p(d)
    ensures FindLast(before + [c] + after, p) == Some(|before|)
  {
    hide FindLast;
    var s := before + [c] + after;
    assert s[|before|] == c;
    assert forall k :: |before| < k < |s| ==> s[k] in after;
  }

  /** `split_once`: the text before and after the first `c`. */
  function SplitOnce(s: string, c: char): (r: Option<(string, string)>)
    ensures r.Some? <==> c in s
    ensures r.Some? ==> s == r.value.0 + [c] + r.value.1 && c !in r.value.0
  {
    match Find(s, c)
    case None => None
    case Some(i) => Some((s[..i], s[i + 1..]))
  }

  lemma SplitOnceAt(before: string, c: char, after: string)
    requires c !in before
    ensures SplitOnce(before + [c] + after, c) == Some((before, after))
  {
    var s := before + [c] + after;
    var (b, a) := SplitOnce(s, c).value;
    assert s[|b|] == c && s[|before|] == c;
    assert forall k :: 0 <= k < |before| ==> s[k] == before[k];
    assert forall k :: 0 <= k < |b| ==> s[k] == b[k];
    assert |b| == |before|;
    assert b == s[..|b|] && before == s[..|before|] && a == s[|b| + 1..] && after == s[|before| + 1..];
  }

  /** `split_whitespace().next()`. */
  function FirstToken(s: string): Option<string> {
    var t := TrimStart(s);
    if t == [] then None else Some(t[..TokenEnd(t)])
  }

  function TokenEnd(s: string): (n: nat)
    ensures n <= |s|
    ensures forall k :: 0 <= k < n ==> !IsSpace(s[k])
    ensures n < |s| ==> IsSpace(s[n])
  {
    if s == [] || IsSpace(s[0]) then 0 else 1 + TokenEnd(s[1..])
  }

  // ----- integers

  function Digit(c: char): (d: nat)
    requires IsDigit(c)
    ensures d <= 9
  {
    c as int - '0' as int
  }

  function Natural(s: string): nat
    requires AllDigits(s)
  {
    if s == [] then 0 else 10 * Natural(s[..|s| - 1]) + Digit(s[|s| - 1])
  }

  /** The range of an integer type; only a signed one reads a leading minus. */
  datatype Width = Width(lo: int, hi: int)

  const U16 := Width(0, 65535)
  const U32 := Width(0, 0xFFFF_FFFF)
  const I16 := Width(-32768, 32767)
  const I32 := Width(-0x8000_0000, 0x7FFF_FFFF)
  const I64 := Width(-0x8000_0000_0000_0000, 0x7FFF_FFFF_FFFF_FFFF)

  function Fits(n: int, w: Width): Option<int> {
    if w.lo <= n <= w.hi then Some(n) else None
  }

  /** Reading a decimal integer: an optional sign, then digits only, then the range. */
  function ParseInt(s: string, w: Width): (r: Option<int>)
    ensures r.Some? ==> w.lo <= r.value <= w.hi
    ensures r.Some? ==> s != [] && forall c :: c in s ==> IsDigit(c) || c == '+' || c == '-'
  {
    var negative := s != [] && s[0] == '-' && w.lo < 0;
    var digits := if negative || (s != [] && s[0] == '+') then s[1..] else s;
    if digits == [] || !AllDigits(digits) then None
    else
      assert forall c :: c in s ==> c in digits || c == s[0];
      var n: int := Natural(digits);
      Fits(if negative then -n else n, w)
  }

  /** Printing a natural number in decimal, with no leading zero. */
  function Show(n: nat): (s: string)
    ensures s != [] && AllDigits(s)
    ensures Natural(s) == n
    decreases n
  {
    if n < 10 then
      var s := [('0' as int + n) as char];
      assert s[..0] == [] && Natural(s) == 10 * Natural(s[..0]) + Digit(s[0]);
      s
    else
      var s := Show(n / 10) + [('0' as int + n % 10) as char];
      assert s[..|s| - 1] == Show(n / 10);
      s
  }

  lemma ParseShown(n: nat, w: Width)
    requires w.lo <= n <= w.hi
    ensures ParseInt(Show(n), w) == Some(n)
  {
    assert IsDigit(Show(n)[0]);
  }

  lemma ParseDigits(s: string, w: Width)
    requires s != [] && AllDigits(s)
    ensures ParseInt(s, w) == Fits(Natural(s), w)
  {
    assert IsDigit(s[0]);
  }

  // ----- joining and replacing

  /** `split(c)`: the pieces between every occurrence of `c`. */
  function Split(s: string, c: char): (pieces: seq<string>)
    ensures |pieces| >= 1
    decreases |s|
  {
    match SplitOnce(s, c)
    case None => [s]
    case Some((before, after)) => [before] + Split(after, c)
  }

  /** Every `q` doubled, which is how a quoted SQL token carries its own quote. */
  function Doubled(s: string, q: char): string {
    if s == [] then []
    else (if s[0] == q then [q, q] else [s[0]]) + Doubled(s[1..], q)
  }

  lemma {:induction false} DoubledConcat(a: string, b: string, q: char)
    ensures Doubled(a + b, q) == Doubled(a, q) + Doubled(b, q)
  {
    if a == [] {
      assert a + b == b;
    } else {
      assert (a + b)[1..] == a[1..] + b;
      DoubledConcat(a[1..], b, q);
    }
  }
}
