/**
 * Converting one JSON value from the wire under its declared type, and knowing
 * which conversions lost fractional digits.
 */
module ValueConversion {
  import opened Wrappers
  import opened Text
  import opened Temporal
  import opened Fractions

  /** `Scalar` stands for a boolean or a number, of which only the text matters here. */
  datatype Json =
    | Null
    | Str(text: string)
    | Scalar(image: string)
    | Arr(items: seq<Json>)
    | Obj(members: seq<(string, Json)>)

  /** `Plain` is every type whose values hold no temporal part. */
  datatype TrinoTy =
    | Time
    | TimeWithTimeZone
    | Timestamp
    | TimestampWithTimeZone
    | Optional(inner: TrinoTy)
    | Array(inner: TrinoTy)
    | Map(key: TrinoTy, value: TrinoTy)
    | Row(fields: seq<(string, TrinoTy)>)
    | Tuple(components: seq<TrinoTy>)
    | Plain
  {
    predicate IsTemporal() {
      Time? || TimeWithTimeZone? || Timestamp? || TimestampWithTimeZone?
    }
  }

  /** `Text` and `Raw` are values left as text, for want of a parse. */
  datatype ColumnValue =
    | NullValue
    | TimeValue(clock: Clock)
    | TimestampValue(date: Date, clock: Clock)
    | Text(text: string)
    | Raw(json: Json)
    | PlainValue(json: Json)
    | ArrayValue(items: seq<ColumnValue>)
    | MapValue(pairs: seq<(ColumnValue, ColumnValue)>)
    | RowValue(items: seq<ColumnValue>)

  /** The session's zone: a fixed offset in minutes, and the calendar library. */
  datatype Zone = Zone(offset: int, calendar: Calendar)

  function Min(a: nat, b: nat): nat {
    if a < b then a else b
  }

  function ClockOf(r: Reading): Clock
    requires r.hour >= 0 && r.minute >= 0 && r.second >= 0
  {
    Clock(r.hour, r.minute, r.second, Nanos(r.frac))
  }

  /** A temporal leaf, or its own text when it does not parse. */
  function ConvertLeaf(s: string, ty: TrinoTy, zone: Zone): ColumnValue
    requires ty.IsTemporal()
  {
    match ty
    case Time =>
      (match ReadTime(s) case None => Text(s) case Some(r) => TimeValue(ClockOf(r)))
    case TimeWithTimeZone =>
      (match DeliverTime(s, zone.offset) case None => Text(s) case Some(c) => TimeValue(c))
    case Timestamp =>
      (match ReadTimestamp(s) case None => Text(s) case Some((d, r)) => TimestampValue(d, ClockOf(r)))
    case TimestampWithTimeZone =>
      match DeliverTimestamp(s, zone.offset, zone.calendar)
      case None => Text(s)
      case Some((d, c)) => TimestampValue(d, c)
  }

  function Convert(val: Json, ty: TrinoTy, zone: Zone): ColumnValue
    decreases ty
  {
    if val.Null? then NullValue
    else match ty
      case Optional(inner) => Convert(val, inner, zone)
      case Array(inner) =>
        if val.Arr?
        then ArrayValue(seq(|val.items|, i requires 0 <= i < |val.items| => Convert(val.items[i], inner, zone)))
        else Raw(val)
      case Map(key, value) =>
        if val.Obj?
        then MapValue(seq(|val.members|, i requires 0 <= i < |val.members| =>
               (Convert(Str(val.members[i].0), key, zone), Convert(val.members[i].1, value, zone))))
        else Raw(val)
      case Row(fields) =>
        if val.Arr?
        then RowValue(seq(Min(|val.items|, |fields|), i requires 0 <= i < Min(|val.items|, |fields|) =>
               Convert(val.items[i], fields[i].1, zone)))
        else Raw(val)
      case Tuple(components) =>
        if val.Arr?
        then RowValue(seq(Min(|val.items|, |components|), i requires 0 <= i < Min(|val.items|, |components|) =>
               Convert(val.items[i], components[i], zone)))
        else Raw(val)
      case Plain => PlainValue(val)
      case _ => if val.Str? then ConvertLeaf(val.text, ty, zone) else Raw(val)
  }

  /** Whether converting `val` under `ty` discards fractional digits, asked of the wire text. */
  predicate Discards(val: Json, ty: TrinoTy)
    decreases ty
  {
    match ty
    case Optional(inner) => Discards(val, inner)
    case Array(inner) =>
      val.Arr? && exists i :: 0 <= i < |val.items| && Discards(val.items[i], inner)
    case Map(key, value) =>
      val.Obj? && (exists i :: 0 <= i < |val.members| &&
                     (Discards(Str(val.members[i].0), key) || Discards(val.members[i].1, value)))
    case Row(fields) =>
      val.Arr? && exists i :: 0 <= i < |val.items| && i < |fields| && Discards(val.items[i], fields[i].1)
    case Tuple(components) =>
      val.Arr? && exists i :: 0 <= i < |val.items| && i < |components| && Discards(val.items[i], components[i])
    case Plain => false
    case _ => val.Str? && FractionExceedsNanoseconds(val.text)
  }

  // ----- what a leaf's text says, independently of the parsers

  /** The digits after the first point, if there is one. */
  function WireDigits(text: string): (digits: string)
    ensures AllDigits(digits)
  {
    match SplitOnce(text, '.')
    case None => []
    case Some((_, rest)) => DigitRun(rest)
  }

  /** The fraction the wire text carries. */
  function WireFraction(text: string): real {
    FractionOf(WireDigits(text))
  }

  function WireNanos(text: string): real {
    WireFraction(text) * 1000000000.0
  }

  /** What the leaf's parser reads, before any zone is applied. */
  function LeafReading(s: string, ty: TrinoTy): Option<Reading>
    requires ty.IsTemporal()
  {
    match ty
    case Time => ReadTime(s)
    case TimeWithTimeZone => (match ReadZonedTime(s) case None => None case Some((r, _)) => Some(r))
    case Timestamp => (match ReadTimestamp(s) case None => None case Some((_, r)) => Some(r))
    case TimestampWithTimeZone =>
      match FindLast(s, c => c == ' ')
      case None => None
      case Some(i) => match ReadTimestamp(s[..i]) case None => None case Some((_, r)) => Some(r)
  }

  /**
   * What a leaf's text must be for the parser and the scan to read the same: a
   * legible fragment; or, where the parser finds none, nothing but zeros in the
   * nine places after any stray point.
   */
  predicate LegibleLeaf(s: string, ty: TrinoTy)
    requires ty.IsTemporal()
  {
    match LeafReading(s, ty)
    case None => false
    case Some(r) =>
      match r.frac
      case Some(f) => LegibleFragment(f)
      case None => AllZeros(FirstNine(WireDigits(s)))
  }

  /** Every temporal leaf that is text parses. */
  ghost predicate Parses(val: Json, ty: TrinoTy, zone: Zone)
    decreases ty
  {
    match ty
    case Optional(inner) => Parses(val, inner, zone)
    case Array(inner) =>
      val.Arr? ==> forall i :: 0 <= i < |val.items| ==> Parses(val.items[i], inner, zone)
    case Map(key, value) =>
      val.Obj? ==> forall i :: 0 <= i < |val.members| ==>
        Parses(Str(val.members[i].0), key, zone) && Parses(val.members[i].1, value, zone)
    case Row(fields) =>
      val.Arr? ==> forall i :: 0 <= i < |val.items| && i < |fields| ==> Parses(val.items[i], fields[i].1, zone)
    case Tuple(components) =>
      val.Arr? ==> forall i :: 0 <= i < |val.items| && i < |components| ==> Parses(val.items[i], components[i], zone)
    case Plain => true
    case _ => val.Str? ==> !ConvertLeaf(val.text, ty, zone).Text?
  }

  /** Every temporal leaf that is text is legible. */
  ghost predicate Legible(val: Json, ty: TrinoTy)
    decreases ty
  {
    match ty
    case Optional(inner) => Legible(val, inner)
    case Array(inner) => val.Arr? ==> forall i :: 0 <= i < |val.items| ==> Legible(val.items[i], inner)
    case Map(key, value) =>
      val.Obj? ==> forall i :: 0 <= i < |val.members| ==>
        Legible(Str(val.members[i].0), key) && Legible(val.members[i].1, value)
    case Row(fields) =>
      val.Arr? ==> forall i :: 0 <= i < |val.items| && i < |fields| ==> Legible(val.items[i], fields[i].1)
    case Tuple(components) =>
      val.Arr? ==> forall i :: 0 <= i < |val.items| && i < |components| ==> Legible(val.items[i], components[i])
    case Plain => true
    case _ => val.Str? ==> LegibleLeaf(val.text, ty)
  }

  /** The delivered value carries, at every temporal leaf, the exact fraction of the wire. */
  ghost predicate Exact(val: Json, ty: TrinoTy, col: ColumnValue)
    decreases ty
  {
    match ty
    case Optional(inner) => Exact(val, inner, col)
    case Array(inner) =>
      val.Arr? ==>
        && col.ArrayValue? && |col.items| == |val.items|
        && forall i :: 0 <= i < |val.items| ==> Exact(val.items[i], inner, col.items[i])
    case Map(key, value) =>
      val.Obj? ==>
        && col.MapValue? && |col.pairs| == |val.members|
        && forall i :: 0 <= i < |val.members| ==>
          Exact(Str(val.members[i].0), key, col.pairs[i].0) && Exact(val.members[i].1, value, col.pairs[i].1)
    case Row(fields) =>
      val.Arr? ==>
        && col.RowValue? && |col.items| == Min(|val.items|, |fields|)
        && forall i :: 0 <= i < |col.items| ==> Exact(val.items[i], fields[i].1, col.items[i])
    case Tuple(components) =>
      val.Arr? ==>
        && col.RowValue? && |col.items| == Min(|val.items|, |components|)
        && forall i :: 0 <= i < |col.items| ==> Exact(val.items[i], components[i], col.items[i])
    case Plain => true
    case _ => val.Str? ==> (col.TimeValue? || col.TimestampValue?) && col.clock.fraction as real == WireNanos(val.text)
  }

  // ----- finding the parser's fragment in the wire text

  ghost predicate NoLeadingDigit(s: string) {
    s == [] || !IsDigit(s[0])
  }

  /** `token` stands in `text` with no point before it and no digit right after it. */
  ghost predicate Framed(text: string, before: string, token: string, after: string) {
    text == before + token + after && '.' !in before && NoLeadingDigit(after)
  }

  lemma {:induction false} DigitRunAt(f: string, after: string)
    requires NoLeadingDigit(after)
    ensures DigitRun(f + after) == DigitRun(f)
    ensures AllDigits(f) ==> DigitRun(f) == f
  {
    if f == [] {
      assert f + after == after;
    } else {
      assert (f + after)[1..] == f[1..] + after;
      DigitRunAt(f[1..], after);
    }
  }

  lemma NumberHasNoPoint(s: string, w: Width)
    requires ParseInt(s, w).Some?
    ensures '.' !in s
  {
  }

  lemma PartsShape(token: string)
    requires ClockParts(token).Some? && ClockParts(token).value.frac.Some?
    ensures var p := ClockParts(token).value;
            token == p.hour + [':'] + (p.minute + [':'] + (p.second + ['.'] + p.frac.value))
  {
    var (_, rest) := SplitOnce(token, ':').value;
    var (_, sec) := SplitOnce(rest, ':').value;
    assert SplitOnce(sec, '.').Some?;
  }

  /** A clock token with a fraction: its only point is the one before the fraction. */
  lemma ClockShape(token: string, w: Width) returns (whole: string)
    requires ReadClock(token, w).Some? && ReadClock(token, w).value.frac.Some?
    ensures token == whole + ['.'] + ReadClock(token, w).value.frac.value
    ensures '.' !in whole
  {
    hide ParseInt, ClockParts;
    var p := ClockParts(token).value;
    PartsShape(token);
    whole := p.hour + [':'] + (p.minute + [':'] + p.second);
    assert token == whole + ['.'] + p.frac.value;
    NumberHasNoPoint(p.hour, w);
    NumberHasNoPoint(p.minute, w);
    NumberHasNoPoint(p.second, w);
  }

  /** The digits the scan finds after the first point are the leading ones of the parser's fragment. */
  lemma FramedFraction(text: string, before: string, token: string, after: string, w: Width)
    requires Framed(text, before, token, after)
    requires ReadClock(token, w).Some? && ReadClock(token, w).value.frac.Some?
    ensures WireDigits(text) == DigitRun(ReadClock(token, w).value.frac.value)
  {
    hide ReadClock, SplitOnce;
    var f := ReadClock(token, w).value.frac.value;
    var whole := ClockShape(token, w);
    assert text == (before + whole) + ['.'] + (f + after);
    SplitOnceAt(before + whole, '.', f + after);
    DigitRunAt(f, after);
  }

  lemma SpaceIsNoDigit(c: char)
    requires IsSpace(c)
    ensures !IsDigit(c) && c != '.'
  {
  }

  lemma NoPointInSpace(s: string)
    requires forall c :: c in s ==> IsSpace(c)
    ensures '.' !in s && NoLeadingDigit(s)
  {
    if '.' in s {
      SpaceIsNoDigit('.');
    }
    if s != [] {
      SpaceIsNoDigit(s[0]);
    }
  }

  lemma FrameTime(s: string) returns (before: string, token: string, after: string)
    requires ReadTime(s).Some?
    ensures Framed(s, before, token, after)
    ensures ReadTime(s) == ReadClock(token, U16)
  {
    hide ReadClock, IsSpace;
    before := s[..TrimFrom(s)];
    var t := TrimStart(s);
    token, after := t[..TokenEnd(t)], t[TokenEnd(t)..];
    assert s == before + token + after;
    NoPointInSpace(before);
    if after != [] {
      assert IsSpace(after[0]);
      SpaceIsNoDigit(after[0]);
    }
  }

  lemma FrameDate(s: string)
    requires ReadDate(s).Some?
    ensures '.' !in s
  {
    hide ParseInt, SplitOnce;
    var body := if s != [] && s[0] == '-' then s[1..] else s;
    var (y, rest) := SplitOnce(body, '-').value;
    var (m, d) := SplitOnce(rest, '-').value;
    NumberHasNoPoint(y, I16);
    NumberHasNoPoint(m, U16);
    NumberHasNoPoint(d, U16);
    DashedHasNoPoint(y, rest, m, d, body);
    if s != body {
      assert s == ['-'] + body;
    }
  }

  lemma DashedHasNoPoint(y: string, rest: string, m: string, d: string, body: string)
    requires body == y + ['-'] + rest && rest == m + ['-'] + d
    requires '.' !in y && '.' !in m && '.' !in d
    ensures '.' !in body
  {
  }

  lemma FrameTimestamp(s: string) returns (before: string, token: string, after: string)
    requires ReadTimestamp(s).Some?
    ensures Framed(s, before, token, after)
    ensures Some(ReadTimestamp(s).value.1) == ReadClock(token, U16)
  {
    hide ReadClock, ReadTime, ReadDate;
    var (date, rest) := SplitOnce(s, ' ').value;
    var lead;
    lead, token, after := FrameTime(rest);
    FrameDate(date);
    before := date + [' '] + lead;
    assert s == before + token + after;
  }

  lemma FrameTrimmed(s: string) returns (before: string, after: string)
    ensures s == before + Trim(s) + after
    ensures '.' !in before && '.' !in after && NoLeadingDigit(after)
  {
    hide Trim, IsSpace;
    before, after := TrimParts(s);
    assert forall c :: c in before ==> c in before + after;
    assert forall c :: c in after ==> c in before + after;
    NoPointInSpace(before);
    NoPointInSpace(after);
  }

  /** The token up to a space or sign at `i`, inside text that was trimmed first. */
  lemma FrameUpTo(s: string, i: nat) returns (before: string, after: string)
    requires i < |Trim(s)| && !IsDigit(Trim(s)[i])
    ensures Framed(s, before, Trim(Trim(s)[..i]), after)
  {
    hide Trim;
    var t := Trim(s);
    var b, a := FrameTrimmed(s);
    var b2, a2 := FrameTrimmed(t[..i]);
    before, after := b + b2, a2 + t[i..] + a;
    assert t == t[..i] + t[i..];
    assert s == before + Trim(t[..i]) + after;
    assert after[0] == if a2 != [] then a2[0] else t[i];
  }

  lemma FrameZonedTime(s: string) returns (before: string, token: string, after: string)
    requires ReadZonedTime(s).Some?
    ensures Framed(s, before, token, after)
    ensures Some(ReadZonedTime(s).value.0) == ReadClock(token, I32)
  {
    hide ReadClock, ReadOffset, Trim, FindLast;
    var t := Trim(s);
    var i := if FindLast(t, c => c == ' ').Some? then FindLast(t, c => c == ' ').value
             else FindLast(t, IsSign).value;
    assert !IsDigit(t[i]);
    before, after := FrameUpTo(s, i);
    token := Trim(t[..i]);
  }

  lemma FrameLeaf(s: string, ty: TrinoTy)
    returns (before: string, token: string, after: string, w: Width)
    requires ty.IsTemporal() && LeafReading(s, ty).Some?
    ensures Framed(s, before, token, after)
    ensures LeafReading(s, ty) == ReadClock(token, w)
  {
    hide ReadClock, ReadTime, ReadTimestamp, ReadZonedTime, FindLast;
    match ty
    case Time => before, token, after := FrameTime(s); w := U16;
    case TimeWithTimeZone => before, token, after := FrameZonedTime(s); w := I32;
    case Timestamp => before, token, after := FrameTimestamp(s); w := U16;
    case TimestampWithTimeZone =>
      var i := FindLast(s, c => c == ' ').value;
      before, token, after := FrameTimestamp(s[..i]);
      assert s == s[..i] + s[i..] && s[i] == ' ';
      after := after + s[i..];
      w := U16;
  }

  /** The scan and the exact fraction, both of the same digits. */
  lemma ScanOf(s: string)
    ensures var n := FractionNanos(WireDigits(s)) as real;
            && n <= WireNanos(s) < n + 1.0
            && (FractionExceedsNanoseconds(s) <==> n != WireNanos(s))
  {
    hide FractionNanos, FractionOf, DigitRun, SplitOnce;
    NanosAreFloor(WireDigits(s));
    assert TenTo(9) == 1000000000;
  }

  /** The parser and the scan read the same nanoseconds of a leaf iff it is legible. */
  lemma LegibleLeafIffSame(s: string, ty: TrinoTy)
    requires ty.IsTemporal() && LeafReading(s, ty).Some?
    ensures var frac := LeafReading(s, ty).value.frac;
            && (LegibleLeaf(s, ty) <==> Nanos(frac) == FractionNanos(WireDigits(s)))
            && (frac.Some? && !LegibleLeaf(s, ty) ==> |WireDigits(s)| < NANO_DIGITS)
  {
    hide LeafReading, FractionNanos, LegibleFragment, WireDigits, AllZeros;
    match LeafReading(s, ty).value.frac
    case None => NanosOfDigits(WireDigits(s));
    case Some(f) =>
      var before, token, after, w := FrameLeaf(s, ty);
      FramedFraction(s, before, token, after, w);
      LegibleIffSame(f);
  }

  /** The usual case: nothing but digits as the fraction, and no point elsewhere. */
  ghost predicate DigitsOnly(s: string, ty: TrinoTy)
    requires ty.IsTemporal() && LeafReading(s, ty).Some?
  {
    match LeafReading(s, ty).value.frac
    case None => '.' !in s
    case Some(f) => AllDigits(f)
  }

  /** Such a leaf is legible, so its warning is exact. */
  lemma DigitsOnlyIsLegible(s: string, ty: TrinoTy)
    requires ty.IsTemporal() && LeafReading(s, ty).Some? && DigitsOnly(s, ty)
    ensures LegibleLeaf(s, ty)
  {
    hide LeafReading, FractionNanos;
    match LeafReading(s, ty).value.frac
    case None =>
    case Some(f) => NanosOfDigits(f);
  }

  lemma FewDigitsAreSilent(s: string)
    requires |WireDigits(s)| < NANO_DIGITS
    ensures !FractionExceedsNanoseconds(s)
  {
  }

  /**
   * A leaf that parses: a warning is never spurious, and without one the
   * delivered nanoseconds are exact iff the text is legible. So the warning
   * says what happened iff the text is legible, or shows no fraction to the
   * parser and a non-zero digit past the ninth to the scan.
   */
  lemma LeafIsExact(s: string, ty: TrinoTy, zone: Zone)
    requires ty.IsTemporal() && !ConvertLeaf(s, ty, zone).Text?
    ensures var col := ConvertLeaf(s, ty, zone);
            && LeafReading(s, ty).Some?
            && (col.TimeValue? || col.TimestampValue?)
            && (FractionExceedsNanoseconds(s) ==> col.clock.fraction as real != WireNanos(s))
            && (!FractionExceedsNanoseconds(s) ==>
                  (col.clock.fraction as real == WireNanos(s) <==> LegibleLeaf(s, ty)))
            && (LegibleLeaf(s, ty) ==>
                  col.clock.fraction as real <= WireNanos(s) < col.clock.fraction as real + 1.0)
            && ((FractionExceedsNanoseconds(s) <==> col.clock.fraction as real != WireNanos(s))
                <==> LegibleLeaf(s, ty)
                     || (LeafReading(s, ty).value.frac.None? && FractionExceedsNanoseconds(s)))
  {
    hide ConvertLeaf, LeafReading, LegibleLeaf, FractionNanos, WireNanos, WireDigits, FractionExceedsNanoseconds;
    LeafFraction(s, ty, zone);
    LegibleLeafIffSame(s, ty);
    if |WireDigits(s)| < NANO_DIGITS {
      FewDigitsAreSilent(s);
    }
    ScanOf(s);
    WarningTable(ConvertLeaf(s, ty, zone).clock.fraction, FractionNanos(WireDigits(s)), WireNanos(s));
  }

  /** Whole nanoseconds `n` delivered, `floor` those of the scan's digits, `w` the exact ones. */
  lemma WarningTable(n: nat, floor: nat, w: real)
    requires floor as real <= w < floor as real + 1.0
    ensures floor as real != w ==> n as real != w
    ensures floor as real == w ==> (n as real == w <==> n == floor)
    ensures n == floor ==> n as real <= w < n as real + 1.0
  {
    FloorIsUnique(n, floor, w);
  }

  /** The delivered fraction is the reading's, whatever zone was applied. */
  lemma LeafFraction(s: string, ty: TrinoTy, zone: Zone)
    requires ty.IsTemporal() && !ConvertLeaf(s, ty, zone).Text?
    ensures LeafReading(s, ty).Some?
    ensures var col := ConvertLeaf(s, ty, zone);
            (col.TimeValue? || col.TimestampValue?) && col.clock.fraction == Nanos(LeafReading(s, ty).value.frac)
  {
    hide ReadClock, ReadTime, ReadTimestamp, ReadZonedTime, FindLast, DeliverReading;
    match ty
    case TimeWithTimeZone => DeliveryKeepsInstant(s, zone.offset);
    case _ =>
  }

  // ----- through every level of nesting

  /** The warning against the values delivered: never spurious, and without one exact iff legible. */
  ghost predicate Judged(val: Json, ty: TrinoTy, zone: Zone) {
    var exact := Exact(val, ty, Convert(val, ty, zone));
    (Discards(val, ty) ==> !exact) && (!Discards(val, ty) ==> (exact <==> Legible(val, ty)))
  }

  lemma ArrayJudged(val: Json, inner: TrinoTy, zone: Zone)
    requires !val.Null? && (val.Arr? ==> forall i :: 0 <= i < |val.items| ==> Judged(val.items[i], inner, zone))
    ensures Judged(val, Array(inner), zone)
  {
    hide ConvertLeaf, LegibleLeaf, FractionExceedsNanoseconds, WireNanos;
    var col := Convert(val, Array(inner), zone);
    if val.Arr? {
      assert forall i :: 0 <= i < |val.items| ==> col.items[i] == Convert(val.items[i], inner, zone);
    }
  }

  lemma MapJudged(val: Json, key: TrinoTy, value: TrinoTy, zone: Zone)
    requires !val.Null?
    requires val.Obj? ==> forall i :: 0 <= i < |val.members| ==>
               Judged(Str(val.members[i].0), key, zone) && Judged(val.members[i].1, value, zone)
    ensures Judged(val, Map(key, value), zone)
  {
    hide ConvertLeaf, LegibleLeaf, FractionExceedsNanoseconds, WireNanos;
    var col := Convert(val, Map(key, value), zone);
    if val.Obj? {
      assert forall i :: 0 <= i < |val.members| ==>
        col.pairs[i] == (Convert(Str(val.members[i].0), key, zone), Convert(val.members[i].1, value, zone));
    }
  }

  lemma RowJudged(val: Json, fields: seq<(string, TrinoTy)>, zone: Zone)
    requires !val.Null?
    requires val.Arr? ==> forall i :: 0 <= i < Min(|val.items|, |fields|) ==> Judged(val.items[i], fields[i].1, zone)
    ensures Judged(val, Row(fields), zone)
  {
    hide ConvertLeaf, LegibleLeaf, FractionExceedsNanoseconds, WireNanos;
    var col := Convert(val, Row(fields), zone);
    if val.Arr? {
      assert forall i :: 0 <= i < Min(|val.items|, |fields|) ==>
        col.items[i] == Convert(val.items[i], fields[i].1, zone);
    }
  }

  lemma TupleJudged(val: Json, components: seq<TrinoTy>, zone: Zone)
    requires !val.Null?
    requires val.Arr? ==> forall i :: 0 <= i < Min(|val.items|, |components|) ==> Judged(val.items[i], components[i], zone)
    ensures Judged(val, Tuple(components), zone)
  {
    hide ConvertLeaf, LegibleLeaf, FractionExceedsNanoseconds, WireNanos;
    var col := Convert(val, Tuple(components), zone);
    if val.Arr? {
      assert forall i :: 0 <= i < Min(|val.items|, |components|) ==>
        col.items[i] == Convert(val.items[i], components[i], zone);
    }
  }

  lemma OptionalJudged(val: Json, inner: TrinoTy, zone: Zone)
    requires !val.Null? && Judged(val, inner, zone)
    ensures Judged(val, Optional(inner), zone)
  {
  }

  lemma LeafJudged(val: Json, ty: TrinoTy, zone: Zone)
    requires !val.Null? && (ty.IsTemporal() || ty.Plain?) && Parses(val, ty, zone)
    ensures Judged(val, ty, zone)
  {
    hide ConvertLeaf, LegibleLeaf, FractionExceedsNanoseconds, WireNanos;
    if val.Str? && ty.IsTemporal() {
      LeafIsExact(val.text, ty, zone);
    }
  }

  lemma {:induction false} NullJudged(ty: TrinoTy, zone: Zone)
    ensures Convert(Null, ty, zone) == NullValue && Judged(Null, ty, zone)
    ensures Exact(Null, ty, NullValue) && !Discards(Null, ty) && Legible(Null, ty)
  {
    hide ConvertLeaf, LegibleLeaf, FractionExceedsNanoseconds, WireNanos;
    match ty
    case Optional(inner) => NullJudged(inner, zone);
    case _ =>
  }

  lemma {:induction false} EveryLevelJudged(val: Json, ty: TrinoTy, zone: Zone)
    requires Parses(val, ty, zone)
    ensures Judged(val, ty, zone)
    decreases ty
  {
    hide Judged, ConvertLeaf;
    if val.Null? {
      NullJudged(ty, zone);
      return;
    }
    match ty
    case Optional(inner) =>
      EveryLevelJudged(val, inner, zone);
      OptionalJudged(val, inner, zone);
    case Array(inner) =>
      forall i | val.Arr? && 0 <= i < |val.items|
        ensures Judged(val.items[i], inner, zone)
      {
        EveryLevelJudged(val.items[i], inner, zone);
      }
      ArrayJudged(val, inner, zone);
    case Map(key, value) =>
      forall i | val.Obj? && 0 <= i < |val.members|
        ensures Judged(Str(val.members[i].0), key, zone) && Judged(val.members[i].1, value, zone)
      {
        EveryLevelJudged(Str(val.members[i].0), key, zone);
        EveryLevelJudged(val.members[i].1, value, zone);
      }
      MapJudged(val, key, value, zone);
    case Row(fields) =>
      forall i | val.Arr? && 0 <= i < Min(|val.items|, |fields|)
        ensures Judged(val.items[i], fields[i].1, zone)
      {
        EveryLevelJudged(val.items[i], fields[i].1, zone);
      }
      RowJudged(val, fields, zone);
    case Tuple(components) =>
      forall i | val.Arr? && 0 <= i < Min(|val.items|, |components|)
        ensures Judged(val.items[i], components[i], zone)
      {
        EveryLevelJudged(val.items[i], components[i], zone);
      }
      TupleJudged(val, components, zone);
    case _ => LeafJudged(val, ty, zone);
  }

  /**
   * The 01S07 warning through every level of nesting, for every value whose
   * temporal leaves parse: a warning means some delivered leaf differs from the
   * exact fraction its wire text carries, and without a warning every leaf is
   * exact iff every leaf's text is legible. So the warning says what happened
   * whenever all the texts are legible, and otherwise iff it was given.
   */
  lemma DiscardsIffInexact(val: Json, ty: TrinoTy, zone: Zone)
    requires Parses(val, ty, zone)
    ensures var exact := Exact(val, ty, Convert(val, ty, zone));
            && (Discards(val, ty) ==> !exact)
            && (!Discards(val, ty) ==> (exact <==> Legible(val, ty)))
            && ((Discards(val, ty) <==> !exact) <==> Legible(val, ty) || Discards(val, ty))
  {
    hide Exact, Convert, Discards, Legible, Parses;
    EveryLevelJudged(val, ty, zone);
  }

  // ----- the wire texts themselves

  lemma WireTextShape(p: Parts, sign: char, body: string)
    requires WireParts(p) && IsSign(sign) && '.' !in body
    ensures var text := WireClock(p) + [sign] + body;
            match p.frac
            case None => '.' !in text
            case Some(f) => SplitOnce(text, '.').Some? && WireDigits(text) == f
  {
    hide SplitOnce, DigitRun, Natural;
    NumeralHasOnlyDigits(p.hour);
    NumeralHasOnlyDigits(p.minute);
    NumeralHasOnlyDigits(p.second);
    assert !IsDigit(sign) && sign != '.';
    match p.frac
    case None =>
    case Some(f) =>
      var whole := p.hour + [':'] + (p.minute + [':'] + p.second);
      var after := [sign] + body;
      assert WireClock(p) + [sign] + body == whole + ['.'] + (f + after);
      SplitOnceAt(whole, '.', f + after);
      DigitRunAt(f, after);
  }

  /**
   * Every well-formed wire time with an offset parses and is legible, so exact
   * without a warning; and it draws one iff a non-zero digit stands past the
   * ninth.
   */
  lemma WireTimeWarns(p: Parts, sign: char, h: string, m: string, zone: Zone)
    requires WireParts(p) && IsSign(sign) && IsSessionOffset(zone.offset)
    requires Numeral(h) && Numeral(m) && Natural(h) < 24 && Natural(m) < 60
    ensures var text := WireClock(p) + [sign] + (h + [':'] + m);
            && !ConvertLeaf(text, TimeWithTimeZone, zone).Text? && LegibleLeaf(text, TimeWithTimeZone)
            && (Discards(Str(text), TimeWithTimeZone) <==>
                  p.frac.Some? && exists i :: NANO_DIGITS <= i < |p.frac.value| && p.frac.value[i] != '0')
  {
    hide DeliverTime, ReadZonedTime, WireClock, Natural, Shift, FractionNanos, SplitOnce, DigitRun;
    var body := h + [':'] + m;
    NumeralHasOnlyDigits(h);
    NumeralHasOnlyDigits(m);
    WireTextShape(p, sign, body);
    if p.frac.Some? {
      NanosOfDigits(p.frac.value);
    }
    WireTimeRead(p, sign, h, m);
    hide WireFields;
    WireTimeDelivered(p, sign, h, m, zone.offset);
  }

  /**
   * A scan and a parse that read different digits: a letter among the first
   * nine characters voids the parsed fraction, and no warning says so.
   */
  lemma StrayLetterIsSilent(p: Parts, zone: Zone)
    requires WireFields(p) && p.frac == Some("5x")
    ensures var text := WireClock(p); var clock := Clock(Natural(p.hour), Natural(p.minute), Natural(p.second), 0);
            && ConvertLeaf(text, Time, zone) == TimeValue(clock)
            && !Discards(Str(text), Time) && WireNanos(text) == 500000000.0
  {
    hide WireClock, Natural, ReadClock, SplitOnce, FractionNanos;
    assert !IsSpace('5') && !IsSpace('x');
    WireClockIsSolid(p);
    SolidToken(WireClock(p));
    WireClockRead(p, U16);
    StrayDigits(p);
    StrayNanos();
  }

  lemma StrayNanos()
    ensures FractionNanos("5x") == 0
  {
    assert NanoText("5x")[1] == 'x' && !IsDigit('x') && '5' != '+';
    assert !AllDigits(NanoText("5x"));
  }

  lemma StrayDigits(p: Parts)
    requires WireFields(p) && p.frac == Some("5x")
    ensures SplitOnce(WireClock(p), '.').Some? && WireDigits(WireClock(p)) == "5"
    ensures FractionOf("5") == 0.5
  {
    hide SplitOnce;
    NumeralHasOnlyDigits(p.hour);
    NumeralHasOnlyDigits(p.minute);
    NumeralHasOnlyDigits(p.second);
    var whole := p.hour + [':'] + (p.minute + [':'] + p.second);
    assert WireClock(p) == whole + ['.'] + "5x";
    SplitOnceAt(whole, '.', "5x");
    assert "5x" == "5" + "x" && !IsDigit('x');
    DigitRunAt("5", "x");
    assert "5"[1..] == [];
  }
}
