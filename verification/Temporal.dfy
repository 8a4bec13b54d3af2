/**
 * Reading Trino's temporal text: the fraction of a second, the clock fields,
 * and the delivery of a value with a time zone in the session's zone.
 */
module Temporal {
  import opened Wrappers
  import opened Text

  // ----- fractions of a second

  const NANO_DIGITS := 9

  function Zeros(n: nat): string {
    seq(n, _ => '0')
  }

  /** Left-aligned padding with zeros to nine characters, then the first nine. */
  function NanoText(frac: string): (s: string)
    ensures |s| == NANO_DIGITS
  {
    (frac + Zeros(NANO_DIGITS))[..NANO_DIGITS]
  }

  /** Nanoseconds from up to twelve fractional digits; zero for anything unreadable. */
  function FractionNanos(frac: string): nat {
    match ParseInt(NanoText(frac), U32)
    case None => 0
    case Some(n) => n
  }

  /** The fraction of a second a digit string denotes. */
  function FractionOf(digits: string): (f: real)
    requires AllDigits(digits)
    ensures 0.0 <= f < 1.0
  {
    if digits == [] then 0.0
    else (Digit(digits[0]) as real + FractionOf(digits[1..])) / 10.0
  }

  function TenTo(k: nat): (p: nat)
    ensures p >= 1
  {
    if k == 0 then 1 else 10 * TenTo(k - 1)
  }

  /** A digit string read from the front: its first digit carries the highest power of ten. */
  lemma {:induction false} NaturalFromFront(s: string)
    requires s != [] && AllDigits(s)
    ensures Natural(s) == Digit(s[0]) * TenTo(|s| - 1) + Natural(s[1..])
  {
    if |s| == 1 {
      assert s[1..] == [] && s[..0] == [];
    } else {
      var p := s[..|s| - 1];
      NaturalFromFront(p);
      NaturalOfTail(s);
      PowerStep(Digit(s[0]), |s| - 1);
      hide Digit, TenTo;
    }
  }

  lemma PowerStep(d: nat, k: nat)
    requires k > 0
    ensures d * TenTo(k) == 10 * (d * TenTo(k - 1))
  {
    var t := TenTo(k - 1);
    assert d * (10 * t) == 10 * (d * t);
  }

  lemma NaturalOfTail(s: string)
    requires |s| >= 2 && AllDigits(s)
    ensures Natural(s[1..]) == 10 * Natural(s[..|s| - 1][1..]) + Digit(s[|s| - 1])
  {
    assert s[1..][..|s| - 2] == s[..|s| - 1][1..];
  }

  /** The first `k` digits of `digits`, padded with zeros. */
  function Leading(digits: string, k: nat): (s: string)
    ensures |s| == k
  {
    (digits + Zeros(k))[..k]
  }

  lemma {:induction false} ZerosAreNothing(k: nat)
    ensures AllDigits(Zeros(k)) && Natural(Zeros(k)) == 0
  {
    if k > 0 {
      ZerosAreNothing(k - 1);
      assert Zeros(k)[..k - 1] == Zeros(k - 1);
    }
  }

  ghost predicate ZeroPast(digits: string, k: nat) {
    forall i :: k <= i < |digits| ==> digits[i] == '0'
  }

  lemma {:induction false} ZeroFraction(digits: string)
    requires AllDigits(digits)
    ensures FractionOf(digits) == 0.0 <==> ZeroPast(digits, 0)
  {
    if digits != [] {
      ZeroFraction(digits[1..]);
      assert ZeroPast(digits, 0) <==> digits[0] == '0' && ZeroPast(digits[1..], 0);
    }
  }

  lemma ScaleTenth(d: real, f: real, scale: real)
    ensures ((d + f) / 10.0) * (10.0 * scale) == d * scale + f * scale
  {
  }

  lemma LeadingStep(digits: string, k: nat)
    requires digits != [] && k > 0 && AllDigits(digits) && AllDigits(Leading(digits[1..], k - 1))
    ensures AllDigits(Leading(digits, k))
    ensures Natural(Leading(digits, k))
         == Digit(digits[0]) * TenTo(k - 1) + Natural(Leading(digits[1..], k - 1))
    ensures TenTo(k) == 10 * TenTo(k - 1)
  {
    var kept := Leading(digits, k);
    assert kept[0] == digits[0] && kept[1..] == Leading(digits[1..], k - 1);
    assert kept == [kept[0]] + kept[1..];
    NaturalFromFront(kept);
  }

  /** The exact value in units of ten to the minus `k`. */
  function Scaled(digits: string, k: nat): real
    requires AllDigits(digits)
  {
    FractionOf(digits) * TenTo(k) as real
  }

  lemma ScaledStep(digits: string, k: nat)
    requires digits != [] && k > 0 && AllDigits(digits)
    ensures Scaled(digits, k)
         == (Digit(digits[0]) * TenTo(k - 1)) as real + Scaled(digits[1..], k - 1)
  {
    var d, f, scale := Digit(digits[0]), FractionOf(digits[1..]), TenTo(k - 1);
    ScaleTenth(d as real, f, scale as real);
    assert (d * scale) as real == d as real * scale as real;
  }

  /**
   * Keeping the first `k` digits is rounding the fraction down to a multiple of
   * ten to the minus `k`, and is exact iff only zeros follow.
   */
  lemma {:induction false} LeadingIsFloor(digits: string, k: nat)
    requires AllDigits(digits)
    ensures AllDigits(Leading(digits, k))
    ensures var n := Natural(Leading(digits, k)) as real;
            && n <= Scaled(digits, k) < n + 1.0
            && (n == Scaled(digits, k) <==> ZeroPast(digits, k))
  {
    if k == 0 {
      ZeroFraction(digits);
    } else if digits == [] {
      ZerosAreNothing(k);
      assert Leading(digits, k) == Zeros(k);
      assert Scaled(digits, k) == 0.0;
    } else {
      var rest := digits[1..];
      LeadingIsFloor(rest, k - 1);
      LeadingStep(digits, k);
      ScaledStep(digits, k);
      ZeroPastStep(digits, k);
      hide Scaled, Leading, Natural, TenTo, ZeroPast;
    }
  }

  lemma ZeroPastStep(digits: string, k: nat)
    requires digits != [] && k > 0
    ensures ZeroPast(digits, k) <==> ZeroPast(digits[1..], k - 1)
  {
    var rest := digits[1..];
    assert forall i :: k <= i < |digits| ==> digits[i] == rest[i - 1];
    assert forall i :: k - 1 <= i < |rest| ==> rest[i] == digits[i + 1];
  }

  /** The nanoseconds of a digit fragment, against the exact fraction it denotes. */
  lemma NanosAreFloor(frac: string)
    requires AllDigits(frac)
    ensures var exact := Scaled(frac, NANO_DIGITS);
            && FractionNanos(frac) as real <= exact < FractionNanos(frac) as real + 1.0
            && (FractionNanos(frac) as real == exact <==> ZeroPast(frac, NANO_DIGITS))
  {
    LeadingIsFloor(frac, NANO_DIGITS);
    assert NanoText(frac) == Leading(frac, NANO_DIGITS);
    BoundedNatural(NanoText(frac));
    ParseDigits(NanoText(frac), U32);
    assert TenTo(9) == 1000000000;
  }

  lemma {:induction false} BoundedNatural(s: string)
    requires AllDigits(s)
    ensures Natural(s) < TenTo(|s|)
  {
    if s != [] {
      BoundedNatural(s[..|s| - 1]);
    }
  }

  function DigitRun(s: string): (run: string)
    ensures AllDigits(run) && run <= s
    ensures |run| < |s| ==> !IsDigit(s[|run|])
  {
    if s == [] || !IsDigit(s[0]) then [] else [s[0]] + DigitRun(s[1..])
  }

  /** Whether a non-zero digit stands past the ninth after the first point. */
  predicate FractionExceedsNanoseconds(text: string) {
    match SplitOnce(text, '.')
    case None => false
    case Some((_, rest)) =>
      var run := DigitRun(rest);
      exists i :: NANO_DIGITS <= i < |run| && run[i] != '0'
  }

  // ----- clock fields

  /** The fields as text read them, with the fraction fragment still as text. */
  datatype Reading = Reading(hour: int, minute: int, second: int, frac: Option<string>)

  /** The texts of the four parts of `HH:MM:SS[.fraction]`. */
  datatype Parts = Parts(hour: string, minute: string, second: string, frac: Option<string>)

  function ClockParts(s: string): Option<Parts> {
    match SplitOnce(s, ':')
    case None => None
    case Some((h, rest)) =>
      match SplitOnce(rest, ':')
      case None => None
      case Some((m, sec)) =>
        match SplitOnce(sec, '.')
        case None => Some(Parts(h, m, sec, None))
        case Some((whole, frac)) => Some(Parts(h, m, whole, Some(frac)))
  }

  /** The clock fields, each read in the given integer width. */
  function ReadClock(s: string, w: Width): (r: Option<Reading>)
    ensures r.Some? ==>
              && w.lo <= r.value.hour <= w.hi && w.lo <= r.value.minute <= w.hi
              && w.lo <= r.value.second <= w.hi
  {
    match ClockParts(s)
    case None => None
    case Some(p) =>
      match (ParseInt(p.hour, w), ParseInt(p.minute, w), ParseInt(p.second, w))
      case (Some(hour), Some(minute), Some(second)) => Some(Reading(hour, minute, second, p.frac))
      case _ => None
  }

  function Nanos(frac: Option<string>): nat {
    match frac
    case None => 0
    case Some(f) => FractionNanos(f)
  }

  datatype Clock = Clock(hour: nat, minute: nat, second: nat, fraction: nat)

  datatype Date = Date(year: int, month: int, day: int)

  /** `-YYYY-MM-DD`: the sign is taken off before the fields are split. */
  function ReadDate(s: string): (date: Option<Date>)
    ensures date.Some? ==>
              && I16.lo <= date.value.year <= I16.hi
              && 0 <= date.value.month <= U16.hi && 0 <= date.value.day <= U16.hi
  {
    var negative := s != [] && s[0] == '-';
    var body := if negative then s[1..] else s;
    match SplitOnce(body, '-')
    case None => None
    case Some((y, rest)) =>
      match SplitOnce(rest, '-')
      case None => None
      case Some((m, d)) =>
        match (ParseInt(y, I16), ParseInt(m, U16), ParseInt(d, U16))
        case (Some(year), Some(month), Some(day)) =>
          (match Fits(if negative then -year else year, I16)
           case None => None
           case Some(y) => Some(Date(y, month, day)))
        case _ => None
  }

  function ReadTime(s: string): Option<Reading> {
    match FirstToken(s)
    case None => None
    case Some(token) => ReadClock(token, U16)
  }

  function ReadTimestamp(s: string): Option<(Date, Reading)> {
    match SplitOnce(s, ' ')
    case None => None
    case Some((date, rest)) =>
      match (ReadDate(date), ReadTime(rest))
      case (Some(d), Some(r)) => Some((d, r))
      case _ => None
  }

  // ----- shifting between zones

  const DAY_MINUTES := 1440

  /** `HH:MM` moved back by an offset, every step checked against 32 bits. */
  function ShiftReading(r: Reading, offset: int): Option<Clock> {
    match Fits(r.hour * 60, I32)
    case None => None
    case Some(hours) =>
      match Fits(hours + r.minute, I32)
      case None => None
      case Some(minutes) =>
        match Fits(minutes - offset, I32)
        case None => None
        case Some(total) =>
          var wrapped := total % DAY_MINUTES;
          match Fits(r.second, U16)
          case None => None
          case Some(second) => Some(Clock(wrapped / 60, wrapped % 60, second, Nanos(r.frac)))
  }

  /** `hh` or `hh:mm` after the sign, as checked signed minutes. */
  function ReadOffset(sign: char, body: string): Option<int> {
    var (h, m) := match SplitOnce(body, ':') case None => (body, "0") case Some(p) => p;
    match (ParseInt(h, I32), ParseInt(m, I32))
    case (Some(hours), Some(minutes)) =>
      (match Fits(hours * 60, I32)
       case None => None
       case Some(a) =>
         match Fits(a + minutes, I32)
         case None => None
         case Some(b) => Fits(if sign == '-' then -b else b, I32))
    case _ => None
  }

  predicate IsSign(c: char) {
    c == '+' || c == '-'
  }

  /** A time with its own offset in minutes; a named zone counts as UTC. */
  function ReadZonedTime(s: string): Option<(Reading, int)> {
    var t := Trim(s);
    match FindLast(t, c => c == ' ')
    case Some(i) =>
      (match ReadClock(Trim(t[..i]), I32)
       case None => None
       case Some(r) => Some((r, 0)))
    case None =>
      match FindLast(t, IsSign)
      case None => None
      case Some(i) =>
        match (ReadOffset(t[i], t[i + 1..]), ReadClock(Trim(t[..i]), I32))
        case (Some(offset), Some(r)) => Some((r, offset))
        case _ => None
  }

  /** TIME WITH TIME ZONE as the time of day at the session's offset. */
  function DeliverTime(s: string, session: int): Option<Clock> {
    match ReadZonedTime(s)
    case None => None
    case Some((r, offset)) => DeliverReading(r, offset, session)
  }

  function DeliverReading(r: Reading, offset: int, session: int): Option<Clock> {
    match Fits(offset - session, I32)
    case None => None
    case Some(shift) => ShiftReading(r, shift)
  }

  /** What a session zone's offset can be: its hours read as at most 18, its minutes as at most 59. */
  predicate IsSessionOffset(minutes: int) {
    -1139 <= minutes <= 1139
  }

  /** A session zone set as `±hh:mm`, in minutes. */
  function SessionOffset(s: string): (offset: Option<int>) {
    var t := Trim(s);
    if t == [] || !IsSign(t[0]) then None
    else
      match SplitOnce(t[1..], ':')
      case None => None
      case Some((h, m)) =>
        if |h| != 2 || |m| != 2 then None
        else
          match (ParseInt(h, I32), ParseInt(m, I32))
          case (Some(hours), Some(minutes)) =>
            if hours > 18 || minutes > 59 then None
            else Some((if t[0] == '-' then -1 else 1) * (hours * 60 + minutes))
          case _ => None
  }

  /** Two characters are at most one digit after a sign. */
  lemma TwoCharacters(s: string)
    requires |s| == 2 && ParseInt(s, I32).Some?
    ensures -9 <= ParseInt(s, I32).value <= 99
  {
    if AllDigits(s[1..]) {
      BoundedNatural(s[1..]);
    }
    if AllDigits(s) {
      BoundedNatural(s);
    }
    assert TenTo(1) == 10 && TenTo(2) == 10 * TenTo(1);
  }

  /** Whatever text sets the session's offset, it stays within nineteen hours. */
  lemma SessionOffsetIsSmall(s: string)
    requires SessionOffset(s).Some?
    ensures IsSessionOffset(SessionOffset(s).value)
  {
    hide ParseInt, Trim;
    var (h, m) := SplitOnce(Trim(s)[1..], ':').value;
    TwoCharacters(h);
    TwoCharacters(m);
  }

  function MinuteOfDay(c: Clock): nat {
    c.hour * 60 + c.minute
  }

  function Shift(minute: int, offset: int): int {
    (minute - offset) % DAY_MINUTES
  }

  /** Shifts compose additively, so shifting back undoes a shift. */
  lemma ShiftsCompose(minute: int, a: int, b: int)
    ensures Shift(Shift(minute, a), b) == Shift(minute, a + b)
    ensures 0 <= minute < DAY_MINUTES ==> Shift(Shift(minute, a), -a) == minute
  {
    var q := (minute - a) / DAY_MINUTES;
    assert minute - a - b == (Shift(minute, a) - b) + q * DAY_MINUTES;
  }

  lemma ShiftReadingIsShift(r: Reading, offset: int)
    ensures ShiftReading(r, offset).Some? ==>
              var c := ShiftReading(r, offset).value;
              && c.hour < 24 && c.minute < 60 && c.second == r.second && c.fraction == Nanos(r.frac)
              && MinuteOfDay(c) == Shift(r.hour * 60 + r.minute, offset)
    ensures ShiftReading(r, offset).Some? <==>
              && Fits(r.hour * 60, I32).Some? && Fits(r.hour * 60 + r.minute, I32).Some?
              && Fits(r.hour * 60 + r.minute - offset, I32).Some? && Fits(r.second, U16).Some?
  {
  }

  lemma ReadingKeepsInstant(r: Reading, offset: int, session: int)
    requires DeliverReading(r, offset, session).Some?
    ensures var c := DeliverReading(r, offset, session).value;
            && c.hour < 24 && c.minute < 60 && c.second == r.second && c.fraction == Nanos(r.frac)
            && Shift(MinuteOfDay(c), session) == Shift(r.hour * 60 + r.minute, offset)
  {
    ShiftReadingIsShift(r, offset - session);
    ShiftsCompose(r.hour * 60 + r.minute, offset - session, session);
  }

  /**
   * Delivery keeps the instant: for every text and session offset the result
   * is a time of day whose UTC minute is the source's UTC minute, with seconds
   * and fraction untouched.
   */
  lemma DeliveryKeepsInstant(s: string, session: int)
    requires DeliverTime(s, session).Some?
    ensures ReadZonedTime(s).Some?
    ensures var (r, offset) := ReadZonedTime(s).value;
            var c := DeliverTime(s, session).value;
            && c.hour < 24 && c.minute < 60 && c.second == r.second && c.fraction == Nanos(r.frac)
            && Shift(MinuteOfDay(c), session) == Shift(r.hour * 60 + r.minute, offset)
  {
    hide ReadZonedTime;
    var (r, offset) := ReadZonedTime(s).value;
    ReadingKeepsInstant(r, offset, session);
  }

  /** A reading with its fields on the clock and an offset within a day is always delivered. */
  lemma ClockIsDelivered(s: string, session: int)
    requires IsSessionOffset(session) && ReadZonedTime(s).Some?
    requires ValidClock(ReadZonedTime(s).value.0)
    requires -DAY_MINUTES <= ReadZonedTime(s).value.1 <= DAY_MINUTES
    ensures DeliverTime(s, session).Some?
  {
    var (r, offset) := ReadZonedTime(s).value;
    ShiftReadingIsShift(r, offset - session);
  }

  // ----- timestamps with a time zone

  const DAY_SECONDS := 86400

  /**
   * What the calendar library answers: the day number of a date, the date of a
   * day number, and a named zone's offset in seconds at a local time, if any.
   */
  datatype Calendar = Calendar(
    dayOf: Date -> Option<int>,
    dateOf: int -> Date,
    offsetOf: (string, int) -> Option<int>)

  /** `hh` or `hh:mm` in 64 bits; unlike the time parser, unreadable minutes count as zero. */
  function ReadOffsetSeconds(sign: char, body: string): Option<int> {
    var (h, m) := match SplitOnce(body, ':') case None => (body, "0") case Some(p) => p;
    match ParseInt(h, I64)
    case None => None
    case Some(hours) =>
      var minutes := match ParseInt(m, I64) case None => 0 case Some(n) => n;
      var seconds := (if sign == '-' then -1 else 1) * (hours * 3600 + minutes * 60);
      if I64.lo <= seconds * 1000 <= I64.hi then Some(seconds) else None
  }

  predicate ValidClock(r: Reading) {
    0 <= r.hour < 24 && 0 <= r.minute < 60 && 0 <= r.second < 60
  }

  /** TIMESTAMP WITH TIME ZONE as wall time at a fixed session offset, in minutes. */
  function DeliverTimestamp(s: string, session: int, cal: Calendar): Option<(Date, Clock)> {
    match FindLast(s, c => c == ' ')
    case None => None
    case Some(i) =>
      match ReadTimestamp(s[..i])
      case None => None
      case Some((date, r)) => DeliverStamp(date, r, Trim(s[i + 1..]), session, cal)
  }

  function DeliverStamp(date: Date, r: Reading, zone: string, session: int, cal: Calendar)
    : Option<(Date, Clock)>
  {
    match cal.dayOf(date)
    case None => None
    case Some(day) =>
      if !ValidClock(r) then None
      else
        var local := day * DAY_SECONDS + r.hour * 3600 + r.minute * 60 + r.second;
        var offset :=
          if zone != [] && IsSign(zone[0]) then ReadOffsetSeconds(zone[0], zone[1..])
          else cal.offsetOf(zone, local);
        match offset
        case None => None
        case Some(seconds) => WallTime(local - seconds + session * 60, Nanos(r.frac), cal)
  }

  function WallTime(wall: int, fraction: nat, cal: Calendar): Option<(Date, Clock)> {
    var tod := wall % DAY_SECONDS;
    var shown := cal.dateOf(wall / DAY_SECONDS);
    match Fits(shown.year, I16)
    case None => None
    case Some(_) => Some((shown, Clock(tod / 3600, tod / 60 % 60, tod % 60, fraction)))
  }

  lemma WithinDay(second: nat, days: int)
    requires second < DAY_SECONDS
    ensures (second + days * DAY_SECONDS) % DAY_SECONDS == second
  {
  }

  lemma MinuteAndSecond(minute: nat, second: nat)
    requires minute < DAY_MINUTES && second < 60
    ensures var s := minute * 60 + second; s < DAY_SECONDS && s / 60 == minute && s % 60 == second
  {
  }

  /** Moving a second of the day by whole minutes moves its minute and keeps its second. */
  lemma WholeMinutes(day: int, minute: int, second: int, shift: int)
    requires 0 <= second < 60
    ensures var tod := (day * DAY_SECONDS + minute * 60 + second + shift * 60) % DAY_SECONDS;
            tod / 60 == (minute + shift) % DAY_MINUTES && tod % 60 == second
  {
    var (q, r) := ((minute + shift) / DAY_MINUTES, (minute + shift) % DAY_MINUTES);
    MinuteAndSecond(r, second);
    WithinDay(r * 60 + second, day + q);
    assert day * DAY_SECONDS + minute * 60 + second + shift * 60
        == (r * 60 + second) + (day + q) * DAY_SECONDS;
  }

  /** Both offset readers agree on an offset both accept. */
  lemma OffsetsAgree(sign: char, body: string)
    requires ReadOffset(sign, body).Some? && ReadOffsetSeconds(sign, body).Some?
    ensures ReadOffsetSeconds(sign, body).value == 60 * ReadOffset(sign, body).value
  {
  }

  /** A clock text: no space inside or around it, so trimming and tokenising keep it. */
  ghost predicate Solid(s: string) {
    s != [] && forall i :: 0 <= i < |s| ==> !IsSpace(s[i])
  }

  lemma SolidToken(s: string)
    requires Solid(s)
    ensures FirstToken(s) == Some(s) && Trim(s) == s
  {
    TrimIsIdentity(s);
    assert TrimStart(s) == s;
  }

  /** A field read in a narrower width reads the same in a wider one. */
  lemma WidthsAgree(s: string)
    requires ReadClock(s, U16).Some? && ReadClock(s, I32).Some?
    ensures ReadClock(s, U16) == ReadClock(s, I32)
  {
    var p := ClockParts(s).value;
    UnsignedIsSigned(p.hour);
    UnsignedIsSigned(p.minute);
    UnsignedIsSigned(p.second);
  }

  lemma UnsignedIsSigned(s: string)
    requires ParseInt(s, U16).Some?
    ensures ParseInt(s, I32) == ParseInt(s, U16)
  {
    assert !IsDigit('-');
  }

  lemma ReadsTime(clock: string, sign: char, body: string)
    requires Solid(clock) && IsSign(sign)
    requires forall i :: 0 <= i < |body| ==> !IsSpace(body[i]) && !IsSign(body[i])
    ensures ReadZonedTime(clock + [sign] + body) ==
            match (ReadOffset(sign, body), ReadClock(clock, I32))
            case (Some(offset), Some(r)) => Some((r, offset))
            case _ => None
  {
    var t := clock + [sign] + body;
    hide ReadClock, ReadOffset, Trim, FindLast, FirstToken;
    SolidToken(t);
    SolidToken(clock);
    assert IsSpace(' ');
    FindLastAt(clock, sign, body, IsSign);
    assert t[|clock|] == sign && t[..|clock|] == clock && t[|clock| + 1..] == body;
  }

  lemma ReadsTimestamp(date: string, clock: string)
    requires Solid(date) && Solid(clock)
    ensures ReadTimestamp(date + " " + clock) ==
            match (ReadDate(date), ReadClock(clock, U16))
            case (Some(d), Some(r)) => Some((d, r))
            case _ => None
  {
    assert IsSpace(' ');
    assert date + " " + clock == date + [' '] + clock;
    SplitOnceAt(date, ' ', clock);
    SolidToken(clock);
  }

  lemma ReadsStamp(date: string, clock: string, zone: string, session: int, cal: Calendar)
    requires Solid(date) && Solid(clock) && Solid(zone)
    ensures DeliverTimestamp(date + " " + clock + " " + zone, session, cal) ==
            match (ReadDate(date), ReadClock(clock, U16))
            case (Some(d), Some(r)) => DeliverStamp(d, r, zone, session, cal)
            case _ => None
  {
    hide DeliverStamp, ReadTimestamp, ReadClock;
    var s := date + " " + clock + " " + zone;
    var i := |date + " " + clock|;
    assert IsSpace(' ');
    assert s == (date + " " + clock) + [' '] + zone;
    FindLastAt(date + " " + clock, ' ', zone, c => c == ' ');
    assert s[i + 1..] == zone && s[..i] == date + " " + clock;
    SolidToken(zone);
    ReadsTimestamp(date, clock);
  }

  lemma ReadingIs(r: Reading, offset: int, session: int)
    requires DeliverReading(r, offset, session).Some?
    ensures var minute := Shift(r.hour * 60 + r.minute, offset - session);
            DeliverReading(r, offset, session) == Some(Clock(minute / 60, minute % 60, r.second, Nanos(r.frac)))
  {
  }

  lemma HoursOfSeconds(tod: nat)
    ensures tod / 3600 == tod / 60 / 60
  {
  }

  lemma SameTimeOfDay(day: int, r: Reading, minutes: int, session: int)
    requires ValidClock(r) && DeliverReading(r, minutes, session).Some?
    ensures var tod := (day * DAY_SECONDS + r.hour * 3600 + r.minute * 60 + r.second
                        - 60 * minutes + session * 60) % DAY_SECONDS;
            DeliverReading(r, minutes, session)
            == Some(Clock(tod / 3600, tod / 60 % 60, tod % 60, Nanos(r.frac)))
  {
    hide DeliverReading, Nanos;
    ReadingIs(r, minutes, session);
    var minute := r.hour * 60 + r.minute;
    WholeMinutes(day, minute, r.second, session - minutes);
    var total := day * DAY_SECONDS + minute * 60 + r.second + (session - minutes) * 60;
    assert total == day * DAY_SECONDS + r.hour * 3600 + r.minute * 60 + r.second
                    - 60 * minutes + session * 60;
    HoursOfSeconds(total % DAY_SECONDS);
  }

  lemma SolidSuffix(sign: char, body: string)
    requires IsSign(sign) && forall i :: 0 <= i < |body| ==> !IsSpace(body[i]) && !IsSign(body[i])
    ensures Solid([sign] + body)
  {
  }

  lemma StampIsTime(date: Date, r: Reading, sign: char, body: string, session: int, cal: Calendar)
    requires IsSign(sign) && ReadOffset(sign, body).Some?
    requires DeliverReading(r, ReadOffset(sign, body).value, session).Some?
    requires DeliverStamp(date, r, [sign] + body, session, cal).Some?
    ensures DeliverStamp(date, r, [sign] + body, session, cal).value.1
         == DeliverReading(r, ReadOffset(sign, body).value, session).value
  {
    hide DeliverReading, ReadOffset, ReadOffsetSeconds;
    assert ([sign] + body)[0] == sign && ([sign] + body)[1..] == body;
    OffsetsAgree(sign, body);
    SameTimeOfDay(cal.dayOf(date).value, r, ReadOffset(sign, body).value, session);
  }

  /**
   * The two types with a time zone are delivered alike: the same clock text
   * and the same numeric offset give the same time of day, whatever the date.
   */
  lemma TimeAndTimestampAgree(date: string, clock: string, sign: char, body: string,
                              session: int, cal: Calendar)
    requires Solid(date) && Solid(clock) && IsSign(sign)
    requires forall i :: 0 <= i < |body| ==> !IsSpace(body[i]) && !IsSign(body[i])
    requires DeliverTime(clock + [sign] + body, session).Some?
    requires DeliverTimestamp(date + " " + clock + " " + ([sign] + body), session, cal).Some?
    ensures DeliverTimestamp(date + " " + clock + " " + ([sign] + body), session, cal).value.1
         == DeliverTime(clock + [sign] + body, session).value
  {
    hide ReadZonedTime, DeliverTimestamp, ReadClock, ReadOffset, DeliverReading, DeliverStamp, Solid;
    ReadsTime(clock, sign, body);
    SolidSuffix(sign, body);
    ReadsStamp(date, clock, [sign] + body, session, cal);
    WidthsAgree(clock);
    StampIsTime(ReadDate(date).value, ReadClock(clock, U16).value, sign, body, session, cal);
  }

  // ----- the texts the coordinator sends

  /** Clock fields written in digits, leading zeros or not. */
  predicate WireFields(p: Parts) {
    && Numeral(p.hour) && Numeral(p.minute) && Numeral(p.second)
    && Natural(p.hour) < 24 && Natural(p.minute) < 60 && Natural(p.second) < 60
  }

  /** The texts of a wire time: every field is digits, and some digits may follow a point. */
  predicate WireParts(p: Parts) {
    WireFields(p) && (p.frac.Some? ==> AllDigits(p.frac.value))
  }

  predicate Numeral(s: string) {
    s != [] && AllDigits(s)
  }

  function FractionText(frac: Option<string>): string {
    match frac case None => "" case Some(f) => ['.'] + f
  }

  function WireClock(p: Parts): string {
    p.hour + [':'] + (p.minute + [':'] + (p.second + FractionText(p.frac)))
  }

  lemma NumeralHasOnlyDigits(s: string)
    requires AllDigits(s)
    ensures ':' !in s && '.' !in s
    ensures forall c :: c in s ==> !IsSpace(c) && !IsSign(c)
  {
    assert !IsDigit(':') && !IsDigit('.');
    assert forall c :: IsDigit(c) ==> !IsSpace(c) && !IsSign(c);
  }

  lemma WirePartsRead(p: Parts)
    requires WireFields(p)
    ensures ClockParts(WireClock(p)) == Some(p)
  {
    hide SplitOnce;
    NumeralHasOnlyDigits(p.hour);
    NumeralHasOnlyDigits(p.minute);
    NumeralHasOnlyDigits(p.second);
    SplitOnceAt(p.hour, ':', p.minute + [':'] + (p.second + FractionText(p.frac)));
    SplitOnceAt(p.minute, ':', p.second + FractionText(p.frac));
    match p.frac
    case None => assert p.second + [] == p.second;
    case Some(f) =>
      assert p.second + (['.'] + f) == p.second + ['.'] + f;
      SplitOnceAt(p.second, '.', f);
  }

  lemma WireClockRead(p: Parts, w: Width)
    requires WireFields(p) && w.lo <= 0 && 60 <= w.hi
    ensures ReadClock(WireClock(p), w)
         == Some(Reading(Natural(p.hour), Natural(p.minute), Natural(p.second), p.frac))
  {
    hide ParseInt, ClockParts, WireClock;
    WirePartsRead(p);
    ParseDigits(p.hour, w);
    ParseDigits(p.minute, w);
    ParseDigits(p.second, w);
  }

  lemma WireClockIsSolid(p: Parts)
    requires WireFields(p)
    requires p.frac.Some? ==> forall c :: c in p.frac.value ==> !IsSpace(c)
    ensures Solid(WireClock(p))
  {
    NumeralHasOnlyDigits(p.hour);
    NumeralHasOnlyDigits(p.minute);
    NumeralHasOnlyDigits(p.second);
    var tail := FractionText(p.frac);
    assert !IsSpace(':') && !IsSpace('.');
    assert forall c :: c in tail ==> !IsSpace(c);
    assert forall c :: c in WireClock(p) ==> c in p.hour || c in p.minute || c in p.second || c in tail || c == ':';
  }

  function SignedMinutes(sign: char, hours: nat, minutes: nat): int {
    (if sign == '-' then -1 else 1) * (hours * 60 + minutes)
  }

  lemma WireOffsetRead(sign: char, h: string, m: string)
    requires Numeral(h) && Numeral(m) && Natural(h) < 24 && Natural(m) < 60
    ensures ReadOffset(sign, h + [':'] + m) == Some(SignedMinutes(sign, Natural(h), Natural(m)))
  {
    hide SplitOnce, ParseInt, Natural;
    NumeralHasOnlyDigits(h);
    SplitOnceAt(h, ':', m);
    ParseDigits(h, I32);
    ParseDigits(m, I32);
  }

  lemma WireOffsetIsSolid(h: string, m: string)
    requires Numeral(h) && Numeral(m)
    ensures forall i :: 0 <= i < |h + [':'] + m| ==> !IsSpace((h + [':'] + m)[i]) && !IsSign((h + [':'] + m)[i])
  {
    NumeralHasOnlyDigits(h);
    NumeralHasOnlyDigits(m);
    assert !IsSpace(':') && !IsSign(':');
    var body := h + [':'] + m;
    assert forall i :: 0 <= i < |body| ==> body[i] in h || body[i] in m || body[i] == ':';
  }

  lemma WireTimeRead(p: Parts, sign: char, h: string, m: string)
    requires WireParts(p) && IsSign(sign)
    requires Numeral(h) && Numeral(m) && Natural(h) < 24 && Natural(m) < 60
    ensures ReadZonedTime(WireClock(p) + [sign] + (h + [':'] + m))
         == Some((Reading(Natural(p.hour), Natural(p.minute), Natural(p.second), p.frac),
                  SignedMinutes(sign, Natural(h), Natural(m))))
  {
    hide ReadZonedTime, ReadClock, ReadOffset, WireClock, Numeral, Solid, IsSign, IsSpace, Natural;
    if p.frac.Some? {
      NumeralHasOnlyDigits(p.frac.value);
    }
    hide WireFields;
    var body := h + [':'] + m;
    WireOffsetRead(sign, h, m);
    WireOffsetIsSolid(h, m);
    WireClockIsSolid(p);
    WireClockRead(p, I32);
    ReadsTime(WireClock(p), sign, body);
  }

  lemma ReadingDelivered(r: Reading, offset: int, session: int)
    requires ValidClock(r) && IsSessionOffset(session) && -DAY_MINUTES <= offset <= DAY_MINUTES
    ensures var minute := Shift(r.hour * 60 + r.minute, offset - session);
            DeliverReading(r, offset, session) == Some(Clock(minute / 60, minute % 60, r.second, Nanos(r.frac)))
  {
  }

  /**
   * Every well-formed wire text with a numeric offset is delivered, and as the
   * one time of day that shows the same instant at the session's offset: the
   * fields may have leading zeros and any number of fraction digits.
   */
  lemma WireTimeDelivered(p: Parts, sign: char, h: string, m: string, session: int)
    requires WireParts(p) && IsSign(sign) && IsSessionOffset(session)
    requires Numeral(h) && Numeral(m) && Natural(h) < 24 && Natural(m) < 60
    ensures var minute := Shift(Natural(p.hour) * 60 + Natural(p.minute),
                                SignedMinutes(sign, Natural(h), Natural(m)) - session);
            DeliverTime(WireClock(p) + [sign] + (h + [':'] + m), session)
            == Some(Clock(minute / 60, minute % 60, Natural(p.second), Nanos(p.frac)))
  {
    hide ReadZonedTime, DeliverReading, WireClock, Natural, Nanos, Shift;
    WireTimeRead(p, sign, h, m);
    ReadingDelivered(Reading(Natural(p.hour), Natural(p.minute), Natural(p.second), p.frac),
                     SignedMinutes(sign, Natural(h), Natural(m)), session);
  }
}
