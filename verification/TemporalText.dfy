/**
 * Dates and zones as the coordinator writes them: what each text is delivered
 * as, in terms of the numbers it is written with.
 */
module TemporalText {
  import opened Wrappers
  import opened Text
  import opened Temporal

  // ----- dates on the wire

  /** The texts of a wire date, and whether it is before the common era. */
  datatype DateParts = DateParts(negative: bool, year: string, month: string, day: string)

  predicate WireDateFields(p: DateParts) {
    && Numeral(p.year) && Numeral(p.month) && Numeral(p.day)
    && Natural(p.year) <= I16.hi && Natural(p.month) <= U16.hi && Natural(p.day) <= U16.hi
  }

  function WireDate(p: DateParts): string {
    (if p.negative then ['-'] else []) + (p.year + ['-'] + (p.month + ['-'] + p.day))
  }

  function DateOf(p: DateParts): Date
    requires WireDateFields(p)
  {
    var year: int := Natural(p.year);
    Date(if p.negative then -year else year, Natural(p.month), Natural(p.day))
  }

  lemma NumeralHasNoDash(s: string)
    requires Numeral(s)
    ensures '-' !in s && s[0] != '-'
  {
    assert !IsDigit('-');
  }

  /** A date reads back as its own year, month and day, and a leading minus as a negative year. */
  lemma WireDateRead(p: DateParts)
    requires WireDateFields(p)
    ensures ReadDate(WireDate(p)) == Some(DateOf(p))
  {
    hide SplitOnce, ParseInt, Natural, Numeral, ReadDate;
    var body := p.year + ['-'] + (p.month + ['-'] + p.day);
    DashesSplit(p.year, p.month, p.day);
    DateNumbers(p);
    assert (['-'] + body)[1..] == body && [] + body == body;
    assert WireDate(p) == if p.negative then ['-'] + body else body;
    ReadDateIs(WireDate(p), p.negative, body, p.year, p.month, p.day);
  }

  lemma DashesSplit(y: string, m: string, d: string)
    requires Numeral(y) && Numeral(m)
    ensures var rest := m + ['-'] + d;
            && SplitOnce(y + ['-'] + rest, '-') == Some((y, rest)) && SplitOnce(rest, '-') == Some((m, d))
            && (y + ['-'] + rest)[0] != '-'
  {
    hide SplitOnce;
    NumeralHasNoDash(y);
    NumeralHasNoDash(m);
    SplitOnceAt(y, '-', m + ['-'] + d);
    SplitOnceAt(m, '-', d);
    assert (y + ['-'] + (m + ['-'] + d))[0] == y[0];
  }

  lemma ReadDateIs(s: string, negative: bool, body: string, y: string, m: string, d: string)
    requires if negative then s != [] && s[0] == '-' && s[1..] == body else s == body && (s == [] || s[0] != '-')
    requires SplitOnce(body, '-').Some? && SplitOnce(body, '-').value.0 == y
    requires SplitOnce(SplitOnce(body, '-').value.1, '-') == Some((m, d))
    requires ParseInt(y, I16).Some? && ParseInt(m, U16).Some? && ParseInt(d, U16).Some?
    ensures ReadDate(s)
         == match Fits(if negative then -ParseInt(y, I16).value else ParseInt(y, I16).value, I16)
            case None => None
            case Some(year) => Some(Date(year, ParseInt(m, U16).value, ParseInt(d, U16).value))
  {
    hide SplitOnce, ParseInt;
  }

  lemma DateNumbers(p: DateParts)
    requires WireDateFields(p)
    ensures ParseInt(p.year, I16) == Some(Natural(p.year)) && ParseInt(p.month, U16) == Some(Natural(p.month))
    ensures ParseInt(p.day, U16) == Some(Natural(p.day)) && p.year != []
  {
    hide ParseInt;
    ParseDigits(p.year, I16);
    ParseDigits(p.month, U16);
    ParseDigits(p.day, U16);
  }

  lemma WireDateIsSolid(p: DateParts)
    requires WireDateFields(p)
    ensures Solid(WireDate(p))
  {
    hide Natural;
    NumeralHasOnlyDigits(p.year);
    NumeralHasOnlyDigits(p.month);
    NumeralHasOnlyDigits(p.day);
    assert !IsSpace('-');
    assert forall c :: c in WireDate(p) ==> c in p.year || c in p.month || c in p.day || c == '-';
  }

  /** A timestamp's text reads as its date's and its clock's own numbers. */
  lemma WireTimestampRead(d: DateParts, p: Parts)
    requires WireDateFields(d) && WireParts(p)
    ensures ReadTimestamp(WireDate(d) + " " + WireClock(p))
         == Some((DateOf(d), Reading(Natural(p.hour), Natural(p.minute), Natural(p.second), p.frac)))
  {
    SolidClock(p);
    hide ReadDate, ReadClock, ReadTimestamp, WireDate, WireClock, WireFields, Solid, Natural;
    WireDateRead(d);
    WireDateIsSolid(d);
    WireClockRead(p, U16);
    ReadsTimestamp(WireDate(d), WireClock(p));
  }

  lemma SolidClock(p: Parts)
    requires WireParts(p)
    ensures Solid(WireClock(p)) && WireFields(p)
  {
    hide Natural, Solid;
    if p.frac.Some? {
      NumeralHasOnlyDigits(p.frac.value);
    }
    WireClockIsSolid(p);
  }

  /** A time's text, with nothing after it, reads as its own numbers. */
  lemma WireClockAlone(p: Parts)
    requires WireParts(p)
    ensures ReadTime(WireClock(p))
         == Some(Reading(Natural(p.hour), Natural(p.minute), Natural(p.second), p.frac))
  {
    SolidClock(p);
    hide ReadClock, WireClock, WireFields, Solid, Natural;
    SolidToken(WireClock(p));
    WireClockRead(p, U16);
  }

  function ReadingOf(p: Parts): Reading
    requires WireParts(p)
  {
    Reading(Natural(p.hour), Natural(p.minute), Natural(p.second), p.frac)
  }

  // ----- zones on the wire

  /** The second, counted from the day of `dayOf`, that the wall shows. */
  function LocalSecond(day: int, p: Parts): int
    requires WireParts(p)
  {
    var r := ReadingOf(p);
    day * DAY_SECONDS + r.hour * 3600 + r.minute * 60 + r.second
  }

  /** The date and the time of day the wall shows at a second, if the year can be carried. */
  function Shown(wall: int, fraction: nat, cal: Calendar): Option<(Date, Clock)> {
    var (day, second) := (wall / DAY_SECONDS, wall % DAY_SECONDS);
    var date := cal.dateOf(day);
    if I16.lo <= date.year <= I16.hi
    then Some((date, Clock(second / 3600, second / 60 % 60, second % 60, fraction)))
    else None
  }

  /**
   * A timestamp with a numeric offset is shown on the day, and at the time of
   * day, of its own instant at the session's offset.
   */
  lemma WireStampDelivered(d: DateParts, day: int, p: Parts, sign: char, h: string, m: string, session: int, cal: Calendar)
    requires WireDateFields(d) && WireParts(p) && IsSign(sign) && cal.dayOf(DateOf(d)) == Some(day)
    requires Numeral(h) && Numeral(m) && Natural(h) < 24 && Natural(m) < 60
    ensures DeliverTimestamp(WireDate(d) + " " + WireClock(p) + " " + ([sign] + (h + [':'] + m)), session, cal)
         == Shown(LocalSecond(day, p) - 60 * SignedMinutes(sign, Natural(h), Natural(m)) + session * 60,
                  Nanos(p.frac), cal)
  {
    hide DeliverTimestamp, WireDate, WireClock, WireDateFields, WireParts, DateOf, Solid, ReadOffsetSeconds, Nanos, Shown;
    hide SignedMinutes, Natural, LocalSecond, IsSign, IsSpace;
    var body := h + [':'] + m;
    var zone := [sign] + body;
    WireOffsetIsSolid(h, m);
    ZoneIsSolid(sign, body);
    OffsetSecondsRead(sign, h, m);
    hide Numeral;
    assert zone[0] == sign && zone[1..] == body;
    StampAt(d, day, p, zone, session, cal);
  }

  lemma ZoneIsSolid(sign: char, body: string)
    requires IsSign(sign) && forall i :: 0 <= i < |body| ==> !IsSpace(body[i])
    ensures Solid([sign] + body)
  {
    assert !IsSpace('+') && !IsSpace('-');
  }

  lemma OffsetSecondsRead(sign: char, h: string, m: string)
    requires IsSign(sign) && Numeral(h) && Numeral(m) && Natural(h) < 24 && Natural(m) < 60
    ensures ReadOffsetSeconds(sign, h + [':'] + m) == Some(60 * SignedMinutes(sign, Natural(h), Natural(m)))
  {
    hide SplitOnce, ParseInt, Natural;
    NumeralHasOnlyDigits(h);
    SplitOnceAt(h, ':', m);
    ParseDigits(h, I64);
    ParseDigits(m, I64);
  }

  lemma SolidIsSome(s: string)
    requires Solid(s)
    ensures s != []
  {
  }

  lemma StampIs(date: Date, day: int, r: Reading, zone: string, session: int, cal: Calendar)
    requires cal.dayOf(date) == Some(day) && ValidClock(r) && zone != []
    ensures var local := day * DAY_SECONDS + r.hour * 3600 + r.minute * 60 + r.second;
            var offset := if IsSign(zone[0]) then ReadOffsetSeconds(zone[0], zone[1..]) else cal.offsetOf(zone, local);
            DeliverStamp(date, r, zone, session, cal)
            == match offset
               case None => None
               case Some(seconds) => Shown(local - seconds + session * 60, Nanos(r.frac), cal)
  {
    hide ReadOffsetSeconds, Nanos;
  }

  lemma StampReads(d: DateParts, p: Parts, zone: string, session: int, cal: Calendar)
    requires WireDateFields(d) && WireParts(p) && Solid(zone)
    ensures DeliverTimestamp(WireDate(d) + " " + WireClock(p) + " " + zone, session, cal)
         == DeliverStamp(DateOf(d), ReadingOf(p), zone, session, cal)
  {
    hide ReadDate, ReadClock, DeliverTimestamp, DeliverStamp, WireDate, WireClock, WireDateFields, DateOf, Solid;
    SolidClock(p);
    WireDateIsSolid(d);
    WireDateRead(d);
    hide WireFields, WireParts, Natural, ReadingOf;
    ClockReads(p);
    ReadsStamp(WireDate(d), WireClock(p), zone, session, cal);
  }

  lemma ClockReads(p: Parts)
    requires WireParts(p)
    ensures ReadClock(WireClock(p), U16) == Some(ReadingOf(p)) && ReadClock(WireClock(p), I32) == Some(ReadingOf(p))
    ensures ValidClock(ReadingOf(p))
  {
    hide ReadClock, WireClock;
    WireClockRead(p, U16);
    WireClockRead(p, I32);
  }

  /** What a timestamp with any zone is shown as, once the zone's offset is known. */
  lemma StampAt(d: DateParts, day: int, p: Parts, zone: string, session: int, cal: Calendar)
    requires WireDateFields(d) && WireParts(p) && Solid(zone) && cal.dayOf(DateOf(d)) == Some(day)
    ensures var local := LocalSecond(day, p);
            var offset := if IsSign(zone[0]) then ReadOffsetSeconds(zone[0], zone[1..]) else cal.offsetOf(zone, local);
            DeliverTimestamp(WireDate(d) + " " + WireClock(p) + " " + zone, session, cal)
            == match offset
               case None => None
               case Some(seconds) => Shown(local - seconds + session * 60, Nanos(p.frac), cal)
  {
    hide DeliverTimestamp, DeliverStamp, WireDate, WireClock, WireDateFields, WireParts, DateOf, Solid, Natural;
    hide ReadOffsetSeconds, ReadClock, Nanos, Shown;
    SolidIsSome(zone);
    ClockReads(p);
    StampReads(d, p, zone, session, cal);
    StampIs(DateOf(d), day, ReadingOf(p), zone, session, cal);
  }

  /** With a named zone the offset is the zone's at that local time; none there, and the value stays text. */
  lemma NamedStampDelivered(d: DateParts, day: int, p: Parts, zone: string, session: int, cal: Calendar)
    requires WireDateFields(d) && WireParts(p) && Solid(zone) && !IsSign(zone[0]) && cal.dayOf(DateOf(d)) == Some(day)
    ensures DeliverTimestamp(WireDate(d) + " " + WireClock(p) + " " + zone, session, cal)
         == match cal.offsetOf(zone, LocalSecond(day, p))
            case None => None
            case Some(seconds) => Shown(LocalSecond(day, p) - seconds + session * 60, Nanos(p.frac), cal)
  {
    hide DeliverTimestamp, WireDate, WireClock, WireDateFields, WireParts, DateOf, ReadOffsetSeconds, Nanos, Shown;
    hide LocalSecond;
    StampAt(d, day, p, zone, session, cal);
  }

  /** Delivered in its own zone, a timestamp shows its own date and clock. */
  lemma OwnZoneIsIdentity(d: DateParts, day: int, p: Parts, sign: char, h: string, m: string, cal: Calendar)
    requires WireDateFields(d) && WireParts(p) && IsSign(sign)
    requires Numeral(h) && Numeral(m) && Natural(h) < 24 && Natural(m) < 60
    requires cal.dayOf(DateOf(d)) == Some(day) && cal.dateOf(day) == DateOf(d)
    ensures DeliverTimestamp(WireDate(d) + " " + WireClock(p) + " " + ([sign] + (h + [':'] + m)),
                             SignedMinutes(sign, Natural(h), Natural(m)), cal)
         == Some((DateOf(d), Clock(Natural(p.hour), Natural(p.minute), Natural(p.second), Nanos(p.frac))))
  {
    hide DeliverTimestamp, WireDate, WireClock, Natural, Nanos;
    var session := SignedMinutes(sign, Natural(h), Natural(m));
    WireStampDelivered(d, day, p, sign, h, m, session, cal);
    SecondOfDay(day, Natural(p.hour), Natural(p.minute), Natural(p.second));
    hide SignedMinutes;
  }

  lemma SecondOfDay(day: int, hour: nat, minute: nat, second: nat)
    requires hour < 24 && minute < 60 && second < 60
    ensures var wall := day * DAY_SECONDS + hour * 3600 + minute * 60 + second;
            && wall / DAY_SECONDS == day
            && var s := wall % DAY_SECONDS; s / 3600 == hour && s / 60 % 60 == minute && s % 60 == second
  {
    MinuteAndSecond(hour * 60 + minute, second);
    var s := hour * 3600 + minute * 60 + second;
    WithinDay(s, day);
    HoursOfSeconds(s);
  }

  /** A time with a named zone has no date to look its offset up by: it counts as UTC. */
  lemma NamedTimeDelivered(p: Parts, zone: string, session: int)
    requires WireParts(p) && Solid(zone) && IsSessionOffset(session)
    ensures var minute := Shift(Natural(p.hour) * 60 + Natural(p.minute), -session);
            DeliverTime(WireClock(p) + " " + zone, session)
            == Some(Clock(minute / 60, minute % 60, Natural(p.second), Nanos(p.frac)))
  {
    hide ReadZonedTime, DeliverReading, WireClock, Natural, Nanos, Shift, Solid;
    NamedTimeRead(p, zone);
    ReadingDelivered(Reading(Natural(p.hour), Natural(p.minute), Natural(p.second), p.frac), 0, session);
  }

  lemma NamedTimeRead(p: Parts, zone: string)
    requires WireParts(p) && Solid(zone)
    ensures ReadZonedTime(WireClock(p) + " " + zone)
         == Some((Reading(Natural(p.hour), Natural(p.minute), Natural(p.second), p.frac), 0))
  {
    SolidClock(p);
    hide ReadClock, Trim, FindLast, WireClock, WireFields, Natural, FirstToken;
    var clock := WireClock(p);
    var t := clock + " " + zone;
    TrimIsIdentity(t);
    SolidToken(clock);
    WireClockRead(p, I32);
    assert t == clock + [' '] + zone && IsSpace(' ');
    FindLastAt(clock, ' ', zone, c => c == ' ');
    assert t[..|clock|] == clock;
  }

  /** An hour alone is an offset of that many hours and no minutes, in both parsers. */
  lemma HourAlone(sign: char, h: string)
    requires Numeral(h)
    ensures ReadOffset(sign, h) == ReadOffset(sign, h + [':'] + "0")
    ensures ReadOffsetSeconds(sign, h) == ReadOffsetSeconds(sign, h + [':'] + "0")
  {
    hide SplitOnce, ParseInt;
    NumeralHasOnlyDigits(h);
    SplitOnceAt(h, ':', "0");
    assert SplitOnce(h, ':').None?;
  }

  /** A session offset reads back as its signed minutes. */
  lemma SessionOffsetRead(sign: char, h: string, m: string)
    requires IsSign(sign) && |h| == 2 && |m| == 2 && AllDigits(h) && AllDigits(m)
    requires Natural(h) <= 18 && Natural(m) <= 59
    ensures SessionOffset([sign] + (h + [':'] + m)) == Some(SignedMinutes(sign, Natural(h), Natural(m)))
  {
    hide SplitOnce, ParseInt, Trim, Natural;
    var body := h + [':'] + m;
    WireOffsetIsSolid(h, m);
    ZoneIsSolid(sign, body);
    SolidToken([sign] + body);
    NumeralHasOnlyDigits(h);
    SplitOnceAt(h, ':', m);
    ParseDigits(h, I32);
    ParseDigits(m, I32);
    assert ([sign] + body)[1..] == body;
  }

  /** Minutes that cannot be read make the time parser decline and count as none in the timestamp parser. */
  lemma UnreadableMinutes(sign: char, h: string, m: string)
    requires Numeral(h) && Natural(h) < 24 && ParseInt(m, I64).None? && ParseInt(m, I32).None?
    ensures ReadOffset(sign, h + [':'] + m) == None
    ensures ReadOffsetSeconds(sign, h + [':'] + m) == ReadOffsetSeconds(sign, h)
  {
    hide SplitOnce, ParseInt;
    NumeralHasOnlyDigits(h);
    SplitOnceAt(h, ':', m);
    assert SplitOnce(h, ':').None?;
    ZeroIsNought();
  }

  lemma ZeroIsNought()
    ensures ParseInt("0", I64) == Some(0)
  {
    assert "0"[..0] == [] && IsDigit('0');
    assert Natural("0") == 0;
    ParseDigits("0", I64);
  }

  /** Whatever follows a time after a space is not read. */
  lemma TimeEndsAtSpace(p: Parts, rest: string)
    requires WireParts(p)
    ensures ReadTime(WireClock(p) + " " + rest) == ReadTime(WireClock(p))
  {
    SolidClock(p);
    hide ReadClock, WireClock, WireFields, Natural;
    SolidToken(WireClock(p));
    TokenBeforeSpace(WireClock(p), rest);
  }

  lemma TokenBeforeSpace(token: string, rest: string)
    requires Solid(token)
    ensures FirstToken(token + " " + rest) == Some(token)
  {
    var s := token + " " + rest;
    assert s[0] == token[0] && IsSpace(' ');
    assert TrimStart(s) == s;
    var n := TokenEnd(s);
    assert s[|token|] == ' ';
    assert forall i :: 0 <= i < |token| ==> s[i] == token[i];
    assert n == |token|;
    assert s[..n] == token;
  }
}
