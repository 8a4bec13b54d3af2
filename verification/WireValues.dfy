/**
 * What the application is given for a wire value: the numbers a temporal text
 * is written with, and everything else as it came.
 */
module WireValues {
  import opened Wrappers
  import opened Text
  import opened Temporal
  import opened TemporalText
  import opened ValueConversion

  // ----- temporal leaves

  function ClockAt(p: Parts): Clock
    requires WireParts(p)
  {
    Clock(Natural(p.hour), Natural(p.minute), Natural(p.second), Nanos(p.frac))
  }

  /** A time and a timestamp are delivered with the very numbers they are written with. */
  lemma PlainTimesDelivered(d: DateParts, p: Parts, zone: Zone)
    requires WireDateFields(d) && WireParts(p)
    ensures ConvertLeaf(WireClock(p), Time, zone) == TimeValue(ClockAt(p))
    ensures ConvertLeaf(WireDate(d) + " " + WireClock(p), Timestamp, zone) == TimestampValue(DateOf(d), ClockAt(p))
  {
    hide ReadTime, ReadTimestamp, WireDate, WireClock, Natural, Nanos, WireDateFields, DateOf;
    WireClockAlone(p);
    WireTimestampRead(d, p);
  }

  /** A zoned timestamp is delivered on the day and at the time its instant shows in the session. */
  lemma ZonedTimestampDelivered(d: DateParts, day: int, p: Parts, sign: char, h: string, m: string, zone: Zone)
    requires WireDateFields(d) && WireParts(p) && IsSign(sign) && zone.calendar.dayOf(DateOf(d)) == Some(day)
    requires Numeral(h) && Numeral(m) && Natural(h) < 24 && Natural(m) < 60
    ensures var text := WireDate(d) + " " + WireClock(p) + " " + ([sign] + (h + [':'] + m));
            var wall := LocalSecond(day, p) + 60 * (zone.offset - SignedMinutes(sign, Natural(h), Natural(m)));
            ConvertLeaf(text, TimestampWithTimeZone, zone)
            == match Shown(wall, Nanos(p.frac), zone.calendar)
               case None => ColumnValue.Text(text)
               case Some((date, clock)) => TimestampValue(date, clock)
  {
    hide DeliverTimestamp, WireDate, WireClock, Natural, Nanos, WireDateFields, DateOf, Shown, LocalSecond, SignedMinutes;
    WireStampDelivered(d, day, p, sign, h, m, zone.offset, zone.calendar);
  }

  // ----- everything else

  /** The JSON a delivered value stands for, read off the value alone. */
  function Image(col: ColumnValue): Json {
    match col
    case Text(s) => Str(s)
    case Raw(json) => json
    case PlainValue(json) => json
    case ArrayValue(items) => Arr(seq(|items|, i requires 0 <= i < |items| => Image(items[i])))
    case RowValue(items) => Arr(seq(|items|, i requires 0 <= i < |items| => Image(items[i])))
    case MapValue(pairs) =>
      Obj(seq(|pairs|, i requires 0 <= i < |pairs| => (KeyOf(Image(pairs[i].0)), Image(pairs[i].1))))
    case _ => Null
  }

  function KeyOf(key: Json): string {
    if key.Str? then key.text else []
  }

  /** Every temporal leaf that is text fails to parse. */
  ghost predicate Unparsed(val: Json, ty: TrinoTy, zone: Zone)
    decreases ty
  {
    match ty
    case Optional(inner) => Unparsed(val, inner, zone)
    case Array(inner) => val.Arr? ==> forall i :: 0 <= i < |val.items| ==> Unparsed(val.items[i], inner, zone)
    case Map(key, value) =>
      val.Obj? ==> forall i :: 0 <= i < |val.members| ==>
        Unparsed(Str(val.members[i].0), key, zone) && Unparsed(val.members[i].1, value, zone)
    case Row(fields) =>
      val.Arr? ==> forall i :: 0 <= i < |val.items| && i < |fields| ==> Unparsed(val.items[i], fields[i].1, zone)
    case Tuple(components) =>
      val.Arr? ==> forall i :: 0 <= i < |val.items| && i < |components| ==> Unparsed(val.items[i], components[i], zone)
    case Plain => true
    case _ => val.Str? ==> ConvertLeaf(val.text, ty, zone).Text?
  }

  /** The value without the fields a row type does not know. */
  function Known(val: Json, ty: TrinoTy): Json
    decreases ty
  {
    match ty
    case Optional(inner) => Known(val, inner)
    case Array(inner) =>
      if val.Arr? then Arr(seq(|val.items|, i requires 0 <= i < |val.items| => Known(val.items[i], inner))) else val
    case Map(key, value) =>
      if val.Obj? then
        Obj(seq(|val.members|, i requires 0 <= i < |val.members| =>
              (val.members[i].0, Known(val.members[i].1, value))))
      else val
    case Row(fields) =>
      if val.Arr? then
        Arr(seq(Min(|val.items|, |fields|), i requires 0 <= i < Min(|val.items|, |fields|) =>
              Known(val.items[i], fields[i].1)))
      else val
    case Tuple(components) =>
      if val.Arr? then
        Arr(seq(Min(|val.items|, |components|), i requires 0 <= i < Min(|val.items|, |components|) =>
              Known(val.items[i], components[i])))
      else val
    case _ => val
  }

  /**
   * What is not a temporal value is carried through unchanged, at every level
   * of nesting, in place and in order; only surplus fields of a row are dropped.
   */
  lemma {:induction false} CarriedThrough(val: Json, ty: TrinoTy, zone: Zone)
    requires Unparsed(val, ty, zone)
    ensures Image(Convert(val, ty, zone)) == Known(val, ty)
    decreases ty
  {
    hide ConvertLeaf;
    if val.Null? {
      NullCarried(ty);
      return;
    }
    match ty
    case Optional(inner) => CarriedThrough(val, inner, zone);
    case Array(inner) =>
      forall i | val.Arr? && 0 <= i < |val.items|
        ensures Image(Convert(val.items[i], inner, zone)) == Known(val.items[i], inner)
      {
        CarriedThrough(val.items[i], inner, zone);
      }
    case Map(key, value) => MapCarried(val, key, value, zone);
    case Row(fields) =>
      forall i | val.Arr? && 0 <= i < Min(|val.items|, |fields|)
        ensures Image(Convert(val.items[i], fields[i].1, zone)) == Known(val.items[i], fields[i].1)
      {
        CarriedThrough(val.items[i], fields[i].1, zone);
      }
    case Tuple(components) =>
      forall i | val.Arr? && 0 <= i < Min(|val.items|, |components|)
        ensures Image(Convert(val.items[i], components[i], zone)) == Known(val.items[i], components[i])
      {
        CarriedThrough(val.items[i], components[i], zone);
      }
    case Plain =>
    case _ =>
      if val.Str? {
        TextIsItself(val.text, ty, zone);
      }
  }

  lemma {:induction false} MapCarried(val: Json, key: TrinoTy, value: TrinoTy, zone: Zone)
    requires !val.Null? && Unparsed(val, Map(key, value), zone)
    ensures Image(Convert(val, Map(key, value), zone)) == Known(val, Map(key, value))
    decreases Map(key, value), 0
  {
    hide ConvertLeaf;
    forall i | val.Obj? && 0 <= i < |val.members|
      ensures Image(Convert(Str(val.members[i].0), key, zone)) == Str(val.members[i].0)
      ensures Image(Convert(val.members[i].1, value, zone)) == Known(val.members[i].1, value)
    {
      CarriedThrough(Str(val.members[i].0), key, zone);
      KeysAreKnown(val.members[i].0, key);
      CarriedThrough(val.members[i].1, value, zone);
    }
  }

  lemma {:induction false} KeysAreKnown(text: string, ty: TrinoTy)
    ensures Known(Str(text), ty) == Str(text)
  {
    match ty
    case Optional(inner) => KeysAreKnown(text, inner);
    case _ =>
  }

  lemma {:induction false} NullCarried(ty: TrinoTy)
    ensures Known(Null, ty) == Null
  {
    match ty
    case Optional(inner) => NullCarried(inner);
    case _ =>
  }

  lemma TextIsItself(s: string, ty: TrinoTy, zone: Zone)
    requires ty.IsTemporal() && ConvertLeaf(s, ty, zone).Text?
    ensures ConvertLeaf(s, ty, zone) == ColumnValue.Text(s)
  {
    hide ReadTime, ReadTimestamp, DeliverTime, DeliverTimestamp;
  }
}
