/** The INDATE/OUTDATE formatter of test_dates.py: a `YYYYMMDDHHmm` stamp
    becomes the display text `DD/MM/YYYY (HH:MM)` together with a colour and a
    PAST/FUTURE status, judged against the current time. The current time is
    a parameter here rather than a read of the system clock. */
module InOutDate {
  import opened AsciiDecimal
  import opened Calendar

  /** The neutral grey used when the input is left as it is. */
  const Neutral := "#808080"
  /** The soft red of a date that has passed. */
  const PastColour := "#E57373"
  /** The soft green of a date still to come (or exactly now). */
  const FutureColour := "#81C784"

  /** The status strings "PAST" and "FUTURE". */
  datatype Status = Past | Future

  /** The three shapes of result: the input handed back untouched because
      it is too short; the formatted date with its colour and status; or the
      input handed back because its fields do not form a date-time, with the
      field the calendar check rejected. */
  datatype Outcome =
    | Short(input: string, colour: string)
    | Formatted(text: string, colour: string, status: Status)
    | Error(input: string, colour: string, reason: FieldError)

  /** Python's `s[lo:hi]` for `0 <= lo <= hi`: bounds past the end are clipped. */
  function Slice(s: string, lo: nat, hi: nat): (t: string)
    requires lo <= hi
    ensures hi <= |s| ==> t == s[lo..hi]
    ensures |t| <= hi - lo
  {
    if hi <= |s| then s[lo..hi]
    else if lo <= |s| then s[lo..]
    else ""
  }

  /** A field read from characters `lo..hi-1` when they are all digits,
      otherwise its default. */
  function FieldOr(s: string, lo: nat, hi: nat, default: nat): nat
    requires lo <= hi
  {
    var t := Slice(s, lo, hi);
    if IsNumeral(t) then Value(t) else default
  }

  /** The five fields read from fixed positions, as the formatter reads
      them; the seconds and microseconds of the resulting date-time are 0.
      Hour and minute are read only when the string reaches that far. */
  function Fields(s: string): DateTime {
    DateTime(
      FieldOr(s, 0, 4, 2025),
      FieldOr(s, 4, 6, 1),
      FieldOr(s, 6, 8, 1),
      if |s| >= 10 then FieldOr(s, 8, 10, 0) else 0,
      if |s| >= 12 then FieldOr(s, 10, 12, 0) else 0,
      0, 0)
  }

  /** `f"{day:02d}/{month:02d}/{year} ({hour:02d}:{minute:02d})"`. */
  function DisplayText(dt: DateTime): string
    requires ValidDateTime(dt)
  {
    Pad2(dt.day) + "/" + Pad2(dt.month) + "/" + Decimal(dt.year)
      + " (" + Pad2(dt.hour) + ":" + Pad2(dt.minute) + ")"
  }

  /** The formatter. Input that is under 8 characters comes back as it is,
      in grey. Otherwise the fields are read; if they are not a valid
      date-time the input comes back in grey with the rejected field; if they
      are, the display text comes back with PAST (red) when the date-time is
      strictly earlier than `now` and FUTURE (green) otherwise. */
  function FormatInOutDate(s: string, now: DateTime): (r: Outcome)
    ensures r.Short? <==> |s| < 8
    ensures r.Error? <==> |s| >= 8 && !ValidDateTime(Fields(s))
    ensures !r.Formatted? ==> r.input == s && r.colour == Neutral
    ensures r.Formatted? ==> (r.status == Past <==> Before(Fields(s), now))
    ensures r.Formatted? ==> r.colour == (if r.status == Past then PastColour else FutureColour)
    ensures r.Formatted? ==> r.text == DisplayText(Fields(s))
    ensures r.Error? ==> CheckFields(Fields(s)) == Some(r.reason)
  {
    if |s| < 8 then Short(s, Neutral)
    else
      var dt := Fields(s);
      match CheckFields(dt)
      case Some(e) => Error(s, Neutral, e)
      case None =>
        if Before(dt, now) then Formatted(DisplayText(dt), PastColour, Past)
        else Formatted(DisplayText(dt), FutureColour, Future)
  }

  // ---------------------------------------------------------------------
  // Reading the display text back

  /** The inverse of `DisplayText`: recognises `DD/MM/Y+ (HH:MM)` and
      returns the five fields it shows (seconds and microseconds 0). */
  function ParseDisplay(t: string): (r: Option<DateTime>)
    ensures r.Some? ==> |t| >= 15 && t[2] == '/' && t[5] == '/' && t[|t| - 1] == ')'
  {
    if |t| < 15 then None
    else
      var n := |t|;
      var dd, mm, yy := t[0..2], t[3..5], t[6..n - 8];
      var hh, mi := t[n - 6..n - 4], t[n - 3..n - 1];
      if t[2] == '/' && t[5] == '/' && t[n - 8..n - 6] == " (" && t[n - 4] == ':' && t[n - 1] == ')'
         && IsNumeral(dd) && IsNumeral(mm) && IsNumeral(yy) && IsNumeral(hh) && IsNumeral(mi)
      then Some(DateTime(Value(yy), Value(mm), Value(dd), Value(hh), Value(mi), 0, 0))
      else None
  }

  /** The display text carries every field it was made from: it reads back
      to the same date-time (up to the minute), so two valid date-times that
      differ in a shown field never share a display text. */
  lemma DisplayRoundTrip(dt: DateTime)
    requires ValidDateTime(dt)
    ensures ParseDisplay(DisplayText(dt))
            == Some(DateTime(dt.year, dt.month, dt.day, dt.hour, dt.minute, 0, 0))
  {
    var t := DisplayText(dt);
    var n := |t|;
    var dd, mm, yy := Pad2(dt.day), Pad2(dt.month), Decimal(dt.year);
    var hh, mi := Pad2(dt.hour), Pad2(dt.minute);
    Pad2RoundTrip(dt.day);
    Pad2RoundTrip(dt.month);
    Pad2RoundTrip(dt.hour);
    Pad2RoundTrip(dt.minute);
    DecimalRoundTrip(dt.year);
    assert t == dd + "/" + mm + "/" + yy + " (" + hh + ":" + mi + ")";
    assert t[0..2] == dd;
    assert t[3..5] == mm;
    assert t[6..n - 8] == yy;
    assert t[n - 8..n - 6] == " (";
    assert t[n - 6..n - 4] == hh;
    assert t[n - 3..n - 1] == mi;
  }

  /** The display text is `14 + (digits of the year)` characters long: 18
      for four-digit years, shorter for years below 1000, whose `{year}` is
      not padded. */
  lemma DisplayLength(dt: DateTime)
    requires ValidDateTime(dt)
    ensures |DisplayText(dt)| == 14 + |Decimal(dt.year)|
    ensures dt.year >= 1000 <==> |DisplayText(dt)| == 18
    ensures |DisplayText(dt)| <= 18
  {
    DecimalLength(dt.year);
    Pad2RoundTrip(dt.day);
    Pad2RoundTrip(dt.month);
    Pad2RoundTrip(dt.hour);
    Pad2RoundTrip(dt.minute);
  }

  // ---------------------------------------------------------------------
  // Properties of the formatter

  /** The field extraction stated with plain slices: for input of at least
      8 characters, year, month and day come from characters 0-3, 4-5 and
      6-7 when those are digits, otherwise 2025, 1 and 1; hour comes from
      characters 8-9 only for input of at least 10 characters, and minute
      from 10-11 only for input of at least 12, otherwise 0. */
  lemma FieldPositions(s: string)
    requires |s| >= 8
    ensures Fields(s).year == if AllDigits(s[0..4]) then Value(s[0..4]) else 2025
    ensures Fields(s).month == if AllDigits(s[4..6]) then Value(s[4..6]) else 1
    ensures Fields(s).day == if AllDigits(s[6..8]) then Value(s[6..8]) else 1
    ensures Fields(s).hour == if |s| >= 10 && AllDigits(s[8..10]) then Value(s[8..10]) else 0
    ensures Fields(s).minute == if |s| >= 12 && AllDigits(s[10..12]) then Value(s[10..12]) else 0
    ensures Fields(s).second == 0 && Fields(s).microsecond == 0
  {
  }

  /** Fields read from digits are bounded by their width, so the only way
      to fail the calendar check is a value that is too large, or a zero
      year, month or day. */
  lemma FieldBounds(s: string)
    ensures 0 <= Fields(s).year <= 9999
    ensures 0 <= Fields(s).month <= 99 && 0 <= Fields(s).day <= 99
    ensures 0 <= Fields(s).hour <= 99 && 0 <= Fields(s).minute <= 99
  {
    assert Pow10(4) == 10000 && Pow10(2) == 100;
    if IsNumeral(Slice(s, 0, 4)) { ValueBound(Slice(s, 0, 4)); }
    if IsNumeral(Slice(s, 4, 6)) { ValueBound(Slice(s, 4, 6)); }
    if IsNumeral(Slice(s, 6, 8)) { ValueBound(Slice(s, 6, 8)); }
    if IsNumeral(Slice(s, 8, 10)) { ValueBound(Slice(s, 8, 10)); }
    if IsNumeral(Slice(s, 10, 12)) { ValueBound(Slice(s, 10, 12)); }
  }

  /** Characters after index 11 never affect the outcome: the formatted
      text, colour and status, or the rejected field, are those of the first
      twelve characters. */
  lemma TrailingCharactersIgnored(s: string, now: DateTime)
    requires |s| >= 12
    ensures Fields(s) == Fields(s[..12])
    ensures FormatInOutDate(s, now).Formatted? == FormatInOutDate(s[..12], now).Formatted?
    ensures FormatInOutDate(s, now).Formatted? ==> FormatInOutDate(s, now) == FormatInOutDate(s[..12], now)
    ensures FormatInOutDate(s, now).Error? ==>
              FormatInOutDate(s[..12], now).Error?
              && FormatInOutDate(s, now).reason == FormatInOutDate(s[..12], now).reason
  {
    var p := s[..12];
    assert s[0..4] == p[0..4] && s[4..6] == p[4..6] && s[6..8] == p[6..8];
    assert s[8..10] == p[8..10] && s[10..12] == p[10..12];
  }

  /** The formatter never fails: every input gets exactly one of the three
      outcomes, and the colour is always one of the three constants, grey
      exactly when the input is handed back. */
  lemma ColourIsOneOfThree(s: string, now: DateTime)
    ensures FormatInOutDate(s, now).colour in {Neutral, PastColour, FutureColour}
    ensures FormatInOutDate(s, now).colour == Neutral <==> !FormatInOutDate(s, now).Formatted?
  {
  }

  /** A successful result shows exactly the fields that were read, with the
      year unpadded, and is 18 characters long when the year has four
      digits. */
  lemma FormattedShowsFields(s: string, now: DateTime)
    requires FormatInOutDate(s, now).Formatted?
    ensures ValidDateTime(Fields(s))
    ensures ParseDisplay(FormatInOutDate(s, now).text) == Some(Fields(s))
    ensures |FormatInOutDate(s, now).text| == 14 + |Decimal(Fields(s).year)|
    ensures |FormatInOutDate(s, now).text| <= 18
    ensures Fields(s).year >= 1000 <==> |FormatInOutDate(s, now).text| == 18
  {
    DisplayRoundTrip(Fields(s));
    DisplayLength(Fields(s));
  }

  /** The stamp `YYYYMMDDHHmm` of a date-time, every field zero-filled. */
  function Stamp(dt: DateTime): (t: string)
    requires ValidDateTime(dt)
    ensures |t| == 12 && AllDigits(t)
  {
    assert Pow10(4) == 10000 && Pow10(2) == 100;
    FixedRoundTrip(dt.year, 4);
    FixedRoundTrip(dt.month, 2);
    FixedRoundTrip(dt.day, 2);
    FixedRoundTrip(dt.hour, 2);
    FixedRoundTrip(dt.minute, 2);
    Fixed(dt.year, 4) + Fixed(dt.month, 2) + Fixed(dt.day, 2) + Fixed(dt.hour, 2) + Fixed(dt.minute, 2)
  }

  /** Reading a well-formed stamp gives back the date-time it was written
      from, so its display text and status are those of that date-time. */
  lemma StampRoundTrip(dt: DateTime, now: DateTime)
    requires ValidDateTime(dt) && dt.second == 0 && dt.microsecond == 0
    ensures Fields(Stamp(dt)) == dt
    ensures FormatInOutDate(Stamp(dt), now)
            == if Before(dt, now) then Formatted(DisplayText(dt), PastColour, Past)
               else Formatted(DisplayText(dt), FutureColour, Future)
  {
    var t := Stamp(dt);
    StampSlices(dt);
    assert Pow10(4) == 10000 && Pow10(2) == 100;
    FixedRoundTrip(dt.year, 4);
    FixedRoundTrip(dt.month, 2);
    FixedRoundTrip(dt.day, 2);
    FixedRoundTrip(dt.hour, 2);
    FixedRoundTrip(dt.minute, 2);
    assert Fields(t) == dt;
  }

  /** Where each field sits in a stamp. */
  lemma StampSlices(dt: DateTime)
    requires ValidDateTime(dt)
    ensures Stamp(dt)[0..4] == Fixed(dt.year, 4)
    ensures Stamp(dt)[4..6] == Fixed(dt.month, 2)
    ensures Stamp(dt)[6..8] == Fixed(dt.day, 2)
    ensures Stamp(dt)[8..10] == Fixed(dt.hour, 2)
    ensures Stamp(dt)[10..12] == Fixed(dt.minute, 2)
  {
    assert Pow10(4) == 10000 && Pow10(2) == 100;
    var y, mo, d := Fixed(dt.year, 4), Fixed(dt.month, 2), Fixed(dt.day, 2);
    var h, mi := Fixed(dt.hour, 2), Fixed(dt.minute, 2);
    FixedRoundTrip(dt.year, 4);
    FixedRoundTrip(dt.month, 2);
    FixedRoundTrip(dt.day, 2);
    FixedRoundTrip(dt.hour, 2);
    FixedRoundTrip(dt.minute, 2);
    var t := Stamp(dt);
    assert t == y + mo + d + h + mi;
  }

  /** PAST exactly when the stamp is strictly earlier than now, judged on
      all seven fields: the stamp has 0 seconds, while the current time has
      seconds and microseconds. When now falls exactly on the stamp's minute
      (no seconds, no microseconds) the stamp is FUTURE; any later instant
      within that minute makes it PAST. */
  lemma PastIffEarlierThanNow(s: string, now: DateTime)
    requires FormatInOutDate(s, now).Formatted?
    requires ValidDateTime(now)
    ensures FormatInOutDate(s, now).status == Past <==> Key(Fields(s)) < Key(now)
    ensures (Fields(s).year, Fields(s).month, Fields(s).day, Fields(s).hour, Fields(s).minute)
              == (now.year, now.month, now.day, now.hour, now.minute)
            ==> (FormatInOutDate(s, now).status == Future <==> now.second == 0 && now.microsecond == 0)
  {
    BeforeIsKeyOrder(Fields(s), now);
  }

  /** The fields of a twelve-digit stamp, digit by digit. */
  lemma StampFields(s: string)
    requires |s| == 12 && AllDigits(s)
    ensures Fields(s) == DateTime(
              1000 * DigitValue(s[0]) + 100 * DigitValue(s[1]) + 10 * DigitValue(s[2]) + DigitValue(s[3]),
              10 * DigitValue(s[4]) + DigitValue(s[5]),
              10 * DigitValue(s[6]) + DigitValue(s[7]),
              10 * DigitValue(s[8]) + DigitValue(s[9]),
              10 * DigitValue(s[10]) + DigitValue(s[11]),
              0, 0)
  {
    ValueOfFour(s[0..4]);
    ValueOfTwo(s[4..6]);
    ValueOfTwo(s[6..8]);
    ValueOfTwo(s[8..10]);
    ValueOfTwo(s[10..12]);
  }

  /** The display text of a date-time with a four-digit year, character
      by character. */
  lemma DisplayTextChars(dt: DateTime)
    requires ValidDateTime(dt) && dt.year >= 1000
    ensures DisplayText(dt)
            == [DigitChar(dt.day / 10), DigitChar(dt.day % 10), '/',
                DigitChar(dt.month / 10), DigitChar(dt.month % 10), '/',
                DigitChar(dt.year / 1000), DigitChar(dt.year / 100 % 10),
                DigitChar(dt.year / 10 % 10), DigitChar(dt.year % 10), ' ', '(',
                DigitChar(dt.hour / 10), DigitChar(dt.hour % 10), ':',
                DigitChar(dt.minute / 10), DigitChar(dt.minute % 10), ')']
  {
    DecimalOfFourDigits(dt.year);
    Pad2Digits(dt.day);
    Pad2Digits(dt.month);
    Pad2Digits(dt.hour);
    Pad2Digits(dt.minute);
    DisplayLayout(Pad2(dt.day), Pad2(dt.month), Decimal(dt.year), Pad2(dt.hour), Pad2(dt.minute));
  }

  /** The layout `DD/MM/YYYY (HH:MM)` with two-character and four-character
      parts, character by character. */
  lemma DisplayLayout(dd: string, mm: string, yy: string, hh: string, mi: string)
    requires |dd| == 2 && |mm| == 2 && |yy| == 4 && |hh| == 2 && |mi| == 2
    ensures dd + "/" + mm + "/" + yy + " (" + hh + ":" + mi + ")"
            == [dd[0], dd[1], '/', mm[0], mm[1], '/', yy[0], yy[1], yy[2], yy[3], ' ', '(',
                hh[0], hh[1], ':', mi[0], mi[1], ')']
  {
  }
}
