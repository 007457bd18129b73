# INDATE/OUTDATE formatter

This project models `format_in_out_date` from `test_dates.py` (lines 5-31). The
function formats the INDATE and OUTDATE stamps of a broadcast platform's schedule
profiles for the support dashboard. It
takes a `YYYYMMDDHHmm` stamp and returns one of three results:

- the stamp unchanged in grey (`#808080`), when it is shorter than 8 characters;
- the display text `DD/MM/YYYY (HH:MM)` with a colour and a status: red
  (`#E57373`) and `PAST` when the date-time is earlier than now, green
  (`#81C784`) and `FUTURE` otherwise;
- the stamp unchanged in grey with an `ERROR` status, when the fields it holds
  do not form a date-time.

The model has three modules plus one module of worked examples:

- `AsciiDecimal` (`ascii_decimal.dfy`) models what the formatter needs from
  Python's text handling: `str.isdigit`, `int(...)` on a digit string, `{n}`
  and `{n:02d}`.
- `Calendar` (`calendar.dfy`) models the part of the naive
  `datetime.datetime` type the formatter uses:
  - the range checks its constructor performs, in the order it performs them
    (proleptic Gregorian calendar, years 1 to 9999);
  - the `<` comparison, which is lexicographic on the seven fields. It is
    proved equal to comparing a mixed-radix key, which also gives a strict
    total order.
- `InOutDate` (`in_out_date.dfy`) models the formatter itself:
  - field extraction from fixed positions, with the defaults 2025, 1, 1, 0, 0;
  - the three outcomes;
  - a reader for the display text (`ParseDisplay`), used to state that the
    text loses no field;
  - a writer for stamps (`Stamp`), used to state that the fields of a stamp
    are read back exactly.
- `InOutDateExamples` (`examples.dfy`) works through concrete stamps:
  - the two sample stamps listed in `test_dates.py`;
  - stamps that fail each calendar check;
  - a leap day.

The current time is the parameter `now` because it is read from the clock.
`now` is a full seven-field date-time: `datetime.now()` has seconds and
microseconds, but a parsed stamp always has 0 seconds.

The display text writes each field with its own width:

- day, month, hour and minute as `{n:02d}`, zero-filled to two digits;
- the year as plain `{year}`, without padding.

So the display text is 18 characters long only for years from 1000 on, and
shorter below that (`01/01/5 (00:00)` for the year 5).

## Model

| member | source | states |
|---|---|---|
| `InOutDate.FormatInOutDate` | test_dates.py:5-31 | Input shorter than 8 characters comes back unchanged in grey. Longer input comes back unchanged in grey with an error exactly when its fields are not a valid date-time. Otherwise it is formatted: the text is `DisplayText` of the fields, PAST (red) exactly when the fields are strictly before `now`, FUTURE (green) otherwise. An error names the field the constructor's check rejects first. |
| `InOutDate.Slice` | test_dates.py:11-15 | Python's `s[lo:hi]`: the plain slice when `hi` is within the string, and never longer than `hi - lo`. |
| `InOutDate.Fields` | test_dates.py:11-15 | Reads the five fields from fixed positions with their defaults. Its contract is stated by `FieldPositions`, `FieldBounds`, `TrailingCharactersIgnored`, `StampFields` and `StampRoundTrip`. |
| `InOutDate.DisplayText` | test_dates.py:20 | The f-string `DD/MM/YYYY (HH:MM)`. Its contract is stated by `DisplayRoundTrip`, `DisplayLength` and `DisplayTextChars`. |
| `Calendar.ValidDateTime` | test_dates.py:17 | The field values the constructor accepts. `CheckFields` accepts exactly these. |
| `Calendar.Before` | test_dates.py:22 | `<` on naive date-times. Its contract is stated by `BeforeIsLexicographic`, `BeforeIsKeyOrder` and `BeforeIsStrictTotalOrder`. |
| `AsciiDecimal.IsNumeral` | test_dates.py:11-15 | `str.isdigit` for ASCII: non-empty and all digits. `DecimalRoundTrip` and `Pad2RoundTrip` show that the renderings satisfy it. |
| `AsciiDecimal.Value` | test_dates.py:11-15 | `int(...)` of a digit string, leading zeros allowed. Its contract is stated by `ValueBound`, `ValueOfTwo` and `ValueOfFour`, and by the round trips through `Decimal`, `Pad2` and `Fixed`. |
| `AsciiDecimal.Decimal` | test_dates.py:20 | `{n}`. Its contract is stated by `DecimalRoundTrip`, `DecimalLength` and `DecimalOfFourDigits`. |
| `AsciiDecimal.Pad2` | test_dates.py:20 | `{n:02d}`. Its contract is stated by `Pad2RoundTrip` and `Pad2Digits`. |
| `AsciiDecimal.ValueOfTwo` | test_dates.py:12-15 | The value of a two-digit string, digit by digit. |
| `AsciiDecimal.ValueOfFour` | test_dates.py:11 | The value of a four-digit string, digit by digit. |
| `AsciiDecimal.DecimalOfFourDigits` | test_dates.py:20 | `{n}` of a four-digit number, digit by digit. |
| `AsciiDecimal.Pad2Digits` | test_dates.py:20 | `{n:02d}` of a number below 100, digit by digit. |
| `InOutDate.FieldPositions` | test_dates.py:11-15 | Year, month and day come from characters 0-3, 4-5 and 6-7 when those are digits, otherwise 2025, 1 and 1. Hour comes from characters 8-9 only when the input has at least 10 characters, and minute from 10-11 only when it has at least 12; otherwise each is 0. Seconds and microseconds are 0. |
| `InOutDate.FieldBounds` | test_dates.py:11-15 | Every field read from a stamp is non-negative: the year is at most 9999, and month, day, hour and minute are at most 99. So the calendar check can fail only on a field that is too large or on a zero year, month or day. |
| `InOutDate.TrailingCharactersIgnored` | test_dates.py:11-15 | Characters after the twelfth change nothing: the fields, the formatted result, and any rejected field are those of the first twelve characters. |
| `Calendar.CheckFields` | test_dates.py:17 | The constructor accepts exactly the valid date-times. Otherwise it names a field that is out of range, and every field it checks earlier is in range. |
| `Calendar.DaysInMonth` | test_dates.py:17 | Each month has 28 to 31 days. February has 29 exactly in leap years (divisible by 4, and centuries only when divisible by 400). April, June, September and November have 30 days, and the other seven months have 31. |
| `InOutDate.DisplayRoundTrip` | test_dates.py:20 | The text `DD/MM/YYYY (HH:MM)` reads back to the same year, month, day, hour and minute, so date-times that differ in year, month, day, hour or minute never share a display text (seconds and microseconds are not shown). |
| `InOutDate.DisplayLength` | test_dates.py:20 | The display text is 14 characters plus the digits of the year. It is 18 characters long exactly when the year has four digits, and never longer. |
| `InOutDate.FormattedShowsFields` | test_dates.py:17-29 | A formatted result comes from valid fields, and its text reads back to exactly those fields. Its length is 14 plus the digits of the unpadded year: at most 18, and exactly 18 when the year is at least 1000. |
| `InOutDate.ColourIsOneOfThree` | test_dates.py:7-31 | The colour is always grey, red or green. It is grey exactly when the input is handed back rather than formatted. |
| `InOutDate.PastIffEarlierThanNow` | test_dates.py:17-27 | PAST exactly when the stamp's key is smaller than now's key. When now is on the stamp's minute, the stamp is FUTURE exactly when now has no seconds and no microseconds. |
| `InOutDate.StampRoundTrip` | test_dates.py:11-27 | A valid date-time written as a `YYYYMMDDHHmm` stamp is read back exactly. Formatting that stamp gives the date-time's display text, with PAST when it is before `now` and FUTURE otherwise. |
| `InOutDate.StampFields` | test_dates.py:11-15 | The fields of a twelve-digit stamp, given digit by digit. |
| `InOutDate.DisplayTextChars` | test_dates.py:20 | The display text of a date-time with a four-digit year, given character by character. |
| `Calendar.BeforeIsLexicographic` | test_dates.py:22 | `<` on date-times is the lexicographic order of their seven fields. |
| `Calendar.BeforeIsKeyOrder` | test_dates.py:22 | On valid date-times, `<` holds exactly when the mixed-radix key is smaller, and equal keys mean equal date-times. |
| `Calendar.BeforeIsStrictTotalOrder` | test_dates.py:22 | On valid date-times, `<` is irreflexive, asymmetric, transitive and total. |
| `AsciiDecimal.ValueBound` | test_dates.py:11-15 | `int` of a `k`-digit string is below 10 to the power `k`. |
| `AsciiDecimal.DecimalRoundTrip` | test_dates.py:20 | `{n}` is a non-empty digit string that reads back as `n`, and it starts with `0` only for zero. |
| `AsciiDecimal.DecimalLength` | test_dates.py:20 | `{n}` has 1, 2, 3 or 4 digits exactly when `n` is below 10, 100, 1000 or 10000 respectively. |
| `AsciiDecimal.Pad2RoundTrip` | test_dates.py:20 | `{n:02d}` is a digit string that reads back as `n`. It is exactly two characters long exactly when `n` is below 100. |
| `AsciiDecimal.FixedRoundTrip` | test_dates.py:35-36 | A number below 10 to the power `w`, zero-filled to `w` digits, has length `w` and reads back as itself. |
| `InOutDateExamples.FirstSampleStamp` | test_dates.py:35 | `202509110000` becomes `11/09/2025 (00:00)`, red and PAST, whenever now is later than that minute. |
| `InOutDateExamples.SecondSampleStamp` | test_dates.py:36 | `212112310000` becomes `31/12/2121 (00:00)`, green and FUTURE, whenever now is not later than that minute. |
| `InOutDateExamples.LeapDayAccepted` | test_dates.py:17 | 29 February 2024 is formatted. |
| `InOutDateExamples.CenturyLeapDayRejected` | test_dates.py:17-31 | 29 February 2100 is handed back with the day rejected. |
| `InOutDateExamples.FebruaryThirtiethRejected` | test_dates.py:17-31 | 30 February is handed back with the day rejected. |
| `InOutDateExamples.MonthThirteenRejected` | test_dates.py:17-31 | Month 13 is handed back with the month rejected. |
| `InOutDateExamples.DayThirtyTwoRejected` | test_dates.py:17-31 | Day 32 is handed back with the day rejected. |
| `InOutDateExamples.HourTwentyFourRejected` | test_dates.py:17-31 | Hour 24 is handed back with the hour rejected. |
| `InOutDateExamples.MinuteSixtyRejected` | test_dates.py:17-31 | Minute 60 is handed back with the minute rejected. |
| `InOutDateExamples.YearZeroRejected` | test_dates.py:17-31 | Year 0 is handed back with the year rejected. |

## Left out

- `FormatInOutDate`: the `ERROR` status records which field the constructor
  rejected (`FieldError`), not the text of Python's exception message. That
  wording differs between Python versions.
- The system clock (`datetime.now()`) is not modelled; the current time is the
  parameter `now`, taken to be a valid date-time.
- A `None` input, which `not date_str` also sends back unchanged, is not
  modelled. The model's input is always a string.
- `FormatInOutDate`: only `0`-`9` are digits (`AsciiDecimal.IsDigit`), while
  `str.isdigit` also accepts other Unicode digits. The model treats such a
  character as a non-digit, so the field takes its default where Python
  behaves differently:
  - for `"²²²²0101"` Python's `int("²²²²")` raises and the source returns
    ERROR, but the model formats `01/01/2025 (00:00)`;
  - for Arabic-Indic `"٢٠٢٥٠٩١١"` Python reads 2025-09-11, but the model
    reads the defaults.
- The 2-tuple and 3-tuple return shapes are the three `Outcome` variants.
  `Past` and `Future` stand for the strings `PAST` and `FUTURE`, and the
  `Error` variant for the `ERROR: ...` status.
- The printing loop in `test_dates.py` (lines 39-47) is console output and is
  not modelled.
- `app.py` (the customtkinter window), `apply_changes.py` and `fix_date.py`
  (scripts that rewrite `app.py`) and `test_password.py` (a dialog demo) are
  user interface and file editing. They are not part of this model.
