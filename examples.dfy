/** The formatter on concrete stamps: the two samples that accompany it in
    test_dates.py, and stamps whose fields fail the calendar check. */
module InOutDateExamples {
  import opened Calendar
  import opened InOutDate

  /** A thirteenth month is rejected. */
  lemma MonthThirteenRejected(now: DateTime)
    ensures FormatInOutDate("202513010000", now) == Error("202513010000", Neutral, MonthOutOfRange)
  {
    StampFields("202513010000");
  }

  /** A 32nd day is rejected. */
  lemma DayThirtyTwoRejected(now: DateTime)
    ensures FormatInOutDate("202501320000", now) == Error("202501320000", Neutral, DayOutOfRange)
  {
    StampFields("202501320000");
  }

  /** 30 February is rejected. */
  lemma FebruaryThirtiethRejected(now: DateTime)
    ensures FormatInOutDate("202502300000", now) == Error("202502300000", Neutral, DayOutOfRange)
  {
    StampFields("202502300000");
  }

  /** Hour 24 is rejected. */
  lemma HourTwentyFourRejected(now: DateTime)
    ensures FormatInOutDate("202501012400", now) == Error("202501012400", Neutral, HourOutOfRange)
  {
    StampFields("202501012400");
  }

  /** Minute 60 is rejected. */
  lemma MinuteSixtyRejected(now: DateTime)
    ensures FormatInOutDate("202501010060", now) == Error("202501010060", Neutral, MinuteOutOfRange)
  {
    StampFields("202501010060");
  }

  /** Year 0 is rejected. */
  lemma YearZeroRejected(now: DateTime)
    ensures FormatInOutDate("000001010000", now) == Error("000001010000", Neutral, YearOutOfRange)
  {
    StampFields("000001010000");
  }

  /** 29 February of a century year not divisible by 400 is rejected. */
  lemma CenturyLeapDayRejected(now: DateTime)
    ensures FormatInOutDate("210002290000", now) == Error("210002290000", Neutral, DayOutOfRange)
  {
    StampFields("210002290000");
    assert DaysInMonth(2100, 2) == 28;
  }

  /** 29 February of a leap year is accepted. */
  lemma LeapDayAccepted(now: DateTime)
    ensures FormatInOutDate("202402290000", now).Formatted?
  {
    StampFields("202402290000");
  }

  lemma FirstSampleFields()
    ensures Fields("202509110000") == DateTime(2025, 9, 11, 0, 0, 0, 0)
  {
    StampFields("202509110000");
  }

  lemma SecondSampleFields()
    ensures Fields("212112310000") == DateTime(2121, 12, 31, 0, 0, 0, 0)
  {
    StampFields("212112310000");
  }

  lemma FirstSampleText()
    ensures DisplayText(DateTime(2025, 9, 11, 0, 0, 0, 0)) == "11/09/2025 (00:00)"
  {
    DisplayTextChars(DateTime(2025, 9, 11, 0, 0, 0, 0));
  }

  lemma SecondSampleText()
    ensures DisplayText(DateTime(2121, 12, 31, 0, 0, 0, 0)) == "31/12/2121 (00:00)"
  {
    DisplayTextChars(DateTime(2121, 12, 31, 0, 0, 0, 0));
  }

  /** The first sample stamp, with any now after 11 September 2025, 00:00
      (such as 1 January 2026): it has passed. */
  lemma FirstSampleStamp(now: DateTime)
    requires Before(DateTime(2025, 9, 11, 0, 0, 0, 0), now)
    ensures FormatInOutDate("202509110000", now) == Formatted("11/09/2025 (00:00)", PastColour, Past)
  {
    FirstSampleFields();
    FirstSampleText();
  }

  /** The second sample stamp, with any now up to 31 December 2121, 00:00
      (such as 1 January 2026): it is still to come. */
  lemma SecondSampleStamp(now: DateTime)
    requires !Before(DateTime(2121, 12, 31, 0, 0, 0, 0), now)
    ensures FormatInOutDate("212112310000", now) == Formatted("31/12/2121 (00:00)", FutureColour, Future)
  {
    SecondSampleFields();
    SecondSampleText();
  }
}
