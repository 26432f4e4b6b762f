/** The documented examples and the fixed expectations of the repository's
    tests, worked out under the default weekend and windows with the 2021
    holiday list of the tests.  Day numbers: 2020-12-31 is 18627, 2021-01-01
    is 18628, 2021-01-04 is 18631 and 2021-01-12 is 18639. */
module Examples {
  import opened Config
  import opened Workdays
  import opened Clock
  import opened Borders
  import opened Span
  import opened Shift
  import opened Subtract

  /** The 2021 holidays of the tests, as day numbers, ascending. */
  const Holidays2021: seq<int> :=
    [18628, 18638, 18669, 18681, 18706, 18746, 18750, 18751, 18752,
     18830, 18831, 18847, 18848, 18890, 18893, 18934, 18954]

  function Japan(): (c: Config)
    ensures c.holidays == Holidays2021 && c.borders == DefaultBorders
    ensures ValidBorders(c.borders) && HasWorkingWeekday(c)
  {
    DefaultConfig(Holidays2021)
  }

  /** Only 2021-01-01 and 2021-01-11 are listed up to 2021-01-12. */
  lemma EarlyListed(d: int)
    requires 18627 <= d <= 18639
    ensures d in Holidays2021 <==> d == 18628 || d == 18638
  {
    assert Holidays2021 == [18628, 18638] + Holidays2021[2..];
    assert forall i :: 0 <= i < |Holidays2021[2..]| ==> Holidays2021[2..][i] > 18639;
  }

  /** A weekday of the default calendar is a working weekday iff it is
      Monday to Friday. */
  lemma WorkingWeekday(d: int)
    ensures WeekdayOf(d) !in Japan().holidayWeekdays <==> (d + 3) % 7 < 5
  {
  }

  /** The working days from 2020-12-31 to 2021-01-12: the Thursday, the
      week of 2021-01-04 and 2021-01-12. */
  lemma EarlyJanuary(d: int)
    requires 18627 <= d <= 18639
    ensures IsWorkday(Japan(), d) <==> d == 18627 || 18631 <= d <= 18635 || d == 18639
  {
    EarlyListed(d);
    WorkingWeekday(d);
  }

  /** All the working-day facts of the examples. */
  lemma EarlyJanuaryAll()
    ensures forall d :: 18627 <= d <= 18639 ==>
      (IsWorkday(Japan(), d) <==> d == 18627 || 18631 <= d <= 18635 || d == 18639)
  {
    forall d | 18627 <= d <= 18639
      ensures IsWorkday(Japan(), d) <==> d == 18627 || 18631 <= d <= 18635 || d == 18639
    {
      EarlyJanuary(d);
    }
  }

  /** get_next_workday(2021-01-01, 6) is 2021-01-12. */
  lemma NextWorkdayExample()
    ensures NthNextWorkday(Japan(), 18628, 6) == 18639
  {
    var c := Japan();
    EarlyJanuaryAll();
    assert CountWorkdays(c, 18629, 18633) == 3;
    assert CountWorkdays(c, 18629, 18636) == 5;
    assert CountWorkdays(c, 18629, 18639) == 6;
    NthNextWorkdayUnique(c, 18628, 6, 18639);
  }

  /** get_previous_workday(2021-01-12, 6) is 2020-12-31. */
  lemma PreviousWorkdayExample()
    ensures NthPreviousWorkday(Japan(), 18639, 6) == 18627
  {
    var c := Japan();
    EarlyJanuaryAll();
    assert CountWorkdays(c, 18627, 18630) == 1;
    assert CountWorkdays(c, 18627, 18633) == 4;
    assert CountWorkdays(c, 18627, 18636) == 6;
    assert CountWorkdays(c, 18627, 18638) == 6;
    NthPreviousWorkdayUnique(c, 18639, 6, 18627);
  }

  /** The first working day after 2021-01-01 is 2021-01-04, and the last
      one before it is 2020-12-31. */
  lemma AroundNewYear()
    ensures NthNextWorkday(Japan(), 18628, 1) == 18631
    ensures NthPreviousWorkday(Japan(), 18628, 1) == 18627
  {
    var c := Japan();
    EarlyJanuaryAll();
    assert CountWorkdays(c, 18629, 18631) == 1;
    NthNextWorkdayUnique(c, 18628, 1, 18631);
    assert CountWorkdays(c, 18627, 18627) == 1;
    NthPreviousWorkdayUnique(c, 18628, 1, 18627);
  }

  /** check_workday_intraday: 2021-01-04 10:00 is business time;
      2021-01-01 10:00 (a holiday) and 2021-01-04 00:00 are not. */
  lemma CheckIntradayExample()
    ensures CheckWorkdayIntraday(Japan(), At(18631, 36000))
    ensures !CheckWorkdayIntraday(Japan(), At(18628, 36000))
    ensures !CheckWorkdayIntraday(Japan(), At(18631, 0))
  {
    var bs := DefaultBorders;
    EarlyJanuary(18631);
    EarlyJanuary(18628);
    AtParts(18631, 36000);
    AtParts(18628, 36000);
    AtParts(18631, 0);
    assert InBorder(bs[0], 36000);
    assert !InBorder(bs[0], 0) && !InBorder(bs[1], 0);
  }

  /** get_next_border_workday_intraday from 2021-01-01 00:00 is the
      2021-01-04 09:00 start. */
  lemma NextBorderFromHoliday()
    ensures NextBorder(Japan(), At(18628, 0)) == Border(At(18631, 32400), BorderStart)
  {
    EarlyJanuary(18628);
    AroundNewYear();
    AtParts(18628, 0);
  }

  /** From the 09:00 start of 2021-01-04 the next border is the 11:30 end. */
  lemma NextBorderFromStart()
    ensures NextBorder(Japan(), At(18631, 32400)) == Border(At(18631, 41400), BorderEnd)
  {
    var bs := DefaultBorders;
    EarlyJanuary(18631);
    AtParts(18631, 32400);
    assert InBorder(bs[0], 32400);
  }

  /** From the 11:30 end of 2021-01-04 the next border is the 12:30 start. */
  lemma NextBorderFromEnd()
    ensures NextBorder(Japan(), At(18631, 41400)) == Border(At(18631, 45000), BorderStart)
  {
    var bs := DefaultBorders;
    EarlyJanuary(18631);
    AtParts(18631, 41400);
    assert !InBorder(bs[0], 41400) && !InBorder(bs[1], 41400);
    assert bs[1..][1..] == [];
  }

  /** get_previous_border_workday_intraday from 2021-01-01 10:00, forced,
      is the 2020-12-31 15:00 end. */
  lemma PreviousBorderFromHoliday()
    ensures PreviousBorder(Japan(), At(18628, 36000), true) == Border(At(18627, 54000), BorderEnd)
  {
    EarlyJanuary(18628);
    AroundNewYear();
    AtParts(18628, 36000);
    assert DefaultBorders[1..][1..] == [];
  }

  /** From the 12:30 start of 2020-12-31, forced, it is the 11:30 end. */
  lemma PreviousBorderFromStart()
    ensures PreviousBorder(Japan(), At(18627, 45000), true) == Border(At(18627, 41400), BorderEnd)
  {
    var bs := DefaultBorders;
    EarlyJanuary(18627);
    AtParts(18627, 45000);
    assert InBorder(bs[1], 45000);
    assert bs[1..][1..] == [];
  }

  /** Unforced, the 15:00 end of 2020-12-31 is its own previous border. */
  lemma PreviousBorderAtEnd()
    ensures PreviousBorder(Japan(), At(18627, 54000), false) == Border(At(18627, 54000), BorderEnd)
  {
    var bs := DefaultBorders;
    EarlyJanuary(18627);
    AtParts(18627, 54000);
    assert !InBorder(bs[0], 54000) && !InBorder(bs[1], 54000);
    assert bs[1..][1..] == [];
  }

  /** Forced, the 15:00 end of 2020-12-31 steps back to the 12:30 start. */
  lemma PreviousBorderAtEndForced()
    ensures PreviousBorder(Japan(), At(18627, 54000), true) == Border(At(18627, 45000), BorderStart)
  {
    var bs := DefaultBorders;
    EarlyJanuary(18627);
    AtParts(18627, 54000);
    assert !InBorder(bs[0], 54000) && !InBorder(bs[1], 54000);
    assert bs[1..][1..] == [];
  }

  /** get_near_workday_intraday from 2021-01-01 10:00: the 2021-01-04
      09:00 start after it, the 2020-12-31 15:00 end before it. */
  lemma NearBorderExample()
    ensures NearBorder(Japan(), At(18628, 36000), true) == Border(At(18631, 32400), BorderStart)
    ensures NearBorder(Japan(), At(18628, 36000), false) == Border(At(18627, 54000), BorderEnd)
  {
    var bs := DefaultBorders;
    EarlyJanuary(18628);
    AroundNewYear();
    AtParts(18628, 36000);
    assert bs[1..][1..] == [];
  }

  /** With the holidays listed out of order, [2021-01-05, 2021-01-04], the
      next border after Sunday 2021-01-03 00:00 is the 09:00 start of
      Wednesday 2021-01-06, the first working day after it. */
  lemma UnsortedHolidaysNextBorder()
    ensures NextBorder(DefaultConfig([18632, 18631]), At(18630, 0)) == Border(At(18633, 32400), BorderStart)
  {
    var c := DefaultConfig([18632, 18631]);
    assert !IsWorkday(c, 18630) && !IsWorkday(c, 18631) && !IsWorkday(c, 18632);
    assert WeekdayIndex(WeekdayOf(18633)) == 2;
    assert IsWorkday(c, 18633);
    assert CountWorkdays(c, 18631, 18633) == 1;
    NthNextWorkdayUnique(c, 18630, 1, 18633);
    AtParts(18630, 0);
  }

  /** No working day from 2021-01-01 to 2021-01-03: the business clock
      stands still over the long weekend. */
  lemma NewYearCount()
    ensures CumDays(Japan(), 18631) == CumDays(Japan(), 18628)
    ensures CumDays(Japan(), 18628) == CumDays(Japan(), 18627) + 1
  {
    var c := Japan();
    EarlyJanuaryAll();
    CumDaysDiff(c, 18628, 18631);
    assert CountWorkdays(c, 18628, 18630) == 0;
    CumDaysNext(c, 18627);
  }

  /** add_workday_intraday_datetime(2021-01-01 00:00, 2 hours) is
      2021-01-04 11:00. */
  lemma AddExample()
    ensures Add(Japan(), At(18628, 0), 7200) == At(18631, 39600)
  {
    var c := Japan();
    var x, y := At(18628, 0), At(18631, 39600);
    EarlyJanuary(18628);
    EarlyJanuary(18631);
    NewYearCount();
    DefaultBefore();
    PrefixAt(c, 18628, 0);
    PrefixAt(c, 18631, 39600);
    AtParts(18631, 39600);
    assert InBorder(DefaultBorders[0], 39600);
    assert Business(c, x, y) == 7200;
    BusinessFromUnique(c, x, Add(c, x, 7200), y);
  }

  /** Business time of the default windows before 13:00. */
  lemma DefaultBeforeOne()
    ensures Before(DefaultBorders, 46800) == 10800
  {
    assert DefaultBorders[1..][1..] == [];
  }

  /** sub_workday_intraday_datetime(2021-01-01 00:00, 2 hours) is
      2020-12-31 13:00, as written and corrected alike. */
  lemma SubExample()
    ensures Sub(Japan(), At(18628, 0), 7200) == At(18627, 46800)
    ensures SubAsWritten(Japan(), At(18628, 0), 7200) == At(18627, 46800)
  {
    var c := Japan();
    var y, z := At(18628, 0), At(18627, 46800);
    EarlyJanuary(18628);
    EarlyJanuary(18627);
    NewYearCount();
    DefaultBefore();
    DefaultBeforeOne();
    PrefixAt(c, 18628, 0);
    PrefixAt(c, 18627, 46800);
    AtParts(18627, 46800);
    Distribute(CumDays(c, 18627), 1, SumWidths(c.borders));
    assert InBorder(DefaultBorders[1], 46800);
    assert Business(c, z, y) == 7200;
    BusinessToUnique(c, y, Sub(c, y, 7200), z);
    AtParts(18628, 0);
    SubAsWrittenFromDayStart(c, y, 7200);
  }

  /** get_timedelta_workdays_intraday from 2021-01-01 00:00 to 2021-01-04
      15:00 is five hours, as the source computes it and as the span
      does. */
  lemma ElapsedExample()
    ensures ElapsedAsWritten(Japan(), At(18628, 0), At(18631, 54000)) == 18000
    ensures Elapsed(Japan(), At(18628, 0), At(18631, 54000)) == 18000
  {
    var c := Japan();
    var s, e := At(18628, 0), At(18631, 54000);
    EarlyJanuary(18628);
    EarlyJanuary(18631);
    NewYearCount();
    DefaultBeforeAfternoon();
    PrefixAt(c, 18628, 0);
    PrefixAt(c, 18631, 54000);
    AtParts(18628, 0);
    AtParts(18631, 54000);
    ElapsedAcrossDays(c, s, e);
  }
}
