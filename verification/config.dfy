/** The calendar configuration: holidays, holiday weekdays and intraday
    time borders.  The source keeps these in three process-wide locks; here
    they form one immutable record that every query takes as an argument,
    and each setter returns a new record. */
module Config {

  datatype Option<T> = None | Some(value: T)

  /** Days of the week, Monday first. */
  datatype Weekday = Mon | Tue | Wed | Thu | Fri | Sat | Sun

  /** Seconds in one calendar day; a time of day lies in [0, DaySeconds). */
  const DaySeconds: int := 86400

  /** Position of a weekday counted from Monday. */
  function WeekdayIndex(w: Weekday): (i: int)
    ensures 0 <= i < 7
  {
    match w
    case Mon => 0 case Tue => 1 case Wed => 2 case Thu => 3
    case Fri => 4 case Sat => 5 case Sun => 6
  }

  function WeekdayFromIndex(i: int): (w: Weekday)
    requires 0 <= i < 7
    ensures WeekdayIndex(w) == i
  {
    if i == 0 then Mon else if i == 1 then Tue else if i == 2 then Wed
    else if i == 3 then Thu else if i == 4 then Fri else if i == 5 then Sat
    else Sun
  }

  /** Dates are day numbers; day 0 is 1970-01-01, a Thursday. */
  function WeekdayOf(d: int): (w: Weekday)
    ensures WeekdayIndex(w) == (d + 3) % 7
  {
    WeekdayFromIndex((d + 3) % 7)
  }

  /** The day number of a proleptic Gregorian date (days-from-civil). */
  function DaysFromCivil(y: int, m: int, d: int): int
    requires 1 <= m <= 12 && 1 <= d <= 31
  {
    var y' := if m <= 2 then y - 1 else y;
    var era := y' / 400;
    var yoe := y' % 400;
    var doy := (153 * (if m > 2 then m - 3 else m + 9) + 2) / 5 + d - 1;
    var doe := yoe * 365 + yoe / 4 - yoe / 100 + doy;
    era * 146097 + doe - 719468
  }

  /** One intraday business window [start, end), times in seconds of day. */
  datatype TimeBorder = TimeBorder(start: int, end: int)

  datatype Config = Config(
    holidays: seq<int>,
    holidayWeekdays: set<Weekday>,
    borders: seq<TimeBorder>)

  /** The border list the intraday engine depends on: non-empty, every
      window a proper interval inside one day, stored in ascending order and
      separated by a gap (a window ending where the next starts would make
      the forward roll land inside the next window). */
  predicate ValidBorders(bs: seq<TimeBorder>) {
    |bs| > 0 && OrderedBorders(bs)
  }

  /** Every window proper and inside one day, windows ascending and apart;
      unlike ValidBorders this also holds of the empty list, so it passes
      to every suffix. */
  predicate OrderedBorders(bs: seq<TimeBorder>) {
    && ProperBorders(bs)
    && (forall i, j :: 0 <= i < j < |bs| ==> bs[i].end < bs[j].start)
  }

  /** Every window a proper interval inside one day. */
  predicate ProperBorders(bs: seq<TimeBorder>) {
    forall i :: 0 <= i < |bs| ==> 0 <= bs[i].start < bs[i].end < DaySeconds
  }

  /** Every start and end is a time of day, as the source's time type
      guarantees. */
  predicate TimesOfDay(bs: seq<TimeBorder>) {
    forall i :: 0 <= i < |bs| ==> 0 <= bs[i].start < DaySeconds && 0 <= bs[i].end < DaySeconds
  }

  /** Some weekday is not a holiday weekday, so working days keep coming. */
  predicate HasWorkingWeekday(c: Config) {
    exists w: Weekday :: w !in c.holidayWeekdays
  }

  predicate StrictlyAscending(s: seq<int>) {
    forall i, j :: 0 <= i < j < |s| ==> s[i] < s[j]
  }

  const DefaultHolidayWeekdays: set<Weekday> := {Sat, Sun}

  /** 09:00-11:30 and 12:30-15:00, in that order. */
  const DefaultBorders: seq<TimeBorder> :=
    [TimeBorder(9 * 3600, 11 * 3600 + 1800), TimeBorder(12 * 3600 + 1800, 15 * 3600)]

  /** The start-up configuration, given the holidays read at start-up. */
  function DefaultConfig(holidays: seq<int>): (c: Config)
    ensures c.holidays == holidays
    ensures forall w :: w in c.holidayWeekdays <==> w == Sat || w == Sun
    ensures |c.borders| == 2
    ensures c.borders[0] == TimeBorder(32400, 41400)
    ensures c.borders[1] == TimeBorder(45000, 54000)
    ensures ValidBorders(c.borders) && HasWorkingWeekday(c)
  {
    var c := Config(holidays, DefaultHolidayWeekdays, DefaultBorders);
    assert Mon !in c.holidayWeekdays;
    c
  }

  /** The elements of v satisfying keep, in input order. */
  function Filter(v: seq<int>, keep: int -> bool): (r: seq<int>)
    ensures forall x :: x in r <==> x in v && keep(x)
    ensures forall x :: multiset(r)[x] == if keep(x) then multiset(v)[x] else 0
    ensures |r| <= |v|
    ensures StrictlyAscending(v) ==> StrictlyAscending(r)
  {
    if |v| == 0 then []
    else
      var rest := Filter(v[1..], keep);
      var r := if keep(v[0]) then [v[0]] + rest else rest;
      FilterConsCount(v, keep, rest);
      FilterConsAscending(v, rest);
      r
  }

  /** Counting step of the filter: v[0] is counted exactly when kept. */
  lemma FilterConsCount(v: seq<int>, keep: int -> bool, rest: seq<int>)
    requires |v| > 0
    requires forall x :: multiset(rest)[x] == if keep(x) then multiset(v[1..])[x] else 0
    ensures var r := if keep(v[0]) then [v[0]] + rest else rest;
      forall x :: multiset(r)[x] == if keep(x) then multiset(v)[x] else 0
  {
    assert v == [v[0]] + v[1..];
    assert multiset(v) == multiset([v[0]]) + multiset(v[1..]);
  }

  /** Order step of the filter: a kept head of an ascending list stays
      below everything kept after it. */
  lemma FilterConsAscending(v: seq<int>, rest: seq<int>)
    requires |v| > 0
    requires forall x :: x in rest ==> x in v[1..]
    requires StrictlyAscending(v[1..]) ==> StrictlyAscending(rest)
    ensures StrictlyAscending(v) ==> StrictlyAscending([v[0]] + rest) && StrictlyAscending(rest)
  {
    if StrictlyAscending(v) {
      assert StrictlyAscending(v[1..]) by {
        forall i, j | 0 <= i < j < |v[1..]| ensures v[1..][i] < v[1..][j] {
          assert v[1..][i] == v[i + 1] && v[1..][j] == v[j + 1];
        }
      }
      var r := [v[0]] + rest;
      forall i, j | 0 <= i < j < |r| ensures r[i] < r[j] {
        assert r[j] == rest[j - 1] && r[j] in rest;
        var k :| 0 <= k < |v[1..]| && v[1..][k] == r[j];
        assert v[k + 1] == r[j];
        if i > 0 {
          assert r[i] == rest[i - 1];
        }
      }
    }
  }

  /** The filter keeps order: filtering a concatenation filters each part.
      With FilterSingle and the multiset clause of Filter this fixes the
      result as the kept elements of v, each as often as in v, in the order
      of v. */
  lemma {:induction false} FilterAppend(a: seq<int>, b: seq<int>, keep: int -> bool)
    ensures Filter(a + b, keep) == Filter(a, keep) + Filter(b, keep)
  {
    if |a| == 0 {
      assert a + b == b;
    } else {
      var ab := a + b;
      assert ab[0] == a[0] && ab[1..] == a[1..] + b;
      FilterAppend(a[1..], b, keep);
      var fa := Filter(a[1..], keep);
      var fb := Filter(b, keep);
      if keep(a[0]) {
        assert Filter(ab, keep) == [a[0]] + (fa + fb);
        assert Filter(a, keep) == [a[0]] + fa;
        ConsAppend(a[0], fa, fb);
      } else {
        assert Filter(ab, keep) == fa + fb;
        assert Filter(a, keep) == fa;
      }
    }
  }

  lemma ConsAppend(x: int, p: seq<int>, q: seq<int>)
    ensures [x] + (p + q) == ([x] + p) + q
  {
  }

  /** A single element is kept or dropped as keep says. */
  lemma FilterSingle(x: int, keep: int -> bool)
    ensures Filter([x], keep) == if keep(x) then [x] else []
  {
  }

  /** Membership of the year range [lo, hi). */
  function InRange(lo: int, hi: int): int -> bool {
    x => lo <= x < hi
  }

  /** The day numbers from January 1 of startYear up to, but excluding,
      December 31 of endYear, as the range filter bounds them. */
  function YearRange(startYear: int, endYear: int): int -> bool {
    InRange(DaysFromCivil(startYear, 1, 1), DaysFromCivil(endYear, 12, 31))
  }

  /** Replaces the holidays with those of v from January 1 of startYear up
      to, but excluding, December 31 of endYear, keeping input order and
      repetitions. */
  function SetRangeHolidays(c: Config, v: seq<int>, startYear: int, endYear: int): (r: Config)
    ensures forall x :: x in r.holidays <==>
      x in v && DaysFromCivil(startYear, 1, 1) <= x < DaysFromCivil(endYear, 12, 31)
    ensures forall x :: multiset(r.holidays)[x] ==
                        if DaysFromCivil(startYear, 1, 1) <= x < DaysFromCivil(endYear, 12, 31) then multiset(v)[x] else 0
    ensures StrictlyAscending(v) ==> StrictlyAscending(r.holidays)
    ensures r.holidayWeekdays == c.holidayWeekdays && r.borders == c.borders
  {
    c.(holidays := Filter(v, YearRange(startYear, endYear)))
  }

  /** The range filter keeps input order: the holidays set from a
      concatenation are those set from each part, concatenated. */
  lemma SetRangeHolidaysOrder(c: Config, a: seq<int>, b: seq<int>, startYear: int, endYear: int)
    ensures SetRangeHolidays(c, a + b, startYear, endYear).holidays
      == SetRangeHolidays(c, a, startYear, endYear).holidays + SetRangeHolidays(c, b, startYear, endYear).holidays
  {
    FilterAppend(a, b, YearRange(startYear, endYear));
  }

  /** A single holiday is kept exactly when it lies in the year range. */
  lemma SetRangeHolidaysSingle(c: Config, x: int, startYear: int, endYear: int)
    ensures SetRangeHolidays(c, [x], startYear, endYear).holidays ==
            if DaysFromCivil(startYear, 1, 1) <= x < DaysFromCivil(endYear, 12, 31) then [x] else []
  {
  }

  /** Replaces the holiday weekdays with exactly the given set. */
  function SetOneHolidayWeekdaySet(c: Config, ws: set<Weekday>): (r: Config)
    ensures forall w :: w in r.holidayWeekdays <==> w in ws
    ensures r.holidays == c.holidays && r.borders == c.borders
  {
    c.(holidayWeekdays := ws)
  }

  /** Replaces the border list with the input as given: no sorting and no
      validation, so a list the engine cannot use is accepted here. */
  function SetIntradayBorders(c: Config, bs: seq<TimeBorder>): (r: Config)
    ensures |r.borders| == |bs| && forall i :: 0 <= i < |bs| ==> r.borders[i] == bs[i]
    ensures r.holidays == c.holidays && r.holidayWeekdays == c.holidayWeekdays
  {
    c.(borders := bs)
  }

  /** The year bounds the filter uses, for the years of the test data. */
  lemma YearBoundsExample()
    ensures DaysFromCivil(2021, 1, 1) == 18628
    ensures DaysFromCivil(2021, 12, 31) == 18992
    ensures WeekdayOf(18628) == Fri
  {
  }
}
