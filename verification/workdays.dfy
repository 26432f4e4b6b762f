/** Day-level calendar: which dates are working days, the working days of a
    range, and the n-th working day before or after a date.  The functions
    here are the reference definitions; the cursor walks of the source are
    methods in module Walks, proved equal to them. */
module Workdays {
  import opened Config

  /** A date is a working day when it is not a listed holiday and its
      weekday is not a holiday weekday. */
  predicate IsWorkday(c: Config, d: int) {
    d !in c.holidays && WeekdayOf(d) !in c.holidayWeekdays
  }

  /** The holiday test as the source performs it: the holiday list is first
      collected into a set, then the date and its weekday are looked up. */
  method CheckWorkday(c: Config, d: int) returns (r: bool)
    ensures r <==> d !in c.holidays && WeekdayOf(d) !in c.holidayWeekdays
  {
    var holidaySet: set<int> := {};
    var i := 0;
    while i < |c.holidays|
      invariant 0 <= i <= |c.holidays|
      invariant forall x :: x in holidaySet <==> x in c.holidays[..i]
    {
      holidaySet := holidaySet + {c.holidays[i]};
      i := i + 1;
    }
    assert c.holidays[..i] == c.holidays;
    r := d !in holidaySet && WeekdayOf(d) !in c.holidayWeekdays;
  }

  /** The working days of [lo, hi] in ascending order. */
  function WorkdaysIn(c: Config, lo: int, hi: int): (r: seq<int>)
    ensures forall x :: x in r <==> lo <= x <= hi && IsWorkday(c, x)
    ensures StrictlyAscending(r)
    ensures forall i :: 0 <= i < |r| ==> lo <= r[i] <= hi
    decreases hi - lo
  {
    if hi < lo then []
    else
      var init := WorkdaysIn(c, lo, hi - 1);
      init + (if IsWorkday(c, hi) then [hi] else [])
  }

  /** Number of working days in [lo, hi]. */
  function CountWorkdays(c: Config, lo: int, hi: int): nat
    decreases hi - lo
  {
    if hi < lo then 0 else CountWorkdays(c, lo, hi - 1) + (if IsWorkday(c, hi) then 1 else 0)
  }

  /** The count is the length of the list. */
  lemma {:induction false} CountIsLength(c: Config, lo: int, hi: int)
    ensures CountWorkdays(c, lo, hi) == |WorkdaysIn(c, lo, hi)|
    decreases hi - lo
  {
    if lo <= hi {
      CountIsLength(c, lo, hi - 1);
    }
  }

  /** Peeling the lowest day off a non-empty range. */
  lemma {:induction false} WorkdaysInLow(c: Config, lo: int, hi: int)
    requires lo <= hi
    ensures WorkdaysIn(c, lo, hi) == (if IsWorkday(c, lo) then [lo] else []) + WorkdaysIn(c, lo + 1, hi)
    decreases hi - lo
  {
    if lo < hi {
      WorkdaysInLow(c, lo, hi - 1);
    }
  }

  /** A range splits at any interior point into two consecutive ranges. */
  lemma {:induction false} WorkdaysInSplit(c: Config, lo: int, m: int, hi: int)
    requires lo <= m <= hi + 1
    ensures WorkdaysIn(c, lo, hi) == WorkdaysIn(c, lo, m - 1) + WorkdaysIn(c, m, hi)
    decreases hi - lo
  {
    if m <= hi {
      WorkdaysInSplit(c, lo, m, hi - 1);
    }
  }

  lemma {:induction false} CountSplit(c: Config, lo: int, m: int, hi: int)
    requires lo <= m <= hi + 1
    ensures CountWorkdays(c, lo, hi) == CountWorkdays(c, lo, m - 1) + CountWorkdays(c, m, hi)
    decreases hi - lo
  {
    if m <= hi {
      CountSplit(c, lo, m, hi - 1);
    }
  }

  /** Peeling the lowest day off a non-empty range, for the count. */
  lemma CountLow(c: Config, lo: int, hi: int)
    requires lo <= hi
    ensures CountWorkdays(c, lo, hi) == (if IsWorkday(c, lo) then 1 else 0) + CountWorkdays(c, lo + 1, hi)
  {
    CountSplit(c, lo, lo + 1, hi);
    assert CountWorkdays(c, lo, lo - 1) == 0;
  }

  lemma {:induction false} NoWorkdaysCount(c: Config, lo: int, hi: int)
    requires forall x :: lo <= x <= hi ==> !IsWorkday(c, x)
    ensures WorkdaysIn(c, lo, hi) == [] && CountWorkdays(c, lo, hi) == 0
    decreases hi - lo
  {
    if lo <= hi {
      NoWorkdaysCount(c, lo, hi - 1);
    }
  }

  /** Counts over adjacent ranges add up. */
  lemma CountChain(c: Config, lo: int, m: int, hi: int, a: nat, b: nat)
    requires lo <= m <= hi
    requires CountWorkdays(c, lo, m) == a && CountWorkdays(c, m + 1, hi) == b
    ensures CountWorkdays(c, lo, hi) == a + b
  {
    CountSplit(c, lo, m + 1, hi);
  }

  /** Exactly one working day lies between e and the first working day
      from e. */
  lemma FirstWorkdayCount(c: Config, e: int)
    requires HasWorkingWeekday(c)
    ensures CountWorkdays(c, e, FirstWorkdayFrom(c, e)) == 1
  {
    var f := FirstWorkdayFrom(c, e);
    NoWorkdaysCount(c, e, f - 1);
  }

  lemma LastWorkdayCount(c: Config, e: int)
    requires HasWorkingWeekday(c)
    ensures CountWorkdays(c, LastWorkdayUpTo(c, e), e) == 1
  {
    var f := LastWorkdayUpTo(c, e);
    NoWorkdaysCount(c, f + 1, e);
    CountLow(c, f, e);
  }

  /** A later working day is preceded by strictly more working days. */
  lemma CountGrows(c: Config, lo: int, x: int, y: int)
    requires lo <= x + 1 && x < y && IsWorkday(c, y)
    ensures CountWorkdays(c, lo, y) > CountWorkdays(c, lo, x)
  {
    CountSplit(c, lo, x + 1, y);
  }

  /** How get_workdays trims the ends of a range. */
  datatype Closed =
    | Left   // the end date is dropped
    | Right  // the start date is dropped
    | Not    // both ends are dropped
    | Both   // both ends are kept

  function DropLast(ws: seq<int>, e: int): seq<int> {
    if |ws| > 0 && ws[|ws| - 1] == e then ws[..|ws| - 1] else ws
  }

  function DropFirst(ws: seq<int>, s: int): seq<int> {
    if |ws| > 0 && ws[0] == s then ws[1..] else ws
  }

  lemma DropLastWorkdays(c: Config, s: int, e: int)
    ensures DropLast(WorkdaysIn(c, s, e), e) == WorkdaysIn(c, s, e - 1)
  {
    if s <= e {
      var init := WorkdaysIn(c, s, e - 1);
      if !IsWorkday(c, e) && |init| > 0 {
        assert init[|init| - 1] <= e - 1;
      }
    }
  }

  lemma DropFirstWorkdays(c: Config, s: int, e: int)
    ensures DropFirst(WorkdaysIn(c, s, e), s) == WorkdaysIn(c, s + 1, e)
  {
    if s <= e {
      WorkdaysInLow(c, s, e);
      var rest := WorkdaysIn(c, s + 1, e);
      if !IsWorkday(c, s) && |rest| > 0 {
        assert rest[0] >= s + 1;
      }
    }
  }

  /** Working days from start to end, ends dropped as closed says.  The
      result is the ascending list of working days of the range that remains
      once a dropped end is cut off, so an empty range stays empty. */
  function GetWorkdays(c: Config, s: int, e: int, closed: Closed): (r: seq<int>)
    ensures r == WorkdaysIn(c, if closed.Right? || closed.Not? then s + 1 else s,
                               if closed.Left? || closed.Not? then e - 1 else e)
  {
    var all := WorkdaysIn(c, s, e);
    match closed
    case Left => DropLastWorkdays(c, s, e); DropLast(all, e)
    case Right => DropFirstWorkdays(c, s, e); DropFirst(all, s)
    case Both => all
    case Not =>
      DropLastWorkdays(c, s, e);
      DropFirstWorkdays(c, s, e - 1);
      DropFirst(DropLast(all, e), s)
  }

  /** get_workdays in words: the list is ascending and holds exactly the
      working days of [s, e] that closed does not drop. */
  lemma GetWorkdaysMembers(c: Config, s: int, e: int, closed: Closed)
    ensures StrictlyAscending(GetWorkdays(c, s, e, closed))
    ensures forall x :: x in GetWorkdays(c, s, e, closed) <==>
      && s <= x <= e && IsWorkday(c, x)
      && (x == e ==> closed.Right? || closed.Both?)
      && (x == s ==> closed.Left? || closed.Both?)
  {
  }

  /** Upper bound of a holiday list (0 when empty). */
  function MaxOf(s: seq<int>): (r: int)
    ensures forall x :: x in s ==> x <= r
  {
    if |s| == 0 then 0
    else
      var m := MaxOf(s[1..]);
      assert forall x :: x in s ==> x == s[0] || x in s[1..];
      if s[0] > m then s[0] else m
  }

  /** Lower bound of a holiday list (0 when empty). */
  function MinOf(s: seq<int>): (r: int)
    ensures forall x :: x in s ==> r <= x
  {
    if |s| == 0 then 0
    else
      var m := MinOf(s[1..]);
      assert forall x :: x in s ==> x == s[0] || x in s[1..];
      if s[0] < m then s[0] else m
  }

  /** A weekday that is never a holiday weekday. */
  ghost function FreeWeekday(c: Config): (w: Weekday)
    requires HasWorkingWeekday(c)
    ensures w !in c.holidayWeekdays
  {
    var w :| w !in c.holidayWeekdays; w
  }

  /** Termination measure of a forward walk at candidate day e: past the
      last holiday, a non-working day is at most six days from the next
      occurrence of the free weekday. */
  ghost function ForwardMeasure(c: Config, e: int): nat
    requires HasWorkingWeekday(c)
  {
    var h := MaxOf(c.holidays);
    7 * (if h + 1 - e > 0 then h + 1 - e else 0) + (WeekdayIndex(FreeWeekday(c)) - e - 3) % 7
  }

  ghost function BackwardMeasure(c: Config, e: int): nat
    requires HasWorkingWeekday(c)
  {
    var h := MinOf(c.holidays);
    7 * (if e + 1 - h > 0 then e + 1 - h else 0) + (e + 3 - WeekdayIndex(FreeWeekday(c))) % 7
  }

  lemma ModStep(a: int)
    requires a % 7 != 0
    ensures (a - 1) % 7 == a % 7 - 1
  {
  }

  lemma ForwardMeasureDecreases(c: Config, e: int)
    requires HasWorkingWeekday(c) && !IsWorkday(c, e)
    ensures ForwardMeasure(c, e + 1) < ForwardMeasure(c, e)
  {
    var h := MaxOf(c.holidays);
    var wi := WeekdayIndex(FreeWeekday(c));
    if e > h {
      assert e !in c.holidays;
      assert WeekdayOf(e) != FreeWeekday(c);
      assert (e + 3) % 7 != wi;
      assert (wi - e - 3) % 7 != 0;
      ModStep(wi - e - 3);
    }
  }

  lemma BackwardMeasureDecreases(c: Config, e: int)
    requires HasWorkingWeekday(c) && !IsWorkday(c, e)
    ensures BackwardMeasure(c, e - 1) < BackwardMeasure(c, e)
  {
    var h := MinOf(c.holidays);
    var wi := WeekdayIndex(FreeWeekday(c));
    if e < h {
      assert e !in c.holidays;
      assert WeekdayOf(e) != FreeWeekday(c);
      assert (e + 3) % 7 != wi;
      assert (e + 3 - wi) % 7 != 0;
      ModStep(e + 3 - wi);
    }
  }

  /** The first working day on or after e. */
  function FirstWorkdayFrom(c: Config, e: int): (r: int)
    requires HasWorkingWeekday(c)
    ensures r >= e && IsWorkday(c, r)
    ensures forall x :: e <= x < r ==> !IsWorkday(c, x)
    decreases ForwardMeasure(c, e)
  {
    if IsWorkday(c, e) then e
    else
      ForwardMeasureDecreases(c, e);
      FirstWorkdayFrom(c, e + 1)
  }

  /** The last working day on or before e. */
  function LastWorkdayUpTo(c: Config, e: int): (r: int)
    requires HasWorkingWeekday(c)
    ensures r <= e && IsWorkday(c, r)
    ensures forall x :: r < x <= e ==> !IsWorkday(c, x)
    decreases BackwardMeasure(c, e)
  {
    if IsWorkday(c, e) then e
    else
      BackwardMeasureDecreases(c, e);
      LastWorkdayUpTo(c, e - 1)
  }

  /** The n-th working day after d, d itself not counted: exactly n working
      days lie in (d, r] and r is one of them. */
  function NthNextWorkday(c: Config, d: int, n: int): (r: int)
    requires HasWorkingWeekday(c) && n >= 1
    ensures r > d && IsWorkday(c, r) && CountWorkdays(c, d + 1, r) == n
    decreases n
  {
    var f := FirstWorkdayFrom(c, d + 1);
    FirstWorkdayCount(c, d + 1);
    if n == 1 then f
    else
      var r := NthNextWorkday(c, f, n - 1);
      CountChain(c, d + 1, f, r, 1, n - 1);
      r
  }

  /** The n-th working day before d, d itself not counted: exactly n working
      days lie in [r, d) and r is one of them. */
  function NthPreviousWorkday(c: Config, d: int, n: int): (r: int)
    requires HasWorkingWeekday(c) && n >= 1
    ensures r < d && IsWorkday(c, r) && CountWorkdays(c, r, d - 1) == n
    decreases n
  {
    var f := LastWorkdayUpTo(c, d - 1);
    LastWorkdayCount(c, d - 1);
    if n == 1 then f
    else
      var r := NthPreviousWorkday(c, f, n - 1);
      CountChain(c, r, f - 1, d - 1, n - 1, 1);
      r
  }

  /** The n-th next working day is the only working day after d with n
      working days in (d, x]. */
  lemma NthNextWorkdayUnique(c: Config, d: int, n: int, x: int)
    requires HasWorkingWeekday(c) && n >= 1
    requires x > d && IsWorkday(c, x) && CountWorkdays(c, d + 1, x) == n
    ensures x == NthNextWorkday(c, d, n)
  {
    var r := NthNextWorkday(c, d, n);
    if x < r {
      CountGrows(c, d + 1, x, r);
    } else if r < x {
      CountGrows(c, d + 1, r, x);
    }
  }

  lemma NthPreviousWorkdayUnique(c: Config, d: int, n: int, x: int)
    requires HasWorkingWeekday(c) && n >= 1
    requires x < d && IsWorkday(c, x) && CountWorkdays(c, x, d - 1) == n
    ensures x == NthPreviousWorkday(c, d, n)
  {
    var r := NthPreviousWorkday(c, d, n);
    if x < r {
      CountShrinks(c, x, r, d - 1);
    } else if r < x {
      CountShrinks(c, r, x, d - 1);
    }
  }

  /** An earlier working day starts a range with strictly more working days. */
  lemma CountShrinks(c: Config, x: int, y: int, hi: int)
    requires x < y <= hi + 1 && IsWorkday(c, x)
    ensures CountWorkdays(c, x, hi) > CountWorkdays(c, y, hi)
  {
    CountSplit(c, x, y, hi);
    CountLow(c, x, y - 1);
  }
}
