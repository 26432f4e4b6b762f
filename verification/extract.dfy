/** Boolean masks over a vector of instants: working day, business hours,
    or both.  Each is one pass with cursors, one over the ascending list of
    working days of the covered dates and one over the border list. */
module Extract {
  import opened Config
  import opened Workdays
  import opened Clock

  /** Instants in non-decreasing order. */
  predicate Sorted(ts: seq<int>) {
    forall i, j :: 0 <= i < j < |ts| ==> ts[i] <= ts[j]
  }

  /** No date is skipped from one instant to the next. */
  predicate NoGapDays(ts: seq<int>) {
    forall i :: 0 < i < |ts| ==> NoGapAt(ts, i)
  }

  predicate NoGapAt(ts: seq<int>, i: int)
    requires 0 < i < |ts|
  {
    DateOf(ts[i]) <= DateOf(ts[i - 1]) + 1
  }

  lemma DateMonotone(x: int, y: int)
    requires x <= y
    ensures DateOf(x) <= DateOf(y)
  {
    Order(x, y);
  }

  /** The working-day cursor: the date being scanned, the index of the next
      working day to meet in the list, and whether the date is to be
      skipped.  Past the end of the list the source holds the date
      2100-01-01, which a scanned 2100-01-01 would meet; here the index
      simply stops matching, so nothing is met past the end. */
  datatype DayCursor = DayCursor(now: int, next: int, endToday: bool)

  /** The check made on the first date before the scan. */
  function StartDay(ws: seq<int>, first: int): (s: DayCursor)
    ensures s.now == first && 0 <= s.next <= |ws| && s.next <= 1
    ensures !s.endToday ==> first in ws
  {
    if |ws| > 0 && ws[0] == first then DayCursor(first, 1, false) else DayCursor(first, 0, true)
  }

  /** The update on meeting an instant of the given date: on a later date
      the cursor moves there, and the date is kept exactly when it is the
      next working day of the list, which the cursor then passes. */
  function NextDate(ws: seq<int>, s: DayCursor, date: int): (r: DayCursor)
    requires 0 <= s.next <= |ws|
    ensures 0 <= r.next <= |ws|
    ensures r.now == if s.now < date then date else s.now
    ensures s.now < date && !r.endToday ==> date in ws
    ensures !(s.now < date) ==> r == s
  {
    if s.now < date then
      if s.next < |ws| && ws[s.next] == date then DayCursor(date, s.next + 1, false)
      else DayCursor(date, s.next, true)
    else s
  }

  /** ws is the ascending list of the working days of [lo, hi]. */
  ghost predicate WorkdayList(c: Config, ws: seq<int>, lo: int, hi: int) {
    && StrictlyAscending(ws)
    && (forall x :: x in ws <==> lo <= x <= hi && IsWorkday(c, x))
    && (forall i :: 0 <= i < |ws| ==> lo <= ws[i] <= hi)
  }

  /** The cursor sits right in the list of working days of [lo, hi]: the
      working days up to the current date are behind it, the later ones
      ahead. */
  predicate Placed(ws: seq<int>, s: DayCursor, lo: int, hi: int) {
    && 0 <= s.next <= |ws|
    && (forall j :: 0 <= j < s.next ==> ws[j] <= s.now)
    && (forall j :: s.next <= j < |ws| ==> ws[j] > s.now)
    && lo <= s.now <= hi
  }

  /** Placed, and the date is skipped exactly when it is not a working
      day. */
  predicate InStep(c: Config, ws: seq<int>, s: DayCursor, lo: int, hi: int) {
    Placed(ws, s, lo, hi) && s.endToday == !IsWorkday(c, s.now)
  }

  lemma StartDayInStep(c: Config, ws: seq<int>, lo: int, hi: int)
    requires lo <= hi && WorkdayList(c, ws, lo, hi)
    ensures InStep(c, ws, StartDay(ws, lo), lo, hi)
  {
    if IsWorkday(c, lo) {
      assert lo in ws;
    }
    if |ws| > 0 && ws[0] != lo {
      assert forall j :: 0 < j < |ws| ==> ws[0] < ws[j];
    }
  }

  /** Moving on by at most one date keeps the cursor placed, and on a new
      date the skip flag says whether it is a working day. */
  lemma NextDatePlaced(c: Config, ws: seq<int>, s: DayCursor, lo: int, hi: int, date: int)
    requires WorkdayList(c, ws, lo, hi) && Placed(ws, s, lo, hi)
    requires s.now <= date <= s.now + 1 && date <= hi
    ensures Placed(ws, NextDate(ws, s, date), lo, hi)
    ensures s.now < date ==> NextDate(ws, s, date).endToday == !IsWorkday(c, date)
  {
    if s.now < date {
      NewDatePlaced(ws, s, lo, hi, IsWorkday(c, date), date);
    }
  }

  /** The step onto the next date, over any ascending list holding exactly
      the working days of [lo, hi]; `work` says whether that date is one. */
  lemma NewDatePlaced(ws: seq<int>, s: DayCursor, lo: int, hi: int, work: bool, date: int)
    requires StrictlyAscending(ws) && Placed(ws, s, lo, hi)
    requires date == s.now + 1 && date <= hi
    requires date in ws <==> work
    ensures Placed(ws, NextDate(ws, s, date), lo, hi)
    ensures NextDate(ws, s, date).endToday == !work
  {
    if work {
      var j :| 0 <= j < |ws| && ws[j] == date;
      assert j >= s.next;
      assert ws[s.next] <= ws[j];
    }
    if s.next < |ws| && ws[s.next] == date {
      assert forall j :: s.next < j < |ws| ==> ws[s.next] < ws[j];
    }
  }

  lemma NextDateInStep(c: Config, ws: seq<int>, s: DayCursor, lo: int, hi: int, date: int)
    requires WorkdayList(c, ws, lo, hi) && InStep(c, ws, s, lo, hi)
    requires s.now <= date <= s.now + 1 && date <= hi
    ensures InStep(c, ws, NextDate(ws, s, date), lo, hi)
  {
    NextDatePlaced(c, ws, s, lo, hi, date);
  }

  /** What the scan of sorted instants has established after i of them:
      the cursor is on the date of the last one, every earlier instant has
      a date no later, the entries of the current date follow the skip
      flag, a kept entry is on a working day and entries of one date
      agree. */
  predicate DatesSoFar(c: Config, ts: seq<int>, mask: seq<bool>, i: int, s: DayCursor)
    requires 0 <= i <= |ts| && |mask| == i && |ts| > 0
  {
    && s.now == DateOf(ts[if i == 0 then 0 else i - 1])
    && (forall j :: 0 <= j < i ==> DateOf(ts[j]) <= s.now)
    && (forall j :: 0 <= j < i && DateOf(ts[j]) == s.now ==> mask[j] == !s.endToday)
    && (forall j :: 0 <= j < i && mask[j] ==> IsWorkday(c, DateOf(ts[j])))
    && (forall j, k :: 0 <= j < k < i && DateOf(ts[j]) == DateOf(ts[k]) ==> mask[j] == mask[k])
  }

  lemma DatesStep(c: Config, ws: seq<int>, ts: seq<int>, mask: seq<bool>, i: int, s: DayCursor)
    requires Sorted(ts) && 0 <= i < |ts| && |mask| == i
    requires forall x :: x in ws ==> IsWorkday(c, x)
    requires 0 <= s.next <= |ws| && (!s.endToday ==> s.now in ws)
    requires DatesSoFar(c, ts, mask, i, s)
    ensures var r := NextDate(ws, s, DateOf(ts[i]));
      DatesSoFar(c, ts, mask + [!r.endToday], i + 1, r)
  {
    DateMonotone(ts[if i == 0 then 0 else i - 1], ts[i]);
    forall j | 0 <= j < i
      ensures DateOf(ts[j]) <= DateOf(ts[i])
    {
      DateMonotone(ts[j], ts[i]);
    }
  }

  /** With no date skipped, the scan keeps an entry exactly on a working
      day. */
  lemma WorkdaysStep(c: Config, ws: seq<int>, ts: seq<int>, mask: seq<bool>, i: int, s: DayCursor)
    requires Sorted(ts) && NoGapDays(ts) && 0 <= i < |ts| && |mask| == i
    requires WorkdayList(c, ws, DateOf(ts[0]), DateOf(ts[|ts| - 1]))
    requires s.now == DateOf(ts[if i == 0 then 0 else i - 1])
    requires InStep(c, ws, s, DateOf(ts[0]), DateOf(ts[|ts| - 1]))
    requires forall j :: 0 <= j < i ==> (mask[j] <==> IsWorkday(c, DateOf(ts[j])))
    ensures InStep(c, ws, NextDate(ws, s, DateOf(ts[i])), DateOf(ts[0]), DateOf(ts[|ts| - 1]))
    ensures forall j :: 0 <= j < i + 1 ==>
      ((mask + [!NextDate(ws, s, DateOf(ts[i])).endToday])[j] <==> IsWorkday(c, DateOf(ts[j])))
  {
    if i > 0 {
      assert NoGapAt(ts, i);
    }
    DateMonotone(ts[if i == 0 then 0 else i - 1], ts[i]);
    DateMonotone(ts[i], ts[|ts| - 1]);
    NextDateInStep(c, ws, s, DateOf(ts[0]), DateOf(ts[|ts| - 1]), DateOf(ts[i]));
  }

  /** extract_workdays_bool_vec.  The list scanned is the inclusive list
      of working days from the first to the last date.  On sorted input an
      entry is kept only on a working day and all entries of one date agree;
      when moreover no date is skipped, an entry is kept exactly on a
      working day. */
  method WorkdaysMask(c: Config, ts: seq<int>) returns (mask: seq<bool>)
    requires |ts| > 0
    ensures |mask| == |ts|
    ensures Sorted(ts) ==> forall i :: 0 <= i < |ts| && mask[i] ==> IsWorkday(c, DateOf(ts[i]))
    ensures Sorted(ts) ==> forall i, j :: 0 <= i < j < |ts| && DateOf(ts[i]) == DateOf(ts[j]) ==> mask[i] == mask[j]
    ensures Sorted(ts) && NoGapDays(ts) ==>
      forall i :: 0 <= i < |ts| ==> (mask[i] <==> IsWorkday(c, DateOf(ts[i])))
  {
    var first, last := DateOf(ts[0]), DateOf(ts[|ts| - 1]);
    var ws := GetWorkdays(c, first, last, Both);
    assert WorkdayList(c, ws, first, last);
    var s := StartDay(ws, first);
    ghost var sorted, dense := Sorted(ts), Sorted(ts) && NoGapDays(ts);
    if sorted {
      DateMonotone(ts[0], ts[|ts| - 1]);
    }
    if dense {
      StartDayInStep(c, ws, first, last);
    }
    mask := [];
    var i := 0;
    while i < |ts|
      invariant 0 <= i <= |ts| && |mask| == i
      invariant 0 <= s.next <= |ws|
      invariant !s.endToday ==> s.now in ws
      invariant dense ==> sorted
      invariant sorted ==> DatesSoFar(c, ts, mask, i, s)
      invariant dense ==> InStep(c, ws, s, first, last)
      invariant dense ==> forall j :: 0 <= j < i ==> (mask[j] <==> IsWorkday(c, DateOf(ts[j])))
    {
      var date := DateOf(ts[i]);
      if sorted {
        DatesStep(c, ws, ts, mask, i, s);
      }
      if dense {
        WorkdaysStep(c, ws, ts, mask, i, s);
      }
      s := NextDate(ws, s, date);
      mask := mask + [!s.endToday];
      i := i + 1;
    }
  }

  /** The border cursor's update on one instant of a date not yet closed:
      the border index afterwards, whether the date is now closed, and
      whether the entry is kept. */
  datatype BorderOutcome = BorderOutcome(index: int, endToday: bool, keep: bool)

  /** One step of the border cursor at time t: past the end of the current
      window it moves to the next one (closing the date and going back to
      the first window after the last), and the entry is kept when t has
      reached the start of the window it then points at. */
  function BorderStep(bs: seq<TimeBorder>, b: int, t: int): (r: BorderOutcome)
    requires 0 <= b < |bs|
    ensures 0 <= r.index < |bs|
    ensures r.endToday ==> r.index == 0 && !r.keep
    ensures r.keep ==> bs[r.index].start <= t
  {
    if bs[b].end <= t then
      if b + 1 >= |bs| then BorderOutcome(0, true, false)
      else BorderOutcome(b + 1, false, bs[b + 1].start <= t)
    else BorderOutcome(b, false, bs[b].start <= t)
  }

  /** Among ordered windows, t is inside one exactly when the first window
      not yet ended by t has started. */
  lemma InWindowByEnds(bs: seq<TimeBorder>, t: int)
    requires OrderedBorders(bs)
    ensures InWindow(bs, t) <==> EndsUpTo(bs, t) < |bs| && bs[EndsUpTo(bs, t)].start <= t
  {
    Slot(bs, t);
    StartsUpToSplit(bs, t);
    EndsUpToSplit(bs, t);
  }

  lemma EndsUpToMonotone(bs: seq<TimeBorder>, t1: int, t2: int)
    requires OrderedBorders(bs) && t1 <= t2
    ensures EndsUpTo(bs, t1) <= EndsUpTo(bs, t2)
  {
    EndsUpToSplit(bs, t1);
    EndsUpToSplit(bs, t2);
  }

  /** When the cursor points at the first window not ended by the previous
      time of the date, and t ends at most that one window more, the step
      keeps t exactly when t is inside a window, closes the date exactly
      when t is past every window, and otherwise points at the first window
      not ended by t. */
  lemma BorderStepCorrect(bs: seq<TimeBorder>, b: int, t: int)
    requires OrderedBorders(bs) && 0 <= b < |bs|
    requires b <= EndsUpTo(bs, t) <= b + 1
    ensures BorderStep(bs, b, t).keep <==> InWindow(bs, t)
    ensures BorderStep(bs, b, t).endToday <==> EndsUpTo(bs, t) == |bs|
    ensures !BorderStep(bs, b, t).endToday ==> BorderStep(bs, b, t).index == EndsUpTo(bs, t)
  {
    InWindowByEnds(bs, t);
    EndsUpToSplit(bs, t);
  }

  /** Past the last window the date closes and the cursor goes back to the
      first window; on a closed date later entries of that date are dropped
      and the cursor stays. */
  lemma PastLastBorder(bs: seq<TimeBorder>, s: BorderCursor, t: int, x: int)
    requires |bs| > 0 && bs[|bs| - 1].end <= t
    requires 0 <= s.index < |bs| && s.endToday && DateOf(x) <= s.now
    ensures BorderStep(bs, |bs| - 1, t) == BorderOutcome(0, true, false)
    ensures IntradayNext(bs, s, x) == (s, false)
  {
  }

  /** The cursor moves by one window per entry: from 08:00 straight to 16:00
      under the default windows it points at the afternoon window, which has
      started, and keeps 16:00 although that window closed at 15:00. */
  lemma JumpOverWindow()
    ensures BorderStep(DefaultBorders, 0, 28800) == BorderOutcome(0, false, false)
    ensures BorderStep(DefaultBorders, 0, 57600).keep
    ensures !InWindow(DefaultBorders, 57600)
  {
    assert !InBorder(DefaultBorders[0], 57600);
    assert !InBorder(DefaultBorders[1], 57600);
  }

  /** The day cursor passes one listed working day per change of date:
      scanning Monday 2021-01-04 and then Wednesday 2021-01-06 under the
      default weekend, the list of working days is Monday to Wednesday, the
      cursor still expects Tuesday when Wednesday comes, and drops
      Wednesday although it is a working day. */
  lemma SkippedWorkday()
    ensures WorkdayList(DefaultConfig([]), [18631, 18632, 18633], 18631, 18633)
    ensures StartDay([18631, 18632, 18633], 18631) == DayCursor(18631, 1, false)
    ensures NextDate([18631, 18632, 18633], DayCursor(18631, 1, false), 18633) == DayCursor(18633, 1, true)
    ensures IsWorkday(DefaultConfig([]), 18633)
  {
    var c, ws := DefaultConfig([]), [18631, 18632, 18633];
    forall x ensures x in ws <==> 18631 <= x <= 18633 && IsWorkday(c, x) {
      if 18631 <= x <= 18633 {
        assert WeekdayIndex(WeekdayOf(x)) < 5;
      }
    }
  }

  /** The windows ended before instant i on its own date: those ended by
      the previous instant's time when that is on the same date, else none. */
  function EndsBefore(bs: seq<TimeBorder>, ts: seq<int>, i: int): int
    requires 0 <= i < |ts|
  {
    if i == 0 || DateOf(ts[i - 1]) != DateOf(ts[i]) then 0 else EndsUpTo(bs, TimeOf(ts[i - 1]))
  }

  /** Dense enough for the border cursor: from one instant to the next at
      most one window ends, and a date is left only after all its windows
      have ended. */
  predicate Dense(bs: seq<TimeBorder>, ts: seq<int>) {
    forall i :: 0 <= i < |ts| ==> DenseAt(bs, ts, i)
  }

  predicate DenseAt(bs: seq<TimeBorder>, ts: seq<int>, i: int)
    requires 0 <= i < |ts|
  {
    && EndsUpTo(bs, TimeOf(ts[i])) <= EndsBefore(bs, ts, i) + 1
    && (i > 0 && DateOf(ts[i - 1]) != DateOf(ts[i]) ==> EndsUpTo(bs, TimeOf(ts[i - 1])) == |bs|)
  }

  /** The cursor of extract_intraday_bool_vec: the date being scanned, the
      border index and whether the date is closed. */
  datatype BorderCursor = BorderCursor(now: int, index: int, endToday: bool)

  /** The update of extract_intraday_bool_vec on instant x: a later date
      reopens, a closed date keeps nothing, and otherwise the border cursor
      steps.  The index is not reset on a new date. */
  function IntradayNext(bs: seq<TimeBorder>, s: BorderCursor, x: int): (r: (BorderCursor, bool))
    requires 0 <= s.index < |bs|
    ensures 0 <= r.0.index < |bs|
    ensures r.0.now == if DateOf(x) > s.now then DateOf(x) else s.now
    ensures r.1 ==> !r.0.endToday
  {
    var s1 := if DateOf(x) > s.now then BorderCursor(DateOf(x), s.index, false) else s;
    if s1.endToday then (s1, false)
    else
      var o := BorderStep(bs, s1.index, TimeOf(x));
      (BorderCursor(s1.now, o.index, o.endToday), o.keep)
  }

  /** The border cursor after i instants: on the date of the last one,
      pointing at the first window not ended by its time, or back at the
      first window with the date closed once all have ended. */
  predicate BordersSoFar(bs: seq<TimeBorder>, ts: seq<int>, i: int, s: BorderCursor)
    requires 0 <= i <= |ts| && |ts| > 0
  {
    && 0 <= s.index < |bs|
    && if i == 0 then s == BorderCursor(DateOf(ts[0]), 0, false)
       else
         && s.now == DateOf(ts[i - 1])
         && (s.endToday ==> s.index == 0 && EndsUpTo(bs, TimeOf(ts[i - 1])) == |bs|)
         && (!s.endToday ==> s.index == EndsUpTo(bs, TimeOf(ts[i - 1])))
  }

  /** The intraday scan under the density conditions: the border cursor as
      in BordersSoFar and the mask so far marking exactly the times inside a
      window. */
  predicate HoursSoFar(bs: seq<TimeBorder>, ts: seq<int>, mask: seq<bool>, i: int, s: BorderCursor)
    requires 0 <= i <= |ts| && |mask| == i && |ts| > 0
  {
    BordersSoFar(bs, ts, i, s) && forall j :: 0 <= j < i ==> (mask[j] <==> InWindow(bs, TimeOf(ts[j])))
  }

  lemma HoursStep(bs: seq<TimeBorder>, ts: seq<int>, mask: seq<bool>, i: int, s: BorderCursor)
    requires OrderedBorders(bs) && Sorted(ts) && Dense(bs, ts) && 0 <= i < |ts| && |mask| == i
    requires HoursSoFar(bs, ts, mask, i, s)
    ensures HoursSoFar(bs, ts, mask + [IntradayNext(bs, s, ts[i]).1], i + 1, IntradayNext(bs, s, ts[i]).0)
  {
    var r := IntradayNext(bs, s, ts[i]);
    IntradayStep(bs, ts, i, s);
    var m := mask + [r.1];
    forall j | 0 <= j < i + 1
      ensures m[j] <==> InWindow(bs, TimeOf(ts[j]))
    {
      if j < i {
        assert m[j] == mask[j];
      } else {
        assert m[j] == r.1;
      }
    }
  }

  lemma IntradayStep(bs: seq<TimeBorder>, ts: seq<int>, i: int, s: BorderCursor)
    requires OrderedBorders(bs) && Sorted(ts) && Dense(bs, ts) && 0 <= i < |ts|
    requires BordersSoFar(bs, ts, i, s)
    ensures BordersSoFar(bs, ts, i + 1, IntradayNext(bs, s, ts[i]).0)
    ensures IntradayNext(bs, s, ts[i]).1 <==> InWindow(bs, TimeOf(ts[i]))
  {
    var t := TimeOf(ts[i]);
    assert DenseAt(bs, ts, i);
    if i == 0 {
      BorderStepCorrect(bs, 0, t);
    } else {
      var p := TimeOf(ts[i - 1]);
      DateMonotone(ts[i - 1], ts[i]);
      if DateOf(ts[i]) > s.now {
        assert EndsUpTo(bs, p) == |bs|;
        BorderStepCorrect(bs, 0, t);
      } else {
        Order(ts[i - 1], ts[i]);
        EndsUpToMonotone(bs, p, t);
        if s.endToday {
          InWindowByEnds(bs, t);
        } else {
          BorderStepCorrect(bs, s.index, t);
        }
      }
    }
  }

  /** extract_intraday_bool_vec.  On sorted input dense enough that at most
      one window ends between neighbours and every date is left only after
      its last window, under ordered windows, an entry is kept exactly when its time is inside a
      window. */
  method IntradayMask(c: Config, ts: seq<int>) returns (mask: seq<bool>)
    requires |ts| > 0 && |c.borders| > 0
    ensures |mask| == |ts|
    ensures OrderedBorders(c.borders) && Sorted(ts) && Dense(c.borders, ts) ==>
      forall i :: 0 <= i < |ts| ==> (mask[i] <==> InWindow(c.borders, TimeOf(ts[i])))
  {
    var bs := c.borders;
    var s := BorderCursor(DateOf(ts[0]), 0, false);
    ghost var dense := OrderedBorders(bs) && Sorted(ts) && Dense(bs, ts);
    mask := [];
    var i := 0;
    while i < |ts|
      invariant 0 <= i <= |ts| && |mask| == i
      invariant 0 <= s.index < |bs|
      invariant dense ==> HoursSoFar(bs, ts, mask, i, s)
    {
      if dense {
        HoursStep(bs, ts, mask, i, s);
      }
      var r := IntradayNext(bs, s, ts[i]);
      s := r.0;
      mask := mask + [r.1];
      i := i + 1;
    }
  }

  /** The update of extract_workdays_intraday_bool_vec on instant x: the
      day cursor moves first, a skipped or closed date keeps nothing and
      leaves the border index alone, and otherwise the border cursor steps
      and may close the date. */
  function CombinedNext(ws: seq<int>, bs: seq<TimeBorder>, d: DayCursor, b: int, x: int): (r: (DayCursor, int, bool))
    requires 0 <= d.next <= |ws| && 0 <= b < |bs|
    ensures 0 <= r.0.next <= |ws| && 0 <= r.1 < |bs|
    ensures r.0.now == NextDate(ws, d, DateOf(x)).now && r.0.next == NextDate(ws, d, DateOf(x)).next
    ensures r.2 ==> !r.0.endToday
    ensures !r.0.endToday ==> !NextDate(ws, d, DateOf(x)).endToday
  {
    var d1 := NextDate(ws, d, DateOf(x));
    if d1.endToday then (d1, b, false)
    else
      var o := BorderStep(bs, b, TimeOf(x));
      (d1.(endToday := o.endToday), o.index, o.keep)
  }

  /** Both cursors after i instants: on the date of the last one; on a
      working day the border cursor is as in BordersSoFar, and on any other
      day the date is closed with the border index at the first window. */
  predicate BusinessSoFar(c: Config, ts: seq<int>, i: int, d: DayCursor, b: int)
    requires 0 <= i <= |ts| && |ts| > 0
  {
    var bs := c.borders;
    && 0 <= b < |bs|
    && if i == 0 then d.now == DateOf(ts[0]) && b == 0 && d.endToday == !IsWorkday(c, d.now)
       else
         && d.now == DateOf(ts[i - 1])
         && (!IsWorkday(c, d.now) ==> d.endToday && b == 0)
         && (IsWorkday(c, d.now) && d.endToday ==> b == 0 && EndsUpTo(bs, TimeOf(ts[i - 1])) == |bs|)
         && (IsWorkday(c, d.now) && !d.endToday ==> b == EndsUpTo(bs, TimeOf(ts[i - 1])))
  }

  lemma CombinedStep(c: Config, ws: seq<int>, ts: seq<int>, i: int, d: DayCursor, b: int)
    requires OrderedBorders(c.borders) && Sorted(ts) && NoGapDays(ts) && Dense(c.borders, ts)
    requires 0 <= i < |ts| && WorkdayList(c, ws, DateOf(ts[0]), DateOf(ts[|ts| - 1]))
    requires Placed(ws, d, DateOf(ts[0]), DateOf(ts[|ts| - 1]))
    requires BusinessSoFar(c, ts, i, d, b)
    ensures Placed(ws, CombinedNext(ws, c.borders, d, b, ts[i]).0, DateOf(ts[0]), DateOf(ts[|ts| - 1]))
    ensures BusinessSoFar(c, ts, i + 1, CombinedNext(ws, c.borders, d, b, ts[i]).0, CombinedNext(ws, c.borders, d, b, ts[i]).1)
    ensures CombinedNext(ws, c.borders, d, b, ts[i]).2 <==> IsBusiness(c, ts[i])
  {
    var bs := c.borders;
    var lo, hi := DateOf(ts[0]), DateOf(ts[|ts| - 1]);
    var t := TimeOf(ts[i]);
    assert DenseAt(bs, ts, i);
    if i > 0 {
      assert NoGapAt(ts, i);
    }
    DateMonotone(ts[if i == 0 then 0 else i - 1], ts[i]);
    DateMonotone(ts[i], ts[|ts| - 1]);
    NextDatePlaced(c, ws, d, lo, hi, DateOf(ts[i]));
    if IsWorkday(c, DateOf(ts[i])) {
      if i == 0 {
        BorderStepCorrect(bs, 0, t);
      } else if DateOf(ts[i]) > d.now {
        assert EndsUpTo(bs, TimeOf(ts[i - 1])) == |bs|;
        BorderStepCorrect(bs, 0, t);
      } else {
        var p := TimeOf(ts[i - 1]);
        Order(ts[i - 1], ts[i]);
        EndsUpToMonotone(bs, p, t);
        if d.endToday {
          InWindowByEnds(bs, t);
        } else {
          BorderStepCorrect(bs, b, t);
        }
      }
    } else if i > 0 && DateOf(ts[i]) > d.now {
      assert EndsUpTo(bs, TimeOf(ts[i - 1])) == |bs|;
    }
  }

  /** On sorted input the combined scan keeps entries only on working days. */
  predicate KeptSoFar(c: Config, ts: seq<int>, mask: seq<bool>, i: int, d: DayCursor)
    requires 0 <= i <= |ts| && |mask| == i && |ts| > 0
  {
    && d.now == DateOf(ts[if i == 0 then 0 else i - 1])
    && forall j :: 0 <= j < i && mask[j] ==> IsWorkday(c, DateOf(ts[j]))
  }

  lemma KeptStep(c: Config, ws: seq<int>, ts: seq<int>, mask: seq<bool>, i: int, d: DayCursor, b: int)
    requires Sorted(ts) && 0 <= i < |ts| && |mask| == i && 0 <= b < |c.borders|
    requires forall x :: x in ws ==> IsWorkday(c, x)
    requires 0 <= d.next <= |ws| && (!d.endToday ==> d.now in ws)
    requires KeptSoFar(c, ts, mask, i, d)
    ensures KeptSoFar(c, ts, mask + [CombinedNext(ws, c.borders, d, b, ts[i]).2], i + 1, CombinedNext(ws, c.borders, d, b, ts[i]).0)
  {
    DateMonotone(ts[if i == 0 then 0 else i - 1], ts[i]);
  }

  /** The combined scan under every density condition: cursors placed and
      in step, and the mask so far marking exactly the business instants. */
  predicate MatchSoFar(c: Config, ws: seq<int>, ts: seq<int>, mask: seq<bool>, i: int, d: DayCursor, b: int)
    requires 0 <= i <= |ts| && |mask| == i && |ts| > 0
  {
    && Placed(ws, d, DateOf(ts[0]), DateOf(ts[|ts| - 1]))
    && BusinessSoFar(c, ts, i, d, b)
    && forall j :: 0 <= j < i ==> (mask[j] <==> IsBusiness(c, ts[j]))
  }

  lemma MatchStep(c: Config, ws: seq<int>, ts: seq<int>, mask: seq<bool>, i: int, d: DayCursor, b: int)
    requires OrderedBorders(c.borders) && Sorted(ts) && NoGapDays(ts) && Dense(c.borders, ts)
    requires 0 <= i < |ts| && |mask| == i && WorkdayList(c, ws, DateOf(ts[0]), DateOf(ts[|ts| - 1]))
    requires MatchSoFar(c, ws, ts, mask, i, d, b)
    ensures var r := CombinedNext(ws, c.borders, d, b, ts[i]);
      MatchSoFar(c, ws, ts, mask + [r.2], i + 1, r.0, r.1)
  {
    CombinedStep(c, ws, ts, i, d, b);
  }

  /** extract_workdays_intraday_bool_vec.  On sorted input an entry is kept
      only on a working day; when moreover no date is skipped, at most one
      window ends between neighbours and every date is left only after its
      last window, under ordered windows an entry is kept exactly when it is
      a business instant, that is, when both other masks keep it. */
  method WorkdaysIntradayMask(c: Config, ts: seq<int>) returns (mask: seq<bool>)
    requires |ts| > 0 && |c.borders| > 0
    ensures |mask| == |ts|
    ensures Sorted(ts) ==> forall i :: 0 <= i < |ts| && mask[i] ==> IsWorkday(c, DateOf(ts[i]))
    ensures OrderedBorders(c.borders) && Sorted(ts) && NoGapDays(ts) && Dense(c.borders, ts) ==>
      forall i :: 0 <= i < |ts| ==> (mask[i] <==> IsBusiness(c, ts[i]))
  {
    var bs := c.borders;
    var first, last := DateOf(ts[0]), DateOf(ts[|ts| - 1]);
    var ws := GetWorkdays(c, first, last, Both);
    assert WorkdayList(c, ws, first, last);
    var d := StartDay(ws, first);
    var b := 0;
    ghost var sorted := Sorted(ts);
    ghost var dense := OrderedBorders(bs) && Sorted(ts) && NoGapDays(ts) && Dense(bs, ts);
    if sorted {
      DateMonotone(ts[0], ts[|ts| - 1]);
    }
    if dense {
      StartDayInStep(c, ws, first, last);
    }
    mask := [];
    var i := 0;
    while i < |ts|
      invariant 0 <= i <= |ts| && |mask| == i
      invariant ScanSoFar(c, ws, ts, mask, i, d, b, sorted, dense)
    {
      ScanStep(c, ws, ts, mask, i, d, b, sorted, dense);
      var r := CombinedNext(ws, bs, d, b, ts[i]);
      d, b := r.0, r.1;
      mask := mask + [r.2];
      i := i + 1;
    }
  }

  /** Everything the combined scan keeps after i instants, given whether
      the input is sorted and whether it meets every density condition. */
  predicate ScanSoFar(c: Config, ws: seq<int>, ts: seq<int>, mask: seq<bool>, i: int, d: DayCursor, b: int,
                      sorted: bool, dense: bool)
    requires 0 <= i <= |ts| && |mask| == i && |ts| > 0
  {
    && 0 <= d.next <= |ws| && 0 <= b < |c.borders|
    && (!d.endToday ==> d.now in ws)
    && (dense ==> sorted)
    && (sorted ==> KeptSoFar(c, ts, mask, i, d))
    && (dense ==> MatchSoFar(c, ws, ts, mask, i, d, b))
  }

  lemma ScanStep(c: Config, ws: seq<int>, ts: seq<int>, mask: seq<bool>, i: int, d: DayCursor, b: int,
                 sorted: bool, dense: bool)
    requires 0 <= i < |ts| && |mask| == i
    requires WorkdayList(c, ws, DateOf(ts[0]), DateOf(ts[|ts| - 1]))
    requires sorted == Sorted(ts)
    requires dense == (OrderedBorders(c.borders) && Sorted(ts) && NoGapDays(ts) && Dense(c.borders, ts))
    requires ScanSoFar(c, ws, ts, mask, i, d, b, sorted, dense)
    ensures 0 <= d.next <= |ws| && 0 <= b < |c.borders|
    ensures var r := CombinedNext(ws, c.borders, d, b, ts[i]);
      ScanSoFar(c, ws, ts, mask + [r.2], i + 1, r.0, r.1, sorted, dense)
  {
    if sorted {
      KeptStep(c, ws, ts, mask, i, d, b);
    }
    if dense {
      MatchStep(c, ws, ts, mask, i, d, b);
    }
  }

  /** On input meeting every density condition the combined mask is the
      entry-wise conjunction of the workdays mask and the intraday mask. */
  method MasksConjoin(c: Config, ts: seq<int>) returns (days: seq<bool>, hours: seq<bool>, both: seq<bool>)
    requires |ts| > 0 && |c.borders| > 0
    ensures |days| == |hours| == |both| == |ts|
    ensures OrderedBorders(c.borders) && Sorted(ts) && NoGapDays(ts) && Dense(c.borders, ts) ==>
      forall i :: 0 <= i < |ts| ==> both[i] == (days[i] && hours[i])
  {
    days := WorkdaysMask(c, ts);
    hours := IntradayMask(c, ts);
    both := WorkdaysIntradayMask(c, ts);
  }
}
