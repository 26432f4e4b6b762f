/** The day walks of the source: a calendar cursor moving one day at a time
    and a second cursor over the holidays beyond the start date.  The
    holiday cursor only moves when the calendar cursor lands on the holiday
    it points at, so these walks are right only for a strictly ascending
    holiday list; an exhausted holiday cursor is None. */
module Walks {
  import opened Config
  import opened Workdays

  function Reverse(s: seq<int>): (r: seq<int>)
    ensures |r| == |s| && forall i :: 0 <= i < |s| ==> r[i] == s[|s| - 1 - i]
  {
    if |s| == 0 then [] else Reverse(s[1..]) + [s[0]]
  }

  lemma ReverseAppend(a: seq<int>, b: seq<int>)
    ensures Reverse(a + b) == Reverse(b) + Reverse(a)
  {
  }

  /** The working days of [lo, hi] in descending order, built from the top
      down as the backward walk collects them. */
  function WorkdaysDesc(c: Config, lo: int, hi: int): seq<int>
    decreases hi - lo
  {
    if hi < lo then []
    else WorkdaysDesc(c, lo + 1, hi) + (if IsWorkday(c, lo) then [lo] else [])
  }

  /** The descending list is the ascending one reversed. */
  lemma {:induction false} WorkdaysDescReverse(c: Config, lo: int, hi: int)
    ensures WorkdaysDesc(c, lo, hi) == Reverse(WorkdaysIn(c, lo, hi))
    decreases hi - lo
  {
    if lo <= hi {
      WorkdaysDescReverse(c, lo + 1, hi);
      WorkdaysInLow(c, lo, hi);
      ReverseAppend(if IsWorkday(c, lo) then [lo] else [], WorkdaysIn(c, lo + 1, hi));
    }
  }

  /** The holiday cursor of a forward walk from d: over the ascending list
      of holidays on or after d, it points at the first one not before the
      current day, so the current day is a holiday exactly when the cursor
      points at it. */
  predicate ForwardCursor(c: Config, hb: seq<int>, k: int, day: int) {
    && 0 <= k <= |hb|
    && (forall j :: 0 <= j < k ==> hb[j] < day)
    && (forall j :: k <= j < |hb| ==> hb[j] >= day)
  }

  lemma ForwardCursorHit(c: Config, d: int, hb: seq<int>, k: int, day: int)
    requires StrictlyAscending(hb) && (forall x :: x in hb <==> x in c.holidays && x >= d)
    requires ForwardCursor(c, hb, k, day) && day >= d
    ensures (k < |hb| && hb[k] == day) <==> day in c.holidays
    ensures k < |hb| && hb[k] == day ==> ForwardCursor(c, hb, k + 1, day + 1)
    ensures !(k < |hb| && hb[k] == day) ==> ForwardCursor(c, hb, k, day + 1)
  {
    if day in c.holidays {
      assert day in hb;
      var j :| 0 <= j < |hb| && hb[j] == day;
      assert j >= k;
      assert hb[k] >= day;
      assert j == k;
    }
  }

  /** The count of working days grows by one exactly at a working day. */
  lemma CountStepUp(c: Config, lo: int, day: int)
    requires lo <= day
    ensures CountWorkdays(c, lo, day) == CountWorkdays(c, lo, day - 1) + (if IsWorkday(c, day) then 1 else 0)
  {
  }

  lemma CountStepDown(c: Config, day: int, hi: int)
    requires day <= hi
    ensures CountWorkdays(c, day, hi) == CountWorkdays(c, day + 1, hi) + (if IsWorkday(c, day) then 1 else 0)
  {
    CountLow(c, day, hi);
  }

  /** The mirror cursor of a backward walk: over the holidays on or before
      d in descending order. */
  predicate BackwardCursor(c: Config, hs: seq<int>, k: int, day: int) {
    && 0 <= k <= |hs|
    && (forall j :: 0 <= j < k ==> hs[j] > day)
    && (forall j :: k <= j < |hs| ==> hs[j] <= day)
  }

  predicate StrictlyDescending(s: seq<int>) {
    forall i, j :: 0 <= i < j < |s| ==> s[i] > s[j]
  }

  lemma BackwardCursorHit(c: Config, d: int, hs: seq<int>, k: int, day: int)
    requires StrictlyDescending(hs) && (forall x :: x in hs <==> x in c.holidays && x <= d)
    requires BackwardCursor(c, hs, k, day) && day <= d
    ensures (k < |hs| && hs[k] == day) <==> day in c.holidays
    ensures k < |hs| && hs[k] == day ==> BackwardCursor(c, hs, k + 1, day - 1)
    ensures !(k < |hs| && hs[k] == day) ==> BackwardCursor(c, hs, k, day - 1)
  {
    if day in c.holidays {
      assert day in hs;
      var j :| 0 <= j < |hs| && hs[j] == day;
      assert j >= k;
      assert hs[k] <= day;
      assert j == k;
    }
  }

  /** Holidays on or after d, ascending. */
  method ForwardHolidays(c: Config, d: int) returns (hb: seq<int>)
    requires StrictlyAscending(c.holidays)
    ensures StrictlyAscending(hb) && forall x :: x in hb <==> x in c.holidays && x >= d
    ensures forall j :: 0 <= j < |hb| ==> hb[j] >= d
  {
    hb := Filter(c.holidays, x => x >= d);
    assert forall j :: 0 <= j < |hb| ==> hb[j] in hb;
  }

  /** Holidays on or before d, reversed into descending order. */
  method BackwardHolidays(c: Config, d: int) returns (hs: seq<int>)
    requires StrictlyAscending(c.holidays)
    ensures StrictlyDescending(hs) && forall x :: x in hs <==> x in c.holidays && x <= d
    ensures forall j :: 0 <= j < |hs| ==> hs[j] <= d
  {
    var hf := Filter(c.holidays, x => x <= d);
    hs := Reverse(hf);
    ReverseOfAscending(hf);
    assert forall j :: 0 <= j < |hs| ==> hs[j] in hs;
  }

  /** Reversing an ascending list gives a descending list of the same
      elements. */
  lemma ReverseOfAscending(s: seq<int>)
    requires StrictlyAscending(s)
    ensures StrictlyDescending(Reverse(s))
    ensures forall x :: x in Reverse(s) <==> x in s
  {
    var r := Reverse(s);
    forall x | x in s ensures x in r {
      var i :| 0 <= i < |s| && s[i] == x;
      assert r[|s| - 1 - i] == x;
    }
    forall i, j | 0 <= i < j < |r| ensures r[i] > r[j] {
      assert r[i] == s[|s| - 1 - i] && r[j] == s[|s| - 1 - j];
    }
  }

  /** The forward loop of get_next_workday, entered on the day after d
      with the holiday cursor already past d. */
  method WalkForward(c: Config, d: int, hb: seq<int>, k0: int, days: int) returns (r: int)
    requires HasWorkingWeekday(c)
    requires StrictlyAscending(hb) && (forall x :: x in hb <==> x in c.holidays && x >= d)
    requires ForwardCursor(c, hb, k0, d + 1)
    ensures days <= 0 ==> r == d + 1
    ensures days >= 1 ==> r > d && IsWorkday(c, r) && CountWorkdays(c, d + 1, r) == days
  {
    var k := k0;
    var oneDay := d + 1;
    var counter := 0;
    while true
      invariant oneDay > d && ForwardCursor(c, hb, k, oneDay)
      invariant counter == CountWorkdays(c, d + 1, oneDay - 1)
      invariant days <= 0 ==> oneDay == d + 1
      invariant days >= 1 ==> counter < days
      decreases days - counter, ForwardMeasure(c, oneDay)
    {
      ForwardCursorHit(c, d, hb, k, oneDay);
      CountStepUp(c, d + 1, oneDay);
      var hit := k < |hb| && hb[k] == oneDay;
      var working := !hit && WeekdayOf(oneDay) !in c.holidayWeekdays;
      assert working == IsWorkday(c, oneDay);
      if hit {
        k := k + 1;
      } else if working {
        counter := counter + 1;
      }
      if counter >= days {
        break;
      }
      if !working {
        ForwardMeasureDecreases(c, oneDay);
      }
      oneDay := oneDay + 1;
    }
    r := oneDay;
  }

  /** get_next_workday: the days-th working day after d, d not counted.  A
      count of zero or less stops on the day after d. */
  method GetNextWorkday(c: Config, d: int, days: int) returns (r: int)
    requires HasWorkingWeekday(c) && StrictlyAscending(c.holidays)
    ensures days <= 0 ==> r == d + 1
    ensures days >= 1 ==> r > d && IsWorkday(c, r) && CountWorkdays(c, d + 1, r) == days
    ensures days >= 1 ==> r == NthNextWorkday(c, d, days)
  {
    var hb := ForwardHolidays(c, d);
    var k := 0;
    ForwardCursorHit(c, d, hb, k, d);
    if k < |hb| && hb[k] == d {
      k := k + 1;
    }
    r := WalkForward(c, d, hb, k, days);
    if days >= 1 {
      NthNextWorkdayUnique(c, d, days, r);
    }
  }

  /** The backward loop of get_previous_workday, entered on the day before
      d with the holiday cursor already past d. */
  method WalkBackward(c: Config, d: int, hs: seq<int>, k0: int, days: int) returns (r: int)
    requires HasWorkingWeekday(c)
    requires StrictlyDescending(hs) && (forall x :: x in hs <==> x in c.holidays && x <= d)
    requires BackwardCursor(c, hs, k0, d - 1)
    ensures days <= 0 ==> r == d - 1
    ensures days >= 1 ==> r < d && IsWorkday(c, r) && CountWorkdays(c, r, d - 1) == days
  {
    var k := k0;
    var oneDay := d - 1;
    var counter := 0;
    while true
      invariant oneDay < d && BackwardCursor(c, hs, k, oneDay)
      invariant counter == CountWorkdays(c, oneDay + 1, d - 1)
      invariant days <= 0 ==> oneDay == d - 1
      invariant days >= 1 ==> counter < days
      decreases days - counter, BackwardMeasure(c, oneDay)
    {
      BackwardCursorHit(c, d, hs, k, oneDay);
      CountStepDown(c, oneDay, d - 1);
      var hit := k < |hs| && hs[k] == oneDay;
      var working := !hit && WeekdayOf(oneDay) !in c.holidayWeekdays;
      assert working == IsWorkday(c, oneDay);
      if hit {
        k := k + 1;
      } else if working {
        counter := counter + 1;
      }
      if counter >= days {
        break;
      }
      if !working {
        BackwardMeasureDecreases(c, oneDay);
      }
      oneDay := oneDay - 1;
    }
    r := oneDay;
  }

  /** get_previous_workday: the days-th working day before d, d not
      counted.  A count of zero or less stops on the day before d. */
  method GetPreviousWorkday(c: Config, d: int, days: int) returns (r: int)
    requires HasWorkingWeekday(c) && StrictlyAscending(c.holidays)
    ensures days <= 0 ==> r == d - 1
    ensures days >= 1 ==> r < d && IsWorkday(c, r) && CountWorkdays(c, r, d - 1) == days
    ensures days >= 1 ==> r == NthPreviousWorkday(c, d, days)
  {
    var hs := BackwardHolidays(c, d);
    var k := 0;
    BackwardCursorHit(c, d, hs, k, d);
    if k < |hs| && hs[k] == d {
      k := k + 1;
    }
    r := WalkBackward(c, d, hs, k, days);
    if days >= 1 {
      NthPreviousWorkdayUnique(c, d, days, r);
    }
  }

  /** get_near_workday: d itself when it is a working day, otherwise the
      nearest working day after it (isAfter) or before it. */
  method GetNearWorkday(c: Config, d: int, isAfter: bool) returns (r: int)
    requires HasWorkingWeekday(c) && StrictlyAscending(c.holidays)
    ensures IsWorkday(c, r)
    ensures isAfter ==> d <= r && forall x :: d <= x < r ==> !IsWorkday(c, x)
    ensures !isAfter ==> r <= d && forall x :: r < x <= d ==> !IsWorkday(c, x)
  {
    var isWorkday := CheckWorkday(c, d);
    if isWorkday {
      r := d;
    } else if isAfter {
      r := GetNextWorkday(c, d, 1);
    } else {
      r := GetPreviousWorkday(c, d, 1);
    }
  }

  /** The forward collecting loop of get_next_workdays_number: it stops
      on the day that completes the count, or on d itself for a count of
      zero or less. */
  /** One more day on the reference list of working days. */
  lemma CollectStepUp(c: Config, d: int, day: int)
    requires day >= d
    ensures WorkdaysIn(c, d, day) == WorkdaysIn(c, d, day - 1) + (if IsWorkday(c, day) then [day] else [])
  {
  }

  method CollectForward(c: Config, d: int, hb: seq<int>, days: int) returns (ws: seq<int>, last: int)
    requires HasWorkingWeekday(c)
    requires StrictlyAscending(hb) && (forall x :: x in hb <==> x in c.holidays && x >= d)
    requires ForwardCursor(c, hb, 0, d)
    ensures last >= d && ws == WorkdaysIn(c, d, last)
    ensures days <= 0 ==> last == d
    ensures days >= 1 ==> |ws| == days && IsWorkday(c, last)
  {
    var k := 0;
    var oneDay := d;
    var counter := 0;
    ws := [];
    while true
      invariant oneDay >= d && ForwardCursor(c, hb, k, oneDay)
      invariant ws == WorkdaysIn(c, d, oneDay - 1) && counter == |ws|
      invariant days <= 0 ==> oneDay == d
      invariant days >= 1 ==> counter < days
      decreases days - counter, ForwardMeasure(c, oneDay)
    {
      ForwardCursorHit(c, d, hb, k, oneDay);
      CollectStepUp(c, d, oneDay);
      if k < |hb| && hb[k] == oneDay {
        k := k + 1;
      } else if WeekdayOf(oneDay) !in c.holidayWeekdays {
        counter := counter + 1;
        ws := ws + [oneDay];
      }
      if counter >= days {
        break;
      }
      if !IsWorkday(c, oneDay) {
        ForwardMeasureDecreases(c, oneDay);
      }
      oneDay := oneDay + 1;
    }
    last := oneDay;
  }

  /** get_next_workdays_number: days working days collected forward from
      d, d itself counting as the first when it is a working day. */
  method GetNextWorkdaysNumber(c: Config, d: int, days: int) returns (ws: seq<int>)
    requires HasWorkingWeekday(c) && StrictlyAscending(c.holidays)
    ensures days <= 0 ==> ws == (if IsWorkday(c, d) then [d] else [])
    ensures days >= 1 ==> |ws| == days && ws == WorkdaysIn(c, d, ws[days - 1])
    ensures days >= 1 ==> (ws[0] == d <==> IsWorkday(c, d))
  {
    var hb := ForwardHolidays(c, d);
    var last;
    ws, last := CollectForward(c, d, hb, days);
    if days <= 0 {
      assert WorkdaysIn(c, d, d - 1) == [];
    } else {
      assert last in ws;
      var j :| 0 <= j < |ws| && ws[j] == last;
      assert j == days - 1;
      if IsWorkday(c, d) {
        assert d in ws;
        var i :| 0 <= i < |ws| && ws[i] == d;
        assert ws[0] <= ws[i];
      }
    }
  }

  /** The backward collecting loop of get_previous_workdays_number. */
  method CollectBackward(c: Config, d: int, hs: seq<int>, days: int) returns (ws: seq<int>, last: int)
    requires HasWorkingWeekday(c)
    requires StrictlyDescending(hs) && (forall x :: x in hs <==> x in c.holidays && x <= d)
    requires BackwardCursor(c, hs, 0, d)
    ensures last <= d && ws == WorkdaysDesc(c, last, d)
    ensures days <= 0 ==> last == d
    ensures days >= 1 ==> |ws| == days && IsWorkday(c, last)
  {
    var k := 0;
    var oneDay := d;
    var counter := 0;
    ws := [];
    while true
      invariant oneDay <= d && BackwardCursor(c, hs, k, oneDay)
      invariant ws == WorkdaysDesc(c, oneDay + 1, d) && counter == |ws|
      invariant days <= 0 ==> oneDay == d
      invariant days >= 1 ==> counter < days
      decreases days - counter, BackwardMeasure(c, oneDay)
    {
      BackwardCursorHit(c, d, hs, k, oneDay);
      if k < |hs| && hs[k] == oneDay {
        k := k + 1;
      } else if WeekdayOf(oneDay) !in c.holidayWeekdays {
        counter := counter + 1;
        ws := ws + [oneDay];
      }
      if counter >= days {
        break;
      }
      if !IsWorkday(c, oneDay) {
        BackwardMeasureDecreases(c, oneDay);
      }
      oneDay := oneDay - 1;
    }
    last := oneDay;
  }

  /** get_previous_workdays_number: days working days collected backward
      from d, in descending order, d counting first when it is working. */
  method GetPreviousWorkdaysNumber(c: Config, d: int, days: int) returns (ws: seq<int>)
    requires HasWorkingWeekday(c) && StrictlyAscending(c.holidays)
    ensures days <= 0 ==> ws == (if IsWorkday(c, d) then [d] else [])
    ensures days >= 1 ==> |ws| == days && ws == Reverse(WorkdaysIn(c, ws[days - 1], d))
    ensures days >= 1 ==> (ws[0] == d <==> IsWorkday(c, d))
  {
    var hs := BackwardHolidays(c, d);
    var last;
    ws, last := CollectBackward(c, d, hs, days);
    WorkdaysDescReverse(c, last, d);
    var asc := WorkdaysIn(c, last, d);
    if days <= 0 {
      assert WorkdaysIn(c, d, d - 1) == [];
    } else {
      assert last in asc;
      var j :| 0 <= j < |asc| && asc[j] == last;
      assert asc[0] <= asc[j];
      assert ws[days - 1] == last;
      if IsWorkday(c, d) {
        assert d in asc;
        var i :| 0 <= i < |asc| && asc[i] == d;
        assert asc[i] <= asc[|asc| - 1];
      }
    }
  }

  /** get_workdays_number: forward for a positive count, backward for a
      negative one, nothing for zero. */
  method GetWorkdaysNumber(c: Config, d: int, days: int) returns (ws: seq<int>)
    requires HasWorkingWeekday(c) && StrictlyAscending(c.holidays)
    ensures days == 0 ==> ws == []
    ensures days > 0 ==> |ws| == days && ws == WorkdaysIn(c, d, ws[days - 1])
    ensures days < 0 ==> |ws| == -days && ws == Reverse(WorkdaysIn(c, ws[-days - 1], d))
  {
    if days > 0 {
      ws := GetNextWorkdaysNumber(c, d, days);
    } else if days < 0 {
      ws := GetPreviousWorkdaysNumber(c, d, -days);
    } else {
      ws := [];
    }
  }
}
