/** The intraday business clock: instants, border windows, the selections
    the intraday code makes over the border list, and the business time
    between two instants, both in closed form and second by second. */
module Clock {
  import opened Config
  import opened Workdays

  /** An instant is a count of seconds; its date is the day number and its
      time the seconds since that day's midnight. */
  function DateOf(x: int): int {
    x / DaySeconds
  }

  function TimeOf(x: int): (t: int)
    ensures 0 <= t < DaySeconds
  {
    x % DaySeconds
  }

  /** The instant at time t of day d. */
  function At(d: int, t: int): int {
    d * DaySeconds + t
  }

  lemma AtParts(d: int, t: int)
    requires 0 <= t < DaySeconds
    ensures DateOf(At(d, t)) == d && TimeOf(At(d, t)) == t
  {
  }

  lemma Parts(x: int)
    ensures x == At(DateOf(x), TimeOf(x))
  {
  }

  /** Instants are ordered by date, then by time of day. */
  lemma Order(x: int, y: int)
    ensures x < y <==> DateOf(x) < DateOf(y) || (DateOf(x) == DateOf(y) && TimeOf(x) < TimeOf(y))
  {
    Parts(x);
    Parts(y);
  }

  /** An instant between time s of day d and a later instant x of day d
      lies on day d, between the two times. */
  lemma Between(d: int, s: int, x: int, w: int)
    requires 0 <= s < DaySeconds && DateOf(x) == d && At(d, s) <= w <= x
    ensures DateOf(w) == d && s <= TimeOf(w) <= TimeOf(x)
  {
    AtParts(d, s);
    Order(At(d, s), w);
    Order(w, x);
  }

  predicate InBorder(b: TimeBorder, t: int) {
    b.start <= t < b.end
  }

  /** Some window contains time t; a window's end is outside it. */
  predicate InWindow(bs: seq<TimeBorder>, t: int) {
    exists i :: 0 <= i < |bs| && InBorder(bs[i], t)
  }

  /** The scan over the border list asking whether any window contains t. */
  function AnyContains(bs: seq<TimeBorder>, t: int): (r: bool)
    ensures r <==> exists i :: 0 <= i < |bs| && bs[i].start <= t < bs[i].end
  {
    if |bs| == 0 then false
    else if bs[0].start <= t < bs[0].end then true
    else
      var r := AnyContains(bs[1..], t);
      assert forall i :: 1 <= i < |bs| ==> bs[i] == bs[1..][i - 1];
      assert r ==> exists i :: 0 <= i < |bs[1..]| && InBorder(bs[1..][i], t);
      r
  }

  /** A business instant: a working day and a time inside a window. */
  predicate IsBusiness(c: Config, x: int) {
    IsWorkday(c, DateOf(x)) && InWindow(c.borders, TimeOf(x))
  }

  /** check_workday_intraday. */
  function CheckWorkdayIntraday(c: Config, x: int): (r: bool)
    ensures r <==> DateOf(x) !in c.holidays && WeekdayOf(DateOf(x)) !in c.holidayWeekdays
                   && exists i :: 0 <= i < |c.borders| && c.borders[i].start <= TimeOf(x) < c.borders[i].end
    ensures r <==> IsBusiness(c, x)
  {
    IsWorkday(c, DateOf(x)) && AnyContains(c.borders, TimeOf(x))
  }

  /** The comparisons the border code filters with. */
  datatype Cmp = Below | AtMost | Above | AtLeast

  predicate Holds(x: int, cmp: Cmp, t: int) {
    match cmp
    case Below => x < t
    case AtMost => x <= t
    case Above => x > t
    case AtLeast => x >= t
  }

  /** Which end of a window a selection looks at. */
  datatype Edge = StartEdge | EndEdge

  function EdgeOf(b: TimeBorder, e: Edge): int {
    if e.StartEdge? then b.start else b.end
  }

  /** The windows whose chosen edge passes the comparison, in stored order. */
  function SelectBorders(bs: seq<TimeBorder>, e: Edge, cmp: Cmp, t: int): (r: seq<TimeBorder>)
  {
    if |bs| == 0 then []
    else if Holds(EdgeOf(bs[0], e), cmp, t) then [bs[0]] + SelectBorders(bs[1..], e, cmp, t)
    else SelectBorders(bs[1..], e, cmp, t)
  }

  /** When exactly the windows from index j on pass, the selection is the
      suffix of the list from j. */
  lemma {:induction false} SelectSuffix(bs: seq<TimeBorder>, e: Edge, cmp: Cmp, t: int, j: int)
    requires 0 <= j <= |bs|
    requires forall i :: 0 <= i < j ==> !Holds(EdgeOf(bs[i], e), cmp, t)
    requires forall i :: j <= i < |bs| ==> Holds(EdgeOf(bs[i], e), cmp, t)
    ensures SelectBorders(bs, e, cmp, t) == bs[j..]
    decreases |bs|
  {
    if |bs| > 0 {
      if j == 0 {
        SelectSuffix(bs[1..], e, cmp, t, 0);
        assert [bs[0]] + bs[1..] == bs;
      } else {
        SelectSuffix(bs[1..], e, cmp, t, j - 1);
        assert bs[1..][j - 1..] == bs[j..];
      }
    }
  }

  /** When exactly the windows before index j pass, the selection is the
      prefix of the list up to j. */
  lemma {:induction false} SelectPrefix(bs: seq<TimeBorder>, e: Edge, cmp: Cmp, t: int, j: int)
    requires 0 <= j <= |bs|
    requires forall i :: 0 <= i < j ==> Holds(EdgeOf(bs[i], e), cmp, t)
    requires forall i :: j <= i < |bs| ==> !Holds(EdgeOf(bs[i], e), cmp, t)
    ensures SelectBorders(bs, e, cmp, t) == bs[..j]
    decreases |bs|
  {
    if |bs| > 0 {
      if j == 0 {
        SelectPrefix(bs[1..], e, cmp, t, 0);
      } else {
        SelectPrefix(bs[1..], e, cmp, t, j - 1);
        assert [bs[0]] + bs[1..][..j - 1] == bs[..j];
      }
    }
  }

  function Width(b: TimeBorder): int {
    b.end - b.start
  }

  /** One working day of business seconds: the widths of all windows. */
  function SumWidths(bs: seq<TimeBorder>): int {
    if |bs| == 0 then 0 else Width(bs[0]) + SumWidths(bs[1..])
  }

  /** Every proper window holds at least one second. */
  lemma {:induction false} SumWidthsAtLeast(bs: seq<TimeBorder>)
    requires ProperBorders(bs)
    ensures SumWidths(bs) >= |bs|
  {
    if |bs| > 0 {
      SumWidthsAtLeast(bs[1..]);
    }
  }

  lemma {:induction false} SumWidthsAppend(a: seq<TimeBorder>, b: seq<TimeBorder>)
    ensures SumWidths(a + b) == SumWidths(a) + SumWidths(b)
  {
    if |a| > 0 {
      SumWidthsAppend(a[1..], b);
      assert (a + b)[0] == a[0] && (a + b)[1..] == a[1..] + b;
    } else {
      assert a + b == b;
    }
  }

  /** The widths of the windows before index k, then the one at k. */
  lemma SumWidthsSnoc(bs: seq<TimeBorder>, k: int)
    requires 0 <= k < |bs|
    ensures SumWidths(bs[..k + 1]) == SumWidths(bs[..k]) + Width(bs[k])
  {
    assert bs[..k + 1] == bs[..k] + [bs[k]];
    SumWidthsAppend(bs[..k], [bs[k]]);
  }

  /** The widths from index k on: the one at k, then the rest. */
  lemma SumWidthsCons(bs: seq<TimeBorder>, k: int)
    requires 0 <= k < |bs|
    ensures SumWidths(bs[k..]) == Width(bs[k]) + SumWidths(bs[k + 1..])
  {
    assert bs[k..][1..] == bs[k + 1..];
  }

  lemma SumWidthsSplit(bs: seq<TimeBorder>, k: int)
    requires 0 <= k <= |bs|
    ensures SumWidths(bs) == SumWidths(bs[..k]) + SumWidths(bs[k..])
  {
    assert bs == bs[..k] + bs[k..];
    SumWidthsAppend(bs[..k], bs[k..]);
  }

  /** Business seconds of window b before time t of its day. */
  function Clip(b: TimeBorder, t: int): int {
    if t <= b.start then 0 else if t >= b.end then Width(b) else t - b.start
  }

  /** Business seconds of a working day before time t. */
  function Before(bs: seq<TimeBorder>, t: int): int {
    if |bs| == 0 then 0 else Clip(bs[0], t) + Before(bs[1..], t)
  }

  /** Moving t on by one second adds one business second exactly when t
      lies in a window; this is where the windows being apart matters. */
  lemma {:induction false} BeforeStep(bs: seq<TimeBorder>, t: int)
    requires OrderedBorders(bs)
    ensures Before(bs, t + 1) == Before(bs, t) + (if InWindow(bs, t) then 1 else 0)
    decreases |bs|
  {
    if |bs| > 0 {
      var rest := bs[1..];
      assert OrderedBorders(rest) by {
        assert forall i :: 0 <= i < |rest| ==> rest[i] == bs[i + 1];
      }
      BeforeStep(rest, t);
      assert InWindow(bs, t) <==> InBorder(bs[0], t) || InWindow(rest, t) by {
        assert forall i :: 1 <= i < |bs| ==> bs[i] == rest[i - 1];
        if InWindow(rest, t) {
          var i :| 0 <= i < |rest| && InBorder(rest[i], t);
          assert InBorder(bs[i + 1], t);
        }
      }
      if InBorder(bs[0], t) {
        forall i | 0 <= i < |rest| ensures !InBorder(rest[i], t) {
          assert rest[i] == bs[i + 1];
        }
      }
    }
  }

  /** No window starts before t: nothing of the day lies before t. */
  lemma {:induction false} BeforeNone(bs: seq<TimeBorder>, t: int)
    requires forall i :: 0 <= i < |bs| ==> t <= bs[i].start
    ensures Before(bs, t) == 0
    decreases |bs|
  {
    if |bs| > 0 {
      BeforeNone(bs[1..], t);
    }
  }

  /** Inside window k (end included): the earlier windows in full plus the
      part of window k before t. */
  lemma {:induction false} BeforeInside(bs: seq<TimeBorder>, k: int, t: int)
    requires OrderedBorders(bs) && 0 <= k < |bs|
    requires bs[k].start <= t <= bs[k].end
    ensures Before(bs, t) == SumWidths(bs[..k]) + (t - bs[k].start)
    decreases |bs|
  {
    var rest := bs[1..];
    OrderedSuffix(bs, 1);
    if k == 0 {
      BeforeNone(rest, t) by {
        assert forall i :: 0 <= i < |rest| ==> rest[i] == bs[i + 1];
      }
    } else {
      assert bs[0].end < bs[k].start;
      BeforeInside(rest, k - 1, t);
      assert bs[..k][1..] == rest[..k - 1];
    }
  }

  /** In the gap before window k (or after the last one): exactly the
      windows before k. */
  lemma {:induction false} BeforeGap(bs: seq<TimeBorder>, k: int, t: int)
    requires OrderedBorders(bs) && 0 <= k <= |bs|
    requires k == 0 || bs[k - 1].end <= t
    requires k == |bs| || t <= bs[k].start
    ensures Before(bs, t) == SumWidths(bs[..k])
    decreases |bs|
  {
    if |bs| > 0 {
      var rest := bs[1..];
      OrderedSuffix(bs, 1);
      if k == 0 {
        BeforeNone(bs, t);
      } else {
        EndsAscending(bs, 0, k - 1);
        BeforeGap(rest, k - 1, t);
        assert bs[..k][1..] == rest[..k - 1];
      }
    }
  }

  /** Signed count of working days in [0, d), negative for days before
      day 0, so that a difference of two is a count over any range. */
  function CumDays(c: Config, d: int): int {
    if d >= 0 then CountWorkdays(c, 0, d - 1) as int else 0 - CountWorkdays(c, d, -1)
  }

  lemma CumDaysDiff(c: Config, d: int, e: int)
    requires d <= e
    ensures CumDays(c, e) - CumDays(c, d) == CountWorkdays(c, d, e - 1)
  {
    if 0 <= d {
      CountSplit(c, 0, d, e - 1);
    } else if e < 0 {
      CountSplit(c, d, e, -1);
    } else {
      CountSplit(c, d, 0, e - 1);
    }
  }

  /** Business seconds of day d before time t. */
  function DayPart(c: Config, d: int, t: int): int {
    if IsWorkday(c, d) then Before(c.borders, t) else 0
  }

  /** Business seconds from the start of day 0 up to instant x, signed. */
  function Prefix(c: Config, x: int): int {
    CumDays(c, DateOf(x)) * SumWidths(c.borders) + DayPart(c, DateOf(x), TimeOf(x))
  }

  /** The business time of [a, b) in closed form. */
  function Business(c: Config, a: int, b: int): int {
    Prefix(c, b) - Prefix(c, a)
  }

  /** The reference: the business instants of [a, b), counted one second at
      a time. */
  ghost function BusinessSeconds(c: Config, a: int, b: int): nat
    decreases b - a
  {
    if b <= a then 0 else BusinessSeconds(c, a, b - 1) + (if IsBusiness(c, b - 1) then 1 else 0)
  }

  /** A working day ends with all of its business time behind it. */
  lemma EndOfDay(bs: seq<TimeBorder>)
    requires OrderedBorders(bs)
    ensures Before(bs, DaySeconds - 1) == SumWidths(bs)
    ensures Before(bs, 0) == 0
    ensures !InWindow(bs, DaySeconds - 1)
  {
    BeforeGap(bs, |bs|, DaySeconds - 1);
    assert bs[..|bs|] == bs;
    BeforeNone(bs, 0);
  }

  lemma PrefixWithinDay(c: Config, d: int, t: int)
    requires OrderedBorders(c.borders) && 0 <= t < DaySeconds - 1
    ensures Prefix(c, At(d, t) + 1) == Prefix(c, At(d, t)) + (if IsBusiness(c, At(d, t)) then 1 else 0)
  {
    AtParts(d, t);
    AtParts(d, t + 1);
    assert At(d, t) + 1 == At(d, t + 1);
    BeforeStep(c.borders, t);
  }

  lemma CumDaysNext(c: Config, d: int)
    ensures CumDays(c, d + 1) == CumDays(c, d) + (if IsWorkday(c, d) then 1 else 0)
  {
    CumDaysDiff(c, d, d + 1);
    assert CountWorkdays(c, d, d - 1) == 0;
  }

  lemma PrefixAt(c: Config, d: int, t: int)
    requires 0 <= t < DaySeconds
    ensures Prefix(c, At(d, t)) == CumDays(c, d) * SumWidths(c.borders) + DayPart(c, d, t)
  {
    AtParts(d, t);
  }

  lemma PrefixMidnight(c: Config, d: int)
    requires OrderedBorders(c.borders)
    ensures Prefix(c, At(d, DaySeconds - 1) + 1) == Prefix(c, At(d, DaySeconds - 1))
    ensures !IsBusiness(c, At(d, DaySeconds - 1))
  {
    var x := At(d, DaySeconds - 1);
    CumDaysNext(c, d);
    EndOfDay(c.borders);
    AtParts(d, DaySeconds - 1);
    AtParts(d + 1, 0);
    assert x + 1 == At(d + 1, 0);
    var k, w := CumDays(c, d), SumWidths(c.borders);
    var work := IsWorkday(c, d);
    assert Prefix(c, x) == k * w + (if work then w else 0);
    assert Prefix(c, x + 1) == CumDays(c, d + 1) * w;
    if work {
      assert CumDays(c, d + 1) == k + 1;
      Distribute(k, 1, w);
    } else {
      assert CumDays(c, d + 1) == k;
    }
  }

  lemma Distribute(k: int, b: int, w: int)
    ensures (k + b) * w == k * w + b * w
  {
  }

  /** One second on, the closed form grows by one exactly at a business
      instant, midnight included. */
  lemma PrefixStep(c: Config, x: int)
    requires OrderedBorders(c.borders)
    ensures Prefix(c, x + 1) == Prefix(c, x) + (if IsBusiness(c, x) then 1 else 0)
  {
    Parts(x);
    if TimeOf(x) < DaySeconds - 1 {
      PrefixWithinDay(c, DateOf(x), TimeOf(x));
    } else {
      PrefixMidnight(c, DateOf(x));
    }
  }

  /** The closed form counts the business instants. */
  lemma {:induction false} BusinessIsCount(c: Config, a: int, b: int)
    requires OrderedBorders(c.borders) && a <= b
    ensures Business(c, a, b) == BusinessSeconds(c, a, b)
    decreases b - a
  {
    if a < b {
      BusinessIsCount(c, a, b - 1);
      PrefixStep(c, b - 1);
    }
  }

  lemma {:induction false} SecondsSplit(c: Config, a: int, m: int, b: int)
    requires a <= m <= b
    ensures BusinessSeconds(c, a, b) == BusinessSeconds(c, a, m) + BusinessSeconds(c, m, b)
    decreases b - m
  {
    if m < b {
      SecondsSplit(c, a, m, b - 1);
    }
  }

  lemma {:induction false} SecondsNone(c: Config, a: int, b: int)
    requires forall w :: a <= w < b ==> !IsBusiness(c, w)
    ensures BusinessSeconds(c, a, b) == 0
    decreases b - a
  {
    if a < b {
      SecondsNone(c, a, b - 1);
    }
  }

  lemma {:induction false} SecondsAll(c: Config, a: int, b: int)
    requires a <= b
    requires forall w :: a <= w < b ==> IsBusiness(c, w)
    ensures BusinessSeconds(c, a, b) == b - a
    decreases b - a
  {
    if a < b {
      SecondsAll(c, a, b - 1);
    }
  }

  /** Across a stretch of business instants business time is elapsed time. */
  lemma BusinessAll(c: Config, a: int, b: int)
    requires OrderedBorders(c.borders) && a <= b
    requires forall w :: a <= w < b ==> IsBusiness(c, w)
    ensures Business(c, a, b) == b - a
  {
    BusinessIsCount(c, a, b);
    SecondsAll(c, a, b);
  }

  /** Business time is never negative and is zero across a stretch with no
      business instant. */
  lemma BusinessNonNegative(c: Config, a: int, b: int)
    requires OrderedBorders(c.borders) && a <= b
    ensures Business(c, a, b) >= 0
  {
    BusinessIsCount(c, a, b);
  }

  lemma BusinessNone(c: Config, a: int, b: int)
    requires OrderedBorders(c.borders) && a <= b
    requires forall w :: a <= w < b ==> !IsBusiness(c, w)
    ensures Business(c, a, b) == 0
  {
    BusinessIsCount(c, a, b);
    SecondsNone(c, a, b);
  }

  /** A stretch that starts at a business instant holds some business time. */
  lemma BusinessPositive(c: Config, a: int, b: int)
    requires OrderedBorders(c.borders) && a < b && IsBusiness(c, a)
    ensures Business(c, a, b) >= 1
  {
    BusinessIsCount(c, a, b);
    SecondsSplit(c, a, a + 1, b);
    assert BusinessSeconds(c, a, a + 1) == 1;
  }

  /** Among business instants, the business time from a fixed instant
      tells them apart: it grows strictly along them. */
  lemma BusinessFromUnique(c: Config, x: int, y1: int, y2: int)
    requires OrderedBorders(c.borders) && x <= y1 && x <= y2
    requires IsBusiness(c, y1) && IsBusiness(c, y2)
    requires Business(c, x, y1) == Business(c, x, y2)
    ensures y1 == y2
  {
    if y1 < y2 {
      BusinessPositive(c, y1, y2);
    } else if y2 < y1 {
      BusinessPositive(c, y2, y1);
    }
  }

  /** The same from the other side: the business time up to a fixed
      instant tells business instants apart. */
  lemma BusinessToUnique(c: Config, y: int, z1: int, z2: int)
    requires OrderedBorders(c.borders) && z1 <= y && z2 <= y
    requires IsBusiness(c, z1) && IsBusiness(c, z2)
    requires Business(c, z1, y) == Business(c, z2, y)
    ensures z1 == z2
  {
    if z1 < z2 {
      BusinessPositive(c, z1, z2);
    } else if z2 < z1 {
      BusinessPositive(c, z2, z1);
    }
  }

  /** How many windows start at or before t; for ordered windows these are
      the first ones. */
  function StartsUpTo(bs: seq<TimeBorder>, t: int): (j: int)
    ensures 0 <= j <= |bs|
  {
    if |bs| == 0 || bs[0].start > t then 0 else 1 + StartsUpTo(bs[1..], t)
  }

  /** How many windows end at or before t. */
  function EndsUpTo(bs: seq<TimeBorder>, t: int): (m: int)
    ensures 0 <= m <= |bs|
  {
    if |bs| == 0 || bs[0].end > t then 0 else 1 + EndsUpTo(bs[1..], t)
  }

  lemma OrderedSuffix(bs: seq<TimeBorder>, k: int)
    requires OrderedBorders(bs) && 0 <= k <= |bs|
    ensures OrderedBorders(bs[k..])
  {
    assert forall i :: 0 <= i < |bs[k..]| ==> bs[k..][i] == bs[k + i];
  }

  lemma {:induction false} StartsUpToSplit(bs: seq<TimeBorder>, t: int)
    requires OrderedBorders(bs)
    ensures forall i :: 0 <= i < StartsUpTo(bs, t) ==> bs[i].start <= t
    ensures forall i :: StartsUpTo(bs, t) <= i < |bs| ==> bs[i].start > t
    decreases |bs|
  {
    if |bs| > 0 {
      OrderedSuffix(bs, 1);
      StartsUpToSplit(bs[1..], t);
      assert forall i :: 1 <= i < |bs| ==> bs[i] == bs[1..][i - 1];
      if bs[0].start > t {
        assert forall i :: 1 <= i < |bs| ==> bs[0].end < bs[i].start;
      }
    }
  }

  lemma {:induction false} EndsUpToSplit(bs: seq<TimeBorder>, t: int)
    requires OrderedBorders(bs)
    ensures forall i :: 0 <= i < EndsUpTo(bs, t) ==> bs[i].end <= t
    ensures forall i :: EndsUpTo(bs, t) <= i < |bs| ==> bs[i].end > t
    decreases |bs|
  {
    if |bs| > 0 {
      OrderedSuffix(bs, 1);
      EndsUpToSplit(bs[1..], t);
      assert forall i :: 1 <= i < |bs| ==> bs[i] == bs[1..][i - 1];
      if bs[0].end > t {
        assert forall i :: 1 <= i < |bs| ==> bs[0].end < bs[i].start < bs[i].end;
      }
    }
  }

  /** Among ordered windows the index order follows the order of ends, the
      order of starts, and a start before an end. */
  lemma OrderByEnds(bs: seq<TimeBorder>, a: int, b: int)
    requires OrderedBorders(bs) && 0 <= a < |bs| && 0 <= b < |bs| && bs[a].end <= bs[b].end
    ensures a <= b
  {
  }

  lemma OrderByStarts(bs: seq<TimeBorder>, a: int, b: int)
    requires OrderedBorders(bs) && 0 <= a < |bs| && 0 <= b < |bs| && bs[a].start <= bs[b].start
    ensures a <= b
  {
  }

  lemma EndsAscending(bs: seq<TimeBorder>, a: int, b: int)
    requires OrderedBorders(bs) && 0 <= a <= b < |bs|
    ensures bs[a].end <= bs[b].end
  {
    if a < b {
      assert bs[a].end < bs[b].start;
    }
  }

  lemma StartsAscending(bs: seq<TimeBorder>, a: int, b: int)
    requires OrderedBorders(bs) && 0 <= a <= b < |bs|
    ensures bs[a].start <= bs[b].start
  {
    if a < b {
      assert bs[a].end < bs[b].start;
    }
  }

  lemma OrderByStartEnd(bs: seq<TimeBorder>, a: int, b: int)
    requires OrderedBorders(bs) && 0 <= a < |bs| && 0 <= b < |bs| && bs[a].start < bs[b].end
    ensures a <= b
  {
  }

  /** Where time t sits among ordered windows: inside the last window
      starting by t, or in the gap before the next one. */
  lemma Slot(bs: seq<TimeBorder>, t: int)
    requires OrderedBorders(bs)
    ensures InWindow(bs, t) <==> StartsUpTo(bs, t) > 0 && t < bs[StartsUpTo(bs, t) - 1].end
    ensures EndsUpTo(bs, t) == if InWindow(bs, t) then StartsUpTo(bs, t) - 1 else StartsUpTo(bs, t)
  {
    var j := StartsUpTo(bs, t);
    StartsUpToSplit(bs, t);
    EndsUpToSplit(bs, t);
    var m := EndsUpTo(bs, t);
    if InWindow(bs, t) {
      var i :| 0 <= i < |bs| && InBorder(bs[i], t);
      assert i < j;
      OrderByStartEnd(bs, j - 1, i);
      assert m <= i;
      OrderByStartEnd(bs, i, m);
    } else {
      if j > 0 {
        assert !InBorder(bs[j - 1], t);
        assert j - 1 < m;
      }
      if j < |bs| {
        assert bs[j].start > t;
        assert m <= j;
      }
    }
  }

  /** A window's end lies outside every window when windows are apart. */
  lemma EndOutside(bs: seq<TimeBorder>, k: int)
    requires OrderedBorders(bs) && 0 <= k < |bs|
    ensures !InWindow(bs, bs[k].end)
  {
    forall i | 0 <= i < |bs| ensures !InBorder(bs[i], bs[k].end) {
      if i < k {
        assert bs[i].end < bs[k].start;
      } else if i > k {
        assert bs[k].end < bs[i].start;
      }
    }
  }
}
