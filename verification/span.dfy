/** The business time between two instants, computed the way the source
    does: the rest of the first day, whole working days in between, and the
    part of the last day. */
module Span {
  import opened Config
  import opened Workdays
  import opened Clock
  import opened Borders

  /** The latest window start at or before t, for t inside a window. */
  function GreatestStartAtMost(bs: seq<TimeBorder>, t: int): (s: int)
    requires InWindow(bs, t)
    ensures s <= t
    ensures exists i :: 0 <= i < |bs| && bs[i].start == s
    ensures forall i :: 0 <= i < |bs| && bs[i].start <= t ==> bs[i].start <= s
  {
    var i :| 0 <= i < |bs| && InBorder(bs[i], t);
    GreatestStartUpTo(bs, t).value
  }

  /** The latest window start at or before t, None when every window
      starts later. */
  function GreatestStartUpTo(bs: seq<TimeBorder>, t: int): (r: Option<int>)
    ensures r.None? <==> forall i :: 0 <= i < |bs| ==> bs[i].start > t
    ensures r.Some? ==> r.value <= t && exists i :: 0 <= i < |bs| && bs[i].start == r.value
    ensures r.Some? ==> forall i :: 0 <= i < |bs| && bs[i].start <= t ==> bs[i].start <= r.value
  {
    if |bs| == 0 then None
    else
      var rest := GreatestStartUpTo(bs[1..], t);
      assert forall i :: 1 <= i < |bs| ==> bs[i] == bs[1..][i - 1];
      if bs[0].start <= t && (rest.None? || rest.value < bs[0].start) then Some(bs[0].start) else rest
  }

  /** Business seconds of a working day from time t on: the rest of the
      window holding t and every window starting after t. */
  function StartPart(bs: seq<TimeBorder>, t: int): int
    requires TimesOfDay(bs)
  {
    (if InWindow(bs, t) then LeastEndAbove(bs, t) - t else 0)
      + SumWidths(SelectBorders(bs, StartEdge, Above, t))
  }

  /** Business seconds of a working day before time t: the elapsed part of
      the window holding t and every window ended by t. */
  function EndPart(bs: seq<TimeBorder>, t: int): int {
    (if InWindow(bs, t) then t - GreatestStartAtMost(bs, t) else 0)
      + SumWidths(SelectBorders(bs, EndEdge, AtMost, t))
  }

  /** For ordered windows the latest start at or before an inside time is
      the start of the window holding it. */
  lemma GreatestStartIsHolder(bs: seq<TimeBorder>, t: int)
    requires OrderedBorders(bs) && InWindow(bs, t)
    ensures StartsUpTo(bs, t) > 0
    ensures bs[StartsUpTo(bs, t) - 1].start <= t < bs[StartsUpTo(bs, t) - 1].end
    ensures GreatestStartAtMost(bs, t) == bs[StartsUpTo(bs, t) - 1].start
  {
    var j := StartsUpTo(bs, t);
    StartsUpToSplit(bs, t);
    Slot(bs, t);
    var s := GreatestStartAtMost(bs, t);
    var i :| 0 <= i < |bs| && bs[i].start == s;
    OrderByStarts(bs, j - 1, i);
  }

  lemma StartPartInside(bs: seq<TimeBorder>, t: int)
    requires OrderedBorders(bs) && InWindow(bs, t)
    ensures StartPart(bs, t) == SumWidths(bs) - Before(bs, t)
  {
    var j := StartsUpTo(bs, t);
    StartsUpToSplit(bs, t);
    LeastEndIsWindowEnd(bs, t);
    SelectSuffix(bs, StartEdge, Above, t, j);
    BeforeInside(bs, j - 1, t);
    SumWidthsSplit(bs, j - 1);
    SumWidthsCons(bs, j - 1);
  }

  lemma StartPartOutside(bs: seq<TimeBorder>, t: int)
    requires OrderedBorders(bs) && !InWindow(bs, t)
    ensures StartPart(bs, t) == SumWidths(bs) - Before(bs, t)
  {
    var j := StartsUpTo(bs, t);
    StartsUpToSplit(bs, t);
    Slot(bs, t);
    SelectSuffix(bs, StartEdge, Above, t, j);
    BeforeGap(bs, j, t);
    SumWidthsSplit(bs, j);
  }

  /** The day part after t is what the working day has left. */
  lemma StartPartRemaining(bs: seq<TimeBorder>, t: int)
    requires OrderedBorders(bs)
    ensures StartPart(bs, t) == SumWidths(bs) - Before(bs, t)
  {
    if InWindow(bs, t) {
      StartPartInside(bs, t);
    } else {
      StartPartOutside(bs, t);
    }
  }

  lemma EndPartInside(bs: seq<TimeBorder>, t: int)
    requires OrderedBorders(bs) && InWindow(bs, t)
    ensures EndPart(bs, t) == Before(bs, t)
  {
    var j := StartsUpTo(bs, t);
    var m := EndsUpTo(bs, t);
    EndsUpToSplit(bs, t);
    Slot(bs, t);
    assert m == j - 1;
    GreatestStartIsHolder(bs, t);
    SelectPrefix(bs, EndEdge, AtMost, t, m);
    BeforeInside(bs, m, t);
  }

  lemma EndPartOutside(bs: seq<TimeBorder>, t: int)
    requires OrderedBorders(bs) && !InWindow(bs, t)
    ensures EndPart(bs, t) == Before(bs, t)
  {
    var j := StartsUpTo(bs, t);
    StartsUpToSplit(bs, t);
    EndsUpToSplit(bs, t);
    Slot(bs, t);
    SelectPrefix(bs, EndEdge, AtMost, t, j);
    BeforeGap(bs, j, t);
  }

  /** The day part before t is the business time of the day before t. */
  lemma EndPartBefore(bs: seq<TimeBorder>, t: int)
    requires OrderedBorders(bs)
    ensures EndPart(bs, t) == Before(bs, t)
  {
    if InWindow(bs, t) {
      EndPartInside(bs, t);
    } else {
      EndPartOutside(bs, t);
    }
  }

  /** The span as the source computes it, for any two instants. */
  function ElapsedAsWritten(c: Config, s: int, e: int): int
    requires TimesOfDay(c.borders)
  {
    var bs := c.borders;
    var sd, ed := DateOf(s), DateOf(e);
    (if IsWorkday(c, sd) then StartPart(bs, TimeOf(s)) else 0)
      + |GetWorkdays(c, sd, ed, Not)| * SumWidths(bs)
      + (if IsWorkday(c, ed) then EndPart(bs, TimeOf(e)) else 0)
  }

  lemma CountFirstRest(c: Config, lo: int, hi: int, n: int)
    requires lo <= hi && n == |WorkdaysIn(c, lo + 1, hi)|
    ensures CountWorkdays(c, lo, hi) == (if IsWorkday(c, lo) then 1 else 0) + n
  {
    CountIsLength(c, lo + 1, hi);
    CountLow(c, lo, hi);
  }

  lemma CountSkipFirst(c: Config, sd: int, ed: int)
    requires sd < ed
    ensures CumDays(c, ed) - CumDays(c, sd)
      == (if IsWorkday(c, sd) then 1 else 0) + |GetWorkdays(c, sd, ed, Not)|
  {
    CountFirstRest(c, sd, ed - 1, |GetWorkdays(c, sd, ed, Not)|);
    CumDaysDiff(c, sd, ed);
  }

  /** Across different dates the source's span is the business time of
      [s, e). */
  lemma ElapsedAcrossDays(c: Config, s: int, e: int)
    requires OrderedBorders(c.borders) && DateOf(s) < DateOf(e)
    ensures ElapsedAsWritten(c, s, e) == Business(c, s, e)
  {
    var bs := c.borders;
    var sd, ed := DateOf(s), DateOf(e);
    var w := SumWidths(bs);
    var n := |GetWorkdays(c, sd, ed, Not)|;
    var first := if IsWorkday(c, sd) then 1 else 0;
    StartPartRemaining(bs, TimeOf(s));
    EndPartBefore(bs, TimeOf(e));
    CountSkipFirst(c, sd, ed);
    Distribute(first, n, w);
    assert (CumDays(c, ed) - CumDays(c, sd)) * w == CumDays(c, ed) * w - CumDays(c, sd) * w;
  }

  /** Business time of the default windows before 10:00 and 11:00. */
  lemma DefaultBefore()
    ensures Before(DefaultBorders, 36000) == 3600
    ensures Before(DefaultBorders, 39600) == 7200
    ensures SumWidths(DefaultBorders) == 18000
  {
    assert DefaultBorders[1..][1..] == [];
  }

  /** Within one date the business time is the difference of the day
      parts. */
  lemma BusinessSameDay(c: Config, d: int, t1: int, t2: int)
    requires 0 <= t1 < DaySeconds && 0 <= t2 < DaySeconds
    ensures Business(c, At(d, t1), At(d, t2)) == DayPart(c, d, t2) - DayPart(c, d, t1)
  {
    PrefixAt(c, d, t1);
    PrefixAt(c, d, t2);
  }

  lemma DefaultMonday()
    ensures IsWorkday(DefaultConfig([]), 18631)
  {
    assert WeekdayOf(18631) == Mon;
  }

  /** Within one working date the source's span is a whole working day
      more than the business time between the two instants. */
  lemma ElapsedAsWrittenSameDay(c: Config, d: int, t1: int, t2: int)
    requires OrderedBorders(c.borders)
    requires 0 <= t1 < DaySeconds && 0 <= t2 < DaySeconds
    ensures ElapsedAsWritten(c, At(d, t1), At(d, t2))
      == (if IsWorkday(c, d) then SumWidths(c.borders) else 0) + Business(c, At(d, t1), At(d, t2))
  {
    AtParts(d, t1);
    AtParts(d, t2);
    StartPartRemaining(c.borders, t1);
    EndPartBefore(c.borders, t2);
    BusinessSameDay(c, d, t1, t2);
    assert WorkdaysIn(c, d + 1, d - 1) == [];
  }

  /** Hence 10:00 to 11:00 on Monday 2021-01-04 under the default windows
      gives six hours, not one. */
  lemma ElapsedSameDayCounterexample()
    ensures var c := DefaultConfig([]);
      && ElapsedAsWritten(c, At(18631, 36000), At(18631, 39600)) == 21600
      && Business(c, At(18631, 36000), At(18631, 39600)) == 3600
  {
    var c := DefaultConfig([]);
    DefaultMonday();
    DefaultBefore();
    BusinessSameDay(c, 18631, 36000, 39600);
    ElapsedAsWrittenSameDay(c, 18631, 36000, 39600);
  }

  /** The signed business time of [s, e): the source's computation across
      dates, the difference of the two day parts within one date, and the
      negated forward span when e comes first. */
  function Elapsed(c: Config, s: int, e: int): (r: int)
    requires OrderedBorders(c.borders)
    ensures r == Business(c, s, e)
  {
    var sd, ed := DateOf(s), DateOf(e);
    if sd < ed then
      ElapsedAcrossDays(c, s, e);
      ElapsedAsWritten(c, s, e)
    else if sd == ed then
      EndPartBefore(c.borders, TimeOf(s));
      EndPartBefore(c.borders, TimeOf(e));
      if IsWorkday(c, sd) then EndPart(c.borders, TimeOf(e)) - EndPart(c.borders, TimeOf(s)) else 0
    else
      ElapsedAcrossDays(c, e, s);
      0 - ElapsedAsWritten(c, e, s)
  }

  /** The span counts business seconds one by one. */
  lemma ElapsedIsCount(c: Config, s: int, e: int)
    requires OrderedBorders(c.borders) && s <= e
    ensures Elapsed(c, s, e) == BusinessSeconds(c, s, e)
  {
    BusinessIsCount(c, s, e);
  }
}
