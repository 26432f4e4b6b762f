/** Subtracting business time: walk back through the windows before the
    start instant on its own day, skip whole working days, then walk the
    windows of the landing day from its last one back. */
module Subtract {
  import opened Config
  import opened Workdays
  import opened Clock
  import opened Borders
  import opened Shift
  import opened Span

  /** Where a backward walk stopping off seconds before the end of window
      b on day d ends. */
  function PlaceBack(d: int, b: TimeBorder, off: int): int {
    At(d, b.end) - off
  }

  /** A backward landing strictly inside window i is a business instant
      whose business time since the start of day 0 is that of the windows
      up to and including i, less the offset. */
  lemma PlaceBackCorrect(c: Config, d: int, i: int, off: int)
    requires OrderedBorders(c.borders) && IsWorkday(c, d)
    requires 0 <= i < |c.borders| && 0 < off <= Width(c.borders[i])
    ensures IsBusiness(c, PlaceBack(d, c.borders[i], off))
    ensures At(d, c.borders[i].start) <= PlaceBack(d, c.borders[i], off) < At(d, c.borders[i].end)
    ensures Prefix(c, PlaceBack(d, c.borders[i], off))
      == CumDays(c, d) * SumWidths(c.borders) + SumWidths(c.borders[..i + 1]) - off
  {
    var bs := c.borders;
    var t := bs[i].end - off;
    assert PlaceBack(d, bs[i], off) == At(d, t);
    PrefixInWindow(c, d, i, t);
    SumWidthsSnoc(bs, i);
    AtParts(d, t);
    assert InBorder(bs[i], t);
  }

  /** Whether y lies inside a window of a working day, as the backward
      walk tests it: a business instant whose previous border is a window
      start. */
  predicate InsideBack(c: Config, y: int)
    requires HasWorkingWeekday(c) && |c.borders| > 0 && ProperBorders(c.borders)
  {
    CheckWorkdayIntraday(c, y) && PreviousBorder(c, y, false).kind == BorderStart
  }

  /** The backward walk treats y as inside exactly when it is a business
      instant other than a window start. */
  lemma InsideBackIff(c: Config, y: int)
    requires HasWorkingWeekday(c) && ValidBorders(c.borders)
    ensures InsideBack(c, y) <==> IsBusiness(c, y) && !IsEdgeTime(c.borders, StartEdge, TimeOf(y))
  {
    if IsBusiness(c, y) && !IsEdgeTime(c.borders, StartEdge, TimeOf(y)) {
      PreviousBorderInside(c, y, false);
    } else {
      PreviousBorderOutside(c, y, false);
    }
  }

  /** What is left to subtract once the part of y's window before y is
      used up. */
  function BeforeWindow(c: Config, y: int, delta: int): int
    requires HasWorkingWeekday(c) && |c.borders| > 0 && ProperBorders(c.borders)
  {
    if InsideBack(c, y) then delta - (y - PreviousBorder(c, y, false).at) else delta
  }

  /** The windows of y's day ending at or before the previous border. */
  function EarlierWindows(c: Config, y: int): seq<TimeBorder>
    requires HasWorkingWeekday(c) && |c.borders| > 0 && ProperBorders(c.borders)
  {
    SelectBorders(c.borders, EndEdge, AtMost, TimeOf(PreviousBorder(c, y, false).at))
  }

  /** Taking no more than a stretch of business time [s, y] back from y. */
  lemma WithinStretchBack(c: Config, s: int, y: int, delta: int)
    requires OrderedBorders(c.borders) && 0 <= delta <= y - s
    requires forall w :: s <= w <= y ==> IsBusiness(c, w)
    ensures IsBusiness(c, y - delta) && Business(c, y - delta, y) == delta
  {
    BusinessAll(c, y - delta, y);
    assert s <= y - delta <= y;
  }

  /** Subtracting no more than the part of y's window before y. */
  lemma SubWithinWindow(c: Config, y: int, delta: int)
    requires HasWorkingWeekday(c) && ValidBorders(c.borders)
    requires InsideBack(c, y) && delta <= y - PreviousBorder(c, y, false).at
    ensures delta >= 1 ==> IsBusiness(c, y - delta) && y - delta < y && Business(c, y - delta, y) == delta
  {
    InsideBackIff(c, y);
    PreviousBorderInside(c, y, false);
    if delta >= 1 {
      WithinStretchBack(c, PreviousBorder(c, y, false).at, y, delta);
    }
  }

  /** A stretch of business time from the start of window j - 1 of a
      working day d up to y: the business time before that start, and the
      windows ending by it. */
  lemma StretchFromStart(c: Config, d: int, j: int, y: int)
    requires OrderedBorders(c.borders) && IsWorkday(c, d) && 0 < j <= |c.borders|
    requires At(d, c.borders[j - 1].start) <= y
    requires forall w :: At(d, c.borders[j - 1].start) <= w < y ==> IsBusiness(c, w)
    ensures Prefix(c, y) - (y - At(d, c.borders[j - 1].start))
      == CumDays(c, d) * SumWidths(c.borders) + SumWidths(c.borders[..j - 1])
    ensures SelectBorders(c.borders, EndEdge, AtMost, c.borders[j - 1].start) == c.borders[..j - 1]
    ensures j > 1 ==> At(d, c.borders[j - 2].end) < At(d, c.borders[j - 1].start)
  {
    var bs := c.borders;
    var s := bs[j - 1].start;
    PrefixInWindow(c, d, j - 1, s);
    BusinessAll(c, At(d, s), y);
    assert forall i :: 0 <= i < j - 1 ==> bs[i].end < s;
    assert forall i :: j - 1 < i < |bs| ==> bs[j - 1].end < bs[i].start;
    SelectPrefix(bs, EndEdge, AtMost, s, j - 1);
  }

  /** Inside a window and subtracting past its start: the walk goes on
      with the windows ending by that start, the stretch from it to y
      counted. */
  lemma SubEntryInside(c: Config, y: int, delta: int)
    requires HasWorkingWeekday(c) && ValidBorders(c.borders)
    requires InsideBack(c, y) && delta > y - PreviousBorder(c, y, false).at
    ensures var m := EndsUpTo(c.borders, TimeOf(y));
      && IsWorkday(c, DateOf(y))
      && DateOf(PreviousBorder(c, y, false).at) == DateOf(y)
      && EarlierWindows(c, y) == c.borders[..m]
      && Prefix(c, y) - (delta - BeforeWindow(c, y, delta))
        == CumDays(c, DateOf(y)) * SumWidths(c.borders) + SumWidths(c.borders[..m])
      && (m > 0 ==> At(DateOf(y), c.borders[m - 1].end) < y)
      && BeforeWindow(c, y, delta) > 0
  {
    var bs := c.borders;
    var d, t := DateOf(y), TimeOf(y);
    InsideBackIff(c, y);
    PreviousBorderInside(c, y, false);
    var j := StartsUpTo(bs, t);
    Slot(bs, t);
    AtParts(d, bs[j - 1].start);
    StretchFromStart(c, d, j, y);
  }

  /** Outside a window (or on a start), a previous border on y's own date
      is the latest window end at or before y on a working day. */
  lemma PreviousEndSameDay(c: Config, y: int)
    requires HasWorkingWeekday(c) && ValidBorders(c.borders)
    requires !InsideBack(c, y)
    ensures DateOf(PreviousBorder(c, y, false).at) == DateOf(y) ==>
      && IsWorkday(c, DateOf(y)) && GreatestEndAtMost(c.borders, TimeOf(y)).Some?
      && PreviousBorder(c, y, false).at == At(DateOf(y), GreatestEndAtMost(c.borders, TimeOf(y)).value)
  {
    var bs := c.borders;
    InsideBackIff(c, y);
    if !(IsWorkday(c, DateOf(y)) && GreatestEndAtMost(bs, TimeOf(y)).Some?) {
      AtParts(NthPreviousWorkday(c, DateOf(y), 1), LastEnd(bs));
    }
  }

  /** The latest window end at or before t closes the last of the windows
      ending by t, and those windows are the ones ending by it. */
  lemma GreatestEndIsLast(bs: seq<TimeBorder>, t: int)
    requires OrderedBorders(bs) && GreatestEndAtMost(bs, t).Some?
    ensures EndsUpTo(bs, t) > 0
    ensures GreatestEndAtMost(bs, t).value == bs[EndsUpTo(bs, t) - 1].end
    ensures SelectBorders(bs, EndEdge, AtMost, bs[EndsUpTo(bs, t) - 1].end) == bs[..EndsUpTo(bs, t)]
  {
    var m := EndsUpTo(bs, t);
    EndsUpToSplit(bs, t);
    var e := GreatestEndAtMost(bs, t).value;
    var i :| 0 <= i < |bs| && bs[i].end == e;
    assert bs[i].end <= t;
    assert i < m;
    assert bs[m - 1].end <= e;
    OrderByEnds(bs, m - 1, i);
    assert i == m - 1;
    EndsByLast(bs, m);
  }

  lemma EndsByLast(bs: seq<TimeBorder>, m: int)
    requires OrderedBorders(bs) && 0 < m <= |bs|
    ensures SelectBorders(bs, EndEdge, AtMost, bs[m - 1].end) == bs[..m]
  {
    assert forall k :: 0 <= k < m - 1 ==> bs[k].end < bs[m - 1].end;
    assert forall k :: m - 1 < k < |bs| ==> bs[m - 1].end < bs[k].end;
    SelectPrefix(bs, EndEdge, AtMost, bs[m - 1].end, m);
  }

  /** Outside a window with the previous border on y's own date: the walk
      takes the windows ending by y, nothing counted yet. */
  lemma SubEntryOutside(c: Config, y: int, delta: int)
    requires HasWorkingWeekday(c) && ValidBorders(c.borders)
    requires !InsideBack(c, y) && DateOf(PreviousBorder(c, y, false).at) == DateOf(y)
    ensures var m := EndsUpTo(c.borders, TimeOf(y));
      && IsWorkday(c, DateOf(y))
      && EarlierWindows(c, y) == c.borders[..m]
      && BeforeWindow(c, y, delta) == delta
      && Prefix(c, y) == CumDays(c, DateOf(y)) * SumWidths(c.borders) + SumWidths(c.borders[..m])
      && m > 0 && At(DateOf(y), c.borders[m - 1].end) <= y
  {
    var bs := c.borders;
    var d, t := DateOf(y), TimeOf(y);
    InsideBackIff(c, y);
    PreviousBorderOutside(c, y, false);
    PreviousEndSameDay(c, y);
    GreatestEndIsLast(bs, t);
    var m := EndsUpTo(bs, t);
    AtParts(d, bs[m - 1].end);
    PrefixInWindow(c, d, m - 1, bs[m - 1].end);
    SumWidthsSnoc(bs, m - 1);
    BusinessNone(c, At(d, bs[m - 1].end), y);
  }

  /** With no business instant from s up to y, on an earlier date, y has
      the business time of the start of its own day. */
  lemma NoneSinceDayStart(c: Config, s: int, y: int)
    requires OrderedBorders(c.borders) && s <= y && DateOf(s) < DateOf(y)
    requires forall w :: s <= w < y ==> !IsBusiness(c, w)
    ensures Prefix(c, y) == CumDays(c, DateOf(y)) * SumWidths(c.borders)
  {
    var z := At(DateOf(y), 0);
    AtParts(DateOf(y), 0);
    Order(s, z);
    Order(z, y);
    BusinessNone(c, z, y);
    PrefixAt(c, DateOf(y), 0);
    EndOfDay(c.borders);
  }

  /** With the previous border on an earlier date, nothing of y's day is
      behind it. */
  lemma SubEarlierDay(c: Config, y: int)
    requires HasWorkingWeekday(c) && ValidBorders(c.borders)
    requires DateOf(PreviousBorder(c, y, false).at) != DateOf(y)
    ensures !InsideBack(c, y)
    ensures Prefix(c, y) == CumDays(c, DateOf(y)) * SumWidths(c.borders)
  {
    InsideBackIff(c, y);
    if IsBusiness(c, y) && !IsEdgeTime(c.borders, StartEdge, TimeOf(y)) {
      PreviousBorderInside(c, y, false);
      AtParts(DateOf(y), c.borders[StartsUpTo(c.borders, TimeOf(y)) - 1].start);
    } else {
      PreviousBorderOutside(c, y, false);
      Order(PreviousBorder(c, y, false).at, y);
      NoneSinceDayStart(c, PreviousBorder(c, y, false).at, y);
    }
  }

  /** Entering the walk back over the earlier windows of y's day, whether
      y was inside a window (and delta reaches past its start) or not. */
  lemma SubEntry(c: Config, y: int, delta: int)
    requires HasWorkingWeekday(c) && ValidBorders(c.borders)
    requires !(InsideBack(c, y) && delta <= y - PreviousBorder(c, y, false).at)
    requires DateOf(PreviousBorder(c, y, false).at) == DateOf(y)
    ensures var m := EndsUpTo(c.borders, TimeOf(y));
      && IsWorkday(c, DateOf(y))
      && EarlierWindows(c, y) == c.borders[..m]
      && Prefix(c, y) - (delta - BeforeWindow(c, y, delta))
        == CumDays(c, DateOf(y)) * SumWidths(c.borders) + SumWidths(c.borders[..m])
      && (m > 0 ==> At(DateOf(y), c.borders[m - 1].end) <= y)
      && (m > 0 || BeforeWindow(c, y, delta) > 0)
      && (delta >= 1 ==> BeforeWindow(c, y, delta) >= 1)
  {
    if InsideBack(c, y) {
      SubEntryInside(c, y, delta);
    } else {
      SubEntryOutside(c, y, delta);
    }
  }

  /** A backward landing in window k of the windows ending by y, rem
      seconds into the walk, is delta before y in business time. */
  lemma LandSameDayBack(c: Config, y: int, delta: int, m: int, rem: int, k: int, off: int)
    requires OrderedBorders(c.borders) && IsWorkday(c, DateOf(y))
    requires 0 <= k < m <= |c.borders| && 0 < off <= Width(c.borders[k])
    requires Prefix(c, y) - (delta - rem)
      == CumDays(c, DateOf(y)) * SumWidths(c.borders) + SumWidths(c.borders[..m])
    requires At(DateOf(y), c.borders[m - 1].end) <= y
    requires SumWidths(c.borders[..k + 1]) - off == SumWidths(c.borders[..m]) - rem
    ensures var z := PlaceBack(DateOf(y), c.borders[k], off);
      IsBusiness(c, z) && z < y && Prefix(c, z) == Prefix(c, y) - delta
  {
    PlaceBackCorrect(c, DateOf(y), k, off);
    EndsAscending(c.borders, k, m - 1);
  }

  /** The windows ..m split after window k: the ones up to k and the
      rest of the ..m windows. */
  lemma PrefixSplit(bs: seq<TimeBorder>, m: int, k: int)
    requires 0 <= k < m <= |bs|
    ensures SumWidths(bs[..m]) == SumWidths(bs[..k + 1]) + SumWidths(bs[..m][k + 1..])
    ensures bs[..m][k] == bs[k]
  {
    SumWidthsSplit(bs[..m], k + 1);
    assert bs[..m][..k + 1] == bs[..k + 1];
  }

  /** From the windows ..m of y's working day with rem still to take,
      walking from the last of them back: a landing on that day is delta
      before y in business time; walking past them leaves what the earlier
      days must supply. */
  lemma SubSameDay(c: Config, y: int, delta: int, m: int, rem: int)
    requires OrderedBorders(c.borders) && IsWorkday(c, DateOf(y))
    requires 0 <= m <= |c.borders| && (m > 0 || rem > 0)
    requires Prefix(c, y) - (delta - rem)
      == CumDays(c, DateOf(y)) * SumWidths(c.borders) + SumWidths(c.borders[..m])
    requires m > 0 ==> At(DateOf(y), c.borders[m - 1].end) <= y
    ensures var o := ConsumeBack(c.borders[..m], rem);
      rem >= 1 && o.Land? ==>
        0 < o.off <= Width(c.borders[..m][o.k]) &&
        var z := PlaceBack(DateOf(y), c.borders[..m][o.k], o.off);
        IsBusiness(c, z) && z < y && Prefix(c, z) == Prefix(c, y) - delta
    ensures var o := ConsumeBack(c.borders[..m], rem);
      rem >= 1 && o.Beyond? ==>
        o.rem >= 1 && Prefix(c, y) - delta + o.rem == CumDays(c, DateOf(y)) * SumWidths(c.borders)
  {
    var bs := c.borders;
    var ws := bs[..m];
    var o := ConsumeBack(ws, rem);
    if rem >= 1 && o.Land? {
      var k := o.k;
      PrefixSplit(bs, m, k);
      LandSameDayBack(c, y, delta, m, rem, k, o.off);
    }
  }

  /** The source's walk over the same windows in stored order lands on a
      business instant before y, though not in general delta before it. */
  lemma SubSameDayAscending(c: Config, y: int, m: int, rem: int)
    requires OrderedBorders(c.borders) && IsWorkday(c, DateOf(y))
    requires 0 <= m <= |c.borders|
    requires m > 0 ==> At(DateOf(y), c.borders[m - 1].end) <= y
    ensures var o := Consume(c.borders[..m], rem);
      rem >= 1 && o.Land? ==>
        0 < o.off <= Width(c.borders[..m][o.k]) &&
        var z := PlaceBack(DateOf(y), c.borders[..m][o.k], o.off);
        IsBusiness(c, z) && z < y
    ensures var o := Consume(c.borders[..m], rem);
      rem >= 1 && o.Beyond? ==> o.rem >= 1
  {
    var bs := c.borders;
    var o := Consume(bs[..m], rem);
    if rem >= 1 && o.Land? {
      assert o.k == 0 ==> bs[..m][..0] == [];
      assert bs[..m][o.k] == bs[o.k];
      PlaceBackCorrect(c, DateOf(y), o.k, o.off);
      EndsAscending(bs, o.k, m - 1);
    }
  }

  /** The source's last phase backwards: the windows of the landing day
      from the last one back, rest seconds in; y is what the source falls
      back to when the windows cannot take the rest. */
  function LandBackOn(c: Config, y: int, day: int, rest: int): (z: int)
    requires ValidBorders(c.borders)
    ensures IsWorkday(c, day) && 1 <= rest <= SumWidths(c.borders) ==>
      && IsBusiness(c, z) && z < At(day + 1, 0)
      && Prefix(c, z) == CumDays(c, day) * SumWidths(c.borders) + SumWidths(c.borders) - rest
  {
    var bs := c.borders;
    var o := ConsumeBack(bs, rest);
    if o.Land? then
      LandBackOnWindow(c, day, rest, o.k, o.off);
      PlaceBack(day, bs[o.k], o.off)
    else y
  }

  lemma LandBackOnWindow(c: Config, day: int, rest: int, k: int, off: int)
    requires ValidBorders(c.borders)
    requires 0 <= k < |c.borders| && off <= Width(c.borders[k]) && (k < |c.borders| - 1 ==> off > 0)
    requires off == rest - SumWidths(c.borders[k + 1..])
    ensures IsWorkday(c, day) && rest >= 1 ==>
      var z := PlaceBack(day, c.borders[k], off);
      && IsBusiness(c, z) && z < At(day + 1, 0)
      && Prefix(c, z) == CumDays(c, day) * SumWidths(c.borders) + SumWidths(c.borders) - rest
  {
    var bs := c.borders;
    if IsWorkday(c, day) && rest >= 1 {
      assert k == |bs| - 1 ==> bs[k + 1..] == [];
      SumWidthsSplit(bs, k + 1);
      PlaceBackCorrect(c, day, k, off);
    }
  }

  /** The source's last two phases backwards: whole working days of
      business time before day d, then the windows of the landing day. */
  function FromPreviousDays(c: Config, y: int, d: int, r: int): (z: int)
    requires HasWorkingWeekday(c) && ValidBorders(c.borders)
    ensures r >= 1 ==> IsBusiness(c, z) && z < At(d, 0)
    ensures r >= 1 ==> Prefix(c, z) == CumDays(c, d) * SumWidths(c.borders) - r
  {
    var w := SumWidths(c.borders);
    SumWidthsAtLeast(c.borders);
    var s := SkipDays(r, w);
    var n, rest := s.0, s.1;
    var day := NthPreviousWorkday(c, d, n);
    var z := LandBackOn(c, y, day, rest);
    DaysApart(c, day, d, n);
    var landed := IsWorkday(c, day) && 1 <= rest <= w;
    assert r >= 1 ==> landed;
    DaysBeforeRest(c, day, d, n, rest, z, landed);
    assert r == (n - 1) * w + rest;
    z
  }

  lemma DaysBeforeRest(c: Config, day: int, d: int, n: int, rest: int, z: int, landed: bool)
    requires day < d
    requires CumDays(c, d) * SumWidths(c.borders) == CumDays(c, day) * SumWidths(c.borders) + n * SumWidths(c.borders)
    requires landed ==> z < At(day + 1, 0)
    requires landed ==> Prefix(c, z) == CumDays(c, day) * SumWidths(c.borders) + SumWidths(c.borders) - rest
    ensures landed ==> Prefix(c, z) == CumDays(c, d) * SumWidths(c.borders) - ((n - 1) * SumWidths(c.borders) + rest)
    ensures landed ==> z < At(d, 0)
  {
    Distribute(n - 1, 1, SumWidths(c.borders));
  }

  /** The backward shift once the walk has moved past y's window on y's
      own day: the earlier windows of the day, taken from the last one
      back or, as the source does, in stored order, then the earlier
      days. */
  function SubThroughDay(c: Config, y: int, delta: int, ascending: bool): (z: int)
    requires HasWorkingWeekday(c) && ValidBorders(c.borders)
    requires !(InsideBack(c, y) && delta <= y - PreviousBorder(c, y, false).at)
    requires DateOf(PreviousBorder(c, y, false).at) == DateOf(y)
    ensures delta >= 1 ==> IsBusiness(c, z) && z < y
    ensures !ascending && delta >= 1 ==> Prefix(c, z) == Prefix(c, y) - delta
  {
    var d := DateOf(y);
    var rem := BeforeWindow(c, y, delta);
    var m := EndsUpTo(c.borders, TimeOf(y));
    SubEntry(c, y, delta);
    SubSameDay(c, y, delta, m, rem);
    SubSameDayAscending(c, y, m, rem);
    Parts(y);
    var ws := EarlierWindows(c, y);
    var o := if ascending then Consume(ws, rem) else ConsumeBack(ws, rem);
    if o.Land? then PlaceBack(d, ws[o.k], o.off)
    else FromPreviousDays(c, y, d, o.rem)
  }

  /** The backward shift ending within y's own window. */
  function SubInWindow(c: Config, y: int, delta: int): (z: int)
    requires HasWorkingWeekday(c) && ValidBorders(c.borders)
    requires InsideBack(c, y) && delta <= y - PreviousBorder(c, y, false).at
    ensures delta >= 1 ==> IsBusiness(c, z) && z < y && Business(c, z, y) == delta
  {
    SubWithinWindow(c, y, delta);
    y - delta
  }

  /** The backward shift when nothing of y's day lies behind it. */
  function PreviousDaysShift(c: Config, y: int, delta: int): (z: int)
    requires HasWorkingWeekday(c) && ValidBorders(c.borders)
    requires DateOf(PreviousBorder(c, y, false).at) != DateOf(y)
    ensures delta >= 1 ==> IsBusiness(c, z) && z < y && Business(c, z, y) == delta
  {
    SubEarlierDay(c, y);
    Parts(y);
    FromPreviousDays(c, y, DateOf(y), delta)
  }

  /** The backward shift by delta seconds of business time: the part of
      y's window before y, then the earlier windows of its day, then whole
      working days, then the windows of the landing day from its last one
      back.  ascending walks the earlier windows of y's day in stored
      order, as the source does. */
  function SubWalk(c: Config, y: int, delta: int, ascending: bool): (z: int)
    requires HasWorkingWeekday(c) && ValidBorders(c.borders)
    ensures delta >= 1 ==> IsBusiness(c, z) && z < y
    ensures !ascending && delta >= 1 ==> Business(c, z, y) == delta
  {
    if InsideBack(c, y) && delta <= y - PreviousBorder(c, y, false).at then SubInWindow(c, y, delta)
    else if DateOf(PreviousBorder(c, y, false).at) == DateOf(y) then SubThroughDay(c, y, delta, ascending)
    else PreviousDaysShift(c, y, delta)
  }

  /** sub_workday_intraday_datetime as written: it lands on a business
      instant before y, but the earlier windows of y's own day are walked
      in stored order, so a landing there can miss by whole windows. */
  function SubAsWritten(c: Config, y: int, delta: int): (z: int)
    requires HasWorkingWeekday(c) && ValidBorders(c.borders)
    ensures delta >= 1 ==> IsBusiness(c, z) && z < y
  {
    SubWalk(c, y, delta, true)
  }

  /** The backward shift with the earlier windows of y's day walked from
      the last one back: for delta >= 1 the business instant delta seconds
      of business time before y. */
  function Sub(c: Config, y: int, delta: int): (z: int)
    requires HasWorkingWeekday(c) && ValidBorders(c.borders)
    ensures delta >= 1 ==> IsBusiness(c, z) && z < y && Business(c, z, y) == delta
  {
    SubWalk(c, y, delta, false)
  }

  /** At or before the first window start of y's day, or on a day that is
      no working day, the previous border of y lies on an earlier date. */
  lemma PreviousBorderEarlierDate(c: Config, y: int)
    requires HasWorkingWeekday(c) && ValidBorders(c.borders)
    requires TimeOf(y) <= c.borders[0].start || !IsWorkday(c, DateOf(y))
    ensures DateOf(PreviousBorder(c, y, false).at) < DateOf(y)
  {
    var bs, d, t := c.borders, DateOf(y), TimeOf(y);
    Parts(y);
    if IsWorkday(c, d) {
      assert GreatestEndAtMost(bs, t).None? by {
        forall i | 0 <= i < |bs| ensures bs[i].end > t {
          if i > 0 {
            assert bs[0].end < bs[i].start;
          }
        }
      }
      if CheckWorkdayIntraday(c, y) {
        var i :| 0 <= i < |bs| && InBorder(bs[i], t);
        assert i == 0;
        assert EdgeOf(bs[0], StartEdge) == t;
      }
    }
    AtParts(NthPreviousWorkday(c, d, 1), LastEnd(bs));
  }

  /** With the previous border of y on an earlier date the source's walk
      never reaches the earlier windows of y's day, so the shift as written
      is the corrected one. */
  lemma SubAsWrittenEarlierDay(c: Config, y: int, delta: int)
    requires HasWorkingWeekday(c) && ValidBorders(c.borders)
    requires DateOf(PreviousBorder(c, y, false).at) != DateOf(y)
    ensures SubAsWritten(c, y, delta) == Sub(c, y, delta)
  {
    SubEarlierDay(c, y);
  }

  /** From a day start up to the first window start, or from a day that is
      no working day, the shift as written lands delta seconds of business
      time back, as intended: this covers the documented example from
      midnight and the repository's tests, which shift back from 00:00 of a
      non-working day and from the 09:00 start. */
  lemma SubAsWrittenFromDayStart(c: Config, y: int, delta: int)
    requires HasWorkingWeekday(c) && ValidBorders(c.borders)
    requires TimeOf(y) <= c.borders[0].start || !IsWorkday(c, DateOf(y))
    ensures SubAsWritten(c, y, delta) == Sub(c, y, delta)
    ensures delta >= 1 ==> Business(c, SubAsWritten(c, y, delta), y) == delta
  {
    PreviousBorderEarlierDate(c, y);
    SubAsWrittenEarlierDay(c, y, delta);
  }

  /** Business time of the default windows before 10:30, 14:00 and 16:00. */
  lemma DefaultBeforeAfternoon()
    ensures Before(DefaultBorders, 37800) == 5400
    ensures Before(DefaultBorders, 50400) == 14400
    ensures Before(DefaultBorders, 57600) == 18000
  {
    assert DefaultBorders[1..][1..] == [];
  }

  /** Outside the windows of a working day, after some window end: the
      previous border is the latest end, on the same day, and the earlier
      windows are those ending by the time of day. */
  lemma PreviousBorderAfterEnd(c: Config, y: int)
    requires HasWorkingWeekday(c) && ValidBorders(c.borders)
    requires IsWorkday(c, DateOf(y)) && !InWindow(c.borders, TimeOf(y))
    requires GreatestEndAtMost(c.borders, TimeOf(y)).Some?
    ensures !InsideBack(c, y)
    ensures DateOf(PreviousBorder(c, y, false).at) == DateOf(y)
    ensures EarlierWindows(c, y) == c.borders[..EndsUpTo(c.borders, TimeOf(y))]
    ensures forall delta :: BeforeWindow(c, y, delta) == delta
  {
    var bs := c.borders;
    var t := TimeOf(y);
    InsideBackIff(c, y);
    GreatestEndIsLast(bs, t);
    AtParts(DateOf(y), GreatestEndAtMost(bs, t).value);
  }

  /** 16:00 on Monday 2021-01-04 under the default windows: after both
      window ends. */
  lemma DefaultEvening()
    ensures var c := DefaultConfig([]);
      && IsWorkday(c, DateOf(At(18631, 57600))) && TimeOf(At(18631, 57600)) == 57600
      && !InWindow(c.borders, 57600)
      && GreatestEndAtMost(c.borders, 57600).Some?
      && EndsUpTo(c.borders, 57600) == 2
  {
    var c := DefaultConfig([]);
    DefaultMonday();
    AtParts(18631, 57600);
    assert !InBorder(c.borders[0], 57600) && !InBorder(c.borders[1], 57600);
    assert c.borders[1].end <= 57600;
    assert c.borders[1..][1..] == [];
  }

  /** Hence one hour back from 16:00 on Monday 2021-01-04 the source walks
      the default windows in stored order and stops in the morning one. */
  lemma SubAscendingEvening()
    ensures SubAsWritten(DefaultConfig([]), At(18631, 57600), 3600) == PlaceBack(18631, DefaultBorders[0], 3600)
  {
    var c := DefaultConfig([]);
    var y := At(18631, 57600);
    DefaultEvening();
    PreviousBorderAfterEnd(c, y);
    assert c.borders[..2] == DefaultBorders;
    assert Consume(DefaultBorders, 3600) == Land(0, 3600);
  }

  /** So the source lands at 10:30, three and a half hours of business
      time back, where the answer is 14:00. */
  lemma SubAscendingCounterexample()
    ensures var c := DefaultConfig([]);
      && SubAsWritten(c, At(18631, 57600), 3600) == At(18631, 37800)
      && Business(c, At(18631, 37800), At(18631, 57600)) == 12600
      && Sub(c, At(18631, 57600), 3600) == At(18631, 50400)
  {
    var c := DefaultConfig([]);
    var y := At(18631, 57600);
    SubAscendingEvening();
    DefaultMonday();
    DefaultBeforeAfternoon();
    BusinessSameDay(c, 18631, 37800, 57600);
    BusinessSameDay(c, 18631, 50400, 57600);
    AtParts(18631, 50400);
    assert InBorder(c.borders[1], 50400);
    BusinessToUnique(c, y, Sub(c, y, 3600), At(18631, 50400));
  }
}
