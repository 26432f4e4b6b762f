/** Adding and subtracting business time: walk the windows left on the
    start day, skip whole working days, then walk the windows of the
    landing day. */
module Shift {
  import opened Config
  import opened Workdays
  import opened Clock
  import opened Borders

  /** Where a walk over windows stops: inside window k at offset off from
      its start (or from its end, walking backwards), or past all of them
      with rem seconds still to go. */
  datatype Outcome = Land(k: int, off: int) | Beyond(rem: int)

  /** Walks the windows in stored order, taking each whole while more than
      its width remains. */
  function Consume(ws: seq<TimeBorder>, rem: int): (r: Outcome)
    ensures r.Beyond? ==> r.rem == rem - SumWidths(ws)
    ensures r.Beyond? && |ws| > 0 ==> r.rem > 0
    ensures r.Land? ==> 0 <= r.k < |ws| && r.off == rem - SumWidths(ws[..r.k])
    ensures r.Land? ==> r.off <= Width(ws[r.k]) && (r.k > 0 ==> r.off > 0)
  {
    if |ws| == 0 then Beyond(rem)
    else if rem <= Width(ws[0]) then
      assert ws[..0] == [];
      Land(0, rem)
    else
      match Consume(ws[1..], rem - Width(ws[0]))
      case Land(k, o) =>
        assert ws[..k + 1][1..] == ws[1..][..k];
        Land(k + 1, o)
      case Beyond(rest) => Beyond(rest)
  }

  /** Walks the windows from the last one back, the same way. */
  function ConsumeBack(ws: seq<TimeBorder>, rem: int): (r: Outcome)
    ensures r.Beyond? ==> r.rem == rem - SumWidths(ws)
    ensures r.Beyond? && |ws| > 0 ==> r.rem > 0
    ensures r.Land? ==> 0 <= r.k < |ws| && r.off == rem - SumWidths(ws[r.k + 1..])
    ensures r.Land? ==> r.off <= Width(ws[r.k]) && (r.k < |ws| - 1 ==> r.off > 0)
  {
    if |ws| == 0 then Beyond(rem)
    else
      var i := |ws| - 1;
      SumWidthsSnoc(ws, i);
      assert ws[..i + 1] == ws;
      if rem <= Width(ws[i]) then
        assert ws[i + 1..] == [];
        Land(i, rem)
      else
        match ConsumeBack(ws[..i], rem - Width(ws[i]))
        case Land(k, o) =>
          assert ws[k + 1..] == ws[..i][k + 1..] + [ws[i]];
          SumWidthsAppend(ws[..i][k + 1..], [ws[i]]);
          Land(k, o)
        case Beyond(rest) => Beyond(rest)
  }

  /** Splits rem into whole working days of w seconds and what is left,
      at most one day and positive when rem is: days counts the day the
      rest lands on. */
  function SkipDays(rem: int, w: int): (s: (int, int))
    requires w >= 1
    ensures s.0 >= 1 && s.1 <= w
    ensures rem == (s.0 - 1) * w + s.1
    ensures rem > 0 ==> s.1 > 0
    ensures rem >= 0 ==> s.1 >= 0
    decreases rem
  {
    if rem <= w then (1, rem)
    else
      var (n, r) := SkipDays(rem - w, w);
      Distribute(n - 1, 1, w);
      (n + 1, r)
  }

  /** Where a forward walk stopping at offset off of window b on day d
      ends: at that offset, or, when the offset is the whole window, on the
      next border after the window's end. */
  function Place(c: Config, d: int, b: TimeBorder, off: int): int
    requires HasWorkingWeekday(c) && |c.borders| > 0 && TimesOfDay(c.borders)
  {
    if off == Width(b) then NextBorder(c, At(d, b.end)).at else At(d, b.start) + off
  }

  /** On a working day, an instant within window i (its end included) has
      the business time of the windows before i plus its offset into i. */
  lemma PrefixInWindow(c: Config, d: int, i: int, t: int)
    requires OrderedBorders(c.borders) && IsWorkday(c, d)
    requires 0 <= i < |c.borders| && c.borders[i].start <= t <= c.borders[i].end
    ensures Prefix(c, At(d, t))
      == CumDays(c, d) * SumWidths(c.borders) + SumWidths(c.borders[..i]) + (t - c.borders[i].start)
  {
    BeforeInside(c.borders, i, t);
    PrefixAt(c, d, t);
  }

  lemma PlaceInside(c: Config, d: int, i: int, off: int)
    requires HasWorkingWeekday(c) && ValidBorders(c.borders) && IsWorkday(c, d)
    requires 0 <= i < |c.borders| && 0 <= off < Width(c.borders[i])
    ensures IsBusiness(c, Place(c, d, c.borders[i], off))
    ensures Place(c, d, c.borders[i], off) >= At(d, c.borders[i].start)
    ensures Prefix(c, Place(c, d, c.borders[i], off))
      == CumDays(c, d) * SumWidths(c.borders) + SumWidths(c.borders[..i]) + off
  {
    var bs := c.borders;
    var t := bs[i].start + off;
    assert Place(c, d, bs[i], off) == At(d, t);
    PrefixInWindow(c, d, i, t);
    AtParts(d, t);
    assert InBorder(bs[i], t);
  }

  /** Outside business time the next border is a window start with the
      same business time since day 0. */
  lemma RollForward(c: Config, z: int)
    requires HasWorkingWeekday(c) && ValidBorders(c.borders) && !IsBusiness(c, z)
    ensures NextBorder(c, z).kind == BorderStart && IsBusiness(c, NextBorder(c, z).at)
    ensures NextBorder(c, z).at > z && Prefix(c, NextBorder(c, z).at) == Prefix(c, z)
  {
    NextBorderOutside(c, z);
    BusinessNone(c, z, NextBorder(c, z).at);
  }

  lemma PlaceRoll(c: Config, d: int, i: int)
    requires HasWorkingWeekday(c) && ValidBorders(c.borders) && IsWorkday(c, d)
    requires 0 <= i < |c.borders|
    ensures IsBusiness(c, Place(c, d, c.borders[i], Width(c.borders[i])))
    ensures Place(c, d, c.borders[i], Width(c.borders[i])) >= At(d, c.borders[i].start)
    ensures Prefix(c, Place(c, d, c.borders[i], Width(c.borders[i])))
      == CumDays(c, d) * SumWidths(c.borders) + SumWidths(c.borders[..i]) + Width(c.borders[i])
    ensures NextBorder(c, At(d, c.borders[i].end)).kind == BorderStart
  {
    var bs := c.borders;
    var z := At(d, bs[i].end);
    PrefixInWindow(c, d, i, bs[i].end);
    AtParts(d, bs[i].end);
    EndOutside(bs, i);
    RollForward(c, z);
  }

  /** A forward landing is a business instant whose business time since
      the start of day 0 is that of the windows before it plus the offset;
      a landing on a window's end rolls on to a window start. */
  lemma PlaceCorrect(c: Config, d: int, i: int, off: int)
    requires HasWorkingWeekday(c) && ValidBorders(c.borders) && IsWorkday(c, d)
    requires 0 <= i < |c.borders| && 0 <= off <= Width(c.borders[i])
    ensures IsBusiness(c, Place(c, d, c.borders[i], off))
    ensures Place(c, d, c.borders[i], off) >= At(d, c.borders[i].start)
    ensures Prefix(c, Place(c, d, c.borders[i], off))
      == CumDays(c, d) * SumWidths(c.borders) + SumWidths(c.borders[..i]) + off
    ensures off == Width(c.borders[i]) ==>
      NextBorder(c, At(d, c.borders[i].end)).kind == BorderStart
  {
    if off == Width(c.borders[i]) {
      PlaceRoll(c, d, i);
    } else {
      PlaceInside(c, d, i, off);
    }
  }

  /** Whether x lies inside a window of a working day, as the forward walk
      tests it: a business instant whose next border is a window end. */
  predicate Inside(c: Config, x: int)
    requires HasWorkingWeekday(c) && |c.borders| > 0 && TimesOfDay(c.borders)
  {
    CheckWorkdayIntraday(c, x) && NextBorder(c, x).kind == BorderEnd
  }

  /** What is left to add once the rest of x's window is used up. */
  function AfterWindow(c: Config, x: int, delta: int): int
    requires HasWorkingWeekday(c) && |c.borders| > 0 && TimesOfDay(c.borders)
  {
    if Inside(c, x) then delta - (NextBorder(c, x).at - x) else delta
  }

  /** The windows of x's day starting at or after the next border. */
  function LaterWindows(c: Config, x: int): seq<TimeBorder>
    requires HasWorkingWeekday(c) && |c.borders| > 0 && TimesOfDay(c.borders)
  {
    SelectBorders(c.borders, StartEdge, AtLeast, TimeOf(NextBorder(c, x).at))
  }

  /** Adding no more than the rest of a stretch of business time [x, e):
      x moved on by delta, or the next window start when delta reaches e. */
  lemma WithinStretch(c: Config, x: int, e: int, delta: int)
    requires HasWorkingWeekday(c) && ValidBorders(c.borders)
    requires 0 <= delta <= e - x && !IsBusiness(c, e)
    requires forall w :: x <= w < e ==> IsBusiness(c, w)
    ensures var y := if delta == e - x then NextBorder(c, x + delta).at else x + delta;
      IsBusiness(c, y) && x <= y && Business(c, x, y) == delta
    ensures delta == e - x ==> NextBorder(c, x + delta).kind == BorderStart
  {
    BusinessAll(c, x, x + delta);
    if delta == e - x {
      RollForward(c, x + delta);
    } else {
      assert x <= x + delta < e;
    }
  }

  /** Adding no more than the rest of x's window. */
  lemma AddWithinWindow(c: Config, x: int, delta: int, y: int)
    requires HasWorkingWeekday(c) && ValidBorders(c.borders)
    requires Inside(c, x) && delta <= NextBorder(c, x).at - x
    requires y == if delta == NextBorder(c, x).at - x then NextBorder(c, x + delta).at else x + delta
    ensures delta >= 0 ==> IsBusiness(c, y) && x <= y && Business(c, x, y) == delta
    ensures delta == NextBorder(c, x).at - x ==> NextBorder(c, x + delta).kind == BorderStart
  {
    NextBorderInside(c, x);
    if delta >= 0 {
      WithinStretch(c, x, NextBorder(c, x).at, delta);
    }
  }

  /** Inside a window the next border is that window's end, on the same
      day. */
  lemma InsideSameDay(c: Config, x: int)
    requires HasWorkingWeekday(c) && ValidBorders(c.borders)
    ensures Inside(c, x) ==> DateOf(NextBorder(c, x).at) == DateOf(x)
  {
    if Inside(c, x) {
      NextBorderInside(c, x);
      AtParts(DateOf(x), c.borders[StartsUpTo(c.borders, TimeOf(x)) - 1].end);
    }
  }

  /** A stretch of business time from x to the end of window j - 1 of x's
      working day: the business time up to that end, and the windows after
      it. */
  lemma StretchToEnd(c: Config, x: int, j: int)
    requires ValidBorders(c.borders) && IsWorkday(c, DateOf(x)) && 0 < j <= |c.borders|
    requires x <= At(DateOf(x), c.borders[j - 1].end)
    requires forall w :: x <= w < At(DateOf(x), c.borders[j - 1].end) ==> IsBusiness(c, w)
    ensures Prefix(c, x) + (At(DateOf(x), c.borders[j - 1].end) - x)
      == CumDays(c, DateOf(x)) * SumWidths(c.borders) + SumWidths(c.borders[..j])
    ensures SelectBorders(c.borders, StartEdge, AtLeast, c.borders[j - 1].end) == c.borders[j..]
    ensures j < |c.borders| ==> At(DateOf(x), c.borders[j - 1].end) < At(DateOf(x), c.borders[j].start)
  {
    var bs := c.borders;
    var d := DateOf(x);
    var e := bs[j - 1].end;
    BusinessAll(c, x, At(d, e));
    PrefixInWindow(c, d, j - 1, e);
    SumWidthsSnoc(bs, j - 1);
    assert forall i :: 0 <= i < j - 1 ==> bs[i].end < bs[j - 1].start;
    assert forall i :: j <= i < |bs| ==> bs[j - 1].end < bs[i].start;
    SelectSuffix(bs, StartEdge, AtLeast, e, j);
  }

  /** Past the end of x's window the walk goes on with the windows after
      it, having counted the business time up to their first start. */
  lemma AddEntryInside(c: Config, x: int, delta: int)
    requires HasWorkingWeekday(c) && ValidBorders(c.borders)
    requires Inside(c, x)
    ensures var j := StartsUpTo(c.borders, TimeOf(x));
      && IsWorkday(c, DateOf(x))
      && DateOf(NextBorder(c, x).at) == DateOf(x)
      && LaterWindows(c, x) == c.borders[j..]
      && Prefix(c, x) + (delta - AfterWindow(c, x, delta))
        == CumDays(c, DateOf(x)) * SumWidths(c.borders) + SumWidths(c.borders[..j])
      && (j < |c.borders| ==> x < At(DateOf(x), c.borders[j].start))
  {
    var bs := c.borders;
    var d, t := DateOf(x), TimeOf(x);
    var j := StartsUpTo(bs, t);
    NextBorderInside(c, x);
    AtParts(d, bs[j - 1].end);
    StretchToEnd(c, x, j);
  }

  /** Outside the windows of a working day, before window j: the business
      time up to t is that of the windows before j, and the windows from
      j's start on are the ones from j. */
  lemma GapBeforeStart(c: Config, d: int, t: int)
    requires ValidBorders(c.borders) && IsWorkday(c, d) && 0 <= t < DaySeconds
    requires !InWindow(c.borders, t) && StartsUpTo(c.borders, t) < |c.borders|
    ensures var j := StartsUpTo(c.borders, t);
      && Prefix(c, At(d, t)) == CumDays(c, d) * SumWidths(c.borders) + SumWidths(c.borders[..j])
      && SelectBorders(c.borders, StartEdge, AtLeast, c.borders[j].start) == c.borders[j..]
      && t < c.borders[j].start
  {
    var bs := c.borders;
    var j := StartsUpTo(bs, t);
    StartsUpToSplit(bs, t);
    Slot(bs, t);
    BeforeGap(bs, j, t);
    PrefixAt(c, d, t);
    assert forall i :: j < i < |bs| ==> bs[j].end < bs[i].start;
    SelectSuffix(bs, StartEdge, AtLeast, bs[j].start, j);
  }

  /** The least start above t is that of the first window starting after
      t. */
  lemma LeastStartIsNext(bs: seq<TimeBorder>, t: int)
    requires OrderedBorders(bs) && LeastStartAbove(bs, t).Some?
    ensures StartsUpTo(bs, t) < |bs|
    ensures LeastStartAbove(bs, t).value == bs[StartsUpTo(bs, t)].start
  {
    var j := StartsUpTo(bs, t);
    StartsUpToSplit(bs, t);
    var s := LeastStartAbove(bs, t).value;
    var i :| 0 <= i < |bs| && bs[i].start == s;
    assert i >= j;
    OrderByStarts(bs, i, j);
  }

  /** Outside business time, when the next border is on the same day, the
      walk starts with the windows from the next start on, nothing counted
      yet. */
  lemma AddEntryOutside(c: Config, x: int, delta: int)
    requires HasWorkingWeekday(c) && ValidBorders(c.borders)
    requires !Inside(c, x) && DateOf(NextBorder(c, x).at) == DateOf(x)
    ensures var j := StartsUpTo(c.borders, TimeOf(x));
      && IsWorkday(c, DateOf(x))
      && j < |c.borders|
      && LaterWindows(c, x) == c.borders[j..]
      && AfterWindow(c, x, delta) == delta
      && Prefix(c, x) == CumDays(c, DateOf(x)) * SumWidths(c.borders) + SumWidths(c.borders[..j])
      && x < At(DateOf(x), c.borders[j].start)
  {
    var bs := c.borders;
    var d, t := DateOf(x), TimeOf(x);
    Parts(x);
    AtParts(NthNextWorkday(c, d, 1), FirstStart(bs));
    assert IsWorkday(c, d) && LeastStartAbove(bs, t).Some?;
    LeastStartIsNext(bs, t);
    AtParts(d, LeastStartAbove(bs, t).value);
    GapBeforeStart(c, d, t);
  }

  /** With no business instant from x up to a later date, x has the
      business time of the start of the next day. */
  lemma NoneUntilNextDay(c: Config, x: int, e: int)
    requires OrderedBorders(c.borders) && x < e && DateOf(x) < DateOf(e)
    requires forall w :: x <= w < e ==> !IsBusiness(c, w)
    ensures Prefix(c, x) == CumDays(c, DateOf(x) + 1) * SumWidths(c.borders)
  {
    var z := At(DateOf(x) + 1, 0);
    AtParts(DateOf(x) + 1, 0);
    Order(z, e);
    Order(x, z);
    BusinessNone(c, x, z);
    PrefixAt(c, DateOf(x) + 1, 0);
    EndOfDay(c.borders);
  }

  /** When the next border is on a later day, nothing of x's day is left. */
  lemma AddLaterDay(c: Config, x: int)
    requires HasWorkingWeekday(c) && ValidBorders(c.borders)
    requires !Inside(c, x) && DateOf(NextBorder(c, x).at) != DateOf(x)
    ensures Prefix(c, x) == CumDays(c, DateOf(x) + 1) * SumWidths(c.borders)
  {
    NextBorderOutside(c, x);
    Order(x, NextBorder(c, x).at);
    NoneUntilNextDay(c, x, NextBorder(c, x).at);
  }

  /** The windows j.. of a sequence, taken k at a time from the front. */
  lemma SumWidthsMiddle(bs: seq<TimeBorder>, j: int, k: int)
    requires 0 <= j && 0 <= k && j + k <= |bs|
    ensures SumWidths(bs[..j + k]) == SumWidths(bs[..j]) + SumWidths(bs[j..][..k])
  {
    assert bs[..j + k] == bs[..j] + bs[j..][..k];
    SumWidthsAppend(bs[..j], bs[j..][..k]);
  }

  lemma SumWidthsMiddleAt(bs: seq<TimeBorder>, j: int, k: int)
    requires 0 <= j && 0 <= k && j + k < |bs|
    ensures SumWidths(bs[..j + k]) == SumWidths(bs[..j]) + SumWidths(bs[j..][..k])
    ensures bs[j..][k] == bs[j + k]
  {
    SumWidthsMiddle(bs, j, k);
  }

  /** From the windows j.. of x's working day with rem still to add: a
      landing on that day is delta past x in business time; walking past
      them leaves what the following days must supply. */
  lemma AddSameDay(c: Config, x: int, delta: int, j: int, rem: int)
    requires HasWorkingWeekday(c) && ValidBorders(c.borders) && IsWorkday(c, DateOf(x))
    requires 0 <= j <= |c.borders| && (j < |c.borders| || rem > 0)
    requires Prefix(c, x) + (delta - rem)
      == CumDays(c, DateOf(x)) * SumWidths(c.borders) + SumWidths(c.borders[..j])
    requires j < |c.borders| ==> x < At(DateOf(x), c.borders[j].start)
    ensures var o := Consume(c.borders[j..], rem);
      rem >= 0 && o.Land? ==>
        0 <= o.off <= Width(c.borders[j..][o.k]) &&
        var y := Place(c, DateOf(x), c.borders[j..][o.k], o.off);
        IsBusiness(c, y) && x < y && Prefix(c, y) == Prefix(c, x) + delta
    ensures var o := Consume(c.borders[j..], rem);
      rem >= 0 && o.Beyond? ==>
        o.rem >= 0 && Prefix(c, x) + delta - o.rem == CumDays(c, DateOf(x) + 1) * SumWidths(c.borders)
  {
    var o := Consume(c.borders[j..], rem);
    if rem >= 0 {
      if o.Land? {
        SumWidthsMiddleAt(c.borders, j, o.k);
        LandSameDay(c, x, delta, j, rem, o.k, o.off);
      } else {
        BeyondSameDay(c, x, delta, j, rem, o.rem);
      }
    }
  }

  lemma LandSameDay(c: Config, x: int, delta: int, j: int, rem: int, k: int, off: int)
    requires HasWorkingWeekday(c) && ValidBorders(c.borders) && IsWorkday(c, DateOf(x))
    requires 0 <= j && 0 <= k && j + k < |c.borders|
    requires Prefix(c, x) + (delta - rem)
      == CumDays(c, DateOf(x)) * SumWidths(c.borders) + SumWidths(c.borders[..j])
    requires x < At(DateOf(x), c.borders[j].start)
    requires 0 <= off <= Width(c.borders[j + k])
    requires SumWidths(c.borders[..j + k]) + off == SumWidths(c.borders[..j]) + rem
    ensures var y := Place(c, DateOf(x), c.borders[j + k], off);
      IsBusiness(c, y) && x < y && Prefix(c, y) == Prefix(c, x) + delta
  {
    PlaceCorrect(c, DateOf(x), j + k, off);
    StartsAscending(c.borders, j, j + k);
  }

  lemma BeyondSameDay(c: Config, x: int, delta: int, j: int, rem: int, r: int)
    requires ValidBorders(c.borders) && IsWorkday(c, DateOf(x))
    requires 0 <= j <= |c.borders| && (j < |c.borders| || rem > 0)
    requires Prefix(c, x) + (delta - rem)
      == CumDays(c, DateOf(x)) * SumWidths(c.borders) + SumWidths(c.borders[..j])
    requires r == rem - SumWidths(c.borders[j..]) && (j < |c.borders| ==> r > 0)
    ensures r >= 0 && Prefix(c, x) + delta - r == CumDays(c, DateOf(x) + 1) * SumWidths(c.borders)
  {
    var bs := c.borders;
    var d := DateOf(x);
    SumWidthsSplit(bs, j);
    CumDaysNext(c, d);
    Distribute(CumDays(c, d), 1, SumWidths(bs));
  }

  /** The n-th working day after d starts n - 1 working days of business
      time after the day following d. */
  lemma NthNextDayStart(c: Config, d: int, n: int)
    requires HasWorkingWeekday(c) && n >= 1
    ensures NthNextWorkday(c, d, n) >= d + 1
    ensures CumDays(c, NthNextWorkday(c, d, n)) * SumWidths(c.borders)
      == CumDays(c, d + 1) * SumWidths(c.borders) + (n - 1) * SumWidths(c.borders)
  {
    var day := NthNextWorkday(c, d, n);
    CountLastWorkday(c, d + 1, day);
    DaysApart(c, d + 1, day, n - 1);
  }

  /** Dropping a working last day from a range drops one from its count. */
  lemma CountLastWorkday(c: Config, lo: int, hi: int)
    requires lo <= hi && IsWorkday(c, hi)
    ensures CountWorkdays(c, lo, hi - 1) == CountWorkdays(c, lo, hi) - 1
  {
    CountSplit(c, lo, hi, hi);
    WorkdaysInLow(c, hi, hi);
    assert WorkdaysIn(c, hi + 1, hi) == [];
  }

  /** Two days m working days apart start m working days of business
      time apart. */
  lemma DaysApart(c: Config, a: int, b: int, m: int)
    requires a <= b && CountWorkdays(c, a, b - 1) == m
    ensures CumDays(c, b) * SumWidths(c.borders) == CumDays(c, a) * SumWidths(c.borders) + m * SumWidths(c.borders)
  {
    CumDaysDiff(c, a, b);
    Distribute(CumDays(c, a), m, SumWidths(c.borders));
  }

  /** The source's last phase: the windows of the landing day in stored
      order, rest seconds in; x is what the source falls back to when the
      windows cannot take the rest. */
  function LandOn(c: Config, x: int, day: int, rest: int): (y: int)
    requires HasWorkingWeekday(c) && ValidBorders(c.borders)
    ensures IsWorkday(c, day) && 0 <= rest <= SumWidths(c.borders) ==>
      && IsBusiness(c, y) && y >= At(day, 0)
      && Prefix(c, y) == CumDays(c, day) * SumWidths(c.borders) + rest
  {
    var bs := c.borders;
    var o := Consume(bs, rest);
    if o.Land? then
      LandOnWindow(c, day, rest, o.k, o.off);
      Place(c, day, bs[o.k], o.off)
    else x
  }

  lemma LandOnWindow(c: Config, day: int, rest: int, k: int, off: int)
    requires HasWorkingWeekday(c) && ValidBorders(c.borders)
    requires 0 <= k < |c.borders| && off <= Width(c.borders[k]) && (k > 0 ==> off > 0)
    requires off == rest - SumWidths(c.borders[..k])
    ensures IsWorkday(c, day) && rest >= 0 ==>
      var y := Place(c, day, c.borders[k], off);
      && IsBusiness(c, y) && y >= At(day, 0)
      && Prefix(c, y) == CumDays(c, day) * SumWidths(c.borders) + rest
  {
    if IsWorkday(c, day) && rest >= 0 {
      assert k == 0 ==> c.borders[..k] == [];
      PlaceCorrect(c, day, k, off);
    }
  }

  /** The source's last two phases: whole working days of business time
      after day d, then the windows of the landing day. */
  function FromNextDays(c: Config, x: int, d: int, r: int): (y: int)
    requires HasWorkingWeekday(c) && ValidBorders(c.borders)
    ensures r >= 0 ==> IsBusiness(c, y) && y >= At(d + 1, 0)
    ensures r >= 0 ==> Prefix(c, y) == CumDays(c, d + 1) * SumWidths(c.borders) + r
  {
    var w := SumWidths(c.borders);
    SumWidthsAtLeast(c.borders);
    var s := SkipDays(r, w);
    var day := NthNextWorkday(c, d, s.0);
    SkipToDay(c, d, r);
    LandOn(c, x, day, s.1)
  }

  /** The landing day of the whole-day skip, and the business time up to
      it plus the rest being the business time up to day d + 1 plus r. */
  lemma SkipToDay(c: Config, d: int, r: int)
    requires HasWorkingWeekday(c) && ValidBorders(c.borders) && SumWidths(c.borders) >= 1
    ensures var s := SkipDays(r, SumWidths(c.borders));
      var day := NthNextWorkday(c, d, s.0);
      && day >= d + 1
      && CumDays(c, day) * SumWidths(c.borders) + s.1 == CumDays(c, d + 1) * SumWidths(c.borders) + r
  {
    var w := SumWidths(c.borders);
    var s := SkipDays(r, w);
    var day := NthNextWorkday(c, d, s.0);
    NthNextDayStart(c, d, s.0);
    DaysThenRest(CumDays(c, day), CumDays(c, d + 1), s.0 - 1, w, s.1, r);
  }

  /** Whole days of w seconds, then rest seconds into the landing day. */
  lemma DaysThenRest(kd: int, ka: int, m: int, w: int, rest: int, r: int)
    requires kd * w == ka * w + m * w
    requires r == m * w + rest
    ensures kd * w + rest == ka * w + r
  {
  }

  /** Entering the walk over the rest of x's day, whether x was inside a
      window (and delta reaches past its end) or outside. */
  lemma AddEntry(c: Config, x: int, delta: int)
    requires HasWorkingWeekday(c) && ValidBorders(c.borders)
    requires !(Inside(c, x) && delta <= NextBorder(c, x).at - x)
    requires DateOf(NextBorder(c, x).at) == DateOf(x)
    ensures var j := StartsUpTo(c.borders, TimeOf(x));
      && IsWorkday(c, DateOf(x))
      && LaterWindows(c, x) == c.borders[j..]
      && Prefix(c, x) + (delta - AfterWindow(c, x, delta))
        == CumDays(c, DateOf(x)) * SumWidths(c.borders) + SumWidths(c.borders[..j])
      && (j < |c.borders| ==> x < At(DateOf(x), c.borders[j].start))
      && (j < |c.borders| || AfterWindow(c, x, delta) > 0)
      && (delta >= 0 ==> AfterWindow(c, x, delta) >= 0)
  {
    if Inside(c, x) {
      AddEntryInside(c, x, delta);
    } else {
      AddEntryOutside(c, x, delta);
    }
  }

  /** Every instant comes before the start of the next day. */
  lemma BeforeNextDay(x: int)
    ensures x < At(DateOf(x) + 1, 0)
  {
    Parts(x);
  }

  /** The forward shift once the walk has moved past x's window on x's
      own day: the later windows of the day, then the following days. */
  function ThroughDay(c: Config, x: int, delta: int): (y: int)
    requires HasWorkingWeekday(c) && ValidBorders(c.borders)
    requires !(Inside(c, x) && delta <= NextBorder(c, x).at - x)
    requires DateOf(NextBorder(c, x).at) == DateOf(x)
    ensures delta >= 0 ==> IsBusiness(c, y) && x < y && Prefix(c, y) == Prefix(c, x) + delta
  {
    var d := DateOf(x);
    var rem := AfterWindow(c, x, delta);
    var j := StartsUpTo(c.borders, TimeOf(x));
    AddEntry(c, x, delta);
    AddSameDay(c, x, delta, j, rem);
    BeforeNextDay(x);
    var o := Consume(LaterWindows(c, x), rem);
    if o.Land? then Place(c, d, LaterWindows(c, x)[o.k], o.off)
    else FromNextDays(c, x, d, o.rem)
  }

  /** The forward shift ending within x's own window. */
  function InWindowShift(c: Config, x: int, delta: int): (y: int)
    requires HasWorkingWeekday(c) && ValidBorders(c.borders)
    requires Inside(c, x) && delta <= NextBorder(c, x).at - x
    ensures delta >= 0 ==> IsBusiness(c, y) && x <= y && Business(c, x, y) == delta
  {
    var y := if delta == NextBorder(c, x).at - x then NextBorder(c, x + delta).at else x + delta;
    AddWithinWindow(c, x, delta, y);
    y
  }

  /** The forward shift when nothing of x's day is left. */
  function NextDaysShift(c: Config, x: int, delta: int): (y: int)
    requires HasWorkingWeekday(c) && ValidBorders(c.borders)
    requires DateOf(NextBorder(c, x).at) != DateOf(x)
    ensures delta >= 0 ==> IsBusiness(c, y) && x <= y && Business(c, x, y) == delta
  {
    InsideSameDay(c, x);
    AddLaterDay(c, x);
    BeforeNextDay(x);
    FromNextDays(c, x, DateOf(x), delta)
  }

  /** The source's forward shift by delta seconds of business time: the
      rest of x's window, then the later windows of its day, then whole
      working days, then the windows of the landing day.  A landing on a
      window's end moves on to the next window start.  For delta >= 0 the
      result is the business instant delta seconds of business time after
      x. */
  function Add(c: Config, x: int, delta: int): (y: int)
    requires HasWorkingWeekday(c) && ValidBorders(c.borders)
    ensures delta >= 0 ==> IsBusiness(c, y) && x <= y && Business(c, x, y) == delta
  {
    if Inside(c, x) && delta <= NextBorder(c, x).at - x then InWindowShift(c, x, delta)
    else if DateOf(NextBorder(c, x).at) == DateOf(x) then ThroughDay(c, x, delta)
    else NextDaysShift(c, x, delta)
  }
}
