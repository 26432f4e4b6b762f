/** Border navigation: from any instant to the next or previous window
    border on a working day, or to the nearest business instant. */
module Borders {
  import opened Config
  import opened Workdays
  import opened Clock

  /** The tag returned with a border instant. */
  datatype BorderKind = BorderStart | BorderEnd | BorderIntra

  datatype Border = Border(at: int, kind: BorderKind)

  /** The least window end above t, None when no window ends after t. */
  function LeastEndOver(bs: seq<TimeBorder>, t: int): (r: Option<int>)
    ensures r.None? <==> forall i :: 0 <= i < |bs| ==> bs[i].end <= t
    ensures r.Some? ==> t < r.value && exists i :: 0 <= i < |bs| && bs[i].end == r.value
    ensures r.Some? ==> forall i :: 0 <= i < |bs| && bs[i].end > t ==> r.value <= bs[i].end
  {
    if |bs| == 0 then None
    else
      var rest := LeastEndOver(bs[1..], t);
      assert forall i :: 1 <= i < |bs| ==> bs[i] == bs[1..][i - 1];
      if bs[0].end > t && (rest.None? || bs[0].end < rest.value) then Some(bs[0].end) else rest
  }

  /** The nearest window end above t, for t inside a window. */
  function LeastEndAbove(bs: seq<TimeBorder>, t: int): (e: int)
    requires InWindow(bs, t) && TimesOfDay(bs)
    ensures t < e < DaySeconds
    ensures exists i :: 0 <= i < |bs| && bs[i].end == e
    ensures forall i :: 0 <= i < |bs| && bs[i].end > t ==> e <= bs[i].end
  {
    var i :| 0 <= i < |bs| && InBorder(bs[i], t);
    LeastEndOver(bs, t).value
  }

  /** The nearest window start above t, None when no window starts later. */
  function LeastStartAbove(bs: seq<TimeBorder>, t: int): (r: Option<int>)
    requires TimesOfDay(bs)
    ensures r.None? <==> forall i :: 0 <= i < |bs| ==> bs[i].start <= t
    ensures r.Some? ==> t < r.value < DaySeconds
    ensures r.Some? ==> exists i :: 0 <= i < |bs| && bs[i].start == r.value
    ensures r.Some? ==> forall i :: 0 <= i < |bs| && bs[i].start > t ==> r.value <= bs[i].start
  {
    if |bs| == 0 then None
    else
      var rest := LeastStartAbove(bs[1..], t);
      assert forall i :: 1 <= i < |bs| ==> bs[i] == bs[1..][i - 1];
      if bs[0].start > t && (rest.None? || bs[0].start < rest.value) then Some(bs[0].start) else rest
  }

  /** The earliest window start of the day. */
  function FirstStart(bs: seq<TimeBorder>): (s: int)
    requires |bs| > 0 && TimesOfDay(bs)
    ensures 0 <= s < DaySeconds
    ensures exists i :: 0 <= i < |bs| && bs[i].start == s
    ensures forall i :: 0 <= i < |bs| ==> s <= bs[i].start
  {
    if |bs| == 1 then bs[0].start
    else
      var rest := FirstStart(bs[1..]);
      assert forall i :: 1 <= i < |bs| ==> bs[i] == bs[1..][i - 1];
      if bs[0].start < rest then bs[0].start else rest
  }

  /** get_next_border_workday_intraday.  Inside a window: that day's
      nearest window end above the time.  Otherwise: the nearest later
      window start of the same working day, or else the earliest start of
      the next working day. */
  function NextBorder(c: Config, x: int): (r: Border)
    requires HasWorkingWeekday(c) && |c.borders| > 0 && TimesOfDay(c.borders)
    ensures r.at > x && r.kind != BorderIntra
    ensures r.kind == BorderEnd <==> IsBusiness(c, x)
  {
    var bs := c.borders;
    var d, t := DateOf(x), TimeOf(x);
    Parts(x);
    if IsWorkday(c, d) && CheckWorkdayIntraday(c, x) then
      Border(At(d, LeastEndAbove(bs, t)), BorderEnd)
    else if IsWorkday(c, d) && LeastStartAbove(bs, t).Some? then
      Border(At(d, LeastStartAbove(bs, t).value), BorderStart)
    else
      Border(At(NthNextWorkday(c, d, 1), FirstStart(bs)), BorderStart)
  }

  /** A later time of the day is outside every window when the earlier
      one is and no window starts in between. */
  lemma NoWindowAfter(bs: seq<TimeBorder>, t: int, tw: int)
    requires !InWindow(bs, t) && t <= tw
    requires forall j :: 0 <= j < |bs| && bs[j].start > t ==> bs[j].start > tw
    ensures !InWindow(bs, tw)
  {
    forall j | 0 <= j < |bs| ensures !InBorder(bs[j], tw) {
      if bs[j].start <= t {
        assert !InBorder(bs[j], t);
      }
    }
  }

  lemma NextBorderSameDay(c: Config, x: int)
    requires HasWorkingWeekday(c) && |c.borders| > 0 && ProperBorders(c.borders)
    requires !IsBusiness(c, x)
    requires IsWorkday(c, DateOf(x)) && LeastStartAbove(c.borders, TimeOf(x)).Some?
    ensures NextBorder(c, x).kind == BorderStart
    ensures IsBusiness(c, NextBorder(c, x).at)
    ensures forall w :: x <= w < NextBorder(c, x).at ==> !IsBusiness(c, w)
  {
    var bs := c.borders;
    var d, t := DateOf(x), TimeOf(x);
    var r := NextBorder(c, x);
    var s := LeastStartAbove(bs, t).value;
    assert r.at == At(d, s);
    AtParts(d, s);
    var i :| 0 <= i < |bs| && bs[i].start == s;
    assert InBorder(bs[i], s);
    forall w | x <= w < r.at ensures !IsBusiness(c, w) {
      Order(x, w);
      Order(w, r.at);
      assert DateOf(w) == d && t <= TimeOf(w) < s;
      NoWindowAfter(bs, t, TimeOf(w));
    }
  }

  lemma NextBorderLaterDay(c: Config, x: int)
    requires HasWorkingWeekday(c) && |c.borders| > 0 && ProperBorders(c.borders)
    requires !IsBusiness(c, x)
    requires !(IsWorkday(c, DateOf(x)) && LeastStartAbove(c.borders, TimeOf(x)).Some?)
    ensures NextBorder(c, x).kind == BorderStart
    ensures IsBusiness(c, NextBorder(c, x).at)
    ensures forall w :: x <= w < NextBorder(c, x).at ==> !IsBusiness(c, w)
  {
    var bs := c.borders;
    var d, t := DateOf(x), TimeOf(x);
    var r := NextBorder(c, x);
    var n := NthNextWorkday(c, d, 1);
    var f := FirstStart(bs);
    assert r.at == At(n, f);
    assert n == FirstWorkdayFrom(c, d + 1);
    AtParts(n, f);
    var i :| 0 <= i < |bs| && bs[i].start == f;
    assert InBorder(bs[i], f);
    forall w | x <= w < r.at ensures !IsBusiness(c, w) {
      Order(x, w);
      Order(w, r.at);
      var dw, tw := DateOf(w), TimeOf(w);
      if dw == d {
        if IsWorkday(c, d) {
          NoWindowAfter(bs, t, tw);
        }
      } else if dw < n {
        assert !IsWorkday(c, dw);
      } else {
        assert tw < f;
      }
    }
  }

  /** Outside business time the next border is the first business instant
      after x: a window start, with no business instant in between. */
  lemma NextBorderOutside(c: Config, x: int)
    requires HasWorkingWeekday(c) && |c.borders| > 0 && ProperBorders(c.borders)
    requires !IsBusiness(c, x)
    ensures NextBorder(c, x).kind == BorderStart
    ensures IsBusiness(c, NextBorder(c, x).at)
    ensures forall w :: x <= w < NextBorder(c, x).at ==> !IsBusiness(c, w)
  {
    if IsWorkday(c, DateOf(x)) && LeastStartAbove(c.borders, TimeOf(x)).Some? {
      NextBorderSameDay(c, x);
    } else {
      NextBorderLaterDay(c, x);
    }
  }

  /** The latest window start below t, None when no window starts before. */
  function GreatestStartBelow(bs: seq<TimeBorder>, t: int): (r: Option<int>)
    ensures r.None? <==> forall i :: 0 <= i < |bs| ==> bs[i].start >= t
    ensures r.Some? ==> r.value < t && exists i :: 0 <= i < |bs| && bs[i].start == r.value
    ensures r.Some? ==> forall i :: 0 <= i < |bs| && bs[i].start < t ==> bs[i].start <= r.value
  {
    if |bs| == 0 then None
    else
      var rest := GreatestStartBelow(bs[1..], t);
      assert forall i :: 1 <= i < |bs| ==> bs[i] == bs[1..][i - 1];
      if bs[0].start < t && (rest.None? || rest.value < bs[0].start) then Some(bs[0].start) else rest
  }

  /** The latest window end at or below t, None when no window ends by t. */
  function GreatestEndAtMost(bs: seq<TimeBorder>, t: int): (r: Option<int>)
    ensures r.None? <==> forall i :: 0 <= i < |bs| ==> bs[i].end > t
    ensures r.Some? ==> r.value <= t && exists i :: 0 <= i < |bs| && bs[i].end == r.value
    ensures r.Some? ==> forall i :: 0 <= i < |bs| && bs[i].end <= t ==> bs[i].end <= r.value
  {
    if |bs| == 0 then None
    else
      var rest := GreatestEndAtMost(bs[1..], t);
      assert forall i :: 1 <= i < |bs| ==> bs[i] == bs[1..][i - 1];
      if bs[0].end <= t && (rest.None? || rest.value < bs[0].end) then Some(bs[0].end) else rest
  }

  /** The latest window end of the day. */
  function LastEnd(bs: seq<TimeBorder>): (e: int)
    requires |bs| > 0
    ensures exists i :: 0 <= i < |bs| && bs[i].end == e
    ensures forall i :: 0 <= i < |bs| ==> bs[i].end <= e
  {
    if |bs| == 1 then bs[0].end
    else
      var rest := LastEnd(bs[1..]);
      assert forall i :: 1 <= i < |bs| ==> bs[i] == bs[1..][i - 1];
      if bs[0].end > rest then bs[0].end else rest
  }

  /** Whether t is the chosen edge of some window. */
  function IsEdgeTime(bs: seq<TimeBorder>, e: Edge, t: int): (r: bool)
    ensures r <==> exists i :: 0 <= i < |bs| && EdgeOf(bs[i], e) == t
  {
    if |bs| == 0 then false
    else
      assert forall i :: 1 <= i < |bs| ==> bs[i] == bs[1..][i - 1];
      EdgeOf(bs[0], e) == t || IsEdgeTime(bs[1..], e, t)
  }

  /** get_previous_border_workday_intraday.  Inside a window but not on its
      start: that window's start.  With forceIsEnd, on a window end: the
      latest start below it.  Otherwise: the latest end at or below the
      time on the same working day, or else the latest end of the previous
      working day. */
  function PreviousBorder(c: Config, x: int, forceIsEnd: bool): (r: Border)
    requires HasWorkingWeekday(c) && |c.borders| > 0 && ProperBorders(c.borders)
    ensures r.at <= x && r.kind != BorderIntra
    ensures r.kind == BorderStart ==> r.at < x && IsBusiness(c, r.at)
  {
    var bs := c.borders;
    var d, t := DateOf(x), TimeOf(x);
    Parts(x);
    if IsWorkday(c, d) && CheckWorkdayIntraday(c, x) && !IsEdgeTime(bs, StartEdge, t) then
      var s := GreatestStartBelow(bs, t).value;
      StartIsBusiness(c, d, s);
      Border(At(d, s), BorderStart)
    else if IsWorkday(c, d) && forceIsEnd && IsEdgeTime(bs, EndEdge, t) then
      var s := GreatestStartBelow(bs, t).value;
      StartIsBusiness(c, d, s);
      Border(At(d, s), BorderStart)
    else if IsWorkday(c, d) && GreatestEndAtMost(bs, t).Some? then
      AtParts(d, GreatestEndAtMost(bs, t).value);
      Border(At(d, GreatestEndAtMost(bs, t).value), BorderEnd)
    else
      var p := NthPreviousWorkday(c, d, 1);
      AtParts(p, LastEnd(bs));
      Border(At(p, LastEnd(bs)), BorderEnd)
  }

  /** A window start on a working day is a business instant. */
  lemma StartIsBusiness(c: Config, d: int, s: int)
    requires ProperBorders(c.borders) && IsWorkday(c, d)
    requires exists i :: 0 <= i < |c.borders| && c.borders[i].start == s
    ensures IsBusiness(c, At(d, s)) && DateOf(At(d, s)) == d && TimeOf(At(d, s)) == s
  {
    var i :| 0 <= i < |c.borders| && c.borders[i].start == s;
    assert InBorder(c.borders[i], s);
    AtParts(d, s);
  }

  /** get_near_workday_intraday: x itself inside business time, otherwise
      the next border (isAfter) or the previous one, never forced. */
  function NearBorder(c: Config, x: int, isAfter: bool): (r: Border)
    requires HasWorkingWeekday(c) && |c.borders| > 0 && ProperBorders(c.borders)
    ensures r.kind == BorderIntra <==> IsBusiness(c, x)
    ensures r.kind == BorderIntra ==> r.at == x
    ensures isAfter ==> r.at >= x
    ensures !isAfter ==> r.at <= x
  {
    if CheckWorkdayIntraday(c, x) then Border(x, BorderIntra)
    else if isAfter then NextBorder(c, x)
    else PreviousBorder(c, x, false)
  }

  /** Inside business time the next border is the end of the window
      holding x: everything from x up to it is business time, the end
      itself is not. */
  lemma NextBorderInside(c: Config, x: int)
    requires HasWorkingWeekday(c) && |c.borders| > 0 && OrderedBorders(c.borders)
    requires IsBusiness(c, x)
    ensures StartsUpTo(c.borders, TimeOf(x)) > 0
    ensures NextBorder(c, x) ==
      Border(At(DateOf(x), c.borders[StartsUpTo(c.borders, TimeOf(x)) - 1].end), BorderEnd)
    ensures forall w :: x <= w < NextBorder(c, x).at ==> IsBusiness(c, w)
    ensures !IsBusiness(c, NextBorder(c, x).at)
  {
    var bs := c.borders;
    var d, t := DateOf(x), TimeOf(x);
    var j := StartsUpTo(bs, t);
    LeastEndIsWindowEnd(bs, t);
    var r := NextBorder(c, x);
    AtParts(d, bs[j - 1].end);
    Parts(x);
    forall w | x <= w < r.at ensures IsBusiness(c, w) {
      Order(x, w);
      Order(w, r.at);
      assert InBorder(bs[j - 1], TimeOf(w));
    }
    EndOutside(bs, j - 1);
  }

  /** For ordered windows the nearest end above an inside time is the end
      of the window holding it. */
  lemma LeastEndIsWindowEnd(bs: seq<TimeBorder>, t: int)
    requires OrderedBorders(bs) && InWindow(bs, t)
    ensures StartsUpTo(bs, t) > 0
    ensures bs[StartsUpTo(bs, t) - 1].start <= t < bs[StartsUpTo(bs, t) - 1].end
    ensures LeastEndAbove(bs, t) == bs[StartsUpTo(bs, t) - 1].end
  {
    LeastEndIs(bs, t, LeastEndAbove(bs, t));
  }

  /** The same, for any time meeting the contract of LeastEndAbove. */
  lemma LeastEndIs(bs: seq<TimeBorder>, t: int, e: int)
    requires OrderedBorders(bs) && InWindow(bs, t)
    requires exists i :: 0 <= i < |bs| && bs[i].end == e
    requires forall i :: 0 <= i < |bs| && bs[i].end > t ==> e <= bs[i].end
    requires t < e
    ensures StartsUpTo(bs, t) > 0
    ensures bs[StartsUpTo(bs, t) - 1].start <= t < bs[StartsUpTo(bs, t) - 1].end
    ensures e == bs[StartsUpTo(bs, t) - 1].end
  {
    Slot(bs, t);
    StartsUpToSplit(bs, t);
    var j := StartsUpTo(bs, t);
    var i :| 0 <= i < |bs| && bs[i].end == e;
    OrderByEnds(bs, i, j - 1);
    OrderByStartEnd(bs, j - 1, i);
    assert i == j - 1;
    assert bs[j - 1].end == e;
  }

  /** For ordered windows the latest start below an inside, non-start time
      is the start of the window holding it. */
  lemma GreatestStartIsWindowStart(bs: seq<TimeBorder>, t: int)
    requires OrderedBorders(bs) && InWindow(bs, t) && !IsEdgeTime(bs, StartEdge, t)
    ensures StartsUpTo(bs, t) > 0
    ensures bs[StartsUpTo(bs, t) - 1].start < t < bs[StartsUpTo(bs, t) - 1].end
    ensures GreatestStartBelow(bs, t) == Some(bs[StartsUpTo(bs, t) - 1].start)
  {
    var g := GreatestStartBelow(bs, t);
    Slot(bs, t);
    StartsUpToSplit(bs, t);
    var j := StartsUpTo(bs, t);
    assert bs[j - 1].start != t;
    assert bs[j - 1].start < t;
    GreatestStartIs(bs, t, g.value, j);
  }

  /** The same, for any time meeting the contract of GreatestStartBelow
      when window j - 1 is the last to start by t and starts below it. */
  lemma GreatestStartIs(bs: seq<TimeBorder>, t: int, s: int, j: int)
    requires OrderedBorders(bs) && 0 < j <= |bs| && bs[j - 1].start < t
    requires forall k :: j <= k < |bs| ==> bs[k].start > t
    requires s < t && exists i :: 0 <= i < |bs| && bs[i].start == s
    requires forall i :: 0 <= i < |bs| && bs[i].start < t ==> bs[i].start <= s
    ensures s == bs[j - 1].start
  {
    var i :| 0 <= i < |bs| && bs[i].start == s;
    OrderByStarts(bs, j - 1, i);
  }

  /** Inside a window and not on its start, the previous border is that
      window's start, whatever forceIsEnd says: the stretch of business
      time holding x begins there. */
  lemma PreviousBorderInside(c: Config, x: int, forceIsEnd: bool)
    requires HasWorkingWeekday(c) && |c.borders| > 0 && OrderedBorders(c.borders)
    requires IsBusiness(c, x) && !IsEdgeTime(c.borders, StartEdge, TimeOf(x))
    ensures StartsUpTo(c.borders, TimeOf(x)) > 0
    ensures PreviousBorder(c, x, forceIsEnd) ==
      Border(At(DateOf(x), c.borders[StartsUpTo(c.borders, TimeOf(x)) - 1].start), BorderStart)
    ensures forall w :: PreviousBorder(c, x, forceIsEnd).at <= w <= x ==> IsBusiness(c, w)
  {
    var bs := c.borders;
    var d, t := DateOf(x), TimeOf(x);
    GreatestStartIsWindowStart(bs, t);
    var j := StartsUpTo(bs, t);
    var r := PreviousBorder(c, x, forceIsEnd);
    var s := bs[j - 1].start;
    assert CheckWorkdayIntraday(c, x);
    assert r.at == At(d, s);
    forall w | r.at <= w <= x ensures IsBusiness(c, w) {
      Between(d, s, x, w);
      assert InBorder(bs[j - 1], TimeOf(w));
    }
  }

  /** forceIsEnd on a window end of a working day: back to that window's
      start. */
  lemma PreviousBorderForced(c: Config, x: int, k: int)
    requires HasWorkingWeekday(c) && |c.borders| > 0 && OrderedBorders(c.borders)
    requires IsWorkday(c, DateOf(x)) && 0 <= k < |c.borders| && TimeOf(x) == c.borders[k].end
    ensures PreviousBorder(c, x, true) == Border(At(DateOf(x), c.borders[k].start), BorderStart)
  {
    var bs := c.borders;
    var t := TimeOf(x);
    EndOutside(bs, k);
    assert IsEdgeTime(bs, EndEdge, t) by {
      assert EdgeOf(bs[k], EndEdge) == t;
    }
    GreatestStartBelowEnd(bs, k);
  }

  lemma GreatestStartBelowEnd(bs: seq<TimeBorder>, k: int)
    requires OrderedBorders(bs) && 0 <= k < |bs|
    ensures GreatestStartBelow(bs, bs[k].end) == Some(bs[k].start)
  {
    var s := GreatestStartBelow(bs, bs[k].end).value;
    var i :| 0 <= i < |bs| && bs[i].start == s;
    assert bs[k].start <= s;
    assert forall a :: k < a < |bs| ==> bs[k].end < bs[a].start;
    assert forall a :: 0 <= a < k ==> bs[a].start < bs[k].start;
    assert i == k;
  }

  /** An earlier time of the day is outside every window when the later
      one is outside or on a start, and no window ends in between. */
  lemma NoWindowBefore(bs: seq<TimeBorder>, t: int, tw: int)
    requires OrderedBorders(bs) && tw < t
    requires InWindow(bs, t) ==> IsEdgeTime(bs, StartEdge, t)
    requires forall j :: 0 <= j < |bs| && bs[j].end <= t ==> bs[j].end <= tw
    ensures !InWindow(bs, tw)
  {
    if InWindow(bs, t) {
      var k :| 0 <= k < |bs| && EdgeOf(bs[k], StartEdge) == t;
      forall i | 0 <= i < |bs| ensures !InBorder(bs[i], tw) {
      }
    } else {
      forall i | 0 <= i < |bs| ensures !InBorder(bs[i], tw) {
      }
    }
  }

  /** The previous border outside business time (or on a start, unforced):
      the end of the latest stretch of business time before x. */
  predicate PreviousIsEnd(c: Config, x: int, forceIsEnd: bool) {
    && !(IsBusiness(c, x) && !IsEdgeTime(c.borders, StartEdge, TimeOf(x)))
    && !(forceIsEnd && IsWorkday(c, DateOf(x)) && IsEdgeTime(c.borders, EndEdge, TimeOf(x)))
  }

  /** Which branch of the previous border such an x takes. */
  lemma PreviousBorderIsEnd(c: Config, x: int, forceIsEnd: bool)
    requires HasWorkingWeekday(c) && |c.borders| > 0 && OrderedBorders(c.borders)
    requires PreviousIsEnd(c, x, forceIsEnd)
    requires IsWorkday(c, DateOf(x)) && GreatestEndAtMost(c.borders, TimeOf(x)).Some?
    ensures PreviousBorder(c, x, forceIsEnd)
      == Border(At(DateOf(x), GreatestEndAtMost(c.borders, TimeOf(x)).value), BorderEnd)
  {
    var bs, d, t := c.borders, DateOf(x), TimeOf(x);
    assert CheckWorkdayIntraday(c, x) == IsBusiness(c, x);
    assert !(IsWorkday(c, d) && CheckWorkdayIntraday(c, x) && !IsEdgeTime(bs, StartEdge, t));
    assert !(IsWorkday(c, d) && forceIsEnd && IsEdgeTime(bs, EndEdge, t));
  }

  lemma PreviousBorderSameDay(c: Config, x: int, forceIsEnd: bool)
    requires HasWorkingWeekday(c) && |c.borders| > 0 && OrderedBorders(c.borders)
    requires PreviousIsEnd(c, x, forceIsEnd)
    requires IsWorkday(c, DateOf(x)) && GreatestEndAtMost(c.borders, TimeOf(x)).Some?
    ensures PreviousBorder(c, x, forceIsEnd).kind == BorderEnd
    ensures IsBusiness(c, PreviousBorder(c, x, forceIsEnd).at - 1)
    ensures forall w :: PreviousBorder(c, x, forceIsEnd).at <= w < x ==> !IsBusiness(c, w)
  {
    var bs := c.borders;
    var d, t := DateOf(x), TimeOf(x);
    var r := PreviousBorder(c, x, forceIsEnd);
    var e := GreatestEndAtMost(bs, t).value;
    PreviousBorderIsEnd(c, x, forceIsEnd);
    assert r.at == At(d, e);
    var i :| 0 <= i < |bs| && bs[i].end == e;
    AtParts(d, e - 1);
    assert InBorder(bs[i], e - 1);
    AtParts(d, e);
    Parts(x);
    forall w | r.at <= w < x ensures !IsBusiness(c, w) {
      Order(r.at, w);
      Order(w, x);
      NoWindowBefore(bs, t, TimeOf(w));
    }
  }

  lemma PreviousBorderEarlierDay(c: Config, x: int, forceIsEnd: bool)
    requires HasWorkingWeekday(c) && |c.borders| > 0 && OrderedBorders(c.borders)
    requires PreviousIsEnd(c, x, forceIsEnd)
    requires !(IsWorkday(c, DateOf(x)) && GreatestEndAtMost(c.borders, TimeOf(x)).Some?)
    ensures PreviousBorder(c, x, forceIsEnd).kind == BorderEnd
    ensures IsBusiness(c, PreviousBorder(c, x, forceIsEnd).at - 1)
    ensures forall w :: PreviousBorder(c, x, forceIsEnd).at <= w < x ==> !IsBusiness(c, w)
  {
    var bs := c.borders;
    var d, t := DateOf(x), TimeOf(x);
    var r := PreviousBorder(c, x, forceIsEnd);
    var p := NthPreviousWorkday(c, d, 1);
    var l := LastEnd(bs);
    assert r.at == At(p, l);
    assert p == LastWorkdayUpTo(c, d - 1);
    var i :| 0 <= i < |bs| && bs[i].end == l;
    AtParts(p, l - 1);
    assert InBorder(bs[i], l - 1);
    AtParts(p, l);
    Parts(x);
    forall w | r.at <= w < x ensures !IsBusiness(c, w) {
      Order(r.at, w);
      Order(w, x);
      var dw, tw := DateOf(w), TimeOf(w);
      if dw == p {
        assert l <= tw;
      } else if dw < d {
        assert !IsWorkday(c, dw);
      } else if IsWorkday(c, d) {
        NoWindowBefore(bs, t, tw);
      }
    }
  }

  /** Outside business time, or on a window start, the previous border
      (unless forced back from a window end) is the end of the latest
      stretch of business time before x: the instant before it is business
      time and nothing from it up to x is. */
  lemma PreviousBorderOutside(c: Config, x: int, forceIsEnd: bool)
    requires HasWorkingWeekday(c) && |c.borders| > 0 && OrderedBorders(c.borders)
    requires PreviousIsEnd(c, x, forceIsEnd)
    ensures PreviousBorder(c, x, forceIsEnd).kind == BorderEnd
    ensures IsBusiness(c, PreviousBorder(c, x, forceIsEnd).at - 1)
    ensures forall w :: PreviousBorder(c, x, forceIsEnd).at <= w < x ==> !IsBusiness(c, w)
  {
    if IsWorkday(c, DateOf(x)) && GreatestEndAtMost(c.borders, TimeOf(x)).Some? {
      PreviousBorderSameDay(c, x, forceIsEnd);
    } else {
      PreviousBorderEarlierDay(c, x, forceIsEnd);
    }
  }

  /** Outside business time the forward near border is the first business
      instant after x, so taking the near border again changes nothing; the
      backward one is the end of the last stretch of business time before x. */
  lemma NearBorderGap(c: Config, x: int, isAfter: bool)
    requires HasWorkingWeekday(c) && |c.borders| > 0 && OrderedBorders(c.borders)
    requires !IsBusiness(c, x)
    ensures var r := NearBorder(c, x, isAfter);
      && (isAfter ==> r.kind == BorderStart && IsBusiness(c, r.at))
      && (isAfter ==> forall w :: x <= w < r.at ==> !IsBusiness(c, w))
      && (isAfter ==> NearBorder(c, r.at, true) == Border(r.at, BorderIntra))
      && (!isAfter ==> r.kind == BorderEnd && IsBusiness(c, r.at - 1))
      && (!isAfter ==> forall w :: r.at <= w <= x ==> !IsBusiness(c, w))
  {
    if isAfter {
      NextBorderOutside(c, x);
    } else {
      PreviousBorderOutside(c, x, false);
    }
  }
}
