/** How the forward shift, the backward shift and the span fit together
    on business instants. */
module Laws {
  import opened Config
  import opened Workdays
  import opened Clock
  import opened Borders
  import opened Span
  import opened Shift
  import opened Subtract

  /** Shifting x on by the business time up to a later business instant y
      lands on y, and the span then gives that business time back. */
  lemma AddBusiness(c: Config, x: int, y: int)
    requires HasWorkingWeekday(c) && ValidBorders(c.borders)
    requires x <= y && IsBusiness(c, y)
    ensures Add(c, x, Business(c, x, y)) == y
    ensures Add(c, x, Elapsed(c, x, y)) == y
  {
    BusinessNonNegative(c, x, y);
    BusinessFromUnique(c, x, Add(c, x, Business(c, x, y)), y);
  }

  /** Shifting back from y by the business time since an earlier business
      instant x lands on x. */
  lemma SubBusiness(c: Config, x: int, y: int)
    requires HasWorkingWeekday(c) && ValidBorders(c.borders)
    requires x < y && IsBusiness(c, x)
    ensures Sub(c, y, Business(c, x, y)) == x
    ensures Sub(c, y, Elapsed(c, x, y)) == x
  {
    BusinessPositive(c, x, y);
    BusinessToUnique(c, y, Sub(c, y, Business(c, x, y)), x);
  }

  /** The same for the shift as written, when y is at or before the first
      window start of its day or on a day that is no working day, as in
      the repository's round trip from 2021-12-31 09:00. */
  lemma SubBusinessAsWritten(c: Config, x: int, y: int)
    requires HasWorkingWeekday(c) && ValidBorders(c.borders)
    requires x < y && IsBusiness(c, x)
    requires TimeOf(y) <= c.borders[0].start || !IsWorkday(c, DateOf(y))
    ensures SubAsWritten(c, y, Business(c, x, y)) == x
    ensures SubAsWritten(c, y, Elapsed(c, x, y)) == x
  {
    SubBusiness(c, x, y);
    SubAsWrittenFromDayStart(c, y, Business(c, x, y));
  }

  /** Back from a forward shift of a business instant: the start again. */
  lemma SubAdd(c: Config, x: int, delta: int)
    requires HasWorkingWeekday(c) && ValidBorders(c.borders)
    requires IsBusiness(c, x) && delta >= 1
    ensures Sub(c, Add(c, x, delta), delta) == x
  {
    var y := Add(c, x, delta);
    assert x != y;
    BusinessToUnique(c, y, Sub(c, y, delta), x);
  }

  /** Forward from a backward shift: the start again, business instant or
      not, since the backward shift lands on one. */
  lemma AddSub(c: Config, y: int, delta: int)
    requires HasWorkingWeekday(c) && ValidBorders(c.borders)
    requires IsBusiness(c, y) && delta >= 1
    ensures Add(c, Sub(c, y, delta), delta) == y
  {
    var z := Sub(c, y, delta);
    BusinessFromUnique(c, z, Add(c, z, delta), y);
  }

  /** Two forward shifts make one by the sum. */
  lemma AddAdd(c: Config, x: int, a: int, b: int)
    requires HasWorkingWeekday(c) && ValidBorders(c.borders)
    requires a >= 0 && b >= 0
    ensures Add(c, Add(c, x, a), b) == Add(c, x, a + b)
  {
    var y := Add(c, x, a);
    BusinessFromUnique(c, x, Add(c, y, b), Add(c, x, a + b));
  }

  /** Two backward shifts make one by the sum. */
  lemma SubSub(c: Config, y: int, a: int, b: int)
    requires HasWorkingWeekday(c) && ValidBorders(c.borders)
    requires a >= 1 && b >= 1
    ensures Sub(c, Sub(c, y, a), b) == Sub(c, y, a + b)
  {
    var z := Sub(c, y, a);
    BusinessToUnique(c, y, Sub(c, z, b), Sub(c, y, a + b));
  }

  /** Shifting by nothing moves to the nearest business instant at or
      after x. */
  lemma AddZero(c: Config, x: int)
    requires HasWorkingWeekday(c) && ValidBorders(c.borders)
    ensures Add(c, x, 0) == NearBorder(c, x, true).at
  {
    if IsBusiness(c, x) {
      BusinessFromUnique(c, x, x, Add(c, x, 0));
    } else {
      NearBorderGap(c, x, true);
      BusinessNone(c, x, NearBorder(c, x, true).at);
      BusinessFromUnique(c, x, NearBorder(c, x, true).at, Add(c, x, 0));
    }
  }
}
