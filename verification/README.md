# rs_workdays in Dafny

A model of the business-calendar engine of rs_workdays. The engine has
three layers, all driven by one configuration.

- **Configuration** (`config.dfy`, module `Config`). The configuration
  holds a holiday list, a set of holiday weekdays and an ordered list of
  intraday time borders (windows). The source keeps these in three
  process-wide locks. Here they form one immutable `Config` record that
  every query takes, and each setter returns a new record.
- **Day calendar.**
  - `workdays.dfy` (module `Workdays`) defines what a working day is, the
    trimmed range listing `get_workdays`, and reference definitions of
    the n-th next or previous working day.
  - `walks.dfy` (module `Walks`) holds the source's single-cursor walks
    over the holiday list as loops. Each is proved equal to the
    reference definitions.
- **Intraday engine.**
  - `clock.dfy` (module `Clock`) gives the business clock: instants,
    business instants, and the business time between two instants in
    closed form. It also holds the second-by-second count that the
    closed form is proved equal to.
  - `borders.dfy` (module `Borders`) covers next, previous and nearest
    border navigation.
  - `span.dfy` (module `Span`) is the elapsed business time.
  - `shift.dfy` (module `Shift`) and `subtract.dfy` (module `Subtract`)
    add and subtract business time, phase by phase as the source does.
  - `laws.dfy` (module `Laws`) relates add, subtract and span to each
    other.
- **Series extraction** (`extract.dfy`, module `Extract`). The three
  cursor-based mask loops over a vector of instants.
- **Worked examples** (`examples.dfy`, module `Examples`). The doc-comment
  examples and the fixed expectations of the tests, proved for the 2021
  holiday list under the default weekend and windows.

Dates are integer day numbers: day 0 is 1970-01-01, a Thursday. Times of
day and durations are integer seconds. An instant is
`day * 86400 + seconds`. Border kinds (`"border_start"`, `"border_end"`,
`"border_intra"`) are a datatype, and the source's sentinel dates are
`Option`.

Each intraday operation is paired with an independent reference. The
business time `Business(c, a, b)` is the difference of a closed-form
prefix. `BusinessIsCount` proves it equal to the number of business
seconds in `[a, b)`, counted one second at a time. The add, subtract and
span operations are then specified against that count.

Some choices follow the code where the documentation differs:

- **`Closed` trimming.** The doc comment of `get_workdays` swaps the
  meanings of `Not` and `Both`. The model follows the code: `Not` drops
  both ends and `Both` keeps both.
- **Extraction's working-day list.** Extraction calls `get_workdays` with
  the string `"not"` of an older interface, which meant "keep both ends".
  Its doc output and tests/test_base.rs:79 both use the inclusive list, so the model
  scans `GetWorkdays(c, first, last, Both)`.

## Model

| member | source | states |
|---|---|---|
| Config.DefaultConfig | src/global.rs:38-46 | The default holiday weekdays are exactly Saturday and Sunday. The default borders are 09:00–11:30 then 12:30–15:00, in that order, and form a valid configuration. |
| Config.Filter | src/global.rs:77-79 | Keeps exactly the elements that satisfy the predicate, each as many times as in the input (multiset count), never adds elements, and keeps a strictly ascending list ascending. |
| Config.FilterAppend | src/global.rs:77-79 | Filtering a concatenation is the concatenation of the filtered parts, so the kept elements stay in input order. |
| Config.FilterSingle | src/global.rs:77-79 | A one-element list is kept whole or emptied, as the predicate says. |
| Config.SetRangeHolidays | src/global.rs:69-84 | The new holiday list holds exactly the elements x of the input with Jan 1 of the start year ≤ x < Dec 31 of the end year. Each kept holiday occurs as often as in the input. An ascending input stays ascending. The weekday set and the borders are unchanged. |
| Config.SetRangeHolidaysOrder | src/global.rs:69-84 | The holidays set from a concatenated input are those set from each part, concatenated: input order is kept. |
| Config.SetRangeHolidaysSingle | src/global.rs:69-84 | A one-holiday input is kept exactly when the holiday lies in the year range. |
| Config.SetOneHolidayWeekdaySet | src/global.rs:86-97 | The holiday weekday set becomes exactly the given set. The holidays and the borders are unchanged. |
| Config.SetIntradayBorders | src/global.rs:99-111 | The border list becomes the input verbatim, element by element, with no sorting or validation. The holidays and the weekday set are unchanged. |
| Config.YearBoundsExample | src/global.rs:69-84 | Fixes the calendar anchor: 2021-01-01 and 2021-12-31 have day numbers 18628 and 18992, and 2021-01-01 is a Friday. |
| Workdays.CheckWorkday | src/workdays.rs:99-107 | True iff the date is not in the holiday list and its weekday is not a holiday weekday. |
| Workdays.WorkdaysIn | src/workdays.rs:52-63 | The untrimmed listing of a range: strictly ascending, and holding exactly the working days of the closed range. |
| Workdays.CountIsLength | src/workdays.rs:52-63 | The working-day count of a range is the length of its listing. |
| Workdays.DropLastWorkdays | src/workdays.rs:66-68 | Removing the last element when it equals the end date leaves the working days of the range without its end date. |
| Workdays.DropFirstWorkdays | src/workdays.rs:69-71 | Removing the first element when it equals the start date leaves the working days of the range without its start date. |
| Workdays.GetWorkdays | src/workdays.rs:47-82 | The trimmed listing is the working days of the range, with the start date dropped for `Right` and `Not` and the end date dropped for `Left` and `Not`. An empty range gives an empty list. |
| Workdays.GetWorkdaysMembers | src/workdays.rs:47-82 | The trimmed listing is strictly ascending. A date is in it iff it is a working day in the range, it is not the end date unless `Right` or `Both`, and it is not the start date unless `Left` or `Both`. |
| Workdays.FirstWorkdayFrom | src/workdays.rs:245-255 | Reference: the first working day at or after a date; every date in between is a non-working day. |
| Workdays.LastWorkdayUpTo | src/workdays.rs:245-255 | Reference: the last working day at or before a date; every date in between is a non-working day. |
| Workdays.NthNextWorkday | src/workdays.rs:125-165 | Reference: a working day r after d with exactly n working days in (d, r]. |
| Workdays.NthPreviousWorkday | src/workdays.rs:183-223 | Reference: a working day r before d with exactly n working days in [r, d). |
| Workdays.NthNextWorkdayUnique | src/workdays.rs:125-165 | Any working day after d with n working days in (d, x] is the n-th next working day. |
| Workdays.NthPreviousWorkdayUnique | src/workdays.rs:183-223 | Any working day before d with n working days in [x, d) is the n-th previous working day. |
| Walks.ForwardHolidays | src/workdays.rs:129 | The holidays at or after the date, still strictly ascending, when the holiday list is. |
| Walks.BackwardHolidays | src/workdays.rs:187-188 | The holidays at or before the date, strictly descending, when the holiday list is ascending. |
| Walks.ForwardCursorHit | src/workdays.rs:148-156 | With an ascending holiday list the cursor's current holiday equals the day iff the day is a holiday, and advancing the cursor on a hit keeps it in step. |
| Walks.BackwardCursorHit | src/workdays.rs:206-213 | The same for the descending cursor of the backward walk. |
| Walks.WalkForward | src/workdays.rs:131-164 | The cursor loop: for n ≥ 1 it stops on a working day r > d with exactly n working days in (d, r]. For n ≤ 0 it stops on d + 1. |
| Walks.GetNextWorkday | src/workdays.rs:125-165 | For n ≥ 1 and an ascending holiday list, the result equals the n-th next working day. For n ≤ 0 it is d + 1. d itself is never counted. |
| Walks.WalkBackward | src/workdays.rs:190-222 | Mirror of the forward walk: a working day r < d with exactly n working days in [r, d). For n ≤ 0 it stops on d − 1. |
| Walks.GetPreviousWorkday | src/workdays.rs:183-223 | For n ≥ 1 the result equals the n-th previous working day. For n ≤ 0 it is d − 1. |
| Walks.GetNearWorkday | src/workdays.rs:245-255 | A working day: d itself when d is one, else the first working day after d (or the last before it), with no working day in between. |
| Walks.CollectForward | src/workdays.rs:290-313 | The collecting loop gathers exactly the working days from d up to where it stops, n of them when n ≥ 1. |
| Walks.GetNextWorkdaysNumber | src/workdays.rs:277-314 | For n ≥ 1: n working days, consecutive and ascending, the first being d iff d is working. For n ≤ 0: [d] when d is working, else empty. |
| Walks.WorkdaysDescReverse | src/workdays.rs:350-373 | The descending listing of a range is the reverse of the ascending one. |
| Walks.CollectBackward | src/workdays.rs:350-373 | The backward collecting loop gathers exactly the working days from where it stops up to d, in descending order. |
| Walks.GetPreviousWorkdaysNumber | src/workdays.rs:337-374 | For n ≥ 1: n working days, consecutive and descending, the first being d iff d is working. For n ≤ 0: [d] when d is working, else empty. |
| Walks.GetWorkdaysNumber | src/workdays.rs:396-405 | n > 0 gives n ascending consecutive working days from d. n < 0 gives \|n\| descending ones. n = 0 gives the empty list. |
| Clock.AnyContains | src/intraday.rs:29-33 | True iff some border has start ≤ t < end. The end is exclusive. |
| Clock.CheckWorkdayIntraday | src/intraday.rs:22-35 | True iff the date is a working day and the time lies in some [start, end) border. |
| Clock.BeforeStep | src/intraday.rs:22-35 | The business time of a day before t grows by one second exactly when t is in a window. |
| Clock.PrefixStep | src/intraday.rs:22-35 | The closed-form business prefix grows by one second exactly at business instants, across midnight too. |
| Clock.BusinessIsCount | src/intraday.rs:22-35 | The closed-form business time of [a, b) equals the number of business instants in it. |
| Clock.BusinessFromUnique | src/intraday.rs:227-309 | Two business instants after x with the same business time from x are equal. This is what makes a forward shift's result unique. |
| Clock.BusinessToUnique | src/intraday.rs:328-391 | Two business instants before y with the same business time to y are equal. |
| Clock.Slot | src/intraday.rs:29-33 | With ordered borders, t is in a window iff the last border starting at or before t ends after t. The borders ended by t are those before it. |
| Borders.LeastEndOver | src/intraday.rs:61-66 | The least border end above t, or None when no border ends above t. |
| Borders.LeastStartAbove | src/intraday.rs:69-77 | The least border start above t, or None when none starts above t. |
| Borders.FirstStart | src/intraday.rs:78-83 | The minimal border start. |
| Borders.NextBorder | src/intraday.rs:55-93 | The next border is strictly after x, and it is tagged end exactly when x is a business instant. |
| Borders.NextBorderInside | src/intraday.rs:61-66 | For a business instant: the end of its own window on the same date. Everything from x up to it is business time and the end itself is not. |
| Borders.NextBorderSameDay | src/intraday.rs:69-77 | Outside business time, on a working day with a later start: that start, which is a business instant, with no business time in between. |
| Borders.NextBorderLaterDay | src/intraday.rs:78-92 | Otherwise: the earliest start on the next working day, which is a business instant, with no business time in between. |
| Borders.NextBorderOutside | src/intraday.rs:55-93 | Outside business time the next border is always a start, which is a business instant, and nothing in between is business time. |
| Borders.GreatestStartBelow | src/intraday.rs:131-147 | The greatest border start below t, or None when none lies below t. |
| Borders.GreatestEndAtMost | src/intraday.rs:149-153 | The greatest border end at or below t, or None when none does. |
| Borders.LastEnd | src/intraday.rs:154-159 | The maximal border end. |
| Borders.IsEdgeTime | src/intraday.rs:131-147 | True iff t is a start (or an end) of some border. |
| Borders.PreviousBorder | src/intraday.rs:121-168 | The previous border is at or before x. When tagged start it is a business instant strictly before x. |
| Borders.PreviousBorderInside | src/intraday.rs:131-135 | For a business instant not on a window start: the start of its window, with business time all the way from there to x. |
| Borders.PreviousBorderForced | src/intraday.rs:138-147 | With force_is_end, a working-day instant on a border end goes back to that border's start, tagged start. |
| Borders.PreviousBorderSameDay | src/intraday.rs:149-153 | Otherwise, on a working day with an end at or below the time: that end, with the second before it business time and none from it up to x. |
| Borders.PreviousBorderEarlierDay | src/intraday.rs:154-167 | Otherwise: the maximal end of the previous working day, with the same two properties. |
| Borders.PreviousBorderOutside | src/intraday.rs:121-168 | In every case other than the two start cases the previous border is an end: the second before it is business time and nothing from it up to x is. |
| Borders.NearBorder | src/intraday.rs:198-208 | Tagged intra and equal to x exactly when x is a business instant. Otherwise it is the next border (after) or the previous one (before). |
| Borders.NearBorderGap | src/intraday.rs:198-208 | Outside business time, with after it is a business start with nothing in between, and applying it again is a fixed point. Without after it is an end with nothing business from it up to x. |
| Span.StartPartRemaining | src/intraday.rs:427-441 | The source's start-day part equals the working day's total width less the business time of the day before the start time. |
| Span.EndPartBefore | src/intraday.rs:451-465 | The source's end-day part equals the business time of the day before the end time. |
| Span.ElapsedAcrossDays | src/intraday.rs:410-468 | For instants on different dates the source's sum equals the business time of [s, e): the start part, plus one day's width per working day strictly between, plus the end part. |
| Span.ElapsedAsWrittenSameDay | src/intraday.rs:444-465 | On one date the source's sum is one whole working day more than the business time between the two instants. |
| Span.ElapsedSameDayCounterexample | src/intraday.rs:444-465 | From 10:00 to 11:00 on Monday 2021-01-04 under the defaults, the source's sum is six hours while the business time is one hour. |
| Span.Elapsed | src/intraday.rs:410-468 | The span uses the source's computation across dates and the difference of the day parts within one date. It always equals the business time of [s, e). |
| Span.ElapsedIsCount | src/intraday.rs:410-468 | For s ≤ e the span equals the number of business instants in [s, e). |
| Shift.Consume | src/intraday.rs:262-276 | Walking windows in stored order either lands in window k at an offset equal to what remains after the earlier windows, or passes all of them with the total width deducted. |
| Shift.ConsumeBack | src/intraday.rs:379-388 | Walking windows from the last one back either lands in window k with the later windows' widths deducted, or passes all of them. |
| Shift.SkipDays | src/intraday.rs:279-287 | Splits the remainder into n − 1 whole days plus a rest with 0 < rest ≤ one day's width. n counts the landing day. |
| Shift.PlaceCorrect | src/intraday.rs:294-301 | A forward landing at offset off of window i of a working day is a business instant, with business prefix equal to the earlier windows' widths plus off. Exact exhaustion rolls to a window start. |
| Shift.AddWithinWindow | src/intraday.rs:241-252 | Adding no more than the rest of x's window gives a business instant exactly delta of business time after x. At exact exhaustion it rolls to the next window start. |
| Shift.AddSameDay | src/intraday.rs:258-277 | Walking the later windows of x's day either lands delta of business time after x, or leaves a non-negative remainder for the following days. |
| Shift.LandOn | src/intraday.rs:291-306 | On a working landing day with a rest of at most one day's width, the walk lands on a business instant: the fallback is never reached. |
| Shift.FromNextDays | src/intraday.rs:279-306 | The day skip then the landing day gives a business instant on or after the next day, at business prefix equal to that of the next day plus the remainder. |
| Shift.InWindowShift | src/intraday.rs:241-256 | The in-window phase of add lands exactly delta of business time after x. |
| Shift.ThroughDay | src/intraday.rs:258-306 | The phases after the window land exactly delta of business time after x. |
| Shift.NextDaysShift | src/intraday.rs:279-306 | When x's day is used up, the day skip and landing give exactly delta of business time after x. |
| Shift.Add | src/intraday.rs:227-309 | For delta ≥ 0 the result is a business instant at or after x with business time exactly delta from x. |
| Subtract.PlaceBackCorrect | src/intraday.rs:381-384 | A backward landing off seconds before the end of window i is a business instant inside that window, with the matching business prefix. |
| Subtract.InsideBackIff | src/intraday.rs:341 | The backward walk's "inside" test holds iff y is a business instant other than a window start. |
| Subtract.SubWithinWindow | src/intraday.rs:341-349 | Subtracting no more than the part of y's window before y gives a business instant exactly delta of business time before y. |
| Subtract.SubSameDay | src/intraday.rs:351-365 | Walking the earlier windows of y's day from the last one back either lands exactly delta before y, or leaves a positive remainder for earlier days. |
| Subtract.SubSameDayAscending | src/intraday.rs:351-365 | Walking them in stored order, as the source does, still lands on a business instant before y. |
| Subtract.LandBackOn | src/intraday.rs:379-390 | On a working landing day with a rest in [1, one day's width], the reversed walk lands on a business instant of that day with the matching prefix. |
| Subtract.FromPreviousDays | src/intraday.rs:367-390 | The day skip then the landing day gives a business instant before day d, at business prefix equal to that of day d less the remainder. |
| Subtract.SubInWindow | src/intraday.rs:341-349 | The in-window phase of subtract lands exactly delta of business time before y. |
| Subtract.SubThroughDay | src/intraday.rs:351-390 | The phases after the window land on a business instant before y, exactly delta before it when the windows are walked from the last one back. |
| Subtract.PreviousDaysShift | src/intraday.rs:367-390 | When nothing of y's day lies behind it, exactly delta of business time before y. |
| Subtract.SubWalk | src/intraday.rs:328-391 | The backward shift with either walking order lands on a business instant before y, exactly delta before it with the reversed order. |
| Subtract.SubAsWritten | src/intraday.rs:328-391 | The backward shift as written lands on a business instant before y. |
| Subtract.SubAscendingCounterexample | src/intraday.rs:351-365 | One hour back from 16:00 on Monday 2021-01-04 under the defaults, the source gives 10:30, which is 3.5 hours of business time back, where 14:00 is intended. |
| Subtract.Sub | src/intraday.rs:328-391 | For delta ≥ 1 the result is a business instant before y with business time exactly delta to y. |
| Subtract.PreviousBorderEarlierDate | src/intraday.rs:121-168 | At or before the first window start of its day, or on a day that is no working day, the previous border of y lies on an earlier date. |
| Subtract.SubAsWrittenEarlierDay | src/intraday.rs:340-351 | When the previous border of y lies on an earlier date, the shift as written equals the corrected one. |
| Subtract.SubAsWrittenFromDayStart | tests/test_base.rs:176-184 | Shifting back from a time at or before the first window start, or from a non-working day, the shift as written equals the corrected one and lands exactly delta of business time back. The test shifts back from 2022-01-01 00:00, a Saturday. |
| Laws.AddBusiness | tests/test_base.rs:186-190 | Adding the span from x to a later business instant y lands on y. |
| Laws.SubBusiness | src/intraday.rs:328-391 | For the corrected shift: subtracting the span from x to y, counted back from y, lands on the earlier business instant x. |
| Laws.SubBusinessAsWritten | tests/test_base.rs:186-191 | For the shift as written, the same round trip when y is at or before its day's first window start or on a non-working day, as the test's 2021-12-31 09:00 is. |
| Laws.SubAdd | src/intraday.rs:227-391 | Subtracting delta after adding it returns a business instant to itself. |
| Laws.AddSub | src/intraday.rs:227-391 | Adding delta after subtracting it returns a business instant to itself. |
| Laws.AddAdd | tests/test_base.rs:166-174 | Two forward shifts make one by the sum. |
| Laws.SubSub | src/intraday.rs:328-391 | Two backward shifts of the corrected shift make one by the sum. |
| Laws.AddZero | src/intraday.rs:241-277 | Adding zero moves to the nearest business instant at or after x, as near-border with after does. |
| Extract.StartDay | src/extract.rs:40-49 | The first date is opened only when it is in the working-day list. |
| Extract.NextDate | src/extract.rs:52-64 | The day cursor moves only on a strictly later date, and it opens a date only when that date is the next working day in the list. |
| Extract.WorkdaysMask | src/extract.rs:32-74 | The mask has the input's length. On sorted input a kept entry is on a working day and all entries of one date agree. When no date is skipped, an entry is kept iff its date is a working day. |
| Extract.BorderStep | src/extract.rs:124-143 | The border index stays in range. Passing the last border closes the date and resets the index to 0. A kept entry is at or after the current border's start. |
| Extract.BorderStepCorrect | src/extract.rs:124-143 | When at most one window has ended since the index, the step keeps the entry iff its time lies in a window, closes the date iff every window has ended, and otherwise moves the index to the first unended window. |
| Extract.PastLastBorder | src/extract.rs:120-132 | Past the last border the date is closed with the index reset to 0, and every later entry of that date is dropped. |
| Extract.JumpOverWindow | src/extract.rs:124-136 | A jump from 08:00 to 16:00 over the default morning window keeps the 16:00 entry, although 16:00 is in no window. |
| Extract.SkippedWorkday | src/extract.rs:52-64 | Going from Monday 2021-01-04 straight to Wednesday 2021-01-06, the day cursor still expects Tuesday, so it drops Wednesday although Wednesday is a working day. |
| Extract.IntradayNext | src/extract.rs:110-151 | The per-entry update: the cursor's date follows the input, the index stays in range, and a kept entry leaves the date open. |
| Extract.IntradayMask | src/extract.rs:101-154 | The mask has the input's length. On a sorted input dense enough that no window is jumped over, an entry is kept iff its time lies in some [start, end) window. |
| Extract.CombinedNext | src/extract.rs:203-248 | The combined update moves the day cursor as the workdays mask does and keeps an entry only on an open working date. |
| Extract.WorkdaysIntradayMask | src/extract.rs:179-251 | The mask has the input's length. On sorted input a kept entry is on a working day. On a sorted, gap-free, dense input an entry is kept iff it is a business instant. |
| Extract.MasksConjoin | tests/test_base.rs:102-113 | On a sorted, gap-free, dense input the combined mask is the element-wise AND of the other two. |
| Examples.EarlyJanuary | tests/test_global.rs:3-24 | From 2020-12-31 to 2021-01-12 the working days are 2020-12-31, 2021-01-04 to 2021-01-08 and 2021-01-12; 2021-01-01 and 2021-01-11 are holidays. |
| Examples.NextWorkdayExample | src/workdays.rs:121-123 | The sixth working day after 2021-01-01 is 2021-01-12. |
| Examples.PreviousWorkdayExample | src/workdays.rs:179-181 | The sixth working day before 2021-01-12 is 2020-12-31. |
| Examples.AroundNewYear | src/workdays.rs:237-243 | The nearest working day after 2021-01-01 is 2021-01-04, and the one before it is 2020-12-31. |
| Examples.CheckIntradayExample | tests/test_base.rs:120-122 | 2021-01-04 10:00 is business time; 2021-01-01 10:00 and 2021-01-04 00:00 are not. |
| Examples.NextBorderFromHoliday | tests/test_base.rs:125-126 | The next border after 2021-01-01 00:00 is the 2021-01-04 09:00 start. |
| Examples.NextBorderFromStart | tests/test_base.rs:127-128 | The next border after the 2021-01-04 09:00 start is the 11:30 end. |
| Examples.NextBorderFromEnd | tests/test_base.rs:129-130 | The next border after the 2021-01-04 11:30 end is the 12:30 start. |
| Examples.PreviousBorderFromHoliday | tests/test_base.rs:133-134 | Forced, the previous border of 2021-01-01 10:00 is the 2020-12-31 15:00 end. |
| Examples.PreviousBorderFromStart | tests/test_base.rs:135-136 | Forced, the previous border of the 2020-12-31 12:30 start is the 11:30 end. |
| Examples.PreviousBorderAtEnd | tests/test_base.rs:137-138 | Unforced, the 2020-12-31 15:00 end is its own previous border. |
| Examples.PreviousBorderAtEndForced | tests/test_base.rs:139-140 | Forced, the previous border of the 2020-12-31 15:00 end is the 12:30 start. |
| Examples.NearBorderExample | tests/test_base.rs:143-146 | From 2021-01-01 10:00 the near border is the 2021-01-04 09:00 start when looking after, and the 2020-12-31 15:00 end when looking before. |
| Examples.UnsortedHolidaysNextBorder | src/intraday.rs:78-92 | With holidays listed as [2021-01-05, 2021-01-04], the model's next border after 2021-01-03 00:00 is the 2021-01-06 09:00 start, on the first working day. |
| Examples.NewYearCount | tests/test_base.rs:54-58 | No working day lies in 2021-01-01 to 2021-01-03, and 2020-12-31 is one. |
| Examples.AddExample | src/intraday.rs:222-225 | Two business hours after 2021-01-01 00:00 is 2021-01-04 11:00. |
| Examples.SubExample | src/intraday.rs:323-326 | Two business hours before 2021-01-01 00:00 is 2020-12-31 13:00, both for the shift as written and for the corrected one. |
| Examples.ElapsedExample | src/intraday.rs:405-408 | From 2021-01-01 00:00 to 2021-01-04 15:00 is five business hours, both as the source computes it and as the corrected span does. |

## Left out

- File and network I/O are not part of this model. That covers `read_csv` and the file-reading part of `set_holidays_csv` (CSV parsing through the csv crate), holiday scraping and requesting, and the demo binaries.
- The process-wide `RwLock` globals and their locking are replaced by an explicit `Config` argument. Concurrency is not modelled.
- chrono's Gregorian conversion is modelled only as the day-number formula `DaysFromCivil`. chrono's `weekday()` is modelled as `WeekdayOf`. Calendar overflow at chrono's date limits is not modelled.
- The sentinel dates are modelled as `Option`. The holiday walks of src/workdays.rs unwrap to `IMPOSSIBLE_DATE_1` (src/workdays.rs:4). src/global.rs does not define that name; it defines only `DEFAULT_DATE_1`, 2100-01-01, at src/global.rs:47. So the model's exhausted holiday cursor simply matches no date.
- Extract.WorkdaysMask, Extract.WorkdaysIntradayMask: the source's exhausted day cursor holds 2100-01-01 (`DEFAULT_DATE_1`). A scanned 2100-01-01 entry therefore meets it and is kept even when that date is not a working day. The model's cursor matches nothing past the end of the list, so both masks' contracts describe inputs that do not reach 2100-01-01 after the list is exhausted.
- Walks.GetNextWorkday: requires a strictly ascending holiday list. The source's single cursor silently assumes it. The same precondition is on every walk in `Walks`.
- Borders.NextBorder: the later-day branch takes the reference `NthNextWorkday`, where the source calls its cursor walk `get_next_workday` (src/intraday.rs:79, :88). The two agree exactly when the holiday list is strictly ascending (`Walks.GetNextWorkday`). `set_range_holidays` keeps input order, so an unsorted list is reachable. On it the source can land on a listed holiday: with holidays [2021-01-05, 2021-01-04], from 2021-01-03 it gives 2021-01-04 09:00, where the model gives 2021-01-06 09:00 (Examples.UnsortedHolidaysNextBorder).
- Borders.NextBorderLaterDay: states the earliest start on `NthNextWorkday`. This is the source's result only for a strictly ascending holiday list, as for NextBorder.
- Borders.PreviousBorder: the earlier-day branch takes the reference `NthPreviousWorkday`, where the source calls `get_previous_workday` (src/intraday.rs:155, :163). The two agree only on a strictly ascending holiday list (`Walks.GetPreviousWorkday`).
- Borders.PreviousBorderEarlierDay: states the last end on `NthPreviousWorkday`. This is the source's result only for a strictly ascending holiday list.
- Borders.NearBorder: inherits the ascending-holiday assumption of NextBorder and PreviousBorder.
- Shift.FromNextDays: skips days with `NthNextWorkday` where the source calls `get_next_workday` (src/intraday.rs:289). The two agree only on a strictly ascending holiday list.
- Shift.Add: through NextBorder and FromNextDays, its contract describes the source only for a strictly ascending holiday list.
- Subtract.FromPreviousDays: skips days with `NthPreviousWorkday` where the source calls `get_previous_workday` (src/intraday.rs:377). The two agree only on a strictly ascending holiday list.
- Subtract.SubAsWritten: keeps the source's branches, but its day walk is the reference one, so it is the source's result only for a strictly ascending holiday list.
- Subtract.Sub: through PreviousBorder and FromPreviousDays, its contract describes the source only for a strictly ascending holiday list.
- Workdays.NthNextWorkday, Workdays.NthPreviousWorkday and every walk, border, add, subtract and span member built on them require `HasWorkingWeekday`: at least one weekday must not be a holiday weekday. When all seven weekdays are holiday weekdays, the source's walks (src/workdays.rs:125-165, :183-223) run until chrono's date range ends and then panic on `unwrap`. The model leaves that input out.
- Config.ValidBorders: navigation, add and subtract require non-empty borders with start < end inside one day and a strict gap between consecutive borders. With adjacent borders the source's `assert_eq!(…, "border_start")` in add would panic.
- Shift.Add: its contract speaks only of delta ≥ 0. For a negative duration the function follows the source's branches, but no property is claimed.
- Subtract.Sub: its contract speaks only of delta ≥ 1. A zero or negative duration is not specified.
- Empty inputs to extraction, where the source panics on `unwrap`, are excluded by a `requires` that the input is non-empty. The same holds for an empty border list in navigation.
- Extract.WorkdaysMask: the exact iff is claimed only for inputs that skip no date. The source's working-day cursor never steps over a working day that has no entry, so a skipped working date desynchronises it.
- Extract.IntradayMask: the exact iff is claimed only for inputs dense enough that at most one window ends between consecutive entries of a date and every window has ended before the date changes. The border index is neither reset on a new date nor advanced more than one border per entry.
- Extract.WorkdaysIntradayMask: the exact iff needs both of the conditions above.
- The source's `filter(…).min().unwrap()` and `max()` over border lists are modelled as recursive folds returning `Option`. Where the source unwraps, the model proves the value present.
- Span.Elapsed: when e is before s, the model returns the negated forward span. The source's sum is not meaningful there.
- The `i32` day counters and the `Duration` range of chrono are modelled as unbounded integers. Overflow is not modelled.

## Findings

| source | as written | input that shows it | evidently intended | confidence | as-written member | corrected member |
|---|---|---|---|---|---|---|
| src/intraday.rs:351-365 | Subtract walks the earlier windows of the start day in stored (ascending) order, taking each from its end | 2021-01-04 16:00 minus one hour, under the default windows, gives 10:30 | walk them from the last one back, as the landing day at :379 does, giving 14:00 | not executed | Subtract.SubAsWritten, Subtract.SubAscendingCounterexample | Subtract.Sub |
| src/intraday.rs:444-465 | On one date, the span adds the start day's remaining windows and the end day's elapsed windows | 2021-01-04 10:00 to 11:00, under the default windows, gives 6 hours | the business time between the two instants, 1 hour | not executed | Span.ElapsedAsWritten, Span.ElapsedSameDayCounterexample | Span.Elapsed |
