/** The picker component: the anchor month with its navigation, the two panels'
    grids, the resolution of a clicked day number to a date, the range
    selection cycle and the `onUpdate` notifications, and the highlight
    predicates each day cell evaluates. */
module Picker {
  import opened Wrappers
  import opened Calendar
  import opened Compare
  import opened Grid

  /** The `dateRange` state: either bound may be `null`. */
  datatype DateRange = DateRange(startDate: Option<Instant>, endDate: Option<Instant>)

  /** Which of the click handler's three tests holds for a range. */
  datatype Phase = Empty | Partial | Full

  function PhaseOf(r: DateRange): Phase {
    if r.startDate.None? then Empty
    else if r.endDate.None? then Partial
    else Full
  }

  predicate BoundsValid(r: DateRange) {
    (r.startDate.Some? ==> ValidInstant(r.startDate.value)) &&
    (r.endDate.Some? ==> ValidInstant(r.endDate.value))
  }

  // ---------------------------------------------------------------------------
  // Initial range

  /** The initial `dateRange`: each bound of `initialRange` that is given, else
      today for the start and today plus 20 days for the end. */
  function InitialRange(initialRange: Option<DateRange>, today: Instant): (r: DateRange)
    requires ValidInstant(today)
    requires initialRange.Some? ==> BoundsValid(initialRange.value)
    ensures PhaseOf(r) == Full
    ensures BoundsValid(r)
    ensures initialRange.Some? && initialRange.value.startDate.Some? ==> r.startDate == initialRange.value.startDate
    ensures initialRange.Some? && initialRange.value.endDate.Some? ==> r.endDate == initialRange.value.endDate
    ensures (initialRange.None? || initialRange.value.startDate.None?) ==> r.startDate == Some(today)
    ensures (initialRange.None? || initialRange.value.endDate.None?) ==>
      Ordinal(r.endDate.value.date) == Ordinal(today.date) + 20 && r.endDate.value.ms == today.ms
  {
    var givenStart := if initialRange.Some? then initialRange.value.startDate else None;
    var givenEnd := if initialRange.Some? then initialRange.value.endDate else None;
    DateRange(Some(givenStart.GetOr(today)), Some(givenEnd.GetOr(AddDays(today, 20))))
  }

  // ---------------------------------------------------------------------------
  // Selection cycle and notification

  /** The range after a click on `clicked`, chosen by the pre-click range:
      with no start, only the start is set (the end is carried over); with a
      start and no end, only the end is set, with no reordering; with both,
      the range restarts at `clicked` with no end. */
  function Click(r: DateRange, clicked: Instant): (r': DateRange)
    ensures r'.startDate.Some?
    ensures PhaseOf(r) == Partial ==> r'.startDate == r.startDate && r'.endDate == Some(clicked)
    ensures PhaseOf(r) != Partial ==> r'.startDate == Some(clicked)
    ensures PhaseOf(r) == Full ==> r'.endDate.None?
    ensures PhaseOf(r) == Empty ==> r'.endDate == r.endDate
  {
    match PhaseOf(r)
    case Empty => r.(startDate := Some(clicked))
    case Partial => r.(endDate := Some(clicked))
    case Full => DateRange(Some(clicked), None)
  }

  /** Once a start is set, clicks alternate between a start-only range and a full one. */
  lemma ClickAlternates(r: DateRange, clicked: Instant)
    requires r.startDate.Some?
    ensures PhaseOf(Click(r, clicked)) == if PhaseOf(r) == Partial then Full else Partial
  {
  }

  /** The `onUpdate` effect run after `dateRange` changes: the callback, when
      one was given, receives the range exactly when both bounds are present. */
  function Effect(r: DateRange, hasOnUpdate: bool): (calls: seq<DateRange>)
    ensures |calls| <= 1
    ensures calls != [] <==> hasOnUpdate && PhaseOf(r) == Full
    ensures calls != [] ==> calls[0] == r
  {
    if hasOnUpdate && r.startDate.Some? && r.endDate.Some? then [r] else []
  }

  /** The range after a sequence of clicks. */
  function Replay(r: DateRange, clicks: seq<Instant>): DateRange
    decreases |clicks|
  {
    if clicks == [] then r else Replay(Click(r, clicks[0]), clicks[1..])
  }

  /** The `onUpdate` calls made during a sequence of clicks. */
  function Notifications(r: DateRange, clicks: seq<Instant>, hasOnUpdate: bool): seq<DateRange>
    decreases |clicks|
  {
    if clicks == [] then []
    else
      var next := Click(r, clicks[0]);
      Effect(next, hasOnUpdate) + Notifications(next, clicks[1..], hasOnUpdate)
  }

  /** One more click extends the replay by one step. */
  lemma {:induction false} ReplaySnoc(r: DateRange, clicks: seq<Instant>, clicked: Instant, hasOnUpdate: bool)
    ensures Replay(r, clicks + [clicked]) == Click(Replay(r, clicks), clicked)
    ensures Notifications(r, clicks + [clicked], hasOnUpdate) ==
      Notifications(r, clicks, hasOnUpdate) + Effect(Click(Replay(r, clicks), clicked), hasOnUpdate)
    decreases |clicks|
  {
    if clicks == [] {
      assert clicks + [clicked] == [clicked];
    } else {
      assert (clicks + [clicked])[1..] == clicks[1..] + [clicked];
      ReplaySnoc(Click(r, clicks[0]), clicks[1..], clicked, hasOnUpdate);
    }
  }

  /** The ranges formed by consecutive pairs of clicks: first as start, second as end. */
  function Pairs(clicks: seq<Instant>): (ps: seq<DateRange>)
    ensures |ps| == |clicks| / 2
    decreases |clicks|
  {
    if |clicks| < 2 then []
    else [DateRange(Some(clicks[0]), Some(clicks[1]))] + Pairs(clicks[2..])
  }

  lemma {:induction false} PairsAt(clicks: seq<Instant>, k: int)
    requires 0 <= k < |clicks| / 2
    ensures Pairs(clicks)[k] == DateRange(Some(clicks[2 * k]), Some(clicks[2 * k + 1]))
    decreases |clicks|
  {
    if k > 0 {
      PairsAt(clicks[2..], k - 1);
    }
  }

  /** From a full range (such as the initial one), an even number of clicks
      leaves a full range and an odd number a start-only one, and `onUpdate` is
      called once per pair of clicks, with that pair as the range, repeats
      included; without a callback nothing is called. */
  lemma {:induction false} ReplayFromFull(r: DateRange, clicks: seq<Instant>)
    requires PhaseOf(r) == Full
    ensures PhaseOf(Replay(r, clicks)) == if |clicks| % 2 == 0 then Full else Partial
    ensures Notifications(r, clicks, true) == Pairs(clicks)
    ensures Notifications(r, clicks, false) == []
    decreases |clicks|
  {
    if |clicks| == 1 {
      assert clicks[1..] == [];
    } else if |clicks| >= 2 {
      var r2 := Click(Click(r, clicks[0]), clicks[1]);
      assert clicks[1..][1..] == clicks[2..];
      ReplayFromFull(r2, clicks[2..]);
    }
  }

  // ---------------------------------------------------------------------------
  // Day resolution and labels

  /** A left-panel day button's date: `new Date(currYear, currMonth, v)`, local midnight. */
  function ResolveLeft(anchor: YearMonth, v: int): (d: Instant)
    requires 1 <= v <= DaysInMonth(anchor.year, anchor.month)
    ensures ValidInstant(d)
    ensures d == Instant(Date(anchor.year, anchor.month, v), 0)
  {
    MakeDateInMonth(anchor.year, anchor.month, v);
    Instant(MakeDate(anchor.year, anchor.month, v), 0)
  }

  /** Adding one month to a day that also exists in the next month keeps the day number. */
  lemma AddMonthNoClamp(d: Date)
    requires ValidDate(d)
    requires d.day <= DaysInMonth(NextMonth(YearMonth(d.year, d.month)).year, NextMonth(YearMonth(d.year, d.month)).month)
    ensures AddMonths(d, 1) == Date(NextMonth(YearMonth(d.year, d.month)).year, NextMonth(YearMonth(d.year, d.month)).month, d.day)
  {
    var next := NextMonth(YearMonth(d.year, d.month));
    var r := AddMonths(d, 1);
    NextMonthIndex(YearMonth(d.year, d.month));
    MonthIndexInjective(r.year, r.month, next.year, next.month);
  }

  /** A day past the month's end, but within the next month, lands in the next month. */
  lemma MakeDateOverflowOnce(a: YearMonth, v: int)
    requires DaysInMonth(a.year, a.month) < v <= DaysInMonth(a.year, a.month) + DaysInMonth(NextMonth(a).year, NextMonth(a).month)
    ensures MakeDate(a.year, a.month, v) == Date(NextMonth(a).year, NextMonth(a).month, v - DaysInMonth(a.year, a.month))
  {
  }

  /** A right-panel day button's date: `add(new Date(currYear, currMonth, v), {months: 1})`.
      A day that exists in the anchor month lands on that day of the next
      month; a larger day first overflows into the next month and then moves
      one month more, landing two months after the anchor. */
  function ResolveRight(anchor: YearMonth, v: int): (d: Instant)
    requires 1 <= v <= DaysInMonth(NextMonth(anchor).year, NextMonth(anchor).month)
    ensures ValidInstant(d) && d.ms == 0
    ensures v <= DaysInMonth(anchor.year, anchor.month) ==>
      d.date == Date(NextMonth(anchor).year, NextMonth(anchor).month, v)
    ensures v > DaysInMonth(anchor.year, anchor.month) ==>
      d.date == Date(NextMonth(NextMonth(anchor)).year, NextMonth(NextMonth(anchor)).month,
                     v - DaysInMonth(anchor.year, anchor.month))
  {
    var local := Instant(MakeDate(anchor.year, anchor.month, v), 0);
    if v <= DaysInMonth(anchor.year, anchor.month) then
      MakeDateInMonth(anchor.year, anchor.month, v);
      AddMonthNoClamp(local.date);
      AddMonthsTo(local, 1)
    else
      MakeDateOverflowOnce(anchor, v);
      AddMonthNoClamp(local.date);
      AddMonthsTo(local, 1)
  }

  /** With February 2023 as anchor, the right panel's day 30 selects 2 April 2023. */
  lemma RightPanelOverflowExample()
    ensures ResolveRight(YearMonth(2023, 1), 30).date == Date(2023, 3, 2)
  {
  }

  /** date-fns month addition clamps: 31 January plus one month is 28 February
      in 2023 and 29 February in the leap year 2024. */
  lemma AddMonthsClampExample()
    ensures AddMonths(Date(2023, 0, 31), 1) == Date(2023, 1, 28)
    ensures AddMonths(Date(2024, 0, 31), 1) == Date(2024, 1, 29)
  {
  }

  /** The right panel's year label: `add(new Date(currYear, currMonth), {years: 1}).getFullYear()`. */
  function RightLabelYear(anchor: YearMonth): (y: int)
    ensures y == anchor.year + 1
  {
    AddMonths(FirstOf(anchor), 12).year
  }

  /** The right label's year matches the year of the right grid's month only when the anchor is December. */
  lemma RightLabelYearMatchesGrid(anchor: YearMonth)
    ensures RightLabelYear(anchor) == NextMonth(anchor).year <==> anchor.month == 11
  {
  }

  // ---------------------------------------------------------------------------
  // Cell highlighting

  /** The four highlight tests of a day cell: start day, today, end day, and inside the range. */
  datatype Marks = Marks(isStart: bool, isToday: bool, isEnd: bool, inRange: bool)

  /** `isSameDay(cell, bound)`, where a missing bound matches no day. */
  predicate OnDayOf(cell: Instant, bound: Option<Instant>) {
    bound.Some? && SameDay(cell, bound.value)
  }

  /** `isBetween(cell, startDate, endDate, "[]")`, where a missing bound matches nothing. */
  predicate InRange(cell: Instant, r: DateRange)
  {
    r.startDate.Some? && r.endDate.Some? &&
    IsBetween(cell, r.startDate.value, r.endDate.value, "[]") == Success(true)
  }

  function CellMarks(cell: Instant, r: DateRange, today: Instant): (m: Marks)
    ensures m.inRange <==> (r.startDate.Some? && r.endDate.Some? &&
      Stamp(r.startDate.value) <= Stamp(cell) <= Stamp(r.endDate.value))
    ensures m.isStart <==> (r.startDate.Some? && cell.date == r.startDate.value.date)
    ensures m.isEnd <==> (r.endDate.Some? && cell.date == r.endDate.value.date)
    ensures m.isToday <==> cell.date == today.date
  {
    var marks := Marks(OnDayOf(cell, r.startDate), SameDay(cell, today), OnDayOf(cell, r.endDate), InRange(cell, r));
    if r.startDate.Some? && r.endDate.Some? then
      BetweenIsInterval(cell, r.startDate.value, r.endDate.value);
      marks
    else
      marks
  }

  /** A start-only range, or a backwards one (start after end), shades no cell as inside the range. */
  lemma NothingInRangeUnlessForward(cell: Instant, r: DateRange, today: Instant)
    requires PhaseOf(r) != Full || IsAfter(r.startDate.value, r.endDate.value)
    ensures !CellMarks(cell, r, today).inRange
  {
  }

  /** Clicking an earlier day as the end keeps the backwards range, which then shades nothing. */
  lemma BackwardsClickKept(r: DateRange, clicked: Instant, cell: Instant, today: Instant)
    requires PhaseOf(r) == Partial && IsBefore(clicked, r.startDate.value)
    ensures Click(r, clicked) == DateRange(r.startDate, Some(clicked))
    ensures !CellMarks(cell, Click(r, clicked), today).inRange
  {
    NothingInRangeUnlessForward(cell, Click(r, clicked), today);
  }

  /** With the default range taken at a time of day past midnight, the cell of
      today is marked as the start but not shaded as inside the range, while
      the cell of the default end day is marked as the end and shaded. */
  lemma DefaultRangeEdgeCells(today: Instant)
    requires ValidInstant(today) && today.ms > 0
    ensures var r := InitialRange(None, today);
      var startCell := Instant(today.date, 0);
      var endCell := Instant(r.endDate.value.date, 0);
      CellMarks(startCell, r, today).isStart && !CellMarks(startCell, r, today).inRange &&
      CellMarks(endCell, r, today).isEnd && CellMarks(endCell, r, today).inRange
  {
    var r := InitialRange(None, today);
    var endCell := Instant(r.endDate.value.date, 0);
    assert Stamp(endCell) == (Ordinal(today.date) + 20) * MsPerDay;
    assert Stamp(today) < (Ordinal(today.date) + 1) * MsPerDay;
  }

  // ---------------------------------------------------------------------------
  // The component's state

  /** The component: the anchor month (`currYear`, `currMonth`), the
      `dateRange` state, and the log of `onUpdate` calls. `clicks` records
      every resolved click since mounting. */
  class DateRangePicker {
    var currYear: int
    var currMonth: Month
    var dateRange: DateRange
    var notified: seq<DateRange>
    const today: Instant
    const hasOnUpdate: bool
    ghost const initial: DateRange
    ghost var clicks: seq<Instant>

    /** The start is never `null`, and the range and the calls made so far are
        those of replaying every click on the initial range. */
    ghost predicate Valid()
      reads this
    {
      ValidInstant(today) && BoundsValid(dateRange) && dateRange.startDate.Some? &&
      PhaseOf(initial) == Full &&
      dateRange == Replay(initial, clicks) &&
      notified == Effect(initial, hasOnUpdate) + Notifications(initial, clicks, hasOnUpdate)
    }

    function Anchor(): YearMonth
      reads this
    {
      YearMonth(currYear, currMonth)
    }

    /** Mounting: the anchor is today's month, the range is the initial one,
        and the effect calls `onUpdate`, if given, with that full range. */
    constructor (today: Instant, initialRange: Option<DateRange>, hasOnUpdate: bool)
      requires ValidInstant(today)
      requires initialRange.Some? ==> BoundsValid(initialRange.value)
      ensures Valid()
      ensures Anchor() == YearMonth(today.date.year, today.date.month)
      ensures dateRange == InitialRange(initialRange, today)
      ensures notified == if hasOnUpdate then [dateRange] else []
      ensures this.today == today && this.hasOnUpdate == hasOnUpdate && clicks == []
    {
      this.today := today;
      this.hasOnUpdate := hasOnUpdate;
      currYear := today.date.year;
      currMonth := today.date.month;
      var range := InitialRange(initialRange, today);
      dateRange := range;
      initial := range;
      clicks := [];
      notified := [];
      new;
      UpdateEffect();
    }

    /** The left panel's grid: the anchor month, every one of its days present. */
    function LeftGrid(): (cells: seq<Cell>)
      reads this
      ensures cells == GenerateCalendar(currYear, currMonth)
      ensures |cells| == GridSize
      ensures PresentCount(cells) == DaysInMonth(currYear, currMonth)
    {
      var first := FirstOf(Anchor());
      GridCountsMonth(first.year, first.month);
      GenerateCalendar(first.year, first.month)
    }

    /** The right panel's grid: always the month after the anchor. */
    function RightGrid(): (cells: seq<Cell>)
      reads this
      ensures cells == GenerateCalendar(NextMonth(Anchor()).year, NextMonth(Anchor()).month)
      ensures PresentCount(cells) == DaysInMonth(NextMonth(Anchor()).year, NextMonth(Anchor()).month)
    {
      var next := AddMonths(FirstOf(Anchor()), 1);
      AddMonthToFirst(Anchor());
      GridCountsMonth(next.year, next.month);
      GenerateCalendar(next.year, next.month)
    }

    /** Either panel's "previous" button: `sub(new Date(currYear, currMonth), {months: 1})`. */
    method Prev()
      requires Valid()
      modifies this`currYear, this`currMonth
      ensures Valid()
      ensures Anchor() == PrevMonth(old(Anchor()))
    {
      var d := AddMonths(FirstOf(Anchor()), -1);
      AddMonthToFirst(Anchor());
      currMonth := d.month;
      currYear := d.year;
    }

    /** Either panel's "next" button: `add(new Date(currYear, currMonth), {months: 1})`. */
    method Next()
      requires Valid()
      modifies this`currYear, this`currMonth
      ensures Valid()
      ensures Anchor() == NextMonth(old(Anchor()))
    {
      var d := AddMonths(FirstOf(Anchor()), 1);
      AddMonthToFirst(Anchor());
      currMonth := d.month;
      currYear := d.year;
    }

    /** The `onUpdate` effect (it runs after every change of `dateRange`). */
    method UpdateEffect()
      modifies this`notified
      ensures notified == old(notified) + Effect(dateRange, hasOnUpdate)
    {
      if hasOnUpdate && dateRange.startDate.Some? && dateRange.endDate.Some? {
        notified := notified + [dateRange];
      }
    }

    /** The body shared by both panels' day buttons: three tests of the
        pre-click range, of which exactly one holds and writes, then the effect. */
    method Select(clicked: Instant)
      requires ValidInstant(clicked) && BoundsValid(dateRange)
      modifies this`dateRange, this`notified
      ensures dateRange == Click(old(dateRange), clicked)
      ensures BoundsValid(dateRange)
      ensures notified == old(notified) + Effect(dateRange, hasOnUpdate)
    {
      var snapshot := dateRange;
      if snapshot.startDate.None? {
        dateRange := dateRange.(startDate := Some(clicked));
      }
      if snapshot.startDate.Some? && snapshot.endDate.None? {
        dateRange := dateRange.(endDate := Some(clicked));
      }
      if snapshot.startDate.Some? && snapshot.endDate.Some? {
        dateRange := DateRange(Some(clicked), None);
      }
      UpdateEffect();
    }

    /** A click on day `v` of the left panel. */
    method ClickLeft(v: int)
      requires Valid()
      requires 1 <= v <= DaysInMonth(currYear, currMonth)
      modifies this`dateRange, this`notified, this`clicks
      ensures Valid()
      ensures dateRange == Click(old(dateRange), Instant(Date(currYear, currMonth, v), 0))
      ensures notified == old(notified) + Effect(dateRange, hasOnUpdate)
      ensures clicks == old(clicks) + [Instant(Date(currYear, currMonth, v), 0)]
    {
      var clicked := ResolveLeft(Anchor(), v);
      ReplaySnoc(initial, clicks, clicked, hasOnUpdate);
      Select(clicked);
      clicks := clicks + [clicked];
    }

    /** A click on day `v` of the right panel. */
    method ClickRight(v: int)
      requires Valid()
      requires 1 <= v <= DaysInMonth(NextMonth(Anchor()).year, NextMonth(Anchor()).month)
      modifies this`dateRange, this`notified, this`clicks
      ensures Valid()
      ensures dateRange == Click(old(dateRange), ResolveRight(Anchor(), v))
      ensures notified == old(notified) + Effect(dateRange, hasOnUpdate)
      ensures clicks == old(clicks) + [ResolveRight(Anchor(), v)]
    {
      var clicked := ResolveRight(Anchor(), v);
      ReplaySnoc(initial, clicks, clicked, hasOnUpdate);
      Select(clicked);
      clicks := clicks + [clicked];
    }
  }

  /** In a mounted picker with a callback, `onUpdate` has been called once on
      mounting and then once per pair of clicks, with that pair as the range. */
  lemma NotifiedPairs(p: DateRangePicker)
    requires p.Valid() && p.hasOnUpdate
    ensures |p.notified| == 1 + |p.clicks| / 2
    ensures forall k :: 0 <= k < |p.clicks| / 2 ==>
      p.notified[k + 1] == DateRange(Some(p.clicks[2 * k]), Some(p.clicks[2 * k + 1]))
  {
    ReplayFromFull(p.initial, p.clicks);
    forall k | 0 <= k < |p.clicks| / 2
      ensures p.notified[k + 1] == DateRange(Some(p.clicks[2 * k]), Some(p.clicks[2 * k + 1]))
    {
      PairsAt(p.clicks, k);
    }
  }
}
