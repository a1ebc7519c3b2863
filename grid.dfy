/** The month grid: six Sunday-first weeks of 42 cells, each a day number or blank. */
module Grid {
  import opened Wrappers
  import opened Calendar

  /** A grid cell: `Some(day)` or `None` for a blank (`null` in the source). */
  type Cell = Option<int>

  const GridSize: int := 42

  /** Weekday (0 = Sunday) of the first of the month: the number of leading blanks. */
  function StartDay(year: int, month: Month): (w: int)
    ensures 0 <= w <= 6
  {
    Weekday(Date(year, month, 1))
  }

  /** `generateCalendar({month, year})`: 42 cells; cell `v` is blank before the
      first of the month and after its last day, and otherwise holds the day
      number `days[v - startDay]` where `days` is 1..daysInMonth. */
  function GenerateCalendar(year: int, month: Month): (cells: seq<Cell>)
    ensures |cells| == GridSize
    ensures forall i :: 0 <= i < GridSize ==>
      cells[i] == (if StartDay(year, month) <= i < StartDay(year, month) + DaysInMonth(year, month)
                   then Some(i - StartDay(year, month) + 1) else None)
  {
    var startDay := StartDay(year, month);
    var daysInMonth := DaysInMonth(year, month);
    var days := seq(daysInMonth, k => k + 1);
    seq(GridSize, v requires 0 <= v < GridSize =>
      if v < startDay then None
      else if v > daysInMonth + startDay - 1 then None
      else Some(days[v - startDay]))
  }

  /** The number of non-blank cells. */
  function PresentCount(cells: seq<Cell>): (n: nat)
    ensures n <= |cells|
  {
    if cells == [] then 0
    else (if cells[0].Some? then 1 else 0) + PresentCount(cells[1..])
  }

  /** A sequence whose non-blank cells are exactly the indices lo..hi-1 has hi - lo of them. */
  lemma {:induction false} PresentCountWindow(cells: seq<Cell>, lo: int, hi: int)
    requires 0 <= lo <= hi <= |cells|
    requires forall i :: 0 <= i < |cells| ==> (cells[i].Some? <==> lo <= i < hi)
    ensures PresentCount(cells) == hi - lo
  {
    if cells != [] {
      var rest := cells[1..];
      var lo', hi' := if lo > 0 then lo - 1 else 0, if hi > 0 then hi - 1 else 0;
      forall i | 0 <= i < |rest|
        ensures rest[i].Some? <==> lo' <= i < hi'
      {
        assert rest[i] == cells[i + 1];
      }
      PresentCountWindow(rest, lo', hi');
    }
  }

  /** The grid holds exactly as many days as the month has. */
  lemma GridCountsMonth(year: int, month: Month)
    ensures PresentCount(GenerateCalendar(year, month)) == DaysInMonth(year, month)
  {
    var cells := GenerateCalendar(year, month);
    var s := StartDay(year, month);
    PresentCountWindow(cells, s, s + DaysInMonth(year, month));
  }

  /** The first non-blank cell sits at the weekday index of the 1st and holds day 1. */
  lemma GridFirstDay(year: int, month: Month)
    ensures GenerateCalendar(year, month)[StartDay(year, month)] == Some(1)
    ensures forall i :: 0 <= i < StartDay(year, month) ==> GenerateCalendar(year, month)[i] == None
  {
  }

  /** The whole month fits: the last day is at index at most 36, so the last five cells are always blank. */
  lemma GridFits(year: int, month: Month)
    ensures StartDay(year, month) + DaysInMonth(year, month) - 1 <= 36
    ensures forall i :: 36 < i < GridSize ==> GenerateCalendar(year, month)[i] == None
  {
  }

  /** Every day of the month appears, at index startDay + day - 1, and no cell
      holds anything but a day of the month. */
  lemma GridHoldsEachDay(year: int, month: Month)
    ensures forall day :: 1 <= day <= DaysInMonth(year, month) ==>
      GenerateCalendar(year, month)[StartDay(year, month) + day - 1] == Some(day)
    ensures forall i :: 0 <= i < GridSize && GenerateCalendar(year, month)[i].Some? ==>
      1 <= GenerateCalendar(year, month)[i].value <= DaysInMonth(year, month)
  {
  }

  /** Day numbers increase strictly along the grid. */
  lemma GridIncreasing(year: int, month: Month, i: int, j: int)
    requires 0 <= i < j < GridSize
    requires GenerateCalendar(year, month)[i].Some? && GenerateCalendar(year, month)[j].Some?
    ensures GenerateCalendar(year, month)[i].value < GenerateCalendar(year, month)[j].value
  {
  }

  /** February 2024, a leap month starting on a Thursday, has 29 days in its
      grid from index 4; March 2024 has 31. */
  lemma LeapFebruaryGrid()
    ensures StartDay(2024, 1) == 4
    ensures PresentCount(GenerateCalendar(2024, 1)) == 29
    ensures PresentCount(GenerateCalendar(2024, 2)) == 31
  {
    WeekdayAnchors();
    GridCountsMonth(2024, 1);
    GridCountsMonth(2024, 2);
  }
}
