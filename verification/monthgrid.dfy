/**
 * `calendar.monthcalendar(year, month)` with Monday as the first weekday:
 * the month's days laid out in weeks of seven cells, with zeros for the
 * cells before the first and after the last day.
 */
module MonthGrid {
  import opened Calendar

  /** `calendar.monthrange(y, m)[0]`: the weekday of the first of the month. */
  function FirstWeekday(y: int, m: int): (w: int)
    requires MinYear <= y <= MaxYear && 1 <= m <= 12
    ensures 0 <= w < 7
  {
    Weekday(Date(y, m, 1))
  }

  /** The cells `Calendar.itermonthdays` yields: leading zeros, the days 1..n, trailing zeros. */
  function MonthCells(y: int, m: int): seq<int>
    requires MinYear <= y <= MaxYear && 1 <= m <= 12
  {
    var lead := FirstWeekday(y, m);
    var n := DaysInMonth(y, m);
    var trail := (0 - lead - n) % 7;
    seq(lead, _ => 0) + seq(n, i => i + 1) + seq(trail, _ => 0)
  }

  /** The position of day d among the cells. */
  function CellOf(y: int, m: int, d: int): int
    requires MinYear <= y <= MaxYear && 1 <= m <= 12
  {
    FirstWeekday(y, m) + d - 1
  }

  lemma MonthCellsShape(y: int, m: int)
    requires MinYear <= y <= MaxYear && 1 <= m <= 12
    ensures |MonthCells(y, m)| % 7 == 0
    ensures 28 <= |MonthCells(y, m)| <= 42
    ensures forall k :: 0 <= k < |MonthCells(y, m)| ==>
      (MonthCells(y, m)[k] != 0 <==> 0 <= k - FirstWeekday(y, m) < DaysInMonth(y, m))
    ensures forall k :: 0 <= k < |MonthCells(y, m)| && MonthCells(y, m)[k] != 0 ==>
      MonthCells(y, m)[k] == k - FirstWeekday(y, m) + 1
  {
  }

  /** The month as a list of seven-day weeks, Monday first. */
  function MonthCalendar(y: int, m: int): (weeks: seq<seq<int>>)
    requires MinYear <= y <= MaxYear && 1 <= m <= 12
    ensures 4 <= |weeks| <= 6
    ensures forall w :: 0 <= w < |weeks| ==> |weeks[w]| == 7
    ensures forall w, j :: 0 <= w < |weeks| && 0 <= j < 7 && weeks[w][j] != 0 ==>
      1 <= weeks[w][j] <= DaysInMonth(y, m) && weeks[w][j] == 7 * w + j - FirstWeekday(y, m) + 1
    ensures forall d :: 1 <= d <= DaysInMonth(y, m) ==>
      CellOf(y, m, d) < 7 * |weeks| && weeks[CellOf(y, m, d) / 7][CellOf(y, m, d) % 7] == d
  {
    var cells := MonthCells(y, m);
    MonthCellsShape(y, m);
    var weeks := seq(|cells| / 7, w requires 0 <= w < |cells| / 7 => cells[7 * w .. 7 * w + 7]);
    assert forall w, j :: 0 <= w < |weeks| && 0 <= j < 7 ==> weeks[w][j] == cells[7 * w + j];
    assert forall d :: 1 <= d <= DaysInMonth(y, m) ==>
      var k := CellOf(y, m, d); k == 7 * (k / 7) + k % 7 && cells[k] == d;
    weeks
  }

  /** Each day sits in the column of its weekday. */
  lemma {:induction false} DayColumnIsWeekday(y: int, m: int, w: int, j: int)
    requires MinYear <= y <= MaxYear && 1 <= m <= 12
    requires 0 <= w < |MonthCalendar(y, m)| && 0 <= j < 7
    requires MonthCalendar(y, m)[w][j] != 0
    ensures Weekday(Date(y, m, MonthCalendar(y, m)[w][j])) == j
  {
    var d := MonthCalendar(y, m)[w][j];
    WeekdayInMonth(y, m, d);
    ColumnOfCell(FirstWeekday(y, m) + d - 1, w, j);
  }

  /** Cell 7w + j of the flat list lies in column j. */
  lemma ColumnOfCell(k: int, w: int, j: int)
    requires k == 7 * w + j && 0 <= j < 7
    ensures k % 7 == j
  {
  }

  /** Every day of the month appears in exactly one cell. */
  lemma DaysExactlyOnce(y: int, m: int, d: int, w: int, j: int)
    requires MinYear <= y <= MaxYear && 1 <= m <= 12
    requires 1 <= d <= DaysInMonth(y, m)
    requires 0 <= w < |MonthCalendar(y, m)| && 0 <= j < 7
    ensures MonthCalendar(y, m)[w][j] == d <==> w == CellOf(y, m, d) / 7 && j == CellOf(y, m, d) % 7
  {
  }

  /** Read row by row, the days increase. */
  lemma DaysIncrease(y: int, m: int, w1: int, j1: int, w2: int, j2: int)
    requires MinYear <= y <= MaxYear && 1 <= m <= 12
    requires 0 <= w1 < |MonthCalendar(y, m)| && 0 <= j1 < 7
    requires 0 <= w2 < |MonthCalendar(y, m)| && 0 <= j2 < 7
    requires 7 * w1 + j1 < 7 * w2 + j2
    requires MonthCalendar(y, m)[w1][j1] != 0 && MonthCalendar(y, m)[w2][j2] != 0
    ensures MonthCalendar(y, m)[w1][j1] < MonthCalendar(y, m)[w2][j2]
  {
  }

  /** The last non-zero cell is the month's last day. */
  lemma LastDayCell(y: int, m: int)
    requires MinYear <= y <= MaxYear && 1 <= m <= 12
    ensures var weeks := MonthCalendar(y, m);
      var k := CellOf(y, m, DaysInMonth(y, m));
      && weeks[k / 7][k % 7] == DaysInMonth(y, m)
      && forall w, j :: 0 <= w < |weeks| && 0 <= j < 7 && 7 * w + j > k ==> weeks[w][j] == 0
  {
  }
}
