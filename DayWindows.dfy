/** The sequence of one-day windows [minDay, maxDay) the export walks through. */
module DayWindows {
  import opened Calendar

  /** The first days of the windows from start up to end: start, then every
      next day, as long as the day is before end. */
  function Windows(start: Date, end: Date): (ws: seq<Date>)
    requires Valid(start) && Valid(end)
    ensures forall i :: 0 <= i < |ws| ==>
              Supported(ws[i]) && !Before(ws[i], start) && Before(ws[i], end)
    decreases Rank(end) - Rank(start)
  {
    if Before(start, end) then
      BeforeRank(start, end);
      NextDayRank(start);
      [start] + Windows(NextDay(start), end)
    else []
  }

  /** A valid date is a window exactly when it lies in [start, end). */
  lemma {:induction false} WindowsAreTheDaysInRange(start: Date, end: Date, d: Date)
    requires Valid(start) && Valid(end) && Valid(d)
    ensures d in Windows(start, end) <==> !Before(d, start) && Before(d, end)
    decreases Rank(end) - Rank(start)
  {
    if Before(start, end) {
      BeforeRank(start, end);
      NextDayRank(start);
      NextDayIsSuccessor(start, d);
      WindowsAreTheDaysInRange(NextDay(start), end, d);
    }
  }

  /** The windows start at start and each one is the day after the previous one. */
  lemma {:induction false} WindowsConsecutive(start: Date, end: Date)
    requires Valid(start) && Valid(end)
    ensures |Windows(start, end)| > 0 ==> Windows(start, end)[0] == start
    ensures forall i :: 0 <= i < |Windows(start, end)| - 1 ==>
              Windows(start, end)[i + 1] == NextDay(Windows(start, end)[i])
    decreases Rank(end) - Rank(start)
  {
    if Before(start, end) {
      BeforeRank(start, end);
      NextDayRank(start);
      WindowsConsecutive(NextDay(start), end);
    }
  }

  /** The windows strictly increase, so no day is visited twice. */
  lemma {:induction false} WindowsIncreasing(start: Date, end: Date, i: int, j: int)
    requires Valid(start) && Valid(end)
    requires 0 <= i < j < |Windows(start, end)|
    ensures Before(Windows(start, end)[i], Windows(start, end)[j])
    decreases Rank(end) - Rank(start)
  {
    BeforeRank(start, end);
    NextDayRank(start);
    var ws := Windows(start, end);
    var rest := Windows(NextDay(start), end);
    assert ws == [start] + rest;
    if i > 0 {
      WindowsIncreasing(NextDay(start), end, i - 1, j - 1);
    } else {
      assert !Before(rest[j - 1], NextDay(start));
    }
  }

  /** Moving the end one day further adds exactly the old end as a window. */
  lemma {:induction false} WindowsSnoc(start: Date, d: Date)
    requires Valid(start) && Supported(d) && !Before(d, start)
    ensures Windows(start, NextDay(d)) == Windows(start, d) + [d]
    decreases Rank(d) - Rank(start)
  {
    var n := NextDay(d);
    if start == d {
      assert !Before(n, n);
    } else {
      BeforeRank(start, d);
      NextDayRank(start);
      NextDayIsSuccessor(start, d);
      assert Before(start, n);
      WindowsSnoc(NextDay(start), d);
    }
  }

  lemma WindowsOfFirstDaysOf2024()
    ensures Windows(Date(2024, 1, 1), Date(2024, 1, 4))
            == [Date(2024, 1, 1), Date(2024, 1, 2), Date(2024, 1, 3)]
  {
    var e := Date(2024, 1, 4);
    assert Windows(e, e) == [];
    assert Windows(Date(2024, 1, 3), e) == [Date(2024, 1, 3)];
    assert Windows(Date(2024, 1, 2), e) == [Date(2024, 1, 2), Date(2024, 1, 3)];
  }

  /** Across the leap day and the end of February. */
  lemma WindowsAcrossTheLeapDay()
    ensures Windows(Date(2024, 2, 28), Date(2024, 3, 2))
            == [Date(2024, 2, 28), Date(2024, 2, 29), Date(2024, 3, 1)]
  {
    var e := Date(2024, 3, 2);
    assert Windows(e, e) == [];
    assert Windows(Date(2024, 3, 1), e) == [Date(2024, 3, 1)];
    assert Windows(Date(2024, 2, 29), e) == [Date(2024, 2, 29), Date(2024, 3, 1)];
  }

  /** Across the end of a year. */
  lemma WindowsAcrossNewYear()
    ensures Windows(Date(2023, 12, 31), Date(2024, 1, 2))
            == [Date(2023, 12, 31), Date(2024, 1, 1)]
  {
    var e := Date(2024, 1, 2);
    assert Windows(e, e) == [];
    assert Windows(Date(2024, 1, 1), e) == [Date(2024, 1, 1)];
  }
}
