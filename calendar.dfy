/**
 * Calendar days and the weekday enumeration. A date is modelled as the number of
 * days since 1970-01-01, which was a Thursday.
 */
module Calendar {
  import opened Common

  type Day = int

  /** `Date.prototype.getDay()`: 0 is Sunday, 6 is Saturday. */
  function DayOfWeek(d: Day): (w: int)
    ensures 0 <= w < 7
  {
    (d + 4) % 7
  }

  /** `isWeekday` in the server: neither Sunday (0) nor Saturday (6). */
  predicate IsWeekday(d: Day) {
    DayOfWeek(d) != 0 && DayOfWeek(d) != 6
  }

  /** date-fns `isWeekend`: Saturday or Sunday. */
  predicate IsWeekend(d: Day) {
    DayOfWeek(d) == 6 || DayOfWeek(d) == 0
  }

  /** The next day's weekday is one further round the week. */
  lemma NextDayOfWeek(d: Day)
    ensures DayOfWeek(d + 1) == if DayOfWeek(d) == 6 then 0 else DayOfWeek(d) + 1
  {
  }

  /** Of any three consecutive days at least one is a weekday. */
  lemma WeekendRunsAreShort(d: Day)
    requires IsWeekend(d) && IsWeekend(d - 1)
    ensures IsWeekday(d - 2)
  {
    NextDayOfWeek(d - 2);
    NextDayOfWeek(d - 1);
  }

  /** The weekdays from `start` to `end` inclusive, in ascending order. */
  function Weekdays(start: Day, end: Day): seq<Day>
    decreases end - start
  {
    if start > end then []
    else (if IsWeekday(start) then [start] else []) + Weekdays(start + 1, end)
  }

  /** Exactly the weekdays of the range, each once, strictly increasing. */
  lemma {:induction false} WeekdaysSpec(start: Day, end: Day)
    ensures StrictlyIncreasing(Weekdays(start, end))
    ensures forall d :: d in Weekdays(start, end) <==> start <= d <= end && IsWeekday(d)
    decreases end - start
  {
    if start <= end {
      WeekdaysSpec(start + 1, end);
      var rest := Weekdays(start + 1, end);
      assert forall k :: 0 <= k < |rest| ==> rest[k] in rest && rest[k] > start;
    }
  }

  /**
   * `getWeekdaysBetweenDates`: walk from `startDate` to `endDate` a day at a time and keep
   * the weekdays.
   */
  method WeekdaysBetween(start: Day, end: Day) returns (dates: seq<Day>)
    ensures dates == Weekdays(start, end)
    ensures StrictlyIncreasing(dates)
    ensures forall d :: d in dates <==> start <= d <= end && IsWeekday(d)
    ensures dates == [] <==> forall d :: start <= d <= end ==> !IsWeekday(d)
  {
    dates := [];
    var current := start;
    while current <= end
      invariant dates + Weekdays(current, end) == Weekdays(start, end)
      decreases end - current
    {
      if IsWeekday(current) {
        dates := dates + [current];
      }
      current := current + 1;
    }
    WeekdaysSpec(start, end);
    if dates != [] {
      assert dates[0] in dates;
    }
  }
}
