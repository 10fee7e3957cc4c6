/**
 * The week shown by the calendar view and the colour cache of its cells
 * (client/src/components/TimetableCalendarView.tsx).
 */
module CalendarView {
  import opened Common
  import opened Calendar

  function Min(a: int, b: int): int {
    if a <= b then a else b
  }

  /**
   * `weekDays` when a start and an end date are given (263-280): the Monday-to-Friday dates from
   * the start up to the end, stopping once five have been collected.
   */
  method WeekDays(start: Day, end: Day) returns (days: seq<Day>)
    ensures days == Weekdays(start, end)[..Min(5, |Weekdays(start, end)|)]
  {
    days := [];
    var current := start;
    while current <= end
      invariant days + Weekdays(current, end) == Weekdays(start, end)
      invariant |days| < 5
      decreases end - current
    {
      if IsWeekday(current) {
        days := days + [current];
      }
      current := current + 1;
      if |days| >= 5 {
        break;
      }
    }
    assert days + Weekdays(current, end) == Weekdays(start, end);
    assert days == Weekdays(start, end)[..|days|];
  }

  /** The week shown is at most five days, ascending, each a weekday of the range. */
  lemma WeekDaysShown(start: Day, end: Day)
    ensures |Weekdays(start, end)[..Min(5, |Weekdays(start, end)|)]| <= 5
    ensures StrictlyIncreasing(Weekdays(start, end)[..Min(5, |Weekdays(start, end)|)])
    ensures forall d :: d in Weekdays(start, end)[..Min(5, |Weekdays(start, end)|)] ==> start <= d <= end && IsWeekday(d)
    ensures |Weekdays(start, end)| < 5 ==> Weekdays(start, end)[..Min(5, |Weekdays(start, end)|)] == Weekdays(start, end)
  {
    WeekdaysSpec(start, end);
    var all := Weekdays(start, end);
    var shown := all[..Min(5, |all|)];
    forall d | d in shown
      ensures start <= d <= end && IsWeekday(d)
    {
      var i :| 0 <= i < |shown| && shown[i] == d;
      assert all[i] in all;
    }
  }

  /** `${n}` for a natural number: its decimal digits. */
  function NatText(n: nat): (s: string)
    ensures s != [] && forall i :: 0 <= i < |s| ==> '0' <= s[i] <= '9'
  {
    var digit := ['0' + (n % 10) as char];
    if n < 10 then digit else NatText(n / 10) + digit
  }

  /** Different numbers print differently. */
  lemma {:induction false} NatTextInjective(a: nat, b: nat)
    requires NatText(a) == NatText(b)
    ensures a == b
  {
    var sa, sb := NatText(a), NatText(b);
    assert sa[|sa| - 1] == sb[|sb| - 1];
    if a >= 10 && b >= 10 {
      assert sa[..|sa| - 1] == NatText(a / 10);
      assert sb[..|sb| - 1] == NatText(b / 10);
      NatTextInjective(a / 10, b / 10);
    } else if a >= 10 || b >= 10 {
      // one of the texts has two digits or more and the other one
      assert false;
    }
  }

  /** The cache key `dept-${departmentId}-${level}`. */
  function ColorKey(departmentId: string, level: nat): string {
    "dept-" + departmentId + "-" + NatText(level)
  }

  /** A key ends with the level's digits, preceded by a '-'. */
  lemma KeyShape(departmentId: string, level: nat)
    ensures var k, s := ColorKey(departmentId, level), NatText(level);
      && k[|k| - |s| - 1] == '-'
      && forall j :: |k| - |s| <= j < |k| ==> '0' <= k[j] <= '9'
  {
    var k, s := ColorKey(departmentId, level), NatText(level);
    assert k == ("dept-" + departmentId + "-") + s;
  }

  /**
   * The key names one department-level: the level's digits contain no '-', so the last '-'
   * of the key separates the department id from the level.
   */
  lemma ColorKeyInjective(id1: string, level1: nat, id2: string, level2: nat)
    requires ColorKey(id1, level1) == ColorKey(id2, level2)
    ensures id1 == id2 && level1 == level2
  {
    var s1, s2 := NatText(level1), NatText(level2);
    var k := ColorKey(id1, level1);
    assert k == ("dept-" + id1 + "-") + s1 && k == ("dept-" + id2 + "-") + s2;
    KeyShape(id1, level1);
    KeyShape(id2, level2);
    // the '-' before the shorter level text would be a digit of the longer one
    if |s1| < |s2| {
      assert false;
    } else if |s2| < |s1| {
      assert false;
    } else {
      assert s1 == k[|k| - |s1|..] == s2;
      NatTextInjective(level1, level2);
      assert "dept-" + id1 == k[..|k| - |s1| - 1] == "dept-" + id2;
      assert id1 == ("dept-" + id1)[5..] == ("dept-" + id2)[5..] == id2;
    }
  }

  /**
   * The cache after a lookup of a department-level: a key without a colour (absent, or the
   * empty string, which is falsy) gets `hashed`; a key with one keeps it.
   */
  function CacheAfter(colors: map<string, string>, departmentId: string, level: nat, hashed: string): map<string, string> {
    var key := ColorKey(departmentId, level);
    if key !in colors || colors[key] == "" then colors[key := hashed] else colors
  }

  /**
   * The module-level `DEPARTMENT_LEVEL_COLORS` record behind `getDepartmentLevelColor`
   * (232-249). The colour a key gets the first time is passed in as `hashed`: the hash that
   * computes it is not part of this model.
   */
  class ColorCache {
    var colors: map<string, string>

    constructor ()
      ensures colors == map[]
    {
      colors := map[];
    }

    /** The colour of a department-level, written into the cache only when it has none. */
    method ColorFor(departmentId: string, level: nat, hashed: string) returns (color: string)
      modifies this
      ensures colors == CacheAfter(old(colors), departmentId, level, hashed)
      ensures color == colors[ColorKey(departmentId, level)]
    {
      var key := ColorKey(departmentId, level);
      if key !in colors || colors[key] == "" {
        colors := colors[key := hashed];
      }
      color := colors[key];
    }
  }

  /**
   * Memoisation: a colour already cached is returned unchanged, a second lookup of the same
   * department-level changes nothing whatever colour it would compute, and a lookup leaves
   * every other department-level's colour as it was.
   */
  lemma {:induction false} ColorMemo(colors: map<string, string>, departmentId: string, level: nat, hashed: string)
    requires hashed != ""
    ensures var key := ColorKey(departmentId, level);
      key in colors && colors[key] != "" ==> CacheAfter(colors, departmentId, level, hashed) == colors
    ensures forall again ::
      CacheAfter(CacheAfter(colors, departmentId, level, hashed), departmentId, level, again) ==
      CacheAfter(colors, departmentId, level, hashed)
    ensures forall id: string, l: nat :: (id, l) != (departmentId, level) && ColorKey(id, l) in colors ==>
      CacheAfter(colors, departmentId, level, hashed)[ColorKey(id, l)] == colors[ColorKey(id, l)]
  {
    forall id: string, l: nat | (id, l) != (departmentId, level) && ColorKey(id, l) in colors
      ensures CacheAfter(colors, departmentId, level, hashed)[ColorKey(id, l)] == colors[ColorKey(id, l)]
    {
      if ColorKey(id, l) == ColorKey(departmentId, level) {
        ColorKeyInjective(id, l, departmentId, level);
      }
    }
  }
}
