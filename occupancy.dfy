/**
 * The bookkeeping of the auto-scheduler (server/src/controllers/timetable.ts): time slots,
 * existing exam slots, the per-day exam counts and used-slot sets rebuilt from them, and the
 * forced-break blocks seeded from those counts.
 */
module Occupancy {
  import opened Common
  import opened Calendar
  import opened Keys

  /** The `TimeSlot` enum of the database schema. */
  datatype TimeSlot = Slot8To10 | Slot10To12 | Slot1To3 | Slot3To5

  /** `Object.values(TimeSlot)` */
  const AllSlots: set<TimeSlot> := {Slot8To10, Slot10To12, Slot1To3, Slot3To5}

  /** An exam slot already stored for the timetable, with its course's department and level. */
  datatype ExistingSlot = ExistingSlot(date: Day, slot: TimeSlot, dept: nat, level: nat)

  function SlotKey(e: ExistingSlot): DeptLevel {
    DeptLevel(e.dept, e.level)
  }

  /** `examCountsOnDate`: date -> (department-level -> number of exams). */
  type Counts = map<Day, map<DeptLevel, nat>>

  /** `usedSlotsByDeptLevelOnDate`: (department-level, date) -> time slots it already uses. */
  type Used = map<(DeptLevel, Day), set<TimeSlot>>

  /** An entry `"<deptLevelKey>:<dateKey>"` of `skipSet`: the department-level must skip that date. */
  type Block = (DeptLevel, Day)

  /** `examCountsOnDate.get(d)?.get(k) || 0` */
  function CountOf(c: Counts, d: Day, k: DeptLevel): nat {
    if d in c && k in c[d] then c[d][k] else 0
  }

  /** `usedSlotsByDeptLevelOnDate.get(key) ?? new Set()` */
  function UsedOf(u: Used, k: DeptLevel, d: Day): set<TimeSlot> {
    if (k, d) in u then u[(k, d)] else {}
  }

  /** One more exam of `k` on `d`, creating the date's inner map when it is missing. */
  function Bump(c: Counts, d: Day, k: DeptLevel): (c': Counts)
    ensures CountOf(c', d, k) == CountOf(c, d, k) + 1
    ensures forall d', k' :: (d', k') != (d, k) ==> CountOf(c', d', k') == CountOf(c, d', k')
  {
    c[d := (if d in c then c[d] else map[])[k := CountOf(c, d, k) + 1]]
  }

  /** `slot` is now used by `k` on `d`. */
  function Mark(u: Used, k: DeptLevel, d: Day, slot: TimeSlot): (u': Used)
    ensures UsedOf(u', k, d) == UsedOf(u, k, d) + {slot}
    ensures forall k', d' :: (k', d') != (k, d) ==> UsedOf(u', k', d') == UsedOf(u, k', d')
  {
    u[(k, d) := UsedOf(u, k, d) + {slot}]
  }

  /** The number of existing slots of department-level `k` on `d`. */
  function ExistingCount(existing: seq<ExistingSlot>, d: Day, k: DeptLevel): nat {
    if existing == [] then 0
    else
      var e := existing[|existing| - 1];
      ExistingCount(existing[..|existing| - 1], d, k) + if e.date == d && SlotKey(e) == k then 1 else 0
  }

  /** The time slots existing slots of department-level `k` occupy on `d`. */
  function ExistingSlots(existing: seq<ExistingSlot>, k: DeptLevel, d: Day): set<TimeSlot> {
    if existing == [] then {}
    else
      var e := existing[|existing| - 1];
      ExistingSlots(existing[..|existing| - 1], k, d) + if e.date == d && SlotKey(e) == k then {e.slot} else {}
  }

  /** Lines 626-645: replay the existing slots into both maps. */
  method BuildOccupancy(existing: seq<ExistingSlot>) returns (counts: Counts, used: Used)
    ensures forall d, k :: CountOf(counts, d, k) == ExistingCount(existing, d, k)
    ensures forall k, d :: UsedOf(used, k, d) == ExistingSlots(existing, k, d)
  {
    counts, used := map[], map[];
    for i := 0 to |existing|
      invariant forall d, k :: CountOf(counts, d, k) == ExistingCount(existing[..i], d, k)
      invariant forall k, d :: UsedOf(used, k, d) == ExistingSlots(existing[..i], k, d)
    {
      var slot := existing[i];
      var shortDeptLvl := DeptLevel(slot.dept, slot.level);
      counts := Bump(counts, slot.date, shortDeptLvl);
      used := Mark(used, shortDeptLvl, slot.date, slot.slot);
      assert existing[..i + 1][..i] == existing[..i];
    }
    assert existing[..|existing|] == existing;
  }

  /** `d` is a date of `days` other than the first: the only dates a block can name. */
  ghost predicate LaterDay(days: seq<Day>, d: Day) {
    exists i :: 1 <= i < |days| && days[i] == d
  }

  /** Block `(k, d)` is forced by a date, just before `d` in `days`, on which `k` already has two exams. */
  ghost predicate ForcedBreak(days: seq<Day>, counts: Counts, k: DeptLevel, d: Day) {
    exists i :: 0 <= i < |days| - 1 && days[i + 1] == d && CountOf(counts, days[i], k) >= 2
  }

  /** Block `(k, d)` is forced by one of the first `i` dates of `days`. */
  ghost predicate ForcedWithin(days: seq<Day>, counts: Counts, i: nat, k: DeptLevel, d: Day) {
    exists j :: 0 <= j < i && j < |days| - 1 && days[j + 1] == d && CountOf(counts, days[j], k) >= 2
  }

  /** Looking at one more date adds exactly the block that date forces. */
  lemma ForcedWithinNext(days: seq<Day>, counts: Counts, i: nat)
    ensures forall k, d :: ForcedWithin(days, counts, i + 1, k, d) <==>
      ForcedWithin(days, counts, i, k, d) || (i < |days| - 1 && days[i + 1] == d && CountOf(counts, days[i], k) >= 2)
  {
    forall k, d | ForcedWithin(days, counts, i + 1, k, d)
      ensures ForcedWithin(days, counts, i, k, d) || (i < |days| - 1 && days[i + 1] == d && CountOf(counts, days[i], k) >= 2)
    {
      var j :| 0 <= j < i + 1 && j < |days| - 1 && days[j + 1] == d && CountOf(counts, days[j], k) >= 2;
      if j < i {
        assert ForcedWithin(days, counts, i, k, d);
      }
    }
  }

  /** Lines 668-682: seed `skipSet` with the day after every date holding two or more exams. */
  method InitialBlocks(days: seq<Day>, counts: Counts) returns (skip: set<Block>)
    ensures forall k, d :: (k, d) in skip <==> ForcedBreak(days, counts, k, d)
    ensures forall b :: b in skip ==> LaterDay(days, b.1)
  {
    skip := {};
    for i := 0 to |days|
      invariant forall k, d :: (k, d) in skip <==> ForcedWithin(days, counts, i, k, d)
    {
      ForcedWithinNext(days, counts, i);
      var dateKey := days[i];
      if dateKey !in counts {
        continue;
      }
      var dateMap := counts[dateKey];
      var entries := dateMap.Keys;
      while entries != {}
        invariant entries <= dateMap.Keys
        invariant forall k, d :: (k, d) in skip <==>
          (ForcedWithin(days, counts, i, k, d) || (k in dateMap.Keys - entries && i + 1 < |days| && days[i + 1] == d && dateMap[k] >= 2))
      {
        var deptLevelKey :| deptLevelKey in entries;
        if dateMap[deptLevelKey] >= 2 && i + 1 < |days| {
          skip := skip + {(deptLevelKey, days[i + 1])};
        }
        entries := entries - {deptLevelKey};
      }
    }
    forall k, d ensures ForcedWithin(days, counts, |days|, k, d) <==> ForcedBreak(days, counts, k, d) {
    }
    forall b | b in skip ensures LaterDay(days, b.1) {
      assert (b.0, b.1) == b;
      assert ForcedWithin(days, counts, |days|, b.0, b.1);
      var j :| 0 <= j < |days| - 1 && days[j + 1] == b.1 && CountOf(counts, days[j], b.0) >= 2;
      assert 1 <= j + 1 < |days| && days[j + 1] == b.1;
    }
  }
}
