/** Working-day arithmetic and the rotation cursors of the rota engine.

A date is a day number counted from 0001-01-01, which is a Monday and is also the
zero value of the clock type; `d % 7` is therefore the weekday, with 5 and 6 the weekend.
The holiday checker is an arbitrary function; a missing checker is the constant `false`.
 */
module Rotation {
  import opened Wrappers

  type Date = int
  type HolidayChecker = Date -> bool

  const ZERO_DATE: Date := 0

  /** One stored (last_date, last_index) pair. */
  datatype Anchor = Anchor(date: Date, index: int)

  predicate IsWeekend(d: Date) {
    d % 7 == 5 || d % 7 == 6
  }

  predicate ShouldSkipDate(holiday: HolidayChecker, d: Date) {
    IsWeekend(d) || holiday(d)
  }

  /** The working days in the half-open range [from, until). */
  function WorkingDays(holiday: HolidayChecker, from: Date, until: Date): set<Date> {
    set d | from <= d < until && !ShouldSkipDate(holiday, d)
  }

  /** Signed number of working days between day 0 and `d`. */
  ghost function W(holiday: HolidayChecker, d: Date): int
    decreases if d < 0 then -d else d
  {
    if d == 0 then 0
    else if d > 0 then W(holiday, d - 1) + (if ShouldSkipDate(holiday, d - 1) then 0 else 1)
    else W(holiday, d + 1) - (if ShouldSkipDate(holiday, d) then 0 else 1)
  }

  lemma WStep(holiday: HolidayChecker, d: Date)
    ensures W(holiday, d + 1) == W(holiday, d) + (if ShouldSkipDate(holiday, d) then 0 else 1)
  {
  }

  /** The signed count is the number of working days in between. */
  lemma {:induction false} WCountsWorkingDays(holiday: HolidayChecker, from: Date, until: Date)
    requires from <= until
    ensures |WorkingDays(holiday, from, until)| == W(holiday, until) - W(holiday, from)
    decreases until - from
  {
    if from == until {
      assert WorkingDays(holiday, from, until) == {};
    } else {
      WCountsWorkingDays(holiday, from, until - 1);
      WStep(holiday, until - 1);
      var smaller := WorkingDays(holiday, from, until - 1);
      if ShouldSkipDate(holiday, until - 1) {
        assert WorkingDays(holiday, from, until) == smaller;
      } else {
        assert WorkingDays(holiday, from, until) == smaller + {until - 1};
      }
    }
  }

  lemma {:induction false} WMonotone(holiday: HolidayChecker, from: Date, until: Date)
    requires from <= until
    ensures 0 <= W(holiday, until) - W(holiday, from) <= until - from
    decreases until - from
  {
    if from < until {
      WMonotone(holiday, from, until - 1);
      WStep(holiday, until - 1);
    }
  }

  /** Remainder with the sign of the dividend, as the host language's `%` has it. */
  function TruncatedRem(x: int, m: int): int
    requires m > 0
  {
    if x >= 0 then x % m else -((-x) % m)
  }

  /** The slot index for any integer, negative ones included. */
  function ModNonNegative(x: int, m: int): (r: nat)
    requires m > 0
    ensures r < m
    ensures r == x % m
  {
    var r := TruncatedRem(x, m);
    NegativeMod(x, m);
    if r < 0 then r + m else r
  }

  lemma NegativeMod(x: int, m: int)
    requires m > 0
    ensures x < 0 ==> x % m == if (-x) % m == 0 then 0 else m - (-x) % m
  {
    if x < 0 {
      var q, r := (-x) / m, (-x) % m;
      assert -x == q * m + r;
      if r == 0 {
        ModUnique(x, m, -q, 0);
      } else {
        assert x == (-q - 1) * m + (m - r);
        ModUnique(x, m, -q - 1, m - r);
      }
    }
  }

  lemma ModUnique(x: int, m: int, q: int, r: int)
    requires m > 0 && 0 <= r < m && x == q * m + r
    ensures x % m == r
  {
    var k := q - x / m;
    MulDistributes(q, x / m, m);
    assert k * m == x % m - r;
    MulBound(k, m);
  }

  lemma MulDistributes(x: int, y: int, m: int)
    ensures (x - y) * m == x * m - y * m
  {
  }

  /** A multiple of `m` is zero or at least `m` away from zero. */
  lemma MulBound(k: int, m: int)
    requires m > 0
    ensures k == 0 || k * m >= m || k * m <= -m
  {
    if k >= 1 {
      assert k * m >= m;
    } else if k <= -1 {
      assert k * m <= -m;
    }
  }

  /** The three-way switch shared by the original, ad-hoc and reassign cursors. */
  function SlotFor(holiday: HolidayChecker, last: Anchor, d: Date, teamSize: nat): (slot: nat)
    ensures teamSize > 0 ==> slot < teamSize
  {
    if teamSize == 0 then 0
    else if d == last.date then ModNonNegative(last.index, teamSize)
    else if d > last.date then
      ModNonNegative(last.index + |WorkingDays(holiday, last.date, d)|, teamSize)
    else
      ModNonNegative(last.index - |WorkingDays(holiday, d, last.date)|, teamSize)
  }

  /** What a cursor means: the slot it would give at working-day count zero. */
  ghost function Phase(holiday: HolidayChecker, a: Anchor, teamSize: nat): int
    requires teamSize > 0
  {
    (a.index - W(holiday, a.date)) % teamSize
  }

  ghost function SlotOnDay(holiday: HolidayChecker, phase: int, d: Date, teamSize: nat): nat
    requires teamSize > 0
  {
    (phase + W(holiday, d)) % teamSize
  }

  lemma ModAdd(x: int, y: int, m: int)
    requires m > 0
    ensures (x % m + y) % m == (x + y) % m
  {
    var q := x / m;
    assert x == q * m + x % m;
    var s := x % m + y;
    var q2 := s / m;
    assert s == q2 * m + s % m;
    assert x + y == (q + q2) * m + s % m;
    ModUnique(x + y, m, q + q2, s % m);
  }

  /** Forward or backward, the switch computes phase plus working-day count. */
  lemma SlotIsPhasePlusCount(holiday: HolidayChecker, a: Anchor, d: Date, teamSize: nat)
    requires teamSize > 0
    ensures SlotFor(holiday, a, d, teamSize) == SlotOnDay(holiday, Phase(holiday, a, teamSize), d, teamSize)
  {
    ModAdd(a.index - W(holiday, a.date), W(holiday, d), teamSize);
    if d > a.date {
      WCountsWorkingDays(holiday, a.date, d);
    } else if d < a.date {
      WCountsWorkingDays(holiday, d, a.date);
    }
  }

  /** Moving a cursor to the slot it computed, forward or backward, conserves its phase. */
  lemma AdvanceKeepsPhase(holiday: HolidayChecker, a: Anchor, d: Date, teamSize: nat)
    requires teamSize > 0
    ensures Phase(holiday, Anchor(d, SlotFor(holiday, a, d, teamSize)), teamSize) == Phase(holiday, a, teamSize)
  {
    SlotIsPhasePlusCount(holiday, a, d, teamSize);
    var p := Phase(holiday, a, teamSize);
    ModAdd(p + W(holiday, d), -W(holiday, d), teamSize);
    assert p % teamSize == p by {
      ModAdd(a.index - W(holiday, a.date), 0, teamSize);
    }
  }

  /** The slots of two days agree exactly when their working-day counts agree modulo the team. */
  lemma SameSlotIff(holiday: HolidayChecker, phase: int, d: Date, e: Date, teamSize: nat)
    requires teamSize > 0
    ensures SlotOnDay(holiday, phase, d, teamSize) == SlotOnDay(holiday, phase, e, teamSize)
       <==> (W(holiday, d) - W(holiday, e)) % teamSize == 0
  {
    SameResidueIff(phase + W(holiday, d), phase + W(holiday, e), teamSize);
    assert (phase + W(holiday, d)) - (phase + W(holiday, e)) == W(holiday, d) - W(holiday, e);
  }

  lemma ResiduesAgreeIff(x: int, y: int, difference: int, m: int)
    requires m > 0 && x - y == difference
    ensures x % m == y % m <==> difference % m == 0
  {
    SameResidueIff(x, y, m);
  }

  lemma ShiftsAgreeIff(x: int, y: int, shift: int, difference: int, m: int)
    requires m > 0 && x - y == difference
    ensures (x % m + shift) % m == (y % m + shift) % m <==> difference % m == 0
  {
    ModAdd(x, shift, m);
    ModAdd(y, shift, m);
    ResiduesAgreeIff(x + shift, y + shift, difference, m);
  }

  lemma SameResidueIff(x: int, y: int, m: int)
    requires m > 0
    ensures x % m == y % m <==> (x - y) % m == 0
  {
    ResidueOfDifference(x, y, m);
    ModAdd(x - y, y, m);
    assert (x - y) + y == x;
  }

  /** Equal residues cancel. */
  lemma ResidueOfDifference(x: int, y: int, m: int)
    requires m > 0
    ensures x % m == y % m ==> (x - y) % m == 0
  {
    ModAdd(x, -y, m);
    ModAdd(y, -y, m);
    ModUnique(0, m, 0, 0);
  }
}
