/** Runs of arbitrary calls from an empty database: table shape, path independence and fairness. */
module Runs {
  import opened Wrappers
  import opened Rotation
  import opened Roster
  import opened CoverRuns
  import opened Reassign
  import opened Schedule
  import opened Histories
  import HatSwaps

  datatype Op =
    | GenerateRange(lo: Date, hi: Date)
    | FillMissing(lo: Date, hi: Date)
    | EnsureFrom(today: Date)
    | RegenerateRange(lo: Date, hi: Date)
    | CreateLeave(id: LeaveId, member: Member, start: Date, end: Date)
    | EditLeave(id: LeaveId, member: Member, start: Date, end: Date, status: string)
    | ChangeLeave(id: LeaveId)
    | DeleteLeave(id: LeaveId)
    | ReassignEverything
    | SwapRows(requester: Slot, target: Slot, requesterMember: Member, targetMember: Member)

  /** An accepted swap writes the captured pair crosswise and marks both rows. */
  function Swapped(t: Table, a: Slot, b: Slot, ma: Member, mb: Member): Table
    requires a in t && b in t
  {
    var t1 := t[a := t[a].(member := mb, swapped := true)];
    t1[b := t1[b].(member := ma, swapped := true)]
  }

  function Edited(leaves: seq<Leave>, l: Leave): seq<Leave> {
    seq(|leaves|, i requires 0 <= i < |leaves| => if leaves[i].id == l.id then l else leaves[i])
  }

  function Apply(team: Team, w: World, op: Op): World {
    match op
    case GenerateRange(lo, hi) => if team.members == [] then w else Generate(team, w, lo, hi).0
    case FillMissing(lo, hi) => MissingDays(team, w, lo, hi).world
    case EnsureFrom(today) => Ensure(team, w, today).world
    case RegenerateRange(lo, hi) => Regenerate(team, w, lo, hi).0
    case CreateLeave(id, m, start, end) =>
      if end < start || FindLeave(w.leaves, id).Some? then w
      else w.(leaves := w.leaves + [Leave(id, m, start, end, "pending")])
    case EditLeave(id, m, start, end, status) =>
      if end < start then w else w.(leaves := Edited(w.leaves, Leave(id, m, start, end, status)))
    case ChangeLeave(id) => LeaveChange(team, w, id).0
    case DeleteLeave(id) => LeaveDelete(team, w, id).0
    case ReassignEverything => ReassignAll(team, w)
    case SwapRows(a, b, ma, mb) =>
      if a in w.table && b in w.table then w.(table := Swapped(w.table, a, b, ma, mb)) else w
  }

  function Exec(team: Team, ops: seq<Op>): World {
    if ops == [] then EMPTY
    else Apply(team, Exec(team, ops[..|ops| - 1]), ops[|ops| - 1])
  }

  /** The swap log's view of the table: the same rows, found by id. */
  ghost predicate SameRows(rows: HatSwaps.Rows, t: Table) {
    ShowsRows(rows, t) && ShowsNoMore(rows, t)
  }

  ghost predicate ShowsRows(rows: HatSwaps.Rows, t: Table) {
    forall s :: s in t ==> t[s].id in rows && rows[t[s].id] == HatSwaps.Row(s.date, t[s].member, t[s].swapped)
  }

  ghost predicate ShowsNoMore(rows: HatSwaps.Rows, t: Table) {
    forall r :: r in rows ==> exists s :: s in t && t[s].id == r
  }

  /** What a committed acceptance does to the swap log's rows is what `SwapRows` does to the table. */
  lemma FlipIsSwapped(rows: HatSwaps.Rows, t: Table, s: HatSwaps.Swap, a: Slot, b: Slot)
    requires Shaped(t) && SameRows(rows, t)
    requires a in t && b in t && t[a].id == s.reqRow && t[b].id == s.tgtRow
    ensures SameRows(HatSwaps.Flip(rows, s), Swapped(t, a, b, s.requester, s.target))
  {
    FlippedRows(rows, t, s, a, b);
    HatSwaps.FlipWrites(rows, s);
    SwapKeepsIds(rows, HatSwaps.Flip(rows, s), t, Swapped(t, a, b, s.requester, s.target));
  }

  lemma FlippedRows(rows: HatSwaps.Rows, t: Table, s: HatSwaps.Swap, a: Slot, b: Slot)
    requires Shaped(t) && ShowsRows(rows, t)
    requires a in t && b in t && t[a].id == s.reqRow && t[b].id == s.tgtRow
    ensures var t' := Swapped(t, a, b, s.requester, s.target);
      && t'.Keys == t.Keys && (forall x :: x in t ==> t'[x].id == t[x].id)
      && ShowsRows(HatSwaps.Flip(rows, s), t')
  {
    var t' := Swapped(t, a, b, s.requester, s.target);
    forall x | x in t
      ensures t'[x].id == t[x].id && t'[x].id in HatSwaps.Flip(rows, s)
      ensures HatSwaps.Flip(rows, s)[t'[x].id] == HatSwaps.Row(x.date, t'[x].member, t'[x].swapped)
    {
      FlippedRow(rows, t, s, a, b, x);
    }
  }

  lemma FlippedRow(rows: HatSwaps.Rows, t: Table, s: HatSwaps.Swap, a: Slot, b: Slot, x: Slot)
    requires Shaped(t) && ShowsRows(rows, t) && x in t
    requires a in t && b in t && t[a].id == s.reqRow && t[b].id == s.tgtRow
    ensures var (rows', row) := (HatSwaps.Flip(rows, s), Swapped(t, a, b, s.requester, s.target)[x]);
      row.id == t[x].id && row.id in rows' && rows'[row.id] == HatSwaps.Row(x.date, row.member, row.swapped)
  {
    HatSwaps.FlipWrites(rows, s);
    SwappedRow(t, a, b, s.requester, s.target, x);
    assert t[x].id == s.reqRow <==> x == a;
    assert t[x].id == s.tgtRow <==> x == b;
  }

  lemma SwappedRow(t: Table, a: Slot, b: Slot, ma: Member, mb: Member, x: Slot)
    requires a in t && b in t && x in t
    ensures Swapped(t, a, b, ma, mb)[x] ==
      if x != a && x != b then t[x] else t[x].(member := if x == b then ma else mb, swapped := true)
  {
  }

  lemma SwapKeepsIds(rows: HatSwaps.Rows, rows': HatSwaps.Rows, t: Table, t': Table)
    requires t'.Keys == t.Keys && forall x :: x in t ==> t'[x].id == t[x].id
    requires rows'.Keys == rows.Keys && ShowsNoMore(rows, t)
    ensures ShowsNoMore(rows', t')
  {
    forall r | r in rows' ensures exists x :: x in t' && t'[x].id == r {
      assert r in rows;
      var x :| x in t && t[x].id == r;
      assert x in t' && t'[x].id == r;
    }
  }

  // ---------- every operation keeps the invariant ----------

  lemma {:induction false} AbsentLeave(leaves: seq<Leave>, id: LeaveId)
    requires FindLeave(leaves, id).None?
    ensures forall i :: 0 <= i < |leaves| ==> leaves[i].id != id
  {
    if leaves != [] {
      AbsentLeave(leaves[1..], id);
      assert forall i :: 1 <= i < |leaves| ==> leaves[i] == leaves[1..][i - 1];
    }
  }

  lemma SwapKeepsShape(t: Table, a: Slot, b: Slot, ma: Member, mb: Member)
    requires Shaped(t) && a in t && b in t
    ensures var t' := Swapped(t, a, b, ma, mb);
      && t'.Keys == t.Keys && Shaped(t')
      && forall s :: s in t ==> t'[s].id == t[s].id && (!t'[s].swapped ==> t'[s] == t[s])
  {
    var t' := Swapped(t, a, b, ma, mb);
    forall s | s in t
      ensures s in t' && t'[s].id == t[s].id && t'[s].original == t[s].original && (!t'[s].swapped ==> t'[s] == t[s])
    {
    }
  }

  lemma SwapCarries(team: Team, w: World, a: Slot, b: Slot, ma: Member, mb: Member)
    requires WellFormed(team, w) && a in w.table && b in w.table
    ensures Carries(team, w, w.(table := Swapped(w.table, a, b, ma, mb)))
  {
    SwapKeepsShape(w.table, a, b, ma, mb);
    if RotationOk(team, w.table, w.r1) { RotationTransfers(team, w.table, Swapped(w.table, a, b, ma, mb), w.r1); }
  }

  lemma CreateCarries(team: Team, w: World, l: Leave)
    requires WellFormed(team, w) && FindLeave(w.leaves, l.id).None?
    ensures Carries(team, w, w.(leaves := w.leaves + [l]))
  {
    AbsentLeave(w.leaves, l.id);
  }

  lemma EditCarries(team: Team, w: World, l: Leave)
    requires WellFormed(team, w)
    ensures Carries(team, w, w.(leaves := Edited(w.leaves, l)))
  {
    assert forall i :: 0 <= i < |w.leaves| ==> Edited(w.leaves, l)[i].id == w.leaves[i].id;
  }

  lemma EnsureCarries(team: Team, w: World, today: Date)
    requires WellFormed(team, w)
    ensures Carries(team, w, Ensure(team, w, today).world)
  {
    EnsureIsIdempotent(team, w, today);
  }

  lemma DeleteCarries(team: Team, w: World, id: LeaveId)
    requires WellFormed(team, w)
    ensures Carries(team, w, LeaveDelete(team, w, id).0)
  {
    LeaveDeleteRestores(team, w, id);
  }

  /** One call, made by any team on tables that any teams have written. */
  lemma ApplyCarries(team: Team, w: World, op: Op)
    requires WellFormed(team, w)
    ensures Carries(team, w, Apply(team, w, op))
  {
    match op
    case GenerateRange(lo, hi) => PlanningCarries(team, w, lo, hi);
    case FillMissing(lo, hi) => PlanningCarries(team, w, lo, hi);
    case EnsureFrom(today) => EnsureCarries(team, w, today);
    case RegenerateRange(lo, hi) => PlanningCarries(team, w, lo, hi);
    case CreateLeave(id, m, start, end) =>
      if FindLeave(w.leaves, id).None? { CreateCarries(team, w, Leave(id, m, start, end, "pending")); }
    case EditLeave(id, m, start, end, status) => EditCarries(team, w, Leave(id, m, start, end, status));
    case ChangeLeave(id) => LeaveChangeKeepsForm(team, w, id);
    case DeleteLeave(id) => DeleteCarries(team, w, id);
    case ReassignEverything => ReassignKeepsForm(team, w);
    case SwapRows(a, b, ma, mb) =>
      if a in w.table && b in w.table { SwapCarries(team, w, a, b, ma, mb); }
  }

  /** Any run of calls from an empty database, swaps included, keeps every cover pointing at the existing
      original of its own date, ids unique, and every unswapped original on its rotation slot. */
  lemma {:induction false} EveryRunIsSound(team: Team, ops: seq<Op>)
    requires Distinct(team.members)
    ensures Sound(team, Exec(team, ops))
  {
    if ops != [] {
      EveryRunIsSound(team, ops[..|ops| - 1]);
      ApplyCarries(team, Exec(team, ops[..|ops| - 1]), ops[|ops| - 1]);
    }
  }

  // ---------- a team that changes ----------

  /** A call and the team that the database lists when it is made. `HandleTeamChange` is `EnsureFrom`. */
  datatype Call = Call(team: Team, op: Op)

  function ExecCalls(calls: seq<Call>): World {
    if calls == [] then EMPTY
    else Apply(calls[|calls| - 1].team, ExecCalls(calls[..|calls| - 1]), calls[|calls| - 1].op)
  }

  ghost predicate DistinctTeams(calls: seq<Call>) {
    forall k :: 0 <= k < |calls| ==> Distinct(calls[k].team.members)
  }

  /** Any run of calls from an empty database, each by a team of its own, keeps every cover pointing at the
      existing original of its own date and ids unique, whichever team looks at the tables next. */
  lemma {:induction false} EveryRunIsFormed(calls: seq<Call>, team: Team)
    requires DistinctTeams(calls) && Distinct(team.members)
    ensures WellFormed(team, ExecCalls(calls))
  {
    if calls != [] {
      var n := |calls| - 1;
      EveryRunIsFormed(calls[..n], calls[n].team);
      ApplyCarries(calls[n].team, ExecCalls(calls[..n]), calls[n].op);
    }
  }

  /** A change of team after any such run: the window ends up full and free of covers that are stale, also where
      other teams wrote it, and handling the change again does nothing. */
  lemma TeamChangeFillsTheWindow(calls: seq<Call>, team: Team, today: Date)
    requires DistinctTeams(calls) && Distinct(team.members)
    ensures var w := ExecCalls(calls);
      var f := Ensure(team, w, today);
      && WindowDone(team, w, f, today, today + DAYS_AHEAD)
      && Ensure(team, f.world, today) == Filled(f.world, false, f.ok)
  {
    EveryRunIsFormed(calls, team);
    EnsureIsIdempotent(team, ExecCalls(calls), today);
  }

  // ---------- path independence ----------

  /** Two histories, however their generate, gap-fill and regenerate calls were ordered or split, put the
      same person on a date exactly when the dates they first wrote are a whole number of turns apart. */
  lemma OriginalsArePathIndependent(team: Team, ops: seq<Op>, ops': seq<Op>, d: Date)
    requires Distinct(team.members)
    requires var (w, w') := (Exec(team, ops), Exec(team, ops'));
      && w.r1 != [] && w'.r1 != []
      && Orig(d) in w.table && Orig(d) in w'.table
      && !w.table[Orig(d)].swapped && !w'.table[Orig(d)].swapped
    ensures var (w, w') := (Exec(team, ops), Exec(team, ops'));
      w.table[Orig(d)].member == w'.table[Orig(d)].member <==>
      |team.members| > 0 && (W(team.holiday, w.r1[0].date) - W(team.holiday, w'.r1[0].date)) % |team.members| == 0
  {
    var (w, w') := (Exec(team, ops), Exec(team, ops'));
    EveryRunIsSound(team, ops);
    EveryRunIsSound(team, ops');
    TwoSlotsAgreeIff(team, w, w', d);
  }

  lemma TwoSlotsAgreeIff(team: Team, w: World, w': World, d: Date)
    requires Sound(team, w) && w.r1 != [] && Orig(d) in w.table && !w.table[Orig(d)].swapped
    requires Sound(team, w') && w'.r1 != [] && Orig(d) in w'.table && !w'.table[Orig(d)].swapped
    ensures FirstSlotOn(team, w, d) == FirstSlotOn(team, w', d) <==>
      (W(team.holiday, w.r1[0].date) - W(team.holiday, w'.r1[0].date)) % |team.members| == 0
  {
    var (x, y) := (W(team.holiday, w.r1[0].date), W(team.holiday, w'.r1[0].date));
    ShiftsAgreeIff(-y, -x, W(team.holiday, d), x - y, |team.members|);
  }

  /** The slot an unswapped original must have, read off the first cursor row ever written. */
  ghost function FirstSlotOn(team: Team, w: World, d: Date): (k: nat)
    requires Sound(team, w) && w.r1 != [] && Orig(d) in w.table && !w.table[Orig(d)].swapped
    ensures k < |team.members| && w.table[Orig(d)].member == team.members[k]
    ensures k == (-W(team.holiday, w.r1[0].date) % |team.members| + W(team.holiday, d)) % |team.members|
  {
    SlotOnDay(team.holiday, Phase(team.holiday, w.r1[0], |team.members|), d, |team.members|)
  }

  // ---------- fairness ----------

  /** The working days of [from, until) that fall on a slot. */
  ghost function DaysOfSlot(holiday: HolidayChecker, phase: int, n: nat, slot: nat, from: Date, until: Date): set<Date>
    requires n > 0
  {
    set d | d in WorkingDays(holiday, from, until) && SlotOnDay(holiday, phase, d, n) == slot
  }

  /** Among `c` consecutive numbers starting at `first`, how many are congruent to `slot`. */
  ghost function Hits(first: int, c: nat, n: nat, slot: nat): nat
    requires n > 0
  {
    if c == 0 then 0 else Hits(first, c - 1, n, slot) + (if (first + (c - 1)) % n == slot then 1 else 0)
  }

  /** The same count in closed form. */
  ghost function Share(first: int, c: nat, n: nat, slot: nat): int
    requires n > 0
  {
    (c - (slot - first) % n + n - 1) / n
  }

  lemma DivStep(x: int, n: nat)
    requires n > 0
    ensures (x + 1) / n == x / n + (if (x + 1) % n == 0 then 1 else 0)
  {
    var q, r := x / n, x % n;
    assert x == q * n + r;
    if r == n - 1 {
      assert x + 1 == (q + 1) * n + 0;
      DivUnique(x + 1, n, q + 1, 0);
    } else {
      DivUnique(x + 1, n, q, r + 1);
    }
  }

  lemma DivUnique(x: int, n: nat, q: int, r: int)
    requires n > 0 && 0 <= r < n && x == q * n + r
    ensures x / n == q && x % n == r
  {
    ModUnique(x, n, q, r);
    assert x == (x / n) * n + x % n;
    MulDistributes(x / n, q, n);
    MulBound(x / n - q, n);
  }

  lemma ShareStep(first: int, c: nat, n: nat, slot: nat)
    requires n > 0 && slot < n
    ensures Share(first, 0, n, slot) == 0
    ensures Share(first, c + 1, n, slot) == Share(first, c, n, slot) + (if (first + c) % n == slot then 1 else 0)
  {
    var o := (slot - first) % n;
    DivUnique(0 - o + n - 1, n, 0, n - 1 - o);
    DivStep(c - o + n - 1, n);
    SameResidueIff(c + n, o, n);
    SameResidueIff(first + c, slot, n);
    ModUnique(slot, n, 0, slot);
    assert slot - first == ((slot - first) / n) * n + o;
    assert (c - o + n - 1) + 1 == (c + n) - o;
    assert (c + n) - o == (first + c - slot) + ((slot - first) / n + 1) * n by {
      assert ((slot - first) / n + 1) * n == ((slot - first) / n) * n + n;
    }
    SameResidueIff((c + n) - o, first + c - slot, n);
    ModUnique(((slot - first) / n + 1) * n, n, (slot - first) / n + 1, 0);
  }

  lemma DaysOfSlotStep(holiday: HolidayChecker, phase: int, n: nat, slot: nat, from: Date, until: Date)
    requires n > 0 && from <= until
    ensures |DaysOfSlot(holiday, phase, n, slot, from, until + 1)| == |DaysOfSlot(holiday, phase, n, slot, from, until)|
         + (if !ShouldSkipDate(holiday, until) && SlotOnDay(holiday, phase, until, n) == slot then 1 else 0)
  {
    var days := DaysOfSlot(holiday, phase, n, slot, from, until);
    assert DaysOfSlot(holiday, phase, n, slot, from, until + 1) ==
      if !ShouldSkipDate(holiday, until) && SlotOnDay(holiday, phase, until, n) == slot then days + {until} else days;
  }

  lemma HitsStep(phase: int, start: int, end: int, n: nat, slot: nat)
    requires n > 0 && start <= end
    ensures Hits(phase + start, end + 1 - start, n, slot) ==
      Hits(phase + start, end - start, n, slot) + (if (phase + end) % n == slot then 1 else 0)
  {
    assert phase + start + (end - start) == phase + end;
  }

  /** How many working days of a range fall on a slot depends only on the counts at its two ends. */
  ghost predicate SharesByCount(holiday: HolidayChecker, phase: int, n: nat, slot: nat, from: Date, until: Date)
    requires n > 0
  {
    && W(holiday, from) <= W(holiday, until)
    && |DaysOfSlot(holiday, phase, n, slot, from, until)|
       == Hits(phase + W(holiday, from), W(holiday, until) - W(holiday, from), n, slot)
  }

  lemma SlotShareStep(holiday: HolidayChecker, phase: int, n: nat, slot: nat, from: Date, until: Date)
    requires n > 0 && from <= until && SharesByCount(holiday, phase, n, slot, from, until)
    ensures SharesByCount(holiday, phase, n, slot, from, until + 1)
  {
    WStep(holiday, until);
    DaysOfSlotStep(holiday, phase, n, slot, from, until);
    HitsStep(phase, W(holiday, from), W(holiday, until), n, slot);
  }

  lemma {:induction false} SlotShare(holiday: HolidayChecker, phase: int, n: nat, slot: nat, from: Date, until: Date)
    requires n > 0 && from <= until
    ensures SharesByCount(holiday, phase, n, slot, from, until)
    decreases until - from
  {
    if from == until {
      assert DaysOfSlot(holiday, phase, n, slot, from, until) == {};
    } else {
      SlotShare(holiday, phase, n, slot, from, until - 1);
      SlotShareStep(holiday, phase, n, slot, from, until - 1);
    }
  }

  lemma {:induction false} HitsAreTheShare(first: int, c: nat, n: nat, slot: nat)
    requires n > 0 && slot < n
    ensures Hits(first, c, n, slot) == Share(first, c, n, slot)
  {
    if c == 0 {
      ShareStep(first, 0, n, slot);
    } else {
      HitsAreTheShare(first, c - 1, n, slot);
      ShareStep(first, c - 1, n, slot);
    }
  }

  lemma HitsAreClose(first: int, c: nat, n: nat, i: nat, j: nat)
    requires n > 0 && i < n && j < n
    ensures -1 <= Hits(first, c, n, i) - Hits(first, c, n, j) <= 1
    ensures c == n ==> Hits(first, c, n, i) == 1
  {
    HitsAreTheShare(first, c, n, i);
    HitsAreTheShare(first, c, n, j);
    var o := (i - first) % n;
    ShareBounds(c, o, n);
    ShareBounds(c, (j - first) % n, n);
    if c == n {
      DivUnique(n - o + n - 1, n, 1, n - 1 - o);
    }
  }

  lemma ShareBounds(c: nat, o: int, n: nat)
    requires n > 0 && 0 <= o < n
    ensures c / n <= (c - o + n - 1) / n <= c / n + 1
  {
    var q, r := c / n, c % n;
    assert c == q * n + r;
    if r - o + n - 1 >= n {
      assert c - o + n - 1 == (q + 1) * n + (r - o - 1);
      DivUnique(c - o + n - 1, n, q + 1, r - o - 1);
    } else {
      DivUnique(c - o + n - 1, n, q, r - o + n - 1);
    }
  }

  /** The dates of a range on which a member holds the original. */
  ghost function HatDays(t: Table, m: Member, from: Date, until: Date): set<Date> {
    set d | from <= d < until && Orig(d) in t && t[Orig(d)].member == m
  }

  /** A range generated by the rotation alone: originals on its working days, unswapped, and no others. */
  ghost predicate Generated(team: Team, t: Table, from: Date, until: Date) {
    forall d :: from <= d < until ==>
      (Orig(d) in t <==> !ShouldSkipDate(team.holiday, d)) && (Orig(d) in t ==> !t[Orig(d)].swapped)
  }

  lemma HatDaysAreSlotDays(team: Team, w: World, i: nat, from: Date, until: Date)
    requires Sound(team, w) && w.r1 != [] && i < |team.members| && Generated(team, w.table, from, until)
    ensures HatDays(w.table, team.members[i], from, until)
         == DaysOfSlot(team.holiday, Phase(team.holiday, w.r1[0], |team.members|), |team.members|, i, from, until)
  {
    var n := |team.members|;
    var phase := Phase(team.holiday, w.r1[0], n);
    forall d | from <= d < until
      ensures d in HatDays(w.table, team.members[i], from, until) <==>
              d in DaysOfSlot(team.holiday, phase, n, i, from, until)
    {
      if Orig(d) in w.table {
        var k := SlotOnDay(team.holiday, phase, d, n);
        assert w.table[Orig(d)].member == team.members[k];
        assert team.members[k] == team.members[i] <==> k == i;
      }
    }
  }

  /** Over any generated range the counts of two members differ by at most one, and in a block of
      exactly one turn everybody is the original once. */
  lemma RotationIsFair(team: Team, w: World, i: nat, j: nat, from: Date, until: Date)
    requires Sound(team, w) && w.r1 != [] && i < |team.members| && j < |team.members| && from <= until
    requires Generated(team, w.table, from, until)
    ensures
      var a := |HatDays(w.table, team.members[i], from, until)|;
      var b := |HatDays(w.table, team.members[j], from, until)|;
      -1 <= a - b <= 1
    ensures |WorkingDays(team.holiday, from, until)| == |team.members| ==>
      |HatDays(w.table, team.members[i], from, until)| == 1
  {
    var phase := Phase(team.holiday, w.r1[0], |team.members|);
    HatDaysAreSlotDays(team, w, i, from, until);
    HatDaysAreSlotDays(team, w, j, from, until);
    SlotsAreFair(team.holiday, phase, |team.members|, i, j, from, until);
  }

  // ---------- which histories are fair ----------

  /** Originals stand on working days only, and no swap has touched them. */
  ghost predicate PlainOriginals(team: Team, t: Table) {
    forall d :: Orig(d) in t ==> !t[Orig(d)].swapped && !ShouldSkipDate(team.holiday, d)
  }

  /** `t'` has the originals of `t`, or fewer, and otherwise only plain ones. */
  ghost predicate AddsPlain(team: Team, t: Table, t': Table) {
    forall d :: Orig(d) in t' ==>
      (Orig(d) in t && t'[Orig(d)] == t[Orig(d)]) || (!t'[Orig(d)].swapped && !ShouldSkipDate(team.holiday, d))
  }

  lemma DateAddsPlain(team: Team, w: World, d: Date)
    requires |team.members| > 0
    ensures AddsPlain(team, w.table, ProcessDate(team, w, d).0.table)
  {
  }

  lemma {:induction false} GenerateAddsPlain(team: Team, w: World, lo: Date, hi: Date)
    requires |team.members| > 0
    ensures AddsPlain(team, w.table, Generate(team, w, lo, hi).0.table)
    decreases hi - lo
  {
    if lo <= hi {
      GenerateAddsPlain(team, w, lo, hi - 1);
      DateAddsPlain(team, Generate(team, w, lo, hi - 1).0, hi);
    }
  }

  lemma {:induction false} FillAddsPlain(team: Team, w: World, lo: Date, hi: Date, busy: set<Date>)
    requires |team.members| > 0
    ensures AddsPlain(team, w.table, FillGaps(team, w, lo, hi, busy).world.table)
    decreases hi - lo
  {
    if lo <= hi {
      FillAddsPlain(team, w, lo, hi - 1, busy);
      DateAddsPlain(team, FillGaps(team, w, lo, hi - 1, busy).world, hi);
    }
  }

  lemma MissingDaysAddPlain(team: Team, w: World, lo: Date, hi: Date)
    ensures AddsPlain(team, w.table, MissingDays(team, w, lo, hi).world.table)
  {
    if team.members != [] { FillAddsPlain(team, w, lo, hi, BusyDates(w.table, lo, hi)); }
  }

  lemma SweepAddsPlain(team: Team, w: World, lo: Date, hi: Date)
    ensures AddsPlain(team, w.table, MissingDays(team, SweepCovers(team, w, lo, hi), lo, hi).world.table)
  {
    MissingDaysAddPlain(team, SweepCovers(team, w, lo, hi), lo, hi);
  }

  lemma SameOriginalsAddPlain(team: Team, t: Table, t': Table)
    requires forall d :: At(t', Orig(d)) == At(t, Orig(d))
    ensures AddsPlain(team, t, t')
  {
    forall d | Orig(d) in t' ensures Orig(d) in t && t'[Orig(d)] == t[Orig(d)] {
      assert At(t', Orig(d)) == At(t, Orig(d));
    }
  }

  lemma RegenerateAddsPlain(team: Team, w: World, lo: Date, hi: Date)
    ensures AddsPlain(team, w.table, Regenerate(team, w, lo, hi).0.table)
  {
    if team.members != [] { GenerateAddsPlain(team, w.(table := Cleared(w.table, lo, hi)), lo, hi); }
  }

  lemma ApplyAddsPlain(team: Team, w: World, op: Op)
    requires Sound(team, w) && !op.SwapRows?
    ensures AddsPlain(team, w.table, Apply(team, w, op).table)
  {
    match op
    case GenerateRange(lo, hi) => if team.members != [] { GenerateAddsPlain(team, w, lo, hi); }
    case FillMissing(lo, hi) => MissingDaysAddPlain(team, w, lo, hi);
    case EnsureFrom(today) => SweepAddsPlain(team, w, today, today + DAYS_AHEAD);
    case RegenerateRange(lo, hi) => RegenerateAddsPlain(team, w, lo, hi);
    case CreateLeave(id, m, start, end) =>
    case EditLeave(id, m, start, end, status) =>
    case ChangeLeave(id) =>
      LeaveChangeKeepsForm(team, w, id);
      SameOriginalsAddPlain(team, w.table, LeaveChange(team, w, id).0.table);
    case DeleteLeave(id) =>
      if FindLeave(w.leaves, id).Some? {
        var l := FindLeave(w.leaves, id).value;
        SweepAddsPlain(team, w.(leaves := Without(w.leaves, id)), l.start, l.end);
      }
    case ReassignEverything =>
      ReassignKeepsForm(team, w);
      SameOriginalsAddPlain(team, w.table, ReassignAll(team, w).table);
  }

  /** Without swaps, every history leaves unswapped originals, and only on working days. */
  lemma {:induction false} OriginalsStayPlain(team: Team, ops: seq<Op>)
    requires Distinct(team.members) && forall k :: 0 <= k < |ops| ==> !ops[k].SwapRows?
    ensures PlainOriginals(team, Exec(team, ops).table)
  {
    if ops != [] {
      var n := |ops| - 1;
      OriginalsStayPlain(team, ops[..n]);
      EveryRunIsSound(team, ops[..n]);
      ApplyAddsPlain(team, Exec(team, ops[..n]), ops[n]);
    }
  }

  /** Fairness of whole histories: any calls but swaps, in any order; any range that they have planned in full. */
  lemma HistoriesAreFair(team: Team, ops: seq<Op>, i: nat, j: nat, from: Date, until: Date)
    requires Distinct(team.members) && i < |team.members| && j < |team.members| && from <= until
    requires forall k :: 0 <= k < |ops| ==> !ops[k].SwapRows?
    requires Planned(team, Exec(team, ops).table, from, until - 1)
    ensures var t := Exec(team, ops).table;
      var (a, b) := (|HatDays(t, team.members[i], from, until)|, |HatDays(t, team.members[j], from, until)|);
      -1 <= a - b <= 1 && (|WorkingDays(team.holiday, from, until)| == |team.members| ==> a == 1)
  {
    var w := Exec(team, ops);
    EveryRunIsSound(team, ops);
    OriginalsStayPlain(team, ops);
    assert Generated(team, w.table, from, until);
    if w.r1 != [] {
      RotationIsFair(team, w, i, j, from, until);
    } else {
      NothingPlanned(team, w, i, from, until);
      NothingPlanned(team, w, j, from, until);
    }
  }

  lemma NothingPlanned(team: Team, w: World, i: nat, from: Date, until: Date)
    requires Sound(team, w) && w.r1 == [] && i < |team.members| && Planned(team, w.table, from, until - 1)
    ensures HatDays(w.table, team.members[i], from, until) == {} && WorkingDays(team.holiday, from, until) == {}
  {
    forall d ensures Orig(d) !in w.table {
      assert !Orig(d).isCover;
    }
  }

  lemma SlotsAreFair(holiday: HolidayChecker, phase: int, n: nat, i: nat, j: nat, from: Date, until: Date)
    requires i < n && j < n && from <= until
    ensures -1 <= |DaysOfSlot(holiday, phase, n, i, from, until)| - |DaysOfSlot(holiday, phase, n, j, from, until)| <= 1
    ensures |WorkingDays(holiday, from, until)| == n ==> |DaysOfSlot(holiday, phase, n, i, from, until)| == 1
  {
    SlotShare(holiday, phase, n, i, from, until);
    SlotShare(holiday, phase, n, j, from, until);
    WCountsWorkingDays(holiday, from, until);
    HitsAreClose(phase + W(holiday, from), W(holiday, until) - W(holiday, from), n, i, j);
  }
}
