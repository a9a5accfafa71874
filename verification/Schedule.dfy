/** The persistent state of the scheduler and what each maintenance call makes of it. */
module Schedule {
  import opened Wrappers
  import opened Rotation
  import opened Roster
  import opened CoverRuns
  import opened Reassign

  /** The single row of `cover_rotation_state`. */
  datatype CoverRow = CoverRow(last: Anchor, reassign: Option<Anchor>)

  /** The members in the order of the member query, the holidays, and which stored row of `r1_rotation_state`
      an unordered single-row query returns: an arbitrary function of what the table holds. */
  datatype Team = Team(members: seq<Member>, holiday: HolidayChecker, anyRow: seq<Anchor> -> nat)

  /** `r1` holds every row ever written to `r1_rotation_state`: that table has no key,
      so INSERT OR REPLACE always appends. */
  datatype World = World(table: Table, nextId: RowId, leaves: seq<Leave>, r1: seq<Anchor>, coverRow: Option<CoverRow>)

  /** The state of an empty database. */
  const EMPTY := World(map[], 0, [], [], None)

  const DAYS_AHEAD := 14

  function EnvOf(team: Team, w: World): Env {
    Env(team.members, team.holiday, Views(w.leaves))
  }

  function AdHocAnchor(row: Option<CoverRow>): Option<Anchor> {
    match row
    case None => None
    case Some(r) => Some(r.last)
  }

  function WriteAdHoc(row: Option<CoverRow>, a: Anchor): Option<CoverRow> {
    Some(CoverRow(a, if row.Some? then row.value.reassign else None))
  }

  /** On a database without the row, the seeding insert violates NOT NULL and is ignored,
      so the update that follows finds nothing to write to. */
  function WriteReassign(row: Option<CoverRow>, a: Anchor): Option<CoverRow> {
    match row
    case None => None
    case Some(r) => Some(r.(reassign := Some(a)))
  }

  // ---------- leaves ----------

  function FindLeave(leaves: seq<Leave>, id: LeaveId): Option<Leave> {
    if leaves == [] then None
    else if leaves[0].id == id then Some(leaves[0])
    else FindLeave(leaves[1..], id)
  }

  function MarkAssigned(leaves: seq<Leave>, id: LeaveId): (r: seq<Leave>)
    ensures |r| == |leaves|
  {
    seq(|leaves|, i requires 0 <= i < |leaves| =>
      if leaves[i].id == id then leaves[i].(status := STATUS_ASSIGNED) else leaves[i])
  }

  function MarkAll(leaves: seq<Leave>, log: seq<Commit>): seq<Leave> {
    if log == [] then leaves
    else MarkAssigned(MarkAll(leaves, log[..|log| - 1]), log[|log| - 1].leave)
  }

  function Without(leaves: seq<Leave>, id: LeaveId): seq<Leave> {
    if leaves == [] then []
    else if leaves[0].id == id then Without(leaves[1..], id)
    else [leaves[0]] + Without(leaves[1..], id)
  }

  ghost predicate LeavesOk(leaves: seq<Leave>) {
    forall i, j :: 0 <= i < j < |leaves| ==> leaves[i].id != leaves[j].id
  }

  /** Chronological order; leaves that start together keep the order they were read in. */
  function InsertByStart(sorted: seq<Leave>, l: Leave): seq<Leave> {
    if sorted != [] && sorted[|sorted| - 1].start > l.start
    then InsertByStart(sorted[..|sorted| - 1], l) + [sorted[|sorted| - 1]]
    else sorted + [l]
  }

  function SortedByStart(leaves: seq<Leave>): seq<Leave> {
    if leaves == [] then [] else InsertByStart(SortedByStart(leaves[..|leaves| - 1]), leaves[|leaves| - 1])
  }

  // ---------- cover assignment ----------

  /** The effect of the commits of one ad-hoc call on everything but the table. */
  function AfterAdHoc(w: World, p: Progress): World {
    w.(table := p.table, nextId := p.nextId, leaves := MarkAll(w.leaves, p.log),
       coverRow := if p.log == [] then w.coverRow
                   else WriteAdHoc(w.coverRow, Anchor(p.log[|p.log| - 1].date, p.log[|p.log| - 1].slot)))
  }

  function AfterReassign(w: World, p: Progress): World {
    w.(table := p.table, nextId := p.nextId, leaves := MarkAll(w.leaves, p.log),
       coverRow := if p.log == [] then w.coverRow
                   else WriteReassign(w.coverRow, Anchor(p.log[|p.log| - 1].date, p.log[|p.log| - 1].slot)))
  }

  function LeaveChange(team: Team, w: World, id: LeaveId): (World, bool) {
    match FindLeave(w.leaves, id)
    case None => (w, false)
    case Some(l) =>
      (AfterAdHoc(w, Run(EnvOf(team, w), Rotor(AdHoc, AdHocAnchor(w.coverRow)),
                         Progress(w.table, w.nextId, []), LeaveEvents(View(l)))), true)
  }

  function ReassignAll(team: Team, w: World): World {
    AfterReassign(w, Run(EnvOf(team, w), FRESH, Progress(w.table, w.nextId, []),
                         AllEvents(Views(SortedByStart(w.leaves)))))
  }

  function SweepCovers(team: Team, w: World, lo: Date, hi: Date): World {
    w.(table := Reconciled(EnvOf(team, w), w.table, lo, hi))
  }

  // ---------- schedule generation ----------

  /** The cursor row that the query returns. */
  function ReadRow(team: Team, r1: seq<Anchor>): (a: Anchor)
    requires r1 != []
    ensures a in r1
  {
    r1[team.anyRow(r1) % |r1|]
  }

  /** The slot of the original, from the row that is read. Rows written by one team all give the same slot
      (`AnyRowGivesTheSlot`); after a change of team they need not (`RowsAgreeIff`). */
  function OriginalSlot(team: Team, r1: seq<Anchor>, d: Date): (slot: nat)
    ensures |team.members| > 0 ==> slot < |team.members|
  {
    if r1 == [] then 0 else SlotFor(team.holiday, ReadRow(team, r1), d, |team.members|)
  }

  function CoverFor(team: Team, w: World, d: Date, m: Member): Option<nat> {
    if m in Away(EnvOf(team, w), d) then Pick(EnvOf(team, w), AdHocAnchor(w.coverRow), d) else None
  }

  /** The rows of a date that had none: an original, and possibly a cover for it. */
  function WriteDate(t: Table, next: RowId, d: Date, m: Member, cover: Option<Member>): Table {
    var t1 := t[Orig(d) := Row(next, m, false, None)];
    if cover.None? then t1 else t1[Cov(d) := Row(next + 1, cover.value, false, Some(next))]
  }

  /** One date: the original row, and a cover if the original is on leave and somebody is free.
      A row that violates UNIQUE(date, is_cover) stops the call; what was written before stays. */
  function ProcessDate(team: Team, w: World, d: Date): (World, bool)
    requires |team.members| > 0
  {
    if ShouldSkipDate(team.holiday, d) then (w, true)
    else
      var i := OriginalSlot(team, w.r1, d);
      var m := team.members[i];
      var k := CoverFor(team, w, d, m);
      var w1 := if k.Some? then w.(coverRow := WriteAdHoc(w.coverRow, Anchor(d, k.value))) else w;
      if Orig(d) in w.table then (w1, false)
      else
        var w2 := w1.(table := WriteDate(w.table, w.nextId, d, m, None),
                      nextId := w.nextId + 1, r1 := w.r1 + [Anchor(d, i)]);
        if k.None? then (w2, true)
        else if Cov(d) in w.table then (w2, false)
        else (w2.(table := WriteDate(w.table, w.nextId, d, m, Some(team.members[k.value])),
                  nextId := w.nextId + 2), true)
  }

  function Generate(team: Team, w: World, lo: Date, hi: Date): (World, bool)
    requires |team.members| > 0
    decreases hi - lo
  {
    if hi < lo then (w, true)
    else
      var (w1, ok) := Generate(team, w, lo, hi - 1);
      if ok then ProcessDate(team, w1, hi) else (w1, false)
  }

  datatype Filled = Filled(world: World, created: bool, ok: bool)

  function FillGaps(team: Team, w: World, lo: Date, hi: Date, busy: set<Date>): Filled
    requires |team.members| > 0
    decreases hi - lo
  {
    if hi < lo then Filled(w, false, true)
    else
      var f := FillGaps(team, w, lo, hi - 1, busy);
      if !f.ok || hi in busy || ShouldSkipDate(team.holiday, hi) then f
      else
        var (w1, ok) := ProcessDate(team, f.world, hi);
        Filled(w1, f.created || ok, ok)
  }

  function BusyDates(t: Table, lo: Date, hi: Date): set<Date> {
    set s | s in t && lo <= s.date <= hi :: s.date
  }

  function MissingDays(team: Team, w: World, lo: Date, hi: Date): Filled {
    if team.members == [] then Filled(w, false, false)
    else FillGaps(team, w, lo, hi, BusyDates(w.table, lo, hi))
  }

  function Ensure(team: Team, w: World, today: Date): Filled {
    MissingDays(team, SweepCovers(team, w, today, today + DAYS_AHEAD), today, today + DAYS_AHEAD)
  }

  function Cleared(t: Table, lo: Date, hi: Date): Table {
    map s | s in t && !(lo <= s.date <= hi) :: t[s]
  }

  function Regenerate(team: Team, w: World, lo: Date, hi: Date): (World, bool) {
    if team.members == [] then (w, false)
    else Generate(team, w.(table := Cleared(w.table, lo, hi)), lo, hi)
  }

  function LeaveDelete(team: Team, w: World, id: LeaveId): (World, bool) {
    match FindLeave(w.leaves, id)
    case None => (w, false)
    case Some(l) =>
      var w1 := SweepCovers(team, w.(leaves := Without(w.leaves, id)), l.start, l.end);
      var f := MissingDays(team, w1, l.start, l.end);
      (f.world, f.ok)
  }

  // ---------- the invariant ----------

  ghost predicate NoOriginals(t: Table) {
    forall s :: s in t ==> s.isCover
  }

  /** All stored original cursors have one phase, and every original that was not swapped
      sits on the slot that phase gives its date. */
  ghost predicate RotationOk(team: Team, t: Table, r1: seq<Anchor>) {
    if r1 == [] then NoOriginals(t)
    else
      && |team.members| > 0
      && r1[0].index == 0
      && (forall i :: 0 <= i < |r1| ==>
            Phase(team.holiday, r1[i], |team.members|) == Phase(team.holiday, r1[0], |team.members|))
      && (forall d :: Orig(d) in t && !t[Orig(d)].swapped ==>
            t[Orig(d)].member ==
            team.members[SlotOnDay(team.holiday, Phase(team.holiday, r1[0], |team.members|), d, |team.members|)])
  }

  /** What every call relies on. It does not mention the rotation of originals, so it also holds of
      tables that were written under an earlier team. */
  ghost predicate WellFormed(team: Team, w: World) {
    && Distinct(team.members)
    && Shaped(w.table) && IdsBelow(w.table, w.nextId)
    && LeavesOk(w.leaves)
  }

  ghost predicate Sound(team: Team, w: World) {
    WellFormed(team, w) && RotationOk(team, w.table, w.r1)
  }

  lemma ViewsAreValid(team: Team, w: World)
    requires Distinct(team.members)
    ensures ValidEnv(EnvOf(team, w))
  {
    AssignedIsActive();
  }

  /** Carrying on from `w` to `w'`: the form is kept, and so is the rotation of originals if it held. */
  ghost predicate Carries(team: Team, w: World, w': World) {
    WellFormed(team, w') && (RotationOk(team, w.table, w.r1) ==> RotationOk(team, w'.table, w'.r1))
  }

  /** Two cursor rows give a date the same slot exactly when they have one phase for the team that reads them. */
  lemma RowsAgreeIff(holiday: HolidayChecker, a: Anchor, b: Anchor, d: Date, m: nat)
    requires m > 0
    ensures SlotFor(holiday, a, d, m) == SlotFor(holiday, b, d, m) <==>
      ((a.index - W(holiday, a.date)) - (b.index - W(holiday, b.date))) % m == 0
  {
    var (x, y, c) := (a.index - W(holiday, a.date), b.index - W(holiday, b.date), W(holiday, d));
    SlotIsPhasePlusCount(holiday, a, d, m);
    SlotIsPhasePlusCount(holiday, b, d, m);
    ShiftsAgreeIff(x, y, c, x - y, m);
  }

  /** While the team that wrote the rows is the one that reads them, every row gives the same slot. */
  lemma AnyRowGivesTheSlot(team: Team, w: World, i: nat, d: Date)
    requires Sound(team, w) && i < |w.r1|
    ensures SlotFor(team.holiday, w.r1[i], d, |team.members|) == OriginalSlot(team, w.r1, d)
  {
    SlotIsPhasePlusCount(team.holiday, w.r1[i], d, |team.members|);
    SlotIsPhasePlusCount(team.holiday, ReadRow(team, w.r1), d, |team.members|);
    ReadRowHasThePhase(team, w.table, w.r1);
  }

  lemma ReadRowHasThePhase(team: Team, t: Table, r1: seq<Anchor>)
    requires RotationOk(team, t, r1) && r1 != []
    ensures Phase(team.holiday, ReadRow(team, r1), |team.members|) == Phase(team.holiday, r1[0], |team.members|)
  {
    var i :| 0 <= i < |r1| && r1[i] == ReadRow(team, r1);
  }

  // ---------- one date keeps the invariant ----------

  lemma PhaseSlot(team: Team, t: Table, r1: seq<Anchor>, d: Date)
    requires RotationOk(team, t, r1) && r1 != []
    ensures OriginalSlot(team, r1, d) ==
            SlotOnDay(team.holiday, Phase(team.holiday, r1[0], |team.members|), d, |team.members|)
    ensures Phase(team.holiday, Anchor(d, OriginalSlot(team, r1, d)), |team.members|)
         == Phase(team.holiday, r1[0], |team.members|)
  {
    ReadRowHasThePhase(team, t, r1);
    SlotIsPhasePlusCount(team.holiday, ReadRow(team, r1), d, |team.members|);
    AdvanceKeepsPhase(team.holiday, ReadRow(team, r1), d, |team.members|);
  }

  /** The first row ever written has slot 0, which is what its own phase gives it. */
  lemma FirstSlot(team: Team, d: Date)
    requires |team.members| > 0
    ensures SlotOnDay(team.holiday, Phase(team.holiday, Anchor(d, 0), |team.members|), d, |team.members|) == 0
  {
    ModAdd(0 - W(team.holiday, d), W(team.holiday, d), |team.members|);
  }

  lemma RotationAdvances(team: Team, t: Table, r1: seq<Anchor>, d: Date, t': Table, id: RowId)
    requires |team.members| > 0 && RotationOk(team, t, r1)
    requires Orig(d) !in t
    requires var i := OriginalSlot(team, r1, d);
      && At(t', Orig(d)) == Some(Row(id, team.members[i], false, None))
      && forall e :: e != d ==> At(t', Orig(e)) == At(t, Orig(e))
    ensures RotationOk(team, t', r1 + [Anchor(d, OriginalSlot(team, r1, d))])
  {
    var n := |team.members|;
    var r1' := r1 + [Anchor(d, OriginalSlot(team, r1, d))];
    if r1 == [] {
      FirstSlot(team, d);
      assert r1'[0] == Anchor(d, 0);
    } else {
      PhaseSlot(team, t, r1, d);
      assert r1'[0] == r1[0];
    }
    var phase := Phase(team.holiday, r1'[0], n);
    forall e | Orig(e) in t' && !t'[Orig(e)].swapped
      ensures t'[Orig(e)].member == team.members[SlotOnDay(team.holiday, phase, e, n)]
    {
      if e != d {
        assert At(t', Orig(e)) == At(t, Orig(e));
        assert Orig(e) in t;
      }
    }
  }

  lemma AddingOriginalKeepsShape(t: Table, next: RowId, d: Date, m: Member)
    requires Shaped(t) && IdsBelow(t, next) && Orig(d) !in t
    ensures Cov(d) !in t
    ensures var t1 := t[Orig(d) := Row(next, m, false, None)]; Shaped(t1) && IdsBelow(t1, next + 1)
  {
    assert Cov(d) !in t;
  }

  lemma WriteDateKeepsShape(t: Table, next: RowId, d: Date, m: Member, cover: Option<Member>)
    requires Shaped(t) && IdsBelow(t, next) && Orig(d) !in t
    ensures Shaped(WriteDate(t, next, d, m, cover)) && IdsBelow(WriteDate(t, next, d, m, cover), next + 2)
    ensures cover.None? ==> IdsBelow(WriteDate(t, next, d, m, cover), next + 1)
    ensures Cov(d) !in t
  {
    AddingOriginalKeepsShape(t, next, d, m);
    var t1 := t[Orig(d) := Row(next, m, false, None)];
    if cover.Some? {
      CoverKeepsShape(t1, next + 1, d, cover.value);
      assert WriteDate(t, next, d, m, cover) == WithCover(t1, next + 1, d, cover.value, next);
    }
  }

  lemma ProcessDateShape(team: Team, w: World, d: Date)
    requires |team.members| > 0 && Shaped(w.table) && IdsBelow(w.table, w.nextId)
    ensures var w' := ProcessDate(team, w, d).0;
      && Shaped(w'.table) && IdsBelow(w'.table, w'.nextId) && w'.leaves == w.leaves
      && (forall s :: s in w.table ==> s in w'.table && w'.table[s] == w.table[s])
      && (forall s :: s in w'.table && s !in w.table ==> s.date == d && !ShouldSkipDate(team.holiday, d))
  {
    if !ShouldSkipDate(team.holiday, d) && Orig(d) !in w.table {
      var m := team.members[OriginalSlot(team, w.r1, d)];
      var k := CoverFor(team, w, d, m);
      WriteDateKeepsShape(w.table, w.nextId, d, m, if k.Some? then Some(team.members[k.value]) else None);
    }
  }

  lemma ProcessDateKeepsForm(team: Team, w: World, d: Date)
    requires |team.members| > 0 && WellFormed(team, w)
    ensures Carries(team, w, ProcessDate(team, w, d).0)
    ensures ProcessDate(team, w, d).1 <==> (ShouldSkipDate(team.holiday, d) || Orig(d) !in w.table)
  {
    var (w', ok) := ProcessDate(team, w, d);
    ProcessDateShape(team, w, d);
    if !ShouldSkipDate(team.holiday, d) && Orig(d) !in w.table && RotationOk(team, w.table, w.r1) {
      assert Cov(d) !in w.table;
      forall e | e != d ensures At(w'.table, Orig(e)) == At(w.table, Orig(e)) {
      }
      RotationAdvances(team, w.table, w.r1, d, w'.table, w.nextId);
    }
  }

  /** The ad-hoc cursor names the date and the slot of the person who covered. */
  ghost predicate RecordsCover(team: Team, row: Option<CoverRow>, d: Date, m: Member) {
    row.Some? && row.value.last.date == d && 0 <= row.value.last.index < |team.members|
    && team.members[row.value.last.index] == m
  }

  /** What one successful date writes. */
  lemma ProcessDateWrites(team: Team, w: World, d: Date)
    requires |team.members| > 0 && Shaped(w.table) && !ShouldSkipDate(team.holiday, d) && Orig(d) !in w.table
    ensures var w' := ProcessDate(team, w, d).0;
      && Orig(d) in w'.table && !w'.table[Orig(d)].swapped
      && (Cov(d) in w'.table <==> w'.table[Orig(d)].member in Away(EnvOf(team, w), d) && Available(EnvOf(team, w), d))
      && (Cov(d) in w'.table ==>
            w'.table[Cov(d)].member !in Away(EnvOf(team, w), d) && !Stale(EnvOf(team, w), w'.table, d))
      && (Cov(d) in w'.table ==> RecordsCover(team, w'.coverRow, d, w'.table[Cov(d)].member))
      && (Cov(d) !in w'.table ==> w'.coverRow == w.coverRow)
  {
    assert Cov(d) !in w.table;
    PickExistsIff(EnvOf(team, w), AdHocAnchor(w.coverRow), d);
  }

  /** Covers written by schedule generation: `m` was the last to cover ad hoc, on `d`, and the next cover is for a
      date one working day later. It is `m` again exactly when all other members are on leave. */
  lemma GeneratedCoverRepeatsIff(team: Team, w: World, d: Date, m: Member, e: Date)
    requires |team.members| > 0 && Distinct(team.members) && Shaped(w.table)
    requires RecordsCover(team, w.coverRow, d, m)
    requires d < e && |WorkingDays(team.holiday, d, e)| == 1 && !ShouldSkipDate(team.holiday, e) && Orig(e) !in w.table
    requires Cov(e) in ProcessDate(team, w, e).0.table
    ensures var w' := ProcessDate(team, w, e).0;
      && RecordsCover(team, w'.coverRow, e, w'.table[Cov(e)].member)
      && (w'.table[Cov(e)].member == m <==>
            forall j :: 0 <= j < |team.members| && team.members[j] != m ==> team.members[j] in Away(EnvOf(team, w), e))
  {
    var env := EnvOf(team, w);
    var k := w.coverRow.value.last.index;
    ProcessDateWrites(team, w, e);
    NoRepeatNextDay(env, d, k, e);
    var w' := ProcessDate(team, w, e).0;
    assert w'.table[Cov(e)].member == m <==> w'.coverRow.value.last.index == k;
    forall j | 0 <= j < |team.members| ensures team.members[j] != m <==> j != k {
    }
  }

  // ---------- what planning a range leaves behind ----------

  /** The slot of a member of the team. */
  ghost function Seat(members: seq<Member>, m: Member): (k: nat)
    ensures m in members ==> k < |members| && members[k] == m
  {
    if m in members then
      var k :| 0 <= k < |members| && members[k] == m;
      k
    else 0
  }

  lemma SeatIs(members: seq<Member>, k: nat)
    requires Distinct(members) && k < |members|
    ensures Seat(members, members[k]) == k
  {
  }

  /** A date that got its rows between two tables. */
  ghost predicate IsNew(t: Table, t': Table, d: Date) {
    Orig(d) in t' && Orig(d) !in t
  }

  /** Where the ad-hoc cursor stands after the new dates up to `hi`: on the last of them that has a cover. */
  ghost function CursorAfter(members: seq<Member>, start: Option<Anchor>, t: Table, t': Table, lo: Date, hi: Date)
    : Option<Anchor>
    decreases hi - lo
  {
    if hi < lo then start
    else if IsNew(t, t', hi) && Cov(hi) in t' then Some(Anchor(hi, Seat(members, t'[Cov(hi)].member)))
    else CursorAfter(members, start, t, t', lo, hi - 1)
  }

  /** One R1 row for each new date, in order. */
  ghost function NewAnchors(members: seq<Member>, t: Table, t': Table, lo: Date, hi: Date): seq<Anchor>
    decreases hi - lo
  {
    if hi < lo then []
    else
      NewAnchors(members, t, t', lo, hi - 1)
      + (if IsNew(t, t', hi) then [Anchor(hi, Seat(members, t'[Orig(hi)].member))] else [])
  }

  /** A new cover: for the original of its date, by the person next in turn after `cursor` who is not away. */
  ghost predicate CoverPlanned(env: Env, cursor: Option<Anchor>, original: Row, cover: Row, d: Date) {
    && !cover.swapped && cover.original == Some(original.id)
    && cover.member in env.members && cover.member !in Away(env, d)
    && Pick(env, cursor, d) == Some(Seat(env.members, cover.member))
  }

  /** A new date: a working day, its original on the slot that the R1 rows before it give, and a cover exactly when
      the original is away and somebody is not. */
  ghost predicate DatePlanned(team: Team, w: World, t': Table, lo: Date, d: Date)
    requires Orig(d) in t'
  {
    var (env, o) := (EnvOf(team, w), t'[Orig(d)]);
    && !ShouldSkipDate(team.holiday, d) && |team.members| > 0 && !o.swapped
    && o.member == team.members[OriginalSlot(team, w.r1 + NewAnchors(team.members, w.table, t', lo, d - 1), d)]
    && (Cov(d) in t' <==> o.member in Away(env, d) && Available(env, d))
    && (Cov(d) in t' ==>
          var cursor := CursorAfter(team.members, AdHocAnchor(w.coverRow), w.table, t', lo, d - 1);
          CoverPlanned(env, cursor, o, t'[Cov(d)], d))
  }

  /** The anchor of the reassign pass is the same before and after. */
  ghost predicate KeepsAnchor(w: World, w': World) {
    w'.coverRow == w.coverRow ||
    (w'.coverRow.Some? &&
     w'.coverRow.value.reassign == if w.coverRow.Some? then w.coverRow.value.reassign else None)
  }

  /** Planning a range, from `w` to `w'`: every date that is new, both cursors, and nothing on the reassign anchor. */
  ghost predicate PlansOn(team: Team, w: World, w': World, lo: Date, hi: Date) {
    && (forall d :: lo <= d <= hi && IsNew(w.table, w'.table, d) ==> DatePlanned(team, w, w'.table, lo, d))
    && w'.r1 == w.r1 + NewAnchors(team.members, w.table, w'.table, lo, hi)
    && AdHocAnchor(w'.coverRow) == CursorAfter(team.members, AdHocAnchor(w.coverRow), w.table, w'.table, lo, hi)
    && KeepsAnchor(w, w')
  }

  /** Both traces look at the dates of their range only. */
  ghost predicate SameDays(t: Table, u: Table, t': Table, u': Table, lo: Date, hi: Date) {
    && (forall d :: lo <= d <= hi ==> (Orig(d) in u <==> Orig(d) in t))
    && (forall d :: lo <= d <= hi ==> At(u', Orig(d)) == At(t', Orig(d)) && At(u', Cov(d)) == At(t', Cov(d)))
  }

  lemma {:induction false} SameTraces(members: seq<Member>, start: Option<Anchor>, t: Table, u: Table, t': Table,
                                      u': Table, lo: Date, hi: Date)
    requires SameDays(t, u, t', u', lo, hi)
    ensures CursorAfter(members, start, u, u', lo, hi) == CursorAfter(members, start, t, t', lo, hi)
    ensures NewAnchors(members, u, u', lo, hi) == NewAnchors(members, t, t', lo, hi)
    decreases hi - lo
  {
    if lo <= hi {
      SameTraces(members, start, t, u, t', u', lo, hi - 1);
      assert At(u', Orig(hi)) == At(t', Orig(hi)) && At(u', Cov(hi)) == At(t', Cov(hi));
    }
  }

  lemma SameDate(team: Team, w: World, u: Table, t': Table, u': Table, lo: Date, hi: Date, d: Date)
    requires SameDays(w.table, u, t', u', lo, hi) && lo <= d <= hi && Orig(d) in t' && DatePlanned(team, w, t', lo, d)
    ensures Orig(d) in u' && DatePlanned(team, w.(table := u), u', lo, d)
  {
    SameTraces(team.members, AdHocAnchor(w.coverRow), w.table, u, t', u', lo, d - 1);
    assert At(u', Orig(d)) == At(t', Orig(d)) && At(u', Cov(d)) == At(t', Cov(d));
    assert EnvOf(team, w.(table := u)) == EnvOf(team, w);
  }

  /** What the range looked like before matters only for which dates had an original. */
  lemma PlansFrom(team: Team, w: World, u: Table, w': World, lo: Date, hi: Date)
    requires PlansOn(team, w, w', lo, hi) && forall d :: lo <= d <= hi ==> (Orig(d) in u <==> Orig(d) in w.table)
    ensures PlansOn(team, w.(table := u), w', lo, hi)
  {
    SameTraces(team.members, AdHocAnchor(w.coverRow), w.table, u, w'.table, w'.table, lo, hi);
    forall d | lo <= d <= hi && IsNew(u, w'.table, d) ensures DatePlanned(team, w.(table := u), w'.table, lo, d) {
      SameDate(team, w, u, w'.table, w'.table, lo, hi, d);
    }
  }

  lemma NoDaysPlanned(team: Team, w: World, lo: Date, hi: Date)
    requires hi < lo
    ensures PlansOn(team, w, w, lo, hi)
  {
  }

  /** A date that is left out, because it had an original or is no working day. */
  lemma LeaveOutADay(team: Team, w: World, w': World, lo: Date, hi: Date)
    requires lo <= hi && PlansOn(team, w, w', lo, hi - 1) && !IsNew(w.table, w'.table, hi)
    ensures PlansOn(team, w, w', lo, hi)
  {
  }

  /** What one date writes, given where the cursors stand. */
  lemma DateFollows(team: Team, w: World, d: Date)
    requires |team.members| > 0 && Distinct(team.members) && Shaped(w.table)
    requires !ShouldSkipDate(team.holiday, d) && Orig(d) !in w.table
    ensures var w' := ProcessDate(team, w, d).0;
      && Orig(d) in w'.table && !w'.table[Orig(d)].swapped
      && w'.table[Orig(d)].member == team.members[OriginalSlot(team, w.r1, d)]
      && w'.r1 == w.r1 + [Anchor(d, Seat(team.members, w'.table[Orig(d)].member))]
      && (Cov(d) in w'.table <==> w'.table[Orig(d)].member in Away(EnvOf(team, w), d) && Available(EnvOf(team, w), d))
      && (Cov(d) in w'.table ==>
            && CoverPlanned(EnvOf(team, w), AdHocAnchor(w.coverRow), w'.table[Orig(d)], w'.table[Cov(d)], d)
            && AdHocAnchor(w'.coverRow) == Some(Anchor(d, Seat(team.members, w'.table[Cov(d)].member))))
      && (Cov(d) !in w'.table ==> w'.coverRow == w.coverRow)
      && KeepsAnchor(w, w')
  {
    var (env, i) := (EnvOf(team, w), OriginalSlot(team, w.r1, d));
    assert Cov(d) !in w.table;
    SeatIs(team.members, i);
    PickExistsIff(env, AdHocAnchor(w.coverRow), d);
    var k := CoverFor(team, w, d, team.members[i]);
    if k.Some? { SeatIs(team.members, k.value); }
  }

  lemma KeepsAnchorTwice(a: World, b: World, c: World)
    requires KeepsAnchor(a, b) && KeepsAnchor(b, c)
    ensures KeepsAnchor(a, c)
  {
  }

  /** One more date of a range. */
  lemma PlanADay(team: Team, w: World, w1: World, lo: Date, hi: Date)
    requires |team.members| > 0 && WellFormed(team, w1) && w1.leaves == w.leaves
    requires lo <= hi && PlansOn(team, w, w1, lo, hi - 1)
    requires !ShouldSkipDate(team.holiday, hi) && Orig(hi) !in w.table && Orig(hi) !in w1.table
    ensures PlansOn(team, w, ProcessDate(team, w1, hi).0, lo, hi)
  {
    var w2 := ProcessDate(team, w1, hi).0;
    assert EnvOf(team, w1) == EnvOf(team, w);
    DateFollows(team, w1, hi);
    ProcessDateShape(team, w1, hi);
    OtherDaysStay(team, w1, lo, hi);
    SameTraces(team.members, AdHocAnchor(w.coverRow), w.table, w.table, w1.table, w2.table, lo, hi - 1);
    KeepsAnchorTwice(w, w1, w2);
    forall d | lo <= d <= hi && IsNew(w.table, w2.table, d) ensures DatePlanned(team, w, w2.table, lo, d) {
      if d < hi { SameDate(team, w, w.table, w1.table, w2.table, lo, hi - 1, d); }
    }
    assert w1.r1 + [Anchor(hi, Seat(team.members, w2.table[Orig(hi)].member))] ==
      w.r1 + NewAnchors(team.members, w.table, w2.table, lo, hi);
  }

  lemma OtherDaysStay(team: Team, w: World, lo: Date, hi: Date)
    requires |team.members| > 0 && Shaped(w.table) && IdsBelow(w.table, w.nextId)
    ensures SameDays(w.table, w.table, w.table, ProcessDate(team, w, hi).0.table, lo, hi - 1)
  {
    var t' := ProcessDate(team, w, hi).0.table;
    ProcessDateShape(team, w, hi);
    forall d | lo <= d <= hi - 1
      ensures At(t', Orig(d)) == At(w.table, Orig(d)) && At(t', Cov(d)) == At(w.table, Cov(d))
    {
    }
  }

  // ---------- filling gaps ----------

  ghost predicate Unplanned(team: Team, t: Table, lo: Date, hi: Date) {
    forall d :: lo <= d <= hi && !ShouldSkipDate(team.holiday, d) ==> Orig(d) !in t
  }

  ghost predicate Planned(team: Team, t: Table, lo: Date, hi: Date) {
    forall d :: lo <= d <= hi && !ShouldSkipDate(team.holiday, d) ==> Orig(d) in t
  }

  /** `t'` extends `t` by rows on free working days of the range only. */
  ghost predicate ExtendsOnGaps(team: Team, t: Table, t': Table, lo: Date, hi: Date, busy: set<Date>) {
    && (forall s :: s in t ==> s in t' && t'[s] == t[s])
    && (forall s :: s in t' && s !in t ==>
          lo <= s.date <= hi && s.date !in busy && !ShouldSkipDate(team.holiday, s.date))
  }

  ghost predicate GapsClosed(team: Team, w: World, lo: Date, hi: Date, busy: set<Date>, f: Filled) {
    && f.ok && Carries(team, w, f.world) && f.world.leaves == w.leaves
    && ExtendsOnGaps(team, w.table, f.world.table, lo, hi, busy)
    && Planned(team, f.world.table, lo, hi)
    && (forall d :: lo <= d <= hi && Cov(d) in f.world.table && Cov(d) !in w.table ==>
          !Stale(EnvOf(team, w), f.world.table, d))
    && (f.created <==> f.world.table != w.table)
    && (!f.created ==> f.world == w)
  }

  /** What gap filling achieves: complete, static, right about having written, and every new date as it should be. */
  ghost predicate GapsFilled(team: Team, w: World, lo: Date, hi: Date, f: Filled) {
    && GapsClosed(team, w, lo, hi, BusyDates(w.table, lo, hi), f)
    && PlansOn(team, w, f.world, lo, hi)
    && (f.created <==> !Planned(team, w.table, lo, hi))
  }

  lemma SkipADay(team: Team, w: World, lo: Date, hi: Date, busy: set<Date>, f: Filled)
    requires lo <= hi && GapsClosed(team, w, lo, hi - 1, busy, f)
    requires hi in busy || ShouldSkipDate(team.holiday, hi)
    requires hi in busy <==> Orig(hi) in w.table
    ensures GapsClosed(team, w, lo, hi, busy, f)
  {
  }

  lemma FillADayRows(team: Team, env: Env, t: Table, t1: Table, t2: Table, lo: Date, hi: Date, busy: set<Date>)
    requires lo <= hi && hi !in busy && !ShouldSkipDate(team.holiday, hi)
    requires Shaped(t1) && Orig(hi) in t2
    requires ExtendsOnGaps(team, t, t1, lo, hi - 1, busy)
    requires forall s :: s in t1 ==> s in t2 && t2[s] == t1[s]
    requires forall s :: s in t2 && s !in t1 ==> s.date == hi
    requires Cov(hi) in t2 ==> !Stale(env, t2, hi)
    requires forall d :: lo <= d <= hi - 1 && Cov(d) in t1 && Cov(d) !in t ==> !Stale(env, t1, d)
    requires Planned(team, t1, lo, hi - 1)
    ensures ExtendsOnGaps(team, t, t2, lo, hi, busy)
    ensures forall d :: lo <= d <= hi && Cov(d) in t2 && Cov(d) !in t ==> !Stale(env, t2, d)
    ensures Planned(team, t2, lo, hi)
  {
    forall d | lo <= d <= hi && Cov(d) in t2 && Cov(d) !in t
      ensures !Stale(env, t2, d)
    {
      if d != hi {
        assert Cov(d) in t1;
        assert Orig(d) in t1 && t2[Orig(d)] == t1[Orig(d)];
      }
    }
  }

  lemma FillADay(team: Team, w: World, lo: Date, hi: Date, busy: set<Date>, f: Filled)
    requires |team.members| > 0
    requires lo <= hi && GapsClosed(team, w, lo, hi - 1, busy, f)
    requires hi !in busy && !ShouldSkipDate(team.holiday, hi) && Orig(hi) !in w.table
    ensures var (w1, ok) := ProcessDate(team, f.world, hi);
      GapsClosed(team, w, lo, hi, busy, Filled(w1, f.created || ok, ok))
  {
    var (w1, ok) := ProcessDate(team, f.world, hi);
    assert Orig(hi) !in f.world.table;
    ProcessDateShape(team, f.world, hi);
    ProcessDateKeepsForm(team, f.world, hi);
    ProcessDateWrites(team, f.world, hi);
    assert EnvOf(team, f.world) == EnvOf(team, w);
    FillADayRows(team, EnvOf(team, w), w.table, f.world.table, w1.table, lo, hi, busy);
    assert ok && w1.table != w.table;
  }

  /** Gap filling never fails, changes no row, adds rows only where there were none, fills every
      working day, and reports whether it wrote. */
  lemma {:induction false} FillGapsFills(team: Team, w: World, lo: Date, hi: Date, busy: set<Date>)
    requires |team.members| > 0 && WellFormed(team, w)
    requires forall d :: lo <= d <= hi ==> (d in busy <==> Orig(d) in w.table)
    ensures GapsClosed(team, w, lo, hi, busy, FillGaps(team, w, lo, hi, busy))
    decreases hi - lo
  {
    if lo <= hi {
      FillGapsFills(team, w, lo, hi - 1, busy);
      var f := FillGaps(team, w, lo, hi - 1, busy);
      if hi in busy || ShouldSkipDate(team.holiday, hi) {
        SkipADay(team, w, lo, hi, busy, f);
      } else {
        FillADay(team, w, lo, hi, busy, f);
      }
    }
  }

  lemma {:induction false} FillGapsPlans(team: Team, w: World, lo: Date, hi: Date, busy: set<Date>)
    requires |team.members| > 0 && WellFormed(team, w)
    requires forall d :: lo <= d <= hi ==> (d in busy <==> Orig(d) in w.table)
    ensures PlansOn(team, w, FillGaps(team, w, lo, hi, busy).world, lo, hi)
    decreases hi - lo
  {
    if hi < lo {
      NoDaysPlanned(team, w, lo, hi);
    } else {
      FillGapsPlans(team, w, lo, hi - 1, busy);
      FillGapsFills(team, w, lo, hi - 1, busy);
      var f := FillGaps(team, w, lo, hi - 1, busy);
      if hi in busy || ShouldSkipDate(team.holiday, hi) {
        LeaveOutADay(team, w, f.world, lo, hi);
      } else {
        PlanADay(team, w, f.world, lo, hi);
      }
    }
  }

  lemma BusyIsOriginal(t: Table, lo: Date, hi: Date)
    requires Shaped(t)
    ensures forall d :: lo <= d <= hi ==> (d in BusyDates(t, lo, hi) <==> Orig(d) in t)
  {
    forall d | lo <= d <= hi ensures d in BusyDates(t, lo, hi) <==> Orig(d) in t {
      if d in BusyDates(t, lo, hi) {
        var s :| s in t && s.date == d;
        assert s == Orig(d) || s == Cov(d);
      }
    }
  }

  /** `GenerateMissingDays`: complete, static, and `true` exactly when it wrote a row. */
  lemma MissingDaysFills(team: Team, w: World, lo: Date, hi: Date)
    requires WellFormed(team, w)
    ensures team.members == [] ==> MissingDays(team, w, lo, hi) == Filled(w, false, false)
    ensures team.members != [] ==> GapsFilled(team, w, lo, hi, MissingDays(team, w, lo, hi))
  {
    if team.members != [] {
      BusyIsOriginal(w.table, lo, hi);
      FillGapsFills(team, w, lo, hi, BusyDates(w.table, lo, hi));
      FillGapsPlans(team, w, lo, hi, BusyDates(w.table, lo, hi));
      WritesIfGaps(team, w, lo, hi, MissingDays(team, w, lo, hi));
    }
  }

  lemma WritesIfGaps(team: Team, w: World, lo: Date, hi: Date, f: Filled)
    requires Shaped(w.table) && Shaped(f.world.table)
    requires GapsClosed(team, w, lo, hi, BusyDates(w.table, lo, hi), f)
    ensures f.created <==> !Planned(team, w.table, lo, hi)
  {
    BusyIsOriginal(w.table, lo, hi);
    if Planned(team, w.table, lo, hi) {
      assert f.world.table == w.table;
    } else {
      var d :| lo <= d <= hi && !ShouldSkipDate(team.holiday, d) && Orig(d) !in w.table;
      assert Orig(d) in f.world.table;
    }
  }

  lemma {:induction false} NothingToFill(team: Team, w: World, lo: Date, hi: Date, busy: set<Date>)
    requires |team.members| > 0
    requires forall d :: lo <= d <= hi && !ShouldSkipDate(team.holiday, d) ==> d in busy
    ensures FillGaps(team, w, lo, hi, busy) == Filled(w, false, true)
    decreases hi - lo
  {
    if lo <= hi { NothingToFill(team, w, lo, hi - 1, busy); }
  }

  lemma FullWindowStays(team: Team, w: World, lo: Date, hi: Date)
    requires WellFormed(team, w) && team.members != []
    requires Planned(team, w.table, lo, hi)
    ensures MissingDays(team, w, lo, hi) == Filled(w, false, true)
  {
    BusyIsOriginal(w.table, lo, hi);
    NothingToFill(team, w, lo, hi, BusyDates(w.table, lo, hi));
  }

  lemma SweepKeepsForm(team: Team, w: World, lo: Date, hi: Date)
    requires WellFormed(team, w)
    ensures Carries(team, w, SweepCovers(team, w, lo, hi))
    ensures forall d :: lo <= d <= hi ==> !Stale(EnvOf(team, w), SweepCovers(team, w, lo, hi).table, d)
    ensures forall d :: At(SweepCovers(team, w, lo, hi).table, Orig(d)) == At(w.table, Orig(d))
  {
    SweepKeepsShape(EnvOf(team, w), w.table, lo, hi);
    var w' := SweepCovers(team, w, lo, hi);
    forall d ensures At(w'.table, Orig(d)) == At(w.table, Orig(d)) {
    }
    if RotationOk(team, w.table, w.r1) { RotationTransfers(team, w.table, w'.table, w.r1); }
  }

  /** The rotation invariant only looks at originals, and only at those not swapped. */
  lemma RotationTransfers(team: Team, t: Table, t': Table, r1: seq<Anchor>)
    requires RotationOk(team, t, r1)
    requires forall d :: Orig(d) in t' && !t'[Orig(d)].swapped ==> Orig(d) in t && t'[Orig(d)] == t[Orig(d)]
    requires forall d :: Orig(d) in t' ==> Orig(d) in t
    ensures RotationOk(team, t', r1)
  {
    if r1 == [] {
      forall s | s in t' ensures s.isCover {
        assert s.isCover || s == Orig(s.date);
      }
    }
  }

  /** Covers that were clean stay clean when rows are only added. */
  lemma NothingGoesStale(env: Env, t: Table, t': Table, lo: Date, hi: Date)
    requires Shaped(t) && forall s :: s in t ==> s in t' && t'[s] == t[s]
    requires forall d :: lo <= d <= hi ==> !Stale(env, t, d)
    requires forall d :: lo <= d <= hi && Cov(d) in t' && Cov(d) !in t ==> !Stale(env, t', d)
    ensures forall d :: lo <= d <= hi ==> !Stale(env, t', d)
  {
    forall d | lo <= d <= hi ensures !Stale(env, t', d) {
      assert !Stale(env, t, d);
      if Cov(d) in t {
        assert Cov(d).isCover && Orig(d) in t && t'[Orig(d)] == t[Orig(d)];
      } else if Cov(d) in t' {
        assert !Stale(env, t', d);
      }
    }
  }

  lemma CleanSweepStays(team: Team, w: World, lo: Date, hi: Date)
    requires forall d :: lo <= d <= hi ==> !Stale(EnvOf(team, w), w.table, d)
    ensures SweepCovers(team, w, lo, hi) == w
  {
    assert Reconciled(EnvOf(team, w), w.table, lo, hi) == w.table;
  }

  lemma FullCleanWindowStays(team: Team, w: World, today: Date)
    requires WellFormed(team, w) && team.members != []
    requires Planned(team, w.table, today, today + DAYS_AHEAD)
    requires forall d :: today <= d <= today + DAYS_AHEAD ==> !Stale(EnvOf(team, w), w.table, d)
    ensures Ensure(team, w, today) == Filled(w, false, true)
  {
    CleanSweepStays(team, w, today, today + DAYS_AHEAD);
    FullWindowStays(team, w, today, today + DAYS_AHEAD);
  }

  /** A cover of the range whose original is not away. */
  ghost predicate SweptAway(env: Env, t: Table, lo: Date, hi: Date, s: Slot) {
    s.isCover && lo <= s.date <= hi && Orig(s.date) in t && t[Orig(s.date)].member !in Away(env, s.date)
  }

  /** Which rows come and go: covers that are swept away go, every other row stays exactly as it was, and what is new
      stands on working days of the range that had no row. */
  ghost predicate WindowFrame(env: Env, t: Table, t': Table, lo: Date, hi: Date) {
    && (forall s :: s in t && SweptAway(env, t, lo, hi, s) ==> s !in t')
    && (forall s :: s in t && !SweptAway(env, t, lo, hi, s) ==> s in t' && t'[s] == t[s])
    && (forall s :: s in t' && s !in t ==>
          lo <= s.date <= hi && !ShouldSkipDate(env.holiday, s.date) && Orig(s.date) !in t && Cov(s.date) !in t)
  }

  /** What sweeping and then filling the window achieves. Without a team it is swept only. */
  ghost predicate WindowDone(team: Team, w: World, f: Filled, lo: Date, hi: Date) {
    && (f.ok <==> team.members != []) && Carries(team, w, f.world) && f.world.leaves == w.leaves
    && (f.ok ==> Planned(team, f.world.table, lo, hi))
    && (forall d :: lo <= d <= hi ==> !Stale(EnvOf(team, w), f.world.table, d))
    && WindowFrame(EnvOf(team, w), w.table, f.world.table, lo, hi)
    && PlansOn(team, w, f.world, lo, hi)
    && (f.created <==> f.ok && !Planned(team, w.table, lo, hi))
  }

  lemma SweptFrame(env: Env, t: Table, t': Table, lo: Date, hi: Date, busy: set<Date>, holiday: HolidayChecker)
    requires Shaped(t) && env.holiday == holiday
    requires forall d :: lo <= d <= hi ==> (d in busy <==> Orig(d) in t)
    requires var swept := Reconciled(env, t, lo, hi);
      && (forall s :: s in swept ==> s in t' && t'[s] == swept[s])
      && (forall s :: s in t' && s !in swept ==>
            lo <= s.date <= hi && s.date !in busy && !ShouldSkipDate(holiday, s.date))
    ensures WindowFrame(env, t, t', lo, hi)
  {
    var swept := Reconciled(env, t, lo, hi);
    forall s | s in t && SweptAway(env, t, lo, hi, s) ensures s !in t' {
      assert s == Cov(s.date) && s !in swept;
    }
    forall s | s in t && !SweptAway(env, t, lo, hi, s) ensures s in t' && t'[s] == t[s] {
      assert s in swept;
    }
  }

  /** The swept table is full where the table was. */
  lemma SweptIsPlanned(team: Team, w: World, lo: Date, hi: Date)
    ensures Planned(team, SweepCovers(team, w, lo, hi).table, lo, hi) <==> Planned(team, w.table, lo, hi)
    ensures forall d :: Orig(d) in SweepCovers(team, w, lo, hi).table <==> Orig(d) in w.table
  {
  }

  lemma SweptAndFilled(team: Team, w: World, lo: Date, hi: Date)
    requires WellFormed(team, w)
    ensures WindowDone(team, w, MissingDays(team, SweepCovers(team, w, lo, hi), lo, hi), lo, hi)
  {
    var (w1, f) := (SweepCovers(team, w, lo, hi), MissingDays(team, SweepCovers(team, w, lo, hi), lo, hi));
    SweepKeepsForm(team, w, lo, hi);
    SweptIsPlanned(team, w, lo, hi);
    BusyIsOriginal(w1.table, lo, hi);
    if team.members != [] {
      MissingDaysFills(team, w1, lo, hi);
      NothingGoesStale(EnvOf(team, w), w1.table, f.world.table, lo, hi);
    } else {
      NoTeamPlans(team, w1, lo, hi);
    }
    SweptFrame(EnvOf(team, w), w.table, f.world.table, lo, hi, BusyDates(w1.table, lo, hi), team.holiday);
    PlansFrom(team, w1, w.table, f.world, lo, hi);
    assert w1.(table := w.table) == w;
  }

  lemma {:induction false} NoTeamPlans(team: Team, w: World, lo: Date, hi: Date)
    ensures PlansOn(team, w, w, lo, hi)
    decreases hi - lo
  {
    if hi < lo {
      NoDaysPlanned(team, w, lo, hi);
    } else {
      NoTeamPlans(team, w, lo, hi - 1);
      LeaveOutADay(team, w, w, lo, hi);
    }
  }

  /** `EnsureSchedule`: afterwards the window is full and free of stale covers, every other row is what it was, and a
      second call returns false and changes nothing. */
  lemma EnsureIsIdempotent(team: Team, w: World, today: Date)
    requires WellFormed(team, w)
    ensures var f := Ensure(team, w, today);
      && WindowDone(team, w, f, today, today + DAYS_AHEAD)
      && Ensure(team, f.world, today) == Filled(f.world, false, f.ok)
  {
    SweptAndFilled(team, w, today, today + DAYS_AHEAD);
    var f := Ensure(team, w, today);
    assert EnvOf(team, f.world) == EnvOf(team, w);
    if team.members != [] {
      FullCleanWindowStays(team, f.world, today);
    } else {
      CleanSweepStays(team, f.world, today, today + DAYS_AHEAD);
    }
  }

  lemma {:induction false} WithoutKeepsIds(leaves: seq<Leave>, id: LeaveId)
    requires LeavesOk(leaves)
    ensures LeavesOk(Without(leaves, id))
    ensures forall l :: l in Without(leaves, id) <==> l in leaves && l.id != id
  {
    if leaves != [] {
      WithoutKeepsIds(leaves[1..], id);
      var rest := Without(leaves[1..], id);
      var all := Without(leaves, id);
      if leaves[0].id != id {
        forall i, j | 0 <= i < j < |all| ensures all[i].id != all[j].id {
          assert all[j] == rest[j - 1];
          assert all[j] in rest;
          var j' :| 0 <= j' < |leaves[1..]| && leaves[1..][j'] == all[j];
          if i == 0 { assert leaves[j' + 1] == all[j]; }
        }
      }
      assert leaves == [leaves[0]] + leaves[1..];
    }
  }

  /** `HandleLeaveDelete`: the leave is gone, its window is full, every cover left in it belongs to an original who is
      on leave, and every other row is what it was. An unknown leave is an error. */
  lemma LeaveDeleteRestores(team: Team, w: World, id: LeaveId)
    requires WellFormed(team, w)
    ensures FindLeave(w.leaves, id).None? ==> LeaveDelete(team, w, id) == (w, false)
    ensures FindLeave(w.leaves, id).Some? ==>
      var (w', ok) := LeaveDelete(team, w, id);
      var l := FindLeave(w.leaves, id).value;
      && w'.leaves == Without(w.leaves, id) && (forall x :: x in w'.leaves <==> x in w.leaves && x.id != id)
      && (exists created :: WindowDone(team, w.(leaves := w'.leaves), Filled(w', created, ok), l.start, l.end))
      && (forall d :: l.start <= d <= l.end && Cov(d) in w'.table ==>
            Orig(d) in w'.table && w'.table[Orig(d)].member in Away(EnvOf(team, w'), d))
  {
    if FindLeave(w.leaves, id).Some? {
      var l := FindLeave(w.leaves, id).value;
      WithoutKeepsIds(w.leaves, id);
      var w0 := w.(leaves := Without(w.leaves, id));
      SweptAndFilled(team, w0, l.start, l.end);
      var f := MissingDays(team, SweepCovers(team, w0, l.start, l.end), l.start, l.end);
      var w' := LeaveDelete(team, w, id).0;
      assert f == Filled(w', f.created, LeaveDelete(team, w, id).1);
      assert EnvOf(team, w') == EnvOf(team, w0);
      forall d | l.start <= d <= l.end && Cov(d) in w'.table
        ensures Orig(d) in w'.table && !Stale(EnvOf(team, w0), w'.table, d)
      {
        assert Cov(d).isCover;
      }
    }
  }

  // ---------- generation over a range ----------

  lemma ExtendsADay(team: Team, t: Table, t1: Table, t2: Table, lo: Date, hi: Date)
    requires lo <= hi && ExtendsOnGaps(team, t, t1, lo, hi - 1, {}) && ExtendsOnGaps(team, t1, t2, hi, hi, {})
    requires Unplanned(team, t, lo, hi - 1) && Planned(team, t1, lo, hi - 1)
    requires ShouldSkipDate(team.holiday, hi) || (Orig(hi) in t2 && Orig(hi) !in t1)
    ensures ExtendsOnGaps(team, t, t2, lo, hi, {}) && Planned(team, t2, lo, hi) && Unplanned(team, t, lo, hi)
  {
  }

  /** `GenerateSchedule` succeeds exactly when no working day of the range has an original yet. */
  lemma {:induction false} GenerateSucceedsIff(team: Team, w: World, lo: Date, hi: Date)
    requires |team.members| > 0 && WellFormed(team, w)
    ensures var (w', ok) := Generate(team, w, lo, hi);
      && Carries(team, w, w') && w'.leaves == w.leaves
      && (ok <==> Unplanned(team, w.table, lo, hi))
      && (ok ==> Planned(team, w'.table, lo, hi))
      && ExtendsOnGaps(team, w.table, w'.table, lo, hi, {})
    decreases hi - lo
  {
    if lo <= hi {
      GenerateSucceedsIff(team, w, lo, hi - 1);
      var (w1, ok) := Generate(team, w, lo, hi - 1);
      if ok {
        assert Orig(hi) in w1.table <==> Orig(hi) in w.table;
        var (w2, ok2) := ProcessDate(team, w1, hi);
        ProcessDateShape(team, w1, hi);
        ProcessDateKeepsForm(team, w1, hi);
        if !ShouldSkipDate(team.holiday, hi) && Orig(hi) !in w.table {
          ProcessDateWrites(team, w1, hi);
        }
        if ok2 {
          ExtendsADay(team, w.table, w1.table, w2.table, lo, hi);
        }
      }
    }
  }

  /** Then every date is as it should be: its original in turn, its cover in turn. */
  lemma {:induction false} GeneratePlans(team: Team, w: World, lo: Date, hi: Date)
    requires |team.members| > 0 && WellFormed(team, w) && Unplanned(team, w.table, lo, hi)
    ensures PlansOn(team, w, Generate(team, w, lo, hi).0, lo, hi)
    decreases hi - lo
  {
    if hi < lo {
      NoDaysPlanned(team, w, lo, hi);
    } else {
      GeneratePlans(team, w, lo, hi - 1);
      GenerateSucceedsIff(team, w, lo, hi - 1);
      var w1 := Generate(team, w, lo, hi - 1).0;
      if ShouldSkipDate(team.holiday, hi) {
        LeaveOutADay(team, w, w1, lo, hi);
      } else {
        PlanADay(team, w, w1, lo, hi);
      }
    }
  }

  /** A call that meets a date with an original stops there. It has planned the dates before, and it may already have
      moved the ad-hoc cursor for the date that it then could not write. */
  ghost predicate StopsAt(team: Team, w: World, w': World, lo: Date, e: Date)
    requires |team.members| > 0
  {
    && !ShouldSkipDate(team.holiday, e) && Orig(e) in w.table && Unplanned(team, w.table, lo, e - 1)
    && exists row ::
         var w1 := w'.(coverRow := row);
         && PlansOn(team, w, w1, lo, e - 1)
         && ExtendsOnGaps(team, w.table, w'.table, lo, e - 1, {}) && Planned(team, w'.table, lo, e - 1)
         && w'.coverRow == CursorMoved(team, w1, e, team.members[OriginalSlot(team, w'.r1, e)])
  }

  /** The ad-hoc cursor once a cover for an original of `e` has been chosen, if one is needed and there is one. */
  ghost function CursorMoved(team: Team, w: World, e: Date, original: Member): Option<CoverRow> {
    var (env, cursor) := (EnvOf(team, w), AdHocAnchor(w.coverRow));
    if original in Away(env, e) && Pick(env, cursor, e).Some?
    then WriteAdHoc(w.coverRow, Anchor(e, Pick(env, cursor, e).value)) else w.coverRow
  }

  lemma {:induction false} GenerateStopsAt(team: Team, w: World, lo: Date, hi: Date) returns (e: Date)
    requires |team.members| > 0 && WellFormed(team, w) && !Unplanned(team, w.table, lo, hi)
    ensures lo <= e <= hi && StopsAt(team, w, Generate(team, w, lo, hi).0, lo, e)
    decreases hi - lo
  {
    GenerateSucceedsIff(team, w, lo, hi - 1);
    if !Unplanned(team, w.table, lo, hi - 1) {
      e := GenerateStopsAt(team, w, lo, hi - 1);
    } else {
      e := hi;
      var w1 := Generate(team, w, lo, hi - 1).0;
      GeneratePlans(team, w, lo, hi - 1);
      assert Orig(hi) in w1.table;
      var w' := Generate(team, w, lo, hi).0;
      assert w'.(coverRow := w1.coverRow) == w1;
    }
  }

  lemma ClearingKeepsForm(team: Team, w: World, lo: Date, hi: Date)
    requires WellFormed(team, w)
    ensures Carries(team, w, w.(table := Cleared(w.table, lo, hi)))
  {
    var t := Cleared(w.table, lo, hi);
    assert Shaped(t);
    if RotationOk(team, w.table, w.r1) { RotationTransfers(team, w.table, t, w.r1); }
  }

  /** `RegenerateSchedule` always succeeds, plans the range as if nothing had been there, and leaves the rest alone. */
  lemma RegenerateRebuilds(team: Team, w: World, lo: Date, hi: Date)
    requires WellFormed(team, w)
    ensures team.members == [] ==> Regenerate(team, w, lo, hi) == (w, false)
    ensures team.members != [] ==>
      var (w', ok) := Regenerate(team, w, lo, hi);
      && ok && Carries(team, w, w') && w'.leaves == w.leaves
      && Planned(team, w'.table, lo, hi)
      && (forall s: Slot :: !(lo <= s.date <= hi) ==> At(w'.table, s) == At(w.table, s))
      && (forall s :: s in w'.table && lo <= s.date <= hi ==> !ShouldSkipDate(team.holiday, s.date))
      && PlansOn(team, w.(table := map[]), w', lo, hi)
  {
    if team.members != [] {
      var w1 := w.(table := Cleared(w.table, lo, hi));
      ClearingKeepsForm(team, w, lo, hi);
      GenerateSucceedsIff(team, w1, lo, hi);
      GeneratePlans(team, w1, lo, hi);
      PlansFrom(team, w1, map[], Regenerate(team, w, lo, hi).0, lo, hi);
    }
  }

  // ---------- repeats among planned covers ----------

  lemma {:induction false} CursorOnLastCover(members: seq<Member>, start: Option<Anchor>, t: Table, t': Table, lo: Date,
                                             d: Date, e: Date)
    requires lo <= d <= e && IsNew(t, t', d) && Cov(d) in t'
    requires forall x :: d < x <= e ==> !(IsNew(t, t', x) && Cov(x) in t')
    ensures CursorAfter(members, start, t, t', lo, e) == Some(Anchor(d, Seat(members, t'[Cov(d)].member)))
    decreases e - d
  {
    if d < e { CursorOnLastCover(members, start, t, t', lo, d, e - 1); }
  }

  /** A planned cover one working day after the date on which the ad-hoc cursor stands names the person whom the cursor
      names exactly when all the others are away. */
  lemma PlannedCoverRepeatsIff(team: Team, w: World, w': World, lo: Date, hi: Date, d: Date, k: nat, e: Date)
    requires Distinct(team.members) && PlansOn(team, w, w', lo, hi)
    requires lo <= e <= hi && IsNew(w.table, w'.table, e) && Cov(e) in w'.table
    requires CursorAfter(team.members, AdHocAnchor(w.coverRow), w.table, w'.table, lo, e - 1) == Some(Anchor(d, k))
    requires k < |team.members| && d < e && |WorkingDays(team.holiday, d, e)| == 1
    ensures w'.table[Cov(e)].member == team.members[k] <==>
      forall j :: 0 <= j < |team.members| && j != k ==> team.members[j] in Away(EnvOf(team, w), e)
  {
    assert DatePlanned(team, w, w'.table, lo, e);
    NoRepeatNextDay(EnvOf(team, w), d, k, e);
    SeatIs(team.members, k);
  }

  /** Two successive planned covers, one working day apart. */
  lemma PlannedCoversRepeatIff(team: Team, w: World, w': World, lo: Date, hi: Date, d: Date, e: Date)
    requires Distinct(team.members) && PlansOn(team, w, w', lo, hi) && lo <= d < e <= hi
    requires IsNew(w.table, w'.table, d) && Cov(d) in w'.table && IsNew(w.table, w'.table, e) && Cov(e) in w'.table
    requires |WorkingDays(team.holiday, d, e)| == 1
    ensures w'.table[Cov(e)].member == w'.table[Cov(d)].member <==>
      forall m :: m in team.members && m != w'.table[Cov(d)].member ==> m in Away(EnvOf(team, w), e)
  {
    var (env, k) := (EnvOf(team, w), Seat(team.members, w'.table[Cov(d)].member));
    assert DatePlanned(team, w, w'.table, lo, d);
    forall x | d < x <= e - 1 ensures !IsNew(w.table, w'.table, x) {
      if IsNew(w.table, w'.table, x) { TwoWorkingDays(team.holiday, d, e, x); }
    }
    CursorOnLastCover(team.members, AdHocAnchor(w.coverRow), w.table, w'.table, lo, d, e - 1);
    PlannedCoverRepeatsIff(team, w, w', lo, hi, d, k, e);
    forall j | 0 <= j < |team.members| ensures j != k <==> team.members[j] != w'.table[Cov(d)].member {
    }
  }

  lemma TwoWorkingDays(holiday: HolidayChecker, d: Date, e: Date, x: Date)
    requires d < x < e && !ShouldSkipDate(holiday, d) && !ShouldSkipDate(holiday, x)
    ensures |WorkingDays(holiday, d, e)| >= 2
  {
    assert {d, x} <= WorkingDays(holiday, d, e);
    assert |WorkingDays(holiday, d, e) - {d, x}| == |WorkingDays(holiday, d, e)| - |{d, x}|;
  }

  /** The calls that write rows for dates. */
  lemma PlanningCarries(team: Team, w: World, lo: Date, hi: Date)
    requires WellFormed(team, w)
    ensures team.members != [] ==> Carries(team, w, Generate(team, w, lo, hi).0)
    ensures Carries(team, w, MissingDays(team, w, lo, hi).world)
    ensures Carries(team, w, Regenerate(team, w, lo, hi).0)
  {
    if team.members != [] {
      GenerateSucceedsIff(team, w, lo, hi);
      MissingDaysFills(team, w, lo, hi);
      RegenerateRebuilds(team, w, lo, hi);
    }
  }
}
