/** Step-level facts that the imperative scheduler needs, and the change counter of the reassign pass. */
module Recount {
  import opened Wrappers
  import opened Rotation
  import opened Roster
  import opened CoverRuns
  import opened Reassign
  import opened Schedule
  import opened Histories

  /** The state a run with the given progress has made of `w`. */
  function AfterRun(src: Source, w: World, p: Progress): World {
    if src == AdHoc then AfterAdHoc(w, p) else AfterReassign(w, p)
  }

  lemma SweepOnly(env: Env, rotor: Rotor, p: Progress, lo: Date, hi: Date)
    ensures Run(env, rotor, p, [Event.Sweep(lo, hi)]) == p.(table := Reconciled(env, p.table, lo, hi))
  {
    assert [Event.Sweep(lo, hi)][..0] == [];
  }

  /** Processing a leave is a sweep followed by its days. */
  lemma LeaveEventsSplit(env: Env, rotor: Rotor, p: Progress, l: LeaveView)
    ensures Run(env, rotor, p, LeaveEvents(l)) ==
      Run(env, rotor, Run(env, rotor, p, [Event.Sweep(l.start, l.end)]), ActiveDays(l))
  {
    RunAppend(env, rotor, p, [Event.Sweep(l.start, l.end)], ActiveDays(l));
  }

  lemma NextDay(env: Env, rotor: Rotor, p: Progress, id: LeaveId, m: Member, lo: Date, d: Date)
    requires lo <= d
    ensures Run(env, rotor, p, DayEvents(id, m, lo, d)) ==
      Step(env, rotor, Run(env, rotor, p, DayEvents(id, m, lo, d - 1)), Assign(id, m, d))
  {
    RunSnoc(env, rotor, p, DayEvents(id, m, lo, d - 1), Assign(id, m, d));
  }

  lemma DaysAreOver(id: LeaveId, m: Member, lo: Date, hi: Date, d: Date)
    requires d == hi + 1 || (d == lo && hi < lo)
    ensures DayEvents(id, m, lo, d - 1) == DayEvents(id, m, lo, hi)
  {
  }

  lemma SweepKeepsIds(env: Env, t: Table, next: RowId, lo: Date, hi: Date)
    requires Shaped(t) && IdsBelow(t, next)
    ensures Shaped(Reconciled(env, t, lo, hi)) && IdsBelow(Reconciled(env, t, lo, hi), next)
  {
    SweepKeepsShape(env, t, lo, hi);
  }

  function WriteCursor(src: Source, row: Option<CoverRow>, a: Anchor): Option<CoverRow> {
    if src == AdHoc then WriteAdHoc(row, a) else WriteReassign(row, a)
  }

  /** `p'` is `p` with slot `k` committed for `d`, as seen on the table, the cursor and the whole state. */
  ghost predicate Commits(env: Env, rotor: Rotor, w: World, p: Progress, p': Progress,
                          id: LeaveId, d: Date, original: RowId, k: nat)
  {
    var was := AfterRun(rotor.src, w, p);
    && k < |env.members|
    && Shaped(p'.table) && IdsBelow(p'.table, p'.nextId)
    && p'.table == WithCover(p.table, p.nextId, d, env.members[k], original)
    && p'.nextId == NextAfterCover(p.table, p.nextId, d)
    && Current(rotor, p'.log) == Committed(rotor.src, d, k)
    && AfterRun(rotor.src, w, p') ==
         World(p'.table, p'.nextId, MarkAssigned(was.leaves, id), was.r1,
               WriteCursor(rotor.src, was.coverRow, Anchor(d, k)))
  }

  lemma StepCommits(env: Env, rotor: Rotor, p: Progress, id: LeaveId, m: Member, d: Date, original: RowId, k: nat)
    requires !ShouldSkipDate(env.holiday, d) && OriginalFor(p.table, d, m) == Some(original)
    requires Pick(env, Current(rotor, p.log), d) == Some(k)
    ensures k < |env.members|
    ensures Step(env, rotor, p, Assign(id, m, d)) ==
      Progress(WithCover(p.table, p.nextId, d, env.members[k], original), NextAfterCover(p.table, p.nextId, d),
               p.log + [Commit(id, d, k)])
  {
  }

  lemma CommitState(env: Env, rotor: Rotor, w: World, p: Progress, id: LeaveId, m: Member, d: Date,
                    original: RowId, k: nat)
    requires Shaped(p.table) && IdsBelow(p.table, p.nextId)
    requires !ShouldSkipDate(env.holiday, d) && OriginalFor(p.table, d, m) == Some(original)
    requires Pick(env, Current(rotor, p.log), d) == Some(k)
    ensures Commits(env, rotor, w, p, Step(env, rotor, p, Assign(id, m, d)), id, d, original, k)
  {
    StepCommits(env, rotor, p, id, m, d, original, k);
    assert (p.log + [Commit(id, d, k)])[..|p.log|] == p.log;
    assert Orig(d) in p.table && original == p.table[Orig(d)].id;
    CoverKeepsShape(p.table, p.nextId, d, env.members[k]);
  }

  /** The covers of a date range, by date. */
  function CoversIn(t: Table, lo: Date, hi: Date): map<Date, Member> {
    map s | s in t && s.isCover && lo <= s.date <= hi :: s.date := t[s].member
  }

  lemma NoCoversInNoDays(t: Table, lo: Date, hi: Date)
    ensures hi < lo ==> CoversIn(t, lo, hi) == map[]
  {
  }

  /** The same, read off a query's result row by row. */
  function CoversOf(rows: seq<Assignment>): map<Date, Member> {
    if rows == [] then map[]
    else
      var a := rows[|rows| - 1];
      var before := CoversOf(rows[..|rows| - 1]);
      if a.slot.isCover then before[a.slot.date := a.row.member] else before
  }

  lemma NextRowCovers(rows: seq<Assignment>, i: nat)
    requires i < |rows|
    ensures CoversOf(rows[..i + 1]) ==
      if rows[i].slot.isCover then CoversOf(rows[..i])[rows[i].slot.date := rows[i].row.member] else CoversOf(rows[..i])
  {
    assert rows[..i + 1][..i] == rows[..i];
  }

  lemma {:induction false} CoversOfAre(t: Table, rows: seq<Assignment>, d: Date)
    requires forall i :: 0 <= i < |rows| ==> rows[i].slot in t && t[rows[i].slot] == rows[i].row
    ensures d in CoversOf(rows) <==> Cov(d) in t && Assignment(Cov(d), t[Cov(d)]) in rows
    ensures d in CoversOf(rows) ==> CoversOf(rows)[d] == t[Cov(d)].member
  {
    if rows != [] {
      var n := |rows| - 1;
      CoversOfAre(t, rows[..n], d);
      assert rows == rows[..n] + [rows[n]];
      if rows[n].slot.isCover { assert rows[n].slot == Cov(rows[n].slot.date); }
    }
  }

  lemma CoversOfRange(t: Table, rows: seq<Assignment>, lo: Date, hi: Date)
    requires Lists(t, rows, lo, hi)
    ensures CoversOf(rows) == CoversIn(t, lo, hi)
  {
    var (x, y) := (CoversOf(rows), CoversIn(t, lo, hi));
    forall d ensures (d in x <==> d in y) && (d in x ==> x[d] == y[d]) {
      CoversOfAre(t, rows, d);
      assert d in y <==> Cov(d) in t && lo <= d <= hi by {
        if Cov(d) in t && lo <= d <= hi { assert Cov(d).isCover && Cov(d).date == d; }
      }
    }
  }

  /** How many leaves of the list found their own covers changed by their own processing. */
  function ChangedLeaves(env: Env, rotor: Rotor, p: Progress, order: seq<LeaveView>): nat {
    if order == [] then 0
    else
      var n := |order| - 1;
      var before := Run(env, rotor, p, AllEvents(order[..n]));
      var after := Run(env, rotor, before, LeaveEvents(order[n]));
      var (lo, hi) := (order[n].start, order[n].end);
      ChangedLeaves(env, rotor, p, order[..n]) +
      (if CoversIn(before.table, lo, hi) == CoversIn(after.table, lo, hi) then 0 else 1)
  }

  /** Some date of the range has a cover before but not after, or after but not before, or another person's. */
  ghost predicate CoversMove(t: Table, t': Table, lo: Date, hi: Date) {
    exists d :: lo <= d <= hi && CoverMoves(t, t', d)
  }

  ghost predicate CoverMoves(t: Table, t': Table, d: Date) {
    (Cov(d) in t <==> Cov(d) !in t') || (Cov(d) in t && Cov(d) in t' && t[Cov(d)].member != t'[Cov(d)].member)
  }

  lemma CoversInAt(t: Table, lo: Date, hi: Date, d: Date)
    ensures d in CoversIn(t, lo, hi) <==> lo <= d <= hi && Cov(d) in t
    ensures d in CoversIn(t, lo, hi) ==> CoversIn(t, lo, hi)[d] == t[Cov(d)].member
  {
    if lo <= d <= hi && Cov(d) in t { assert Cov(d).isCover && Cov(d).date == d; }
  }

  lemma CoversDifferIff(t: Table, t': Table, lo: Date, hi: Date)
    ensures CoversIn(t, lo, hi) != CoversIn(t', lo, hi) <==> CoversMove(t, t', lo, hi)
  {
    var (x, y) := (CoversIn(t, lo, hi), CoversIn(t', lo, hi));
    forall d
      ensures lo <= d <= hi && CoverMoves(t, t', d) <==>
              (d in x <==> d !in y) || (d in x && d in y && x[d] != y[d])
    {
      CoversInAt(t, lo, hi, d);
      CoversInAt(t', lo, hi, d);
    }
    if x != y {
      assert exists d :: (d in x <==> d !in y) || (d in x && d in y && x[d] != y[d]);
    }
  }

  /** The counter of a pass: how many leaves found covers of their own days moved by their own processing. */
  lemma {:induction false} ChangedLeavesAre(env: Env, rotor: Rotor, p: Progress, order: seq<LeaveView>)
    ensures ChangedLeaves(env, rotor, p, order) == |MovedBy(env, rotor, p, order)|
  {
    if order == [] {
      assert MovedBy(env, rotor, p, order) == {};
    } else {
      var n := |order| - 1;
      ChangedLeavesAre(env, rotor, p, order[..n]);
      MovedByStep(env, rotor, p, order);
      NextLeave(env, rotor, p, order, n);
      assert order[..n + 1] == order;
      CoversDifferIff(UpTo(env, rotor, p, order, n).table, UpTo(env, rotor, p, order, n + 1).table,
                      order[n].start, order[n].end);
    }
  }

  ghost function MovedBy(env: Env, rotor: Rotor, p: Progress, order: seq<LeaveView>): set<int> {
    set i | 0 <= i < |order| && MovesOwn(env, rotor, p, order, i)
  }

  ghost predicate MovesOwn(env: Env, rotor: Rotor, p: Progress, order: seq<LeaveView>, i: nat)
    requires i < |order|
  {
    var (before, after) := (UpTo(env, rotor, p, order, i), UpTo(env, rotor, p, order, i + 1));
    CoversMove(before.table, after.table, order[i].start, order[i].end)
  }

  lemma MovesInPrefix(env: Env, rotor: Rotor, p: Progress, order: seq<LeaveView>, n: nat, i: nat)
    requires i < n <= |order|
    ensures MovesOwn(env, rotor, p, order[..n], i) <==> MovesOwn(env, rotor, p, order, i)
  {
    assert order[..n][..i] == order[..i] && order[..n][..i + 1] == order[..i + 1];
  }

  lemma MovedByStep(env: Env, rotor: Rotor, p: Progress, order: seq<LeaveView>)
    requires order != []
    ensures var n := |order| - 1;
      |MovedBy(env, rotor, p, order)| ==
        |MovedBy(env, rotor, p, order[..n])| + if MovesOwn(env, rotor, p, order, n) then 1 else 0
  {
    var n := |order| - 1;
    var (all, before) := (MovedBy(env, rotor, p, order), MovedBy(env, rotor, p, order[..n]));
    forall i | 0 <= i < n ensures i in before <==> i in all {
      MovesInPrefix(env, rotor, p, order, n, i);
    }
    OneMore(all, before, n, MovesOwn(env, rotor, p, order, n));
  }

  lemma OneMore(all: set<int>, before: set<int>, n: int, more: bool)
    requires n !in before && (forall i :: i != n ==> (i in all <==> i in before)) && (n in all <==> more)
    ensures |all| == |before| + if more then 1 else 0
  {
    var expected := before + if more then {n} else {};
    forall i ensures i in all <==> i in expected {
      if i == n { assert i in all <==> more; }
    }
    assert all == expected;
  }

  /** The progress of a pass after its first `i` leaves. */
  ghost function UpTo(env: Env, rotor: Rotor, p: Progress, order: seq<LeaveView>, i: nat): Progress
    requires i <= |order|
  {
    Run(env, rotor, p, AllEvents(order[..i]))
  }

  lemma NextLeave(env: Env, rotor: Rotor, p: Progress, order: seq<LeaveView>, i: nat)
    requires i < |order|
    ensures UpTo(env, rotor, p, order, i + 1) == Run(env, rotor, UpTo(env, rotor, p, order, i), LeaveEvents(order[i]))
    ensures ChangedLeaves(env, rotor, p, order[..i + 1]) == ChangedLeaves(env, rotor, p, order[..i]) +
      (if CoversIn(UpTo(env, rotor, p, order, i).table, order[i].start, order[i].end) ==
          CoversIn(UpTo(env, rotor, p, order, i + 1).table, order[i].start, order[i].end) then 0 else 1)
  {
    assert order[..i + 1][..i] == order[..i];
    RunAppend(env, rotor, p, AllEvents(order[..i]), LeaveEvents(order[i]));
  }

  lemma ActiveByView(a: seq<Leave>, b: seq<Leave>, id: LeaveId)
    requires Views(a) == Views(b) && ActiveId(a, id)
    ensures ActiveId(b, id)
  {
    var i :| 0 <= i < |a| && a[i].id == id && IsLeaveActive(a[i].status);
    assert |Views(a)| == |Views(b)| && Views(a)[i] == Views(b)[i];
    assert b[i].id == id;
  }

  lemma {:induction false} OnlyLeaveWithId(leaves: seq<Leave>, l: Leave)
    requires LeavesOk(leaves) && l in leaves
    ensures FindLeave(leaves, l.id) == Some(l)
  {
    if leaves[0] != l {
      var i :| 0 <= i < |leaves| && leaves[i] == l;
      assert leaves[0].id != leaves[i].id;
      assert leaves[1..][i - 1] == l;
      OnlyLeaveWithId(leaves[1..], l);
    }
  }

  ghost function SlotsIn(t: Table, lo: Date, hi: Date): set<Slot> {
    set s | s in t && lo <= s.date <= hi
  }

  /** The result of a range query: every row of the range, and nothing else. */
  ghost predicate Lists(t: Table, rows: seq<Assignment>, lo: Date, hi: Date) {
    && (forall i :: 0 <= i < |rows| ==>
          rows[i].slot in t && t[rows[i].slot] == rows[i].row && lo <= rows[i].slot.date <= hi)
    && (forall s :: s in t && lo <= s.date <= hi ==> Assignment(s, t[s]) in rows)
  }

  function RowsOfDay(t: Table, d: Date): seq<Assignment> {
    (if Orig(d) in t then [Assignment(Orig(d), t[Orig(d)])] else [])
    + (if Cov(d) in t then [Assignment(Cov(d), t[Cov(d)])] else [])
  }

  /** A range query, day by day; within a day the original comes before its cover. */
  function RowsOf(t: Table, lo: Date, hi: Date): seq<Assignment>
    decreases hi - lo
  {
    if hi < lo then [] else RowsOf(t, lo, hi - 1) + RowsOfDay(t, hi)
  }

  lemma {:induction false} RowsOfListsRange(t: Table, lo: Date, hi: Date)
    ensures Lists(t, RowsOf(t, lo, hi), lo, hi)
    decreases hi - lo
  {
    if lo <= hi {
      RowsOfListsRange(t, lo, hi - 1);
      var (before, day) := (RowsOf(t, lo, hi - 1), RowsOfDay(t, hi));
      forall s | s in t && lo <= s.date <= hi ensures Assignment(s, t[s]) in before + day {
        if s.date == hi {
          DayIsListed(t, s);
        }
      }
    }
  }

  lemma DayIsListed(t: Table, s: Slot)
    requires s in t
    ensures Assignment(s, t[s]) in RowsOfDay(t, s.date)
  {
    assert s == Orig(s.date) || s == Cov(s.date);
  }

  /** No row is listed twice. */
  lemma {:induction false} RowsOfCounts(t: Table, lo: Date, hi: Date)
    ensures |RowsOf(t, lo, hi)| == |SlotsIn(t, lo, hi)|
    decreases hi - lo
  {
    if hi < lo {
      assert SlotsIn(t, lo, hi) == {};
    } else {
      RowsOfCounts(t, lo, hi - 1);
      SlotsOfDay(t, lo, hi);
    }
  }

  lemma SlotsOfDay(t: Table, lo: Date, d: Date)
    requires lo <= d
    ensures |SlotsIn(t, lo, d)| == |SlotsIn(t, lo, d - 1)| + |RowsOfDay(t, d)|
  {
    var (o, c) := (if Orig(d) in t then {Orig(d)} else {}, if Cov(d) in t then {Cov(d)} else {});
    forall s ensures s in SlotsIn(t, lo, d) <==> s in SlotsIn(t, lo, d - 1) || s in o || s in c {
      assert s == Orig(s.date) || s == Cov(s.date);
    }
    assert SlotsIn(t, lo, d) == SlotsIn(t, lo, d - 1) + o + c;
  }

  datatype Written = Written(table: Table, nextId: RowId, r1: seq<Anchor>, ok: bool)

  /** Inserting the rows of a date: each insert can hit UNIQUE(date, is_cover), which ends the call. */
  function Write(t: Table, next: RowId, r1: seq<Anchor>, d: Date, i: nat, m: Member, cover: Option<Member>): Written {
    if Orig(d) in t then Written(t, next, r1, false)
    else
      var t1 := t[Orig(d) := Row(next, m, false, None)];
      if cover.None? then Written(t1, next + 1, r1 + [Anchor(d, i)], true)
      else if Cov(d) in t then Written(t1, next + 1, r1 + [Anchor(d, i)], false)
      else Written(t1[Cov(d) := Row(next + 1, cover.value, false, Some(next))], next + 2, r1 + [Anchor(d, i)], true)
  }

  lemma ProcessDateByParts(team: Team, w: World, d: Date)
    requires |team.members| > 0 && !ShouldSkipDate(team.holiday, d)
    ensures var i := OriginalSlot(team, w.r1, d);
      var k := CoverFor(team, w, d, team.members[i]);
      var row := if k.Some? then WriteAdHoc(w.coverRow, Anchor(d, k.value)) else w.coverRow;
      var cover := if k.Some? then Some(team.members[k.value]) else None;
      var out := Write(w.table, w.nextId, w.r1, d, i, team.members[i], cover);
      ProcessDate(team, w, d) == (World(out.table, out.nextId, w.leaves, out.r1, row), out.ok)
  {
  }

  lemma CoverIsSomebodyElse(team: Team, w: World, d: Date, m: Member)
    ensures var k := CoverFor(team, w, d, m); k.Some? ==> team.members[k.value] != m
  {
  }

  lemma GenerateEmpty(team: Team, w: World, lo: Date, hi: Date)
    requires |team.members| > 0
    ensures hi < lo ==> Generate(team, w, lo, hi) == Generate(team, w, lo, lo - 1)
  {
  }

  lemma {:induction false} GenerateStops(team: Team, w: World, lo: Date, d: Date, hi: Date)
    requires |team.members| > 0 && lo <= d <= hi && !Generate(team, w, lo, d).1
    ensures Generate(team, w, lo, hi) == Generate(team, w, lo, d)
    decreases hi - d
  {
    if d < hi {
      GenerateStops(team, w, lo, d, hi - 1);
    }
  }

  lemma FillEmpty(team: Team, w: World, lo: Date, hi: Date, busy: set<Date>)
    requires |team.members| > 0
    ensures hi < lo ==> FillGaps(team, w, lo, hi, busy) == FillGaps(team, w, lo, lo - 1, busy)
  {
  }

  lemma FillSkip(team: Team, w: World, lo: Date, d: Date, busy: set<Date>)
    requires |team.members| > 0 && lo <= d && (d in busy || ShouldSkipDate(team.holiday, d))
    ensures FillGaps(team, w, lo, d, busy) == FillGaps(team, w, lo, d - 1, busy)
  {
  }

  lemma FillStep(team: Team, w: World, lo: Date, d: Date, busy: set<Date>, f: Filled)
    requires |team.members| > 0 && lo <= d && d !in busy && !ShouldSkipDate(team.holiday, d)
    requires f == FillGaps(team, w, lo, d - 1, busy) && f.ok
    ensures var (w1, ok) := ProcessDate(team, f.world, d);
      FillGaps(team, w, lo, d, busy) == Filled(w1, f.created || ok, ok)
  {
  }

  lemma {:induction false} FillStops(team: Team, w: World, lo: Date, d: Date, hi: Date, busy: set<Date>)
    requires |team.members| > 0 && lo <= d <= hi && !FillGaps(team, w, lo, d, busy).ok
    ensures FillGaps(team, w, lo, hi, busy) == FillGaps(team, w, lo, d, busy)
    decreases hi - d
  {
    if d < hi {
      FillStops(team, w, lo, d, hi - 1, busy);
    }
  }
}
