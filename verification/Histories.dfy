/** Whole histories of the scheduler: what every call keeps, and what follows over any run of calls. */
module Histories {
  import opened Wrappers
  import opened Rotation
  import opened Roster
  import opened CoverRuns
  import opened Reassign
  import opened Schedule

  // ---------- leave statuses ----------

  ghost predicate ActiveId(leaves: seq<Leave>, id: LeaveId) {
    exists i :: 0 <= i < |leaves| && leaves[i].id == id && IsLeaveActive(leaves[i].status)
  }

  lemma MarkKeepsViews(leaves: seq<Leave>, id: LeaveId)
    requires LeavesOk(leaves) && ActiveId(leaves, id)
    ensures Views(MarkAssigned(leaves, id)) == Views(leaves)
    ensures LeavesOk(MarkAssigned(leaves, id))
    ensures forall x :: ActiveId(leaves, x) ==> ActiveId(MarkAssigned(leaves, id), x)
  {
    forall i | 0 <= i < |leaves| ensures View(MarkAssigned(leaves, id)[i]) == View(leaves[i]) {
      MarkKeepsView(leaves, id, i);
    }
    forall x | ActiveId(leaves, x) ensures ActiveId(MarkAssigned(leaves, id), x) {
      MarkKeepsActive(leaves, id, x);
    }
  }

  lemma MarkKeepsView(leaves: seq<Leave>, id: LeaveId, i: nat)
    requires LeavesOk(leaves) && ActiveId(leaves, id) && i < |leaves|
    ensures View(MarkAssigned(leaves, id)[i]) == View(leaves[i])
  {
    AssignedIsActive();
    var k :| 0 <= k < |leaves| && leaves[k].id == id && IsLeaveActive(leaves[k].status);
    if i < k { assert leaves[i].id != leaves[k].id; }
    if k < i { assert leaves[k].id != leaves[i].id; }
  }

  lemma MarkKeepsActive(leaves: seq<Leave>, id: LeaveId, x: LeaveId)
    requires ActiveId(leaves, x)
    ensures ActiveId(MarkAssigned(leaves, id), x)
  {
    AssignedIsActive();
    var j :| 0 <= j < |leaves| && leaves[j].id == x && IsLeaveActive(leaves[j].status);
    assert MarkAssigned(leaves, id)[j].id == x;
  }

  /** Being marked as assigned changes nothing that scheduling looks at. */
  lemma {:induction false} MarkAllKeepsViews(leaves: seq<Leave>, log: seq<Commit>)
    requires LeavesOk(leaves)
    requires forall i :: 0 <= i < |log| ==> ActiveId(leaves, log[i].leave)
    ensures Views(MarkAll(leaves, log)) == Views(leaves)
    ensures LeavesOk(MarkAll(leaves, log))
    ensures forall x :: ActiveId(leaves, x) ==> ActiveId(MarkAll(leaves, log), x)
  {
    if log != [] {
      var n := |log| - 1;
      MarkAllKeepsViews(leaves, log[..n]);
      MarkKeepsViews(MarkAll(leaves, log[..n]), log[n].leave);
    }
  }

  /** A leave ends up 'assigned' exactly when one of its days was committed; nothing else moves. */
  lemma {:induction false} MarkAllIs(leaves: seq<Leave>, log: seq<Commit>, i: nat)
    requires i < |leaves|
    ensures |MarkAll(leaves, log)| == |leaves|
    ensures MarkAll(leaves, log)[i] ==
      if exists j :: 0 <= j < |log| && log[j].leave == leaves[i].id
      then leaves[i].(status := STATUS_ASSIGNED) else leaves[i]
  {
    if log != [] {
      MarkAllIs(leaves, log[..|log| - 1], i);
    }
  }

  lemma {:induction false} LogComesFromEvents(env: Env, rotor: Rotor, p: Progress, evs: seq<Event>, i: nat)
    requires p.log == [] && i < |Run(env, rotor, p, evs).log|
    ensures exists j :: 0 <= j < |evs| && evs[j].Assign? && evs[j].leave == Run(env, rotor, p, evs).log[i].leave
  {
    var n := |evs| - 1;
    var before := Run(env, rotor, p, evs[..n]);
    if i < |before.log| {
      LogComesFromEvents(env, rotor, p, evs[..n], i);
      var j :| 0 <= j < n && evs[..n][j].Assign? && evs[..n][j].leave == before.log[i].leave;
      assert evs[j].Assign? && evs[j].leave == before.log[i].leave;
    } else {
      assert evs[n].Assign?;
    }
  }

  ghost predicate AssignsActive(leaves: seq<Leave>, evs: seq<Event>) {
    forall j :: 0 <= j < |evs| && evs[j].Assign? ==> ActiveId(leaves, evs[j].leave)
  }

  lemma LeaveAssignsActive(leaves: seq<Leave>, l: Leave)
    requires l in leaves
    ensures AssignsActive(leaves, LeaveEvents(View(l)))
  {
    DayEventsAre(l.id, l.member, l.start, l.end);
  }

  lemma {:induction false} PassAssignsActive(leaves: seq<Leave>, some: seq<Leave>)
    requires forall l :: l in some ==> l in leaves
    ensures AssignsActive(leaves, AllEvents(Views(some)))
  {
    if some != [] {
      var n := |some| - 1;
      assert Views(some)[..n] == Views(some[..n]);
      PassAssignsActive(leaves, some[..n]);
      assert some[n] in some;
      LeaveAssignsActive(leaves, some[n]);
    }
  }

  // ---------- chronological order ----------

  ghost predicate Chronological(ls: seq<Leave>) {
    forall i, j :: 0 <= i < j < |ls| ==> ls[i].start <= ls[j].start
  }

  lemma {:induction false} InsertKeepsElements(sorted: seq<Leave>, l: Leave)
    ensures multiset(InsertByStart(sorted, l)) == multiset(sorted) + multiset{l}
  {
    if sorted != [] && sorted[|sorted| - 1].start > l.start {
      var n := |sorted| - 1;
      InsertKeepsElements(sorted[..n], l);
      assert sorted == sorted[..n] + [sorted[n]];
    }
  }

  lemma {:induction false} InsertKeepsOrder(sorted: seq<Leave>, l: Leave)
    requires Chronological(sorted)
    ensures Chronological(InsertByStart(sorted, l))
  {
    if sorted != [] && sorted[|sorted| - 1].start > l.start {
      var n := |sorted| - 1;
      InsertKeepsOrder(sorted[..n], l);
      InsertedAreNoLater(sorted[..n], l, sorted[n].start);
    }
  }

  lemma InsertedAreNoLater(sorted: seq<Leave>, l: Leave, limit: Date)
    requires l.start <= limit && forall i :: 0 <= i < |sorted| ==> sorted[i].start <= limit
    ensures forall i :: 0 <= i < |InsertByStart(sorted, l)| ==> InsertByStart(sorted, l)[i].start <= limit
  {
    InsertKeepsElements(sorted, l);
    var r := InsertByStart(sorted, l);
    forall i | 0 <= i < |r| ensures r[i].start <= limit {
      assert r[i] in multiset(r);
      assert r[i] in sorted || r[i] == l;
    }
  }

  /** The pass order is chronological and is a permutation of the leaves. */
  lemma {:induction false} SortedByStartSorts(leaves: seq<Leave>)
    ensures multiset(SortedByStart(leaves)) == multiset(leaves)
    ensures Chronological(SortedByStart(leaves))
  {
    if leaves != [] {
      var n := |leaves| - 1;
      SortedByStartSorts(leaves[..n]);
      InsertKeepsElements(SortedByStart(leaves[..n]), leaves[n]);
      InsertKeepsOrder(SortedByStart(leaves[..n]), leaves[n]);
      assert leaves == leaves[..n] + [leaves[n]];
    }
  }

  lemma SortedElements(leaves: seq<Leave>)
    ensures forall l :: l in SortedByStart(leaves) <==> l in leaves
  {
    SortedByStartSorts(leaves);
    forall l ensures l in SortedByStart(leaves) <==> l in leaves {
      assert l in multiset(SortedByStart(leaves)) <==> l in multiset(leaves);
    }
  }

  lemma ViewsSplit(a: seq<Leave>, b: seq<Leave>)
    requires Views(a) == Views(b) && a != []
    ensures |a| == |b| && Views(a[..|a| - 1]) == Views(b[..|a| - 1]) && View(a[|a| - 1]) == View(b[|a| - 1])
  {
    var n := |a| - 1;
    assert |Views(a)| == |Views(b)|;
    assert Views(a)[n] == Views(b)[n];
    assert Views(a[..n]) == Views(a)[..n] && Views(b[..n]) == Views(b)[..n];
  }

  lemma ViewsSnoc(a: seq<Leave>, x: Leave)
    ensures Views(a + [x]) == Views(a) + [View(x)]
  {
  }

  lemma {:induction false} InsertViews(a: seq<Leave>, b: seq<Leave>, x: Leave, y: Leave)
    requires Views(a) == Views(b) && View(x) == View(y)
    ensures Views(InsertByStart(a, x)) == Views(InsertByStart(b, y))
  {
    if a != [] {
      var n := |a| - 1;
      ViewsSplit(a, b);
      InsertViews(a[..n], b[..n], x, y);
      var (r, s) := (InsertByStart(a[..n], x), InsertByStart(b[..n], y));
      ViewsSnoc(r, a[n]);
      ViewsSnoc(s, b[n]);
    }
    ViewsSnoc(a, x);
    ViewsSnoc(b, y);
  }

  lemma {:induction false} SortViews(a: seq<Leave>, b: seq<Leave>)
    requires Views(a) == Views(b)
    ensures Views(SortedByStart(a)) == Views(SortedByStart(b))
  {
    if a != [] {
      var n := |a| - 1;
      ViewsSplit(a, b);
      SortViews(a[..n], b[..n]);
      InsertViews(SortedByStart(a[..n]), SortedByStart(b[..n]), a[n], b[n]);
    }
  }

  // ---------- one cover-assignment call ----------

  ghost function Order(w: World): seq<LeaveView> {
    Views(SortedByStart(w.leaves))
  }

  lemma OrderIsFromLeaves(team: Team, w: World)
    ensures From(EnvOf(team, w), Order(w))
    ensures forall l :: l in w.leaves ==> View(l) in Order(w)
  {
    SortedElements(w.leaves);
    var (env, order, sorted) := (EnvOf(team, w), Order(w), SortedByStart(w.leaves));
    forall i | 0 <= i < |order| ensures order[i] in env.leaves {
      assert sorted[i] in w.leaves;
      var j :| 0 <= j < |w.leaves| && w.leaves[j] == sorted[i];
      assert Views(w.leaves)[j] == order[i];
    }
    forall l | l in w.leaves ensures View(l) in order {
      var j :| 0 <= j < |sorted| && sorted[j] == l;
      assert order[j] == View(l);
    }
  }

  ghost function PassOf(team: Team, w: World): Progress {
    Pass(EnvOf(team, w), Order(w), w.table, w.nextId)
  }

  /** The parts of the state that a cover-assignment run can touch, and how. */
  lemma RunKeepsForm(team: Team, w: World, rotor: Rotor, evs: seq<Event>)
    requires WellFormed(team, w) && Prepared(EnvOf(team, w), evs) && AssignsActive(w.leaves, evs)
    ensures var p := After(EnvOf(team, w), rotor, w.table, w.nextId, evs);
      && Shaped(p.table) && IdsBelow(p.table, p.nextId)
      && (RotationOk(team, w.table, w.r1) ==> RotationOk(team, p.table, w.r1))
      && (forall d :: At(p.table, Orig(d)) == At(w.table, Orig(d)))
      && LeavesOk(MarkAll(w.leaves, p.log)) && Views(MarkAll(w.leaves, p.log)) == Views(w.leaves)
  {
    var env := EnvOf(team, w);
    var p := After(env, rotor, w.table, w.nextId, evs);
    RunFollowsLedger(env, rotor, w.table, w.nextId, evs);
    forall d ensures At(p.table, Orig(d)) == At(w.table, Orig(d)) {
    }
    forall d ensures Orig(d) in p.table <==> Orig(d) in w.table
             ensures Orig(d) in p.table ==> p.table[Orig(d)] == w.table[Orig(d)] {
      assert At(p.table, Orig(d)) == At(w.table, Orig(d));
    }
    if RotationOk(team, w.table, w.r1) { RotationTransfers(team, w.table, p.table, w.r1); }
    forall i | 0 <= i < |p.log| ensures ActiveId(w.leaves, p.log[i].leave) {
      LogComesFromEvents(env, rotor, Progress(w.table, w.nextId, []), evs, i);
    }
    MarkAllKeepsViews(w.leaves, p.log);
  }

  lemma {:induction false} FoundLeave(leaves: seq<Leave>, id: LeaveId)
    requires FindLeave(leaves, id).Some?
    ensures FindLeave(leaves, id).value in leaves && FindLeave(leaves, id).value.id == id
  {
    if leaves[0].id != id { FoundLeave(leaves[1..], id); }
  }

  lemma ViewInEnv(team: Team, w: World, l: Leave)
    requires l in w.leaves
    ensures View(l) in EnvOf(team, w).leaves
  {
    var j :| 0 <= j < |w.leaves| && w.leaves[j] == l;
    assert Views(w.leaves)[j] == View(l);
  }

  /** `HandleLeaveChange` keeps the form of the state, the rotation of the originals, both other cursors
      and every view. */
  lemma LeaveChangeKeepsForm(team: Team, w: World, id: LeaveId)
    requires WellFormed(team, w)
    ensures var w' := LeaveChange(team, w, id).0;
      && Carries(team, w, w') && EnvOf(team, w') == EnvOf(team, w)
      && w'.r1 == w.r1
      && (forall d :: At(w'.table, Orig(d)) == At(w.table, Orig(d)))
      && KeepsAnchor(w, w')
  {
    if FindLeave(w.leaves, id).Some? {
      FoundLeave(w.leaves, id);
      var l := FindLeave(w.leaves, id).value;
      var env := EnvOf(team, w);
      ViewsAreValid(team, w);
      ViewInEnv(team, w, l);
      PassIsPrepared(env, [View(l)]);
      SingleLeaveEvents(View(l));
      LeaveAssignsActive(w.leaves, l);
      RunKeepsForm(team, w, Rotor(AdHoc, AdHocAnchor(w.coverRow)), LeaveEvents(View(l)));
    }
  }

  lemma PassIsReady(team: Team, w: World)
    requires WellFormed(team, w)
    ensures ValidEnv(EnvOf(team, w)) && From(EnvOf(team, w), Order(w))
    ensures Prepared(EnvOf(team, w), AllEvents(Order(w))) && AssignsActive(w.leaves, AllEvents(Order(w)))
  {
    ViewsAreValid(team, w);
    OrderIsFromLeaves(team, w);
    PassIsPrepared(EnvOf(team, w), Order(w));
    SortedElements(w.leaves);
    PassAssignsActive(w.leaves, SortedByStart(w.leaves));
  }

  /** `ReassignCovers` keeps the form of the state and the originals, and writes neither the ad-hoc
      nor the R1 cursor. */
  lemma ReassignKeepsForm(team: Team, w: World)
    requires WellFormed(team, w)
    ensures var w' := ReassignAll(team, w);
      && Carries(team, w, w') && EnvOf(team, w') == EnvOf(team, w) && Order(w') == Order(w)
      && w'.r1 == w.r1 && AdHocAnchor(w'.coverRow) == AdHocAnchor(w.coverRow)
      && (forall d :: At(w'.table, Orig(d)) == At(w.table, Orig(d)))
  {
    PassIsReady(team, w);
    RunKeepsForm(team, w, FRESH, AllEvents(Order(w)));
    SortViews(w.leaves, ReassignAll(team, w).leaves);
  }

  // ---------- what a call does to leaves and cursors ----------

  lemma StatusAfter(leaves: seq<Leave>, log: seq<Commit>, x: nat)
    requires x < |leaves|
    ensures |MarkAll(leaves, log)| == |leaves|
    ensures MarkAll(leaves, log)[x] ==
      leaves[x].(status := if CommitsFor(log, leaves[x].id) then STATUS_ASSIGNED else leaves[x].status)
  {
    MarkAllIs(leaves, log, x);
  }

  /** The leaves of a pass are taken up in its order. */
  ghost predicate TakenUpByPass(team: Team, w: World, l: Leave) {
    exists i :: 0 <= i < |Order(w)| && Order(w)[i] == View(l) && TakenUp(EnvOf(team, w), w.table, Order(w), i)
  }

  lemma OrderHasIds(w: World, x: nat, i: nat)
    requires LeavesOk(w.leaves) && x < |w.leaves| && i < |Order(w)| && Order(w)[i].id == w.leaves[x].id
    ensures Order(w)[i] == View(w.leaves[x])
  {
    SortedElements(w.leaves);
    var l := SortedByStart(w.leaves)[i];
    assert l in w.leaves;
    var y :| 0 <= y < |w.leaves| && w.leaves[y] == l;
    assert y == x;
  }

  /** A reassign run keeps every leave but for its status: that becomes 'assigned' for exactly the leaves that the
      run takes up. */
  lemma ReassignMarks(team: Team, w: World, x: nat)
    requires WellFormed(team, w) && x < |w.leaves|
    ensures var (leaves, l) := (ReassignAll(team, w).leaves, w.leaves[x]);
      && |leaves| == |w.leaves|
      && leaves[x] == l.(status := if TakenUpByPass(team, w, l) then STATUS_ASSIGNED else l.status)
  {
    var (env, order) := (EnvOf(team, w), Order(w));
    PassIsReady(team, w);
    RunFollowsLedger(env, FRESH, w.table, w.nextId, AllEvents(order));
    RunTakesUp(env, FRESH, w.table, order, w.leaves[x].id);
    StatusAfter(w.leaves, PassOf(team, w).log, x);
    forall i | 0 <= i < |order| && order[i].id == w.leaves[x].id ensures order[i] == View(w.leaves[x]) {
      OrderHasIds(w, x, i);
    }
  }

  /** In particular: a leave with a working day on which its member holds the original and somebody is free ends up
      assigned; one that is not active, or whose member holds no row on any working day of it, keeps its status. */
  lemma ReassignMarksPlainly(team: Team, w: World, x: nat, d: Date)
    requires WellFormed(team, w) && x < |w.leaves|
    ensures x < |ReassignAll(team, w).leaves|
    ensures var (env, l, status) := (EnvOf(team, w), w.leaves[x], ReassignAll(team, w).leaves[x].status);
      && (MeetsOn(env, w.table, View(l), d) && w.table[Orig(d)].member == l.member ==> status == STATUS_ASSIGNED)
      && ((forall e :: !MeetsOn(env, w.table, View(l), e)) ==> status == l.status)
  {
    var (env, l, order) := (EnvOf(team, w), w.leaves[x], Order(w));
    ReassignMarks(team, w, x);
    OrderIsFromLeaves(team, w);
    assert View(l) in order;
    if MeetsOn(env, w.table, View(l), d) && w.table[Orig(d)].member == l.member {
      var i :| 0 <= i < |order| && order[i] == View(l);
      assert TakesUp(env, w.table, order, i, d);
    }
    if forall e :: !MeetsOn(env, w.table, View(l), e) {
      forall i, e | 0 <= i < |order| && order[i] == View(l) ensures !TakesUp(env, w.table, order, i, e) {
        assert !MeetsOn(env, w.table, View(l), e);
      }
    }
  }

  /** An ad-hoc call does the same for its own leave and leaves all others as they are. */
  lemma LeaveChangeMarks(team: Team, w: World, id: LeaveId, x: nat)
    requires WellFormed(team, w) && x < |w.leaves|
    ensures var (leaves, l) := (LeaveChange(team, w, id).0.leaves, w.leaves[x]);
      && |leaves| == |w.leaves|
      && leaves[x] == l.(status := if l.id == id && exists d :: MeetsOn(EnvOf(team, w), w.table, View(l), d)
                                   then STATUS_ASSIGNED else l.status)
  {
    var l := w.leaves[x];
    if FindLeave(w.leaves, id).Some? {
      var named := FindLeave(w.leaves, id).value;
      LeaveChangeIsReady(team, w, id);
      FoundLeave(w.leaves, id);
      var (env, rotor) := (EnvOf(team, w), Rotor(AdHoc, AdHocAnchor(w.coverRow)));
      var log := After(env, rotor, w.table, w.nextId, LeaveEvents(View(named))).log;
      OneLeaveTakesUp(env, rotor, w.table, View(named), l.id);
      StatusAfter(w.leaves, log, x);
      assert l.id == id ==> l == named;
    } else if l.id == id {
      NamedLeaveIsFound(w.leaves, x);
    }
  }

  lemma {:induction false} NamedLeaveIsFound(leaves: seq<Leave>, x: nat)
    requires x < |leaves|
    ensures FindLeave(leaves, leaves[x].id).Some?
  {
    if leaves[0].id != leaves[x].id { NamedLeaveIsFound(leaves[1..], x - 1); }
  }

  /** Everything but the statuses, by the ledger of the starting table: the rows, the ids, the R1 rows, and the anchor,
      which records the last commit if there is a row to hold it. */
  lemma ReassignFollowsLedger(team: Team, w: World)
    requires WellFormed(team, w)
    ensures var (env, evs, w') := (EnvOf(team, w), AllEvents(Order(w)), ReassignAll(team, w));
      var log := Ledger(env, FRESH, w.table, true, evs);
      && RunOk(env, w.table, w.nextId, evs, Progress(w'.table, w'.nextId, log)) && w'.r1 == w.r1
      && w'.coverRow ==
         (if log == [] || w.coverRow.None? then w.coverRow
          else Some(CoverRow(w.coverRow.value.last, Some(Anchor(log[|log| - 1].date, log[|log| - 1].slot)))))
  {
    PassIsReady(team, w);
    RunFollowsLedger(EnvOf(team, w), FRESH, w.table, w.nextId, AllEvents(Order(w)));
  }

  lemma LeaveChangeIsReady(team: Team, w: World, id: LeaveId)
    requires WellFormed(team, w) && FindLeave(w.leaves, id).Some?
    ensures var (env, l) := (EnvOf(team, w), FindLeave(w.leaves, id).value);
      var p := After(env, Rotor(AdHoc, AdHocAnchor(w.coverRow)), w.table, w.nextId, LeaveEvents(View(l)));
      && Prepared(env, LeaveEvents(View(l)))
      && RunOk(env, w.table, w.nextId, LeaveEvents(View(l)), p)
      && p.log == Ledger(env, Rotor(AdHoc, AdHocAnchor(w.coverRow)), w.table, true, LeaveEvents(View(l)))
  {
    var (env, l) := (EnvOf(team, w), FindLeave(w.leaves, id).value);
    FoundLeave(w.leaves, id);
    ViewsAreValid(team, w);
    ViewInEnv(team, w, l);
    PassIsPrepared(env, [View(l)]);
    SingleLeaveEvents(View(l));
    RunFollowsLedger(env, Rotor(AdHoc, AdHocAnchor(w.coverRow)), w.table, w.nextId, LeaveEvents(View(l)));
  }

  /** The cursor names the last day of the leave that its member meets, and who covers it. */
  ghost predicate CursorOnLastDay(env: Env, t: Table, t': Table, row: Option<CoverRow>, l: LeaveView) {
    && row.Some? && row.value.last.index >= 0 && row.value.last.index < |env.members|
    && (var (d, m) := (row.value.last.date, env.members[row.value.last.index]);
        && MeetsOn(env, t, l, d) && (forall e :: MeetsOn(env, t, l, e) ==> e <= d)
        && m !in Away(env, d) && Cov(d) in t' && (!t'[Cov(d)].swapped ==> t'[Cov(d)].member == m))
  }

  /** An ad-hoc call for an unknown leave changes nothing and is an error. Otherwise the ad-hoc cursor ends on the last
      day that was committed, or stays where it is if there was none. */
  lemma LeaveChangeMovesCursor(team: Team, w: World, id: LeaveId)
    requires WellFormed(team, w)
    ensures FindLeave(w.leaves, id).None? ==> LeaveChange(team, w, id) == (w, false)
    ensures FindLeave(w.leaves, id).Some? ==>
      var ((w', ok), env, l) := (LeaveChange(team, w, id), EnvOf(team, w), View(FindLeave(w.leaves, id).value));
      && ok && KeepsAnchor(w, w')
      && if exists d :: MeetsOn(env, w.table, l, d)
         then CursorOnLastDay(env, w.table, w'.table, w'.coverRow, l)
         else w'.coverRow == w.coverRow
  {
    if FindLeave(w.leaves, id).Some? {
      var (env, l) := (EnvOf(team, w), View(FindLeave(w.leaves, id).value));
      var rotor := Rotor(AdHoc, AdHocAnchor(w.coverRow));
      LeaveChangeIsReady(team, w, id);
      LedgerOfOneLeave(env, rotor, w.table, l);
      var p := After(env, rotor, w.table, w.nextId, LeaveEvents(l));
      if p.log != [] { LastCommitIsCursor(env, rotor, w, l, p); }
    }
  }

  lemma LastCommitIsCursor(env: Env, rotor: Rotor, w: World, l: LeaveView, p: Progress)
    requires RunOk(env, w.table, w.nextId, LeaveEvents(l), p) && p.log != []
    requires var d := p.log[|p.log| - 1].date;
      MeetsOn(env, w.table, l, d) && forall e :: MeetsOn(env, w.table, l, e) ==> e <= d
    ensures CursorOnLastDay(env, w.table, p.table, AfterAdHoc(w, p).coverRow, l)
  {
    var c := p.log[|p.log| - 1];
    assert LastPick(p.log, c.date) == Some(c.slot);
    assert CoverOk(env, w.table, w.nextId, Swept(LeaveEvents(l), c.date), LastPick(p.log, c.date),
                   At(p.table, Cov(c.date)), c.date);
  }

  // ---------- what a cover-assignment call achieves ----------

  /** `ReassignCovers` handles every working day of every active leave whose member holds the original. */
  lemma ReassignHandlesEveryLeave(team: Team, w: World, l: Leave, d: Date)
    requires WellFormed(team, w) && l in w.leaves && IsLeaveActive(l.status) && l.start <= d <= l.end
    requires !ShouldSkipDate(team.holiday, d) && Orig(d) in w.table && w.table[Orig(d)].member == l.member
    ensures Handled(EnvOf(team, w), w.table, ReassignAll(team, w).table, d)
  {
    PassIsReady(team, w);
    OrderIsFromLeaves(team, w);
    CoversAreSoundAndComplete(EnvOf(team, w), FRESH, Order(w), w.table, w.nextId, View(l), d);
  }

  /** `HandleLeaveChange` handles every such day of its own leave. */
  lemma LeaveChangeHandlesItsLeave(team: Team, w: World, id: LeaveId, d: Date)
    requires WellFormed(team, w) && FindLeave(w.leaves, id).Some? && !ShouldSkipDate(team.holiday, d)
    requires IsLeaveActive(FindLeave(w.leaves, id).value.status)
    requires FindLeave(w.leaves, id).value.start <= d <= FindLeave(w.leaves, id).value.end
    requires Orig(d) in w.table && w.table[Orig(d)].member == FindLeave(w.leaves, id).value.member
    ensures Handled(EnvOf(team, w), w.table, LeaveChange(team, w, id).0.table, d)
  {
    var l := FindLeave(w.leaves, id).value;
    FoundLeave(w.leaves, id);
    ViewsAreValid(team, w);
    ViewInEnv(team, w, l);
    SingleLeaveEvents(View(l));
    CoversAreSoundAndComplete(EnvOf(team, w), Rotor(AdHoc, AdHocAnchor(w.coverRow)), [View(l)],
                              w.table, w.nextId, View(l), d);
  }

  // ---------- the reassign contract on the whole state ----------

  /** Everything a caller can observe: rows, leaves and cursors (fresh-id supply aside). */
  ghost predicate SameState(w: World, w': World) {
    w.table == w'.table && w.leaves == w'.leaves && w.r1 == w'.r1 && w.coverRow == w'.coverRow
  }

  lemma MarkTwice(leaves: seq<Leave>, log: seq<Commit>)
    ensures MarkAll(MarkAll(leaves, log), log) == MarkAll(leaves, log)
  {
    var once := MarkAll(leaves, log);
    MarkAllLength(leaves, log);
    MarkAllLength(once, log);
    forall i | 0 <= i < |leaves| ensures MarkAll(once, log)[i] == once[i] {
      MarkAllIs(leaves, log, i);
      MarkAllIs(once, log, i);
    }
  }

  lemma {:induction false} MarkAllLength(leaves: seq<Leave>, log: seq<Commit>)
    ensures |MarkAll(leaves, log)| == |leaves|
  {
    if log != [] { MarkAllLength(leaves, log[..|log| - 1]); }
  }

  lemma SameCommitsSameState(team: Team, w: World)
    requires WellFormed(team, w)
    requires PassOf(team, ReassignAll(team, w)).log == PassOf(team, w).log
    ensures SameState(ReassignAll(team, ReassignAll(team, w)), ReassignAll(team, w))
  {
    PassIsReady(team, w);
    ReassignKeepsForm(team, w);
    SameCommitsSameRows(EnvOf(team, w), FRESH, w.table, w.nextId, AllEvents(Order(w)));
    MarkTwice(w.leaves, PassOf(team, w).log);
  }

  /** The idempotency promise on the whole state, with the start condition it needs. */
  lemma ReassignIsIdempotent(team: Team, w: World)
    requires WellFormed(team, w) && Settled(EnvOf(team, w), w.table)
    ensures SameState(ReassignAll(team, ReassignAll(team, w)), ReassignAll(team, w))
  {
    PassIsReady(team, w);
    ReassignKeepsForm(team, w);
    PassIsIdempotent(EnvOf(team, w), Order(w), w.table, w.nextId);
    SameCommitsSameState(team, w);
  }

  /** Which starts are good: the second run makes the commits of the first, on every date and in the same order,
      exactly when no day of a leave meets a cover that is itself on leave before that day has been re-covered. */
  lemma ReassignRepeatsIff(team: Team, w: World)
    requires WellFormed(team, w)
    ensures PassOf(team, ReassignAll(team, w)).log == PassOf(team, w).log <==>
      Undisturbed(EnvOf(team, w), w.table, AllEvents(Order(w)))
  {
    PassIsReady(team, w);
    ReassignKeepsForm(team, w);
    PassRepeatsIff(EnvOf(team, w), Order(w), w.table, w.nextId);
  }

  /** ... and it changes no row exactly when, on every date, the plan that ignores the unswapped covers
      of the start ends on the same cover. */
  lemma ReassignKeepsRowsIff(team: Team, w: World)
    requires WellFormed(team, w)
    ensures ReassignAll(team, ReassignAll(team, w)).table == ReassignAll(team, w).table <==>
      PlanAgrees(EnvOf(team, w), FRESH, w.table, AllEvents(Order(w)))
  {
    PassIsReady(team, w);
    ReassignKeepsForm(team, w);
    SecondRunKeepsRowsIff(EnvOf(team, w), FRESH, w.table, w.nextId, AllEvents(Order(w)));
    var (w1, p) := (ReassignAll(team, w), PassOf(team, w));
    assert w1.table == p.table && w1.nextId == p.nextId;
    assert ReassignAll(team, w1).table == Pass(EnvOf(team, w), Order(w), p.table, p.nextId).table;
  }

  /** From any well-formed state the third run equals the second. */
  lemma ThirdReassignEqualsSecond(team: Team, w: World)
    requires WellFormed(team, w)
    ensures var w2 := ReassignAll(team, ReassignAll(team, w));
      SameState(ReassignAll(team, w2), w2)
  {
    var w1 := ReassignAll(team, w);
    PassIsReady(team, w);
    ReassignKeepsForm(team, w);
    ReassignKeepsForm(team, w1);
    ThirdPassEqualsSecond(EnvOf(team, w), Order(w), w.table, w.nextId);
    SameCommitsSameState(team, w1);
  }

  // ---------- ad-hoc traffic between two passes ----------

  function LeaveChanges(team: Team, w: World, ids: seq<LeaveId>): World {
    if ids == [] then w else LeaveChange(team, LeaveChanges(team, w, ids[..|ids| - 1]), ids[|ids| - 1]).0
  }

  lemma CursorResumes(rotor: Rotor, log: seq<Commit>, more: seq<Commit>)
    ensures Current(rotor, log + more) == Current(Rotor(rotor.src, Current(rotor, log)), more)
  {
    if more == [] { assert log + more == log; }
  }

  lemma StepResumes(env: Env, rotor: Rotor, log: seq<Commit>, p: Progress, e: Event)
    ensures var more := Step(env, Rotor(rotor.src, Current(rotor, log)), p, e);
      Step(env, rotor, p.(log := log + p.log), e) == more.(log := log + more.log)
  {
    CursorResumes(rotor, log, p.log);
    forall c: Commit ensures log + (p.log + [c]) == (log + p.log) + [c] {
    }
  }

  /** A run that resumes from a recorded cursor is the continuation of the run that recorded it. */
  lemma {:induction false} RunResumes(env: Env, rotor: Rotor, t: Table, next: RowId, log: seq<Commit>, evs: seq<Event>)
    ensures var whole := Run(env, rotor, Progress(t, next, log), evs);
      var rest := Run(env, Rotor(rotor.src, Current(rotor, log)), Progress(t, next, []), evs);
      && whole == rest.(log := log + rest.log)
      && Current(rotor, whole.log) == Current(Rotor(rotor.src, Current(rotor, log)), rest.log)
  {
    var resumed := Rotor(rotor.src, Current(rotor, log));
    CursorResumes(rotor, log, Run(env, resumed, Progress(t, next, []), evs).log);
    if evs == [] {
      assert log + [] == log;
    } else {
      var n := |evs| - 1;
      RunResumes(env, rotor, t, next, log, evs[..n]);
      StepResumes(env, rotor, log, Run(env, resumed, Progress(t, next, []), evs[..n]), evs[n]);
    }
  }

  /** The leaves named by a list of ids, unknown ids left out. */
  ghost function Called(leaves: seq<Leave>, ids: seq<LeaveId>): seq<LeaveView> {
    if ids == [] then []
    else
      var rest := Called(leaves, ids[..|ids| - 1]);
      match FindLeave(leaves, ids[|ids| - 1])
      case None => rest
      case Some(l) => rest + [View(l)]
  }

  lemma {:induction false} FindLeaveByView(a: seq<Leave>, b: seq<Leave>, id: LeaveId)
    requires Views(a) == Views(b)
    ensures FindLeave(a, id).Some? == FindLeave(b, id).Some?
    ensures FindLeave(a, id).Some? ==> View(FindLeave(a, id).value) == View(FindLeave(b, id).value)
  {
    if a != [] {
      assert |a| == |b|;
      assert View(a[0]) == Views(a)[0] == Views(b)[0] == View(b[0]);
      assert Views(a[1..]) == Views(a)[1..] == Views(b)[1..] == Views(b[1..]);
      FindLeaveByView(a[1..], b[1..], id);
    }
  }

  /** One more ad-hoc call continues the run of the calls before it. */
  lemma OneMoreCall(team: Team, w: World, w1: World, id: LeaveId, before: seq<Event>)
    requires WellFormed(team, w1) && EnvOf(team, w1) == EnvOf(team, w) && FindLeave(w1.leaves, id).Some?
    requires var rotor := Rotor(AdHoc, AdHocAnchor(w.coverRow));
      var p := After(EnvOf(team, w), rotor, w.table, w.nextId, before);
      w1.table == p.table && w1.nextId == p.nextId && AdHocAnchor(w1.coverRow) == Current(rotor, p.log)
    ensures var rotor := Rotor(AdHoc, AdHocAnchor(w.coverRow));
      var l := View(FindLeave(w1.leaves, id).value);
      var p := After(EnvOf(team, w), rotor, w.table, w.nextId, before + LeaveEvents(l));
      var w' := LeaveChange(team, w1, id).0;
      w'.table == p.table && w'.nextId == p.nextId && AdHocAnchor(w'.coverRow) == Current(rotor, p.log)
  {
    var (env, rotor) := (EnvOf(team, w), Rotor(AdHoc, AdHocAnchor(w.coverRow)));
    var l := View(FindLeave(w1.leaves, id).value);
    var p := After(env, rotor, w.table, w.nextId, before);
    RunAppend(env, rotor, Progress(w.table, w.nextId, []), before, LeaveEvents(l));
    RunResumes(env, rotor, p.table, p.nextId, p.log, LeaveEvents(l));
    assert p == Progress(p.table, p.nextId, p.log);
  }

  /** A sequence of `HandleLeaveChange` calls is one ad-hoc run over the leaves it names. */
  lemma {:induction false} LeaveChangesAreOneRun(team: Team, w: World, ids: seq<LeaveId>)
    requires WellFormed(team, w)
    ensures var w' := LeaveChanges(team, w, ids);
      var rotor := Rotor(AdHoc, AdHocAnchor(w.coverRow));
      var p := After(EnvOf(team, w), rotor, w.table, w.nextId, AllEvents(Called(w.leaves, ids)));
      && WellFormed(team, w') && EnvOf(team, w') == EnvOf(team, w)
      && w'.table == p.table && w'.nextId == p.nextId
      && AdHocAnchor(w'.coverRow) == Current(rotor, p.log)
  {
    if ids != [] {
      var n := |ids| - 1;
      LeaveChangesAreOneRun(team, w, ids[..n]);
      var w1 := LeaveChanges(team, w, ids[..n]);
      LeaveChangeKeepsForm(team, w1, ids[n]);
      FindLeaveByView(w1.leaves, w.leaves, ids[n]);
      if FindLeave(w.leaves, ids[n]).Some? {
        var calls := Called(w.leaves, ids);
        assert calls[..|calls| - 1] == Called(w.leaves, ids[..n]);
        OneMoreCall(team, w, w1, ids[n], AllEvents(Called(w.leaves, ids[..n])));
      }
    }
  }

  /** Ad-hoc calls never write the R1 rows or the reassign anchor. */
  lemma {:induction false} LeaveChangesKeepCursors(team: Team, w: World, ids: seq<LeaveId>)
    requires WellFormed(team, w)
    ensures var w' := LeaveChanges(team, w, ids);
      && WellFormed(team, w') && w'.r1 == w.r1
      && KeepsAnchor(w, w')
  {
    if ids != [] {
      var n := |ids| - 1;
      LeaveChangesKeepCursors(team, w, ids[..n]);
      LeaveChangeKeepsForm(team, LeaveChanges(team, w, ids[..n]), ids[n]);
    }
  }

  lemma {:induction false} CalledAreLeaves(w: World, ids: seq<LeaveId>)
    ensures forall i :: 0 <= i < |Called(w.leaves, ids)| ==> Called(w.leaves, ids)[i] in Order(w)
  {
    if ids != [] {
      CalledAreLeaves(w, ids[..|ids| - 1]);
      if FindLeave(w.leaves, ids[|ids| - 1]).Some? {
        FoundLeave(w.leaves, ids[|ids| - 1]);
        OrderIsFromLeaves(Team([], d => false, r1 => 0), w);
      }
    }
  }

  /** Some run of the pass has worked on the table since the leaves last changed. */
  ghost predicate PassHasRun(team: Team, w: World) {
    Worked(EnvOf(team, w), w.table, AllEvents(Order(w)))
  }

  lemma PassHasRunAfterwards(team: Team, w: World)
    requires WellFormed(team, w)
    ensures PassHasRun(team, ReassignAll(team, w))
  {
    PassIsReady(team, w);
    ReassignKeepsForm(team, w);
    RunIsWorked(EnvOf(team, w), FRESH, w.table, w.nextId, AllEvents(Order(w)));
  }

  /** With and without the calls, the next pass ends on the same rows and makes the same commits; it leaves
      the ad-hoc cursor where the calls put it, and ends on the same anchor if there is a row to hold one. */
  ghost predicate Undone(team: Team, w: World, w1: World) {
    var (busy, quiet) := (ReassignAll(team, w1), ReassignAll(team, w));
    && busy.table == quiet.table && busy.r1 == quiet.r1 && PassOf(team, w1).log == PassOf(team, w).log
    && AdHocAnchor(busy.coverRow) == AdHocAnchor(w1.coverRow)
    && (w.coverRow.Some? ==>
          && w1.coverRow.Some? && w1.coverRow.value.reassign == w.coverRow.value.reassign
          && busy.coverRow.value.reassign == quiet.coverRow.value.reassign)
  }

  lemma TrafficIsUndone(team: Team, w: World, ids: seq<LeaveId>)
    requires WellFormed(team, w) && PassHasRun(team, w)
    ensures Undone(team, w, LeaveChanges(team, w, ids))
  {
    var w1 := LeaveChanges(team, w, ids);
    LeaveChangesAreOneRun(team, w, ids);
    LeaveChangesKeepCursors(team, w, ids);
    PassIsReady(team, w);
    CalledAreLeaves(w, ids);
    SortViews(w.leaves, w1.leaves);
    ReassignKeepsForm(team, w1);
    ReassignKeepsForm(team, w);
    TrafficBetweenPasses(EnvOf(team, w), Order(w), Called(w.leaves, ids), AdHocAnchor(w.coverRow), w.table, w.nextId);
  }

  /** After a single reassign run, from whatever state, any sequence of `HandleLeaveChange` calls on existing
      leaves makes no difference to the next one. */
  lemma ReassignIgnoresTraffic(team: Team, w: World, ids: seq<LeaveId>)
    requires WellFormed(team, w)
    ensures Undone(team, ReassignAll(team, w), LeaveChanges(team, ReassignAll(team, w), ids))
  {
    ReassignKeepsForm(team, w);
    PassHasRunAfterwards(team, w);
    TrafficIsUndone(team, ReassignAll(team, w), ids);
  }

  /** At a fixed point of the pass, the calls are undone: every row is exactly what it was. */
  lemma AdHocCallsAreUndone(team: Team, w: World, ids: seq<LeaveId>)
    requires WellFormed(team, w) && ReassignAll(team, w).table == w.table
    ensures var w2 := ReassignAll(team, LeaveChanges(team, w, ids)); w2.table == w.table && w2.r1 == w.r1
    ensures Undone(team, w, LeaveChanges(team, w, ids))
  {
    PassHasRunAfterwards(team, w);
    ReassignKeepsForm(team, w);
    TrafficIsUndone(team, w, ids);
  }

  /** So after one run from a settled start, or two from any start, traffic leaves no trace in the rows. */
  lemma TrafficAfterPassesIsUndone(team: Team, w: World, ids: seq<LeaveId>)
    requires WellFormed(team, w)
    ensures var once := ReassignAll(team, w);
      var w1 := if Settled(EnvOf(team, w), w.table) then once else ReassignAll(team, once);
      ReassignAll(team, LeaveChanges(team, w1, ids)).table == w1.table
  {
    ReassignKeepsForm(team, w);
    if Settled(EnvOf(team, w), w.table) {
      ReassignIsIdempotent(team, w);
      AdHocCallsAreUndone(team, ReassignAll(team, w), ids);
    } else {
      ReassignKeepsForm(team, ReassignAll(team, w));
      ThirdReassignEqualsSecond(team, w);
      AdHocCallsAreUndone(team, ReassignAll(team, ReassignAll(team, w)), ids);
    }
  }
}
