/** A history of calls after which one reassign run is not enough.

A team of three generates three days. Ann and Bob go on leave for the Tuesday, so Cid covers Bob. Cid then
goes on leave for all three days: nobody is left for the Tuesday, so Cid stays on it, and Ann covers the
Wednesday. Ann's leave is deleted. Now a reassign run hands the Tuesday to Ann and, one slot further,
the Wednesday to Bob; the next run finds nothing to do on the Tuesday and hands the Wednesday to Ann.
 */
module Unsettled {
  import opened Wrappers
  import opened Rotation
  import opened Roster
  import opened CoverRuns
  import opened Reassign
  import opened Schedule
  import opened Histories
  import opened Recount
  import opened Runs
  import Text

  const ANN: Member := 0
  const BOB: Member := 1
  const CID: Member := 2

  const MON: Date := 7
  const TUE: Date := 8
  const WED: Date := 9

  ghost function Crew(): Team {
    Team([ANN, BOB, CID], d => false, r1 => 0)
  }

  ghost function Calls(): seq<Op> {
    [GenerateRange(MON, WED)]
    + [CreateLeave(1, ANN, TUE, TUE)] + [ChangeLeave(1)]
    + [CreateLeave(2, BOB, TUE, TUE)] + [ChangeLeave(2)]
    + [CreateLeave(3, CID, MON, WED)] + [ChangeLeave(3)]
    + [DeleteLeave(1)]
  }

  // ---------- the tables and leaves on the way ----------

  ghost function Originals(): Table {
    map[Orig(MON) := Row(0, ANN, false, None),
        Orig(TUE) := Row(1, BOB, false, None),
        Orig(WED) := Row(2, CID, false, None)]
  }

  ghost function WithTuesday(): Table {
    Originals()[Cov(TUE) := Row(3, CID, false, Some(1))]
  }

  ghost function WithBoth(): Table {
    WithTuesday()[Cov(WED) := Row(4, ANN, false, Some(2))]
  }

  ghost function Cursors(): seq<Anchor> {
    [Anchor(MON, 0), Anchor(TUE, 1), Anchor(WED, 2)]
  }

  ghost function AnnsLeave(): Leave { Leave(1, ANN, TUE, TUE, "pending") }
  ghost function BobsLeave(status: string): Leave { Leave(2, BOB, TUE, TUE, status) }
  ghost function CidsLeave(status: string): Leave { Leave(3, CID, MON, WED, status) }

  ghost function AnnsView(): LeaveView { LeaveView(1, ANN, TUE, TUE, true, true) }
  ghost function BobsView(): LeaveView { LeaveView(2, BOB, TUE, TUE, true, true) }
  ghost function CidsView(): LeaveView { LeaveView(3, CID, MON, WED, true, true) }

  lemma StatusesAreActive()
    ensures IsLeaveActive("pending") && IsLeaveActive(STATUS_ASSIGNED)
  {
    AssignedIsActive();
    Text.TrimSpaceKeeps("pending");
    assert Text.ToLower("pending") == "pending";
  }

  lemma ViewsOfLeaves()
    ensures View(AnnsLeave()) == AnnsView()
    ensures View(BobsLeave("pending")) == View(BobsLeave(STATUS_ASSIGNED)) == BobsView()
    ensures View(CidsLeave("pending")) == View(CidsLeave(STATUS_ASSIGNED)) == CidsView()
  {
    StatusesAreActive();
  }

  // ---------- generating the three days ----------

  lemma WorkingDaysOfTheWeek()
    ensures |WorkingDays(Crew().holiday, MON, TUE)| == 1 && |WorkingDays(Crew().holiday, MON, WED)| == 2
    ensures |WorkingDays(Crew().holiday, TUE, WED)| == 1
  {
    assert WorkingDays(Crew().holiday, MON, TUE) == {MON};
    assert WorkingDays(Crew().holiday, TUE, WED) == {TUE};
    assert WorkingDays(Crew().holiday, MON, WED) == {MON, TUE};
  }

  /** Nobody is on leave: a date gets its original and nothing else. */
  lemma QuietDate(team: Team, w: World, d: Date)
    requires |team.members| > 0
    requires w.leaves == [] && !ShouldSkipDate(team.holiday, d) && Orig(d) !in w.table
    ensures var i := OriginalSlot(team, w.r1, d);
      ProcessDate(team, w, d) ==
      (w.(table := w.table[Orig(d) := Row(w.nextId, team.members[i], false, None)],
          nextId := w.nextId + 1, r1 := w.r1 + [Anchor(d, i)]), true)
  {
    assert Away(EnvOf(team, w), d) == {};
  }

  lemma SlotsOfTheWeek()
    ensures OriginalSlot(Crew(), [], MON) == 0
    ensures OriginalSlot(Crew(), [Anchor(MON, 0)], TUE) == 1
    ensures OriginalSlot(Crew(), [Anchor(MON, 0), Anchor(TUE, 1)], WED) == 2
  {
    WorkingDaysOfTheWeek();
  }

  lemma ThreeDays()
    ensures Generate(Crew(), EMPTY, MON, WED)
         == (World(Originals(), 3, [], Cursors(), None), true)
  {
    var w0 := EMPTY;
    var w1 := World(map[][Orig(MON) := Row(0, ANN, false, None)], 1, [], [Anchor(MON, 0)], None);
    var w2 := World(w1.table[Orig(TUE) := Row(1, BOB, false, None)], 2, [], [Anchor(MON, 0), Anchor(TUE, 1)], None);
    var w3 := World(w2.table[Orig(WED) := Row(2, CID, false, None)], 3, [], Cursors(), None);
    SlotsOfTheWeek();
    QuietDate(Crew(), w0, MON);
    assert w0.r1 + [Anchor(MON, 0)] == w1.r1;
    QuietDate(Crew(), w1, TUE);
    assert w1.r1 + [Anchor(TUE, 1)] == w2.r1;
    QuietDate(Crew(), w2, WED);
    assert w2.r1 + [Anchor(WED, 2)] == w3.r1;
    assert w3.table == Originals();
    OneMoreDate(w0, w0, w1, MON, MON);
    OneMoreDate(w0, w1, w2, MON, TUE);
    OneMoreDate(w0, w2, w3, MON, WED);
  }

  lemma OneMoreDate(w: World, w1: World, w2: World, lo: Date, hi: Date)
    requires lo <= hi && Generate(Crew(), w, lo, hi - 1) == (w1, true) && ProcessDate(Crew(), w1, hi) == (w2, true)
    ensures Generate(Crew(), w, lo, hi) == (w2, true)
  {
  }

  // ---------- the leave calls ----------

  ghost function EnvWith(leaves: seq<LeaveView>): Env {
    Env([ANN, BOB, CID], Crew().holiday, leaves)
  }

  ghost function State(t: Table, next: RowId, leaves: seq<Leave>, row: Option<CoverRow>): World {
    World(t, next, leaves, Cursors(), row)
  }

  lemma OneDay(l: LeaveView)
    requires l.active && l.start == l.end
    ensures LeaveEvents(l) == [Event.Sweep(l.start, l.end)] + [Assign(l.id, l.member, l.start)]
  {
    assert DayEvents(l.id, l.member, l.start, l.start - 1) == [];
    assert DayEvents(l.id, l.member, l.start, l.end) == [] + [Assign(l.id, l.member, l.start)];
  }

  ghost function CidsEvents(): seq<Event> {
    [Event.Sweep(MON, WED)] + [Assign(3, CID, MON)] + [Assign(3, CID, TUE)] + [Assign(3, CID, WED)]
  }

  lemma ThreeDaysOff()
    ensures LeaveEvents(CidsView()) == CidsEvents()
  {
    assert DayEvents(3, CID, MON, MON - 1) == [];
    assert DayEvents(3, CID, MON, MON) == [] + [Assign(3, CID, MON)];
    assert DayEvents(3, CID, MON, TUE) == [Assign(3, CID, MON)] + [Assign(3, CID, TUE)];
    assert DayEvents(3, CID, MON, WED) == [Assign(3, CID, MON)] + [Assign(3, CID, TUE)] + [Assign(3, CID, WED)];
  }

  lemma RunOneDay(env: Env, rotor: Rotor, p: Progress, a: Event, b: Event)
    ensures Run(env, rotor, p, [a] + [b]) == Step(env, rotor, Step(env, rotor, p, a), b)
  {
    RunSnoc(env, rotor, p, [], a);
    assert [] + [a] == [a];
    RunSnoc(env, rotor, p, [a], b);
  }

  lemma RunThreeDays(env: Env, rotor: Rotor, p: Progress, a: Event, b: Event, c: Event, d: Event)
    ensures Run(env, rotor, p, [a] + [b] + [c] + [d]) ==
      Step(env, rotor, Step(env, rotor, Step(env, rotor, Step(env, rotor, p, a), b), c), d)
  {
    RunOneDay(env, rotor, p, a, b);
    RunSnoc(env, rotor, p, [a] + [b], c);
    RunSnoc(env, rotor, p, [a] + [b] + [c], d);
  }

  lemma CleanSweep(env: Env, t: Table, lo: Date, hi: Date)
    requires forall d :: lo <= d <= hi ==> !Stale(env, t, d)
    ensures Reconciled(env, t, lo, hi) == t
  {
  }

  /** Ann's leave touches no row of hers. */
  lemma AnnsDay()
    ensures var p := Progress(Originals(), 3, []);
      Run(EnvWith([AnnsView()]), Rotor(AdHoc, None), p, LeaveEvents(AnnsView())) == p
  {
    var (env, p) := (EnvWith([AnnsView()]), Progress(Originals(), 3, []));
    OneDay(AnnsView());
    RunOneDay(env, Rotor(AdHoc, None), p, Event.Sweep(TUE, TUE), Assign(1, ANN, TUE));
    CleanSweep(env, Originals(), TUE, TUE);
    assert OriginalFor(Originals(), TUE, ANN) == None;
  }

  lemma AnnsCall()
    ensures var w := State(Originals(), 3, [AnnsLeave()], None); LeaveChange(Crew(), w, 1).0 == w
  {
    var w := State(Originals(), 3, [AnnsLeave()], None);
    ViewsOfLeaves();
    assert Views(w.leaves) == [AnnsView()];
    AnnsDay();
  }

  ghost function TuesdayCovered(): World {
    State(WithTuesday(), 4, [AnnsLeave(), BobsLeave(STATUS_ASSIGNED)], Some(CoverRow(Anchor(TUE, 2), None)))
  }

  ghost function AnnAndBob(): Env {
    EnvWith([AnnsView(), BobsView()])
  }

  lemma TuesdayWithoutAnnAndBob()
    ensures Away(AnnAndBob(), TUE) == {ANN, BOB} && Pick(AnnAndBob(), None, TUE) == Some(2)
  {
    var env := AnnAndBob();
    assert env.leaves[0] == AnnsView() && env.leaves[1] == BobsView();
    FirstFreeIsReturned(env.members, {ANN, BOB}, 0, 0, 2);
  }

  /** Cid is the only one left for Bob's Tuesday. */
  lemma BobsDay()
    ensures Step(AnnAndBob(), Rotor(AdHoc, None), Progress(Originals(), 3, []), Assign(2, BOB, TUE))
         == Progress(WithTuesday(), 4, [Commit(2, TUE, 2)])
  {
    TuesdayWithoutAnnAndBob();
    var p := Progress(Originals(), 3, []);
    assert OriginalFor(Originals(), TUE, BOB) == Some(1);
    StepCommits(AnnAndBob(), Rotor(AdHoc, None), p, 2, BOB, TUE, 1, 2);
    assert p.log + [Commit(2, TUE, 2)] == [Commit(2, TUE, 2)];
    assert WithCover(Originals(), 3, TUE, CID, 1) == WithTuesday();
  }

  lemma MarkOne(leaves: seq<Leave>, c: Commit)
    ensures MarkAll(leaves, [c]) == MarkAssigned(leaves, c.leave)
  {
    assert [c][..0] == [];
  }

  lemma BobsRun()
    ensures Run(AnnAndBob(), Rotor(AdHoc, None), Progress(Originals(), 3, []), LeaveEvents(BobsView()))
         == Progress(WithTuesday(), 4, [Commit(2, TUE, 2)])
  {
    var p := Progress(Originals(), 3, []);
    OneDay(BobsView());
    RunOneDay(AnnAndBob(), Rotor(AdHoc, None), p, Event.Sweep(TUE, TUE), Assign(2, BOB, TUE));
    CleanSweep(AnnAndBob(), Originals(), TUE, TUE);
    BobsDay();
  }

  lemma BobsCall()
    ensures LeaveChange(Crew(), State(Originals(), 3, [AnnsLeave(), BobsLeave("pending")], None), 2).0
         == TuesdayCovered()
  {
    var w := State(Originals(), 3, [AnnsLeave(), BobsLeave("pending")], None);
    ViewsOfLeaves();
    assert Views(w.leaves) == [AnnsView(), BobsView()];
    BobsRun();
    BobsLeaveIsFound();
    MarkOne(w.leaves, Commit(2, TUE, 2));
  }

  lemma BobsLeaveIsFound()
    ensures var leaves := [AnnsLeave(), BobsLeave("pending")];
      && FindLeave(leaves, 2) == Some(BobsLeave("pending"))
      && MarkAssigned(leaves, 2) == [AnnsLeave(), BobsLeave(STATUS_ASSIGNED)]
  {
    assert [AnnsLeave(), BobsLeave("pending")][1..] == [BobsLeave("pending")];
  }

  ghost function Everybody(): Env {
    EnvWith([AnnsView(), BobsView(), CidsView()])
  }

  lemma AwayOfEverybody()
    ensures Away(Everybody(), MON) == {CID} && Away(Everybody(), WED) == {CID}
    ensures Away(Everybody(), TUE) == {ANN, BOB, CID}
  {
    var ls := Everybody().leaves;
    assert ls[0] == AnnsView() && ls[1] == BobsView() && ls[2] == CidsView();
  }

  /** Nobody is left for the Tuesday; Ann comes next for the Wednesday. */
  lemma PicksWithEverybody()
    ensures Pick(Everybody(), Some(Anchor(TUE, 2)), TUE) == None
    ensures Pick(Everybody(), Some(Anchor(TUE, 2)), WED) == Some(0)
  {
    var env := Everybody();
    AwayOfEverybody();
    WorkingDaysOfTheWeek();
    FirstAvailableFailsIff(env.members, Away(env, TUE), Candidate(env, Some(Anchor(TUE, 2)), TUE));
    assert Candidate(env, Some(Anchor(TUE, 2)), WED) == 0;
    FirstFreeIsReturned(env.members, {CID}, 0, 0, 0);
  }

  ghost function CidsRotor(): Rotor {
    Rotor(AdHoc, Some(Anchor(TUE, 2)))
  }

  lemma CidsMondayAndTuesday()
    ensures var p := Progress(WithTuesday(), 4, []);
      && Step(Everybody(), CidsRotor(), p, Event.Sweep(MON, WED)) == p
      && Step(Everybody(), CidsRotor(), p, Assign(3, CID, MON)) == p
      && Step(Everybody(), CidsRotor(), p, Assign(3, CID, TUE)) == p
  {
    AwayOfEverybody();
    PicksWithEverybody();
    CleanSweep(Everybody(), WithTuesday(), MON, WED);
    assert OriginalFor(WithTuesday(), MON, CID) == None;
  }

  lemma CidsWednesday()
    ensures Step(Everybody(), CidsRotor(), Progress(WithTuesday(), 4, []), Assign(3, CID, WED))
         == Progress(WithBoth(), 5, [Commit(3, WED, 0)])
  {
    var p := Progress(WithTuesday(), 4, []);
    PicksWithEverybody();
    assert OriginalFor(WithTuesday(), WED, CID) == Some(2);
    StepCommits(Everybody(), CidsRotor(), p, 3, CID, WED, 2, 0);
    assert p.log + [Commit(3, WED, 0)] == [Commit(3, WED, 0)];
    assert WithCover(WithTuesday(), 4, WED, ANN, 2) == WithBoth();
  }

  lemma CidsDays()
    ensures Run(Everybody(), CidsRotor(), Progress(WithTuesday(), 4, []), CidsEvents())
         == Progress(WithBoth(), 5, [Commit(3, WED, 0)])
  {
    var p := Progress(WithTuesday(), 4, []);
    RunThreeDays(Everybody(), CidsRotor(), p,
                 Event.Sweep(MON, WED), Assign(3, CID, MON), Assign(3, CID, TUE), Assign(3, CID, WED));
    CidsMondayAndTuesday();
    CidsWednesday();
  }

  ghost function BothCovered(leaves: seq<Leave>): World {
    State(WithBoth(), 5, leaves, Some(CoverRow(Anchor(WED, 0), None)))
  }

  lemma CidsCall()
    ensures var leaves := [AnnsLeave(), BobsLeave(STATUS_ASSIGNED)];
      LeaveChange(Crew(), TuesdayCovered().(leaves := leaves + [CidsLeave("pending")]), 3).0
      == BothCovered(leaves + [CidsLeave(STATUS_ASSIGNED)])
  {
    var w := TuesdayCovered().(leaves := [AnnsLeave(), BobsLeave(STATUS_ASSIGNED)] + [CidsLeave("pending")]);
    ViewsOfLeaves();
    assert Views(w.leaves) == [AnnsView(), BobsView(), CidsView()];
    ThreeDaysOff();
    CidsDays();
    CidsLeaveIsFound();
    MarkOne(w.leaves, Commit(3, WED, 0));
  }

  lemma CidsLeaveIsFound()
    ensures var leaves := [AnnsLeave(), BobsLeave(STATUS_ASSIGNED)] + [CidsLeave("pending")];
      && FindLeave(leaves, 3) == Some(CidsLeave("pending"))
      && MarkAssigned(leaves, 3) == [AnnsLeave(), BobsLeave(STATUS_ASSIGNED)] + [CidsLeave(STATUS_ASSIGNED)]
  {
    var leaves := [AnnsLeave(), BobsLeave(STATUS_ASSIGNED)] + [CidsLeave("pending")];
    assert leaves[1..][1..] == [CidsLeave("pending")];
    assert FindLeave(leaves[1..], 3) == Some(CidsLeave("pending"));
  }

  /** The state the calls lead to. */
  ghost function Reached(): World {
    BothCovered([BobsLeave(STATUS_ASSIGNED), CidsLeave(STATUS_ASSIGNED)])
  }

  ghost function BobAndCid(): Env {
    EnvWith([BobsView(), CidsView()])
  }

  lemma AwayOfBobAndCid()
    ensures Away(BobAndCid(), TUE) == {BOB, CID} && Away(BobAndCid(), WED) == {CID}
  {
    var ls := BobAndCid().leaves;
    assert ls[0] == BobsView() && ls[1] == CidsView();
  }

  lemma ReachedEnv()
    ensures EnvOf(Crew(), Reached()) == BobAndCid()
  {
    ViewsOfLeaves();
    assert Views(Reached().leaves) == [BobsView(), CidsView()];
  }

  lemma TuesdayIsBusy()
    ensures TUE in BusyDates(WithBoth(), TUE, TUE)
  {
    assert Orig(TUE) in WithBoth();
  }

  /** Bob is still away on the Tuesday, so sweeping and filling it changes no row. */
  lemma TuesdayStays()
    ensures SweepCovers(Crew(), Reached(), TUE, TUE) == Reached()
    ensures MissingDays(Crew(), Reached(), TUE, TUE).world == Reached()
  {
    ReachedEnv();
    AwayOfBobAndCid();
    CleanSweep(BobAndCid(), WithBoth(), TUE, TUE);
    TuesdayIsBusy();
    NothingToFill(Crew(), Reached(), TUE, TUE, BusyDates(WithBoth(), TUE, TUE));
  }

  /** So deleting Ann's leave only takes the leave away. */
  lemma AnnIsBack()
    ensures var leaves := [AnnsLeave(), BobsLeave(STATUS_ASSIGNED)] + [CidsLeave(STATUS_ASSIGNED)];
      LeaveDelete(Crew(), BothCovered(leaves), 1).0 == Reached()
  {
    var leaves := [AnnsLeave(), BobsLeave(STATUS_ASSIGNED)] + [CidsLeave(STATUS_ASSIGNED)];
    var rest := [BobsLeave(STATUS_ASSIGNED), CidsLeave(STATUS_ASSIGNED)];
    assert leaves == [AnnsLeave()] + rest;
    NothingWithout(rest, 1);
    assert Without(leaves, 1) == rest;
    TuesdayStays();
  }

  lemma {:induction false} NothingWithout(leaves: seq<Leave>, id: LeaveId)
    requires forall i :: 0 <= i < |leaves| ==> leaves[i].id != id
    ensures Without(leaves, id) == leaves
  {
    if leaves != [] { NothingWithout(leaves[1..], id); }
  }

  // ---------- the history ----------

  lemma ExecSnoc(ops: seq<Op>, op: Op, w: World)
    requires Exec(Crew(), ops) == w
    ensures Exec(Crew(), ops + [op]) == Apply(Crew(), w, op)
  {
    assert (ops + [op])[..|ops|] == ops;
  }

  lemma ExecCreate(ops: seq<Op>, w: World, l: Leave)
    requires Exec(Crew(), ops) == w && FindLeave(w.leaves, l.id).None? && l.status == "pending" && l.start <= l.end
    ensures Exec(Crew(), ops + [CreateLeave(l.id, l.member, l.start, l.end)]) == w.(leaves := w.leaves + [l])
  {
    ExecSnoc(ops, CreateLeave(l.id, l.member, l.start, l.end), w);
  }

  lemma ExecChange(ops: seq<Op>, w: World, id: LeaveId, w': World)
    requires Exec(Crew(), ops) == w && LeaveChange(Crew(), w, id).0 == w'
    ensures Exec(Crew(), ops + [ChangeLeave(id)]) == w'
  {
    ExecSnoc(ops, ChangeLeave(id), w);
  }

  lemma ExecDelete(ops: seq<Op>, w: World, id: LeaveId, w': World)
    requires Exec(Crew(), ops) == w && LeaveDelete(Crew(), w, id).0 == w'
    ensures Exec(Crew(), ops + [DeleteLeave(id)]) == w'
  {
    ExecSnoc(ops, DeleteLeave(id), w);
  }

  lemma GenerationReaches()
    ensures Exec(Crew(), [GenerateRange(MON, WED)]) == State(Originals(), 3, [], None)
  {
    assert [] + [GenerateRange(MON, WED)] == [GenerateRange(MON, WED)];
    ThreeDays();
    ExecSnoc([], GenerateRange(MON, WED), EMPTY);
  }

  ghost function FirstCalls(): seq<Op> {
    [GenerateRange(MON, WED)] + [CreateLeave(1, ANN, TUE, TUE)] + [ChangeLeave(1)]
  }

  lemma AnnsCallsReach()
    ensures Exec(Crew(), FirstCalls()) == State(Originals(), 3, [AnnsLeave()], None)
  {
    GenerationReaches();
    var (w0, w1) := (State(Originals(), 3, [], None), State(Originals(), 3, [AnnsLeave()], None));
    ExecCreate([GenerateRange(MON, WED)], w0, AnnsLeave());
    assert w0.leaves + [AnnsLeave()] == w1.leaves;
    AnnsCall();
    ExecChange([GenerateRange(MON, WED)] + [CreateLeave(1, ANN, TUE, TUE)], w1, 1, w1);
  }

  lemma BobsCallsReach(calls: seq<Op>)
    requires Exec(Crew(), calls) == State(Originals(), 3, [AnnsLeave()], None)
    ensures Exec(Crew(), calls + [CreateLeave(2, BOB, TUE, TUE)] + [ChangeLeave(2)]) == TuesdayCovered()
  {
    var w1 := State(Originals(), 3, [AnnsLeave()], None);
    var w2 := State(Originals(), 3, [AnnsLeave(), BobsLeave("pending")], None);
    assert w1.leaves + [BobsLeave("pending")] == w2.leaves;
    NotFound(w1.leaves, 2);
    ExecCreate(calls, w1, BobsLeave("pending"));
    BobsCall();
    ExecChange(calls + [CreateLeave(2, BOB, TUE, TUE)], w2, 2, TuesdayCovered());
  }

  lemma {:induction false} NotFound(leaves: seq<Leave>, id: LeaveId)
    requires forall i :: 0 <= i < |leaves| ==> leaves[i].id != id
    ensures FindLeave(leaves, id).None?
  {
    if leaves != [] { NotFound(leaves[1..], id); }
  }

  lemma CidsCallsReach(calls: seq<Op>)
    requires Exec(Crew(), calls) == TuesdayCovered()
    ensures Exec(Crew(), calls + [CreateLeave(3, CID, MON, WED)] + [ChangeLeave(3)])
         == BothCovered([AnnsLeave(), BobsLeave(STATUS_ASSIGNED)] + [CidsLeave(STATUS_ASSIGNED)])
  {
    var leaves := [AnnsLeave(), BobsLeave(STATUS_ASSIGNED)];
    NotFound(leaves, 3);
    ExecCreate(calls, TuesdayCovered(), CidsLeave("pending"));
    CidsCall();
    ExecChange(calls + [CreateLeave(3, CID, MON, WED)], TuesdayCovered().(leaves := leaves + [CidsLeave("pending")]), 3,
               BothCovered(leaves + [CidsLeave(STATUS_ASSIGNED)]));
  }

  lemma CallsReach()
    ensures Exec(Crew(), Calls()) == Reached()
  {
    AnnsCallsReach();
    BobsCallsReach(FirstCalls());
    var calls := FirstCalls() + [CreateLeave(2, BOB, TUE, TUE)] + [ChangeLeave(2)];
    CidsCallsReach(calls);
    AnnIsBack();
    ExecDelete(calls + [CreateLeave(3, CID, MON, WED)] + [ChangeLeave(3)],
               BothCovered([AnnsLeave(), BobsLeave(STATUS_ASSIGNED)] + [CidsLeave(STATUS_ASSIGNED)]), 1, Reached());
  }

  // ---------- two passes ----------

  ghost function PassEvents(): seq<Event> {
    CidsEvents() + [Event.Sweep(TUE, TUE)] + [Assign(2, BOB, TUE)]
  }

  lemma LaterComesSecond(b: Leave, c: Leave)
    requires b.start > c.start
    ensures SortedByStart([b, c]) == [c, b]
  {
    assert [b, c][..1] == [b] && [b][..0] == [];
    assert SortedByStart([b]) == InsertByStart([], b) == [b];
    assert InsertByStart([], c) == [c];
    assert SortedByStart([b, c]) == InsertByStart([b], c) == [c] + [b];
  }

  /** Cid's leave starts first, so it is processed first. */
  lemma ReachedOrder()
    ensures Order(Reached()) == [CidsView(), BobsView()]
  {
    LaterComesSecond(BobsLeave(STATUS_ASSIGNED), CidsLeave(STATUS_ASSIGNED));
    ViewsOfLeaves();
  }

  lemma EventsOfThePass()
    ensures AllEvents([CidsView(), BobsView()]) == PassEvents()
  {
    SingleLeaveEvents(CidsView());
    assert [CidsView(), BobsView()][..1] == [CidsView()];
    ThreeDaysOff();
    OneDay(BobsView());
    assert CidsEvents() + ([Event.Sweep(TUE, TUE)] + [Assign(2, BOB, TUE)]) == PassEvents();
  }

  /** Cid's Tuesday is stranded; Cid's Wednesday and Bob's Tuesday are hit whatever the covers are. */
  lemma DaysOfThePass()
    ensures var (env, t) := (BobAndCid(), WithBoth());
      && Available(env, TUE) && Available(env, WED)
      && !StaticHit(env, t, CID, MON) && !Stranded(env, t, CID, MON)
      && Stranded(env, t, CID, TUE) && !StaticHit(env, t, CID, TUE)
      && StaticHit(env, t, CID, WED) && StaticHit(env, t, BOB, TUE)
  {
    AwayOfBobAndCid();
    assert BobAndCid().members[0] == ANN;
  }

  lemma PicksOfThePass()
    ensures Pick(BobAndCid(), None, TUE) == Some(0)
    ensures Pick(BobAndCid(), Some(Anchor(TUE, 0)), WED) == Some(1) && Pick(BobAndCid(), None, WED) == Some(0)
    ensures Pick(BobAndCid(), Some(Anchor(WED, 1)), TUE) == Some(0)
    ensures Pick(BobAndCid(), Some(Anchor(WED, 0)), TUE) == Some(0)
  {
    var env := BobAndCid();
    AwayOfBobAndCid();
    WorkingDaysOfTheWeek();
    FirstFreeIsReturned(env.members, {BOB, CID}, 0, 0, 0);
    FirstFreeIsReturned(env.members, {BOB, CID}, 2, 0, 1);
    FirstFreeIsReturned(env.members, {CID}, 1, 0, 0);
    FirstFreeIsReturned(env.members, {CID}, 0, 0, 0);
  }

  lemma LedgersUpToTuesday()
    ensures var evs := [Event.Sweep(MON, WED)] + [Assign(3, CID, MON)] + [Assign(3, CID, TUE)];
      && Ledger(BobAndCid(), FRESH, WithBoth(), true, evs) == [Commit(3, TUE, 0)]
      && Ledger(BobAndCid(), FRESH, WithBoth(), false, evs) == []
  {
    var (env, t) := (BobAndCid(), WithBoth());
    DaysOfThePass();
    PicksOfThePass();
    forall strands: bool ensures Ledger(env, FRESH, t, strands, [Event.Sweep(MON, WED)] + [Assign(3, CID, MON)]) == [] {
      assert [] + [Event.Sweep(MON, WED)] == [Event.Sweep(MON, WED)];
      LedgerSnoc(env, FRESH, t, strands, [], Event.Sweep(MON, WED));
      LedgerSnoc(env, FRESH, t, strands, [Event.Sweep(MON, WED)], Assign(3, CID, MON));
    }
    LedgerSnoc(env, FRESH, t, true, [Event.Sweep(MON, WED)] + [Assign(3, CID, MON)], Assign(3, CID, TUE));
    LedgerSnoc(env, FRESH, t, false, [Event.Sweep(MON, WED)] + [Assign(3, CID, MON)], Assign(3, CID, TUE));
  }

  /** The first pass commits the Tuesday before the Wednesday; without the unswapped covers it would not. */
  lemma LedgersOfThePass()
    ensures Ledger(BobAndCid(), FRESH, WithBoth(), true, PassEvents())
         == [Commit(3, TUE, 0), Commit(3, WED, 1), Commit(2, TUE, 0)]
    ensures Ledger(BobAndCid(), FRESH, WithBoth(), false, PassEvents()) == [Commit(3, WED, 0), Commit(2, TUE, 0)]
  {
    LedgersUpToTuesday();
    PicksOfThePass();
    RestOfTheLedger(true, [Commit(3, TUE, 0)], 1);
    RestOfTheLedger(false, [], 0);
  }

  lemma RestOfTheLedger(strands: bool, tuesday: seq<Commit>, k: nat)
    requires Ledger(BobAndCid(), FRESH, WithBoth(), strands,
                    [Event.Sweep(MON, WED)] + [Assign(3, CID, MON)] + [Assign(3, CID, TUE)]) == tuesday
    requires Pick(BobAndCid(), Current(FRESH, tuesday), WED) == Some(k)
    requires Pick(BobAndCid(), Some(Anchor(WED, k)), TUE) == Some(0)
    ensures Ledger(BobAndCid(), FRESH, WithBoth(), strands, PassEvents())
         == tuesday + [Commit(3, WED, k)] + [Commit(2, TUE, 0)]
  {
    var (env, t) := (BobAndCid(), WithBoth());
    DaysOfThePass();
    LedgerSnoc(env, FRESH, t, strands, [Event.Sweep(MON, WED)] + [Assign(3, CID, MON)] + [Assign(3, CID, TUE)],
               Assign(3, CID, WED));
    LedgerSnoc(env, FRESH, t, strands, CidsEvents(), Event.Sweep(TUE, TUE));
    LedgerSnoc(env, FRESH, t, strands, CidsEvents() + [Event.Sweep(TUE, TUE)], Assign(2, BOB, TUE));
  }

  lemma PickedOwner(env: Env, t: Table, next: RowId, evs: seq<Event>, p: Progress, d: Date, k: nat)
    requires RunOk(env, t, next, evs, p) && LastPick(p.log, d) == Some(k)
    requires Cov(d) in t ==> !t[Cov(d)].swapped
    ensures k < |env.members| && Cov(d) in p.table
    ensures !p.table[Cov(d)].swapped && p.table[Cov(d)].member == env.members[k]
  {
    assert CoverOk(env, t, next, Swept(evs, d), LastPick(p.log, d), At(p.table, Cov(d)), d);
  }

  lemma PassStarts()
    ensures Shaped(WithBoth()) && IdsBelow(WithBoth(), 5) && Prepared(BobAndCid(), PassEvents())
    ensures AllEvents(Order(Reached())) == PassEvents()
  {
    EveryRunIsSound(Crew(), Calls());
    CallsReach();
    ReachedEnv();
    PassIsReady(Crew(), Reached());
    ReachedOrder();
    EventsOfThePass();
  }

  /** What a run with the given commits makes of the Wednesday. */
  lemma WednesdayAfter(t: Table, next: RowId, log: seq<Commit>, k: nat)
    requires Shaped(t) && IdsBelow(t, next) && Cov(WED) in t && !t[Cov(WED)].swapped
    requires After(BobAndCid(), FRESH, t, next, PassEvents()).log == log && LastPick(log, WED) == Some(k)
    ensures var p := After(BobAndCid(), FRESH, t, next, PassEvents());
      && Shaped(p.table) && IdsBelow(p.table, p.nextId) && k < 3
      && Cov(WED) in p.table && !p.table[Cov(WED)].swapped && p.table[Cov(WED)].member == [ANN, BOB, CID][k]
  {
    PassStarts();
    RunFollowsLedger(BobAndCid(), FRESH, t, next, PassEvents());
    PickedOwner(BobAndCid(), t, next, PassEvents(), After(BobAndCid(), FRESH, t, next, PassEvents()), WED, k);
  }

  lemma LastPicksOfThePass()
    ensures LastPick([Commit(3, TUE, 0), Commit(3, WED, 1), Commit(2, TUE, 0)], WED) == Some(1)
    ensures LastPick([Commit(3, WED, 0), Commit(2, TUE, 0)], WED) == Some(0)
  {
    LastPickSnoc([Commit(3, TUE, 0), Commit(3, WED, 1)], Commit(2, TUE, 0), WED);
    LastPickSnoc([Commit(3, WED, 0)], Commit(2, TUE, 0), WED);
  }

  lemma WednesdayMoves()
    ensures var p := Pass(BobAndCid(), Order(Reached()), WithBoth(), 5);
      var q := Pass(BobAndCid(), Order(Reached()), p.table, p.nextId);
      && Cov(WED) in p.table && p.table[Cov(WED)].member == BOB
      && Cov(WED) in q.table && q.table[Cov(WED)].member == ANN
      && p.log != q.log
  {
    PassStarts();
    LedgersOfThePass();
    LastPicksOfThePass();
    RunFollowsLedger(BobAndCid(), FRESH, WithBoth(), 5, PassEvents());
    SecondRunIsPlan(BobAndCid(), FRESH, WithBoth(), 5, PassEvents());
    var p := After(BobAndCid(), FRESH, WithBoth(), 5, PassEvents());
    WednesdayAfter(WithBoth(), 5, p.log, 1);
    WednesdayAfter(p.table, p.nextId, [Commit(3, WED, 0), Commit(2, TUE, 0)], 0);
  }

  /** The unconditional idempotency promise is false of a state that ordinary calls reach from an empty
      database: the second pass moves the Wednesday from Bob to Ann. Both conditions for a good start fail. */
  lemma StrandedCoverBreaksIdempotency()
    ensures var w := Exec(Crew(), Calls());
      var w1 := ReassignAll(Crew(), w);
      var w2 := ReassignAll(Crew(), w1);
      && Sound(Crew(), w)
      && Cov(WED) in w1.table && w1.table[Cov(WED)].member == BOB
      && Cov(WED) in w2.table && w2.table[Cov(WED)].member == ANN
      && w2.table != w1.table
      && !Undisturbed(EnvOf(Crew(), w), w.table, AllEvents(Order(w)))
      && !PlanAgrees(EnvOf(Crew(), w), FRESH, w.table, AllEvents(Order(w)))
  {
    var w := Reached();
    EveryRunIsSound(Crew(), Calls());
    CallsReach();
    ReachedEnv();
    WednesdayMoves();
    ReassignKeepsForm(Crew(), w);
    ReassignRepeatsIff(Crew(), w);
    ReassignKeepsRowsIff(Crew(), w);
  }
}
