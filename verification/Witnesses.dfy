/** Two short histories, each of which shows what a condition of a theorem rules out.

A team of three generates four days, so that the first member's second turn is the fourth day.
 */
module Witnesses {
  import opened Wrappers
  import opened Rotation
  import opened Roster
  import opened CoverRuns
  import opened Reassign
  import opened Schedule
  import opened Histories
  import opened Recount
  import opened Runs
  import opened Unsettled
  import Joint
  import HatSwaps

  const DAN: Member := 3

  const THU: Date := 10
  const FRI: Date := 11

  ghost function FourDays(): Table {
    Originals()[Orig(THU) := Row(3, ANN, false, None)]
  }

  ghost function FourCursors(): seq<Anchor> {
    Cursors() + [Anchor(THU, 0)]
  }

  lemma WorkingDaysUpToFriday()
    ensures |WorkingDays(Crew().holiday, MON, THU)| == 3
    ensures |WorkingDays(Crew().holiday, MON, FRI)| == 4 && |WorkingDays(Crew().holiday, TUE, FRI)| == 3
    ensures |WorkingDays(Crew().holiday, WED, FRI)| == 2 && |WorkingDays(Crew().holiday, THU, FRI)| == 1
  {
    assert WorkingDays(Crew().holiday, MON, THU) == {MON, TUE, WED};
    assert WorkingDays(Crew().holiday, MON, FRI) == {MON, TUE, WED, THU};
    assert WorkingDays(Crew().holiday, TUE, FRI) == {TUE, WED, THU};
    assert WorkingDays(Crew().holiday, WED, FRI) == {WED, THU};
    assert WorkingDays(Crew().holiday, THU, FRI) == {THU};
  }

  lemma ThursdaySlot()
    ensures OriginalSlot(Crew(), Cursors(), THU) == 0
  {
    WorkingDaysUpToFriday();
  }

  lemma ThursdayIsGenerated()
    ensures ProcessDate(Crew(), World(Originals(), 3, [], Cursors(), None), THU)
         == (World(FourDays(), 4, [], FourCursors(), None), true)
  {
    ThursdaySlot();
    QuietDate(Crew(), World(Originals(), 3, [], Cursors(), None), THU);
  }

  lemma FourDaysAreGenerated()
    ensures Generate(Crew(), EMPTY, MON, THU) == (World(FourDays(), 4, [], FourCursors(), None), true)
  {
    var w := World(Originals(), 3, [], Cursors(), None);
    ThreeDays();
    ThursdayIsGenerated();
    OneMoreDate(EMPTY, w, World(FourDays(), 4, [], FourCursors(), None), MON, THU);
  }

  // ---------- a team that grows ----------

  ghost function Grown(anyRow: seq<Anchor> -> nat): Team {
    Team([ANN, BOB, CID, DAN], Crew().holiday, anyRow)
  }

  lemma SlotsOfTheGrownTeam()
    ensures var holiday := Crew().holiday;
      && SlotFor(holiday, Anchor(MON, 0), FRI, 4) == 0 && SlotFor(holiday, Anchor(TUE, 1), FRI, 4) == 0
      && SlotFor(holiday, Anchor(WED, 2), FRI, 4) == 0 && SlotFor(holiday, Anchor(THU, 0), FRI, 4) == 1
  {
    WorkingDaysUpToFriday();
  }

  lemma FridaySlot(anyRow: seq<Anchor> -> nat)
    ensures OriginalSlot(Grown(anyRow), FourCursors(), FRI) == if anyRow(FourCursors()) % 4 == 3 then 1 else 0
  {
    SlotsOfTheGrownTeam();
    var i := anyRow(FourCursors()) % 4;
    assert ReadRow(Grown(anyRow), FourCursors()) == FourCursors()[i];
  }

  lemma FridayIsGenerated(anyRow: seq<Anchor> -> nat)
    ensures var t := Generate(Grown(anyRow), World(FourDays(), 4, [], FourCursors(), None), FRI, FRI).0.table;
      Orig(FRI) in t && t[Orig(FRI)].member == if anyRow(FourCursors()) % 4 == 3 then BOB else ANN
  {
    var w := World(FourDays(), 4, [], FourCursors(), None);
    FridaySlot(anyRow);
    QuietDate(Grown(anyRow), w, FRI);
    assert Generate(Grown(anyRow), w, FRI, FRI - 1) == (w, true);
  }

  /** Dan joins, and the Friday is generated. Only the row of the last write continues the rotation with Bob;
      each of the three older rows puts Ann on the Friday, although the Thursday was hers. */
  lemma TeamChangeLosesTheTurn(anyRow: seq<Anchor> -> nat)
    ensures var before := [Call(Crew(), GenerateRange(MON, THU))];
      var (w, w') := (ExecCalls(before), ExecCalls(before + [Call(Grown(anyRow), GenerateRange(FRI, FRI))]));
      && w.r1 == FourCursors() && w.table == FourDays()
      && Orig(FRI) in w'.table
      && w'.table[Orig(FRI)].member == (if anyRow(w.r1) % 4 == 3 then BOB else ANN)
  {
    var before := [Call(Crew(), GenerateRange(MON, THU))];
    var calls := before + [Call(Grown(anyRow), GenerateRange(FRI, FRI))];
    assert before[..0] == [] && calls[..1] == before;
    FourDaysAreGenerated();
    var w := World(FourDays(), 4, [], FourCursors(), None);
    assert ExecCalls(before) == w;
    FridayIsGenerated(anyRow);
  }

  // ---------- a full turn ----------

  /** An ad-hoc call for a leave of one day with an original, a free person and no cover to sweep. */
  lemma OneDayCall(w: World, l: Leave, original: RowId, k: nat)
    requires FindLeave(w.leaves, l.id) == Some(l) && IsLeaveActive(l.status) && l.start == l.end
    requires !ShouldSkipDate(Crew().holiday, l.start) && OriginalFor(w.table, l.start, l.member) == Some(original)
    requires !Stale(EnvOf(Crew(), w), w.table, l.start)
    requires k < 3 && Pick(EnvOf(Crew(), w), AdHocAnchor(w.coverRow), l.start) == Some(k)
    ensures LeaveChange(Crew(), w, l.id).0 == w.(
      table := WithCover(w.table, w.nextId, l.start, [ANN, BOB, CID][k], original),
      nextId := NextAfterCover(w.table, w.nextId, l.start),
      leaves := MarkAssigned(w.leaves, l.id), coverRow := WriteAdHoc(w.coverRow, Anchor(l.start, k)))
  {
    var (env, rotor) := (EnvOf(Crew(), w), Rotor(AdHoc, AdHocAnchor(w.coverRow)));
    var p := Progress(w.table, w.nextId, []);
    OneDay(View(l));
    RunOneDay(env, rotor, p, Event.Sweep(l.start, l.start), Assign(l.id, l.member, l.start));
    CleanSweep(env, w.table, l.start, l.start);
    StepCommits(env, rotor, p, l.id, l.member, l.start, original, k);
    assert [] + [Commit(l.id, l.start, k)] == [Commit(l.id, l.start, k)];
    MarkOne(w.leaves, Commit(l.id, l.start, k));
  }

  ghost function AnnsMonday(status: string): Leave { Leave(1, ANN, MON, MON, status) }
  ghost function AnnsThursday(status: string): Leave { Leave(2, ANN, THU, THU, status) }

  ghost function AnnsCalls(): seq<Op> {
    [GenerateRange(MON, THU)]
    + [CreateLeave(1, ANN, MON, MON)] + [ChangeLeave(1)]
    + [CreateLeave(2, ANN, THU, THU)] + [ChangeLeave(2)]
  }

  ghost function AnnsState(t: Table, next: RowId, leaves: seq<Leave>, row: Option<CoverRow>): World {
    World(t, next, leaves, FourCursors(), row)
  }

  ghost function MondayCovered(leaves: seq<Leave>): World {
    AnnsState(FourDays()[Cov(MON) := Row(4, BOB, false, Some(0))], 5, leaves, Some(CoverRow(Anchor(MON, 1), None)))
  }

  ghost function ThursdayCovered(): World {
    var w := MondayCovered([AnnsMonday(STATUS_ASSIGNED), AnnsThursday(STATUS_ASSIGNED)]);
    w.(table := w.table[Cov(THU) := Row(5, BOB, false, Some(3))], nextId := 6,
       coverRow := Some(CoverRow(Anchor(THU, 1), None)))
  }

  lemma AwayOnMonday(w: World)
    requires w.leaves == [AnnsMonday("pending")]
    ensures Away(EnvOf(Crew(), w), MON) == {ANN}
  {
    StatusesAreActive();
    assert Views(w.leaves)[0] == View(w.leaves[0]);
  }

  lemma AwayOnThursday(w: World)
    requires exists status ::
      IsLeaveActive(status) && w.leaves == [AnnsMonday(STATUS_ASSIGNED), AnnsThursday(status)]
    ensures Away(EnvOf(Crew(), w), THU) == {ANN} && Away(EnvOf(Crew(), w), MON) == {ANN}
  {
    StatusesAreActive();
    assert Views(w.leaves)[0] == View(w.leaves[0]) && Views(w.leaves)[1] == View(w.leaves[1]);
  }

  lemma MondayPick(w: World)
    requires w.leaves == [AnnsMonday("pending")]
    ensures Pick(EnvOf(Crew(), w), None, MON) == Some(1) && !Stale(EnvOf(Crew(), w), FourDays(), MON)
  {
    AwayOnMonday(w);
    FirstFreeIsReturned(Crew().members, {ANN}, 0, 0, 1);
  }

  lemma AnnsMondayCall()
    ensures var w := AnnsState(FourDays(), 4, [AnnsMonday("pending")], None);
      LeaveChange(Crew(), w, 1).0 == MondayCovered([AnnsMonday(STATUS_ASSIGNED)])
  {
    var w := AnnsState(FourDays(), 4, [AnnsMonday("pending")], None);
    StatusesAreActive();
    MondayPick(w);
    OneDayCall(w, AnnsMonday("pending"), 0, 1);
    assert MarkAssigned(w.leaves, 1) == [AnnsMonday(STATUS_ASSIGNED)];
  }

  lemma ThursdayPick(w: World)
    requires w.leaves == [AnnsMonday(STATUS_ASSIGNED), AnnsThursday("pending")]
    ensures Pick(EnvOf(Crew(), w), Some(Anchor(MON, 1)), THU) == Some(1)
    ensures ANN in Away(EnvOf(Crew(), w), THU)
  {
    StatusesAreActive();
    AwayOnThursday(w);
    WorkingDaysUpToFriday();
    assert Candidate(EnvOf(Crew(), w), Some(Anchor(MON, 1)), THU) == 1;
    FirstFreeIsReturned(Crew().members, {ANN}, 1, 0, 0);
  }

  lemma AnnsThursdayCall()
    ensures var w := MondayCovered([AnnsMonday(STATUS_ASSIGNED), AnnsThursday("pending")]);
      LeaveChange(Crew(), w, 2).0 == ThursdayCovered()
  {
    var w := MondayCovered([AnnsMonday(STATUS_ASSIGNED), AnnsThursday("pending")]);
    StatusesAreActive();
    ThursdayPick(w);
    assert w.leaves[1..] == [AnnsThursday("pending")];
    OneDayCall(w, AnnsThursday("pending"), 3, 1);
    assert MarkAssigned(w.leaves, 2) == [AnnsMonday(STATUS_ASSIGNED), AnnsThursday(STATUS_ASSIGNED)];
  }

  lemma MondayCallsLeadTo(calls: seq<Op>)
    requires calls == [GenerateRange(MON, THU)]
    ensures Exec(Crew(), calls + [CreateLeave(1, ANN, MON, MON)] + [ChangeLeave(1)])
         == MondayCovered([AnnsMonday(STATUS_ASSIGNED)])
  {
    var w := AnnsState(FourDays(), 4, [], None);
    assert [] + calls == calls;
    FourDaysAreGenerated();
    ExecSnoc([], GenerateRange(MON, THU), EMPTY);
    ExecCreate(calls, w, AnnsMonday("pending"));
    AnnsMondayCall();
    ExecChange(calls + [CreateLeave(1, ANN, MON, MON)], w.(leaves := [AnnsMonday("pending")]), 1,
               MondayCovered([AnnsMonday(STATUS_ASSIGNED)]));
  }

  lemma ThursdayCallsLeadTo(calls: seq<Op>)
    requires Exec(Crew(), calls) == MondayCovered([AnnsMonday(STATUS_ASSIGNED)])
    ensures Exec(Crew(), calls + [CreateLeave(2, ANN, THU, THU)] + [ChangeLeave(2)]) == ThursdayCovered()
  {
    var w := MondayCovered([AnnsMonday(STATUS_ASSIGNED)]);
    NotFound(w.leaves, 2);
    ExecCreate(calls, w, AnnsThursday("pending"));
    AnnsThursdayCall();
    ExecChange(calls + [CreateLeave(2, ANN, THU, THU)],
               w.(leaves := [AnnsMonday(STATUS_ASSIGNED), AnnsThursday("pending")]), 2, ThursdayCovered());
  }

  lemma AnnsCallsLeadTo()
    ensures Exec(Crew(), AnnsCalls()) == ThursdayCovered()
  {
    MondayCallsLeadTo([GenerateRange(MON, THU)]);
    ThursdayCallsLeadTo([GenerateRange(MON, THU)] + [CreateLeave(1, ANN, MON, MON)] + [ChangeLeave(1)]);
  }

  /** Ann is on leave on the Monday and on the Thursday, a full turn later. Both times Bob covers for her,
      two covers in a row, although Cid is free on both days. */
  lemma FullTurnGivesOnePersonBothCovers()
    ensures var w := Exec(Crew(), AnnsCalls());
      && Cov(MON) in w.table && w.table[Cov(MON)].member == BOB
      && Cov(THU) in w.table && w.table[Cov(THU)].member == BOB
      && CID !in Away(EnvOf(Crew(), w), MON) && CID !in Away(EnvOf(Crew(), w), THU)
  {
    AnnsCallsLeadTo();
    StatusesAreActive();
    AwayOnThursday(ThursdayCovered());
  }

  // ---------- a swap that a sweep takes away ----------

  ghost function BobsTuesday(status: string): Leave { Leave(1, BOB, TUE, TUE, status) }

  ghost function BobsCalls(): seq<Op> {
    [GenerateRange(MON, WED)] + [CreateLeave(1, BOB, TUE, TUE)] + [ChangeLeave(1)]
  }

  /** Ann covers the Tuesday, in row 3. */
  ghost function AnnCovers(): World {
    World(Originals()[Cov(TUE) := Row(3, ANN, false, Some(1))], 4, [BobsTuesday(STATUS_ASSIGNED)], Cursors(),
          Some(CoverRow(Anchor(TUE, 0), None)))
  }

  lemma TuesdayPick(w: World)
    requires w.leaves == [BobsTuesday("pending")]
    ensures Pick(EnvOf(Crew(), w), None, TUE) == Some(0) && !Stale(EnvOf(Crew(), w), Originals(), TUE)
  {
    StatusesAreActive();
    assert Views(w.leaves)[0] == View(w.leaves[0]);
    assert Away(EnvOf(Crew(), w), TUE) == {BOB};
    FirstFreeIsReturned(Crew().members, {BOB}, 0, 0, 0);
  }

  lemma BobsTuesdayCall()
    ensures LeaveChange(Crew(), State(Originals(), 3, [BobsTuesday("pending")], None), 1).0 == AnnCovers()
  {
    var w := State(Originals(), 3, [BobsTuesday("pending")], None);
    StatusesAreActive();
    TuesdayPick(w);
    OneDayCall(w, BobsTuesday("pending"), 1, 0);
    assert MarkAssigned(w.leaves, 1) == [BobsTuesday(STATUS_ASSIGNED)];
  }

  lemma BobsCallsLeadTo()
    ensures Exec(Crew(), BobsCalls()) == AnnCovers()
  {
    var w := State(Originals(), 3, [], None);
    GenerationReaches();
    ExecCreate([GenerateRange(MON, WED)], w, BobsTuesday("pending"));
    BobsTuesdayCall();
    ExecChange([GenerateRange(MON, WED)] + [CreateLeave(1, BOB, TUE, TUE)], w.(leaves := [BobsTuesday("pending")]), 1,
               AnnCovers());
  }

  /** Ann swaps her Monday for Cid's Wednesday; Cid then swaps the Monday for the Tuesday that Ann covers. */
  ghost function TwoSwaps(): seq<HatSwaps.Step> {
    HatSwaps.Chain(0, 2, 3, ANN, CID, ANN, MON)
  }

  ghost function BothAccepted(): seq<HatSwaps.Swap> {
    [HatSwaps.Swap(0, 2, ANN, CID, HatSwaps.Accepted), HatSwaps.Swap(0, 3, CID, ANN, HatSwaps.Accepted)]
  }

  ghost function UpToTheSwaps(): seq<Joint.Action> {
    Joint.CallsOf(Crew(), BobsCalls()) + Joint.StepsOf(TwoSwaps())
  }

  lemma NoSwapRows()
    ensures Distinct(Crew().members) && forall k :: 0 <= k < |BobsCalls()| ==> !BobsCalls()[k].SwapRows?
  {
  }

  lemma BeforeTheSwaps(calls: seq<Joint.Action>)
    requires calls == Joint.CallsOf(Crew(), BobsCalls())
    ensures Joint.Reach(calls) == Joint.State(AnnCovers(), [], map[]) && Joint.StateOk(Joint.Reach(calls))
  {
    NoSwapRows();
    Joint.ProperParts(Crew(), BobsCalls(), []);
    Joint.ReachIsOk(calls);
    Joint.CallsAreHistories(Crew(), BobsCalls());
    BobsCallsLeadTo();
  }

  lemma SwapsAreAccepted()
    requires Shaped(AnnCovers().table)
    ensures var st := HatSwaps.Run(HatSwaps.Fresh(Joint.ById(AnnCovers().table)), TwoSwaps()).store;
      st.swaps == BothAccepted() && 0 in st.rows && st.rows[0].member == ANN
  {
    var t := AnnCovers().table;
    Joint.ByIdAt(t, Orig(MON));
    Joint.ByIdAt(t, Orig(WED));
    Joint.ByIdAt(t, Cov(TUE));
    HatSwaps.ChainIsAccepted(Joint.ById(t), 0, 2, 3, ANN, CID, ANN, MON);
  }

  ghost predicate Exchanged(st: Joint.State) {
    && Joint.StateOk(st) && st.swaps == BothAccepted()
    && Joint.SameSlots(AnnCovers().table, st.world.table) && st.world == AnnCovers().(table := st.world.table)
    && 0 in Joint.ById(st.world.table) && Joint.ById(st.world.table)[0].member == ANN
  }

  lemma SwapsLeadTo()
    ensures Exchanged(Joint.Reach(UpToTheSwaps()))
  {
    var calls := Joint.CallsOf(Crew(), BobsCalls());
    BeforeTheSwaps(calls);
    assert Joint.SystemOf(Joint.Reach(calls)) == HatSwaps.Fresh(Joint.ById(AnnCovers().table));
    Joint.SwapStretch(calls, TwoSwaps());
    SwapsAreAccepted();
  }

  /** With Bob's leave deleted, the sweep takes Ann's cover away, marked as it is. */
  lemma CoverIsSwept(w: World)
    requires Joint.SameSlots(AnnCovers().table, w.table) && w == AnnCovers().(table := w.table)
    ensures LeaveDelete(Crew(), w, 1).0.table == w.table - {Cov(TUE)}
  {
    var w1 := w.(leaves := []);
    assert Without(w.leaves, 1) == [];
    assert Away(EnvOf(Crew(), w1), TUE) == {};
    assert Orig(TUE) in w.table && Cov(TUE) in w.table;
    var w2 := SweepCovers(Crew(), w1, TUE, TUE);
    assert w2.table == w.table - {Cov(TUE)};
    assert TUE in BusyDates(w2.table, TUE, TUE) by { assert Orig(TUE) in w2.table; }
    NothingToFill(Crew(), w2, TUE, TUE, BusyDates(w2.table, TUE, TUE));
  }

  lemma RowsLeft(t: Table)
    requires Shaped(t) && Joint.SameSlots(AnnCovers().table, t) && Shaped(t - {Cov(TUE)})
    ensures var rows := Joint.ById(t - {Cov(TUE)});
      0 in rows && 2 in rows && 3 !in rows && rows[0] == Joint.ById(t)[0]
  {
    var t' := t - {Cov(TUE)};
    Joint.ByIdAt(t', Orig(MON));
    Joint.ByIdAt(t, Orig(MON));
    Joint.ByIdAt(t', Orig(WED));
  }

  ghost function SweptSwap(): seq<Joint.Action> {
    UpToTheSwaps() + [Joint.Calling(Crew(), DeleteLeave(1))]
  }

  ghost predicate LastSwapIsGone(st: HatSwaps.Store) {
    st.swaps == BothAccepted() && 0 in st.rows && 2 in st.rows && 3 !in st.rows && st.rows[0].member == ANN
  }

  lemma BothStay(rows: HatSwaps.Rows)
    ensures Joint.Cascaded(rows, BothAccepted()) == BothAccepted()
  {
    Joint.ClosedSwapsStay(rows, BothAccepted());
  }

  lemma SweepHidesTheSwap(st: Joint.State, t: Table)
    requires Exchanged(st) && t == st.world.table - {Cov(TUE)} && Shaped(t)
    ensures LastSwapIsGone(HatSwaps.Store(Joint.ById(t), Joint.Cascaded(Joint.ById(t), st.swaps)))
  {
    RowsLeft(st.world.table);
    BothStay(Joint.ById(t));
  }

  lemma LastWriterIsHidden(st: HatSwaps.Store)
    requires st.swaps == BothAccepted() && 0 in st.rows && 2 in st.rows && 3 !in st.rows
    ensures HatSwaps.LastLive(st.rows, st.swaps, 0) == Some(CID) && HatSwaps.LastWriter(st.swaps, 0) == Some(ANN)
  {
    assert BothAccepted()[..1] == [HatSwaps.Swap(0, 2, ANN, CID, HatSwaps.Accepted)];
  }

  lemma SweptSwapIsProper()
    ensures Joint.Proper(UpToTheSwaps()) && Joint.Proper(SweptSwap())
  {
    NoSwapRows();
    Joint.ProperParts(Crew(), BobsCalls(), TwoSwaps());
    Joint.ProperSnoc(UpToTheSwaps(), Crew(), DeleteLeave(1));
  }

  lemma DeletionLeadsTo(acts: seq<Joint.Action>)
    requires Joint.Proper(acts) && Exchanged(Joint.Reach(acts))
    ensures LastSwapIsGone(Joint.StoreOf(Joint.Reach(acts + [Joint.Calling(Crew(), DeleteLeave(1))])))
  {
    var st := Joint.Reach(acts);
    NoSwapRows();
    Joint.AfterDeletion(acts, Crew(), 1);
    CoverIsSwept(st.world);
    SweepHidesTheSwap(st, st.world.table - {Cov(TUE)});
  }

  /** The second swap goes with the cover. The first is now the last to name an owner for the Monday, and
      replaying the log would take the Monday from Ann and give it to Cid. */
  lemma SweptSwapMovesARow()
    ensures Joint.Proper(SweptSwap())
    ensures var st := Joint.StoreOf(Joint.Reach(SweptSwap()));
      && 0 in st.rows && st.rows[0].member == ANN
      && HatSwaps.LastLive(st.rows, st.swaps, 0) == Some(CID)
      && HatSwaps.ReconcileAll(st) != st
  {
    SweptSwapIsProper();
    SwapsLeadTo();
    DeletionLeadsTo(UpToTheSwaps());
    LastWriterIsHidden(Joint.StoreOf(Joint.Reach(SweptSwap())));
    Joint.ReplayIsHarmlessIff(SweptSwap());
  }

  // ---------- an offer that outlives its owner ----------

  /** Ann offers the Tuesday she covers for Bob's own Tuesday row. */
  ghost function Offer(status: HatSwaps.Status): HatSwaps.Swap {
    HatSwaps.Swap(3, 1, ANN, BOB, status)
  }

  ghost function AnnsTuesday(status: string): Leave { Leave(2, ANN, TUE, TUE, status) }

  ghost function CidCovers(): World {
    World(Originals()[Cov(TUE) := Row(3, CID, false, Some(1))], 4,
          [BobsTuesday(STATUS_ASSIGNED), AnnsTuesday(STATUS_ASSIGNED)], Cursors(), Some(CoverRow(Anchor(TUE, 2), None)))
  }

  ghost function OfferedIn(w: World): Joint.State {
    Joint.State(w, [Offer(HatSwaps.Pending)], map[])
  }

  ghost function ReadIn(w: World): Joint.State {
    Joint.State(w, [Offer(HatSwaps.Pending)], map[0 := HatSwaps.Plan(0, Offer(HatSwaps.Pending))])
  }

  ghost function MakeOffer(): Joint.Action { Joint.Swapping(HatSwaps.DoCreate(3, 1, ANN, BOB)) }
  ghost function AnnAsks(): Joint.Action { Joint.Calling(Crew(), CreateLeave(2, ANN, TUE, TUE)) }
  ghost function AnnLeaves(): Joint.Action { Joint.Calling(Crew(), ChangeLeave(2)) }
  ghost function ReadOffer(): Joint.Action { Joint.Swapping(HatSwaps.DoRead(0, 0, MON)) }

  ghost function StaleOffer(): seq<Joint.Action> {
    Joint.CallsOf(Crew(), BobsCalls()) + [MakeOffer()] + [AnnAsks()] + [AnnLeaves()] + [ReadOffer()]
  }

  lemma StaleOfferIsProper()
    ensures Joint.Proper(StaleOffer())
  {
    NoSwapRows();
    Joint.ProperParts(Crew(), BobsCalls(), []);
  }

  lemma MadeOn(sys: HatSwaps.System)
    requires sys.store.swaps == [] && sys.inFlight == map[] && 1 in sys.store.rows && 3 in sys.store.rows
    requires sys.store.rows[3].member == ANN && sys.store.rows[1].member == BOB
    ensures HatSwaps.Next(sys, HatSwaps.DoCreate(3, 1, ANN, BOB)) ==
      HatSwaps.System(HatSwaps.Store(sys.store.rows, [Offer(HatSwaps.Pending)]), map[])
  {
    assert [] + [Offer(HatSwaps.Pending)] == [Offer(HatSwaps.Pending)];
  }

  lemma OfferIsMade(st: Joint.State)
    requires st == Joint.State(AnnCovers(), [], map[]) && Joint.StateOk(st)
    ensures Joint.Act(st, MakeOffer()) == OfferedIn(AnnCovers())
  {
    Joint.ByIdAt(AnnCovers().table, Cov(TUE));
    Joint.ByIdAt(AnnCovers().table, Orig(TUE));
    MadeOn(Joint.SystemOf(st));
    Joint.QuietSwapping(st, HatSwaps.DoCreate(3, 1, ANN, BOB));
  }

  lemma OfferStays(t: Table)
    requires Shaped(t) && Cov(TUE) in t && t[Cov(TUE)].id == 3 && Orig(TUE) in t && t[Orig(TUE)].id == 1
    ensures Joint.Cascaded(Joint.ById(t), [Offer(HatSwaps.Pending)]) == [Offer(HatSwaps.Pending)]
  {
    Joint.ByIdAt(t, Cov(TUE));
    Joint.ByIdAt(t, Orig(TUE));
  }

  ghost function AnnAsked(): World {
    AnnCovers().(leaves := [BobsTuesday(STATUS_ASSIGNED), AnnsTuesday("pending")])
  }

  lemma AnnAskedIsNext()
    ensures Apply(Crew(), AnnCovers(), CreateLeave(2, ANN, TUE, TUE)) == AnnAsked()
  {
    NotFound(AnnCovers().leaves, 2);
  }

  lemma AnnHasAsked()
    requires Shaped(AnnCovers().table)
    ensures Joint.Act(OfferedIn(AnnCovers()), AnnAsks()) == OfferedIn(AnnAsked())
  {
    AnnAskedIsNext();
    Joint.ActCalls(OfferedIn(AnnCovers()), Crew(), CreateLeave(2, ANN, TUE, TUE), AnnAsked());
    OfferStays(AnnCovers().table);
  }

  lemma CidIsNext()
    ensures Pick(EnvOf(Crew(), AnnAsked()), Some(Anchor(TUE, 0)), TUE) == Some(2)
    ensures BOB in Away(EnvOf(Crew(), AnnAsked()), TUE)
  {
    var leaves := AnnAsked().leaves;
    StatusesAreActive();
    assert Views(leaves)[0] == View(leaves[0]) && Views(leaves)[1] == View(leaves[1]);
    assert Away(EnvOf(Crew(), AnnAsked()), TUE) == {ANN, BOB};
    FirstFreeIsReturned(Crew().members, {ANN, BOB}, 0, 0, 2);
  }

  lemma CoverIsRepointed()
    ensures LeaveChange(Crew(), AnnAsked(), 2).0 == CidCovers()
  {
    var w := AnnAsked();
    StatusesAreActive();
    CidIsNext();
    AnnsTuesdayIsFound();
    OneDayCall(w, AnnsTuesday("pending"), 1, 2);
  }

  lemma AnnsTuesdayIsFound()
    ensures FindLeave(AnnAsked().leaves, 2) == Some(AnnsTuesday("pending"))
    ensures MarkAssigned(AnnAsked().leaves, 2) == CidCovers().leaves
  {
    assert AnnAsked().leaves[1..] == [AnnsTuesday("pending")];
  }

  lemma CidCoversIsShaped()
    ensures Shaped(CidCovers().table)
  {
  }

  lemma ApplyChange(w: World, id: LeaveId)
    ensures Apply(Crew(), w, ChangeLeave(id)) == LeaveChange(Crew(), w, id).0
  {
  }

  lemma AnnHasLeft()
    ensures Joint.Act(OfferedIn(AnnAsked()), AnnLeaves()) == OfferedIn(CidCovers())
  {
    CidCoversIsShaped();
    CoverIsRepointed();
    ApplyChange(AnnAsked(), 2);
    Joint.ActCalls(OfferedIn(AnnAsked()), Crew(), ChangeLeave(2), CidCovers());
    OfferStays(CidCovers().table);
  }

  lemma ReadOn(sys: HatSwaps.System)
    requires sys.store.swaps == [Offer(HatSwaps.Pending)] && sys.inFlight == map[]
    requires 1 in sys.store.rows && 3 in sys.store.rows && sys.store.rows[3].member != sys.store.rows[1].member
    requires sys.store.rows[3].date == TUE && sys.store.rows[1].date == TUE
    ensures HatSwaps.Next(sys, HatSwaps.DoRead(0, 0, MON)) ==
      HatSwaps.System(sys.store, map[0 := HatSwaps.Plan(0, Offer(HatSwaps.Pending))])
  {
  }

  lemma OfferIsRead()
    requires Joint.StateOk(OfferedIn(CidCovers()))
    ensures Joint.Act(OfferedIn(CidCovers()), ReadOffer()) == ReadIn(CidCovers())
  {
    Joint.ByIdAt(CidCovers().table, Cov(TUE));
    Joint.ByIdAt(CidCovers().table, Orig(TUE));
    ReadOn(Joint.SystemOf(OfferedIn(CidCovers())));
    Joint.QuietSwapping(OfferedIn(CidCovers()), HatSwaps.DoRead(0, 0, MON));
  }

  lemma StaleOn(sys: HatSwaps.System)
    requires sys.store.swaps == [Offer(HatSwaps.Pending)] && HatSwaps.Live(sys.store.rows, Offer(HatSwaps.Pending))
    requires sys.inFlight == map[0 := HatSwaps.Plan(0, Offer(HatSwaps.Pending))]
    requires sys.store.rows[3].member == CID
    ensures !Joint.AcceptsFromOwners(sys.store, HatSwaps.Next(sys, HatSwaps.DoCommit(0)).store)
  {
    assert HatSwaps.Accepts(sys.store, HatSwaps.Next(sys, HatSwaps.DoCommit(0)).store, 0);
  }

  /** Cid has the cover by now. */
  lemma OfferIsStale()
    requires Joint.StateOk(ReadIn(CidCovers()))
    ensures var sys := Joint.SystemOf(ReadIn(CidCovers()));
      !Joint.AcceptsFromOwners(sys.store, HatSwaps.Next(sys, HatSwaps.DoCommit(0)).store)
  {
    Joint.ByIdAt(CidCovers().table, Cov(TUE));
    Joint.ByIdAt(CidCovers().table, Orig(TUE));
    StaleOn(Joint.SystemOf(ReadIn(CidCovers())));
  }

  lemma OfferSteps(st: Joint.State)
    requires st == Joint.State(AnnCovers(), [], map[]) && Joint.StateOk(st)
    ensures Joint.Act(Joint.Act(Joint.Act(Joint.Act(st, MakeOffer()), AnnAsks()), AnnLeaves()), ReadOffer())
         == ReadIn(CidCovers())
  {
    NoSwapRows();
    OfferIsMade(st);
    Joint.ActKeepsOk(st, MakeOffer());
    AnnHasAsked();
    Joint.ActKeepsOk(OfferedIn(AnnCovers()), AnnAsks());
    AnnHasLeft();
    Joint.ActKeepsOk(OfferedIn(AnnAsked()), AnnLeaves());
    OfferIsRead();
  }

  lemma StaleOfferLeadsTo()
    ensures Joint.Reach(StaleOffer()) == ReadIn(CidCovers())
  {
    var calls := Joint.CallsOf(Crew(), BobsCalls());
    BeforeTheSwaps(calls);
    OfferSteps(Joint.Reach(calls));
    Joint.ReachSnoc(calls, MakeOffer());
    Joint.ReachSnoc(calls + [MakeOffer()], AnnAsks());
    Joint.ReachSnoc(calls + [MakeOffer()] + [AnnAsks()], AnnLeaves());
    Joint.ReachSnoc(calls + [MakeOffer()] + [AnnAsks()] + [AnnLeaves()], ReadOffer());
  }

  /** Ann covers Bob's Tuesday and offers it to him for his own row of that day. Then she goes on leave too, and the
      call hands the cover to Cid. Bob's acceptance still goes through: Cid has lost a day and Ann has one more. */
  lemma StaleOfferMovesLoad()
    ensures Joint.Proper(StaleOffer())
    ensures var accept := Joint.Swapping(HatSwaps.DoCommit(0));
      !HatSwaps.SameLoad(Joint.StoreOf(Joint.Reach(StaleOffer())).rows,
                         Joint.StoreOf(Joint.Reach(StaleOffer() + [accept])).rows)
  {
    StaleOfferIsProper();
    StaleOfferLeadsTo();
    Joint.ReachIsOk(StaleOffer());
    OfferIsStale();
    Joint.SwapActionKeepsLoadIff(StaleOffer(), HatSwaps.DoCommit(0));
    Joint.ReachSnoc(StaleOffer(), Joint.Swapping(HatSwaps.DoCommit(0)));
    Joint.SwappingIsNext(Joint.Reach(StaleOffer()), HatSwaps.DoCommit(0));
  }
}
