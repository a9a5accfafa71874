/** Swaps and scheduler calls on one table, in any order.

Scheduler calls never change a marked row in place, but a sweep deletes a marked cover like any other. The swaps
that refer to a deleted row go with it, and an older swap of the partner row can then become its last one.
 */
module Joint {
  import opened Wrappers
  import opened Rotation
  import opened Roster
  import opened CoverRuns
  import opened Reassign
  import opened Schedule
  import opened Histories
  import opened Runs
  import HatSwaps

  // ---------- what scheduler calls do to rows ----------

  /** A row that was there before, as it was if a swap had marked it; or a new row without a mark. */
  predicate RowKept(t: Table, next: RowId, s: Slot, row: Row) {
    || (&& row.id >= next && !row.swapped)
    || (&& s in t && row.id == t[s].id && row.swapped == t[s].swapped && (row.swapped ==> row == t[s]))
  }

  ghost predicate Respects(t: Table, next: RowId, t': Table) {
    forall s :: s in t' ==> RowKept(t, next, s, t'[s])
  }

  ghost predicate WorldRespects(w: World, w': World) {
    w.nextId <= w'.nextId && Respects(w.table, w.nextId, w'.table)
  }

  lemma RespectsTwice(a: World, b: World, c: World)
    requires WorldRespects(a, b) && WorldRespects(b, c)
    ensures WorldRespects(a, c)
  {
    forall s | s in c.table ensures RowKept(a.table, a.nextId, s, c.table[s]) {
      assert RowKept(b.table, b.nextId, s, c.table[s]);
      assert s in b.table ==> RowKept(a.table, a.nextId, s, b.table[s]);
    }
  }

  lemma {:induction false} RunRespects(env: Env, rotor: Rotor, p: Progress, evs: seq<Event>)
    ensures var q := Run(env, rotor, p, evs);
      p.nextId <= q.nextId && Respects(p.table, p.nextId, q.table)
  {
    if evs != [] {
      var n := |evs| - 1;
      RunRespects(env, rotor, p, evs[..n]);
      var q := Run(env, rotor, p, evs[..n]);
      var q' := Step(env, rotor, q, evs[n]);
      forall s | s in q'.table ensures RowKept(p.table, p.nextId, s, q'.table[s]) {
        assert s in q.table ==> RowKept(p.table, p.nextId, s, q.table[s]);
      }
    }
  }

  lemma {:induction false} GenerateRespects(team: Team, w: World, lo: Date, hi: Date)
    requires |team.members| > 0
    ensures WorldRespects(w, Generate(team, w, lo, hi).0)
    decreases hi - lo
  {
    if lo <= hi {
      GenerateRespects(team, w, lo, hi - 1);
      var w1 := Generate(team, w, lo, hi - 1).0;
      RespectsTwice(w, w1, ProcessDate(team, w1, hi).0);
    }
  }

  lemma {:induction false} FillRespects(team: Team, w: World, lo: Date, hi: Date, busy: set<Date>)
    requires |team.members| > 0
    ensures WorldRespects(w, FillGaps(team, w, lo, hi, busy).world)
    decreases hi - lo
  {
    if lo <= hi {
      FillRespects(team, w, lo, hi - 1, busy);
      var w1 := FillGaps(team, w, lo, hi - 1, busy).world;
      RespectsTwice(w, w1, ProcessDate(team, w1, hi).0);
    }
  }

  lemma MissingDaysRespect(team: Team, w: World, lo: Date, hi: Date)
    ensures WorldRespects(w, MissingDays(team, w, lo, hi).world)
  {
    if team.members != [] { FillRespects(team, w, lo, hi, BusyDates(w.table, lo, hi)); }
  }

  lemma RefillRespects(team: Team, w: World, lo: Date, hi: Date)
    ensures WorldRespects(w, MissingDays(team, SweepCovers(team, w, lo, hi), lo, hi).world)
  {
    var w1 := SweepCovers(team, w, lo, hi);
    MissingDaysRespect(team, w1, lo, hi);
    RespectsTwice(w, w1, MissingDays(team, w1, lo, hi).world);
  }

  lemma RegenerateRespects(team: Team, w: World, lo: Date, hi: Date)
    ensures WorldRespects(w, Regenerate(team, w, lo, hi).0)
  {
    if team.members != [] {
      var w1 := w.(table := Cleared(w.table, lo, hi));
      GenerateRespects(team, w1, lo, hi);
      RespectsTwice(w, w1, Generate(team, w1, lo, hi).0);
    }
  }

  /** No scheduler call changes a marked row in place, marks a row, or issues an id twice. */
  lemma CallRespectsSwaps(team: Team, w: World, op: Op)
    requires !op.SwapRows?
    ensures WorldRespects(w, Apply(team, w, op))
  {
    match op
    case GenerateRange(lo, hi) => if team.members != [] { GenerateRespects(team, w, lo, hi); }
    case FillMissing(lo, hi) => MissingDaysRespect(team, w, lo, hi);
    case EnsureFrom(today) => RefillRespects(team, w, today, today + DAYS_AHEAD);
    case RegenerateRange(lo, hi) => RegenerateRespects(team, w, lo, hi);
    case CreateLeave(id, m, start, end) =>
    case EditLeave(id, m, start, end, status) =>
    case ChangeLeave(id) =>
      if FindLeave(w.leaves, id).Some? {
        RunRespects(EnvOf(team, w), Rotor(AdHoc, AdHocAnchor(w.coverRow)), Progress(w.table, w.nextId, []),
                    LeaveEvents(View(FindLeave(w.leaves, id).value)));
      }
    case DeleteLeave(id) =>
      if FindLeave(w.leaves, id).Some? {
        var l := FindLeave(w.leaves, id).value;
        RefillRespects(team, w.(leaves := Without(w.leaves, id)), l.start, l.end);
      }
    case ReassignEverything =>
      RunRespects(EnvOf(team, w), FRESH, Progress(w.table, w.nextId, []), AllEvents(Views(SortedByStart(w.leaves))));
  }

  // ---------- one database ----------

  ghost function Ids(t: Table): set<RowId> {
    set s | s in t :: t[s].id
  }

  ghost function SlotOf(t: Table, r: RowId): (s: Slot)
    requires r in Ids(t)
    ensures s in t && t[s].id == r
  {
    var s :| s in t && t[s].id == r;
    s
  }

  /** The table as the swap calls see it: by row id. */
  ghost function ById(t: Table): HatSwaps.Rows {
    map r | r in Ids(t) :: HatSwaps.Row(SlotOf(t, r).date, t[SlotOf(t, r)].member, t[SlotOf(t, r)].swapped)
  }

  /** The owners and marks that the swap calls leave, in the table. */
  function WrittenBack(t: Table, rows: HatSwaps.Rows): Table {
    map s | s in t ::
      if t[s].id in rows then t[s].(member := rows[t[s].id].member, swapped := rows[t[s].id].swapped) else t[s]
  }

  ghost predicate SameDates(rows: HatSwaps.Rows, rows': HatSwaps.Rows) {
    rows'.Keys == rows.Keys && forall r :: r in rows ==> rows'[r].date == rows[r].date
  }

  ghost predicate SameSlots(t: Table, t': Table) {
    t'.Keys == t.Keys && forall s :: s in t ==> t'[s].id == t[s].id
  }

  lemma WrittenBackKeepsShape(t: Table, next: RowId, rows: HatSwaps.Rows)
    requires Shaped(t) && IdsBelow(t, next)
    ensures var t' := WrittenBack(t, rows); Shaped(t') && IdsBelow(t', next) && SameSlots(t, t')
  {
    var t' := WrittenBack(t, rows);
    assert t'.Keys == t.Keys && forall s :: s in t ==> t'[s].id == t[s].id && t'[s].original == t[s].original;
  }

  lemma ByIdAt(t: Table, s: Slot)
    requires Shaped(t) && s in t
    ensures t[s].id in ById(t) && ById(t)[t[s].id] == HatSwaps.Row(s.date, t[s].member, t[s].swapped)
  {
    assert t[s].id in Ids(t) && SlotOf(t, t[s].id) == s;
  }

  /** The rows of a well-shaped table are the only ones that show it. */
  lemma ByIdIs(t: Table, rows: HatSwaps.Rows)
    requires Shaped(t) && ShowsRows(rows, t) && rows.Keys == Ids(t)
    ensures ById(t) == rows
  {
  }

  lemma SameIds(t: Table, t': Table)
    requires SameSlots(t, t')
    ensures Ids(t') == Ids(t)
  {
    forall s | s in t ensures t'[s].id in Ids(t) && t[s].id in Ids(t') {
    }
  }

  lemma WrittenBackShows(t: Table, rows: HatSwaps.Rows, s: Slot)
    requires Shaped(t) && SameDates(ById(t), rows) && s in t
    ensures var row := WrittenBack(t, rows)[s];
      row.id in rows && rows[row.id] == HatSwaps.Row(s.date, row.member, row.swapped)
  {
    ByIdAt(t, s);
  }

  lemma ByIdOfWrittenBack(t: Table, next: RowId, rows: HatSwaps.Rows)
    requires Shaped(t) && IdsBelow(t, next) && SameDates(ById(t), rows)
    ensures ById(WrittenBack(t, rows)) == rows
  {
    WrittenBackKeepsShape(t, next, rows);
    SameIds(t, WrittenBack(t, rows));
    forall s | s in t { WrittenBackShows(t, rows, s); }
    ByIdIs(WrittenBack(t, rows), rows);
  }

  datatype State = State(world: World, swaps: seq<HatSwaps.Swap>, inFlight: map<nat, HatSwaps.Plan>)

  /** A phase of a swap call, or a scheduler call by the team of the moment. */
  datatype Action = Swapping(step: HatSwaps.Step) | Calling(team: Team, op: Op)

  ghost function StoreOf(st: State): HatSwaps.Store {
    HatSwaps.Store(ById(st.world.table), st.swaps)
  }

  ghost function SystemOf(st: State): HatSwaps.System {
    HatSwaps.System(StoreOf(st), st.inFlight)
  }

  /** Deleting a row deletes the swaps that refer to it. A pending one is closed here, so that positions stay ids;
      an accepted one stays listed, and a replay skips it because a row of it is missing. */
  function Cascaded(rows: HatSwaps.Rows, swaps: seq<HatSwaps.Swap>): seq<HatSwaps.Swap> {
    seq(|swaps|, i requires 0 <= i < |swaps| =>
      if swaps[i].status == HatSwaps.Pending && !HatSwaps.Live(rows, swaps[i])
      then swaps[i].(status := HatSwaps.Cancelled) else swaps[i])
  }

  lemma ClosedSwapsStay(rows: HatSwaps.Rows, swaps: seq<HatSwaps.Swap>)
    requires forall i :: 0 <= i < |swaps| ==> swaps[i].status != HatSwaps.Pending
    ensures Cascaded(rows, swaps) == swaps
  {
  }

  ghost function Act(st: State, a: Action): State {
    match a
    case Swapping(step) =>
      var sys := HatSwaps.Next(SystemOf(st), step);
      State(st.world.(table := WrittenBack(st.world.table, sys.store.rows)), sys.store.swaps, sys.inFlight)
    case Calling(team, op) =>
      var w := Apply(team, st.world, op);
      State(w, Cascaded(ById(w.table), st.swaps), st.inFlight)
  }

  ghost function Reach(acts: seq<Action>): State {
    if acts == [] then State(EMPTY, [], map[]) else Act(Reach(acts[..|acts| - 1]), acts[|acts| - 1])
  }

  /** Owners are exchanged by the swap calls only, and no member is listed twice. */
  ghost predicate Proper(acts: seq<Action>) {
    forall k :: 0 <= k < |acts| && acts[k].Calling? ==> Distinct(acts[k].team.members) && !acts[k].op.SwapRows?
  }

  /** Scheduler calls alone are the histories of `Runs`. */
  function CallsOf(team: Team, ops: seq<Op>): seq<Action> {
    seq(|ops|, i requires 0 <= i < |ops| => Calling(team, ops[i]))
  }

  lemma {:induction false} CallsAreHistories(team: Team, ops: seq<Op>)
    ensures Reach(CallsOf(team, ops)) == State(Exec(team, ops), [], map[])
  {
    if ops != [] {
      var n := |ops| - 1;
      assert CallsOf(team, ops)[..n] == CallsOf(team, ops[..n]);
      CallsAreHistories(team, ops[..n]);
    }
  }

  // ---------- the invariant ----------

  ghost predicate LogBelow(swaps: seq<HatSwaps.Swap>, next: RowId) {
    forall i :: 0 <= i < |swaps| ==> swaps[i].reqRow < next && swaps[i].tgtRow < next
  }

  ghost predicate StateOk(st: State) {
    && Shaped(st.world.table) && IdsBelow(st.world.table, st.world.nextId) && LeavesOk(st.world.leaves)
    && HatSwaps.SystemOk(SystemOf(st))
    && LogBelow(st.swaps, st.world.nextId)
  }

  lemma StepKeepsDates(sys: HatSwaps.System, step: HatSwaps.Step)
    ensures SameDates(sys.store.rows, HatSwaps.Next(sys, step).store.rows)
  {
  }

  lemma NewSwapsAreBelow(sys: HatSwaps.System, step: HatSwaps.Step, next: RowId)
    requires HatSwaps.SystemOk(sys) && LogBelow(sys.store.swaps, next)
    requires forall r :: r in sys.store.rows ==> r < next
    ensures LogBelow(HatSwaps.Next(sys, step).store.swaps, next)
  {
    HatSwaps.StepIsAtomic(sys, step);
    var (swaps, swaps') := (sys.store.swaps, HatSwaps.Next(sys, step).store.swaps);
    forall i | 0 <= i < |swaps'| ensures swaps'[i].reqRow < next && swaps'[i].tgtRow < next {
      if i < |swaps| {
        assert swaps'[i].(status := HatSwaps.Pending) == swaps[i].(status := HatSwaps.Pending);
      }
    }
  }

  lemma SwappingIsNext(st: State, step: HatSwaps.Step)
    requires StateOk(st)
    ensures var st' := Act(st, Swapping(step));
      && StateOk(st') && SystemOf(st') == HatSwaps.Next(SystemOf(st), step)
      && st'.world == st.world.(table := st'.world.table) && SameSlots(st.world.table, st'.world.table)
  {
    var sys := HatSwaps.Next(SystemOf(st), step);
    HatSwaps.NextKeepsOk(SystemOf(st), step);
    StepKeepsDates(SystemOf(st), step);
    WrittenBackKeepsShape(st.world.table, st.world.nextId, sys.store.rows);
    ByIdOfWrittenBack(st.world.table, st.world.nextId, sys.store.rows);
    assert SystemOf(Act(st, Swapping(step))) == sys;
    NewSwapsAreBelow(SystemOf(st), step, st.world.nextId);
  }

  /** The rows of a call seen by id: what was marked is the same or gone, and new ids are new. */
  ghost predicate Thinned(rows: HatSwaps.Rows, next: RowId, rows': HatSwaps.Rows) {
    forall r :: r in rows' && r < next ==> r in rows && (rows[r].swapped ==> rows'[r] == rows[r])
  }

  lemma RespectedRowsAreThinned(t: Table, next: RowId, t': Table)
    requires Shaped(t) && Shaped(t') && Respects(t, next, t')
    ensures Thinned(ById(t), next, ById(t'))
  {
    forall r | r in ById(t') && r < next
      ensures r in ById(t) && (ById(t)[r].swapped ==> ById(t')[r] == ById(t)[r])
    {
      var s := SlotOf(t', r);
      assert RowKept(t, next, s, t'[s]);
      ByIdAt(t, s);
      ByIdAt(t', s);
    }
  }

  lemma ThinningKeepsOk(st: HatSwaps.Store, next: RowId, rows': HatSwaps.Rows)
    requires HatSwaps.StoreOk(st) && LogBelow(st.swaps, next) && Thinned(st.rows, next, rows')
    ensures HatSwaps.StoreOk(HatSwaps.Store(rows', Cascaded(rows', st.swaps)))
  {
    var st' := HatSwaps.Store(rows', Cascaded(rows', st.swaps));
    forall i | 0 <= i < |st'.swaps| ensures HatSwaps.SwapOk(st', i) {
      assert HatSwaps.SwapOk(st, i);
      if st'.swaps[i].status == HatSwaps.Pending {
        forall j | i < j < |st'.swaps| ensures !HatSwaps.Overlap(st'.swaps[i], st'.swaps[j]) {
          assert !HatSwaps.Overlap(st.swaps[i], st.swaps[j]);
        }
      }
    }
    forall r | r in rows' && HatSwaps.LastWriter(st'.swaps, r).Some?
      ensures rows'[r].member == HatSwaps.LastWriter(st'.swaps, r).value && rows'[r].swapped
    {
      HatSwaps.SameWriters(st.swaps, st'.swaps, r);
      WriterIsBelow(st.swaps, next, r);
    }
  }

  lemma {:induction false} WriterIsBelow(swaps: seq<HatSwaps.Swap>, next: RowId, r: RowId)
    requires LogBelow(swaps, next) && HatSwaps.LastWriter(swaps, r).Some?
    ensures r < next
  {
    var n := |swaps| - 1;
    if !HatSwaps.Touches(swaps[n], r) { WriterIsBelow(swaps[..n], next, r); }
  }

  lemma ThinnedSystem(sys: HatSwaps.System, next: RowId, rows: HatSwaps.Rows)
    requires HatSwaps.SystemOk(sys) && LogBelow(sys.store.swaps, next) && Thinned(sys.store.rows, next, rows)
    ensures HatSwaps.SystemOk(HatSwaps.System(HatSwaps.Store(rows, Cascaded(rows, sys.store.swaps)), sys.inFlight))
    ensures LogBelow(Cascaded(rows, sys.store.swaps), next)
  {
    ThinningKeepsOk(sys.store, next, rows);
  }

  lemma RespectKeepsOk(st: State, w: World)
    requires StateOk(st) && WorldRespects(st.world, w)
    requires Shaped(w.table) && IdsBelow(w.table, w.nextId) && LeavesOk(w.leaves)
    ensures StateOk(State(w, Cascaded(ById(w.table), st.swaps), st.inFlight))
  {
    RespectedRowsAreThinned(st.world.table, st.world.nextId, w.table);
    ThinnedSystem(SystemOf(st), st.world.nextId, ById(w.table));
  }

  lemma CallingKeepsOk(st: State, team: Team, op: Op)
    requires StateOk(st) && Distinct(team.members) && !op.SwapRows?
    ensures StateOk(Act(st, Calling(team, op)))
  {
    ApplyCarries(team, st.world, op);
    CallRespectsSwaps(team, st.world, op);
    RespectKeepsOk(st, Apply(team, st.world, op));
  }

  lemma ActKeepsOk(st: State, a: Action)
    requires StateOk(st) && (a.Calling? ==> Distinct(a.team.members) && !a.op.SwapRows?)
    ensures StateOk(Act(st, a))
  {
    match a
    case Swapping(step) => SwappingIsNext(st, step);
    case Calling(team, op) => CallingKeepsOk(st, team, op);
  }

  lemma EmptyIsOk()
    ensures StateOk(State(EMPTY, [], map[]))
  {
    NoIds();
    assert SystemOf(State(EMPTY, [], map[])) == HatSwaps.Fresh(map[]);
    HatSwaps.RunKeepsOk(map[], []);
  }

  lemma NoIds()
    ensures ById(EMPTY.table) == map[]
  {
    assert Ids(EMPTY.table) == {};
  }

  lemma {:induction false} ReachIsOk(acts: seq<Action>)
    requires Proper(acts)
    ensures StateOk(Reach(acts))
  {
    if acts == [] {
      EmptyIsOk();
    } else {
      ReachIsOk(acts[..|acts| - 1]);
      ActKeepsOk(Reach(acts[..|acts| - 1]), acts[|acts| - 1]);
    }
  }

  /** A stretch of swap calls is a run of `HatSwaps` on the rows by id. */
  function StepsOf(steps: seq<HatSwaps.Step>): seq<Action> {
    seq(|steps|, i requires 0 <= i < |steps| => Swapping(steps[i]))
  }

  lemma ProperParts(team: Team, ops: seq<Op>, steps: seq<HatSwaps.Step>)
    requires Distinct(team.members) && forall k :: 0 <= k < |ops| ==> !ops[k].SwapRows?
    ensures Proper(CallsOf(team, ops)) && Proper(CallsOf(team, ops) + StepsOf(steps))
  {
  }

  lemma ProperSnoc(acts: seq<Action>, team: Team, op: Op)
    requires Proper(acts) && Distinct(team.members) && !op.SwapRows?
    ensures Proper(acts + [Calling(team, op)])
  {
  }

  lemma ReachSnoc(acts: seq<Action>, a: Action)
    ensures Reach(acts + [a]) == Act(Reach(acts), a)
  {
    assert (acts + [a])[..|acts|] == acts;
  }

  /** What the swap calls keep of the tables. */
  ghost predicate SwapsLater(st: State, st': State, steps: seq<HatSwaps.Step>) {
    && StateOk(st') && SystemOf(st') == HatSwaps.Run(SystemOf(st), steps)
    && st'.world == st.world.(table := st'.world.table) && SameSlots(st.world.table, st'.world.table)
  }

  lemma OneSwapLater(st: State, st1: State, steps: seq<HatSwaps.Step>)
    requires steps != [] && SwapsLater(st, st1, steps[..|steps| - 1])
    ensures SwapsLater(st, Act(st1, Swapping(steps[|steps| - 1])), steps)
  {
    SwappingIsNext(st1, steps[|steps| - 1]);
  }

  lemma StepsSnoc(acts: seq<Action>, steps: seq<HatSwaps.Step>)
    ensures acts + StepsOf([]) == acts
    ensures steps != [] ==> var n := |steps| - 1;
      acts + StepsOf(steps) == acts + StepsOf(steps[..n]) + [Swapping(steps[n])]
  {
  }

  lemma {:induction false} SwapStretch(acts: seq<Action>, steps: seq<HatSwaps.Step>)
    requires StateOk(Reach(acts))
    ensures SwapsLater(Reach(acts), Reach(acts + StepsOf(steps)), steps)
    decreases |steps|
  {
    StepsSnoc(acts, steps);
    if steps != [] {
      var n := |steps| - 1;
      SwapStretch(acts, steps[..n]);
      ReachSnoc(acts + StepsOf(steps[..n]), Swapping(steps[n]));
      OneSwapLater(Reach(acts), Reach(acts + StepsOf(steps[..n])), steps);
    }
  }

  lemma ActCalls(st: State, team: Team, op: Op, w: World)
    requires w == Apply(team, st.world, op)
    ensures Act(st, Calling(team, op)) == State(w, Cascaded(ById(w.table), st.swaps), st.inFlight)
  {
  }

  lemma ActDeletes(st: State, team: Team, id: LeaveId)
    ensures var w := LeaveDelete(team, st.world, id).0;
      Act(st, Calling(team, DeleteLeave(id))) == State(w, Cascaded(ById(w.table), st.swaps), st.inFlight)
  {
    ActCalls(st, team, DeleteLeave(id), LeaveDelete(team, st.world, id).0);
  }

  lemma AfterDeletion(acts: seq<Action>, team: Team, id: LeaveId)
    requires Proper(acts) && Distinct(team.members)
    ensures var t := LeaveDelete(team, Reach(acts).world, id).0.table;
      && Proper(acts + [Calling(team, DeleteLeave(id))]) && Shaped(t)
      && StoreOf(Reach(acts + [Calling(team, DeleteLeave(id))])) ==
           HatSwaps.Store(ById(t), Cascaded(ById(t), Reach(acts).swaps))
  {
    ProperSnoc(acts, team, DeleteLeave(id));
    ReachIsOk(acts + [Calling(team, DeleteLeave(id))]);
    ReachSnoc(acts, Calling(team, DeleteLeave(id)));
    ActDeletes(Reach(acts), team, id);
  }

  /** A scheduler call closes exactly the pending swaps that lose a row by it, and touches no other. */
  lemma CallClosesIff(acts: seq<Action>, team: Team, op: Op, i: nat)
    requires Proper(acts) && Distinct(team.members) && !op.SwapRows? && i < |Reach(acts).swaps|
    ensures var (st, st') := (Reach(acts), Reach(acts + [Calling(team, op)]));
      var (s, rows) := (st.swaps[i], ById(st'.world.table));
      && |st'.swaps| == |st.swaps| && st'.inFlight == st.inFlight
      && (s.status == HatSwaps.Pending ==> s.reqRow in ById(st.world.table) && s.tgtRow in ById(st.world.table))
      && st'.swaps[i] == (if s.status == HatSwaps.Pending && (s.reqRow !in rows || s.tgtRow !in rows)
                          then s.(status := HatSwaps.Cancelled) else s)
  {
    ReachIsOk(acts);
    ReachSnoc(acts, Calling(team, op));
    assert HatSwaps.SwapOk(StoreOf(Reach(acts)), i);
    ActCalls(Reach(acts), team, op, Apply(team, Reach(acts).world, op));
  }

  /** The read of an acceptance in any such history: it takes the swap up exactly when that is pending and its rows,
      which exist, belong to different people now and lie on days that have not passed. */
  lemma ReadsBeginIff(acts: seq<Action>, call: nat, id: HatSwaps.SwapId, today: int)
    requires Proper(acts) && call !in Reach(acts).inFlight
    ensures var (st, st') := (Reach(acts), Reach(acts + [Swapping(HatSwaps.DoRead(call, id, today))]));
      call in st'.inFlight <==>
        id < |st.swaps| && st.swaps[id].status == HatSwaps.Pending
        && HatSwaps.Exchangeable(ById(st.world.table), st.swaps[id], today)
  {
    var st := Reach(acts);
    ReachIsOk(acts);
    ReachSnoc(acts, Swapping(HatSwaps.DoRead(call, id, today)));
    SwappingIsNext(st, HatSwaps.DoRead(call, id, today));
    ReadInStore(SystemOf(st), call, id, today);
  }

  lemma ReadInStore(sys: HatSwaps.System, call: nat, id: HatSwaps.SwapId, today: int)
    requires HatSwaps.SystemOk(sys) && call !in sys.inFlight
    ensures call in HatSwaps.Next(sys, HatSwaps.DoRead(call, id, today)).inFlight <==>
      id < |sys.store.swaps| && sys.store.swaps[id].status == HatSwaps.Pending
      && HatSwaps.Exchangeable(sys.store.rows, sys.store.swaps[id], today)
  {
    HatSwaps.ReadRefusals(sys.store, id, today);
    var r := HatSwaps.ReadForAccept(sys.store, id, today);
    if r.Ok? { assert r == Ok(HatSwaps.Plan(id, sys.store.swaps[id])); }
  }

  // ---------- replaying the log afterwards ----------

  /** After any interleaving of swap calls and scheduler calls, replaying the accepted log in creation order
      changes nothing exactly when no deleted row took the last swap of a row with it while an older swap,
      which gave that row to somebody else, is left. */
  lemma ReplayIsHarmlessIff(acts: seq<Action>)
    requires Proper(acts)
    ensures var st := StoreOf(Reach(acts));
      HatSwaps.ReconcileAll(st) == st <==> HatSwaps.LogExplains(st)
  {
    ReachIsOk(acts);
    HatSwaps.ReplayAllIff(StoreOf(Reach(acts)));
  }

  /** In particular when every accepted swap still has its rows, whatever else was generated, covered,
      re-pointed or deleted in between. */
  lemma ReplayIsHarmless(acts: seq<Action>)
    requires Proper(acts)
    requires var st := StoreOf(Reach(acts));
      forall i :: 0 <= i < |st.swaps| && st.swaps[i].status == HatSwaps.Accepted ==> HatSwaps.Live(st.rows, st.swaps[i])
    ensures var st := StoreOf(Reach(acts)); HatSwaps.ReconcileAll(st) == st
  {
    ReplayIsHarmlessIff(acts);
    HatSwaps.AllLiveExplains(StoreOf(Reach(acts)));
  }

  // ---------- how many assignments everybody holds ----------

  ghost predicate AcceptsFromOwners(st: HatSwaps.Store, st': HatSwaps.Store) {
    forall i: nat :: HatSwaps.Accepts(st, st', i) ==>
      HatSwaps.Live(st.rows, st.swaps[i]) && HatSwaps.OwnsPair(st.rows, st.swaps[i])
  }

  /** In every such history, a phase of a swap call leaves everybody's number of assignments as it was exactly when
      the pair captured by the swap it accepts, if it accepts one, still owns the two rows. A pending swap does not
      keep a scheduler call from handing its cover row to somebody else, and the acceptance only checks that the two
      rows have different owners. */
  lemma SwapActionKeepsLoadIff(acts: seq<Action>, step: HatSwaps.Step)
    requires Proper(acts)
    ensures var (st, st') := (StoreOf(Reach(acts)), StoreOf(Reach(acts + [Swapping(step)])));
      HatSwaps.SameLoad(st.rows, st'.rows) <==> AcceptsFromOwners(st, st')
  {
    ReachIsOk(acts);
    ReachSnoc(acts, Swapping(step));
    SwappingIsNext(Reach(acts), step);
    StepKeepsLoadIff(SystemOf(Reach(acts)), step);
  }

  lemma StepKeepsLoadIff(sys: HatSwaps.System, step: HatSwaps.Step)
    requires HatSwaps.SystemOk(sys)
    ensures var (st, st') := (sys.store, HatSwaps.Next(sys, step).store);
      HatSwaps.SameLoad(st.rows, st'.rows) <==> AcceptsFromOwners(st, st')
  {
    HatSwaps.StepIsAtomic(sys, step);
    var (st, st') := (sys.store, HatSwaps.Next(sys, step).store);
    if exists i: nat :: HatSwaps.Accepts(st, st', i) {
      var i: nat :| HatSwaps.Accepts(st, st', i) && st'.rows == HatSwaps.Flip(st.rows, st.swaps[i]);
      assert HatSwaps.SwapOk(st, i);
      HatSwaps.FlipKeepsLoadIff(st.rows, st.swaps[i]);
    }
  }

  /** A phase that writes no row leaves the tables as they are. */
  lemma QuietSwapping(st: State, step: HatSwaps.Step)
    requires StateOk(st) && HatSwaps.Next(SystemOf(st), step).store.rows == ById(st.world.table)
    ensures var sys := HatSwaps.Next(SystemOf(st), step);
      Act(st, Swapping(step)) == State(st.world, sys.store.swaps, sys.inFlight)
  {
    NothingToWrite(st.world.table);
  }

  lemma NothingToWrite(t: Table)
    requires Shaped(t)
    ensures WrittenBack(t, ById(t)) == t
  {
    forall s | s in t { NothingToWriteAt(t, s); }
  }

  lemma NothingToWriteAt(t: Table, s: Slot)
    requires Shaped(t) && s in t
    ensures WrittenBack(t, ById(t))[s] == t[s]
  {
    ByIdAt(t, s);
  }
}
