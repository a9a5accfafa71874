/** The rows the scheduler reads and writes, and the value of one scheduling step.

`rota_assignments` carries UNIQUE(date, is_cover), so the table is a map keyed by that pair.
Row ids are issued from a counter, which stands for fresh UUIDs.
 */
module Roster {
  import opened Wrappers
  import opened Rotation
  import Text

  // Primary keys. The program uses UUID strings; only equality of keys matters here.
  type Member = nat
  type RowId = nat
  type LeaveId = nat

  datatype Slot = Slot(date: Date, isCover: bool)
  datatype Row = Row(id: RowId, member: Member, swapped: bool, original: Option<RowId>)
  type Table = map<Slot, Row>

  datatype Leave = Leave(id: LeaveId, member: Member, start: Date, end: Date, status: string)

  const STATUS_ASSIGNED := "assigned"
  const STATUS_COMPLETED := "completed"

  predicate IsLeaveActive(status: string) {
    var s := Text.ToLower(Text.TrimSpace(status));
    s == "pending" || s == "assigned"
  }

  /** Membership in the result of the leave-by-date query: every status except 'completed' counts. */
  predicate CountsOn(l: Leave, d: Date) {
    l.start <= d <= l.end && l.status != STATUS_COMPLETED
  }

  lemma AssignedIsActive()
    ensures IsLeaveActive(STATUS_ASSIGNED)
    ensures !IsLeaveActive(STATUS_COMPLETED)
  {
    Text.TrimSpaceKeeps(STATUS_ASSIGNED);
    Text.TrimSpaceKeeps(STATUS_COMPLETED);
    assert Text.ToLower(STATUS_ASSIGNED) == STATUS_ASSIGNED;
    assert Text.ToLower(STATUS_COMPLETED) == STATUS_COMPLETED;
  }

  /** What scheduling depends on in a leave: its status only through these two bits. */
  datatype LeaveView = LeaveView(id: LeaveId, member: Member, start: Date, end: Date, active: bool, counted: bool)

  function View(l: Leave): LeaveView {
    LeaveView(l.id, l.member, l.start, l.end, IsLeaveActive(l.status), l.status != STATUS_COMPLETED)
  }

  function Views(leaves: seq<Leave>): (vs: seq<LeaveView>)
    ensures |vs| == |leaves|
  {
    seq(|leaves|, i requires 0 <= i < |leaves| => View(leaves[i]))
  }

  /** Everything that stays fixed while covers are being assigned. */
  datatype Env = Env(members: seq<Member>, holiday: HolidayChecker, leaves: seq<LeaveView>)

  ghost predicate Distinct<T(!new)>(xs: seq<T>) {
    forall i, j :: 0 <= i < j < |xs| ==> xs[i] != xs[j]
  }

  ghost predicate ValidEnv(env: Env) {
    && Distinct(env.members)
    && (forall i :: 0 <= i < |env.leaves| && env.leaves[i].active ==> env.leaves[i].counted)
  }

  /** The members the leave-by-date query returns. */
  function Away(env: Env, d: Date): set<Member> {
    set i | 0 <= i < |env.leaves| && env.leaves[i].counted && env.leaves[i].start <= d <= env.leaves[i].end
      :: env.leaves[i].member
  }

  ghost predicate Available(env: Env, d: Date) {
    exists k :: 0 <= k < |env.members| && env.members[k] !in Away(env, d)
  }

  /** The `i`-th slot visited by a cyclic search that begins at `start`. */
  function Cyclic(start: nat, i: nat, n: nat): (k: nat)
    requires n > 0
    ensures k < n
  {
    (start + i) % n
  }

  /** The cyclic search for a cover, `tried` members in. */
  function FirstAvailable(members: seq<Member>, away: set<Member>, start: nat, tried: nat): (r: Option<nat>)
    ensures r.Some? ==> r.value < |members| && members[r.value] !in away
    decreases |members| - tried
  {
    if tried >= |members| then None
    else
      var k := Cyclic(start, tried, |members|);
      if members[k] !in away then Some(k)
      else FirstAvailable(members, away, start, tried + 1)
  }

  /** `k` is visited, and everybody visited before it from `tried` on is on leave. */
  ghost predicate FirstFree(members: seq<Member>, away: set<Member>, start: nat, tried: nat, k: nat)
    requires |members| > 0
  {
    exists i: nat :: tried <= i < |members| && Cyclic(start, i, |members|) == k
      && (forall j: nat :: tried <= j < i ==> members[Cyclic(start, j, |members|)] in away)
  }

  /** The search returns the first available slot in cyclic order ... */
  lemma {:induction false} FirstAvailableIsFirst(members: seq<Member>, away: set<Member>, start: nat, tried: nat)
    requires FirstAvailable(members, away, start, tried).Some?
    ensures FirstFree(members, away, start, tried, FirstAvailable(members, away, start, tried).value)
    decreases |members| - tried
  {
    var n := |members|;
    if members[Cyclic(start, tried, n)] in away {
      FirstAvailableIsFirst(members, away, start, tried + 1);
      var k := FirstAvailable(members, away, start, tried).value;
      var i: nat :| tried + 1 <= i < n && Cyclic(start, i, n) == k
        && (forall j: nat :: tried + 1 <= j < i ==> members[Cyclic(start, j, n)] in away);
      assert forall j: nat :: tried <= j < i ==> members[Cyclic(start, j, n)] in away;
    }
  }

  /** ... there is only one such slot ... */
  lemma {:induction false} FirstFreeIsReturned(members: seq<Member>, away: set<Member>, start: nat, tried: nat, i: nat)
    requires tried <= i < |members| && members[Cyclic(start, i, |members|)] !in away
    requires forall j: nat :: tried <= j < i ==> members[Cyclic(start, j, |members|)] in away
    ensures FirstAvailable(members, away, start, tried) == Some(Cyclic(start, i, |members|))
    decreases i - tried
  {
    if tried < i {
      FirstFreeIsReturned(members, away, start, tried + 1, i);
    }
  }

  /** ... and the search fails only when every member is on leave. */
  lemma FirstAvailableFailsIff(members: seq<Member>, away: set<Member>, start: nat)
    ensures FirstAvailable(members, away, start, 0).None? <==>
      forall k :: 0 <= k < |members| ==> members[k] in away
  {
    if FirstAvailable(members, away, start, 0).None? {
      forall k | 0 <= k < |members| ensures members[k] in away {
        NoneMeansAway(members, away, start, 0);
        var i := CyclicReaches(start, k, |members|);
        assert members[Cyclic(start, i, |members|)] in away;
      }
    }
  }

  /** A full turn visits every slot. */
  lemma CyclicReaches(start: nat, k: nat, n: nat) returns (i: nat)
    requires k < n
    ensures i < n && Cyclic(start, i, n) == k
  {
    i := (k - start) % n;
    ModAdd(k - start, start, n);
    ModUnique(k, n, 0, k);
    assert (k - start) + start == k;
    assert i + start == start + i;
  }

  lemma {:induction false} NoneMeansAway(members: seq<Member>, away: set<Member>, start: nat, tried: nat)
    requires FirstAvailable(members, away, start, tried).None?
    ensures forall i: nat :: tried <= i < |members| ==> members[Cyclic(start, i, |members|)] in away
    decreases |members| - tried
  {
    if tried < |members| {
      NoneMeansAway(members, away, start, tried + 1);
    }
  }

  // ---------- table ----------

  function Orig(d: Date): Slot { Slot(d, false) }
  function Cov(d: Date): Slot { Slot(d, true) }

  function At(t: Table, s: Slot): Option<Row> {
    if s in t then Some(t[s]) else None
  }

  /** One element of an assignment query's result. */
  datatype Assignment = Assignment(slot: Slot, row: Row)

  /** Every cover points at the existing original row of its own date; ids are unique. */
  ghost predicate Shaped(t: Table) {
    && (forall s :: s in t && s.isCover ==> Orig(s.date) in t && t[s].original == Some(t[Orig(s.date)].id))
    && (forall s :: s in t && !s.isCover ==> t[s].original == None)
    && (forall s, s' :: s in t && s' in t && s != s' ==> t[s].id != t[s'].id)
  }

  ghost predicate IdsBelow(t: Table, nextId: RowId) {
    forall s :: s in t ==> t[s].id < nextId
  }

  /** A cover whose original is not on leave that day. */
  predicate Stale(env: Env, t: Table, d: Date) {
    Cov(d) in t && Orig(d) in t && t[Orig(d)].member !in Away(env, d)
  }

  function Reconciled(env: Env, t: Table, lo: Date, hi: Date): Table {
    map s | s in t && !(s.isCover && lo <= s.date <= hi && Stale(env, t, s.date)) :: t[s]
  }

  /** The row a cover for `m` on `d` would hang on: the row `m` owns, or the one `m` is covering. */
  function OriginalFor(t: Table, d: Date, m: Member): Option<RowId> {
    if Orig(d) in t && t[Orig(d)].member == m then Some(t[Orig(d)].id)
    else if Cov(d) in t && t[Cov(d)].member == m then t[Cov(d)].original
    else None
  }

  /** Insert, re-point or leave alone the cover row of `d`; swapped rows are never touched. */
  function WithCover(t: Table, nextId: RowId, d: Date, m: Member, original: RowId): Table {
    if Cov(d) in t then
      if t[Cov(d)].swapped then t else t[Cov(d) := t[Cov(d)].(member := m)]
    else t[Cov(d) := Row(nextId, m, false, Some(original))]
  }

  function NextAfterCover(t: Table, nextId: RowId, d: Date): RowId {
    if Cov(d) in t then nextId else nextId + 1
  }

  // ---------- one run of cover assignment ----------

  /** Which of the two cover cursors a run reads and writes. */
  datatype Source = AdHoc | Reassign

  /** The reassign cursor lives in memory, where the zero date means "not set yet". */
  function Committed(src: Source, d: Date, slot: nat): Option<Anchor> {
    if src == Reassign && d == ZERO_DATE then None else Some(Anchor(d, slot))
  }

  datatype Commit = Commit(leave: LeaveId, date: Date, slot: nat)

  /** A cursor at the start of a run. */
  datatype Rotor = Rotor(src: Source, start: Option<Anchor>)

  function Current(rotor: Rotor, log: seq<Commit>): Option<Anchor> {
    if log == [] then rotor.start
    else Committed(rotor.src, log[|log| - 1].date, log[|log| - 1].slot)
  }

  function Candidate(env: Env, anchor: Option<Anchor>, d: Date): nat {
    match anchor
    case None => 0
    case Some(a) => SlotFor(env.holiday, a, d, |env.members|)
  }

  function Pick(env: Env, anchor: Option<Anchor>, d: Date): Option<nat> {
    FirstAvailable(env.members, Away(env, d), Candidate(env, anchor, d), 0)
  }

  datatype Event =
    | Sweep(lo: Date, hi: Date)                           // reconcile a date range
    | Assign(leave: LeaveId, member: Member, date: Date)  // process one day of an active leave

  datatype Progress = Progress(table: Table, nextId: RowId, log: seq<Commit>)

  function Step(env: Env, rotor: Rotor, p: Progress, e: Event): Progress {
    match e
    case Sweep(lo, hi) => p.(table := Reconciled(env, p.table, lo, hi))
    case Assign(id, m, d) =>
      if ShouldSkipDate(env.holiday, d) then p
      else
        match OriginalFor(p.table, d, m)
        case None => p
        case Some(original) =>
          match Pick(env, Current(rotor, p.log), d)
          case None => p
          case Some(k) =>
            Progress(WithCover(p.table, p.nextId, d, env.members[k], original),
                     NextAfterCover(p.table, p.nextId, d),
                     p.log + [Commit(id, d, k)])
  }

  function Run(env: Env, rotor: Rotor, p: Progress, evs: seq<Event>): Progress {
    if evs == [] then p
    else Step(env, rotor, Run(env, rotor, p, evs[..|evs| - 1]), evs[|evs| - 1])
  }

  lemma RunSnoc(env: Env, rotor: Rotor, p: Progress, evs: seq<Event>, e: Event)
    ensures Run(env, rotor, p, evs + [e]) == Step(env, rotor, Run(env, rotor, p, evs), e)
  {
    assert (evs + [e])[..|evs|] == evs;
  }

  lemma {:induction false} RunAppend(env: Env, rotor: Rotor, p: Progress, xs: seq<Event>, ys: seq<Event>)
    ensures Run(env, rotor, p, xs + ys) == Run(env, rotor, Run(env, rotor, p, xs), ys)
  {
    if ys == [] {
      assert xs + ys == xs;
    } else {
      var n := |ys| - 1;
      assert (xs + ys)[..|xs| + n] == xs + ys[..n];
      RunAppend(env, rotor, p, xs, ys[..n]);
    }
  }

  // ---------- the events of a leave and of a list of leaves ----------

  function DayEvents(id: LeaveId, m: Member, lo: Date, hi: Date): seq<Event>
    decreases hi - lo
  {
    if hi < lo then [] else DayEvents(id, m, lo, hi - 1) + [Assign(id, m, hi)]
  }

  function ActiveDays(l: LeaveView): seq<Event> {
    if l.active then DayEvents(l.id, l.member, l.start, l.end) else []
  }

  function LeaveEvents(l: LeaveView): seq<Event> {
    [Sweep(l.start, l.end)] + ActiveDays(l)
  }

  function AllEvents(leaves: seq<LeaveView>): seq<Event> {
    if leaves == [] then []
    else AllEvents(leaves[..|leaves| - 1]) + LeaveEvents(leaves[|leaves| - 1])
  }
}
