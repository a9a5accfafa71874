/** The scheduler itself: an engine over its tables, with the loops of the program.

Each method is proved equal to the specification of `Schedule`, whose consequences are proved in
`Reassign`, `Histories` and `Runs`.
 */
module Maintenance {
  import opened Wrappers
  import opened Rotation
  import opened Roster
  import opened CoverRuns
  import opened Reassign
  import opened Schedule
  import opened Histories
  import opened Recount

  function MembersOf(leaves: seq<Leave>): set<Member> {
    set l | l in leaves :: l.member
  }

  /** Moves element `i` left to its place in the sorted prefix before it. */
  method InsertInPlace(ls: array<Leave>, i: nat)
    requires i < ls.Length
    modifies ls
    ensures ls[..i + 1] == InsertByStart(old(ls[..i]), old(ls[i]))
    ensures ls[i + 1..] == old(ls[i + 1..])
  {
    ghost var sorted := ls[..i];
    var l := ls[i];
    var j := i;
    while j > 0 && ls[j - 1].start > l.start
      invariant 0 <= j <= i
      invariant forall x :: 0 <= x < j ==> ls[x] == sorted[x]
      invariant forall x :: j < x <= i ==> ls[x] == sorted[x - 1]
      invariant forall x :: j <= x < i ==> sorted[x].start > l.start
      invariant forall x :: i < x < ls.Length ==> ls[x] == old(ls[x])
    {
      ls[j] := ls[j - 1];
      j := j - 1;
    }
    ls[j] := l;
    ShiftedIsInserted(ls[..i + 1], sorted, l, j);
  }

  lemma ShiftedIsInserted(now: seq<Leave>, sorted: seq<Leave>, l: Leave, j: nat)
    requires j <= |sorted| && |now| == |sorted| + 1 && now[j] == l
    requires forall x :: 0 <= x < j ==> now[x] == sorted[x]
    requires forall x :: j < x <= |sorted| ==> now[x] == sorted[x - 1]
    requires j > 0 ==> sorted[j - 1].start <= l.start
    requires forall x :: j <= x < |sorted| ==> sorted[x].start > l.start
    ensures now == InsertByStart(sorted, l)
  {
    InsertionPoint(sorted, l, j);
  }

  lemma {:induction false} InsertionPoint(sorted: seq<Leave>, l: Leave, j: nat)
    requires j <= |sorted| && (j > 0 ==> sorted[j - 1].start <= l.start)
    requires forall x :: j <= x < |sorted| ==> sorted[x].start > l.start
    ensures InsertByStart(sorted, l) == sorted[..j] + [l] + sorted[j..]
  {
    if j < |sorted| {
      var n := |sorted| - 1;
      InsertionPoint(sorted[..n], l, j);
      assert sorted[..n][..j] == sorted[..j] && sorted[..n][j..] + [sorted[n]] == sorted[j..];
    } else {
      assert sorted[..j] == sorted && sorted[j..] == [];
    }
  }

  /** Sorts a slice of leaves by start date, in place. */
  method SortByStartDate(ls: array<Leave>)
    modifies ls
    ensures ls[..] == SortedByStart(old(ls[..]))
  {
    ghost var was := ls[..];
    for i := 0 to ls.Length
      invariant ls[..i] == SortedByStart(was[..i])
      invariant ls[i..] == was[i..]
    {
      assert ls[i] == was[i] && ls[i + 1..] == was[i + 1..] by {
        assert ls[i..][0] == was[i..][0];
        assert ls[i..][1..] == was[i..][1..];
      }
      assert was[..i + 1][..i] == was[..i];
      InsertInPlace(ls, i);
    }
    assert was[..ls.Length] == was && ls[..ls.Length] == ls[..];
  }

  /** Reports whether two cover snapshots are identical. */
  method SameCoverSet<K(==), V(==)>(a: map<K, V>, b: map<K, V>) returns (same: bool)
    ensures same <==> a == b
  {
    if |a| != |b| {
      return false;
    }
    var left := a.Keys;
    while left != {}
      invariant left <= a.Keys
      invariant forall k :: k in a && k !in left ==> k in b && b[k] == a[k]
      decreases left
    {
      var k :| k in left;
      if !(k in b && b[k] == a[k]) {
        return false;
      }
      left := left - {k};
    }
    SameSizeSubmap(a, b);
    return true;
  }

  lemma SameSizeSubmap<K, V>(a: map<K, V>, b: map<K, V>)
    requires |a| == |b| && forall k :: k in a ==> k in b && b[k] == a[k]
    ensures a == b
  {
    assert a.Keys <= b.Keys && |a.Keys| == |b.Keys|;
    assert |b.Keys - a.Keys| == |b.Keys| - |a.Keys|;
    assert b.Keys - a.Keys == {};
    forall k | k in b ensures k in a {
      assert k in b.Keys;
    }
  }

  datatype ReassignResult = ReassignResult(leavesProcessed: nat, coversChanged: nat, failures: seq<LeaveId>)

  class ScheduleMaintenance {
    const members: seq<Member>
    const holiday: HolidayChecker
    /** Which row of `r1_rotation_state` an unordered single-row query returns. */
    const anyRow: seq<Anchor> -> nat

    // database tables
    var table: Table
    var nextId: RowId
    var leaves: seq<Leave>
    var r1: seq<Anchor>
    var coverRow: Option<CoverRow>

    // in-memory cursor of a reassign pass; the zero date means that it is unset
    var reassignLastDate: Date
    var reassignLastIndex: int

    constructor (members: seq<Member>, holiday: HolidayChecker, anyRow: seq<Anchor> -> nat)
      requires Distinct(members)
      ensures this.members == members && this.holiday == holiday && this.anyRow == anyRow
      ensures Valid() && Now() == EMPTY
    {
      this.members := members;
      this.holiday := holiday;
      this.anyRow := anyRow;
      table, nextId, leaves, r1, coverRow := map[], 0, [], [], None;
      reassignLastDate, reassignLastIndex := ZERO_DATE, 0;
    }

    ghost function Now(): World
      reads this
    {
      World(table, nextId, leaves, r1, coverRow)
    }

    ghost function Crew(): Team {
      Team(members, holiday, anyRow)
    }

    ghost function Here(): Env
      reads this
    {
      EnvOf(Crew(), Now())
    }

    /** What every call needs; the members may have changed since the rows were written. */
    ghost predicate Formed()
      reads this
    {
      WellFormed(Crew(), Now())
    }

    /** Besides, the originals follow the rotation of this team. */
    ghost predicate Valid()
      reads this
    {
      Sound(Crew(), Now())
    }

    // ---------- rotation arithmetic ----------

    /** Counts working days in [from, until). */
    method WorkingDaysBetween(from: Date, until: Date) returns (count: nat)
      ensures count == |WorkingDays(holiday, from, until)|
    {
      count := 0;
      var d := from;
      assert WorkingDays(holiday, from, from) == {};
      while d < until
        invariant from <= d && (d <= until || d == from)
        invariant count == |WorkingDays(holiday, from, d)|
      {
        ghost var before := WorkingDays(holiday, from, d);
        if ShouldSkipDate(holiday, d) {
          assert WorkingDays(holiday, from, d + 1) == before;
        } else {
          assert WorkingDays(holiday, from, d + 1) == before + {d};
          count := count + 1;
        }
        d := d + 1;
      }
      if until < from {
        assert WorkingDays(holiday, from, until) == {};
      }
    }

    /** The switch every cursor read ends in. */
    method SlotFrom(last: Anchor, d: Date, teamSize: nat) returns (slot: nat)
      requires teamSize > 0
      ensures slot == SlotFor(holiday, last, d, teamSize)
    {
      if d == last.date {
        slot := ModNonNegative(last.index, teamSize);
      } else if d > last.date {
        var delta := WorkingDaysBetween(last.date, d);
        slot := ModNonNegative(last.index + delta, teamSize);
      } else {
        var delta := WorkingDaysBetween(d, last.date);
        slot := ModNonNegative(last.index - delta, teamSize);
      }
    }

    method ComputeCoverRotationIndex(d: Date, teamSize: nat) returns (slot: nat)
      requires teamSize == |members|
      ensures slot == Candidate(Here(), AdHocAnchor(coverRow), d)
    {
      if teamSize == 0 {
        return 0;
      }
      match coverRow
      case None => slot := 0;
      case Some(row) => slot := SlotFrom(row.last, d, teamSize);
    }

    method CommitCoverRotationState(d: Date, index: nat)
      modifies this`coverRow
      ensures coverRow == WriteAdHoc(old(coverRow), Anchor(d, index))
    {
      match coverRow
      case None => coverRow := Some(CoverRow(Anchor(d, index), None));
      case Some(row) => coverRow := Some(row.(last := Anchor(d, index)));
    }

    ghost function ReassignCursor(): Option<Anchor>
      reads this
    {
      if reassignLastDate == ZERO_DATE then None else Some(Anchor(reassignLastDate, reassignLastIndex))
    }

    method ComputeReassignRotationIndex(d: Date, teamSize: nat) returns (slot: nat)
      requires teamSize == |members|
      ensures slot == Candidate(Here(), ReassignCursor(), d)
    {
      if teamSize == 0 {
        return 0;
      }
      if reassignLastDate == ZERO_DATE {
        return 0;
      }
      slot := SlotFrom(Anchor(reassignLastDate, reassignLastIndex), d, teamSize);
    }

    method CommitReassignRotationState(d: Date, index: nat)
      modifies this`coverRow, this`reassignLastDate, this`reassignLastIndex
      ensures coverRow == WriteReassign(old(coverRow), Anchor(d, index))
      ensures ReassignCursor() == Committed(Source.Reassign, d, index)
    {
      reassignLastDate := d;
      reassignLastIndex := index;
      if coverRow.Some? {
        coverRow := Some(coverRow.value.(reassign := Some(Anchor(d, index))));
      }
    }

    /** `SELECT ... LIMIT 1` without an order returns some row. */
    method GetR1RotationState() returns (last: Option<Anchor>)
      ensures last == if r1 == [] then None else Some(ReadRow(Crew(), r1))
    {
      if r1 == [] {
        return None;
      }
      return Some(r1[anyRow(r1) % |r1|]);
    }

    method R1RotationIndex(d: Date, teamSize: nat) returns (slot: nat)
      requires teamSize == |members|
      ensures slot == OriginalSlot(Crew(), r1, d)
    {
      if teamSize == 0 {
        return 0;
      }
      var last := GetR1RotationState();
      match last
      case None => slot := 0;
      case Some(a) => slot := SlotFrom(a, d, teamSize);
    }

    // ---------- queries ----------

    method GetLeaveByDate(d: Date) returns (found: seq<Leave>)
      ensures MembersOf(found) == Away(Here(), d)
    {
      found := [];
      ghost var away: set<Member> := {};
      for i := 0 to |leaves|
        invariant MembersOf(found) == away
        invariant away == set j | 0 <= j < i && Views(leaves)[j].counted
                                  && Views(leaves)[j].start <= d <= Views(leaves)[j].end :: Views(leaves)[j].member
      {
        if CountsOn(leaves[i], d) {
          assert MembersOf(found + [leaves[i]]) == MembersOf(found) + {leaves[i].member};
          found := found + [leaves[i]];
          away := away + {leaves[i].member};
        }
        assert Views(leaves)[i] == View(leaves[i]);
      }
    }

    method GetLeaveByID(id: LeaveId) returns (found: Option<Leave>)
      ensures found == FindLeave(leaves, id)
    {
      var i := 0;
      assert leaves[0..] == leaves;
      while i < |leaves|
        invariant 0 <= i <= |leaves|
        invariant FindLeave(leaves, id) == FindLeave(leaves[i..], id)
      {
        if leaves[i].id == id {
          return Some(leaves[i]);
        }
        assert leaves[i..][1..] == leaves[i + 1..];
        i := i + 1;
      }
      return None;
    }

    method GetAssignmentsByDateRange(lo: Date, hi: Date) returns (rows: seq<Assignment>)
      ensures rows == RowsOf(table, lo, hi) && Lists(table, rows, lo, hi)
    {
      rows := [];
      var d := lo;
      while d <= hi
        invariant lo <= d && (d <= hi + 1 || d == lo)
        invariant rows == RowsOf(table, lo, d - 1)
      {
        var day := [];
        if Orig(d) in table {
          day := day + [Assignment(Orig(d), table[Orig(d)])];
        }
        if Cov(d) in table {
          day := day + [Assignment(Cov(d), table[Cov(d)])];
        }
        rows := rows + day;
        d := d + 1;
      }
      RowsOfListsRange(table, lo, hi);
    }

    method GetAssignmentsByDate(d: Date) returns (rows: seq<Assignment>)
      ensures Lists(table, rows, d, d)
    {
      rows := GetAssignmentsByDateRange(d, d);
    }

    /** The insert fails when a row with the same date and cover flag exists. */
    method CreateRotaAssignment(d: Date, member: Member, isCover: bool, original: Option<RowId>)
      returns (id: Option<RowId>)
      modifies this`table, this`nextId
      ensures Slot(d, isCover) in old(table) ==> id.None? && table == old(table) && nextId == old(nextId)
      ensures Slot(d, isCover) !in old(table) ==>
        && id == Some(old(nextId)) && nextId == old(nextId) + 1
        && table == old(table)[Slot(d, isCover) := Row(old(nextId), member, false, original)]
    {
      if Slot(d, isCover) in table {
        return None;
      }
      table := table[Slot(d, isCover) := Row(nextId, member, false, original)];
      id := Some(nextId);
      nextId := nextId + 1;
    }

    // ---------- choosing a cover ----------

    method FindCover(onLeave: seq<Leave>, startIndex: nat) returns (cover: Option<Member>)
      ensures var k := FirstAvailable(members, MembersOf(onLeave), startIndex, 0);
        cover == if k.Some? then Some(members[k.value]) else None
    {
      ghost var away := MembersOf(onLeave);
      for i := 0 to |members|
        invariant FirstAvailable(members, away, startIndex, 0) == FirstAvailable(members, away, startIndex, i)
      {
        var candidateIndex := Cyclic(startIndex, i, |members|);
        var candidate := members[candidateIndex];
        var isAway := false;
        for j := 0 to |onLeave|
          invariant isAway <==> exists x :: 0 <= x < j && onLeave[x].member == candidate
        {
          if onLeave[j].member == candidate {
            isAway := true;
            break;
          }
        }
        assert isAway <==> candidate in away;
        if !isAway {
          return Some(candidate);
        }
      }
      return None;
    }

    method FindMemberIndex(member: Member) returns (index: int)
      ensures index == -1 ==> member !in members
      ensures index != -1 ==> 0 <= index < |members| && members[index] == member
      ensures index >= -1
    {
      for i := 0 to |members|
        invariant forall j :: 0 <= j < i ==> members[j] != member
      {
        if members[i] == member {
          return i;
        }
      }
      return -1;
    }

    // ---------- processing one day of a leave ----------

    method EnsureOriginalAssignment(d: Date, member: Member) returns (original: Option<RowId>)
      ensures original == OriginalFor(table, d, member)
    {
      var existing := GetAssignmentsByDate(d);
      for i := 0 to |existing|
        invariant forall j :: 0 <= j < i ==> !(existing[j].row.member == member && !existing[j].slot.isCover)
      {
        if existing[i].row.member == member && !existing[i].slot.isCover {
          assert existing[i].slot == Orig(d);
          return Some(existing[i].row.id);
        }
      }
      assert Orig(d) in table ==> table[Orig(d)].member != member by {
        if Orig(d) in table { assert Assignment(Orig(d), table[Orig(d)]) in existing; }
      }
      for i := 0 to |existing|
        invariant forall j :: 0 <= j < i ==>
          !(existing[j].row.member == member && existing[j].slot.isCover && existing[j].row.original.Some?)
      {
        if existing[i].row.member == member && existing[i].slot.isCover && existing[i].row.original.Some? {
          assert existing[i].slot == Cov(d);
          return existing[i].row.original;
        }
      }
      assert Cov(d) in table && table[Cov(d)].member == member ==> table[Cov(d)].original.None? by {
        if Cov(d) in table { assert Assignment(Cov(d), table[Cov(d)]) in existing; }
      }
      return None;
    }

    method CreateCoverAssignment(d: Date, coverMember: Member, original: RowId)
      modifies this`table, this`nextId
      ensures table == WithCover(old(table), old(nextId), d, coverMember, original)
      ensures nextId == NextAfterCover(old(table), old(nextId), d)
    {
      var existing := GetAssignmentsByDate(d);
      for i := 0 to |existing|
        invariant forall j :: 0 <= j < i ==> !existing[j].slot.isCover
        invariant table == old(table) && nextId == old(nextId)
      {
        if existing[i].slot.isCover {
          assert existing[i].slot == Cov(d);
          if existing[i].row.swapped {
            return;
          }
          if existing[i].row.member == coverMember {
            assert table[Cov(d) := table[Cov(d)].(member := coverMember)] == table;
            return;
          }
          // UPDATE ... SET member_id WHERE date AND is_cover = 1 AND is_swapped = 0
          table := table[Cov(d) := table[Cov(d)].(member := coverMember)];
          return;
        }
      }
      assert Cov(d) !in table;
      var id := CreateRotaAssignment(d, coverMember, true, Some(original));
    }

    ghost function CursorOf(src: Source): Option<Anchor>
      reads this
    {
      if src == AdHoc then AdHocAnchor(coverRow) else ReassignCursor()
    }

    /** Mid-run: the state is what `w0` becomes with the progress `p`, and the run's cursor is current. */
    ghost predicate InRun(w0: World, rotor: Rotor, p: Progress)
      reads this
    {
      && Now() == AfterRun(rotor.src, w0, p)
      && CursorOf(rotor.src) == Current(rotor, p.log)
      && Distinct(members) && Shaped(table) && IdsBelow(table, nextId) && LeavesOk(leaves)
      && Views(leaves) == Views(w0.leaves)
    }

    method ComputeRotationIndex(d: Date, teamSize: nat, src: Source) returns (slot: nat)
      requires teamSize == |members|
      ensures slot == Candidate(Here(), CursorOf(src), d)
    {
      match src
      case Reassign => slot := ComputeReassignRotationIndex(d, teamSize);
      case AdHoc => slot := ComputeCoverRotationIndex(d, teamSize);
    }

    /** A cover who is not in the list leaves both cursors as they are. */
    method RecordActualCoverSlotFor(d: Date, cover: Member, src: Source)
      requires Distinct(members)
      modifies this`coverRow, this`reassignLastDate, this`reassignLastIndex
      ensures cover !in members ==> unchanged(this)
      ensures forall k :: 0 <= k < |members| && members[k] == cover ==>
        CursorOf(src) == Committed(src, d, k) &&
        Now() == old(Now()).(coverRow := WriteCursor(src, old(coverRow), Anchor(d, k)))
      ensures src == AdHoc ==> unchanged(this`reassignLastDate, this`reassignLastIndex)
    {
      var index := FindMemberIndex(cover);
      if index < 0 {
        return;
      }
      match src
      case Reassign => CommitReassignRotationState(d, index);
      case AdHoc => CommitCoverRotationState(d, index);
    }

    method UpdateLeaveStatusAssigned(id: LeaveId)
      modifies this`leaves
      ensures leaves == MarkAssigned(old(leaves), id)
    {
      leaves := MarkAssigned(leaves, id);
    }

    method ProcessLeaveDate(d: Date, leave: Leave, src: Source, ghost w0: World, ghost rotor: Rotor, ghost p: Progress)
      returns (cover: Option<Member>)
      requires InRun(w0, rotor, p) && rotor.src == src && ActiveId(w0.leaves, leave.id)
      modifies this
      ensures InRun(w0, rotor, Step(EnvOf(Crew(), w0), rotor, p, Assign(leave.id, leave.member, d)))
      ensures src == AdHoc ==> unchanged(this`reassignLastDate, this`reassignLastIndex)
    {
      ghost var env := EnvOf(Crew(), w0);
      assert Here() == env;
      assert table == p.table && nextId == p.nextId;
      if ShouldSkipDate(holiday, d) {
        return None;
      }
      var original := EnsureOriginalAssignment(d, leave.member);
      if original.None? {
        return None;
      }
      var allLeaves := GetLeaveByDate(d);
      var candidate := ComputeRotationIndex(d, |members|, src);
      cover := FindCover(allLeaves, candidate);
      if cover.None? {
        return None;
      }
      ghost var k := Pick(env, Current(rotor, p.log), d).value;
      CommitState(env, rotor, w0, p, leave.id, leave.member, d, original.value, k);
      CommitCover(d, leave.id, cover.value, original.value, src, w0, rotor, p,
                  Step(env, rotor, p, Assign(leave.id, leave.member, d)), k);
    }

    /** The writes of a successful day: the cover row, the leave's status, and the slot that covered. */
    method CommitCover(d: Date, id: LeaveId, cover: Member, original: RowId, src: Source,
                       ghost w0: World, ghost rotor: Rotor, ghost p: Progress, ghost p': Progress, ghost k: nat)
      requires InRun(w0, rotor, p) && rotor.src == src && ActiveId(w0.leaves, id)
      requires k < |members| && members[k] == cover
      requires Commits(EnvOf(Crew(), w0), rotor, w0, p, p', id, d, original, k)
      modifies this
      ensures InRun(w0, rotor, p')
      ensures src == AdHoc ==> unchanged(this`reassignLastDate, this`reassignLastIndex)
    {
      StoreCover(d, id, cover, original, w0.leaves);
      RecordActualCoverSlotFor(d, cover, src);
    }

    /** The two row writes of a successful day. */
    method StoreCover(d: Date, id: LeaveId, cover: Member, original: RowId, ghost before: seq<Leave>)
      requires LeavesOk(leaves) && Views(leaves) == Views(before) && ActiveId(before, id)
      modifies this`table, this`nextId, this`leaves
      ensures Now() == old(Now()).(table := WithCover(old(table), old(nextId), d, cover, original),
                                   nextId := NextAfterCover(old(table), old(nextId), d),
                                   leaves := MarkAssigned(old(leaves), id))
      ensures LeavesOk(leaves) && Views(leaves) == Views(before)
    {
      ActiveByView(before, leaves, id);
      MarkKeepsViews(leaves, id);
      CreateCoverAssignment(d, cover, original);
      UpdateLeaveStatusAssigned(id);
    }

    method ProcessLeaveDates(leave: Leave, src: Source, ghost w0: World, ghost rotor: Rotor, ghost p: Progress)
      requires InRun(w0, rotor, p) && rotor.src == src && ActiveId(w0.leaves, leave.id)
      modifies this
      ensures InRun(w0, rotor, Run(EnvOf(Crew(), w0), rotor, p,
                                   DayEvents(leave.id, leave.member, leave.start, leave.end)))
      ensures src == AdHoc ==> unchanged(this`reassignLastDate, this`reassignLastIndex)
    {
      ghost var env := EnvOf(Crew(), w0);
      ghost var q := p;
      var d := leave.start;
      while d <= leave.end
        invariant leave.start <= d && (d <= leave.end + 1 || d == leave.start)
        invariant q == Run(env, rotor, p, DayEvents(leave.id, leave.member, leave.start, d - 1))
        invariant InRun(w0, rotor, q)
        invariant src == AdHoc ==> unchanged(this`reassignLastDate, this`reassignLastIndex)
      {
        NextDay(env, rotor, p, leave.id, leave.member, leave.start, d);
        var _ := ProcessLeaveDate(d, leave, src, w0, rotor, q);
        q := Step(env, rotor, q, Assign(leave.id, leave.member, d));
        d := d + 1;
      }
      DaysAreOver(leave.id, leave.member, leave.start, leave.end, d);
    }

    method AssignCoversForLeave(id: LeaveId, src: Source, ghost w0: World, ghost rotor: Rotor, ghost p: Progress)
      returns (ok: bool)
      requires InRun(w0, rotor, p) && rotor.src == src
      modifies this
      ensures ok <==> FindLeave(old(leaves), id).Some?
      ensures !ok ==> InRun(w0, rotor, p)
      ensures ok ==>
        InRun(w0, rotor, Run(EnvOf(Crew(), w0), rotor, p, ActiveDays(View(FindLeave(old(leaves), id).value))))
      ensures src == AdHoc ==> unchanged(this`reassignLastDate, this`reassignLastIndex)
    {
      var leave := GetLeaveByID(id);
      if leave.None? {
        return false;
      }
      if !IsLeaveActive(leave.value.status) {
        return true;
      }
      FoundLeave(leaves, id);
      ActiveByView(leaves, w0.leaves, id);
      ProcessLeaveDates(leave.value, src, w0, rotor, p);
      return true;
    }

    // ---------- reconciling covers ----------

    method BuildLeaveIndex(lo: Date, hi: Date) returns (index: map<Date, set<Member>>)
      ensures forall d :: lo <= d <= hi ==> (if d in index then index[d] else {}) == Away(Here(), d)
    {
      index := map[];
      var d := lo;
      while d <= hi
        invariant lo <= d && (d <= hi + 1 || d == lo)
        invariant forall x :: lo <= x < d ==> (if x in index then index[x] else {}) == Away(Here(), x)
        invariant forall x :: x in index ==> lo <= x < d
      {
        var found := GetLeaveByDate(d);
        if |found| != 0 {
          var membersOnDate: set<Member> := {};
          for i := 0 to |found|
            invariant membersOnDate == MembersOf(found[..i])
          {
            assert found[..i + 1] == found[..i] + [found[i]];
            membersOnDate := membersOnDate + {found[i].member};
          }
          assert found[..|found|] == found;
          index := index[d := membersOnDate];
        }
        d := d + 1;
      }
    }

    method FindOriginalMemberID(rows: seq<Assignment>, original: RowId) returns (member: Option<Member>)
      ensures member.None? ==> forall i :: 0 <= i < |rows| ==> rows[i].row.id != original
      ensures member.Some? ==>
        exists i :: 0 <= i < |rows| && rows[i].row.id == original && rows[i].row.member == member.value
    {
      for i := 0 to |rows|
        invariant forall j :: 0 <= j < i ==> rows[j].row.id != original
      {
        if rows[i].row.id == original {
          return Some(rows[i].row.member);
        }
      }
      return None;
    }

    method DeleteRotaAssignment(id: RowId)
      modifies this`table
      ensures table == map s | s in old(table) && old(table)[s].id != id :: old(table)[s]
    {
      table := map s | s in table && table[s].id != id :: table[s];
    }

    /** The member of the original row a cover points at, found among the rows of the range. */
    lemma OriginalOf(t: Table, rows: seq<Assignment>, lo: Date, hi: Date, i: nat, member: Option<Member>)
      requires Shaped(t) && i < |rows| && rows[i].slot.isCover
      requires Lists(t, rows, lo, hi)
      requires rows[i].row.original.Some?
      requires member.None? ==> forall j :: 0 <= j < |rows| ==> rows[j].row.id != rows[i].row.original.value
      requires member.Some? ==>
        exists j :: 0 <= j < |rows| && rows[j].row.id == rows[i].row.original.value
                    && rows[j].row.member == member.value
      ensures Orig(rows[i].slot.date) in t && member == Some(t[Orig(rows[i].slot.date)].member)
    {
      var s := Orig(rows[i].slot.date);
      assert s in t && t[s].id == rows[i].row.original.value;
      assert Assignment(s, t[s]) in rows;
      if member.Some? {
        var j :| 0 <= j < |rows| && rows[j].row.id == rows[i].row.original.value && rows[j].row.member == member.value;
        assert rows[j].slot == s;
      }
    }

    /** The row of a slot once the first `i` listed rows have been checked. */
    ghost function Checked(env: Env, t: Table, rows: seq<Assignment>, i: nat, s: Slot): Option<Row>
      requires i <= |rows|
    {
      if s.isCover && Stale(env, t, s.date) && (exists j :: 0 <= j < i && rows[j].slot == s) then None else At(t, s)
    }

    lemma CheckedDelete(env: Env, t: Table, now: Table, next: Table, rows: seq<Assignment>, i: nat)
      requires Shaped(t) && i < |rows| && rows[i].slot in t && t[rows[i].slot] == rows[i].row
      requires rows[i].slot.isCover && Stale(env, t, rows[i].slot.date)
      requires forall s: Slot :: At(now, s) == Checked(env, t, rows, i, s)
      requires next == map s | s in now && now[s].id != rows[i].row.id :: now[s]
      ensures forall s: Slot :: At(next, s) == Checked(env, t, rows, i + 1, s)
    {
      forall s: Slot ensures At(next, s) == Checked(env, t, rows, i + 1, s) {
        assert At(now, s) == Checked(env, t, rows, i, s);
        assert s in now ==> s in t && now[s] == t[s];
        assert s in t && s != rows[i].slot ==> t[s].id != rows[i].row.id;
      }
    }

    lemma CheckedKeep(env: Env, t: Table, now: Table, rows: seq<Assignment>, i: nat)
      requires i < |rows| && !(rows[i].slot.isCover && Stale(env, t, rows[i].slot.date))
      requires forall s: Slot :: At(now, s) == Checked(env, t, rows, i, s)
      ensures forall s: Slot :: At(now, s) == Checked(env, t, rows, i + 1, s)
    {
      forall s: Slot ensures At(now, s) == Checked(env, t, rows, i + 1, s) {
        assert At(now, s) == Checked(env, t, rows, i, s);
      }
    }

    lemma CheckedAll(env: Env, t: Table, now: Table, rows: seq<Assignment>, lo: Date, hi: Date)
      requires forall j :: 0 <= j < |rows| ==> rows[j].slot in t && lo <= rows[j].slot.date <= hi
      requires forall s :: s in t && lo <= s.date <= hi ==> Assignment(s, t[s]) in rows
      requires forall s: Slot :: At(now, s) == Checked(env, t, rows, |rows|, s)
      ensures now == Reconciled(env, t, lo, hi)
    {
      var want := Reconciled(env, t, lo, hi);
      forall s: Slot ensures At(now, s) == At(want, s) {
        assert At(now, s) == Checked(env, t, rows, |rows|, s);
        if s in t && lo <= s.date <= hi {
          assert Assignment(s, t[s]) in rows;
        }
      }
      EqualBySlot(now, want);
    }

    method ReconcileCoversForDateRange(lo: Date, hi: Date)
      requires Shaped(table)
      modifies this`table
      ensures table == Reconciled(old(Here()), old(table), lo, hi)
    {
      ghost var t0 := table;
      ghost var env := Here();
      var leaveIndex := BuildLeaveIndex(lo, hi);
      var rows := GetAssignmentsByDateRange(lo, hi);
      for i := 0 to |rows|
        invariant forall s: Slot :: At(table, s) == Checked(env, t0, rows, i, s)
      {
        if !rows[i].slot.isCover || rows[i].row.original.None? {
          CheckedKeep(env, t0, table, rows, i);
          continue;
        }
        var originalMember := FindOriginalMemberID(rows, rows[i].row.original.value);
        OriginalOf(t0, rows, lo, hi, i, originalMember);
        if originalMember.None? {
          continue;
        }
        var d := rows[i].slot.date;
        var onLeave := d in leaveIndex && originalMember.value in leaveIndex[d];
        assert onLeave <==> originalMember.value in Away(env, d);
        assert rows[i].slot == Cov(d);
        if !onLeave {
          ghost var now := table;
          DeleteRotaAssignment(rows[i].row.id);
          CheckedDelete(env, t0, now, table, rows, i);
        } else {
          CheckedKeep(env, t0, table, rows, i);
        }
      }
      CheckedAll(env, t0, table, rows, lo, hi);
    }

    /** Reconciling as the first event of a leave's processing. */
    method ReconcileInRun(lo: Date, hi: Date, ghost w0: World, ghost rotor: Rotor, ghost p: Progress)
      requires InRun(w0, rotor, p)
      modifies this`table
      ensures InRun(w0, rotor, Run(EnvOf(Crew(), w0), rotor, p, [Event.Sweep(lo, hi)]))
    {
      ghost var env := EnvOf(Crew(), w0);
      assert Here() == env;
      SweepOnly(env, rotor, p, lo, hi);
      SweepKeepsIds(env, p.table, p.nextId, lo, hi);
      ReconcileCoversForDateRange(lo, hi);
    }

    method HandleLeaveChange(id: LeaveId) returns (ok: bool)
      requires Formed()
      modifies this
      ensures Formed() && (old(Valid()) ==> Valid())
      ensures (Now(), ok) == LeaveChange(Crew(), old(Now()), id)
      ensures unchanged(this`reassignLastDate, this`reassignLastIndex)
    {
      ghost var w0 := Now();
      LeaveChangeKeepsForm(Crew(), w0, id);
      var leave := GetLeaveByID(id);
      if leave.None? {
        return false;
      }
      FoundLeave(leaves, id);
      ghost var l := View(leave.value);
      ghost var rotor := Rotor(AdHoc, AdHocAnchor(coverRow));
      ghost var start := Progress(table, nextId, []);
      ReconcileInRun(leave.value.start, leave.value.end, w0, rotor, start);
      LeaveEventsSplit(Here(), rotor, start, l);
      ok := AssignCoversForLeave(id, AdHoc, w0, rotor, Run(Here(), rotor, start, [Event.Sweep(l.start, l.end)]));
    }

    // ---------- the reassign pass ----------

    method SnapshotLeaveCovers(l: Leave) returns (covers: map<Date, Member>)
      ensures covers == CoversIn(table, l.start, l.end)
    {
      covers := map[];
      NoCoversInNoDays(table, l.start, l.end);
      if l.end < l.start {
        return;
      }
      var rows := GetAssignmentsByDateRange(l.start, l.end);
      for i := 0 to |rows|
        invariant covers == CoversOf(rows[..i])
      {
        NextRowCovers(rows, i);
        if rows[i].slot.isCover {
          covers := covers[rows[i].slot.date := rows[i].row.member];
        }
      }
      assert rows[..|rows|] == rows;
      CoversOfRange(table, rows, l.start, l.end);
    }

    /** `l` is the copy read when the pass began. A leave that is gone by now is swept, and is an error. */
    method ReassignHandleLeaveChange(l: Leave, ghost w0: World, ghost rotor: Rotor, ghost p: Progress)
      returns (ok: bool)
      requires InRun(w0, rotor, p) && rotor.src == Source.Reassign
      modifies this
      ensures ok <==> FindLeave(old(leaves), l.id).Some?
      ensures var swept := Run(EnvOf(Crew(), w0), rotor, p, [Event.Sweep(l.start, l.end)]);
        if !ok then InRun(w0, rotor, swept)
        else InRun(w0, rotor, Run(EnvOf(Crew(), w0), rotor, swept,
                                  ActiveDays(View(FindLeave(old(leaves), l.id).value))))
    {
      ghost var env := EnvOf(Crew(), w0);
      ReconcileInRun(l.start, l.end, w0, rotor, p);
      ok := AssignCoversForLeave(l.id, Source.Reassign, w0, rotor, Run(env, rotor, p, [Event.Sweep(l.start, l.end)]));
    }

    /** Every leave, in chronological order. */
    method ChronologicalLeaves() returns (sorted: seq<Leave>)
      ensures sorted == SortedByStart(leaves)
    {
      var all := leaves;
      var slice := new Leave[|all|](i requires 0 <= i < |all| => all[i]);
      assert slice[..] == all;
      SortByStartDate(slice);
      sorted := slice[..];
    }

    /** One turn of the pass: process a leave, and report whether its own covers moved. */
    method ReassignLeave(l: Leave, ghost w0: World, ghost rotor: Rotor, ghost p: Progress, ghost p': Progress)
      returns (ok: bool, changed: bool)
      requires InRun(w0, rotor, p) && rotor.src == Source.Reassign
      requires LeavesOk(w0.leaves) && l in SortedByStart(w0.leaves)
      requires p' == Run(EnvOf(Crew(), w0), rotor, p, LeaveEvents(View(l)))
      modifies this
      ensures ok && InRun(w0, rotor, p')
      ensures changed <==> CoversIn(p.table, l.start, l.end) != CoversIn(p'.table, l.start, l.end)
    {
      LeaveIsFound(w0.leaves, leaves, l);
      LeaveEventsSplit(EnvOf(Crew(), w0), rotor, p, View(l));
      var before := SnapshotLeaveCovers(l);
      ok := ReassignHandleLeaveChange(l, w0, rotor, p);
      if !ok {
        return false, false;
      }
      var after := SnapshotLeaveCovers(l);
      var same := SameCoverSet(before, after);
      changed := !same;
    }

    /** The loop of the pass. */
    method ReassignInOrder(sorted: seq<Leave>, ghost w0: World) returns (result: ReassignResult)
      requires WellFormed(Crew(), w0) && sorted == SortedByStart(w0.leaves)
      requires InRun(w0, FRESH, Progress(w0.table, w0.nextId, []))
      modifies this
      ensures InRun(w0, FRESH, PassOf(Crew(), w0))
      ensures result == ReassignResult(|sorted|,
                ChangedLeaves(EnvOf(Crew(), w0), FRESH, Progress(w0.table, w0.nextId, []), Order(w0)), [])
    {
      ghost var env := EnvOf(Crew(), w0);
      ghost var order := Order(w0);
      ghost var start := Progress(w0.table, w0.nextId, []);
      var processed: nat, moved: nat, failures := 0, 0, [];
      for i := 0 to |sorted|
        invariant InRun(w0, FRESH, UpTo(env, FRESH, start, order, i))
        invariant processed == i && failures == []
        invariant moved == ChangedLeaves(env, FRESH, start, order[..i])
      {
        var l := sorted[i];
        NextLeave(env, FRESH, start, order, i);
        var ok, changed := ReassignLeave(l, w0, FRESH, UpTo(env, FRESH, start, order, i),
                                         UpTo(env, FRESH, start, order, i + 1));
        if !ok {
          failures := failures + [l.id];
          continue;
        }
        processed := processed + 1;
        if changed {
          moved := moved + 1;
        }
      }
      assert order[..|sorted|] == order;
      return ReassignResult(processed, moved, failures);
    }

    method ReassignCovers() returns (result: ReassignResult)
      requires Formed()
      modifies this
      ensures Formed() && (old(Valid()) ==> Valid())
      ensures Now() == ReassignAll(Crew(), old(Now()))
      ensures reassignLastDate == ZERO_DATE && reassignLastIndex == 0
      ensures result == ReassignResult(|old(leaves)|,
                ChangedLeaves(old(Here()), FRESH, Progress(old(table), old(nextId), []), Order(old(Now()))), [])
    {
      ghost var w0 := Now();
      ReassignKeepsForm(Crew(), w0);
      SortedLength(w0.leaves);
      var sorted := ChronologicalLeaves();
      reassignLastDate, reassignLastIndex := ZERO_DATE, 0;
      result := ReassignInOrder(sorted, w0);
      reassignLastDate, reassignLastIndex := ZERO_DATE, 0;
    }

    lemma SortedLength(ls: seq<Leave>)
      ensures |SortedByStart(ls)| == |ls|
    {
      SortedByStartSorts(ls);
      assert |multiset(SortedByStart(ls))| == |multiset(ls)|;
    }

    lemma LeaveIsFound(before: seq<Leave>, now: seq<Leave>, l: Leave)
      requires Views(now) == Views(before) && LeavesOk(before) && l in SortedByStart(before)
      ensures FindLeave(now, l.id).Some? && View(FindLeave(now, l.id).value) == View(l)
    {
      SortedElements(before);
      FindLeaveByView(now, before, l.id);
      OnlyLeaveWithId(before, l);
    }

    // ---------- generating the schedule ----------

    method DetermineCoveringMember(original: Member, onLeave: seq<Leave>, d: Date) returns (covering: Member)
      requires Distinct(members) && MembersOf(onLeave) == Away(Here(), d)
      modifies this`coverRow
      ensures var k := CoverFor(Crew(), old(Now()), d, original);
        && covering == (if k.Some? then members[k.value] else original)
        && coverRow == (if k.Some? then WriteAdHoc(old(coverRow), Anchor(d, k.value)) else old(coverRow))
    {
      var isAway := false;
      for i := 0 to |onLeave|
        invariant isAway <==> exists j :: 0 <= j < i && onLeave[j].member == original
      {
        if onLeave[i].member == original {
          isAway := true;
        }
      }
      assert isAway <==> original in MembersOf(onLeave);
      if !isAway {
        return original;
      }
      var candidate := ComputeCoverRotationIndex(d, |members|);
      var cover := FindCover(onLeave, candidate);
      if cover.None? {
        return original;
      }
      var index := FindMemberIndex(cover.value);
      if index >= 0 {
        CommitCoverRotationState(d, index);
      }
      return cover.value;
    }

    method CreateAssignment(d: Date, r1Index: nat, original: Member, covering: Member) returns (ok: bool)
      modifies this`table, this`nextId, this`r1
      ensures Written(table, nextId, r1, ok) ==
        Write(old(table), old(nextId), old(r1), d, r1Index, original,
              if covering == original then None else Some(covering))
    {
      if covering != original {
        var id := CreateRotaAssignment(d, original, false, None);
        if id.None? {
          return false;
        }
        r1 := r1 + [Anchor(d, r1Index)];
        var coverId := CreateRotaAssignment(d, covering, true, id);
        return coverId.Some?;
      }
      var id := CreateRotaAssignment(d, covering, false, None);
      if id.None? {
        return false;
      }
      r1 := r1 + [Anchor(d, r1Index)];
      return true;
    }

    method ProcessDate(d: Date) returns (ok: bool)
      requires Formed() && |members| > 0
      modifies this
      ensures Formed() && (Now(), ok) == Schedule.ProcessDate(Crew(), old(Now()), d)
      ensures unchanged(this`reassignLastDate, this`reassignLastIndex)
    {
      ghost var w0 := Now();
      ProcessDateKeepsForm(Crew(), w0, d);
      if IsWeekend(d) {
        return true;
      }
      if holiday(d) {
        return true;
      }
      var onLeave := GetLeaveByDate(d);
      var r1Index := R1RotationIndex(d, |members|);
      var original := members[r1Index];
      var covering := DetermineCoveringMember(original, onLeave, d);
      ProcessDateByParts(Crew(), w0, d);
      CoverIsSomebodyElse(Crew(), w0, d, original);
      ok := CreateAssignment(d, r1Index, original, covering);
    }

    /** The loop of a generation and of a regeneration. */
    method ProcessEachDate(lo: Date, hi: Date) returns (ok: bool)
      requires Formed() && |members| > 0
      modifies this
      ensures Formed() && (Now(), ok) == Generate(Crew(), old(Now()), lo, hi)
    {
      ghost var w0 := Now();
      var d := lo;
      while d <= hi
        invariant lo <= d && (d <= hi + 1 || d == lo)
        invariant Formed() && (Now(), true) == Generate(Crew(), w0, lo, d - 1)
      {
        ok := ProcessDate(d);
        if !ok {
          GenerateStops(Crew(), w0, lo, d, hi);
          return false;
        }
        d := d + 1;
      }
      GenerateEmpty(Crew(), w0, lo, hi);
      return true;
    }

    method GenerateSchedule(lo: Date, hi: Date) returns (ok: bool)
      requires Formed()
      modifies this
      ensures Formed() && (old(Valid()) ==> Valid())
      ensures members == [] ==> !ok && Now() == old(Now())
      ensures members != [] ==> (Now(), ok) == Generate(Crew(), old(Now()), lo, hi)
    {
      if |members| == 0 {
        return false;
      }
      PlanningCarries(Crew(), Now(), lo, hi);
      ok := ProcessEachDate(lo, hi);
    }

    method GetDatesWithAssignments(lo: Date, hi: Date) returns (dates: set<Date>)
      ensures dates == BusyDates(table, lo, hi)
    {
      var rows := GetAssignmentsByDateRange(lo, hi);
      dates := {};
      for i := 0 to |rows|
        invariant dates == set j | 0 <= j < i :: rows[j].slot.date
      {
        dates := dates + {rows[i].slot.date};
      }
      forall d ensures d in dates <==> d in BusyDates(table, lo, hi) {
        if d in BusyDates(table, lo, hi) {
          var s :| s in table && lo <= s.date <= hi && s.date == d;
          assert Assignment(s, table[s]) in rows;
        }
      }
    }

    method GenerateAssignmentsForMissingDates(lo: Date, hi: Date, busy: set<Date>) returns (created: bool, ok: bool)
      requires Formed() && |members| > 0
      modifies this
      ensures Formed() && Filled(Now(), created, ok) == FillGaps(Crew(), old(Now()), lo, hi, busy)
    {
      ghost var w0 := Now();
      created := false;
      var d := lo;
      while d < hi + 1
        invariant lo <= d && (d <= hi + 1 || d == lo)
        invariant Formed() && Filled(Now(), created, true) == FillGaps(Crew(), w0, lo, d - 1, busy)
      {
        if d in busy || IsWeekend(d) || holiday(d) {
          FillSkip(Crew(), w0, lo, d, busy);
        } else {
          ok := FillDate(d, w0, lo, busy, created);
          if !ok {
            FillStops(Crew(), w0, lo, d, hi, busy);
            return;
          }
          created := true;
        }
        d := d + 1;
      }
      FillEmpty(Crew(), w0, lo, hi, busy);
      ok := true;
    }

    /** One date of the gap-filling loop that needs rows. */
    method FillDate(d: Date, ghost w0: World, ghost lo: Date, ghost busy: set<Date>, ghost created: bool)
      returns (ok: bool)
      requires Formed() && |members| > 0 && lo <= d && d !in busy && !ShouldSkipDate(holiday, d)
      requires Filled(Now(), created, true) == FillGaps(Crew(), w0, lo, d - 1, busy)
      modifies this
      ensures Formed() && Filled(Now(), created || ok, ok) == FillGaps(Crew(), w0, lo, d, busy)
    {
      FillStep(Crew(), w0, lo, d, busy, Filled(Now(), created, true));
      ok := ProcessDate(d);
    }

    method GenerateMissingDays(lo: Date, hi: Date) returns (created: bool, ok: bool)
      requires Formed()
      modifies this
      ensures Formed() && (old(Valid()) ==> Valid())
      ensures Filled(Now(), created, ok) == MissingDays(Crew(), old(Now()), lo, hi)
    {
      PlanningCarries(Crew(), Now(), lo, hi);
      var busy := GetDatesWithAssignments(lo, hi);
      if |members| == 0 {
        return false, false;
      }
      created, ok := GenerateAssignmentsForMissingDates(lo, hi, busy);
    }

    method EnsureSchedule(today: Date) returns (created: bool, ok: bool)
      requires Formed()
      modifies this
      ensures Formed() && (old(Valid()) ==> Valid())
      ensures Filled(Now(), created, ok) == Ensure(Crew(), old(Now()), today)
    {
      var endDate := today + DAYS_AHEAD;
      SweepKeepsForm(Crew(), Now(), today, endDate);
      ReconcileCoversForDateRange(today, endDate);
      created, ok := GenerateMissingDays(today, endDate);
    }

    /** After a member was added, removed or reordered: the tables are whatever earlier teams left. */
    method HandleTeamChange(today: Date) returns (ok: bool)
      requires Formed()
      modifies this
      ensures Formed() && (old(Valid()) ==> Valid())
      ensures Now() == Ensure(Crew(), old(Now()), today).world
      ensures ok <==> members != []
      ensures WindowDone(Crew(), old(Now()), Ensure(Crew(), old(Now()), today), today, today + DAYS_AHEAD)
    {
      EnsureIsIdempotent(Crew(), Now(), today);
      var _, ensured := EnsureSchedule(today);
      return ensured;
    }

    method RegenerateSchedule(lo: Date, hi: Date) returns (count: nat, ok: bool)
      requires Formed()
      modifies this
      ensures Formed() && (old(Valid()) ==> Valid())
      ensures (Now(), ok) == Regenerate(Crew(), old(Now()), lo, hi)
      ensures count == if ok then |SlotsIn(table, lo, hi)| else 0
    {
      if |members| == 0 {
        return 0, false;
      }
      PlanningCarries(Crew(), Now(), lo, hi);
      ClearingKeepsForm(Crew(), Now(), lo, hi);
      table := Cleared(table, lo, hi);
      ok := ProcessEachDate(lo, hi);
      if !ok {
        return 0, false;
      }
      var rows := GetAssignmentsByDateRange(lo, hi);
      RowsOfCounts(table, lo, hi);
      return |rows|, true;
    }

    method HandleLeaveDelete(id: LeaveId) returns (ok: bool)
      requires Formed()
      modifies this
      ensures Formed() && (old(Valid()) ==> Valid())
      ensures (Now(), ok) == LeaveDelete(Crew(), old(Now()), id)
    {
      var leave := GetLeaveByID(id);
      if leave.None? {
        return false;
      }
      var startDate, endDate := leave.value.start, leave.value.end;
      WithoutKeepsIds(leaves, id);
      leaves := Without(leaves, id);
      SweepKeepsForm(Crew(), Now(), startDate, endDate);
      ReconcileCoversForDateRange(startDate, endDate);
      var _, filled := GenerateMissingDays(startDate, endDate);
      return filled;
    }
  }
}
