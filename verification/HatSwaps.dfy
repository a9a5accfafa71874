/** HAT-day swaps: the request log, the guarded acceptance, and the replay that repairs rows.

A swap's id is its position in the log, so the log is in creation order. Members and rows are
identified by number. Every state change of the store is a value function here; `SwapStore`
at the end is the mutable store, proved equal to them.
 */
module HatSwaps {
  import opened Wrappers
  import Roster

  type Member = Roster.Member
  type RowId = Roster.RowId
  type SwapId = nat

  datatype Row = Row(date: int, member: Member, swapped: bool)
  datatype Status = Pending | Accepted | Rejected | Cancelled
  datatype Swap = Swap(reqRow: RowId, tgtRow: RowId, requester: Member, target: Member, status: Status)

  type Rows = map<RowId, Row>
  datatype Store = Store(rows: Rows, swaps: seq<Swap>)

  datatype Error =
    | TargetSelf | AssignmentNotFound | NotOwner | TargetNotOwned | AssignmentBusy
    | NotFound | NotPending | DatePassed

  // ---------- the two writes of a swap ----------

  /** Sets the owner of a row and marks it, if the row exists. */
  function Give(rows: Rows, r: RowId, m: Member): Rows {
    if r in rows then rows[r := rows[r].(member := m, swapped := true)] else rows
  }

  /** The captured pair, written crosswise. */
  function Flip(rows: Rows, s: Swap): Rows {
    Give(Give(rows, s.reqRow, s.target), s.tgtRow, s.requester)
  }

  predicate Touches(s: Swap, r: RowId) {
    s.reqRow == r || s.tgtRow == r
  }

  predicate Overlap(s: Swap, s': Swap) {
    Touches(s, s'.reqRow) || Touches(s, s'.tgtRow)
  }

  // ---------- operations ----------

  predicate Busy(swaps: seq<Swap>, r: RowId) {
    exists i :: 0 <= i < |swaps| && swaps[i].status == Pending && Touches(swaps[i], r)
  }

  /** Validation at the storage boundary. */
  function Validated(rows: Rows, reqRow: RowId, tgtRow: RowId, requester: Member, target: Member): Result<(), Error> {
    if requester == target then Err(TargetSelf)
    else if reqRow !in rows then Err(AssignmentNotFound)
    else if rows[reqRow].member != requester then Err(NotOwner)
    else if tgtRow !in rows then Err(AssignmentNotFound)
    else if rows[tgtRow].member != target then Err(TargetNotOwned)
    else Ok(())
  }

  /** Validation, then the insert with its pending-swap trigger. */
  function Create(st: Store, reqRow: RowId, tgtRow: RowId, requester: Member, target: Member)
    : (Store, Result<SwapId, Error>)
  {
    var valid := Validated(st.rows, reqRow, tgtRow, requester, target);
    if valid.Err? then (st, Err(valid.error))
    else if Busy(st.swaps, reqRow) || Busy(st.swaps, tgtRow) then (st, Err(AssignmentBusy))
    else (st.(swaps := st.swaps + [Swap(reqRow, tgtRow, requester, target, Pending)]), Ok(|st.swaps|))
  }

  /** What an acceptance carries from its reads into its transaction. */
  datatype Plan = Plan(id: SwapId, swap: Swap)

  /** The checks of an acceptance on the two rows it reads. */
  function Loadable(rows: Rows, s: Swap, today: int): Result<(), Error> {
    if s.reqRow !in rows || s.tgtRow !in rows then Err(AssignmentNotFound)
    else if s.requester == s.target then Err(TargetSelf)
    else if rows[s.reqRow].member == rows[s.tgtRow].member then Err(TargetSelf)
    else if rows[s.reqRow].date < today || rows[s.tgtRow].date < today then Err(DatePassed)
    else Ok(())
  }

  /** The reads and checks of an acceptance, outside the transaction. */
  function ReadForAccept(st: Store, id: SwapId, today: int): Result<Plan, Error> {
    if id >= |st.swaps| then Err(NotFound)
    else
      var s := st.swaps[id];
      if s.status != Pending then Err(NotPending)
      else
        var loaded := Loadable(st.rows, s, today);
        if loaded.Err? then Err(loaded.error) else Ok(Plan(id, s))
  }

  /** The transaction: it rolls back unless the swap is still pending. */
  function CommitAccept(st: Store, plan: Plan): (Store, Result<(), Error>) {
    if plan.id >= |st.swaps| || st.swaps[plan.id].status != Pending then (st, Err(NotPending))
    else (Store(Flip(st.rows, plan.swap), st.swaps[plan.id := st.swaps[plan.id].(status := Accepted)]), Ok(()))
  }

  /** The guarded status update behind reject and cancel. */
  function Close(st: Store, id: SwapId, status: Status): (Store, Result<(), Error>) {
    if id >= |st.swaps| || st.swaps[id].status != Pending then (st, Err(NotPending))
    else (st.(swaps := st.swaps[id := st.swaps[id].(status := status)]), Ok(()))
  }

  predicate Expired(rows: Rows, s: Swap, today: int) {
    s.status == Pending && s.reqRow in rows && s.tgtRow in rows &&
    (rows[s.reqRow].date < today || rows[s.tgtRow].date < today)
  }

  function Expire(st: Store, today: int): Store {
    st.(swaps := seq(|st.swaps|, i requires 0 <= i < |st.swaps| =>
      if Expired(st.rows, st.swaps[i], today) then st.swaps[i].(status := Cancelled) else st.swaps[i]))
  }

  /** The swaps among the first `n` that an expiry closes. */
  ghost function ExpiredBefore(st: Store, n: nat, today: int): set<int>
    requires n <= |st.swaps|
  {
    set i | 0 <= i < n && Expired(st.rows, st.swaps[i], today)
  }

  lemma ExpiredStep(st: Store, n: nat, today: int)
    requires n < |st.swaps|
    ensures |ExpiredBefore(st, 0, today)| == 0
    ensures |ExpiredBefore(st, n + 1, today)| == |ExpiredBefore(st, n, today)|
         + if Expired(st.rows, st.swaps[n], today) then 1 else 0
  {
    assert ExpiredBefore(st, 0, today) == {};
    assert ExpiredBefore(st, n + 1, today) ==
      ExpiredBefore(st, n, today) + if Expired(st.rows, st.swaps[n], today) then {n} else {};
  }

  // ---------- interleaved calls ----------

  /** Acceptances in flight are keyed by call; reads and transactions of different calls interleave freely. */
  datatype System = System(store: Store, inFlight: map<nat, Plan>)

  datatype Step =
    | DoCreate(reqRow: RowId, tgtRow: RowId, requester: Member, target: Member)
    | DoRead(call: nat, id: SwapId, today: int)
    | DoCommit(call: nat)
    | DoClose(id: SwapId, rejected: bool)   // reject or cancel
    | DoExpire(today: int)

  function Next(sys: System, step: Step): System {
    match step
    case DoCreate(r, t, mr, mt) => sys.(store := Create(sys.store, r, t, mr, mt).0)
    case DoRead(call, id, today) =>
      var plan := ReadForAccept(sys.store, id, today);
      if plan.Ok? && call !in sys.inFlight then sys.(inFlight := sys.inFlight[call := plan.value]) else sys
    case DoCommit(call) =>
      if call in sys.inFlight then System(CommitAccept(sys.store, sys.inFlight[call]).0, sys.inFlight - {call}) else sys
    case DoClose(id, rejected) => sys.(store := Close(sys.store, id, if rejected then Rejected else Cancelled).0)
    case DoExpire(today) => sys.(store := Expire(sys.store, today))
  }

  function Run(sys: System, steps: seq<Step>): System {
    if steps == [] then sys else Next(Run(sys, steps[..|steps| - 1]), steps[|steps| - 1])
  }

  /** A database before the first swap request. */
  function Fresh(rows: Rows): System {
    System(Store(rows, []), map[])
  }

  // ---------- the invariant ----------

  /** Whether a swap still has both of its rows. */
  predicate Live(rows: Rows, s: Swap) {
    s.reqRow in rows && s.tgtRow in rows
  }

  /** Whom a swap gives one of its rows. */
  function Receiver(s: Swap, r: RowId): Member {
    if s.tgtRow == r then s.requester else s.target
  }

  /** What the last accepted swap on a row wrote there. */
  function LastWriter(swaps: seq<Swap>, r: RowId): Option<Member> {
    if swaps == [] then None
    else
      var s := swaps[|swaps| - 1];
      if s.status == Accepted && Touches(s, r) then Some(Receiver(s, r)) else LastWriter(swaps[..|swaps| - 1], r)
  }

  ghost predicate SwapOk(st: Store, i: nat)
    requires i < |st.swaps|
  {
    var s := st.swaps[i];
    && s.reqRow != s.tgtRow && s.requester != s.target
    && (s.status == Pending ==> Live(st.rows, s) && forall j :: i < j < |st.swaps| ==> !Overlap(s, st.swaps[j]))
  }

  /** What holds also while other calls change and delete rows that no accepted swap has marked. */
  ghost predicate StoreOk(st: Store) {
    && (forall i :: 0 <= i < |st.swaps| ==> SwapOk(st, i))
    && (forall r :: r in st.rows && LastWriter(st.swaps, r).Some? ==>
          st.rows[r].member == LastWriter(st.swaps, r).value && st.rows[r].swapped)
  }

  ghost predicate PairOk(st: Store, i: nat)
    requires i < |st.swaps|
  {
    var s := st.swaps[i];
    && Live(st.rows, s)
    && (s.status == Pending ==>
          st.rows[s.reqRow].member == s.requester && st.rows[s.tgtRow].member == s.target)
  }

  /** What runs of swaps alone keep besides: no row is lost, and pending pairs own their rows. */
  ghost predicate PairsOk(st: Store) {
    forall i :: 0 <= i < |st.swaps| ==> PairOk(st, i)
  }

  ghost predicate SystemOk(sys: System) {
    && StoreOk(sys.store)
    && forall c :: c in sys.inFlight ==>
         var p := sys.inFlight[c];
         p.id < |sys.store.swaps| && p.swap == sys.store.swaps[p.id].(status := Pending)
  }

  /** Closing or creating swaps writes no row and adds no accepted swap. */
  lemma {:induction false} SameWriters(a: seq<Swap>, b: seq<Swap>, r: RowId)
    requires |a| <= |b|
    requires forall i :: 0 <= i < |a| ==> (a[i] == b[i] || (a[i].status != Accepted && b[i].status != Accepted))
    requires forall i :: |a| <= i < |b| ==> b[i].status != Accepted
    ensures LastWriter(b, r) == LastWriter(a, r)
    decreases |b|
  {
    if b != [] {
      var n := |b| - 1;
      if |a| == |b| {
        SameWriters(a[..n], b[..n], r);
      } else {
        SameWriters(a, b[..n], r);
      }
    }
  }

  lemma CreateKeepsOk(st: Store, r: RowId, t: RowId, mr: Member, mt: Member)
    requires StoreOk(st)
    ensures StoreOk(Create(st, r, t, mr, mt).0)
  {
    var (st', res) := Create(st, r, t, mr, mt);
    if res.Ok? {
      var n := |st.swaps|;
      forall i | 0 <= i < |st'.swaps| ensures SwapOk(st', i) {
        if i < n {
          assert SwapOk(st, i);
          if st.swaps[i].status == Pending {
            assert !Touches(st.swaps[i], r) && !Touches(st.swaps[i], t);
          }
        }
      }
      forall x ensures LastWriter(st'.swaps, x) == LastWriter(st.swaps, x) {
        SameWriters(st.swaps, st'.swaps, x);
      }
    }
  }

  lemma CloseKeepsOk(st: Store, st': Store)
    requires StoreOk(st) && st'.rows == st.rows && |st'.swaps| == |st.swaps|
    requires forall i :: 0 <= i < |st.swaps| ==>
      st'.swaps[i] == st.swaps[i] ||
      (st.swaps[i].status == Pending && st'.swaps[i].status in {Rejected, Cancelled} &&
       st'.swaps[i].(status := Pending) == st.swaps[i])
    ensures StoreOk(st')
  {
    forall i | 0 <= i < |st'.swaps| ensures SwapOk(st', i) {
      assert SwapOk(st, i);
      if st'.swaps[i].status == Pending {
        forall j | i < j < |st'.swaps| ensures !Overlap(st'.swaps[i], st'.swaps[j]) {
          assert !Overlap(st.swaps[i], st.swaps[j]);
        }
      }
    }
    forall x ensures LastWriter(st'.swaps, x) == LastWriter(st.swaps, x) {
      SameWriters(st.swaps, st'.swaps, x);
    }
  }

  /** Accepting swap `i`, which nothing created later touches, makes it the last writer of its two rows. */
  lemma {:induction false} AcceptedWriter(swaps: seq<Swap>, i: nat, r: RowId)
    requires i < |swaps| && swaps[i].status == Pending
    requires forall j :: i < j < |swaps| ==> !Overlap(swaps[i], swaps[j])
    ensures var s := swaps[i];
      LastWriter(swaps[i := s.(status := Accepted)], r) ==
        if Touches(s, r) then Some(Receiver(s, r)) else LastWriter(swaps, r)
  {
    var s := swaps[i];
    var after := swaps[i := s.(status := Accepted)];
    var n := |swaps| - 1;
    if i < n {
      assert !Overlap(s, swaps[n]);
      assert after[..n] == swaps[..n][i := s.(status := Accepted)];
      assert forall j :: i < j < n ==> swaps[..n][j] == swaps[j];
      AcceptedWriter(swaps[..n], i, r);
    } else {
      assert after[..n] == swaps[..n];
    }
  }

  lemma AcceptKeepsOk(st: Store, id: SwapId)
    requires StoreOk(st) && id < |st.swaps| && st.swaps[id].status == Pending
    ensures StoreOk(Store(Flip(st.rows, st.swaps[id]), st.swaps[id := st.swaps[id].(status := Accepted)]))
  {
    var s := st.swaps[id];
    var st' := Store(Flip(st.rows, s), st.swaps[id := s.(status := Accepted)]);
    assert SwapOk(st, id);
    forall i | 0 <= i < |st'.swaps| ensures SwapOk(st', i) {
      assert SwapOk(st, i);
      if i != id && st.swaps[i].status == Pending {
        assert !Overlap(st.swaps[i], s) by {
          if i < id { assert !Overlap(st.swaps[i], st.swaps[id]); } else { assert !Overlap(st.swaps[id], st.swaps[i]); }
        }
        forall j | i < j < |st'.swaps| ensures !Overlap(st'.swaps[i], st'.swaps[j]) {
          assert !Overlap(st.swaps[i], st.swaps[j]);
        }
      }
    }
    forall r | r in st'.rows && LastWriter(st'.swaps, r).Some?
      ensures st'.rows[r].member == LastWriter(st'.swaps, r).value && st'.rows[r].swapped
    {
      AcceptedWriter(st.swaps, id, r);
    }
  }

  /** Every interleaving of creates, reads, commits, rejects, cancels and expiries keeps the invariant. */
  lemma NextKeepsOk(sys: System, step: Step)
    requires SystemOk(sys)
    ensures SystemOk(Next(sys, step))
  {
    match step
    case DoCreate(r, t, mr, mt) => CreateKeepsOk(sys.store, r, t, mr, mt);
    case DoRead(call, id, today) =>
    case DoCommit(call) =>
      if call in sys.inFlight {
        var p := sys.inFlight[call];
        if sys.store.swaps[p.id].status == Pending {
          assert p.swap == sys.store.swaps[p.id];
          AcceptKeepsOk(sys.store, p.id);
        }
      }
    case DoClose(id, rejected) => CloseKeepsOk(sys.store, Next(sys, step).store);
    case DoExpire(today) => CloseKeepsOk(sys.store, Next(sys, step).store);
  }

  lemma NextKeepsPairs(sys: System, step: Step)
    requires SystemOk(sys) && PairsOk(sys.store)
    ensures PairsOk(Next(sys, step).store) && Next(sys, step).store.rows.Keys == sys.store.rows.Keys
  {
    var (st, st') := (sys.store, Next(sys, step).store);
    if step.DoCommit? && step.call in sys.inFlight && st.swaps[sys.inFlight[step.call].id].status == Pending {
      var id := sys.inFlight[step.call].id;
      assert PairOk(st, id) && SwapOk(st, id) && sys.inFlight[step.call].swap == st.swaps[id];
      forall i | 0 <= i < |st'.swaps| ensures PairOk(st', i) {
        assert PairOk(st, i) && SwapOk(st, i);
        if i < id {
          assert st.swaps[i].status == Pending ==> !Overlap(st.swaps[i], st.swaps[id]);
        } else if i > id {
          assert !Overlap(st.swaps[id], st.swaps[i]);
        }
      }
    } else {
      forall i | 0 <= i < |st'.swaps| ensures PairOk(st', i) {
        assert i < |st.swaps| ==> PairOk(st, i);
      }
    }
  }

  lemma {:induction false} RunKeepsOk(rows: Rows, steps: seq<Step>)
    ensures SystemOk(Run(Fresh(rows), steps)) && PairsOk(Run(Fresh(rows), steps).store)
    ensures Run(Fresh(rows), steps).store.rows.Keys == rows.Keys
  {
    if steps != [] {
      RunKeepsOk(rows, steps[..|steps| - 1]);
      NextKeepsOk(Run(Fresh(rows), steps[..|steps| - 1]), steps[|steps| - 1]);
      NextKeepsPairs(Run(Fresh(rows), steps[..|steps| - 1]), steps[|steps| - 1]);
    }
  }

  /** A pending swap's captured pair owns its two rows, and no row is in two pending swaps. */
  lemma PendingPairsAreLive(rows: Rows, steps: seq<Step>, i: nat, j: nat)
    requires var st := Run(Fresh(rows), steps).store;
      i < |st.swaps| && j < |st.swaps| && st.swaps[i].status == Pending
    ensures var st := Run(Fresh(rows), steps).store;
      var s := st.swaps[i];
      && s.reqRow in st.rows && s.tgtRow in st.rows && s.reqRow != s.tgtRow
      && st.rows[s.reqRow].member == s.requester && st.rows[s.tgtRow].member == s.target
      && (i != j && st.swaps[j].status == Pending ==> !Overlap(s, st.swaps[j]))
  {
    var st := Run(Fresh(rows), steps).store;
    RunKeepsOk(rows, steps);
    assert SwapOk(st, i) && SwapOk(st, j) && PairOk(st, i);
    if i < j {
      assert !Overlap(st.swaps[i], st.swaps[j]);
    } else if j < i && st.swaps[j].status == Pending {
      assert !Overlap(st.swaps[j], st.swaps[i]);
    }
  }

  // ---------- atomicity ----------

  /** In one step, a swap becomes accepted exactly when its transaction commits, and then its two rows, and
      only they, take the captured pair; in every other step no row changes. */
  lemma StepIsAtomic(sys: System, step: Step)
    requires SystemOk(sys)
    ensures var (st, st') := (sys.store, Next(sys, step).store);
      && |st.swaps| <= |st'.swaps|
      && (forall i :: 0 <= i < |st.swaps| ==>
            st'.swaps[i].(status := Pending) == st.swaps[i].(status := Pending) &&
            (st.swaps[i].status != Pending ==> st'.swaps[i] == st.swaps[i]))
      && (forall i :: |st.swaps| <= i < |st'.swaps| ==> st'.swaps[i].status == Pending)
      && (if exists i: nat :: Accepts(st, st', i)
          then exists i: nat :: Accepts(st, st', i) && st'.rows == Flip(st.rows, st.swaps[i])
                 && forall j: nat :: Accepts(st, st', j) ==> j == i
          else st'.rows == st.rows)
  {
    var (st, st') := (sys.store, Next(sys, step).store);
    if step.DoCommit? && step.call in sys.inFlight {
      var p := sys.inFlight[step.call];
      if st.swaps[p.id].status == Pending {
        assert Accepts(st, st', p.id);
        assert p.swap == st.swaps[p.id];
      }
    }
  }

  ghost predicate Accepts(st: Store, st': Store, i: nat) {
    i < |st.swaps| && i < |st'.swaps| && st.swaps[i].status == Pending && st'.swaps[i].status == Accepted
  }

  /** How many steps of a run flipped the rows of swap `i`. */
  ghost function Flips(sys: System, steps: seq<Step>, i: nat): nat {
    if steps == [] then 0
    else
      var before := Run(sys, steps[..|steps| - 1]);
      Flips(sys, steps[..|steps| - 1], i) + if Accepts(before.store, Run(sys, steps).store, i) then 1 else 0
  }

  /** However the phases of any number of calls interleave, a swap leaves pending at most once, and it
      flipped its rows exactly once if it ended accepted and never otherwise. */
  lemma {:induction false} FlippedIffAccepted(rows: Rows, steps: seq<Step>, i: nat)
    ensures var st := Run(Fresh(rows), steps).store;
      Flips(Fresh(rows), steps, i) == if i < |st.swaps| && st.swaps[i].status == Accepted then 1 else 0
  {
    if steps != [] {
      var prefix := steps[..|steps| - 1];
      FlippedIffAccepted(rows, prefix, i);
      RunKeepsOk(rows, prefix);
      StepIsAtomic(Run(Fresh(rows), prefix), steps[|steps| - 1]);
    }
  }

  lemma StepKeepsClosed(sys: System, step: Step, i: nat)
    requires i < |sys.store.swaps| && sys.store.swaps[i].status != Pending
    ensures i < |Next(sys, step).store.swaps| && Next(sys, step).store.swaps[i] == sys.store.swaps[i]
  {
  }

  /** Once a swap has left pending, no later step changes it. */
  lemma {:induction false} ClosedForGood(rows: Rows, steps: seq<Step>, k: nat, i: nat)
    requires k <= |steps|
    requires var st := Run(Fresh(rows), steps[..k]).store; i < |st.swaps| && st.swaps[i].status != Pending
    ensures var (st, st') := (Run(Fresh(rows), steps[..k]).store, Run(Fresh(rows), steps).store);
      i < |st'.swaps| && st'.swaps[i] == st.swaps[i]
  {
    if k < |steps| {
      var n := |steps| - 1;
      assert steps[..n][..k] == steps[..k];
      ClosedForGood(rows, steps[..n], k, i);
      StepKeepsClosed(Run(Fresh(rows), steps[..n]), steps[n], i);
    } else {
      assert steps[..k] == steps;
    }
  }

  // ---------- what each call refuses ----------

  lemma RunSnoc(sys: System, xs: seq<Step>, a: Step)
    ensures Run(sys, xs + [a]) == Next(Run(sys, xs), a)
  {
    assert (xs + [a])[..|xs|] == xs;
  }

  /** Why an acceptance is refused before its transaction, case by case, also where scheduler calls came in between. */
  lemma ReadRefusals(st: Store, id: SwapId, today: int)
    requires StoreOk(st)
    ensures var r := ReadForAccept(st, id, today);
      && (r == Err(NotFound) <==> id >= |st.swaps|)
      && (r == Err(NotPending) <==> id < |st.swaps| && st.swaps[id].status != Pending)
      && (id < |st.swaps| && st.swaps[id].status == Pending ==>
            var s := st.swaps[id];
            && s.reqRow in st.rows && s.tgtRow in st.rows
            && (var (a, b) := (st.rows[s.reqRow], st.rows[s.tgtRow]);
                && (r == Err(TargetSelf) <==> a.member == b.member)
                && (r == Err(DatePassed) <==> a.member != b.member && (a.date < today || b.date < today))
                && (r == Ok(Plan(id, s)) <==> a.member != b.member && a.date >= today && b.date >= today)))
  {
    if id < |st.swaps| { assert SwapOk(st, id); }
  }

  /** The two rows of a swap exist, have different owners, and lie on days that have not passed. */
  ghost predicate Exchangeable(rows: Rows, s: Swap, today: int) {
    && s.reqRow in rows && s.tgtRow in rows && rows[s.reqRow].member != rows[s.tgtRow].member
    && rows[s.reqRow].date >= today && rows[s.tgtRow].date >= today
  }

  /** In every reachable state a read takes up an acceptance exactly when the swap is pending and can be exchanged on
      the day of the read. */
  lemma ReadsBeginIff(rows: Rows, steps: seq<Step>, call: nat, id: SwapId, today: int)
    requires call !in Run(Fresh(rows), steps).inFlight
    ensures var (sys, sys') := (Run(Fresh(rows), steps), Run(Fresh(rows), steps + [DoRead(call, id, today)]));
      && sys'.store == sys.store && sys'.inFlight - {call} == sys.inFlight
      && (call in sys'.inFlight <==>
            id < |sys.store.swaps| && sys.store.swaps[id].status == Pending
            && Exchangeable(sys.store.rows, sys.store.swaps[id], today))
      && (call in sys'.inFlight ==> sys'.inFlight[call] == Plan(id, sys.store.swaps[id]))
  {
    var st := Run(Fresh(rows), steps).store;
    RunKeepsOk(rows, steps);
    RunSnoc(Fresh(rows), steps, DoRead(call, id, today));
    ReadRefusals(st, id, today);
    if ReadForAccept(st, id, today).Ok? { assert ReadForAccept(st, id, today) == Ok(Plan(id, st.swaps[id])); }
  }

  /** Step `k` is a read of swap `i` that found it pending and exchangeable. */
  ghost predicate ReadOf(rows: Rows, steps: seq<Step>, k: nat, i: nat)
    requires k < |steps|
  {
    var st := Run(Fresh(rows), steps[..k]).store;
    && steps[k].DoRead? && steps[k].id == i
    && i < |st.swaps| && st.swaps[i].status == Pending && Exchangeable(st.rows, st.swaps[i], steps[k].today)
  }

  ghost predicate WasRead(rows: Rows, steps: seq<Step>, i: nat) {
    exists k: nat :: k < |steps| && ReadOf(rows, steps, k, i)
  }

  lemma ReadStays(rows: Rows, steps: seq<Step>, i: nat)
    requires steps != [] && WasRead(rows, steps[..|steps| - 1], i)
    ensures WasRead(rows, steps, i)
  {
    var n := |steps| - 1;
    var k: nat :| k < n && ReadOf(rows, steps[..n], k, i);
    assert steps[..n][..k] == steps[..k];
    assert ReadOf(rows, steps, k, i);
  }

  lemma {:induction false} PlansWereRead(rows: Rows, steps: seq<Step>)
    ensures var sys := Run(Fresh(rows), steps);
      && (forall c :: c in sys.inFlight ==> WasRead(rows, steps, sys.inFlight[c].id))
      && (forall i :: 0 <= i < |sys.store.swaps| && sys.store.swaps[i].status == Accepted ==> WasRead(rows, steps, i))
  {
    if steps != [] {
      var n := |steps| - 1;
      var (sys, sys') := (Run(Fresh(rows), steps[..n]), Run(Fresh(rows), steps));
      PlansWereRead(rows, steps[..n]);
      RunKeepsOk(rows, steps[..n]);
      forall c | c in sys'.inFlight ensures WasRead(rows, steps, sys'.inFlight[c].id) {
        if c in sys.inFlight && sys'.inFlight[c] == sys.inFlight[c] {
          ReadStays(rows, steps, sys.inFlight[c].id);
        } else {
          ReadRefusals(sys.store, steps[n].id, steps[n].today);
          assert ReadOf(rows, steps, n, steps[n].id);
        }
      }
      forall i | 0 <= i < |sys'.store.swaps| && sys'.store.swaps[i].status == Accepted ensures WasRead(rows, steps, i) {
        AcceptedByCommit(sys, steps[n], i);
        ReadStays(rows, steps, i);
      }
    }
  }

  lemma AcceptedByCommit(sys: System, step: Step, i: nat)
    requires SystemOk(sys) && i < |Next(sys, step).store.swaps| && Next(sys, step).store.swaps[i].status == Accepted
    ensures i < |sys.store.swaps|
    ensures sys.store.swaps[i].status != Accepted ==>
      step.DoCommit? && step.call in sys.inFlight && sys.inFlight[step.call].id == i
  {
  }

  /** A swap that ends up accepted was pending at some read on whose day neither of its rows had passed. */
  lemma AcceptedWasRead(rows: Rows, steps: seq<Step>, i: nat)
    requires var st := Run(Fresh(rows), steps).store; i < |st.swaps| && st.swaps[i].status == Accepted
    ensures exists k: nat :: k < |steps| && ReadOf(rows, steps, k, i)
  {
    PlansWereRead(rows, steps);
    assert WasRead(rows, steps, i);
  }

  /** The transaction of a call accepts exactly the swap that the call has read, if that is still pending, and changes
      no other. */
  lemma CommitAcceptsIff(rows: Rows, steps: seq<Step>, call: nat, i: nat)
    ensures var (sys, sys') := (Run(Fresh(rows), steps), Run(Fresh(rows), steps + [DoCommit(call)]));
      && sys'.inFlight == sys.inFlight - {call} && |sys'.store.swaps| == |sys.store.swaps|
      && (Accepts(sys.store, sys'.store, i) <==>
            && call in sys.inFlight && sys.inFlight[call].id == i
            && i < |sys.store.swaps| && sys.store.swaps[i].status == Pending)
      && (i < |sys.store.swaps| && !Accepts(sys.store, sys'.store, i) ==> sys'.store.swaps[i] == sys.store.swaps[i])
  {
    RunKeepsOk(rows, steps);
    RunSnoc(Fresh(rows), steps, DoCommit(call));
  }

  /** Why a request is refused, case by case. Only pending swaps make a row busy. */
  lemma CreateRefusals(st: Store, r: RowId, t: RowId, mr: Member, mt: Member)
    ensures var (st', res) := Create(st, r, t, mr, mt);
      var owned := mr != mt && r in st.rows && t in st.rows && st.rows[r].member == mr && st.rows[t].member == mt;
      var busy := exists i :: 0 <= i < |st.swaps| && st.swaps[i].status == Pending
                              && {st.swaps[i].reqRow, st.swaps[i].tgtRow} * {r, t} != {};
      && (res == Err(TargetSelf) <==> mr == mt)
      && (res == Err(AssignmentNotFound) <==>
            mr != mt && (r !in st.rows || (st.rows[r].member == mr && t !in st.rows)))
      && (res == Err(NotOwner) <==> mr != mt && r in st.rows && st.rows[r].member != mr)
      && (res == Err(TargetNotOwned) <==>
            mr != mt && r in st.rows && st.rows[r].member == mr && t in st.rows && st.rows[t].member != mt)
      && (res == Err(AssignmentBusy) <==> owned && busy)
      && (res == Ok(|st.swaps|) <==> owned && !busy)
      && st' == (if owned && !busy then st.(swaps := st.swaps + [Swap(r, t, mr, mt, Pending)]) else st)
  {
    forall i | 0 <= i < |st.swaps|
      ensures Touches(st.swaps[i], r) || Touches(st.swaps[i], t) <==>
              {st.swaps[i].reqRow, st.swaps[i].tgtRow} * {r, t} != {}
    {
      var s := st.swaps[i];
      if Touches(s, r) { assert r in {s.reqRow, s.tgtRow} * {r, t}; }
      if Touches(s, t) { assert t in {s.reqRow, s.tgtRow} * {r, t}; }
    }
  }

  /** Rejecting or cancelling closes a pending swap, writes no row, and frees its two rows: the same request can be
      made again. */
  lemma ClosingFrees(rows: Rows, steps: seq<Step>, i: nat, rejected: bool)
    requires var st := Run(Fresh(rows), steps).store; i < |st.swaps| && st.swaps[i].status == Pending
    ensures var (st, st') := (Run(Fresh(rows), steps).store, Run(Fresh(rows), steps + [DoClose(i, rejected)]).store);
      var s := st.swaps[i];
      && st'.rows == st.rows
      && st'.swaps == st.swaps[i := s.(status := if rejected then Rejected else Cancelled)]
      && Create(st', s.reqRow, s.tgtRow, s.requester, s.target).1 == Ok(|st'.swaps|)
  {
    var st := Run(Fresh(rows), steps).store;
    var s := st.swaps[i];
    RunSnoc(Fresh(rows), steps, DoClose(i, rejected));
    var st' := Run(Fresh(rows), steps + [DoClose(i, rejected)]).store;
    PendingPairsAreLive(rows, steps, i, i);
    RunKeepsOk(rows, steps);
    assert SwapOk(st, i);
    forall j | 0 <= j < |st'.swaps| && st'.swaps[j].status == Pending
      ensures !Touches(st'.swaps[j], s.reqRow) && !Touches(st'.swaps[j], s.tgtRow)
    {
      PendingPairsAreLive(rows, steps, i, j);
    }
  }

  lemma ExpiresIff(st: Store, today: int, i: nat)
    requires i < |st.swaps| && Live(st.rows, st.swaps[i])
    ensures var (st', s) := (Expire(st, today), st.swaps[i]);
      && st'.rows == st.rows && |st'.swaps| == |st.swaps|
      && st'.swaps[i] ==
         (if s.status == Pending && (st.rows[s.reqRow].date < today || st.rows[s.tgtRow].date < today)
          then s.(status := Cancelled) else s)
  {
  }

  lemma FreshPairCanBeRead(st: Store, today: int, i: nat)
    requires StoreOk(st) && PairsOk(st) && i < |st.swaps| && st.swaps[i].status == Pending
    requires Live(st.rows, st.swaps[i])
    requires st.rows[st.swaps[i].reqRow].date >= today && st.rows[st.swaps[i].tgtRow].date >= today
    ensures ReadForAccept(st, i, today) == Ok(Plan(i, st.swaps[i]))
  {
    assert PairOk(st, i) && SwapOk(st, i);
    ReadRefusals(st, i, today);
  }

  /** Nothing else can be closed. */
  lemma CloseNeedsPending(st: Store, id: SwapId, status: Status)
    requires id >= |st.swaps| || st.swaps[id].status != Pending
    ensures Close(st, id, status) == (st, Err(NotPending))
  {
  }

  /** What a cleanup does to swap `i`: it is cancelled if it is pending and one of its days has passed, and left alone
      otherwise; if it is still pending, it can be accepted on that day. */
  ghost predicate Expires(st: Store, st': Store, today: int, i: nat)
    requires i < |st.swaps| && Live(st.rows, st.swaps[i])
  {
    var s := st.swaps[i];
    && st'.rows == st.rows && |st'.swaps| == |st.swaps|
    && st'.swaps[i] ==
       (if s.status == Pending && (st.rows[s.reqRow].date < today || st.rows[s.tgtRow].date < today)
        then s.(status := Cancelled) else s)
    && (st'.swaps[i].status == Pending ==> ReadForAccept(st', i, today) == Ok(Plan(i, s)))
  }

  lemma ExpiryOn(st: Store, today: int, i: nat)
    requires i < |st.swaps| && Live(st.rows, st.swaps[i])
    requires StoreOk(Expire(st, today)) && PairsOk(Expire(st, today))
    ensures Expires(st, Expire(st, today), today, i)
  {
    ExpiresIff(st, today, i);
    if Expire(st, today).swaps[i].status == Pending { FreshPairCanBeRead(Expire(st, today), today, i); }
  }

  /** In every reachable state a cleanup cancels exactly the pending swaps one of whose days has passed. */
  lemma ExpiryCancelsIff(rows: Rows, steps: seq<Step>, today: int, i: nat)
    requires i < |Run(Fresh(rows), steps).store.swaps|
    ensures var (st, st') := (Run(Fresh(rows), steps).store, Run(Fresh(rows), steps + [DoExpire(today)]).store);
      Live(st.rows, st.swaps[i]) && Expires(st, st', today, i)
  {
    var st := Run(Fresh(rows), steps).store;
    RunKeepsOk(rows, steps);
    assert PairOk(st, i);
    RunKeepsOk(rows, steps + [DoExpire(today)]);
    RunSnoc(Fresh(rows), steps, DoExpire(today));
    ExpiryOn(st, today, i);
  }

  // ---------- load conservation ----------

  ghost function HeldBy(rows: Rows, m: Member): set<RowId> {
    set r | r in rows && rows[r].member == m
  }

  ghost predicate SameLoad(rows: Rows, rows': Rows) {
    forall m :: |HeldBy(rows', m)| == |HeldBy(rows, m)|
  }

  /** The captured pair owns the two rows, either way round. */
  ghost predicate OwnsPair(rows: Rows, s: Swap)
    requires Live(rows, s)
  {
    var (a, b) := (rows[s.reqRow].member, rows[s.tgtRow].member);
    (a == s.requester && b == s.target) || (a == s.target && b == s.requester)
  }

  function Times(m: Member, a: Member, b: Member): nat {
    (if a == m then 1 else 0) + (if b == m then 1 else 0)
  }

  lemma HeldAfter(rows: Rows, s: Swap, m: Member)
    requires Live(rows, s) && s.reqRow != s.tgtRow
    ensures |HeldBy(Flip(rows, s), m)| + Times(m, rows[s.reqRow].member, rows[s.tgtRow].member)
         == |HeldBy(rows, m)| + Times(m, s.target, s.requester)
  {
    FlipWrites(rows, s);
    var rest := HeldBy(rows, m) - {s.reqRow, s.tgtRow};
    HeldIs(rows, s, m, rest);
    HeldIs(Flip(rows, s), s, m, rest);
  }

  lemma HeldIs(rows: Rows, s: Swap, m: Member, rest: set<RowId>)
    requires Live(rows, s) && s.reqRow != s.tgtRow && rest == HeldBy(rows, m) - {s.reqRow, s.tgtRow}
    ensures |HeldBy(rows, m)| == |rest| + Times(m, rows[s.reqRow].member, rows[s.tgtRow].member)
  {
    var (a, b) := (rows[s.reqRow].member, rows[s.tgtRow].member);
    var one := AddedIf(rest, s.reqRow, a == m);
    assert HeldBy(rows, m) == AddedIf(one, s.tgtRow, b == m);
  }

  function AddedIf(held: set<RowId>, r: RowId, added: bool): (now: set<RowId>)
    requires r !in held
    ensures |now| == |held| + if added then 1 else 0
    ensures forall x :: x in now <==> x in held || (added && x == r)
  {
    if added then held + {r} else held
  }

  /** Writing a captured pair changes nobody's number of assignments exactly when the pair owns the two rows. */
  lemma FlipKeepsLoadIff(rows: Rows, s: Swap)
    requires Live(rows, s) && s.reqRow != s.tgtRow
    ensures SameLoad(rows, Flip(rows, s)) <==> OwnsPair(rows, s)
  {
    forall m { HeldAfter(rows, s, m); }
    if SameLoad(rows, Flip(rows, s)) {
      var (a, b) := (rows[s.reqRow].member, rows[s.tgtRow].member);
      assert forall m :: m in {a, b, s.requester, s.target} ==> |HeldBy(Flip(rows, s), m)| == |HeldBy(rows, m)|;
      assert Times(a, a, b) == Times(a, s.target, s.requester) && Times(b, a, b) == Times(b, s.target, s.requester);
    }
  }

  /** Swapping never changes how many assignments anybody holds. */
  lemma {:induction false} LoadIsConserved(rows: Rows, steps: seq<Step>)
    ensures var now := Run(Fresh(rows), steps).store.rows; now.Keys == rows.Keys && SameLoad(rows, now)
  {
    RunKeepsOk(rows, steps);
    if steps != [] {
      var prefix := steps[..|steps| - 1];
      LoadIsConserved(rows, prefix);
      RunKeepsOk(rows, prefix);
      StepKeepsLoad(Run(Fresh(rows), prefix), steps[|steps| - 1]);
    }
  }

  lemma StepKeepsLoad(sys: System, step: Step)
    requires SystemOk(sys) && PairsOk(sys.store)
    ensures SameLoad(sys.store.rows, Next(sys, step).store.rows)
  {
    StepIsAtomic(sys, step);
    var (st, st') := (sys.store, Next(sys, step).store);
    if exists i: nat :: Accepts(st, st', i) {
      var i: nat :| Accepts(st, st', i) && st'.rows == Flip(st.rows, st.swaps[i]);
      assert SwapOk(st, i) && PairOk(st, i);
      FlipKeepsLoadIff(st.rows, st.swaps[i]);
    }
  }

  // ---------- reconciliation ----------

  datatype Field = MemberId | IsSwapped
  datatype FieldChange = FieldChange(field: Field, oldValue: nat, newValue: nat)
  datatype Drift = Drift(id: SwapId, requester: seq<FieldChange>, target: seq<FieldChange>)

  function DriftOf(row: Row, expected: Member): seq<FieldChange> {
    (if row.member != expected then [FieldChange(MemberId, row.member, expected)] else [])
    + (if !row.swapped then [FieldChange(IsSwapped, 0, 1)] else [])
  }

  /** One accepted swap against the live rows; with `apply`, drifted rows take the captured pair. */
  function Reconcile(st: Store, id: SwapId, apply: bool): (Store, Result<Drift, Error>) {
    if id >= |st.swaps| then (st, Err(NotFound))
    else
      var s := st.swaps[id];
      if s.status != Accepted then (st, Err(NotPending))
      else if s.reqRow !in st.rows || s.tgtRow !in st.rows then (st, Err(AssignmentNotFound))
      else
        var d := Drift(id, DriftOf(st.rows[s.reqRow], s.target), DriftOf(st.rows[s.tgtRow], s.requester));
        if !apply || (d.requester == [] && d.target == []) then (st, Ok(d))
        else (st.(rows := Flip(st.rows, s)), Ok(d))
  }

  /** Why a repair is refused, case by case, and what it reports: nothing for a row that the receiver owns and that is
      marked, otherwise the owner if it is somebody else, and the mark if it is missing. A dry run writes nothing. */
  lemma ReconcileReports(st: Store, id: SwapId, apply: bool)
    ensures var (st', r) := Reconcile(st, id, apply);
      && (r == Err(NotFound) <==> id >= |st.swaps|)
      && (r == Err(NotPending) <==> id < |st.swaps| && st.swaps[id].status != Accepted)
      && (r == Err(AssignmentNotFound) <==>
            id < |st.swaps| && st.swaps[id].status == Accepted && !Live(st.rows, st.swaps[id]))
      && (r.Ok? <==> id < |st.swaps| && st.swaps[id].status == Accepted && Live(st.rows, st.swaps[id]))
      && (r.Ok? ==>
            var s := st.swaps[id];
            && r.value.id == id
            && Shows(r.value.requester, st.rows[s.reqRow], s.target)
            && Shows(r.value.target, st.rows[s.tgtRow], s.requester))
      && (!apply || r.Err? ==> st' == st)
  {
  }

  ghost predicate Shows(changes: seq<FieldChange>, row: Row, receiver: Member) {
    && (changes == [] <==> row.member == receiver && row.swapped)
    && (forall c :: c in changes <==>
          || (c == FieldChange(MemberId, row.member, receiver) && row.member != receiver)
          || (c == FieldChange(IsSwapped, 0, 1) && !row.swapped))
  }

  /** Applying one accepted swap writes its captured pair, drift or no drift; again, it finds no drift. */
  lemma ReconcileWritesPair(st: Store, id: SwapId)
    requires id < |st.swaps| && st.swaps[id].status == Accepted
    requires st.swaps[id].reqRow in st.rows && st.swaps[id].tgtRow in st.rows
    requires st.swaps[id].reqRow != st.swaps[id].tgtRow
    ensures Reconcile(st, id, true).0 == st.(rows := Flip(st.rows, st.swaps[id]))
    ensures Reconcile(st, id, true).1.Ok?
    ensures var st' := Reconcile(st, id, true).0;
      Reconcile(st', id, true) == (st', Ok(Drift(id, [], [])))
  {
    var s := st.swaps[id];
    if DriftOf(st.rows[s.reqRow], s.target) == [] && DriftOf(st.rows[s.tgtRow], s.requester) == [] {
      assert st.rows[s.reqRow].(member := s.target, swapped := true) == st.rows[s.reqRow];
      assert Flip(st.rows, s) == st.rows;
    }
  }

  /** The accepted swaps among the first `n`, in creation order. */
  function AcceptedIds(swaps: seq<Swap>, n: nat): seq<SwapId>
    requires n <= |swaps|
  {
    if n == 0 then []
    else AcceptedIds(swaps, n - 1) + if swaps[n - 1].status == Accepted then [n - 1] else []
  }

  /** The bulk repair over a list of ids. */
  function ReconcileList(st: Store, ids: seq<SwapId>): Store {
    if ids == [] then st else Reconcile(ReconcileList(st, ids[..|ids| - 1]), ids[|ids| - 1], true).0
  }

  function ReconcileAll(st: Store): Store {
    ReconcileList(st, AcceptedIds(st.swaps, |st.swaps|))
  }

  /** What the last id of a list that touches a row writes there. A swap that has lost a row is skipped. */
  function LastInList(st: Store, ids: seq<SwapId>, r: RowId): Option<Member> {
    if ids == [] then None
    else
      var i := ids[|ids| - 1];
      if i < |st.swaps| && Touches(st.swaps[i], r) && Live(st.rows, st.swaps[i])
      then Some(Receiver(st.swaps[i], r))
      else LastInList(st, ids[..|ids| - 1], r)
  }

  ghost predicate AllAccepted(swaps: seq<Swap>, ids: seq<SwapId>) {
    forall k :: 0 <= k < |ids| ==> ids[k] < |swaps| && swaps[ids[k]].status == Accepted
  }

  /** The row after a list of swaps has been written over it. */
  function Rewritten(row: Row, writer: Option<Member>): Row {
    match writer
    case None => row
    case Some(m) => row.(member := m, swapped := true)
  }

  lemma {:induction false} ReconcileListWrites(st: Store, ids: seq<SwapId>)
    requires StoreOk(st) && AllAccepted(st.swaps, ids)
    ensures var st' := ReconcileList(st, ids);
      && st'.swaps == st.swaps && st'.rows.Keys == st.rows.Keys
      && forall r :: r in st.rows ==> st'.rows[r] == Rewritten(st.rows[r], LastInList(st, ids, r))
  {
    if ids != [] {
      var n := |ids| - 1;
      assert forall k :: 0 <= k < n ==> ids[..n][k] == ids[k];
      ReconcileListWrites(st, ids[..n]);
      assert SwapOk(st, ids[n]);
      var before := ReconcileList(st, ids[..n]);
      if Live(st.rows, st.swaps[ids[n]]) {
        ReconcileWritesPair(before, ids[n]);
        FlipWrites(before.rows, st.swaps[ids[n]]);
      }
    }
  }

  lemma FlipWrites(rows: Rows, s: Swap)
    requires s.reqRow in rows && s.tgtRow in rows
    ensures Flip(rows, s).Keys == rows.Keys
    ensures forall r :: r in rows ==>
      Flip(rows, s)[r] == (if !Touches(s, r) then rows[r]
                           else rows[r].(member := Receiver(s, r), swapped := true))
  {
  }

  lemma {:induction false} AcceptedIdsAreAccepted(swaps: seq<Swap>, n: nat)
    requires n <= |swaps|
    ensures AllAccepted(swaps, AcceptedIds(swaps, n))
  {
    if n > 0 { AcceptedIdsAreAccepted(swaps, n - 1); }
  }

  lemma LastInListSnoc(st: Store, ids: seq<SwapId>, i: SwapId, r: RowId)
    requires i < |st.swaps|
    ensures LastInList(st, ids + [i], r) ==
      if Touches(st.swaps[i], r) && Live(st.rows, st.swaps[i]) then Some(Receiver(st.swaps[i], r))
      else LastInList(st, ids, r)
  {
    assert (ids + [i])[..|ids|] == ids;
  }

  /** What the last accepted swap on a row that has lost none of its rows wrote there. */
  function LastLive(rows: Rows, swaps: seq<Swap>, r: RowId): Option<Member> {
    if swaps == [] then None
    else
      var s := swaps[|swaps| - 1];
      if s.status == Accepted && Touches(s, r) && Live(rows, s) then Some(Receiver(s, r))
      else LastLive(rows, swaps[..|swaps| - 1], r)
  }

  lemma LastLiveSnoc(rows: Rows, swaps: seq<Swap>, n: nat, r: RowId)
    requires n < |swaps|
    ensures LastLive(rows, swaps[..n + 1], r) ==
      if swaps[n].status == Accepted && Touches(swaps[n], r) && Live(rows, swaps[n]) then Some(Receiver(swaps[n], r))
      else LastLive(rows, swaps[..n], r)
  {
    assert swaps[..n + 1][..n] == swaps[..n];
  }

  lemma {:induction false} ListIsLog(st: Store, n: nat, r: RowId)
    requires n <= |st.swaps|
    ensures LastInList(st, AcceptedIds(st.swaps, n), r) == LastLive(st.rows, st.swaps[..n], r)
  {
    if n > 0 {
      ListIsLog(st, n - 1, r);
      LastLiveSnoc(st.rows, st.swaps, n - 1, r);
      var ids := AcceptedIds(st.swaps, n - 1);
      if st.swaps[n - 1].status == Accepted {
        LastInListSnoc(st, ids, n - 1, r);
      } else {
        assert ids + [] == ids;
      }
    }
  }

  /** The last listed swap of each row gives the row to its present owner. */
  ghost predicate NamesOwners(st: Store, ids: seq<SwapId>) {
    forall r :: r in st.rows && LastInList(st, ids, r).Some? ==> LastInList(st, ids, r).value == st.rows[r].member
  }

  lemma ReplayIff(st: Store, ids: seq<SwapId>)
    requires StoreOk(st) && AllAccepted(st.swaps, ids)
    ensures ReconcileList(st, ids) == st <==> NamesOwners(st, ids)
  {
    ReconcileListWrites(st, ids);
    var st' := ReconcileList(st, ids);
    if NamesOwners(st, ids) {
      forall r | r in st.rows ensures st'.rows[r] == st.rows[r] {
        if LastInList(st, ids, r).Some? {
          ListedRowIsMarked(st, ids, r);
        }
      }
      assert st'.rows == st.rows;
    }
  }

  lemma {:induction false} ListedRowIsMarked(st: Store, ids: seq<SwapId>, r: RowId)
    requires StoreOk(st) && AllAccepted(st.swaps, ids) && r in st.rows && LastInList(st, ids, r).Some?
    ensures st.rows[r].swapped
  {
    var n := |ids| - 1;
    assert ids[n] < |st.swaps|;
    if Touches(st.swaps[ids[n]], r) && Live(st.rows, st.swaps[ids[n]]) {
      AcceptedMeansWriter(st.swaps, ids[n], r);
    } else {
      assert forall k :: 0 <= k < n ==> ids[..n][k] == ids[k];
      ListedRowIsMarked(st, ids[..n], r);
    }
  }

  lemma {:induction false} AcceptedMeansWriter(swaps: seq<Swap>, i: nat, r: RowId)
    requires i < |swaps| && swaps[i].status == Accepted && Touches(swaps[i], r)
    ensures LastWriter(swaps, r).Some?
  {
    var n := |swaps| - 1;
    if i < n && !(swaps[n].status == Accepted && Touches(swaps[n], r)) {
      AcceptedMeansWriter(swaps[..n], i, r);
    }
  }

  /** The log still explains every row that a replay would write: the last accepted swap that has lost no row
      names the receiver that the last accepted swap of all named. */
  ghost predicate LogExplains(st: Store) {
    forall r :: r in st.rows && LastLive(st.rows, st.swaps, r).Some? ==>
      LastLive(st.rows, st.swaps, r) == LastWriter(st.swaps, r)
  }

  /** Replaying the accepted log in creation order, on a store whose rows may have been deleted, is harmless
      exactly when no deletion hides the last writer of a row that an older swap still writes. */
  lemma ReplayAllIff(st: Store)
    requires StoreOk(st)
    ensures ReconcileAll(st) == st <==> LogExplains(st)
  {
    var ids := AcceptedIds(st.swaps, |st.swaps|);
    AcceptedIdsAreAccepted(st.swaps, |st.swaps|);
    ReplayIff(st, ids);
    assert st.swaps[..|st.swaps|] == st.swaps;
    forall r | r in st.rows && LastLive(st.rows, st.swaps, r).Some?
      ensures LastInList(st, ids, r) == LastLive(st.rows, st.swaps, r) && LastWriter(st.swaps, r).Some?
    {
      ListIsLog(st, |st.swaps|, r);
      LiveMeansWriter(st.rows, st.swaps, r);
    }
    forall r | r in st.rows ensures LastInList(st, ids, r) == LastLive(st.rows, st.swaps, r) {
      ListIsLog(st, |st.swaps|, r);
    }
  }

  lemma {:induction false} LiveMeansWriter(rows: Rows, swaps: seq<Swap>, r: RowId)
    requires LastLive(rows, swaps, r).Some?
    ensures LastWriter(swaps, r).Some?
  {
    var n := |swaps| - 1;
    if !(swaps[n].status == Accepted && Touches(swaps[n], r)) {
      LiveMeansWriter(rows, swaps[..n], r);
    }
  }

  /** While every accepted swap has its rows, the two last writers are the same. */
  lemma {:induction false} AllLive(rows: Rows, swaps: seq<Swap>, r: RowId)
    requires forall i :: 0 <= i < |swaps| && swaps[i].status == Accepted ==> Live(rows, swaps[i])
    ensures LastLive(rows, swaps, r) == LastWriter(swaps, r)
  {
    if swaps != [] { AllLive(rows, swaps[..|swaps| - 1], r); }
  }

  lemma AllLiveExplains(st: Store)
    requires forall i :: 0 <= i < |st.swaps| && st.swaps[i].status == Accepted ==> Live(st.rows, st.swaps[i])
    ensures LogExplains(st)
  {
    forall r | r in st.rows ensures LastLive(st.rows, st.swaps, r) == LastWriter(st.swaps, r) {
      AllLive(st.rows, st.swaps, r);
    }
  }

  /** In every state reached by swaps alone, replaying the accepted log in creation order leaves every
      owner and every flag as it was, also through chains of swaps over a shared assignment. */
  lemma ReplayChangesNothing(rows: Rows, steps: seq<Step>)
    ensures var st := Run(Fresh(rows), steps).store; ReconcileAll(st) == st
  {
    var st := Run(Fresh(rows), steps).store;
    RunKeepsOk(rows, steps);
    forall i | 0 <= i < |st.swaps| ensures Live(st.rows, st.swaps[i]) {
      assert PairOk(st, i);
    }
    AllLiveExplains(st);
    ReplayAllIff(st);
  }

  /** In any other order the replay is harmless exactly when the last swap listed for each row
      is one that gave the row its present owner. */
  lemma ReplayInAnyOrderIff(rows: Rows, steps: seq<Step>, ids: seq<SwapId>)
    requires AllAccepted(Run(Fresh(rows), steps).store.swaps, ids)
    ensures var st := Run(Fresh(rows), steps).store;
      ReconcileList(st, ids) == st <==> NamesOwners(st, ids)
  {
    RunKeepsOk(rows, steps);
    ReplayIff(Run(Fresh(rows), steps).store, ids);
  }

  lemma {:induction false} RunAppend(sys: System, xs: seq<Step>, ys: seq<Step>)
    ensures Run(sys, xs + ys) == Run(Run(sys, xs), ys)
  {
    if ys == [] {
      assert xs + ys == xs;
    } else {
      var n := |ys| - 1;
      assert (xs + ys)[..|xs| + n] == xs + ys[..n];
      RunAppend(sys, xs, ys[..n]);
    }
  }

  lemma RunThree(sys: System, a: Step, b: Step, c: Step)
    ensures Run(sys, [a, b, c]) == Next(Next(Next(sys, a), b), c)
  {
    RunSnoc(sys, [], a);
    RunSnoc(sys, [a], b);
    RunSnoc(sys, [a, b], c);
    assert [] + [a] == [a] && [a] + [b] == [a, b] && [a, b] + [c] == [a, b, c];
  }

  /** A request that is created, read and committed without interference is accepted. */
  lemma UndisturbedAccept(sys: System, call: nat, r: RowId, t: RowId, mr: Member, mt: Member, today: int)
    requires call !in sys.inFlight && Create(sys.store, r, t, mr, mt).1.Ok?
    requires r != t && sys.store.rows[r].date >= today && sys.store.rows[t].date >= today
    ensures var after := Run(sys, [DoCreate(r, t, mr, mt), DoRead(call, |sys.store.swaps|, today), DoCommit(call)]);
      && after.store.swaps == sys.store.swaps + [Swap(r, t, mr, mt, Accepted)]
      && after.store.rows == Flip(sys.store.rows, Swap(r, t, mr, mt, Pending))
      && forall x :: x in after.inFlight ==> x in sys.inFlight
  {
    var id := |sys.store.swaps|;
    var (a, b, c) := (DoCreate(r, t, mr, mt), DoRead(call, id, today), DoCommit(call));
    var s := Swap(r, t, mr, mt, Pending);
    RunThree(sys, a, b, c);
    var s1 := Next(sys, a);
    assert s1.store.swaps[id] == s && s1.store.rows == sys.store.rows;
    var s2 := Next(s1, b);
    assert s2.inFlight[call] == Plan(id, s) && s2.store == s1.store;
    assert s1.store.swaps[id := s.(status := Accepted)] == sys.store.swaps + [Swap(r, t, mr, mt, Accepted)];
  }

  /** Row `a` is swapped for `b`, and then, by its new owner, for `c`. */
  function Chain(a: RowId, b: RowId, c: RowId, ma: Member, mb: Member, mc: Member, today: int): seq<Step> {
    [DoCreate(a, b, ma, mb), DoRead(0, 0, today), DoCommit(0)] +
    [DoCreate(a, c, mb, mc), DoRead(1, 1, today), DoCommit(1)]
  }

  lemma ChainStarts(rows: Rows, a: RowId, b: RowId, c: RowId, ma: Member, mb: Member, mc: Member, today: int)
    requires a != b && b != c && a != c && ma != mb && mb != mc
    requires a in rows && b in rows && c in rows
    requires rows[a].member == ma && rows[b].member == mb && rows[c].member == mc
    requires rows[a].date >= today && rows[b].date >= today && rows[c].date >= today
    ensures var mid := Run(Fresh(rows), [DoCreate(a, b, ma, mb), DoRead(0, 0, today), DoCommit(0)]);
      && mid.store.swaps == [Swap(a, b, ma, mb, Accepted)] && 1 !in mid.inFlight
      && mid.store.rows == Flip(rows, Swap(a, b, ma, mb, Pending))
      && Create(mid.store, a, c, mb, mc).1.Ok?
  {
    UndisturbedAccept(Fresh(rows), 0, a, b, ma, mb, today);
    var mid := Run(Fresh(rows), [DoCreate(a, b, ma, mb), DoRead(0, 0, today), DoCommit(0)]);
    assert mid.store.swaps == [Swap(a, b, ma, mb, Accepted)];
    assert !Busy(mid.store.swaps, a) && !Busy(mid.store.swaps, c);
  }

  lemma ChainIsAccepted(rows: Rows, a: RowId, b: RowId, c: RowId, ma: Member, mb: Member, mc: Member, today: int)
    requires a != b && b != c && a != c && ma != mb && mb != mc
    requires a in rows && b in rows && c in rows
    requires rows[a].member == ma && rows[b].member == mb && rows[c].member == mc
    requires rows[a].date >= today && rows[b].date >= today && rows[c].date >= today
    ensures var st := Run(Fresh(rows), Chain(a, b, c, ma, mb, mc, today)).store;
      && st.swaps == [Swap(a, b, ma, mb, Accepted), Swap(a, c, mb, mc, Accepted)]
      && st.rows.Keys == rows.Keys && st.rows[a].member == mc
  {
    var first := [DoCreate(a, b, ma, mb), DoRead(0, 0, today), DoCommit(0)];
    ChainStarts(rows, a, b, c, ma, mb, mc, today);
    RunAppend(Fresh(rows), first, [DoCreate(a, c, mb, mc), DoRead(1, 1, today), DoCommit(1)]);
    UndisturbedAccept(Run(Fresh(rows), first), 1, a, c, mb, mc, today);
  }

  ghost function ThreeRows(): Rows {
    map[0 := Row(9, 10, false), 1 := Row(9, 11, false), 2 := Row(9, 12, false)]
  }

  /** Creation time has one-second resolution, so two chained swaps can tie; read back in the wrong order,
      the replay does move a row. */
  lemma TieBreaksReplay()
    ensures var st := Run(Fresh(ThreeRows()), Chain(0, 1, 2, 10, 11, 12, 5)).store;
      && AllAccepted(st.swaps, [1, 0])
      && ReconcileList(st, [1, 0]) != st
  {
    var st := Run(Fresh(ThreeRows()), Chain(0, 1, 2, 10, 11, 12, 5)).store;
    ChainIsAccepted(ThreeRows(), 0, 1, 2, 10, 11, 12, 5);
    ReplayInAnyOrderIff(ThreeRows(), Chain(0, 1, 2, 10, 11, 12, 5), [1, 0]);
    assert LastInList(st, [1, 0], 0) == Some(11);
  }

  // ---------- the mutable store ----------

  class SwapStore {
    var rows: Rows
    var swaps: seq<Swap>

    ghost function Now(): Store
      reads this
    {
      Store(rows, swaps)
    }

    constructor (rows: Rows)
      ensures Now() == Store(rows, [])
    {
      this.rows := rows;
      swaps := [];
    }

    method ValidateCreateHatSwap(reqRow: RowId, tgtRow: RowId, requester: Member, target: Member)
      returns (r: Result<(), Error>)
      ensures r == Validated(rows, reqRow, tgtRow, requester, target)
    {
      if requester == target {
        return Err(TargetSelf);
      }
      if reqRow !in rows {
        return Err(AssignmentNotFound);
      }
      if rows[reqRow].member != requester {
        return Err(NotOwner);
      }
      if tgtRow !in rows {
        return Err(AssignmentNotFound);
      }
      if rows[tgtRow].member != target {
        return Err(TargetNotOwned);
      }
      return Ok(());
    }

    /** The insert trigger: no pending swap may share a row with the new one. */
    method PendingSwapExists(r: RowId) returns (busy: bool)
      ensures busy == Busy(swaps, r)
    {
      for i := 0 to |swaps|
        invariant forall j :: 0 <= j < i ==> !(swaps[j].status == Pending && Touches(swaps[j], r))
      {
        if swaps[i].status == Pending && (swaps[i].reqRow == r || swaps[i].tgtRow == r) {
          return true;
        }
      }
      return false;
    }

    method CreateHatSwap(reqRow: RowId, tgtRow: RowId, requester: Member, target: Member)
      returns (r: Result<SwapId, Error>)
      modifies this`swaps
      ensures (Now(), r) == Create(old(Now()), reqRow, tgtRow, requester, target)
    {
      var valid := ValidateCreateHatSwap(reqRow, tgtRow, requester, target);
      if valid.Err? {
        return Err(valid.error);
      }
      var busyReq := PendingSwapExists(reqRow);
      var busyTgt := PendingSwapExists(tgtRow);
      if busyReq || busyTgt {
        return Err(AssignmentBusy);
      }
      r := Ok(|swaps|);
      swaps := swaps + [Swap(reqRow, tgtRow, requester, target, Pending)];
    }

    method UpdateHatSwapStatus(id: SwapId, status: Status) returns (r: Result<(), Error>)
      modifies this`swaps
      ensures (Now(), r) == Close(old(Now()), id, status)
    {
      if id < |swaps| && swaps[id].status == Pending {
        swaps := swaps[id := swaps[id].(status := status)];
        return Ok(());
      }
      return Err(NotPending);
    }

    method CleanupExpiredPendingSwaps(today: int) returns (affected: nat)
      modifies this`swaps
      ensures Now() == Expire(old(Now()), today)
      ensures affected == |ExpiredBefore(old(Now()), |old(swaps)|, today)|
    {
      affected := 0;
      ghost var was := Now();
      for i := 0 to |swaps|
        invariant |swaps| == |was.swaps|
        invariant forall j :: 0 <= j < i ==> swaps[j] == Expire(was, today).swaps[j]
        invariant forall j :: i <= j < |was.swaps| ==> swaps[j] == was.swaps[j]
        invariant affected == |ExpiredBefore(was, i, today)|
      {
        ExpiredStep(was, i, today);
        var s := swaps[i];
        if s.status == Pending && s.reqRow in rows && s.tgtRow in rows &&
           (rows[s.reqRow].date < today || rows[s.tgtRow].date < today)
        {
          swaps := swaps[i := s.(status := Cancelled)];
          affected := affected + 1;
        }
      }
    }

    method LoadSwapAssignmentsForExecution(s: Swap, today: int) returns (r: Result<(), Error>)
      ensures r == Loadable(rows, s, today)
    {
      if s.reqRow !in rows {
        return Err(AssignmentNotFound);
      }
      if s.tgtRow !in rows {
        return Err(AssignmentNotFound);
      }
      if s.requester == s.target {
        return Err(TargetSelf);
      }
      if rows[s.reqRow].member == rows[s.tgtRow].member {
        return Err(TargetSelf);
      }
      if rows[s.reqRow].date < today || rows[s.tgtRow].date < today {
        return Err(DatePassed);
      }
      return Ok(());
    }

    method UpdateAssignmentMember(r: RowId, m: Member)
      modifies this`rows
      ensures rows == if r in old(rows) then old(rows)[r := old(rows)[r].(member := m)] else old(rows)
    {
      if r in rows {
        rows := rows[r := rows[r].(member := m)];
      }
    }

    method MarkAssignmentSwapped(r: RowId)
      modifies this`rows
      ensures rows == if r in old(rows) then old(rows)[r := old(rows)[r].(swapped := true)] else old(rows)
    {
      if r in rows {
        rows := rows[r := rows[r].(swapped := true)];
      }
    }

    /** The transaction of an acceptance; an error restores the rows. */
    method ExecuteSwapTx(id: SwapId, s: Swap) returns (r: Result<(), Error>)
      modifies this
      ensures (Now(), r) == CommitAccept(old(Now()), Plan(id, s))
    {
      var savedRows, savedSwaps := rows, swaps;
      UpdateAssignmentMember(s.reqRow, s.target);
      UpdateAssignmentMember(s.tgtRow, s.requester);
      MarkAssignmentSwapped(s.reqRow);
      MarkAssignmentSwapped(s.tgtRow);
      MarksCommute(savedRows, s);
      r := UpdateHatSwapStatus(id, Accepted);
      if r.Err? {
        rows, swaps := savedRows, savedSwaps;
      }
    }

    lemma MarksCommute(before: Rows, s: Swap)
      ensures var owned := Owned(Owned(before, s.reqRow, s.target), s.tgtRow, s.requester);
        Marked(Marked(owned, s.reqRow), s.tgtRow) == Flip(before, s)
    {
      var owned := Owned(Owned(before, s.reqRow, s.target), s.tgtRow, s.requester);
      var (x, y) := (Marked(Marked(owned, s.reqRow), s.tgtRow), Flip(before, s));
      assert x.Keys == y.Keys;
      assert forall r :: r in x ==> x[r] == y[r];
    }

    ghost function Owned(t: Rows, r: RowId, m: Member): Rows {
      if r in t then t[r := t[r].(member := m)] else t
    }

    ghost function Marked(t: Rows, r: RowId): Rows {
      if r in t then t[r := t[r].(swapped := true)] else t
    }

    /** Acceptance without interference between its reads and its transaction. */
    method ExecuteSwap(id: SwapId, today: int) returns (r: Result<(), Error>)
      modifies this
      ensures var plan := ReadForAccept(old(Now()), id, today);
        (Now(), r) == if plan.Err? then (old(Now()), Err(plan.error)) else CommitAccept(old(Now()), plan.value)
    {
      if id >= |swaps| {
        return Err(NotFound);
      }
      var s := swaps[id];
      if s.status != Pending {
        return Err(NotPending);
      }
      var loaded := LoadSwapAssignmentsForExecution(s, today);
      if loaded.Err? {
        return Err(loaded.error);
      }
      r := ExecuteSwapTx(id, s);
    }

    method ComputeReconcileDrift(id: SwapId, s: Swap, req: Row, tgt: Row) returns (d: Drift)
      ensures d == Drift(id, DriftOf(req, s.target), DriftOf(tgt, s.requester))
    {
      var r, t := [], [];
      if req.member != s.target {
        r := r + [FieldChange(MemberId, req.member, s.target)];
      }
      if !req.swapped {
        r := r + [FieldChange(IsSwapped, 0, 1)];
      }
      if tgt.member != s.requester {
        t := t + [FieldChange(MemberId, tgt.member, s.requester)];
      }
      if !tgt.swapped {
        t := t + [FieldChange(IsSwapped, 0, 1)];
      }
      return Drift(id, r, t);
    }

    method ApplyReconciliation(s: Swap)
      modifies this`rows
      ensures rows == Flip(old(rows), s)
    {
      rows := Give(rows, s.reqRow, s.target);
      rows := Give(rows, s.tgtRow, s.requester);
    }

    method ReconcileAcceptedSwap(id: SwapId, apply: bool) returns (r: Result<Drift, Error>)
      modifies this`rows
      ensures (Now(), r) == Reconcile(old(Now()), id, apply)
    {
      if id >= |swaps| {
        return Err(NotFound);
      }
      var s := swaps[id];
      if s.status != Accepted {
        return Err(NotPending);
      }
      if s.reqRow !in rows || s.tgtRow !in rows {
        return Err(AssignmentNotFound);
      }
      var d := ComputeReconcileDrift(id, s, rows[s.reqRow], rows[s.tgtRow]);
      if !apply || (d.requester == [] && d.target == []) {
        return Ok(d);
      }
      ApplyReconciliation(s);
      return Ok(d);
    }

    /** Accepted swaps, oldest first. */
    method GetAcceptedSwaps() returns (ids: seq<SwapId>)
      ensures ids == AcceptedIds(swaps, |swaps|)
    {
      ids := [];
      for i := 0 to |swaps|
        invariant ids == AcceptedIds(swaps, i)
      {
        if swaps[i].status == Accepted {
          ids := ids + [i];
        }
      }
    }

    method ReconcileAllAcceptedSwaps(apply: bool) returns (results: seq<Result<Drift, Error>>)
      modifies this`rows
      ensures swaps == old(swaps)
      ensures Now() == if apply then ReconcileAll(old(Now())) else old(Now())
      ensures |results| == |AcceptedIds(swaps, |swaps|)|
      ensures forall k :: 0 <= k < |results| ==>
        results[k] == Reported(old(Now()), AcceptedIds(swaps, |swaps|), k, apply)
    {
      ghost var st := Now();
      var ids := GetAcceptedSwaps();
      results := [];
      assert ids[..0] == [];
      for i := 0 to |ids|
        invariant swaps == old(swaps) && |results| == i
        invariant Now() == Replayed(st, ids, i, apply)
        invariant forall k :: 0 <= k < i ==> results[k] == Reported(st, ids, k, apply)
      {
        ReplayedStep(st, ids, i, apply);
        var r := ReconcileAcceptedSwap(ids[i], apply);
        results := results + [r];
      }
      assert ids[..|ids|] == ids;
    }
  }

  /** The store after the first `k` ids of a bulk run. */
  ghost function Replayed(st: Store, ids: seq<SwapId>, k: nat, apply: bool): Store
    requires k <= |ids|
  {
    if apply then ReconcileList(st, ids[..k]) else st
  }

  /** What a bulk run reports for its `k`-th id. */
  ghost function Reported(st: Store, ids: seq<SwapId>, k: nat, apply: bool): Result<Drift, Error>
    requires k < |ids|
  {
    Reconcile(Replayed(st, ids, k, apply), ids[k], apply).1
  }

  lemma ReplayedStep(st: Store, ids: seq<SwapId>, k: nat, apply: bool)
    requires k < |ids|
    ensures Replayed(st, ids, k + 1, apply) == Reconcile(Replayed(st, ids, k, apply), ids[k], apply).0
  {
    assert ids[..k + 1][..k] == ids[..k];
  }
}
