/** What a run of cover assignment does, seen as a whole.

A run is a list of events folded over the table and a rotation cursor. The main result is that its
rotation commits are a function of the starting table that never looks at the covers written on
the way (`RunFollowsLedger`). From it follow the exact condition under which a second run repeats
the first, the fixed point, and the immunity of that fixed point to ad-hoc runs.
 */
module CoverRuns {
  import opened Wrappers
  import opened Rotation
  import opened Roster

  /** A sweep earlier in the list covers the date. */
  predicate Swept(evs: seq<Event>, d: Date) {
    evs != [] && (var e := evs[|evs| - 1];
                  (e.Sweep? && e.lo <= d <= e.hi) || Swept(evs[..|evs| - 1], d))
  }

  /** Every processed day was swept before, and its member is on leave that day. */
  ghost predicate Prepared(env: Env, evs: seq<Event>) {
    evs == [] ||
    (var n := |evs| - 1;
     && Prepared(env, evs[..n])
     && (evs[n].Assign? ==> Swept(evs[..n], evs[n].date) && evs[n].member in Away(env, evs[n].date)))
  }

  function LastPick(log: seq<Commit>, d: Date): Option<nat> {
    if log == [] then None
    else if log[|log| - 1].date == d then Some(log[|log| - 1].slot)
    else LastPick(log[..|log| - 1], d)
  }

  /** A day that an event commits on whatever the unswapped covers are. */
  ghost predicate StaticHit(env: Env, t: Table, m: Member, d: Date) {
    && !ShouldSkipDate(env.holiday, d)
    && Available(env, d)
    && Orig(d) in t
    && (|| t[Orig(d)].member == m
        || (Cov(d) in t && !Stale(env, t, d) && t[Cov(d)].swapped && t[Cov(d)].member == m))
  }

  /** A cover that is itself on leave, on a day when somebody else could stand in. */
  ghost predicate Stranded(env: Env, t: Table, m: Member, d: Date) {
    && !ShouldSkipDate(env.holiday, d)
    && Available(env, d)
    && Orig(d) in t && t[Orig(d)].member != m
    && Cov(d) in t && !Stale(env, t, d) && !t[Cov(d)].swapped && t[Cov(d)].member == m
  }

  lemma PickExistsIff(env: Env, anchor: Option<Anchor>, d: Date)
    ensures Pick(env, anchor, d).Some? <==> Available(env, d)
  {
    FirstAvailableFailsIff(env.members, Away(env, d), Candidate(env, anchor, d));
  }

  /** The commits of a run, computed from the starting table alone. With `strands` false the
      unswapped covers of that table are not consulted either. */
  ghost function Ledger(env: Env, rotor: Rotor, t: Table, strands: bool, evs: seq<Event>): seq<Commit> {
    if evs == [] then []
    else
      var before := Ledger(env, rotor, t, strands, evs[..|evs| - 1]);
      match evs[|evs| - 1]
      case Sweep(_, _) => before
      case Assign(id, m, d) =>
        if StaticHit(env, t, m, d) || (strands && Stranded(env, t, m, d) && LastPick(before, d).None?) then
          PickExistsIff(env, Current(rotor, before), d);
          before + [Commit(id, d, Pick(env, Current(rotor, before), d).value)]
        else before
  }

  lemma LastPickSnoc(log: seq<Commit>, c: Commit, d: Date)
    ensures LastPick(log + [c], d) == if c.date == d then Some(c.slot) else LastPick(log, d)
  {
    assert (log + [c])[..|log|] == log;
  }

  lemma LedgerSnoc(env: Env, rotor: Rotor, t: Table, strands: bool, evs: seq<Event>, e: Event)
    ensures Ledger(env, rotor, t, strands, evs + [e]) ==
      var before := Ledger(env, rotor, t, strands, evs);
      if e.Assign? && Available(env, e.date) &&
         (StaticHit(env, t, e.member, e.date) ||
          (strands && Stranded(env, t, e.member, e.date) && LastPick(before, e.date).None?))
      then
        PickExistsIff(env, Current(rotor, before), e.date);
        before + [Commit(e.leave, e.date, Pick(env, Current(rotor, before), e.date).value)]
      else before
  {
    assert (evs + [e])[..|evs|] == evs;
  }

  // ---------- the invariant of a run ----------

  /** The cover row of the starting table that survives the sweeps so far. */
  ghost function Base(env: Env, t: Table, swept: bool, d: Date): Option<Row> {
    if swept && Stale(env, t, d) then None else At(t, Cov(d))
  }

  /** The cover row of `d`, given what was there before and the last pick on `d`. */
  ghost predicate CoverOk(env: Env, t: Table, next: RowId, swept: bool, pick: Option<nat>, now: Option<Row>, d: Date) {
    var base := Base(env, t, swept, d);
    match pick
    case None => now == base
    case Some(k) =>
      && swept && !ShouldSkipDate(env.holiday, d)
      && k < |env.members| && env.members[k] !in Away(env, d)
      && Orig(d) in t && t[Orig(d)].member in Away(env, d)
      && now.Some?
      && (match base
          case Some(r) => now.value == if r.swapped then r else r.(member := env.members[k])
          case None =>
            && now.value.member == env.members[k] && !now.value.swapped
            && now.value.original == Some(t[Orig(d)].id) && now.value.id >= next)
  }

  ghost predicate RunOk(env: Env, t: Table, next: RowId, evs: seq<Event>, p: Progress) {
    && Shaped(p.table) && IdsBelow(p.table, p.nextId) && next <= p.nextId
    && (forall d :: At(p.table, Orig(d)) == At(t, Orig(d)))
    && (forall d :: CoverOk(env, t, next, Swept(evs, d), LastPick(p.log, d), At(p.table, Cov(d)), d))
  }

  lemma SweepKeepsShape(env: Env, t: Table, lo: Date, hi: Date)
    requires Shaped(t)
    ensures Shaped(Reconciled(env, t, lo, hi))
  {
  }

  lemma CoverKeepsShape(t: Table, next: RowId, d: Date, m: Member)
    requires Shaped(t) && IdsBelow(t, next) && Orig(d) in t
    ensures Shaped(WithCover(t, next, d, m, t[Orig(d)].id))
    ensures IdsBelow(WithCover(t, next, d, m, t[Orig(d)].id), NextAfterCover(t, next, d))
  {
    var t' := WithCover(t, next, d, m, t[Orig(d)].id);
    assert forall s :: s in t' ==> s == Cov(d) || (s in t && t'[s] == t[s]);
  }

  lemma SweepStep(env: Env, t: Table, next: RowId, evs: seq<Event>, p: Progress, lo: Date, hi: Date)
    requires Shaped(t) && RunOk(env, t, next, evs, p)
    ensures RunOk(env, t, next, evs + [Sweep(lo, hi)], p.(table := Reconciled(env, p.table, lo, hi)))
  {
    var evs' := evs + [Sweep(lo, hi)];
    var t' := Reconciled(env, p.table, lo, hi);
    assert evs'[..|evs|] == evs;
    SweepKeepsShape(env, p.table, lo, hi);
    forall d
      ensures CoverOk(env, t, next, Swept(evs', d), LastPick(p.log, d), At(t', Cov(d)), d)
      ensures At(t', Orig(d)) == At(t, Orig(d))
    {
      assert CoverOk(env, t, next, Swept(evs, d), LastPick(p.log, d), At(p.table, Cov(d)), d);
      assert At(p.table, Orig(d)) == At(t, Orig(d));
      assert Swept(evs', d) == ((lo <= d <= hi) || Swept(evs, d));
    }
  }

  /** An event finds a row to hang a cover on exactly in the two cases the ledger names. */
  lemma TriggerIff(env: Env, t: Table, next: RowId, evs: seq<Event>, p: Progress, m: Member, d: Date)
    requires Shaped(t) && RunOk(env, t, next, evs, p)
    requires Swept(evs, d) && m in Away(env, d)
    requires !ShouldSkipDate(env.holiday, d) && Available(env, d)
    ensures OriginalFor(p.table, d, m).Some? <==>
            StaticHit(env, t, m, d) || (Stranded(env, t, m, d) && LastPick(p.log, d).None?)
    ensures OriginalFor(p.table, d, m).Some? ==>
            && Orig(d) in t && t[Orig(d)].member in Away(env, d)
            && OriginalFor(p.table, d, m) == Some(t[Orig(d)].id)
  {
    assert At(p.table, Orig(d)) == At(t, Orig(d));
    assert CoverOk(env, t, next, Swept(evs, d), LastPick(p.log, d), At(p.table, Cov(d)), d);
  }

  /** The cover row of any date after one commit. */
  lemma AssignedCover(env: Env, t: Table, next: RowId, evs: seq<Event>, p: Progress, id: LeaveId, m: Member,
                      d: Date, k: nat, x: Date)
    requires RunOk(env, t, next, evs, p)
    requires Swept(evs, d) && !ShouldSkipDate(env.holiday, d)
    requires k < |env.members| && env.members[k] !in Away(env, d)
    requires Orig(d) in t && t[Orig(d)].member in Away(env, d)
    ensures var t' := WithCover(p.table, p.nextId, d, env.members[k], t[Orig(d)].id);
      CoverOk(env, t, next, Swept(evs + [Assign(id, m, d)], x), LastPick(p.log + [Commit(id, d, k)], x),
              At(t', Cov(x)), x)
  {
    assert (evs + [Assign(id, m, d)])[..|evs|] == evs;
    LastPickSnoc(p.log, Commit(id, d, k), x);
    assert CoverOk(env, t, next, Swept(evs, x), LastPick(p.log, x), At(p.table, Cov(x)), x);
  }

  lemma AssignStep(env: Env, t: Table, next: RowId, evs: seq<Event>, p: Progress, id: LeaveId, m: Member,
                   d: Date, k: nat)
    requires Shaped(t) && RunOk(env, t, next, evs, p)
    requires Swept(evs, d) && !ShouldSkipDate(env.holiday, d)
    requires k < |env.members| && env.members[k] !in Away(env, d)
    requires Orig(d) in t && t[Orig(d)].member in Away(env, d)
    ensures RunOk(env, t, next, evs + [Assign(id, m, d)],
                  Progress(WithCover(p.table, p.nextId, d, env.members[k], t[Orig(d)].id),
                           NextAfterCover(p.table, p.nextId, d), p.log + [Commit(id, d, k)]))
  {
    var t' := WithCover(p.table, p.nextId, d, env.members[k], t[Orig(d)].id);
    assert At(p.table, Orig(d)) == At(t, Orig(d));
    CoverKeepsShape(p.table, p.nextId, d, env.members[k]);
    forall x
      ensures CoverOk(env, t, next, Swept(evs + [Assign(id, m, d)], x), LastPick(p.log + [Commit(id, d, k)], x),
                      At(t', Cov(x)), x)
    {
      AssignedCover(env, t, next, evs, p, id, m, d, k, x);
    }
    forall x ensures At(t', Orig(x)) == At(t, Orig(x)) {
      assert At(p.table, Orig(x)) == At(t, Orig(x));
    }
  }

  lemma IdleStep(env: Env, t: Table, next: RowId, evs: seq<Event>, p: Progress, e: Event)
    requires e.Assign? && RunOk(env, t, next, evs, p)
    ensures RunOk(env, t, next, evs + [e], p)
  {
    assert (evs + [e])[..|evs|] == evs;
    forall d ensures CoverOk(env, t, next, Swept(evs + [e], d), LastPick(p.log, d), At(p.table, Cov(d)), d) {
      assert CoverOk(env, t, next, Swept(evs, d), LastPick(p.log, d), At(p.table, Cov(d)), d);
    }
  }

  /** From any well-shaped table, the commits of a run are its ledger, and every row is explained by it. */
  lemma {:induction false} RunFollowsLedger(env: Env, rotor: Rotor, t: Table, next: RowId, evs: seq<Event>)
    requires Shaped(t) && IdsBelow(t, next) && Prepared(env, evs)
    ensures RunOk(env, t, next, evs, Run(env, rotor, Progress(t, next, []), evs))
    ensures Run(env, rotor, Progress(t, next, []), evs).log == Ledger(env, rotor, t, true, evs)
  {
    if evs != [] {
      var n := |evs| - 1;
      var prefix := evs[..n];
      RunFollowsLedger(env, rotor, t, next, prefix);
      var p := Run(env, rotor, Progress(t, next, []), prefix);
      assert evs == prefix + [evs[n]];
      match evs[n]
      case Sweep(lo, hi) =>
        SweepStep(env, t, next, prefix, p, lo, hi);
      case Assign(id, m, d) =>
        PickExistsIff(env, Current(rotor, p.log), d);
        if !ShouldSkipDate(env.holiday, d) && Available(env, d) {
          TriggerIff(env, t, next, prefix, p, m, d);
          if OriginalFor(p.table, d, m).Some? {
            AssignStep(env, t, next, prefix, p, id, m, d, Pick(env, Current(rotor, p.log), d).value);
          } else {
            IdleStep(env, t, next, prefix, p, evs[n]);
          }
        } else {
          IdleStep(env, t, next, prefix, p, evs[n]);
        }
    }
  }

  // ---------- which days are committed ----------

  /** On such a day a member owns the original or is its cover, and somebody can stand in. */
  ghost predicate Meets(env: Env, t: Table, m: Member, d: Date) {
    StaticHit(env, t, m, d) || Stranded(env, t, m, d)
  }

  ghost predicate MetBefore(env: Env, t: Table, evs: seq<Event>, d: Date) {
    exists j :: 0 <= j < |evs| && evs[j].Assign? && evs[j].date == d && Meets(env, t, evs[j].member, d)
  }

  lemma MetBeforeSnoc(env: Env, t: Table, evs: seq<Event>, e: Event, d: Date)
    ensures MetBefore(env, t, evs + [e], d) <==>
      MetBefore(env, t, evs, d) || (e.Assign? && e.date == d && Meets(env, t, e.member, d))
  {
    var all := evs + [e];
    if MetBefore(env, t, evs, d) {
      var j :| 0 <= j < |evs| && evs[j].Assign? && evs[j].date == d && Meets(env, t, evs[j].member, d);
      assert all[j] == evs[j];
    }
    if e.Assign? && e.date == d && Meets(env, t, e.member, d) { assert all[|evs|] == e; }
  }

  /** A date has a commit exactly when some event of it meets a row to hang a cover on. */
  lemma {:induction false} PickedIffMet(env: Env, rotor: Rotor, t: Table, evs: seq<Event>, d: Date)
    ensures LastPick(Ledger(env, rotor, t, true, evs), d).Some? <==> MetBefore(env, t, evs, d)
  {
    if evs != [] {
      var n := |evs| - 1;
      var (e, before) := (evs[n], Ledger(env, rotor, t, true, evs[..n]));
      PickedIffMet(env, rotor, t, evs[..n], d);
      assert evs == evs[..n] + [e];
      MetBeforeSnoc(env, t, evs[..n], e, d);
      LedgerSnoc(env, rotor, t, true, evs[..n], e);
      if e.Assign? && Available(env, e.date) {
        PickExistsIff(env, Current(rotor, before), e.date);
        LastPickSnoc(before, Commit(e.leave, e.date, Pick(env, Current(rotor, before), e.date).value), d);
      }
    }
  }

  ghost predicate CommitsFor(log: seq<Commit>, id: LeaveId) {
    exists i :: 0 <= i < |log| && log[i].leave == id
  }

  lemma CommitsForSnoc(log: seq<Commit>, c: Commit, id: LeaveId)
    ensures CommitsFor(log + [c], id) <==> CommitsFor(log, id) || c.leave == id
  {
    if CommitsFor(log, id) {
      var i :| 0 <= i < |log| && log[i].leave == id;
      assert (log + [c])[i] == log[i];
    }
    assert (log + [c])[|log|] == c;
  }

  // ---------- repeating a run ----------

  ghost predicate HitBefore(env: Env, t: Table, evs: seq<Event>, d: Date) {
    exists j :: 0 <= j < |evs| && evs[j].Assign? && evs[j].date == d && StaticHit(env, t, evs[j].member, d)
  }

  /** Whenever an event meets a stranded cover, an earlier event of that day has already re-pointed it. */
  ghost predicate Undisturbed(env: Env, t: Table, evs: seq<Event>) {
    forall k :: 0 <= k < |evs| && evs[k].Assign? && Stranded(env, t, evs[k].member, evs[k].date)
      ==> HitBefore(env, t, evs[..k], evs[k].date)
  }

  lemma UndisturbedPrefix(env: Env, t: Table, evs: seq<Event>)
    requires evs != []
    ensures var n := |evs| - 1;
      Undisturbed(env, t, evs) <==>
      (Undisturbed(env, t, evs[..n]) &&
       (evs[n].Assign? && Stranded(env, t, evs[n].member, evs[n].date) ==> HitBefore(env, t, evs[..n], evs[n].date)))
  {
    var n := |evs| - 1;
    assert forall k :: 0 <= k < n ==> evs[..n][..k] == evs[..k];
    if Undisturbed(env, t, evs[..n]) &&
       (evs[n].Assign? && Stranded(env, t, evs[n].member, evs[n].date) ==> HitBefore(env, t, evs[..n], evs[n].date)) {
      forall k | 0 <= k < |evs| && evs[k].Assign? && Stranded(env, t, evs[k].member, evs[k].date)
        ensures HitBefore(env, t, evs[..k], evs[k].date)
      {
        if k < n { assert evs[..n][k] == evs[k]; }
      }
    }
    if Undisturbed(env, t, evs) {
      forall k | 0 <= k < n && evs[..n][k].Assign? && Stranded(env, t, evs[..n][k].member, evs[..n][k].date)
        ensures HitBefore(env, t, evs[..n][..k], evs[..n][k].date)
      {
        assert evs[k] == evs[..n][k];
      }
    }
  }

  /** The plan (the ledger that ignores unswapped covers) commits on exactly the days that are hit. */
  lemma {:induction false} PlanTouchesHits(env: Env, rotor: Rotor, t: Table, strands: bool, evs: seq<Event>, d: Date)
    ensures HitBefore(env, t, evs, d) ==> LastPick(Ledger(env, rotor, t, strands, evs), d).Some?
    ensures !strands && LastPick(Ledger(env, rotor, t, strands, evs), d).Some? ==> HitBefore(env, t, evs, d)
  {
    if evs != [] {
      var n := |evs| - 1;
      PlanTouchesHits(env, rotor, t, strands, evs[..n], d);
      assert forall j :: 0 <= j < n ==> evs[..n][j] == evs[j];
      var before := Ledger(env, rotor, t, strands, evs[..n]);
      if evs[n].Assign? {
        PickExistsIff(env, Current(rotor, before), evs[n].date);
        var k := if Available(env, evs[n].date) then Pick(env, Current(rotor, before), evs[n].date).value else 0;
        LastPickSnoc(before, Commit(evs[n].leave, evs[n].date, k), d);
      }
      if HitBefore(env, t, evs, d) && !HitBefore(env, t, evs[..n], d) {
        var j :| 0 <= j < |evs| && evs[j].Assign? && evs[j].date == d && StaticHit(env, t, evs[j].member, d);
        assert j == n;
      }
    }
  }

  lemma {:induction false} UndisturbedLedger(env: Env, rotor: Rotor, t: Table, evs: seq<Event>)
    requires Undisturbed(env, t, evs)
    ensures Ledger(env, rotor, t, true, evs) == Ledger(env, rotor, t, false, evs)
  {
    if evs != [] {
      var n := |evs| - 1;
      UndisturbedPrefix(env, t, evs);
      UndisturbedLedger(env, rotor, t, evs[..n]);
      if evs[n].Assign? && Stranded(env, t, evs[n].member, evs[n].date) {
        PlanTouchesHits(env, rotor, t, true, evs[..n], evs[n].date);
      }
    }
  }

  /** A stranded cover that is met first costs a commit the plan does not make. */
  lemma {:induction false} DisturbedLedgerIsLonger(env: Env, rotor: Rotor, t: Table, evs: seq<Event>)
    ensures |Ledger(env, rotor, t, true, evs)| >= |Ledger(env, rotor, t, false, evs)|
    ensures !Undisturbed(env, t, evs) ==> |Ledger(env, rotor, t, true, evs)| > |Ledger(env, rotor, t, false, evs)|
  {
    if evs != [] {
      var n := |evs| - 1;
      UndisturbedPrefix(env, t, evs);
      DisturbedLedgerIsLonger(env, rotor, t, evs[..n]);
      if !Undisturbed(env, t, evs) && Undisturbed(env, t, evs[..n]) {
        UndisturbedLedger(env, rotor, t, evs[..n]);
        PlanTouchesHits(env, rotor, t, false, evs[..n], evs[n].date);
      }
    }
  }

  lemma {:induction false} StrandedIsReached(env: Env, rotor: Rotor, t: Table, evs: seq<Event>, k: nat)
    requires k < |evs| && evs[k].Assign? && Stranded(env, t, evs[k].member, evs[k].date)
    ensures LastPick(Ledger(env, rotor, t, true, evs), evs[k].date).Some?
  {
    var n := |evs| - 1;
    var d := evs[k].date;
    var before := Ledger(env, rotor, t, true, evs[..n]);
    if k < n {
      assert evs[..n][k] == evs[k];
      StrandedIsReached(env, rotor, t, evs[..n], k);
    }
    if evs[n].Assign? {
      PickExistsIff(env, Current(rotor, before), evs[n].date);
      var slot := if Available(env, evs[n].date) then Pick(env, Current(rotor, before), evs[n].date).value else 0;
      LastPickSnoc(before, Commit(evs[n].leave, evs[n].date, slot), d);
    }
  }

  /** Ledgers agree when the static hits agree and nothing is stranded. */
  lemma {:induction false} LedgerTransfer(env: Env, rotor: Rotor, t: Table, t': Table, evs: seq<Event>)
    requires forall i :: 0 <= i < |evs| && evs[i].Assign? ==>
      && StaticHit(env, t', evs[i].member, evs[i].date) == StaticHit(env, t, evs[i].member, evs[i].date)
      && !Stranded(env, t', evs[i].member, evs[i].date)
    ensures Ledger(env, rotor, t', true, evs) == Ledger(env, rotor, t, false, evs)
  {
    if evs != [] {
      var n := |evs| - 1;
      assert forall i :: 0 <= i < n ==> evs[..n][i] == evs[i];
      LedgerTransfer(env, rotor, t, t', evs[..n]);
    }
  }

  lemma {:induction false} PreparedMember(env: Env, evs: seq<Event>, k: nat)
    requires Prepared(env, evs) && k < |evs| && evs[k].Assign?
    ensures evs[k].member in Away(env, evs[k].date) && Swept(evs, evs[k].date)
  {
    var n := |evs| - 1;
    if k < n {
      assert evs[..n][k] == evs[k];
      PreparedMember(env, evs[..n], k);
    }
  }

  /** The first run of two. */
  ghost function After(env: Env, rotor: Rotor, t: Table, next: RowId, evs: seq<Event>): Progress {
    Run(env, rotor, Progress(t, next, []), evs)
  }

  /** What a run leaves behind: the same static hits, and nothing stranded for its own events. */
  lemma RunLeavesNothingStranded(env: Env, rotor: Rotor, t: Table, next: RowId, evs: seq<Event>, k: nat)
    requires Shaped(t) && IdsBelow(t, next) && Prepared(env, evs)
    requires k < |evs| && evs[k].Assign?
    ensures var (t', m, d) := (After(env, rotor, t, next, evs).table, evs[k].member, evs[k].date);
      StaticHit(env, t', m, d) == StaticHit(env, t, m, d) && !Stranded(env, t', m, d)
  {
    var p := After(env, rotor, t, next, evs);
    var m, d := evs[k].member, evs[k].date;
    RunFollowsLedger(env, rotor, t, next, evs);
    PreparedMember(env, evs, k);
    assert At(p.table, Orig(d)) == At(t, Orig(d));
    assert CoverOk(env, t, next, Swept(evs, d), LastPick(p.log, d), At(p.table, Cov(d)), d);
    if Stranded(env, t, m, d) {
      StrandedIsReached(env, rotor, t, evs, k);
    }
  }

  /** A second run over the same leaves makes exactly the commits of the plan. */
  lemma SecondRunIsPlan(env: Env, rotor: Rotor, t: Table, next: RowId, evs: seq<Event>)
    requires Shaped(t) && IdsBelow(t, next) && Prepared(env, evs)
    ensures var p := After(env, rotor, t, next, evs);
      && Shaped(p.table) && IdsBelow(p.table, p.nextId)
      && After(env, rotor, p.table, p.nextId, evs).log == Ledger(env, rotor, t, false, evs)
  {
    var p := After(env, rotor, t, next, evs);
    RunFollowsLedger(env, rotor, t, next, evs);
    RunFollowsLedger(env, rotor, p.table, p.nextId, evs);
    forall i | 0 <= i < |evs| && evs[i].Assign?
      ensures StaticHit(env, p.table, evs[i].member, evs[i].date) == StaticHit(env, t, evs[i].member, evs[i].date)
      ensures !Stranded(env, p.table, evs[i].member, evs[i].date)
    {
      RunLeavesNothingStranded(env, rotor, t, next, evs, i);
    }
    LedgerTransfer(env, rotor, t, p.table, evs);
  }

  /** The second run repeats the first, commit for commit, exactly when the first was undisturbed. */
  lemma SecondRunRepeatsIff(env: Env, rotor: Rotor, t: Table, next: RowId, evs: seq<Event>)
    requires Shaped(t) && IdsBelow(t, next) && Prepared(env, evs)
    ensures var p := After(env, rotor, t, next, evs);
      After(env, rotor, p.table, p.nextId, evs).log == p.log <==> Undisturbed(env, t, evs)
  {
    RunFollowsLedger(env, rotor, t, next, evs);
    SecondRunIsPlan(env, rotor, t, next, evs);
    if Undisturbed(env, t, evs) {
      UndisturbedLedger(env, rotor, t, evs);
    } else {
      DisturbedLedgerIsLonger(env, rotor, t, evs);
    }
  }

  lemma EqualBySlot(t: Table, t': Table)
    requires forall d :: At(t, Orig(d)) == At(t', Orig(d)) && At(t, Cov(d)) == At(t', Cov(d))
    ensures t == t'
  {
    forall s: Slot ensures At(t, s) == At(t', s) {
      assert s == if s.isCover then Cov(s.date) else Orig(s.date);
    }
    assert forall s :: s in t ==> At(t', s) == Some(t[s]);
    assert forall s :: s in t' ==> At(t, s) == Some(t'[s]);
  }

  /** Equal commits mean that the second run changes no row at all, ids included. */
  lemma SameCommitsSameRows(env: Env, rotor: Rotor, t: Table, next: RowId, evs: seq<Event>)
    requires Shaped(t) && IdsBelow(t, next) && Prepared(env, evs)
    requires var p := After(env, rotor, t, next, evs);
      After(env, rotor, p.table, p.nextId, evs).log == p.log
    ensures var p := After(env, rotor, t, next, evs);
      After(env, rotor, p.table, p.nextId, evs).table == p.table
  {
    var p := After(env, rotor, t, next, evs);
    var q := After(env, rotor, p.table, p.nextId, evs);
    RunFollowsLedger(env, rotor, t, next, evs);
    RunFollowsLedger(env, rotor, p.table, p.nextId, evs);
    forall d ensures At(q.table, Orig(d)) == At(p.table, Orig(d)) && At(q.table, Cov(d)) == At(p.table, Cov(d)) {
      SamePickSameCover(env, t, next, evs, p, q, d);
    }
    EqualBySlot(q.table, p.table);
  }

  lemma SamePickSameCover(env: Env, t: Table, next: RowId, evs: seq<Event>, p: Progress, q: Progress, d: Date)
    requires RunOk(env, t, next, evs, p) && RunOk(env, p.table, p.nextId, evs, q) && q.log == p.log
    ensures At(q.table, Orig(d)) == At(p.table, Orig(d)) && At(q.table, Cov(d)) == At(p.table, Cov(d))
  {
    assert At(p.table, Orig(d)) == At(t, Orig(d));
    assert CoverOk(env, t, next, Swept(evs, d), LastPick(p.log, d), At(p.table, Cov(d)), d);
    assert CoverOk(env, p.table, p.nextId, Swept(evs, d), LastPick(q.log, d), At(q.table, Cov(d)), d);
  }

  /** Idempotency, with its exact start-state condition: rows, commits and final cursor. */
  lemma UndisturbedRunIsFixedPoint(env: Env, rotor: Rotor, t: Table, next: RowId, evs: seq<Event>)
    requires Shaped(t) && IdsBelow(t, next) && Prepared(env, evs) && Undisturbed(env, t, evs)
    ensures var p := After(env, rotor, t, next, evs);
      var q := After(env, rotor, p.table, p.nextId, evs);
      q.table == p.table && q.log == p.log && Current(rotor, q.log) == Current(rotor, p.log)
  {
    SecondRunRepeatsIff(env, rotor, t, next, evs);
    SameCommitsSameRows(env, rotor, t, next, evs);
  }

  /** From any start, disturbed or not, the third run equals the second. */
  lemma ThirdRunEqualsSecond(env: Env, rotor: Rotor, t: Table, next: RowId, evs: seq<Event>)
    requires Shaped(t) && IdsBelow(t, next) && Prepared(env, evs)
    ensures var p := After(env, rotor, t, next, evs);
      var q := After(env, rotor, p.table, p.nextId, evs);
      var r := After(env, rotor, q.table, q.nextId, evs);
      r.table == q.table && r.log == q.log
  {
    var p := After(env, rotor, t, next, evs);
    RunFollowsLedger(env, rotor, t, next, evs);
    assert Undisturbed(env, p.table, evs) by {
      forall k | 0 <= k < |evs| && evs[k].Assign? ensures !Stranded(env, p.table, evs[k].member, evs[k].date) {
        RunLeavesNothingStranded(env, rotor, t, next, evs, k);
      }
    }
    UndisturbedRunIsFixedPoint(env, rotor, p.table, p.nextId, evs);
  }

  /** The plan, which ignores the unswapped covers of the starting table, gives the date no other cover than
      the ledger does; a swapped cover is never rewritten, so it cannot disagree. This compares the commits of
      two runs, both computed from the starting table; `Undisturbed` here and `Settled` in `Reassign` are
      the conditions on that table itself that are sufficient for it. */
  ghost predicate PlanAgreesOn(env: Env, rotor: Rotor, t: Table, evs: seq<Event>, d: Date) {
    var planned := LastPick(Ledger(env, rotor, t, false, evs), d);
    planned.None? || (Cov(d) in t && t[Cov(d)].swapped) || LastPick(Ledger(env, rotor, t, true, evs), d) == planned
  }

  ghost predicate PlanAgrees(env: Env, rotor: Rotor, t: Table, evs: seq<Event>) {
    forall d :: PlanAgreesOn(env, rotor, t, evs, d)
  }

  lemma CoverRepeatsIff(env: Env, rotor: Rotor, t: Table, next: RowId, evs: seq<Event>, d: Date)
    requires Shaped(t) && IdsBelow(t, next) && Prepared(env, evs) && Distinct(env.members)
    ensures var p := After(env, rotor, t, next, evs);
      var q := After(env, rotor, p.table, p.nextId, evs);
      && At(q.table, Orig(d)) == At(p.table, Orig(d))
      && (At(q.table, Cov(d)) == At(p.table, Cov(d)) <==> PlanAgreesOn(env, rotor, t, evs, d))
  {
    var p := After(env, rotor, t, next, evs);
    var q := After(env, rotor, p.table, p.nextId, evs);
    RunFollowsLedger(env, rotor, t, next, evs);
    SecondRunIsPlan(env, rotor, t, next, evs);
    RunFollowsLedger(env, rotor, p.table, p.nextId, evs);
    PlanTouchesHits(env, rotor, t, false, evs, d);
    PlanTouchesHits(env, rotor, t, true, evs, d);
    assert At(p.table, Orig(d)) == At(t, Orig(d)) && At(q.table, Orig(d)) == At(p.table, Orig(d));
    var (first, second) := (At(p.table, Cov(d)), At(q.table, Cov(d)));
    assert CoverOk(env, t, next, Swept(evs, d), LastPick(p.log, d), first, d);
    assert CoverOk(env, p.table, p.nextId, Swept(evs, d), LastPick(q.log, d), second, d);
    if LastPick(q.log, d).Some? {
      var (j, k) := (LastPick(p.log, d).value, LastPick(q.log, d).value);
      assert env.members[j] == env.members[k] <==> j == k;
      if !(Cov(d) in t && t[Cov(d)].swapped) {
        assert first.value.member == env.members[j] && second.value == first.value.(member := env.members[k]);
      }
    }
  }

  /** The second run changes no row exactly when the plan agrees with the first run on every date. */
  lemma SecondRunKeepsRowsIff(env: Env, rotor: Rotor, t: Table, next: RowId, evs: seq<Event>)
    requires Shaped(t) && IdsBelow(t, next) && Prepared(env, evs) && Distinct(env.members)
    ensures var p := After(env, rotor, t, next, evs);
      After(env, rotor, p.table, p.nextId, evs).table == p.table <==> PlanAgrees(env, rotor, t, evs)
  {
    var p := After(env, rotor, t, next, evs);
    var q := After(env, rotor, p.table, p.nextId, evs);
    forall d
      ensures At(q.table, Orig(d)) == At(p.table, Orig(d))
      ensures At(q.table, Cov(d)) == At(p.table, Cov(d)) <==> PlanAgreesOn(env, rotor, t, evs, d)
    {
      CoverRepeatsIff(env, rotor, t, next, evs, d);
    }
    if PlanAgrees(env, rotor, t, evs) {
      forall d ensures At(q.table, Cov(d)) == At(p.table, Cov(d)) {
        assert PlanAgreesOn(env, rotor, t, evs, d);
      }
      EqualBySlot(q.table, p.table);
    }
  }

  // ---------- immunity to other runs ----------

  ghost predicate Processes(evs: seq<Event>, m: Member, d: Date) {
    exists j :: 0 <= j < |evs| && evs[j].Assign? && evs[j].member == m && evs[j].date == d
  }

  /** `calls` processes no day and sweeps no day that `evs` does not. */
  ghost predicate Within(calls: seq<Event>, evs: seq<Event>) {
    && (forall m, d :: Processes(calls, m, d) ==> Processes(evs, m, d))
    && (forall d :: Swept(calls, d) ==> Swept(evs, d))
  }

  /** What any run over `evs` leaves behind: of the days it sweeps none is stale, and of the days it processes
      none is stranded and every one it hits is covered. */
  ghost predicate Worked(env: Env, t: Table, evs: seq<Event>) {
    && (forall d :: Swept(evs, d) ==> !Stale(env, t, d))
    && (forall k :: 0 <= k < |evs| && evs[k].Assign? ==>
          && !Stranded(env, t, evs[k].member, evs[k].date)
          && (StaticHit(env, t, evs[k].member, evs[k].date) ==> Cov(evs[k].date) in t))
  }

  /** One run is enough, from any start. */
  lemma RunIsWorked(env: Env, rotor: Rotor, t: Table, next: RowId, evs: seq<Event>)
    requires Shaped(t) && IdsBelow(t, next) && Prepared(env, evs)
    ensures Worked(env, After(env, rotor, t, next, evs).table, evs)
  {
    var p := After(env, rotor, t, next, evs);
    RunFollowsLedger(env, rotor, t, next, evs);
    forall d | Swept(evs, d) ensures !Stale(env, p.table, d) {
      assert At(p.table, Orig(d)) == At(t, Orig(d));
      assert CoverOk(env, t, next, Swept(evs, d), LastPick(p.log, d), At(p.table, Cov(d)), d);
    }
    forall k | 0 <= k < |evs| && evs[k].Assign?
      ensures !Stranded(env, p.table, evs[k].member, evs[k].date)
      ensures StaticHit(env, p.table, evs[k].member, evs[k].date) ==> Cov(evs[k].date) in p.table
    {
      var d := evs[k].date;
      RunLeavesNothingStranded(env, rotor, t, next, evs, k);
      PlanTouchesHits(env, rotor, t, true, evs, d);
      assert CoverOk(env, t, next, Swept(evs, d), LastPick(p.log, d), At(p.table, Cov(d)), d);
    }
  }

  /** The state an unrelated run leaves a worked table in, one day at a time. */
  lemma DisturbedDay(env: Env, other: Rotor, t: Table, evs: seq<Event>, calls: seq<Event>, next: RowId, k: nat)
    requires Shaped(t) && IdsBelow(t, next) && Worked(env, t, evs)
    requires Prepared(env, evs) && Prepared(env, calls) && Within(calls, evs)
    requires k < |evs| && evs[k].Assign?
    ensures var t2 := After(env, other, t, next, calls).table;
      && StaticHit(env, t2, evs[k].member, evs[k].date) == StaticHit(env, t, evs[k].member, evs[k].date)
      && !Stranded(env, t2, evs[k].member, evs[k].date)
  {
    var p2 := After(env, other, t, next, calls);
    var m, d := evs[k].member, evs[k].date;
    RunFollowsLedger(env, other, t, next, calls);
    PreparedMember(env, evs, k);
    assert At(p2.table, Orig(d)) == At(t, Orig(d));
    assert CoverOk(env, t, next, Swept(calls, d), LastPick(p2.log, d), At(p2.table, Cov(d)), d);
  }

  /** A run within `evs` writes only on days that `evs` itself hits. */
  lemma CallsTouchOnlyHits(env: Env, other: Rotor, t: Table, evs: seq<Event>, calls: seq<Event>, d: Date)
    requires Within(calls, evs) && Worked(env, t, evs)
    requires LastPick(Ledger(env, other, t, true, calls), d).Some?
    ensures HitBefore(env, t, evs, d)
  {
    forall k | 0 <= k < |calls| && calls[k].Assign? ensures !Stranded(env, t, calls[k].member, calls[k].date) {
      assert Processes(calls, calls[k].member, calls[k].date);
      assert Processes(evs, calls[k].member, calls[k].date);
    }
    LedgerTransfer(env, other, t, t, calls);
    PlanTouchesHits(env, other, t, false, calls, d);
    var i :| 0 <= i < |calls| && calls[i].Assign? && calls[i].date == d && StaticHit(env, t, calls[i].member, d);
    assert Processes(calls, calls[i].member, d);
    var j :| 0 <= j < |evs| && evs[j].Assign? && evs[j].member == calls[i].member && evs[j].date == d;
    assert StaticHit(env, t, evs[j].member, d);
  }

  /** After the calls, the next run makes the commits it would have made without them. */
  lemma TrafficKeepsCommits(env: Env, rotor: Rotor, other: Rotor, t: Table, evs: seq<Event>, calls: seq<Event>,
                           next: RowId, next2: RowId)
    requires Shaped(t) && IdsBelow(t, next) && IdsBelow(t, next2) && Worked(env, t, evs)
    requires Prepared(env, evs) && Prepared(env, calls) && Within(calls, evs)
    ensures var p2 := After(env, other, t, next2, calls);
      && Shaped(p2.table) && IdsBelow(p2.table, p2.nextId)
      && After(env, rotor, p2.table, p2.nextId, evs).log == After(env, rotor, t, next, evs).log
  {
    var p2 := After(env, other, t, next2, calls);
    RunFollowsLedger(env, other, t, next2, calls);
    RunFollowsLedger(env, rotor, t, next, evs);
    RunFollowsLedger(env, rotor, p2.table, p2.nextId, evs);
    forall k | 0 <= k < |evs| && evs[k].Assign?
      ensures StaticHit(env, p2.table, evs[k].member, evs[k].date) == StaticHit(env, t, evs[k].member, evs[k].date)
      ensures !Stranded(env, p2.table, evs[k].member, evs[k].date)
    {
      DisturbedDay(env, other, t, evs, calls, next2, k);
    }
    LedgerTransfer(env, rotor, t, p2.table, evs);
    LedgerTransfer(env, rotor, t, t, evs);
  }

  /** ... and leaves every row as it would have been, date by date. */
  lemma TrafficKeepsCover(env: Env, rotor: Rotor, other: Rotor, t: Table, evs: seq<Event>, calls: seq<Event>,
                          next: RowId, next2: RowId, d: Date)
    requires Shaped(t) && IdsBelow(t, next) && IdsBelow(t, next2) && Worked(env, t, evs)
    requires Prepared(env, evs) && Prepared(env, calls) && Within(calls, evs)
    ensures var p2 := After(env, other, t, next2, calls);
      var (quiet, busy) := (After(env, rotor, t, next, evs).table, After(env, rotor, p2.table, p2.nextId, evs).table);
      At(busy, Orig(d)) == At(quiet, Orig(d)) && At(busy, Cov(d)) == At(quiet, Cov(d))
  {
    var p1 := After(env, rotor, t, next, evs);
    var p2 := After(env, other, t, next2, calls);
    TrafficKeepsCommits(env, rotor, other, t, evs, calls, next, next2);
    var p3 := After(env, rotor, p2.table, p2.nextId, evs);
    RunFollowsLedger(env, rotor, t, next, evs);
    RunFollowsLedger(env, other, t, next2, calls);
    RunFollowsLedger(env, rotor, p2.table, p2.nextId, evs);
    assert At(p2.table, Orig(d)) == At(t, Orig(d)) == At(p1.table, Orig(d));
    assert At(p3.table, Orig(d)) == At(p2.table, Orig(d));
    if LastPick(p2.log, d).Some? {
      CallsTouchOnlyHits(env, other, t, evs, calls, d);
      PlanTouchesHits(env, rotor, t, true, evs, d);
    }
    assert CoverOk(env, t, next, Swept(evs, d), LastPick(p1.log, d), At(p1.table, Cov(d)), d);
    assert CoverOk(env, t, next2, Swept(calls, d), LastPick(p2.log, d), At(p2.table, Cov(d)), d);
    assert CoverOk(env, p2.table, p2.nextId, Swept(evs, d), LastPick(p1.log, d), At(p3.table, Cov(d)), d);
    if LastPick(p1.log, d).Some? { PickedDayIsCovered(env, rotor, t, evs, d); }
    CoverIsRestored(env, t, p2.table, evs, calls, next, next2, p2.nextId, LastPick(p1.log, d), LastPick(p2.log, d),
                    At(p1.table, Cov(d)), At(p3.table, Cov(d)), d);
  }

  lemma PickedDayIsCovered(env: Env, rotor: Rotor, t: Table, evs: seq<Event>, d: Date)
    requires Worked(env, t, evs) && LastPick(Ledger(env, rotor, t, true, evs), d).Some?
    ensures Cov(d) in t
  {
    LedgerTransfer(env, rotor, t, t, evs);
    PlanTouchesHits(env, rotor, t, false, evs, d);
  }

  /** A cover that a run would pick again is the same whether or not calls picked one before it. */
  lemma CoverIsRestored(env: Env, t: Table, t2: Table, evs: seq<Event>, calls: seq<Event>,
                        next: RowId, next2: RowId, next3: RowId, pick: Option<nat>, called: Option<nat>,
                        quiet: Option<Row>, busy: Option<Row>, d: Date)
    requires Swept(calls, d) ==> Swept(evs, d)
    requires Swept(evs, d) ==> !Stale(env, t, d)
    requires At(t2, Orig(d)) == At(t, Orig(d))
    requires called.Some? ==> pick.Some?
    requires pick.Some? ==> Cov(d) in t
    requires CoverOk(env, t, next, Swept(evs, d), pick, quiet, d)
    requires CoverOk(env, t, next2, Swept(calls, d), called, At(t2, Cov(d)), d)
    requires CoverOk(env, t2, next3, Swept(evs, d), pick, busy, d)
    ensures busy == quiet
  {
  }

  /** Once a run over `evs` has happened, whatever runs happen in between, with whatever cursor,
      the next run ends on the same rows with the same commits. */
  lemma TrafficIsIrrelevant(env: Env, rotor: Rotor, other: Rotor, t: Table, evs: seq<Event>, calls: seq<Event>,
                           next: RowId, next2: RowId)
    requires Shaped(t) && IdsBelow(t, next) && IdsBelow(t, next2) && Worked(env, t, evs)
    requires Prepared(env, evs) && Prepared(env, calls) && Within(calls, evs)
    ensures var p2 := After(env, other, t, next2, calls);
      var (quiet, busy) := (After(env, rotor, t, next, evs), After(env, rotor, p2.table, p2.nextId, evs));
      busy.table == quiet.table && busy.log == quiet.log
  {
    var p2 := After(env, other, t, next2, calls);
    TrafficKeepsCommits(env, rotor, other, t, evs, calls, next, next2);
    var (busy, quiet) := (After(env, rotor, p2.table, p2.nextId, evs).table, After(env, rotor, t, next, evs).table);
    forall d ensures At(busy, Orig(d)) == At(quiet, Orig(d)) && At(busy, Cov(d)) == At(quiet, Cov(d)) {
      TrafficKeepsCover(env, rotor, other, t, evs, calls, next, next2, d);
    }
    EqualBySlot(busy, quiet);
  }

  ghost predicate Steady(env: Env, rotor: Rotor, t: Table, next: RowId, evs: seq<Event>) {
    After(env, rotor, t, next, evs).table == t
  }

  /** In particular, a table that its own run reproduces is restored exactly. */
  lemma SteadyIsRestored(env: Env, rotor: Rotor, other: Rotor, t: Table, next: RowId, evs: seq<Event>,
                         calls: seq<Event>, next2: RowId)
    requires Shaped(t) && IdsBelow(t, next) && IdsBelow(t, next2)
    requires Prepared(env, evs) && Prepared(env, calls) && Within(calls, evs)
    requires Steady(env, rotor, t, next, evs)
    ensures var p2 := After(env, other, t, next2, calls);
      var p3 := After(env, rotor, p2.table, p2.nextId, evs);
      p3.table == t && p3.log == After(env, rotor, t, next, evs).log
  {
    RunIsWorked(env, rotor, t, next, evs);
    TrafficIsIrrelevant(env, rotor, other, t, evs, calls, next, next2);
  }
}
