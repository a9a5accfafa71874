/** The promises of the reassign pass, in terms of leaves. */
module Reassign {
  import opened Wrappers
  import opened Rotation
  import opened Roster
  import opened CoverRuns

  /** Any order of any leaves of the environment; the pass uses the chronological one. */
  ghost predicate From(env: Env, order: seq<LeaveView>) {
    forall i :: 0 <= i < |order| ==> order[i] in env.leaves
  }

  /** The cursor of a reassign pass always starts unset. */
  const FRESH := Rotor(Source.Reassign, None)

  ghost predicate OnLeave(env: Env, m: Member, d: Date) {
    exists l :: l in env.leaves && l.active && l.member == m && l.start <= d <= l.end
  }

  // ---------- the events of a pass ----------

  lemma {:induction false} SweptAppend(xs: seq<Event>, ys: seq<Event>, d: Date)
    ensures Swept(xs + ys, d) <==> Swept(xs, d) || Swept(ys, d)
  {
    if ys == [] {
      assert xs + ys == xs;
    } else {
      assert (xs + ys)[..|xs + ys| - 1] == xs + ys[..|ys| - 1];
      SweptAppend(xs, ys[..|ys| - 1], d);
    }
  }

  lemma {:induction false} DayEventsAre(id: LeaveId, m: Member, lo: Date, hi: Date)
    ensures var ds := DayEvents(id, m, lo, hi);
      && |ds| == (if hi < lo then 0 else hi - lo + 1)
      && (forall i :: 0 <= i < |ds| ==> ds[i] == Assign(id, m, lo + i))
      && (forall d :: !Swept(ds, d))
    decreases hi - lo
  {
    if lo <= hi {
      DayEventsAre(id, m, lo, hi - 1);
    }
  }

  lemma {:induction false} PreparedDays(env: Env, xs: seq<Event>, id: LeaveId, m: Member, lo: Date, hi: Date)
    requires Prepared(env, xs)
    requires forall d :: lo <= d <= hi ==> Swept(xs, d) && m in Away(env, d)
    ensures Prepared(env, xs + DayEvents(id, m, lo, hi))
    decreases hi - lo
  {
    if hi < lo {
      assert xs + DayEvents(id, m, lo, hi) == xs;
    } else {
      PreparedDays(env, xs, id, m, lo, hi - 1);
      var before := xs + DayEvents(id, m, lo, hi - 1);
      SweptAppend(xs, DayEvents(id, m, lo, hi - 1), hi);
      assert xs + DayEvents(id, m, lo, hi) == before + [Assign(id, m, hi)];
      assert (before + [Assign(id, m, hi)])[..|before|] == before;
    }
  }

  lemma PreparedLeave(env: Env, xs: seq<Event>, l: LeaveView)
    requires ValidEnv(env) && l in env.leaves && Prepared(env, xs)
    ensures Prepared(env, xs + LeaveEvents(l))
  {
    var ys := xs + [Sweep(l.start, l.end)];
    assert ys[..|xs|] == xs;
    if l.active {
      PreparedDays(env, ys, l.id, l.member, l.start, l.end);
      assert xs + LeaveEvents(l) == ys + DayEvents(l.id, l.member, l.start, l.end);
    } else {
      assert xs + LeaveEvents(l) == ys;
    }
  }

  lemma {:induction false} PassIsPrepared(env: Env, order: seq<LeaveView>)
    requires ValidEnv(env) && From(env, order)
    ensures Prepared(env, AllEvents(order))
  {
    if order != [] {
      var n := |order| - 1;
      PassIsPrepared(env, order[..n]);
      PreparedLeave(env, AllEvents(order[..n]), order[n]);
    }
  }

  lemma ProcessesAppend(xs: seq<Event>, ys: seq<Event>, m: Member, d: Date)
    ensures Processes(xs + ys, m, d) <==> Processes(xs, m, d) || Processes(ys, m, d)
  {
    if Processes(xs, m, d) {
      var j :| 0 <= j < |xs| && xs[j].Assign? && xs[j].member == m && xs[j].date == d;
      assert (xs + ys)[j] == xs[j];
    }
    if Processes(ys, m, d) {
      var j :| 0 <= j < |ys| && ys[j].Assign? && ys[j].member == m && ys[j].date == d;
      assert (xs + ys)[|xs| + j] == ys[j];
    }
  }

  lemma LeaveProcesses(l: LeaveView, m: Member, d: Date)
    ensures Processes(LeaveEvents(l), m, d) <==> l.active && l.member == m && l.start <= d <= l.end
  {
    var days := ActiveDays(l);
    DayEventsAre(l.id, l.member, l.start, l.end);
    ProcessesAppend([Sweep(l.start, l.end)], days, m, d);
    if l.active && l.member == m && l.start <= d <= l.end {
      assert days[d - l.start] == Assign(l.id, m, d);
    }
  }

  lemma LeaveSweeps(l: LeaveView, d: Date)
    ensures Swept(LeaveEvents(l), d) <==> l.start <= d <= l.end
  {
    var days := ActiveDays(l);
    SweptAppend([Sweep(l.start, l.end)], days, d);
    DaysAreNotSwept(l.id, l.member, l.start, l.end, d);
    assert [Sweep(l.start, l.end)][..0] == [];
  }

  lemma {:induction false} DaysAreNotSwept(id: LeaveId, m: Member, lo: Date, hi: Date, d: Date)
    ensures !Swept(DayEvents(id, m, lo, hi), d)
    decreases hi - lo
  {
    if lo <= hi {
      DaysAreNotSwept(id, m, lo, hi - 1, d);
      var before := DayEvents(id, m, lo, hi - 1);
      assert (before + [Assign(id, m, hi)])[..|before|] == before;
    }
  }

  /** A pass processes exactly the days of its active leaves, and sweeps the days of all of them. */
  lemma {:induction false} PassEventsAre(order: seq<LeaveView>, m: Member, d: Date)
    ensures Processes(AllEvents(order), m, d) <==>
      exists l :: l in order && l.active && l.member == m && l.start <= d <= l.end
    ensures Swept(AllEvents(order), d) <==> exists l :: l in order && l.start <= d <= l.end
  {
    if order != [] {
      var n := |order| - 1;
      PassEventsAre(order[..n], m, d);
      LeaveProcesses(order[n], m, d);
      LeaveSweeps(order[n], d);
      ProcessesAppend(AllEvents(order[..n]), LeaveEvents(order[n]), m, d);
      SweptAppend(AllEvents(order[..n]), LeaveEvents(order[n]), d);
      assert order == order[..n] + [order[n]];
      assert forall l :: l in order <==> l in order[..n] || l == order[n];
    }
  }

  lemma PassWithin(calls: seq<LeaveView>, order: seq<LeaveView>)
    requires forall i :: 0 <= i < |calls| ==> calls[i] in order
    ensures Within(AllEvents(calls), AllEvents(order))
  {
    var xs, ys := AllEvents(calls), AllEvents(order);
    forall m, d | Processes(xs, m, d) ensures Processes(ys, m, d) {
      PassEventsAre(calls, m, d);
      PassEventsAre(order, m, d);
    }
    forall d | Swept(xs, d) ensures Swept(ys, d) {
      PassEventsAre(calls, 0, d);
      PassEventsAre(order, 0, d);
    }
  }

  // ---------- idempotency ----------

  ghost function Pass(env: Env, order: seq<LeaveView>, t: Table, next: RowId): Progress {
    After(env, FRESH, t, next, AllEvents(order))
  }

  /** No unswapped cover row belongs to somebody with an active leave that day. */
  ghost predicate Settled(env: Env, t: Table) {
    forall s :: s in t && s.isCover && !t[s].swapped ==> !OnLeave(env, t[s].member, s.date)
  }

  lemma SettledIsUndisturbed(env: Env, order: seq<LeaveView>, t: Table)
    requires From(env, order) && Settled(env, t)
    ensures Undisturbed(env, t, AllEvents(order))
  {
    var evs := AllEvents(order);
    forall k | 0 <= k < |evs| && evs[k].Assign? ensures !Stranded(env, t, evs[k].member, evs[k].date) {
      assert Processes(evs, evs[k].member, evs[k].date);
      PassEventsAre(order, evs[k].member, evs[k].date);
    }
  }

  /** From a settled table, running the pass again changes no row and ends on the same anchor. */
  lemma PassIsIdempotent(env: Env, order: seq<LeaveView>, t: Table, next: RowId)
    requires ValidEnv(env) && From(env, order) && Shaped(t) && IdsBelow(t, next)
    requires Settled(env, t)
    ensures var p := Pass(env, order, t, next);
      var q := Pass(env, order, p.table, p.nextId);
      q.table == p.table && q.log == p.log
  {
    PassIsPrepared(env, order);
    SettledIsUndisturbed(env, order, t);
    UndisturbedRunIsFixedPoint(env, FRESH, t, next, AllEvents(order));
  }

  /** The exact condition under which the second pass repeats the commits of the first. */
  lemma PassRepeatsIff(env: Env, order: seq<LeaveView>, t: Table, next: RowId)
    requires ValidEnv(env) && From(env, order) && Shaped(t) && IdsBelow(t, next)
    ensures var p := Pass(env, order, t, next);
      Pass(env, order, p.table, p.nextId).log == p.log <==> Undisturbed(env, t, AllEvents(order))
  {
    PassIsPrepared(env, order);
    SecondRunRepeatsIff(env, FRESH, t, next, AllEvents(order));
  }

  /** From any table, two passes settle it: the third equals the second. */
  lemma ThirdPassEqualsSecond(env: Env, order: seq<LeaveView>, t: Table, next: RowId)
    requires ValidEnv(env) && From(env, order) && Shaped(t) && IdsBelow(t, next)
    ensures var p := Pass(env, order, t, next);
      var q := Pass(env, order, p.table, p.nextId);
      var r := Pass(env, order, q.table, q.nextId);
      r.table == q.table && r.log == q.log
  {
    PassIsPrepared(env, order);
    ThirdRunEqualsSecond(env, FRESH, t, next, AllEvents(order));
  }

  /** The commits of a settled pass depend only on leaves, originals and the swapped covers. */
  lemma PassIgnoresUnswappedCovers(env: Env, order: seq<LeaveView>, t: Table, t': Table, next: RowId, next': RowId)
    requires ValidEnv(env) && From(env, order)
    requires Shaped(t) && IdsBelow(t, next) && Settled(env, t)
    requires Shaped(t') && IdsBelow(t', next') && Settled(env, t')
    requires forall d :: At(t, Orig(d)) == At(t', Orig(d))
    requires forall d :: Cov(d) in t && t[Cov(d)].swapped ==> Cov(d) in t' && t'[Cov(d)] == t[Cov(d)]
    requires forall d :: Cov(d) in t' && t'[Cov(d)].swapped ==> Cov(d) in t && t[Cov(d)] == t'[Cov(d)]
    ensures Pass(env, order, t, next).log == Pass(env, order, t', next').log
  {
    var evs := AllEvents(order);
    PassIsPrepared(env, order);
    RunFollowsLedger(env, FRESH, t, next, evs);
    RunFollowsLedger(env, FRESH, t', next', evs);
    SettledIsUndisturbed(env, order, t);
    UndisturbedLedger(env, FRESH, t, evs);
    forall i | 0 <= i < |evs| && evs[i].Assign?
      ensures StaticHit(env, t', evs[i].member, evs[i].date) == StaticHit(env, t, evs[i].member, evs[i].date)
      ensures !Stranded(env, t', evs[i].member, evs[i].date)
    {
      assert Processes(evs, evs[i].member, evs[i].date);
      PassEventsAre(order, evs[i].member, evs[i].date);
      SettledDay(env, t, t', evs[i].member, evs[i].date);
    }
    LedgerTransfer(env, FRESH, t, t', evs);
  }

  /** A day of an active leave on two tables that differ in unswapped covers only. */
  lemma SettledDay(env: Env, t: Table, t': Table, m: Member, d: Date)
    requires Settled(env, t) && Settled(env, t') && OnLeave(env, m, d)
    requires At(t, Orig(d)) == At(t', Orig(d))
    requires Cov(d) in t && t[Cov(d)].swapped ==> Cov(d) in t' && t'[Cov(d)] == t[Cov(d)]
    requires Cov(d) in t' && t'[Cov(d)].swapped ==> Cov(d) in t && t[Cov(d)] == t'[Cov(d)]
    ensures StaticHit(env, t', m, d) == StaticHit(env, t, m, d) && !Stranded(env, t', m, d)
  {
  }

  // ---------- immunity to ad-hoc traffic ----------

  /** After one pass, from any table, any ad-hoc calls on existing leaves, from any ad-hoc cursor, make no
      difference to the next pass: the same rows, with the same commits. */
  lemma AdHocTrafficIsUndone(env: Env, order: seq<LeaveView>, calls: seq<LeaveView>, adhoc: Option<Anchor>,
                             t: Table, next: RowId)
    requires ValidEnv(env) && From(env, order)
    requires forall i :: 0 <= i < |calls| ==> calls[i] in order
    requires Shaped(t) && IdsBelow(t, next)
    ensures var p := Pass(env, order, t, next);
      var quiet := Pass(env, order, p.table, p.nextId);
      var c := After(env, Rotor(AdHoc, adhoc), p.table, p.nextId, AllEvents(calls));
      var busy := Pass(env, order, c.table, c.nextId);
      busy.table == quiet.table && busy.log == quiet.log
  {
    var p := Pass(env, order, t, next);
    PassIsPrepared(env, order);
    RunFollowsLedger(env, FRESH, t, next, AllEvents(order));
    RunIsWorked(env, FRESH, t, next, AllEvents(order));
    TrafficBetweenPasses(env, order, calls, adhoc, p.table, p.nextId);
  }

  /** The same from a table that some run over the leaves has worked on. */
  lemma TrafficBetweenPasses(env: Env, order: seq<LeaveView>, calls: seq<LeaveView>, adhoc: Option<Anchor>,
                             t: Table, next: RowId)
    requires ValidEnv(env) && From(env, order)
    requires forall i :: 0 <= i < |calls| ==> calls[i] in order
    requires Shaped(t) && IdsBelow(t, next) && Worked(env, t, AllEvents(order))
    ensures var quiet := Pass(env, order, t, next);
      var c := After(env, Rotor(AdHoc, adhoc), t, next, AllEvents(calls));
      var busy := Pass(env, order, c.table, c.nextId);
      busy.table == quiet.table && busy.log == quiet.log
  {
    PassIsPrepared(env, order);
    PassIsPrepared(env, calls);
    PassWithin(calls, order);
    TrafficIsIrrelevant(env, FRESH, Rotor(AdHoc, adhoc), t, AllEvents(order), AllEvents(calls), next, next);
  }

  // ---------- soundness and completeness of covers ----------

  /** A working day of an active leave whose member holds the original: covered by the right row whenever
      anybody can stand in; an unswapped cover is a member who is not on leave; a swapped cover is untouched. */
  ghost predicate Handled(env: Env, t: Table, t': Table, d: Date)
    requires Orig(d) in t
  {
    && (Available(env, d) ==> Cov(d) in t' && t'[Cov(d)].original == Some(t[Orig(d)].id))
    && (Available(env, d) && !t'[Cov(d)].swapped ==>
          t'[Cov(d)].member in env.members && t'[Cov(d)].member !in Away(env, d))
    && (Cov(d) in t && t[Cov(d)].swapped ==> At(t', Cov(d)) == Some(t[Cov(d)]))
    && (!Available(env, d) ==> At(t', Cov(d)) == At(t, Cov(d)))
  }

  /** A run over some leaves, from whichever cursor, handles every such day of every active one. */
  lemma CoversAreSoundAndComplete(env: Env, rotor: Rotor, order: seq<LeaveView>, t: Table, next: RowId,
                                  l: LeaveView, d: Date)
    requires ValidEnv(env) && From(env, order) && Shaped(t) && IdsBelow(t, next)
    requires l in order && l.active && l.start <= d <= l.end && !ShouldSkipDate(env.holiday, d)
    requires Orig(d) in t && t[Orig(d)].member == l.member
    ensures Handled(env, t, After(env, rotor, t, next, AllEvents(order)).table, d)
  {
    var evs := AllEvents(order);
    PassIsPrepared(env, order);
    RunFollowsLedger(env, rotor, t, next, evs);
    var p := After(env, rotor, t, next, AllEvents(order));
    PassEventsAre(order, l.member, d);
    assert At(p.table, Orig(d)) == At(t, Orig(d));
    assert CoverOk(env, t, next, Swept(evs, d), LastPick(p.log, d), At(p.table, Cov(d)), d);
    MemberIsAway(env, order, l, d);
    if Available(env, d) {
      assert StaticHit(env, t, l.member, d);
      ProcessedHit(env, t, evs, l.member, d);
      PlanTouchesHits(env, rotor, t, true, evs, d);
    } else {
      UnavailableIsUntouched(env, p, t, next, evs, d);
    }
  }

  lemma MemberIsAway(env: Env, order: seq<LeaveView>, l: LeaveView, d: Date)
    requires ValidEnv(env) && From(env, order) && l in order && l.active && l.start <= d <= l.end
    ensures l.member in Away(env, d)
  {
    assert l in env.leaves;
  }

  lemma ProcessedHit(env: Env, t: Table, evs: seq<Event>, m: Member, d: Date)
    requires Processes(evs, m, d) && StaticHit(env, t, m, d)
    ensures HitBefore(env, t, evs, d)
  {
  }

  lemma UnavailableIsUntouched(env: Env, p: Progress, t: Table, next: RowId, evs: seq<Event>, d: Date)
    requires RunOk(env, t, next, evs, p) && !Available(env, d)
    ensures At(p.table, Cov(d)) == Base(env, t, Swept(evs, d), d)
  {
    assert CoverOk(env, t, next, Swept(evs, d), LastPick(p.log, d), At(p.table, Cov(d)), d);
  }

  /** Such a run never changes an original, never alters a swapped row in place, and deletes a cover
      only if its original is not on leave. */
  lemma RunFrame(env: Env, rotor: Rotor, order: seq<LeaveView>, t: Table, next: RowId, d: Date)
    requires ValidEnv(env) && From(env, order) && Shaped(t) && IdsBelow(t, next)
    ensures var t' := After(env, rotor, t, next, AllEvents(order)).table;
      && At(t', Orig(d)) == At(t, Orig(d))
      && (Cov(d) in t && t[Cov(d)].swapped && Cov(d) in t' ==> t'[Cov(d)] == t[Cov(d)])
      && (Cov(d) in t' && t'[Cov(d)].swapped ==> At(t, Cov(d)) == Some(t'[Cov(d)]))
      && (Cov(d) in t && Cov(d) !in t' <==> Stale(env, t, d) && exists l :: l in order && l.start <= d <= l.end)
  {
    var evs := AllEvents(order);
    PassIsPrepared(env, order);
    RunFollowsLedger(env, rotor, t, next, evs);
    var p := After(env, rotor, t, next, AllEvents(order));
    PassEventsAre(order, 0, d);
    assert At(p.table, Orig(d)) == At(t, Orig(d));
    assert CoverOk(env, t, next, Swept(evs, d), LastPick(p.log, d), At(p.table, Cov(d)), d);
  }

  // ---------- which leaves a run takes up ----------

  /** The run commits this day of leave `i`: its member holds the original, or was given its row in a swap; or is an
      unswapped cover on leave that no leave processed before has met on that day. */
  ghost predicate TakesUp(env: Env, t: Table, order: seq<LeaveView>, i: nat, d: Date)
    requires i < |order|
  {
    && order[i].active && order[i].start <= d <= order[i].end
    && (|| StaticHit(env, t, order[i].member, d)
        || (&& Stranded(env, t, order[i].member, d)
            && forall j :: 0 <= j < i && order[j].active && order[j].start <= d <= order[j].end ==>
                 !Meets(env, t, order[j].member, d)))
  }

  ghost predicate TakenUp(env: Env, t: Table, order: seq<LeaveView>, i: nat)
    requires i < |order|
  {
    exists d :: TakesUp(env, t, order, i, d)
  }

  lemma MetInOrder(env: Env, t: Table, order: seq<LeaveView>, d: Date)
    ensures MetBefore(env, t, AllEvents(order), d) <==>
      exists j :: 0 <= j < |order| && order[j].active && order[j].start <= d <= order[j].end
                  && Meets(env, t, order[j].member, d)
  {
    var evs := AllEvents(order);
    if MetBefore(env, t, evs, d) {
      var k :| 0 <= k < |evs| && evs[k].Assign? && evs[k].date == d && Meets(env, t, evs[k].member, d);
      PassEventsAre(order, evs[k].member, d);
      assert Processes(evs, evs[k].member, d);
    }
    forall j | 0 <= j < |order| && order[j].active && order[j].start <= d <= order[j].end
                && Meets(env, t, order[j].member, d)
      ensures MetBefore(env, t, evs, d)
    {
      PassEventsAre(order, order[j].member, d);
      assert order[j] in order;
      assert Processes(evs, order[j].member, d);
    }
  }

  /** The days of one leave, after the events `evs` of others. */
  ghost predicate DayCommits(env: Env, t: Table, evs: seq<Event>, m: Member, d: Date) {
    StaticHit(env, t, m, d) || (Stranded(env, t, m, d) && !MetBefore(env, t, evs, d))
  }

  lemma {:induction false} DaysAreUnmet(env: Env, t: Table, evs: seq<Event>, id: LeaveId, m: Member, lo: Date, hi: Date,
                                        d: Date)
    requires hi < d
    ensures MetBefore(env, t, evs + DayEvents(id, m, lo, hi), d) <==> MetBefore(env, t, evs, d)
    decreases hi - lo
  {
    if hi < lo {
      assert evs + DayEvents(id, m, lo, hi) == evs;
    } else {
      DaysAreUnmet(env, t, evs, id, m, lo, hi - 1, d);
      MetBeforeSnoc(env, t, evs + DayEvents(id, m, lo, hi - 1), Assign(id, m, hi), d);
      assert evs + DayEvents(id, m, lo, hi) == evs + DayEvents(id, m, lo, hi - 1) + [Assign(id, m, hi)];
    }
  }

  lemma {:induction false} DaysCommit(env: Env, rotor: Rotor, t: Table, evs: seq<Event>, id: LeaveId, m: Member,
                                      lo: Date, hi: Date, x: LeaveId)
    ensures CommitsFor(Ledger(env, rotor, t, true, evs + DayEvents(id, m, lo, hi)), x) <==>
      || CommitsFor(Ledger(env, rotor, t, true, evs), x)
      || (x == id && exists d :: lo <= d <= hi && DayCommits(env, t, evs, m, d))
    decreases hi - lo
  {
    if hi < lo {
      assert evs + DayEvents(id, m, lo, hi) == evs;
    } else {
      DaysCommit(env, rotor, t, evs, id, m, lo, hi - 1, x);
      OneDayCommits(env, rotor, t, evs, id, m, lo, hi, x);
    }
  }

  lemma OneDayLedger(env: Env, rotor: Rotor, t: Table, evs: seq<Event>, id: LeaveId, m: Member, lo: Date, d: Date)
    returns (k: nat)
    requires lo <= d
    ensures Ledger(env, rotor, t, true, evs + DayEvents(id, m, lo, d)) ==
      Ledger(env, rotor, t, true, evs + DayEvents(id, m, lo, d - 1))
      + if DayCommits(env, t, evs, m, d) then [Commit(id, d, k)] else []
  {
    var evs' := evs + DayEvents(id, m, lo, d - 1);
    var before := Ledger(env, rotor, t, true, evs');
    assert evs + DayEvents(id, m, lo, d) == evs' + [Assign(id, m, d)];
    LedgerSnoc(env, rotor, t, true, evs', Assign(id, m, d));
    PickedIffMet(env, rotor, t, evs', d);
    DaysAreUnmet(env, t, evs, id, m, lo, d - 1, d);
    k := 0;
    if DayCommits(env, t, evs, m, d) {
      PickExistsIff(env, Current(rotor, before), d);
      k := Pick(env, Current(rotor, before), d).value;
    } else {
      assert before + [] == before;
    }
  }

  lemma OneDayCommits(env: Env, rotor: Rotor, t: Table, evs: seq<Event>, id: LeaveId, m: Member,
                      lo: Date, d: Date, x: LeaveId)
    requires lo <= d
    ensures CommitsFor(Ledger(env, rotor, t, true, evs + DayEvents(id, m, lo, d)), x) <==>
      || CommitsFor(Ledger(env, rotor, t, true, evs + DayEvents(id, m, lo, d - 1)), x)
      || (x == id && DayCommits(env, t, evs, m, d))
  {
    var before := Ledger(env, rotor, t, true, evs + DayEvents(id, m, lo, d - 1));
    var k := OneDayLedger(env, rotor, t, evs, id, m, lo, d);
    CommitsForSnoc(before, Commit(id, d, k), x);
    assert before + [] == before;
  }

  /** The last commit of a leave is for the last of its days that commits. */
  lemma {:induction false} LastDayCommits(env: Env, rotor: Rotor, t: Table, evs: seq<Event>, id: LeaveId, m: Member,
                                          lo: Date, hi: Date)
    requires exists d :: lo <= d <= hi && DayCommits(env, t, evs, m, d)
    ensures var log := Ledger(env, rotor, t, true, evs + DayEvents(id, m, lo, hi));
      && log != [] && lo <= log[|log| - 1].date <= hi && DayCommits(env, t, evs, m, log[|log| - 1].date)
      && forall d :: log[|log| - 1].date < d <= hi ==> !DayCommits(env, t, evs, m, d)
    decreases hi - lo
  {
    var k := OneDayLedger(env, rotor, t, evs, id, m, lo, hi);
    var before := Ledger(env, rotor, t, true, evs + DayEvents(id, m, lo, hi - 1));
    if !DayCommits(env, t, evs, m, hi) {
      LastDayCommits(env, rotor, t, evs, id, m, lo, hi - 1);
      assert before + [] == before;
    }
  }

  lemma {:induction false} NoDayCommits(env: Env, rotor: Rotor, t: Table, evs: seq<Event>, id: LeaveId, m: Member,
                                        lo: Date, hi: Date)
    requires forall d :: lo <= d <= hi ==> !DayCommits(env, t, evs, m, d)
    ensures Ledger(env, rotor, t, true, evs + DayEvents(id, m, lo, hi)) == Ledger(env, rotor, t, true, evs)
    decreases hi - lo
  {
    if hi < lo {
      assert evs + DayEvents(id, m, lo, hi) == evs;
    } else {
      NoDayCommits(env, rotor, t, evs, id, m, lo, hi - 1);
      var k := OneDayLedger(env, rotor, t, evs, id, m, lo, hi);
    }
  }

  /** The ledger of a single leave: it ends on the last day that its member meets, and is empty if there is none. */
  lemma LedgerOfOneLeave(env: Env, rotor: Rotor, t: Table, l: LeaveView)
    ensures var log := Ledger(env, rotor, t, true, LeaveEvents(l));
      if exists d :: MeetsOn(env, t, l, d)
      then log != [] && MeetsOn(env, t, l, log[|log| - 1].date)
           && forall d :: MeetsOn(env, t, l, d) ==> d <= log[|log| - 1].date
      else log == []
  {
    var evs := [Sweep(l.start, l.end)];
    assert [] + evs == evs;
    LedgerSnoc(env, rotor, t, true, [], Sweep(l.start, l.end));
    forall d ensures MeetsOn(env, t, l, d) <==>
                     l.active && l.start <= d <= l.end && DayCommits(env, t, evs, l.member, d)
    {
      assert !MetBefore(env, t, evs, d);
    }
    if exists d :: MeetsOn(env, t, l, d) {
      LastDayCommits(env, rotor, t, evs, l.id, l.member, l.start, l.end);
    } else if l.active {
      NoDayCommits(env, rotor, t, evs, l.id, l.member, l.start, l.end);
    } else {
      assert evs + [] == evs;
    }
  }

  /** A day of an active leave on which its member meets a row of theirs. */
  ghost predicate MeetsOn(env: Env, t: Table, l: LeaveView, d: Date) {
    l.active && l.start <= d <= l.end && Meets(env, t, l.member, d)
  }

  lemma SweepCommitsNothing(env: Env, rotor: Rotor, t: Table, evs: seq<Event>, lo: Date, hi: Date, d: Date)
    ensures Ledger(env, rotor, t, true, evs + [Sweep(lo, hi)]) == Ledger(env, rotor, t, true, evs)
    ensures MetBefore(env, t, evs + [Sweep(lo, hi)], d) <==> MetBefore(env, t, evs, d)
  {
    LedgerSnoc(env, rotor, t, true, evs, Sweep(lo, hi));
    MetBeforeSnoc(env, t, evs, Sweep(lo, hi), d);
  }

  lemma OneLeaveCommits(env: Env, rotor: Rotor, t: Table, order: seq<LeaveView>, x: LeaveId)
    requires order != []
    ensures var n := |order| - 1;
      CommitsFor(Ledger(env, rotor, t, true, AllEvents(order)), x) <==>
      || CommitsFor(Ledger(env, rotor, t, true, AllEvents(order[..n])), x)
      || (x == order[n].id && TakenUp(env, t, order, n))
  {
    var n := |order| - 1;
    var (l, evs) := (order[n], AllEvents(order[..n]));
    var swept := evs + [Sweep(l.start, l.end)];
    SweepCommitsNothing(env, rotor, t, evs, l.start, l.end, 0);
    assert evs + LeaveEvents(l) == swept + ActiveDays(l);
    forall d ensures TakesUp(env, t, order, n, d) <==>
                     l.active && l.start <= d <= l.end && DayCommits(env, t, swept, l.member, d)
    {
      SweepCommitsNothing(env, rotor, t, evs, l.start, l.end, d);
      MetInOrder(env, t, order[..n], d);
    }
    if l.active {
      DaysCommit(env, rotor, t, swept, l.id, l.member, l.start, l.end, x);
    } else {
      assert swept + ActiveDays(l) == swept;
    }
  }

  /** The leaves that a run commits are the ones it takes up. */
  lemma {:induction false} RunTakesUp(env: Env, rotor: Rotor, t: Table, order: seq<LeaveView>, x: LeaveId)
    ensures CommitsFor(Ledger(env, rotor, t, true, AllEvents(order)), x) <==>
      exists i :: 0 <= i < |order| && order[i].id == x && TakenUp(env, t, order, i)
  {
    if order != [] {
      var n := |order| - 1;
      RunTakesUp(env, rotor, t, order[..n], x);
      OneLeaveCommits(env, rotor, t, order, x);
      forall i | 0 <= i < n ensures TakenUp(env, t, order[..n], i) <==> TakenUp(env, t, order, i) {
        forall d ensures TakesUp(env, t, order[..n], i, d) <==> TakesUp(env, t, order, i, d) {
        }
      }
    }
  }

  lemma SingleLeaveEvents(l: LeaveView)
    ensures AllEvents([l]) == LeaveEvents(l)
  {
    assert [l][..0] == [];
    assert [] + LeaveEvents(l) == LeaveEvents(l);
  }

  lemma TakesUpAlone(env: Env, t: Table, l: LeaveView)
    ensures TakenUp(env, t, [l], 0) <==> exists d :: MeetsOn(env, t, l, d)
  {
    forall d ensures MeetsOn(env, t, l, d) <==> TakesUp(env, t, [l], 0, d) {
    }
  }

  /** On its own a leave is taken up exactly when its member meets some day of it. */
  lemma OneLeaveTakesUp(env: Env, rotor: Rotor, t: Table, l: LeaveView, x: LeaveId)
    ensures CommitsFor(Ledger(env, rotor, t, true, LeaveEvents(l)), x) <==>
      x == l.id && exists d :: MeetsOn(env, t, l, d)
  {
    RunTakesUp(env, rotor, t, [l], x);
    SingleLeaveEvents(l);
    TakesUpAlone(env, t, l);
  }

  // ---------- repeats in the cover rotation ----------

  /** Each commit of a run records the pick made from the cursor the previous commit left. */
  lemma {:induction false} CommitsArePicks(env: Env, rotor: Rotor, p: Progress, evs: seq<Event>, i: nat)
    requires p.log == [] && i < |Run(env, rotor, p, evs).log|
    ensures var log := Run(env, rotor, p, evs).log;
      Pick(env, Current(rotor, log[..i]), log[i].date) == Some(log[i].slot)
  {
    var n := |evs| - 1;
    var before := Run(env, rotor, p, evs[..n]);
    var log := Run(env, rotor, p, evs).log;
    if i < |before.log| {
      CommitsArePicks(env, rotor, p, evs[..n], i);
      assert log[..i] == before.log[..i];
    } else {
      assert log[..i] == before.log;
    }
  }

  /** Working days walked from `d` to `e`, negative when `e` comes first. */
  function Gap(holiday: HolidayChecker, d: Date, e: Date): int {
    if e < d then 0 - |WorkingDays(holiday, e, d)| else |WorkingDays(holiday, d, e)|
  }

  lemma CandidateByGap(env: Env, d: Date, k: nat, e: Date)
    requires k < |env.members|
    ensures Candidate(env, Some(Anchor(d, k)), e) == ModNonNegative(k + Gap(env.holiday, d, e), |env.members|)
  {
    if d == e { assert WorkingDays(env.holiday, d, e) == {}; }
  }

  /** After `k` covered on `d`, the pick for `e`, earlier or later, is `k` again exactly when `k` is free and
      everybody between the candidate slot and `k` is on leave. The distance walked is minus the signed
      working-day gap, modulo the team. */
  lemma RepeatIff(env: Env, d: Date, k: nat, e: Date, gap: int)
    requires k < |env.members| && gap == Gap(env.holiday, d, e)
    ensures var n := |env.members|;
      var start := ModNonNegative(k + gap, n);
      Pick(env, Some(Anchor(d, k)), e) == Some(k) <==>
      && env.members[k] !in Away(env, e)
      && forall j: nat :: j < ModNonNegative(-gap, n) ==> env.members[Cyclic(start, j, n)] in Away(env, e)
  {
    var n := |env.members|;
    CandidateByGap(env, d, k, e);
    BackToStart(k, gap, n);
    PickIsAhead(env, Some(Anchor(d, k)), e, ModNonNegative(-gap, n));
  }

  /** A pick is the slot so many steps ahead of its candidate exactly when that slot is free and no nearer one is. */
  lemma PickIsAhead(env: Env, anchor: Option<Anchor>, e: Date, steps: nat)
    requires steps < |env.members| && Candidate(env, anchor, e) < |env.members|
    ensures var (n, start) := (|env.members|, Candidate(env, anchor, e));
      Pick(env, anchor, e) == Some(Cyclic(start, steps, n)) <==>
      && env.members[Cyclic(start, steps, n)] !in Away(env, e)
      && forall j: nat :: j < steps ==> env.members[Cyclic(start, j, n)] in Away(env, e)
  {
    var (n, start, away) := (|env.members|, Candidate(env, anchor, e), Away(env, e));
    var k := Cyclic(start, steps, n);
    if Pick(env, anchor, e) == Some(k) {
      FirstAvailableIsFirst(env.members, away, start, 0);
      var i: nat :| 0 <= i < n && Cyclic(start, i, n) == k
        && (forall j: nat :: 0 <= j < i ==> env.members[Cyclic(start, j, n)] in away);
      CyclicInjective(start, i, steps, n);
    } else if env.members[k] !in away && forall j: nat :: j < steps ==> env.members[Cyclic(start, j, n)] in away {
      FirstFreeIsReturned(env.members, away, start, 0, steps);
    }
  }

  lemma BackToStart(k: nat, gap: int, n: nat)
    requires k < n
    ensures Cyclic(ModNonNegative(k + gap, n), ModNonNegative(-gap, n), n) == k
  {
    var steps := ModNonNegative(-gap, n);
    ModAdd(k + gap, steps, n);
    ModAdd(-gap, k + gap, n);
    ModUnique(k, n, 0, k);
    assert steps + (k + gap) == (k + gap) + steps;
    assert -gap + (k + gap) == k;
  }

  lemma CyclicInjective(start: nat, i: nat, j: nat, n: nat)
    requires i < n && j < n && Cyclic(start, i, n) == Cyclic(start, j, n)
    ensures i == j
  {
    var x, y := (start + i) / n, (start + j) / n;
    assert start + i == x * n + (start + i) % n;
    assert start + j == y * n + (start + j) % n;
    MulDistributes(x, y, n);
    MulBound(x - y, n);
  }

  /** One working day apart, the same person covers twice exactly when all the others are on leave. */
  lemma NoRepeatNextDay(env: Env, d: Date, k: nat, e: Date)
    requires k < |env.members| && d < e && |WorkingDays(env.holiday, d, e)| == 1
    requires Available(env, e)
    ensures Pick(env, Some(Anchor(d, k)), e) == Some(k) <==>
      forall j :: 0 <= j < |env.members| && j != k ==> env.members[j] in Away(env, e)
  {
    var n := |env.members|;
    var start := ModNonNegative(k + 1, n);
    RepeatIff(env, d, k, e, 1);
    ModUnique(-1, n, -1, n - 1);
    if Pick(env, Some(Anchor(d, k)), e) == Some(k) {
      forall j | 0 <= j < n && j != k ensures env.members[j] in Away(env, e) {
        var i := CyclicReaches(start, j, n);
        BackToStart(k, 1, n);
        assert i != n - 1;
        assert env.members[Cyclic(start, i, n)] in Away(env, e);
      }
    } else if forall j :: 0 <= j < n && j != k ==> env.members[j] in Away(env, e) {
      var m :| 0 <= m < n && env.members[m] !in Away(env, e);
      forall j: nat | j < n - 1 ensures env.members[Cyclic(start, j, n)] in Away(env, e) {
        BackToStart(k, 1, n);
        if Cyclic(start, j, n) == k { CyclicInjective(start, j, n - 1, n); }
      }
    }
  }

  /** A gap that is a multiple of the team size, either way, repeats the person whenever they are free. */
  lemma FullTurnRepeats(env: Env, d: Date, k: nat, e: Date)
    requires k < |env.members| && Gap(env.holiday, d, e) % |env.members| == 0
    ensures Pick(env, Some(Anchor(d, k)), e) == Some(k) <==> env.members[k] !in Away(env, e)
  {
    var (n, gap) := (|env.members|, Gap(env.holiday, d, e));
    assert gap == (gap / n) * n;
    assert -gap == -(gap / n) * n;
    ModUnique(-gap, n, -(gap / n), 0);
    RepeatIff(env, d, k, e, gap);
  }

  /** A commit one working day after the date its cursor was left on, whether by the commit before it or by
      whoever wrote the cursor before the run, names the same slot exactly when all others are on leave. */
  lemma NextCoverRepeatsIff(env: Env, rotor: Rotor, t: Table, next: RowId, evs: seq<Event>, i: nat, d: Date, k: nat)
    requires i < |After(env, rotor, t, next, evs).log|
    requires var log := After(env, rotor, t, next, evs).log;
      && Current(rotor, log[..i]) == Some(Anchor(d, k)) && k < |env.members|
      && d < log[i].date && |WorkingDays(env.holiday, d, log[i].date)| == 1
    ensures var c := After(env, rotor, t, next, evs).log[i];
      c.slot == k <==> forall j :: 0 <= j < |env.members| && j != k ==> env.members[j] in Away(env, c.date)
  {
    var log := After(env, rotor, t, next, evs).log;
    CommitsArePicks(env, rotor, Progress(t, next, []), evs, i);
    PickExistsIff(env, Current(rotor, log[..i]), log[i].date);
    NoRepeatNextDay(env, d, k, log[i].date);
  }

  /** Two successive commits of one run, one working day apart, name the same person
      exactly when all the others are on leave on the second day. */
  lemma SuccessiveCovers(env: Env, rotor: Rotor, t: Table, next: RowId, evs: seq<Event>, i: nat)
    requires i + 1 < |After(env, rotor, t, next, evs).log|
    requires var log := After(env, rotor, t, next, evs).log;
      && log[i].date < log[i + 1].date && |WorkingDays(env.holiday, log[i].date, log[i + 1].date)| == 1
      && Committed(rotor.src, log[i].date, log[i].slot).Some?
    ensures var log := After(env, rotor, t, next, evs).log;
      log[i + 1].slot == log[i].slot <==>
        forall j :: 0 <= j < |env.members| && j != log[i].slot ==> env.members[j] in Away(env, log[i + 1].date)
  {
    var log := After(env, rotor, t, next, evs).log;
    CommitsArePicks(env, rotor, Progress(t, next, []), evs, i);
    assert log[..i + 1][i] == log[i];
    NextCoverRepeatsIff(env, rotor, t, next, evs, i + 1, log[i].date, log[i].slot);
  }
}
