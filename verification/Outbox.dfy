/** The notification outbox: one worker, bounded retries, capped exponential backoff.

Rows are numbered in order of enqueueing. Instants and durations are nanoseconds. Whether a channel
delivers is an input of each dispatch.
 */
module Outbox {

  const MAX_BACKOFF := 3_600_000_000_000
  const BATCH := 32
  const INT64_LIMIT := 0x8000_0000_0000_0000

  datatype Status = Pending | Sent | Dead
  datatype Row = Row(channel: string, attempts: nat, nextAttempt: int, status: Status)

  /** `overflow` is what the host converts an out-of-range float to: the language leaves it open. */
  datatype Config = Config(maxAttempts: int, backoffBase: int, channels: set<string>, overflow: int)

  ghost predicate ValidConfig(cfg: Config) {
    cfg.maxAttempts >= 1 && cfg.backoffBase > 0
  }

  // ---------- backoff ----------

  function Pow2(k: nat): nat {
    if k == 0 then 1 else 2 * Pow2(k - 1)
  }

  /** The exponential formula before clamping. */
  function Grown(base: int, attempts: int): int {
    base * Pow2(if attempts < 1 then 0 else attempts - 1)
  }

  function Delay(cfg: Config, attempts: int): int {
    var g := Grown(cfg.backoffBase, attempts);
    var d := if g < INT64_LIMIT then g else cfg.overflow;
    if d < MAX_BACKOFF then d else MAX_BACKOFF
  }

  lemma {:induction false} GrownGrows(base: int, a: int, b: int)
    requires base > 0 && a <= b
    ensures 0 < Grown(base, a) <= Grown(base, b)
    decreases b - a
  {
    Pow2Positive(if a < 1 then 0 else a - 1);
    if a < b {
      GrownGrows(base, a, b - 1);
      Pow2Positive(if b - 1 < 1 then 0 else b - 2);
      assert Grown(base, b) == Grown(base, b - 1) || Grown(base, b) == 2 * Grown(base, b - 1);
    }
  }

  lemma {:induction false} Pow2Positive(k: nat)
    ensures Pow2(k) >= 1
  {
    if k > 0 { Pow2Positive(k - 1); }
  }

  /** Without overflow, delays are positive, at most an hour, exactly the formula below the cap,
      and never shrink from one attempt to the next. */
  lemma DelayIsBackoff(cfg: Config, a: int, b: int)
    requires ValidConfig(cfg) && a <= b && Grown(cfg.backoffBase, b) < INT64_LIMIT
    ensures 0 < Delay(cfg, a) <= Delay(cfg, b) <= MAX_BACKOFF
    ensures Grown(cfg.backoffBase, a) <= MAX_BACKOFF ==> Delay(cfg, a) == Grown(cfg.backoffBase, a)
    ensures Grown(cfg.backoffBase, a) > MAX_BACKOFF ==> Delay(cfg, a) == MAX_BACKOFF
  {
    GrownGrows(cfg.backoffBase, a, b);
  }

  /** The delay of a valid configuration is a positive one exactly if the formula fits in 64 bits
      or the host converts the overflow to something positive. */
  lemma DelayIsPositiveIff(cfg: Config, a: int)
    requires ValidConfig(cfg)
    ensures Delay(cfg, a) <= MAX_BACKOFF
    ensures Delay(cfg, a) > 0 <==> Grown(cfg.backoffBase, a) < INT64_LIMIT || cfg.overflow > 0
  {
    GrownGrows(cfg.backoffBase, a, a);
  }

  // ---------- one dispatch ----------

  datatype Dispatch = Dispatch(id: nat, delivered: bool, at: int)

  function MarkSent(rows: seq<Row>, id: nat): seq<Row>
    requires id < |rows|
  {
    rows[id := rows[id].(status := Sent)]
  }

  function MarkFailed(rows: seq<Row>, id: nat, next: int): seq<Row>
    requires id < |rows|
  {
    rows[id := rows[id].(attempts := rows[id].attempts + 1, nextAttempt := next)]
  }

  function MarkDead(rows: seq<Row>, id: nat, at: int): seq<Row>
    requires id < |rows|
  {
    rows[id := rows[id].(status := Dead, attempts := rows[id].attempts + 1, nextAttempt := at)]
  }

  /** `row` is the copy claimed at the start of the batch. */
  function Dispatched(cfg: Config, rows: seq<Row>, row: Row, d: Dispatch): seq<Row>
    requires d.id < |rows|
  {
    if row.channel !in cfg.channels then MarkDead(rows, d.id, d.at)
    else if d.delivered then MarkSent(rows, d.id)
    else if row.attempts + 1 >= cfg.maxAttempts then MarkDead(rows, d.id, d.at)
    else MarkFailed(rows, d.id, d.at + Delay(cfg, row.attempts + 1))
  }

  lemma DispatchTouchesOne(cfg: Config, rows: seq<Row>, row: Row, d: Dispatch)
    requires d.id < |rows|
    ensures forall i :: 0 <= i < |rows| && i != d.id ==> Dispatched(cfg, rows, row, d)[i] == rows[i]
  {
  }

  /** Does the dispatch reach the channel's Send? */
  predicate Sends(cfg: Config, row: Row) {
    row.channel in cfg.channels
  }

  // ---------- runs of dispatches ----------

  /** Every dispatch is of a row that is pending at the time, as the claim query guarantees. */
  predicate Legal(cfg: Config, rows: seq<Row>, ds: seq<Dispatch>)
    decreases |ds|, 0
  {
    ds == [] ||
    (var n := |ds| - 1;
     && Legal(cfg, rows, ds[..n])
     && ds[n].id < |rows|
     && Rows(cfg, rows, ds[..n])[ds[n].id].status == Pending)
  }

  function Rows(cfg: Config, rows: seq<Row>, ds: seq<Dispatch>): (r: seq<Row>)
    requires Legal(cfg, rows, ds)
    ensures |r| == |rows|
    decreases |ds|, 1
  {
    if ds == [] then rows
    else
      var before := Rows(cfg, rows, ds[..|ds| - 1]);
      var d := ds[|ds| - 1];
      Dispatched(cfg, before, before[d.id], d)
  }

  lemma OneMoreDispatch(cfg: Config, rows: seq<Row>, ds: seq<Dispatch>, d: Dispatch)
    requires Legal(cfg, rows, ds) && d.id < |rows| && Rows(cfg, rows, ds)[d.id].status == Pending
    ensures Legal(cfg, rows, ds + [d])
    ensures Rows(cfg, rows, ds + [d]) == Dispatched(cfg, Rows(cfg, rows, ds), Rows(cfg, rows, ds)[d.id], d)
  {
    assert (ds + [d])[..|ds|] == ds;
  }

  function SendCount(cfg: Config, rows: seq<Row>, ds: seq<Dispatch>, id: nat): nat
    requires Legal(cfg, rows, ds)
  {
    if ds == [] then 0
    else
      var d := ds[|ds| - 1];
      SendCount(cfg, rows, ds[..|ds| - 1], id) +
      (if d.id == id && Sends(cfg, Rows(cfg, rows, ds[..|ds| - 1])[id]) then 1 else 0)
  }

  /** What a pending row may still cost: its remaining attempts, and never less than one. */
  function Budget(cfg: Config, row: Row): nat {
    if row.status != Pending then 0
    else if row.attempts < cfg.maxAttempts - 1 then cfg.maxAttempts - row.attempts
    else 1
  }

  function Potential(cfg: Config, rows: seq<Row>): nat {
    if rows == [] then 0 else Potential(cfg, rows[..|rows| - 1]) + Budget(cfg, rows[|rows| - 1])
  }

  lemma {:induction false} PotentialUpdate(cfg: Config, rows: seq<Row>, id: nat, row: Row)
    requires id < |rows|
    ensures Potential(cfg, rows[id := row]) == Potential(cfg, rows) - Budget(cfg, rows[id]) + Budget(cfg, row)
  {
    var n := |rows| - 1;
    if id == n {
      assert rows[id := row][..n] == rows[..n];
    } else {
      assert rows[id := row][..n] == rows[..n][id := row];
      PotentialUpdate(cfg, rows[..n], id, row);
    }
  }

  /** Every dispatch, delivered or not, brings the whole outbox strictly closer to being finished. */
  lemma DispatchDecreases(cfg: Config, rows: seq<Row>, d: Dispatch)
    requires d.id < |rows| && rows[d.id].status == Pending
    ensures Potential(cfg, Dispatched(cfg, rows, rows[d.id], d)) < Potential(cfg, rows)
  {
    var after := Dispatched(cfg, rows, rows[d.id], d);
    PotentialUpdate(cfg, rows, d.id, after[d.id]);
    assert after == rows[d.id := after[d.id]];
  }

  /** With no new rows there are at most `Potential` dispatches, whatever fails and whenever, and what is
      left afterwards has gone down by at least their number. */
  lemma {:induction false} DispatchesAreBounded(cfg: Config, rows: seq<Row>, ds: seq<Dispatch>)
    requires Legal(cfg, rows, ds)
    ensures |ds| + Potential(cfg, Rows(cfg, rows, ds)) <= Potential(cfg, rows)
    ensures |ds| == Potential(cfg, rows) ==>
      forall i :: 0 <= i < |rows| ==> Rows(cfg, rows, ds)[i].status != Pending
  {
    if ds != [] {
      var n := |ds| - 1;
      DispatchesAreBounded(cfg, rows, ds[..n]);
      DispatchDecreases(cfg, Rows(cfg, rows, ds[..n]), ds[n]);
    }
    NothingLeft(cfg, Rows(cfg, rows, ds));
  }

  lemma {:induction false} NothingLeft(cfg: Config, rows: seq<Row>)
    ensures Potential(cfg, rows) == 0 <==> forall i :: 0 <= i < |rows| ==> rows[i].status != Pending
  {
    if rows != [] {
      var n := |rows| - 1;
      NothingLeft(cfg, rows[..n]);
      assert forall i :: 0 <= i < n ==> rows[i] == rows[..n][i];
      assert rows[n].status == Pending ==> Budget(cfg, rows[n]) >= 1;
    }
  }

  /** A freshly enqueued row. */
  predicate IsNew(row: Row) {
    row.status == Pending && row.attempts == 0
  }

  /** A row is handed to its channel at most `maxAttempts` times, once too many never; a pending row has
      used up exactly as many attempts as it has been sent, and a finished one is never dispatched again. */
  lemma {:induction false} SendsAreBounded(cfg: Config, rows: seq<Row>, ds: seq<Dispatch>, id: nat)
    requires ValidConfig(cfg) && Legal(cfg, rows, ds) && id < |rows| && IsNew(rows[id])
    ensures var (row, n) := (Rows(cfg, rows, ds)[id], SendCount(cfg, rows, ds, id));
      && n <= cfg.maxAttempts
      && row.channel == rows[id].channel
      && (!Sends(cfg, row) ==> n == 0)
      && match row.status
         case Pending => n == row.attempts < cfg.maxAttempts
         case Sent => n == row.attempts + 1
         case Dead => row.attempts <= cfg.maxAttempts && n == if Sends(cfg, row) then cfg.maxAttempts else 0
  {
    if ds != [] {
      SendsAreBounded(cfg, rows, ds[..|ds| - 1], id);
    }
  }

  /** A row that is sent or dead stays as it is. */
  lemma {:induction false} FinishedForGood(cfg: Config, rows: seq<Row>, ds: seq<Dispatch>, k: nat, id: nat)
    requires Legal(cfg, rows, ds) && k <= |ds| && Legal(cfg, rows, ds[..k]) && id < |rows|
    requires Rows(cfg, rows, ds[..k])[id].status != Pending
    ensures Rows(cfg, rows, ds)[id] == Rows(cfg, rows, ds[..k])[id]
    ensures SendCount(cfg, rows, ds, id) == SendCount(cfg, rows, ds[..k], id)
  {
    if k < |ds| {
      var n := |ds| - 1;
      assert ds[..n][..k] == ds[..k];
      FinishedForGood(cfg, rows, ds[..n], k, id);
    } else {
      assert ds[..k] == ds;
    }
  }

  lemma {:induction false} Undispatched(cfg: Config, rows: seq<Row>, ds: seq<Dispatch>, id: nat)
    requires Legal(cfg, rows, ds) && id < |rows| && forall j :: 0 <= j < |ds| ==> ds[j].id != id
    ensures Rows(cfg, rows, ds)[id] == rows[id]
  {
    if ds != [] {
      Undispatched(cfg, rows, ds[..|ds| - 1], id);
    }
  }

  /** What has become of a row that a dispatch found as `before`: sent exactly if it was delivered, given up exactly if
      its channel is unknown or this was the last attempt, and otherwise put off for the delay of the next one. */
  ghost predicate Outcome(cfg: Config, before: Row, d: Dispatch, after: Row) {
    && (after.status == Sent <==> before.channel in cfg.channels && d.delivered)
    && (after.status == Pending <==>
          before.channel in cfg.channels && !d.delivered && before.attempts + 1 < cfg.maxAttempts)
    && after.channel == before.channel
    && after.attempts == before.attempts + (if after.status == Sent then 0 else 1)
    && after.nextAttempt ==
       match after.status
       case Pending => d.at + Delay(cfg, before.attempts + 1)
       case Sent => before.nextAttempt
       case Dead => d.at
  }

  /** Over a whole run, a row is what its last dispatch made of it. */
  lemma {:induction false} LastDispatchDecides(cfg: Config, rows: seq<Row>, ds: seq<Dispatch>, id: nat, k: nat)
    requires Legal(cfg, rows, ds) && id < |rows| && k < |ds| && ds[k].id == id
    requires forall j :: k < j < |ds| ==> ds[j].id != id
    ensures Legal(cfg, rows, ds[..k]) && Outcome(cfg, Rows(cfg, rows, ds[..k])[id], ds[k], Rows(cfg, rows, ds)[id])
  {
    var n := |ds| - 1;
    if k < n {
      assert ds[..n][..k] == ds[..k];
      LastDispatchDecides(cfg, rows, ds[..n], id, k);
    }
  }

  // ---------- the worker ----------

  predicate Due(row: Row, now: int) {
    row.status == Pending && row.nextAttempt <= now
  }

  /** The claim query: due rows, earliest first, at most a batch, none skipped in favour of a later one. */
  ghost predicate IsClaim(rows: seq<Row>, now: int, ids: seq<nat>) {
    && |ids| <= BATCH
    && (forall i :: 0 <= i < |ids| ==> ids[i] < |rows| && Due(rows[ids[i]], now))
    && (forall i, j :: 0 <= i < j < |ids| ==> ids[i] != ids[j] && rows[ids[i]].nextAttempt <= rows[ids[j]].nextAttempt)
    && (forall r :: 0 <= r < |rows| && Due(rows[r], now) && r !in ids ==>
          |ids| == BATCH && forall i :: 0 <= i < |ids| ==> rows[ids[i]].nextAttempt <= rows[r].nextAttempt)
  }

  /** The first `n` dispatches of a batch, one for each claimed row in turn. */
  function InOrder(batch: seq<nat>, delivered: nat -> bool, clock: nat -> int, n: nat): (ds: seq<Dispatch>)
    requires n <= |batch|
    ensures |ds| == n && forall i :: 0 <= i < n ==> ds[i] == Dispatch(batch[i], delivered(batch[i]), clock(i))
  {
    if n == 0 then []
    else InOrder(batch, delivered, clock, n - 1) + [Dispatch(batch[n - 1], delivered(batch[n - 1]), clock(n - 1))]
  }

  class Worker {
    const cfg: Config
    var rows: seq<Row>

    constructor (cfg: Config)
      ensures this.cfg == cfg && rows == []
    {
      this.cfg := cfg;
      rows := [];
    }

    method Enqueue(channel: string, now: int) returns (id: nat)
      modifies this
      ensures id == |old(rows)| && rows == old(rows) + [Row(channel, 0, now, Pending)]
    {
      id := |rows|;
      rows := rows + [Row(channel, 0, now, Pending)];
    }

    /** The earliest due row not claimed yet, if any. */
    method NextDue(now: int, taken: seq<nat>) returns (found: bool, id: nat)
      ensures found ==> id < |rows| && Due(rows[id], now) && id !in taken
      ensures found ==>
        (forall r :: 0 <= r < |rows| && Due(rows[r], now) && r !in taken ==>
           rows[id].nextAttempt <= rows[r].nextAttempt)
      ensures !found ==> forall r :: 0 <= r < |rows| && Due(rows[r], now) ==> r in taken
    {
      found, id := false, 0;
      for i := 0 to |rows|
        invariant found ==> id < i && Due(rows[id], now) && id !in taken
        invariant found ==>
          (forall r :: 0 <= r < i && Due(rows[r], now) && r !in taken ==> rows[id].nextAttempt <= rows[r].nextAttempt)
        invariant !found ==> forall r :: 0 <= r < i && Due(rows[r], now) ==> r in taken
      {
        if Due(rows[i], now) && i !in taken && (!found || rows[i].nextAttempt < rows[id].nextAttempt) {
          found, id := true, i;
        }
      }
    }

    method ClaimDueOutboxEntries(now: int) returns (ids: seq<nat>)
      ensures IsClaim(rows, now, ids)
    {
      ids := [];
      while |ids| < BATCH
        invariant |ids| <= BATCH
        invariant forall i :: 0 <= i < |ids| ==> ids[i] < |rows| && Due(rows[ids[i]], now)
        invariant forall i, j :: 0 <= i < j < |ids| ==>
          ids[i] != ids[j] && rows[ids[i]].nextAttempt <= rows[ids[j]].nextAttempt
        invariant forall r, i :: 0 <= r < |rows| && Due(rows[r], now) && r !in ids && 0 <= i < |ids| ==>
          rows[ids[i]].nextAttempt <= rows[r].nextAttempt
      {
        var found, id := NextDue(now, ids);
        if !found {
          return;
        }
        ids := ids + [id];
      }
    }

    method ComputeNextAttempt(attempts: int, now: int) returns (next: int)
      ensures next == now + Delay(cfg, attempts)
    {
      var a := if attempts < 1 then 1 else attempts;
      var d := cfg.backoffBase * Pow2(a - 1);
      if d >= INT64_LIMIT {
        d := cfg.overflow;
      }
      if d > MAX_BACKOFF {
        d := MAX_BACKOFF;
      }
      next := now + d;
    }

    method DispatchRow(row: Row, d: Dispatch)
      requires d.id < |rows|
      modifies this
      ensures rows == Dispatched(cfg, old(rows), row, d)
    {
      if row.channel !in cfg.channels {
        rows := MarkDead(rows, d.id, d.at);
        return;
      }
      if d.delivered {
        rows := MarkSent(rows, d.id);
        return;
      }
      var attempts := row.attempts + 1;
      if attempts >= cfg.maxAttempts {
        rows := MarkDead(rows, d.id, d.at);
        return;
      }
      var next := ComputeNextAttempt(attempts, d.at);
      rows := MarkFailed(rows, d.id, next);
    }

    /** A dispatch leaves the copies claimed after it up to date. */
    lemma LaterClaimsStay(cfg: Config, rows: seq<Row>, batch: seq<nat>, claimed: seq<Row>, i: nat, d: Dispatch)
      requires i < |batch| == |claimed| && d.id == batch[i]
      requires forall j :: 0 <= j < |batch| ==> batch[j] < |rows|
      requires forall j, k :: 0 <= j < k < |batch| ==> batch[j] != batch[k]
      requires forall j :: i <= j < |batch| ==> rows[batch[j]] == claimed[j]
      ensures forall j :: i < j < |batch| ==> Dispatched(cfg, rows, claimed[i], d)[batch[j]] == claimed[j]
    {
      DispatchTouchesOne(cfg, rows, claimed[i], d);
    }

    /** One tick. `delivered` says which sends succeed, `clock` when each dispatch happens;
        the batch stops early when cancelled. */
    method Drain(now: int, delivered: nat -> bool, clock: nat -> int, cancelAfter: nat)
      returns (ghost ds: seq<Dispatch>, batch: seq<nat>)
      modifies this
      ensures IsClaim(old(rows), now, batch)
      ensures Legal(cfg, old(rows), ds) && rows == Rows(cfg, old(rows), ds)
      ensures ds == InOrder(batch, delivered, clock, if cancelAfter < |batch| then cancelAfter else |batch|)
    {
      batch := ClaimDueOutboxEntries(now);
      var rows0 := rows;
      var claimed := seq(|batch|, i requires 0 <= i < |batch| => rows0[batch[i]]);
      ds := DispatchClaimed(batch, claimed, delivered, clock, cancelAfter);
    }

    /** The loop of a tick over the claimed rows. */
    method DispatchClaimed(batch: seq<nat>, claimed: seq<Row>, delivered: nat -> bool, clock: nat -> int,
                           cancelAfter: nat)
      returns (ghost ds: seq<Dispatch>)
      requires |batch| == |claimed|
      requires forall j :: 0 <= j < |batch| ==>
        batch[j] < |rows| && rows[batch[j]] == claimed[j] && claimed[j].status == Pending
      requires forall j, k :: 0 <= j < k < |batch| ==> batch[j] != batch[k]
      modifies this
      ensures Legal(cfg, old(rows), ds) && rows == Rows(cfg, old(rows), ds)
      ensures ds == InOrder(batch, delivered, clock, if cancelAfter < |batch| then cancelAfter else |batch|)
    {
      ghost var rows0 := rows;
      ds := [];
      for i := 0 to |batch|
        invariant i <= cancelAfter && ds == InOrder(batch, delivered, clock, i)
        invariant Legal(cfg, rows0, ds) && rows == Rows(cfg, rows0, ds)
        invariant forall j :: i <= j < |batch| ==> rows[batch[j]] == claimed[j]
      {
        if i == cancelAfter {
          return;
        }
        var d := Dispatch(batch[i], delivered(batch[i]), clock(i));
        OneMoreDispatch(cfg, rows0, ds, d);
        LaterClaimsStay(cfg, rows, batch, claimed, i, d);
        DispatchRow(claimed[i], d);
        ds := ds + [d];
      }
    }
  }

  // ---------- running until everything is finished ----------

  /** An uncancelled tick: what it claimed at `now` and the dispatches it made, the last one not after `end`. */
  datatype Tick = Tick(now: int, ids: seq<nat>, ds: seq<Dispatch>, end: int)

  ghost predicate TickOf(cfg: Config, rows: seq<Row>, t: Tick) {
    && IsClaim(rows, t.now, t.ids) && t.now <= t.end
    && Legal(cfg, rows, t.ds) && |t.ds| == |t.ids|
    && (forall i :: 0 <= i < |t.ds| ==> t.ds[i].id == t.ids[i] && t.now <= t.ds[i].at <= t.end)
  }

  /** The first `n` ticks follow each other, at any pace, with no new rows in between. */
  ghost predicate Follows(cfg: Config, rows: seq<Row>, ticks: seq<Tick>, n: nat)
    requires n <= |ticks|
    decreases n, 0
  {
    n == 0 ||
    (&& Follows(cfg, rows, ticks, n - 1)
     && TickOf(cfg, RowsAt(cfg, rows, ticks, n - 1), ticks[n - 1])
     && (n > 1 ==> ticks[n - 2].end <= ticks[n - 1].now))
  }

  /** The rows once `n` ticks have passed. */
  ghost function RowsAt(cfg: Config, rows: seq<Row>, ticks: seq<Tick>, n: nat): (r: seq<Row>)
    requires n <= |ticks| && Follows(cfg, rows, ticks, n)
    ensures |r| == |rows|
    decreases n, 1
  {
    if n == 0 then rows else Rows(cfg, RowsAt(cfg, rows, ticks, n - 1), ticks[n - 1].ds)
  }

  lemma {:induction false} FollowsPrefix(cfg: Config, rows: seq<Row>, ticks: seq<Tick>, i: nat, n: nat)
    requires i <= n <= |ticks| && Follows(cfg, rows, ticks, n)
    ensures Follows(cfg, rows, ticks, i)
  {
    if i < n { FollowsPrefix(cfg, rows, ticks, i, n - 1); }
  }

  lemma {:induction false} Unclaimed(cfg: Config, rows: seq<Row>, ticks: seq<Tick>, i: nat, n: nat, id: nat)
    requires i <= n <= |ticks| && Follows(cfg, rows, ticks, n) && id < |rows|
    requires forall x :: i <= x < n ==> id !in ticks[x].ids
    ensures Follows(cfg, rows, ticks, i) && RowsAt(cfg, rows, ticks, n)[id] == RowsAt(cfg, rows, ticks, i)[id]
  {
    if i < n {
      Unclaimed(cfg, rows, ticks, i, n - 1, id);
      UnclaimedTick(cfg, RowsAt(cfg, rows, ticks, n - 1), ticks[n - 1], id);
    }
  }

  lemma UnclaimedTick(cfg: Config, rows: seq<Row>, t: Tick, id: nat)
    requires TickOf(cfg, rows, t) && id < |rows| && id !in t.ids
    ensures Rows(cfg, rows, t.ds)[id] == rows[id]
  {
    forall j | 0 <= j < |t.ds| ensures t.ds[j].id != id {
      assert t.ds[j].id == t.ids[j];
    }
    Undispatched(cfg, rows, t.ds, id);
  }

  lemma ClaimedOnce(cfg: Config, rows: seq<Row>, t: Tick, a: nat)
    requires TickOf(cfg, rows, t) && a < |t.ds|
    ensures t.ds[a].id < |rows| && Legal(cfg, rows, t.ds[..a])
    ensures Rows(cfg, rows, t.ds[..a])[t.ds[a].id] == rows[t.ds[a].id]
    ensures Outcome(cfg, rows[t.ds[a].id], t.ds[a], Rows(cfg, rows, t.ds)[t.ds[a].id])
  {
    var id := t.ds[a].id;
    assert id == t.ids[a];
    forall j | 0 <= j < |t.ds| && j != a ensures t.ds[j].id != id {
      assert t.ds[j].id == t.ids[j];
    }
    LastDispatchDecides(cfg, rows, t.ds, id, a);
    Undispatched(cfg, rows, t.ds[..a], id);
  }

  /** A row that is claimed again was not delivered the last time, has used up one more attempt, and has waited for the
      delay of that attempt since. */
  lemma RetriesWait(cfg: Config, rows: seq<Row>, ticks: seq<Tick>, i: nat, a: nat, j: nat)
    requires i < j < |ticks| && Follows(cfg, rows, ticks, j + 1) && a < |ticks[i].ds|
    requires var id := ticks[i].ds[a].id; id in ticks[j].ids && forall x :: i < x < j ==> id !in ticks[x].ids
    ensures Follows(cfg, rows, ticks, i) && Follows(cfg, rows, ticks, j)
    ensures var (id, d) := (ticks[i].ds[a].id, ticks[i].ds[a]);
      && id < |rows| && !d.delivered
      && RowsAt(cfg, rows, ticks, j)[id].attempts == RowsAt(cfg, rows, ticks, i)[id].attempts + 1
      && ticks[j].now >= d.at + Delay(cfg, RowsAt(cfg, rows, ticks, j)[id].attempts)
  {
    var id := ticks[i].ds[a].id;
    FollowsPrefix(cfg, rows, ticks, i, j + 1);
    FollowsPrefix(cfg, rows, ticks, i + 1, j + 1);
    ClaimedOnce(cfg, RowsAt(cfg, rows, ticks, i), ticks[i], a);
    Unclaimed(cfg, rows, ticks, i + 1, j, id);
    var k :| 0 <= k < |ticks[j].ids| && ticks[j].ids[k] == id;
    assert Due(RowsAt(cfg, rows, ticks, j)[id], ticks[j].now);
  }

  /** Every pending row is due by `limit`. */
  ghost predicate DueBy(rows: seq<Row>, limit: int) {
    forall i :: 0 <= i < |rows| && rows[i].status == Pending ==> rows[i].nextAttempt <= limit
  }

  /** No delay exceeds the maximum, whatever an overflowing conversion gives, so neither does any wait. */
  lemma {:induction false} DispatchesKeepDue(cfg: Config, rows: seq<Row>, ds: seq<Dispatch>, end: int)
    requires Legal(cfg, rows, ds) && DueBy(rows, end + MAX_BACKOFF)
    requires forall i :: 0 <= i < |ds| ==> ds[i].at <= end
    ensures DueBy(Rows(cfg, rows, ds), end + MAX_BACKOFF)
  {
    if ds != [] {
      var n := |ds| - 1;
      assert forall i :: 0 <= i < n ==> ds[..n][i] == ds[i];
      DispatchesKeepDue(cfg, rows, ds[..n], end);
      var before := Rows(cfg, rows, ds[..n]);
      DispatchTouchesOne(cfg, before, before[ds[n].id], ds[n]);
    }
  }

  /** A tick that finds every pending row due makes progress unless nothing is pending. */
  lemma TickProgress(cfg: Config, rows: seq<Row>, t: Tick)
    requires TickOf(cfg, rows, t) && DueBy(rows, t.now)
    ensures Potential(cfg, rows) > 0 ==> Potential(cfg, Rows(cfg, rows, t.ds)) < Potential(cfg, rows)
  {
    DispatchesAreBounded(cfg, rows, t.ds);
    NothingLeft(cfg, rows);
    if Potential(cfg, rows) > 0 {
      var r :| 0 <= r < |rows| && rows[r].status == Pending;
      assert Due(rows[r], t.now);
      assert t.ids != [];
    }
  }

  /** At the first tick nobody has longer to wait than a maximal backoff. */
  ghost predicate WaitsAreBounded(rows: seq<Row>, ticks: seq<Tick>) {
    ticks != [] ==> DueBy(rows, ticks[0].now + MAX_BACKOFF)
  }

  /** After every tick, pending rows wait at most a maximal backoff from its end. */
  lemma {:induction false} DueAfterTick(cfg: Config, rows: seq<Row>, ticks: seq<Tick>, n: nat)
    requires 0 < n <= |ticks| && Follows(cfg, rows, ticks, n) && WaitsAreBounded(rows, ticks)
    ensures DueBy(RowsAt(cfg, rows, ticks, n), ticks[n - 1].end + MAX_BACKOFF)
  {
    if n > 1 { DueAfterTick(cfg, rows, ticks, n - 1); }
    DispatchesKeepDue(cfg, RowsAt(cfg, rows, ticks, n - 1), ticks[n - 1].ds, ticks[n - 1].end);
  }

  /** Over any stretch of ticks, either no row changed or an attempt was used up. */
  lemma {:induction false} StretchOfTicks(cfg: Config, rows: seq<Row>, ticks: seq<Tick>, i: nat, n: nat)
    requires i <= n <= |ticks| && Follows(cfg, rows, ticks, n)
    ensures Follows(cfg, rows, ticks, i)
    ensures RowsAt(cfg, rows, ticks, n) == RowsAt(cfg, rows, ticks, i) ||
      Potential(cfg, RowsAt(cfg, rows, ticks, n)) < Potential(cfg, RowsAt(cfg, rows, ticks, i))
  {
    if i < n {
      StretchOfTicks(cfg, rows, ticks, i, n - 1);
      DispatchesAreBounded(cfg, RowsAt(cfg, rows, ticks, n - 1), ticks[n - 1].ds);
    }
  }

  lemma OneTick(cfg: Config, rows: seq<Row>, ticks: seq<Tick>, n: nat)
    requires n < |ticks| && Follows(cfg, rows, ticks, n + 1)
    ensures var (before, after) := (RowsAt(cfg, rows, ticks, n), RowsAt(cfg, rows, ticks, n + 1));
      var (p, q) := (Potential(cfg, before), Potential(cfg, after));
      q <= p && (DueBy(RowsAt(cfg, rows, ticks, n), ticks[n].now) ==> q < p || p == 0)
  {
    DispatchesAreBounded(cfg, RowsAt(cfg, rows, ticks, n), ticks[n].ds);
    if DueBy(RowsAt(cfg, rows, ticks, n), ticks[n].now) {
      TickProgress(cfg, RowsAt(cfg, rows, ticks, n), ticks[n]);
    }
  }

  /** A tick an hour after the end of tick `i`, with any ticks in between, ends a stretch that used up an attempt,
      unless nothing was left. */
  lemma HourUsesAttempt(cfg: Config, rows: seq<Row>, ticks: seq<Tick>, i: nat, j: nat)
    requires i < j < |ticks| && Follows(cfg, rows, ticks, |ticks|) && WaitsAreBounded(rows, ticks)
    requires ticks[i].end + MAX_BACKOFF <= ticks[j].now
    ensures Follows(cfg, rows, ticks, i + 1) && Follows(cfg, rows, ticks, j + 1)
    ensures var (before, after) := (RowsAt(cfg, rows, ticks, i + 1), RowsAt(cfg, rows, ticks, j + 1));
      var (p, q) := (Potential(cfg, before), Potential(cfg, after));
      q < p || q == 0
  {
    FollowsPrefix(cfg, rows, ticks, i + 1, |ticks|);
    FollowsPrefix(cfg, rows, ticks, j + 1, |ticks|);
    StretchOfTicks(cfg, rows, ticks, i + 1, j);
    OneTick(cfg, rows, ticks, j);
    DueInAnHour(cfg, rows, ticks, i, ticks[j].now);
  }

  lemma DueInAnHour(cfg: Config, rows: seq<Row>, ticks: seq<Tick>, i: nat, later: int)
    requires i < |ticks| && Follows(cfg, rows, ticks, i + 1) && WaitsAreBounded(rows, ticks)
    requires ticks[i].end + MAX_BACKOFF <= later
    ensures DueBy(RowsAt(cfg, rows, ticks, i + 1), later)
  {
    DueAfterTick(cfg, rows, ticks, i + 1);
    DueLater(RowsAt(cfg, rows, ticks, i + 1), ticks[i].end + MAX_BACKOFF, later);
  }

  lemma DueLater(rows: seq<Row>, limit: int, later: int)
    requires DueBy(rows, limit) && limit <= later
    ensures DueBy(rows, later)
  {
  }

  /** Ticks picked from a run, each at least an hour after the end of the one picked before. */
  ghost predicate HourApart(ticks: seq<Tick>, marks: seq<nat>) {
    && (forall k :: 0 <= k < |marks| ==> marks[k] < |ticks|)
    && (forall k :: 0 < k < |marks| ==>
          marks[k - 1] < marks[k] && ticks[marks[k - 1]].end + MAX_BACKOFF <= ticks[marks[k]].now)
  }

  lemma FewerMarks(ticks: seq<Tick>, marks: seq<nat>, n: nat)
    requires HourApart(ticks, marks) && n <= |marks|
    ensures HourApart(ticks, marks[..n])
  {
    assert forall k :: 0 <= k < n ==> marks[..n][k] == marks[k];
  }

  /** After `n` ticks at least `used` attempts are gone, or none is left. */
  ghost predicate UsedUp(cfg: Config, rows: seq<Row>, ticks: seq<Tick>, n: nat, used: nat)
    requires n <= |ticks|
  {
    && Follows(cfg, rows, ticks, n)
    && Potential(cfg, RowsAt(cfg, rows, ticks, n)) <=
       if used < Potential(cfg, rows) then Potential(cfg, rows) - used else 0
  }

  lemma OneMoreMark(cfg: Config, rows: seq<Row>, ticks: seq<Tick>, i: nat, j: nat, used: nat)
    requires i < j < |ticks| && Follows(cfg, rows, ticks, |ticks|) && WaitsAreBounded(rows, ticks)
    requires ticks[i].end + MAX_BACKOFF <= ticks[j].now && UsedUp(cfg, rows, ticks, i + 1, used)
    ensures UsedUp(cfg, rows, ticks, j + 1, used + 1)
  {
    HourUsesAttempt(cfg, rows, ticks, i, j);
  }

  /** Every marked tick but the first has used up an attempt since the one before, until none is left. */
  lemma {:induction false} TicksCountDown(cfg: Config, rows: seq<Row>, ticks: seq<Tick>, marks: seq<nat>)
    requires marks != [] && HourApart(ticks, marks)
    requires Follows(cfg, rows, ticks, |ticks|) && WaitsAreBounded(rows, ticks)
    ensures UsedUp(cfg, rows, ticks, marks[|marks| - 1] + 1, |marks| - 1)
  {
    var n := |marks| - 1;
    if n == 0 {
      FollowsPrefix(cfg, rows, ticks, marks[0] + 1, |ticks|);
      StretchOfTicks(cfg, rows, ticks, 0, marks[0] + 1);
    } else {
      FewerMarks(ticks, marks, n);
      TicksCountDown(cfg, rows, ticks, marks[..n]);
      OneMoreMark(cfg, rows, ticks, marks[n - 1], marks[n], n - 1);
    }
  }

  /** With no new rows and ticks at any pace, every row is sent or dead once the run contains more ticks
      an hour apart than there were attempts left. */
  lemma TicksFinish(cfg: Config, rows: seq<Row>, ticks: seq<Tick>, marks: seq<nat>)
    requires HourApart(ticks, marks) && |marks| > Potential(cfg, rows)
    requires Follows(cfg, rows, ticks, |ticks|) && WaitsAreBounded(rows, ticks)
    ensures forall i :: 0 <= i < |rows| ==> RowsAt(cfg, rows, ticks, |ticks|)[i].status in {Sent, Dead}
  {
    var last := marks[|marks| - 1] + 1;
    TicksCountDown(cfg, rows, ticks, marks);
    StretchOfTicks(cfg, rows, ticks, last, |ticks|);
    NothingLeft(cfg, RowsAt(cfg, rows, ticks, |ticks|));
  }

  /** If all ticks are an hour apart and the first finds every pending row due, each of them uses up an attempt. */
  lemma {:induction false} SpacedTicksCountDown(cfg: Config, rows: seq<Row>, ticks: seq<Tick>, n: nat)
    requires n <= |ticks| && Follows(cfg, rows, ticks, n) && (ticks != [] ==> DueBy(rows, ticks[0].now))
    requires forall i :: 0 < i < |ticks| ==> ticks[i - 1].end + MAX_BACKOFF <= ticks[i].now
    ensures Potential(cfg, RowsAt(cfg, rows, ticks, n)) <=
      if n < Potential(cfg, rows) then Potential(cfg, rows) - n else 0
  {
    if n > 0 {
      SpacedTicksCountDown(cfg, rows, ticks, n - 1);
      OneTick(cfg, rows, ticks, n - 1);
      if n > 1 {
        DueLater(rows, ticks[0].now, ticks[0].now + MAX_BACKOFF);
        DueAfterTick(cfg, rows, ticks, n - 1);
        DueLater(RowsAt(cfg, rows, ticks, n - 1), ticks[n - 2].end + MAX_BACKOFF, ticks[n - 1].now);
      }
    }
  }

  /** Then as many ticks as there were attempts left are enough. */
  lemma SpacedTicksFinish(cfg: Config, rows: seq<Row>, ticks: seq<Tick>)
    requires Follows(cfg, rows, ticks, |ticks|) && (ticks != [] ==> DueBy(rows, ticks[0].now))
    requires forall i :: 0 < i < |ticks| ==> ticks[i - 1].end + MAX_BACKOFF <= ticks[i].now
    requires |ticks| >= Potential(cfg, rows)
    ensures forall i :: 0 <= i < |rows| ==> RowsAt(cfg, rows, ticks, |ticks|)[i].status in {Sent, Dead}
  {
    SpacedTicksCountDown(cfg, rows, ticks, |ticks|);
    NothingLeft(cfg, RowsAt(cfg, rows, ticks, |ticks|));
  }

  /** A polling worker: no tick lasts longer than `work`, and the next one starts within `poll` of its end. */
  ghost predicate Polling(ticks: seq<Tick>, work: nat, poll: nat) {
    && (forall i :: 0 <= i < |ticks| ==> 0 <= ticks[i].end - ticks[i].now <= work)
    && (forall i :: 0 < i < |ticks| ==> ticks[i].now - ticks[i - 1].end <= poll)
  }

  /** The first tick an hour after tick `i` comes soon after that hour. */
  lemma {:induction false} NextMark(ticks: seq<Tick>, work: nat, poll: nat, i: nat, n: nat) returns (j: nat)
    requires Polling(ticks, work, poll) && i < n < |ticks|
    requires ticks[i].end + MAX_BACKOFF <= ticks[n].now
    ensures i < j <= n && ticks[i].end + MAX_BACKOFF <= ticks[j].now
    ensures ticks[j].end <= ticks[i].end + MAX_BACKOFF + poll + 2 * work
    decreases n
  {
    if i + 1 < n && ticks[i].end + MAX_BACKOFF <= ticks[n - 1].now {
      j := NextMark(ticks, work, poll, i, n - 1);
    } else {
      j := n;
      assert ticks[n].now - ticks[n - 1].end <= poll && ticks[n - 1].end - ticks[n - 1].now <= work;
    }
  }

  /** One round of waiting: an hour, a poll interval and two ticks' work. */
  function Round(work: nat, poll: nat): nat {
    MAX_BACKOFF + poll + 2 * work
  }

  lemma OneMoreRound(ticks: seq<Tick>, work: nat, poll: nat, marks: seq<nat>, limit: int) returns (j: nat)
    requires ticks != [] && marks != [] && HourApart(ticks, marks) && Polling(ticks, work, poll)
    requires ticks[marks[|marks| - 1]].end <= limit && limit + Round(work, poll) <= ticks[|ticks| - 1].now
    ensures HourApart(ticks, marks + [j]) && j < |ticks| && ticks[j].end <= limit + Round(work, poll)
  {
    j := NextMark(ticks, work, poll, marks[|marks| - 1], |ticks| - 1);
  }

  lemma RoundsAdd(rounds: nat, round: nat)
    requires rounds > 0
    ensures rounds * round == (rounds - 1) * round + round
  {
  }

  /** A long enough polling run contains as many ticks an hour apart as its length has rounds. */
  lemma {:induction false} MarksOfRun(ticks: seq<Tick>, work: nat, poll: nat, rounds: nat) returns (marks: seq<nat>)
    requires ticks != [] && Polling(ticks, work, poll)
    requires ticks[|ticks| - 1].now >= ticks[0].end + rounds * Round(work, poll)
    ensures |marks| == rounds + 1 && HourApart(ticks, marks)
    ensures ticks[marks[rounds]].end <= ticks[0].end + rounds * Round(work, poll)
  {
    if rounds == 0 {
      marks := [0];
    } else {
      RoundsAdd(rounds, Round(work, poll));
      marks := MarksOfRun(ticks, work, poll, rounds - 1);
      var j := OneMoreRound(ticks, work, poll, marks, ticks[0].end + (rounds - 1) * Round(work, poll));
      marks := marks + [j];
    }
  }

  /** In terms of time: with no new rows, every row is sent or dead once a polling worker has run for as many
      rounds as there were attempts left, however short its poll interval is. */
  lemma PollingFinishes(cfg: Config, rows: seq<Row>, ticks: seq<Tick>, work: nat, poll: nat)
    requires ticks != [] && Follows(cfg, rows, ticks, |ticks|) && WaitsAreBounded(rows, ticks)
    requires Polling(ticks, work, poll)
    requires ticks[|ticks| - 1].now >= ticks[0].end + Potential(cfg, rows) * Round(work, poll)
    ensures forall i :: 0 <= i < |rows| ==> RowsAt(cfg, rows, ticks, |ticks|)[i].status in {Sent, Dead}
  {
    var marks := MarksOfRun(ticks, work, poll, Potential(cfg, rows));
    TicksFinish(cfg, rows, ticks, marks);
  }

  /** A tick with something due and no cancellation makes progress. */
  lemma TicksTerminate(cfg: Config, rows: seq<Row>, now: int, ids: seq<nat>, ds: seq<Dispatch>)
    requires IsClaim(rows, now, ids) && Legal(cfg, rows, ds) && |ds| == |ids|
    requires exists r :: 0 <= r < |rows| && Due(rows[r], now)
    ensures Potential(cfg, Rows(cfg, rows, ds)) < Potential(cfg, rows)
  {
    assert ids != [];
    DispatchesAreBounded(cfg, rows, ds);
  }
}
