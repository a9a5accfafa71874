/** Which assignments the calendar feeds render, and that the two feeds agree on who is on duty. */
module Feeds {
  import opened Wrappers
  import opened Rotation
  import opened Roster

  // ---------- suppressing covered originals ----------

  /** Original ids named by the cover rows of a list. */
  function SliceCovers(rows: seq<Assignment>): set<RowId> {
    if rows == [] then {}
    else
      var a := rows[|rows| - 1];
      SliceCovers(rows[..|rows| - 1]) + if a.slot.isCover && a.row.original.Some? then {a.row.original.value} else {}
  }

  predicate Replaced(a: Assignment, covered: set<RowId>) {
    !a.slot.isCover && a.row.id in covered
  }

  function Kept(rows: seq<Assignment>, covered: set<RowId>): seq<Assignment> {
    if rows == [] then []
    else
      var a := rows[|rows| - 1];
      Kept(rows[..|rows| - 1], covered) + if Replaced(a, covered) then [] else [a]
  }

  function Suppress(rows: seq<Assignment>, covered: set<RowId>): seq<Assignment> {
    Kept(rows, covered + SliceCovers(rows))
  }

  method UnionWithSliceCovers(rows: seq<Assignment>, covered: set<RowId>) returns (all: set<RowId>)
    ensures all == covered + SliceCovers(rows)
  {
    all := covered;
    for i := 0 to |rows|
      invariant all == covered + SliceCovers(rows[..i])
    {
      assert rows[..i + 1][..i] == rows[..i];
      if !rows[i].slot.isCover || rows[i].row.original.None? {
        continue;
      }
      all := all + {rows[i].row.original.value};
    }
    assert rows[..|rows|] == rows;
  }

  method SuppressCoveredOriginals(rows: seq<Assignment>, covered: set<RowId>) returns (kept: seq<Assignment>)
    ensures kept == Suppress(rows, covered)
  {
    if |rows| == 0 {
      return rows;
    }
    var all := UnionWithSliceCovers(rows, covered);
    if |all| == 0 {
      KeepsAll(rows);
      return rows;
    }
    kept := [];
    for i := 0 to |rows|
      invariant kept == Kept(rows[..i], all)
    {
      assert rows[..i + 1][..i] == rows[..i];
      if !rows[i].slot.isCover {
        if rows[i].row.id in all {
          continue;
        }
      }
      kept := kept + [rows[i]];
    }
    assert rows[..|rows|] == rows;
  }

  lemma {:induction false} KeepsAll(rows: seq<Assignment>)
    ensures Kept(rows, {}) == rows
  {
    if rows != [] {
      KeepsAll(rows[..|rows| - 1]);
      assert rows == rows[..|rows| - 1] + [rows[|rows| - 1]];
    }
  }

  /** `xs` is `ys` with some elements left out. */
  ghost predicate Subsequence(xs: seq<Assignment>, ys: seq<Assignment>) {
    xs == [] ||
    (ys != [] &&
     var (m, n) := (|xs| - 1, |ys| - 1);
     Subsequence(xs, ys[..n]) || (xs[m] == ys[n] && Subsequence(xs[..m], ys[..n])))
  }

  lemma {:induction false} KeptInOrder(rows: seq<Assignment>, covered: set<RowId>)
    ensures Subsequence(Kept(rows, covered), rows)
  {
    if rows != [] {
      var n := |rows| - 1;
      var before := Kept(rows[..n], covered);
      KeptInOrder(rows[..n], covered);
      assert (before + [rows[n]])[..|before|] == before;
      assert before + [] == before;
    }
  }

  /** Suppression keeps exactly the covers and the originals nobody covers. */
  lemma {:induction false} KeptAre(rows: seq<Assignment>, covered: set<RowId>, a: Assignment)
    ensures a in Kept(rows, covered) <==> a in rows && !Replaced(a, covered)
  {
    if rows != [] {
      var n := |rows| - 1;
      KeptAre(rows[..n], covered, a);
      assert rows == rows[..n] + [rows[n]];
    }
  }

  /** No cover is suppressed, so a second pass sees the same covers. */
  lemma {:induction false} KeptCovers(rows: seq<Assignment>, covered: set<RowId>)
    ensures SliceCovers(Kept(rows, covered)) == SliceCovers(rows)
  {
    if rows != [] {
      var n := |rows| - 1;
      var before := Kept(rows[..n], covered);
      KeptCovers(rows[..n], covered);
      assert (before + [rows[n]])[..|before|] == before;
      assert before + [] == before;
    }
  }

  lemma {:induction false} KeptAgain(rows: seq<Assignment>, covered: set<RowId>)
    requires forall a :: a in rows ==> !Replaced(a, covered)
    ensures Kept(rows, covered) == rows
  {
    if rows != [] {
      var n := |rows| - 1;
      assert rows == rows[..n] + [rows[n]];
      KeptAgain(rows[..n], covered);
    }
  }

  lemma SuppressIsIdempotent(rows: seq<Assignment>, covered: set<RowId>)
    ensures Suppress(Suppress(rows, covered), covered) == Suppress(rows, covered)
    ensures Subsequence(Suppress(rows, covered), rows)
  {
    var all := covered + SliceCovers(rows);
    KeptInOrder(rows, all);
    KeptCovers(rows, all);
    forall a | a in Kept(rows, all) ensures !Replaced(a, all) { KeptAre(rows, all, a); }
    KeptAgain(Suppress(rows, covered), covered + SliceCovers(rows));
  }

  // ---------- the two feeds ----------

  /** The result of an assignment query restricted to some members: each such row of the window once. */
  ghost predicate Query(rows: seq<Assignment>, t: Table, lo: Date, hi: Date, mine: bool, me: Member) {
    && Distinct(rows)
    && (forall a :: a in rows <==>
          (a.slot in t && t[a.slot] == a.row && lo <= a.slot.date <= hi && ((a.row.member == me) == mine)))
  }

  /** All the rows of the window, each once. */
  ghost predicate WindowQuery(rows: seq<Assignment>, t: Table, lo: Date, hi: Date) {
    && Distinct(rows)
    && (forall a :: a in rows <==> (a.slot in t && t[a.slot] == a.row && lo <= a.slot.date <= hi))
  }

  /** The rows of everyone but the subscriber. */
  function NotMine(rows: seq<Assignment>, me: Member): seq<Assignment> {
    if rows == [] then []
    else
      var a := rows[|rows| - 1];
      NotMine(rows[..|rows| - 1], me) + if a.row.member == me then [] else [a]
  }

  method OthersFeed(rows: seq<Assignment>, covered: set<RowId>, me: Member) returns (feed: seq<Assignment>)
    ensures feed == Suppress(NotMine(rows, me), covered)
  {
    var others := [];
    for i := 0 to |rows|
      invariant others == NotMine(rows[..i], me)
    {
      assert rows[..i + 1][..i] == rows[..i];
      if rows[i].row.member == me {
        continue;
      }
      others := others + [rows[i]];
    }
    assert rows[..|rows|] == rows;
    feed := SuppressCoveredOriginals(others, covered);
  }

  lemma {:induction false} NotMineAre(rows: seq<Assignment>, me: Member, a: Assignment)
    ensures a in NotMine(rows, me) <==> a in rows && a.row.member != me
  {
    if rows != [] {
      var n := |rows| - 1;
      NotMineAre(rows[..n], me, a);
      assert rows == rows[..n] + [rows[n]];
    }
  }

  lemma {:induction false} NotMineIsDistinct(rows: seq<Assignment>, me: Member)
    requires Distinct(rows)
    ensures Distinct(NotMine(rows, me))
  {
    if rows != [] {
      var n := |rows| - 1;
      NotMineIsDistinct(rows[..n], me);
      var before := NotMine(rows[..n], me);
      forall i | 0 <= i < |before| ensures before[i] != rows[n] {
        NotMineAre(rows[..n], me, before[i]);
        assert before[i] in rows[..n];
      }
    }
  }

  lemma OthersAreAQuery(rows: seq<Assignment>, t: Table, lo: Date, hi: Date, me: Member)
    requires WindowQuery(rows, t, lo, hi)
    ensures Query(NotMine(rows, me), t, lo, hi, false, me)
  {
    NotMineIsDistinct(rows, me);
    forall a ensures a in NotMine(rows, me) <==>
      (a.slot in t && t[a.slot] == a.row && lo <= a.slot.date <= hi && a.row.member != me)
    {
      NotMineAre(rows, me, a);
    }
  }

  /** The originals that some cover in the window replaces. */
  function CoveredOriginals(t: Table, lo: Date, hi: Date): set<RowId> {
    set s | s in t && s.isCover && t[s].original.Some? && lo <= s.date <= hi :: t[s].original.value
  }

  /** Who wears the hat on a date: the cover if there is one, otherwise the original. */
  function HatOn(t: Table, d: Date): Option<Member> {
    if Cov(d) in t then Some(t[Cov(d)].member)
    else if Orig(d) in t then Some(t[Orig(d)].member)
    else None
  }

  lemma HeldSlotIsListed(rows: seq<Assignment>, t: Table, s: Slot)
    requires s in t && forall a :: a in rows <==> (a.slot in t && t[a.slot] == a.row && a.slot.date == s.date)
    ensures exists j :: 0 <= j < |rows| && rows[j].slot == s
  {
    assert Assignment(s, t[s]) in rows;
  }

  method GetHatForDate(rows: seq<Assignment>, t: Table, d: Date) returns (hat: Option<Member>, isCover: bool)
    requires forall a :: a in rows <==> (a.slot in t && t[a.slot] == a.row && a.slot.date == d)
    ensures hat == HatOn(t, d) && (isCover <==> Cov(d) in t)
  {
    for i := 0 to |rows|
      invariant forall j :: 0 <= j < i ==> !rows[j].slot.isCover
    {
      if rows[i].slot.isCover {
        assert rows[i] in rows && rows[i].slot == Cov(d);
        return Some(rows[i].row.member), true;
      }
    }
    if Cov(d) in t { HeldSlotIsListed(rows, t, Cov(d)); }
    for i := 0 to |rows|
      invariant forall j :: 0 <= j < i ==> rows[j].slot.isCover
    {
      if !rows[i].slot.isCover {
        assert rows[i] in rows && rows[i].slot == Orig(d);
        return Some(rows[i].row.member), false;
      }
    }
    if Orig(d) in t { HeldSlotIsListed(rows, t, Orig(d)); }
    return None, false;
  }

  /** Everything the personal feed and the others feed render between them. */
  function BothFeeds(mine: seq<Assignment>, others: seq<Assignment>, covered: set<RowId>): seq<Assignment> {
    Suppress(mine, covered) + Suppress(others, covered)
  }

  lemma {:induction false} KeptIsDistinct(rows: seq<Assignment>, covered: set<RowId>)
    requires Distinct(rows)
    ensures Distinct(Kept(rows, covered))
  {
    if rows != [] {
      var n := |rows| - 1;
      KeptIsDistinct(rows[..n], covered);
      var before := Kept(rows[..n], covered);
      forall i | 0 <= i < |before| ensures before[i] != rows[n] {
        KeptAre(rows[..n], covered, before[i]);
        assert before[i] in rows[..n];
      }
    }
  }

  lemma {:induction false} SliceCoversAre(rows: seq<Assignment>, r: RowId)
    ensures r in SliceCovers(rows) <==> exists a :: a in rows && a.slot.isCover && a.row.original == Some(r)
  {
    if rows != [] {
      var n := |rows| - 1;
      SliceCoversAre(rows[..n], r);
      assert rows == rows[..n] + [rows[n]];
      assert forall a :: a in rows <==> a in rows[..n] || a == rows[n];
    }
  }

  /** A feed renders a row of its query exactly when the row is a cover or its date has none. */
  lemma FeedKeeps(rows: seq<Assignment>, t: Table, lo: Date, hi: Date, mine: bool, me: Member, a: Assignment)
    requires Shaped(t) && Query(rows, t, lo, hi, mine, me)
    ensures a in Suppress(rows, CoveredOriginals(t, lo, hi)) <==>
      a in rows && (a.slot.isCover || Cov(a.slot.date) !in t)
  {
    var covered := CoveredOriginals(t, lo, hi) + SliceCovers(rows);
    KeptAre(rows, covered, a);
    if a in rows && !a.slot.isCover {
      var c := Cov(a.slot.date);
      assert a.slot == Orig(a.slot.date);
      SliceCoversAre(rows, a.row.id);
      if c in t {
        assert t[c].original == Some(a.row.id);
        assert a.row.id in CoveredOriginals(t, lo, hi);
      } else if a.row.id in covered {
        CoveredHasCover(rows, t, lo, hi, mine, me, a);
      }
    }
  }

  lemma CoveredHasCover(rows: seq<Assignment>, t: Table, lo: Date, hi: Date, mine: bool, me: Member, a: Assignment)
    requires Shaped(t) && Query(rows, t, lo, hi, mine, me) && a in rows && !a.slot.isCover
    requires a.row.id in CoveredOriginals(t, lo, hi) + SliceCovers(rows)
    ensures Cov(a.slot.date) in t
  {
    SliceCoversAre(rows, a.row.id);
    var s: Slot :| s in t && s.isCover && t[s].original == Some(a.row.id);
    assert t[Orig(s.date)].id == t[a.slot].id;
    assert a.slot == Orig(s.date);
    assert s == Cov(a.slot.date);
  }

  /** On any well-shaped table, a subscriber's own feed and their others feed together render exactly one
      event for each assigned date of the window, for the person the hat lookup names, and none elsewhere. */
  lemma FeedsAgree(t: Table, lo: Date, hi: Date, me: Member, mine: seq<Assignment>, rows: seq<Assignment>, d: Date)
    requires Shaped(t) && Query(mine, t, lo, hi, true, me) && WindowQuery(rows, t, lo, hi)
    ensures var all := BothFeeds(mine, NotMine(rows, me), CoveredOriginals(t, lo, hi));
      if lo <= d <= hi && (Orig(d) in t || Cov(d) in t)
      then exists i :: OnlyEventOn(all, d, i) && HatOn(t, d) == Some(all[i].row.member)
      else forall j :: 0 <= j < |all| ==> all[j].slot.date != d
  {
    var others := NotMine(rows, me);
    var all := BothFeeds(mine, others, CoveredOriginals(t, lo, hi));
    OthersAreAQuery(rows, t, lo, hi, me);
    FeedsAreDistinct(t, lo, hi, me, mine, others);
    FeedsRenderAll(t, lo, hi, me, mine, others);
    if lo <= d <= hi && (Orig(d) in t || Cov(d) in t) {
      var i := OneEvent(t, lo, hi, all, d);
    } else {
      NoEvent(t, lo, hi, all, d);
    }
  }

  lemma OneEvent(t: Table, lo: Date, hi: Date, all: seq<Assignment>, d: Date) returns (i: nat)
    requires Distinct(all) && forall a :: Rendered(t, lo, hi, a) <==> a in all
    requires lo <= d <= hi && (Orig(d) in t || Cov(d) in t)
    ensures OnlyEventOn(all, d, i) && HatOn(t, d) == Some(all[i].row.member)
  {
    var s := if Cov(d) in t then Cov(d) else Orig(d);
    var hat := Assignment(s, t[s]);
    assert Rendered(t, lo, hi, hat);
    i :| 0 <= i < |all| && all[i] == hat;
    forall j | 0 <= j < |all| && all[j].slot.date == d ensures j == i {
      assert Rendered(t, lo, hi, all[j]);
      assert all[j].slot == Orig(d) || all[j].slot == Cov(d);
      assert all[j].slot == s;
    }
  }

  lemma NoEvent(t: Table, lo: Date, hi: Date, all: seq<Assignment>, d: Date)
    requires forall a :: Rendered(t, lo, hi, a) <==> a in all
    requires !(lo <= d <= hi && (Orig(d) in t || Cov(d) in t))
    ensures forall j :: 0 <= j < |all| ==> all[j].slot.date != d
  {
    forall j | 0 <= j < |all| ensures all[j].slot.date != d {
      assert Rendered(t, lo, hi, all[j]);
      assert all[j].slot == Orig(all[j].slot.date) || all[j].slot == Cov(all[j].slot.date);
    }
  }

  /** Row `i` is the one row of its date. */
  ghost predicate OnlyEventOn(all: seq<Assignment>, d: Date, i: int) {
    0 <= i < |all| && all[i].slot.date == d && forall j :: 0 <= j < |all| && all[j].slot.date == d ==> j == i
  }

  /** The rows that say who is on duty: every cover, and every original without one. */
  ghost predicate Rendered(t: Table, lo: Date, hi: Date, a: Assignment) {
    a.slot in t && t[a.slot] == a.row && lo <= a.slot.date <= hi && (a.slot.isCover || Cov(a.slot.date) !in t)
  }

  lemma FeedsRenderAll(t: Table, lo: Date, hi: Date, me: Member, mine: seq<Assignment>, others: seq<Assignment>)
    requires Shaped(t) && Query(mine, t, lo, hi, true, me) && Query(others, t, lo, hi, false, me)
    ensures forall a :: Rendered(t, lo, hi, a) <==> a in BothFeeds(mine, others, CoveredOriginals(t, lo, hi))
  {
    forall a ensures Rendered(t, lo, hi, a) <==> a in BothFeeds(mine, others, CoveredOriginals(t, lo, hi)) {
      FeedsRender(t, lo, hi, me, mine, others, a);
    }
  }

  lemma FeedsRender(t: Table, lo: Date, hi: Date, me: Member, mine: seq<Assignment>, others: seq<Assignment>,
                    a: Assignment)
    requires Shaped(t) && Query(mine, t, lo, hi, true, me) && Query(others, t, lo, hi, false, me)
    ensures a in BothFeeds(mine, others, CoveredOriginals(t, lo, hi)) <==> Rendered(t, lo, hi, a)
  {
    FeedKeeps(mine, t, lo, hi, true, me, a);
    FeedKeeps(others, t, lo, hi, false, me, a);
  }

  lemma FeedsAreDistinct(t: Table, lo: Date, hi: Date, me: Member, mine: seq<Assignment>, others: seq<Assignment>)
    requires Query(mine, t, lo, hi, true, me) && Query(others, t, lo, hi, false, me)
    ensures Distinct(BothFeeds(mine, others, CoveredOriginals(t, lo, hi)))
  {
    var covered := CoveredOriginals(t, lo, hi);
    var (xs, ys) := (Suppress(mine, covered), Suppress(others, covered));
    KeptIsDistinct(mine, covered + SliceCovers(mine));
    KeptIsDistinct(others, covered + SliceCovers(others));
    forall i, j | 0 <= i < |xs| && 0 <= j < |ys| ensures xs[i] != ys[j] {
      assert xs[i] in xs && ys[j] in ys;
      KeptAre(mine, covered + SliceCovers(mine), xs[i]);
      KeptAre(others, covered + SliceCovers(others), ys[j]);
    }
  }
}
