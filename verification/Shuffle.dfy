/** The agenda shuffle: a copy of the members, shuffled from the back by one bounded choice per place. */
module Shuffle {
  import opened Roster

  /** `choices[i]` is what the generator returns for place `i`: any number up to `i`. */
  ghost predicate ValidChoices(choices: seq<nat>) {
    forall i :: 0 <= i < |choices| ==> choices[i] <= i
  }

  function Exchange<T>(s: seq<T>, i: nat, j: nat): seq<T>
    requires i < |s| && j < |s|
  {
    s[i := s[j]][j := s[i]]
  }

  /** Places `i` down to 1 are drawn; place 0 takes what is left. */
  function Drawn<T>(s: seq<T>, i: nat, choices: seq<nat>): (r: seq<T>)
    requires i < |s| && |choices| == |s| && ValidChoices(choices)
    ensures |r| == |s|
    decreases i
  {
    if i == 0 then s else Drawn(Exchange(s, i, choices[i]), i - 1, choices)
  }

  function Shuffled<T>(s: seq<T>, choices: seq<nat>): seq<T>
    requires |choices| == |s| && ValidChoices(choices)
  {
    if |s| <= 1 then s else Drawn(s, |s| - 1, choices)
  }

  method StableShuffle<T(0)>(members: array<T>, choices: seq<nat>) returns (out: array<T>)
    requires |choices| == members.Length && ValidChoices(choices)
    ensures fresh(out) && members[..] == old(members[..])
    ensures out[..] == Shuffled(members[..], choices)
  {
    out := new T[members.Length];
    for i := 0 to members.Length
      invariant forall k :: 0 <= k < i ==> out[k] == members[k]
      invariant members[..] == old(members[..])
    {
      out[i] := members[i];
    }
    assert out[..] == members[..];
    if members.Length <= 1 {
      return;
    }
    var i := out.Length - 1;
    while i > 0
      invariant 0 <= i < out.Length == members.Length
      invariant Drawn(out[..], i, choices) == Drawn(members[..], out.Length - 1, choices)
      invariant members[..] == old(members[..])
    {
      ghost var before := out[..];
      var j := choices[i];
      out[i], out[j] := out[j], out[i];
      assert out[..] == Exchange(before, i, j);
      i := i - 1;
    }
  }

  lemma ExchangeKeepsElements<T>(s: seq<T>, i: nat, j: nat)
    requires i < |s| && j < |s|
    ensures multiset(Exchange(s, i, j)) == multiset(s)
  {
  }

  /** Whatever is drawn, the result is a permutation of the members. */
  lemma {:induction false} DrawnIsPermutation<T>(s: seq<T>, i: nat, choices: seq<nat>)
    requires i < |s| && |choices| == |s| && ValidChoices(choices)
    ensures multiset(Drawn(s, i, choices)) == multiset(s)
    decreases i
  {
    if i > 0 {
      ExchangeKeepsElements(s, i, choices[i]);
      DrawnIsPermutation(Exchange(s, i, choices[i]), i - 1, choices);
    }
  }

  lemma {:induction false} DrawnKeepsTail<T>(s: seq<T>, i: nat, choices: seq<nat>)
    requires i < |s| && |choices| == |s| && ValidChoices(choices)
    ensures forall k :: i < k < |s| ==> Drawn(s, i, choices)[k] == s[k]
    ensures i > 0 ==> Drawn(s, i, choices)[i] == s[choices[i]]
    decreases i
  {
    if i > 0 {
      DrawnKeepsTail(Exchange(s, i, choices[i]), i - 1, choices);
    }
  }

  /** Pairwise distinct members: different choices give different orders. */
  lemma {:induction false} DrawnIsInjective<T(!new)>(s: seq<T>, i: nat, a: seq<nat>, b: seq<nat>)
    requires i < |s| && |a| == |b| == |s| && ValidChoices(a) && ValidChoices(b) && Distinct(s)
    requires Drawn(s, i, a) == Drawn(s, i, b)
    ensures forall k :: 1 <= k <= i ==> a[k] == b[k]
    decreases i
  {
    if i > 0 {
      DrawnKeepsTail(s, i, a);
      DrawnKeepsTail(s, i, b);
      assert s[a[i]] == s[b[i]];
      assert a[i] == b[i];
      DrawnIsInjective(Exchange(s, i, a[i]), i - 1, a, b);
    }
  }

  lemma DifferentChoicesDifferentOrders<T(!new)>(s: seq<T>, a: seq<nat>, b: seq<nat>)
    requires |a| == |b| == |s| && ValidChoices(a) && ValidChoices(b) && Distinct(s)
    ensures Shuffled(s, a) == Shuffled(s, b) <==> a == b
  {
    if |s| > 1 && Shuffled(s, a) == Shuffled(s, b) {
      DrawnIsInjective(s, |s| - 1, a, b);
    }
    if |s| > 0 { assert a[0] == 0 == b[0]; }
  }

  lemma SameFront<T>(s: seq<T>, p: seq<T>, n: nat)
    requires n <= |s| == |p| && multiset(s) == multiset(p) && s[n..] == p[n..]
    ensures multiset(s[..n]) == multiset(p[..n])
  {
    assert s[..n] + s[n..] == s && p[..n] + p[n..] == p;
    assert multiset(s[..n]) + multiset(s[n..]) == multiset(s[..n] + s[n..]);
    assert multiset(p[..n]) + multiset(p[n..]) == multiset(p[..n] + p[n..]);
    assert multiset(s[..n]) + multiset(s[n..]) - multiset(s[n..]) == multiset(s[..n]);
    assert multiset(p[..n]) + multiset(p[n..]) - multiset(p[n..]) == multiset(p[..n]);
  }

  /** ... and every order is drawn by some choices, so each of the orders has exactly one. */
  lemma {:induction false} EveryOrderIsDrawn<T>(s: seq<T>, i: nat, p: seq<T>) returns (choices: seq<nat>)
    requires i < |s| == |p| && multiset(p) == multiset(s)
    requires forall k :: i < k < |s| ==> p[k] == s[k]
    ensures |choices| == |s| && ValidChoices(choices) && Drawn(s, i, choices) == p
    decreases i
  {
    SameFront(s, p, i + 1);
    if i == 0 {
      choices := seq(|s|, k => 0);
      assert s[..1] == [s[0]] && p[..1] == [p[0]];
      assert multiset{s[0]} == multiset{p[0]};
      assert s[0] in multiset{p[0]};
    } else {
      assert p[i] == p[..i + 1][i];
      assert p[i] in multiset(p[..i + 1]);
      assert p[i] in s[..i + 1];
      var j :| 0 <= j < |s[..i + 1]| && s[..i + 1][j] == p[i];
      ExchangeKeepsElements(s, i, j);
      var rest := EveryOrderIsDrawn(Exchange(s, i, j), i - 1, p);
      choices := rest[i := j];
      DrawnIgnoresLater(Exchange(s, i, j), i - 1, rest, choices);
    }
  }

  lemma {:induction false} DrawnIgnoresLater<T>(s: seq<T>, i: nat, a: seq<nat>, b: seq<nat>)
    requires i < |s| && |a| == |b| == |s| && ValidChoices(a) && ValidChoices(b)
    requires forall k :: 0 <= k <= i ==> a[k] == b[k]
    ensures Drawn(s, i, a) == Drawn(s, i, b)
    decreases i
  {
    if i > 0 { DrawnIgnoresLater(Exchange(s, i, a[i]), i - 1, a, b); }
  }

  lemma EveryOrderHasChoices<T>(s: seq<T>, p: seq<T>)
    requires multiset(p) == multiset(s)
    ensures exists choices: seq<nat> :: |choices| == |s| && ValidChoices(choices) && Shuffled(s, choices) == p
  {
    assert |p| == |multiset(p)| == |multiset(s)| == |s|;
    if |s| > 1 {
      var choices := EveryOrderIsDrawn(s, |s| - 1, p);
      assert Shuffled(s, choices) == p;
    } else {
      var choices: seq<nat> := seq(|s|, k => 0);
      if |s| == 1 {
        var none := EveryOrderIsDrawn(s, 0, p);
      }
      assert ValidChoices(choices) && Shuffled(s, choices) == p;
    }
  }
}
