/** Calendar text: one line, no control separators, no run of two spaces. */
module Sanitize {

  predicate LineBreaking(c: char) {
    c == '\r' || c == '\n' || c == '\t'
  }

  /** CR, LF and TAB become spaces; NUL disappears. */
  function Mapped(s: string): string {
    if s == "" then ""
    else
      var c := s[|s| - 1];
      Mapped(s[..|s| - 1]) + if LineBreaking(c) then " " else if c == '\0' then "" else [c]
  }

  /** One left-to-right pass that replaces each pair of spaces by one, without looking back. */
  function ReplacePairs(s: string): (r: string)
    ensures |r| <= |s|
  {
    if |s| < 2 then s
    else if s[0] == ' ' == s[1] then " " + ReplacePairs(s[2..])
    else [s[0]] + ReplacePairs(s[1..])
  }

  /** Every run of spaces becomes a single space. */
  function Squeeze(s: string): string {
    if |s| < 2 then s
    else if s[0] == ' ' == s[1] then Squeeze(s[1..])
    else [s[0]] + Squeeze(s[1..])
  }

  function Sanitized(s: string): string {
    Squeeze(Mapped(s))
  }

  predicate NoDoubleSpace(s: string) {
    forall i :: 0 < i < |s| ==> !(s[i - 1] == ' ' == s[i])
  }

  predicate Clean(s: string) {
    NoDoubleSpace(s) && forall i :: 0 <= i < |s| ==> !LineBreaking(s[i]) && s[i] != '\0'
  }

  method ReplaceAllPairs(s: string) returns (r: string)
    ensures r == ReplacePairs(s)
  {
    r := "";
    var i := 0;
    while i < |s|
      invariant 0 <= i <= |s|
      invariant r + ReplacePairs(s[i..]) == ReplacePairs(s)
    {
      PassStep(s, i, r);
      if i + 1 < |s| && s[i] == ' ' && s[i + 1] == ' ' {
        r, i := r + " ", i + 2;
      } else {
        r, i := r + [s[i]], i + 1;
      }
    }
    assert s[|s|..] == "" && r + "" == r;
  }

  lemma PassStep(s: string, i: nat, r: string)
    requires i < |s|
    ensures var pair := i + 1 < |s| && s[i] == ' ' == s[i + 1];
      r + ReplacePairs(s[i..]) ==
      (r + if pair then " " else [s[i]]) + ReplacePairs(s[if pair then i + 2 else i + 1..])
  {
    var rest := s[i..];
    if i + 1 < |s| {
      assert rest[1..] == s[i + 1..] && rest[2..] == s[i + 2..];
    } else {
      assert rest == [s[i]];
    }
  }

  /** The loop that replaces pairs until nothing changes stops, and it stops at the squeezed text. */
  method SanitizeICalText(s: string) returns (r: string)
    ensures r == Sanitized(s)
  {
    if s == "" {
      return s;
    }
    var b := "";
    for i := 0 to |s|
      invariant b == Mapped(s[..i])
    {
      assert s[..i + 1][..i] == s[..i];
      match s[i] {
        case '\r' => b := b + " ";
        case '\n' => b := b + " ";
        case '\t' => b := b + " ";
        case '\0' =>
        case _ => b := b + [s[i]];
      }
    }
    assert s[..|s|] == s;
    r := b;
    while true
      invariant Squeeze(r) == Squeeze(b)
      decreases |r|
    {
      var collapsed := ReplaceAllPairs(r);
      PassKeepsSqueeze(r);
      PassShrinksOrStops(r);
      if collapsed == r {
        SqueezeFixes(r);
        return collapsed;
      }
      r := collapsed;
    }
  }

  lemma {:induction false} PassKeepsSqueeze(s: string)
    ensures Squeeze(ReplacePairs(s)) == Squeeze(s)
    ensures |s| > 0 ==> |ReplacePairs(s)| > 0 && ReplacePairs(s)[0] == s[0]
    decreases |s|
  {
    if |s| < 2 {
    } else if s[0] == ' ' == s[1] {
      PassKeepsSqueeze(s[2..]);
      SqueezeAfter(' ', ReplacePairs(s[2..]), s[2..]);
      assert s[1..] == " " + s[2..];
    } else {
      PassKeepsSqueeze(s[1..]);
      SqueezeAfter(s[0], ReplacePairs(s[1..]), s[1..]);
      assert s == [s[0]] + s[1..];
    }
  }

  /** Squeezing is unchanged by putting one character before two texts that squeeze alike. */
  lemma SqueezeAfter(c: char, a: string, b: string)
    requires Squeeze(a) == Squeeze(b) && (a == "" <==> b == "") && (a != "" ==> a[0] == b[0])
    ensures Squeeze([c] + a) == Squeeze([c] + b)
  {
    assert ([c] + a)[1..] == a && ([c] + b)[1..] == b;
  }

  lemma {:induction false} PassShrinksOrStops(s: string)
    ensures ReplacePairs(s) == s <==> NoDoubleSpace(s)
    ensures ReplacePairs(s) != s ==> |ReplacePairs(s)| < |s|
    decreases |s|
  {
    if |s| < 2 {
    } else if s[0] == ' ' == s[1] {
      assert |ReplacePairs(s)| < |s|;
    } else {
      PassShrinksOrStops(s[1..]);
      assert s == [s[0]] + s[1..];
      assert ReplacePairs(s)[1..] == ReplacePairs(s[1..]);
      DropFirst(s);
    }
  }

  lemma DropFirst(s: string)
    requires |s| >= 2
    ensures NoDoubleSpace(s) <==> NoDoubleSpace(s[1..]) && !(s[0] == ' ' == s[1])
  {
    if NoDoubleSpace(s[1..]) && !(s[0] == ' ' == s[1]) {
      forall i | 0 < i < |s| ensures !(s[i - 1] == ' ' == s[i]) {
        if i > 1 { assert s[1..][i - 2] == s[i - 1]; }
      }
    }
  }

  lemma {:induction false} SqueezeFixes(s: string)
    ensures Squeeze(s) == s <==> NoDoubleSpace(s)
    ensures |Squeeze(s)| <= |s|
  {
    if |s| >= 2 {
      SqueezeFixes(s[1..]);
      DropFirst(s);
      assert s == [s[0]] + s[1..];
      assert s[0] != ' ' || s[1] != ' ' ==> Squeeze(s)[1..] == Squeeze(s[1..]);
    }
  }

  lemma {:induction false} SqueezeIsClean(s: string)
    requires forall i :: 0 <= i < |s| ==> !LineBreaking(s[i]) && s[i] != '\0'
    ensures Clean(Squeeze(s))
    ensures s != "" ==> Squeeze(s) != "" && Squeeze(s)[0] == s[0]
  {
    if |s| >= 2 {
      SqueezeIsClean(s[1..]);
      if !(s[0] == ' ' == s[1]) {
        assert Squeeze(s)[1..] == Squeeze(s[1..]);
        if |Squeeze(s)| >= 2 { DropFirst(Squeeze(s)); }
      }
    }
  }

  lemma {:induction false} MappedIsFlat(s: string)
    ensures forall i :: 0 <= i < |Mapped(s)| ==> !LineBreaking(Mapped(s)[i]) && Mapped(s)[i] != '\0'
    ensures (forall i :: 0 <= i < |s| ==> !LineBreaking(s[i]) && s[i] != '\0') ==> Mapped(s) == s
  {
    if s != "" {
      MappedIsFlat(s[..|s| - 1]);
      assert s == s[..|s| - 1] + [s[|s| - 1]];
    }
  }

  /** Whatever comes in, what comes out is clean, and the clean texts are exactly those left as they are. */
  lemma SanitizedIsClean(s: string)
    ensures Clean(Sanitized(s))
    ensures Sanitized(s) == s <==> Clean(s)
    ensures Sanitized(Sanitized(s)) == Sanitized(s)
  {
    CleanIsFixed(s);
    CleanIsFixed(Sanitized(s));
  }

  lemma CleanIsFixed(s: string)
    ensures Clean(Sanitized(s))
    ensures Clean(s) ==> Sanitized(s) == s
  {
    MappedIsFlat(s);
    SqueezeIsClean(Mapped(s));
    if Clean(s) { SqueezeFixes(s); }
  }

  // ---------- no word is merged, split, dropped or reordered ----------

  predicate Blank(c: char) {
    c == ' ' || LineBreaking(c)
  }

  function Flush(word: string): seq<string> {
    if word == "" then [] else [word]
  }

  /** The words of a text: maximal runs without blanks, NULs ignored; `word` is the one being read. */
  function Words(s: string, word: string): seq<string> {
    if s == "" then Flush(word)
    else if Blank(s[0]) then Flush(word) + Words(s[1..], "")
    else Words(s[1..], if s[0] == '\0' then word else word + [s[0]])
  }

  lemma {:induction false} MappedFront(s: string)
    requires s != ""
    ensures Mapped(s) == Mapped(s[..1]) + Mapped(s[1..])
  {
    if |s| > 1 {
      var n := |s| - 1;
      MappedFront(s[..n]);
      assert s[..n][..1] == s[..1] && s[..n][1..] == s[1..][..n - 1];
    } else {
      assert s[..1] == s && Mapped("") == "";
    }
  }

  lemma {:induction false} MappedKeepsWords(s: string, word: string)
    ensures Words(Mapped(s), word) == Words(s, word)
  {
    if s != "" {
      MappedFront(s);
      var front := Mapped(s[..1]);
      assert s[..1][..0] == "" && Mapped("") == "";
      assert Mapped(s)[|front|..] == Mapped(s[1..]);
      MappedKeepsWords(s[1..], if Blank(s[0]) then "" else if s[0] == '\0' then word else word + [s[0]]);
    }
  }

  lemma {:induction false} SqueezeKeepsWords(s: string, word: string)
    ensures Words(Squeeze(s), word) == Words(s, word)
    decreases |s|
  {
    if |s| >= 2 {
      if s[0] == ' ' == s[1] {
        SqueezeKeepsWords(s[1..], word);
        assert Flush(word) + Words(s[1..], "") == Flush(word) + ([] + Words(s[1..][1..], ""));
      } else {
        assert Squeeze(s)[1..] == Squeeze(s[1..]);
        SqueezeKeepsWords(s[1..], if Blank(s[0]) then "" else if s[0] == '\0' then word else word + [s[0]]);
      }
    }
  }

  lemma SanitizedKeepsWords(s: string)
    ensures Words(Sanitized(s), "") == Words(s, "")
  {
    SqueezeKeepsWords(Mapped(s), "");
    MappedKeepsWords(s, "");
  }

  // ---------- sanitizing the parts first makes no difference ----------

  lemma {:induction false} MappedJoin(a: string, b: string)
    ensures Mapped(a + b) == Mapped(a) + Mapped(b)
  {
    if b == "" {
      assert a + b == a;
    } else {
      var n := |b| - 1;
      assert (a + b)[..|a + b| - 1] == a + b[..n];
      MappedJoin(a, b[..n]);
    }
  }

  lemma {:induction false} SqueezeStart(a: string)
    ensures |Squeeze(a)| > 0 <==> |a| > 0
    ensures a != "" ==> Squeeze(a)[0] == a[0]
  {
    if |a| >= 2 { SqueezeStart(a[1..]); }
  }

  lemma {:induction false} SqueezeLeft(a: string, b: string)
    ensures Squeeze(Squeeze(a) + b) == Squeeze(a + b)
  {
    if |a| >= 2 {
      SqueezeLeft(a[1..], b);
      SqueezeStart(a[1..]);
      assert (a + b)[1..] == a[1..] + b;
      if !(a[0] == ' ' == a[1]) {
        assert (Squeeze(a) + b)[1..] == Squeeze(a[1..]) + b;
      }
    }
  }

  lemma {:induction false} SqueezeRight(a: string, b: string)
    ensures Squeeze(a + Squeeze(b)) == Squeeze(a + b)
  {
    SqueezeStart(b);
    if a == "" {
      SqueezeLeft(b, "");
      assert a + b == b && a + Squeeze(b) == Squeeze(b) && b + "" == b && Squeeze(b) + "" == Squeeze(b);
    } else {
      SqueezeRight(a[1..], b);
      assert (a + b)[1..] == a[1..] + b && (a + Squeeze(b))[1..] == a[1..] + Squeeze(b);
      assert |a| == 1 && b != "" ==> (a + b)[1] == b[0] && (a + Squeeze(b))[1] == Squeeze(b)[0];
    }
  }

  lemma SanitizedJoin(a: string, b: string)
    ensures Sanitized(Sanitized(a) + Sanitized(b)) == Sanitized(a + b)
  {
    MappedJoin(a, b);
    MappedJoin(Sanitized(a), Sanitized(b));
    CleanIsFixed(a);
    CleanIsFixed(b);
    MappedIsFlat(Sanitized(a));
    MappedIsFlat(Sanitized(b));
    SqueezeLeft(Mapped(a), Squeeze(Mapped(b)));
    SqueezeRight(Mapped(a), Mapped(b));
  }
}
