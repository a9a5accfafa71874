/** The two string helpers the scheduler and the token verifier share. */
module Text {

  predicate IsSpace(c: char) {
    || c == ' ' || c == '\U{000085}' || c == '\U{0000A0}' || c == '\U{001680}'
    || '\U{000009}' <= c <= '\U{00000D}'
    || '\U{002000}' <= c <= '\U{00200A}'
    || c == '\U{002028}' || c == '\U{002029}' || c == '\U{00202F}' || c == '\U{00205F}' || c == '\U{003000}'
  }

  function TrimLeft(s: string): string {
    if s != [] && IsSpace(s[0]) then TrimLeft(s[1..]) else s
  }

  function TrimRight(s: string): string {
    if s != [] && IsSpace(s[|s| - 1]) then TrimRight(s[..|s| - 1]) else s
  }

  function TrimSpace(s: string): string {
    TrimRight(TrimLeft(s))
  }

  /** A string that neither starts nor ends with white space is left alone. */
  lemma TrimSpaceKeeps(s: string)
    requires s == [] || (!IsSpace(s[0]) && !IsSpace(s[|s| - 1]))
    ensures TrimSpace(s) == s
  {
  }

  function ToLower(s: string): (r: string)
    ensures |r| == |s|
  {
    seq(|s|, i requires 0 <= i < |s| =>
      if 'A' <= s[i] <= 'Z' then (s[i] as int + 32) as char else s[i])
  }
}
