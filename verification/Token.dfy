/** Signed one-click unsubscribe tokens: member id, expiry and signature, separated by dots. */
module Token {
  import opened Text
  import opened Wrappers

  type Bytes = seq<bv8>

  /** The primitives the token is built on: a keyed digest and a text encoding of bytes. */
  datatype Crypto = Crypto(mac: (string, string) -> Bytes, enc: Bytes -> string, dec: string -> Option<Bytes>)

  datatype TokenError = InvalidToken | TokenExpired

  const DEFAULT_TTL: int := 30 * 24 * 3600 * 1_000_000_000
  const INT64_MAX: int := 0x7FFF_FFFF_FFFF_FFFF

  predicate DotFree(s: string) {
    '.' !in s
  }

  /** Digests are not empty, and an encoding is non-empty, free of dots and white space, and decodes back. */
  ghost predicate Sound(c: Crypto) {
    && (forall k, m :: |c.mac(k, m)| > 0)
    && (forall b :: |b| > 0 ==> Plain(c.enc(b)) && c.dec(c.enc(b)) == Some(b))
  }

  ghost predicate Plain(s: string) {
    s != "" && DotFree(s) && forall i :: 0 <= i < |s| ==> !IsSpace(s[i])
  }

  // ---------- decimal numbers ----------

  predicate IsDigit(c: char) {
    '0' <= c <= '9'
  }

  function Digit(n: nat): (c: char)
    requires n < 10
    ensures IsDigit(c) && c as int - '0' as int == n
  {
    ('0' as int + n) as char
  }

  function Digits(n: nat): string {
    if n < 10 then [Digit(n)] else Digits(n / 10) + [Digit(n % 10)]
  }

  function FormatInt(n: int): string {
    if n < 0 then "-" + Digits(-n) else Digits(n)
  }

  function DigitsValue(s: string): Option<nat> {
    if s == "" then Some(0)
    else
      var c := s[|s| - 1];
      match DigitsValue(s[..|s| - 1])
      case None => None
      case Some(n) => if IsDigit(c) then Some(10 * n + (c as int - '0' as int)) else None
  }

  /** An optional sign and at least one digit, within 64 bits. */
  function ParseInt(s: string): Option<int> {
    var signed := s != "" && (s[0] == '+' || s[0] == '-');
    var digits := if signed then s[1..] else s;
    if digits == "" then None
    else
      match DigitsValue(digits)
      case None => None
      case Some(n) =>
        var value: int := if s[0] == '-' then 0 - n else n;
        if -1 - INT64_MAX <= value <= INT64_MAX then Some(value) else None
  }

  lemma {:induction false} DigitsAre(n: nat)
    ensures Digits(n) != "" && (forall i :: 0 <= i < |Digits(n)| ==> IsDigit(Digits(n)[i]))
    ensures DigitsValue(Digits(n)) == Some(n)
  {
    if n >= 10 {
      DigitsAre(n / 10);
      assert Digits(n)[..|Digits(n)| - 1] == Digits(n / 10);
    } else {
      assert Digits(n)[..0] == "";
    }
  }

  lemma DigitsParse(n: nat)
    ensures Plain(Digits(n)) && Plain("-" + Digits(n))
    ensures ParseInt(Digits(n)) == if n <= INT64_MAX then Some(n) else None
    ensures ParseInt("-" + Digits(n)) == if n <= INT64_MAX + 1 then Some(0 - n) else None
  {
    DigitsAre(n);
    assert IsDigit(Digits(n)[0]);
    assert ("-" + Digits(n))[1..] == Digits(n);
  }

  lemma FormatParses(n: int)
    ensures Plain(FormatInt(n))
    ensures ParseInt(FormatInt(n)) == if -1 - INT64_MAX <= n <= INT64_MAX then Some(n) else None
  {
    DigitsParse(if n < 0 then -n else n);
  }

  // ---------- splitting at dots ----------

  /** The parts once one more character has been read. */
  function AddChar(parts: seq<string>, c: char): (r: seq<string>)
    requires |parts| > 0
    ensures |r| > 0
  {
    var last := |parts| - 1;
    if c == '.' then parts + [""] else parts[last := parts[last] + [c]]
  }

  function Split(s: string): (parts: seq<string>)
    ensures |parts| > 0
  {
    if s == "" then [""] else AddChar(Split(s[..|s| - 1]), s[|s| - 1])
  }

  lemma SplitSnoc(s: string, c: char)
    ensures Split(s + [c]) == AddChar(Split(s), c)
  {
    assert (s + [c])[..|s|] == s;
  }

  lemma {:induction false} SplitDotFree(s: string)
    requires DotFree(s)
    ensures Split(s) == [s]
  {
    if s != "" {
      var n := |s| - 1;
      assert s == s[..n] + [s[n]];
      SplitDotFree(s[..n]);
    }
  }

  lemma {:induction false} SplitAtDot(a: string, b: string)
    ensures Split(a + "." + b) == Split(a) + Split(b)
  {
    if b == "" {
      SplitSnoc(a, '.');
      assert a + "." + b == a + ['.'];
    } else {
      var n := |b| - 1;
      SplitAtDot(a, b[..n]);
      SplitSnoc(a + "." + b[..n], b[n]);
      assert a + "." + b == (a + "." + b[..n]) + [b[n]];
      AddCharToLater(Split(a), Split(b[..n]), b[n]);
    }
  }

  lemma AddCharToLater(before: seq<string>, parts: seq<string>, c: char)
    requires |parts| > 0
    ensures AddChar(before + parts, c) == before + AddChar(parts, c)
  {
  }

  /** A text of at most three parts, put back together. */
  function Rejoined(parts: seq<string>): string
    requires 0 < |parts| <= 3
  {
    if |parts| == 1 then parts[0]
    else if |parts| == 2 then parts[0] + "." + parts[1]
    else parts[0] + "." + parts[1] + "." + parts[2]
  }

  lemma RejoinedAddChar(parts: seq<string>, c: char)
    requires 0 < |parts| && |AddChar(parts, c)| <= 3
    ensures Rejoined(AddChar(parts, c)) == Rejoined(parts) + [c]
  {
    if c == '.' {
      assert Rejoined(parts + [""]) == Rejoined(parts) + ".";
    }
  }

  lemma {:induction false} SplitRejoins(s: string)
    requires |Split(s)| <= 3
    ensures Rejoined(Split(s)) == s
  {
    if s != "" {
      var n := |s| - 1;
      SplitRejoins(s[..n]);
      RejoinedAddChar(Split(s[..n]), s[n]);
      assert s == s[..n] + [s[n]];
    }
  }

  lemma {:induction false} PartsAreDotFree(s: string)
    ensures forall i :: 0 <= i < |Split(s)| ==> DotFree(Split(s)[i])
  {
    if s != "" { PartsAreDotFree(s[..|s| - 1]); }
  }

  /** Three parts around two dots: the only such reading of a text. */
  lemma ThreeParts(s: string, m: string, e: string, p: string)
    ensures Split(s) == [m, e, p] <==> s == m + "." + e + "." + p && DotFree(m) && DotFree(e) && DotFree(p)
  {
    if Split(s) == [m, e, p] {
      SplitRejoins(s);
      PartsAreDotFree(s);
      assert Split(s)[0] == m && Split(s)[1] == e && Split(s)[2] == p;
    }
    if s == m + "." + e + "." + p && DotFree(m) && DotFree(e) && DotFree(p) {
      SplitAtDot(m + "." + e, p);
      SplitAtDot(m, e);
      SplitDotFree(m);
      SplitDotFree(e);
      SplitDotFree(p);
    }
  }

  // ---------- minting and verifying ----------

  /** Whole seconds of an instant given in nanoseconds. */
  function Unix(instant: int): int {
    instant / 1_000_000_000
  }

  function SignedText(member: string, expiry: string): string {
    member + "." + expiry
  }

  function NewWithTtl(c: Crypto, member: string, secret: string, now: int, ttl: int): string {
    var expiry := FormatInt(Unix(now + ttl));
    member + "." + expiry + "." + c.enc(c.mac(secret, SignedText(member, expiry)))
  }

  function New(c: Crypto, member: string, secret: string, now: int): string {
    NewWithTtl(c, member, secret, now, DEFAULT_TTL)
  }

  function VerifyAt(c: Crypto, token: string, secret: string, now: int): Result<string, TokenError> {
    var parts := Split(TrimSpace(token));
    if |parts| != 3 then Err(InvalidToken)
    else
      var (member, expiry, payload) := (parts[0], parts[1], parts[2]);
      if member == "" || expiry == "" || payload == "" then Err(InvalidToken)
      else
        match ParseInt(expiry)
        case None => Err(InvalidToken)
        case Some(exp) =>
          if Unix(now) >= exp then Err(TokenExpired)
          else
            match c.dec(payload)
            case None => Err(InvalidToken)
            case Some(sig) => if c.mac(secret, SignedText(member, expiry)) == sig then Ok(member) else Err(InvalidToken)
  }

  /** A text that reads as a live, correctly signed token for `m`. */
  ghost predicate Accepts(c: Crypto, text: string, secret: string, now: int, m: string, e: string, p: string) {
    && text == m + "." + e + "." + p && DotFree(m) && DotFree(e) && DotFree(p) && m != "" && p != ""
    && ParseInt(e).Some? && Unix(now) < ParseInt(e).value
    && c.dec(p) == Some(c.mac(secret, SignedText(m, e)))
  }

  /** Exactly which texts are accepted, and for whom. */
  lemma VerifiedIff(c: Crypto, token: string, secret: string, now: int, m: string)
    ensures VerifyAt(c, token, secret, now) == Ok(m) <==>
      exists e, p :: Accepts(c, TrimSpace(token), secret, now, m, e, p)
  {
    var text := TrimSpace(token);
    var parts := Split(text);
    if VerifyAt(c, token, secret, now) == Ok(m) {
      ThreeParts(text, parts[0], parts[1], parts[2]);
      assert parts == [parts[0], parts[1], parts[2]];
      assert Accepts(c, text, secret, now, m, parts[1], parts[2]);
    }
    forall e, p | Accepts(c, text, secret, now, m, e, p) ensures VerifyAt(c, token, secret, now) == Ok(m) {
      ThreeParts(text, m, e, p);
    }
  }

  lemma {:induction false} TrimmedStart(s: string)
    ensures TrimSpace(s) != "" ==> !IsSpace(TrimSpace(s)[0])
  {
    TrimLeftStart(s);
    TrimRightKeepsStart(TrimLeft(s));
  }

  lemma {:induction false} TrimLeftStart(s: string)
    ensures TrimLeft(s) != "" ==> !IsSpace(TrimLeft(s)[0])
  {
    if s != "" && IsSpace(s[0]) { TrimLeftStart(s[1..]); }
  }

  lemma {:induction false} TrimRightKeepsStart(s: string)
    ensures TrimRight(s) != "" ==> s != "" && TrimRight(s)[0] == s[0]
  {
    if s != "" && IsSpace(s[|s| - 1]) { TrimRightKeepsStart(s[..|s| - 1]); }
  }

  /** The member ids that survive the trip: not empty, no dot, no white space in front. */
  predicate Carriable(member: string) {
    member != "" && DotFree(member) && !IsSpace(member[0])
  }

  lemma MintedReads(c: Crypto, member: string, secret: string, minted: int, ttl: int, now: int)
    requires Sound(c) && Carriable(member) && -1 - INT64_MAX <= Unix(minted + ttl) <= INT64_MAX
    ensures VerifyAt(c, NewWithTtl(c, member, secret, minted, ttl), secret, now) ==
      if Unix(now) < Unix(minted + ttl) then Ok(member) else Err(TokenExpired)
  {
    var e := FormatInt(Unix(minted + ttl));
    var p := c.enc(c.mac(secret, SignedText(member, e)));
    var token := NewWithTtl(c, member, secret, minted, ttl);
    FormatParses(Unix(minted + ttl));
    assert Plain(p);
    assert token[0] == member[0] && token[|token| - 1] == p[|p| - 1];
    TrimSpaceKeeps(token);
    ThreeParts(token, member, e, p);
  }

  /** A minted token gives its member back exactly when the id is carriable and the expiry is still ahead. */
  lemma RoundTripIff(c: Crypto, member: string, secret: string, minted: int, ttl: int, now: int)
    requires Sound(c) && -1 - INT64_MAX <= Unix(minted + ttl) <= INT64_MAX
    ensures VerifyAt(c, NewWithTtl(c, member, secret, minted, ttl), secret, now) == Ok(member) <==>
      Carriable(member) && Unix(now) < Unix(minted + ttl)
  {
    var token := NewWithTtl(c, member, secret, minted, ttl);
    if VerifyAt(c, token, secret, now) == Ok(member) {
      VerifiedIff(c, token, secret, now, member);
      var e, p :| Accepts(c, TrimSpace(token), secret, now, member, e, p);
      TrimmedStart(token);
      assert TrimSpace(token)[0] == member[0];
    }
    if Carriable(member) { MintedReads(c, member, secret, minted, ttl, now); }
  }

  /** A default token minted for a carriable id is good for just under thirty days, and not after. */
  lemma DefaultTokenLifetime(c: Crypto, member: string, secret: string, minted: int, now: int)
    requires Sound(c) && Carriable(member) && 0 <= Unix(minted) <= INT64_MAX - 30 * 24 * 3600
    ensures VerifyAt(c, New(c, member, secret, minted), secret, now) ==
      if Unix(now) - Unix(minted) < 30 * 24 * 3600 then Ok(member) else Err(TokenExpired)
  {
    assert Unix(minted + DEFAULT_TTL) == Unix(minted) + 30 * 24 * 3600;
    MintedReads(c, member, secret, minted, DEFAULT_TTL, now);
  }

  /** Acceptance only ends: a token accepted at some time was accepted, for the same member, at every earlier one. */
  lemma AcceptanceOnlyEnds(c: Crypto, token: string, secret: string, earlier: int, later: int, m: string)
    requires earlier <= later && VerifyAt(c, token, secret, later) == Ok(m)
    ensures VerifyAt(c, token, secret, earlier) == Ok(m)
  {
    assert Unix(earlier) <= Unix(later);
  }

  lemma NoLaterDot(a: string, x: string)
    requires DotFree(x)
    ensures forall k :: |a| < k < |a + "." + x| ==> (a + "." + x)[k] != '.'
  {
    forall k | |a| < k < |a + "." + x| ensures (a + "." + x)[k] != '.' {
      assert (a + "." + x)[k] == x[k - |a| - 1];
    }
  }

  lemma LastDot(a: string, x: string, b: string, y: string)
    requires DotFree(x) && DotFree(y) && a + "." + x == b + "." + y
    ensures a == b && x == y
  {
    var s := a + "." + x;
    NoLaterDot(a, x);
    NoLaterDot(b, y);
    assert s[|a|] == '.' && s[|b|] == '.';
    assert s[..|a|] == a && s[..|b|] == b;
    assert s[|a| + 1..] == x && s[|b| + 1..] == y;
  }

  /** With a digest that never repeats, a signature minted for one member and expiry vouches for no other. */
  lemma SignatureBindsMemberAndExpiry(
      c: Crypto, token: string, secret: string, now: int, m: string, member: string, minted: int, ttl: int)
    requires Sound(c) && -1 - INT64_MAX <= Unix(minted + ttl) <= INT64_MAX
    requires forall x, y :: c.mac(secret, x) == c.mac(secret, y) ==> x == y
    requires VerifyAt(c, token, secret, now) == Ok(m)
    requires c.dec(Split(TrimSpace(token))[2]) == Some(c.mac(secret, SignedText(member, FormatInt(Unix(minted + ttl)))))
    ensures m == member && Unix(now) < Unix(minted + ttl)
  {
    var expiry := FormatInt(Unix(minted + ttl));
    VerifiedIff(c, token, secret, now, m);
    var e, p :| Accepts(c, TrimSpace(token), secret, now, m, e, p);
    ThreeParts(TrimSpace(token), m, e, p);
    FormatParses(Unix(minted + ttl));
    LastDot(m, e, member, expiry);
  }
}
