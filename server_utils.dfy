/**
 * Server helpers: UUID formatting of base64 ids, e-mail validation and
 * random hex tokens.
 */
module ServerUtils {
  import opened Wrappers
  import opened Platform

  const HEX_DIGITS: string := "0123456789abcdef"

  /** A lower-case hex digit: `0`-`9` or `a`-`f`. */
  predicate IsHexLower(c: char) {
    '0' <= c <= '9' || 'a' <= c <= 'f'
  }

  /** The lower-case hex digit of a nibble. */
  function HexDigit(v: nat): (c: char)
    requires v < 16
    ensures IsHexLower(c)
  {
    HEX_DIGITS[v]
  }

  /** `hex.EncodeToString`: two lower-case digits per byte, high nibble first. */
  function Hex(b: Bytes): (s: string)
    ensures |s| == 2 * |b|
    ensures forall i :: 0 <= i < |s| ==> IsHexLower(s[i])
  {
    if b == [] then []
    else [HexDigit(b[0] as nat / 16), HexDigit(b[0] as nat % 16)] + Hex(b[1..])
  }

  /** Byte `i` is written at positions `2i` (high nibble) and `2i + 1` (low nibble). */
  lemma {:induction false} HexDigitsAt(b: Bytes, i: nat)
    requires i < |b|
    ensures Hex(b)[2 * i] == HexDigit(b[i] as nat / 16)
    ensures Hex(b)[2 * i + 1] == HexDigit(b[i] as nat % 16)
  {
    if i > 0 {
      HexDigitsAt(b[1..], i - 1);
    }
  }

  /** The hex string with the UUID dashes inserted after digits 8, 12, 16 and 20. */
  function FormatUuid(h: string): string
    requires |h| == 32
  {
    h[0..8] + "-" + h[8..12] + "-" + h[12..16] + "-" + h[16..20] + "-" + h[20..32]
  }

  /** `Base64ToUUID`: standard base64 of exactly 16 bytes, formatted 8-4-4-4-12. */
  function Base64ToUUID(p: Prims, b64: string): (r: Result<string, string>)
    ensures r.Success? <==> p.decode64(b64).Some? && |p.decode64(b64).value| == 16
  {
    match p.decode64(b64)
    case None => Failure("illegal base64 data")
    case Some(bytes) =>
      if |bytes| != 16 then Failure("invalid UUID length")
      else Success(FormatUuid(Hex(bytes)))
  }

  function RemoveDashes(s: string): string {
    if s == [] then [] else (if s[0] == '-' then [] else [s[0]]) + RemoveDashes(s[1..])
  }

  lemma {:induction false} RemoveDashesConcat(a: string, b: string)
    ensures RemoveDashes(a + b) == RemoveDashes(a) + RemoveDashes(b)
  {
    if a == [] {
      assert a + b == b;
    } else {
      var t := a[1..];
      var head := if a[0] == '-' then [] else [a[0]];
      assert (a + b)[0] == a[0] && (a + b)[1..] == t + b;
      assert RemoveDashes(a + b) == head + RemoveDashes(t + b);
      RemoveDashesConcat(t, b);
      assert RemoveDashes(a) == head + RemoveDashes(t);
    }
  }

  lemma {:induction false} RemoveDashesNone(s: string)
    requires forall i :: 0 <= i < |s| ==> s[i] != '-'
    ensures RemoveDashes(s) == s
  {
    if s != [] {
      RemoveDashesNone(s[1..]);
      assert s == [s[0]] + s[1..];
    }
  }

  /** The dashes of a formatted UUID sit exactly at positions 8, 13, 18 and 23. */
  lemma FormatUuidDashes(h: string)
    requires |h| == 32
    requires forall i :: 0 <= i < 32 ==> IsHexLower(h[i])
    ensures |FormatUuid(h)| == 36
    ensures forall i :: 0 <= i < 36 ==> (FormatUuid(h)[i] == '-' <==> i == 8 || i == 13 || i == 18 || i == 23)
    ensures forall i :: 0 <= i < 36 && FormatUuid(h)[i] != '-' ==> IsHexLower(FormatUuid(h)[i])
  {
    var u := FormatUuid(h);
    forall i | 0 <= i < 36
      ensures u[i] == '-' <==> i == 8 || i == 13 || i == 18 || i == 23
      ensures u[i] != '-' ==> IsHexLower(u[i])
    {
      if i < 8 { assert u[i] == h[i]; }
      else if i == 8 { }
      else if i < 13 { assert u[i] == h[i - 1]; }
      else if i == 13 { }
      else if i < 18 { assert u[i] == h[i - 2]; }
      else if i == 18 { }
      else if i < 23 { assert u[i] == h[i - 3]; }
      else if i == 23 { }
      else { assert u[i] == h[i - 4]; }
    }
  }

  lemma JoinDash(x: string, y: string)
    ensures RemoveDashes(x + "-" + y) == RemoveDashes(x) + RemoveDashes(y)
  {
    var dash := ['-'];
    assert dash[1..] == [];
    assert RemoveDashes(dash) == [] + RemoveDashes([]);
    RemoveDashesConcat(x, dash);
    RemoveDashesConcat(x + dash, y);
  }

  /** Dropping the dashes of a formatted UUID gives back the hex string. */
  lemma FormatUuidUndashed(h: string)
    requires |h| == 32
    requires forall i :: 0 <= i < 32 ==> h[i] != '-'
    ensures RemoveDashes(FormatUuid(h)) == h
  {
    var a, b, c, d, e := h[0..8], h[8..12], h[12..16], h[16..20], h[20..32];
    RemoveDashesNone(a);
    RemoveDashesNone(b);
    RemoveDashesNone(c);
    RemoveDashesNone(d);
    RemoveDashesNone(e);
    var s1 := a + "-" + b;
    JoinDash(a, b);
    var s2 := s1 + "-" + c;
    JoinDash(s1, c);
    var s3 := s2 + "-" + d;
    JoinDash(s2, d);
    JoinDash(s3, e);
    assert FormatUuid(h) == s3 + "-" + e;
    assert h == a + b + c + d + e;
  }

  /**
   * A converted id is 36 characters, with dashes exactly at positions
   * 8, 13, 18 and 23; dropping them gives the bytes' hex in order.
   */
  lemma UuidShape(p: Prims, b64: string)
    requires Base64ToUUID(p, b64).Success?
    ensures var u := Base64ToUUID(p, b64).value;
      && |u| == 36
      && (forall i :: 0 <= i < 36 ==> (u[i] == '-' <==> i == 8 || i == 13 || i == 18 || i == 23))
      && (forall i :: 0 <= i < 36 && u[i] != '-' ==> IsHexLower(u[i]))
      && RemoveDashes(u) == Hex(p.decode64(b64).value)
  {
    var h := Hex(p.decode64(b64).value);
    FormatUuidDashes(h);
    FormatUuidUndashed(h);
  }

  /* ---------------------------- ValidateEmail ---------------------------- */

  predicate IsAsciiLetter(c: char) {
    'a' <= c <= 'z' || 'A' <= c <= 'Z'
  }

  predicate IsAsciiDigit(c: char) {
    '0' <= c <= '9'
  }

  /** `[a-zA-Z0-9._%+\-]` */
  predicate IsLocalChar(c: char) {
    IsAsciiLetter(c) || IsAsciiDigit(c) || c in "._%+-"
  }

  /** `[a-zA-Z0-9.\-]` */
  predicate IsDomainChar(c: char) {
    IsAsciiLetter(c) || IsAsciiDigit(c) || c == '.' || c == '-'
  }

  predicate AllLocal(s: string) {
    forall i :: 0 <= i < |s| ==> IsLocalChar(s[i])
  }

  predicate AllDomain(s: string) {
    forall i :: 0 <= i < |s| ==> IsDomainChar(s[i])
  }

  predicate AllLetters(s: string) {
    forall i :: 0 <= i < |s| ==> IsAsciiLetter(s[i])
  }

  /**
   * Whether a split at `at` and `dot` fits
   * `^[a-zA-Z0-9._%+\-]+@[a-zA-Z0-9.\-]+\.[a-zA-Z]{2,}$`.
   */
  predicate PatternSplit(s: string, at: int, dot: int) {
    && 0 < at && at + 1 < dot && dot + 2 < |s|
    && AllLocal(s[..at]) && s[at] == '@'
    && AllDomain(s[at + 1..dot]) && s[dot] == '.'
    && AllLetters(s[dot + 1..])
  }

  /** The regular expression's language. */
  ghost predicate MatchesEmailPattern(s: string) {
    exists at, dot :: PatternSplit(s, at, dot)
  }

  function LastIndexOf(s: string, c: char): (k: int)
    ensures -1 <= k < |s|
    ensures k >= 0 ==> s[k] == c
    ensures forall i :: k < i < |s| ==> s[i] != c
  {
    if s == [] then -1
    else if s[|s| - 1] == c then |s| - 1
    else LastIndexOf(s[..|s| - 1], c)
  }

  function IndexOf(s: string, c: char): (k: int)
    ensures -1 <= k < |s|
    ensures k >= 0 ==> s[k] == c
    ensures forall i :: 0 <= i < |s| && (k < 0 || i < k) ==> s[i] != c
  {
    if s == [] then -1
    else if s[0] == c then 0
    else
      var k := IndexOf(s[1..], c);
      if k < 0 then -1 else k + 1
  }

  /** The pattern decided with the only possible split: the first `@` and the last `.`. */
  predicate EmailPattern(s: string) {
    PatternSplit(s, IndexOf(s, '@'), LastIndexOf(s, '.'))
  }

  /** The deterministic check decides exactly the regular expression. */
  lemma EmailPatternIsRegex(s: string)
    ensures EmailPattern(s) <==> MatchesEmailPattern(s)
  {
    if MatchesEmailPattern(s) {
      var at, dot :| PatternSplit(s, at, dot);
      assert forall i :: 0 <= i < at ==> s[i] != '@' by {
        forall i | 0 <= i < at ensures s[i] != '@' {
          assert s[..at][i] == s[i];
        }
      }
      assert IndexOf(s, '@') == at;
      assert forall i :: dot < i < |s| ==> s[i] != '.' by {
        forall i | dot < i < |s| ensures s[i] != '.' {
          assert s[dot + 1..][i - dot - 1] == s[i];
        }
      }
      assert LastIndexOf(s, '.') == dot;
    }
  }

  /**
   * `ValidateEmail`: at most 254 characters, accepted by the RFC 5322
   * address parser `parseAddress` (`mail.ParseAddress`), and matching the
   * pattern.
   */
  function ValidateEmail(parseAddress: string -> bool, email: string): (ok: bool)
    ensures ok <==> |email| <= 254 && parseAddress(email) && MatchesEmailPattern(email)
  {
    EmailPatternIsRegex(email);
    |email| <= 254 && parseAddress(email) && EmailPattern(email)
  }

  /** An accepted address has a top-level domain of at least two letters after its last dot. */
  lemma AcceptedEmailHasTld(parseAddress: string -> bool, email: string)
    requires ValidateEmail(parseAddress, email)
    ensures var dot := LastIndexOf(email, '.');
      dot >= 0 && |email| - dot - 1 >= 2 && AllLetters(email[dot + 1..])
  {
    assert EmailPattern(email);
  }

  /* ----------------------------- RandomToken ----------------------------- */

  /** `RandomToken`: `n` bytes from the random source `rand`, hex-encoded. */
  method RandomToken(n: nat, rand: nat -> byte) returns (token: string)
    ensures |token| == 2 * n
    ensures token == Hex(seq(n, i requires 0 <= i < n => rand(i)))
    ensures forall i :: 0 <= i < |token| ==> IsHexLower(token[i])
  {
    var b := new byte[n];
    var i := 0;
    while i < n
      invariant 0 <= i <= n
      invariant forall j :: 0 <= j < i ==> b[j] == rand(j)
    {
      b[i] := rand(i);
      i := i + 1;
    }
    token := Hex(b[..]);
    assert b[..] == seq(n, i requires 0 <= i < n => rand(i));
  }
}
